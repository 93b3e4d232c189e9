/** What an execution may have armed, and that its release disarms it. */
module Px4Ownership {
  import opened Px4Sequencer
  import opened Px4Runs

  /** Request i is an arm of the current execution. */
  predicate OurArm(s: System, i: nat) {
    i < |s.issued| && s.issued[i].op == Arm && s.issued[i].execution == s.execution
  }

  /** The vehicle service refused before commanding anything; reason 3 says that PX4 did not confirm in time. */
  predicate DefinitelyRefused(o: Outcome) {
    o.verdict == Rejected && o.reason != 3
  }

  /** Request i may have armed the vehicle: an arm of this execution that was not definitely
      refused. */
  ghost predicate MayHaveArmed(s: System, i: nat) {
    OurArm(s, i) && forall o :: o in s.outcomes && o.id == i + 1 ==> !DefinitelyRefused(o)
  }

  ghost predicate DisarmIssued(s: System, i: nat) {
    i < |s.issued| && s.issued[i].op == Disarm && s.issued[i].execution == s.execution
  }

  // ---------------------------------------------------------------- invariant

  ghost predicate Answered(s: System, id: nat) {
    exists o :: o in s.outcomes && o.id == id
  }

  ghost predicate Aloft(s: System, id: nat) {
    exists f :: f in s.q.flights && f.id == id
  }

  /** An arm of this execution whose answer leaves the vehicle possibly armed. */
  ghost predicate Doubtful(s: System, o: Outcome) {
    o in s.outcomes && o.id > 0 && OurArm(s, o.id - 1) && !DefinitelyRefused(o)
  }

  ghost predicate ArmAloft(s: System) {
    exists f :: f in s.q.flights && f.op == Arm
  }

  ghost predicate EngagedInv(s: System) {
    && !s.owed
    && (s.q.arm == ArmInFlight <==> ArmAloft(s))
    && (s.q.arm == ArmConfirmed || s.q.arm == ArmDoubt ==> s.q.armedEarlier)
    && (forall i: nat :: OurArm(s, i) ==> Aloft(s, i + 1) || Answered(s, i + 1))
    && (s.q.armedEarlier <==> exists o :: Doubtful(s, o))
  }

  ghost predicate OwnershipInv(s: System) {
    && (!s.q.releasing ==> EngagedInv(s))
    && (s.owed ==> Disarm in s.q.queue || exists i: nat :: DisarmIssued(s, i))
  }

  // ---------------------------------------------------------------- one event

  lemma SingleFlight(q: Sequencer)
    requires FlightsInv(q) && !q.releasing
    ensures |q.flights| <= 1
  {
    var fs := q.flights;
    assert forall i :: 0 <= i < |fs| ==> fs[i] in fs;
    assert |fs| > 1 ==> fs[0].abandoned || fs[1].abandoned;
  }

  lemma AloftWaits(q: Sequencer)
    requires FlightsInv(q) && !q.releasing
    ensures q.flights != [] ==> q.Waiting()
  {
    if q.flights != [] {
      assert q.flights[0] in q.flights;
    }
  }

  lemma PollKeepsOwed(t: Timeouts, s: System, now: int)
    requires Inv(s) && OwnershipInv(s) && s.q.releasing
    ensures OwnershipInv(Next(t, s, Poll(now)))
  {
    hide Inv, EngagedInv;
    var n := Next(t, s, Poll(now));
    if s.owed && n.q != s.q {
      assert forall i :: 0 <= i < |s.issued| ==> n.issued[i] == s.issued[i];
      if i: nat :| DisarmIssued(s, i) {
        assert DisarmIssued(n, i);
      } else if s.q.queue[0] == Disarm {
        assert DisarmIssued(n, |s.issued|);
      } else {
        assert Disarm in s.q.queue[1..];
      }
    }
  }

  lemma PollKeepsOwnership(t: Timeouts, s: System, now: int)
    requires Inv(s) && OwnershipInv(s)
    ensures OwnershipInv(Next(t, s, Poll(now)))
  {
    hide OutcomesInv, IssuedInv, EngagedInv;
    if s.q.releasing {
      PollKeepsOwed(t, s, now);
    } else {
      var n := Next(t, s, Poll(now));
      AloftWaits(s.q);
      if n.q != s.q {
        IssuedNumbers(s);
        NothingOwed(s);
        IssueKeepsEngaged(s, n, n.q.flights[|s.q.flights|]);
      }
    }
  }

  lemma IssuedNumbers(s: System)
    requires IssuedInv(s)
    ensures s.q.nextId == |s.issued| + 1
  {
  }

  lemma NothingOwed(s: System)
    requires EngagedInv(s)
    ensures !s.owed
  {
  }

  lemma IssueKeepsEngaged(s: System, n: System, f: Flight)
    requires EngagedInv(s) && IssuedInv(s) && s.q.flights == [] && n.q.flights == [f] && f.id == |s.issued| + 1
    requires |n.issued| == |s.issued| + 1 && n.issued[..|s.issued|] == s.issued
    requires n.issued[|s.issued|].op == f.op && n.issued[|s.issued|].execution == s.execution
    requires n.execution == s.execution && n.outcomes == s.outcomes && !n.owed
    requires n.q.arm == (if f.op == Arm then ArmInFlight else s.q.arm) && n.q.armedEarlier == s.q.armedEarlier
    requires OutcomesInv(s)
    ensures EngagedInv(n)
  {
    assert !ArmAloft(s);
    assert f in n.q.flights;
    forall i: nat | OurArm(n, i)
      ensures Aloft(n, i + 1) || Answered(n, i + 1)
    {
      if i < |s.issued| {
        assert n.issued[i] == n.issued[..|s.issued|][i] == s.issued[i];
        assert OurArm(s, i);
      }
    }
    forall o
      ensures Doubtful(n, o) <==> Doubtful(s, o)
    {
      if o in s.outcomes {
        var k :| 0 <= k < |s.outcomes| && s.outcomes[k] == o;
        assert OutcomeInv(s, s.outcomes[k]);
        assert n.issued[o.id - 1] == n.issued[..|s.issued|][o.id - 1];
      }
    }
  }

  /** An arm answered: it leaves the sky and its verdict is noted. */
  lemma AnswerKeepsEngaged(s: System, n: System, f: Flight, o: Outcome)
    requires EngagedInv(s) && s.q.flights == [f] && n.q.flights == [] && FlightOf(s, f)
    requires n.issued == s.issued && n.execution == s.execution && !n.owed
    requires n.outcomes == s.outcomes + [o] && o.id == f.id && o.op == f.op
    requires n.q.arm == (if f.op == Arm then ArmAfter(o.verdict, o.reason) else s.q.arm)
    requires n.q.armedEarlier ==
      (s.q.armedEarlier || (f.op == Arm && ArmAfter(o.verdict, o.reason) in {ArmConfirmed, ArmDoubt}))
    ensures EngagedInv(n)
  {
    assert f in s.q.flights && o in n.outcomes;
    assert ArmAloft(s) <==> f.op == Arm;
    forall i: nat | OurArm(n, i)
      ensures Answered(n, i + 1)
    {
      assert OurArm(s, i);
      if Answered(s, i + 1) {
        var p :| p in s.outcomes && p.id == i + 1;
        assert p in n.outcomes;
      }
    }
    if f.op == Arm {
      assert Doubtful(n, o) <==> ArmAfter(o.verdict, o.reason) in {ArmConfirmed, ArmDoubt};
    }
    forall p
      ensures Doubtful(n, p) <==> Doubtful(s, p) || (p == o && Doubtful(n, o))
    {
    }
  }

  lemma ResponseKeepsOwnership(t: Timeouts, s: System, id: nat, accepted: bool, reason: nat)
    requires Inv(s) && OwnershipInv(s)
    ensures OwnershipInv(Next(t, s, Response(id, accepted, reason)))
  {
    hide Inv, EngagedInv;
    var n := Next(t, s, Response(id, accepted, reason));
    if n.q != s.q {
      if s.q.releasing {
        if i: nat :| DisarmIssued(s, i) { assert DisarmIssued(n, i); }
      } else {
        EngagedResponse(t, s, id, accepted, reason);
        assert !s.owed by { EngagedOwesNothing(s); }
      }
    }
  }

  lemma EngagedOwesNothing(s: System)
    requires EngagedInv(s)
    ensures !s.owed
  {
  }

  lemma EngagedResponse(t: Timeouts, s: System, id: nat, accepted: bool, reason: nat)
    requires Inv(s) && !s.q.releasing && EngagedInv(s) && Next(t, s, Response(id, accepted, reason)).q != s.q
    ensures EngagedInv(Next(t, s, Response(id, accepted, reason)))
  {
    hide IssuedInv;
    var n := Next(t, s, Response(id, accepted, reason));
    SingleFlight(s.q);
    var f := s.q.flights[0];
    assert f in s.q.flights && FlightOf(s, f);
    EngagedOwesNothing(s);
    hide EngagedInv, OutcomesInv, FlightsInv;
    AnswerKeepsEngaged(s, n, f, OnResponse(s.q, id, accepted, reason).1.value);
  }

  lemma OneFlight(f: Flight, now: int)
    ensures Kept([f], now) == if now < f.deadline then [f] else []
    ensures Expired([f], now) == if now < f.deadline then [] else [Overdue(f)]
    ensures HasArm([Overdue(f)]) <==> f.op == Arm
    ensures !HasArm([])
  {
    var fs: seq<Flight> := [f];
    assert fs[1..] == [];
    assert Overdue(f) in [Overdue(f)];
  }

  lemma TickKeepsOwnership(t: Timeouts, s: System, now: int)
    requires Inv(s) && OwnershipInv(s)
    ensures OwnershipInv(Next(t, s, TickAt(now)))
  {
    hide Kept, Expired, HasArm;
    var n := Next(t, s, TickAt(now));
    if s.q.releasing {
      if i: nat :| DisarmIssued(s, i) { assert DisarmIssued(n, i); }
    } else {
      SingleFlight(s.q);
      if s.q.flights == [] {
        SweepEnd(s.q.flights, now);
        NoArmYet();
        assert n.q == s.q && n.outcomes == s.outcomes;
      } else {
        var f := s.q.flights[0];
        assert f in s.q.flights && FlightOf(s, f);
        assert s.q.flights == [f] && [f][1..] == [];
        OneFlight(f, now);
        if now < f.deadline {
          assert n.outcomes == s.outcomes && n.q.flights == s.q.flights;
        } else {
          AnswerKeepsEngaged(s, n, f, Overdue(f));
        }
      }
    }
  }

  lemma OtherKeepsOwnership(t: Timeouts, s: System, e: Event)
    requires Inv(s) && OwnershipInv(s) && Possible(s, e)
    requires e.Begin? || e.EngageStep? || e.ReleaseAll?
    ensures OwnershipInv(Next(t, s, e))
  {
    var n := Next(t, s, e);
    if i: nat :| DisarmIssued(s, i) {
      if !e.Begin? { assert DisarmIssued(n, i); }
    }
    if e.Begin? {
      forall i: nat
        ensures !OurArm(n, i)
      {
        if i < |s.issued| { assert IssueInv(s, i); }
      }
    } else if e.EngageStep? {
      SameHistory(s, n);
    } else if s.q.releasing && e.force && Disarm !in n.q.queue {
      // already in flight: it was issued
      var f :| f in s.q.flights && f.op == Disarm;
      assert FlightOf(s, f);
      assert DisarmIssued(n, f.id - 1);
    }
  }

  lemma SameHistory(s: System, n: System)
    requires EngagedInv(s) || s.q.releasing
    requires n == s.(q := s.q.(queue := n.q.queue))
    ensures EngagedInv(s) ==> EngagedInv(n)
  {
    assert n.q.flights == s.q.flights && n.q.arm == s.q.arm;
    assert ArmAloft(n) <==> ArmAloft(s);
    assert forall i: nat :: OurArm(n, i) <==> OurArm(s, i);
    assert forall o :: Doubtful(n, o) <==> Doubtful(s, o);
    assert forall id: nat :: Aloft(n, id) <==> Aloft(s, id);
    assert forall id: nat :: Answered(n, id) <==> Answered(s, id);
  }

  lemma {:induction false} RunKeepsOwnership(t: Timeouts, s: System, es: seq<Event>)
    requires Inv(s) && OwnershipInv(s) && Run(t, s, es).Some?
    ensures Inv(Run(t, s, es).value) && OwnershipInv(Run(t, s, es).value)
    decreases |es|
  {
    hide Inv, OwnershipInv, Next;
    if es != [] {
      StepKeeps(t, s, es[0]);
      match es[0] {
        case Poll(now) => PollKeepsOwnership(t, s, now);
        case Response(id, accepted, reason) => ResponseKeepsOwnership(t, s, id, accepted, reason);
        case TickAt(now) => TickKeepsOwnership(t, s, now);
        case Begin => OtherKeepsOwnership(t, s, es[0]);
        case EngageStep(_) => OtherKeepsOwnership(t, s, es[0]);
        case ReleaseAll(_) => OtherKeepsOwnership(t, s, es[0]);
      }
      RunKeepsOwnership(t, Next(t, s, es[0]), es[1..]);
    }
  }

  lemma StartOwnership()
    ensures Inv(START) && OwnershipInv(START)
  {
    assert forall i: nat :: !OurArm(START, i);
  }

  // ---------------------------------------------------------------- whole runs

  /** Until the release, the ownership flag says exactly whether some arm of this execution was not
      definitely refused. */
  lemma OwnershipExact(t: Timeouts, es: seq<Event>)
    requires Run(t, START, es).Some? && !Run(t, START, es).value.q.releasing
    ensures
      var s := Run(t, START, es).value;
      s.q.ArmOwned() <==> exists i: nat :: MayHaveArmed(s, i)
  {
    hide Run;
    StartOwnership();
    RunKeepsOwnership(t, START, es);
    var s := Run(t, START, es).value;
    if s.q.arm == ArmInFlight {
      var f :| f in s.q.flights && f.op == Arm;
      AloftMayHaveArmed(s, f);
    }
    if s.q.armedEarlier {
      var o :| Doubtful(s, o);
      DoubtfulMayHaveArmed(s, o);
    }
    if i: nat :| MayHaveArmed(s, i) {
      if Answered(s, i + 1) {
        var o :| o in s.outcomes && o.id == i + 1;
        assert Doubtful(s, o);
      } else {
        var f :| f in s.q.flights && f.id == i + 1;
        assert FlightOf(s, f);
      }
    }
  }

  lemma AloftMayHaveArmed(s: System, f: Flight)
    requires OutcomesInv(s) && f in s.q.flights && f.op == Arm
    ensures f.id > 0 && MayHaveArmed(s, f.id - 1)
  {
    assert FlightOf(s, f);
    forall o | o in s.outcomes
      ensures o.id != f.id
    {
      var k :| 0 <= k < |s.outcomes| && s.outcomes[k] == o;
      assert OutcomeInv(s, s.outcomes[k]);
    }
  }

  lemma DoubtfulMayHaveArmed(s: System, o: Outcome)
    requires OutcomesInv(s) && Doubtful(s, o)
    ensures MayHaveArmed(s, o.id - 1)
  {
    var i :| 0 <= i < |s.outcomes| && s.outcomes[i] == o;
    forall p | p in s.outcomes && p.id == o.id
      ensures p == o
    {
      var j :| 0 <= j < |s.outcomes| && s.outcomes[j] == p;
      assert !(i < j) && !(j < i);
    }
  }

  /** A release disarms what the execution may have armed: right after it, the disarm is queued, and
      in every later state of that execution it is still queued or has been issued. */
  lemma ArmIsReleased(t: Timeouts, before: seq<Event>, force: bool, after: seq<Event>)
    requires Run(t, START, before).Some? && !Run(t, START, before).value.q.releasing
    requires (exists i: nat :: MayHaveArmed(Run(t, START, before).value, i)) || force
    requires Begin !in after
    requires Run(t, Next(t, Run(t, START, before).value, ReleaseAll(force)), after).Some?
    ensures
      var s := Run(t, Next(t, Run(t, START, before).value, ReleaseAll(force)), after).value;
      Disarm in s.q.queue || exists i: nat :: DisarmIssued(s, i)
  {
    hide Run, Next;
    StartOwnership();
    RunKeepsOwnership(t, START, before);
    OwnershipExact(t, before);
    var r := Run(t, START, before).value;
    var n := Next(t, r, ReleaseAll(force));
    ReleaseOwes(t, r, force);
    StepKeeps(t, r, ReleaseAll(force));
    OtherKeepsOwnership(t, r, ReleaseAll(force));
    RunKeepsOwnership(t, n, after);
    StillOwed(t, n, after);
  }

  lemma ReleaseOwes(t: Timeouts, r: System, force: bool)
    requires !r.q.releasing && (r.q.ArmOwned() || force)
    ensures Next(t, r, ReleaseAll(force)).owed
  {
  }

  lemma {:induction false} StillOwed(t: Timeouts, s: System, es: seq<Event>)
    requires s.owed && Begin !in es && Run(t, s, es).Some?
    ensures Run(t, s, es).value.owed
    decreases |es|
  {
    if es != [] {
      StillOwed(t, Next(t, s, es[0]), es[1..]);
    }
  }
}
