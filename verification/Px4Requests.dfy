/** Which requests the PX4 sequencer issues, told by events alone: the engage steps asked for, in order, and after a
    release OFFBOARD off, if OFFBOARD was requested, and the disarms owed; one at a time. */
module Px4Requests {
  import opened Px4Sequencer
  import opened Px4Runs
  import opened Px4Account

  // ---------------------------------------------------------------- what was asked for

  /** A release has come since the execution began. */
  function UnderRelease(es: seq<Event>, k: nat): bool
    requires k <= |es|
  {
    k > 0 && !es[k - 1].Begin? && (es[k - 1].ReleaseAll? || UnderRelease(es, k - 1))
  }

  predicate IsStep(e: Event) { e.EngageStep? && (e.op == Arm || e.op == OffboardOn) }

  /** The engage steps asked for since the execution began, up to its release. */
  function Asked(es: seq<Event>, k: nat): seq<Op>
    requires k <= |es|
  {
    if k == 0 || es[k - 1].Begin? then []
    else
      var e, before := es[k - 1], Asked(es, k - 1);
      if IsStep(e) && !UnderRelease(es, k - 1) then before + [e.op] else before
  }

  /** The requests of one execution, in the order of issue. */
  function Ours(issued: seq<Issued>, execution: nat): seq<Op> {
    if issued == [] then []
    else
      var r := issued[|issued| - 1];
      Ours(issued[..|issued| - 1], execution) + (if r.execution == execution then [r.op] else [])
  }

  function Disarms(d: nat): (ops: seq<Op>)
    ensures |ops| == d && forall op :: op in ops ==> op == Disarm
  {
    seq(d, _ => Disarm)
  }

  /** What a release has to undo. */
  function Undo(engaged: seq<Op>, d: nat): seq<Op> {
    (if OffboardOn in engaged then [OffboardOff] else []) + Disarms(d)
  }

  /** Requests issued and waiting, given the steps asked for: before a release all steps; afterwards the steps already
      issued and the release of what they engaged, with a disarm exactly when one is owed. */
  ghost predicate InOrder(s: System, asked: seq<Op>) {
    var ours := Ours(s.issued, s.execution);
    if !s.q.releasing then ours + s.q.queue == asked && !s.owed
    else exists j: nat, d: nat :: Releasing(s, ours, asked, j, d)
  }

  ghost predicate Releasing(s: System, ours: seq<Op>, asked: seq<Op>, j: nat, d: nat) {
    && j <= |asked| && j <= |ours| && ours[..j] == asked[..j]
    && ours[j..] + s.q.queue == Undo(asked[..j], d) && (d > 0 <==> s.owed)
  }

  /** OFFBOARD counts as requested once a request for it went out. */
  ghost predicate Requested(s: System) {
    !s.q.releasing ==> (s.q.offboardRequested <==> OffboardOn in Ours(s.issued, s.execution))
  }

  // ---------------------------------------------------------------- one event

  lemma {:induction false} NoneYet(issued: seq<Issued>, execution: nat)
    requires forall i :: 0 <= i < |issued| ==> issued[i].execution < execution
    ensures Ours(issued, execution) == []
  {
    if issued != [] { NoneYet(issued[..|issued| - 1], execution); }
  }

  lemma OursMore(issued: seq<Issued>, r: Issued)
    ensures Ours(issued + [r], r.execution) == Ours(issued, r.execution) + [r.op]
  {
    assert (issued + [r])[..|issued|] == issued;
  }

  lemma {:induction false} OursHas(issued: seq<Issued>, execution: nat, i: nat)
    requires i < |issued| && issued[i].execution == execution
    ensures issued[i].op in Ours(issued, execution)
  {
    if i < |issued| - 1 { OursHas(issued[..|issued| - 1], execution, i); }
  }

  lemma BeginOrder(t: Timeouts, s: System)
    requires Inv(s)
    ensures InOrder(Next(t, s, Begin), []) && Requested(Next(t, s, Begin))
  {
    forall i | 0 <= i < |s.issued|
      ensures s.issued[i].execution < s.execution + 1
    {
      assert IssueInv(s, i);
    }
    NoneYet(s.issued, s.execution + 1);
  }

  lemma PollOrder(t: Timeouts, s: System, now: int, asked: seq<Op>)
    requires InOrder(s, asked) && Requested(s)
    ensures InOrder(Next(t, s, Poll(now)), asked) && Requested(Next(t, s, Poll(now)))
  {
    hide Ours, Undo, TimeoutOf;
    var n := Next(t, s, Poll(now));
    if n != s {
      var r := Issued(s.q.queue[0], s.q.nextId, s.execution, s.q.releasing);
      OursMore(s.issued, r);
      var ours, more := Ours(s.issued, s.execution), Ours(n.issued, n.execution);
      if s.q.releasing {
        var j: nat, d: nat :| Releasing(s, ours, asked, j, d);
        assert more[..j] == ours[..j];
        assert more[j..] + n.q.queue == ours[j..] + s.q.queue;
        assert Releasing(n, more, asked, j, d);
      } else {
        assert more + n.q.queue == ours + s.q.queue;
      }
    }
  }

  lemma FirstRelease(t: Timeouts, s: System, force: bool, asked: seq<Op>)
    requires InOrder(s, asked) && Requested(s) && !s.q.releasing
    ensures InOrder(Next(t, s, ReleaseAll(force)), asked)
  {
    hide Ours, Abandon;
    var n := Next(t, s, ReleaseAll(force));
    var ours := Ours(s.issued, s.execution);
    var d := if force || s.q.ArmOwned() then 1 else 0;
    assert asked[..|ours|] == ours && ours[..|ours|] == ours;
    assert Disarms(1) == [Disarm] && Disarms(0) == [];
    assert ours[|ours|..] + n.q.queue == Undo(ours, d);
    assert Releasing(n, ours, asked, |ours|, d);
  }

  lemma NextRelease(t: Timeouts, s: System, force: bool, asked: seq<Op>)
    requires Inv(s) && InOrder(s, asked) && s.q.releasing
    requires forall op :: op in asked ==> op == Arm || op == OffboardOn
    ensures InOrder(Next(t, s, ReleaseAll(force)), asked)
  {
    hide Ours, Inv, Next, Undo;
    var n := Next(t, s, ReleaseAll(force));
    var ours := Ours(s.issued, s.execution);
    var j: nat, d: nat :| Releasing(s, ours, asked, j, d);
    ReleaseAgain(t, s, force);
    if n.q.queue != s.q.queue {
      UndoMore(ours[j..], s.q.queue, asked[..j], d);
      assert Releasing(n, ours, asked, j, d + 1);
    } else {
      if force { DisarmPending(s, asked, j, d); }
      assert Releasing(n, ours, asked, j, d);
    }
  }

  lemma ReleaseAgain(t: Timeouts, s: System, force: bool)
    requires s.q.releasing
    ensures var n := Next(t, s, ReleaseAll(force));
            && n == s.(q := s.q.(queue := n.q.queue), owed := s.owed || force)
            && (n.q.queue != s.q.queue ==> force && n.q.queue == s.q.queue + [Disarm])
            && (n.q.queue == s.q.queue && force ==>
                  Disarm in s.q.queue || exists f :: f in s.q.flights && f.op == Disarm)
  {
  }

  lemma UndoMore(rest: seq<Op>, queue: seq<Op>, engaged: seq<Op>, d: nat)
    requires rest + queue == Undo(engaged, d)
    ensures rest + (queue + [Disarm]) == Undo(engaged, d + 1)
  {
    assert Disarms(d) + [Disarm] == Disarms(d + 1);
    assert rest + (queue + [Disarm]) == (rest + queue) + [Disarm];
  }

  /** A disarm in the queue or in flight is one of those to come. */
  lemma DisarmPending(s: System, asked: seq<Op>, j: nat, d: nat)
    requires Inv(s) && Releasing(s, Ours(s.issued, s.execution), asked, j, d)
    requires forall op :: op in asked ==> op == Arm || op == OffboardOn
    requires Disarm in s.q.queue || exists f :: f in s.q.flights && f.op == Disarm
    ensures d > 0
  {
    hide Ours, FlightsInv, QueueInv, IssuedInv;
    var ours := Ours(s.issued, s.execution);
    if Disarm !in s.q.queue {
      var f :| f in s.q.flights && f.op == Disarm;
      assert FlightOf(s, f);
      OursHas(s.issued, s.execution, f.id - 1);
      forall i | 0 <= i < j
        ensures ours[i] != Disarm
      {
        assert ours[..j][i] == asked[..j][i];
        assert asked[i] in asked;
      }
      var i :| 0 <= i < |ours| && ours[i] == Disarm;
      assert ours[j..][i - j] == Disarm;
    }
    assert Disarm in ours[j..] + s.q.queue;
    assert Disarm in Disarms(d);
  }

  lemma EngageOrder(t: Timeouts, s: System, op: Op, asked: seq<Op>)
    requires InOrder(s, asked) && Requested(s)
    ensures var n := Next(t, s, EngageStep(op));
            && InOrder(n, if (op == Arm || op == OffboardOn) && !s.q.releasing then asked + [op] else asked)
            && Requested(n)
  {
    hide Ours;
    var n := Next(t, s, EngageStep(op));
    var ours := Ours(s.issued, s.execution);
    if s.q.releasing {
      assert n == s;
    } else if op == Arm || op == OffboardOn {
      assert ours + (s.q.queue + [op]) == (ours + s.q.queue) + [op];
    }
  }

  lemma AnswerOrder(t: Timeouts, s: System, e: Event, asked: seq<Op>)
    requires InOrder(s, asked) && Requested(s) && (e.Response? || e.TickAt?)
    ensures InOrder(Next(t, s, e), asked) && Requested(Next(t, s, e))
  {
    hide Ours, Kept, Expired, HasArm, Find, Undo;
    var n := Next(t, s, e);
    var ours := Ours(s.issued, s.execution);
    if s.q.releasing {
      var j: nat, d: nat :| Releasing(s, ours, asked, j, d);
      assert Releasing(n, ours, asked, j, d);
    }
  }

  // ---------------------------------------------------------------- runs

  lemma StageIs(t: Timeouts, s: System, e: Event)
    ensures Next(t, s, e).q.releasing <==> !e.Begin? && (e.ReleaseAll? || s.q.releasing)
  {
    hide Kept, Expired, HasArm, Find, Abandon;
  }

  lemma {:induction false} AskedEngage(es: seq<Event>, k: nat)
    requires k <= |es|
    ensures forall op :: op in Asked(es, k) ==> op == Arm || op == OffboardOn
  {
    hide UnderRelease;
    if k > 0 { AskedEngage(es, k - 1); }
  }

  lemma NothingAsked(t: Timeouts, es: seq<Event>, k: nat)
    requires k == 0
    ensures After(t, es, k).q.releasing <==> UnderRelease(es, k)
    ensures InOrder(After(t, es, k), Asked(es, k)) && Requested(After(t, es, k))
  {
    assert Ours([], 0) == [];
  }

  lemma AskedStep(t: Timeouts, es: seq<Event>, k: nat)
    requires 0 < k <= |es|
    ensures After(t, es, k) == Next(t, After(t, es, k - 1), es[k - 1])
    ensures UnderRelease(es, k) <==> !es[k - 1].Begin? && (es[k - 1].ReleaseAll? || UnderRelease(es, k - 1))
    ensures Asked(es, k) == if es[k - 1].Begin? then []
                            else if IsStep(es[k - 1]) && !UnderRelease(es, k - 1)
                            then Asked(es, k - 1) + [es[k - 1].op] else Asked(es, k - 1)
  {
    hide Next;
  }

  /** In every run: a release is under way exactly when one was asked for since the execution began; and the requests
      of the execution, issued and waiting, are the steps asked for in order, or after a release the steps already
      issued, then OFFBOARD off exactly if OFFBOARD had been requested, then disarms, at least one exactly if owed. */
  lemma {:induction false} RequestsInOrder(t: Timeouts, es: seq<Event>, k: nat)
    requires Legal(t, es) && k <= |es|
    ensures After(t, es, k).q.releasing <==> UnderRelease(es, k)
    ensures InOrder(After(t, es, k), Asked(es, k)) && Requested(After(t, es, k))
    decreases k
  {
    hide Next, Inv, InOrder, Requested, UnderRelease, Asked, After;
    if k == 0 {
      NothingAsked(t, es, k);
    } else {
      var s, e, asked := After(t, es, k - 1), es[k - 1], Asked(es, k - 1);
      RequestsInOrder(t, es, k - 1);
      LegalKeeps(t, es, k - 1);
      StageIs(t, s, e);
      AskedEngage(es, k - 1);
      AskedStep(t, es, k);
      OrderStep(t, s, e, asked);
    }
  }

  lemma OrderStep(t: Timeouts, s: System, e: Event, asked: seq<Op>)
    requires Inv(s) && InOrder(s, asked) && Requested(s)
    requires forall op :: op in asked ==> op == Arm || op == OffboardOn
    ensures var n := Next(t, s, e);
            && Requested(n)
            && InOrder(n, if e.Begin? then []
                          else if IsStep(e) && !s.q.releasing then asked + [e.op]
                          else asked)
  {
    hide Next, Inv, InOrder, Requested;
    match e
    case Begin => BeginOrder(t, s);
    case EngageStep(op) => EngageOrder(t, s, op, asked);
    case ReleaseAll(force) =>
      if s.q.releasing { NextRelease(t, s, force, asked); } else { FirstRelease(t, s, force, asked); }
      ReleaseRequested(t, s, force);
    case Poll(now) => PollOrder(t, s, now, asked);
    case Response(_, _, _) => AnswerOrder(t, s, e, asked);
    case TickAt(_) => AnswerOrder(t, s, e, asked);
  }

  lemma ReleaseRequested(t: Timeouts, s: System, force: bool)
    ensures Requested(Next(t, s, ReleaseAll(force)))
  {
  }

  // ---------------------------------------------------------------- one at a time

  /** A request that holds the next one back: neither ended nor abandoned. */
  ghost predicate Holds(t: Timeouts, es: seq<Event>, a: nat, r: Issued, k: nat) {
    a < k <= |es| && IssuedAt(t, es, a, r) && Open(t, es, a, r, k) && (r.releasing || !Released(es, a, k))
  }

  /** In every run a poll issues the request at the head of the queue exactly when no request holds it back. */
  lemma PollIssues(t: Timeouts, es: seq<Event>, k: nat, now: int)
    requires Legal(t, es) && k <= |es|
    ensures var s := After(t, es, k);
            var n := Next(t, s, Poll(now));
            if s.q.queue != [] && !(exists a: nat, r :: Holds(t, es, a, r, k))
            then n.issued == s.issued + [Issued(s.q.queue[0], |s.issued| + 1, s.execution, s.q.releasing)]
            else n == s
  {
    hide After, Legal, Holds, Inv;
    LegalKeeps(t, es, k);
    WaitingIs(t, es, k);
    Numbered(After(t, es, k));
  }

  lemma Numbered(s: System)
    requires Inv(s)
    ensures s.q.nextId == |s.issued| + 1
  {
  }

  lemma WaitingIs(t: Timeouts, es: seq<Event>, k: nat)
    requires Legal(t, es) && k <= |es|
    ensures After(t, es, k).q.Waiting() <==> exists a: nat, r :: Holds(t, es, a, r, k)
  {
    hide After, Legal, Inv, Open, IssuedAt, Released;
    var s := After(t, es, k);
    if s.q.Waiting() {
      var f :| f in s.q.flights && !f.abandoned;
      WaitingHolds(t, es, k, f);
    }
    if a: nat, r :| Holds(t, es, a, r, k) {
      IssuedByPoll(t, es, a, r);
      AllTracked(t, es, a, r, k);
      HoldsWaits(t, es, a, r, k);
    }
  }

  lemma HoldsWaits(t: Timeouts, es: seq<Event>, a: nat, r: Issued, k: nat)
    requires a < k <= |es| && es[a].Poll? && Tracked(t, es, a, r, k) && Open(t, es, a, r, k)
    requires r.releasing || !Released(es, a, k)
    ensures After(t, es, k).q.Waiting()
  {
    hide After, Open, Released, Answers;
  }

  /** A flight is the open request of its number. */
  lemma WaitingHolds(t: Timeouts, es: seq<Event>, k: nat, f: Flight)
    requires Legal(t, es) && k <= |es| && f in After(t, es, k).q.flights && !f.abandoned
    ensures exists a: nat, r :: Holds(t, es, a, r, k)
  {
    hide After, Legal, Inv, Open, IssuedAt, Released, Answers;
    var s := After(t, es, k);
    LegalKeeps(t, es, k);
    FlightNumber(s, f);
    var r := s.issued[f.id - 1];
    var a := IssueEvent(t, es, k, f.id - 1);
    IssuedByPoll(t, es, a, r);
    AllTracked(t, es, a, r, k);
    if Open(t, es, a, r, k) {
      OneOfNumber(s, f, Flight(r.op, r.id, es[a].now + Limit(t, r.op), !r.releasing && Released(es, a, k)));
      assert Holds(t, es, a, r, k);
    } else {
      var b: nat, o :| b < k && Answers(t, es, a, r, b, o) && o in s.outcomes;
      AnswerId(t, es, a, r, b, o);
      OutcomeOf(s, o);
      assert false;
    }
  }

  lemma FlightNumber(s: System, f: Flight)
    requires Inv(s) && f in s.q.flights
    ensures 0 < f.id <= |s.issued| && s.issued[f.id - 1].id == f.id
  {
    assert FlightOf(s, f);
    assert IssueInv(s, f.id - 1);
  }

  lemma OneOfNumber(s: System, f: Flight, g: Flight)
    requires Inv(s) && f in s.q.flights && g in s.q.flights && f.id == g.id
    ensures f == g
  {
    SameId(s.q.flights, f, g);
  }
}
