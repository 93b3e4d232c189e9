/** Whole runs of the PX4 sequencer: the order of requests, ownership of an arm, and the time a
    release needs. */
module Px4Runs {
  import opened Common
  import opened Px4Sequencer

  datatype Event =
    | Begin
    | EngageStep(op: Op)
    | ReleaseAll(force: bool)
    | Poll(now: int)
    | Response(id: nat, accepted: bool, reason: nat)
    | TickAt(now: int)

  /** A request handed to the vehicle: in which execution, and whether a release was under way. */
  datatype Issued = Issued(op: Op, id: nat, execution: nat, releasing: bool)

  datatype System = System(
    q: Sequencer,
    execution: nat,
    issued: seq<Issued>,
    outcomes: seq<Outcome>,
    owed: bool)          // this execution's release has to disarm

  const START: System := System(INITIAL, 0, [], [], false)

  predicate Possible(s: System, e: Event) {
    e.Begin? ==> !s.q.Busy()
  }

  function Next(t: Timeouts, s: System, e: Event): System {
    match e
    case Begin => s.(q := BeginExecution(s.q), execution := s.execution + 1, owed := false)
    case EngageStep(op) => s.(q := Engage(s.q, op))
    case ReleaseAll(force) =>
      s.(q := Release(s.q, force), owed := s.owed || force || (!s.q.releasing && s.q.ArmOwned()))
    case Poll(now) =>
      var (q, f) := Issue(t, s.q, now);
      s.(q := q, issued := if f.None? then s.issued
                           else s.issued + [Issued(f.value.op, f.value.id, s.execution, s.q.releasing)])
    case Response(id, accepted, reason) =>
      var (q, o) := OnResponse(s.q, id, accepted, reason);
      s.(q := q, outcomes := if o.None? then s.outcomes else s.outcomes + [o.value])
    case TickAt(now) =>
      var (q, out) := OnTick(s.q, now);
      s.(q := q, outcomes := s.outcomes + out)
  }

  function Run(t: Timeouts, s: System, es: seq<Event>): Option<System>
    decreases |es|
  {
    if es == [] then Some(s)
    else if !Possible(s, es[0]) then None
    else Run(t, Next(t, s, es[0]), es[1..])
  }

  // ---------------------------------------------------------------- invariants

  /** Increasing ids, and at most one request that is not abandoned. */
  ghost predicate Orderly(fs: seq<Flight>) {
    forall i, j :: 0 <= i < j < |fs| ==> fs[i].id < fs[j].id && (fs[i].abandoned || fs[j].abandoned)
  }

  /** Flights carry known ids and the kind of request that the stage allows. */
  ghost predicate FlightsInv(q: Sequencer) {
    && Orderly(q.flights)
    && forall f :: f in q.flights ==> 0 < f.id < q.nextId && FlightKind(q, f)
  }

  predicate FlightKind(q: Sequencer, f: Flight) {
    if q.releasing then IsRelease(f.op) <==> !f.abandoned else !IsRelease(f.op) && !f.abandoned
  }

  /** The queue: engage steps before a release; afterwards OFFBOARD off and then disarm, at most once
      each. */
  predicate QueueInv(q: Sequencer) {
    if q.releasing then
      q.queue == [] || q.queue == [OffboardOff] || q.queue == [Disarm] || q.queue == [OffboardOff, Disarm]
    else forall op :: op in q.queue ==> !IsRelease(op)
  }

  /** Requests are numbered 1, 2, ...; engage requests only before the release of their execution;
      OFFBOARD off never after a disarm of the same execution. */
  ghost predicate IssuedInv(s: System) {
    && s.q.nextId == |s.issued| + 1
    && (forall i :: 0 <= i < |s.issued| ==> IssueInv(s, i))
    && (forall i, j :: 0 <= i < j < |s.issued| ==> PairInv(s.issued[i], s.issued[j]))
  }

  ghost predicate IssueInv(s: System, i: nat)
    requires i < |s.issued|
  {
    var r := s.issued[i];
    && r.id == i + 1 && r.execution <= s.execution && (IsRelease(r.op) <==> r.releasing)
    && (r.execution == s.execution && r.releasing ==> s.q.releasing)
    && (r.execution == s.execution && r.op == Disarm ==> OffboardOff !in s.q.queue)
  }

  ghost predicate PairInv(a: Issued, b: Issued) {
    && a.execution <= b.execution
    && (a.execution == b.execution && a.releasing ==> b.releasing)
    && !(a.execution == b.execution && a.op == Disarm && b.op == OffboardOff)
  }

  /** Each id has at most one outcome, and none while it is in flight. */
  ghost predicate OutcomesInv(s: System) {
    && (forall i :: 0 <= i < |s.outcomes| ==> OutcomeInv(s, s.outcomes[i]))
    && (forall i, j :: 0 <= i < j < |s.outcomes| ==> s.outcomes[i].id != s.outcomes[j].id)
    && (forall f :: f in s.q.flights ==> FlightOf(s, f))
  }

  ghost predicate OutcomeInv(s: System, o: Outcome) {
    && 0 < o.id <= |s.issued| && s.issued[o.id - 1].op == o.op
    && forall f :: f in s.q.flights ==> f.id != o.id
  }

  ghost predicate FlightOf(s: System, f: Flight) {
    && 0 < f.id <= |s.issued| && s.issued[f.id - 1].op == f.op
    && s.issued[f.id - 1].execution == s.execution
  }

  ghost predicate Inv(s: System) {
    FlightsInv(s.q) && QueueInv(s.q) && IssuedInv(s) && OutcomesInv(s)
  }

  // ---------------------------------------------------------------- the timeout sweep

  lemma {:induction false} KeptFacts(fs: seq<Flight>, now: int)
    ensures forall f :: f in Kept(fs, now) <==> f in fs && now < f.deadline
    ensures Orderly(fs) ==> Orderly(Kept(fs, now))
  {
    if fs != [] {
      KeptFacts(fs[1..], now);
      var rest := Kept(fs[1..], now);
      if Orderly(fs) {
        assert Orderly(fs[1..]);
        forall g | g in rest
          ensures fs[0].id < g.id && (fs[0].abandoned || g.abandoned)
        {
          var k :| 0 <= k < |fs[1..]| && fs[1..][k] == g;
          assert fs[k + 1] == g;
        }
      }
    }
  }

  ghost predicate FromOverdue(o: Outcome, fs: seq<Flight>, now: int) {
    exists f :: f in fs && now >= f.deadline && o == Overdue(f)
  }

  /** An outcome of a later flight is one of the whole list, and has a larger id than the first flight. */
  lemma Earlier(fs: seq<Flight>, now: int, o: Outcome)
    requires fs != [] && Orderly(fs) && FromOverdue(o, fs[1..], now)
    ensures FromOverdue(o, fs, now) && fs[0].id < o.id
  {
    var f :| f in fs[1..] && now >= f.deadline && o == Overdue(f);
    var k :| 0 <= k < |fs[1..]| && fs[1..][k] == f;
    assert fs[k + 1] == f;
  }

  ghost predicate AllOverdue(os: seq<Outcome>, fs: seq<Flight>, now: int) {
    forall i :: 0 <= i < |os| ==> FromOverdue(os[i], fs, now)
  }

  ghost predicate Increasing(os: seq<Outcome>) {
    forall i, j :: 0 <= i < j < |os| ==> os[i].id < os[j].id
  }

  lemma EarlierAll(fs: seq<Flight>, now: int, os: seq<Outcome>)
    requires fs != [] && Orderly(fs) && AllOverdue(os, fs[1..], now)
    ensures AllOverdue(os, fs, now) && forall i :: 0 <= i < |os| ==> fs[0].id < os[i].id
  {
    hide Orderly, FromOverdue;
    forall i | 0 <= i < |os|
      ensures FromOverdue(os[i], fs, now) && fs[0].id < os[i].id
    {
      Earlier(fs, now, os[i]);
    }
  }

  lemma PrependOverdue(o: Outcome, os: seq<Outcome>, fs: seq<Flight>, now: int)
    requires FromOverdue(o, fs, now) && AllOverdue(os, fs, now) && Increasing(os)
    requires forall i :: 0 <= i < |os| ==> o.id < os[i].id
    ensures AllOverdue([o] + os, fs, now) && Increasing([o] + os)
  {
    hide FromOverdue;
  }

  lemma TailOrderly(fs: seq<Flight>)
    requires fs != [] && Orderly(fs)
    ensures Orderly(fs[1..])
  {
  }

  lemma {:induction false} ExpiredOrder(fs: seq<Flight>, now: int)
    requires Orderly(fs)
    ensures AllOverdue(Expired(fs, now), fs, now) && Increasing(Expired(fs, now))
  {
    if fs != [] {
      hide Orderly, AllOverdue, Increasing;
      TailOrderly(fs);
      ExpiredOrder(fs[1..], now);
      EarlierAll(fs, now, Expired(fs[1..], now));
      if now >= fs[0].deadline {
        assert FromOverdue(Overdue(fs[0]), fs, now);
        PrependOverdue(Overdue(fs[0]), Expired(fs[1..], now), fs, now);
      } else {
        assert [] + Expired(fs[1..], now) == Expired(fs[1..], now);
      }
    }
  }

  lemma {:induction false} ExpiredAll(fs: seq<Flight>, now: int, f: Flight)
    requires f in fs && now >= f.deadline
    ensures Overdue(f) in Expired(fs, now)
  {
    if f != fs[0] { ExpiredAll(fs[1..], now, f); }
  }

  lemma ExpiredFacts(fs: seq<Flight>, now: int)
    requires Orderly(fs)
    ensures forall f :: f in fs && now >= f.deadline ==> Overdue(f) in Expired(fs, now)
    ensures AllOverdue(Expired(fs, now), fs, now) && Increasing(Expired(fs, now))
  {
    hide *;
    ExpiredOrder(fs, now);
    forall f | f in fs && now >= f.deadline
      ensures Overdue(f) in Expired(fs, now)
    {
      ExpiredAll(fs, now, f);
    }
  }

  /** No two flights share an id. */
  lemma SameId(fs: seq<Flight>, f: Flight, g: Flight)
    requires Orderly(fs) && f in fs && g in fs && f.id == g.id
    ensures f == g
  {
    var i :| 0 <= i < |fs| && fs[i] == f;
    var j :| 0 <= j < |fs| && fs[j] == g;
    assert !(i < j) && !(j < i);
  }

  // ---------------------------------------------------------------- one event

  /** The outcome of a flight that is no longer in flight. */
  ghost predicate Settles(o: Outcome, before: seq<Flight>, after: seq<Flight>) {
    exists f :: f in before && f !in after && o.id == f.id && o.op == f.op
  }

  /** Reporting outcomes of flights that have left keeps the outcome history. */
  lemma OutcomesGrow(s: System, n: System, out: seq<Outcome>)
    requires OutcomesInv(s) && Orderly(s.q.flights)
    requires n.issued == s.issued && n.execution == s.execution && n.outcomes == s.outcomes + out
    requires forall f :: f in n.q.flights ==> f in s.q.flights
    requires forall i :: 0 <= i < |out| ==> Settles(out[i], s.q.flights, n.q.flights)
    requires forall i, j :: 0 <= i < j < |out| ==> out[i].id != out[j].id
    ensures OutcomesInv(n)
  {
    forall i | 0 <= i < |out|
      ensures OutcomeInv(n, out[i])
      ensures forall k :: 0 <= k < |s.outcomes| ==> s.outcomes[k].id != out[i].id
    {
      SettledOnce(s, n, out[i]);
    }
    forall k | 0 <= k < |n.outcomes|
      ensures OutcomeInv(n, n.outcomes[k])
    {
      if k < |s.outcomes| {
        assert OutcomeInv(s, s.outcomes[k]);
      } else {
        assert n.outcomes[k] == out[k - |s.outcomes|];
      }
    }
    forall f | f in n.q.flights
      ensures FlightOf(n, f)
    {
      assert FlightOf(s, f);
    }
  }

  lemma SettledOnce(s: System, n: System, o: Outcome)
    requires OutcomesInv(s) && Orderly(s.q.flights) && n.issued == s.issued
    requires forall f :: f in n.q.flights ==> f in s.q.flights
    requires Settles(o, s.q.flights, n.q.flights)
    ensures OutcomeInv(n, o)
    ensures forall k :: 0 <= k < |s.outcomes| ==> s.outcomes[k].id != o.id
  {
    var f :| f in s.q.flights && f !in n.q.flights && o.id == f.id && o.op == f.op;
    assert FlightOf(s, f);
    forall g | g in n.q.flights
      ensures g.id != o.id
    {
      if g.id == f.id { SameId(s.q.flights, f, g); }
    }
    forall k | 0 <= k < |s.outcomes|
      ensures s.outcomes[k].id != o.id
    {
      assert OutcomeInv(s, s.outcomes[k]);
    }
  }

  lemma TickKeeps(t: Timeouts, s: System, now: int)
    requires Inv(s)
    ensures Inv(Next(t, s, TickAt(now)))
  {
    hide Kept, Expired, HasArm, IssuedInv, OutcomesInv, Orderly;
    var fs := s.q.flights;
    KeptFacts(fs, now);
    ExpiredFacts(fs, now);
    var n := Next(t, s, TickAt(now));
    var out := Expired(fs, now);
    forall i | 0 <= i < |out|
      ensures Settles(out[i], fs, n.q.flights)
    {
      assert FromOverdue(out[i], fs, now);
    }
    OutcomesGrow(s, n, out);
    IssuedFrame(s, n);
  }

  /** The request history only depends on the queue, the stage and the id counter. */
  lemma IssuedFrame(s: System, n: System)
    requires IssuedInv(s) && n.issued == s.issued && n.execution == s.execution
    requires n.q.queue == s.q.queue && n.q.releasing == s.q.releasing && n.q.nextId == s.q.nextId
    ensures IssuedInv(n)
  {
    forall i | 0 <= i < |n.issued|
      ensures IssueInv(n, i)
    {
      assert IssueInv(s, i);
    }
  }

  lemma ResponseKeeps(t: Timeouts, s: System, id: nat, accepted: bool, reason: nat)
    requires Inv(s)
    ensures Inv(Next(t, s, Response(id, accepted, reason)))
  {
    hide IssuedInv, OutcomesInv, Orderly, FlightsInv, NoteArm, Find;
    var n := Next(t, s, Response(id, accepted, reason));
    var fs, i := s.q.flights, Find(s.q.flights, id);
    ResponseFrame(t, s, id, accepted, reason);
    IssuedFrame(s, n);
    if i < |fs| {
      var o := OnResponse(s.q, id, accepted, reason).1.value;
      ResponseSettles(s, n, i, o);
      OutcomesGrow(s, n, [o]);
    }
  }

  /** What a response leaves alone. */
  lemma ResponseFrame(t: Timeouts, s: System, id: nat, accepted: bool, reason: nat)
    ensures var n, i := Next(t, s, Response(id, accepted, reason)), Find(s.q.flights, id);
            && n.issued == s.issued && n.execution == s.execution && n.owed == s.owed
            && n.q == s.q.(flights := n.q.flights, arm := n.q.arm, armedEarlier := n.q.armedEarlier)
            && (i >= |s.q.flights| ==> n == s)
            && (i < |s.q.flights| ==>
                  && n.q.flights == s.q.flights[..i] + s.q.flights[i + 1..]
                  && var o := OnResponse(s.q, id, accepted, reason).1;
                     o.Some? && n.outcomes == s.outcomes + [o.value]
                     && o.value.id == s.q.flights[i].id && o.value.op == s.q.flights[i].op)
  {
    hide Find;
  }

  lemma ResponseSettles(s: System, n: System, i: nat, o: Outcome)
    requires FlightsInv(s.q) && i < |s.q.flights| && o.id == s.q.flights[i].id && o.op == s.q.flights[i].op
    requires n.q == s.q.(flights := s.q.flights[..i] + s.q.flights[i + 1..], arm := n.q.arm,
                         armedEarlier := n.q.armedEarlier)
    ensures FlightsInv(n.q) && Orderly(s.q.flights) && Settles(o, s.q.flights, n.q.flights)
    ensures forall f :: f in n.q.flights ==> f in s.q.flights
  {
    hide Orderly;
    RemoveFacts(s.q.flights, i);
    assert s.q.flights[i] in s.q.flights;
  }

  lemma RemoveFacts(fs: seq<Flight>, i: nat)
    requires Orderly(fs) && i < |fs|
    ensures Orderly(fs[..i] + fs[i + 1..])
    ensures forall f :: f in fs[..i] + fs[i + 1..] ==> f in fs && f.id != fs[i].id
  {
    var gs := fs[..i] + fs[i + 1..];
    assert forall k :: 0 <= k < |gs| ==> gs[k] == fs[if k < i then k else k + 1];
  }

  lemma PollKeeps(t: Timeouts, s: System, now: int)
    requires Inv(s)
    ensures Inv(Next(t, s, Poll(now)))
  {
    var n := Next(t, s, Poll(now));
    if n.q != s.q {
      var op := s.q.queue[0];
      assert op in s.q.queue;
      assert forall f :: f in s.q.flights ==> f.abandoned;
      forall k | 0 <= k < |s.outcomes|
        ensures OutcomeInv(n, s.outcomes[k])
      {
        assert OutcomeInv(s, s.outcomes[k]);
      }
      forall f | f in n.q.flights
        ensures FlightOf(n, f)
      {
        if f in s.q.flights { assert FlightOf(s, f); }
      }
      forall i | 0 <= i < |n.issued|
        ensures IssueInv(n, i)
        ensures i < |s.issued| ==> PairInv(n.issued[i], n.issued[|s.issued|])
      {
        if i < |s.issued| { assert IssueInv(s, i); }
      }
      assert QueueInv(n.q);
      assert FlightsInv(n.q);
    }
  }

  lemma ReleaseKeeps(t: Timeouts, s: System, force: bool)
    requires Inv(s)
    ensures Inv(Next(t, s, ReleaseAll(force)))
  {
    var n := Next(t, s, ReleaseAll(force));
    forall i | 0 <= i < |n.issued|
      ensures IssueInv(n, i)
    {
      assert IssueInv(s, i);
    }
    AbandonFacts(s.q.flights);
    forall k | 0 <= k < |n.outcomes|
      ensures OutcomeInv(n, n.outcomes[k])
    {
      assert OutcomeInv(s, s.outcomes[k]);
    }
    assert FlightsInv(n.q);
  }

  lemma AbandonFacts(fs: seq<Flight>)
    requires Orderly(fs)
    ensures Orderly(Abandon(fs))
    ensures forall f :: f in Abandon(fs) ==> f.abandoned && exists g :: g in fs && f == g.(abandoned := true)
  {
    forall f | f in Abandon(fs)
      ensures f.abandoned && exists g :: g in fs && f == g.(abandoned := true)
    {
      var i :| 0 <= i < |fs| && f == Abandon(fs)[i];
      assert fs[i] in fs && f == fs[i].(abandoned := true);
    }
  }

  lemma OtherKeeps(t: Timeouts, s: System, e: Event)
    requires Inv(s) && Possible(s, e) && (e.Begin? || e.EngageStep?)
    ensures Inv(Next(t, s, e))
  {
    var n := Next(t, s, e);
    forall i | 0 <= i < |n.issued|
      ensures IssueInv(n, i)
    {
      assert IssueInv(s, i);
    }
    forall k | 0 <= k < |n.outcomes|
      ensures OutcomeInv(n, n.outcomes[k])
    {
      assert OutcomeInv(s, s.outcomes[k]);
    }
  }

  lemma StepKeeps(t: Timeouts, s: System, e: Event)
    requires Inv(s) && Possible(s, e)
    ensures Inv(Next(t, s, e))
  {
    hide Inv, Next;
    match e
    case Begin => OtherKeeps(t, s, e);
    case EngageStep(_) => OtherKeeps(t, s, e);
    case ReleaseAll(force) => ReleaseKeeps(t, s, force);
    case Poll(now) => PollKeeps(t, s, now);
    case Response(id, accepted, reason) => ResponseKeeps(t, s, id, accepted, reason);
    case TickAt(now) => TickKeeps(t, s, now);
  }

  lemma {:induction false} RunKeeps(t: Timeouts, s: System, es: seq<Event>)
    requires Inv(s) && Run(t, s, es).Some?
    ensures Inv(Run(t, s, es).value)
    decreases |es|
  {
    hide Inv, Next;
    if es != [] {
      StepKeeps(t, s, es[0]);
      RunKeeps(t, Next(t, s, es[0]), es[1..]);
    }
  }

  // ---------------------------------------------------------------- discipline over whole runs

  /** In every run: at most one request that is not abandoned is in flight; ids are 1, 2, ... in
      order of issue and each gets at most one outcome; no engage request follows a release request
      of its execution; OFFBOARD off is never issued after a disarm of its execution. */
  lemma Discipline(t: Timeouts, es: seq<Event>)
    requires Run(t, START, es).Some?
    ensures
      var s := Run(t, START, es).value;
      && (forall i, j :: 0 <= i < j < |s.q.flights| ==> s.q.flights[i].abandoned || s.q.flights[j].abandoned)
      && (forall i :: 0 <= i < |s.issued| ==> s.issued[i].id == i + 1)
      && (forall i, j :: 0 <= i < j < |s.outcomes| ==> s.outcomes[i].id != s.outcomes[j].id)
      && (forall i, j :: 0 <= i < j < |s.issued| && s.issued[i].execution == s.issued[j].execution ==>
          && !(IsRelease(s.issued[i].op) && !IsRelease(s.issued[j].op))
          && !(s.issued[i].op == Disarm && s.issued[j].op == OffboardOff))
  {
    hide Run;
    RunKeeps(t, START, es);
    var s := Run(t, START, es).value;
    forall i | 0 <= i < |s.issued|
      ensures s.issued[i].id == i + 1
    {
      assert IssueInv(s, i);
    }
    forall i, j | 0 <= i < j < |s.issued| && s.issued[i].execution == s.issued[j].execution
      ensures !(IsRelease(s.issued[i].op) && !IsRelease(s.issued[j].op))
      ensures !(s.issued[i].op == Disarm && s.issued[j].op == OffboardOff)
    {
      assert IssueInv(s, i) && IssueInv(s, j) && PairInv(s.issued[i], s.issued[j]);
    }
  }

  /** Once a release is under way, nothing issued before the next execution engages the vehicle. */
  lemma ReleaseIsFinal(t: Timeouts, es: seq<Event>, now: int)
    requires Run(t, START, es).Some? && Run(t, START, es).value.q.releasing
    ensures
      var f := Issue(t, Run(t, START, es).value.q, now).1;
      f.Some? ==> IsRelease(f.value.op)
  {
    hide Run;
    RunKeeps(t, START, es);
  }
}
