/** How long a release can take. The node polls: it first times out overdue requests, then handles what came of that,
    which may ask for a release, and then issues what may be issued. */
module Px4Drain {
  import opened Common
  import opened Px4Sequencer
  import opened Px4Runs

  /** `lastPoll` is when the latest completed poll began; `polling` when the one under way did. */
  datatype Timed = Timed(sys: System, now: int, lastPoll: int, polling: Option<int>)

  datatype Moment = SweepAt(now: int) | IssueAt(now: int) | DoAt(event: Event, now: int)

  /** A poll is complete at most `gap` after the one before it began; anything else may come at any time, also between
      its two halves. */
  predicate OnTime(x: Timed, m: Moment, gap: nat) {
    && x.now <= m.now <= x.lastPoll + gap
    && match m {
         case SweepAt(_) => x.polling.None?
         case IssueAt(_) => x.polling.Some?
         case DoAt(e, _) => !e.Poll? && !e.TickAt? && Possible(x.sys, e)
       }
  }

  function Advance(t: Timeouts, x: Timed, m: Moment): Timed {
    match m
    case SweepAt(now) => Timed(Next(t, x.sys, TickAt(now)), now, x.lastPoll, Some(now))
    case IssueAt(now) =>
      Timed(Next(t, x.sys, Poll(now)), now, if x.polling.Some? then x.polling.value else x.lastPoll, None)
    case DoAt(e, now) => Timed(Next(t, x.sys, e), now, x.lastPoll, x.polling)
  }

  function Elapse(t: Timeouts, x: Timed, ms: seq<Moment>, gap: nat): Option<Timed>
    decreases |ms|
  {
    if ms == [] then Some(x)
    else if !OnTime(x, ms[0], gap) then None
    else Elapse(t, Advance(t, x, ms[0]), ms[1..], gap)
  }

  /** Nothing new is asked of the release: no next execution, no further emergency stop. */
  predicate Undisturbed(m: Moment) {
    m.DoAt? ==> !m.event.Begin? && !(m.event.ReleaseAll? && m.event.force)
  }

  // ---------------------------------------------------------------- the due time

  /** The deadline of the request being waited for, or the last poll. */
  function Horizon(fs: seq<Flight>, lastPoll: int): int {
    if fs == [] then lastPoll
    else if !fs[0].abandoned then fs[0].deadline
    else Horizon(fs[1..], lastPoll)
  }

  lemma {:induction false} HorizonIs(fs: seq<Flight>, lastPoll: int)
    requires Orderly(fs)
    ensures forall f :: f in fs && !f.abandoned ==> Horizon(fs, lastPoll) == f.deadline
    ensures (forall f :: f in fs ==> f.abandoned) ==> Horizon(fs, lastPoll) == lastPoll
  {
    if fs != [] {
      assert Orderly(fs[1..]);
      HorizonIs(fs[1..], lastPoll);
      if !fs[0].abandoned {
        forall f | f in fs && !f.abandoned
          ensures f == fs[0]
        {
          var k :| 0 <= k < |fs| && fs[k] == f;
          assert !(0 < k);
        }
      }
    }
  }

  function Cost(t: Timeouts, queue: seq<Op>, gap: nat): nat {
    if queue == [] then 0 else TimeoutOf(t, queue[0]) + gap + Cost(t, queue[1..], gap)
  }

  /** When everything queued and in flight must be through. */
  function DueOf(t: Timeouts, q: Sequencer, lastPoll: int, gap: nat): int {
    Horizon(q.flights, lastPoll) + gap + Cost(t, q.queue, gap)
  }

  predicate Undrained(q: Sequencer) { q.queue != [] || q.Waiting() }

  // ---------------------------------------------------------------- invariants

  /** What is queued behind a release request in flight: nothing behind the disarm, at most the disarm behind
      OFFBOARD off. */
  ghost predicate Behind(q: Sequencer) {
    q.releasing ==>
      forall f :: f in q.flights && !f.abandoned ==>
        (f.op == Disarm ==> q.queue == []) && (f.op == OffboardOff ==> OffboardOff !in q.queue)
  }

  ghost predicate TimedInv(t: Timeouts, x: Timed, gap: nat) {
    && Inv(x.sys) && Behind(x.sys.q)
    && x.lastPoll <= x.now <= x.lastPoll + gap
    && (forall f :: f in x.sys.q.flights ==> x.lastPoll <= f.deadline <= x.now + TimeoutOf(t, f.op))
    && (x.polling.Some? ==>
          x.lastPoll <= x.polling.value <= x.now && forall f :: f in x.sys.q.flights ==> x.polling.value < f.deadline)
  }

  lemma SweepKeepsTimed(t: Timeouts, x: Timed, now: int, gap: nat)
    requires TimedInv(t, x, gap) && OnTime(x, SweepAt(now), gap)
    ensures TimedInv(t, Advance(t, x, SweepAt(now)), gap)
  {
    hide Inv, Kept, Expired, HasArm;
    StepKeeps(t, x.sys, TickAt(now));
    KeptMembers(x.sys.q.flights, now);
  }

  lemma IssueKeepsTimed(t: Timeouts, x: Timed, now: int, gap: nat)
    requires TimedInv(t, x, gap) && OnTime(x, IssueAt(now), gap)
    ensures TimedInv(t, Advance(t, x, IssueAt(now)), gap)
  {
    hide Inv, Behind;
    StepKeeps(t, x.sys, Poll(now));
    IssueBehind(t, x.sys, now);
  }

  lemma IssueBehind(t: Timeouts, s: System, now: int)
    requires Inv(s) && Behind(s.q)
    ensures Behind(Next(t, s, Poll(now)).q)
  {
    hide IssuedInv, OutcomesInv;
  }

  lemma KeptMembers(fs: seq<Flight>, now: int)
    ensures forall f :: f in Kept(fs, now) <==> f in fs && now < f.deadline
  {
    KeptFacts(fs, now);
  }

  lemma DoKeepsTimed(t: Timeouts, x: Timed, m: Moment, gap: nat)
    requires TimedInv(t, x, gap) && m.DoAt? && OnTime(x, m, gap)
    ensures TimedInv(t, Advance(t, x, m), gap)
  {
    hide Behind, Inv, Next;
    StepKeeps(t, x.sys, m.event);
    DoBehind(t, x.sys, m.event);
    NoNewFlights(t, x.sys, m.event);
  }

  /** Only a poll puts a request in flight. */
  lemma NoNewFlights(t: Timeouts, s: System, e: Event)
    requires Inv(s) && !e.Poll? && !e.TickAt?
    ensures forall f :: f in Next(t, s, e).q.flights ==>
              exists g :: g in s.q.flights && g.deadline == f.deadline && g.op == f.op
  {
    hide IssuedInv, OutcomesInv;
    if e.ReleaseAll? { AbandonFacts(s.q.flights); }
    if e.Response? {
      var i := Find(s.q.flights, e.id);
      if i < |s.q.flights| { RemoveFacts(s.q.flights, i); }
    }
  }

  lemma DoBehind(t: Timeouts, s: System, e: Event)
    requires Inv(s) && Behind(s.q) && !e.Poll? && !e.TickAt? && Possible(s, e)
    ensures Behind(Next(t, s, e).q)
  {
    hide Inv, Release, Find, NoteArm;
    match e
    case Begin =>
    case EngageStep(_) =>
    case ReleaseAll(force) => ReleaseBehind(s, force);
    case Response(id, _, _) =>
      var i := Find(s.q.flights, id);
      if i < |s.q.flights| { ResponseBehind(t, s, e, i); }
  }

  lemma ReleaseBehind(s: System, force: bool)
    requires Inv(s) && Behind(s.q)
    ensures Behind(Release(s.q, force))
  {
    hide IssuedInv, OutcomesInv;
    AbandonFacts(s.q.flights);
  }

  lemma ResponseBehind(t: Timeouts, s: System, e: Event, i: nat)
    requires Inv(s) && Behind(s.q) && e.Response? && i == Find(s.q.flights, e.id) < |s.q.flights|
    ensures Behind(Next(t, s, e).q)
  {
    hide IssuedInv, OutcomesInv, Find;
    RemoveFacts(s.q.flights, i);
    assert Next(t, s, e).q.queue == s.q.queue;
  }

  lemma {:induction false} ElapseKeepsTimed(t: Timeouts, x: Timed, ms: seq<Moment>, gap: nat)
    requires TimedInv(t, x, gap) && Elapse(t, x, ms, gap).Some?
    ensures TimedInv(t, Elapse(t, x, ms, gap).value, gap)
    decreases |ms|
  {
    hide TimedInv, Advance;
    if ms != [] {
      match ms[0] {
        case SweepAt(now) => SweepKeepsTimed(t, x, now, gap);
        case IssueAt(now) => IssueKeepsTimed(t, x, now, gap);
        case DoAt(_, _) => DoKeepsTimed(t, x, ms[0], gap);
      }
      ElapseKeepsTimed(t, Advance(t, x, ms[0]), ms[1..], gap);
    }
  }

  /** A release under way: it is through by `limit`, and abandoned requests time out by `far`. */
  ghost predicate Draining(t: Timeouts, x: Timed, gap: nat, limit: int, far: int) {
    && TimedInv(t, x, gap) && x.sys.q.releasing
    && (Undrained(x.sys.q) ==> DueOf(t, x.sys.q, x.lastPoll, gap) <= limit)
    && forall f :: f in x.sys.q.flights && f.abandoned ==> f.deadline <= far
  }

  /** Timing out requests brings nothing forward. */
  lemma SweepDue(fs: seq<Flight>, lastPoll: int, now: int)
    requires Orderly(fs) && forall f :: f in fs ==> lastPoll <= f.deadline
    ensures Horizon(Kept(fs, now), lastPoll) <= Horizon(fs, lastPoll)
  {
    hide Kept, Horizon;
    KeptFacts(fs, now);
    HorizonIs(fs, lastPoll);
    HorizonIs(Kept(fs, now), lastPoll);
    HorizonAbove(fs, lastPoll);
    if f :| f in Kept(fs, now) && !f.abandoned {
      assert f in fs;
    }
  }

  /** What is issued pays for its timeout with its share of the cost. */
  lemma IssueDue(t: Timeouts, q: Sequencer, lastPoll: int, began: int, now: int, gap: nat)
    requires Orderly(q.flights) && lastPoll <= began <= now <= lastPoll + gap
    ensures
      var r := Issue(t, q, now).0;
      Undrained(r) ==> Undrained(q) && DueOf(t, r, began, gap) <= DueOf(t, q, lastPoll, gap)
  {
    hide Horizon;
    HorizonIs(q.flights, lastPoll);
    HorizonIs(q.flights, began);
    if f :| f in q.flights && !f.abandoned {
      assert q.Waiting();
    } else if q.queue != [] {
      var op := q.queue[0];
      IssueHorizon(q.flights, Flight(op, q.nextId, now + TimeoutOf(t, op), false), began);
    }
  }

  lemma {:induction false} IssueHorizon(fs: seq<Flight>, g: Flight, lastPoll: int)
    requires !g.abandoned && forall f :: f in fs ==> f.abandoned
    ensures Horizon(fs + [g], lastPoll) == g.deadline
  {
    if fs != [] {
      assert fs[0] in fs;
      assert (fs + [g])[1..] == fs[1..] + [g];
      IssueHorizon(fs[1..], g, lastPoll);
    }
  }

  lemma SweepDrains(t: Timeouts, x: Timed, now: int, gap: nat, limit: int, far: int)
    requires Draining(t, x, gap, limit, far) && OnTime(x, SweepAt(now), gap)
    ensures Draining(t, Advance(t, x, SweepAt(now)), gap, limit, far)
  {
    hide Kept, Expired, HasArm, Horizon, Inv, Behind, Cost;
    SweepKeepsTimed(t, x, now, gap);
    InvOrderly(x.sys);
    KeptMembers(x.sys.q.flights, now);
    SweepDue(x.sys.q.flights, x.lastPoll, now);
  }

  lemma IssueDrains(t: Timeouts, x: Timed, now: int, gap: nat, limit: int, far: int)
    requires Draining(t, x, gap, limit, far) && OnTime(x, IssueAt(now), gap)
    ensures Draining(t, Advance(t, x, IssueAt(now)), gap, limit, far)
  {
    hide Horizon, Inv, Behind, Cost, Undrained;
    IssueKeepsTimed(t, x, now, gap);
    InvOrderly(x.sys);
    IssueDue(t, x.sys.q, x.lastPoll, x.polling.value, now, gap);
  }

  lemma InvOrderly(s: System)
    requires Inv(s)
    ensures Orderly(s.q.flights)
  {
  }

  lemma RemoveDue(fs: seq<Flight>, i: nat, lastPoll: int)
    requires Orderly(fs) && i < |fs| && forall f :: f in fs ==> lastPoll <= f.deadline
    ensures Horizon(fs[..i] + fs[i + 1..], lastPoll) <= Horizon(fs, lastPoll)
  {
    hide Horizon;
    var gs := fs[..i] + fs[i + 1..];
    RemoveFacts(fs, i);
    HorizonIs(fs, lastPoll);
    HorizonIs(gs, lastPoll);
    HorizonAbove(fs, lastPoll);
    if f :| f in gs && !f.abandoned {
      assert f in fs;
    }
  }

  lemma DoDrains(t: Timeouts, x: Timed, m: Moment, gap: nat, limit: int, far: int)
    requires Draining(t, x, gap, limit, far) && m.DoAt? && OnTime(x, m, gap) && Undisturbed(m)
    ensures Draining(t, Advance(t, x, m), gap, limit, far)
  {
    hide Horizon, Inv, Cost;
    DoKeepsTimed(t, x, m, gap);
    InvOrderly(x.sys);
    var q := x.sys.q;
    if m.event.Response? {
      var i := Find(q.flights, m.event.id);
      if i < |q.flights| {
        RemoveDue(q.flights, i, x.lastPoll);
        RemoveFacts(q.flights, i);
        var n := Next(t, x.sys, m.event).q;
        assert n.flights == q.flights[..i] + q.flights[i + 1..] && n.queue == q.queue;
        assert Undrained(n) ==> Undrained(q);
      }
    }
  }

  lemma HorizonAbove(fs: seq<Flight>, lastPoll: int)
    requires Orderly(fs) && forall f :: f in fs ==> lastPoll <= f.deadline
    ensures lastPoll <= Horizon(fs, lastPoll)
  {
    HorizonIs(fs, lastPoll);
    if f :| f in fs && !f.abandoned {
      assert Horizon(fs, lastPoll) == f.deadline;
    }
  }

  lemma {:induction false} ElapseDrains(t: Timeouts, x: Timed, ms: seq<Moment>, gap: nat, limit: int, far: int)
    requires Draining(t, x, gap, limit, far) && Elapse(t, x, ms, gap).Some?
    requires forall m :: m in ms ==> Undisturbed(m)
    ensures Draining(t, Elapse(t, x, ms, gap).value, gap, limit, far)
    decreases |ms|
  {
    hide Draining, Advance;
    if ms != [] {
      assert Undisturbed(ms[0]);
      match ms[0] {
        case SweepAt(now) => SweepDrains(t, x, now, gap, limit, far);
        case IssueAt(now) => IssueDrains(t, x, now, gap, limit, far);
        case DoAt(_, _) => DoDrains(t, x, ms[0], gap, limit, far);
      }
      ElapseDrains(t, Advance(t, x, ms[0]), ms[1..], gap, limit, far);
    }
  }

  // ---------------------------------------------------------------- the bound

  const BEGIN: Timed := Timed(START, 0, 0, None)

  /** Whatever is in flight when a release is asked for, first or again, is due in time. */
  lemma ReleaseStartsDraining(t: Timeouts, x: Timed, force: bool, at: int, gap: nat)
    requires TimedInv(t, x, gap) && OnTime(x, DoAt(ReleaseAll(force), at), gap)
    ensures
      var limit := at + t.arm + t.offboard + 3 * gap;
      Draining(t, Advance(t, x, DoAt(ReleaseAll(force), at)), gap, limit, at + t.arm + t.offboard)
  {
    hide Release, Abandon;
    var y := Advance(t, x, DoAt(ReleaseAll(force), at));
    DoKeepsTimed(t, x, DoAt(ReleaseAll(force), at), gap);
    assert y.sys.q.releasing by { Releases(x.sys.q, force); }
    DueInTime(t, y, gap);
  }

  lemma Releases(q: Sequencer, force: bool)
    ensures Release(q, force).releasing
  {
  }

  lemma DueInTime(t: Timeouts, y: Timed, gap: nat)
    requires TimedInv(t, y, gap) && y.sys.q.releasing
    ensures DueOf(t, y.sys.q, y.lastPoll, gap) <= y.now + t.arm + t.offboard + 3 * gap
  {
    hide IssuedInv, OutcomesInv, Horizon, Cost;
    var q := y.sys.q;
    HorizonIs(q.flights, y.lastPoll);
    CostOfRelease(t, q.queue, gap);
    if f :| f in q.flights && !f.abandoned {
      assert IsRelease(f.op) && f.deadline <= y.now + TimeoutOf(t, f.op);
    }
  }

  lemma CostOfRelease(t: Timeouts, queue: seq<Op>, gap: nat)
    requires queue == [] || queue == [OffboardOff] || queue == [Disarm] || queue == [OffboardOff, Disarm]
    ensures Cost(t, queue, gap) <= t.arm + t.offboard + 2 * gap
    ensures OffboardOff !in queue ==> Cost(t, queue, gap) <= t.arm + gap
    ensures queue == [] ==> Cost(t, queue, gap) == 0
  {
    if queue != [] {
      assert queue[1..] == [] || queue[1..] == [Disarm];
      assert Cost(t, queue[1..], gap) <= if |queue| == 2 then t.arm + gap else 0 by {
        if |queue| == 2 { assert queue[1..][1..] == []; }
      }
    }
  }

  /** From every reachable state, a release under way or not: counted from this release, and with no forced one after
      it, the release is through, with nothing queued or in flight, within both timeouts plus three polling gaps. An
      emergency stop during a release only restarts the count. */
  lemma ReleaseDrains(t: Timeouts, before: seq<Moment>, force: bool, at: int, after: seq<Moment>, gap: nat)
    requires Elapse(t, BEGIN, before, gap).Some?
    requires OnTime(Elapse(t, BEGIN, before, gap).value, DoAt(ReleaseAll(force), at), gap)
    requires forall m :: m in after ==> Undisturbed(m)
    requires Elapse(t, Advance(t, Elapse(t, BEGIN, before, gap).value, DoAt(ReleaseAll(force), at)), after, gap).Some?
    ensures
      var r := Advance(t, Elapse(t, BEGIN, before, gap).value, DoAt(ReleaseAll(force), at));
      var x := Elapse(t, r, after, gap).value;
      x.sys.q.Busy() ==> x.now <= at + t.arm + t.offboard + 3 * gap
  {
    hide Elapse, Advance, Horizon, Cost;
    ElapseKeepsTimed(t, BEGIN, before, gap);
    var r := Elapse(t, BEGIN, before, gap).value;
    ReleaseStartsDraining(t, r, force, at, gap);
    var n := Advance(t, r, DoAt(ReleaseAll(force), at));
    var limit, far := at + t.arm + t.offboard + 3 * gap, at + t.arm + t.offboard;
    ElapseDrains(t, n, after, gap, limit, far);
    var x := Elapse(t, n, after, gap).value;
    if x.sys.q.Busy() {
      HorizonAbove(x.sys.q.flights, x.lastPoll);
      if !Undrained(x.sys.q) {
        assert x.sys.q.flights[0] in x.sys.q.flights;
      }
    }
  }
}
