/** Retry timing of the spray state machine over timed runs: an unconfirmed OFF is confirmed or
    re-sent within a bound, and never re-sent earlier than its backoff while nothing disturbs it. */
module SprayTiming {
  import opened Common
  import opened SprayFsm
  import SprayLink

  datatype Event =
    | TickAt(inputs: Inputs, now: real)
    | AckAt(number: nat, success: bool, now: real)
    | ResetAt(now: real)

  /** `offAt`: when the latest OFF was dispatched. `streak`: OFF failures since the last confirmed
      OFF, enable or safety edge, or reset. `wait`: the failure being waited out, if any. */
  datatype Timed = Timed(
    fsm: Fsm,
    now: real,
    lastTick: real,
    offAt: real,
    lastOff: bool,          // the latest command was an OFF
    streak: nat,
    wait: Option<Wait>,
    resends: seq<Resend>)   // every OFF dispatched out of a wait

  /** A failed OFF: which consecutive failure it was, when, and whether only quiet events followed. */
  datatype Wait = Wait(k: nat, failedAt: real, quiet: bool)
  datatype Resend = Resend(wait: Wait, at: real)

  function Start(t: real): Timed {
    Timed(INITIAL, t, t, t, false, 0, None, [])
  }

  /** Ticks come at most `gap` apart, so every event does; time does not run backwards. */
  predicate OnTime(s: Timed, e: Event, gap: real) {
    s.now <= e.now <= s.lastTick + gap
  }

  predicate EnableEdge(m: Fsm, e: Event) {
    e.TickAt? && e.inputs.enabled != m.prevEnabled
  }

  predicate SafetyEdge(m: Fsm, e: Event) {
    e.TickAt? && e.inputs.enabled && !e.inputs.safe && m.prevSafe
  }

  /** Enabled, no edge, no reset: nothing that is allowed to shorten a wait. */
  predicate Quiet(m: Fsm, e: Event) {
    match e
    case TickAt(i, _) => i.enabled && !EnableEdge(m, e) && !SafetyEdge(m, e)
    case AckAt(_, _, _) => true
    case ResetAt(_) => false
  }

  function Effect(p: Params, m: Fsm, e: Event): Out {
    match e
    case TickAt(i, now) => Tick(p, m, i, now)
    case AckAt(n, ok, now) => OnAck(p, m, n, ok, now)
    case ResetAt(now) => Out(EventReset(m, now), None)
  }

  /** The OFF in flight fails in this event: a negative ack, or an overdue one. */
  predicate OffFails(p: Params, m: Fsm, e: Event) {
    match e
    case TickAt(i, now) =>
      m.phase == OffPending && m.pendingSince.Some? && now - m.pendingSince.value >= p.ackTimeout &&
      !(i.enabled && !m.prevEnabled)
    case AckAt(n, ok, _) => m.phase == OffPending && n == m.number && !ok
    case ResetAt(_) => false
  }

  predicate OffConfirms(m: Fsm, e: Event) {
    e.AckAt? && m.phase == OffPending && e.number == m.number && e.success
  }

  function Advance(p: Params, s: Timed, e: Event): Timed {
    var m := s.fsm;
    var o := Effect(p, m, e);
    var sentOff := o.command.Some? && !o.command.value.on;
    // Counters restart at an edge or a reset, then the failure of this event is counted.
    var before := if EnableEdge(m, e) || SafetyEdge(m, e) || e.ResetAt? then 0 else s.streak;
    var wait := if OffFails(p, m, e) then Some(Wait(before, e.now, Quiet(m, e)))
                else match s.wait case None => None case Some(w) => Some(w.(quiet := w.quiet && Quiet(m, e)));
    Timed(o.fsm, e.now,
          if e.TickAt? then e.now else s.lastTick,
          if sentOff then e.now else s.offAt,
          if o.command.Some? then !o.command.value.on else s.lastOff,
          if OffFails(p, m, e) then before + 1 else if OffConfirms(m, e) then 0 else before,
          if o.fsm.phase == Recovery then wait else None,
          if sentOff && wait.Some? then s.resends + [Resend(wait.value, e.now)] else s.resends)
  }

  function Run(p: Params, s: Timed, es: seq<Event>): Timed
    decreases |es|
  {
    if es == [] then s else Run(p, Advance(p, s, es[0]), es[1..])
  }

  predicate OnTimeRun(p: Params, s: Timed, es: seq<Event>, gap: real)
    decreases |es|
  {
    es == [] || (OnTime(s, es[0], gap) && OnTimeRun(p, Advance(p, s, es[0]), es[1..], gap))
  }

  // ---------------------------------------------------------------- upper bound

  /** While an OFF is unconfirmed, its ack was not overdue at the last tick, or the next tick from
      now on is its retry or comes before a near deadline. */
  ghost predicate Bounded(p: Params, s: Timed, gap: real) {
    && SprayLink.FsmInv(s.fsm)
    && s.lastTick <= s.now <= s.lastTick + gap
    && (s.lastOff ==> s.fsm.phase in {OffPending, Recovery, OffConfirmed, Disabled})
    && (s.fsm.phase == OffPending ==>
        && s.lastOff
        && s.fsm.pendingSince == Some(s.offAt)
        && (s.lastTick <= s.offAt || s.lastTick - s.offAt < p.ackTimeout))
    && (s.fsm.phase == Recovery ==>
        && s.lastOff
        && s.lastTick <= s.offAt + p.ackTimeout + gap + p.backoffMax
        && (s.fsm.deadline.value <= s.offAt + p.ackTimeout + gap + p.backoffMax || s.fsm.deadline.value <= s.now))
  }

  lemma BackoffBelowMax(p: Params, k: nat)
    ensures Backoff(p, k) <= p.backoffMax
  {
  }

  lemma TickBounded(p: Params, s: Timed, e: Event, gap: real)
    requires p.ackTimeout >= 0.0 && p.backoffMax >= 0.0
    requires Bounded(p, s, gap) && OnTime(s, e, gap) && e.TickAt?
    ensures Bounded(p, Advance(p, s, e), gap)
  {
    hide Backoff;
    BackoffBelowMax(p, s.fsm.attempt);
    BackoffBelowMax(p, 0);
    SprayLink.TickKeepsFsm(p, s.fsm, e.inputs, e.now);
  }

  lemma OtherBounded(p: Params, s: Timed, e: Event, gap: real)
    requires p.ackTimeout >= 0.0 && p.backoffMax >= 0.0
    requires Bounded(p, s, gap) && OnTime(s, e, gap) && !e.TickAt?
    ensures Bounded(p, Advance(p, s, e), gap)
  {
    hide Backoff;
    BackoffBelowMax(p, s.fsm.attempt);
    if e.AckAt? { SprayLink.AckFacts(p, s.fsm, e.number, e.success, e.now); }
  }

  lemma {:induction false} RunBounded(p: Params, s: Timed, es: seq<Event>, gap: real)
    requires p.ackTimeout >= 0.0 && p.backoffMax >= 0.0
    requires Bounded(p, s, gap) && OnTimeRun(p, s, es, gap)
    ensures Bounded(p, Run(p, s, es), gap)
    decreases |es|
  {
    hide Bounded, Advance;
    if es != [] {
      if es[0].TickAt? { TickBounded(p, s, es[0], gap); } else { OtherBounded(p, s, es[0], gap); }
      RunBounded(p, Advance(p, s, es[0]), es[1..], gap);
    }
  }

  /** In every timed run with ticks at most `gap` apart, an OFF that is the latest command is either
      confirmed or was dispatched at most ackTimeout + backoffMax + 2 * gap ago. */
  lemma RetryUpperBound(p: Params, t0: real, es: seq<Event>, gap: real)
    requires p.ackTimeout >= 0.0 && p.backoffMax >= 0.0 && gap >= 0.0
    requires OnTimeRun(p, Start(t0), es, gap)
    ensures
      var s := Run(p, Start(t0), es);
      s.lastOff ==>
        || s.fsm.phase in {OffConfirmed, Disabled}
        || s.now - s.offAt <= p.ackTimeout + p.backoffMax + 2.0 * gap
  {
    hide Run;
    RunBounded(p, Start(t0), es, gap);
  }

  // ---------------------------------------------------------------- lower bound

  ghost predicate Paced(p: Params, s: Timed) {
    && SprayLink.FsmInv(s.fsm)
    && s.streak == s.fsm.attempt
    && (s.fsm.phase == Recovery <==> s.wait.Some?)
    && (s.wait.Some? && s.wait.value.quiet ==>
        s.fsm.deadline == Some(s.wait.value.failedAt + Backoff(p, s.wait.value.k)))
    && forall i :: 0 <= i < |s.resends| ==> RespectsBackoff(p, s.resends[i])
  }

  predicate RespectsBackoff(p: Params, r: Resend) {
    r.wait.quiet ==> r.at - r.wait.failedAt >= Backoff(p, r.wait.k)
  }

  lemma TickPaced(p: Params, s: Timed, e: Event)
    requires Paced(p, s) && e.TickAt?
    ensures Paced(p, Advance(p, s, e))
  {
    hide Backoff;
    SprayLink.TickKeepsFsm(p, s.fsm, e.inputs, e.now);
  }

  lemma OtherPaced(p: Params, s: Timed, e: Event)
    requires Paced(p, s) && !e.TickAt?
    ensures Paced(p, Advance(p, s, e))
  {
    hide Backoff;
  }

  lemma {:induction false} RunPaced(p: Params, s: Timed, es: seq<Event>)
    requires Paced(p, s)
    ensures Paced(p, Run(p, s, es))
    decreases |es|
  {
    hide Paced, Advance;
    if es != [] {
      if es[0].TickAt? { TickPaced(p, s, es[0]); } else { OtherPaced(p, s, es[0]); }
      RunPaced(p, Advance(p, s, es[0]), es[1..]);
    }
  }

  /** In every run: an OFF re-sent after the k-th consecutive failure (k from 0), with no enable or
      safety edge, disabled tick or reset in between, comes at least min(base * 2^k, max) after that
      failure. */
  lemma RetryLowerBound(p: Params, t0: real, es: seq<Event>)
    ensures
      var s := Run(p, Start(t0), es);
      forall i :: 0 <= i < |s.resends| ==> RespectsBackoff(p, s.resends[i])
  {
    hide Run;
    RunPaced(p, Start(t0), es);
  }

  /** The disabled branch bypasses the backoff: a tick that is not enabled re-sends a failed OFF at
      once, however far away the deadline is. */
  lemma DisabledBypassesBackoff(p: Params, m: Fsm, i: Inputs, now: real)
    requires SprayLink.FsmInv(m) && m.phase == Recovery && !i.enabled
    ensures
      var o := Tick(p, m, i, now);
      o.command == Some(Command(false, m.number + 1, true)) && o.fsm.phase == OffPending
  {
  }
}
