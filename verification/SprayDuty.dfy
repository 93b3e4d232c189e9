/** What a tick of the spray state machine must do: exactly when it dispatches ON or OFF, and that ON intent never
    outlives the permission for it. */
module SprayDuty {
  import opened Common
  import opened SprayFsm
  import opened SprayLink

  // ---------------------------------------------------------------- what a tick finds

  const FULL: Inputs := Inputs(true, true, true)

  /** The ack of the command in flight is late. */
  predicate Late(p: Params, m: Fsm, now: real) {
    m.Pending() && m.pendingSince.Some? && now - m.pendingSince.value >= p.ackTimeout
  }

  predicate Reenabled(m: Fsm, i: Inputs) { i.enabled && !m.prevEnabled }

  predicate SafetyLost(m: Fsm, i: Inputs) { i.enabled && !i.safe && m.prevSafe }

  /** The reasons to dispatch OFF: the output may be on without permission or without an answer, its state is unknown,
      or an earlier OFF has failed and its wait is over or overridden. */
  predicate OffOwed(p: Params, m: Fsm, i: Inputs, now: real) {
    || Reenabled(m, i)
    || m.phase == OffUnconfirmed
    || (m.Commanded() && (i != FULL || Late(p, m, now)))
    || (m.phase == Recovery && (!i.enabled || SafetyLost(m, i) || (m.deadline.Some? && now >= m.deadline.value)))
    || (m.phase == OffPending && Late(p, m, now) && (!i.enabled || p.backoffBase <= 0.0 || p.backoffMax <= 0.0))
  }

  // ---------------------------------------------------------------- one tick

  /** The doublings of the base delay. */
  function Doubled(base: real, k: nat): real {
    if k == 0 then base else 2.0 * Doubled(base, k - 1)
  }

  lemma {:induction false} BackoffIs(p: Params, k: nat)
    ensures Backoff(p, k) <= p.backoffMax && Backoff(p, k) <= Doubled(p.backoffBase, k)
    ensures Backoff(p, k) == p.backoffMax || Backoff(p, k) == Doubled(p.backoffBase, k)
    ensures Backoff(p, k) <= 0.0 <==> p.backoffBase <= 0.0 || p.backoffMax <= 0.0
  {
    DoubledIs(p.backoffBase, k);
    DoubledSign(p.backoffBase, k);
  }

  lemma {:induction false} DoubledIs(base: real, k: nat)
    ensures Doubled(base, k) == base * Power2(k) as real
  {
    if k > 0 { DoubledIs(base, k - 1); }
  }

  lemma {:induction false} DoubledSign(base: real, k: nat)
    ensures Doubled(base, k) <= 0.0 <==> base <= 0.0
  {
    if k > 0 { DoubledSign(base, k - 1); }
  }

  /** What `TickSends` promises of the outcome of a tick. */
  predicate Sends(p: Params, m: Fsm, i: Inputs, now: real, o: Out) {
    && (o.command.Some? && o.command.value.on <==> m.phase == OffConfirmed && i == FULL)
    && (o.command.Some? && !o.command.value.on <==> OffOwed(p, m, i, now))
    && (o.command.Some? ==>
        var c := o.command.value;
        && c.number == m.number + 1 == o.fsm.number
        && (c.force <==> (!i.safe || !i.enabled) && !(m.phase == OnPending && Late(p, m, now)))
        && o.fsm.phase == (if c.on then OnPending else OffPending) && o.fsm.pendingSince == Some(now))
  }

  lemma DisabledSends(p: Params, m: Fsm, i: Inputs, now: real)
    requires FsmInv(m) && !i.enabled
    ensures Sends(p, m, i, now, Tick(p, m, i, now))
  {
    hide Backoff;
  }

  lemma UnsafeSends(p: Params, m: Fsm, i: Inputs, now: real)
    requires FsmInv(m) && i.enabled && !i.safe
    ensures Sends(p, m, i, now, Tick(p, m, i, now))
  {
    hide Backoff;
    BackoffIs(p, m.attempt);
    BackoffIs(p, 0);
  }

  lemma NormalSends(p: Params, m: Fsm, i: Inputs, now: real)
    requires FsmInv(m) && i.enabled && i.safe
    ensures Sends(p, m, i, now, Tick(p, m, i, now))
  {
    hide Backoff;
    BackoffIs(p, m.attempt);
  }

  /** A tick dispatches ON exactly when OFF is confirmed and everything permits it, and OFF exactly when one is owed;
      the command carries the next number, and an OFF is forced exactly when not safe or not enabled, except that a
      late ON is always answered by a plain OFF. */
  lemma TickSends(p: Params, m: Fsm, i: Inputs, now: real)
    requires FsmInv(m)
    ensures Sends(p, m, i, now, Tick(p, m, i, now))
  {
    hide Tick, Sends;
    if !i.enabled { DisabledSends(p, m, i, now); }
    else if !i.safe { UnsafeSends(p, m, i, now); }
    else { NormalSends(p, m, i, now); }
  }

  /** A tick that dispatches nothing moves the machine only from a late OFF to the wait for its repetition, and from a
      confirmed OFF to DISABLED. */
  lemma TickRests(p: Params, m: Fsm, i: Inputs, now: real)
    requires FsmInv(m) && Tick(p, m, i, now).command.None?
    ensures
      var t := Tick(p, m, i, now).fsm;
      && t.number == m.number
      && (if m.phase == OffPending && Late(p, m, now) then
            var k := if SafetyLost(m, i) then 0 else m.attempt;
            t.phase == Recovery && t.deadline == Some(now + Backoff(p, k)) && t.attempt == k + 1
          else if m.phase == OffConfirmed && !i.enabled then t.phase == Disabled
          else t.phase == m.phase && t.pendingSince == m.pendingSince && t.deadline == m.deadline)
  {
    hide Backoff;
  }

  /** An event reset ends a wait: the next tick repeats the OFF. */
  lemma ResetRetries(p: Params, m: Fsm, at: real, i: Inputs, now: real)
    requires FsmInv(m) && m.phase == Recovery && now >= at
    ensures OffOwed(p, EventReset(m, at), i, now)
    ensures
      var o := Tick(p, EventReset(m, at), i, now);
      o.command == Some(Command(false, m.number + 1, !i.safe || !i.enabled)) && o.fsm.phase == OffPending
    ensures EventReset(m, at).attempt == 0
  {
    hide Backoff;
  }

  /** An ack matters only while its own command is pending: an answered ON is confirmed or taken back, an answered OFF
      is confirmed or waits. */
  lemma AckDecides(p: Params, m: Fsm, number: nat, success: bool, now: real)
    requires FsmInv(m)
    ensures
      var o := OnAck(p, m, number, success, now);
      if number != m.number || !m.Pending() then o == Out(m, None)
      else if m.phase == OnPending then
        if success then o == Out(m.(phase := OnConfirmed, pendingSince := None), None)
        else o.command == Some(Command(false, m.number + 1, false)) && o.fsm.phase == OffPending
      else
        && o.command.None? && o.fsm.pendingSince.None? && o.fsm.number == m.number
        && (success ==> o.fsm.phase == (if m.prevEnabled then OffConfirmed else Disabled) && o.fsm.attempt == 0)
        && (!success ==> o.fsm.phase == Recovery && o.fsm.deadline == Some(now + Backoff(p, m.attempt))
                         && o.fsm.attempt == m.attempt + 1)
  {
    hide Backoff;
  }

  // ---------------------------------------------------------------- runs

  /** The inputs of the latest tick. */
  function LastTick(es: seq<Event>): Option<Inputs> {
    if es == [] then None
    else
      var e := es[|es| - 1];
      if e.TickNow? then Some(e.inputs) else LastTick(es[..|es| - 1])
  }

  /** What the machine remembers of its past. */
  ghost predicate Remembers(t: System, es: seq<Event>) {
    var last := LastTick(es);
    && (t.fsm.prevEnabled <==> last.None? || last.value.enabled)
    && (t.fsm.prevSafe <==> last.None? || last.value.safe)
    && (t.fsm.Commanded() ==> last == Some(FULL))
    && (t.fsm.Pending() ==> t.log != [] && At(t.log[|t.log| - 1].cause) == t.fsm.pendingSince)
  }

  function At(e: Event): Option<real> {
    match e
    case TickNow(_, now) => Some(now)
    case AckOk(_, now) => Some(now)
    case AckFail(_, now) => Some(now)
    case _ => None
  }

  lemma {:induction false} RunLast(p: Params, s: System, es: seq<Event>)
    requires es != [] && Run(p, s, es).Some?
    ensures
      var was, e := Run(p, s, es[..|es| - 1]), es[|es| - 1];
      was.Some? && Possible(was.value, e) && Run(p, s, es).value == Next(p, was.value, e)
    decreases |es|
  {
    hide Possible, Next;
    if |es| > 1 {
      RunLast(p, Next(p, s, es[0]), es[1..]);
      assert es[1..][..|es| - 2] == es[..|es| - 1][1..];
    }
  }

  lemma TickEdges(p: Params, m: Fsm, i: Inputs, now: real)
    ensures Tick(p, m, i, now).fsm.prevEnabled == i.enabled && Tick(p, m, i, now).fsm.prevSafe == i.safe
  {
    hide Backoff;
  }

  lemma RemembersTick(p: Params, s: System, es: seq<Event>, e: Event)
    requires FsmInv(s.fsm) && Remembers(s, es) && e.TickNow?
    ensures Remembers(Next(p, s, e), es + [e])
  {
    hide Tick, OffOwed, LastTick, FsmInv;
    LastTickIs(es, e);
    TickSends(p, s.fsm, e.inputs, e.now);
    TickEdges(p, s.fsm, e.inputs, e.now);
    if Tick(p, s.fsm, e.inputs, e.now).command.None? {
      TickRests(p, s.fsm, e.inputs, e.now);
      if s.fsm.Commanded() && e.inputs != FULL { CommandedOwes(p, s.fsm, e.inputs, e.now); }
    }
  }

  lemma LastTickIs(es: seq<Event>, e: Event)
    ensures LastTick(es + [e]) == if e.TickNow? then Some(e.inputs) else LastTick(es)
  {
    assert (es + [e])[..|es|] == es;
  }

  lemma CommandedOwes(p: Params, m: Fsm, i: Inputs, now: real)
    requires FsmInv(m) && m.Commanded() && i != FULL
    ensures OffOwed(p, m, i, now)
  {
  }

  lemma OffAfter(p: Params, m: Fsm, i: Inputs, now: real)
    requires FsmInv(m) && i != FULL
    ensures Tick(p, m, i, now).fsm.phase in {OffPending, Recovery, OffConfirmed, Disabled}
  {
    hide Tick;
    TickSends(p, m, i, now);
    if Tick(p, m, i, now).command.None? { TickRests(p, m, i, now); }
  }

  lemma RemembersOther(p: Params, s: System, es: seq<Event>, e: Event)
    requires FsmInv(s.fsm) && Remembers(s, es) && Possible(s, e) && !e.TickNow?
    ensures Remembers(Next(p, s, e), es + [e])
  {
    hide LastTick, Backoff;
    LastTickIs(es, e);
  }

  lemma {:induction false} RunRemembers(p: Params, s: System, es: seq<Event>)
    requires Init(s) && Run(p, s, es).Some?
    ensures Remembers(Run(p, s, es).value, es)
    decreases |es|
  {
    hide Next, FsmInv, Remembers, Run;
    if es == [] {
      RemembersNothing(p, s, es);
    } else {
      var before, e := es[..|es| - 1], es[|es| - 1];
      RunLast(p, s, es);
      RunRemembers(p, s, before);
      Reachable(p, s, before);
      assert before + [e] == es;
      if e.TickNow? { RemembersTick(p, Run(p, s, before).value, before, e); }
      else { RemembersOther(p, Run(p, s, before).value, before, e); }
    }
  }

  lemma RemembersNothing(p: Params, s: System, es: seq<Event>)
    requires es == [] && Init(s)
    ensures Run(p, s, es) == Some(s) && Remembers(s, es)
  {
  }

  /** In every run ON intent, pending or confirmed, exists only while the latest tick was desired, safe and enabled all
      together. */
  lemma OnNeedsPermission(p: Params, s: System, es: seq<Event>)
    requires Init(s) && Run(p, s, es).Some?
    ensures Run(p, s, es).value.fsm.Commanded() ==> LastTick(es) == Some(FULL)
  {
    hide Run;
    RunRemembers(p, s, es);
  }

  /** In every run a tick that finds ON intent and lacks any of the three permissions dispatches an OFF at once; after
      every such tick the latest command is an OFF. */
  lemma StopsAtOnce(p: Params, s: System, es: seq<Event>, i: Inputs, now: real)
    requires Init(s) && Run(p, s, es).Some? && i != FULL
    ensures
      var t := Run(p, s, es).value;
      var u := Next(p, t, TickNow(i, now));
      && !u.fsm.Commanded()
      && u.log != [] && !u.log[|u.log| - 1].on
      && (t.fsm.Commanded() ==> u.log == t.log + [Sent(false, t.fsm.number + 1, TickNow(i, now))])
  {
    hide Run, Tick, OffOwed;
    var t := Run(p, s, es).value;
    Reachable(p, s, es);
    TickSends(p, t.fsm, i, now);
    OffAfter(p, t.fsm, i, now);
    StepKeeps(p, t, TickNow(i, now));
    if t.fsm.Commanded() { CommandedOwes(p, t.fsm, i, now); }
  }

  /** In every run a tick with all three permissions opens: it dispatches ON when OFF is confirmed, and only then. */
  lemma StartsWhenReady(p: Params, s: System, es: seq<Event>, now: real)
    requires Init(s) && Run(p, s, es).Some?
    ensures
      var t := Run(p, s, es).value;
      var u := Next(p, t, TickNow(FULL, now));
      u.log == t.log + [Sent(true, t.fsm.number + 1, TickNow(FULL, now))] <==> t.fsm.phase == OffConfirmed
  {
    hide Run, Tick, OffOwed;
    var t := Run(p, s, es).value;
    Reachable(p, s, es);
    TickSends(p, t.fsm, FULL, now);
    var u, sent := Next(p, t, TickNow(FULL, now)), Sent(true, t.fsm.number + 1, TickNow(FULL, now));
    if u.log == t.log + [sent] { assert u.log[|t.log|] == sent; }
  }

  /** While no fully permitting tick comes, a valve that executed the latest OFF stays closed. */
  lemma {:induction false} StaysClosed(p: Params, s: System, es: seq<Event>, more: seq<Event>)
    requires Init(s) && Run(p, s, es).Some? && Run(p, Run(p, s, es).value, more).Some?
    requires var t := Run(p, s, es).value; Closed(t, t.applied)
    requires forall e :: e in more ==> !(e.TickNow? && e.inputs == FULL)
    ensures !Run(p, Run(p, s, es).value, more).value.open
  {
    hide Run;
    Reachable(p, s, es);
    ClosedRun(p, Run(p, s, es).value, more, Run(p, s, es).value.applied);
  }

  /** Command `n` has been executed, and it and everything after it was an OFF. */
  ghost predicate Closed(t: System, n: nat) {
    && 0 < n <= t.applied && !t.fsm.Commanded()
    && forall k :: n <= k <= |t.log| ==> !LogOn(t, k)
  }

  predicate LogOn(t: System, k: int) { 0 < k <= |t.log| && t.log[k - 1].on }

  lemma ClosedStep(p: Params, s: System, e: Event, n: nat)
    requires Inv(s) && Possible(s, e) && Closed(s, n) && !(e.TickNow? && e.inputs == FULL)
    ensures Closed(Next(p, s, e), n)
  {
    hide Tick, OnAck, OffOwed;
    if e.TickNow? {
      TickSends(p, s.fsm, e.inputs, e.now);
      if Tick(p, s.fsm, e.inputs, e.now).command.None? { TickRests(p, s.fsm, e.inputs, e.now); }
    }
    if e.AckOk? || e.AckFail? { AckDecides(p, s.fsm, e.number, e.AckOk?, e.now); }
    if e.Apply? { assert OnWire(s, s.wire[0]); }
    var t := Next(p, s, e);
    forall k | n <= k <= |t.log|
      ensures !LogOn(t, k)
    {
      if k <= |s.log| { assert !LogOn(s, k); }
    }
  }

  lemma {:induction false} ClosedRun(p: Params, s: System, es: seq<Event>, n: nat)
    requires Inv(s) && Closed(s, n) && Run(p, s, es).Some?
    requires forall e :: e in es ==> !(e.TickNow? && e.inputs == FULL)
    ensures !Run(p, s, es).value.open
    decreases |es|
  {
    hide Closed, Inv, Next;
    if es == [] {
      ClosedMeans(s, n);
    } else {
      StepKeeps(p, s, es[0]);
      ClosedStep(p, s, es[0], n);
      ClosedRun(p, Next(p, s, es[0]), es[1..], n);
    }
  }

  lemma ClosedMeans(s: System, n: nat)
    requires Inv(s) && Closed(s, n)
    ensures !s.open
  {
    assert !LogOn(s, s.applied);
  }
}
