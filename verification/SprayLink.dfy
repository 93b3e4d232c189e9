/** The spray state machine against an adversarial command link: commands travel in order and may
    be lost, a success ack is truthful but may come late, repeatedly or never, a failure ack may
    come at any time, and the node re-sends ON on its own while ON is commanded. */
module SprayLink {
  import opened Common
  import opened SprayFsm

  datatype Event =
    | TickNow(inputs: Inputs, now: real)
    | AckOk(number: nat, now: real)
    | AckFail(number: nat, now: real)
    | Reset(now: real)
    | Reassert
    | Apply
    | Lose

  /** A command on the wire or in the log. */
  datatype Sent = Sent(on: bool, number: nat, cause: Event)

  datatype System = System(
    fsm: Fsm,
    wire: seq<Sent>,
    open: bool,            // the valve
    applied: nat,          // number of the last command the actuator executed, 0 before the first
    acked: set<nat>,       // numbers the actuator has executed: a success ack may be delivered
    log: seq<Sent>,        // every command the state machine dispatched
    confirmed: set<nat>,   // numbers whose success ack took effect
    effects: seq<nat>)     // numbers of the acks that took effect, in order

  /** Nothing is known about the valve at start. */
  predicate Init(s: System) {
    && s.fsm == INITIAL && s.wire == [] && s.applied == 0 && s.acked == {} && s.log == []
    && s.confirmed == {} && s.effects == []
  }

  predicate Possible(s: System, e: Event) {
    match e
    case TickNow(_, _) => true
    case AckOk(n, _) => n in s.acked
    case AckFail(_, _) => true
    case Reset(_) => true
    case Reassert => s.fsm.Commanded()
    case Apply => s.wire != []
    case Lose => s.wire != []
  }

  /** An ack takes effect when it carries the current number and that command is pending. */
  predicate Effective(m: Fsm, number: nat) {
    number == m.number && m.Pending()
  }

  function Send(s: System, o: Out, cause: Event): System {
    match o.command
    case None => s.(fsm := o.fsm)
    case Some(c) =>
      var sent := Sent(c.on, c.number, cause);
      s.(fsm := o.fsm, wire := s.wire + [sent], log := s.log + [sent])
  }

  function Next(p: Params, s: System, e: Event): System
    requires Possible(s, e)
  {
    match e
    case TickNow(i, now) => Send(s, Tick(p, s.fsm, i, now), e)
    case AckOk(n, now) =>
      var noted := if Effective(s.fsm, n)
                   then s.(effects := s.effects + [n], confirmed := s.confirmed + {n}) else s;
      Send(noted, OnAck(p, s.fsm, n, true, now), e)
    case AckFail(n, now) =>
      var noted := if Effective(s.fsm, n) then s.(effects := s.effects + [n]) else s;
      Send(noted, OnAck(p, s.fsm, n, false, now), e)
    case Reset(now) => s.(fsm := EventReset(s.fsm, now))
    case Reassert => s.(wire := s.wire + [Sent(true, s.fsm.number, e)])
    case Apply =>
      s.(wire := s.wire[1..], open := s.wire[0].on, applied := s.wire[0].number,
         acked := s.acked + {s.wire[0].number})
    case Lose => s.(wire := s.wire[1..])
  }

  /** The system after a run, if every event of the run is possible when it comes. */
  function Run(p: Params, s: System, es: seq<Event>): Option<System>
    decreases |es|
  {
    if es == [] then Some(s)
    else if !Possible(s, es[0]) then None
    else Run(p, Next(p, s, es[0]), es[1..])
  }

  // ---------------------------------------------------------------- invariants

  /** The state machine by itself. */
  predicate FsmInv(m: Fsm) {
    && (m.pendingSince.Some? <==> m.Pending())
    && (m.disabled <==> !m.prevEnabled)
    && (m.disabled ==> m.phase in {OffPending, Recovery, Disabled})
    && (m.phase == Disabled ==> m.disabled)
    && (m.phase == Recovery ==> m.deadline.Some?)
  }

  /** The log: numbered 1, 2, ...; its last command is what the phase says; every ON follows a
      confirmed OFF and was issued by a tick that wanted and allowed it. */
  ghost predicate LogInv(s: System) {
    && |s.log| == s.fsm.number
    && (forall i :: 0 <= i < |s.log| ==> s.log[i].number == i + 1)
    && (s.fsm.Commanded() ==> s.log != [] && s.log[|s.log| - 1].on)
    && (s.fsm.phase in {OffPending, Recovery, OffConfirmed, Disabled} ==> s.log != [] && !s.log[|s.log| - 1].on)
    && (s.fsm.phase in {OnConfirmed, OffConfirmed, Disabled} ==> s.fsm.number in s.confirmed)
    && forall i :: 0 <= i < |s.log| && s.log[i].on ==> OnJustified(s, i)
  }

  ghost predicate OnJustified(s: System, i: nat)
    requires i < |s.log|
  {
    && i > 0 && !s.log[i - 1].on && s.log[i - 1].number in s.confirmed
    && s.log[i].cause.TickNow? && s.log[i].cause.inputs == Inputs(true, true, true)
  }

  /** Acks: each number takes effect at most once. */
  ghost predicate AckInv(s: System) {
    && (forall i, j :: 0 <= i < j < |s.effects| ==> s.effects[i] != s.effects[j])
    && (forall i :: 0 <= i < |s.effects| ==> s.effects[i] <= s.fsm.number)
    && (s.fsm.Pending() ==> s.fsm.number !in s.effects)
    && s.confirmed <= s.acked
  }

  /** The wire holds, in order, copies of logged commands no older than the last one executed. */
  ghost predicate LinkInv(s: System) {
    && s.applied <= |s.log| == s.fsm.number
    && (s.applied > 0 ==> s.open == s.log[s.applied - 1].on)
    && (forall n :: n in s.acked ==> 0 < n <= s.applied)
    && (forall k :: 0 <= k < |s.wire| ==> OnWire(s, s.wire[k]))
    && forall j, k :: 0 <= j < k < |s.wire| ==> s.wire[j].number <= s.wire[k].number
  }

  ghost predicate OnWire(s: System, w: Sent) {
    0 < w.number <= |s.log| && s.applied <= w.number && w.on == s.log[w.number - 1].on
  }

  ghost predicate Inv(s: System) {
    FsmInv(s.fsm) && LogInv(s) && AckInv(s) && LinkInv(s)
  }

  // ---------------------------------------------------------------- one event

  lemma TickKeepsFsm(p: Params, m: Fsm, i: Inputs, now: real)
    requires FsmInv(m)
    ensures FsmInv(Tick(p, m, i, now).fsm)
    ensures !i.enabled ==> Tick(p, m, i, now).fsm.phase in {OffPending, Disabled}
  {
  }

  lemma TickFacts(p: Params, m: Fsm, i: Inputs, now: real)
    requires FsmInv(m)
    ensures
      var o := Tick(p, m, i, now);
      && (o.command.None? ==>
          && o.fsm.number == m.number
          && (|| o.fsm.phase == m.phase
              || (m.phase == OffPending && o.fsm.phase == Recovery)
              || (m.phase == OffConfirmed && o.fsm.phase == Disabled)))
      && (o.command.Some? ==>
          && o.fsm.number == m.number + 1 && o.command.value.number == m.number + 1 && o.fsm.Pending()
          && (o.command.value.on <==> o.fsm.phase == OnPending)
          && (o.command.value.on ==> i == Inputs(true, true, true) && m.phase == OffConfirmed))
  {
  }

  lemma AckFacts(p: Params, m: Fsm, number: nat, success: bool, now: real)
    requires FsmInv(m)
    ensures
      var o := OnAck(p, m, number, success, now);
      && FsmInv(o.fsm)
      && (o.command.None? ==> o.fsm.number == m.number)
      && (o.command.Some? ==>
          && o.fsm.number == m.number + 1 && o.command.value == Command(false, m.number + 1, false)
          && o.fsm.phase == OffPending)
      && (!Effective(m, number) ==> o == Out(m, None))
      && (Effective(m, number) ==> o.command.Some? || !o.fsm.Pending())
      && (Effective(m, number) && success ==>
          o.fsm.phase == if m.phase == OnPending then OnConfirmed else if m.disabled then Disabled else OffConfirmed)
      && (Effective(m, number) && !success ==>
          o.fsm.phase == if m.phase == OnPending then OffPending else Recovery)
  {
  }

  /** Dispatching a command keeps the link in order and the log numbered. */
  lemma SendKeepsLink(s: System, o: Out, cause: Event)
    requires LinkInv(s) && |s.log| == s.fsm.number
    requires o.command.Some? ==> o.command.value.number == s.fsm.number + 1 && o.fsm.number == s.fsm.number + 1
    requires o.command.None? ==> o.fsm.number == s.fsm.number
    ensures LinkInv(Send(s, o, cause))
  {
    var t := Send(s, o, cause);
    forall k | 0 <= k < |t.wire|
      ensures OnWire(t, t.wire[k])
    {
      if k < |s.wire| { assert OnWire(s, s.wire[k]); }
    }
  }

  lemma TickKeeps(p: Params, s: System, i: Inputs, now: real)
    requires Inv(s)
    ensures Inv(Next(p, s, TickNow(i, now)))
  {
    hide Tick, LinkInv, FsmInv, LogInv;
    LogLength(s);
    TickKeepsFsm(p, s.fsm, i, now);
    TickFacts(p, s.fsm, i, now);
    SendKeepsLink(s, Tick(p, s.fsm, i, now), TickNow(i, now));
    TickKeepsLog(p, s, i, now);
  }

  lemma TickKeepsLog(p: Params, s: System, i: Inputs, now: real)
    requires Inv(s)
    ensures LogInv(Next(p, s, TickNow(i, now)))
  {
    hide Tick, LinkInv, FsmInv, AckInv;
    TickFacts(p, s.fsm, i, now);
    var t := Next(p, s, TickNow(i, now));
    forall j | 0 <= j < |t.log| && t.log[j].on
      ensures OnJustified(t, j)
    {
      if j < |s.log| {
        assert OnJustified(s, j);
      }
    }
  }

  function Noted(s: System, e: Event): System
    requires e.AckOk? || e.AckFail?
  {
    if !Effective(s.fsm, e.number) then s
    else s.(effects := s.effects + [e.number],
            confirmed := if e.AckOk? then s.confirmed + {e.number} else s.confirmed)
  }

  lemma AckKeepsAcks(p: Params, s: System, e: Event)
    requires Inv(s) && Possible(s, e) && (e.AckOk? || e.AckFail?)
    ensures AckInv(Next(p, s, e))
  {
    hide OnAck, LinkInv, FsmInv, LogInv;
    AckFacts(p, s.fsm, e.number, e.AckOk?, e.now);
    var t := Next(p, s, e);
    assert t.effects == s.effects || (t.effects == s.effects + [e.number] && e.number !in s.effects);
  }

  lemma AckKeepsLog(p: Params, s: System, e: Event)
    requires Inv(s) && Possible(s, e) && (e.AckOk? || e.AckFail?)
    ensures LogInv(Next(p, s, e))
  {
    hide OnAck, LinkInv, FsmInv, AckInv;
    AckFacts(p, s.fsm, e.number, e.AckOk?, e.now);
    var t := Next(p, s, e);
    forall j | 0 <= j < |t.log| && t.log[j].on
      ensures OnJustified(t, j)
    {
      assert OnJustified(s, j);
    }
  }

  lemma AckKeeps(p: Params, s: System, e: Event)
    requires Inv(s) && Possible(s, e) && (e.AckOk? || e.AckFail?)
    ensures Inv(Next(p, s, e))
  {
    hide OnAck, LinkInv, FsmInv, LogInv, AckInv, Send;
    AckFacts(p, s.fsm, e.number, e.AckOk?, e.now);
    AckKeepsAcks(p, s, e);
    AckKeepsLog(p, s, e);
    NotingKeepsLink(s, Noted(s, e));
    LogLength(s);
    SendKeepsLink(Noted(s, e), OnAck(p, s.fsm, e.number, e.AckOk?, e.now), e);
    SendFsm(Noted(s, e), OnAck(p, s.fsm, e.number, e.AckOk?, e.now), e);
  }

  lemma LogLength(s: System)
    requires LogInv(s)
    ensures |s.log| == s.fsm.number
  {
  }

  lemma SendFsm(s: System, o: Out, cause: Event)
    ensures Send(s, o, cause).fsm == o.fsm
  {
  }

  lemma NotingKeepsLink(s: System, t: System)
    requires LinkInv(s) && t == s.(effects := t.effects, confirmed := t.confirmed)
    ensures LinkInv(t)
  {
    forall k | 0 <= k < |t.wire|
      ensures OnWire(t, t.wire[k])
    {
      assert OnWire(s, s.wire[k]);
    }
  }

  lemma ApplyKeepsLink(p: Params, s: System, e: Event)
    requires Inv(s) && Possible(s, e) && (e.Apply? || e.Lose?)
    ensures LinkInv(Next(p, s, e))
  {
    hide AckInv, FsmInv;
    var t := Next(p, s, e);
    assert OnWire(s, s.wire[0]);
    forall k | 0 <= k < |t.wire|
      ensures OnWire(t, t.wire[k])
    {
      assert OnWire(s, s.wire[k + 1]);
    }
  }

  lemma ApplyKeeps(p: Params, s: System, e: Event)
    requires Inv(s) && Possible(s, e) && (e.Apply? || e.Lose?)
    ensures Inv(Next(p, s, e))
  {
    hide LinkInv;
    ApplyKeepsLink(p, s, e);
    var t := Next(p, s, e);
    forall j | 0 <= j < |t.log| && t.log[j].on
      ensures OnJustified(t, j)
    {
      assert OnJustified(s, j);
    }
  }

  lemma ReassertKeeps(p: Params, s: System, e: Event)
    requires Inv(s) && Possible(s, e) && (e.Reassert? || e.Reset?)
    ensures Inv(Next(p, s, e))
  {
    var t := Next(p, s, e);
    forall k | 0 <= k < |t.wire|
      ensures OnWire(t, t.wire[k])
    {
      if k < |s.wire| { assert OnWire(s, s.wire[k]); }
    }
    assert LinkInv(t);
    forall j | 0 <= j < |t.log| && t.log[j].on
      ensures OnJustified(t, j)
    {
      assert OnJustified(s, j);
    }
  }

  lemma StepKeeps(p: Params, s: System, e: Event)
    requires Inv(s) && Possible(s, e)
    ensures Inv(Next(p, s, e))
  {
    hide Inv, Next;
    match e
    case TickNow(i, now) => TickKeeps(p, s, i, now);
    case AckOk(_, _) => AckKeeps(p, s, e);
    case AckFail(_, _) => AckKeeps(p, s, e);
    case Apply => ApplyKeeps(p, s, e);
    case Lose => ApplyKeeps(p, s, e);
    case Reassert => ReassertKeeps(p, s, e);
    case Reset(_) => ReassertKeeps(p, s, e);
  }

  lemma {:induction false} RunKeeps(p: Params, s: System, es: seq<Event>)
    requires Inv(s) && Run(p, s, es).Some?
    ensures Inv(Run(p, s, es).value)
    decreases |es|
  {
    hide Inv, Next;
    if es != [] {
      StepKeeps(p, s, es[0]);
      RunKeeps(p, Next(p, s, es[0]), es[1..]);
    }
  }

  // ---------------------------------------------------------------- whole runs

  lemma Reachable(p: Params, s: System, es: seq<Event>)
    requires Init(s) && Run(p, s, es).Some?
    ensures Inv(Run(p, s, es).value)
  {
    RunKeeps(p, s, es);
  }

  /** Whatever the link and the inputs do: a confirmed OFF (or DISABLED) means the valve is closed,
      and a confirmed ON means it is open. */
  lemma ConfirmedMeansPhysical(p: Params, s: System, es: seq<Event>)
    requires Init(s) && Run(p, s, es).Some?
    ensures
      var t := Run(p, s, es).value;
      && (t.fsm.phase in {OffConfirmed, Disabled} ==> !t.open)
      && (t.fsm.Spraying() ==> t.open)
  {
    hide Run;
    Reachable(p, s, es);
    var t := Run(p, s, es).value;
    if t.fsm.phase in {OffConfirmed, Disabled, OnConfirmed} {
      assert t.fsm.number in t.acked;
      assert t.applied == t.fsm.number;
    }
  }

  /** Command-log safety: every ON directly follows an OFF whose success ack took effect, was issued
      by a tick with desired, safe and enabled, and two ONs are never adjacent; each number's ack
      takes effect at most once. */
  lemma LogSafety(p: Params, s: System, es: seq<Event>)
    requires Init(s) && Run(p, s, es).Some?
    ensures
      var t := Run(p, s, es).value;
      && (forall i :: 0 <= i < |t.log| && t.log[i].on ==> OnJustified(t, i))
      && (forall i :: 0 < i < |t.log| ==> !(t.log[i - 1].on && t.log[i].on))
      && (forall i, j :: 0 <= i < j < |t.effects| ==> t.effects[i] != t.effects[j])
  {
    hide Run;
    Reachable(p, s, es);
    var t := Run(p, s, es).value;
    forall i | 0 < i < |t.log|
      ensures !(t.log[i - 1].on && t.log[i].on)
    {
      if t.log[i].on { assert OnJustified(t, i); }
    }
  }

  /** After a tick that is not enabled, an OFF is in flight or the machine is DISABLED; and DISABLED
      is never seen in a state whose last tick was enabled. */
  lemma DisabledTick(p: Params, s: System, es: seq<Event>, i: Inputs, now: real)
    requires Init(s) && Run(p, s, es).Some?
    ensures
      var t := Run(p, s, es).value;
      && (!i.enabled ==> Next(p, t, TickNow(i, now)).fsm.phase in {OffPending, Disabled})
      && (t.fsm.prevEnabled ==> t.fsm.phase != Disabled)
  {
    hide Run;
    Reachable(p, s, es);
    TickKeepsFsm(p, Run(p, s, es).value.fsm, i, now);
  }

  // ---------------------------------------------------------------- the object

  function Fresh(open: bool): System { System(INITIAL, [], open, 0, {}, [], {}, []) }

  /** The object against a link: it goes through the states that the theorems speak of. */
  method Play(machine: SpraySafetyStateMachine, open: bool, es: seq<Event>) returns (r: Option<System>)
    requires machine.Model() == INITIAL
    modifies machine
    ensures r == Run(machine.params, Fresh(open), es)
    ensures r.Some? ==> Init(Fresh(open)) && machine.Model() == r.value.fsm
  {
    hide Tick, OnAck, EventReset;
    var s := Fresh(open);
    assert es[0..] == es;
    for i := 0 to |es|
      invariant Run(machine.params, Fresh(open), es) == Run(machine.params, s, es[i..])
      invariant machine.Model() == s.fsm
    {
      var e := es[i];
      assert es[i..][0] == e && es[i..][1..] == es[i + 1..];
      if !Possible(s, e) { return None; }
      s := Transmit(machine, s, e);
    }
    assert es[|es|..] == [];
    return Some(s);
  }

  /** One event: the object does its part, the link the rest. */
  method Transmit(machine: SpraySafetyStateMachine, s: System, e: Event) returns (t: System)
    requires machine.Model() == s.fsm && Possible(s, e)
    modifies machine
    ensures t == Next(machine.params, s, e) && machine.Model() == t.fsm
  {
    hide Tick, OnAck, EventReset;
    match e
    case TickNow(i, now) =>
      var c := machine.DoTick(i, now);
      t := Send(s, Out(machine.Model(), c), e);
    case AckOk(n, now) =>
      var c := machine.DoOnAck(n, true, now);
      t := Send(Noted(s, e), Out(machine.Model(), c), e);
    case AckFail(n, now) =>
      var c := machine.DoOnAck(n, false, now);
      t := Send(Noted(s, e), Out(machine.Model(), c), e);
    case Reset(now) =>
      machine.DoEventReset(now);
      t := s.(fsm := machine.Model());
    case Reassert => t := s.(wire := s.wire + [Sent(true, machine.number, e)]);
    case Apply =>
      t := s.(wire := s.wire[1..], open := s.wire[0].on, applied := s.wire[0].number,
              acked := s.acked + {s.wire[0].number});
    case Lose => t := s.(wire := s.wire[1..]);
  }
}
