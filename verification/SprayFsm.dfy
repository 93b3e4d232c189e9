/** The spray actuator safety state machine: what each event does to its state and which command it
    dispatches, and the object that does it in place. Times are caller-supplied seconds. */
module SprayFsm {
  import opened Common

  datatype Phase = OffUnconfirmed | OffConfirmed | OnPending | OnConfirmed | OffPending | Recovery | Disabled

  datatype Params = Params(backoffBase: real, backoffMax: real, ackTimeout: real)

  datatype Command = Command(on: bool, number: nat, force: bool)

  datatype Inputs = Inputs(desired: bool, safe: bool, enabled: bool)

  datatype Fsm = Fsm(
    phase: Phase,
    number: nat,
    pendingSince: Option<real>,
    disabled: bool,
    attempt: nat,
    deadline: Option<real>,
    prevEnabled: bool,
    prevSafe: bool) {

    predicate Pending() { phase == OnPending || phase == OffPending }

    predicate Commanded() { phase == OnPending || phase == OnConfirmed }

    predicate Spraying() { phase == OnConfirmed }
  }

  const INITIAL: Fsm := Fsm(OffUnconfirmed, 0, None, false, 0, None, true, true)

  datatype Out = Out(fsm: Fsm, command: Option<Command>)

  // ---------------------------------------------------------------- dispatch and recovery

  function Power2(k: nat): nat {
    if k == 0 then 1 else 2 * Power2(k - 1)
  }

  /** min(base * 2^k, max) */
  function Backoff(p: Params, k: nat): real {
    var b := p.backoffBase * Power2(k) as real;
    if b < p.backoffMax then b else p.backoffMax
  }

  function DispatchOff(m: Fsm, force: bool, now: real): Out {
    Out(m.(number := m.number + 1, phase := OffPending, pendingSince := Some(now)),
        Some(Command(false, m.number + 1, force)))
  }

  function DispatchOn(m: Fsm, now: real): Out {
    Out(m.(number := m.number + 1, phase := OnPending, pendingSince := Some(now)),
        Some(Command(true, m.number + 1, false)))
  }

  function EnterRecovery(p: Params, m: Fsm, now: real): Fsm {
    m.(deadline := Some(now + Backoff(p, m.attempt)), attempt := m.attempt + 1,
       phase := Recovery, pendingSince := None)
  }

  /** A pending command whose ack is overdue. */
  function CheckTimeout(p: Params, m: Fsm, now: real): Out {
    if m.pendingSince.None? || now - m.pendingSince.value < p.ackTimeout then Out(m, None)
    else if m.phase == OnPending then DispatchOff(m, false, now)
    else if m.phase == OffPending then Out(EnterRecovery(p, m, now), None)
    else Out(m.(pendingSince := None), None)
  }

  function Due(m: Fsm, now: real): bool {
    m.deadline.Some? && now >= m.deadline.value
  }

  // ---------------------------------------------------------------- events

  /** The enable and safety edges at the top of a tick. */
  function Edges(m: Fsm, i: Inputs, now: real): Fsm {
    var toDisabled := !i.enabled && m.prevEnabled;
    var toEnabled := i.enabled && !m.prevEnabled;
    var a := m.(prevEnabled := i.enabled);
    var b := if toDisabled then a.(disabled := true, attempt := 0) else a;
    var c := if toEnabled
             then b.(disabled := false, phase := OffUnconfirmed, attempt := 0, deadline := None, pendingSince := None)
             else b;
    var safetyLost := i.enabled && !i.safe && c.prevSafe;
    var d := c.(prevSafe := i.safe);
    if !safetyLost then d
    else d.(attempt := 0, deadline := if d.phase == Recovery then Some(now) else d.deadline)
  }

  function NormalTick(m: Fsm, desired: bool, now: real): Out {
    match m.phase
    case OffUnconfirmed => DispatchOff(m, false, now)
    case Recovery => if Due(m, now) then DispatchOff(m, false, now) else Out(m, None)
    case OffConfirmed => if desired then DispatchOn(m, now) else Out(m, None)
    case OnPending => if desired then Out(m, None) else DispatchOff(m, false, now)
    case OnConfirmed => if desired then Out(m, None) else DispatchOff(m, false, now)
    case OffPending => Out(m, None)
    case Disabled => Out(m, None)
  }

  function DriveOffDisabled(m: Fsm, now: real): Out {
    match m.phase
    case OffConfirmed => Out(m.(phase := Disabled), None)
    case Disabled => Out(m, None)
    case OffPending => Out(m, None)
    case _ => DispatchOff(m, true, now)
  }

  function DriveOffSafety(m: Fsm, now: real): Out {
    match m.phase
    case OffConfirmed => Out(m, None)
    case Disabled => Out(m, None)
    case OffPending => Out(m, None)
    case Recovery => if Due(m, now) then DispatchOff(m, true, now) else Out(m, None)
    case _ => DispatchOff(m, true, now)
  }

  function Tick(p: Params, m: Fsm, i: Inputs, now: real): Out {
    var t := CheckTimeout(p, Edges(m, i, now), now);
    if t.command.Some? then t
    else if !i.enabled then DriveOffDisabled(t.fsm, now)
    else if !i.safe then DriveOffSafety(t.fsm, now)
    else NormalTick(t.fsm, i.desired, now)
  }

  function OnAck(p: Params, m: Fsm, number: nat, success: bool, now: real): Out {
    if number != m.number then Out(m, None)
    else if m.phase == OnPending then
      if success then Out(m.(pendingSince := None, phase := OnConfirmed), None)
      else DispatchOff(m, false, now)
    else if m.phase == OffPending then
      if success then
        Out(m.(pendingSince := None, attempt := 0, deadline := None,
               phase := if m.disabled then Disabled else OffConfirmed), None)
      else Out(EnterRecovery(p, m, now), None)
    else Out(m, None)
  }

  function EventReset(m: Fsm, now: real): Fsm {
    m.(attempt := 0, deadline := if m.phase == Recovery then Some(now) else m.deadline)
  }

  // ---------------------------------------------------------------- the object

  class SpraySafetyStateMachine {
    const params: Params
    var phase: Phase
    var number: nat
    var pendingSince: Option<real>
    var disabled: bool
    var attempt: nat
    var deadline: Option<real>
    var prevEnabled: bool
    var prevSafe: bool

    function Model(): Fsm
      reads this
    {
      Fsm(phase, number, pendingSince, disabled, attempt, deadline, prevEnabled, prevSafe)
    }

    constructor (params: Params)
      ensures this.params == params && Model() == INITIAL
    {
      this.params := params;
      phase, number, pendingSince := OffUnconfirmed, 0, None;
      disabled, attempt, deadline := false, 0, None;
      prevEnabled, prevSafe := true, true;
    }

    method DoDispatchOff(force: bool, now: real) returns (c: Command)
      modifies this
      ensures Out(Model(), Some(c)) == DispatchOff(old(Model()), force, now)
    {
      number := number + 1;
      phase := OffPending;
      pendingSince := Some(now);
      c := Command(false, number, force);
    }

    method DoDispatchOn(now: real) returns (c: Command)
      modifies this
      ensures Out(Model(), Some(c)) == DispatchOn(old(Model()), now)
    {
      number := number + 1;
      phase := OnPending;
      pendingSince := Some(now);
      c := Command(true, number, false);
    }

    method DoEnterRecovery(now: real)
      modifies this
      ensures Model() == EnterRecovery(params, old(Model()), now)
    {
      deadline := Some(now + Backoff(params, attempt));
      attempt := attempt + 1;
      phase := Recovery;
      pendingSince := None;
    }

    method DoCheckTimeout(now: real) returns (r: Option<Command>)
      modifies this
      ensures Out(Model(), r) == CheckTimeout(params, old(Model()), now)
    {
      hide EnterRecovery;
      if pendingSince.None? { return None; }
      if now - pendingSince.value < params.ackTimeout { return None; }
      if phase == OnPending {
        var c := DoDispatchOff(false, now);
        return Some(c);
      }
      if phase == OffPending {
        DoEnterRecovery(now);
        return None;
      }
      pendingSince := None;
      return None;
    }

    method DoNormalTick(desired: bool, now: real) returns (r: Option<Command>)
      modifies this
      ensures Out(Model(), r) == NormalTick(old(Model()), desired, now)
    {
      var c: Command;
      if phase == OffUnconfirmed {
        c := DoDispatchOff(false, now);
        return Some(c);
      }
      if phase == Recovery {
        if deadline.Some? && now >= deadline.value {
          c := DoDispatchOff(false, now);
          return Some(c);
        }
        return None;
      }
      if phase == OffConfirmed {
        if desired {
          c := DoDispatchOn(now);
          return Some(c);
        }
        return None;
      }
      if phase == OnPending || phase == OnConfirmed {
        if !desired {
          c := DoDispatchOff(false, now);
          return Some(c);
        }
        return None;
      }
      return None;
    }

    method DoDriveOffDisabled(now: real) returns (r: Option<Command>)
      modifies this
      ensures Out(Model(), r) == DriveOffDisabled(old(Model()), now)
    {
      if phase == OffConfirmed {
        phase := Disabled;
        return None;
      }
      if phase == Disabled || phase == OffPending { return None; }
      var c := DoDispatchOff(true, now);
      return Some(c);
    }

    method DoDriveOffSafety(now: real) returns (r: Option<Command>)
      modifies this
      ensures Out(Model(), r) == DriveOffSafety(old(Model()), now)
    {
      if phase == OffConfirmed || phase == Disabled || phase == OffPending { return None; }
      if phase == Recovery && !(deadline.Some? && now >= deadline.value) { return None; }
      var c := DoDispatchOff(true, now);
      return Some(c);
    }

    method DoEdges(i: Inputs, now: real)
      modifies this
      ensures Model() == Edges(old(Model()), i, now)
    {
      var toDisabled, toEnabled := !i.enabled && prevEnabled, i.enabled && !prevEnabled;
      prevEnabled := i.enabled;
      if toDisabled {
        disabled := true;
        attempt := 0;
      }
      if toEnabled {
        disabled := false;
        phase := OffUnconfirmed;
        attempt := 0;
        deadline := None;
        pendingSince := None;
      }
      var safetyLost := i.enabled && !i.safe && prevSafe;
      prevSafe := i.safe;
      if safetyLost {
        attempt := 0;
        if phase == Recovery {
          deadline := Some(now);
        }
      }
    }

    /** One control-loop tick. */
    method DoTick(i: Inputs, now: real) returns (r: Option<Command>)
      modifies this
      ensures Out(Model(), r) == Tick(params, old(Model()), i, now)
    {
      hide Edges, CheckTimeout, DriveOffDisabled, DriveOffSafety, NormalTick;
      DoEdges(i, now);
      r := DoCheckTimeout(now);
      if r.Some? { return; }
      if !i.enabled {
        r := DoDriveOffDisabled(now);
      } else if !i.safe {
        r := DoDriveOffSafety(now);
      } else {
        r := DoNormalTick(i.desired, now);
      }
    }

    /** A command acknowledgement. */
    method DoOnAck(seqNumber: nat, success: bool, now: real) returns (r: Option<Command>)
      modifies this
      ensures Out(Model(), r) == OnAck(params, old(Model()), seqNumber, success, now)
    {
      hide EnterRecovery;
      if seqNumber != number { return None; }
      if phase == OnPending {
        if success {
          pendingSince := None;
          phase := OnConfirmed;
          return None;
        }
        var c := DoDispatchOff(false, now);
        return Some(c);
      }
      if phase == OffPending {
        if success {
          pendingSince := None;
          attempt := 0;
          deadline := None;
          phase := if disabled then Disabled else OffConfirmed;
          return None;
        }
        DoEnterRecovery(now);
        return None;
      }
      return None;
    }

    method DoEventReset(now: real)
      modifies this
      ensures Model() == EventReset(old(Model()), now)
    {
      attempt := 0;
      if phase == Recovery {
        deadline := Some(now);
      }
    }
  }
}
