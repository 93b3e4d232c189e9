/** The mission lifecycle state machine: every event in every state, with the bounded transition
    log. Detail texts and time stamps are not modelled. */
module MissionFsm {

  datatype State =
    | Idle | Loading | Ready | Running | Paused | Completed | Aborted | Error | Placing | Arming | Engaging

  /** An event with the facts it carries. */
  datatype Event =
    | Start(preArmOk: bool)
    | ArtifactLoaded(ok: bool)
    | Placed(ok: bool, reason: nat)
    | Armed(ok: bool, reason: nat)
    | Engaged(ok: bool, reason: nat)
    | RppAck(gateOk: bool)
    | Pause
    | Resume(gateOk: bool)
    | Reengage
    | ReengageGate(gateOk: bool)
    | ReengageTimeout(guardReason: nat)
    | Abort(reason: nat)
    | RppComplete
    | RppError
    | GateLost(guardReason: nat)
    | Estop
    | EkfReset
    | RppStale
    | RppPivotTimeout
    | RppAckTimeout(gateOk: bool, guardReason: nat)
    | SkipPoint(hasActivePoint: bool)

  datatype Reject = NoReject | Busy | SafetyGate | NotRunning | NotPaused | NotActive | NoActivePoint | Illegal

  const LOG_CAPACITY: nat := 256

  // MissionState REASON_* values
  const REASON_NONE := 0
  const REASON_OPERATOR := 1
  const REASON_SAFETY := 2
  const REASON_RTK := 3
  const REASON_PATH_ERROR := 4
  const REASON_EKF_RESET := 6
  const REASON_RPP_ACK_TIMEOUT := 14
  const REASON_ESTOP := 15
  const REASON_RPP_ERROR := 16
  const REASON_RPP_STALE := 17
  const REASON_RPP_PIVOT_TIMEOUT := 18
  const GUARD_REASON_RTK_GATE := 6

  function MapGuardReason(guardReason: nat): nat {
    if guardReason == GUARD_REASON_RTK_GATE then REASON_RTK else REASON_SAFETY
  }

  datatype Record = Record(
    number: nat, from: State, to: State, event: Event, reason: nat, refused: bool, reject: Reject)

  datatype Result = Result(accepted: bool, reject: Reject, transitioned: bool, state: State)

  datatype Fsm = Fsm(
    state: State,
    reason: nat,
    gateReason: nat,
    missionId: nat,
    number: nat,
    changes: nat,
    reengaging: bool,
    confirmed: bool,       // a re-engage whose OFFBOARD is confirmed
    log: seq<Record>) {

    predicate Terminal() { state == Completed || state == Aborted || state == Error }

    predicate Active() { state != Idle && !Terminal() }

    predicate BeforeRunning() {
      state == Loading || state == Placing || state == Arming || state == Engaging || state == Ready
    }

    predicate AwaitingGate() { reengaging && confirmed }
  }

  const INITIAL: Fsm := Fsm(Idle, REASON_NONE, 0, 0, 0, 0, false, false, [])

  // ---------------------------------------------------------------- logging

  /** Append, keeping the newest LOG_CAPACITY records. */
  function Recorded(log: seq<Record>, r: Record): seq<Record> {
    var l := log + [r];
    if |l| > LOG_CAPACITY then l[|l| - LOG_CAPACITY..] else l
  }

  function Go(m: Fsm, to: State, e: Event, reason: nat, gateReason: nat): (Fsm, Result) {
    var keepMarks := to == Arming || to == Engaging;
    (Fsm(to, reason, gateReason, m.missionId, m.number + 1, m.changes + 1, m.reengaging && keepMarks,
         m.confirmed && keepMarks, Recorded(m.log, Record(m.number + 1, m.state, to, e, reason, false, NoReject))),
     Result(true, NoReject, true, to))
  }

  function Refuse(m: Fsm, e: Event, why: Reject): (Fsm, Result) {
    (m.(number := m.number + 1,
        log := Recorded(m.log, Record(m.number + 1, m.state, m.state, e, m.reason, true, why))),
     Result(false, why, false, m.state))
  }

  function OkNoChange(m: Fsm, e: Event): (Fsm, Result) {
    (m.(number := m.number + 1,
        log := Recorded(m.log, Record(m.number + 1, m.state, m.state, e, m.reason, false, NoReject))),
     Result(true, NoReject, false, m.state))
  }

  /** One step before motion: `expected` to `next` on success, to ERROR on failure. */
  function Step(m: Fsm, expected: State, next: State, e: Event, ok: bool, reason: nat): (Fsm, Result) {
    if m.state != expected then Refuse(m, e, Illegal)
    else if ok then Go(m, next, e, REASON_NONE, 0)
    else Go(m, Error, e, reason, 0)
  }

  // ---------------------------------------------------------------- events

  function OnStart(m: Fsm, e: Event): (Fsm, Result)
    requires e.Start?
  {
    if m.Active() then Refuse(m, e, Busy)
    else if !e.preArmOk then Refuse(m, e, SafetyGate)
    else Go(m.(missionId := (m.missionId + 1) % 0x1_0000_0000), Loading, e, REASON_NONE, 0)
  }

  function OnEngaged(m: Fsm, e: Event): (Fsm, Result)
    requires e.Engaged?
  {
    if m.state == Engaging && m.reengaging && e.ok then
      if m.confirmed then OkNoChange(m, e) else OkNoChange(m.(confirmed := true), e)
    else Step(m, Engaging, Ready, e, e.ok, e.reason)
  }

  function OnRppAck(m: Fsm, e: Event): (Fsm, Result)
    requires e.RppAck?
  {
    match m.state
    case Ready => if e.gateOk then Go(m, Running, e, REASON_NONE, 0) else OkNoChange(m, e)
    case Running => OkNoChange(m, e)
    case Paused => OkNoChange(m, e)
    case _ => Refuse(m, e, Illegal)
  }

  function OnResume(m: Fsm, e: Event): (Fsm, Result)
    requires e.Resume?
  {
    if m.reengaging then OkNoChange(m, e)
    else if m.state != Paused then Refuse(m, e, NotPaused)
    else if !e.gateOk then Refuse(m, e, SafetyGate)
    else Go(m, Running, e, REASON_NONE, 0)
  }

  function OnReengage(m: Fsm, e: Event): (Fsm, Result) {
    if m.state != Paused then
      if m.reengaging then OkNoChange(m, e) else Refuse(m, e, NotPaused)
    else Go(m.(reengaging := true, confirmed := false), Arming, e, REASON_NONE, 0)
  }

  function OnReengageGate(m: Fsm, e: Event): (Fsm, Result)
    requires e.ReengageGate?
  {
    if !m.AwaitingGate() || m.state != Engaging then Refuse(m, e, Illegal)
    else if !e.gateOk then OkNoChange(m, e)
    else Go(m, Running, e, REASON_NONE, 0)
  }

  function OnReengageTimeout(m: Fsm, e: Event): (Fsm, Result)
    requires e.ReengageTimeout?
  {
    if !m.AwaitingGate() || m.state != Engaging then OkNoChange(m, e)
    else Go(m, Error, e, MapGuardReason(e.guardReason), e.guardReason)
  }

  function OnRppComplete(m: Fsm, e: Event): (Fsm, Result) {
    if m.state == Running then Go(m, Completed, e, REASON_NONE, 0)
    else if m.state == Paused || m.reengaging then OkNoChange(m, e)
    else Refuse(m, e, Illegal)
  }

  function OnRppError(m: Fsm, e: Event): (Fsm, Result) {
    if m.state == Ready || m.state == Running || m.state == Paused || m.reengaging then
      Go(m, Error, e, REASON_RPP_ERROR, 0)
    else if m.Active() then OkNoChange(m, e)
    else Refuse(m, e, Illegal)
  }

  function OnGateLost(m: Fsm, e: Event): (Fsm, Result)
    requires e.GateLost?
  {
    if m.BeforeRunning() then Go(m, Error, e, MapGuardReason(e.guardReason), e.guardReason)
    else if m.state == Running then Go(m, Paused, e, MapGuardReason(e.guardReason), e.guardReason)
    else OkNoChange(m, e)
  }

  function OnEkfReset(m: Fsm, e: Event): (Fsm, Result) {
    match m.state
    case Arming => Go(m, Error, e, REASON_EKF_RESET, 0)
    case Engaging => Go(m, Error, e, REASON_EKF_RESET, 0)
    case Ready => Go(m, Paused, e, REASON_EKF_RESET, 0)
    case Running => Go(m, Paused, e, REASON_EKF_RESET, 0)
    case Paused => Go(m, Paused, e, REASON_EKF_RESET, 0)
    case _ => OkNoChange(m, e)
  }

  function OnRppAckTimeout(m: Fsm, e: Event): (Fsm, Result)
    requires e.RppAckTimeout?
  {
    if m.state != Ready then OkNoChange(m, e)
    else if !e.gateOk then Go(m, Error, e, MapGuardReason(e.guardReason), e.guardReason)
    else Go(m, Error, e, REASON_RPP_ACK_TIMEOUT, 0)
  }

  function OnSkipPoint(m: Fsm, e: Event): (Fsm, Result)
    requires e.SkipPoint?
  {
    if m.state != Running && m.state != Paused && !m.reengaging then Refuse(m, e, NotRunning)
    else if !e.hasActivePoint then Refuse(m, e, NoActivePoint)
    else OkNoChange(m, e)
  }

  /** What an event does. */
  function Handle(m: Fsm, e: Event): (Fsm, Result) {
    match e
    case Start(_) => OnStart(m, e)
    case ArtifactLoaded(ok) => Step(m, Loading, Placing, e, ok, REASON_PATH_ERROR)
    case Placed(ok, reason) => Step(m, Placing, Arming, e, ok, reason)
    case Armed(ok, reason) => Step(m, Arming, Engaging, e, ok, reason)
    case Engaged(_, _) => OnEngaged(m, e)
    case RppAck(_) => OnRppAck(m, e)
    case Pause => if m.state == Running then Go(m, Paused, e, REASON_OPERATOR, 0) else Refuse(m, e, NotRunning)
    case Resume(_) => OnResume(m, e)
    case Reengage => OnReengage(m, e)
    case ReengageGate(_) => OnReengageGate(m, e)
    case ReengageTimeout(_) => OnReengageTimeout(m, e)
    case Abort(reason) =>
      if !m.Active() then Refuse(m, e, NotActive)
      else Go(m, Aborted, e, if reason == REASON_SAFETY then REASON_SAFETY else REASON_OPERATOR, 0)
    case RppComplete => OnRppComplete(m, e)
    case RppError => OnRppError(m, e)
    case GateLost(_) => OnGateLost(m, e)
    case Estop => if m.Active() then Go(m, Aborted, e, REASON_ESTOP, 0) else OkNoChange(m, e)
    case EkfReset => OnEkfReset(m, e)
    case RppStale => if m.state == Running then Go(m, Paused, e, REASON_RPP_STALE, 0) else OkNoChange(m, e)
    case RppPivotTimeout =>
      if m.state == Running then Go(m, Paused, e, REASON_RPP_PIVOT_TIMEOUT, 0) else OkNoChange(m, e)
    case RppAckTimeout(_, _) => OnRppAckTimeout(m, e)
    case SkipPoint(_) => OnSkipPoint(m, e)
  }

  // ---------------------------------------------------------------- the object

  class Lifecycle {
    var state: State
    var reason: nat
    var gateReason: nat
    var missionId: nat
    var number: nat
    var changes: nat
    var reengaging: bool
    var confirmed: bool
    var log: seq<Record>

    function Model(): Fsm
      reads this
    {
      Fsm(state, reason, gateReason, missionId, number, changes, reengaging, confirmed, log)
    }

    constructor ()
      ensures Model() == INITIAL
    {
      state, reason, gateReason, missionId, number, changes := Idle, REASON_NONE, 0, 0, 0, 0;
      reengaging, confirmed, log := false, false, [];
    }

    method DoRecord(r: Record)
      requires |log| <= LOG_CAPACITY
      modifies `log
      ensures log == Recorded(old(log), r) && |log| <= LOG_CAPACITY
    {
      log := log + [r];
      while |log| > LOG_CAPACITY
        invariant |log| >= |old(log) + [r]| - 1
        invariant log == (old(log) + [r])[|old(log) + [r]| - |log|..]
        invariant |log| >= LOG_CAPACITY || log == old(log) + [r]
      {
        log := log[1..];
      }
    }

    /** The re-engage marks live exactly as long as its ARMING and ENGAGING. */
    method KeepMarks(to: State)
      modifies `reengaging, `confirmed
      ensures reengaging == (old(reengaging) && (to == Arming || to == Engaging))
      ensures confirmed == (old(confirmed) && (to == Arming || to == Engaging))
    {
      if to != Arming && to != Engaging {
        reengaging := false;
        confirmed := false;
      }
    }

    method DoGo(to: State, e: Event, why: nat, gate: nat) returns (r: Result)
      requires |log| <= LOG_CAPACITY
      modifies this
      ensures Model() == Go(old(Model()), to, e, why, gate).0 && r == Go(old(Model()), to, e, why, gate).1
      ensures |log| <= LOG_CAPACITY
    {
      hide Recorded;
      ghost var m := Model();
      number := number + 1;
      var t := Record(number, state, to, e, why, false, NoReject);
      state := to;
      KeepMarks(to);
      reason := why;
      gateReason := gate;
      changes := changes + 1;
      DoRecord(t);
      assert Model() == Fsm(to, why, gate, m.missionId, m.number + 1, m.changes + 1, reengaging, confirmed,
                            Recorded(m.log, t));
      r := Result(true, NoReject, true, state);
    }

    method DoRefuse(e: Event, why: Reject) returns (r: Result)
      requires |log| <= LOG_CAPACITY
      modifies this
      ensures Model() == Refuse(old(Model()), e, why).0 && r == Refuse(old(Model()), e, why).1
      ensures |log| <= LOG_CAPACITY
    {
      hide Recorded;
      number := number + 1;
      DoRecord(Record(number, state, state, e, reason, true, why));
      r := Result(false, why, false, state);
    }

    method DoOkNoChange(e: Event) returns (r: Result)
      requires |log| <= LOG_CAPACITY
      modifies this
      ensures Model() == OkNoChange(old(Model()), e).0 && r == OkNoChange(old(Model()), e).1
      ensures |log| <= LOG_CAPACITY
    {
      hide Recorded;
      number := number + 1;
      DoRecord(Record(number, state, state, e, reason, false, NoReject));
      r := Result(true, NoReject, false, state);
    }

    method DoStep(expected: State, next: State, e: Event, ok: bool, why: nat) returns (r: Result)
      requires |log| <= LOG_CAPACITY
      modifies this
      ensures Model() == Step(old(Model()), expected, next, e, ok, why).0
      ensures r == Step(old(Model()), expected, next, e, ok, why).1
      ensures |log| <= LOG_CAPACITY
    {
      hide Recorded, Go, Refuse;
      ghost var m := Model();
      if state != expected {
        assert Step(m, expected, next, e, ok, why) == Refuse(m, e, Illegal);
        r := DoRefuse(e, Illegal);
      } else if ok {
        assert Step(m, expected, next, e, ok, why) == Go(m, next, e, REASON_NONE, 0);
        r := DoGo(next, e, REASON_NONE, 0);
      } else {
        assert Step(m, expected, next, e, ok, why) == Go(m, Error, e, why, 0);
        r := DoGo(Error, e, why, 0);
      }
    }

    /** The operator and vehicle events before motion. */
    method DoStart(preArmOk: bool) returns (r: Result)
      requires |log| <= LOG_CAPACITY
      modifies this
      ensures Model() == Handle(old(Model()), Start(preArmOk)).0 && r == Handle(old(Model()), Start(preArmOk)).1
      ensures |log| <= LOG_CAPACITY
    {
      hide Recorded, Go, Refuse;
      if Model().Active() {
        r := DoRefuse(Start(preArmOk), Busy);
      } else if !preArmOk {
        r := DoRefuse(Start(preArmOk), SafetyGate);
      } else {
        missionId := (missionId + 1) % 0x1_0000_0000;
        r := DoGo(Loading, Start(preArmOk), REASON_NONE, 0);
      }
    }

    method DoEngaged(ok: bool, why: nat) returns (r: Result)
      requires |log| <= LOG_CAPACITY
      modifies this
      ensures Model() == Handle(old(Model()), Engaged(ok, why)).0 && r == Handle(old(Model()), Engaged(ok, why)).1
      ensures |log| <= LOG_CAPACITY
    {
      hide Recorded, Go, Refuse, OkNoChange, Step;
      if state == Engaging && reengaging && ok {
        if !confirmed { confirmed := true; }
        r := DoOkNoChange(Engaged(ok, why));
        return;
      }
      r := DoStep(Engaging, Ready, Engaged(ok, why), ok, why);
    }

    method DoReengage() returns (r: Result)
      requires |log| <= LOG_CAPACITY
      modifies this
      ensures Model() == Handle(old(Model()), Reengage).0 && r == Handle(old(Model()), Reengage).1
      ensures |log| <= LOG_CAPACITY
    {
      hide Recorded, Go, Refuse, OkNoChange;
      if state != Paused {
        if reengaging {
          r := DoOkNoChange(Reengage);
        } else {
          r := DoRefuse(Reengage, NotPaused);
        }
        return;
      }
      reengaging := true;
      confirmed := false;
      r := DoGo(Arming, Reengage, REASON_NONE, 0);
    }

    method DoReengageGate(gateOk: bool) returns (r: Result)
      requires |log| <= LOG_CAPACITY
      modifies this
      ensures Model() == Handle(old(Model()), ReengageGate(gateOk)).0
      ensures r == Handle(old(Model()), ReengageGate(gateOk)).1
      ensures |log| <= LOG_CAPACITY
    {
      hide Recorded, Go, Refuse, OkNoChange;
      if !(reengaging && confirmed) || state != Engaging {
        r := DoRefuse(ReengageGate(gateOk), Illegal);
      } else if !gateOk {
        r := DoOkNoChange(ReengageGate(gateOk));
      } else {
        r := DoGo(Running, ReengageGate(gateOk), REASON_NONE, 0);
      }
    }

    method DoResume(gateOk: bool) returns (r: Result)
      requires |log| <= LOG_CAPACITY
      modifies this
      ensures Model() == Handle(old(Model()), Resume(gateOk)).0 && r == Handle(old(Model()), Resume(gateOk)).1
      ensures |log| <= LOG_CAPACITY
    {
      hide Recorded, Go, Refuse, OkNoChange;
      if reengaging {
        r := DoOkNoChange(Resume(gateOk));
      } else if state != Paused {
        r := DoRefuse(Resume(gateOk), NotPaused);
      } else if !gateOk {
        r := DoRefuse(Resume(gateOk), SafetyGate);
      } else {
        r := DoGo(Running, Resume(gateOk), REASON_NONE, 0);
      }
    }

    /** What the path follower reports. */
    method DoRppEvent(e: Event) returns (r: Result)
      requires |log| <= LOG_CAPACITY
      requires e.RppAck? || e.RppComplete? || e.RppError? || e.RppStale? ||
               e.RppPivotTimeout? || e.RppAckTimeout?
      modifies this
      ensures Model() == Handle(old(Model()), e).0 && r == Handle(old(Model()), e).1
      ensures |log| <= LOG_CAPACITY
    {
      hide Recorded, Go, Refuse, OkNoChange, Step;
      match e
      case RppAck(gateOk) =>
        if state == Ready {
          if gateOk { r := DoGo(Running, e, REASON_NONE, 0); } else { r := DoOkNoChange(e); }
        } else if state == Running || state == Paused {
          r := DoOkNoChange(e);
        } else {
          r := DoRefuse(e, Illegal);
        }
      case RppComplete =>
        if state == Running {
          r := DoGo(Completed, e, REASON_NONE, 0);
        } else if state == Paused || reengaging {
          r := DoOkNoChange(e);
        } else {
          r := DoRefuse(e, Illegal);
        }
      case RppError =>
        if state == Ready || state == Running || state == Paused || reengaging {
          r := DoGo(Error, e, REASON_RPP_ERROR, 0);
        } else if Model().Active() {
          r := DoOkNoChange(e);
        } else {
          r := DoRefuse(e, Illegal);
        }
      case RppStale =>
        if state == Running { r := DoGo(Paused, e, REASON_RPP_STALE, 0); } else { r := DoOkNoChange(e); }
      case RppPivotTimeout =>
        if state == Running { r := DoGo(Paused, e, REASON_RPP_PIVOT_TIMEOUT, 0); } else { r := DoOkNoChange(e); }
      case RppAckTimeout(gateOk, guardReason) =>
        if state != Ready {
          r := DoOkNoChange(e);
        } else if !gateOk {
          r := DoGo(Error, e, MapGuardReason(guardReason), guardReason);
        } else {
          r := DoGo(Error, e, REASON_RPP_ACK_TIMEOUT, 0);
        }
    }

    /** Operator and safety interruptions. */
    method DoInterrupt(e: Event) returns (r: Result)
      requires |log| <= LOG_CAPACITY
      requires e.Pause? || e.ReengageTimeout? || e.Abort? || e.GateLost? ||
               e.Estop? || e.EkfReset? || e.SkipPoint?
      modifies this
      ensures Model() == Handle(old(Model()), e).0 && r == Handle(old(Model()), e).1
      ensures |log| <= LOG_CAPACITY
    {
      hide Recorded, Go, Refuse, OkNoChange, Step;
      match e
      case Pause =>
        if state == Running { r := DoGo(Paused, e, REASON_OPERATOR, 0); } else { r := DoRefuse(e, NotRunning); }
      case ReengageTimeout(guardReason) =>
        if !(reengaging && confirmed) || state != Engaging {
          r := DoOkNoChange(e);
        } else {
          r := DoGo(Error, e, MapGuardReason(guardReason), guardReason);
        }
      case Abort(why) =>
        if !Model().Active() {
          r := DoRefuse(e, NotActive);
        } else {
          r := DoGo(Aborted, e, if why == REASON_SAFETY then REASON_SAFETY else REASON_OPERATOR, 0);
        }
      case GateLost(guardReason) =>
        if Model().BeforeRunning() {
          r := DoGo(Error, e, MapGuardReason(guardReason), guardReason);
        } else if state == Running {
          r := DoGo(Paused, e, MapGuardReason(guardReason), guardReason);
        } else {
          r := DoOkNoChange(e);
        }
      case Estop =>
        if Model().Active() { r := DoGo(Aborted, e, REASON_ESTOP, 0); } else { r := DoOkNoChange(e); }
      case EkfReset =>
        if state == Arming || state == Engaging {
          r := DoGo(Error, e, REASON_EKF_RESET, 0);
        } else if state == Ready || state == Running || state == Paused {
          r := DoGo(Paused, e, REASON_EKF_RESET, 0);
        } else {
          r := DoOkNoChange(e);
        }
      case SkipPoint(hasActivePoint) =>
        if state != Running && state != Paused && !reengaging {
          r := DoRefuse(e, NotRunning);
        } else if !hasActivePoint {
          r := DoRefuse(e, NoActivePoint);
        } else {
          r := DoOkNoChange(e);
        }
    }

    /** Every event, dispatched as the event methods do. */
    method DoHandle(e: Event) returns (r: Result)
      requires |log| <= LOG_CAPACITY
      modifies this
      ensures Model() == Handle(old(Model()), e).0 && r == Handle(old(Model()), e).1
      ensures |log| <= LOG_CAPACITY
    {
      hide Recorded, Go, Refuse, OkNoChange, Step;
      if e.RppAck? || e.RppComplete? || e.RppError? ||
         e.RppStale? || e.RppPivotTimeout? || e.RppAckTimeout? {
        r := DoRppEvent(e);
        return;
      }
      if e.Pause? || e.ReengageTimeout? || e.Abort? ||
         e.GateLost? || e.Estop? || e.EkfReset? || e.SkipPoint? {
        r := DoInterrupt(e);
        return;
      }
      match e
      case Start(preArmOk) => r := DoStart(preArmOk);
      case ArtifactLoaded(ok) => r := DoStep(Loading, Placing, e, ok, REASON_PATH_ERROR);
      case Placed(ok, why) => r := DoStep(Placing, Arming, e, ok, why);
      case Armed(ok, why) => r := DoStep(Arming, Engaging, e, ok, why);
      case Engaged(ok, why) => r := DoEngaged(ok, why);
      case Resume(gateOk) => r := DoResume(gateOk);
      case Reengage => r := DoReengage();
      case ReengageGate(gateOk) => r := DoReengageGate(gateOk);
    }
  }
}
