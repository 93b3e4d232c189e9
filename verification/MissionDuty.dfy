/** The normative transition table of the mission lifecycle (docs/contracts/dyx3_mission.md, section 3), state by state
    and with the numeric reasons, and what it forces in every run. */
module MissionDuty {
  import opened Common
  import opened MissionFsm
  import opened MissionHistory

  /** Where a transition leads and what it reports. */
  datatype Move = Move(to: State, reason: nat, gate: nat)

  function Report(m: Fsm): Move { Move(m.state, m.reason, m.gateReason) }

  // ---------------------------------------------------------------- the table

  predicate Stopped(s: State) { s == Idle || s == Completed || s == Aborted || s == Error }

  predicate Preparing(s: State) { s == Loading || s == Placing || s == Arming || s == Engaging || s == Ready }

  /** A lost RTK gate is reason 3, any other gate reason 2; the gate is named beside it. */
  function ByGate(to: State, gate: nat): Move { Move(to, if gate == 6 then 3 else 2, gate) }

  /** The step that a confirmed or failed action completes. */
  function Completes(e: Event, s: State, re: bool): Option<Move> {
    match s
    case Loading =>
      if e == ArtifactLoaded(true) then Some(Move(Placing, 0, 0))
      else if e == ArtifactLoaded(false) then Some(Move(Error, 4, 0)) else None
    case Placing => if e.Placed? then Some(if e.ok then Move(Arming, 0, 0) else Move(Error, e.reason, 0)) else None
    case Arming => if e.Armed? then Some(if e.ok then Move(Engaging, 0, 0) else Move(Error, e.reason, 0)) else None
    case Engaging =>
      if !e.Engaged? then None
      else if !e.ok then Some(Move(Error, e.reason, 0))
      else if re then None else Some(Move(Ready, 0, 0))
    case _ => None
  }

  /** What stops or interrupts an execution. */
  function Disturbs(e: Event, s: State, re: bool): Option<Move> {
    if Stopped(s) then None
    else match e
      case Estop => Some(Move(Aborted, 15, 0))
      case Abort(r) => Some(Move(Aborted, if r == 2 then 2 else 1, 0))
      case GateLost(g) =>
        if Preparing(s) then Some(ByGate(Error, g)) else if s == Running then Some(ByGate(Paused, g)) else None
      case EkfReset =>
        if s == Arming || s == Engaging then Some(Move(Error, 6, 0))
        else if s == Loading || s == Placing then None else Some(Move(Paused, 6, 0))
      case RppError =>
        if s == Ready || s == Running || s == Paused || re then Some(Move(Error, 16, 0)) else None
      case Pause => if s == Running then Some(Move(Paused, 1, 0)) else None
      case RppStale => if s == Running then Some(Move(Paused, 17, 0)) else None
      case RppPivotTimeout => if s == Running then Some(Move(Paused, 18, 0)) else None
      case RppComplete => if s == Running then Some(Move(Completed, 0, 0)) else None
      case RppAckTimeout(ok, g) =>
        if s != Ready then None else Some(if ok then Move(Error, 14, 0) else ByGate(Error, g))
      case _ => None
  }

  /** The ways into motion, and the re-engage: `re` within one, `conf` once its OFFBOARD is confirmed. */
  function Engages(e: Event, s: State, conf: bool): Option<Move> {
    match s
    case Ready => if e == RppAck(true) then Some(Move(Running, 0, 0)) else None
    case Paused =>
      if e == Resume(true) then Some(Move(Running, 0, 0))
      else if e == Reengage then Some(Move(Arming, 0, 0)) else None
    case Engaging =>
      if !conf then None
      else if e == ReengageGate(true) then Some(Move(Running, 0, 0))
      else if e.ReengageTimeout? then Some(ByGate(Error, e.guardReason)) else None
    case _ => None
  }

  function Table(e: Event, s: State, re: bool, conf: bool): Option<Move> {
    if Stopped(s) then if e == Start(true) then Some(Move(Loading, 0, 0)) else None
    else if Completes(e, s, re).Some? then Completes(e, s, re)
    else if Disturbs(e, s, re).Some? then Disturbs(e, s, re)
    else Engages(e, s, conf)
  }

  /** The answer to an event that moves nothing; NoReject when it is accepted all the same. */
  function Answer(e: Event, s: State, re: bool, conf: bool): Reject {
    match e
    case Start(_) => if Stopped(s) then SafetyGate else Busy
    case ArtifactLoaded(_) => Illegal
    case Placed(_, _) => Illegal
    case Armed(_, _) => Illegal
    case Engaged(_, _) => if s == Engaging then NoReject else Illegal
    case RppAck(_) => if s == Ready || s == Running || s == Paused then NoReject else Illegal
    case Pause => NotRunning
    case Resume(_) => if re then NoReject else if s == Paused then SafetyGate else NotPaused
    case Reengage => if re then NoReject else NotPaused
    case ReengageGate(_) => if s == Engaging && conf then NoReject else Illegal
    case Abort(_) => NotActive
    case RppComplete => if s == Paused || re then NoReject else Illegal
    case RppError => if Stopped(s) then Illegal else NoReject
    case SkipPoint(point) =>
      if !(s == Running || s == Paused || re) then NotRunning else if point then NoReject else NoActivePoint
    case _ => NoReject
  }

  /** The outcome of an event is what the table says. */
  ghost predicate Conforms(m: Fsm, e: Event, t: Fsm, r: Result) {
    match Table(e, m.state, m.reengaging, m.confirmed)
    case Some(x) =>
      && Report(t) == x
      && r == Result(true, NoReject, true, x.to)
    case None =>
      var why := Answer(e, m.state, m.reengaging, m.confirmed);
      && Report(t) == Report(m)
      && r == Result(why == NoReject, why, false, m.state)
  }

  /** A re-engage begins with the operator's request and ends when ARMING and ENGAGING are left; its OFFBOARD is
      confirmed by an engaged report. */
  ghost predicate MarksFollow(m: Fsm, e: Event, t: Fsm) {
    && (t.reengaging <==>
          (t.state == Arming || t.state == Engaging) && (m.reengaging || (m.state == Paused && e == Reengage)))
    && (t.confirmed <==>
          t.state == Engaging && t.reengaging && (m.confirmed || (m.state == Engaging && e.Engaged? && e.ok)))
  }

  // ---------------------------------------------------------------- one event

  /** What the three kinds of outcome do to the report and the marks. */
  ghost predicate Outcome(m: Fsm, o: (Fsm, Result), x: Move, r: Result) {
    && Report(o.0) == x && o.1 == r
    && (o.0.reengaging <==> m.reengaging && (!r.transitioned || x.to == Arming || x.to == Engaging))
    && (o.0.confirmed <==> m.confirmed && (!r.transitioned || x.to == Arming || x.to == Engaging))
  }

  lemma Outcomes(m: Fsm, e: Event)
    ensures forall to, reason, gate {:trigger Go(m, to, e, reason, gate)} ::
              Outcome(m, Go(m, to, e, reason, gate), Move(to, reason, gate), Result(true, NoReject, true, to))
    ensures forall why {:trigger Refuse(m, e, why)} ::
              Outcome(m, Refuse(m, e, why), Report(m), Result(false, why, false, m.state))
    ensures Outcome(m, OkNoChange(m, e), Report(m), Result(true, NoReject, false, m.state))
  {
    hide Recorded;
  }

  lemma StartConforms(m: Fsm, e: Event)
    requires MarksKept(m) && (e.Start? || e.ArtifactLoaded? || e.Placed?)
    ensures Conforms(m, e, Handle(m, e).0, Handle(m, e).1) && MarksFollow(m, e, Handle(m, e).0)
  {
    hide Recorded, Go, Refuse, OkNoChange;
    Outcomes(m, e);
    Outcomes(m.(missionId := (m.missionId + 1) % 0x1_0000_0000), e);
  }

  lemma PreparationConforms(m: Fsm, e: Event)
    requires MarksKept(m) && (e.Armed? || e.Engaged? || e.RppAck?)
    ensures Conforms(m, e, Handle(m, e).0, Handle(m, e).1) && MarksFollow(m, e, Handle(m, e).0)
  {
    hide Recorded, Go, Refuse, OkNoChange;
    Outcomes(m, e);
    Outcomes(m.(confirmed := true), e);
  }

  lemma ReengageConforms(m: Fsm, e: Event)
    requires MarksKept(m) && (e.Resume? || e.Reengage? || e.ReengageGate? || e.ReengageTimeout?)
    ensures Conforms(m, e, Handle(m, e).0, Handle(m, e).1) && MarksFollow(m, e, Handle(m, e).0)
  {
    hide Recorded, Go, Refuse, OkNoChange;
    Outcomes(m, e);
    Outcomes(m.(reengaging := true, confirmed := false), e);
  }

  lemma StopConforms(m: Fsm, e: Event)
    requires MarksKept(m) && (e.Pause? || e.Abort? || e.Estop? || e.SkipPoint?)
    ensures Conforms(m, e, Handle(m, e).0, Handle(m, e).1) && MarksFollow(m, e, Handle(m, e).0)
  {
    hide Recorded, Go, Refuse, OkNoChange;
    Outcomes(m, e);
  }

  lemma FollowerConforms(m: Fsm, e: Event)
    requires MarksKept(m) && (e.RppComplete? || e.RppError? || e.RppStale? || e.RppPivotTimeout?)
    ensures Conforms(m, e, Handle(m, e).0, Handle(m, e).1) && MarksFollow(m, e, Handle(m, e).0)
  {
    hide Recorded, Go, Refuse, OkNoChange;
    Outcomes(m, e);
  }

  lemma WatchdogConforms(m: Fsm, e: Event)
    requires MarksKept(m) && (e.EkfReset? || e.GateLost? || e.RppAckTimeout?)
    ensures Conforms(m, e, Handle(m, e).0, Handle(m, e).1) && MarksFollow(m, e, Handle(m, e).0)
  {
    hide Recorded, Go, Refuse, OkNoChange;
    Outcomes(m, e);
  }

  lemma EventConforms(m: Fsm, e: Event)
    requires MarksKept(m)
    ensures Conforms(m, e, Handle(m, e).0, Handle(m, e).1) && MarksFollow(m, e, Handle(m, e).0)
  {
    hide Handle, Conforms, MarksFollow, MarksKept;
    if e.Start? || e.ArtifactLoaded? || e.Placed? { StartConforms(m, e); }
    else if e.Armed? || e.Engaged? || e.RppAck? { PreparationConforms(m, e); }
    else if e.Resume? || e.Reengage? || e.ReengageGate? || e.ReengageTimeout? { ReengageConforms(m, e); }
    else if e.EkfReset? || e.GateLost? || e.RppAckTimeout? { WatchdogConforms(m, e); }
    else if e.RppComplete? || e.RppError? || e.RppStale? || e.RppPivotTimeout? { FollowerConforms(m, e); }
    else { StopConforms(m, e); }
  }

  // ---------------------------------------------------------------- runs

  /** Every event of every run does what the table says, and answers what it says. */
  lemma RunConforms(es: seq<Event>, i: nat)
    requires i < |es|
    ensures Conforms(After(es, i), es[i], After(es, i + 1), ResultAt(es, i))
    ensures MarksFollow(After(es, i), es[i], After(es, i + 1))
  {
    hide Handle, Conforms, MarksFollow;
    MarksLocal(es, i);
    EventConforms(After(es, i), es[i]);
  }

  /** In a stopped state nothing but an accepted start changes the report. */
  lemma {:induction false} StopLasts(es: seq<Event>, i: nat, n: nat)
    requires i <= n <= |es| && NoStart(es, i, n) && Stopped(After(es, i).state)
    ensures Report(After(es, n)) == Report(After(es, i))
  {
    hide Handle, MarksFollow, After, ResultAt;
    if i < n {
      StopLasts(es, i, n - 1);
      assert !StartedAt(es, n - 1);
      RunConforms(es, n - 1);
    }
  }

  /** Where a stop leads: an emergency stop or an abort in any active state, a lost gate in any state before motion, an
      estimator reset while arming or engaging, and the end of the path. */
  function StopReport(e: Event, s: State): Option<Move> {
    match e
    case Estop => if Stopped(s) then None else Some(Move(Aborted, 15, 0))
    case Abort(r) => if Stopped(s) then None else Some(Move(Aborted, if r == 2 then 2 else 1, 0))
    case GateLost(g) => if Preparing(s) then Some(Move(Error, if g == 6 then 3 else 2, g)) else None
    case EkfReset => if s == Arming || s == Engaging then Some(Move(Error, 6, 0)) else None
    case RppComplete => if s == Running then Some(Move(Completed, 0, 0)) else None
    case _ => None
  }

  /** In every run a stop takes effect with its own event, is reported with its reason, and from then on the machine
      stays there: nothing moves before the next accepted start. */
  lemma StopsForGood(es: seq<Event>, i: nat, n: nat)
    requires i < n <= |es| && NoStart(es, i + 1, n) && StopReport(es[i], After(es, i).state).Some?
    ensures ResultAt(es, i).accepted && ResultAt(es, i).transitioned
    ensures Some(Report(After(es, n))) == StopReport(es[i], After(es, i).state)
    ensures After(es, n).state != Running
  {
    hide Handle, After, MarksFollow, ResultAt;
    RunConforms(es, i);
    StopLasts(es, i + 1, n);
  }

  /** Before motion and in motion an estimator reset pauses, and so does a lost gate in motion; every pause is reported
      with its reason. */
  predicate Pauses(e: Event, s: State) {
    match e
    case EkfReset => s == Ready || s == Running || s == Paused
    case GateLost(_) => s == Running
    case Pause => s == Running
    case RppStale => s == Running
    case RppPivotTimeout => s == Running
    case _ => false
  }

  function PauseCode(e: Event): nat {
    match e
    case EkfReset => 6
    case GateLost(g) => if g == 6 then 3 else 2
    case Pause => 1
    case RppStale => 17
    case _ => 18
  }

  /** A pause is entered with its own event, and lasts until the operator resumes, re-engages or starts anew, or until
      something stops the execution. */
  lemma PausesAtOnce(es: seq<Event>, i: nat)
    requires i < |es| && Pauses(es[i], After(es, i).state)
    ensures After(es, i + 1).state == Paused && After(es, i + 1).reason == PauseCode(es[i])
    ensures forall n: nat | i < n <= |es| && After(es, n).state == Running ::
              exists j: nat :: i < j < n && ByOperator(es, j)
  {
    hide Handle, After, MarksFollow, ResultAt;
    RunConforms(es, i);
    forall n: nat | i < n <= |es| && After(es, n).state == Running
      ensures exists j: nat :: i < j < n && ByOperator(es, j)
    {
      var j := PauseNeedsOperator(es, i + 1, n);
      assert ByOperator(es, j);
    }
  }

  predicate ByOperator(es: seq<Event>, j: nat) {
    j < |es| && (es[j] == Resume(true) || es[j] == Reengage || StartedAt(es, j))
  }

  /** Motion began at event `j` through a passing gate, and nothing interrupted it since. */
  ghost predicate MovingSince(es: seq<Event>, j: nat, n: nat) {
    j < n <= |es| && Opens(After(es, j), es[j]) && forall i: nat :: j < i < n ==> !Interrupts(es[i])
  }

  lemma {:induction false} KeepsMoving(es: seq<Event>, j: nat, n: nat)
    requires MovingSince(es, j, n)
    ensures After(es, n).state == Running
    decreases n
  {
    hide Handle, After, MarksFollow, ResultAt, Conforms, MarksKept, Opens, Interrupts;
    RunConforms(es, n - 1);
    MarksLocal(es, n - 1);
    if j < n - 1 { KeepsMoving(es, j, n - 1); }
    MovesOn(After(es, n - 1), es[n - 1], After(es, n), ResultAt(es, n - 1));
  }

  lemma MovesOn(m: Fsm, e: Event, t: Fsm, r: Result)
    requires Conforms(m, e, t, r) && MarksKept(m) && (Opens(m, e) || (m.state == Running && !Interrupts(e)))
    ensures t.state == Running
  {
  }

  /** A run is RUNNING exactly when one of the three gated entries happened and no interrupting event since. */
  lemma RunningExactly(es: seq<Event>, n: nat)
    requires n <= |es|
    ensures After(es, n).state == Running <==> exists j: nat :: MovingSince(es, j, n)
  {
    hide Handle, After, Opens, Interrupts;
    if After(es, n).state == Running {
      var _, j := MotionIsGated(es, n);
      assert MovingSince(es, j, n);
    }
    if j: nat :| MovingSince(es, j, n) { KeepsMoving(es, j, n); }
  }
}
