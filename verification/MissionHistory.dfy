/** What every run of the mission lifecycle keeps: the milestones behind each state, the gate behind
    every motion, the re-engage sub-protocol, and the retained log as the tail of the full history. */
module MissionHistory {
  import opened MissionFsm

  /** The machine after the first `n` events, from a fresh one. */
  function After(es: seq<Event>, n: nat): Fsm
    requires n <= |es|
  {
    if n == 0 then INITIAL else Handle(After(es, n - 1), es[n - 1]).0
  }

  function ResultAt(es: seq<Event>, i: nat): Result
    requires i < |es|
  {
    Handle(After(es, i), es[i]).1
  }

  predicate StartedAt(es: seq<Event>, i: nat)
    requires i < |es|
  {
    es[i].Start? && ResultAt(es, i).accepted
  }

  /** Event `i` moved the machine between these two states. */
  predicate Moved(es: seq<Event>, i: nat, from: State, to: State)
    requires i < |es|
  {
    After(es, i).state == from && After(es, i + 1).state == to
  }

  predicate NoStart(es: seq<Event>, i: nat, n: nat)
    requires n <= |es|
  {
    forall j: nat :: i <= j < n ==> !StartedAt(es, j)
  }

  // ---------------------------------------------------------------- one event

  /** Where an event can lead. */
  ghost predicate Edge(m: Fsm, e: Event, t: Fsm, accepted: bool) {
    && (e.Start? && accepted ==> t.state == Loading && !t.reengaging && !m.Active())
    && (t.state == Loading ==> m.state == Loading || (e.Start? && accepted))
    && (t.state == Placing ==> m.state == Placing || (m.state == Loading && e == ArtifactLoaded(true)))
    && (t.state == Arming ==>
          || (m.state == Arming && t.reengaging == m.reengaging)
          || (m.state == Placing && e.Placed? && e.ok && t.reengaging == m.reengaging)
          || (m.state == Paused && e == Reengage && t.reengaging))
    && (t.state == Engaging ==>
          && t.reengaging == m.reengaging
          && (m.state == Engaging || (m.state == Arming && e.Armed? && e.ok)))
    && (t.state == Ready ==> m.state == Ready || (m.state == Engaging && !m.reengaging && e.Engaged? && e.ok))
    && (t.state == Running && m.state != Running ==> Opens(m, e))
    && (t.state == Paused ==> m.state == Paused || m.state == Running || m.state == Ready)
    && (m.Terminal() && !(e.Start? && accepted) ==> t.state == m.state)
    && (t.state == Idle ==> m.state == Idle)
  }

  /** The three ways into RUNNING, each with its gate passing. */
  predicate Opens(m: Fsm, e: Event) {
    || (m.state == Ready && e == RppAck(true))
    || (m.state == Paused && e == Resume(true))
    || (m.state == Engaging && m.reengaging && m.confirmed && e == ReengageGate(true))
  }

  ghost predicate MarksKept(m: Fsm) {
    && (m.reengaging ==> m.state == Arming || m.state == Engaging)
    && (m.confirmed ==> m.reengaging && m.state == Engaging)
  }

  lemma MarksStep(m: Fsm, e: Event)
    requires MarksKept(m)
    ensures MarksKept(Handle(m, e).0)
  {
    hide Recorded;
  }

  lemma EdgeStep(m: Fsm, e: Event)
    requires MarksKept(m)
    ensures Edge(m, e, Handle(m, e).0, Handle(m, e).1.accepted)
  {
    hide Recorded;
  }

  /** Events that must interrupt motion. */
  predicate Interrupts(e: Event) {
    e.Pause? || e.GateLost? || e.Estop? || e.Abort? || e.EkfReset? || e.RppStale? || e.RppPivotTimeout? ||
    e.RppComplete? || e.RppError?
  }

  lemma InterruptStep(m: Fsm, e: Event)
    requires MarksKept(m) && Interrupts(e)
    ensures Handle(m, e).0.state != Running
  {
    hide Recorded;
  }

  /** Going from `m` to `t` left exactly one record, of event `e`. */
  ghost predicate Logged(m: Fsm, e: Event, t: Fsm, r: Result) {
    && t.number == m.number + 1
    && r.state == t.state
    && (r.transitioned ==> r.accepted)
    && (!r.transitioned ==> t.state == m.state)
    && t.log == Recorded(m.log, Record(m.number + 1, m.state, t.state, e, t.reason, !r.accepted, r.reject))
    && t.changes == m.changes + (if r.transitioned then 1 else 0)
    && t.missionId == m.missionId
  }

  lemma OutcomesLog(m: Fsm, e: Event)
    ensures forall to, reason, gate :: Logged(m, e, Go(m, to, e, reason, gate).0, Go(m, to, e, reason, gate).1)
    ensures forall to, reason, gate :: Go(m, to, e, reason, gate).1.accepted
    ensures forall why :: Logged(m, e, Refuse(m, e, why).0, Refuse(m, e, why).1)
    ensures forall why :: !Refuse(m, e, why).1.accepted
    ensures Logged(m, e, OkNoChange(m, e).0, OkNoChange(m, e).1)
  {
    hide Recorded;
  }

  /** Every event appends exactly one record of itself. */
  lemma RecordStep(m: Fsm, e: Event)
    ensures var id := if e.Start? && Handle(m, e).1.accepted then (m.missionId + 1) % 0x1_0000_0000 else m.missionId;
            Logged(m.(missionId := id), e, Handle(m, e).0, Handle(m, e).1)
  {
    hide Recorded, Go, Refuse, OkNoChange;
    OutcomesLog(m, e);
    OutcomesLog(m.(missionId := (m.missionId + 1) % 0x1_0000_0000), e);
    OutcomesLog(m.(reengaging := true, confirmed := false), e);
    OutcomesLog(m.(confirmed := true), e);
  }

  // ---------------------------------------------------------------- marks

  /** The re-engage marks live only in ARMING and ENGAGING, and its OFFBOARD confirmation only in ENGAGING. */
  lemma {:induction false} MarksLocal(es: seq<Event>, n: nat)
    requires n <= |es|
    ensures MarksKept(After(es, n))
  {
    hide Handle;
    if n > 0 {
      MarksLocal(es, n - 1);
      MarksStep(After(es, n - 1), es[n - 1]);
    }
  }

  lemma EdgeAt(es: seq<Event>, i: nat)
    requires i < |es|
    ensures Edge(After(es, i), es[i], After(es, i + 1), ResultAt(es, i).accepted)
  {
    hide Handle, Edge;
    MarksLocal(es, i);
    EdgeStep(After(es, i), es[i]);
  }

  // ---------------------------------------------------------------- milestones

  /** The milestones an execution has passed: the accepted start, artifact loaded, placed, armed, engaged. */
  ghost predicate Milestone(es: seq<Event>, k: nat, i: nat)
    requires i < |es|
  {
    match k
    case 0 => StartedAt(es, i)
    case 1 => es[i] == ArtifactLoaded(true) && Moved(es, i, Loading, Placing)
    case 2 => es[i].Placed? && es[i].ok && Moved(es, i, Placing, Arming)
    case 3 => es[i].Armed? && es[i].ok && Moved(es, i, Arming, Engaging)
    case 4 => es[i].Engaged? && es[i].ok && Moved(es, i, Engaging, Ready)
    case _ => false
  }

  /** `w` holds the indices of the first |w| milestones, in order, the first being the latest accepted start. */
  ghost predicate Passed(es: seq<Event>, n: nat, w: seq<nat>)
    requires n <= |es|
  {
    && (forall k: nat :: k < |w| ==> w[k] < n && Milestone(es, k, w[k]))
    && (forall k: nat :: k + 1 < |w| ==> w[k] < w[k + 1])
    && (|w| > 0 ==> NoStart(es, w[0] + 1, n))
  }

  /** How many milestones a state presupposes. */
  function Needed(m: Fsm): nat {
    match m.state
    case Loading => 1
    case Placing => 2
    case Arming => if m.reengaging then 5 else 3
    case Engaging => if m.reengaging then 5 else 4
    case Ready => 5
    case Running => 5
    case Paused => 5
    case _ => 0
  }

  lemma PassedPrefix(es: seq<Event>, n: nat, w: seq<nat>, k: nat)
    requires n <= |es| && Passed(es, n, w) && k <= |w|
    ensures Passed(es, n, w[..k])
  {
    hide Milestone;
  }

  lemma PassedLater(es: seq<Event>, n: nat, w: seq<nat>)
    requires n < |es| && Passed(es, n, w)
    requires !StartedAt(es, n)
    ensures Passed(es, n + 1, w)
  {
    hide Milestone, StartedAt;
  }

  lemma PassedMore(es: seq<Event>, n: nat, w: seq<nat>)
    requires n < |es| && Passed(es, n, w)
    requires !StartedAt(es, n)
    requires |w| > 0 && Milestone(es, |w|, n)
    ensures Passed(es, n + 1, w + [n])
  {
    hide Milestone, StartedAt;
    var x := w + [n];
    assert forall k: nat :: k < |w| ==> x[k] == w[k];
  }

  lemma NextMilestones(es: seq<Event>, i: nat, v: seq<nat>) returns (w: seq<nat>)
    requires i < |es| && Passed(es, i, v) && |v| == Needed(After(es, i))
    ensures Passed(es, i + 1, w) && |w| == Needed(After(es, i + 1))
  {
    hide Handle, Passed;
    EdgeAt(es, i);
    MarksLocal(es, i);
    MarksLocal(es, i + 1);
    var m, t := After(es, i), After(es, i + 1);
    if StartedAt(es, i) {
      w := StartMilestone(es, i);
    } else if Needed(t) <= Needed(m) {
      PassedPrefix(es, i, v, Needed(t));
      w := v[..Needed(t)];
      PassedLater(es, i, w);
    } else {
      assert Needed(t) == Needed(m) + 1 && Milestone(es, Needed(m), i) && Needed(m) > 0;
      PassedMore(es, i, v);
      w := v + [i];
    }
  }

  /** In every reachable state, the milestones it presupposes were all passed, in order, since the latest
      accepted start: five of them in READY, RUNNING, PAUSED and throughout a re-engage. */
  lemma {:induction false} Milestones(es: seq<Event>, n: nat) returns (w: seq<nat>)
    requires n <= |es|
    ensures Passed(es, n, w) && |w| == Needed(After(es, n))
  {
    hide Handle, Milestone, Moved;
    if n == 0 {
      w := [];
    } else {
      var v := Milestones(es, n - 1);
      w := NextMilestones(es, n - 1, v);
    }
  }

  lemma StartMilestone(es: seq<Event>, i: nat) returns (w: seq<nat>)
    requires i < |es| && StartedAt(es, i)
    ensures Passed(es, i + 1, w) && |w| == 1
  {
    w := [i];
    assert Milestone(es, 0, i);
  }

  // ---------------------------------------------------------------- motion

  /** While RUNNING, the gate passed at the entry, after every milestone of this execution, the machine
      has been RUNNING ever since, and no interrupting event has come. */
  lemma {:induction false} MotionIsGated(es: seq<Event>, n: nat) returns (w: seq<nat>, j: nat)
    requires n <= |es| && After(es, n).state == Running
    ensures Passed(es, n, w) && |w| == 5 && w[4] < j < n
    ensures Opens(After(es, j), es[j]) && After(es, j).state != Running
    ensures forall i: nat :: j < i <= n ==> After(es, i).state == Running
    ensures forall i: nat :: j < i < n ==> !Interrupts(es[i])
  {
    hide Handle, Milestone, Interrupts, Passed;
    EdgeAt(es, n - 1);
    if After(es, n - 1).state == Running {
      w, j := MotionIsGated(es, n - 1);
      PassedLater(es, n - 1, w);
      if Interrupts(es[n - 1]) {
        MarksLocal(es, n - 1);
        InterruptStep(After(es, n - 1), es[n - 1]);
        assert false;
      }
    } else {
      j := n - 1;
      w := Milestones(es, n);
      EngagedBefore(es, n, w);
    }
  }

  lemma EngagedBefore(es: seq<Event>, n: nat, w: seq<nat>)
    requires n <= |es| && Passed(es, n, w) && |w| == 5 && After(es, n).state != Ready
    ensures w[4] < n - 1
  {
    hide Handle;
    assert Milestone(es, 4, w[4]);
  }

  /** A pause ends in motion only through the operator: a resume, a re-engage or a new start. */
  lemma {:induction false} PauseNeedsOperator(es: seq<Event>, i: nat, n: nat) returns (j: nat)
    requires i <= n <= |es|
    requires After(es, i).state == Paused && After(es, n).state != Paused && After(es, n).Active()
    ensures i <= j < n && (es[j] == Resume(true) || es[j] == Reengage || StartedAt(es, j))
  {
    hide Handle;
    EdgeAt(es, n - 1);
    if StartedAt(es, n - 1) || es[n - 1] == Resume(true) || es[n - 1] == Reengage {
      j := n - 1;
    } else {
      assert After(es, n - 1).state != Paused && After(es, n - 1).Active();
      j := PauseNeedsOperator(es, i, n - 1);
    }
  }

  /** Once an execution has moved, paused or re-engaged, it never is READY (or in an earlier step of its
      own) again: that takes an accepted start. */
  lemma {:induction false} ReadyOnlyOnce(es: seq<Event>, i: nat, n: nat)
    requires i <= n <= |es| && NoStart(es, i, n)
    requires var m := After(es, i); m.state == Running || m.state == Paused || m.reengaging
    ensures var m := After(es, n);
            m.state == Running || m.state == Paused || m.Terminal() ||
            (m.reengaging && (m.state == Arming || m.state == Engaging))
  {
    hide Handle;
    MarksLocal(es, n);
    if i < n {
      ReadyOnlyOnce(es, i, n - 1);
      assert !StartedAt(es, n - 1);
      EdgeAt(es, n - 1);
    }
  }

  /** Only an accepted start leaves a terminal state. */
  lemma {:induction false} TerminalIsFinal(es: seq<Event>, i: nat, n: nat)
    requires i <= n <= |es| && NoStart(es, i, n) && After(es, i).Terminal()
    ensures After(es, n).state == After(es, i).state
  {
    hide Handle;
    if i < n {
      TerminalIsFinal(es, i, n - 1);
      assert !StartedAt(es, n - 1);
      EdgeAt(es, n - 1);
    }
  }

  // ---------------------------------------------------------------- reasons

  predicate PauseReason(r: nat) {
    r == REASON_OPERATOR || r == REASON_SAFETY || r == REASON_RTK || r == REASON_EKF_RESET || r == REASON_RPP_STALE ||
    r == REASON_RPP_PIVOT_TIMEOUT
  }

  predicate AbortReason(r: nat) { r == REASON_OPERATOR || r == REASON_SAFETY || r == REASON_ESTOP }

  /** What the reported reasons say about the state they are reported in. */
  ghost predicate Fits(state: State, reason: nat, gateReason: nat) {
    && (gateReason != 0 ==> (state == Paused || state == Error) && reason == MapGuardReason(gateReason))
    && (state == Paused ==> PauseReason(reason))
    && (state == Aborted ==> AbortReason(reason))
    && (state != Paused && state != Aborted && state != Error ==> reason == REASON_NONE)
  }

  ghost predicate ReasonFits(m: Fsm) { Fits(m.state, m.reason, m.gateReason) }

  /** Where each outcome leads, seen from a machine with the reasons of `m`. */
  lemma OutcomesFit(m: Fsm, n: Fsm, e: Event)
    requires ReasonFits(m) && n.state == m.state && n.reason == m.reason && n.gateReason == m.gateReason
    ensures forall to, reason, gate {:trigger Go(n, to, e, reason, gate)} ::
              Fits(to, reason, gate) ==> ReasonFits(Go(n, to, e, reason, gate).0)
    ensures forall why {:trigger Refuse(n, e, why)} :: ReasonFits(Refuse(n, e, why).0)
    ensures ReasonFits(OkNoChange(n, e).0)
  {
    hide Recorded, Fits;
  }

  /** The reasons the events give. */
  lemma GivenReasonsFit()
    ensures forall reason :: Fits(Error, reason, 0)
    ensures forall g :: Fits(Error, MapGuardReason(g), g) && Fits(Paused, MapGuardReason(g), g)
    ensures Fits(Loading, REASON_NONE, 0) && Fits(Placing, REASON_NONE, 0) && Fits(Arming, REASON_NONE, 0)
    ensures Fits(Engaging, REASON_NONE, 0) && Fits(Ready, REASON_NONE, 0) && Fits(Running, REASON_NONE, 0)
    ensures Fits(Completed, REASON_NONE, 0)
    ensures Fits(Aborted, REASON_OPERATOR, 0) && Fits(Aborted, REASON_SAFETY, 0) && Fits(Aborted, REASON_ESTOP, 0)
    ensures Fits(Paused, REASON_OPERATOR, 0) && Fits(Paused, REASON_EKF_RESET, 0)
    ensures Fits(Paused, REASON_RPP_STALE, 0) && Fits(Paused, REASON_RPP_PIVOT_TIMEOUT, 0)
  {
  }

  lemma ReasonStep(m: Fsm, e: Event)
    requires ReasonFits(m)
    ensures ReasonFits(Handle(m, e).0)
  {
    hide Recorded, Go, Refuse, OkNoChange, Fits, ReasonFits, MapGuardReason;
    GivenReasonsFit();
    OutcomesFit(m, m, e);
    OutcomesFit(m, m.(missionId := (m.missionId + 1) % 0x1_0000_0000), e);
    OutcomesFit(m, m.(reengaging := true, confirmed := false), e);
    OutcomesFit(m, m.(confirmed := true), e);
  }

  /** In every reachable state: a reason is reported only where something was interrupted, a pause or an abort names one
      of its own causes, and a guard reason comes with the reason it maps to. */
  lemma {:induction false} ReasonsTell(es: seq<Event>, n: nat)
    requires n <= |es|
    ensures ReasonFits(After(es, n))
  {
    hide Handle, ReasonFits;
    if n == 0 {
      assert ReasonFits(INITIAL) by { InitialReason(); }
    } else {
      ReasonsTell(es, n - 1);
      ReasonStep(After(es, n - 1), es[n - 1]);
    }
  }

  lemma InitialReason()
    ensures ReasonFits(INITIAL)
  {
  }

  // ---------------------------------------------------------------- the log

  /** What event `i` leaves in the log. */
  function RecordOf(es: seq<Event>, i: nat): Record
    requires i < |es|
  {
    var r := ResultAt(es, i);
    Record(i + 1, After(es, i).state, After(es, i + 1).state, es[i], After(es, i + 1).reason, !r.accepted, r.reject)
  }

  function Retained(n: nat): nat { if n < 256 then n else 256 }

  /** The records of the last events before `n`. */
  ghost predicate IsTail(es: seq<Event>, n: nat, log: seq<Record>)
    requires n <= |es|
  {
    |log| == Retained(n) && forall k: nat :: k < |log| ==> log[k] == RecordOf(es, n - |log| + k)
  }

  /** The retained log is the newest part of the full history, one record per event. */
  lemma {:induction false} LogIsTail(es: seq<Event>, n: nat)
    requires n <= |es|
    ensures After(es, n).number == n
    ensures IsTail(es, n, After(es, n).log)
  {
    hide Handle, IsTail, Recorded;
    if n == 0 {
      EmptyTail(es);
    } else {
      LogIsTail(es, n - 1);
      RecordStep(After(es, n - 1), es[n - 1]);
      var was, log := After(es, n - 1).log, After(es, n).log;
      assert log == Recorded(was, RecordOf(es, n - 1));
      LogShift(es, n, was, log);
    }
  }

  lemma EmptyTail(es: seq<Event>)
    ensures IsTail(es, 0, [])
  {
  }

  lemma LogShift(es: seq<Event>, n: nat, was: seq<Record>, log: seq<Record>)
    requires 0 < n <= |es|
    requires IsTail(es, n - 1, was) && log == Recorded(was, RecordOf(es, n - 1))
    ensures IsTail(es, n, log)
  {
    hide Handle, RecordOf;
    var full := was + [RecordOf(es, n - 1)];
    forall k: nat | k < |log|
      ensures log[k] == RecordOf(es, n - |log| + k)
    {
      assert log[k] == full[|full| - |log| + k];
    }
  }

  /** Retained records carry consecutive numbers, chain from/to, end in the present state, and a record
      that is refused changes nothing. */
  lemma LogChains(es: seq<Event>, n: nat)
    requires n <= |es|
    ensures var m := After(es, n);
            && (forall k: nat :: k < |m.log| ==> m.log[k].number == n - |m.log| + k + 1)
            && (forall k: nat :: k < |m.log| && m.log[k].refused ==> m.log[k].from == m.log[k].to)
            && (forall k: nat :: k + 1 < |m.log| ==> m.log[k].to == m.log[k + 1].from)
            && (n > 0 ==> |m.log| > 0 && m.log[|m.log| - 1].to == m.state)
  {
    hide Handle;
    LogIsTail(es, n);
    var log := After(es, n).log;
    forall k: nat | k < |log| && log[k].refused
      ensures log[k].from == log[k].to
    {
      var i := n - |log| + k;
      RecordStep(After(es, i), es[i]);
    }
  }

  function Starts(es: seq<Event>, n: nat): nat
    requires n <= |es|
  {
    if n == 0 then 0 else Starts(es, n - 1) + if StartedAt(es, n - 1) then 1 else 0
  }

  /** The mission id counts the accepted starts, in 32 bits. */
  lemma {:induction false} MissionIdCounts(es: seq<Event>, n: nat)
    requires n <= |es|
    ensures After(es, n).missionId == Starts(es, n) % 0x1_0000_0000
  {
    hide Handle;
    if n > 0 {
      MissionIdCounts(es, n - 1);
      RecordStep(After(es, n - 1), es[n - 1]);
    }
  }

  // ---------------------------------------------------------------- the object

  /** A whole run of the object is the run the theorems speak of. */
  method Play(l: Lifecycle, es: seq<Event>) returns (rs: seq<Result>)
    requires l.Model() == INITIAL
    modifies l
    ensures l.Model() == After(es, |es|)
    ensures |rs| == |es| && forall i: nat :: i < |es| ==> rs[i] == ResultAt(es, i)
  {
    hide Handle;
    rs := [];
    for i := 0 to |es|
      invariant l.Model() == After(es, i) && |l.log| <= 256
      invariant |rs| == i && forall j: nat :: j < i ==> rs[j] == ResultAt(es, j)
    {
      var r := l.DoHandle(es[i]);
      rs := rs + [r];
    }
  }
}
