/** What an accepted plan is: exactly which submissions are accepted, and how the submitted runs, their
    vertices and their lengths are found again in the flat polyline. */
module AppPlanRuns {
  import opened Common
  import opened AppPlan
  import opened AppPlanDense

  // ---------------------------------------------------------------- the plan in closed form

  /** A run that is well formed on its own. */
  predicate Proper(run: Run) {
    && run.kind != OtherKind && |run.points| >= 2
    && CleanUpTo(run.points, run.kind == Mark, |run.points|).Ok?
  }

  function Clean(run: Run): (r: seq<Point>)
    requires Proper(run)
    ensures |r| == |run.points| >= 2
  {
    CleanUpTo(run.points, run.kind == Mark, |run.points|).value
  }

  predicate AllProper(runs: seq<Run>, k: nat)
    requires k <= |runs|
  {
    forall r: nat :: r < k ==> Proper(runs[r])
  }

  /** Run `r` and the one before it are well formed. */
  predicate Fit(runs: seq<Run>, r: nat) {
    r < |runs| && Proper(runs[r]) && (r > 0 ==> Proper(runs[r - 1]))
  }

  /** Run `r` as it is driven: its first point moved onto the previous run's last. */
  function Driven(runs: seq<Run>, r: nat): (s: seq<Point>)
    requires Fit(runs, r)
    ensures |s| == |runs[r].points| >= 2
  {
    var c := Clean(runs[r]);
    if r == 0 then c
    else
      var p := Clean(runs[r - 1]);
      c[0 := c[0].(n := p[|p| - 1].n, e := p[|p| - 1].e)]
  }

  /** Run `r` as it is stored. */
  function Stored(h: Hypot, runs: seq<Run>, r: nat): (s: seq<Point>)
    requires Fit(runs, r)
    ensures |s| >= 2
  {
    Dense(h, Driven(runs, r), runs[r].kind == Mark, |Driven(runs, r)|)
  }

  /** The flat polyline of the first `k` runs. */
  function Plan(h: Hypot, runs: seq<Run>, k: nat): (s: seq<Point>)
    requires 0 < k <= |runs| && AllProper(runs, k)
    ensures |s| >= 2
  {
    if k == 1 then Stored(h, runs, 0) else Joined(Plan(h, runs, k - 1), Stored(h, runs, k - 1))
  }

  function TotalPoints(runs: seq<Run>, k: nat): nat
    requires k <= |runs|
  {
    if k == 0 then 0 else TotalPoints(runs, k - 1) + |runs[k - 1].points|
  }

  /** Run `r` continues the one before it: the other kind, starting within the snap distance of its end. */
  ghost predicate Continues(h: Hypot, runs: seq<Run>, r: nat)
    requires Fit(runs, r)
  {
    r > 0 ==>
      && runs[r].kind != runs[r - 1].kind
      && Dist(h, Clean(runs[r - 1])[|Clean(runs[r - 1])| - 1], Clean(runs[r])[0]) <= SNAP
  }

  ghost predicate WellFormed(h: Hypot, runs: seq<Run>, k: nat)
    requires k <= |runs|
  {
    && AllProper(runs, k)
    && (forall r: nat :: r < k ==> Continues(h, runs, r))
    && TotalPoints(runs, k) <= MAX_POINTS
  }

  /** What a caller can check: the runs are well formed and the polyline they make is small enough. */
  ghost predicate Acceptable(h: Hypot, runs: seq<Run>) {
    && runs != [] && WellFormed(h, runs, |runs|)
    && |Plan(h, runs, |runs|)| <= MAX_STORED
  }

  // ---------------------------------------------------------------- acceptance

  lemma DrivenEnd(runs: seq<Run>, r: nat)
    requires Fit(runs, r)
    ensures var d, c := Driven(runs, r), Clean(runs[r]); d[|d| - 1] == c[|c| - 1]
  {
    hide Clean;
  }

  /** The state of the compile loop, in closed form. */
  ghost predicate Reached(h: Hypot, runs: seq<Run>, k: nat, a: Acc)
    requires k <= |runs|
  {
    && WellFormed(h, runs, k)
    && a.total == TotalPoints(runs, k)
    && (k == 0 ==> a.flat == [] && a.previous == None)
    && (k > 0 ==>
          && a.flat == Plan(h, runs, k)
          && a.previous == Some(Previous(runs[k - 1].kind, Clean(runs[k - 1])[|Clean(runs[k - 1])| - 1])))
  }

  lemma WellFormedMore(h: Hypot, runs: seq<Run>, k: nat)
    requires k < |runs| && WellFormed(h, runs, k) && Proper(runs[k]) && TotalPoints(runs, k + 1) <= MAX_POINTS
    requires AllProper(runs, k + 1) && Continues(h, runs, k)
    ensures WellFormed(h, runs, k + 1)
  {
    hide Proper, Continues;
  }

  lemma SnappedIsDriven(h: Hypot, runs: seq<Run>, k: nat, a: Acc)
    requires k < |runs| && Reached(h, runs, k, a) && AllProper(runs, k + 1)
    ensures Snapped(Clean(runs[k]), a.previous) == Driven(runs, k)
  {
    hide Clean, Plan, WellFormed;
  }

  lemma AddIsJoin(h: Hypot, a: Acc, run: Run)
    requires a.previous.Some? ==> a.flat != []
    requires AddRun(h, a, run).Ok?
    ensures Proper(run) && a.total + |run.points| <= MAX_POINTS
    ensures a.previous.Some? ==> a.previous.value.kind != run.kind
    ensures AddRun(h, a, run) == JoinRun(h, a, run.kind, Clean(run), a.total + |run.points|)
  {
    hide JoinRun, CleanUpTo;
  }

  /** Joining a run makes the next polyline of the closed form. */
  lemma JoinIsPlan(h: Hypot, runs: seq<Run>, k: nat, a: Acc)
    requires k < |runs| && Reached(h, runs, k, a) && AllProper(runs, k + 1)
    requires JoinRun(h, a, runs[k].kind, Clean(runs[k]), a.total + |runs[k].points|).Ok?
    ensures var b := JoinRun(h, a, runs[k].kind, Clean(runs[k]), a.total + |runs[k].points|).value;
            && b.flat == Plan(h, runs, k + 1)
            && b.previous == Some(Previous(runs[k].kind, Clean(runs[k])[|Clean(runs[k])| - 1]))
            && b.total == a.total + |runs[k].points|
    ensures a.previous.Some? ==> Dist(h, a.previous.value.end, Clean(runs[k])[0]) <= SNAP
  {
    hide Dist, Clean, Densified, Plan, Stored, Driven, Dense, Joined, Length, Splits, Snapped, WellFormed, Proper;
    var run := runs[k];
    SnappedIsDriven(h, runs, k, a);
    DrivenEnd(runs, k);
    var d := Driven(runs, k);
    BudgetSound(h, d, run.kind == Mark, Budget(a.flat), |d|);
    StoredIs(h, runs, k);
    PlanNext(h, runs, k);
    if k == 0 { assert [] + Stored(h, runs, 0) == Stored(h, runs, 0); }
  }

  /** One accepted run extends the closed form. */
  lemma JoinReaches(h: Hypot, runs: seq<Run>, k: nat, a: Acc)
    requires k < |runs| && Reached(h, runs, k, a) && AddRun(h, a, runs[k]).Ok?
    ensures Reached(h, runs, k + 1, AddRun(h, a, runs[k]).value)
  {
    hide AddRun, JoinRun, Dist, Clean, Plan, WellFormed, Proper;
    AddIsJoin(h, a, runs[k]);
    ProperMore(h, runs, k);
    JoinIsPlan(h, runs, k, a);
    assert Continues(h, runs, k);
    WellFormedMore(h, runs, k);
  }

  lemma ProperMore(h: Hypot, runs: seq<Run>, k: nat)
    requires k < |runs| && WellFormed(h, runs, k) && Proper(runs[k])
    ensures AllProper(runs, k + 1)
  {
    hide Proper, Continues;
  }

  lemma StoredIs(h: Hypot, runs: seq<Run>, r: nat)
    requires Fit(runs, r)
    ensures Stored(h, runs, r) == Dense(h, Driven(runs, r), runs[r].kind == Mark, |Driven(runs, r)|)
  {
    hide Driven, Dense;
  }

  lemma PlanNext(h: Hypot, runs: seq<Run>, k: nat)
    requires k < |runs| && AllProper(runs, k + 1)
    ensures AllProper(runs, k)
    ensures Plan(h, runs, k + 1) == if k == 0 then Stored(h, runs, 0) else Joined(Plan(h, runs, k), Stored(h, runs, k))
    ensures |Plan(h, runs, k + 1)| == |Stored(h, runs, k)| + if k == 0 then 0 else |Plan(h, runs, k)| - 1
  {
    hide Stored, Proper;
  }

  /** A well-formed run whose polyline still fits is accepted. */
  lemma JoinAccepts(h: Hypot, runs: seq<Run>, k: nat, a: Acc)
    requires k < |runs| && Reached(h, runs, k, a) && WellFormed(h, runs, k + 1)
    requires |Plan(h, runs, k + 1)| <= MAX_STORED
    ensures AddRun(h, a, runs[k]).Ok?
  {
    hide Dist, CleanUpTo, Densified, Plan, Stored, Driven, Joined, Length, Splits, Snapped;
    var run := runs[k];
    assert Proper(run) && Continues(h, runs, k);
    SnappedIsDriven(h, runs, k, a);
    var d := Driven(runs, k);
    BudgetSound(h, d, run.kind == Mark, Budget(a.flat), |d|);
    assert Dense(h, d, run.kind == Mark, |d|) == Stored(h, runs, k) by { StoredIs(h, runs, k); }
    PlanNext(h, runs, k);
    assert k > 0 ==> a.flat != [];
    assert |Stored(h, runs, k)| <= Budget(a.flat);
  }

  lemma {:induction false} CompileReaches(h: Hypot, runs: seq<Run>, k: nat)
    requires k <= |runs| && CompileUpTo(h, runs, k).Ok?
    ensures Reached(h, runs, k, CompileUpTo(h, runs, k).value)
  {
    hide AddRun, Plan, Clean, Proper;
    if k > 0 {
      CompileReaches(h, runs, k - 1);
      JoinReaches(h, runs, k - 1, CompileUpTo(h, runs, k - 1).value);
    }
  }

  lemma WellFormedLess(h: Hypot, runs: seq<Run>, k: nat)
    requires k < |runs| && WellFormed(h, runs, k + 1)
    ensures WellFormed(h, runs, k)
    ensures k > 0 ==> |Plan(h, runs, k)| <= |Plan(h, runs, k + 1)|
  {
    hide Proper, Continues, Stored;
    if k > 0 { PlanNext(h, runs, k); }
  }

  lemma {:induction false} CompileAccepts(h: Hypot, runs: seq<Run>, k: nat)
    requires k <= |runs| && WellFormed(h, runs, k)
    requires k > 0 ==> |Plan(h, runs, k)| <= MAX_STORED
    ensures CompileUpTo(h, runs, k).Ok?
  {
    hide AddRun, Plan, Clean, Proper, WellFormed;
    if k > 0 {
      WellFormedLess(h, runs, k - 1);
      CompileAccepts(h, runs, k - 1);
      CompileReaches(h, runs, k - 1);
      JoinAccepts(h, runs, k - 1, CompileUpTo(h, runs, k - 1).value);
    }
  }

  /** A submission is accepted exactly when it is well formed and its densified polyline fits; the early budget checks
      refuse nothing else. What is stored is then the closed form, of at most MAX_STORED points. */
  lemma AcceptedIff(h: Hypot, runs: seq<Run>)
    ensures Compile(h, runs).Ok? <==> Acceptable(h, runs)
    ensures Compile(h, runs).Ok? ==> Compile(h, runs).value.flat == Plan(h, runs, |runs|)
    ensures Compile(h, runs).Ok? ==> |Compile(h, runs).value.flat| <= MAX_STORED
  {
    hide CompileUpTo, WellFormed, Plan, Clean;
    if runs != [] {
      if CompileUpTo(h, runs, |runs|).Ok? { CompileReaches(h, runs, |runs|); }
      if Acceptable(h, runs) { CompileAccepts(h, runs, |runs|); }
    }
  }
}
