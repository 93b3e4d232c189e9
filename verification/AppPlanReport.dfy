/** The compiled plan in terms of the submission alone: the first fault decides the error, every stored point has a
    place known beforehand, and the report adds up the steps of its own runs. All limits are written out. */
module AppPlanReport {
  import opened Common
  import opened AppPlan
  import opened AppPlanDense
  import opened AppPlanRuns
  import opened AppPlanRecovery

  // ---------------------------------------------------------------- faults of a submission

  /** A coordinate must be finite and within ten kilometres. */
  function CoordinateFault(v: Option<real>): Option<Error> {
    match v
    case None => Some(NonFiniteCoordinate)
    case Some(x) => if -10000.0 <= x <= 10000.0 then None else Some(OutOfBounds)
  }

  /** North, then east, then the flags: 1 and 3 in a mark, 0 and 2 in a travel run. */
  function PointFault(p: Submitted, mark: bool): Option<Error> {
    if CoordinateFault(p.n).Some? then CoordinateFault(p.n)
    else if CoordinateFault(p.e).Some? then CoordinateFault(p.e)
    else if p.flags !in {0, 1, 2, 3} then Some(InvalidFlags)
    else if p.flags in (if mark then {1, 3} else {0, 2}) then None
    else Some(MixedSprayInRun)
  }

  /** The first fault among the first `k` points. */
  function PointsFault(ps: seq<Submitted>, mark: bool, k: nat): Option<Error>
    requires k <= |ps|
  {
    if k == 0 then None
    else if PointsFault(ps, mark, k - 1).Some? then PointsFault(ps, mark, k - 1)
    else PointFault(ps[k - 1], mark)
  }

  datatype Spot = Spot(n: real, e: real)

  function Raw(p: Submitted): Spot {
    Spot(if p.n.Some? then p.n.value else 0.0, if p.e.Some? then p.e.value else 0.0)
  }

  /** Every run up to `r` has points. */
  predicate Sized(runs: seq<Run>, r: nat) {
    r < |runs| && forall q: nat :: q <= r ==> |runs[q].points| >= 2
  }

  /** Where vertex `v` of run `r` is driven: a later run starts where the one before it ended. */
  function At(runs: seq<Run>, r: nat, v: nat): Spot
    requires Sized(runs, r) && v < |runs[r].points|
  {
    if v == 0 && r > 0 then Raw(runs[r - 1].points[|runs[r - 1].points| - 1]) else Raw(runs[r].points[v])
  }

  function Away(h: Hypot, a: Spot, b: Spot): real { h(b.n - a.n, b.e - a.e) }

  /** The length of the step that leads to vertex `v`. */
  function Step(h: Hypot, runs: seq<Run>, r: nat, v: nat): real
    requires Sized(runs, r) && 0 < v < |runs[r].points|
  {
    Away(h, At(runs, r, v - 1), At(runs, r, v))
  }

  /** The least number of equal parts of at most five metres. */
  function Least(d: real): (n: nat)
    ensures n > 0 && d <= 5.0 * n as real && (n > 1 ==> d > 5.0 * (n - 1) as real)
  {
    if d <= 5.0 then 1 else 1 + Least(d - 5.0)
  }

  /** Part `j` of `n` of the way from `a` to `b`. */
  function Share(a: Spot, b: Spot, n: nat, j: nat): Spot
    requires n > 0
  {
    Spot(a.n + (b.n - a.n) * j as real / n as real, a.e + (b.e - a.e) * j as real / n as real)
  }

  /** The number of stored points before vertex `v` of run `r`. */
  function Before(h: Hypot, runs: seq<Run>, r: nat, v: nat): nat
    requires Sized(runs, r) && v < |runs[r].points|
    decreases r, v
  {
    if v > 0 then Before(h, runs, r, v - 1) + Least(Step(h, runs, r, v))
    else if r > 0 then Before(h, runs, r - 1, |runs[r - 1].points| - 1)
    else 0
  }

  /** Splitting a long step of run `r` would pass the limit of stored points. */
  ghost predicate Overflows(h: Hypot, runs: seq<Run>, r: nat)
    requires Sized(runs, r)
  {
    exists v: nat :: 0 < v < |runs[r].points| && Step(h, runs, r, v) > 5.0 && Before(h, runs, r, v) >= 200000
  }

  /** What is wrong with run `r` when those before it are in order, in the order of the checks. */
  ghost function Fault(h: Hypot, runs: seq<Run>, r: nat): Option<Error>
    requires r < |runs| && (r > 0 ==> Sized(runs, r - 1))
  {
    var run := runs[r];
    if run.kind == OtherKind then Some(InvalidRunType)
    else if r > 0 && run.kind == runs[r - 1].kind then Some(AdjacentRunsSameType)
    else if |run.points| < 2 then Some(RunTooShort)
    else if TotalPoints(runs, r + 1) > 50000 then Some(PointsLimitExceeded)
    else if PointsFault(run.points, run.kind == Mark, |run.points|).Some?
    then PointsFault(run.points, run.kind == Mark, |run.points|)
    else if r > 0 && Away(h, At(runs, r, 0), Raw(run.points[0])) > 0.010 then Some(RunsNotContiguous)
    else if Overflows(h, runs, r) then Some(PointsLimitExceeded)
    else None
  }

  /** The first `k` runs are in order. */
  ghost predicate Faultless(h: Hypot, runs: seq<Run>, k: nat)
    requires k <= |runs|
    decreases k
  {
    k > 0 ==> Faultless(h, runs, k - 1) && (k > 1 ==> Sized(runs, k - 2)) && Fault(h, runs, k - 1).None?
  }

  lemma FaultlessSized(h: Hypot, runs: seq<Run>, k: nat)
    requires 0 < k <= |runs| && Faultless(h, runs, k)
    ensures Sized(runs, k - 1)
  {
    hide PointsFault, Overflows;
  }

  // ---------------------------------------------------------------- cleaning

  lemma PointIs(p: Submitted, mark: bool)
    ensures PointFault(p, mark).Some? ==> CleanPoint(p, mark) == Err(PointFault(p, mark).value)
    ensures PointFault(p, mark).None? ==>
              CleanPoint(p, mark) == Ok(Point(Raw(p).n, Raw(p).e, mark, p.flags in {2, 3}))
  {
  }

  lemma {:induction false} CleanIs(ps: seq<Submitted>, mark: bool, k: nat)
    requires k <= |ps|
    ensures var c, f := CleanUpTo(ps, mark, k), PointsFault(ps, mark, k);
            if f.Some? then c == Err(f.value)
            else c.Ok? && forall i: nat :: i < k ==>
                   c.value[i] == Point(Raw(ps[i]).n, Raw(ps[i]).e, mark, ps[i].flags in {2, 3})
  {
    hide CleanPoint, PointFault;
    if k > 0 {
      CleanIs(ps, mark, k - 1);
      PointIs(ps[k - 1], mark);
    }
  }

  function SpotOf(p: Point): Spot { Spot(p.n, p.e) }

  lemma DrivenIs(runs: seq<Run>, r: nat, v: nat)
    requires Fit(runs, r) && Sized(runs, r) && v < |runs[r].points|
    ensures SpotOf(Driven(runs, r)[v]) == At(runs, r, v)
    ensures Clean(runs[r])[v] == Point(Raw(runs[r].points[v]).n, Raw(runs[r].points[v]).e, runs[r].kind == Mark,
                                       runs[r].points[v].flags in {2, 3})
  {
    hide PointsFault, CleanUpTo, Raw;
    CleanIs(runs[r].points, runs[r].kind == Mark, |runs[r].points|);
    if r > 0 { CleanIs(runs[r - 1].points, runs[r - 1].kind == Mark, |runs[r - 1].points|); }
  }

  lemma DistIsAway(h: Hypot, a: Point, b: Point)
    ensures Dist(h, a, b) == Away(h, SpotOf(a), SpotOf(b))
  {
  }

  lemma StepIs(h: Hypot, runs: seq<Run>, r: nat, v: nat)
    requires Fit(runs, r) && Sized(runs, r) && 0 < v < |runs[r].points|
    ensures Dist(h, Driven(runs, r)[v - 1], Driven(runs, r)[v]) == Step(h, runs, r, v)
  {
    hide Driven, At, Proper, Dist;
    DrivenIs(runs, r, v - 1);
    DrivenIs(runs, r, v);
    DistIsAway(h, Driven(runs, r)[v - 1], Driven(runs, r)[v]);
  }

  // ---------------------------------------------------------------- where points are stored

  lemma LeastUnique(d: real, n: int)
    requires n > 1 && d <= 5.0 * n as real && d > 5.0 * (n - 1) as real
    ensures Least(d) == n
  {
    var m := Least(d);
    assert m > 1 ==> 5.0 * (m - 1) as real < 5.0 * n as real;
    assert 5.0 * (n - 1) as real < 5.0 * m as real;
  }

  lemma PartsAreLeast(h: Hypot, a: Point, b: Point, spray: bool)
    ensures |StepPoints(h, a, b, spray)| == Least(Dist(h, a, b))
    ensures Long(h, a, b) <==> Dist(h, a, b) > 5.0
    ensures Long(h, a, b) ==> Parts(h, a, b) == Least(Dist(h, a, b))
  {
    hide Dist;
    var d := Dist(h, a, b);
    if Long(h, a, b) {
      PartsOfLong(h, a, b);
      var p := Parts(h, a, b);
      assert p as real >= d / 5.0 && d / 5.0 > (p - 1) as real;
      LeastUnique(d, p);
    }
  }

  lemma {:induction false} DenseCount(h: Hypot, runs: seq<Run>, r: nat, v: nat)
    requires Fit(runs, r) && Sized(runs, r) && v < |runs[r].points|
    ensures var dense := Dense(h, Driven(runs, r), runs[r].kind == Mark, v + 1);
            |dense| == 1 + Before(h, runs, r, v) - Before(h, runs, r, 0)
    decreases v
  {
    hide Driven, Proper, StepPoints, Step, Least;
    if v > 0 {
      DenseCount(h, runs, r, v - 1);
      StepIs(h, runs, r, v);
      PartsAreLeast(h, Driven(runs, r)[v - 1], Driven(runs, r)[v], runs[r].kind == Mark);
    }
  }

  lemma {:induction false} PlanCount(h: Hypot, runs: seq<Run>, k: nat)
    requires 0 < k <= |runs| && AllProper(runs, k) && Sized(runs, k - 1)
    ensures |Plan(h, runs, k)| == 1 + Before(h, runs, k - 1, |runs[k - 1].points| - 1)
  {
    hide Plan, Stored, Dense, Driven, Proper, Before, AllProper;
    FitAt(runs, k, k - 1);
    PlanNext(h, runs, k - 1);
    StoredIs(h, runs, k - 1);
    DenseCount(h, runs, k - 1, |runs[k - 1].points| - 1);
    BeforeStart(h, runs, k - 1);
    if k > 1 { PlanCount(h, runs, k - 1); }
  }

  lemma BeforeStart(h: Hypot, runs: seq<Run>, r: nat)
    requires Sized(runs, r)
    ensures Before(h, runs, r, 0) == if r == 0 then 0 else Before(h, runs, r - 1, |runs[r - 1].points| - 1)
  {
    hide Step, Least;
  }

  lemma ProperSized(runs: seq<Run>, k: nat, r: nat)
    requires r < k <= |runs| && AllProper(runs, k)
    ensures Sized(runs, r)
  {
    hide CleanUpTo;
    assert forall q: nat :: q <= r ==> Proper(runs[q]);
  }

  /** Each vertex is stored at its place. */
  lemma VertexPlace(h: Hypot, runs: seq<Run>, r: nat, v: nat)
    requires Fit(runs, r) && AllProper(runs, r) && Sized(runs, r) && v < |runs[r].points|
    ensures VertexAt(h, runs, r, v) == Before(h, runs, r, v)
  {
    hide Plan, Dense, Driven, Proper, Step, Least;
    DenseCount(h, runs, r, v);
    if r > 0 { PlanCount(h, runs, r); }
  }

  /** An accepted plan, point by point: its size, the place of every vertex, and between two vertices the equal parts of
      their step, as few as five metres allow, carrying the run's spray and no must-hit. */
  lemma StoredPoint(h: Hypot, runs: seq<Run>, r: nat, v: nat, j: nat)
    requires Compile(h, runs).Ok? && r < |runs| && 0 < v < |runs[r].points|
    ensures Sized(runs, |runs| - 1) && Sized(runs, r)
    ensures |Compile(h, runs).value.flat| == 1 + Before(h, runs, |runs| - 1, |runs[|runs| - 1].points| - 1)
    ensures var flat, i, n := Compile(h, runs).value.flat, Before(h, runs, r, v - 1), Least(Step(h, runs, r, v));
            var a, b := At(runs, r, v - 1), At(runs, r, v);
            && i + n < |flat| && SpotOf(flat[i]) == a && SpotOf(flat[i + n]) == b
            && (0 < j < n ==>
                  flat[i + j] == Point(Share(a, b, n, j).n, Share(a, b, n, j).e, runs[r].kind == Mark, false))
  {
    hide Compile, Plan, Proper, Driven, Dense, Step, Least, At, VertexAt, Offset, Share;
    AcceptedIff(h, runs);
    ProperSized(runs, |runs|, |runs| - 1);
    ProperSized(runs, |runs|, r);
    PlanCount(h, runs, |runs|);
    FitAt(runs, |runs|, r);
    VertexSpot(h, runs, r, v - 1);
    VertexSpot(h, runs, r, v);
    if 0 < j < Least(Step(h, runs, r, v)) { InsertedPoint(h, runs, r, v, j); }
  }

  lemma VertexSpot(h: Hypot, runs: seq<Run>, r: nat, v: nat)
    requires Compile(h, runs).Ok? && Fit(runs, r) && AllProper(runs, r) && Sized(runs, r) && v < |runs[r].points|
    ensures var flat, i := Compile(h, runs).value.flat, Before(h, runs, r, v);
            i < |flat| && SpotOf(flat[i]) == At(runs, r, v)
  {
    hide Compile, Plan, Proper, Driven, Dense, At, Offset, Before;
    AcceptedIff(h, runs);
    VertexPlace(h, runs, r, v);
    var d, spray := Driven(runs, r), runs[r].kind == Mark;
    VertexStored(h, d, spray, v);
    StoredIs(h, runs, r);
    Placed(h, runs, |runs|, r, VertexIndex(h, d, spray, v));
    DrivenIs(runs, r, v);
  }

  lemma InsertedPoint(h: Hypot, runs: seq<Run>, r: nat, v: nat, j: nat)
    requires Compile(h, runs).Ok? && r < |runs| && Fit(runs, r) && AllProper(runs, r) && Sized(runs, r)
    requires 0 < v < |runs[r].points| && 0 < j < Least(Step(h, runs, r, v))
    ensures var flat, i, n := Compile(h, runs).value.flat, Before(h, runs, r, v - 1), Least(Step(h, runs, r, v));
            var a, b := At(runs, r, v - 1), At(runs, r, v);
            && i + j < |flat|
            && flat[i + j] == Point(Share(a, b, n, j).n, Share(a, b, n, j).e, runs[r].kind == Mark, false)
  {
    hide Compile, Proper, Driven, At, Step, Least, Before, Between, Raw, Fit, AllProper, Share;
    DrivenIs(runs, r, v - 1);
    DrivenIs(runs, r, v);
    InsertedBetween(h, runs, r, v, j);
    BetweenIs(Driven(runs, r)[v - 1], Driven(runs, r)[v], Least(Step(h, runs, r, v)), runs[r].kind == Mark, j);
  }

  lemma InsertedBetween(h: Hypot, runs: seq<Run>, r: nat, v: nat, j: nat)
    requires Compile(h, runs).Ok? && r < |runs| && Fit(runs, r) && AllProper(runs, r) && Sized(runs, r)
    requires 0 < v < |runs[r].points| && 0 < j < Least(Step(h, runs, r, v))
    ensures var flat, i, n := Compile(h, runs).value.flat, Before(h, runs, r, v - 1), Least(Step(h, runs, r, v));
            var d := Driven(runs, r);
            i + j < |flat| && flat[i + j] == Between(d[v - 1], d[v], n, runs[r].kind == Mark, j)
  {
    hide Compile, Proper, Driven, VertexAt, Step, Least, Between, Long, Parts, Raw, Before;
    VertexPlace(h, runs, r, v - 1);
    VertexPlace(h, runs, r, v);
    BeforeStep(h, runs, r, v);
    InsertedOnSegment(h, runs, r, v - 1, Before(h, runs, r, v - 1) + j);
  }

  lemma BeforeStep(h: Hypot, runs: seq<Run>, r: nat, v: nat)
    requires Sized(runs, r) && 0 < v < |runs[r].points|
    ensures Before(h, runs, r, v) == Before(h, runs, r, v - 1) + Least(Step(h, runs, r, v))
  {
    hide Step, Least;
  }

  lemma BetweenIs(a: Point, b: Point, n: nat, spray: bool, j: nat)
    requires n > 0
    ensures var x, y := SpotOf(a), SpotOf(b);
            Between(a, b, n, spray, j) == Point(Share(x, y, n, j).n, Share(x, y, n, j).e, spray, false)
  {
  }

  // ---------------------------------------------------------------- the first fault

  /** A budget refuses at a long step. */
  lemma {:induction false} RefusedAt(h: Hypot, run: seq<Point>, spray: bool, budget: int, k: nat)
    requires 0 < k <= |run|
    ensures Densified(h, run, spray, budget, k).None? <==> exists v: nat :: Refuses(h, run, spray, budget, v) && v < k
    decreases k
  {
    hide Long, Parts, Dense;
    if k > 1 {
      RefusedAt(h, run, spray, budget, k - 1);
      BudgetSound(h, run, spray, budget, k - 1);
      assert Densified(h, run, spray, budget, k).None? <==>
             Densified(h, run, spray, budget, k - 1).None? || Refuses(h, run, spray, budget, k - 1);
    }
  }

  ghost predicate Refuses(h: Hypot, run: seq<Point>, spray: bool, budget: int, v: nat) {
    && 0 < v < |run| && Long(h, run[v - 1], run[v])
    && |Dense(h, run, spray, v)| + Parts(h, run[v - 1], run[v]) > budget
  }

  lemma RefusesIs(h: Hypot, runs: seq<Run>, r: nat, v: nat, budget: int)
    requires Fit(runs, r) && Sized(runs, r) && 0 < v < |runs[r].points|
    requires budget == 200000 - Before(h, runs, r, 0)
    ensures Refuses(h, Driven(runs, r), runs[r].kind == Mark, budget, v) <==>
              Step(h, runs, r, v) > 5.0 && Before(h, runs, r, v) >= 200000
  {
    hide Driven, Proper, Step, Least, Dense, Long, Parts;
    StepIs(h, runs, r, v);
    PartsAreLeast(h, Driven(runs, r)[v - 1], Driven(runs, r)[v], runs[r].kind == Mark);
    DenseCount(h, runs, r, v - 1);
  }

  lemma OverflowIs(h: Hypot, runs: seq<Run>, r: nat, budget: int)
    requires Fit(runs, r) && Sized(runs, r) && budget == 200000 - Before(h, runs, r, 0)
    ensures var d := Driven(runs, r);
            Densified(h, d, runs[r].kind == Mark, budget, |d|).None? <==> Overflows(h, runs, r)
  {
    hide Driven, Proper, Step, Before, Densified, Refuses;
    var d, spray := Driven(runs, r), runs[r].kind == Mark;
    RefusedAt(h, d, spray, budget, |d|);
    forall v: nat | 0 < v < |runs[r].points|
      ensures Refuses(h, d, spray, budget, v) <==> Step(h, runs, r, v) > 5.0 && Before(h, runs, r, v) >= 200000
    {
      RefusesIs(h, runs, r, v, budget);
    }
    RefusesWithin(h, d, spray, budget);
  }

  lemma RefusesWithin(h: Hypot, run: seq<Point>, spray: bool, budget: int)
    ensures forall v: nat :: Refuses(h, run, spray, budget, v) ==> 0 < v < |run|
  {
  }

  lemma BudgetIs(h: Hypot, runs: seq<Run>, k: nat, a: Acc)
    requires k < |runs| && Reached(h, runs, k, a) && Sized(runs, k)
    ensures Budget(a.flat) == 200000 - Before(h, runs, k, 0)
  {
    hide Plan, Proper, Clean, Step, Least;
    if k > 0 {
      PlanCount(h, runs, k);
    }
  }

  /** A cleaned run is joined exactly when it continues the plan and no long step overflows. */
  lemma JoinFault(h: Hypot, runs: seq<Run>, k: nat, a: Acc)
    requires k < |runs| && Reached(h, runs, k, a) && AllProper(runs, k + 1) && Sized(runs, k)
    ensures var j := JoinRun(h, a, runs[k].kind, Clean(runs[k]), a.total + |runs[k].points|);
            if k > 0 && Away(h, At(runs, k, 0), Raw(runs[k].points[0])) > 0.010 then j == Err(RunsNotContiguous)
            else if Overflows(h, runs, k) then j == Err(PointsLimitExceeded)
            else j.Ok?
  {
    hide Dist, Away, Clean, Densified, Plan, Driven, Joined, Length, Splits, Snapped, Budget, Overflows, WellFormed, At,
         Before, Proper;
    FitAt(runs, k + 1, k);
    SnappedIsDriven(h, runs, k, a);
    BudgetIs(h, runs, k, a);
    OverflowIs(h, runs, k, Budget(a.flat));
    if k > 0 { EndIs(h, runs, k); }
  }

  lemma EndIs(h: Hypot, runs: seq<Run>, k: nat)
    requires 0 < k < |runs| && AllProper(runs, k + 1) && Fit(runs, k) && Sized(runs, k)
    ensures Proper(runs[k - 1]) && Proper(runs[k])
    ensures var c := Clean(runs[k - 1]);
            Dist(h, c[|c| - 1], Clean(runs[k])[0]) == Away(h, At(runs, k, 0), Raw(runs[k].points[0]))
  {
    hide Proper, Clean, Raw;
    FitAt(runs, k + 1, k - 1);
    ProperSized(runs, k + 1, k - 1);
    DrivenIs(runs, k - 1, |runs[k - 1].points| - 1);
    DrivenIs(runs, k, 0);
  }

  /** One more run, after the first `k` were accepted: it is refused with its fault, or accepted. */
  lemma AddFault(h: Hypot, runs: seq<Run>, k: nat, a: Acc)
    requires k < |runs| && Reached(h, runs, k, a) && (k > 0 ==> Sized(runs, k - 1))
    requires a.previous.Some? ==> a.flat != []
    ensures var f := Fault(h, runs, k);
            if f.Some? then AddRun(h, a, runs[k]) == Err(f.value) else AddRun(h, a, runs[k]).Ok?
  {
    hide JoinRun, CleanUpTo, Plan, WellFormed, Clean, Overflows, Away, At, PointsFault;
    var run := runs[k];
    assert TotalPoints(runs, k + 1) == a.total + |run.points|;
    if |run.points| >= 2 {
      CleanIs(run.points, run.kind == Mark, |run.points|);
      SizedMore(runs, k);
      if Proper(run) {
        ProperMore(h, runs, k);
        JoinFault(h, runs, k, a);
        CleanValue(run);
      }
    }
  }

  lemma SizedMore(runs: seq<Run>, k: nat)
    requires k < |runs| && (k > 0 ==> Sized(runs, k - 1)) && |runs[k].points| >= 2
    ensures Sized(runs, k)
  {
  }

  lemma CleanValue(run: Run)
    requires Proper(run)
    ensures Clean(run) == CleanUpTo(run.points, run.kind == Mark, |run.points|).value
  {
  }

  lemma {:induction false} FaultsDecide(h: Hypot, runs: seq<Run>, k: nat)
    requires k <= |runs|
    ensures CompileUpTo(h, runs, k).Ok? <==> Faultless(h, runs, k)
  {
    hide AddRun, Fault, Plan, Clean, Proper, Reached;
    if k > 0 {
      FaultsDecide(h, runs, k - 1);
      if CompileUpTo(h, runs, k - 1).Ok? {
        if k > 1 { FaultlessSized(h, runs, k - 1); }
        CompileReaches(h, runs, k - 1);
        AddFault(h, runs, k - 1, CompileUpTo(h, runs, k - 1).value);
      }
    }
  }

  /** The first `k` runs are in order, run `k` is not, and `e` says why. */
  ghost predicate FirstFault(h: Hypot, runs: seq<Run>, k: nat, e: Error) {
    k < |runs| && Faultless(h, runs, k) && (k > 0 ==> Sized(runs, k - 1)) && Fault(h, runs, k) == Some(e)
  }

  lemma {:induction false} ErrorIs(h: Hypot, runs: seq<Run>, k: nat, e: Error)
    requires k <= |runs|
    ensures CompileUpTo(h, runs, k) == Err(e) <==> exists r: nat :: r < k && FirstFault(h, runs, r, e)
    decreases k
  {
    hide AddRun, Fault, Plan, Clean, Proper, Reached, Faultless;
    if k > 0 {
      ErrorIs(h, runs, k - 1, e);
      FaultsDecide(h, runs, k - 1);
      if CompileUpTo(h, runs, k - 1).Ok? {
        if k > 1 { FaultlessSized(h, runs, k - 1); }
        CompileReaches(h, runs, k - 1);
        AddFault(h, runs, k - 1, CompileUpTo(h, runs, k - 1).value);
        assert FirstFault(h, runs, k - 1, e) <==> AddRun(h, CompileUpTo(h, runs, k - 1).value, runs[k - 1]) == Err(e);
      } else {
        assert !FirstFault(h, runs, k - 1, e);
      }
    }
  }

  /** A submission is refused exactly with its first fault: none at all, the first run out of order, or too many points
      stored in the end. */
  lemma RefusedExactly(h: Hypot, runs: seq<Run>, e: Error)
    ensures Compile(h, runs) == Err(e) <==>
      || (runs == [] && e == EmptyMission)
      || (exists r: nat :: FirstFault(h, runs, r, e))
      || (runs != [] && Faultless(h, runs, |runs|) && e == PointsLimitExceeded && Sized(runs, |runs| - 1)
          && Before(h, runs, |runs| - 1, |runs[|runs| - 1].points| - 1) >= 200000)
  {
    hide Fault, Plan, Clean, Proper, Faultless, Before, CompileUpTo;
    if runs != [] {
      ErrorIs(h, runs, |runs|, e);
      FaultsDecide(h, runs, |runs|);
      if CompileUpTo(h, runs, |runs|).Ok? {
        CompileReaches(h, runs, |runs|);
        ProperSized(runs, |runs|, |runs| - 1);
        PlanCount(h, runs, |runs|);
        NoFault(h, runs, e);
      } else {
        assert FirstWithin(h, runs, e);
      }
    }
  }

  ghost predicate FirstWithin(h: Hypot, runs: seq<Run>, e: Error) {
    (exists r: nat :: FirstFault(h, runs, r, e)) <==> exists r: nat :: r < |runs| && FirstFault(h, runs, r, e)
  }

  lemma NoFault(h: Hypot, runs: seq<Run>, e: Error)
    requires CompileUpTo(h, runs, |runs|).Ok?
    ensures forall r: nat :: !FirstFault(h, runs, r, e)
  {
    hide Fault, Faultless, CompileUpTo;
    ErrorIs(h, runs, |runs|, e);
  }

  // ---------------------------------------------------------------- the report

  /** The way from the start of run `r` to its vertex `v`. */
  function Way(h: Hypot, runs: seq<Run>, r: nat, v: nat): real
    requires Sized(runs, r) && v < |runs[r].points|
    decreases v
  {
    if v == 0 then 0.0 else Way(h, runs, r, v - 1) + Step(h, runs, r, v)
  }

  /** The steps of run `r` up to its vertex `v` that are longer than five metres. */
  function LongSteps(h: Hypot, runs: seq<Run>, r: nat, v: nat): nat
    requires Sized(runs, r) && v < |runs[r].points|
    decreases v
  {
    if v == 0 then 0 else LongSteps(h, runs, r, v - 1) + if Step(h, runs, r, v) > 5.0 then 1 else 0
  }

  /** The lengths of the first `k` runs of one kind. */
  function LengthOf(h: Hypot, runs: seq<Run>, kind: Kind, k: nat): real
    requires k <= |runs| && (k > 0 ==> Sized(runs, k - 1))
  {
    if k == 0 then 0.0
    else LengthOf(h, runs, kind, k - 1)
         + if runs[k - 1].kind == kind then Way(h, runs, k - 1, |runs[k - 1].points| - 1) else 0.0
  }

  function SplitsOf(h: Hypot, runs: seq<Run>, k: nat): nat
    requires k <= |runs| && (k > 0 ==> Sized(runs, k - 1))
  {
    if k == 0 then 0 else SplitsOf(h, runs, k - 1) + LongSteps(h, runs, k - 1, |runs[k - 1].points| - 1)
  }

  lemma {:induction false} RunIs(h: Hypot, runs: seq<Run>, r: nat, v: nat)
    requires Fit(runs, r) && Sized(runs, r) && v < |runs[r].points|
    ensures Length(h, Driven(runs, r), v + 1) == Way(h, runs, r, v)
    ensures Splits(h, Driven(runs, r), v + 1) == LongSteps(h, runs, r, v)
    decreases v
  {
    hide Driven, Proper, Step, Dist;
    if v > 0 {
      RunIs(h, runs, r, v - 1);
      StepIs(h, runs, r, v);
    }
  }

  lemma AddReport(h: Hypot, runs: seq<Run>, k: nat, a: Acc)
    requires k < |runs| && Reached(h, runs, k, a) && AddRun(h, a, runs[k]).Ok? && Sized(runs, k)
    ensures var b := AddRun(h, a, runs[k]).value;
            var way := Way(h, runs, k, |runs[k].points| - 1);
            && b.markLength == a.markLength + (if runs[k].kind == Mark then way else 0.0)
            && b.transitLength == a.transitLength + (if runs[k].kind == Travel then way else 0.0)
            && b.splits == a.splits + LongSteps(h, runs, k, |runs[k].points| - 1)
  {
    hide AddRun, Dist, Clean, Densified, Plan, Driven, Joined, Length, Splits, Snapped, WellFormed, CleanUpTo, Way,
         LongSteps;
    AddIsJoin(h, a, runs[k]);
    ProperMore(h, runs, k);
    FitAt(runs, k + 1, k);
    SnappedIsDriven(h, runs, k, a);
    RunIs(h, runs, k, |runs[k].points| - 1);
  }

  /** The report of an accepted plan: the steps of the mark runs, those of the travel runs, and how many steps were
      longer than five metres. */
  lemma {:induction false} ReportExact(h: Hypot, runs: seq<Run>, k: nat)
    requires k <= |runs| && CompileUpTo(h, runs, k).Ok?
    ensures k > 0 ==> Sized(runs, k - 1)
    ensures var a := CompileUpTo(h, runs, k).value;
            && a.markLength == LengthOf(h, runs, Mark, k) && a.transitLength == LengthOf(h, runs, Travel, k)
            && a.splits == SplitsOf(h, runs, k)
  {
    hide AddRun, Plan, Clean, Proper, Way, LongSteps;
    if k > 0 {
      CompileReaches(h, runs, k);
      ProperSized(runs, k, k - 1);
      ReportExact(h, runs, k - 1);
      CompileReaches(h, runs, k - 1);
      AddReport(h, runs, k - 1, CompileUpTo(h, runs, k - 1).value);
    }
  }
}
