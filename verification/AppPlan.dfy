/** Compiling submitted runs into one flat flagged polyline: snapping each run onto the end of the one
    before it, splitting long steps, and merging the shared boundary points. Coordinates are real numbers and
    the Euclidean length is a parameter. */
module AppPlan {
  import opened Common

  /** Euclidean length of a vector. */
  type Hypot = (real, real) -> real

  ghost predicate IsHypot(h: Hypot) {
    forall x, y :: h(x, y) >= 0.0 && h(x, y) * h(x, y) == x * x + y * y
  }

  const MAX_POINTS: nat := 50_000
  const MAX_STORED: nat := 200_000
  const MAX_STEP: real := 5.0
  const ENVELOPE: real := 10_000.0
  const SNAP: real := 0.010

  datatype Kind = Mark | Travel | OtherKind

  /** A submitted point; a coordinate that is not a finite number is None. Flag bit 0 is spray, bit 1 must-hit. */
  datatype Submitted = Submitted(n: Option<real>, e: Option<real>, flags: int)

  datatype Run = Run(kind: Kind, points: seq<Submitted>)

  datatype Point = Point(n: real, e: real, spray: bool, mustHit: bool)

  datatype Error =
    | EmptyMission | InvalidRunType | AdjacentRunsSameType | RunTooShort | PointsLimitExceeded
    | NonFiniteCoordinate | OutOfBounds | InvalidFlags | MixedSprayInRun | RunsNotContiguous

  datatype Result<T> = Ok(value: T) | Err(error: Error)

  function Dist(h: Hypot, a: Point, b: Point): real { h(b.n - a.n, b.e - a.e) }

  predicate SameSpot(a: Point, b: Point) { a.n == b.n && a.e == b.e }

  function Max(a: real, b: real): real { if a < b then b else a }

  // ---------------------------------------------------------------- validation

  function Coordinate(v: Option<real>): Result<real> {
    if v.None? then Err(NonFiniteCoordinate)
    else if v.value > ENVELOPE || v.value < -ENVELOPE then Err(OutOfBounds)
    else Ok(v.value)
  }

  function CleanPoint(p: Submitted, spray: bool): Result<Point> {
    var n := Coordinate(p.n);
    if n.Err? then Err(n.error)
    else
      var e := Coordinate(p.e);
      if e.Err? then Err(e.error)
      else if !(0 <= p.flags <= 3) then Err(InvalidFlags)
      else if (p.flags % 2 == 1) != spray then Err(MixedSprayInRun)
      else Ok(Point(n.value, e.value, spray, p.flags >= 2))
  }

  /** The first `k` points of a run, cleaned. */
  function CleanUpTo(ps: seq<Submitted>, spray: bool, k: nat): (r: Result<seq<Point>>)
    requires k <= |ps|
    ensures r.Ok? ==> |r.value| == k
  {
    if k == 0 then Ok([])
    else
      var before := CleanUpTo(ps, spray, k - 1);
      if before.Err? then before
      else
        var p := CleanPoint(ps[k - 1], spray);
        if p.Err? then Err(p.error) else Ok(before.value + [p.value])
  }

  // ---------------------------------------------------------------- densifying

  function Ceil(x: real): int { -((-x).Floor) }

  function Parts(h: Hypot, a: Point, b: Point): int { Ceil(Dist(h, a, b) / MAX_STEP) }

  predicate Long(h: Hypot, a: Point, b: Point) { Dist(h, a, b) > MAX_STEP }

  /** Point `j` of `parts` on the segment from `a` to `b`. */
  function Between(a: Point, b: Point, parts: int, spray: bool, j: int): Point
    requires parts > 0
  {
    Point(a.n + (b.n - a.n) * j as real / parts as real, a.e + (b.e - a.e) * j as real / parts as real, spray, false)
  }

  /** The points inserted at 1 .. k-1 of `parts`. */
  function Inserted(a: Point, b: Point, parts: int, spray: bool, k: nat): (r: seq<Point>)
    requires parts > 0 && k > 0
    ensures |r| == k - 1
  {
    if k == 1 then [] else Inserted(a, b, parts, spray, k - 1) + [Between(a, b, parts, spray, k - 1)]
  }

  lemma PartsOfLong(h: Hypot, a: Point, b: Point)
    requires Long(h, a, b)
    ensures Parts(h, a, b) >= 2
  {
  }

  /** What a step adds after its first point. */
  function StepPoints(h: Hypot, a: Point, b: Point, spray: bool): (r: seq<Point>)
    ensures |r| == if Long(h, a, b) then Parts(h, a, b) else 1
  {
    if Long(h, a, b) then
      PartsOfLong(h, a, b);
      Inserted(a, b, Parts(h, a, b), spray, Parts(h, a, b)) + [b]
    else [b]
  }

  lemma StepOfLong(h: Hypot, a: Point, b: Point, spray: bool)
    requires Long(h, a, b)
    ensures Parts(h, a, b) >= 2
    ensures StepPoints(h, a, b, spray) == Inserted(a, b, Parts(h, a, b), spray, Parts(h, a, b)) + [b]
  {
    PartsOfLong(h, a, b);
  }

  lemma StepOfShort(h: Hypot, a: Point, b: Point, spray: bool)
    requires !Long(h, a, b)
    ensures StepPoints(h, a, b, spray) == [b]
  {
  }

  /** The first `k` points of a run with every long step split. */
  function Dense(h: Hypot, run: seq<Point>, spray: bool, k: nat): (r: seq<Point>)
    requires 0 < k <= |run|
    ensures |r| >= k
  {
    if k == 1 then [run[0]] else Dense(h, run, spray, k - 1) + StepPoints(h, run[k - 2], run[k - 1], spray)
  }

  /** The same, refusing a split that would exceed the budget. */
  function Densified(h: Hypot, run: seq<Point>, spray: bool, budget: int, k: nat): (r: Option<seq<Point>>)
    requires 0 < k <= |run|
    ensures r.Some? ==> |r.value| >= k
  {
    if k == 1 then Some([run[0]])
    else
      var before := Densified(h, run, spray, budget, k - 1);
      if before.None? then None
      else
        var a, b := run[k - 2], run[k - 1];
        if Long(h, a, b) && |before.value| + Parts(h, a, b) > budget then None
        else Some(before.value + StepPoints(h, a, b, spray))
  }

  function Splits(h: Hypot, run: seq<Point>, k: nat): nat
    requires k <= |run|
  {
    if k <= 1 then 0 else Splits(h, run, k - 1) + if Long(h, run[k - 2], run[k - 1]) then 1 else 0
  }

  /** The length of the polyline through the first `k` points. */
  function Length(h: Hypot, s: seq<Point>, k: nat): real
    requires k <= |s|
  {
    if k <= 1 then 0.0 else Length(h, s, k - 1) + Dist(h, s[k - 2], s[k - 1])
  }

  // ---------------------------------------------------------------- compiling

  datatype Previous = Previous(kind: Kind, end: Point)

  datatype Acc = Acc(
    flat: seq<Point>,
    markLength: real,
    transitLength: real,
    total: nat,
    splits: nat,
    maxSnap: real,
    previous: Option<Previous>)

  const START := Acc([], 0.0, 0.0, 0, 0, 0.0, None)

  /** A run moved onto the end of the one before it. */
  function Snapped(clean: seq<Point>, previous: Option<Previous>): (r: seq<Point>)
    requires clean != []
    ensures |r| == |clean|
  {
    if previous.None? then clean
    else clean[0 := clean[0].(n := previous.value.end.n, e := previous.value.end.e)]
  }

  /** The polyline with a densified run joined on: the shared point keeps its place and spray and takes either
      copy's must-hit. */
  function Joined(flat: seq<Point>, dense: seq<Point>): seq<Point>
    requires flat != [] && dense != []
  {
    var last := |flat| - 1;
    flat[last := flat[last].(mustHit := flat[last].mustHit || dense[0].mustHit)] + dense[1..]
  }

  lemma SnappedIs(clean: seq<Point>, previous: Option<Previous>)
    requires clean != []
    ensures Snapped(clean, previous) ==
            if previous.None? then clean
            else
              var end := previous.value.end;
              clean[0 := Point(end.n, end.e, clean[0].spray, clean[0].mustHit)]
  {
  }

  lemma JoinedIs(flat: seq<Point>, dense: seq<Point>)
    requires flat != [] && dense != []
    ensures var last := flat[|flat| - 1];
            var shared := Point(last.n, last.e, last.spray, last.mustHit || dense[0].mustHit);
            Joined(flat, dense) == flat[|flat| - 1 := shared] + dense[1..]
  {
  }

  function Budget(flat: seq<Point>): int { MAX_STORED - |flat| + if flat != [] then 1 else 0 }

  /** A cleaned run joined onto the plan. */
  function JoinRun(h: Hypot, a: Acc, kind: Kind, clean: seq<Point>, total: nat): Result<Acc>
    requires clean != []
    requires a.previous.Some? ==> a.flat != []
  {
    var gap := if a.previous.Some? then Dist(h, a.previous.value.end, clean[0]) else 0.0;
    if a.previous.Some? && gap > SNAP then Err(RunsNotContiguous)
    else
      var run := Snapped(clean, a.previous);
      var length := Length(h, run, |run|);
      var dense := Densified(h, run, kind == Mark, Budget(a.flat), |run|);
      if dense.None? then Err(PointsLimitExceeded)
      else
        Ok(Acc(if a.previous.Some? then Joined(a.flat, dense.value) else a.flat + dense.value,
               if kind == Mark then a.markLength + length else a.markLength,
               if kind == Mark then a.transitLength else a.transitLength + length,
               total,
               a.splits + Splits(h, run, |run|),
               if a.previous.Some? then Max(a.maxSnap, gap) else a.maxSnap,
               Some(Previous(kind, run[|run| - 1]))))
  }

  function AddRun(h: Hypot, a: Acc, run: Run): Result<Acc>
    requires a.previous.Some? ==> a.flat != []
  {
    var total := a.total + |run.points|;
    if run.kind == OtherKind then Err(InvalidRunType)
    else if a.previous.Some? && a.previous.value.kind == run.kind then Err(AdjacentRunsSameType)
    else if |run.points| < 2 then Err(RunTooShort)
    else if total > MAX_POINTS then Err(PointsLimitExceeded)
    else
      var clean := CleanUpTo(run.points, run.kind == Mark, |run.points|);
      if clean.Err? then Err(clean.error) else JoinRun(h, a, run.kind, clean.value, total)
  }

  /** The plan after the first `k` runs. */
  function CompileUpTo(h: Hypot, runs: seq<Run>, k: nat): (r: Result<Acc>)
    requires k <= |runs|
    ensures r.Ok? && r.value.previous.Some? ==> r.value.flat != []
  {
    if k == 0 then Ok(START)
    else
      var before := CompileUpTo(h, runs, k - 1);
      if before.Err? then before else AddRun(h, before.value, runs[k - 1])
  }

  function Compile(h: Hypot, runs: seq<Run>): Result<Acc> {
    if runs == [] then Err(EmptyMission)
    else
      var all := CompileUpTo(h, runs, |runs|);
      if all.Ok? && |all.value.flat| > MAX_STORED then Err(PointsLimitExceeded) else all
  }

  // ---------------------------------------------------------------- the loops

  method CleanRun(ps: seq<Submitted>, spray: bool) returns (r: Result<seq<Point>>)
    ensures r == CleanUpTo(ps, spray, |ps|)
  {
    var clean := [];
    for i := 0 to |ps|
      invariant CleanUpTo(ps, spray, i) == Ok(clean)
    {
      var p := CleanPoint(ps[i], spray);
      if p.Err? {
        CleanStops(ps, spray, i + 1, |ps|);
        return Err(p.error);
      }
      clean := clean + [p.value];
    }
    return Ok(clean);
  }

  /** The first error decides. */
  lemma {:induction false} CleanStops(ps: seq<Submitted>, spray: bool, i: nat, k: nat)
    requires i <= k <= |ps| && CleanUpTo(ps, spray, i).Err?
    ensures CleanUpTo(ps, spray, k) == CleanUpTo(ps, spray, i)
  {
    if i < k { CleanStops(ps, spray, i, k - 1); }
  }

  lemma {:induction false} DensifiedStops(h: Hypot, run: seq<Point>, spray: bool, budget: int, i: nat, k: nat)
    requires 0 < i <= k <= |run| && Densified(h, run, spray, budget, i).None?
    ensures Densified(h, run, spray, budget, k).None?
  {
    if i < k { DensifiedStops(h, run, spray, budget, i, k - 1); }
  }

  lemma {:induction false} CompileStops(h: Hypot, runs: seq<Run>, i: nat, k: nat)
    requires i <= k <= |runs| && CompileUpTo(h, runs, i).Err?
    ensures CompileUpTo(h, runs, k) == CompileUpTo(h, runs, i)
  {
    hide AddRun;
    if i < k { CompileStops(h, runs, i, k - 1); }
  }

  method InsertPoints(a: Point, b: Point, parts: nat, spray: bool) returns (out: seq<Point>)
    requires parts > 0
    ensures out == Inserted(a, b, parts, spray, parts)
  {
    hide Between;
    out := [];
    for j := 1 to parts
      invariant out == Inserted(a, b, parts, spray, j)
    {
      out := out + [Between(a, b, parts, spray, j)];
    }
  }

  /** Split every long step into equal collinear sub-steps, counting them. */
  method DoDensify(h: Hypot, run: seq<Point>, spray: bool, budget: int) returns (r: Option<seq<Point>>, split: nat)
    requires run != []
    ensures r == Densified(h, run, spray, budget, |run|)
    ensures r.Some? ==> split == Splits(h, run, |run|)
  {
    hide Parts, Long, Between, StepPoints, Inserted;
    var out := [run[0]];
    split := 0;
    for i := 1 to |run|
      invariant Densified(h, run, spray, budget, i) == Some(out)
      invariant split == Splits(h, run, i)
    {
      var a, b := run[i - 1], run[i];
      if Long(h, a, b) {
        var parts := Parts(h, a, b);
        PartsOfLong(h, a, b);
        StepOfLong(h, a, b, spray);
        if |out| + parts > budget {
          DensifiedStops(h, run, spray, budget, i + 1, |run|);
          return None, split;
        }
        var sub := InsertPoints(a, b, parts, spray);
        split := split + 1;
        assert out + sub + [b] == out + StepPoints(h, a, b, spray);
        out := out + sub + [b];
      } else {
        StepOfShort(h, a, b, spray);
        out := out + [b];
      }
    }
    return Some(out), split;
  }

  method MeasureRun(h: Hypot, run: seq<Point>, from: real) returns (length: real)
    requires run != []
    ensures length == from + Length(h, run, |run|)
  {
    length := from;
    for i := 1 to |run|
      invariant length == from + Length(h, run, i)
    {
      length := length + Dist(h, run[i - 1], run[i]);
    }
  }

  /** One pass of the compile loop, after validation. */
  method DoJoinRun(h: Hypot, a: Acc, kind: Kind, points: seq<Point>, total: nat) returns (r: Result<Acc>)
    requires points != []
    requires a.previous.Some? ==> a.flat != []
    ensures r == JoinRun(h, a, kind, points, total)
  {
    hide Densified, Splits, Length, Dist, Snapped, Joined;
    var clean := points;
    SnappedIs(points, a.previous);
    var maxSnap, flat := a.maxSnap, a.flat;
    if a.previous.Some? {
      var end := a.previous.value.end;
      var gap := Dist(h, end, clean[0]);
      if gap > SNAP { return Err(RunsNotContiguous); }
      maxSnap := Max(maxSnap, gap);
      clean := clean[0 := Point(end.n, end.e, clean[0].spray, clean[0].mustHit)];
    }
    var mark, transit := a.markLength, a.transitLength;
    if kind == Mark { mark := MeasureRun(h, clean, mark); } else { transit := MeasureRun(h, clean, transit); }
    var dense, split := DoDensify(h, clean, kind == Mark, MAX_STORED - |flat| + if flat != [] then 1 else 0);
    if dense.None? { return Err(PointsLimitExceeded); }
    if a.previous.Some? {
      var last := flat[|flat| - 1];
      JoinedIs(flat, dense.value);
      flat := flat[|flat| - 1 := Point(last.n, last.e, last.spray, last.mustHit || dense.value[0].mustHit)];
      flat := flat + dense.value[1..];
    } else {
      flat := flat + dense.value;
    }
    return Ok(Acc(flat, mark, transit, total, a.splits + split, maxSnap, Some(Previous(kind, clean[|clean| - 1]))));
  }

  method CompilePlan(h: Hypot, runs: seq<Run>) returns (r: Result<Acc>)
    ensures r == Compile(h, runs)
  {
    hide JoinRun, CleanUpTo;
    if runs == [] { return Err(EmptyMission); }
    var a := START;
    for i := 0 to |runs|
      invariant CompileUpTo(h, runs, i) == Ok(a)
    {
      var next := DoAddRun(h, a, runs[i]);
      if next.Err? {
        CompileStops(h, runs, i + 1, |runs|);
        return next;
      }
      a := next.value;
    }
    if |a.flat| > MAX_STORED { return Err(PointsLimitExceeded); }
    return Ok(a);
  }

  method DoAddRun(h: Hypot, a: Acc, run: Run) returns (r: Result<Acc>)
    requires a.previous.Some? ==> a.flat != []
    ensures r == AddRun(h, a, run)
  {
    hide JoinRun, CleanUpTo;
    if run.kind == OtherKind { return Err(InvalidRunType); }
    if a.previous.Some? && a.previous.value.kind == run.kind { return Err(AdjacentRunsSameType); }
    if |run.points| < 2 { return Err(RunTooShort); }
    var total := a.total + |run.points|;
    if total > MAX_POINTS { return Err(PointsLimitExceeded); }
    var clean := CleanRun(run.points, run.kind == Mark);
    if clean.Err? { return Err(clean.error); }
    r := DoJoinRun(h, a, run.kind, clean.value, total);
  }
}
