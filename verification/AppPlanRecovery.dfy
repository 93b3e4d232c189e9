/** Recovering the submitted runs from the flat polyline: one maximal equal-spray block per run, every vertex with
    its must-hit mark, only short steps, and the reported length. */
module AppPlanRecovery {
  import opened AppPlan
  import opened AppPlanDense
  import opened AppPlanRuns
  import opened RunSplit

  // ---------------------------------------------------------------- stored runs

  lemma {:induction false} CleanSpray(ps: seq<Submitted>, spray: bool, k: nat)
    requires k <= |ps| && CleanUpTo(ps, spray, k).Ok?
    ensures Uniform(CleanUpTo(ps, spray, k).value, spray)
  {
    if k > 0 { CleanSpray(ps, spray, k - 1); }
  }

  lemma DrivenSpray(runs: seq<Run>, r: nat)
    requires Fit(runs, r)
    ensures Uniform(Driven(runs, r), runs[r].kind == Mark)
  {
    hide CleanUpTo;
    CleanSpray(runs[r].points, runs[r].kind == Mark, |runs[r].points|);
  }

  lemma StoredSpray(h: Hypot, runs: seq<Run>, r: nat)
    requires Fit(runs, r)
    ensures Uniform(Stored(h, runs, r), runs[r].kind == Mark)
  {
    hide Driven, Dense, Proper;
    DrivenSpray(runs, r);
    forall i: nat | i < |Stored(h, runs, r)|
      ensures Stored(h, runs, r)[i].spray == (runs[r].kind == Mark)
    {
      var v := StoredFlags(h, Driven(runs, r), runs[r].kind == Mark, i);
    }
  }

  /** A stored run begins and ends with the run's own first and last points. */
  lemma StoredEnds(h: Hypot, runs: seq<Run>, r: nat)
    requires Fit(runs, r)
    ensures var s, d := Stored(h, runs, r), Driven(runs, r); s[0] == d[0] && s[|s| - 1] == d[|d| - 1]
  {
    hide Driven, Proper;
    var d := Driven(runs, r);
    VertexStored(h, d, runs[r].kind == Mark, 0);
    VertexStored(h, d, runs[r].kind == Mark, |d| - 1);
  }

  lemma FitAt(runs: seq<Run>, k: nat, r: nat)
    requires r < k <= |runs| && AllProper(runs, k)
    ensures Fit(runs, r) && AllProper(runs, r + 1) && AllProper(runs, r)
  {
    hide Proper;
  }

  /** A plan ends where its last run ends. */
  lemma PlanEnd(h: Hypot, runs: seq<Run>, k: nat)
    requires 0 < k <= |runs| && AllProper(runs, k)
    ensures Fit(runs, k - 1)
    ensures var p, s := Plan(h, runs, k), Stored(h, runs, k - 1); p[|p| - 1] == s[|s| - 1]
  {
    hide Stored, Proper;
    FitAt(runs, k, k - 1);
  }

  /** The next run begins on the spot where the plan ends. */
  lemma JoinSpot(h: Hypot, runs: seq<Run>, k: nat)
    requires 0 < k < |runs| && AllProper(runs, k + 1)
    ensures Fit(runs, k) && AllProper(runs, k)
    ensures SameSpot(Plan(h, runs, k)[|Plan(h, runs, k)| - 1], Stored(h, runs, k)[0])
  {
    hide Stored, Plan, Clean, Proper;
    FitAt(runs, k + 1, k);
    FitAt(runs, k + 1, k - 1);
    PlanEnd(h, runs, k);
    StoredEnds(h, runs, k - 1);
    StoredEnds(h, runs, k);
    DrivenEnd(runs, k - 1);
  }

  // ---------------------------------------------------------------- one block per run

  /** The part of a stored run after the shared boundary point. */
  function Body(h: Hypot, runs: seq<Run>, r: nat): (s: seq<Point>)
    requires Fit(runs, r)
    ensures s != []
  {
    if r == 0 then Stored(h, runs, 0) else Stored(h, runs, r)[1..]
  }

  /** With the must-hit mark of the following run's copy of the boundary point. */
  function Block(h: Hypot, runs: seq<Run>, k: nat, r: nat): (s: seq<Point>)
    requires r < k <= |runs| && AllProper(runs, k)
    ensures s != []
  {
    FitAt(runs, k, r);
    var b := Body(h, runs, r);
    var x := b[|b| - 1];
    if r + 1 < k then
      FitAt(runs, k, r + 1);
      LastSet(b, x.(mustHit := x.mustHit || Stored(h, runs, r + 1)[0].mustHit))
    else b
  }

  lemma BlockShifts(h: Hypot, runs: seq<Run>, k: nat, r: nat)
    requires r + 1 < k < |runs| && AllProper(runs, k) && AllProper(runs, k + 1)
    ensures Block(h, runs, k + 1, r) == Block(h, runs, k, r)
  {
    hide Body, Stored, Proper;
  }

  ghost predicate AreBlocks(bs: seq<seq<Point>>, h: Hypot, runs: seq<Run>, k: nat)
    requires k <= |runs| && AllProper(runs, k)
  {
    |bs| == k && forall r: nat :: r < k ==> bs[r] == Block(h, runs, k, r)
  }

  lemma {:induction false} BlocksOfPlan(h: Hypot, runs: seq<Run>, k: nat)
    requires 0 < k <= |runs| && AllProper(runs, k)
    requires forall r: nat :: 0 < r < k ==> runs[r - 1].kind != runs[r].kind
    ensures AreBlocks(Blocks(Plan(h, runs, k)), h, runs, k)
  {
    hide Blocks, Stored, Proper, Plan, AreBlocks, Uniform, Joined;
    if k == 1 {
      FirstBlocks(h, runs);
    } else {
      FitAt(runs, k, k - 1);
      BlocksOfPlan(h, runs, k - 1);
      BlocksNext(h, runs, k - 1);
    }
  }

  lemma FirstBlocks(h: Hypot, runs: seq<Run>)
    requires runs != [] && AllProper(runs, 1)
    ensures AreBlocks(Blocks(Plan(h, runs, 1)), h, runs, 1)
  {
    hide Blocks, Stored, Proper;
    var s := Stored(h, runs, 0);
    StoredSpray(h, runs, 0);
    BlocksAppend([], s, runs[0].kind == Mark);
    NoBlocks();
    assert [] + s == s && [] + [s] == [s];
  }

  lemma NoBlocks()
    ensures Blocks([]) == []
  {
  }

  /** Joining a run retouches the last block and adds one. */
  lemma BlocksJoined(h: Hypot, runs: seq<Run>, k: nat)
    requires 0 < k < |runs| && AllProper(runs, k) && AllProper(runs, k + 1) && runs[k - 1].kind != runs[k].kind
    ensures Fit(runs, k)
    ensures var p, s := Plan(h, runs, k), Stored(h, runs, k);
            var bs, x := Blocks(p), p[|p| - 1];
            var y := x.(mustHit := x.mustHit || s[0].mustHit);
            Blocks(Plan(h, runs, k + 1)) == bs[|bs| - 1 := LastSet(bs[|bs| - 1], y)] + [s[1..]]
  {
    hide Blocks, Stored, Proper, Plan, AllProper, Fit, Uniform, Joined, LastSet;
    FitAt(runs, k + 1, k);
    PlanNext(h, runs, k);
    SpraysDiffer(h, runs, k);
    BlocksOfJoined(Plan(h, runs, k), Stored(h, runs, k), runs[k].kind == Mark);
  }

  /** A plan ends with the spray of its last run, which is not that of the next. */
  lemma SpraysDiffer(h: Hypot, runs: seq<Run>, k: nat)
    requires 0 < k < |runs| && AllProper(runs, k) && AllProper(runs, k + 1) && runs[k - 1].kind != runs[k].kind
    ensures Fit(runs, k) && Uniform(Stored(h, runs, k), runs[k].kind == Mark)
    ensures Plan(h, runs, k)[|Plan(h, runs, k)| - 1].spray != (runs[k].kind == Mark)
  {
    hide Stored, Proper, Plan;
    FitAt(runs, k + 1, k);
    FitAt(runs, k + 1, k - 1);
    PlanEnd(h, runs, k);
    StoredSpray(h, runs, k - 1);
    StoredSpray(h, runs, k);
    OneIsMark(runs, k);
  }

  lemma OneIsMark(runs: seq<Run>, k: nat)
    requires 0 < k < |runs| && Proper(runs[k - 1]) && Proper(runs[k]) && runs[k - 1].kind != runs[k].kind
    ensures (runs[k - 1].kind == Mark) != (runs[k].kind == Mark)
  {
  }

  lemma BlocksNext(h: Hypot, runs: seq<Run>, k: nat)
    requires 0 < k < |runs| && AllProper(runs, k) && AllProper(runs, k + 1) && runs[k - 1].kind != runs[k].kind
    requires AreBlocks(Blocks(Plan(h, runs, k)), h, runs, k)
    ensures AreBlocks(Blocks(Plan(h, runs, k + 1)), h, runs, k + 1)
  {
    hide Blocks, Stored, Proper, Plan;
    BlocksJoined(h, runs, k);
    FitAt(runs, k + 1, k - 1);
    PlanEnd(h, runs, k);
    BodyEnd(h, runs, k - 1);
    var bs, n := Blocks(Plan(h, runs, k)), k + 1;
    assert bs[k - 1] == Body(h, runs, k - 1);
    forall r: nat | r < n
      ensures Blocks(Plan(h, runs, n))[r] == Block(h, runs, n, r)
    {
      if r + 1 < k { BlockShifts(h, runs, k, r); }
    }
  }

  lemma BodyEnd(h: Hypot, runs: seq<Run>, r: nat)
    requires Fit(runs, r)
    ensures var b, s := Body(h, runs, r), Stored(h, runs, r); b[|b| - 1] == s[|s| - 1]
  {
    hide Stored, Proper;
  }

  /** Each block, prefixed by the last point of the one before, is that run as driven and densified, apart from
      must-hit. */
  lemma BlockCourse(h: Hypot, runs: seq<Run>, k: nat, r: nat)
    requires r < k <= |runs| && AllProper(runs, k) && Fit(runs, r)
    ensures var b := Block(h, runs, k, r);
            if r == 0 then SameDrive(b, Stored(h, runs, 0))
            else SameDrive(Prefixed(Block(h, runs, k, r - 1), b), Stored(h, runs, r))
  {
    hide Stored, Proper, Driven, Clean, Block;
    StoredSpray(h, runs, r);
    if r == 0 { BlockIsBody(h, runs, k, 0); }
    if r > 0 {
      FitAt(runs, k, r - 1);
      BodyEnd(h, runs, r - 1);
      StoredEnds(h, runs, r - 1);
      StoredEnds(h, runs, r);
      DrivenStart(runs, r);
      BlockIsBody(h, runs, k, r);
      BlockIsBody(h, runs, k, r - 1);
      var b, s := Block(h, runs, k, r), Stored(h, runs, r);
      var p := Prefixed(Block(h, runs, k, r - 1), b);
      forall i: nat | i < |p|
        ensures SameSpot(p[i], s[i]) && p[i].spray == s[i].spray
      {
        if i > 0 { assert p[i] == b[i - 1]; }
      }
    }
  }

  /** A block is the body of its run, apart from the last point's must-hit. */
  lemma BlockIsBody(h: Hypot, runs: seq<Run>, k: nat, r: nat)
    requires r < k <= |runs| && AllProper(runs, k) && Fit(runs, r)
    ensures SameDrive(Block(h, runs, k, r), Body(h, runs, r))
  {
    hide Stored, Proper;
  }

  lemma DrivenStart(runs: seq<Run>, r: nat)
    requires r > 0 && Fit(runs, r) && Fit(runs, r - 1)
    ensures var p := Driven(runs, r - 1); SameSpot(p[|p| - 1], Driven(runs, r)[0])
  {
    hide Clean, Proper;
    DrivenEnd(runs, r - 1);
  }

  /** Run recovery: the maximal equal-spray blocks of an accepted plan are its runs, one each and in order; a run's
      stored points are its block, prefixed by the previous block's last point, up to the must-hit mark of a shared
      point. */
  lemma RunRecovery(h: Hypot, runs: seq<Run>)
    requires Compile(h, runs).Ok?
    ensures AllProper(runs, |runs|) && |Blocks(Compile(h, runs).value.flat)| == |runs|
    ensures forall r: nat :: r < |runs| ==>
              var bs := Blocks(Compile(h, runs).value.flat);
              && Fit(runs, r)
              && bs[r] == Block(h, runs, |runs|, r)
              && SameDrive(RebuiltRun(bs, r), Stored(h, runs, r))
  {
    hide Compile, Plan, Blocks, Proper, Stored, Block, SameDrive, Prefixed;
    AcceptedIff(h, runs);
    var n := |runs|;
    forall r: nat | 0 < r < n
      ensures runs[r - 1].kind != runs[r].kind
    {
      assert Continues(h, runs, r);
    }
    BlocksOfPlan(h, runs, n);
    var bs := Blocks(Compile(h, runs).value.flat);
    forall r: nat | r < n
      ensures Fit(runs, r) && bs[r] == Block(h, runs, n, r)
      ensures SameDrive(RebuiltRun(bs, r), Stored(h, runs, r))
    {
      FitAt(runs, n, r);
      if r > 0 { assert bs[r - 1] == Block(h, runs, n, r - 1); }
      BlockCourse(h, runs, n, r);
    }
  }

  /** The path follower's split of an accepted plan gives the runs back: one each, in order, on the spots and with the
      spray of the run as driven and densified. */
  lemma FollowerRecovers(h: Hypot, runs: seq<Run>)
    requires Compile(h, runs).Ok?
    ensures AllProper(runs, |runs|)
    ensures var split := SplitRuns(Compile(h, runs).value.flat);
            && |split| == |runs|
            && forall r: nat :: r < |runs| ==> Fit(runs, r) && SameDrive(split[r], Stored(h, runs, r))
  {
    hide Compile, Blocks, Proper, Stored, Block, SameDrive, Prefixed, RebuiltRun;
    RunRecovery(h, runs);
    AcceptedIff(h, runs);
    RebuiltAt(Blocks(Compile(h, runs).value.flat), |runs|);
    NoEmptySplit(Compile(h, runs).value.flat);
  }

  lemma NoEmptySplit(s: seq<Point>)
    ensures s != [] ==> SplitRuns(s) == Rebuilt(Blocks(s), |Blocks(s)|)
  {
  }

  // ---------------------------------------------------------------- lengths and steps

  function TotalLength(h: Hypot, runs: seq<Run>, k: nat): real
    requires k <= |runs| && AllProper(runs, k)
  {
    if k == 0 then 0.0
    else
      FitAt(runs, k, k - 1);
      TotalLength(h, runs, k - 1) + Length(h, Driven(runs, k - 1), |Driven(runs, k - 1)|)
  }

  /** Joining two polylines at a common spot. */
  lemma JoinedKeeps(h: Hypot, flat: seq<Point>, dense: seq<Point>)
    requires flat != [] && dense != [] && SameSpot(flat[|flat| - 1], dense[0])
    requires ShortSteps(h, flat) && ShortSteps(h, dense)
    ensures var j := Joined(flat, dense);
            ShortSteps(h, j) && Length(h, j, |j|) == Length(h, flat, |flat|) + Length(h, dense, |dense|)
  {
    hide Dist, Length, ShortSteps;
    var j, t, plain := Joined(flat, dense), dense[1..], flat + dense[1..];
    var bridge := [flat[|flat| - 1]] + t;
    assert SameCourse(plain, j);
    assert SameCourse(dense, bridge);
    LengthOfCourse(h, plain, j, |j|);
    LengthOfCourse(h, dense, bridge, |dense|);
    LengthAdds(h, flat, t, |t|);
    ShortOfCourse(h, dense, bridge);
    ShortAdds(h, flat, t);
    ShortOfCourse(h, plain, j);
  }

  lemma StoredKeeps(h: Hypot, runs: seq<Run>, r: nat)
    requires IsHypot(h) && Fit(runs, r)
    ensures var s, d := Stored(h, runs, r), Driven(runs, r);
            ShortSteps(h, s) && Length(h, s, |s|) == Length(h, d, |d|)
  {
    hide Driven, Dense, Dist, IsHypot, Proper;
    DenseKeeps(h, Driven(runs, r), runs[r].kind == Mark, |Driven(runs, r)|);
  }

  lemma {:induction false} PlanKeeps(h: Hypot, runs: seq<Run>, k: nat)
    requires IsHypot(h) && 0 < k <= |runs| && AllProper(runs, k)
    ensures ShortSteps(h, Plan(h, runs, k))
    ensures Length(h, Plan(h, runs, k), |Plan(h, runs, k)|) == TotalLength(h, runs, k)
  {
    hide IsHypot, ShortSteps, Length, Dist, Driven, Stored, Plan, Joined, Proper;
    FitAt(runs, k, k - 1);
    StoredKeeps(h, runs, k - 1);
    PlanNext(h, runs, k - 1);
    if k > 1 {
      PlanKeeps(h, runs, k - 1);
      JoinSpot(h, runs, k - 1);
      JoinedKeeps(h, Plan(h, runs, k - 1), Stored(h, runs, k - 1));
    }
  }

  lemma {:induction false} ReportedLength(h: Hypot, runs: seq<Run>, k: nat)
    requires k <= |runs| && CompileUpTo(h, runs, k).Ok?
    ensures AllProper(runs, k)
    ensures var a := CompileUpTo(h, runs, k).value; a.markLength + a.transitLength == TotalLength(h, runs, k)
  {
    hide AddRun, Length, Driven, Proper, Clean, Plan;
    CompileReaches(h, runs, k);
    if k > 0 {
      ReportedLength(h, runs, k - 1);
      CompileReaches(h, runs, k - 1);
      var a := CompileUpTo(h, runs, k - 1).value;
      FitAt(runs, k, k - 1);
      AddedLength(h, runs, k - 1, a);
    }
  }

  lemma AddedLength(h: Hypot, runs: seq<Run>, k: nat, a: Acc)
    requires k < |runs| && Reached(h, runs, k, a) && AddRun(h, a, runs[k]).Ok? && Fit(runs, k)
    ensures var b, d := AddRun(h, a, runs[k]).value, Driven(runs, k);
            b.markLength + b.transitLength == a.markLength + a.transitLength + Length(h, d, |d|)
  {
    hide AddRun, Dist, Clean, Densified, Plan, Driven, Joined, Length, Splits, Snapped, WellFormed, Proper;
    AddIsJoin(h, a, runs[k]);
    ProperMore(h, runs, k);
    SnappedIsDriven(h, runs, k, a);
  }

  /** An accepted plan has no step over the limit, and its length is the reported mark plus transit length. */
  lemma LengthConserved(h: Hypot, runs: seq<Run>)
    requires IsHypot(h) && Compile(h, runs).Ok?
    ensures var a := Compile(h, runs).value;
            ShortSteps(h, a.flat) && Length(h, a.flat, |a.flat|) == a.markLength + a.transitLength
  {
    hide CompileUpTo, Plan, IsHypot, Length, ShortSteps, Proper;
    AcceptedIff(h, runs);
    ReportedLength(h, runs, |runs|);
    PlanKeeps(h, runs, |runs|);
  }

  // ---------------------------------------------------------------- the snap report

  /** How far run `r` starts from the end of the one before it. */
  function Gap(h: Hypot, runs: seq<Run>, r: nat): real
    requires Fit(runs, r)
  {
    if r == 0 then 0.0 else Dist(h, Clean(runs[r - 1])[|Clean(runs[r - 1])| - 1], Clean(runs[r])[0])
  }

  /** `x` is the largest of zero and the first `k` gaps. */
  ghost predicate LargestGap(h: Hypot, runs: seq<Run>, k: nat, x: real)
    requires k <= |runs| && AllProper(runs, k)
  {
    && (forall r: nat :: r < k ==> Fit(runs, r) && Gap(h, runs, r) <= x)
    && (x == 0.0 || exists r: nat :: r < k && Fit(runs, r) && Gap(h, runs, r) == x)
  }

  lemma GapAdded(h: Hypot, runs: seq<Run>, k: nat, a: Acc)
    requires k < |runs| && Reached(h, runs, k, a) && AddRun(h, a, runs[k]).Ok?
    ensures AllProper(runs, k + 1) && Fit(runs, k)
    ensures AddRun(h, a, runs[k]).value.maxSnap == if k == 0 then a.maxSnap else Max(a.maxSnap, Gap(h, runs, k))
  {
    hide AddRun, Dist, Clean, Densified, Plan, Joined, Length, Splits, Snapped, WellFormed, Proper;
    AddIsJoin(h, a, runs[k]);
    ProperMore(h, runs, k);
    FitAt(runs, k + 1, k);
  }

  lemma LargestMore(h: Hypot, runs: seq<Run>, k: nat, x: real)
    requires k < |runs| && AllProper(runs, k) && AllProper(runs, k + 1) && Fit(runs, k)
    requires x >= 0.0 && LargestGap(h, runs, k, x)
    ensures LargestGap(h, runs, k + 1, if k == 0 then x else Max(x, Gap(h, runs, k)))
  {
    hide Gap, Proper;
    if k == 0 { assert Gap(h, runs, 0) == 0.0 by { FirstGap(h, runs); } }
  }

  lemma FirstGap(h: Hypot, runs: seq<Run>)
    requires Fit(runs, 0)
    ensures Gap(h, runs, 0) == 0.0
  {
  }

  lemma GapWithin(h: Hypot, runs: seq<Run>, k: nat, r: nat)
    requires r < k <= |runs| && WellFormed(h, runs, k) && Fit(runs, r)
    ensures Gap(h, runs, r) <= SNAP
  {
    hide Proper, Clean, Dist;
    assert Continues(h, runs, r);
  }

  /** The reported snap is the largest gap between a run's end and the next run's start, and within the limit. */
  lemma {:induction false} SnapReported(h: Hypot, runs: seq<Run>, k: nat)
    requires k <= |runs| && CompileUpTo(h, runs, k).Ok?
    ensures AllProper(runs, k)
    ensures var a := CompileUpTo(h, runs, k).value; 0.0 <= a.maxSnap <= SNAP && LargestGap(h, runs, k, a.maxSnap)
  {
    hide AddRun, Proper, Clean, Plan, Gap;
    CompileReaches(h, runs, k);
    if k > 0 {
      SnapReported(h, runs, k - 1);
      CompileReaches(h, runs, k - 1);
      var a := CompileUpTo(h, runs, k - 1).value;
      GapAdded(h, runs, k - 1, a);
      GapWithin(h, runs, k, k - 1);
      hide LargestGap;
      LargestMore(h, runs, k - 1, a.maxSnap);
    }
  }

  // ---------------------------------------------------------------- vertices

  /** Where the stored points of run `r` begin in the plan. */
  function Offset(h: Hypot, runs: seq<Run>, r: nat): nat
    requires r < |runs| && AllProper(runs, r)
  {
    if r == 0 then 0 else |Plan(h, runs, r)| - 1
  }

  /** Every stored point of every run is in the plan: on the same spot, its must-hit kept, unchanged inside the run. */
  lemma {:induction false} Placed(h: Hypot, runs: seq<Run>, k: nat, r: nat, j: nat)
    requires r < k <= |runs| && AllProper(runs, k) && Fit(runs, r) && AllProper(runs, r)
    requires j < |Stored(h, runs, r)|
    ensures var p, s, i := Plan(h, runs, k), Stored(h, runs, r), Offset(h, runs, r) + j;
            && i < |p| && SameSpot(p[i], s[j])
            && (s[j].mustHit ==> p[i].mustHit)
            && (0 < j < |s| - 1 ==> p[i] == s[j])
            && (r + 1 == k && j > 0 ==> p[i] == s[j])
  {
    hide Plan, Stored, Proper;
    FitAt(runs, k, k - 1);
    PlanNext(h, runs, k - 1);
    if r + 1 < k {
      Placed(h, runs, k - 1, r, j);
      OffsetWithin(h, runs, k - 1, r);
    } else if k > 1 {
      JoinSpot(h, runs, k - 1);
    }
  }

  /** A run's stored points end inside the plan of any later run. */
  lemma {:induction false} OffsetWithin(h: Hypot, runs: seq<Run>, k: nat, r: nat)
    requires r < k <= |runs| && AllProper(runs, k) && Fit(runs, r) && AllProper(runs, r)
    ensures Offset(h, runs, r) + |Stored(h, runs, r)| <= |Plan(h, runs, k)|
    ensures r + 1 == k ==> Offset(h, runs, r) + |Stored(h, runs, r)| == |Plan(h, runs, k)|
  {
    hide Plan, Stored, Proper;
    FitAt(runs, k, k - 1);
    PlanNext(h, runs, k - 1);
    if r + 1 < k { OffsetWithin(h, runs, k - 1, r); }
  }

  /** Every must-hit point of the plan comes from some run. */
  lemma {:induction false} MustHitFrom(h: Hypot, runs: seq<Run>, k: nat, i: nat) returns (r: nat, j: nat)
    requires 0 < k <= |runs| && AllProper(runs, k)
    requires i < |Plan(h, runs, k)| && Plan(h, runs, k)[i].mustHit
    ensures r < k && Fit(runs, r) && AllProper(runs, r) && j < |Stored(h, runs, r)|
    ensures Offset(h, runs, r) + j == i && Stored(h, runs, r)[j].mustHit
  {
    hide Plan, Stored, Proper;
    FitAt(runs, k, k - 1);
    PlanNext(h, runs, k - 1);
    var base := Offset(h, runs, k - 1);
    if k == 1 || i > base || (i == base && Stored(h, runs, k - 1)[0].mustHit) {
      r, j := k - 1, i - base;
    } else {
      r, j := MustHitFrom(h, runs, k - 1, i);
    }
  }

  /** Where vertex `v` of run `r` is stored. */
  function VertexAt(h: Hypot, runs: seq<Run>, r: nat, v: nat): nat
    requires Fit(runs, r) && AllProper(runs, r) && v < |Driven(runs, r)|
  {
    Offset(h, runs, r) + VertexIndex(h, Driven(runs, r), runs[r].kind == Mark, v)
  }

  /** A submitted vertex and its stored copy. */
  ghost predicate Kept(h: Hypot, stored: Point, vertex: Point, snapped: bool) {
    && (vertex.mustHit ==> stored.mustHit)
    && (if snapped then Dist(h, stored, vertex) <= SNAP else SameSpot(stored, vertex))
  }

  /** Every submitted vertex survives, in order and with its must-hit mark; only a later run's first vertex is moved,
      and by at most the snap distance. */
  lemma VertexSurvives(h: Hypot, runs: seq<Run>, r: nat, v: nat)
    requires Compile(h, runs).Ok?
    requires Fit(runs, r) && AllProper(runs, r) && v < |Driven(runs, r)|
    ensures var i := VertexAt(h, runs, r, v);
            && i < |Compile(h, runs).value.flat|
            && Kept(h, Compile(h, runs).value.flat[i], Clean(runs[r])[v], r > 0 && v == 0)
            && (v > 0 ==> VertexAt(h, runs, r, v - 1) < i)
  {
    hide Compile, Plan, Proper, Dist, Clean, Offset;
    AcceptedIff(h, runs);
    var d, spray := Driven(runs, r), runs[r].kind == Mark;
    VertexStored(h, d, spray, v);
    Placed(h, runs, |runs|, r, VertexIndex(h, d, spray, v));
    if v > 0 { VerticesOrdered(h, d, spray, v - 1, v); }
    if r > 0 && v == 0 {
      assert Continues(h, runs, r);
      FitAt(runs, |runs|, r - 1);
      var q := Clean(runs[r - 1]);
      var stored, vertex := Compile(h, runs).value.flat[VertexAt(h, runs, r, v)], Clean(runs[r])[v];
      DistOfSpots(h, stored, vertex, q[|q| - 1], vertex);
    }
  }

  /** A later run's first vertex is stored as the last vertex of the run before. */
  lemma BoundaryShared(h: Hypot, runs: seq<Run>, r: nat)
    requires r > 0 && Fit(runs, r) && AllProper(runs, r) && Fit(runs, r - 1) && AllProper(runs, r - 1)
    ensures VertexAt(h, runs, r, 0) == VertexAt(h, runs, r - 1, |Driven(runs, r - 1)| - 1)
  {
    hide Plan, Proper, Driven;
    OffsetWithin(h, runs, r, r - 1);
    StoredIs(h, runs, r - 1);
  }

  /** A stored point strictly between two vertices of a run lies on their segment, at one of its equal parts, and
      carries the run's spray and no must-hit. */
  lemma InsertedOnSegment(h: Hypot, runs: seq<Run>, r: nat, v: nat, i: nat)
    requires Compile(h, runs).Ok? && r < |runs|
    requires Fit(runs, r) && AllProper(runs, r) && v + 1 < |Driven(runs, r)|
    requires VertexAt(h, runs, r, v) < i < VertexAt(h, runs, r, v + 1)
    ensures var p, d := Compile(h, runs).value.flat, Driven(runs, r);
            var parts, j := VertexAt(h, runs, r, v + 1) - VertexAt(h, runs, r, v), i - VertexAt(h, runs, r, v);
            && i < |p| && Long(h, d[v], d[v + 1]) && parts == Parts(h, d[v], d[v + 1]) && 0 < j < parts
            && p[i] == Between(d[v], d[v + 1], parts, runs[r].kind == Mark, j)
  {
    hide Compile, Plan, Proper, Driven, Offset, Dense;
    AcceptedIff(h, runs);
    var d, spray, k := Driven(runs, r), runs[r].kind == Mark, i - Offset(h, runs, r);
    StoredIs(h, runs, r);
    InsertedStored(h, d, spray, v, k);
    VertexStored(h, d, spray, v + 1);
    Placed(h, runs, |runs|, r, k);
  }

  /** A must-hit point of an accepted plan is a submitted must-hit vertex. */
  lemma MustHitIsVertex(h: Hypot, runs: seq<Run>, i: nat) returns (r: nat, v: nat)
    requires Compile(h, runs).Ok?
    requires i < |Compile(h, runs).value.flat| && Compile(h, runs).value.flat[i].mustHit
    ensures r < |runs| && Fit(runs, r) && AllProper(runs, r) && v < |Driven(runs, r)|
    ensures VertexAt(h, runs, r, v) == i && Clean(runs[r])[v].mustHit
  {
    hide Compile, Plan, Proper, Offset, Dense, Clean;
    AcceptedIff(h, runs);
    var j;
    r, j := MustHitFrom(h, runs, |runs|, i);
    StoredIs(h, runs, r);
    DrivenSpray(runs, r);
    v := StoredFlags(h, Driven(runs, r), runs[r].kind == Mark, j);
  }
}
