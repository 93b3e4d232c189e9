/** The path follower's split of a flat polyline into runs: one run per maximal stretch of equal spray, each later one
    beginning with the last point of the stretch before it. */
module RunSplit {
  import opened AppPlan
  import opened AppPlanDense

  // ---------------------------------------------------------------- maximal blocks

  ghost predicate NonEmpty(bs: seq<seq<Point>>) { forall r: nat :: r < |bs| ==> bs[r] != [] }

  /** The maximal stretches of equal spray. */
  function Blocks(s: seq<Point>): (r: seq<seq<Point>>)
    ensures NonEmpty(r)
    ensures s != [] ==> r != [] && r[|r| - 1] != [] && r[|r| - 1][|r[|r| - 1]| - 1] == s[|s| - 1]
  {
    if s == [] then []
    else
      var x, bs := s[|s| - 1], Blocks(s[..|s| - 1]);
      if |s| > 1 && s[|s| - 2].spray == x.spray then bs[|bs| - 1 := bs[|bs| - 1] + [x]] else bs + [[x]]
  }

  ghost predicate Uniform(s: seq<Point>, spray: bool) {
    forall i: nat :: i < |s| ==> s[i].spray == spray
  }

  function Flatten(bs: seq<seq<Point>>): seq<Point> {
    if bs == [] then [] else Flatten(bs[..|bs| - 1]) + bs[|bs| - 1]
  }

  lemma BlocksSnoc(s: seq<Point>, x: Point)
    ensures var bs := Blocks(s);
            if s != [] && s[|s| - 1].spray == x.spray then
              Blocks(s + [x]) == bs[|bs| - 1 := bs[|bs| - 1] + [x]]
            else Blocks(s + [x]) == bs + [[x]]
  {
    assert (s + [x])[..|s|] == s;
  }

  ghost predicate AllUniform(bs: seq<seq<Point>>) {
    forall r: nat :: r < |bs| ==> bs[r] != [] && Uniform(bs[r], bs[r][0].spray)
  }

  ghost predicate Differ(a: seq<Point>, b: seq<Point>) { a != [] && b != [] && a[0].spray != b[0].spray }

  ghost predicate AllDiffer(bs: seq<seq<Point>>) {
    forall r: nat :: r + 1 < |bs| ==> Differ(bs[r], bs[r + 1])
  }

  /** Non-empty stretches of one spray value, neighbours differing. */
  ghost predicate Alternating(bs: seq<seq<Point>>) { AllUniform(bs) && AllDiffer(bs) }

  lemma FlattenMore(bs: seq<seq<Point>>, b: seq<Point>)
    ensures Flatten(bs + [b]) == Flatten(bs) + b
  {
    assert (bs + [b])[..|bs|] == bs;
  }

  lemma AlternatingMore(bs: seq<seq<Point>>, x: Point)
    requires Alternating(bs) && (bs != [] ==> bs[|bs| - 1][0].spray != x.spray)
    ensures Alternating(bs + [[x]]) && Flatten(bs + [[x]]) == Flatten(bs) + [x]
  {
    FlattenMore(bs, [x]);
    hide Flatten, Uniform;
    UniformMore(bs, x);
    DifferMore(bs, x);
  }

  lemma UniformMore(bs: seq<seq<Point>>, x: Point)
    requires AllUniform(bs)
    ensures AllUniform(bs + [[x]])
  {
    var cs: seq<seq<Point>> := bs + [[x]];
    OneUniform(x);
    hide Uniform;
    forall r: nat | r < |cs|
      ensures cs[r] != [] && Uniform(cs[r], cs[r][0].spray)
    {
      if r < |bs| { assert cs[r] == bs[r]; } else { assert cs[r] == [x]; }
    }
  }

  lemma OneUniform(x: Point)
    ensures Uniform([x], x.spray)
  {
  }

  lemma DifferMore(bs: seq<seq<Point>>, x: Point)
    requires AllDiffer(bs) && (bs != [] ==> Differ(bs[|bs| - 1], [x]))
    ensures AllDiffer(bs + [[x]])
  {
    hide Differ;
    var cs: seq<seq<Point>> := bs + [[x]];
    forall r: nat | r + 1 < |cs|
      ensures Differ(cs[r], cs[r + 1])
    {
      assert cs[r] == bs[r];
      if r + 1 < |bs| { assert cs[r + 1] == bs[r + 1]; } else { assert cs[r + 1] == [x]; }
    }
  }

  lemma AlternatingGrows(bs: seq<seq<Point>>, x: Point)
    requires Alternating(bs) && bs != [] && bs[|bs| - 1][0].spray == x.spray
    ensures var cs := bs[|bs| - 1 := bs[|bs| - 1] + [x]]; Alternating(cs) && Flatten(cs) == Flatten(bs) + [x]
  {
    var m := |bs| - 1;
    var cs := bs[m := bs[m] + [x]];
    FlattenMore(bs[..m], bs[m]);
    FlattenMore(bs[..m], bs[m] + [x]);
    hide Flatten;
    assert bs[..m] + [bs[m]] == bs && bs[..m] + [bs[m] + [x]] == cs;
    assert Uniform(bs[m], x.spray);
    assert cs[m][0] == bs[m][0];
  }

  /** Blocks split a polyline, in order, into alternating stretches. */
  lemma {:induction false} BlocksAreMaximal(s: seq<Point>)
    ensures Flatten(Blocks(s)) == s && Alternating(Blocks(s))
  {
    if s != [] {
      var front, x := s[..|s| - 1], s[|s| - 1];
      assert front + [x] == s;
      BlocksAreMaximal(front);
      BlocksSnoc(front, x);
      var bs := Blocks(front);
      if front != [] {
        var b := bs[|bs| - 1];
        assert Uniform(b, b[0].spray) && b[|b| - 1] == front[|front| - 1];
        assert b[|b| - 1].spray == b[0].spray;
      }
      hide Blocks, Alternating, Flatten;
      if front != [] && front[|front| - 1].spray == x.spray {
        AlternatingGrows(bs, x);
      } else {
        assert bs == [] || front != [];
        AlternatingMore(bs, x);
      }
    }
  }

  /** A uniform stretch of the other spray value is a block of its own. */
  lemma {:induction false} BlocksAppend(s: seq<Point>, t: seq<Point>, spray: bool)
    requires t != [] && Uniform(t, spray)
    requires s != [] ==> s[|s| - 1].spray != spray
    ensures Blocks(s + t) == Blocks(s) + [t]
  {
    hide Blocks;
    var front, x := t[..|t| - 1], t[|t| - 1];
    assert s + t == s + front + [x];
    BlocksSnoc(s + front, x);
    if |t| == 1 {
      assert s + front == s && [x] == t;
    } else {
      BlocksAppend(s, front, spray);
      assert (s + front)[|s + front| - 1] == t[|t| - 2];
      assert front + [x] == t;
      var bs := Blocks(s) + [front];
      assert bs[|bs| - 1 := t] == Blocks(s) + [t];
    }
  }

  function LastSet(s: seq<Point>, x: Point): seq<Point>
    requires s != []
  {
    s[|s| - 1 := x]
  }

  /** Retouching the last point without changing its spray retouches the last block only. */
  lemma BlocksRetouch(s: seq<Point>, x: Point)
    requires s != [] && x.spray == s[|s| - 1].spray
    ensures var bs := Blocks(s); Blocks(LastSet(s, x)) == bs[|bs| - 1 := LastSet(bs[|bs| - 1], x)]
  {
    hide Blocks, LastSet;
    var front, z := s[..|s| - 1], s[|s| - 1];
    assert s == front + [z];
    SnocSet(front, z, x);
    BlocksSnoc(front, z);
    BlocksSnoc(front, x);
    if front != [] && front[|front| - 1].spray == x.spray {
      GrownSet(Blocks(front), z, x);
    } else {
      AddedSet(Blocks(front), z, x);
    }
  }

  lemma SnocSet(s: seq<Point>, z: Point, x: Point)
    ensures LastSet(s + [z], x) == s + [x]
  {
  }

  lemma GrownSet(bs: seq<seq<Point>>, z: Point, x: Point)
    requires bs != []
    ensures var m := |bs| - 1;
            var cs := bs[m := bs[m] + [z]];
            cs[m] != [] && cs[m := LastSet(cs[m], x)] == bs[m := bs[m] + [x]]
  {
    SnocSet(bs[|bs| - 1], z, x);
  }

  lemma AddedSet(bs: seq<seq<Point>>, z: Point, x: Point)
    ensures var cs: seq<seq<Point>> := bs + [[z]];
            cs[|bs|] != [] && cs[|bs| := LastSet(cs[|bs|], x)] == bs + [[x]]
  {
    SnocSet([], z, x);
    assert [] + [z] == [z] && [] + [x] == [x];
  }

  /** Joining a uniform run of the other spray value retouches the last block and adds one. */
  lemma BlocksOfJoined(p: seq<Point>, s: seq<Point>, spray: bool)
    requires p != [] && |s| >= 2 && Uniform(s, spray) && p[|p| - 1].spray != spray
    ensures var bs, x := Blocks(p), p[|p| - 1];
            var y := x.(mustHit := x.mustHit || s[0].mustHit);
            Blocks(Joined(p, s)) == bs[|bs| - 1 := LastSet(bs[|bs| - 1], y)] + [s[1..]]
  {
    hide Blocks;
    var x := p[|p| - 1];
    var y := x.(mustHit := x.mustHit || s[0].mustHit);
    assert Joined(p, s) == LastSet(p, y) + s[1..];
    assert Uniform(s[1..], spray);
    hide Joined, Uniform;
    BlocksRetouch(p, y);
    assert LastSet(p, y)[|p| - 1] == y;
    BlocksAppend(LastSet(p, y), s[1..], spray);
  }

  // ---------------------------------------------------------------- rebuilt runs

  /** A stretch with the last point of the one before it, which takes the stretch's own spray. */
  function Prefixed(a: seq<Point>, b: seq<Point>): seq<Point>
    requires a != [] && b != []
  {
    [a[|a| - 1].(spray := b[0].spray)] + b
  }

  function RebuiltRun(bs: seq<seq<Point>>, r: nat): seq<Point>
    requires r < |bs| && (r > 0 ==> bs[r - 1] != [] && bs[r] != [])
  {
    if r == 0 then bs[0] else Prefixed(bs[r - 1], bs[r])
  }

  /** The first `k` runs. */
  function Rebuilt(bs: seq<seq<Point>>, k: nat): (rs: seq<seq<Point>>)
    requires k <= |bs| && NonEmpty(bs)
    ensures |rs| == k
  {
    if k == 0 then [] else Rebuilt(bs, k - 1) + [RebuiltRun(bs, k - 1)]
  }

  lemma {:induction false} RebuiltAt(bs: seq<seq<Point>>, k: nat)
    requires k <= |bs| && NonEmpty(bs)
    ensures forall r: nat :: r < k ==> Rebuilt(bs, k)[r] == RebuiltRun(bs, r)
  {
    if k > 0 { RebuiltAt(bs, k - 1); }
  }

  /** The split: an empty polyline is one empty run. */
  function SplitRuns(s: seq<Point>): seq<seq<Point>> {
    if s == [] then [[]]
    else Rebuilt(Blocks(s), |Blocks(s)|)
  }

  /** On the same spots with the same spray. */
  ghost predicate SameDrive(s: seq<Point>, t: seq<Point>) {
    SameCourse(s, t) && forall i: nat :: i < |s| ==> s[i].spray == t[i].spray
  }

  /** The grouping loop: a stretch is closed where the spray changes. */
  method GroupByFlag(pts: seq<Point>) returns (groups: seq<seq<Point>>)
    requires pts != []
    ensures groups == Blocks(pts)
  {
    hide Blocks;
    groups := [];
    var start := 0;
    FirstBlock(pts[0]);
    assert pts[..1] == [pts[0]] && pts[0..1] == [pts[0]];
    for i := 1 to |pts|
      invariant 0 <= start < i
      invariant Blocks(pts[..i]) == groups + [pts[start..i]]
    {
      BlocksSnoc(pts[..i], pts[i]);
      assert pts[..i + 1] == pts[..i] + [pts[i]];
      assert pts[start..i + 1] == pts[start..i] + [pts[i]];
      ghost var was := groups + [pts[start..i]];
      if pts[i].spray != pts[i - 1].spray {
        groups := groups + [pts[start..i]];
        start := i;
        assert pts[i..i + 1] == [pts[i]];
      } else {
        assert was[|was| - 1 := pts[start..i + 1]] == groups + [pts[start..i + 1]];
      }
    }
    assert pts[..|pts|] == pts && pts[start..|pts|] == pts[start..];
    groups := groups + [pts[start..]];
  }

  lemma FirstBlock(x: Point)
    ensures Blocks([x]) == [[x]]
  {
    assert [x][..0] == [];
  }

  method SplitRunsByFlag(pts: seq<Point>) returns (runs: seq<seq<Point>>)
    ensures runs == SplitRuns(pts)
  {
    if pts == [] { return [[]]; }
    hide Blocks;
    var groups := GroupByFlag(pts);
    runs := [];
    for k := 0 to |groups|
      invariant runs == Rebuilt(groups, k)
    {
      var r := groups[k];
      if k > 0 {
        var last := groups[k - 1][|groups[k - 1]| - 1];
        r := [last.(spray := r[0].spray)] + r;
      }
      runs := runs + [r];
    }
  }
}
