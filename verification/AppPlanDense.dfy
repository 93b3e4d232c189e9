/** Splitting long steps: the polyline keeps its course, its vertices and its length, and no step is long. */
module AppPlanDense {
  import opened AppPlan

  // ---------------------------------------------------------------- lengths

  /** A Euclidean length scales with its vector. */
  lemma Homogeneous(h: Hypot, x: real, y: real, t: real)
    requires IsHypot(h) && t >= 0.0
    ensures h(t * x, t * y) == t * h(x, y)
  {
    var u, v := h(t * x, t * y), t * h(x, y);
    assert u * u == (t * x) * (t * x) + (t * y) * (t * y);
    Scaled(x, y, t, h(x, y));
    assert u >= 0.0 && v >= 0.0 by { assert h(x, y) >= 0.0; }
    SquareRoot(u, v);
  }

  lemma Scaled(x: real, y: real, t: real, d: real)
    requires d * d == x * x + y * y
    ensures (t * d) * (t * d) == (t * x) * (t * x) + (t * y) * (t * y)
  {
    assert (t * d) * (t * d) == t * t * (d * d);
    assert (t * x) * (t * x) == t * t * (x * x);
    assert (t * y) * (t * y) == t * t * (y * y);
    assert t * t * (x * x + y * y) == t * t * (x * x) + t * t * (y * y);
  }

  lemma SquareRoot(u: real, v: real)
    requires u >= 0.0 && v >= 0.0 && u * u == v * v
    ensures u == v
  {
    if u < v { SquaresGrow(u, v); } else if v < u { SquaresGrow(v, u); }
  }

  lemma SquaresGrow(u: real, v: real)
    requires 0.0 <= u < v
    ensures u * u < v * v
  {
    Positive(v - u, v + u);
    assert v * v - u * u == (v - u) * (v + u);
  }

  lemma Positive(a: real, b: real)
    requires a > 0.0 && b > 0.0
    ensures a * b > 0.0
  {
  }

  lemma Quotient(x: real, j: real, p: real)
    requires p > 0.0
    ensures x * (j + 1.0) / p - x * j / p == (1.0 / p) * x
  {
    assert x * (j + 1.0) == x * j + x;
    assert (x * j + x) / p == x * j / p + x / p;
    assert x / p == (1.0 / p) * x;
  }

  lemma SubVector(a: Point, b: Point, parts: int, s: bool, j: int)
    requires parts > 0
    ensures var m, n, k := Between(a, b, parts, s, j), Between(a, b, parts, s, j + 1), 1.0 / parts as real;
            n.n - m.n == k * (b.n - a.n) && n.e - m.e == k * (b.e - a.e)
  {
    assert (j + 1) as real == j as real + 1.0;
    Quotient(b.n - a.n, j as real, parts as real);
    Quotient(b.e - a.e, j as real, parts as real);
  }

  /** Each part of a split step has an equal share of its length. */
  lemma UnitStep(h: Hypot, a: Point, b: Point, parts: int, s: bool, j: int)
    requires IsHypot(h) && parts > 0
    ensures Dist(h, Between(a, b, parts, s, j), Between(a, b, parts, s, j + 1)) == (1.0 / parts as real) * Dist(h, a, b)
  {
    hide IsHypot, Between;
    SubVector(a, b, parts, s, j);
    var x, y, k := b.n - a.n, b.e - a.e, 1.0 / parts as real;
    Homogeneous(h, x, y, k);
    DistIs(h, Between(a, b, parts, s, j), Between(a, b, parts, s, j + 1), k * x, k * y);
  }

  lemma DistIs(h: Hypot, a: Point, b: Point, x: real, y: real)
    requires b.n - a.n == x && b.e - a.e == y
    ensures Dist(h, a, b) == h(x, y)
  {
  }

  lemma BetweenEnds(a: Point, b: Point, parts: int, s: bool)
    requires parts > 0
    ensures SameSpot(Between(a, b, parts, s, 0), a) && SameSpot(Between(a, b, parts, s, parts), b)
  {
    Whole(b.n - a.n, parts as real);
    Whole(b.e - a.e, parts as real);
  }

  lemma Whole(x: real, p: real)
    requires p > 0.0
    ensures x * 0.0 / p == 0.0 && x * p / p == x
  {
  }

  /** The share is at most the step limit, because there are enough parts. */
  lemma ShareIsShort(h: Hypot, a: Point, b: Point)
    requires Long(h, a, b)
    ensures Parts(h, a, b) >= 2 && (1.0 / Parts(h, a, b) as real) * Dist(h, a, b) <= MAX_STEP
  {
    PartsOfLong(h, a, b);
    var d, p := Dist(h, a, b), Parts(h, a, b) as real;
    assert p >= d / MAX_STEP;
    assert p * MAX_STEP >= d;
    assert (1.0 / p) * d <= (1.0 / p) * (p * MAX_STEP) by { Monotone(1.0 / p, d, p * MAX_STEP); }
    assert (1.0 / p) * (p * MAX_STEP) == MAX_STEP;
  }

  lemma Monotone(k: real, x: real, y: real)
    requires k >= 0.0 && x <= y
    ensures k * x <= k * y
  {
    assert k * (y - x) >= 0.0;
    assert k * y - k * x == k * (y - x);
  }

  lemma DistOfSpots(h: Hypot, a: Point, b: Point, a': Point, b': Point)
    requires SameSpot(a, a') && SameSpot(b, b')
    ensures Dist(h, a, b) == Dist(h, a', b')
  {
  }

  // ---------------------------------------------------------------- polylines

  ghost predicate ShortSteps(h: Hypot, s: seq<Point>) {
    forall i: nat :: i + 1 < |s| ==> Dist(h, s[i], s[i + 1]) <= MAX_STEP
  }

  ghost predicate SameCourse(s: seq<Point>, t: seq<Point>) {
    |s| == |t| && forall i: nat :: i < |s| ==> SameSpot(s[i], t[i])
  }

  lemma {:induction false} LengthOfCourse(h: Hypot, s: seq<Point>, t: seq<Point>, k: nat)
    requires SameCourse(s, t) && k <= |s|
    ensures Length(h, s, k) == Length(h, t, k)
  {
    hide Dist;
    if k > 1 {
      LengthOfCourse(h, s, t, k - 1);
      DistOfSpots(h, s[k - 2], s[k - 1], t[k - 2], t[k - 1]);
    }
  }

  lemma {:induction false} LengthPrefix(h: Hypot, s: seq<Point>, t: seq<Point>, k: nat)
    requires k <= |s|
    ensures Length(h, s + t, k) == Length(h, s, k)
  {
    hide Dist;
    if k > 1 { LengthPrefix(h, s, t, k - 1); }
  }

  /** Lengths add up along a polyline. */
  lemma {:induction false} LengthAdds(h: Hypot, s: seq<Point>, t: seq<Point>, k: nat)
    requires s != [] && k <= |t|
    ensures Length(h, s + t, |s| + k) == Length(h, s, |s|) + Length(h, [s[|s| - 1]] + t, k + 1)
  {
    hide Dist;
    if k == 0 {
      LengthPrefix(h, s, t, |s|);
    } else {
      LengthAdds(h, s, t, k - 1);
      var u := [s[|s| - 1]] + t;
      assert (s + t)[|s| + k - 1] == u[k] && (s + t)[|s| + k - 2] == u[k - 1];
    }
  }

  lemma ShortAdds(h: Hypot, s: seq<Point>, t: seq<Point>)
    requires s != [] && ShortSteps(h, s) && ShortSteps(h, [s[|s| - 1]] + t)
    ensures ShortSteps(h, s + t)
  {
    hide Dist;
    var u, w := s + t, [s[|s| - 1]] + t;
    forall i: nat | i + 1 < |u|
      ensures Dist(h, u[i], u[i + 1]) <= MAX_STEP
    {
      if i + 1 >= |s| {
        var j := i + 1 - |s|;
        assert u[i] == w[j] && u[i + 1] == w[j + 1];
      }
    }
  }

  lemma ShortOfCourse(h: Hypot, s: seq<Point>, t: seq<Point>)
    requires SameCourse(s, t) && ShortSteps(h, s)
    ensures ShortSteps(h, t)
  {
    hide Dist;
    forall i: nat | i + 1 < |t|
      ensures Dist(h, t[i], t[i + 1]) <= MAX_STEP
    {
      DistOfSpots(h, s[i], s[i + 1], t[i], t[i + 1]);
    }
  }

  // ---------------------------------------------------------------- one step

  lemma {:induction false} InsertedAt(a: Point, b: Point, parts: int, spray: bool, k: nat, j: nat)
    requires parts > 0 && 0 < j < k
    ensures Inserted(a, b, parts, spray, k)[j - 1] == Between(a, b, parts, spray, j)
  {
    hide Between;
    if j < k - 1 { InsertedAt(a, b, parts, spray, k - 1, j); }
  }

  /** The stored points of a step: its inserted points in order, then its end. */
  lemma StepAt(h: Hypot, a: Point, b: Point, spray: bool, j: nat)
    requires j < |StepPoints(h, a, b, spray)|
    ensures var q := StepPoints(h, a, b, spray);
            && (j == |q| - 1 ==> q[j] == b)
            && (j < |q| - 1 ==> Long(h, a, b) && |q| == Parts(h, a, b) && q[j] == Between(a, b, |q|, spray, j + 1))
  {
    hide Between, Parts, Long;
    if j < |StepPoints(h, a, b, spray)| - 1 {
      InsertedAt(a, b, Parts(h, a, b), spray, Parts(h, a, b), j + 1);
    }
  }

  /** A split step point by point: consecutive stored points are one share apart. */
  lemma ShareAt(h: Hypot, a: Point, b: Point, spray: bool, j: nat)
    requires IsHypot(h) && Long(h, a, b) && j < |StepPoints(h, a, b, spray)|
    ensures var q := [a] + StepPoints(h, a, b, spray);
            Dist(h, q[j], q[j + 1]) == (1.0 / Parts(h, a, b) as real) * Dist(h, a, b)
  {
    hide Between, Dist, Parts, Long, StepPoints;
    var s, parts := StepPoints(h, a, b, spray), Parts(h, a, b);
    var q := [a] + s;
    StepAt(h, a, b, spray, j);
    if j > 0 { StepAt(h, a, b, spray, j - 1); }
    PartsOfLong(h, a, b);
    BetweenEnds(a, b, parts, spray);
    UnitStep(h, a, b, parts, spray, j);
    DistOfSpots(h, q[j], q[j + 1], Between(a, b, parts, spray, j), Between(a, b, parts, spray, j + 1));
  }

  lemma {:induction false} ShareLength(h: Hypot, a: Point, b: Point, spray: bool, k: nat)
    requires IsHypot(h) && Long(h, a, b) && k <= |StepPoints(h, a, b, spray)|
    ensures Length(h, [a] + StepPoints(h, a, b, spray), k + 1)
         == k as real * ((1.0 / Parts(h, a, b) as real) * Dist(h, a, b))
  {
    hide Dist, Parts, Long, StepPoints;
    PartsOfLong(h, a, b);
    var u := (1.0 / Parts(h, a, b) as real) * Dist(h, a, b);
    if k > 0 {
      ShareLength(h, a, b, spray, k - 1);
      ShareAt(h, a, b, spray, k - 1);
      assert k as real == (k - 1) as real + 1.0;
      assert ((k - 1) as real + 1.0) * u == (k - 1) as real * u + u;
    }
  }

  lemma LongStepKeeps(h: Hypot, a: Point, b: Point, spray: bool)
    requires IsHypot(h) && Long(h, a, b)
    ensures var q := [a] + StepPoints(h, a, b, spray); ShortSteps(h, q) && Length(h, q, |q|) == Dist(h, a, b)
  {
    hide Between, Dist, Parts, Long, StepPoints, Length, IsHypot;
    var q, p := [a] + StepPoints(h, a, b, spray), Parts(h, a, b) as real;
    ShareIsShort(h, a, b);
    StepSize(h, a, b, spray);
    forall i: nat | i + 1 < |q|
      ensures Dist(h, q[i], q[i + 1]) <= MAX_STEP
    {
      ShareAt(h, a, b, spray, i);
    }
    ShareLength(h, a, b, spray, |q| - 1);
    Cancel(p, Dist(h, a, b));
  }

  /** A step keeps its length and has no long part. */
  lemma StepKeeps(h: Hypot, a: Point, b: Point, spray: bool)
    requires IsHypot(h)
    ensures var q := [a] + StepPoints(h, a, b, spray); ShortSteps(h, q) && Length(h, q, |q|) == Dist(h, a, b)
  {
    hide StepPoints, Dist, IsHypot, Parts;
    if Long(h, a, b) {
      LongStepKeeps(h, a, b, spray);
    } else {
      StepOfShort(h, a, b, spray);
      assert [a] + [b] == [a, b];
      assert Length(h, [a, b], 2) == Dist(h, a, b);
    }
  }

  lemma StepSize(h: Hypot, a: Point, b: Point, spray: bool)
    requires Long(h, a, b)
    ensures |StepPoints(h, a, b, spray)| == Parts(h, a, b)
  {
  }

  lemma Cancel(p: real, d: real)
    requires p > 0.0
    ensures p * ((1.0 / p) * d) == d
  {
    assert p * (1.0 / p) == 1.0;
    assert p * ((1.0 / p) * d) == (p * (1.0 / p)) * d;
  }

  // ---------------------------------------------------------------- a run

  /** A densified run has the length of the run and only short steps, and ends where it ends. */
  lemma {:induction false} DenseKeeps(h: Hypot, run: seq<Point>, spray: bool, k: nat)
    requires IsHypot(h) && 0 < k <= |run|
    ensures var d := Dense(h, run, spray, k);
            ShortSteps(h, d) && Length(h, d, |d|) == Length(h, run, k) && d[0] == run[0] && d[|d| - 1] == run[k - 1]
  {
    hide Dist, StepPoints;
    if k > 1 {
      DenseKeeps(h, run, spray, k - 1);
      var d, q := Dense(h, run, spray, k - 1), StepPoints(h, run[k - 2], run[k - 1], spray);
      assert |q| > 0 && q[|q| - 1] == run[k - 1] by { StepEnds(h, run[k - 2], run[k - 1], spray); }
      StepKeeps(h, run[k - 2], run[k - 1], spray);
      LengthAdds(h, d, q, |q|);
      ShortAdds(h, d, q);
    }
  }

  lemma StepEnds(h: Hypot, a: Point, b: Point, spray: bool)
    ensures var q := StepPoints(h, a, b, spray); |q| > 0 && q[|q| - 1] == b
  {
    if Long(h, a, b) { PartsOfLong(h, a, b); }
  }

  /** Where vertex `v` of a run is stored. */
  function VertexIndex(h: Hypot, run: seq<Point>, spray: bool, v: nat): nat
    requires v < |run|
  {
    |Dense(h, run, spray, v + 1)| - 1
  }

  lemma {:induction false} DensePrefix(h: Hypot, run: seq<Point>, spray: bool, i: nat, k: nat)
    requires 0 < i <= k <= |run|
    ensures Dense(h, run, spray, i) <= Dense(h, run, spray, k)
  {
    hide StepPoints;
    if i < k { DensePrefix(h, run, spray, i, k - 1); }
  }

  /** Every vertex of a run is stored unchanged. */
  lemma VertexStored(h: Hypot, run: seq<Point>, spray: bool, v: nat)
    requires v < |run|
    ensures var d := Dense(h, run, spray, |run|);
            VertexIndex(h, run, spray, v) < |d| && d[VertexIndex(h, run, spray, v)] == run[v]
  {
    hide StepPoints;
    DensePrefix(h, run, spray, v + 1, |run|);
    if v > 0 { StepEnds(h, run[v - 1], run[v], spray); }
  }

  /** Between two vertices there are exactly the inserted points of their step. */
  lemma InsertedStored(h: Hypot, run: seq<Point>, spray: bool, v: nat, i: nat)
    requires v + 1 < |run|
    requires VertexIndex(h, run, spray, v) < i < VertexIndex(h, run, spray, v + 1)
    ensures var d := Dense(h, run, spray, |run|);
            var parts := VertexIndex(h, run, spray, v + 1) - VertexIndex(h, run, spray, v);
            && i < |d| && Long(h, run[v], run[v + 1]) && parts == Parts(h, run[v], run[v + 1])
            && d[i] == Between(run[v], run[v + 1], parts, spray, i - VertexIndex(h, run, spray, v))
  {
    hide StepPoints, Between, Long, Parts;
    DensePrefix(h, run, spray, v + 2, |run|);
    var before := Dense(h, run, spray, v + 1);
    StepAt(h, run[v], run[v + 1], spray, i - |before|);
  }

  /** Vertices are stored in order. */
  lemma {:induction false} VerticesOrdered(h: Hypot, run: seq<Point>, spray: bool, v: nat, w: nat)
    requires v < w < |run|
    ensures VertexIndex(h, run, spray, v) < VertexIndex(h, run, spray, w)
  {
    hide StepPoints;
    StepEnds(h, run[w - 1], run[w], spray);
    if v < w - 1 { VerticesOrdered(h, run, spray, v, w - 1); }
  }

  /** A stored point is a vertex or lies strictly between two consecutive ones. */
  lemma {:induction false} Located(h: Hypot, run: seq<Point>, spray: bool, k: nat, i: nat) returns (v: nat)
    requires 0 < k <= |run| && i < |Dense(h, run, spray, k)|
    ensures v < k && VertexIndex(h, run, spray, v) <= i
    ensures VertexIndex(h, run, spray, v) < i ==> v + 1 < k && i < VertexIndex(h, run, spray, v + 1)
  {
    hide StepPoints, Dense;
    if k == 1 {
      DenseOne(h, run, spray);
      v := 0;
    } else if i == |Dense(h, run, spray, k)| - 1 {
      v := k - 1;
    } else if i < |Dense(h, run, spray, k - 1)| {
      v := Located(h, run, spray, k - 1, i);
    } else {
      v := k - 2;
    }
  }

  lemma DenseOne(h: Hypot, run: seq<Point>, spray: bool)
    requires run != []
    ensures Dense(h, run, spray, 1) == [run[0]]
  {
  }

  /** Must-hit survives exactly at the vertices that carry it, and every stored point has the run's spray. */
  lemma StoredFlags(h: Hypot, run: seq<Point>, spray: bool, i: nat) returns (v: nat)
    requires run != [] && i < |Dense(h, run, spray, |run|)|
    requires forall j :: 0 <= j < |run| ==> run[j].spray == spray
    ensures var p := Dense(h, run, spray, |run|)[i];
            && p.spray == spray
            && (p.mustHit ==> v < |run| && VertexIndex(h, run, spray, v) == i && run[v].mustHit)
  {
    hide Dense, VertexIndex;
    v := Located(h, run, spray, |run|, i);
    VertexStored(h, run, spray, v);
    if VertexIndex(h, run, spray, v) < i { InsertedStored(h, run, spray, v, i); }
  }

  // ---------------------------------------------------------------- the budget

  /** The budget refuses only runs that are too long once split, and otherwise changes nothing. */
  lemma {:induction false} BudgetSound(h: Hypot, run: seq<Point>, spray: bool, budget: int, k: nat)
    requires 0 < k <= |run|
    ensures var d := Densified(h, run, spray, budget, k);
            if d.Some? then d.value == Dense(h, run, spray, k) else |Dense(h, run, spray, k)| > budget
  {
    hide Long, Parts;
    if k > 1 { BudgetSound(h, run, spray, budget, k - 1); }
  }
}
