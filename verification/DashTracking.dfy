/** How the dash meter follows the projected station: what it accepts, what it holds against, and that it never holds
    for good; and how early each flip comes. */
module DashTracking {
  import opened Common
  import opened DashMeter

  // ---------------------------------------------------------------- the jump window

  /** How far the rover can have moved in a tick, with the tolerance. */
  function Reach(c: Config, t: Tick): real {
    if t.speed <= 0.0 || t.dt <= 0.0 then 0.0 else t.speed * t.dt * c.tolerance
  }

  /** A step that counts as travel: forward, and no further than the rover can have moved. */
  predicate Travel(c: Config, s: real, t: Tick) {
    -0.000000001 <= t.rawS - s && t.rawS - s <= Reach(c, t) + 0.000000001
  }

  predicate Near(c: Config, ref: real, t: Tick) {
    t.rawS - ref <= Reach(c, t) + 0.000000001 && ref - t.rawS <= Reach(c, t) + 0.000000001
  }

  lemma ReachIs(c: Config, t: Tick)
    ensures MaxStep(c, t) == Reach(c, t)
  {
    if t.speed <= 0.0 || t.dt <= 0.0 {
      assert Max(0.0, t.speed) * Max(0.0, t.dt) == 0.0;
    }
  }

  /** The ticks among the inputs. */
  function Ticks(inputs: seq<Input>): seq<Tick> {
    if inputs == [] then []
    else
      var i := inputs[|inputs| - 1];
      Ticks(inputs[..|inputs| - 1]) + (if i.Advance? then [i.tick] else [])
  }

  /** The last `n` ticks were all jumps away from the station, and all near the first of them. */
  ghost predicate Agreeing(c: Config, s: real, ticks: seq<Tick>, n: nat) {
    && 0 < n <= |ticks|
    && (forall i: nat :: |ticks| - n <= i < |ticks| ==> !Travel(c, s, ticks[i]))
    && (forall i: nat :: |ticks| - n < i < |ticks| ==> Near(c, ticks[|ticks| - n].rawS, ticks[i]))
  }

  /** What a held meter is counting. */
  ghost predicate Counting(c: Config, m: Meter, ticks: seq<Tick>) {
    && (m.rejects > 0 <==> m.reference.Some?)
    && (m.rejects > 0 ==>
          && m.armed && m.rejects < c.acceptAfter && Agreeing(c, m.s, ticks, m.rejects)
          && m.reference == Some(ticks[|ticks| - m.rejects].rawS))
  }

  // ---------------------------------------------------------------- one tick

  /** Flipping leaves the tracking alone. */
  lemma {:induction false} FlipsKeep(c: Config, m: Meter, n: nat)
    ensures Flips(c, m, n) == m.(phase := Flips(c, m, n).phase, last := Flips(c, m, n).last)
  {
    if n > 0 { FlipsKeep(c, m, n - 1); }
  }

  lemma UpdateTracks(c: Config, m: Meter, t: Tick)
    ensures var u, k := Update(c, m, t), Tracked(c, m, t); u == k.(phase := u.phase, last := u.last)
  {
    hide Tracked, Flips, Toggles;
    var k := Tracked(c, m, t);
    if k.armed { FlipsKeep(c, k, Toggles(c, k, t, 0)); }
  }

  /** Where a tick leaves the station: armed on the path, moved by travel, moved by the last of enough agreeing jumps,
      and held by every other jump. */
  lemma StationMoves(c: Config, m: Meter, ticks: seq<Tick>, t: Tick)
    requires c.acceptAfter > 0 && Counting(c, m, ticks)
    ensures var u, all := Update(c, m, t), ticks + [t];
            && Counting(c, u, all)
            && (u.armed <==> m.armed || t.onPath)
            && (!m.armed ==> u.s == if t.onPath then t.rawS else m.s)
            && (m.armed && Travel(c, m.s, t) ==> u.s == t.rawS && u.rejects == 0)
            && (m.armed && !Travel(c, m.s, t) ==>
                  && (TrackOf(c, m, t).Relocated? ==> u.s == t.rawS && Agreeing(c, m.s, all, c.acceptAfter))
                  && (!TrackOf(c, m, t).Relocated? ==> u.s == m.s && Agreeing(c, m.s, all, u.rejects)))
  {
    hide Update, MaxStep, Reach;
    UpdateTracks(c, m, t);
    ReachIs(c, t);
    var all := ticks + [t];
    if m.armed && !Travel(c, m.s, t) {
      if Agrees(c, m, t) {
        AgreeingMore(c, m.s, ticks, t, m.rejects);
      } else {
        assert Agreeing(c, m.s, all, 1);
      }
    }
  }

  lemma AgreeingMore(c: Config, s: real, ticks: seq<Tick>, t: Tick, n: nat)
    requires Agreeing(c, s, ticks, n) && !Travel(c, s, t) && Near(c, ticks[|ticks| - n].rawS, t)
    ensures Agreeing(c, s, ticks + [t], n + 1) && (ticks + [t])[|ticks| - n] == ticks[|ticks| - n]
  {
    hide Travel, Near;
    var all := ticks + [t];
    assert forall i: nat :: i < |ticks| ==> all[i] == ticks[i];
  }

  // ---------------------------------------------------------------- whole runs

  /** In every run, a meter that holds its station has been counting jumps that agree with the first of them, and fewer
      than it takes to relocate. */
  lemma {:induction false} HeldByJumps(c: Config, phase: bool, anchor: Option<real>, inputs: seq<Input>)
    requires c.acceptAfter > 0
    ensures Counting(c, Run(c, Begin(phase, anchor), inputs).m, Ticks(inputs))
  {
    hide Counting, Step, Update;
    if inputs == [] {
      NothingCounted(c, phase, anchor, inputs);
    } else {
      var front, i := inputs[..|inputs| - 1], inputs[|inputs| - 1];
      HeldByJumps(c, phase, anchor, front);
      var t := Run(c, Begin(phase, anchor), front);
      match i
      case SetAnchor(a) =>
        StepSetsAnchor(c, t, a);
        AnchorCounted(c, t.m, a, Ticks(front));
        assert Ticks(front) + [] == Ticks(front);
      case Advance(tick) =>
        TraceIsUpdate(c, t, tick);
        StationMoves(c, t.m, Ticks(front), tick);
    }
  }

  lemma NothingCounted(c: Config, phase: bool, anchor: Option<real>, inputs: seq<Input>)
    requires inputs == []
    ensures Counting(c, Run(c, Begin(phase, anchor), inputs).m, Ticks(inputs))
  {
  }

  lemma AnchorCounted(c: Config, m: Meter, a: Option<real>, ticks: seq<Tick>)
    requires Counting(c, m, ticks)
    ensures Counting(c, m.(anchor := a), ticks)
  {
  }

  /** In every run a jump moves the station only as the last of `acceptAfter` consecutive ticks that were all jumps from
      the station held, each within its own reach of the first of them. */
  lemma RelocationIsAgreed(c: Config, phase: bool, anchor: Option<real>, inputs: seq<Input>, t: Tick)
    requires c.acceptAfter > 0
    ensures var m := Run(c, Begin(phase, anchor), inputs).m;
            m.armed && !Travel(c, m.s, t) && Update(c, m, t).s != m.s ==>
              Update(c, m, t).s == t.rawS && Agreeing(c, m.s, Ticks(inputs) + [t], c.acceptAfter)
  {
    hide Run, Update, Travel, Agreeing;
    HeldByJumps(c, phase, anchor, inputs);
    StationMoves(c, Run(c, Begin(phase, anchor), inputs).m, Ticks(inputs), t);
  }

  /** Where the pattern begins: at the anchor when there is one and else at the station of arming, and after a
      relocation at the station accepted; in the phase the meter is in. */
  lemma PatternOrigin(c: Config, t: Trace, tick: Tick)
    ensures var u := Step(c, t, Advance(tick));
            && u.m.anchor == t.m.anchor
            && (!t.m.armed && tick.onPath ==>
                  u.start == t.m.phase && u.origin == if t.m.anchor.Some? then t.m.anchor.value else tick.rawS)
            && (t.m.armed && !Travel(c, t.m.s, tick) && TrackOf(c, t.m, tick).Relocated? ==>
                  u.start == t.m.phase && u.origin == tick.rawS)
            && (!(!t.m.armed && tick.onPath) && !TrackOf(c, t.m, tick).Relocated? ==>
                  u.start == t.start && u.origin == t.origin)
  {
    hide Toggles, Flips, MaxStep, Travel;
    var f := Followed(c, t, tick);
    if f.m.armed { FlipsKeep(c, f.m, Toggles(c, f.m, tick, 0)); }
  }

  // ---------------------------------------------------------------- never held for good

  /** How many more ticks at station `x` it can take. */
  function Left(c: Config, m: Meter, x: real): int {
    if m.armed && m.s == x then 0
    else if m.reference == Some(x) then c.acceptAfter - m.rejects
    else 2 * c.acceptAfter - 1 - m.rejects
  }

  ghost predicate Held(c: Config, m: Meter) {
    m.rejects < c.acceptAfter && (m.rejects > 0 <==> m.reference.Some?)
  }

  lemma CountingHeld(c: Config, m: Meter, ticks: seq<Tick>)
    requires c.acceptAfter > 0 && Counting(c, m, ticks)
    ensures Held(c, m)
  {
  }

  lemma Closer(c: Config, m: Meter, t: Tick)
    requires c.tolerance >= 0.0 && c.acceptAfter > 0 && Held(c, m) && m.armed
    ensures var u := Update(c, m, t);
            u.armed && Held(c, u) && (u.s == t.rawS || Left(c, u, t.rawS) < Left(c, m, t.rawS))
  {
    hide Update, MaxStep;
    UpdateTracks(c, m, t);
    StepForward(c, t);
  }

  lemma StepForward(c: Config, t: Tick)
    requires c.tolerance >= 0.0
    ensures MaxStep(c, t) >= 0.0
  {
    assert Max(0.0, t.speed) * Max(0.0, t.dt) >= 0.0;
  }

  /** The meter after some ticks. */
  function Ticked(c: Config, m: Meter, ticks: seq<Tick>): Meter
    decreases |ticks|
  {
    if ticks == [] then m else Ticked(c, Update(c, m, ticks[0]), ticks[1..])
  }

  lemma {:induction false} SettlesWithin(c: Config, m: Meter, ticks: seq<Tick>, x: real)
    requires c.tolerance >= 0.0 && c.acceptAfter > 0 && Held(c, m) && m.armed
    requires (forall t :: t in ticks ==> t.rawS == x) && |ticks| >= Left(c, m, x)
    ensures Ticked(c, m, ticks).s == x && Ticked(c, m, ticks).armed
    decreases |ticks|
  {
    hide Update;
    if ticks != [] {
      Closer(c, m, ticks[0]);
      SettlesWithin(c, Update(c, m, ticks[0]), ticks[1..], x);
    }
  }

  /** From every reachable state of an armed meter, a station reported by 2 * acceptAfter - 1 ticks in a row is
      accepted, however far away it is and whatever the speeds. */
  lemma NeverWedged(c: Config, phase: bool, anchor: Option<real>, inputs: seq<Input>, ticks: seq<Tick>, x: real)
    requires c.tolerance >= 0.0 && c.acceptAfter > 0
    requires (forall t :: t in ticks ==> t.rawS == x) && |ticks| >= 2 * c.acceptAfter - 1
    ensures var m := Run(c, Begin(phase, anchor), inputs).m;
            m.armed ==> Ticked(c, m, ticks).s == x
  {
    hide Run, Ticked, Counting;
    var m := Run(c, Begin(phase, anchor), inputs).m;
    HeldByJumps(c, phase, anchor, inputs);
    CountingHeld(c, m, Ticks(inputs));
    if m.armed { SettlesWithin(c, m, ticks, x); }
  }

  // ---------------------------------------------------------------- leads

  /** How early the flip that ends a phase comes: closing by the off lead, opening by the on lead, never negative and
      never more than the segment that ends. */
  predicate Early(c: Config, spraying: bool, t: Tick, x: real) {
    var lead, segment := if spraying then t.offLead else t.onLead, if spraying then c.onDistance else c.offDistance;
    && 0.0 <= x <= segment
    && (lead <= 0.0 ==> x == 0.0) && (lead >= segment ==> x == segment) && (0.0 <= lead <= segment ==> x == lead)
  }

  lemma LeadIs(c: Config, spraying: bool, t: Tick)
    requires c.Valid()
    ensures Early(c, spraying, t, Lead(c, spraying, t))
  {
  }

  /** The flip number `k` of the grid is due at the station of the trace. */
  ghost predicate FlipDue(c: Config, t: Trace, tick: Tick, k: nat) {
    k > 0 && Reached(c, PhaseAfter(t.start, k - 1), tick, Grid(c, t.origin, t.start, k), t.m.s)
  }

  /** Station `s` is at the boundary that ends the phase, or early by no more than its lead. */
  ghost predicate Reached(c: Config, spraying: bool, tick: Tick, boundary: real, s: real) {
    exists x: real :: Early(c, spraying, tick, x) && boundary - x <= s + 0.000000001
  }

  lemma DueIs(c: Config, t: Trace, tick: Tick)
    requires c.Valid() && t.m.armed && OnGrid(c, t)
    ensures Due(c, t.m, tick) <==> FlipDue(c, t, tick, t.count + 1)
  {
    hide Lead, Early;
    LeadIs(c, t.m.phase, tick);
    EarlyUnique(c, t.m.phase, tick);
  }

  lemma EarlyUnique(c: Config, spraying: bool, tick: Tick)
    requires c.Valid()
    ensures forall x: real, y: real :: Early(c, spraying, tick, x) && Early(c, spraying, tick, y) ==> x == y
  {
  }

  /** A tick makes exactly the flips that are due, one after another: each one it makes is due at its station, and
      unless it made 10001 of them the next one is not. */
  lemma {:induction false} FlipsExactly(c: Config, t: Trace, tick: Tick, done: nat)
    requires c.Valid() && t.m.armed && OnGrid(c, t) && done <= 10000
    ensures var n := Toggles(c, t.m, tick, done);
            && n <= 10001 - done
            && (forall k: nat :: t.count < k <= t.count + n ==> FlipDue(c, t, tick, k))
            && (n < 10001 - done ==> !FlipDue(c, t, tick, t.count + n + 1))
    decreases 10000 - done
  {
    hide Due, FlipDue, Grid, Flip;
    TogglesUnfold(c, t.m, tick, done);
    DueIs(c, t, tick);
    if Due(c, t.m, tick) && done < 10000 {
      hide Toggles;
      var u := t.(m := Flip(c, t.m), count := t.count + 1);
      FlipKeepsGrid(c, t);
      FlipsExactly(c, u, tick, done + 1);
      DueElsewhere(c, t, u, tick);
    }
  }

  lemma FlipKeepsGrid(c: Config, t: Trace)
    requires t.m.armed && OnGrid(c, t)
    ensures var u := t.(m := Flip(c, t.m), count := t.count + 1); u.m.armed && OnGrid(c, u) && u.m.s == t.m.s
  {
  }

  lemma DueElsewhere(c: Config, t: Trace, u: Trace, tick: Tick)
    requires u.origin == t.origin && u.start == t.start && u.m.s == t.m.s
    ensures forall k: nat :: FlipDue(c, u, tick, k) <==> FlipDue(c, t, tick, k)
  {
    hide Grid, Early;
  }
}
