/** Dash metering by arc length: toggling on an ideal alternating grid, with lead distances, rejection
    of jumps in the projected station, and relocation. Stations are real numbers. */
module DashMeter {
  import opened Common

  const EPS: real := 0.000000001
  const GUARD: nat := 10_000

  datatype Config = Config(onDistance: real, offDistance: real, tolerance: real, acceptAfter: nat) {
    function Target(phase: bool): real { if phase then onDistance else offDistance }

    ghost predicate Valid() { onDistance > 0.0 && offDistance > 0.0 }
  }

  /** `phase` is true while the pattern sprays. */
  datatype Meter = Meter(
    anchor: Option<real>,
    phase: bool,
    armed: bool,
    s: real,                  // the station being tracked
    last: real,               // the station of the last ideal toggle
    rejects: nat,
    reference: Option<real>)

  datatype Tick = Tick(rawS: real, speed: real, dt: real, onPath: bool, onLead: real, offLead: real)

  datatype Input = Advance(tick: Tick) | SetAnchor(anchor: Option<real>)

  function Max(a: real, b: real): real { if a < b then b else a }

  function Min(a: real, b: real): real { if b < a then b else a }

  function Abs(a: real): real { if a < 0.0 then -a else a }

  // ---------------------------------------------------------------- tracking the station

  datatype Track = Waiting | Armed | Accepted | Rejected | Relocated

  function MaxStep(c: Config, t: Tick): real { Max(0.0, t.speed) * Max(0.0, t.dt) * c.tolerance }

  /** What a tick does to the tracked station. */
  function TrackOf(c: Config, m: Meter, t: Tick): Track {
    if !m.armed then if t.onPath then Armed else Waiting
    else if -EPS <= t.rawS - m.s <= MaxStep(c, t) + EPS then Accepted
    else if RejectCount(c, m, t) >= c.acceptAfter then Relocated
    else Rejected
  }

  predicate Agrees(c: Config, m: Meter, t: Tick) {
    m.reference.Some? && Abs(t.rawS - m.reference.value) <= MaxStep(c, t) + EPS
  }

  function RejectCount(c: Config, m: Meter, t: Tick): nat { if Agrees(c, m, t) then m.rejects + 1 else 1 }

  function Tracked(c: Config, m: Meter, t: Tick): Meter {
    match TrackOf(c, m, t)
    case Waiting => m
    case Armed =>
      m.(armed := true, s := t.rawS, last := if m.anchor.Some? then m.anchor.value else t.rawS,
         rejects := 0, reference := None)
    case Accepted => m.(s := t.rawS, rejects := 0, reference := None)
    case Rejected =>
      m.(rejects := RejectCount(c, m, t), reference := if Agrees(c, m, t) then m.reference else Some(t.rawS))
    case Relocated => m.(s := t.rawS, last := t.rawS, rejects := 0, reference := None)
  }

  // ---------------------------------------------------------------- toggling

  /** The lead of the coming flip: closing uses the off lead, opening the on lead; never past a full segment. */
  function Lead(c: Config, phase: bool, t: Tick): real {
    Max(0.0, Min(if phase then t.offLead else t.onLead, c.Target(phase)))
  }

  predicate Due(c: Config, m: Meter, t: Tick) {
    m.s >= m.last + c.Target(m.phase) - Lead(c, m.phase, t) - EPS
  }

  function Flip(c: Config, m: Meter): Meter { m.(phase := !m.phase, last := m.last + c.Target(m.phase)) }

  /** How often a tick toggles, having toggled `done` times. */
  function Toggles(c: Config, m: Meter, t: Tick, done: nat): (n: nat)
    requires done <= GUARD
    ensures n <= GUARD + 1 - done
    decreases GUARD - done
  {
    if !Due(c, m, t) then 0
    else if done + 1 > GUARD then 1
    else 1 + Toggles(c, Flip(c, m), t, done + 1)
  }

  function Flips(c: Config, m: Meter, n: nat): Meter {
    if n == 0 then m else Flip(c, Flips(c, m, n - 1))
  }

  lemma TogglesUnfold(c: Config, m: Meter, t: Tick, done: nat)
    requires done <= GUARD
    ensures Toggles(c, m, t, done) ==
            if !Due(c, m, t) then 0
            else if done == GUARD then 1
            else 1 + Toggles(c, Flip(c, m), t, done + 1)
  {
  }

  lemma FlipsUnfold(c: Config, m: Meter, n: nat)
    ensures Flips(c, m, n) == if n == 0 then m else Flip(c, Flips(c, m, n - 1))
  {
  }

  /** One whole tick. */
  function Update(c: Config, m: Meter, t: Tick): Meter {
    var k := Tracked(c, m, t);
    if k.armed then Flips(c, k, Toggles(c, k, t, 0)) else k
  }

  // ---------------------------------------------------------------- the ideal grid

  function PhaseAfter(start: bool, k: nat): bool { if k % 2 == 0 then start else !start }

  /** Boundary number `k` of the alternating pattern that begins in phase `start` at `origin`. */
  function Grid(c: Config, origin: real, start: bool, k: nat): real {
    if k == 0 then origin else Grid(c, origin, start, k - 1) + c.Target(PhaseAfter(start, k - 1))
  }

  /** The length of `n` whole periods. */
  function Periods(c: Config, n: nat): real { n as real * (c.onDistance + c.offDistance) }

  lemma {:induction false} GridClosed(c: Config, origin: real, start: bool, k: nat)
    ensures Grid(c, origin, start, k) == origin + Periods(c, k / 2) +
            if k % 2 == 0 then 0.0 else if start then c.onDistance else c.offDistance
  {
    hide Periods;
    if k == 0 {
      NoPeriod(c);
    } else {
      GridClosed(c, origin, start, k - 1);
      if k % 2 == 0 {
        assert k / 2 == (k - 1) / 2 + 1;
        OnePeriod(c, (k - 1) / 2);
      } else {
        assert k / 2 == (k - 1) / 2;
      }
    }
  }

  lemma NoPeriod(c: Config)
    ensures Periods(c, 0) == 0.0
  {
  }

  lemma OnePeriod(c: Config, n: nat)
    ensures Periods(c, n + 1) == Periods(c, n) + (c.onDistance + c.offDistance)
  {
    Distribute(n as real, c.onDistance + c.offDistance);
    assert (n + 1) as real == n as real + 1.0;
  }

  lemma Distribute(x: real, period: real)
    ensures (x + 1.0) * period == x * period + period
  {
  }

  lemma {:induction false} GridGrows(c: Config, origin: real, start: bool, i: nat, k: nat)
    requires c.Valid() && i < k
    ensures Grid(c, origin, start, i) < Grid(c, origin, start, k)
  {
    if i < k - 1 { GridGrows(c, origin, start, i, k - 1); }
  }

  /** `k` boundaries lie at or before station `x`, to within a nanometre. */
  ghost predicate CountAt(c: Config, origin: real, start: bool, k: nat, x: real) {
    && (k > 0 ==> Grid(c, origin, start, k) <= x + 0.000000001)
    && x + 0.000000001 < Grid(c, origin, start, k + 1)
  }

  lemma CountUnique(c: Config, origin: real, start: bool, i: nat, k: nat, x: real)
    requires c.Valid() && CountAt(c, origin, start, i, x) && CountAt(c, origin, start, k, x)
    ensures i == k
  {
    if i + 1 < k { GridGrows(c, origin, start, i + 1, k); }
    if k + 1 < i { GridGrows(c, origin, start, k + 1, i); }
  }

  // ---------------------------------------------------------------- a run and its history

  /** A meter with the origin of its grid, the phase it began in there, the toggles made since and the
      furthest station tracked since. */
  datatype Trace = Trace(m: Meter, origin: real, start: bool, count: nat, peak: real)

  function Begin(phase: bool, anchor: Option<real>): Trace {
    Trace(Meter(anchor, phase, false, 0.0, 0.0, 0, None), 0.0, phase, 0, 0.0)
  }

  function Followed(c: Config, t: Trace, tick: Tick): Trace {
    var k := Tracked(c, t.m, tick);
    match TrackOf(c, t.m, tick)
    case Waiting => t.(m := k)
    case Armed => Trace(k, k.last, k.phase, 0, k.s)
    case Relocated => Trace(k, k.last, k.phase, 0, k.s)
    case Accepted => t.(m := k, peak := Max(t.peak, k.s))
    case Rejected => t.(m := k)
  }

  function Step(c: Config, t: Trace, i: Input): Trace {
    match i
    case SetAnchor(a) => t.(m := t.m.(anchor := a))
    case Advance(tick) =>
      var f := Followed(c, t, tick);
      if f.m.armed then
        var n := Toggles(c, f.m, tick, 0);
        f.(m := Flips(c, f.m, n), count := f.count + n)
      else f
  }

  function Run(c: Config, t: Trace, inputs: seq<Input>): Trace {
    if inputs == [] then t else Step(c, Run(c, t, inputs[..|inputs| - 1]), inputs[|inputs| - 1])
  }

  lemma StepOfRun(c: Config, t: Trace, inputs: seq<Input>)
    requires inputs != []
    ensures Run(c, t, inputs) == Step(c, Run(c, t, inputs[..|inputs| - 1]), inputs[|inputs| - 1])
  {
  }

  lemma StepSetsAnchor(c: Config, t: Trace, a: Option<real>)
    ensures Step(c, t, SetAnchor(a)).m == t.m.(anchor := a)
  {
  }

  /** The history follows the meter. */
  lemma TraceIsUpdate(c: Config, t: Trace, tick: Tick)
    ensures Step(c, t, Advance(tick)).m == Update(c, t.m, tick)
  {
  }

  ghost predicate OnGrid(c: Config, t: Trace) {
    t.m.armed ==>
      && t.m.last == Grid(c, t.origin, t.start, t.count)
      && t.m.phase == PhaseAfter(t.start, t.count)
      && t.m.s <= t.peak
  }

  lemma {:induction false} FlipsOnGrid(c: Config, t: Trace, n: nat)
    requires t.m.armed && OnGrid(c, t)
    ensures OnGrid(c, t.(m := Flips(c, t.m, n), count := t.count + n))
    ensures var k := Flips(c, t.m, n); k.armed && k.s == t.m.s && k.anchor == t.m.anchor
  {
    if n > 0 { FlipsOnGrid(c, t, n - 1); }
  }

  lemma FollowedOnGrid(c: Config, t: Trace, tick: Tick)
    requires OnGrid(c, t)
    ensures OnGrid(c, Followed(c, t, tick))
  {
  }

  /** Whatever the leads and jumps, the last toggle lies on the ideal alternating grid from its origin: the anchor
      or the arming station, or the station of the latest accepted relocation. */
  lemma {:induction false} AlwaysOnGrid(c: Config, phase: bool, anchor: Option<real>, inputs: seq<Input>)
    ensures OnGrid(c, Run(c, Begin(phase, anchor), inputs))
  {
    hide Followed, Toggles, Flips;
    if inputs != [] {
      var last := |inputs| - 1;
      AlwaysOnGrid(c, phase, anchor, inputs[..last]);
      var t := Run(c, Begin(phase, anchor), inputs[..last]);
      if inputs[last].Advance? {
        var tick := inputs[last].tick;
        FollowedOnGrid(c, t, tick);
        var f := Followed(c, t, tick);
        if f.m.armed { FlipsOnGrid(c, f, Toggles(c, f.m, tick, 0)); }
      }
    }
  }

  /** The origin moves only when the meter arms or relocates. */
  lemma OriginFixed(c: Config, t: Trace, i: Input)
    requires i.Advance? ==> TrackOf(c, t.m, i.tick) !in {Armed, Relocated}
    ensures Step(c, t, i).origin == t.origin && Step(c, t, i).start == t.start
    ensures Step(c, t, i).count >= t.count && Step(c, t, i).peak >= t.peak
  {
  }

  // ---------------------------------------------------------------- how far a tick toggles

  lemma LeadBounds(c: Config, phase: bool, t: Tick)
    requires c.Valid()
    ensures 0.0 <= Lead(c, phase, t) <= c.Target(phase)
  {
  }

  /** Where one tick's toggling stops: each toggle was due with at most a full segment of lead, and unless the guard
      stopped it the next is not due. */
  lemma {:induction false} TogglesStop(c: Config, t: Trace, tick: Tick, done: nat)
    requires c.Valid() && t.m.armed && OnGrid(c, t) && done <= GUARD
    ensures var n := Toggles(c, t.m, tick, done);
            var k := t.count + n;
            && (n > 0 ==> Grid(c, t.origin, t.start, k) - Lead(c, PhaseAfter(t.start, k - 1), tick) <= t.m.s + EPS)
            && (n < GUARD + 1 - done ==>
                  t.m.s + EPS < Grid(c, t.origin, t.start, k + 1) - Lead(c, PhaseAfter(t.start, k), tick))
    decreases GUARD - done
  {
    hide Lead;
    if Due(c, t.m, tick) && done + 1 <= GUARD {
      var u := t.(m := Flip(c, t.m), count := t.count + 1);
      TogglesStop(c, u, tick, done + 1);
    }
  }

  ghost predicate ZeroLead(tick: Tick) { tick.onLead <= 0.0 && tick.offLead <= 0.0 }

  /** Exactly how a zero-lead tick toggles: to the ideal count at its station, never back, and never by more than
      the guard lets through. */
  lemma TickExact(c: Config, t: Trace, tick: Tick, ideal: nat)
    requires c.Valid() && t.m.armed && OnGrid(c, t) && ZeroLead(tick)
    requires CountAt(c, t.origin, t.start, ideal, t.m.s)
    ensures t.count + Toggles(c, t.m, tick, 0) ==
            if ideal <= t.count then t.count
            else if ideal - t.count <= GUARD + 1 then ideal
            else t.count + GUARD + 1
  {
    hide Toggles;
    TogglesStop(c, t, tick, 0);
    var n := Toggles(c, t.m, tick, 0);
    var k := t.count + n;
    if n > 0 && k > ideal {
      if k > ideal + 1 { GridGrows(c, t.origin, t.start, ideal + 1, k); }
      assert false;
    }
    if n < GUARD + 1 && k < ideal {
      if k + 1 < ideal { GridGrows(c, t.origin, t.start, k + 1, ideal); }
      assert false;
    }
  }

  // ---------------------------------------------------------------- whole runs

  /** The guard does not stop this input's toggling: the station is short of the boundary it would stop at. */
  ghost predicate Unguarded(c: Config, t: Trace, i: Input) {
    i.Advance? ==>
      var f := Followed(c, t, i.tick);
      f.m.armed ==> f.m.s + 0.000000001 < Grid(c, f.origin, f.start, f.count + 10002)
  }

  ghost predicate AllUnguarded(c: Config, t: Trace, inputs: seq<Input>) {
    forall k: nat :: k < |inputs| ==> Unguarded(c, Run(c, t, inputs[..k]), inputs[k])
  }

  /** The toggle count is that of the furthest station, or one ahead of it. */
  ghost predicate Sandwiched(c: Config, t: Trace) {
    t.m.armed ==>
      && (t.count > 0 ==> Grid(c, t.origin, t.start, t.count - 1) <= t.peak + 0.000000001)
      && t.peak + 0.000000001 < Grid(c, t.origin, t.start, t.count + 1)
  }

  ghost predicate Exact(c: Config, t: Trace) {
    t.m.armed ==> CountAt(c, t.origin, t.start, t.count, t.peak)
  }

  /** The station of every tick that is toggled on is short of the next boundary, unless the guard stopped it. */
  lemma ToggledTrace(c: Config, f: Trace, tick: Tick) returns (t: Trace)
    requires c.Valid() && f.m.armed && OnGrid(c, f)
    requires f.m.s + EPS < Grid(c, f.origin, f.start, f.count + GUARD + 2)
    ensures var n := Toggles(c, f.m, tick, 0);
            && t == f.(m := Flips(c, f.m, n), count := f.count + n)
            && t.m.armed && OnGrid(c, t)
            && f.m.s + EPS < Grid(c, f.origin, f.start, t.count + 1)
            && (n > 0 ==> Grid(c, f.origin, f.start, t.count - 1) <= f.m.s + EPS)
            && (n > 0 && ZeroLead(tick) ==> Grid(c, f.origin, f.start, t.count) <= f.m.s + EPS)
  {
    hide Toggles;
    var n := Toggles(c, f.m, tick, 0);
    t := f.(m := Flips(c, f.m, n), count := f.count + n);
    FlipsOnGrid(c, f, n);
    TogglesStop(c, f, tick, 0);
    LeadBounds(c, PhaseAfter(f.start, t.count), tick);
    if n > 0 { LeadBounds(c, PhaseAfter(f.start, t.count - 1), tick); }
  }

  /** What a tick leaves of the earlier account, before toggling. */
  ghost predicate Carried(c: Config, f: Trace, slack: nat)
    requires slack <= 1
  {
    && (f.peak == f.m.s || f.peak + EPS < Grid(c, f.origin, f.start, f.count + 1))
    && (f.count > 0 ==> Grid(c, f.origin, f.start, f.count - slack) <= f.peak + EPS)
  }

  lemma FollowedCarries(c: Config, t: Trace, tick: Tick, slack: nat)
    requires slack <= 1 && (slack == 0 ==> Exact(c, t)) && (slack == 1 ==> Sandwiched(c, t))
    ensures var f := Followed(c, t, tick); f.m.armed ==> Carried(c, f, slack)
  {
    hide MaxStep, Agrees, RejectCount, Grid;
  }

  lemma SandwichStep(c: Config, t: Trace, i: Input)
    requires c.Valid() && OnGrid(c, t) && Sandwiched(c, t) && Unguarded(c, t, i)
    ensures Sandwiched(c, Step(c, t, i))
  {
    hide Followed, Toggles, Flips, Carried, Grid;
    if i.Advance? {
      var f := Followed(c, t, i.tick);
      FollowedOnGrid(c, t, i.tick);
      FollowedCarries(c, t, i.tick, 1);
      if f.m.armed { SandwichTick(c, f, i.tick); }
    }
  }

  lemma SandwichTick(c: Config, f: Trace, tick: Tick)
    requires c.Valid() && f.m.armed && OnGrid(c, f) && Carried(c, f, 1)
    requires f.m.s + EPS < Grid(c, f.origin, f.start, f.count + GUARD + 2)
    ensures var n := Toggles(c, f.m, tick, 0);
            Sandwiched(c, f.(m := Flips(c, f.m, n), count := f.count + n))
  {
    hide Toggles, Flips, Lead, Grid;
    var u := ToggledTrace(c, f, tick);
    if u.count > f.count { GridGrows(c, f.origin, f.start, f.count + 1, u.count + 1); }
  }

  lemma ExactTick(c: Config, f: Trace, tick: Tick)
    requires c.Valid() && f.m.armed && OnGrid(c, f) && Carried(c, f, 0) && ZeroLead(tick)
    ensures var n := Toggles(c, f.m, tick, 0);
            CountAt(c, f.origin, f.start, f.count + n, f.peak) <==>
            f.m.s + EPS < Grid(c, f.origin, f.start, f.count + GUARD + 2)
  {
    hide Toggles, Flips, Lead, Grid;
    var stop := f.count + GUARD + 2;
    if f.m.s + EPS < Grid(c, f.origin, f.start, stop) {
      var u := ToggledTrace(c, f, tick);
      if u.count > f.count { GridGrows(c, f.origin, f.start, f.count + 1, u.count + 1); }
    } else {
      var k := f.count + Toggles(c, f.m, tick, 0);
      if k + 1 < stop { GridGrows(c, f.origin, f.start, k + 1, stop); }
    }
  }

  lemma ExactStep(c: Config, t: Trace, i: Input)
    requires c.Valid() && OnGrid(c, t) && Exact(c, t) && (i.Advance? ==> ZeroLead(i.tick))
    ensures Exact(c, Step(c, t, i)) <==> Unguarded(c, t, i)
  {
    hide Followed, Toggles, Flips, Carried, Grid;
    if i.Advance? {
      var f := Followed(c, t, i.tick);
      FollowedOnGrid(c, t, i.tick);
      FollowedCarries(c, t, i.tick, 0);
      if f.m.armed {
        ExactTick(c, f, i.tick);
        FlipsOnGrid(c, f, Toggles(c, f.m, i.tick, 0));
      }
    }
  }

  lemma UnguardedPrefix(c: Config, t: Trace, inputs: seq<Input>)
    requires inputs != [] && AllUnguarded(c, t, inputs)
    ensures AllUnguarded(c, t, inputs[..|inputs| - 1])
    ensures Unguarded(c, Run(c, t, inputs[..|inputs| - 1]), inputs[|inputs| - 1])
  {
    hide Unguarded, Run;
    var front := inputs[..|inputs| - 1];
    forall k: nat | k < |front|
      ensures Unguarded(c, Run(c, t, front[..k]), front[k])
    {
      assert front[..k] == inputs[..k];
    }
  }

  /** For any leads: the toggles never fall behind the ideal grid at the furthest station tracked since the origin, and
      never run more than one boundary ahead of it. */
  lemma {:induction false} LeadsStaySandwiched(c: Config, phase: bool, anchor: Option<real>, inputs: seq<Input>)
    requires c.Valid() && AllUnguarded(c, Begin(phase, anchor), inputs)
    ensures Sandwiched(c, Run(c, Begin(phase, anchor), inputs))
  {
    hide Step, Unguarded, AllUnguarded, OnGrid;
    if inputs != [] {
      var front := inputs[..|inputs| - 1];
      UnguardedPrefix(c, Begin(phase, anchor), inputs);
      LeadsStaySandwiched(c, phase, anchor, front);
      AlwaysOnGrid(c, phase, anchor, front);
      SandwichStep(c, Run(c, Begin(phase, anchor), front), inputs[|inputs| - 1]);
    }
  }

  ghost predicate AllZeroLead(inputs: seq<Input>) {
    forall k: nat :: k < |inputs| && inputs[k].Advance? ==> ZeroLead(inputs[k].tick)
  }

  /** With zero lead, the toggle count is the closed form at the furthest station tracked since the origin. */
  lemma {:induction false} ZeroLeadClosedForm(c: Config, phase: bool, anchor: Option<real>, inputs: seq<Input>)
    requires c.Valid() && AllZeroLead(inputs) && AllUnguarded(c, Begin(phase, anchor), inputs)
    ensures Exact(c, Run(c, Begin(phase, anchor), inputs))
  {
    hide Step, Unguarded, AllUnguarded, OnGrid;
    if inputs != [] {
      var front := inputs[..|inputs| - 1];
      UnguardedPrefix(c, Begin(phase, anchor), inputs);
      ZeroLeadClosedForm(c, phase, anchor, front);
      AlwaysOnGrid(c, phase, anchor, front);
      ExactStep(c, Run(c, Begin(phase, anchor), front), inputs[|inputs| - 1]);
    }
  }

  /** The closed form holds after every input exactly when the guard never stops the toggling. */
  lemma ClosedFormIffUnguarded(c: Config, phase: bool, anchor: Option<real>, inputs: seq<Input>)
    requires c.Valid() && AllZeroLead(inputs)
    ensures AllUnguarded(c, Begin(phase, anchor), inputs) <==>
            forall k: nat :: k <= |inputs| ==> Exact(c, Run(c, Begin(phase, anchor), inputs[..k]))
  {
    hide Step, Unguarded, Exact, OnGrid;
    var t := Begin(phase, anchor);
    if AllUnguarded(c, t, inputs) {
      forall k: nat | k <= |inputs|
        ensures Exact(c, Run(c, t, inputs[..k]))
      {
        assert forall j: nat :: j < k ==> inputs[..k][..j] == inputs[..j];
        ZeroLeadClosedForm(c, phase, anchor, inputs[..k]);
      }
    }
    if forall k: nat :: k <= |inputs| ==> Exact(c, Run(c, t, inputs[..k])) {
      forall k: nat | k < |inputs|
        ensures Unguarded(c, Run(c, t, inputs[..k]), inputs[k])
      {
        assert inputs[..k + 1][..k] == inputs[..k];
        AlwaysOnGrid(c, phase, anchor, inputs[..k]);
        assert Exact(c, Run(c, t, inputs[..k])) && Exact(c, Run(c, t, inputs[..k + 1]));
        ExactStep(c, Run(c, t, inputs[..k]), inputs[k]);
      }
    }
  }

  // ---------------------------------------------------------------- the guard

  /** Every toggle adds a positive distance, so the distance still to cover bounds how many there are. */
  lemma {:induction false} TogglesBounded(c: Config, m: Meter, t: Tick, done: nat)
    requires c.Valid() && done <= GUARD
    ensures var n := Toggles(c, m, t, done);
            n > 0 ==> (n - 1) as real * Min(c.onDistance, c.offDistance) <= m.s - m.last + EPS
    decreases GUARD - done
  {
    hide Lead;
    LeadBounds(c, m.phase, t);
    if Due(c, m, t) && done + 1 <= GUARD {
      TogglesBounded(c, Flip(c, m), t, done + 1);
      OneMore(Toggles(c, Flip(c, m), t, done + 1), Min(c.onDistance, c.offDistance));
    }
  }

  lemma OneMore(k: nat, d: real)
    ensures k as real * d == (k - 1) as real * d + d
  {
    assert k as real == (k - 1) as real + 1.0;
  }

  /** Twenty thousand one-metre dashes crossed in one tick: the guard lets only 10001 toggles through. */
  lemma GuardStopsShort()
    ensures var c := Config(1.0, 1.0, 3.0, 5);
            var t := Run(c, Begin(true, Some(0.0)), [Advance(Tick(20000.0, 1.0, 0.02, true, 0.0, 0.0))]);
            && t.m.armed && t.count == 10001 && CountAt(c, t.origin, t.start, 20000, t.peak)
  {
    hide Toggles, Flips;
    var c, tick := Config(1.0, 1.0, 3.0, 5), Tick(20000.0, 1.0, 0.02, true, 0.0, 0.0);
    var inputs := [Advance(tick)];
    assert inputs[..0] == [];
    var f := Followed(c, Begin(true, Some(0.0)), tick);
    assert f.m.s == 20000.0 && f.origin == 0.0 && f.start && f.count == 0;
    GridClosed(c, 0.0, true, 20000);
    GridClosed(c, 0.0, true, 20001);
    TickExact(c, f, tick, 20000);
    FlipsOnGrid(c, f, Toggles(c, f.m, tick, 0));
  }

  // ---------------------------------------------------------------- the object

  datatype DashUpdate = DashUpdate(
    desired: bool, armed: bool, phase: bool, s: real, last: real, jumpRejected: bool, recovered: bool)

  class Meterer {
    const config: Config
    var anchor: Option<real>
    var phase: bool
    var armed: bool
    var s: real
    var last: real
    var rejects: nat
    var reference: Option<real>

    function Model(): Meter
      reads this
    {
      Meter(anchor, phase, armed, s, last, rejects, reference)
    }

    constructor (onDistance: real, offDistance: real, start: bool, tolerance: real, acceptAfter: int,
                 anchor: Option<real>)
      requires onDistance > 0.0 && offDistance > 0.0
      ensures config.Valid() && Model() == Begin(start, anchor).m
      ensures config.onDistance == onDistance && config.offDistance == offDistance
      ensures config.tolerance == Max(1.0, tolerance)
      ensures config.acceptAfter == if acceptAfter < 1 then 1 else acceptAfter
    {
      config := Config(onDistance, offDistance, Max(1.0, tolerance), if acceptAfter < 1 then 1 else acceptAfter);
      this.anchor, phase, armed, s, last, rejects, reference := anchor, start, false, 0.0, 0.0, 0, None;
    }

    method SetAnchorS(a: Option<real>)
      modifies this
      ensures Model() == old(Model()).(anchor := a)
    {
      anchor := a;
    }

    method TrackStation(t: Tick) returns (jumpRejected: bool, recovered: bool)
      modifies this
      ensures Model() == Tracked(config, old(Model()), t)
      ensures jumpRejected == TrackOf(config, old(Model()), t).Rejected?
      ensures recovered == TrackOf(config, old(Model()), t).Relocated?
    {
      jumpRejected, recovered := false, false;
      if !armed {
        if !t.onPath { return; }
        armed := true;
        s := t.rawS;
        last := if anchor.Some? then anchor.value else t.rawS;
        rejects, reference := 0, None;
      } else {
        var delta := t.rawS - s;
        var maxStep := MaxStep(config, t);
        if -EPS <= delta <= maxStep + EPS {
          s := t.rawS;
          rejects, reference := 0, None;
        } else {
          jumpRejected := true;
          if reference.Some? && Abs(t.rawS - reference.value) <= maxStep + EPS {
            rejects := rejects + 1;
          } else {
            reference := Some(t.rawS);
            rejects := 1;
          }
          if rejects >= config.acceptAfter {
            s := t.rawS;
            last := t.rawS;
            rejects, reference := 0, None;
            jumpRejected, recovered := false, true;
          }
        }
      }
    }

    method DoToggles(t: Tick)
      requires armed
      modifies this
      ensures Model() == Flips(config, old(Model()), Toggles(config, old(Model()), t, 0))
    {
      hide Lead, Toggles, Flips;
      ghost var k := Model();
      var guard := 0;
      FlipsUnfold(config, k, 0);
      while armed
        invariant guard <= GUARD && armed
        invariant Model() == Flips(config, k, guard)
        invariant Toggles(config, k, t, 0) == guard + Toggles(config, Model(), t, guard)
        decreases GUARD - guard
      {
        var target := config.Target(phase);
        var next := last + target;
        var lead := Lead(config, phase, t);
        ghost var m := Model();
        TogglesUnfold(config, m, t, guard);
        FlipsUnfold(config, k, guard + 1);
        if s >= next - lead - EPS {
          phase := !phase;
          last := next;
          guard := guard + 1;
          assert Model() == Flip(config, m);
          if guard > GUARD { break; }
        } else {
          break;
        }
      }
    }

    method DoUpdate(t: Tick) returns (r: DashUpdate)
      modifies this
      ensures Model() == Update(config, old(Model()), t)
      ensures var k := TrackOf(config, old(Model()), t);
              r == DashUpdate(armed && phase, armed, phase, s, last, k.Rejected?, k.Relocated?)
    {
      hide Tracked, TrackOf, Toggles, Flips;
      var jumpRejected, recovered := TrackStation(t);
      if armed { DoToggles(t); }
      r := DashUpdate(armed && phase, armed, phase, s, last, jumpRejected, recovered);
    }

    /** A whole run of the object is the run the theorems speak of. */
    method Play(ghost t: Trace, inputs: seq<Input>)
      requires Model() == t.m
      modifies this
      ensures Model() == Run(config, t, inputs).m
    {
      hide Update, Step;
      assert inputs[..0] == [];
      for i := 0 to |inputs|
        invariant Model() == Run(config, t, inputs[..i]).m
      {
        assert inputs[..i + 1][..i] == inputs[..i];
        StepOfRun(config, t, inputs[..i + 1]);
        ghost var was := Run(config, t, inputs[..i]);
        match inputs[i] {
          case SetAnchor(a) =>
            SetAnchorS(a);
            StepSetsAnchor(config, was, a);
          case Advance(tick) =>
            var r := DoUpdate(tick);
            TraceIsUpdate(config, was, tick);
        }
      }
      assert inputs[..|inputs|] == inputs;
    }
  }
}
