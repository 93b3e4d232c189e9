/** What the injection authority must let through: a callback of the current generation, and of no other; and in the
    node, every frame of the running worker until its authority is stopped. */
module InjectionDuty {
  import opened Common
  import opened Injection

  // ---------------------------------------------------------------- the authority alone

  datatype Call = Switch(transport: Transport, opens: bool) | StopCall | DeliverCall(generation: nat, holds: bool)

  function Called(a: Authority, c: Call): Authority {
    match c
    case Switch(t, opens) => SwitchTo(a, t, opens)
    case StopCall => Stop(a)
    case DeliverCall(g, holds) => AfterDelivery(a, g, holds)
  }

  /** The authority after the first `k` calls. */
  function After(cs: seq<Call>, k: nat): Authority
    requires k <= |cs|
  {
    if k == 0 then FRESH else Called(After(cs, k - 1), cs[k - 1])
  }

  predicate Turns(c: Call) { !c.DeliverCall? }

  /** The switches and stops among the first `k` calls. */
  function TurnCount(cs: seq<Call>, k: nat): nat
    requires k <= |cs|
  {
    if k == 0 then 0 else TurnCount(cs, k - 1) + if Turns(cs[k - 1]) then 1 else 0
  }

  /** Call `i` is a switch, and nothing has turned since. */
  ghost predicate InForce(cs: seq<Call>, i: nat, k: nat) {
    i < k <= |cs| && cs[i].Switch? && forall j: nat :: i < j < k ==> !Turns(cs[j])
  }

  /** The device of the sink in force: as it opened, or as the latest delivery admitted left it. */
  function Holds(cs: seq<Call>, i: nat, k: nat): bool
    requires i < k <= |cs| && cs[i].Switch?
  {
    if k == i + 1 then cs[i].opens
    else if cs[k - 1].DeliverCall? && cs[k - 1].generation == TurnCount(cs, i + 1) then cs[k - 1].holds
    else Holds(cs, i, k - 1)
  }

  lemma {:induction false} GenerationIs(cs: seq<Call>, k: nat)
    requires k <= |cs|
    ensures After(cs, k).generation == TurnCount(cs, k)
  {
    if k > 0 { GenerationIs(cs, k - 1); }
  }

  lemma {:induction false} TurnsKeep(cs: seq<Call>, i: nat, k: nat)
    requires InForce(cs, i, k)
    ensures TurnCount(cs, k) == TurnCount(cs, i + 1)
    decreases k
  {
    if i + 1 < k { TurnsKeep(cs, i, k - 1); }
  }

  lemma {:induction false} NoneInForce(cs: seq<Call>, k: nat)
    requires k <= |cs| && forall i: nat :: !InForce(cs, i, k)
    ensures After(cs, k).selected.None? && After(cs, k).open == {}
    decreases k
  {
    if k > 0 {
      assert !InForce(cs, k - 1, k);
      if cs[k - 1].DeliverCall? {
        var before := k - 1;
        forall i: nat
          ensures !InForce(cs, i, before)
        {
          assert !InForce(cs, i, k);
        }
        NoneInForce(cs, before);
      } else {
        OnlySelectedOpen(cs, k - 1);
      }
    }
  }

  lemma {:induction false} OnlySelectedOpen(cs: seq<Call>, k: nat)
    requires k <= |cs|
    ensures Exclusive(After(cs, k))
  {
    if k > 0 { OnlySelectedOpen(cs, k - 1); }
  }

  lemma {:induction false} SelectedInForce(cs: seq<Call>, i: nat, k: nat)
    requires InForce(cs, i, k)
    ensures After(cs, k).selected == Some(cs[i].transport)
    ensures After(cs, k).open == if Holds(cs, i, k) then {cs[i].transport} else {}
    decreases k
  {
    if i + 1 == k {
      OnlySelectedOpen(cs, i);
    } else {
      SelectedInForce(cs, i, k - 1);
      GenerationIs(cs, k - 1);
      TurnsKeep(cs, i, k - 1);
    }
  }

  /** After any calls a generation is admitted exactly when it is the one that the switch in force returned, and then
      for the transport of that switch: no generation comes back, and none survives another switch or a stop. Only the
      sink in force holds its device. */
  lemma FenceExact(cs: seq<Call>, k: nat, g: nat)
    requires k <= |cs|
    ensures Admits(After(cs, k), g) <==> exists i: nat :: InForce(cs, i, k) && g == TurnCount(cs, i + 1)
    ensures forall i: nat :: InForce(cs, i, k) ==>
              && After(cs, k).selected == Some(cs[i].transport)
              && After(cs, k).open == if Holds(cs, i, k) then {cs[i].transport} else {}
    ensures (forall i: nat :: !InForce(cs, i, k)) ==> After(cs, k).selected.None? && After(cs, k).open == {}
  {
    hide After, Holds, TurnCount, InForce;
    GenerationIs(cs, k);
    if i: nat :| InForce(cs, i, k) {
      InForceWithin(cs, i, k);
      SelectedInForce(cs, i, k);
      TurnsKeep(cs, i, k);
      forall j: nat | InForce(cs, j, k)
        ensures j == i
      {
        InForceOnce(cs, i, j, k);
      }
    } else {
      NoneInForce(cs, k);
    }
  }

  lemma InForceWithin(cs: seq<Call>, i: nat, k: nat)
    requires InForce(cs, i, k)
    ensures i < k <= |cs| && cs[i].Switch?
  {
  }

  lemma InForceOnce(cs: seq<Call>, i: nat, j: nat, k: nat)
    requires InForce(cs, i, k) && InForce(cs, j, k)
    ensures i == j
  {
  }

  // ---------------------------------------------------------------- the node

  /** While no reconfiguration has stopped the authority, it admits the worker that runs. */
  ghost predicate Serving(s: Node) {
    s.stage.Settled? || s.stage.Detached? ==>
      forall w: nat :: w < |s.workers| && s.workers[w].alive ==> Served(s, s.workers[w])
  }

  ghost predicate Served(s: Node, k: Worker) {
    k.epoch < |s.authorities| && Admits(s.authorities[k.epoch], k.generation)
  }

  lemma ServingStep(s: Node, e: Event)
    requires Inv(s) && Possible(s, e) && !e.SkipJoin? && Serving(s)
    ensures Serving(Next(s, e))
  {
    hide DeliveriesInv;
    var t := Next(s, e);
    if t.stage.Settled? || t.stage.Detached? {
      forall w: nat | w < |t.workers| && t.workers[w].alive
        ensures Served(t, t.workers[w])
      {
        if w < |s.workers| {
          assert WorkerInv(s, w);
        }
      }
    }
  }

  lemma {:induction false} RunServes(s: Node, es: seq<Event>)
    requires Inv(s) && Serving(s) && Run(s, es).Some? && SkipJoin !in es
    ensures Serving(Run(s, es).value)
    decreases |es|
  {
    hide Inv, Next, Serving;
    if es != [] {
      StepKeeps(s, es[0]);
      ServingStep(s, es[0]);
      RunServes(Next(s, es[0]), es[1..]);
    }
  }

  /** The frame that last arrived at a worker. */
  function LastFrame(es: seq<Event>, w: nat): Option<Frame> {
    if es == [] then None
    else
      var e := es[|es| - 1];
      if e.FrameArrives? && e.worker == w then Some(e.frame) else LastFrame(es[..|es| - 1], w)
  }

  /** A callback carries the frame that last arrived. */
  ghost predicate Carries(s: Node, es: seq<Event>) {
    forall w: nat :: w < |s.workers| && s.workers[w].callback != Idle ==>
      LastFrame(es, w) == Some(s.workers[w].callback.frame)
  }

  lemma LastFrameIs(es: seq<Event>, e: Event, w: nat)
    ensures LastFrame(es + [e], w) == if e.FrameArrives? && e.worker == w then Some(e.frame) else LastFrame(es, w)
  {
    assert (es + [e])[..|es|] == es;
  }

  lemma CarriesStep(s: Node, es: seq<Event>, e: Event)
    requires Possible(s, e) && Carries(s, es)
    ensures Carries(Next(s, e), es + [e])
  {
    hide LastFrame;
    var t := Next(s, e);
    forall w: nat | w < |t.workers| && t.workers[w].callback != Idle
      ensures LastFrame(es + [e], w) == Some(t.workers[w].callback.frame)
    {
      LastFrameIs(es, e, w);
    }
  }

  lemma {:induction false} RunLast(s: Node, es: seq<Event>)
    requires es != [] && Run(s, es).Some?
    ensures
      var was, e := Run(s, es[..|es| - 1]), es[|es| - 1];
      was.Some? && Possible(was.value, e) && Run(s, es).value == Next(was.value, e)
    decreases |es|
  {
    hide Possible, Next;
    if |es| > 1 {
      RunLast(Next(s, es[0]), es[1..]);
      assert es[1..][..|es| - 2] == es[..|es| - 1][1..];
    }
  }

  lemma {:induction false} RunCarries(es: seq<Event>)
    requires Run(Boot(), es).Some?
    ensures Carries(Run(Boot(), es).value, es)
    decreases |es|
  {
    hide Next, Possible, LastFrame;
    if es != [] {
      hide Run, Carries;
      var front, e := es[..|es| - 1], es[|es| - 1];
      RunLast(Boot(), es);
      RunCarries(front);
      CarriesStep(Run(Boot(), front).value, front, e);
      assert front + [e] == es;
    }
  }

  /** In every run a callback that reaches its delivery delivers the frame that last arrived at its worker, once,
      through its own authority and the transport chosen for its generation, unless that authority has been stopped; and
      nothing else delivers. */
  lemma DeliversExactly(es: seq<Event>, e: Event)
    requires Run(Boot(), es).Some? && SkipJoin !in es && Possible(Run(Boot(), es).value, e) && !e.SkipJoin?
    ensures
      var s := Run(Boot(), es).value;
      var t := Next(s, e);
      if e.DeliverFrame? && !s.stage.Fenced? then
        var k := s.workers[e.worker];
        && LastFrame(es, e.worker).Some? && (k.epoch, k.generation) in s.chosen
        && t.deliveries == s.deliveries + [Delivery(e.worker, LastFrame(es, e.worker).value, k.epoch, k.generation,
                                                    s.chosen[(k.epoch, k.generation)])]
      else t.deliveries == s.deliveries
  {
    hide Run, LastFrame;
    var s := Run(Boot(), es).value;
    RunKeeps(Boot(), es);
    RunServes(Boot(), es);
    RunCarries(es);
    if e.DeliverFrame? { DeliveryIs(s, e); }
  }

  lemma DeliveryIs(s: Node, e: Event)
    requires Inv(s) && Serving(s) && Possible(s, e) && e.DeliverFrame?
    ensures
      var t, k := Next(s, e), s.workers[e.worker];
      if s.stage.Fenced? then t.deliveries == s.deliveries
      else
        && (k.epoch, k.generation) in s.chosen
        && t.deliveries == s.deliveries + [Delivery(e.worker, k.callback.frame, k.epoch, k.generation,
                                                    s.chosen[(k.epoch, k.generation)])]
  {
    hide DeliveriesInv;
    assert WorkerInv(s, e.worker);
    assert AuthorityInv(s, s.workers[e.worker].epoch);
    if !s.stage.Fenced? { assert Served(s, s.workers[e.worker]); }
  }
}
