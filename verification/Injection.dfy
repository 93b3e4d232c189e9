/** Correction injection: source workers, the generation-fenced authority, and the break-before-make
    reconfiguration, as interleaved steps. Each activation creates a new authority object with new
    sinks; its number is its epoch. Generations restart at 0 in every new authority. */
module Injection {
  import opened Common

  datatype Transport = Usb | Dds

  // ---------------------------------------------------------------- the authority

  /** `open`: which of the two sinks holds its device. */
  datatype Authority = Authority(generation: nat, selected: Option<Transport>, open: set<Transport>)

  const FRESH: Authority := Authority(0, None, {})

  function CloseSelected(a: Authority): Authority {
    a.(open := if a.selected.Some? then a.open - {a.selected.value} else a.open, selected := None)
  }

  function SwitchTo(a: Authority, t: Transport, opens: bool): Authority {
    var c := CloseSelected(a.(generation := a.generation + 1));
    c.(selected := Some(t), open := if opens then c.open + {t} else c.open)
  }

  function Stop(a: Authority): Authority {
    CloseSelected(a.(generation := a.generation + 1))
  }

  /** A callback of this generation may use the selected sink. */
  predicate Admits(a: Authority, generation: nat) {
    a.selected.Some? && generation == a.generation
  }

  /** The sink may reopen or lose its device while delivering. */
  function AfterDelivery(a: Authority, generation: nat, holds: bool): Authority {
    if !Admits(a, generation) then a
    else a.(open := if holds then a.open + {a.selected.value} else a.open - {a.selected.value})
  }

  /** Only the selected sink is ever open. */
  predicate Exclusive(a: Authority) {
    forall t :: t in a.open ==> a.selected == Some(t)
  }

  class InjectionAuthority {
    var generation: nat
    var selected: Option<Transport>
    var usbOpen: bool
    var ddsOpen: bool

    function Model(): Authority
      reads this
    {
      Authority(generation, selected, (if usbOpen then {Usb} else {}) + (if ddsOpen then {Dds} else {}))
    }

    constructor ()
      ensures Model() == FRESH
    {
      generation, selected, usbOpen, ddsOpen := 0, None, false, false;
    }

    method CloseCurrent()
      modifies this
      ensures Model() == CloseSelected(old(Model()))
    {
      if selected == Some(Usb) { usbOpen := false; }
      if selected == Some(Dds) { ddsOpen := false; }
      selected := None;
    }

    /** The generation changes before the old sink closes; the new sink is selected even when it
        does not open, and there is no fallback to the other one. */
    method DoSwitchTo(t: Transport, opens: bool) returns (g: nat)
      requires Exclusive(Model())
      modifies this
      ensures Model() == SwitchTo(old(Model()), t, opens) && g == generation && Exclusive(Model())
    {
      generation := generation + 1;
      CloseCurrent();
      if opens {
        if t == Usb { usbOpen := true; } else { ddsOpen := true; }
      }
      selected := Some(t);
      g := generation;
    }

    method DoStop()
      requires Exclusive(Model())
      modifies this
      ensures Model() == Stop(old(Model())) && Exclusive(Model())
    {
      generation := generation + 1;
      CloseCurrent();
    }

    /** `holds` and `accepted` are what the sink does with the frame. */
    method DoDeliver(g: nat, holds: bool, accepted: bool) returns (delivered: bool)
      requires Exclusive(Model())
      modifies this
      ensures Model() == AfterDelivery(old(Model()), g, holds) && Exclusive(Model())
      ensures delivered <==> Admits(old(Model()), g) && accepted
    {
      if selected.None? || g != generation { return false; }
      assert usbOpen ==> Usb in Model().open;
      assert ddsOpen ==> Dds in Model().open;
      assert !(usbOpen && selected == Some(Dds)) && !(ddsOpen && selected == Some(Usb));
      match selected.value {
        case Usb => usbOpen := holds;
        case Dds => ddsOpen := holds;
      }
      assert Model().open == AfterDelivery(old(Model()), g, holds).open;
      delivered := accepted;
    }
  }

  // ---------------------------------------------------------------- the node

  type Frame = seq<Byte>

  datatype Callback =
    | Idle
    | Entered(frame: Frame)               // the source handed over a frame
    | Holding(frame: Frame, epoch: nat)   // the authority pointer has been read

  datatype Worker = Worker(epoch: nat, generation: nat, alive: bool, callback: Callback)

  /** Where the (serialised) reconfiguration is. */
  datatype Stage =
    | Settled
    | Detached(leaving: Option<nat>)   // the workers are taken out of the node
    | Fenced(leaving: Option<nat>)     // the authority is stopped
    | Joined                       // the workers are joined; also the stage before construction
    | SinksReplaced
    | AuthorityReplaced
    | Switched

  datatype Delivery = Delivery(worker: nat, frame: Frame, epoch: nat, generation: nat, transport: Transport)

  datatype Node = Node(
    stage: Stage,
    authorities: seq<Authority>,         // by epoch
    current: Option<nat>,                // the epoch the node's pointer refers to
    sinks: Option<nat>,                  // the epoch of the installed sink objects
    slot: Option<nat>,                   // the worker the node owns
    workers: seq<Worker>,
    deliveries: seq<Delivery>,
    chosen: map<(nat, nat), Transport>,  // transport selected for an (epoch, generation)
    fenced: map<nat, nat>)               // epoch -> number of deliveries when it was stopped

  function Boot(): Node {
    Node(Joined, [], None, None, None, [], [], map[], map[])
  }

  datatype Event =
    | BeginReconfigure
    | StopAuthority
    | JoinWorkers
    | SkipJoin                  // not a step of the source: see JoinIsNeeded
    | ActivationFails
    | ReplaceSinks
    | ReplaceAuthority
    | StayStopped
    | SwitchTransport(transport: Transport, opens: bool)
    | StartWorker
    | NoSource
    | FrameArrives(worker: nat, frame: Frame)
    | ReadPointer(worker: nat)
    | DeliverFrame(worker: nat, holds: bool)

  predicate Possible(s: Node, e: Event) {
    match e
    case BeginReconfigure => s.stage == Settled
    case StopAuthority => s.stage.Detached?
    case JoinWorkers =>
      // stop() returns only when the worker thread has ended, so no callback of it is running
      s.stage.Fenced? &&
      (s.stage.leaving.Some? ==>
        s.stage.leaving.value < |s.workers| && s.workers[s.stage.leaving.value].callback == Idle)
    case SkipJoin => s.stage.Fenced?
    case ActivationFails => s.stage == Joined && s.current.Some?
    case ReplaceSinks => s.stage == Joined
    case ReplaceAuthority => s.stage == SinksReplaced
    case StayStopped => s.stage == AuthorityReplaced
    case SwitchTransport(_, _) => s.stage == AuthorityReplaced && s.current.Some? && s.current.value < |s.authorities|
    case StartWorker => s.stage == Switched && s.current.Some? && s.current.value < |s.authorities|
    case NoSource => s.stage == Switched
    case FrameArrives(w, _) => w < |s.workers| && s.workers[w].alive && s.workers[w].callback == Idle
    case ReadPointer(w) => w < |s.workers| && s.workers[w].alive && s.workers[w].callback.Entered?
    case DeliverFrame(w, _) =>
      w < |s.workers| && s.workers[w].alive && s.workers[w].callback.Holding?
      && s.workers[w].callback.epoch < |s.authorities|
  }

  function WithCallback(s: Node, w: nat, c: Callback): Node
    requires w < |s.workers|
  {
    s.(workers := s.workers[w := s.workers[w].(callback := c)])
  }

  function Next(s: Node, e: Event): Node
    requires Possible(s, e)
  {
    match e
    case BeginReconfigure => s.(stage := Detached(s.slot), slot := None)
    case StopAuthority =>
      if s.current.None? || s.current.value >= |s.authorities| then s.(stage := Fenced(s.stage.leaving))
      else
        var c := s.current.value;
        s.(stage := Fenced(s.stage.leaving),
           authorities := s.authorities[c := Stop(s.authorities[c])],
           fenced := if c in s.fenced then s.fenced else s.fenced[c := |s.deliveries|])
    case JoinWorkers =>
      match s.stage.leaving {
        case None => s.(stage := Joined)
        case Some(w) => s.(stage := Joined, workers := s.workers[w := s.workers[w].(alive := false)])
      }
    case SkipJoin => s.(stage := Joined)
    case ActivationFails => s.(stage := Settled)
    case ReplaceSinks => s.(stage := SinksReplaced, sinks := Some(|s.authorities|))
    case ReplaceAuthority =>
      s.(stage := AuthorityReplaced, current := Some(|s.authorities|), authorities := s.authorities + [FRESH])
    case StayStopped => s.(stage := Settled)
    case SwitchTransport(t, opens) =>
      var c := s.current.value;
      var a := SwitchTo(s.authorities[c], t, opens);
      s.(stage := Switched, authorities := s.authorities[c := a], chosen := s.chosen[(c, a.generation) := t])
    case StartWorker =>
      var c := s.current.value;
      s.(stage := Settled, slot := Some(|s.workers|),
         workers := s.workers + [Worker(c, s.authorities[c].generation, true, Idle)])
    case NoSource => s.(stage := Settled)
    case FrameArrives(w, f) => WithCallback(s, w, Entered(f))
    case ReadPointer(w) =>
      WithCallback(s, w, if s.current.None? then Idle else Holding(s.workers[w].callback.frame, s.current.value))
    case DeliverFrame(w, holds) =>
      var worker := s.workers[w];
      var c := worker.callback.epoch;
      var a := s.authorities[c];
      var done := WithCallback(s, w, Idle);
      if !Admits(a, worker.generation) then done
      else done.(authorities := s.authorities[c := AfterDelivery(a, worker.generation, holds)],
                 deliveries := s.deliveries +
                   [Delivery(w, worker.callback.frame, c, worker.generation, a.selected.value)])
  }

  function Run(s: Node, es: seq<Event>): Option<Node>
    decreases |es|
  {
    if es == [] then Some(s)
    else if !Possible(s, es[0]) then None
    else Run(Next(s, es[0]), es[1..])
  }

  // ---------------------------------------------------------------- invariants

  /** The worker that the current reconfiguration (or the node) still owns. */
  function Owned(s: Node): Option<nat> {
    match s.stage
    case Detached(w) => w
    case Fenced(w) => w
    case _ => s.slot
  }

  /** Only the owned worker runs; it belongs to the current authority, whose sinks are installed. */
  ghost predicate WorkersInv(s: Node) {
    && (forall w :: 0 <= w < |s.workers| ==> WorkerInv(s, w))
    && (s.slot.Some? ==> s.slot.value < |s.workers| && s.stage == Settled)
    && (Owned(s).Some? ==> Owned(s).value < |s.workers|)
  }

  ghost predicate WorkerInv(s: Node, w: nat)
    requires w < |s.workers|
  {
    var k := s.workers[w];
    && k.epoch < |s.authorities| && 0 < k.generation <= s.authorities[k.epoch].generation
    && (k.epoch, k.generation) in s.chosen
    && (k.alive ==> Owned(s) == Some(w) && s.current == Some(k.epoch) && s.sinks == Some(k.epoch))
    && (!k.alive ==> k.callback == Idle)
    && (k.callback.Holding? ==> k.callback.epoch == k.epoch)
  }

  /** Authorities: the node points at the newest one; older ones, and the current one once fenced,
      admit nobody. */
  ghost predicate AuthoritiesInv(s: Node) {
    && (s.current.Some? <==> s.authorities != [])
    && (s.current.Some? ==> s.current.value == |s.authorities| - 1)
    && (s.sinks.Some? ==> s.sinks.value == if s.stage == SinksReplaced then |s.authorities| else |s.authorities| - 1)
    && (s.stage != Joined || s.current.Some? ==> s.sinks.Some?)
    && (!s.stage.Joined? && !s.stage.SinksReplaced? ==> s.current.Some?)
    && (forall c :: 0 <= c < |s.authorities| ==> AuthorityInv(s, c))
    && (forall c :: c in s.fenced ==> c < |s.authorities|)
    && (forall k :: k in s.chosen ==> k.0 < |s.authorities|)
    && (s.stage.Fenced? || (s.stage.Joined? && s.current.Some?) || (s.stage.SinksReplaced? && s.current.Some?) ==>
        s.current.value in s.fenced)
    && (s.stage == AuthorityReplaced ==> s.authorities[s.current.value] == FRESH && s.current.value !in s.fenced)
    && (s.stage == Switched ==> s.authorities[s.current.value].selected.Some? && s.current.value !in s.fenced)
  }

  ghost predicate AuthorityInv(s: Node, c: nat)
    requires c < |s.authorities|
  {
    var a := s.authorities[c];
    && Exclusive(a)
    && (c < |s.authorities| - 1 ==> c in s.fenced)
    && (c in s.fenced ==> a.selected == None)
    && (a.selected.Some? ==> (c, a.generation) in s.chosen && s.chosen[(c, a.generation)] == a.selected.value)
    && (forall g :: (c, g) in s.chosen ==> 0 < g <= a.generation)
  }

  /** Every delivery went to the sinks of its worker's own activation, through the transport chosen
      for its worker's generation, and before that authority was fenced. */
  ghost predicate DeliveriesInv(s: Node) {
    && (forall i :: 0 <= i < |s.deliveries| ==> DeliveryInv(s, i))
    && (forall c :: c in s.fenced ==> s.fenced[c] <= |s.deliveries|)
  }

  ghost predicate DeliveryInv(s: Node, i: nat)
    requires i < |s.deliveries|
  {
    var d := s.deliveries[i];
    && d.worker < |s.workers|
    && d.epoch == s.workers[d.worker].epoch && d.generation == s.workers[d.worker].generation
    && (d.epoch, d.generation) in s.chosen && s.chosen[(d.epoch, d.generation)] == d.transport
    && (d.epoch in s.fenced ==> i < s.fenced[d.epoch])
  }

  ghost predicate Inv(s: Node) {
    AuthoritiesInv(s) && WorkersInv(s) && DeliveriesInv(s)
  }

  // ---------------------------------------------------------------- one step

  /** Steps that leave the authorities alone. */
  predicate Bookkeeping(e: Event) {
    !e.StopAuthority? && !e.ReplaceAuthority? && !e.SwitchTransport? && !e.DeliverFrame? && !e.SkipJoin?
  }

  lemma BookkeepingKeeps(s: Node, e: Event)
    requires Inv(s) && Possible(s, e) && Bookkeeping(e)
    ensures AuthoritiesInv(Next(s, e))
  {
    hide DeliveriesInv, WorkersInv;
    var t := Next(s, e);
    forall c | 0 <= c < |t.authorities|
      ensures AuthorityInv(t, c)
    {
      assert AuthorityInv(s, c);
    }
  }

  lemma StopKeeps(s: Node, e: Event)
    requires Inv(s) && Possible(s, e) && (e.StopAuthority? || e.ReplaceAuthority?)
    ensures AuthoritiesInv(Next(s, e))
  {
    hide DeliveriesInv, WorkersInv;
    var t := Next(s, e);
    forall c | 0 <= c < |t.authorities|
      ensures AuthorityInv(t, c)
    {
      if c < |s.authorities| { assert AuthorityInv(s, c); }
    }
  }

  lemma SwitchKeeps(s: Node, e: Event)
    requires Inv(s) && Possible(s, e) && e.SwitchTransport?
    ensures AuthoritiesInv(Next(s, e))
  {
    hide DeliveriesInv, WorkersInv;
    var t := Next(s, e);
    forall c | 0 <= c < |t.authorities|
      ensures AuthorityInv(t, c)
    {
      assert AuthorityInv(s, c);
    }
  }

  lemma DeliverKeeps(s: Node, e: Event)
    requires Inv(s) && Possible(s, e) && e.DeliverFrame?
    ensures AuthoritiesInv(Next(s, e))
  {
    hide DeliveriesInv;
    assert WorkerInv(s, e.worker);
    var t := Next(s, e);
    forall c | 0 <= c < |t.authorities|
      ensures AuthorityInv(t, c)
    {
      assert AuthorityInv(s, c);
    }
  }

  lemma AuthoritiesKept(s: Node, e: Event)
    requires Inv(s) && Possible(s, e) && !e.SkipJoin?
    ensures AuthoritiesInv(Next(s, e))
  {
    hide Inv, AuthoritiesInv, Next;
    if Bookkeeping(e) { BookkeepingKeeps(s, e); }
    else if e.SwitchTransport? { SwitchKeeps(s, e); }
    else if e.DeliverFrame? { DeliverKeeps(s, e); }
    else { StopKeeps(s, e); }
  }

  lemma WorkerStepKeeps(s: Node, e: Event)
    requires Inv(s) && Possible(s, e) && (e.FrameArrives? || e.ReadPointer? || e.DeliverFrame?)
    ensures WorkersInv(Next(s, e))
  {
    hide DeliveriesInv;
    var t := Next(s, e);
    assert WorkerInv(s, e.worker);
    forall w | 0 <= w < |t.workers|
      ensures WorkerInv(t, w)
    {
      assert WorkerInv(s, w);
    }
  }

  lemma WorkersKept(s: Node, e: Event)
    requires Inv(s) && Possible(s, e) && !e.SkipJoin?
    ensures WorkersInv(Next(s, e))
  {
    hide DeliveriesInv;
    if e.FrameArrives? || e.ReadPointer? || e.DeliverFrame? {
      WorkerStepKeeps(s, e);
      return;
    }
    var t := Next(s, e);
    if e.StartWorker? { assert AuthorityInv(s, s.current.value); }
    if e.JoinWorkers? && s.stage.leaving.Some? { assert WorkerInv(s, s.stage.leaving.value); }
    forall w | 0 <= w < |t.workers|
      ensures WorkerInv(t, w)
    {
      if w < |s.workers| { assert WorkerInv(s, w); }
    }
  }

  lemma DeliveriesKept(s: Node, e: Event)
    requires Inv(s) && Possible(s, e) && !e.SkipJoin?
    ensures DeliveriesInv(Next(s, e))
  {
    var t := Next(s, e);
    hide Exclusive;
    if e.DeliverFrame? { assert WorkerInv(s, e.worker); assert AuthorityInv(s, s.workers[e.worker].epoch); }
    if e.SwitchTransport? {
      var c := s.current.value;
      assert AuthorityInv(s, c);
      assert (c, s.authorities[c].generation + 1) !in s.chosen;
    }
    forall i | 0 <= i < |t.deliveries|
      ensures DeliveryInv(t, i)
    {
      if i < |s.deliveries| { assert DeliveryInv(s, i); }
    }
  }

  lemma StepKeeps(s: Node, e: Event)
    requires Inv(s) && Possible(s, e) && !e.SkipJoin?
    ensures Inv(Next(s, e))
  {
    hide AuthoritiesInv, WorkersInv, DeliveriesInv, Next;
    AuthoritiesKept(s, e);
    WorkersKept(s, e);
    DeliveriesKept(s, e);
  }

  lemma {:induction false} RunKeeps(s: Node, es: seq<Event>)
    requires Inv(s) && Run(s, es).Some? && SkipJoin !in es
    ensures Inv(Run(s, es).value)
    decreases |es|
  {
    hide Inv, Next;
    if es != [] {
      StepKeeps(s, es[0]);
      RunKeeps(Next(s, es[0]), es[1..]);
    }
  }

  // ---------------------------------------------------------------- whole runs

  /** In every interleaving of worker callbacks with reconfigurations: a frame reaches only a sink
      of its own worker's activation, over the transport selected for its worker's generation. */
  lemma OnlyOwnSink(es: seq<Event>)
    requires Run(Boot(), es).Some? && SkipJoin !in es
    ensures
      var s := Run(Boot(), es).value;
      forall i :: 0 <= i < |s.deliveries| ==>
        var d := s.deliveries[i];
        && d.worker < |s.workers|
        && d.epoch == s.workers[d.worker].epoch && d.generation == s.workers[d.worker].generation
        && (d.epoch, d.generation) in s.chosen && s.chosen[(d.epoch, d.generation)] == d.transport
  {
    hide Run;
    RunKeeps(Boot(), es);
    var s := Run(Boot(), es).value;
    forall i | 0 <= i < |s.deliveries|
      ensures DeliveryInv(s, i)
      ensures
        var d := s.deliveries[i];
        && d.worker < |s.workers|
        && d.epoch == s.workers[d.worker].epoch && d.generation == s.workers[d.worker].generation
        && (d.epoch, d.generation) in s.chosen && s.chosen[(d.epoch, d.generation)] == d.transport
    {
      assert DeliveryInv(s, i);
    }
  }

  /** Nothing is delivered through an authority after it was stopped, nor through any but the
      newest. */
  lemma NoneAfterStop(es: seq<Event>)
    requires Run(Boot(), es).Some? && SkipJoin !in es
    ensures
      var s := Run(Boot(), es).value;
      && (forall i :: 0 <= i < |s.deliveries| && s.deliveries[i].epoch in s.fenced ==>
          i < s.fenced[s.deliveries[i].epoch])
      && (forall c :: 0 <= c < |s.authorities| && Some(c) != s.current ==>
          c in s.fenced && forall g :: !Admits(s.authorities[c], g))
  {
    hide Run;
    RunKeeps(Boot(), es);
    var s := Run(Boot(), es).value;
    forall i | 0 <= i < |s.deliveries| && s.deliveries[i].epoch in s.fenced
      ensures i < s.fenced[s.deliveries[i].epoch]
    {
      assert DeliveryInv(s, i);
    }
    forall c | 0 <= c < |s.authorities| && Some(c) != s.current
      ensures c in s.fenced && forall g :: !Admits(s.authorities[c], g)
    {
      assert AuthorityInv(s, c);
    }
  }

  /** No callback ever runs while its authority or its sinks are being or have been replaced: a
      worker in a callback belongs to the current authority, whose sinks are the installed ones, and
      no reconfiguration is past the join. */
  lemma NoStaleCallback(es: seq<Event>, w: nat)
    requires Run(Boot(), es).Some? && SkipJoin !in es
    requires w < |Run(Boot(), es).value.workers| && Run(Boot(), es).value.workers[w].callback != Idle
    ensures
      var s := Run(Boot(), es).value;
      && s.current == Some(s.workers[w].epoch) && s.sinks == s.current
      && (s.workers[w].callback.Holding? ==> Some(s.workers[w].callback.epoch) == s.current)
      && (s.stage.Settled? || s.stage.Detached? || s.stage.Fenced?)
  {
    hide Run;
    RunKeeps(Boot(), es);
    assert WorkerInv(Run(Boot(), es).value, w);
  }

  /** The two sinks of an authority are never open together, and only the selected one is open. */
  lemma SinksExclusive(es: seq<Event>, c: nat)
    requires Run(Boot(), es).Some? && SkipJoin !in es
    requires c < |Run(Boot(), es).value.authorities|
    ensures Exclusive(Run(Boot(), es).value.authorities[c])
  {
    hide Run;
    RunKeeps(Boot(), es);
    assert AuthorityInv(Run(Boot(), es).value, c);
  }

  lemma {:induction false} RunAppend(s: Node, a: seq<Event>, b: seq<Event>)
    requires Run(s, a).Some?
    ensures Run(s, a + b) == Run(Run(s, a).value, b)
    decreases |a|
  {
    hide Next, Possible;
    if a == [] {
      assert a + b == b;
    } else {
      assert (a + b)[1..] == a[1..] + b;
      RunAppend(Next(s, a[0]), a[1..], b);
    }
  }

  lemma RunFour(s: Node, e0: Event, e1: Event, e2: Event, e3: Event)
    requires Possible(s, e0) && Possible(Next(s, e0), e1)
    requires Possible(Next(Next(s, e0), e1), e2) && Possible(Next(Next(Next(s, e0), e1), e2), e3)
    ensures Run(s, [e0, e1, e2, e3]) == Some(Next(Next(Next(Next(s, e0), e1), e2), e3))
  {
    hide Next, Possible;
    var es := [e0, e1, e2, e3];
    assert es[1..] == [e1, e2, e3] && [e1, e2, e3][1..] == [e2, e3] && [e2, e3][1..] == [e3];
    assert [e3][1..] == [];
    assert Run(Next(Next(Next(s, e0), e1), e2), [e3]) == Run(Next(Next(Next(Next(s, e0), e1), e2), e3), []);
    assert Run(Next(s, e0), [e1, e2, e3]) == Run(Next(Next(s, e0), e1), [e2, e3]);
  }

  const FIRST: seq<Event> := [ReplaceSinks, ReplaceAuthority, SwitchTransport(Usb, true), StartWorker]

  const SECOND: seq<Event> := [ReplaceSinks, ReplaceAuthority, SwitchTransport(Dds, true), ReadPointer(0)]

  function Unjoined(frame: Frame): seq<Event> {
    [FrameArrives(0, frame), BeginReconfigure, StopAuthority, SkipJoin]
  }

  /** The first activation: transport USB, one worker of generation 1. */
  function Activated(): Node {
    Node(Settled, [Authority(1, Some(Usb), {Usb})], Some(0), Some(0), Some(0),
         [Worker(0, 1, true, Idle)], [], map[(0, 1) := Usb], map[])
  }

  lemma FirstActivation()
    ensures Run(Boot(), FIRST) == Some(Activated())
  {
    hide Run;
    RunFour(Boot(), ReplaceSinks, ReplaceAuthority, SwitchTransport(Usb, true), StartWorker);
    var n1 := Next(Next(Boot(), ReplaceSinks), ReplaceAuthority);
    assert n1.authorities == [FRESH];
    var n2 := Next(n1, SwitchTransport(Usb, true));
    assert SwitchTo(FRESH, Usb, true).open == {Usb};
    assert n2.authorities == [Authority(1, Some(Usb), {Usb})] && n2.chosen == map[(0, 1) := Usb];
    assert Next(n2, StartWorker).workers == [Worker(0, 1, true, Idle)];
  }

  /** A callback entered, then the authority was stopped and the join skipped. */
  function LeftBehind(frame: Frame): Node {
    Node(Joined, [Authority(2, None, {})], Some(0), Some(0), None,
         [Worker(0, 1, true, Entered(frame))], [], map[(0, 1) := Usb], map[0 := 0])
  }

  lemma UnjoinedStop(frame: Frame)
    ensures Run(Activated(), Unjoined(frame)) == Some(LeftBehind(frame))
  {
    hide Run;
    RunFour(Activated(), FrameArrives(0, frame), BeginReconfigure, StopAuthority, SkipJoin);
    var n1 := Next(Activated(), FrameArrives(0, frame));
    assert n1.workers == [Worker(0, 1, true, Entered(frame))];
    var n3 := Next(Next(n1, BeginReconfigure), StopAuthority);
    assert Stop(Authority(1, Some(Usb), {Usb})).open == {};
    assert n3.authorities == [Authority(2, None, {})] && n3.fenced == map[0 := 0];
  }

  lemma SecondActivation(frame: Frame)
    ensures
      && Run(LeftBehind(frame), SECOND).Some?
      && var s := Run(LeftBehind(frame), SECOND).value;
      && s.authorities == [Authority(2, None, {}), Authority(1, Some(Dds), {Dds})]
      && s.workers == [Worker(0, 1, true, Holding(frame, 1))]
      && s.deliveries == [] && s.chosen == map[(0, 1) := Usb, (1, 1) := Dds]
  {
    hide Run;
    RunFour(LeftBehind(frame), ReplaceSinks, ReplaceAuthority, SwitchTransport(Dds, true), ReadPointer(0));
    var n2 := Next(Next(LeftBehind(frame), ReplaceSinks), ReplaceAuthority);
    assert n2.authorities == [Authority(2, None, {}), FRESH];
    var n3 := Next(n2, SwitchTransport(Dds, true));
    assert SwitchTo(FRESH, Dds, true).open == {Dds};
    assert n3.authorities == [Authority(2, None, {}), Authority(1, Some(Dds), {Dds})];
    assert n3.chosen == map[(0, 1) := Usb, (1, 1) := Dds];
    assert Next(n3, ReadPointer(0)).workers == [Worker(0, 1, true, Holding(frame, 1))];
  }

  /** Without the join the fence does not hold: generations restart with each authority, so a
      callback that entered before the reconfiguration passes the generation check of the new
      authority and its frame goes out over the wrong transport. */
  lemma JoinIsNeeded(frame: Frame)
    ensures
      var es := FIRST + Unjoined(frame) + SECOND;
      && Run(Boot(), es).Some?
      && var s := Run(Boot(), es).value;
      && Possible(s, DeliverFrame(0, true))
      && var t := Next(s, DeliverFrame(0, true));
      && t.deliveries == [Delivery(0, frame, 1, 1, Dds)]
      && |t.workers| == 1 && t.workers[0].epoch == 0 && t.workers[0].generation == 1
      && (0, 1) in t.chosen && t.chosen[(0, 1)] == Usb
  {
    hide Run;
    FirstActivation();
    UnjoinedStop(frame);
    SecondActivation(frame);
    RunAppend(Boot(), FIRST, Unjoined(frame));
    RunAppend(Boot(), FIRST + Unjoined(frame), SECOND);
  }
}
