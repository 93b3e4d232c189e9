/** From a source worker to the receiver: the injection protocol, the USB sink of every activation and the frame
    validator in one run. Every activation has a USB sink object of its own; all of them stand for the same receiver. */
module CorrectionPath {
  import opened Common
  import I = Injection
  import U = UsbSink
  import R = Rtcm
  import K = Crc24q

  type Frame = seq<Byte>

  /** The sink configuration of each activation. */
  type Configs = nat -> U.Config

  /** What the device does during a delivery. */
  datatype Device = Device(now: real, opens: bool, lost: bool, attempts: seq<U.Attempt>)

  datatype Event =
    | Protocol(step: I.Event)
    | Switch(transport: I.Transport, now: real, opens: bool)
    | Stop
    | Deliver(worker: nat, device: Device, ddsHolds: bool)
    | ReadFails(epoch: nat, now: real)

  /** `ops[c]`: every call on the USB sink of activation `c`. */
  datatype Path = Path(node: I.Node, ops: seq<seq<U.Op>>)

  const BOOT: Path := Path(I.Boot(), [])

  function SinkOf(cfg: Configs, p: Path, c: nat): U.Sink
    requires c < |p.ops|
  {
    U.Run(cfg(c), U.INITIAL, p.ops[c])
  }

  /** The worker's frame goes to the USB sink. */
  predicate ToUsb(s: I.Node, w: nat) {
    && w < |s.workers| && s.workers[w].callback.Holding? && s.workers[w].callback.epoch < |s.authorities|
    && var a := s.authorities[s.workers[w].callback.epoch];
       I.Admits(a, s.workers[w].generation) && a.selected == Some(I.Usb)
  }

  predicate HasCurrent(s: I.Node) { s.current.Some? && s.current.value < |s.authorities| }

  /** The sink call an event makes: on which activation's sink, and which. */
  function CallOf(p: Path, e: Event): Option<(nat, U.Op)> {
    var s := p.node;
    match e
    case Protocol(_) => None
    case Switch(t, now, opens) =>
      if t == I.Usb && HasCurrent(s) then Some((s.current.value, U.OpenAt(now, opens))) else None
    case Stop =>
      if HasCurrent(s) && s.authorities[s.current.value].selected == Some(I.Usb)
      then Some((s.current.value, U.CloseNow)) else None
    case Deliver(w, d, _) =>
      if ToUsb(s, w)
      then Some((s.workers[w].callback.epoch,
                 U.DeliverAt(s.workers[w].callback.frame, d.now, d.opens, d.lost, d.attempts)))
      else None
    case ReadFails(c, now) => Some((c, U.ReadFails(now)))
  }

  function Called(ops: seq<seq<U.Op>>, call: Option<(nat, U.Op)>): seq<seq<U.Op>> {
    if call.Some? && call.value.0 < |ops| then ops[call.value.0 := ops[call.value.0] + [call.value.1]] else ops
  }

  /** The sink holds the device after the call. */
  predicate HoldsAfter(cfg: Configs, p: Path, e: Event) {
    var call := CallOf(p, e);
    call.Some? && call.value.0 < |p.ops| && SinkOf(cfg, p.(ops := Called(p.ops, call)), call.value.0).live.Some?
  }

  /** The protocol step of an event, with what the sinks answer. */
  function StepOf(cfg: Configs, p: Path, e: Event): Option<I.Event> {
    match e
    case Protocol(step) => Some(step)
    case Switch(t, _, opens) => Some(I.SwitchTransport(t, if t == I.Usb then HoldsAfter(cfg, p, e) else opens))
    case Stop => Some(I.StopAuthority)
    case Deliver(w, _, ddsHolds) =>
      Some(I.DeliverFrame(w, if ToUsb(p.node, w) then HoldsAfter(cfg, p, e) else ddsHolds))
    case ReadFails(_, _) => None
  }

  /** A callback goes on only with a frame that the validator accepts. */
  predicate Possible(cfg: Configs, p: Path, e: Event) {
    && (e.Protocol? ==>
          && !e.step.SwitchTransport? && !e.step.StopAuthority? && !e.step.DeliverFrame? && !e.step.SkipJoin?
          && (e.step.FrameArrives? ==> R.Validate(e.step.frame)))
    && (StepOf(cfg, p, e).Some? ==> I.Possible(p.node, StepOf(cfg, p, e).value))
  }

  function Next(cfg: Configs, p: Path, e: Event): Path
    requires Possible(cfg, p, e)
  {
    var step := StepOf(cfg, p, e);
    var ops := Called(p.ops, CallOf(p, e));
    Path(if step.Some? then I.Next(p.node, step.value) else p.node,
         if e.Protocol? && e.step.ReplaceAuthority? then ops + [[]] else ops)
  }

  function Run(cfg: Configs, p: Path, es: seq<Event>): Option<Path>
    decreases |es|
  {
    if es == [] then Some(p)
    else if !Possible(cfg, p, es[0]) then None
    else Run(cfg, Next(cfg, p, es[0]), es[1..])
  }

  // ---------------------------------------------------------------- invariant

  /** The frames handed to a sink, in order. */
  function Handed(ops: seq<U.Op>): seq<Frame> {
    if ops == [] then []
    else
      var last := ops[|ops| - 1];
      Handed(ops[..|ops| - 1]) + (if last.DeliverAt? then [last.frame] else [])
  }

  /** The frames the authority of activation `c` delivered over USB, in order. */
  function Routed(ds: seq<I.Delivery>, c: nat): seq<Frame> {
    if ds == [] then []
    else
      var d := ds[|ds| - 1];
      Routed(ds[..|ds| - 1], c) + (if d.epoch == c && d.transport == I.Usb then [d.frame] else [])
  }

  ghost predicate SinkInv(cfg: Configs, p: Path, c: nat)
    requires c < |p.ops| == |p.node.authorities|
  {
    && (SinkOf(cfg, p, c).live.Some? ==> I.Usb in p.node.authorities[c].open)
    && Handed(p.ops[c]) == Routed(p.node.deliveries, c)
  }

  /** Frames under way and delivered have been validated. */
  ghost predicate ValidInv(s: I.Node) {
    && (forall w :: 0 <= w < |s.workers| && !s.workers[w].callback.Idle? ==> R.Validate(s.workers[w].callback.frame))
    && (forall i :: 0 <= i < |s.deliveries| ==> R.Validate(s.deliveries[i].frame))
  }

  ghost predicate Inv(cfg: Configs, p: Path) {
    && I.Inv(p.node) && ValidInv(p.node)
    && |p.ops| == |p.node.authorities|
    && forall c: nat :: c < |p.ops| ==> SinkInv(cfg, p, c)
  }

  // ---------------------------------------------------------------- one event

  lemma HandedMore(ops: seq<U.Op>, op: U.Op)
    ensures Handed(ops + [op]) == Handed(ops) + (if op.DeliverAt? then [op.frame] else [])
  {
    assert (ops + [op])[..|ops|] == ops;
  }

  lemma RoutedMore(ds: seq<I.Delivery>, d: I.Delivery, c: nat)
    ensures Routed(ds + [d], c) == Routed(ds, c) + (if d.epoch == c && d.transport == I.Usb then [d.frame] else [])
  {
    assert (ds + [d])[..|ds|] == ds;
  }

  lemma SinkMore(cfg: Configs, ops: seq<U.Op>, op: U.Op, c: nat)
    ensures U.Run(cfg(c), U.INITIAL, ops + [op]) == U.Step(cfg(c), U.Run(cfg(c), U.INITIAL, ops), op)
  {
    assert (ops + [op])[..|ops|] == ops;
  }

  lemma ValidKept(cfg: Configs, p: Path, e: Event)
    requires ValidInv(p.node) && Possible(cfg, p, e)
    ensures ValidInv(Next(cfg, p, e).node)
  {
    hide R.Validate, HoldsAfter;
  }

  /** Only the newest authority, and not once it is stopped, has a sink selected or is switched. */
  lemma ActiveIsCurrent(s: I.Node, c: nat)
    requires I.Inv(s) && c < |s.authorities|
    ensures s.authorities[c].selected.Some? ==> s.current == Some(c) && c !in s.fenced
    ensures I.Usb in s.authorities[c].open ==> s.authorities[c].selected == Some(I.Usb)
    ensures s.stage == I.AuthorityReplaced && s.current == Some(c) ==> s.authorities[c] == I.FRESH && c !in s.fenced
  {
    hide I.WorkersInv, I.DeliveriesInv;
    assert I.AuthorityInv(s, c);
  }

  lemma SizesKept(cfg: Configs, p: Path, e: Event)
    requires |p.ops| == |p.node.authorities| && Possible(cfg, p, e)
    ensures |Next(cfg, p, e).ops| == |Next(cfg, p, e).node.authorities| >= |p.ops|
  {
    hide HoldsAfter, R.Validate, I.SwitchTo, I.Stop, I.AfterDelivery;
  }

  lemma ProtocolKeeps(cfg: Configs, p: Path, e: Event, c: nat)
    requires Inv(cfg, p) && Possible(cfg, p, e) && e.Protocol?
    requires c < |Next(cfg, p, e).ops| == |Next(cfg, p, e).node.authorities|
    ensures SinkInv(cfg, Next(cfg, p, e), c)
    ensures c < |p.ops| ==> SinkOf(cfg, Next(cfg, p, e), c) == SinkOf(cfg, p, c)
  {
    hide I.Inv, ValidInv, R.Validate;
    var t := Next(cfg, p, e);
    assert t.node.deliveries == p.node.deliveries;
    if c < |p.ops| {
      assert SinkInv(cfg, p, c);
      assert t.ops[c] == p.ops[c] && t.node.authorities[c] == p.node.authorities[c];
    } else {
      NothingRouted(p.node, c);
    }
  }

  /** An activation that is still to come has no deliveries. */
  lemma NothingRouted(s: I.Node, c: nat)
    requires I.Inv(s) && c >= |s.authorities|
    ensures Routed(s.deliveries, c) == []
  {
    hide I.AuthoritiesInv;
    forall i | 0 <= i < |s.deliveries|
      ensures s.deliveries[i].epoch < |s.authorities|
    {
      assert I.DeliveryInv(s, i) && I.WorkerInv(s, s.deliveries[i].worker);
    }
    hide I.Inv;
    NotRouted(s.deliveries, c);
  }

  lemma {:induction false} NotRouted(ds: seq<I.Delivery>, c: nat)
    requires forall i :: 0 <= i < |ds| ==> ds[i].epoch != c
    ensures Routed(ds, c) == []
  {
    if ds != [] { NotRouted(ds[..|ds| - 1], c); }
  }

  lemma SwitchKeeps(cfg: Configs, p: Path, e: Event, c: nat)
    requires Inv(cfg, p) && Possible(cfg, p, e) && e.Switch?
    requires c < |p.ops| && |Next(cfg, p, e).ops| == |p.ops| == |Next(cfg, p, e).node.authorities|
    ensures SinkInv(cfg, Next(cfg, p, e), c)
  {
    hide I.Inv, ValidInv, U.Step, Handed;
    var t := Next(cfg, p, e);
    assert SinkInv(cfg, p, c);
    ActiveIsCurrent(p.node, c);
    if p.node.current == Some(c) {
      if e.transport == I.Usb { HandedMore(p.ops[c], U.OpenAt(e.now, e.opens)); }
    } else {
      assert t.ops[c] == p.ops[c] && t.node.authorities[c] == p.node.authorities[c];
    }
  }

  lemma StopKeeps(cfg: Configs, p: Path, e: Event, c: nat)
    requires Inv(cfg, p) && Possible(cfg, p, e) && e.Stop?
    requires c < |p.ops| && |Next(cfg, p, e).ops| == |p.ops| == |Next(cfg, p, e).node.authorities|
    ensures SinkInv(cfg, Next(cfg, p, e), c)
  {
    hide I.Inv, ValidInv, Handed, Routed, U.Run, HoldsAfter, I.Exclusive;
    var s, t := p.node, Next(cfg, p, e);
    assert SinkInv(cfg, p, c);
    ActiveIsCurrent(s, c);
    assert t.node.deliveries == s.deliveries;
    if s.current == Some(c) && s.authorities[c].selected == Some(I.Usb) {
      assert t.ops[c] == p.ops[c] + [U.CloseNow];
      HandedMore(p.ops[c], U.CloseNow);
      SinkMore(cfg, p.ops[c], U.CloseNow, c);
    } else {
      assert t.ops[c] == p.ops[c];
    }
  }

  lemma DeliverKeeps(cfg: Configs, p: Path, e: Event, c: nat)
    requires Inv(cfg, p) && Possible(cfg, p, e) && e.Deliver?
    requires c < |p.ops| && |Next(cfg, p, e).ops| == |p.ops| == |Next(cfg, p, e).node.authorities|
    ensures SinkInv(cfg, Next(cfg, p, e), c)
  {
    hide I.Inv, ValidInv, Handed, Routed, U.Step, U.Run;
    var s, t := p.node, Next(cfg, p, e);
    assert SinkInv(cfg, p, c);
    var k := s.workers[e.worker];
    var a := s.authorities[k.callback.epoch];
    if I.Admits(a, k.generation) {
      var d := I.Delivery(e.worker, k.callback.frame, k.callback.epoch, k.generation, a.selected.value);
      RoutedMore(s.deliveries, d, c);
      if k.callback.epoch == c && ToUsb(s, e.worker) { HandedMore(p.ops[c], CallOf(p, e).value.1); }
    }
    if k.callback.epoch != c || !ToUsb(s, e.worker) {
      assert t.ops[c] == p.ops[c];
    }
  }

  lemma ReadFailsKeeps(cfg: Configs, p: Path, e: Event, c: nat)
    requires Inv(cfg, p) && Possible(cfg, p, e) && e.ReadFails?
    requires c < |p.ops| && |Next(cfg, p, e).ops| == |p.ops| == |Next(cfg, p, e).node.authorities|
    ensures SinkInv(cfg, Next(cfg, p, e), c)
  {
    hide I.Inv, ValidInv, Handed, U.Run;
    var t := Next(cfg, p, e);
    assert SinkInv(cfg, p, c);
    if e.epoch == c {
      HandedMore(p.ops[c], U.ReadFails(e.now));
      SinkMore(cfg, p.ops[c], U.ReadFails(e.now), c);
    } else {
      assert t.ops[c] == p.ops[c];
    }
  }

  lemma NodeKept(cfg: Configs, p: Path, e: Event)
    requires I.Inv(p.node) && Possible(cfg, p, e)
    ensures I.Inv(Next(cfg, p, e).node)
  {
    hide I.Inv, I.Next, I.Possible, HoldsAfter, R.Validate;
    var step := StepOf(cfg, p, e);
    if step.Some? { I.StepKeeps(p.node, step.value); }
  }

  lemma StepKeeps(cfg: Configs, p: Path, e: Event)
    requires Inv(cfg, p) && Possible(cfg, p, e)
    ensures Inv(cfg, Next(cfg, p, e))
  {
    hide I.Inv, ValidInv, SinkInv, Possible;
    var t := Next(cfg, p, e);
    NodeKept(cfg, p, e);
    ValidKept(cfg, p, e);
    SizesKept(cfg, p, e);
    forall c: nat | c < |t.ops|
      ensures SinkInv(cfg, t, c)
    {
      match e
      case Protocol(_) => ProtocolKeeps(cfg, p, e, c);
      case Switch(_, _, _) => SwitchKeeps(cfg, p, e, c);
      case Stop => StopKeeps(cfg, p, e, c);
      case Deliver(_, _, _) => DeliverKeeps(cfg, p, e, c);
      case ReadFails(_, _) => ReadFailsKeeps(cfg, p, e, c);
    }
  }

  lemma {:induction false} RunKeeps(cfg: Configs, p: Path, es: seq<Event>)
    requires Inv(cfg, p) && Run(cfg, p, es).Some?
    ensures Inv(cfg, Run(cfg, p, es).value)
    decreases |es|
  {
    hide Inv, Next, Possible;
    if es != [] {
      StepKeeps(cfg, p, es[0]);
      RunKeeps(cfg, Next(cfg, p, es[0]), es[1..]);
    }
  }

  lemma BootInv(cfg: Configs)
    ensures Inv(cfg, BOOT)
  {
  }

  // ---------------------------------------------------------------- whole runs

  /** A delivery to the USB sink of activation `c` by a worker of that activation. */
  ghost predicate OwnDelivery(s: I.Node, d: I.Delivery) {
    && d.worker < |s.workers| && s.workers[d.worker].epoch == d.epoch
    && s.workers[d.worker].generation == d.generation
    && (d.epoch, d.generation) in s.chosen && s.chosen[(d.epoch, d.generation)] == d.transport
  }

  /** In every run: the USB sink of an activation is handed exactly the frames its authority delivered over USB, in
      order, all of them validated and from workers of that very activation; and every write to the device is the
      beginning of one of those frames. */
  lemma OwnFramesOnly(cfg: Configs, es: seq<Event>, c: nat)
    requires Run(cfg, BOOT, es).Some? && c < |Run(cfg, BOOT, es).value.ops|
    ensures
      var p := Run(cfg, BOOT, es).value;
      && Handed(p.ops[c]) == Routed(p.node.deliveries, c)
      && (forall i :: 0 <= i < |p.node.deliveries| ==>
            OwnDelivery(p.node, p.node.deliveries[i]) && R.Validate(p.node.deliveries[i].frame))
      && (forall w :: w in U.Writes(cfg(c), p.ops[c]) ==> HandedWrite(p.ops[c], w) && R.Validate(w.frame))
  {
    hide Run, U.Writes, R.Validate, Handed, Routed;
    BootInv(cfg);
    RunKeeps(cfg, BOOT, es);
    var p := Run(cfg, BOOT, es).value;
    assert SinkInv(cfg, p, c);
    forall i | 0 <= i < |p.node.deliveries|
      ensures OwnDelivery(p.node, p.node.deliveries[i])
    {
      DeliveryIsOwn(p.node, i);
    }
    U.WritesExact(cfg(c), p.ops[c]);
    forall w | w in U.Writes(cfg(c), p.ops[c])
      ensures HandedWrite(p.ops[c], w) && R.Validate(w.frame)
    {
      WriteIsHanded(cfg(c), p.ops[c], w);
      HandedHas(p.ops[c], w.op);
      RoutedFrom(p.node.deliveries, c, w.frame);
    }
  }

  lemma DeliveryIsOwn(s: I.Node, i: nat)
    requires I.Inv(s) && i < |s.deliveries|
    ensures OwnDelivery(s, s.deliveries[i])
  {
    hide I.AuthoritiesInv, I.WorkersInv;
    assert I.DeliveryInv(s, i);
  }

  /** The write is of the frame its operation was handed. */
  ghost predicate HandedWrite(ops: seq<U.Op>, w: U.Write) {
    w.op < |ops| && ops[w.op].DeliverAt? && w.frame == ops[w.op].frame && w.sent <= |w.frame|
  }

  lemma WriteIsHanded(cfg: U.Config, ops: seq<U.Op>, w: U.Write)
    requires U.AllAt(cfg, ops, U.Writes(cfg, ops)) && w in U.Writes(cfg, ops)
    ensures HandedWrite(ops, w)
  {
    hide U.Writes, U.Run;
    assert U.WriteAt(cfg, ops, w);
  }

  lemma {:induction false} HandedHas(ops: seq<U.Op>, n: nat)
    requires n < |ops| && ops[n].DeliverAt?
    ensures ops[n].frame in Handed(ops)
  {
    if n < |ops| - 1 { HandedHas(ops[..|ops| - 1], n); }
  }

  lemma {:induction false} RoutedFrom(ds: seq<I.Delivery>, c: nat, f: Frame)
    requires f in Routed(ds, c)
    ensures exists i :: 0 <= i < |ds| && ds[i].frame == f && ds[i].epoch == c
  {
    var front, d := ds[..|ds| - 1], ds[|ds| - 1];
    if f in Routed(front, c) {
      RoutedFrom(front, c, f);
      var i :| 0 <= i < |front| && front[i].frame == f && front[i].epoch == c;
      assert ds[i] == front[i];
    } else {
      assert d.frame == f;
    }
  }

  /** Over all activations there never is more than one open USB session, and none of a stopped or replaced one. */
  lemma OneSession(cfg: Configs, es: seq<Event>)
    requires Run(cfg, BOOT, es).Some?
    ensures
      var p := Run(cfg, BOOT, es).value;
      forall c: nat :: c < |p.ops| && SinkOf(cfg, p, c).live.Some? ==> p.node.current == Some(c) && c !in p.node.fenced
  {
    hide Run;
    BootInv(cfg);
    RunKeeps(cfg, BOOT, es);
    var p := Run(cfg, BOOT, es).value;
    forall c: nat | c < |p.ops| && SinkOf(cfg, p, c).live.Some?
      ensures p.node.current == Some(c) && c !in p.node.fenced
    {
      LiveIsCurrent(cfg, p, c);
    }
  }

  lemma LiveIsCurrent(cfg: Configs, p: Path, c: nat)
    requires Inv(cfg, p) && c < |p.ops| && SinkOf(cfg, p, c).live.Some?
    ensures p.node.current == Some(c) && c !in p.node.fenced
  {
    hide I.Inv, ValidInv, SinkOf;
    assert SinkInv(cfg, p, c);
    ActiveIsCurrent(p.node, c);
  }

  lemma FencedStays(s: I.Node, e: I.Event, c: nat)
    requires I.Possible(s, e) && c in s.fenced
    ensures c in I.Next(s, e).fenced
  {
    hide I.SwitchTo, I.Stop, I.AfterDelivery;
  }

  /** One more event leaves the sink of a stopped activation as it is. */
  lemma FrozenStep(cfg: Configs, p: Path, e: Event, c: nat)
    requires Inv(cfg, p) && Possible(cfg, p, e) && c < |p.ops| && c in p.node.fenced
    ensures var t := Next(cfg, p, e);
            && c < |t.ops| && c in t.node.fenced
            && SinkOf(cfg, p, c).live.None? && SinkOf(cfg, t, c) == SinkOf(cfg, p, c)
  {
    hide I.Inv, ValidInv, U.Run, HoldsAfter, R.Validate, I.Next;
    var t := Next(cfg, p, e);
    SizesKept(cfg, p, e);
    if StepOf(cfg, p, e).Some? { FencedStays(p.node, StepOf(cfg, p, e).value, c); }
    assert SinkOf(cfg, p, c).live.None? by {
      if SinkOf(cfg, p, c).live.Some? { LiveIsCurrent(cfg, p, c); }
    }
    ActiveIsCurrent(p.node, c);
    if e.ReadFails? && e.epoch == c {
      SinkMore(cfg, p.ops[c], U.ReadFails(e.now), c);
    } else {
      assert t.ops[c] == p.ops[c];
    }
  }

  lemma {:induction false} Frozen(cfg: Configs, p: Path, es: seq<Event>, c: nat)
    requires Inv(cfg, p) && Run(cfg, p, es).Some? && c < |p.ops| && c in p.node.fenced
    ensures var q := Run(cfg, p, es).value;
            && c < |q.ops| && SinkOf(cfg, q, c).live.None? && SinkOf(cfg, q, c) == SinkOf(cfg, p, c)
    decreases |es|
  {
    hide Inv, Next, Possible, SinkOf;
    if es == [] {
      assert SinkOf(cfg, p, c).live.None? by {
        if SinkOf(cfg, p, c).live.Some? { LiveIsCurrent(cfg, p, c); }
      }
    } else {
      FrozenStep(cfg, p, es[0], c);
      StepKeeps(cfg, p, es[0]);
      Frozen(cfg, Next(cfg, p, es[0]), es[1..], c);
    }
  }

  /** A stop closes the session, and whatever happens afterwards nothing reaches the device through that activation's
      sink. */
  lemma NothingAfterStop(cfg: Configs, before: seq<Event>, after: seq<Event>, c: nat)
    requires Run(cfg, BOOT, before).Some? && Run(cfg, Run(cfg, BOOT, before).value, after).Some?
    requires c < |Run(cfg, BOOT, before).value.ops| && c in Run(cfg, BOOT, before).value.node.fenced
    ensures var p := Run(cfg, BOOT, before).value;
            var q := Run(cfg, p, after).value;
            && c < |q.ops| && SinkOf(cfg, q, c) == SinkOf(cfg, p, c) && SinkOf(cfg, p, c).live.None?
  {
    hide Run, Inv;
    BootInv(cfg);
    RunKeeps(cfg, BOOT, before);
    Frozen(cfg, Run(cfg, BOOT, before).value, after, c);
  }

  // ---------------------------------------------------------------- the receiver

  lemma {:induction false} JoinedIsFlat(frames: seq<Frame>)
    ensures U.Joined(frames) == R.Flatten(frames)
  {
    if frames != [] {
      var front, f := frames[..|frames| - 1], frames[|frames| - 1];
      JoinedIsFlat(front);
      FlatMore(front, f);
      assert front + [f] == frames;
    }
  }

  lemma {:induction false} FlatMore(frames: seq<Frame>, f: Frame)
    ensures R.Flatten(frames + [f]) == R.Flatten(frames) + f
  {
    if frames == [] {
      assert [] + [f] == [f] && [f][1..] == [];
    } else {
      assert (frames + [f])[1..] == frames[1..] + [f];
      FlatMore(frames[1..], f);
    }
  }

  /** A frame that is cut short is no frame: the parser waits for the rest of it. */
  lemma CutFrameWaits(f: Frame, k: nat, n: R.Counters)
    requires R.Validate(f) && k < |f|
    ensures R.Parse(f[..k], n) == R.Parsed([], n, f[..k])
  {
    hide K.Crc, K.Wire;
    var b := f[..k];
    if k > 0 { assert b[0] == f[0]; }
    if k >= 3 { assert b[1] == f[1] && b[2] == f[2]; }
  }

  lemma StreamParses(frames: seq<Frame>, f: Frame, k: nat, n: R.Counters)
    requires R.AllValid(frames) && R.Validate(f) && k < |f|
    ensures R.Parse(U.Joined(frames) + f[..k], n).frames == frames
    ensures R.Parse(U.Joined(frames) + f[..k], n).rest == f[..k]
  {
    hide R.Parse, R.Validate, U.Joined, R.AllValid;
    JoinedIsFlat(frames);
    R.FramesRoundTrip(frames, n);
    R.ParseSplit(R.Flatten(frames), f[..k], n);
    assert [] + f[..k] == f[..k];
    CutFrameWaits(f, k, R.Parse(R.Flatten(frames), n).counters);
    assert frames + [] == frames;
  }

  /** The frames of a session come from writes to it. */
  lemma {:induction false} WholesFrom(ws: seq<U.Write>, f: Frame)
    requires f in U.Wholes(ws)
    ensures exists w :: w in ws && w.frame == f
  {
    var front, w := ws[..|ws| - 1], ws[|ws| - 1];
    if f in U.Wholes(front) { WholesFrom(front, f); } else { assert w in ws && w.frame == f; }
  }

  lemma {:induction false} InSessionFrom(ws: seq<U.Write>, r: nat, w: U.Write)
    requires w in U.InSession(ws, r)
    ensures w in ws
  {
    var front := ws[..|ws| - 1];
    if w in U.InSession(front, r) { InSessionFrom(front, r, w); }
  }

  /** What the receiver makes of any session of any activation: a fresh parser fed its bytes finds exactly the frames
      whose writes were completed, and is left with the beginning of at most one more. */
  lemma ReceiverGets(cfg: Configs, es: seq<Event>, c: nat, r: nat, n: R.Counters)
    requires Run(cfg, BOOT, es).Some? && c < |Run(cfg, BOOT, es).value.ops|
    requires var t := SinkOf(cfg, Run(cfg, BOOT, es).value, c); r < |t.past + U.Live(t)|
    ensures
      var t := SinkOf(cfg, Run(cfg, BOOT, es).value, c);
      var x := (t.past + U.Live(t))[r];
      && R.AllValid(x.frames) && R.Parse(x.bytes, n).frames == x.frames
      && (r == |t.past| ==> R.Parse(x.bytes, n).rest == [])
  {
    hide Run, U.Run, U.Writes, R.Validate, R.Parse, U.InSession, U.Received, U.Counted, U.Joined, Handed, Routed;
    var ops := Run(cfg, BOOT, es).value.ops[c];
    var t, mine := U.Run(cfg(c), U.INITIAL, ops), U.InSession(U.Writes(cfg(c), ops), r);
    var x := (t.past + U.Live(t))[r];
    OwnFramesOnly(cfg, es, c);
    U.FramesNeverRestart(cfg(c), ops);
    forall w | w in mine
      ensures R.Validate(w.frame)
    {
      InSessionFrom(U.Writes(cfg(c), ops), r, w);
    }
    assert x.frames == U.Wholes(mine) by { ReceivedFrames(x, mine, r < |t.past|); }
    WholesValid(mine);
    U.SessionBytes(cfg(c), ops, r);
    if mine == [] || U.Complete(mine[|mine| - 1]) {
      JoinedIsFlat(x.frames);
      R.FramesRoundTrip(x.frames, n);
    } else {
      var cut := mine[|mine| - 1];
      assert cut in mine;
      StreamParses(x.frames, cut.frame, cut.sent, n);
    }
  }

  lemma ReceivedFrames(x: U.Session, mine: seq<U.Write>, closed: bool)
    requires U.Received(x, mine, closed)
    ensures x.frames == U.Wholes(mine)
  {
  }

  lemma WholesValid(ws: seq<U.Write>)
    requires forall w :: w in ws ==> R.Validate(w.frame)
    ensures R.AllValid(U.Wholes(ws))
  {
    forall f | f in U.Wholes(ws)
      ensures |f| >= 6 && R.Validate(f)
    {
      WholesFrom(ws, f);
    }
  }
}
