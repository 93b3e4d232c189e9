/** The direct serial sink: a frame goes out through partial writes whose results the device
    chooses. What the device received is kept per open session. */
module UsbSink {
  import opened Common

  type Frame = seq<Byte>

  /** What one write attempt came to. `Again` covers an interrupted call and a full buffer that
      became writable in time; `Fail` everything else, a write of nothing included. */
  datatype Attempt = Wrote(n: nat) | Again | Fail

  /** Complete frames and bytes the device received since it was opened. */
  datatype Session = Session(frames: seq<Frame>, bytes: seq<Byte>)

  datatype Counters = Counters(framesDelivered: nat, bytesDelivered: nat, failures: nat, opens: nat, reopens: nat)

  datatype Config = Config(hasDevice: bool, reopenDelay: real)

  datatype Sink = Sink(
    live: Option<Session>,
    past: seq<Session>,
    everOpened: bool,
    nextOpen: real,
    counters: Counters)

  const INITIAL: Sink := Sink(None, [], false, 0.0, Counters(0, 0, 0, 0, 0))

  // ---------------------------------------------------------------- operations

  function Open(cfg: Config, s: Sink, now: real, opens: bool): Sink {
    if s.live.Some? || !cfg.hasDevice || now < s.nextOpen then s
    else if !opens then
      s.(counters := s.counters.(failures := s.counters.failures + 1), nextOpen := now + cfg.reopenDelay)
    else
      s.(live := Some(Session([], [])), everOpened := true,
         counters := s.counters.(opens := s.counters.opens + 1,
                                 reopens := s.counters.reopens + (if s.everOpened then 1 else 0)))
  }

  function Close(s: Sink): Sink {
    match s.live
    case None => s
    case Some(session) => s.(live := None, past := s.past + [session])
  }

  /** A failure closes the device and holds off the next open. */
  function Broken(cfg: Config, s: Sink, now: real): Sink {
    Close(s).(counters := s.counters.(failures := s.counters.failures + 1), nextOpen := now + cfg.reopenDelay)
  }

  /** How far the write loop gets, from an offset, and whether it finished the frame. */
  function Push(frame: Frame, offset: nat, attempts: seq<Attempt>): (r: (nat, bool))
    requires offset <= |frame|
    ensures offset <= r.0 <= |frame|
    ensures r.1 <==> r.0 == |frame|
    decreases |attempts|
  {
    if offset == |frame| then (offset, true)
    else if attempts == [] then (offset, false)
    else match attempts[0]
      case Wrote(n) =>
        if n == 0 then (offset, false)
        else Push(frame, offset + (if n < |frame| - offset then n else |frame| - offset), attempts[1..])
      case Again => Push(frame, offset, attempts[1..])
      case Fail => (offset, false)
  }

  /** `lost`: another thread closed the device between the open and the writes. */
  function Deliver(cfg: Config, s: Sink, frame: Frame, now: real, opens: bool, lost: bool, attempts: seq<Attempt>): Sink
  {
    var o := Open(cfg, s, now, opens);
    if o.live.None? then o
    else if lost then Broken(cfg, Close(o), now)
    else
      var (sent, done) := Push(frame, 0, attempts);
      var session := o.live.value;
      if done then
        o.(live := Some(Session(session.frames + [frame], session.bytes + frame)),
           counters := o.counters.(framesDelivered := o.counters.framesDelivered + 1,
                                   bytesDelivered := o.counters.bytesDelivered + |frame|))
      else Broken(cfg, o.(live := Some(session.(bytes := session.bytes + frame[..sent]))), now)
  }

  datatype Op =
    | OpenAt(now: real, opens: bool)
    | DeliverAt(frame: Frame, now: real, opens: bool, lost: bool, attempts: seq<Attempt>)
    | CloseNow
    | ReadFails(now: real)    // the readback found the device gone

  function Step(cfg: Config, s: Sink, op: Op): Sink {
    match op
    case OpenAt(now, opens) => Open(cfg, s, now, opens)
    case DeliverAt(f, now, opens, lost, attempts) => Deliver(cfg, s, f, now, opens, lost, attempts)
    case CloseNow => Close(s)
    case ReadFails(now) => if s.live.None? then s else Broken(cfg, s, now)
  }

  /** The sink after the operations. */
  function Run(cfg: Config, s: Sink, ops: seq<Op>): Sink {
    if ops == [] then s else Step(cfg, Run(cfg, s, ops[..|ops| - 1]), ops[|ops| - 1])
  }

  // ---------------------------------------------------------------- what is handed over

  /** Operation number `op` put the first `sent` bytes of its frame on the device, in open session `session`. */
  datatype Write = Write(op: nat, session: nat, frame: Frame, sent: nat)

  predicate Complete(w: Write) { w.sent == |w.frame| }

  /** The delivery gets to write to the device. */
  predicate Reaches(cfg: Config, s: Sink, op: Op) {
    op.DeliverAt? && Open(cfg, s, op.now, op.opens).live.Some? && !op.lost
  }

  function WriteOf(cfg: Config, s: Sink, op: Op, number: nat): seq<Write> {
    if Reaches(cfg, s, op) then [Write(number, |s.past|, op.frame, Push(op.frame, 0, op.attempts).0)] else []
  }

  /** One write, from the first byte of its own frame, for every delivery that reaches the device, in order. */
  function Writes(cfg: Config, ops: seq<Op>): seq<Write> {
    if ops == [] then []
    else
      var front := ops[..|ops| - 1];
      Writes(cfg, front) + WriteOf(cfg, Run(cfg, INITIAL, front), ops[|ops| - 1], |front|)
  }

  /** What `w` says happened at its operation. */
  ghost predicate WriteAt(cfg: Config, ops: seq<Op>, w: Write) {
    && w.op < |ops|
    && WriteOf(cfg, Run(cfg, INITIAL, ops[..w.op]), ops[w.op], w.op) == [w]
  }

  ghost predicate Ordered(ws: seq<Write>) { forall i, j :: 0 <= i < j < |ws| ==> ws[i].op < ws[j].op }

  ghost predicate AllAt(cfg: Config, ops: seq<Op>, ws: seq<Write>) { forall w :: w in ws ==> WriteAt(cfg, ops, w) }

  /** The writes are in the order of their operations, and exactly the deliveries that reach the device have one. */
  lemma WritesExact(cfg: Config, ops: seq<Op>)
    ensures Ordered(Writes(cfg, ops)) && AllAt(cfg, ops, Writes(cfg, ops))
    ensures forall n: nat :: n < |ops| && Reaches(cfg, Run(cfg, INITIAL, ops[..n]), ops[n]) ==>
              exists w :: w in Writes(cfg, ops) && w.op == n
  {
    hide *;
    WritesAt(cfg, ops);
    forall n: nat | n < |ops| && Reaches(cfg, Run(cfg, INITIAL, ops[..n]), ops[n])
      ensures exists w :: w in Writes(cfg, ops) && w.op == n
    {
      var w := WriteFor(cfg, ops, n);
    }
  }

  lemma {:induction false} WritesAt(cfg: Config, ops: seq<Op>)
    ensures Ordered(Writes(cfg, ops)) && AllAt(cfg, ops, Writes(cfg, ops))
  {
    if ops != [] {
      var front := ops[..|ops| - 1];
      WritesAt(cfg, front);
      AddWrites(cfg, ops, Writes(cfg, front));
    }
  }

  lemma AddWrites(cfg: Config, ops: seq<Op>, vs: seq<Write>)
    requires ops != [] && Ordered(vs) && AllAt(cfg, ops[..|ops| - 1], vs)
    ensures var more := WriteOf(cfg, Run(cfg, INITIAL, ops[..|ops| - 1]), ops[|ops| - 1], |ops| - 1);
            Ordered(vs + more) && AllAt(cfg, ops, vs + more)
  {
    hide Run, WriteAt, Reaches, Push;
    var more := WriteOf(cfg, Run(cfg, INITIAL, ops[..|ops| - 1]), ops[|ops| - 1], |ops| - 1);
    forall w | w in vs
      ensures WriteAt(cfg, ops, w) && w.op < |ops| - 1
    {
      WriteAtLater(cfg, ops, w);
    }
    assert forall i :: 0 <= i < |vs| ==> vs[i] in vs;
    if more != [] {
      assert more == [more[0]] && more[0].op == |ops| - 1;
      WriteAtNow(cfg, ops, more[0]);
    }
  }

  lemma {:induction false} WriteFor(cfg: Config, ops: seq<Op>, n: nat) returns (w: Write)
    requires n < |ops| && Reaches(cfg, Run(cfg, INITIAL, ops[..n]), ops[n])
    ensures w in Writes(cfg, ops) && w.op == n
  {
    hide Run, Reaches, Push;
    var front := ops[..|ops| - 1];
    if n < |front| {
      assert front[n] == ops[n] && front[..n] == ops[..n];
      w := WriteFor(cfg, front, n);
    } else {
      assert ops[..n] == front;
      w := WriteOf(cfg, Run(cfg, INITIAL, front), ops[n], n)[0];
    }
  }

  lemma WriteAtLater(cfg: Config, ops: seq<Op>, w: Write)
    requires ops != [] && WriteAt(cfg, ops[..|ops| - 1], w)
    ensures WriteAt(cfg, ops, w) && w.op < |ops| - 1
  {
    hide Run, WriteOf;
    assert ops[..|ops| - 1][..w.op] == ops[..w.op];
  }

  lemma WriteAtNow(cfg: Config, ops: seq<Op>, w: Write)
    requires ops != [] && WriteOf(cfg, Run(cfg, INITIAL, ops[..|ops| - 1]), ops[|ops| - 1], |ops| - 1) == [w]
    ensures WriteAt(cfg, ops, w)
  {
    hide Run;
  }

  // ---------------------------------------------------------------- invariant

  function Joined(frames: seq<Frame>): seq<Byte> {
    if frames == [] then [] else Joined(frames[..|frames| - 1]) + frames[|frames| - 1]
  }

  /** The writes of one session, in order. */
  function InSession(ws: seq<Write>, r: nat): seq<Write> {
    if ws == [] then []
    else
      var w := ws[|ws| - 1];
      InSession(ws[..|ws| - 1], r) + (if w.session == r then [w] else [])
  }

  /** The bytes the writes put on the device. */
  function Sent(ws: seq<Write>): seq<Byte> {
    if ws == [] then []
    else
      var w := ws[|ws| - 1];
      Sent(ws[..|ws| - 1]) + (if w.sent <= |w.frame| then w.frame[..w.sent] else [])
  }

  function Wholes(ws: seq<Write>): seq<Frame> {
    if ws == [] then []
    else
      var w := ws[|ws| - 1];
      Wholes(ws[..|ws| - 1]) + (if Complete(w) then [w.frame] else [])
  }

  /** A session received exactly its writes, and only the last one of a closed session may be cut. */
  ghost predicate Received(x: Session, mine: seq<Write>, closed: bool) {
    && x.bytes == Sent(mine)
    && x.frames == Wholes(mine)
    && forall i: nat :: i < |mine| && (i + 1 < |mine| || !closed) ==> Complete(mine[i])
  }

  /** Past sessions, the open one, and no writes for any other. */
  ghost predicate Delivered(s: Sink, ws: seq<Write>) {
    && (forall r: nat :: r < |s.past| ==> Received(s.past[r], InSession(ws, r), true))
    && (s.live.Some? ==> Received(s.live.value, InSession(ws, |s.past|), false))
    && (forall r: nat :: r > |s.past| || (r == |s.past| && s.live.None?) ==> InSession(ws, r) == [])
  }

  function Live(s: Sink): seq<Session> {
    match s.live case None => [] case Some(x) => [x]
  }

  function FrameCount(ss: seq<Session>): nat {
    if ss == [] then 0 else FrameCount(ss[..|ss| - 1]) + |ss[|ss| - 1].frames|
  }

  function ByteCount(ss: seq<Session>): nat {
    if ss == [] then 0 else ByteCount(ss[..|ss| - 1]) + |Joined(ss[|ss| - 1].frames)|
  }

  /** The counters are facts about the sessions. */
  ghost predicate Counted(s: Sink) {
    && s.counters.framesDelivered == FrameCount(s.past + Live(s))
    && s.counters.bytesDelivered == ByteCount(s.past + Live(s))
    && s.counters.opens == |s.past + Live(s)|
    && (s.everOpened <==> s.counters.opens > 0)
    && s.counters.reopens == if s.counters.opens == 0 then 0 else s.counters.opens - 1
  }

  ghost predicate Inv(s: Sink, ws: seq<Write>) { Delivered(s, ws) && Counted(s) }

  // ---------------------------------------------------------------- what every operation keeps

  lemma CountAppend(ss: seq<Session>, x: Session)
    ensures FrameCount(ss + [x]) == FrameCount(ss) + |x.frames|
    ensures ByteCount(ss + [x]) == ByteCount(ss) + |Joined(x.frames)|
  {
    assert (ss + [x])[..|ss|] == ss;
  }

  lemma JoinedAppend(frames: seq<Frame>, f: Frame)
    ensures Joined(frames + [f]) == Joined(frames) + f
  {
    assert (frames + [f])[..|frames|] == frames;
  }

  lemma NothingYet()
    ensures Joined([]) == [] && Sent([]) == [] && Wholes([]) == []
  {
  }

  lemma SessionAppend(ws: seq<Write>, w: Write, r: nat)
    ensures InSession(ws + [w], r) == InSession(ws, r) + (if w.session == r then [w] else [])
  {
    assert (ws + [w])[..|ws|] == ws;
  }

  lemma SentAppend(ws: seq<Write>, w: Write)
    requires w.sent <= |w.frame|
    ensures Sent(ws + [w]) == Sent(ws) + w.frame[..w.sent]
    ensures Wholes(ws + [w]) == Wholes(ws) + (if Complete(w) then [w.frame] else [])
  {
    assert (ws + [w])[..|ws|] == ws;
  }

  lemma OpenKeeps(cfg: Config, s: Sink, ws: seq<Write>, now: real, opens: bool)
    requires Inv(s, ws)
    ensures Inv(Open(cfg, s, now, opens), ws) && Open(cfg, s, now, opens).past == s.past
  {
    hide InSession, Joined, FrameCount, ByteCount, Sent, Wholes;
    var t, x := Open(cfg, s, now, opens), Session([], []);
    if t.live != s.live {
      CountAppend(s.past, x);
      NothingYet();
      assert s.past + [] == s.past && s.past + Live(t) == s.past + [x];
      assert InSession(ws, |s.past|) == [];
    }
  }

  lemma CloseKeeps(s: Sink, ws: seq<Write>)
    requires Inv(s, ws)
    ensures Inv(Close(s), ws)
  {
    hide InSession, Sent, Wholes, FrameCount, ByteCount;
    if s.live.Some? {
      assert Close(s).past + [] == s.past + Live(s);
    }
  }

  lemma BrokenKeeps(cfg: Config, s: Sink, ws: seq<Write>, now: real)
    requires Inv(s, ws)
    ensures Inv(Broken(cfg, s, now), ws)
  {
    hide InSession, Sent, Wholes, FrameCount, ByteCount;
    CloseKeeps(s, ws);
  }

  lemma ReceivedMore(x: Session, mine: seq<Write>, w: Write)
    requires Received(x, mine, false) && w.sent <= |w.frame|
    ensures var y := Session(x.frames + (if Complete(w) then [w.frame] else []), x.bytes + w.frame[..w.sent]);
            Received(y, mine + [w], true) && (Complete(w) ==> Received(y, mine + [w], false))
  {
    hide Sent, Wholes;
    SentAppend(mine, w);
  }

  /** The open session takes a write; it stays open only if the write is complete. */
  lemma WriteDelivered(s: Sink, ws: seq<Write>, w: Write, t: Sink)
    requires Delivered(s, ws) && s.live.Some? && w.session == |s.past| && w.sent <= |w.frame|
    requires var x := s.live.value;
             var y := Session(x.frames + (if Complete(w) then [w.frame] else []), x.bytes + w.frame[..w.sent]);
             if Complete(w) then t.live == Some(y) && t.past == s.past else t.live == None && t.past == s.past + [y]
    ensures Delivered(t, ws + [w])
  {
    hide InSession, Received;
    ReceivedMore(s.live.value, InSession(ws, |s.past|), w);
    forall r: nat
      ensures InSession(ws + [w], r) == InSession(ws, r) + (if w.session == r then [w] else [])
    {
      SessionAppend(ws, w, r);
    }
    assert forall r: nat :: r != |s.past| ==> InSession(ws, r) + [] == InSession(ws, r);
  }

  lemma WholeCounted(s: Sink, f: Frame)
    requires Counted(s) && s.live.Some?
    ensures
      var x := s.live.value;
      Counted(s.(live := Some(Session(x.frames + [f], x.bytes + f)),
                 counters := s.counters.(framesDelivered := s.counters.framesDelivered + 1,
                                         bytesDelivered := s.counters.bytesDelivered + |f|)))
  {
    hide Joined, FrameCount, ByteCount;
    var x := s.live.value;
    JoinedAppend(x.frames, f);
    CountAppend(s.past, x);
    CountAppend(s.past, Session(x.frames + [f], x.bytes + f));
  }

  lemma CutCounted(cfg: Config, s: Sink, bytes: seq<Byte>, now: real)
    requires Counted(s) && s.live.Some?
    ensures Counted(Broken(cfg, s.(live := Some(s.live.value.(bytes := bytes))), now))
  {
    hide Joined, FrameCount, ByteCount;
    var y := s.live.value.(bytes := bytes);
    CountAppend(s.past, s.live.value);
    CountAppend(s.past, y);
    assert s.past + [y] + [] == s.past + [y];
  }

  lemma DeliverKeeps(cfg: Config, s: Sink, ws: seq<Write>, op: Op, number: nat)
    requires Inv(s, ws) && op.DeliverAt?
    ensures Inv(Step(cfg, s, op), ws + WriteOf(cfg, s, op, number))
  {
    hide Open, Broken, Push, Delivered, Counted;
    OpenKeeps(cfg, s, ws, op.now, op.opens);
    var o := Open(cfg, s, op.now, op.opens);
    if !Reaches(cfg, s, op) {
      assert ws + [] == ws;
      if o.live.Some? {
        CloseKeeps(o, ws);
        BrokenKeeps(cfg, Close(o), ws, op.now);
      }
    } else {
      ReachKeeps(cfg, s, o, ws, op, number);
    }
  }

  lemma ReachKeeps(cfg: Config, s: Sink, o: Sink, ws: seq<Write>, op: Op, number: nat)
    requires Reaches(cfg, s, op) && o == Open(cfg, s, op.now, op.opens) && Inv(o, ws) && o.past == s.past
    ensures Inv(Step(cfg, s, op), ws + WriteOf(cfg, s, op, number))
  {
    hide Open, Push, Delivered, Counted;
    var f := op.frame;
    var (sent, done) := Push(f, 0, op.attempts);
    var w := Write(number, |s.past|, f, sent);
    assert f[..|f|] == f && o.live.value.frames + [] == o.live.value.frames;
    WriteDelivered(o, ws, w, Step(cfg, s, op));
    if done {
      WholeCounted(o, f);
    } else {
      CutCounted(cfg, o, o.live.value.bytes + f[..sent], op.now);
    }
  }

  lemma StepKeeps(cfg: Config, s: Sink, ws: seq<Write>, op: Op, number: nat)
    requires Inv(s, ws)
    ensures Inv(Step(cfg, s, op), ws + WriteOf(cfg, s, op, number))
  {
    hide Inv, Open, Close, Broken, Push;
    match op
    case DeliverAt(_, _, _, _, _) => DeliverKeeps(cfg, s, ws, op, number);
    case OpenAt(now, opens) =>
      assert ws + [] == ws;
      OpenKeeps(cfg, s, ws, now, opens);
    case CloseNow =>
      assert ws + [] == ws;
      CloseKeeps(s, ws);
    case ReadFails(now) =>
      assert ws + [] == ws;
      BrokenKeeps(cfg, s, ws, now);
  }

  /** In every run from a fresh sink, whatever the writes return: the device received, session by session, exactly the
      writes of the deliveries that reached it, each from the first byte of its own frame. All but the last write of a
      session are complete, the last one too while the session is open: a partly written frame is followed by nothing,
      neither its rest nor its start again. The counters count those writes. */
  lemma {:induction false} FramesNeverRestart(cfg: Config, ops: seq<Op>)
    ensures Inv(Run(cfg, INITIAL, ops), Writes(cfg, ops))
  {
    if ops != [] {
      hide Inv, Step, WriteOf;
      var front := ops[..|ops| - 1];
      FramesNeverRestart(cfg, front);
      StepKeeps(cfg, Run(cfg, INITIAL, front), Writes(cfg, front), ops[|ops| - 1], |front|);
    }
  }

  /** The bytes of a closed session are whole frames and at most one cut frame at the very end, those of the open
      session whole frames only. */
  lemma SessionBytes(cfg: Config, ops: seq<Op>, r: nat)
    requires r < |Run(cfg, INITIAL, ops).past + Live(Run(cfg, INITIAL, ops))|
    ensures var t, mine := Run(cfg, INITIAL, ops), InSession(Writes(cfg, ops), r);
            var x := (t.past + Live(t))[r];
            if mine == [] || Complete(mine[|mine| - 1]) then x.bytes == Joined(x.frames)
            else
              var cut := mine[|mine| - 1];
              r < |t.past| && cut.sent < |cut.frame| && x.bytes == Joined(x.frames) + cut.frame[..cut.sent]
  {
    hide Run, Writes, InSession, Received, Counted;
    FramesNeverRestart(cfg, ops);
    var t, mine := Run(cfg, INITIAL, ops), InSession(Writes(cfg, ops), r);
    WritesBounded(cfg, ops, r);
    ReceivedBytes((t.past + Live(t))[r], mine, r < |t.past|);
  }

  lemma ReceivedBytes(x: Session, mine: seq<Write>, closed: bool)
    requires Received(x, mine, closed) && forall w :: w in mine ==> w.sent <= |w.frame|
    ensures if mine == [] || Complete(mine[|mine| - 1]) then x.bytes == Joined(x.frames)
            else
              var cut := mine[|mine| - 1];
              closed && cut.sent < |cut.frame| && x.bytes == Joined(x.frames) + cut.frame[..cut.sent]
  {
    hide Sent, Wholes, Joined;
    NothingYet();
    if mine != [] {
      var front, w := mine[..|mine| - 1], mine[|mine| - 1];
      assert mine == front + [w] && w in mine;
      SentAppend(front, w);
      WholeWrites(front);
      JoinedAppend(Wholes(front), w.frame);
      assert w.frame[..|w.frame|] == w.frame;
      assert Wholes(front) + [] == Wholes(front);
    }
  }

  lemma {:induction false} WholeWrites(ws: seq<Write>)
    requires forall i: nat :: i < |ws| ==> Complete(ws[i])
    ensures Sent(ws) == Joined(Wholes(ws))
  {
    if ws != [] {
      var front, w := ws[..|ws| - 1], ws[|ws| - 1];
      WholeWrites(front);
      JoinedAppend(Wholes(front), w.frame);
      assert Complete(ws[|ws| - 1]) && w.frame[..|w.frame|] == w.frame;
    }
  }

  lemma {:induction false} WritesBounded(cfg: Config, ops: seq<Op>, r: nat)
    ensures forall w :: w in InSession(Writes(cfg, ops), r) ==> w.sent <= |w.frame|
  {
    hide Run, Reaches;
    if ops != [] {
      var front := ops[..|ops| - 1];
      WritesBounded(cfg, front, r);
      var vs, more := Writes(cfg, front), WriteOf(cfg, Run(cfg, INITIAL, front), ops[|ops| - 1], |front|);
      if more == [] {
        assert vs + more == vs;
      } else {
        assert more == [more[0]];
        SessionAppend(vs, more[0], r);
      }
    }
  }

  /** A delivery that reaches the device and fails closes it, and no operation before the reopen
      delay has passed touches the device again. */
  lemma {:induction false} HoldOff(cfg: Config, s: Sink, ops: seq<Op>, until: real)
    requires s.live.None? && s.nextOpen >= until
    requires forall op :: op in ops ==> (op.OpenAt? || op.DeliverAt? ==> op.now < until)
    ensures Run(cfg, s, ops) == s
    decreases |ops|
  {
    if ops != [] {
      HoldOff(cfg, s, ops[..|ops| - 1], until);
      assert ops[|ops| - 1] in ops;
    }
  }

  lemma FailedDeliveryHoldsOff(cfg: Config, s: Sink, f: Frame, now: real, opens: bool, lost: bool,
                               attempts: seq<Attempt>)
    requires Open(cfg, s, now, opens).live.Some? && (lost || !Push(f, 0, attempts).1)
    ensures
      var t := Deliver(cfg, s, f, now, opens, lost, attempts);
      t.live.None? && t.nextOpen == now + cfg.reopenDelay && t.counters.failures == s.counters.failures + 1
  {
  }

  // ---------------------------------------------------------------- the object

  class UsbSerialSink {
    const config: Config
    var live: Option<Session>
    var past: seq<Session>
    var everOpened: bool
    var nextOpen: real
    var framesDelivered: nat
    var bytesDelivered: nat
    var failures: nat
    var openCount: nat
    var reopens: nat

    function Model(): Sink
      reads this
    {
      Sink(live, past, everOpened, nextOpen, Counters(framesDelivered, bytesDelivered, failures, openCount, reopens))
    }

    constructor (config: Config)
      ensures this.config == config && Model() == INITIAL
    {
      this.config := config;
      live, past, everOpened, nextOpen := None, [], false, 0.0;
      framesDelivered, bytesDelivered, failures, openCount, reopens := 0, 0, 0, 0, 0;
    }

    method OpenDevice(now: real, opens: bool) returns (ok: bool)
      modifies this
      ensures Model() == Open(config, old(Model()), now, opens) && ok == live.Some?
    {
      if live.Some? { return true; }
      if !config.hasDevice { return false; }
      if now < nextOpen { return false; }
      if !opens {
        failures := failures + 1;
        nextOpen := now + config.reopenDelay;
        return false;
      }
      live := Some(Session([], []));
      openCount := openCount + 1;
      if everOpened { reopens := reopens + 1; }
      everOpened := true;
      return true;
    }

    method CloseDevice()
      modifies this
      ensures Model() == Close(old(Model()))
    {
      if live.Some? {
        past := past + [live.value];
        live := None;
      }
    }

    /** The partial-write loop: the offset only moves forward, and a failure never goes back to the
        first byte. */
    method WriteAll(frame: Frame, attempts: seq<Attempt>) returns (done: bool)
      requires live.Some?
      modifies `live
      ensures done == Push(frame, 0, attempts).1
      ensures live == Some(old(live).value.(bytes := old(live).value.bytes + frame[..Push(frame, 0, attempts).0]))
    {
      var session := live.value;
      var offset, i := 0, 0;
      assert session.bytes + frame[..0] == session.bytes && attempts[0..] == attempts;
      while offset < |frame|
        invariant 0 <= offset <= |frame| && i <= |attempts|
        invariant live == Some(session.(bytes := session.bytes + frame[..offset]))
        invariant Push(frame, offset, attempts[i..]) == Push(frame, 0, attempts)
        decreases |attempts| - i
      {
        var attempt := if i < |attempts| then attempts[i] else Fail;
        if i < |attempts| {
          assert attempts[i..][0] == attempts[i] && attempts[i..][1..] == attempts[i + 1..];
        }
        if attempt.Wrote? && attempt.n > 0 {
          var n := if attempt.n < |frame| - offset then attempt.n else |frame| - offset;
          assert session.bytes + frame[..offset] + frame[offset..offset + n] == session.bytes + frame[..offset + n];
          live := Some(live.value.(bytes := live.value.bytes + frame[offset..offset + n]));
          offset := offset + n;
          i := i + 1;
          continue;
        }
        if attempt.Again? {
          i := i + 1;
          continue;
        }
        return false;
      }
      done := true;
    }

    method DeliverFrame(frame: Frame, now: real, opens: bool, lost: bool, attempts: seq<Attempt>) returns (ok: bool)
      modifies this
      ensures Model() == Deliver(config, old(Model()), frame, now, opens, lost, attempts)
      ensures ok <==> Open(config, old(Model()), now, opens).live.Some? && !lost && Push(frame, 0, attempts).1
    {
      hide Open, Push;
      ok := OpenDevice(now, opens);
      if !ok { return; }
      if lost {
        CloseDevice();
        ok := false;
      } else {
        ok := WriteAll(frame, attempts);
      }
      if !ok {
        failures := failures + 1;
        CloseDevice();
        nextOpen := now + config.reopenDelay;
        return;
      }
      assert frame[..|frame|] == frame;
      live := Some(live.value.(frames := live.value.frames + [frame]));
      framesDelivered := framesDelivered + 1;
      bytesDelivered := bytesDelivered + |frame|;
    }

    /** A failed readback breaks the open device. */
    method BreakDevice(now: real)
      modifies this
      ensures Model() == Step(config, old(Model()), ReadFails(now))
    {
      if live.None? { return; }
      failures := failures + 1;
      CloseDevice();
      nextOpen := now + config.reopenDelay;
    }

    /** A whole run of the object is the run the theorems speak of. */
    method Play(ops: seq<Op>)
      requires Model() == INITIAL
      modifies this
      ensures Model() == Run(config, INITIAL, ops)
    {
      hide Open, Close, Deliver, Broken;
      assert ops[..0] == [];
      for i := 0 to |ops|
        invariant Model() == Run(config, INITIAL, ops[..i])
      {
        assert ops[..i + 1][..i] == ops[..i];
        match ops[i] {
          case OpenAt(now, opens) => var ok := OpenDevice(now, opens);
          case DeliverAt(f, now, opens, lost, attempts) => var ok := DeliverFrame(f, now, opens, lost, attempts);
          case CloseNow => CloseDevice();
          case ReadFails(now) => BreakDevice(now);
        }
      }
      assert ops[..|ops|] == ops;
    }
  }
}
