/** RTCM 3 framing: the resynchronising stream parser and the separate frame validator. */
module Rtcm {
  import opened Common
  import opened Crc24q

  const PREAMBLE: Byte := 0xD3
  /** 3 header bytes, at most 1023 message bytes, 3 CRC bytes. */
  const MAX_FRAME: nat := 1029

  /** The 10-bit length field; the six reserved bits above it are tolerated. */
  function MessageLength(b1: Byte, b2: Byte): nat {
    b1 % 4 * 256 + b2
  }

  // ---------------------------------------------------------------- the scan, one decision at a time

  datatype Verdict =
    | Wait
    | Skip(crcFailure: bool, reserved: bool)
    | Accept(total: nat, reserved: bool)

  /** What the scan decides at the head of a nonempty buffer. */
  function Look(buf: seq<Byte>): Verdict
    requires buf != []
  {
    if buf[0] != PREAMBLE then Skip(false, false)
    else if |buf| < 3 then Wait
    else
      var n := 3 + MessageLength(buf[1], buf[2]);
      if |buf| < n + 3 then Wait
      else if Crc(buf[..n]) != Wire(buf[n..n + 3]) then Skip(true, buf[1] / 4 != 0)
      else Accept(n + 3, buf[1] / 4 != 0)
  }

  datatype Counters = Counters(frames: nat, crcFailures: nat, invalidHeaders: nat, resyncBytes: nat)

  function Note(c: Counters, v: Verdict): Counters {
    match v
    case Wait => c
    case Skip(crcFailure, reserved) =>
      c.(crcFailures := c.crcFailures + (if crcFailure then 1 else 0),
         invalidHeaders := c.invalidHeaders + (if reserved then 1 else 0),
         resyncBytes := c.resyncBytes + 1)
    case Accept(_, reserved) =>
      c.(frames := c.frames + 1, invalidHeaders := c.invalidHeaders + (if reserved then 1 else 0))
  }

  datatype Parsed = Parsed(frames: seq<seq<Byte>>, counters: Counters, rest: seq<Byte>)

  /** The whole scan of a buffer. */
  function Parse(buf: seq<Byte>, c: Counters): Parsed
    decreases |buf|
  {
    if buf == [] then Parsed([], c, [])
    else
      var v := Look(buf);
      match v
      case Wait => Parsed([], c, buf)
      case Skip(_, _) => Parse(buf[1..], Note(c, v))
      case Accept(total, _) =>
        var r := Parse(buf[total..], Note(c, v));
        Parsed([buf[..total]] + r.frames, r.counters, r.rest)
  }

  datatype State = State(buf: seq<Byte>, counters: Counters)

  const INITIAL: State := State([], Counters(0, 0, 0, 0))

  /** One call of feed: scan, keep the unconsumed tail, drop its oldest bytes above the limit. */
  function Feed(s: State, limit: nat, data: seq<Byte>): (State, seq<seq<Byte>>) {
    var r := Parse(s.buf + data, s.counters);
    var drop := if |r.rest| > limit then |r.rest| - limit else 0;
    (State(r.rest[drop..], r.counters.(resyncBytes := r.counters.resyncBytes + drop)), r.frames)
  }

  function FeedAll(s: State, limit: nat, chunks: seq<seq<Byte>>): (State, seq<seq<Byte>>)
    decreases |chunks|
  {
    if chunks == [] then (s, [])
    else
      var (s1, f1) := Feed(s, limit, chunks[0]);
      var (s2, f2) := FeedAll(s1, limit, chunks[1..]);
      (s2, f1 + f2)
  }

  function Flatten(chunks: seq<seq<Byte>>): seq<Byte> {
    if chunks == [] then [] else chunks[0] + Flatten(chunks[1..])
  }

  /** Nothing more can be decided about the buffer until bytes arrive. */
  predicate Quiescent(buf: seq<Byte>) {
    buf == [] || Look(buf) == Wait
  }

  // ---------------------------------------------------------------- the validator

  predicate Validate(bytes: seq<Byte>): (ok: bool)
    ensures ok ==> 6 <= |bytes| <= MAX_FRAME
  {
    if |bytes| < 6 || |bytes| > MAX_FRAME || bytes[0] != PREAMBLE then false
    else if |bytes| != MessageLength(bytes[1], bytes[2]) + 6 then false
    else Crc(bytes[..|bytes| - 3]) == Wire(bytes[|bytes| - 3..])
  }

  // ---------------------------------------------------------------- chunk independence

  /** More bytes never change a decision already taken. */
  lemma LookStable(a: seq<Byte>, b: seq<Byte>)
    requires a != [] && Look(a) != Wait
    ensures Look(a + b) == Look(a)
  {
    hide Crc, Wire;
    if a[0] == PREAMBLE {
      var n := 3 + MessageLength(a[1], a[2]);
      assert (a + b)[..n] == a[..n];
      assert (a + b)[n..n + 3] == a[n..n + 3];
    }
  }

  lemma {:induction false} ParseQuiescent(buf: seq<Byte>, c: Counters)
    ensures Quiescent(Parse(buf, c).rest)
    ensures |Parse(buf, c).rest| < MAX_FRAME
    decreases |buf|
  {
    hide Crc, Wire;
    if buf != [] {
      match Look(buf)
      case Wait =>
      case Skip(_, _) => ParseQuiescent(buf[1..], Note(c, Look(buf)));
      case Accept(total, _) => ParseQuiescent(buf[total..], Note(c, Look(buf)));
    }
  }

  lemma ParseOfQuiescent(buf: seq<Byte>, c: Counters)
    requires Quiescent(buf)
    ensures Parse(buf, c) == Parsed([], c, buf)
  {
  }

  /** Scanning a stream equals scanning its first part, then the retained tail with the rest. */
  lemma {:induction false} ParseSplit(a: seq<Byte>, b: seq<Byte>, c: Counters)
    ensures
      var r := Parse(a, c);
      var t := Parse(r.rest + b, r.counters);
      Parse(a + b, c) == Parsed(r.frames + t.frames, t.counters, t.rest)
    decreases |a|
  {
    hide Crc, Wire, Note;
    if a == [] {
      assert a + b == b;
      assert Parse(a, c).rest + b == b;
      assert [] + Parse(b, c).frames == Parse(b, c).frames;
    } else if Look(a) == Wait {
      assert [] + Parse(a + b, c).frames == Parse(a + b, c).frames;
    } else {
      LookStable(a, b);
      match Look(a)
      case Skip(_, _) =>
        assert (a + b)[1..] == a[1..] + b;
        ParseSplit(a[1..], b, Note(c, Look(a)));
      case Accept(total, _) =>
        assert (a + b)[total..] == a[total..] + b;
        assert (a + b)[..total] == a[..total];
        var c1 := Note(c, Look(a));
        ParseSplit(a[total..], b, c1);
        var r := Parse(a[total..], c1);
        var t := Parse(r.rest + b, r.counters);
        assert [a[..total]] + (r.frames + t.frames) == ([a[..total]] + r.frames) + t.frames;
    }
  }

  /** With room for 1028 bytes the overflow branch never fires. */
  lemma FeedIsParse(s: State, limit: nat, data: seq<Byte>)
    requires limit >= MAX_FRAME - 1
    ensures
      var r := Parse(s.buf + data, s.counters);
      Feed(s, limit, data) == (State(r.rest, r.counters), r.frames) && Quiescent(r.rest)
  {
    hide Look, Parse;
    ParseQuiescent(s.buf + data, s.counters);
  }

  /** Feeding a stream in any pieces gives the frames, counters and retained buffer of feeding it
      whole, from every state the parser can be in. */
  lemma {:induction false} ChunkIndependence(s: State, limit: nat, chunks: seq<seq<Byte>>)
    requires limit >= MAX_FRAME - 1 && Quiescent(s.buf)
    ensures FeedAll(s, limit, chunks) == Feed(s, limit, Flatten(chunks))
    decreases |chunks|
  {
    hide Look, Parse, Feed;
    FeedIsParse(s, limit, Flatten(chunks));
    if chunks == [] {
      assert s.buf + [] == s.buf;
      ParseOfQuiescent(s.buf, s.counters);
    } else {
      var rest := Flatten(chunks[1..]);
      FeedIsParse(s, limit, chunks[0]);
      var r := Parse(s.buf + chunks[0], s.counters);
      ChunkIndependence(State(r.rest, r.counters), limit, chunks[1..]);
      FeedIsParse(State(r.rest, r.counters), limit, rest);
      ParseSplit(s.buf + chunks[0], rest, s.counters);
      assert s.buf + chunks[0] + rest == s.buf + (chunks[0] + rest);
    }
  }

  // ---------------------------------------------------------------- round trip with the validator

  lemma ValidateIsAccept(f: seq<Byte>, tail: seq<Byte>)
    requires Validate(f)
    ensures f + tail != [] && Look(f + tail) == Accept(|f|, f[1] / 4 != 0)
  {
    hide Crc, Wire;
    var n := |f| - 3;
    assert (f + tail)[..n] == f[..n];
    assert (f + tail)[n..n + 3] == f[n..];
  }

  lemma AcceptIsValidate(buf: seq<Byte>)
    requires buf != [] && Look(buf).Accept?
    ensures 6 <= Look(buf).total <= |buf| && Validate(buf[..Look(buf).total])
  {
    hide Crc, Wire;
    var n := Look(buf).total - 3;
    assert buf[..n + 3][..n] == buf[..n];
    assert buf[..n + 3][n..] == buf[n..n + 3];
  }

  /** Every emitted frame passes the validator. */
  lemma {:induction false} EmittedAreValid(buf: seq<Byte>, c: Counters)
    ensures forall f :: f in Parse(buf, c).frames ==> Validate(f)
    decreases |buf|
  {
    hide Look, Validate, Note;
    if buf != [] {
      match Look(buf)
      case Wait =>
      case Skip(_, _) => EmittedAreValid(buf[1..], Note(c, Look(buf)));
      case Accept(total, _) =>
        AcceptIsValidate(buf);
        EmittedAreValid(buf[total..], Note(c, Look(buf)));
    }
  }

  predicate AllValid(frames: seq<seq<Byte>>) {
    forall f :: f in frames ==> |f| >= 6 && Validate(f)
  }

  function ReservedCount(frames: seq<seq<Byte>>): nat
    requires forall f :: f in frames ==> |f| >= 6
  {
    if frames == [] then 0
    else (if frames[0][1] / 4 != 0 then 1 else 0) + ReservedCount(frames[1..])
  }

  /** A concatenation of valid frames parses to exactly those frames: nothing skipped, nothing
      kept back, and only the frame counter (and the reserved-bit diagnostic) moves. */
  lemma {:induction false} FramesRoundTrip(frames: seq<seq<Byte>>, c: Counters)
    requires AllValid(frames)
    ensures Parse(Flatten(frames), c) ==
      Parsed(frames,
             c.(frames := c.frames + |frames|,
                invalidHeaders := c.invalidHeaders + ReservedCount(frames)),
             [])
    decreases |frames|
  {
    hide Look, Validate;
    if frames != [] {
      var f, tail := frames[0], Flatten(frames[1..]);
      assert f in frames;
      ValidateIsAccept(f, tail);
      assert (f + tail)[|f|..] == tail;
      assert (f + tail)[..|f|] == f;
      assert f + tail != [];
      FramesRoundTrip(frames[1..], Note(c, Look(f + tail)));
      assert [f] + frames[1..] == frames;
    }
  }

  /** The frame around a message: header, message, checksum. */
  function Build(message: seq<Byte>): (f: seq<Byte>)
    requires |message| <= 1023
    ensures |f| == |message| + 6
  {
    var body := [PREAMBLE, |message| / 256, |message| % 256] + message;
    body + WireBytes(Crc(body))
  }

  /** Every message of up to 1023 bytes has a frame that the validator accepts. */
  lemma BuildIsValid(message: seq<Byte>)
    requires |message| <= 1023
    ensures Validate(Build(message))
  {
    hide Crc, Wire, WireBytes, Register;
    var body := [PREAMBLE, |message| / 256, |message| % 256] + message;
    var f := Build(message);
    assert f[..|f| - 3] == body;
    assert f[|f| - 3..] == WireBytes(Crc(body));
    CrcRegister(body);
    WireRoundTrip(Crc(body));
  }

  /** The validator's trailer test is divisibility of the whole frame by the polynomial. */
  lemma ValidIffResidueZero(bytes: seq<Byte>)
    ensures Validate(bytes) <==>
      && 6 <= |bytes| <= MAX_FRAME && bytes[0] == PREAMBLE
      && |bytes| == MessageLength(bytes[1], bytes[2]) + 6
      && SerialCrc(bytes) == {}
  {
    hide Crc, Wire, SerialCrc;
    if 6 <= |bytes| {
      var n := |bytes| - 3;
      assert bytes[..n] + bytes[n..] == bytes;
      ResidueZero(bytes[..n], bytes[n..]);
      TableIsSerial(bytes);
    }
  }

  // ---------------------------------------------------------------- the buffer limit is exact

  ghost predicate SplitInvariant(limit: nat) {
    forall chunks :: FeedAll(INITIAL, limit, chunks) == Feed(INITIAL, limit, Flatten(chunks))
  }

  /** No frame can be longer than the buffer it came from. */
  lemma {:induction false} FramesFit(buf: seq<Byte>, c: Counters)
    ensures forall f :: f in Parse(buf, c).frames ==> |f| <= |buf|
    decreases |buf|
  {
    hide Look, Note, Validate;
    if buf != [] {
      match Look(buf)
      case Wait =>
      case Skip(_, _) => FramesFit(buf[1..], Note(c, Look(buf)));
      case Accept(total, _) =>
        AcceptIsValidate(buf);
        FramesFit(buf[total..], Note(c, Look(buf)));
    }
  }

  /** A retained buffer of exactly 1028 bytes exists: a longest frame short of its last byte. */
  lemma LongestPending(f: seq<Byte>, limit: nat)
    requires Validate(f) && |f| == MAX_FRAME
    ensures Quiescent(f[..MAX_FRAME - 1])
    ensures Parse(f[..MAX_FRAME - 1], INITIAL.counters).rest == f[..MAX_FRAME - 1]
    ensures Parse(f[..MAX_FRAME - 1], INITIAL.counters).frames == []
  {
    hide Crc, Wire;
    var p := f[..MAX_FRAME - 1];
    assert p[1] == f[1] && p[2] == f[2];
  }

  /** Below 1028 bytes of buffer the split matters: a longest frame is lost when its last byte
      arrives separately. */
  lemma ShortBufferLosesFrame(limit: nat)
    requires limit < MAX_FRAME - 1
    ensures
      var f := Build(seq(1023, _ => 0));
      var chunks := [f[..MAX_FRAME - 1], f[MAX_FRAME - 1..]];
      && Flatten(chunks) == f
      && f !in FeedAll(INITIAL, limit, chunks).1 && f in Feed(INITIAL, limit, f).1
  {
    hide Look, Validate, Build;
    var f := Build(seq(1023, _ => 0));
    var a, b := f[..MAX_FRAME - 1], f[MAX_FRAME - 1..];
    var chunks := [a, b];
    BuildIsValid(seq(1023, _ => 0));
    var last: seq<seq<Byte>> := [b];
    assert chunks[1..] == last && last[1..] == [];
    assert Flatten(last) == b + Flatten(last[1..]) == b;
    assert Flatten(chunks) == a + b == f;
    LongestPending(f, limit);
    assert [] + a == a;
    var s := Feed(INITIAL, limit, a).0;
    assert |s.buf| == limit && Feed(INITIAL, limit, a).1 == [];
    FramesFit(s.buf + b, s.counters);
    FramesRoundTrip([f], INITIAL.counters);
    assert Flatten([f]) == f && [] + f == f;
    assert Feed(INITIAL, limit, f).1 == [f];
    assert f in Feed(INITIAL, limit, f).1;
    assert FeedAll(s, limit, [b]).1 == Feed(s, limit, b).1;
    assert FeedAll(INITIAL, limit, chunks).1 == [] + Feed(s, limit, b).1;
  }

  /** The parser's output is independent of how a stream is split if and only if its buffer limit
      is at least 1028 bytes. */
  lemma LimitIsExact(limit: nat)
    ensures SplitInvariant(limit) <==> limit >= MAX_FRAME - 1
  {
    hide Look, Parse, Feed, FeedAll, Build;
    if limit >= MAX_FRAME - 1 {
      forall chunks
        ensures FeedAll(INITIAL, limit, chunks) == Feed(INITIAL, limit, Flatten(chunks))
      {
        ChunkIndependence(INITIAL, limit, chunks);
      }
    } else {
      ShortBufferLosesFrame(limit);
    }
  }

  // ---------------------------------------------------------------- conservation

  /** A skipped byte, with what was wrong with the frame it would have begun, or a frame. */
  datatype Piece = Junk(byte: Byte, crcFailure: bool, reserved: bool) | Framed(frame: seq<Byte>)

  /** The consumed part of a buffer as the scan cut it up. */
  function Pieces(buf: seq<Byte>): seq<Piece>
    decreases |buf|
  {
    if buf == [] then []
    else match Look(buf)
      case Wait => []
      case Skip(crcFailure, reserved) => [Junk(buf[0], crcFailure, reserved)] + Pieces(buf[1..])
      case Accept(total, _) => [Framed(buf[..total])] + Pieces(buf[total..])
  }

  function Reassemble(pieces: seq<Piece>): seq<Byte> {
    if pieces == [] then []
    else (match pieces[0] case Junk(b, _, _) => [b] case Framed(f) => f) + Reassemble(pieces[1..])
  }

  function FramesOf(pieces: seq<Piece>): seq<seq<Byte>> {
    if pieces == [] then []
    else (match pieces[0] case Junk(_, _, _) => [] case Framed(f) => [f]) + FramesOf(pieces[1..])
  }

  function JunkOf(pieces: seq<Piece>): nat {
    if pieces == [] then 0 else (if pieces[0].Junk? then 1 else 0) + JunkOf(pieces[1..])
  }

  function CrcFailuresOf(pieces: seq<Piece>): nat {
    if pieces == [] then 0
    else (if pieces[0].Junk? && pieces[0].crcFailure then 1 else 0) + CrcFailuresOf(pieces[1..])
  }

  /** Reserved header bits: in a frame, or in a candidate that failed its checksum. */
  predicate HasReserved(p: Piece) {
    match p
    case Junk(_, _, reserved) => reserved
    case Framed(f) => |f| > 1 && f[1] / 4 != 0
  }

  function ReservedOf(pieces: seq<Piece>): nat {
    if pieces == [] then 0 else (if HasReserved(pieces[0]) then 1 else 0) + ReservedOf(pieces[1..])
  }

  /** The stream is the consumed pieces followed by the retained tail: no byte is lost, duplicated
      or moved. */
  lemma {:induction false} NothingLost(buf: seq<Byte>, c: Counters)
    ensures Reassemble(Pieces(buf)) + Parse(buf, c).rest == buf
    decreases |buf|
  {
    hide Look, Validate, Note;
    if buf != [] {
      var c1 := Note(c, Look(buf));
      match Look(buf)
      case Wait =>
      case Skip(_, _) =>
        NothingLost(buf[1..], c1);
        assert Pieces(buf)[1..] == Pieces(buf[1..]);
      case Accept(total, _) =>
        AcceptIsValidate(buf);
        NothingLost(buf[total..], c1);
        assert Pieces(buf)[1..] == Pieces(buf[total..]);
    }
  }

  /** The framed pieces are the emitted frames in order, and the four counters count the pieces of
      each kind. */
  lemma {:induction false} PiecesCounted(buf: seq<Byte>, c: Counters)
    ensures
      var r := Parse(buf, c);
      && FramesOf(Pieces(buf)) == r.frames
      && r.counters.resyncBytes == c.resyncBytes + JunkOf(Pieces(buf))
      && r.counters.frames == c.frames + |r.frames|
      && r.counters.crcFailures == c.crcFailures + CrcFailuresOf(Pieces(buf))
      && r.counters.invalidHeaders == c.invalidHeaders + ReservedOf(Pieces(buf))
    decreases |buf|
  {
    hide Look, Validate;
    if buf != [] {
      AcceptMeans(buf);
      var c1 := Note(c, Look(buf));
      match Look(buf)
      case Wait =>
      case Skip(_, _) =>
        PiecesCounted(buf[1..], c1);
        assert Pieces(buf)[1..] == Pieces(buf[1..]);
      case Accept(total, _) =>
        AcceptIsValidate(buf);
        PiecesCounted(buf[total..], c1);
        assert Pieces(buf)[1..] == Pieces(buf[total..]);
    }
  }

  lemma AcceptMeans(buf: seq<Byte>)
    requires buf != []
    ensures Look(buf).Accept? ==>
              && 1 < Look(buf).total <= |buf|
              && (Look(buf).reserved <==> HasReserved(Framed(buf[..Look(buf).total])))
    ensures Look(buf).Skip? && Look(buf).crcFailure ==> buf[0] == PREAMBLE
  {
  }

  function TotalLength(frames: seq<seq<Byte>>): nat {
    if frames == [] then 0 else |frames[0]| + TotalLength(frames[1..])
  }

  lemma {:induction false} TotalLengthAppend(a: seq<seq<Byte>>, b: seq<seq<Byte>>)
    ensures TotalLength(a + b) == TotalLength(a) + TotalLength(b)
  {
    if a == [] {
      assert a + b == b;
    } else {
      assert (a + b)[1..] == a[1..] + b;
      TotalLengthAppend(a[1..], b);
    }
  }

  lemma {:induction false} PieceLengths(pieces: seq<Piece>)
    ensures |Reassemble(pieces)| == TotalLength(FramesOf(pieces)) + JunkOf(pieces)
  {
    if pieces != [] {
      PieceLengths(pieces[1..]);
      TotalLengthAppend(match pieces[0] case Junk(_, _, _) => [] case Framed(f) => [f], FramesOf(pieces[1..]));
    }
  }

  /** Over any run of calls and with any buffer limit: bytes fed plus bytes held before equals
      bytes in frames plus resync bytes plus bytes held after. */
  lemma {:induction false} ByteConservation(s: State, limit: nat, chunks: seq<seq<Byte>>)
    ensures
      var (t, frames) := FeedAll(s, limit, chunks);
      |s.buf| + |Flatten(chunks)| + s.counters.resyncBytes
        == TotalLength(frames) + t.counters.resyncBytes + |t.buf|
    decreases |chunks|
  {
    hide Parse, Look;
    if chunks != [] {
      var (s1, f1) := Feed(s, limit, chunks[0]);
      NothingLost(s.buf + chunks[0], s.counters);
      PiecesCounted(s.buf + chunks[0], s.counters);
      PieceLengths(Pieces(s.buf + chunks[0]));
      ByteConservation(s1, limit, chunks[1..]);
      TotalLengthAppend(f1, FeedAll(s1, limit, chunks[1..]).1);
    }
  }

  // ---------------------------------------------------------------- the parser object

  class RtcmParser {
    const limit: nat
    var buf: seq<Byte>
    var frames: nat
    var crcFailures: nat
    var invalidHeaders: nat
    var resyncBytes: nat

    function Model(): State
      reads this
    {
      State(buf, Counters(frames, crcFailures, invalidHeaders, resyncBytes))
    }

    constructor (limit: nat)
      ensures this.limit == limit && Model() == INITIAL
    {
      this.limit := limit;
      buf, frames, crcFailures, invalidHeaders, resyncBytes := [], 0, 0, 0, 0;
    }

    function Counts(): Counters
      reads this
    {
      Counters(frames, crcFailures, invalidHeaders, resyncBytes)
    }

    /** The index loop over the buffer: emits the frames, counts, and stops at the first byte that
        has to wait. */
    method Scan() returns (out: seq<seq<Byte>>, i: nat)
      modifies `frames, `crcFailures, `invalidHeaders, `resyncBytes
      ensures i <= |buf|
      ensures Parse(buf, old(Counts())) == Parsed(out, Counts(), buf[i..])
    {
      hide Crc, SerialCrc, Wire, Look, Parse, Note, Joined;
      ghost var start := Counts();
      out, i := [], 0;
      JoinedNothing(buf, start);
      while i < |buf|
        invariant i <= |buf|
        invariant Joined(out, Parse(buf[i..], Counts())) == Parse(buf, start)
        decreases |buf| - i
      {
        ghost var c := Counts();
        Unfold(buf, i, c, out);
        if buf[i] != PREAMBLE {
          i := i + 1;
          resyncBytes := resyncBytes + 1;
          assert Counts() == Note(c, Skip(false, false)) by { NoteFields(c, Skip(false, false)); }
          continue;
        }
        if i + 3 > |buf| { break; }
        var payload := 3 + MessageLength(buf[i + 1], buf[i + 2]);
        var total := payload + 3;
        if i + total > |buf| { break; }
        var reserved := buf[i + 1] / 4 != 0;
        if reserved { invalidHeaders := invalidHeaders + 1; }
        var crc := Crc24qLoop(buf[i..i + payload]);
        TableIsSerial(buf[i..i + payload]);
        if crc != Wire(buf[i + payload..i + total]) {
          crcFailures := crcFailures + 1;
          i := i + 1;
          resyncBytes := resyncBytes + 1;
          assert Counts() == Note(c, Skip(true, reserved)) by { NoteFields(c, Skip(true, reserved)); }
          continue;
        }
        out := out + [buf[i..i + total]];
        frames := frames + 1;
        i := i + total;
        assert Counts() == Note(c, Accept(total, reserved)) by { NoteFields(c, Accept(total, reserved)); }
      }
      JoinedEnd(buf, i, Counts(), out);
    }

    /** Append, scan, erase the consumed part, drop the oldest bytes above the limit. */
    method FeedBytes(data: seq<Byte>) returns (out: seq<seq<Byte>>)
      modifies this
      ensures (Model(), out) == Feed(old(Model()), limit, data)
    {
      hide Parse;
      var i;
      buf := buf + data;
      out, i := Scan();
      buf := buf[i..];
      if |buf| > limit {
        var drop := |buf| - limit;
        resyncBytes := resyncBytes + drop;
        buf := buf[drop..];
      }
    }
  }

  lemma NoteFields(c: Counters, v: Verdict)
    ensures Note(c, v) == Counters(
      c.frames + (if v.Accept? then 1 else 0),
      c.crcFailures + (if v.Skip? && v.crcFailure then 1 else 0),
      c.invalidHeaders + (if !v.Wait? && v.reserved then 1 else 0),
      c.resyncBytes + (if v.Skip? then 1 else 0))
  {
  }

  lemma JoinedNothing(buf: seq<Byte>, c: Counters)
    ensures Joined([], Parse(buf[0..], c)) == Parse(buf, c)
  {
    assert buf[0..] == buf;
    assert [] + Parse(buf, c).frames == Parse(buf, c).frames;
  }

  lemma JoinedEnd(buf: seq<Byte>, i: nat, c: Counters, out: seq<seq<Byte>>)
    requires i <= |buf|
    requires i == |buf| || Parse(buf[i..], c) == Parsed([], c, buf[i..])
    ensures Joined(out, Parse(buf[i..], c)) == Parsed(out, c, buf[i..])
  {
    assert out + [] == out;
  }

  function Joined(out: seq<seq<Byte>>, r: Parsed): Parsed {
    r.(frames := out + r.frames)
  }

  /** One pass of the scan loop, in the loop's own indices. */
  lemma Unfold(buf: seq<Byte>, i: nat, c: Counters, out: seq<seq<Byte>>)
    requires i < |buf|
    ensures
      var r := Joined(out, Parse(buf[i..], c));
      if buf[i] != PREAMBLE then r == Joined(out, Parse(buf[i + 1..], Note(c, Skip(false, false))))
      else if i + 3 > |buf| then Parse(buf[i..], c) == Parsed([], c, buf[i..])
      else
        var n := i + 3 + MessageLength(buf[i + 1], buf[i + 2]);
        var reserved := buf[i + 1] / 4 != 0;
        if n + 3 > |buf| then Parse(buf[i..], c) == Parsed([], c, buf[i..])
        else if Crc(buf[i..n]) != Wire(buf[n..n + 3]) then
          r == Joined(out, Parse(buf[i + 1..], Note(c, Skip(true, reserved))))
        else
          r == Joined(out + [buf[i..n + 3]], Parse(buf[n + 3..], Note(c, Accept(n + 3 - i, reserved))))
  {
    hide Crc, Wire, Note;
    var here := buf[i..];
    assert here[1..] == buf[i + 1..];
    if buf[i] == PREAMBLE && i + 3 <= |buf| {
      var n := 3 + MessageLength(buf[i + 1], buf[i + 2]);
      if i + n + 3 <= |buf| {
        assert here[..n] == buf[i..i + n];
        assert here[n..n + 3] == buf[i + n..i + n + 3];
        assert here[..n + 3] == buf[i..i + n + 3];
        assert here[n + 3..] == buf[i + n + 3..];
        if Look(here).Accept? {
          var r := Parse(here[n + 3..], Note(c, Look(here)));
          assert out + ([here[..n + 3]] + r.frames) == (out + [here[..n + 3]]) + r.frames;
        }
      }
    }
  }
}
