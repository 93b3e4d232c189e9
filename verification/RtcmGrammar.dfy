/** The frames and the scan in the terms of RTCM 10403, section 4, without reference to how the parser computes them. */
module RtcmGrammar {
  import opened Common
  import K = Crc24q
  import opened CrcDivision
  import opened Rtcm

  /** Three big-endian bytes. */
  function Trailer(t: seq<Byte>): nat
    requires |t| == 3
  {
    0x10000 * (t[0] as int) + 0x100 * (t[1] as int) + t[2] as int
  }

  /** A transport frame: preamble, six reserved bits, a ten-bit length, the message, and its 24-bit checksum. */
  ghost predicate IsFrame(bytes: seq<Byte>) {
    && 6 <= |bytes| <= 1029
    && bytes[0] == 0xD3
    && |bytes| - 6 == (bytes[1] as int) % 4 * 256 + bytes[2] as int
    && Divisible(Plus(Number(bytes[..|bytes| - 3]) * 0x1000000, Trailer(bytes[|bytes| - 3..])))
  }

  // ---------------------------------------------------------------- the trailer

  lemma {:induction false} WeightByte(c: K.Bits, d: nat, base: nat, k: nat)
    requires base + k <= 24 && d < Scale(1, k)
    requires forall j: nat :: j < k ==> (base + j in c <==> K.HasBit(d, j))
    ensures Weight(c, base) == d + Scale(Weight(c, base + k), k)
    decreases k
  {
    hide Weight;
    if k > 0 {
      WeightUnfold(c, base);
      assert base + 0 in c <==> K.HasBit(d, 0);
      forall j: nat | j < k - 1
        ensures base + 1 + j in c <==> K.HasBit(d / 2, j)
      {
        assert base + (j + 1) in c <==> K.HasBit(d, j + 1);
      }
      WeightByte(c, d / 2, base + 1, k - 1);
    }
  }

  lemma WireNumber(t: seq<Byte>)
    requires |t| == 3
    ensures RegisterNumber(K.Wire(t)) == Trailer(t)
  {
    WireBits(t);
    hide K.Wire, Weight, Scale;
    WireAt(K.Wire(t), t, 0, 8);
  }

  lemma WireBits(t: seq<Byte>)
    requires |t| == 3
    ensures forall j: nat :: j < 8 ==>
              && (0 + j in K.Wire(t) <==> K.HasBit(t[2], j))
              && (8 + j in K.Wire(t) <==> K.HasBit(t[1], j))
              && (16 + j in K.Wire(t) <==> K.HasBit(t[0], j))
  {
    hide K.HasBit;
  }

  lemma WireAt(c: K.Bits, t: seq<Byte>, lo: nat, k: nat)
    requires |t| == 3 && lo == 0 && k == 8
    requires forall j: nat :: j < 8 ==>
               && (0 + j in c <==> K.HasBit(t[2], j)) && (8 + j in c <==> K.HasBit(t[1], j))
               && (16 + j in c <==> K.HasBit(t[0], j))
    ensures Weight(c, lo) == Trailer(t)
  {
    hide Weight, Scale, K.HasBit;
    Scale8(1, k);
    WeightByte(c, t[2], lo, k);
    WeightByte(c, t[1], lo + 8, k);
    WeightByte(c, t[0], lo + 16, k);
    WeightNone(c, lo + 24);
    Scale8(Weight(c, lo + 24), k);
    Scale8(Weight(c, lo + 16), k);
    Scale8(Weight(c, lo + 8), k);
  }

  lemma Scale8(x: nat, k: nat)
    requires k == 8
    ensures Scale(x, k) == 256 * x
  {
    hide Scale;
    Scale4(x, k - 8);
    Scale4(x, k - 4);
  }

  // ---------------------------------------------------------------- the validator

  lemma {:induction false} SameNumber(a: K.Bits, b: K.Bits, lo: nat, i: nat)
    requires Weight(a, lo) == Weight(b, lo) && lo <= i < 24
    ensures i in a <==> i in b
    decreases 24 - lo
  {
    hide Weight;
    WeightUnfold(a, lo);
    WeightUnfold(b, lo);
    if lo < i { SameNumber(a, b, lo + 1, i); }
  }

  lemma RegisterInjective(a: K.Bits, b: K.Bits)
    requires K.Register(a) && K.Register(b) && RegisterNumber(a) == RegisterNumber(b)
    ensures a == b
  {
    hide Weight;
    forall i: nat | i < 24
      ensures i in a <==> i in b
    {
      SameNumber(a, b, 0, i);
    }
    assert forall i :: i in a <==> i in b;
  }

  lemma WireRegister(t: seq<Byte>)
    requires |t| == 3
    ensures K.Register(K.Wire(t))
  {
    hide K.HasBit;
  }

  /** The trailer is the checksum of the bytes before it exactly when it completes a multiple of the generator. */
  lemma TrailerExact(body: seq<Byte>, t: seq<Byte>)
    requires |t| == 3
    ensures K.Crc(body) == K.Wire(t) <==> Divisible(Plus(Number(body) * 0x1000000, Trailer(t)))
  {
    hide K.Crc, K.Wire, Plus, Divisible, RegisterNumber;
    WireNumber(t);
    CrcExact(body, Trailer(t));
    K.CrcRegister(body);
    WireRegister(t);
    if RegisterNumber(K.Crc(body)) == RegisterNumber(K.Wire(t)) { RegisterInjective(K.Crc(body), K.Wire(t)); }
  }

  /** The validator accepts exactly the transport frames. */
  lemma ValidIsFrame(bytes: seq<Byte>)
    ensures Validate(bytes) <==> IsFrame(bytes)
  {
    hide K.Crc, K.Wire, Plus, Divisible;
    if |bytes| >= 6 { TrailerExact(bytes[..|bytes| - 3], bytes[|bytes| - 3..]); }
  }

  /** The frame built around a message carries that message, with no reserved bits. */
  lemma BuildCarries(message: seq<Byte>)
    requires |message| <= 1023
    ensures IsFrame(Build(message)) && Build(message)[3..|message| + 3] == message && Build(message)[1] < 4
  {
    hide Validate, IsFrame, K.Crc;
    BuildIsValid(message);
    ValidIsFrame(Build(message));
  }

  // ---------------------------------------------------------------- the scan

  /** How long the frame that the buffer would begin with is, once its header is there. */
  function Announced(buf: seq<Byte>): nat
    requires |buf| >= 3
  {
    (buf[1] as int) % 4 * 256 + buf[2] as int + 6
  }

  /** The buffer begins with a preamble, and the frame it announces is not all there yet. */
  predicate Unfinished(buf: seq<Byte>) {
    buf != [] && buf[0] == 0xD3 && (|buf| < 3 || |buf| < Announced(buf))
  }

  /** The buffer begins with a whole frame. */
  ghost predicate FrameAhead(buf: seq<Byte>) {
    |buf| >= 3 && Announced(buf) <= |buf| && IsFrame(buf[..Announced(buf)])
  }

  /** What the scan decides: it waits exactly on an unfinished frame, takes exactly a whole frame, and skips one byte
      otherwise, which it counts as a checksum failure exactly when it is a preamble. */
  lemma LookExact(buf: seq<Byte>)
    requires buf != []
    ensures Look(buf).Wait? <==> Unfinished(buf)
    ensures Look(buf).Accept? <==> FrameAhead(buf)
    ensures FrameAhead(buf) ==> Look(buf) == Accept(Announced(buf), buf[1] >= 4)
    ensures Look(buf).Skip? ==> Look(buf).crcFailure == (buf[0] == 0xD3)
    ensures Look(buf).Skip? ==> Look(buf).reserved == (buf[0] == 0xD3 && |buf| > 1 && buf[1] >= 4)
  {
    hide K.Crc, K.Wire, IsFrame;
    if |buf| >= 3 {
      HeaderReads(buf);
      if Announced(buf) <= |buf| { WholeFrame(buf); }
    }
  }

  lemma HeaderReads(buf: seq<Byte>)
    requires |buf| >= 3
    ensures 3 + MessageLength(buf[1], buf[2]) + 3 == Announced(buf) && (buf[1] / 4 != 0 <==> buf[1] >= 4)
  {
  }

  lemma WholeFrame(buf: seq<Byte>)
    requires |buf| >= 3 && Announced(buf) <= |buf|
    ensures var n := Announced(buf) - 3;
            IsFrame(buf[..Announced(buf)]) <==> buf[0] == 0xD3 && K.Crc(buf[..n]) == K.Wire(buf[n..n + 3])
  {
    hide K.Crc, K.Wire, Plus, Divisible, Number;
    var f, n := buf[..Announced(buf)], Announced(buf) - 3;
    assert f[..n] == buf[..n] && f[n..] == buf[n..n + 3];
    assert f[0] == buf[0] && f[1] == buf[1] && f[2] == buf[2];
    TrailerExact(f[..n], f[n..]);
  }

  /** What is kept between calls is nothing, or the beginning of a frame that is not all there. */
  lemma RetainedIsUnfinished(buf: seq<Byte>, c: Counters)
    ensures Parse(buf, c).rest == [] || Unfinished(Parse(buf, c).rest)
  {
    hide Parse, Look, Unfinished;
    ParseQuiescent(buf, c);
    if Parse(buf, c).rest != [] { LookExact(Parse(buf, c).rest); }
  }

  /** Bytes without a preamble in front of frames are skipped one by one, and every frame after them is found. */
  lemma {:induction false} FindsFramesAfterNoise(noise: seq<Byte>, frames: seq<seq<Byte>>, c: Counters)
    requires (forall i :: 0 <= i < |noise| ==> noise[i] != 0xD3) && AllValid(frames)
    ensures var r := Parse(noise + Flatten(frames), c);
            && r.frames == frames && r.rest == []
            && r.counters.resyncBytes == c.resyncBytes + |noise| && r.counters.crcFailures == c.crcFailures
    decreases |noise|
  {
    hide Validate, AllValid, Flatten;
    if noise == [] {
      assert noise + Flatten(frames) == Flatten(frames);
      FramesRoundTrip(frames, c);
    } else {
      var buf := noise + Flatten(frames);
      assert buf[0] == noise[0] && buf[1..] == noise[1..] + Flatten(frames);
      assert Look(buf) == Skip(false, false);
      FindsFramesAfterNoise(noise[1..], frames, Note(c, Skip(false, false)));
    }
  }

  /** When the buffer is over its limit, the oldest bytes go, are counted, and the newest `limit` stay. */
  lemma OverflowKeepsNewest(s: State, limit: nat, data: seq<Byte>)
    ensures var r, t := Parse(s.buf + data, s.counters), Feed(s, limit, data);
            var lost := |r.rest| - |t.0.buf|;
            && |t.0.buf| == (if |r.rest| < limit then |r.rest| else limit)
            && t.0.buf == r.rest[lost..] && t.1 == r.frames
            && t.0.counters == r.counters.(resyncBytes := r.counters.resyncBytes + lost)
  {
    hide Parse;
  }
}
