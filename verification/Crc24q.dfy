/** CRC-24Q as the RTCM parser computes it: a 256-entry table built by repeated polynomial steps
    and a byte-at-a-time loop over it. The reference is the bit-serial shift register of the
    generator polynomial, fed one message bit at a time, most significant bit first.

    A register value is the set of its bit positions, so exclusive or is symmetric difference and
    the mask 0xFFFFFF is "positions below 24". */
module Crc24q {
  import opened Common

  type Bits = set<nat>

  /** 0x1864CFB without its leading bit 24. */
  const POLY: Bits := {0, 1, 3, 4, 5, 6, 7, 10, 11, 14, 17, 18, 23}

  ghost predicate Register(c: Bits) {
    forall i :: i in c ==> i < 24
  }

  function Xor(a: Bits, b: Bits): Bits {
    (a - b) + (b - a)
  }

  /** (c << k) & 0xFFFFFF */
  function Shl(c: Bits, k: nat): Bits {
    set i: nat | i < 24 && Shifted(c, k, i)
  }

  predicate Shifted(c: Bits, k: nat, i: nat) {
    k <= i && i - k in c
  }

  /** (c >> 16) & 0xFF */
  function TopByte(c: Bits): Bits {
    set i: nat | i < 8 && AtTop(c, i)
  }

  predicate AtTop(c: Bits, i: nat) {
    i + 16 in c
  }

  predicate HasBit(d: nat, j: nat) {
    if j == 0 then d % 2 == 1 else HasBit(d / 2, j - 1)
  }

  function ByteBits(d: Byte): Bits {
    set j: nat | j < 8 && HasBit(d, j)
  }

  /** The number whose bits are the members of s from position lo up to position 7. */
  function Value(s: Bits, lo: nat): (v: nat)
    requires lo <= 8
    decreases 8 - lo
  {
    if lo == 8 then 0 else (if lo in s then 1 else 0) + 2 * Value(s, lo + 1)
  }

  // ---------------------------------------------------------------- bit-serial reference

  /** One clock of the shift register: the outgoing bit plus the message bit selects whether the
      polynomial is subtracted. */
  function ShiftIn(c: Bits, bit: bool): Bits {
    if (23 in c) != bit then Xor(Shl(c, 1), POLY) else Shl(c, 1)
  }

  /** Clocks in bits k-1 down to 0 of a byte. */
  function SerialBits(c: Bits, d: Bits, k: nat): Bits
    decreases k
  {
    if k == 0 then c else SerialBits(ShiftIn(c, k - 1 in d), d, k - 1)
  }

  /** The bit-serial CRC of a message, from register value 0. */
  function SerialCrc(data: seq<Byte>): Bits {
    if data == [] then {}
    else SerialBits(SerialCrc(data[..|data| - 1]), ByteBits(data[|data| - 1]), 8)
  }

  // ---------------------------------------------------------------- table form

  /** The loop body that fills the table. */
  function Step(c: Bits): Bits {
    if 23 in c then Xor(Shl(c, 1), POLY) else Shl(c, 1)
  }

  function Steps(c: Bits, k: nat): Bits
    decreases k
  {
    if k == 0 then c else Step(Steps(c, k - 1))
  }

  function TableEntry(i: Bits): Bits {
    Steps(Shl(i, 16), 8)
  }

  function ByteStep(c: Bits, d: Bits): Bits {
    Xor(Shl(c, 8), TableEntry(Xor(TopByte(c), d)))
  }

  function Crc(data: seq<Byte>): Bits {
    if data == [] then {}
    else ByteStep(Crc(data[..|data| - 1]), ByteBits(data[|data| - 1]))
  }

  // ---------------------------------------------------------------- linearity

  /** The polynomial step is linear over exclusive or. */
  lemma StepLinear(a: Bits, b: Bits)
    ensures Step(Xor(a, b)) == Xor(Step(a), Step(b))
  {
    assert Shl(Xor(a, b), 1) == Xor(Shl(a, 1), Shl(b, 1));
  }

  lemma {:induction false} StepsLinear(a: Bits, b: Bits, k: nat)
    ensures Steps(Xor(a, b), k) == Xor(Steps(a, k), Steps(b, k))
  {
    hide Step, Xor;
    if k > 0 {
      StepsLinear(a, b, k - 1);
      StepLinear(Steps(a, k - 1), Steps(b, k - 1));
    }
  }

  lemma {:induction false} StepsAdd(c: Bits, j: nat, k: nat)
    ensures Steps(c, j + k) == Steps(Steps(c, j), k)
  {
    hide Step;
    if k > 0 {
      StepsAdd(c, j, k - 1);
    }
  }

  /** A value with no bit in the top k positions only shifts. */
  lemma {:induction false} StepsShift(c: Bits, k: nat)
    requires k <= 24
    requires forall i :: i in c ==> i < 24 - k
    ensures Steps(c, k) == Shl(c, k)
  {
    if k == 0 {
      assert Shl(c, 0) == c;
    } else {
      hide Step, Shl;
      StepsShift(c, k - 1);
      ShiftStep(c, k);
    }
  }

  /** While the top bit is clear, a step is a shift. */
  lemma ShiftStep(c: Bits, k: nat)
    requires 0 < k <= 24
    requires forall i :: i in c ==> i < 24 - k
    ensures Step(Shl(c, k - 1)) == Shl(c, k)
  {
  }

  /** Steps are injective on registers: the polynomial has a constant term, so the outgoing bit
      can be read back from position 0. */
  lemma {:induction false} StepsInjective(a: Bits, b: Bits, k: nat)
    requires Register(a) && Register(b)
    requires Steps(a, k) == Steps(b, k)
    ensures a == b
  {
    hide Step;
    if k > 0 {
      StepsRegister(a, k - 1);
      StepsRegister(b, k - 1);
      StepInjective(Steps(a, k - 1), Steps(b, k - 1));
      StepsInjective(a, b, k - 1);
    }
  }

  lemma {:induction false} StepsRegister(c: Bits, k: nat)
    requires Register(c)
    ensures Register(Steps(c, k))
  {
    if k > 0 {
      StepsRegister(c, k - 1);
    }
  }

  lemma StepInjective(a: Bits, b: Bits)
    requires Register(a) && Register(b)
    requires Step(a) == Step(b)
    ensures a == b
  {
    assert 0 in Step(a) <==> 23 in a;
    assert 0 in Step(b) <==> 23 in b;
    assert Shl(a, 1) == Shl(b, 1) by {
      forall i: nat
        ensures i in Shl(a, 1) <==> i in Shl(b, 1)
      {
        assert i in Step(a) <==> i in Step(b);
      }
    }
    forall i: nat
      ensures i in a <==> i in b
    {
      if i < 23 {
        assert i + 1 in Shl(a, 1) <==> i in a;
        assert i + 1 in Shl(b, 1) <==> i in b;
      }
    }
  }

  // ---------------------------------------------------------------- table equals bit-serial

  /** Exclusive-oring a whole byte into the top and stepping equals clocking its bits in. */
  lemma {:induction false} SerialIsSteps(c: Bits, d: Bits, k: nat)
    requires k <= 8
    requires Register(c)
    requires forall i :: i in d ==> i < k
    ensures SerialBits(c, d, k) == Steps(Xor(c, Shl(d, 24 - k)), k)
    decreases k
  {
    hide Step, Xor, Shl, ShiftIn, Register;
    if k == 0 {
      NothingToFeed(c, d);
    } else {
      var next, rest := ShiftIn(c, k - 1 in d), d - {k - 1};
      SerialIgnores(next, d, rest, k - 1);
      FeedBit(c, d, k);
      SerialIsSteps(next, rest, k - 1);
      var x := Xor(c, Shl(d, 24 - k));
      StepsAdd(x, 1, k - 1);
      assert Steps(x, 1) == Step(Steps(x, 0));
    }
  }

  lemma NothingToFeed(c: Bits, d: Bits)
    requires Register(c)
    ensures Xor(c, Shl(d, 24)) == c
  {
  }

  lemma FeedBit(c: Bits, d: Bits, k: nat)
    requires 0 < k <= 8
    requires Register(c) && forall i :: i in d ==> i < k
    ensures Register(ShiftIn(c, k - 1 in d))
    ensures Step(Xor(c, Shl(d, 24 - k))) == Xor(ShiftIn(c, k - 1 in d), Shl(d - {k - 1}, 25 - k))
  {
    var x, rest := Xor(c, Shl(d, 24 - k)), d - {k - 1};
    assert 23 in Shl(d, 24 - k) <==> k - 1 in d;
    forall i: nat
      ensures i in Shl(x, 1) <==> i in Xor(Shl(c, 1), Shl(rest, 25 - k))
    {
      if 1 <= i < 24 {
        assert i in Shl(x, 1) <==> i - 1 in x;
        assert i - 1 in Shl(d, 24 - k) <==> i in Shl(rest, 25 - k);
      }
    }
    assert Shl(x, 1) == Xor(Shl(c, 1), Shl(rest, 25 - k));
  }

  /** Clocking in k bits does not look at the bits from k on. */
  lemma {:induction false} SerialIgnores(c: Bits, d: Bits, e: Bits, k: nat)
    requires forall i :: 0 <= i < k ==> (i in d <==> i in e)
    ensures SerialBits(c, d, k) == SerialBits(c, e, k)
    decreases k
  {
    hide ShiftIn;
    if k > 0 {
      SerialIgnores(ShiftIn(c, k - 1 in d), d, e, k - 1);
    }
  }

  /** One table lookup equals eight polynomial steps with the byte on top. */
  lemma ByteStepIsSteps(c: Bits, d: Bits)
    requires Register(c) && forall i :: i in d ==> i < 8
    ensures ByteStep(c, d) == Steps(Xor(c, Shl(d, 16)), 8)
  {
    var low := set i | i in c && i < 16;
    var high := Shl(Xor(TopByte(c), d), 16);
    assert Xor(c, Shl(d, 16)) == Xor(low, high) by {
      forall i: nat
        ensures i in Xor(c, Shl(d, 16)) <==> i in Xor(low, high)
      {
        if 16 <= i < 24 {
          assert i - 16 in TopByte(c) <==> i in c;
          assert i in high <==> i - 16 in Xor(TopByte(c), d);
        }
      }
    }
    StepsLinear(low, high, 8);
    StepsShift(low, 8);
    assert Shl(low, 8) == Shl(c, 8);
  }

  lemma {:induction false} CrcRegister(data: seq<Byte>)
    ensures Register(Crc(data))
  {
    if data != [] {
      var c, d := Crc(data[..|data| - 1]), ByteBits(data[|data| - 1]);
      CrcRegister(data[..|data| - 1]);
      ByteStepIsSteps(c, d);
      StepsRegister(Xor(c, Shl(d, 16)), 8);
    }
  }

  /** The table-driven CRC equals the bit-serial polynomial CRC on every message. */
  lemma {:induction false} TableIsSerial(data: seq<Byte>)
    ensures Crc(data) == SerialCrc(data)
  {
    if data != [] {
      var c, d := Crc(data[..|data| - 1]), ByteBits(data[|data| - 1]);
      TableIsSerial(data[..|data| - 1]);
      CrcRegister(data[..|data| - 1]);
      ByteStepIsSteps(c, d);
      SerialIsSteps(c, d, 8);
    }
  }

  // ---------------------------------------------------------------- appended checksum

  /** Three bytes read as one big-endian 24-bit value. */
  function Wire(w: seq<Byte>): Bits
    requires |w| == 3
  {
    Shl(ByteBits(w[0]), 16) + Shl(ByteBits(w[1]), 8) + ByteBits(w[2])
  }

  function WireBytes(c: Bits): (w: seq<Byte>)
    ensures |w| == 3
  {
    [ByteOf(TopByte(c)), ByteOf(TopByte(Shl(c, 8))), ByteOf(TopByte(Shl(c, 16)))]
  }

  lemma {:induction false} ValueBits(s: Bits, lo: nat, j: nat)
    requires lo + j < 8
    ensures HasBit(Value(s, lo), j) <==> lo + j in s
    decreases j
  {
    if j > 0 {
      ValueBits(s, lo + 1, j - 1);
    }
  }

  lemma ValueBound(s: Bits)
    ensures Value(s, 0) < 256
  {
    assert Value(s, 7) <= 1;
    assert Value(s, 5) <= 7;
    assert Value(s, 3) <= 31;
    assert Value(s, 1) <= 127;
  }

  function ByteOf(s: Bits): Byte {
    ValueBound(s);
    Value(s, 0)
  }

  lemma ByteOfBits(s: Bits)
    requires forall i :: i in s ==> i < 8
    ensures ByteBits(ByteOf(s)) == s
  {
    forall j: nat | j < 8
      ensures HasBit(Value(s, 0), j) <==> j in s
    {
      ValueBits(s, 0, j);
    }
  }

  lemma WireRoundTrip(c: Bits)
    requires Register(c)
    ensures Wire(WireBytes(c)) == c
  {
    ByteOfBits(TopByte(c));
    ByteOfBits(TopByte(Shl(c, 8)));
    ByteOfBits(TopByte(Shl(c, 16)));
    forall i: nat
      ensures i in Wire(WireBytes(c)) <==> i in c
    {
      if i < 8 {
        assert i in TopByte(Shl(c, 16)) <==> i in c;
      } else if i < 16 {
        assert i - 8 in TopByte(Shl(c, 8)) <==> i in c;
      } else if i < 24 {
        assert i - 16 in TopByte(c) <==> i in c;
      }
    }
  }

  /** A message followed by three bytes leaves the zero remainder exactly when the three bytes are
      its CRC: checking the trailer and dividing the whole frame are the same test. */
  lemma ResidueZero(data: seq<Byte>, w: seq<Byte>)
    requires |w| == 3
    ensures Crc(data + w) == {} <==> Crc(data) == Wire(w)
  {
    hide *;
    var c := Crc(data);
    var d0, d1, d2 := ByteBits(w[0]), ByteBits(w[1]), ByteBits(w[2]);
    var x := Xor(c, Shl(d0, 16));
    var y := Xor(x, Shl(d1, 8));
    var z := Xor(y, Shl(d2, 0));
    CrcRegister(data);
    CrcAppend(data, w[0]);
    CrcAppend(data + [w[0]], w[1]);
    CrcAppend(data + [w[0]] + [w[1]], w[2]);
    assert data + w == data + [w[0]] + [w[1]] + [w[2]];
    FoldByte(x, 8, w[1]);
    FoldByte(y, 16, w[2]);
    assert Crc(data + w) == Steps(z, 24);
    WireXor(c, w);
    ZeroSteps(z);
  }

  lemma ZeroSteps(z: Bits)
    requires Register(z)
    ensures Steps(z, 24) == {} <==> z == {}
  {
    hide Steps;
    StepsShift({}, 24);
    assert Shl({}, 24) == {};
    if Steps(z, 24) == {} {
      StepsInjective(z, {}, 24);
    }
  }

  lemma WireXor(c: Bits, w: seq<Byte>)
    requires |w| == 3 && Register(c)
    ensures
      var z := Xor(Xor(Xor(c, Shl(ByteBits(w[0]), 16)), Shl(ByteBits(w[1]), 8)), Shl(ByteBits(w[2]), 0));
      Register(z) && (z == {} <==> c == Wire(w))
  {
    var a, b, d := Shl(ByteBits(w[0]), 16), Shl(ByteBits(w[1]), 8), Shl(ByteBits(w[2]), 0);
    assert d == ByteBits(w[2]);
    assert forall i :: i in a ==> 16 <= i < 24;
    assert forall i :: i in b ==> 8 <= i < 16;
    assert Xor(Xor(Xor(c, a), b), d) == Xor(c, Wire(w));
  }

  lemma CrcAppend(data: seq<Byte>, d: Byte)
    ensures Crc(data + [d]) == Steps(Xor(Crc(data), Shl(ByteBits(d), 16)), 8)
  {
    CrcRegister(data);
    ByteStepIsSteps(Crc(data), ByteBits(d));
    assert (data + [d])[..|data|] == data;
  }

  lemma FoldByte(x: Bits, k: nat, b: Byte)
    requires k <= 16
    ensures Steps(Xor(Steps(x, k), Shl(ByteBits(b), 16)), 8) == Steps(Xor(x, Shl(ByteBits(b), 16 - k)), k + 8)
  {
    hide *;
    var r := Shl(ByteBits(b), 16 - k);
    ShlShl(b, k);
    StepsShift(r, k);
    StepsLinear(x, r, k);
    StepsAdd(Xor(x, r), k, 8);
  }

  lemma ShlShl(b: Byte, k: nat)
    requires k <= 16
    ensures
      var r := Shl(ByteBits(b), 16 - k);
      (forall i :: i in r ==> i < 24 - k) && Shl(r, k) == Shl(ByteBits(b), 16)
  {
    var r := Shl(ByteBits(b), 16 - k);
    forall i: nat
      ensures i in Shl(r, k) <==> i in Shl(ByteBits(b), 16)
    {
      if k <= i < 24 { assert i - k in r <==> i in Shl(ByteBits(b), 16); }
    }
  }

  // ---------------------------------------------------------------- the loops of the source

  /** The inner loop of the table: eight polynomial steps of i << 16. */
  method FillEntry(i: Byte) returns (crc: Bits)
    ensures crc == TableEntry(ByteBits(i))
  {
    hide Step, Shl, ByteBits;
    crc := Shl(ByteBits(i), 16);
    for k := 0 to 8
      invariant crc == Steps(Shl(ByteBits(i), 16), k)
    {
      crc := Step(crc);
    }
  }

  method BuildTable() returns (t: array<Bits>)
    ensures fresh(t) && t.Length == 256
    ensures forall i: Byte :: t[i] == TableEntry(ByteBits(i))
  {
    hide TableEntry, ByteBits;
    t := new Bits[256](_ => {});
    for i := 0 to 256
      invariant forall j: Byte :: j < i ==> t[j] == TableEntry(ByteBits(j))
    {
      var entry := FillEntry(i);
      t[i] := entry;
    }
  }

  /** The byte loop over the table computes the bit-serial CRC-24Q of the data. */
  method Crc24qLoop(data: seq<Byte>) returns (crc: Bits)
    ensures crc == SerialCrc(data)
  {
    hide TableEntry, ByteStep, Crc, SerialCrc, Shl, Xor, TopByte, ByteBits, ByteOf;
    var t := BuildTable();
    crc := {};
    CrcOfNothing();
    for i := 0 to |data|
      invariant forall j: Byte :: t[j] == TableEntry(ByteBits(j))
      invariant crc == Crc(data[..i])
    {
      var index := Xor(TopByte(crc), ByteBits(data[i]));
      LoopStep(data, i);
      crc := Xor(Shl(crc, 8), t[ByteOf(index)]);
    }
    assert data[..|data|] == data;
    TableIsSerial(data);
  }

  lemma CrcOfNothing()
    ensures Crc([]) == {}
  {
  }

  lemma LoopStep(data: seq<Byte>, i: nat)
    requires i < |data|
    ensures
      var c := Crc(data[..i]);
      var index := Xor(TopByte(c), ByteBits(data[i]));
      ByteBits(ByteOf(index)) == index && Crc(data[..i + 1]) == Xor(Shl(c, 8), TableEntry(index))
  {
    ByteOfBits(Xor(TopByte(Crc(data[..i])), ByteBits(data[i])));
    assert data[..i + 1][..i] == data[..i];
  }
}
