/** CRC-24Q as division of polynomials over GF(2): numbers stand for polynomials, bit i for x^i. The generator is the
    number 0x1864CFB. */
module CrcDivision {
  import opened Common
  import opened Crc24q

  const GENERATOR: nat := 0x1864CFB

  /** Addition of polynomials: bitwise exclusive or. */
  function Plus(a: nat, b: nat): nat
    decreases a + b
  {
    if a == 0 && b == 0 then 0 else (if a % 2 == b % 2 then 0 else 1) + 2 * Plus(a / 2, b / 2)
  }

  /** Multiplication of polynomials: no carries. */
  function Times(q: nat, g: nat): nat {
    if q == 0 then 0 else Plus(if q % 2 == 1 then g else 0, 2 * Times(q / 2, g))
  }

  /** A message as one number, its first byte the most significant. */
  function Number(data: seq<Byte>): nat {
    if data == [] then 0 else 256 * Number(data[..|data| - 1]) + data[|data| - 1]
  }

  /** The number a register stands for: its bits from position `lo` on. */
  function Weight(c: Bits, lo: nat): nat
    decreases 24 - lo
  {
    if lo >= 24 then 0 else (if lo in c then 1 else 0) + 2 * Weight(c, lo + 1)
  }

  function RegisterNumber(c: Bits): nat { Weight(c, 0) }

  /** Some multiple of the generator equals `n`. */
  ghost predicate Divisible(n: nat) { exists q: nat :: Times(q, GENERATOR) == n }

  // ---------------------------------------------------------------- arithmetic

  lemma {:induction false} PlusZero(a: nat)
    ensures Plus(a, 0) == a && Plus(0, a) == a
  {
    if a > 0 { PlusZero(a / 2); }
  }

  lemma {:induction false} PlusSelf(a: nat)
    ensures Plus(a, a) == 0
  {
    if a > 0 { PlusSelf(a / 2); }
  }

  lemma {:induction false} PlusCommutes(a: nat, b: nat)
    ensures Plus(a, b) == Plus(b, a)
    decreases a + b
  {
    if a > 0 || b > 0 { PlusCommutes(a / 2, b / 2); }
  }

  lemma PlusHalf(a: nat, b: nat)
    ensures Plus(a, b) / 2 == Plus(a / 2, b / 2) && Plus(a, b) % 2 == if a % 2 == b % 2 then 0 else 1
  {
    if a == 0 && b == 0 { PlusZero(0); }
  }

  lemma {:induction false} PlusAssociates(a: nat, b: nat, c: nat)
    ensures Plus(Plus(a, b), c) == Plus(a, Plus(b, c))
    decreases a + b + c
  {
    if a == 0 && b == 0 && c == 0 {
      PlusZero(0);
    } else {
      PlusHalf(a, b);
      PlusHalf(b, c);
      PlusHalf(Plus(a, b), c);
      PlusHalf(a, Plus(b, c));
      PlusAssociates(a / 2, b / 2, c / 2);
    }
  }

  lemma PlusDouble(a: nat, b: nat)
    ensures Plus(2 * a, 2 * b) == 2 * Plus(a, b)
  {
    PlusHalf(2 * a, 2 * b);
  }

  /** x times the k-th power of the variable. */
  function Scale(x: nat, k: nat): nat { if k == 0 then x else 2 * Scale(x, k - 1) }

  /** Polynomials without a common power add up like numbers. */
  lemma {:induction false} PlusDisjoint(x: nat, y: nat, k: nat)
    requires y < Scale(1, k)
    ensures Plus(Scale(x, k), y) == Scale(x, k) + y
  {
    if k == 0 {
      PlusZero(x);
    } else {
      PlusDisjoint(x, y / 2, k - 1);
      PlusHalf(Scale(x, k), y);
    }
  }

  lemma {:induction false} ScaleAdds(x: nat, y: nat, k: nat)
    ensures Scale(x + y, k) == Scale(x, k) + Scale(y, k)
  {
    if k > 0 { ScaleAdds(x, y, k - 1); }
  }

  lemma {:induction false} ScaleDouble(x: nat, k: nat)
    ensures Scale(2 * x, k) == 2 * Scale(x, k)
  {
    if k > 0 { ScaleDouble(x, k - 1); }
  }

  lemma Scale24(x: nat)
    ensures Scale(x, 24) == x * 0x1000000
  {
    Scale4(x, 0);
    Scale4(x, 4);
    Scale4(x, 8);
    Scale4(x, 12);
    Scale4(x, 16);
    Scale4(x, 20);
  }

  lemma Scale4(x: nat, k: nat)
    ensures Scale(x, k + 4) == 16 * Scale(x, k)
    ensures k == 0 ==> Scale(x, k) == x
  {
    assert Scale(x, k + 1) == 2 * Scale(x, k);
    assert Scale(x, k + 2) == 2 * Scale(x, k + 1);
    assert Scale(x, k + 3) == 2 * Scale(x, k + 2);
  }

  // ---------------------------------------------------------------- registers as numbers

  lemma {:induction false} WeightXor(a: Bits, b: Bits, lo: nat)
    ensures Weight(Xor(a, b), lo) == Plus(Weight(a, lo), Weight(b, lo))
    decreases 24 - lo
  {
    hide Plus, Xor, Weight;
    if lo >= 24 {
      WeightNone(a, lo);
      WeightNone(b, lo);
      WeightNone(Xor(a, b), lo);
      PlusZero(Weight(a, lo));
    } else {
      WeightXor(a, b, lo + 1);
      WeightUnfold(a, lo);
      WeightUnfold(b, lo);
      WeightUnfold(Xor(a, b), lo);
      XorHas(a, b, lo);
      var x, y := if lo in a then 1 else 0, if lo in b then 1 else 0;
      PlusLow(x, Weight(a, lo + 1), y, Weight(b, lo + 1));
    }
  }

  lemma WeightNone(c: Bits, lo: nat)
    requires lo >= 24
    ensures Weight(c, lo) == 0
  {
  }

  lemma XorHas(a: Bits, b: Bits, i: nat)
    ensures i in Xor(a, b) <==> (i in a) != (i in b)
  {
  }

  lemma PlusLow(x: nat, u: nat, y: nat, v: nat)
    requires x < 2 && y < 2
    ensures Plus(x + 2 * u, y + 2 * v) == (if x == y then 0 else 1) + 2 * Plus(u, v)
  {
    PlusHalf(x + 2 * u, y + 2 * v);
  }

  lemma {:induction false} WeightBound(c: Bits, lo: nat)
    requires lo <= 24
    ensures Weight(c, lo) < Scale(1, 24 - lo)
    decreases 24 - lo
  {
    if lo < 24 { WeightBound(c, lo + 1); }
  }

  /** Shifting left doubles, apart from the bit that leaves. */
  lemma {:induction false} WeightShift(c: Bits, lo: nat)
    requires lo < 24
    ensures Weight(Shl(c, 1), lo + 1) + (if 23 in c then Scale(1, 23 - lo) else 0) == Weight(c, lo)
    decreases 24 - lo
  {
    if lo < 23 {
      WeightShift(c, lo + 1);
      assert lo + 1 in Shl(c, 1) <==> lo in c by { assert Shifted(c, 1, lo + 1) <==> lo in c; }
    }
  }

  lemma ShiftDoubles(c: Bits)
    ensures 2 * RegisterNumber(c) == Plus(RegisterNumber(Shl(c, 1)), if 23 in c then 0x1000000 else 0)
  {
    hide Plus, Shl;
    ShiftSplits(c);
    var w := RegisterNumber(Shl(c, 1));
    hide RegisterNumber, Scale;
    Scale24(1);
    PlusDisjoint(1, w, 24);
    PlusCommutes(w, 0x1000000);
    PlusZero(w);
  }

  lemma ShiftSplits(c: Bits)
    ensures var w := RegisterNumber(Shl(c, 1));
            2 * RegisterNumber(c) == w + (if 23 in c then 0x1000000 else 0) && w < 0x1000000
  {
    hide Shl, Weight, Scale;
    ShiftSplitsAt(c, 0, 24);
    Scale24(1);
  }

  lemma ShiftSplitsAt(c: Bits, lo: nat, width: nat)
    requires lo == 0 && width == 24
    ensures 2 * Weight(c, lo) == Weight(Shl(c, 1), lo) + (if 23 in c then Scale(1, width) else 0)
    ensures Weight(Shl(c, 1), lo) < Scale(1, width)
  {
    assert lo !in Shl(c, 1);
    hide Shl;
    WeightShift(c, lo);
    WeightUnfold(Shl(c, 1), lo);
    WeightBound(Shl(c, 1), lo);
    ScaleUp(1, width - 1);
  }

  lemma WeightUnfold(c: Bits, lo: nat)
    requires lo < 24
    ensures Weight(c, lo) == (if lo in c then 1 else 0) + 2 * Weight(c, lo + 1)
  {
  }

  lemma ScaleUp(x: nat, k: nat)
    ensures Scale(x, k + 1) == 2 * Scale(x, k)
  {
  }

  lemma PolyWeight()
    ensures RegisterNumber(POLY) == 0x864CFB
  {
    assert Weight(POLY, 23) == 1;
    assert Weight(POLY, 22) == 2;
    assert Weight(POLY, 21) == 4;
    assert Weight(POLY, 20) == 8;
    assert Weight(POLY, 19) == 16;
    assert Weight(POLY, 18) == 33;
    assert Weight(POLY, 17) == 67;
    assert Weight(POLY, 16) == 134;
    assert Weight(POLY, 15) == 268;
    assert Weight(POLY, 14) == 537;
    assert Weight(POLY, 13) == 1074;
    assert Weight(POLY, 12) == 2148;
    assert Weight(POLY, 11) == 4297;
    assert Weight(POLY, 10) == 8595;
    assert Weight(POLY, 9) == 17190;
    assert Weight(POLY, 8) == 34380;
    assert Weight(POLY, 7) == 68761;
    assert Weight(POLY, 6) == 137523;
    assert Weight(POLY, 5) == 275047;
    assert Weight(POLY, 4) == 550095;
    assert Weight(POLY, 3) == 1100191;
    assert Weight(POLY, 2) == 2200382;
    assert Weight(POLY, 1) == 4400765;
    assert Weight(POLY, 0) == 8801531;
  }

  /** The polynomial the register subtracts is the generator without its leading term. */
  lemma GeneratorIsPoly()
    ensures Plus(0x1000000, RegisterNumber(POLY)) == GENERATOR
  {
    PolyWeight();
    hide Plus, Weight;
    Scale24(1);
    PlusDisjoint(1, 0x864CFB, 24);
  }

  // ---------------------------------------------------------------- division, bit by bit

  /** The register holds the remainder of the message so far. */
  ghost predicate Remainder(message: nat, c: Bits) {
    Divisible(Plus(message * 0x1000000, RegisterNumber(c)))
  }

  /** Rearranging one clock. */
  lemma Regroup(m: nat, b: nat, s: nat, t: nat, p: nat)
    ensures Plus(Plus(m, b), Plus(s, p)) == Plus(Plus(m, Plus(s, t)), Plus(Plus(b, t), p))
  {
    var x := Plus(s, t);
    PlusAssociates(m, x, Plus(Plus(b, t), p));
    PlusAssociates(x, Plus(b, t), p);
    PlusCommutes(b, t);
    PlusAssociates(x, t, b);
    PlusAssociates(s, t, t);
    PlusSelf(t);
    PlusZero(s);
    PlusAssociates(s, b, p);
    PlusAssociates(m, b, Plus(s, p));
    PlusAssociates(b, s, p);
    PlusCommutes(b, s);
  }

  lemma BitStep(message: nat, c: Bits, bit: bool)
    requires Remainder(message, c)
    ensures Remainder(2 * message + (if bit then 1 else 0), ShiftIn(c, bit))
  {
    hide Plus, Times, Shl, Xor, Weight;
    var q: nat :| Times(q, GENERATOR) == Plus(message * 0x1000000, RegisterNumber(c));
    var differs := (23 in c) != bit;
    var m, b := 2 * (message * 0x1000000), if bit then 0x1000000 else 0;
    var s, t := RegisterNumber(Shl(c, 1)), if 23 in c then 0x1000000 else 0;
    var p := if differs then RegisterNumber(POLY) else 0;
    ShiftDoubles(c);
    PlusDouble(message * 0x1000000, RegisterNumber(c));
    assert 2 * Times(q, GENERATOR) == Plus(m, Plus(s, t));
    WeightXor(Shl(c, 1), POLY, 0);
    PlusZero(s);
    assert RegisterNumber(ShiftIn(c, bit)) == Plus(s, p);
    MessageBit(message, bit);
    Regroup(m, b, s, t, p);
    GeneratorIsPoly();
    PlusSelf(0x1000000);
    PlusZero(0x1000000);
    PlusZero(0);
    assert Plus(Plus(b, t), p) == if differs then GENERATOR else 0;
    NextMultiple(q, differs);
  }

  lemma MessageBit(message: nat, bit: bool)
    ensures (2 * message + (if bit then 1 else 0)) * 0x1000000
         == Plus(2 * (message * 0x1000000), if bit then 0x1000000 else 0)
  {
    var b := if bit then 1 else 0;
    Scale24(message);
    Scale24(b);
    Scale24(1);
    ScaleDouble(message, 24);
    assert Scale(message, 25) == 2 * Scale(message, 24);
    PlusDisjoint(message, b * 0x1000000, 25);
  }

  lemma NextMultiple(q: nat, one: bool)
    ensures Divisible(Plus(2 * Times(q, GENERATOR), if one then GENERATOR else 0))
  {
    hide Plus;
    var r := 2 * q + (if one then 1 else 0);
    assert r / 2 == q && (r % 2 == 1 <==> one);
    PlusCommutes(2 * Times(q, GENERATOR), if one then GENERATOR else 0);
    PlusZero(0);
    assert Times(r, GENERATOR) == Plus(2 * Times(q, GENERATOR), if one then GENERATOR else 0);
  }

  // ---------------------------------------------------------------- whole messages

  /** The low `k` bits of a byte as a number. */
  function LowBits(d: nat, k: nat): nat {
    if k == 0 then 0 else (if HasBit(d, k - 1) then Scale(1, k - 1) else 0) + LowBits(d, k - 1)
  }

  lemma {:induction false} LowBitsHalf(d: nat, k: nat)
    requires k > 0
    ensures LowBits(d, k) == d % 2 + 2 * LowBits(d / 2, k - 1)
  {
    if k == 1 {
      assert LowBits(d, 0) == 0;
    } else {
      LowBitsHalf(d, k - 1);
    }
  }

  lemma {:induction false} LowBitsAll(d: nat, k: nat)
    requires d < Scale(1, k)
    ensures LowBits(d, k) == d
  {
    if k > 0 {
      LowBitsHalf(d, k);
      LowBitsAll(d / 2, k - 1);
    }
  }

  lemma {:induction false} ByteRemainder(message: nat, c: Bits, d: Byte, k: nat)
    requires Remainder(message, c) && k <= 8
    ensures Remainder(Scale(message, k) + LowBits(d, k), SerialBits(c, ByteBits(d), k))
    decreases k
  {
    hide Remainder, ShiftIn;
    if k > 0 {
      var bit := HasBit(d, k - 1);
      assert (k - 1 in ByteBits(d)) == bit;
      BitStep(message, c, bit);
      var m := 2 * message + (if bit then 1 else 0);
      ByteRemainder(m, ShiftIn(c, bit), d, k - 1);
      ScaleAdds(2 * message, if bit then 1 else 0, k - 1);
      ScaleDouble(message, k - 1);
      ScaleZero(k - 1);
    }
  }

  lemma {:induction false} ScaleZero(k: nat)
    ensures Scale(0, k) == 0
  {
    if k > 0 { ScaleZero(k - 1); }
  }

  lemma {:induction false} SerialRemainder(data: seq<Byte>)
    ensures Remainder(Number(data), SerialCrc(data))
  {
    hide Remainder, SerialBits, ByteBits, SerialCrc, Number;
    SerialUnfold(data, 8);
    if data == [] {
      NoMessage();
    } else {
      var front, d := data[..|data| - 1], data[|data| - 1];
      SerialRemainder(front);
      WholeByte(Number(front), SerialCrc(front), d, 8);
    }
  }

  lemma SerialUnfold(data: seq<Byte>, k: nat)
    requires k == 8
    ensures data == [] ==> Number(data) == 0 && SerialCrc(data) == {}
    ensures data != [] ==>
              var front, d := data[..|data| - 1], data[|data| - 1];
              Number(data) == 256 * Number(front) + d && SerialCrc(data) == SerialBits(SerialCrc(front), ByteBits(d), k)
  {
    hide SerialBits, ByteBits;
  }

  lemma WholeByte(message: nat, c: Bits, d: Byte, k: nat)
    requires Remainder(message, c) && k == 8
    ensures Remainder(256 * message + d, SerialBits(c, ByteBits(d), k))
  {
    hide Remainder, SerialBits, ByteBits;
    ByteRemainder(message, c, d, k);
    hide Scale;
    Scale4(message, k - 8);
    Scale4(message, k - 4);
    Scale4(1, k - 8);
    Scale4(1, k - 4);
    LowBitsAll(d, k);
  }

  lemma NoMessage()
    ensures Remainder(0, {})
  {
    NoWeight(0);
    PlusZero(0);
    assert Times(0, GENERATOR) == 0;
  }

  lemma {:induction false} NoWeight(lo: nat)
    ensures Weight({}, lo) == 0
    decreases 24 - lo
  {
    if lo < 24 { NoWeight(lo + 1); }
  }

  /** The CRC of every message is a remainder of 24 bits: message * x^24 plus the CRC is a multiple of the generator
      x^24 + x^23 + x^18 + x^17 + x^14 + x^11 + x^10 + x^7 + x^6 + x^5 + x^4 + x^3 + x + 1. */
  lemma CrcIsRemainder(data: seq<Byte>)
    ensures RegisterNumber(Crc(data)) < 0x1000000
    ensures Divisible(Plus(Number(data) * 0x1000000, RegisterNumber(Crc(data))))
  {
    hide Plus, Divisible, SerialCrc, Crc;
    TableIsSerial(data);
    SerialRemainder(data);
    WeightBound(Crc(data), 0);
    Scale24(1);
  }

  // ---------------------------------------------------------------- the only remainder

  function Down(x: nat, k: nat): nat { if k == 0 then x else Down(x / 2, k - 1) }

  lemma {:induction false} DownPlus(a: nat, b: nat, k: nat)
    ensures Down(Plus(a, b), k) == Plus(Down(a, k), Down(b, k))
  {
    if k > 0 {
      PlusHalf(a, b);
      DownPlus(a / 2, b / 2, k - 1);
    }
  }

  lemma {:induction false} DownSmall(x: nat, k: nat)
    ensures Down(x, k) == 0 <==> x < Scale(1, k)
  {
    if k > 0 { DownSmall(x / 2, k - 1); }
  }

  /** A multiple of the generator other than zero has degree at least 24. */
  lemma {:induction false} MultiplesAreLarge(q: nat)
    requires q > 0
    ensures Times(q, GENERATOR) >= 0x1000000
  {
    hide Plus;
    var low, high := if q % 2 == 1 then GENERATOR else 0, 2 * Times(q / 2, GENERATOR);
    PlusZero(GENERATOR);
    Scale24(1);
    if q / 2 == 0 {
      assert Times(0, GENERATOR) == 0;
    } else {
      MultiplesAreLarge(q / 2);
      assert Scale(1, 25) == 2 * Scale(1, 24);
      DownPlus(low, high, 25);
      DownSmall(low, 25);
      DownSmall(high, 25);
      DownSmall(Plus(low, high), 25);
      PlusZero(Down(high, 25));
    }
  }

  lemma {:induction false} TimesAdds(q: nat, r: nat)
    ensures Plus(Times(q, GENERATOR), Times(r, GENERATOR)) == Times(Plus(q, r), GENERATOR)
    decreases q + r
  {
    hide Plus;
    PlusHalf(q, r);
    PlusZero(0);
    if q == 0 && r == 0 {
      assert Times(0, GENERATOR) == 0;
    } else {
      TimesAdds(q / 2, r / 2);
      TimesUnfold(q);
      TimesUnfold(r);
      TimesUnfold(Plus(q, r));
      var a, b := if q % 2 == 1 then GENERATOR else 0, if r % 2 == 1 then GENERATOR else 0;
      var u, v := Times(q / 2, GENERATOR), Times(r / 2, GENERATOR);
      hide Times;
      Exchange(a, 2 * u, b, 2 * v);
      PlusDouble(u, v);
      PlusSelf(GENERATOR);
      PlusZero(GENERATOR);
    }
  }

  lemma TimesUnfold(q: nat)
    ensures Times(q, GENERATOR) == Plus(if q % 2 == 1 then GENERATOR else 0, 2 * Times(q / 2, GENERATOR))
  {
    if q == 0 { PlusZero(0); }
  }

  lemma Exchange(a: nat, u: nat, b: nat, v: nat)
    ensures Plus(Plus(a, u), Plus(b, v)) == Plus(Plus(a, b), Plus(u, v))
  {
    hide Plus;
    PlusAssociates(a, u, Plus(b, v));
    PlusAssociates(u, b, v);
    PlusCommutes(u, b);
    PlusAssociates(b, u, v);
    PlusAssociates(a, b, Plus(u, v));
  }

  /** Twenty-four bits are the CRC of a message exactly when message * x^24 plus them is a multiple of the generator. */
  lemma CrcExact(data: seq<Byte>, r: nat)
    requires r < 0x1000000
    ensures r == RegisterNumber(Crc(data)) <==> Divisible(Plus(Number(data) * 0x1000000, r))
  {
    hide Plus, Times, Crc, RegisterNumber;
    CrcIsRemainder(data);
    var m, c := Number(data) * 0x1000000, RegisterNumber(Crc(data));
    if Divisible(Plus(m, r)) {
      var q: nat :| Times(q, GENERATOR) == Plus(m, c);
      var p: nat :| Times(p, GENERATOR) == Plus(m, r);
      TimesAdds(q, p);
      Exchange(m, c, m, r);
      PlusSelf(m);
      PlusZero(Plus(c, r));
      SmallPlus(c, r);
      if Plus(q, p) > 0 { MultiplesAreLarge(Plus(q, p)); }
      TimesNone();
      EqualIfNothing(c, r);
    }
  }

  lemma TimesNone()
    ensures Times(0, GENERATOR) == 0
  {
  }

  lemma SmallPlus(a: nat, b: nat)
    requires a < 0x1000000 && b < 0x1000000
    ensures Plus(a, b) < 0x1000000
  {
    hide Plus;
    Scale24(1);
    DownPlus(a, b, 24);
    DownSmall(a, 24);
    DownSmall(b, 24);
    DownSmall(Plus(a, b), 24);
    PlusZero(0);
  }

  lemma {:induction false} EqualIfNothing(a: nat, b: nat)
    requires Plus(a, b) == 0
    ensures a == b
    decreases a + b
  {
    if a > 0 || b > 0 {
      PlusHalf(a, b);
      EqualIfNothing(a / 2, b / 2);
    }
  }
}
