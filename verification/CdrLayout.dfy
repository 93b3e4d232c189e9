/** The bytes of an encoding in the terms of classic CDR (OMG DDS-XTypes, section 7.4.1): atoms, each aligned to its own
    size by the least number of zero bytes, one after another. The statements do not use the writer's own padding. */
module CdrLayout {
  import opened Common
  import opened Cdr

  /** Bytes that start at a multiple of `align`. */
  datatype Atom = Atom(align: nat, bytes: seq<Byte>)

  function Extent(p: Prim): nat {
    match p
    case Bool => 1
    case Unsigned(w) => (match w case W1 => 1 case W2 => 2 case W4 => 4 case W8 => 8)
    case Signed(w) => (match w case W1 => 1 case W2 => 2 case W4 => 4 case W8 => 8)
    case Floating(w) => (match w case W1 => 1 case W2 => 2 case W4 => 4 case W8 => 8)
  }

  function Raised(k: nat): (p: nat)
    ensures p > 0
  {
    if k == 0 then 1 else 256 * Raised(k - 1)
  }

  /** Byte `i` of an integer, counted from the low end; a negative one is in two's complement. */
  function ByteOf(n: int, i: nat): Byte { n / Raised(i) % 256 }

  function Octets(n: int, k: nat): (bs: seq<Byte>)
    ensures |bs| == k && forall i :: 0 <= i < k ==> bs[i] == ByteOf(n, i)
  {
    seq(k, i requires 0 <= i < k => ByteOf(n, i))
  }

  /** What a primitive can hold. */
  predicate Holds(p: Prim, v: Value) {
    match p
    case Bool => v.VBool?
    case Unsigned(_) => v.VInt? && 0 <= v.n < Raised(Extent(p))
    case Signed(_) => v.VInt? && 0 <= Raised(Extent(p)) + 2 * v.n && 2 * v.n < Raised(Extent(p))
    case Floating(_) => v.VFloat? && |v.pattern| == Extent(p)
  }

  function PrimAtom(p: Prim, v: Value): Atom
    requires Holds(p, v)
  {
    match p
    case Bool => Atom(1, [if v.b then 1 else 0])
    case Unsigned(_) => Atom(Extent(p), Octets(v.n, Extent(p)))
    case Signed(_) => Atom(Extent(p), Octets(v.n, Extent(p)))
    case Floating(_) => Atom(Extent(p), v.pattern)
  }

  // ---------------------------------------------------------------- layout

  /** The least number of bytes that brings `at` to a multiple of `n`. */
  ghost predicate LeastGap(at: nat, n: nat, z: nat)
    requires n > 0
  {
    Aligned(at + z, n) && forall q: nat :: at <= q < at + z ==> !Aligned(q, n)
  }

  predicate Aligned(at: nat, n: nat)
    requires n > 0
  {
    at % n == 0
  }

  /** The bytes are these atoms, laid out from position `at` on. */
  ghost predicate Laid(atoms: seq<Atom>, bs: seq<Byte>, at: nat)
    decreases |atoms|
  {
    if atoms == [] then bs == []
    else
      exists z: nat :: Begins(atoms[0], bs, at, z) &&
        var n := z + |atoms[0].bytes|; Laid(atoms[1..], bs[n..], at + n)
  }

  ghost predicate Begins(a: Atom, bs: seq<Byte>, at: nat, z: nat) {
    && a.align > 0 && LeastGap(at, a.align, z)
    && z + |a.bytes| <= |bs| && (forall i: nat :: i < z ==> bs[i] == 0)
    && bs[z..z + |a.bytes|] == a.bytes
  }

  lemma LaidUnfold(atoms: seq<Atom>, bs: seq<Byte>, at: nat) returns (z: nat)
    requires atoms != [] && Laid(atoms, bs, at)
    ensures Begins(atoms[0], bs, at, z)
    ensures var n := z + |atoms[0].bytes|; Laid(atoms[1..], bs[n..], at + n)
  {
    z :| Begins(atoms[0], bs, at, z) && var n := z + |atoms[0].bytes|; Laid(atoms[1..], bs[n..], at + n);
  }

  lemma LaidFold(atoms: seq<Atom>, bs: seq<Byte>, at: nat, z: nat)
    requires atoms != [] && Begins(atoms[0], bs, at, z)
    requires var n := z + |atoms[0].bytes|; Laid(atoms[1..], bs[n..], at + n)
    ensures Laid(atoms, bs, at)
  {
  }

  lemma BeginsLonger(a: Atom, x: seq<Byte>, y: seq<Byte>, at: nat, z: nat)
    requires Begins(a, x, at, z)
    ensures Begins(a, x + y, at, z) && (x + y)[z + |a.bytes|..] == x[z + |a.bytes|..] + y
  {
    assert (x + y)[z..z + |a.bytes|] == x[z..z + |a.bytes|];
  }

  lemma {:induction false} LaidAppend(a: seq<Atom>, x: seq<Byte>, at: nat, b: seq<Atom>, y: seq<Byte>)
    requires Laid(a, x, at) && Laid(b, y, at + |x|)
    ensures Laid(a + b, x + y, at)
    decreases |a|
  {
    hide Laid, Begins;
    if a == [] {
      NothingLaid(a, x, at);
      assert a + b == b && x + y == y;
    } else {
      var z := LaidUnfold(a, x, at);
      BeginsFits(a[0], x, at, z);
      var n := z + |a[0].bytes|;
      LaidAppend(a[1..], x[n..], at + n, b, y);
      BeginsLonger(a[0], x, y, at, z);
      TailOfBoth(a, b);
      LaidPrepend(a + b, a[1..] + b, x + y, x[n..] + y, at, z, n);
    }
  }

  lemma NothingLaid(a: seq<Atom>, x: seq<Byte>, at: nat)
    requires a == [] && Laid(a, x, at)
    ensures x == []
  {
  }

  lemma TailOfBoth(a: seq<Atom>, b: seq<Atom>)
    requires a != []
    ensures (a + b)[1..] == a[1..] + b && (a + b)[0] == a[0]
  {
  }

  lemma LaidPrepend(atoms: seq<Atom>, tail: seq<Atom>, bs: seq<Byte>, rest: seq<Byte>, at: nat, z: nat, n: nat)
    requires atoms != [] && tail == atoms[1..] && n <= |bs| && rest == bs[n..]
    requires Begins(atoms[0], bs, at, z) && n == z + |atoms[0].bytes| && Laid(tail, rest, at + n)
    ensures Laid(atoms, bs, at)
  {
    hide Begins;
  }

  lemma BeginsFits(a: Atom, bs: seq<Byte>, at: nat, z: nat)
    requires Begins(a, bs, at, z)
    ensures z + |a.bytes| <= |bs|
  {
  }

  lemma LaidOne(a: Atom, bs: seq<Byte>, at: nat, z: nat)
    requires a.align > 0 && LeastGap(at, a.align, z) && bs == Zeros(z) + a.bytes
    ensures Laid([a], bs, at)
  {
    hide LeastGap;
    assert bs[z..z + |a.bytes|] == a.bytes;
    assert Begins(a, bs, at, z);
    assert [a][0] == a && [a][1..] == [] && bs[z + |a.bytes|..] == [];
    LaidFold([a], bs, at, z);
  }

  lemma PadIsLeast(at: nat, n: nat)
    requires n > 0
    ensures LeastGap(at, n, Pad(at, n))
  {
    var k, r, z := at / n, at % n, Pad(at, n);
    assert at == n * k + r;
    forall q: nat | at <= q < at + z
      ensures !Aligned(q, n)
    {
      Remainder(n, k, q - n * k);
    }
    if r > 0 {
      assert n * (k + 1) == n * k + n;
      Remainder(n, k + 1, 0);
    }
  }

  lemma Remainder(n: nat, k: nat, s: nat)
    requires s < n
    ensures (n * k + s) % n == s
  {
    DivideBack(n, k, s);
  }

  // ---------------------------------------------------------------- integers

  lemma Quotients(n: int, p: nat)
    requires p > 0
    ensures n / 256 / p == n / (256 * p)
  {
    var q := n / (256 * p);
    var r := n - (256 * p) * q;
    assert 0 <= r < 256 * p;
    assert (256 * p) * q == 256 * (p * q);
    assert n / 256 == p * q + r / 256;
    assert 0 <= r / 256 < p;
    DivideBack(p, q, r / 256);
  }

  lemma DivideBack(p: nat, q: int, s: int)
    requires p > 0 && 0 <= s < p
    ensures (p * q + s) / p == q
  {
    var d := (p * q + s) / p;
    assert p * d <= p * q + s < p * d + p;
    if d < q { Gap(p, d, q); } else if q < d { Gap(p, q, d); }
  }

  lemma Gap(p: nat, a: int, b: int)
    requires p > 0 && a < b
    ensures p * a + p <= p * b
  {
    assert p * (b - a - 1) >= 0;
    assert p * (b - a - 1) == p * b - p * a - p;
  }

  lemma LowByte(n: int)
    ensures ByteOf(n, 0) == n % 256
  {
  }

  lemma ByteNext(n: int, i: nat)
    ensures ByteOf(n, i + 1) == ByteOf(n / 256, i)
  {
    Quotients(n, Raised(i));
  }

  lemma {:induction false} LittleEndianBytes(n: nat, k: nat, i: nat)
    requires i < k
    ensures LittleEndian(n, k)[i] == ByteOf(n, i)
  {
    hide ByteOf;
    if i > 0 {
      LittleEndianBytes(n / 256, k - 1, i - 1);
      ByteNext(n, i - 1);
    } else {
      LowByte(n);
    }
  }

  /** Adding the whole range leaves every byte in place. */
  lemma {:induction false} Complement(n: int, k: nat, i: nat)
    requires i < k
    ensures ByteOf(n + Raised(k), i) == ByteOf(n, i)
    decreases i
  {
    hide ByteOf;
    assert Raised(k) == 256 * Raised(k - 1);
    if i == 0 {
      LowByte(n);
      LowByte(n + Raised(k));
    } else {
      ByteNext(n, i - 1);
      ByteNext(n + Raised(k), i - 1);
      assert (n + Raised(k)) / 256 == n / 256 + Raised(k - 1);
      Complement(n / 256, k - 1, i - 1);
    }
  }

  // ---------------------------------------------------------------- primitives

  lemma RangeOf(p: Prim)
    requires p.Unsigned? || p.Signed?
    ensures Size(p) == Extent(p) && Span(p.width) == Raised(Extent(p))
  {
    assert Raised(2) == 0x1_0000;
    assert Raised(4) == 0x1_0000_0000;
    assert Raised(6) == 0x1_0000_0000_0000;
  }

  /** What the writer takes for a primitive is what it can hold. */
  lemma FitsHolds(p: Prim, v: Value)
    ensures Fits(p, v) <==> Holds(p, v)
    ensures Size(p) == Extent(p)
  {
    hide Raised, Span;
    if p.Unsigned? || p.Signed? {
      RangeOf(p);
      EvenRange(p.width);
    }
  }

  lemma EvenRange(w: Width)
    ensures Span(w) % 2 == 0
  {
  }

  lemma PackIs(p: Prim, v: Value)
    requires Fits(p, v) && Holds(p, v)
    ensures Pack(p, v) == PrimAtom(p, v).bytes
  {
    hide ByteOf, Raised, LittleEndian, Span;
    if p.Unsigned? || p.Signed? {
      RangeOf(p);
      var k, n := Extent(p), v.n;
      var m := if n < 0 then n + Raised(k) else n;
      assert Pack(p, v) == LittleEndian(m, k) by { SizeIsBytes(p); }
      forall i: nat | i < k
        ensures LittleEndian(m, k)[i] == ByteOf(n, i)
      {
        LittleEndianBytes(m, k, i);
        if n < 0 { Complement(n, k, i); }
      }
    }
  }

  lemma SizeIsBytes(p: Prim)
    requires p.Unsigned? || p.Signed?
    ensures Bytes(p.width) == Extent(p)
  {
  }

  function PrimAtoms(p: Prim, vs: seq<Value>): seq<Atom>
    requires forall v :: v in vs ==> Holds(p, v)
  {
    if vs == [] then [] else [PrimAtom(p, vs[0])] + PrimAtoms(p, vs[1..])
  }

  lemma ExtentsAlign(p: Prim)
    ensures Extent(p) == 1 || Extent(p) == 2 || Extent(p) == 4 || Extent(p) == 8
  {
  }

  lemma AtomAligned(p: Prim, v: Value)
    requires Holds(p, v)
    ensures PrimAtom(p, v).align == Extent(p) == |PrimAtom(p, v).bytes|
  {
  }

  lemma PrimLaid(p: Prim, v: Value, at: nat)
    ensures WritePrim(p, v, at).Some? <==> Holds(p, v)
    ensures Holds(p, v) ==> Laid([PrimAtom(p, v)], WritePrim(p, v, at).value, at)
  {
    hide Fits, Holds, Pack, PrimAtom, Pad, LeastGap, Laid, Extent;
    FitsHolds(p, v);
    ExtentsAlign(p);
    PadIsLeast(at, Extent(p));
    if Holds(p, v) {
      PackIs(p, v);
      AtomAligned(p, v);
      LaidOne(PrimAtom(p, v), WritePrim(p, v, at).value, at, Pad(at, Size(p)));
    }
  }

  /** After the first of an array the others are aligned already. */
  lemma {:induction false} PackedLaid(p: Prim, vs: seq<Value>, at: nat)
    requires (forall v :: v in vs ==> Fits(p, v) && Holds(p, v)) && Aligned(at, Extent(p))
    ensures Laid(PrimAtoms(p, vs), PackAll(p, vs), at)
    decreases |vs|
  {
    hide Fits, Holds, Pack, PrimAtom, Laid, Extent;
    if vs == [] {
      NoAtoms(at);
    } else {
      assert vs[0] in vs;
      FitsHolds(p, vs[0]);
      PackIs(p, vs[0]);
      AtomAligned(p, vs[0]);
      ExtentsAlign(p);
      var first := Pack(p, vs[0]);
      assert first == Zeros(0) + first;
      LaidOne(PrimAtom(p, vs[0]), first, at, 0);
      NextAligned(at, Extent(p));
      PackedLaid(p, vs[1..], at + |first|);
      LaidAppend([PrimAtom(p, vs[0])], first, at, PrimAtoms(p, vs[1..]), PackAll(p, vs[1..]));
    }
  }

  lemma NoAtoms(at: nat)
    ensures Laid([], [], at)
  {
  }

  lemma NextAligned(at: nat, n: nat)
    requires n == 1 || n == 2 || n == 4 || n == 8
    requires Aligned(at, n)
    ensures Aligned(at + n, n)
  {
  }

  lemma PrimsLaid(p: Prim, vs: seq<Value>, at: nat)
    ensures WritePrims(p, vs, at).Some? <==> forall v :: v in vs ==> Holds(p, v)
    ensures WritePrims(p, vs, at).Some? ==> Laid(PrimAtoms(p, vs), WritePrims(p, vs, at).value, at)
  {
    hide Fits, Holds, Pack, PrimAtom, Laid, Extent, Pad, LeastGap;
    forall v | v in vs
      ensures Fits(p, v) <==> Holds(p, v)
    {
      FitsHolds(p, v);
    }
    if WritePrims(p, vs, at).Some? {
      if vs == [] {
        NoAtoms(at);
      } else {
        FirstLaid(p, vs, at);
      }
    }
  }

  lemma FirstLaid(p: Prim, vs: seq<Value>, at: nat)
    requires vs != [] && forall v :: v in vs ==> Fits(p, v) && Holds(p, v)
    ensures Size(p) > 0 && Laid(PrimAtoms(p, vs), Zeros(Pad(at, Size(p))) + PackAll(p, vs), at)
  {
    hide Fits, Holds, Pack, PrimAtom, Laid, Extent, Pad;
    var v := vs[0];
    assert v in vs;
    FitsHolds(p, v);
    PackIs(p, v);
    AtomAligned(p, v);
    ExtentsAlign(p);
    PadIsLeast(at, Extent(p));
    var z := Pad(at, Size(p));
    var first := Zeros(z) + Pack(p, v);
    LaidOne(PrimAtom(p, v), first, at, z);
    NextAligned(at + z, Extent(p));
    PackedLaid(p, vs[1..], at + |first|);
    LaidAppend([PrimAtom(p, v)], first, at, PrimAtoms(p, vs[1..]), PackAll(p, vs[1..]));
    assert first + PackAll(p, vs[1..]) == Zeros(z) + PackAll(p, vs);
  }

  // ---------------------------------------------------------------- values

  /** A count or a string length. */
  function LengthAtom(n: nat): Atom { Atom(4, Octets(n, 4)) }

  ghost predicate ScalarOk(defs: Defs, ty: Type, v: Value)
    requires defs.Acyclic() && defs.Resolved(ty)
    decreases defs.Depth(ty), 0
  {
    match ty
    case Primitive(p) => Holds(p, v)
    case Text => v.VText? && |v.utf8| + 1 < 0x1_0000_0000
    case Message(m) => v.VStruct? && FieldsOk(defs, defs.messages[m], defs.rank[m], v.fields)
  }

  ghost predicate ValueOk(defs: Defs, f: Field, v: Value)
    requires defs.Acyclic() && defs.Resolved(f.ty)
    decreases defs.Depth(f.ty), 1
  {
    match f.shape
    case Scalar => ScalarOk(defs, f.ty, v)
    case Fixed(n) => v.VList? && |v.items| == n && forall x :: x in v.items ==> ScalarOk(defs, f.ty, x)
    case Sequence =>
      v.VList? && |v.items| < 0x1_0000_0000 && forall x :: x in v.items ==> ScalarOk(defs, f.ty, x)
  }

  ghost predicate FieldsOk(defs: Defs, fs: seq<Field>, bound: nat, m: map<string, Value>)
    requires defs.Acyclic() && defs.Below(fs, bound)
    decreases bound, 2
  {
    forall f :: f in fs ==> f.name in m && ValueOk(defs, f, m[f.name])
  }

  /** The atoms of a value, in order. */
  ghost function ScalarAtoms(defs: Defs, ty: Type, v: Value): seq<Atom>
    requires defs.Acyclic() && defs.Resolved(ty) && ScalarOk(defs, ty, v)
    decreases defs.Depth(ty), 0, 0
  {
    match ty
    case Primitive(p) => [PrimAtom(p, v)]
    case Text => [LengthAtom(|v.utf8| + 1), Atom(1, v.utf8 + [0])]
    case Message(m) => FieldsAtoms(defs, defs.messages[m], defs.rank[m], v.fields)
  }

  ghost function ItemsAtoms(defs: Defs, ty: Type, vs: seq<Value>): seq<Atom>
    requires defs.Acyclic() && defs.Resolved(ty) && forall x :: x in vs ==> ScalarOk(defs, ty, x)
    decreases defs.Depth(ty), 1, |vs|
  {
    if vs == [] then [] else ScalarAtoms(defs, ty, vs[0]) + ItemsAtoms(defs, ty, vs[1..])
  }

  ghost function ValueAtoms(defs: Defs, f: Field, v: Value): seq<Atom>
    requires defs.Acyclic() && defs.Resolved(f.ty) && ValueOk(defs, f, v)
    decreases defs.Depth(f.ty), 2, 0
  {
    match f.shape
    case Scalar => ScalarAtoms(defs, f.ty, v)
    case Fixed(_) => ItemsAtoms(defs, f.ty, v.items)
    case Sequence => [LengthAtom(|v.items|)] + ItemsAtoms(defs, f.ty, v.items)
  }

  ghost function FieldsAtoms(defs: Defs, fs: seq<Field>, bound: nat, m: map<string, Value>): seq<Atom>
    requires defs.Acyclic() && defs.Below(fs, bound) && FieldsOk(defs, fs, bound, m)
    decreases bound, 3, |fs|
  {
    if fs == [] then []
    else ValueAtoms(defs, fs[0], m[fs[0].name]) + FieldsAtoms(defs, fs[1..], bound, m)
  }

  // ---------------------------------------------------------------- the writer

  lemma LengthLaid(n: nat, at: nat)
    ensures WritePrim(U32, VInt(n), at).Some? <==> n < 0x1_0000_0000
    ensures n < 0x1_0000_0000 ==> Laid([LengthAtom(n)], WritePrim(U32, VInt(n), at).value, at)
  {
    hide Laid, WritePrim, Octets, ByteOf;
    PrimLaid(U32, VInt(n), at);
    RangeOf(U32);
  }

  lemma TextLaid(utf8: seq<Byte>, at: nat)
    ensures WriteText(utf8, at).Some? <==> |utf8| + 1 < 0x1_0000_0000
    ensures WriteText(utf8, at).Some? ==>
              Laid([LengthAtom(|utf8| + 1), Atom(1, utf8 + [0])], WriteText(utf8, at).value, at)
  {
    hide Laid, WritePrim, LengthAtom;
    LengthLaid(|utf8| + 1, at);
    if |utf8| + 1 < 0x1_0000_0000 {
      var head, a, b := WritePrim(U32, VInt(|utf8| + 1), at).value, LengthAtom(|utf8| + 1), Atom(1, utf8 + [0]);
      assert utf8 + [0] == Zeros(0) + (utf8 + [0]);
      LaidOne(b, utf8 + [0], at + |head|, 0);
      LaidAppend([a], head, at, [b], utf8 + [0]);
      assert [a] + [b] == [a, b];
    }
  }

  lemma {:induction false} ScalarLaid(defs: Defs, ty: Type, v: Value, at: nat)
    requires defs.Acyclic() && defs.Resolved(ty)
    ensures WriteScalar(defs, ty, v, at).Some? <==> ScalarOk(defs, ty, v)
    ensures ScalarOk(defs, ty, v) ==> Laid(ScalarAtoms(defs, ty, v), WriteScalar(defs, ty, v, at).value, at)
    decreases defs.Depth(ty), 0, 0
  {
    hide Laid, WritePrim, WriteText, Holds, LengthAtom;
    match ty
    case Primitive(p) => PrimLaid(p, v, at);
    case Text => if v.VText? { TextLaid(v.utf8, at); }
    case Message(m) => if v.VStruct? { FieldsLaid(defs, defs.messages[m], defs.rank[m], v.fields, at); }
  }

  lemma {:induction false} ListLaid(defs: Defs, ty: Type, vs: seq<Value>, at: nat)
    requires defs.Acyclic() && defs.Resolved(ty)
    ensures WriteList(defs, ty, vs, at).Some? <==> forall x :: x in vs ==> ScalarOk(defs, ty, x)
    ensures (forall x :: x in vs ==> ScalarOk(defs, ty, x)) ==>
              Laid(ItemsAtoms(defs, ty, vs), WriteList(defs, ty, vs, at).value, at)
    decreases defs.Depth(ty), 1, |vs|
  {
    hide Laid, WriteScalar, ScalarOk, ScalarAtoms, Defs.Acyclic;
    if vs == [] {
      NoAtoms(at);
    } else {
      ScalarLaid(defs, ty, vs[0], at);
      var first := WriteScalar(defs, ty, vs[0], at);
      assert forall x :: x in vs <==> x == vs[0] || x in vs[1..];
      if first.Some? {
        ListLaid(defs, ty, vs[1..], at + |first.value|);
        if WriteList(defs, ty, vs[1..], at + |first.value|).Some? {
          LaidAppend(ScalarAtoms(defs, ty, vs[0]), first.value, at, ItemsAtoms(defs, ty, vs[1..]),
                     WriteList(defs, ty, vs[1..], at + |first.value|).value);
        }
      }
    }
  }

  /** The items of an array of primitives are written in one go. */
  lemma {:induction false} PrimItems(defs: Defs, p: Prim, vs: seq<Value>)
    requires defs.Acyclic()
    ensures (forall x :: x in vs ==> ScalarOk(defs, Primitive(p), x)) <==> forall x :: x in vs ==> Holds(p, x)
    ensures (forall x :: x in vs ==> Holds(p, x)) ==> ItemsAtoms(defs, Primitive(p), vs) == PrimAtoms(p, vs)
    decreases |vs|
  {
    hide Holds, PrimAtom, Defs.Acyclic;
    if vs != [] {
      PrimItems(defs, p, vs[1..]);
      assert forall x :: x in vs <==> x == vs[0] || x in vs[1..];
    }
  }

  lemma {:induction false} ItemsLaid(defs: Defs, ty: Type, vs: seq<Value>, at: nat)
    requires defs.Acyclic() && defs.Resolved(ty)
    ensures WriteItems(defs, ty, vs, at).Some? <==> forall x :: x in vs ==> ScalarOk(defs, ty, x)
    ensures (forall x :: x in vs ==> ScalarOk(defs, ty, x)) ==>
              Laid(ItemsAtoms(defs, ty, vs), WriteItems(defs, ty, vs, at).value, at)
    decreases defs.Depth(ty), 2, 0
  {
    hide Laid, WritePrims, WriteList, ScalarOk, ItemsAtoms, PrimAtoms, Holds, Defs.Acyclic;
    if ty.Primitive? {
      PrimItems(defs, ty.prim, vs);
      PrimsLaid(ty.prim, vs, at);
    } else {
      ListLaid(defs, ty, vs, at);
    }
  }

  lemma {:induction false} ValueLaid(defs: Defs, f: Field, v: Value, at: nat)
    requires defs.Acyclic() && defs.Resolved(f.ty)
    ensures WriteValue(defs, f.ty, f.shape, v, at).Some? <==> ValueOk(defs, f, v)
    ensures ValueOk(defs, f, v) ==> Laid(ValueAtoms(defs, f, v), WriteValue(defs, f.ty, f.shape, v, at).value, at)
    decreases defs.Depth(f.ty), 3, 0
  {
    hide Laid, WriteScalar, WriteItems, WritePrim, ScalarOk, ItemsAtoms, ScalarAtoms, LengthAtom, Defs.Acyclic;
    match f.shape
    case Scalar => ScalarLaid(defs, f.ty, v, at);
    case Fixed(_) => if v.VList? { ItemsLaid(defs, f.ty, v.items, at); }
    case Sequence =>
      if v.VList? {
        LengthLaid(|v.items|, at);
        var head := WritePrim(U32, VInt(|v.items|), at);
        if head.Some? {
          ItemsLaid(defs, f.ty, v.items, at + |head.value|);
          if ValueOk(defs, f, v) {
            LaidAppend([LengthAtom(|v.items|)], head.value, at, ItemsAtoms(defs, f.ty, v.items),
                       WriteItems(defs, f.ty, v.items, at + |head.value|).value);
          }
        }
      }
  }

  lemma {:induction false} FieldsLaid(defs: Defs, fs: seq<Field>, bound: nat, m: map<string, Value>, at: nat)
    requires defs.Acyclic() && defs.Below(fs, bound)
    ensures WriteFields(defs, fs, bound, m, at).Some? <==> FieldsOk(defs, fs, bound, m)
    ensures FieldsOk(defs, fs, bound, m) ==>
              Laid(FieldsAtoms(defs, fs, bound, m), WriteFields(defs, fs, bound, m, at).value, at)
    decreases bound, 4, |fs|
  {
    hide Laid, WriteValue, ValueOk, ValueAtoms, Defs.Acyclic;
    if fs == [] {
      NoAtoms(at);
    } else {
      var f := fs[0];
      assert f in fs && forall x :: x in fs <==> x == f || x in fs[1..];
      if f.name in m {
        ValueLaid(defs, f, m[f.name], at);
        var first := WriteValue(defs, f.ty, f.shape, m[f.name], at);
        if first.Some? {
          FieldsLaid(defs, fs[1..], bound, m, at + |first.value|);
          if FieldsOk(defs, fs[1..], bound, m) {
            LaidAppend(ValueAtoms(defs, f, m[f.name]), first.value, at, FieldsAtoms(defs, fs[1..], bound, m),
                       WriteFields(defs, fs[1..], bound, m, at + |first.value|).value);
          }
        }
      }
    }
  }

  /** Encoding succeeds exactly on a defined message whose values fit their types; the bytes are the header for
      little-endian CDR and then the atoms of the fields in order, each aligned to its own size by the least number of
      zeros, counted after the header. */
  lemma EncodeLayout(defs: Defs, name: string, m: map<string, Value>)
    requires defs.Acyclic()
    ensures Encode(defs, name, m).Some? <==>
              name in defs.messages && FieldsOk(defs, defs.messages[name], defs.rank[name], m)
    ensures Encode(defs, name, m).Some? ==>
              var buf, fs, bound := Encode(defs, name, m).value, defs.messages[name], defs.rank[name];
              |buf| >= 4 && buf[..4] == [0, 1, 0, 0] && Laid(FieldsAtoms(defs, fs, bound, m), buf[4..], 0)
  {
    hide Laid, WriteFields, FieldsOk, FieldsAtoms;
    if name in defs.messages {
      FieldsLaid(defs, defs.messages[name], defs.rank[name], m, 0);
      var body := WriteFields(defs, defs.messages[name], defs.rank[name], m, 0);
      if body.Some? { assert (HEADER + body.value)[4..] == body.value && (HEADER + body.value)[..4] == HEADER; }
    }
  }
}
