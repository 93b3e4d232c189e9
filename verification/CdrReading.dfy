/** What the reader finds in any buffer at all, in the terms of classic CDR: a value is read from a position exactly
    when its atoms stand there, each aligned to its own size. Padding may hold anything. */
module CdrReading {
  import opened Common
  import opened Cdr
  import opened CdrRoundTrip
  import opened CdrLayout

  /** The bytes show this primitive; any byte but zero is true. */
  ghost predicate Shows(p: Prim, v: Value, bs: seq<Byte>)
    requires |bs| == Extent(p)
  {
    match p
    case Bool => v == VBool(bs[0] != 0)
    case Unsigned(_) => Holds(p, v) && bs == Octets(v.n, Extent(p))
    case Signed(_) => Holds(p, v) && bs == Octets(v.n, Extent(p))
    case Floating(_) => v == VFloat(bs)
  }

  /** A primitive stands at the first multiple of its size from `at` on, and ends at `end`. */
  ghost predicate PrimAt(p: Prim, v: Value, buf: seq<Byte>, at: nat, end: nat) {
    exists z: nat :: Extent(p) > 0 && LeastGap(at, Extent(p), z) && ShowsAt(p, v, buf, at + z, end)
  }

  ghost predicate ShowsAt(p: Prim, v: Value, buf: seq<Byte>, start: nat, end: nat) {
    end == start + Extent(p) <= |buf| && Shows(p, v, buf[start..end])
  }

  // ---------------------------------------------------------------- primitives

  lemma {:induction false} FromBytes(bs: seq<Byte>)
    ensures FromLittleEndian(bs) < Raised(|bs|) && LittleEndian(FromLittleEndian(bs), |bs|) == bs
  {
    if bs != [] {
      FromBytes(bs[1..]);
      assert FromLittleEndian(bs) / 256 == FromLittleEndian(bs[1..]);
    }
  }

  lemma {:induction false} RaisedIsPower(k: nat)
    ensures Raised(k) == Power256(k)
  {
    if k > 0 { RaisedIsPower(k - 1); }
  }

  /** An unsigned number is read from exactly its own bytes. */
  lemma NumberShows(bs: seq<Byte>, n: int)
    ensures FromLittleEndian(bs) == n <==> 0 <= n < Raised(|bs|) && bs == Octets(n, |bs|)
  {
    hide Raised, ByteOf;
    FromBytes(bs);
    RaisedIsPower(|bs|);
    if 0 <= n < Raised(|bs|) {
      LittleEndianRoundTrip(n, |bs|);
      OctetsAre(n, |bs|);
    }
  }

  lemma OctetsAre(n: nat, k: nat)
    ensures Octets(n, k) == LittleEndian(n, k)
  {
    hide ByteOf;
    forall i: nat | i < k
      ensures Octets(n, k)[i] == LittleEndian(n, k)[i]
    {
      LittleEndianBytes(n, k, i);
    }
  }

  lemma ComplementOctets(n: int, k: nat)
    requires 0 <= n + Raised(k)
    ensures Octets(n + Raised(k), k) == Octets(n, k)
  {
    hide ByteOf, Raised;
    forall i: nat | i < k
      ensures Octets(n + Raised(k), k)[i] == Octets(n, k)[i]
    {
      Complement(n, k, i);
    }
  }

  lemma UnpackShows(p: Prim, v: Value, bs: seq<Byte>)
    requires |bs| == Size(p) == Extent(p)
    ensures Unpack(p, bs) == v <==> Shows(p, v, bs)
  {
    hide Raised, ByteOf, Octets, FromLittleEndian, Span;
    var k := Extent(p);
    match p
    case Bool =>
    case Floating(_) =>
    case Unsigned(w) =>
      RangeOf(p);
      if v.VInt? { NumberShows(bs, v.n); }
    case Signed(w) =>
      RangeOf(p);
      EvenRange(w);
      var n := FromLittleEndian(bs);
      NumberShows(bs, n);
      if v.VInt? {
        NumberShows(bs, v.n);
        NumberShows(bs, v.n + Raised(k));
        if 0 <= v.n + Raised(k) { ComplementOctets(v.n, k); }
      }
  }

  lemma LeastIsPad(at: nat, n: nat, z: nat)
    requires n == 1 || n == 2 || n == 4 || n == 8
    ensures LeastGap(at, n, z) <==> z == Pad(at, n)
  {
    PadIsLeast(at, n);
    hide Pad, Aligned;
    assert Aligned(at + Pad(at, n), n);
  }

  lemma ReadShows(p: Prim, v: Value, buf: seq<Byte>, at: nat, end: nat)
    requires Size(p) == Extent(p) > 0
    ensures ReadPrim(p, buf, at) == Got(v, end) <==> ShowsAt(p, v, buf, at + Pad(at, Size(p)), end)
  {
    hide Shows, Unpack, Pad, Extent, Size;
    var start := at + Pad(at, Size(p));
    if start + Size(p) <= |buf| {
      UnpackShows(p, v, buf[start..start + Size(p)]);
    }
  }

  /** A primitive is read exactly where it stands. */
  lemma PrimReads(p: Prim, v: Value, buf: seq<Byte>, at: nat, end: nat)
    ensures ReadPrim(p, buf, at) == Got(v, end) <==> PrimAt(p, v, buf, at, end)
  {
    hide ShowsAt, ReadPrim, LeastGap, Pad, Extent, Size;
    ExtentsAlign(p);
    FitsHolds(p, v);
    ReadShows(p, v, buf, at, end);
    LeastIsPad(at, Extent(p), Pad(at, Size(p)));
    if PrimAt(p, v, buf, at, end) {
      var y: nat :| LeastGap(at, Extent(p), y) && ShowsAt(p, v, buf, at + y, end);
      LeastIsPad(at, Extent(p), y);
    }
  }

  // ---------------------------------------------------------------- strings and arrays

  /** A string: its length with the terminator, its bytes and a zero; a length of zero is the empty string. */
  ghost predicate TextAt(v: Value, buf: seq<Byte>, at: nat, end: nat) {
    exists n: nat, h: nat :: PrimAt(U32, VInt(n), buf, at, h) && BodyAt(v, buf, n, h, end)
  }

  ghost predicate BodyAt(v: Value, buf: seq<Byte>, n: nat, h: nat, end: nat) {
    if n == 0 then v == VText([]) && end == h
    else end == h + n <= |buf| && buf[end - 1] == 0 && v == VText(buf[h..end - 1])
  }

  lemma LengthReads(buf: seq<Byte>, at: nat)
    ensures ReadPrim(U32, buf, at).Got? ==>
              var r := ReadPrim(U32, buf, at); r.value.VInt? && r.value.n >= 0 && PrimAt(U32, r.value, buf, at, r.pos)
    ensures !ReadPrim(U32, buf, at).Malformed?
  {
    hide PrimAt;
    var r := ReadPrim(U32, buf, at);
    if r.Got? { PrimReads(U32, r.value, buf, at, r.pos); }
  }

  lemma TextReads(v: Value, buf: seq<Byte>, at: nat, end: nat)
    ensures ReadText(buf, at) == Got(v, end) <==> TextAt(v, buf, at, end)
  {
    hide ReadPrim, PrimAt;
    LengthReads(buf, at);
    var r := ReadPrim(U32, buf, at);
    if r.Got? && BodyAt(v, buf, r.value.n, r.pos, end) {
      assert TextAt(v, buf, at, end);
    }
    if TextAt(v, buf, at, end) {
      var n: nat, h: nat :| PrimAt(U32, VInt(n), buf, at, h) && BodyAt(v, buf, n, h, end);
      PrimReads(U32, VInt(n), buf, at, h);
    }
  }

  /** A string without its terminator is an error exactly when all of it is there. */
  lemma TextMalformed(buf: seq<Byte>, at: nat)
    ensures ReadText(buf, at).Malformed? <==>
              exists n: nat, h: nat :: PrimAt(U32, VInt(n), buf, at, h) && 0 < n <= |buf| - h && buf[h + n - 1] != 0
  {
    hide ReadPrim, PrimAt;
    LengthReads(buf, at);
    if n: nat, h: nat :| PrimAt(U32, VInt(n), buf, at, h) && n > 0 && h + n <= |buf| && buf[h + n - 1] != 0 {
      PrimReads(U32, VInt(n), buf, at, h);
    }
  }

  /** The values of an array of primitives, one after another. */
  ghost predicate PrimsAt(p: Prim, vs: seq<Value>, buf: seq<Byte>, at: nat, end: nat)
    decreases |vs|
  {
    if vs == [] then end == at
    else exists mid: nat :: PrimAt(p, vs[0], buf, at, mid) && PrimsAt(p, vs[1..], buf, mid, end)
  }

  /** Where an array of `n` would start and end. */
  lemma PrimsUnfold(p: Prim, n: nat, buf: seq<Byte>, at: nat, start: nat, size: nat)
    requires n > 0 && size == Size(p) && size > 0 && start == at + Pad(at, size)
    ensures start + size * n > |buf| ==> ReadPrims(p, n, buf, at) == Truncated
    ensures start + size * n <= |buf| ==>
              ReadPrims(p, n, buf, at) == Got(VList(UnpackAll(p, n, buf[start..start + size * n])), start + size * n)
  {
  }

  lemma PrimUnfold(p: Prim, buf: seq<Byte>, at: nat, start: nat, size: nat)
    requires size == Size(p) && size > 0 && start == at + Pad(at, size)
    ensures start + size > |buf| ==> ReadPrim(p, buf, at) == Truncated
    ensures start + size <= |buf| ==>
              ReadPrim(p, buf, at) == Got(Unpack(p, buf[start..start + size]), start + size)
  {
  }

  /** The elements after the first, which are aligned already. */
  lemma PrimsAfter(p: Prim, n: nat, buf: seq<Byte>, at: nat, size: nat)
    requires size == Size(p) && size > 0 && Pad(at, size) == 0 && at <= |buf|
    ensures at + size * n > |buf| ==> ReadPrims(p, n, buf, at) == Truncated
    ensures at + size * n <= |buf| ==>
              ReadPrims(p, n, buf, at) == Got(VList(UnpackAll(p, n, buf[at..at + size * n])), at + size * n)
  {
    hide Unpack, Size, Pad;
    if n == 0 {
      assert size * n == 0;
      UnpackNone(p, n, buf[at..at + size * n]);
    } else {
      hide UnpackAll;
    }
  }

  lemma UnpackNone(p: Prim, n: nat, bs: seq<Byte>)
    requires n == 0 && |bs| == Size(p) * n
    ensures UnpackAll(p, n, bs) == []
  {
  }

  /** Reading an array is reading its first element and then the others. */
  lemma PrimsStep(p: Prim, n: nat, buf: seq<Byte>, at: nat)
    requires n > 0
    ensures var first := ReadPrim(p, buf, at);
            var all := ReadPrims(p, n, buf, at);
            && (first.Got? ==>
                  var rest := ReadPrims(p, n - 1, buf, first.pos);
                  && (rest.Got? ==> rest.value.VList? && all == Got(VList([first.value] + rest.value.items), rest.pos))
                  && (!rest.Got? ==> all.Truncated?))
            && (!first.Got? ==> all.Truncated?)
  {
    hide Unpack, Pad, UnpackAll, Size, Extent, ReadPrim, ReadPrims;
    ExtentsAlign(p);
    FitsHolds(p, VBool(true));
    var size := Size(p);
    var start := at + Pad(at, size);
    PadSettles(at, size);
    SizeTimes(size, n);
    PrimUnfold(p, buf, at, start, size);
    PrimsUnfold(p, n, buf, at, start, size);
    if start + size <= |buf| {
      PrimsAfter(p, n - 1, buf, start + size, size);
      if start + size * n <= |buf| { UnpackSplit(p, n, buf, start, size); }
    }
  }

  lemma UnpackSplit(p: Prim, n: nat, buf: seq<Byte>, start: nat, size: nat)
    requires n > 0 && size == Size(p) && start + size * n <= |buf|
    requires size * n == size + size * (n - 1)
    ensures UnpackAll(p, n, buf[start..start + size * n])
         == [Unpack(p, buf[start..start + size])]
          + UnpackAll(p, n - 1, buf[start + size..start + size + size * (n - 1)])
  {
    hide Unpack, Size;
    var bytes := buf[start..start + size * n];
    assert bytes[..size] == buf[start..start + size];
    assert bytes[size..] == buf[start + size..start + size + size * (n - 1)];
  }

  lemma PadSettles(at: nat, n: nat)
    requires n == 1 || n == 2 || n == 4 || n == 8
    ensures Pad(at + Pad(at, n) + n, n) == 0
  {
  }

  lemma SizeTimes(size: nat, n: nat)
    requires n > 0
    ensures size * n == size + size * (n - 1) && size * n >= size
  {
    assert size * (n - 1) >= 0;
  }

  lemma {:induction false} PrimsRead(p: Prim, n: nat, vs: seq<Value>, buf: seq<Byte>, at: nat, end: nat)
    ensures ReadPrims(p, n, buf, at) == Got(VList(vs), end) <==> |vs| == n && PrimsAt(p, vs, buf, at, end)
    ensures ReadPrims(p, n, buf, at).Got? ==> ReadPrims(p, n, buf, at).value.VList?
    ensures !ReadPrims(p, n, buf, at).Malformed?
    decreases n
  {
    hide ReadPrim, PrimAt;
    if n > 0 {
      hide ReadPrims;
      PrimsStep(p, n, buf, at);
      var first := ReadPrim(p, buf, at);
      if first.Got? {
        PrimReads(p, first.value, buf, at, first.pos);
        if vs != [] { PrimsRead(p, n - 1, vs[1..], buf, first.pos, end); }
        PrimsRead(p, n - 1, [], buf, first.pos, end);
      }
      if vs != [] && PrimsAt(p, vs, buf, at, end) {
        var mid: nat :| PrimAt(p, vs[0], buf, at, mid) && PrimsAt(p, vs[1..], buf, mid, end);
        PrimReads(p, vs[0], buf, at, mid);
        assert vs == [vs[0]] + vs[1..];
      }
    }
  }

  // ---------------------------------------------------------------- values

  ghost predicate ScalarAt(defs: Defs, ty: Type, v: Value, buf: seq<Byte>, at: nat, end: nat)
    requires defs.Acyclic() && defs.Resolved(ty)
    decreases defs.Depth(ty), 0, 0
  {
    match ty
    case Primitive(p) => PrimAt(p, v, buf, at, end)
    case Text => TextAt(v, buf, at, end)
    case Message(m) => v.VStruct? && FieldsAt(defs, defs.messages[m], defs.rank[m], v.fields, buf, at, end)
  }

  ghost predicate ItemsAt(defs: Defs, ty: Type, vs: seq<Value>, buf: seq<Byte>, at: nat, end: nat)
    requires defs.Acyclic() && defs.Resolved(ty)
    decreases defs.Depth(ty), 1, |vs|
  {
    if vs == [] then end == at
    else exists mid: nat :: ScalarAt(defs, ty, vs[0], buf, at, mid) && ItemsAt(defs, ty, vs[1..], buf, mid, end)
  }

  ghost predicate ValueAt(defs: Defs, ty: Type, shape: Shape, v: Value, buf: seq<Byte>, at: nat, end: nat)
    requires defs.Acyclic() && defs.Resolved(ty)
    decreases defs.Depth(ty), 2, 0
  {
    match shape
    case Scalar => ScalarAt(defs, ty, v, buf, at, end)
    case Fixed(n) => v.VList? && |v.items| == n && ItemsAt(defs, ty, v.items, buf, at, end)
    case Sequence =>
      v.VList? && exists h: nat ::
        PrimAt(U32, VInt(|v.items|), buf, at, h) && ItemsAt(defs, ty, v.items, buf, h, end)
  }

  /** The fields one after another, each under its own name. */
  ghost predicate FieldsAt(defs: Defs, fs: seq<Field>, bound: nat, m: map<string, Value>, buf: seq<Byte>, at: nat,
                           end: nat)
    requires defs.Acyclic() && defs.Below(fs, bound)
    decreases bound, 3, |fs|
  {
    if fs == [] then m == map[] && end == at
    else
      exists mid: nat, v, rest ::
        ValueAt(defs, fs[0].ty, fs[0].shape, v, buf, at, mid) && FieldsAt(defs, fs[1..], bound, rest, buf, mid, end)
        && m == map[fs[0].name := v] + rest
  }

  lemma ItemsUnfold(defs: Defs, ty: Type, vs: seq<Value>, buf: seq<Byte>, at: nat, end: nat) returns (mid: nat)
    requires defs.Acyclic() && defs.Resolved(ty) && vs != [] && ItemsAt(defs, ty, vs, buf, at, end)
    ensures ScalarAt(defs, ty, vs[0], buf, at, mid) && ItemsAt(defs, ty, vs[1..], buf, mid, end)
  {
    mid :| ScalarAt(defs, ty, vs[0], buf, at, mid) && ItemsAt(defs, ty, vs[1..], buf, mid, end);
  }

  lemma ItemsFold(defs: Defs, ty: Type, vs: seq<Value>, buf: seq<Byte>, at: nat, mid: nat, end: nat)
    requires defs.Acyclic() && defs.Resolved(ty) && vs != []
    requires ScalarAt(defs, ty, vs[0], buf, at, mid) && ItemsAt(defs, ty, vs[1..], buf, mid, end)
    ensures ItemsAt(defs, ty, vs, buf, at, end)
  {
  }

  lemma FieldsUnfold(defs: Defs, fs: seq<Field>, bound: nat, m: map<string, Value>, buf: seq<Byte>, at: nat, end: nat)
    returns (mid: nat, v: Value, rest: map<string, Value>)
    requires defs.Acyclic() && defs.Below(fs, bound) && fs != [] && FieldsAt(defs, fs, bound, m, buf, at, end)
    ensures ValueAt(defs, fs[0].ty, fs[0].shape, v, buf, at, mid)
    ensures FieldsAt(defs, fs[1..], bound, rest, buf, mid, end) && m == map[fs[0].name := v] + rest
  {
    mid, v, rest :|
      ValueAt(defs, fs[0].ty, fs[0].shape, v, buf, at, mid) && FieldsAt(defs, fs[1..], bound, rest, buf, mid, end)
      && m == map[fs[0].name := v] + rest;
  }

  lemma FieldsFold(defs: Defs, fs: seq<Field>, bound: nat, v: Value, rest: map<string, Value>, buf: seq<Byte>, at: nat,
                   mid: nat, end: nat)
    requires defs.Acyclic() && defs.Below(fs, bound) && fs != []
    requires ValueAt(defs, fs[0].ty, fs[0].shape, v, buf, at, mid)
    requires FieldsAt(defs, fs[1..], bound, rest, buf, mid, end)
    ensures FieldsAt(defs, fs, bound, map[fs[0].name := v] + rest, buf, at, end)
  {
  }

  // ---------------------------------------------------------------- the reader

  lemma {:induction false} ScalarReads(defs: Defs, ty: Type, v: Value, buf: seq<Byte>, at: nat, end: nat)
    requires defs.Acyclic() && defs.Resolved(ty)
    ensures ReadScalar(defs, ty, buf, at) == Got(v, end) <==> ScalarAt(defs, ty, v, buf, at, end)
    decreases defs.Depth(ty), 0, 0
  {
    hide ReadPrim, ReadText, PrimAt, TextAt;
    match ty
    case Primitive(p) => PrimReads(p, v, buf, at, end);
    case Text => TextReads(v, buf, at, end);
    case Message(m) =>
      if v.VStruct? { FieldsRead(defs, defs.messages[m], defs.rank[m], v.fields, buf, at, end); }
  }

  lemma {:induction false} ListReads(defs: Defs, ty: Type, n: nat, vs: seq<Value>, buf: seq<Byte>, at: nat, end: nat)
    requires defs.Acyclic() && defs.Resolved(ty)
    ensures ReadList(defs, ty, n, buf, at) == Got(vs, end) <==> |vs| == n && ItemsAt(defs, ty, vs, buf, at, end)
    decreases defs.Depth(ty), 1, n
  {
    hide ReadScalar, ScalarAt, ReadList, ItemsAt, Defs.Acyclic;
    if n == 0 || vs == [] {
      ListNone(defs, ty, n, vs, buf, at, end);
    } else {
      ListUnfold(defs, ty, n, buf, at);
      var first := ReadScalar(defs, ty, buf, at);
      if first.Got? {
        ScalarReads(defs, ty, first.value, buf, at, first.pos);
        ListReads(defs, ty, n - 1, vs[1..], buf, first.pos, end);
        if ReadList(defs, ty, n, buf, at) == Got(vs, end) {
          ItemsFold(defs, ty, vs, buf, at, first.pos, end);
        }
      }
      if |vs| == n && ItemsAt(defs, ty, vs, buf, at, end) {
        var mid := ItemsUnfold(defs, ty, vs, buf, at, end);
        ScalarReads(defs, ty, vs[0], buf, at, mid);
        assert vs == [vs[0]] + vs[1..];
      }
    }
  }

  lemma ListNone(defs: Defs, ty: Type, n: nat, vs: seq<Value>, buf: seq<Byte>, at: nat, end: nat)
    requires defs.Acyclic() && defs.Resolved(ty) && (n == 0 || vs == [])
    ensures ReadList(defs, ty, n, buf, at) == Got(vs, end) <==> |vs| == n && ItemsAt(defs, ty, vs, buf, at, end)
  {
    hide ReadScalar, ScalarAt;
  }

  lemma ListUnfold(defs: Defs, ty: Type, n: nat, buf: seq<Byte>, at: nat)
    requires defs.Acyclic() && defs.Resolved(ty) && n > 0
    ensures var first, all := ReadScalar(defs, ty, buf, at), ReadList(defs, ty, n, buf, at);
            && (!first.Got? ==> !all.Got?)
            && (first.Got? ==>
                  var rest := ReadList(defs, ty, n - 1, buf, first.pos);
                  if rest.Got? then all == Got([first.value] + rest.value, rest.pos) else !all.Got?)
  {
    hide ReadScalar;
  }

  lemma {:induction false} PrimItemsAt(defs: Defs, p: Prim, vs: seq<Value>, buf: seq<Byte>, at: nat, end: nat)
    requires defs.Acyclic()
    ensures ItemsAt(defs, Primitive(p), vs, buf, at, end) <==> PrimsAt(p, vs, buf, at, end)
    decreases |vs|
  {
    hide PrimAt, Defs.Acyclic;
    if vs != [] {
      forall mid: nat
        ensures ItemsAt(defs, Primitive(p), vs[1..], buf, mid, end) <==> PrimsAt(p, vs[1..], buf, mid, end)
      {
        PrimItemsAt(defs, p, vs[1..], buf, mid, end);
      }
      assert forall mid: nat :: ScalarAt(defs, Primitive(p), vs[0], buf, at, mid) <==> PrimAt(p, vs[0], buf, at, mid);
    }
  }

  lemma {:induction false} ItemsRead(defs: Defs, ty: Type, n: nat, vs: seq<Value>, buf: seq<Byte>, at: nat, end: nat)
    requires defs.Acyclic() && defs.Resolved(ty)
    ensures ReadItems(defs, ty, n, buf, at) == Got(VList(vs), end) <==> |vs| == n && ItemsAt(defs, ty, vs, buf, at, end)
    ensures ReadItems(defs, ty, n, buf, at).Got? ==> ReadItems(defs, ty, n, buf, at).value.VList?
    decreases defs.Depth(ty), 2, 0
  {
    hide ReadPrims, ReadList, PrimsAt, ItemsAt, Defs.Acyclic;
    if ty.Primitive? {
      PrimsRead(ty.prim, n, vs, buf, at, end);
      PrimItemsAt(defs, ty.prim, vs, buf, at, end);
    } else {
      ListReads(defs, ty, n, vs, buf, at, end);
    }
  }

  lemma {:induction false} ValueReads(defs: Defs, ty: Type, shape: Shape, v: Value, buf: seq<Byte>, at: nat, end: nat)
    requires defs.Acyclic() && defs.Resolved(ty)
    ensures ReadValue(defs, ty, shape, buf, at) == Got(v, end) <==> ValueAt(defs, ty, shape, v, buf, at, end)
    decreases defs.Depth(ty), 3, 0
  {
    hide ReadPrim, ReadScalar, ReadItems, ScalarAt, ItemsAt, PrimAt, Defs.Acyclic;
    match shape
    case Scalar => ScalarReads(defs, ty, v, buf, at, end);
    case Fixed(n) => ItemsRead(defs, ty, n, if v.VList? then v.items else [], buf, at, end);
    case Sequence =>
      LengthReads(buf, at);
      var head := ReadPrim(U32, buf, at);
      var vs := if v.VList? then v.items else [];
      if head.Got? { ItemsRead(defs, ty, head.value.n, vs, buf, head.pos, end); }
      if v.VList? && ValueAt(defs, ty, shape, v, buf, at, end) {
        var h: nat :| PrimAt(U32, VInt(|v.items|), buf, at, h) && ItemsAt(defs, ty, v.items, buf, h, end);
        PrimReads(U32, VInt(|v.items|), buf, at, h);
      }
  }

  lemma {:induction false} FieldsRead(defs: Defs, fs: seq<Field>, bound: nat, m: map<string, Value>, buf: seq<Byte>,
                                      at: nat, end: nat)
    requires defs.Acyclic() && defs.Below(fs, bound)
    ensures ReadFields(defs, fs, bound, buf, at) == Got(m, end) <==> FieldsAt(defs, fs, bound, m, buf, at, end)
    decreases bound, 4, |fs|
  {
    if fs == [] {
      hide ReadValue, ValueAt;
    } else {
      var f := fs[0];
      assert defs.Resolved(f.ty) && defs.Below(fs[1..], bound);
      FieldsReadUnfold(defs, fs, bound, buf, at);
      hide ReadValue, ValueAt, ReadFields, FieldsAt, Defs.Acyclic;
      var first := ReadValue(defs, f.ty, f.shape, buf, at);
      if first.Got? {
        ValueReads(defs, f.ty, f.shape, first.value, buf, at, first.pos);
        var rest := ReadFields(defs, fs[1..], bound, buf, first.pos);
        if rest.Got? {
          FieldsRead(defs, fs[1..], bound, rest.value, buf, first.pos, rest.pos);
          FieldsFold(defs, fs, bound, first.value, rest.value, buf, at, first.pos, rest.pos);
        }
      }
      if FieldsAt(defs, fs, bound, m, buf, at, end) {
        var mid, v, rest := FieldsUnfold(defs, fs, bound, m, buf, at, end);
        ValueReads(defs, f.ty, f.shape, v, buf, at, mid);
        FieldsRead(defs, fs[1..], bound, rest, buf, mid, end);
      }
    }
  }

  lemma FieldsReadUnfold(defs: Defs, fs: seq<Field>, bound: nat, buf: seq<Byte>, at: nat)
    requires defs.Acyclic() && defs.Below(fs, bound) && fs != []
    ensures var first := ReadValue(defs, fs[0].ty, fs[0].shape, buf, at);
            var all := ReadFields(defs, fs, bound, buf, at);
            && (!first.Got? ==> !all.Got?)
            && (first.Got? ==>
                  var rest := ReadFields(defs, fs[1..], bound, buf, first.pos);
                  if rest.Got? then all == Got(map[fs[0].name := first.value] + rest.value, rest.pos) else !all.Got?)
  {
    hide ReadValue;
  }

  // ---------------------------------------------------------------- whole messages

  /** The first `j` fields stand one after another from `at` on, and end at `end`. */
  ghost predicate Standing(defs: Defs, fs: seq<Field>, bound: nat, j: nat, value: map<string, Option<Value>>,
                           buf: seq<Byte>, at: nat, end: nat)
    requires defs.Acyclic() && defs.Below(fs, bound) && j <= |fs|
    decreases j
  {
    if j == 0 then end == at
    else
      fs[0].name in value && value[fs[0].name].Some? && exists mid: nat ::
        ValueAt(defs, fs[0].ty, fs[0].shape, value[fs[0].name].value, buf, at, mid)
        && Standing(defs, fs[1..], bound, j - 1, value, buf, mid, end)
  }

  lemma {:induction false} StandingFrame(defs: Defs, fs: seq<Field>, bound: nat, j: nat, a: map<string, Option<Value>>,
                                         b: map<string, Option<Value>>, buf: seq<Byte>, at: nat, end: nat)
    requires defs.Acyclic() && defs.Below(fs, bound) && j <= |fs| && Standing(defs, fs, bound, j, a, buf, at, end)
    requires forall f :: f in fs && f.name in a ==> f.name in b && b[f.name] == a[f.name]
    ensures Standing(defs, fs, bound, j, b, buf, at, end)
    decreases j
  {
    hide ValueAt, Defs.Acyclic;
    if j > 0 {
      assert fs[0] in fs;
      var mid: nat :| ValueAt(defs, fs[0].ty, fs[0].shape, a[fs[0].name].value, buf, at, mid)
        && Standing(defs, fs[1..], bound, j - 1, a, buf, mid, end);
      StandingFrame(defs, fs[1..], bound, j - 1, a, b, buf, mid, end);
    }
  }

  /** What a decoding of the fields says: `j` of them stand in the buffer and the next one does not. */
  ghost predicate Says(defs: Defs, fs: seq<Field>, bound: nat, r: Result, buf: seq<Byte>, at: nat, j: nat, end: nat)
    requires defs.Acyclic() && defs.Below(fs, bound)
  {
    && j <= |fs| && Standing(defs, fs, bound, j, r.value, buf, at, end)
    && r.missing == NameList(fs[j..]) && r.value.Keys == Names(fs)
    && AbsentFrom(fs, j, r.value)
    && r.extra == (if j == |fs| then |buf| - end else 0)
    && (j < |fs| ==> forall v, e: nat :: !ValueAt(defs, fs[j].ty, fs[j].shape, v, buf, end, e))
  }

  ghost predicate AbsentFrom(fs: seq<Field>, j: nat, value: map<string, Option<Value>>) {
    forall i: nat :: j <= i < |fs| ==> fs[i].name in value && value[fs[i].name].None?
  }

  lemma AbsentMore(fs: seq<Field>, j: nat, was: map<string, Option<Value>>, v: Value)
    requires fs != [] && AbsentFrom(fs[1..], j, was)
    ensures AbsentFrom(fs, j + 1, map[fs[0].name := Some(v)] + was)
  {
    var tail, value := fs[1..], map[fs[0].name := Some(v)] + was;
    forall i: nat | j + 1 <= i < |fs|
      ensures fs[i].name in value && value[fs[i].name].None?
    {
      assert tail[i - 1] == fs[i];
    }
  }

  lemma SaysNone(defs: Defs, fs: seq<Field>, bound: nat, buf: seq<Byte>, at: nat)
    requires defs.Acyclic() && defs.Below(fs, bound) && fs != []
    requires forall v, e: nat :: !ValueAt(defs, fs[0].ty, fs[0].shape, v, buf, at, e)
    ensures Says(defs, fs, bound, Result(Absent(fs), NameList(fs), 0), buf, at, 0, at)
  {
    hide ValueAt, Defs.Acyclic;
    assert fs[0..] == fs;
    assert forall i: nat :: i < |fs| ==> fs[i] in fs;
  }

  lemma SaysMore(defs: Defs, fs: seq<Field>, bound: nat, r: Result, v: Value, buf: seq<Byte>, at: nat, mid: nat, j: nat,
                 end: nat)
    requires defs.Acyclic() && defs.Below(fs, bound) && fs != [] && Distinct(fs)
    requires ValueAt(defs, fs[0].ty, fs[0].shape, v, buf, at, mid) && Says(defs, fs[1..], bound, r, buf, mid, j, end)
    ensures Says(defs, fs, bound, r.(value := map[fs[0].name := Some(v)] + r.value), buf, at, j + 1, end)
  {
    hide ValueAt, Defs.Acyclic, Names, Standing, Distinct, AbsentFrom, NameList, Defs.Below;
    BelowMore(defs, fs, bound);
    NamesApart(fs);
    StandingMore(defs, fs, bound, r.value, v, buf, at, mid, j, end);
    AbsentMore(fs, j, r.value, v);
    TailFields(fs, j);
  }

  lemma BelowMore(defs: Defs, fs: seq<Field>, bound: nat)
    requires defs.Below(fs, bound) && fs != []
    ensures defs.Below(fs[1..], bound) && forall f :: f in fs ==> defs.Resolved(f.ty)
  {
  }

  lemma TailFields(fs: seq<Field>, j: nat)
    requires fs != [] && j + 1 <= |fs|
    ensures fs[1..][j..] == fs[j + 1..]
    ensures j + 1 < |fs| ==> fs[1..][j] == fs[j + 1]
  {
  }

  lemma StandingMore(defs: Defs, fs: seq<Field>, bound: nat, was: map<string, Option<Value>>, v: Value, buf: seq<Byte>,
                     at: nat, mid: nat, j: nat, end: nat)
    requires defs.Acyclic() && defs.Below(fs, bound) && fs != [] && Distinct(fs) && j + 1 <= |fs|
    requires fs[0].name !in was && ValueAt(defs, fs[0].ty, fs[0].shape, v, buf, at, mid)
    requires Standing(defs, fs[1..], bound, j, was, buf, mid, end)
    ensures Standing(defs, fs, bound, j + 1, map[fs[0].name := Some(v)] + was, buf, at, end)
  {
    hide ValueAt, Defs.Acyclic, Distinct;
    StandingFrame(defs, fs[1..], bound, j, was, map[fs[0].name := Some(v)] + was, buf, mid, end);
  }

  lemma NamesApart(fs: seq<Field>)
    requires fs != [] && Distinct(fs)
    ensures Names(fs) == {fs[0].name} + Names(fs[1..]) && fs[0].name !in Names(fs[1..])
    ensures forall f :: f in fs[1..] ==> f.name != fs[0].name
  {
    assert forall f :: f in fs <==> f == fs[0] || f in fs[1..];
  }

  lemma {:induction false} FieldsSay(defs: Defs, fs: seq<Field>, bound: nat, buf: seq<Byte>, at: nat)
    returns (j: nat, end: nat)
    requires defs.Acyclic() && defs.Below(fs, bound) && Distinct(fs)
    requires DecodeFields(defs, fs, bound, buf, at, true).Ok?
    ensures Says(defs, fs, bound, DecodeFields(defs, fs, bound, buf, at, true).result, buf, at, j, end)
    decreases |fs|
  {
    if fs == [] {
      j, end := 0, at;
    } else {
      hide ReadValue, ValueAt, Says, Defs.Acyclic, Absent, NameList;
      var f := fs[0];
      var first := ReadValue(defs, f.ty, f.shape, buf, at);
      if first.Got? {
        ValueReads(defs, f.ty, f.shape, first.value, buf, at, first.pos);
        j, end := FieldsSay(defs, fs[1..], bound, buf, first.pos);
        SaysMore(defs, fs, bound, DecodeFields(defs, fs[1..], bound, buf, first.pos, true).result, first.value, buf, at,
                 first.pos, j, end);
        j := j + 1;
      } else {
        forall v, e: nat
          ensures !ValueAt(defs, f.ty, f.shape, v, buf, at, e)
        {
          ValueReads(defs, f.ty, f.shape, v, buf, at, e);
        }
        SaysNone(defs, fs, bound, buf, at);
        j, end := 0, at;
      }
    }
  }

  /** Decoding any bytes: anything but a little-endian CDR header is refused, then an undefined type; a tolerant
      decoding holds exactly the fields that stand in the buffer from the beginning on, lists the rest as missing, and
      counts the bytes after the last. */
  lemma DecodeMeans(defs: Defs, name: string, buf: seq<Byte>) returns (j: nat, end: nat)
    requires defs.Acyclic()
    ensures var d := Decode(defs, name, buf, true);
            && (d.BadHeader? <==> |buf| < 4 || buf[0] != 0 || buf[1] != 1)
            && (d.UnknownType? ==> name !in defs.messages)
            && (d.Ok? ==> name in defs.messages && |buf| >= 4)
            && (d.Ok? ==> Says(defs, defs.messages[name], defs.rank[name], d.result, buf[4..], 0, j, end))
  {
    hide DecodeFields, Says;
    j, end := 0, 0;
    if |buf| >= 4 {
      assert buf[..2] == [buf[0], buf[1]];
      assert HEADER[..2] == [0, 1];
      if name in defs.messages {
        var fs, bound := defs.messages[name], defs.rank[name];
        NotHeader(defs, fs, bound, buf[4..], 0, true);
        if DecodeFields(defs, fs, bound, buf[4..], 0, true).Ok? { j, end := FieldsSay(defs, fs, bound, buf[4..], 0); }
      }
    }
  }

  lemma {:induction false} NotHeader(defs: Defs, fs: seq<Field>, bound: nat, buf: seq<Byte>, at: nat, tolerant: bool)
    requires defs.Acyclic() && defs.Below(fs, bound)
    ensures var d := DecodeFields(defs, fs, bound, buf, at, tolerant);
            !d.BadHeader? && !d.UnknownType? && (tolerant ==> !d.Incomplete?)
    decreases |fs|
  {
    hide ReadValue, Defs.Acyclic;
    if fs != [] {
      var first := ReadValue(defs, fs[0].ty, fs[0].shape, buf, at);
      if first.Got? { NotHeader(defs, fs[1..], bound, buf, first.pos, tolerant); }
    }
  }
}
