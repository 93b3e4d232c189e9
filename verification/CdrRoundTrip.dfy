/** The reader finds exactly what the writer put down, through all padding and nesting; a buffer
    cut inside a value is reported as truncated and never as a wrong value. */
module CdrRoundTrip {
  import opened Common
  import opened Cdr

  // ---------------------------------------------------------------- agreement of a buffer with written bytes

  /** From `at` on the buffer holds `bs`, as far as the buffer goes. */
  ghost predicate Agrees(buf: seq<Byte>, at: nat, bs: seq<Byte>) {
    at <= |buf| && forall i :: 0 <= i < |bs| && at + i < |buf| ==> buf[at + i] == bs[i]
  }

  lemma AgreesSplit(buf: seq<Byte>, at: nat, a: seq<Byte>, b: seq<Byte>)
    requires Agrees(buf, at, a + b)
    ensures Agrees(buf, at, a)
    ensures at + |a| <= |buf| ==> Agrees(buf, at + |a|, b)
  {
    forall i | 0 <= i < |a| && at + i < |buf|
      ensures buf[at + i] == a[i]
    {
      assert (a + b)[i] == a[i];
    }
    if at + |a| <= |buf| {
      forall i | 0 <= i < |b| && at + |a| + i < |buf|
        ensures buf[at + |a| + i] == b[i]
      {
        assert (a + b)[|a| + i] == b[i];
        assert buf[at + (|a| + i)] == (a + b)[|a| + i];
      }
    }
  }

  lemma AgreesSlice(buf: seq<Byte>, at: nat, bs: seq<Byte>)
    requires Agrees(buf, at, bs) && at + |bs| <= |buf|
    ensures buf[at..at + |bs|] == bs
  {
    forall i | 0 <= i < |bs|
      ensures buf[at..at + |bs|][i] == bs[i]
    {
      assert buf[at + i] == bs[i];
    }
  }

  /** What a read that starts at `at` must return when the writer appended `bs` there. */
  function Expect<T>(buf: seq<Byte>, at: nat, bs: seq<Byte>, v: T): Read<T> {
    if at + |bs| <= |buf| then Got(v, at + |bs|) else Truncated
  }

  // ---------------------------------------------------------------- primitives

  lemma {:induction false} LittleEndianRoundTrip(n: nat, k: nat)
    requires n < Power256(k)
    ensures FromLittleEndian(LittleEndian(n, k)) == n
  {
    if k > 0 {
      LittleEndianRoundTrip(n / 256, k - 1);
      assert LittleEndian(n, k)[1..] == LittleEndian(n / 256, k - 1);
    }
  }

  function Power256(k: nat): nat {
    if k == 0 then 1 else 256 * Power256(k - 1)
  }

  lemma SpanIsPower(w: Width)
    ensures Power256(Bytes(w)) == Span(w)
  {
    assert Power256(2) == 0x1_0000;
    assert Power256(4) == 0x1_0000_0000;
    assert Power256(6) == 0x1_0000_0000_0000;
    assert Power256(8) == 0x1_0000_0000_0000_0000;
  }

  lemma PackRoundTrip(p: Prim, v: Value)
    requires Fits(p, v)
    ensures Unpack(p, Pack(p, v)) == v
  {
    if p.Unsigned? || p.Signed? {
      SpanIsPower(p.width);
      var n := if v.n < 0 then v.n + Span(p.width) else v.n;
      LittleEndianRoundTrip(n, Bytes(p.width));
    }
  }

  lemma {:induction false} PackAllRoundTrip(p: Prim, vs: seq<Value>)
    requires forall v :: v in vs ==> Fits(p, v)
    ensures UnpackAll(p, |vs|, PackAll(p, vs)) == vs
  {
    if vs != [] {
      PackRoundTrip(p, vs[0]);
      PackAllRoundTrip(p, vs[1..]);
      var bs := PackAll(p, vs);
      assert bs[..Size(p)] == Pack(p, vs[0]);
      assert bs[Size(p)..] == PackAll(p, vs[1..]);
    }
  }

  lemma PrimReadsBack(p: Prim, v: Value, at: nat, buf: seq<Byte>)
    requires Fits(p, v) && Agrees(buf, at, WritePrim(p, v, at).value)
    ensures ReadPrim(p, buf, at) == Expect(buf, at, WritePrim(p, v, at).value, v)
  {
    hide Pack, Unpack, Fits;
    var pad := Zeros(Pad(at, Size(p)));
    AgreesSplit(buf, at, pad, Pack(p, v));
    if at + |pad| + Size(p) <= |buf| {
      AgreesSlice(buf, at + |pad|, Pack(p, v));
      PackRoundTrip(p, v);
    }
  }

  lemma PrimsReadBack(p: Prim, vs: seq<Value>, at: nat, buf: seq<Byte>)
    requires forall v :: v in vs ==> Fits(p, v)
    requires Agrees(buf, at, WritePrims(p, vs, at).value)
    ensures ReadPrims(p, |vs|, buf, at) == Expect(buf, at, WritePrims(p, vs, at).value, VList(vs))
  {
    hide PackAll, UnpackAll, Fits;
    if vs != [] {
      var pad := Zeros(Pad(at, Size(p)));
      AgreesSplit(buf, at, pad, PackAll(p, vs));
      if at + |pad| + Size(p) * |vs| <= |buf| {
        AgreesSlice(buf, at + |pad|, PackAll(p, vs));
        PackAllRoundTrip(p, vs);
      }
    }
  }

  lemma TextReadsBack(utf8: seq<Byte>, at: nat, buf: seq<Byte>)
    requires |utf8| + 1 < LIMIT32
    ensures WriteText(utf8, at).Some?
    ensures Agrees(buf, at, WriteText(utf8, at).value) ==>
      ReadText(buf, at) == Expect(buf, at, WriteText(utf8, at).value, VText(utf8))
  {
    hide WritePrim, ReadPrim, LittleEndian, FromLittleEndian;
    var head := HeadBytes(|utf8| + 1, at);
    var raw := utf8 + [0];
    if Agrees(buf, at, head + raw) {
      AgreesSplit(buf, at, head, raw);
      PrimReadsBack(U32, VInt(|utf8| + 1), at, buf);
      if at + |head| <= |buf| {
        var p := at + |head|;
        if p + |raw| <= |buf| {
          AgreesSlice(buf, p, raw);
          assert buf[p + |utf8|] == raw[|utf8|] == 0;
          assert buf[p..p + |utf8|] == buf[p..p + |raw|][..|utf8|] == utf8;
        }
      }
    }
  }

  /** The bytes of an array or string length. */
  function HeadBytes(n: nat, at: nat): (bs: seq<Byte>)
    requires n < LIMIT32
    ensures WritePrim(U32, VInt(n), at) == Some(bs)
  {
    WritePrim(U32, VInt(n), at).value
  }

  // ---------------------------------------------------------------- values

  lemma {:induction false} ScalarReadsBack(defs: Defs, ty: Type, v: Value, at: nat, buf: seq<Byte>)
    requires defs.Acyclic() && defs.Resolved(ty) && TypedScalar(defs, ty, v)
    ensures WriteScalar(defs, ty, v, at).Some?
    ensures Agrees(buf, at, WriteScalar(defs, ty, v, at).value) ==>
      ReadScalar(defs, ty, buf, at) == Expect(buf, at, WriteScalar(defs, ty, v, at).value, v)
    decreases defs.Depth(ty), 0, 0
  {
    hide Agrees, WritePrim, ReadPrim, WriteText, ReadText;
    match ty
    case Primitive(p) =>
      PrimWrites(p, v, at);
      if Agrees(buf, at, WriteScalar(defs, ty, v, at).value) {
        PrimReadsBack(p, v, at, buf);
      }
    case Text =>
      TextReadsBack(v.utf8, at, buf);
    case Message(m) =>
      var fs := defs.messages[m];
      FieldsReadBack(defs, fs, defs.rank[m], v.fields, at, buf);
      assert Restrict(v.fields, fs) == v.fields;
  }

  lemma PrimWrites(p: Prim, v: Value, at: nat)
    ensures WritePrim(p, v, at).Some? <==> Fits(p, v)
  {
  }

  lemma {:induction false} ListReadsBack(defs: Defs, ty: Type, vs: seq<Value>, at: nat, buf: seq<Byte>)
    requires defs.Acyclic() && defs.Resolved(ty)
    requires forall v :: v in vs ==> TypedScalar(defs, ty, v)
    ensures WriteList(defs, ty, vs, at).Some?
    ensures Agrees(buf, at, WriteList(defs, ty, vs, at).value) ==>
      ReadList(defs, ty, |vs|, buf, at) == Expect(buf, at, WriteList(defs, ty, vs, at).value, vs)
    decreases defs.Depth(ty), 1, |vs|
  {
    hide Agrees, WriteScalar, ReadScalar, TypedScalar;
    if vs == [] {
      AgreesBound(buf, at, []);
    } else {
      ScalarReadsBack(defs, ty, vs[0], at, buf);
      var first := WriteScalar(defs, ty, vs[0], at).value;
      ListReadsBack(defs, ty, vs[1..], at + |first|, buf);
      var rest := WriteList(defs, ty, vs[1..], at + |first|).value;
      if Agrees(buf, at, first + rest) {
        AgreesSplit(buf, at, first, rest);
        assert [vs[0]] + vs[1..] == vs;
      }
    }
  }

  lemma AgreesBound(buf: seq<Byte>, at: nat, bs: seq<Byte>)
    ensures Agrees(buf, at, bs) ==> at <= |buf|
  {
  }

  lemma {:induction false} ItemsReadBack(defs: Defs, ty: Type, vs: seq<Value>, at: nat, buf: seq<Byte>)
    requires defs.Acyclic() && defs.Resolved(ty)
    requires forall v :: v in vs ==> TypedScalar(defs, ty, v)
    ensures WriteItems(defs, ty, vs, at).Some?
    ensures Agrees(buf, at, WriteItems(defs, ty, vs, at).value) ==>
      ReadItems(defs, ty, |vs|, buf, at) == Expect(buf, at, WriteItems(defs, ty, vs, at).value, VList(vs))
    decreases defs.Depth(ty), 2, 0
  {
    hide Agrees, ReadPrims, PackAll, Fits;
    if ty.Primitive? {
      assert forall v :: v in vs ==> TypedScalar(defs, ty, v) && Fits(ty.prim, v);
      if Agrees(buf, at, WriteItems(defs, ty, vs, at).value) {
        PrimsReadBack(ty.prim, vs, at, buf);
      }
    } else {
      ListReadsBack(defs, ty, vs, at, buf);
    }
  }

  lemma {:induction false} ValueReadsBack(defs: Defs, ty: Type, shape: Shape, v: Value, at: nat, buf: seq<Byte>)
    requires defs.Acyclic() && defs.Resolved(ty) && TypedValue(defs, ty, shape, v)
    ensures WriteValue(defs, ty, shape, v, at).Some?
    ensures Agrees(buf, at, WriteValue(defs, ty, shape, v, at).value) ==>
      ReadValue(defs, ty, shape, buf, at) == Expect(buf, at, WriteValue(defs, ty, shape, v, at).value, v)
    decreases defs.Depth(ty), 3, 0
  {
    hide Agrees, WriteScalar, ReadScalar, WriteItems, ReadItems, WritePrim, ReadPrim, TypedScalar;
    match shape
    case Scalar => ScalarReadsBack(defs, ty, v, at, buf);
    case Fixed(n) => ItemsReadBack(defs, ty, v.items, at, buf);
    case Sequence =>
      var head := HeadBytes(|v.items|, at);
      ItemsReadBack(defs, ty, v.items, at + |head|, buf);
      var items := WriteItems(defs, ty, v.items, at + |head|).value;
      if Agrees(buf, at, head + items) {
        AgreesSplit(buf, at, head, items);
        PrimReadsBack(U32, VInt(|v.items|), at, buf);
      }
  }

  /** The part of a struct value that a field list names. */
  function Restrict(m: map<string, Value>, fs: seq<Field>): map<string, Value> {
    map k | k in m && k in Names(fs) :: m[k]
  }

  lemma RestrictStep(m: map<string, Value>, fs: seq<Field>)
    requires fs != [] && fs[0].name in m
    ensures Restrict(m, fs) == map[fs[0].name := m[fs[0].name]] + Restrict(m, fs[1..])
  {
    assert Names(fs) == {fs[0].name} + Names(fs[1..]);
  }

  lemma {:induction false} FieldsReadBack(defs: Defs, fs: seq<Field>, bound: nat, m: map<string, Value>,
                                          at: nat, buf: seq<Byte>)
    requires defs.Acyclic() && defs.Below(fs, bound) && TypedFields(defs, fs, bound, m)
    ensures WriteFields(defs, fs, bound, m, at).Some?
    ensures Agrees(buf, at, WriteFields(defs, fs, bound, m, at).value) ==>
      ReadFields(defs, fs, bound, buf, at)
      == Expect(buf, at, WriteFields(defs, fs, bound, m, at).value, Restrict(m, fs))
    decreases bound, 4, |fs|
  {
    hide Agrees, WriteValue, ReadValue, TypedValue;
    if fs == [] {
      AgreesBound(buf, at, []);
      assert Restrict(m, fs) == map[];
    } else {
      var f := fs[0];
      ValueReadsBack(defs, f.ty, f.shape, m[f.name], at, buf);
      var first := WriteValue(defs, f.ty, f.shape, m[f.name], at).value;
      FieldsReadBack(defs, fs[1..], bound, m, at + |first|, buf);
      var rest := WriteFields(defs, fs[1..], bound, m, at + |first|).value;
      if Agrees(buf, at, first + rest) {
        AgreesSplit(buf, at, first, rest);
        RestrictStep(m, fs);
      }
    }
  }
}
