/** When decoding fails: a string that is all there but lacks its terminator, before anything that is cut off. */
module CdrDamage {
  import opened Common
  import opened Cdr
  import opened CdrReading

  // ---------------------------------------------------------------- damage

  /** A string of `n` bytes with the terminator ends inside the buffer, and not in a zero. */
  ghost predicate Unterminated(buf: seq<Byte>, at: nat, n: nat, h: nat) {
    PrimAt(U32, VInt(n), buf, at, h) && 0 < n <= |buf| - h && buf[h + n - 1] != 0
  }

  ghost predicate ScalarDamaged(defs: Defs, ty: Type, buf: seq<Byte>, at: nat)
    requires defs.Acyclic() && defs.Resolved(ty)
    decreases defs.Depth(ty), 0, 0
  {
    match ty
    case Primitive(_) => false
    case Text => exists n: nat, h: nat :: Unterminated(buf, at, n, h)
    case Message(m) => FieldsDamaged(defs, defs.messages[m], defs.rank[m], buf, at)
  }

  /** One of `n` items, all before it standing. */
  ghost predicate ItemsDamaged(defs: Defs, ty: Type, n: nat, buf: seq<Byte>, at: nat)
    requires defs.Acyclic() && defs.Resolved(ty)
    decreases defs.Depth(ty), 1, n
  {
    n > 0 && (
      || ScalarDamaged(defs, ty, buf, at)
      || exists v, mid: nat :: ScalarAt(defs, ty, v, buf, at, mid) && ItemsDamaged(defs, ty, n - 1, buf, mid))
  }

  ghost predicate ValueDamaged(defs: Defs, ty: Type, shape: Shape, buf: seq<Byte>, at: nat)
    requires defs.Acyclic() && defs.Resolved(ty)
    decreases defs.Depth(ty), 2, 0
  {
    match shape
    case Scalar => ScalarDamaged(defs, ty, buf, at)
    case Fixed(n) => ItemsDamaged(defs, ty, n, buf, at)
    case Sequence =>
      exists n: nat, h: nat :: PrimAt(U32, VInt(n), buf, at, h) && ItemsDamaged(defs, ty, n, buf, h)
  }

  /** One of the fields, all before it standing. */
  ghost predicate FieldsDamaged(defs: Defs, fs: seq<Field>, bound: nat, buf: seq<Byte>, at: nat)
    requires defs.Acyclic() && defs.Below(fs, bound)
    decreases bound, 3, |fs|
  {
    fs != [] && (
      || ValueDamaged(defs, fs[0].ty, fs[0].shape, buf, at)
      || exists v, mid: nat ::
           ValueAt(defs, fs[0].ty, fs[0].shape, v, buf, at, mid) && FieldsDamaged(defs, fs[1..], bound, buf, mid))
  }

  lemma ItemsMore(defs: Defs, ty: Type, n: nat, buf: seq<Byte>, at: nat)
    requires defs.Acyclic() && defs.Resolved(ty) && n > 0
    ensures var r := ReadScalar(defs, ty, buf, at);
            ItemsDamaged(defs, ty, n, buf, at) <==>
              ScalarDamaged(defs, ty, buf, at) || (r.Got? && ItemsDamaged(defs, ty, n - 1, buf, r.pos))
  {
    hide ReadScalar, ScalarAt, ScalarDamaged, Defs.Acyclic;
    var r := ReadScalar(defs, ty, buf, at);
    forall v, mid: nat
      ensures ScalarAt(defs, ty, v, buf, at, mid) <==> r == Got(v, mid)
    {
      ScalarReads(defs, ty, v, buf, at, mid);
    }
    if r.Got? { assert ScalarAt(defs, ty, r.value, buf, at, r.pos); }
  }

  lemma FieldsMore(defs: Defs, fs: seq<Field>, bound: nat, buf: seq<Byte>, at: nat)
    requires defs.Acyclic() && defs.Below(fs, bound) && fs != []
    ensures var r := ReadValue(defs, fs[0].ty, fs[0].shape, buf, at);
            FieldsDamaged(defs, fs, bound, buf, at) <==>
              || ValueDamaged(defs, fs[0].ty, fs[0].shape, buf, at)
              || (r.Got? && FieldsDamaged(defs, fs[1..], bound, buf, r.pos))
  {
    hide ReadValue, ValueAt, ValueDamaged, Defs.Acyclic;
    var f := fs[0];
    var r := ReadValue(defs, f.ty, f.shape, buf, at);
    forall v, mid: nat
      ensures ValueAt(defs, f.ty, f.shape, v, buf, at, mid) <==> r == Got(v, mid)
    {
      ValueReads(defs, f.ty, f.shape, v, buf, at, mid);
    }
    if r.Got? { assert ValueAt(defs, f.ty, f.shape, r.value, buf, at, r.pos); }
  }

  // ---------------------------------------------------------------- the reader

  lemma {:induction false} ScalarFails(defs: Defs, ty: Type, buf: seq<Byte>, at: nat)
    requires defs.Acyclic() && defs.Resolved(ty)
    ensures ReadScalar(defs, ty, buf, at).Malformed? <==> ScalarDamaged(defs, ty, buf, at)
    decreases defs.Depth(ty), 0, 0
  {
    hide ReadPrim, ReadText, PrimAt;
    match ty
    case Primitive(p) => assert !ReadPrim(p, buf, at).Malformed? by { PrimNeverFails(p, buf, at); }
    case Text => TextFails(buf, at);
    case Message(m) => FieldsFail(defs, defs.messages[m], defs.rank[m], buf, at);
  }

  lemma PrimNeverFails(p: Prim, buf: seq<Byte>, at: nat)
    ensures !ReadPrim(p, buf, at).Malformed?
  {
  }

  lemma TextFails(buf: seq<Byte>, at: nat)
    ensures ReadText(buf, at).Malformed? <==> exists n: nat, h: nat :: Unterminated(buf, at, n, h)
  {
    hide ReadText, PrimAt;
    TextMalformed(buf, at);
    if n: nat, h: nat :| PrimAt(U32, VInt(n), buf, at, h) && 0 < n <= |buf| - h && buf[h + n - 1] != 0 {
      assert Unterminated(buf, at, n, h);
    }
  }

  lemma {:induction false} ListFails(defs: Defs, ty: Type, n: nat, buf: seq<Byte>, at: nat)
    requires defs.Acyclic() && defs.Resolved(ty)
    ensures ReadList(defs, ty, n, buf, at).Malformed? <==> ItemsDamaged(defs, ty, n, buf, at)
    decreases defs.Depth(ty), 1, n
  {
    hide ReadScalar, ScalarAt, ScalarDamaged, Defs.Acyclic;
    if n > 0 {
      ItemsMore(defs, ty, n, buf, at);
      hide ItemsDamaged;
      var first := ReadScalar(defs, ty, buf, at);
      ScalarFails(defs, ty, buf, at);
      if first.Got? { ListFails(defs, ty, n - 1, buf, first.pos); }
    }
  }

  lemma {:induction false} PrimsUndamaged(defs: Defs, p: Prim, n: nat, buf: seq<Byte>, at: nat)
    requires defs.Acyclic()
    ensures !ItemsDamaged(defs, Primitive(p), n, buf, at)
    decreases n
  {
    hide ScalarAt, Defs.Acyclic;
    if n > 0 {
      var less := n - 1;
      forall mid: nat
        ensures !ItemsDamaged(defs, Primitive(p), less, buf, mid)
      {
        PrimsUndamaged(defs, p, less, buf, mid);
      }
    }
  }

  lemma {:induction false} ItemsFail(defs: Defs, ty: Type, n: nat, buf: seq<Byte>, at: nat)
    requires defs.Acyclic() && defs.Resolved(ty)
    ensures ReadItems(defs, ty, n, buf, at).Malformed? <==> ItemsDamaged(defs, ty, n, buf, at)
    decreases defs.Depth(ty), 2, 0
  {
    hide ReadPrims, ReadList, ItemsDamaged, Defs.Acyclic;
    if ty.Primitive? {
      PrimsUndamaged(defs, ty.prim, n, buf, at);
      PrimsRead(ty.prim, n, [], buf, at, 0);
    } else {
      ListFails(defs, ty, n, buf, at);
    }
  }

  lemma {:induction false} ValueFails(defs: Defs, ty: Type, shape: Shape, buf: seq<Byte>, at: nat)
    requires defs.Acyclic() && defs.Resolved(ty)
    ensures ReadValue(defs, ty, shape, buf, at).Malformed? <==> ValueDamaged(defs, ty, shape, buf, at)
    decreases defs.Depth(ty), 3, 0
  {
    hide ReadPrim, ReadScalar, ReadItems, ScalarDamaged, ItemsDamaged, PrimAt, Defs.Acyclic;
    match shape
    case Scalar => ScalarFails(defs, ty, buf, at);
    case Fixed(n) => ItemsFail(defs, ty, n, buf, at);
    case Sequence =>
      LengthReads(buf, at);
      var head := ReadPrim(U32, buf, at);
      if head.Got? { ItemsFail(defs, ty, head.value.n, buf, head.pos); }
      if n: nat, h: nat :| PrimAt(U32, VInt(n), buf, at, h) && ItemsDamaged(defs, ty, n, buf, h) {
        PrimReads(U32, VInt(n), buf, at, h);
      }
  }

  lemma {:induction false} FieldsFail(defs: Defs, fs: seq<Field>, bound: nat, buf: seq<Byte>, at: nat)
    requires defs.Acyclic() && defs.Below(fs, bound)
    ensures ReadFields(defs, fs, bound, buf, at).Malformed? <==> FieldsDamaged(defs, fs, bound, buf, at)
    decreases bound, 4, |fs|
  {
    hide ReadValue, ValueAt, ValueDamaged, Defs.Acyclic;
    if fs != [] {
      FieldsMore(defs, fs, bound, buf, at);
      hide FieldsDamaged;
      var f := fs[0];
      ValueFails(defs, f.ty, f.shape, buf, at);
      var first := ReadValue(defs, f.ty, f.shape, buf, at);
      if first.Got? { FieldsFail(defs, fs[1..], bound, buf, first.pos); }
    }
  }

  // ---------------------------------------------------------------- whole messages

  lemma {:induction false} DecodingFails(defs: Defs, fs: seq<Field>, bound: nat, buf: seq<Byte>, at: nat,
                                         tolerant: bool)
    requires defs.Acyclic() && defs.Below(fs, bound)
    ensures var d := DecodeFields(defs, fs, bound, buf, at, tolerant);
            && (d.BadText? <==> FieldsDamaged(defs, fs, bound, buf, at))
            && !d.BadHeader? && !d.UnknownType? && (tolerant ==> !d.Incomplete?)
    decreases |fs|
  {
    hide ReadValue, ValueAt, ValueDamaged, Defs.Acyclic;
    if fs != [] {
      FieldsMore(defs, fs, bound, buf, at);
      hide FieldsDamaged;
      var f := fs[0];
      ValueFails(defs, f.ty, f.shape, buf, at);
      var first := ReadValue(defs, f.ty, f.shape, buf, at);
      if first.Got? { DecodingFails(defs, fs[1..], bound, buf, first.pos, tolerant); }
    }
  }

  /** The strict decoding differs from the tolerant one exactly where a field is missing. */
  lemma {:induction false} StrictIs(defs: Defs, fs: seq<Field>, bound: nat, buf: seq<Byte>, at: nat)
    requires defs.Acyclic() && defs.Below(fs, bound)
    ensures var d := DecodeFields(defs, fs, bound, buf, at, true);
            var strict := if d.Ok? && d.result.missing != [] then Incomplete else d;
            DecodeFields(defs, fs, bound, buf, at, false) == strict
    decreases |fs|
  {
    hide ReadValue, Defs.Acyclic;
    if fs != [] {
      assert |NameList(fs)| > 0;
      var first := ReadValue(defs, fs[0].ty, fs[0].shape, buf, at);
      if first.Got? { StrictIs(defs, fs[1..], bound, buf, first.pos); }
    }
  }

  /** Every outcome of a decoding but success, exactly: a header that does not say little-endian CDR, a type not
      defined, a string that ends inside the buffer without its terminator, or, in a strict decoding, a missing
      field. */
  lemma DecodeFailsExactly(defs: Defs, name: string, buf: seq<Byte>)
    requires defs.Acyclic()
    ensures var header := |buf| >= 4 && buf[0] == 0 && buf[1] == 1;
            var d := Decode(defs, name, buf, true);
            && (d.BadHeader? <==> !header)
            && (d.UnknownType? <==> header && name !in defs.messages)
            && (d.BadText? <==> header && name in defs.messages
                                && FieldsDamaged(defs, defs.messages[name], defs.rank[name], buf[4..], 0))
            && !d.Incomplete?
            && Decode(defs, name, buf, false) == if d.Ok? && d.result.missing != [] then Incomplete else d
  {
    hide DecodeFields, FieldsDamaged;
    if |buf| >= 4 {
      assert buf[..2] == [buf[0], buf[1]];
      assert HEADER[..2] == [0, 1];
      if name in defs.messages {
        DecodingFails(defs, defs.messages[name], defs.rank[name], buf[4..], 0, true);
        StrictIs(defs, defs.messages[name], defs.rank[name], buf[4..], 0);
      }
    }
  }
}
