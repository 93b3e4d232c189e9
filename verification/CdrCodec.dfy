/** The writer and reader objects and the recursive routines over them, proved to append and to
    find exactly what the functional codec says. An exception of the source is a result here. */
module CdrCodec {
  import opened Common
  import opened Cdr

  // ---------------------------------------------------------------- writer

  class CdrWriter {
    var buf: seq<Byte>

    ghost predicate Valid()
      reads this
    {
      |buf| >= 4
    }

    constructor ()
      ensures Valid() && buf == HEADER
    {
      buf := HEADER;
    }

    method Align(size: nat)
      requires Valid() && size > 0
      modifies this
      ensures Valid() && buf == old(buf) + Zeros(Pad(|old(buf)| - 4, size))
    {
      var r := (|buf| - 4) % size;
      if r != 0 {
        buf := buf + Zeros(size - r);
      }
    }

    /** Appends an aligned primitive, or fails when the value does not fit its format. */
    method WritePrimitive(p: Prim, v: Value) returns (ok: bool)
      requires Valid()
      modifies this
      ensures Valid() && Appended(ok, old(buf), buf, WritePrim(p, v, |old(buf)| - 4))
    {
      hide Pack, Fits, Pad;
      Align(Size(p));
      ok := Fits(p, v);
      if ok {
        buf := buf + Pack(p, v);
      }
    }

    method WritePrimitives(p: Prim, vs: seq<Value>) returns (ok: bool)
      requires Valid()
      modifies this
      ensures Valid() && Appended(ok, old(buf), buf, WritePrims(p, vs, |old(buf)| - 4))
    {
      hide PackAll, Fits, Pad;
      if vs == [] { return true; }
      Align(Size(p));
      ok := forall v :: v in vs ==> Fits(p, v);
      if ok {
        buf := buf + PackAll(p, vs);
      }
    }

    method WriteString(utf8: seq<Byte>) returns (ok: bool)
      requires Valid()
      modifies this
      ensures Valid() && Appended(ok, old(buf), buf, WriteText(utf8, |old(buf)| - 4))
    {
      hide WritePrim;
      var raw := utf8 + [0];
      ok := WritePrimitive(U32, VInt(|raw|));
      if ok {
        buf := buf + raw;
      }
    }
  }

  /** The call succeeded exactly when the codec has bytes for it, and appended those bytes. */
  ghost predicate Appended(ok: bool, before: seq<Byte>, after: seq<Byte>, w: Option<seq<Byte>>) {
    && (ok <==> w.Some?)
    && (ok ==> after == before + w.value)
  }

  method PutScalar(w: CdrWriter, defs: Defs, ty: Type, v: Value) returns (ok: bool)
    requires w.Valid() && defs.Acyclic() && defs.Resolved(ty)
    modifies w
    ensures w.Valid() && Appended(ok, old(w.buf), w.buf, WriteScalar(defs, ty, v, |old(w.buf)| - 4))
    decreases defs.Depth(ty), 0, 0
  {
    hide WritePrim, WriteText, WriteFields;
    match ty
    case Primitive(p) => ok := w.WritePrimitive(p, v);
    case Text =>
      if !v.VText? { return false; }
      ok := w.WriteString(v.utf8);
    case Message(m) =>
      if !v.VStruct? { return false; }
      ok := PutStruct(w, defs, m, v.fields);
  }

  /** What was appended so far and what is still to come add up to the whole. */
  ghost predicate Pending(start: seq<Byte>, whole: Option<seq<Byte>>, now: seq<Byte>, rest: Option<seq<Byte>>) {
    && (whole.Some? <==> rest.Some?)
    && (rest.Some? ==> start + whole.value == now + rest.value)
  }

  lemma PendingStep(start: seq<Byte>, whole: Option<seq<Byte>>, now: seq<Byte>, x: seq<Byte>, rest: Option<seq<Byte>>)
    requires Pending(start, whole, now, if rest.None? then None else Some(x + rest.value))
    ensures Pending(start, whole, now + x, rest)
  {
    if rest.Some? {
      assert now + (x + rest.value) == now + x + rest.value;
    }
  }

  method PutItems(w: CdrWriter, defs: Defs, ty: Type, vs: seq<Value>) returns (ok: bool)
    requires w.Valid() && defs.Acyclic() && defs.Resolved(ty)
    modifies w
    ensures w.Valid() && Appended(ok, old(w.buf), w.buf, WriteItems(defs, ty, vs, |old(w.buf)| - 4))
    decreases defs.Depth(ty), 2, 0
  {
    hide WritePrims, WriteScalar;
    if ty.Primitive? {
      ok := w.WritePrimitives(ty.prim, vs);
      return;
    }
    ghost var whole := WriteList(defs, ty, vs, |w.buf| - 4);
    assert vs[0..] == vs;
    for i := 0 to |vs|
      invariant w.Valid()
      invariant Pending(old(w.buf), whole, w.buf, WriteList(defs, ty, vs[i..], |w.buf| - 4))
    {
      assert vs[i..][0] == vs[i] && vs[i..][1..] == vs[i + 1..];
      ghost var before := w.buf;
      ghost var one := WriteScalar(defs, ty, vs[i], |before| - 4);
      ok := PutScalar(w, defs, ty, vs[i]);
      if !ok { return; }
      PendingStep(old(w.buf), whole, before, one.value, WriteList(defs, ty, vs[i + 1..], |w.buf| - 4));
    }
    assert vs[|vs|..] == [];
    ok := true;
  }

  method PutValue(w: CdrWriter, defs: Defs, ty: Type, shape: Shape, v: Value) returns (ok: bool)
    requires w.Valid() && defs.Acyclic() && defs.Resolved(ty)
    modifies w
    ensures w.Valid() && Appended(ok, old(w.buf), w.buf, WriteValue(defs, ty, shape, v, |old(w.buf)| - 4))
    decreases defs.Depth(ty), 3, 0
  {
    hide WritePrim, WriteScalar, WriteItems;
    if shape.Scalar? {
      ok := PutScalar(w, defs, ty, v);
      return;
    }
    if !v.VList? { return false; }
    if shape.Sequence? {
      ok := w.WritePrimitive(U32, VInt(|v.items|));
      if !ok { return; }
    } else if |v.items| != shape.count {
      return false;
    }
    ok := PutItems(w, defs, ty, v.items);
  }

  method PutStruct(w: CdrWriter, defs: Defs, name: string, m: map<string, Value>) returns (ok: bool)
    requires w.Valid() && defs.Acyclic() && name in defs.messages
    modifies w
    ensures w.Valid()
    ensures Appended(ok, old(w.buf), w.buf,
                     WriteFields(defs, defs.messages[name], defs.rank[name], m, |old(w.buf)| - 4))
    decreases defs.rank[name], 4, 0
  {
    hide WriteValue;
    var fs := defs.messages[name];
    ghost var bound := defs.rank[name];
    ghost var whole := WriteFields(defs, fs, bound, m, |w.buf| - 4);
    assert fs[0..] == fs;
    for i := 0 to |fs|
      invariant w.Valid()
      invariant Pending(old(w.buf), whole, w.buf, WriteFields(defs, fs[i..], bound, m, |w.buf| - 4))
    {
      var f := fs[i];
      assert fs[i..][0] == f && fs[i..][1..] == fs[i + 1..];
      if f.name !in m { return false; }
      ghost var before := w.buf;
      ghost var one := WriteValue(defs, f.ty, f.shape, m[f.name], |before| - 4);
      ok := PutValue(w, defs, f.ty, f.shape, m[f.name]);
      if !ok { return; }
      PendingStep(old(w.buf), whole, before, one.value, WriteFields(defs, fs[i + 1..], bound, m, |w.buf| - 4));
    }
    assert fs[|fs|..] == [];
    ok := true;
  }

  method EncodeMessage(defs: Defs, name: string, m: map<string, Value>) returns (r: Option<seq<Byte>>)
    requires defs.Acyclic()
    ensures r == Encode(defs, name, m)
  {
    hide WriteFields;
    if name !in defs.messages { return None; }
    var w := new CdrWriter();
    var ok := PutStruct(w, defs, name, m);
    r := if ok then Some(w.buf) else None;
  }

  // ---------------------------------------------------------------- reader

  class CdrReader {
    const buf: seq<Byte>
    var pos: nat

    ghost predicate Valid()
      reads this
    {
      |buf| >= 4 && pos >= 4
    }

    /** The position counted from the end of the header. */
    function At(): nat
      requires Valid()
      reads this
    {
      pos - 4
    }

    /** A successful read moved the cursor to its end. */
    ghost predicate Moved<T>(r: Read<T>)
      requires Valid()
      reads this
    {
      r.Got? ==> At() == r.pos
    }

    constructor (buf: seq<Byte>)
      requires |buf| >= 4
      ensures this.buf == buf && Valid() && At() == 0
    {
      this.buf := buf;
      pos := 4;
    }

    method Align(size: nat)
      requires Valid() && size > 0
      modifies this
      ensures Valid() && At() == old(At()) + Pad(old(At()), size)
    {
      var r := (pos - 4) % size;
      if r != 0 {
        pos := pos + (size - r);
      }
    }

    method ReadPrimitive(p: Prim) returns (r: Read<Value>)
      requires Valid()
      modifies this
      ensures Valid() && Moved(r) && r == ReadPrim(p, buf[4..], old(At()))
    {
      hide Unpack;
      Align(Size(p));
      if pos + Size(p) > |buf| { return Truncated; }
      var start := pos;
      pos := pos + Size(p);
      SliceBody(buf, start, pos);
      r := Got(Unpack(p, buf[start..pos]), pos - 4);
    }

    method ReadPrimitives(p: Prim, n: nat) returns (r: Read<Value>)
      requires Valid()
      modifies this
      ensures Valid() && Moved(r) && r == ReadPrims(p, n, buf[4..], old(At()))
    {
      hide UnpackAll, ReadPrims, Size;
      ReadPrimsCases(p, n, buf[4..], At());
      if n == 0 { return Got(VList([]), pos - 4); }
      Align(Size(p));
      var size := Size(p) * n;
      if pos + size > |buf| { return Truncated; }
      var start := pos;
      pos := pos + size;
      SliceBody(buf, start, pos);
      r := Got(VList(UnpackAll(p, n, buf[start..pos])), pos - 4);
    }

    method ReadString() returns (r: Read<Value>)
      requires Valid()
      modifies this
      ensures Valid() && Moved(r) && r == ReadText(buf[4..], old(At()))
    {
      hide ReadPrim, FromLittleEndian;
      var head := ReadPrimitive(U32);
      ReadPrimKind(U32, buf[4..], old(At()));
      if !head.Got? { return Truncated; }
      var n := head.value.n;
      if n == 0 { return Got(VText([]), pos - 4); }
      if pos + n > |buf| { return Truncated; }
      var start := pos;
      pos := pos + n;
      if buf[start + n - 1] != 0 { return Malformed; }
      SliceBody(buf, start, start + n - 1);
      r := Got(VText(buf[start..start + n - 1]), pos - 4);
    }
  }

  lemma ReadPrimsCases(p: Prim, n: nat, body: seq<Byte>, pos: nat)
    ensures Size(p) > 0
    ensures
      var at, size := pos + Pad(pos, Size(p)), Size(p) * n;
      if n == 0 then ReadPrims(p, n, body, pos) == Got(VList([]), pos)
      else if at + size > |body| then ReadPrims(p, n, body, pos) == Truncated
      else ReadPrims(p, n, body, pos) == Got(VList(UnpackAll(p, n, body[at..at + size])), at + size)
  {
    hide UnpackAll;
  }

  lemma SliceBody(buf: seq<Byte>, start: nat, end: nat)
    requires 4 <= start <= end <= |buf|
    ensures buf[start..end] == buf[4..][start - 4..end - 4]
  {
    var body := buf[4..];
    assert forall i :: 4 <= i < |buf| ==> buf[i] == body[i - 4];
  }

  /** A primitive read never reports a malformed string, and a length is a natural number. */
  lemma ReadPrimKind(p: Prim, buf: seq<Byte>, pos: nat)
    ensures !ReadPrim(p, buf, pos).Malformed?
    ensures p == U32 && ReadPrim(p, buf, pos).Got? ==>
              ReadPrim(p, buf, pos).value.VInt? && ReadPrim(p, buf, pos).value.n >= 0
  {
  }

  method TakeScalar(r: CdrReader, defs: Defs, ty: Type) returns (v: Read<Value>)
    requires r.Valid() && defs.Acyclic() && defs.Resolved(ty)
    modifies r
    ensures r.Valid() && r.Moved(v) && v == ReadScalar(defs, ty, r.buf[4..], old(r.At()))
    decreases defs.Depth(ty), 0, 0
  {
    hide ReadPrim, ReadText, ReadFields;
    match ty
    case Primitive(p) => v := r.ReadPrimitive(p);
    case Text => v := r.ReadString();
    case Message(m) =>
      var fields := TakeStruct(r, defs, m);
      v := match fields
        case Got(f, p) => Got(VStruct(f), p)
        case Truncated => Truncated
        case Malformed => Malformed;
  }

  /** Values read so far, in front of the outcome of the remaining reads. */
  function Prepend(acc: seq<Value>, r: Read<seq<Value>>): Read<seq<Value>> {
    match r case Got(vs, p) => Got(acc + vs, p) case Truncated => Truncated case Malformed => Malformed
  }

  lemma PrependStep(acc: seq<Value>, v: Value, r: Read<seq<Value>>)
    ensures Prepend(acc, Prepend([v], r)) == Prepend(acc + [v], r)
  {
    if r.Got? {
      assert acc + ([v] + r.value) == acc + [v] + r.value;
    }
  }

  method TakeItems(r: CdrReader, defs: Defs, ty: Type, n: nat) returns (v: Read<Value>)
    requires r.Valid() && defs.Acyclic() && defs.Resolved(ty)
    modifies r
    ensures r.Valid() && r.Moved(v) && v == ReadItems(defs, ty, n, r.buf[4..], old(r.At()))
    decreases defs.Depth(ty), 2, 0
  {
    hide ReadPrims, ReadScalar;
    if ty.Primitive? {
      v := r.ReadPrimitives(ty.prim, n);
      return;
    }
    ghost var whole := ReadList(defs, ty, n, r.buf[4..], r.At());
    var acc := [];
    assert Prepend([], whole) == whole by {
      if whole.Got? { assert [] + whole.value == whole.value; }
    }
    for i := 0 to n
      invariant r.Valid()
      invariant Prepend(acc, ReadList(defs, ty, n - i, r.buf[4..], r.At())) == whole
    {
      var one := TakeScalar(r, defs, ty);
      match one
      case Truncated => return Truncated;
      case Malformed => return Malformed;
      case Got(x, _) =>
        PrependStep(acc, x, ReadList(defs, ty, n - i - 1, r.buf[4..], r.At()));
        acc := acc + [x];
    }
    assert acc + [] == acc;
    v := Got(VList(acc), r.pos - 4);
  }

  method TakeValue(r: CdrReader, defs: Defs, ty: Type, shape: Shape) returns (v: Read<Value>)
    requires r.Valid() && defs.Acyclic() && defs.Resolved(ty)
    modifies r
    ensures r.Valid() && r.Moved(v) && v == ReadValue(defs, ty, shape, r.buf[4..], old(r.At()))
    decreases defs.Depth(ty), 3, 0
  {
    hide ReadPrim, ReadScalar, ReadItems;
    match shape
    case Scalar => v := TakeScalar(r, defs, ty);
    case Fixed(n) => v := TakeItems(r, defs, ty, n);
    case Sequence =>
      ReadPrimKind(U32, r.buf[4..], r.At());
      var head := r.ReadPrimitive(U32);
      if !head.Got? { return Truncated; }
      v := TakeItems(r, defs, ty, head.value.n);
  }

  function Under(acc: map<string, Value>, r: Read<map<string, Value>>): Read<map<string, Value>> {
    match r case Got(m, p) => Got(acc + m, p) case Truncated => Truncated case Malformed => Malformed
  }

  lemma UnderStep(acc: map<string, Value>, k: string, v: Value, r: Read<map<string, Value>>)
    ensures Under(acc, Under(map[k := v], r)) == Under(acc[k := v], r)
  {
    if r.Got? {
      assert acc + (map[k := v] + r.value) == acc[k := v] + r.value;
    }
  }

  method TakeStruct(r: CdrReader, defs: Defs, name: string) returns (v: Read<map<string, Value>>)
    requires r.Valid() && defs.Acyclic() && name in defs.messages
    modifies r
    ensures r.Valid() && r.Moved(v)
    ensures v == ReadFields(defs, defs.messages[name], defs.rank[name], r.buf[4..], old(r.At()))
    decreases defs.rank[name], 4, 0
  {
    hide ReadValue;
    var fs := defs.messages[name];
    ghost var bound := defs.rank[name];
    ghost var whole := ReadFields(defs, fs, bound, r.buf[4..], r.At());
    var acc: map<string, Value> := map[];
    assert Under(map[], whole) == whole by {
      if whole.Got? { assert map[] + whole.value == whole.value; }
    }
    assert fs[0..] == fs;
    for i := 0 to |fs|
      invariant r.Valid()
      invariant Under(acc, ReadFields(defs, fs[i..], bound, r.buf[4..], r.At())) == whole
    {
      assert fs[i..][0] == fs[i] && fs[i..][1..] == fs[i + 1..];
      var one := TakeValue(r, defs, fs[i].ty, fs[i].shape);
      match one
      case Truncated => return Truncated;
      case Malformed => return Malformed;
      case Got(x, _) =>
        UnderStep(acc, fs[i].name, x, ReadFields(defs, fs[i + 1..], bound, r.buf[4..], r.At()));
        acc := acc[fs[i].name := x];
    }
    assert fs[|fs|..] == [];
    assert acc + map[] == acc;
    v := Got(acc, r.pos - 4);
  }

  // ---------------------------------------------------------------- the tolerant decoder

  function Beneath(acc: map<string, Option<Value>>, d: Decoding): Decoding {
    match d
    case Ok(r) => Ok(r.(value := acc + r.value))
    case BadHeader => BadHeader
    case UnknownType => UnknownType
    case BadText => BadText
    case Incomplete => Incomplete
  }

  lemma BeneathStep(acc: map<string, Option<Value>>, k: string, v: Option<Value>, d: Decoding)
    ensures Beneath(acc, Beneath(map[k := v], d)) == Beneath(acc[k := v], d)
  {
    if d.Ok? {
      assert acc + (map[k := v] + d.result.value) == acc[k := v] + d.result.value;
    }
  }

  lemma BeneathNothing(d: Decoding)
    ensures Beneath(map[], d) == d
  {
    if d.Ok? {
      assert map[] + d.result.value == d.result.value;
    }
  }

  /** One pass of the decode loop. */
  lemma DecodeUnfold(defs: Defs, fs: seq<Field>, i: nat, bound: nat, body: seq<Byte>, pos: nat, tolerant: bool)
    requires defs.Acyclic() && defs.Below(fs, bound) && i <= |fs|
    ensures i < |fs| ==> defs.Below(fs[i + 1..], bound)
    ensures defs.Below(fs[i..], bound)
    ensures
      var d := DecodeFields(defs, fs[i..], bound, body, pos, tolerant);
      if i == |fs| then d == Ok(Result(map[], [], |body| - pos))
      else
        match ReadValue(defs, fs[i].ty, fs[i].shape, body, pos)
        case Malformed => d == BadText
        case Truncated => d == if tolerant then Ok(Result(Absent(fs[i..]), NameList(fs[i..]), 0)) else Incomplete
        case Got(v, p) =>
          d == Beneath(map[fs[i].name := Some(v)], DecodeFields(defs, fs[i + 1..], bound, body, p, tolerant))
  {
    hide ReadValue, Absent, NameList;
    if i < |fs| {
      assert fs[i..][0] == fs[i] && fs[i..][1..] == fs[i + 1..];
    }
  }

  method DecodeMessage(defs: Defs, name: string, buf: seq<Byte>, tolerant: bool) returns (d: Decoding)
    requires defs.Acyclic()
    ensures d == Decode(defs, name, buf, tolerant)
  {
    hide ReadValue, Absent, NameList, DecodeFields;
    if |buf| < 4 || buf[..2] != HEADER[..2] { return BadHeader; }
    var r := new CdrReader(buf);
    if name !in defs.messages { return UnknownType; }
    var fs := defs.messages[name];
    ghost var bound := defs.rank[name];
    var out: map<string, Option<Value>> := map[];
    ghost var whole := DecodeFields(defs, fs, bound, buf[4..], 0, tolerant);
    BeneathNothing(whole);
    assert fs[0..] == fs;
    for i := 0 to |fs|
      invariant r.Valid()
      invariant Beneath(out, DecodeFields(defs, fs[i..], bound, buf[4..], r.At(), tolerant)) == whole
    {
      DecodeUnfold(defs, fs, i, bound, buf[4..], r.At(), tolerant);
      var mark := r.pos;
      var one := TakeValue(r, defs, fs[i].ty, fs[i].shape);
      match one
      case Malformed => return BadText;
      case Truncated =>
        if !tolerant { return Incomplete; }
        r.pos := mark;
        return Ok(Result(out + Absent(fs[i..]), NameList(fs[i..]), 0));
      case Got(x, _) =>
        BeneathStep(out, fs[i].name, Some(x), DecodeFields(defs, fs[i + 1..], bound, buf[4..], r.At(), tolerant));
        out := out[fs[i].name := Some(x)];
    }
    DecodeUnfold(defs, fs, |fs|, bound, buf[4..], r.At(), tolerant);
    assert out + map[] == out;
    d := Ok(Result(out, [], |buf| - r.pos));
  }
}
