/** Classic little-endian CDR (OMG DDS-XTypes, section 7.4.1) driven by message definitions: what
    the writer appends at a position and what the reader finds there. Positions count from the end
    of the four-byte encapsulation header, because alignment does. */
module Cdr {
  import opened Common

  // ---------------------------------------------------------------- message definitions

  datatype Width = W1 | W2 | W4 | W8
  datatype Prim = Bool | Unsigned(width: Width) | Signed(width: Width) | Floating(width: Width)
  datatype Type = Primitive(prim: Prim) | Text | Message(name: string)
  datatype Shape = Scalar | Fixed(count: nat) | Sequence
  datatype Field = Field(name: string, ty: Type, shape: Shape)

  /** Named definitions; `rank` witnesses that they are acyclic. */
  datatype Defs = Defs(messages: map<string, seq<Field>>, rank: map<string, nat>) {

    ghost predicate Acyclic() {
      && messages.Keys == rank.Keys
      && forall m :: m in messages ==> Below(messages[m], rank[m]) && Distinct(messages[m])
    }

    /** Every message a field list refers to is defined, with a rank below the bound. */
    ghost predicate Below(fs: seq<Field>, bound: nat) {
      forall f :: f in fs ==> Resolved(f.ty) && Depth(f.ty) <= bound
    }

    ghost predicate Resolved(ty: Type) {
      ty.Message? ==> ty.name in messages && ty.name in rank
    }

    ghost function Depth(ty: Type): nat
      requires Resolved(ty)
    {
      if ty.Message? then rank[ty.name] + 1 else 0
    }
  }

  ghost predicate Distinct(fs: seq<Field>) {
    forall i, j :: 0 <= i < j < |fs| ==> fs[i].name != fs[j].name
  }

  function Names(fs: seq<Field>): set<string> {
    set f | f in fs :: f.name
  }

  function NameList(fs: seq<Field>): seq<string> {
    seq(|fs|, i requires 0 <= i < |fs| => fs[i].name)
  }

  // ---------------------------------------------------------------- values

  datatype Value =
    | VBool(b: bool)
    | VInt(n: int)
    | VFloat(pattern: seq<Byte>)
    | VText(utf8: seq<Byte>)
    | VStruct(fields: map<string, Value>)
    | VList(items: seq<Value>)

  const U32: Prim := Unsigned(W4)
  const LIMIT32: nat := 0x1_0000_0000

  function Bytes(w: Width): nat {
    match w case W1 => 1 case W2 => 2 case W4 => 4 case W8 => 8
  }

  function Size(p: Prim): nat {
    if p.Bool? then 1 else Bytes(p.width)
  }

  function Span(w: Width): nat {
    match w case W1 => 0x100 case W2 => 0x1_0000 case W4 => 0x1_0000_0000 case W8 => 0x1_0000_0000_0000_0000
  }

  function LittleEndian(n: nat, k: nat): (bs: seq<Byte>)
    ensures |bs| == k
  {
    if k == 0 then [] else [n % 256] + LittleEndian(n / 256, k - 1)
  }

  function FromLittleEndian(bs: seq<Byte>): nat {
    if bs == [] then 0 else bs[0] + 256 * FromLittleEndian(bs[1..])
  }

  /** The value fits the struct format of its primitive type. */
  predicate Fits(p: Prim, v: Value) {
    match p
    case Bool => v.VBool?
    case Unsigned(w) => v.VInt? && 0 <= v.n < Span(w)
    case Signed(w) => v.VInt? && -(Span(w) / 2) <= v.n < Span(w) / 2
    case Floating(w) => v.VFloat? && |v.pattern| == Bytes(w)
  }

  function Pack(p: Prim, v: Value): (bs: seq<Byte>)
    requires Fits(p, v)
    ensures |bs| == Size(p)
  {
    match p
    case Bool => [if v.b then 1 else 0]
    case Unsigned(w) => LittleEndian(v.n, Bytes(w))
    case Signed(w) => LittleEndian(if v.n < 0 then v.n + Span(w) else v.n, Bytes(w))
    case Floating(w) => v.pattern
  }

  function Unpack(p: Prim, bs: seq<Byte>): (v: Value)
    requires |bs| == Size(p)
  {
    match p
    case Bool => VBool(bs[0] != 0)
    case Unsigned(w) => VInt(FromLittleEndian(bs))
    case Signed(w) =>
      var n := FromLittleEndian(bs);
      VInt(if n < Span(w) / 2 then n else n - Span(w))
    case Floating(w) => VFloat(bs)
  }

  function PackAll(p: Prim, vs: seq<Value>): (bs: seq<Byte>)
    requires forall v :: v in vs ==> Fits(p, v)
    ensures |bs| == Size(p) * |vs|
  {
    if vs == [] then [] else Pack(p, vs[0]) + PackAll(p, vs[1..])
  }

  function UnpackAll(p: Prim, n: nat, bs: seq<Byte>): (vs: seq<Value>)
    requires |bs| == Size(p) * n
    ensures |vs| == n
  {
    if n == 0 then []
    else
      assert |bs| >= Size(p);
      [Unpack(p, bs[..Size(p)])] + UnpackAll(p, n - 1, bs[Size(p)..])
  }

  // ---------------------------------------------------------------- writer

  /** Alignment padding before a primitive of the given size. */
  function Pad(at: nat, size: nat): (k: nat)
    requires size > 0
    ensures k < size
  {
    var r := at % size;
    if r == 0 then 0 else size - r
  }

  function Zeros(k: nat): (bs: seq<Byte>)
    ensures |bs| == k
  {
    seq(k, _ => 0)
  }

  function WritePrim(p: Prim, v: Value, at: nat): Option<seq<Byte>> {
    if Fits(p, v) then Some(Zeros(Pad(at, Size(p))) + Pack(p, v)) else None
  }

  function WritePrims(p: Prim, vs: seq<Value>, at: nat): Option<seq<Byte>> {
    if vs == [] then Some([])
    else if forall v :: v in vs ==> Fits(p, v) then Some(Zeros(Pad(at, Size(p))) + PackAll(p, vs))
    else None
  }

  function WriteText(utf8: seq<Byte>, at: nat): Option<seq<Byte>> {
    var head := WritePrim(U32, VInt(|utf8| + 1), at);
    if head.None? then None else Some(head.value + (utf8 + [0]))
  }

  /** The bytes a scalar of the given type appends at position `at`. */
  function WriteScalar(defs: Defs, ty: Type, v: Value, at: nat): Option<seq<Byte>>
    requires defs.Acyclic() && defs.Resolved(ty)
    decreases defs.Depth(ty), 0, 0
  {
    match ty
    case Primitive(p) => WritePrim(p, v, at)
    case Text => if v.VText? then WriteText(v.utf8, at) else None
    case Message(m) =>
      if v.VStruct? then WriteFields(defs, defs.messages[m], defs.rank[m], v.fields, at) else None
  }

  function WriteList(defs: Defs, ty: Type, vs: seq<Value>, at: nat): Option<seq<Byte>>
    requires defs.Acyclic() && defs.Resolved(ty)
    decreases defs.Depth(ty), 1, |vs|
  {
    if vs == [] then Some([])
    else
      var first := WriteScalar(defs, ty, vs[0], at);
      if first.None? then None
      else
        var rest := WriteList(defs, ty, vs[1..], at + |first.value|);
        if rest.None? then None else Some(first.value + rest.value)
  }

  function WriteItems(defs: Defs, ty: Type, vs: seq<Value>, at: nat): Option<seq<Byte>>
    requires defs.Acyclic() && defs.Resolved(ty)
    decreases defs.Depth(ty), 2, 0
  {
    if ty.Primitive? then WritePrims(ty.prim, vs, at) else WriteList(defs, ty, vs, at)
  }

  function WriteValue(defs: Defs, ty: Type, shape: Shape, v: Value, at: nat): Option<seq<Byte>>
    requires defs.Acyclic() && defs.Resolved(ty)
    decreases defs.Depth(ty), 3, 0
  {
    match shape
    case Scalar => WriteScalar(defs, ty, v, at)
    case Fixed(n) =>
      if v.VList? && |v.items| == n then WriteItems(defs, ty, v.items, at) else None
    case Sequence =>
      if !v.VList? then None
      else
        var head := WritePrim(U32, VInt(|v.items|), at);
        if head.None? then None
        else
          var items := WriteItems(defs, ty, v.items, at + |head.value|);
          if items.None? then None else Some(head.value + items.value)
  }

  function WriteFields(defs: Defs, fs: seq<Field>, bound: nat, m: map<string, Value>, at: nat): Option<seq<Byte>>
    requires defs.Acyclic() && defs.Below(fs, bound)
    decreases bound, 4, |fs|
  {
    if fs == [] then Some([])
    else if fs[0].name !in m then None
    else
      var first := WriteValue(defs, fs[0].ty, fs[0].shape, m[fs[0].name], at);
      if first.None? then None
      else
        var rest := WriteFields(defs, fs[1..], bound, m, at + |first.value|);
        if rest.None? then None else Some(first.value + rest.value)
  }

  // ---------------------------------------------------------------- reader

  datatype Read<+T> = Got(value: T, pos: nat) | Truncated | Malformed

  function ReadPrim(p: Prim, buf: seq<Byte>, pos: nat): Read<Value> {
    var at := pos + Pad(pos, Size(p));
    if at + Size(p) > |buf| then Truncated
    else Got(Unpack(p, buf[at..at + Size(p)]), at + Size(p))
  }

  function ReadPrims(p: Prim, n: nat, buf: seq<Byte>, pos: nat): Read<Value> {
    if n == 0 then Got(VList([]), pos)
    else
      var at := pos + Pad(pos, Size(p));
      if at + Size(p) * n > |buf| then Truncated
      else Got(VList(UnpackAll(p, n, buf[at..at + Size(p) * n])), at + Size(p) * n)
  }

  function ReadText(buf: seq<Byte>, pos: nat): Read<Value> {
    var head := ReadPrim(U32, buf, pos);
    if !head.Got? then Truncated
    else
      var n := head.value.n;
      if n == 0 then Got(VText([]), head.pos)
      else if head.pos + n > |buf| then Truncated
      else if buf[head.pos + n - 1] != 0 then Malformed
      else Got(VText(buf[head.pos..head.pos + n - 1]), head.pos + n)
  }

  function ReadScalar(defs: Defs, ty: Type, buf: seq<Byte>, pos: nat): Read<Value>
    requires defs.Acyclic() && defs.Resolved(ty)
    decreases defs.Depth(ty), 0, 0
  {
    match ty
    case Primitive(p) => ReadPrim(p, buf, pos)
    case Text => ReadText(buf, pos)
    case Message(m) =>
      match ReadFields(defs, defs.messages[m], defs.rank[m], buf, pos)
      case Got(fields, p) => Got(VStruct(fields), p)
      case Truncated => Truncated
      case Malformed => Malformed
  }

  function ReadList(defs: Defs, ty: Type, n: nat, buf: seq<Byte>, pos: nat): Read<seq<Value>>
    requires defs.Acyclic() && defs.Resolved(ty)
    decreases defs.Depth(ty), 1, n
  {
    if n == 0 then Got([], pos)
    else match ReadScalar(defs, ty, buf, pos)
      case Truncated => Truncated
      case Malformed => Malformed
      case Got(v, p) =>
        match ReadList(defs, ty, n - 1, buf, p)
        case Truncated => Truncated
        case Malformed => Malformed
        case Got(vs, q) => Got([v] + vs, q)
  }

  function ReadItems(defs: Defs, ty: Type, n: nat, buf: seq<Byte>, pos: nat): Read<Value>
    requires defs.Acyclic() && defs.Resolved(ty)
    decreases defs.Depth(ty), 2, 0
  {
    if ty.Primitive? then ReadPrims(ty.prim, n, buf, pos)
    else match ReadList(defs, ty, n, buf, pos)
      case Got(vs, p) => Got(VList(vs), p)
      case Truncated => Truncated
      case Malformed => Malformed
  }

  function ReadValue(defs: Defs, ty: Type, shape: Shape, buf: seq<Byte>, pos: nat): Read<Value>
    requires defs.Acyclic() && defs.Resolved(ty)
    decreases defs.Depth(ty), 3, 0
  {
    match shape
    case Scalar => ReadScalar(defs, ty, buf, pos)
    case Fixed(n) => ReadItems(defs, ty, n, buf, pos)
    case Sequence =>
      var head := ReadPrim(U32, buf, pos);
      if !head.Got? then Truncated else ReadItems(defs, ty, head.value.n, buf, head.pos)
  }

  function ReadFields(defs: Defs, fs: seq<Field>, bound: nat, buf: seq<Byte>, pos: nat): Read<map<string, Value>>
    requires defs.Acyclic() && defs.Below(fs, bound)
    decreases bound, 4, |fs|
  {
    if fs == [] then Got(map[], pos)
    else match ReadValue(defs, fs[0].ty, fs[0].shape, buf, pos)
      case Truncated => Truncated
      case Malformed => Malformed
      case Got(v, p) =>
        match ReadFields(defs, fs[1..], bound, buf, p)
        case Truncated => Truncated
        case Malformed => Malformed
        case Got(rest, q) => Got(map[fs[0].name := v] + rest, q)
  }

  // ---------------------------------------------------------------- well-typed values

  ghost predicate TypedScalar(defs: Defs, ty: Type, v: Value)
    requires defs.Acyclic() && defs.Resolved(ty)
    decreases defs.Depth(ty), 0, 0
  {
    match ty
    case Primitive(p) => Fits(p, v)
    case Text => v.VText? && |v.utf8| + 1 < LIMIT32
    case Message(m) =>
      && v.VStruct? && v.fields.Keys == Names(defs.messages[m])
      && TypedFields(defs, defs.messages[m], defs.rank[m], v.fields)
  }

  ghost predicate TypedValue(defs: Defs, ty: Type, shape: Shape, v: Value)
    requires defs.Acyclic() && defs.Resolved(ty)
    decreases defs.Depth(ty), 3, 0
  {
    match shape
    case Scalar => TypedScalar(defs, ty, v)
    case Fixed(n) => v.VList? && |v.items| == n && forall x :: x in v.items ==> TypedScalar(defs, ty, x)
    case Sequence => v.VList? && |v.items| < LIMIT32 && forall x :: x in v.items ==> TypedScalar(defs, ty, x)
  }

  ghost predicate TypedFields(defs: Defs, fs: seq<Field>, bound: nat, m: map<string, Value>)
    requires defs.Acyclic() && defs.Below(fs, bound)
    decreases bound, 4, |fs|
  {
    forall f :: f in fs ==> f.name in m && TypedValue(defs, f.ty, f.shape, m[f.name])
  }

  // ---------------------------------------------------------------- whole messages

  const HEADER: seq<Byte> := [0, 1, 0, 0]

  function Encode(defs: Defs, name: string, m: map<string, Value>): Option<seq<Byte>>
    requires defs.Acyclic()
  {
    if name !in defs.messages then None
    else match WriteFields(defs, defs.messages[name], defs.rank[name], m, 0)
      case None => None
      case Some(body) => Some(HEADER + body)
  }

  /** `missing`: the trailing top-level fields absent from the buffer; `extra`: the bytes after the
      last field. A missing field has no value. */
  datatype Result = Result(value: map<string, Option<Value>>, missing: seq<string>, extra: int)

  datatype Decoding = Ok(result: Result) | BadHeader | UnknownType | BadText | Incomplete

  function Absent(fs: seq<Field>): map<string, Option<Value>> {
    map k | k in Names(fs) :: None
  }

  function DecodeFields(defs: Defs, fs: seq<Field>, bound: nat, body: seq<Byte>, pos: nat, tolerant: bool): Decoding
    requires defs.Acyclic() && defs.Below(fs, bound)
    decreases |fs|
  {
    if fs == [] then Ok(Result(map[], [], |body| - pos))
    else match ReadValue(defs, fs[0].ty, fs[0].shape, body, pos)
      case Malformed => BadText
      case Truncated => if tolerant then Ok(Result(Absent(fs), NameList(fs), 0)) else Incomplete
      case Got(v, p) =>
        match DecodeFields(defs, fs[1..], bound, body, p, tolerant)
        case Ok(r) => Ok(r.(value := map[fs[0].name := Some(v)] + r.value))
        case BadHeader => BadHeader
        case UnknownType => UnknownType
        case BadText => BadText
        case Incomplete => Incomplete
  }

  function Decode(defs: Defs, name: string, buf: seq<Byte>, tolerant: bool): Decoding
    requires defs.Acyclic()
  {
    if |buf| < 4 || buf[..2] != HEADER[..2] then BadHeader
    else if name !in defs.messages then UnknownType
    else DecodeFields(defs, defs.messages[name], defs.rank[name], buf[4..], 0, tolerant)
  }
}
