/** Two versions of the definitions: a message that was encoded with one and is decoded with the other, when the
    newer version appends fields to it and leaves the messages it is built from alone. */
module CdrVersions {
  import opened Common
  import opened Cdr
  import opened CdrRoundTrip
  import opened CdrEvolution

  /** Both define every message of rank below the bound, alike. */
  ghost predicate Shared(a: Defs, b: Defs, bound: nat)
    requires a.Acyclic() && b.Acyclic()
  {
    forall m :: m in a.messages && a.rank[m] < bound ==> m in b.messages && b.messages[m] == a.messages[m]
  }

  /** A type that only refers to shared messages. */
  ghost predicate Covered(a: Defs, b: Defs, ty: Type, bound: nat)
    requires a.Acyclic() && b.Acyclic()
  {
    Shared(a, b, bound) && a.Resolved(ty) && a.Depth(ty) <= bound
  }

  lemma CoveredResolves(a: Defs, b: Defs, ty: Type, bound: nat)
    requires a.Acyclic() && b.Acyclic() && Covered(a, b, ty, bound)
    ensures b.Resolved(ty)
  {
  }

  // ---------------------------------------------------------------- writing and reading alike

  lemma {:induction false} ScalarWrites(a: Defs, b: Defs, ty: Type, bound: nat, v: Value, at: nat)
    requires a.Acyclic() && b.Acyclic() && Covered(a, b, ty, bound)
    ensures b.Resolved(ty) && WriteScalar(a, ty, v, at) == WriteScalar(b, ty, v, at)
    decreases a.Depth(ty), 0, 0
  {
    if ty.Message? && v.VStruct? {
      FieldsWrite(a, b, a.messages[ty.name], a.rank[ty.name], b.rank[ty.name], bound, v.fields, at);
    }
  }

  lemma {:induction false} ListWrites(a: Defs, b: Defs, ty: Type, bound: nat, vs: seq<Value>, at: nat)
    requires a.Acyclic() && b.Acyclic() && Covered(a, b, ty, bound)
    ensures b.Resolved(ty) && WriteList(a, ty, vs, at) == WriteList(b, ty, vs, at)
    decreases a.Depth(ty), 1, |vs|
  {
    hide WriteScalar, Defs.Acyclic;
    CoveredResolves(a, b, ty, bound);
    if vs != [] {
      ScalarWrites(a, b, ty, bound, vs[0], at);
      var first := WriteScalar(a, ty, vs[0], at);
      if first.Some? { ListWrites(a, b, ty, bound, vs[1..], at + |first.value|); }
    }
  }

  lemma {:induction false} ValueWrites(a: Defs, b: Defs, ty: Type, shape: Shape, bound: nat, v: Value, at: nat)
    requires a.Acyclic() && b.Acyclic() && Covered(a, b, ty, bound)
    ensures b.Resolved(ty) && WriteValue(a, ty, shape, v, at) == WriteValue(b, ty, shape, v, at)
    decreases a.Depth(ty), 3, 0
  {
    hide WriteScalar, WriteList, WritePrims, WritePrim, Defs.Acyclic;
    ScalarWrites(a, b, ty, bound, v, at);
    if v.VList? {
      ListWrites(a, b, ty, bound, v.items, at);
      var head := WritePrim(U32, VInt(|v.items|), at);
      if head.Some? { ListWrites(a, b, ty, bound, v.items, at + |head.value|); }
    }
  }

  lemma {:induction false} FieldsWrite(a: Defs, b: Defs, fs: seq<Field>, ra: nat, rb: nat, bound: nat,
                                       m: map<string, Value>, at: nat)
    requires a.Acyclic() && b.Acyclic() && Shared(a, b, bound)
    requires a.Below(fs, ra) && b.Below(fs, rb) && ra <= bound
    ensures WriteFields(a, fs, ra, m, at) == WriteFields(b, fs, rb, m, at)
    decreases ra, 4, |fs|
  {
    hide WriteValue, Defs.Acyclic, Shared;
    if fs != [] && fs[0].name in m {
      var f := fs[0];
      ValueWrites(a, b, f.ty, f.shape, bound, m[f.name], at);
      var first := WriteValue(a, f.ty, f.shape, m[f.name], at);
      if first.Some? { FieldsWrite(a, b, fs[1..], ra, rb, bound, m, at + |first.value|); }
    }
  }

  lemma {:induction false} ScalarReads(a: Defs, b: Defs, ty: Type, bound: nat, buf: seq<Byte>, pos: nat)
    requires a.Acyclic() && b.Acyclic() && Covered(a, b, ty, bound)
    ensures b.Resolved(ty) && ReadScalar(a, ty, buf, pos) == ReadScalar(b, ty, buf, pos)
    decreases a.Depth(ty), 0, 0
  {
    if ty.Message? {
      FieldsRead(a, b, a.messages[ty.name], a.rank[ty.name], b.rank[ty.name], bound, buf, pos);
    }
  }

  lemma {:induction false} ListReads(a: Defs, b: Defs, ty: Type, bound: nat, n: nat, buf: seq<Byte>, pos: nat)
    requires a.Acyclic() && b.Acyclic() && Covered(a, b, ty, bound)
    ensures b.Resolved(ty) && ReadList(a, ty, n, buf, pos) == ReadList(b, ty, n, buf, pos)
    decreases a.Depth(ty), 1, n
  {
    hide ReadScalar, Defs.Acyclic;
    ScalarReads(a, b, ty, bound, buf, pos);
    if n > 0 {
      var first := ReadScalar(a, ty, buf, pos);
      if first.Got? { ListReads(a, b, ty, bound, n - 1, buf, first.pos); }
    }
  }

  lemma {:induction false} ItemsRead(a: Defs, b: Defs, ty: Type, bound: nat, n: nat, buf: seq<Byte>, pos: nat)
    requires a.Acyclic() && b.Acyclic() && Covered(a, b, ty, bound)
    ensures b.Resolved(ty) && ReadItems(a, ty, n, buf, pos) == ReadItems(b, ty, n, buf, pos)
    decreases a.Depth(ty), 2, 0
  {
    hide ReadList, ReadPrims, Defs.Acyclic;
    ListReads(a, b, ty, bound, n, buf, pos);
  }

  lemma {:induction false} ValueReads(a: Defs, b: Defs, ty: Type, shape: Shape, bound: nat, buf: seq<Byte>, pos: nat)
    requires a.Acyclic() && b.Acyclic() && Covered(a, b, ty, bound)
    ensures b.Resolved(ty) && ReadValue(a, ty, shape, buf, pos) == ReadValue(b, ty, shape, buf, pos)
    decreases a.Depth(ty), 3, 0
  {
    hide ReadScalar, ReadItems, Defs.Acyclic;
    match shape
    case Scalar => ScalarReads(a, b, ty, bound, buf, pos);
    case Fixed(n) => ItemsRead(a, b, ty, bound, n, buf, pos);
    case Sequence =>
      ScalarReads(a, b, ty, bound, buf, pos);
      var head := ReadPrim(U32, buf, pos);
      if head.Got? { ItemsRead(a, b, ty, bound, head.value.n, buf, head.pos); }
  }

  lemma {:induction false} FieldsRead(a: Defs, b: Defs, fs: seq<Field>, ra: nat, rb: nat, bound: nat,
                                      buf: seq<Byte>, pos: nat)
    requires a.Acyclic() && b.Acyclic() && Shared(a, b, bound)
    requires a.Below(fs, ra) && b.Below(fs, rb) && ra <= bound
    ensures ReadFields(a, fs, ra, buf, pos) == ReadFields(b, fs, rb, buf, pos)
    decreases ra, 4, |fs|
  {
    hide ReadValue, Defs.Acyclic, Shared;
    if fs != [] {
      var f := fs[0];
      ValueReads(a, b, f.ty, f.shape, bound, buf, pos);
      var first := ReadValue(a, f.ty, f.shape, buf, pos);
      if first.Got? { FieldsRead(a, b, fs[1..], ra, rb, bound, buf, first.pos); }
    }
  }

  lemma {:induction false} FieldsDecode(a: Defs, b: Defs, fs: seq<Field>, ra: nat, rb: nat,
                                        buf: seq<Byte>, pos: nat, tolerant: bool)
    requires a.Acyclic() && b.Acyclic() && Shared(a, b, ra) && a.Below(fs, ra) && b.Below(fs, rb)
    ensures DecodeFields(a, fs, ra, buf, pos, tolerant) == DecodeFields(b, fs, rb, buf, pos, tolerant)
    decreases |fs|
  {
    hide ReadValue, Defs.Acyclic, Shared;
    if fs != [] {
      var f := fs[0];
      ValueReads(a, b, f.ty, f.shape, ra, buf, pos);
      var first := ReadValue(a, f.ty, f.shape, buf, pos);
      if first.Got? { FieldsDecode(a, b, fs[1..], ra, rb, buf, first.pos, tolerant); }
    }
  }

  lemma {:induction false} ScalarTyped(a: Defs, b: Defs, ty: Type, bound: nat, v: Value)
    requires a.Acyclic() && b.Acyclic() && Covered(a, b, ty, bound)
    ensures b.Resolved(ty) && (TypedScalar(a, ty, v) <==> TypedScalar(b, ty, v))
    decreases a.Depth(ty), 0
  {
    if ty.Message? && v.VStruct? {
      FieldsTyped(a, b, a.messages[ty.name], a.rank[ty.name], b.rank[ty.name], bound, v.fields);
    }
  }

  lemma {:induction false} FieldsTyped(a: Defs, b: Defs, fs: seq<Field>, ra: nat, rb: nat, bound: nat,
                                       m: map<string, Value>)
    requires a.Acyclic() && b.Acyclic() && Shared(a, b, bound)
    requires a.Below(fs, ra) && b.Below(fs, rb) && ra <= bound
    ensures TypedFields(a, fs, ra, m) <==> TypedFields(b, fs, rb, m)
    decreases ra, 2
  {
    hide TypedValue, Defs.Acyclic, Shared;
    forall f | f in fs && f.name in m
      ensures TypedValue(a, f.ty, f.shape, m[f.name]) <==> TypedValue(b, f.ty, f.shape, m[f.name])
    {
      ValueTyped(a, b, f.ty, f.shape, bound, m[f.name]);
    }
  }

  lemma {:induction false} ValueTyped(a: Defs, b: Defs, ty: Type, shape: Shape, bound: nat, v: Value)
    requires a.Acyclic() && b.Acyclic() && Covered(a, b, ty, bound)
    ensures b.Resolved(ty) && (TypedValue(a, ty, shape, v) <==> TypedValue(b, ty, shape, v))
    decreases a.Depth(ty), 1
  {
    hide TypedScalar, Defs.Acyclic, Shared;
    ScalarTyped(a, b, ty, bound, v);
    if v.VList? {
      forall x | x in v.items
        ensures TypedScalar(a, ty, x) <==> TypedScalar(b, ty, x)
      {
        ScalarTyped(a, b, ty, bound, x);
      }
    }
  }

  // ---------------------------------------------------------------- versions of a message

  /** The newer definitions append fields to one message after its first `k`, and leave the others alone. */
  ghost predicate Appends(older: Defs, newer: Defs, name: string, k: nat) {
    && older.Acyclic() && newer.Acyclic()
    && name in older.messages && name in newer.messages && k <= |newer.messages[name]|
    && older.messages[name] == newer.messages[name][..k]
    && forall m :: m in older.messages && m != name ==> m in newer.messages && newer.messages[m] == older.messages[m]
  }

  /** The first k fields mean the same in both versions. */
  lemma VersionsAgree(older: Defs, newer: Defs, name: string, k: nat)
    requires Appends(older, newer, name, k)
    ensures name in older.rank && name in newer.rank && Shared(older, newer, older.rank[name])
    ensures older.Below(older.messages[name], older.rank[name])
    ensures newer.Below(older.messages[name], newer.rank[name])
    ensures newer.Below(newer.messages[name], newer.rank[name]) && Distinct(newer.messages[name])
  {
    assert forall f :: f in older.messages[name] ==> f in newer.messages[name];
  }

  /** A message encoded with the older definitions and decoded with the newer ones: its k fields have their values, and
      from the first appended field that occupies a byte on the fields are missing. Exactly the appended names are
      missing if and only if nothing was appended or the first appended field occupies a byte. */
  lemma OlderMessage(older: Defs, newer: Defs, name: string, k: nat, m: map<string, Value>)
    requires Appends(older, newer, name, k) && WellTyped(older, name, m)
    ensures Encode(older, name, m).Some?
    ensures newer.Below(newer.messages[name][k..], newer.rank[name])
    ensures var fs, bound := newer.messages[name], newer.rank[name];
            var d := Decode(newer, name, Encode(older, name, m).value, true);
            && Older(d, fs, k, k + FirstOccupying(newer, fs[k..], bound), m)
            && (d.result.missing == NameList(fs[k..]) <==> k == |fs| || OccupiesField(newer, fs[k], bound))
  {
    hide WriteFields, DecodeFields, TypedFields, FirstOccupying, OccupiesField, Older, Defs.Acyclic;
    VersionsAgree(older, newer, name, k);
    var fs, known, bound := newer.messages[name], older.messages[name], newer.rank[name];
    assert known == fs[..k];
    FieldsWrite(older, newer, known, older.rank[name], bound, older.rank[name], m, 0);
    FieldsTyped(older, newer, known, older.rank[name], bound, older.rank[name], m);
    EncodeShape(older, name, m);
    var body := Body(newer, fs[..k], bound, m, 0);
    var buf := HEADER + body;
    assert buf[4..] == body && buf[..2] == HEADER[..2];
    assert forall f :: f in fs[k..] ==> f in fs;
    OlderBytes(newer, fs, k, bound, m, 0, body);
    OlderBytesExact(newer, fs, k, bound, m);
  }

  /** A message encoded with the newer definitions and decoded with the older ones: the k known fields have their
      values, nothing is missing, and the extra bytes are those that the appended fields take. */
  lemma NewerMessage(older: Defs, newer: Defs, name: string, k: nat, m: map<string, Value>)
    requires Appends(older, newer, name, k) && WellTyped(newer, name, m)
    ensures Encode(newer, name, m).Some? && Encode(older, name, m).Some?
    ensures var full, known := Encode(newer, name, m).value, Encode(older, name, m).value;
            && known <= full
            && Decode(older, name, full, true)
               == Ok(Result(Present(m, older.messages[name], k), [], |full| - |known|))
  {
    hide WriteFields, DecodeFields, TypedFields, Present, Defs.Acyclic;
    VersionsAgree(older, newer, name, k);
    var fs, known, bound := newer.messages[name], older.messages[name], newer.rank[name];
    assert known == fs[..k];
    EncodeShape(newer, name, m);
    NewerBytes(newer, fs, k, bound, m);
    FieldsWrite(older, newer, known, older.rank[name], bound, older.rank[name], m, 0);
    KnownWritten(newer, fs, k, bound, m);
    var full := Body(newer, fs, bound, m, 0);
    var buf := HEADER + full;
    assert buf[4..] == full && buf[..2] == HEADER[..2];
    FieldsDecode(older, newer, known, older.rank[name], bound, full, 0, true);
  }

  lemma KnownWritten(defs: Defs, fs: seq<Field>, k: nat, bound: nat, m: map<string, Value>)
    requires defs.Acyclic() && defs.Below(fs, bound) && TypedFields(defs, fs, bound, m) && k <= |fs|
    ensures defs.Below(fs[..k], bound) && WriteFields(defs, fs[..k], bound, m, 0).Some?
  {
    assert forall f :: f in fs[..k] ==> f in fs;
    assert TypedFields(defs, fs[..k], bound, m);
    FieldsReadBack(defs, fs[..k], bound, m, 0, []);
  }

  // ---------------------------------------------------------------- an append that is not noticed

  const CODE := Field("code", Primitive(Unsigned(W1)), Scalar)
  const MARK := Field("mark", Message("Empty"), Scalar)

  function Status(fs: seq<Field>): Defs {
    Defs(map["Empty" := [], "Status" := fs], map["Empty" := 0, "Status" := 1])
  }

  lemma StatusAcyclic(fs: seq<Field>)
    requires fs == [CODE] || fs == [CODE, MARK]
    ensures Status(fs).Acyclic()
    ensures Status(fs).messages["Status"] == fs && Status(fs).messages["Empty"] == [] && Status(fs).rank["Status"] == 1
  {
    var d := Status(fs);
    assert d.messages.Keys == {"Empty", "Status"} && d.rank.Keys == {"Empty", "Status"};
    assert CODE.name != MARK.name by { assert "code"[0] != "mark"[0]; }
    assert d.Below([], 0) && Distinct([]);
    assert d.Below(fs, 1) && Distinct(fs);
  }

  lemma StatusTyped()
    ensures Status([CODE]).Acyclic() && WellTyped(Status([CODE]), "Status", map["code" := VInt(7)])
  {
    StatusAcyclic([CODE]);
    hide Defs.Acyclic, Status;
    var d, m := Status([CODE]), map["code" := VInt(7)];
    assert m.Keys == {"code"} && Names([CODE]) == {"code"};
    assert TypedValue(d, CODE.ty, CODE.shape, m["code"]);
    assert TypedFields(d, [CODE], 1, m);
  }

  /** An appended field of an empty message type occupies no byte: older bytes decode as if it had been written, and its
      name is not listed as missing. */
  lemma EmptyFieldNotMissing()
    ensures Appends(Status([CODE]), Status([CODE, MARK]), "Status", 1)
    ensures var older, newer, m := Status([CODE]), Status([CODE, MARK]), map["code" := VInt(7)];
            && WellTyped(older, "Status", m) && Encode(older, "Status", m).Some?
            && var d := Decode(newer, "Status", Encode(older, "Status", m).value, true);
               d.Ok? && d.result.missing == [] && NameList(newer.messages["Status"][1..]) == ["mark"]
  {
    var older, newer, fs := Status([CODE]), Status([CODE, MARK]), [CODE, MARK];
    StatusAcyclic([CODE]);
    StatusAcyclic(fs);
    StatusTyped();
    MarkIsEmpty();
    hide Defs.Acyclic, WriteFields, DecodeFields, WellTyped, OccupiesField, Encode, Decode, FirstOccupying;
    StatusAppends();
    hide Appends;
    assert fs[..1] == [CODE] && fs[1..] == [MARK] && fs[2..] == [];
    OlderMessage(older, newer, "Status", 1, map["code" := VInt(7)]);
  }

  lemma StatusAppends()
    ensures Appends(Status([CODE]), Status([CODE, MARK]), "Status", 1)
  {
    StatusAcyclic([CODE]);
    StatusAcyclic([CODE, MARK]);
    hide Defs.Acyclic;
    assert [CODE, MARK][..1] == [CODE];
  }

  lemma MarkIsEmpty()
    ensures var newer := Status([CODE, MARK]);
            && newer.Acyclic() && newer.Below([MARK], 1)
            && !OccupiesField(newer, MARK, 1) && FirstOccupying(newer, [MARK], 1) == 1
  {
    StatusAcyclic([CODE, MARK]);
    assert [MARK][1..] == [];
  }
}
