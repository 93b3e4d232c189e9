/** Appending to a nested message: the tolerance of the decoder is for top-level fields only. Where the nested message
    ends the encoding, older bytes still decode exactly when no appended field occupies a byte; elsewhere the appended
    fields are read from whatever follows. */
module CdrNested {
  import opened Common
  import opened Cdr
  import opened CdrRoundTrip
  import opened CdrEvolution
  import opened CdrVersions

  /** The newer definitions append fields to message `inner`, after its first `k`, and leave the others alone. The last
      field of message `name` is an `inner`; the fields before it rank below, so they do not contain one. */
  ghost predicate AppendsWithin(older: Defs, newer: Defs, name: string, inner: string, k: nat) {
    && Appends(older, newer, inner, k) && name in older.messages && name != inner
    && var fs := older.messages[name];
       && fs != [] && fs[|fs| - 1].ty == Message(inner) && fs[|fs| - 1].shape == Scalar
       && older.Below(fs[..|fs| - 1], older.rank[inner])
  }

  /** Some appended field occupies a byte. */
  ghost predicate Occupied(defs: Defs, g: seq<Field>, bound: nat)
    requires defs.Acyclic() && defs.Below(g, bound)
  {
    exists f :: f in g && OccupiesField(defs, f, bound)
  }

  /** `x` holds the values of `m` under the names of `fs`. */
  ghost predicate Keeps(x: map<string, Value>, m: map<string, Value>, fs: seq<Field>) {
    forall f :: f in fs ==> f.name in m && f.name in x && x[f.name] == m[f.name]
  }

  lemma KeepsStep(x: map<string, Value>, m: map<string, Value>, fs: seq<Field>, g: seq<Field>, rest: map<string, Value>)
    requires fs != [] && Distinct(fs + g) && fs[0].name in m && Keeps(rest, m, fs[1..])
    requires x == map[fs[0].name := m[fs[0].name]] + rest && rest.Keys == Names(fs[1..] + g)
    ensures Keeps(x, m, fs) && x.Keys == Names(fs + g)
  {
    FirstName(fs, g);
    hide Distinct, Names;
    forall f | f in fs
      ensures f.name in m && f.name in x && x[f.name] == m[f.name]
    {
      if f != fs[0] { assert f in fs[1..]; }
    }
  }

  /** The first name is none of the others. */
  lemma FirstName(fs: seq<Field>, g: seq<Field>)
    requires fs != [] && Distinct(fs + g)
    ensures Names(fs + g) == {fs[0].name} + Names(fs[1..] + g)
    ensures fs[0].name !in Names(fs[1..] + g)
    ensures forall f :: f in fs[1..] ==> f.name != fs[0].name
  {
    var all, tail := fs + g, fs[1..] + g;
    assert all[0] == fs[0] && all[1..] == tail;
    forall f | f in tail
      ensures f.name != fs[0].name
    {
      var i :| 0 <= i < |tail| && tail[i] == f;
      assert all[i + 1] == f;
    }
    assert forall f :: f in fs[1..] ==> f in tail;
  }

  /** Reading a nested message whose appended fields were not written, at the end of the buffer. */
  lemma {:induction false} NestedReads(older: Defs, newer: Defs, fs: seq<Field>, g: seq<Field>, ra: nat, rb: nat,
                                       m: map<string, Value>, at: nat, buf: seq<Byte>)
    requires older.Acyclic() && newer.Acyclic() && Shared(older, newer, ra) && older.Below(fs, ra)
    requires newer.Below(fs + g, rb) && newer.Below(g, rb) && Distinct(fs + g) && TypedFields(older, fs, ra, m)
    requires Agrees(buf, at, Body(older, fs, ra, m, at)) && |buf| == at + |Body(older, fs, ra, m, at)|
    ensures var r := ReadFields(newer, fs + g, rb, buf, at);
            if Occupied(newer, g, rb) then r.Truncated?
            else r.Got? && r.pos == |buf| && Keeps(r.value, m, fs) && r.value.Keys == Names(fs + g)
    decreases |fs|
  {
    hide Agrees, WriteValue, ReadValue, TypedFields, TypedValue, Body, Defs.Acyclic, Defs.Below, Shared, Occupied;
    if fs == [] {
      assert fs + g == g;
      BodyNone(older, ra, m, at);
      EmptyRead(newer, g, rb, buf);
    } else {
      var f, all := fs[0], fs + g;
      assert all[0] == f && all[1..] == fs[1..] + g;
      TailsFit(older, newer, fs, g, ra, rb);
      OlderFirst(older, fs, ra, m, at, buf);
      ValueReads(older, newer, f.ty, f.shape, ra, buf, at);
      var first := WriteValue(older, f.ty, f.shape, m[f.name], at).value;
      NestedReads(older, newer, fs[1..], g, ra, rb, m, at + |first|, buf);
      var r, rest := ReadFields(newer, all, rb, buf, at), ReadFields(newer, all[1..], rb, buf, at + |first|);
      if rest.Got? { KeepsStep(r.value, m, fs, g, rest.value); }
    }
  }

  lemma TailsFit(older: Defs, newer: Defs, fs: seq<Field>, g: seq<Field>, ra: nat, rb: nat)
    requires older.Acyclic() && newer.Acyclic() && Shared(older, newer, ra)
    requires fs != [] && older.Below(fs, ra) && newer.Below(fs + g, rb) && Distinct(fs + g)
    ensures older.Below(fs[1..], ra) && newer.Below(fs[1..] + g, rb) && Distinct(fs[1..] + g)
    ensures Covered(older, newer, fs[0].ty, ra)
  {
    var all := fs + g;
    assert all[1..] == fs[1..] + g;
    assert forall i :: 0 <= i < |all| - 1 ==> all[1..][i] == all[i + 1];
    assert fs[0] in fs;
  }

  /** Fields that occupy no byte read as something at the end of the buffer; the others truncate. */
  lemma EmptyRead(defs: Defs, g: seq<Field>, bound: nat, buf: seq<Byte>)
    requires defs.Acyclic() && defs.Below(g, bound)
    ensures var r := ReadFields(defs, g, bound, buf, |buf|);
            if Occupied(defs, g, bound) then r.Truncated?
            else r.Got? && r.pos == |buf| && r.value.Keys == Names(g)
  {
    FieldsAtEnd(defs, g, bound, buf);
    ReadNames(defs, g, bound, buf, |buf|);
  }

  lemma {:induction false} ReadNames(defs: Defs, fs: seq<Field>, bound: nat, buf: seq<Byte>, pos: nat)
    requires defs.Acyclic() && defs.Below(fs, bound)
    ensures ReadFields(defs, fs, bound, buf, pos).Got? ==> ReadFields(defs, fs, bound, buf, pos).value.Keys == Names(fs)
    decreases |fs|
  {
    hide ReadValue;
    if fs != [] {
      var first := ReadValue(defs, fs[0].ty, fs[0].shape, buf, pos);
      if first.Got? { ReadNames(defs, fs[1..], bound, buf, first.pos); }
      assert Names(fs) == {fs[0].name} + Names(fs[1..]);
    }
  }

  // ---------------------------------------------------------------- the message around it

  /** The value of a field is kept: the nested one with its first fields and all the newer names, any other as it is. */
  ghost predicate KeptValue(v: Option<Value>, was: Value, nested: bool, fs: seq<Field>, all: seq<Field>) {
    if nested then
      && v.Some? && v.value.VStruct? && was.VStruct?
      && Keeps(v.value.fields, was.fields, fs) && v.value.fields.Keys == Names(all)
    else v == Some(was)
  }

  /** Everything decodes, with nothing missing and nothing left over. */
  ghost predicate Adopted(d: Decoding, m: map<string, Value>, fs: seq<Field>, inner: seq<Field>, all: seq<Field>) {
    && d.Ok? && d.result.missing == [] && d.result.extra == 0 && d.result.value.Keys == Names(fs)
    && forall i: nat :: i < |fs| ==>
         fs[i].name in m && fs[i].name in d.result.value
         && KeptValue(d.result.value[fs[i].name], m[fs[i].name], i == |fs| - 1, inner, all)
  }

  lemma AdoptedStep(d: Decoding, m: map<string, Value>, fs: seq<Field>, inner: seq<Field>, all: seq<Field>)
    requires |fs| > 1 && Distinct(fs) && fs[0].name in m && Adopted(d, m, fs[1..], inner, all)
    ensures var value := map[fs[0].name := Some(m[fs[0].name])] + d.result.value;
            Adopted(Ok(d.result.(value := value)), m, fs, inner, all)
  {
    hide KeptValue;
    var tail, value := fs[1..], map[fs[0].name := Some(m[fs[0].name])] + d.result.value;
    assert Names(fs) == {fs[0].name} + Names(tail);
    forall i: nat | i < |fs|
      ensures fs[i].name in m && fs[i].name in value
      ensures KeptValue(value[fs[i].name], m[fs[i].name], i == |fs| - 1, inner, all)
    {
      if i == 0 {
        PlainKept(m[fs[0].name], inner, all);
      } else {
        assert tail[i - 1] == fs[i];
        assert KeptValue(d.result.value[tail[i - 1].name], m[tail[i - 1].name], i - 1 == |tail| - 1, inner, all);
      }
    }
  }

  lemma PlainKept(v: Value, inner: seq<Field>, all: seq<Field>)
    ensures KeptValue(Some(v), v, false, inner, all)
  {
  }

  /** What decoding must come to. */
  ghost predicate NestedOutcome(d: Decoding, m: map<string, Value>, fs: seq<Field>, inner: seq<Field>, all: seq<Field>,
                                occupied: bool)
    requires fs != []
  {
    if occupied then CutOutcome(d, m, fs, |fs| - 1, 0) else Adopted(d, m, fs, inner, all)
  }

  lemma OutcomeStep(d: Decoding, m: map<string, Value>, fs: seq<Field>, inner: seq<Field>, all: seq<Field>,
                    occupied: bool)
    requires |fs| > 1 && Distinct(fs) && fs[0].name in m && NestedOutcome(d, m, fs[1..], inner, all, occupied)
    ensures d.Ok?
    ensures var value := map[fs[0].name := Some(m[fs[0].name])] + d.result.value;
            NestedOutcome(Ok(d.result.(value := value)), m, fs, inner, all, occupied)
  {
    hide Present, NameList, Names;
    if occupied {
      CutIsOk(d, m, fs[1..], |fs| - 2, 0);
      CutStep(d, m, fs, |fs| - 2, 0);
    } else {
      AdoptedStep(d, m, fs, inner, all);
    }
  }

  /** The nested message by itself. */
  lemma LastDecodes(older: Defs, newer: Defs, f: Field, inner: string, k: nat, ra: nat, rb: nat,
                    m: map<string, Value>, at: nat, buf: seq<Byte>)
    requires Appends(older, newer, inner, k) && f.ty == Message(inner) && f.shape == Scalar
    requires older.Below([f], ra) && newer.Below([f], rb) && TypedFields(older, [f], ra, m)
    requires Agrees(buf, at, Body(older, [f], ra, m, at)) && |buf| == at + |Body(older, [f], ra, m, at)|
    requires newer.Below(newer.messages[inner][k..], newer.rank[inner])
    ensures NestedOutcome(DecodeFields(newer, [f], rb, buf, at, true), m, [f], older.messages[inner],
                          newer.messages[inner], Occupied(newer, newer.messages[inner][k..], newer.rank[inner]))
  {
    hide Agrees, Defs.Acyclic, ReadFields, Occupied, Keeps, Body, WriteFields, TypedFields, ReadValue;
    var fs, all, ri := older.messages[inner], newer.messages[inner], older.rank[inner];
    var g := all[k..];
    assert fs + g == all;
    VersionsAgree(older, newer, inner, k);
    assert [f][0] == f && [f][1..] == [] && f in [f];
    NestedBody(older, f, inner, ra, m, at);
    var v := m[f.name].fields;
    NestedReads(older, newer, fs, g, ri, newer.rank[inner], v, at, buf);
    CutNow(m, [f]);
    DecodeLast(newer, [f], inner, rb, buf, at);
    hide DecodeFields, Adopted, CutOutcome, Absent, NameList;
    var r := ReadFields(newer, all, newer.rank[inner], buf, at);
    if r.Got? { OneAdopted(m, f, r.value, fs, all, |buf| - r.pos); }
  }

  lemma DecodeLast(defs: Defs, fs: seq<Field>, inner: string, bound: nat, buf: seq<Byte>, at: nat)
    requires defs.Acyclic() && inner in defs.messages && defs.Below(fs, bound)
    requires |fs| == 1 && fs[0].ty == Message(inner) && fs[0].shape == Scalar
    ensures var r := ReadFields(defs, defs.messages[inner], defs.rank[inner], buf, at);
            var d := DecodeFields(defs, fs, bound, buf, at, true);
            && (r.Got? ==> d == Ok(Result(map[fs[0].name := Some(VStruct(r.value))] + map[], [], |buf| - r.pos)))
            && (r.Truncated? ==> d == Ok(Result(Absent(fs), NameList(fs), 0)))
  {
    hide ReadFields, Absent, NameList;
    var v := ReadValue(defs, fs[0].ty, fs[0].shape, buf, at);
    assert v == ReadScalar(defs, fs[0].ty, buf, at);
    if v.Got? { assert DecodeFields(defs, fs[1..], bound, buf, v.pos, true) == Ok(Result(map[], [], |buf| - v.pos)); }
  }

  lemma OneAdopted(m: map<string, Value>, f: Field, x: map<string, Value>, fs: seq<Field>, all: seq<Field>, extra: int)
    requires f.name in m && m[f.name].VStruct? && Keeps(x, m[f.name].fields, fs) && x.Keys == Names(all) && extra == 0
    ensures Adopted(Ok(Result(map[f.name := Some(VStruct(x))] + map[], [], extra)), m, [f], fs, all)
  {
    assert Names([f]) == {f.name};
  }

  /** The bytes of a nested message are those of its fields. */
  lemma NestedBody(defs: Defs, f: Field, inner: string, bound: nat, m: map<string, Value>, at: nat)
    requires defs.Acyclic() && inner in defs.messages && f.ty == Message(inner) && f.shape == Scalar
    requires defs.Below([f], bound) && TypedFields(defs, [f], bound, m)
    ensures f.name in m && m[f.name].VStruct?
    ensures TypedFields(defs, defs.messages[inner], defs.rank[inner], m[f.name].fields)
    ensures Body(defs, [f], bound, m, at) == Body(defs, defs.messages[inner], defs.rank[inner], m[f.name].fields, at)
  {
    hide WriteFields;
    assert f in [f] && [f][1..] == [];
    BodyStep(defs, [f], bound, m, at);
    var w := WriteValue(defs, f.ty, f.shape, m[f.name], at);
    BodyNone(defs, bound, m, at + |w.value|);
    assert w.value + [] == w.value;
    assert w == WriteFields(defs, defs.messages[inner], defs.rank[inner], m[f.name].fields, at);
  }

  /** A message encoded from position `at` on, ending with the nested one. */
  ghost predicate Encoded(older: Defs, newer: Defs, fs: seq<Field>, inner: string, k: nat, ra: nat, rb: nat,
                          m: map<string, Value>, at: nat, buf: seq<Byte>)
  {
    && Appends(older, newer, inner, k) && fs != [] && Distinct(fs)
    && fs[|fs| - 1].ty == Message(inner) && fs[|fs| - 1].shape == Scalar
    && older.Below(fs, ra) && newer.Below(fs, rb) && older.Below(fs[..|fs| - 1], older.rank[inner])
    && TypedFields(older, fs, ra, m)
    && Agrees(buf, at, Body(older, fs, ra, m, at)) && |buf| == at + |Body(older, fs, ra, m, at)|
    && newer.Below(newer.messages[inner][k..], newer.rank[inner])
  }

  /** It decodes as it must. */
  ghost predicate Decodes(older: Defs, newer: Defs, fs: seq<Field>, inner: string, k: nat, ra: nat, rb: nat,
                          m: map<string, Value>, at: nat, buf: seq<Byte>)
    requires Encoded(older, newer, fs, inner, k, ra, rb, m, at, buf)
  {
    NestedOutcome(DecodeFields(newer, fs, rb, buf, at, true), m, fs, older.messages[inner], newer.messages[inner],
                  Occupied(newer, newer.messages[inner][k..], newer.rank[inner]))
  }

  /** The first of several fields is read and the others follow it. */
  lemma FirstRead(older: Defs, newer: Defs, fs: seq<Field>, inner: string, k: nat, ra: nat, rb: nat,
                  m: map<string, Value>, at: nat, buf: seq<Byte>) returns (next: nat)
    requires Encoded(older, newer, fs, inner, k, ra, rb, m, at, buf) && |fs| > 1
    ensures fs[0].name in m && newer.Resolved(fs[0].ty)
    ensures ReadValue(newer, fs[0].ty, fs[0].shape, buf, at) == Got(m[fs[0].name], next)
    ensures Encoded(older, newer, fs[1..], inner, k, ra, rb, m, next, buf)
  {
    hide Agrees, WriteValue, ReadValue, TypedValue, TypedFields, Body, Appends, Defs.Acyclic, Shared, Distinct,
      Defs.Below;
    var f := fs[0];
    FrontFits(older, newer, fs, inner, k, ra, rb);
    OlderFirst(older, fs, ra, m, at, buf);
    ValueReads(older, newer, f.ty, f.shape, older.rank[inner], buf, at);
    next := at + |WriteValue(older, f.ty, f.shape, m[f.name], at).value|;
  }

  lemma MoreDecodes(older: Defs, newer: Defs, fs: seq<Field>, inner: string, k: nat, ra: nat, rb: nat,
                    m: map<string, Value>, at: nat, buf: seq<Byte>, next: nat)
    requires Encoded(older, newer, fs, inner, k, ra, rb, m, at, buf) && |fs| > 1
    requires Encoded(older, newer, fs[1..], inner, k, ra, rb, m, next, buf)
    requires Decodes(older, newer, fs[1..], inner, k, ra, rb, m, next, buf)
    requires fs[0].name in m && newer.Resolved(fs[0].ty)
    requires ReadValue(newer, fs[0].ty, fs[0].shape, buf, at) == Got(m[fs[0].name], next)
    ensures Decodes(older, newer, fs, inner, k, ra, rb, m, at, buf)
  {
    var occupied := Occupied(newer, newer.messages[inner][k..], newer.rank[inner]);
    hide Agrees, ReadValue, TypedFields, Body, DecodeFields, NestedOutcome, Occupied, Defs.Acyclic, Distinct,
      Defs.Below;
    var d := DecodeFields(newer, fs[1..], rb, buf, next, true);
    OutcomeStep(d, m, fs, older.messages[inner], newer.messages[inner], occupied);
    DecodeGot(newer, fs, rb, buf, at, m[fs[0].name], next);
  }

  lemma {:induction false} NestedDecodes(older: Defs, newer: Defs, fs: seq<Field>, inner: string, k: nat, ra: nat,
                                         rb: nat, m: map<string, Value>, at: nat, buf: seq<Byte>)
    requires Encoded(older, newer, fs, inner, k, ra, rb, m, at, buf)
    ensures Decodes(older, newer, fs, inner, k, ra, rb, m, at, buf)
    decreases |fs|
  {
    if |fs| <= 1 {
      hide Agrees, TypedFields, Body, DecodeFields, NestedOutcome, Occupied, Defs.Acyclic, Distinct, Defs.Below;
      assert fs == [fs[0]];
      LastDecodes(older, newer, fs[0], inner, k, ra, rb, m, at, buf);
    } else {
      hide Encoded, Decodes, ReadValue;
      var next := FirstRead(older, newer, fs, inner, k, ra, rb, m, at, buf);
      NestedDecodes(older, newer, fs[1..], inner, k, ra, rb, m, next, buf);
      MoreDecodes(older, newer, fs, inner, k, ra, rb, m, at, buf, next);
    }
  }

  lemma FrontFits(older: Defs, newer: Defs, fs: seq<Field>, inner: string, k: nat, ra: nat, rb: nat)
    requires Appends(older, newer, inner, k) && |fs| > 1 && Distinct(fs)
    requires older.Below(fs, ra) && newer.Below(fs, rb) && older.Below(fs[..|fs| - 1], older.rank[inner])
    ensures var tail := fs[1..];
            && tail[|tail| - 1] == fs[|fs| - 1] && Distinct(tail)
            && older.Below(tail, ra) && newer.Below(tail, rb) && older.Below(tail[..|tail| - 1], older.rank[inner])
    ensures older.Acyclic() && newer.Acyclic() && inner in older.rank
    ensures Covered(older, newer, fs[0].ty, older.rank[inner])
  {
    VersionsAgree(older, newer, inner, k);
    hide Defs.Acyclic;
    var tail, front := fs[1..], fs[..|fs| - 1];
    var rest := tail[..|tail| - 1];
    assert rest == front[1..] && front[0] == fs[0];
    assert forall f :: f in rest ==> f in front;
  }

  /** A message whose last field is a nested message with fields appended, encoded before the append and decoded after
      it: nothing is missing, and every written value is there, if and only if no appended field occupies a byte;
      otherwise the whole nested message, although it was written, is missing. */
  lemma NestedAppend(older: Defs, newer: Defs, name: string, inner: string, k: nat, m: map<string, Value>)
    requires AppendsWithin(older, newer, name, inner, k) && WellTyped(older, name, m)
    ensures Encode(older, name, m).Some? && newer.Below(newer.messages[inner][k..], newer.rank[inner])
    ensures var fs := older.messages[name];
            var d := Decode(newer, name, Encode(older, name, m).value, true);
            var occupied := Occupied(newer, newer.messages[inner][k..], newer.rank[inner]);
            && NestedOutcome(d, m, fs, older.messages[inner], newer.messages[inner], occupied)
            && d.Ok? && (d.result.missing == [] <==> !occupied)
            && (occupied ==> d.result.missing == [fs[|fs| - 1].name])
  {
    hide DecodeFields, WriteFields, TypedFields, Adopted, Occupied, Present;
    var fs := older.messages[name];
    var g := newer.messages[inner][k..];
    assert forall f :: f in g ==> f in newer.messages[inner];
    EncodeShape(older, name, m);
    var body := Body(older, fs, older.rank[name], m, 0);
    var buf := HEADER + body;
    assert buf[4..] == body && buf[..2] == HEADER[..2];
    NestedDecodes(older, newer, fs, inner, k, older.rank[name], newer.rank[name], m, 0, body);
    var d := Decode(newer, name, buf, true);
    OutcomeMissing(d, m, fs, older.messages[inner], newer.messages[inner], Occupied(newer, g, newer.rank[inner]));
  }

  lemma OutcomeMissing(d: Decoding, m: map<string, Value>, fs: seq<Field>, inner: seq<Field>, all: seq<Field>,
                       occupied: bool)
    requires fs != [] && NestedOutcome(d, m, fs, inner, all, occupied)
    ensures d.Ok? && d.result.missing == if occupied then [fs[|fs| - 1].name] else []
  {
    var last := fs[|fs| - 1..];
    assert last == [fs[|fs| - 1]];
  }

  // ---------------------------------------------------------------- a nested message that is not last

  const OCTET: Prim := Unsigned(W1)

  function Octet(name: string): Field { Field(name, Primitive(OCTET), Scalar) }

  const INNER := Field("inner", Message("Inner"), Scalar)

  /** A message with an inner one, followed by other fields. */
  function Around(inner: seq<Field>, rest: seq<Field>): Defs {
    Defs(map["Inner" := inner, "Outer" := [INNER] + rest], map["Inner" := 0, "Outer" := 1])
  }

  ghost predicate Flat(fs: seq<Field>) { forall f :: f in fs ==> f.ty.Primitive? }

  lemma AroundAcyclic(inner: seq<Field>, rest: seq<Field>)
    requires Flat(inner) && Flat(rest) && Distinct(inner) && Distinct([INNER] + rest)
    ensures var d := Around(inner, rest);
            && d.Acyclic() && d.messages["Inner"] == inner && d.messages["Outer"] == [INNER] + rest
            && d.rank["Inner"] == 0 && d.rank["Outer"] == 1 && d.Below(inner, 0) && d.Below([INNER] + rest, 1)
  {
    var d := Around(inner, rest);
    assert d.messages.Keys == {"Inner", "Outer"} && d.rank.Keys == {"Inner", "Outer"};
  }

  lemma OctetRead(buf: seq<Byte>, pos: nat)
    ensures ReadPrim(OCTET, buf, pos) == if pos < |buf| then Got(VInt(buf[pos]), pos + 1) else Truncated
  {
    assert Pad(pos, 1) == 0;
    if pos < |buf| {
      var bs := buf[pos..pos + 1];
      assert bs[0] == buf[pos] && bs[1..] == [];
      assert FromLittleEndian(bs) == bs[0] + 256 * FromLittleEndian(bs[1..]);
    }
  }

  lemma OctetWritten(n: Byte, at: nat)
    ensures WritePrim(OCTET, VInt(n), at) == Some([n])
  {
    assert Zeros(0) + LittleEndian(n, 1) == [n];
  }

  /** One written field in front of the others. */
  lemma WriteFirst(defs: Defs, fs: seq<Field>, bound: nat, m: map<string, Value>, at: nat, first: seq<Byte>,
                   rest: seq<Byte>)
    requires defs.Acyclic() && defs.Below(fs, bound) && fs != [] && fs[0].name in m && defs.Below(fs[1..], bound)
    requires WriteValue(defs, fs[0].ty, fs[0].shape, m[fs[0].name], at) == Some(first)
    requires WriteFields(defs, fs[1..], bound, m, at + |first|) == Some(rest)
    ensures WriteFields(defs, fs, bound, m, at) == Some(first + rest)
  {
    hide WriteValue, Defs.Acyclic;
  }

  lemma WriteOctet(defs: Defs, name: string, bound: nat, m: map<string, Value>, at: nat, n: Byte)
    requires defs.Acyclic() && defs.Below([Octet(name)], bound) && name in m && m[name] == VInt(n)
    ensures WriteFields(defs, [Octet(name)], bound, m, at) == Some([n])
  {
    hide Defs.Acyclic, WritePrim;
    OctetWritten(n, at);
    var fs := [Octet(name)];
    assert fs[1..] == [] && [n] + [] == [n];
    WriteFirst(defs, fs, bound, m, at, [n], []);
  }

  lemma WriteOctets(defs: Defs, a: string, b: string, bound: nat, m: map<string, Value>, at: nat, x: Byte, y: Byte)
    requires defs.Acyclic() && defs.Below([Octet(a), Octet(b)], bound) && defs.Below([Octet(b)], bound)
    requires a in m && b in m && m[a] == VInt(x) && m[b] == VInt(y)
    ensures WriteFields(defs, [Octet(a), Octet(b)], bound, m, at) == Some([x, y])
  {
    hide Defs.Acyclic, WritePrim;
    OctetWritten(x, at);
    WriteOctet(defs, b, bound, m, at + 1, y);
    var fs := [Octet(a), Octet(b)];
    assert fs[1..] == [Octet(b)] && [x] + [y] == [x, y];
    WriteFirst(defs, fs, bound, m, at, [x], [y]);
  }

  const TAIL: seq<Field> := [Octet("x"), Octet("y")]
  const BEFORE: Defs := Around([Octet("a")], TAIL)
  const AFTER: Defs := Around([Octet("a"), Octet("b")], TAIL)

  /** Both versions are acyclic, and their fields rank as they should. */
  lemma VersionFits(inner: seq<Field>)
    requires inner == [Octet("a")] || inner == [Octet("a"), Octet("b")]
    ensures var d := Around(inner, TAIL);
            && d.Acyclic() && d.messages["Inner"] == inner && d.messages["Outer"] == [INNER] + TAIL
            && d.rank["Inner"] == 0 && d.rank["Outer"] == 1
            && d.Below(inner, 0) && d.Below([INNER] + TAIL, 1) && d.Below(TAIL, 1) && d.Below([Octet("y")], 1)
  {
    assert "x"[0] != "y"[0] && "a"[0] != "b"[0];
    var fs := [INNER] + TAIL;
    assert fs == [INNER, Octet("x"), Octet("y")];
    assert Distinct(fs) && Distinct(inner);
    AroundAcyclic(inner, TAIL);
  }

  function OuterValue(a: Byte, x: Byte, y: Byte): map<string, Value> {
    map["inner" := VStruct(map["a" := VInt(a)]), "x" := VInt(x), "y" := VInt(y)]
  }

  lemma OuterFields(defs: Defs, m: map<string, Value>, a: Byte, x: Byte, y: Byte)
    requires defs.Acyclic() && "Inner" in defs.messages && defs.messages["Inner"] == [Octet("a")]
    requires defs.rank["Inner"] == 0
    requires defs.Below([Octet("a")], 0) && defs.Below([INNER] + TAIL, 1) && defs.Below(TAIL, 1)
    requires defs.Below([Octet("y")], 1) && defs.Resolved(INNER.ty) && m == OuterValue(a, x, y)
    ensures WriteFields(defs, [INNER] + TAIL, 1, m, 0) == Some([a, x, y])
  {
    hide Defs.Acyclic, Defs.Below, WritePrim, WriteFields;
    var fs := [INNER] + TAIL;
    assert fs[0] == INNER && fs[1..] == TAIL;
    WriteOctet(defs, "a", 0, m["inner"].fields, 0, a);
    WriteOctets(defs, "x", "y", 1, m, 1, x, y);
    assert WriteValue(defs, INNER.ty, INNER.shape, m["inner"], 0) == Some([a]);
    WriteFirst(defs, fs, 1, m, 0, [a], [x, y]);
    assert [a] + [x, y] == [a, x, y];
  }

  lemma OldOuterBytes(a: Byte, x: Byte, y: Byte)
    ensures BEFORE.Acyclic() && Encode(BEFORE, "Outer", OuterValue(a, x, y)) == Some(HEADER + [a, x, y])
  {
    VersionFits([Octet("a")]);
    assert BEFORE.Resolved(INNER.ty);
    hide Defs.Acyclic, Defs.Below, WriteFields, OuterValue;
    OuterFields(BEFORE, OuterValue(a, x, y), a, x, y);
  }

  /** One field read in front of the others. */
  lemma ReadFirst(defs: Defs, fs: seq<Field>, bound: nat, buf: seq<Byte>, pos: nat, v: Value, next: nat,
                  rest: map<string, Value>, end: nat)
    requires defs.Acyclic() && defs.Below(fs, bound) && fs != [] && defs.Below(fs[1..], bound)
    requires ReadValue(defs, fs[0].ty, fs[0].shape, buf, pos) == Got(v, next)
    requires ReadFields(defs, fs[1..], bound, buf, next) == Got(rest, end)
    ensures ReadFields(defs, fs, bound, buf, pos) == Got(map[fs[0].name := v] + rest, end)
  {
    hide ReadValue, Defs.Acyclic;
  }

  lemma ReadOctets(defs: Defs, fs: seq<Field>, bound: nat, buf: seq<Byte>, pos: nat)
    requires defs.Acyclic() && |fs| == 2 && fs[0] == Octet(fs[0].name) && fs[1] == Octet(fs[1].name)
    requires defs.Below(fs, bound) && fs[0].name != fs[1].name && pos + 2 <= |buf|
    ensures ReadFields(defs, fs, bound, buf, pos)
         == Got(map[fs[0].name := VInt(buf[pos]), fs[1].name := VInt(buf[pos + 1])], pos + 2)
  {
    var tail := fs[1..];
    assert tail[0] == fs[1] && tail[1..] == [];
    assert defs.Below(tail, bound) && defs.Below(tail[1..], bound);
    hide Defs.Acyclic, Defs.Below, ReadPrim;
    OctetRead(buf, pos);
    OctetRead(buf, pos + 1);
    var v, w := VInt(buf[pos]), VInt(buf[pos + 1]);
    ReadFirst(defs, tail, bound, buf, pos + 1, w, pos + 2, map[], pos + 2);
    ReadFirst(defs, fs, bound, buf, pos, v, pos + 1, map[fs[1].name := w] + map[], pos + 2);
    assert map[fs[0].name := v] + (map[fs[1].name := w] + map[]) == map[fs[0].name := v, fs[1].name := w];
  }

  lemma InnerRead(defs: Defs, body: seq<Byte>)
    requires defs.Acyclic() && "Inner" in defs.messages && defs.messages["Inner"] == [Octet("a"), Octet("b")]
    requires defs.rank["Inner"] == 0 && defs.Below([Octet("a"), Octet("b")], 0)
    requires defs.Resolved(INNER.ty) && |body| == 3
    ensures ReadValue(defs, INNER.ty, INNER.shape, body, 0)
         == Got(VStruct(map["a" := VInt(body[0]), "b" := VInt(body[1])]), 2)
  {
    hide Defs.Acyclic, Defs.Below, ReadFields;
    assert "a" != "b" by { assert "a"[0] != "b"[0]; }
    ReadOctets(defs, [Octet("a"), Octet("b")], 0, body, 0);
  }

  lemma LastMissing(defs: Defs, fs: seq<Field>, body: seq<Byte>)
    requires defs.Acyclic() && fs == [Octet("y")] && defs.Below(fs, 1) && |body| == 3
    ensures DecodeFields(defs, fs, 1, body, 3, true) == Ok(Result(map["y" := None], ["y"], 0))
  {
    hide Defs.Acyclic, Defs.Below, ReadPrim;
    OctetRead(body, 3);
    assert ReadValue(defs, fs[0].ty, fs[0].shape, body, 3) == Truncated;
    assert Names(fs) == {"y"} && Absent(fs) == map["y" := None] && NameList(fs) == ["y"];
  }

  lemma TailMisread(defs: Defs, body: seq<Byte>)
    requires defs.Acyclic() && defs.Below(TAIL, 1) && defs.Below([Octet("y")], 1) && |body| == 3
    ensures DecodeFields(defs, TAIL, 1, body, 2, true)
         == Ok(Result(map["x" := Some(VInt(body[2]))] + map["y" := None], ["y"], 0))
  {
    hide Defs.Acyclic, Defs.Below, ReadPrim, DecodeFields;
    var fs := TAIL;
    assert fs[1..] == [Octet("y")] && fs[0] == Octet("x");
    LastMissing(defs, fs[1..], body);
    OctetRead(body, 2);
    DecodeGot(defs, fs, 1, body, 2, VInt(body[2]), 3);
  }

  /** A field appended to a nested message that is not last: for every value, the appended field takes the byte of the
      next field, that field takes the byte of the one after it, and the last one is reported missing. */
  lemma LaterFieldMisread(a: Byte, x: Byte, y: Byte)
    ensures BEFORE.Acyclic() && AFTER.Acyclic()
    ensures Encode(BEFORE, "Outer", OuterValue(a, x, y)) == Some(HEADER + [a, x, y])
    ensures Decode(AFTER, "Outer", HEADER + [a, x, y], true)
         == Ok(Result(map["inner" := Some(VStruct(map["a" := VInt(a), "b" := VInt(x)]))] +
                      (map["x" := Some(VInt(y))] + map["y" := None]), ["y"], 0))
  {
    OldOuterBytes(a, x, y);
    VersionFits([Octet("a"), Octet("b")]);
    var fs, body := [INNER] + TAIL, [a, x, y];
    var buf := HEADER + body;
    assert buf[4..] == body && buf[..2] == HEADER[..2];
    assert fs[0] == INNER && fs[1..] == TAIL && AFTER.Resolved(INNER.ty);
    hide Defs.Acyclic, Defs.Below, DecodeFields, ReadValue, Encode, OuterValue;
    InnerRead(AFTER, body);
    TailMisread(AFTER, body);
    DecodeGot(AFTER, fs, 1, body, 0, VStruct(map["a" := VInt(a), "b" := VInt(x)]), 2);
  }
}
