/** Whole messages: round trip, truncation at any byte, and append-only evolution of definitions in
    both directions. */
module CdrEvolution {
  import opened Common
  import opened Cdr
  import opened CdrRoundTrip

  ghost predicate WellTyped(defs: Defs, name: string, m: map<string, Value>)
    requires defs.Acyclic() && name in defs.messages
  {
    m.Keys == Names(defs.messages[name]) && TypedFields(defs, defs.messages[name], defs.rank[name], m)
  }

  function Body(defs: Defs, fs: seq<Field>, bound: nat, m: map<string, Value>, at: nat): seq<Byte>
    requires defs.Acyclic() && defs.Below(fs, bound)
  {
    match WriteFields(defs, fs, bound, m, at) case Some(bs) => bs case None => []
  }

  /** Writing one field, then the others after it. */
  lemma BodyStep(defs: Defs, fs: seq<Field>, bound: nat, m: map<string, Value>, at: nat)
    requires defs.Acyclic() && defs.Below(fs, bound) && TypedFields(defs, fs, bound, m) && fs != []
    ensures fs[0].name in m && TypedValue(defs, fs[0].ty, fs[0].shape, m[fs[0].name])
    ensures TypedFields(defs, fs[1..], bound, m)
    ensures
      var w := WriteValue(defs, fs[0].ty, fs[0].shape, m[fs[0].name], at);
      w.Some? && Body(defs, fs, bound, m, at) == w.value + Body(defs, fs[1..], bound, m, at + |w.value|)
  {
    hide WriteValue, TypedValue;
    var f := fs[0];
    ValueReadsBack(defs, f.ty, f.shape, m[f.name], at, []);
    var first := WriteValue(defs, f.ty, f.shape, m[f.name], at).value;
    FieldsReadBack(defs, fs[1..], bound, m, at + |first|, []);
  }

  lemma BodyNone(defs: Defs, bound: nat, m: map<string, Value>, at: nat)
    requires defs.Acyclic() && defs.Below([], bound)
    ensures Body(defs, [], bound, m, at) == []
  {
  }

  /** How many leading fields end at or before the limit. */
  function Fitting(defs: Defs, fs: seq<Field>, bound: nat, m: map<string, Value>, at: nat, limit: nat): (j: nat)
    requires defs.Acyclic() && defs.Below(fs, bound)
    ensures j <= |fs|
    decreases |fs|
  {
    if fs == [] || fs[0].name !in m then 0
    else match WriteValue(defs, fs[0].ty, fs[0].shape, m[fs[0].name], at)
      case None => 0
      case Some(bs) =>
        if at + |bs| > limit then 0
        else 1 + Fitting(defs, fs[1..], bound, m, at + |bs|, limit)
  }

  /** The first j fields present with their values, the others absent. */
  function Present(m: map<string, Value>, fs: seq<Field>, j: nat): map<string, Option<Value>>
    requires j <= |fs|
  {
    map k | k in Names(fs) ::
      if k in m && k in Names(fs[..j]) then Some(m[k]) else None
  }

  lemma PresentNone(m: map<string, Value>, fs: seq<Field>)
    ensures Present(m, fs, 0) == Absent(fs)
  {
    assert Names(fs[..0]) == {};
  }

  lemma PresentStep(m: map<string, Value>, fs: seq<Field>, j: nat)
    requires fs != [] && Distinct(fs) && fs[0].name in m && j <= |fs| - 1
    ensures Present(m, fs, j + 1) == map[fs[0].name := Some(m[fs[0].name])] + Present(m, fs[1..], j)
  {
    NamesStep(fs);
    NamesStep(fs[..j + 1]);
    assert fs[..j + 1][0] == fs[0] && fs[..j + 1][1..] == fs[1..][..j];
    hide Names, Distinct;
    var a, b := Present(m, fs, j + 1), map[fs[0].name := Some(m[fs[0].name])] + Present(m, fs[1..], j);
    assert a.Keys == b.Keys;
    forall k | k in a
      ensures a[k] == b[k]
    {
    }
  }

  lemma NamesStep(fs: seq<Field>)
    requires fs != []
    ensures Names(fs) == {fs[0].name} + Names(fs[1..])
    ensures Distinct(fs) ==> fs[0].name !in Names(fs[1..])
  {
    assert forall f :: f in fs <==> f == fs[0] || f in fs[1..];
  }

  // ---------------------------------------------------------------- any prefix of an encoding

  /** The first j fields are present with their values and exactly the others are missing. */
  ghost predicate CutOutcome(d: Decoding, m: map<string, Value>, fs: seq<Field>, j: nat, extra: int)
    requires j <= |fs|
  {
    d == Ok(Result(Present(m, fs, j), NameList(fs[j..]), extra))
  }

  lemma CutStep(d: Decoding, m: map<string, Value>, fs: seq<Field>, j: nat, extra: int)
    requires fs != [] && Distinct(fs) && fs[0].name in m && j <= |fs| - 1
    requires CutOutcome(d, m, fs[1..], j, extra)
    ensures var value := map[fs[0].name := Some(m[fs[0].name])] + d.result.value;
            CutOutcome(Ok(d.result.(value := value)), m, fs, j + 1, extra)
  {
    hide Present, NameList;
    PresentStep(m, fs, j);
    assert fs[1..][j..] == fs[j + 1..];
  }

  lemma CutNow(m: map<string, Value>, fs: seq<Field>)
    ensures CutOutcome(Ok(Result(Absent(fs), NameList(fs), 0)), m, fs, 0, 0)
    ensures fs == [] ==> Absent(fs) == map[] && NameList(fs) == []
  {
    PresentNone(m, fs);
    assert fs[0..] == fs;
  }

  /** Decoding a buffer that agrees with an encoding as far as it goes: exactly the fields that end
      inside the buffer are present, with their values; the others are missing. */
  lemma {:induction false} DecodePrefix(defs: Defs, fs: seq<Field>, bound: nat, m: map<string, Value>,
                                        at: nat, buf: seq<Byte>)
    requires defs.Acyclic() && defs.Below(fs, bound) && Distinct(fs) && TypedFields(defs, fs, bound, m)
    requires Agrees(buf, at, Body(defs, fs, bound, m, at))
    ensures
      var j := Fitting(defs, fs, bound, m, at, |buf|);
      var over := |buf| - at - |Body(defs, fs, bound, m, at)|;
      && (j == |fs| <==> over >= 0)
      && CutOutcome(DecodeFields(defs, fs, bound, buf, at, true), m, fs, j, if j == |fs| then over else 0)
    decreases |fs|
  {
    hide Agrees, WriteValue, ReadValue, TypedValue, TypedFields, Absent, NameList, Body, CutOutcome;
    CutNow(m, fs);
    if fs == [] {
      BodyNone(defs, bound, m, at);
      AgreesBound(buf, at, []);
      CutNoFields(m, fs, |buf| - at);
    } else {
      var f := fs[0];
      BodyStep(defs, fs, bound, m, at);
      ValueReadsBack(defs, f.ty, f.shape, m[f.name], at, buf);
      var first := WriteValue(defs, f.ty, f.shape, m[f.name], at).value;
      AgreesSplit(buf, at, first, Body(defs, fs[1..], bound, m, at + |first|));
      if at + |first| <= |buf| {
        DecodePrefix(defs, fs[1..], bound, m, at + |first|, buf);
        var j := Fitting(defs, fs[1..], bound, m, at + |first|, |buf|);
        var over := |buf| - at - |Body(defs, fs, bound, m, at)|;
        var d := DecodeFields(defs, fs[1..], bound, buf, at + |first|, true);
        var extra := if j == |fs[1..]| then over else 0;
        CutIsOk(d, m, fs[1..], j, extra);
        CutStep(d, m, fs, j, extra);
      }
    }
  }

  lemma CutNoFields(m: map<string, Value>, fs: seq<Field>, extra: int)
    requires fs == []
    ensures CutOutcome(Ok(Result(map[], [], extra)), m, fs, 0, extra)
  {
    CutNow(m, fs);
  }

  lemma CutIsOk(d: Decoding, m: map<string, Value>, fs: seq<Field>, j: nat, extra: int)
    requires j <= |fs| && CutOutcome(d, m, fs, j, extra)
    ensures d.Ok?
  {
  }

  lemma EncodeShape(defs: Defs, name: string, m: map<string, Value>)
    requires defs.Acyclic() && name in defs.messages && WellTyped(defs, name, m)
    ensures Encode(defs, name, m) == Some(HEADER + Body(defs, defs.messages[name], defs.rank[name], m, 0))
  {
    FieldsReadBack(defs, defs.messages[name], defs.rank[name], m, 0, []);
  }

  /** Round trip: every well-typed value of every acyclic definition encodes, and decoding the bytes
      returns it with nothing missing and no bytes left over. */
  lemma RoundTrip(defs: Defs, name: string, m: map<string, Value>, tolerant: bool)
    requires defs.Acyclic() && name in defs.messages && WellTyped(defs, name, m)
    ensures Encode(defs, name, m).Some?
    ensures Decode(defs, name, Encode(defs, name, m).value, tolerant)
      == Ok(Result(map k | k in m :: Some(m[k]), [], 0))
  {
    hide WriteFields, DecodeFields, Body, TypedFields, Fitting;
    var fs, bound := defs.messages[name], defs.rank[name];
    EncodeShape(defs, name, m);
    var body := Body(defs, fs, bound, m, 0);
    var buf := HEADER + body;
    assert buf[4..] == body && buf[..2] == HEADER[..2];
    DecodePrefix(defs, fs, bound, m, 0, body);
    assert fs[..|fs|] == fs && fs[|fs|..] == [];
    assert Present(m, fs, |fs|) == map k | k in m :: Some(m[k]);
    StrictSame(defs, fs, bound, body, 0);
  }

  /** When nothing is missing, the strict decoder agrees with the tolerant one. */
  lemma {:induction false} StrictSame(defs: Defs, fs: seq<Field>, bound: nat, body: seq<Byte>, pos: nat)
    requires defs.Acyclic() && defs.Below(fs, bound)
    requires DecodeFields(defs, fs, bound, body, pos, true).Ok?
    requires DecodeFields(defs, fs, bound, body, pos, true).result.missing == []
    ensures DecodeFields(defs, fs, bound, body, pos, false) == DecodeFields(defs, fs, bound, body, pos, true)
    decreases |fs|
  {
    hide ReadValue;
    if fs != [] {
      assert |NameList(fs)| > 0;
      var r := ReadValue(defs, fs[0].ty, fs[0].shape, body, pos);
      if r.Got? {
        StrictSame(defs, fs[1..], bound, body, r.pos);
      }
    }
  }

  lemma CutHeader(body: seq<Byte>, c: nat)
    requires c <= |body|
    ensures var cut := (HEADER + body)[..4 + c]; |cut| >= 4 && cut[4..] == body[..c] && cut[..2] == HEADER[..2]
  {
    var whole := HEADER + body;
    assert whole[4..] == body;
    assert whole[..4 + c][4..] == whole[4..][..c];
  }

  /** Cut an encoding after c body bytes: the tolerant decoder returns exactly the fields that end
      within the cut, and lists the rest as missing. */
  lemma TruncationSafe(defs: Defs, name: string, m: map<string, Value>, c: nat)
    requires defs.Acyclic() && name in defs.messages && WellTyped(defs, name, m)
    requires Encode(defs, name, m).Some? && 4 + c <= |Encode(defs, name, m).value|
    ensures
      var fs, bound := defs.messages[name], defs.rank[name];
      var j := Fitting(defs, fs, bound, m, 0, c);
      Decode(defs, name, Encode(defs, name, m).value[..4 + c], true)
        == Ok(Result(Present(m, fs, j), NameList(fs[j..]), 0))
  {
    hide WriteFields, DecodeFields, Fitting, Present;
    var fs, bound := defs.messages[name], defs.rank[name];
    EncodeShape(defs, name, m);
    var body := Body(defs, fs, bound, m, 0);
    CutHeader(body, c);
    DecodePrefix(defs, fs, bound, m, 0, body[..c]);
  }

  // ---------------------------------------------------------------- newer bytes, older definition

  /** Writing a field list is writing its first k fields, then the others after them. */
  lemma {:induction false} WriteSplit(defs: Defs, fs: seq<Field>, k: nat, bound: nat, m: map<string, Value>, at: nat)
    requires defs.Acyclic() && defs.Below(fs, bound) && TypedFields(defs, fs, bound, m) && k <= |fs|
    ensures defs.Below(fs[..k], bound) && defs.Below(fs[k..], bound)
    ensures
      var a := Body(defs, fs[..k], bound, m, at);
      Body(defs, fs, bound, m, at) == a + Body(defs, fs[k..], bound, m, at + |a|)
    decreases |fs|
  {
    hide WriteValue, TypedValue, Body;
    forall f | f in fs[..k] || f in fs[k..]
      ensures f in fs
    {
    }
    if k == 0 {
      assert fs[..0] == [] && fs[0..] == fs;
      BodyNone(defs, bound, m, at);
      assert [] + Body(defs, fs, bound, m, at) == Body(defs, fs, bound, m, at);
    } else {
      BodyStep(defs, fs, bound, m, at);
      BodyStep(defs, fs[..k], bound, m, at);
      var first := WriteValue(defs, fs[0].ty, fs[0].shape, m[fs[0].name], at).value;
      var tail := fs[1..];
      WriteSplit(defs, tail, k - 1, bound, m, at + |first|);
      assert fs[..k][1..] == tail[..k - 1] && fs[k..] == tail[k - 1..];
    }
  }

  /** Bytes written with the full definition, read with its first k fields: those k values, nothing
      missing, and the appended byte count as extra bytes. */
  lemma NewerBytes(defs: Defs, fs: seq<Field>, k: nat, bound: nat, m: map<string, Value>)
    requires defs.Acyclic() && defs.Below(fs, bound) && Distinct(fs) && TypedFields(defs, fs, bound, m)
    requires k <= |fs|
    ensures defs.Below(fs[..k], bound)
    ensures
      var full := Body(defs, fs, bound, m, 0);
      var known := Body(defs, fs[..k], bound, m, 0);
      && known <= full
      && DecodeFields(defs, fs[..k], bound, full, 0, true)
         == Ok(Result(Present(m, fs[..k], k), [], |full| - |known|))
  {
    hide WriteFields, DecodeFields, Present;
    WriteSplit(defs, fs, k, bound, m, 0);
    var full := Body(defs, fs, bound, m, 0);
    var known := Body(defs, fs[..k], bound, m, 0);
    assert forall i :: 0 <= i < |known| ==> full[i] == known[i];
    DecodePrefix(defs, fs[..k], bound, m, 0, full);
    assert fs[..k][k..] == [];
  }

  // ---------------------------------------------------------------- older bytes, newer definition

  /** The type always occupies at least one byte. */
  ghost predicate OccupiesScalar(defs: Defs, ty: Type)
    requires defs.Acyclic() && defs.Resolved(ty)
    decreases defs.Depth(ty), 0
  {
    ty.Message? ==> exists f :: f in defs.messages[ty.name] && OccupiesField(defs, f, defs.rank[ty.name])
  }

  ghost predicate OccupiesField(defs: Defs, f: Field, bound: nat)
    requires defs.Acyclic() && defs.Resolved(f.ty) && defs.Depth(f.ty) <= bound
    decreases bound, 1
  {
    match f.shape
    case Scalar => OccupiesScalar(defs, f.ty)
    case Fixed(n) => n > 0 && OccupiesScalar(defs, f.ty)
    case Sequence => true
  }

  /** A scalar read at the end of the buffer truncates exactly when its type occupies a byte;
      otherwise it succeeds without moving. */
  lemma {:induction false} ScalarAtEnd(defs: Defs, ty: Type, buf: seq<Byte>)
    requires defs.Acyclic() && defs.Resolved(ty)
    ensures
      var r := ReadScalar(defs, ty, buf, |buf|);
      if OccupiesScalar(defs, ty) then r.Truncated? else r.Got? && r.pos == |buf|
    decreases defs.Depth(ty), 0, 0
  {
    hide Unpack;
    if ty.Message? {
      FieldsAtEnd(defs, defs.messages[ty.name], defs.rank[ty.name], buf);
    }
  }

  lemma {:induction false} ListAtEnd(defs: Defs, ty: Type, n: nat, buf: seq<Byte>)
    requires defs.Acyclic() && defs.Resolved(ty)
    ensures
      var r := ReadList(defs, ty, n, buf, |buf|);
      if n > 0 && OccupiesScalar(defs, ty) then r.Truncated? else r.Got? && r.pos == |buf|
    decreases defs.Depth(ty), 1, n
  {
    hide ReadScalar, OccupiesScalar;
    if n > 0 {
      ScalarAtEnd(defs, ty, buf);
      ListAtEnd(defs, ty, n - 1, buf);
    }
  }

  lemma {:induction false} FieldAtEnd(defs: Defs, f: Field, bound: nat, buf: seq<Byte>)
    requires defs.Acyclic() && defs.Resolved(f.ty) && defs.Depth(f.ty) <= bound
    ensures
      var r := ReadValue(defs, f.ty, f.shape, buf, |buf|);
      if OccupiesField(defs, f, bound) then r.Truncated? else r.Got? && r.pos == |buf|
    decreases bound, 3, 0
  {
    hide ReadScalar, ReadList, UnpackAll, Unpack;
    match f.shape
    case Scalar => ScalarAtEnd(defs, f.ty, buf);
    case Fixed(n) =>
      if f.ty.Primitive? {
        assert OccupiesScalar(defs, f.ty);
        PrimsAtEnd(f.ty.prim, n, buf);
      } else {
        ListAtEnd(defs, f.ty, n, buf);
      }
    case Sequence =>
  }

  lemma PrimsAtEnd(p: Prim, n: nat, buf: seq<Byte>)
    ensures
      var r := ReadPrims(p, n, buf, |buf|);
      if n > 0 then r.Truncated? else r.Got? && r.pos == |buf|
  {
    if n > 0 {
      assert Size(p) * n >= Size(p) * 1 >= 1;
    }
  }

  lemma {:induction false} FieldsAtEnd(defs: Defs, fs: seq<Field>, bound: nat, buf: seq<Byte>)
    requires defs.Acyclic() && defs.Below(fs, bound)
    ensures
      var r := ReadFields(defs, fs, bound, buf, |buf|);
      if exists f :: f in fs && OccupiesField(defs, f, bound) then r.Truncated? else r.Got? && r.pos == |buf|
    decreases bound, 4, |fs|
  {
    hide ReadValue, OccupiesField;
    if fs != [] {
      FieldAtEnd(defs, fs[0], bound, buf);
      FieldsAtEnd(defs, fs[1..], bound, buf);
      assert forall f :: f in fs <==> f == fs[0] || f in fs[1..];
    }
  }

  /** Index of the first field that occupies a byte (or the number of fields). */
  ghost function FirstOccupying(defs: Defs, fs: seq<Field>, bound: nat): (j: nat)
    requires defs.Acyclic() && defs.Below(fs, bound)
    ensures j <= |fs|
    decreases |fs|
  {
    if fs == [] || OccupiesField(defs, fs[0], bound) then 0 else 1 + FirstOccupying(defs, fs[1..], bound)
  }

  /** What a decode of older bytes must look like: the first k fields hold their values, exactly
      the fields from j on are missing and have no value, and no bytes are left over. */
  ghost predicate Older(d: Decoding, fs: seq<Field>, k: nat, j: nat, m: map<string, Value>)
    requires k <= j <= |fs|
  {
    && d.Ok? && d.result.missing == NameList(fs[j..]) && d.result.extra == 0
    && d.result.value.Keys == Names(fs)
    && forall i :: 0 <= i < |fs| ==> FieldOutcome(d.result.value, fs[i].name, i, k, j, m)
  }

  ghost predicate FieldOutcome(value: map<string, Option<Value>>, name: string, i: nat, k: nat, j: nat,
                               m: map<string, Value>)
  {
    && name in value
    && (value[name] == None <==> i >= j)
    && (i < k ==> name in m && value[name] == Some(m[name]))
  }

  /** Decoding at the end of the buffer: missing starts at the first field that occupies a byte. */
  lemma {:induction false} DecodeAtEnd(defs: Defs, fs: seq<Field>, bound: nat, m: map<string, Value>, buf: seq<Byte>)
    requires defs.Acyclic() && defs.Below(fs, bound) && Distinct(fs)
    ensures Older(DecodeFields(defs, fs, bound, buf, |buf|, true), fs, 0, FirstOccupying(defs, fs, bound), m)
    decreases |fs|
  {
    hide ReadValue, OccupiesField, Older, Absent, NameList;
    OlderNow(fs, m);
    if fs != [] {
      FieldAtEnd(defs, fs[0], bound, buf);
      if !OccupiesField(defs, fs[0], bound) {
        DecodeAtEnd(defs, fs[1..], bound, m, buf);
        var v := ReadValue(defs, fs[0].ty, fs[0].shape, buf, |buf|).value;
        var d := DecodeFields(defs, fs[1..], bound, buf, |buf|, true);
        var j := FirstOccupying(defs, fs[1..], bound);
        OlderIsOk(d, fs[1..], 0, j, m);
        OlderStep(d, fs, 0, j, m, v);
      }
    }
  }

  lemma OlderNow(fs: seq<Field>, m: map<string, Value>)
    ensures Older(Ok(Result(Absent(fs), NameList(fs), 0)), fs, 0, 0, m)
    ensures fs == [] ==> Absent(fs) == map[] && NameList(fs) == []
  {
    assert fs[0..] == fs;
    assert forall i :: 0 <= i < |fs| ==> fs[i].name in Names(fs);
  }

  /** One more field in front that was read as v. */
  lemma OlderStep(d: Decoding, fs: seq<Field>, k: nat, j: nat, m: map<string, Value>, v: Value)
    requires fs != [] && Distinct(fs) && k <= j + 1 <= |fs|
    requires Older(d, fs[1..], if k == 0 then 0 else k - 1, j, m)
    requires k > 0 ==> fs[0].name in m && m[fs[0].name] == v
    ensures Older(Ok(d.result.(value := map[fs[0].name := Some(v)] + d.result.value)), fs, k, j + 1, m)
  {
    var tail, value := fs[1..], map[fs[0].name := Some(v)] + d.result.value;
    assert tail[j..] == fs[j + 1..];
    assert Names(fs) == {fs[0].name} + Names(tail);
    forall i | 0 <= i < |fs|
      ensures FieldOutcome(value, fs[i].name, i, k, j + 1, m)
    {
      if i == 0 {
        assert fs[0].name !in Names(tail);
      } else {
        assert tail[i - 1] == fs[i];
        assert FieldOutcome(d.result.value, tail[i - 1].name, i - 1, if k == 0 then 0 else k - 1, j, m);
      }
    }
  }

  /** The first written field is there to be read, and the others follow it. */
  lemma OlderFirst(defs: Defs, fs: seq<Field>, bound: nat, m: map<string, Value>, at: nat, buf: seq<Byte>)
    requires defs.Acyclic() && defs.Below(fs, bound) && fs != [] && TypedFields(defs, fs, bound, m)
    requires Agrees(buf, at, Body(defs, fs, bound, m, at)) && |buf| == at + |Body(defs, fs, bound, m, at)|
    ensures var f := fs[0];
            && f.name in m && TypedValue(defs, f.ty, f.shape, m[f.name])
            && WriteValue(defs, f.ty, f.shape, m[f.name], at).Some?
            && var next := at + |WriteValue(defs, f.ty, f.shape, m[f.name], at).value|;
               && ReadValue(defs, f.ty, f.shape, buf, at) == Got(m[f.name], next)
               && TypedFields(defs, fs[1..], bound, m)
               && Agrees(buf, next, Body(defs, fs[1..], bound, m, next))
               && |buf| == next + |Body(defs, fs[1..], bound, m, next)|
  {
    hide Agrees, WriteValue, ReadValue, TypedValue, TypedFields, Body;
    var f := fs[0];
    BodyStep(defs, fs, bound, m, at);
    ValueReadsBack(defs, f.ty, f.shape, m[f.name], at, buf);
    var first := WriteValue(defs, f.ty, f.shape, m[f.name], at).value;
    AgreesSplit(buf, at, first, Body(defs, fs[1..], bound, m, at + |first|));
  }

  lemma TailFits(defs: Defs, fs: seq<Field>, k: nat, bound: nat)
    requires defs.Below(fs, bound) && Distinct(fs) && 0 < k <= |fs|
    ensures defs.Below(fs[1..], bound) && Distinct(fs[1..])
    ensures defs.Below(fs[1..][..k - 1], bound) && defs.Below(fs[1..][k - 1..], bound)
    ensures defs.Below(fs[..k], bound) && defs.Below(fs[k..], bound)
    ensures fs[..k][0] == fs[0] && fs[..k][1..] == fs[1..][..k - 1] && fs[k..] == fs[1..][k - 1..]
  {
  }

  lemma DecodeGot(defs: Defs, fs: seq<Field>, bound: nat, buf: seq<Byte>, at: nat, v: Value, next: nat)
    requires defs.Acyclic() && defs.Below(fs, bound) && fs != [] && defs.Below(fs[1..], bound)
    requires ReadValue(defs, fs[0].ty, fs[0].shape, buf, at) == Got(v, next)
    requires DecodeFields(defs, fs[1..], bound, buf, next, true).Ok?
    ensures var d := DecodeFields(defs, fs[1..], bound, buf, next, true);
            DecodeFields(defs, fs, bound, buf, at, true) ==
            Ok(d.result.(value := map[fs[0].name := Some(v)] + d.result.value))
  {
    hide ReadValue;
  }

  /** Bytes written with the first k fields, read with the full definition: those k values, and the
      fields from the first appended one that occupies a byte on are missing. */
  lemma {:induction false} OlderBytes(defs: Defs, fs: seq<Field>, k: nat, bound: nat, m: map<string, Value>,
                                      at: nat, buf: seq<Byte>)
    requires defs.Acyclic() && defs.Below(fs, bound) && Distinct(fs) && k <= |fs|
    requires defs.Below(fs[..k], bound) && defs.Below(fs[k..], bound)
    requires TypedFields(defs, fs[..k], bound, m)
    requires Agrees(buf, at, Body(defs, fs[..k], bound, m, at))
    requires |buf| == at + |Body(defs, fs[..k], bound, m, at)|
    ensures Older(DecodeFields(defs, fs, bound, buf, at, true), fs, k, k + FirstOccupying(defs, fs[k..], bound), m)
    decreases |fs|
  {
    hide Agrees, WriteValue, ReadValue, TypedValue, TypedFields, Older, Body, DecodeFields, FirstOccupying, Distinct,
      Defs.Below, Defs.Acyclic;
    if k == 0 {
      assert fs[0..] == fs && fs[..0] == [];
      BodyNone(defs, bound, m, at);
      DecodeAtEnd(defs, fs, bound, m, buf);
    } else {
      var f, older := fs[0], fs[..k];
      TailFits(defs, fs, k, bound);
      OlderFirst(defs, older, bound, m, at, buf);
      var first := WriteValue(defs, f.ty, f.shape, m[f.name], at).value;
      OlderBytes(defs, fs[1..], k - 1, bound, m, at + |first|, buf);
      var d := DecodeFields(defs, fs[1..], bound, buf, at + |first|, true);
      OlderIsOk(d, fs[1..], k - 1, k - 1 + FirstOccupying(defs, fs[k..], bound), m);
      DecodeGot(defs, fs, bound, buf, at, m[f.name], at + |first|);
      OlderStep(d, fs, k, k - 1 + FirstOccupying(defs, fs[k..], bound), m, m[f.name]);
    }
  }

  lemma OlderIsOk(d: Decoding, fs: seq<Field>, k: nat, j: nat, m: map<string, Value>)
    requires k <= j <= |fs| && Older(d, fs, k, j, m)
    ensures d.Ok?
  {
  }

  /** Exactly the appended names are missing if and only if nothing was appended or the first
      appended field occupies at least one byte. */
  lemma OlderBytesExact(defs: Defs, fs: seq<Field>, k: nat, bound: nat, m: map<string, Value>)
    requires defs.Acyclic() && defs.Below(fs, bound) && Distinct(fs) && k <= |fs|
    requires defs.Below(fs[..k], bound) && TypedFields(defs, fs[..k], bound, m)
    ensures
      var d := DecodeFields(defs, fs, bound, Body(defs, fs[..k], bound, m, 0), 0, true);
      && d.Ok?
      && (d.result.missing == NameList(fs[k..]) <==> k == |fs| || OccupiesField(defs, fs[k], bound))
  {
    hide WriteFields, DecodeFields, OccupiesField;
    var body := Body(defs, fs[..k], bound, m, 0);
    assert defs.Below(fs[k..], bound);
    OlderBytes(defs, fs, k, bound, m, 0, body);
    var j := k + FirstOccupying(defs, fs[k..], bound);
    assert |NameList(fs[j..])| == |fs| - j && |NameList(fs[k..])| == |fs| - k;
  }
}
