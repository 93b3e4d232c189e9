/** The cursor-based reader and the writer of the progress record, proved against the record's grammar. */
module ProgressReader {
  import opened Common
  import opened MissionProgress

  // ---------------------------------------------------------------- skipped space

  lemma {:induction false} SkipTwice(s: string)
    ensures SkipWs(SkipWs(s)) == SkipWs(s)
  {
    if s != [] && IsSpace(s[0]) { SkipTwice(s[1..]); }
  }

  /** Every reader skips leading space itself, so skipping it beforehand changes nothing. */
  lemma ReadSkipped(s: string)
    ensures ReadUint(SkipWs(s)) == ReadUint(s)
    ensures ReadString(SkipWs(s)) == ReadString(s)
    ensures forall c :: Eat(SkipWs(s), c) == Eat(s, c)
  {
    SkipTwice(s);
  }

  lemma MemberSkipped(s: string, a: Partial)
    ensures ReadMember(SkipWs(s), a) == ReadMember(s, a)
  {
    ReadSkipped(s);
  }

  lemma ItemsSkipped(s: string, acc: seq<nat>)
    ensures ReadItems(SkipWs(s), acc) == ReadItems(s, acc)
  {
    hide ReadUint, SkipWs;
    ReadSkipped(s);
  }

  class Reader {
    const s: string
    var i: nat

    predicate Valid()
      reads this
    {
      i <= |s|
    }

    function Unread(): string
      requires Valid()
      reads this
    {
      s[i..]
    }

    constructor (s: string)
      ensures Valid() && this.s == s && i == 0 && Unread() == s
    {
      this.s, i := s, 0;
    }

    method Ws()
      requires Valid()
      modifies this
      ensures Valid() && Unread() == SkipWs(old(Unread()))
    {
      while i < |s| && (s[i] == ' ' || s[i] == '\n' || s[i] == '\t' || s[i] == '\r')
        invariant Valid() && SkipWs(s[i..]) == SkipWs(old(s[i..]))
      {
        assert s[i..][1..] == s[i + 1..];
        i := i + 1;
      }
    }

    method EatChar(c: char) returns (ok: bool)
      requires Valid()
      modifies this
      ensures Valid() && ok == Eat(old(Unread()), c).Some?
      ensures Unread() == if ok then Eat(old(Unread()), c).value else SkipWs(old(Unread()))
    {
      Ws();
      if i < |s| && s[i] == c {
        assert s[i..][1..] == s[i + 1..];
        i := i + 1;
        return true;
      }
      return false;
    }

    method PeekChar(c: char) returns (ok: bool)
      requires Valid()
      modifies this
      ensures Valid() && ok == Peek(old(Unread()), c)
      ensures Unread() == SkipWs(old(Unread()))
    {
      Ws();
      return i < |s| && s[i] == c;
    }

    method Text() returns (r: Option<string>)
      requires Valid()
      modifies this
      ensures Valid()
      ensures ReadString(old(Unread())) == if r.None? then None else Some((r.value, Unread()))
    {
      var quoted := EatChar('"');
      if !quoted { return None; }
      var out := "";
      ghost var body := Unread();
      while i < |s| && s[i] != '"'
        invariant Valid() && UpToQuote(body, []) == UpToQuote(Unread(), out)
        decreases |s| - i
      {
        var c := s[i];
        assert s[i..][1..] == s[i + 1..];
        i := i + 1;
        if c < ' ' || c > '~' || c == '\\' { return None; }
        out := out + [c];
      }
      if i >= |s| { return None; }
      assert s[i..][1..] == s[i + 1..];
      i := i + 1;
      return Some(out);
    }

    method Uint32() returns (r: Option<nat>)
      requires Valid()
      modifies this
      ensures Valid()
      ensures ReadUint(old(Unread())) == if r.None? then None else Some((r.value, Unread()))
    {
      hide Step;
      Ws();
      var start := i;
      var v: nat := 0;
      ghost var text := Unread();
      while i < |s| && '0' <= s[i] <= '9'
        invariant Valid() && start <= i && v <= UINT32_MAX
        invariant Accumulate(text, 0) == Accumulate(Unread(), v)
        decreases |s| - i
      {
        assert v * 10 + Digit(s[i]) < UINT64;   // no overflow of the 64-bit accumulator
        StepExact(v, s[i]);
        v := v * 10 + Digit(s[i]);
        assert s[i..][1..] == s[i + 1..];
        if v > UINT32_MAX { return None; }
        i := i + 1;
      }
      var len := i - start;
      assert |text| - |Unread()| == len;
      assert len > 0 ==> text[0] == s[start];
      if len == 0 || (len > 1 && s[start] == '0') { return None; }
      return Some(v);
    }

    method AtEnd() returns (ok: bool)
      requires Valid()
      modifies this
      ensures Valid() && ok == (SkipWs(old(Unread())) == [])
    {
      Ws();
      return i == |s|;
    }

    /** The list of numbers, opening bracket first. */
    method NumberList() returns (r: Option<seq<nat>>)
      requires Valid()
      modifies this
      ensures Valid()
      ensures ReadList(old(Unread())) == if r.None? then None else Some((r.value, Unread()))
    {
      hide ReadUint, SkipWs;
      var points: seq<nat> := [];
      var ok := EatChar('[');
      if !ok { return None; }
      ghost var body := Unread();
      var empty := PeekChar(']');
      ReadSkipped(body);
      if !empty {
        ItemsSkipped(body, []);
        var more := true;
        while more
          invariant Valid()
          invariant more ==> ReadItems(body, []) == ReadItems(Unread(), points)
          invariant !more ==> ReadItems(body, []) == Some((points, Unread()))
          decreases if more then 1 + |Unread()| else 0
        {
          var v := Uint32();
          if v.None? { return None; }
          points := points + [v.value];
          more := EatChar(',');
        }
      }
      ok := EatChar(']');
      if !ok { return None; }
      return Some(points);
    }

    /** The value of one key. */
    method Value(k: Key, a: Partial) returns (r: Option<Partial>)
      requires Valid()
      modifies this
      ensures Valid()
      ensures ReadValue(old(Unread()), k, a) == if r.None? then None else Some((r.value, Unread()))
    {
      hide ReadList, ReadUint, ReadString;
      if k in a.seen { return None; }
      var b := a.(seen := a.seen + {k});
      if k == Completed {
        var v := NumberList();
        if v.None? { return None; }
        return Some(b.(record := b.record.(completed := v.value)));
      } else if k == Artifact || k == State || k == UpdatedUtc {
        var v := Text();
        if v.None? { return None; }
        return Some(WithString(b, k, v.value));
      } else {
        var v := Uint32();
        if v.None? { return None; }
        return Some(WithNumber(b, k, v.value));
      }
    }

    /** One member, after the comma. */
    method Member(a: Partial) returns (r: Result<Partial>)
      requires Valid()
      modifies this
      ensures Valid()
      ensures ReadMember(old(Unread()), a) == if r.Err? then Err(r.error) else Ok((r.value, Unread()))
    {
      hide ReadValue, ReadString, KeyOf;
      var name := Text();
      if name.None? { return Err(ExpectedKey); }
      var colon := EatChar(':');
      if !colon { return Err(ExpectedKey); }
      var k := KeyOf(name.value);
      if k.None? { return Err(UnknownKey(name.value)); }
      var v := Value(k.value, a);
      if v.None? { return Err(BadValue(k.value)); }
      return Ok(v.value);
    }
  }

  lemma PeekSkipped(s: string, c: char)
    ensures Peek(SkipWs(s), c) == Peek(s, c)
  {
    SkipTwice(s);
  }

  lemma MembersSkipped(s: string, first: bool, a: Partial)
    ensures ReadMembers(SkipWs(s), first, a) == ReadMembers(s, first, a)
  {
    hide ReadMember, SkipWs;
    SkipTwice(s);
    ReadSkipped(s);
    MemberSkipped(s, a);
  }

  method IsLowerHex64(s: string) returns (ok: bool)
    ensures ok == LowerHex64(s)
  {
    if |s| != 64 { return false; }
    for i := 0 to |s|
      invariant forall j :: 0 <= j < i ==> IsDigit(s[j]) || 'a' <= s[j] <= 'f'
    {
      if !('0' <= s[i] <= '9' || 'a' <= s[i] <= 'f') { return false; }
    }
    return true;
  }

  method IsInOrder(points: seq<nat>) returns (ok: bool)
    ensures ok == InOrder(points)
  {
    for i := 0 to |points|
      invariant forall j :: 0 <= j < i ==> points[j] == j
    {
      if points[i] != i { return false; }
    }
    return true;
  }

  /** The checks after the object is read, in the order the reader makes them. */
  method Check(a: Partial, end: bool, ghost rest: string) returns (out: Result<Progress>)
    requires end == (SkipWs(rest) == [])
    ensures out == Checked(a, rest)
  {
    hide LowerHex64, InOrder, SkipWs;
    if !end { return Err(TrailingBytes); }
    if a.seen != ALL_KEYS { return Err(MissingKey); }
    if a.schema != SCHEMA { return Err(UnsupportedSchema(a.schema)); }
    var hex := IsLowerHex64(a.record.artifact);
    if !hex { return Err(BadArtifact); }
    if !KnownState(a.record.state) { return Err(UnknownState); }
    var ordered := IsInOrder(a.record.completed);
    if !ordered { return Err(NotInOrder); }
    return Ok(a.record);
  }

  method ParseProgress(bytes: string) returns (out: Result<Progress>)
    ensures out == Parse(bytes)
  {
    hide ReadMember, SkipWs, Checked;
    var r := new Reader(bytes);
    var open := r.EatChar('{');
    if !open { return Err(NotAnObject); }
    ghost var body := r.Unread();
    var first, a := true, NOTHING;
    var closed := r.PeekChar('}');
    MembersSkipped(body, true, NOTHING);
    PeekSkipped(body, '}');
    while !closed
      invariant r.Valid() && fresh(r)
      invariant ReadMembers(body, true, NOTHING) == ReadMembers(r.Unread(), first, a)
      invariant closed == Peek(r.Unread(), '}')
      decreases |r.Unread()|
    {
      if !first {
        var comma := r.EatChar(',');
        if !comma { return Err(ExpectedComma); }
      }
      first := false;
      var m := r.Member(a);
      if m.Err? { return Err(m.error); }
      a := m.value;
      ghost var t := r.Unread();
      closed := r.PeekChar('}');
      MembersSkipped(t, false, a);
      PeekSkipped(t, '}');
    }
    ReadSkipped(r.Unread());
    var brace := r.EatChar('}');
    ghost var rest := r.Unread();
    var end := r.AtEnd();
    out := Check(a, end, rest);
  }

  // ---------------------------------------------------------------- writing

  /** One written member. */
  function Piece(p: Progress, i: nat): string
    requires i < 8
  {
    (if i == 0 then "" else ",") + Quoted(KeyName(KeyAt(i))) + ":" + ValueText(p, KeyAt(i))
  }

  lemma NextPiece(p: Progress, i: nat, o: string)
    requires i < 8 && o + Members(p, i) == Serialize(p)
    ensures o + Piece(p, i) + Members(p, i + 1) == Serialize(p)
  {
    hide ValueText, KeyName, Quoted, Serialize;
  }

  lemma {:induction false} ItemsAppend(points: seq<nat>, v: nat)
    ensures Items(points + [v]) == if points == [] then Digits(v) else Items(points) + "," + Digits(v)
  {
    hide Digits;
    if |points| == 1 {
      assert (points + [v])[1..] == [v];
    } else if |points| > 1 {
      ItemsAppend(points[1..], v);
      assert (points + [v])[1..] == points[1..] + [v];
    }
  }

  lemma Opening(p: Progress)
    ensures "{" + Members(p, 0) == Serialize(p)
    ensures Members(p, 8) == "}\n"
  {
  }

  method SerializeProgress(p: Progress) returns (o: string)
    ensures o == Serialize(p)
  {
    hide Digits, Items, Members, Serialize, Piece;
    o := "{";
    Opening(p);
    o := PutMember(p, 0, o, Digits(SCHEMA));
    o := PutMember(p, 1, o, "\"" + p.artifact + "\"");
    o := PutMember(p, 2, o, Digits(p.missionId));
    o := PutMember(p, 3, o, Digits(p.runIndex));
    o := PutMember(p, 4, o, Digits(p.pointIndex));
    var list := "";
    assert Items([]) == [] by { NoItems([]); }
    for i := 0 to |p.completed|
      invariant list == Items(p.completed[..i])
    {
      assert p.completed[..i + 1] == p.completed[..i] + [p.completed[i]];
      ItemsAppend(p.completed[..i], p.completed[i]);
      if i > 0 { list := list + ","; }
      list := list + Digits(p.completed[i]);
    }
    assert p.completed[..|p.completed|] == p.completed;
    o := PutMember(p, 5, o, "[" + list + "]");
    o := PutMember(p, 6, o, "\"" + p.state + "\"");
    o := PutMember(p, 7, o, "\"" + p.updatedUtc + "\"");
    o := o + "}\n";
  }

  method PutMember(ghost p: Progress, i: nat, o: string, value: string) returns (r: string)
    requires i < 8 && value == ValueText(p, KeyAt(i)) && o + Members(p, i) == Serialize(p)
    ensures r == o + Piece(p, i) && r + Members(p, i + 1) == Serialize(p)
  {
    hide ValueText, Members, Serialize, KeyAt, KeyName, Quoted;
    NextPiece(p, i, o);
    r := o;
    if i > 0 { r := r + ","; }
    r := r + Quoted(KeyName(KeyAt(i))) + ":" + value;
    assert r == o + Piece(p, i);
  }
}
