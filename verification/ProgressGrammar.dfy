/** The text of a progress record as a grammar: which texts are accepted, as which record, and how a record is
    written. Keys, state names and characters are spelled out. */
module ProgressGrammar {
  import opened Common
  import opened MissionProgress
  import MissionFsm

  // ---------------------------------------------------------------- characters and names

  predicate Blank(c: char) { c as int == 32 || c as int == 10 || c as int == 9 || c as int == 13 }

  predicate Numeric(c: char) { 48 <= c as int <= 57 }

  /** Printable ASCII but the quote and the backslash. */
  predicate Ordinary(c: char) { 0x20 <= c as int <= 0x7e && c as int != 34 && c as int != 92 }

  predicate Simple(s: string) { forall i: nat :: i < |s| ==> Ordinary(s[i]) }

  function Spelling(k: Key): string {
    match k
    case Schema => "schema"
    case Artifact => "path_artifact_sha256"
    case MissionId => "mission_id"
    case RunIndex => "run_index"
    case PointIndex => "point_index"
    case Completed => "completed_points"
    case State => "state"
    case UpdatedUtc => "updated_utc"
  }

  function StateName(s: MissionFsm.State): string {
    match s
    case Idle => "IDLE"
    case Loading => "LOADING"
    case Ready => "READY"
    case Running => "RUNNING"
    case Paused => "PAUSED"
    case Completed => "COMPLETED"
    case Aborted => "ABORTED"
    case Error => "ERROR"
    case Placing => "PLACING"
    case Arming => "ARMING"
    case Engaging => "ENGAGING"
  }

  /** A record that can have been written: a SHA-256 in lower-case hex, the name of a lifecycle state, an ordinary
      stamp, and the points 0, 1, ... */
  ghost predicate Record(p: Progress) {
    && |p.artifact| == 64
    && (forall i: nat :: i < 64 ==> Numeric(p.artifact[i]) || 97 <= p.artifact[i] as int <= 102)
    && (exists s: MissionFsm.State :: p.state == StateName(s))
    && Simple(p.updatedUtc)
    && (forall i: nat :: i < |p.completed| ==> p.completed[i] == i)
  }

  lemma StateKnown(s: string)
    ensures KnownState(s) <==> exists st: MissionFsm.State :: s == StateName(st)
  {
    if KnownState(s) {
      if s == "IDLE" { assert s == StateName(MissionFsm.Idle); }
      else if s == "LOADING" { assert s == StateName(MissionFsm.Loading); }
      else if s == "READY" { assert s == StateName(MissionFsm.Ready); }
      else if s == "RUNNING" { assert s == StateName(MissionFsm.Running); }
      else if s == "PAUSED" { assert s == StateName(MissionFsm.Paused); }
      else { OtherKnown(s); }
    }
  }

  lemma OtherKnown(s: string)
    requires s == "COMPLETED" || s == "ABORTED" || s == "ERROR" || s == "PLACING" || s == "ARMING" || s == "ENGAGING"
    ensures exists st: MissionFsm.State :: s == StateName(st)
  {
    if s == "COMPLETED" { assert s == StateName(MissionFsm.Completed); }
    else if s == "ABORTED" { assert s == StateName(MissionFsm.Aborted); }
    else if s == "ERROR" { assert s == StateName(MissionFsm.Error); }
    else if s == "PLACING" { assert s == StateName(MissionFsm.Placing); }
    else if s == "ARMING" { assert s == StateName(MissionFsm.Arming); }
    else { assert s == StateName(MissionFsm.Engaging); }
  }

  lemma RecordIs(p: Progress)
    ensures Record(p) <==> LowerHex64(p.artifact) && KnownState(p.state) && Plain(p.updatedUtc) && InOrder(p.completed)
  {
    hide KnownState, StateName;
    StateKnown(p.state);
    PlainIs(p.updatedUtc);
    HexIs(p.artifact);
  }

  lemma HexIs(s: string)
    ensures LowerHex64(s) <==>
              |s| == 64 && forall i: nat :: i < 64 ==> Numeric(s[i]) || 97 <= s[i] as int <= 102
  {
    assert forall c: char :: IsDigit(c) <==> Numeric(c);
  }

  lemma PlainIs(s: string)
    ensures Plain(s) <==> Simple(s)
  {
    assert forall c: char :: Printable(c) && c != '"' <==> Ordinary(c);
  }

  // ---------------------------------------------------------------- the grammar

  /** What may stand before a token: nothing in a tight text, and else any blanks. */
  predicate Gap(w: string, tight: bool) {
    if tight then w == [] else forall i: nat :: i < |w| ==> Blank(w[i])
  }

  ghost predicate Token(s: string, c: char, rest: string, tight: bool) {
    exists w :: Gap(w, tight) && s == w + [c] + rest
  }

  ghost predicate StringAt(s: string, v: string, rest: string, tight: bool) {
    Simple(v) && exists b :: Token(s, '"', b, tight) && b == v + ['"'] + rest
  }

  /** The number that decimal digits denote. */
  function Worth(d: string): int {
    if d == [] then 0 else Worth(d[..|d| - 1]) * 10 + (d[|d| - 1] as int - 48)
  }

  /** Decimal digits without a leading zero, of at most 32 bits. */
  predicate Numeral(d: string, n: nat) {
    && d != [] && (forall i: nat :: i < |d| ==> Numeric(d[i])) && (|d| > 1 ==> d[0] as int != 48)
    && Worth(d) == n <= 4294967295
  }

  ghost predicate NumberAt(s: string, n: nat, rest: string, tight: bool) {
    && (rest == [] || !Numeric(rest[0]))
    && exists w, d :: Gap(w, tight) && Numeral(d, n) && s == w + d + rest
  }

  ghost predicate ItemsAt(s: string, points: seq<nat>, rest: string, tight: bool)
    decreases |points|
  {
    && points != []
    && exists m :: NumberAt(s, points[0], m, tight) && Followed(m, points, rest, tight)
  }

  ghost predicate Followed(m: string, points: seq<nat>, rest: string, tight: bool)
    requires points != []
    decreases |points|, 0
  {
    if |points| == 1 then Token(m, ']', rest, tight)
    else exists n :: Token(m, ',', n, tight) && ItemsAt(n, points[1..], rest, tight)
  }

  ghost predicate ListAt(s: string, points: seq<nat>, rest: string, tight: bool) {
    exists b :: Token(s, '[', b, tight) &&
      if points == [] then Token(b, ']', rest, tight) else ItemsAt(b, points, rest, tight)
  }

  /** The value of key `k` in a record with this schema number. */
  ghost predicate ValueAt(s: string, k: Key, p: Progress, schema: nat, rest: string, tight: bool) {
    match k
    case Schema => NumberAt(s, schema, rest, tight)
    case Artifact => StringAt(s, p.artifact, rest, tight)
    case MissionId => NumberAt(s, p.missionId, rest, tight)
    case RunIndex => NumberAt(s, p.runIndex, rest, tight)
    case PointIndex => NumberAt(s, p.pointIndex, rest, tight)
    case Completed => ListAt(s, p.completed, rest, tight)
    case State => StringAt(s, p.state, rest, tight)
    case UpdatedUtc => StringAt(s, p.updatedUtc, rest, tight)
  }

  ghost predicate MemberAt(s: string, k: Key, p: Progress, schema: nat, rest: string, tight: bool) {
    exists m, c ::
      StringAt(s, Spelling(k), m, tight) && Token(m, ':', c, tight) && ValueAt(c, k, p, schema, rest, tight)
  }

  /** The members `ks`, separated by commas, and the closing brace. */
  ghost predicate MembersAt(s: string, first: bool, ks: seq<Key>, p: Progress, schema: nat, rest: string, tight: bool)
    decreases |ks|
  {
    if ks == [] then Token(s, '}', rest, tight)
    else exists a, m ::
      Opens(s, first, a, tight) && MemberAt(a, ks[0], p, schema, m, tight) &&
      MembersAt(m, false, ks[1..], p, schema, rest, tight)
  }

  ghost predicate Opens(s: string, first: bool, a: string, tight: bool) {
    if first then a == s else Token(s, ',', a, tight)
  }

  /** An object with these members, and what follows it. */
  ghost predicate Document(s: string, ks: seq<Key>, p: Progress, schema: nat, rest: string, tight: bool) {
    exists b :: Token(s, '{', b, tight) && MembersAt(b, true, ks, p, schema, rest, tight)
  }

  /** Each of the eight keys once. */
  ghost predicate AllKeys(ks: seq<Key>) {
    (forall i: nat, j: nat :: i < j < |ks| ==> ks[i] != ks[j]) && forall k: Key :: k in ks
  }

  // ---------------------------------------------------------------- tokens

  lemma BlankIs(c: char)
    ensures IsSpace(c) <==> Blank(c)
  {
  }

  lemma {:induction false} SkipIs(s: string) returns (w: string)
    ensures Gap(w, false) && s == w + SkipWs(s)
    ensures SkipWs(s) == [] || !Blank(SkipWs(s)[0])
  {
    w := [];
    if s != [] && IsSpace(s[0]) {
      var v := SkipIs(s[1..]);
      w := [s[0]] + v;
    }
  }

  lemma {:induction false} SkipOver(w: string, r: string)
    requires Gap(w, false) && (r == [] || !Blank(r[0]))
    ensures SkipWs(w + r) == r
    decreases |w|
  {
    if w == [] {
      assert w + r == r;
    } else {
      assert (w + r)[0] == w[0] && (w + r)[1..] == w[1..] + r;
      SkipOver(w[1..], r);
    }
  }

  lemma EatIs(s: string, c: char, rest: string)
    requires !Blank(c)
    ensures Eat(s, c) == Some(rest) <==> Token(s, c, rest, false)
  {
    hide Gap, SkipWs;
    var w := SkipIs(s);
    var r := SkipWs(s);
    if Eat(s, c) == Some(rest) {
      assert r == [c] + rest;
      assert s == w + [c] + rest;
    }
    if Token(s, c, rest, false) {
      var v :| Gap(v, false) && s == v + [c] + rest;
      assert s == v + ([c] + rest);
      SkipOver(v, [c] + rest);
    }
  }

  lemma PeekIs(s: string, c: char)
    ensures Peek(s, c) <==> Eat(s, c).Some?
  {
  }

  /** Reading up to the quote adds the text that stands before it. */
  lemma {:induction false} UpToStands(s: string, acc: string) returns (v: string)
    requires UpToQuote(s, acc).Some?
    ensures UpToQuote(s, acc).value.0 == acc + v && Plain(v) && s == v + ['"'] + UpToQuote(s, acc).value.1
    decreases |s|
  {
    if s[0] == '"' {
      v := [];
    } else {
      hide UpToQuote;
      UpToUnfold(s, acc);
      var u := UpToStands(s[1..], acc + [s[0]]);
      v := [s[0]] + u;
      assert acc + [s[0]] + u == acc + v;
      assert s == [s[0]] + s[1..];
    }
  }

  lemma UpToUnfold(s: string, acc: string)
    requires s != [] && s[0] != '"' && UpToQuote(s, acc).Some?
    ensures Printable(s[0]) && UpToQuote(s, acc) == UpToQuote(s[1..], acc + [s[0]])
  {
  }

  lemma UpToIs(s: string, v: string, rest: string)
    ensures UpToQuote(s, []) == Some((v, rest)) <==> Plain(v) && s == v + ['"'] + rest
  {
    hide UpToQuote, Plain;
    if UpToQuote(s, []).Some? {
      var u := UpToStands(s, []);
      assert [] + u == u;
    }
    if Plain(v) && s == v + ['"'] + rest {
      QuoteFound([], v, rest);
      assert [] + v == v;
    }
  }

  lemma StringIs(s: string, v: string, rest: string)
    ensures ReadString(s) == Some((v, rest)) <==> StringAt(s, v, rest, false)
  {
    hide Token, Eat, UpToQuote, Plain, Simple;
    PlainIs(v);
    var b := Eat(s, '"');
    if b.Some? {
      EatIs(s, '"', b.value);
      UpToIs(b.value, v, rest);
    }
    if StringAt(s, v, rest, false) {
      var c :| Token(s, '"', c, false) && c == v + ['"'] + rest;
      EatIs(s, '"', c);
      UpToIs(c, v, rest);
    }
  }

  // ---------------------------------------------------------------- numbers

  lemma {:induction false} WorthIs(d: string)
    requires AllDigits(d)
    ensures Worth(d) == DecimalValue(d)
  {
    if d != [] { WorthIs(d[..|d| - 1]); }
  }

  lemma DigitsNumeric(d: string)
    ensures AllDigits(d) <==> forall i: nat :: i < |d| ==> Numeric(d[i])
  {
    assert forall c: char :: IsDigit(c) <==> Numeric(c);
  }

  lemma {:induction false} RunOver(d: string, rest: string)
    requires AllDigits(d) && (rest == [] || !IsDigit(rest[0]))
    ensures DigitRun(d + rest) == |d|
    decreases |d|
  {
    if d == [] {
      assert d + rest == rest;
    } else {
      assert (d + rest)[0] == d[0] && (d + rest)[1..] == d[1..] + rest;
      RunOver(d[1..], rest);
    }
  }

  lemma NumberIs(s: string, n: nat, rest: string)
    ensures ReadUint(s) == Some((n, rest)) <==> NumberAt(s, n, rest, false)
  {
    hide Gap, ReadUint, DecimalValue, Worth, SkipWs, DigitRun;
    var w := SkipIs(s);
    var t := SkipWs(s);
    UintExact(s);
    var k := DigitRun(t);
    var d := t[..k];
    NumeralIs(d);
    if ReadUint(s) == Some((n, rest)) {
      assert Numeral(d, n);
      assert s == w + d + rest;
    }
    if NumberAt(s, n, rest, false) {
      var v, e :| Gap(v, false) && Numeral(e, n) && s == v + e + rest;
      NumberRead(s, v, e, n, rest);
    }
  }

  lemma NumeralIs(d: string)
    requires AllDigits(d)
    ensures forall n: nat :: Numeral(d, n) <==>
              d != [] && (|d| > 1 ==> d[0] != '0') && DecimalValue(d) == n <= UINT32_MAX
  {
    WorthIs(d);
    DigitsNumeric(d);
  }

  lemma NumberRead(s: string, v: string, e: string, n: nat, rest: string)
    requires Gap(v, false) && Numeral(e, n) && s == v + e + rest && (rest == [] || !Numeric(rest[0]))
    ensures ReadUint(s) == Some((n, rest))
  {
    hide Gap, ReadUint, DecimalValue, Worth, SkipWs, DigitRun;
    DigitsNumeric(e);
    NumeralIs(e);
    var r := e + rest;
    assert s == v + r && r[0] == e[0];
    SkipOver(v, r);
    RunOver(e, rest);
    assert r[..|e|] == e && r[|e|..] == rest;
    UintExact(s);
  }

  // ---------------------------------------------------------------- lists

  /** Items are read up to the closing bracket, which stays. */
  lemma {:induction false} ItemsRead(s: string, acc: seq<nat>, points: seq<nat>, rest: string)
    requires ItemsAt(s, points, rest, false)
    ensures var r := ReadItems(s, acc);
            r.Some? && r.value.0 == acc + points && Eat(r.value.1, ']') == Some(rest)
    decreases |points|
  {
    hide NumberAt, Token, ReadUint, Eat;
    var m :| NumberAt(s, points[0], m, false) && Followed(m, points, rest, false);
    NumberIs(s, points[0], m);
    if |points| == 1 {
      EatIs(m, ']', rest);
      OnlyOne(m, ']', ',');
      EatSkips(m, ']');
      assert acc + [points[0]] == acc + points;
    } else {
      var n :| Token(m, ',', n, false) && ItemsAt(n, points[1..], rest, false);
      EatIs(m, ',', n);
      ItemsRead(n, acc + [points[0]], points[1..], rest);
      assert acc + [points[0]] + points[1..] == acc + points;
    }
  }

  lemma OnlyOne(s: string, c: char, d: char)
    requires Eat(s, c).Some? && c != d
    ensures Eat(s, d).None?
  {
  }

  lemma {:induction false} SkipTwice(s: string)
    ensures SkipWs(SkipWs(s)) == SkipWs(s)
  {
    if s != [] && IsSpace(s[0]) { SkipTwice(s[1..]); }
  }

  lemma EatSkips(s: string, c: char)
    ensures Eat(SkipWs(s), c) == Eat(s, c)
  {
    SkipTwice(s);
  }

  lemma {:induction false} ItemsStand(s: string, acc: seq<nat>, rest: string) returns (points: seq<nat>)
    requires ReadItems(s, acc).Some? && Eat(ReadItems(s, acc).value.1, ']') == Some(rest)
    ensures ReadItems(s, acc).value.0 == acc + points && ItemsAt(s, points, rest, false)
    decreases |s|
  {
    hide NumberAt, Token, ReadUint, Eat;
    var v := ReadUint(s).value;
    NumberIs(s, v.0, v.1);
    var comma := Eat(v.1, ',');
    if comma.None? {
      points := [v.0];
      EatSkips(v.1, ']');
      EatIs(v.1, ']', rest);
      assert Followed(v.1, points, rest, false);
    } else {
      EatIs(v.1, ',', comma.value);
      var others := ItemsStand(comma.value, acc + [v.0], rest);
      points := [v.0] + others;
      assert points[1..] == others && acc + [v.0] + others == acc + points;
      NonEmpty(comma.value, others, rest);
      assert Followed(v.1, points, rest, false);
    }
  }

  lemma NonEmpty(s: string, points: seq<nat>, rest: string)
    requires ItemsAt(s, points, rest, false)
    ensures points != []
  {
  }

  lemma ListIs(s: string, points: seq<nat>, rest: string)
    ensures ReadList(s) == Some((points, rest)) <==> ListAt(s, points, rest, false)
  {
    hide Token, ItemsAt, ReadItems, Eat, Peek;
    if ReadList(s) == Some((points, rest)) { ListStands(s, points, rest); }
    if ListAt(s, points, rest, false) { ListRead(s, points, rest); }
  }

  lemma ListStands(s: string, points: seq<nat>, rest: string)
    requires ReadList(s) == Some((points, rest))
    ensures ListAt(s, points, rest, false)
  {
    hide Token, ItemsAt, ReadItems, Eat, Peek;
    var b := Eat(s, '[').value;
    EatIs(s, '[', b);
    PeekIs(b, ']');
    if Peek(b, ']') {
      EatSkips(b, ']');
      EatIs(b, ']', rest);
    } else {
      var ps := ItemsStand(b, [], rest);
      assert [] + ps == ps;
      NonEmpty(b, ps, rest);
    }
  }

  lemma ListRead(s: string, points: seq<nat>, rest: string)
    requires ListAt(s, points, rest, false)
    ensures ReadList(s) == Some((points, rest))
  {
    hide Token, ItemsAt, ReadItems, Eat, Peek;
    var b :| Token(s, '[', b, false) &&
      if points == [] then Token(b, ']', rest, false) else ItemsAt(b, points, rest, false);
    EatIs(s, '[', b);
    PeekIs(b, ']');
    if points == [] {
      EatIs(b, ']', rest);
      EatSkips(b, ']');
    } else {
      ItemsRead(b, [], points, rest);
      assert [] + points == points;
      NoBracket(b, points, rest);
    }
  }

  /** A list that is not empty does not begin with its end. */
  lemma NoBracket(s: string, points: seq<nat>, rest: string)
    requires ItemsAt(s, points, rest, false)
    ensures Eat(s, ']').None?
  {
    hide Gap, SkipWs, Worth;
    var m :| NumberAt(s, points[0], m, false) && Followed(m, points, rest, false);
    var w, d :| Gap(w, false) && Numeral(d, points[0]) && s == w + d + m;
    assert s == w + (d + m) && (d + m)[0] == d[0];
    SkipOver(w, d + m);
  }

  // ---------------------------------------------------------------- members

  /** The field of a key. */
  datatype Field = Number(n: nat) | Words(s: string) | Points(ps: seq<nat>)

  function FieldOf(p: Progress, schema: nat, k: Key): Field {
    match k
    case Schema => Number(schema)
    case Artifact => Words(p.artifact)
    case MissionId => Number(p.missionId)
    case RunIndex => Number(p.runIndex)
    case PointIndex => Number(p.pointIndex)
    case Completed => Points(p.completed)
    case State => Words(p.state)
    case UpdatedUtc => Words(p.updatedUtc)
  }

  function Got(a: Partial, k: Key): Field { FieldOf(a.record, a.schema, k) }

  /** Reading key `k` adds it, with the field of the record, and keeps the others. */
  ghost predicate Adds(a: Partial, b: Partial, k: Key) {
    k !in a.seen && b.seen == a.seen + {k} && forall j: Key :: j != k ==> Got(b, j) == Got(a, j)
  }

  lemma SpellingIs(k: Key)
    ensures Spelling(k) == KeyName(k)
  {
  }

  lemma KeyIs(name: string, k: Key)
    ensures KeyOf(name) == Some(k) <==> name == Spelling(k)
  {
    KeysNamed(k);
    SpellingIs(k);
    hide Spelling;
  }

  lemma SpellingSimple(k: Key)
    ensures Simple(Spelling(k))
  {
    hide Spelling, KeyName, Simple, Plain;
    SpellingIs(k);
    KeysPlain(k);
    PlainIs(KeyName(k));
  }

  lemma ValueStands(s: string, k: Key, a: Partial)
    requires ReadValue(s, k, a).Some?
    ensures var (b, rest) := ReadValue(s, k, a).value;
            Adds(a, b, k) && ValueAt(s, k, b.record, b.schema, rest, false)
  {
    hide NumberAt, StringAt, ListAt, ReadUint, ReadString, ReadList;
    var (b, rest) := ReadValue(s, k, a).value;
    if k == Completed { ListIs(s, b.record.completed, rest); }
    else if k == Artifact || k == State || k == UpdatedUtc { StringIs(s, Got(b, k).s, rest); }
    else { NumberIs(s, Got(b, k).n, rest); }
  }

  lemma ValueRead(s: string, k: Key, a: Partial, p: Progress, schema: nat, rest: string)
    requires ValueAt(s, k, p, schema, rest, false) && k !in a.seen
    ensures var r := ReadValue(s, k, a);
            r.Some? && r.value.1 == rest && Adds(a, r.value.0, k) && Got(r.value.0, k) == FieldOf(p, schema, k)
  {
    hide NumberAt, StringAt, ListAt, ReadUint, ReadString, ReadList;
    if k == Completed { ListIs(s, p.completed, rest); }
    else if k == Artifact || k == State || k == UpdatedUtc { StringIs(s, FieldOf(p, schema, k).s, rest); }
    else { NumberIs(s, FieldOf(p, schema, k).n, rest); }
  }

  lemma MemberStands(s: string, a: Partial) returns (k: Key)
    requires ReadMember(s, a).Ok?
    ensures var (b, rest) := ReadMember(s, a).value;
            Adds(a, b, k) && MemberAt(s, k, b.record, b.schema, rest, false)
  {
    hide ReadString, Eat, ReadValue, StringAt, Token, ValueAt, KeyOf, Spelling, Adds;
    var name := ReadString(s).value;
    var colon := Eat(name.1, ':').value;
    k := KeyOf(name.0).value;
    KeyIs(name.0, k);
    StringIs(s, name.0, name.1);
    EatIs(name.1, ':', colon);
    ValueStands(colon, k, a);
  }

  lemma MemberRead(s: string, k: Key, a: Partial, p: Progress, schema: nat, rest: string)
    requires MemberAt(s, k, p, schema, rest, false) && k !in a.seen
    ensures var r := ReadMember(s, a);
            r.Ok? && r.value.1 == rest && Adds(a, r.value.0, k) && Got(r.value.0, k) == FieldOf(p, schema, k)
  {
    hide ReadString, Eat, ReadValue, StringAt, Token, ValueAt, KeyOf, Spelling, Adds, Got, FieldOf;
    var m, c :|
      StringAt(s, Spelling(k), m, false) && Token(m, ':', c, false) && ValueAt(c, k, p, schema, rest, false);
    KeyIs(Spelling(k), k);
    StringIs(s, Spelling(k), m);
    EatIs(m, ':', c);
    ValueRead(c, k, a, p, schema, rest);
  }

  /** A value stands for another record with the same field. */
  lemma MemberSame(s: string, k: Key, p: Progress, n: nat, q: Progress, m: nat, rest: string)
    requires MemberAt(s, k, p, n, rest, false) && FieldOf(p, n, k) == FieldOf(q, m, k)
    ensures MemberAt(s, k, q, m, rest, false)
  {
    hide StringAt, Token, NumberAt, ListAt, Spelling;
    var x, c :| StringAt(s, Spelling(k), x, false) && Token(x, ':', c, false) && ValueAt(c, k, p, n, rest, false);
    assert ValueAt(c, k, q, m, rest, false);
  }

  /** The members `ks`, none of them seen before, were read after `a` and give `b`. */
  ghost predicate Grown(a: Partial, ks: seq<Key>, b: Partial) {
    && (forall i: nat :: i < |ks| ==> ks[i] !in a.seen)
    && (forall i: nat, j: nat :: i < j < |ks| ==> ks[i] != ks[j])
    && (forall k: Key :: k in b.seen <==> k in a.seen || k in ks)
    && (forall k: Key :: k !in ks ==> Got(b, k) == Got(a, k))
  }

  lemma GrownMore(a: Partial, k: Key, m: Partial, ks: seq<Key>, b: Partial)
    requires Adds(a, m, k) && Grown(m, ks, b)
    ensures Grown(a, [k] + ks, b) && Got(b, k) == Got(m, k)
  {
    hide Got;
    var all := [k] + ks;
    assert forall i: nat :: 0 < i < |all| ==> all[i] == ks[i - 1];
    assert k in m.seen;
  }

  lemma {:induction false} MembersStand(s: string, first: bool, a: Partial, rest: string) returns (ks: seq<Key>)
    requires ReadMembers(s, first, a).Ok? && Eat(ReadMembers(s, first, a).value.1, '}') == Some(rest)
    ensures var b := ReadMembers(s, first, a).value.0;
            Grown(a, ks, b) && MembersAt(s, first, ks, b.record, b.schema, rest, false)
    decreases |s|
  {
    hide ReadMember, Eat, Peek, Token, MemberAt, Got;
    PeekIs(s, '}');
    ks := [];
    if Peek(s, '}') {
      EatSkips(s, '}');
      EatIs(s, '}', rest);
    } else {
      var start := if first then s else Eat(s, ',').value;
      if !first { EatIs(s, ',', start); }
      var (m, after) := ReadMember(start, a).value;
      var b := ReadMembers(after, false, m).value.0;
      var k := MemberStands(start, a);
      var more := MembersStand(after, false, m, rest);
      GrownMore(a, k, m, more, b);
      ks := [k] + more;
      assert ks[0] == k && ks[1..] == more;
      assert Got(b, k) == Got(m, k);
      SameField(start, k, m, b, after);
    }
  }

  lemma SameField(s: string, k: Key, m: Partial, b: Partial, rest: string)
    requires MemberAt(s, k, m.record, m.schema, rest, false) && Got(b, k) == Got(m, k)
    ensures MemberAt(s, k, b.record, b.schema, rest, false)
  {
    hide MemberAt;
    MemberSame(s, k, m.record, m.schema, b.record, b.schema, rest);
  }

  lemma {:induction false} MembersRead(s: string, first: bool, ks: seq<Key>, a: Partial, p: Progress, schema: nat,
                                       rest: string)
    requires MembersAt(s, first, ks, p, schema, rest, false)
    requires forall i: nat :: i < |ks| ==> ks[i] !in a.seen
    requires forall i: nat, j: nat :: i < j < |ks| ==> ks[i] != ks[j]
    ensures var r := ReadMembers(s, first, a);
            && r.Ok? && Eat(r.value.1, '}') == Some(rest) && Grown(a, ks, r.value.0)
            && forall k :: k in ks ==> Got(r.value.0, k) == FieldOf(p, schema, k)
    decreases |ks|
  {
    hide ReadMember, Eat, Peek, Token, MemberAt, Got, FieldOf;
    PeekIs(s, '}');
    if ks == [] {
      EatIs(s, '}', rest);
      EatSkips(s, '}');
    } else {
      var start, after :|
        Opens(s, first, start, false) && MemberAt(start, ks[0], p, schema, after, false) &&
        MembersAt(after, false, ks[1..], p, schema, rest, false);
      MemberBegins(start, ks[0], p, schema, after);
      if !first {
        EatIs(s, ',', start);
        OnlyOne(s, ',', '}');
      } else {
        OnlyOne(s, '"', '}');
      }
      var k := ks[0];
      MemberRead(start, k, a, p, schema, after);
      var m := ReadMember(start, a).value.0;
      assert m.seen == a.seen + {k};
      assert forall i: nat :: i < |ks[1..]| ==> ks[1..][i] == ks[i + 1];
      MembersRead(after, false, ks[1..], m, p, schema, rest);
      GrownMore(a, k, m, ks[1..], ReadMembers(after, false, m).value.0);
      assert [k] + ks[1..] == ks;
    }
  }

  lemma MemberBegins(s: string, k: Key, p: Progress, schema: nat, rest: string)
    requires MemberAt(s, k, p, schema, rest, false)
    ensures Eat(s, '"').Some?
  {
    hide Token, ValueAt, Spelling, Eat, Simple;
    var m, c :|
      StringAt(s, Spelling(k), m, false) && Token(m, ':', c, false) && ValueAt(c, k, p, schema, rest, false);
    var b :| Token(s, '"', b, false) && b == Spelling(k) + ['"'] + m;
    EatIs(s, '"', b);
  }

  // ---------------------------------------------------------------- whole texts

  lemma BlankEnd(rest: string)
    ensures SkipWs(rest) == [] <==> Gap(rest, false)
  {
    var w := SkipIs(rest);
    if Gap(rest, false) {
      SkipOver(rest, []);
      assert rest + [] == rest;
    } else {
      assert SkipWs(rest) == [] ==> rest == w + [];
    }
  }

  /** A text is read as this record exactly when it is an object with each of the eight keys once, in any order and
      with any blanks between the tokens, nothing after it but blanks, whose values are those of the record with schema
      number 1, and the record can have been written. */
  lemma AcceptsExactly(s: string, p: Progress)
    ensures Parse(s) == Ok(p) <==>
              Record(p) && exists ks, rest :: AllKeys(ks) && Document(s, ks, p, 1, rest, false) && Gap(rest, false)
  {
    hide Document, Record, AllKeys, Gap, Parse;
    if Parse(s) == Ok(p) { var ks, rest := Accepted(s, p); }
    if Record(p) {
      if ks, rest :| AllKeys(ks) && Document(s, ks, p, 1, rest, false) && Gap(rest, false) {
        Accepts(s, p, ks, rest);
      }
    }
  }

  lemma Accepted(s: string, p: Progress) returns (ks: seq<Key>, rest: string)
    requires Parse(s) == Ok(p)
    ensures Record(p) && AllKeys(ks) && Document(s, ks, p, 1, rest, false) && Gap(rest, false)
  {
    hide ReadMembers, Eat, Token, MembersAt, LowerHex64, KnownState, InOrder, Record, Gap, Grown, SkipWs;
    var body := Eat(s, '{').value;
    EatIs(s, '{', body);
    var (b, tail) := ReadMembers(body, true, NOTHING).value;
    ClosingLeft(body, true, NOTHING);
    rest := Eat(tail, '}').value;
    ks := MembersStand(body, true, NOTHING, rest);
    BlankEnd(rest);
    GrownAll(ks, b);
    AcceptedIsValid(s);
    RecordIs(p);
  }

  lemma {:induction false} ClosingLeft(s: string, first: bool, a: Partial)
    requires ReadMembers(s, first, a).Ok?
    ensures Eat(ReadMembers(s, first, a).value.1, '}').Some?
    decreases |s|
  {
    hide ReadMember, Eat, Peek;
    PeekIs(s, '}');
    if Peek(s, '}') {
      EatSkips(s, '}');
    } else {
      var start := if first then s else Eat(s, ',').value;
      var v := ReadMember(start, a).value;
      ClosingLeft(v.1, false, v.0);
    }
  }

  lemma GrownAll(ks: seq<Key>, b: Partial)
    requires Grown(NOTHING, ks, b)
    ensures AllKeys(ks) <==> b.seen == ALL_KEYS
  {
    hide Got;
    forall k: Key
      ensures k in ALL_KEYS
    {
      assert k == Schema || k == Artifact || k == MissionId || k == RunIndex || k == PointIndex || k == Completed ||
             k == State || k == UpdatedUtc;
    }
  }

  lemma Accepts(s: string, p: Progress, ks: seq<Key>, rest: string)
    requires Record(p) && AllKeys(ks) && Document(s, ks, p, 1, rest, false) && Gap(rest, false)
    ensures Parse(s) == Ok(p)
  {
    hide ReadMembers, Eat, Token, MembersAt, LowerHex64, KnownState, InOrder, Record, Gap, Grown, SkipWs, Got, FieldOf;
    var body :| Token(s, '{', body, false) && MembersAt(body, true, ks, p, 1, rest, false);
    EatIs(s, '{', body);
    MembersRead(body, true, ks, NOTHING, p, 1, rest);
    var (b, tail) := ReadMembers(body, true, NOTHING).value;
    GrownAll(ks, b);
    SameRecord(b, p);
    BlankEnd(rest);
    RecordIs(p);
  }

  lemma SameRecord(b: Partial, p: Progress)
    requires forall k: Key :: Got(b, k) == FieldOf(p, 1, k)
    ensures b.record == p && b.schema == 1
  {
    hide FieldOf;
    assert forall k: Key :: Got(b, k) == FieldOf(b.record, b.schema, k);
    FieldsDecide(b.record, b.schema, p, 1);
  }

  /** What is wrong with a whole object, in the order of the checks; None when nothing is. */
  ghost function Complaint(ks: seq<Key>, p: Progress, schema: nat, rest: string): Option<Error> {
    if !Gap(rest, false) then Some(TrailingBytes)
    else if exists k: Key :: k !in ks then Some(MissingKey)
    else if schema != 1 then Some(UnsupportedSchema(schema))
    else if !LowerHex64(p.artifact) then Some(BadArtifact)
    else if !exists s: MissionFsm.State :: p.state == StateName(s) then Some(UnknownState)
    else if exists i: nat :: i < |p.completed| && p.completed[i] != i then Some(NotInOrder)
    else None
  }

  /** An object whose keys are distinct is answered by its first complaint; keys it does not have count as zero or
      empty. */
  lemma ObjectAnswered(s: string, ks: seq<Key>, p: Progress, schema: nat, rest: string)
    requires Document(s, ks, p, schema, rest, false)
    requires forall i: nat, j: nat :: i < j < |ks| ==> ks[i] != ks[j]
    requires forall k: Key :: k !in ks ==> FieldOf(p, schema, k) == FieldOf(Progress([], 0, 0, 0, [], [], []), 0, k)
    ensures var c := Complaint(ks, p, schema, rest);
            Parse(s) == if c.Some? then Err(c.value) else Ok(p)
  {
    hide ReadMembers, Eat, Token, MembersAt, LowerHex64, KnownState, Gap, SkipWs, Got, FieldOf, StateName;
    var body :| Token(s, '{', body, false) && MembersAt(body, true, ks, p, schema, rest, false);
    EatIs(s, '{', body);
    MembersRead(body, true, ks, NOTHING, p, schema, rest);
    var (b, tail) := ReadMembers(body, true, NOTHING).value;
    SeenAll(ks, b);
    FieldsSame(ks, b, p, schema);
    BlankEnd(rest);
    StateKnown(p.state);
  }

  lemma SeenAll(ks: seq<Key>, b: Partial)
    requires Grown(NOTHING, ks, b)
    ensures b.seen == ALL_KEYS <==> forall k: Key :: k in ks
  {
    hide Got;
    GrownAll(ks, b);
  }

  lemma FieldsSame(ks: seq<Key>, b: Partial, p: Progress, schema: nat)
    requires Grown(NOTHING, ks, b) && forall k :: k in ks ==> Got(b, k) == FieldOf(p, schema, k)
    requires forall k: Key :: k !in ks ==> FieldOf(p, schema, k) == FieldOf(Progress([], 0, 0, 0, [], [], []), 0, k)
    ensures b.record == p && b.schema == schema
  {
    hide FieldOf;
    forall k: Key
      ensures Got(b, k) == FieldOf(p, schema, k)
    {
      if k !in ks { assert Got(b, k) == Got(NOTHING, k); }
    }
    FieldsDecide(b.record, b.schema, p, schema);
  }

  lemma FieldsDecide(p: Progress, n: nat, q: Progress, m: nat)
    requires forall k: Key :: FieldOf(p, n, k) == FieldOf(q, m, k)
    ensures p == q && n == m
  {
    assert FieldOf(p, n, Schema) == FieldOf(q, m, Schema) && FieldOf(p, n, Artifact) == FieldOf(q, m, Artifact);
    assert FieldOf(p, n, MissionId) == FieldOf(q, m, MissionId) && FieldOf(p, n, RunIndex) == FieldOf(q, m, RunIndex);
    assert FieldOf(p, n, PointIndex) == FieldOf(q, m, PointIndex);
    assert FieldOf(p, n, Completed) == FieldOf(q, m, Completed);
    assert FieldOf(p, n, State) == FieldOf(q, m, State) && FieldOf(p, n, UpdatedUtc) == FieldOf(q, m, UpdatedUtc);
  }

  // ---------------------------------------------------------------- writing

  const ORDER: seq<Key> := [Schema, Artifact, MissionId, RunIndex, PointIndex, Completed, State, UpdatedUtc]

  lemma {:induction false} DigitsNumeral(n: nat)
    ensures AllDigits(Digits(n)) && DecimalValue(Digits(n)) == n
  {
    if n >= 10 {
      DigitsNumeral(n / 10);
      ValueOne(Digits(n / 10), ('0' as int + n % 10) as char);
    } else {
      OneDigit(n);
    }
  }

  lemma OneDigit(n: nat)
    requires n < 10
    ensures AllDigits(Digits(n)) && DecimalValue(Digits(n)) == n
  {
    var d := ('0' as int + n % 10) as char;
    assert Digits(n) == [d] && [d][..0] == [];
    ValueOne([], d);
    assert [] + [d] == [d];
  }

  lemma TokenHere(c: char, rest: string)
    ensures Token([c] + rest, c, rest, true)
  {
    assert Gap([], true);
    assert [c] + rest == [] + [c] + rest;
  }

  lemma NumberHere(n: nat, rest: string)
    requires n <= UINT32_MAX && (rest == [] || !Numeric(rest[0]))
    ensures NumberAt(Digits(n) + rest, n, rest, true)
  {
    hide DecimalValue, Worth, Digits;
    DigitsNumeral(n);
    DigitsShape(n);
    NumeralIs(Digits(n));
    assert Gap([], true);
    assert Digits(n) + rest == [] + Digits(n) + rest;
  }

  lemma StringHere(v: string, rest: string)
    requires Simple(v)
    ensures StringAt(Quoted(v) + rest, v, rest, true)
  {
    hide Simple, Token;
    var b := v + ['"'] + rest;
    TokenHere('"', b);
    assert Quoted(v) + rest == ['"'] + b;
  }

  lemma {:induction false} ItemsHere(points: seq<nat>, rest: string)
    requires points != [] && Small(points)
    ensures ItemsAt(Items(points) + ("]" + rest), points, rest, true)
    decreases |points|
  {
    hide NumberAt, Token, Digits;
    TokenHere(']', rest);
    if |points| == 1 {
      NumberHere(points[0], "]" + rest);
      assert Followed("]" + rest, points, rest, true);
    } else {
      var tail := Items(points[1..]) + ("]" + rest);
      ItemsHere(points[1..], rest);
      TokenHere(',', tail);
      assert Followed("," + tail, points, rest, true);
      NumberHere(points[0], "," + tail);
      assert Items(points) + ("]" + rest) == Digits(points[0]) + ("," + tail);
    }
  }

  lemma ListHere(points: seq<nat>, rest: string)
    requires Small(points)
    ensures ListAt("[" + Items(points) + "]" + rest, points, rest, true)
  {
    hide ItemsAt, Token, Items;
    var b := Items(points) + ("]" + rest);
    TokenHere('[', b);
    assert "[" + Items(points) + "]" + rest == "[" + b;
    if points == [] {
      NoItems(points);
      TokenHere(']', rest);
      assert b == "]" + rest;
    } else {
      ItemsHere(points, rest);
    }
  }

  /** What can be written so that it can be read: values of 32 bits and ordinary characters. */
  predicate Writable(p: Progress) {
    FitsWidths(p) && Simple(p.artifact) && Simple(p.state) && Simple(p.updatedUtc)
  }

  lemma ValueHere(p: Progress, k: Key, rest: string)
    requires Writable(p) && rest != [] && !Numeric(rest[0])
    ensures ValueAt(ValueText(p, k) + rest, k, p, 1, rest, true)
  {
    hide NumberAt, StringAt, ListAt, Digits, Items, Quoted, Simple, Small;
    match k
    case Schema => NumberHere(1, rest);
    case Artifact => StringHere(p.artifact, rest);
    case MissionId => NumberHere(p.missionId, rest);
    case RunIndex => NumberHere(p.runIndex, rest);
    case PointIndex => NumberHere(p.pointIndex, rest);
    case Completed => ListHere(p.completed, rest);
    case State => StringHere(p.state, rest);
    case UpdatedUtc => StringHere(p.updatedUtc, rest);
  }

  lemma MemberHere(p: Progress, k: Key, rest: string)
    requires Writable(p) && rest != [] && !Numeric(rest[0])
    ensures MemberAt(Quoted(KeyName(k)) + (":" + (ValueText(p, k) + rest)), k, p, 1, rest, true)
  {
    hide StringAt, Token, ValueAt, Spelling, KeyName, Quoted, ValueText, Writable;
    var c := ValueText(p, k) + rest;
    SpellingIs(k);
    SpellingSimple(k);
    StringHere(Spelling(k), ":" + c);
    TokenHere(':', c);
    ValueHere(p, k, rest);
  }

  lemma MembersUnfold(p: Progress, i: nat)
    requires i < 8
    ensures var body := Quoted(KeyName(KeyAt(i))) + (":" + (ValueText(p, KeyAt(i)) + Members(p, i + 1)));
            Members(p, i) == if i == 0 then body else "," + body
  {
    hide ValueText, KeyName, Quoted, KeyAt;
    if i == 0 {
      var body := Quoted(KeyName(KeyAt(i))) + (":" + (ValueText(p, KeyAt(i)) + Members(p, i + 1)));
      assert "" + body == body;
    }
  }

  lemma {:induction false} MembersHere(p: Progress, i: nat)
    requires Writable(p) && i <= 8
    ensures MembersAt(Members(p, i), i == 0, ORDER[i..], p, 1, "\n", true)
    decreases 8 - i
  {
    hide MemberAt, Token, ValueText, KeyName, Quoted, Writable, Members;
    if i == 8 {
      LastMember(p, i);
    } else {
      var k := ORDER[i];
      var rest := Members(p, i + 1);
      var body := Quoted(KeyName(k)) + (":" + (ValueText(p, k) + rest));
      assert KeyAt(i) == k;
      MembersUnfold(p, i);
      MembersStart(p, i + 1);
      MemberHere(p, k, rest);
      MembersHere(p, i + 1);
      if i > 0 { TokenHere(',', body); }
      MembersFold(Members(p, i), i == 0, body, k, rest, ORDER[i..], p);
    }
  }

  lemma LastMember(p: Progress, i: nat)
    requires i == 8
    ensures MembersAt(Members(p, i), i == 0, ORDER[i..], p, 1, "\n", true)
  {
    TokenHere('}', "\n");
    assert "}\n" == ['}'] + "\n";
  }

  lemma MembersFold(s: string, first: bool, body: string, k: Key, rest: string, ks: seq<Key>, p: Progress)
    requires ks != [] && ks[0] == k && Opens(s, first, body, true) && MemberAt(body, k, p, 1, rest, true)
    requires MembersAt(rest, false, ks[1..], p, 1, "\n", true)
    ensures MembersAt(s, first, ks, p, 1, "\n", true)
  {
    hide Opens, MemberAt;
  }

  /** A record is written as one line: the object with its eight members in this order, without blanks, and a line
      feed. */
  lemma WrittenExactly(p: Progress)
    requires Writable(p)
    ensures Document(Serialize(p), ORDER, p, 1, "\n", true)
  {
    hide MembersAt, Members, Writable, Token;
    MembersHere(p, 0);
    assert ORDER[0..] == ORDER;
    TokenHere('{', Members(p, 0));
  }
}
