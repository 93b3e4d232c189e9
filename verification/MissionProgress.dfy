/** The persisted progress record of a mission: its one-line JSON text and the strict reader of it.
    Readers take the text that is still unread and return what is left of it. */
module MissionProgress {
  import opened Common

  const UINT32_MAX: nat := 0xffff_ffff
  const UINT64: nat := 0x1_0000_0000_0000_0000
  const SCHEMA: nat := 1

  datatype Progress = Progress(
    artifact: string,
    missionId: nat,
    runIndex: nat,
    pointIndex: nat,
    completed: seq<nat>,
    state: string,
    updatedUtc: string)

  datatype Key = Schema | Artifact | MissionId | RunIndex | PointIndex | Completed | State | UpdatedUtc

  datatype Error =
    | NotAnObject | ExpectedComma | ExpectedKey | UnknownKey(name: string) | BadValue(key: Key) | TrailingBytes
    | MissingKey | UnsupportedSchema(schema: nat) | BadArtifact | UnknownState | NotInOrder

  datatype Result<T> = Ok(value: T) | Err(error: Error)

  // ---------------------------------------------------------------- validity

  predicate IsDigit(c: char) { '0' <= c <= '9' }

  predicate LowerHex64(s: string) {
    |s| == 64 && forall i :: 0 <= i < |s| ==> IsDigit(s[i]) || 'a' <= s[i] <= 'f'
  }

  predicate KnownState(s: string) {
    s == "IDLE" || s == "LOADING" || s == "READY" || s == "RUNNING" || s == "PAUSED" || s == "COMPLETED" ||
    s == "ABORTED" || s == "ERROR" || s == "PLACING" || s == "ARMING" || s == "ENGAGING"
  }

  /** What a string may hold unescaped, and what the reader takes. */
  predicate Printable(c: char) { ' ' <= c <= '~' && c != '\\' }

  predicate Plain(s: string) {
    forall i :: 0 <= i < |s| ==> Printable(s[i]) && s[i] != '"'
  }

  predicate InOrder(points: seq<nat>) {
    forall i :: 0 <= i < |points| ==> points[i] == i
  }

  predicate Small(points: seq<nat>) {
    forall i :: 0 <= i < |points| ==> points[i] <= UINT32_MAX
  }

  /** The field widths of the record. */
  predicate FitsWidths(p: Progress) {
    p.missionId <= UINT32_MAX && p.runIndex <= UINT32_MAX && p.pointIndex <= UINT32_MAX && Small(p.completed)
  }

  predicate Valid(p: Progress) {
    && FitsWidths(p)
    && LowerHex64(p.artifact) && KnownState(p.state) && Plain(p.updatedUtc) && InOrder(p.completed)
  }

  // ---------------------------------------------------------------- writing

  function KeyName(k: Key): string {
    match k
    case Schema => "schema"
    case Artifact => "path_artifact_sha256"
    case MissionId => "mission_id"
    case RunIndex => "run_index"
    case PointIndex => "point_index"
    case Completed => "completed_points"
    case State => "state"
    case UpdatedUtc => "updated_utc"
  }

  /** Decimal digits without leading zeros. */
  function Digits(n: nat): string {
    (if n < 10 then [] else Digits(n / 10)) + [('0' as int + n % 10) as char]
  }

  function Quoted(s: string): string { "\"" + s + "\"" }

  function Items(points: seq<nat>): string
  {
    if points == [] then []
    else if |points| == 1 then Digits(points[0])
    else Digits(points[0]) + "," + Items(points[1..])
  }

  function ValueText(p: Progress, k: Key): string {
    match k
    case Schema => Digits(SCHEMA)
    case Artifact => Quoted(p.artifact)
    case MissionId => Digits(p.missionId)
    case RunIndex => Digits(p.runIndex)
    case PointIndex => Digits(p.pointIndex)
    case Completed => "[" + Items(p.completed) + "]"
    case State => Quoted(p.state)
    case UpdatedUtc => Quoted(p.updatedUtc)
  }

  /** The position of a key in a written record. */
  function Rank(k: Key): nat {
    match k
    case Schema => 0
    case Artifact => 1
    case MissionId => 2
    case RunIndex => 3
    case PointIndex => 4
    case Completed => 5
    case State => 6
    case UpdatedUtc => 7
  }

  function KeyAt(i: nat): (k: Key)
    requires i < 8
    ensures Rank(k) == i
  {
    if i == 0 then Schema else if i == 1 then Artifact else if i == 2 then MissionId else if i == 3 then RunIndex
    else if i == 4 then PointIndex else if i == 5 then Completed else if i == 6 then State else UpdatedUtc
  }

  /** The members from number `i` on, and the end of the object. */
  function Members(p: Progress, i: nat): string
    requires i <= 8
    decreases 8 - i
  {
    if i == 8 then "}\n"
    else
      (if i == 0 then "" else ",") +
      (Quoted(KeyName(KeyAt(i))) + (":" + (ValueText(p, KeyAt(i)) + Members(p, i + 1))))
  }

  function Serialize(p: Progress): string { "{" + Members(p, 0) }

  // ---------------------------------------------------------------- reading

  predicate IsSpace(c: char) { c == ' ' || c == '\n' || c == '\t' || c == '\r' }

  function SkipWs(s: string): (r: string)
    ensures |r| <= |s|
  {
    if s != [] && IsSpace(s[0]) then SkipWs(s[1..]) else s
  }

  predicate Peek(s: string, c: char) { var r := SkipWs(s); r != [] && r[0] == c }

  function Eat(s: string, c: char): (r: Option<string>)
    ensures r.Some? ==> |r.value| < |s|
  {
    if Peek(s, c) then Some(SkipWs(s)[1..]) else None
  }

  /** The characters up to the closing quote. */
  function UpToQuote(s: string, acc: string): (r: Option<(string, string)>)
    ensures r.Some? ==> |r.value.1| < |s|
  {
    if s == [] then None
    else if s[0] == '"' then Some((acc, s[1..]))
    else if !Printable(s[0]) then None
    else UpToQuote(s[1..], acc + [s[0]])
  }

  function ReadString(s: string): (r: Option<(string, string)>)
    ensures r.Some? ==> |r.value.1| < |s|
  {
    match Eat(s, '"')
    case None => None
    case Some(body) => UpToQuote(body, [])
  }

  function Digit(c: char): nat
    requires IsDigit(c)
  {
    c as int - '0' as int
  }

  /** One decimal step of the accumulator, in 64 bits. */
  function Step(v: nat, c: char): nat
    requires IsDigit(c)
  {
    (v * 10 + Digit(c)) % UINT64
  }

  /** The decimal accumulator. */
  function Accumulate(s: string, v: nat): (r: Option<(nat, string)>)
    ensures r.Some? ==> |r.value.1| <= |s|
  {
    if s == [] || !IsDigit(s[0]) then Some((v, s))
    else
      var w := Step(v, s[0]);
      if w > UINT32_MAX then None else Accumulate(s[1..], w)
  }

  function ReadUint(s: string): (r: Option<(nat, string)>)
    ensures r.Some? ==> |r.value.1| < |s|
  {
    var start := SkipWs(s);
    match Accumulate(start, 0)
    case None => None
    case Some(a) =>
      var len := |start| - |a.1|;
      if len == 0 || (len > 1 && start[0] == '0') then None else Some(a)
  }

  /** One or more numbers separated by commas. */
  function ReadItems(s: string, acc: seq<nat>): (r: Option<(seq<nat>, string)>)
    ensures r.Some? ==> |r.value.1| < |s|
    decreases |s|
  {
    match ReadUint(s)
    case None => None
    case Some(v) =>
      match Eat(v.1, ',')
      case None => Some((acc + [v.0], SkipWs(v.1)))
      case Some(rest) => ReadItems(rest, acc + [v.0])
  }

  function ReadList(s: string): (r: Option<(seq<nat>, string)>)
    ensures r.Some? ==> |r.value.1| < |s|
  {
    match Eat(s, '[')
    case None => None
    case Some(body) =>
      var items := if Peek(body, ']') then Some(([], SkipWs(body))) else ReadItems(body, []);
      if items.None? then None
      else
        match Eat(items.value.1, ']')
        case None => None
        case Some(rest) => Some((items.value.0, rest))
  }

  function KeyOf(name: string): Option<Key> {
    if name == "schema" then Some(Schema)
    else if name == "path_artifact_sha256" then Some(Artifact)
    else if name == "mission_id" then Some(MissionId)
    else if name == "run_index" then Some(RunIndex)
    else if name == "point_index" then Some(PointIndex)
    else if name == "completed_points" then Some(Completed)
    else if name == "state" then Some(State)
    else if name == "updated_utc" then Some(UpdatedUtc)
    else None
  }

  /** What has been read so far. */
  datatype Partial = Partial(seen: set<Key>, schema: nat, record: Progress)

  const NOTHING := Partial({}, 0, Progress([], 0, 0, 0, [], [], []))

  function WithNumber(a: Partial, k: Key, n: nat): Partial {
    match k
    case Schema => a.(schema := n)
    case MissionId => a.(record := a.record.(missionId := n))
    case RunIndex => a.(record := a.record.(runIndex := n))
    case PointIndex => a.(record := a.record.(pointIndex := n))
    case _ => a
  }

  function WithString(a: Partial, k: Key, s: string): Partial {
    match k
    case Artifact => a.(record := a.record.(artifact := s))
    case State => a.(record := a.record.(state := s))
    case UpdatedUtc => a.(record := a.record.(updatedUtc := s))
    case _ => a
  }

  /** The value of key `k`, at most once. */
  function ReadValue(s: string, k: Key, a: Partial): (r: Option<(Partial, string)>)
    ensures r.Some? ==> |r.value.1| < |s|
  {
    if k in a.seen then None
    else
      var b := a.(seen := a.seen + {k});
      if k == Completed then
        match ReadList(s)
        case None => None
        case Some(v) => Some((b.(record := b.record.(completed := v.0)), v.1))
      else if k == Artifact || k == State || k == UpdatedUtc then
        match ReadString(s)
        case None => None
        case Some(v) => Some((WithString(b, k, v.0), v.1))
      else
        match ReadUint(s)
        case None => None
        case Some(v) => Some((WithNumber(b, k, v.0), v.1))
  }

  /** The key, colon and value of one member. */
  function ReadMember(s: string, a: Partial): (r: Result<(Partial, string)>)
    ensures r.Ok? ==> |r.value.1| < |s|
  {
    var name := ReadString(s);
    if name.None? then Err(ExpectedKey)
    else
      var colon := Eat(name.value.1, ':');
      if colon.None? then Err(ExpectedKey)
      else
        var k := KeyOf(name.value.0);
        if k.None? then Err(UnknownKey(name.value.0))
        else
          var v := ReadValue(colon.value, k.value, a);
          if v.None? then Err(BadValue(k.value)) else Ok(v.value)
  }

  /** The members up to the closing brace, which is left unread. */
  function ReadMembers(s: string, first: bool, a: Partial): (r: Result<(Partial, string)>)
    decreases |s|
  {
    if Peek(s, '}') then Ok((a, SkipWs(s)))
    else
      var start := if first then Some(s) else Eat(s, ',');
      if start.None? then Err(ExpectedComma)
      else
        match ReadMember(start.value, a)
        case Err(e) => Err(e)
        case Ok(v) => ReadMembers(v.1, false, v.0)
  }

  const ALL_KEYS: set<Key> := {Schema, Artifact, MissionId, RunIndex, PointIndex, Completed, State, UpdatedUtc}

  function Checked(a: Partial, rest: string): Result<Progress> {
    if SkipWs(rest) != [] then Err(TrailingBytes)
    else if a.seen != ALL_KEYS then Err(MissingKey)
    else if a.schema != SCHEMA then Err(UnsupportedSchema(a.schema))
    else if !LowerHex64(a.record.artifact) then Err(BadArtifact)
    else if !KnownState(a.record.state) then Err(UnknownState)
    else if !InOrder(a.record.completed) then Err(NotInOrder)
    else Ok(a.record)
  }

  function Parse(s: string): Result<Progress> {
    match Eat(s, '{')
    case None => Err(NotAnObject)
    case Some(body) =>
      match ReadMembers(body, true, NOTHING)
      case Err(e) => Err(e)
      case Ok(v) =>
        var closed := Eat(v.1, '}');
        Checked(v.0, if closed.Some? then closed.value else v.1)
  }

  // ---------------------------------------------------------------- numbers

  /** On 32-bit values the 64-bit step is exact. */
  lemma StepExact(v: nat, c: char)
    requires v <= UINT32_MAX && IsDigit(c)
    ensures Step(v, c) == v * 10 + Digit(c)
  {
  }

  /** The value of a run of digits. */
  function DecimalValue(s: string): nat
    requires AllDigits(s)
  {
    if s == [] then 0 else DecimalValue(s[..|s| - 1]) * 10 + Digit(s[|s| - 1])
  }

  /** The leading digits of a text. */
  function DigitRun(s: string): (n: nat)
    ensures n <= |s| && AllDigits(s[..n])
    ensures n < |s| ==> !IsDigit(s[n])
  {
    if s == [] || !IsDigit(s[0]) then 0
    else
      var n := DigitRun(s[1..]);
      assert s[..n + 1] == [s[0]] + s[1..][..n];
      n + 1
  }

  predicate AllDigits(s: string) { forall i :: 0 <= i < |s| ==> IsDigit(s[i]) }

  lemma AccumulateOne(s: string, v: nat)
    requires v <= UINT32_MAX
    ensures s == [] || !IsDigit(s[0]) ==> Accumulate(s, v) == Some((v, s))
    ensures s != [] && IsDigit(s[0]) ==>
              var w := v * 10 + Digit(s[0]);
              Accumulate(s, v) == if w > UINT32_MAX then None else Accumulate(s[1..], w)
  {
    if s != [] && IsDigit(s[0]) { StepExact(v, s[0]); }
  }

  lemma ValueOne(done: string, c: char)
    requires AllDigits(done) && IsDigit(c)
    ensures AllDigits(done + [c]) && DecimalValue(done + [c]) == DecimalValue(done) * 10 + Digit(c)
  {
    assert (done + [c])[..|done|] == done;
  }

  lemma RunOne(s: string)
    ensures DigitRun(s) == if s == [] || !IsDigit(s[0]) then 0 else 1 + DigitRun(s[1..])
  {
  }

  /** The digits read so far plus the unread ones: what the accumulator will hold, or that it is too big. */
  lemma {:induction false} AccumulateIsValue(done: string, s: string)
    requires AllDigits(done) && DecimalValue(done) <= UINT32_MAX
    ensures var n := DigitRun(s);
            && AllDigits(done + s[..n])
            && var v := DecimalValue(done + s[..n]);
               Accumulate(s, DecimalValue(done)) == if v <= UINT32_MAX then Some((v, s[n..])) else None
    decreases |s|
  {
    hide Accumulate, DecimalValue, DigitRun, Digit, IsDigit;
    var n := DigitRun(s);
    RunOne(s);
    AccumulateOne(s, DecimalValue(done));
    if n == 0 {
      assert done + s[..n] == done;
    } else {
      var one, rest := done + [s[0]], s[1..];
      ValueOne(done, s[0]);
      assert done + s[..n] == one + rest[..n - 1];
      if DecimalValue(one) <= UINT32_MAX {
        AccumulateIsValue(one, rest);
        assert rest[n - 1..] == s[n..];
      } else {
        ValueGrows(one, rest[..n - 1]);
      }
    }
  }

  lemma {:induction false} ValueGrows(s: string, t: string)
    requires AllDigits(s) && AllDigits(t)
    ensures AllDigits(s + t)
    ensures DecimalValue(s + t) >= DecimalValue(s)
  {
    if t == [] {
      assert s + t == s;
    } else {
      ValueGrows(s, t[..|t| - 1]);
      assert (s + t)[..|s + t| - 1] == s + t[..|t| - 1];
    }
  }

  /** A number is read exactly when its digits have no leading zero and denote a 32-bit value, and then that value
      is what is read: the 64-bit accumulator never wraps. */
  lemma UintExact(s: string)
    ensures var t := SkipWs(s);
            var n := DigitRun(t);
            ReadUint(s) ==
              if n == 0 || (n > 1 && t[0] == '0') || DecimalValue(t[..n]) > UINT32_MAX then None
              else Some((DecimalValue(t[..n]), t[n..]))
  {
    var t := SkipWs(s);
    AccumulateIsValue([], t);
    assert [] + t[..DigitRun(t)] == t[..DigitRun(t)];
  }

  // ---------------------------------------------------------------- round trip

  lemma {:induction false} DigitsAccumulate(n: nat, post: string)
    requires n <= UINT32_MAX
    ensures Accumulate(Digits(n) + post, 0) == Accumulate(post, n)
  {
    hide Step;
    var d := ('0' as int + n % 10) as char;
    var tail := [d] + post;
    assert tail[0] == d && tail[1..] == post && Digit(d) == n % 10;
    StepExact(n / 10, d);
    assert Accumulate(tail, n / 10) == Accumulate(post, n);
    if n < 10 {
      assert Digits(n) + post == tail;
    } else {
      DigitsAccumulate(n / 10, tail);
      assert Digits(n) + post == Digits(n / 10) + tail;
    }
  }

  lemma {:induction false} DigitsShape(n: nat)
    ensures |Digits(n)| >= 1 && IsDigit(Digits(n)[0])
    ensures Digits(n)[0] == '0' ==> n == 0 && |Digits(n)| == 1
  {
    if n >= 10 { DigitsShape(n / 10); }
  }

  /** A written number reads back, whatever follows that is not a digit. */
  lemma UintReadsBack(n: nat, post: string)
    requires n <= UINT32_MAX
    requires post != [] && !IsDigit(post[0])
    ensures ReadUint(Digits(n) + post) == Some((n, post))
  {
    DigitsShape(n);
    DigitsAccumulate(n, post);
    var s := Digits(n) + post;
    assert s[0] == Digits(n)[0];
    assert SkipWs(s) == s;
    assert |s| - |post| == |Digits(n)|;
  }

  lemma {:induction false} QuoteFound(done: string, s: string, post: string)
    requires Plain(s)
    ensures UpToQuote(s + "\"" + post, done) == Some((done + s, post))
    decreases |s|
  {
    var t := s + "\"" + post;
    if s == [] {
      assert t[0] == '"' && t[1..] == post && done + s == done;
    } else {
      assert t[0] == s[0] && t[1..] == s[1..] + "\"" + post;
      QuoteFound(done + [s[0]], s[1..], post);
      assert done + [s[0]] + s[1..] == done + s;
    }
  }

  lemma StringReadsBack(s: string, post: string)
    requires Plain(s)
    ensures ReadString(Quoted(s) + post) == Some((s, post))
  {
    var t := Quoted(s) + post;
    assert t[0] == '"' && SkipWs(t) == t;
    assert t[1..] == s + "\"" + post;
    QuoteFound([], s, post);
    assert [] + s == s;
  }

  lemma EatHere(c: char, post: string)
    requires !IsSpace(c)
    ensures Eat([c] + post, c) == Some(post) && SkipWs([c] + post) == [c] + post
    ensures forall d | d != c :: Eat([c] + post, d) == None && !Peek([c] + post, d)
  {
    var t := [c] + post;
    assert t[0] == c && SkipWs(t) == t && t[1..] == post;
  }

  lemma {:induction false} ItemsReadBack(done: seq<nat>, points: seq<nat>, post: string)
    requires points != [] && Small(points)
    ensures ReadItems(Items(points) + ("]" + post), done) == Some((done + points, "]" + post))
    decreases |points|
  {
    hide ReadUint, Eat, Digits;
    var tail := "]" + post;
    EatHere(']', post);
    if |points| == 1 {
      UintReadsBack(points[0], tail);
      assert done + [points[0]] == done + points;
    } else {
      var rest := Items(points[1..]) + tail;
      assert Items(points) + tail == Digits(points[0]) + ("," + rest);
      UintReadsBack(points[0], "," + rest);
      EatHere(',', rest);
      ItemsReadBack(done + [points[0]], points[1..], post);
      assert done + [points[0]] + points[1..] == done + points;
    }
  }

  lemma ItemsStart(points: seq<nat>)
    requires points != []
    ensures |Items(points)| >= 1 && IsDigit(Items(points)[0])
  {
    DigitsShape(points[0]);
  }

  lemma NoItems(points: seq<nat>)
    requires points == []
    ensures Items(points) == []
  {
  }

  lemma ListReadsBack(points: seq<nat>, post: string)
    requires Small(points)
    ensures ReadList("[" + Items(points) + "]" + post) == Some((points, post))
  {
    hide ReadItems, Items, Eat, Peek;
    var body := Items(points) + ("]" + post);
    assert "[" + Items(points) + "]" + post == "[" + body;
    EatHere('[', body);
    EatHere(']', post);
    if points == [] {
      assert Items(points) == [] by { NoItems(points); }
      assert body == "]" + post;
      PeekHere(body);
    } else {
      ItemsReadBack([], points, post);
      ItemsStart(points);
      assert body == [body[0]] + body[1..];
      EatHere(body[0], body[1..]);
      assert [] + points == points;
    }
  }

  lemma KeysNamed(k: Key)
    ensures KeyOf(KeyName(k)) == Some(k)
  {
    match k
    case PointIndex => assert KeyName(k)[0] == 'p';
    case UpdatedUtc => assert KeyName(k)[0] == 'u';
    case _ =>
  }

  lemma KeysPlain(k: Key)
    ensures Plain(KeyName(k))
  {
    hide Plain, KeyName;
    if k == Artifact || k == Completed { LongKeysPlain(k); } else { ShortKeysPlain(k); }
  }

  lemma LongKeysPlain(k: Key)
    requires k == Artifact || k == Completed
    ensures Plain(KeyName(k))
  {
  }

  lemma ShortKeysPlain(k: Key)
    requires k != Artifact && k != Completed
    ensures Plain(KeyName(k))
  {
  }

  /** What has been read after the first `i` members of a written record. */
  function ReadUpTo(p: Progress, i: nat): Partial
    requires i <= 8
  {
    Partial(set k: Key | Rank(k) < i,
            if i > 0 then SCHEMA else 0,
            Progress(if i > 1 then p.artifact else [], if i > 2 then p.missionId else 0,
                     if i > 3 then p.runIndex else 0, if i > 4 then p.pointIndex else 0,
                     if i > 5 then p.completed else [], if i > 6 then p.state else [],
                     if i > 7 then p.updatedUtc else []))
  }

  lemma SeenGrows(i: nat)
    requires i < 8
    ensures KeyAt(i) !in (set k: Key | Rank(k) < i)
    ensures (set k: Key | Rank(k) < i + 1) == (set k: Key | Rank(k) < i) + {KeyAt(i)}
  {
    forall k: Key | Rank(k) == i
      ensures k == KeyAt(i)
    {
    }
  }

  lemma NamesArePlain(p: Progress)
    requires Valid(p)
    ensures Plain(p.artifact) && Plain(p.state)
  {
    StateIsPlain(p.state);
  }

  lemma StateIsPlain(s: string)
    requires KnownState(s)
    ensures Plain(s)
  {
  }

  /** The written value of a key reads back into the record. */
  lemma ValueReadsBack(p: Progress, i: nat, post: string)
    requires Valid(p) && i < 8 && post != [] && !IsDigit(post[0])
    ensures ReadValue(ValueText(p, KeyAt(i)) + post, KeyAt(i), ReadUpTo(p, i)) == Some((ReadUpTo(p, i + 1), post))
  {
    hide ReadUint, ReadString, ReadList, Digits, Items, Quoted, Plain, LowerHex64, KnownState;
    SeenGrows(i);
    NamesArePlain(p);
    match KeyAt(i)
    case Schema => UintReadsBack(SCHEMA, post);
    case Artifact => StringReadsBack(p.artifact, post);
    case MissionId => UintReadsBack(p.missionId, post);
    case RunIndex => UintReadsBack(p.runIndex, post);
    case PointIndex => UintReadsBack(p.pointIndex, post);
    case Completed => ListReadsBack(p.completed, post);
    case State => StringReadsBack(p.state, post);
    case UpdatedUtc => StringReadsBack(p.updatedUtc, post);
  }

  lemma MembersStart(p: Progress, i: nat)
    requires 0 < i <= 8
    ensures Members(p, i) != [] && Members(p, i)[0] == (if i == 8 then '}' else ',')
  {
  }

  lemma MemberReadsBack(p: Progress, i: nat)
    requires Valid(p) && i < 8
    ensures var rest := Members(p, i + 1);
            ReadMember(Quoted(KeyName(KeyAt(i))) + (":" + (ValueText(p, KeyAt(i)) + rest)), ReadUpTo(p, i))
            == Ok((ReadUpTo(p, i + 1), rest))
  {
    hide ReadValue, ReadString, Eat, ValueText, Quoted, KeyName, Members, ReadUpTo, KeyOf, Valid;
    var k, rest := KeyAt(i), Members(p, i + 1);
    KeysNamed(k);
    KeysPlain(k);
    MembersStart(p, i + 1);
    StringReadsBack(KeyName(k), ":" + (ValueText(p, k) + rest));
    EatHere(':', ValueText(p, k) + rest);
    ValueReadsBack(p, i, rest);
  }

  lemma {:induction false} MembersReadBack(p: Progress, i: nat)
    requires Valid(p) && i <= 8
    ensures ReadMembers(Members(p, i), i == 0, ReadUpTo(p, i)) == Ok((ReadUpTo(p, 8), "}\n"))
    decreases 8 - i
  {
    hide ReadMember, Eat, Peek, ValueText, KeyName, ReadUpTo, Valid;
    if i == 8 {
      assert "}\n" == ['}'] + "\n";
      EatHere('}', "\n");
      assert Peek("}\n", '}') by { PeekHere("}\n"); }
    } else {
      MemberReadsBack(p, i);
      MembersReadBack(p, i + 1);
      var body := Quoted(KeyName(KeyAt(i))) + (":" + (ValueText(p, KeyAt(i)) + Members(p, i + 1)));
      if i == 0 {
        assert Members(p, 0) == body;
        assert body == ['"'] + body[1..];
        EatHere('"', body[1..]);
      } else {
        assert Members(p, i) == [','] + body;
        EatHere(',', body);
      }
    }
  }

  lemma PeekHere(s: string)
    requires s != [] && !IsSpace(s[0])
    ensures Peek(s, s[0])
  {
  }

  /** Parsing the serialisation of a valid record returns that record. */
  lemma RoundTrip(p: Progress)
    requires Valid(p)
    ensures Parse(Serialize(p)) == Ok(p)
  {
    hide ReadMembers, Members, Valid, LowerHex64, KnownState, InOrder;
    assert Serialize(p) == ['{'] + Members(p, 0);
    EatHere('{', Members(p, 0));
    assert ReadUpTo(p, 0) == NOTHING;
    MembersReadBack(p, 0);
    assert "}\n" == ['}'] + "\n";
    EatHere('}', "\n");
    assert SkipWs("\n") == [];
    AllSeen(p);
    ValidParts(p);
  }

  lemma AllSeen(p: Progress)
    ensures ReadUpTo(p, 8).seen == ALL_KEYS && ReadUpTo(p, 8).record == p && ReadUpTo(p, 8).schema == SCHEMA
  {
    forall k: Key
      ensures Rank(k) < 8 && k in ALL_KEYS
    {
      match k case _ =>
    }
    assert ReadUpTo(p, 8).seen == ALL_KEYS;
  }

  lemma ValidParts(p: Progress)
    requires Valid(p)
    ensures LowerHex64(p.artifact) && KnownState(p.state) && InOrder(p.completed)
  {
  }

  // ---------------------------------------------------------------- what is accepted

  lemma {:induction false} AccumulateSmall(s: string, v: nat)
    requires v <= UINT32_MAX
    ensures Accumulate(s, v).Some? ==> Accumulate(s, v).value.0 <= UINT32_MAX
    decreases |s|
  {
    if s != [] && IsDigit(s[0]) {
      var w := Step(v, s[0]);
      if w <= UINT32_MAX { AccumulateSmall(s[1..], w); }
    }
  }

  lemma {:induction false} ItemsSmall(s: string, acc: seq<nat>)
    requires Small(acc)
    ensures ReadItems(s, acc).Some? ==> Small(ReadItems(s, acc).value.0)
    decreases |s|
  {
    hide Accumulate;
    AccumulateSmall(SkipWs(s), 0);
    var v := ReadUint(s);
    if v.Some? && Eat(v.value.1, ',').Some? {
      ItemsSmall(Eat(v.value.1, ',').value, acc + [v.value.0]);
    }
  }

  lemma {:induction false} UpToQuotePlain(s: string, acc: string)
    requires Plain(acc)
    ensures UpToQuote(s, acc).Some? ==> Plain(UpToQuote(s, acc).value.0)
    decreases |s|
  {
    if s != [] && s[0] != '"' && Printable(s[0]) { UpToQuotePlain(s[1..], acc + [s[0]]); }
  }

  /** Whatever has been read fits its field. */
  predicate Fits(a: Partial) {
    FitsWidths(a.record) && Plain(a.record.updatedUtc)
  }

  lemma ReadFits(s: string, a: Partial)
    requires Fits(a)
    ensures ReadMember(s, a).Ok? ==> Fits(ReadMember(s, a).value.0)
  {
    hide Accumulate, UpToQuote, ReadItems, Small, Plain;
    var name := ReadString(s);
    if name.None? { return; }
    var colon := Eat(name.value.1, ':');
    if colon.None? || KeyOf(name.value.0).None? { return; }
    ValueFits(colon.value, KeyOf(name.value.0).value, a);
  }

  lemma ValueFits(s: string, k: Key, a: Partial)
    requires Fits(a)
    ensures ReadValue(s, k, a).Some? ==> Fits(ReadValue(s, k, a).value.0)
  {
    hide Accumulate, UpToQuote, ReadItems, Small, Plain;
    AccumulateSmall(SkipWs(s), 0);
    EmptyFits();
    if Eat(s, '"').Some? { UpToQuotePlain(Eat(s, '"').value, []); }
    if Eat(s, '[').Some? { ItemsSmall(Eat(s, '[').value, []); }
  }

  lemma EmptyFits()
    ensures Plain([]) && Small([])
  {
  }

  lemma {:induction false} MembersFit(s: string, first: bool, a: Partial)
    requires Fits(a)
    ensures ReadMembers(s, first, a).Ok? ==> Fits(ReadMembers(s, first, a).value.0)
    decreases |s|
  {
    hide Fits, ReadMember, Peek;
    if !Peek(s, '}') && (first || Eat(s, ',').Some?) {
      var start := if first then s else Eat(s, ',').value;
      ReadFits(start, a);
      var v := ReadMember(start, a);
      if v.Ok? { MembersFit(v.value.1, false, v.value.0); }
    }
  }

  /** Every accepted text holds a valid record. */
  lemma AcceptedIsValid(s: string)
    ensures Parse(s).Ok? ==> Valid(Parse(s).value)
  {
    hide ReadMembers, Eat, LowerHex64, KnownState, InOrder, Plain;
    var body := Eat(s, '{');
    EmptyFits();
    if body.Some? { MembersFit(body.value, true, NOTHING); }
  }

  /** Every accepted text re-serialises to a text that parses to the same record. */
  lemma Reserialised(s: string)
    ensures Parse(s).Ok? ==> Parse(Serialize(Parse(s).value)) == Parse(s)
  {
    hide *;
    AcceptedIsValid(s);
    if Parse(s).Ok? { RoundTrip(Parse(s).value); }
  }

  /** The valid records are exactly those that survive being written and read. */
  lemma SurvivesIffValid(p: Progress)
    ensures Parse(Serialize(p)) == Ok(p) <==> Valid(p)
  {
    hide *;
    AcceptedIsValid(Serialize(p));
    if Valid(p) { RoundTrip(p); }
  }
}
