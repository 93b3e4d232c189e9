/** The must-hit point journal: the closest approach to every must-hit vertex, in path order.
    Distances are compared by their squares, which order non-negative distances alike. */
module PointJournal {
  import opened Common

  datatype Position = Position(n: real, e: real)

  datatype PathPoint = PathPoint(at: Position, mustHit: bool)

  datatype Outcome =
    | Completed(at: Position, error2: real)   // closest approach and its squared distance
    | Skipped(planned: Position)
    | Failed(planned: Position)

  datatype PointEvent = PointEvent(index: nat, outcome: Outcome)

  /** Progress along the must-hit vertices. */
  datatype Journal = Journal(next: nat, capturing: bool, min2: real, minAt: Position)

  /** The vertices and the squared capture radius. */
  datatype Course = Course(vertices: seq<Position>, radius2: real) {
    function Distance2(p: Position, i: nat): real
      requires i < |vertices|
    {
      var dn, de := p.n - vertices[i].n, p.e - vertices[i].e;
      dn * dn + de * de
    }

    predicate Near(p: Position, i: nat)
      requires i < |vertices|
    {
      Distance2(p, i) <= radius2
    }
  }

  /** The distance is the Euclidean one: at an offset of (x, y) its square is x * x + y * y. */
  lemma DistanceIsEuclidean(c: Course, i: nat, x: real, y: real)
    requires i < |c.vertices|
    ensures var v := c.vertices[i]; c.Distance2(Position(v.n + x, v.e + y), i) == x * x + y * y
  {
    var v := c.vertices[i];
    assert v.n + x - v.n == x && v.e + y - v.e == y;
  }

  const NOWHERE := Position(0.0, 0.0)

  function Fresh(k: nat): Journal { Journal(k, false, 0.0, NOWHERE) }

  function Closed(j: Journal): Journal { j.(next := j.next + 1, capturing := false) }

  function CompleteCurrent(j: Journal): PointEvent { PointEvent(j.next, Completed(j.minAt, j.min2)) }

  function FailOne(c: Course, i: nat): PointEvent
    requires i < |c.vertices|
  {
    PointEvent(i, Failed(c.vertices[i]))
  }

  /** Re-evaluate one position until it resolves no further point. */
  function Settle(c: Course, j: Journal, p: Position): (Journal, seq<PointEvent>)
    decreases |c.vertices| - j.next
  {
    if j.next >= |c.vertices| then (j, [])
    else if !j.capturing then
      if j.next + 1 < |c.vertices| && c.Near(p, j.next + 1) && !c.Near(p, j.next) then
        var rest := Settle(c, j.(next := j.next + 1), p);
        (rest.0, [FailOne(c, j.next)] + rest.1)
      else if c.Near(p, j.next) then
        (Journal(j.next, true, c.Distance2(p, j.next), p), [])
      else (j, [])
    else if c.Near(p, j.next) then
      (if c.Distance2(p, j.next) < j.min2 then j.(min2 := c.Distance2(p, j.next), minAt := p) else j, [])
    else
      var rest := Settle(c, Closed(j), p);
      (rest.0, [CompleteCurrent(j)] + rest.1)
  }

  lemma SettleDone(c: Course, j: Journal, p: Position)
    requires j.next >= |c.vertices|
    ensures Settle(c, j, p) == (j, [])
  {
  }

  /** Fail everything from `i` on. */
  function FailFrom(c: Course, i: nat): seq<PointEvent>
    decreases |c.vertices| - i
  {
    if i >= |c.vertices| then [] else [FailOne(c, i)] + FailFrom(c, i + 1)
  }

  lemma NoneLeft(c: Course)
    ensures forall i: nat :: i >= |c.vertices| ==> FailFrom(c, i) == []
  {
  }

  /** A position (none when a coordinate is not finite), an operator skip, or the end of the path. */
  datatype Input = At(position: Option<Position>) | Skip | Finish

  function Apply(c: Course, j: Journal, i: Input): (Journal, seq<PointEvent>) {
    match i
    case At(None) => (j, [])
    case At(Some(p)) => Settle(c, j, p)
    case Skip =>
      if j.next >= |c.vertices| then (j, []) else (Closed(j), [PointEvent(j.next, Skipped(c.vertices[j.next]))])
    case Finish =>
      if j.next >= |c.vertices| then (j, [])
      else if j.capturing then
        (Closed(j).(next := |c.vertices|), [CompleteCurrent(j)] + FailFrom(c, j.next + 1))
      else (j.(next := |c.vertices|), FailFrom(c, j.next))
  }

  /** A whole run: the journal after the inputs, and everything it emitted. */
  function Run(c: Course, j: Journal, inputs: seq<Input>): (Journal, seq<PointEvent>) {
    if inputs == [] then (j, [])
    else
      var last := |inputs| - 1;
      var before := Run(c, j, inputs[..last]);
      var now := Apply(c, before.0, inputs[last]);
      (now.0, before.1 + now.1)
  }

  /** The finite positions of a run, in order. */
  function Seen(inputs: seq<Input>): seq<Position> {
    if inputs == [] then []
    else
      var last := |inputs| - 1;
      Seen(inputs[..last]) + NewlySeen(inputs[last])
  }

  function NewlySeen(i: Input): seq<Position> {
    if i.At? && i.position.Some? then [i.position.value] else []
  }

  // ---------------------------------------------------------------- evidence

  datatype Cause = Left | Bypassed | BySkip | AtFinish

  /** The stretch [from, until) of seen positions that were held against one point while it was active;
      its capture began at `cap` and its closest approach is position `best`. Input number `at` resolved it. */
  datatype Span = Span(from: nat, cap: nat, best: nat, until: nat, cause: Cause, at: nat) {
    /** The first position held against the following point: a position that resolves a point by leaving
        or bypassing it is held against its successor too. */
    function Handover(): nat { if cause.Bypassed? && until > 0 then until - 1 else until }
  }

  /** A point resolved by this input, with `n` positions seen before it, was held against every one of them since it
      became active, and against the input's own position where that bypassed it. */
  predicate Ends(i: Input, n: nat, s: Span) {
    match s.cause
    case AtFinish => i.Finish? && s.until == n
    case BySkip => i.Skip? && s.until == n
    case Left => NewlySeen(i) != [] && s.until == n
    case Bypassed => NewlySeen(i) != [] && s.until == n + 1
  }

  /** New spans, all of one input, after the earlier ones. */
  ghost predicate Grown(spans: seq<Span>, ss: seq<Span>, i: Input, n: nat, at: nat) {
    && |spans| <= |ss| && ss[..|spans|] == spans
    && forall j: nat :: |spans| <= j < |ss| ==> ss[j].at == at && Ends(i, n, ss[j])
  }

  lemma GrownMore(spans: seq<Span>, s: Span, ss: seq<Span>, i: Input, n: nat, at: nat)
    requires Grown(spans + [s], ss, i, n, at) && s.at == at && Ends(i, n, s)
    ensures Grown(spans, ss, i, n, at)
  {
    assert ss[..|spans|] == ss[..|spans| + 1][..|spans|] == spans;
    assert ss[|spans|] == ss[..|spans| + 1][|spans|] == s;
  }

  ghost predicate NeverNear(c: Course, seen: seq<Position>, i: nat, lo: nat, hi: nat)
    requires i < |c.vertices|
  {
    forall t: nat :: lo <= t < hi && t < |seen| ==> !c.Near(seen[t], i)
  }

  ghost predicate AlwaysNear(c: Course, seen: seq<Position>, i: nat, lo: nat, hi: nat)
    requires i < |c.vertices|
  {
    forall t: nat :: lo <= t < hi && t < |seen| ==> c.Near(seen[t], i)
  }

  /** A capture of point `i` over [cap, until): approached from outside, inside throughout, its minimum first
      reached at `best`. */
  ghost predicate Captured(c: Course, seen: seq<Position>, i: nat, s: Span, at: Position, error2: real)
    requires i < |c.vertices|
  {
    && s.from <= s.cap <= s.best < s.until <= |seen|
    && NeverNear(c, seen, i, s.from, s.cap)
    && AlwaysNear(c, seen, i, s.cap, s.until)
    && at == seen[s.best] && error2 == c.Distance2(at, i) && error2 <= c.radius2
    && (forall t: nat :: s.cap <= t < s.best ==> error2 < c.Distance2(seen[t], i))
    && (forall t: nat :: s.best <= t < s.until ==> error2 <= c.Distance2(seen[t], i))
  }

  /** The positions alone account for the event. */
  ghost predicate Justified(c: Course, seen: seq<Position>, ev: PointEvent, s: Span) {
    && ev.index < |c.vertices|
    && s.from <= s.until <= |seen|
    && match ev.outcome {
         case Completed(at, error2) =>
           && Captured(c, seen, ev.index, s, at, error2)
           && (s.cause.AtFinish? || (s.cause.Left? && s.until < |seen| && !c.Near(seen[s.until], ev.index)))
         case Failed(planned) =>
           && planned == c.vertices[ev.index]
           && NeverNear(c, seen, ev.index, s.from, s.until)
           && (s.cause.AtFinish? ||
               (s.cause.Bypassed? && s.from < s.until && ev.index + 1 < |c.vertices| &&
                c.Near(seen[s.until - 1], ev.index + 1)))
         case Skipped(planned) => planned == c.vertices[ev.index] && s.cause.BySkip?
       }
  }

  /** Where the position history was when the newest point became active. */
  function Frontier(spans: seq<Span>): nat {
    if spans == [] then 0 else spans[|spans| - 1].Handover()
  }

  /** Every event is justified by its span, the indices run from `k`, and the spans follow each other. */
  ghost predicate Explained(c: Course, k: nat, seen: seq<Position>, events: seq<PointEvent>, spans: seq<Span>) {
    && |events| == |spans|
    && (forall i: nat :: i < |events| ==> events[i].index == k + i && Justified(c, seen, events[i], spans[i]))
    && (forall i: nat :: i < |events| ==> spans[i].from == Frontier(spans[..i]))
  }

  /** The journal agrees with the first `upto` positions: as long as the active point is not being captured, none of
      those held against it came near it, nor near the following one, which would have bypassed it. */
  ghost predicate Tracks(c: Course, j: Journal, seen: seq<Position>, from: nat, upto: nat) {
    && j.next <= |c.vertices|
    && from <= upto <= |seen|
    && (j.next < |c.vertices| && !j.capturing ==> NeverNear(c, seen, j.next, from, upto))
    && (j.next + 1 < |c.vertices| && !j.capturing ==> NeverNear(c, seen, j.next + 1, from, upto))
    && (j.capturing ==> j.next < |c.vertices| && exists s: Span :: Capturing(c, j, seen, from, upto, s))
  }

  ghost predicate Capturing(c: Course, j: Journal, seen: seq<Position>, from: nat, upto: nat, s: Span) {
    && j.next < |c.vertices| && s.from == from && s.until == upto
    && Captured(c, seen, j.next, s, j.minAt, j.min2)
  }

  // ---------------------------------------------------------------- what a run keeps

  lemma ExplainedMore(c: Course, k: nat, seen: seq<Position>, events: seq<PointEvent>, spans: seq<Span>,
                      ev: PointEvent, s: Span)
    requires Explained(c, k, seen, events, spans)
    requires ev.index == k + |events| && s.from == Frontier(spans) && Justified(c, seen, ev, s)
    ensures Explained(c, k, seen, events + [ev], spans + [s])
    ensures Frontier(spans + [s]) == s.Handover()
  {
    hide Justified, Frontier;
    var es, ss := events + [ev], spans + [s];
    forall i: nat | i < |es|
      ensures es[i].index == k + i && Justified(c, seen, es[i], ss[i])
      ensures ss[i].from == Frontier(ss[..i])
    {
      if i < |events| { assert ss[..i] == spans[..i]; } else { assert ss[..i] == spans; }
    }
    assert Frontier(ss) == s.Handover() by { FrontierLast(spans, s); }
  }

  lemma FrontierLast(spans: seq<Span>, s: Span)
    ensures Frontier(spans + [s]) == s.Handover()
  {
  }

  /** Later positions do not disturb what is already justified. */
  lemma ExplainedLater(c: Course, k: nat, seen: seq<Position>, p: Position, events: seq<PointEvent>, spans: seq<Span>)
    requires Explained(c, k, seen, events, spans)
    ensures Explained(c, k, seen + [p], events, spans)
  {
    hide Justified, Frontier;
    forall i: nat | i < |events|
      ensures Justified(c, seen + [p], events[i], spans[i])
    {
      JustifiedLater(c, seen, p, events[i], spans[i]);
    }
  }

  lemma CapturedLater(c: Course, seen: seq<Position>, p: Position, i: nat, s: Span, at: Position, error2: real)
    requires i < |c.vertices| && Captured(c, seen, i, s, at, error2)
    ensures Captured(c, seen + [p], i, s, at, error2)
  {
    var more := seen + [p];
    assert forall t: nat :: t < |seen| ==> more[t] == seen[t];
  }

  lemma JustifiedLater(c: Course, seen: seq<Position>, p: Position, ev: PointEvent, s: Span)
    requires Justified(c, seen, ev, s)
    ensures Justified(c, seen + [p], ev, s)
  {
    hide Captured;
    var more := seen + [p];
    assert forall t: nat :: t < |seen| ==> more[t] == seen[t];
    if ev.outcome.Completed? {
      CapturedLater(c, seen, p, ev.index, s, ev.outcome.at, ev.outcome.error2);
    }
  }

  lemma TracksLater(c: Course, j: Journal, seen: seq<Position>, from: nat, p: Position)
    requires Tracks(c, j, seen, from, |seen|)
    ensures Tracks(c, j, seen + [p], from, |seen|)
  {
    hide Captured;
    var more := seen + [p];
    assert forall t: nat :: t < |seen| ==> more[t] == seen[t];
    if j.capturing {
      var s: Span :| Capturing(c, j, seen, from, |seen|, s);
      CapturedLater(c, seen, p, j.next, s, j.minAt, j.min2);
      assert Capturing(c, j, more, from, |seen|, s);
    }
  }

  lemma GrownNone(spans: seq<Span>, i: Input, n: nat, at: nat)
    ensures Grown(spans, spans, i, n, at)
  {
  }

  /** The newest position extends a capture, updating its minimum. */
  lemma CaptureExtends(c: Course, j: Journal, seen: seq<Position>, from: nat, s: Span) returns (s': Span)
    requires |seen| > 0 && j.capturing && Capturing(c, j, seen, from, |seen| - 1, s)
    requires c.Near(seen[|seen| - 1], j.next)
    ensures Capturing(c, Settle(c, j, seen[|seen| - 1]).0, seen, from, |seen|, s')
  {
    hide c.Distance2;
    var p := seen[|seen| - 1];
    s' := s.(until := |seen|, best := if c.Distance2(p, j.next) < j.min2 then |seen| - 1 else s.best);
  }

  /** Settling the newest position: every event it emits is justified, and the journal then agrees with it. */
  lemma {:induction false} SettleKeeps(c: Course, k: nat, j: Journal, seen: seq<Position>,
                                       events: seq<PointEvent>, spans: seq<Span>, at: nat)
    returns (ss: seq<Span>)
    requires |seen| > 0 && Explained(c, k, seen, events, spans) && j.next == k + |events|
    requires Tracks(c, j, seen, Frontier(spans), |seen| - 1)
    ensures var (j', out) := Settle(c, j, seen[|seen| - 1]);
            && Explained(c, k, seen, events + out, ss) && j'.next == k + |events| + |out|
            && Tracks(c, j', seen, Frontier(ss), |seen|)
    ensures Grown(spans, ss, At(Some(seen[|seen| - 1])), |seen| - 1, at)
    decreases |c.vertices| - j.next
  {
    hide Captured, Justified, Explained, c.Distance2, Frontier, Grown;
    GrownNone(spans, At(Some(seen[|seen| - 1])), |seen| - 1, at);
    var t := |seen| - 1;
    var p, from := seen[t], Frontier(spans);
    ss := spans;
    var (j', out) := Settle(c, j, p);
    if j.next >= |c.vertices| {
      assert events + out == events;
    } else if !j.capturing {
      if j.next + 1 < |c.vertices| && c.Near(p, j.next + 1) && !c.Near(p, j.next) {
        var s, ev := Span(from, from, from, |seen|, Bypassed, at), FailOne(c, j.next);
        assert Justified(c, seen, ev, s) by { BypassJustified(c, seen, j.next, s); }
        ExplainedMore(c, k, seen, events, spans, ev, s);
        ss := SettleKeeps(c, k, j.(next := j.next + 1), seen, events + [ev], spans + [s], at);
        GrownMore(spans, s, ss, At(Some(p)), t, at);
        assert events + [ev] + Settle(c, j.(next := j.next + 1), p).1 == events + out;
      } else {
        assert events + out == events;
        if c.Near(p, j.next) {
          CaptureBegins(c, j', seen, from);
        }
      }
    } else {
      var s: Span :| Capturing(c, j, seen, from, t, s);
      if c.Near(p, j.next) {
        assert events + out == events;
        var s' := CaptureExtends(c, j, seen, from, s);
      } else {
        var ev, s' := CompleteCurrent(j), s.(cause := Left, at := at);
        assert Justified(c, seen, ev, s') by { LeaveJustified(c, j, seen, s, at); }
        ExplainedMore(c, k, seen, events, spans, ev, s');
        ss := SettleKeeps(c, k, Closed(j), seen, events + [ev], spans + [s'], at);
        GrownMore(spans, s', ss, At(Some(p)), t, at);
        assert events + [ev] + Settle(c, Closed(j), p).1 == events + out;
      }
    }
  }

  lemma BypassJustified(c: Course, seen: seq<Position>, i: nat, s: Span)
    requires i + 1 < |c.vertices| && |seen| > 0 && s.from < |seen| == s.until && s.cause == Bypassed
    requires NeverNear(c, seen, i, s.from, |seen| - 1) && !c.Near(seen[|seen| - 1], i)
    requires c.Near(seen[|seen| - 1], i + 1)
    ensures Justified(c, seen, FailOne(c, i), s)
  {
    hide c.Near;
  }

  lemma CaptureBegins(c: Course, j: Journal, seen: seq<Position>, from: nat)
    requires |seen| > 0 && j.next < |c.vertices| && j.capturing && from < |seen|
    requires NeverNear(c, seen, j.next, from, |seen| - 1) && c.Near(seen[|seen| - 1], j.next)
    requires j.minAt == seen[|seen| - 1] && j.min2 == c.Distance2(j.minAt, j.next)
    ensures Tracks(c, j, seen, from, |seen|)
  {
    var t := |seen| - 1;
    assert Capturing(c, j, seen, from, |seen|, Span(from, t, t, |seen|, Left, 0));
  }

  lemma LeaveJustified(c: Course, j: Journal, seen: seq<Position>, s: Span, at: nat)
    requires |seen| > 0 && Capturing(c, j, seen, s.from, |seen| - 1, s)
    requires !c.Near(seen[|seen| - 1], j.next)
    ensures Justified(c, seen, CompleteCurrent(j), s.(cause := Left, at := at))
  {
    hide c.Near, c.Distance2;
  }

  lemma {:induction false} FailFromKeeps(c: Course, k: nat, i: nat, seen: seq<Position>,
                                         events: seq<PointEvent>, spans: seq<Span>, at: nat)
    returns (ss: seq<Span>)
    requires Explained(c, k, seen, events, spans) && k + |events| == i <= |c.vertices|
    requires Frontier(spans) <= |seen|
    requires i < |c.vertices| ==> NeverNear(c, seen, i, Frontier(spans), |seen|)
    ensures Explained(c, k, seen, events + FailFrom(c, i), ss)
    ensures |events + FailFrom(c, i)| == |c.vertices| - k && Frontier(ss) <= |seen|
    ensures Grown(spans, ss, Finish, |seen|, at)
    decreases |c.vertices| - i
  {
    hide Explained, Frontier, Grown;
    GrownNone(spans, Finish, |seen|, at);
    ss := spans;
    if i == |c.vertices| {
      assert events + FailFrom(c, i) == events;
      assert |events| == |c.vertices| - k;
    } else {
      var s, ev := Span(Frontier(spans), 0, 0, |seen|, AtFinish, at), FailOne(c, i);
      ExplainedMore(c, k, seen, events, spans, ev, s);
      ss := FailFromKeeps(c, k, i + 1, seen, events + [ev], spans + [s], at);
      GrownMore(spans, s, ss, Finish, |seen|, at);
      assert events + [ev] + FailFrom(c, i + 1) == events + FailFrom(c, i);
    }
  }

  lemma FinishKeeps(c: Course, k: nat, j: Journal, seen: seq<Position>, events: seq<PointEvent>, spans: seq<Span>,
                    at: nat)
    returns (ss: seq<Span>)
    requires Explained(c, k, seen, events, spans) && j.next == k + |events|
    requires Tracks(c, j, seen, Frontier(spans), |seen|)
    ensures var (j', out) := Apply(c, j, Finish);
            && Explained(c, k, seen, events + out, ss) && j'.next == k + |events + out| == |c.vertices|
            && Tracks(c, j', seen, Frontier(ss), |seen|)
    ensures Grown(spans, ss, Finish, |seen|, at)
  {
    hide Captured, Explained, Frontier, Grown, Justified, FailFrom, Course.Distance2, Course.Near;
    GrownNone(spans, Finish, |seen|, at);
    NoneLeft(c);
    var (j', out) := Apply(c, j, Finish);
    ss := spans;
    if j.next >= |c.vertices| {
      assert events + out == events;
    } else if j.capturing {
      var s: Span :| Capturing(c, j, seen, Frontier(spans), |seen|, s);
      var ev, s' := CompleteCurrent(j), s.(cause := AtFinish, at := at);
      CaptureClosed(c, j, seen, s, at);
      ExplainedMore(c, k, seen, events, spans, ev, s');
      ss := FailFromKeeps(c, k, j.next + 1, seen, events + [ev], spans + [s'], at);
      GrownMore(spans, s', ss, Finish, |seen|, at);
      assert events + [ev] + FailFrom(c, j.next + 1) == events + out;
    } else {
      ss := FailFromKeeps(c, k, j.next, seen, events, spans, at);
    }
  }

  lemma CaptureClosed(c: Course, j: Journal, seen: seq<Position>, s: Span, at: nat)
    requires Capturing(c, j, seen, s.from, |seen|, s)
    ensures Justified(c, seen, CompleteCurrent(j), s.(cause := AtFinish, at := at))
  {
    hide c.Near, c.Distance2;
  }

  lemma SkipKeeps(c: Course, k: nat, j: Journal, seen: seq<Position>, events: seq<PointEvent>, spans: seq<Span>,
                    at: nat)
    returns (ss: seq<Span>)
    requires Explained(c, k, seen, events, spans) && j.next == k + |events|
    requires Tracks(c, j, seen, Frontier(spans), |seen|)
    ensures var (j', out) := Apply(c, j, Skip);
            && Explained(c, k, seen, events + out, ss) && j'.next == k + |events + out|
            && Tracks(c, j', seen, Frontier(ss), |seen|)
    ensures Grown(spans, ss, Skip, |seen|, at)
  {
    hide Captured, Explained, Frontier;
    var (j', out) := Apply(c, j, Skip);
    ss := spans;
    if j.next >= |c.vertices| {
      assert events + out == events;
    } else {
      var s := Span(Frontier(spans), 0, 0, |seen|, BySkip, at);
      ExplainedMore(c, k, seen, events, spans, out[0], s);
      assert [out[0]] == out;
      ss := spans + [s];
    }
  }

  /** The state of a run, its history and its evidence, in agreement. */
  ghost predicate Sound(c: Course, k: nat, j: Journal, seen: seq<Position>, events: seq<PointEvent>, ss: seq<Span>) {
    Explained(c, k, seen, events, ss) && j.next == k + |events| && Tracks(c, j, seen, Frontier(ss), |seen|)
  }

  /** One more input, number `at`. */
  lemma ApplyKeeps(c: Course, k: nat, j: Journal, seen: seq<Position>, events: seq<PointEvent>, spans: seq<Span>,
                   i: Input, at: nat) returns (ss: seq<Span>)
    requires Sound(c, k, j, seen, events, spans)
    ensures var (j', out) := Apply(c, j, i);
            && Sound(c, k, j', seen + NewlySeen(i), events + out, ss)
            && (i.Finish? ==> j'.next == |c.vertices|)
    ensures Grown(spans, ss, i, |seen|, at)
  {
    hide Explained, Tracks, Settle, Frontier, FailFrom, Grown;
    match i
    case At(None) =>
      ss := spans;
      GrownNone(spans, i, |seen|, at);
      assert events + [] == events && seen + [] == seen;
    case At(Some(p)) =>
      ExplainedLater(c, k, seen, p, events, spans);
      TracksLater(c, j, seen, Frontier(spans), p);
      ss := SettleKeeps(c, k, j, seen + [p], events, spans, at);
    case Skip =>
      ss := SkipKeeps(c, k, j, seen, events, spans, at);
      assert seen + [] == seen;
    case Finish =>
      ss := FinishKeeps(c, k, j, seen, events, spans, at);
      assert seen + [] == seen;
  }

  /** Event number `i` of a run came from the input its span names, and that input ended its stretch. */
  ghost predicate Timely(c: Course, k: nat, inputs: seq<Input>, i: nat, s: Span) {
    && s.at < |inputs|
    && |Run(c, Fresh(k), inputs[..s.at]).1| <= i < |Run(c, Fresh(k), inputs[..s.at + 1]).1|
    && Ends(inputs[s.at], |Seen(inputs[..s.at])|, s)
  }

  lemma TimelyLater(c: Course, k: nat, inputs: seq<Input>, i: nat, s: Span)
    requires inputs != [] && Timely(c, k, inputs[..|inputs| - 1], i, s)
    ensures Timely(c, k, inputs, i, s)
  {
    hide Run, Seen, Ends;
    var front := inputs[..|inputs| - 1];
    assert front[..s.at] == inputs[..s.at] && front[..s.at + 1] == inputs[..s.at + 1];
  }

  lemma TimelyNow(c: Course, k: nat, inputs: seq<Input>, i: nat, s: Span)
    requires inputs != [] && s.at == |inputs| - 1
    requires |Run(c, Fresh(k), inputs[..s.at]).1| <= i < |Run(c, Fresh(k), inputs).1|
    requires Ends(inputs[s.at], |Seen(inputs[..s.at])|, s)
    ensures Timely(c, k, inputs, i, s)
  {
    hide Run, Seen, Ends;
    assert inputs[..s.at + 1] == inputs;
  }

  ghost predicate AllTimely(c: Course, k: nat, inputs: seq<Input>, ss: seq<Span>) {
    forall i: nat :: i < |ss| ==> Timely(c, k, inputs, i, ss[i])
  }

  lemma TimelyMore(c: Course, k: nat, inputs: seq<Input>, spans: seq<Span>, ss: seq<Span>)
    requires inputs != []
    requires var front := inputs[..|inputs| - 1];
             && AllTimely(c, k, front, spans)
             && |spans| == |Run(c, Fresh(k), front).1| && |ss| == |Run(c, Fresh(k), inputs).1|
             && Grown(spans, ss, inputs[|inputs| - 1], |Seen(front)|, |inputs| - 1)
    ensures AllTimely(c, k, inputs, ss)
  {
    hide Run, Seen, Ends, Timely;
    forall i: nat | i < |ss|
      ensures Timely(c, k, inputs, i, ss[i])
    {
      if i < |spans| {
        assert ss[i] == ss[..|spans|][i] == spans[i];
        TimelyLater(c, k, inputs, i, ss[i]);
      } else {
        TimelyNow(c, k, inputs, i, ss[i]);
      }
    }
  }

  /** Any run, started at point `k`: the indices emitted are k, k+1, ... without gap or repetition, and the finite
      positions justify each event over the whole stretch from the point becoming active to the input that emitted
      the event. */
  lemma {:induction false} RunIsExplained(c: Course, k: nat, inputs: seq<Input>) returns (ss: seq<Span>)
    requires k <= |c.vertices|
    ensures var (j, events) := Run(c, Fresh(k), inputs);
            && Sound(c, k, j, Seen(inputs), events, ss)
            && (inputs != [] && inputs[|inputs| - 1].Finish? ==> j.next == |c.vertices|)
    ensures AllTimely(c, k, inputs, ss)
  {
    if inputs == [] {
      ss := [];
    } else {
      hide Sound, Apply, AllTimely, Grown;
      var last := |inputs| - 1;
      var before := Run(c, Fresh(k), inputs[..last]);
      var spans := RunIsExplained(c, k, inputs[..last]);
      ss := ApplyKeeps(c, k, before.0, Seen(inputs[..last]), before.1, spans, inputs[last], last);
      SpanPerEvent(c, k, before.0, Seen(inputs[..last]), before.1, spans);
      var after := Run(c, Fresh(k), inputs);
      SpanPerEvent(c, k, after.0, Seen(inputs), after.1, ss);
      TimelyMore(c, k, inputs, spans, ss);
    }
  }

  lemma SpanPerEvent(c: Course, k: nat, j: Journal, seen: seq<Position>, events: seq<PointEvent>, ss: seq<Span>)
    requires Sound(c, k, j, seen, events, ss)
    ensures |events| == |ss|
  {
  }

  /** A run that ends with its only finish reports every point from `k` on exactly once, in order. A completed point's
      error is its least distance over a capture that ends where the rover left the radius or with the last position;
      a failed one was never inside the radius from becoming active to the bypass or to the last position. */
  lemma FinishedRun(c: Course, k: nat, inputs: seq<Input>) returns (ss: seq<Span>)
    requires k <= |c.vertices| && inputs != [] && inputs[|inputs| - 1].Finish?
    ensures var events := Run(c, Fresh(k), inputs).1;
            && |events| == |ss| == |c.vertices| - k
            && forall i: nat :: i < |events| ==>
                 && events[i].index == k + i
                 && Justified(c, Seen(inputs), events[i], ss[i])
                 && Timely(c, k, inputs, i, ss[i])
                 && ss[i].from == (if i == 0 then 0 else ss[i - 1].Handover())
    ensures Finish !in inputs[..|inputs| - 1] ==>
              forall i: nat :: i < |ss| && ss[i].cause.AtFinish? ==> ss[i].until == |Seen(inputs)|
  {
    hide Run, Seen, Justified, Tracks, Timely;
    ss := RunIsExplained(c, k, inputs);
    forall i: nat | i < |ss|
      ensures ss[i].from == (if i == 0 then 0 else ss[i - 1].Handover())
    {
      assert ss[i].from == Frontier(ss[..i]);
    }
    if Finish !in inputs[..|inputs| - 1] {
      forall i: nat | i < |ss| && ss[i].cause.AtFinish?
        ensures ss[i].until == |Seen(inputs)|
      {
        OnlyFinish(c, k, inputs, i, ss[i]);
      }
    }
  }

  lemma OnlyFinish(c: Course, k: nat, inputs: seq<Input>, i: nat, s: Span)
    requires inputs != [] && inputs[|inputs| - 1].Finish? && Finish !in inputs[..|inputs| - 1]
    requires Timely(c, k, inputs, i, s) && s.cause.AtFinish?
    ensures s.until == |Seen(inputs)|
  {
    hide Run;
    var front := inputs[..|inputs| - 1];
    assert forall t: nat :: t < |front| ==> front[t] in front && front[t] == inputs[t];
    assert inputs[..s.at] == front;
  }

  /** The evidence leaves no choice: the positions held against a point, from becoming active to the input that resolved
      it, decide its outcome. */
  lemma EvidenceDecides(c: Course, seen: seq<Position>, i: Input, n: nat, a: PointEvent, s: Span, b: PointEvent,
                        t: Span)
    requires Justified(c, seen, a, s) && Justified(c, seen, b, t)
    requires a.index == b.index && s.from == t.from && Ends(i, n, s) && Ends(i, n, t)
    ensures a == b
  {
    hide Course.Near, Course.Distance2;
    if a.outcome.Completed? && b.outcome.Completed? {
      SameCapture(c, seen, a.index, s, t);
      SameMinimum(c, seen, a.index, s, a.outcome.at, a.outcome.error2, t, b.outcome.at, b.outcome.error2);
    }
  }

  lemma SameCapture(c: Course, seen: seq<Position>, i: nat, s: Span, t: Span)
    requires i < |c.vertices| && s.from == t.from
    requires s.from <= s.cap < s.until <= |seen| && t.from <= t.cap < t.until <= |seen|
    requires NeverNear(c, seen, i, s.from, s.cap) && AlwaysNear(c, seen, i, s.cap, s.until)
    requires NeverNear(c, seen, i, t.from, t.cap) && AlwaysNear(c, seen, i, t.cap, t.until)
    ensures s.cap == t.cap
  {
    hide Course.Near;
    assert c.Near(seen[s.cap], i) && c.Near(seen[t.cap], i);
  }

  lemma SameMinimum(c: Course, seen: seq<Position>, i: nat, s: Span, p: Position, d: real, t: Span, q: Position,
                    e: real)
    requires i < |c.vertices| && s.cap == t.cap && s.until == t.until
    requires Captured(c, seen, i, s, p, d) && Captured(c, seen, i, t, q, e)
    ensures p == q && d == e
  {
    hide Course.Near, Course.Distance2;
    assert d <= e && e <= d;
    assert s.best == t.best;
  }

  // ---------------------------------------------------------------- the object

  function MustHits(path: seq<PathPoint>): seq<Position> {
    if path == [] then []
    else
      var last := |path| - 1;
      MustHits(path[..last]) + (if path[last].mustHit then [path[last].at] else [])
  }

  class Recorder {
    const vertices: seq<Position>
    const radius: real
    var next: nat
    var capturing: bool
    var min2: real
    var minAt: Position

    function Map(): Course { Course(vertices, radius * radius) }

    function Model(): Journal
      reads this
    {
      Journal(next, capturing, min2, minAt)
    }

    constructor (vertices: seq<Position>, radius: real)
      requires radius > 0.0
      ensures this.vertices == vertices && this.radius == radius && Model() == Fresh(0)
    {
      this.vertices, this.radius := vertices, radius;
      next, capturing, min2, minAt := 0, false, 0.0, NOWHERE;
    }

    /** Hold one position against the active point: an event if it resolves the point. */
    method Evaluate(p: Position) returns (ev: Option<PointEvent>)
      requires next < |vertices|
      modifies this
      ensures ev.None? ==> Settle(Map(), old(Model()), p) == (Model(), [])
      ensures ev.Some? ==> next == old(next) + 1
      ensures ev.Some? ==> Settle(Map(), old(Model()), p).0 == Settle(Map(), Model(), p).0
      ensures ev.Some? ==> Settle(Map(), old(Model()), p).1 == [ev.value] + Settle(Map(), Model(), p).1
    {
      hide Course.Distance2;
      var c := Map();
      var d := c.Distance2(p, next);
      if !capturing {
        if next + 1 < |vertices| {
          if c.Distance2(p, next + 1) <= c.radius2 && d > c.radius2 {
            ev := Some(FailOne(c, next));
            next := next + 1;
            return;
          }
        }
        if d <= c.radius2 {
          capturing, min2, minAt := true, d, p;
        }
        return None;
      }
      if d <= c.radius2 {
        if d < min2 {
          min2, minAt := d, p;
        }
        return None;
      }
      ev := Some(CompleteCurrent(Model()));
      next, capturing := next + 1, false;
    }

    method Update(position: Option<Position>) returns (out: seq<PointEvent>)
      modifies this
      ensures Model() == Apply(Map(), old(Model()), At(position)).0
      ensures out == Apply(Map(), old(Model()), At(position)).1
    {
      hide Settle;
      out := [];
      if position.None? { return; }
      var p := position.value;
      while next < |vertices|
        invariant Settle(Map(), old(Model()), p).0 == Settle(Map(), Model(), p).0
        invariant Settle(Map(), old(Model()), p).1 == out + Settle(Map(), Model(), p).1
        decreases |vertices| - next
      {
        var ev := Evaluate(p);
        if ev.None? {
          assert out + [] == out;
          return;
        }
        out := out + [ev.value];
      }
      SettleDone(Map(), Model(), p);
      assert out + [] == out;
    }

    method SkipPoint() returns (out: Option<PointEvent>)
      modifies this
      ensures Apply(Map(), old(Model()), Skip) == (Model(), if out.Some? then [out.value] else [])
    {
      if next >= |vertices| { return None; }
      out := Some(PointEvent(next, Skipped(vertices[next])));
      next, capturing := next + 1, false;
    }

    /** Continue an earlier execution at point `resolved`, only before anything moved. */
    method RestoreResolved(resolved: nat) returns (ok: bool)
      modifies this
      ensures ok == (old(next) == 0 && !old(capturing) && resolved <= |vertices|)
      ensures Model() == if ok then old(Model()).(next := resolved) else old(Model())
    {
      if next != 0 || capturing || resolved > |vertices| { return false; }
      next := resolved;
      return true;
    }

    method FinishPath() returns (out: seq<PointEvent>)
      modifies this
      ensures Model() == Apply(Map(), old(Model()), Finish).0
      ensures out == Apply(Map(), old(Model()), Finish).1
    {
      hide FailFrom;
      out := [];
      ghost var c := Map();
      NoneLeft(c);
      if capturing && next < |vertices| {
        out := [CompleteCurrent(Model())];
        next, capturing := next + 1, false;
      }
      assert Apply(c, old(Model()), Finish).1 == out + FailFrom(c, next);
      var rest := FailRest();
      out := out + rest;
    }

    /** Fail every point still open. */
    method FailRest() returns (out: seq<PointEvent>)
      modifies `next
      ensures next == if old(next) < |vertices| then |vertices| else old(next)
      ensures out == FailFrom(Map(), old(next))
    {
      out := [];
      while next < |vertices|
        invariant old(next) <= next && (next <= |vertices| || next == old(next))
        invariant out + FailFrom(Map(), next) == FailFrom(Map(), old(next))
      {
        out := out + [FailOne(Map(), next)];
        next := next + 1;
      }
      assert out + [] == out;
    }
  }

  /** A whole run of the object is the run the theorems speak of. */
  method Play(r: Recorder, k: nat, inputs: seq<Input>) returns (out: seq<PointEvent>)
    requires r.Model() == Fresh(k)
    modifies r
    ensures (r.Model(), out) == Run(r.Map(), Fresh(k), inputs)
  {
    hide Apply;
    out := [];
    assert inputs[..0] == [];
    for i := 0 to |inputs|
      invariant r.Model() == Run(r.Map(), Fresh(k), inputs[..i]).0
      invariant out == Run(r.Map(), Fresh(k), inputs[..i]).1
    {
      assert inputs[..i + 1][..i] == inputs[..i];
      match inputs[i] {
        case At(position) =>
          var more := r.Update(position);
          out := out + more;
        case Skip =>
          var one := r.SkipPoint();
          out := out + (if one.Some? then [one.value] else []);
        case Finish =>
          var rest := r.FinishPath();
          out := out + rest;
      }
    }
    assert inputs[..|inputs|] == inputs;
  }

  /** Build a journal over the must-hit points of a path; a radius that is not finite and positive is refused. */
  method MakeRecorder(path: seq<PathPoint>, radius: Option<real>) returns (r: Option<Recorder>)
    ensures r.Some? <==> radius.Some? && radius.value > 0.0
    ensures r.Some? ==> fresh(r.value) && r.value.vertices == MustHits(path) && r.value.radius == radius.value
    ensures r.Some? ==> r.value.Model() == Fresh(0)
  {
    if radius.None? || !(radius.value > 0.0) { return None; }
    var vs: seq<Position> := [];
    for i := 0 to |path|
      invariant vs == MustHits(path[..i])
    {
      assert path[..i + 1][..i] == path[..i];
      if path[i].mustHit { vs := vs + [path[i].at]; }
    }
    assert path[..|path|] == path;
    var j := new Recorder(vs, radius.value);
    r := Some(j);
  }
}
