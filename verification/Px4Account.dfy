/** Every answer of the PX4 sequencer accounted for by events alone: which request was issued when, and which later
    event, a response or an overdue tick, ended it. */
module Px4Account {
  import opened Common
  import opened Px4Sequencer
  import opened Px4Runs

  // ---------------------------------------------------------------- events of a run

  /** The system after the first `k` events. */
  function After(t: Timeouts, es: seq<Event>, k: nat): System
    requires k <= |es|
  {
    if k == 0 then START else Next(t, After(t, es, k - 1), es[k - 1])
  }

  ghost predicate Legal(t: Timeouts, es: seq<Event>) {
    forall k: nat :: k < |es| ==> Possible(After(t, es, k), es[k])
  }

  /** Event `a` issued request `r`. */
  ghost predicate IssuedAt(t: Timeouts, es: seq<Event>, a: nat, r: Issued)
    requires a < |es|
  {
    es[a].Poll? && After(t, es, a + 1).issued == After(t, es, a).issued + [r]
  }

  /** How long a request may take: arming and disarming have one limit, OFFBOARD the other. */
  function Limit(t: Timeouts, op: Op): nat {
    match op
    case Arm => t.arm
    case Disarm => t.arm
    case OffboardOn => t.offboard
    case OffboardOff => t.offboard
  }

  /** Event `e` ends a request issued at time `at`: its response, or a tick when it is overdue. */
  predicate Ends(t: Timeouts, r: Issued, at: int, e: Event) {
    (e.Response? && e.id == r.id) || (e.TickAt? && e.now >= at + Limit(t, r.op))
  }

  /** Nothing after `a` and before `k` ended the request. */
  ghost predicate Open(t: Timeouts, es: seq<Event>, a: nat, r: Issued, k: nat)
    requires a < k <= |es| && es[a].Poll?
  {
    forall c: nat :: a < c < k ==> !Ends(t, r, es[a].now, es[c])
  }

  /** A release came after `a` and before `k`. */
  ghost predicate Released(es: seq<Event>, a: nat, k: nat)
    requires k <= |es|
  {
    exists c: nat :: a < c < k && es[c].ReleaseAll?
  }

  /** What event `b` reports about a request issued at `a`: the answer of its response, or a timeout; abandoned when it
      was issued before a release that came before the answer. */
  ghost predicate Reports(es: seq<Event>, a: nat, r: Issued, b: nat, o: Outcome)
    requires a < b < |es|
  {
    && o.op == r.op && o.id == r.id
    && (o.abandoned <==> !r.releasing && Released(es, a, b))
    && (if es[b].Response? then o.verdict == (if es[b].accepted then Accepted else Rejected) && o.reason == es[b].reason
        else o.verdict == TimedOut && o.reason == 0)
  }

  /** Event `b` is the first to end the request that event `a` issued, and reports `o`. */
  ghost predicate Answers(t: Timeouts, es: seq<Event>, a: nat, r: Issued, b: nat, o: Outcome) {
    && a < b < |es| && IssuedAt(t, es, a, r)
    && Open(t, es, a, r, b) && Ends(t, r, es[a].now, es[b]) && Reports(es, a, r, b, o)
  }

  // ---------------------------------------------------------------- runs

  lemma {:induction false} LegalKeeps(t: Timeouts, es: seq<Event>, k: nat)
    requires Legal(t, es) && k <= |es|
    ensures Inv(After(t, es, k))
  {
    hide Inv, Next;
    if k == 0 {
      StartKeeps();
    } else {
      LegalKeeps(t, es, k - 1);
      StepKeeps(t, After(t, es, k - 1), es[k - 1]);
    }
  }

  lemma StartKeeps()
    ensures Inv(START)
  {
  }

  /** The runs here are the runs of `Run`. */
  lemma {:induction false} LegalIsRun(t: Timeouts, es: seq<Event>, k: nat)
    requires k <= |es| && forall j: nat :: j < k ==> Possible(After(t, es, j), es[j])
    ensures Run(t, After(t, es, k), es[k..]) == Run(t, START, es)
  {
    hide Next, Possible;
    if k == 0 {
      assert es[0..] == es;
    } else {
      LegalIsRun(t, es, k - 1);
      assert es[k - 1..][1..] == es[k..];
    }
  }

  lemma {:induction false} RunIsLegal(t: Timeouts, es: seq<Event>, k: nat)
    requires k <= |es| && Run(t, START, es).Some?
    ensures forall j: nat :: j < k ==> Possible(After(t, es, j), es[j])
    ensures Run(t, After(t, es, k), es[k..]) == Run(t, START, es)
  {
    hide Next, Possible;
    if k == 0 {
      assert es[0..] == es;
    } else {
      RunIsLegal(t, es, k - 1);
      assert es[k - 1..][1..] == es[k..];
    }
  }

  // ---------------------------------------------------------------- one event

  ghost predicate HasId(fs: seq<Flight>, id: nat) {
    exists f :: f in fs && f.id == id
  }

  lemma TickEnds(t: Timeouts, s: System, now: int, f: Flight)
    requires Inv(s) && f in s.q.flights
    ensures var n := Next(t, s, TickAt(now));
            && (now < f.deadline ==> f in n.q.flights)
            && (now >= f.deadline ==> Outcome(f.op, f.id, TimedOut, 0, f.abandoned) in n.outcomes)
  {
    hide Kept, Expired, HasArm, IssuedInv, OutcomesInv, Orderly;
    KeptFacts(s.q.flights, now);
    ExpiredFacts(s.q.flights, now);
  }

  lemma ResponseEnds(t: Timeouts, s: System, e: Event, f: Flight)
    requires Inv(s) && f in s.q.flights && e.Response?
    ensures var n := Next(t, s, e);
            && (e.id != f.id ==> f in n.q.flights)
            && (e.id == f.id ==>
                  Outcome(f.op, f.id, if e.accepted then Accepted else Rejected, e.reason, f.abandoned) in n.outcomes)
  {
    hide IssuedInv, OutcomesInv, QueueInv, Orderly, FlightKind, Next, OnResponse, Find;
    var fs, i := s.q.flights, Find(s.q.flights, e.id);
    var k :| 0 <= k < |fs| && fs[k] == f;
    ResponseFrame(t, s, e.id, e.accepted, e.reason);
    if i < |fs| {
      ResponseSays(s.q, e.id, e.accepted, e.reason);
      if fs[i].id == f.id { SameId(fs, f, fs[i]); }
      Others(fs, i, k);
    }
  }

  lemma ResponseSays(q: Sequencer, id: nat, accepted: bool, reason: nat)
    requires Find(q.flights, id) < |q.flights|
    ensures var f := q.flights[Find(q.flights, id)];
            var o := Outcome(f.op, f.id, if accepted then Accepted else Rejected, reason, f.abandoned);
            OnResponse(q, id, accepted, reason).1 == Some(o)
  {
    hide Find;
  }

  lemma Others(fs: seq<Flight>, i: nat, k: nat)
    requires i < |fs| && k < |fs|
    ensures k != i ==> fs[k] in fs[..i] + fs[i + 1..]
  {
    var gs := fs[..i] + fs[i + 1..];
    if k < i { assert gs[k] == fs[k]; }
    if k > i { assert gs[k - 1] == fs[k]; }
  }

  /** A flight stays, is marked by the first release after it, or ends. */
  lemma FlightStays(t: Timeouts, s: System, e: Event, f: Flight)
    requires Inv(s) && Possible(s, e) && f in s.q.flights && !e.Response? && !e.TickAt?
    ensures var n := Next(t, s, e);
            (if e.ReleaseAll? && !s.q.releasing then f.(abandoned := true) else f) in n.q.flights
  {
    hide OutcomesInv, IssuedInv, QueueInv;
    if e.ReleaseAll? && !s.q.releasing {
      var i :| 0 <= i < |s.q.flights| && s.q.flights[i] == f;
      assert Abandon(s.q.flights)[i] == f.(abandoned := true);
    }
  }

  /** Events only add to the histories. */
  lemma HistoryGrows(t: Timeouts, s: System, e: Event)
    ensures var n := Next(t, s, e);
            && |s.issued| <= |n.issued| && n.issued[..|s.issued|] == s.issued
            && (forall o :: o in s.outcomes ==> o in n.outcomes)
            && (!e.Poll? ==> n.issued == s.issued)
            && |n.issued| <= |s.issued| + 1
  {
    hide Kept, Expired, HasArm, NoteArm, Find;
  }

  lemma PollIssuesOne(t: Timeouts, s: System, now: int)
    requires Inv(s)
    ensures var n := Next(t, s, Poll(now));
            |n.issued| > |s.issued| ==>
              && n.issued == s.issued + [n.issued[|s.issued|]]
              && var r := n.issued[|s.issued|];
                 && r.id == |s.issued| + 1 && r.releasing == s.q.releasing
                 && Flight(r.op, r.id, now + Limit(t, r.op), false) in n.q.flights
  {
    hide OutcomesInv, QueueInv, FlightsInv;
    var n := Next(t, s, Poll(now));
    if |n.issued| > |s.issued| {
      assert n.q.flights[|s.q.flights|] in n.q.flights;
    }
  }

  // ---------------------------------------------------------------- one request

  /** What has become of a request by event `k`. */
  ghost predicate Tracked(t: Timeouts, es: seq<Event>, a: nat, r: Issued, k: nat)
    requires a < k <= |es| && es[a].Poll?
  {
    if Open(t, es, a, r, k) then
      Flight(r.op, r.id, es[a].now + Limit(t, r.op), !r.releasing && Released(es, a, k)) in After(t, es, k).q.flights
    else exists b: nat, o :: b < k && Answers(t, es, a, r, b, o) && o in After(t, es, k).outcomes
  }

  lemma IssueTracked(t: Timeouts, es: seq<Event>, a: nat, r: Issued)
    requires Legal(t, es) && a < |es| && IssuedAt(t, es, a, r)
    ensures Tracked(t, es, a, r, a + 1) && r.releasing == After(t, es, a).q.releasing
    ensures r.id == |After(t, es, a).issued| + 1
  {
    hide Next, Inv, Ends;
    LegalKeeps(t, es, a);
    PollIssuesOne(t, After(t, es, a), es[a].now);
    assert After(t, es, a + 1).issued[|After(t, es, a).issued|] == r;
  }

  /** Whether a flight is abandoned is told by the stage and by its kind. */
  lemma MarkIs(s: System, f: Flight)
    requires Inv(s) && f in s.q.flights
    ensures f.abandoned <==> s.q.releasing && !IsRelease(f.op)
  {
    hide OutcomesInv, IssuedInv, QueueInv;
  }

  lemma ReleasedMore(es: seq<Event>, a: nat, k: nat)
    requires a < k < |es|
    ensures Released(es, a, k + 1) <==> Released(es, a, k) || es[k].ReleaseAll?
  {
  }

  lemma {:induction false} ReleasingSince(t: Timeouts, es: seq<Event>, a: nat, r: Issued, k: nat)
    requires Legal(t, es) && a < k <= |es| && IssuedAt(t, es, a, r) && Open(t, es, a, r, k)
    ensures Tracked(t, es, a, r, k)
    ensures After(t, es, k).q.releasing <==> r.releasing || Released(es, a, k)
    decreases k
  {
    hide Next, Inv, Ends, Reports;
    if k == a + 1 {
      IssueTracked(t, es, a, r);
      LegalKeeps(t, es, a);
      PollStage(t, After(t, es, a), es[a]);
    } else {
      var s, e := After(t, es, k - 1), es[k - 1];
      ReleasingSince(t, es, a, r, k - 1);
      LegalKeeps(t, es, k - 1);
      ReleasedMore(es, a, k - 1);
      var f := Flight(r.op, r.id, es[a].now + Limit(t, r.op), !r.releasing && Released(es, a, k - 1));
      StageStep(t, s, e, f);
      OpenStep(t, s, e, f, r, es[a].now);
    }
  }

  lemma PollStage(t: Timeouts, s: System, e: Event)
    requires e.Poll?
    ensures Next(t, s, e).q.releasing == s.q.releasing
  {
  }

  /** With something in flight, only a release changes the stage. */
  lemma StageStep(t: Timeouts, s: System, e: Event, f: Flight)
    requires Possible(s, e) && f in s.q.flights
    ensures Next(t, s, e).q.releasing <==> s.q.releasing || e.ReleaseAll?
  {
    hide Kept, Expired, HasArm, Find, Abandon;
  }

  lemma OpenStep(t: Timeouts, s: System, e: Event, f: Flight, r: Issued, at: int)
    requires Inv(s) && Possible(s, e) && f in s.q.flights && !Ends(t, r, at, e)
    requires f.id == r.id && f.op == r.op && f.deadline == at + Limit(t, r.op)
    ensures var n := Next(t, s, e);
            (if e.ReleaseAll? && !s.q.releasing then f.(abandoned := true) else f) in n.q.flights
  {
    hide Next, Inv, Limit;
    if e.Response? { ResponseEnds(t, s, e, f); }
    else if e.TickAt? { TickEnds(t, s, e.now, f); }
    else { FlightStays(t, s, e, f); }
  }

  lemma EndStep(t: Timeouts, s: System, e: Event, f: Flight, r: Issued, at: int) returns (o: Outcome)
    requires Inv(s) && Possible(s, e) && f in s.q.flights && Ends(t, r, at, e)
    requires f.id == r.id && f.op == r.op && f.deadline == at + Limit(t, r.op)
    ensures o in Next(t, s, e).outcomes && o.op == r.op && o.id == r.id && o.abandoned == f.abandoned
    ensures if e.Response? then o.verdict == (if e.accepted then Accepted else Rejected) && o.reason == e.reason
            else o.verdict == TimedOut && o.reason == 0
  {
    hide Next, Inv, Limit;
    if e.Response? {
      ResponseEnds(t, s, e, f);
      o := Outcome(f.op, f.id, if e.accepted then Accepted else Rejected, e.reason, f.abandoned);
    } else {
      TickEnds(t, s, e.now, f);
      o := Outcome(f.op, f.id, TimedOut, 0, f.abandoned);
    }
  }

  /** The first event that ends a request reports it. */
  lemma EndTracked(t: Timeouts, es: seq<Event>, a: nat, r: Issued, b: nat) returns (o: Outcome)
    requires Legal(t, es) && a < b < |es| && IssuedAt(t, es, a, r)
    requires Open(t, es, a, r, b) && Ends(t, r, es[a].now, es[b])
    ensures Answers(t, es, a, r, b, o) && o in After(t, es, b + 1).outcomes
  {
    hide Next, Inv, Ends, Released;
    ReleasingSince(t, es, a, r, b);
    LegalKeeps(t, es, b);
    var f := Flight(r.op, r.id, es[a].now + Limit(t, r.op), !r.releasing && Released(es, a, b));
    o := EndStep(t, After(t, es, b), es[b], f, r, es[a].now);
  }

  /** At every moment a request is in flight, or its first end has been reported. */
  lemma {:induction false} AllTracked(t: Timeouts, es: seq<Event>, a: nat, r: Issued, k: nat)
    requires Legal(t, es) && a < k <= |es| && IssuedAt(t, es, a, r)
    ensures Tracked(t, es, a, r, k)
    decreases k
  {
    hide Next, Ends, Answers;
    if Open(t, es, a, r, k) {
      ReleasingSince(t, es, a, r, k);
    } else if Open(t, es, a, r, k - 1) {
      var o := EndTracked(t, es, a, r, k - 1);
    } else {
      AllTracked(t, es, a, r, k - 1);
      HistoryGrows(t, After(t, es, k - 1), es[k - 1]);
    }
  }

  /** Every numbered request was issued by some event. */
  lemma {:induction false} IssueEvent(t: Timeouts, es: seq<Event>, k: nat, i: nat) returns (a: nat)
    requires Legal(t, es) && k <= |es| && i < |After(t, es, k).issued|
    ensures a < k && IssuedAt(t, es, a, After(t, es, k).issued[i])
    ensures |After(t, es, a).issued| == i
    decreases k
  {
    hide Next, Inv;
    assert k > 0;
    var s, n := After(t, es, k - 1), After(t, es, k);
    HistoryGrows(t, s, es[k - 1]);
    if i < |s.issued| {
      a := IssueEvent(t, es, k - 1, i);
      assert n.issued[..|s.issued|][i] == n.issued[i];
    } else {
      a := k - 1;
      LegalKeeps(t, es, a);
      PollIssuesOne(t, s, es[a].now);
    }
  }

  /** Every outcome was reported about an issued request, once. */
  lemma OutcomeOf(s: System, o: Outcome)
    requires Inv(s) && o in s.outcomes
    ensures 0 < o.id <= |s.issued| && s.issued[o.id - 1].id == o.id && !HasId(s.q.flights, o.id)
    ensures forall p :: p in s.outcomes && p.id == o.id ==> p == o
  {
    hide FlightsInv, QueueInv;
    var i :| 0 <= i < |s.outcomes| && s.outcomes[i] == o;
    assert OutcomeInv(s, s.outcomes[i]);
    assert IssueInv(s, o.id - 1);
    forall p | p in s.outcomes && p.id == o.id
      ensures p == o
    {
      var j :| 0 <= j < |s.outcomes| && s.outcomes[j] == p;
      assert !(i < j) && !(j < i);
    }
  }

  /** In every run the outcomes are exactly these: for each request issued, once an event has ended it, what the first
      such event reports. */
  lemma OutcomesAccounted(t: Timeouts, es: seq<Event>, k: nat, o: Outcome)
    requires Legal(t, es) && k <= |es|
    ensures o in After(t, es, k).outcomes <==> exists a: nat, r, b: nat :: b < k && Answers(t, es, a, r, b, o)
  {
    hide After, Answers, Legal;
    if o in After(t, es, k).outcomes {
      FindAnswer(t, es, k, o);
    }
    if a: nat, r, b: nat :| b < k && Answers(t, es, a, r, b, o) {
      AnswerReported(t, es, a, r, b, o);
      OutcomesLast(t, es, b + 1, k, o);
    }
  }

  lemma AnswerReported(t: Timeouts, es: seq<Event>, a: nat, r: Issued, b: nat, o: Outcome)
    requires Legal(t, es) && Answers(t, es, a, r, b, o)
    ensures o in After(t, es, b + 1).outcomes
  {
    hide Next, Inv, Ends, After, IssuedAt, Open, Legal;
    IssuedByPoll(t, es, a, r);
    var p := EndTracked(t, es, a, r, b);
    assert p == o;
  }

  lemma FindAnswer(t: Timeouts, es: seq<Event>, k: nat, o: Outcome)
    requires Legal(t, es) && k <= |es| && o in After(t, es, k).outcomes
    ensures exists a: nat, r, b: nat :: b < k && Answers(t, es, a, r, b, o)
  {
    hide Next, Inv, Answers, IssuedAt, Open;
    var s := After(t, es, k);
    LegalKeeps(t, es, k);
    OutcomeOf(s, o);
    var r := s.issued[o.id - 1];
    var a := IssueEvent(t, es, k, o.id - 1);
    IssuedByPoll(t, es, a, r);
    AllTracked(t, es, a, r, k);
    OpenIsAloft(t, es, a, r, k);
    var b: nat, p :| b < k && Answers(t, es, a, r, b, p) && p in s.outcomes;
    AnswerId(t, es, a, r, b, p);
    assert p == o;
  }

  lemma OpenIsAloft(t: Timeouts, es: seq<Event>, a: nat, r: Issued, k: nat)
    requires a < k <= |es| && es[a].Poll? && Tracked(t, es, a, r, k)
    ensures Open(t, es, a, r, k) ==> HasId(After(t, es, k).q.flights, r.id)
  {
    hide After, Open, Answers;
  }

  lemma IssuedByPoll(t: Timeouts, es: seq<Event>, a: nat, r: Issued)
    requires a < |es| && IssuedAt(t, es, a, r)
    ensures es[a].Poll?
  {
  }

  lemma AnswerId(t: Timeouts, es: seq<Event>, a: nat, r: Issued, b: nat, o: Outcome)
    requires Answers(t, es, a, r, b, o)
    ensures o.id == r.id
  {
  }

  lemma {:induction false} OutcomesLast(t: Timeouts, es: seq<Event>, j: nat, k: nat, o: Outcome)
    requires j <= k <= |es| && o in After(t, es, j).outcomes
    ensures o in After(t, es, k).outcomes
    decreases k
  {
    hide Next;
    if j < k {
      OutcomesLast(t, es, j, k - 1, o);
      HistoryGrows(t, After(t, es, k - 1), es[k - 1]);
    }
  }
}
