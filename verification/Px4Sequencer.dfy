/** The PX4 requests of a mission execution: engage (arm, then OFFBOARD) and release (OFFBOARD off,
    then disarm), one at a time, with timeouts. Times are nanoseconds. */
module Px4Sequencer {
  import opened Common

  datatype Op = Arm | OffboardOn | OffboardOff | Disarm
  datatype Verdict = Accepted | Rejected | TimedOut

  /** ArmDisarm REASON_TIMEOUT: the command went out and PX4 did not confirm in time. */
  const REASON_TIMEOUT: nat := 3

  datatype ArmState = NoArm | ArmInFlight | ArmConfirmed | ArmRefused | ArmDoubt

  datatype Flight = Flight(op: Op, id: nat, deadline: int, abandoned: bool)
  datatype Outcome = Outcome(op: Op, id: nat, verdict: Verdict, reason: nat, abandoned: bool)
  datatype Timeouts = Timeouts(arm: nat, offboard: nat)

  predicate IsRelease(op: Op) { op == OffboardOff || op == Disarm }

  function TimeoutOf(t: Timeouts, op: Op): nat {
    if op == Arm || op == Disarm then t.arm else t.offboard
  }

  datatype Sequencer = Sequencer(
    queue: seq<Op>,
    flights: seq<Flight>,
    arm: ArmState,
    armedEarlier: bool,
    offboardRequested: bool,
    releasing: bool,
    nextId: nat) {

    predicate Busy() { flights != [] || queue != [] }

    predicate ArmOwned() {
      armedEarlier || arm == ArmInFlight || arm == ArmConfirmed || arm == ArmDoubt
    }

    predicate Waiting() { exists f :: f in flights && !f.abandoned }
  }

  const INITIAL: Sequencer := Sequencer([], [], NoArm, false, false, false, 1)

  // ---------------------------------------------------------------- operations

  function BeginExecution(q: Sequencer): Sequencer {
    Sequencer([], [], NoArm, false, false, false, q.nextId)
  }

  function Engage(q: Sequencer, op: Op): Sequencer {
    if q.releasing || IsRelease(op) then q else q.(queue := q.queue + [op])
  }

  function Abandon(fs: seq<Flight>): seq<Flight> {
    seq(|fs|, i requires 0 <= i < |fs| => fs[i].(abandoned := true))
  }

  function Release(q: Sequencer, force: bool): Sequencer {
    if q.releasing then
      if force && Disarm !in q.queue && !(exists f :: f in q.flights && f.op == Disarm)
      then q.(queue := q.queue + [Disarm]) else q
    else
      q.(releasing := true, flights := Abandon(q.flights),
         queue := (if q.offboardRequested then [OffboardOff] else []) +
                  (if force || q.ArmOwned() then [Disarm] else []))
  }

  function Issue(t: Timeouts, q: Sequencer, now: int): (r: (Sequencer, Option<Flight>)) {
    if q.queue == [] || q.Waiting() then (q, None)
    else
      var op := q.queue[0];
      var f := Flight(op, q.nextId, now + TimeoutOf(t, op), false);
      (q.(queue := q.queue[1..], flights := q.flights + [f], nextId := q.nextId + 1,
          arm := if op == Arm then ArmInFlight else q.arm,
          offboardRequested := q.offboardRequested || op == OffboardOn),
       Some(f))
  }

  function ArmAfter(verdict: Verdict, reason: nat): ArmState {
    if verdict == Accepted then ArmConfirmed
    else if verdict == TimedOut || reason == REASON_TIMEOUT then ArmDoubt
    else ArmRefused
  }

  function NoteArm(q: Sequencer, verdict: Verdict, reason: nat): Sequencer {
    var a := ArmAfter(verdict, reason);
    q.(arm := a, armedEarlier := q.armedEarlier || a == ArmConfirmed || a == ArmDoubt)
  }

  function Find(fs: seq<Flight>, id: nat): (i: nat)
    ensures i <= |fs|
    ensures i < |fs| ==> fs[i].id == id
    ensures forall j :: 0 <= j < i ==> fs[j].id != id
  {
    if fs == [] then 0 else if fs[0].id == id then 0 else 1 + Find(fs[1..], id)
  }

  function OnResponse(q: Sequencer, id: nat, accepted: bool, reason: nat): (Sequencer, Option<Outcome>) {
    var i := Find(q.flights, id);
    if i == |q.flights| then (q, None)
    else
      var f := q.flights[i];
      var verdict := if accepted then Accepted else Rejected;
      var rest := q.(flights := q.flights[..i] + q.flights[i + 1..]);
      (if f.op == Arm then NoteArm(rest, verdict, reason) else rest,
       Some(Outcome(f.op, id, verdict, reason, f.abandoned)))
  }

  function Overdue(f: Flight): Outcome {
    Outcome(f.op, f.id, TimedOut, 0, f.abandoned)
  }

  function Kept(fs: seq<Flight>, now: int): seq<Flight> {
    if fs == [] then [] else (if now < fs[0].deadline then [fs[0]] else []) + Kept(fs[1..], now)
  }

  function Expired(fs: seq<Flight>, now: int): seq<Outcome> {
    if fs == [] then [] else (if now < fs[0].deadline then [] else [Overdue(fs[0])]) + Expired(fs[1..], now)
  }

  function OnTick(q: Sequencer, now: int): (Sequencer, seq<Outcome>) {
    var out := Expired(q.flights, now);
    var rest := q.(flights := Kept(q.flights, now));
    (if HasArm(out) then NoteArm(rest, TimedOut, 0) else rest, out)
  }

  predicate HasArm(out: seq<Outcome>) {
    exists o :: o in out && o.op == Arm
  }

  lemma HasArmAppend(out: seq<Outcome>, o: Outcome)
    ensures HasArm(out + [o]) <==> HasArm(out) || o.op == Arm
  {
    if HasArm(out) {
      var x :| x in out && x.op == Arm;
      assert x in out + [o];
    }
    assert o in out + [o];
  }

  // ---------------------------------------------------------------- the object

  class Sequencing {
    const timeouts: Timeouts
    var queue: seq<Op>
    var flights: seq<Flight>
    var arm: ArmState
    var armedEarlier: bool
    var offboardRequested: bool
    var releasing: bool
    var nextId: nat

    function Model(): Sequencer
      reads this
    {
      Sequencer(queue, flights, arm, armedEarlier, offboardRequested, releasing, nextId)
    }

    constructor (timeouts: Timeouts)
      ensures this.timeouts == timeouts && Model() == INITIAL
    {
      this.timeouts := timeouts;
      queue, flights, arm, armedEarlier, offboardRequested, releasing, nextId := [], [], NoArm, false, false, false, 1;
    }

    method DoBeginExecution()
      requires !Model().Busy()
      modifies this
      ensures Model() == BeginExecution(old(Model()))
    {
      queue, flights := [], [];
      arm, armedEarlier, offboardRequested, releasing := NoArm, false, false, false;
    }

    method DoEngage(op: Op)
      modifies this
      ensures Model() == Engage(old(Model()), op)
    {
      if releasing || IsRelease(op) { return; }
      queue := queue + [op];
    }

    method AbandonFlights()
      modifies `flights
      ensures flights == Abandon(old(flights))
    {
      for i := 0 to |flights|
        invariant flights == Abandon(old(flights))[..i] + old(flights)[i..]
      {
        flights := flights[i := flights[i].(abandoned := true)];
      }
    }

    method DoRelease(force: bool)
      modifies this
      ensures Model() == Release(old(Model()), force)
    {
      hide Abandon;
      if releasing {
        if force && Disarm !in queue {
          var inFlight := exists f :: f in flights && f.op == Disarm;
          if !inFlight { queue := queue + [Disarm]; }
        }
        return;
      }
      releasing := true;
      queue := [];
      AbandonFlights();
      if offboardRequested { queue := queue + [OffboardOff]; }
      if force || Model().ArmOwned() { queue := queue + [Disarm]; }
    }

    method DoNext(now: int) returns (r: Option<Flight>)
      modifies this
      ensures (Model(), r) == Issue(timeouts, old(Model()), now)
    {
      if queue == [] { return None; }
      if exists f :: f in flights && !f.abandoned { return None; }
      var f := Flight(queue[0], nextId, now + TimeoutOf(timeouts, queue[0]), false);
      nextId := nextId + 1;
      queue := queue[1..];
      if f.op == Arm { arm := ArmInFlight; }
      if f.op == OffboardOn { offboardRequested := true; }
      flights := flights + [f];
      return Some(f);
    }

    method DoNoteArm(verdict: Verdict, reason: nat)
      modifies `arm, `armedEarlier
      ensures Model() == NoteArm(old(Model()), verdict, reason)
    {
      if verdict == Accepted {
        arm := ArmConfirmed;
      } else if verdict == TimedOut || reason == REASON_TIMEOUT {
        arm := ArmDoubt;
      } else {
        arm := ArmRefused;
      }
      if arm == ArmConfirmed || arm == ArmDoubt { armedEarlier := true; }
    }

    method DoOnResponse(id: nat, accepted: bool, reason: nat) returns (r: Option<Outcome>)
      modifies this
      ensures (Model(), r) == OnResponse(old(Model()), id, accepted, reason)
    {
      var i := Find(flights, id);
      if i == |flights| { return None; }
      var f := flights[i];
      var o := Outcome(f.op, id, if accepted then Accepted else Rejected, reason, f.abandoned);
      flights := flights[..i] + flights[i + 1..];
      if o.op == Arm { DoNoteArm(o.verdict, reason); }
      return Some(o);
    }

    /** The erase-while-iterating loop over the flights in order. */
    method DoOnTick(now: int) returns (out: seq<Outcome>)
      modifies `flights, `arm, `armedEarlier
      ensures (Model(), out) == OnTick(old(Model()), now)
    {
      hide Kept, Expired, HasArm;
      NoArmYet();
      var i := 0;
      out := [];
      ghost var fs, n := flights, 0;
      assert fs[0..] == fs;
      while i < |flights|
        invariant n <= |fs| && i <= |flights| && flights[i..] == fs[n..]
        invariant Kept(fs, now) == flights[..i] + Kept(fs[n..], now)
        invariant Expired(fs, now) == out + Expired(fs[n..], now)
        invariant if HasArm(out) then arm == ArmDoubt && armedEarlier
                  else arm == old(arm) && armedEarlier == old(armedEarlier)
        decreases |flights| - i
      {
        SweepStep(fs, n, now);
        assert flights[i] == fs[n] && flights[i + 1..] == fs[n + 1..];
        if now < flights[i].deadline {
          assert flights[..i + 1] == flights[..i] + [fs[n]];
          i := i + 1;
        } else {
          var o := Overdue(flights[i]);
          if o.op == Arm { DoNoteArm(TimedOut, 0); }
          HasArmAppend(out, o);
          out := out + [o];
          assert (flights[..i] + flights[i + 1..])[..i] == flights[..i];
          assert (flights[..i] + flights[i + 1..])[i..] == flights[i + 1..];
          flights := flights[..i] + flights[i + 1..];
        }
        n := n + 1;
      }
      SweepEnd(fs[n..], now);
      assert flights[..i] + [] == flights && out + [] == out;
    }
  }

  lemma NoArmYet()
    ensures !HasArm([])
  {
  }

  lemma SweepEnd(fs: seq<Flight>, now: int)
    requires fs == []
    ensures Kept(fs, now) == [] && Expired(fs, now) == []
  {
  }

  lemma SweepStep(fs: seq<Flight>, n: nat, now: int)
    requires n < |fs|
    ensures Kept(fs[n..], now) == (if now < fs[n].deadline then [fs[n]] else []) + Kept(fs[n + 1..], now)
    ensures Expired(fs[n..], now) == (if now < fs[n].deadline then [] else [Overdue(fs[n])]) + Expired(fs[n + 1..], now)
  {
    assert fs[n..][1..] == fs[n + 1..];
  }
}
