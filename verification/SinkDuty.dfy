/** What the serial sink must do at each call: when it opens the device, how much of a frame gets out, when it gives the
    device up, and for how long. */
module SinkDuty {
  import opened Common
  import opened UsbSink

  // ---------------------------------------------------------------- one frame

  /** The bytes that the attempts can write before the first one that fails or writes nothing. */
  function Room(attempts: seq<Attempt>): nat {
    if attempts == [] then 0
    else match attempts[0]
      case Wrote(n) => if n == 0 then 0 else n + Room(attempts[1..])
      case Again => Room(attempts[1..])
      case Fail => 0
  }

  /** The write loop gets through the whole frame if there is room for it, and else as far as there is. */
  lemma {:induction false} PushExact(frame: Frame, offset: nat, attempts: seq<Attempt>)
    requires offset <= |frame|
    ensures Push(frame, offset, attempts).0 ==
            if offset + Room(attempts) < |frame| then offset + Room(attempts) else |frame|
    decreases |attempts|
  {
    if offset < |frame| && attempts != [] {
      match attempts[0]
      case Wrote(n) =>
        if n > 0 {
          PushExact(frame, offset + (if n < |frame| - offset then n else |frame| - offset), attempts[1..]);
        }
      case Again => PushExact(frame, offset, attempts[1..]);
      case Fail =>
    }
  }

  // ---------------------------------------------------------------- one call

  /** The device is closed and may be tried: there is one, and the hold-off is over. */
  predicate Tries(cfg: Config, s: Sink, now: real) { s.live.None? && cfg.hasDevice && s.nextOpen <= now }

  /** The device is open for this call. */
  predicate Ready(cfg: Config, s: Sink, now: real, opens: bool) { s.live.Some? || (Tries(cfg, s, now) && opens) }

  /** The call finds the device failing: it does not open, is lost under way, takes too little, or cannot be read. */
  predicate Fails(cfg: Config, s: Sink, op: Op) {
    match op
    case OpenAt(now, opens) => Tries(cfg, s, now) && !opens
    case DeliverAt(f, now, opens, lost, attempts) =>
      if Ready(cfg, s, now, opens) then lost || Room(attempts) < |f| else Tries(cfg, s, now)
    case CloseNow => false
    case ReadFails(_) => s.live.Some?
  }

  function When(op: Op): real
    requires !op.CloseNow?
  {
    op.now
  }

  /** After any call: the device is open exactly when the call found or made it open and nothing failed; a failure is
      counted and starts the hold-off, and nothing else changes either. */
  lemma CallExact(cfg: Config, s: Sink, op: Op)
    ensures
      var t := Step(cfg, s, op);
      && (t.live.Some? <==>
            match op
            case OpenAt(now, opens) => Ready(cfg, s, now, opens)
            case DeliverAt(f, now, opens, lost, attempts) =>
              Ready(cfg, s, now, opens) && !lost && Room(attempts) >= |f|
            case CloseNow => false
            case ReadFails(_) => false)
      && t.counters.failures == s.counters.failures + (if Fails(cfg, s, op) then 1 else 0)
      && t.nextOpen == if Fails(cfg, s, op) then When(op) + cfg.reopenDelay else s.nextOpen
  {
    hide Push, Room;
    if op.DeliverAt? { PushExact(op.frame, 0, op.attempts); }
  }

  /** A delivery counts exactly when the device is open for it, stays, and takes the whole frame; then the open session
      has received it whole. */
  lemma DeliveryExact(cfg: Config, s: Sink, op: Op)
    requires op.DeliverAt?
    ensures
      var t := Step(cfg, s, op);
      var whole := Ready(cfg, s, op.now, op.opens) && !op.lost && Room(op.attempts) >= |op.frame|;
      && Reaches(cfg, s, op) == (Ready(cfg, s, op.now, op.opens) && !op.lost)
      && t.counters.framesDelivered == s.counters.framesDelivered + (if whole then 1 else 0)
      && t.counters.bytesDelivered == s.counters.bytesDelivered + (if whole then |op.frame| else 0)
      && (whole ==>
            var x := if s.live.Some? then s.live.value else Session([], []);
            t.live == Some(Session(x.frames + [op.frame], x.bytes + op.frame)))
  {
    hide Push, Room;
    PushExact(op.frame, 0, op.attempts);
  }

  // ---------------------------------------------------------------- runs

  /** The time of the latest failure in a run. */
  function LastFailure(cfg: Config, ops: seq<Op>): Option<real> {
    if ops == [] then None
    else
      var front, op := ops[..|ops| - 1], ops[|ops| - 1];
      if Fails(cfg, Run(cfg, INITIAL, front), op) then FailedAt(op) else LastFailure(cfg, front)
  }

  function FailedAt(op: Op): Option<real> { if op.CloseNow? then None else Some(op.now) }

  function FailureCount(cfg: Config, ops: seq<Op>): nat {
    if ops == [] then 0
    else
      var front, op := ops[..|ops| - 1], ops[|ops| - 1];
      FailureCount(cfg, front) + if Fails(cfg, Run(cfg, INITIAL, front), op) then 1 else 0
  }

  /** In every run the device is held off until the reopen delay after the latest failure, and the failures are
      counted. */
  lemma {:induction false} HeldOffSince(cfg: Config, ops: seq<Op>)
    ensures
      var s, last := Run(cfg, INITIAL, ops), LastFailure(cfg, ops);
      && s.nextOpen == (if last.Some? then last.value + cfg.reopenDelay else 0.0)
      && s.counters.failures == FailureCount(cfg, ops)
  {
    hide Step, Fails;
    if ops != [] {
      var front, op := ops[..|ops| - 1], ops[|ops| - 1];
      HeldOffSince(cfg, front);
      CallExact(cfg, Run(cfg, INITIAL, front), op);
      CloseNeverFails(cfg, Run(cfg, INITIAL, front), op);
    }
  }

  lemma CloseNeverFails(cfg: Config, s: Sink, op: Op)
    ensures op.CloseNow? ==> !Fails(cfg, s, op)
  {
  }
}
