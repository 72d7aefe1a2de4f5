/** `QueueHealthMonitor` of packages/broker/src/aerial_rescue_broker/monitoring.py: polls coalesced around reads.

    A read of the transport collects rows, fails with one of the two error types `poll` converts, or lets some
    other exception escape. The pacer's own clock refusal is of that last kind. */
module QueueMonitor {
  import opened Options
  import opened RequestPacer
  import opened QueueHealth

  const POLL_INTERVAL: real := 30.0

  datatype Refusal = ClockInvalid | ReadIncomplete

  datatype Read = Collected(states: seq<Depth>, bindCounts: map<Name, nat>) | Failed | Escaped

  datatype Outcome = Returned(snapshot: Snapshot) | Raised(refusal: Refusal) | Propagated

  datatype Monitor = Monitor(
    lastClock: Option<real>, lastAttempt: Option<real>, snapshot: Option<Snapshot>, failure: Option<Refusal>)

  datatype Polled = Polled(monitor: Monitor, outcome: Outcome, attempted: bool)

  const FRESH: Monitor := Monitor(None, None, None, None)

  /** What a read at an instant means to the caller of `poll`. */
  function OutcomeOf(expected: seq<QueueSpec>, at: real, read: Read): Outcome {
    match read
    case Collected(states, bindCounts) => Returned(SnapshotOf(states, bindCounts, expected, at))
    case Failed => Raised(ReadIncomplete)
    case Escaped => Propagated
  }

  /** The coalesced outcome, while the attempt interval is live. */
  function Cached(m: Monitor, now: real): Option<Outcome> {
    if m.lastAttempt == None || now - m.lastAttempt.value >= POLL_INTERVAL then None
    else if m.failure.Some? then Some(Raised(m.failure.value))
    else if m.snapshot.Some? then Some(Returned(m.snapshot.value))
    else None
  }

  function Attempted(m: Monitor, expected: seq<QueueSpec>, now: real, read: Read): Monitor {
    match read
    case Collected(states, bindCounts) =>
      m.(lastAttempt := Some(now), snapshot := Some(SnapshotOf(states, bindCounts, expected, now)), failure := None)
    case Failed => m.(lastAttempt := Some(now), failure := Some(ReadIncomplete))
    case Escaped => m.(lastAttempt := Some(now))
  }

  function PollOf(m: Monitor, expected: seq<QueueSpec>, now: Clock, read: Read): Polled {
    if Refuses(m.lastClock, now) then Polled(m, Raised(ClockInvalid), false)
    else
      var ticked := m.(lastClock := Some(now.at));
      match Cached(ticked, now.at)
      case Some(outcome) => Polled(ticked, outcome, false)
      case None => Polled(Attempted(ticked, expected, now.at, read), OutcomeOf(expected, now.at, read), true)
  }

  class QueueHealthMonitor {
    const expected: seq<QueueSpec>
    var lastClock: Option<real>
    var lastAttempt: Option<real>
    var snapshot: Option<Snapshot>
    var failure: Option<Refusal>

    constructor (expected: seq<QueueSpec>)
      ensures this.expected == expected && Model() == FRESH
    {
      this.expected := expected;
      lastClock, lastAttempt, snapshot, failure := None, None, None, None;
    }

    ghost function Model(): Monitor
      reads this
    {
      Monitor(lastClock, lastAttempt, snapshot, failure)
    }

    /** `_now` */
    method Now(reading: Clock) returns (now: Option<real>)
      modifies this`lastClock
      ensures now == if Refuses(old(lastClock), reading) then None else Some(reading.at)
      ensures lastClock == if now == None then old(lastClock) else now
    {
      if reading == NotFinite || (lastClock.Some? && reading.at < lastClock.value) {
        return None;
      }
      lastClock := Some(reading.at);
      return lastClock;
    }

    method Poll(reading: Clock, read: Read) returns (outcome: Outcome, attempted: bool)
      modifies this
      ensures Polled(Model(), outcome, attempted) == PollOf(old(Model()), expected, reading, read)
    {
      var now := Now(reading);
      if now == None {
        return Raised(ClockInvalid), false;
      }
      if lastAttempt.Some? && now.value - lastAttempt.value < POLL_INTERVAL {
        if failure.Some? {
          return Raised(failure.value), false;
        }
        if snapshot.Some? {
          return Returned(snapshot.value), false;
        }
      }
      lastAttempt := now;
      match read {
        case Escaped => return Propagated, true;
        case Failed =>
          failure := Some(ReadIncomplete);
          return Raised(ReadIncomplete), true;
        case Collected(states, bindCounts) =>
          var collected := SnapshotOf(states, bindCounts, expected, now.value);
          snapshot := Some(collected);
          failure := None;
          return Returned(collected), true;
      }
    }
  }

  // ---------------------------------------------------------------- what a run leaves behind

  datatype Attempt = Attempt(at: real, read: Read)

  predicate AllEscaped(h: seq<Attempt>) {
    forall i :: 0 <= i < |h| ==> h[i].read.Escaped?
  }

  /** The last attempt that did not escape. */
  function Settled(h: seq<Attempt>): (r: Option<Attempt>)
    ensures r == None <==> AllEscaped(h)
    ensures r.Some? ==> r.value in h && !r.value.read.Escaped?
  {
    if h == [] then None
    else if !h[|h| - 1].read.Escaped? then Some(h[|h| - 1])
    else Settled(h[..|h| - 1])
  }

  /** The snapshot of the last attempt that collected. */
  function LastCollected(expected: seq<QueueSpec>, h: seq<Attempt>): Option<Snapshot> {
    if h == [] then None
    else
      var last := h[|h| - 1];
      if last.read.Collected? then Some(OutcomeOf(expected, last.at, last.read).snapshot)
      else LastCollected(expected, h[..|h| - 1])
  }

  /** An attempt follows the one before it by less than the interval only when every attempt so far escaped. */
  ghost predicate SpacedUnlessEscaped(h: seq<Attempt>) {
    forall k :: 0 < k < |h| ==> h[k].at - h[k - 1].at >= POLL_INTERVAL || AllEscaped(h[..k])
  }

  /** The fields are the ones the attempts so far account for. */
  ghost predicate Explains(m: Monitor, expected: seq<QueueSpec>, h: seq<Attempt>) {
    && m.lastAttempt == (if h == [] then None else Some(h[|h| - 1].at))
    && (h != [] ==> m.lastClock.Some? && m.lastClock.value >= h[|h| - 1].at)
    && m.failure == (if Settled(h).Some? && Settled(h).value.read.Failed? then Some(ReadIncomplete) else None)
    && m.snapshot == LastCollected(expected, h)
    && SpacedUnlessEscaped(h)
  }

  function After(h: seq<Attempt>, p: Polled, now: Clock, read: Read): seq<Attempt> {
    if p.attempted && now.Instant? then h + [Attempt(now.at, read)] else h
  }

  /** A poll reads the transport exactly when its clock is accepted and either no attempt is live or every
      attempt so far let an exception escape. */
  lemma PollReadsExactly(m: Monitor, expected: seq<QueueSpec>, h: seq<Attempt>, now: Clock, read: Read)
    requires Explains(m, expected, h)
    ensures PollOf(m, expected, now, read).attempted
            <==> && !Refuses(m.lastClock, now)
                 && (h == [] || now.at - h[|h| - 1].at >= POLL_INTERVAL || AllEscaped(h))
  {
    CollectedSettled(expected, h);
  }

  /** Something was retained exactly when some attempt did not escape. */
  lemma {:induction false} CollectedSettled(expected: seq<QueueSpec>, h: seq<Attempt>)
    ensures AllEscaped(h) ==> LastCollected(expected, h) == None
    ensures Settled(h).Some? && Settled(h).value.read.Collected?
            ==> LastCollected(expected, h)
                == Some(OutcomeOf(expected, Settled(h).value.at, Settled(h).value.read).snapshot)
  {
    if h != [] && h[|h| - 1].read.Escaped? {
      CollectedSettled(expected, h[..|h| - 1]);
    }
  }

  lemma AttemptAdded(expected: seq<QueueSpec>, h: seq<Attempt>, a: Attempt)
    requires SpacedUnlessEscaped(h)
    requires h == [] || a.at - h[|h| - 1].at >= POLL_INTERVAL || AllEscaped(h)
    ensures SpacedUnlessEscaped(h + [a])
    ensures Settled(h + [a]) == if a.read.Escaped? then Settled(h) else Some(a)
    ensures LastCollected(expected, h + [a])
            == if a.read.Collected? then Some(OutcomeOf(expected, a.at, a.read).snapshot)
                else LastCollected(expected, h)
  {
    var more := h + [a];
    assert more[..|more| - 1] == h;
    forall k | 0 < k < |more|
      ensures more[k].at - more[k - 1].at >= POLL_INTERVAL || AllEscaped(more[..k])
    {
      assert more[..k] == h[..k];
      if k == |h| {
        assert h[..k] == h;
      } else {
        assert h[k].at - h[k - 1].at >= POLL_INTERVAL || AllEscaped(h[..k]);
      }
    }
  }

  lemma PollExplained(m: Monitor, expected: seq<QueueSpec>, h: seq<Attempt>, now: Clock, read: Read)
    requires Explains(m, expected, h)
    ensures var p := PollOf(m, expected, now, read);
      p.attempted ==> now.Instant?
    ensures var p := PollOf(m, expected, now, read); Explains(p.monitor, expected, After(h, p, now, read))
  {
    PollReadsExactly(m, expected, h, now, read);
    if PollOf(m, expected, now, read).attempted {
      AttemptExplained(m.(lastClock := Some(now.at)), expected, h, Attempt(now.at, read));
    }
  }

  lemma AttemptExplained(m: Monitor, expected: seq<QueueSpec>, h: seq<Attempt>, a: Attempt)
    requires Explains(m, expected, h) && m.lastClock == Some(a.at)
    requires h == [] || a.at - h[|h| - 1].at >= POLL_INTERVAL || AllEscaped(h)
    ensures Explains(Attempted(m, expected, a.at, a.read), expected, h + [a])
  {
    AttemptAdded(expected, h, a);
    assert (h + [a])[|h + [a]| - 1] == a;
  }

  /** A poll that does not read repeats what the last attempt that did not escape came to. */
  lemma PollRepeats(m: Monitor, expected: seq<QueueSpec>, h: seq<Attempt>, now: Clock, read: Read)
    requires Explains(m, expected, h) && !Refuses(m.lastClock, now)
    requires !PollOf(m, expected, now, read).attempted
    ensures Settled(h).Some?
    ensures PollOf(m, expected, now, read).outcome == OutcomeOf(expected, Settled(h).value.at, Settled(h).value.read)
  {
    PollReadsExactly(m, expected, h, now, read);
    CollectedSettled(expected, h);
  }

  ghost predicate Increasing(h: seq<Attempt>) {
    forall k :: 0 < k < |h| ==> h[k - 1].at <= h[k].at
  }

  lemma {:induction false} SettledNoLater(h: seq<Attempt>)
    requires Increasing(h) && Settled(h).Some?
    ensures Settled(h).value.at <= h[|h| - 1].at
  {
    if h[|h| - 1].read.Escaped? {
      var before := h[..|h| - 1];
      SettledNoLater(before);
      assert h[|h| - 1 - 1].at <= h[|h| - 1].at;
    }
  }

  // ---------------------------------------------------------------- every run

  datatype Call = Call(now: Clock, read: Read)

  datatype Run = Run(monitor: Monitor, attempts: seq<Attempt>)

  function Polls(expected: seq<QueueSpec>, calls: seq<Call>): Run {
    if calls == [] then Run(FRESH, [])
    else
      var before := Polls(expected, calls[..|calls| - 1]);
      var call := calls[|calls| - 1];
      var p := PollOf(before.monitor, expected, call.now, call.read);
      Run(p.monitor, After(before.attempts, p, call.now, call.read))
  }

  lemma {:induction false} RunExplained(expected: seq<QueueSpec>, calls: seq<Call>)
    ensures var r := Polls(expected, calls); Explains(r.monitor, expected, r.attempts) && Increasing(r.attempts)
  {
    if calls != [] {
      RunExplained(expected, calls[..|calls| - 1]);
      var before := Polls(expected, calls[..|calls| - 1]);
      var call := calls[|calls| - 1];
      PollExplained(before.monitor, expected, before.attempts, call.now, call.read);
    }
  }

  lemma {:induction false} OnlyGivenReads(expected: seq<QueueSpec>, calls: seq<Call>)
    requires forall i :: 0 <= i < |calls| ==> !calls[i].read.Escaped?
    ensures forall i :: 0 <= i < |Polls(expected, calls).attempts| ==> !Polls(expected, calls).attempts[i].read.Escaped?
  {
    if calls != [] {
      OnlyGivenReads(expected, calls[..|calls| - 1]);
    }
  }

  function OutcomeOfLast(expected: seq<QueueSpec>, h: seq<Attempt>): Outcome
    requires h != []
  {
    OutcomeOf(expected, h[|h| - 1].at, h[|h| - 1].read)
  }

  /** When no exception escapes the transport, read attempts are at least the interval apart in every run, and
      a poll between them repeats the outcome of the latest attempt. */
  lemma AttemptsSpaced(expected: seq<QueueSpec>, calls: seq<Call>, now: Clock, read: Read)
    requires forall i :: 0 <= i < |calls| ==> !calls[i].read.Escaped?
    ensures var h := Polls(expected, calls).attempts;
      forall k :: 0 < k < |h| ==> h[k].at - h[k - 1].at >= POLL_INTERVAL
    ensures var r := Polls(expected, calls);
      var p := PollOf(r.monitor, expected, now, read);
      !Refuses(r.monitor.lastClock, now) && !p.attempted
      ==> r.attempts != [] && p.outcome == OutcomeOfLast(expected, r.attempts)
  {
    RunExplained(expected, calls);
    OnlyGivenReads(expected, calls);
    var r := Polls(expected, calls);
    var h := r.attempts;
    forall k | 0 < k < |h|
      ensures h[k].at - h[k - 1].at >= POLL_INTERVAL
    {
      assert h[..k][0] == h[0];
    }
    if !Refuses(r.monitor.lastClock, now) && !PollOf(r.monitor, expected, now, read).attempted {
      PollRepeats(r.monitor, expected, h, now, read);
    }
  }

  /** In every run, a repeated snapshot is younger than the interval exactly when the last attempt did not
      escape: after an escape, the interval of that attempt keeps an outdated snapshot alive. */
  lemma RepeatedSnapshotFreshExactly(expected: seq<QueueSpec>, calls: seq<Call>, now: Clock, read: Read)
    requires var m := Polls(expected, calls).monitor;
      !Refuses(m.lastClock, now) && !PollOf(m, expected, now, read).attempted
          && PollOf(m, expected, now, read).outcome.Returned?
    ensures Polls(expected, calls).attempts != []
    ensures var r := Polls(expected, calls);
      now.at - PollOf(r.monitor, expected, now, read).outcome.snapshot.collectedAt < POLL_INTERVAL
      <==> !r.attempts[|r.attempts| - 1].read.Escaped?
  {
    RunExplained(expected, calls);
    var r := Polls(expected, calls);
    RepeatIsFresh(r.monitor, expected, r.attempts, now, read);
  }

  lemma RepeatIsFresh(m: Monitor, expected: seq<QueueSpec>, h: seq<Attempt>, now: Clock, read: Read)
    requires Explains(m, expected, h) && Increasing(h) && !Refuses(m.lastClock, now)
    requires !PollOf(m, expected, now, read).attempted && PollOf(m, expected, now, read).outcome.Returned?
    ensures h != []
    ensures now.at - PollOf(m, expected, now, read).outcome.snapshot.collectedAt < POLL_INTERVAL
            <==> !h[|h| - 1].read.Escaped?
  {
    PollReadsExactly(m, expected, h, now, read);
    PollRepeats(m, expected, h, now, read);
    if h[|h| - 1].read.Escaped? {
      var before, k := h[..|h| - 1], |h| - 1;
      assert Settled(h) == Settled(before);
      assert h[..k] == before && k > 0;
      assert !AllEscaped(h[..k]);
      SettledNoLater(before);
    }
  }

  /** In every run, an attempt comes early only after nothing but escapes. */
  lemma EarlyOnlyAfterEscapes(expected: seq<QueueSpec>, calls: seq<Call>, k: nat)
    requires 0 < k < |Polls(expected, calls).attempts|
    ensures var h := Polls(expected, calls).attempts; h[k].at - h[k - 1].at >= POLL_INTERVAL || AllEscaped(h[..k])
  {
    RunExplained(expected, calls);
  }

  /** Two polls a second apart both read when the first one's exception escapes. */
  lemma EarlyReadExample(expected: seq<QueueSpec>, read: Read)
    ensures Polls(expected, [Call(Instant(0.0), Escaped), Call(Instant(1.0), read)]).attempts
            == [Attempt(0.0, Escaped), Attempt(1.0, read)]
  {
    var calls := [Call(Instant(0.0), Escaped), Call(Instant(1.0), read)];
    assert calls[..1] == [calls[0]] && calls[..1][..0] == [];
    assert Polls(expected, []) == Run(FRESH, []);
    assert Polls(expected, calls[..1]).attempts == [Attempt(0.0, Escaped)];
  }
}
