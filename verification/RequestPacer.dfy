/** `SempRequestPacer` of packages/broker/src/aerial_rescue_broker/monitoring.py, over exact reals. */
module RequestPacer {
  import opened Options

  const REQUESTS_PER_SECOND: int := 5
  const INTERVAL: real := 1.0 / (REQUESTS_PER_SECOND as real)

  /** A clock reading; a value that is not finite cannot take part in interval arithmetic. */
  datatype Clock = Instant(at: real) | NotFinite

  predicate Refuses(last: Option<real>, now: Clock) {
    now == NotFinite || (last.Some? && now.at < last.value)
  }

  /** The earliest instant at or after `now` that keeps the interval. */
  function Paced(last: Option<real>, now: real): real {
    if last == None || last.value + INTERVAL <= now then now else last.value + INTERVAL
  }

  class SempRequestPacer {
    var lastRequest: Option<real>

    constructor ()
      ensures lastRequest == None
    {
      lastRequest := None;
    }

    /** Waits at most one interval; a refusal records nothing. */
    method Pace(now: Clock) returns (refused: bool, slept: real)
      modifies this
      ensures refused == Refuses(old(lastRequest), now)
      ensures refused ==> lastRequest == old(lastRequest) && slept == 0.0
      ensures !refused ==> lastRequest == Some(Paced(old(lastRequest), now.at)) && slept == lastRequest.value - now.at
      ensures 0.0 <= slept <= INTERVAL
    {
      if now == NotFinite {
        return true, 0.0;
      }
      var previous := lastRequest;
      if previous == None {
        lastRequest := Some(now.at);
        return false, 0.0;
      }
      if now.at < previous.value {
        return true, 0.0;
      }
      var due := previous.value + INTERVAL - now.at;
      var wait := if due > 0.0 then due else 0.0;
      lastRequest := Some(now.at + wait);
      return false, wait;
    }
  }

  /** The instants recorded over any run of clock readings, refusals included. */
  function Recorded(last: Option<real>, readings: seq<Clock>): seq<real>
    decreases |readings|
  {
    if readings == [] then []
    else if Refuses(last, readings[0]) then Recorded(last, readings[1..])
    else
      var at := Paced(last, readings[0].at);
      [at] + Recorded(Some(at), readings[1..])
  }

  ghost predicate Spaced(instants: seq<real>) {
    forall k :: 0 < k < |instants| ==> instants[k] - instants[k - 1] >= INTERVAL
  }

  /** Recorded instants are at least one interval apart, and the first one keeps the interval to `last`. */
  lemma {:induction false} RecordedSpaced(last: Option<real>, readings: seq<Clock>)
    ensures Spaced(Recorded(last, readings))
    ensures last.Some? && Recorded(last, readings) != [] ==> Recorded(last, readings)[0] >= last.value + INTERVAL
    decreases |readings|
  {
    if readings != [] {
      if Refuses(last, readings[0]) {
        RecordedSpaced(last, readings[1..]);
      } else {
        var at := Paced(last, readings[0].at);
        RecordedSpaced(Some(at), readings[1..]);
        var rest := Recorded(Some(at), readings[1..]);
        forall k | 0 < k < |[at] + rest|
          ensures ([at] + rest)[k] - ([at] + rest)[k - 1] >= INTERVAL
        {
          if k > 1 {
            assert rest[k - 1] - rest[k - 2] >= INTERVAL;
          }
        }
      }
    }
  }

  /** How many instants fall in the half-open second from `start`. */
  function InSecond(instants: seq<real>, start: real): nat {
    if instants == [] then 0
    else (if start <= instants[0] < start + 1.0 then 1 else 0) + InSecond(instants[1..], start)
  }

  lemma {:induction false} LaterInstants(instants: seq<real>, start: real)
    requires Spaced(instants) && instants != [] && instants[0] >= start
    ensures var n := InSecond(instants, start); n == 0 || (n - 1) as real * INTERVAL + instants[0] < start + 1.0
  {
    var rest := instants[1..];
    if rest != [] {
      RestSpaced(instants);
      assert rest[0] == instants[1] >= instants[0] + INTERVAL;
      LaterInstants(rest, start);
    }
  }

  lemma RestSpaced(instants: seq<real>)
    requires Spaced(instants) && instants != []
    ensures Spaced(instants[1..])
  {
    var rest := instants[1..];
    forall k | 0 < k < |rest|
      ensures rest[k] - rest[k - 1] >= INTERVAL
    {
      assert instants[k + 1] - instants[k + 1 - 1] >= INTERVAL;
    }
  }

  /** Spaced instants put at most five in any half-open second. */
  lemma {:induction false} SpacedWithinBudget(instants: seq<real>, start: real)
    requires Spaced(instants)
    ensures InSecond(instants, start) <= REQUESTS_PER_SECOND
  {
    if instants != [] {
      if instants[0] >= start {
        LaterInstants(instants, start);
      } else {
        RestSpaced(instants);
        SpacedWithinBudget(instants[1..], start);
      }
    }
  }

  /** Whatever the clock does, no half-open second holds more recorded requests than the budget. */
  lemma RequestBudget(readings: seq<Clock>, start: real)
    ensures InSecond(Recorded(None, readings), start) <= REQUESTS_PER_SECOND
  {
    RecordedSpaced(None, readings);
    SpacedWithinBudget(Recorded(None, readings), start);
  }

  /** The pacer is not stricter than it must be: no earlier instant at or after `now` keeps the interval. */
  lemma PacedIsEarliest(last: Option<real>, now: real, earlier: real)
    requires now <= earlier < Paced(last, now)
    ensures last.Some? && earlier - last.value < INTERVAL
  {
  }
}
