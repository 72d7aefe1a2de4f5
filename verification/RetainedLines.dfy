/** The broker's line reader over its log follower: what `_read_bounded` and `monitor_stream` of
    packages/broker/src/aerial_rescue_broker/event_monitor.py make of the chunks that `readline` of
    packages/broker/src/aerial_rescue_broker/event_source.py hands out, where a rotation or a truncation breaks a
    line off. */
module RetainedLines {
  import opened Options
  import opened LineReader
  import opened RetainedLog
  import opened EventMonitor

  /** The follower after any turns of calls with the read limit. */
  function Followed(maximumGapPolls: nat, ticks: seq<Tick>): Follower {
    Turns(Initial(), READ_LIMIT, maximumGapPolls, ticks)
  }

  lemma FollowedConserves(maximumGapPolls: nat, ticks: seq<Tick>)
    ensures Conserves(Followed(maximumGapPolls, ticks), READ_LIMIT)
    ensures OfLines(Followed(maximumGapPolls, ticks).handedOut)
  {
    assert Joined([]) == [];
    RunConserves(Initial(), READ_LIMIT, maximumGapPolls, ticks);
    var chunks := Followed(maximumGapPolls, ticks).handedOut;
    forall i | 0 <= i < |chunks| ensures 0 < |chunks[i]| <= READ_LIMIT && IsLine(chunks[i]) {
      assert BoundedChunk(chunks[i], READ_LIMIT);
    }
  }

  // ---------------------------------------------------------------- where lines are broken off

  /** The descriptor a turn reads from. */
  function Reading(f: Follower, tick: Tick): Option<Descriptor> {
    if f.stream.Some? then f.stream else if tick.opens == None then None else Some(Descriptor(tick.opens.value, 0))
  }

  /** The file ended in the middle of a line and the path now names another file, or a shorter one. */
  predicate BreaksOff(f: Follower, tick: Tick) {
    var s := Reading(f, tick);
    && s.Some? && f.pending != [] && tick.readable == Some([]) && tick.path.Found?
    && (tick.path.identity != s.value.identity || (tick.seekable && tick.path.size < s.value.position))
  }

  /** A turn hands out a broken-off chunk exactly when the line ends that way. */
  lemma TurnBreaksOffExactly(f: Follower, maximumGapPolls: nat, tick: Tick)
    requires Conserves(f, READ_LIMIT)
    ensures var t := TurnOf(f, READ_LIMIT, maximumGapPolls, tick);
      t.Returns? && IsFragment(t.payload) <==> BreaksOff(f, tick)
  {
    if tick.readable.Some? {
      var n := READ_LIMIT - |f.pending|;
      assert ReadlineAvailable(tick.readable.value, n) == [] <==> tick.readable.value == [];
      if tick.readable.value == [] && f.pending != [] {
        assert f.pending[|f.pending| - 1] in f.pending;
      }
    }
  }

  /** For every chunk handed out, whether its turn broke it off. */
  ghost function BrokenOff(f: Follower, maximumGapPolls: nat, ticks: seq<Tick>): seq<bool>
    decreases |ticks|
  {
    if ticks == [] then []
    else
      var t := TurnOf(f, READ_LIMIT, maximumGapPolls, ticks[0]);
      (if t.Returns? then [BreaksOff(f, ticks[0])] else []) + BrokenOff(t.follower, maximumGapPolls, ticks[1..])
  }

  lemma {:induction false} BrokenOffExactly(f: Follower, maximumGapPolls: nat, ticks: seq<Tick>)
    requires Conserves(f, READ_LIMIT)
    ensures var g, flags := Turns(f, READ_LIMIT, maximumGapPolls, ticks), BrokenOff(f, maximumGapPolls, ticks);
      && |g.handedOut| == |f.handedOut| + |flags| && g.handedOut[..|f.handedOut|] == f.handedOut
      && forall i :: 0 <= i < |flags| ==> IsFragment(g.handedOut[|f.handedOut| + i]) == flags[i]
    decreases |ticks|
  {
    if ticks != [] {
      var t := TurnOf(f, READ_LIMIT, maximumGapPolls, ticks[0]);
      TurnConserves(f, READ_LIMIT, maximumGapPolls, ticks[0]);
      TurnHandsOut(f, READ_LIMIT, maximumGapPolls, ticks[0]);
      TurnBreaksOffExactly(f, maximumGapPolls, ticks[0]);
      BrokenOffExactly(t.follower, maximumGapPolls, ticks[1..]);
      FlagsShift(f, t, Turns(f, READ_LIMIT, maximumGapPolls, ticks).handedOut,
                 BreaksOff(f, ticks[0]), BrokenOff(t.follower, maximumGapPolls, ticks[1..]));
    }
  }

  lemma FlagsShift(f: Follower, t: Turn, all: seq<Bytes>, first: bool, later: seq<bool>)
    requires t.follower.handedOut == f.handedOut + (if t.Returns? then [t.payload] else [])
    requires t.Returns? ==> IsFragment(t.payload) == first
    requires |all| == |t.follower.handedOut| + |later| && all[..|t.follower.handedOut|] == t.follower.handedOut
    requires forall i :: 0 <= i < |later| ==> IsFragment(all[|t.follower.handedOut| + i]) == later[i]
    ensures var flags := (if t.Returns? then [first] else []) + later;
      && |all| == |f.handedOut| + |flags| && all[..|f.handedOut|] == f.handedOut
      && forall i :: 0 <= i < |flags| ==> IsFragment(all[|f.handedOut| + i]) == flags[i]
  {
    var n := |t.follower.handedOut|;
    assert forall i :: 0 <= i < n ==> all[i] == all[..n][i];
    var flags := (if t.Returns? then [first] else []) + later;
    forall i | 0 <= i < |flags|
      ensures IsFragment(all[|f.handedOut| + i]) == flags[i]
    {
      if t.Returns? && i > 0 {
        assert IsFragment(all[n + (i - 1)]) == later[i - 1];
      }
    }
  }

  // ---------------------------------------------------------------- what the monitor sees

  /** The pieces the reader makes of the log lose nothing but the fragment still pending when it is stopped, and
      they are the lines of the log exactly when no line but the last was broken off by a rotation or a
      truncation. */
  lemma LogPiecesExactly(maximumGapPolls: nat, ticks: seq<Tick>)
    ensures var f := Followed(maximumGapPolls, ticks);
      var flags := BrokenOff(Initial(), maximumGapPolls, ticks);
      && AreChunks(f.handedOut)
      && Joined(Pieces(f.handedOut)) + f.pending == f.read
      && (Pieces(f.handedOut) == SplitLines(Joined(f.handedOut)) <==> forall i :: 0 <= i < |flags| - 1 ==> !flags[i])
  {
    var f := Followed(maximumGapPolls, ticks);
    FollowedConserves(maximumGapPolls, ticks);
    PiecesJoin(f.handedOut);
    PiecesAreLinesExactly(f.handedOut);
    assert Joined([]) == [];
    BrokenOffExactly(Initial(), maximumGapPolls, ticks);
    var flags := BrokenOff(Initial(), maximumGapPolls, ticks);
    assert |f.handedOut| == |flags|;
    assert forall i :: 0 <= i < |flags| ==> IsFragment(f.handedOut[i]) == flags[i];
  }

  /** A broken-off line is read as two: the rest of it, in whatever file it lies, counts as a line of its own. */
  lemma BrokenLineIsTwo(first: Bytes, rest: Bytes)
    requires first != [] && NEWLINE !in first && |first| < READ_LIMIT
    requires |rest| <= READ_LIMIT && EndsWith(rest, NEWLINE) && IsLine(rest)
    ensures Pieces([first, rest]) == [first, rest] && SplitLines(Joined([first, rest])) == [first + rest]
  {
    var chunks := [first, rest];
    assert !GoesOn(first) && !GoesOn(rest);
    assert chunks[1..] == [rest] && [rest][1..] == [];
    assert Pieces([]) == [] && Joined([]) == [];
    assert chunks[..1] == [first] && [first][1..] == [] && [rest][..1] == [rest];
    assert first + [] == first && rest + [] == rest;
    assert Pieces([rest]) == [rest];
    assert AreLines([first + rest]) by {
      assert [first + rest][1..] == [];
    }
    LinesAreSplit([first + rest]);
    assert Joined([first + rest]) == first + rest by {
      assert [first + rest][1..] == [];
      assert (first + rest) + [] == first + rest;
    }
  }

  // ---------------------------------------------------------------- the two loops together

  lemma TurnsFirst(f: Follower, limit: nat, maximumGapPolls: nat, first: Tick, rest: seq<Tick>)
    ensures Turns(f, limit, maximumGapPolls, [first] + rest)
            == Turns(TurnOf(f, limit, maximumGapPolls, first).follower, limit, maximumGapPolls, rest)
  {
    assert ([first] + rest)[1..] == rest;
  }

  lemma {:induction false} TurnsConcat(f: Follower, limit: nat, maximumGapPolls: nat, a: seq<Tick>, b: seq<Tick>)
    ensures Turns(f, limit, maximumGapPolls, a + b)
            == Turns(Turns(f, limit, maximumGapPolls, a), limit, maximumGapPolls, b)
    decreases |a|
  {
    if a == [] {
      assert a + b == b;
    } else {
      TurnsConcat(TurnOf(f, limit, maximumGapPolls, a[0]).follower, limit, maximumGapPolls, a[1..], b);
      TurnsFirst(f, limit, maximumGapPolls, a[0], a[1..] + b);
      TurnsFirst(f, limit, maximumGapPolls, a[0], a[1..]);
      FirstSplit(a, b);
    }
  }

  lemma FirstSplit(a: seq<Tick>, b: seq<Tick>)
    requires a != []
    ensures a + b == [a[0]] + (a[1..] + b) && a == [a[0]] + a[1..]
  {
  }

  lemma TurnsFurther(f: Follower, limit: nat, maximumGapPolls: nat, ticks: seq<Tick>, used: nat, more: nat)
    requires used + more <= |ticks|
    ensures Turns(f, limit, maximumGapPolls, ticks[..used + more])
            == Turns(Turns(f, limit, maximumGapPolls, ticks[..used]), limit, maximumGapPolls, ticks[used..][..more])
  {
    assert ticks[..used] + ticks[used..][..more] == ticks[..used + more];
    TurnsConcat(f, limit, maximumGapPolls, ticks[..used], ticks[used..][..more]);
  }

  /** Calls `readline` with the read limit until it returns nothing or refuses; the ticks are those all calls
      meet. */
  method ReadLog(log: RetainedEventLogSource, ticks: seq<Tick>)
    returns (chunks: seq<Bytes>, failure: Option<Refusal>, used: nat)
    modifies log
    ensures used <= |ticks| && (failure == None ==> used == |ticks|)
    ensures log.Model() == Turns(old(log.Model()), READ_LIMIT, log.maximumGapPolls, ticks[..used])
    ensures log.handedOut == old(log.handedOut) + chunks
  {
    chunks, failure, used := [], None, 0;
    ghost var start := log.Model();
    assert ticks[..0] == [] && Turns(start, READ_LIMIT, log.maximumGapPolls, []) == start;
    while true
      invariant used <= |ticks|
      invariant log.Model() == Turns(start, READ_LIMIT, log.maximumGapPolls, ticks[..used])
      invariant log.handedOut == start.handedOut + chunks
      decreases |ticks| - used
    {
      var reading, more := log.Readline(READ_LIMIT, ticks[used..]);
      TurnsFurther(start, READ_LIMIT, log.maximumGapPolls, ticks, used, more);
      used := used + more;
      if reading.Refused? {
        return chunks, Some(reading.refusal), used;
      }
      if reading.payload == [] {
        return;
      }
      chunks := chunks + [reading.payload];
    }
  }

  /** The monitor on a new follower: its outcome is that on the pieces of what the follower hands out. */
  method MonitorLog(log: RetainedEventLogSource, ticks: seq<Tick>, process: Bytes -> Option<Alert>, stopRequested: bool,
                    faults: Faults)
    returns (r: Monitored, emitted: seq<Alert>, used: nat)
    requires log.Model() == Initial()
    modifies log
    ensures used <= |ticks|
    ensures var pieces := Pieces(Followed(log.maximumGapPolls, ticks[..used]).handedOut);
      r == Outcome(process, pieces, stopRequested, faults) && emitted == Emitted(process, pieces, stopRequested, faults)
  {
    var chunks, failure;
    chunks, failure, used := ReadLog(log, ticks);
    FollowedConserves(log.maximumGapPolls, ticks[..used]);
    assert log.handedOut == chunks;
    var source := new ChunkSource(chunks);
    r, emitted := MonitorStream(source, process, stopRequested, faults);
  }
}
