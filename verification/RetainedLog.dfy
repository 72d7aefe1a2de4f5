/** Following the broker's retained event log across rotation and truncation
    (packages/broker/src/aerial_rescue_broker/event_source.py).

    Each turn of the `readline` loop meets the file system once; what it meets is a `Tick`. `running()` turns
    false when the ticks run out. */
module RetainedLog {
  import opened Options
  import opened LineReader

  datatype PathState = Missing | Unreadable | Found(identity: nat, size: nat)

  /** The outcome of opening the path, what can be read from the descriptor (`None` for an error), the state
      of the path at end of file, and whether the descriptor then tells and takes its position. */
  datatype Tick = Tick(opens: Option<nat>, readable: Option<Bytes>, path: PathState, seekable: bool)

  datatype Refusal = Unavailable | RotationGap | InvalidBound

  datatype Descriptor = Descriptor(identity: nat, position: nat)

  /** One look at the path: it was there (or was opened), or it was missing and the poll was waited out. */
  datatype Look = Seen | MissedAndWaited

  /** The follower's fields, and the history they answer for: all bytes read from descriptors, all chunks
      handed out, and all looks at the path. */
  datatype Follower = Follower(
    stream: Option<Descriptor>, pending: Bytes, gapPolls: nat,
    read: Bytes, handedOut: seq<Bytes>, looks: seq<Look>)

  datatype Turn =
    | Goes(follower: Follower)
    | Returns(follower: Follower, payload: Bytes)
    | Fails(follower: Follower, refusal: Refusal)

  function Initial(): Follower {
    Follower(None, [], 0, [], [], [])
  }

  /** Python's `readline(n)` on what is available: without bound when `n` is negative. */
  function ReadlineAvailable(available: Bytes, n: int): Bytes {
    if n < 0 then available[..LineRun(available)] else Chunk(available, n)
  }

  function HandOut(f: Follower): Follower {
    f.(pending := [], handedOut := f.handedOut + [f.pending])
  }

  function Opened(f: Follower, identity: nat): Follower {
    f.(stream := Some(Descriptor(identity, 0)), gapPolls := 0, looks := f.looks + [Seen])
  }

  /** `_refresh_at_eof` */
  function Refresh(f: Follower, maximumGapPolls: nat, path: PathState, seekable: bool): Turn
    requires f.stream.Some?
  {
    match path
    case Missing =>
      if f.gapPolls >= maximumGapPolls then Fails(f, RotationGap)
      else Goes(f.(gapPolls := f.gapPolls + 1, looks := f.looks + [MissedAndWaited]))
    case Unreadable => Fails(f, Unavailable)
    case Found(identity, size) =>
      var seen := f.(gapPolls := 0, looks := f.looks + [Seen]);
      if identity != seen.stream.value.identity then
        if seen.pending != [] then Returns(HandOut(seen).(stream := None), seen.pending)
        else Goes(seen.(stream := None))
      else if !seekable then Fails(seen, Unavailable)
      else if size < seen.stream.value.position then
        var rewound := seen.(stream := Some(Descriptor(identity, 0)));
        if rewound.pending != [] then Returns(HandOut(rewound), rewound.pending) else Goes(rewound)
      else Goes(seen)
  }

  /** `_read_available` and what `readline` does with its outcome */
  function ReadAvailable(f: Follower, limit: nat, maximumGapPolls: nat, tick: Tick): Turn
    requires f.stream.Some?
  {
    if tick.readable == None then Fails(f, Unavailable)
    else
      var chunk := ReadlineAvailable(tick.readable.value, limit - |f.pending|);
      if chunk == [] then Refresh(f, maximumGapPolls, tick.path, tick.seekable)
      else
        var d := f.stream.value;
        var grown := f.(pending := f.pending + chunk, read := f.read + chunk,
                        stream := Some(d.(position := d.position + |chunk|)));
        if EndsWith(grown.pending, NEWLINE) || |grown.pending| == limit then Returns(HandOut(grown), grown.pending)
        else Goes(grown)
  }

  /** One turn of the loop in `readline`. */
  function TurnOf(f: Follower, limit: nat, maximumGapPolls: nat, tick: Tick): Turn {
    if f.stream == None then
      if tick.opens == None then Fails(f, Unavailable)
      else ReadAvailable(Opened(f, tick.opens.value), limit, maximumGapPolls, tick)
    else ReadAvailable(f, limit, maximumGapPolls, tick)
  }

  /** Any number of turns, over any number of calls. */
  function Turns(f: Follower, limit: nat, maximumGapPolls: nat, ticks: seq<Tick>): Follower
    decreases |ticks|
  {
    if ticks == [] then f
    else Turns(TurnOf(f, limit, maximumGapPolls, ticks[0]).follower, limit, maximumGapPolls, ticks[1..])
  }

  // ---------------------------------------------------------------- conservation

  predicate NewlineOnlyAtEnd(s: Bytes) {
    forall i :: 0 <= i < |s| - 1 ==> s[i] != NEWLINE
  }

  /** Nothing lost, nothing invented, nothing reordered: what was handed out, then what is pending, is what was
      read; and every chunk handed out is a bounded piece of one line. */
  ghost predicate Conserves(f: Follower, limit: nat) {
    && Joined(f.handedOut) + f.pending == f.read
    && |f.pending| < limit && NEWLINE !in f.pending
    && forall i :: 0 <= i < |f.handedOut| ==> BoundedChunk(f.handedOut[i], limit)
  }

  ghost predicate BoundedChunk(chunk: Bytes, limit: nat) {
    0 < |chunk| <= limit && NewlineOnlyAtEnd(chunk)
  }

  lemma {:induction false} JoinedOneMore(chunks: seq<Bytes>, chunk: Bytes)
    ensures Joined(chunks + [chunk]) == Joined(chunks) + chunk
  {
    if chunks == [] {
      assert [chunk][1..] == [];
      assert chunks + [chunk] == [chunk];
      assert Joined([]) == [];
    } else {
      JoinedOneMore(chunks[1..], chunk);
      assert (chunks + [chunk])[1..] == chunks[1..] + [chunk];
    }
  }

  lemma HandOutConserves(f: Follower, limit: nat)
    requires Joined(f.handedOut) + f.pending == f.read && limit > 0 && BoundedChunk(f.pending, limit)
    requires forall i :: 0 <= i < |f.handedOut| ==> BoundedChunk(f.handedOut[i], limit)
    ensures Conserves(HandOut(f), limit)
  {
    JoinedOneMore(f.handedOut, f.pending);
  }

  lemma ChunkShape(available: Bytes, n: nat)
    ensures var c := Chunk(available, n); |c| <= n && NewlineOnlyAtEnd(c)
  {
  }

  lemma RefreshConserves(f: Follower, limit: nat, maximumGapPolls: nat, path: PathState, seekable: bool)
    requires f.stream.Some? && Conserves(f, limit)
    ensures Conserves(Refresh(f, maximumGapPolls, path, seekable).follower, limit)
  {
    if path.Found? && f.pending != [] {
      HandOutConserves(f, limit);
      var handed := HandOut(f);
      assert Conserves(handed, limit);
    }
  }

  lemma ReadConserves(f: Follower, limit: nat, maximumGapPolls: nat, tick: Tick)
    requires f.stream.Some? && Conserves(f, limit)
    ensures Conserves(ReadAvailable(f, limit, maximumGapPolls, tick).follower, limit)
  {
    if tick.readable.Some? {
      var n := limit - |f.pending|;
      var chunk := ReadlineAvailable(tick.readable.value, n);
      ChunkShape(tick.readable.value, n);
      if chunk == [] {
        RefreshConserves(f, limit, maximumGapPolls, tick.path, tick.seekable);
      } else {
        var pending := f.pending + chunk;
        assert Joined(f.handedOut) + pending == (Joined(f.handedOut) + f.pending) + chunk;
        assert NewlineOnlyAtEnd(pending);
        var grown := f.(pending := pending, read := f.read + chunk,
                        stream := Some(f.stream.value.(position := f.stream.value.position + |chunk|)));
        if EndsWith(pending, NEWLINE) || |pending| == limit {
          HandOutConserves(grown, limit);
        } else {
          assert pending[|pending| - 1] != NEWLINE;
        }
      }
    }
  }

  lemma TurnConserves(f: Follower, limit: nat, maximumGapPolls: nat, tick: Tick)
    requires Conserves(f, limit)
    ensures Conserves(TurnOf(f, limit, maximumGapPolls, tick).follower, limit)
  {
    if f.stream == None {
      if tick.opens.Some? {
        ReadConserves(Opened(f, tick.opens.value), limit, maximumGapPolls, tick);
      }
    } else {
      ReadConserves(f, limit, maximumGapPolls, tick);
    }
  }

  /** Over any run of reads, renames, truncations and failures with one limit, the chunks handed out followed
      by the pending fragment are the bytes read from the descriptors in order, and every chunk is at most
      the limit with a newline only at its end. */
  lemma {:induction false} RunConserves(f: Follower, limit: nat, maximumGapPolls: nat, ticks: seq<Tick>)
    requires Conserves(f, limit)
    ensures Conserves(Turns(f, limit, maximumGapPolls, ticks), limit)
    decreases |ticks|
  {
    if ticks != [] {
      TurnConserves(f, limit, maximumGapPolls, ticks[0]);
      RunConserves(TurnOf(f, limit, maximumGapPolls, ticks[0]).follower, limit, maximumGapPolls, ticks[1..]);
    }
  }

  // ---------------------------------------------------------------- changing limits

  /** Whatever the limit, a turn that returns overruns it exactly when more was pending than the limit; a turn
      that goes round leaves that unchanged. */
  lemma TurnOverrunsExactly(f: Follower, limit: nat, maximumGapPolls: nat, tick: Tick)
    ensures var t := TurnOf(f, limit, maximumGapPolls, tick);
      && (t.Returns? ==> (|t.payload| > limit <==> |f.pending| > limit))
      && (t.Goes? ==> (|t.follower.pending| > limit <==> |f.pending| > limit))
      && (t.Goes? ==> (|t.follower.pending| < limit <==> |f.pending| < limit))
  {
  }

  /** A call of `readline`: its limit and the ticks of its turns, of which only the last returns or fails. */
  datatype Call = Call(limit: nat, ticks: seq<Tick>)

  function AfterCall(f: Follower, maximumGapPolls: nat, c: Call): Follower {
    Turns(f, c.limit, maximumGapPolls, c.ticks)
  }

  function AfterCalls(f: Follower, maximumGapPolls: nat, calls: seq<Call>): Follower {
    if calls == [] then f
    else AfterCall(AfterCalls(f, maximumGapPolls, calls[..|calls| - 1]), maximumGapPolls, calls[|calls| - 1])
  }

  /** The turns before the last go round again. */
  ghost predicate IsCall(f: Follower, maximumGapPolls: nat, c: Call)
    decreases |c.ticks|
  {
    |c.ticks| > 1 ==>
      var t := TurnOf(f, c.limit, maximumGapPolls, c.ticks[0]);
      t.Goes? && IsCall(t.follower, maximumGapPolls, Call(c.limit, c.ticks[1..]))
  }

  ghost predicate AreCalls(f: Follower, maximumGapPolls: nat, calls: seq<Call>) {
    forall k :: 0 <= k < |calls| ==> IsCall(AfterCalls(f, maximumGapPolls, calls[..k]), maximumGapPolls, calls[k])
  }

  /** A call hands out at most one chunk, and that chunk is over the call's limit exactly when the fragment
      pending at the call was. */
  lemma {:induction false} CallOverrunsExactly(f: Follower, maximumGapPolls: nat, c: Call)
    requires IsCall(f, maximumGapPolls, c)
    ensures var g := AfterCall(f, maximumGapPolls, c);
      || g.handedOut == f.handedOut
      || (&& |g.handedOut| == |f.handedOut| + 1 && g.handedOut[..|f.handedOut|] == f.handedOut
          && (|g.handedOut[|f.handedOut|]| > c.limit <==> |f.pending| > c.limit))
    decreases |c.ticks|
  {
    if c.ticks != [] {
      var t := TurnOf(f, c.limit, maximumGapPolls, c.ticks[0]);
      TurnOverrunsExactly(f, c.limit, maximumGapPolls, c.ticks[0]);
      TurnHandsOut(f, c.limit, maximumGapPolls, c.ticks[0]);
      if |c.ticks| > 1 {
        CallOverrunsExactly(t.follower, maximumGapPolls, Call(c.limit, c.ticks[1..]));
      } else {
        assert Turns(t.follower, c.limit, maximumGapPolls, c.ticks[1..]) == t.follower;
      }
    }
  }

  /** The `k`-th call hands out a chunk over its own limit. */
  ghost predicate Overruns(f: Follower, maximumGapPolls: nat, calls: seq<Call>, k: nat)
    requires k < |calls|
  {
    var before, after := AfterCalls(f, maximumGapPolls, calls[..k]), AfterCalls(f, maximumGapPolls, calls[..k + 1]);
    |after.handedOut| > |before.handedOut| && |after.handedOut[|before.handedOut|]| > calls[k].limit
  }

  lemma CallsOneMore(f: Follower, maximumGapPolls: nat, calls: seq<Call>, k: nat)
    requires k < |calls|
    ensures AfterCalls(f, maximumGapPolls, calls[..k + 1])
            == AfterCall(AfterCalls(f, maximumGapPolls, calls[..k]), maximumGapPolls, calls[k])
  {
    assert calls[..k + 1][..k] == calls[..k];
  }

  /** Over any run of calls with any limits, a call overruns its limit exactly when it hands something out and
      was made with a limit below the fragment pending at that time. */
  lemma OverrunExactly(f: Follower, maximumGapPolls: nat, calls: seq<Call>, k: nat)
    requires AreCalls(f, maximumGapPolls, calls) && k < |calls|
    ensures var before := AfterCalls(f, maximumGapPolls, calls[..k]);
      var after := AfterCalls(f, maximumGapPolls, calls[..k + 1]);
      Overruns(f, maximumGapPolls, calls, k)
      <==> after.handedOut != before.handedOut && calls[k].limit < |before.pending|
  {
    CallsOneMore(f, maximumGapPolls, calls, k);
    CallOverrunsExactly(AfterCalls(f, maximumGapPolls, calls[..k]), maximumGapPolls, calls[k]);
  }

  /** Nothing lost, invented or reordered, at whatever limits. */
  ghost predicate KeepsBytes(f: Follower) {
    Joined(f.handedOut) + f.pending == f.read
  }

  lemma HandOutKeepsBytes(f: Follower)
    requires KeepsBytes(f)
    ensures KeepsBytes(HandOut(f))
  {
    JoinedOneMore(f.handedOut, f.pending);
  }

  lemma RefreshKeepsBytes(f: Follower, maximumGapPolls: nat, path: PathState, seekable: bool)
    requires f.stream.Some? && KeepsBytes(f)
    ensures KeepsBytes(Refresh(f, maximumGapPolls, path, seekable).follower)
  {
    HandOutKeepsBytes(f);
  }

  lemma TurnKeepsBytes(f: Follower, limit: nat, maximumGapPolls: nat, tick: Tick)
    requires KeepsBytes(f)
    ensures KeepsBytes(TurnOf(f, limit, maximumGapPolls, tick).follower)
  {
    var g := if f.stream == None && tick.opens.Some? then Opened(f, tick.opens.value) else f;
    if g.stream.Some? && tick.readable.Some? {
      RefreshKeepsBytes(g, maximumGapPolls, tick.path, tick.seekable);
      var chunk := ReadlineAvailable(tick.readable.value, limit - |g.pending|);
      assert Joined(g.handedOut) + (g.pending + chunk) == (Joined(g.handedOut) + g.pending) + chunk;
      HandOutKeepsBytes(g.(pending := g.pending + chunk, read := g.read + chunk));
    }
  }

  lemma {:induction false} TurnsKeepBytes(f: Follower, limit: nat, maximumGapPolls: nat, ticks: seq<Tick>)
    requires KeepsBytes(f)
    ensures KeepsBytes(Turns(f, limit, maximumGapPolls, ticks))
    decreases |ticks|
  {
    if ticks != [] {
      TurnKeepsBytes(f, limit, maximumGapPolls, ticks[0]);
      TurnsKeepBytes(TurnOf(f, limit, maximumGapPolls, ticks[0]).follower, limit, maximumGapPolls, ticks[1..]);
    }
  }

  /** Over any calls with any limits, what was handed out and what is pending are the bytes read, in order. */
  lemma {:induction false} CallsKeepBytes(f: Follower, maximumGapPolls: nat, calls: seq<Call>)
    requires KeepsBytes(f)
    ensures KeepsBytes(AfterCalls(f, maximumGapPolls, calls))
  {
    if calls != [] {
      var n := |calls| - 1;
      CallsKeepBytes(f, maximumGapPolls, calls[..n]);
      TurnsKeepBytes(AfterCalls(f, maximumGapPolls, calls[..n]), calls[n].limit, maximumGapPolls, calls[n].ticks);
    }
  }

  ghost predicate NeverShrinks(calls: seq<Call>) {
    (forall k :: 0 <= k < |calls| ==> calls[k].limit > 0)
    && forall k :: 0 < k < |calls| ==> calls[k - 1].limit <= calls[k].limit
  }

  lemma {:induction false} TurnsStayBelow(f: Follower, limit: nat, maximumGapPolls: nat, ticks: seq<Tick>)
    requires |f.pending| < limit
    ensures |Turns(f, limit, maximumGapPolls, ticks).pending| < limit
    decreases |ticks|
  {
    if ticks != [] {
      var t := TurnOf(f, limit, maximumGapPolls, ticks[0]);
      TurnOverrunsExactly(f, limit, maximumGapPolls, ticks[0]);
      TurnPending(f, limit, maximumGapPolls, ticks[0]);
      TurnsStayBelow(t.follower, limit, maximumGapPolls, ticks[1..]);
    }
  }

  lemma TurnPending(f: Follower, limit: nat, maximumGapPolls: nat, tick: Tick)
    ensures var t := TurnOf(f, limit, maximumGapPolls, tick);
      && (t.Returns? ==> t.follower.pending == [])
      && (t.Fails? ==> t.follower.pending == f.pending)
  {
  }

  lemma {:induction false} GrowingStaysBelow(maximumGapPolls: nat, calls: seq<Call>)
    requires NeverShrinks(calls) && calls != []
    ensures |AfterCalls(Initial(), maximumGapPolls, calls).pending| < calls[|calls| - 1].limit
  {
    var n := |calls| - 1;
    if n > 0 {
      GrowingStaysBelow(maximumGapPolls, calls[..n]);
      assert calls[n - 1].limit <= calls[n].limit;
    }
    TurnsStayBelow(AfterCalls(Initial(), maximumGapPolls, calls[..n]), calls[n].limit, maximumGapPolls, calls[n].ticks);
  }

  /** A caller that never lowers its limit never gets a chunk over it. */
  lemma GrowingLimitsNeverOverrun(maximumGapPolls: nat, calls: seq<Call>, k: nat)
    requires AreCalls(Initial(), maximumGapPolls, calls) && NeverShrinks(calls) && k < |calls|
    ensures !Overruns(Initial(), maximumGapPolls, calls, k)
  {
    OverrunExactly(Initial(), maximumGapPolls, calls, k);
    if k > 0 {
      GrowingStaysBelow(maximumGapPolls, calls[..k]);
      assert calls[k - 1].limit <= calls[k].limit;
    }
  }

  /** Asked for less than what is pending, `readline` is given a negative size and hands out a line of any
      length. */
  lemma SmallerLimitOverruns(
    f: Follower, limit: nat, maximumGapPolls: nat, line: Bytes, path: PathState, seekable: bool)
    requires f.stream.Some? && 0 < limit < |f.pending|
    requires line != [] && LineRun(line) == |line| && EndsWith(line, NEWLINE)
    ensures var t := TurnOf(f, limit, maximumGapPolls, Tick(None, Some(line), path, seekable));
      t.Returns? && t.payload == f.pending + line && |t.payload| > limit
  {
  }

  /** Asked for exactly what is pending, `readline` is given the size zero, which looks like the end of the
      file: no turn reads anything, whatever is available, and only a rotation or a truncation of the path
      lets the fragment go. */
  lemma EqualLimitReadsNothing(f: Follower, limit: nat, maximumGapPolls: nat, tick: Tick)
    requires f.stream.Some? && 0 < limit == |f.pending|
    ensures var t := TurnOf(f, limit, maximumGapPolls, tick);
      && t.follower.read == f.read
      && (t.Returns? <==>
            && tick.readable.Some? && tick.path.Found?
            && (|| tick.path.identity != f.stream.value.identity
                || (tick.seekable && tick.path.size < f.stream.value.position)))
      && (!t.Returns? ==> t.follower.pending == f.pending && t.follower.stream == f.stream)
  {
  }

  lemma TurnReadsMore(f: Follower, limit: nat, maximumGapPolls: nat, tick: Tick)
    ensures |TurnOf(f, limit, maximumGapPolls, tick).follower.read| >= |f.read|
  {
  }

  /** That is the only limit at which a turn passes over available bytes. */
  lemma TurnReadsExactly(f: Follower, limit: nat, maximumGapPolls: nat, tick: Tick)
    requires f.stream.Some? && limit > 0 && tick.readable.Some? && tick.readable.value != []
    ensures |TurnOf(f, limit, maximumGapPolls, tick).follower.read| > |f.read| <==> limit != |f.pending|
  {
  }

  lemma {:induction false} TurnsReadMore(f: Follower, limit: nat, maximumGapPolls: nat, ticks: seq<Tick>)
    ensures |Turns(f, limit, maximumGapPolls, ticks).read| >= |f.read|
    decreases |ticks|
  {
    if ticks != [] {
      TurnReadsMore(f, limit, maximumGapPolls, ticks[0]);
      TurnsReadMore(TurnOf(f, limit, maximumGapPolls, ticks[0]).follower, limit, maximumGapPolls, ticks[1..]);
    }
  }

  /** The path is there, is the file being read, and has not been truncated. */
  predicate Unchanged(f: Follower, tick: Tick) {
    && f.stream.Some? && tick.readable.Some? && tick.seekable && tick.path.Found?
    && tick.path.identity == f.stream.value.identity && tick.path.size >= f.stream.value.position
  }

  /** So on a log that is only appended to, such a call goes round for ever. */
  lemma {:induction false} EqualLimitStalls(f: Follower, limit: nat, maximumGapPolls: nat, ticks: seq<Tick>)
    requires f.stream.Some? && 0 < limit == |f.pending|
    requires forall i :: 0 <= i < |ticks| ==> Unchanged(f, ticks[i])
    ensures IsCall(f, maximumGapPolls, Call(limit, ticks))
    ensures var g := Turns(f, limit, maximumGapPolls, ticks);
      g.read == f.read && g.handedOut == f.handedOut && g.pending == f.pending && g.stream == f.stream
    decreases |ticks|
  {
    if ticks != [] {
      var t := TurnOf(f, limit, maximumGapPolls, ticks[0]);
      assert Unchanged(f, ticks[0]);
      assert t.Goes?;
      EqualLimitReadsNothing(f, limit, maximumGapPolls, ticks[0]);
      TurnHandsOut(f, limit, maximumGapPolls, ticks[0]);
      assert forall i :: 0 <= i < |ticks| - 1 ==> ticks[1..][i] == ticks[i + 1];
      EqualLimitStalls(t.follower, limit, maximumGapPolls, ticks[1..]);
    }
  }

  /** A call on a log that is only appended to, and that has bytes available, reads some exactly when its limit is
      not the length of the pending fragment. */
  lemma CallReadsExactly(f: Follower, maximumGapPolls: nat, c: Call)
    requires f.stream.Some? && c.limit > 0 && c.ticks != []
    requires forall i :: 0 <= i < |c.ticks| ==> Unchanged(f, c.ticks[i]) && c.ticks[i].readable.value != []
    ensures |AfterCall(f, maximumGapPolls, c).read| > |f.read| <==> c.limit != |f.pending|
  {
    if c.limit == |f.pending| {
      EqualLimitStalls(f, c.limit, maximumGapPolls, c.ticks);
    } else {
      assert Unchanged(f, c.ticks[0]);
      TurnReadsExactly(f, c.limit, maximumGapPolls, c.ticks[0]);
      TurnsReadMore(TurnOf(f, c.limit, maximumGapPolls, c.ticks[0]).follower, c.limit, maximumGapPolls, c.ticks[1..]);
    }
  }

  /** Such a fragment is left by an earlier call with a larger limit that was stopped before the line ended. */
  lemma StallReached(maximumGapPolls: nat, identity: nat, fragment: Bytes, limit: nat, path: PathState)
    requires fragment != [] && NEWLINE !in fragment && |fragment| < limit
    ensures var f := Turns(Initial(), limit, maximumGapPolls, [Tick(Some(identity), Some(fragment), path, true)]);
      f.pending == fragment && f.stream == Some(Descriptor(identity, |fragment|))
  {
    var tick := Tick(Some(identity), Some(fragment), path, true);
    assert LineRun(fragment) == |fragment|;
    assert [] + fragment == fragment && fragment[..|fragment|] == fragment;
    var t := TurnOf(Initial(), limit, maximumGapPolls, tick);
    assert [tick][1..] == [];
    assert Turns(t.follower, limit, maximumGapPolls, []) == t.follower;
  }

  // ---------------------------------------------------------------- the gap bound

  /** The number of missing-path polls waited out since the path was last seen. */
  function Streak(looks: seq<Look>): nat {
    if looks == [] || looks[|looks| - 1] == Seen then 0 else 1 + Streak(looks[..|looks| - 1])
  }

  /** The counter is the streak, and no streak at any time exceeded the maximum. */
  ghost predicate GapBounded(f: Follower, maximumGapPolls: nat) {
    && f.gapPolls == Streak(f.looks)
    && forall k :: 0 <= k <= |f.looks| ==> Streak(f.looks[..k]) <= maximumGapPolls
  }

  lemma LookKept(looks: seq<Look>, look: Look, maximumGapPolls: nat)
    requires forall k :: 0 <= k <= |looks| ==> Streak(looks[..k]) <= maximumGapPolls
    requires look == MissedAndWaited ==> Streak(looks) < maximumGapPolls
    ensures var more := looks + [look];
      && Streak(more) == (if look == Seen then 0 else Streak(looks) + 1)
      && forall k :: 0 <= k <= |more| ==> Streak(more[..k]) <= maximumGapPolls
  {
    var more := looks + [look];
    assert more[..|more| - 1] == looks && more[..|more|] == more;
    forall k | 0 <= k <= |more|
      ensures Streak(more[..k]) <= maximumGapPolls
    {
      if k <= |looks| {
        assert more[..k] == looks[..k];
      }
    }
  }

  lemma RefreshGap(f: Follower, maximumGapPolls: nat, path: PathState, seekable: bool)
    requires f.stream.Some? && GapBounded(f, maximumGapPolls)
    ensures GapBounded(Refresh(f, maximumGapPolls, path, seekable).follower, maximumGapPolls)
  {
    if path == Missing && f.gapPolls < maximumGapPolls {
      LookKept(f.looks, MissedAndWaited, maximumGapPolls);
    } else if path.Found? {
      LookKept(f.looks, Seen, maximumGapPolls);
      assert Refresh(f, maximumGapPolls, path, seekable).follower.looks == f.looks + [Seen];
    }
  }

  lemma ReadGap(f: Follower, limit: nat, maximumGapPolls: nat, tick: Tick)
    requires f.stream.Some? && GapBounded(f, maximumGapPolls)
    ensures GapBounded(ReadAvailable(f, limit, maximumGapPolls, tick).follower, maximumGapPolls)
  {
    RefreshGap(f, maximumGapPolls, tick.path, tick.seekable);
  }

  lemma TurnGap(f: Follower, limit: nat, maximumGapPolls: nat, tick: Tick)
    requires GapBounded(f, maximumGapPolls)
    ensures GapBounded(TurnOf(f, limit, maximumGapPolls, tick).follower, maximumGapPolls)
  {
    if f.stream == None {
      if tick.opens.Some? {
        LookKept(f.looks, Seen, maximumGapPolls);
        ReadGap(Opened(f, tick.opens.value), limit, maximumGapPolls, tick);
      }
    } else {
      ReadGap(f, limit, maximumGapPolls, tick);
    }
  }

  /** Over any run, at most `maximumGapPolls` missing-path polls are waited out before the path is seen again
      or the read fails. */
  lemma {:induction false} RunGap(f: Follower, limit: nat, maximumGapPolls: nat, ticks: seq<Tick>)
    requires GapBounded(f, maximumGapPolls)
    ensures GapBounded(Turns(f, limit, maximumGapPolls, ticks), maximumGapPolls)
    decreases |ticks|
  {
    if ticks != [] {
      TurnGap(f, limit, maximumGapPolls, ticks[0]);
      RunGap(TurnOf(f, limit, maximumGapPolls, ticks[0]).follower, limit, maximumGapPolls, ticks[1..]);
    }
  }

  // ---------------------------------------------------------------- the object

  datatype Reading = Line(payload: Bytes) | Refused(refusal: Refusal)

  class RetainedEventLogSource {
    const maximumGapPolls: nat
    var stream: Option<Descriptor>
    var pending: Bytes
    var gapPolls: nat
    ghost var read: Bytes
    ghost var handedOut: seq<Bytes>
    ghost var looks: seq<Look>

    ghost function Model(): Follower
      reads this
    {
      Follower(stream, pending, gapPolls, read, handedOut, looks)
    }

    constructor (maximumGapPolls: nat)
      ensures Model() == Initial() && this.maximumGapPolls == maximumGapPolls
    {
      this.maximumGapPolls := maximumGapPolls;
      stream, pending, gapPolls := None, [], 0;
      read, handedOut, looks := [], [], [];
    }

    method ReturnPending() returns (payload: Bytes)
      modifies this
      ensures payload == old(pending) && Model() == HandOut(old(Model()))
    {
      payload := pending;
      handedOut := handedOut + [pending];
      pending := [];
    }

    /** Releases the descriptor and drops an incomplete fragment. */
    method Close()
      modifies this
      ensures Model() == old(Model()).(pending := [], stream := None)
    {
      pending := [];
      stream := None;
    }

    method RefreshAtEof(path: PathState, seekable: bool) returns (fragment: Option<Bytes>, failure: Option<Refusal>)
      requires stream.Some?
      modifies this
      ensures var t := Refresh(old(Model()), maximumGapPolls, path, seekable);
        && Model() == t.follower
        && failure == (if t.Fails? then Some(t.refusal) else None)
        && fragment == (if t.Returns? then Some(t.payload) else None)
    {
      if path == Missing {
        if gapPolls >= maximumGapPolls {
          return None, Some(RotationGap);
        }
        gapPolls := gapPolls + 1;
        looks := looks + [MissedAndWaited];
        return None, None;
      }
      if path == Unreadable {
        return None, Some(Unavailable);
      }
      gapPolls := 0;
      looks := looks + [Seen];
      fragment, failure := None, None;
      if path.identity != stream.value.identity {
        if pending != [] {
          var payload := ReturnPending();
          fragment := Some(payload);
        }
        stream := None;
      } else if !seekable {
        failure := Some(Unavailable);
      } else if path.size < stream.value.position {
        stream := Some(Descriptor(path.identity, 0));
        if pending != [] {
          var payload := ReturnPending();
          fragment := Some(payload);
        }
      }
    }

    /** One turn of the loop; `None` to go round again. */
    method Turn(limit: nat, tick: Tick) returns (payload: Option<Bytes>, failure: Option<Refusal>)
      modifies this
      ensures var t := TurnOf(old(Model()), limit, maximumGapPolls, tick);
        && Model() == t.follower
        && failure == (if t.Fails? then Some(t.refusal) else None)
        && payload == (if t.Returns? then Some(t.payload) else None)
    {
      if stream == None {
        if tick.opens == None {
          return None, Some(Unavailable);
        }
        stream := Some(Descriptor(tick.opens.value, 0));
        gapPolls := 0;
        looks := looks + [Seen];
      }
      if tick.readable == None {
        return None, Some(Unavailable);
      }
      var chunk := ReadlineAvailable(tick.readable.value, limit - |pending|);
      if chunk == [] {
        payload, failure := RefreshAtEof(tick.path, tick.seekable);
        return;
      }
      pending := pending + chunk;
      read := read + chunk;
      stream := Some(stream.value.(position := stream.value.position + |chunk|));
      if EndsWith(pending, NEWLINE) || |pending| == limit {
        var line := ReturnPending();
        return Some(line), None;
      }
      return None, None;
    }

    /** One bounded line, or the empty payload once the follower is no longer running. */
    method Readline(limit: int, ticks: seq<Tick>) returns (r: Reading, used: nat)
      modifies this
      ensures used <= |ticks|
      ensures limit <= 0 ==> r == Refused(InvalidBound) && used == 0 && Model() == old(Model())
      ensures limit > 0 ==> Model() == Turns(old(Model()), limit, maximumGapPolls, ticks[..used])
      ensures limit > 0 && r == Line([]) ==> used == |ticks| && handedOut == old(handedOut)
      ensures limit > 0 && r.Line? && r.payload != [] ==> handedOut == old(handedOut) + [r.payload]
      ensures limit > 0 && r.Line? && r.payload != [] ==> (|r.payload| > limit <==> |old(pending)| > limit)
      ensures limit > 0 && r.Refused? ==>
        && used > 0 && handedOut == old(handedOut)
        && var before := Turns(old(Model()), limit, maximumGapPolls, ticks[..used - 1]);
           var last := TurnOf(before, limit, maximumGapPolls, ticks[used - 1]);
           last.Fails? && last.refusal == r.refusal
    {
      if limit <= 0 {
        return Refused(InvalidBound), 0;
      }
      used := 0;
      ghost var start := Model();
      assert ticks[..0] == [];
      while used < |ticks|
        invariant 0 <= used <= |ticks|
        invariant Model() == Turns(start, limit, maximumGapPolls, ticks[..used])
        invariant handedOut == start.handedOut
        invariant |pending| > limit <==> |start.pending| > limit
      {
        ghost var before := Model();
        TurnsOneMore(start, limit, maximumGapPolls, ticks, used);
        TurnHandsOut(before, limit, maximumGapPolls, ticks[used]);
        TurnOverrunsExactly(before, limit, maximumGapPolls, ticks[used]);
        var payload, failure := Turn(limit, ticks[used]);
        used := used + 1;
        if failure.Some? {
          return Refused(failure.value), used;
        }
        if payload.Some? {
          return Line(payload.value), used;
        }
      }
      return Line([]), used;
    }
  }

  /** A turn hands out exactly what it returns, and never nothing. */
  lemma TurnHandsOut(f: Follower, limit: nat, maximumGapPolls: nat, tick: Tick)
    ensures var t := TurnOf(f, limit, maximumGapPolls, tick);
      && t.follower.handedOut == f.handedOut + (if t.Returns? then [t.payload] else [])
      && (t.Returns? ==> t.payload != [])
  {
  }

  lemma {:induction false} TurnsOneMore(f: Follower, limit: nat, maximumGapPolls: nat, ticks: seq<Tick>, k: nat)
    requires k < |ticks|
    ensures Turns(f, limit, maximumGapPolls, ticks[..k + 1])
            == TurnOf(Turns(f, limit, maximumGapPolls, ticks[..k]), limit, maximumGapPolls, ticks[k]).follower
    decreases k
  {
    if k == 0 {
      assert ticks[..1] == [ticks[0]] && ticks[..0] == [];
      assert [ticks[0]][1..] == [];
      var g := TurnOf(f, limit, maximumGapPolls, ticks[0]).follower;
      assert Turns(g, limit, maximumGapPolls, []) == g;
    } else {
      TurnsOneMore(TurnOf(f, limit, maximumGapPolls, ticks[0]).follower, limit, maximumGapPolls, ticks[1..], k - 1);
      assert ticks[1..][..k] == ticks[..k + 1][1..] && ticks[1..][..k - 1] == ticks[..k][1..];
    }
  }
}
