/** Bounded line reading and the monitoring loop of packages/broker/src/aerial_rescue_broker/event_monitor.py. */
module LineReader {
  import opened Options
  import opened Unicode

  const NEWLINE: Byte := 0x0A
  const CARRIAGE_RETURN: Byte := 0x0D
  const MAX_JSON_EVENT_BYTES := 8192
  const READ_LIMIT := 8194

  type Bytes = seq<Byte>

  // ---------------------------------------------------------------- lines

  /** Length of the first line of `s`, its newline included. */
  function LineRun(s: Bytes): (n: nat)
    ensures n <= |s|
    ensures s != [] ==> n > 0
    ensures forall i :: 0 <= i < n - 1 ==> s[i] != NEWLINE
    ensures 0 < n < |s| ==> s[n - 1] == NEWLINE
  {
    RunFrom(s, 0)
  }

  /** One past the first newline at or after `i`, or the end. */
  function RunFrom(s: Bytes, i: nat): (n: nat)
    requires i <= |s|
    ensures i <= n <= |s| && (i < |s| ==> i < n)
    ensures forall k :: i <= k < n - 1 ==> s[k] != NEWLINE
    ensures i < n < |s| ==> s[n - 1] == NEWLINE
    decreases |s| - i
  {
    if i == |s| then i else if s[i] == NEWLINE then i + 1 else RunFrom(s, i + 1)
  }

  /** The plain split: every line with its ending. */
  function SplitLines(s: Bytes): seq<Bytes>
    decreases |s|
  {
    if s == [] then [] else [s[..LineRun(s)]] + SplitLines(s[LineRun(s)..])
  }

  predicate EndsWith(s: Bytes, u: Byte) {
    s != [] && s[|s| - 1] == u
  }

  function DropEnd(s: Bytes, u: Byte): Bytes {
    if EndsWith(s, u) then s[..|s| - 1] else s
  }

  /** One line ending removed, nothing else touched. */
  function LinePayload(chunk: Bytes): Bytes {
    DropEnd(DropEnd(chunk, NEWLINE), CARRIAGE_RETURN)
  }

  predicate IsOversized(line: Bytes) {
    |LinePayload(line)| > MAX_JSON_EVENT_BYTES
  }

  lemma JoinedFirst(line: Bytes, lines: seq<Bytes>)
    ensures Joined([line] + lines) == line + Joined(lines)
  {
    assert ([line] + lines)[1..] == lines;
  }

  lemma {:induction false} SplitJoins(s: Bytes)
    ensures Joined(SplitLines(s)) == s
    decreases |s|
  {
    if s != [] {
      var n := LineRun(s);
      SplitJoins(s[n..]);
      JoinedFirst(s[..n], SplitLines(s[n..]));
      assert s == s[..n] + s[n..];
    }
  }

  lemma FirstLine(s: Bytes)
    requires s != []
    ensures var n := LineRun(s); IsLine(s[..n]) && (n < |s| ==> EndsWith(s[..n], NEWLINE))
  {
  }

  lemma LinesOneMore(line: Bytes, lines: seq<Bytes>)
    requires IsLine(line) && AreLines(lines) && (lines != [] ==> EndsWith(line, NEWLINE))
    ensures AreLines([line] + lines)
  {
    assert ([line] + lines)[1..] == lines;
  }

  lemma {:induction false} SplitIntoLines(s: Bytes)
    ensures AreLines(SplitLines(s))
    decreases |s|
  {
    if s != [] {
      var n := LineRun(s);
      SplitIntoLines(s[n..]);
      FirstLine(s);
      LinesOneMore(s[..n], SplitLines(s[n..]));
    }
  }

  /** The split loses nothing: its lines put back together are the input, and a newline ends each but perhaps
      the last. */
  lemma {:induction false} SplitIsExact(s: Bytes)
    ensures Joined(SplitLines(s)) == s && AreLines(SplitLines(s))
  {
    SplitJoins(s);
    SplitIntoLines(s);
  }

  /** Lines of which only the last may lack its newline. */
  predicate AreLines(lines: seq<Bytes>) {
    lines == [] || (IsLine(lines[0]) && (|lines| > 1 ==> EndsWith(lines[0], NEWLINE)) && AreLines(lines[1..]))
  }

  function Joined(lines: seq<Bytes>): Bytes {
    if lines == [] then [] else lines[0] + Joined(lines[1..])
  }

  predicate IsLine(line: Bytes) {
    line != [] && forall i :: 0 <= i < |line| - 1 ==> line[i] != NEWLINE
  }

  // ---------------------------------------------------------------- the source

  function Chunk(s: Bytes, limit: nat): Bytes {
    var n := LineRun(s);
    s[..if n < limit then n else limit]
  }

  /** A byte stream with an ideal `readline`. */
  class LineSource {
    var remaining: Bytes

    constructor (input: Bytes)
      ensures remaining == input
    {
      remaining := input;
    }

    method Readline(limit: nat) returns (chunk: Bytes)
      modifies this
      ensures chunk == Chunk(old(remaining), limit)
      ensures remaining == old(remaining)[|chunk|..]
    {
      var n := 0;
      while n < limit && n < |remaining| && (n == 0 || remaining[n - 1] != NEWLINE)
        invariant 0 <= n <= limit && n <= |remaining|
        invariant n <= LineRun(remaining)
        invariant remaining == old(remaining)
      {
        NotYetEnded(remaining, n);
        n := n + 1;
      }
      if n < limit {
        Ended(remaining, n);
      }
      chunk := remaining[..n];
      remaining := remaining[n..];
    }
  }

  lemma NotYetEnded(s: Bytes, n: nat)
    requires n <= LineRun(s) && n < |s| && (n == 0 || s[n - 1] != NEWLINE)
    ensures n < LineRun(s)
  {
  }

  lemma Ended(s: Bytes, n: nat)
    requires n <= LineRun(s) && (n == |s| || (n > 0 && s[n - 1] == NEWLINE))
    ensures n == LineRun(s)
  {
  }

  // ---------------------------------------------------------------- chunks

  /** What a `readline` bounded by the read limit returns, call by call, before it returns nothing. */
  predicate AreChunks(chunks: seq<Bytes>) {
    forall i :: 0 <= i < |chunks| ==> 0 < |chunks[i]| <= READ_LIMIT
  }

  /** A full chunk without a newline: its line goes on. */
  predicate GoesOn(chunk: Bytes) {
    |chunk| == READ_LIMIT && !EndsWith(chunk, NEWLINE)
  }

  /** How many chunks the reader takes for one line. */
  function PieceLength(chunks: seq<Bytes>): (n: nat)
    ensures n <= |chunks| && (chunks != [] ==> n > 0)
  {
    if chunks == [] then 0 else if GoesOn(chunks[0]) then 1 + PieceLength(chunks[1..]) else 1
  }

  /** The chunks put together as the reader takes them. */
  function Pieces(chunks: seq<Bytes>): seq<Bytes>
    decreases |chunks|
  {
    if chunks == [] then []
    else [Joined(chunks[..PieceLength(chunks)])] + Pieces(chunks[PieceLength(chunks)..])
  }

  /** The chunks of an ideal `readline`. */
  function IdealChunks(s: Bytes): seq<Bytes>
    decreases |s|
  {
    if s == [] then [] else [Chunk(s, READ_LIMIT)] + IdealChunks(s[|Chunk(s, READ_LIMIT)|..])
  }

  method ReadAllChunks(source: LineSource) returns (chunks: seq<Bytes>)
    modifies source
    ensures chunks == IdealChunks(old(source.remaining)) && source.remaining == []
  {
    chunks := [];
    ghost var all := IdealChunks(source.remaining);
    while source.remaining != []
      invariant chunks + IdealChunks(source.remaining) == all
      decreases |source.remaining|
    {
      ghost var rest := IdealChunks(source.remaining);
      var chunk := source.Readline(READ_LIMIT);
      assert rest == [chunk] + IdealChunks(source.remaining);
      assert (chunks + [chunk]) + IdealChunks(source.remaining) == chunks + rest;
      chunks := chunks + [chunk];
    }
    assert chunks + [] == chunks;
  }

  /** A chunk that ends the line it is read from. */
  lemma ChunkEndsLine(s: Bytes, limit: nat)
    requires limit > 0
    ensures var c := Chunk(s, limit);
      && (c == [] || EndsWith(c, NEWLINE) || |c| < limit ==> |c| == LineRun(s))
      && (|c| < LineRun(s) ==> |c| == limit && !EndsWith(c, NEWLINE) && LineRun(s[|c|..]) == LineRun(s) - |c|)
  {
    var c := Chunk(s, limit);
    if |c| < LineRun(s) {
      LineRunTail(s, |c|);
    }
  }

  lemma LineRunTail(s: Bytes, k: nat)
    requires k < LineRun(s)
    ensures LineRun(s[k..]) == LineRun(s) - k
  {
    assert forall i :: 0 <= i < |s| - k ==> s[k..][i] == s[k + i];
  }

  lemma {:induction false} IdealAreChunks(s: Bytes)
    ensures AreChunks(IdealChunks(s))
    decreases |s|
  {
    if s != [] {
      IdealAreChunks(s[|Chunk(s, READ_LIMIT)|..]);
    }
  }

  lemma PieceMore(c: Bytes, rest: seq<Bytes>)
    ensures GoesOn(c) ==> PieceLength([c] + rest) == 1 + PieceLength(rest)
    ensures !GoesOn(c) ==> PieceLength([c] + rest) == 1
  {
    assert ([c] + rest)[1..] == rest;
  }

  lemma {:induction false} JoinedMore(c: Bytes, rest: seq<Bytes>, n: nat)
    requires n <= |rest|
    ensures Joined(([c] + rest)[..n + 1]) == c + Joined(rest[..n]) && ([c] + rest)[n + 1..] == rest[n..]
  {
    assert ([c] + rest)[..n + 1] == [c] + rest[..n];
    assert ([c] + rest[..n])[1..] == rest[..n];
  }

  /** The first piece of the ideal chunks is the first line. */
  ghost predicate StartsWithLine(s: Bytes) {
    var chunks := IdealChunks(s);
    && Joined(chunks[..PieceLength(chunks)]) == s[..LineRun(s)]
    && chunks[PieceLength(chunks)..] == IdealChunks(s[LineRun(s)..])
  }

  lemma {:induction false} FirstPiece(s: Bytes)
    requires s != []
    ensures StartsWithLine(s)
    decreases |s|
  {
    var c := Chunk(s, READ_LIMIT);
    ChunkEndsLine(s, READ_LIMIT);
    if |c| < LineRun(s) {
      FirstPiece(s[|c|..]);
      LinePrepended(s);
    } else {
      LineAtOnce(s);
    }
  }

  lemma {:induction false} LinePrepended(s: Bytes)
    requires s != [] && |Chunk(s, READ_LIMIT)| < LineRun(s) && StartsWithLine(s[|Chunk(s, READ_LIMIT)|..])
    ensures StartsWithLine(s)
  {
    var c := Chunk(s, READ_LIMIT);
    var t := s[|c|..];
    var rest := IdealChunks(t);
    ChunkEndsLine(s, READ_LIMIT);
    PieceMore(c, rest);
    JoinedMore(c, rest, PieceLength(rest));
    RunSplit(s, |c|);
  }

  lemma RunSplit(s: Bytes, k: nat)
    requires k < LineRun(s) && LineRun(s[k..]) == LineRun(s) - k
    ensures s[..k] + s[k..][..LineRun(s[k..])] == s[..LineRun(s)] && s[k..][LineRun(s[k..])..] == s[LineRun(s)..]
  {
  }

  lemma {:induction false} LineAtOnce(s: Bytes)
    requires s != [] && |Chunk(s, READ_LIMIT)| == LineRun(s)
    ensures StartsWithLine(s)
  {
    var c := Chunk(s, READ_LIMIT);
    var rest := IdealChunks(s[|c|..]);
    PieceMore(c, rest);
    if GoesOn(c) {
      LineEndsInput(s);
      assert rest == [];
    }
    JoinedMore(c, rest, 0);
    assert rest[..0] == [] && rest[0..] == rest && Joined([]) == [] && c + [] == c;
  }

  /** A line without a newline is the last one. */
  lemma LineEndsInput(s: Bytes)
    requires s != [] && !EndsWith(s[..LineRun(s)], NEWLINE)
    ensures LineRun(s) == |s|
  {
  }

  /** Over an ideal `readline` the pieces are the lines of the plain split. */
  lemma {:induction false} IdealPieces(s: Bytes)
    ensures Pieces(IdealChunks(s)) == SplitLines(s)
    decreases |s|
  {
    if s != [] {
      FirstPiece(s);
      IdealPieces(s[LineRun(s)..]);
    }
  }

  lemma {:induction false} JoinedConcat(a: seq<Bytes>, b: seq<Bytes>)
    ensures Joined(a + b) == Joined(a) + Joined(b)
  {
    if a == [] {
      assert a + b == b;
    } else {
      JoinedConcat(a[1..], b);
      assert (a + b)[1..] == a[1..] + b;
    }
  }

  /** Whatever the source, the pieces lose nothing. */
  lemma {:induction false} PiecesJoin(chunks: seq<Bytes>)
    ensures Joined(Pieces(chunks)) == Joined(chunks)
    decreases |chunks|
  {
    if chunks != [] {
      var n := PieceLength(chunks);
      PiecesJoin(chunks[n..]);
      JoinedConcat(chunks[..n], chunks[n..]);
      assert chunks == chunks[..n] + chunks[n..];
      assert ([Joined(chunks[..n])] + Pieces(chunks[n..]))[1..] == Pieces(chunks[n..]);
    }
  }

  // ---------------------------------------------------------------- when the pieces are the lines

  /** A chunk that a line was broken off at: short, and without a newline. */
  predicate IsFragment(chunk: Bytes) {
    |chunk| < READ_LIMIT && !EndsWith(chunk, NEWLINE)
  }

  /** Lines are found again in what they make together. */
  lemma {:induction false} LinesAreSplit(lines: seq<Bytes>)
    requires AreLines(lines)
    ensures SplitLines(Joined(lines)) == lines
  {
    if lines != [] {
      LinesAreSplit(lines[1..]);
      FirstOfLines(lines);
    }
  }

  lemma FirstOfLines(lines: seq<Bytes>)
    requires lines != [] && AreLines(lines)
    ensures var s := Joined(lines);
      s != [] && s[..LineRun(s)] == lines[0] && s[LineRun(s)..] == Joined(lines[1..])
  {
    var s, first, rest := Joined(lines), lines[0], Joined(lines[1..]);
    assert s == first + rest;
    assert forall i :: 0 <= i < |first| ==> s[i] == first[i];
    if |lines| == 1 {
      assert lines[1..] == [] && rest == [] && s == first;
    }
    assert s[..|first|] == first && s[|first|..] == rest;
  }

  /** Chunks that hold a newline only at their end. */
  predicate OfLines(chunks: seq<Bytes>) {
    AreChunks(chunks) && forall i :: 0 <= i < |chunks| ==> IsLine(chunks[i])
  }

  lemma {:induction false} PieceIsLine(chunks: seq<Bytes>)
    requires chunks != [] && OfLines(chunks)
    ensures var n := PieceLength(chunks);
      && IsLine(Joined(chunks[..n]))
      && (EndsWith(Joined(chunks[..n]), NEWLINE) <==> EndsWith(chunks[n - 1], NEWLINE))
    decreases |chunks|
  {
    var c, rest := chunks[0], chunks[1..];
    assert chunks == [c] + rest;
    if GoesOn(c) && rest != [] {
      PieceIsLine(rest);
      JoinedMore(c, rest, PieceLength(rest));
      LongerLine(c, Joined(rest[..PieceLength(rest)]));
    } else {
      JoinedMore(c, rest, 0);
      assert rest[..0] == [] && Joined([]) == [] && c + [] == c;
    }
  }

  lemma LongerLine(c: Bytes, more: Bytes)
    requires IsLine(c) && !EndsWith(c, NEWLINE) && IsLine(more)
    ensures IsLine(c + more) && (EndsWith(c + more, NEWLINE) <==> EndsWith(more, NEWLINE))
  {
  }

  /** A piece ends in a chunk that does not go on, unless the source ended. */
  lemma {:induction false} PieceEnds(chunks: seq<Bytes>)
    requires chunks != []
    ensures var n := PieceLength(chunks); n < |chunks| ==> !GoesOn(chunks[n - 1])
    ensures forall i :: 0 <= i < PieceLength(chunks) - 1 ==> GoesOn(chunks[i])
    decreases |chunks|
  {
    if GoesOn(chunks[0]) && |chunks| > 1 {
      PieceEnds(chunks[1..]);
    }
  }

  ghost predicate NoneBrokenOff(chunks: seq<Bytes>) {
    forall i :: 0 <= i < |chunks| - 1 ==> !IsFragment(chunks[i])
  }

  lemma {:induction false} PiecesAreLines(chunks: seq<Bytes>)
    requires OfLines(chunks)
    ensures AreLines(Pieces(chunks)) <==> NoneBrokenOff(chunks)
    decreases |chunks|
  {
    if chunks != [] {
      var n := PieceLength(chunks);
      var later := chunks[n..];
      PieceIsLine(chunks);
      PieceEnds(chunks);
      PiecesAreLines(later);
      BrokenOffFirst(chunks);
      var pieces := Pieces(chunks);
      assert pieces[1..] == Pieces(later) && pieces[0] == Joined(chunks[..n]);
      assert |pieces| > 1 <==> later != [];
    }
  }

  lemma BrokenOffFirst(chunks: seq<Bytes>)
    requires chunks != []
    requires forall i :: 0 <= i < PieceLength(chunks) - 1 ==> GoesOn(chunks[i])
    ensures var n := PieceLength(chunks);
      NoneBrokenOff(chunks) <==> NoneBrokenOff(chunks[n..]) && (n < |chunks| ==> !IsFragment(chunks[n - 1]))
  {
    var n := PieceLength(chunks);
    var later := chunks[n..];
    assert forall i :: 0 <= i < |later| ==> later[i] == chunks[n + i];
    if NoneBrokenOff(later) && (n < |chunks| ==> !IsFragment(chunks[n - 1])) {
      forall i | 0 <= i < |chunks| - 1 ensures !IsFragment(chunks[i]) {
        if i >= n {
          assert chunks[i] == later[i - n];
        }
      }
    }
  }

  /** The pieces are the plain lines of everything read exactly when no chunk but the last was broken off. */
  lemma PiecesAreLinesExactly(chunks: seq<Bytes>)
    requires OfLines(chunks)
    ensures Pieces(chunks) == SplitLines(Joined(chunks)) <==> NoneBrokenOff(chunks)
  {
    PiecesAreLines(chunks);
    PiecesJoin(chunks);
    SplitIsExact(Joined(chunks));
    if AreLines(Pieces(chunks)) {
      LinesAreSplit(Pieces(chunks));
    }
  }

  // ---------------------------------------------------------------- reading one line

  /** Any source of lines, as the chunks it will return. */
  class ChunkSource {
    var chunks: seq<Bytes>

    constructor (chunks: seq<Bytes>)
      ensures this.chunks == chunks
    {
      this.chunks := chunks;
    }

    method Readline() returns (chunk: Bytes)
      modifies this
      ensures chunk == if old(chunks) == [] then [] else old(chunks)[0]
      ensures chunks == if old(chunks) == [] then [] else old(chunks)[1..]
    {
      if chunks == [] {
        return [];
      }
      chunk := chunks[0];
      chunks := chunks[1..];
    }
  }

  /** A full chunk without a newline starts an oversized line, whatever follows. */
  lemma LongPiece(c: Bytes, more: Bytes)
    requires GoesOn(c)
    ensures IsOversized(c + more) && IsOversized(c)
  {
  }

  lemma {:induction false} PieceLeft(chunks: seq<Bytes>, k: nat)
    requires 0 < k <= PieceLength(chunks)
    ensures GoesOn(chunks[k - 1]) ==> PieceLength(chunks) == k + PieceLength(chunks[k..])
    ensures !GoesOn(chunks[k - 1]) ==> PieceLength(chunks) == k
    decreases k
  {
    if k > 1 {
      PieceLeft(chunks[1..], k - 1);
      assert chunks[1..][k - 1..] == chunks[k..];
    }
  }

  lemma {:induction false} FirstOversized(chunks: seq<Bytes>)
    requires chunks != []
    ensures GoesOn(chunks[0]) ==> IsOversized(Joined(chunks[..PieceLength(chunks)]))
    ensures !GoesOn(chunks[0]) ==> Joined(chunks[..PieceLength(chunks)]) == chunks[0]
  {
    var c, rest := chunks[0], chunks[1..];
    assert chunks == [c] + rest;
    if GoesOn(c) {
      JoinedMore(c, rest, PieceLength(rest));
      LongPiece(c, Joined(rest[..PieceLength(rest)]));
    } else {
      JoinedMore(c, rest, 0);
      assert rest[..0] == [] && Joined([]) == [] && c + [] == c;
    }
  }

  /** Reads exactly one piece in constant memory: its payload, or the fact that it is oversized. */
  method ReadBounded(source: ChunkSource) returns (payload: Option<Bytes>, oversized: bool)
    requires AreChunks(source.chunks)
    modifies source
    ensures AreChunks(source.chunks)
    ensures old(source.chunks) == [] ==> payload == None && !oversized && source.chunks == []
    ensures old(source.chunks) != [] ==>
      var n := PieceLength(old(source.chunks));
      var piece := Joined(old(source.chunks)[..n]);
      && source.chunks == old(source.chunks)[n..]
      && oversized == IsOversized(piece)
      && payload == Some(if oversized then [] else LinePayload(piece))
  {
    ghost var all := source.chunks;
    var chunk := source.Readline();
    if chunk == [] {
      return None, false;
    }
    var first := LinePayload(chunk);
    oversized := |first| > MAX_JSON_EVENT_BYTES;
    FirstOversized(all);
    LongPieceStarts(chunk);
    ghost var k := 1;
    PieceLeft(all, 1);
    while chunk != [] && !EndsWith(chunk, NEWLINE) && |chunk| == READ_LIMIT
      invariant 0 < k <= PieceLength(all) && source.chunks == all[k..]
      invariant if chunk == [] then k == |all| else chunk == all[k - 1]
      invariant GoesOn(all[0]) ==> oversized
      invariant !GoesOn(all[0]) ==> k == 1 && chunk == all[0] && oversized == IsOversized(all[0])
      decreases |source.chunks|, |chunk|
    {
      PieceLeft(all, k);
      k := if source.chunks == [] then k else k + 1;
      chunk := source.Readline();
      oversized := true;
    }
    PieceLeft(all, k);
    return Some(if oversized then [] else first), oversized;
  }

  lemma LongPieceStarts(c: Bytes)
    ensures GoesOn(c) ==> IsOversized(c)
  {
    if GoesOn(c) {
      LongPiece(c, []);
    }
  }
}
