/** `monitor_stream` of packages/broker/src/aerial_rescue_broker/event_monitor.py: every line is accounted for. */
module EventMonitor {
  import opened Options
  import opened LineReader

  /** What the counters look at: refused input, the end or failure of the source, or any other alert. */
  datatype Alert = InputRefused | SourceClosed | SourceFailed | Other(name: Bytes)

  datatype Summary = Summary(lines: nat, alerts: nat, ignored: nat, refused: nat)

  datatype Failure = SourceRead | AlertDelivery | ClockRefused

  datatype Monitored = Completed(summary: Summary) | Raised(failure: Failure)

  /** When the run is cut short: reading raises an OSError while the line with this number is read, or the end
      looked for; and once this many alerts were emitted the next one fails, for a cause: the sink raises an
      OSError, or the clock has no aware time to stamp the alert with. */
  datatype Faults = Faults(readAt: Option<nat>, emitAfter: Option<nat>, cause: Failure)

  /** What one line leads to; `process` is the event processor on the payload, `None` an intentional ignore. */
  function Verdict(process: Bytes -> Option<Alert>, line: Bytes): Option<Alert> {
    if IsOversized(line) then Some(InputRefused) else process(LinePayload(line))
  }

  function Alerts(process: Bytes -> Option<Alert>, lines: seq<Bytes>): seq<Alert> {
    if lines == [] then []
    else
      var rest := Alerts(process, lines[1..]);
      match Verdict(process, lines[0])
      case None => rest
      case Some(alert) => [alert] + rest
  }

  function Ignored(process: Bytes -> Option<Alert>, lines: seq<Bytes>): nat {
    if lines == [] then 0
    else (if Verdict(process, lines[0]) == None then 1 else 0) + Ignored(process, lines[1..])
  }

  function RefusedIn(alerts: seq<Alert>): nat {
    if alerts == [] then 0 else (if alerts[0] == InputRefused then 1 else 0) + RefusedIn(alerts[1..])
  }

  /** Every line is either alerted on or ignored. */
  lemma {:induction false} LinesAreAccounted(process: Bytes -> Option<Alert>, lines: seq<Bytes>)
    ensures |Alerts(process, lines)| + Ignored(process, lines) == |lines|
  {
    if lines != [] {
      LinesAreAccounted(process, lines[1..]);
    }
  }

  lemma {:induction false} RefusedConcat(a: seq<Alert>, b: seq<Alert>)
    ensures RefusedIn(a + b) == RefusedIn(a) + RefusedIn(b)
  {
    if a == [] {
      assert a + b == b;
    } else {
      RefusedConcat(a[1..], b);
      assert (a + b)[1..] == a[1..] + b;
    }
  }

  /** The counters and the emitted alerts answer for exactly the lines of `all` before the `rest`. */
  ghost predicate SoFar(
    process: Bytes -> Option<Alert>, all: seq<Bytes>, rest: seq<Bytes>, emitted: seq<Alert>, s: Summary) {
    && s.lines + |rest| == |all|
    && emitted + Alerts(process, rest) == Alerts(process, all)
    && s.ignored + Ignored(process, rest) == Ignored(process, all)
    && s.alerts == |emitted| && s.refused == RefusedIn(emitted)
  }

  lemma IgnoredLine(process: Bytes -> Option<Alert>, all: seq<Bytes>, rest: seq<Bytes>, emitted: seq<Alert>, s: Summary)
    requires SoFar(process, all, rest, emitted, s) && rest != [] && Verdict(process, rest[0]) == None
    ensures SoFar(process, all, rest[1..], emitted, s.(lines := s.lines + 1, ignored := s.ignored + 1))
  {
  }

  lemma AlertedLine(process: Bytes -> Option<Alert>, all: seq<Bytes>, rest: seq<Bytes>, emitted: seq<Alert>, s: Summary,
                    alert: Alert)
    requires SoFar(process, all, rest, emitted, s) && rest != [] && Verdict(process, rest[0]) == Some(alert)
    ensures SoFar(process, all, rest[1..], emitted + [alert],
                  s.(lines := s.lines + 1, alerts := s.alerts + 1,
                     refused := s.refused + if alert == InputRefused then 1 else 0))
  {
    var after := Alerts(process, rest[1..]);
    assert (emitted + [alert]) + after == emitted + ([alert] + after);
    RefusedConcat(emitted, [alert]);
    assert [alert][1..] == [];
    assert RefusedIn([]) == 0;
  }

  /** What the final counters say once nothing is left to read. */
  lemma AllRead(process: Bytes -> Option<Alert>, all: seq<Bytes>, emitted: seq<Alert>, s: Summary)
    requires SoFar(process, all, [], emitted, s)
    ensures emitted == Alerts(process, all) && s.lines == |all| && s.ignored == Ignored(process, all)
    ensures s.alerts + s.ignored == s.lines
    ensures s.alerts == |emitted| && s.refused == RefusedIn(emitted)
  {
    assert Alerts(process, []) == [];
    assert emitted + [] == emitted;
    LinesAreAccounted(process, all);
  }

  // ---------------------------------------------------------------- faults

  predicate ReadFails(lines: seq<Bytes>, faults: Faults) {
    faults.readAt.Some? && faults.readAt.value <= |lines|
  }

  /** The lines read before the source fails, if it does. */
  function Readable(lines: seq<Bytes>, faults: Faults): seq<Bytes> {
    if ReadFails(lines, faults) then lines[..faults.readAt.value] else lines
  }

  /** Every alert the loop sets out to emit: those of the lines it can read, in order, and a last one for the
      failure of the source or for its end, unless the stop was requested. */
  function Intended(
    process: Bytes -> Option<Alert>, lines: seq<Bytes>, stopRequested: bool, faults: Faults): seq<Alert> {
    Alerts(process, Readable(lines, faults))
    + (if ReadFails(lines, faults) then [SourceFailed] else if stopRequested then [] else [SourceClosed])
  }

  predicate SinkFails(intended: seq<Alert>, faults: Faults) {
    faults.emitAfter.Some? && faults.emitAfter.value < |intended|
  }

  /** What was emitted: the intended alerts, up to the one the sink fails on. */
  function Emitted(
    process: Bytes -> Option<Alert>, lines: seq<Bytes>, stopRequested: bool, faults: Faults): seq<Alert> {
    var intended := Intended(process, lines, stopRequested, faults);
    if SinkFails(intended, faults) then intended[..faults.emitAfter.value] else intended
  }

  function Outcome(process: Bytes -> Option<Alert>, lines: seq<Bytes>, stopRequested: bool, faults: Faults): Monitored {
    var intended := Intended(process, lines, stopRequested, faults);
    if SinkFails(intended, faults) then Raised(faults.cause)
    else if ReadFails(lines, faults) then Raised(SourceRead)
    else Completed(Summary(|lines|, |intended|, Ignored(process, lines), RefusedIn(intended)))
  }

  /** On completion every line is alerted on or ignored, with one more alert when the source closed, and every
      intended alert was emitted. */
  lemma OutcomeAddsUp(process: Bytes -> Option<Alert>, lines: seq<Bytes>, stopRequested: bool, faults: Faults)
    requires Outcome(process, lines, stopRequested, faults).Completed?
    ensures var s := Outcome(process, lines, stopRequested, faults).summary;
      && s.alerts + s.ignored == s.lines + (if stopRequested then 0 else 1)
      && Emitted(process, lines, stopRequested, faults)
          == Alerts(process, lines) + (if stopRequested then [] else [SourceClosed])
      && s.refused == RefusedIn(Alerts(process, lines))
  {
    LinesAreAccounted(process, lines);
    RefusedConcat(Alerts(process, lines), if stopRequested then [] else [SourceClosed]);
  }

  /** After the lines before `rest`, the sink refuses the next alert. */
  lemma SinkStops(process: Bytes -> Option<Alert>, lines: seq<Bytes>, stopRequested: bool, faults: Faults,
                  rest: seq<Bytes>, emitted: seq<Alert>, s: Summary)
    requires SoFar(process, Readable(lines, faults), rest, emitted, s) && faults.emitAfter == Some(s.alerts)
    requires (rest != [] && Verdict(process, rest[0]).Some?)
        || (rest == [] && (ReadFails(lines, faults) || !stopRequested))
    ensures Emitted(process, lines, stopRequested, faults) == emitted
    ensures Outcome(process, lines, stopRequested, faults) == Raised(faults.cause)
  {
    var last := if ReadFails(lines, faults) then [SourceFailed] else if stopRequested then [] else [SourceClosed];
    var more := Alerts(process, rest) + last;
    assert Intended(process, lines, stopRequested, faults) == emitted + more;
    assert more != [];
  }

  /** All readable lines are done and the sink has room for the last alert, if there is one. */
  lemma LoopEnds(process: Bytes -> Option<Alert>, lines: seq<Bytes>, stopRequested: bool, faults: Faults,
                 emitted: seq<Alert>, s: Summary)
    requires SoFar(process, Readable(lines, faults), [], emitted, s)
    requires faults.emitAfter.Some? ==> |emitted| <= faults.emitAfter.value
    requires faults.emitAfter == Some(|emitted|) ==> !ReadFails(lines, faults) && stopRequested
    ensures var last :=
        if ReadFails(lines, faults) then [SourceFailed] else if stopRequested then [] else [SourceClosed];
      && Emitted(process, lines, stopRequested, faults) == emitted + last
      && Outcome(process, lines, stopRequested, faults)
         == if ReadFails(lines, faults) then Raised(SourceRead) else Completed(s.(alerts := s.alerts + |last|))
  {
    AllRead(process, Readable(lines, faults), emitted, s);
    RefusedConcat(emitted, if stopRequested then [] else [SourceClosed]);
  }

  function Counted(s: Summary, alert: Option<Alert>): Summary {
    if alert == None then s.(lines := s.lines + 1, ignored := s.ignored + 1)
    else s.(lines := s.lines + 1, alerts := s.alerts + 1,
            refused := s.refused + if alert.value == InputRefused then 1 else 0)
  }

  /** Some of the readable lines are done and everything they called for was emitted. */
  ghost predicate Working(
    process: Bytes -> Option<Alert>, all: seq<Bytes>, faults: Faults, emitted: seq<Alert>, s: Summary) {
    && s.lines <= |Readable(all, faults)|
    && SoFar(process, Readable(all, faults), Readable(all, faults)[s.lines..], emitted, s)
    && (faults.emitAfter.Some? ==> |emitted| <= faults.emitAfter.value)
  }

  lemma StillReadable(all: seq<Bytes>, faults: Faults, k: nat)
    requires k < |all| && k <= |Readable(all, faults)| && faults.readAt != Some(k)
    ensures var r := Readable(all, faults);
      && k < |r| && r[k..] != [] && r[k..][0] == all[k] && r[k..][1..] == r[k + 1..]
      && all[k..][1..] == all[k + 1..]
  {
  }

  /** The next line is done: counted, and its alert emitted or refused by the sink. */
  lemma LineDone(process: Bytes -> Option<Alert>, all: seq<Bytes>, stopRequested: bool, faults: Faults,
                 emitted: seq<Alert>, s: Summary)
    requires Working(process, all, faults, emitted, s) && s.lines < |all| && faults.readAt != Some(s.lines)
    ensures var v := Verdict(process, all[s.lines]);
      if v == None then Working(process, all, faults, emitted, Counted(s, v))
      else if faults.emitAfter == Some(s.alerts) then
        && Emitted(process, all, stopRequested, faults) == emitted
        && Outcome(process, all, stopRequested, faults) == Raised(faults.cause)
      else Working(process, all, faults, emitted + [v.value], Counted(s, v))
  {
    StillReadable(all, faults, s.lines);
    var readable := Readable(all, faults);
    var v, rest := Verdict(process, all[s.lines]), readable[s.lines..];
    if v == None {
      IgnoredLine(process, readable, rest, emitted, s);
    } else if faults.emitAfter == Some(s.alerts) {
      SinkStops(process, all, stopRequested, faults, rest, emitted, s);
    } else {
      AlertedLine(process, readable, rest, emitted, s, v.value);
    }
  }

  /** The source failed or ended: the last alert is emitted, refused by the sink, or not called for. */
  lemma LoopDone(process: Bytes -> Option<Alert>, all: seq<Bytes>, stopRequested: bool, faults: Faults,
                 emitted: seq<Alert>, s: Summary)
    requires Working(process, all, faults, emitted, s)
    requires faults.readAt == Some(s.lines) || s.lines == |all|
    ensures var failed := faults.readAt == Some(s.lines);
      var last := if failed then SourceFailed else SourceClosed;
      var r, e := Outcome(process, all, stopRequested, faults), Emitted(process, all, stopRequested, faults);
      if !failed && stopRequested then r == Completed(s) && e == emitted
      else if faults.emitAfter == Some(s.alerts) then r == Raised(faults.cause) && e == emitted
      else e == emitted + [last] && r == if failed then Raised(SourceRead) else Completed(s.(alerts := s.alerts + 1))
  {
    assert Readable(all, faults)[s.lines..] == [];
    if (faults.readAt != Some(s.lines) && stopRequested) || faults.emitAfter != Some(s.alerts) {
      LoopEnds(process, all, stopRequested, faults, emitted, s);
      assert emitted + [] == emitted;
    } else {
      SinkStops(process, all, stopRequested, faults, [], emitted, s);
    }
  }

  lemma ReadPiece(chunks: seq<Bytes>, all: seq<Bytes>, k: nat)
    requires chunks != [] && k <= |all| && Pieces(chunks) == all[k..]
    ensures var n := PieceLength(chunks);
      k < |all| && all[k] == Joined(chunks[..n]) && Pieces(chunks[n..]) == all[k + 1..]
  {
    assert Pieces(chunks)[0] == Joined(chunks[..PieceLength(chunks)]);
    assert Pieces(chunks)[1..] == Pieces(chunks[PieceLength(chunks)..]);
    assert all[k..][1..] == all[k + 1..];
  }

  /** Processes the source until it ends, fails, or an alert cannot be emitted. */
  method MonitorStream(source: ChunkSource, process: Bytes -> Option<Alert>, stopRequested: bool, faults: Faults)
    returns (r: Monitored, emitted: seq<Alert>)
    requires AreChunks(source.chunks)
    modifies source
    ensures r == Outcome(process, Pieces(old(source.chunks)), stopRequested, faults)
    ensures emitted == Emitted(process, Pieces(old(source.chunks)), stopRequested, faults)
    ensures r.Completed? ==> source.chunks == []
  {
    ghost var all := Pieces(source.chunks);
    var s := Summary(0, 0, 0, 0);
    emitted := [];
    while true
      invariant s.lines <= |all| && Pieces(source.chunks) == all[s.lines..]
      invariant Working(process, all, faults, emitted, s) && AreChunks(source.chunks)
      decreases |source.chunks|
    {
      if faults.readAt == Some(s.lines) {
        LoopDone(process, all, stopRequested, faults, emitted, s);
        if faults.emitAfter == Some(s.alerts) {
          return Raised(faults.cause), emitted;
        }
        return Raised(SourceRead), emitted + [SourceFailed];
      }
      ghost var before := source.chunks;
      var payload, oversized := ReadBounded(source);
      if payload == None {
        break;
      }
      ReadPiece(before, all, s.lines);
      LineDone(process, all, stopRequested, faults, emitted, s);
      var alert := if oversized then Some(InputRefused) else process(payload.value);
      if alert.Some? {
        if faults.emitAfter == Some(s.alerts) {
          return Raised(faults.cause), emitted;
        }
        emitted := emitted + [alert.value];
      }
      s := Counted(s, alert);
    }
    LoopDone(process, all, stopRequested, faults, emitted, s);
    if stopRequested {
      return Completed(s), emitted;
    }
    if faults.emitAfter == Some(s.alerts) {
      return Raised(faults.cause), emitted;
    }
    return Completed(s.(alerts := s.alerts + 1)), emitted + [SourceClosed];
  }

  /** Over an ideal `readline` this is the outcome on the lines of the plain split. */
  method MonitorBytes(input: LineSource, process: Bytes -> Option<Alert>, stopRequested: bool, faults: Faults)
    returns (r: Monitored, emitted: seq<Alert>)
    modifies input
    ensures r == Outcome(process, SplitLines(old(input.remaining)), stopRequested, faults)
    ensures emitted == Emitted(process, SplitLines(old(input.remaining)), stopRequested, faults)
  {
    IdealAreChunks(input.remaining);
    IdealPieces(input.remaining);
    var chunks := ReadAllChunks(input);
    var source := new ChunkSource(chunks);
    r, emitted := MonitorStream(source, process, stopRequested, faults);
  }
}
