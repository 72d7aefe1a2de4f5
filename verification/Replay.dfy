/** The replay index of apps/dashboard/src/dashboard-app.tsx: one checkpoint per bundle event, and a cursor. */
module Replay {
  import opened Options
  import opened Unicode
  import opened Reducer
  import opened Timeline

  datatype Bundle = Bundle(
    scenarioId: Identifier, initialState: State, latestEventDigest: Option<Text>, events: seq<OrderedEvent>,
    expectedFinalDigest: Text, checksum: Text)

  datatype ReplayCheckpoint = ReplayCheckpoint(checkpoint: Checkpoint, digest: Text, timeline: seq<OrderedEvent>)

  datatype Verification = Pending | Verified | NotVerified

  datatype ReplayState = ReplayState(
    bundle: Bundle, checkpoints: seq<ReplayCheckpoint>, cursor: int, playing: bool, verification: Verification)

  datatype Preparation = Ready(replay: ReplayState) | ScenarioMismatch | Invalid

  /** The simple fold: every event accepted, applied or repeated. */
  function FoldAll(b: Boundary, c: Checkpoint, events: seq<OrderedEvent>): Option<Checkpoint> {
    if events == [] then Some(c)
    else
      match FoldAll(b, c, events[..|events| - 1])
      case None => None
      case Some(d) =>
        var f := Fold(b, d, events[|events| - 1]);
        if f.Accepted? then Some(f.checkpoint) else None
  }

  function Anchoring(bundle: Bundle): Anchored {
    CheckpointFromAnchor(bundle.initialState, bundle.latestEventDigest)
  }

  /** What the index must hold after the first `i` events. */
  ghost predicate IndexesAt(b: Boundary, bundle: Bundle, checkpoints: seq<ReplayCheckpoint>, i: nat)
    requires Anchoring(bundle).Anchor? && i < |checkpoints| && i <= |bundle.events|
  {
    var at := FoldAll(b, Anchoring(bundle).checkpoint, bundle.events[..i]);
    && at.Some?
    && checkpoints[i].checkpoint == at.value
    && checkpoints[i].digest == b.stateDigest(at.value.state)
    && checkpoints[i].timeline == ReplaceTimeline(bundle.events[..i])
  }

  lemma PrefixPlusOne<X>(s: seq<X>, k: nat)
    requires k < |s|
    ensures s[..k + 1][..k] == s[..k] && s[..k + 1][k] == s[k]
  {
  }

  lemma {:induction false} FoldAllPrefix(b: Boundary, c: Checkpoint, events: seq<OrderedEvent>, k: nat)
    requires k <= |events| && FoldAll(b, c, events).Some?
    ensures FoldAll(b, c, events[..k]).Some?
    decreases |events| - k
  {
    if k == |events| {
      assert events[..k] == events;
    } else {
      FoldAllPrefix(b, c, events, k + 1);
      PrefixPlusOne(events, k);
    }
  }

  lemma FoldAllStep(b: Boundary, c: Checkpoint, events: seq<OrderedEvent>, k: nat, d: Checkpoint, f: Folded)
    requires k < |events| && FoldAll(b, c, events[..k]) == Some(d) && f == Fold(b, d, events[k])
    ensures FoldAll(b, c, events[..k + 1]) == if f.Accepted? then Some(f.checkpoint) else None
  {
    PrefixPlusOne(events, k);
  }

  lemma TimelineStep(events: seq<OrderedEvent>, k: nat)
    requires k < |events|
    ensures ReplaceTimeline(events[..k + 1]) == AppendEvent(ReplaceTimeline(events[..k]), events[k])
  {
    PrefixPlusOne(events, k);
    AppendAllIsReplace(events[..k]);
    AppendAllIsReplace(events[..k + 1]);
  }

  function NextEntry(b: Boundary, previous: ReplayCheckpoint, oe: OrderedEvent, folded: Checkpoint): ReplayCheckpoint {
    ReplayCheckpoint(folded, b.stateDigest(folded.state), AppendEvent(previous.timeline, oe))
  }

  ghost predicate IndexesUpTo(b: Boundary, bundle: Bundle, checkpoints: seq<ReplayCheckpoint>, k: nat) {
    && Anchoring(bundle).Anchor? && k <= |bundle.events| && |checkpoints| == k + 1
    && forall i :: 0 <= i <= k ==> IndexesAt(b, bundle, checkpoints, i)
  }

  lemma IndexGrows(b: Boundary, bundle: Bundle, checkpoints: seq<ReplayCheckpoint>, k: nat, f: Folded)
    requires k < |bundle.events| && IndexesUpTo(b, bundle, checkpoints, k)
    requires f == Fold(b, checkpoints[k].checkpoint, bundle.events[k]) && f.Accepted?
    ensures IndexesUpTo(b, bundle,
      checkpoints + [NextEntry(b, checkpoints[k], bundle.events[k], f.checkpoint)], k + 1)
  {
    var grown := checkpoints + [NextEntry(b, checkpoints[k], bundle.events[k], f.checkpoint)];
    assert IndexesAt(b, bundle, checkpoints, k);
    FoldAllStep(b, Anchoring(bundle).checkpoint, bundle.events, k, checkpoints[k].checkpoint, f);
    TimelineStep(bundle.events, k);
    forall i | 0 <= i <= k + 1
      ensures IndexesAt(b, bundle, grown, i)
    {
      if i <= k {
        assert IndexesAt(b, bundle, checkpoints, i);
        assert grown[i] == checkpoints[i];
      }
    }
  }

  lemma RefusalStopsFold(b: Boundary, bundle: Bundle, checkpoints: seq<ReplayCheckpoint>, k: nat, f: Folded)
    requires k < |bundle.events| && IndexesUpTo(b, bundle, checkpoints, k)
    requires f == Fold(b, checkpoints[k].checkpoint, bundle.events[k]) && f.Refused?
    ensures FoldAll(b, Anchoring(bundle).checkpoint, bundle.events) == None
  {
    var c := Anchoring(bundle).checkpoint;
    assert IndexesAt(b, bundle, checkpoints, k);
    FoldAllStep(b, c, bundle.events, k, checkpoints[k].checkpoint, f);
    if FoldAll(b, c, bundle.events).Some? {
      FoldAllPrefix(b, c, bundle.events, k + 1);
    }
  }

  lemma IndexStarts(b: Boundary, bundle: Bundle)
    requires Anchoring(bundle).Anchor?
    ensures var c := Anchoring(bundle).checkpoint;
      IndexesUpTo(b, bundle, [ReplayCheckpoint(c, b.stateDigest(c.state), [])], 0)
  {
    assert bundle.events[..0] == [];
  }

  lemma IndexEnds(b: Boundary, bundle: Bundle, checkpoints: seq<ReplayCheckpoint>)
    requires IndexesUpTo(b, bundle, checkpoints, |bundle.events|)
    ensures FoldAll(b, Anchoring(bundle).checkpoint, bundle.events).Some?
  {
    assert bundle.events[..|bundle.events|] == bundle.events;
    assert IndexesAt(b, bundle, checkpoints, |bundle.events|);
  }

  /** The bundle without its own checksum, which is what the checksum covers. */
  function ChecksumMaterial(bundle: Bundle): Bundle {
    bundle.(checksum := [])
  }

  /** `sha` is the hexadecimal SHA-256 of a document's canonical bytes. The bundle is replayable exactly when its
      checksum is right and the simple fold takes all of its events. */
  method PrepareReplay(b: Boundary, sha: Bundle -> Text, bundle: Bundle, scenario: Option<Identifier>)
    returns (r: Preparation)
    ensures r == ScenarioMismatch <==> scenario != Some(bundle.scenarioId)
    ensures r.Ready? <==>
      && scenario == Some(bundle.scenarioId) && sha(ChecksumMaterial(bundle)) == bundle.checksum
      && Anchoring(bundle).Anchor?
      && FoldAll(b, Anchoring(bundle).checkpoint, bundle.events).Some?
    ensures r.Ready? ==>
      && r.replay.bundle == bundle && r.replay.cursor == 0 && r.replay.verification == Pending
      && IndexesUpTo(b, bundle, r.replay.checkpoints, |bundle.events|)
  {
    if scenario != Some(bundle.scenarioId) {
      return ScenarioMismatch;
    }
    if sha(ChecksumMaterial(bundle)) != bundle.checksum {
      return Invalid;
    }
    var anchored := Anchoring(bundle);
    if anchored.AnchorRefused? {
      return Invalid;
    }
    var checkpoints := [ReplayCheckpoint(anchored.checkpoint, b.stateDigest(anchored.checkpoint.state), [])];
    IndexStarts(b, bundle);
    for k := 0 to |bundle.events|
      invariant IndexesUpTo(b, bundle, checkpoints, k)
    {
      var previous := checkpoints[|checkpoints| - 1];
      var folded := Fold(b, previous.checkpoint, bundle.events[k]);
      if folded.Refused? {
        RefusalStopsFold(b, bundle, checkpoints, k, folded);
        return Invalid;
      }
      IndexGrows(b, bundle, checkpoints, k, folded);
      checkpoints := checkpoints + [NextEntry(b, previous, bundle.events[k], folded.checkpoint)];
    }
    IndexEnds(b, bundle, checkpoints);
    return Ready(ReplayState(bundle, checkpoints, 0, false, Pending));
  }

  // ---------------------------------------------------------------- the cursor

  function Clamped(cursor: int, length: int): int {
    var upper := if cursor < length - 1 then cursor else length - 1;
    if 0 > upper then 0 else upper
  }

  function ApplyReplayCursor(replay: ReplayState, cursor: int): ReplayState
    requires replay.checkpoints != []
  {
    var bounded := Clamped(cursor, |replay.checkpoints|);
    var atEnd := bounded == |replay.checkpoints| - 1;
    var verification :=
      if !atEnd then Pending
      else if replay.checkpoints[bounded].digest == replay.bundle.expectedFinalDigest then Verified
      else NotVerified;
    replay.(cursor := bounded, playing := if atEnd then false else replay.playing, verification := verification)
  }

  function Moves(replay: ReplayState, cursors: seq<int>): ReplayState
    requires replay.checkpoints != []
    decreases |cursors|
  {
    if cursors == [] then replay
    else
      var next := ApplyReplayCursor(replay, cursors[0]);
      Moves(next, cursors[1..])
  }

  /** A cursor that is in range and claims verification only where it is due. */
  ghost predicate CursorInvariant(replay: ReplayState) {
    && 0 <= replay.cursor < |replay.checkpoints|
    && (replay.verification == Verified ==>
          && replay.cursor == |replay.checkpoints| - 1
          && replay.checkpoints[replay.cursor].digest == replay.bundle.expectedFinalDigest)
    && (replay.verification == NotVerified ==>
          && replay.cursor == |replay.checkpoints| - 1
          && replay.checkpoints[replay.cursor].digest != replay.bundle.expectedFinalDigest)
  }

  /** Verification says exactly whether the cursor stands at the end, and there whether the digests agree. */
  ghost predicate VerifiedExactly(replay: ReplayState)
    requires 0 <= replay.cursor < |replay.checkpoints|
  {
    var atEnd := replay.cursor == |replay.checkpoints| - 1;
    var agrees := replay.checkpoints[replay.cursor].digest == replay.bundle.expectedFinalDigest;
    && (replay.verification == Verified <==> atEnd && agrees)
    && (replay.verification == NotVerified <==> atEnd && !agrees)
    && (atEnd ==> !replay.playing)
  }

  lemma {:induction false} MovesKeep(replay: ReplayState, cursors: seq<int>)
    requires CursorInvariant(replay)
    ensures var after := Moves(replay, cursors);
      && CursorInvariant(after)
      && after.checkpoints == replay.checkpoints && after.bundle == replay.bundle
      && (cursors != [] ==>
            after.cursor == Clamped(cursors[|cursors| - 1], |replay.checkpoints|) && VerifiedExactly(after))
    decreases |cursors|
  {
    if cursors != [] {
      MovesKeep(ApplyReplayCursor(replay, cursors[0]), cursors[1..]);
      assert |cursors| > 1 ==> cursors[1..][|cursors[1..]| - 1] == cursors[|cursors| - 1];
    }
  }

  /** Over every run of cursor moves on a prepared replay, the state, digest and timeline shown are those of
      simply folding the events before the clamped cursor. `Verified` appears only at the end and only when the
      digest of folding the whole bundle is the one the bundle promises, and after a move to the end it does
      appear exactly then. */
  lemma ReplayShowsSimpleFold(b: Boundary, replay: ReplayState, cursors: seq<int>)
    requires IndexesUpTo(b, replay.bundle, replay.checkpoints, |replay.bundle.events|)
    requires replay.cursor == 0 && replay.verification == Pending
    ensures FoldAll(b, Anchoring(replay.bundle).checkpoint, replay.bundle.events).Some?
    ensures var after, events := Moves(replay, cursors), replay.bundle.events;
      var final := FoldAll(b, Anchoring(replay.bundle).checkpoint, events).value;
      && after.checkpoints == replay.checkpoints
      && 0 <= after.cursor <= |events|
      && (cursors != [] ==> after.cursor == Clamped(cursors[|cursors| - 1], |events| + 1))
      && IndexesAt(b, replay.bundle, after.checkpoints, after.cursor)
      && (after.verification == Verified ==>
            after.cursor == |events| && b.stateDigest(final.state) == replay.bundle.expectedFinalDigest)
      && (cursors != [] && after.cursor == |events| ==>
            after.verification == if b.stateDigest(final.state) == replay.bundle.expectedFinalDigest
                then Verified else NotVerified)
  {
    MovesKeep(replay, cursors);
    var after := Moves(replay, cursors);
    assert IndexesAt(b, replay.bundle, replay.checkpoints, after.cursor);
    assert IndexesAt(b, replay.bundle, replay.checkpoints, |replay.bundle.events|);
    assert replay.bundle.events[..|replay.bundle.events|] == replay.bundle.events;
  }
}
