/** The production runtime's own reducer (apps/dashboard/src/runtime/dashboard-reducer.ts) against the domain
    reducer: whatever the verified domain fold accepts, the runtime reaches too. */
module FrameReducer {
  import opened Options
  import opened Unicode
  import opened Ordering
  import opened Reducer

  const TIMELINE_CAPACITY := 256

  /** The parts of a dashboard snapshot that a frame can change. */
  datatype Snapshot = Snapshot(
    state: State, latestEventDigest: Option<Text>, digest: Text, cursor: Text, timeline: seq<OrderedEvent>)

  datatype EventFrame = EventFrame(cursor: Text, digest: Text, event: OrderedEvent)

  datatype FrameRefusal =
    DigestMismatch | DivergentDuplicate | EventBindingRefused | OrdinalGapOrRegression | TimelineFull

  datatype FrameResult = FrameApplied(snapshot: Snapshot) | FrameRefused(reason: FrameRefusal)

  predicate EventBelongsToMission(state: State, e: Event) {
    state.currentMission.Some? && state.currentMission.value.identifier == e.mission
  }

  /** The position of the first simulated member with this identifier, or the fleet's length. */
  function SimulatedIndex(fleet: seq<FleetMember>, id: Identifier): (k: nat)
    ensures k <= |fleet|
    ensures k < |fleet| ==> fleet[k].identifier == id && fleet[k].Simulated?
    ensures forall i :: 0 <= i < k ==> !(fleet[i].identifier == id && fleet[i].Simulated?)
  {
    if fleet == [] then 0
    else if fleet[0].identifier == id && fleet[0].Simulated? then 0
    else 1 + SimulatedIndex(fleet[1..], id)
  }

  function SectorIndex(sectors: seq<Sector>, id: Identifier): (k: nat)
    ensures k <= |sectors|
    ensures k < |sectors| ==> sectors[k].identifier == id
    ensures forall i :: 0 <= i < k ==> sectors[i].identifier != id
  {
    if sectors == [] then 0 else if sectors[0].identifier == id then 0 else 1 + SectorIndex(sectors[1..], id)
  }

  function UpdateMission(state: State, e: Event): Option<State>
    requires e.body.MissionLifecycle?
  {
    if !EventBelongsToMission(state, e) then None
    else Some(state.(currentMission := Some(state.currentMission.value.(lifecycle := e.body.lifecycle))))
  }

  /** The selected member is replaced by identity, so only its own position changes. */
  function UpdateTelemetry(state: State, e: Event): Option<State>
    requires e.body.DroneTelemetry?
  {
    var k := SimulatedIndex(state.fleet, e.body.droneId);
    if !EventBelongsToMission(state, e) || k == |state.fleet| then None
    else Some(state.(fleet := state.fleet[k := state.fleet[k].(telemetry := Some(e.body.telemetry))]))
  }

  function UpdateConnectivity(state: State, e: Event): Option<State>
    requires e.body.ConnectivityChanged?
  {
    var k := SimulatedIndex(state.fleet, e.body.droneId);
    if !EventBelongsToMission(state, e) || k == |state.fleet| then None
    else Some(state.(fleet := state.fleet[k := state.fleet[k].(connectivity := e.body.connectivity)]))
  }

  function UpdateSector(state: State, e: Event): Option<State>
    requires e.body.SectorLifecycle?
  {
    var k := SectorIndex(state.sectors, e.body.sectorId);
    if !EventBelongsToMission(state, e) || k == |state.sectors| then None
    else
      Some(state.(sectors := state.sectors[k :=
        state.sectors[k].(state := e.body.state, assignedMemberId := e.body.assignedMemberId)]))
  }

  function FoldEvent(state: State, e: Event): Option<State> {
    match e.body
    case MissionLifecycle(_) => UpdateMission(state, e)
    case DroneTelemetry(_, _) => UpdateTelemetry(state, e)
    case ConnectivityChanged(_, _) => UpdateConnectivity(state, e)
    case SectorLifecycle(_, _, _) => UpdateSector(state, e)
    case _ => if EventBelongsToMission(state, e) then Some(state) else None
  }

  predicate DigestsAgree(expected: Text, actual: Text) {
    CanonicalDigest.IsDigestText(expected) && CanonicalDigest.IsDigestText(actual) && expected == actual
  }

  function ExtendedTimeline(timeline: seq<OrderedEvent>, oe: OrderedEvent): seq<OrderedEvent> {
    if oe.event.body.DroneTelemetry? then timeline else timeline + [oe]
  }

  function ApplyFrame(b: Boundary, snapshot: Snapshot, frame: EventFrame): FrameResult {
    var ordinal := frame.event.auditOrdinal;
    if ordinal == snapshot.state.latestAuditOrdinal then
      if snapshot.latestEventDigest.Some? && DigestsAgree(snapshot.latestEventDigest.value, b.eventDigest(frame.event))
      then FrameApplied(snapshot) else FrameRefused(DivergentDuplicate)
    else if ordinal != snapshot.state.latestAuditOrdinal + 1 then FrameRefused(OrdinalGapOrRegression)
    else
      match FoldEvent(snapshot.state, frame.event.event)
      case None => FrameRefused(EventBindingRefused)
      case Some(folded) =>
        var state := folded.(latestAuditOrdinal := ordinal);
        if !DigestsAgree(frame.digest, b.stateDigest(state)) then FrameRefused(DigestMismatch)
        else if |ExtendedTimeline(snapshot.timeline, frame.event)| > TIMELINE_CAPACITY then FrameRefused(TimelineFull)
        else
          FrameApplied(Snapshot(state, Some(b.eventDigest(frame.event)), frame.digest, frame.cursor,
                                ExtendedTimeline(snapshot.timeline, frame.event)))
  }

  // ---------------------------------------------------------------- the two updates agree

  lemma UniqueMember(fleet: seq<FleetMember>, i: nat, j: nat)
    requires Increasing(MemberKey, fleet) && i < |fleet| && j < |fleet|
    requires fleet[i].identifier == fleet[j].identifier
    ensures i == j
  {
    LessIrreflexive(fleet[i].identifier);
    assert i < j ==> Less(MemberKey(fleet[i]), MemberKey(fleet[j]));
    assert j < i ==> Less(MemberKey(fleet[j]), MemberKey(fleet[i]));
  }

  lemma UniqueSector(sectors: seq<Sector>, i: nat, j: nat)
    requires Increasing(SectorKey, sectors) && i < |sectors| && j < |sectors|
    requires sectors[i].identifier == sectors[j].identifier
    ensures i == j
  {
    LessIrreflexive(sectors[i].identifier);
    assert i < j ==> Less(SectorKey(sectors[i]), SectorKey(sectors[j]));
    assert j < i ==> Less(SectorKey(sectors[j]), SectorKey(sectors[i]));
  }

  /** In a canonical fleet, finding by identifier and then checking participation is finding by both. */
  lemma FindIsIndex(state: State, id: Identifier)
    requires Increasing(MemberKey, state.fleet)
    ensures SimulatedMemberFailure(state, id) == None <==> SimulatedIndex(state.fleet, id) < |state.fleet|
  {
    var k := SimulatedIndex(state.fleet, id);
    var found := FindMember(state.fleet, id);
    if found.Some? {
      var i :| 0 <= i < |state.fleet| && state.fleet[i] == found.value;
      if k < |state.fleet| {
        UniqueMember(state.fleet, i, k);
      }
    }
  }

  lemma FleetUpdatesAgree(state: State, e: Event)
    requires Increasing(MemberKey, state.fleet) && EventBelongsToMission(state, e)
    requires e.body.DroneTelemetry? || e.body.ConnectivityChanged?
    ensures var applied := ApplyEvent(state, state.currentMission.value, e.body);
      FoldEvent(state, e) == if applied.Changed? then Some(applied.state) else None
  {
    var id := e.body.droneId;
    var k := SimulatedIndex(state.fleet, id);
    FindIsIndex(state, id);
    var applied := ApplyEvent(state, state.currentMission.value, e.body);
    if k < |state.fleet| {
      var t, u := applied.state, FoldEvent(state, e).value;
      forall i | 0 <= i < |state.fleet|
        ensures t.fleet[i] == u.fleet[i]
      {
        if state.fleet[i].identifier == id {
          UniqueMember(state.fleet, i, k);
        }
      }
      assert t.fleet == u.fleet;
    }
  }

  lemma SectorUpdatesAgree(state: State, e: Event)
    requires Increasing(SectorKey, state.sectors) && EventBelongsToMission(state, e) && e.body.SectorLifecycle?
    ensures var applied := ApplyEvent(state, state.currentMission.value, e.body);
      && (applied.Changed? ==> FoldEvent(state, e) == Some(applied.state))
      && (applied.Unchangeable? && FoldEvent(state, e).Some? ==> applied.code == InvalidAssignee)
      && (applied.Unchangeable? && applied.code == InvalidAssignee ==> FoldEvent(state, e).Some?)
  {
    var k := SectorIndex(state.sectors, e.body.sectorId);
    var applied := ApplyEvent(state, state.currentMission.value, e.body);
    assert FindSector(state.sectors, e.body.sectorId).Some? <==> k < |state.sectors| by {
      if FindSector(state.sectors, e.body.sectorId).Some? {
        var i :| 0 <= i < |state.sectors| && state.sectors[i] == FindSector(state.sectors, e.body.sectorId).value;
      }
    }
    if applied.Changed? {
      var t, u := applied.state, FoldEvent(state, e).value;
      forall i | 0 <= i < |state.sectors|
        ensures t.sectors[i] == u.sectors[i]
      {
        if state.sectors[i].identifier == e.body.sectorId {
          UniqueSector(state.sectors, i, k);
        }
      }
      assert t.sectors == u.sectors;
    }
  }

  /** On a canonical state the runtime's update differs from the domain's in one case only: it does not look
      at the assignee of a sector. */
  lemma UpdatesAgree(state: State, e: Event)
    requires AnchorStateIsCanonical(state) && EventBelongsToMission(state, e)
    ensures var applied := ApplyEvent(state, state.currentMission.value, e.body);
      && (applied.Changed? ==> FoldEvent(state, e) == Some(applied.state))
      && (applied.Unchangeable? ==> (FoldEvent(state, e).Some? <==> applied.code == InvalidAssignee))
  {
    if e.body.DroneTelemetry? || e.body.ConnectivityChanged? {
      FleetUpdatesAgree(state, e);
    } else if e.body.SectorLifecycle? {
      SectorUpdatesAgree(state, e);
    }
  }

  // ---------------------------------------------------------------- simulation

  ghost function CheckpointOf(snapshot: Snapshot): Checkpoint {
    Checkpoint(snapshot.state, snapshot.latestEventDigest)
  }

  lemma AppliedStates(b: Boundary, snapshot: Snapshot, frame: EventFrame)
    requires DigestsFormed(b)
    requires var f := Fold(b, CheckpointOf(snapshot), frame.event); f.Accepted? && f.disposition == Applied
    ensures FoldEvent(snapshot.state, frame.event.event).Some?
    ensures FoldEvent(snapshot.state, frame.event.event).value.(latestAuditOrdinal := frame.event.auditOrdinal)
            == Fold(b, CheckpointOf(snapshot), frame.event).checkpoint.state
  {
    FoldKeepsAnchor(b, CheckpointOf(snapshot), frame.event);
    UpdatesAgree(snapshot.state, frame.event.event);
  }

  /** Whenever the verified domain fold accepts a frame, the runtime reducer ends in the same state with the
      same event digest, or refuses for lack of timeline room and for nothing else. */
  lemma RuntimeSimulatesDomain(b: Boundary, snapshot: Snapshot, frame: EventFrame)
    requires DigestsFormed(b)
    requires FoldVerified(b, CheckpointOf(snapshot), frame.event, frame.digest).Accepted?
    ensures var folded := FoldVerified(b, CheckpointOf(snapshot), frame.event, frame.digest).checkpoint;
      match ApplyFrame(b, snapshot, frame)
      case FrameApplied(next) => CheckpointOf(next) == folded
      case FrameRefused(reason) =>
        reason == TimelineFull && |ExtendedTimeline(snapshot.timeline, frame.event)| > TIMELINE_CAPACITY
  {
    var c := CheckpointOf(snapshot);
    var f := Fold(b, c, frame.event);
    FoldKeepsAnchor(b, c, frame.event);
    if f.disposition == Applied {
      AppliedStates(b, snapshot, frame);
    }
  }

  /** A frame the runtime applies on a canonical snapshot is refused by the domain exactly when its event fails
      the domain's own boundary check, when it repeats the last event with a wrong state digest, or when it
      assigns a sector to somebody who is not a simulated member of the fleet. */
  lemma RuntimeDivergesExactly(b: Boundary, snapshot: Snapshot, frame: EventFrame)
    requires DigestsFormed(b) && IsAnchor(CheckpointOf(snapshot))
    requires ApplyFrame(b, snapshot, frame).FrameApplied?
    ensures FoldVerified(b, CheckpointOf(snapshot), frame.event, frame.digest).Refused? <==>
      || BoundaryFailure(b, frame.event).Some?
      || (frame.event.auditOrdinal == snapshot.state.latestAuditOrdinal
          && frame.digest != b.stateDigest(snapshot.state))
      || (frame.event.auditOrdinal != snapshot.state.latestAuditOrdinal
          && frame.event.event.body.SectorLifecycle?
          && AssignmentFailure(snapshot.state, frame.event.event.body.assignedMemberId).Some?)
  {
    var c := CheckpointOf(snapshot);
    var e := frame.event.event;
    if BoundaryFailure(b, frame.event) == None && frame.event.auditOrdinal != snapshot.state.latestAuditOrdinal {
      assert EventBelongsToMission(snapshot.state, e);
      UpdatesAgree(snapshot.state, e);
      var f := Fold(b, c, frame.event);
      if f.Accepted? {
        FoldKeepsAnchor(b, c, frame.event);
        AppliedStates(b, snapshot, frame);
      } else {
        assert f.code == InvalidAssignee;
      }
    }
  }

  /** The runtime applies the frame, the domain refuses it with this code, and the state the runtime then holds
      is not one it could be anchored to again. */
  ghost predicate Diverges(b: Boundary, snapshot: Snapshot, frame: EventFrame, code: Refusal) {
    && IsAnchor(CheckpointOf(snapshot))
    && ApplyFrame(b, snapshot, frame).FrameApplied?
    && !IsAnchor(CheckpointOf(ApplyFrame(b, snapshot, frame).snapshot))
    && FoldVerified(b, CheckpointOf(snapshot), frame.event, frame.digest).Refused?
    && FoldVerified(b, CheckpointOf(snapshot), frame.event, frame.digest).code == code
  }

  function OneSector(id: Identifier): Snapshot {
    Snapshot(State(Some(Mission(id, Searching, None)), [], [Sector(id, Unassigned, None)], 0), None, [], [], [])
  }

  /** The next frame, which puts that sector into a state with an assignee. */
  function SectorFrame(
    b: Boundary, id: Identifier, time: Text, state: SectorState, assignee: Option<Identifier>): EventFrame {
    var after := OneSector(id).state.(sectors := [Sector(id, state, assignee)], latestAuditOrdinal := 1);
    var e := Event(id, time, MissionClass, SectorLifecycle(id, state, assignee));
    EventFrame([], b.stateDigest(after), OrderedEvent(1, e))
  }

  lemma SectorFrameApplied(b: Boundary, id: Identifier, time: Text, state: SectorState, assignee: Option<Identifier>)
    requires DigestsFormed(b)
    ensures IsAnchor(CheckpointOf(OneSector(id)))
    ensures var r := ApplyFrame(b, OneSector(id), SectorFrame(b, id, time, state, assignee));
      r.FrameApplied? && r.snapshot.state.sectors == [Sector(id, state, assignee)] && r.snapshot.state.fleet == []
  {
    var before := OneSector(id).state;
    assert HeldAssignmentIsValid(before, before.sectors[0]);
    var e := SectorFrame(b, id, time, state, assignee).event.event;
    assert FoldEvent(before, e).value.sectors == [Sector(id, state, assignee)];
  }

  lemma NotHeld(c: Checkpoint, sector: Sector)
    requires c.state.sectors == [sector] && !HeldAssignmentIsValid(c.state, sector)
    ensures !IsAnchor(c)
  {
    assert c.state.sectors[0] == sector;
  }

  /** A well-formed event that assigns the sector to somebody unknown. */
  lemma DivergenceExample(b: Boundary, id: Identifier, time: Text)
    requires DigestsFormed(b) && IsIdentifier(id) && b.isInstant(time)
    ensures Diverges(b, OneSector(id), SectorFrame(b, id, time, Assigned, Some(id)), InvalidAssignee)
  {
    SectorFrameApplied(b, id, time, Assigned, Some(id));
    var before := OneSector(id).state;
    assert FindMember(before.fleet, id) == None;
    assert FindSector(before.sectors, id).Some?;
    NotHeld(CheckpointOf(ApplyFrame(b, OneSector(id), SectorFrame(b, id, time, Assigned, Some(id))).snapshot),
            Sector(id, Assigned, Some(id)));
  }

  /** An event that puts the sector into its assigned state without an assignee: the frame's schema does not
      relate the two, the domain's boundary check does. */
  lemma UnassignedDivergence(b: Boundary, id: Identifier, time: Text)
    requires DigestsFormed(b) && IsIdentifier(id) && b.isInstant(time)
    ensures Diverges(b, OneSector(id), SectorFrame(b, id, time, Assigned, None), AssignmentRequired)
  {
    SectorFrameApplied(b, id, time, Assigned, None);
    NotHeld(CheckpointOf(ApplyFrame(b, OneSector(id), SectorFrame(b, id, time, Assigned, None)).snapshot),
            Sector(id, Assigned, None));
  }
}
