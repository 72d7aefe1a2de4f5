/** The mission reducer of apps/dashboard/src/domain/reducer.ts: a fold over audit-ordered events with a
    digest witness of the last event applied. */
module Reducer {
  import opened Options
  import opened Unicode
  import opened Ordering
  import Canonical
  import CanonicalDigest

  // ---------------------------------------------------------------- documents

  /** Identifiers are held as their UTF-8 bytes, which is how they are ordered. */
  type Identifier = seq<Byte>

  datatype Telemetry = Telemetry(
    altitudeMetres: int, batteryPercent: int, groundSpeedCentimetresPerSecond: int,
    headingDegrees: int, latitudeMicrodegrees: int, longitudeMicrodegrees: int)

  datatype Connectivity = Connected | Degraded | Offline
  datatype Lifecycle = Planned | Searching | Exhausted | Aborted
  datatype SectorState = Unassigned | Assigned | AtRisk | Searched

  datatype FleetMember =
    | Simulated(identifier: Identifier, connectivity: Connectivity, telemetry: Option<Telemetry>)
    | DeclaredOnly(identifier: Identifier)

  datatype Sector = Sector(identifier: Identifier, state: SectorState, assignedMemberId: Option<Identifier>)

  datatype Mission = Mission(identifier: Identifier, lifecycle: Lifecycle, predecessor: Option<Identifier>)

  /** The reduced state; its two version members are the constant 1. */
  datatype State = State(
    currentMission: Option<Mission>, fleet: seq<FleetMember>, sectors: seq<Sector>, latestAuditOrdinal: int)

  datatype Proposal = Proposal(proposalId: Identifier, proposalDigest: Text)
  datatype EvidenceDecision = EvidenceDecision(
    proposalId: Identifier, proposalDigest: Text, evidenceDecisionId: Identifier, rest: Text)
  datatype Decision = Approve | Reject
  datatype Approval = Approval(
    proposalId: Identifier, proposalDigest: Text, proposalVersion: int,
    evidenceDecisionId: Identifier, evidenceDecisionVersion: int, decision: Decision,
    droneId: Identifier, latitudeMicrodegrees: int, longitudeMicrodegrees: int)

  /** What an event carries, by kind. `TimelineOnly` stands for the six remaining kinds, which the reducer
      only records; `Unknown` for a kind outside the closed set. */
  datatype Body =
    | DroneTelemetry(droneId: Identifier, telemetry: Telemetry)
    | ConnectivityChanged(droneId: Identifier, connectivity: Connectivity)
    | MissionLifecycle(lifecycle: Lifecycle)
    | SectorLifecycle(sectorId: Identifier, state: SectorState, assignedMemberId: Option<Identifier>)
    | AgentProposal(proposal: Proposal)
    | EvidenceDecided(evidence: EvidenceDecision)
    | OperatorApproval(approval: Approval)
    | TimelineOnly(kind: int, data: Text)
    | Unknown(name: Text)

  datatype EventClass = TelemetryClass | ConnectivityClass | MissionClass | OtherClass

  datatype Event = Event(mission: Identifier, time: Text, eventClass: EventClass, body: Body)

  datatype OrderedEvent = OrderedEvent(auditOrdinal: int, event: Event)

  datatype Checkpoint = Checkpoint(state: State, latestEventDigest: Option<Text>)

  /** What the reducer reaches outside of itself: document digests, the instant check and the generated
      schema of timeline events. */
  datatype Boundary = Boundary(
    eventDigest: OrderedEvent -> Text,
    stateDigest: State -> Text,
    isInstant: Text -> bool,
    closedSchema: Event -> bool)

  /** Digests are SHA-256 values in lower-case hexadecimal. */
  ghost predicate DigestsFormed(b: Boundary) {
    && (forall e :: CanonicalDigest.IsDigestText(b.eventDigest(e)))
    && (forall s :: CanonicalDigest.IsDigestText(b.stateDigest(s)))
  }

  datatype Refusal =
    | DuplicateMember | DuplicateSector | WitnessForm | OrdinalWitness | NoncanonicalAnchorState
    | OrdinalDivergence | OrdinalRegression | OrdinalGap | MissionUnprepared | MissionMismatch
    | UnknownMember | DeclaredOnlyMember | UnknownSector | AssignmentForbidden | AssignmentRequired
    | InvalidAssignee | EventData | Unprojected | ServerDigestForm | ServerDigestMismatch

  datatype Anchored = Anchor(checkpoint: Checkpoint) | AnchorRefused(code: Refusal)

  datatype Disposition = Applied | Duplicate

  datatype Folded =
    | Accepted(disposition: Disposition, checkpoint: Checkpoint)
    | Refused(code: Refusal, checkpoint: Checkpoint)

  function MemberKey(m: FleetMember): Key {
    m.identifier
  }

  function SectorKey(s: Sector): Key {
    s.identifier
  }

  // ---------------------------------------------------------------- identifiers

  /** Negative, zero or positive as the first identifier sorts before, equals or sorts after the second. */
  method IdentifierOrder(left: Identifier, right: Identifier) returns (order: int)
    ensures order < 0 <==> Less(left, right)
    ensures order == 0 <==> left == right
    ensures order > 0 <==> Less(right, left)
  {
    var shared := if |left| < |right| then |left| else |right|;
    var index := 0;
    assert left[0..] == left && right[0..] == right;
    while index < shared
      invariant 0 <= index <= shared
      invariant left[..index] == right[..index]
      invariant Less(left[index..], right[index..]) <==> Less(left, right)
      invariant Less(right[index..], left[index..]) <==> Less(right, left)
    {
      assert left == left[..index] + left[index..] && right == right[..index] + right[index..];
      if left[index] != right[index] {
        return left[index] as int - right[index] as int;
      }
      assert left[index..][1..] == left[index + 1..] && right[index..][1..] == right[index + 1..];
      assert left[..index + 1] == left[..index] + [left[index]];
      assert right[..index + 1] == right[..index] + [right[index]];
      index := index + 1;
    }
    assert left == left[..index] + left[index..] && right == right[..index] + right[index..];
    return |left| - |right|;
  }

  method IdentifiersAreSortedAndUnique(identifiers: seq<Identifier>) returns (r: bool)
    ensures r <==> Increasing((i: Identifier) => i, identifiers)
  {
    var index := 1;
    while index < |identifiers|
      invariant 1 <= index && (index <= |identifiers| || |identifiers| == 0)
      invariant forall i, j :: 0 <= i < j < index && j < |identifiers| ==> Less(identifiers[i], identifiers[j])
    {
      var order := IdentifierOrder(identifiers[index - 1], identifiers[index]);
      if order >= 0 {
        return false;
      }
      forall i | 0 <= i < index
        ensures Less(identifiers[i], identifiers[index])
      {
        if i < index - 1 {
          LessTransitive(identifiers[i], identifiers[index - 1], identifiers[index]);
        }
      }
      index := index + 1;
    }
    return true;
  }

  ghost predicate FirstRepeat(identifiers: seq<Identifier>, j: int) {
    && 0 <= j < |identifiers|
    && identifiers[j] in identifiers[..j]
    && forall i, k :: 0 <= i < k < j ==> identifiers[i] != identifiers[k]
  }

  /** The first identifier that repeats an earlier one. */
  method DuplicateIdentifier(identifiers: seq<Identifier>) returns (repeated: Option<Identifier>)
    ensures repeated == None <==> forall i, j :: 0 <= i < j < |identifiers| ==> identifiers[i] != identifiers[j]
    ensures repeated.Some? ==> exists j :: FirstRepeat(identifiers, j) && identifiers[j] == repeated.value
  {
    var seen: set<Identifier> := {};
    for k := 0 to |identifiers|
      invariant forall i, j :: 0 <= i < j < k ==> identifiers[i] != identifiers[j]
      invariant forall x :: x in seen <==> x in identifiers[..k]
    {
      if identifiers[k] in seen {
        assert FirstRepeat(identifiers, k);
        var i :| 0 <= i < k && identifiers[..k][i] == identifiers[k];
        return Some(identifiers[k]);
      }
      seen := seen + {identifiers[k]};
      assert identifiers[..k + 1] == identifiers[..k] + [identifiers[k]];
      assert forall i :: 0 <= i < k ==> identifiers[i] in identifiers[..k];
    }
    return None;
  }

  // ---------------------------------------------------------------- anchors

  /** A sector held by nobody is unassigned, any other is held by a simulated member of the fleet. */
  predicate HeldAssignmentIsValid(state: State, sector: Sector) {
    if sector.state == Unassigned then sector.assignedMemberId == None
    else
      && sector.assignedMemberId.Some?
      && exists i :: 0 <= i < |state.fleet| && state.fleet[i].identifier == sector.assignedMemberId.value
           && state.fleet[i].Simulated?
  }

  predicate AnchorStateIsCanonical(state: State) {
    && (state.currentMission == None ==> state.fleet == [] && state.sectors == [] && state.latestAuditOrdinal == 0)
    && Increasing(MemberKey, state.fleet)
    && Increasing(SectorKey, state.sectors)
    && forall i :: 0 <= i < |state.sectors| ==> HeldAssignmentIsValid(state, state.sectors[i])
  }

  function CheckpointFromAnchor(state: State, latestEventDigest: Option<Text>): Anchored {
    if latestEventDigest.Some? && !CanonicalDigest.IsDigestText(latestEventDigest.value) then AnchorRefused(WitnessForm)
    else if !AnchorStateIsCanonical(state) then AnchorRefused(NoncanonicalAnchorState)
    else if (state.latestAuditOrdinal == 0) != (latestEventDigest == None) then AnchorRefused(OrdinalWitness)
    else Anchor(Checkpoint(state, latestEventDigest))
  }

  predicate IsAnchor(c: Checkpoint) {
    CheckpointFromAnchor(c.state, c.latestEventDigest).Anchor?
  }

  function EmptyCheckpoint(): Checkpoint {
    Checkpoint(State(None, [], [], 0), None)
  }

  function CheckpointFromSnapshot(b: Boundary, state: State, latestEventDigest: Option<Text>, digest: Text)
    : Anchored
  {
    var anchored := CheckpointFromAnchor(state, latestEventDigest);
    if anchored.AnchorRefused? then anchored
    else if !CanonicalDigest.IsDigestText(digest)
        || !CanonicalDigest.IsDigestText(b.stateDigest(state)) then AnchorRefused(ServerDigestForm)
    else if digest != b.stateDigest(state) then AnchorRefused(ServerDigestMismatch)
    else anchored
  }

  // ---------------------------------------------------------------- the event boundary

  predicate IsIdentifierByte(u: int) {
    0x61 <= u <= 0x7A || 0x30 <= u <= 0x39
  }

  predicate IsIdentifier(id: Identifier) {
    && 1 <= |id| <= 64
    && IsIdentifierByte(id[0])
    && IsIdentifierByte(id[|id| - 1])
    && forall i :: 0 <= i < |id| ==> IsIdentifierByte(id[i]) || id[i] == 0x2D
  }

  predicate TelemetryInRange(t: Telemetry) {
    && -90_000_000 <= t.latitudeMicrodegrees <= 90_000_000
    && -180_000_000 <= t.longitudeMicrodegrees <= 180_000_000
    && 0 <= t.batteryPercent <= 100
    && -500 <= t.altitudeMetres <= 20_000
    && 0 <= t.headingDegrees <= 359
    && 0 <= t.groundSpeedCentimetresPerSecond <= 10_000
  }

  function EventDataFailure(b: Boundary, e: Event): Option<Refusal> {
    if e.body.Unknown? then Some(Unprojected)
    else if !IsIdentifier(e.mission) || !b.isInstant(e.time) then Some(EventData)
    else
      match e.body
      case DroneTelemetry(droneId, telemetry) =>
        if e.eventClass == TelemetryClass && IsIdentifier(droneId) && TelemetryInRange(telemetry) then None
        else Some(EventData)
      case ConnectivityChanged(droneId, _) =>
        if e.eventClass == ConnectivityClass && IsIdentifier(droneId) then None else Some(EventData)
      case MissionLifecycle(_) =>
        if e.eventClass == MissionClass then None else Some(EventData)
      case SectorLifecycle(sectorId, state, holder) =>
        if e.eventClass != MissionClass || !IsIdentifier(sectorId)
           || (holder.Some? && !IsIdentifier(holder.value)) then Some(EventData)
        else if state == Unassigned && holder.Some? then Some(AssignmentForbidden)
        else if state != Unassigned && holder == None then Some(AssignmentRequired)
        else None
      case _ => if b.closedSchema(e) then None else Some(EventData)
  }

  function BoundaryFailure(b: Boundary, oe: OrderedEvent): Option<Refusal> {
    if !(1 <= oe.auditOrdinal <= Canonical.MAX_SAFE_INTEGER) then Some(EventData) else EventDataFailure(b, oe.event)
  }

  // ---------------------------------------------------------------- applying one event

  datatype AppliedState = Changed(state: State) | Unchangeable(code: Refusal)

  function FindMember(fleet: seq<FleetMember>, id: Identifier): (r: Option<FleetMember>)
    ensures r == None <==> forall i :: 0 <= i < |fleet| ==> fleet[i].identifier != id
    ensures r.Some? ==> r.value in fleet && r.value.identifier == id
  {
    if fleet == [] then None else if fleet[0].identifier == id then Some(fleet[0]) else FindMember(fleet[1..], id)
  }

  function FindSector(sectors: seq<Sector>, id: Identifier): (r: Option<Sector>)
    ensures r == None <==> forall i :: 0 <= i < |sectors| ==> sectors[i].identifier != id
    ensures r.Some? ==> r.value in sectors && r.value.identifier == id
  {
    if sectors == [] then None
    else if sectors[0].identifier == id then Some(sectors[0])
    else FindSector(sectors[1..], id)
  }

  /** The refusal for an event about a member that is absent or not simulated. */
  function SimulatedMemberFailure(state: State, droneId: Identifier): Option<Refusal> {
    match FindMember(state.fleet, droneId)
    case None => Some(UnknownMember)
    case Some(m) => if m.DeclaredOnly? then Some(DeclaredOnlyMember) else None
  }

  function WithTelemetry(m: FleetMember, droneId: Identifier, telemetry: Telemetry): FleetMember {
    if m.identifier == droneId && m.Simulated? then m.(telemetry := Some(telemetry)) else m
  }

  function WithConnectivity(m: FleetMember, droneId: Identifier, connectivity: Connectivity): FleetMember {
    if m.identifier == droneId && m.Simulated? then m.(connectivity := connectivity) else m
  }

  function WithAssignment(s: Sector, sectorId: Identifier, state: SectorState, holder: Option<Identifier>): Sector {
    if s.identifier == sectorId then s.(state := state, assignedMemberId := holder) else s
  }

  function ApplyTelemetry(state: State, droneId: Identifier, telemetry: Telemetry): AppliedState {
    match SimulatedMemberFailure(state, droneId)
    case Some(code) => Unchangeable(code)
    case None =>
      Changed(state.(fleet := seq(|state.fleet|,
        i requires 0 <= i < |state.fleet| => WithTelemetry(state.fleet[i], droneId, telemetry))))
  }

  function ApplyConnectivity(state: State, droneId: Identifier, connectivity: Connectivity): AppliedState {
    match SimulatedMemberFailure(state, droneId)
    case Some(code) => Unchangeable(code)
    case None =>
      Changed(state.(fleet := seq(|state.fleet|,
        i requires 0 <= i < |state.fleet| => WithConnectivity(state.fleet[i], droneId, connectivity))))
  }

  function AssignmentFailure(state: State, holder: Option<Identifier>): Option<Refusal> {
    if holder == None then None
    else
      match FindMember(state.fleet, holder.value)
      case None => Some(InvalidAssignee)
      case Some(m) => if m.DeclaredOnly? then Some(InvalidAssignee) else None
  }

  function ApplySector(state: State, sectorId: Identifier, to: SectorState, holder: Option<Identifier>)
    : AppliedState
  {
    if FindSector(state.sectors, sectorId) == None then Unchangeable(UnknownSector)
    else
      match AssignmentFailure(state, holder)
      case Some(code) => Unchangeable(code)
      case None =>
        Changed(state.(sectors := seq(|state.sectors|,
          i requires 0 <= i < |state.sectors| => WithAssignment(state.sectors[i], sectorId, to, holder))))
  }

  function ApplyEvent(state: State, mission: Mission, body: Body): AppliedState {
    match body
    case DroneTelemetry(droneId, telemetry) => ApplyTelemetry(state, droneId, telemetry)
    case ConnectivityChanged(droneId, connectivity) => ApplyConnectivity(state, droneId, connectivity)
    case MissionLifecycle(lifecycle) => Changed(state.(currentMission := Some(mission.(lifecycle := lifecycle))))
    case SectorLifecycle(sectorId, to, holder) => ApplySector(state, sectorId, to, holder)
    case _ => Changed(state)
  }

  function FinalizedState(state: State, ordinal: int): State {
    state.(fleet := Sort(MemberKey, state.fleet), sectors := Sort(SectorKey, state.sectors),
           latestAuditOrdinal := ordinal)
  }

  // ---------------------------------------------------------------- the fold

  function Fold(b: Boundary, c: Checkpoint, oe: OrderedEvent): Folded {
    var boundaryFailure := BoundaryFailure(b, oe);
    if boundaryFailure.Some? then Refused(boundaryFailure.value, c)
    else
      var anchor := CheckpointFromAnchor(c.state, c.latestEventDigest);
      if anchor.AnchorRefused? then Refused(anchor.code, c)
      else if oe.auditOrdinal == c.state.latestAuditOrdinal then
        if c.latestEventDigest.Some? && CanonicalDigest.IsDigestText(c.latestEventDigest.value)
           && CanonicalDigest.IsDigestText(b.eventDigest(oe)) && c.latestEventDigest.value == b.eventDigest(oe)
        then Accepted(Duplicate, c)
        else Refused(OrdinalDivergence, c)
      else if oe.auditOrdinal < c.state.latestAuditOrdinal then Refused(OrdinalRegression, c)
      else if oe.auditOrdinal > c.state.latestAuditOrdinal + 1 then Refused(OrdinalGap, c)
      else if c.state.currentMission == None then Refused(MissionUnprepared, c)
      else if oe.event.mission != c.state.currentMission.value.identifier then Refused(MissionMismatch, c)
      else
        match ApplyEvent(c.state, c.state.currentMission.value, oe.event.body)
        case Unchangeable(code) => Refused(code, c)
        case Changed(state) =>
          Accepted(Applied, Checkpoint(FinalizedState(state, oe.auditOrdinal), Some(b.eventDigest(oe))))
  }

  /** The fold, kept only when the server's digest of the resulting state agrees. */
  function FoldVerified(b: Boundary, c: Checkpoint, oe: OrderedEvent, serverDigest: Text): Folded {
    var folded := Fold(b, c, oe);
    if folded.Refused? then folded
    else
      var computed := b.stateDigest(folded.checkpoint.state);
      if !CanonicalDigest.IsDigestText(serverDigest)
          || !CanonicalDigest.IsDigestText(computed) then Refused(ServerDigestForm, c)
      else if serverDigest != computed then Refused(ServerDigestMismatch, c)
      else folded
  }

  // ---------------------------------------------------------------- what every fold keeps

  /** Fleet and sector identifiers, participation, and the identity of the mission. */
  ghost predicate SameShape(s: State, t: State) {
    && |s.fleet| == |t.fleet|
    && (forall i :: 0 <= i < |s.fleet| ==>
          s.fleet[i].identifier == t.fleet[i].identifier && s.fleet[i].Simulated? == t.fleet[i].Simulated?)
    && |s.sectors| == |t.sectors|
    && (forall i :: 0 <= i < |s.sectors| ==> s.sectors[i].identifier == t.sectors[i].identifier)
    && (s.currentMission == None <==> t.currentMission == None)
    && (s.currentMission.Some? ==>
          && s.currentMission.value.identifier == t.currentMission.value.identifier
          && s.currentMission.value.predecessor == t.currentMission.value.predecessor)
  }

  lemma ApplyKeepsShape(state: State, mission: Mission, body: Body)
    requires state.currentMission == Some(mission)
    requires ApplyEvent(state, mission, body).Changed?
    ensures SameShape(state, ApplyEvent(state, mission, body).state)
    ensures ApplyEvent(state, mission, body).state.latestAuditOrdinal == state.latestAuditOrdinal
  {
  }

  lemma ShapeKeepsOrder(s: State, t: State)
    requires SameShape(s, t)
    requires Increasing(MemberKey, s.fleet) && Increasing(SectorKey, s.sectors)
    ensures Increasing(MemberKey, t.fleet) && Increasing(SectorKey, t.sectors)
  {
    forall i, j | 0 <= i < j < |t.fleet|
      ensures Less(MemberKey(t.fleet[i]), MemberKey(t.fleet[j]))
    {
      assert Less(MemberKey(s.fleet[i]), MemberKey(s.fleet[j]));
    }
    forall i, j | 0 <= i < j < |t.sectors|
      ensures Less(SectorKey(t.sectors[i]), SectorKey(t.sectors[j]))
    {
      assert Less(SectorKey(s.sectors[i]), SectorKey(s.sectors[j]));
    }
  }

  lemma ShapeKeepsHolders(s: State, t: State, sector: Sector)
    requires SameShape(s, t) && HeldAssignmentIsValid(s, sector)
    ensures HeldAssignmentIsValid(t, sector)
  {
    if sector.state != Unassigned {
      var i :| 0 <= i < |s.fleet| && s.fleet[i].identifier == sector.assignedMemberId.value && s.fleet[i].Simulated?;
      assert t.fleet[i].identifier == sector.assignedMemberId.value && t.fleet[i].Simulated?;
    }
  }

  /** An accepted sector event leaves every sector with a valid holder. */
  lemma ApplySectorKeepsHolders(b: Boundary, state: State, e: Event)
    requires e.body.SectorLifecycle? && EventDataFailure(b, e) == None
    requires forall i :: 0 <= i < |state.sectors| ==> HeldAssignmentIsValid(state, state.sectors[i])
    requires ApplySector(state, e.body.sectorId, e.body.state, e.body.assignedMemberId).Changed?
    ensures var t := ApplySector(state, e.body.sectorId, e.body.state, e.body.assignedMemberId).state;
      forall i :: 0 <= i < |t.sectors| ==> HeldAssignmentIsValid(state, t.sectors[i])
  {
    var t := ApplySector(state, e.body.sectorId, e.body.state, e.body.assignedMemberId).state;
    forall i | 0 <= i < |t.sectors|
      ensures HeldAssignmentIsValid(state, t.sectors[i])
    {
      assert HeldAssignmentIsValid(state, state.sectors[i]);
      if state.sectors[i].identifier == e.body.sectorId && e.body.assignedMemberId.Some? {
        var m := FindMember(state.fleet, e.body.assignedMemberId.value).value;
        var k :| 0 <= k < |state.fleet| && state.fleet[k] == m;
        assert state.fleet[k].identifier == t.sectors[i].assignedMemberId.value && state.fleet[k].Simulated?;
      }
    }
  }

  lemma ApplyKeepsCanonical(b: Boundary, state: State, mission: Mission, e: Event)
    requires state.currentMission == Some(mission) && AnchorStateIsCanonical(state)
    requires EventDataFailure(b, e) == None && ApplyEvent(state, mission, e.body).Changed?
    ensures AnchorStateIsCanonical(ApplyEvent(state, mission, e.body).state)
  {
    var t := ApplyEvent(state, mission, e.body).state;
    ApplyKeepsShape(state, mission, e.body);
    ShapeKeepsOrder(state, t);
    if e.body.SectorLifecycle? {
      ApplySectorKeepsHolders(b, state, e);
    }
    forall i | 0 <= i < |t.sectors|
      ensures HeldAssignmentIsValid(t, t.sectors[i])
    {
      ShapeKeepsHolders(state, t, t.sectors[i]);
    }
  }

  /** Re-sorting a canonical state is the identity. */
  lemma FinalizeIsIdentity(state: State, ordinal: int)
    requires AnchorStateIsCanonical(state)
    ensures FinalizedState(state, ordinal) == state.(latestAuditOrdinal := ordinal)
  {
    IncreasingIsNonDecreasing(MemberKey, state.fleet);
    IncreasingIsNonDecreasing(SectorKey, state.sectors);
    SortIdentity(MemberKey, state.fleet);
    SortIdentity(SectorKey, state.sectors);
  }

  /** An accepted fold from any checkpoint ends in an anchor of the same shape; when it applies, the
      ordinal advances by one, the witness is the event's digest and the re-sort changed nothing. A refused
      fold, and a duplicate, keep the checkpoint. */
  lemma FoldKeepsAnchor(b: Boundary, c: Checkpoint, oe: OrderedEvent)
    requires DigestsFormed(b)
    ensures var f := Fold(b, c, oe);
      && (f.Refused? || f.disposition == Duplicate ==> f.checkpoint == c)
      && (f.Accepted? ==> IsAnchor(c) && IsAnchor(f.checkpoint) && SameShape(c.state, f.checkpoint.state))
      && (f.Accepted? && f.disposition == Applied ==>
            && oe.auditOrdinal == c.state.latestAuditOrdinal + 1 == f.checkpoint.state.latestAuditOrdinal
            && c.state.currentMission.Some?
            && ApplyEvent(c.state, c.state.currentMission.value, oe.event.body).Changed?
            && f.checkpoint.state
               == ApplyEvent(c.state, c.state.currentMission.value, oe.event.body).state
                  .(latestAuditOrdinal := oe.auditOrdinal)
            && f.checkpoint.latestEventDigest == Some(b.eventDigest(oe)))
  {
    var f := Fold(b, c, oe);
    if f.Accepted? && f.disposition == Applied {
      var mission := c.state.currentMission.value;
      var t := ApplyEvent(c.state, mission, oe.event.body).state;
      ApplyKeepsCanonical(b, c.state, mission, oe.event);
      ApplyKeepsShape(c.state, mission, oe.event.body);
      FinalizeIsIdentity(t, oe.auditOrdinal);
      var u := f.checkpoint.state;
      forall i | 0 <= i < |u.sectors|
        ensures HeldAssignmentIsValid(u, u.sectors[i])
      {
        assert HeldAssignmentIsValid(t, t.sectors[i]);
        ShapeKeepsHolders(t, u, t.sectors[i]);
      }
    }
  }

  lemma SameShapeTransitive(s: State, t: State, u: State)
    requires SameShape(s, t) && SameShape(t, u)
    ensures SameShape(s, u)
  {
  }

  // ---------------------------------------------------------------- preparing a mission

  datatype Prepared = Prepared(
    identifier: Identifier, predecessor: Option<Identifier>,
    simulatedMemberIds: seq<Identifier>, declaredOnlyMemberIds: seq<Identifier>, sectorIds: seq<Identifier>)

  function PreparedFleet(p: Prepared): seq<FleetMember> {
    seq(|p.simulatedMemberIds|, i requires 0 <= i < |p.simulatedMemberIds| =>
      Simulated(p.simulatedMemberIds[i], Connected, None))
    + seq(|p.declaredOnlyMemberIds|, i requires 0 <= i < |p.declaredOnlyMemberIds| =>
      DeclaredOnly(p.declaredOnlyMemberIds[i]))
  }

  function PreparedSectors(p: Prepared): seq<Sector> {
    seq(|p.sectorIds|, i requires 0 <= i < |p.sectorIds| => Sector(p.sectorIds[i], Unassigned, None))
  }

  predicate NoneRepeats(ids: seq<Identifier>) {
    forall i, j :: 0 <= i < j < |ids| ==> ids[i] != ids[j]
  }

  method InitializePrepared(p: Prepared) returns (r: Anchored)
    ensures r.Anchor? <==> NoneRepeats(p.simulatedMemberIds + p.declaredOnlyMemberIds) && NoneRepeats(p.sectorIds)
    ensures !NoneRepeats(p.simulatedMemberIds + p.declaredOnlyMemberIds) ==> r == AnchorRefused(DuplicateMember)
    ensures r.Anchor? ==>
      && IsAnchor(r.checkpoint)
      && multiset(r.checkpoint.state.fleet) == multiset(PreparedFleet(p))
      && multiset(r.checkpoint.state.sectors) == multiset(PreparedSectors(p))
      && r.checkpoint.state.currentMission == Some(Mission(p.identifier, Planned, p.predecessor))
      && r.checkpoint.state.latestAuditOrdinal == 0
  {
    var repeatedMember := DuplicateIdentifier(p.simulatedMemberIds + p.declaredOnlyMemberIds);
    if repeatedMember != None {
      return AnchorRefused(DuplicateMember);
    }
    var repeatedSector := DuplicateIdentifier(p.sectorIds);
    if repeatedSector != None {
      return AnchorRefused(DuplicateSector);
    }
    var fleet, sectors := PreparedFleet(p), PreparedSectors(p);
    var state := State(Some(Mission(p.identifier, Planned, p.predecessor)),
                       Sort(MemberKey, fleet), Sort(SectorKey, sectors), 0);
    PreparedIsCanonical(p, state);
    r := CheckpointFromAnchor(state, None);
  }

  lemma PreparedKeys(p: Prepared)
    requires NoneRepeats(p.simulatedMemberIds + p.declaredOnlyMemberIds) && NoneRepeats(p.sectorIds)
    ensures DistinctKeys(MemberKey, PreparedFleet(p)) && DistinctKeys(SectorKey, PreparedSectors(p))
  {
    var ids := p.simulatedMemberIds + p.declaredOnlyMemberIds;
    var fleet, sectors := PreparedFleet(p), PreparedSectors(p);
    assert forall i :: 0 <= i < |fleet| ==> MemberKey(fleet[i]) == ids[i];
    assert forall i :: 0 <= i < |sectors| ==> SectorKey(sectors[i]) == p.sectorIds[i];
  }

  lemma PreparedIsCanonical(p: Prepared, state: State)
    requires NoneRepeats(p.simulatedMemberIds + p.declaredOnlyMemberIds) && NoneRepeats(p.sectorIds)
    requires state.currentMission.Some?
    requires state.fleet == Sort(MemberKey, PreparedFleet(p)) && state.sectors == Sort(SectorKey, PreparedSectors(p))
    ensures AnchorStateIsCanonical(state)
  {
    PreparedKeys(p);
    DistinctSorted(MemberKey, PreparedFleet(p));
    DistinctSorted(SectorKey, PreparedSectors(p));
    forall i | 0 <= i < |state.sectors|
      ensures state.sectors[i].state == Unassigned && state.sectors[i].assignedMemberId == None
    {
      SortMember(SectorKey, PreparedSectors(p), state.sectors[i]);
    }
  }
}
