/** The reduced state read off a log without folding it: every field is the last event that names it. */
module LastWriter {
  import opened Options
  import opened Reducer
  import opened Delivery

  function LastTelemetry(log: seq<OrderedEvent>, id: Identifier): Option<Telemetry> {
    if log == [] then None
    else
      var e := log[|log| - 1].event.body;
      if e.DroneTelemetry? && e.droneId == id then Some(e.telemetry) else LastTelemetry(log[..|log| - 1], id)
  }

  function LastConnectivity(log: seq<OrderedEvent>, id: Identifier): Option<Connectivity> {
    if log == [] then None
    else
      var e := log[|log| - 1].event.body;
      if e.ConnectivityChanged? && e.droneId == id then Some(e.connectivity)
      else LastConnectivity(log[..|log| - 1], id)
  }

  function LastSector(log: seq<OrderedEvent>, id: Identifier): Option<(SectorState, Option<Identifier>)> {
    if log == [] then None
    else
      var e := log[|log| - 1].event.body;
      if e.SectorLifecycle? && e.sectorId == id then Some((e.state, e.assignedMemberId))
      else LastSector(log[..|log| - 1], id)
  }

  function LastLifecycle(log: seq<OrderedEvent>): Option<Lifecycle> {
    if log == [] then None
    else
      var e := log[|log| - 1].event.body;
      if e.MissionLifecycle? then Some(e.lifecycle) else LastLifecycle(log[..|log| - 1])
  }

  function ProjectMember(m: FleetMember, log: seq<OrderedEvent>): FleetMember {
    match m
    case DeclaredOnly(_) => m
    case Simulated(id, connectivity, telemetry) =>
      var c := LastConnectivity(log, id);
      var t := LastTelemetry(log, id);
      Simulated(id, if c.Some? then c.value else connectivity, if t.Some? then t else telemetry)
  }

  function ProjectSector(s: Sector, log: seq<OrderedEvent>): Sector {
    match LastSector(log, s.identifier)
    case None => s
    case Some((state, holder)) => Sector(s.identifier, state, holder)
  }

  function ProjectMission(mission: Option<Mission>, log: seq<OrderedEvent>): Option<Mission> {
    if mission == None || LastLifecycle(log) == None then mission
    else Some(mission.value.(lifecycle := LastLifecycle(log).value))
  }

  /** The anchor with every field overwritten by the last event naming it. */
  function Projected(s: State, log: seq<OrderedEvent>): State {
    State(
      ProjectMission(s.currentMission, log),
      seq(|s.fleet|, i requires 0 <= i < |s.fleet| => ProjectMember(s.fleet[i], log)),
      seq(|s.sectors|, i requires 0 <= i < |s.sectors| => ProjectSector(s.sectors[i], log)),
      s.latestAuditOrdinal + |log|)
  }

  /** Applying one more event to a projection projects one more event. */
  lemma ProjectOneMore(s: State, log: seq<OrderedEvent>, oe: OrderedEvent)
    requires Projected(s, log).currentMission.Some?
    requires ApplyEvent(Projected(s, log), Projected(s, log).currentMission.value, oe.event.body).Changed?
    ensures ApplyEvent(Projected(s, log), Projected(s, log).currentMission.value, oe.event.body).state
            .(latestAuditOrdinal := s.latestAuditOrdinal + |log| + 1)
            == Projected(s, log + [oe])
  {
    var more := log + [oe];
    assert more[..|more| - 1] == log && more[|more| - 1] == oe;
    var p := Projected(s, log);
    var t := ApplyEvent(p, p.currentMission.value, oe.event.body).state;
    var q := Projected(s, more);
    assert |t.fleet| == |q.fleet| && |t.sectors| == |q.sectors|;
    forall i | 0 <= i < |t.fleet|
      ensures t.fleet[i] == q.fleet[i]
    {
      MemberOneMore(s.fleet[i], log, oe);
    }
    forall i | 0 <= i < |t.sectors|
      ensures t.sectors[i] == q.sectors[i]
    {
      assert t.sectors[i] == ProjectSector(s.sectors[i], more);
    }
    assert t.fleet == q.fleet && t.sectors == q.sectors;
  }

  lemma MemberOneMore(m: FleetMember, log: seq<OrderedEvent>, oe: OrderedEvent)
    ensures ProjectMember(m, log + [oe])
            == match oe.event.body
               case DroneTelemetry(id, t) => WithTelemetry(ProjectMember(m, log), id, t)
               case ConnectivityChanged(id, c) => WithConnectivity(ProjectMember(m, log), id, c)
               case _ => ProjectMember(m, log)
  {
    var more := log + [oe];
    assert more[..|more| - 1] == log && more[|more| - 1] == oe;
  }

  lemma ProjectNothing(s: State)
    ensures Projected(s, []) == s
  {
    assert Projected(s, []).fleet == s.fleet;
    assert Projected(s, []).sectors == s.sectors;
  }

  lemma FoldProjects(b: Boundary, d: Checkpoint, oe: OrderedEvent, s: State, log: seq<OrderedEvent>)
    requires DigestsFormed(b) && d.state == Projected(s, log)
    requires Fold(b, d, oe).Accepted? && Fold(b, d, oe).disposition == Applied
    ensures Fold(b, d, oe).checkpoint.state == Projected(s, log + [oe])
  {
    FoldKeepsAnchor(b, d, oe);
    ProjectOneMore(s, log, oe);
  }

  lemma LastStep(b: Boundary, c: Checkpoint, log: seq<OrderedEvent>, k: nat) returns (d: Checkpoint)
    requires 0 < k <= |log| && DirectPrefix(FoldStep(b), c, log, k).Some?
    ensures DirectPrefix(FoldStep(b), c, log, k - 1).Some? && DirectPrefix(FoldStep(b), c, log, k - 1).value == d
    ensures Fold(b, d, log[k - 1]).Accepted? && Fold(b, d, log[k - 1]).disposition == Applied
    ensures DirectPrefix(FoldStep(b), c, log, k).value == Fold(b, d, log[k - 1]).checkpoint
  {
    d := DirectPrefix(FoldStep(b), c, log, k - 1).value;
    assert FoldStep(b)(d, log[k - 1]) == Fold(b, d, log[k - 1]);
  }

  lemma PrefixGrows<X>(log: seq<X>, i: nat)
    requires i < |log|
    ensures log[..i + 1] == log[..i] + [log[i]]
  {
  }

  /** A directly folded log leaves exactly its last-writer projection of the anchor. */
  lemma DirectIsProjection(b: Boundary, c: Checkpoint, log: seq<OrderedEvent>, k: nat)
    requires DigestsFormed(b) && k <= |log| && DirectPrefix(FoldStep(b), c, log, k).Some?
    ensures DirectPrefix(FoldStep(b), c, log, k).value.state == Projected(c.state, log[..k])
  {
    var i, d := 0, c;
    assert log[..0] == [];
    ProjectNothing(c.state);
    while i < k
      invariant 0 <= i <= k
      invariant DirectPrefix(FoldStep(b), c, log, i) == Some(d)
      invariant d.state == Projected(c.state, log[..i])
    {
      PrefixesFold(FoldStep(b), c, log, i + 1, k);
      var before := LastStep(b, c, log, i + 1);
      FoldProjects(b, d, log[i], c.state, log[..i]);
      PrefixGrows(log, i);
      d := Fold(b, d, log[i]).checkpoint;
      i := i + 1;
    }
  }

  /** So any delivery of a log's events shows the last-writer projection of some prefix of the log. */
  lemma DeliveredStateIsProjection(b: Boundary, c: Checkpoint, log: seq<OrderedEvent>, delivery: seq<OrderedEvent>)
    requires DigestsFormed(b) && IsLog(OrdinalOf, c, log)
    requires forall i :: 0 <= i < |delivery| ==> delivery[i] in log
    ensures exists n :: 0 <= n <= |log| && Run(FoldStep(b), c, delivery).state == Projected(c.state, log[..n])
  {
    DeliveryConverges(b, c, log, delivery);
    var n :| 0 <= n <= |log| && DirectPrefix(FoldStep(b), c, log, n) == Some(Run(FoldStep(b), c, delivery));
    DirectIsProjection(b, c, log, n);
  }
}
