/** Binding the current proposal to its evidence and its decision, and the escalation built from them
    (apps/dashboard/src/operator/proposal-binding.ts and rescue-escalation.ts). */
module ProposalBinding {
  import opened Options
  import opened Unicode
  import opened Reducer

  datatype Binding = Binding(proposal: Event, evidence: Event, approval: Option<Event>, decisionRecorded: bool)

  predicate IsProposal(e: Event) {
    e.body.AgentProposal?
  }

  predicate IsEvidence(e: Event) {
    e.body.EvidenceDecided?
  }

  predicate IsApproval(e: Event) {
    e.body.OperatorApproval?
  }

  predicate EvidenceMatches(e: Event, proposal: Event) {
    && IsEvidence(e) && IsProposal(proposal)
    && e.mission == proposal.mission
    && e.body.evidence.proposalId == proposal.body.proposal.proposalId
    && e.body.evidence.proposalDigest == proposal.body.proposal.proposalDigest
  }

  predicate ApprovalMatches(e: Event, proposal: Event) {
    && IsApproval(e) && IsProposal(proposal)
    && e.mission == proposal.mission
    && e.body.approval.proposalId == proposal.body.proposal.proposalId
    && e.body.approval.proposalDigest == proposal.body.proposal.proposalDigest
  }

  /** The last event that satisfies a predicate. */
  function LastSuch(timeline: seq<OrderedEvent>, p: Event -> bool): (r: Option<Event>)
    ensures r.Some? ==> p(r.value) && exists i :: 0 <= i < |timeline| && timeline[i].event == r.value
  {
    if timeline == [] then None
    else if p(timeline[|timeline| - 1].event) then Some(timeline[|timeline| - 1].event)
    else LastSuch(timeline[..|timeline| - 1], p)
  }

  function EvidenceFor(proposal: Event): Event -> bool { (e: Event) => EvidenceMatches(e, proposal) }
  function ApprovalOf(proposal: Event): Event -> bool { (e: Event) => ApprovalMatches(e, proposal) }

  lemma LastSuchGrows(timeline: seq<OrderedEvent>, p: Event -> bool, k: nat)
    requires k < |timeline|
    ensures LastSuch(timeline[..k + 1], p)
            == if p(timeline[k].event) then Some(timeline[k].event) else LastSuch(timeline[..k], p)
  {
    assert timeline[..k + 1][..k] == timeline[..k];
  }

  lemma LastSuchWhole(timeline: seq<OrderedEvent>, p: Event -> bool)
    ensures LastSuch(timeline[..|timeline|], p) == LastSuch(timeline, p)
  {
    assert timeline[..|timeline|] == timeline;
  }

  /** Whose proposal is the last one, with the last evidence and the last decision naming it. */
  function BindingOf(timeline: seq<OrderedEvent>): Option<Binding> {
    var latest := LastSuch(timeline, IsProposal);
    if latest == None then None
    else
      var proposal := latest.value;
      var evidence := LastSuch(timeline, EvidenceFor(proposal));
      var approval := LastSuch(timeline, ApprovalOf(proposal));
      if evidence == None then None
      else Some(Binding(proposal, evidence.value, approval, approval.Some?))
  }

  method CurrentProposalBinding(timeline: seq<OrderedEvent>) returns (r: Option<Binding>)
    ensures r == BindingOf(timeline)
  {
    var latestProposal := LatestProposal(timeline);
    if latestProposal == None {
      return None;
    }
    var proposal := latestProposal.value;
    var selectedEvidence, selectedApproval := LatestMatches(timeline, proposal);
    if selectedEvidence == None {
      return None;
    }
    return Some(Binding(proposal, selectedEvidence.value, selectedApproval, selectedApproval.Some?));
  }

  /** The first loop. */
  method LatestProposal(timeline: seq<OrderedEvent>) returns (latest: Option<Event>)
    ensures latest == LastSuch(timeline, IsProposal)
  {
    latest := None;
    for k := 0 to |timeline|
      invariant latest == LastSuch(timeline[..k], IsProposal)
    {
      LastSuchGrows(timeline, IsProposal, k);
      if timeline[k].event.body.AgentProposal? {
        latest := Some(timeline[k].event);
      }
    }
    LastSuchWhole(timeline, IsProposal);
  }

  /** The second loop. */
  method LatestMatches(
    timeline: seq<OrderedEvent>, proposal: Event) returns (evidence: Option<Event>, approval: Option<Event>)
    ensures evidence == LastSuch(timeline, EvidenceFor(proposal))
        && approval == LastSuch(timeline, ApprovalOf(proposal))
  {
    evidence, approval := None, None;
    for k := 0 to |timeline|
      invariant evidence == LastSuch(timeline[..k], EvidenceFor(proposal))
      invariant approval == LastSuch(timeline[..k], ApprovalOf(proposal))
    {
      LastSuchGrows(timeline, EvidenceFor(proposal), k);
      LastSuchGrows(timeline, ApprovalOf(proposal), k);
      var event := timeline[k].event;
      if event.body.EvidenceDecided? && EvidenceMatches(event, proposal) {
        evidence := Some(event);
      } else if event.body.OperatorApproval? && ApprovalMatches(event, proposal) {
        approval := Some(event);
      }
    }
    LastSuchWhole(timeline, EvidenceFor(proposal));
    LastSuchWhole(timeline, ApprovalOf(proposal));
  }

  // ---------------------------------------------------------------- independence of arrival order

  /** The events of one family, in their own order. */
  function Family(timeline: seq<OrderedEvent>, q: Event -> bool): seq<Event> {
    if timeline == [] then []
    else if q(timeline[|timeline| - 1].event)
    then Family(timeline[..|timeline| - 1], q) + [timeline[|timeline| - 1].event]
    else Family(timeline[..|timeline| - 1], q)
  }

  function LastEvent(events: seq<Event>, p: Event -> bool): Option<Event> {
    if events == [] then None
    else if p(events[|events| - 1]) then Some(events[|events| - 1])
    else LastEvent(events[..|events| - 1], p)
  }

  lemma {:induction false} LastInFamily(timeline: seq<OrderedEvent>, q: Event -> bool, p: Event -> bool)
    requires forall e :: p(e) ==> q(e)
    ensures LastSuch(timeline, p) == LastEvent(Family(timeline, q), p)
  {
    if timeline != [] {
      var front, last := timeline[..|timeline| - 1], timeline[|timeline| - 1].event;
      LastInFamily(front, q, p);
      if q(last) {
        var f := Family(timeline, q);
        assert f[..|f| - 1] == Family(front, q);
      }
    }
  }

  /** The same proposals, evidence decisions and approvals, each family in the same order. */
  ghost predicate SameFamilies(t: seq<OrderedEvent>, u: seq<OrderedEvent>) {
    && Family(t, IsProposal) == Family(u, IsProposal)
    && Family(t, IsEvidence) == Family(u, IsEvidence)
    && Family(t, IsApproval) == Family(u, IsApproval)
  }

  lemma LastAgrees(t: seq<OrderedEvent>, u: seq<OrderedEvent>, q: Event -> bool, p: Event -> bool)
    requires forall e :: p(e) ==> q(e)
    requires Family(t, q) == Family(u, q)
    ensures LastSuch(t, p) == LastSuch(u, p)
  {
    LastInFamily(t, q, p);
    LastInFamily(u, q, p);
  }

  /** Re-interleaving the families, or moving any other event among them, leaves the binding alone. */
  lemma BindingIgnoresInterleaving(t: seq<OrderedEvent>, u: seq<OrderedEvent>)
    requires SameFamilies(t, u)
    ensures BindingOf(t) == BindingOf(u)
  {
    LastAgrees(t, u, IsProposal, IsProposal);
    var latest := LastSuch(t, IsProposal);
    if latest.Some? {
      var proposal := latest.value;
      LastAgrees(t, u, IsEvidence, EvidenceFor(proposal));
      LastAgrees(t, u, IsApproval, ApprovalOf(proposal));
    }
  }

  // ---------------------------------------------------------------- escalation

  datatype EscalationRequest = EscalationRequest(
    missionId: Identifier, droneId: Identifier, proposalId: Identifier, proposalDigest: Text, proposalVersion: int,
    evidenceDecisionId: Identifier, evidenceDecisionDigest: Text, evidenceDecisionVersion: int,
    latitudeMicrodegrees: int, longitudeMicrodegrees: int)

  datatype Preparation = Request(request: EscalationRequest) | ApprovalRejected | BindingMismatch | DigestRefused

  predicate BindingMatches(proposal: Event, evidence: Event, approval: Event)
    requires IsProposal(proposal) && IsEvidence(evidence) && IsApproval(approval)
  {
    var p, e, a := proposal.body.proposal, evidence.body.evidence, approval.body.approval;
    && proposal.mission == evidence.mission && proposal.mission == approval.mission
    && p.proposalId == e.proposalId && p.proposalId == a.proposalId
    && p.proposalDigest == e.proposalDigest && p.proposalDigest == a.proposalDigest
    && e.evidenceDecisionId == a.evidenceDecisionId
  }

  /** `evidenceDigest` is the digest of the evidence document, `None` where canonicalisation refuses it. */
  function PrepareEscalation(evidenceDigest: Event -> Option<Text>, proposal: Event, evidence: Event, approval: Event)
    : Preparation
    requires IsProposal(proposal) && IsEvidence(evidence) && IsApproval(approval)
  {
    var a := approval.body.approval;
    if a.decision != Approve then ApprovalRejected
    else if !BindingMatches(proposal, evidence, approval) then BindingMismatch
    else
      match evidenceDigest(evidence)
      case None => DigestRefused
      case Some(digest) =>
        Request(EscalationRequest(
          proposal.mission, a.droneId, a.proposalId, a.proposalDigest, a.proposalVersion,
          a.evidenceDecisionId, digest, a.evidenceDecisionVersion, a.latitudeMicrodegrees, a.longitudeMicrodegrees))
  }

  /** The three timeline events an escalation request rests on. */
  ghost predicate RestsOn(
    timeline: seq<OrderedEvent>, request: EscalationRequest, proposal: Event, evidence: Event, approval: Event)
  {
    && (exists i :: 0 <= i < |timeline| && timeline[i].event == proposal)
    && (exists i :: 0 <= i < |timeline| && timeline[i].event == evidence)
    && (exists i :: 0 <= i < |timeline| && timeline[i].event == approval)
    && IsProposal(proposal) && IsEvidence(evidence) && IsApproval(approval)
    && approval.body.approval.decision == Approve
    && request.missionId == proposal.mission == evidence.mission == approval.mission
    && request.proposalId == proposal.body.proposal.proposalId
       == evidence.body.evidence.proposalId == approval.body.approval.proposalId
    && request.proposalDigest == proposal.body.proposal.proposalDigest
       == evidence.body.evidence.proposalDigest == approval.body.approval.proposalDigest
    && request.evidenceDecisionId == evidence.body.evidence.evidenceDecisionId
       == approval.body.approval.evidenceDecisionId
    && request.droneId == approval.body.approval.droneId
  }

  lemma BindingKinds(timeline: seq<OrderedEvent>)
    requires BindingOf(timeline).Some?
    ensures var b := BindingOf(timeline).value;
      IsProposal(b.proposal) && IsEvidence(b.evidence) && (b.approval.Some? ==> IsApproval(b.approval.value))
  {
  }

  /** Every escalation request built from a timeline's binding is traceable to a proposal, an evidence
      decision and an approving decision of that timeline that name the same mission, proposal and evidence;
      and one is built exactly when the recorded decision approves the bound evidence and that evidence has
      a digest. */
  lemma EscalationIsTraceable(timeline: seq<OrderedEvent>, evidenceDigest: Event -> Option<Text>)
    requires BindingOf(timeline).Some? && BindingOf(timeline).value.approval.Some?
    ensures var b := BindingOf(timeline).value;
      && IsProposal(b.proposal) && IsEvidence(b.evidence) && IsApproval(b.approval.value)
      && var r := PrepareEscalation(evidenceDigest, b.proposal, b.evidence, b.approval.value);
         && (r.Request? ==> RestsOn(timeline, r.request, b.proposal, b.evidence, b.approval.value))
         && (r.Request? <==>
               && b.approval.value.body.approval.decision == Approve
               && b.evidence.body.evidence.evidenceDecisionId == b.approval.value.body.approval.evidenceDecisionId
               && evidenceDigest(b.evidence).Some?)
  {
    BindingKinds(timeline);
    var b := BindingOf(timeline).value;
    var proposal := LastSuch(timeline, IsProposal).value;
    assert EvidenceMatches(b.evidence, proposal) && ApprovalMatches(b.approval.value, proposal);
  }
}
