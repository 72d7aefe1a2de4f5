/** Folding an ordered log that reaches the dashboard with losses, repeats and reordering. */
module Delivery {
  import opened Options
  import opened Unicode
  import opened Reducer

  // ---------------------------------------------------------------- runs of a checkpointing fold

  /** One way of folding an input of type `X` into a checkpoint. */
  type Step<!X> = (Checkpoint, X) -> Folded

  function FoldStep(b: Boundary): Step<OrderedEvent> {
    (c: Checkpoint, oe: OrderedEvent) => Fold(b, c, oe)
  }

  /** An event frame: the event and the server's digest of the state after it. */
  datatype Frame = Frame(event: OrderedEvent, digest: Text)

  function VerifiedStep(b: Boundary): Step<Frame> {
    (c: Checkpoint, frame: Frame) => FoldVerified(b, c, frame.event, frame.digest)
  }

  /** The checkpoint after offering a delivery one input at a time; a refusal leaves it where it was. */
  function Run<X>(step: Step<X>, c: Checkpoint, delivery: seq<X>): Checkpoint
    decreases |delivery|
  {
    if delivery == [] then c else Run(step, step(c, delivery[0]).checkpoint, delivery[1..])
  }

  /** The direct fold of the first `k` entries of a log, `None` once one of them is not applied. */
  function DirectPrefix<X>(step: Step<X>, c: Checkpoint, log: seq<X>, k: nat): Option<Checkpoint>
    requires k <= |log|
  {
    if k == 0 then Some(c)
    else
      match DirectPrefix(step, c, log, k - 1)
      case None => None
      case Some(d) =>
        var f := step(d, log[k - 1]);
        if f.Accepted? && f.disposition == Applied then Some(f.checkpoint) else None
  }

  /** What delivery needs of a step: it only ever advances to the next ordinal. */
  ghost predicate Stepwise<X(!new)>(step: Step<X>, ordinal: X -> int) {
    forall c, x :: Advances(step, ordinal, c, x)
  }

  ghost predicate Advances<X>(step: Step<X>, ordinal: X -> int, c: Checkpoint, x: X) {
    var f := step(c, x);
    && (f.Refused? || f.disposition == Duplicate ==> f.checkpoint == c)
    && (f.Accepted? && f.disposition == Applied ==>
          ordinal(x) == c.state.latestAuditOrdinal + 1 == f.checkpoint.state.latestAuditOrdinal)
  }

  /** One entry per consecutive ordinal after the checkpoint's. */
  ghost predicate IsLog<X>(ordinal: X -> int, c: Checkpoint, log: seq<X>) {
    forall i :: 0 <= i < |log| ==> ordinal(log[i]) == c.state.latestAuditOrdinal + 1 + i
  }

  /** `xs` occurs in order inside `ys`. */
  ghost predicate IsSubsequence<X>(xs: seq<X>, ys: seq<X>)
    decreases |ys|
  {
    xs == [] ||
    (ys != [] && ((xs[0] == ys[0] && IsSubsequence(xs[1..], ys[1..])) || IsSubsequence(xs, ys[1..])))
  }

  lemma {:induction false} PrefixOrdinal<X(!new)>(step: Step<X>, ordinal: X -> int, c: Checkpoint, log: seq<X>, k: nat)
    requires Stepwise(step, ordinal) && k <= |log| && DirectPrefix(step, c, log, k).Some?
    ensures DirectPrefix(step, c, log, k).value.state.latestAuditOrdinal == c.state.latestAuditOrdinal + k
  {
    if k > 0 {
      PrefixOrdinal(step, ordinal, c, log, k - 1);
      assert Advances(step, ordinal, DirectPrefix(step, c, log, k - 1).value, log[k - 1]);
    }
  }

  /** One delivered log entry either extends the direct prefix by exactly that entry or changes nothing. */
  lemma PrefixStep<X(!new)>(step: Step<X>, ordinal: X -> int, c: Checkpoint, log: seq<X>, k: nat, x: X)
    requires Stepwise(step, ordinal) && IsLog(ordinal, c, log) && x in log
    requires k <= |log| && DirectPrefix(step, c, log, k).Some?
    ensures var d := DirectPrefix(step, c, log, k).value;
      || step(d, x).checkpoint == d
      || (k < |log| && log[k] == x && DirectPrefix(step, c, log, k + 1) == Some(step(d, x).checkpoint))
    ensures k < |log| && log[k] == x && DirectPrefix(step, c, log, k + 1).Some?
      ==> DirectPrefix(step, c, log, k + 1) == Some(step(DirectPrefix(step, c, log, k).value, x).checkpoint)
  {
    var d := DirectPrefix(step, c, log, k).value;
    PrefixOrdinal(step, ordinal, c, log, k);
    assert Advances(step, ordinal, d, x);
    var i :| 0 <= i < |log| && log[i] == x;
    assert ordinal(log[i]) == c.state.latestAuditOrdinal + 1 + i;
    if step(d, x).Accepted? && step(d, x).disposition == Applied {
      assert i == k;
    }
  }

  /** From the direct fold of `k` entries, any delivery of log entries ends at the direct fold of some
      `n >= k` entries. */
  lemma {:induction false} RunReachesPrefix<X(!new)>(
    step: Step<X>, ordinal: X -> int, c: Checkpoint, log: seq<X>, k: nat, delivery: seq<X>) returns (n: nat)
    requires Stepwise(step, ordinal) && IsLog(ordinal, c, log)
    requires forall i :: 0 <= i < |delivery| ==> delivery[i] in log
    requires k <= |log| && DirectPrefix(step, c, log, k).Some?
    ensures k <= n <= |log|
    ensures DirectPrefix(step, c, log, n) == Some(Run(step, DirectPrefix(step, c, log, k).value, delivery))
    decreases |delivery|
  {
    n := k;
    if delivery != [] {
      PrefixStep(step, ordinal, c, log, k, delivery[0]);
      var d := DirectPrefix(step, c, log, k).value;
      if step(d, delivery[0]).checkpoint == d {
        n := RunReachesPrefix(step, ordinal, c, log, k, delivery[1..]);
      } else {
        n := RunReachesPrefix(step, ordinal, c, log, k + 1, delivery[1..]);
      }
    }
  }

  lemma {:induction false} PrefixesFold<X>(step: Step<X>, c: Checkpoint, log: seq<X>, k: nat, n: nat)
    requires k <= n <= |log| && DirectPrefix(step, c, log, n).Some?
    ensures DirectPrefix(step, c, log, k).Some?
    decreases n - k
  {
    if k < n {
      PrefixesFold(step, c, log, k + 1, n);
    }
  }

  /** When the rest of the log is still to come in order, the run ends at the whole log. */
  lemma {:induction false} RunReachesEnd<X(!new)>(
    step: Step<X>, ordinal: X -> int, c: Checkpoint, log: seq<X>, i: nat, k: nat, delivery: seq<X>)
    requires Stepwise(step, ordinal) && IsLog(ordinal, c, log)
    requires forall j :: 0 <= j < |delivery| ==> delivery[j] in log
    requires i <= k <= |log| && DirectPrefix(step, c, log, |log|).Some?
    requires DirectPrefix(step, c, log, k).Some?
    requires IsSubsequence(log[i..], delivery)
    ensures DirectPrefix(step, c, log, |log|) == Some(Run(step, DirectPrefix(step, c, log, k).value, delivery))
    decreases |delivery|
  {
    if delivery != [] {
      var x := delivery[0];
      var d := DirectPrefix(step, c, log, k).value;
      PrefixStep(step, ordinal, c, log, k, x);
      var matched := i < |log| && log[i] == x && IsSubsequence(log[i..][1..], delivery[1..]);
      var j := if matched then i + 1 else i;
      if matched {
        assert log[i..][1..] == log[i + 1..];
      }
      assert IsSubsequence(log[j..], delivery[1..]);
      if matched && i == k {
        PrefixesFold(step, c, log, k + 1, |log|);
        RunReachesEnd(step, ordinal, c, log, j, k + 1, delivery[1..]);
      } else if step(d, x).checkpoint == d {
        RunReachesEnd(step, ordinal, c, log, j, k, delivery[1..]);
      } else {
        RunReachesEnd(step, ordinal, c, log, j, k + 1, delivery[1..]);
      }
    }
  }

  // ---------------------------------------------------------------- the two folds of the reducer

  function OrdinalOf(oe: OrderedEvent): int {
    oe.auditOrdinal
  }

  function FrameOrdinal(frame: Frame): int {
    frame.event.auditOrdinal
  }

  lemma FoldIsStepwise(b: Boundary)
    requires DigestsFormed(b)
    ensures Stepwise(FoldStep(b), OrdinalOf)
  {
    forall c, x: OrderedEvent
      ensures Advances(FoldStep(b), OrdinalOf, c, x)
    {
      FoldAdvances(b, c, x);
    }
  }

  lemma FoldAdvances(b: Boundary, c: Checkpoint, x: OrderedEvent)
    requires DigestsFormed(b)
    ensures Advances(FoldStep(b), OrdinalOf, c, x)
  {
    FoldKeepsAnchor(b, c, x);
  }

  lemma VerifiedIsStepwise(b: Boundary)
    requires DigestsFormed(b)
    ensures Stepwise(VerifiedStep(b), FrameOrdinal)
  {
    forall c, x: Frame
      ensures Advances(VerifiedStep(b), FrameOrdinal, c, x)
    {
      VerifiedAdvances(b, c, x);
    }
  }

  lemma VerifiedAdvances(b: Boundary, c: Checkpoint, x: Frame)
    requires DigestsFormed(b)
    ensures Advances(VerifiedStep(b), FrameOrdinal, c, x)
  {
    FoldAdvances(b, c, x.event);
    VerifiedIsFold(b, c, x);
  }

  /** Verification only ever turns an accepted fold into a refusal that keeps the checkpoint. */
  lemma VerifiedIsFold(b: Boundary, c: Checkpoint, x: Frame)
    ensures var f := VerifiedStep(b)(c, x); f == FoldStep(b)(c, x.event) || (f.Refused? && f.checkpoint == c)
  {
  }

  /** Whatever is lost, repeated or reordered on the way, the checkpoint is the direct fold of some prefix
      of the log; and once the delivery contains the log in order and every entry is acceptable, that
      prefix is the whole log. */
  lemma DeliveryConverges(b: Boundary, c: Checkpoint, log: seq<OrderedEvent>, delivery: seq<OrderedEvent>)
    requires DigestsFormed(b) && IsLog(OrdinalOf, c, log)
    requires forall i :: 0 <= i < |delivery| ==> delivery[i] in log
    ensures exists n ::
      0 <= n <= |log| && DirectPrefix(FoldStep(b), c, log, n) == Some(Run(FoldStep(b), c, delivery))
    ensures IsSubsequence(log, delivery) && DirectPrefix(FoldStep(b), c, log, |log|).Some?
      ==> DirectPrefix(FoldStep(b), c, log, |log|) == Some(Run(FoldStep(b), c, delivery))
  {
    FoldIsStepwise(b);
    var n := RunReachesPrefix(FoldStep(b), OrdinalOf, c, log, 0, delivery);
    if IsSubsequence(log, delivery) && DirectPrefix(FoldStep(b), c, log, |log|).Some? {
      assert log[0..] == log;
      RunReachesEnd(FoldStep(b), OrdinalOf, c, log, 0, 0, delivery);
    }
  }

  /** The same for frames folded against the server's state digests. */
  lemma VerifiedDeliveryConverges(b: Boundary, c: Checkpoint, log: seq<Frame>, delivery: seq<Frame>)
    requires DigestsFormed(b) && IsLog(FrameOrdinal, c, log)
    requires forall i :: 0 <= i < |delivery| ==> delivery[i] in log
    ensures exists n ::
      0 <= n <= |log| && DirectPrefix(VerifiedStep(b), c, log, n) == Some(Run(VerifiedStep(b), c, delivery))
    ensures IsSubsequence(log, delivery) && DirectPrefix(VerifiedStep(b), c, log, |log|).Some?
      ==> DirectPrefix(VerifiedStep(b), c, log, |log|) == Some(Run(VerifiedStep(b), c, delivery))
  {
    VerifiedIsStepwise(b);
    var n := RunReachesPrefix(VerifiedStep(b), FrameOrdinal, c, log, 0, delivery);
    if IsSubsequence(log, delivery) && DirectPrefix(VerifiedStep(b), c, log, |log|).Some? {
      assert log[0..] == log;
      RunReachesEnd(VerifiedStep(b), FrameOrdinal, c, log, 0, 0, delivery);
    }
  }

  /** Every checkpoint reached from an anchor by any sequence of folds passes the anchor check again and
      has the anchor's fleet, participation, sectors and mission identity; its ordinal never falls. */
  lemma {:induction false} ReachableAnchors(b: Boundary, c: Checkpoint, delivery: seq<OrderedEvent>)
    requires DigestsFormed(b) && IsAnchor(c)
    ensures IsAnchor(Run(FoldStep(b), c, delivery)) && SameShape(c.state, Run(FoldStep(b), c, delivery).state)
    ensures c.state.latestAuditOrdinal <= Run(FoldStep(b), c, delivery).state.latestAuditOrdinal
    decreases |delivery|
  {
    if delivery != [] {
      var d := Fold(b, c, delivery[0]).checkpoint;
      FoldKeepsAnchor(b, c, delivery[0]);
      ReachableAnchors(b, d, delivery[1..]);
      SameShapeTransitive(c.state, d.state, Run(FoldStep(b), c, delivery).state);
    }
  }

  lemma RunFirst<X>(step: Step<X>, c: Checkpoint, delivery: seq<X>)
    requires delivery != []
    ensures Run(step, c, delivery) == Run(step, step(c, delivery[0]).checkpoint, delivery[1..])
  {
  }

  /** From an anchor, a checkpoint is an anchor of the same shape and no earlier ordinal. */
  ghost predicate ContinuesAnchor(c: Checkpoint, d: Checkpoint) {
    IsAnchor(d) && SameShape(c.state, d.state) && c.state.latestAuditOrdinal <= d.state.latestAuditOrdinal
  }

  lemma SameContinues(c: Checkpoint)
    requires IsAnchor(c)
    ensures ContinuesAnchor(c, c)
  {
  }

  lemma FoldContinuesAnchor(b: Boundary, c: Checkpoint, x: OrderedEvent)
    requires DigestsFormed(b) && IsAnchor(c)
    ensures ContinuesAnchor(c, Fold(b, c, x).checkpoint)
  {
    FoldKeepsAnchor(b, c, x);
    SameContinues(c);
  }

  lemma VerifiedKeepsAnchor(b: Boundary, c: Checkpoint, x: Frame)
    requires DigestsFormed(b) && IsAnchor(c)
    ensures ContinuesAnchor(c, FoldVerified(b, c, x.event, x.digest).checkpoint)
  {
    FoldContinuesAnchor(b, c, x.event);
    SameContinues(c);
    VerifiedIsFold(b, c, x);
  }

  /** The same for frames folded against the server's state digests, which is the fold a session uses. */
  lemma {:induction false} VerifiedReachableAnchors(b: Boundary, c: Checkpoint, delivery: seq<Frame>)
    requires DigestsFormed(b) && IsAnchor(c)
    ensures IsAnchor(Run(VerifiedStep(b), c, delivery)) && SameShape(c.state, Run(VerifiedStep(b), c, delivery).state)
    ensures c.state.latestAuditOrdinal <= Run(VerifiedStep(b), c, delivery).state.latestAuditOrdinal
    decreases |delivery|
  {
    if delivery != [] {
      var d := FoldVerified(b, c, delivery[0].event, delivery[0].digest).checkpoint;
      VerifiedKeepsAnchor(b, c, delivery[0]);
      RunFirst(VerifiedStep(b), c, delivery);
      VerifiedReachableAnchors(b, d, delivery[1..]);
      SameShapeTransitive(c.state, d.state, Run(VerifiedStep(b), c, delivery).state);
    }
  }
}
