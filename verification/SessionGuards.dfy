/** Subscriptions, disposal, confirmed runs and runtime identity of a source session, including where an
    await lets a guard be overtaken. */
module SessionGuards {
  import opened Options
  import opened Unicode
  import opened Ordering
  import opened Reducer
  import opened Timeline
  import opened SessionModel
  import opened SessionProperties

  // ---------------------------------------------------------------- subscriptions

  /** The undisposed subscriptions are the active one and those whose opening call has not returned. */
  ghost predicate Subscribed(s: Session) {
    && (s.active.Some? ==> s.active.value == s.generation && s.active.value !in s.opening && !s.disposed)
    && s.live == s.opening + (if s.active.Some? then {s.active.value} else {})
    && (forall g :: g in s.opening ==> g <= s.generation)
    && (s.disposed ==> s.generation !in s.opening)
  }

  /** A step either leaves the subscriptions and the generation alone or retires the active one with a bump. */
  ghost predicate Retires(s: Session, t: Session) {
    && t.opening == s.opening && (s.disposed ==> t.disposed)
    && (|| (t.generation == s.generation && t.active == s.active && t.live == s.live && t.disposed == s.disposed)
        || (t.generation == s.generation + 1 && t.active == None && t.live == CloseActive(s).live))
  }

  lemma RetiresKeeps(s: Session, t: Session)
    requires Subscribed(s) && Retires(s, t)
    ensures Subscribed(t)
  {
  }

  lemma StartRetires(env: Environment, s: Session)
    ensures Retires(s, StartNext(env, s))
  {
    if s.flight == Grounded && s.queue != [] {
      var taken := s.(queue := s.queue[1..]);
      InputRetires(env, taken, s.queue[0]);
    }
  }

  lemma InputRetires(env: Environment, s: Session, task: Task)
    ensures Retires(s, ProcessInput(env, s, task))
  {
  }

  lemma ResumeRetires(env: Environment, s: Session, fulfilled: bool)
    ensures Retires(s, Resume(env, s, fulfilled))
  {
  }

  lemma SubscribedStep(env: Environment, s: Session, a: Action)
    requires Subscribed(s)
    ensures Subscribed(Step(env, s, a))
  {
    if a.DoStart? {
      StartRetires(env, s);
      RetiresKeeps(s, StartNext(env, s));
    } else if a.DoResume? {
      ResumeRetires(env, s, a.fulfilled);
      RetiresKeeps(s, Resume(env, s, a.fulfilled));
    }
  }

  /** At every point of every run, at most one subscription is live outside an opening call, it is the one of
      the current generation, and on a disposed session there is none. */
  lemma {:induction false} OneSubscription(env: Environment, s: Session, actions: seq<Action>)
    requires Subscribed(s)
    ensures var t := SessionModel.Run(env, s, actions);
      && Subscribed(t)
      && (t.opening == {} ==> t.live == {} || (!t.disposed && t.live == {t.generation}))
    decreases |actions|
  {
    if actions != [] {
      SubscribedStep(env, s, actions[0]);
      OneSubscription(env, Step(env, s, actions[0]), actions[1..]);
    }
  }

  // ---------------------------------------------------------------- disposal

  /** Whether settling the input in flight will publish something on a disposed session. */
  predicate FlightPublishes(flight: Flight, fulfilled: bool) {
    && flight.Flying?
    && match flight.waiting
       case Consuming => false
       case Resyncing => !fulfilled
       case _ => fulfilled
  }

  /** Disposal does not silence a session: exactly two things still publish after it, settling an input
      that was in flight, and anchoring a runtime. */
  lemma DisposedPublishesExactly(env: Environment, s: Session, a: Action)
    requires s.disposed
    ensures Step(env, s, a).disposed
    ensures Step(env, s, a).published != s.published <==>
      a.DoAnchorRuntime? || (a.DoResume? && FlightPublishes(s.flight, a.fulfilled))
  {
    if a.DoStart? {
      if s.flight == Grounded && s.queue != [] {
        StartTakes(env, s);
      }
    } else if a.DoResume? && s.flight.Flying? {
      LastPublished(env, s, a.fulfilled);
    }
  }

  lemma LastPublished(env: Environment, s: Session, fulfilled: bool)
    requires s.disposed && s.flight.Flying?
    ensures FlightPublishes(s.flight, fulfilled) ==> |Resume(env, s, fulfilled).published| == |s.published| + 1
    ensures !FlightPublishes(s.flight, fulfilled) ==> Resume(env, s, fulfilled).published == s.published
    ensures Resume(env, s, fulfilled).disposed
  {
  }

  predicate Anchors(env: Environment, d: SnapshotDocument) {
    CheckpointFromSnapshot(env.boundary, d.state, d.latestEventDigest, d.digest).Anchor?
  }

  /** What of a disposed session's steps shows it as something other than disposed: a runtime anchored other than
      the accepted one, or the settling of a snapshot that anchors or of a frame that folds. */
  predicate ShowsAgain(env: Environment, s: Session, a: Action) {
    || (a.DoAnchorRuntime? && s.state.server.runtimeId.Some? && s.state.server.runtimeId.value != a.runtimeId)
    || (&& a == DoResume(true) && s.flight.Flying?
        && match s.flight.waiting
           case Anchoring(d) => Anchors(env, d)
           case Folding(from, d) => FoldVerified(env.boundary, from, d.event, d.digest).Accepted?
           case _ => false)
  }

  lemma DisposedShowsExactly(env: Environment, s: Session, a: Action)
    requires s.disposed && s.state.server.status == Disposed
    ensures Step(env, s, a).state.server.status != Disposed <==> ShowsAgain(env, s, a)
    ensures ShowsAgain(env, s, a) ==>
      Step(env, s, a).state.server.status == if a.DoAnchorRuntime? then RuntimeChanged else Live
  {
  }

  ghost predicate NeverShowsAgain(env: Environment, s: Session, actions: seq<Action>)
    decreases |actions|
  {
    actions == [] || (!ShowsAgain(env, s, actions[0]) && NeverShowsAgain(env, Step(env, s, actions[0]), actions[1..]))
  }

  /** A disposed session is shown as disposed at every point of a run exactly as long as no such step is taken. */
  lemma {:induction false} DisposedStaysExactly(env: Environment, s: Session, actions: seq<Action>)
    requires s.disposed && s.state.server.status == Disposed
    ensures (forall k :: 0 <= k <= |actions| ==> SessionModel.Run(env, s, actions[..k]).state.server.status == Disposed)
            <==> NeverShowsAgain(env, s, actions)
    decreases |actions|
  {
    assert actions[..0] == [];
    if actions != [] {
      var t := Step(env, s, actions[0]);
      DisposedShowsExactly(env, s, actions[0]);
      DisposedPublishesExactly(env, s, actions[0]);
      forall k | 1 <= k <= |actions|
        ensures SessionModel.Run(env, s, actions[..k]) == SessionModel.Run(env, t, actions[1..][..k - 1])
      {
        assert actions[..k][1..] == actions[1..][..k - 1];
      }
      assert SessionModel.Run(env, s, actions[..1]) == t by {
        assert actions[1..][..0] == [];
      }
      if !ShowsAgain(env, s, actions[0]) {
        DisposedStaysExactly(env, t, actions[1..]);
        PointsShift(env, s, t, actions);
      }
    }
  }

  lemma PointsShift(env: Environment, s: Session, t: Session, actions: seq<Action>)
    requires actions != [] && s.state.server.status == Disposed
    requires forall k :: 1 <= k <= |actions| ==>
      SessionModel.Run(env, s, actions[..k]) == SessionModel.Run(env, t, actions[1..][..k - 1])
    ensures (forall k :: 0 <= k <= |actions| ==> SessionModel.Run(env, s, actions[..k]).state.server.status == Disposed)
            <==> forall k :: 0 <= k <= |actions[1..]| ==>
                   SessionModel.Run(env, t, actions[1..][..k]).state.server.status == Disposed
  {
    assert actions[..0] == [];
    if forall k :: 0 <= k <= |actions| ==> SessionModel.Run(env, s, actions[..k]).state.server.status == Disposed {
      forall k | 0 <= k <= |actions[1..]|
        ensures SessionModel.Run(env, t, actions[1..][..k]).state.server.status == Disposed
      {
        assert actions[1..][..k + 1 - 1] == actions[1..][..k];
        assert SessionModel.Run(env, s, actions[..k + 1]).state.server.status == Disposed;
      }
    }
  }

  /** A session disposed while a frame was being folded can end up shown as connected. */
  lemma DisposedShownConnected(env: Environment, s: Session, task: Task, from: Checkpoint, d: FrameDocument)
    requires !s.disposed && s.flight == Flying(task, Folding(from, d))
    requires FoldVerified(env.boundary, from, d.event, d.digest).Accepted?
    ensures var t := Resume(env, Dispose(s), true); t.disposed && t.state.server.status == Live
  {
  }

  // ---------------------------------------------------------------- confirming a live run

  /** A snapshot that will anchor is in flight and does not confirm the run. */
  predicate Overtakes(env: Environment, s: Session, run: (Identifier, Identifier)) {
    && s.flight.Flying? && s.flight.waiting.Anchoring?
    && !RunConfirms(s.flight.waiting.document.currentRun, run) && Anchors(env, s.flight.waiting.document)
  }

  /** A live run is awaited, and no snapshot in flight will overtake it. */
  ghost predicate Awaiting(env: Environment, s: Session, run: (Identifier, Identifier)) {
    s.expectedLiveRun == Some(run) && !Overtakes(env, s, run)
  }

  /** This step shows an accepted snapshot that confirms the awaited run. */
  ghost predicate Confirms(s: Session, t: Session, run: (Identifier, Identifier)) {
    t.published != s.published && RunConfirms(t.state.server.currentRun, run) && t.expectedLiveRun == None
  }

  lemma StartAwaits(env: Environment, s: Session, run: (Identifier, Identifier))
    requires Awaiting(env, s, run)
    ensures Awaiting(env, StartNext(env, s), run)
  {
    if s.flight == Grounded && s.queue != [] {
      InputAwaits(env, s.(queue := s.queue[1..]), s.queue[0], run);
    }
  }

  lemma InputAwaits(env: Environment, s: Session, task: Task, run: (Identifier, Identifier))
    requires Awaiting(env, s, run)
    ensures Awaiting(env, ProcessInput(env, s, task), run)
  {
  }

  lemma ResumeAwaits(env: Environment, s: Session, fulfilled: bool, run: (Identifier, Identifier))
    requires Awaiting(env, s, run)
    ensures Awaiting(env, Resume(env, s, fulfilled), run) || Confirms(s, Resume(env, s, fulfilled), run)
  {
  }

  lemma AwaitingStep(env: Environment, s: Session, a: Action, run: (Identifier, Identifier))
    requires Awaiting(env, s, run) && !a.DoExpectLiveRun?
    ensures Awaiting(env, Step(env, s, a), run) || Confirms(s, Step(env, s, a), run)
  {
    if a.DoStart? {
      StartAwaits(env, s, run);
    } else if a.DoResume? {
      ResumeAwaits(env, s, a.fulfilled, run);
    }
  }

  ghost predicate ConfirmedDuring(env: Environment, s: Session, actions: seq<Action>, run: (Identifier, Identifier))
    decreases |actions|
  {
    actions != [] &&
    (Confirms(s, Step(env, s, actions[0]), run) || ConfirmedDuring(env, Step(env, s, actions[0]), actions[1..], run))
  }

  predicate NoNewExpectation(actions: seq<Action>) {
    forall i :: 0 <= i < |actions| ==> !actions[i].DoExpectLiveRun?
  }

  /** Over every continuation without a newer expectation, the session keeps awaiting the run until an accepted
      snapshot confirms exactly that mission and run. */
  lemma {:induction false} ExpectedRunIsConfirmed(
    env: Environment, s: Session, actions: seq<Action>, run: (Identifier, Identifier))
    requires Awaiting(env, s, run) && NoNewExpectation(actions)
    ensures Awaiting(env, SessionModel.Run(env, s, actions), run) || ConfirmedDuring(env, s, actions, run)
    decreases |actions|
  {
    if actions != [] {
      var t := Step(env, s, actions[0]);
      AwaitingStep(env, s, actions[0], run);
      if Awaiting(env, t, run) {
        ExpectedRunIsConfirmed(env, t, actions[1..], run);
      }
    }
  }

  /** The expectation is still there, or the run was confirmed on the way. */
  ghost predicate KeptAfter(env: Environment, s: Session, actions: seq<Action>, run: (Identifier, Identifier)) {
    SessionModel.Run(env, s, actions).expectedLiveRun == Some(run) || ConfirmedDuring(env, s, actions, run)
  }

  /** A snapshot in flight that anchors clears an expectation it does not meet. */
  lemma OvertakenExpectation(env: Environment, s: Session, run: (Identifier, Identifier))
    requires Overtakes(env, s, run)
    ensures NoNewExpectation([DoResume(true)]) && !KeptAfter(env, s, [DoResume(true)], run)
    ensures var t := Resume(env, s, true); t.expectedLiveRun == None && !RunConfirms(t.state.server.currentRun, run)
  {
    var t := Resume(env, s, true);
    assert [DoResume(true)][1..] == [];
    assert SessionModel.Run(env, t, []) == t;
    assert !ConfirmedDuring(env, t, [], run);
  }

  /** An expected run is kept until confirmed, over every continuation without a newer expectation, exactly
      when no snapshot that anchors without confirming it is in flight at the call. */
  lemma ExpectationKeptExactly(env: Environment, s: Session, missionId: Identifier, runId: Identifier)
    requires !s.disposed
    ensures var t, run := ExpectLiveRun(s, missionId, runId), (missionId, runId);
      (forall actions :: NoNewExpectation(actions) ==> KeptAfter(env, t, actions, run)) <==> !Overtakes(env, s, run)
  {
    var t, run := ExpectLiveRun(s, missionId, runId), (missionId, runId);
    if Overtakes(env, s, run) {
      OvertakenExpectation(env, t, run);
    } else {
      forall actions | NoNewExpectation(actions)
        ensures KeptAfter(env, t, actions, run)
      {
        ExpectedRunIsConfirmed(env, t, actions, run);
      }
    }
  }

  // ---------------------------------------------------------------- runtime identity

  /** A snapshot in flight of this runtime will anchor. */
  predicate Replaces(env: Environment, s: Session, runtimeId: Identifier) {
    && s.flight.Flying? && s.flight.waiting.Anchoring?
    && s.flight.waiting.document.runtimeId != runtimeId && Anchors(env, s.flight.waiting.document)
  }

  /** No snapshot in flight will replace the accepted runtime, if there is one. */
  ghost predicate RuntimeSettled(env: Environment, s: Session) {
    s.state.server.runtimeId.Some? ==> !Replaces(env, s, s.state.server.runtimeId.value)
  }

  /** The one overtaking: a first runtime is anchored while a snapshot of another runtime, which will anchor, is
      in flight. */
  predicate AnchorsOver(env: Environment, s: Session, a: Action) {
    a.DoAnchorRuntime? && s.state.server.runtimeId == None && Replaces(env, s, a.runtimeId)
  }

  lemma InputRuntime(env: Environment, s: Session, task: Task)
    requires s.flight == Grounded
    ensures RuntimeSettled(env, ProcessInput(env, s, task))
    ensures s.state.server.runtimeId.Some?
      ==> ProcessInput(env, s, task).state.server.runtimeId == s.state.server.runtimeId
  {
  }

  lemma ResumeRuntime(env: Environment, s: Session, fulfilled: bool)
    ensures RuntimeSettled(env, Resume(env, s, fulfilled))
    ensures s.state.server.runtimeId.Some? ==>
      (Resume(env, s, fulfilled).state.server.runtimeId != s.state.server.runtimeId
       <==> fulfilled && Replaces(env, s, s.state.server.runtimeId.value))
  {
  }

  /** From any state, a step changes an accepted runtime exactly when it settles a snapshot of another runtime
      that anchors. */
  lemma RuntimeChangesExactly(env: Environment, s: Session, a: Action)
    requires s.state.server.runtimeId.Some?
    ensures Step(env, s, a).state.server.runtimeId != s.state.server.runtimeId
            <==> a == DoResume(true) && Replaces(env, s, s.state.server.runtimeId.value)
  {
    if a.DoStart? {
      if s.flight == Grounded && s.queue != [] {
        InputRuntime(env, s.(queue := s.queue[1..]), s.queue[0]);
      }
    } else if a.DoResume? {
      ResumeRuntime(env, s, a.fulfilled);
    }
  }

  /** A settled session stays settled exactly as long as nothing is anchored over such a snapshot. */
  lemma RuntimeStep(env: Environment, s: Session, a: Action)
    requires RuntimeSettled(env, s)
    ensures s.state.server.runtimeId.Some? ==> Step(env, s, a).state.server.runtimeId == s.state.server.runtimeId
    ensures RuntimeSettled(env, Step(env, s, a)) <==> !AnchorsOver(env, s, a)
  {
    if s.state.server.runtimeId.Some? {
      RuntimeChangesExactly(env, s, a);
    }
    if a.DoStart? {
      if s.flight == Grounded && s.queue != [] {
        InputRuntime(env, s.(queue := s.queue[1..]), s.queue[0]);
      }
    } else if a.DoResume? {
      ResumeRuntime(env, s, a.fulfilled);
    }
  }

  lemma {:induction false} SettledRuntimeStays(env: Environment, s: Session, actions: seq<Action>)
    requires RuntimeSettled(env, s) && s.state.server.runtimeId.Some?
    ensures SessionModel.Run(env, s, actions).state.server.runtimeId == s.state.server.runtimeId
    decreases |actions|
  {
    if actions != [] {
      RuntimeStep(env, s, actions[0]);
      SettledRuntimeStays(env, Step(env, s, actions[0]), actions[1..]);
    }
  }

  /** An accepted runtime is kept over every continuation exactly when the session is settled. */
  lemma RuntimeKeptExactly(env: Environment, s: Session)
    requires s.state.server.runtimeId.Some?
    ensures (forall actions :: SessionModel.Run(env, s, actions).state.server.runtimeId == s.state.server.runtimeId)
            <==> RuntimeSettled(env, s)
  {
    if RuntimeSettled(env, s) {
      forall actions
        ensures SessionModel.Run(env, s, actions).state.server.runtimeId == s.state.server.runtimeId
      {
        SettledRuntimeStays(env, s, actions);
      }
    } else {
      RuntimeChangesExactly(env, s, DoResume(true));
      RunOne(env, s, DoResume(true));
    }
  }

  lemma RunOne(env: Environment, s: Session, a: Action)
    ensures SessionModel.Run(env, s, [a]) == Step(env, s, a)
  {
    assert [a][1..] == [];
    assert SessionModel.Run(env, Step(env, s, a), []) == Step(env, s, a);
  }

  lemma {:induction false} RunConcat(env: Environment, s: Session, a: seq<Action>, b: seq<Action>)
    ensures SessionModel.Run(env, s, a + b) == SessionModel.Run(env, SessionModel.Run(env, s, a), b)
    decreases |a|
  {
    if a == [] {
      assert a + b == b;
    } else {
      assert (a + b)[1..] == a[1..] + b;
      RunConcat(env, Step(env, s, a[0]), a[1..], b);
    }
  }

  ghost predicate NeverAnchorsOver(env: Environment, s: Session, actions: seq<Action>)
    decreases |actions|
  {
    actions == [] || (!AnchorsOver(env, s, actions[0]) && NeverAnchorsOver(env, Step(env, s, actions[0]), actions[1..]))
  }

  lemma {:induction false} StaysSettled(env: Environment, s: Session, a: seq<Action>, b: seq<Action>)
    requires RuntimeSettled(env, s) && NeverAnchorsOver(env, s, a + b)
    ensures RuntimeSettled(env, SessionModel.Run(env, s, a))
    decreases |a|
  {
    if a != [] {
      assert (a + b)[1..] == a[1..] + b;
      RuntimeStep(env, s, a[0]);
      StaysSettled(env, Step(env, s, a[0]), a[1..], b);
    }
  }

  /** In every run that never anchors a first runtime over a snapshot of another one that anchors, whatever
      runtime is shown at some point is shown ever after. */
  lemma RuntimeIsStable(env: Environment, s: Session, a: seq<Action>, b: seq<Action>)
    requires RuntimeSettled(env, s) && NeverAnchorsOver(env, s, a + b)
    requires SessionModel.Run(env, s, a).state.server.runtimeId.Some?
    ensures SessionModel.Run(env, s, a + b).state.server.runtimeId == SessionModel.Run(env, s, a).state.server.runtimeId
  {
    StaysSettled(env, s, a, b);
    RunConcat(env, s, a, b);
    SettledRuntimeStays(env, SessionModel.Run(env, s, a), b);
  }

  /** In particular for every run of a new session. */
  lemma RuntimeIsStableFromStart(env: Environment, a: seq<Action>, b: seq<Action>)
    requires NeverAnchorsOver(env, Initial(), a + b)
    requires SessionModel.Run(env, Initial(), a).state.server.runtimeId.Some?
    ensures SessionModel.Run(env, Initial(), a + b).state.server.runtimeId
            == SessionModel.Run(env, Initial(), a).state.server.runtimeId
  {
    RuntimeIsStable(env, Initial(), a, b);
  }

  /** And when one is anchored over a snapshot in flight, settling the snapshot replaces it exactly when the
      snapshot anchors. */
  lemma RuntimeReplaced(env: Environment, s: Session, a: Action)
    requires a.DoAnchorRuntime? && s.state.server.runtimeId == None
    requires s.flight.Flying? && s.flight.waiting.Anchoring? && s.flight.waiting.document.runtimeId != a.runtimeId
    ensures Step(env, s, a).state.server.runtimeId == Some(a.runtimeId)
    ensures Resume(env, Step(env, s, a), true).state.server.runtimeId
            == Some(if AnchorsOver(env, s, a) then s.flight.waiting.document.runtimeId else a.runtimeId)
  {
    ResumeRuntime(env, Step(env, s, a), true);
  }

  // ---------------------------------------------------------------- from the start

  /** Some run of a new session ends here. */
  ghost predicate Reachable(env: Environment, s: Session) {
    exists actions :: SessionModel.Run(env, Initial(), actions) == s
  }

  lemma InitialReachable(env: Environment)
    ensures Reachable(env, Initial())
  {
    assert SessionModel.Run(env, Initial(), []) == Initial();
  }

  lemma StepReachable(env: Environment, s: Session, a: Action)
    requires Reachable(env, s)
    ensures Reachable(env, Step(env, s, a))
  {
    var actions :| SessionModel.Run(env, Initial(), actions) == s;
    RunConcat(env, Initial(), actions, [a]);
    RunOne(env, s, a);
    assert SessionModel.Run(env, Initial(), actions + [a]) == Step(env, s, a);
  }

  lemma InitialGuarded(env: Environment)
    ensures Consistent(env, Initial()) && Ordered(Initial()) && Subscribed(Initial()) && RuntimeSettled(env, Initial())
  {
    InitialConsistent(env);
  }

  /** Whatever is reachable: publications justified and in order, and one subscription. */
  lemma ReachableIsGuarded(env: Environment, s: Session)
    requires Reachable(env, s)
    ensures Consistent(env, s) && Ordered(s) && Subscribed(s)
  {
    var actions :| SessionModel.Run(env, Initial(), actions) == s;
    InitialGuarded(env);
    NoLostUpdate(env, Initial(), actions);
    InputsInOrder(env, Initial(), actions);
    OneSubscription(env, Initial(), actions);
  }

  /** A checkpoint that passes the anchor check again, and a timeline with one event per ordinal, in order. */
  ghost predicate SoundMission(m: MissionSide) {
    IsAnchor(m.checkpoint) && Increasing(OrdinalKey, m.timeline)
  }

  lemma JustifiedSound(env: Environment, before: MissionSide, p: Publication)
    requires DigestsFormed(env.boundary) && SoundMission(before) && Justified(env, before, p)
    ensures SoundMission(p.state.mission)
  {
    var after := p.state.mission;
    if after != before {
      if AnchorsFrom(env, p.author.task.input.raw, after) {
        OrderedUniqueExact(Meaningful(env.snapshot(p.author.task.input.raw).document.timeline));
      } else {
        var d := env.frame(p.author.task.input.raw).document;
        FoldKeepsAnchor(env.boundary, before.checkpoint, d.event);
        if IsMeaningful(d.event) {
          AppendExact(before.timeline, d.event);
        }
      }
    }
  }

  lemma {:induction false} HistorySound(env: Environment, log: seq<Publication>)
    requires DigestsFormed(env.boundary) && History(env, log)
    ensures SoundMission(ShownBefore(log, |log|))
  {
    if log != [] {
      var n := |log| - 1;
      HistorySound(env, log[..n]);
      JustifiedSound(env, ShownBefore(log[..n], n), log[n]);
    }
  }

  /** Whatever is reachable shows a sound mission. */
  lemma ReachableIsSound(env: Environment, s: Session)
    requires DigestsFormed(env.boundary) && Reachable(env, s)
    ensures SoundMission(s.state.mission)
  {
    ReachableIsGuarded(env, s);
    HistorySound(env, s.published);
  }

  /** A new session after its source delivered the input: opened, enqueued and started. */
  function Delivered(input: Input): seq<Action> {
    [DoBeginReplace(None), DoFinishReplace(1), DoEnqueue(1, input), DoStart]
  }

  lemma DeliveredRun(env: Environment, input: Input)
    ensures var task := Task(0, 1, input);
      var before := Initial().(generation := 1, active := Some(1), live := {1}, nextId := 1);
      SessionModel.Run(env, Initial(), Delivered(input)) == ProcessInput(env, before, task)
  {
    var s1 := BeginReplace(Initial(), None);
    var s2 := FinishReplace(s1, 1);
    var s3 := Enqueue(s2, 1, input);
    var before := Initial().(generation := 1, active := Some(1), live := {1}, nextId := 1);
    assert s1.live == {1} && s1.opening == {1};
    assert s2 == Initial().(generation := 1, active := Some(1), live := {1});
    assert s3.queue == [Task(0, 1, input)] && s3.queue[1..] == [];
    var actions := Delivered(input);
    RunConcat(env, Initial(), [actions[0]], actions[1..]);
    RunConcat(env, s1, [actions[1]], actions[2..]);
    RunConcat(env, s2, [actions[2]], actions[3..]);
    assert actions == [actions[0]] + actions[1..] && actions[1..] == [actions[1]] + actions[2..];
    assert actions[2..] == [actions[2]] + actions[3..] && actions[3..] == [actions[3]];
    RunOne(env, Initial(), actions[0]);
    RunOne(env, s1, actions[1]);
    RunOne(env, s2, actions[2]);
    RunOne(env, s3, actions[3]);
  }

  /** A first snapshot, of a run nothing contradicts, is in flight. */
  lemma SnapshotFlies(env: Environment, raw: Text, d: SnapshotDocument)
    requires env.snapshot(raw) == Valid(d)
    requires d.currentRun.Some? && d.currentRun.value.LiveRun? ==>
      d.state.currentMission.Some? && d.state.currentMission.value.identifier == d.currentRun.value.missionId
    ensures var s := SessionModel.Run(env, Initial(), Delivered(Input(SseFrame, SnapshotName, None, raw)));
      && !s.disposed && s.flight == Flying(Task(0, 1, Input(SseFrame, SnapshotName, None, raw)), Anchoring(d))
      && s.state.server.runtimeId == None
  {
    DeliveredRun(env, Input(SseFrame, SnapshotName, None, raw));
  }

  /** The first snapshot has anchored, and a frame that folds onto it is in flight. */
  lemma FrameFlies(env: Environment, raw: Text, d: SnapshotDocument, frame: Text, f: FrameDocument)
    requires env.snapshot(raw) == Valid(d) && Anchors(env, d) && d.currentRun == None && env.frame(frame) == Valid(f)
    ensures var s := Resume(env, SessionModel.Run(env, Initial(),
        Delivered(Input(SseFrame, SnapshotName, None, raw))), true);
      var t := StartNext(env, Enqueue(s, 1, Input(SseFrame, EventName, None, frame)));
      && !t.disposed && t.flight == Flying(Task(1, 1, Input(SseFrame, EventName, None, frame)),
          Folding(s.state.mission.checkpoint, f))
      && s.state.mission.checkpoint
         == CheckpointFromSnapshot(env.boundary, d.state, d.latestEventDigest, d.digest).checkpoint
  {
    DeliveredRun(env, Input(SseFrame, SnapshotName, None, raw));
  }

  /** A new session that is disposed while a frame is folded and then shown as connected. */
  lemma DisposedFromStart(env: Environment, raw: Text, d: SnapshotDocument, frame: Text, f: FrameDocument)
    requires env.snapshot(raw) == Valid(d) && Anchors(env, d) && d.currentRun == None && env.frame(frame) == Valid(f)
    requires var c := CheckpointFromSnapshot(env.boundary, d.state, d.latestEventDigest, d.digest).checkpoint;
      FoldVerified(env.boundary, c, f.event, f.digest).Accepted?
    ensures var s := Resume(env, SessionModel.Run(env, Initial(),
        Delivered(Input(SseFrame, SnapshotName, None, raw))), true);
      var t := StartNext(env, Enqueue(s, 1, Input(SseFrame, EventName, None, frame)));
      Resume(env, Dispose(t), true).disposed && Resume(env, Dispose(t), true).state.server.status == Live
  {
    FrameFlies(env, raw, d, frame, f);
    var s := Resume(env, SessionModel.Run(env, Initial(), Delivered(Input(SseFrame, SnapshotName, None, raw))), true);
    var t := StartNext(env, Enqueue(s, 1, Input(SseFrame, EventName, None, frame)));
    DisposedShownConnected(env, t, t.flight.task, s.state.mission.checkpoint, f);
  }

  /** A new session on which an expectation made while the first snapshot is anchored is forgotten. */
  lemma OvertakenFromStart(env: Environment, raw: Text, d: SnapshotDocument, missionId: Identifier, runId: Identifier)
    requires env.snapshot(raw) == Valid(d) && Anchors(env, d) && d.currentRun == None
    ensures var s := SessionModel.Run(env, Initial(), Delivered(Input(SseFrame, SnapshotName, None, raw)));
      !KeptAfter(env, ExpectLiveRun(s, missionId, runId), [DoResume(true)], (missionId, runId))
  {
    SnapshotFlies(env, raw, d);
    var s := SessionModel.Run(env, Initial(), Delivered(Input(SseFrame, SnapshotName, None, raw)));
    OvertakenExpectation(env, ExpectLiveRun(s, missionId, runId), (missionId, runId));
  }

  /** A new session on which a runtime anchored while the first snapshot is anchored is replaced. */
  lemma ReplacedFromStart(env: Environment, raw: Text, d: SnapshotDocument, runtimeId: Identifier)
    requires env.snapshot(raw) == Valid(d) && Anchors(env, d) && d.currentRun == None && d.runtimeId != runtimeId
    ensures var s := SessionModel.Run(env, Initial(), Delivered(Input(SseFrame, SnapshotName, None, raw)));
      && AnchorRuntime(s, runtimeId).state.server.runtimeId == Some(runtimeId)
      && Resume(env, AnchorRuntime(s, runtimeId), true).state.server.runtimeId == Some(d.runtimeId)
  {
    SnapshotFlies(env, raw, d);
    var s := SessionModel.Run(env, Initial(), Delivered(Input(SseFrame, SnapshotName, None, raw)));
    RuntimeReplaced(env, s, DoAnchorRuntime(runtimeId));
  }
}
