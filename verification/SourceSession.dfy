/** `DashboardSourceSession` as the source has it: one object whose methods update its fields. The promise
    chain `processing` is held as the queue of inputs still to start and the one in flight; the part of an
    input after its await is `Settle`. Each method is the corresponding step of `SessionModel`, and each call
    from outside keeps what every step keeps. */
module SourceSession {
  import opened Options
  import opened Reducer
  import opened Timeline
  import M = SessionModel
  import opened SessionProperties
  import opened SessionGuards

  class DashboardSourceSession {
    const env: M.Environment
    var currentState: M.SessionState
    var disposed: bool
    var expectedLiveRun: Option<(Identifier, Identifier)>
    var expectedRunMode: Option<M.Mode>
    var generation: nat
    var activeSubscription: Option<nat>
    var liveSubscriptions: set<nat>
    var openingSources: set<nat>
    var nextTask: nat
    var queued: seq<M.Task>
    var inFlight: M.Flight
    var observed: seq<M.Publication>  // what `onState` was called with

    ghost function Model(): M.Session
      reads this
    {
      M.Session(currentState, disposed, expectedLiveRun, expectedRunMode, generation, activeSubscription,
                liveSubscriptions, openingSources, nextTask, queued, inFlight, observed)
    }

    /** The object is where some run of a new session ends. */
    ghost predicate Valid()
      reads this
    {
      Reachable(env, Model())
    }

    /** So publications follow from one another and in enqueue order, a frame in flight folds from the current
        checkpoint, and one subscription is alive. */
    lemma ValidKeeps()
      requires Valid()
      ensures Consistent(env, Model()) && Ordered(Model()) && Subscribed(Model())
    {
      ReachableIsGuarded(env, Model());
    }

    constructor (env: M.Environment)
      ensures Model() == M.Initial() && this.env == env && Valid()
    {
      this.env := env;
      currentState := M.InitialState();
      disposed, expectedLiveRun, expectedRunMode := false, None, None;
      generation, activeSubscription, liveSubscriptions, openingSources := 0, None, {}, {};
      nextTask, queued, inFlight, observed := 0, [], M.Grounded, [];
      InitialReachable(env);
    }

    method Publish(author: M.Publisher, state: M.SessionState)
      modifies this
      ensures Model() == M.Publish(old(Model()), author, state)
    {
      currentState := state;
      observed := observed + [M.Publication(author, state)];
    }

    method Refuse(author: M.Publisher, refusal: M.SourceRefusal)
      modifies this
      ensures Model() == M.Refuse(old(Model()), author, refusal)
    {
      Publish(author, M.SessionState(currentState.mission, currentState.server.(refusal := Some(refusal))));
    }

    method CloseActiveSubscription()
      modifies this
      ensures Model() == M.CloseActive(old(Model()))
    {
      var subscription := activeSubscription;
      activeSubscription := None;
      if subscription.Some? {
        liveSubscriptions := liveSubscriptions - {subscription.value};
      }
    }

    method LockRuntimeChange(author: M.Publisher)
      modifies this
      ensures Model() == M.LockRuntimeChange(old(Model()), author)
    {
      generation := generation + 1;
      CloseActiveSubscription();
      Publish(author, M.SessionState(currentState.mission,
                                     currentState.server.(refusal := None, status := M.RuntimeChanged)));
    }

    method AnchorRuntime(runtimeId: Identifier)
      requires Valid()
      modifies this
      ensures Model() == M.AnchorRuntime(old(Model()), runtimeId)
      ensures Valid()
    {
      StepReachable(env, Model(), M.DoAnchorRuntime(runtimeId));
      var acceptedRuntime := currentState.server.runtimeId;
      if acceptedRuntime.Some? && acceptedRuntime.value != runtimeId {
        LockRuntimeChange(M.ByCall);
        return;
      }
      Publish(M.ByCall, M.SessionState(currentState.mission, currentState.server.(runtimeId := Some(runtimeId))));
    }

    method ExpectLiveRun(missionId: Identifier, runId: Identifier)
      requires Valid()
      modifies this
      ensures Model() == M.ExpectLiveRun(old(Model()), missionId, runId)
      ensures Valid()
    {
      StepReachable(env, Model(), M.DoExpectLiveRun(missionId, runId));
      if !disposed {
        expectedLiveRun := Some((missionId, runId));
      }
    }

    method AcceptReplayResume(sessionId: Identifier) returns (resumed: bool)
      requires Valid()
      modifies this
      ensures Model() == M.AcceptReplayResume(old(Model()), sessionId)
      ensures resumed <==> M.ReplayResumable(old(Model()), sessionId)
      ensures Valid()
    {
      StepReachable(env, Model(), M.DoAcceptReplayResume(sessionId));
      var run := currentState.server.currentRun;
      if disposed || currentState.server.status != M.ModeMismatch || run == None || !run.value.ReplayRun?
         || run.value.sessionId != sessionId {
        return false;
      }
      Publish(M.ByCall, M.SessionState(currentState.mission, currentState.server.(refusal := None, status := M.Live)));
      return true;
    }

    /** Up to and including the call of `source.open`; `begun` is false where the source throws. */
    method BeginReplaceSource(mode: Option<M.Mode>) returns (begun: bool)
      requires Valid()
      modifies this
      ensures Model() == M.BeginReplace(old(Model()), mode)
      ensures begun <==> !old(disposed)
      ensures Valid()
    {
      StepReachable(env, Model(), M.DoBeginReplace(mode));
      if disposed {
        return false;
      }
      generation := generation + 1;
      CloseActiveSubscription();
      expectedRunMode := mode;
      liveSubscriptions := liveSubscriptions + {generation};
      openingSources := openingSources + {generation};
      return true;
    }

    /** After `source.open` returned the subscription of `sourceGeneration`. */
    method FinishReplaceSource(sourceGeneration: nat)
      requires Valid() && sourceGeneration in openingSources
      modifies this
      ensures Model() == M.FinishReplace(old(Model()), sourceGeneration)
      ensures Valid()
    {
      StepReachable(env, Model(), M.DoFinishReplace(sourceGeneration));
      openingSources := openingSources - {sourceGeneration};
      if generation == sourceGeneration {
        activeSubscription := Some(sourceGeneration);
      } else {
        liveSubscriptions := liveSubscriptions - {sourceGeneration};
      }
    }

    method Dispose()
      requires Valid()
      modifies this
      ensures Model() == M.Dispose(old(Model()))
      ensures Valid()
    {
      StepReachable(env, Model(), M.DoDispose);
      if disposed {
        return;
      }
      disposed := true;
      generation := generation + 1;
      CloseActiveSubscription();
      Publish(M.ByCall, M.SessionState(currentState.mission, currentState.server.(status := M.Disposed)));
    }

    method Enqueue(sourceGeneration: nat, input: M.Input)
      requires Valid()
      modifies this
      ensures Model() == M.Enqueue(old(Model()), sourceGeneration, input)
      ensures Valid()
    {
      StepReachable(env, Model(), M.DoEnqueue(sourceGeneration, input));
      queued := queued + [M.Task(nextTask, sourceGeneration, input)];
      nextTask := nextTask + 1;
    }

    method StartNext()
      requires Valid()
      modifies this
      ensures Model() == M.StartNext(env, old(Model()))
      ensures Valid()
    {
      StepReachable(env, Model(), M.DoStart);
      if inFlight.Flying? || queued == [] {
        return;
      }
      var task := queued[0];
      queued := queued[1..];
      if !disposed && task.generation == generation {
        ProcessInput(task);
      }
    }

    method ProcessInput(task: M.Task)
      modifies this
      ensures Model() == M.ProcessInput(env, old(Model()), task)
    {
      if task.input.channel == M.SourceSignal {
        ProcessSourceSignal(task);
      } else if task.input.channel == M.OtherChannel {
        if env.consumesUnhandled {
          inFlight := M.Flying(task, M.Consuming);
        } else {
          Refuse(M.ByInput(task), M.UnsupportedChannel);
        }
      } else if task.input.name == M.SnapshotName {
        ProcessSnapshot(task);
      } else if task.input.name == M.EventName {
        ProcessEventFrame(task);
      } else if task.input.name == M.OverloadName {
        ProcessOverload(task);
      } else {
        Refuse(M.ByInput(task), M.UnknownFrame);
      }
    }

    method ProcessSnapshot(task: M.Task)
      modifies this
      ensures Model() == M.ProcessSnapshot(env, old(Model()), task)
    {
      var validated := env.snapshot(task.input.raw);
      if !validated.Valid? {
        Refuse(M.ByInput(task), M.DecodingRefusal(validated));
        return;
      }
      var d := validated.document;
      var acceptedRuntime := currentState.server.runtimeId;
      if !M.CursorAgrees(task.input, d.cursor) {
        Refuse(M.ByInput(task), M.CursorWitnessMismatch);
        return;
      }
      if acceptedRuntime.Some? && d.runtimeId != acceptedRuntime.value {
        LockRuntimeChange(M.ByInput(task));
        return;
      }
      if expectedRunMode.Some? && d.currentRun.Some? && d.currentRun.value.Mode() != expectedRunMode.value {
        var mismatch := M.RunModeMismatch(expectedRunMode.value, d.currentRun.value.Mode());
        Publish(M.ByInput(task), M.SessionState(currentState.mission,
          M.ServerSide(d.currentRun, Some(mismatch), Some(d.runtimeId), M.ModeMismatch)));
        return;
      }
      var accepted := AcceptRunIdentity(task, d);
      if accepted {
        inFlight := M.Flying(task, M.Anchoring(d));
      }
    }

    method AcceptRunIdentity(task: M.Task, d: M.SnapshotDocument) returns (accepted: bool)
      modifies this
      ensures accepted <==> M.RunIdentityAccepted(old(Model()), d)
      ensures Model() == if accepted then old(Model())
          else M.Refuse(old(Model()), M.ByInput(task), M.RunIdentityMismatch)
    {
      var run := d.currentRun;
      if run.Some? && run.value.LiveRun?
         && (d.state.currentMission == None || d.state.currentMission.value.identifier != run.value.missionId) {
        Refuse(M.ByInput(task), M.RunIdentityMismatch);
        return false;
      }
      if expectedLiveRun.Some?
         && (run == None || !run.value.LiveRun? || run.value.missionId != expectedLiveRun.value.0
             || run.value.runId != expectedLiveRun.value.1) {
        Refuse(M.ByInput(task), M.RunIdentityMismatch);
        return false;
      }
      return true;
    }

    method ProcessEventFrame(task: M.Task)
      modifies this
      ensures Model() == M.ProcessEventFrame(env, old(Model()), task)
    {
      var validated := env.frame(task.input.raw);
      if !validated.Valid? {
        Refuse(M.ByInput(task), M.DecodingRefusal(validated));
        return;
      }
      if !M.CursorAgrees(task.input, validated.document.cursor) {
        Refuse(M.ByInput(task), M.CursorWitnessMismatch);
        return;
      }
      if currentState.server.status == M.ModeMismatch {
        return;
      }
      inFlight := M.Flying(task, M.Folding(currentState.mission.checkpoint, validated.document));
    }

    method ProcessSourceSignal(task: M.Task)
      modifies this
      ensures Model() == M.ProcessSourceSignal(env, old(Model()), task)
    {
      var validated := env.signal(task.input.raw);
      if !validated.Valid? {
        Refuse(M.ByInput(task), M.DecodingRefusal(validated));
        return;
      }
      if task.input.name != M.SignalName(validated.document) {
        Refuse(M.ByInput(task), M.SignalNameMismatch);
        return;
      }
      if currentState.server.status == M.ModeMismatch {
        return;
      }
      Publish(M.ByInput(task), M.SessionState(currentState.mission,
        currentState.server.(refusal := None, status := M.Signalled(validated.document))));
    }

    method ProcessOverload(task: M.Task)
      modifies this
      ensures Model() == M.ProcessOverload(env, old(Model()), task)
    {
      var validated := env.overload(task.input.raw);
      if !validated.Valid? {
        Refuse(M.ByInput(task), M.DecodingRefusal(validated));
        return;
      }
      if task.generation != generation {
        return;
      }
      generation := generation + 1;
      CloseActiveSubscription();
      Publish(M.ByInput(task), M.SessionState(currentState.mission,
        currentState.server.(refusal := None, status := M.Resynchronizing)));
      inFlight := M.Flying(task, M.Resyncing);
    }

    /** The awaited promise of the input in flight settles. */
    method Settle(fulfilled: bool)
      requires Valid()
      modifies this
      ensures Model() == M.Resume(env, old(Model()), fulfilled)
      ensures Valid()
    {
      StepReachable(env, Model(), M.DoResume(fulfilled));
      if inFlight == M.Grounded {
        return;
      }
      var task, waiting := inFlight.task, inFlight.waiting;
      inFlight := M.Grounded;
      if waiting == M.Resyncing {
        if !fulfilled {
          Refuse(M.ByInput(task), M.ResnapshotFailed);
        }
      } else if !fulfilled {
        if !disposed && task.generation == generation {
          Refuse(M.ByInput(task), M.ProcessingFailed);
        }
      } else if waiting.Anchoring? {
        FinishSnapshot(task, waiting.document);
      } else if waiting.Folding? {
        FinishEventFrame(task, waiting.from, waiting.frame);
      }
    }

    method FinishSnapshot(task: M.Task, d: M.SnapshotDocument)
      modifies this
      ensures Model() == M.ResumeAnchoring(env, old(Model()), task, d)
    {
      var anchored := CheckpointFromSnapshot(env.boundary, d.state, d.latestEventDigest, d.digest);
      if anchored.AnchorRefused? {
        Refuse(M.ByInput(task), M.ReducerRefused(anchored.code));
        return;
      }
      expectedLiveRun := None;
      Publish(M.ByInput(task), M.SessionState(
        M.MissionSide(anchored.checkpoint, ReplaceTimeline(d.timeline)),
        M.ServerSide(d.currentRun, None, Some(d.runtimeId), M.Live)));
    }

    method FinishEventFrame(task: M.Task, from: Checkpoint, d: M.FrameDocument)
      modifies this
      ensures Model() == M.ResumeFolding(env, old(Model()), task, from, d)
    {
      var folded := FoldVerified(env.boundary, from, d.event, d.digest);
      if folded.Refused? {
        Refuse(M.ByInput(task), M.ReducerRefused(folded.code));
        return;
      }
      Publish(M.ByInput(task), M.SessionState(
        M.MissionSide(folded.checkpoint, AppendEvent(currentState.mission.timeline, d.event)),
        currentState.server.(refusal := None, status := M.Live)));
    }
  }
}
