/** The dashboard source session (apps/dashboard/src/sources/source-session.ts) as a state machine.

    Every `await` is a step boundary: an input runs up to its first await, then waits in flight, and whatever
    else the program does to the session may happen before it resumes. `source.open` is such a boundary too,
    since it may call back into the session. */
module SessionModel {
  import opened Options
  import opened Unicode
  import opened Reducer
  import opened Timeline

  // ---------------------------------------------------------------- documents and inputs

  datatype Mode = DegradedLive | ReplayMode

  datatype CurrentRun = LiveRun(missionId: Identifier, runId: Identifier) | ReplayRun(sessionId: Identifier) {
    function Mode(): Mode {
      if LiveRun? then DegradedLive else ReplayMode
    }
  }

  datatype SnapshotDocument = SnapshotDocument(
    runtimeId: Identifier, cursor: Text, digest: Text, latestEventDigest: Option<Text>,
    currentRun: Option<CurrentRun>, state: State, timeline: seq<OrderedEvent>)

  datatype FrameDocument = FrameDocument(cursor: Text, digest: Text, event: OrderedEvent)

  datatype Signal = Connecting | Disconnected | WentOffline | Recovered

  datatype Channel = SourceSignal | SseFrame | OtherChannel

  datatype Name = SnapshotName | EventName | OverloadName | SignalName(signal: Signal) | OtherName(text: Text)

  datatype Input = Input(channel: Channel, name: Name, lastEventId: Option<Text>, raw: Text)

  datatype Decoding<+T> = Valid(document: T) | MalformedJson | ProfileRefused | SchemaRefused

  /** Decoding and schema validation of each kind of input, and whether unhandled channels have a consumer. */
  datatype Environment = Environment(
    boundary: Boundary,
    snapshot: Text -> Decoding<SnapshotDocument>,
    frame: Text -> Decoding<FrameDocument>,
    overload: Text -> Decoding<()>,
    signal: Text -> Decoding<Signal>,
    consumesUnhandled: bool)

  // ---------------------------------------------------------------- session state

  datatype Status =
    | Idle | Signalled(signal: Signal) | Live | RuntimeChanged | ModeMismatch | Resynchronizing | Disposed

  datatype SourceRefusal =
    | CursorWitnessMismatch | Malformed | OutsideProfile | UnknownFrame | SignalNameMismatch | UnsupportedChannel
    | ProcessingFailed | ResnapshotFailed | RunIdentityMismatch | SchemaValidationFailed
    | ReducerRefused(code: Refusal) | RunModeMismatch(expected: Mode, actual: Mode)

  datatype MissionSide = MissionSide(checkpoint: Checkpoint, timeline: seq<OrderedEvent>)

  datatype ServerSide = ServerSide(
    currentRun: Option<CurrentRun>, refusal: Option<SourceRefusal>, runtimeId: Option<Identifier>, status: Status)

  datatype SessionState = SessionState(mission: MissionSide, server: ServerSide)

  /** An enqueued input, numbered in enqueue order and stamped with its source's generation. */
  datatype Task = Task(id: nat, generation: nat, input: Input)

  /** What an input in flight waits for. A frame holds the checkpoint it read before waiting. */
  datatype Waiting =
    | Anchoring(document: SnapshotDocument)
    | Folding(from: Checkpoint, frame: FrameDocument)
    | Consuming
    | Resyncing

  datatype Flight = Grounded | Flying(task: Task, waiting: Waiting)

  datatype Publisher = ByInput(task: Task) | ByCall

  datatype Publication = Publication(author: Publisher, state: SessionState)

  /** `live` holds the subscriptions not yet disposed; a subscription is named by its generation. `opening`
      holds the generations whose `source.open` has not returned. */
  datatype Session = Session(
    state: SessionState, disposed: bool,
    expectedLiveRun: Option<(Identifier, Identifier)>, expectedRunMode: Option<Mode>,
    generation: nat, active: Option<nat>, live: set<nat>, opening: set<nat>,
    nextId: nat, queue: seq<Task>, flight: Flight, published: seq<Publication>)

  function InitialState(): SessionState {
    SessionState(MissionSide(EmptyCheckpoint(), []), ServerSide(None, None, None, Idle))
  }

  function Initial(): Session {
    Session(InitialState(), false, None, None, 0, None, {}, {}, 0, [], Grounded, [])
  }

  // ---------------------------------------------------------------- publishing

  function Publish(s: Session, author: Publisher, state: SessionState): Session {
    s.(state := state, published := s.published + [Publication(author, state)])
  }

  function PublishServer(s: Session, author: Publisher, server: ServerSide): Session {
    Publish(s, author, SessionState(s.state.mission, server))
  }

  function Refuse(s: Session, author: Publisher, refusal: SourceRefusal): Session {
    PublishServer(s, author, s.state.server.(refusal := Some(refusal)))
  }

  function CloseActive(s: Session): Session {
    s.(active := None, live := if s.active.Some? then s.live - {s.active.value} else s.live)
  }

  function LockRuntimeChange(s: Session, author: Publisher): Session {
    PublishServer(CloseActive(s.(generation := s.generation + 1)), author,
                  s.state.server.(refusal := None, status := RuntimeChanged))
  }

  // ---------------------------------------------------------------- calls on the session

  function AnchorRuntime(s: Session, runtimeId: Identifier): Session {
    if s.state.server.runtimeId.Some? && s.state.server.runtimeId.value != runtimeId then LockRuntimeChange(s, ByCall)
    else PublishServer(s, ByCall, s.state.server.(runtimeId := Some(runtimeId)))
  }

  function ExpectLiveRun(s: Session, missionId: Identifier, runId: Identifier): Session {
    if s.disposed then s else s.(expectedLiveRun := Some((missionId, runId)))
  }

  predicate ReplayResumable(s: Session, sessionId: Identifier) {
    && !s.disposed && s.state.server.status == ModeMismatch
    && s.state.server.currentRun == Some(ReplayRun(sessionId))
  }

  function AcceptReplayResume(s: Session, sessionId: Identifier): Session {
    if !ReplayResumable(s, sessionId) then s
    else PublishServer(s, ByCall, s.state.server.(refusal := None, status := Live))
  }

  /** `replaceSource` up to the call of `source.open`; it throws on a disposed session. */
  function BeginReplace(s: Session, mode: Option<Mode>): Session {
    if s.disposed then s
    else
      var t := CloseActive(s.(generation := s.generation + 1));
      t.(expectedRunMode := mode, live := t.live + {t.generation}, opening := t.opening + {t.generation})
  }

  /** `replaceSource` after `source.open` has returned the subscription of that generation. */
  function FinishReplace(s: Session, generation: nat): Session {
    if generation !in s.opening then s
    else if s.generation == generation then s.(opening := s.opening - {generation}, active := Some(generation))
    else s.(opening := s.opening - {generation}, live := s.live - {generation})
  }

  function Dispose(s: Session): Session {
    if s.disposed then s
    else
      var t := CloseActive(s.(disposed := true, generation := s.generation + 1));
      PublishServer(t, ByCall, t.state.server.(status := Disposed))
  }

  function Enqueue(s: Session, generation: nat, input: Input): Session {
    s.(queue := s.queue + [Task(s.nextId, generation, input)], nextId := s.nextId + 1)
  }

  // ---------------------------------------------------------------- processing, up to the first await

  function DecodingRefusal<T>(d: Decoding<T>): SourceRefusal
    requires !d.Valid?
  {
    match d
    case MalformedJson => Malformed
    case ProfileRefused => OutsideProfile
    case SchemaRefused => SchemaValidationFailed
  }

  predicate CursorAgrees(input: Input, cursor: Text) {
    input.lastEventId == None || input.lastEventId.value == cursor
  }

  predicate RunConfirms(run: Option<CurrentRun>, expected: (Identifier, Identifier)) {
    run == Some(LiveRun(expected.0, expected.1))
  }

  predicate RunIdentityAccepted(s: Session, document: SnapshotDocument) {
    && (document.currentRun.Some? && document.currentRun.value.LiveRun? ==>
          && document.state.currentMission.Some?
          && document.state.currentMission.value.identifier == document.currentRun.value.missionId)
    && (s.expectedLiveRun.Some? ==> RunConfirms(document.currentRun, s.expectedLiveRun.value))
  }

  function ProcessSnapshot(env: Environment, s: Session, task: Task): Session {
    match env.snapshot(task.input.raw)
    case Valid(d) =>
      if !CursorAgrees(task.input, d.cursor) then Refuse(s, ByInput(task), CursorWitnessMismatch)
      else if s.state.server.runtimeId.Some? && d.runtimeId != s.state.server.runtimeId.value
      then LockRuntimeChange(s, ByInput(task))
      else if s.expectedRunMode.Some? && d.currentRun.Some? && d.currentRun.value.Mode() != s.expectedRunMode.value
      then
        PublishServer(s, ByInput(task), ServerSide(d.currentRun,
          Some(RunModeMismatch(s.expectedRunMode.value, d.currentRun.value.Mode())), Some(d.runtimeId), ModeMismatch))
      else if !RunIdentityAccepted(s, d) then Refuse(s, ByInput(task), RunIdentityMismatch)
      else s.(flight := Flying(task, Anchoring(d)))
    case bad => Refuse(s, ByInput(task), DecodingRefusal(bad))
  }

  function ProcessEventFrame(env: Environment, s: Session, task: Task): Session {
    match env.frame(task.input.raw)
    case Valid(d) =>
      if !CursorAgrees(task.input, d.cursor) then Refuse(s, ByInput(task), CursorWitnessMismatch)
      else if s.state.server.status == ModeMismatch then s
      else s.(flight := Flying(task, Folding(s.state.mission.checkpoint, d)))
    case bad => Refuse(s, ByInput(task), DecodingRefusal(bad))
  }

  function ProcessSourceSignal(env: Environment, s: Session, task: Task): Session {
    match env.signal(task.input.raw)
    case Valid(signal) =>
      if task.input.name != SignalName(signal) then Refuse(s, ByInput(task), SignalNameMismatch)
      else if s.state.server.status == ModeMismatch then s
      else PublishServer(s, ByInput(task), s.state.server.(refusal := None, status := Signalled(signal)))
    case bad => Refuse(s, ByInput(task), DecodingRefusal(bad))
  }

  function ProcessOverload(env: Environment, s: Session, task: Task): Session {
    match env.overload(task.input.raw)
    case Valid(_) =>
      if task.generation != s.generation then s
      else
        PublishServer(CloseActive(s.(generation := s.generation + 1)), ByInput(task),
                      s.state.server.(refusal := None, status := Resynchronizing))
        .(flight := Flying(task, Resyncing))
    case bad => Refuse(s, ByInput(task), DecodingRefusal(bad))
  }

  function ProcessInput(env: Environment, s: Session, task: Task): Session {
    match task.input.channel
    case SourceSignal => ProcessSourceSignal(env, s, task)
    case OtherChannel =>
      if env.consumesUnhandled then s.(flight := Flying(task, Consuming))
      else Refuse(s, ByInput(task), UnsupportedChannel)
    case SseFrame =>
      match task.input.name
      case SnapshotName => ProcessSnapshot(env, s, task)
      case EventName => ProcessEventFrame(env, s, task)
      case OverloadName => ProcessOverload(env, s, task)
      case _ => Refuse(s, ByInput(task), UnknownFrame)
  }

  /** The next queued input starts once nothing is in flight; a stale one is dropped. */
  function StartNext(env: Environment, s: Session): Session {
    if s.flight.Flying? || s.queue == [] then s
    else
      var task := s.queue[0];
      var t := s.(queue := s.queue[1..]);
      if t.disposed || task.generation != t.generation then t else ProcessInput(env, t, task)
  }

  // ---------------------------------------------------------------- processing, after the await

  /** The catch handler of the queue. */
  function ProcessingFailure(s: Session, task: Task): Session {
    if !s.disposed && task.generation == s.generation then Refuse(s, ByInput(task), ProcessingFailed) else s
  }

  function ResumeAnchoring(env: Environment, s: Session, task: Task, d: SnapshotDocument): Session {
    match CheckpointFromSnapshot(env.boundary, d.state, d.latestEventDigest, d.digest)
    case AnchorRefused(code) => Refuse(s, ByInput(task), ReducerRefused(code))
    case Anchor(checkpoint) =>
      Publish(s.(expectedLiveRun := None), ByInput(task), SessionState(
        MissionSide(checkpoint, ReplaceTimeline(d.timeline)), ServerSide(d.currentRun, None, Some(d.runtimeId), Live)))
  }

  function ResumeFolding(env: Environment, s: Session, task: Task, from: Checkpoint, d: FrameDocument): Session {
    match FoldVerified(env.boundary, from, d.event, d.digest)
    case Refused(code, _) => Refuse(s, ByInput(task), ReducerRefused(code))
    case Accepted(_, checkpoint) =>
      Publish(s, ByInput(task), SessionState(
        MissionSide(checkpoint, AppendEvent(s.state.mission.timeline, d.event)),
        s.state.server.(refusal := None, status := Live)))
  }

  /** The awaited promise settles; `fulfilled` is false when it rejects. */
  function Resume(env: Environment, s: Session, fulfilled: bool): Session {
    match s.flight
    case Grounded => s
    case Flying(task, waiting) =>
      var t := s.(flight := Grounded);
      match waiting
      case Consuming => if fulfilled then t else ProcessingFailure(t, task)
      case Resyncing => if fulfilled then t else Refuse(t, ByInput(task), ResnapshotFailed)
      case Anchoring(d) => if fulfilled then ResumeAnchoring(env, t, task, d) else ProcessingFailure(t, task)
      case Folding(from, d) => if fulfilled then ResumeFolding(env, t, task, from, d) else ProcessingFailure(t, task)
  }

  // ---------------------------------------------------------------- runs

  datatype Action =
    | DoAnchorRuntime(runtimeId: Identifier)
    | DoExpectLiveRun(missionId: Identifier, runId: Identifier)
    | DoAcceptReplayResume(sessionId: Identifier)
    | DoBeginReplace(mode: Option<Mode>)
    | DoFinishReplace(generation: nat)
    | DoDispose
    | DoEnqueue(source: nat, input: Input)
    | DoStart
    | DoResume(fulfilled: bool)

  function Step(env: Environment, s: Session, a: Action): Session {
    match a
    case DoAnchorRuntime(runtimeId) => AnchorRuntime(s, runtimeId)
    case DoExpectLiveRun(missionId, runId) => ExpectLiveRun(s, missionId, runId)
    case DoAcceptReplayResume(sessionId) => AcceptReplayResume(s, sessionId)
    case DoBeginReplace(mode) => BeginReplace(s, mode)
    case DoFinishReplace(generation) => FinishReplace(s, generation)
    case DoDispose => Dispose(s)
    case DoEnqueue(source, input) => Enqueue(s, source, input)
    case DoStart => StartNext(env, s)
    case DoResume(fulfilled) => Resume(env, s, fulfilled)
  }

  function Run(env: Environment, s: Session, actions: seq<Action>): Session
    decreases |actions|
  {
    if actions == [] then s else Run(env, Step(env, s, actions[0]), actions[1..])
  }
}
