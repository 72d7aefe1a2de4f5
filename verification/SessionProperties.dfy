/** What every interleaving of a dashboard source session keeps. */
module SessionProperties {
  import opened Unicode
  import opened Reducer
  import opened Timeline
  import opened SessionModel

  // ---------------------------------------------------------------- no lost update

  /** An input in flight still carries what it decoded, and a frame in flight still folds from the checkpoint
      the session currently holds. */
  ghost predicate FlightCurrent(env: Environment, s: Session) {
    match s.flight
    case Grounded => true
    case Flying(task, Anchoring(d)) => env.snapshot(task.input.raw) == Valid(d)
    case Flying(task, Folding(from, d)) =>
      env.frame(task.input.raw) == Valid(d) && from == s.state.mission.checkpoint
    case _ => true
  }

  /** The mission a publication shows, given what was shown before it: unchanged, or the anchor of the
      author's snapshot, or the verified fold of the author's frame onto the mission shown before. With a
      refusal it is always unchanged. */
  ghost predicate Justified(env: Environment, before: MissionSide, p: Publication) {
    var after := p.state.mission;
    && (p.state.server.refusal.Some? ==> after == before)
    && (|| after == before
        || (p.author.ByInput? && AnchorsFrom(env, p.author.task.input.raw, after))
        || (p.author.ByInput? && FoldsFrom(env, p.author.task.input.raw, before, after)))
  }

  ghost predicate AnchorsFrom(env: Environment, raw: Text, after: MissionSide) {
    && env.snapshot(raw).Valid?
    && var d := env.snapshot(raw).document;
       CheckpointFromSnapshot(env.boundary, d.state, d.latestEventDigest, d.digest) == Anchor(after.checkpoint)
       && after.timeline == ReplaceTimeline(d.timeline)
  }

  ghost predicate FoldsFrom(env: Environment, raw: Text, before: MissionSide, after: MissionSide) {
    && env.frame(raw).Valid?
    && var d := env.frame(raw).document;
       var f := FoldVerified(env.boundary, before.checkpoint, d.event, d.digest);
       f.Accepted? && after.checkpoint == f.checkpoint && after.timeline == AppendEvent(before.timeline, d.event)
  }

  ghost function ShownBefore(log: seq<Publication>, i: nat): MissionSide
    requires i <= |log|
  {
    if i == 0 then InitialState().mission else log[i - 1].state.mission
  }

  /** Every publication follows from what was shown just before it. */
  ghost predicate History(env: Environment, log: seq<Publication>) {
    log == [] ||
    (var n := |log| - 1; History(env, log[..n]) && Justified(env, ShownBefore(log[..n], n), log[n]))
  }

  ghost predicate Consistent(env: Environment, s: Session) {
    && FlightCurrent(env, s)
    && History(env, s.published)
    && s.state.mission == ShownBefore(s.published, |s.published|)
  }

  ghost predicate AddsOne<T>(before: seq<T>, after: seq<T>) {
    |after| == |before| + 1 && after == before + [after[|before|]]
  }

  /** One step adds at most one publication, and that one follows from what was shown before. */
  ghost predicate Extends(env: Environment, s: Session, t: Session) {
    || (t.published == s.published && t.state == s.state)
    || (&& AddsOne(s.published, t.published)
        && t.state == t.published[|s.published|].state
        && Justified(env, s.state.mission, t.published[|s.published|]))
  }

  lemma HistoryGrows(env: Environment, log: seq<Publication>, p: Publication)
    requires History(env, log) && Justified(env, ShownBefore(log, |log|), p)
    ensures History(env, log + [p]) && ShownBefore(log + [p], |log| + 1) == p.state.mission
  {
    var grown := log + [p];
    assert grown[..|grown| - 1] == log;
  }

  lemma ExtendsConsistent(env: Environment, s: Session, t: Session)
    requires Consistent(env, s) && Extends(env, s, t) && FlightCurrent(env, t)
    ensures Consistent(env, t)
  {
    if t.published != s.published {
      HistoryGrows(env, s.published, t.published[|s.published|]);
    }
  }

  /** What the part of an input before its first await can do: publish once without touching the mission,
      and go into flight. */
  ghost predicate Starts(env: Environment, s: Session, t: Session, task: Task) {
    && t.queue == s.queue && t.nextId == s.nextId && t.disposed == s.disposed && s.generation <= t.generation
    && (|| (t.published == s.published && t.state == s.state)
        || (&& AddsOne(s.published, t.published)
            && t.published[|s.published|] == Publication(ByInput(task), t.state)
            && t.state.mission == s.state.mission))
    && (t.flight == s.flight || (t.flight.Flying? && t.flight.task == task && FlightCurrent(env, t)))
  }

  lemma RefuseStarts(env: Environment, s: Session, task: Task, refusal: SourceRefusal)
    ensures Starts(env, s, Refuse(s, ByInput(task), refusal), task)
  {
  }

  lemma SnapshotStarts(env: Environment, s: Session, task: Task)
    ensures Starts(env, s, ProcessSnapshot(env, s, task), task)
  {
  }

  lemma FrameStarts(env: Environment, s: Session, task: Task)
    ensures Starts(env, s, ProcessEventFrame(env, s, task), task)
  {
  }

  lemma SignalStarts(env: Environment, s: Session, task: Task)
    ensures Starts(env, s, ProcessSourceSignal(env, s, task), task)
  {
  }

  lemma OverloadStarts(env: Environment, s: Session, task: Task)
    ensures Starts(env, s, ProcessOverload(env, s, task), task)
  {
  }

  lemma InputStarts(env: Environment, s: Session, task: Task)
    ensures Starts(env, s, ProcessInput(env, s, task), task)
  {
    SnapshotStarts(env, s, task);
    FrameStarts(env, s, task);
    SignalStarts(env, s, task);
    OverloadStarts(env, s, task);
    RefuseStarts(env, s, task, UnknownFrame);
    RefuseStarts(env, s, task, UnsupportedChannel);
  }

  /** A start takes the head of the queue; a stale head is dropped without a trace. */
  lemma StartTakes(env: Environment, s: Session)
    requires s.flight == Grounded && s.queue != []
    ensures var t := StartNext(env, s);
      var taken := s.(queue := s.queue[1..]);
      if s.disposed || s.queue[0].generation != s.generation then t == taken else Starts(env, taken, t, s.queue[0])
  {
    var taken := s.(queue := s.queue[1..]);
    InputStarts(env, taken, s.queue[0]);
  }

  lemma StartExtends(env: Environment, s: Session)
    requires FlightCurrent(env, s)
    ensures Extends(env, s, StartNext(env, s)) && FlightCurrent(env, StartNext(env, s))
  {
    if s.flight == Grounded && s.queue != [] {
      StartTakes(env, s);
    }
  }

  lemma ResumeExtends(env: Environment, s: Session, fulfilled: bool)
    requires FlightCurrent(env, s)
    ensures Extends(env, s, Resume(env, s, fulfilled)) && Resume(env, s, fulfilled).flight == Grounded
  {
    if s.flight.Flying? && fulfilled {
      var t := Resume(env, s, fulfilled);
      match s.flight.waiting
      case Anchoring(d) =>
        if |t.published| > |s.published| && t.state.mission != s.state.mission {
          assert AnchorsFrom(env, s.flight.task.input.raw, t.state.mission);
        }
      case Folding(from, d) =>
        if |t.published| > |s.published| && t.state.mission != s.state.mission {
          assert FoldsFrom(env, s.flight.task.input.raw, s.state.mission, t.state.mission);
        }
      case _ =>
    }
  }

  lemma CallExtends(env: Environment, s: Session, a: Action)
    requires FlightCurrent(env, s) && !a.DoStart? && !a.DoResume?
    ensures Extends(env, s, Step(env, s, a)) && FlightCurrent(env, Step(env, s, a))
  {
  }

  lemma StepConsistent(env: Environment, s: Session, a: Action)
    requires Consistent(env, s)
    ensures Consistent(env, Step(env, s, a)) && Extends(env, s, Step(env, s, a))
  {
    if a.DoStart? {
      StartExtends(env, s);
    } else if a.DoResume? {
      ResumeExtends(env, s, a.fulfilled);
    } else {
      CallExtends(env, s, a);
    }
    ExtendsConsistent(env, s, Step(env, s, a));
  }

  /** In every interleaving of inputs with source replacement, runtime anchoring, replay resumption and
      disposal, no update is lost: each published mission is the one published before it, or the anchor of
      the publishing snapshot, or the verified fold of the publishing frame onto the mission published
      before; and a refusal never changes it. */
  lemma {:induction false} NoLostUpdate(env: Environment, s: Session, actions: seq<Action>)
    requires Consistent(env, s)
    ensures Consistent(env, SessionModel.Run(env, s, actions))
    decreases |actions|
  {
    if actions != [] {
      StepConsistent(env, s, actions[0]);
      NoLostUpdate(env, Step(env, s, actions[0]), actions[1..]);
    }
  }

  lemma InitialConsistent(env: Environment)
    ensures Consistent(env, Initial())
  {
  }

  // ---------------------------------------------------------------- order

  ghost predicate InOrder(tasks: seq<Task>) {
    forall i, j :: 0 <= i < j < |tasks| ==> tasks[i].id < tasks[j].id
  }

  ghost predicate QueueOrdered(s: Session) {
    && InOrder(s.queue)
    && (forall i :: 0 <= i < |s.queue| ==> s.queue[i].id < s.nextId)
    && (s.flight.Flying? ==>
          s.flight.task.id < s.nextId && forall i :: 0 <= i < |s.queue| ==> s.flight.task.id < s.queue[i].id)
  }

  ghost predicate LogOrdered(log: seq<Publication>) {
    forall k, m :: 0 <= k < m < |log| && log[k].author.ByInput? && log[m].author.ByInput?
      ==> log[k].author.task.id <= log[m].author.task.id
  }

  /** A task number that is used up: everything queued comes after it, and nothing before it is in flight. */
  ghost predicate UsedUp(s: Session, id: nat) {
    && id < s.nextId
    && (s.flight.Flying? ==> id <= s.flight.task.id)
    && forall i :: 0 <= i < |s.queue| ==> id < s.queue[i].id
  }

  /** Inputs are published in enqueue order, behind them the one in flight, behind it the queue. */
  ghost predicate Ordered(s: Session) {
    && QueueOrdered(s)
    && LogOrdered(s.published)
    && forall k :: 0 <= k < |s.published| && s.published[k].author.ByInput?
         ==> UsedUp(s, s.published[k].author.task.id)
  }

  ghost predicate PublishesAs(before: seq<Publication>, after: seq<Publication>, author: Publisher) {
    || after == before
    || (AddsOne(before, after) && (after[|before|].author == ByCall || after[|before|].author == author))
  }

  /** Queue and numbering untouched; what is published comes from a call or from the input in flight. */
  ghost predicate StayStep(s: Session, t: Session) {
    && t.queue == s.queue && t.nextId == s.nextId
    && (t.flight == s.flight || t.flight == Grounded)
    && PublishesAs(s.published, t.published, if s.flight.Flying? then ByInput(s.flight.task) else ByCall)
  }

  /** The head of the queue is taken while nothing is in flight. */
  ghost predicate TakeStep(s: Session, t: Session) {
    && s.flight == Grounded && s.queue != [] && t.queue == s.queue[1..] && t.nextId == s.nextId
    && (t.flight == Grounded || t.flight.task == s.queue[0])
    && PublishesAs(s.published, t.published, ByInput(s.queue[0]))
  }

  ghost predicate EnqueueStep(s: Session, t: Session) {
    && AddsOne(s.queue, t.queue) && t.queue[|s.queue|].id == s.nextId && t.nextId == s.nextId + 1
    && t.flight == s.flight && t.published == s.published
  }

  lemma StepOrder(env: Environment, s: Session, a: Action)
    ensures var t := Step(env, s, a); StayStep(s, t) || TakeStep(s, t) || EnqueueStep(s, t)
  {
    if a.DoStart? {
      StartOrder(env, s);
    } else if a.DoResume? {
      ResumeOrder(env, s, a.fulfilled);
    } else if a.DoEnqueue? {
      assert EnqueueStep(s, Step(env, s, a));
    } else {
      assert StayStep(s, Step(env, s, a));
    }
  }

  lemma StartOrder(env: Environment, s: Session)
    ensures StayStep(s, StartNext(env, s)) || TakeStep(s, StartNext(env, s))
  {
    if s.flight == Grounded && s.queue != [] {
      StartTakes(env, s);
    }
  }

  lemma ResumeOrder(env: Environment, s: Session, fulfilled: bool)
    ensures StayStep(s, Resume(env, s, fulfilled))
  {
  }

  lemma PublishKeepsLogOrder(before: seq<Publication>, after: seq<Publication>, author: Publisher)
    requires LogOrdered(before) && PublishesAs(before, after, author)
    requires author.ByInput? ==>
      forall k :: 0 <= k < |before| && before[k].author.ByInput? ==> before[k].author.task.id <= author.task.id
    ensures LogOrdered(after)
  {
    assert forall k :: 0 <= k < |before| ==> after[k] == before[k];
  }

  lemma StayKept(s: Session, t: Session)
    requires Ordered(s) && StayStep(s, t)
    ensures Ordered(t)
  {
    var author := if s.flight.Flying? then ByInput(s.flight.task) else ByCall;
    PublishKeepsLogOrder(s.published, t.published, author);
    forall k | 0 <= k < |t.published| && t.published[k].author.ByInput?
      ensures UsedUp(t, t.published[k].author.task.id)
    {
      if k < |s.published| {
        assert t.published[k] == s.published[k];
        assert UsedUp(s, s.published[k].author.task.id);
      }
    }
  }

  lemma TakeKept(s: Session, t: Session)
    requires Ordered(s) && TakeStep(s, t)
    ensures Ordered(t)
  {
    forall k | 0 <= k < |s.published| && s.published[k].author.ByInput?
      ensures s.published[k].author.task.id <= s.queue[0].id
    {
      assert UsedUp(s, s.published[k].author.task.id);
    }
    PublishKeepsLogOrder(s.published, t.published, ByInput(s.queue[0]));
    assert forall i :: 0 <= i < |t.queue| ==> t.queue[i] == s.queue[i + 1];
    forall k | 0 <= k < |t.published| && t.published[k].author.ByInput?
      ensures UsedUp(t, t.published[k].author.task.id)
    {
      if k < |s.published| {
        assert t.published[k] == s.published[k];
        assert UsedUp(s, s.published[k].author.task.id);
      }
    }
  }

  lemma EnqueueKept(s: Session, t: Session)
    requires Ordered(s) && EnqueueStep(s, t)
    ensures Ordered(t)
  {
    forall k | 0 <= k < |t.published| && t.published[k].author.ByInput?
      ensures UsedUp(t, t.published[k].author.task.id)
    {
      assert UsedUp(s, s.published[k].author.task.id);
    }
  }

  /** Inputs take effect one at a time, in the order they were enqueued, whatever else happens. */
  lemma {:induction false} InputsInOrder(env: Environment, s: Session, actions: seq<Action>)
    requires Ordered(s)
    ensures Ordered(SessionModel.Run(env, s, actions))
    decreases |actions|
  {
    if actions != [] {
      StepOrder(env, s, actions[0]);
      var t := Step(env, s, actions[0]);
      if StayStep(s, t) {
        StayKept(s, t);
      } else if TakeStep(s, t) {
        TakeKept(s, t);
      } else {
        EnqueueKept(s, t);
      }
      InputsInOrder(env, Step(env, s, actions[0]), actions[1..]);
    }
  }

  // ---------------------------------------------------------------- generation isolation

  /** The publications of `t` after those of `s` that come from inputs not entitled to publish at `s`:
      of an older generation, or on a disposed session, and not in flight. */
  ghost predicate Isolated(s: Session, t: Session) {
    forall k :: |s.published| <= k < |t.published| && t.published[k].author.ByInput? ==>
      var task := t.published[k].author.task;
      (task.generation < s.generation || s.disposed) ==> s.flight.Flying? && task == s.flight.task
  }

  ghost predicate Stale(s: Session, task: Task) {
    task.generation < s.generation || s.disposed
  }

  ghost predicate IsolationStep(s: Session, t: Session) {
    && s.generation <= t.generation && (s.disposed ==> t.disposed)
    && (t.flight == s.flight || t.flight == Grounded || !Stale(s, t.flight.task))
    && (|| t.published == s.published
        || (&& AddsOne(s.published, t.published)
            && var author := t.published[|s.published|].author;
               author.ByInput? ==> (s.flight.Flying? && author.task == s.flight.task) || !Stale(s, author.task)))
  }

  lemma StepIsolates(env: Environment, s: Session, a: Action)
    ensures IsolationStep(s, Step(env, s, a))
  {
    if a.DoStart? {
      if s.flight == Grounded && s.queue != [] {
        StartTakes(env, s);
      }
    } else if a.DoResume? {
      ResumeOrder(env, s, a.fulfilled);
    }
  }

  /** After any point of any run, no input of an older generation publishes any more, and on a disposed
      session no input at all, except the single one already in flight there; the rest are dropped. */
  lemma {:induction false} GenerationIsolation(env: Environment, s: Session, actions: seq<Action>)
    ensures var t := SessionModel.Run(env, s, actions);
      && |s.published| <= |t.published| && t.published[..|s.published|] == s.published
      && Isolated(s, t)
    decreases |actions|
  {
    if actions != [] {
      var u := Step(env, s, actions[0]);
      StepIsolates(env, s, actions[0]);
      GenerationIsolation(env, u, actions[1..]);
      var t := SessionModel.Run(env, s, actions);
      var n, m := |s.published|, |u.published|;
      assert t.published[..n] == t.published[..m][..n] == s.published;
      forall k | n <= k < |t.published| && t.published[k].author.ByInput?
        ensures var task := t.published[k].author.task;
          Stale(s, task) ==> s.flight.Flying? && task == s.flight.task
      {
        var task := t.published[k].author.task;
        if k < m {
          assert t.published[k] == t.published[..m][k] == u.published[k];
        } else if Stale(s, task) {
          assert Stale(u, task);
          assert u.flight.Flying? && task == u.flight.task;
        }
      }
    } else {
      assert s.published[..|s.published|] == s.published;
    }
  }
}
