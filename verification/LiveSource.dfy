/** `LiveSseSource.open` of apps/dashboard/src/sources/live-sse-source.ts: stream replacement, the offline timer
    and the signals a consumer sees.

    The consumer is called synchronously and may dispose of the subscription before it returns, so every
    delivery carries that possibility. */
module LiveSource {
  import opened Options

  datatype Signal = Connecting | Disconnected | Offline | Recovered

  /** A frame stands for its name, last event id and text. */
  datatype Delivery = Status(signal: Signal) | Data(frame: seq<char>)

  /** The closure's variables, then what the browser holds: streams and timers made so far, the streams that
      carry the listeners, the timers set and not yet cleared or fired, and everything the consumer was given. */
  datatype Live = Live(
    stream: Option<nat>, disposed: bool, disconnected: bool, offlineReported: bool, offlineTimer: Option<nat>,
    streams: nat, timers: nat, listening: set<nat>, pending: set<nat>, delivered: seq<Delivery>)

  datatype Event =
    | Frame(stream: nat, frame: seq<char>, disposes: bool)
    | Error(stream: nat, disposes: bool)
    | Open(stream: nat, disposes: bool)
    | TimerFires(timer: nat, closed: bool, disposes: bool)
    | Dispose

  function CancelTimer(l: Live): Live {
    if l.offlineTimer == None then l else l.(offlineTimer := None, pending := l.pending - {l.offlineTimer.value})
  }

  function Detach(l: Live, held: nat): Live {
    l.(listening := l.listening - {held})
  }

  function Attach(l: Live): Live {
    l.(stream := Some(l.streams), streams := l.streams + 1, listening := l.listening + {l.streams})
  }

  function Disposing(l: Live): Live {
    if l.disposed then l
    else
      var cancelled := CancelTimer(l.(disposed := true));
      if cancelled.stream == None then cancelled else Detach(cancelled, cancelled.stream.value).(stream := None)
  }

  function Deliver(l: Live, input: Delivery, disposes: bool): Live {
    if l.disposed then l
    else
      var given := l.(delivered := l.delivered + [input]);
      if disposes then Disposing(given) else given
  }

  function ScheduleOffline(l: Live): Live {
    if l.offlineTimer.Some? then l
    else l.(offlineTimer := Some(l.timers), timers := l.timers + 1, pending := l.pending + {l.timers})
  }

  function OnError(l: Live, disposes: bool): Live {
    ScheduleOffline(if l.disconnected then l else Deliver(l.(disconnected := true), Status(Disconnected), disposes))
  }

  function OnOpen(l: Live, disposes: bool): Live {
    if l.disconnected then
      Deliver(CancelTimer(l.(disconnected := false, offlineReported := false)), Status(Recovered), disposes)
    else l
  }

  /** `closed` is whether the held stream's ready state is the closed one. */
  function OnTimer(l: Live, timer: nat, closed: bool, disposes: bool): Live {
    var fired := l.(offlineTimer := None, pending := l.pending - {timer});
    if fired.disposed || !fired.disconnected then fired
    else
      var reported :=
        if fired.offlineReported then fired else Deliver(fired.(offlineReported := true), Status(Offline), disposes);
      if reported.stream.Some? && closed then Attach(Detach(reported, reported.stream.value)) else reported
  }

  /** The browser calls a listener only while it is on the stream, and a timer only while it is set. */
  function Happens(l: Live, e: Event): Live {
    match e
    case Frame(stream, frame, disposes) => if stream in l.listening then Deliver(l, Data(frame), disposes) else l
    case Error(stream, disposes) => if stream in l.listening then OnError(l, disposes) else l
    case Open(stream, disposes) => if stream in l.listening then OnOpen(l, disposes) else l
    case TimerFires(timer, closed, disposes) => if timer in l.pending then OnTimer(l, timer, closed, disposes) else l
    case Dispose => Disposing(l)
  }

  function Opening(): Live {
    Deliver(Attach(Live(None, false, false, false, None, 0, 0, {}, {}, [])), Status(Connecting), false)
  }

  function Run(l: Live, events: seq<Event>): Live
    decreases |events|
  {
    if events == [] then l else Run(Happens(l, events[0]), events[1..])
  }

  // ---------------------------------------------------------------- the object

  class LiveSubscription {
    var stream: Option<nat>
    var disposed: bool
    var disconnected: bool
    var offlineReported: bool
    var offlineTimer: Option<nat>
    var streams: nat
    var timers: nat
    var listening: set<nat>
    var pending: set<nat>
    var delivered: seq<Delivery>

    ghost function Model(): Live
      reads this
    {
      Live(stream, disposed, disconnected, offlineReported, offlineTimer, streams, timers, listening, pending,
          delivered)
    }

    /** What every call keeps: one listening stream, one timer, and the grammar of signals. */
    ghost predicate Valid()
      reads this
    {
      Sound(Model()) && Traced(Model())
    }

    constructor ()
      ensures Model() == Opening() && Valid()
    {
      disposed, disconnected, offlineReported, offlineTimer := false, false, false, None;
      timers, pending, delivered := 0, {}, [];
      stream, streams, listening := None, 0, {};
      new;
      AttachReplacement();
      GiveConsumer(Status(Connecting), false);
      OpeningHolds();
    }

    method CancelOfflineTimer()
      modifies this
      ensures Model() == CancelTimer(old(Model()))
    {
      if offlineTimer.Some? {
        pending := pending - {offlineTimer.value};
        offlineTimer := None;
      }
    }

    method GiveConsumer(input: Delivery, disposes: bool)
      modifies this
      ensures Model() == Deliver(old(Model()), input, disposes)
    {
      if !disposed {
        delivered := delivered + [input];
        if disposes {
          Release();
        }
      }
    }

    method AttachReplacement()
      modifies this
      ensures Model() == Attach(old(Model()))
    {
      stream := Some(streams);
      listening := listening + {streams};
      streams := streams + 1;
    }

    method ScheduleOfflineTransition()
      modifies this
      ensures Model() == ScheduleOffline(old(Model()))
    {
      if offlineTimer.Some? {
        return;
      }
      offlineTimer := Some(timers);
      pending := pending + {timers};
      timers := timers + 1;
    }

    /** Called while that timer is set; `closed` is whether the held stream is closed. */
    method TimerCallback(timer: nat, closed: bool, disposes: bool)
      requires Valid() && timer in pending
      modifies this
      ensures Model() == OnTimer(old(Model()), timer, closed, disposes) && Valid()
    {
      HappensKeeps(Model(), TimerFires(timer, closed, disposes));
      pending := pending - {timer};
      offlineTimer := None;
      if disposed || !disconnected {
        return;
      }
      if !offlineReported {
        offlineReported := true;
        GiveConsumer(Status(Offline), disposes);
      }
      if stream.Some? && closed {
        listening := listening - {stream.value};
        AttachReplacement();
      }
    }

    /** The listeners are called while they are on the held stream. */
    method FrameListener(frame: seq<char>, disposes: bool)
      requires Valid() && stream.Some?
      modifies this
      ensures Model() == Deliver(old(Model()), Data(frame), disposes) && Valid()
    {
      HappensKeeps(Model(), Frame(stream.value, frame, disposes));
      GiveConsumer(Data(frame), disposes);
    }

    method ErrorListener(disposes: bool)
      requires Valid() && stream.Some?
      modifies this
      ensures Model() == OnError(old(Model()), disposes) && Valid()
    {
      HappensKeeps(Model(), Error(stream.value, disposes));
      if !disconnected {
        disconnected := true;
        GiveConsumer(Status(Disconnected), disposes);
      }
      ScheduleOfflineTransition();
    }

    method OpenListener(disposes: bool)
      requires Valid() && stream.Some?
      modifies this
      ensures Model() == OnOpen(old(Model()), disposes) && Valid()
    {
      HappensKeeps(Model(), Open(stream.value, disposes));
      if disconnected {
        disconnected := false;
        offlineReported := false;
        CancelOfflineTimer();
        GiveConsumer(Status(Recovered), disposes);
      }
    }

    /** The subscription's `dispose`. */
    method Close()
      requires Valid()
      modifies this
      ensures Model() == Disposing(old(Model())) && Valid()
    {
      HappensKeeps(Model(), Dispose);
      Release();
    }

    method Release()
      modifies this
      ensures Model() == Disposing(old(Model()))
    {
      if disposed {
        return;
      }
      disposed := true;
      CancelOfflineTimer();
      if stream.Some? {
        listening := listening - {stream.value};
      }
      stream := None;
    }
  }

  // ---------------------------------------------------------------- the trace

  datatype Phase = Up | Down | Reported

  function Signals(given: seq<Delivery>): seq<Signal> {
    if given == [] then []
    else (if given[0].Status? then [given[0].signal] else []) + Signals(given[1..])
  }

  /** A beginning of (disconnected offline? recovered)* */
  predicate Cycles(s: seq<Signal>)
    decreases |s|
  {
    || s == []
    || (&& s[0] == Disconnected
        && (|| |s| == 1
            || (s[1] == Recovered && Cycles(s[2..]))
            || (s[1] == Offline && (|s| == 2 || (s[2] == Recovered && Cycles(s[3..]))))))
  }

  /** A beginning of connecting (disconnected offline? recovered)* */
  predicate InGrammar(s: seq<Signal>) {
    s == [] || (s[0] == Connecting && Cycles(s[1..]))
  }

  /** Where in a cycle the signals have come to. */
  function PhaseOf(s: seq<Signal>): Phase {
    if s == [] then Up
    else match s[|s| - 1]
      case Disconnected => Down
      case Offline => Reported
      case _ => Up
  }

  predicate MayFollow(phase: Phase, next: Signal) {
    || (phase == Up && next == Disconnected)
    || (phase == Down && (next == Offline || next == Recovered))
    || (phase == Reported && next == Recovered)
  }

  lemma {:induction false} CyclesGrow(s: seq<Signal>, next: Signal)
    requires Cycles(s) && MayFollow(PhaseOf(s), next)
    ensures Cycles(s + [next])
    decreases |s|
  {
    var t := s + [next];
    if |s| >= 2 && s[1] == Recovered {
      CyclesGrow(s[2..], next);
      assert t[2..] == s[2..] + [next];
    } else if |s| >= 3 {
      CyclesGrow(s[3..], next);
      assert t[3..] == s[3..] + [next];
    } else if |s| == 2 {
      assert t[3..] == [];
    } else if |s| == 1 {
      assert t[2..] == [];
    }
  }

  lemma GrammarGrows(s: seq<Signal>, next: Signal)
    requires InGrammar(s) && s != [] && MayFollow(PhaseOf(s), next)
    ensures InGrammar(s + [next]) && s + [next] != []
  {
    CyclesGrow(s[1..], next);
    assert (s + [next])[1..] == s[1..] + [next];
  }

  lemma {:induction false} SignalsGrow(given: seq<Delivery>, more: Delivery)
    ensures Signals(given + [more]) == Signals(given) + (if more.Status? then [more.signal] else [])
  {
    if given == [] {
      assert given + [more] == [more] && [more][1..] == [];
      assert Signals([]) == [];
    } else {
      SignalsGrow(given[1..], more);
      assert (given + [more])[1..] == given[1..] + [more];
    }
  }

  ghost function OnlyOf(held: Option<nat>): set<nat> {
    if held == None then {} else {held.value}
  }

  /** While subscribed exactly the held stream carries the listeners, afterwards none does; only the remembered
      timer is set, and while subscribed only when disconnected. */
  ghost predicate Sound(l: Live) {
    && l.listening == OnlyOf(l.stream) && (l.disposed <==> l.stream == None)
    && l.pending == OnlyOf(l.offlineTimer)
    && (!l.disposed && l.offlineTimer.Some? ==> l.disconnected)
  }

  /** The signals keep to the grammar; while subscribed the two flags say where they have come to. */
  ghost predicate Traced(l: Live) {
    var s := Signals(l.delivered);
    && s != [] && InGrammar(s)
    && (!l.disposed ==> PhaseOf(s) == FlagPhase(l) && (l.offlineReported ==> l.disconnected))
  }

  function FlagPhase(l: Live): Phase {
    if !l.disconnected then Up else if l.offlineReported then Reported else Down
  }

  lemma HappensSound(l: Live, e: Event)
    requires Sound(l)
    ensures Sound(Happens(l, e))
  {
  }

  /** A signal the grammar allows next may be delivered, with or without disposal. */
  lemma SignalTraced(l: Live, next: Signal, disposes: bool)
    requires !l.disposed && Signals(l.delivered) != [] && InGrammar(Signals(l.delivered))
    requires MayFollow(PhaseOf(Signals(l.delivered)), next) && FlagPhase(l) == PhaseOf([next])
    requires l.offlineReported ==> l.disconnected
    ensures Traced(Deliver(l, Status(next), disposes))
  {
    SignalsGrow(l.delivered, Status(next));
    GrammarGrows(Signals(l.delivered), next);
    var s := Signals(l.delivered);
    assert PhaseOf(s + [next]) == PhaseOf([next]);
    var given := l.delivered + [Status(next)];
    assert Deliver(l, Status(next), disposes).delivered == given;
  }

  lemma HappensTraced(l: Live, e: Event)
    requires Sound(l) && Traced(l)
    ensures Traced(Happens(l, e))
  {
    match e
    case Frame(stream, frame, disposes) =>
      SignalsGrow(l.delivered, Data(frame));
      assert Signals(l.delivered) + [] == Signals(l.delivered);
    case Error(stream, disposes) =>
      if !l.disposed && !l.disconnected {
        SignalTraced(l.(disconnected := true), Disconnected, disposes);
      }
    case Open(stream, disposes) =>
      if !l.disposed && l.disconnected {
        SignalTraced(CancelTimer(l.(disconnected := false, offlineReported := false)), Recovered, disposes);
      }
    case TimerFires(timer, closed, disposes) =>
      if !l.disposed && l.disconnected && !l.offlineReported {
        var fired := l.(offlineTimer := None, pending := l.pending - {timer}, offlineReported := true);
        SignalTraced(fired, Offline, disposes);
      }
    case Dispose =>
  }

  lemma HappensKeeps(l: Live, e: Event)
    requires Sound(l) && Traced(l)
    ensures Sound(Happens(l, e)) && Traced(Happens(l, e))
  {
    HappensSound(l, e);
    HappensTraced(l, e);
  }

  lemma OpeningHolds()
    ensures Sound(Opening()) && Traced(Opening())
  {
    assert Opening().delivered == [Status(Connecting)];
    assert [Status(Connecting)][1..] == [];
    assert Signals([]) == [];
    assert Signals([Status(Connecting)]) == [Connecting];
    assert Cycles([Connecting][1..]);
  }

  lemma {:induction false} RunKeeps(l: Live, events: seq<Event>)
    requires Sound(l) && Traced(l)
    ensures Sound(Run(l, events)) && Traced(Run(l, events))
    decreases |events|
  {
    if events != [] {
      HappensKeeps(l, events[0]);
      RunKeeps(Happens(l, events[0]), events[1..]);
    }
  }

  /** In every run, with disposal possible inside any delivery, the signals delivered are a beginning of
      connecting (disconnected offline? recovered)*, at most one stream carries the listeners and at most one
      timer is set. */
  lemma TraceGrammar(events: seq<Event>)
    ensures var l := Run(Opening(), events);
      && InGrammar(Signals(l.delivered))
      && |l.listening| <= 1 && |l.pending| <= 1
      && (l.disposed ==> l.listening == {})
  {
    OpeningHolds();
    RunKeeps(Opening(), events);
  }

  /** After disposal nothing is delivered, whatever still happens. */
  lemma {:induction false} SilentAfterDispose(l: Live, events: seq<Event>)
    requires Sound(l) && l.disposed
    ensures Run(l, events).delivered == l.delivered && Run(l, events).disposed
    decreases |events|
  {
    if events != [] {
      HappensSound(l, events[0]);
      SilentAfterDispose(Happens(l, events[0]), events[1..]);
    }
  }

  /** The consumer disposes while it is told of the disconnection. */
  predicate LeavesTimer(l: Live, e: Event) {
    e.Error? && e.disposes && e.stream in l.listening && !l.disconnected
  }

  /** The one step that disposes and leaves a timer set, and the timer it leaves. */
  lemma TimerOutlivesDispose(l: Live, e: Event)
    requires Sound(l) && !l.disposed
    ensures Happens(l, e).disposed && Happens(l, e).pending != {} <==> LeavesTimer(l, e)
    ensures LeavesTimer(l, e) ==> Happens(l, e).pending == {l.timers}
  {
  }

  /** Once disposed, a timer that is set can only fire. */
  lemma DisposedStep(l: Live, e: Event)
    requires Sound(l) && l.disposed
    ensures Happens(l, e).disposed
    ensures Happens(l, e).pending == l.pending - (if e.TimerFires? then {e.timer} else {})
  {
  }

  predicate NeverFires(timer: nat, events: seq<Event>) {
    forall i :: 0 <= i < |events| ==> !(events[i].TimerFires? && events[i].timer == timer)
  }

  lemma {:induction false} DisposedRun(l: Live, events: seq<Event>, timer: nat)
    requires Sound(l) && l.disposed
    ensures Run(l, events).disposed
    ensures Run(l, events).pending <= l.pending
    ensures timer in Run(l, events).pending <==> timer in l.pending && NeverFires(timer, events)
    decreases |events|
  {
    if events != [] {
      HappensSound(l, events[0]);
      DisposedStep(l, events[0]);
      DisposedRun(Happens(l, events[0]), events[1..], timer);
    }
  }

  /** The event at `k` disposes and leaves a timer set, which does not fire in the rest of the run. */
  ghost predicate LeftSet(l: Live, events: seq<Event>, k: nat) {
    k < |events| && LeavesTimer(Run(l, events[..k]), events[k])
        && NeverFires(Run(l, events[..k]).timers, events[k + 1..])
  }

  lemma LeftSetLater(l: Live, events: seq<Event>, k: nat)
    requires 0 < k < |events|
    ensures LeftSet(l, events, k) <==> LeftSet(Happens(l, events[0]), events[1..], k - 1)
  {
    assert events[..k][1..] == events[1..][..k - 1];
    assert events[1..][k..] == events[k + 1..];
  }

  lemma LeftSetNow(l: Live, events: seq<Event>)
    requires events != []
    ensures LeftSet(l, events, 0) <==> LeavesTimer(l, events[0]) && NeverFires(l.timers, events[1..])
  {
    assert events[..0] == [];
  }

  lemma {:induction false} OnlyOneSet(l: Live, events: seq<Event>, k: nat)
    requires Sound(l) && l.disposed
    ensures !LeftSet(l, events, k)
    decreases k
  {
    if k < |events| {
      HappensSound(l, events[0]);
      DisposedStep(l, events[0]);
      if k > 0 {
        LeftSetLater(l, events, k);
        OnlyOneSet(Happens(l, events[0]), events[1..], k - 1);
      } else {
        LeftSetNow(l, events);
      }
    }
  }

  /** A run ends disposed with a timer set exactly when some event of it disposed inside the report of a
      disconnection and the timer set then has not fired since. */
  lemma {:induction false} TimerLeftIn(l: Live, events: seq<Event>)
    requires Sound(l) && !l.disposed
    ensures Run(l, events).disposed && Run(l, events).pending != {} <==> exists k: nat :: LeftSet(l, events, k)
    decreases |events|
  {
    if events != [] {
      var t, rest := Happens(l, events[0]), events[1..];
      HappensSound(l, events[0]);
      TimerOutlivesDispose(l, events[0]);
      LeftSetNow(l, events);
      forall k | 0 < k < |events|
        ensures LeftSet(l, events, k) <==> LeftSet(t, rest, k - 1)
      {
        LeftSetLater(l, events, k);
      }
      if t.disposed {
        DisposedRun(t, rest, l.timers);
        forall k: nat ensures !LeftSet(t, rest, k) {
          OnlyOneSet(t, rest, k);
        }
      } else {
        TimerLeftIn(t, rest);
        LeftSetShift(l, events, t, rest);
      }
    }
  }

  lemma LeftSetShift(l: Live, events: seq<Event>, t: Live, rest: seq<Event>)
    requires events != [] && t == Happens(l, events[0]) && rest == events[1..] && !LeftSet(l, events, 0)
    ensures (exists k: nat :: LeftSet(l, events, k)) <==> exists k: nat :: LeftSet(t, rest, k)
  {
    if k: nat :| LeftSet(l, events, k) {
      LeftSetLater(l, events, k);
    }
    if k: nat :| LeftSet(t, rest, k) {
      LeftSetLater(l, events, k + 1);
    }
  }

  /** The same for every run of a subscription from its opening. */
  lemma TimerLeftExactly(events: seq<Event>)
    ensures Run(Opening(), events).disposed && Run(Opening(), events).pending != {}
            <==> exists k: nat :: LeftSet(Opening(), events, k)
  {
    OpeningHolds();
    TimerLeftIn(Opening(), events);
  }

  /** And such runs exist: the first event is an error, and the consumer disposes when told. */
  lemma TimerLeftExample()
    ensures LeftSet(Opening(), [Error(0, true)], 0)
  {
    LeftSetNow(Opening(), [Error(0, true)]);
  }

  // ---------------------------------------------------------------- frames

  function FramesIn(given: seq<Delivery>): seq<seq<char>> {
    if given == [] then []
    else (if given[0].Data? then [given[0].frame] else []) + FramesIn(given[1..])
  }

  /** The frames that arrive on a stream that carries the listeners, in order. */
  function Arriving(l: Live, events: seq<Event>): seq<seq<char>>
    decreases |events|
  {
    if events == [] then []
    else
      (if events[0].Frame? && events[0].stream in l.listening then [events[0].frame] else [])
      + Arriving(Happens(l, events[0]), events[1..])
  }

  lemma {:induction false} FramesGrow(given: seq<Delivery>, more: Delivery)
    ensures FramesIn(given + [more]) == FramesIn(given) + (if more.Data? then [more.frame] else [])
  {
    if given == [] {
      assert given + [more] == [more] && [more][1..] == [];
      assert FramesIn([]) == [];
    } else {
      FramesGrow(given[1..], more);
      assert (given + [more])[1..] == given[1..] + [more];
    }
  }

  lemma OneArrives(l: Live, e: Event)
    requires Sound(l)
    ensures FramesIn(Happens(l, e).delivered)
            == FramesIn(l.delivered) + (if e.Frame? && e.stream in l.listening then [e.frame] else [])
  {
    match e
    case Frame(stream, frame, disposes) => DataDelivered(l, frame, disposes);
    case Error(stream, disposes) => StatusDelivered(l.(disconnected := true), Disconnected, disposes);
    case Open(stream, disposes) =>
      StatusDelivered(CancelTimer(l.(disconnected := false, offlineReported := false)), Recovered, disposes);
    case TimerFires(timer, closed, disposes) =>
      var fired := l.(offlineTimer := None, pending := l.pending - {timer}, offlineReported := true);
      StatusDelivered(fired, Offline, disposes);
    case Dispose =>
  }

  lemma StatusDelivered(l: Live, signal: Signal, disposes: bool)
    ensures FramesIn(Deliver(l, Status(signal), disposes).delivered) == FramesIn(l.delivered)
  {
    FramesGrow(l.delivered, Status(signal));
  }

  lemma DataDelivered(l: Live, frame: seq<char>, disposes: bool)
    ensures FramesIn(Deliver(l, Data(frame), disposes).delivered)
        == FramesIn(l.delivered) + (if l.disposed then [] else [frame])
  {
    FramesGrow(l.delivered, Data(frame));
  }

  /** No frame is lost, repeated or reordered between the listening stream and the consumer. */
  lemma {:induction false} FramesDelivered(l: Live, events: seq<Event>)
    requires Sound(l)
    ensures FramesIn(Run(l, events).delivered) == FramesIn(l.delivered) + Arriving(l, events)
    decreases |events|
  {
    if events != [] {
      HappensSound(l, events[0]);
      OneArrives(l, events[0]);
      FramesDelivered(Happens(l, events[0]), events[1..]);
      var one := if events[0].Frame? && events[0].stream in l.listening then [events[0].frame] else [];
      var rest := Arriving(Happens(l, events[0]), events[1..]);
      assert (FramesIn(l.delivered) + one) + rest == FramesIn(l.delivered) + (one + rest);
    }
  }
}
