/** The mission timeline of apps/dashboard/src/domain/timeline.ts: meaningful events, one per ordinal, in order. */
module Timeline {
  import opened Ordering
  import opened Reducer

  predicate IsMeaningful(oe: OrderedEvent) {
    oe.event.eventClass != TelemetryClass
  }

  function OrdinalKey(oe: OrderedEvent): Key {
    [oe.auditOrdinal]
  }

  /** Drops every event whose ordinal was already seen. */
  function KeepFirst(events: seq<OrderedEvent>, seen: set<int>): seq<OrderedEvent> {
    if events == [] then []
    else if events[0].auditOrdinal in seen then KeepFirst(events[1..], seen)
    else [events[0]] + KeepFirst(events[1..], seen + {events[0].auditOrdinal})
  }

  function OrderedUnique(events: seq<OrderedEvent>): seq<OrderedEvent> {
    KeepFirst(Sort(OrdinalKey, events), {})
  }

  method OrderedUniqueByLoop(events: seq<OrderedEvent>) returns (r: seq<OrderedEvent>)
    ensures r == OrderedUnique(events)
  {
    var sorted := Sort(OrdinalKey, events);
    var ordinals: set<int> := {};
    r := [];
    for k := 0 to |sorted|
      invariant r + KeepFirst(sorted[k..], ordinals) == OrderedUnique(events)
    {
      assert sorted[k..][1..] == sorted[k + 1..];
      if sorted[k].auditOrdinal !in ordinals {
        ghost var later := KeepFirst(sorted[k + 1..], ordinals + {sorted[k].auditOrdinal});
        assert r + ([sorted[k]] + later) == r + [sorted[k]] + later;
        r := r + [sorted[k]];
        ordinals := ordinals + {sorted[k].auditOrdinal};
      }
    }
    assert sorted[|sorted|..] == [];
  }

  function Meaningful(events: seq<OrderedEvent>): seq<OrderedEvent> {
    if events == [] then []
    else if IsMeaningful(events[|events| - 1]) then Meaningful(events[..|events| - 1]) + [events[|events| - 1]]
    else Meaningful(events[..|events| - 1])
  }

  function ReplaceTimeline(events: seq<OrderedEvent>): seq<OrderedEvent> {
    OrderedUnique(Meaningful(events))
  }

  function AppendEvent(timeline: seq<OrderedEvent>, oe: OrderedEvent): seq<OrderedEvent> {
    if !IsMeaningful(oe) || exists i :: 0 <= i < |timeline| && timeline[i].auditOrdinal == oe.auditOrdinal
    then timeline
    else OrderedUnique(timeline + [oe])
  }

  /** The timeline built up one event at a time. */
  function AppendAll(events: seq<OrderedEvent>): seq<OrderedEvent> {
    if events == [] then [] else AppendEvent(AppendAll(events[..|events| - 1]), events[|events| - 1])
  }

  // ---------------------------------------------------------------- what orderedUnique computes

  lemma {:induction false} KeepFirstFirst(events: seq<OrderedEvent>, seen: set<int>, k: Key)
    ensures FirstWith(OrdinalKey, KeepFirst(events, seen), k)
            == if |k| == 1 && k[0] in seen then Missing else FirstWith(OrdinalKey, events, k)
  {
    if events != [] {
      var e := events[0];
      if e.auditOrdinal in seen {
        KeepFirstFirst(events[1..], seen, k);
      } else {
        KeepFirstFirst(events[1..], seen + {e.auditOrdinal}, k);
        var rest := KeepFirst(events[1..], seen + {e.auditOrdinal});
        assert ([e] + rest)[1..] == rest;
        assert OrdinalKey(e) == [e.auditOrdinal];
        assert |k| == 1 && k[0] == e.auditOrdinal ==> k == [e.auditOrdinal];
      }
    }
  }

  lemma {:induction false} KeepFirstIncreasing(events: seq<OrderedEvent>, seen: set<int>)
    requires NonDecreasing(OrdinalKey, events)
    ensures Increasing(OrdinalKey, KeepFirst(events, seen))
    ensures forall e :: e in KeepFirst(events, seen) ==> e in events && e.auditOrdinal !in seen
  {
    if events != [] {
      var e := events[0];
      assert forall i :: 0 <= i < |events[1..]| ==> events[1..][i] == events[i + 1];
      if e.auditOrdinal in seen {
        KeepFirstIncreasing(events[1..], seen);
      } else {
        var rest := KeepFirst(events[1..], seen + {e.auditOrdinal});
        KeepFirstIncreasing(events[1..], seen + {e.auditOrdinal});
        forall i | 0 <= i < |rest|
          ensures Less(OrdinalKey(e), OrdinalKey(rest[i]))
        {
          assert rest[i] in events[1..];
          var j :| 0 <= j < |events[1..]| && events[1..][j] == rest[i];
          assert !Less(OrdinalKey(events[j + 1]), OrdinalKey(events[0]));
        }
      }
    }
  }

  /** Strictly increasing ordinals, and for each ordinal the event that came first. */
  lemma OrderedUniqueExact(events: seq<OrderedEvent>)
    ensures Increasing(OrdinalKey, OrderedUnique(events))
    ensures forall k :: FirstWith(OrdinalKey, OrderedUnique(events), k) == FirstWith(OrdinalKey, events, k)
  {
    SortNonDecreasing(OrdinalKey, events);
    KeepFirstIncreasing(Sort(OrdinalKey, events), {});
    forall k
      ensures FirstWith(OrdinalKey, OrderedUnique(events), k) == FirstWith(OrdinalKey, events, k)
    {
      KeepFirstFirst(Sort(OrdinalKey, events), {}, k);
      FirstWithSort(OrdinalKey, events, k);
    }
  }

  // ---------------------------------------------------------------- incremental equals batch

  lemma AppendExact(timeline: seq<OrderedEvent>, oe: OrderedEvent)
    requires Increasing(OrdinalKey, timeline) && IsMeaningful(oe)
    ensures Increasing(OrdinalKey, AppendEvent(timeline, oe))
    ensures forall k :: FirstWith(OrdinalKey, AppendEvent(timeline, oe), k)
                        == FirstWith(OrdinalKey, timeline + [oe], k)
  {
    OrderedUniqueExact(timeline + [oe]);
    if exists i :: 0 <= i < |timeline| && timeline[i].auditOrdinal == oe.auditOrdinal {
      var i :| 0 <= i < |timeline| && timeline[i].auditOrdinal == oe.auditOrdinal;
      assert OrdinalKey(timeline[i]) == OrdinalKey(oe);
      forall k
        ensures FirstWith(OrdinalKey, timeline, k) == FirstWith(OrdinalKey, timeline + [oe], k)
      {
        FirstWithConcat(OrdinalKey, timeline, [oe], k);
      }
    }
  }

  /** Appending events one at a time, in whatever order and with whatever repeats, gives the timeline that
      replacing it in one go from all of them gives. */
  lemma {:induction false} AppendAllIsReplace(events: seq<OrderedEvent>)
    ensures AppendAll(events) == ReplaceTimeline(events)
  {
    if events == [] {
    } else {
      var front, oe := events[..|events| - 1], events[|events| - 1];
      AppendAllIsReplace(front);
      if IsMeaningful(oe) {
        var t, m := ReplaceTimeline(front), Meaningful(front);
        OrderedUniqueExact(m);
        OrderedUniqueExact(m + [oe]);
        AppendExact(t, oe);
        forall k
          ensures FirstWith(OrdinalKey, AppendEvent(t, oe), k) == FirstWith(OrdinalKey, OrderedUnique(m + [oe]), k)
        {
          FirstWithConcat(OrdinalKey, t, [oe], k);
          FirstWithConcat(OrdinalKey, m, [oe], k);
        }
        FirstWithUnique(OrdinalKey, AppendEvent(t, oe), OrderedUnique(m + [oe]));
      }
    }
  }
}
