/** `_snapshot` and `_bind_mismatches` of packages/broker/src/aerial_rescue_broker/monitoring.py. */
module QueueHealth {
  import opened Ordering

  /** A queue name as its code points; Python orders strings by them. */
  type Name = Key

  const MAX_BIND_COUNT: nat := 1

  datatype QueueSpec = QueueSpec(name: Name, owned: bool)
  datatype Depth = Depth(name: Name, messages: nat)

  datatype Snapshot = Snapshot(
    collectedAt: real, queues: seq<Depth>, messages: nat, primaryBacklog: seq<Depth>, nonemptyDead: seq<Depth>,
    unexpectedOwned: seq<Depth>, missing: seq<Name>, bindMismatches: seq<Name>, healthy: bool)

  const OWNED_PREFIX: Name := Points("aerial-rescue/v1/")
  const DMQ_SUFFIX: Name := Points("_dmq")

  predicate IsDead(name: Name) {
    |name| >= |DMQ_SUFFIX| && name[|name| - |DMQ_SUFFIX|..] == DMQ_SUFFIX
  }

  predicate Expected(expected: seq<QueueSpec>, name: Name) {
    exists i :: 0 <= i < |expected| && expected[i].name == name
  }

  predicate Observed(states: seq<Depth>, name: Name) {
    exists i :: 0 <= i < |states| && states[i].name == name
  }

  predicate IsOwned(expected: seq<QueueSpec>, name: Name) {
    Expected(expected, name) || OWNED_PREFIX <= name
  }

  function Wanted(queue: QueueSpec): nat {
    if queue.owned then MAX_BIND_COUNT else 0
  }

  /** The observed bind count is there and is the wanted one. */
  predicate BindAgrees(bindCounts: map<Name, nat>, queue: QueueSpec) {
    queue.name in bindCounts && bindCounts[queue.name] == Wanted(queue)
  }

  function Select<T(!new)>(keep: T -> bool, s: seq<T>): (r: seq<T>)
    ensures forall x :: x in r <==> x in s && keep(x)
  {
    if s == [] then [] else (if keep(s[0]) then [s[0]] else []) + Select(keep, s[1..])
  }

  function NamesOf(queues: seq<QueueSpec>): (r: seq<Name>)
    ensures |r| == |queues| && forall i :: 0 <= i < |r| ==> r[i] == queues[i].name
  {
    seq(|queues|, i requires 0 <= i < |queues| => queues[i].name)
  }

  function Total(s: seq<Depth>): nat {
    if s == [] then 0 else s[0].messages + Total(s[1..])
  }

  function DepthName(d: Depth): Name { d.name }
  function SameName(n: Name): Name { n }

  function Owned(expected: seq<QueueSpec>): Depth -> bool { (d: Depth) => IsOwned(expected, d.name) }
  function Unexpected(expected: seq<QueueSpec>): Depth -> bool { (d: Depth) => !Expected(expected, d.name) }
  function Dead(): Depth -> bool { (d: Depth) => IsDead(d.name) && d.messages != 0 }
  function Backlog(): Depth -> bool { (d: Depth) => !IsDead(d.name) && d.messages != 0 }
  function Absent(states: seq<Depth>): QueueSpec -> bool { (q: QueueSpec) => !Observed(states, q.name) }
  function Misbound(states: seq<Depth>, bindCounts: map<Name, nat>): QueueSpec -> bool {
    (q: QueueSpec) => Observed(states, q.name) && !BindAgrees(bindCounts, q)
  }

  function Mismatches(states: seq<Depth>, bindCounts: map<Name, nat>, expected: seq<QueueSpec>): seq<Name> {
    Sort(SameName, NamesOf(Select(Misbound(states, bindCounts), expected)))
  }

  function SnapshotOf(states: seq<Depth>, bindCounts: map<Name, nat>, expected: seq<QueueSpec>, at: real): Snapshot {
    var queues := Sort(DepthName, Select(Owned(expected), states));
    var dead := Select(Dead(), queues);
    var backlog := Select(Backlog(), queues);
    var unexpected := Select(Unexpected(expected), queues);
    var missing := Sort(SameName, NamesOf(Select(Absent(states), expected)));
    var mismatches := Mismatches(states, bindCounts, expected);
    Snapshot(at, queues, Total(queues), backlog, dead, unexpected, missing, mismatches,
             missing == [] && mismatches == [] && unexpected == [] && dead == [])
  }

  /** `_bind_mismatches`, the collecting loop. */
  method BindMismatches(states: seq<Depth>, bindCounts: map<Name, nat>, expected: seq<QueueSpec>) returns (r: seq<Name>)
    ensures r == Mismatches(states, bindCounts, expected)
  {
    var found: seq<Name> := [];
    ghost var keep := Misbound(states, bindCounts);
    var i := 0;
    while i < |expected|
      invariant 0 <= i <= |expected|
      invariant found + NamesOf(Select(keep, expected[i..])) == NamesOf(Select(keep, expected))
    {
      var queue := expected[i];
      NamesFirst(keep, expected, i, found);
      if Observed(states, queue.name) && !BindAgrees(bindCounts, queue) {
        found := found + [queue.name];
      }
      i := i + 1;
    }
    assert found + [] == found;
    r := Sort(SameName, found);
  }

  lemma NamesFirst(keep: QueueSpec -> bool, queues: seq<QueueSpec>, i: nat, found: seq<Name>)
    requires i < |queues|
    ensures found + NamesOf(Select(keep, queues[i..]))
            == (if keep(queues[i]) then found + [queues[i].name] else found) + NamesOf(Select(keep, queues[i + 1..]))
  {
    assert queues[i..][1..] == queues[i + 1..];
    var rest := Select(keep, queues[i + 1..]);
    assert NamesOf([queues[i]] + rest) == [queues[i].name] + NamesOf(rest);
    assert [] + rest == rest;
  }

  lemma EmptySort<T>(key: T -> Key, s: seq<T>)
    ensures Sort(key, s) == [] <==> s == []
  {
  }

  lemma EmptySelect<T(!new)>(keep: T -> bool, s: seq<T>)
    ensures Select(keep, s) == [] <==> forall i :: 0 <= i < |s| ==> !keep(s[i])
  {
    if Select(keep, s) == [] {
      forall i | 0 <= i < |s| ensures !keep(s[i]) {
        assert s[i] in s;
      }
    } else {
      assert Select(keep, s)[0] in Select(keep, s);
    }
  }

  /** Every desired queue is observed with its wanted bind count. */
  predicate AllBound(states: seq<Depth>, bindCounts: map<Name, nat>, expected: seq<QueueSpec>) {
    forall i :: 0 <= i < |expected| ==> Observed(states, expected[i].name) && BindAgrees(bindCounts, expected[i])
  }

  /** Every queue in the application's namespace is desired. */
  predicate NoneStray(states: seq<Depth>, expected: seq<QueueSpec>) {
    forall i :: 0 <= i < |states| && OWNED_PREFIX <= states[i].name ==> Expected(expected, states[i].name)
  }

  /** No owned dead-message queue holds a message. */
  predicate DeadAreEmpty(states: seq<Depth>, expected: seq<QueueSpec>) {
    forall i ::
      0 <= i < |states| && IsOwned(expected, states[i].name) && IsDead(states[i].name) ==> states[i].messages == 0
  }

  /** Healthy means: every desired queue is there with its wanted bind count, and every observed queue in the
      application's namespace is desired and, when a dead-message queue, empty. */
  lemma HealthyExactly(states: seq<Depth>, bindCounts: map<Name, nat>, expected: seq<QueueSpec>, at: real)
    ensures SnapshotOf(states, bindCounts, expected, at).healthy
            <==> AllBound(states, bindCounts, expected) && NoneStray(states, expected) && DeadAreEmpty(states, expected)
  {
    GroupsEmpty(states, expected);
    SpecsEmpty(states, bindCounts, expected);
  }

  lemma SpecsEmpty(states: seq<Depth>, bindCounts: map<Name, nat>, expected: seq<QueueSpec>)
    ensures Sort(SameName, NamesOf(Select(Absent(states), expected))) == []
            <==> forall i :: 0 <= i < |expected| ==> Observed(states, expected[i].name)
    ensures Mismatches(states, bindCounts, expected) == []
            <==> forall i ::
                0 <= i < |expected| ==> Observed(states, expected[i].name) ==> BindAgrees(bindCounts, expected[i])
  {
    EmptySelect(Absent(states), expected);
    EmptySelect(Misbound(states, bindCounts), expected);
    EmptySort(SameName, NamesOf(Select(Absent(states), expected)));
    EmptySort(SameName, NamesOf(Select(Misbound(states, bindCounts), expected)));
  }

  lemma GroupsEmpty(states: seq<Depth>, expected: seq<QueueSpec>)
    ensures var queues := Sort(DepthName, Select(Owned(expected), states));
      && (Select(Unexpected(expected), queues) == []
          <==> NoneStray(states, expected))
      && (Select(Dead(), queues) == []
          <==> DeadAreEmpty(states, expected))
  {
    var queues := Sort(DepthName, Select(Owned(expected), states));
    EmptySelect(Unexpected(expected), queues);
    EmptySelect(Dead(), queues);
    OwnedGood(expected, states, Unexpected(expected));
    OwnedGood(expected, states, Dead());
  }

  lemma OwnedMember(expected: seq<QueueSpec>, states: seq<Depth>, d: Depth)
    ensures d in Sort(DepthName, Select(Owned(expected), states)) <==> d in states && IsOwned(expected, d.name)
  {
    SortMember(DepthName, Select(Owned(expected), states), d);
  }

  lemma OwnedGood(expected: seq<QueueSpec>, states: seq<Depth>, bad: Depth -> bool)
    ensures var queues := Sort(DepthName, Select(Owned(expected), states));
      (forall i :: 0 <= i < |queues| ==> !bad(queues[i]))
      <==> (forall i :: 0 <= i < |states| ==> IsOwned(expected, states[i].name) ==> !bad(states[i]))
  {
    var queues := Sort(DepthName, Select(Owned(expected), states));
    if forall i :: 0 <= i < |queues| ==> !bad(queues[i]) {
      forall i | 0 <= i < |states| && IsOwned(expected, states[i].name) ensures !bad(states[i]) {
        OwnedMember(expected, states, states[i]);
      }
    } else {
      var i :| 0 <= i < |queues| && bad(queues[i]);
      OwnedMember(expected, states, queues[i]);
    }
  }

  lemma {:induction false} TotalInsert(d: Depth, s: seq<Depth>)
    ensures Total(Insert(DepthName, d, s)) == d.messages + Total(s)
  {
    if s != [] && Less(s[0].name, d.name) {
      TotalInsert(d, s[1..]);
    }
  }

  lemma {:induction false} TotalSort(s: seq<Depth>)
    ensures Total(Sort(DepthName, s)) == Total(s)
  {
    if s != [] {
      TotalSort(s[1..]);
      TotalInsert(s[0], Sort(DepthName, s[1..]));
    }
  }

  lemma {:induction false} TotalSplits(s: seq<Depth>)
    ensures Total(s) == Total(Select(Dead(), s)) + Total(Select(Backlog(), s))
  {
    if s != [] {
      TotalSplits(s[1..]);
      TotalFirst(Dead(), s);
      TotalFirst(Backlog(), s);
    }
  }

  lemma TotalFirst(keep: Depth -> bool, s: seq<Depth>)
    requires s != []
    ensures Total(Select(keep, s)) == (if keep(s[0]) then s[0].messages else 0) + Total(Select(keep, s[1..]))
  {
    var rest := Select(keep, s[1..]);
    assert ([s[0]] + rest)[1..] == rest && [] + rest == rest;
  }

  /** No message is lost between the groups: what is counted is what lies in the owned queues, and it is split
      between the primary backlog and the dead-message queues. */
  lemma MessagesConserved(states: seq<Depth>, bindCounts: map<Name, nat>, expected: seq<QueueSpec>, at: real)
    ensures var s := SnapshotOf(states, bindCounts, expected, at);
      && s.messages == Total(Select(Owned(expected), states))
      && s.messages == Total(s.primaryBacklog) + Total(s.nonemptyDead)
  {
    TotalSort(Select(Owned(expected), states));
    TotalSplits(Sort(DepthName, Select(Owned(expected), states)));
  }

  lemma {:induction false} SelectSame<T(!new)>(p: T -> bool, q: T -> bool, s: seq<T>)
    requires forall x :: p(x) == q(x)
    ensures Select(p, s) == Select(q, s)
  {
    if s != [] {
      SelectSame(p, q, s[1..]);
    }
  }

  lemma {:induction false} SelectDistinct<T(!new)>(key: T -> Key, keep: T -> bool, s: seq<T>)
    requires DistinctKeys(key, s)
    ensures DistinctKeys(key, Select(keep, s))
  {
    if s != [] {
      var rest := s[1..];
      assert forall i, j :: 0 <= i < j < |rest| ==> key(rest[i]) == key(s[i + 1]) && key(rest[j]) == key(s[j + 1]);
      SelectDistinct(key, keep, rest);
      var selected := Select(keep, rest);
      forall i | 0 <= i < |selected| ensures key(selected[i]) != key(s[0]) {
        assert selected[i] in rest;
        var j :| 0 <= j < |rest| && rest[j] == selected[i];
        assert key(s[0]) != key(s[j + 1]);
      }
    }
  }

  /** The snapshot does not depend on the order in which the broker lists its queues. */
  lemma SnapshotIgnoresOrder(
    states: seq<Depth>, listed: seq<Depth>, bindCounts: map<Name, nat>, expected: seq<QueueSpec>, at: real)
    requires DistinctKeys(DepthName, states) && DistinctKeys(DepthName, listed)
    requires forall d :: d in states <==> d in listed
    ensures SnapshotOf(states, bindCounts, expected, at) == SnapshotOf(listed, bindCounts, expected, at)
  {
    var owned := Owned(expected);
    var a, b := Select(owned, states), Select(owned, listed);
    SelectDistinct(DepthName, owned, states);
    SelectDistinct(DepthName, owned, listed);
    DistinctSorted(DepthName, a);
    DistinctSorted(DepthName, b);
    forall d: Depth ensures d in Sort(DepthName, a) <==> d in Sort(DepthName, b) {
      SortMember(DepthName, a, d);
      SortMember(DepthName, b, d);
    }
    IncreasingUnique(DepthName, Sort(DepthName, a), Sort(DepthName, b));
    forall n: Name ensures Observed(states, n) <==> Observed(listed, n) {
      ObservedIn(states, listed, n);
      ObservedIn(listed, states, n);
    }
    SelectSame(Absent(states), Absent(listed), expected);
    SelectSame(Misbound(states, bindCounts), Misbound(listed, bindCounts), expected);
  }

  lemma ObservedIn(states: seq<Depth>, listed: seq<Depth>, n: Name)
    requires forall d :: d in states ==> d in listed
    ensures Observed(states, n) ==> Observed(listed, n)
  {
    if Observed(states, n) {
      var i :| 0 <= i < |states| && states[i].name == n;
      assert states[i] in listed;
    }
  }
}
