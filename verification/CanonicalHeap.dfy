/** The encoder on JavaScript object graphs, where containers are shared by reference and may be cyclic.

    `encodeContainer` keeps the set of containers it is inside of. The theorems say that this finds every
    cycle and nothing else: the graph encoder agrees with the tree encoder on everything that unfolds to a
    finite tree, whatever is shared in it, and accepts nothing that does not. */
module CanonicalHeap {
  import opened Unicode
  import opened Ordering
  import opened Canonical

  type Ref = nat

  datatype Item = Primitive(value: Value) | Reference(target: Ref)

  /** An own property: enumerable data, or something `dataDescriptorValue` refuses. */
  datatype Slot = Data(item: Item) | NotPlainData

  datatype Property = Property(key: Text, slot: Slot)

  /** `elements` has one entry per index below the length, `Hole` where no own property exists; `extras`
      counts the own string keys that are neither an index nor `length`. */
  datatype Element = Hole | Present(slot: Slot)

  datatype Container =
    | PlainObject(symbolKeys: bool, properties: seq<Property>)
    | ArrayObject(symbolKeys: bool, elements: seq<Element>, extras: nat)
    | ForeignObject

  type Heap = map<Ref, Container>

  datatype DataMember = DataMember(key: Text, item: Item)

  function DataKey(m: DataMember): Key {
    m.key
  }

  // ---------------------------------------------------------------- snapshots

  function SnapshotProperties(properties: seq<Property>): Encoded<seq<DataMember>> {
    if properties == [] then Ok([])
    else if properties[0].slot == NotPlainData then Refused(PropertyForm)
    else
      var rest :- SnapshotProperties(properties[1..]);
      Ok([DataMember(properties[0].key, properties[0].slot.item)] + rest)
  }

  function PresentCount(elements: seq<Element>): nat {
    if elements == [] then 0 else (if elements[0].Present? then 1 else 0) + PresentCount(elements[1..])
  }

  function SnapshotElements(elements: seq<Element>): Encoded<seq<Item>> {
    if elements == [] then Ok([])
    else if elements[0].Hole? then Refused(ArrayForm)
    else if elements[0].slot == NotPlainData then Refused(PropertyForm)
    else
      var rest :- SnapshotElements(elements[1..]);
      Ok([elements[0].slot.item] + rest)
  }

  function SnapshotPlainObject(c: Container): Encoded<seq<DataMember>>
    requires c.PlainObject?
  {
    if c.symbolKeys then Refused(KeyForm) else SnapshotProperties(c.properties)
  }

  function SnapshotDenseArray(c: Container): Encoded<seq<Item>>
    requires c.ArrayObject?
  {
    if c.symbolKeys then Refused(KeyForm)
    else if PresentCount(c.elements) + c.extras != |c.elements| then Refused(ArrayForm)
    else SnapshotElements(c.elements)
  }

  function FirstDataKeyRefusal(members: seq<DataMember>): Encoded<()> {
    if members == [] then Ok(())
    else if |members[0].key| > MAX_KEY_UNITS then Refused(KeyLength)
    else if !KeyFormed(members[0].key) then Refused(KeyForm)
    else FirstDataKeyRefusal(members[1..])
  }

  // ---------------------------------------------------------------- the encoder

  /** `active` holds the containers the encoder is inside of. */
  function EncodeItem(nfc: Text -> Text, heap: Heap, item: Item, active: set<Ref>): Encoded<Text>
    decreases heap.Keys - active, 0, 0
  {
    match item
    case Primitive(v) => if v.Arr? || v.Obj? then Refused(UnsupportedType) else EncodeValue(nfc, v)
    case Reference(r) =>
      if r !in heap || heap[r].ForeignObject? then Refused(UnsupportedType)
      else if r in active then Refused(Cycle)
      else if heap[r].ArrayObject? then
        var items :- SnapshotDenseArray(heap[r]);
        var joined :- EncodeElements(nfc, heap, items, active + {r});
        Ok([OPEN_BRACKET] + joined + [CLOSE_BRACKET])
      else
        var members :- SnapshotPlainObject(heap[r]);
        var _ :- FirstDataKeyRefusal(members);
        var joined :- EncodeDataMembers(nfc, heap, Sort(DataKey, members), active + {r});
        Ok([OPEN_BRACE] + joined + [CLOSE_BRACE])
  }

  function EncodeElements(nfc: Text -> Text, heap: Heap, items: seq<Item>, active: set<Ref>): Encoded<Text>
    decreases heap.Keys - active, 1, |items|
  {
    if items == [] then Ok([])
    else
      var first :- EncodeItem(nfc, heap, items[0], active);
      if |items| == 1 then Ok(first)
      else
        var rest :- EncodeElements(nfc, heap, items[1..], active);
        Ok(first + [COMMA] + rest)
  }

  function EncodeDataMembers(nfc: Text -> Text, heap: Heap, members: seq<DataMember>, active: set<Ref>)
    : Encoded<Text>
    decreases heap.Keys - active, 1, |members|
  {
    if members == [] then Ok([])
    else
      var key :- EncodeString(nfc, members[0].key);
      var value :- EncodeItem(nfc, heap, members[0].item, active);
      var first := key + [COLON] + value;
      if |members| == 1 then Ok(first)
      else
        var rest :- EncodeDataMembers(nfc, heap, members[1..], active);
        Ok(first + [COMMA] + rest)
  }

  // ---------------------------------------------------------------- unfolding

  /** `v` is the finite tree that `item` unfolds to. */
  ghost predicate Unfolds(heap: Heap, item: Item, v: Value)
    decreases v, 1
  {
    match item
    case Primitive(p) => v == p && !v.Arr? && !v.Obj?
    case Reference(r) =>
      && r in heap
      && match heap[r]
         case ForeignObject => v == Unsupported
         case ArrayObject(_, _, _) =>
           && v.Arr? && SnapshotDenseArray(heap[r]).Ok?
           && UnfoldItems(heap, SnapshotDenseArray(heap[r]).value, v.items)
         case PlainObject(_, _) =>
           && v.Obj? && SnapshotPlainObject(heap[r]).Ok?
           && UnfoldMembers(heap, SnapshotPlainObject(heap[r]).value, v.members)
  }

  ghost predicate UnfoldItems(heap: Heap, items: seq<Item>, vs: seq<Value>)
    decreases vs, 0
  {
    if items == [] || vs == [] then items == [] && vs == []
    else Unfolds(heap, items[0], vs[0]) && UnfoldItems(heap, items[1..], vs[1..])
  }

  ghost predicate UnfoldMembers(heap: Heap, members: seq<DataMember>, ms: seq<Member>)
    decreases ms, 0
  {
    if members == [] || ms == [] then members == [] && ms == []
    else
      && members[0].key == ms[0].key
      && Unfolds(heap, members[0].item, ms[0].value)
      && UnfoldMembers(heap, members[1..], ms[1..])
  }

  /** An item unfolds to at most one tree. */
  lemma {:induction false} UnfoldsUnique(heap: Heap, item: Item, v: Value, w: Value)
    requires Unfolds(heap, item, v) && Unfolds(heap, item, w)
    ensures v == w
    decreases v, 1
  {
    if item.Reference? && heap[item.target].ArrayObject? {
      UnfoldItemsUnique(heap, SnapshotDenseArray(heap[item.target]).value, v.items, w.items);
    } else if item.Reference? && heap[item.target].PlainObject? {
      UnfoldMembersUnique(heap, SnapshotPlainObject(heap[item.target]).value, v.members, w.members);
    }
  }

  lemma {:induction false} UnfoldItemsUnique(heap: Heap, items: seq<Item>, vs: seq<Value>, ws: seq<Value>)
    requires UnfoldItems(heap, items, vs) && UnfoldItems(heap, items, ws)
    ensures vs == ws
    decreases vs, 0
  {
    if vs != [] {
      UnfoldsUnique(heap, items[0], vs[0], ws[0]);
      UnfoldItemsUnique(heap, items[1..], vs[1..], ws[1..]);
      assert vs == [vs[0]] + vs[1..] && ws == [ws[0]] + ws[1..];
    }
  }

  lemma {:induction false} UnfoldMembersUnique(
    heap: Heap, members: seq<DataMember>, ms: seq<Member>, ns: seq<Member>)
    requires UnfoldMembers(heap, members, ms) && UnfoldMembers(heap, members, ns)
    ensures ms == ns
    decreases ms, 0
  {
    if ms != [] {
      UnfoldsUnique(heap, members[0].item, ms[0].value, ns[0].value);
      UnfoldMembersUnique(heap, members[1..], ms[1..], ns[1..]);
      assert ms == [ms[0]] + ms[1..] && ns == [ns[0]] + ns[1..];
    }
  }

  // ---------------------------------------------------------------- agreement with the tree encoder

  lemma {:induction false} InsertPairs(heap: Heap, d: DataMember, m: Member, ds: seq<DataMember>, ms: seq<Member>)
    requires d.key == m.key && Unfolds(heap, d.item, m.value) && UnfoldMembers(heap, ds, ms)
    ensures UnfoldMembers(heap, Insert(DataKey, d, ds), Insert(KeyOf, m, ms))
    decreases |ds|
  {
    if ds != [] && Less(DataKey(ds[0]), DataKey(d)) {
      InsertPairs(heap, d, m, ds[1..], ms[1..]);
      assert ([ds[0]] + Insert(DataKey, d, ds[1..]))[1..] == Insert(DataKey, d, ds[1..]);
      assert ([ms[0]] + Insert(KeyOf, m, ms[1..]))[1..] == Insert(KeyOf, m, ms[1..]);
    } else {
      assert ([d] + ds)[1..] == ds && ([m] + ms)[1..] == ms;
    }
  }

  lemma {:induction false} SortPairs(heap: Heap, ds: seq<DataMember>, ms: seq<Member>)
    requires UnfoldMembers(heap, ds, ms)
    ensures UnfoldMembers(heap, Sort(DataKey, ds), Sorted(ms))
    decreases |ds|
  {
    if ds != [] {
      SortPairs(heap, ds[1..], ms[1..]);
      InsertPairs(heap, ds[0], ms[0], Sort(DataKey, ds[1..]), Sorted(ms[1..]));
    }
  }

  lemma {:induction false} KeyRefusalsAgree(heap: Heap, ds: seq<DataMember>, ms: seq<Member>)
    requires UnfoldMembers(heap, ds, ms)
    ensures FirstDataKeyRefusal(ds) == FirstKeyRefusal(ms)
    decreases |ds|
  {
    if ds != [] {
      KeyRefusalsAgree(heap, ds[1..], ms[1..]);
    }
  }

  /** Every container being encoded unfolds to a tree larger than what is left to encode. */
  ghost predicate Enclosing(heap: Heap, active: set<Ref>, size: nat) {
    forall r :: r in active ==> exists t :: Unfolds(heap, Reference(r), t) && Size(t) > size
  }

  /** On an item that unfolds to a finite tree, however much of it is shared, the graph encoder gives what
      the tree encoder gives for that tree, refusals included. */
  lemma {:induction false} EncodeItemUnfolds(nfc: Text -> Text, heap: Heap, item: Item, v: Value, active: set<Ref>)
    requires Unfolds(heap, item, v) && Enclosing(heap, active, Size(v))
    ensures EncodeItem(nfc, heap, item, active) == EncodeValue(nfc, v)
    decreases Size(v), 0
  {
    if item.Reference? && !heap[item.target].ForeignObject? {
      var r := item.target;
      if r in active {
        var t :| Unfolds(heap, Reference(r), t) && Size(t) > Size(v);
        UnfoldsUnique(heap, item, v, t);
      }
      if heap[r].ArrayObject? {
        EncodeElementsUnfold(nfc, heap, SnapshotDenseArray(heap[r]).value, v.items, active + {r});
      } else {
        var ds := SnapshotPlainObject(heap[r]).value;
        KeyRefusalsAgree(heap, ds, v.members);
        SortPairs(heap, ds, v.members);
        SizeSorted(v.members);
        EncodeDataMembersUnfold(nfc, heap, Sort(DataKey, ds), Sorted(v.members), active + {r});
      }
    }
  }

  lemma {:induction false} EncodeElementsUnfold(
    nfc: Text -> Text, heap: Heap, items: seq<Item>, vs: seq<Value>, active: set<Ref>)
    requires UnfoldItems(heap, items, vs) && Enclosing(heap, active, SizeItems(vs))
    ensures EncodeElements(nfc, heap, items, active) == EncodeItems(nfc, vs)
    decreases SizeItems(vs), 1
  {
    if items != [] {
      EncodeItemUnfolds(nfc, heap, items[0], vs[0], active);
      EncodeElementsUnfold(nfc, heap, items[1..], vs[1..], active);
      assert |items| == 1 <==> |vs| == 1;
    }
  }

  lemma {:induction false} EncodeDataMembersUnfold(
    nfc: Text -> Text, heap: Heap, ds: seq<DataMember>, ms: seq<Member>, active: set<Ref>)
    requires UnfoldMembers(heap, ds, ms) && Enclosing(heap, active, SizeMembers(ms))
    ensures EncodeDataMembers(nfc, heap, ds, active) == EncodeMembers(nfc, ms)
    decreases SizeMembers(ms), 1
  {
    if ds != [] {
      EncodeItemUnfolds(nfc, heap, ds[0].item, ms[0].value, active);
      EncodeDataMembersUnfold(nfc, heap, ds[1..], ms[1..], active);
      assert |ds| == 1 <==> |ms| == 1;
    }
  }

  // ---------------------------------------------------------------- nothing infinite is accepted

  /** An accepted item unfolds: the tree is found along the encoder's own recursion. */
  lemma {:induction false} AcceptedUnfolds(nfc: Text -> Text, heap: Heap, item: Item, active: set<Ref>)
    returns (v: Value)
    requires EncodeItem(nfc, heap, item, active).Ok?
    ensures Unfolds(heap, item, v)
    decreases heap.Keys - active, 0, 0
  {
    match item
    case Primitive(p) => v := p;
    case Reference(r) =>
      if heap[r].ArrayObject? {
        var items := AcceptedItemsUnfold(nfc, heap, SnapshotDenseArray(heap[r]).value, active + {r});
        v := Arr(items);
      } else {
        var ds := SnapshotPlainObject(heap[r]).value;
        var sorted := AcceptedMembersUnfold(nfc, heap, Sort(DataKey, ds), active + {r});
        var members := UnsortMembers(heap, ds, sorted);
        v := Obj(members);
      }
  }

  lemma {:induction false} AcceptedItemsUnfold(nfc: Text -> Text, heap: Heap, items: seq<Item>, active: set<Ref>)
    returns (vs: seq<Value>)
    requires EncodeElements(nfc, heap, items, active).Ok?
    ensures UnfoldItems(heap, items, vs)
    decreases heap.Keys - active, 1, |items|
  {
    vs := [];
    if items != [] {
      var first := AcceptedUnfolds(nfc, heap, items[0], active);
      var rest := [];
      if |items| > 1 {
        rest := AcceptedItemsUnfold(nfc, heap, items[1..], active);
      }
      vs := [first] + rest;
      assert vs[1..] == rest;
    }
  }

  lemma {:induction false} AcceptedMembersUnfold(
    nfc: Text -> Text, heap: Heap, ds: seq<DataMember>, active: set<Ref>) returns (ms: seq<Member>)
    requires EncodeDataMembers(nfc, heap, ds, active).Ok?
    ensures UnfoldMembers(heap, ds, ms)
    decreases heap.Keys - active, 1, |ds|
  {
    ms := [];
    if ds != [] {
      var first := AcceptedUnfolds(nfc, heap, ds[0].item, active);
      var rest := [];
      if |ds| > 1 {
        rest := AcceptedMembersUnfold(nfc, heap, ds[1..], active);
      }
      ms := [Member(ds[0].key, first)] + rest;
      assert ms[1..] == rest;
    }
  }

  ghost predicate HasUnfolding(heap: Heap, item: Item) {
    exists t :: Unfolds(heap, item, t)
  }

  lemma {:induction false} UnfoldedMember(heap: Heap, ds: seq<DataMember>, ms: seq<Member>, d: DataMember)
    requires UnfoldMembers(heap, ds, ms) && d in ds
    ensures HasUnfolding(heap, d.item)
    decreases |ds|
  {
    if ds[0] == d {
      assert Unfolds(heap, d.item, ms[0].value);
    } else {
      UnfoldedMember(heap, ds[1..], ms[1..], d);
    }
  }

  lemma {:induction false} GatherMembers(heap: Heap, ds: seq<DataMember>) returns (ms: seq<Member>)
    requires forall i :: 0 <= i < |ds| ==> HasUnfolding(heap, ds[i].item)
    ensures UnfoldMembers(heap, ds, ms)
  {
    ms := [];
    if ds != [] {
      assert HasUnfolding(heap, ds[0].item);
      var t :| Unfolds(heap, ds[0].item, t);
      var rest := GatherMembers(heap, ds[1..]);
      ms := [Member(ds[0].key, t)] + rest;
      assert ms[1..] == rest;
    }
  }

  lemma UnsortMembers(heap: Heap, ds: seq<DataMember>, sorted: seq<Member>) returns (ms: seq<Member>)
    requires UnfoldMembers(heap, Sort(DataKey, ds), sorted)
    ensures UnfoldMembers(heap, ds, ms)
  {
    forall i | 0 <= i < |ds|
      ensures HasUnfolding(heap, ds[i].item)
    {
      SortMember(DataKey, ds, ds[i]);
      UnfoldedMember(heap, Sort(DataKey, ds), sorted, ds[i]);
    }
    ms := GatherMembers(heap, ds);
  }

  /** Refusals that only an object graph can earn. */
  predicate IsGraphRefusal(r: Refusal) {
    r == Cycle || r == ArrayForm || r == PropertyForm
  }

  lemma {:induction false} TreeRefusals(nfc: Text -> Text, v: Value)
    ensures EncodeValue(nfc, v).Refused? ==> !IsGraphRefusal(EncodeValue(nfc, v).refusal)
    decreases Size(v)
  {
    match v
    case Arr(items) => TreeItemRefusals(nfc, items);
    case Obj(members) =>
      KeyRefusals(members);
      SizeSorted(members);
      TreeMemberRefusals(nfc, Sorted(members));
    case _ =>
  }

  lemma {:induction false} KeyRefusals(members: seq<Member>)
    ensures FirstKeyRefusal(members).Refused? ==> !IsGraphRefusal(FirstKeyRefusal(members).refusal)
  {
    if members != [] {
      KeyRefusals(members[1..]);
    }
  }

  lemma {:induction false} TreeItemRefusals(nfc: Text -> Text, items: seq<Value>)
    ensures EncodeItems(nfc, items).Refused? ==> !IsGraphRefusal(EncodeItems(nfc, items).refusal)
    decreases SizeItems(items)
  {
    if items != [] {
      TreeRefusals(nfc, items[0]);
      TreeItemRefusals(nfc, items[1..]);
    }
  }

  lemma {:induction false} TreeMemberRefusals(nfc: Text -> Text, members: seq<Member>)
    ensures EncodeMembers(nfc, members).Refused? ==> !IsGraphRefusal(EncodeMembers(nfc, members).refusal)
    decreases SizeMembers(members)
  {
    if members != [] {
      TreeRefusals(nfc, members[0].value);
      TreeMemberRefusals(nfc, members[1..]);
    }
  }

  // ---------------------------------------------------------------- a cycle refusal names a cycle

  /** The container at `r` directly holds the one at `q`. */
  ghost predicate Contains(heap: Heap, r: Ref, q: Ref) {
    && r in heap
    && match heap[r]
       case ForeignObject => false
       case ArrayObject(_, _, _) => SnapshotDenseArray(heap[r]).Ok? && Reference(q) in SnapshotDenseArray(heap[r]).value
       case PlainObject(_, _) =>
         && SnapshotPlainObject(heap[r]).Ok?
         && exists d :: d in SnapshotPlainObject(heap[r]).value && d.item == Reference(q)
  }

  ghost predicate IsPath(heap: Heap, trail: seq<Ref>) {
    forall i :: 0 < i < |trail| ==> Contains(heap, trail[i - 1], trail[i])
  }

  /** A path that comes back to a container on it. */
  ghost predicate ComesBack(heap: Heap, path: seq<Ref>) {
    path != [] && IsPath(heap, path) && path[|path| - 1] in path[..|path| - 1]
  }

  function Refs(trail: seq<Ref>): set<Ref> {
    set r | r in trail
  }

  lemma RefsGrow(trail: seq<Ref>, r: Ref)
    ensures Refs(trail + [r]) == Refs(trail) + {r}
  {
  }

  /** The item may stand at the end of the trail. */
  ghost predicate Follows(heap: Heap, trail: seq<Ref>, item: Item) {
    trail != [] && item.Reference? ==> Contains(heap, trail[|trail| - 1], item.target)
  }

  lemma {:induction false} CycleFound(
    nfc: Text -> Text, heap: Heap, item: Item, trail: seq<Ref>) returns (path: seq<Ref>)
    requires IsPath(heap, trail) && Follows(heap, trail, item)
    requires EncodeItem(nfc, heap, item, Refs(trail)) == Refused(Cycle)
    ensures item.Reference? && trail + [item.target] <= path && ComesBack(heap, path)
    decreases heap.Keys - Refs(trail), 0, 0
  {
    if item.Primitive? {
      TreeRefusals(nfc, item.value);
    } else {
      var r := item.target;
      var longer := trail + [r];
      assert IsPath(heap, longer);
      RefsGrow(trail, r);
      SnapshotRefusals(heap[r]);
      if r in Refs(trail) {
        path := longer;
        assert path[..|path| - 1] == trail;
      } else if heap[r].ArrayObject? {
        path := CycleInItems(nfc, heap, SnapshotDenseArray(heap[r]).value, longer);
      } else {
        var ds := SnapshotPlainObject(heap[r]).value;
        DataKeyRefusals(ds);
        forall d | d in Sort(DataKey, ds) ensures Follows(heap, longer, d.item) {
          SortMember(DataKey, ds, d);
        }
        path := CycleInMembers(nfc, heap, Sort(DataKey, ds), longer);
      }
    }
  }

  lemma SnapshotRefusals(c: Container)
    ensures c.ArrayObject? ==> SnapshotDenseArray(c) != Refused(Cycle)
    ensures c.PlainObject? ==> SnapshotPlainObject(c) != Refused(Cycle)
  {
    if c.ArrayObject? {
      ElementRefusals(c.elements);
    } else if c.PlainObject? {
      PropertyRefusals(c.properties);
    }
  }

  lemma {:induction false} ElementRefusals(elements: seq<Element>)
    ensures SnapshotElements(elements) != Refused(Cycle)
  {
    if elements != [] {
      ElementRefusals(elements[1..]);
    }
  }

  lemma {:induction false} PropertyRefusals(properties: seq<Property>)
    ensures SnapshotProperties(properties) != Refused(Cycle)
  {
    if properties != [] {
      PropertyRefusals(properties[1..]);
    }
  }

  lemma {:induction false} DataKeyRefusals(ds: seq<DataMember>)
    ensures FirstDataKeyRefusal(ds) != Refused(Cycle)
  {
    if ds != [] {
      DataKeyRefusals(ds[1..]);
    }
  }

  lemma {:induction false} CycleInItems(nfc: Text -> Text, heap: Heap, items: seq<Item>, trail: seq<Ref>)
    returns (path: seq<Ref>)
    requires IsPath(heap, trail) && forall item :: item in items ==> Follows(heap, trail, item)
    requires EncodeElements(nfc, heap, items, Refs(trail)) == Refused(Cycle)
    ensures trail <= path && ComesBack(heap, path)
    decreases heap.Keys - Refs(trail), 1, |items|
  {
    if EncodeItem(nfc, heap, items[0], Refs(trail)) == Refused(Cycle) {
      path := CycleFound(nfc, heap, items[0], trail);
    } else {
      path := CycleInItems(nfc, heap, items[1..], trail);
    }
  }

  lemma {:induction false} CycleInMembers(nfc: Text -> Text, heap: Heap, ds: seq<DataMember>, trail: seq<Ref>)
    returns (path: seq<Ref>)
    requires IsPath(heap, trail) && forall d :: d in ds ==> Follows(heap, trail, d.item)
    requires EncodeDataMembers(nfc, heap, ds, Refs(trail)) == Refused(Cycle)
    ensures trail <= path && ComesBack(heap, path)
    decreases heap.Keys - Refs(trail), 1, |ds|
  {
    assert EncodeString(nfc, ds[0].key) != Refused(Cycle);
    if EncodeItem(nfc, heap, ds[0].item, Refs(trail)) == Refused(Cycle) {
      path := CycleFound(nfc, heap, ds[0].item, trail);
    } else {
      path := CycleInMembers(nfc, heap, ds[1..], trail);
    }
  }

  /** A path that comes back leaves nothing finite: its first container does not unfold. */
  lemma {:induction false} ComesBackUnfolds(heap: Heap, path: seq<Ref>)
    requires ComesBack(heap, path)
    ensures !HasUnfolding(heap, Reference(path[0]))
  {
    if HasUnfolding(heap, Reference(path[0])) {
      var v :| Unfolds(heap, Reference(path[0]), v);
      var k :| 0 <= k < |path| - 1 && path[k] == path[|path| - 1];
      var t := UnfoldsAlong(heap, path, v, k);
      var u := UnfoldsAlong(heap, path, v, |path| - 1);
      ShrinksAlong(heap, path, k, |path| - 1, t, u);
      UnfoldsUnique(heap, Reference(path[k]), t, u);
    }
  }

  /** What a contained container unfolds to, inside what its holder unfolds to. */
  lemma UnfoldsInside(heap: Heap, r: Ref, q: Ref, v: Value) returns (t: Value)
    requires Contains(heap, r, q) && Unfolds(heap, Reference(r), v)
    ensures Unfolds(heap, Reference(q), t) && Size(t) < Size(v)
  {
    if heap[r].ArrayObject? {
      t := UnfoldsItem(heap, SnapshotDenseArray(heap[r]).value, v.items, Reference(q));
    } else {
      var ds := SnapshotPlainObject(heap[r]).value;
      var d :| d in ds && d.item == Reference(q);
      t := UnfoldsMember(heap, ds, v.members, d);
    }
  }

  lemma {:induction false} UnfoldsItem(heap: Heap, items: seq<Item>, vs: seq<Value>, item: Item) returns (t: Value)
    requires UnfoldItems(heap, items, vs) && item in items
    ensures Unfolds(heap, item, t) && Size(t) <= SizeItems(vs)
    decreases |items|
  {
    if items[0] == item {
      t := vs[0];
    } else {
      t := UnfoldsItem(heap, items[1..], vs[1..], item);
    }
  }

  lemma {:induction false} UnfoldsMember(
    heap: Heap, ds: seq<DataMember>, ms: seq<Member>, d: DataMember) returns (t: Value)
    requires UnfoldMembers(heap, ds, ms) && d in ds
    ensures Unfolds(heap, d.item, t) && Size(t) <= SizeMembers(ms)
    decreases |ds|
  {
    if ds[0] == d {
      t := ms[0].value;
    } else {
      t := UnfoldsMember(heap, ds[1..], ms[1..], d);
    }
  }

  lemma {:induction false} UnfoldsAlong(heap: Heap, path: seq<Ref>, v: Value, k: nat) returns (t: Value)
    requires IsPath(heap, path) && k < |path| && Unfolds(heap, Reference(path[0]), v)
    ensures Unfolds(heap, Reference(path[k]), t)
    decreases k
  {
    if k == 0 {
      t := v;
    } else {
      var u := UnfoldsAlong(heap, path, v, k - 1);
      assert Contains(heap, path[k - 1], path[k]);
      t := UnfoldsInside(heap, path[k - 1], path[k], u);
    }
  }

  lemma {:induction false} ShrinksAlong(heap: Heap, path: seq<Ref>, i: nat, j: nat, t: Value, u: Value)
    requires IsPath(heap, path) && i < j < |path|
    requires Unfolds(heap, Reference(path[i]), t) && Unfolds(heap, Reference(path[j]), u)
    ensures Size(u) < Size(t)
    decreases j - i
  {
    assert Contains(heap, path[i + 1 - 1], path[i + 1]);
    var next := UnfoldsInside(heap, path[i], path[i + 1], t);
    if i + 1 == j {
      UnfoldsUnique(heap, Reference(path[j]), next, u);
    } else {
      ShrinksAlong(heap, path, i + 1, j, next, u);
    }
  }

  /** The encoder accepts exactly the items that unfold to an accepted finite tree, and gives that tree's
      text; `Cycle` is refused only for an item from which some path comes back to a container on it, and
      an item with such a path has no finite tree. */
  lemma GraphEncoding(nfc: Text -> Text, heap: Heap, item: Item)
    requires IsNormalization(nfc)
    ensures EncodeItem(nfc, heap, item, {}).Ok? <==> exists v :: Unfolds(heap, item, v) && Accepted(nfc, v)
    ensures forall v :: Unfolds(heap, item, v) ==> EncodeItem(nfc, heap, item, {}) == EncodeValue(nfc, v)
    ensures EncodeItem(nfc, heap, item, {}) == Refused(Cycle) ==> LeadsBack(heap, item)
    ensures LeadsBack(heap, item) ==> !exists v :: Unfolds(heap, item, v)
  {
    forall v | Unfolds(heap, item, v)
      ensures EncodeItem(nfc, heap, item, {}) == EncodeValue(nfc, v)
      ensures EncodeValue(nfc, v).Ok? <==> Accepted(nfc, v)
    {
      EncodeItemUnfolds(nfc, heap, item, v, {});
      EncodePrintsCanon(nfc, v);
    }
    if EncodeItem(nfc, heap, item, {}).Ok? {
      var v := AcceptedUnfolds(nfc, heap, item, {});
      assert Unfolds(heap, item, v) && Accepted(nfc, v);
    }
    CycleLeadsBack(nfc, heap, item);
    if LeadsBack(heap, item) {
      var path :| ComesBack(heap, path) && path[0] == item.target;
      ComesBackUnfolds(heap, path);
    }
  }

  ghost predicate LeadsBack(heap: Heap, item: Item) {
    item.Reference? && exists path :: ComesBack(heap, path) && path[0] == item.target
  }

  lemma CycleLeadsBack(nfc: Text -> Text, heap: Heap, item: Item)
    ensures EncodeItem(nfc, heap, item, {}) == Refused(Cycle) ==> LeadsBack(heap, item)
  {
    if EncodeItem(nfc, heap, item, {}) == Refused(Cycle) {
      assert Refs([]) == {};
      var path := CycleFound(nfc, heap, item, []);
    }
  }
}
