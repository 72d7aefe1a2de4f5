/** JSON Schema documents and what they accept (JSON Schema Core 2020-12, sections 8.2.3.1, 10.2.1 and 10.3;
    `required` as in section 6.5.3 of JSON Schema Validation 2020-12). */
module Schema {
  import opened Options

  /** A JSON string. The strings the rewrites look at have a constructor of their own; `DefsPointer(w)` is
      `#/$defs/` followed by `w`; any other string is `Text`. */
  datatype Word =
    | RefWord | AllOf | AnyOf | OneOf | Not | Type | Required | Properties | AdditionalProperties | Items | Const
    | Defs | Id | SchemaVersion | Description | Discriminator | PropertyName | ObjectType
    | Kind | EventClass | MissionId | Time | Data
    | DefsPointer(name: Word)
    | Text(text: string)

  datatype Json =
    | Null
    | Bool(b: bool)
    | Number(n: int)
    | Str(w: Word)
    | Arr(items: seq<Json>)
    | Obj(members: seq<Entry>)

  datatype Entry = Entry(key: Word, value: Json)

  // ---------------------------------------------------------------- records

  predicate Unique(ms: seq<Entry>) {
    forall i, j :: 0 <= i < j < |ms| ==> ms[i].key != ms[j].key
  }

  predicate Has(ms: seq<Entry>, k: Word) {
    exists i :: 0 <= i < |ms| && ms[i].key == k
  }

  function Get(ms: seq<Entry>, k: Word): (v: Json)
    requires Has(ms, k)
    ensures exists i :: 0 <= i < |ms| && ms[i].key == k && ms[i].value == v
  {
    if ms[0].key == k then ms[0].value else Get(ms[1..], k)
  }

  lemma {:induction false} GetAt(ms: seq<Entry>, i: nat)
    requires Unique(ms) && i < |ms|
    ensures Has(ms, ms[i].key) && Get(ms, ms[i].key) == ms[i].value
  {
    if i > 0 {
      GetAt(ms[1..], i - 1);
      assert ms[0].key != ms[i].key;
    }
  }

  /** `{ ...ms, [k]: v }` */
  function Put(ms: seq<Entry>, k: Word, v: Json): seq<Entry> {
    if ms == [] then [Entry(k, v)]
    else if ms[0].key == k then [Entry(k, v)] + ms[1..]
    else [ms[0]] + Put(ms[1..], k, v)
  }

  /** `Reflect.deleteProperty` on a copy */
  function Without(ms: seq<Entry>, k: Word): seq<Entry> {
    if ms == [] then [] else if ms[0].key == k then Without(ms[1..], k) else [ms[0]] + Without(ms[1..], k)
  }

  /** What a record maps a key to. */
  function Find(ms: seq<Entry>, k: Word): Option<Json> {
    if ms == [] then None else if ms[0].key == k then Some(ms[0].value) else Find(ms[1..], k)
  }

  lemma {:induction false} FindExact(ms: seq<Entry>, k: Word)
    ensures Find(ms, k).Some? <==> Has(ms, k)
    ensures Has(ms, k) ==> Find(ms, k) == Some(Get(ms, k))
  {
    if ms != [] {
      FindExact(ms[1..], k);
      if Has(ms, k) && ms[0].key != k {
        var i :| 0 <= i < |ms| && ms[i].key == k;
        assert ms[1..][i - 1].key == k;
      }
      if Has(ms[1..], k) {
        var i :| 0 <= i < |ms[1..]| && ms[1..][i].key == k;
        assert ms[i + 1].key == k;
      }
    }
  }

  lemma FindAt(ms: seq<Entry>, i: nat)
    requires Unique(ms) && i < |ms|
    ensures Find(ms, ms[i].key) == Some(ms[i].value)
  {
    GetAt(ms, i);
    FindExact(ms, ms[i].key);
  }

  lemma FindCons(e: Entry, rest: seq<Entry>, l: Word)
    ensures Find([e] + rest, l) == if e.key == l then Some(e.value) else Find(rest, l)
  {
    assert ([e] + rest)[1..] == rest;
  }

  lemma FindPutHere(ms: seq<Entry>, k: Word, v: Json, l: Word)
    requires ms == [] || ms[0].key == k
    ensures Find(Put(ms, k, v), l) == if l == k then Some(v) else Find(ms, l)
  {
    var rest := if ms == [] then [] else ms[1..];
    assert Put(ms, k, v) == [Entry(k, v)] + rest;
    FindCons(Entry(k, v), rest, l);
  }

  lemma {:induction false} FindPut(ms: seq<Entry>, k: Word, v: Json, l: Word)
    ensures Find(Put(ms, k, v), l) == if l == k then Some(v) else Find(ms, l)
  {
    if ms == [] || ms[0].key == k {
      FindPutHere(ms, k, v, l);
    } else {
      FindPut(ms[1..], k, v, l);
      FindCons(ms[0], Put(ms[1..], k, v), l);
    }
  }

  lemma {:induction false} FindWithout(ms: seq<Entry>, k: Word, l: Word)
    ensures Find(Without(ms, k), l) == if l == k then None else Find(ms, l)
  {
    if ms != [] {
      var rest := Without(ms[1..], k);
      FindWithout(ms[1..], k, l);
      FindCons(ms[0], rest, l);
    }
  }

  lemma {:induction false} UniqueTail(ms: seq<Entry>)
    requires ms != []
    ensures Unique(ms) <==> Unique(ms[1..]) && Find(ms[1..], ms[0].key) == None
  {
    var t := ms[1..];
    assert forall i :: 0 <= i < |t| ==> t[i] == ms[i + 1];
    FindExact(t, ms[0].key);
    if Has(t, ms[0].key) {
      var i :| 0 <= i < |t| && t[i].key == ms[0].key;
      assert ms[0].key == ms[i + 1].key;
    }
    if Unique(t) && !Has(t, ms[0].key) {
      forall i, j | 0 <= i < j < |ms|
        ensures ms[i].key != ms[j].key
      {
        assert ms[j] == t[j - 1];
        assert i > 0 ==> ms[i] == t[i - 1];
      }
    }
  }

  lemma {:induction false} PutUnique(ms: seq<Entry>, k: Word, v: Json)
    requires Unique(ms)
    ensures Unique(Put(ms, k, v))
  {
    var p := Put(ms, k, v);
    if ms != [] {
      UniqueTail(ms);
      UniqueTail(p);
      if ms[0].key != k {
        PutUnique(ms[1..], k, v);
        FindPut(ms[1..], k, v, ms[0].key);
        assert p[1..] == Put(ms[1..], k, v);
      } else {
        assert p[1..] == ms[1..];
      }
    }
  }

  lemma {:induction false} WithoutUnique(ms: seq<Entry>, k: Word)
    requires Unique(ms)
    ensures Unique(Without(ms, k))
  {
    if ms != [] {
      UniqueTail(ms);
      WithoutUnique(ms[1..], k);
      if ms[0].key != k {
        var p := Without(ms, k);
        assert p[1..] == Without(ms[1..], k);
        FindWithout(ms[1..], k, ms[0].key);
        UniqueTail(p);
      }
    }
  }

  // ---------------------------------------------------------------- acceptance

  /** What a reference denotes, and every assertion keyword the rewrites do not touch. */
  datatype Semantics = Semantics(reference: (Word, Json) -> bool, assertion: (Word, Json, Json) -> bool)

  predicate IsAnnotation(k: Word) {
    k == Defs || k == Id || k == SchemaVersion || k == Description || k == Discriminator
  }

  /** The names `properties` lists, against which `additionalProperties` is read. */
  predicate Listed(ms: seq<Entry>, name: Word) {
    var p := Find(ms, Properties);
    p.Some? && p.value.Obj? && Find(p.value.members, name).Some?
  }

  /** Whether a schema accepts an instance. */
  ghost predicate Valid(sem: Semantics, schema: Json, x: Json)
    decreases schema, 1
  {
    match schema
    case Bool(b) => b
    case Obj(ms) => forall i :: 0 <= i < |ms| ==> Holds(sem, ms, ms[i].key, ms[i].value, x)
    case _ => false
  }

  ghost predicate Holds(sem: Semantics, ms: seq<Entry>, k: Word, v: Json, x: Json)
    decreases v, 2
  {
    match k
    case RefWord => v.Str? && sem.reference(v.w, x)
    case AllOf => v.Arr? && forall i :: 0 <= i < |v.items| ==> Valid(sem, v.items[i], x)
    case AnyOf => v.Arr? && exists i :: 0 <= i < |v.items| && Valid(sem, v.items[i], x)
    case OneOf =>
      && v.Arr?
      && (exists i :: 0 <= i < |v.items| && Valid(sem, v.items[i], x))
      && (forall i, j :: 0 <= i < j < |v.items| ==> !(Valid(sem, v.items[i], x) && Valid(sem, v.items[j], x)))
    case Not => !Valid(sem, v, x)
    case Type => if v == Str(ObjectType) then x.Obj? else sem.assertion(Type, v, x)
    case Required => x.Obj? ==> RequiredPresent(v, x.members)
    case Properties =>
      x.Obj? && v.Obj? ==>
        forall i :: 0 <= i < |v.members| && Find(x.members, v.members[i].key).Some?
          ==> Valid(sem, v.members[i].value, Find(x.members, v.members[i].key).value)
    case AdditionalProperties =>
      x.Obj? ==>
        forall i :: 0 <= i < |x.members| && !Listed(ms, x.members[i].key) ==> Valid(sem, v, x.members[i].value)
    case Items => x.Arr? ==> forall i :: 0 <= i < |x.items| ==> Valid(sem, v, x.items[i])
    case Const => if v.Str? then x == v else sem.assertion(Const, v, x)
    case _ => IsAnnotation(k) || sem.assertion(k, v, x)
  }

  predicate RequiredPresent(v: Json, xs: seq<Entry>) {
    v.Arr? ==> forall i :: 0 <= i < |v.items| && v.items[i].Str? ==> Find(xs, v.items[i].w).Some?
  }

  ghost predicate KeyHolds(sem: Semantics, ms: seq<Entry>, k: Word, x: Json) {
    Find(ms, k).Some? ==> Holds(sem, ms, k, Find(ms, k).value, x)
  }

  /** Acceptance of a record, key by key. */
  lemma ValidByKey(sem: Semantics, ms: seq<Entry>, x: Json)
    requires Unique(ms)
    ensures Valid(sem, Obj(ms), x) <==> forall k :: KeyHolds(sem, ms, k, x)
  {
    if Valid(sem, Obj(ms), x) {
      forall k
        ensures KeyHolds(sem, ms, k, x)
      {
        FindExact(ms, k);
        if Has(ms, k) {
          var i :| 0 <= i < |ms| && ms[i].key == k && ms[i].value == Get(ms, k);
        }
      }
    }
    if forall k :: KeyHolds(sem, ms, k, x) {
      forall i | 0 <= i < |ms|
        ensures Holds(sem, ms, ms[i].key, ms[i].value, x)
      {
        FindAt(ms, i);
        assert KeyHolds(sem, ms, ms[i].key, x);
      }
    }
  }

  /** A keyword sees its siblings only through the names `properties` lists. */
  lemma HoldsSiblings(sem: Semantics, ms: seq<Entry>, ns: seq<Entry>, k: Word, v: Json, x: Json)
    requires forall name :: Listed(ms, name) == Listed(ns, name)
    ensures Holds(sem, ms, k, v, x) == Holds(sem, ns, k, v, x)
  {
  }
}
