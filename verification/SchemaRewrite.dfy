/** The schema passes of apps/dashboard/scripts/generate-dashboard-contracts.ts. Each rewrites the members of
    every record first and then the record itself, everywhere in the document; `RewriteKeepsMeaning` lifts
    what one record step keeps to whole schemas at every depth. */
module SchemaRewrite {
  import opened Options
  import opened Schema

  /** What a pass does to a record whose members are rewritten already. */
  type RecordStep = seq<Entry> -> Json

  function Rewrite(step: RecordStep, v: Json): Json
    decreases v
  {
    match v
    case Arr(items) => Arr(RewriteItems(step, items))
    case Obj(ms) => step(RewriteMembers(step, ms))
    case _ => v
  }

  function RewriteItems(step: RecordStep, items: seq<Json>): (r: seq<Json>)
    ensures |r| == |items|
    decreases items
  {
    if items == [] then [] else [Rewrite(step, items[0])] + RewriteItems(step, items[1..])
  }

  function RewriteMembers(step: RecordStep, ms: seq<Entry>): (r: seq<Entry>)
    ensures |r| == |ms|
    decreases ms
  {
    assert ms != [] ==> ms[0].value < ms[0];
    if ms == [] then [] else [Entry(ms[0].key, Rewrite(step, ms[0].value))] + RewriteMembers(step, ms[1..])
  }

  lemma {:induction false} RewriteItemsAt(step: RecordStep, items: seq<Json>, i: nat)
    requires i < |items|
    ensures RewriteItems(step, items)[i] == Rewrite(step, items[i])
  {
    if i > 0 {
      RewriteItemsAt(step, items[1..], i - 1);
    }
  }

  lemma {:induction false} RewriteMembersAt(step: RecordStep, ms: seq<Entry>, i: nat)
    requires i < |ms|
    ensures RewriteMembers(step, ms)[i] == Entry(ms[i].key, Rewrite(step, ms[i].value))
  {
    if i > 0 {
      RewriteMembersAt(step, ms[1..], i - 1);
    }
  }

  lemma {:induction false} RewriteMembersFind(step: RecordStep, ms: seq<Entry>, k: Word)
    ensures Find(RewriteMembers(step, ms), k)
            == if Find(ms, k).Some? then Some(Rewrite(step, Find(ms, k).value)) else None
  {
    if ms != [] {
      RewriteMembersFind(step, ms[1..], k);
      assert RewriteMembers(step, ms)[1..] == RewriteMembers(step, ms[1..]);
    }
  }

  lemma RewriteMembersUnique(step: RecordStep, ms: seq<Entry>)
    requires Unique(ms)
    ensures Unique(RewriteMembers(step, ms))
  {
    var r := RewriteMembers(step, ms);
    forall i, j | 0 <= i < j < |r|
      ensures r[i].key != r[j].key
    {
      RewriteMembersAt(step, ms, i);
      RewriteMembersAt(step, ms, j);
    }
  }

  // ---------------------------------------------------------------- which documents

  predicate IsSchemaShape(v: Json) {
    v.Obj? || v.Bool?
  }

  /** A record step leaves a record of subschemas, such as `properties`, alone, and gives a record back. */
  ghost predicate ActsOnSchemas(step: RecordStep) {
    && (forall ms :: step(ms).Obj?)
    && (forall ms: seq<Entry> {:trigger step(ms)} ::
          (forall i :: 0 <= i < |ms| ==> IsSchemaShape(ms[i].value)) ==> step(ms) == Obj(ms))
  }

  /** A schema document: keywords hold schemas where they should, no key repeats, `fit` holds of every
      rewritten schema record, and the values of all other keywords contain nothing the pass rewrites. */
  ghost predicate Sound(step: RecordStep, fit: seq<Entry> -> bool, schema: Json)
    decreases schema, 1
  {
    match schema
    case Bool(_) => true
    case Obj(ms) =>
      && Unique(ms)
      && fit(RewriteMembers(step, ms))
      && forall i :: 0 <= i < |ms| ==> SoundEntry(step, fit, ms[i].key, ms[i].value)
    case _ => false
  }

  ghost predicate SoundEntry(step: RecordStep, fit: seq<Entry> -> bool, k: Word, v: Json)
    decreases v, 2
  {
    match k
    case AllOf => v.Arr? && forall i :: 0 <= i < |v.items| ==> Sound(step, fit, v.items[i])
    case AnyOf => v.Arr? && forall i :: 0 <= i < |v.items| ==> Sound(step, fit, v.items[i])
    case OneOf => v.Arr? && forall i :: 0 <= i < |v.items| ==> Sound(step, fit, v.items[i])
    case Not => Sound(step, fit, v)
    case Items => Sound(step, fit, v)
    case AdditionalProperties => Sound(step, fit, v)
    case Properties =>
      v.Obj? && Unique(v.members) && forall i :: 0 <= i < |v.members| ==> Sound(step, fit, v.members[i].value)
    case Defs => true
    case _ => Rewrite(step, v) == v
  }

  ghost predicate KeepsMeaning(sem: Semantics, step: RecordStep, fit: seq<Entry> -> bool) {
    forall ms, x :: Unique(ms) && fit(ms) ==> (Valid(sem, step(ms), x) <==> Valid(sem, Obj(ms), x))
  }

  lemma SoundShape(step: RecordStep, fit: seq<Entry> -> bool, schema: Json)
    requires ActsOnSchemas(step) && Sound(step, fit, schema)
    ensures IsSchemaShape(schema) && IsSchemaShape(Rewrite(step, schema))
  {
  }

  /** The record of a `properties` keyword is rewritten value by value only. */
  lemma PropertiesRewritten(step: RecordStep, fit: seq<Entry> -> bool, v: Json)
    requires ActsOnSchemas(step) && SoundEntry(step, fit, Properties, v)
    ensures Rewrite(step, v) == Obj(RewriteMembers(step, v.members))
  {
    var r := RewriteMembers(step, v.members);
    forall i | 0 <= i < |r|
      ensures IsSchemaShape(r[i].value)
    {
      RewriteMembersAt(step, v.members, i);
      SoundShape(step, fit, v.members[i].value);
    }
  }

  lemma ListedRewritten(step: RecordStep, fit: seq<Entry> -> bool, ms: seq<Entry>, name: Word)
    requires ActsOnSchemas(step) && Sound(step, fit, Obj(ms))
    ensures Listed(RewriteMembers(step, ms), name) == Listed(ms, name)
  {
    RewriteMembersFind(step, ms, Properties);
    if Find(ms, Properties).Some? {
      FindExact(ms, Properties);
      var i :| 0 <= i < |ms| && ms[i].key == Properties && ms[i].value == Find(ms, Properties).value;
      assert SoundEntry(step, fit, ms[i].key, ms[i].value);
      PropertiesRewritten(step, fit, ms[i].value);
      RewriteMembersFind(step, ms[i].value.members, name);
    }
  }

  // ---------------------------------------------------------------- lifting

  /** A pass whose record step keeps meaning keeps the meaning of whole schemas, at every nesting depth. */
  lemma {:induction false} RewriteKeepsMeaning(
    sem: Semantics, step: RecordStep, fit: seq<Entry> -> bool, schema: Json, x: Json)
    requires ActsOnSchemas(step) && KeepsMeaning(sem, step, fit) && Sound(step, fit, schema)
    ensures Valid(sem, Rewrite(step, schema), x) <==> Valid(sem, schema, x)
    decreases schema, 1
  {
    if schema.Obj? {
      var ms := schema.members;
      var rs := RewriteMembers(step, ms);
      RewriteMembersUnique(step, ms);
      assert Valid(sem, step(rs), x) <==> Valid(sem, Obj(rs), x);
      forall name
        ensures Listed(rs, name) == Listed(ms, name)
      {
        ListedRewritten(step, fit, ms, name);
      }
      forall i | 0 <= i < |ms|
        ensures Holds(sem, rs, rs[i].key, rs[i].value, x) <==> Holds(sem, ms, ms[i].key, ms[i].value, x)
      {
        RewriteMembersAt(step, ms, i);
        assert SoundEntry(step, fit, ms[i].key, ms[i].value);
        EntryKeepsMeaning(sem, step, fit, ms, ms[i].key, ms[i].value, x);
        HoldsSiblings(sem, rs, ms, rs[i].key, rs[i].value, x);
      }
    }
  }

  lemma {:induction false} EntryKeepsMeaning(
    sem: Semantics, step: RecordStep, fit: seq<Entry> -> bool, ms: seq<Entry>, k: Word, v: Json, x: Json)
    requires ActsOnSchemas(step) && KeepsMeaning(sem, step, fit) && SoundEntry(step, fit, k, v)
    ensures Holds(sem, ms, k, Rewrite(step, v), x) <==> Holds(sem, ms, k, v, x)
    decreases v, 2
  {
    match k
    case AllOf => ItemsKeepMeaning(sem, step, fit, v.items, x);
    case AnyOf => ItemsKeepMeaning(sem, step, fit, v.items, x);
    case OneOf => ItemsKeepMeaning(sem, step, fit, v.items, x);
    case Not => RewriteKeepsMeaning(sem, step, fit, v, x);
    case Items =>
      if x.Arr? {
        forall i | 0 <= i < |x.items|
          ensures Valid(sem, Rewrite(step, v), x.items[i]) <==> Valid(sem, v, x.items[i])
        {
          RewriteKeepsMeaning(sem, step, fit, v, x.items[i]);
        }
      }
    case AdditionalProperties =>
      if x.Obj? {
        forall i | 0 <= i < |x.members|
          ensures Valid(sem, Rewrite(step, v), x.members[i].value) <==> Valid(sem, v, x.members[i].value)
        {
          RewriteKeepsMeaning(sem, step, fit, v, x.members[i].value);
        }
      }
    case Properties =>
      PropertiesRewritten(step, fit, v);
      if x.Obj? {
        PropertiesKeepMeaning(sem, step, fit, v, x);
      }
    case _ =>
  }

  lemma {:induction false} ItemsKeepMeaning(
    sem: Semantics, step: RecordStep, fit: seq<Entry> -> bool, items: seq<Json>, x: Json)
    requires ActsOnSchemas(step) && KeepsMeaning(sem, step, fit)
    requires forall i :: 0 <= i < |items| ==> Sound(step, fit, items[i])
    ensures forall i :: 0 <= i < |items| ==>
      (Valid(sem, RewriteItems(step, items)[i], x) <==> Valid(sem, items[i], x))
    decreases items, 1
  {
    forall i | 0 <= i < |items|
      ensures Valid(sem, RewriteItems(step, items)[i], x) <==> Valid(sem, items[i], x)
    {
      RewriteItemsAt(step, items, i);
      RewriteKeepsMeaning(sem, step, fit, items[i], x);
    }
  }

  lemma {:induction false} PropertiesKeepMeaning(
    sem: Semantics, step: RecordStep, fit: seq<Entry> -> bool, v: Json, x: Json)
    requires ActsOnSchemas(step) && KeepsMeaning(sem, step, fit) && SoundEntry(step, fit, Properties, v) && x.Obj?
    ensures forall i :: 0 <= i < |v.members| && Find(x.members, v.members[i].key).Some? ==>
      (Valid(sem, RewriteMembers(step, v.members)[i].value, Find(x.members, v.members[i].key).value)
       <==> Valid(sem, v.members[i].value, Find(x.members, v.members[i].key).value))
    ensures forall i :: 0 <= i < |v.members| ==> RewriteMembers(step, v.members)[i].key == v.members[i].key
    decreases v, 1
  {
    forall i | 0 <= i < |v.members|
      ensures RewriteMembers(step, v.members)[i].key == v.members[i].key
      ensures Find(x.members, v.members[i].key).Some? ==>
        (Valid(sem, RewriteMembers(step, v.members)[i].value, Find(x.members, v.members[i].key).value)
         <==> Valid(sem, v.members[i].value, Find(x.members, v.members[i].key).value))
    {
      RewriteMembersAt(step, v.members, i);
      if Find(x.members, v.members[i].key).Some? {
        RewriteKeepsMeaning(sem, step, fit, v.members[i].value, Find(x.members, v.members[i].key).value);
      }
    }
  }
}
