/** Reference normalisation and closed-union factoring accept exactly the instances the schema accepted. */
module SchemaPasses {
  import opened Options
  import opened Schema
  import opened SchemaRewrite

  // ---------------------------------------------------------------- references with siblings

  function NormalizeRecord(ms: seq<Entry>): Json {
    var reference := Find(ms, RefWord);
    if reference == None || !reference.value.Str? || |ms| == 1 then Obj(ms)
    else Obj([Entry(AllOf, Arr([Obj([Entry(RefWord, reference.value)]), Obj(Without(ms, RefWord))]))])
  }

  function NormalizeReferenceSiblings(schema: Json): Json {
    Rewrite(NormalizeRecord, schema)
  }

  lemma NormalizeActs()
    ensures ActsOnSchemas(NormalizeRecord)
  {
    forall ms: seq<Entry> | forall i :: 0 <= i < |ms| ==> IsSchemaShape(ms[i].value)
      ensures NormalizeRecord(ms) == Obj(ms)
    {
      FindExact(ms, RefWord);
    }
  }

  lemma SingleKeyword(sem: Semantics, k: Word, v: Json, x: Json)
    ensures Valid(sem, Obj([Entry(k, v)]), x) <==> Holds(sem, [Entry(k, v)], k, v, x)
  {
    var ms := [Entry(k, v)];
    assert ms[0].key == k && ms[0].value == v;
  }

  lemma BothOf(sem: Semantics, ms: seq<Entry>, a: Json, b: Json, x: Json)
    ensures Holds(sem, ms, AllOf, Arr([a, b]), x) <==> Valid(sem, a, x) && Valid(sem, b, x)
  {
    var items := [a, b];
    assert items[0] == a && items[1] == b;
  }

  lemma NormalizeStep(sem: Semantics, ms: seq<Entry>, x: Json)
    requires Unique(ms)
    ensures Valid(sem, NormalizeRecord(ms), x) <==> Valid(sem, Obj(ms), x)
  {
    var reference := Find(ms, RefWord);
    if reference.Some? && reference.value.Str? && |ms| != 1 {
      var alone := [Entry(RefWord, reference.value)];
      var siblings := Without(ms, RefWord);
      WithoutUnique(ms, RefWord);
      ValidByKey(sem, ms, x);
      ValidByKey(sem, siblings, x);
      SingleKeyword(sem, RefWord, reference.value, x);
      assert Holds(sem, alone, RefWord, reference.value, x) <==> KeyHolds(sem, ms, RefWord, x);
      forall k
        ensures KeyHolds(sem, siblings, k, x) <==> k == RefWord || KeyHolds(sem, ms, k, x)
      {
        FindWithout(ms, RefWord, k);
        FindWithout(ms, RefWord, Properties);
        if k != RefWord && Find(ms, k).Some? {
          HoldsSiblings(sem, siblings, ms, k, Find(ms, k).value, x);
        }
      }
      var branches := Arr([Obj(alone), Obj(siblings)]);
      SingleKeyword(sem, AllOf, branches, x);
      BothOf(sem, [Entry(AllOf, branches)], Obj(alone), Obj(siblings), x);
    }
  }

  function Anything(ms: seq<Entry>): bool {
    true
  }

  /** Moving the siblings of a reference under `allOf` changes no verdict, at any depth. */
  lemma NormalizeKeepsMeaning(sem: Semantics, schema: Json, x: Json)
    requires Sound(NormalizeRecord, Anything, schema)
    ensures Valid(sem, NormalizeReferenceSiblings(schema), x) <==> Valid(sem, schema, x)
  {
    NormalizeActs();
    forall ms, y | Unique(ms)
      ensures Valid(sem, NormalizeRecord(ms), y) <==> Valid(sem, Obj(ms), y)
    {
      NormalizeStep(sem, ms, y);
    }
    RewriteKeepsMeaning(sem, NormalizeRecord, Anything, schema, x);
  }

  /** The pass does not know keywords from values: a `const` whose value looks like a reference with siblings is
      rewritten too. */
  function ReferenceLike(w: Word, k: Word): Json {
    Obj([Entry(RefWord, Str(w)), Entry(k, Null)])
  }

  lemma ReferenceLikeRewritten(w: Word, k: Word)
    requires k != RefWord
    ensures NormalizeReferenceSiblings(ReferenceLike(w, k))
            == Obj([Entry(AllOf, Arr([Obj([Entry(RefWord, Str(w))]), Obj([Entry(k, Null)])]))])
  {
    var a, b := Entry(RefWord, Str(w)), Entry(k, Null);
    assert [a, b][1..] == [b] && [b][1..] == [];
    assert RewriteMembers(NormalizeRecord, []) == [];
    assert RewriteMembers(NormalizeRecord, [b]) == [b];
    assert RewriteMembers(NormalizeRecord, [a, b]) == [a, b];
    assert Without([], RefWord) == [];
    assert Without([b], RefWord) == [b];
    assert Without([a, b], RefWord) == [b];
    assert Find([a, b], RefWord) == Some(Str(w));
  }

  /** The value itself is accepted before and refused after. */
  lemma ConstIsRewritten(sem: Semantics, w: Word, k: Word)
    requires k != RefWord && forall v, y :: sem.assertion(Const, v, y) <==> y == v
    ensures var schema, x := Obj([Entry(Const, ReferenceLike(w, k))]), ReferenceLike(w, k);
      Valid(sem, schema, x) && !Valid(sem, NormalizeReferenceSiblings(schema), x)
  {
    var v := ReferenceLike(w, k);
    var r := NormalizeReferenceSiblings(v);
    ReferenceLikeRewritten(w, k);
    assert r != v by {
      assert |r.members| == 1 && |v.members| == 2;
    }
    SingleKeyword(sem, Const, v, v);
    SingleKeyword(sem, Const, r, v);
    ConstRewritten(v);
  }

  lemma ConstRewritten(v: Json)
    ensures NormalizeReferenceSiblings(Obj([Entry(Const, v)])) == Obj([Entry(Const, NormalizeReferenceSiblings(v))])
  {
    var e := Entry(Const, v);
    assert [e][1..] == [];
    assert RewriteMembers(NormalizeRecord, []) == [];
    assert RewriteMembers(NormalizeRecord, [e]) == [Entry(Const, NormalizeReferenceSiblings(v))];
  }

  // ---------------------------------------------------------------- factoring closed unions

  predicate IsStringArray(v: Json) {
    v.Arr? && forall i :: 0 <= i < |v.items| ==> v.items[i].Str?
  }

  predicate IsClosedObject(v: Json) {
    && v.Obj?
    && Find(v.members, Type) == Some(Str(ObjectType))
    && Find(v.members, AdditionalProperties) == Some(Bool(false))
    && Find(v.members, Properties).Some? && Find(v.members, Properties).value.Obj?
    && Find(v.members, Required).Some? && IsStringArray(Find(v.members, Required).value)
  }

  function PropertiesOf(v: Json): seq<Entry>
    requires IsClosedObject(v)
  {
    Find(v.members, Properties).value.members
  }

  predicate Requires(v: Json, name: Word)
    requires IsClosedObject(v)
  {
    var required := Find(v.members, Required).value.items;
    exists i :: 0 <= i < |required| && required[i] == Str(name)
  }

  predicate AllClosed(variants: seq<Json>) {
    forall i :: 0 <= i < |variants| ==> IsClosedObject(variants[i])
  }

  /** Required by every variant and with the same schema as in the first. */
  predicate IsCommon(variants: seq<Json>, first: seq<Entry>, name: Word)
    requires AllClosed(variants)
  {
    forall i :: 0 <= i < |variants| ==>
      Requires(variants[i], name) && Find(PropertiesOf(variants[i]), name) == Find(first, name)
  }

  function CommonProperties(variants: seq<Json>, first: seq<Entry>, from: seq<Entry>): seq<Entry>
    requires AllClosed(variants)
  {
    if from == [] then []
    else if IsCommon(variants, first, from[0].key) then [from[0]] + CommonProperties(variants, first, from[1..])
    else CommonProperties(variants, first, from[1..])
  }

  function Names(ms: seq<Entry>): seq<Json> {
    seq(|ms|, i requires 0 <= i < |ms| => Str(ms[i].key))
  }

  /** The properties of a variant, those that are factored out replaced by the empty schema. */
  function Blanked(ms: seq<Entry>, common: seq<Entry>): (r: seq<Entry>)
    ensures |r| == |ms|
    ensures forall i :: 0 <= i < |ms| ==>
      r[i] == if Find(common, ms[i].key).Some? then Entry(ms[i].key, Obj([])) else ms[i]
  {
    seq(|ms|, i requires 0 <= i < |ms| =>
      if Find(common, ms[i].key).Some? then Entry(ms[i].key, Obj([])) else ms[i])
  }

  function Residual(variant: Json, common: seq<Entry>): Json
    requires IsClosedObject(variant)
  {
    Obj(Put(variant.members, Properties, Obj(Blanked(PropertiesOf(variant), common))))
  }

  function CommonSchema(common: seq<Entry>): Json {
    Obj([Entry(Properties, Obj(common)), Entry(Required, Arr(Names(common))), Entry(Type, Str(ObjectType))])
  }

  function CommonOf(variants: seq<Json>): seq<Entry>
    requires |variants| > 0 && AllClosed(variants)
  {
    CommonProperties(variants, PropertiesOf(variants[0]), PropertiesOf(variants[0]))
  }

  predicate Factorable(ms: seq<Entry>) {
    var variants := Find(ms, AnyOf);
    && variants.Some? && variants.value.Arr? && |variants.value.items| >= 2
    && AllClosed(variants.value.items)
    && CommonOf(variants.value.items) != []
  }

  function Residuals(variants: seq<Json>, common: seq<Entry>): (r: seq<Json>)
    requires AllClosed(variants)
    ensures |r| == |variants|
    ensures forall i :: 0 <= i < |variants| ==> r[i] == Residual(variants[i], common)
  {
    seq(|variants|, i requires 0 <= i < |variants| => Residual(variants[i], common))
  }

  function Parts(variants: seq<Json>): Json
    requires |variants| > 0 && AllClosed(variants)
  {
    var common := CommonOf(variants);
    Arr([CommonSchema(common), Obj([Entry(AnyOf, Arr(Residuals(variants, common)))])])
  }

  /** `{ ...siblings, allOf: [common, { anyOf: residuals }] }`, which overwrites a sibling `allOf`. */
  function FactorRecord(ms: seq<Entry>): Json {
    if !Factorable(ms) then Obj(ms)
    else
      var variants := Find(ms, AnyOf).value.items;
      Obj(Put(Without(ms, AnyOf), AllOf, Parts(variants)))
  }

  function FactorClosedUnions(schema: Json): Json {
    Rewrite(FactorRecord, schema)
  }

  lemma FactorActs()
    ensures ActsOnSchemas(FactorRecord)
  {
    forall ms: seq<Entry> | forall i :: 0 <= i < |ms| ==> IsSchemaShape(ms[i].value)
      ensures FactorRecord(ms) == Obj(ms)
    {
      ShapesNotFactored(ms);
    }
  }

  lemma ShapesNotFactored(ms: seq<Entry>)
    requires forall i :: 0 <= i < |ms| ==> IsSchemaShape(ms[i].value)
    ensures !Factorable(ms)
  {
    FindExact(ms, AnyOf);
  }

  /** The records inside a variant have each key once, as JavaScript objects do. */
  ghost predicate VariantKeyed(v: Json)
    requires IsClosedObject(v)
  {
    Unique(v.members) && Unique(PropertiesOf(v))
  }

  // ---------------------------------------------------------------- one variant

  /** The common names are present and their values valid. */
  ghost predicate CommonHolds(sem: Semantics, common: seq<Entry>, x: Json) {
    x.Obj? && forall i :: 0 <= i < |common| ==>
      Find(x.members, common[i].key).Some? && Valid(sem, common[i].value, Find(x.members, common[i].key).value)
  }

  lemma CommonSchemaExact(sem: Semantics, common: seq<Entry>, x: Json)
    ensures Valid(sem, CommonSchema(common), x) <==> CommonHolds(sem, common, x)
  {
    var ms := CommonSchema(common).members;
    assert Valid(sem, CommonSchema(common), x) <==>
      && Holds(sem, ms, ms[0].key, ms[0].value, x)
      && Holds(sem, ms, ms[1].key, ms[1].value, x)
      && Holds(sem, ms, ms[2].key, ms[2].value, x);
    if x.Obj? {
      var names := Names(common);
      assert RequiredPresent(Arr(names), x.members) <==>
        forall i :: 0 <= i < |common| ==> Find(x.members, common[i].key).Some? by {
        assert forall i :: 0 <= i < |common| ==> names[i] == Str(common[i].key);
      }
    }
  }

  ghost predicate PropertiesHold(sem: Semantics, ps: seq<Entry>, x: Json) {
    x.Obj? ==>
      forall i :: 0 <= i < |ps| && Find(x.members, ps[i].key).Some?
        ==> Valid(sem, ps[i].value, Find(x.members, ps[i].key).value)
  }

  /** The common entries are entries of the variant's own properties. */
  ghost predicate DrawnFrom(common: seq<Entry>, ps: seq<Entry>) {
    forall i :: 0 <= i < |common| ==> Find(ps, common[i].key) == Some(common[i].value)
  }

  lemma PropertiesSplit(sem: Semantics, ps: seq<Entry>, common: seq<Entry>, x: Json)
    requires Unique(ps) && DrawnFrom(common, ps)
    requires x.Obj? && forall i :: 0 <= i < |common| ==> Find(x.members, common[i].key).Some?
    ensures PropertiesHold(sem, ps, x) <==> PropertiesHold(sem, Blanked(ps, common), x) && CommonHolds(sem, common, x)
  {
    var blank := Blanked(ps, common);
    if PropertiesHold(sem, ps, x) {
      forall i | 0 <= i < |common|
        ensures Valid(sem, common[i].value, Find(x.members, common[i].key).value)
      {
        FindExact(ps, common[i].key);
        var j :| 0 <= j < |ps| && ps[j].key == common[i].key && ps[j].value == common[i].value;
      }
    }
    if PropertiesHold(sem, blank, x) && CommonHolds(sem, common, x) {
      forall i | 0 <= i < |ps| && Find(x.members, ps[i].key).Some?
        ensures Valid(sem, ps[i].value, Find(x.members, ps[i].key).value)
      {
        assert blank[i].key == ps[i].key;
        if Find(common, ps[i].key).Some? {
          FindExact(common, ps[i].key);
          var j :| 0 <= j < |common| && common[j].key == ps[i].key;
          FindAt(ps, i);
          assert common[j].value == ps[i].value;
        }
      }
    }
  }

  lemma BlankedNames(ps: seq<Entry>, common: seq<Entry>, name: Word)
    ensures Find(Blanked(ps, common), name).Some? <==> Find(ps, name).Some?
  {
    FindExact(ps, name);
    FindExact(Blanked(ps, common), name);
    if Has(ps, name) {
      var i :| 0 <= i < |ps| && ps[i].key == name;
      assert Blanked(ps, common)[i].key == name;
    }
  }

  lemma ResidualFind(variant: Json, common: seq<Entry>, k: Word)
    requires IsClosedObject(variant)
    ensures Find(Residual(variant, common).members, k)
            == if k == Properties then Some(Obj(Blanked(PropertiesOf(variant), common))) else Find(variant.members, k)
  {
    FindPut(variant.members, Properties, Obj(Blanked(PropertiesOf(variant), common)), k);
  }

  lemma ResidualListed(variant: Json, common: seq<Entry>, name: Word)
    requires IsClosedObject(variant)
    ensures Listed(Residual(variant, common).members, name) == Listed(variant.members, name)
  {
    ResidualFind(variant, common, Properties);
    BlankedNames(PropertiesOf(variant), common, name);
  }

  lemma PropertiesKey(sem: Semantics, ms: seq<Entry>, ps: seq<Entry>, x: Json)
    requires Find(ms, Properties) == Some(Obj(ps))
    ensures KeyHolds(sem, ms, Properties, x) <==> PropertiesHold(sem, ps, x)
  {
  }

  lemma ResidualProperties(sem: Semantics, variant: Json, common: seq<Entry>, x: Json)
    requires IsClosedObject(variant)
    ensures KeyHolds(sem, variant.members, Properties, x) <==> PropertiesHold(sem, PropertiesOf(variant), x)
    ensures KeyHolds(sem, Residual(variant, common).members, Properties, x)
            <==> PropertiesHold(sem, Blanked(PropertiesOf(variant), common), x)
  {
    ResidualFind(variant, common, Properties);
    PropertiesKey(sem, variant.members, PropertiesOf(variant), x);
    PropertiesKey(sem, Residual(variant, common).members, Blanked(PropertiesOf(variant), common), x);
  }

  lemma SameKey(sem: Semantics, ms: seq<Entry>, rs: seq<Entry>, k: Word, x: Json)
    requires Find(rs, k) == Find(ms, k) && forall name :: Listed(rs, name) == Listed(ms, name)
    ensures KeyHolds(sem, rs, k, x) <==> KeyHolds(sem, ms, k, x)
  {
    if Find(ms, k).Some? {
      HoldsSiblings(sem, rs, ms, k, Find(ms, k).value, x);
    }
  }

  lemma ResidualKeyword(sem: Semantics, variant: Json, common: seq<Entry>, k: Word, x: Json)
    requires IsClosedObject(variant) && k != Properties
    ensures KeyHolds(sem, Residual(variant, common).members, k, x) <==> KeyHolds(sem, variant.members, k, x)
  {
    forall name
      ensures Listed(Residual(variant, common).members, name) == Listed(variant.members, name)
    {
      ResidualListed(variant, common, name);
    }
    ResidualFind(variant, common, k);
    SameKey(sem, variant.members, Residual(variant, common).members, k, x);
  }

  /** A variant accepts what its residual and the factored-out part both accept. */
  lemma VariantSplit(sem: Semantics, variant: Json, common: seq<Entry>, x: Json)
    requires IsClosedObject(variant) && VariantKeyed(variant) && DrawnFrom(common, PropertiesOf(variant))
    requires forall i :: 0 <= i < |common| ==> Requires(variant, common[i].key)
    ensures Valid(sem, variant, x) <==> Valid(sem, Residual(variant, common), x) && CommonHolds(sem, common, x)
  {
    var ms, ps := variant.members, PropertiesOf(variant);
    var rs := Residual(variant, common).members;
    PutUnique(ms, Properties, Obj(Blanked(ps, common)));
    ValidByKey(sem, ms, x);
    ValidByKey(sem, rs, x);
    forall k | k != Properties
      ensures KeyHolds(sem, rs, k, x) <==> KeyHolds(sem, ms, k, x)
    {
      ResidualKeyword(sem, variant, common, k, x);
    }
    VariantProperties(sem, variant, common, x);
  }

  /** Where its other keywords hold, a variant's properties are the residual's and the common ones. */
  lemma VariantProperties(sem: Semantics, variant: Json, common: seq<Entry>, x: Json)
    requires IsClosedObject(variant) && VariantKeyed(variant) && DrawnFrom(common, PropertiesOf(variant))
    requires forall i :: 0 <= i < |common| ==> Requires(variant, common[i].key)
    ensures KeyHolds(sem, variant.members, Type, x) && KeyHolds(sem, variant.members, Required, x) ==>
      (KeyHolds(sem, variant.members, Properties, x)
       <==> KeyHolds(sem, Residual(variant, common).members, Properties, x) && CommonHolds(sem, common, x))
  {
    ResidualProperties(sem, variant, common, x);
    TypeKey(sem, variant, x);
    if x.Obj? && KeyHolds(sem, variant.members, Required, x) {
      RequiredCommon(sem, variant, common, x);
      PropertiesSplit(sem, PropertiesOf(variant), common, x);
    }
  }

  lemma TypeKey(sem: Semantics, variant: Json, x: Json)
    requires IsClosedObject(variant)
    ensures KeyHolds(sem, variant.members, Type, x) <==> x.Obj?
  {
  }

  lemma RequiredCommon(sem: Semantics, variant: Json, common: seq<Entry>, x: Json)
    requires IsClosedObject(variant) && KeyHolds(sem, variant.members, Required, x) && x.Obj?
    requires forall i :: 0 <= i < |common| ==> Requires(variant, common[i].key)
    ensures forall i :: 0 <= i < |common| ==> Find(x.members, common[i].key).Some?
  {
    var required := Find(variant.members, Required).value;
    assert RequiredPresent(required, x.members);
    forall i | 0 <= i < |common|
      ensures Find(x.members, common[i].key).Some?
    {
      var j :| 0 <= j < |required.items| && required.items[j] == Str(common[i].key);
    }
  }

  // ---------------------------------------------------------------- the union

  ghost predicate CommonEntry(variants: seq<Json>, first: seq<Entry>, e: Entry)
    requires AllClosed(variants)
  {
    IsCommon(variants, first, e.key) && Find(first, e.key) == Some(e.value)
  }

  lemma {:induction false} CommonAt(variants: seq<Json>, first: seq<Entry>, from: seq<Entry>, i: nat)
    requires AllClosed(variants) && i < |CommonProperties(variants, first, from)|
    requires forall j :: 0 <= j < |from| ==> Find(first, from[j].key) == Some(from[j].value)
    ensures CommonEntry(variants, first, CommonProperties(variants, first, from)[i])
  {
    if !IsCommon(variants, first, from[0].key) {
      CommonAt(variants, first, from[1..], i);
    } else if i > 0 {
      CommonAt(variants, first, from[1..], i - 1);
    }
  }

  ghost predicate VariantsKeyed(variants: seq<Json>)
    requires AllClosed(variants)
  {
    forall i :: 0 <= i < |variants| ==> VariantKeyed(variants[i])
  }

  lemma UnionSplit(sem: Semantics, variants: seq<Json>, x: Json)
    requires |variants| > 0 && AllClosed(variants) && VariantsKeyed(variants)
    ensures var common := CommonOf(variants);
      (exists i :: 0 <= i < |variants| && Valid(sem, variants[i], x)) <==>
      (exists i :: 0 <= i < |variants| && Valid(sem, Residuals(variants, common)[i], x)) && CommonHolds(sem, common, x)
  {
    var first := PropertiesOf(variants[0]);
    var common := CommonOf(variants);
    forall i | 0 <= i < |first|
      ensures Find(first, first[i].key) == Some(first[i].value)
    {
      assert VariantKeyed(variants[0]);
      FindAt(first, i);
    }
    forall i | 0 <= i < |variants|
      ensures Valid(sem, variants[i], x)
              <==> Valid(sem, Residuals(variants, common)[i], x) && CommonHolds(sem, common, x)
    {
      forall j | 0 <= j < |common|
        ensures Requires(variants[i], common[j].key)
        ensures Find(PropertiesOf(variants[i]), common[j].key) == Some(common[j].value)
      {
        CommonAt(variants, first, first, j);
      }
      assert VariantKeyed(variants[i]);
      VariantSplit(sem, variants[i], common, x);
    }
  }

  lemma SomeOf(sem: Semantics, ms: seq<Entry>, variants: seq<Json>, x: Json)
    ensures Holds(sem, ms, AnyOf, Arr(variants), x) <==> exists i :: 0 <= i < |variants| && Valid(sem, variants[i], x)
  {
  }

  /** The two parts together accept what the union accepted. */
  lemma PartsMeaning(sem: Semantics, ms: seq<Entry>, ns: seq<Entry>, variants: seq<Json>, x: Json)
    requires |variants| > 0 && AllClosed(variants) && VariantsKeyed(variants)
    ensures Holds(sem, ms, AllOf, Parts(variants), x) <==> Holds(sem, ns, AnyOf, Arr(variants), x)
  {
    var common := CommonOf(variants);
    UnionSplit(sem, variants, x);
    CommonSchemaExact(sem, common, x);
    SomeOf(sem, ns, variants, x);
    PartsSplit(sem, ms, CommonSchema(common), Residuals(variants, common), x);
  }

  lemma PartsSplit(sem: Semantics, ms: seq<Entry>, common: Json, residuals: seq<Json>, x: Json)
    ensures Holds(sem, ms, AllOf, Arr([common, Obj([Entry(AnyOf, Arr(residuals))])]), x)
            <==> Valid(sem, common, x) && exists i :: 0 <= i < |residuals| && Valid(sem, residuals[i], x)
  {
    BothOf(sem, ms, common, Obj([Entry(AnyOf, Arr(residuals))]), x);
    SingleKeyword(sem, AnyOf, Arr(residuals), x);
    SomeOf(sem, [Entry(AnyOf, Arr(residuals))], residuals, x);
  }

  /** Factoring a record is the record without its `allOf`: the factored union means what the union meant,
      and a sibling `allOf` is lost. */
  lemma FactorExact(sem: Semantics, ms: seq<Entry>, x: Json)
    requires Unique(ms) && Factorable(ms) && VariantsKeyed(Find(ms, AnyOf).value.items)
    ensures Valid(sem, FactorRecord(ms), x) <==> Valid(sem, Obj(Without(ms, AllOf)), x)
  {
    var variants := Find(ms, AnyOf).value.items;
    var parts := Parts(variants);
    var kept := Without(ms, AnyOf);
    var rs := Put(kept, AllOf, parts);
    var ws := Without(ms, AllOf);
    WithoutUnique(ms, AnyOf);
    PutUnique(kept, AllOf, parts);
    WithoutUnique(ms, AllOf);
    ValidByKey(sem, rs, x);
    ValidByKey(sem, ws, x);
    FactoredKeywords(sem, ms, x);
    forall k
      ensures k != AllOf && k != AnyOf ==> (KeyHolds(sem, rs, k, x) <==> KeyHolds(sem, ws, k, x))
    {
      if k != AllOf && k != AnyOf {
        OtherKeywords(sem, ms, parts, k, x);
      }
    }
  }

  lemma FactoredKeywords(sem: Semantics, ms: seq<Entry>, x: Json)
    requires Factorable(ms) && VariantsKeyed(Find(ms, AnyOf).value.items)
    ensures var rs := Put(Without(ms, AnyOf), AllOf, Parts(Find(ms, AnyOf).value.items));
      var ws := Without(ms, AllOf);
      && (KeyHolds(sem, rs, AllOf, x) <==> KeyHolds(sem, ws, AnyOf, x))
      && KeyHolds(sem, rs, AnyOf, x) && KeyHolds(sem, ws, AllOf, x)
  {
    var variants := Find(ms, AnyOf).value.items;
    var parts := Parts(variants);
    var kept := Without(ms, AnyOf);
    FindPut(kept, AllOf, parts, AllOf);
    FindPut(kept, AllOf, parts, AnyOf);
    FindWithout(ms, AnyOf, AnyOf);
    FindWithout(ms, AllOf, AnyOf);
    FindWithout(ms, AllOf, AllOf);
    PartsMeaning(sem, Put(kept, AllOf, parts), Without(ms, AllOf), variants, x);
  }

  lemma OtherKeywords(sem: Semantics, ms: seq<Entry>, parts: Json, k: Word, x: Json)
    requires k != AllOf && k != AnyOf
    ensures KeyHolds(sem, Put(Without(ms, AnyOf), AllOf, parts), k, x) <==> KeyHolds(sem, Without(ms, AllOf), k, x)
  {
    var kept := Without(ms, AnyOf);
    var rs := Put(kept, AllOf, parts);
    var ws := Without(ms, AllOf);
    FindPut(kept, AllOf, parts, k);
    FindWithout(ms, AnyOf, k);
    FindWithout(ms, AllOf, k);
    FindPut(kept, AllOf, parts, Properties);
    FindWithout(ms, AnyOf, Properties);
    FindWithout(ms, AllOf, Properties);
    if Find(ms, k).Some? {
      HoldsSiblings(sem, rs, ws, k, Find(ms, k).value, x);
    }
  }

  lemma {:induction false} WithoutAbsent(ms: seq<Entry>, k: Word)
    requires Find(ms, k) == None
    ensures Without(ms, k) == ms
  {
    if ms != [] {
      WithoutAbsent(ms[1..], k);
    }
  }

  /** The guard a caller can check: no `allOf` beside a union that will be factored. */
  ghost predicate NoSiblingAllOf(ms: seq<Entry>) {
    Factorable(ms) ==> Find(ms, AllOf) == None && VariantsKeyed(Find(ms, AnyOf).value.items)
  }

  /** Factoring closed unions accepts exactly the same instances, at every nesting depth, provided no factored
      union has a sibling `allOf`. */
  lemma FactorKeepsMeaning(sem: Semantics, schema: Json, x: Json)
    requires Sound(FactorRecord, ms => NoSiblingAllOf(ms), schema)
    ensures Valid(sem, FactorClosedUnions(schema), x) <==> Valid(sem, schema, x)
  {
    FactorActs();
    var fit := ms => NoSiblingAllOf(ms);
    forall ms, y | Unique(ms) && fit(ms)
      ensures Valid(sem, FactorRecord(ms), y) <==> Valid(sem, Obj(ms), y)
    {
      if Factorable(ms) {
        FactorExact(sem, ms, y);
        WithoutAbsent(ms, AllOf);
      }
    }
    RewriteKeepsMeaning(sem, FactorRecord, fit, schema, x);
  }

  ghost predicate SameVerdict(sem: Semantics, a: Json, b: Json, x: Json) {
    Valid(sem, a, x) <==> Valid(sem, b, x)
  }

  /** The rest of the record implies its `allOf`. */
  ghost predicate AllOfAddsNothing(sem: Semantics, ms: seq<Entry>, x: Json) {
    Valid(sem, Obj(Without(ms, AllOf)), x) ==> KeyHolds(sem, ms, AllOf, x)
  }

  /** With a sibling `allOf` a record's meaning survives exactly when that `allOf` adds nothing to the rest. */
  lemma FactorKeepsExactly(sem: Semantics, ms: seq<Entry>)
    requires Unique(ms) && Factorable(ms) && VariantsKeyed(Find(ms, AnyOf).value.items)
    ensures (forall x :: SameVerdict(sem, FactorRecord(ms), Obj(ms), x)) <==> forall x :: AllOfAddsNothing(sem, ms, x)
  {
    forall x
      ensures SameVerdict(sem, FactorRecord(ms), Obj(ms), x) <==> AllOfAddsNothing(sem, ms, x)
    {
      FactorKeepsAt(sem, ms, x);
    }
  }

  lemma FactorKeepsAt(sem: Semantics, ms: seq<Entry>, x: Json)
    requires Unique(ms) && Factorable(ms) && VariantsKeyed(Find(ms, AnyOf).value.items)
    ensures SameVerdict(sem, FactorRecord(ms), Obj(ms), x) <==> AllOfAddsNothing(sem, ms, x)
  {
    FactorExact(sem, ms, x);
    WithoutOneKeyword(sem, ms, AllOf, x);
  }

  lemma WithoutOneKeyword(sem: Semantics, ms: seq<Entry>, k: Word, x: Json)
    requires Unique(ms) && k != Properties
    ensures Valid(sem, Obj(ms), x) <==> Valid(sem, Obj(Without(ms, k)), x) && KeyHolds(sem, ms, k, x)
  {
    var ws := Without(ms, k);
    WithoutUnique(ms, k);
    ValidByKey(sem, ms, x);
    ValidByKey(sem, ws, x);
    FindWithout(ms, k, Properties);
    forall l
      ensures KeyHolds(sem, ws, l, x) <==> l == k || KeyHolds(sem, ms, l, x)
    {
      FindWithout(ms, k, l);
      if l != k && Find(ms, l).Some? {
        HoldsSiblings(sem, ws, ms, l, Find(ms, l).value, x);
      }
    }
  }

  /** A closed object with one required property of any kind. */
  function SampleVariant(): Json {
    Obj([Entry(Type, Str(ObjectType)), Entry(AdditionalProperties, Bool(false)),
         Entry(Properties, Obj([Entry(Kind, Bool(true))])), Entry(Required, Arr([Str(Kind)]))])
  }

  lemma SampleMembers()
    ensures var vs := SampleVariant().members;
      && Unique(vs)
      && Find(vs, Type) == Some(Str(ObjectType)) && Find(vs, AdditionalProperties) == Some(Bool(false))
      && Find(vs, Properties) == Some(Obj([Entry(Kind, Bool(true))])) && Find(vs, Required) == Some(Arr([Str(Kind)]))
  {
    var vs := SampleVariant().members;
    assert vs[0].key == Type && vs[1].key == AdditionalProperties && vs[2].key == Properties && vs[3].key == Required;
    assert Unique(vs);
    FindAt(vs, 0);
    FindAt(vs, 1);
    FindAt(vs, 2);
    FindAt(vs, 3);
  }

  lemma SampleClosed()
    ensures IsClosedObject(SampleVariant()) && VariantKeyed(SampleVariant()) && Requires(SampleVariant(), Kind)
    ensures PropertiesOf(SampleVariant()) == [Entry(Kind, Bool(true))]
  {
    SampleMembers();
    var required := [Str(Kind)];
    assert required[0] == Str(Kind);
  }

  lemma KindRequired(sem: Semantics, ms: seq<Entry>, x: Json)
    requires x.Obj? && Find(x.members, Kind).Some?
    ensures Holds(sem, ms, Required, Arr([Str(Kind)]), x)
  {
  }

  lemma KindAny(sem: Semantics, ms: seq<Entry>, x: Json)
    ensures Holds(sem, ms, Properties, Obj([Entry(Kind, Bool(true))]), x)
  {
  }

  lemma KindOnly(sem: Semantics, ms: seq<Entry>, y: Json)
    requires Listed(ms, Kind)
    ensures Holds(sem, ms, AdditionalProperties, Bool(false), Obj([Entry(Kind, y)]))
  {
  }

  lemma FindFirst(k: Word, v: Json)
    ensures Find([Entry(k, v)], k) == Some(v)
  {
  }

  lemma SampleListsKind()
    ensures Listed(SampleVariant().members, Kind)
  {
    SampleMembers();
    FindFirst(Kind, Bool(true));
  }

  lemma SampleAccepts(sem: Semantics)
    ensures Valid(sem, SampleVariant(), Obj([Entry(Kind, Null)]))
  {
    var vs, x := SampleVariant().members, Obj([Entry(Kind, Null)]);
    FindFirst(Kind, Null);
    SampleListsKind();
    KindOnly(sem, vs, Null);
    KindAny(sem, vs, x);
    KindRequired(sem, vs, x);
    IsObject(sem, vs, x);
    FourEntries(sem, Entry(Type, Str(ObjectType)), Entry(AdditionalProperties, Bool(false)),
                Entry(Properties, Obj([Entry(Kind, Bool(true))])), Entry(Required, Arr([Str(Kind)])), x);
  }

  lemma IsObject(sem: Semantics, ms: seq<Entry>, x: Json)
    requires x.Obj?
    ensures Holds(sem, ms, Type, Str(ObjectType), x)
  {
  }

  lemma FourEntries(sem: Semantics, a: Entry, b: Entry, c: Entry, d: Entry, x: Json)
    requires Holds(sem, [a, b, c, d], a.key, a.value, x) && Holds(sem, [a, b, c, d], b.key, b.value, x)
    requires Holds(sem, [a, b, c, d], c.key, c.value, x) && Holds(sem, [a, b, c, d], d.key, d.value, x)
    ensures Valid(sem, Obj([a, b, c, d]), x)
  {
  }

  lemma SampleFactorable(ms: seq<Entry>)
    requires Find(ms, AnyOf) == Some(Arr([SampleVariant(), SampleVariant()]))
    ensures Factorable(ms) && VariantsKeyed(Find(ms, AnyOf).value.items)
  {
    SampleClosed();
    var variants := [SampleVariant(), SampleVariant()];
    var props := PropertiesOf(SampleVariant());
    assert AllClosed(variants);
    assert IsCommon(variants, props, Kind);
    assert CommonOf(variants)[0] == props[0];
  }

  lemma RefusesAll(sem: Semantics, ms: seq<Entry>, v: Json, x: Json)
    requires |ms| > 1 && ms[1] == Entry(AllOf, v) && v == Arr([Bool(false)])
    ensures !Valid(sem, Obj(ms), x)
  {
    assert !Valid(sem, v.items[0], x);
    assert !Holds(sem, ms, ms[1].key, ms[1].value, x);
  }

  lemma AcceptsFirst(sem: Semantics, ms: seq<Entry>, v: Json, x: Json)
    requires v.Arr? && |v.items| > 0 && Valid(sem, v.items[0], x)
    ensures Holds(sem, ms, AnyOf, v, x)
  {
  }

  /** A union whose `allOf` sibling refuses everything: the factored record accepts what the original refused. */
  lemma SiblingAllOfIsLost(sem: Semantics, ms: seq<Entry>, x: Json)
    requires ms == [Entry(AnyOf, Arr([SampleVariant(), SampleVariant()])), Entry(AllOf, Arr([Bool(false)]))]
    requires x == Obj([Entry(Kind, Null)])
    ensures !Valid(sem, Obj(ms), x) && Valid(sem, FactorRecord(ms), x)
  {
    var union := Arr([SampleVariant(), SampleVariant()]);
    WithoutSecond(Entry(AnyOf, union), Entry(AllOf, Arr([Bool(false)])));
    SampleFactorable(ms);
    RefusesAll(sem, ms, Arr([Bool(false)]), x);
    SampleUnique(ms);
    FactorExact(sem, ms, x);
    UnionAccepts(sem, union, x);
  }

  lemma SampleUnique(ms: seq<Entry>)
    requires |ms| == 2 && ms[0].key != ms[1].key
    ensures Unique(ms)
  {
  }

  lemma UnionAccepts(sem: Semantics, union: Json, x: Json)
    requires union == Arr([SampleVariant(), SampleVariant()]) && x == Obj([Entry(Kind, Null)])
    ensures Valid(sem, Obj([Entry(AnyOf, union)]), x)
  {
    SingleKeyword(sem, AnyOf, union, x);
    SampleAccepts(sem);
    AcceptsFirst(sem, [Entry(AnyOf, union)], union, x);
  }

  lemma WithoutSecond(a: Entry, b: Entry)
    requires a.key != b.key
    ensures Without([a, b], b.key) == [a] && Find([a, b], a.key) == Some(a.value)
  {
    assert [a, b][1..] == [b] && [b][1..] == [];
    assert Without([b], b.key) == [];
  }
}
