/** The discriminated `oneOf` that replaces the union of dashboard event variants in the runtime schema. */
module SchemaEventUnion {
  import opened Options
  import opened Schema
  import opened SchemaPasses

  const ENVELOPE: seq<Word> := [Kind, EventClass, MissionId, Time, Data]

  /** The definition a variant refers to; `Null` when it is not a reference to a local definition. */
  function Definition(defs: seq<Entry>, variant: Json): Json {
    if !variant.Obj? then Null
    else
      var reference := Find(variant.members, RefWord);
      if reference == None || !reference.value.Str? || !reference.value.w.DefsPointer? then Null
      else
        var d := Find(defs, reference.value.w.name);
        if d == None then Null else d.value
  }

  /** Five keys among which each envelope name occurs: the sorted keys are the sorted envelope. */
  predicate KeysAreEnvelope(ps: seq<Entry>) {
    && |ps| == 5
    && Find(ps, Kind).Some? && Find(ps, EventClass).Some? && Find(ps, MissionId).Some? && Find(ps, Time).Some?
    && Find(ps, Data).Some?
  }

  /** The same for a list of strings. */
  predicate ItemsAreEnvelope(items: seq<Json>) {
    && |items| == 5
    && Str(Kind) in items && Str(EventClass) in items && Str(MissionId) in items && Str(Time) in items
    && Str(Data) in items
  }

  /** A closed object with exactly the envelope's properties, all of them required. */
  predicate IsEnvelope(definition: Json) {
    && IsClosedObject(definition)
    && KeysAreEnvelope(PropertiesOf(definition))
    && ItemsAreEnvelope(Find(definition.members, Required).value.items)
  }

  function PropertyOf(definition: Json, name: Word): Option<Json> {
    if !definition.Obj? then None
    else
      var p := Find(definition.members, Properties);
      if p == None || !p.value.Obj? then None else Find(p.value.members, name)
  }

  function Member(definition: Json, name: Word): seq<Entry> {
    var p := PropertyOf(definition, name);
    if p == None then [] else [Entry(name, p.value)]
  }

  /** `{ properties: { data, eventClass, kind } }` */
  function FactoredVariant(definition: Json): Json {
    Obj([Entry(Properties, Obj(Member(definition, Data) + Member(definition, EventClass) + Member(definition, Kind)))])
  }

  /** An envelope that agrees with the first on `mission` and `time`. */
  predicate Agrees(definition: Json, first: Json) {
    && IsEnvelope(definition)
    && PropertyOf(definition, MissionId) == PropertyOf(first, MissionId)
    && PropertyOf(definition, Time) == PropertyOf(first, Time)
  }

  /** Which variants agree with the first. */
  function Agreement(defs: seq<Entry>, variants: seq<Json>, first: Json): (r: seq<bool>)
    ensures |r| == |variants|
  {
    if variants == [] then []
    else [Agrees(Definition(defs, variants[0]), first)] + Agreement(defs, variants[1..], first)
  }

  lemma {:induction false} AgreementAt(defs: seq<Entry>, variants: seq<Json>, first: Json, i: nat)
    requires i < |variants|
    ensures Agreement(defs, variants, first)[i] == Agrees(Definition(defs, variants[i]), first)
  {
    if i > 0 {
      AgreementAt(defs, variants[1..], first, i - 1);
    }
  }

  predicate VariantsAgree(defs: seq<Entry>, variants: seq<Json>) {
    variants == [] || false !in Agreement(defs, variants, Definition(defs, variants[0]))
  }

  lemma AgreesAt(defs: seq<Entry>, variants: seq<Json>, first: Json, i: nat)
    requires i < |variants| && false !in Agreement(defs, variants, first)
    ensures Agrees(Definition(defs, variants[i]), first)
  {
    AgreementAt(defs, variants, first, i);
    assert Agreement(defs, variants, first)[i];
  }

  function Factored(defs: seq<Entry>, variants: seq<Json>): (r: seq<Json>)
    ensures |r| == |variants|
    ensures forall i :: 0 <= i < |variants| ==> r[i] == FactoredVariant(Definition(defs, variants[i]))
  {
    seq(|variants|, i requires 0 <= i < |variants| => FactoredVariant(Definition(defs, variants[i])))
  }

  function EnvelopeProperties(mission: Option<Json>, time: Option<Json>): seq<Entry> {
    [Entry(Data, Obj([])), Entry(EventClass, Obj([])), Entry(Kind, Obj([]))]
    + (if mission == None then [] else [Entry(MissionId, mission.value)])
    + (if time == None then [] else [Entry(Time, time.value)])
  }

  function RequiredEnvelope(): Json {
    Arr([Str(Kind), Str(EventClass), Str(MissionId), Str(Time), Str(Data)])
  }

  function Rebuilt(ms: seq<Entry>, factored: seq<Json>, mission: Option<Json>, time: Option<Json>): seq<Entry> {
    var common := Without(Without(ms, AnyOf), Defs);
    Put(Put(Put(Put(Put(Put(common, AdditionalProperties, Bool(false)),
      Discriminator, Obj([Entry(PropertyName, Str(Kind))])),
      OneOf, Arr(factored)),
      Properties, Obj(EnvelopeProperties(mission, time))),
      Required, RequiredEnvelope()),
      Type, Str(ObjectType))
  }

  /** The rewritten event schema, `None` where the generator throws. */
  function OptimizedEventSchema(ms: seq<Entry>): Option<Json> {
    var union, defs := Find(ms, AnyOf), Find(ms, Defs);
    if union == None || !union.value.Arr? || defs == None || !defs.value.Obj? then None
    else
      match FactorResult(defs.value.members, union.value.items)
      case None => None
      case Some((factored, mission, time)) => Some(Obj(Rebuilt(ms, factored, mission, time)))
  }

  lemma EnvelopeHasMember(definition: Json, name: Word)
    requires IsEnvelope(definition) && name in ENVELOPE
    ensures PropertyOf(definition, name).Some?
  {
  }

  /** An envelope whose shared schemas are the ones carried along, if any are yet. */
  predicate Fits(definition: Json, mission: Option<Json>, time: Option<Json>) {
    && IsEnvelope(definition)
    && (mission == None || (PropertyOf(definition, MissionId) == mission && PropertyOf(definition, Time) == time))
  }

  method CheckVariant(definition: Json, mission: Option<Json>, time: Option<Json>)
    returns (fits: bool, missionSchema: Option<Json>, timeSchema: Option<Json>)
    ensures fits == Fits(definition, mission, time)
    ensures fits ==> missionSchema.Some? && missionSchema == PropertyOf(definition, MissionId)
    ensures fits ==> timeSchema == PropertyOf(definition, Time)
  {
    missionSchema, timeSchema := mission, time;
    if !IsEnvelope(definition) {
      return false, mission, time;
    }
    EnvelopeHasMember(definition, MissionId);
    if mission == None {
      missionSchema := PropertyOf(definition, MissionId);
      timeSchema := PropertyOf(definition, Time);
    } else if PropertyOf(definition, MissionId) != mission || PropertyOf(definition, Time) != time {
      return false, mission, time;
    }
    fits := true;
  }

  /** The `mission` and `time` schemas carried along after `k` variants. */
  ghost function Carried(defs: seq<Entry>, variants: seq<Json>, k: nat): (Option<Json>, Option<Json>) {
    if k == 0 || variants == [] then (None, None)
    else (PropertyOf(Definition(defs, variants[0]), MissionId), PropertyOf(Definition(defs, variants[0]), Time))
  }

  lemma FitsAgrees(defs: seq<Entry>, variants: seq<Json>, k: nat, mission: Option<Json>, time: Option<Json>)
    requires k < |variants| && (mission, time) == Carried(defs, variants, k) && (k > 0 ==> mission.Some?)
    ensures Agreement(defs, variants, Definition(defs, variants[0]))[k]
        == Fits(Definition(defs, variants[k]), mission, time)
    ensures Fits(Definition(defs, variants[k]), mission, time) ==>
      (PropertyOf(Definition(defs, variants[k]), MissionId), PropertyOf(Definition(defs, variants[k]), Time))
          == Carried(defs, variants, k + 1)
  {
    AgreementAt(defs, variants, Definition(defs, variants[0]), k);
  }

  lemma OneMoreTrue(flags: seq<bool>, k: nat)
    requires k < |flags| && false !in flags[..k]
    ensures flags[k] ==> false !in flags[..k + 1]
    ensures !flags[k] ==> false in flags
  {
    assert flags[..k + 1] == flags[..k] + [flags[k]];
  }

  lemma FactoredGrows(defs: seq<Entry>, variants: seq<Json>, k: nat)
    requires k < |variants|
    ensures Factored(defs, variants[..k + 1])
            == Factored(defs, variants[..k]) + [FactoredVariant(Definition(defs, variants[k]))]
  {
  }

  /** What the pass over the variants yields: the factored variants with the shared `mission` and `time`
      schemas, or `None` where the generator throws. */
  function FactorResult(defs: seq<Entry>, variants: seq<Json>): Option<(seq<Json>, Option<Json>, Option<Json>)> {
    if !VariantsAgree(defs, variants) then None
    else if variants == [] then Some(([], None, None))
    else
      var first := Definition(defs, variants[0]);
      Some((Factored(defs, variants), PropertyOf(first, MissionId), PropertyOf(first, Time)))
  }

  /** The schemas carried along and the variants factored so far. */
  ghost predicate FactoringUpTo(
    defs: seq<Entry>, variants: seq<Json>, k: nat, factored: seq<Json>, mission: Option<Json>, time: Option<Json>)
  {
    && k <= |variants| && factored == Factored(defs, variants[..k])
    && (mission, time) == Carried(defs, variants, k) && (k > 0 ==> mission.Some?)
    && (variants != [] ==> false !in Agreement(defs, variants, Definition(defs, variants[0]))[..k])
  }

  lemma FactoringStep(
    defs: seq<Entry>, variants: seq<Json>, k: nat, factored: seq<Json>, mission: Option<Json>, time: Option<Json>)
    requires FactoringUpTo(defs, variants, k, factored, mission, time) && k < |variants|
    ensures var d := Definition(defs, variants[k]);
      if Fits(d, mission, time) then
        FactoringUpTo(defs, variants, k + 1, factored + [FactoredVariant(d)], PropertyOf(d, MissionId),
            PropertyOf(d, Time))
      else FactorResult(defs, variants) == None
  {
    var d := Definition(defs, variants[k]);
    FitsAgrees(defs, variants, k, mission, time);
    OneMoreTrue(Agreement(defs, variants, Definition(defs, variants[0])), k);
    FactoredGrows(defs, variants, k);
    if Fits(d, mission, time) {
      EnvelopeHasMember(d, MissionId);
    }
  }

  lemma FactoringDone(
    defs: seq<Entry>, variants: seq<Json>, factored: seq<Json>, mission: Option<Json>, time: Option<Json>)
    requires FactoringUpTo(defs, variants, |variants|, factored, mission, time)
    ensures FactorResult(defs, variants) == Some((factored, mission, time))
  {
    assert variants[..|variants|] == variants;
    if variants != [] {
      var flags := Agreement(defs, variants, Definition(defs, variants[0]));
      assert flags[..|variants|] == flags;
    }
  }

  lemma FactoringStarts(defs: seq<Entry>, variants: seq<Json>)
    ensures FactoringUpTo(defs, variants, 0, [], None, None)
  {
  }

  /** The pass over the variants, carrying the shared `mission` and `time` schemas along. */
  method FactorVariants(defs: seq<Entry>, variants: seq<Json>)
    returns (r: Option<(seq<Json>, Option<Json>, Option<Json>)>)
    ensures r == FactorResult(defs, variants)
  {
    var factored: seq<Json> := [];
    var missionSchema: Option<Json>, timeSchema: Option<Json> := None, None;
    FactoringStarts(defs, variants);
    for k := 0 to |variants|
      invariant FactoringUpTo(defs, variants, k, factored, missionSchema, timeSchema)
    {
      var definition := Definition(defs, variants[k]);
      FactoringStep(defs, variants, k, factored, missionSchema, timeSchema);
      var fits, mission, time := CheckVariant(definition, missionSchema, timeSchema);
      if !fits {
        return None;
      }
      missionSchema, timeSchema := mission, time;
      factored := factored + [FactoredVariant(definition)];
    }
    FactoringDone(defs, variants, factored, missionSchema, timeSchema);
    return Some((factored, missionSchema, timeSchema));
  }

  method OptimizeEventSchema(ms: seq<Entry>) returns (r: Option<Json>)
    ensures r == OptimizedEventSchema(ms)
  {
    var union, defs := Find(ms, AnyOf), Find(ms, Defs);
    if union == None || !union.value.Arr? || defs == None || !defs.value.Obj? {
      return None;
    }
    var result := FactorVariants(defs.value.members, union.value.items);
    if result == None {
      return None;
    }
    return Some(Obj(Rebuilt(ms, result.value.0, result.value.1, result.value.2)));
  }

  // ---------------------------------------------------------------- when it keeps meaning

  /** A definition that says nothing beyond the envelope, with each key once. */
  ghost predicate OnlyEnvelope(definition: Json) {
    && IsClosedObject(definition) && VariantKeyed(definition)
    && forall k :: Find(definition.members, k).Some? ==>
         k == Type || k == AdditionalProperties || k == Properties || k == Required || IsAnnotation(k)
  }

  /** The constant the `kind` property is pinned to. */
  ghost predicate PinsKind(definition: Json, kind: Word) {
    PropertyOf(definition, Kind) == Some(Obj([Entry(Const, Str(kind))]))
  }

  ghost predicate DistinctKinds(defs: seq<Entry>, variants: seq<Json>, kinds: seq<Word>) {
    && |kinds| == |variants|
    && (forall i :: 0 <= i < |variants| ==> PinsKind(Definition(defs, variants[i]), kinds[i]))
    && (forall i, j :: 0 <= i < j < |kinds| ==> kinds[i] != kinds[j])
  }

  /** A local reference denotes its definition. */
  ghost predicate ResolvesLocally(sem: Semantics, defs: seq<Entry>) {
    forall name, y :: Find(defs, name).Some? ==>
      (sem.reference(DefsPointer(name), y) <==> Valid(sem, Find(defs, name).value, y))
  }

  /** Nothing the new keywords would overwrite. */
  ghost predicate NothingOverwritten(ms: seq<Entry>) {
    && Find(ms, AdditionalProperties) == None && Find(ms, OneOf) == None && Find(ms, Properties) == None
    && Find(ms, Required) == None && Find(ms, Type) == None
  }

  ghost predicate BareReferences(variants: seq<Json>) {
    forall i :: 0 <= i < |variants| ==> variants[i].Obj? && |variants[i].members| == 1
  }

  /** An object with exactly the envelope's names. */
  predicate InEnvelope(x: Json) {
    && x.Obj?
    && (forall name :: name in ENVELOPE ==> Find(x.members, name).Some?)
    && (forall i :: 0 <= i < |x.members| ==> x.members[i].key in ENVELOPE)
  }

  /** The envelope part of every variant. */
  ghost predicate EnvelopeHolds(sem: Semantics, mission: Json, time: Json, x: Json) {
    && InEnvelope(x)
    && Valid(sem, mission, Find(x.members, MissionId).value)
    && Valid(sem, time, Find(x.members, Time).value)
  }

  ghost predicate ValueHolds(sem: Semantics, p: Option<Json>, name: Word, x: Json) {
    x.Obj? && p.Some? && Find(x.members, name).Some? ==> Valid(sem, p.value, Find(x.members, name).value)
  }

  // ---------------------------------------------------------------- one variant

  lemma FivePlaces(a: int, b: int, c: int, d: int, e: int, i: int)
    requires 0 <= a < 5 && 0 <= b < 5 && 0 <= c < 5 && 0 <= d < 5 && 0 <= e < 5 && 0 <= i < 5
    requires a != b && a != c && a != d && a != e && b != c && b != d && b != e && c != d && c != e && d != e
    ensures i == a || i == b || i == c || i == d || i == e
  {
  }

  lemma PlaceOf(ps: seq<Entry>, k: Word) returns (i: nat)
    requires Find(ps, k).Some?
    ensures i < |ps| && ps[i].key == k
  {
    FindExact(ps, k);
    i :| 0 <= i < |ps| && ps[i].key == k;
  }

  lemma ItemPlace(items: seq<Json>, v: Json) returns (i: nat)
    requires v in items
    ensures i < |items| && items[i] == v
  {
    i :| 0 <= i < |items| && items[i] == v;
  }

  lemma FiveKeys(ps: seq<Entry>, i: nat)
    requires KeysAreEnvelope(ps) && i < 5
    ensures ps[i].key in ENVELOPE
  {
    var a := PlaceOf(ps, Kind);
    var b := PlaceOf(ps, EventClass);
    var c := PlaceOf(ps, MissionId);
    var d := PlaceOf(ps, Time);
    var e := PlaceOf(ps, Data);
    FivePlaces(a, b, c, d, e, i);
  }

  lemma FiveItems(items: seq<Json>, i: nat)
    requires ItemsAreEnvelope(items) && i < 5
    ensures items[i].Str? && items[i].w in ENVELOPE
  {
    var a := ItemPlace(items, Str(Kind));
    var b := ItemPlace(items, Str(EventClass));
    var c := ItemPlace(items, Str(MissionId));
    var d := ItemPlace(items, Str(Time));
    var e := ItemPlace(items, Str(Data));
    FivePlaces(a, b, c, d, e, i);
  }

  lemma EnvelopeKeys(definition: Json, name: Word)
    requires IsEnvelope(definition)
    ensures Find(PropertiesOf(definition), name).Some? <==> name in ENVELOPE
  {
    var ps := PropertiesOf(definition);
    FindExact(ps, name);
    if Has(ps, name) {
      var i :| 0 <= i < |ps| && ps[i].key == name;
      FiveKeys(ps, i);
    }
  }

  lemma EnvelopeRequired(definition: Json, xs: seq<Entry>)
    requires IsEnvelope(definition)
    ensures RequiredPresent(Find(definition.members, Required).value, xs)
            <==> forall name :: name in ENVELOPE ==> Find(xs, name).Some?
  {
    ItemsRequired(Find(definition.members, Required).value.items, xs);
  }

  lemma ItemsRequired(items: seq<Json>, xs: seq<Entry>)
    requires ItemsAreEnvelope(items)
    ensures RequiredPresent(Arr(items), xs) <==> forall name :: name in ENVELOPE ==> Find(xs, name).Some?
  {
    forall i | 0 <= i < 5
      ensures items[i].Str? && items[i].w in ENVELOPE
    {
      FiveItems(items, i);
    }
    forall name | name in ENVELOPE && RequiredPresent(Arr(items), xs)
      ensures Find(xs, name).Some?
    {
      var i := ItemPlace(items, Str(name));
    }
  }

  lemma PropertiesByName(sem: Semantics, definition: Json, x: Json)
    requires IsEnvelope(definition) && VariantKeyed(definition)
    ensures PropertiesHold(sem, PropertiesOf(definition), x)
            <==> forall name :: name in ENVELOPE ==> ValueHolds(sem, PropertyOf(definition, name), name, x)
  {
    var ps := PropertiesOf(definition);
    if PropertiesHold(sem, ps, x) {
      forall name | name in ENVELOPE
        ensures ValueHolds(sem, PropertyOf(definition, name), name, x)
      {
        PropertyByName(sem, definition, name, x);
      }
    }
    if forall name :: name in ENVELOPE ==> ValueHolds(sem, PropertyOf(definition, name), name, x) {
      forall i | 0 <= i < |ps| && x.Obj? && Find(x.members, ps[i].key).Some?
        ensures Valid(sem, ps[i].value, Find(x.members, ps[i].key).value)
      {
        EntryNamed(definition, i);
        assert ValueHolds(sem, PropertyOf(definition, ps[i].key), ps[i].key, x);
      }
    }
  }

  lemma PropertyByName(sem: Semantics, definition: Json, name: Word, x: Json)
    requires IsClosedObject(definition) && PropertiesHold(sem, PropertiesOf(definition), x)
    ensures ValueHolds(sem, PropertyOf(definition, name), name, x)
  {
    var ps := PropertiesOf(definition);
    if Find(ps, name).Some? {
      var i := PlaceFound(ps, name);
      assert x.Obj? && Find(x.members, ps[i].key).Some? ==> Valid(sem, ps[i].value, Find(x.members, ps[i].key).value);
    }
  }

  lemma PlaceFound(ps: seq<Entry>, name: Word) returns (i: nat)
    requires Find(ps, name).Some?
    ensures i < |ps| && ps[i] == Entry(name, Find(ps, name).value)
  {
    FindExact(ps, name);
    i :| 0 <= i < |ps| && ps[i].key == name && ps[i].value == Get(ps, name);
  }

  lemma EntryNamed(definition: Json, i: nat)
    requires IsEnvelope(definition) && VariantKeyed(definition) && i < |PropertiesOf(definition)|
    ensures var e := PropertiesOf(definition)[i]; e.key in ENVELOPE && PropertyOf(definition, e.key) == Some(e.value)
  {
    var ps := PropertiesOf(definition);
    FindAt(ps, i);
    EnvelopeKeys(definition, ps[i].key);
  }

  lemma FactoredVariantExact(sem: Semantics, definition: Json, x: Json)
    requires IsEnvelope(definition)
    ensures Valid(sem, FactoredVariant(definition), x) <==>
      && ValueHolds(sem, PropertyOf(definition, Data), Data, x)
      && ValueHolds(sem, PropertyOf(definition, EventClass), EventClass, x)
      && ValueHolds(sem, PropertyOf(definition, Kind), Kind, x)
  {
    EnvelopeHasMember(definition, Data);
    EnvelopeHasMember(definition, EventClass);
    EnvelopeHasMember(definition, Kind);
    var ps := [Entry(Data, PropertyOf(definition, Data).value),
               Entry(EventClass, PropertyOf(definition, EventClass).value),
               Entry(Kind, PropertyOf(definition, Kind).value)];
    assert Member(definition, Data) + Member(definition, EventClass) + Member(definition, Kind) == ps;
    SingleKeyword(sem, Properties, Obj(ps), x);
    ThreeProperties(sem, ps, x);
  }

  lemma ThreeProperties(sem: Semantics, ps: seq<Entry>, x: Json)
    requires |ps| == 3
    ensures Holds(sem, [Entry(Properties, Obj(ps))], Properties, Obj(ps), x) <==>
      && ValueHolds(sem, Some(ps[0].value), ps[0].key, x)
      && ValueHolds(sem, Some(ps[1].value), ps[1].key, x)
      && ValueHolds(sem, Some(ps[2].value), ps[2].key, x)
  {
  }

  /** With annotations apart, a definition says what its four envelope keywords say. */
  lemma FourKeywords(sem: Semantics, definition: Json, x: Json)
    requires OnlyEnvelope(definition)
    ensures var ms := definition.members;
      Valid(sem, definition, x) <==>
      && KeyHolds(sem, ms, Type, x) && KeyHolds(sem, ms, Properties, x)
      && KeyHolds(sem, ms, Required, x) && KeyHolds(sem, ms, AdditionalProperties, x)
  {
    var ms := definition.members;
    ValidByKey(sem, ms, x);
    forall k
      ensures IsEnvelopeKeyword(k) || KeyHolds(sem, ms, k, x)
    {
      OnlyEnvelopeKey(sem, definition, k, x);
    }
    FourOf(sem, ms, x);
  }

  predicate IsEnvelopeKeyword(k: Word) {
    k == Type || k == AdditionalProperties || k == Properties || k == Required
  }

  lemma FourOf(sem: Semantics, ms: seq<Entry>, x: Json)
    requires forall k :: IsEnvelopeKeyword(k) || KeyHolds(sem, ms, k, x)
    ensures (forall k :: KeyHolds(sem, ms, k, x)) <==>
      && KeyHolds(sem, ms, Type, x) && KeyHolds(sem, ms, Properties, x)
      && KeyHolds(sem, ms, Required, x) && KeyHolds(sem, ms, AdditionalProperties, x)
  {
    if && KeyHolds(sem, ms, Type, x) && KeyHolds(sem, ms, Properties, x)
       && KeyHolds(sem, ms, Required, x) && KeyHolds(sem, ms, AdditionalProperties, x) {
      forall k ensures KeyHolds(sem, ms, k, x) {
        assert IsEnvelopeKeyword(k) || KeyHolds(sem, ms, k, x);
      }
    }
  }

  lemma OnlyEnvelopeKey(sem: Semantics, definition: Json, k: Word, x: Json)
    requires OnlyEnvelope(definition)
    ensures IsEnvelopeKeyword(k) || KeyHolds(sem, definition.members, k, x)
  {
    if IsAnnotation(k) {
      AnnotationKey(sem, definition.members, k, x);
    }
  }

  lemma AnnotationHolds(sem: Semantics, ms: seq<Entry>, k: Word, v: Json, x: Json)
    requires IsAnnotation(k)
    ensures Holds(sem, ms, k, v, x)
  {
  }

  lemma RequiredKeyword(sem: Semantics, definition: Json, x: Json)
    requires IsEnvelope(definition) && x.Obj?
    ensures KeyHolds(sem, definition.members, Required, x)
            <==> forall name :: name in ENVELOPE ==> Find(x.members, name).Some?
  {
    EnvelopeRequired(definition, x.members);
  }

  lemma PropertiesKeyword(sem: Semantics, definition: Json, x: Json)
    requires IsClosedObject(definition)
    ensures KeyHolds(sem, definition.members, Properties, x) <==> PropertiesHold(sem, PropertiesOf(definition), x)
    ensures KeyHolds(sem, definition.members, Type, x) <==> x.Obj?
  {
  }

  /** What the four envelope keywords of a definition say. */
  lemma DefinitionByKeyword(sem: Semantics, definition: Json, x: Json)
    requires IsEnvelope(definition) && OnlyEnvelope(definition)
    ensures Valid(sem, definition, x) <==> InEnvelope(x) && PropertiesHold(sem, PropertiesOf(definition), x)
  {
    FourKeywords(sem, definition, x);
    PropertiesKeyword(sem, definition, x);
    ShapeKeywords(sem, definition, x);
  }

  lemma ShapeKeywords(sem: Semantics, definition: Json, x: Json)
    requires IsEnvelope(definition)
    ensures var ms := definition.members;
      KeyHolds(sem, ms, Type, x) && KeyHolds(sem, ms, Required, x) && KeyHolds(sem, ms, AdditionalProperties, x)
      <==> InEnvelope(x)
  {
    TypeKey(sem, definition, x);
    if x.Obj? {
      ShapeOnObject(sem, definition, x);
    }
  }

  lemma ShapeOnObject(sem: Semantics, definition: Json, x: Json)
    requires IsEnvelope(definition) && x.Obj?
    ensures KeyHolds(sem, definition.members, Required, x) && KeyHolds(sem, definition.members, AdditionalProperties, x)
            <==> InEnvelope(x)
  {
    RequiredKeyword(sem, definition, x);
    ClosedKeyword(sem, definition.members, definition, x);
    InEnvelopeParts(x);
  }

  lemma InEnvelopeParts(x: Json)
    requires x.Obj?
    ensures InEnvelope(x) <==>
      && (forall name :: name in ENVELOPE ==> Find(x.members, name).Some?)
      && (forall i :: 0 <= i < |x.members| ==> x.members[i].key in ENVELOPE)
  {
  }

  lemma ClosedKeyword(sem: Semantics, ms: seq<Entry>, definition: Json, x: Json)
    requires IsEnvelope(definition) && ms == definition.members && x.Obj?
    ensures KeyHolds(sem, ms, AdditionalProperties, x)
            <==> forall i :: 0 <= i < |x.members| ==> x.members[i].key in ENVELOPE
  {
    ClosedKey(sem, ms, x);
    forall i | 0 <= i < |x.members|
      ensures Listed(ms, x.members[i].key) <==> x.members[i].key in ENVELOPE
    {
      EnvelopeKeys(definition, x.members[i].key);
    }
  }

  lemma ClosedKey(sem: Semantics, ms: seq<Entry>, x: Json)
    requires Find(ms, AdditionalProperties) == Some(Bool(false)) && x.Obj?
    ensures KeyHolds(sem, ms, AdditionalProperties, x) <==> forall i ::
        0 <= i < |x.members| ==> Listed(ms, x.members[i].key)
  {
  }

  /** A definition is its envelope and its factored variant. */
  lemma DefinitionSplit(sem: Semantics, definition: Json, x: Json)
    requires IsEnvelope(definition) && OnlyEnvelope(definition)
    ensures PropertyOf(definition, MissionId).Some? && PropertyOf(definition, Time).Some?
    ensures Valid(sem, definition, x) <==>
      && EnvelopeHolds(sem, PropertyOf(definition, MissionId).value, PropertyOf(definition, Time).value, x)
      && Valid(sem, FactoredVariant(definition), x)
  {
    EnvelopeHasMember(definition, MissionId);
    EnvelopeHasMember(definition, Time);
    DefinitionByKeyword(sem, definition, x);
    if InEnvelope(x) {
      PropertiesFactor(sem, definition, x);
    }
  }

  lemma PropertiesFactor(sem: Semantics, definition: Json, x: Json)
    requires IsEnvelope(definition) && VariantKeyed(definition) && x.Obj?
    requires forall name :: name in ENVELOPE ==> Find(x.members, name).Some?
    ensures PropertyOf(definition, MissionId).Some? && PropertyOf(definition, Time).Some?
    ensures Find(x.members, MissionId).Some? && Find(x.members, Time).Some?
    ensures PropertiesHold(sem, PropertiesOf(definition), x) <==>
      && Valid(sem, PropertyOf(definition, MissionId).value, Find(x.members, MissionId).value)
      && Valid(sem, PropertyOf(definition, Time).value, Find(x.members, Time).value)
      && Valid(sem, FactoredVariant(definition), x)
  {
    FiveProperties(sem, definition, x);
    FactoredVariantExact(sem, definition, x);
  }

  lemma FiveProperties(sem: Semantics, definition: Json, x: Json)
    requires IsEnvelope(definition) && VariantKeyed(definition) && x.Obj?
    requires forall name :: name in ENVELOPE ==> Find(x.members, name).Some?
    ensures PropertyOf(definition, MissionId).Some? && PropertyOf(definition, Time).Some?
    ensures Find(x.members, MissionId).Some? && Find(x.members, Time).Some?
    ensures PropertiesHold(sem, PropertiesOf(definition), x) <==>
      && Valid(sem, PropertyOf(definition, MissionId).value, Find(x.members, MissionId).value)
      && Valid(sem, PropertyOf(definition, Time).value, Find(x.members, Time).value)
      && ValueHolds(sem, PropertyOf(definition, Data), Data, x)
      && ValueHolds(sem, PropertyOf(definition, EventClass), EventClass, x)
      && ValueHolds(sem, PropertyOf(definition, Kind), Kind, x)
  {
    EnvelopeHasMember(definition, MissionId);
    EnvelopeHasMember(definition, Time);
    PropertiesByName(sem, definition, x);
    EnvelopeNames(name => ValueHolds(sem, PropertyOf(definition, name), name, x));
    EnvelopeNames(name => Find(x.members, name).Some?);
  }

  /** A statement about every envelope name, name by name. */
  lemma EnvelopeNames(p: Word -> bool)
    ensures (forall name ::
        name in ENVELOPE ==> p(name)) <==> p(Kind) && p(EventClass) && p(MissionId) && p(Time) && p(Data)
  {
    assert ENVELOPE[0] == Kind && ENVELOPE[1] == EventClass && ENVELOPE[2] == MissionId
        && ENVELOPE[3] == Time && ENVELOPE[4] == Data;
  }

  // ---------------------------------------------------------------- the whole record

  lemma RebuiltFind(ms: seq<Entry>, factored: seq<Json>, mission: Option<Json>, time: Option<Json>, k: Word)
    ensures Find(Rebuilt(ms, factored, mission, time), k) ==
      if k == Type then Some(Str(ObjectType))
      else if k == Required then Some(RequiredEnvelope())
      else if k == Properties then Some(Obj(EnvelopeProperties(mission, time)))
      else if k == OneOf then Some(Arr(factored))
      else if k == Discriminator then Some(Obj([Entry(PropertyName, Str(Kind))]))
      else if k == AdditionalProperties then Some(Bool(false))
      else if k == AnyOf || k == Defs then None
      else Find(ms, k)
  {
    var c0 := Without(Without(ms, AnyOf), Defs);
    var c1 := Put(c0, AdditionalProperties, Bool(false));
    var c2 := Put(c1, Discriminator, Obj([Entry(PropertyName, Str(Kind))]));
    var c3 := Put(c2, OneOf, Arr(factored));
    var c4 := Put(c3, Properties, Obj(EnvelopeProperties(mission, time)));
    var c5 := Put(c4, Required, RequiredEnvelope());
    FindWithout(ms, AnyOf, k);
    FindWithout(Without(ms, AnyOf), Defs, k);
    FindPut(c0, AdditionalProperties, Bool(false), k);
    FindPut(c1, Discriminator, Obj([Entry(PropertyName, Str(Kind))]), k);
    FindPut(c2, OneOf, Arr(factored), k);
    FindPut(c3, Properties, Obj(EnvelopeProperties(mission, time)), k);
    FindPut(c4, Required, RequiredEnvelope(), k);
    FindPut(c5, Type, Str(ObjectType), k);
  }

  lemma RebuiltUnique(ms: seq<Entry>, factored: seq<Json>, mission: Option<Json>, time: Option<Json>)
    requires Unique(ms)
    ensures Unique(Rebuilt(ms, factored, mission, time))
  {
    var c0 := Without(Without(ms, AnyOf), Defs);
    var c1 := Put(c0, AdditionalProperties, Bool(false));
    var c2 := Put(c1, Discriminator, Obj([Entry(PropertyName, Str(Kind))]));
    var c3 := Put(c2, OneOf, Arr(factored));
    var c4 := Put(c3, Properties, Obj(EnvelopeProperties(mission, time)));
    var c5 := Put(c4, Required, RequiredEnvelope());
    WithoutUnique(ms, AnyOf);
    WithoutUnique(Without(ms, AnyOf), Defs);
    PutUnique(c0, AdditionalProperties, Bool(false));
    PutUnique(c1, Discriminator, Obj([Entry(PropertyName, Str(Kind))]));
    PutUnique(c2, OneOf, Arr(factored));
    PutUnique(c3, Properties, Obj(EnvelopeProperties(mission, time)));
    PutUnique(c4, Required, RequiredEnvelope());
    PutUnique(c5, Type, Str(ObjectType));
  }

  lemma FoundAt(ps: seq<Entry>, i: nat)
    requires i < |ps|
    ensures Find(ps, ps[i].key).Some?
  {
    FindExact(ps, ps[i].key);
  }

  lemma EnvelopePropertiesKeys(mission: Json, time: Json)
    ensures KeysAreEnvelope(EnvelopeProperties(Some(mission), Some(time)))
  {
    var ps := EnvelopeProperties(Some(mission), Some(time));
    FoundAt(ps, 0);
    FoundAt(ps, 1);
    FoundAt(ps, 2);
    FoundAt(ps, 3);
    FoundAt(ps, 4);
  }

  lemma EnvelopePropertiesNames(mission: Json, time: Json, name: Word)
    ensures Find(EnvelopeProperties(Some(mission), Some(time)), name).Some? <==> name in ENVELOPE
  {
    var ps := EnvelopeProperties(Some(mission), Some(time));
    FindExact(ps, name);
    EnvelopePropertiesKeys(mission, time);
    if Has(ps, name) {
      var i :| 0 <= i < |ps| && ps[i].key == name;
      FiveKeys(ps, i);
    }
  }

  /** The keywords shared by all variants in the rewritten schema. */
  lemma SharedKeywords(sem: Semantics, rs: seq<Entry>, mission: Json, time: Json, x: Json)
    requires Find(rs, Type) == Some(Str(ObjectType)) && Find(rs, Required) == Some(RequiredEnvelope())
    requires Find(rs, AdditionalProperties) == Some(Bool(false))
    requires Find(rs, Properties) == Some(Obj(EnvelopeProperties(Some(mission), Some(time))))
    ensures KeyHolds(sem, rs, Type, x) && KeyHolds(sem, rs, Required, x) && KeyHolds(sem, rs, AdditionalProperties, x)
            && KeyHolds(sem, rs, Properties, x)
            <==> EnvelopeHolds(sem, mission, time, x)
  {
    SharedType(sem, rs, x);
    if x.Obj? {
      SharedOnObject(sem, rs, mission, time, x);
    }
  }

  lemma SharedOnObject(sem: Semantics, rs: seq<Entry>, mission: Json, time: Json, x: Json)
    requires Find(rs, Required) == Some(RequiredEnvelope()) && Find(rs, AdditionalProperties) == Some(Bool(false))
    requires Find(rs, Properties) == Some(Obj(EnvelopeProperties(Some(mission), Some(time)))) && x.Obj?
    ensures (&& KeyHolds(sem, rs, Required, x) && KeyHolds(sem, rs, AdditionalProperties, x)
             && KeyHolds(sem, rs, Properties, x))
            <==> EnvelopeHolds(sem, mission, time, x)
  {
    SharedShape(sem, rs, mission, time, x);
    if InEnvelope(x) {
      SharedProperties(sem, rs, mission, time, x);
    }
  }

  lemma SharedShape(sem: Semantics, rs: seq<Entry>, mission: Json, time: Json, x: Json)
    requires Find(rs, Required) == Some(RequiredEnvelope()) && Find(rs, AdditionalProperties) == Some(Bool(false))
    requires Find(rs, Properties) == Some(Obj(EnvelopeProperties(Some(mission), Some(time)))) && x.Obj?
    ensures KeyHolds(sem, rs, Required, x) && KeyHolds(sem, rs, AdditionalProperties, x) <==> InEnvelope(x)
  {
    SharedRequiredKey(sem, rs, x);
    SharedClosed(sem, rs, mission, time, x);
    InEnvelopeParts(x);
  }

  lemma SharedType(sem: Semantics, rs: seq<Entry>, x: Json)
    requires Find(rs, Type) == Some(Str(ObjectType))
    ensures KeyHolds(sem, rs, Type, x) <==> x.Obj?
  {
  }

  lemma SharedRequiredKey(sem: Semantics, rs: seq<Entry>, x: Json)
    requires Find(rs, Required) == Some(RequiredEnvelope()) && x.Obj?
    ensures KeyHolds(sem, rs, Required, x) <==> forall name :: name in ENVELOPE ==> Find(x.members, name).Some?
  {
    SharedRequired(x.members);
  }

  lemma SharedRequired(xs: seq<Entry>)
    ensures RequiredPresent(RequiredEnvelope(), xs) <==> forall name :: name in ENVELOPE ==> Find(xs, name).Some?
  {
    var items := RequiredEnvelope().items;
    assert items[0] == Str(Kind) && items[1] == Str(EventClass) && items[2] == Str(MissionId)
        && items[3] == Str(Time) && items[4] == Str(Data);
    ItemsRequired(items, xs);
  }

  lemma SharedClosed(sem: Semantics, rs: seq<Entry>, mission: Json, time: Json, x: Json)
    requires Find(rs, AdditionalProperties) == Some(Bool(false)) && x.Obj?
    requires Find(rs, Properties) == Some(Obj(EnvelopeProperties(Some(mission), Some(time))))
    ensures KeyHolds(sem, rs, AdditionalProperties, x)
            <==> forall i :: 0 <= i < |x.members| ==> x.members[i].key in ENVELOPE
  {
    ClosedKey(sem, rs, x);
    forall i | 0 <= i < |x.members|
      ensures Listed(rs, x.members[i].key) <==> x.members[i].key in ENVELOPE
    {
      EnvelopePropertiesNames(mission, time, x.members[i].key);
    }
  }

  lemma SharedProperties(sem: Semantics, rs: seq<Entry>, mission: Json, time: Json, x: Json)
    requires Find(rs, Properties) == Some(Obj(EnvelopeProperties(Some(mission), Some(time)))) && x.Obj?
    requires forall name :: name in ENVELOPE ==> Find(x.members, name).Some?
    ensures KeyHolds(sem, rs, Properties, x) <==>
      Valid(sem, mission, Find(x.members, MissionId).value) && Valid(sem, time, Find(x.members, Time).value)
  {
    var ps := EnvelopeProperties(Some(mission), Some(time));
    assert ps == [Entry(Data, Obj([])), Entry(EventClass, Obj([])), Entry(Kind, Obj([])),
                  Entry(MissionId, mission), Entry(Time, time)];
    assert MissionId in ENVELOPE && Time in ENVELOPE;
    assert forall y :: Valid(sem, Obj([]), y);
    assert KeyHolds(sem, rs, Properties, x) <==> PropertiesHold(sem, ps, x);
    if PropertiesHold(sem, ps, x) {
      assert ps[3].key == MissionId && ps[4].key == Time;
    }
  }

  lemma PinnedKind(sem: Semantics, definition: Json, kind: Word, x: Json)
    requires IsEnvelope(definition) && PinsKind(definition, kind) && x.Obj? && Find(x.members, Kind).Some?
    requires Valid(sem, FactoredVariant(definition), x)
    ensures Find(x.members, Kind).value == Str(kind)
  {
    FactoredVariantExact(sem, definition, x);
    SingleKeyword(sem, Const, Str(kind), Find(x.members, Kind).value);
  }

  /** Two factored variants with different kinds never both hold of a document that has a kind. */
  lemma KindsExclude(sem: Semantics, a: Json, b: Json, ka: Word, kb: Word, x: Json)
    requires IsEnvelope(a) && IsEnvelope(b) && PinsKind(a, ka) && PinsKind(b, kb) && ka != kb
    requires x.Obj? && Find(x.members, Kind).Some?
    ensures !(Valid(sem, FactoredVariant(a), x) && Valid(sem, FactoredVariant(b), x))
  {
    if Valid(sem, FactoredVariant(a), x) && Valid(sem, FactoredVariant(b), x) {
      PinnedKind(sem, a, ka, x);
      PinnedKind(sem, b, kb, x);
    }
  }

  // ---------------------------------------------------------------- the union

  /** What the discriminated union needs of its variants: they agree, say nothing beyond the envelope, and pin
      pairwise distinct kinds. */
  ghost predicate Discriminated(defs: seq<Entry>, variants: seq<Json>, kinds: seq<Word>) {
    && |variants| > 0 && VariantsAgree(defs, variants) && DistinctKinds(defs, variants, kinds)
    && forall i :: 0 <= i < |variants| ==> OnlyEnvelope(Definition(defs, variants[i]))
  }

  /** Some definition the variants refer to accepts the document. */
  ghost predicate SomeDefinition(sem: Semantics, defs: seq<Entry>, variants: seq<Json>, x: Json) {
    exists i :: 0 <= i < |variants| && Valid(sem, Definitions(defs, variants)[i], x)
  }

  lemma VariantMeaning(
    sem: Semantics, defs: seq<Entry>, variants: seq<Json>, kinds: seq<Word>, i: nat, mission: Json, time: Json, x: Json)
    requires Discriminated(defs, variants, kinds) && i < |variants|
    requires PropertyOf(Definition(defs, variants[0]), MissionId) == Some(mission)
    requires PropertyOf(Definition(defs, variants[0]), Time) == Some(time)
    ensures Valid(sem, Definition(defs, variants[i]), x) <==>
      EnvelopeHolds(sem, mission, time, x) && Valid(sem, FactoredVariant(Definition(defs, variants[i])), x)
  {
    var d := Definition(defs, variants[i]);
    AgreesAt(defs, variants, Definition(defs, variants[0]), i);
    assert OnlyEnvelope(d);
    DefinitionSplit(sem, d, x);
  }

  lemma VariantsExclude(
    sem: Semantics, defs: seq<Entry>, variants: seq<Json>, kinds: seq<Word>, i: nat, j: nat, x: Json)
    requires Discriminated(defs, variants, kinds) && i < j < |variants|
    requires x.Obj? && Find(x.members, Kind).Some?
    ensures !(Valid(sem, FactoredVariant(Definition(defs, variants[i])), x)
              && Valid(sem, FactoredVariant(Definition(defs, variants[j])), x))
  {
    var a, b := Definition(defs, variants[i]), Definition(defs, variants[j]);
    AgreesAt(defs, variants, Definition(defs, variants[0]), i);
    AgreesAt(defs, variants, Definition(defs, variants[0]), j);
    assert PinsKind(a, kinds[i]) && PinsKind(b, kinds[j]);
    KindsExclude(sem, a, b, kinds[i], kinds[j], x);
  }

  /** The union of definitions against the exclusive union of factored variants under a shared envelope. */
  lemma UnionMeaning(
    sem: Semantics, defs: seq<Entry>, variants: seq<Json>, kinds: seq<Word>, mission: Json, time: Json,
    rs: seq<Entry>, x: Json)
    requires Discriminated(defs, variants, kinds)
    requires PropertyOf(Definition(defs, variants[0]), MissionId) == Some(mission)
    requires PropertyOf(Definition(defs, variants[0]), Time) == Some(time)
    ensures SomeDefinition(sem, defs, variants, x) <==>
      EnvelopeHolds(sem, mission, time, x) && Holds(sem, rs, OneOf, Arr(Factored(defs, variants)), x)
  {
    VariantsMean(sem, defs, variants, kinds, mission, time, x);
    UnionOf(sem, defs, variants, EnvelopeHolds(sem, mission, time, x), rs, x);
  }

  lemma UnionOf(sem: Semantics, defs: seq<Entry>, variants: seq<Json>, shared: bool, rs: seq<Entry>, x: Json)
    requires PartsAgree(sem, Definitions(defs, variants), Factored(defs, variants), shared, x)
    ensures SomeDefinition(sem, defs, variants, x)
        <==> shared && Holds(sem, rs, OneOf, Arr(Factored(defs, variants)), x)
  {
    ExclusiveUnion(sem, rs, Definitions(defs, variants), Factored(defs, variants), shared, x);
  }

  /** Each schema of the one accepts what its counterpart and the shared part accept, and no two counterparts
      accept the same. */
  ghost predicate PartsAgree(sem: Semantics, union: seq<Json>, parts: seq<Json>, shared: bool, x: Json) {
    && |union| == |parts|
    && (forall i :: 0 <= i < |union| ==> (Valid(sem, union[i], x) <==> shared && Valid(sem, parts[i], x)))
    && (shared ==> AtMostOne(sem, parts, x))
  }

  function Definitions(defs: seq<Entry>, variants: seq<Json>): (r: seq<Json>)
    ensures |r| == |variants| && forall i :: 0 <= i < |variants| ==> r[i] == Definition(defs, variants[i])
  {
    seq(|variants|, i requires 0 <= i < |variants| => Definition(defs, variants[i]))
  }

  lemma VariantsMean(
    sem: Semantics, defs: seq<Entry>, variants: seq<Json>, kinds: seq<Word>, mission: Json, time: Json, x: Json)
    requires Discriminated(defs, variants, kinds)
    requires PropertyOf(Definition(defs, variants[0]), MissionId) == Some(mission)
    requires PropertyOf(Definition(defs, variants[0]), Time) == Some(time)
    ensures PartsAgree(sem, Definitions(defs, variants), Factored(defs, variants),
        EnvelopeHolds(sem, mission, time, x), x)
  {
    var parts, factored := Definitions(defs, variants), Factored(defs, variants);
    forall i | 0 <= i < |parts|
      ensures Valid(sem, parts[i], x) <==> EnvelopeHolds(sem, mission, time, x) && Valid(sem, factored[i], x)
    {
      VariantMeaning(sem, defs, variants, kinds, i, mission, time, x);
    }
    if EnvelopeHolds(sem, mission, time, x) {
      FactoredExclude(sem, defs, variants, kinds, x);
    }
  }

  ghost predicate AtMostOne(sem: Semantics, schemas: seq<Json>, x: Json) {
    forall i, j :: 0 <= i < j < |schemas| ==> !(Valid(sem, schemas[i], x) && Valid(sem, schemas[j], x))
  }

  lemma FactoredExclude(sem: Semantics, defs: seq<Entry>, variants: seq<Json>, kinds: seq<Word>, x: Json)
    requires Discriminated(defs, variants, kinds)
    requires x.Obj? && forall name :: name in ENVELOPE ==> Find(x.members, name).Some?
    ensures AtMostOne(sem, Factored(defs, variants), x)
  {
    var factored := Factored(defs, variants);
    assert Kind in ENVELOPE;
    forall i, j | 0 <= i < j < |factored|
      ensures !(Valid(sem, factored[i], x) && Valid(sem, factored[j], x))
    {
      VariantsExclude(sem, defs, variants, kinds, i, j, x);
    }
  }

  /** A union and an exclusive union of as many parts. */
  lemma ExclusiveUnion(sem: Semantics, rs: seq<Entry>, union: seq<Json>, parts: seq<Json>, shared: bool, x: Json)
    requires PartsAgree(sem, union, parts, shared, x)
    ensures (exists i ::
        0 <= i < |union| && Valid(sem, union[i], x)) <==> shared && Holds(sem, rs, OneOf, Arr(parts), x)
  {
  }

  // ---------------------------------------------------------------- the whole record

  lemma FiveNew(p: Word -> bool)
    ensures (forall k :: IsNewKeyword(k) ==> p(k))
            <==> p(Type) && p(Required) && p(Properties) && p(AdditionalProperties) && p(OneOf)
  {
    assert IsNewKeyword(Type) && IsNewKeyword(Required) && IsNewKeyword(Properties)
        && IsNewKeyword(AdditionalProperties) && IsNewKeyword(OneOf);
  }

  lemma OneOfKey(sem: Semantics, rs: seq<Entry>, v: Json, x: Json)
    requires Find(rs, OneOf) == Some(v)
    ensures KeyHolds(sem, rs, OneOf, x) <==> Holds(sem, rs, OneOf, v, x)
  {
  }

  /** Together, the new keywords are the envelope and the exclusive union. */
  lemma NewKeywords(sem: Semantics, ms: seq<Entry>, factored: seq<Json>, mission: Json, time: Json, x: Json)
    ensures var rs := Rebuilt(ms, factored, Some(mission), Some(time));
      (forall k :: IsNewKeyword(k) ==> KeyHolds(sem, rs, k, x))
      <==> EnvelopeHolds(sem, mission, time, x) && Holds(sem, rs, OneOf, Arr(factored), x)
  {
    var rs := Rebuilt(ms, factored, Some(mission), Some(time));
    RebuiltFinds(ms, factored, mission, time);
    NewKeywordsOf(sem, rs, factored, mission, time, x);
  }

  lemma RebuiltFinds(ms: seq<Entry>, factored: seq<Json>, mission: Json, time: Json)
    ensures var rs := Rebuilt(ms, factored, Some(mission), Some(time));
      && Find(rs, Type) == Some(Str(ObjectType)) && Find(rs, Required) == Some(RequiredEnvelope())
      && Find(rs, AdditionalProperties) == Some(Bool(false)) && Find(rs, OneOf) == Some(Arr(factored))
      && Find(rs, Properties) == Some(Obj(EnvelopeProperties(Some(mission), Some(time))))
  {
    RebuiltFind(ms, factored, Some(mission), Some(time), Type);
    RebuiltFind(ms, factored, Some(mission), Some(time), Required);
    RebuiltFind(ms, factored, Some(mission), Some(time), Properties);
    RebuiltFind(ms, factored, Some(mission), Some(time), AdditionalProperties);
    RebuiltFind(ms, factored, Some(mission), Some(time), OneOf);
  }

  lemma NewKeywordsOf(sem: Semantics, rs: seq<Entry>, factored: seq<Json>, mission: Json, time: Json, x: Json)
    requires Find(rs, Type) == Some(Str(ObjectType)) && Find(rs, Required) == Some(RequiredEnvelope())
    requires Find(rs, AdditionalProperties) == Some(Bool(false)) && Find(rs, OneOf) == Some(Arr(factored))
    requires Find(rs, Properties) == Some(Obj(EnvelopeProperties(Some(mission), Some(time))))
    ensures (forall k :: IsNewKeyword(k) ==> KeyHolds(sem, rs, k, x))
            <==> EnvelopeHolds(sem, mission, time, x) && Holds(sem, rs, OneOf, Arr(factored), x)
  {
    SharedKeywords(sem, rs, mission, time, x);
    OneOfKey(sem, rs, Arr(factored), x);
    FiveNew(k => KeyHolds(sem, rs, k, x));
  }

  predicate IsNewKeyword(k: Word) {
    k == Type || k == Required || k == Properties || k == AdditionalProperties || k == OneOf
  }

  /** Every keyword of the record holds that the rewrite neither replaces nor overwrites. */
  ghost predicate RestHolds(sem: Semantics, ms: seq<Entry>, x: Json) {
    forall k :: !IsNewKeyword(k) && k != AnyOf ==> KeyHolds(sem, ms, k, x)
  }

  /** The keywords the rewrite overwrites hold, and so does the union it replaces. */
  ghost predicate ReplacedHold(sem: Semantics, ms: seq<Entry>, x: Json) {
    (forall k :: IsNewKeyword(k) ==> KeyHolds(sem, ms, k, x)) && KeyHolds(sem, ms, AnyOf, x)
  }

  lemma OriginalSplit(sem: Semantics, ms: seq<Entry>, x: Json)
    requires Unique(ms)
    ensures Valid(sem, Obj(ms), x) <==> RestHolds(sem, ms, x) && ReplacedHold(sem, ms, x)
  {
    ValidByKey(sem, ms, x);
  }

  /** The rebuilt record is the untouched rest and the new keywords. */
  lemma RebuiltSplit(sem: Semantics, ms: seq<Entry>, factored: seq<Json>, mission: Json, time: Json, x: Json)
    requires Unique(ms)
    ensures var rs := Rebuilt(ms, factored, Some(mission), Some(time));
      Valid(sem, Obj(rs), x) <==> RestHolds(sem, ms, x) && forall k :: IsNewKeyword(k) ==> KeyHolds(sem, rs, k, x)
  {
    var rs := Rebuilt(ms, factored, Some(mission), Some(time));
    RebuiltUnique(ms, factored, Some(mission), Some(time));
    ValidByKey(sem, rs, x);
    forall k
      ensures KeptKey(sem, ms, rs, k, x)
    {
      RebuiltKey(sem, ms, factored, mission, time, k, x);
    }
    KeysSplit(sem, ms, rs, x);
  }

  /** Outside the new keywords, the rebuilt record says what the record said, and nothing in place of the union. */
  ghost predicate KeptKey(sem: Semantics, ms: seq<Entry>, rs: seq<Entry>, k: Word, x: Json) {
    if IsNewKeyword(k) then true
    else if k == AnyOf then KeyHolds(sem, rs, k, x)
    else KeyHolds(sem, rs, k, x) <==> KeyHolds(sem, ms, k, x)
  }

  lemma KeysSplit(sem: Semantics, ms: seq<Entry>, rs: seq<Entry>, x: Json)
    requires forall k :: KeptKey(sem, ms, rs, k, x)
    ensures (forall k :: KeyHolds(sem, rs, k, x))
            <==> RestHolds(sem, ms, x) && forall k :: IsNewKeyword(k) ==> KeyHolds(sem, rs, k, x)
  {
    if forall k :: KeyHolds(sem, rs, k, x) {
      forall k | !IsNewKeyword(k) && k != AnyOf
        ensures KeyHolds(sem, ms, k, x)
      {
        assert KeptKey(sem, ms, rs, k, x);
      }
    }
    if RestHolds(sem, ms, x) && forall k :: IsNewKeyword(k) ==> KeyHolds(sem, rs, k, x) {
      forall k
        ensures KeyHolds(sem, rs, k, x)
      {
        assert KeptKey(sem, ms, rs, k, x);
      }
    }
  }

  lemma RebuiltKey(
    sem: Semantics, ms: seq<Entry>, factored: seq<Json>, mission: Json, time: Json, k: Word, x: Json)
    ensures KeptKey(sem, ms, Rebuilt(ms, factored, Some(mission), Some(time)), k, x)
  {
    var rs := Rebuilt(ms, factored, Some(mission), Some(time));
    RebuiltFind(ms, factored, Some(mission), Some(time), k);
    if IsAnnotation(k) {
      AnnotationKey(sem, ms, k, x);
      AnnotationKey(sem, rs, k, x);
    } else if !IsNewKeyword(k) && k != AnyOf {
      OtherKey(sem, ms, rs, k, x);
    }
  }

  lemma AnnotationKey(sem: Semantics, ms: seq<Entry>, k: Word, x: Json)
    requires IsAnnotation(k)
    ensures KeyHolds(sem, ms, k, x)
  {
    if Find(ms, k).Some? {
      AnnotationHolds(sem, ms, k, Find(ms, k).value, x);
    }
  }

  lemma OtherKey(sem: Semantics, ms: seq<Entry>, rs: seq<Entry>, k: Word, x: Json)
    requires k != AdditionalProperties && Find(rs, k) == Find(ms, k)
    ensures KeyHolds(sem, rs, k, x) <==> KeyHolds(sem, ms, k, x)
  {
    if Find(ms, k).Some? {
      OtherKeyword(sem, ms, rs, k, Find(ms, k).value, x);
    }
  }

  lemma OtherKeyword(sem: Semantics, ms: seq<Entry>, rs: seq<Entry>, k: Word, v: Json, x: Json)
    requires k != AdditionalProperties
    ensures Holds(sem, ms, k, v, x) <==> Holds(sem, rs, k, v, x)
  {
  }

  // ---------------------------------------------------------------- the event schema

  /** For every document, the rewritten event schema accepts exactly what the untouched rest of the record and
      some definition accept together. */
  lemma EventUnionExact(sem: Semantics, ms: seq<Entry>, kinds: seq<Word>, x: Json)
    requires Unique(ms) && OptimizedEventSchema(ms).Some?
    requires Discriminated(Find(ms, Defs).value.members, Find(ms, AnyOf).value.items, kinds)
    ensures Valid(sem, OptimizedEventSchema(ms).value, x)
            <==> RestHolds(sem, ms, x) && SomeDefinition(sem, Find(ms, Defs).value.members,
                Find(ms, AnyOf).value.items, x)
  {
    var defs, variants := Find(ms, Defs).value.members, Find(ms, AnyOf).value.items;
    var mission, time := SharedSchemas(defs, variants, kinds);
    var factored := Factored(defs, variants);
    var rs := Rebuilt(ms, factored, Some(mission), Some(time));
    assert OptimizedEventSchema(ms) == Some(Obj(rs));
    UnionMeaning(sem, defs, variants, kinds, mission, time, rs, x);
    NewKeywords(sem, ms, factored, mission, time, x);
    RebuiltSplit(sem, ms, factored, mission, time, x);
  }

  lemma SharedSchemas(defs: seq<Entry>, variants: seq<Json>, kinds: seq<Word>) returns (mission: Json, time: Json)
    requires Discriminated(defs, variants, kinds)
    ensures PropertyOf(Definition(defs, variants[0]), MissionId) == Some(mission)
    ensures PropertyOf(Definition(defs, variants[0]), Time) == Some(time)
  {
    var first := Definition(defs, variants[0]);
    AgreesAt(defs, variants, first, 0);
    EnvelopeHasMember(first, MissionId);
    EnvelopeHasMember(first, Time);
    mission, time := PropertyOf(first, MissionId).value, PropertyOf(first, Time).value;
  }

  lemma ReferenceForm(defs: seq<Entry>, variant: Json) returns (name: Word)
    requires Definition(defs, variant).Obj?
    ensures variant.Obj? && Find(variant.members, RefWord) == Some(Str(DefsPointer(name)))
    ensures Find(defs, name) == Some(Definition(defs, variant))
  {
    name := Find(variant.members, RefWord).value.w.name;
  }

  lemma ReferenceKey(sem: Semantics, ms: seq<Entry>, w: Word, x: Json)
    requires Find(ms, RefWord) == Some(Str(w)) && Valid(sem, Obj(ms), x)
    ensures sem.reference(w, x)
  {
    FindExact(ms, RefWord);
    var i :| 0 <= i < |ms| && ms[i].key == RefWord && ms[i].value == Str(w);
    assert Holds(sem, ms, ms[i].key, ms[i].value, x);
  }

  lemma ReferenceAlone(sem: Semantics, ms: seq<Entry>, w: Word, x: Json)
    requires Find(ms, RefWord) == Some(Str(w)) && |ms| == 1
    ensures Valid(sem, Obj(ms), x) <==> sem.reference(w, x)
  {
    FindExact(ms, RefWord);
    assert ms == [Entry(RefWord, Str(w))];
    SingleKeyword(sem, RefWord, Str(w), x);
  }

  /** A variant accepts no more than the definition it refers to, and as much when it is nothing but the
      reference. */
  lemma ReferenceMeaning(sem: Semantics, defs: seq<Entry>, variant: Json, x: Json)
    requires ResolvesLocally(sem, defs) && Definition(defs, variant).Obj?
    ensures variant.Obj?
    ensures Valid(sem, variant, x) ==> Valid(sem, Definition(defs, variant), x)
    ensures |variant.members| == 1 ==> (Valid(sem, variant, x) <==> Valid(sem, Definition(defs, variant), x))
  {
    var name := ReferenceForm(defs, variant);
    var ms := variant.members;
    assert sem.reference(DefsPointer(name), x) <==> Valid(sem, Find(defs, name).value, x);
    if Valid(sem, variant, x) {
      ReferenceKey(sem, ms, DefsPointer(name), x);
    }
    if |ms| == 1 {
      ReferenceAlone(sem, ms, DefsPointer(name), x);
    }
  }

  lemma UnionRefers(sem: Semantics, ms: seq<Entry>, defs: seq<Entry>, variants: seq<Json>, kinds: seq<Word>, x: Json)
    requires Discriminated(defs, variants, kinds) && ResolvesLocally(sem, defs)
    ensures Holds(sem, ms, AnyOf, Arr(variants), x) ==> SomeDefinition(sem, defs, variants, x)
    ensures BareReferences(variants) ==>
      (Holds(sem, ms, AnyOf, Arr(variants), x) <==> SomeDefinition(sem, defs, variants, x))
  {
    var parts := Definitions(defs, variants);
    forall i | 0 <= i < |variants|
      ensures Valid(sem, variants[i], x) ==> Valid(sem, parts[i], x)
      ensures BareReferences(variants) ==> (Valid(sem, variants[i], x) <==> Valid(sem, parts[i], x))
    {
      AgreesAt(defs, variants, Definition(defs, variants[0]), i);
      ReferenceMeaning(sem, defs, variants[i], x);
    }
    SomeOf(sem, ms, variants, x);
  }

  /** The rewrite never refuses what the schema accepted. */
  lemma EventUnionOnlyWidens(sem: Semantics, ms: seq<Entry>, kinds: seq<Word>, x: Json)
    requires Unique(ms) && OptimizedEventSchema(ms).Some? && ResolvesLocally(sem, Find(ms, Defs).value.members)
    requires Discriminated(Find(ms, Defs).value.members, Find(ms, AnyOf).value.items, kinds)
    ensures Valid(sem, Obj(ms), x) ==> Valid(sem, OptimizedEventSchema(ms).value, x)
  {
    EventUnionExact(sem, ms, kinds, x);
    OriginalSplit(sem, ms, x);
    UnionRefers(sem, ms, Find(ms, Defs).value.members, Find(ms, AnyOf).value.items, kinds, x);
  }

  /** What the rest and some definition accept, the overwritten keywords and the union accept too. */
  ghost predicate NothingLost(sem: Semantics, ms: seq<Entry>, defs: seq<Entry>, variants: seq<Json>, x: Json) {
    RestHolds(sem, ms, x) && SomeDefinition(sem, defs, variants, x) ==> ReplacedHold(sem, ms, x)
  }

  /** The rewritten event schema accepts exactly what the schema accepted exactly when the overwritten keywords
      and the siblings of the references add nothing to the rest and the definitions. */
  lemma EventUnionKeepsExactly(sem: Semantics, ms: seq<Entry>, kinds: seq<Word>)
    requires Unique(ms) && OptimizedEventSchema(ms).Some? && ResolvesLocally(sem, Find(ms, Defs).value.members)
    requires Discriminated(Find(ms, Defs).value.members, Find(ms, AnyOf).value.items, kinds)
    ensures (forall x :: SameVerdict(sem, OptimizedEventSchema(ms).value, Obj(ms), x))
            <==> forall x :: NothingLost(sem, ms, Find(ms, Defs).value.members, Find(ms, AnyOf).value.items, x)
  {
    var a := OptimizedEventSchema(ms).value;
    var defs, variants := Find(ms, Defs).value.members, Find(ms, AnyOf).value.items;
    if !forall x :: SameVerdict(sem, a, Obj(ms), x) {
      var x :| !SameVerdict(sem, a, Obj(ms), x);
      EventUnionKeepsAt(sem, ms, kinds, x);
    }
    if !forall x :: NothingLost(sem, ms, defs, variants, x) {
      var x :| !NothingLost(sem, ms, defs, variants, x);
      EventUnionKeepsAt(sem, ms, kinds, x);
    }
  }

  lemma EventUnionKeepsAt(sem: Semantics, ms: seq<Entry>, kinds: seq<Word>, x: Json)
    requires Unique(ms) && OptimizedEventSchema(ms).Some? && ResolvesLocally(sem, Find(ms, Defs).value.members)
    requires Discriminated(Find(ms, Defs).value.members, Find(ms, AnyOf).value.items, kinds)
    ensures SameVerdict(sem, OptimizedEventSchema(ms).value, Obj(ms), x)
            <==> NothingLost(sem, ms, Find(ms, Defs).value.members, Find(ms, AnyOf).value.items, x)
  {
    EventUnionExact(sem, ms, kinds, x);
    OriginalSplit(sem, ms, x);
    EventUnionOnlyWidens(sem, ms, kinds, x);
  }

  /** In particular when nothing beside the union is overwritten and every variant is nothing but a reference. */
  lemma EventUnionKeepsMeaning(sem: Semantics, ms: seq<Entry>, kinds: seq<Word>, x: Json)
    requires Unique(ms) && OptimizedEventSchema(ms).Some? && ResolvesLocally(sem, Find(ms, Defs).value.members)
    requires Discriminated(Find(ms, Defs).value.members, Find(ms, AnyOf).value.items, kinds)
    requires NothingOverwritten(ms) && BareReferences(Find(ms, AnyOf).value.items)
    ensures Valid(sem, OptimizedEventSchema(ms).value, x) <==> Valid(sem, Obj(ms), x)
  {
    EventUnionKeepsAt(sem, ms, kinds, x);
    BareNothingLost(sem, ms, kinds, x);
  }

  lemma BareNothingLost(sem: Semantics, ms: seq<Entry>, kinds: seq<Word>, x: Json)
    requires OptimizedEventSchema(ms).Some? && ResolvesLocally(sem, Find(ms, Defs).value.members)
    requires Discriminated(Find(ms, Defs).value.members, Find(ms, AnyOf).value.items, kinds)
    requires NothingOverwritten(ms) && BareReferences(Find(ms, AnyOf).value.items)
    ensures NothingLost(sem, ms, Find(ms, Defs).value.members, Find(ms, AnyOf).value.items, x)
  {
    UnionRefers(sem, ms, Find(ms, Defs).value.members, Find(ms, AnyOf).value.items, kinds, x);
    NewAbsent(sem, ms, x);
    UnionKey(sem, ms, Find(ms, AnyOf).value, x);
  }

  lemma UnionKey(sem: Semantics, ms: seq<Entry>, v: Json, x: Json)
    requires Find(ms, AnyOf) == Some(v)
    ensures KeyHolds(sem, ms, AnyOf, x) <==> Holds(sem, ms, AnyOf, v, x)
  {
  }

  lemma NewAbsent(sem: Semantics, ms: seq<Entry>, x: Json)
    requires NothingOverwritten(ms)
    ensures forall k :: IsNewKeyword(k) ==> KeyHolds(sem, ms, k, x)
  {
  }

  /** A `required` beside the union is lost: whatever document the schema accepts that lacks the name, the schema
      with the name required refuses, and its rewrite accepts. */
  lemma OverwrittenSiblingIsLost(sem: Semantics, ms: seq<Entry>, kinds: seq<Word>, name: Word, x: Json)
    requires Unique(ms) && OptimizedEventSchema(ms).Some? && ResolvesLocally(sem, Find(ms, Defs).value.members)
    requires Discriminated(Find(ms, Defs).value.members, Find(ms, AnyOf).value.items, kinds)
    requires Find(ms, Required) == None && Valid(sem, Obj(ms), x) && x.Obj? && Find(x.members, name) == None
    ensures var more := Put(ms, Required, Arr([Str(name)]));
      && OptimizedEventSchema(more).Some?
      && !Valid(sem, Obj(more), x) && Valid(sem, OptimizedEventSchema(more).value, x)
  {
    var v := Arr([Str(name)]);
    var more := Put(ms, Required, v);
    PutUnique(ms, Required, v);
    FindPut(ms, Required, v, AnyOf);
    FindPut(ms, Required, v, Defs);
    FindPut(ms, Required, v, Required);
    EventUnionExact(sem, ms, kinds, x);
    EventUnionExact(sem, more, kinds, x);
    EventUnionOnlyWidens(sem, ms, kinds, x);
    RestUnchanged(sem, ms, v, x);
    ValidByKey(sem, more, x);
    MissingName(sem, more, name, x);
  }

  lemma MissingName(sem: Semantics, ms: seq<Entry>, name: Word, x: Json)
    requires Find(ms, Required) == Some(Arr([Str(name)])) && x.Obj? && Find(x.members, name) == None
    ensures !KeyHolds(sem, ms, Required, x)
  {
    var items := [Str(name)];
    assert items[0].Str? && items[0].w == name;
    assert !RequiredPresent(Arr(items), x.members);
  }

  lemma RestUnchanged(sem: Semantics, ms: seq<Entry>, v: Json, x: Json)
    ensures RestHolds(sem, Put(ms, Required, v), x) <==> RestHolds(sem, ms, x)
  {
    forall k | !IsNewKeyword(k)
      ensures KeyHolds(sem, Put(ms, Required, v), k, x) <==> KeyHolds(sem, ms, k, x)
    {
      FindPut(ms, Required, v, k);
      OtherKey(sem, ms, Put(ms, Required, v), k, x);
    }
  }
}
