/** A smallest event schema on which the rewrite of `SchemaEventUnion` loses a sibling of the union. */
module SchemaEventExample {
  import opened Options
  import opened Schema
  import opened SchemaPasses
  import opened SchemaEventUnion

  /** An envelope whose properties accept anything but for the pinned kind. */
  function SmallDefinition(kind: Word): Json {
    Obj([Entry(Type, Str(ObjectType)), Entry(AdditionalProperties, Bool(false)),
         Entry(Properties, Obj(SmallProperties(kind))), Entry(Required, RequiredEnvelope())])
  }

  function SmallProperties(kind: Word): seq<Entry> {
    [Entry(Kind, Obj([Entry(Const, Str(kind))])), Entry(EventClass, Bool(true)), Entry(MissionId, Bool(true)),
     Entry(Time, Bool(true)), Entry(Data, Bool(true))]
  }

  /** One variant, which refers to that definition under a local name. */
  function SmallSchema(name: Word, kind: Word): seq<Entry> {
    [Entry(AnyOf, Arr([SmallVariant(name)])), Entry(Defs, Obj([Entry(name, SmallDefinition(kind))]))]
  }

  function SmallVariant(name: Word): Json {
    Obj([Entry(RefWord, Str(DefsPointer(name)))])
  }

  function SmallDocument(kind: Word): Json {
    Obj([Entry(Kind, Str(kind)), Entry(EventClass, Null), Entry(MissionId, Null), Entry(Time, Null), Entry(Data, Null)])
  }

  /** A reference to that definition means it, and no other keyword asserts anything. */
  ghost function SmallSemantics(name: Word, kind: Word): Semantics {
    Semantics((w: Word, y: Json) => w == DefsPointer(name) && SmallAccepts(kind, y),
              (k: Word, v: Json, y: Json) => true)
  }

  /** What the definition accepts. */
  ghost predicate SmallAccepts(kind: Word, y: Json) {
    InEnvelope(y) && Find(y.members, Kind).value == Str(kind)
  }

  lemma SmallFinds(kind: Word)
    ensures var ms := SmallDefinition(kind).members;
      && Unique(ms)
      && Find(ms, Type) == Some(Str(ObjectType)) && Find(ms, AdditionalProperties) == Some(Bool(false))
      && Find(ms, Properties) == Some(Obj(SmallProperties(kind))) && Find(ms, Required) == Some(RequiredEnvelope())
  {
    var ms := SmallDefinition(kind).members;
    assert ms[0].key == Type && ms[1].key == AdditionalProperties && ms[2].key == Properties && ms[3].key == Required;
    FindAt(ms, 0);
    FindAt(ms, 1);
    FindAt(ms, 2);
    FindAt(ms, 3);
  }

  lemma FiveUnique(ps: seq<Entry>)
    requires |ps| == 5 && ps[0].key == Kind && ps[1].key == EventClass && ps[2].key == MissionId
    requires ps[3].key == Time && ps[4].key == Data
    ensures Unique(ps) && KeysAreEnvelope(ps)
    ensures Find(ps, Kind) == Some(ps[0].value) && Find(ps, MissionId) == Some(ps[2].value)
    ensures Find(ps, Time) == Some(ps[3].value)
  {
    FindAt(ps, 0);
    FindAt(ps, 1);
    FindAt(ps, 2);
    FindAt(ps, 3);
    FindAt(ps, 4);
  }

  lemma RequiredItems()
    ensures ItemsAreEnvelope(RequiredEnvelope().items)
  {
    var items := RequiredEnvelope().items;
    assert items[0] == Str(Kind) && items[1] == Str(EventClass) && items[2] == Str(MissionId)
        && items[3] == Str(Time) && items[4] == Str(Data);
  }

  lemma EnvelopeFrom(ms: seq<Entry>, ps: seq<Entry>)
    requires Unique(ms) && Unique(ps) && KeysAreEnvelope(ps)
    requires Find(ms, Type) == Some(Str(ObjectType)) && Find(ms, AdditionalProperties) == Some(Bool(false))
    requires Find(ms, Properties) == Some(Obj(ps)) && Find(ms, Required) == Some(RequiredEnvelope())
    ensures IsEnvelope(Obj(ms)) && PropertiesOf(Obj(ms)) == ps && VariantKeyed(Obj(ms))
    ensures forall name :: PropertyOf(Obj(ms), name) == Find(ps, name)
  {
    RequiredItems();
  }

  lemma SmallIsEnvelope(kind: Word)
    ensures IsEnvelope(SmallDefinition(kind)) && PropertiesOf(SmallDefinition(kind)) == SmallProperties(kind)
    ensures VariantKeyed(SmallDefinition(kind)) && PinsKind(SmallDefinition(kind), kind)
  {
    SmallFinds(kind);
    FiveUnique(SmallProperties(kind));
    EnvelopeFrom(SmallDefinition(kind).members, SmallProperties(kind));
  }

  lemma OnlyFrom(d: Json)
    requires IsClosedObject(d) && VariantKeyed(d)
    requires forall i :: 0 <= i < |d.members| ==> IsEnvelopeKeyword(d.members[i].key)
    ensures OnlyEnvelope(d)
  {
    forall k | Find(d.members, k).Some?
      ensures IsEnvelopeKeyword(k)
    {
      var i := PlaceFound(d.members, k);
    }
  }

  lemma SmallOnlyEnvelope(kind: Word)
    ensures OnlyEnvelope(SmallDefinition(kind))
  {
    SmallIsEnvelope(kind);
    SmallKeywords(kind);
    OnlyFrom(SmallDefinition(kind));
  }

  lemma SmallKeywords(kind: Word)
    ensures var ms := SmallDefinition(kind).members; forall i :: 0 <= i < |ms| ==> IsEnvelopeKeyword(ms[i].key)
  {
  }

  lemma SmallSchemaFinds(name: Word, kind: Word)
    ensures var ms := SmallSchema(name, kind);
      && Unique(ms) && Find(ms, AnyOf) == Some(Arr([SmallVariant(name)]))
      && Find(ms, Defs) == Some(Obj([Entry(name, SmallDefinition(kind))])) && Find(ms, Required) == None
  {
    var ms := SmallSchema(name, kind);
    assert ms[0].key == AnyOf && ms[1].key == Defs;
    FindAt(ms, 0);
    FindAt(ms, 1);
    FindExact(ms, Required);
  }

  lemma SmallResolves(name: Word, kind: Word)
    ensures Definition([Entry(name, SmallDefinition(kind))], SmallVariant(name)) == SmallDefinition(kind)
    ensures Find([Entry(name, SmallDefinition(kind))], name) == Some(SmallDefinition(kind))
  {
    FindFirst(name, SmallDefinition(kind));
    FindFirst(RefWord, Str(DefsPointer(name)));
  }

  lemma OneVariant(defs: seq<Entry>, variant: Json, kind: Word)
    requires IsEnvelope(Definition(defs, variant)) && OnlyEnvelope(Definition(defs, variant))
    requires PinsKind(Definition(defs, variant), kind)
    ensures Discriminated(defs, [variant], [kind])
  {
    var flags := Agreement(defs, [variant], Definition(defs, [variant][0]));
    AgreementAt(defs, [variant], Definition(defs, [variant][0]), 0);
    assert flags == [true];
  }

  lemma SmallDiscriminated(name: Word, kind: Word)
    ensures Discriminated([Entry(name, SmallDefinition(kind))], [SmallVariant(name)], [kind])
  {
    SmallResolves(name, kind);
    SmallIsEnvelope(kind);
    SmallOnlyEnvelope(kind);
    OneVariant([Entry(name, SmallDefinition(kind))], SmallVariant(name), kind);
  }

  /** The definition accepts exactly the envelopes of its kind. */
  lemma SmallMeaning(sem: Semantics, kind: Word, y: Json)
    ensures Valid(sem, SmallDefinition(kind), y) <==> SmallAccepts(kind, y)
  {
    SmallIsEnvelope(kind);
    SmallOnlyEnvelope(kind);
    DefinitionByKeyword(sem, SmallDefinition(kind), y);
    if InEnvelope(y) {
      SmallPropertiesHold(sem, kind, y);
    }
  }

  lemma FirstMatters(sem: Semantics, ps: seq<Entry>, y: Json)
    requires ps != [] && y.Obj? && Find(y.members, ps[0].key).Some?
    requires forall i :: 1 <= i < |ps| ==> ps[i].value == Bool(true)
    ensures PropertiesHold(sem, ps, y) <==> Valid(sem, ps[0].value, Find(y.members, ps[0].key).value)
  {
    if Valid(sem, ps[0].value, Find(y.members, ps[0].key).value) {
      forall i | 0 <= i < |ps| && Find(y.members, ps[i].key).Some?
        ensures Valid(sem, ps[i].value, Find(y.members, ps[i].key).value)
      {
        if i > 0 {
          assert ps[i].value == Bool(true);
        }
      }
    }
  }

  lemma SmallPropertiesHold(sem: Semantics, kind: Word, y: Json)
    requires InEnvelope(y)
    ensures PropertiesHold(sem, SmallProperties(kind), y) <==> Find(y.members, Kind).value == Str(kind)
  {
    assert Kind in ENVELOPE;
    var x := Find(y.members, Kind).value;
    SmallOthers(kind);
    FirstMatters(sem, SmallProperties(kind), y);
    SingleKeyword(sem, Const, Str(kind), x);
    ConstKey(sem, [Entry(Const, Str(kind))], kind, x);
  }

  lemma SmallOthers(kind: Word)
    ensures var ps := SmallProperties(kind);
      ps[0] == Entry(Kind, Obj([Entry(Const, Str(kind))])) && forall i :: 1 <= i < |ps| ==> ps[i].value == Bool(true)
  {
  }

  lemma ConstKey(sem: Semantics, ms: seq<Entry>, kind: Word, x: Json)
    ensures Holds(sem, ms, Const, Str(kind), x) <==> x == Str(kind)
  {
  }

  lemma SmallSemanticsResolve(name: Word, kind: Word)
    ensures ResolvesLocally(SmallSemantics(name, kind), [Entry(name, SmallDefinition(kind))])
  {
    var sem, defs := SmallSemantics(name, kind), [Entry(name, SmallDefinition(kind))];
    forall n, y | Find(defs, n).Some?
      ensures sem.reference(DefsPointer(n), y) <==> Valid(sem, Find(defs, n).value, y)
    {
      var i := PlaceFound(defs, n);
      SmallMeaning(sem, kind, y);
    }
  }

  lemma FiveInEnvelope(xs: seq<Entry>)
    requires |xs| == 5 && KeysAreEnvelope(xs)
    ensures InEnvelope(Obj(xs))
  {
    forall i | 0 <= i < |xs| ensures xs[i].key in ENVELOPE {
      FiveKeys(xs, i);
    }
    forall name | name in ENVELOPE ensures Find(xs, name).Some? {
      assert name == Kind || name == EventClass || name == MissionId || name == Time || name == Data;
    }
  }

  lemma SmallDocumentAccepted(kind: Word)
    ensures SmallAccepts(kind, SmallDocument(kind))
  {
    FiveUnique(SmallDocument(kind).members);
    FiveInEnvelope(SmallDocument(kind).members);
  }

  lemma Optimizes(ms: seq<Entry>, defs: seq<Entry>, variants: seq<Json>, kinds: seq<Word>)
    requires Find(ms, AnyOf) == Some(Arr(variants)) && Find(ms, Defs) == Some(Obj(defs))
    requires Discriminated(defs, variants, kinds)
    ensures OptimizedEventSchema(ms).Some?
  {
  }

  /** So the generator does lose a `required`: on this schema, for every name outside the envelope, the document is
      refused before and accepted after. */
  lemma OverwrittenSiblingExample(name: Word, kind: Word, missing: Word)
    requires missing !in ENVELOPE
    ensures var sem, x := SmallSemantics(name, kind), SmallDocument(kind);
      var more := Put(SmallSchema(name, kind), Required, Arr([Str(missing)]));
      && OptimizedEventSchema(more).Some?
      && !Valid(sem, Obj(more), x) && Valid(sem, OptimizedEventSchema(more).value, x)
  {
    var sem, x, ms := SmallSemantics(name, kind), SmallDocument(kind), SmallSchema(name, kind);
    SmallSchemaFinds(name, kind);
    SmallDiscriminated(name, kind);
    SmallSemanticsResolve(name, kind);
    SmallSchemaAccepts(name, kind);
    NotInDocument(kind, missing);
    Optimizes(ms, [Entry(name, SmallDefinition(kind))], [SmallVariant(name)], [kind]);
    OverwrittenSiblingIsLost(sem, ms, [kind], missing, x);
  }

  lemma NotInDocument(kind: Word, missing: Word)
    requires missing !in ENVELOPE
    ensures Find(SmallDocument(kind).members, missing) == None
  {
    var xs := SmallDocument(kind).members;
    if Find(xs, missing).Some? {
      var i := PlaceFound(xs, missing);
      FiveUnique(xs);
      FiveKeys(xs, i);
    }
  }

  lemma SmallUnionAccepts(sem: Semantics, ms: seq<Entry>, variant: Json, x: Json)
    requires Valid(sem, variant, x)
    ensures Holds(sem, ms, AnyOf, Arr([variant]), x)
  {
    SomeOf(sem, ms, [variant], x);
    assert Valid(sem, [variant][0], x);
  }

  lemma SmallVariantAccepts(name: Word, kind: Word)
    ensures Valid(SmallSemantics(name, kind), SmallVariant(name), SmallDocument(kind))
  {
    SmallDocumentAccepted(kind);
    var ms := [Entry(RefWord, Str(DefsPointer(name)))];
    FindFirst(RefWord, Str(DefsPointer(name)));
    ReferenceAlone(SmallSemantics(name, kind), ms, DefsPointer(name), SmallDocument(kind));
  }

  lemma SmallSchemaAccepts(name: Word, kind: Word)
    ensures Valid(SmallSemantics(name, kind), Obj(SmallSchema(name, kind)), SmallDocument(kind))
  {
    var sem, x, ms := SmallSemantics(name, kind), SmallDocument(kind), SmallSchema(name, kind);
    SmallVariantAccepts(name, kind);
    SmallUnionAccepts(sem, ms, SmallVariant(name), x);
    AnnotationHolds(sem, ms, Defs, ms[1].value, x);
    TwoEntries(sem, ms[0], ms[1], x);
  }

  lemma TwoEntries(sem: Semantics, a: Entry, b: Entry, x: Json)
    requires Holds(sem, [a, b], a.key, a.value, x) && Holds(sem, [a, b], b.key, b.value, x)
    ensures Valid(sem, Obj([a, b]), x)
  {
  }
}
