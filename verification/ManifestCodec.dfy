/** The public form of manifests: `model_dump` writes it, `model_validate` reads it back, and
    in between whole floats of enumerations have become integers. */
module ManifestCodec {
  import opened Ordering
  import opened Text
  import opened Numbers
  import opened CanonicalJson
  import opened JsonRoundTrip
  import opened Manifest
  import opened PayloadObjects
  import opened Payloads

  // ----- names and words -----

  const ATTRIBUTE_NAMES: seq<Text> := [Ascii("allowed_values"), Ascii("description"), Ascii("name"), Ascii("primary_key"),
                                       Ascii("required"), Ascii("retrieval_mode"), Ascii("type")]
  const ENTITY_NAMES: seq<Text> := [Ascii("attributes"), Ascii("description"), Ascii("name")]
  const ENDPOINT_NAMES: seq<Text> := [Ascii("entity"), Ascii("field")]
  const RELATIONSHIP_NAMES: seq<Text> := [Ascii("from"), Ascii("name"), Ascii("on_delete"), Ascii("to")]
  const INDEX_NAMES: seq<Text> := [Ascii("entity"), Ascii("fields"), Ascii("name"), Ascii("unique")]
  const STEP_NAMES: seq<Text> := [Ascii("from_schema_version"), Ascii("operations"), Ascii("to_schema_version")]
  const MANIFEST_NAMES: seq<Text> := MANIFEST_NAMES_1 + MANIFEST_NAMES_2
  const MANIFEST_NAMES_1: seq<Text> := [Ascii("discovery_facets"), Ascii("entities"), Ascii("indices"),
                                        Ascii("manifest_version"), Ascii("migration_history")]
  const MANIFEST_NAMES_2: seq<Text> := [Ascii("query_patterns"), Ascii("relationships"), Ascii("retrieval_guidance"),
                                        Ascii("schema_version")]

  lemma {:induction false} AttributeVocabulary()
    ensures Vocabulary(ATTRIBUTE_NAMES) && |ATTRIBUTE_NAMES| == 7
  {
    Chained(ATTRIBUTE_NAMES, [0, 0, 0, 0, 2, 0]);
  }

  lemma {:induction false} EntityVocabulary()
    ensures Vocabulary(ENTITY_NAMES) && |ENTITY_NAMES| == 3
  {
    Chained(ENTITY_NAMES, [0, 0]);
  }

  lemma {:induction false} EndpointVocabulary()
    ensures Vocabulary(ENDPOINT_NAMES) && |ENDPOINT_NAMES| == 2
  {
    Chained(ENDPOINT_NAMES, [0]);
  }

  lemma {:induction false} RelationshipVocabulary()
    ensures Vocabulary(RELATIONSHIP_NAMES) && |RELATIONSHIP_NAMES| == 4
  {
    Chained(RELATIONSHIP_NAMES, [0, 0, 0]);
  }

  lemma {:induction false} IndexVocabulary()
    ensures Vocabulary(INDEX_NAMES) && |INDEX_NAMES| == 4
  {
    Chained(INDEX_NAMES, [0, 0, 0]);
  }

  lemma {:induction false} StepVocabulary()
    ensures Vocabulary(STEP_NAMES) && |STEP_NAMES| == 3
  {
    Chained(STEP_NAMES, [0, 0]);
  }

  lemma {:induction false} ManifestVocabulary1()
    ensures Vocabulary(MANIFEST_NAMES_1)
  {
    Chained(MANIFEST_NAMES_1, [0, 0, 0, 1]);
  }

  lemma {:induction false} ManifestVocabulary2()
    ensures Vocabulary(MANIFEST_NAMES_2)
  {
    Chained(MANIFEST_NAMES_2, [0, 2, 0]);
  }

  lemma {:induction false} ManifestVocabulary()
    ensures Vocabulary(MANIFEST_NAMES) && |MANIFEST_NAMES| == 9
  {
    ManifestVocabulary1();
    ManifestVocabulary2();
    hide Vocabulary;
    JoinNames(MANIFEST_NAMES_1, MANIFEST_NAMES_2, 0);
  }

  function TypeText(ty: LogicalType): Text {
    match ty
    case StringType => Ascii("string")
    case IntegerType => Ascii("integer")
    case NumberType => Ascii("number")
    case BooleanType => Ascii("boolean")
    case DatetimeType => Ascii("datetime")
    case UuidType => Ascii("uuid")
    case StringListType => Ascii("string_list")
  }

  function TypeOf(s: Text): Option<LogicalType> {
    if s == TypeText(StringType) then Some(StringType)
    else if s == TypeText(IntegerType) then Some(IntegerType)
    else if s == TypeText(NumberType) then Some(NumberType)
    else if s == TypeText(BooleanType) then Some(BooleanType)
    else if s == TypeText(DatetimeType) then Some(DatetimeType)
    else if s == TypeText(UuidType) then Some(UuidType)
    else if s == TypeText(StringListType) then Some(StringListType)
    else None
  }

  lemma {:induction false} TypeBack(ty: LogicalType)
    ensures TypeOf(TypeText(ty)) == Some(ty)
  {
    var t := TypeText(ty);
    match ty
    case StringType => assert t[0] == 's' as int && |t| == 6;
    case IntegerType => assert t[0] == 'i' as int;
    case NumberType => assert t[0] == 'n' as int;
    case BooleanType => assert t[0] == 'b' as int;
    case DatetimeType => assert t[0] == 'd' as int;
    case UuidType => assert t[0] == 'u' as int;
    case StringListType => assert t[0] == 's' as int && |t| == 11;
  }

  const MEMBERSHIP_MODE: Text := Ascii("membership")
  const ANNOTATION_MODE: Text := Ascii("annotation")
  const RESTRICT: Text := Ascii("restrict")

  function RetrievalJson(r: Option<RetrievalMode>): Json {
    match r
    case None => Null
    case Some(Membership) => Str(MEMBERSHIP_MODE)
    case Some(Annotation) => Str(ANNOTATION_MODE)
  }

  function RetrievalOf(v: Json): Option<Option<RetrievalMode>> {
    if v.Null? then Some(None)
    else if v == Str(MEMBERSHIP_MODE) then Some(Some(RetrievalMode.Membership))
    else if v == Str(ANNOTATION_MODE) then Some(Some(Annotation))
    else None
  }

  lemma {:induction false} RetrievalBack(r: Option<RetrievalMode>)
    ensures RetrievalOf(Canon(RetrievalJson(r))) == Some(r)
  {
    assert MEMBERSHIP_MODE[0] == 'm' as int && ANNOTATION_MODE[0] == 'a' as int;
  }

  // ----- lists and objects -----

  function LoadAll<T>(load: Json -> Option<T>, items: seq<Json>): Option<seq<T>> {
    if items == [] then Some([])
    else
      match load(items[0])
      case None => None
      case Some(x) => Onto([x], LoadAll(load, items[1..]))
  }

  function ListOf<T>(load: Json -> Option<T>, v: Json): Option<seq<T>> {
    if v.Arr? then LoadAll(load, v.items) else None
  }

  lemma {:induction false} LoadedList<T>(load: Json -> Option<T>, items: seq<Json>, xs: seq<T>)
    requires |items| == |xs| && forall i :: 0 <= i < |xs| ==> load(Canon(items[i])) == Some(xs[i])
    ensures ListOf(load, Canon(Arr(items))) == Some(xs)
    decreases |items|
  {
    if items == [] {
      assert xs == [];
    } else {
      LoadedList(load, items[1..], xs[1..]);
      assert CanonItems(items)[1..] == CanonItems(items[1..]);
      assert xs == [xs[0]] + xs[1..];
    }
  }

  lemma {:induction false} ListOrderly(near: Rounding, items: seq<Json>)
    requires forall i :: 0 <= i < |items| ==> Orderly(near, items[i])
    ensures Orderly(near, Arr(items))
  {
    ItemsOrderly(near, items);
  }

  lemma {:induction false} ItemsOrderly(near: Rounding, items: seq<Json>)
    requires forall i :: 0 <= i < |items| ==> Orderly(near, items[i])
    ensures OrderlyItems(near, items)
  {
    if items != [] {
      ItemsOrderly(near, items[1..]);
    }
  }

  lemma {:induction false} ClosingOrderly(near: Rounding, names: seq<Text>, values: seq<Json>)
    requires Vocabulary(names) && |names| == |values| && forall i :: 0 <= i < |values| ==> Orderly(near, values[i])
    ensures Orderly(near, Closing(names, values))
  {
    ZipOrderly(near, names, values);
    ZipSorted(names, values);
  }

  /** The values under the names of a written object, as the decoder reads them. */
  lemma {:induction false} ClosingBack(names: seq<Text>, values: seq<Json>)
    requires Vocabulary(names) && |names| == |values|
    ensures Fields(Canon(Closing(names, values)), names) == Some(CanonItems(values))
    ensures forall i :: 0 <= i < |values| ==> CanonItems(values)[i] == Canon(values[i])
  {
    ZipCanon(names, values);
    ZipFields(names, CanonItems(values));
    forall i | 0 <= i < |values| ensures CanonItems(values)[i] == Canon(values[i]) {
      CanonAt(values, i);
    }
  }

  function Texts(ts: seq<Text>): (r: seq<Json>)
    ensures |r| == |ts| && forall i :: 0 <= i < |r| ==> r[i] == Str(ts[i])
  {
    seq(|ts|, i requires 0 <= i < |ts| => Str(ts[i]))
  }

  function TextOf(v: Json): Option<Text> {
    if v.Str? then Some(v.s) else None
  }

  lemma {:induction false} TextsBack(near: Rounding, ts: seq<Text>)
    ensures ListOf(TextOf, Canon(Arr(Texts(ts)))) == Some(ts) && Orderly(near, Arr(Texts(ts)))
  {
    LoadedList(TextOf, Texts(ts), ts);
    ListOrderly(near, Texts(ts));
  }

  // ----- enumerations -----

  type FloatDecimal = real -> Shortest

  function AllowedJson(decimal: FloatDecimal, v: AllowedValue): Json {
    match v
    case AText(s) => Str(s)
    case AInt(n) => Int(n)
    case AFloat(x) => Float(decimal(x))
    case ABool(b) => Bool(b)
  }

  /** The union of strict types: text, integer, float and boolean are told apart. */
  function AllowedOf(v: Json): Option<AllowedValue> {
    match v
    case Str(s) => Some(AText(s))
    case Int(n) => Some(AInt(n))
    case Float(d) => Some(AFloat(DecimalValue(d)))
    case Bool(b) => Some(ABool(b))
    case _ => None
  }

  /** A float that is printed as an integer comes back as that integer. */
  function TransferredAllowed(decimal: FloatDecimal, v: AllowedValue): AllowedValue {
    if v.AFloat? && Integral(decimal(v.x)) then AInt(IntegerOf(decimal(v.x))) else v
  }

  function AllowedItems(decimal: FloatDecimal, vs: seq<AllowedValue>): (r: seq<Json>)
    ensures |r| == |vs| && forall i :: 0 <= i < |r| ==> r[i] == AllowedJson(decimal, vs[i])
  {
    seq(|vs|, i requires 0 <= i < |vs| => AllowedJson(decimal, vs[i]))
  }

  function TransferredValues(decimal: FloatDecimal, vs: seq<AllowedValue>): (r: seq<AllowedValue>)
    ensures |r| == |vs| && forall i :: 0 <= i < |r| ==> r[i] == TransferredAllowed(decimal, vs[i])
  {
    seq(|vs|, i requires 0 <= i < |vs| => TransferredAllowed(decimal, vs[i]))
  }

  /** The decimal of every float in the enumeration is a binary64 value and stands for it. */
  ghost predicate FloatsFit(near: Rounding, decimal: FloatDecimal, vs: seq<AllowedValue>) {
    forall v :: v in vs && v.AFloat? ==> near(decimal(v.x)) == Some(decimal(v.x)) && DecimalValue(decimal(v.x)) == v.x
  }

  lemma {:induction false} AllowedBack(near: Rounding, decimal: FloatDecimal, vs: seq<AllowedValue>)
    requires FloatsFit(near, decimal, vs)
    ensures ListOf(AllowedOf, Canon(Arr(AllowedItems(decimal, vs)))) == Some(TransferredValues(decimal, vs))
    ensures Orderly(near, Arr(AllowedItems(decimal, vs)))
  {
    var items := AllowedItems(decimal, vs);
    forall i | 0 <= i < |vs|
      ensures AllowedOf(Canon(items[i])) == Some(TransferredValues(decimal, vs)[i]) && Orderly(near, items[i])
    {
      assert vs[i] in vs;
    }
    LoadedList(AllowedOf, items, TransferredValues(decimal, vs));
    ListOrderly(near, items);
  }

  // ----- attributes -----

  function AttributeValues(decimal: FloatDecimal, a: Attribute): (r: seq<Json>)
    ensures |r| == 7
  {
    [if a.allowed.Some? then Arr(AllowedItems(decimal, a.allowed.value)) else Null, Optional(a.description), Str(a.name),
     Bool(a.primaryKey), Bool(a.required), RetrievalJson(a.retrieval), Str(TypeText(a.ty))]
  }

  function AttributeJson(decimal: FloatDecimal, a: Attribute): Json {
    Closing(ATTRIBUTE_NAMES, AttributeValues(decimal, a))
  }

  function EnumerationOf(v: Json): Option<Option<seq<AllowedValue>>> {
    if v.Null? then Some(None)
    else match ListOf(AllowedOf, v)
      case None => None
      case Some(vs) => Some(Some(vs))
  }

  function AttributeOfValues(v: seq<Json>): Option<Attribute>
    requires |v| == 7
  {
    match (EnumerationOf(v[0]), OptionalOf(v[1]), v[2], v[3], v[4], RetrievalOf(v[5]), v[6])
    case (Some(allowed), Some(description), Str(name), Bool(key), Bool(required), Some(retrieval), Str(word)) =>
      (match TypeOf(word)
       case None => None
       case Some(ty) => Some(Attribute(name, ty, required, key, description, allowed, retrieval)))
    case _ => None
  }

  function LoadAttribute(v: Json): Option<Attribute> {
    match Fields(v, ATTRIBUTE_NAMES)
    case None => None
    case Some(vs) => AttributeOfValues(vs)
  }

  function TransferredAttribute(decimal: FloatDecimal, a: Attribute): Attribute {
    if a.allowed.Some? then a.(allowed := Some(TransferredValues(decimal, a.allowed.value))) else a
  }

  ghost predicate AttributeFloatsFit(near: Rounding, decimal: FloatDecimal, a: Attribute) {
    a.allowed.Some? ==> FloatsFit(near, decimal, a.allowed.value)
  }

  lemma {:induction false} EnumerationBack(near: Rounding, decimal: FloatDecimal, a: Attribute)
    requires AttributeFloatsFit(near, decimal, a)
    ensures EnumerationOf(Canon(AttributeValues(decimal, a)[0])) == Some(TransferredAttribute(decimal, a).allowed)
    ensures Orderly(near, AttributeValues(decimal, a)[0])
  {
    if a.allowed.Some? {
      AllowedBack(near, decimal, a.allowed.value);
    }
  }

  lemma {:induction false} AttributeValuesBack(near: Rounding, decimal: FloatDecimal, a: Attribute, v: seq<Json>)
    requires AttributeFloatsFit(near, decimal, a) && |v| == 7
    requires forall i :: 0 <= i < 7 ==> v[i] == Canon(AttributeValues(decimal, a)[i])
    ensures AttributeOfValues(v) == Some(TransferredAttribute(decimal, a))
  {
    EnumerationBack(near, decimal, a);
    RetrievalBack(a.retrieval);
    TypeBack(a.ty);
    hide EnumerationOf, RetrievalOf, RetrievalJson, TypeOf, TypeText, FloatsFit, TransferredValues, AllowedItems;
    assert v[1] == Optional(a.description) && v[2] == Str(a.name) && v[3] == Bool(a.primaryKey);
    assert v[4] == Bool(a.required) && v[6] == Str(TypeText(a.ty));
  }

  lemma {:induction false} AttributeBack(near: Rounding, decimal: FloatDecimal, a: Attribute)
    requires AttributeFloatsFit(near, decimal, a)
    ensures LoadAttribute(Canon(AttributeJson(decimal, a))) == Some(TransferredAttribute(decimal, a))
    ensures Orderly(near, AttributeJson(decimal, a))
  {
    hide Fields, ATTRIBUTE_NAMES, Vocabulary, Canon, AttributeOfValues, AttributeFloatsFit, TypeText, AllowedItems,
         Closing;
    AttributeVocabulary();
    var vs := AttributeValues(decimal, a);
    ClosingBack(ATTRIBUTE_NAMES, vs);
    EnumerationBack(near, decimal, a);
    AttributeValuesBack(near, decimal, a, CanonItems(vs));
    ClosingOrderly(near, ATTRIBUTE_NAMES, vs);
  }

  // ----- entities -----

  function AttributeItems(decimal: FloatDecimal, s: seq<Attribute>): (r: seq<Json>)
    ensures |r| == |s| && forall i :: 0 <= i < |r| ==> r[i] == AttributeJson(decimal, s[i])
  {
    seq(|s|, i requires 0 <= i < |s| => AttributeJson(decimal, s[i]))
  }

  function TransferredAttributes(decimal: FloatDecimal, s: seq<Attribute>): (r: seq<Attribute>)
    ensures |r| == |s| && forall i :: 0 <= i < |r| ==> r[i] == TransferredAttribute(decimal, s[i])
  {
    seq(|s|, i requires 0 <= i < |s| => TransferredAttribute(decimal, s[i]))
  }

  function EntityValues(decimal: FloatDecimal, e: EntityDef): (r: seq<Json>)
    ensures |r| == 3
  {
    [Arr(AttributeItems(decimal, e.attributes)), Optional(e.description), Str(e.name)]
  }

  function EntityJson(decimal: FloatDecimal, e: EntityDef): Json {
    Closing(ENTITY_NAMES, EntityValues(decimal, e))
  }

  function LoadEntity(v: Json): Option<EntityDef> {
    match Fields(v, ENTITY_NAMES)
    case None => None
    case Some(vs) =>
      match (ListOf(LoadAttribute, vs[0]), OptionalOf(vs[1]), vs[2])
      case (Some(attributes), Some(description), Str(name)) => Some(EntityDef(name, attributes, description))
      case _ => None
  }

  function TransferredEntity(decimal: FloatDecimal, e: EntityDef): EntityDef {
    e.(attributes := TransferredAttributes(decimal, e.attributes))
  }

  ghost predicate EntityFloatsFit(near: Rounding, decimal: FloatDecimal, e: EntityDef) {
    forall a :: a in e.attributes ==> AttributeFloatsFit(near, decimal, a)
  }

  lemma {:induction false} AttributesBack(near: Rounding, decimal: FloatDecimal, s: seq<Attribute>)
    requires forall a :: a in s ==> AttributeFloatsFit(near, decimal, a)
    ensures ListOf(LoadAttribute, Canon(Arr(AttributeItems(decimal, s)))) == Some(TransferredAttributes(decimal, s))
    ensures Orderly(near, Arr(AttributeItems(decimal, s)))
  {
    hide AttributeFloatsFit, LoadAttribute, AttributeJson, TransferredAttribute, Orderly, Canon;
    var items := AttributeItems(decimal, s);
    forall i | 0 <= i < |s|
      ensures LoadAttribute(Canon(items[i])) == Some(TransferredAttributes(decimal, s)[i]) && Orderly(near, items[i])
    {
      assert s[i] in s;
      AttributeBack(near, decimal, s[i]);
    }
    LoadedList(LoadAttribute, items, TransferredAttributes(decimal, s));
    ListOrderly(near, items);
  }

  lemma {:induction false} EntityBack(near: Rounding, decimal: FloatDecimal, e: EntityDef)
    requires EntityFloatsFit(near, decimal, e)
    ensures LoadEntity(Canon(EntityJson(decimal, e))) == Some(TransferredEntity(decimal, e))
    ensures Orderly(near, EntityJson(decimal, e))
  {
    hide Fields, ENTITY_NAMES, Vocabulary, ListOf, LoadAttribute, AttributeItems, TransferredAttributes, Closing;
    EntityVocabulary();
    var vs := EntityValues(decimal, e);
    ClosingBack(ENTITY_NAMES, vs);
    AttributesBack(near, decimal, e.attributes);
    ClosingOrderly(near, ENTITY_NAMES, vs);
    assert CanonItems(vs)[1] == Optional(e.description) && CanonItems(vs)[2] == Str(e.name);
    assert CanonItems(vs)[0] == Canon(Arr(AttributeItems(decimal, e.attributes)));
  }

  // ----- endpoints, relationships, indices and history -----

  function EndpointValues(e: Endpoint): seq<Json> {
    [Str(e.entity), Str(e.field)]
  }

  function EndpointJson(e: Endpoint): Json {
    Closing(ENDPOINT_NAMES, EndpointValues(e))
  }

  function LoadEndpoint(v: Json): Option<Endpoint> {
    match Fields(v, ENDPOINT_NAMES)
    case None => None
    case Some(vs) => if vs[0].Str? && vs[1].Str? then Some(Endpoint(vs[0].s, vs[1].s)) else None
  }

  lemma {:induction false} EndpointBack(near: Rounding, e: Endpoint)
    ensures LoadEndpoint(Canon(EndpointJson(e))) == Some(e) && Orderly(near, EndpointJson(e))
  {
    hide Fields, ENDPOINT_NAMES, Vocabulary, Closing;
    EndpointVocabulary();
    ClosingBack(ENDPOINT_NAMES, EndpointValues(e));
    ClosingOrderly(near, ENDPOINT_NAMES, EndpointValues(e));
  }

  function RelationshipValues(r: Relationship): seq<Json> {
    [EndpointJson(r.source), Str(r.name), Str(RESTRICT), EndpointJson(r.target)]
  }

  function RelationshipJson(r: Relationship): Json {
    Closing(RELATIONSHIP_NAMES, RelationshipValues(r))
  }

  function LoadRelationship(v: Json): Option<Relationship> {
    match Fields(v, RELATIONSHIP_NAMES)
    case None => None
    case Some(vs) =>
      match (LoadEndpoint(vs[0]), vs[1], LoadEndpoint(vs[3]))
      case (Some(source), Str(name), Some(target)) =>
        if vs[2] == Str(RESTRICT) then Some(Relationship(name, source, target)) else None
      case _ => None
  }

  lemma {:induction false} RelationshipBack(near: Rounding, r: Relationship)
    ensures LoadRelationship(Canon(RelationshipJson(r))) == Some(r) && Orderly(near, RelationshipJson(r))
  {
    hide Fields, RELATIONSHIP_NAMES, Vocabulary, LoadEndpoint, EndpointJson, RESTRICT, Closing;
    RelationshipVocabulary();
    var vs := RelationshipValues(r);
    ClosingBack(RELATIONSHIP_NAMES, vs);
    EndpointBack(near, r.source);
    EndpointBack(near, r.target);
    ClosingOrderly(near, RELATIONSHIP_NAMES, vs);
    assert CanonItems(vs)[0] == Canon(EndpointJson(r.source)) && CanonItems(vs)[3] == Canon(EndpointJson(r.target));
    assert CanonItems(vs)[1] == Str(r.name) && CanonItems(vs)[2] == Str(RESTRICT);
  }

  function IndexValues(x: Index): seq<Json> {
    [Str(x.entity), Arr(Texts(x.fields)), Str(x.name), Bool(x.unique)]
  }

  function IndexJson(x: Index): Json {
    Closing(INDEX_NAMES, IndexValues(x))
  }

  function LoadIndex(v: Json): Option<Index> {
    match Fields(v, INDEX_NAMES)
    case None => None
    case Some(vs) =>
      match (vs[0], ListOf(TextOf, vs[1]), vs[2], vs[3])
      case (Str(entity), Some(fields), Str(name), Bool(unique)) => Some(Index(name, entity, fields, unique))
      case _ => None
  }

  lemma {:induction false} IndexBack(near: Rounding, x: Index)
    ensures LoadIndex(Canon(IndexJson(x))) == Some(x) && Orderly(near, IndexJson(x))
  {
    hide Fields, INDEX_NAMES, Vocabulary, ListOf, Texts, Closing;
    IndexVocabulary();
    var vs := IndexValues(x);
    ClosingBack(INDEX_NAMES, vs);
    TextsBack(near, x.fields);
    ClosingOrderly(near, INDEX_NAMES, vs);
    assert CanonItems(vs)[1] == Canon(Arr(Texts(x.fields)));
    assert CanonItems(vs)[0] == Str(x.entity) && CanonItems(vs)[2] == Str(x.name) && CanonItems(vs)[3] == Bool(x.unique);
  }

  function StepValues(h: HistoryEntry): seq<Json> {
    [Int(h.fromVersion), Arr(Texts(h.operations)), Int(h.toVersion)]
  }

  function StepJson(h: HistoryEntry): Json {
    Closing(STEP_NAMES, StepValues(h))
  }

  function LoadStep(v: Json): Option<HistoryEntry> {
    match Fields(v, STEP_NAMES)
    case None => None
    case Some(vs) =>
      match (vs[0], ListOf(TextOf, vs[1]), vs[2])
      case (Int(before), Some(operations), Int(after)) => Some(HistoryEntry(before, after, operations))
      case _ => None
  }

  lemma {:induction false} StepBack(near: Rounding, h: HistoryEntry)
    ensures LoadStep(Canon(StepJson(h))) == Some(h) && Orderly(near, StepJson(h))
  {
    hide Fields, STEP_NAMES, Vocabulary, ListOf, Texts, Closing;
    StepVocabulary();
    var vs := StepValues(h);
    ClosingBack(STEP_NAMES, vs);
    TextsBack(near, h.operations);
    ClosingOrderly(near, STEP_NAMES, vs);
    assert CanonItems(vs)[1] == Canon(Arr(Texts(h.operations)));
    assert CanonItems(vs)[0] == Int(h.fromVersion) && CanonItems(vs)[2] == Int(h.toVersion);
  }

  // ----- whole manifests -----

  function EntityItems(decimal: FloatDecimal, s: seq<EntityDef>): (r: seq<Json>)
    ensures |r| == |s| && forall i :: 0 <= i < |r| ==> r[i] == EntityJson(decimal, s[i])
  {
    seq(|s|, i requires 0 <= i < |s| => EntityJson(decimal, s[i]))
  }

  function TransferredEntities(decimal: FloatDecimal, s: seq<EntityDef>): (r: seq<EntityDef>)
    ensures |r| == |s| && forall i :: 0 <= i < |r| ==> r[i] == TransferredEntity(decimal, s[i])
  {
    seq(|s|, i requires 0 <= i < |s| => TransferredEntity(decimal, s[i]))
  }

  function Items<T>(json: T -> Json, s: seq<T>): (r: seq<Json>)
    ensures |r| == |s| && forall i :: 0 <= i < |r| ==> r[i] == json(s[i])
  {
    seq(|s|, i requires 0 <= i < |s| => json(s[i]))
  }

  /** The values of `model_dump`, in the order of the names. */
  function ManifestValues(decimal: FloatDecimal, m: Manifest): (r: seq<Json>)
    ensures |r| == 9
  {
    [Arr(Items(EndpointJson, m.facets)), Arr(EntityItems(decimal, m.entities)), Arr(Items(IndexJson, m.indices)), Int(2),
     Arr(Items(StepJson, m.history)), Arr(Texts(m.queryPatterns)), Arr(Items(RelationshipJson, m.relationships)),
     Optional(m.guidance), Int(m.schemaVersion)]
  }

  function ManifestJson(decimal: FloatDecimal, m: Manifest): (r: Json)
    ensures r.Obj?
  {
    ManifestVocabulary();
    Closing(MANIFEST_NAMES, ManifestValues(decimal, m))
  }

  function ManifestOfValues(v: seq<Json>): Option<Manifest>
    requires |v| == 9
  {
    match (ListOf(LoadEndpoint, v[0]), ListOf(LoadEntity, v[1]), ListOf(LoadIndex, v[2]), ListOf(LoadStep, v[4]))
    case (Some(facets), Some(entities), Some(indices), Some(history)) =>
      (match (ListOf(TextOf, v[5]), ListOf(LoadRelationship, v[6]), OptionalOf(v[7]), v[8])
       case (Some(patterns), Some(relationships), Some(guidance), Int(version)) =>
         if v[3] == Int(2) then Some(Manifest(version, entities, relationships, indices, patterns, facets, guidance, history))
         else None
       case _ => None)
    case _ => None
  }

  /** The document before its validators have run. */
  function ParseManifest(v: Json): Option<Manifest> {
    match Fields(v, MANIFEST_NAMES)
    case None => None
    case Some(vs) => ManifestVocabulary(); ManifestOfValues(vs)
  }

  /** `ManifestV2.model_validate`. */
  ghost function LoadManifest(v: Json): Option<Manifest> {
    match ParseManifest(v)
    case None => None
    case Some(m) => if ValidManifest(m) then Some(m) else None
  }

  function TransferredManifest(decimal: FloatDecimal, m: Manifest): Manifest {
    m.(entities := TransferredEntities(decimal, m.entities))
  }

  ghost predicate ManifestFloatsFit(near: Rounding, decimal: FloatDecimal, m: Manifest) {
    forall e :: e in m.entities ==> EntityFloatsFit(near, decimal, e)
  }

  lemma {:induction false} EntitiesBack(near: Rounding, decimal: FloatDecimal, s: seq<EntityDef>)
    requires forall e :: e in s ==> EntityFloatsFit(near, decimal, e)
    ensures ListOf(LoadEntity, Canon(Arr(EntityItems(decimal, s)))) == Some(TransferredEntities(decimal, s))
    ensures Orderly(near, Arr(EntityItems(decimal, s)))
  {
    hide EntityFloatsFit, LoadEntity, EntityJson, TransferredEntity, Orderly, Canon;
    var items := EntityItems(decimal, s);
    forall i | 0 <= i < |s|
      ensures LoadEntity(Canon(items[i])) == Some(TransferredEntities(decimal, s)[i]) && Orderly(near, items[i])
    {
      assert s[i] in s;
      EntityBack(near, decimal, s[i]);
    }
    LoadedList(LoadEntity, items, TransferredEntities(decimal, s));
    ListOrderly(near, items);
  }

  lemma {:induction false} ListsBack(near: Rounding, m: Manifest)
    ensures ListOf(LoadEndpoint, Canon(Arr(Items(EndpointJson, m.facets)))) == Some(m.facets)
    ensures ListOf(LoadIndex, Canon(Arr(Items(IndexJson, m.indices)))) == Some(m.indices)
    ensures ListOf(LoadStep, Canon(Arr(Items(StepJson, m.history)))) == Some(m.history)
    ensures ListOf(LoadRelationship, Canon(Arr(Items(RelationshipJson, m.relationships)))) == Some(m.relationships)
    ensures Orderly(near, Arr(Items(EndpointJson, m.facets))) && Orderly(near, Arr(Items(IndexJson, m.indices)))
    ensures Orderly(near, Arr(Items(StepJson, m.history))) && Orderly(near, Arr(Items(RelationshipJson, m.relationships)))
  {
    hide *;
    forall e ensures LoadEndpoint(Canon(EndpointJson(e))) == Some(e) && Orderly(near, EndpointJson(e)) {
      EndpointBack(near, e);
    }
    ItemsBack(near, EndpointJson, LoadEndpoint, m.facets);
    forall x ensures LoadIndex(Canon(IndexJson(x))) == Some(x) && Orderly(near, IndexJson(x)) {
      IndexBack(near, x);
    }
    ItemsBack(near, IndexJson, LoadIndex, m.indices);
    forall h ensures LoadStep(Canon(StepJson(h))) == Some(h) && Orderly(near, StepJson(h)) {
      StepBack(near, h);
    }
    ItemsBack(near, StepJson, LoadStep, m.history);
    forall r ensures LoadRelationship(Canon(RelationshipJson(r))) == Some(r) && Orderly(near, RelationshipJson(r)) {
      RelationshipBack(near, r);
    }
    ItemsBack(near, RelationshipJson, LoadRelationship, m.relationships);
  }

  lemma {:induction false} ItemsBack<T(!new)>(near: Rounding, json: T -> Json, load: Json -> Option<T>, s: seq<T>)
    requires forall x: T :: load(Canon(json(x))) == Some(x) && Orderly(near, json(x))
    ensures ListOf(load, Canon(Arr(Items(json, s)))) == Some(s) && Orderly(near, Arr(Items(json, s)))
  {
    LoadedList(load, Items(json, s), s);
    ListOrderly(near, Items(json, s));
  }

  lemma {:induction false} ManifestValuesBack(near: Rounding, decimal: FloatDecimal, m: Manifest, v: seq<Json>)
    requires ManifestFloatsFit(near, decimal, m) && |v| == 9
    requires forall i :: 0 <= i < 9 ==> v[i] == Canon(ManifestValues(decimal, m)[i])
    ensures ManifestOfValues(v) == Some(TransferredManifest(decimal, m))
    ensures forall i :: 0 <= i < 9 ==> Orderly(near, ManifestValues(decimal, m)[i])
  {
    ListsBack(near, m);
    EntitiesBack(near, decimal, m.entities);
    TextsBack(near, m.queryPatterns);
    hide ListOf, Items, EntityItems, Texts, TransferredEntities, LoadEntity, LoadEndpoint, LoadIndex, LoadStep,
         LoadRelationship, EndpointJson, IndexJson, StepJson, RelationshipJson, EntityFloatsFit;
    var values := ManifestValues(decimal, m);
    assert v[0] == Canon(values[0]) && v[1] == Canon(values[1]) && v[2] == Canon(values[2]) && v[4] == Canon(values[4]);
    assert v[5] == Canon(values[5]) && v[6] == Canon(values[6]);
    assert v[3] == Int(2) && v[7] == Optional(m.guidance) && v[8] == Int(m.schemaVersion);
  }

  /** The document that is read back is the one that was written, with every float that is
      printed as an integer become that integer. */
  lemma {:induction false} ParsedBack(near: Rounding, decimal: FloatDecimal, m: Manifest)
    requires ManifestFloatsFit(near, decimal, m)
    ensures ParseManifest(Canon(ManifestJson(decimal, m))) == Some(TransferredManifest(decimal, m))
    ensures Orderly(near, ManifestJson(decimal, m))
  {
    hide Fields, MANIFEST_NAMES, Vocabulary, Closing, ManifestOfValues, ManifestValues, Canon, TransferredManifest,
         ManifestFloatsFit;
    ManifestVocabulary();
    var vs := ManifestValues(decimal, m);
    ClosingBack(MANIFEST_NAMES, vs);
    ManifestValuesBack(near, decimal, m, CanonItems(vs));
    ClosingOrderly(near, MANIFEST_NAMES, vs);
  }
}
