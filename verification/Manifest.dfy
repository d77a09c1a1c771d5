/** Manifests as their validators leave them. */
module Manifest {
  import opened Ordering
  import opened Text
  import opened Cycles
  import CanonicalJson

  const MAX_SCHEMA_VERSION := 65
  const MAX_ENTITIES := 32
  const MAX_ATTRIBUTES := 64
  const MAX_RELATIONSHIPS := 128
  const MAX_INDICES := 128
  const MAX_INDEX_FIELDS := 8
  const MAX_NAME := 48
  const MAX_ALLOWED := 32
  const MAX_ALLOWED_CHARS := 96

  /** Integers that binary64 holds exactly. */
  const EXACT_INTEGER_MAX := 0x20_0000_0000_0000

  type Name = Text

  datatype LogicalType = StringType | IntegerType | NumberType | BooleanType | DatetimeType | UuidType | StringListType

  /** One enumeration value; a float is the exact rational it stands for. */
  datatype AllowedValue = AText(s: Text) | AInt(n: int) | AFloat(x: real) | ABool(b: bool)

  datatype RetrievalMode = Annotation | Membership

  datatype Attribute = Attribute(name: Name, ty: LogicalType, required: bool, primaryKey: bool,
                                 description: Option<Text>, allowed: Option<seq<AllowedValue>>,
                                 retrieval: Option<RetrievalMode>)

  datatype EntityDef = EntityDef(name: Name, attributes: seq<Attribute>, description: Option<Text>)

  datatype Endpoint = Endpoint(entity: Name, field: Name)

  /** The only update and delete actions are "restrict". */
  datatype Relationship = Relationship(name: Name, source: Endpoint, target: Endpoint)

  datatype Index = Index(name: Name, entity: Name, fields: seq<Name>, unique: bool)

  datatype HistoryEntry = HistoryEntry(fromVersion: int, toVersion: int, operations: seq<Text>)

  datatype Manifest = Manifest(schemaVersion: int, entities: seq<EntityDef>, relationships: seq<Relationship>,
                               indices: seq<Index>, queryPatterns: seq<Text>, facets: seq<Endpoint>,
                               guidance: Option<Text>, history: seq<HistoryEntry>)

  function AttributeName(a: Attribute): Key { a.name }

  function EntityName(e: EntityDef): Key { e.name }

  function RelationshipName(r: Relationship): Key { r.name }

  function IndexName(i: Index): Key { i.name }

  /** What a server-managed field must be declared as, if the name is one. */
  function ServerManaged(name: Name): Option<(LogicalType, bool, bool)> {
    if name == ID then Some((UuidType, true, true))
    else if name == OWNER_ID then Some((StringType, true, false))
    else if name == CREATED_AT || name == UPDATED_AT then Some((DatetimeType, true, false))
    else if name == CREATED_VIA then Some((StringType, true, false))
    else if name == RECORD_VERSION then Some((IntegerType, true, false))
    else None
  }

  const ID: Name := Ascii("id")
  const OWNER_ID: Name := Ascii("owner_id")
  const CREATED_AT: Name := Ascii("created_at")
  const UPDATED_AT: Name := Ascii("updated_at")
  const CREATED_VIA: Name := Ascii("created_via")
  const RECORD_VERSION: Name := Ascii("record_version")
  const SERVER_FIELDS: set<Name> := {ID, OWNER_ID, CREATED_AT, UPDATED_AT, CREATED_VIA, RECORD_VERSION}
  const SQLITE: Text := Ascii("sqlite_")

  /** The identifier pattern: a small letter, then up to 62 small letters, digits and
      underscores. */
  predicate IsIdentifier(s: Text) {
    1 <= |s| <= 63 && 'a' as int <= s[0] <= 'z' as int
    && forall i :: 1 <= i < |s| ==>
         'a' as int <= s[i] <= 'z' as int || '0' as int <= s[i] <= '9' as int || s[i] == '_' as int
  }

  function AttributeOf(m: Manifest, entity: Name, field: Name): Option<Attribute> {
    match Find(EntityName, m.entities, entity)
    case None => None
    case Some(e) => Find(AttributeName, e.attributes, field)
  }

  /** `_allowed_value_matches_type` and the checks on text values. */
  predicate AllowedFits(v: AllowedValue, ty: LogicalType) {
    match ty
    case StringType => v.AText? && 1 <= |v.s| <= MAX_ALLOWED_CHARS && 0 !in v.s
    case StringListType => v.AText? && 1 <= |v.s| <= MAX_ALLOWED_CHARS && 0 !in v.s
    case IntegerType => v.AInt? && CanonicalJson.Signed64(v.n)
    case NumberType => (v.AInt? && -EXACT_INTEGER_MAX <= v.n <= EXACT_INTEGER_MAX) || v.AFloat?
    case BooleanType => v.ABool?
    case _ => false
  }

  /** An enumeration: values of the field's type, no two of the same type and value. */
  predicate ValidAllowed(vs: seq<AllowedValue>, ty: LogicalType) {
    && 1 <= |vs| <= MAX_ALLOWED && (forall v :: v in vs ==> AllowedFits(v, ty))
    && forall i, j :: 0 <= i < j < |vs| ==> vs[i] != vs[j]
  }

  /** `AttributeDefinition.validate_type_metadata`. */
  predicate ValidAttribute(a: Attribute) {
    && IsIdentifier(a.name) && (a.primaryKey ==> a.required)
    && (a.allowed.Some? ==> ValidAllowed(a.allowed.value, a.ty))
    && (a.retrieval == Some(Membership) ==> a.ty == StringListType)
    && (a.retrieval == Some(Annotation) ==> a.ty == StringType)
  }

  predicate ValidEntity(e: EntityDef) {
    && IsIdentifier(e.name) && 6 <= |e.attributes| <= MAX_ATTRIBUTES
    && (forall a :: a in e.attributes ==> ValidAttribute(a) && (a.primaryKey ==> a.name == ID))
    && DistinctAttributes(e.attributes)
    && DeclaresServerFields(e.attributes)
  }

  /** Every server-managed field is declared exactly as it must be. */
  predicate DeclaresServerFields(s: seq<Attribute>) {
    forall n :: n in SERVER_FIELDS ==>
      match Find(AttributeName, s, n)
      case None => false
      case Some(a) => ServerManaged(n) == Some((a.ty, a.required, a.primaryKey))
                      && a.description.None? && a.allowed.None? && a.retrieval.None?
  }

  predicate DistinctAttributes(s: seq<Attribute>) {
    forall i, j :: 0 <= i < j < |s| ==> AttributeName(s[i]) != AttributeName(s[j])
  }

  predicate DistinctEntities(s: seq<EntityDef>) {
    forall i, j :: 0 <= i < j < |s| ==> EntityName(s[i]) != EntityName(s[j])
  }

  predicate DistinctRelationships(s: seq<Relationship>) {
    forall i, j :: 0 <= i < j < |s| ==>
      RelationshipName(s[i]) != RelationshipName(s[j]) && s[i].source != s[j].source
  }

  predicate DistinctIndices(s: seq<Index>) {
    forall i, j :: 0 <= i < j < |s| ==>
      IndexName(s[i]) != IndexName(s[j])
      && (s[i].entity, s[i].fields, s[i].unique) != (s[j].entity, s[j].fields, s[j].unique)
  }

  /** The history goes from version 1 to the current one, one version at a time. */
  predicate ValidHistory(m: Manifest) {
    |m.history| == m.schemaVersion - 1
    && forall i :: 0 <= i < |m.history| ==> m.history[i].fromVersion == i + 1 && m.history[i].toVersion == i + 2
  }

  predicate ValidRelationship(m: Manifest, r: Relationship) {
    && IsIdentifier(r.name) && |r.name| <= MAX_NAME
    && r.source.field !in SERVER_FIELDS && r.target.field == ID
    && (match AttributeOf(m, r.source.entity, r.source.field)
        case None => false
        case Some(a) => a.ty == UuidType && !a.primaryKey)
    && (match AttributeOf(m, r.target.entity, ID)
        case None => false
        case Some(a) => a.ty == UuidType && a.primaryKey)
  }

  predicate ValidIndex(m: Manifest, x: Index) {
    && IsIdentifier(x.name) && |x.name| <= MAX_NAME && 1 <= |x.fields| <= MAX_INDEX_FIELDS
    && (forall i, j :: 0 <= i < j < |x.fields| ==> x.fields[i] != x.fields[j])
    && forall f :: f in x.fields ==>
         match AttributeOf(m, x.entity, f)
         case None => false
         case Some(a) => a.ty != StringListType
  }

  /** Required relationships as edges between entities. */
  function RequiredEdges(m: Manifest): set<(Text, Text)> {
    set r | r in m.relationships && RequiredSource(m, r) :: (r.source.entity, r.target.entity)
  }

  predicate RequiredSource(m: Manifest, r: Relationship) {
    match AttributeOf(m, r.source.entity, r.source.field)
    case None => false
    case Some(a) => a.required
  }

  /** `ManifestV2.validate_references` with the checks of the parts it is made of. */
  ghost predicate ValidManifest(m: Manifest) {
    && 1 <= m.schemaVersion <= MAX_SCHEMA_VERSION && ValidHistory(m)
    && 1 <= |m.entities| <= MAX_ENTITIES && |m.relationships| <= MAX_RELATIONSHIPS && |m.indices| <= MAX_INDICES
    && (forall e :: e in m.entities ==> ValidEntity(e) && !(SQLITE <= e.name))
    && DistinctEntities(m.entities)
    && DistinctRelationships(m.relationships)
    && DistinctIndices(m.indices)
    && (forall x :: x in m.indices ==> ValidIndex(m, x) && !(SQLITE <= x.name)
                                       && forall e :: e in m.entities ==> e.name != x.name)
    && (forall r :: r in m.relationships ==> ValidRelationship(m, r))
    && !HasCycle(Adjacency(RequiredEdges(m)))
  }
}
