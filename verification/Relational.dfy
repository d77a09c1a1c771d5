/** The relational projection of a manifest, and the classification of the only accepted
    transitions between two manifests: additive ones. */
module Relational {
  import opened Ordering
  import opened Manifest

  datatype Field = Field(name: Name, ty: LogicalType, required: bool, primaryKey: bool)

  datatype Entity = Entity(name: Name, fields: seq<Field>)

  datatype Specification = Specification(schemaVersion: int, entities: seq<Entity>,
                                         relationships: seq<Relationship>, indices: seq<Index>)

  datatype FieldAddition = FieldAddition(entity: Name, field: Field)

  datatype Additions = Additions(entities: seq<Entity>, fields: seq<FieldAddition>,
                                 relationships: seq<Relationship>, indices: seq<Index>)

  datatype ChangeKind =
    | AllowedValuesExpansion | AttributeDescription | DiscoveryFacets | EntityDescription
    | QueryPatterns | RetrievalGuidance | RetrievalModeChange

  datatype MetadataChange = MetadataChange(kind: ChangeKind, entity: Option<Name>, field: Option<Name>)

  datatype Transition = Transition(current: Specification, target: Specification,
                                   additions: Additions, changes: seq<MetadataChange>)

  function RelEntityName(e: Entity): Key { e.name }

  // ----- compilation -----

  function ToField(a: Attribute): Field {
    Field(a.name, a.ty, a.required, a.primaryKey)
  }

  function ToFields(attributes: seq<Attribute>): (r: seq<Field>)
    ensures |r| == |attributes| && forall i :: 0 <= i < |r| ==> r[i] == ToField(attributes[i])
  {
    seq(|attributes|, i requires 0 <= i < |attributes| => ToField(attributes[i]))
  }

  function ToEntity(e: EntityDef): Entity {
    Entity(e.name, ToFields(e.attributes))
  }

  function ToEntities(es: seq<EntityDef>): (r: seq<Entity>)
    ensures |r| == |es| && forall i :: 0 <= i < |r| ==> r[i] == ToEntity(es[i])
  {
    seq(|es|, i requires 0 <= i < |es| => ToEntity(es[i]))
  }

  /** `compile_manifest` on a manifest that has passed its validators. */
  function Compile(m: Manifest): Specification {
    Specification(m.schemaVersion,
                  ToEntities(SortBy(EntityName, m.entities)),
                  SortBy(RelationshipName, m.relationships),
                  SortBy(IndexName, m.indices))
  }

  // ----- the additions recomputed from two specifications -----

  /** The optional fields a target entity has after the current ones. */
  function ExpectedFields(entity: Name, extra: seq<Field>): Option<seq<FieldAddition>> {
    if extra == [] then Some([])
    else if extra[0].required || extra[0].primaryKey then None
    else Onto([FieldAddition(entity, extra[0])], ExpectedFields(entity, extra[1..]))
  }

  /** The loop over the sorted current entities. */
  function ExpectedEntityFields(sources: seq<Entity>, targets: seq<Entity>): Option<seq<FieldAddition>> {
    if sources == [] then Some([])
    else
      var source := sources[0];
      match Find(RelEntityName, targets, source.name)
      case None => None
      case Some(target) =>
        if !(source.fields <= target.fields) then None
        else
          match ExpectedFields(source.name, target.fields[|source.fields|..])
          case None => None
          case Some(fields) => Onto(fields, ExpectedEntityFields(sources[1..], targets))
  }

  /** Every named thing of the current side is unchanged on the target side. */
  predicate Kept<T(==)>(key: T -> Key, current: seq<T>, target: seq<T>) {
    forall x :: x in current ==> Find(key, target, key(x)) == Some(x)
  }

  /** `sorted(set(target) - set(current))`, looked up on the target side. */
  function New<T>(key: T -> Key, current: seq<Key>, target: seq<T>): seq<T> {
    SortBy(key, Added(key, target, current))
  }

  /** `_expected_additions`. */
  function ExpectedAdditions(current: Specification, target: Specification): Option<Additions> {
    if exists e :: e in current.entities && Find(RelEntityName, target.entities, e.name).None? then None
    else
      match ExpectedEntityFields(SortBy(RelEntityName, current.entities), target.entities)
      case None => None
      case Some(fields) =>
        var names := Keys(RelEntityName, current.entities);
        var newRelationships := New(RelationshipName, Keys(RelationshipName, current.relationships), target.relationships);
        if !Kept(RelationshipName, current.relationships, target.relationships) then None
        else if exists r :: r in newRelationships && !IsNewEntity(r.source.entity, names, target.entities) then None
        else if !Kept(IndexName, current.indices, target.indices) then None
        else
          Some(Additions(New(RelEntityName, names, target.entities), fields, newRelationships,
                         New(IndexName, Keys(IndexName, current.indices), target.indices)))
  }

  predicate IsNewEntity(name: Name, current: seq<Key>, target: seq<Entity>) {
    name !in current && Find(RelEntityName, target, name).Some?
  }

  // ----- classification of a manifest transition -----

  function ClassifyAllowed(entity: Name, a: Attribute, b: Attribute): Option<seq<MetadataChange>> {
    match (a.allowed, b.allowed)
    case (None, None) => Some([])
    case (Some(before), Some(after)) =>
      var source, target := Values(before), Values(after);
      if source == target then Some([])
      else if source < target then Some([MetadataChange(AllowedValuesExpansion, Some(entity), Some(a.name))])
      else None
    case _ => None
  }

  /** Values paired with their types, as a set. */
  function Values(vs: seq<AllowedValue>): set<AllowedValue> {
    set v | v in vs
  }

  function ClassifyAttribute(entity: Name, a: Attribute, b: Attribute): Option<seq<MetadataChange>> {
    if ToField(a) != ToField(b) then None
    else
      Onto((if a.description != b.description then [MetadataChange(AttributeDescription, Some(entity), Some(a.name))] else [])
           + (if a.retrieval != b.retrieval then [MetadataChange(RetrievalModeChange, Some(entity), Some(a.name))] else []),
           ClassifyAllowed(entity, a, b))
  }

  /** The strict zip of the current attributes with as many target attributes. */
  function ClassifyAttributes(entity: Name, a: seq<Attribute>, b: seq<Attribute>): Option<seq<MetadataChange>>
    requires |a| <= |b|
  {
    if a == [] then Some([])
    else
      match ClassifyAttribute(entity, a[0], b[0])
      case None => None
      case Some(changes) => Onto(changes, ClassifyAttributes(entity, a[1..], b[1..]))
  }

  function NewFields(entity: Name, extra: seq<Attribute>): Option<seq<FieldAddition>> {
    if extra == [] then Some([])
    else if extra[0].required || extra[0].primaryKey then None
    else Onto([FieldAddition(entity, ToField(extra[0]))], NewFields(entity, extra[1..]))
  }

  datatype Findings = Findings(changes: seq<MetadataChange>, fields: seq<FieldAddition>)

  function ClassifyEntity(source: EntityDef, target: EntityDef): Option<Findings> {
    if |target.attributes| < |source.attributes| then None
    else
      match ClassifyAttributes(source.name, source.attributes, target.attributes)
      case None => None
      case Some(changes) =>
        match NewFields(source.name, target.attributes[|source.attributes|..])
        case None => None
        case Some(fields) =>
          Some(Findings((if source.description != target.description
                         then [MetadataChange(EntityDescription, Some(source.name), None)] else []) + changes, fields))
  }

  function ClassifyEntities(sources: seq<EntityDef>, targets: seq<EntityDef>): Option<Findings> {
    if sources == [] then Some(Findings([], []))
    else
      match Find(EntityName, targets, EntityName(sources[0]))
      case None => None
      case Some(target) =>
        match ClassifyEntity(sources[0], target)
        case None => None
        case Some(first) =>
          match ClassifyEntities(sources[1..], targets)
          case None => None
          case Some(rest) => Some(Findings(first.changes + rest.changes, first.fields + rest.fields))
  }

  function GlobalChanges(current: Manifest, target: Manifest): seq<MetadataChange> {
    (if current.guidance != target.guidance then [MetadataChange(RetrievalGuidance, None, None)] else [])
    + (if current.queryPatterns != target.queryPatterns then [MetadataChange(QueryPatterns, None, None)] else [])
    + (if current.facets != target.facets then [MetadataChange(DiscoveryFacets, None, None)] else [])
  }

  predicate HistoryExtended(current: Manifest, target: Manifest) {
    && target.history != []
    && target.history[..|target.history| - 1] == current.history
    && target.history[|target.history| - 1].fromVersion == current.schemaVersion
    && target.history[|target.history| - 1].toVersion == target.schemaVersion
  }

  function ChangeRank(k: ChangeKind): int {
    match k
    case AllowedValuesExpansion => 0
    case AttributeDescription => 1
    case DiscoveryFacets => 2
    case EntityDescription => 3
    case QueryPatterns => 4
    case RetrievalGuidance => 5
    case RetrievalModeChange => 6
  }

  /** The sort key (kind, entity or "", field or ""). Kinds are ranked in the order of their
      names, and -1 separates the parts, below every code point. */
  function ChangeKey(c: MetadataChange): Key {
    [ChangeRank(c.kind)] + c.entity.GetOr([]) + [-1] + c.field.GetOr([])
  }

  predicate NoDuplicates<T(==)>(s: seq<T>) {
    forall i, j :: 0 <= i < j < |s| ==> s[i] != s[j]
  }

  predicate NothingChanged(additions: Additions, changes: seq<MetadataChange>) {
    additions == Additions([], [], [], []) && changes == []
  }

  /** Everything `classify_transition` computes before it builds the transition. */
  function Proposed(current: Manifest, target: Manifest): Option<(Additions, seq<MetadataChange>)> {
    if target.schemaVersion != current.schemaVersion + 1 || !HistoryExtended(current, target) then None
    else if exists e :: e in current.entities && Find(EntityName, target.entities, EntityName(e)).None? then None
    else
      match ClassifyEntities(SortBy(EntityName, current.entities), target.entities)
      case None => None
      case Some(found) =>
        var names := Keys(EntityName, current.entities);
        var relationships := New(RelationshipName, Keys(RelationshipName, current.relationships), target.relationships);
        if !Kept(RelationshipName, current.relationships, target.relationships) then None
        else if exists r :: r in relationships && !IsNewDefinition(r.source.entity, names, target.entities) then None
        else if !Kept(IndexName, current.indices, target.indices) then None
        else
          var additions := Additions(New(RelEntityName, names, Compile(target).entities), found.fields, relationships,
                                     New(IndexName, Keys(IndexName, current.indices), target.indices));
          var changes := SortBy(ChangeKey, found.changes + GlobalChanges(current, target));
          if NothingChanged(additions, changes) then None else Some((additions, changes))
  }

  predicate IsNewDefinition(name: Name, current: seq<Key>, target: seq<EntityDef>) {
    name !in current && Find(EntityName, target, name).Some?
  }

  /** `RelationalTransition._build`. */
  function Build(current: Specification, target: Specification, additions: Additions,
                 changes: seq<MetadataChange>): Option<Transition> {
    if changes != SortBy(ChangeKey, changes) || !NoDuplicates(changes)
       || target.schemaVersion != current.schemaVersion + 1 then None
    else if ExpectedAdditions(current, target) != Some(additions) then None
    else if NothingChanged(additions, changes) then None
    else Some(Transition(current, target, additions, changes))
  }

  /** `classify_transition`. */
  function Classify(current: Manifest, target: Manifest): Option<Transition> {
    match Proposed(current, target)
    case None => None
    case Some((additions, changes)) => Build(Compile(current), Compile(target), additions, changes)
  }

  // ----- the two computations of the additions agree -----

  lemma {:induction false} NewFieldsExpected(entity: Name, extra: seq<Attribute>)
    ensures ExpectedFields(entity, ToFields(extra)) == NewFields(entity, extra)
  {
    if extra != [] {
      NewFieldsExpected(entity, extra[1..]);
      assert ToFields(extra)[1..] == ToFields(extra[1..]);
    }
  }

  lemma {:induction false} AttributesKept(entity: Name, a: seq<Attribute>, b: seq<Attribute>)
    requires |a| <= |b| && ClassifyAttributes(entity, a, b).Some?
    ensures forall i :: 0 <= i < |a| ==> ClassifyAttribute(entity, a[i], b[i]).Some?
  {
    if a != [] {
      AttributesKept(entity, a[1..], b[1..]);
      forall i | 0 <= i < |a| ensures ClassifyAttribute(entity, a[i], b[i]).Some? {
        if i > 0 {
          assert a[i] == a[1..][i - 1] && b[i] == b[1..][i - 1];
        }
      }
    }
  }

  /** An accepted entity keeps its fields as a prefix and only adds optional ones. */
  lemma {:induction false} EntityKept(source: EntityDef, target: EntityDef)
    requires ClassifyEntity(source, target).Some?
    ensures var n := |source.attributes|;
            && ToFields(source.attributes) <= ToFields(target.attributes)
            && ToFields(target.attributes)[n..] == ToFields(target.attributes[n..])
            && ExpectedFields(source.name, ToFields(target.attributes)[n..]) == Some(ClassifyEntity(source, target).value.fields)
  {
    var n := |source.attributes|;
    AttributesKept(source.name, source.attributes, target.attributes);
    var a, b := ToFields(source.attributes), ToFields(target.attributes);
    assert a == b[..n] by {
      forall i | 0 <= i < n ensures a[i] == b[i] {
        assert ClassifyAttribute(source.name, source.attributes[i], target.attributes[i]).Some?;
      }
    }
    assert b[n..] == ToFields(target.attributes[n..]);
    NewFieldsExpected(source.name, target.attributes[n..]);
  }

  lemma {:induction false} FindCompiled(es: seq<EntityDef>, name: Key)
    ensures Find(RelEntityName, ToEntities(es), name)
         == match Find(EntityName, es, name) case None => None case Some(e) => Some(ToEntity(e))
  {
    if es != [] {
      FindCompiled(es[1..], name);
      assert ToEntities(es)[1..] == ToEntities(es[1..]);
    }
  }

  lemma {:induction false} EntityFieldsAgree(sources: seq<EntityDef>, targets: seq<EntityDef>, compiled: seq<Entity>)
    requires ClassifyEntities(sources, targets).Some?
    requires forall n :: Find(RelEntityName, compiled, n)
                         == match Find(EntityName, targets, n) case None => None case Some(e) => Some(ToEntity(e))
    ensures ExpectedEntityFields(ToEntities(sources), compiled) == Some(ClassifyEntities(sources, targets).value.fields)
  {
    if sources != [] {
      EntityFieldsAgree(sources[1..], targets, compiled);
      assert ToEntities(sources)[1..] == ToEntities(sources[1..]);
      EntityKept(sources[0], Find(EntityName, targets, EntityName(sources[0])).value);
    }
  }

  lemma {:induction false} DistinctParts(m: Manifest)
    requires ValidManifest(m)
    ensures DistinctKeys(EntityName, m.entities)
    ensures DistinctKeys(RelationshipName, m.relationships)
    ensures DistinctKeys(IndexName, m.indices)
  {
  }

  lemma {:induction false} CompiledEntities(m: Manifest)
    requires DistinctKeys(EntityName, m.entities)
    ensures StrictlySorted(RelEntityName, Compile(m).entities)
    ensures forall n :: Find(RelEntityName, Compile(m).entities, n)
                        == match Find(EntityName, m.entities, n) case None => None case Some(e) => Some(ToEntity(e))
  {
    var sorted := SortBy(EntityName, m.entities);
    DistinctSort(EntityName, m.entities);
    forall n ensures Find(RelEntityName, Compile(m).entities, n)
                     == match Find(EntityName, m.entities, n) case None => None case Some(e) => Some(ToEntity(e)) {
      FindCompiled(sorted, n);
      FindSorted(EntityName, m.entities, n);
    }
  }

  /** What is new does not depend on the order in which the two sides list it. */
  lemma {:induction false} NewSorted<T>(key: T -> Key, current: seq<T>, target: seq<T>)
    requires DistinctKeys(key, current) && DistinctKeys(key, target)
    ensures New(key, Keys(key, SortBy(key, current)), SortBy(key, target)) == New(key, Keys(key, current), target)
    ensures Kept(key, SortBy(key, current), SortBy(key, target)) <==> Kept(key, current, target)
  {
    var c, t := SortBy(key, current), SortBy(key, target);
    DistinctSort(key, current);
    DistinctSort(key, target);
    forall k ensures k in Keys(key, c) <==> k in Keys(key, current) {
      KeysMember(key, c, k);
      KeysMember(key, current, k);
      FindSorted(key, current, k);
    }
    AddedSameNames(key, t, Keys(key, c), Keys(key, current));
    var a, b := Added(key, t, Keys(key, current)), Added(key, target, Keys(key, current));
    AddedDistinct(key, t, Keys(key, current));
    AddedDistinct(key, target, Keys(key, current));
    DistinctSort(key, a);
    DistinctSort(key, b);
    forall x ensures x in SortBy(key, a) <==> x in SortBy(key, b) {
      AddedMember(key, t, Keys(key, current), x);
      AddedMember(key, target, Keys(key, current), x);
    }
    StrictUnique(key, SortBy(key, a), SortBy(key, b));
    forall x | x in current ensures Find(key, t, key(x)) == Find(key, target, key(x)) {
      FindSorted(key, target, key(x));
    }
  }

  lemma {:induction false} SameEntityNames(current: Manifest)
    requires DistinctKeys(EntityName, current.entities)
    ensures forall k :: k in Keys(RelEntityName, Compile(current).entities) <==> k in Keys(EntityName, current.entities)
  {
    CompiledEntities(current);
    forall k ensures k in Keys(RelEntityName, Compile(current).entities) <==> k in Keys(EntityName, current.entities) {
      KeysMember(RelEntityName, Compile(current).entities, k);
      KeysMember(EntityName, current.entities, k);
    }
  }

  lemma {:induction false} FieldsAgree(current: Manifest, target: Manifest)
    requires DistinctKeys(EntityName, current.entities) && DistinctKeys(EntityName, target.entities)
    requires ClassifyEntities(SortBy(EntityName, current.entities), target.entities).Some?
    ensures var c, t := Compile(current), Compile(target);
            ExpectedEntityFields(SortBy(RelEntityName, c.entities), t.entities)
            == Some(ClassifyEntities(SortBy(EntityName, current.entities), target.entities).value.fields)
  {
    CompiledEntities(current);
    CompiledEntities(target);
    SortIdentity(RelEntityName, Compile(current).entities);
    EntityFieldsAgree(SortBy(EntityName, current.entities), target.entities, Compile(target).entities);
  }

  /** The additions collected while classifying are the additions recomputed from the two
      compiled specifications. */
  lemma {:induction false} AdditionsAgree(current: Manifest, target: Manifest)
    requires ValidManifest(current) && ValidManifest(target) && Proposed(current, target).Some?
    ensures ExpectedAdditions(Compile(current), Compile(target)) == Some(Proposed(current, target).value.0)
  {
    hide ValidManifest, New, Kept, ClassifyEntities, ExpectedEntityFields, Find, HistoryExtended, NothingChanged,
         SortBy, Keys, IsNewEntity, IsNewDefinition, GlobalChanges;
    DistinctParts(current);
    DistinctParts(target);
    FieldsAgree(current, target);
    NewSorted(RelationshipName, current.relationships, target.relationships);
    NewSorted(IndexName, current.indices, target.indices);
    NewEntitiesAgree(current, target);
    EntitiesStay(current, target);
  }

  lemma {:induction false} NewEntitiesAgree(current: Manifest, target: Manifest)
    requires DistinctKeys(EntityName, current.entities) && DistinctKeys(EntityName, target.entities)
    ensures var c, t := Compile(current), Compile(target);
            && New(RelEntityName, Keys(RelEntityName, c.entities), t.entities)
               == New(RelEntityName, Keys(EntityName, current.entities), t.entities)
            && forall n :: IsNewEntity(n, Keys(RelEntityName, c.entities), t.entities)
                           <==> IsNewDefinition(n, Keys(EntityName, current.entities), target.entities)
  {
    var c, t := Compile(current), Compile(target);
    CompiledEntities(target);
    SameEntityNames(current);
    AddedSameNames(RelEntityName, t.entities, Keys(RelEntityName, c.entities), Keys(EntityName, current.entities));
  }

  lemma {:induction false} EntitiesStay(current: Manifest, target: Manifest)
    requires DistinctKeys(EntityName, current.entities) && DistinctKeys(EntityName, target.entities)
    requires forall e :: e in current.entities ==> Find(EntityName, target.entities, EntityName(e)).Some?
    ensures forall e :: e in Compile(current).entities ==>
                        Find(RelEntityName, Compile(target).entities, e.name).Some?
  {
    var sorted := SortBy(EntityName, current.entities);
    DistinctSort(EntityName, current.entities);
    CompiledEntities(target);
    forall e | e in Compile(current).entities ensures Find(RelEntityName, Compile(target).entities, e.name).Some? {
      var i :| 0 <= i < |sorted| && Compile(current).entities[i] == e;
      assert sorted[i] in sorted;
      assert sorted[i] in current.entities;
    }
  }

  // ----- the metadata changes are distinct -----

  lemma {:induction false} ConcatDistinct<T>(a: seq<T>, b: seq<T>)
    requires NoDuplicates(a) && NoDuplicates(b) && forall x :: x in a ==> x !in b
    ensures NoDuplicates(a + b)
  {
    var all := a + b;
    forall i, j | 0 <= i < j < |all| ensures all[i] != all[j] {
      if i < |a| && j >= |a| {
        assert a[i] in a && b[j - |a|] in b;
      }
    }
  }

  lemma {:induction false} OneAttributeChanges(entity: Name, a: Attribute, b: Attribute)
    requires ClassifyAttribute(entity, a, b).Some?
    ensures var changes := ClassifyAttribute(entity, a, b).value;
            NoDuplicates(changes) && forall c :: c in changes ==> c.entity == Some(entity) && c.field == Some(a.name)
  {
    hide Values;
  }

  lemma {:induction false} AttributeChanges(entity: Name, a: seq<Attribute>, b: seq<Attribute>)
    requires |a| <= |b| && ClassifyAttributes(entity, a, b).Some? && DistinctAttributes(a)
    ensures var changes := ClassifyAttributes(entity, a, b).value;
            NoDuplicates(changes)
            && forall c :: c in changes ==> c.entity == Some(entity) && c.field.Some?
                                            && exists x :: x in a && x.name == c.field.value
  {
    hide ClassifyAttribute;
    if a != [] {
      var first := ClassifyAttribute(entity, a[0], b[0]).value;
      var rest := ClassifyAttributes(entity, a[1..], b[1..]).value;
      assert DistinctAttributes(a[1..]);
      AttributeChanges(entity, a[1..], b[1..]);
      OneAttributeChanges(entity, a[0], b[0]);
      forall c | c in rest ensures c.field != Some(a[0].name) && exists x :: x in a && x.name == c.field.value {
        var x :| x in a[1..] && x.name == c.field.value;
        var i :| 0 <= i < |a[1..]| && a[1..][i] == x;
        assert AttributeName(a[0]) != AttributeName(a[i + 1]) && a[i + 1] in a;
      }
      ConcatDistinct(first, rest);
      assert a[0] in a;
    }
  }

  lemma {:induction false} EntityChanges(source: EntityDef, target: EntityDef)
    requires ClassifyEntity(source, target).Some? && DistinctAttributes(source.attributes)
    ensures var changes := ClassifyEntity(source, target).value.changes;
            NoDuplicates(changes) && forall c :: c in changes ==> c.entity == Some(source.name)
  {
    var own := if source.description != target.description
               then [MetadataChange(EntityDescription, Some(source.name), None)] else [];
    AttributeChanges(source.name, source.attributes, target.attributes);
    ConcatDistinct(own, ClassifyAttributes(source.name, source.attributes, target.attributes).value);
  }

  lemma {:induction false} EntitiesChanges(sources: seq<EntityDef>, targets: seq<EntityDef>)
    requires ClassifyEntities(sources, targets).Some? && DistinctKeys(EntityName, sources)
    requires forall e :: e in sources ==> DistinctAttributes(e.attributes)
    ensures var changes := ClassifyEntities(sources, targets).value.changes;
            NoDuplicates(changes)
            && forall c :: c in changes ==> exists e :: e in sources && c.entity == Some(e.name)
  {
    if sources != [] {
      var first := ClassifyEntity(sources[0], Find(EntityName, targets, EntityName(sources[0])).value).value.changes;
      var rest := ClassifyEntities(sources[1..], targets).value.changes;
      assert sources[0] in sources && forall e :: e in sources[1..] ==> e in sources;
      EntityChanges(sources[0], Find(EntityName, targets, EntityName(sources[0])).value);
      EntitiesChanges(sources[1..], targets);
      forall c | c in rest ensures c.entity != Some(sources[0].name) {
        var e :| e in sources[1..] && c.entity == Some(e.name);
        var i :| 0 <= i < |sources[1..]| && sources[1..][i] == e;
        assert EntityName(sources[i + 1]) == e.name;
      }
      ConcatDistinct(first, rest);
    }
  }

  lemma {:induction false} DistinctCounts<T>(s: seq<T>, x: T)
    requires NoDuplicates(s)
    ensures multiset(s)[x] <= 1
  {
    if s != [] {
      var front, last := s[..|s| - 1], s[|s| - 1];
      DistinctCounts(front, x);
      assert s == front + [last];
      assert last !in front;
      assert last !in multiset(front);
    }
  }

  lemma {:induction false} CountsDistinct<T>(s: seq<T>)
    requires forall x :: multiset(s)[x] <= 1
    ensures NoDuplicates(s)
  {
    forall i, j | 0 <= i < j < |s| ensures s[i] != s[j] {
      var a, b := s[..j], s[j..];
      assert s == a + b;
      assert a[i] in multiset(a) && b[0] in multiset(b);
      assert multiset(s)[s[j]] == multiset(a)[s[j]] + multiset(b)[s[j]];
    }
  }

  lemma {:induction false} SortDistinct<T>(key: T -> Key, s: seq<T>)
    requires NoDuplicates(s)
    ensures NoDuplicates(SortBy(key, s))
  {
    SortElements(key, s);
    forall x ensures multiset(s)[x] <= 1 {
      DistinctCounts(s, x);
    }
    CountsDistinct(SortBy(key, s));
  }

  lemma {:induction false} ProposedChanges(current: Manifest, target: Manifest)
    requires ValidManifest(current) && Proposed(current, target).Some?
    ensures var changes := Proposed(current, target).value.1;
            SortBy(ChangeKey, changes) == changes && NoDuplicates(changes)
  {
    hide ClassifyEntities, HistoryExtended, Kept, New, NothingChanged, GlobalChanges, SortBy, Keys, Find,
         ValidEntity;
    var sources := SortBy(EntityName, current.entities);
    var found := ClassifyEntities(sources, target.entities).value;
    var all := found.changes + GlobalChanges(current, target);
    SourcesDistinct(current);
    EntitiesChanges(sources, target.entities);
    GlobalDistinct(current, target);
    ConcatDistinct(found.changes, GlobalChanges(current, target));
    SortDistinct(ChangeKey, all);
    SortTwice(ChangeKey, all);
  }

  lemma {:induction false} SourcesDistinct(m: Manifest)
    requires ValidManifest(m)
    ensures DistinctKeys(EntityName, SortBy(EntityName, m.entities))
    ensures forall e :: e in SortBy(EntityName, m.entities) ==> DistinctAttributes(e.attributes)
  {
    DistinctParts(m);
    DistinctSort(EntityName, m.entities);
    forall e | e in SortBy(EntityName, m.entities) ensures DistinctAttributes(e.attributes) {
      assert e in m.entities;
      assert ValidEntity(e);
    }
  }

  lemma {:induction false} GlobalDistinct(current: Manifest, target: Manifest)
    ensures NoDuplicates(GlobalChanges(current, target))
    ensures forall c :: c in GlobalChanges(current, target) ==> c.entity.None?
  {
  }

  /** The factory never rejects what the classifier hands it: a transition is accepted
      exactly when the classifier's own checks pass. */
  lemma {:induction false} BuildNeverRejects(current: Manifest, target: Manifest)
    requires ValidManifest(current) && ValidManifest(target)
    ensures Classify(current, target).Some? <==> Proposed(current, target).Some?
    ensures Proposed(current, target).Some? ==>
              Classify(current, target) == Some(Transition(Compile(current), Compile(target),
                                                           Proposed(current, target).value.0,
                                                           Proposed(current, target).value.1))
  {
    if Proposed(current, target).Some? {
      AdditionsAgree(current, target);
      ProposedChanges(current, target);
      hide ValidManifest, ExpectedAdditions;
    }
  }
}
