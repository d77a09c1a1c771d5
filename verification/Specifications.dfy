/** The checks that a compiled specification and a manifest make on their relationships, and
    why a compiled manifest always passes them. */
module Specifications {
  import opened Ordering
  import opened Text
  import opened Cycles
  import opened Manifest
  import opened Relational

  function FieldName(f: Field): Key { f.name }

  function FieldOf(s: Specification, entity: Name, field: Name): Option<Field> {
    match Find(RelEntityName, s.entities, entity)
    case None => None
    case Some(e) => Find(FieldName, e.fields, field)
  }

  /** `RelationalEntity.__post_init__` with the checks of its fields. */
  ghost predicate ValidRelEntity(e: Entity) {
    && IsIdentifier(e.name) && 1 <= |e.fields| <= MAX_ATTRIBUTES
    && (forall f :: f in e.fields ==> IsIdentifier(f.name) && (f.primaryKey ==> f.required && f.name == ID))
    && DistinctKeys(FieldName, e.fields)
    && (forall n :: n in SERVER_FIELDS ==>
          match Find(FieldName, e.fields, n)
          case None => false
          case Some(f) => ServerManaged(n) == Some((f.ty, f.required, f.primaryKey)))
  }

  predicate EndpointsFit(s: Specification, r: Relationship) {
    && r.target.field == ID
    && (match FieldOf(s, r.source.entity, r.source.field)
        case None => false
        case Some(f) => f.ty == UuidType && !f.primaryKey)
    && (match FieldOf(s, r.target.entity, r.target.field)
        case None => false
        case Some(f) => f.ty == UuidType && f.primaryKey)
  }

  predicate IsRequired(s: Specification, r: Relationship) {
    match FieldOf(s, r.source.entity, r.source.field)
    case None => false
    case Some(f) => f.required
  }

  /** Every entity is a node; required relationships are the edges. */
  function RequiredGraph(s: Specification): Graph {
    map n | n in Keys(RelEntityName, s.entities) :: RequiredTargets(s, s.relationships, n)
  }

  function RequiredTargets(s: Specification, rs: seq<Relationship>, n: Name): set<Text> {
    set r | r in rs && r.source.entity == n && IsRequired(s, r) :: r.target.entity
  }

  predicate DistinctSources(rs: seq<Relationship>) {
    forall i, j :: 0 <= i < j < |rs| ==> rs[i].source != rs[j].source
  }

  ghost predicate ValidRelationships(s: Specification) {
    && (forall r :: r in s.relationships ==> EndpointsFit(s, r))
    && DistinctSources(s.relationships)
    && !HasCycle(RequiredGraph(s))
  }

  predicate FieldsIndexable(s: Specification, x: Index) {
    forall f :: f in x.fields ==>
      match FieldOf(s, x.entity, f)
      case None => false
      case Some(field) => field.ty != StringListType
  }

  predicate SameDefinition(x: Index, y: Index) {
    x.entity == y.entity && x.fields == y.fields && x.unique == y.unique
  }

  predicate ValidIndices(s: Specification) {
    && (forall x :: x in s.indices ==> Find(RelEntityName, s.entities, x.entity).Some? && FieldsIndexable(s, x))
    && forall i, j :: 0 <= i < j < |s.indices| ==> !SameDefinition(s.indices[i], s.indices[j])
  }

  ghost predicate ValidNames(s: Specification) {
    && DistinctKeys(RelEntityName, s.entities) && DistinctKeys(RelationshipName, s.relationships)
    && DistinctKeys(IndexName, s.indices)
    && (forall e :: e in s.entities ==> !(SQLITE <= e.name))
    && (forall x :: x in s.indices ==> !(SQLITE <= x.name) && x.name !in Keys(RelEntityName, s.entities))
  }

  /** `RelationalSpecification.__post_init__`, over parts that passed their own. */
  ghost predicate ValidSpecification(s: Specification) {
    && 1 <= s.schemaVersion <= MAX_SCHEMA_VERSION && 1 <= |s.entities| <= MAX_ENTITIES
    && |s.relationships| <= MAX_RELATIONSHIPS && |s.indices| <= MAX_INDICES
    && (forall e :: e in s.entities ==> ValidRelEntity(e))
    && WeaklySorted(RelEntityName, s.entities) && WeaklySorted(RelationshipName, s.relationships)
    && WeaklySorted(IndexName, s.indices)
    && ValidNames(s) && ValidRelationships(s) && ValidIndices(s)
  }

  // ----- the two validators as they run -----

  /** The relationship part of `_validate_specification_shape`. */
  method ValidateRelationships(s: Specification) returns (ok: bool)
    ensures ok <==> ValidRelationships(s)
    ensures ok ==> exists order :: Topological(RequiredGraph(s), order)
  {
    hide EndpointsFit, IsRequired, RequiredTargets, HasCycle, Topological, FieldOf, Keys;
    var names := Keys(RelEntityName, s.entities);
    var endpoints: set<Endpoint> := {};
    var graph: Graph := map n | n in names :: {};
    NoTargets(s);
    for k := 0 to |s.relationships|
      invariant forall i :: 0 <= i < k ==> EndpointsFit(s, s.relationships[i])
      invariant forall e :: e in endpoints <==> exists i :: 0 <= i < k && s.relationships[i].source == e
      invariant forall i, j :: 0 <= i < j < k ==> s.relationships[i].source != s.relationships[j].source
      invariant forall n :: n in graph <==> n in names
      invariant forall n :: n in names ==> graph[n] == RequiredTargets(s, s.relationships[..k], n)
    {
      var r := s.relationships[k];
      assert s.relationships[..k + 1] == s.relationships[..k] + [r];
      if !EndpointsFit(s, r) || r.source in endpoints {
        assert r in s.relationships;
        return false;
      }
      endpoints := endpoints + {r.source};
      EndpointsNamed(s, r);
      forall n
        ensures RequiredTargets(s, s.relationships[..k + 1], n)
             == RequiredTargets(s, s.relationships[..k], n) + OwnTarget(s, r, n) {
        OneMoreTarget(s, s.relationships[..k], r, n);
      }
      if IsRequired(s, r) {
        graph := graph[r.source.entity := graph[r.source.entity] + {r.target.entity}];
      }
    }
    assert s.relationships[..|s.relationships|] == s.relationships;
    assert graph == RequiredGraph(s);
    TargetsAreEntities(s);
    var cyclic := RelationalHasCycle(graph);
    ok := !cyclic;
  }

  lemma {:induction false} NoTargets(s: Specification)
    ensures forall n :: RequiredTargets(s, s.relationships[..0], n) == {}
  {
  }

  function OwnTarget(s: Specification, r: Relationship, n: Name): set<Text> {
    if r.source.entity == n && IsRequired(s, r) then {r.target.entity} else {}
  }

  lemma {:induction false} OneMoreTarget(s: Specification, rs: seq<Relationship>, r: Relationship, n: Name)
    ensures RequiredTargets(s, rs + [r], n) == RequiredTargets(s, rs, n) + OwnTarget(s, r, n)
  {
    hide IsRequired;
    var all := rs + [r];
    assert forall x :: x in all <==> x in rs || x == r;
  }

  lemma {:induction false} EndpointsNamed(s: Specification, r: Relationship)
    requires EndpointsFit(s, r)
    ensures r.source.entity in Keys(RelEntityName, s.entities) && r.target.entity in Keys(RelEntityName, s.entities)
  {
    EntityNamed(s, r.source.entity, r.source.field);
    EntityNamed(s, r.target.entity, r.target.field);
  }

  lemma {:induction false} EntityNamed(s: Specification, entity: Name, field: Name)
    requires FieldOf(s, entity, field).Some?
    ensures entity in Keys(RelEntityName, s.entities)
  {
    KeysMember(RelEntityName, s.entities, entity);
  }

  lemma {:induction false} TargetsAreEntities(s: Specification)
    requires forall r :: r in s.relationships ==> EndpointsFit(s, r)
    ensures forall n :: n in RequiredGraph(s) ==> RequiredGraph(s)[n] <= RequiredGraph(s).Keys
  {
    forall r | r in s.relationships ensures r.target.entity in RequiredGraph(s) {
      EntityNamed(s, r.target.entity, r.target.field);
    }
  }

  function RequiredEdgesOf(m: Manifest, rs: seq<Relationship>): set<(Text, Text)> {
    set r | r in rs && RequiredSource(m, r) :: (r.source.entity, r.target.entity)
  }

  /** The relationship loop of `ManifestV2.validate_references`. */
  method ValidateReferences(m: Manifest) returns (ok: bool)
    ensures ok <==> (forall r :: r in m.relationships ==> ValidRelationship(m, r)) && !HasCycle(Adjacency(RequiredEdges(m)))
  {
    var edges: set<(Text, Text)> := {};
    for k := 0 to |m.relationships|
      invariant forall i :: 0 <= i < k ==> ValidRelationship(m, m.relationships[i])
      invariant edges == RequiredEdgesOf(m, m.relationships[..k])
    {
      var r := m.relationships[k];
      assert m.relationships[..k + 1] == m.relationships[..k] + [r];
      if !ValidRelationship(m, r) {
        return false;
      }
      if RequiredSource(m, r) {
        edges := edges + {(r.source.entity, r.target.entity)};
      }
      assert edges == RequiredEdgesOf(m, m.relationships[..k + 1]) by {
        forall e ensures e in edges <==> e in RequiredEdgesOf(m, m.relationships[..k + 1]) {
        }
      }
    }
    assert m.relationships[..|m.relationships|] == m.relationships;
    var cyclic := ManifestHasCycle(edges);
    ok := !cyclic;
  }

  // ----- a compiled manifest passes -----

  lemma {:induction false} FindField(attributes: seq<Attribute>, name: Name)
    ensures Find(FieldName, ToFields(attributes), name)
         == match Find(AttributeName, attributes, name) case None => None case Some(a) => Some(ToField(a))
  {
    if attributes != [] {
      FindField(attributes[1..], name);
      assert ToFields(attributes)[1..] == ToFields(attributes[1..]);
    }
  }

  lemma {:induction false} CompiledField(m: Manifest, entity: Name, field: Name)
    requires DistinctKeys(EntityName, m.entities)
    ensures FieldOf(Compile(m), entity, field)
         == match AttributeOf(m, entity, field) case None => None case Some(a) => Some(ToField(a))
  {
    CompiledEntities(m);
    if Find(EntityName, m.entities, entity).Some? {
      FindField(Find(EntityName, m.entities, entity).value.attributes, field);
    }
  }

  lemma {:induction false} CompiledEntity(e: EntityDef)
    requires ValidEntity(e)
    ensures ValidRelEntity(ToEntity(e))
  {
    hide ServerManaged;
    var fields := ToFields(e.attributes);
    forall f | f in fields ensures IsIdentifier(f.name) && (f.primaryKey ==> f.required && f.name == ID) {
      var i :| 0 <= i < |fields| && fields[i] == f;
      assert e.attributes[i] in e.attributes;
    }
    forall i, j | 0 <= i < j < |fields| ensures FieldName(fields[i]) != FieldName(fields[j]) {
      assert AttributeName(e.attributes[i]) != AttributeName(e.attributes[j]);
    }
    forall n | n in SERVER_FIELDS
      ensures match Find(FieldName, fields, n)
              case None => false
              case Some(f) => ServerManaged(n) == Some((f.ty, f.required, f.primaryKey))
    {
      FindField(e.attributes, n);
    }
  }

  lemma {:induction false} RequiredEdgesAgree(m: Manifest, a: Name, b: Name)
    requires ValidManifest(m)
    ensures Edge(RequiredGraph(Compile(m)), a, b) <==> (a, b) in RequiredEdges(m)
  {
    var s := Compile(m);
    DistinctParts(m);
    hide ValidManifest, SortBy, Find, Keys;
    forall r ensures r in s.relationships <==> r in m.relationships {
      SortMember(RelationshipName, m.relationships, r);
    }
    forall r ensures IsRequired(s, r) <==> RequiredSource(m, r) {
      CompiledField(m, r.source.entity, r.source.field);
    }
    if (a, b) in RequiredEdges(m) {
      var r :| r in m.relationships && RequiredSource(m, r) && (a, b) == (r.source.entity, r.target.entity);
      EntityNamed(s, a, r.source.field);
    }
  }

  lemma {:induction false} CompiledAcyclic(m: Manifest)
    requires ValidManifest(m)
    ensures !HasCycle(RequiredGraph(Compile(m)))
  {
    hide Compile, RequiredGraph, RequiredEdges, HasCycle, Adjacency;
    forall a, b ensures Edge(RequiredGraph(Compile(m)), a, b) <==> (a, b) in RequiredEdges(m) {
      RequiredEdgesAgree(m, a, b);
    }
    ChecksAgree(RequiredEdges(m), RequiredGraph(Compile(m)));
  }

  lemma {:induction false} CompiledEndpoints(m: Manifest, r: Relationship)
    requires ValidManifest(m) && r in m.relationships
    ensures EndpointsFit(Compile(m), r)
  {
    DistinctParts(m);
    assert ValidRelationship(m, r);
    hide ValidManifest, SortBy, Find, Keys;
    CompiledField(m, r.source.entity, r.source.field);
    CompiledField(m, r.target.entity, ID);
  }

  /** Two places of a sorted list come from two different places of the list. */
  lemma {:induction false} SortedPair<T>(key: T -> Key, s: seq<T>, i: nat, j: nat) returns (a: nat, b: nat)
    requires DistinctKeys(key, s) && i < j < |SortBy(key, s)|
    ensures a < |s| && b < |s| && a != b && s[a] == SortBy(key, s)[i] && s[b] == SortBy(key, s)[j]
  {
    var sorted := SortBy(key, s);
    DistinctSort(key, s);
    hide SortBy;
    SortMember(key, s, sorted[i]);
    SortMember(key, s, sorted[j]);
    a :| 0 <= a < |s| && s[a] == sorted[i];
    b :| 0 <= b < |s| && s[b] == sorted[j];
  }

  lemma {:induction false} CompiledSources(m: Manifest)
    requires ValidManifest(m)
    ensures DistinctSources(Compile(m).relationships)
  {
    hide SortBy, ValidEntity, ValidIndex, ValidRelationship;
    var rs := Compile(m).relationships;
    DistinctParts(m);
    forall i, j | 0 <= i < j < |rs| ensures rs[i].source != rs[j].source {
      var a, b := SortedPair(RelationshipName, m.relationships, i, j);
    }
  }

  lemma {:induction false} CompiledIndex(m: Manifest, x: Index)
    requires ValidManifest(m) && x in m.indices
    ensures Find(RelEntityName, Compile(m).entities, x.entity).Some? && FieldsIndexable(Compile(m), x)
  {
    DistinctParts(m);
    assert ValidIndex(m, x);
    hide ValidManifest, SortBy, Keys, IsIdentifier;
    CompiledEntities(m);
    forall f | f in x.fields
      ensures match FieldOf(Compile(m), x.entity, f) case None => false case Some(field) => field.ty != StringListType {
      CompiledField(m, x.entity, f);
    }
    assert AttributeOf(m, x.entity, x.fields[0]).Some?;
  }

  lemma {:induction false} CompiledDefinitions(m: Manifest)
    requires ValidManifest(m)
    ensures forall i, j :: 0 <= i < j < |Compile(m).indices| ==> !SameDefinition(Compile(m).indices[i], Compile(m).indices[j])
  {
    hide SortBy, ValidEntity, ValidIndex, ValidRelationship;
    var xs := Compile(m).indices;
    DistinctParts(m);
    forall i, j | 0 <= i < j < |xs| ensures !SameDefinition(xs[i], xs[j]) {
      var a, b := SortedPair(IndexName, m.indices, i, j);
    }
  }

  lemma {:induction false} CompiledMember(m: Manifest, e: Entity)
    requires ValidManifest(m) && e in Compile(m).entities
    ensures exists d :: d in m.entities && ValidEntity(d) && e == ToEntity(d)
  {
    hide ValidEntity;
    var sorted := SortBy(EntityName, m.entities);
    var i :| 0 <= i < |sorted| && Compile(m).entities[i] == e;
    SortMember(EntityName, m.entities, sorted[i]);
    assert sorted[i] in m.entities && e == ToEntity(sorted[i]);
  }

  lemma {:induction false} CompiledNames(m: Manifest)
    requires ValidManifest(m)
    ensures ValidNames(Compile(m))
  {
    var s := Compile(m);
    DistinctParts(m);
    CompiledEntities(m);
    StrictDistinct(RelEntityName, s.entities);
    DistinctSort(RelationshipName, m.relationships);
    DistinctSort(IndexName, m.indices);
    hide SortBy, ValidEntity, ValidIndex, ValidRelationship, Find, Keys, Compile;
    forall e | e in s.entities ensures !(SQLITE <= e.name) {
      CompiledMember(m, e);
    }
    forall x | x in s.indices ensures !(SQLITE <= x.name) && x.name !in Keys(RelEntityName, s.entities) {
      CompiledIndexName(m, x);
    }
  }

  lemma {:induction false} CompiledIndexName(m: Manifest, x: Index)
    requires ValidManifest(m) && x in Compile(m).indices
    ensures !(SQLITE <= x.name) && x.name !in Keys(RelEntityName, Compile(m).entities)
  {
    SortMember(IndexName, m.indices, x);
    DistinctParts(m);
    SameEntityNames(m);
    hide SortBy, ValidEntity, ValidIndex, ValidRelationship, Find, Keys;
    KeysMember(EntityName, m.entities, x.name);
    FindMember(EntityName, m.entities, x.name);
  }

  lemma {:induction false} StrictWeak<T>(key: T -> Key, s: seq<T>)
    ensures WeaklySorted(key, SortBy(key, s)) && |SortBy(key, s)| == |s|
  {
    SortWeak(key, s);
    SortElements(key, s);
  }

  lemma {:induction false} CompiledOrder(m: Manifest)
    requires ValidManifest(m)
    ensures var s := Compile(m);
            && WeaklySorted(RelEntityName, s.entities) && WeaklySorted(RelationshipName, s.relationships)
            && WeaklySorted(IndexName, s.indices)
            && |s.entities| == |m.entities| && |s.relationships| == |m.relationships| && |s.indices| == |m.indices|
  {
    hide ValidManifest, SortBy;
    StrictWeak(EntityName, m.entities);
    StrictWeak(RelationshipName, m.relationships);
    StrictWeak(IndexName, m.indices);
    var sorted := SortBy(EntityName, m.entities);
    forall i, j | 0 <= i < j < |sorted|
      ensures !Less(RelEntityName(ToEntity(sorted[j])), RelEntityName(ToEntity(sorted[i])))
    {
      assert !Less(EntityName(sorted[j]), EntityName(sorted[i]));
    }
  }

  lemma {:induction false} CompiledRelationships(m: Manifest)
    requires ValidManifest(m)
    ensures ValidRelationships(Compile(m))
  {
    hide SortBy, Find, ValidManifest, HasCycle, EndpointsFit, DistinctSources, RequiredGraph;
    CompiledSources(m);
    CompiledAcyclic(m);
    forall r | r in Compile(m).relationships ensures EndpointsFit(Compile(m), r) {
      SortMember(RelationshipName, m.relationships, r);
      CompiledEndpoints(m, r);
    }
  }

  lemma {:induction false} CompiledIndices(m: Manifest)
    requires ValidManifest(m)
    ensures ValidIndices(Compile(m))
  {
    hide SortBy, Find, ValidManifest, FieldsIndexable, SameDefinition;
    CompiledDefinitions(m);
    forall x | x in Compile(m).indices
      ensures Find(RelEntityName, Compile(m).entities, x.entity).Some? && FieldsIndexable(Compile(m), x)
    {
      SortMember(IndexName, m.indices, x);
      CompiledIndex(m, x);
    }
  }

  /** Every check of a relational specification holds of a compiled valid manifest, so
      compiling never fails; and the acyclic graph it finds is the one the manifest checked. */
  lemma {:induction false} CompileIsValid(m: Manifest)
    requires ValidManifest(m)
    ensures ValidSpecification(Compile(m))
  {
    hide Compile, ValidEntity, ValidRelEntity, ValidIndex, ValidRelationship, ValidRelationships, ValidIndices,
         ValidNames, WeaklySorted;
    var s := Compile(m);
    CompiledOrder(m);
    CompiledNames(m);
    CompiledRelationships(m);
    CompiledIndices(m);
    forall e | e in s.entities ensures ValidRelEntity(e) {
      CompiledMember(m, e);
      var d :| d in m.entities && ValidEntity(d) && e == ToEntity(d);
      CompiledEntity(d);
    }
    CompiledVersion(m);
  }

  lemma {:induction false} CompiledVersion(m: Manifest)
    ensures Compile(m).schemaVersion == m.schemaVersion
  {
    hide SortBy;
  }
}
