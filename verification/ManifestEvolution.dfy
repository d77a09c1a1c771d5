/** Which pairs of manifests are transitions, and what changes between them, told from the
    two manifests alone: by names and sets, without the classifier. */
module ManifestEvolution {
  import opened Ordering
  import opened Manifest
  import opened Relational

  // ----- what may change -----

  /** An enumeration stays absent, or keeps all its values with their types. */
  predicate AllowedGrows(before: Option<seq<AllowedValue>>, after: Option<seq<AllowedValue>>) {
    && (before.None? <==> after.None?)
    && (before.Some? ==> forall v :: v in before.value ==> v in after.value)
  }

  predicate AttributeGrows(a: Attribute, b: Attribute) {
    && a.name == b.name && a.ty == b.ty && a.required == b.required && a.primaryKey == b.primaryKey
    && AllowedGrows(a.allowed, b.allowed)
  }

  predicate Optional(a: Attribute) {
    !a.required && !a.primaryKey
  }

  /** The fields stay at their places, and what follows them is optional. */
  predicate EntityGrows(e: EntityDef, f: EntityDef) {
    && |e.attributes| <= |f.attributes|
    && (forall i :: 0 <= i < |e.attributes| ==> AttributeGrows(e.attributes[i], f.attributes[i]))
    && forall i :: |e.attributes| <= i < |f.attributes| ==> Optional(f.attributes[i])
  }

  predicate Named(es: seq<EntityDef>, name: Name) {
    exists e :: e in es && e.name == name
  }

  /** What a metadata change says of two versions of an attribute. */
  predicate AttributeChanged(kind: ChangeKind, a: Attribute, b: Attribute) {
    match kind
    case AttributeDescription => a.description != b.description
    case RetrievalModeChange => a.retrieval != b.retrieval
    case AllowedValuesExpansion =>
      a.allowed.Some? && b.allowed.Some? && exists v :: v in b.allowed.value && v !in a.allowed.value
    case _ => false
  }

  /** What a metadata change says of two manifests. */
  predicate Changed(current: Manifest, target: Manifest, x: MetadataChange) {
    match (x.entity, x.field)
    case (None, None) =>
      (match x.kind
       case RetrievalGuidance => current.guidance != target.guidance
       case QueryPatterns => current.queryPatterns != target.queryPatterns
       case DiscoveryFacets => current.facets != target.facets
       case _ => false)
    case (Some(name), None) =>
      (match (Find(EntityName, current.entities, name), Find(EntityName, target.entities, name))
       case (Some(e), Some(f)) => x.kind == EntityDescription && e.description != f.description
       case _ => false)
    case (Some(name), Some(field)) =>
      (match (AttributeOf(current, name, field), AttributeOf(target, name, field))
       case (Some(a), Some(b)) => AttributeChanged(x.kind, a, b)
       case _ => false)
    case (None, Some(_)) => false
  }

  ghost predicate HistoryGrows(current: Manifest, target: Manifest) {
    exists entry: HistoryEntry ::
      target.history == current.history + [entry]
      && entry.fromVersion == current.schemaVersion && entry.toVersion == target.schemaVersion
  }

  /** Every entity is still there under its name, grown at most. */
  ghost predicate EntitiesGrow(current: Manifest, target: Manifest) {
    forall e :: e in current.entities ==>
      exists f :: f in target.entities && f.name == e.name && EntityGrows(e, f)
  }

  /** A relationship stays as it is, or is new and starts at a new entity. */
  ghost predicate RelationshipsGrow(current: Manifest, target: Manifest) {
    && (forall r :: r in current.relationships ==> r in target.relationships)
    && forall r :: r in target.relationships && r !in current.relationships ==> !Named(current.entities, r.source.entity)
  }

  ghost predicate IndicesGrow(current: Manifest, target: Manifest) {
    forall x :: x in current.indices ==> x in target.indices
  }

  /** A new entity, field, relationship or index, or changed metadata. */
  ghost predicate Differs(current: Manifest, target: Manifest) {
    || (exists f :: f in target.entities && !Named(current.entities, f.name))
    || (exists e, f :: e in current.entities && f in target.entities && e.name == f.name
                       && |e.attributes| < |f.attributes|)
    || (exists r :: r in target.relationships && r !in current.relationships)
    || (exists x :: x in target.indices && x !in current.indices)
    || (exists x :: Changed(current, target, x))
  }

  /** The accepted transitions: one version up, everything kept, everything new optional, and
      something changed. */
  ghost predicate Additive(current: Manifest, target: Manifest) {
    && target.schemaVersion == current.schemaVersion + 1 && HistoryGrows(current, target)
    && EntitiesGrow(current, target) && RelationshipsGrow(current, target) && IndicesGrow(current, target)
    && Differs(current, target)
  }

  // ----- attributes -----

  lemma {:induction false} AllowedIff(entity: Name, a: Attribute, b: Attribute)
    ensures var r := ClassifyAllowed(entity, a, b);
            && (r.Some? <==> AllowedGrows(a.allowed, b.allowed))
            && (r.Some? ==>
                  forall x :: x in r.value <==> x == MetadataChange(AllowedValuesExpansion, Some(entity), Some(a.name))
                                                && AttributeChanged(AllowedValuesExpansion, a, b))
  {
    if a.allowed.Some? && b.allowed.Some? {
      var before, after := Values(a.allowed.value), Values(b.allowed.value);
      assert forall v :: v in before <==> v in a.allowed.value;
      assert forall v :: v in after <==> v in b.allowed.value;
      assert before <= after <==> AllowedGrows(a.allowed, b.allowed);
      if before <= after {
        assert before != after <==> exists v :: v in after && v !in before;
        assert (exists v :: v in after && v !in before) <==> AttributeChanged(AllowedValuesExpansion, a, b);
      }
    }
  }

  lemma {:induction false} AttributeIff(entity: Name, a: Attribute, b: Attribute)
    ensures var r := ClassifyAttribute(entity, a, b);
            && (r.Some? <==> AttributeGrows(a, b))
            && (r.Some? ==>
                  forall x :: x in r.value <==> x.entity == Some(entity) && x.field == Some(a.name)
                                                && AttributeChanged(x.kind, a, b))
  {
    hide ClassifyAllowed, AllowedGrows;
    AllowedIff(entity, a, b);
  }

  /** A change of the attribute at some place of the lists. */
  ghost predicate PlaceChanged(entity: Name, a: seq<Attribute>, b: seq<Attribute>, x: MetadataChange)
    requires |a| <= |b|
  {
    exists i :: 0 <= i < |a| && x.entity == Some(entity) && x.field == Some(a[i].name)
                && AttributeChanged(x.kind, a[i], b[i])
  }

  lemma {:induction false} PlaceOfCons(entity: Name, a: seq<Attribute>, b: seq<Attribute>, x: MetadataChange)
    requires a != [] && |a| <= |b|
    ensures PlaceChanged(entity, a, b, x)
       <==> (x.entity == Some(entity) && x.field == Some(a[0].name) && AttributeChanged(x.kind, a[0], b[0]))
            || PlaceChanged(entity, a[1..], b[1..], x)
  {
    hide AttributeChanged;
    if PlaceChanged(entity, a[1..], b[1..], x) {
      var i :| 0 <= i < |a[1..]| && x.entity == Some(entity) && x.field == Some(a[1..][i].name)
               && AttributeChanged(x.kind, a[1..][i], b[1..][i]);
      assert a[1..][i] == a[i + 1] && b[1..][i] == b[i + 1];
    }
    if PlaceChanged(entity, a, b, x) {
      var i :| 0 <= i < |a| && x.entity == Some(entity) && x.field == Some(a[i].name)
               && AttributeChanged(x.kind, a[i], b[i]);
      if i > 0 {
        assert a[1..][i - 1] == a[i] && b[1..][i - 1] == b[i];
      }
    }
  }

  lemma {:induction false} AttributesIff(entity: Name, a: seq<Attribute>, b: seq<Attribute>)
    requires |a| <= |b|
    ensures var r := ClassifyAttributes(entity, a, b);
            && (r.Some? <==> forall i :: 0 <= i < |a| ==> AttributeGrows(a[i], b[i]))
            && (r.Some? ==> forall x :: x in r.value <==> PlaceChanged(entity, a, b, x))
  {
    hide ClassifyAttribute, AttributeGrows, PlaceChanged, AttributeChanged;
    if a != [] {
      AttributeIff(entity, a[0], b[0]);
      AttributesIff(entity, a[1..], b[1..]);
      forall x ensures PlaceChanged(entity, a, b, x)
         <==> (x.entity == Some(entity) && x.field == Some(a[0].name) && AttributeChanged(x.kind, a[0], b[0]))
              || PlaceChanged(entity, a[1..], b[1..], x) {
        PlaceOfCons(entity, a, b, x);
      }
      assert forall i :: 1 <= i < |a| ==> a[i] == a[1..][i - 1] && b[i] == b[1..][i - 1];
    } else {
      forall x ensures !PlaceChanged(entity, a, b, x) {
        NoPlace(entity, b, x);
      }
    }
  }

  lemma {:induction false} NoPlace(entity: Name, b: seq<Attribute>, x: MetadataChange)
    ensures !PlaceChanged(entity, [], b, x)
  {
  }

  lemma {:induction false} NewFieldsIff(entity: Name, extra: seq<Attribute>)
    ensures var r := NewFields(entity, extra);
            && (r.Some? <==> forall i :: 0 <= i < |extra| ==> Optional(extra[i]))
            && (r.Some? ==> |r.value| == |extra|)
  {
    if extra != [] {
      NewFieldsIff(entity, extra[1..]);
      assert forall i :: 1 <= i < |extra| ==> extra[i] == extra[1..][i - 1];
    }
  }

  // ----- entities -----

  ghost predicate EntityChanged(e: EntityDef, f: EntityDef, x: MetadataChange)
    requires |e.attributes| <= |f.attributes|
  {
    || (x == MetadataChange(EntityDescription, Some(e.name), None) && e.description != f.description)
    || PlaceChanged(e.name, e.attributes, f.attributes, x)
  }

  lemma {:induction false} EntityIff(e: EntityDef, f: EntityDef)
    ensures var r := ClassifyEntity(e, f);
            && (r.Some? <==> EntityGrows(e, f))
            && (r.Some? ==>
                  && (forall x :: x in r.value.changes <==> EntityChanged(e, f, x))
                  && (r.value.fields == [] <==> |e.attributes| == |f.attributes|))
  {
    hide ClassifyAttributes, NewFields, AttributeGrows, PlaceChanged, Optional;
    if |e.attributes| <= |f.attributes| {
      var n := |e.attributes|;
      AttributesIff(e.name, e.attributes, f.attributes);
      NewFieldsIff(e.name, f.attributes[n..]);
      assert forall i :: n <= i < |f.attributes| ==> f.attributes[i] == f.attributes[n..][i - n];
    }
  }

  /** The entity of the target under the name of a current one. */
  predicate Pair(e: EntityDef, targets: seq<EntityDef>, f: EntityDef) {
    Find(EntityName, targets, EntityName(e)) == Some(f)
  }

  ghost predicate AnyChanged(sources: seq<EntityDef>, targets: seq<EntityDef>, x: MetadataChange) {
    exists e, f :: e in sources && Pair(e, targets, f) && |e.attributes| <= |f.attributes| && EntityChanged(e, f, x)
  }

  ghost predicate AllGrow(sources: seq<EntityDef>, targets: seq<EntityDef>) {
    forall e :: e in sources ==> Find(EntityName, targets, EntityName(e)).Some?
                                 && EntityGrows(e, Find(EntityName, targets, EntityName(e)).value)
  }

  ghost predicate NoNewFields(sources: seq<EntityDef>, targets: seq<EntityDef>) {
    forall e, f :: e in sources && Pair(e, targets, f) ==> |e.attributes| == |f.attributes|
  }

  lemma {:induction false} ConsEntities(sources: seq<EntityDef>, targets: seq<EntityDef>)
    requires sources != []
    ensures AllGrow(sources, targets)
       <==> Find(EntityName, targets, EntityName(sources[0])).Some?
            && EntityGrows(sources[0], Find(EntityName, targets, EntityName(sources[0])).value)
            && AllGrow(sources[1..], targets)
  {
    hide EntityGrows, Find;
    assert forall e :: e in sources <==> e == sources[0] || e in sources[1..];
  }

  lemma {:induction false} ConsChanges(sources: seq<EntityDef>, targets: seq<EntityDef>, f: EntityDef,
                                       x: MetadataChange)
    requires sources != [] && Pair(sources[0], targets, f) && |sources[0].attributes| <= |f.attributes|
    ensures AnyChanged(sources, targets, x) <==> EntityChanged(sources[0], f, x) || AnyChanged(sources[1..], targets, x)
  {
    hide EntityChanged, Find;
    if AnyChanged(sources, targets, x) {
      var e, g :| e in sources && Pair(e, targets, g) && |e.attributes| <= |g.attributes| && EntityChanged(e, g, x);
      assert e == sources[0] || e in sources[1..];
    }
    if EntityChanged(sources[0], f, x) {
      assert sources[0] in sources;
    }
  }

  lemma {:induction false} ConsFields(sources: seq<EntityDef>, targets: seq<EntityDef>, f: EntityDef)
    requires sources != [] && Pair(sources[0], targets, f)
    ensures NoNewFields(sources, targets) <==> |sources[0].attributes| == |f.attributes| && NoNewFields(sources[1..], targets)
  {
    hide Find;
    assert forall e :: e in sources <==> e == sources[0] || e in sources[1..];
  }

  lemma {:induction false} EntitiesIff(sources: seq<EntityDef>, targets: seq<EntityDef>)
    ensures var r := ClassifyEntities(sources, targets);
            && (r.Some? <==> AllGrow(sources, targets))
            && (r.Some? ==> forall x :: x in r.value.changes <==> AnyChanged(sources, targets, x))
            && (r.Some? ==> (r.value.fields == [] <==> NoNewFields(sources, targets)))
  {
    hide ClassifyEntity, EntityGrows, EntityChanged, AnyChanged, NoNewFields, AllGrow;
    if sources == [] {
      NoEntities(targets);
    } else {
      ConsEntities(sources, targets);
      EntitiesIff(sources[1..], targets);
      var f := Find(EntityName, targets, EntityName(sources[0]));
      if f.Some? {
        EntityIff(sources[0], f.value);
        if ClassifyEntities(sources, targets).Some? {
          forall x ensures x in ClassifyEntities(sources, targets).value.changes <==> AnyChanged(sources, targets, x) {
            GrowsLonger(sources[0], f.value);
            ConsChanges(sources, targets, f.value, x);
          }
          ConsFields(sources, targets, f.value);
        }
      }
    }
  }

  lemma {:induction false} GrowsLonger(e: EntityDef, f: EntityDef)
    requires EntityGrows(e, f)
    ensures |e.attributes| <= |f.attributes|
  {
  }

  lemma {:induction false} NoEntities(targets: seq<EntityDef>)
    ensures AllGrow([], targets) && NoNewFields([], targets) && forall x :: !AnyChanged([], targets, x)
  {
  }

  // ----- names and lists -----

  lemma {:induction false} HistoryIff(current: Manifest, target: Manifest)
    ensures HistoryExtended(current, target) <==> HistoryGrows(current, target)
  {
    if HistoryExtended(current, target) {
      var n := |target.history| - 1;
      assert target.history == current.history + [target.history[n]];
    }
    if HistoryGrows(current, target) {
      var entry: HistoryEntry :| target.history == current.history + [entry]
                && entry.fromVersion == current.schemaVersion && entry.toVersion == target.schemaVersion;
      assert target.history[..|target.history| - 1] == current.history;
    }
  }

  lemma {:induction false} NamedIff(es: seq<EntityDef>, name: Name)
    ensures Named(es, name) <==> Find(EntityName, es, name).Some?
    ensures Named(es, name) <==> name in Keys(EntityName, es)
  {
    FindMember(EntityName, es, name);
    KeysMember(EntityName, es, name);
  }

  lemma {:induction false} KeptIff<T>(key: T -> Key, current: seq<T>, target: seq<T>)
    requires DistinctKeys(key, target)
    ensures Kept(key, current, target) <==> forall x :: x in current ==> x in target
  {
    forall x ensures Find(key, target, key(x)) == Some(x) <==> x in target {
      FindIff(key, target, x);
    }
  }

  /** What is new, when everything old is kept, is what was not there. */
  lemma {:induction false} NewIff<T>(key: T -> Key, current: seq<T>, target: seq<T>)
    requires DistinctKeys(key, current) && DistinctKeys(key, target) && Kept(key, current, target)
    ensures forall x :: x in New(key, Keys(key, current), target) <==> x in target && x !in current
  {
    KeptIff(key, current, target);
    forall x ensures x in New(key, Keys(key, current), target) <==> x in target && x !in current {
      var added := Added(key, target, Keys(key, current));
      SortMember(key, added, x);
      AddedMember(key, target, Keys(key, current), x);
      KeysMember(key, current, key(x));
      FindMember(key, current, key(x));
      if x in target && Find(key, current, key(x)).Some? {
        var y := Find(key, current, key(x)).value;
        FindIff(key, target, x);
        FindIff(key, target, y);
      }
    }
  }

  lemma {:induction false} NothingIn<T>(s: seq<T>)
    ensures s == [] <==> forall x :: x !in s
  {
    if s != [] {
      assert s[0] in s;
    }
  }

  lemma {:induction false} EntitiesGrowIff(current: Manifest, target: Manifest)
    requires DistinctKeys(EntityName, current.entities) && DistinctKeys(EntityName, target.entities)
    ensures AllGrow(SortBy(EntityName, current.entities), target.entities) <==> EntitiesGrow(current, target)
  {
    hide EntityGrows;
    var sources := SortBy(EntityName, current.entities);
    DistinctSort(EntityName, current.entities);
    forall e, f ensures Pair(e, target.entities, f) <==> f in target.entities && f.name == e.name {
      FindIff(EntityName, target.entities, f);
      FindMember(EntityName, target.entities, EntityName(e));
    }
    if AllGrow(sources, target.entities) {
      forall e | e in current.entities ensures exists f :: f in target.entities && f.name == e.name && EntityGrows(e, f) {
        assert e in sources;
        var f := Find(EntityName, target.entities, EntityName(e)).value;
        assert Pair(e, target.entities, f);
      }
    }
    if EntitiesGrow(current, target) {
      forall e | e in sources
        ensures Find(EntityName, target.entities, EntityName(e)).Some?
                && EntityGrows(e, Find(EntityName, target.entities, EntityName(e)).value)
      {
        assert e in current.entities;
        var f :| f in target.entities && f.name == e.name && EntityGrows(e, f);
        assert Pair(e, target.entities, f);
      }
    }
  }

  /** New entities as compiled are new entities as defined. */
  lemma {:induction false} NewEntitiesIff(current: Manifest, target: Manifest)
    requires DistinctKeys(EntityName, target.entities)
    ensures New(RelEntityName, Keys(EntityName, current.entities), Compile(target).entities) == []
       <==> forall f :: f in target.entities ==> Named(current.entities, f.name)
  {
    hide Named;
    var names := Keys(EntityName, current.entities);
    var compiled, sorted := Compile(target).entities, SortBy(EntityName, target.entities);
    var added := New(RelEntityName, names, compiled);
    DistinctSort(EntityName, target.entities);
    forall e ensures e in added <==> e in compiled && !Named(current.entities, e.name) {
      SortMember(RelEntityName, Added(RelEntityName, compiled, names), e);
      AddedMember(RelEntityName, compiled, names, e);
      NamedIff(current.entities, e.name);
    }
    NothingIn(added);
    if added == [] {
      forall f | f in target.entities ensures Named(current.entities, f.name) {
        assert f in sorted;
        var i :| 0 <= i < |sorted| && sorted[i] == f;
        assert compiled[i] == ToEntity(f) && compiled[i] in compiled;
        assert compiled[i] !in added;
      }
    } else {
      var e := added[0];
      assert e in added;
      var i :| 0 <= i < |compiled| && compiled[i] == e;
      assert sorted[i] in sorted && sorted[i].name == e.name;
      assert sorted[i] in target.entities;
    }
  }

  lemma {:induction false} NewSourcesIff(current: Manifest, target: Manifest)
    requires ValidManifest(target)
    requires DistinctKeys(RelationshipName, current.relationships) && DistinctKeys(RelationshipName, target.relationships)
    requires Kept(RelationshipName, current.relationships, target.relationships)
    ensures var added := New(RelationshipName, Keys(RelationshipName, current.relationships), target.relationships);
            (exists r :: r in added && !IsNewDefinition(r.source.entity, Keys(EntityName, current.entities), target.entities))
            <==> !RelationshipsGrow(current, target)
  {
    hide New, Kept, Named, Keys;
    var names := Keys(EntityName, current.entities);
    KeptIff(RelationshipName, current.relationships, target.relationships);
    NewIff(RelationshipName, current.relationships, target.relationships);
    forall r | r in target.relationships
      ensures IsNewDefinition(r.source.entity, names, target.entities) <==> !Named(current.entities, r.source.entity)
    {
      NamedIff(current.entities, r.source.entity);
      SourceKnown(target, r);
    }
  }

  lemma {:induction false} SourceKnown(m: Manifest, r: Relationship)
    requires ValidManifest(m) && r in m.relationships
    ensures Find(EntityName, m.entities, r.source.entity).Some?
  {
    assert ValidRelationship(m, r);
  }

  // ----- changes by name -----

  lemma {:induction false} EntityIs(m: Manifest, e: EntityDef)
    requires ValidManifest(m)
    ensures e in m.entities <==> Find(EntityName, m.entities, e.name) == Some(e)
    ensures e in m.entities ==> DistinctKeys(AttributeName, e.attributes)
  {
    FindIff(EntityName, m.entities, e);
    if e in m.entities {
      assert ValidEntity(e);
    }
  }

  /** A change at some place is a change of the attribute under that name. */
  lemma {:induction false} PlaceIsName(e: EntityDef, f: EntityDef, x: MetadataChange)
    requires EntityGrows(e, f) && DistinctKeys(AttributeName, e.attributes) && DistinctKeys(AttributeName, f.attributes)
    ensures PlaceChanged(e.name, e.attributes, f.attributes, x)
       <==> x.entity == Some(e.name) && x.field.Some?
            && (match (Find(AttributeName, e.attributes, x.field.value), Find(AttributeName, f.attributes, x.field.value))
                case (Some(a), Some(b)) => AttributeChanged(x.kind, a, b)
                case _ => false)
  {
    hide AttributeChanged, AllowedGrows, Optional;
    forall i | 0 <= i < |e.attributes|
      ensures Find(AttributeName, e.attributes, e.attributes[i].name) == Some(e.attributes[i])
      ensures Find(AttributeName, f.attributes, e.attributes[i].name) == Some(f.attributes[i])
    {
      FindAt(AttributeName, e.attributes, i);
      FindAt(AttributeName, f.attributes, i);
    }
    if x.field.Some? && Find(AttributeName, e.attributes, x.field.value).Some? {
      FindMember(AttributeName, e.attributes, x.field.value);
      var i :| 0 <= i < |e.attributes| && e.attributes[i] == Find(AttributeName, e.attributes, x.field.value).value;
    }
  }

  lemma {:induction false} AttributeOfIs(m: Manifest, e: EntityDef, field: Name)
    requires Find(EntityName, m.entities, e.name) == Some(e)
    ensures AttributeOf(m, e.name, field) == Find(AttributeName, e.attributes, field)
  {
  }

  /** The change of one entity, for two manifests that hold it. */
  lemma {:induction false} EntityChangedIff(current: Manifest, target: Manifest, e: EntityDef, f: EntityDef,
                                            x: MetadataChange)
    requires ValidManifest(current) && ValidManifest(target) && EntityGrows(e, f) && e.name == f.name
    requires e in current.entities && f in target.entities
    ensures EntityChanged(e, f, x) <==> x.entity == Some(e.name) && Changed(current, target, x)
  {
    hide ValidManifest, EntityGrows, PlaceChanged, Find, AttributeChanged, AttributeOf;
    EntityIs(current, e);
    EntityIs(target, f);
    GrowsLonger(e, f);
    PlaceIsName(e, f, x);
    if x.field.Some? {
      AttributeOfIs(current, e, x.field.value);
      AttributeOfIs(target, f, x.field.value);
    }
  }

  lemma {:induction false} ChangedNamed(current: Manifest, target: Manifest, x: MetadataChange)
    requires Changed(current, target, x) && x.entity.Some?
    ensures Find(EntityName, current.entities, x.entity.value).Some?
    ensures Find(EntityName, target.entities, x.entity.value).Some?
  {
  }

  lemma {:induction false} AnyChangedIff(current: Manifest, target: Manifest, x: MetadataChange)
    requires ValidManifest(current) && ValidManifest(target)
    requires AllGrow(SortBy(EntityName, current.entities), target.entities)
    ensures AnyChanged(SortBy(EntityName, current.entities), target.entities, x)
       <==> x.entity.Some? && Changed(current, target, x)
  {
    hide ValidManifest, EntityGrows, EntityChanged, Changed, Find, SortBy;
    var sources := SortBy(EntityName, current.entities);
    DistinctParts(current);
    DistinctSort(EntityName, current.entities);
    if AnyChanged(sources, target.entities, x) {
      var e, f :| e in sources && Pair(e, target.entities, f) && |e.attributes| <= |f.attributes| && EntityChanged(e, f, x);
      assert e in current.entities;
      FindMember(EntityName, target.entities, EntityName(e));
      EntityChangedIff(current, target, e, f, x);
    }
    if x.entity.Some? && Changed(current, target, x) {
      ChangedNamed(current, target, x);
      var e := Find(EntityName, current.entities, x.entity.value).value;
      var f := Find(EntityName, target.entities, x.entity.value).value;
      FindMember(EntityName, current.entities, x.entity.value);
      FindMember(EntityName, target.entities, x.entity.value);
      assert e in sources && Pair(e, target.entities, f);
      EntityChangedIff(current, target, e, f, x);
      GrowsLonger(e, f);
    }
  }

  lemma {:induction false} GlobalIff(current: Manifest, target: Manifest, x: MetadataChange)
    ensures x in GlobalChanges(current, target) <==> x.entity.None? && Changed(current, target, x)
  {
    hide Find;
  }

  // ----- the theorems -----

  /** The changes that are proposed for two manifests whose entities grow. */
  lemma {:induction false} ChangesIff(current: Manifest, target: Manifest)
    requires ValidManifest(current) && ValidManifest(target)
    requires AllGrow(SortBy(EntityName, current.entities), target.entities)
    ensures var found := ClassifyEntities(SortBy(EntityName, current.entities), target.entities);
            && found.Some?
            && forall x :: x in SortBy(ChangeKey, found.value.changes + GlobalChanges(current, target))
                           <==> Changed(current, target, x)
  {
    hide ValidManifest, AllGrow, AnyChanged, Changed, NoNewFields, ClassifyEntities, GlobalChanges, SortBy;
    var sources := SortBy(EntityName, current.entities);
    EntitiesIff(sources, target.entities);
    var found := ClassifyEntities(sources, target.entities).value;
    var all := found.changes + GlobalChanges(current, target);
    forall x ensures x in SortBy(ChangeKey, all) <==> Changed(current, target, x) {
      SortMember(ChangeKey, all, x);
      AnyChangedIff(current, target, x);
      GlobalIff(current, target, x);
    }
  }

  lemma {:induction false} FieldsIff(current: Manifest, target: Manifest)
    requires ValidManifest(current) && ValidManifest(target)
    requires AllGrow(SortBy(EntityName, current.entities), target.entities)
    ensures NoNewFields(SortBy(EntityName, current.entities), target.entities)
       <==> forall e, f :: e in current.entities && f in target.entities && e.name == f.name ==>
                           |e.attributes| >= |f.attributes|
  {
    hide ValidManifest, EntityGrows, SortBy;
    DistinctParts(current);
    DistinctParts(target);
    DistinctSort(EntityName, current.entities);
    forall e, f ensures Pair(e, target.entities, f) <==> f in target.entities && f.name == e.name {
      FindIff(EntityName, target.entities, f);
      FindMember(EntityName, target.entities, EntityName(e));
    }
    forall e, f | e in SortBy(EntityName, current.entities) && Pair(e, target.entities, f)
      ensures |e.attributes| <= |f.attributes|
    {
      GrowsLonger(e, f);
    }
  }

  /** Nothing is found to change exactly when the manifests do not differ. */
  lemma {:induction false} DiffersIff(current: Manifest, target: Manifest, relationships: seq<Relationship>,
                                      indices: seq<Index>, entities: seq<Entity>, fields: seq<FieldAddition>,
                                      changes: seq<MetadataChange>)
    requires entities == [] <==> forall f :: f in target.entities ==> Named(current.entities, f.name)
    requires fields == [] <==> forall e, f :: e in current.entities && f in target.entities && e.name == f.name ==>
                                              |e.attributes| >= |f.attributes|
    requires forall r :: r in relationships <==> r in target.relationships && r !in current.relationships
    requires forall x :: x in indices <==> x in target.indices && x !in current.indices
    requires forall x :: x in changes <==> Changed(current, target, x)
    ensures NothingChanged(Additions(entities, fields, relationships, indices), changes) <==> !Differs(current, target)
  {
    hide Changed, Named;
    NothingIn(relationships);
    NothingIn(indices);
    NothingIn(changes);
  }

  lemma {:induction false} NamesStay(current: Manifest, target: Manifest)
    requires DistinctKeys(EntityName, current.entities)
    requires AllGrow(SortBy(EntityName, current.entities), target.entities)
    ensures forall e :: e in current.entities ==> Find(EntityName, target.entities, EntityName(e)).Some?
  {
    hide EntityGrows, SortBy, Find;
    DistinctSort(EntityName, current.entities);
  }

  lemma {:induction false} ProposedIff(current: Manifest, target: Manifest)
    requires ValidManifest(current) && ValidManifest(target)
    ensures Proposed(current, target).Some? <==> Additive(current, target)
    ensures Proposed(current, target).Some? ==>
              forall x :: x in Proposed(current, target).value.1 <==> Changed(current, target, x)
  {
    hide ValidManifest, AllGrow, Changed, NoNewFields, ClassifyEntities, GlobalChanges, SortBy, HistoryExtended,
         HistoryGrows, EntitiesGrow, RelationshipsGrow, Differs, Find, Keys, New, Kept, NothingChanged, Compile,
         IsNewDefinition, Named;
    DistinctParts(current);
    DistinctParts(target);
    HistoryIff(current, target);
    var sources := SortBy(EntityName, current.entities);
    EntitiesIff(sources, target.entities);
    EntitiesGrowIff(current, target);
    KeptIff(RelationshipName, current.relationships, target.relationships);
    KeptIff(IndexName, current.indices, target.indices);
    if AllGrow(sources, target.entities) {
      NamesStay(current, target);
      ChangesIff(current, target);
      RelationshipsKept(current, target);
      if Kept(RelationshipName, current.relationships, target.relationships)
         && Kept(IndexName, current.indices, target.indices) {
        NewSourcesIff(current, target);
        NewIff(RelationshipName, current.relationships, target.relationships);
        NewIff(IndexName, current.indices, target.indices);
        NewEntitiesIff(current, target);
        FieldsIff(current, target);
        var found := ClassifyEntities(sources, target.entities).value;
        DiffersIff(current, target,
                   New(RelationshipName, Keys(RelationshipName, current.relationships), target.relationships),
                   New(IndexName, Keys(IndexName, current.indices), target.indices),
                   New(RelEntityName, Keys(EntityName, current.entities), Compile(target).entities),
                   found.fields, SortBy(ChangeKey, found.changes + GlobalChanges(current, target)));
      }
    }
  }

  lemma {:induction false} RelationshipsKept(current: Manifest, target: Manifest)
    requires DistinctKeys(RelationshipName, target.relationships)
    ensures RelationshipsGrow(current, target) ==> Kept(RelationshipName, current.relationships, target.relationships)
  {
    KeptIff(RelationshipName, current.relationships, target.relationships);
  }

  /** A manifest may follow another exactly when it is an additive change of it, and the
      metadata changes of the transition are exactly the differences of the two. */
  lemma {:induction false} ClassifiedIff(current: Manifest, target: Manifest)
    requires ValidManifest(current) && ValidManifest(target)
    ensures Classify(current, target).Some? <==> Additive(current, target)
    ensures Additive(current, target) ==>
              forall x :: x in Classify(current, target).value.changes <==> Changed(current, target, x)
  {
    hide ValidManifest, Additive, Changed, Classify, Proposed;
    BuildNeverRejects(current, target);
    ProposedIff(current, target);
  }
}
