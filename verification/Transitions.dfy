/** What an accepted transition guarantees: its delta rebuilds the target, the compiled
    specification passes the relational validator, and the classifier as it is run. */
module Transitions {
  import opened Ordering
  import opened Manifest
  import opened Relational

  // ----- the delta is lossless -----

  function FieldsOf(name: Name, additions: seq<FieldAddition>): seq<Field> {
    if additions == [] then []
    else (if additions[0].entity == name then [additions[0].field] else []) + FieldsOf(name, additions[1..])
  }

  function Extended(e: Entity, additions: seq<FieldAddition>): Entity {
    Entity(e.name, e.fields + FieldsOf(e.name, additions))
  }

  function ExtendAll(es: seq<Entity>, additions: seq<FieldAddition>): (r: seq<Entity>)
    ensures |r| == |es| && forall i :: 0 <= i < |r| ==> r[i] == Extended(es[i], additions)
  {
    seq(|es|, i requires 0 <= i < |es| => Extended(es[i], additions))
  }

  /** The current specification with the additions put in, sorted by name again. */
  function Applied(spec: Specification, a: Additions): Specification {
    Specification(spec.schemaVersion + 1,
                  SortBy(RelEntityName, ExtendAll(spec.entities, a.fields) + a.entities),
                  SortBy(RelationshipName, spec.relationships + a.relationships),
                  SortBy(IndexName, spec.indices + a.indices))
  }

  lemma {:induction false} MergedMember<T>(key: T -> Key, c: seq<T>, added: seq<T>, t: seq<T>, x: T)
    requires DistinctKeys(key, t) && Kept(key, c, t)
    requires forall y :: y in added <==> y in t && key(y) !in Keys(key, c)
    ensures x in c + added <==> x in t
  {
    if x in c {
      FindMember(key, t, key(x));
    }
    if x in t && x !in added {
      KeysMember(key, c, key(x));
      FindMember(key, c, key(x));
      var y := Find(key, c, key(x)).value;
      FindIff(key, t, x);
      assert Find(key, t, key(y)) == Some(y);
    }
  }

  /** What was kept and what is new make up the target, whatever the order. */
  lemma {:induction false} MergeIsTarget<T>(key: T -> Key, c: seq<T>, added: seq<T>, t: seq<T>)
    requires DistinctKeys(key, c) && DistinctKeys(key, added) && DistinctKeys(key, t) && Kept(key, c, t)
    requires forall x :: x in added <==> x in t && key(x) !in Keys(key, c)
    ensures SortBy(key, c + added) == SortBy(key, t)
  {
    var all := c + added;
    forall i, j | 0 <= i < j < |all| ensures key(all[i]) != key(all[j]) {
      if i < |c| && j >= |c| {
        assert added[j - |c|] in added;
        assert Keys(key, c)[i] == key(c[i]);
      }
    }
    DistinctSort(key, all);
    DistinctSort(key, t);
    forall x ensures x in SortBy(key, all) <==> x in SortBy(key, t) {
      MergedMember(key, c, added, t, x);
    }
    StrictUnique(key, SortBy(key, all), SortBy(key, t));
  }

  lemma {:induction false} NewMembers<T>(key: T -> Key, names: seq<Key>, t: seq<T>)
    requires DistinctKeys(key, t)
    ensures DistinctKeys(key, New(key, names, t))
    ensures forall x :: x in New(key, names, t) <==> x in t && key(x) !in names
  {
    AddedDistinct(key, t, names);
    DistinctSort(key, Added(key, t, names));
    forall x ensures x in New(key, names, t) <==> x in t && key(x) !in names {
      AddedMember(key, t, names, x);
    }
  }

  lemma {:induction false} KeptSorted<T>(key: T -> Key, current: seq<T>, target: seq<T>)
    requires Kept(key, current, target)
    ensures Kept(key, SortBy(key, current), target)
  {
    hide SortBy, Find;
    forall x | x in SortBy(key, current) ensures Find(key, target, key(x)) == Some(x) {
      SortMember(key, current, x);
    }
  }

  lemma {:induction false} SortedNames<T>(key: T -> Key, s: seq<T>, k: Key)
    requires DistinctKeys(key, s)
    ensures k in Keys(key, SortBy(key, s)) <==> k in Keys(key, s)
  {
    hide SortBy, Find;
    KeysMember(key, SortBy(key, s), k);
    KeysMember(key, s, k);
    FindSorted(key, s, k);
  }

  /** Kept and new parts of one list, starting from its sorted form. */
  lemma {:induction false} DeltaRebuilds<T>(key: T -> Key, current: seq<T>, target: seq<T>)
    requires DistinctKeys(key, current) && DistinctKeys(key, target) && Kept(key, current, target)
    ensures SortBy(key, SortBy(key, current) + New(key, Keys(key, current), target)) == SortBy(key, target)
  {
    hide SortBy, Find, New, Kept;
    var c, added := SortBy(key, current), New(key, Keys(key, current), target);
    DistinctSort(key, current);
    NewMembers(key, Keys(key, current), target);
    KeptSorted(key, current, target);
    forall x ensures x in added <==> x in target && key(x) !in Keys(key, c) {
      SortedNames(key, current, key(x));
    }
    MergeIsTarget(key, c, added, target);
  }

  lemma {:induction false} FieldsOfConcat(name: Name, a: seq<FieldAddition>, b: seq<FieldAddition>)
    ensures FieldsOf(name, a + b) == FieldsOf(name, a) + FieldsOf(name, b)
  {
    if a == [] {
      assert a + b == b;
    } else {
      FieldsOfConcat(name, a[1..], b);
      assert (a + b)[1..] == a[1..] + b;
      Assoc(if a[0].entity == name then [a[0].field] else [], FieldsOf(name, a[1..]), FieldsOf(name, b));
    }
  }

  lemma {:induction false} FieldsOfNew(name: Name, entity: Name, extra: seq<Attribute>)
    requires NewFields(entity, extra).Some?
    ensures FieldsOf(name, NewFields(entity, extra).value) == if name == entity then ToFields(extra) else []
  {
    if extra != [] {
      FieldsOfNew(name, entity, extra[1..]);
      var rest := NewFields(entity, extra[1..]).value;
      assert NewFields(entity, extra).value[1..] == rest;
      assert ToFields(extra) == [ToField(extra[0])] + ToFields(extra[1..]);
    }
  }

  lemma {:induction false} FieldsOfEntities(name: Name, sources: seq<EntityDef>, targets: seq<EntityDef>)
    requires ClassifyEntities(sources, targets).Some? && DistinctKeys(EntityName, sources)
    ensures var fields := FieldsOf(name, ClassifyEntities(sources, targets).value.fields);
            match Find(EntityName, sources, name)
            case None => fields == []
            case Some(source) =>
              && Find(EntityName, targets, name).Some?
              && ClassifyEntity(source, Find(EntityName, targets, name).value).Some?
              && fields == ToFields(Find(EntityName, targets, name).value.attributes[|source.attributes|..])
  {
    if sources != [] {
      var target := Find(EntityName, targets, EntityName(sources[0])).value;
      var first := ClassifyEntity(sources[0], target).value.fields;
      var rest := ClassifyEntities(sources[1..], targets).value.fields;
      FieldsOfConcat(name, first, rest);
      FieldsOfNew(name, sources[0].name, target.attributes[|sources[0].attributes|..]);
      FieldsOfEntities(name, sources[1..], targets);
      if name == sources[0].name {
        NotInTail(sources);
        assert first + [] == first;
      }
    }
  }

  lemma {:induction false} NotInTail(sources: seq<EntityDef>)
    requires sources != [] && DistinctKeys(EntityName, sources)
    ensures Find(EntityName, sources[1..], EntityName(sources[0])).None?
  {
    FindMember(EntityName, sources[1..], EntityName(sources[0]));
    forall x | x in sources[1..] ensures EntityName(x) != EntityName(sources[0]) {
      var i :| 0 <= i < |sources[1..]| && sources[1..][i] == x;
      assert sources[i + 1] == x;
    }
  }

  lemma {:induction false} ExtendedIsTarget(current: Manifest, target: Manifest, k: nat)
    requires DistinctKeys(EntityName, current.entities)
    requires var sources := SortBy(EntityName, current.entities);
             ClassifyEntities(sources, target.entities).Some? && k < |sources|
    ensures var sources := SortBy(EntityName, current.entities);
            var fields := ClassifyEntities(sources, target.entities).value.fields;
            && Find(EntityName, target.entities, EntityName(sources[k])).Some?
            && Extended(ToEntity(sources[k]), fields) == ToEntity(Find(EntityName, target.entities, EntityName(sources[k])).value)
  {
    var sources := SortBy(EntityName, current.entities);
    DistinctSort(EntityName, current.entities);
    FindAt(EntityName, sources, k);
    FieldsOfEntities(sources[k].name, sources, target.entities);
    var t := Find(EntityName, target.entities, EntityName(sources[k])).value;
    FindMember(EntityName, target.entities, EntityName(sources[k]));
    EntityKept(sources[k], t);
    var n := |sources[k].attributes|;
    assert ToFields(sources[k].attributes) == ToFields(t.attributes)[..n];
    assert ToFields(t.attributes) == ToFields(t.attributes)[..n] + ToFields(t.attributes)[n..];
  }

  lemma {:induction false} EntitiesRebuild(current: Manifest, target: Manifest)
    requires DistinctKeys(EntityName, current.entities) && DistinctKeys(EntityName, target.entities)
    requires ClassifyEntities(SortBy(EntityName, current.entities), target.entities).Some?
    ensures var c, t := Compile(current), Compile(target);
            var fields := ClassifyEntities(SortBy(EntityName, current.entities), target.entities).value.fields;
            SortBy(RelEntityName, ExtendAll(c.entities, fields) + New(RelEntityName, Keys(EntityName, current.entities), t.entities))
            == t.entities
  {
    var c, t := Compile(current), Compile(target);
    var sources := SortBy(EntityName, current.entities);
    var fields := ClassifyEntities(sources, target.entities).value.fields;
    var ext := ExtendAll(c.entities, fields);
    CompiledEntities(current);
    CompiledEntities(target);
    StrictDistinct(RelEntityName, c.entities);
    StrictDistinct(RelEntityName, t.entities);
    SameEntityNames(current);
    forall i | 0 <= i < |ext| ensures Find(RelEntityName, t.entities, RelEntityName(ext[i])) == Some(ext[i]) {
      ExtendedIsTarget(current, target, i);
    }
    assert Kept(RelEntityName, ext, t.entities);
    assert Keys(RelEntityName, ext) == Keys(RelEntityName, c.entities);
    var added := New(RelEntityName, Keys(EntityName, current.entities), t.entities);
    NewMembers(RelEntityName, Keys(EntityName, current.entities), t.entities);
    MergeIsTarget(RelEntityName, ext, added, t.entities);
    SortIdentity(RelEntityName, t.entities);
  }

  /** The current specification plus the accepted additions, sorted by name again, is the
      target specification: the delta loses nothing and invents nothing. */
  lemma {:induction false} DeltaIsLossless(current: Manifest, target: Manifest)
    requires ValidManifest(current) && ValidManifest(target) && Classify(current, target).Some?
    ensures var tr := Classify(current, target).value;
            && tr.current == Compile(current) && tr.target == Compile(target)
            && Applied(tr.current, tr.additions) == tr.target
  {
    BuildNeverRejects(current, target);
    DistinctParts(current);
    DistinctParts(target);
    hide ValidManifest, Classify, New, SortBy, ClassifyEntities, HistoryExtended, NothingChanged, Find,
         GlobalChanges, ExtendAll;
    EntitiesRebuild(current, target);
    DeltaRebuilds(RelationshipName, current.relationships, target.relationships);
    DeltaRebuilds(IndexName, current.indices, target.indices);
  }

  // ----- the classifier as it runs: findings appended to shared lists -----

  function Appended(done: Findings, rest: Option<Findings>): Option<Findings> {
    match rest
    case None => None
    case Some(f) => Some(Findings(done.changes + f.changes, done.fields + f.fields))
  }

  lemma {:induction false} AppendedStep(done: Findings, first: Findings, rest: Option<Findings>)
    ensures Appended(Findings(done.changes + first.changes, done.fields + first.fields), rest)
         == Appended(done, Appended(first, rest))
  {
    if rest.Some? {
      Assoc(done.changes, first.changes, rest.value.changes);
      Assoc(done.fields, first.fields, rest.value.fields);
    }
  }

  lemma {:induction false} AppendedEnds(done: Findings, all: Option<Findings>)
    ensures Appended(Findings([], []), all) == all && Appended(done, Some(Findings([], []))) == Some(done)
  {
    assert done.changes + [] == done.changes && done.fields + [] == done.fields;
    if all.Some? {
      assert [] + all.value.changes == all.value.changes && [] + all.value.fields == all.value.fields;
    }
  }

  lemma {:induction false} OntoOnto<T>(a: seq<T>, b: seq<T>, rest: Option<seq<T>>)
    ensures Onto(a, Onto(b, rest)) == Onto(a + b, rest)
  {
    if rest.Some? {
      Assoc(a, b, rest.value);
    }
  }

  method AppendAttributeChange(entity: Name, a: Attribute, b: Attribute, changes: seq<MetadataChange>)
    returns (r: Option<seq<MetadataChange>>)
    ensures r == Onto(changes, ClassifyAttribute(entity, a, b))
  {
    if a.name != b.name || a.ty != b.ty || a.required != b.required || a.primaryKey != b.primaryKey {
      return None;
    }
    var all := changes;
    if a.description != b.description {
      all := all + [MetadataChange(AttributeDescription, Some(entity), Some(a.name))];
    }
    if a.retrieval != b.retrieval {
      all := all + [MetadataChange(RetrievalModeChange, Some(entity), Some(a.name))];
    }
    ghost var own := (if a.description != b.description then [MetadataChange(AttributeDescription, Some(entity), Some(a.name))] else [])
                     + (if a.retrieval != b.retrieval then [MetadataChange(RetrievalModeChange, Some(entity), Some(a.name))] else []);
    assert all == changes + own;
    OntoOnto(changes, own, ClassifyAllowed(entity, a, b));
    match (a.allowed, b.allowed) {
      case (None, None) =>
        OntoEnds(all, Some(all));
        return Some(all);
      case (Some(before), Some(after)) =>
        if Values(before) == Values(after) {
          OntoEnds(all, Some(all));
          return Some(all);
        }
        if Values(before) < Values(after) {
          return Some(all + [MetadataChange(AllowedValuesExpansion, Some(entity), Some(a.name))]);
        }
        return None;
      case _ =>
        return None;
    }
  }

  method AppendEntityChanges(source: EntityDef, target: EntityDef, changes: seq<MetadataChange>, fields: seq<FieldAddition>)
    returns (r: Option<Findings>)
    ensures r == Appended(Findings(changes, fields), ClassifyEntity(source, target))
  {
    var a, b := source.attributes, target.attributes;
    var all, added := changes, fields;
    ghost var own: seq<MetadataChange> := [];
    if source.description != target.description {
      all := all + [MetadataChange(EntityDescription, Some(source.name), None)];
      own := [MetadataChange(EntityDescription, Some(source.name), None)];
    }
    assert all == changes + own;
    if |b| < |a| {
      return None;
    }
    ghost var start := all;
    OntoEnds(start, ClassifyAttributes(source.name, a, b));
    for k := 0 to |a|
      invariant Onto(all, ClassifyAttributes(source.name, a[k..], b[k..])) == Onto(start, ClassifyAttributes(source.name, a, b))
    {
      ghost var before := all;
      var step := AppendAttributeChange(source.name, a[k], b[k], all);
      assert a[k..][1..] == a[k + 1..] && b[k..][1..] == b[k + 1..];
      if step.None? {
        return None;
      }
      all := step.value;
      OntoOnto(before, ClassifyAttribute(source.name, a[k], b[k]).value, ClassifyAttributes(source.name, a[k + 1..], b[k + 1..]));
    }
    OntoEnds(all, Some(all));
    assert Some(all) == Onto(start, ClassifyAttributes(source.name, a, b));
    var extra := b[|a|..];
    for k := 0 to |extra|
      invariant Onto(added, NewFields(source.name, extra[k..])) == Onto(fields, NewFields(source.name, extra))
    {
      assert extra[k..][1..] == extra[k + 1..];
      if extra[k].required || extra[k].primaryKey {
        return None;
      }
      OntoStep(added, FieldAddition(source.name, ToField(extra[k])), NewFields(source.name, extra[k + 1..]));
      added := added + [FieldAddition(source.name, ToField(extra[k]))];
    }
    OntoEnds(added, Some(added));
    Assoc(changes, own, ClassifyAttributes(source.name, a, b).value);
    r := Some(Findings(all, added));
  }

  method AppendGlobalChanges(current: Manifest, target: Manifest, changes: seq<MetadataChange>) returns (all: seq<MetadataChange>)
    ensures all == changes + GlobalChanges(current, target)
  {
    all := changes;
    if current.guidance != target.guidance {
      all := all + [MetadataChange(RetrievalGuidance, None, None)];
    }
    if current.queryPatterns != target.queryPatterns {
      all := all + [MetadataChange(QueryPatterns, None, None)];
    }
    if current.facets != target.facets {
      all := all + [MetadataChange(DiscoveryFacets, None, None)];
    }
  }

  /** `classify_transition`, with the lists its helpers append to. */
  method ClassifyTransition(current: Manifest, target: Manifest) returns (r: Option<Transition>)
    ensures r == Classify(current, target)
  {
    hide ClassifyEntity, Build, New, Kept, SortBy, GlobalChanges, Compile, NothingChanged, Keys, IsNewDefinition;
    if target.schemaVersion != current.schemaVersion + 1 || !HistoryExtended(current, target) {
      return None;
    }
    if exists e :: e in current.entities && Find(EntityName, target.entities, EntityName(e)).None? {
      return None;
    }
    var sources := SortBy(EntityName, current.entities);
    var changes: seq<MetadataChange> := [];
    var fields: seq<FieldAddition> := [];
    AppendedEnds(Findings([], []), ClassifyEntities(sources, target.entities));
    for k := 0 to |sources|
      invariant Appended(Findings(changes, fields), ClassifyEntities(sources[k..], target.entities))
             == ClassifyEntities(sources, target.entities)
    {
      assert sources[k..][1..] == sources[k + 1..];
      var destination := Find(EntityName, target.entities, EntityName(sources[k]));
      if destination.None? {
        return None;
      }
      ghost var done := Findings(changes, fields);
      var step := AppendEntityChanges(sources[k], destination.value, changes, fields);
      if step.None? {
        return None;
      }
      changes, fields := step.value.changes, step.value.fields;
      AppendedStep(done, ClassifyEntity(sources[k], destination.value).value, ClassifyEntities(sources[k + 1..], target.entities));
    }
    AppendedEnds(Findings(changes, fields), Some(Findings([], [])));
    var names := Keys(EntityName, current.entities);
    changes := AppendGlobalChanges(current, target, changes);
    var relationships := New(RelationshipName, Keys(RelationshipName, current.relationships), target.relationships);
    if !Kept(RelationshipName, current.relationships, target.relationships)
       || (exists x :: x in relationships && !IsNewDefinition(x.source.entity, names, target.entities))
       || !Kept(IndexName, current.indices, target.indices) {
      return None;
    }
    var additions := Additions(New(RelEntityName, names, Compile(target).entities), fields, relationships,
                               New(IndexName, Keys(IndexName, current.indices), target.indices));
    var sorted := SortBy(ChangeKey, changes);
    if NothingChanged(additions, sorted) {
      return None;
    }
    r := Build(Compile(current), Compile(target), additions, sorted);
  }
}
