/** Record values: freezing, validation against a compiled manifest, and what evolution and
    transfer do to a record that has been accepted. */
module Records {
  import opened Ordering
  import opened Text
  import opened Decimals
  import opened Numbers
  import opened CanonicalJson
  import opened JsonRoundTrip
  import opened Manifest
  import opened Relational
  import opened SampleManifest

  const MAX_RECORD_JSON_BYTES := 0x1_0000
  const MAX_STRING_BYTES := 0x4000
  const MAX_LIST_ITEMS := 256
  const MAX_LIST_ITEM_CHARS := 256

  /** The text formats and the byte count of `json.dumps`, none of which is modelled. */
  datatype Formats = Formats(uuid: Text -> bool, datetime: Text -> bool, size: seq<Entry> -> nat)

  datatype RecordSpecification = RecordSpecification(schemaVersion: int, entities: seq<EntityDef>)

  // ----- frozen objects -----

  function EntryName(e: Entry): Key { e.name }

  /** `_freeze_json` on one value. */
  function FreezeField(f: Formats, v: Raw): Option<Json>
    decreases v
  {
    match v
    case RNull => Some(Null)
    case RBool(b) => Some(Bool(b))
    case RInt(n) => if Signed64(n) then Some(Int(n)) else None
    case RFloat(Finite(d)) => Some(Float(d))
    case RFloat(NonFinite) => None
    case RText(s) => if Scalar(s) && |Utf8(s)| <= MAX_STRING_BYTES then Some(Str(s)) else None
    case RList(items) =>
      (match FreezeFieldItems(f, items)
       case None => None
       case Some(frozen) => Some(Arr(frozen)))
    case RDict(pairs) =>
      (match FreezeFieldPairs(f, pairs)
       case None => None
       case Some(entries) =>
         match Closed(f, SortBy(EntryName, entries))
         case None => None
         case Some(sorted) => Some(Obj(sorted)))
    case ROther => None
  }

  function FreezeFieldItems(f: Formats, items: seq<Raw>): Option<seq<Json>>
    decreases items
  {
    if items == [] then Some([])
    else match FreezeField(f, items[0])
      case None => None
      case Some(first) => Onto([first], FreezeFieldItems(f, items[1..]))
  }

  function FreezeFieldPairs(f: Formats, pairs: seq<Pair>): Option<seq<Entry>>
    decreases pairs
  {
    if pairs == [] then Some([])
    else if pairs[0].name == [] || 0 in pairs[0].name then None
    else match FreezeField(f, pairs[0].value)
      case None => None
      case Some(first) => Onto([Entry(pairs[0].name, first)], FreezeFieldPairs(f, pairs[1..]))
  }

  /** The constructor's last checks, on entries already sorted by name. */
  function Closed(f: Formats, entries: seq<Entry>): Option<seq<Entry>> {
    if UniqueNames(entries) && f.size(entries) <= MAX_RECORD_JSON_BYTES then Some(entries) else None
  }

  /** `FrozenJsonObject.from_mapping`. */
  function FreezeRecord(f: Formats, record: seq<Pair>): Option<seq<Entry>> {
    match FreezeFieldPairs(f, record)
    case None => None
    case Some(entries) => Closed(f, SortBy(EntryName, entries))
  }

  // ----- types and enumerations -----

  predicate ListItem(v: Raw) {
    v.RText? && 0 < |v.s| <= MAX_LIST_ITEM_CHARS && 0 !in v.s
  }

  predicate NoRepeats(items: seq<Raw>) {
    forall i, j :: 0 <= i < j < |items| ==> items[i] != items[j]
  }

  /** `_matches_type`. */
  predicate MatchesType(f: Formats, v: Raw, ty: LogicalType) {
    match ty
    case StringType => v.RText? && Scalar(v.s) && |Utf8(v.s)| <= MAX_STRING_BYTES && 0 !in v.s
    case IntegerType => v.RInt? && Signed64(v.n)
    case NumberType => (v.RInt? && -EXACT_INTEGER_MAX <= v.n <= EXACT_INTEGER_MAX) || (v.RFloat? && v.f.Finite?)
    case BooleanType => v.RBool?
    case UuidType => v.RText? && f.uuid(v.s)
    case DatetimeType => v.RText? && f.datetime(v.s)
    case StringListType =>
      v.RList? && |v.items| <= MAX_LIST_ITEMS && (forall x :: x in v.items ==> ListItem(x)) && NoRepeats(v.items)
  }

  /** The number a Python value compares as; booleans are numbers. */
  function NumberOf(v: Raw): Option<real> {
    match v
    case RBool(b) => Some(if b then 1.0 else 0.0)
    case RInt(n) => Some(n as real)
    case RFloat(Finite(d)) => Some(DecimalValue(d))
    case _ => None
  }

  function NumberOfAllowed(a: AllowedValue): Option<real> {
    match a
    case ABool(b) => Some(if b then 1.0 else 0.0)
    case AInt(n) => Some(n as real)
    case AFloat(x) => Some(x)
    case AText(_) => None
  }

  /** Python's `==` between a value and an enumeration member: numbers of any type are
      compared by value. */
  predicate SameValue(v: Raw, a: AllowedValue) {
    if v.RText? then a == AText(v.s)
    else NumberOf(v).Some? && NumberOf(v) == NumberOfAllowed(a)
  }

  predicate OneOf(v: Raw, allowed: seq<AllowedValue>) {
    exists a :: a in allowed && SameValue(v, a)
  }

  /** `_matches_enumeration`. */
  predicate MatchesEnumeration(v: Raw, ty: LogicalType, allowed: seq<AllowedValue>) {
    if ty.StringListType? then v.RList? && forall x :: x in v.items ==> OneOf(x, allowed)
    else OneOf(v, allowed)
  }

  // ----- validation -----

  predicate IsDomain(a: Attribute) {
    a.name !in SERVER_FIELDS
  }

  function DomainFields(attributes: seq<Attribute>): seq<Attribute> {
    if attributes == [] then []
    else (if IsDomain(attributes[0]) then [attributes[0]] else []) + DomainFields(attributes[1..])
  }

  function RecordEntities(es: seq<EntityDef>): (r: seq<EntityDef>)
    ensures |r| == |es|
  {
    seq(|es|, i requires 0 <= i < |es| =>
      EntityDef(es[i].name, SortBy(AttributeName, es[i].attributes), es[i].description))
  }

  /** `compile_record_specification`, entities and their fields sorted by name. */
  function CompileRecords(m: Manifest): RecordSpecification {
    RecordSpecification(m.schemaVersion, RecordEntities(SortBy(EntityName, m.entities)))
  }

  predicate Accepts(f: Formats, a: Attribute, v: Raw) {
    if v.RNull? then !a.required
    else MatchesType(f, v, a.ty) && (a.allowed.Some? ==> MatchesEnumeration(v, a.ty, a.allowed.value))
  }

  predicate AcceptsNamed(f: Formats, fields: seq<Attribute>, p: Pair) {
    match Find(AttributeName, fields, p.name)
    case None => false
    case Some(a) => Accepts(f, a, p.value)
  }

  predicate Provided(record: seq<Pair>, name: Name) {
    exists p :: p in record && p.name == name
  }

  /** `RecordSpecification._validate_record`. */
  function ValidateRecord(f: Formats, spec: RecordSpecification, entity: Name, record: seq<Pair>,
                          requireRequired: bool, requireNonempty: bool): Option<seq<Entry>>
  {
    match Find(EntityName, spec.entities, entity)
    case None => None
    case Some(e) =>
      var fields := DomainFields(e.attributes);
      if requireNonempty && record == [] then None
      else if requireRequired && exists a :: a in fields && a.required && !Provided(record, a.name) then None
      else if exists p :: p in record && !AcceptsNamed(f, fields, p) then None
      else FreezeRecord(f, record)
  }

  function ValidateCreate(f: Formats, spec: RecordSpecification, entity: Name, record: seq<Pair>): Option<seq<Entry>> {
    ValidateRecord(f, spec, entity, record, true, false)
  }

  // ----- evolution keeps accepted records -----

  /** The typed values allowed before are allowed afterwards, and no enumeration appears or
      disappears. */
  predicate Grows(before: Option<seq<AllowedValue>>, after: Option<seq<AllowedValue>>) {
    match (before, after)
    case (None, None) => true
    case (Some(a), Some(b)) => forall v :: v in a ==> v in b
    case _ => false
  }

  /** What evolution may do to one name: a field keeps its type and requirement and its
      enumeration only grows; a new field is optional. */
  predicate Evolves(before: Option<Attribute>, after: Option<Attribute>) {
    match (before, after)
    case (None, None) => true
    case (None, Some(b)) => !b.required
    case (Some(a), Some(b)) => ToField(a) == ToField(b) && Grows(a.allowed, b.allowed)
    case (Some(_), None) => false
  }

  lemma {:induction false} AttributeEvolves(entity: Name, a: Attribute, b: Attribute)
    requires ClassifyAttribute(entity, a, b).Some?
    ensures Evolves(Some(a), Some(b))
  {
    if a.allowed.Some? && b.allowed.Some? {
      assert Values(a.allowed.value) <= Values(b.allowed.value);
      forall v | v in a.allowed.value ensures v in b.allowed.value {
        assert v in Values(a.allowed.value);
      }
    }
  }

  lemma {:induction false} NewFieldsOptional(entity: Name, extra: seq<Attribute>)
    requires NewFields(entity, extra).Some?
    ensures forall i :: 0 <= i < |extra| ==> !extra[i].required
  {
    if extra != [] {
      NewFieldsOptional(entity, extra[1..]);
      forall i | 0 <= i < |extra| ensures !extra[i].required {
        if i > 0 {
          assert extra[i] == extra[1..][i - 1];
        }
      }
    }
  }

  lemma {:induction false} EntityEvolves(source: EntityDef, target: EntityDef, name: Name)
    requires ClassifyEntity(source, target).Some?
    requires DistinctAttributes(source.attributes) && DistinctAttributes(target.attributes)
    ensures Evolves(Find(AttributeName, source.attributes, name), Find(AttributeName, target.attributes, name))
  {
    hide ClassifyAttribute, Evolves, Find;
    var a, b := source.attributes, target.attributes;
    AttributesKept(source.name, a, b);
    NewFieldsOptional(source.name, b[|a|..]);
    FindMember(AttributeName, a, name);
    FindMember(AttributeName, b, name);
    if Find(AttributeName, a, name).Some? {
      var i :| 0 <= i < |a| && a[i] == Find(AttributeName, a, name).value;
      AttributeEvolves(source.name, a[i], b[i]);
      SameName(source.name, a[i], b[i]);
      FindAt(AttributeName, b, i);
    } else if Find(AttributeName, b, name).Some? {
      NewNameOptional(source, target, name);
    } else {
      NothingEvolves();
    }
  }

  lemma {:induction false} NothingEvolves()
    ensures Evolves(None, None)
  {
  }

  lemma {:induction false} SameName(entity: Name, a: Attribute, b: Attribute)
    requires ClassifyAttribute(entity, a, b).Some?
    ensures AttributeName(a) == AttributeName(b)
  {
  }

  lemma {:induction false} NewNameOptional(source: EntityDef, target: EntityDef, name: Name)
    requires ClassifyEntity(source, target).Some?
    requires Find(AttributeName, source.attributes, name).None? && Find(AttributeName, target.attributes, name).Some?
    ensures Evolves(None, Find(AttributeName, target.attributes, name))
  {
    hide ClassifyAttribute, Find;
    var a, b := source.attributes, target.attributes;
    AttributesKept(source.name, a, b);
    NewFieldsOptional(source.name, b[|a|..]);
    FindMember(AttributeName, a, name);
    FindMember(AttributeName, b, name);
    var i :| 0 <= i < |b| && b[i] == Find(AttributeName, b, name).value;
    if i < |a| {
      SameName(source.name, a[i], b[i]);
    } else {
      assert b[i] == b[|a|..][i - |a|];
    }
  }

  lemma {:induction false} DomainFind(attributes: seq<Attribute>, name: Name)
    ensures Find(AttributeName, DomainFields(attributes), name)
         == if name in SERVER_FIELDS then None else Find(AttributeName, attributes, name)
  {
    hide SERVER_FIELDS;
    if attributes != [] {
      DomainFind(attributes[1..], name);
      var rest := DomainFields(attributes[1..]);
      if IsDomain(attributes[0]) {
        assert ([attributes[0]] + rest)[1..] == rest;
      } else {
        assert [] + rest == rest;
      }
    }
  }

  lemma {:induction false} DomainMember(attributes: seq<Attribute>, a: Attribute)
    ensures a in DomainFields(attributes) <==> a in attributes && IsDomain(a)
  {
    hide IsDomain;
    if attributes != [] {
      DomainMember(attributes[1..], a);
      assert a in attributes <==> a == attributes[0] || a in attributes[1..];
    }
  }

  lemma {:induction false} FindRecordEntity(es: seq<EntityDef>, name: Name)
    ensures Find(EntityName, RecordEntities(es), name)
         == match Find(EntityName, es, name)
            case None => None
            case Some(e) => Some(EntityDef(e.name, SortBy(AttributeName, e.attributes), e.description))
  {
    hide SortBy;
    if es != [] {
      FindRecordEntity(es[1..], name);
      assert RecordEntities(es)[1..] == RecordEntities(es[1..]);
    }
  }

  /** The fields a record of the entity may have, by name, are those of the manifest. */
  function DomainAttribute(m: Manifest, entity: Name, name: Name): Option<Attribute> {
    if name in SERVER_FIELDS then None else AttributeOf(m, entity, name)
  }

  function RecordFields(spec: RecordSpecification, entity: Name): Option<seq<Attribute>> {
    match Find(EntityName, spec.entities, entity)
    case None => None
    case Some(e) => Some(DomainFields(e.attributes))
  }

  lemma {:induction false} CompiledRecord(m: Manifest, entity: Name, name: Name)
    requires ValidManifest(m)
    ensures var fields := RecordFields(CompileRecords(m), entity);
            && (fields.Some? <==> Find(EntityName, m.entities, entity).Some?)
            && (fields.Some? ==> Find(AttributeName, fields.value, name) == DomainAttribute(m, entity, name)
                                 && DistinctKeys(AttributeName, fields.value))
  {
    DistinctParts(m);
    assert forall e :: e in m.entities ==> ValidEntity(e);
    hide SortBy, Find, SERVER_FIELDS, ValidEntity, ValidIndex, ValidRelationship;
    FindRecordEntity(SortBy(EntityName, m.entities), entity);
    FindSorted(EntityName, m.entities, entity);
    FindMember(EntityName, m.entities, entity);
    if Find(EntityName, m.entities, entity).Some? {
      var e := Find(EntityName, m.entities, entity).value;
      EntityDistinct(e);
      FindSorted(AttributeName, e.attributes, name);
      DistinctSort(AttributeName, e.attributes);
      DomainFind(SortBy(AttributeName, e.attributes), name);
      DomainDistinct(SortBy(AttributeName, e.attributes));
    }
  }

  lemma {:induction false} EntityDistinct(e: EntityDef)
    requires ValidEntity(e)
    ensures DistinctAttributes(e.attributes)
  {
  }

  lemma {:induction false} DomainDistinct(attributes: seq<Attribute>)
    requires DistinctKeys(AttributeName, attributes)
    ensures DistinctKeys(AttributeName, DomainFields(attributes))
  {
    hide IsDomain;
    if attributes != [] {
      DomainDistinct(attributes[1..]);
      var rest := DomainFields(attributes[1..]);
      forall j | 0 <= j < |rest| ensures AttributeName(rest[j]) != AttributeName(attributes[0]) {
        DomainMember(attributes[1..], rest[j]);
        var i :| 0 <= i < |attributes[1..]| && attributes[1..][i] == rest[j];
        assert attributes[i + 1] == rest[j];
      }
    }
  }

  lemma {:induction false} EntityFound(current: Manifest, target: Manifest, entity: Name)
    requires ValidManifest(current) && ValidManifest(target) && Classify(current, target).Some?
    requires Find(EntityName, current.entities, entity).Some?
    ensures var s, t := Find(EntityName, current.entities, entity), Find(EntityName, target.entities, entity);
            t.Some? && ClassifyEntity(s.value, t.value).Some?
            && DistinctAttributes(s.value.attributes) && DistinctAttributes(t.value.attributes)
  {
    BuildNeverRejects(current, target);
    DistinctParts(current);
    assert forall e :: e in current.entities ==> ValidEntity(e);
    assert forall e :: e in target.entities ==> ValidEntity(e);
    hide SortBy, ValidManifest, Classify, ClassifyEntity, Find, ValidEntity, HistoryExtended;
    var sources := SortBy(EntityName, current.entities);
    FindSorted(EntityName, current.entities, entity);
    EntityClassified(sources, target.entities, entity);
    FindMember(EntityName, current.entities, entity);
    FindMember(EntityName, target.entities, entity);
    EntityDistinct(Find(EntityName, current.entities, entity).value);
    EntityDistinct(Find(EntityName, target.entities, entity).value);
  }

  lemma {:induction false} EntityClassified(sources: seq<EntityDef>, targets: seq<EntityDef>, entity: Name)
    requires ClassifyEntities(sources, targets).Some? && Find(EntityName, sources, entity).Some?
    ensures var t := Find(EntityName, targets, entity);
            t.Some? && ClassifyEntity(Find(EntityName, sources, entity).value, t.value).Some?
  {
    hide ClassifyEntity;
    if EntityName(sources[0]) != entity {
      EntityClassified(sources[1..], targets, entity);
    }
  }

  /** An accepted transition keeps every field of every entity and adds only optional ones. */
  lemma {:induction false} DomainEvolves(current: Manifest, target: Manifest, entity: Name, name: Name)
    requires ValidManifest(current) && ValidManifest(target) && Classify(current, target).Some?
    requires Find(EntityName, current.entities, entity).Some?
    ensures Find(EntityName, target.entities, entity).Some?
    ensures Evolves(DomainAttribute(current, entity, name), DomainAttribute(target, entity, name))
  {
    hide ValidManifest, Classify, ClassifyEntity, Find, SERVER_FIELDS, Evolves;
    EntityFound(current, target, entity);
    EntityEvolves(Find(EntityName, current.entities, entity).value, Find(EntityName, target.entities, entity).value, name);
    NothingEvolves();
  }

  lemma {:induction false} AcceptsEvolved(f: Formats, a: Attribute, b: Attribute, v: Raw)
    requires Evolves(Some(a), Some(b)) && Accepts(f, a, v)
    ensures Accepts(f, b, v)
  {
    hide MatchesType, SameValue;
    if a.allowed.Some? && !v.RNull? {
      forall x | OneOf(x, a.allowed.value) ensures OneOf(x, b.allowed.value) {
        var allowed :| allowed in a.allowed.value && SameValue(x, allowed);
        assert allowed in b.allowed.value;
      }
    }
  }

  /** A record (or a partial update) that is accepted under a manifest is accepted, with the
      same value, under every manifest that an accepted transition leads to. */
  lemma {:induction false} RecordSurvives(f: Formats, current: Manifest, target: Manifest, entity: Name,
                                          record: seq<Pair>, requireRequired: bool, requireNonempty: bool)
    requires ValidManifest(current) && ValidManifest(target) && Classify(current, target).Some?
    requires ValidateRecord(f, CompileRecords(current), entity, record, requireRequired, requireNonempty).Some?
    ensures ValidateRecord(f, CompileRecords(target), entity, record, requireRequired, requireNonempty)
         == ValidateRecord(f, CompileRecords(current), entity, record, requireRequired, requireNonempty)
  {
    hide ValidManifest, Classify, CompileRecords, Find, DomainFields, Accepts, FreezeRecord, DomainAttribute,
         Evolves, Provided;
    CompiledRecord(current, entity, []);
    CompiledRecord(target, entity, []);
    DomainEvolves(current, target, entity, []);
    var before := RecordFields(CompileRecords(current), entity).value;
    var after := RecordFields(CompileRecords(target), entity).value;
    forall p | p in record ensures AcceptsNamed(f, after, p) {
      assert AcceptsNamed(f, before, p);
      PairSurvives(f, current, target, entity, p);
    }
    forall b | b in after && b.required && requireRequired ensures Provided(record, b.name) {
      RequiredBefore(current, target, entity, b);
    }
  }

  lemma {:induction false} PairSurvives(f: Formats, current: Manifest, target: Manifest, entity: Name, p: Pair)
    requires ValidManifest(current) && ValidManifest(target) && Classify(current, target).Some?
    requires RecordFields(CompileRecords(current), entity).Some? && RecordFields(CompileRecords(target), entity).Some?
    requires AcceptsNamed(f, RecordFields(CompileRecords(current), entity).value, p)
    ensures AcceptsNamed(f, RecordFields(CompileRecords(target), entity).value, p)
  {
    hide ValidManifest, Classify, CompileRecords, RecordFields, Find, Accepts, DomainAttribute;
    CompiledRecord(current, entity, p.name);
    CompiledRecord(target, entity, p.name);
    DomainEvolves(current, target, entity, p.name);
    AcceptsEvolved(f, DomainAttribute(current, entity, p.name).value, DomainAttribute(target, entity, p.name).value, p.value);
  }

  lemma {:induction false} RequiredBefore(current: Manifest, target: Manifest, entity: Name, b: Attribute)
    requires ValidManifest(current) && ValidManifest(target) && Classify(current, target).Some?
    requires RecordFields(CompileRecords(current), entity).Some? && RecordFields(CompileRecords(target), entity).Some?
    requires b in RecordFields(CompileRecords(target), entity).value && b.required
    ensures exists a :: a in RecordFields(CompileRecords(current), entity).value && a.required && a.name == b.name
  {
    hide ValidManifest, Classify, CompileRecords, RecordFields, Find, DomainAttribute;
    var before := RecordFields(CompileRecords(current), entity).value;
    CompiledRecord(current, entity, b.name);
    CompiledRecord(target, entity, b.name);
    DomainEvolves(current, target, entity, b.name);
    FindIff(AttributeName, RecordFields(CompileRecords(target), entity).value, b);
    FindMember(AttributeName, before, b.name);
    var a := Find(AttributeName, before, b.name).value;
    assert a in before && a.required && a.name == b.name;
  }

  /** Manifests reached one accepted transition after the other. */
  ghost predicate Chain(path: seq<Manifest>) {
    && path != [] && (forall i :: 0 <= i < |path| ==> ValidManifest(path[i]))
    && forall i :: 0 <= i < |path| - 1 ==> Classify(path[i], path[i + 1]).Some?
  }

  /** Data written under the first manifest of a chain stays valid under the last one. */
  lemma {:induction false} RecordSurvivesChain(f: Formats, path: seq<Manifest>, entity: Name, record: seq<Pair>,
                                               requireRequired: bool, requireNonempty: bool)
    requires Chain(path)
    requires ValidateRecord(f, CompileRecords(path[0]), entity, record, requireRequired, requireNonempty).Some?
    ensures ValidateRecord(f, CompileRecords(path[|path| - 1]), entity, record, requireRequired, requireNonempty)
         == ValidateRecord(f, CompileRecords(path[0]), entity, record, requireRequired, requireNonempty)
  {
    hide ValidManifest, Classify, CompileRecords, ValidateRecord;
    if |path| > 1 {
      var front := path[..|path| - 1];
      RecordSurvivesChain(f, front, entity, record, requireRequired, requireNonempty);
      RecordSurvives(f, path[|path| - 2], path[|path| - 1], entity, record, requireRequired, requireNonempty);
    }
  }

  // ----- freezing is stable -----

  ghost predicate Stable(f: Formats, v: Json) {
    FreezeField(f, Thaw(v)) == Some(v)
  }

  ghost predicate StableEntry(f: Formats, e: Entry) {
    e.name != [] && 0 !in e.name && Stable(f, e.value)
  }

  lemma {:induction false} StableItems(f: Formats, items: seq<Json>)
    requires forall x :: x in items ==> Stable(f, x)
    ensures FreezeFieldItems(f, ThawItems(items)) == Some(items)
  {
    if items != [] {
      assert items[0] in items && forall x :: x in items[1..] ==> x in items;
      StableItems(f, items[1..]);
      assert ThawItems(items)[1..] == ThawItems(items[1..]);
      assert items == [items[0]] + items[1..];
    }
  }

  lemma {:induction false} StablePairs(f: Formats, entries: seq<Entry>)
    requires forall e :: e in entries ==> StableEntry(f, e)
    ensures FreezeFieldPairs(f, ThawEntries(entries)) == Some(entries)
  {
    if entries != [] {
      assert entries[0] in entries && forall e :: e in entries[1..] ==> e in entries;
      StablePairs(f, entries[1..]);
      assert ThawEntries(entries)[1..] == ThawEntries(entries[1..]);
      assert entries == [entries[0]] + entries[1..];
    }
  }

  /** A frozen value, thawed and frozen again, is the same value. */
  lemma {:induction false} FreezeFieldStable(f: Formats, v: Raw)
    requires FreezeField(f, v).Some?
    ensures Stable(f, FreezeField(f, v).value)
    decreases v
  {
    match v
    case RList(items) =>
      FreezeItemsStable(f, items);
      StableItems(f, FreezeFieldItems(f, items).value);
    case RDict(pairs) =>
      FreezePairsStable(f, pairs);
      StableSorted(f, FreezeFieldPairs(f, pairs).value);
    case _ =>
  }

  lemma {:induction false} FreezeItemsStable(f: Formats, items: seq<Raw>)
    requires FreezeFieldItems(f, items).Some?
    ensures forall x :: x in FreezeFieldItems(f, items).value ==> Stable(f, x)
    decreases items
  {
    if items != [] {
      FreezeFieldStable(f, items[0]);
      FreezeItemsStable(f, items[1..]);
    }
  }

  lemma {:induction false} FreezePairsStable(f: Formats, pairs: seq<Pair>)
    requires FreezeFieldPairs(f, pairs).Some?
    ensures forall e :: e in FreezeFieldPairs(f, pairs).value ==> StableEntry(f, e)
    decreases pairs
  {
    if pairs != [] {
      FreezeFieldStable(f, pairs[0].value);
      FreezePairsStable(f, pairs[1..]);
    }
  }

  lemma {:induction false} StableSorted(f: Formats, entries: seq<Entry>)
    requires forall e :: e in entries ==> StableEntry(f, e)
    ensures var sorted := SortBy(EntryName, entries);
            FreezeFieldPairs(f, ThawEntries(sorted)) == Some(sorted) && SortBy(EntryName, sorted) == sorted
  {
    hide SortBy, Stable, FreezeFieldPairs;
    var sorted := SortBy(EntryName, entries);
    SortElements(EntryName, entries);
    SameMembers(sorted, entries);
    SortTwice(EntryName, entries);
    StablePairs(f, sorted);
  }

  /** `FrozenJsonObject.from_mapping` is its own normal form. */
  lemma {:induction false} FreezeRecordStable(f: Formats, record: seq<Pair>)
    requires FreezeRecord(f, record).Some?
    ensures FreezeRecord(f, ThawEntries(FreezeRecord(f, record).value)) == FreezeRecord(f, record)
  {
    FreezePairsStable(f, record);
    StableSorted(f, FreezeFieldPairs(f, record).value);
  }

  // ----- a record after export and import -----

  /** Every whole float is one of the integers that binary64 holds exactly. */
  predicate ExactNumber(v: Json) {
    v.Float? && Integral(v.d) ==> -EXACT_INTEGER_MAX <= IntegerOf(v.d) <= EXACT_INTEGER_MAX
  }

  predicate ExactNumbers(entries: seq<Entry>) {
    forall e :: e in entries ==> ExactNumber(e.value)
  }

  lemma {:induction false} TextItems(items: seq<Json>)
    requires forall x :: x in ThawItems(items) ==> x.RText?
    ensures CanonItems(items) == items
  {
    if items != [] {
      assert ThawItems(items)[0] in ThawItems(items) && ThawItems(items)[1..] == ThawItems(items[1..]);
      TextItems(items[1..]);
      assert items == [items[0]] + items[1..];
    }
  }

  /** Outside a number field nothing changes on the way; a whole float becomes the integer
      it equals, and passes again exactly when binary64 holds that integer exactly. */
  lemma {:induction false} TransferredValue(f: Formats, a: Attribute, v: Json)
    requires Accepts(f, a, Thaw(v)) && Stable(f, v)
    ensures Accepts(f, a, Thaw(Canon(v))) <==> ExactNumber(v)
    ensures ExactNumber(v) ==> Stable(f, Canon(v))
  {
    if v.Float? && Integral(v.d) {
      IntegerOfValue(v.d);
      assert NumberOf(Thaw(Canon(v))) == NumberOf(Thaw(v));
      if a.allowed.Some? {
        var x :| x in a.allowed.value && SameValue(Thaw(v), x);
        assert SameValue(Thaw(Canon(v)), x);
      }
    } else if v.Arr? {
      TextItems(v.items);
    }
  }

  predicate AllAccepted(f: Formats, fields: seq<Attribute>, record: seq<Pair>) {
    forall p :: p in record ==> AcceptsNamed(f, fields, p)
  }

  lemma {:induction false} FirstAndRest(f: Formats, fields: seq<Attribute>, record: seq<Pair>, v: seq<Entry>)
    ensures record != [] ==> (AllAccepted(f, fields, record)
                              <==> AcceptsNamed(f, fields, record[0]) && AllAccepted(f, fields, record[1..]))
    ensures v != [] ==> (ExactNumbers(v) <==> ExactNumber(v[0].value) && ExactNumbers(v[1..]))
  {
    hide AcceptsNamed, ExactNumber;
    assert record != [] ==> forall p :: p in record <==> p == record[0] || p in record[1..];
    assert v != [] ==> forall e :: e in v <==> e == v[0] || e in v[1..];
  }

  lemma {:induction false} TransferredPairs(f: Formats, fields: seq<Attribute>, v: seq<Entry>)
    requires AllAccepted(f, fields, ThawEntries(v)) && forall e :: e in v ==> StableEntry(f, e)
    ensures AllAccepted(f, fields, ThawEntries(CanonEntries(v))) <==> ExactNumbers(v)
    ensures ExactNumbers(v) ==> forall e :: e in CanonEntries(v) ==> StableEntry(f, e)
  {
    hide Accepts, Stable, ExactNumber, AllAccepted, ExactNumbers, Find;
    var thawed, canon := ThawEntries(v), ThawEntries(CanonEntries(v));
    if v == [] {
      NothingAccepted(f, fields);
    } else {
      assert v[0] in v && forall e :: e in v[1..] ==> e in v;
      assert thawed[1..] == ThawEntries(v[1..]);
      assert CanonEntries(v)[1..] == CanonEntries(v[1..]) && canon[1..] == ThawEntries(CanonEntries(v[1..]));
      FirstAndRest(f, fields, thawed, v);
      FirstAndRest(f, fields, canon, v);
      TransferredPairs(f, fields, v[1..]);
      TransferredValue(f, Find(AttributeName, fields, v[0].name).value, v[0].value);
    }
  }

  lemma {:induction false} NothingAccepted(f: Formats, fields: seq<Attribute>)
    ensures AllAccepted(f, fields, []) && ExactNumbers([])
  {
  }

  lemma {:induction false} SameProvided(a: seq<Pair>, b: seq<Pair>, name: Name)
    requires |a| == |b| && forall i :: 0 <= i < |a| ==> a[i].name == b[i].name
    ensures Provided(a, name) <==> Provided(b, name)
  {
    if Provided(a, name) {
      var p :| p in a && p.name == name;
      var i :| 0 <= i < |a| && a[i] == p;
      assert b[i] in b;
    }
    if Provided(b, name) {
      var p :| p in b && p.name == name;
      var i :| 0 <= i < |b| && b[i] == p;
      assert a[i] in a;
    }
  }

  /** What acceptance says of a frozen record: it is sorted, each entry is frozen and fits. */
  lemma {:induction false} AcceptedFacts(f: Formats, spec: RecordSpecification, entity: Name, v: seq<Entry>)
    requires ValidateCreate(f, spec, entity, ThawEntries(v)) == Some(v)
    ensures RecordFields(spec, entity).Some? && AllAccepted(f, RecordFields(spec, entity).value, ThawEntries(v))
    ensures (forall e :: e in v ==> StableEntry(f, e)) && UniqueNames(v) && WeaklySorted(EntryName, v)
  {
    hide Find, DomainFields, AcceptsNamed, Provided, SortBy, StableEntry, FreezeFieldPairs;
    FreezePairsStable(f, ThawEntries(v));
    var frozen := FreezeFieldPairs(f, ThawEntries(v)).value;
    SortElements(EntryName, frozen);
    SameMembers(v, frozen);
    SortWeak(EntryName, frozen);
  }

  /** Export writes whole floats as integers, and an integer in a number field must fit in
      53 bits. So a stored record passes validation again after export and import exactly
      when its whole floats are that small and the rewritten object stays within the size
      bound; it then comes back as the value the decoder read. */
  lemma {:induction false} TransferredRecord(f: Formats, spec: RecordSpecification, entity: Name, v: seq<Entry>)
    requires ValidateCreate(f, spec, entity, ThawEntries(v)) == Some(v)
    ensures ValidateCreate(f, spec, entity, ThawEntries(CanonEntries(v)))
         == if ExactNumbers(v) && f.size(CanonEntries(v)) <= MAX_RECORD_JSON_BYTES then Some(CanonEntries(v)) else None
  {
    AcceptedFacts(f, spec, entity, v);
    hide Find, DomainFields, AcceptsNamed, Provided, SortBy, ExactNumbers, StableEntry, FreezeFieldPairs,
         WeaklySorted;
    var fields := RecordFields(spec, entity).value;
    var record, canon := ThawEntries(v), ThawEntries(CanonEntries(v));
    TransferredPairs(f, fields, v);
    forall name ensures Provided(record, name) <==> Provided(canon, name) {
      SameProvided(record, canon, name);
    }
    if ExactNumbers(v) {
      StablePairs(f, CanonEntries(v));
      CanonSorted(v);
    }
  }

  lemma {:induction false} CanonSorted(v: seq<Entry>)
    requires WeaklySorted(EntryName, v)
    ensures SortBy(EntryName, CanonEntries(v)) == CanonEntries(v) && (UniqueNames(CanonEntries(v)) <==> UniqueNames(v))
  {
    hide SortBy;
    assert WeaklySorted(EntryName, CanonEntries(v)) by {
      forall i, j | 0 <= i < j < |v| ensures !Less(EntryName(CanonEntries(v)[j]), EntryName(CanonEntries(v)[i])) {
        assert !Less(EntryName(v[j]), EntryName(v[i]));
      }
    }
    SortOfSorted(EntryName, CanonEntries(v));
  }

  /** The one field of the sample manifest's own, a number. */
  const NUMBER_FIELD: Attribute := Attribute(SHORT, NumberType, false, false, None, None, None)

  /** A record that a valid manifest accepts, that survives the decoder, and that is refused
      on import: the number 10^17 comes back as an integer beyond 2^53. */
  lemma {:induction false} LargeNumberIsRefused()
    ensures var m := Sample(NUMBER_FIELD);
            var f := Formats(_ => false, _ => false, _ => 0);
            var v := [Entry(SHORT, Float(Decimal(false, [1], 17)))];
            && ValidManifest(m)
            && ValidateCreate(f, CompileRecords(m), SHORT, ThawEntries(v)) == Some(v)
            && Decodable(Obj(v))
            && ValidateCreate(f, CompileRecords(m), SHORT, ThawEntries(CanonEntries(v))) == None
  {
    hide CompileRecords, Sample, ValidateCreate, ValidManifest;
    var m := Sample(NUMBER_FIELD);
    var f := Formats(_ => false, _ => false, _ => 0);
    var d := Decimal(false, [1], 17);
    var v := [Entry(SHORT, Float(d))];
    PowerOfTen(17);
    LargeTens();
    SampleValid(NUMBER_FIELD);
    SampleAccepts(f, d);
    assert DecodableEntries(v[1..]);
    assert DecodableEntries(v);
    TransferredRecord(f, CompileRecords(m), SHORT, v);
    assert v[0] in v && !ExactNumber(v[0].value);
  }

  lemma {:induction false} SampleFields()
    ensures var fields := RecordFields(CompileRecords(Sample(NUMBER_FIELD)), SHORT);
            && fields.Some? && Find(AttributeName, fields.value, SHORT) == Some(NUMBER_FIELD)
            && forall a :: a in fields.value ==> a == NUMBER_FIELD
  {
    SampleValid(NUMBER_FIELD);
    SampleEntityFound(NUMBER_FIELD);
    ManagedFound(NUMBER_FIELD, 0);
    ManagedNames();
    CompiledRecord(Sample(NUMBER_FIELD), SHORT, SHORT);
    hide *;
    SampleAttribute(NUMBER_FIELD);
    SampleSorted(NUMBER_FIELD);
    forall a | a in DomainFields(SortBy(AttributeName, MANAGED + [NUMBER_FIELD])) ensures a == NUMBER_FIELD {
      SampleDomain(NUMBER_FIELD, a);
    }
  }

  lemma {:induction false} SampleEntityFound(own: Attribute)
    ensures Find(EntityName, Sample(own).entities, SHORT) == Some(SampleEntity(own))
  {
    SingleSorted(SampleEntity(own));
  }

  lemma {:induction false} SampleAttribute(own: Attribute)
    requires SHORT !in SERVER_FIELDS && Find(AttributeName, MANAGED + [own], SHORT) == Some(own)
    ensures DomainAttribute(Sample(own), SHORT, SHORT) == Some(own)
  {
    SampleEntityFound(own);
    hide Find, MANAGED, SERVER_FIELDS;
  }

  lemma {:induction false} SampleSorted(own: Attribute)
    ensures RecordFields(CompileRecords(Sample(own)), SHORT)
         == Some(DomainFields(SortBy(AttributeName, MANAGED + [own])))
  {
    var es := Sample(own).entities;
    SampleEntityFound(own);
    SingleSorted(es[0]);
    FindRecordEntity(SortBy(EntityName, es), SHORT);
    FindSorted(EntityName, es, SHORT);
    hide Find, SortBy, MANAGED, DomainFields;
  }

  /** Every other field is server-managed. */
  lemma {:induction false} SampleDomain(own: Attribute, a: Attribute)
    requires a in DomainFields(SortBy(AttributeName, MANAGED + [own]))
    ensures a == own
  {
    var all := MANAGED + [own];
    hide SortBy, DomainFields, ID, OWNER_ID, CREATED_AT, UPDATED_AT, CREATED_VIA, RECORD_VERSION;
    SortElements(AttributeName, all);
    SameMembers(SortBy(AttributeName, all), all);
    DomainMember(SortBy(AttributeName, all), a);
    assert forall x :: x in MANAGED ==> !IsDomain(x);
    assert forall x :: x in all ==> x in MANAGED || x == own;
  }

  lemma {:induction false} SingleSorted(e: EntityDef)
    ensures DistinctKeys(EntityName, [e]) && Find(EntityName, [e], e.name) == Some(e)
  {
  }

  lemma {:induction false} SampleAccepts(f: Formats, d: Shortest)
    requires f.size([Entry(SHORT, Float(d))]) <= MAX_RECORD_JSON_BYTES
    ensures var v := [Entry(SHORT, Float(d))];
            ValidateCreate(f, CompileRecords(Sample(NUMBER_FIELD)), SHORT, ThawEntries(v)) == Some(v)
  {
    SampleFields();
    hide CompileRecords, Sample, Find;
    var v := [Entry(SHORT, Float(d))];
    assert v[1..] == [] && ThawEntries(v[1..]) == [];
    var record := ThawEntries(v);
    assert record == [Pair(SHORT, Thaw(Float(d)))] + ThawEntries(v[1..]);
    assert record == [Pair(SHORT, RFloat(Finite(d)))];
    assert record[1..] == [];
    assert FreezeFieldPairs(f, record) == Some(v + []);
    assert v + [] == v;
    SortIdentity(EntryName, v);
  }
}
