/** When a manifest survives export and import: its enumerations may hold floats that come
    back as integers, and then the manifest's own checks run again. */
module ManifestTransfer {
  import opened Ordering
  import opened Decimals
  import opened Numbers
  import opened CanonicalJson
  import opened JsonRoundTrip
  import opened Cycles
  import opened Manifest
  import opened SampleManifest
  import opened Records
  import opened PortableStore
  import opened Payloads
  import opened ManifestCodec

  // ----- enumerations -----

  /** Every float printed as an integer is one that binary64 holds exactly, and the integer it
      becomes is not a member already. */
  predicate PortableValues(decimal: FloatDecimal, vs: seq<AllowedValue>) {
    forall v :: v in vs && v.AFloat? && Integral(decimal(v.x)) ==>
      -EXACT_INTEGER_MAX <= IntegerOf(decimal(v.x)) <= EXACT_INTEGER_MAX && AInt(IntegerOf(decimal(v.x))) !in vs
  }

  predicate PortableAttribute(decimal: FloatDecimal, a: Attribute) {
    a.allowed.Some? ==> PortableValues(decimal, a.allowed.value)
  }

  predicate PortableEntity(decimal: FloatDecimal, e: EntityDef) {
    forall a :: a in e.attributes ==> PortableAttribute(decimal, a)
  }

  predicate PortableManifest(decimal: FloatDecimal, m: Manifest) {
    forall e :: e in m.entities ==> PortableEntity(decimal, e)
  }

  lemma {:induction false} TransferredValue(near: Rounding, decimal: FloatDecimal, v: AllowedValue)
    requires FloatsFit(near, decimal, [v])
    ensures NumberOfAllowed(TransferredAllowed(decimal, v)) == NumberOfAllowed(v)
    ensures TransferredAllowed(decimal, v).AText? <==> v.AText?
    ensures v.AText? ==> TransferredAllowed(decimal, v) == v
  {
    assert v in [v];
    if v.AFloat? && Integral(decimal(v.x)) {
      IntegerOfValue(decimal(v.x));
    }
  }

  lemma {:induction false} FitsAgain(decimal: FloatDecimal, vs: seq<AllowedValue>, ty: LogicalType, v: AllowedValue)
    requires AllowedFits(v, ty)
    ensures AllowedFits(TransferredAllowed(decimal, v), ty) <==>
              (v.AFloat? && Integral(decimal(v.x)) ==>
                 -EXACT_INTEGER_MAX <= IntegerOf(decimal(v.x)) <= EXACT_INTEGER_MAX)
  {
  }

  /** Different members become equal only where a float becomes a member of its own value. */
  lemma {:induction false} SameTransferred(near: Rounding, decimal: FloatDecimal, v: AllowedValue, w: AllowedValue)
    requires FloatsFit(near, decimal, [v]) && FloatsFit(near, decimal, [w]) && v != w
    ensures TransferredAllowed(decimal, v) == TransferredAllowed(decimal, w) <==>
              || (v.AFloat? && Integral(decimal(v.x)) && w == AInt(IntegerOf(decimal(v.x))))
              || (w.AFloat? && Integral(decimal(w.x)) && v == AInt(IntegerOf(decimal(w.x))))
  {
    TransferredValue(near, decimal, v);
    TransferredValue(near, decimal, w);
  }

  lemma {:induction false} OneFits(near: Rounding, decimal: FloatDecimal, vs: seq<AllowedValue>, v: AllowedValue)
    requires FloatsFit(near, decimal, vs) && v in vs
    ensures FloatsFit(near, decimal, [v])
  {
  }

  /** A valid enumeration is valid again exactly when it is portable. */
  lemma {:induction false} ValuesTransfer(near: Rounding, decimal: FloatDecimal, vs: seq<AllowedValue>, ty: LogicalType)
    requires ValidAllowed(vs, ty) && FloatsFit(near, decimal, vs)
    ensures ValidAllowed(TransferredValues(decimal, vs), ty) <==> PortableValues(decimal, vs)
  {
    hide Integral, IntegerOf, FloatsFit, AllowedFits, TransferredAllowed;
    var ts := TransferredValues(decimal, vs);
    if PortableValues(decimal, vs) {
      forall t | t in ts ensures AllowedFits(t, ty) {
        var i :| 0 <= i < |ts| && ts[i] == t;
        assert vs[i] in vs;
        FitsAgain(decimal, vs, ty, vs[i]);
      }
      forall i, j | 0 <= i < j < |vs| ensures ts[i] != ts[j] {
        assert vs[i] in vs && vs[j] in vs;
        OneFits(near, decimal, vs, vs[i]);
        OneFits(near, decimal, vs, vs[j]);
        SameTransferred(near, decimal, vs[i], vs[j]);
      }
    }
    if ValidAllowed(ts, ty) {
      forall v | v in vs && v.AFloat? && Integral(decimal(v.x))
        ensures -EXACT_INTEGER_MAX <= IntegerOf(decimal(v.x)) <= EXACT_INTEGER_MAX
                && AInt(IntegerOf(decimal(v.x))) !in vs
      {
        var i :| 0 <= i < |vs| && vs[i] == v;
        assert ts[i] in ts;
        FitsAgain(decimal, vs, ty, v);
        forall j | 0 <= j < |vs| ensures vs[j] != AInt(IntegerOf(decimal(v.x))) {
          OneFits(near, decimal, vs, vs[i]);
          OneFits(near, decimal, vs, vs[j]);
          if i != j {
            assert vs[i] != vs[j] && ts[i] != ts[j];
            SameTransferred(near, decimal, vs[i], vs[j]);
          }
        }
      }
    }
  }

  // ----- manifests -----

  lemma {:induction false} AttributeTransfers(near: Rounding, decimal: FloatDecimal, a: Attribute)
    requires ValidAttribute(a) && AttributeFloatsFit(near, decimal, a)
    ensures ValidAttribute(TransferredAttribute(decimal, a)) <==> PortableAttribute(decimal, a)
  {
    hide ValidAllowed, PortableValues, FloatsFit, IsIdentifier;
    if a.allowed.Some? {
      ValuesTransfer(near, decimal, a.allowed.value, a.ty);
    }
  }

  function TransferredIf(decimal: FloatDecimal, a: Option<Attribute>): Option<Attribute> {
    match a
    case None => None
    case Some(x) => Some(TransferredAttribute(decimal, x))
  }

  lemma {:induction false} FindTransferred(decimal: FloatDecimal, s: seq<Attribute>, name: Name)
    ensures Find(AttributeName, TransferredAttributes(decimal, s), name) == TransferredIf(decimal, Find(AttributeName, s, name))
  {
    hide TransferredValues;
    if s != [] {
      FindTransferred(decimal, s[1..], name);
      assert TransferredAttributes(decimal, s)[1..] == TransferredAttributes(decimal, s[1..]);
    }
  }

  lemma {:induction false} FindTransferredEntity(decimal: FloatDecimal, s: seq<EntityDef>, name: Name)
    ensures Find(EntityName, TransferredEntities(decimal, s), name)
         == match Find(EntityName, s, name)
            case None => None
            case Some(e) => Some(TransferredEntity(decimal, e))
  {
    hide TransferredAttributes;
    if s != [] {
      FindTransferredEntity(decimal, s[1..], name);
      assert TransferredEntities(decimal, s)[1..] == TransferredEntities(decimal, s[1..]);
    }
  }

  lemma {:induction false} AttributeOfTransferred(decimal: FloatDecimal, m: Manifest, entity: Name, field: Name)
    ensures AttributeOf(TransferredManifest(decimal, m), entity, field)
         == TransferredIf(decimal, AttributeOf(m, entity, field))
  {
    hide Find, TransferredEntities, TransferredAttributes, TransferredAttribute;
    FindTransferredEntity(decimal, m.entities, entity);
    if Find(EntityName, m.entities, entity).Some? {
      FindTransferred(decimal, Find(EntityName, m.entities, entity).value.attributes, field);
    }
  }

  lemma {:induction false} ServerFieldsTransfer(decimal: FloatDecimal, s: seq<Attribute>)
    requires DeclaresServerFields(s)
    ensures DeclaresServerFields(TransferredAttributes(decimal, s))
  {
    hide Find, SERVER_FIELDS, ServerManaged, TransferredValues;
    forall n | n in SERVER_FIELDS
      ensures Find(AttributeName, TransferredAttributes(decimal, s), n) == Find(AttributeName, s, n)
    {
      FindTransferred(decimal, s, n);
    }
  }

  lemma {:induction false} EntityTransfers(near: Rounding, decimal: FloatDecimal, e: EntityDef)
    requires ValidEntity(e) && EntityFloatsFit(near, decimal, e)
    ensures ValidEntity(TransferredEntity(decimal, e)) <==> PortableEntity(decimal, e)
  {
    hide ValidAttribute, AttributeFloatsFit, PortableAttribute, IsIdentifier, DeclaresServerFields, ID,
         TransferredValues;
    var before, after := e.attributes, TransferredAttributes(decimal, e.attributes);
    forall a | a in before ensures ValidAttribute(TransferredAttribute(decimal, a)) <==> PortableAttribute(decimal, a) {
      AttributeTransfers(near, decimal, a);
    }
    assert forall i :: 0 <= i < |before| ==> before[i] in before && after[i] in after;
    ServerFieldsTransfer(decimal, before);
    assert DistinctAttributes(after);
    if PortableEntity(decimal, e) {
      forall a | a in after ensures ValidAttribute(a) && (a.primaryKey ==> a.name == ID) {
        var i :| 0 <= i < |after| && after[i] == a;
      }
    }
    if ValidEntity(TransferredEntity(decimal, e)) {
      forall a | a in before ensures PortableAttribute(decimal, a) {
        var i :| 0 <= i < |before| && before[i] == a;
      }
    }
  }

  lemma {:induction false} RelationshipTransfers(decimal: FloatDecimal, m: Manifest, r: Relationship)
    ensures ValidRelationship(TransferredManifest(decimal, m), r) <==> ValidRelationship(m, r)
    ensures RequiredSource(TransferredManifest(decimal, m), r) <==> RequiredSource(m, r)
  {
    hide AttributeOf, TransferredManifest, SERVER_FIELDS, ID, IsIdentifier, TransferredValues;
    AttributeOfTransferred(decimal, m, r.source.entity, r.source.field);
    AttributeOfTransferred(decimal, m, r.target.entity, ID);
  }

  lemma {:induction false} IndexTransfers(decimal: FloatDecimal, m: Manifest, x: Index)
    ensures ValidIndex(TransferredManifest(decimal, m), x) <==> ValidIndex(m, x)
  {
    hide AttributeOf, TransferredManifest, IsIdentifier, TransferredValues;
    forall f ensures AttributeOf(TransferredManifest(decimal, m), x.entity, f)
                  == TransferredIf(decimal, AttributeOf(m, x.entity, f)) {
      AttributeOfTransferred(decimal, m, x.entity, f);
    }
  }

  lemma {:induction false} EdgesTransfer(decimal: FloatDecimal, m: Manifest)
    ensures RequiredEdges(TransferredManifest(decimal, m)) == RequiredEdges(m)
  {
    hide RequiredSource;
    forall r ensures RequiredSource(TransferredManifest(decimal, m), r) <==> RequiredSource(m, r) {
      RelationshipTransfers(decimal, m, r);
    }
  }

  /** A valid manifest passes its checks again after export and import exactly when every
      enumeration in it is portable. */
  lemma {:induction false} ManifestTransfers(near: Rounding, decimal: FloatDecimal, m: Manifest)
    requires ValidManifest(m) && ManifestFloatsFit(near, decimal, m)
    ensures ValidManifest(TransferredManifest(decimal, m)) <==> PortableManifest(decimal, m)
  {
    hide ValidEntity, ValidIndex, ValidRelationship, EntityFloatsFit, PortableEntity, HasCycle, Adjacency,
         RequiredEdges, TransferredAttributes, SQLITE;
    var t := TransferredManifest(decimal, m);
    EdgesTransfer(decimal, m);
    forall r ensures ValidRelationship(t, r) <==> ValidRelationship(m, r) {
      RelationshipTransfers(decimal, m, r);
    }
    forall x ensures ValidIndex(t, x) <==> ValidIndex(m, x) {
      IndexTransfers(decimal, m, x);
    }
    forall e | e in m.entities ensures ValidEntity(TransferredEntity(decimal, e)) <==> PortableEntity(decimal, e) {
      EntityTransfers(near, decimal, e);
    }
    assert forall i :: 0 <= i < |m.entities| ==> m.entities[i] in m.entities && t.entities[i] in t.entities;
    forall e | e in t.entities ensures exists d :: d in m.entities && e == TransferredEntity(decimal, d) {
      var i :| 0 <= i < |t.entities| && t.entities[i] == e;
      assert m.entities[i] in m.entities && e == TransferredEntity(decimal, m.entities[i]);
    }
    forall e | e in m.entities ensures TransferredEntity(decimal, e) in t.entities {
      var i :| 0 <= i < |m.entities| && m.entities[i] == e;
      assert t.entities[i] in t.entities;
    }
  }

  /** Writing a valid manifest and reading it back: the manifest with its whole floats as
      integers, or a refusal, and a refusal exactly when some enumeration is not portable. */
  lemma {:induction false} ManifestReadBack(near: Rounding, decimal: FloatDecimal, m: Manifest)
    requires ValidManifest(m) && ManifestFloatsFit(near, decimal, m)
    ensures LoadManifest(Canon(ManifestJson(decimal, m)))
         == if PortableManifest(decimal, m) then Some(TransferredManifest(decimal, m)) else None
  {
    hide ParseManifest, ManifestJson, ValidManifest, PortableManifest, TransferredManifest, ManifestFloatsFit, Canon;
    ParsedBack(near, decimal, m);
    ManifestTransfers(near, decimal, m);
  }

  /** It comes back as itself exactly when no float in an enumeration is printed as an integer. */
  lemma {:induction false} ManifestUnchanged(decimal: FloatDecimal, m: Manifest)
    ensures TransferredManifest(decimal, m) == m <==>
              forall e, a, v :: e in m.entities && a in e.attributes && a.allowed.Some? && v in a.allowed.value && v.AFloat?
                ==> !Integral(decimal(v.x))
  {
    hide Integral, IntegerOf;
    var t := TransferredManifest(decimal, m);
    if t == m {
      forall e, a, v | e in m.entities && a in e.attributes && a.allowed.Some? && v in a.allowed.value && v.AFloat?
        ensures !Integral(decimal(v.x))
      {
        var i :| 0 <= i < |m.entities| && m.entities[i] == e;
        assert t.entities[i] == TransferredEntity(decimal, e) == e;
        var j :| 0 <= j < |e.attributes| && e.attributes[j] == a;
        assert TransferredAttributes(decimal, e.attributes)[j] == TransferredAttribute(decimal, a) == a;
        var k :| 0 <= k < |a.allowed.value| && a.allowed.value[k] == v;
        assert TransferredValues(decimal, a.allowed.value)[k] == TransferredAllowed(decimal, v) == v;
      }
    } else {
      ChangedSomewhere(decimal, m);
    }
  }

  lemma {:induction false} ChangedSomewhere(decimal: FloatDecimal, m: Manifest)
    requires TransferredManifest(decimal, m) != m
    ensures exists e, a, v :: e in m.entities && a in e.attributes && a.allowed.Some? && v in a.allowed.value && v.AFloat?
              && Integral(decimal(v.x))
  {
    hide Integral, IntegerOf;
    assert TransferredEntities(decimal, m.entities) != m.entities;
    var i :| 0 <= i < |m.entities| && TransferredEntity(decimal, m.entities[i]) != m.entities[i];
    var e := m.entities[i];
    assert e in m.entities && TransferredAttributes(decimal, e.attributes) != e.attributes;
    var j :| 0 <= j < |e.attributes| && TransferredAttribute(decimal, e.attributes[j]) != e.attributes[j];
    var a := e.attributes[j];
    assert a in e.attributes && a.allowed.Some? && TransferredValues(decimal, a.allowed.value) != a.allowed.value;
    var k :| 0 <= k < |a.allowed.value| && TransferredAllowed(decimal, a.allowed.value[k]) != a.allowed.value[k];
    assert a.allowed.value[k] in a.allowed.value;
  }

  // ----- the same records, the same stores -----

  lemma {:induction false} MatchesTransferred(near: Rounding, decimal: FloatDecimal, vs: seq<AllowedValue>, ty: LogicalType,
                                              v: Raw)
    requires FloatsFit(near, decimal, vs)
    ensures MatchesEnumeration(v, ty, TransferredValues(decimal, vs)) <==> MatchesEnumeration(v, ty, vs)
  {
    hide NumberOf, NumberOfAllowed, TransferredAllowed, FloatsFit;
    forall x ensures OneOf(x, TransferredValues(decimal, vs)) <==> OneOf(x, vs) {
      OneOfTransferred(near, decimal, vs, x);
    }
  }

  lemma {:induction false} OneOfTransferred(near: Rounding, decimal: FloatDecimal, vs: seq<AllowedValue>, x: Raw)
    requires FloatsFit(near, decimal, vs)
    ensures OneOf(x, TransferredValues(decimal, vs)) <==> OneOf(x, vs)
  {
    hide NumberOf, NumberOfAllowed, TransferredAllowed, FloatsFit;
    var ts := TransferredValues(decimal, vs);
    forall i | 0 <= i < |vs| ensures SameValue(x, ts[i]) <==> SameValue(x, vs[i]) {
      assert vs[i] in vs;
      OneFits(near, decimal, vs, vs[i]);
      TransferredValue(near, decimal, vs[i]);
    }
    if OneOf(x, ts) {
      var t :| t in ts && SameValue(x, t);
      var i :| 0 <= i < |ts| && ts[i] == t;
      assert vs[i] in vs;
    }
    if OneOf(x, vs) {
      var v :| v in vs && SameValue(x, v);
      var i :| 0 <= i < |vs| && vs[i] == v;
      assert ts[i] in ts;
    }
  }

  lemma {:induction false} AcceptsTransferred(near: Rounding, decimal: FloatDecimal, f: Formats, a: Attribute, v: Raw)
    requires AttributeFloatsFit(near, decimal, a)
    ensures Accepts(f, TransferredAttribute(decimal, a), v) <==> Accepts(f, a, v)
  {
    hide MatchesType, MatchesEnumeration, FloatsFit, TransferredValues;
    if a.allowed.Some? {
      MatchesTransferred(near, decimal, a.allowed.value, a.ty, v);
    }
  }

  lemma {:induction false} DomainTransferred(near: Rounding, decimal: FloatDecimal, m: Manifest, entity: Name, name: Name)
    requires ManifestFloatsFit(near, decimal, m)
    ensures DomainAttribute(TransferredManifest(decimal, m), entity, name)
         == TransferredIf(decimal, DomainAttribute(m, entity, name))
    ensures DomainAttribute(m, entity, name).Some? ==>
              AttributeFloatsFit(near, decimal, DomainAttribute(m, entity, name).value)
  {
    AttributeOfTransferred(decimal, m, entity, name);
    hide SERVER_FIELDS, Find, TransferredManifest, AttributeFloatsFit;
    FindMember(EntityName, m.entities, entity);
    if Find(EntityName, m.entities, entity).Some? {
      FindMember(AttributeName, Find(EntityName, m.entities, entity).value.attributes, name);
    }
  }

  lemma {:induction false} PairTransferred(near: Rounding, decimal: FloatDecimal, f: Formats, m: Manifest, entity: Name,
                                           p: Pair)
    requires ValidManifest(m) && ValidManifest(TransferredManifest(decimal, m)) && ManifestFloatsFit(near, decimal, m)
    requires RecordFields(CompileRecords(m), entity).Some?
    requires RecordFields(CompileRecords(TransferredManifest(decimal, m)), entity).Some?
    ensures AcceptsNamed(f, RecordFields(CompileRecords(TransferredManifest(decimal, m)), entity).value, p)
       <==> AcceptsNamed(f, RecordFields(CompileRecords(m), entity).value, p)
  {
    hide ValidManifest, CompileRecords, RecordFields, Find, Accepts, DomainAttribute, TransferredManifest,
         TransferredAttribute, ManifestFloatsFit, AttributeFloatsFit;
    var t := TransferredManifest(decimal, m);
    CompiledRecord(m, entity, p.name);
    CompiledRecord(t, entity, p.name);
    DomainTransferred(near, decimal, m, entity, p.name);
    var a := DomainAttribute(m, entity, p.name);
    if a.Some? {
      AcceptsTransferred(near, decimal, f, a.value, p.value);
    }
  }

  /** A required field of one specification is a required field, of the same name, of the other. */
  lemma {:induction false} RequiredTransferred(near: Rounding, decimal: FloatDecimal, m: Manifest, entity: Name, name: Name)
    requires ValidManifest(m) && ValidManifest(TransferredManifest(decimal, m)) && ManifestFloatsFit(near, decimal, m)
    requires RecordFields(CompileRecords(m), entity).Some?
    requires RecordFields(CompileRecords(TransferredManifest(decimal, m)), entity).Some?
    ensures RequiredIn(RecordFields(CompileRecords(TransferredManifest(decimal, m)), entity).value, name)
       <==> RequiredIn(RecordFields(CompileRecords(m), entity).value, name)
  {
    hide ValidManifest, CompileRecords, RecordFields, Find, DomainAttribute, TransferredManifest, ManifestFloatsFit,
         AttributeFloatsFit, RequiredIn, TransferredValues;
    var t := TransferredManifest(decimal, m);
    CompiledRecord(m, entity, name);
    CompiledRecord(t, entity, name);
    DomainTransferred(near, decimal, m, entity, name);
    RequiredFound(RecordFields(CompileRecords(m), entity).value, name);
    RequiredFound(RecordFields(CompileRecords(t), entity).value, name);
  }

  predicate RequiredIn(fields: seq<Attribute>, name: Name) {
    exists a :: a in fields && a.required && a.name == name
  }

  lemma {:induction false} RequiredFound(fields: seq<Attribute>, name: Name)
    requires DistinctKeys(AttributeName, fields)
    ensures RequiredIn(fields, name) <==>
              Find(AttributeName, fields, name).Some? && Find(AttributeName, fields, name).value.required
  {
    FindMember(AttributeName, fields, name);
    if RequiredIn(fields, name) {
      var a :| a in fields && a.required && a.name == name;
      FindIff(AttributeName, fields, a);
    }
  }

  /** Both manifests accept the same records, as the same values. */
  lemma {:induction false} RecordsTransferred(near: Rounding, decimal: FloatDecimal, f: Formats, m: Manifest, entity: Name,
                                              record: seq<Pair>)
    requires ValidManifest(m) && ValidManifest(TransferredManifest(decimal, m)) && ManifestFloatsFit(near, decimal, m)
    ensures ValidateCreate(f, CompileRecords(TransferredManifest(decimal, m)), entity, record)
         == ValidateCreate(f, CompileRecords(m), entity, record)
    ensures Find(EntityName, CompileRecords(TransferredManifest(decimal, m)).entities, entity).Some?
       <==> Find(EntityName, CompileRecords(m).entities, entity).Some?
  {
    hide ValidManifest, CompileRecords, Find, DomainFields, AcceptsNamed, FreezeRecord, DomainAttribute, Provided,
         TransferredManifest, TransferredEntity, ManifestFloatsFit, RequiredIn;
    var t := TransferredManifest(decimal, m);
    CompiledRecord(m, entity, []);
    CompiledRecord(t, entity, []);
    EntitiesTransferred(decimal, m, entity);
    if RecordFields(CompileRecords(m), entity).Some? {
      var before, after := RecordFields(CompileRecords(m), entity).value, RecordFields(CompileRecords(t), entity).value;
      forall p ensures AcceptsNamed(f, after, p) <==> AcceptsNamed(f, before, p) {
        PairTransferred(near, decimal, f, m, entity, p);
      }
      forall name ensures RequiredIn(after, name) <==> RequiredIn(before, name) {
        RequiredTransferred(near, decimal, m, entity, name);
      }
      MissingIff(before, record);
      MissingIff(after, record);
    }
  }

  lemma {:induction false} EntitiesTransferred(decimal: FloatDecimal, m: Manifest, entity: Name)
    ensures Find(EntityName, TransferredManifest(decimal, m).entities, entity).Some?
       <==> Find(EntityName, m.entities, entity).Some?
  {
    hide TransferredEntity;
    FindTransferredEntity(decimal, m.entities, entity);
  }

  lemma {:induction false} MissingIff(fields: seq<Attribute>, record: seq<Pair>)
    ensures (exists a :: a in fields && a.required && !Provided(record, a.name)) <==>
            exists name :: RequiredIn(fields, name) && !Provided(record, name)
  {
    hide Provided;
    if exists a :: a in fields && a.required && !Provided(record, a.name) {
      var a :| a in fields && a.required && !Provided(record, a.name);
      assert RequiredIn(fields, a.name);
    }
  }

  /** A store is well formed under one exactly when it is under the other. */
  lemma {:induction false} StoreTransferred(near: Rounding, decimal: FloatDecimal, f: Formats, m: Manifest, s: seq<Member>)
    requires ValidManifest(m) && ValidManifest(TransferredManifest(decimal, m)) && ManifestFloatsFit(near, decimal, m)
    ensures PortableStore.WellFormed(f, CompileRecords(TransferredManifest(decimal, m)), s)
       <==> PortableStore.WellFormed(f, CompileRecords(m), s)
  {
    hide ValidManifest, CompileRecords, ValidateCreate, EventFits, RecordFits, Forest, MembershipsFit, Find,
         TransferredManifest, ManifestFloatsFit;
    var t := TransferredManifest(decimal, m);
    forall x | x in s ensures MemberFits(f, CompileRecords(t), x) <==> MemberFits(f, CompileRecords(m), x) {
      match x {
        case Record(entity, _, _, _, _, _, fields) =>
          RecordsTransferred(near, decimal, f, m, entity, ThawEntries(fields));
        case History(entity, _, _, _, _, before, after) =>
          RecordsTransferred(near, decimal, f, m, entity, []);
          if before.Some? {
            RecordsTransferred(near, decimal, f, m, entity, ThawEntries(before.value));
          }
          if after.Some? {
            RecordsTransferred(near, decimal, f, m, entity, ThawEntries(after.value));
          }
        case _ =>
      }
    }
  }

  // ----- manifests that are lost or changed -----

  function Enumerated(vs: seq<AllowedValue>): Attribute {
    Attribute(SHORT, NumberType, false, false, None, Some(vs), None)
  }

  /** Every decimal is a binary64 value, and this one stands for the float at hand. */
  function Exactly(d: Decimal): Option<Shortest> {
    if Normal(d) then Some(d) else None
  }

  function One(x: real): Shortest {
    Decimal(false, [1], 0)
  }

  function Large(x: real): Shortest {
    Decimal(false, [1], 17)
  }

  /** Of the fields of the sample only its own has an enumeration. */
  lemma {:induction false} SampleAttributes(own: Attribute)
    ensures own in SampleEntity(own).attributes
    ensures forall a :: a in SampleEntity(own).attributes ==> a == own || a.allowed.None?
  {
    hide ID, OWNER_ID, CREATED_AT, UPDATED_AT, CREATED_VIA, RECORD_VERSION;
    var all := SampleEntity(own).attributes;
    assert all[6] == own;
    forall a | a in all ensures a == own || a.allowed.None? {
      var i :| 0 <= i < 7 && all[i] == a;
    }
  }

  lemma {:induction false} SampleFits(decimal: FloatDecimal, vs: seq<AllowedValue>)
    requires ValidAllowed(vs, NumberType) && FloatsFit(Exactly, decimal, vs)
    ensures ValidManifest(Sample(Enumerated(vs))) && ManifestFloatsFit(Exactly, decimal, Sample(Enumerated(vs)))
    ensures PortableManifest(decimal, Sample(Enumerated(vs))) <==> PortableValues(decimal, vs)
  {
    hide ValidAllowed, FloatsFit, PortableValues, ValidManifest, SampleEntity, IsIdentifier;
    var own := Enumerated(vs);
    ShortName();
    assert own.ty == NumberType && ValidAttribute(own);
    SampleValid(own);
    SampleAttributes(own);
    var m := Sample(own);
    assert m.entities == [SampleEntity(own)] && m.entities[0] in m.entities;
  }

  lemma {:induction false} ShortName()
    ensures IsIdentifier(SHORT)
  {
  }

  lemma {:induction false} OneIsOne()
    ensures Integral(One(1.0)) && IntegerOf(One(1.0)) == 1 && DecimalValue(One(1.0)) == 1.0
  {
    PowerOfTen(0);
    IntegerOfValue(One(1.0));
  }

  /** Two valid manifests that are refused on import: the members 1 and 1.0 become the same,
      and 10^17 becomes an integer beyond 2^53. */
  lemma {:induction false} EnumerationIsRefused()
    ensures var m := Sample(Enumerated([AInt(1), AFloat(1.0)]));
            ValidManifest(m) && ManifestFloatsFit(Exactly, One, m) && LoadManifest(Canon(ManifestJson(One, m))) == None
    ensures var m := Sample(Enumerated([AFloat(100_000_000_000_000_000.0)]));
            ValidManifest(m) && ManifestFloatsFit(Exactly, Large, m) && LoadManifest(Canon(ManifestJson(Large, m))) == None
  {
    hide ValidManifest, ManifestFloatsFit, PortableManifest, LoadManifest, ManifestJson, Canon, Sample, Integral,
         IntegerOf, DecimalValue, Ten;
    OneIsOne();
    var vs := [AInt(1), AFloat(1.0)];
    assert vs[0] in vs && vs[1] in vs;
    assert FloatsFit(Exactly, One, vs) && !PortableValues(One, vs);
    SampleFits(One, vs);
    ManifestReadBack(Exactly, One, Sample(Enumerated(vs)));
    PowerOfTen(17);
    LargeTens();
    var x := 100_000_000_000_000_000.0;
    IntegerOfValue(Large(x));
    var ws := [AFloat(x)];
    assert ws[0] in ws;
    assert FloatsFit(Exactly, Large, ws) && !PortableValues(Large, ws);
    SampleFits(Large, ws);
    ManifestReadBack(Exactly, Large, Sample(Enumerated(ws)));
  }

  /** And one that comes back as another manifest: 1.0 alone becomes the integer 1. */
  lemma {:induction false} EnumerationIsChanged()
    ensures var m := Sample(Enumerated([AFloat(1.0)]));
            && ValidManifest(m) && ManifestFloatsFit(Exactly, One, m) && TransferredManifest(One, m) != m
            && LoadManifest(Canon(ManifestJson(One, m))) == Some(TransferredManifest(One, m))
  {
    hide ValidManifest, ManifestFloatsFit, PortableManifest, LoadManifest, ManifestJson, Canon, Integral, IntegerOf,
         DecimalValue;
    OneIsOne();
    var vs := [AFloat(1.0)];
    assert vs[0] in vs;
    assert FloatsFit(Exactly, One, vs) && PortableValues(One, vs);
    SampleFits(One, vs);
    var m := Sample(Enumerated(vs));
    ManifestReadBack(Exactly, One, m);
    assert m.entities[0] in m.entities && m.entities[0].attributes[6] in m.entities[0].attributes;
    assert m.entities[0].attributes[6].allowed == Some(vs);
    ManifestUnchanged(One, m);
  }
}
