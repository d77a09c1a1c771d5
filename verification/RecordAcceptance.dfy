/** Which records a manifest accepts, told from its attributes. */
module RecordAcceptance {
  import opened Ordering
  import opened Text
  import opened CanonicalJson
  import opened Manifest
  import opened Relational
  import opened Records

  /** A text without surrogates that is not too long. */
  predicate TextFits(v: Raw) {
    v.RText? ==> Scalar(v.s) && |Utf8(v.s)| <= MAX_STRING_BYTES
  }

  /** The texts of a value can be frozen. */
  predicate TextsFit(v: Raw) {
    TextFits(v) && (v.RList? ==> forall x :: x in v.items ==> TextFits(x))
  }

  /** A field of the manifest that is not the server's, with a value it takes. */
  predicate FieldFits(f: Formats, m: Manifest, entity: Name, p: Pair) {
    && p.name !in SERVER_FIELDS
    && match AttributeOf(m, entity, p.name)
       case None => false
       case Some(a) => Accepts(f, a, p.value) && TextsFit(p.value)
  }

  /** Every field that a record must have is there. */
  ghost predicate Complete(e: EntityDef, record: seq<Pair>) {
    forall a :: a in e.attributes && a.required && a.name !in SERVER_FIELDS ==> Provided(record, a.name)
  }

  /** The entries a record freezes to, in the order of their names. */
  function FrozenEntries(f: Formats, record: seq<Pair>): seq<Entry> {
    SortBy(EntryName, FreezeFieldPairs(f, record).GetOr([]))
  }

  // ----- what freezes -----

  lemma {:induction false} TextFreezes(f: Formats, v: Raw)
    requires v.RText?
    ensures FreezeField(f, v).Some? <==> TextFits(v)
  {
  }

  lemma {:induction false} TextItemsFreeze(f: Formats, items: seq<Raw>)
    requires forall x :: x in items ==> x.RText?
    ensures FreezeFieldItems(f, items).Some?
       <==> forall x :: x in items ==> TextFits(x)
  {
    hide Scalar, Utf8, TextFits, FreezeField;
    if items != [] {
      assert forall x :: x in items <==> x == items[0] || x in items[1..];
      TextFreezes(f, items[0]);
      TextItemsFreeze(f, items[1..]);
    }
  }

  /** A value that an attribute takes freezes exactly when its texts fit. */
  lemma {:induction false} AcceptedFreezes(f: Formats, a: Attribute, v: Raw)
    requires Accepts(f, a, v)
    ensures FreezeField(f, v).Some? <==> TextsFit(v)
  {
    hide Scalar, Utf8, MatchesEnumeration, NoRepeats;
    if v.RList? {
      assert forall x :: x in v.items ==> ListItem(x);
      TextItemsFreeze(f, v.items);
    }
  }

  predicate PairFreezes(f: Formats, p: Pair) {
    p.name != [] && 0 !in p.name && FreezeField(f, p.value).Some?
  }

  lemma {:induction false} PairsFreeze(f: Formats, pairs: seq<Pair>)
    ensures FreezeFieldPairs(f, pairs).Some? <==> forall p :: p in pairs ==> PairFreezes(f, p)
    ensures FreezeFieldPairs(f, pairs).Some? ==>
              var r := FreezeFieldPairs(f, pairs).value;
              |r| == |pairs|
              && forall i :: 0 <= i < |pairs| ==> r[i].name == pairs[i].name && FreezeField(f, pairs[i].value) == Some(r[i].value)
    decreases pairs
  {
    hide FreezeField;
    if pairs != [] {
      assert forall p :: p in pairs <==> p == pairs[0] || p in pairs[1..];
      assert pairs[0] in pairs;
      PairsFreeze(f, pairs[1..]);
      assert forall i :: 1 <= i < |pairs| ==> pairs[i] == pairs[1..][i - 1];
    }
  }

  /** A record whose names differ freezes when its values do and the object is small enough. */
  lemma {:induction false} RecordFreezes(f: Formats, record: seq<Pair>)
    requires UniquePairs(record)
    ensures FreezeRecord(f, record).Some?
       <==> (forall p :: p in record ==> PairFreezes(f, p)) && f.size(FrozenEntries(f, record)) <= MAX_RECORD_JSON_BYTES
    ensures FreezeRecord(f, record).Some? ==> FreezeRecord(f, record).value == FrozenEntries(f, record)
  {
    hide PairFreezes, FreezeField, FreezeFieldPairs, SortBy;
    PairsFreeze(f, record);
    if FreezeFieldPairs(f, record).Some? {
      var entries := FreezeFieldPairs(f, record).value;
      DistinctSort(EntryName, entries);
      assert UniqueNames(SortBy(EntryName, entries));
    }
  }

  lemma {:induction false} IdentifierNamed(s: Name)
    requires IsIdentifier(s)
    ensures s != [] && 0 !in s
  {
  }

  lemma {:induction false} ValidNames(e: EntityDef)
    requires ValidEntity(e)
    ensures forall a :: a in e.attributes ==> IsIdentifier(a.name)
  {
    hide IsIdentifier, DeclaresServerFields, ValidAllowed, DistinctAttributes;
  }

  /** The names of a manifest are not empty and hold no NUL. */
  lemma {:induction false} AttributeNamed(m: Manifest, entity: Name, field: Name)
    requires ValidManifest(m) && AttributeOf(m, entity, field).Some?
    ensures field != [] && 0 !in field
  {
    hide ValidEntity, IsIdentifier, ValidIndex, ValidRelationship, ValidHistory, DistinctEntities,
         DistinctRelationships, DistinctIndices, Find;
    FindMember(EntityName, m.entities, entity);
    var e := Find(EntityName, m.entities, entity).value;
    ValidNames(e);
    FindMember(AttributeName, e.attributes, field);
    IdentifierNamed(field);
  }

  // ----- what is accepted -----

  lemma {:induction false} PairAccepted(f: Formats, m: Manifest, entity: Name, p: Pair)
    requires ValidManifest(m) && Find(EntityName, m.entities, entity).Some?
    ensures RecordFields(CompileRecords(m), entity).Some?
    ensures AcceptsNamed(f, RecordFields(CompileRecords(m), entity).value, p) && PairFreezes(f, p)
       <==> FieldFits(f, m, entity, p)
  {
    hide ValidManifest, CompileRecords, RecordFields, Find, Accepts, AttributeOf, TextsFit, FreezeField,
         SERVER_FIELDS;
    CompiledRecord(m, entity, p.name);
    var a := DomainAttribute(m, entity, p.name);
    if a.Some? {
      AttributeNamed(m, entity, p.name);
      if Accepts(f, a.value, p.value) {
        AcceptedFreezes(f, a.value, p.value);
      }
    }
  }

  lemma {:induction false} CompleteIff(m: Manifest, entity: Name, record: seq<Pair>)
    requires ValidManifest(m) && Find(EntityName, m.entities, entity).Some?
    requires RecordFields(CompileRecords(m), entity).Some?
    ensures (exists a :: a in RecordFields(CompileRecords(m), entity).value && a.required && !Provided(record, a.name))
       <==> !Complete(Find(EntityName, m.entities, entity).value, record)
  {
    DistinctParts(m);
    hide ValidManifest, Provided, SERVER_FIELDS, Find, SortBy;
    var e := Find(EntityName, m.entities, entity).value;
    var sorted := SortBy(AttributeName, e.attributes);
    FindSorted(EntityName, m.entities, entity);
    FindRecordEntity(SortBy(EntityName, m.entities), entity);
    forall a ensures a in DomainFields(sorted) <==> a in e.attributes && a.name !in SERVER_FIELDS {
      DomainMember(sorted, a);
      SortMember(AttributeName, e.attributes, a);
    }
  }

  /** A record, or a partial update, is accepted under a manifest exactly when its entity is
      there, it is not empty if it may not be, every required field is given if it must be,
      every given name is a field of the entity and none of the server's, every value has the
      type of its field and is in its enumeration, and its texts and its size fit. What is
      accepted is the given values, frozen, in the order of their names. */
  lemma {:induction false} AcceptedIff(f: Formats, m: Manifest, entity: Name, record: seq<Pair>,
                                       requireRequired: bool, requireNonempty: bool)
    requires ValidManifest(m) && UniquePairs(record)
    ensures var r := ValidateRecord(f, CompileRecords(m), entity, record, requireRequired, requireNonempty);
            && (r.Some? <==>
                  && Find(EntityName, m.entities, entity).Some?
                  && (requireNonempty ==> record != [])
                  && (requireRequired ==> Complete(Find(EntityName, m.entities, entity).value, record))
                  && (forall p :: p in record ==> FieldFits(f, m, entity, p))
                  && f.size(FrozenEntries(f, record)) <= MAX_RECORD_JSON_BYTES)
            && (r.Some? ==> r.value == FrozenEntries(f, record))
  {
    hide ValidManifest, CompileRecords, Find, DomainFields, AcceptsNamed, FreezeRecord, FieldFits, PairFreezes,
         FrozenEntries, Provided, Complete;
    CompiledRecord(m, entity, []);
    RecordFreezes(f, record);
    if Find(EntityName, m.entities, entity).Some? {
      CompleteIff(m, entity, record);
      forall p | p in record
        ensures AcceptsNamed(f, RecordFields(CompileRecords(m), entity).value, p) && PairFreezes(f, p)
           <==> FieldFits(f, m, entity, p)
      {
        PairAccepted(f, m, entity, p);
      }
    }
  }
}
