/** The smallest valid manifest: one entity with the server-managed fields and one more. */
module SampleManifest {
  import opened Ordering
  import opened Text
  import opened Cycles
  import opened Manifest

  /** The name of the entity and of its own field. */
  const SHORT: Name := [SMALL_E]

  function Managed(name: Name, ty: LogicalType, key: bool): Attribute {
    Attribute(name, ty, true, key, None, None, None)
  }

  const MANAGED: seq<Attribute> :=
    [Managed(ID, UuidType, true), Managed(OWNER_ID, StringType, false), Managed(CREATED_AT, DatetimeType, false),
     Managed(UPDATED_AT, DatetimeType, false), Managed(CREATED_VIA, StringType, false),
     Managed(RECORD_VERSION, IntegerType, false)]

  function SampleEntity(own: Attribute): EntityDef {
    EntityDef(SHORT, MANAGED + [own], None)
  }

  function Sample(own: Attribute): Manifest {
    Manifest(1, [SampleEntity(own)], [], [], [], [], None, [])
  }

  lemma {:induction false} ManagedNames()
    ensures ID != OWNER_ID && ID != CREATED_AT && ID != UPDATED_AT && ID != CREATED_VIA && ID != RECORD_VERSION
    ensures OWNER_ID != CREATED_AT && OWNER_ID != UPDATED_AT && OWNER_ID != CREATED_VIA && OWNER_ID != RECORD_VERSION
    ensures CREATED_AT != UPDATED_AT && CREATED_AT != CREATED_VIA && CREATED_AT != RECORD_VERSION
    ensures UPDATED_AT != CREATED_VIA && UPDATED_AT != RECORD_VERSION && CREATED_VIA != RECORD_VERSION
    ensures SHORT !in SERVER_FIELDS
  {
    assert |ID| == 2 && |OWNER_ID| == 8 && |CREATED_AT| == 10 && |UPDATED_AT| == 10 && |CREATED_VIA| == 11
        && |RECORD_VERSION| == 14;
    assert CREATED_AT[0] == 'c' as int && UPDATED_AT[0] == 'u' as int;
  }

  lemma {:induction false} ManagedIdentifiers()
    ensures IsIdentifier(ID) && IsIdentifier(OWNER_ID) && IsIdentifier(CREATED_AT) && IsIdentifier(UPDATED_AT)
    ensures IsIdentifier(CREATED_VIA) && IsIdentifier(RECORD_VERSION) && IsIdentifier(SHORT)
    ensures !(SQLITE <= SHORT)
  {
    assert |SQLITE| == 7;
  }

  lemma {:induction false} ManagedFound(own: Attribute, i: nat)
    requires own.name == SHORT && i < 6
    ensures Find(AttributeName, MANAGED + [own], MANAGED[i].name) == Some(MANAGED[i])
    ensures Find(AttributeName, MANAGED + [own], SHORT) == Some(own)
    ensures DistinctAttributes(MANAGED + [own])
  {
    ManagedNames();
    hide ID, OWNER_ID, CREATED_AT, UPDATED_AT, CREATED_VIA, RECORD_VERSION, Find;
    var all := MANAGED + [own];
    assert SHORT !in {ID, OWNER_ID, CREATED_AT, UPDATED_AT, CREATED_VIA, RECORD_VERSION};
    assert DistinctAttributes(all);
    assert all[i] == MANAGED[i] && all[6] == own;
    FindAt(AttributeName, all, i);
    FindAt(AttributeName, all, 6);
  }

  /** With any valid field of its own it is a valid manifest. */
  lemma {:induction false} SampleValid(own: Attribute)
    requires own.name == SHORT && ValidAttribute(own) && !own.primaryKey
    ensures ValidManifest(Sample(own))
  {
    SampleEntityValid(own);
    var m := Sample(own);
    NoEdges(m);
    ManagedIdentifiers();
    hide ID, OWNER_ID, CREATED_AT, UPDATED_AT, CREATED_VIA, RECORD_VERSION, MANAGED, SERVER_FIELDS, SQLITE, SHORT,
         HasCycle, Adjacency, RequiredEdges, ValidEntity, ValidIndex, ValidRelationship, ValidAttribute, IsIdentifier,
         SampleEntity;
    assert m.entities == [SampleEntity(own)];
    NamedShort(own);
  }

  lemma {:induction false} NamedShort(own: Attribute)
    ensures SampleEntity(own).name == SHORT
  {
  }

  lemma {:induction false} SampleEntityValid(own: Attribute)
    requires own.name == SHORT && ValidAttribute(own) && !own.primaryKey
    ensures ValidEntity(SampleEntity(own))
  {
    ManagedNames();
    ManagedIdentifiers();
    forall i: nat | i < 6 ensures Find(AttributeName, MANAGED + [own], MANAGED[i].name) == Some(MANAGED[i]) {
      ManagedFound(own, i);
    }
    ManagedFound(own, 0);
    hide ID, OWNER_ID, CREATED_AT, UPDATED_AT, CREATED_VIA, RECORD_VERSION, Find, IsIdentifier;
    assert MANAGED[0].name == ID && MANAGED[1].name == OWNER_ID && MANAGED[2].name == CREATED_AT
        && MANAGED[3].name == UPDATED_AT && MANAGED[4].name == CREATED_VIA && MANAGED[5].name == RECORD_VERSION;
  }

  lemma {:induction false} NoEdges(m: Manifest)
    requires m.relationships == []
    ensures !HasCycle(Adjacency(RequiredEdges(m)))
  {
    assert RequiredEdges(m) == {};
    OrderedIsAcyclic(Adjacency(RequiredEdges(m)), []);
  }
}
