/** The service payload, and why member payloads are orderly objects. */
module PayloadService {
  import opened Ordering
  import opened Text
  import opened CanonicalJson
  import opened JsonRoundTrip
  import opened Manifest
  import opened Records
  import opened PortableStore
  import opened Services
  import opened PayloadObjects
  import opened Payloads
  import opened ManifestCodec
  import opened ManifestTransfer

  // ----- the service -----

  function OptionalTime(n: Notation, t: Option<Time>): Json {
    if t.Some? then Str(n.timeText(t.value)) else Null
  }

  function OptionalInt(i: Option<int>): Json {
    if i.Some? then Int(i.value) else Null
  }

  /** The values of `encode_service_payload`, in the order of the names. */
  function ServiceValues(n: Notation, s: Service, fence: Option<Fence>): (r: seq<Json>)
    ensures |r| == 15
  {
    [Str(n.timeText(s.createdAt)), Str(if s.design == Seeded then SEEDED else MATERIALISED), Str(s.domainClass), Str(s.domainName),
     if fence.Some? then Int(fence.value.generation) else Null, if fence.Some? then Str(CLOSED) else Null,
     Str(s.purpose), Str(n.timeText(s.lastActivityAt)),
     if s.manifest.Some? then ManifestJson(n.decimal, s.manifest.value) else Null,
     OptionalTime(n, s.materialisedAt), Str(StatusText(s.status)), OptionalInt(s.schemaVersion), Str(n.uuidText(s.id)),
     Int(s.revision), Str(n.timeText(s.updatedAt))]
  }

  /** A service that may be written with this fence: a materialised one only while it is out
      of service behind a closed fence. */
  predicate Exportable(n: Notation, s: Service, fence: Option<Fence>) {
    && n.domain(s.domainName) && n.plain(s.domainClass, 64) && n.plain(s.purpose, 1000)
    && if s.design == Seeded then fence.None? else fence.Some? && !fence.value.open && s.status != Active
  }

  /** `encode_service_payload`. */
  function EncodeService(n: Notation, s: Service, fence: Option<Fence>): Option<Json> {
    if Exportable(n, s, fence) then (ServiceVocabulary(); Some(Closing(SERVICE_NAMES, ServiceValues(n, s, fence)))) else None
  }

  function OptionalTimeOf(n: Notation, v: Json): Option<Option<Time>> {
    if v.Null? then Some(None)
    else match TimeOf(n, v)
      case None => None
      case Some(t) => Some(Some(t))
  }

  function OptionalIntOf(v: Json): Option<Option<int>> {
    if v.Null? then Some(None) else if v.Int? then Some(Some(v.n)) else None
  }

  ghost function ManifestOf(v: Json): Option<Option<Manifest>> {
    if v.Null? then Some(None)
    else match LoadManifest(v)
      case None => None
      case Some(m) => Some(Some(m))
  }

  function FenceOf(materialised: bool, generation: Json, state: Json): Option<Option<Fence>> {
    if materialised then
      if generation.Int? && 1 <= generation.n <= MAX_FENCE_GENERATION && state == Str(CLOSED)
      then Some(Some(Fence(generation.n, false))) else None
    else if generation.Null? && state.Null? then Some(None) else None
  }

  datatype DecodedService = DecodedService(service: Service, fence: Option<Fence>)

  /** The service before its constructor's checks. */
  ghost function ServiceOfValues(n: Notation, v: seq<Json>, principal: Text, backend: Backend): Option<DecodedService>
    requires |v| == 15
  {
    if v[1] != Str(SEEDED) && v[1] != Str(MATERIALISED) then None
    else
      var materialised := v[1] == Str(MATERIALISED);
      match (TimeOf(n, v[0]), v[2], v[3], FenceOf(materialised, v[4], v[5]), v[6], TimeOf(n, v[7]), ManifestOf(v[8]))
      case (Some(created), Str(class_), Str(name), Some(fence), Str(purpose), Some(active), Some(manifest)) =>
        (match (OptionalTimeOf(n, v[9]), v[10], OptionalIntOf(v[11]), UuidOf(n, v[12]), v[13], TimeOf(n, v[14]))
         case (Some(at), Str(word), Some(schema), Some(id), Int(revision), Some(updated)) =>
           if StatusOf(word).None? || !n.domain(name) || !n.plain(class_, 64) || !n.plain(purpose, 1000) then None
           else
             Some(DecodedService(Service(id, principal, name, class_, purpose, created, updated, active, manifest, schema,
                                  if materialised then Materialised else Seeded, StatusOf(word).value, revision, at,
                                  if materialised then Some(Storage(backend, id)) else None),
                          fence))
         case _ => None)
      case _ => None
  }

  /** `_decode_service`. */
  ghost function DecodeService(n: Notation, v: Json, principal: Text, backend: Backend): Option<DecodedService> {
    match Fields(v, SERVICE_NAMES)
    case None => None
    case Some(vs) =>
      ServiceVocabulary();
      match ServiceOfValues(n, vs, principal, backend)
      case None => None
      case Some(d) => if ValidService(d.service) then Some(d) else None
  }

  /** The service on its destination: another owner and another store; whole floats in the
      enumerations of its manifest have become integers; nothing else. */
  function Moved(n: Notation, s: Service, principal: Text, backend: Backend): Service {
    s.(principal := principal, storage := if s.design == Materialised then Some(Storage(backend, s.id)) else None,
       manifest := if s.manifest.Some? then Some(TransferredManifest(n.decimal, s.manifest.value)) else None)
  }

  /** The manifest, if there is one, passes its checks again on the destination. */
  predicate PortableService(n: Notation, s: Service) {
    s.manifest.Some? ==> PortableManifest(n.decimal, s.manifest.value)
  }

  /** The floats in the enumerations of the manifest are binary64 values. */
  ghost predicate GenuineService(near: Rounding, s: Service) {
    s.manifest.Some? ==> forall e :: e in s.manifest.value.entities ==> GenuineEntity(near, e)
  }

  ghost predicate GenuineEntity(near: Rounding, e: EntityDef) {
    forall a, v :: a in e.attributes && a.allowed.Some? && v in a.allowed.value && v.AFloat? ==> IsFloat(near, v.x)
  }

  lemma {:induction false} GenuineFits(n: Notation, near: Rounding, s: Service)
    requires Faithful(n, near) && GenuineService(near, s) && s.manifest.Some?
    ensures ManifestFloatsFit(near, n.decimal, s.manifest.value)
  {
  }

  ghost predicate ManifestRead(n: Notation, s: Service, v: Json) {
    ManifestOf(v) == if PortableService(n, s) then Some(Moved(n, s, s.principal, Sqlite).manifest) else None
  }

  /** The decoder's reading of each value, in order. */
  ghost predicate Pieces(n: Notation, s: Service, fence: Option<Fence>, v: seq<Json>)
    requires |v| == 15
  {
    && v[1] == Str(if s.design == Seeded then SEEDED else MATERIALISED)
    && v[2] == Str(s.domainClass) && v[3] == Str(s.domainName) && v[6] == Str(s.purpose) && v[13] == Int(s.revision)
    && TimeOf(n, v[0]) == Some(s.createdAt) && TimeOf(n, v[7]) == Some(s.lastActivityAt) && TimeOf(n, v[14]) == Some(s.updatedAt)
    && FenceOf(s.design == Materialised, v[4], v[5]) == Some(fence)
    && ManifestRead(n, s, v[8]) && OptionalTimeOf(n, v[9]) == Some(s.materialisedAt)
    && v[10].Str? && StatusOf(v[10].s) == Some(s.status) && OptionalIntOf(v[11]) == Some(s.schemaVersion)
    && UuidOf(n, v[12]) == Some(s.id)
  }

  /** The times that are written with a service read back. */
  predicate ServiceTimesKept(n: Notation, s: Service) {
    && TimeKept(n, s.createdAt) && TimeKept(n, s.updatedAt) && TimeKept(n, s.lastActivityAt)
    && (s.materialisedAt.Some? ==> TimeKept(n, s.materialisedAt.value))
  }

  lemma {:induction false} TimeBack(n: Notation, t: Time)
    requires TimeKept(n, t)
    ensures TimeOf(n, Canon(Str(n.timeText(t)))) == Some(t)
  {
  }

  lemma {:induction false} UuidBack(n: Notation, near: Rounding, u: Uuid)
    requires Faithful(n, near)
    ensures UuidOf(n, Canon(Str(n.uuidText(u)))) == Some(u)
  {
  }

  lemma {:induction false} OptionalTimeBack(n: Notation, t: Option<Time>)
    requires t.Some? ==> TimeKept(n, t.value)
    ensures OptionalTimeOf(n, Canon(OptionalTime(n, t))) == Some(t)
  {
    if t.Some? {
      TimeBack(n, t.value);
    }
  }

  lemma {:induction false} ManifestBack(n: Notation, near: Rounding, s: Service)
    requires Faithful(n, near) && GenuineService(near, s) && ValidService(s)
    ensures ManifestRead(n, s, Canon(if s.manifest.Some? then ManifestJson(n.decimal, s.manifest.value) else Null))
  {
    hide Faithful, GenuineService, ValidManifest, PortableManifest, TransferredManifest, LoadManifest, ManifestJson;
    if s.manifest.Some? {
      GenuineFits(n, near, s);
      ManifestReadBack(near, n.decimal, s.manifest.value);
      ObjectStays(ManifestJson(n.decimal, s.manifest.value));
    }
  }

  lemma {:induction false} ObjectStays(v: Json)
    requires v.Obj?
    ensures !Canon(v).Null?
  {
  }

  lemma {:induction false} PiecesRead(n: Notation, near: Rounding, s: Service, fence: Option<Fence>)
    requires Faithful(n, near) && Exportable(n, s, fence) && GenuineService(near, s) && ValidService(s)
    requires ServiceTimesKept(n, s)
    requires fence.Some? ==> ValidFence(fence.value)
    ensures |CanonItems(ServiceValues(n, s, fence))| == 15 && Pieces(n, s, fence, CanonItems(ServiceValues(n, s, fence)))
  {
    hide ServiceOfValues, StatusText, StatusOf, SEEDED, MATERIALISED, CLOSED, ValidManifest, Orderly, CanonItems,
         Faithful, ManifestRead, ManifestJson, OptionalTimeOf, OptionalTime, TimeOf, UuidOf, TimeKept,
         GenuineService, ValidService;
    StatusBack(s.status);
    var vs := ServiceValues(n, s, fence);
    forall i | 0 <= i < |vs| ensures CanonItems(vs)[i] == Canon(vs[i]) {
      CanonAt(vs, i);
    }
    TimeBack(n, s.createdAt);
    TimeBack(n, s.lastActivityAt);
    TimeBack(n, s.updatedAt);
    OptionalTimeBack(n, s.materialisedAt);
    UuidBack(n, near, s.id);
    ManifestBack(n, near, s);
  }

  lemma {:induction false} ValuesBack(n: Notation, near: Rounding, s: Service, fence: Option<Fence>,
                                      principal: Text, backend: Backend)
    requires Faithful(n, near) && ValidService(s) && Exportable(n, s, fence) && GenuineService(near, s)
    requires ServiceTimesKept(n, s)
    requires fence.Some? ==> ValidFence(fence.value)
    ensures ServiceOfValues(n, CanonItems(ServiceValues(n, s, fence)), principal, backend)
         == if PortableService(n, s) then Some(DecodedService(Moved(n, s, principal, backend), fence)) else None
  {
    PiecesRead(n, near, s, fence);
    Words();
    hide Faithful, ServiceValues, GenuineService, ValidManifest, TimeOf, FenceOf, ManifestOf, OptionalTimeOf,
         StatusOf, OptionalIntOf, UuidOf, SEEDED, MATERIALISED, PortableService, TransferredManifest,
         ServiceTimesKept;
  }

  /** A written service comes back on its destination, with the same fence; it is refused
      exactly when an enumeration of its manifest is not portable. */
  lemma {:induction false} ServiceBack(n: Notation, near: Rounding, s: Service, fence: Option<Fence>,
                                       principal: Text, backend: Backend)
    requires Faithful(n, near) && ValidService(s) && EncodeService(n, s, fence).Some? && GenuineService(near, s)
    requires ServiceTimesKept(n, s)
    requires fence.Some? ==> ValidFence(fence.value)
    ensures DecodeService(n, Canon(EncodeService(n, s, fence).value), principal, backend)
         == if PortableService(n, s) then Some(DecodedService(Moved(n, s, principal, backend), fence)) else None
  {
    hide Faithful, ServiceValues, ServiceOfValues, Vocabulary, Fields, SERVICE_NAMES, GenuineService,
         PortableService, ValidService, Moved, Exportable, Canon, CanonItems, ValidFence, DecodeService,
         ServiceTimesKept;
    ServiceVocabulary();
    var vs := CanonItems(ServiceValues(n, s, fence));
    ZipFields(SERVICE_NAMES, vs);
    ClosingCanon(SERVICE_NAMES, ServiceValues(n, s, fence));
    ValuesBack(n, near, s, fence, principal, backend);
    if PortableService(n, s) {
      MovedValid(n, near, s, principal, backend);
    }
    DecodedFrom(n, Canon(EncodeService(n, s, fence).value), vs, principal, backend);
  }

  lemma {:induction false} ClosingCanon(names: seq<Text>, values: seq<Json>)
    requires |names| == |values|
    ensures Canon(Closing(names, values)) == Closing(names, CanonItems(values))
  {
    ZipCanon(names, values);
  }

  lemma {:induction false} DecodedFrom(n: Notation, v: Json, vs: seq<Json>, principal: Text, backend: Backend)
    requires Fields(v, SERVICE_NAMES) == Some(vs) && |vs| == 15
    requires var d := ServiceOfValues(n, vs, principal, backend); d.Some? ==> ValidService(d.value.service)
    ensures DecodeService(n, v, principal, backend) == ServiceOfValues(n, vs, principal, backend)
  {
    hide ServiceOfValues, ValidService, Fields, SERVICE_NAMES;
  }

  lemma {:induction false} MovedValid(n: Notation, near: Rounding, s: Service, principal: Text, backend: Backend)
    requires Faithful(n, near) && ValidService(s) && GenuineService(near, s) && PortableService(n, s)
    ensures ValidService(Moved(n, s, principal, backend))
  {
    hide Faithful, GenuineService, ValidManifest, PortableManifest, TransferredEntities;
    if s.manifest.Some? {
      GenuineFits(n, near, s);
      ManifestTransfers(near, n.decimal, s.manifest.value);
    }
  }

  lemma {:induction false} ServiceOrderly(n: Notation, near: Rounding, s: Service, fence: Option<Fence>)
    requires Faithful(n, near) && GenuineService(near, s)
    ensures forall i :: 0 <= i < 15 ==> Orderly(near, ServiceValues(n, s, fence)[i])
  {
    hide Faithful, GenuineService, ManifestJson;
    if s.manifest.Some? {
      GenuineFits(n, near, s);
      ParsedBack(near, n.decimal, s.manifest.value);
    }
  }

  // ----- members are orderly -----

  /** The floats of an object are binary64 values. */
  ghost predicate GenuineFields(near: Rounding, v: seq<Entry>) {
    forall e :: e in v ==> Genuine(near, Thaw(e.value))
  }

  ghost predicate GenuineMember(near: Rounding, m: Member) {
    match m
    case Record(_, _, _, _, _, _, fields) => GenuineFields(near, fields)
    case History(_, _, _, _, _, before, after) =>
      (before.Some? ==> GenuineFields(near, before.value)) && (after.Some? ==> GenuineFields(near, after.value))
    case _ => true
  }

  lemma {:induction false} TextsOrderly(near: Rounding, items: seq<Json>)
    requires forall x :: x in ThawItems(items) ==> x.RText?
    ensures OrderlyItems(near, items)
  {
    if items != [] {
      assert ThawItems(items)[0] in ThawItems(items) && ThawItems(items)[1..] == ThawItems(items[1..]);
      TextsOrderly(near, items[1..]);
    }
  }

  lemma {:induction false} AcceptedOrderly(f: Formats, near: Rounding, a: Attribute, v: Json)
    requires Accepts(f, a, Thaw(v)) && Genuine(near, Thaw(v))
    ensures Orderly(near, v)
  {
    if v.Arr? {
      TextsOrderly(near, v.items);
    }
  }

  lemma {:induction false} PairsOrderly(f: Formats, near: Rounding, fields: seq<Attribute>, v: seq<Entry>)
    requires AllAccepted(f, fields, ThawEntries(v)) && GenuineFields(near, v)
    ensures OrderlyEntries(near, v)
  {
    hide Accepts, AllAccepted, Find, Genuine;
    if v != [] {
      assert v[0] in v && forall e :: e in v[1..] ==> e in v;
      assert ThawEntries(v)[1..] == ThawEntries(v[1..]);
      FirstAndRest(f, fields, ThawEntries(v), v);
      PairsOrderly(f, near, fields, v[1..]);
      AcceptedOrderly(f, near, Find(AttributeName, fields, v[0].name).value, v[0].value);
    }
  }

  lemma {:induction false} PlainIdentifier(s: Text)
    requires IsIdentifier(s)
    ensures Utf16Key(s) == s
  {
    PlainKey(s);
  }

  /** A field name that a compiled manifest accepts is an identifier. */
  lemma {:induction false} AcceptedName(f: Formats, m: Manifest, entity: Name, p: Pair)
    requires ValidManifest(m) && RecordFields(CompileRecords(m), entity).Some?
    requires AcceptsNamed(f, RecordFields(CompileRecords(m), entity).value, p)
    ensures IsIdentifier(p.name)
  {
    CompiledRecord(m, entity, p.name);
    assert forall e :: e in m.entities ==> ValidEntity(e);
    hide ValidManifest, CompileRecords, Accepts, Find, SERVER_FIELDS;
    FindMember(EntityName, m.entities, entity);
    var e := Find(EntityName, m.entities, entity).value;
    FindMember(AttributeName, e.attributes, p.name);
  }

  lemma {:induction false} NamesInOrder(v: seq<Entry>)
    requires UniqueNames(v) && WeaklySorted(EntryName, v) && forall i :: 0 <= i < |v| ==> EntryKey(v[i]) == EntryName(v[i])
    ensures StrictlySorted(EntryKey, v)
  {
    hide EntryKey;
    forall i, j | 0 <= i < j < |v| ensures Less(EntryKey(v[i]), EntryKey(v[j])) {
      LessTotal(EntryName(v[i]), EntryName(v[j]));
    }
  }

  lemma {:induction false} AcceptedEntryName(f: Formats, m: Manifest, entity: Name, v: seq<Entry>, i: nat)
    requires ValidManifest(m) && RecordFields(CompileRecords(m), entity).Some? && i < |v|
    requires AllAccepted(f, RecordFields(CompileRecords(m), entity).value, ThawEntries(v))
    ensures EntryKey(v[i]) == EntryName(v[i])
  {
    hide ValidManifest, CompileRecords, RecordFields, AcceptsNamed, IsIdentifier;
    assert ThawEntries(v)[i] in ThawEntries(v);
    AcceptedName(f, m, entity, ThawEntries(v)[i]);
    PlainIdentifier(v[i].name);
  }

  lemma {:induction false} ObjectOrderly(near: Rounding, v: seq<Entry>)
    requires OrderlyEntries(near, v) && StrictlySorted(EntryKey, v)
    ensures Orderly(near, Obj(v))
  {
  }

  lemma {:induction false} FieldsOrderly(f: Formats, near: Rounding, m: Manifest, entity: Name, v: seq<Entry>)
    requires ValidManifest(m) && FieldsFit(f, CompileRecords(m), entity, v) && GenuineFields(near, v)
    ensures Orderly(near, Obj(v))
  {
    hide *;
    FittingFacts(f, CompileRecords(m), entity, v);
    PairsOrderly(f, near, RecordFields(CompileRecords(m), entity).value, v);
    forall i | 0 <= i < |v| ensures EntryKey(v[i]) == EntryName(v[i]) {
      AcceptedEntryName(f, m, entity, v, i);
    }
    NamesInOrder(v);
    ObjectOrderly(near, v);
  }

  /** The payload of a member that fits a valid manifest is an orderly object. */
  lemma {:induction false} MemberOrderly(n: Notation, near: Rounding, f: Formats, manifest: Manifest, m: Member)
    requires ValidManifest(manifest) && MemberFits(f, CompileRecords(manifest), m) && GenuineMember(near, m)
    ensures forall i :: 0 <= i < |MemberValues(n, m)| ==> Orderly(near, MemberValues(n, m)[i])
  {
    hide ValidManifest, CompileRecords, FieldsFit, GenuineFields, KindText, BranchStatusText, Find;
    match m {
      case Record(entity, _, _, _, _, _, fields) => FieldsOrderly(f, near, manifest, entity, fields);
      case History(entity, _, _, _, _, before, after) =>
        if before.Some? {
          FieldsOrderly(f, near, manifest, entity, before.value);
        }
        if after.Some? {
          FieldsOrderly(f, near, manifest, entity, after.value);
        }
      case _ =>
    }
  }
}
