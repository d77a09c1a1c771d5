/** The logical payloads of a bundle: a service with its fence, and its members. */
module Payloads {
  import opened Ordering
  import opened Text
  import opened Numbers
  import opened CanonicalJson
  import opened JsonRoundTrip
  import opened Manifest
  import opened Records
  import opened PortableStore
  import opened StoreValidation
  import opened Services
  import B = Bundle
  import opened PayloadObjects

  const MAX_FENCE_GENERATION := 0x7FFF_FFFF_FFFF_FFFF

  /** `WriteAdmissionFence`. */
  datatype Fence = Fence(generation: int, open: bool)

  predicate ValidFence(f: Fence) {
    1 <= f.generation <= MAX_FENCE_GENERATION
  }

  /** Texts of identifiers and times, the shortest decimals of floats, and the text checks of
      the value constructors; none of them is modelled further. */
  datatype Notation = Notation(uuidText: Uuid -> Text, parseUuid: Text -> Option<Uuid>,
                               timeText: Time -> Text, parseTime: Text -> Option<Time>,
                               decimal: real -> Shortest, domain: Text -> bool, plain: (Text, nat) -> bool,
                               member: Member -> bool)

  /** The number is one that a binary64 value stands for. */
  ghost predicate IsFloat(near: Rounding, x: real) {
    exists d: Shortest :: near(d) == Some(d) && DecimalValue(d) == x
  }

  /** The text of the time reads back as that time. */
  predicate TimeKept(n: Notation, t: Time) {
    n.parseTime(n.timeText(t)) == Some(t)
  }

  /** The times that are written with a member read back. */
  predicate MemberTimesKept(n: Notation, m: Member) {
    match m
    case Record(_, _, _, created, updated, _, _) => TimeKept(n, created) && TimeKept(n, updated)
    case History(_, _, _, _, at, _, _) => TimeKept(n, at)
    case Branch(_, _, _, created, updated, _) => TimeKept(n, created) && TimeKept(n, updated)
    case Membership(_, _, _, _) => true
  }

  /** Identifiers read back as what they were written from, a float's decimal stands for it, and
      the member constructors do not look into record fields. */
  ghost predicate Faithful(n: Notation, near: Rounding) {
    && (forall u: Uuid :: n.parseUuid(n.uuidText(u)) == Some(u))
    && (forall x: real :: IsFloat(near, x) ==> near(n.decimal(x)) == Some(n.decimal(x)) && DecimalValue(n.decimal(x)) == x)
    && (forall m: Member :: n.member(m) ==> n.member(TransferredMember(m)))
  }

  // ----- names -----

  const RECORD_NAMES: seq<Text> := [Ascii("created_at"), Ascii("created_via"), Ascii("entity_name"), Ascii("fields"),
                                    Ascii("record_id"), Ascii("record_version"), Ascii("updated_at")]

  const HISTORY_NAMES: seq<Text> := [Ascii("after"), Ascii("before"), Ascii("entity_name"), Ascii("kind"),
                                     Ascii("occurred_at"), Ascii("record_id"), Ascii("record_version")]

  const BRANCH_NAMES: seq<Text> := BRANCH_NAMES_1 + BRANCH_NAMES_2
  const BRANCH_NAMES_1: seq<Text> := [Ascii("branch_id"), Ascii("branch_revision"), Ascii("branch_type"),
                                      Ascii("created_at"), Ascii("intent")]
  const BRANCH_NAMES_2: seq<Text> := [Ascii("parent_branch_id"), Ascii("retrieval_summary"), Ascii("slug"),
                                      Ascii("status"), Ascii("title"), Ascii("updated_at")]

  const MEMBERSHIP_NAMES: seq<Text> := [Ascii("branch_id"), Ascii("entity_name"), Ascii("record_id"), Ascii("role")]

  const SERVICE_NAMES: seq<Text> := SERVICE_NAMES_1 + SERVICE_NAMES_2 + SERVICE_NAMES_3
  const SERVICE_NAMES_1: seq<Text> := [Ascii("created_at"), Ascii("design_state"), Ascii("domain_class"), Ascii("domain_name"),
                                       Ascii("export_fence_generation")]
  const SERVICE_NAMES_2: seq<Text> := [Ascii("export_fence_state"), Ascii("intent_description"), Ascii("last_activity_at"),
                                       Ascii("manifest"), Ascii("materialised_at")]
  const SERVICE_NAMES_3: seq<Text> := [Ascii("operational_status"), Ascii("schema_version"), Ascii("service_id"),
                                       Ascii("service_revision"), Ascii("updated_at")]

  lemma {:induction false} RecordVocabulary()
    ensures Vocabulary(RECORD_NAMES)
  {
    Chained(RECORD_NAMES, [8, 0, 0, 0, 7, 0]);
  }

  lemma {:induction false} HistoryVocabulary()
    ensures Vocabulary(HISTORY_NAMES)
  {
    Chained(HISTORY_NAMES, [0, 0, 0, 0, 0, 7]);
  }

  lemma {:induction false} BranchVocabulary1()
    ensures Vocabulary(BRANCH_NAMES_1)
  {
    Chained(BRANCH_NAMES_1, [7, 7, 0, 0]);
  }

  lemma {:induction false} BranchVocabulary2()
    ensures Vocabulary(BRANCH_NAMES_2)
  {
    Chained(BRANCH_NAMES_2, [0, 0, 1, 0, 0]);
  }

  lemma {:induction false} BranchVocabulary()
    ensures Vocabulary(BRANCH_NAMES) && |BRANCH_NAMES| == 11
  {
    BranchVocabulary1();
    BranchVocabulary2();
    hide Vocabulary;
    JoinNames(BRANCH_NAMES_1, BRANCH_NAMES_2, 0);
  }

  lemma {:induction false} MembershipVocabulary()
    ensures Vocabulary(MEMBERSHIP_NAMES)
  {
    Chained(MEMBERSHIP_NAMES, [0, 0, 1]);
  }

  lemma {:induction false} ServiceVocabulary1()
    ensures Vocabulary(SERVICE_NAMES_1)
  {
    Chained(SERVICE_NAMES_1, [0, 1, 7, 0]);
  }

  lemma {:induction false} ServiceVocabulary2()
    ensures Vocabulary(SERVICE_NAMES_2)
  {
    Chained(SERVICE_NAMES_2, [0, 0, 0, 2]);
  }

  lemma {:induction false} ServiceVocabulary3()
    ensures Vocabulary(SERVICE_NAMES_3)
  {
    Chained(SERVICE_NAMES_3, [0, 1, 8, 0]);
  }

  lemma {:induction false} ServiceVocabulary()
    ensures Vocabulary(SERVICE_NAMES) && |SERVICE_NAMES| == 15
  {
    ServiceVocabulary1();
    ServiceVocabulary2();
    ServiceVocabulary3();
    FenceNames();
    hide Vocabulary;
    JoinNames(SERVICE_NAMES_1, SERVICE_NAMES_2, 13);
    JoinNames(SERVICE_NAMES_1 + SERVICE_NAMES_2, SERVICE_NAMES_3, 0);
  }

  lemma {:induction false} FenceNames()
    ensures Before(SERVICE_NAMES_1[4], SERVICE_NAMES_2[0], 13)
  {
  }

  // ----- closed sets of words -----

  function KindText(k: HistoryKind): Text {
    match k
    case Create => Ascii("create")
    case Update => Ascii("update")
    case Delete => Ascii("delete")
    case PrimaryAssign => Ascii("primary_assign")
    case PrimaryMove => Ascii("primary_move")
    case PrimaryUnassign => Ascii("primary_unassign")
    case RelatedAssign => Ascii("related_assign")
    case RelatedUnassign => Ascii("related_unassign")
  }

  function KindOf(s: Text): Option<HistoryKind> {
    if s == KindText(Create) then Some(Create)
    else if s == KindText(Update) then Some(Update)
    else if s == KindText(Delete) then Some(Delete)
    else if s == KindText(PrimaryAssign) then Some(PrimaryAssign)
    else if s == KindText(PrimaryMove) then Some(PrimaryMove)
    else if s == KindText(PrimaryUnassign) then Some(PrimaryUnassign)
    else if s == KindText(RelatedAssign) then Some(RelatedAssign)
    else if s == KindText(RelatedUnassign) then Some(RelatedUnassign)
    else None
  }

  lemma {:induction false} KindBack(k: HistoryKind)
    ensures KindOf(KindText(k)) == Some(k)
  {
    var t := KindText(k);
    match k
    case Create => assert t[0] == 'c' as int;
    case Update => assert t[0] == 'u' as int;
    case Delete => assert t[0] == 'd' as int;
    case PrimaryAssign => assert t[0] == 'p' as int && |t| == 14;
    case PrimaryMove => assert t[0] == 'p' as int && |t| == 12;
    case PrimaryUnassign => assert t[0] == 'p' as int && |t| == 16;
    case RelatedAssign => assert t[0] == 'r' as int && |t| == 14;
    case RelatedUnassign => assert t[0] == 'r' as int && |t| == 16;
  }

  function BranchStatusText(b: BranchStatus): Text {
    match b
    case ActiveBranch => Ascii("active")
    case ArchivedBranch => Ascii("archived")
    case SupersededBranch => Ascii("superseded")
  }

  function BranchStatusOf(s: Text): Option<BranchStatus> {
    if s == BranchStatusText(ActiveBranch) then Some(ActiveBranch)
    else if s == BranchStatusText(ArchivedBranch) then Some(ArchivedBranch)
    else if s == BranchStatusText(SupersededBranch) then Some(SupersededBranch)
    else None
  }

  lemma {:induction false} BranchStatusBack(b: BranchStatus)
    ensures BranchStatusOf(BranchStatusText(b)) == Some(b)
  {
    assert |BranchStatusText(b)| == match b case ActiveBranch => 6 case ArchivedBranch => 8 case SupersededBranch => 10;
  }

  function StatusText(s: Status): Text {
    match s
    case Active => Ascii("active")
    case Suspended => Ascii("suspended")
    case Archived => Ascii("archived")
  }

  function StatusOf(s: Text): Option<Status> {
    if s == StatusText(Active) then Some(Active)
    else if s == StatusText(Suspended) then Some(Suspended)
    else if s == StatusText(Archived) then Some(Archived)
    else None
  }

  lemma {:induction false} StatusBack(s: Status)
    ensures StatusOf(StatusText(s)) == Some(s)
  {
    assert |StatusText(s)| == match s case Active => 6 case Suspended => 9 case Archived => 8;
  }

  const SEEDED: Text := Ascii("seeded")
  const MATERIALISED: Text := Ascii("materialised")
  const CLOSED: Text := Ascii("closed")
  const PRIMARY: Text := Ascii("primary")
  const RELATED: Text := Ascii("related")

  lemma {:induction false} Words()
    ensures SEEDED != MATERIALISED && PRIMARY != RELATED
  {
    assert SEEDED[0] == 's' as int && MATERIALISED[0] == 'm' as int;
    assert PRIMARY[0] == 'p' as int && RELATED[0] == 'r' as int;
  }

  // ----- members -----

  function Optional(t: Option<Text>): Json {
    if t.Some? then Str(t.value) else Null
  }

  function OptionalOf(v: Json): Option<Option<Text>> {
    if v.Null? then Some(None) else if v.Str? then Some(Some(v.s)) else None
  }

  function Snapshot(fields: Option<seq<Entry>>): Json {
    if fields.Some? then Obj(fields.value) else Null
  }

  function MemberKind(m: Member): B.Kind {
    match m
    case Record(_, _, _, _, _, _, _) => B.Record
    case History(_, _, _, _, _, _, _) => B.History
    case Branch(_, _, _, _, _, _) => B.Branch
    case Membership(_, _, _, _) => B.BranchMembership
  }

  function MemberNames(m: Member): seq<Text> {
    match m
    case Record(_, _, _, _, _, _, _) => RECORD_NAMES
    case History(_, _, _, _, _, _, _) => HISTORY_NAMES
    case Branch(_, _, _, _, _, _) => BRANCH_NAMES
    case Membership(_, _, _, _) => MEMBERSHIP_NAMES
  }

  /** The values of `encode_member_payload`, in the order of the names. */
  function MemberValues(n: Notation, m: Member): (r: seq<Json>) {
    match m
    case Record(entity, id, version, created, updated, via, fields) =>
      [Str(n.timeText(created)), Str(via), Str(entity), Obj(fields), Str(n.uuidText(id)), Int(version), Str(n.timeText(updated))]
    case History(entity, id, version, kind, at, before, after) =>
      [Snapshot(after), Snapshot(before), Str(entity), Str(KindText(kind)), Str(n.timeText(at)), Str(n.uuidText(id)), Int(version)]
    case Branch(id, t, parent, created, updated, revision) =>
      [Str(n.uuidText(id)), Int(revision), Optional(t.branchType), Str(n.timeText(created)), Str(t.intent),
       if parent.Some? then Str(n.uuidText(parent.value)) else Null, Optional(t.summary), Str(t.slug),
       Str(BranchStatusText(t.status)), Str(t.title), Str(n.timeText(updated))]
    case Membership(branch, entity, id, primary) =>
      [Str(n.uuidText(branch)), Str(entity), Str(n.uuidText(id)), Str(if primary then PRIMARY else RELATED)]
  }

  function TimeOf(n: Notation, v: Json): Option<Time> {
    if v.Str? then n.parseTime(v.s) else None
  }

  function UuidOf(n: Notation, v: Json): Option<Uuid> {
    if v.Str? then n.parseUuid(v.s) else None
  }

  function ObjectOf(f: Formats, v: Json): Option<seq<Entry>> {
    if v.Obj? then FreezeRecord(f, ThawEntries(v.entries)) else None
  }

  function SnapshotOf(f: Formats, v: Json): Option<Option<seq<Entry>>> {
    if v.Null? then Some(None)
    else match ObjectOf(f, v)
      case None => None
      case Some(fields) => Some(Some(fields))
  }

  function VersionOf(v: Json): Option<Version> {
    if v.Int? && v.n >= 1 then Some(v.n) else None
  }

  function RecordOfValues(n: Notation, f: Formats, v: seq<Json>): Option<Member>
    requires |v| == 7
  {
    match (TimeOf(n, v[0]), v[1], v[2], ObjectOf(f, v[3]), UuidOf(n, v[4]), VersionOf(v[5]), TimeOf(n, v[6]))
    case (Some(created), Str(via), Str(entity), Some(fields), Some(id), Some(version), Some(updated)) =>
      Some(Record(entity, id, version, created, updated, via, fields))
    case _ => None
  }

  function HistoryOfValues(n: Notation, f: Formats, v: seq<Json>): Option<Member>
    requires |v| == 7
  {
    match (SnapshotOf(f, v[0]), SnapshotOf(f, v[1]), v[2], v[3], TimeOf(n, v[4]), UuidOf(n, v[5]), VersionOf(v[6]))
    case (Some(after), Some(before), Str(entity), Str(word), Some(at), Some(id), Some(version)) =>
      (match KindOf(word)
       case None => None
       case Some(kind) => Some(History(entity, id, version, kind, at, before, after)))
    case _ => None
  }

  function ParentOf(n: Notation, v: Json): Option<Option<Uuid>> {
    if v.Null? then Some(None)
    else match UuidOf(n, v)
      case None => None
      case Some(id) => Some(Some(id))
  }

  function BranchOfValues(n: Notation, v: seq<Json>): Option<Member>
    requires |v| == 11
  {
    match (UuidOf(n, v[0]), VersionOf(v[1]), OptionalOf(v[2]), TimeOf(n, v[3]), v[4])
    case (Some(id), Some(revision), Some(branchType), Some(created), Str(intent)) =>
      (match (ParentOf(n, v[5]), OptionalOf(v[6]), v[7], v[8], v[9], TimeOf(n, v[10]))
       case (Some(parent), Some(summary), Str(slug), Str(word), Str(title), Some(updated)) =>
         (match BranchStatusOf(word)
          case None => None
          case Some(status) =>
            Some(Branch(id, BranchText(slug, title, intent, branchType, status, summary), parent, created, updated, revision)))
       case _ => None)
    case _ => None
  }

  function MembershipOfValues(n: Notation, v: seq<Json>): Option<Member>
    requires |v| == 4
  {
    match (UuidOf(n, v[0]), v[1], UuidOf(n, v[2]), v[3])
    case (Some(branch), Str(entity), Some(id), Str(word)) =>
      if word == PRIMARY then Some(Member.Membership(branch, entity, id, true))
      else if word == RELATED then Some(Member.Membership(branch, entity, id, false))
      else None
    case _ => None
  }

  function Checked(n: Notation, m: Option<Member>): Option<Member> {
    if m.Some? && n.member(m.value) then m else None
  }

  /** `_decode_member`. */
  function DecodeMember(n: Notation, f: Formats, kind: B.Kind, v: Json): Option<Member> {
    match kind
    case Record =>
      var vs := Fields(v, RECORD_NAMES);
      if vs.None? then None else Checked(n, RecordOfValues(n, f, vs.value))
    case History =>
      var vs := Fields(v, HISTORY_NAMES);
      if vs.None? then None else Checked(n, HistoryOfValues(n, f, vs.value))
    case Branch =>
      var vs := Fields(v, BRANCH_NAMES);
      if vs.None? then None else Checked(n, BranchOfValues(n, vs.value))
    case BranchMembership =>
      var vs := Fields(v, MEMBERSHIP_NAMES);
      if vs.None? then None else Checked(n, MembershipOfValues(n, vs.value))
    case _ => None
  }

  // ----- a member comes back -----

  lemma {:induction false} CanonAt(values: seq<Json>, i: nat)
    requires i < |values|
    ensures CanonItems(values)[i] == Canon(values[i])
  {
    if i > 0 {
      CanonAt(values[1..], i - 1);
    }
  }

  lemma {:induction false} RefrozenValue(f: Formats, a: Attribute, v: Json)
    requires Accepts(f, a, Thaw(v)) && Stable(f, v)
    ensures FreezeField(f, Thaw(Canon(v))) == None || FreezeField(f, Thaw(Canon(v))) == Some(Canon(v))
  {
    if v.Arr? {
      TextItems(v.items);
    }
  }

  lemma {:induction false} RefrozenPairs(f: Formats, fields: seq<Attribute>, v: seq<Entry>)
    requires AllAccepted(f, fields, ThawEntries(v)) && forall e :: e in v ==> StableEntry(f, e)
    ensures var r := FreezeFieldPairs(f, ThawEntries(CanonEntries(v))); r == None || r == Some(CanonEntries(v))
  {
    hide Accepts, AllAccepted, Find, Stable;
    if v != [] {
      var thawed, canon := ThawEntries(v), ThawEntries(CanonEntries(v));
      assert v[0] in v && forall e :: e in v[1..] ==> e in v;
      assert thawed[1..] == ThawEntries(v[1..]);
      assert CanonEntries(v)[1..] == CanonEntries(v[1..]) && canon[1..] == ThawEntries(CanonEntries(v[1..]));
      FirstAndRest(f, fields, thawed, v);
      RefrozenPairs(f, fields, v[1..]);
      RefrozenValue(f, Find(AttributeName, fields, v[0].name).value, v[0].value);
    }
  }

  lemma {:induction false} FittingFacts(f: Formats, spec: RecordSpecification, entity: Name, v: seq<Entry>)
    requires FieldsFit(f, spec, entity, v)
    ensures RecordFields(spec, entity).Some? && AllAccepted(f, RecordFields(spec, entity).value, ThawEntries(v))
    ensures (forall e :: e in v ==> StableEntry(f, e)) && UniqueNames(v) && WeaklySorted(EntryName, v)
  {
    hide ValidateRecord, AllAccepted, StableEntry, WeaklySorted, RecordFields, UniqueNames;
    AcceptedFacts(f, spec, entity, v);
  }

  lemma {:induction false} ObjectIs(f: Formats, v: seq<Entry>)
    requires var r := FreezeFieldPairs(f, ThawEntries(CanonEntries(v))); r == None || r == Some(CanonEntries(v))
    requires SortBy(EntryName, CanonEntries(v)) == CanonEntries(v)
    ensures var r := ObjectOf(f, Canon(Obj(v))); r == None || r == Some(CanonEntries(v))
    ensures ObjectOf(f, Canon(Obj(v))) == FreezeRecord(f, ThawEntries(CanonEntries(v)))
  {
    hide FreezeFieldPairs, SortBy, UniqueNames;
  }

  /** The fields of an accepted record, decoded, are its canonical fields or are refused. */
  lemma {:induction false} RefrozenFields(f: Formats, spec: RecordSpecification, entity: Name, v: seq<Entry>)
    requires FieldsFit(f, spec, entity, v)
    ensures var r := ObjectOf(f, Canon(Obj(v))); r == None || r == Some(CanonEntries(v))
    ensures Portable(f, v) ==> ObjectOf(f, Canon(Obj(v))) == Some(CanonEntries(v))
  {
    hide *;
    FittingFacts(f, spec, entity, v);
    RefrozenPairs(f, RecordFields(spec, entity).value, v);
    CanonSorted(v);
    ObjectIs(f, v);
    if Portable(f, v) {
      RefrozenExactly(f, spec, entity, v);
    }
  }

  /** A record that passes again was frozen as its canonical fields. */
  lemma {:induction false} RefrozenExactly(f: Formats, spec: RecordSpecification, entity: Name, v: seq<Entry>)
    requires FieldsFit(f, spec, entity, v) && Portable(f, v)
    ensures FreezeRecord(f, ThawEntries(CanonEntries(v))) == Some(CanonEntries(v))
  {
    hide Find, DomainFields, AcceptsNamed, Provided, ExactNumbers, FreezeRecord;
    TransferredRecord(f, spec, entity, v);
  }

  lemma {:induction false} RefrozenSnapshot(f: Formats, spec: RecordSpecification, entity: Name,
                                            s: Option<seq<Entry>>)
    requires SnapshotFits(f, spec, entity, s)
    ensures var r := SnapshotOf(f, Canon(Snapshot(s))); r == None || r == Some(TransferredSnapshot(s))
    ensures PortableSnapshot(f, s) ==> SnapshotOf(f, Canon(Snapshot(s))) == Some(TransferredSnapshot(s))
  {
    hide FieldsFit, Portable, FreezeRecord;
    if s.Some? {
      RefrozenFields(f, spec, entity, s.value);
    }
  }

  lemma {:induction false} RecordBack(n: Notation, near: Rounding, f: Formats, spec: RecordSpecification, m: Member)
    requires Faithful(n, near) && MemberTimesKept(n, m) && m.Record? && MemberFits(f, spec, m)
    ensures var r := RecordOfValues(n, f, CanonItems(MemberValues(n, m)));
            (r == None || r == Some(TransferredMember(m))) && (PortableMember(f, m) ==> r == Some(TransferredMember(m)))
  {
    hide FieldsFit, Portable, ObjectOf;
    var vs := MemberValues(n, m);
    forall i | 0 <= i < |vs| ensures CanonItems(vs)[i] == Canon(vs[i]) {
      CanonAt(vs, i);
    }
    RefrozenFields(f, spec, m.entity, m.fields);
    assert n.parseUuid(n.uuidText(m.id)) == Some(m.id);
    assert TimeKept(n, m.createdAt) && TimeKept(n, m.updatedAt);
  }

  lemma {:induction false} HistoryBack(n: Notation, near: Rounding, f: Formats, spec: RecordSpecification, m: Member)
    requires Faithful(n, near) && MemberTimesKept(n, m) && m.History? && MemberFits(f, spec, m)
    ensures var r := HistoryOfValues(n, f, CanonItems(MemberValues(n, m)));
            (r == None || r == Some(TransferredMember(m))) && (PortableMember(f, m) ==> r == Some(TransferredMember(m)))
  {
    hide FieldsFit, Portable, SnapshotOf, KindText, KindOf, Find;
    var vs := MemberValues(n, m);
    forall i | 0 <= i < |vs| ensures CanonItems(vs)[i] == Canon(vs[i]) {
      CanonAt(vs, i);
    }
    RefrozenSnapshot(f, spec, m.entity, m.before);
    RefrozenSnapshot(f, spec, m.entity, m.after);
    KindBack(m.kind);
    assert n.parseUuid(n.uuidText(m.id)) == Some(m.id) && TimeKept(n, m.occurredAt);
  }

  lemma {:induction false} BranchBack(n: Notation, near: Rounding, m: Member)
    requires Faithful(n, near) && MemberTimesKept(n, m) && m.Branch?
    ensures BranchOfValues(n, CanonItems(MemberValues(n, m))) == Some(m)
  {
    hide BranchStatusText, BranchStatusOf;
    var vs := MemberValues(n, m);
    forall i | 0 <= i < |vs| ensures CanonItems(vs)[i] == Canon(vs[i]) {
      CanonAt(vs, i);
    }
    BranchStatusBack(m.text.status);
    assert n.parseUuid(n.uuidText(m.branch)) == Some(m.branch);
    assert m.parent.Some? ==> n.parseUuid(n.uuidText(m.parent.value)) == Some(m.parent.value);
    assert TimeKept(n, m.createdAt) && TimeKept(n, m.updatedAt);
  }

  lemma {:induction false} MembershipBack(n: Notation, near: Rounding, m: Member)
    requires Faithful(n, near) && m.Membership?
    ensures MembershipOfValues(n, CanonItems(MemberValues(n, m))) == Some(m)
  {
    Words();
    hide PRIMARY, RELATED;
    var vs := MemberValues(n, m);
    forall i | 0 <= i < |vs| ensures CanonItems(vs)[i] == Canon(vs[i]) {
      CanonAt(vs, i);
    }
    assert n.parseUuid(n.uuidText(m.branch)) == Some(m.branch) && n.parseUuid(n.uuidText(m.id)) == Some(m.id);
  }

  lemma {:induction false} NamesFit(n: Notation, m: Member)
    ensures Vocabulary(MemberNames(m)) && |MemberNames(m)| == |MemberValues(n, m)|
  {
    hide Vocabulary;
    RecordVocabulary();
    HistoryVocabulary();
    BranchVocabulary();
    MembershipVocabulary();
  }

  /** The payload object of `encode_member_payload`. */
  function MemberPayload(n: Notation, m: Member): Json {
    NamesFit(n, m);
    Closing(MemberNames(m), MemberValues(n, m))
  }

  /** Decoding the canonical payload of a member gives the transferred member, unless its
      fields no longer make a record object; it always does so for a portable member. */
  lemma {:induction false} MemberBack(n: Notation, near: Rounding, f: Formats, spec: RecordSpecification, m: Member)
    requires Faithful(n, near) && MemberTimesKept(n, m) && n.member(m) && MemberFits(f, spec, m)
    ensures var r := DecodeMember(n, f, MemberKind(m), Canon(MemberPayload(n, m)));
            (r == None || r == Some(TransferredMember(m))) && (PortableMember(f, m) ==> r == Some(TransferredMember(m)))
  {
    hide Faithful, MemberTimesKept, MemberFits, TransferredMember, PortableMember, MemberValues, RecordOfValues,
         HistoryOfValues, BranchOfValues, MembershipOfValues, Vocabulary, Fields, RECORD_NAMES, HISTORY_NAMES,
         BRANCH_NAMES, MEMBERSHIP_NAMES;
    NamesFit(n, m);
    ZipCanon(MemberNames(m), MemberValues(n, m));
    ZipFields(MemberNames(m), CanonItems(MemberValues(n, m)));
    StillMember(n, near, m);
    match m {
      case Record(_, _, _, _, _, _, _) => RecordBack(n, near, f, spec, m);
      case History(_, _, _, _, _, _, _) => HistoryBack(n, near, f, spec, m);
      case Branch(_, _, _, _, _, _) =>
        BranchBack(n, near, m);
        SameMember(m);
      case Membership(_, _, _, _) =>
        MembershipBack(n, near, m);
        SameMember(m);
    }
  }

  lemma {:induction false} StillMember(n: Notation, near: Rounding, m: Member)
    requires Faithful(n, near) && n.member(m)
    ensures n.member(TransferredMember(m))
  {
  }

  lemma {:induction false} SameMember(m: Member)
    requires m.Branch? || m.Membership?
    ensures TransferredMember(m) == m
  {
  }
}
