/** `validate_portable_members` as it runs, proved to accept exactly the well-formed stores;
    and what evolution and transfer do to whole stores. */
module StoreValidation {
  import opened Ordering
  import opened CanonicalJson
  import opened JsonRoundTrip
  import opened Manifest
  import opened Relational
  import opened Records
  import opened PortableStore

  type RecordMap = map<Identity, Member>
  type HistoryMap = map<Identity, seq<Member>>

  function Lookup(records: RecordMap, who: Identity): Option<Member> {
    if who in records then Some(records[who]) else None
  }

  /** The dictionaries hold what the members read so far say. */
  ghost predicate Collected(s: seq<Member>, records: RecordMap, histories: HistoryMap, parents: Parents, memberships: seq<Member>) {
    && (forall who :: Lookup(records, who) == RecordOf(s, who))
    && (forall who :: who in histories <==> EventsOf(s, who) != [])
    && (forall who :: who in histories ==> histories[who] == EventsOf(s, who))
    && ParentsOf(s, parents)
    && (forall m :: m in memberships <==> m in s && m.Membership?)
    && StrictlySorted(MemberKey, memberships)
  }

  lemma {:induction false} LastSplits(s: seq<Member>, m: Member)
    ensures (s + [m])[..|s + [m]| - 1] == s && (s + [m])[|s + [m]| - 1] == m
  {
  }

  lemma {:induction false} CollectRecord(s: seq<Member>, m: Member, records: RecordMap, histories: HistoryMap,
                                         parents: Parents, memberships: seq<Member>)
    requires Collected(s, records, histories, parents, memberships) && m.Record?
    ensures Collected(s + [m], records[Who(m) := m], histories, parents, memberships)
  {
    hide EventsOf;
    LastSplits(s, m);
    OtherEvents(s, m);
    OtherBranches(s, m, parents);
    forall who ensures RecordOf(s + [m], who) == if who == Who(m) then Some(m) else RecordOf(s, who) {
      assert IsRecord(m, who) <==> who == Who(m);
    }
  }

  lemma {:induction false} OtherEvents(s: seq<Member>, m: Member)
    requires !m.History?
    ensures forall who :: EventsOf(s + [m], who) == EventsOf(s, who)
  {
    LastSplits(s, m);
    forall who ensures EventsOf(s + [m], who) == EventsOf(s, who) {
      assert EventsOf(s, who) + [] == EventsOf(s, who);
    }
  }

  lemma {:induction false} OtherRecords(s: seq<Member>, m: Member)
    requires !m.Record?
    ensures forall who :: RecordOf(s + [m], who) == RecordOf(s, who)
  {
    LastSplits(s, m);
  }

  lemma {:induction false} OtherBranches(s: seq<Member>, m: Member, parents: Parents)
    requires !m.Branch? && ParentsOf(s, parents)
    ensures ParentsOf(s + [m], parents)
  {
    forall id | id in parents ensures HasBranch(s + [m], id) {
      var b :| b in s && b.Branch? && b.branch == id;
      assert b in s + [m];
    }
  }

  lemma {:induction false} CollectEvent(s: seq<Member>, m: Member, records: RecordMap, histories: HistoryMap,
                                        parents: Parents, memberships: seq<Member>)
    requires Collected(s, records, histories, parents, memberships) && m.History?
    ensures Collected(s + [m], records, histories[Who(m) := (if Who(m) in histories then histories[Who(m)] else []) + [m]],
                      parents, memberships)
  {
    hide RecordOf;
    LastSplits(s, m);
    OtherRecords(s, m);
    OtherBranches(s, m, parents);
    forall who ensures EventsOf(s + [m], who) == EventsOf(s, who) + if who == Who(m) then [m] else [] {
      assert IsEvent(m, who) <==> who == Who(m);
    }
    forall who | who != Who(m) ensures EventsOf(s + [m], who) == EventsOf(s, who) {
      assert EventsOf(s, who) + [] == EventsOf(s, who);
    }
  }

  lemma {:induction false} CollectBranch(s: seq<Member>, m: Member, records: RecordMap, histories: HistoryMap,
                                         parents: Parents, memberships: seq<Member>)
    requires Collected(s, records, histories, parents, memberships) && m.Branch?
    requires forall b :: b in s && b.Branch? ==> b.branch != m.branch
    ensures Collected(s + [m], records, histories, parents[m.branch := m.parent], memberships)
  {
    hide RecordOf, EventsOf;
    OtherRecords(s, m);
    OtherEvents(s, m);
    assert m in s + [m];
    forall id | id in parents[m.branch := m.parent] ensures HasBranch(s + [m], id) {
      if id != m.branch {
        var b :| b in s && b.Branch? && b.branch == id;
        assert b in s + [m];
      }
    }
  }

  lemma {:induction false} CollectMembership(s: seq<Member>, m: Member, records: RecordMap, histories: HistoryMap,
                                             parents: Parents, memberships: seq<Member>)
    requires Collected(s, records, histories, parents, memberships) && m.Membership?
    requires forall x :: x in s ==> Less(MemberKey(x), MemberKey(m))
    ensures Collected(s + [m], records, histories, parents, memberships + [m])
  {
    hide RecordOf, EventsOf, MemberKey;
    OtherRecords(s, m);
    OtherEvents(s, m);
    OtherBranches(s, m, parents);
  }

  lemma {:induction false} NothingCollected()
    ensures Collected([], map[], map[], map[], [])
  {
  }

  // ----- the order check -----

  predicate RepeatsKey(s: seq<Member>) {
    exists i, j :: 0 <= i < j < |s| && MemberKey(s[i]) == MemberKey(s[j])
  }

  /** `keys == sorted(keys)` without repeated keys is strict order. */
  lemma {:induction false} OrderIff(s: seq<Member>)
    ensures SortBy(MemberKey, s) == s && !RepeatsKey(s) <==> StrictlySorted(MemberKey, s)
  {
    hide MemberKey;
    if SortBy(MemberKey, s) == s && !RepeatsKey(s) {
      SortStrict(MemberKey, s);
    }
    if StrictlySorted(MemberKey, s) {
      SortIdentity(MemberKey, s);
      StrictDistinct(MemberKey, s);
    }
  }

  // ----- the passes after grouping -----

  method CheckHistories(records: RecordMap, histories: HistoryMap) returns (ok: bool)
    requires forall who :: who in histories ==> histories[who] != []
    ensures ok <==> (forall who :: who in histories ==> HistoryFits(histories[who], Lookup(records, who)))
                    && (forall who :: who in records ==> who in histories)
  {
    var todo := histories.Keys;
    while todo != {}
      invariant todo <= histories.Keys
      invariant forall who :: who in histories && who !in todo ==> HistoryFits(histories[who], Lookup(records, who))
      decreases |todo|
    {
      var who :| who in todo;
      if !HistoryFits(histories[who], Lookup(records, who)) {
        return false;
      }
      todo := todo - {who};
    }
    ok := forall who :: who in records ==> who in histories;
  }

  method CheckBranches(parents: Parents) returns (ok: bool)
    ensures ok <==> forall id :: id in parents ==> Rooted(parents, Some(id))
  {
    var todo := parents.Keys;
    while todo != {}
      invariant todo <= parents.Keys
      invariant forall id :: id in parents && id !in todo ==> Rooted(parents, Some(id))
      decreases |todo|
    {
      var id :| id in todo;
      var rooted := WalkParents(parents, id);
      if !rooted {
        return false;
      }
      todo := todo - {id};
    }
    ok := true;
  }

  ghost predicate Placed(parents: Parents, records: RecordMap, m: Member) {
    m.Membership? && m.branch in parents && Who(m) in records
  }

  predicate Clashes(m: Member, n: Member)
    requires m.Membership? && n.Membership?
  {
    Who(m) == Who(n) && (m.branch == n.branch || (m.primary && n.primary))
  }

  method CheckMemberships(parents: Parents, records: RecordMap, memberships: seq<Member>) returns (ok: bool)
    requires forall m :: m in memberships ==> m.Membership?
    ensures ok <==> (forall i :: 0 <= i < |memberships| ==> Placed(parents, records, memberships[i]))
                    && (forall i, j :: 0 <= i < j < |memberships| ==> !Clashes(memberships[i], memberships[j]))
  {
    var relationships: set<(Uuid, Identity)> := {};
    var primaries: set<Identity> := {};
    for k := 0 to |memberships|
      invariant forall i :: 0 <= i < k ==> Placed(parents, records, memberships[i])
      invariant forall i, j :: 0 <= i < j < k ==> !Clashes(memberships[i], memberships[j])
      invariant forall x :: x in relationships <==> exists i :: 0 <= i < k && (memberships[i].branch, Who(memberships[i])) == x
      invariant forall x :: x in primaries <==> exists i :: 0 <= i < k && memberships[i].primary && Who(memberships[i]) == x
    {
      var m := memberships[k];
      if m.branch !in parents || Who(m) !in records {
        return false;
      }
      if (m.branch, Who(m)) in relationships {
        return false;
      }
      if m.primary && Who(m) in primaries {
        return false;
      }
      relationships := relationships + {(m.branch, Who(m))};
      if m.primary {
        primaries := primaries + {Who(m)};
      }
    }
    ok := true;
  }

  // ----- what the passes decide -----

  lemma {:induction false} HistoriesDecided(s: seq<Member>, records: RecordMap, histories: HistoryMap,
                                            parents: Parents, memberships: seq<Member>)
    requires StrictlySorted(MemberKey, s) && Collected(s, records, histories, parents, memberships)
    ensures (forall who :: who in histories ==> HistoryFits(histories[who], Lookup(records, who)))
            && (forall who :: who in records ==> who in histories)
        <==> (forall h :: h in s && h.History? ==> EventFits(s, h)) && (forall r :: r in s && r.Record? ==> RecordFits(s, r))
  {
    hide RecordOf, EventsOf, HistoryFits, EventFits, RecordFits, MemberKey;
    HistoriesIff(s);
    if AllHistoriesFit(s) {
      forall who | who in histories ensures HistoryFits(histories[who], Lookup(records, who)) {
        EventsMember(s, who, EventsOf(s, who)[0]);
        assert EventsOf(s, who)[0] in s;
      }
      forall who | who in records ensures who in histories {
        RecordFound(s, who);
        assert Lookup(records, who).Some?;
      }
    }
    if (forall who :: who in histories ==> HistoryFits(histories[who], Lookup(records, who)))
       && (forall who :: who in records ==> who in histories) {
      forall m | m in s && m.History? ensures EventsOf(s, Who(m)) != [] {
        EventsMember(s, Who(m), m);
      }
      forall m | m in s && m.Record? ensures EventsOf(s, Who(m)) != [] {
        RecordIs(s, Who(m), m);
        assert Lookup(records, Who(m)).Some?;
      }
    }
  }

  lemma {:induction false} MembershipsDecided(s: seq<Member>, records: RecordMap, histories: HistoryMap,
                                              parents: Parents, memberships: seq<Member>)
    requires StrictlySorted(MemberKey, s) && Collected(s, records, histories, parents, memberships)
    ensures (forall i :: 0 <= i < |memberships| ==> Placed(parents, records, memberships[i]))
            && (forall i, j :: 0 <= i < j < |memberships| ==> !Clashes(memberships[i], memberships[j]))
        <==> MembershipsFit(s)
  {
    hide RecordOf, EventsOf, MemberKey;
    forall m | m in memberships ensures Placed(parents, records, m) <==> HasBranch(s, m.branch) && HasRecord(s, Who(m)) {
      PlacedIff(s, records, parents, m);
    }
    StrictDistinct(MemberKey, memberships);
    if forall i :: 0 <= i < |memberships| ==> Placed(parents, records, memberships[i]) {
      forall m | m in s && m.Membership? ensures HasBranch(s, m.branch) && HasRecord(s, Who(m)) {
        assert m in memberships;
      }
      if forall i, j :: 0 <= i < j < |memberships| ==> !Clashes(memberships[i], memberships[j]) {
        NoClash(memberships);
      }
    }
    if MembershipsFit(s) {
      forall i, j | 0 <= i < j < |memberships| ensures !Clashes(memberships[i], memberships[j]) {
        assert memberships[i] in s && memberships[j] in s;
        assert MemberKey(memberships[i]) != MemberKey(memberships[j]);
      }
    }
  }

  lemma {:induction false} NoClash(memberships: seq<Member>)
    requires forall m :: m in memberships ==> m.Membership?
    requires forall i, j :: 0 <= i < j < |memberships| ==> !Clashes(memberships[i], memberships[j])
    ensures forall m, n :: m in memberships && n in memberships && Clashes(m, n) ==> m == n
  {
    forall m, n | m in memberships && n in memberships && Clashes(m, n) ensures m == n {
      var i :| 0 <= i < |memberships| && memberships[i] == m;
      var j :| 0 <= j < |memberships| && memberships[j] == n;
    }
  }

  lemma {:induction false} PlacedIff(s: seq<Member>, records: RecordMap, parents: Parents, m: Member)
    requires m.Membership? && ParentsOf(s, parents) && forall who :: Lookup(records, who) == RecordOf(s, who)
    ensures Placed(parents, records, m) <==> HasBranch(s, m.branch) && HasRecord(s, Who(m))
  {
    hide RecordOf;
    RecordFound(s, Who(m));
    assert Lookup(records, Who(m)) == RecordOf(s, Who(m));
  }

  /** `validate_portable_members`: it accepts exactly the well-formed stores. */
  method ValidatePortableMembers(f: Formats, members: seq<Member>, spec: RecordSpecification) returns (ok: bool)
    ensures ok <==> WellFormed(f, spec, members)
  {
    hide MemberKey, SortBy, MemberFits, EventFits, RecordFits, Forest, MembershipsFit, Collected, RecordOf,
         EventsOf, Rooted, Placed, Clashes, HistoryFits;
    if |members| > MAX_STORE_MEMBERS {
      return false;
    }
    OrderIff(members);
    if SortBy(MemberKey, members) != members || RepeatsKey(members) {
      return false;
    }
    var records: RecordMap := map[];
    var histories: HistoryMap := map[];
    var parents: Parents := map[];
    var memberships: seq<Member> := [];
    NothingCollected();
    for k := 0 to |members|
      invariant forall i :: 0 <= i < k ==> MemberFits(f, spec, members[i])
      invariant Collected(members[..k], records, histories, parents, memberships)
    {
      var m := members[k];
      assert members[..k + 1] == members[..k] + [m];
      if !MemberFits(f, spec, m) {
        return false;
      }
      match m {
        case Record(_, _, _, _, _, _, _) =>
          CollectRecord(members[..k], m, records, histories, parents, memberships);
          records := records[Who(m) := m];
        case History(_, _, _, _, _, _, _) =>
          CollectEvent(members[..k], m, records, histories, parents, memberships);
          histories := histories[Who(m) := (if Who(m) in histories then histories[Who(m)] else []) + [m]];
        case Branch(_, _, _, _, _, _) =>
          NewBranch(members, k);
          CollectBranch(members[..k], m, records, histories, parents, memberships);
          parents := parents[m.branch := m.parent];
        case Membership(_, _, _, _) =>
          AllBefore(members, k);
          CollectMembership(members[..k], m, records, histories, parents, memberships);
          memberships := memberships + [m];
      }
    }
    assert members[..|members|] == members;
    HistoriesDecided(members, records, histories, parents, memberships);
    MembershipsDecided(members, records, histories, parents, memberships);
    CollectedFacts(members, records, histories, parents, memberships);
    ForestIff(members, parents);
    ok := CheckHistories(records, histories);
    if ok {
      ok := CheckBranches(parents);
    }
    if ok {
      ok := CheckMemberships(parents, records, memberships);
    }
  }

  lemma {:induction false} CollectedFacts(s: seq<Member>, records: RecordMap, histories: HistoryMap,
                                          parents: Parents, memberships: seq<Member>)
    requires Collected(s, records, histories, parents, memberships)
    ensures ParentsOf(s, parents) && (forall who :: who in histories ==> histories[who] != [])
    ensures forall m :: m in memberships ==> m.Membership?
  {
  }

  lemma {:induction false} AllBefore(s: seq<Member>, k: nat)
    requires StrictlySorted(MemberKey, s) && k < |s|
    ensures forall x :: x in s[..k] ==> Less(MemberKey(x), MemberKey(s[k]))
  {
    hide MemberKey;
  }

  lemma {:induction false} NewBranch(s: seq<Member>, k: nat)
    requires StrictlySorted(MemberKey, s) && k < |s| && s[k].Branch?
    ensures forall b :: b in s[..k] && b.Branch? ==> b.branch != s[k].branch
  {
    AllBefore(s, k);
    LessTotal(MemberKey(s[k]), MemberKey(s[k]));
  }

  // ----- whole stores under evolution -----

  lemma {:induction false} EntityKept(current: Manifest, target: Manifest, entity: Name)
    requires ValidManifest(current) && ValidManifest(target) && Classify(current, target).Some?
    requires Find(EntityName, CompileRecords(current).entities, entity).Some?
    ensures Find(EntityName, CompileRecords(target).entities, entity).Some?
  {
    hide ValidManifest, Classify, CompileRecords, Find;
    CompiledRecord(current, entity, []);
    CompiledRecord(target, entity, []);
    EntityFound(current, target, entity);
  }

  lemma {:induction false} FieldsSurvive(f: Formats, current: Manifest, target: Manifest, entity: Name,
                                         fields: seq<Entry>)
    requires ValidManifest(current) && ValidManifest(target) && Classify(current, target).Some?
    requires FieldsFit(f, CompileRecords(current), entity, fields)
    ensures FieldsFit(f, CompileRecords(target), entity, fields)
  {
    hide ValidManifest, Classify, CompileRecords, ValidateRecord;
    RecordSurvives(f, current, target, entity, ThawEntries(fields), true, false);
  }

  /** A well-formed store stays well formed, unchanged, under an accepted transition. */
  lemma {:induction false} StoreSurvives(f: Formats, current: Manifest, target: Manifest, s: seq<Member>)
    requires ValidManifest(current) && ValidManifest(target) && Classify(current, target).Some?
    requires WellFormed(f, CompileRecords(current), s)
    ensures WellFormed(f, CompileRecords(target), s)
  {
    hide ValidManifest, Classify, CompileRecords, FieldsFit, EventFits, RecordFits, Forest, MembershipsFit, Find;
    forall m | m in s ensures MemberFits(f, CompileRecords(target), m) {
      assert MemberFits(f, CompileRecords(current), m);
      match m {
        case Record(entity, _, _, _, _, _, fields) =>
          FieldsSurvive(f, current, target, entity, fields);
        case History(entity, _, _, _, _, before, after) =>
          EntityKept(current, target, entity);
          if before.Some? {
            FieldsSurvive(f, current, target, entity, before.value);
          }
          if after.Some? {
            FieldsSurvive(f, current, target, entity, after.value);
          }
        case _ =>
      }
    }
  }

  /** Over any chain of accepted transitions a whole store keeps its validity. */
  lemma {:induction false} StoreSurvivesChain(f: Formats, path: seq<Manifest>, s: seq<Member>)
    requires Chain(path) && WellFormed(f, CompileRecords(path[0]), s)
    ensures WellFormed(f, CompileRecords(path[|path| - 1]), s)
  {
    hide ValidManifest, Classify, CompileRecords, WellFormed;
    if |path| > 1 {
      var front := path[..|path| - 1];
      StoreSurvivesChain(f, front, s);
      StoreSurvives(f, path[|path| - 2], path[|path| - 1], s);
    }
  }

  // ----- whole stores after export and import -----

  function TransferredSnapshot(fields: Option<seq<Entry>>): Option<seq<Entry>> {
    match fields
    case None => None
    case Some(v) => Some(CanonEntries(v))
  }

  /** A member as the decoder reads it back: whole floats have become integers. */
  function TransferredMember(m: Member): Member {
    match m
    case Record(entity, id, version, created, updated, via, fields) =>
      Record(entity, id, version, created, updated, via, CanonEntries(fields))
    case History(entity, id, version, kind, at, before, after) =>
      History(entity, id, version, kind, at, TransferredSnapshot(before), TransferredSnapshot(after))
    case _ => m
  }

  function Transferred(s: seq<Member>): (r: seq<Member>)
    ensures |r| == |s| && forall i :: 0 <= i < |r| ==> r[i] == TransferredMember(s[i])
  {
    seq(|s|, i requires 0 <= i < |s| => TransferredMember(s[i]))
  }

  predicate Portable(f: Formats, fields: seq<Entry>) {
    ExactNumbers(fields) && f.size(CanonEntries(fields)) <= MAX_RECORD_JSON_BYTES
  }

  predicate PortableSnapshot(f: Formats, fields: Option<seq<Entry>>) {
    fields.Some? ==> Portable(f, fields.value)
  }

  /** Every object of the member has only exact whole floats and stays within the size bound. */
  predicate PortableMember(f: Formats, m: Member) {
    match m
    case Record(_, _, _, _, _, _, fields) => Portable(f, fields)
    case History(_, _, _, _, _, before, after) => PortableSnapshot(f, before) && PortableSnapshot(f, after)
    case _ => true
  }

  lemma {:induction false} TransferKey(m: Member)
    ensures MemberKey(TransferredMember(m)) == MemberKey(m)
  {
  }

  lemma {:induction false} FieldsTransfer(f: Formats, spec: RecordSpecification, entity: Name, fields: seq<Entry>)
    requires FieldsFit(f, spec, entity, fields)
    ensures FieldsFit(f, spec, entity, CanonEntries(fields)) <==> Portable(f, fields)
  {
    hide ValidateRecord, ExactNumbers;
    TransferredRecord(f, spec, entity, fields);
  }

  lemma {:induction false} MemberTransfer(f: Formats, spec: RecordSpecification, m: Member)
    requires MemberFits(f, spec, m)
    ensures MemberFits(f, spec, TransferredMember(m)) <==> PortableMember(f, m)
  {
    hide FieldsFit, Portable, Find;
    match m {
      case Record(entity, _, _, _, _, _, fields) => FieldsTransfer(f, spec, entity, fields);
      case History(entity, _, _, _, _, before, after) =>
        if before.Some? {
          FieldsTransfer(f, spec, entity, before.value);
        }
        if after.Some? {
          FieldsTransfer(f, spec, entity, after.value);
        }
      case _ =>
    }
  }

  lemma {:induction false} TransferMembers(s: seq<Member>)
    ensures forall m :: m in s ==> TransferredMember(m) in Transferred(s)
    ensures forall x :: x in Transferred(s) ==> exists m :: m in s && TransferredMember(m) == x
  {
    hide TransferredMember;
    forall m | m in s ensures TransferredMember(m) in Transferred(s) {
      var i :| 0 <= i < |s| && s[i] == m;
      assert Transferred(s)[i] == TransferredMember(m);
    }
    forall x | x in Transferred(s) ensures exists m :: m in s && TransferredMember(m) == x {
      var i :| 0 <= i < |s| && Transferred(s)[i] == x;
      assert s[i] in s;
    }
  }

  lemma {:induction false} TransferLatest(s: seq<Member>, h: Member)
    requires Latest(s, h)
    ensures Latest(Transferred(s), TransferredMember(h))
  {
    TransferMembers(s);
  }

  lemma {:induction false} LatestTransfer(s: seq<Member>, h: Member)
    requires h.History? && Latest(Transferred(s), TransferredMember(h))
    ensures Latest(s, h)
  {
    TransferMembers(s);
    forall x | x in s && IsEvent(x, Who(h)) ensures x.version <= h.version {
      assert TransferredMember(x) in Transferred(s) && IsEvent(TransferredMember(x), Who(h));
    }
  }

  lemma {:induction false} TransferEvent(s: seq<Member>, h: Member)
    requires h.History? && EventFits(s, h)
    ensures EventFits(Transferred(s), TransferredMember(h))
  {
    var t, g := Transferred(s), TransferredMember(h);
    TransferMembers(s);
    hide EventFits, Latest;
    CreatesFirst(s, h);
    if h.version > 1 {
      var x := Predecessor(s, h);
      EventHasPredecessor(t, g, TransferredMember(x));
    }
    if Latest(t, g) && g.kind != Delete {
      LatestTransfer(s, h);
      var r := Survivor(s, h);
      EventHasSurvivor(t, g, TransferredMember(r));
    }
    EventParts(t, g);
  }

  lemma {:induction false} EventHasPredecessor(t: seq<Member>, g: Member, x: Member)
    requires g.History? && x in t && IsEvent(x, Who(g)) && x.version == g.version - 1 && x.kind != Delete
    ensures exists x :: x in t && IsEvent(x, Who(g)) && x.version == g.version - 1 && x.kind != Delete
  {
  }

  lemma {:induction false} EventHasSurvivor(t: seq<Member>, g: Member, r: Member)
    requires g.History? && r in t && IsRecord(r, Who(g)) && r.version == g.version
    ensures exists r :: r in t && IsRecord(r, Who(g)) && r.version == g.version
  {
  }

  lemma {:induction false} EventParts(t: seq<Member>, g: Member)
    requires g.History? && (g.version == 1 <==> g.kind == Create)
    requires g.version > 1 ==> exists x :: x in t && IsEvent(x, Who(g)) && x.version == g.version - 1 && x.kind != Delete
    requires Latest(t, g) && g.kind != Delete ==> exists r :: r in t && IsRecord(r, Who(g)) && r.version == g.version
    ensures EventFits(t, g)
  {
  }

  lemma {:induction false} TransferRecord(s: seq<Member>, r: Member)
    requires r.Record? && RecordFits(s, r)
    ensures RecordFits(Transferred(s), TransferredMember(r))
  {
    var h := Origin(s, r);
    TransferLatest(s, h);
    TransferMembers(s);
    var g := TransferredMember(h);
    assert g in Transferred(s) && Latest(Transferred(s), g) && Who(g) == Who(TransferredMember(r))
           && g.version == TransferredMember(r).version && g.kind != Delete;
  }

  lemma {:induction false} SamePlaces(s: seq<Member>)
    ensures forall id :: HasBranch(s, id) ==> HasBranch(Transferred(s), id)
    ensures forall who :: HasRecord(s, who) ==> HasRecord(Transferred(s), who)
    ensures forall x :: x in Transferred(s) && (x.Branch? || x.Membership?) ==> x in s
  {
    TransferMembers(s);
    forall id | HasBranch(s, id) ensures HasBranch(Transferred(s), id) {
      var b :| b in s && b.Branch? && b.branch == id;
      assert TransferredMember(b) in Transferred(s);
    }
    forall who | HasRecord(s, who) ensures HasRecord(Transferred(s), who) {
      var r :| r in s && IsRecord(r, who);
      assert TransferredMember(r) in Transferred(s) && IsRecord(TransferredMember(r), who);
    }
  }

  lemma {:induction false} TransferForest(s: seq<Member>)
    requires Forest(s)
    ensures Forest(Transferred(s))
  {
    SamePlaces(s);
    var rank :| Ranked(s, rank);
    assert Ranked(Transferred(s), rank);
  }

  lemma {:induction false} TransferMemberships(s: seq<Member>)
    requires MembershipsFit(s)
    ensures MembershipsFit(Transferred(s))
  {
    hide HasBranch, HasRecord;
    SamePlaces(s);
  }

  lemma {:induction false} TransferOrder(s: seq<Member>)
    requires StrictlySorted(MemberKey, s)
    ensures StrictlySorted(MemberKey, Transferred(s))
  {
    var t := Transferred(s);
    hide MemberKey, TransferredMember;
    forall i, j | 0 <= i < j < |t| ensures Less(MemberKey(t[i]), MemberKey(t[j])) {
      TransferKey(s[i]);
      TransferKey(s[j]);
    }
  }

  /** A well-formed store comes back well formed from export and import exactly when every
      object in it has only whole floats that binary64 holds exactly as integers and stays
      within its size bound once they are written as integers. */
  lemma {:induction false} TransferredStore(f: Formats, spec: RecordSpecification, s: seq<Member>)
    requires WellFormed(f, spec, s)
    ensures WellFormed(f, spec, Transferred(s)) <==> forall m :: m in s ==> PortableMember(f, m)
  {
    hide MemberFits, EventFits, RecordFits, Forest, MembershipsFit, TransferredMember, PortableMember, MemberKey,
         Transferred;
    var t := Transferred(s);
    TransferOrder(s);
    TransferForest(s);
    TransferMemberships(s);
    TransferMembers(s);
    forall m | m in s ensures MemberFits(f, spec, TransferredMember(m)) <==> PortableMember(f, m) {
      MemberTransfer(f, spec, m);
    }
    forall h | h in t && h.History? ensures EventFits(t, h) {
      var m :| m in s && TransferredMember(m) == h;
      SameKind(m);
      TransferEvent(s, m);
    }
    forall r | r in t && r.Record? ensures RecordFits(t, r) {
      var m :| m in s && TransferredMember(m) == r;
      SameKind(m);
      TransferRecord(s, m);
    }
  }

  lemma {:induction false} SameKind(m: Member)
    ensures TransferredMember(m).History? <==> m.History?
    ensures TransferredMember(m).Record? <==> m.Record?
  {
  }
}
