/** Logical service stores: what makes a list of members well formed, stated member by
    member, and the validator that decides it with dictionaries, sets and a parent walk. */
module PortableStore {
  import opened Ordering
  import opened Text
  import opened CanonicalJson
  import opened Manifest
  import opened Relational
  import opened Records

  const MAX_STORE_MEMBERS := 1_000_000 - 3

  /** A nonzero UUID as its 128-bit integer; the order of hex texts is the order of integers. */
  type Uuid = n: int | 1 <= n < 0x1_00000000_00000000_00000000_00000000 witness 1

  type Version = n: int | 1 <= n witness 1

  /** UTC time in microseconds. */
  type Time = int

  datatype HistoryKind =
    | Create | Update | Delete | PrimaryAssign | PrimaryMove | PrimaryUnassign | RelatedAssign | RelatedUnassign

  datatype BranchStatus = ActiveBranch | ArchivedBranch | SupersededBranch

  datatype BranchText = BranchText(slug: Text, title: Text, intent: Text, branchType: Option<Text>,
                                   status: BranchStatus, summary: Option<Text>)

  datatype Member =
    | Record(entity: Name, id: Uuid, version: Version, createdAt: Time, updatedAt: Time, createdVia: Text,
             fields: seq<Entry>)
    | History(entity: Name, id: Uuid, version: Version, kind: HistoryKind, occurredAt: Time,
              before: Option<seq<Entry>>, after: Option<seq<Entry>>)
    | Branch(branch: Uuid, text: BranchText, parent: Option<Uuid>, createdAt: Time, updatedAt: Time,
             revision: Version)
    | Membership(branch: Uuid, entity: Name, id: Uuid, primary: bool)

  type Identity = (Name, Uuid)

  /** Ends a name in a key, below every code point. */
  const END: int := -1

  /** `portable_member_sort_key`. */
  function MemberKey(m: Member): Key {
    match m
    case Record(entity, id, _, _, _, _, _) => [0] + entity + [END, id]
    case History(entity, id, version, _, _, _, _) => [1] + entity + [END, id, version]
    case Branch(id, _, _, _, _, _) => [2, id]
    case Membership(branch, entity, id, primary) => [3, branch] + entity + [END, id, if primary then 0 else 1]
  }

  // ----- the well-formed stores -----

  predicate IsRecord(m: Member, who: Identity) {
    m.Record? && (m.entity, m.id) == who
  }

  predicate IsEvent(m: Member, who: Identity) {
    m.History? && (m.entity, m.id) == who
  }

  function Who(m: Member): Identity
    requires !m.Branch?
  {
    (m.entity, m.id)
  }

  predicate FieldsFit(f: Formats, spec: RecordSpecification, entity: Name, fields: seq<Entry>) {
    ValidateCreate(f, spec, entity, ThawEntries(fields)) == Some(fields)
  }

  predicate SnapshotFits(f: Formats, spec: RecordSpecification, entity: Name, snapshot: Option<seq<Entry>>) {
    snapshot.Some? ==> FieldsFit(f, spec, entity, snapshot.value)
  }

  predicate MemberFits(f: Formats, spec: RecordSpecification, m: Member) {
    match m
    case Record(entity, _, _, _, _, _, fields) => FieldsFit(f, spec, entity, fields)
    case History(entity, _, _, _, _, before, after) =>
      Find(EntityName, spec.entities, entity).Some? && SnapshotFits(f, spec, entity, before) && SnapshotFits(f, spec, entity, after)
    case _ => true
  }

  ghost predicate Latest(s: seq<Member>, h: Member) {
    h.History? && forall x :: x in s && IsEvent(x, Who(h)) ==> x.version <= h.version
  }

  /** Versions start at 1 with the only creation; every later event follows an event that
      did not delete; the last event leaves a record of its version unless it deletes. */
  ghost predicate EventFits(s: seq<Member>, h: Member)
    requires h.History?
  {
    && (h.version == 1 <==> h.kind == Create)
    && (h.version > 1 ==> exists x :: x in s && IsEvent(x, Who(h)) && x.version == h.version - 1 && x.kind != Delete)
    && (Latest(s, h) && h.kind != Delete ==> exists r :: r in s && IsRecord(r, Who(h)) && r.version == h.version)
  }

  /** A live record is what the last event of its history left. */
  ghost predicate RecordFits(s: seq<Member>, r: Member)
    requires r.Record?
  {
    exists h :: h in s && Latest(s, h) && Who(h) == Who(r) && h.version == r.version && h.kind != Delete
  }

  predicate HasBranch(s: seq<Member>, id: Uuid) {
    exists b :: b in s && b.Branch? && b.branch == id
  }

  predicate HasRecord(s: seq<Member>, who: Identity) {
    exists r :: r in s && IsRecord(r, who)
  }

  /** A measure that falls from every branch to its parent, so no chain of parents returns. */
  ghost predicate Ranked(s: seq<Member>, rank: map<Uuid, nat>) {
    forall b :: b in s && b.Branch? ==>
      b.branch in rank && (b.parent.Some? ==> b.parent.value in rank && rank[b.parent.value] < rank[b.branch])
  }

  ghost predicate Forest(s: seq<Member>) {
    && (forall b :: b in s && b.Branch? && b.parent.Some? ==> HasBranch(s, b.parent.value))
    && exists rank :: Ranked(s, rank)
  }

  ghost predicate MembershipsFit(s: seq<Member>) {
    && (forall m :: m in s && m.Membership? ==> HasBranch(s, m.branch) && HasRecord(s, Who(m)))
    && (forall m, n :: m in s && n in s && m.Membership? && n.Membership? && m.branch == n.branch && Who(m) == Who(n) ==> m == n)
    && (forall m, n :: m in s && n in s && m.Membership? && n.Membership? && m.primary && n.primary && Who(m) == Who(n) ==> m == n)
  }

  ghost predicate WellFormed(f: Formats, spec: RecordSpecification, s: seq<Member>) {
    && |s| <= MAX_STORE_MEMBERS
    && StrictlySorted(MemberKey, s)
    && (forall m :: m in s ==> MemberFits(f, spec, m))
    && (forall h :: h in s && h.History? ==> EventFits(s, h))
    && (forall r :: r in s && r.Record? ==> RecordFits(s, r))
    && Forest(s)
    && MembershipsFit(s)
  }

  // ----- histories, as the validator groups them -----

  function EventsOf(s: seq<Member>, who: Identity): seq<Member> {
    if s == [] then []
    else EventsOf(s[..|s| - 1], who) + (if IsEvent(s[|s| - 1], who) then [s[|s| - 1]] else [])
  }

  lemma {:induction false} EventsMember(s: seq<Member>, who: Identity, m: Member)
    ensures m in EventsOf(s, who) <==> m in s && IsEvent(m, who)
  {
    if s != [] {
      EventsMember(s[..|s| - 1], who, m);
      assert s == s[..|s| - 1] + [s[|s| - 1]];
    }
  }

  ghost predicate Ascending(events: seq<Member>) {
    (forall x :: x in events ==> x.History?)
    && forall i, j :: 0 <= i < j < |events| ==> events[i].version < events[j].version
  }

  lemma {:induction false} AscendingAppend(events: seq<Member>, last: Member)
    requires Ascending(events) && last.History? && forall x :: x in events ==> x.version < last.version
    ensures Ascending(events + [last])
  {
  }

  /** In a strictly ordered store the events of one record come in the order of versions. */
  lemma {:induction false} EventsAscend(s: seq<Member>, who: Identity)
    requires StrictlySorted(MemberKey, s)
    ensures Ascending(EventsOf(s, who))
  {
    hide Ascending;
    if s == [] {
      NothingAscends();
    } else {
      var front, last := s[..|s| - 1], s[|s| - 1];
      EventsAscend(front, who);
      var before := EventsOf(front, who);
      assert before + [] == before;
      if IsEvent(last, who) {
        forall x | x in before ensures x.History? && x.version < last.version {
          EventsMember(front, who, x);
          var i :| 0 <= i < |front| && front[i] == x;
          assert Less(MemberKey(s[i]), MemberKey(s[|s| - 1]));
          SameHistoryOrder(x, last);
        }
        AscendingAppend(before, last);
      }
    }
  }

  lemma {:induction false} NothingAscends()
    ensures Ascending([])
  {
  }

  lemma {:induction false} LessCommon(p: Key, a: Key, b: Key)
    ensures Less(p + a, p + b) <==> Less(a, b)
  {
    if p == [] {
      assert p + a == a && p + b == b;
    } else {
      assert (p + a)[1..] == p[1..] + a && (p + b)[1..] == p[1..] + b;
      LessCommon(p[1..], a, b);
    }
  }

  lemma {:induction false} SameHistoryOrder(x: Member, y: Member)
    requires x.History? && y.History? && Who(x) == Who(y)
    ensures Less(MemberKey(x), MemberKey(y)) <==> x.version < y.version
  {
    var p := [1] + x.entity + [END, x.id];
    assert MemberKey(x) == p + [x.version] && MemberKey(y) == p + [y.version];
    LessCommon(p, [x.version], [y.version]);
  }

  /** The live record of an identity; a later entry of the dictionary replaces an earlier one. */
  function RecordOf(s: seq<Member>, who: Identity): Option<Member> {
    if s == [] then None
    else if IsRecord(s[|s| - 1], who) then Some(s[|s| - 1])
    else RecordOf(s[..|s| - 1], who)
  }

  lemma {:induction false} RecordFound(s: seq<Member>, who: Identity)
    ensures RecordOf(s, who).Some? ==> RecordOf(s, who).value in s && IsRecord(RecordOf(s, who).value, who)
    ensures RecordOf(s, who).None? ==> forall r :: r in s ==> !IsRecord(r, who)
  {
    if s != [] {
      RecordFound(s[..|s| - 1], who);
      assert s == s[..|s| - 1] + [s[|s| - 1]];
    }
  }

  lemma {:induction false} SameKey(s: seq<Member>, x: Member, y: Member)
    requires StrictlySorted(MemberKey, s) && x in s && y in s && MemberKey(x) == MemberKey(y)
    ensures x == y
  {
    hide MemberKey;
    StrictDistinct(MemberKey, s);
    var i :| 0 <= i < |s| && s[i] == x;
    var j :| 0 <= j < |s| && s[j] == y;
  }

  lemma {:induction false} RecordIs(s: seq<Member>, who: Identity, r: Member)
    requires StrictlySorted(MemberKey, s) && r in s && IsRecord(r, who)
    ensures RecordOf(s, who) == Some(r)
  {
    RecordFound(s, who);
    SameKey(s, r, RecordOf(s, who).value);
  }

  /** The checks on one history and the live record it may leave. */
  predicate HistoryFits(events: seq<Member>, live: Option<Member>)
    requires events != []
  {
    && (forall x :: x in events ==> x.History?)
    && (live.Some? ==> live.value.Record?)
    && (forall i :: 0 <= i < |events| ==> events[i].version == i + 1)
    && events[0].kind == Create
    && (forall i :: 1 <= i < |events| ==> events[i].kind != Create)
    && (forall i :: 0 <= i < |events| - 1 ==> events[i].kind != Delete)
    && (events[|events| - 1].kind == Delete <==> live.None?)
    && (live.Some? ==> live.value.version == events[|events| - 1].version)
  }

  /** What the members say about one identity. */
  ghost predicate IdentityFits(s: seq<Member>, who: Identity) {
    && (forall h :: h in s && IsEvent(h, who) ==> EventFits(s, h))
    && (forall r :: r in s && IsRecord(r, who) ==> RecordFits(s, r))
  }

  lemma {:induction false} EventChecked(s: seq<Member>, who: Identity, e: seq<Member>, live: Option<Member>, i: nat)
    requires e != [] && HistoryFits(e, live) && i < |e|
    requires forall h :: h in e <==> h in s && IsEvent(h, who)
    requires live.Some? ==> live.value in s && IsRecord(live.value, who)
    ensures EventFits(s, e[i])
  {
    var h, last := e[i], e[|e| - 1];
    assert h in e && last in e;
    if i > 0 {
      var x := e[i - 1];
      assert x in e;
      assert x in s && IsEvent(x, Who(h)) && x.version == h.version - 1 && x.kind != Delete;
    }
    if Latest(s, h) && h.kind != Delete {
      assert IsEvent(last, Who(h));
      var r := live.value;
      assert r in s && IsRecord(r, Who(h)) && r.version == h.version;
    }
  }

  lemma {:induction false} RecordChecked(s: seq<Member>, who: Identity, e: seq<Member>, r: Member)
    requires e != [] && HistoryFits(e, Some(r)) && IsRecord(r, who)
    requires forall h :: h in e <==> h in s && IsEvent(h, who)
    ensures RecordFits(s, r)
  {
    var last := e[|e| - 1];
    assert last in e;
    forall x | x in s && IsEvent(x, Who(last)) ensures x.version <= last.version {
      assert x in e;
      var j :| 0 <= j < |e| && e[j] == x;
    }
    assert Latest(s, last);
  }

  lemma {:induction false} ChecksImplyFit(s: seq<Member>, who: Identity)
    requires StrictlySorted(MemberKey, s) && EventsOf(s, who) != []
    requires HistoryFits(EventsOf(s, who), RecordOf(s, who))
    ensures IdentityFits(s, who)
  {
    hide EventsOf, RecordOf, HistoryFits, EventFits, RecordFits;
    var e := EventsOf(s, who);
    RecordFound(s, who);
    forall h ensures h in e <==> h in s && IsEvent(h, who) {
      EventsMember(s, who, h);
    }
    forall h | h in s && IsEvent(h, who) ensures EventFits(s, h) {
      var i :| 0 <= i < |e| && e[i] == h;
      EventChecked(s, who, e, RecordOf(s, who), i);
    }
    forall r | r in s && IsRecord(r, who) ensures RecordFits(s, r) {
      RecordIs(s, who, r);
      RecordChecked(s, who, e, r);
    }
  }

  lemma {:induction false} Predecessor(s: seq<Member>, h: Member) returns (x: Member)
    requires h.History? && EventFits(s, h) && h.version > 1
    ensures x in s && IsEvent(x, Who(h)) && x.version == h.version - 1 && x.kind != Delete
  {
    x :| x in s && IsEvent(x, Who(h)) && x.version == h.version - 1 && x.kind != Delete;
  }

  lemma {:induction false} Survivor(s: seq<Member>, h: Member) returns (r: Member)
    requires h.History? && EventFits(s, h) && Latest(s, h) && h.kind != Delete
    ensures r in s && IsRecord(r, Who(h)) && r.version == h.version
  {
    r :| r in s && IsRecord(r, Who(h)) && r.version == h.version;
  }

  lemma {:induction false} Origin(s: seq<Member>, r: Member) returns (h: Member)
    requires r.Record? && RecordFits(s, r)
    ensures h in s && Latest(s, h) && Who(h) == Who(r) && h.version == r.version && h.kind != Delete
  {
    h :| h in s && Latest(s, h) && Who(h) == Who(r) && h.version == r.version && h.kind != Delete;
  }

  lemma {:induction false} CreatesFirst(s: seq<Member>, h: Member)
    requires h.History? && EventFits(s, h)
    ensures h.version == 1 <==> h.kind == Create
  {
  }

  ghost predicate Grouped(s: seq<Member>, who: Identity, e: seq<Member>) {
    && e != [] && Ascending(e)
    && (forall h :: h in e <==> h in s && IsEvent(h, who))
    && forall h :: h in e ==> EventFits(s, h)
  }

  lemma {:induction false} VersionsContiguous(s: seq<Member>, who: Identity, e: seq<Member>, i: nat)
    requires Grouped(s, who, e) && i < |e|
    ensures e[i].version == i + 1
  {
    hide EventFits, Latest;
    assert e[i] in e;
    if i > 0 {
      VersionsContiguous(s, who, e, i - 1);
    }
    forall x | x in e && x.version < e[i].version ensures x.version <= i {
      var j :| 0 <= j < |e| && e[j] == x;
    }
    if e[i].version > i + 1 {
      var x := Predecessor(s, e[i]);
    }
  }

  lemma {:induction false} KindsFit(s: seq<Member>, who: Identity, e: seq<Member>, i: nat)
    requires Grouped(s, who, e) && i < |e|
    ensures e[i].kind == Create <==> i == 0
    ensures i < |e| - 1 ==> e[i].kind != Delete
  {
    hide EventFits, Latest;
    assert e[i] in e;
    VersionsContiguous(s, who, e, i);
    CreatesFirst(s, e[i]);
    if i < |e| - 1 {
      assert e[i + 1] in e;
      VersionsContiguous(s, who, e, i + 1);
      var x := Predecessor(s, e[i + 1]);
      assert x in e;
      var j :| 0 <= j < |e| && e[j] == x;
      VersionsContiguous(s, who, e, j);
    }
  }

  lemma {:induction false} LastEvent(s: seq<Member>, who: Identity, e: seq<Member>, live: Option<Member>)
    requires Grouped(s, who, e)
    requires live.Some? ==> live.value in s && IsRecord(live.value, who) && RecordFits(s, live.value)
    requires live.None? ==> forall r :: r in s ==> !IsRecord(r, who)
    ensures e[|e| - 1].kind == Delete <==> live.None?
    ensures live.Some? ==> live.value.version == e[|e| - 1].version
  {
    hide EventFits, RecordFits;
    var last := e[|e| - 1];
    assert last in e;
    assert Latest(s, last) by {
      forall x | x in s && IsEvent(x, Who(last)) ensures x.version <= last.version {
        assert x in e;
        var j :| 0 <= j < |e| && e[j] == x;
      }
    }
    if last.kind != Delete {
      var r := Survivor(s, last);
    }
    if live.Some? {
      var h := Origin(s, live.value);
      assert h in e;
      var j :| 0 <= j < |e| && e[j] == h;
      assert IsEvent(last, Who(h));
    }
  }

  lemma {:induction false} FitImpliesChecks(s: seq<Member>, who: Identity)
    requires StrictlySorted(MemberKey, s) && EventsOf(s, who) != [] && IdentityFits(s, who)
    ensures HistoryFits(EventsOf(s, who), RecordOf(s, who))
  {
    hide EventsOf, RecordOf, EventFits, RecordFits;
    var e, live := EventsOf(s, who), RecordOf(s, who);
    EventsAscend(s, who);
    RecordFound(s, who);
    forall h ensures h in e <==> h in s && IsEvent(h, who) {
      EventsMember(s, who, h);
    }
    assert Grouped(s, who, e);
    forall i | 0 <= i < |e| ensures e[i].version == i + 1 {
      VersionsContiguous(s, who, e, i);
    }
    forall i | 0 <= i < |e| ensures (e[i].kind == Create <==> i == 0) && (i < |e| - 1 ==> e[i].kind != Delete) {
      KindsFit(s, who, e, i);
    }
    LastEvent(s, who, e, live);
  }

  /** What the validator checks of the grouped histories. */
  predicate AllHistoriesFit(s: seq<Member>) {
    && (forall m :: m in s && m.History? ==> EventsOf(s, Who(m)) != [] && HistoryFits(EventsOf(s, Who(m)), RecordOf(s, Who(m))))
    && (forall m :: m in s && m.Record? ==> EventsOf(s, Who(m)) != [])
  }

  lemma {:induction false} HistoriesIff(s: seq<Member>)
    requires StrictlySorted(MemberKey, s)
    ensures AllHistoriesFit(s)
        <==> (forall h :: h in s && h.History? ==> EventFits(s, h)) && (forall r :: r in s && r.Record? ==> RecordFits(s, r))
  {
    hide EventsOf, RecordOf, HistoryFits, EventFits, RecordFits;
    if AllHistoriesFit(s) {
      forall m | m in s && (m.History? || m.Record?) ensures IdentityFits(s, Who(m)) {
        var e := EventsOf(s, Who(m));
        EventsMember(s, Who(m), e[0]);
        assert e[0] in e && EventsOf(s, Who(e[0])) != [];
        ChecksImplyFit(s, Who(m));
      }
      forall h | h in s && h.History? ensures EventFits(s, h) {
        assert IdentityFits(s, Who(h)) && IsEvent(h, Who(h));
      }
      forall r | r in s && r.Record? ensures RecordFits(s, r) {
        assert IdentityFits(s, Who(r)) && IsRecord(r, Who(r));
      }
    }
    if (forall h :: h in s && h.History? ==> EventFits(s, h)) && (forall r :: r in s && r.Record? ==> RecordFits(s, r)) {
      forall m | m in s && (m.History? || m.Record?)
        ensures EventsOf(s, Who(m)) != [] && HistoryFits(EventsOf(s, Who(m)), RecordOf(s, Who(m)))
      {
        EventExists(s, m);
        FitImpliesChecks(s, Who(m));
      }
    }
  }

  lemma {:induction false} EventExists(s: seq<Member>, m: Member)
    requires m in s && (m.History? || (m.Record? && RecordFits(s, m)))
    ensures EventsOf(s, Who(m)) != []
  {
    hide EventsOf;
    if m.History? {
      EventsMember(s, Who(m), m);
    } else {
      var h :| h in s && Latest(s, h) && Who(h) == Who(m) && h.version == m.version && h.kind != Delete;
      EventsMember(s, Who(m), h);
    }
  }

  // ----- the parent walk -----

  /** Each known branch with its parent. */
  type Parents = map<Uuid, Option<Uuid>>

  /** At most `n` steps up from here end at a root. */
  predicate Climbs(parents: Parents, from: Option<Uuid>, n: nat)
    decreases n
  {
    from.None? || (n > 0 && from.value in parents && Climbs(parents, parents[from.value], n - 1))
  }

  /** How many steps it takes. */
  function Steps(parents: Parents, from: Option<Uuid>, n: nat): nat
    requires Climbs(parents, from, n)
    decreases n
  {
    if from.None? then 0 else 1 + Steps(parents, parents[from.value], n - 1)
  }

  lemma {:induction false} StepsUnique(parents: Parents, from: Option<Uuid>, n: nat, m: nat)
    requires Climbs(parents, from, n) && Climbs(parents, from, m)
    ensures Steps(parents, from, n) == Steps(parents, from, m) <= m
    decreases n
  {
    if from.Some? {
      StepsUnique(parents, parents[from.value], n - 1, m - 1);
    }
  }

  ghost predicate Rooted(parents: Parents, from: Option<Uuid>) {
    exists n :: Climbs(parents, from, n)
  }

  ghost function Height(parents: Parents, from: Option<Uuid>): nat
    requires Rooted(parents, from)
  {
    var n :| Climbs(parents, from, n);
    Steps(parents, from, n)
  }

  lemma {:induction false} HeightIs(parents: Parents, from: Option<Uuid>, n: nat)
    requires Climbs(parents, from, n)
    ensures Rooted(parents, from) && Height(parents, from) == Steps(parents, from, n)
  {
    var k: nat :| Climbs(parents, from, k) && Height(parents, from) == Steps(parents, from, k);
    StepsUnique(parents, from, k, n);
  }

  lemma {:induction false} RootedStep(parents: Parents, from: Uuid)
    ensures Rooted(parents, Some(from)) <==> from in parents && Rooted(parents, parents[from])
    ensures Rooted(parents, Some(from)) ==> Height(parents, Some(from)) == 1 + Height(parents, parents[from])
  {
    if from in parents && Rooted(parents, parents[from]) {
      var n: nat :| Climbs(parents, parents[from], n);
      assert Climbs(parents, Some(from), n + 1);
    }
    if Rooted(parents, Some(from)) {
      var n: nat :| Climbs(parents, Some(from), n);
      HeightIs(parents, Some(from), n);
      HeightIs(parents, parents[from], n - 1);
    }
  }

  lemma {:induction false} RootIsRooted(parents: Parents)
    ensures Rooted(parents, None)
  {
    assert Climbs(parents, None, 0);
  }

  /** The walk from one branch, with the set of parents already seen. It ends because every
      parent it adds is a known branch; it succeeds exactly when the chain reaches a root. */
  method WalkParents(parents: Parents, branch: Uuid) returns (ok: bool)
    requires branch in parents
    ensures ok <==> Rooted(parents, Some(branch))
  {
    hide Rooted, Height;
    if parents[branch].Some? && parents[branch].value !in parents {
      RootedStep(parents, branch);
      RootedStep(parents, parents[branch].value);
      return false;
    }
    var seen: set<Uuid> := {};
    var parent := parents[branch];
    RootedStep(parents, branch);
    RootIsRooted(parents);
    while parent.Some?
      invariant seen <= parents.Keys
      invariant Rooted(parents, Some(branch)) <==> Rooted(parents, parent)
      invariant Rooted(parents, parent) ==>
                  Height(parents, parent) < Height(parents, Some(branch))
                  && forall x :: x in seen ==> Rooted(parents, Some(x)) && Height(parents, parent) < Height(parents, Some(x))
      decreases |parents.Keys - seen|
    {
      RootedStep(parents, parent.value);
      if parent.value in seen || parent.value == branch {
        return false;
      }
      if parent.value !in parents {
        return false;
      }
      assert parents.Keys - (seen + {parent.value}) == (parents.Keys - seen) - {parent.value};
      FewerLeft(parents.Keys - seen, parent.value);
      seen := seen + {parent.value};
      parent := parents[parent.value];
    }
    ok := true;
  }

  lemma {:induction false} FewerLeft(s: set<Uuid>, x: Uuid)
    requires x in s
    ensures |s - {x}| < |s|
  {
  }

  /** The branches of a store, as the dictionary of the validator. */
  ghost predicate ParentsOf(s: seq<Member>, parents: Parents) {
    && (forall b :: b in s && b.Branch? ==> b.branch in parents && parents[b.branch] == b.parent)
    && (forall id :: id in parents ==> HasBranch(s, id))
  }

  lemma {:induction false} RankClimbs(s: seq<Member>, parents: Parents, rank: map<Uuid, nat>, id: Uuid)
    requires ParentsOf(s, parents) && Ranked(s, rank) && id in parents && id in rank
    requires forall b :: b in s && b.Branch? && b.parent.Some? ==> HasBranch(s, b.parent.value)
    ensures Climbs(parents, Some(id), rank[id] + 1)
    decreases rank[id]
  {
    var b :| b in s && b.Branch? && b.branch == id;
    if b.parent.Some? {
      var p :| p in s && p.Branch? && p.branch == b.parent.value;
      RankClimbs(s, parents, rank, b.parent.value);
      ClimbsMore(parents, b.parent, rank[b.parent.value] + 1, rank[id]);
    }
  }

  lemma {:induction false} ClimbsMore(parents: Parents, from: Option<Uuid>, n: nat, m: nat)
    requires Climbs(parents, from, n) && n <= m
    ensures Climbs(parents, from, m)
    decreases n
  {
    if from.Some? {
      ClimbsMore(parents, parents[from.value], n - 1, m - 1);
    }
  }

  /** The branches form a forest exactly when every walk reaches a root. */
  lemma {:induction false} ForestIff(s: seq<Member>, parents: Parents)
    requires ParentsOf(s, parents)
    ensures Forest(s) <==> forall id :: id in parents ==> Rooted(parents, Some(id))
  {
    hide Rooted, Height;
    if Forest(s) {
      var rank :| Ranked(s, rank);
      forall id | id in parents ensures Rooted(parents, Some(id)) {
        var b :| b in s && b.Branch? && b.branch == id;
        RankClimbs(s, parents, rank, id);
        ClimbsRooted(parents, Some(id), rank[id] + 1);
      }
    }
    if forall id :: id in parents ==> Rooted(parents, Some(id)) {
      var rank := map id | id in parents :: Height(parents, Some(id));
      forall b | b in s && b.Branch? && b.parent.Some?
        ensures b.parent.value in parents && rank[b.parent.value] < rank[b.branch]
      {
        RootedStep(parents, b.branch);
        RootedStep(parents, b.parent.value);
      }
      assert Ranked(s, rank);
    }
  }

  lemma {:induction false} ClimbsRooted(parents: Parents, from: Option<Uuid>, n: nat)
    requires Climbs(parents, from, n)
    ensures Rooted(parents, from)
  {
  }
}
