/** The order of a store in the terms of its members: by bundle section, then by entity,
    identity, version and role. */
module MemberOrder {
  import opened Ordering
  import opened Text
  import opened Records
  import opened PortableStore
  import opened Payloads
  import B = Bundle

  /** Names in text order, and identities within a name as their hexadecimal texts. */
  predicate IdentityBefore(a: Identity, b: Identity) {
    Less(a.0, b.0) || (a.0 == b.0 && a.1 < b.1)
  }

  /** Within one section: records by identity, events also by version, branches by their
      own identity, memberships by branch, then identity, the primary one first. */
  predicate BeforeInSection(a: Member, b: Member) {
    match (a, b)
    case (Record(_, _, _, _, _, _, _), Record(_, _, _, _, _, _, _)) => IdentityBefore(Who(a), Who(b))
    case (History(_, _, _, _, _, _, _), History(_, _, _, _, _, _, _)) =>
      IdentityBefore(Who(a), Who(b)) || (Who(a) == Who(b) && a.version < b.version)
    case (Branch(_, _, _, _, _, _), Branch(_, _, _, _, _, _)) => a.branch < b.branch
    case (Membership(_, _, _, _), Membership(_, _, _, _)) =>
      || a.branch < b.branch
      || (a.branch == b.branch && IdentityBefore(Who(a), Who(b)))
      || (a.branch == b.branch && Who(a) == Who(b) && a.primary && !b.primary)
    case _ => false
  }

  /** The section of a member in a bundle. */
  function SectionOf(m: Member): nat {
    B.SectionIndex(MemberKind(m))
  }

  predicate Precedes(a: Member, b: Member) {
    SectionOf(a) < SectionOf(b) || (SectionOf(a) == SectionOf(b) && BeforeInSection(a, b))
  }

  ghost predicate InOrder(s: seq<Member>) {
    forall i, j :: 0 <= i < j < |s| ==> Precedes(s[i], s[j])
  }

  /** An ended name in front of a key: the order of names decides first. */
  lemma {:induction false} EndedNames(x: Text, y: Text, s: Key, t: Key)
    ensures Less(x + [END] + s, y + [END] + t) <==> Less(x, y) || (x == y && Less(s, t))
    decreases |x|
  {
    var a, b := x + [END] + s, y + [END] + t;
    if x == [] || y == [] {
      assert x == [] ==> a[0] == END && a[1..] == s;
      assert y == [] ==> b[0] == END && b[1..] == t;
      assert x != [] ==> a[0] == x[0];
      assert y != [] ==> b[0] == y[0];
    } else {
      assert a[1..] == x[1..] + [END] + s && b[1..] == y[1..] + [END] + t;
      assert a[0] == x[0] && b[0] == y[0];
      EndedNames(x[1..], y[1..], s, t);
      assert x == [x[0]] + x[1..] && y == [y[0]] + y[1..];
    }
  }

  lemma {:induction false} Headed(a: int, b: int, s: Key, t: Key)
    ensures Less([a] + s, [b] + t) <==> a < b || (a == b && Less(s, t))
  {
    assert ([a] + s)[1..] == s && ([b] + t)[1..] == t;
  }

  lemma {:induction false} LessOne(a: int, b: int)
    ensures Less([a], [b]) <==> a < b
  {
  }

  lemma {:induction false} LessTwo(a: int, b: int, c: int, d: int)
    ensures Less([a, b], [c, d]) <==> a < c || (a == c && b < d)
  {
    assert [a, b][1..] == [b] && [c, d][1..] == [d];
    LessOne(b, d);
  }

  lemma {:induction false} NamedKeys(x: Text, y: Text, s: Key, t: Key)
    ensures Less(x + ([END] + s), y + ([END] + t)) <==> Less(x, y) || (x == y && Less(s, t))
  {
    Assoc(x, [END], s);
    Assoc(y, [END], t);
    EndedNames(x, y, s, t);
  }

  lemma {:induction false} RecordOrder(a: Member, b: Member)
    requires a.Record? && b.Record?
    ensures Less(MemberKey(a), MemberKey(b)) <==> IdentityBefore(Who(a), Who(b))
  {
    assert MemberKey(a) == [0] + (a.entity + ([END] + [a.id]));
    assert MemberKey(b) == [0] + (b.entity + ([END] + [b.id]));
    Headed(0, 0, a.entity + ([END] + [a.id]), b.entity + ([END] + [b.id]));
    NamedKeys(a.entity, b.entity, [a.id], [b.id]);
    LessOne(a.id, b.id);
  }

  lemma {:induction false} EventOrder(a: Member, b: Member)
    requires a.History? && b.History?
    ensures Less(MemberKey(a), MemberKey(b))
       <==> IdentityBefore(Who(a), Who(b)) || (Who(a) == Who(b) && a.version < b.version)
  {
    assert MemberKey(a) == [1] + (a.entity + ([END] + [a.id, a.version]));
    assert MemberKey(b) == [1] + (b.entity + ([END] + [b.id, b.version]));
    Headed(1, 1, a.entity + ([END] + [a.id, a.version]), b.entity + ([END] + [b.id, b.version]));
    NamedKeys(a.entity, b.entity, [a.id, a.version], [b.id, b.version]);
    LessTwo(a.id, a.version, b.id, b.version);
  }

  lemma {:induction false} BranchOrder(a: Member, b: Member)
    requires a.Branch? && b.Branch?
    ensures Less(MemberKey(a), MemberKey(b)) <==> a.branch < b.branch
  {
    LessTwo(2, a.branch, 2, b.branch);
  }

  lemma {:induction false} MembershipOrder(a: Member, b: Member)
    requires a.Membership? && b.Membership?
    ensures Less(MemberKey(a), MemberKey(b)) <==> BeforeInSection(a, b)
  {
    var i: int, j: int := if a.primary then 0 else 1, if b.primary then 0 else 1;
    var s, t := a.entity + ([END] + [a.id, i]), b.entity + ([END] + [b.id, j]);
    assert MemberKey(a) == [3] + ([a.branch] + s) && MemberKey(b) == [3] + ([b.branch] + t);
    Headed(3, 3, [a.branch] + s, [b.branch] + t);
    Headed(a.branch, b.branch, s, t);
    NamedKeys(a.entity, b.entity, [a.id, i], [b.id, j]);
    LessTwo(a.id, i, b.id, j);
  }

  lemma {:induction false} SectionOrder(a: Member, b: Member)
    requires SectionOf(a) != SectionOf(b)
    ensures Less(MemberKey(a), MemberKey(b)) <==> SectionOf(a) < SectionOf(b)
  {
    assert MemberKey(a)[0] == SectionOf(a) - 2 && MemberKey(b)[0] == SectionOf(b) - 2;
  }

  /** The key of a member orders it by section and then within its section. */
  lemma {:induction false} KeyOrder(a: Member, b: Member)
    ensures Less(MemberKey(a), MemberKey(b)) <==> Precedes(a, b)
  {
    hide MemberKey, Less;
    if SectionOf(a) != SectionOf(b) {
      SectionOrder(a, b);
    } else {
      match a
      case Record(_, _, _, _, _, _, _) => RecordOrder(a, b);
      case History(_, _, _, _, _, _, _) => EventOrder(a, b);
      case Branch(_, _, _, _, _, _) => BranchOrder(a, b);
      case Membership(_, _, _, _) => MembershipOrder(a, b);
    }
  }

  /** A list is strictly sorted by key exactly when its members stand in this order, which
      leaves no room for repetition. */
  lemma {:induction false} SortedIff(s: seq<Member>)
    ensures StrictlySorted(MemberKey, s) <==> InOrder(s)
  {
    hide MemberKey, Precedes, Less;
    forall i, j | 0 <= i < j < |s| ensures Less(MemberKey(s[i]), MemberKey(s[j])) <==> Precedes(s[i], s[j]) {
      KeyOrder(s[i], s[j]);
    }
  }

  /** The well-formed stores, without sort keys: members of the manifest in this order, with
      whole histories, a forest of branches and memberships of what exists. */
  lemma {:induction false} WellFormedIff(f: Formats, spec: RecordSpecification, s: seq<Member>)
    ensures WellFormed(f, spec, s)
       <==> |s| <= MAX_STORE_MEMBERS && InOrder(s)
            && (forall m :: m in s ==> MemberFits(f, spec, m))
            && (forall h :: h in s && h.History? ==> EventFits(s, h))
            && (forall r :: r in s && r.Record? ==> RecordFits(s, r))
            && Forest(s) && MembershipsFit(s)
  {
    hide MemberKey, InOrder, MemberFits, EventFits, RecordFits, Forest, MembershipsFit;
    SortedIff(s);
  }
}
