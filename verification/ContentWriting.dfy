/** Which service contents are written as a bundle. */
module ContentWriting {
  import opened CanonicalJson
  import opened Manifest
  import opened Records
  import opened PortableStore
  import opened Services
  import opened PayloadObjects
  import opened Payloads
  import opened PayloadService
  import opened PayloadContent
  import opened MemberOrder
  import B = Bundle
  import D = Digests
  import S = BundleStream
  import W = BundleWriting

  lemma {:induction false} MemberKinds(m: Member)
    ensures MemberKind(m) !in {B.Header, B.Service, B.Audit}
  {
  }

  lemma {:induction false} MemberSections(members: seq<Member>, i: nat, j: nat)
    requires InOrder(members) && i < j < |members|
    ensures SectionOf(members[i]) <= SectionOf(members[j])
  {
    assert Precedes(members[i], members[j]);
  }

  lemma {:induction false} ItemKinds(n: Notation, header: Raw, service: Json, members: seq<Member>)
    ensures var items := ContentItems(n, header, service, members);
            && |items| == |members| + 2 && items[0].kind == B.Header && items[1].kind == B.Service
            && forall i :: 2 <= i < |items| ==> items[i].kind == MemberKind(members[i - 2])
  {
    hide MemberPayload, Thaw, MemberKind;
    var items, rest := ContentItems(n, header, service, members), MemberItems(n, members);
    forall i | 2 <= i < |items| ensures items[i].kind == MemberKind(members[i - 2]) {
      assert items[i] == rest[i - 2];
    }
  }

  /** The members of an ordered store follow header and service in the order of sections. */
  lemma {:induction false} StoreInSections(n: Notation, header: Raw, service: Json, members: seq<Member>)
    requires InOrder(members)
    ensures W.InSections(ContentItems(n, header, service, members))
  {
    hide InOrder, ContentItems, MemberKind;
    var items := ContentItems(n, header, service, members);
    ItemKinds(n, header, service, members);
    forall m: Member ensures MemberKind(m) !in {B.Header, B.Service, B.Audit} {
      MemberKinds(m);
    }
    forall i, j | 0 <= i < j < |items| ensures B.SectionIndex(items[i].kind) <= B.SectionIndex(items[j].kind) {
      if i >= 2 {
        MemberSections(members, i - 2, j - 2);
      }
    }
  }

  lemma {:induction false} ContentInOrder(f: Formats, c: Content)
    requires ValidContent(f, c)
    ensures InOrder(c.members) && |c.members| + 2 < B.MAX_BUNDLE_FRAMES
  {
    if c.service.design == Materialised {
      WellFormedIff(f, CompileRecords(c.service.manifest.value), c.members);
    }
  }

  /** The texts of a service have the form that a bundle asks for. */
  predicate NamedPlainly(n: Notation, s: Service) {
    n.domain(s.domainName) && n.plain(s.domainClass, 64) && n.plain(s.purpose, 1000)
  }

  /** A valid content is encoded whenever its texts have that form. */
  lemma {:induction false} ContentEncodes(n: Notation, f: Formats, c: Content)
    requires ValidContent(f, c)
    ensures EncodeService(n, c.service, c.fence).Some? <==> NamedPlainly(n, c.service)
  {
    hide WellFormed, CompileRecords, ServiceValues, SERVICE_NAMES, Closing;
  }

  /** A seeded service, or a materialised one and its well-formed store, is written exactly
      when every frame fits its line and can be read back and all bytes fit the limit:
      neither the order of the members nor their number is ever refused. */
  lemma {:induction false} ContentIsWritten(p: B.Platform, n: Notation, f: Formats, limit: int, header: Raw,
                                            c: Content)
    requires B.Regular(p) && Faithful(n, p.near) && Genuine(p.near, header) && S.ValidLimit(limit)
    requires ValidService(c.service) && ValidContent(f, c) && GenuineContent(n, p.near, c)
    requires NamedPlainly(n, c.service)
    ensures EncodeService(n, c.service, c.fence).Some?
    ensures var items := ContentItems(n, header, EncodeService(n, c.service, c.fence).value, c.members);
            S.WriteBundle(p, limit, items).Some?
            <==> (forall i :: 0 <= i < |items| ==> W.Fits(p, i, items[i]))
                 && |D.Flatten(W.FrameLines(p, 0, items))| + |W.TrailerLine(W.TrailerFor(p, items))| <= limit
  {
    hide S.WriteBundle, D.Flatten, B.Regular, Faithful, Genuine, ValidManifest, CompileRecords, Storable,
         EncodeService, GenuineService, GenuineMember, MemberTimesKept, ServiceTimesKept, ValidContent,
         ValidService, NamedPlainly, ManifestFor, W.Fits, W.InSections, InOrder, S.AllGenuine, W.FrameLines,
         W.TrailerFor, W.TrailerLine, MemberItems;
    ContentEncodes(n, f, c);
    var service := EncodeService(n, c.service, c.fence).value;
    var items := ContentItems(n, header, service, c.members);
    ContentStorable(n, p.near, f, c);
    ItemsGenuine(p, n, f, header, c.service, c.fence, ManifestFor(c.service), c.members);
    ContentInOrder(f, c);
    StoreInSections(n, header, service, c.members);
    W.WrittenIff(p, limit, items);
  }
}
