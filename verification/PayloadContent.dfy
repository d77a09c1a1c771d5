/** Whole bundles as logical content: what an importer decodes from the lines an exporter
    wrote. */
module PayloadContent {
  import opened Ordering
  import opened Text
  import opened CanonicalJson
  import opened JsonParsing
  import opened JsonRoundTrip
  import opened Manifest
  import opened Records
  import opened PortableStore
  import opened StoreValidation
  import opened Services
  import opened PayloadObjects
  import opened Payloads
  import opened PayloadService
  import opened ManifestCodec
  import opened ManifestTransfer
  import B = Bundle
  import D = Digests
  import S = BundleStream
  import L = BundleLanguage

  // ----- frames of a bundle -----

  function LineObject(p: B.Platform, line: Bytes): Option<Json> {
    if line == [] then None else DecodeCanonical(p.near, line[..|line| - 1])
  }

  /** The frames on the lines; trailer lines are passed over. */
  function FramesOf(p: B.Platform, lines: seq<Bytes>): Option<seq<B.Frame>> {
    if lines == [] then Some([])
    else
      match LineObject(p, lines[0])
      case None => None
      case Some(v) =>
        if S.IsTrailerObject(v) then FramesOf(p, lines[1..])
        else
          match B.DecodeFrame(p, v)
          case None => None
          case Some(frame) => Onto([frame], FramesOf(p, lines[1..]))
  }

  datatype RawMember = RawMember(kind: B.Kind, payload: Json)

  datatype Gathered = Gathered(service: Option<Json>, members: seq<RawMember>)

  /** One round of the collecting loop. */
  function GatherFrame(g: Gathered, frame: B.Frame): Option<Gathered> {
    match frame.kind
    case Header => Some(g)
    case Service => if g.service.Some? then None else Some(g.(service := Some(frame.payload)))
    case Audit => None
    case _ => Some(g.(members := g.members + [RawMember(frame.kind, frame.payload)]))
  }

  function GatherAll(g: Gathered, frames: seq<B.Frame>): Option<Gathered>
    decreases |frames|
  {
    if frames == [] then Some(g)
    else match GatherFrame(g, frames[0])
      case None => None
      case Some(next) => GatherAll(next, frames[1..])
  }

  function GatherLines(p: B.Platform, g: Gathered, lines: seq<Bytes>): Option<Gathered> {
    match FramesOf(p, lines)
    case None => None
    case Some(frames) => GatherAll(g, frames)
  }

  lemma {:induction false} GatherStep(p: B.Platform, g: Gathered, lines: seq<Bytes>)
    requires lines != []
    ensures GatherLines(p, g, lines)
         == match LineObject(p, lines[0])
            case None => None
            case Some(v) =>
              if S.IsTrailerObject(v) then GatherLines(p, g, lines[1..])
              else
                match B.DecodeFrame(p, v)
                case None => None
                case Some(frame) =>
                  match GatherFrame(g, frame)
                  case None => None
                  case Some(next) => GatherLines(p, next, lines[1..])
  {
    hide S.IsTrailerObject, B.DecodeFrame, LineObject;
    var more := FramesOf(p, lines[1..]);
    var v := LineObject(p, lines[0]);
    if v.Some? && !S.IsTrailerObject(v.value) && B.DecodeFrame(p, v.value).Some? && more.Some? {
      assert ([B.DecodeFrame(p, v.value).value] + more.value)[1..] == more.value;
    }
  }

  /** The loop of `decode_bundle_content`. */
  method CollectContent(p: B.Platform, lines: seq<Bytes>) returns (r: Option<Gathered>)
    ensures r == GatherLines(p, Gathered(None, []), lines)
  {
    hide S.IsTrailerObject, B.DecodeFrame, LineObject, GatherFrame;
    var service: Option<Json> := None;
    var members: seq<RawMember> := [];
    for k := 0 to |lines|
      invariant GatherLines(p, Gathered(service, members), lines[k..]) == GatherLines(p, Gathered(None, []), lines)
    {
      GatherStep(p, Gathered(service, members), lines[k..]);
      assert lines[k..][1..] == lines[k + 1..];
      var v := LineObject(p, lines[k]);
      if v.None? {
        return None;
      }
      if S.IsTrailerObject(v.value) {
        continue;
      }
      var frame := B.DecodeFrame(p, v.value);
      if frame.None? {
        return None;
      }
      var next := GatherFrame(Gathered(service, members), frame.value);
      if next.None? {
        return None;
      }
      service, members := next.value.service, next.value.members;
    }
    r := Some(Gathered(service, members));
  }

  // ----- content -----

  datatype Content = Content(service: Service, members: seq<Member>, fence: Option<Fence>)

  /** `PortableBundleContent.__post_init__`. */
  ghost predicate ValidContent(f: Formats, c: Content) {
    if c.service.design == Seeded then c.members == [] && c.fence.None?
    else
      && c.service.manifest.Some? && c.fence.Some? && !c.fence.value.open && c.service.status != Active
      && WellFormed(f, CompileRecords(c.service.manifest.value), c.members)
  }

  function DecodeAll(n: Notation, f: Formats, raw: seq<RawMember>): Option<seq<Member>> {
    if raw == [] then Some([])
    else
      match DecodeMember(n, f, raw[0].kind, raw[0].payload)
      case None => None
      case Some(m) => Onto([m], DecodeAll(n, f, raw[1..]))
  }

  /** What follows the loop of `decode_bundle_content`. */
  ghost function Assembled(n: Notation, f: Formats, g: Gathered, principal: Text, backend: Backend): Option<Content> {
    if g.service.None? then None
    else
      match DecodeService(n, g.service.value, principal, backend)
      case None => None
      case Some(d) =>
        match DecodeAll(n, f, g.members)
        case None => None
        case Some(members) =>
          var c := Content(d.service, members, d.fence);
          if ValidContent(f, c) then Some(c) else None
  }

  /** `decode_bundle_content`. */
  ghost function ContentOf(p: B.Platform, n: Notation, f: Formats, lines: seq<Bytes>, principal: Text,
                           backend: Backend): Option<Content> {
    match GatherLines(p, Gathered(None, []), lines)
    case None => None
    case Some(g) => Assembled(n, f, g, principal, backend)
  }

  // ----- the items an exporter writes -----

  function MemberItems(n: Notation, members: seq<Member>): (r: seq<S.Item>)
    ensures |r| == |members|
    ensures forall i :: 0 <= i < |r| ==> r[i] == S.Item(MemberKind(members[i]), Thaw(MemberPayload(n, members[i])))
  {
    seq(|members|, i requires 0 <= i < |members| => S.Item(MemberKind(members[i]), Thaw(MemberPayload(n, members[i]))))
  }

  /** The order of `_encode`: header, service, members. */
  function ContentItems(n: Notation, header: Raw, service: Json, members: seq<Member>): seq<S.Item> {
    [S.Item(B.Header, header), S.Item(B.Service, Thaw(service))] + MemberItems(n, members)
  }

  // ----- written lines decode to the items -----

  lemma {:induction false} AddedFrame(p: B.Platform, w: S.Writer, item: S.Item)
    requires B.Regular(p) && D.Consistent(w.digests) && Genuine(p.near, item.payload)
    requires S.WriterAdd(p, w, item.kind, item.payload).Some?
    ensures var (next, line) := S.WriterAdd(p, w, item.kind, item.payload).value;
            && D.Consistent(next.digests) && Freeze(item.payload, 0).Some?
            && LineObject(p, line).Some? && !S.IsTrailerObject(LineObject(p, line).value)
            && B.DecodeFrame(p, LineObject(p, line).value).Some?
            && var frame := B.DecodeFrame(p, LineObject(p, line).value).value;
               frame.kind == item.kind && frame.payload == Canon(Freeze(item.payload, 0).value)
  {
    hide Freeze, Canon, Genuine, B.Regular, D.Consistent, Render, Utf8, D.AddFrame, B.EncodeFrame, B.DecodeFrame,
         DecodeCanonical, B.FrameJson, B.CoreJson, S.IsTrailerObject, Decodable, Sound, Depth;
    ConsistentShaped(w.digests);
    var (next, line) := S.WriterAdd(p, w, item.kind, item.payload).value;
    var ordinal := w.digests.nextOrdinal;
    B.EncodedFrame(p, item.kind, ordinal, item.payload);
    B.FrameRoundTrip(p, item.kind, ordinal, item.payload);
    var d := Freeze(item.payload, 0).value;
    var digest := p.sha256(Utf8(Render(B.CoreJson(item.kind, ordinal, d))));
    S.FrameIsNoTrailer(item.kind, ordinal, Canon(d), digest);
    D.AddKeepsConsistent(p, w.digests, S.DecodeLine(p, line).value, line);
  }

  lemma {:induction false} TrailerPasses(p: B.Platform, w: S.Writer)
    requires B.Regular(p) && D.Consistent(w.digests) && S.WriterFinish(p, w).Some?
    ensures var line := S.WriterFinish(p, w).value.0;
            LineObject(p, line).Some? && S.IsTrailerObject(LineObject(p, line).value)
  {
    hide *;
    S.DigestsOf(w.digests);
    S.FinishedLine(p, w);
    S.TrailerOfCounts(p, w.digests);
    var t := D.TrailerOf(p, w.digests).value;
    TrailerObjectRead(p, t, S.WriterFinish(p, w).value.0);
  }

  lemma {:induction false} TrailerObjectRead(p: B.Platform, t: D.Trailer, line: Bytes)
    requires B.Regular(p) && D.ValidTrailer(p, t) && D.EncodeTrailer(t) == Some(line)
    ensures LineObject(p, line).Some? && S.IsTrailerObject(LineObject(p, line).value)
  {
    hide D.TrailerJson, D.EncodeTrailer, D.ValidTrailer, DecodeCanonical, Render, Decoded;
    D.TrailerFacts(p, t);
    D.EncodedTrailer(p, t);
    D.DecodeTrailerJson(p, t);
    S.TrailerObject(t);
    DecodeIffCanonical(p.near, Utf8(Render(D.TrailerJson(t))), D.TrailerJson(t));
    assert line[..|line| - 1] == Utf8(Render(D.TrailerJson(t)));
  }

  /** The frame that an item becomes. */
  predicate Reads(item: S.Item, frame: B.Frame) {
    Freeze(item.payload, 0).Some? && frame.kind == item.kind && frame.payload == Canon(Freeze(item.payload, 0).value)
  }

  lemma {:induction false} WrittenFrames(p: B.Platform, w: S.Writer, items: seq<S.Item>)
    requires B.Regular(p) && D.Consistent(w.digests) && S.AllGenuine(p, items) && S.WriteFrom(p, w, items).Some?
    ensures var frames := FramesOf(p, S.WriteFrom(p, w, items).value.0);
            && frames.Some? && |frames.value| == |items|
            && forall i :: 0 <= i < |items| ==> Reads(items[i], frames.value[i])
    decreases |items|
  {
    hide LineObject, S.IsTrailerObject, B.DecodeFrame, Freeze, Canon, S.WriterAdd, S.WriterFinish, D.Consistent,
         B.Regular;
    ConsistentShaped(w.digests);
    var lines := S.WriteFrom(p, w, items).value.0;
    if items == [] {
      TrailerPasses(p, w);
      assert lines[1..] == [];
    } else {
      AddedFrame(p, w, items[0]);
      var (next, line) := S.WriterAdd(p, w, items[0].kind, items[0].payload).value;
      WrittenFrames(p, next, items[1..]);
      var more := S.WriteFrom(p, next, items[1..]).value.0;
      assert lines[1..] == more;
      var frames := FramesOf(p, lines).value;
      forall i | 0 <= i < |items| ensures Reads(items[i], frames[i]) {
        if i > 0 {
          assert items[i] == items[1..][i - 1];
        }
      }
    }
  }

  lemma {:induction false} ConsistentShaped(st: D.State)
    requires D.Consistent(st)
    ensures st.Shaped()
  {
  }

  // ----- gathering the items -----

  function RawMembers(n: Notation, members: seq<Member>): (r: seq<RawMember>)
    ensures |r| == |members|
    ensures forall i :: 0 <= i < |r| ==> r[i] == RawMember(MemberKind(members[i]), Canon(MemberPayload(n, members[i])))
  {
    seq(|members|, i requires 0 <= i < |members| => RawMember(MemberKind(members[i]), Canon(MemberPayload(n, members[i]))))
  }

  lemma {:induction false} GatherMembers(n: Notation, g: Gathered, members: seq<Member>, frames: seq<B.Frame>)
    requires |frames| == |members|
    requires forall i :: 0 <= i < |frames| ==>
               frames[i].kind == MemberKind(members[i]) && frames[i].payload == Canon(MemberPayload(n, members[i]))
    ensures GatherAll(g, frames) == Some(g.(members := g.members + RawMembers(n, members)))
    decreases |members|
  {
    hide MemberPayload, Canon;
    if members == [] {
      assert g.members + RawMembers(n, members) == g.members;
    } else {
      var next := g.(members := g.members + [RawMember(frames[0].kind, frames[0].payload)]);
      GatherMembers(n, next, members[1..], frames[1..]);
      assert RawMembers(n, members) == [RawMember(frames[0].kind, frames[0].payload)] + RawMembers(n, members[1..]);
      Assoc(g.members, [RawMember(frames[0].kind, frames[0].payload)], RawMembers(n, members[1..]));
    }
  }

  lemma {:induction false} GatherContent(n: Notation, header: Raw, service: Json, members: seq<Member>,
                                         frames: seq<B.Frame>)
    requires |frames| == |members| + 2 && frames[0].kind == B.Header
    requires frames[1].kind == B.Service && frames[1].payload == Canon(service)
    requires forall i :: 0 <= i < |members| ==>
               frames[i + 2].kind == MemberKind(members[i]) && frames[i + 2].payload == Canon(MemberPayload(n, members[i]))
    ensures GatherAll(Gathered(None, []), frames) == Some(Gathered(Some(Canon(service)), RawMembers(n, members)))
  {
    hide MemberPayload, Canon;
    var g := Gathered(Some(Canon(service)), []);
    assert frames[1..][0] == frames[1] && frames[1..][1..] == frames[2..];
    GatherMembers(n, g, members, frames[2..]);
    assert [] + RawMembers(n, members) == RawMembers(n, members);
    assert GatherAll(Gathered(None, []), frames) == GatherAll(Gathered(None, []), frames[1..]);
    assert GatherAll(Gathered(None, []), frames[1..]) == GatherAll(g, frames[2..]);
  }

  // ----- the round trip -----

  /** Every member is a constructed value, with binary64 floats and times that read back, and
      fits the manifest. */
  ghost predicate Storable(n: Notation, near: Rounding, f: Formats, manifest: Manifest, members: seq<Member>) {
    forall m :: m in members ==>
      n.member(m) && MemberTimesKept(n, m) && GenuineMember(near, m) && MemberFits(f, CompileRecords(manifest), m)
  }

  lemma {:induction false} DecodedMembers(n: Notation, near: Rounding, f: Formats, manifest: Manifest,
                                          members: seq<Member>)
    requires Faithful(n, near) && Storable(n, near, f, manifest, members)
    ensures var r := DecodeAll(n, f, RawMembers(n, members));
            && (r == None || r == Some(Transferred(members)))
            && ((forall m :: m in members ==> PortableMember(f, m)) ==> r == Some(Transferred(members)))
    decreases |members|
  {
    hide Faithful, GenuineMember, MemberTimesKept, MemberFits, CompileRecords, DecodeMember, PortableMember,
         TransferredMember, MemberPayload, Canon;
    if members == [] {
      assert Transferred(members) == [];
    } else {
      assert members[0] in members && forall m :: m in members[1..] ==> m in members;
      MemberBack(n, near, f, CompileRecords(manifest), members[0]);
      DecodedMembers(n, near, f, manifest, members[1..]);
      assert RawMembers(n, members)[1..] == RawMembers(n, members[1..]);
      assert Transferred(members) == [TransferredMember(members[0])] + Transferred(members[1..]);
    }
  }

  lemma {:induction false} ItemsGenuine(p: B.Platform, n: Notation, f: Formats, header: Raw, s: Service,
                                        fence: Option<Fence>, manifest: Manifest, members: seq<Member>)
    requires Faithful(n, p.near) && (members == [] || ValidManifest(manifest)) && Storable(n, p.near, f, manifest, members)
    requires Genuine(p.near, header) && GenuineService(p.near, s) && EncodeService(n, s, fence).Some?
    ensures S.AllGenuine(p, ContentItems(n, header, EncodeService(n, s, fence).value, members))
  {
    hide Faithful, GenuineMember, MemberTimesKept, MemberFits, CompileRecords, MemberValues, MemberNames, Genuine,
         Orderly, ValidManifest, ServiceValues, Vocabulary, SERVICE_NAMES, Exportable, Closing, GenuineService;
    ServiceVocabulary();
    ServiceOrderly(n, p.near, s, fence);
    PayloadReadBack(p.near, SERVICE_NAMES, ServiceValues(n, s, fence));
    forall m | m in members ensures Genuine(p.near, Thaw(MemberPayload(n, m))) {
      NamesFit(n, m);
      MemberOrderly(n, p.near, f, manifest, m);
      PayloadReadBack(p.near, MemberNames(m), MemberValues(n, m));
    }
  }

  lemma {:induction false} PayloadKept(near: Rounding, names: seq<Text>, values: seq<Json>, frame: B.Frame,
                                       kind: B.Kind)
    requires Vocabulary(names) && |names| == |values| && forall i :: 0 <= i < |values| ==> Orderly(near, values[i])
    requires Reads(S.Item(kind, Thaw(Closing(names, values))), frame)
    ensures frame.kind == kind && frame.payload == Canon(Closing(names, values))
  {
    PayloadReadBack(near, names, values);
  }

  lemma {:induction false} ContentGathered(p: B.Platform, n: Notation, f: Formats, limit: int, header: Raw,
                                           s: Service, fence: Option<Fence>, manifest: Manifest,
                                           members: seq<Member>)
    requires B.Regular(p) && Faithful(n, p.near) && (members == [] || ValidManifest(manifest))
    requires Storable(n, p.near, f, manifest, members)
    requires Genuine(p.near, header) && GenuineService(p.near, s) && EncodeService(n, s, fence).Some?
    requires S.WriteBundle(p, limit, ContentItems(n, header, EncodeService(n, s, fence).value, members)).Some?
    ensures var lines := S.WriteBundle(p, limit, ContentItems(n, header, EncodeService(n, s, fence).value, members)).value.0;
            GatherLines(p, Gathered(None, []), lines)
            == Some(Gathered(Some(Canon(EncodeService(n, s, fence).value)), RawMembers(n, members)))
  {
    hide Faithful, GenuineMember, MemberTimesKept, MemberFits, CompileRecords, MemberValues, MemberNames, Genuine,
         Orderly, ValidManifest, ServiceValues, Vocabulary, SERVICE_NAMES, Exportable, Closing, FramesOf,
         S.WriteFrom, Canon, Reads, GatherAll, GenuineService;
    var service := EncodeService(n, s, fence).value;
    var items := ContentItems(n, header, service, members);
    ItemsGenuine(p, n, f, header, s, fence, manifest, members);
    D.EmptyConsistent();
    WrittenFrames(p, S.Writer(limit, D.EMPTY, None, false), items);
    var frames := FramesOf(p, S.WriteBundle(p, limit, items).value.0).value;
    ServiceVocabulary();
    ServiceOrderly(n, p.near, s, fence);
    PayloadKept(p.near, SERVICE_NAMES, ServiceValues(n, s, fence), frames[1], B.Service);
    forall i | 0 <= i < |members|
      ensures frames[i + 2].kind == MemberKind(members[i]) && frames[i + 2].payload == Canon(MemberPayload(n, members[i]))
    {
      var m := members[i];
      assert items[i + 2] == S.Item(MemberKind(m), Thaw(MemberPayload(n, m)));
      NamesFit(n, m);
      MemberOrderly(n, p.near, f, manifest, m);
      PayloadKept(p.near, MemberNames(m), MemberValues(n, m), frames[i + 2], MemberKind(m));
    }
    HeaderKind(items[0], frames[0]);
    GatherContent(n, header, service, members, frames);
  }

  lemma {:induction false} HeaderKind(item: S.Item, frame: B.Frame)
    requires Reads(item, frame)
    ensures frame.kind == item.kind
  {
  }

  /** The manifest of a service, or none at all, which then no member needs. */
  function ManifestFor(s: Service): Manifest {
    if s.manifest.Some? then s.manifest.value else Manifest(0, [], [], [], [], [], None, [])
  }

  /** The floats in the content are binary64 values, its times read back, and its members are
      constructed values. */
  ghost predicate GenuineContent(n: Notation, near: Rounding, c: Content) {
    && GenuineService(near, c.service) && ServiceTimesKept(n, c.service)
    && forall m :: m in c.members ==> n.member(m) && MemberTimesKept(n, m) && GenuineMember(near, m)
  }

  /** Nothing in the content is lost or refused on the way. */
  predicate PortableContent(n: Notation, f: Formats, c: Content) {
    PortableService(n, c.service) && forall m :: m in c.members ==> PortableMember(f, m)
  }

  lemma {:induction false} ContentStorable(n: Notation, near: Rounding, f: Formats, c: Content)
    requires ValidContent(f, c) && GenuineContent(n, near, c) && ValidService(c.service)
    ensures Storable(n, near, f, ManifestFor(c.service), c.members)
    ensures c.members == [] || ValidManifest(ManifestFor(c.service))
    ensures c.service.design == Materialised ==> c.service.manifest.Some? && ValidManifest(c.service.manifest.value)
  {
    hide ValidManifest, GenuineMember, MemberTimesKept, ServiceTimesKept, MemberFits, CompileRecords, EventFits,
         RecordFits, Forest, MembershipsFit;
  }

  /** The members that arrive are a well-formed store of the manifest that arrives exactly
      when each of them is portable. */
  lemma {:induction false} ContentArrives(n: Notation, near: Rounding, f: Formats, c: Content, principal: Text,
                                          backend: Backend)
    requires Faithful(n, near) && ValidContent(f, c) && GenuineContent(n, near, c) && ValidService(c.service)
    requires PortableService(n, c.service)
    ensures ValidContent(f, Content(Moved(n, c.service, principal, backend), Transferred(c.members), c.fence))
       <==> forall m :: m in c.members ==> PortableMember(f, m)
  {
    hide Faithful, ValidManifest, WellFormed, CompileRecords, GenuineService, GenuineMember, MemberTimesKept,
         ServiceTimesKept, PortableMember, ValidService, PortableManifest, TransferredManifest, ManifestFloatsFit;
    MovedValid(n, near, c.service, principal, backend);
    ContentStorable(n, near, f, c);
    if c.service.design == Materialised {
      var m := c.service.manifest.value;
      GenuineFits(n, near, c.service);
      MovedManifest(n, c.service, principal, backend);
      StoreTransferred(near, n.decimal, f, m, Transferred(c.members));
      TransferredStore(f, CompileRecords(m), c.members);
    }
  }

  lemma {:induction false} MovedManifest(n: Notation, s: Service, principal: Text, backend: Backend)
    requires s.manifest.Some? && ValidService(Moved(n, s, principal, backend))
    ensures ValidManifest(TransferredManifest(n.decimal, s.manifest.value))
  {
    hide ValidManifest, TransferredManifest;
  }

  /** A seeded service, or a materialised one and its well-formed store, written as a bundle:
      the bundle decodes to the same service on the destination, the same fence and the same
      members, whole floats having become integers, exactly when every enumeration of the
      manifest and every member is portable; otherwise the import is refused. */
  lemma {:induction false} LogicalRoundTrip(p: B.Platform, n: Notation, f: Formats, limit: int, header: Raw,
                                            c: Content, principal: Text, backend: Backend)
    requires B.Regular(p) && Faithful(n, p.near) && Genuine(p.near, header)
    requires ValidService(c.service) && ValidContent(f, c) && (c.fence.Some? ==> ValidFence(c.fence.value))
    requires GenuineContent(n, p.near, c) && EncodeService(n, c.service, c.fence).Some?
    requires S.WriteBundle(p, limit, ContentItems(n, header, EncodeService(n, c.service, c.fence).value, c.members)).Some?
    ensures var payload := EncodeService(n, c.service, c.fence).value;
            var (lines, summary) := S.WriteBundle(p, limit, ContentItems(n, header, payload, c.members)).value;
            && S.ValidateBundle(p, limit, D.Flatten(lines)) == Some((summary, lines))
            && ContentOf(p, n, f, lines, principal, backend)
               == if PortableContent(n, f, c)
                  then Some(Content(Moved(n, c.service, principal, backend), Transferred(c.members), c.fence))
                  else None
  {
    hide S.WriteBundle, S.ValidateBundle, D.Flatten, B.Regular, Faithful, Genuine, ValidManifest, WellFormed,
         CompileRecords, Storable, EncodeService, DecodeService, DecodeAll, GatherLines, GenuineService,
         GenuineMember, MemberTimesKept, ServiceTimesKept, ContentItems, Transferred, Canon, PortableMember,
         PortableService, RawMembers, ValidContent, ValidService, Moved, ManifestFor;
    var manifest := ManifestFor(c.service);
    ContentStorable(n, p.near, f, c);
    ItemsGenuine(p, n, f, header, c.service, c.fence, manifest, c.members);
    L.WriterOutputAccepted(p, limit, ContentItems(n, header, EncodeService(n, c.service, c.fence).value, c.members));
    ContentGathered(p, n, f, limit, header, c.service, c.fence, manifest, c.members);
    ServiceBack(n, p.near, c.service, c.fence, principal, backend);
    DecodedMembers(n, p.near, f, manifest, c.members);
    if PortableService(n, c.service) {
      ContentArrives(n, p.near, f, c, principal, backend);
    }
  }
}
