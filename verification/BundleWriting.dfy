/** Which lists of items are written as a bundle, and what is written for them, told from
    the items alone: without the running state of the digests. */
module BundleWriting {
  import opened Ordering
  import opened Text
  import opened Decimals
  import opened CanonicalJson
  import opened JsonParsing
  import opened JsonRoundTrip
  import opened Bundle
  import opened Digests
  import opened BundleStream
  import L = BundleLanguage

  // ----- one item -----

  /** What the payload freezes to. */
  function FrozenPayload(payload: Raw): Json {
    Freeze(payload, 0).GetOr(Null)
  }

  /** The line of a frame: its object with the digest of its core, and a line break. */
  function FrameLine(p: Platform, kind: Kind, ordinal: nat, payload: Raw): (line: Bytes)
    ensures line != []
  {
    var d := FrozenPayload(payload);
    Utf8(Render(FrameJson(kind, ordinal, d, p.sha256(Utf8(Render(CoreJson(kind, ordinal, d))))))) + [NEWLINE]
  }

  /** The payload freezes to an object that leaves room for the frame around it. */
  predicate Encodable(p: Platform, kind: Kind, ordinal: nat, payload: Raw) {
    && Freeze(payload, 0).Some? && FrozenPayload(payload).Obj?
    && 1 + Depth(FrozenPayload(payload)) <= MAX_JSON_DEPTH
    && |FrameLine(p, kind, ordinal, payload)| <= MAX_FRAME_BYTES
  }

  /** The frame can be read back, and as a header it passes the checks of headers. */
  predicate Fits(p: Platform, ordinal: nat, item: Item) {
    && Encodable(p, item.kind, ordinal, item.payload)
    && Decodable(FrozenPayload(item.payload))
    && (item.kind == Header ==> p.validHeader(Canon(FrozenPayload(item.payload))))
  }

  lemma {:induction false} EncodeIff(p: Platform, kind: Kind, ordinal: nat, payload: Raw)
    requires Regular(p) && Genuine(p.near, payload) && ordinal < MAX_BUNDLE_FRAMES
    ensures EncodeFrame(p, kind, ordinal, payload)
         == if Encodable(p, kind, ordinal, payload) then Some(FrameLine(p, kind, ordinal, payload)) else None
  {
    hide Genuine, Render, Utf8, Depth, Freeze, CoreJson, FrameJson, Sound, Canon, CoreValue, FrameValue;
    FreezeSound(p.near, payload, 0);
    if Freeze(payload, 0).Some? && FrozenPayload(payload).Obj? {
      var d := FrozenPayload(payload);
      CoreFacts(p, kind, ordinal, d);
      FrameFacts(p, kind, ordinal, d, p.sha256(Utf8(Render(CoreJson(kind, ordinal, d)))));
    }
  }

  /** The frame read back from the line of an encodable item. */
  function FrameOf(p: Platform, kind: Kind, ordinal: nat, payload: Raw): Frame {
    var d := FrozenPayload(payload);
    Frame(kind, ordinal, Canon(d), p.sha256(Utf8(Render(CoreJson(kind, ordinal, d)))))
  }

  lemma {:induction false} DecodeIff(p: Platform, ordinal: nat, item: Item)
    requires Regular(p) && Genuine(p.near, item.payload) && ordinal < MAX_BUNDLE_FRAMES
    requires Encodable(p, item.kind, ordinal, item.payload)
    ensures DecodeLine(p, FrameLine(p, item.kind, ordinal, item.payload))
         == if Fits(p, ordinal, item) then Some(FrameOf(p, item.kind, ordinal, item.payload)) else None
  {
    hide Genuine, Render, Utf8, Depth, Freeze, CoreJson, FrameJson, Canon, EncodeFrame, DecodeFrame, DecodeCanonical,
         Decodable, Regular;
    EncodeIff(p, item.kind, ordinal, item.payload);
    FrameRoundTrip(p, item.kind, ordinal, item.payload);
  }

  /** What was read back is encoded again as the same line. */
  lemma {:induction false} SameLineAgain(p: Platform, ordinal: nat, item: Item)
    requires Regular(p) && Genuine(p.near, item.payload) && ordinal < MAX_BUNDLE_FRAMES
    requires Fits(p, ordinal, item)
    ensures EncodeFrame(p, item.kind, ordinal, Thaw(FrameOf(p, item.kind, ordinal, item.payload).payload))
         == Some(FrameLine(p, item.kind, ordinal, item.payload))
  {
    hide Genuine, Render, Utf8, Depth, Freeze, CoreJson, FrameJson, EncodeFrame, Decodable, Regular, Sound, Thaw;
    var d := FrozenPayload(item.payload);
    FreezeSound(p.near, item.payload, 0);
    CanonText(p.near, d);
    FreezeThaw(p.near, Canon(d), 0);
    ThawGenuine(p.near, Canon(d));
    EncodeIff(p, item.kind, ordinal, Thaw(Canon(d)));
    SameText(p, item.kind, ordinal, d);
  }

  lemma {:induction false} SameText(p: Platform, kind: Kind, ordinal: nat, d: Json)
    requires Regular(p) && Sound(p.near, d) && d.Obj? && ordinal < MAX_BUNDLE_FRAMES
    ensures Render(CoreJson(kind, ordinal, Canon(d))) == Render(CoreJson(kind, ordinal, d))
    ensures var digest := p.sha256(Utf8(Render(CoreJson(kind, ordinal, d))));
            Render(FrameJson(kind, ordinal, Canon(d), digest)) == Render(FrameJson(kind, ordinal, d, digest))
  {
    hide Render, Utf8, Depth, CoreJson, FrameJson, Sound, Canon, CoreValue, FrameValue;
    var digest := p.sha256(Utf8(Render(CoreJson(kind, ordinal, d))));
    CoreFacts(p, kind, ordinal, d);
    FrameFacts(p, kind, ordinal, d, digest);
    CanonText(p.near, FrameJson(kind, ordinal, d, digest));
  }

  // ----- one step of the writer -----

  /** A frame of this kind may follow `n` frames of which the last has section `section`. */
  predicate Placed(n: nat, section: nat, kind: Kind) {
    && kind != Audit && (kind == Header <==> n == 0) && (kind == Service <==> n == 1)
    && section <= SectionIndex(kind)
  }

  /** The running state after one more line. */
  function Next(st: State, k: nat, line: Bytes): State
    requires st.Shaped() && k < 7
  {
    State(st.nextOrdinal + 1, k, st.byteCount + |line|, st.root + line,
          st.sections[k := st.sections[k] + line], st.counts[k := st.counts[k] + 1])
  }

  /** The digests take a frame whose line is its own encoding exactly when it is the next
      one, in its place, and one more frame is allowed. */
  lemma {:induction false} AddFrameIff(p: Platform, st: State, f: Frame, line: Bytes)
    requires Consistent(st) && line != [] && line[|line| - 1] == NEWLINE && |line| <= MAX_FRAME_BYTES
    requires EncodeFrame(p, f.kind, f.ordinal, Thaw(f.payload)) == Some(line)
    ensures AddFrame(p, st, f, line)
         == if f.ordinal == st.nextOrdinal && Placed(st.nextOrdinal, st.sectionIndex, f.kind)
               && st.nextOrdinal + 1 < MAX_BUNDLE_FRAMES
            then Some(Next(st, SectionIndex(f.kind), line)) else None
  {
    hide EncodeFrame, Sum, Flatten;
  }

  lemma {:induction false} AddIff(p: Platform, w: Writer, item: Item)
    requires Regular(p) && Consistent(w.digests) && Genuine(p.near, item.payload) && !w.finished
    ensures var st, n := w.digests, w.digests.nextOrdinal;
            var line := FrameLine(p, item.kind, n, item.payload);
            WriterAdd(p, w, item.kind, item.payload)
            == if Fits(p, n, item) && Placed(n, st.sectionIndex, item.kind) && n + 1 < MAX_BUNDLE_FRAMES
                  && st.byteCount + |line| <= w.limit
               then Some((Writer(w.limit, Next(st, SectionIndex(item.kind), line),
                                 if n == 0 then Some(Canon(FrozenPayload(item.payload))) else w.header, false), line))
               else None
  {
    hide Genuine, EncodeFrame, DecodeLine, Regular, Encodable, FrozenPayload, Consistent, AddFrame, Canon, Thaw;
    DigestsOf(w.digests);
    var n := w.digests.nextOrdinal;
    EncodeIff(p, item.kind, n, item.payload);
    if Encodable(p, item.kind, n, item.payload) {
      DecodeIff(p, n, item);
      LineEnds(p, item.kind, n, item.payload);
      if Fits(p, n, item) {
        SameLineAgain(p, n, item);
        AddFrameIff(p, w.digests, FrameOf(p, item.kind, n, item.payload), FrameLine(p, item.kind, n, item.payload));
      }
    }
  }

  lemma {:induction false} LineEnds(p: Platform, kind: Kind, ordinal: nat, payload: Raw)
    requires Encodable(p, kind, ordinal, payload)
    ensures var line := FrameLine(p, kind, ordinal, payload);
            line[|line| - 1] == NEWLINE && |line| <= MAX_FRAME_BYTES
  {
  }

  // ----- what a run writes, told from the items -----

  function FrameLines(p: Platform, n: nat, items: seq<Item>): (lines: seq<Bytes>)
    ensures |lines| == |items|
    decreases |items|
  {
    if items == [] then []
    else [FrameLine(p, items[0].kind, n, items[0].payload)] + FrameLines(p, n + 1, items[1..])
  }

  function CountOf(items: seq<Item>, kind: Kind): nat {
    if items == [] then 0 else (if items[0].kind == kind then 1 else 0) + CountOf(items[1..], kind)
  }

  /** The lines of one kind, end to end. */
  function SectionBytes(p: Platform, n: nat, items: seq<Item>, kind: Kind): Bytes
    decreases |items|
  {
    if items == [] then []
    else
      (if items[0].kind == kind then FrameLine(p, kind, n, items[0].payload) else [])
      + SectionBytes(p, n + 1, items[1..], kind)
  }

  /** The trailer that closes a bundle of these items. */
  function TrailerFor(p: Platform, items: seq<Item>): Trailer {
    var body := Flatten(FrameLines(p, 0, items));
    Trailer(|items|, |body|, p.sha256(body),
            seq(7, i requires 0 <= i < 7 =>
              Section(SECTION_KINDS[i], CountOf(items, SECTION_KINDS[i]),
                      p.sha256(SectionBytes(p, 0, items, SECTION_KINDS[i])))))
  }

  function TrailerLine(t: Trailer): Bytes {
    Utf8(Render(TrailerJson(t))) + [NEWLINE]
  }

  /** Header and service once and first, then records, histories, branches and memberships
      in that order, and no audit. */
  ghost predicate InSections(items: seq<Item>) {
    && |items| >= 2 && items[0].kind == Header && items[1].kind == Service
    && (forall i :: 2 <= i < |items| ==> items[i].kind !in {Header, Service, Audit})
    && (forall i, j :: 0 <= i < j < |items| ==> SectionIndex(items[i].kind) <= SectionIndex(items[j].kind))
  }

  /** The items that make a bundle: in their sections, each of them fitting its line, and all
      of them and the trailer within the limits. */
  ghost predicate Writes(p: Platform, limit: int, items: seq<Item>) {
    && InSections(items) && |items| < MAX_BUNDLE_FRAMES
    && (forall i :: 0 <= i < |items| ==> Fits(p, i, items[i]))
    && |Flatten(FrameLines(p, 0, items))| + |TrailerLine(TrailerFor(p, items))| <= limit
  }

  // ----- the run from any state -----

  ghost predicate InOrder(n: nat, section: nat, items: seq<Item>) {
    && (forall i :: 0 <= i < |items| ==> Placed(n + i, section, items[i].kind))
    && (forall i, j :: 0 <= i < j < |items| ==> SectionIndex(items[i].kind) <= SectionIndex(items[j].kind))
  }

  ghost predicate AllFit(p: Platform, n: nat, items: seq<Item>) {
    forall i :: 0 <= i < |items| ==> Fits(p, n + i, items[i])
  }

  /** The running state once the items have been added. */
  function After(p: Platform, st: State, items: seq<Item>): (r: State)
    requires st.Shaped()
    ensures r.Shaped()
  {
    var n := st.nextOrdinal;
    var body := Flatten(FrameLines(p, n, items));
    State(n + |items|, if items == [] then st.sectionIndex else SectionIndex(items[|items| - 1].kind),
          st.byteCount + |body|, st.root + body,
          seq(7, i requires 0 <= i < 7 => st.sections[i] + SectionBytes(p, n, items, SECTION_KINDS[i])),
          seq(7, i requires 0 <= i < 7 => st.counts[i] + CountOf(items, SECTION_KINDS[i])))
  }

  function StateTrailer(p: Platform, st: State): Trailer
    requires st.Shaped()
  {
    Trailer(st.nextOrdinal, st.byteCount, p.sha256(st.root), SectionsOf(p, st, 0))
  }

  function HeaderAfter(w: Writer, items: seq<Item>): Option<Json> {
    if w.digests.nextOrdinal == 0 && items != [] then Some(Canon(FrozenPayload(items[0].payload))) else w.header
  }

  ghost predicate Accepts(p: Platform, w: Writer, items: seq<Item>)
    requires w.digests.Shaped()
  {
    var n, last := w.digests.nextOrdinal, After(p, w.digests, items);
    && 2 <= n + |items| < MAX_BUNDLE_FRAMES
    && InOrder(n, w.digests.sectionIndex, items) && AllFit(p, n, items)
    && last.byteCount + |TrailerLine(StateTrailer(p, last))| <= w.limit
  }

  /** A writer under way: the header is held from the first frame on. */
  ghost predicate UnderWay(w: Writer) {
    && Consistent(w.digests) && ValidLimit(w.limit) && !w.finished
    && (w.header.Some? <==> w.digests.nextOrdinal >= 1)
  }

  lemma {:induction false} AfterNothing(p: Platform, st: State)
    requires st.Shaped()
    ensures After(p, st, []) == st
  {
    assert st.root + [] == st.root;
    var r := After(p, st, []);
    assert forall i :: 0 <= i < 7 ==> st.sections[i] + [] == st.sections[i];
    assert r.sections == st.sections && r.counts == st.counts;
  }

  lemma {:induction false} AfterOne(p: Platform, st: State, items: seq<Item>)
    requires st.Shaped() && items != []
    ensures var line := FrameLine(p, items[0].kind, st.nextOrdinal, items[0].payload);
            After(p, st, items) == After(p, Next(st, SectionIndex(items[0].kind), line), items[1..])
  {
    hide FrameLine;
    var n, kind := st.nextOrdinal, items[0].kind;
    var line := FrameLine(p, kind, n, items[0].payload);
    var k, rest := SectionIndex(kind), items[1..];
    var a, b := After(p, st, items), After(p, Next(st, k, line), rest);
    assert FrameLines(p, n, items)[1..] == FrameLines(p, n + 1, rest);
    Assoc(st.root, line, Flatten(FrameLines(p, n + 1, rest)));
    forall i | 0 <= i < 7 ensures a.sections[i] == b.sections[i] && a.counts[i] == b.counts[i] {
      SectionPlaces(i, kind);
      Assoc(st.sections[i], if i == k then line else [], SectionBytes(p, n + 1, rest, SECTION_KINDS[i]));
    }
    assert a.sections == b.sections && a.counts == b.counts;
  }

  lemma {:induction false} SectionPlaces(i: nat, kind: Kind)
    requires i < 7
    ensures SECTION_KINDS[i] == kind <==> i == SectionIndex(kind)
  {
  }

  lemma {:induction false} InOrderOne(n: nat, section: nat, items: seq<Item>)
    requires items != []
    ensures InOrder(n, section, items)
       <==> Placed(n, section, items[0].kind) && InOrder(n + 1, SectionIndex(items[0].kind), items[1..])
  {
    var rest, k := items[1..], SectionIndex(items[0].kind);
    assert forall i :: 0 <= i < |rest| ==> rest[i] == items[i + 1];
    if InOrder(n, section, items) {
      forall i | 0 <= i < |rest| ensures Placed(n + 1 + i, k, rest[i].kind) {
        assert Placed(n + (i + 1), section, items[i + 1].kind);
      }
    }
    if Placed(n, section, items[0].kind) && InOrder(n + 1, k, rest) {
      forall i | 0 <= i < |items| ensures Placed(n + i, section, items[i].kind) && k <= SectionIndex(items[i].kind) {
        if i > 0 {
          assert Placed(n + 1 + (i - 1), k, rest[i - 1].kind);
        }
      }
      forall i, j | 0 <= i < j < |items| ensures SectionIndex(items[i].kind) <= SectionIndex(items[j].kind) {
        if i > 0 {
          assert SectionIndex(rest[i - 1].kind) <= SectionIndex(rest[j - 1].kind);
        }
      }
    }
  }

  lemma {:induction false} AllFitOne(p: Platform, n: nat, items: seq<Item>)
    requires items != []
    ensures AllFit(p, n, items) <==> Fits(p, n, items[0]) && AllFit(p, n + 1, items[1..])
  {
    hide Fits;
    var rest := items[1..];
    if AllFit(p, n, items) {
      assert Fits(p, n + 0, items[0]);
      forall i | 0 <= i < |rest| ensures Fits(p, n + 1 + i, rest[i]) {
        assert Fits(p, n + (i + 1), items[i + 1]);
      }
    }
    if Fits(p, n, items[0]) && AllFit(p, n + 1, rest) {
      forall i | 0 <= i < |items| ensures Fits(p, n + i, items[i]) {
        if i > 0 {
          assert Fits(p, n + 1 + (i - 1), rest[i - 1]);
        }
      }
    }
  }

  /** What the writer becomes when it takes the first item. */
  function NextWriter(p: Platform, w: Writer, item: Item): (r: Writer)
    requires w.digests.Shaped()
    ensures r.digests.Shaped()
  {
    var n := w.digests.nextOrdinal;
    Writer(w.limit, Next(w.digests, SectionIndex(item.kind), FrameLine(p, item.kind, n, item.payload)),
           HeaderAfter(w, [item]), false)
  }

  /** The first item is taken and the rest is accepted, exactly when all are. */
  lemma {:induction false} AcceptsOne(p: Platform, w: Writer, items: seq<Item>)
    requires w.digests.Shaped() && items != []
    ensures var n := w.digests.nextOrdinal;
            Accepts(p, w, items)
            <==> Fits(p, n, items[0]) && Placed(n, w.digests.sectionIndex, items[0].kind) && n + 1 < MAX_BUNDLE_FRAMES
                 && w.digests.byteCount + |FrameLine(p, items[0].kind, n, items[0].payload)| <= w.limit
                 && Accepts(p, NextWriter(p, w, items[0]), items[1..])
  {
    hide Fits, Placed, FrameLine, InOrder, AllFit, TrailerLine, StateTrailer, FrameLines;
    var n := w.digests.nextOrdinal;
    AfterOne(p, w.digests, items);
    InOrderOne(n, w.digests.sectionIndex, items);
    AllFitOne(p, n, items);
  }

  // ----- the trailer always fits its line -----

  lemma {:induction false} DigitCount(n: nat, k: nat)
    requires k >= 1 && n < Ten(k)
    ensures |NatDigits(n)| <= k
  {
    if n >= 10 {
      assert Ten(k) == 10 * Ten(k - 1);
      assert k >= 2 by { assert Ten(0) == 1; assert Ten(1) == 10; }
      DigitCount(n / 10, k - 1);
    }
  }

  /** Counts and lengths have at most ten digits. */
  lemma {:induction false} CountText(n: int)
    requires 0 <= n <= ABSOLUTE_MAX_BUNDLE_BYTES
    ensures |Render(Int(n))| <= 10
  {
    assert Ten(1) == 10 && Ten(2) == 100 && Ten(4) == 10_000 && Ten(5) == 100_000;
    assert Ten(8) == 100_000_000 by { assert Ten(6) == 1_000_000; }
    assert Ten(10) == 10_000_000_000;
    DigitCount(n, 10);
  }

  lemma {:induction false} EscapedLength(s: Text)
    ensures |Escaped(s)| <= 6 * |s|
  {
    if s != [] {
      EscapedLength(s[1..]);
    }
  }

  lemma {:induction false} Utf8Length(s: Text)
    ensures |Utf8(s)| <= 4 * |s|
  {
    if s != [] {
      Utf8Length(s[1..]);
    }
  }

  lemma {:induction false} TextLength(s: Text)
    ensures |Render(Str(s))| <= 6 * |s| + 2
  {
    EscapedLength(s);
  }

  lemma {:induction false} Entries3Length(a: Entry, b: Entry, c: Entry)
    ensures |Render(Obj([a, b, c]))|
         <= 6 * (|a.name| + |b.name| + |c.name|) + |Render(a.value)| + |Render(b.value)| + |Render(c.value)| + 13
  {
    EscapedLength(a.name);
    EscapedLength(b.name);
    EscapedLength(c.name);
    var all := [a, b, c];
    assert all[1..] == [b, c] && [b, c][1..] == [c];
    EntriesLength(c, []);
    EntriesLength(b, [c]);
    EntriesLength(a, [b, c]);
    assert [c] + [] == [c] && [b] + [c] == [b, c] && [a] + [b, c] == all;
  }

  lemma {:induction false} EntriesLength(e: Entry, rest: seq<Entry>)
    ensures |RenderEntries([e] + rest)| <= 6 * |e.name| + 4 + |Render(e.value)| + |RenderEntries(rest)|
  {
    EscapedLength(e.name);
    assert ([e] + rest)[1..] == rest;
  }

  lemma {:induction false} SectionLength(s: Section)
    requires ValidSection(s)
    ensures |Render(SectionJson(s))| <= 700
  {
    CountText(s.count);
    TextLength(KindName(s.kind));
    TextLength(s.sha256);
    Entries3Length(Entry(COUNT_KEY, Int(s.count)), Entry(KIND_KEY, Str(KindName(s.kind))), Entry(SHA256_KEY, Str(s.sha256)));
    assert |KindName(s.kind)| <= 17;
  }

  lemma {:induction false} SectionItemsLength(ss: seq<Section>)
    requires forall i :: 0 <= i < |ss| ==> ValidSection(ss[i])
    ensures |RenderItems(SectionItems(ss))| <= 701 * |ss|
    decreases |ss|
  {
    hide SectionJson;
    if ss != [] {
      SectionLength(ss[0]);
      SectionItemsLength(ss[1..]);
      assert SectionItems(ss)[1..] == SectionItems(ss[1..]);
    }
  }

  lemma {:induction false} TrailerFits(p: Platform, t: Trailer)
    requires ValidTrailer(p, t)
    ensures |TrailerLine(t)| <= MAX_FRAME_BYTES
  {
    CountText(t.byteCount);
    CountText(t.ordinal);
    TextLength(t.root);
    TextLength(TRAILER);
    SectionItemsLength(t.sections);
    hide SectionItems;
    Entries3Length(Entry(BYTES_KEY, Int(t.byteCount)), Entry(ROOT_KEY, Str(t.root)),
                   Entry(SECTIONS_KEY, Arr(SectionItems(t.sections))));
    Entries3Length(Entry(KIND_KEY, Str(TRAILER)), Entry(ORDINAL_KEY, Int(t.ordinal)), Entry(PAYLOAD_KEY, TrailerPayload(t)));
    Utf8Length(Render(TrailerJson(t)));
  }

  // ----- the run -----

  function SummaryFor(header: Json, t: Trailer): Summary {
    Summary(header, t.sections, t.root, t.byteCount, t.byteCount + |TrailerLine(t)|, t.ordinal + 1)
  }

  /** Finishing fails only without a service frame or past the limit. */
  lemma {:induction false} FinishIff(p: Platform, w: Writer)
    requires Regular(p) && UnderWay(w)
    ensures var t := StateTrailer(p, w.digests);
            WriterFinish(p, w)
            == if w.digests.nextOrdinal >= 2 && w.digests.byteCount + |TrailerLine(t)| <= w.limit
               then Some((TrailerLine(t), SummaryFor(w.header.value, t))) else None
  {
    hide Regular, Consistent, ValidTrailer, EncodeTrailer, SectionsOf, Render, Utf8, TrailerJson, ValidSummary;
    DigestsOf(w.digests);
    TrailerExists(p, w.digests);
    var t := StateTrailer(p, w.digests);
    if TrailerOf(p, w.digests).Some? {
      TrailerIs(p, w.digests);
      TrailerOfCounts(p, w.digests);
      EncodedTrailer(p, t);
      TrailerFits(p, t);
      if w.digests.byteCount + |TrailerLine(t)| <= w.limit {
        L.FinishSummary(p, w.digests, w.header.value, t, t.byteCount + |TrailerLine(t)|);
      }
    }
  }

  lemma {:induction false} TrailerIs(p: Platform, st: State)
    requires st.Shaped() && TrailerOf(p, st).Some?
    ensures TrailerOf(p, st).value == StateTrailer(p, st)
  {
    hide ValidTrailer;
  }

  lemma {:induction false} NextUnderWay(p: Platform, w: Writer, item: Item)
    requires Regular(p) && UnderWay(w) && Genuine(p.near, item.payload)
    requires WriterAdd(p, w, item.kind, item.payload).Some?
    ensures UnderWay(NextWriter(p, w, item))
    ensures WriterAdd(p, w, item.kind, item.payload).value
         == (NextWriter(p, w, item), FrameLine(p, item.kind, w.digests.nextOrdinal, item.payload))
  {
    hide Regular, Consistent, Genuine, WriterAdd, FrameLine, FrozenPayload;
    DigestsOf(w.digests);
    AddIff(p, w, item);
    var written, read := AddedLine(p, w, item);
  }

  lemma {:induction false} AcceptsNothing(p: Platform, w: Writer)
    requires w.digests.Shaped()
    ensures Accepts(p, w, [])
       <==> 2 <= w.digests.nextOrdinal < MAX_BUNDLE_FRAMES
            && w.digests.byteCount + |TrailerLine(StateTrailer(p, w.digests))| <= w.limit
  {
    hide TrailerLine, StateTrailer;
    AfterNothing(p, w.digests);
  }

  /** A run from any point: whether it succeeds, and what it then writes. */
  lemma {:induction false} WriteFromIff(p: Platform, w: Writer, items: seq<Item>)
    requires Regular(p) && UnderWay(w) && AllGenuine(p, items)
    ensures w.digests.Shaped()
    ensures var t := StateTrailer(p, After(p, w.digests, items));
            WriteFrom(p, w, items)
            == if Accepts(p, w, items)
               then Some((FrameLines(p, w.digests.nextOrdinal, items) + [TrailerLine(t)],
                          SummaryFor(HeaderAfter(w, items).GetOr(Null), t)))
               else None
    decreases |items|
  {
    hide Regular, Consistent, Genuine, WriterAdd, FrameLine, FrozenPayload, TrailerLine, StateTrailer, Accepts,
         WriterFinish, Fits, Placed, SummaryFor, After, Next, Canon;
    DigestsOf(w.digests);
    var n := w.digests.nextOrdinal;
    if items == [] {
      FinishIff(p, w);
      AfterNothing(p, w.digests);
      AcceptsNothing(p, w);
      assert FrameLines(p, n, items) == [];
      assert [] + [TrailerLine(StateTrailer(p, w.digests))] == [TrailerLine(StateTrailer(p, w.digests))];
    } else {
      AddIff(p, w, items[0]);
      AcceptsOne(p, w, items);
      AfterOne(p, w.digests, items);
      if WriterAdd(p, w, items[0].kind, items[0].payload).Some? {
        var next := NextWriter(p, w, items[0]);
        NextUnderWay(p, w, items[0]);
        NextOrdinal(p, w, items[0]);
        WriteFromIff(p, next, items[1..]);
        Assoc([FrameLine(p, items[0].kind, n, items[0].payload)], FrameLines(p, n + 1, items[1..]),
              [TrailerLine(StateTrailer(p, After(p, w.digests, items)))]);
      }
    }
  }

  lemma {:induction false} NextOrdinal(p: Platform, w: Writer, item: Item)
    requires w.digests.Shaped()
    ensures NextWriter(p, w, item).digests.nextOrdinal == w.digests.nextOrdinal + 1
    ensures NextWriter(p, w, item).digests
         == Next(w.digests, SectionIndex(item.kind), FrameLine(p, item.kind, w.digests.nextOrdinal, item.payload))
    ensures NextWriter(p, w, item).header == HeaderAfter(w, [item])
  {
  }

  // ----- whole bundles -----

  lemma {:induction false} InSectionsIff(items: seq<Item>)
    ensures InSections(items) <==> |items| >= 2 && InOrder(0, 0, items)
  {
    if InSections(items) {
      forall i | 0 <= i < |items| ensures Placed(0 + i, 0, items[i].kind) {
        assert i >= 2 ==> items[i].kind !in {Header, Service, Audit};
      }
    }
    if |items| >= 2 && InOrder(0, 0, items) {
      forall i | 0 <= i < |items| ensures Placed(i, 0, items[i].kind) {
        assert Placed(0 + i, 0, items[i].kind);
      }
    }
  }

  lemma {:induction false} AfterAll(p: Platform, items: seq<Item>)
    ensures EMPTY.Shaped() && StateTrailer(p, After(p, EMPTY, items)) == TrailerFor(p, items)
    ensures After(p, EMPTY, items).byteCount == |Flatten(FrameLines(p, 0, items))|
  {
    hide Flatten, FrameLines, SectionBytes, CountOf;
    var st := After(p, EMPTY, items);
    var body := Flatten(FrameLines(p, 0, items));
    assert [] + body == body;
    var a, b := StateTrailer(p, st).sections, TrailerFor(p, items).sections;
    forall i | 0 <= i < 7 ensures a[i] == b[i] {
      assert EMPTY.sections[i] == [] && EMPTY.counts[i] == 0;
      assert [] + SectionBytes(p, 0, items, SECTION_KINDS[i]) == SectionBytes(p, 0, items, SECTION_KINDS[i]);
    }
    assert a == b;
  }

  /** Which items are written, and what is written for them: one line each, with dense
      ordinals, then the trailer that tells the number of frames of each kind, the digests
      of their lines and of all lines, and their length. */
  lemma {:induction false} WrittenIff(p: Platform, limit: int, items: seq<Item>)
    requires Regular(p) && ValidLimit(limit) && AllGenuine(p, items)
    ensures WriteBundle(p, limit, items).Some? <==> Writes(p, limit, items)
    ensures Writes(p, limit, items) ==>
              var t := TrailerFor(p, items);
              WriteBundle(p, limit, items)
              == Some((FrameLines(p, 0, items) + [TrailerLine(t)],
                       SummaryFor(Canon(FrozenPayload(items[0].payload)), t)))
  {
    hide Regular, AllGenuine, Consistent, FrameLine, FrozenPayload, TrailerLine, StateTrailer, WriteFrom, Fits,
         SummaryFor, After, Canon, InSections, InOrder, FrameLines, TrailerFor, Flatten;
    var w := Writer(limit, EMPTY, None, false);
    EmptyConsistent();
    WriteFromIff(p, w, items);
    AfterAll(p, items);
    InSectionsIff(items);
    assert AllFit(p, 0, items) <==> forall i :: 0 <= i < |items| ==> Fits(p, i, items[i]) by {
      assert forall i :: 0 <= i < |items| ==> Fits(p, 0 + i, items[i]) == Fits(p, i, items[i]);
    }
  }
}
