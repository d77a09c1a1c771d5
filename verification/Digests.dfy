/** The ordered digest authority of a bundle, and the trailer that closes it. */
module Digests {
  import opened Ordering
  import opened Text
  import opened CanonicalJson
  import opened JsonParsing
  import opened JsonRoundTrip
  import opened Bundle

  // ----- the running state -----

  /** Incremental SHA-256 objects are the bytes fed to them so far. */
  datatype State = State(nextOrdinal: nat, sectionIndex: nat, byteCount: nat,
                         root: Bytes, sections: seq<Bytes>, counts: seq<nat>)
  {
    predicate Shaped() {
      |sections| == 7 && |counts| == 7 && sectionIndex < 7
    }
  }

  const EMPTY: State := State(0, 0, 0, [], [[], [], [], [], [], [], []], [0, 0, 0, 0, 0, 0, 0])

  /** `OrderedBundleDigests.add`: every check precedes every update. */
  function AddFrame(p: Platform, st: State, f: Frame, line: Bytes): (r: Option<State>)
    requires st.Shaped()
    ensures r.Some? ==> r.value.Shaped()
  {
    var k := SectionIndex(f.kind);
    if line == [] || line[|line| - 1] != NEWLINE || |line| > MAX_FRAME_BYTES then None
    else if f.ordinal != st.nextOrdinal || f.kind == Audit then None
    else if EncodeFrame(p, f.kind, f.ordinal, Thaw(f.payload)) != Some(line) then None
    else if k < st.sectionIndex then None
    else if (if f.kind == Header then f.ordinal != 0 || st.counts[0] != 0 else st.counts[0] != 1) then None
    else if (if f.kind == Service then f.ordinal != 1 || st.counts[1] != 0
             else k > 1 && st.counts[1] != 1) then None
    else if st.nextOrdinal >= MAX_BUNDLE_FRAMES - 1 then None
    else Some(State(st.nextOrdinal + 1, k, st.byteCount + |line|, st.root + line,
                    st.sections[k := st.sections[k] + line], st.counts[k := st.counts[k] + 1]))
  }

  function Sum(ns: seq<nat>): nat {
    if ns == [] then 0 else ns[0] + Sum(ns[1..])
  }

  function Flatten(parts: seq<Bytes>): Bytes {
    if parts == [] then [] else parts[0] + Flatten(parts[1..])
  }

  /** What every reachable state satisfies: ordinals are dense, the header and the service
      come exactly once and first, later sections are still empty, audit stays empty, and
      the root input is the section inputs laid end to end. */
  ghost predicate Consistent(st: State) {
    && st.Shaped()
    && Sum(st.counts) == st.nextOrdinal <= MAX_BUNDLE_FRAMES - 1
    && st.counts[0] == (if st.nextOrdinal == 0 then 0 else 1)
    && st.counts[1] == (if st.nextOrdinal <= 1 then 0 else 1)
    && (st.sectionIndex == 0 <==> st.nextOrdinal <= 1)
    && (forall i :: st.sectionIndex < i < 7 ==> st.counts[i] == 0 && st.sections[i] == [])
    && st.sectionIndex < 6
    && st.root == Flatten(st.sections) && st.byteCount == |st.root|
  }

  lemma {:induction false} SumUpdate(ns: seq<nat>, k: nat)
    requires k < |ns|
    ensures Sum(ns[k := ns[k] + 1]) == Sum(ns) + 1
  {
    var changed := ns[k := ns[k] + 1];
    if k == 0 {
      assert changed[1..] == ns[1..];
    } else {
      SumUpdate(ns[1..], k - 1);
      assert changed[1..] == ns[1..][k - 1 := ns[1..][k - 1] + 1];
    }
  }

  lemma {:induction false} SumZero(ns: seq<nat>)
    requires forall i :: 0 <= i < |ns| ==> ns[i] == 0
    ensures Sum(ns) == 0
  {
    if ns != [] {
      SumZero(ns[1..]);
    }
  }

  lemma {:induction false} FlattenEmpty(parts: seq<Bytes>)
    requires forall i :: 0 <= i < |parts| ==> parts[i] == []
    ensures Flatten(parts) == []
  {
    if parts != [] {
      FlattenEmpty(parts[1..]);
    }
  }

  /** Appending to the last nonempty part appends to the whole. */
  lemma {:induction false} FlattenAppend(parts: seq<Bytes>, k: nat, line: Bytes)
    requires k < |parts| && forall i :: k < i < |parts| ==> parts[i] == []
    ensures Flatten(parts[k := parts[k] + line]) == Flatten(parts) + line
  {
    var changed := parts[k := parts[k] + line];
    if k == 0 {
      FlattenEmpty(parts[1..]);
      assert changed[1..] == parts[1..];
      assert parts[0] + [] == parts[0] && (parts[0] + line) + [] == parts[0] + line;
    } else {
      FlattenAppend(parts[1..], k - 1, line);
      assert changed[1..] == parts[1..][k - 1 := parts[1..][k - 1] + line];
      Assoc(parts[0], Flatten(parts[1..]), line);
    }
  }

  lemma {:induction false} EmptyConsistent()
    ensures Consistent(EMPTY)
  {
    SumZero(EMPTY.counts);
    FlattenEmpty(EMPTY.sections);
  }

  /** Every accepted frame keeps the state consistent and takes the next ordinal. */
  lemma {:induction false} AddKeepsConsistent(p: Platform, st: State, f: Frame, line: Bytes)
    requires Consistent(st) && AddFrame(p, st, f, line).Some?
    ensures Consistent(AddFrame(p, st, f, line).value)
    ensures f.ordinal == st.nextOrdinal
    ensures (f.kind == Header <==> f.ordinal == 0) && (f.kind == Service <==> f.ordinal == 1)
    ensures SectionIndex(f.kind) >= st.sectionIndex && f.kind != Audit
  {
    var k := SectionIndex(f.kind);
    SumUpdate(st.counts, k);
    FlattenAppend(st.sections, k, line);
    if st.nextOrdinal == 1 {
      assert st.counts[1] == 0;
    }
  }

  // ----- the trailer -----

  datatype Section = Section(kind: Kind, count: int, sha256: Text)

  datatype Trailer = Trailer(ordinal: int, byteCount: int, root: Text, sections: seq<Section>)

  predicate ValidSection(s: Section) {
    0 <= s.count < MAX_BUNDLE_FRAMES && IsDigest(s.sha256)
  }

  function SectionSum(ss: seq<Section>): int {
    if ss == [] then 0 else ss[0].count + SectionSum(ss[1..])
  }

  /** The checks of the trailer's constructor and of its sections' constructor. */
  predicate ValidTrailer(p: Platform, t: Trailer) {
    && 0 <= t.ordinal < MAX_BUNDLE_FRAMES
    && 0 <= t.byteCount <= ABSOLUTE_MAX_BUNDLE_BYTES
    && IsDigest(t.root)
    && |t.sections| == 7
    && (forall i :: 0 <= i < 7 ==> ValidSection(t.sections[i]) && t.sections[i].kind == SECTION_KINDS[i])
    && SectionSum(t.sections) == t.ordinal
    && t.sections[6].count == 0
    && t.sections[6].sha256 == p.emptyDigest
  }

  function SectionsOf(p: Platform, st: State, k: nat): (r: seq<Section>)
    requires st.Shaped() && k <= 7
    ensures |r| == 7 - k
    ensures forall i :: 0 <= i < |r| ==>
              r[i] == Section(SECTION_KINDS[k + i], st.counts[k + i], p.sha256(st.sections[k + i]))
    decreases 7 - k
  {
    if k == 7 then []
    else [Section(SECTION_KINDS[k], st.counts[k], p.sha256(st.sections[k]))] + SectionsOf(p, st, k + 1)
  }

  /** `OrderedBundleDigests.trailer`. */
  function TrailerOf(p: Platform, st: State): Option<Trailer>
    requires st.Shaped()
  {
    if st.counts[0] != 1 || st.counts[1] != 1 then None
    else
      var t := Trailer(st.nextOrdinal, st.byteCount, p.sha256(st.root), SectionsOf(p, st, 0));
      if ValidTrailer(p, t) then Some(t) else None
  }

  lemma {:induction false} SectionSums(p: Platform, st: State, k: nat)
    requires st.Shaped() && k <= 7
    ensures SectionSum(SectionsOf(p, st, k)) == Sum(st.counts[k..])
    decreases 7 - k
  {
    if k < 7 {
      SectionSums(p, st, k + 1);
      assert st.counts[k..][1..] == st.counts[k + 1..];
      assert SectionsOf(p, st, k)[1..] == SectionsOf(p, st, k + 1);
    }
  }

  lemma {:induction false} CountBound(ns: seq<nat>, k: nat)
    requires k < |ns|
    ensures ns[k] <= Sum(ns)
  {
    if k > 0 {
      CountBound(ns[1..], k - 1);
    }
  }

  /** From a reachable state the trailer constructor never fails: it is refused exactly
      while the service frame is missing or past the absolute byte limit. */
  lemma {:induction false} TrailerExists(p: Platform, st: State)
    requires Regular(p) && Consistent(st)
    ensures TrailerOf(p, st).Some? <==> st.nextOrdinal >= 2 && st.byteCount <= ABSOLUTE_MAX_BUNDLE_BYTES
  {
    SectionSums(p, st, 0);
    assert st.counts[0..] == st.counts;
    forall i | 0 <= i < 7 ensures st.counts[i] < MAX_BUNDLE_FRAMES {
      CountBound(st.counts, i);
    }
  }

  /** A trailer that tells the whole of a state: how many frames of each section there were,
      the digest of each section's lines and of all lines together, and their length. */
  ghost predicate Tells(p: Platform, t: Trailer, st: State)
    requires st.Shaped()
  {
    && t.ordinal == Sum(st.counts) && t.byteCount == |Flatten(st.sections)| && t.root == p.sha256(Flatten(st.sections))
    && |t.sections| == 7
    && forall i :: 0 <= i < 7 ==>
         t.sections[i] == Section(SECTION_KINDS[i], st.counts[i], p.sha256(st.sections[i]))
  }

  /** From a reachable state exactly one trailer is accepted: the one that tells the state,
      and only once header and service are there and within the byte limit. */
  lemma {:induction false} TrailerIff(p: Platform, st: State, t: Trailer)
    requires Regular(p) && Consistent(st)
    ensures TrailerOf(p, st) == Some(t) <==> Tells(p, t, st) && t.ordinal >= 2 && t.byteCount <= ABSOLUTE_MAX_BUNDLE_BYTES
  {
    TrailerExists(p, st);
    hide Regular, ValidTrailer, Sum, Flatten;
    if Tells(p, t, st) {
      assert t.sections == SectionsOf(p, st, 0);
    }
  }

  // ----- the trailer line -----

  function SectionJson(s: Section): Json {
    Obj([Entry(COUNT_KEY, Int(s.count)), Entry(KIND_KEY, Str(KindName(s.kind))), Entry(SHA256_KEY, Str(s.sha256))])
  }

  function SectionItems(ss: seq<Section>): (r: seq<Json>)
    ensures |r| == |ss|
  {
    if ss == [] then [] else [SectionJson(ss[0])] + SectionItems(ss[1..])
  }

  function TrailerPayload(t: Trailer): Json {
    Obj([Entry(BYTES_KEY, Int(t.byteCount)), Entry(ROOT_KEY, Str(t.root)),
         Entry(SECTIONS_KEY, Arr(SectionItems(t.sections)))])
  }

  /** The trailer object with its names in key order. */
  function TrailerJson(t: Trailer): Json {
    Obj([Entry(KIND_KEY, Str(TRAILER)), Entry(ORDINAL_KEY, Int(t.ordinal)), Entry(PAYLOAD_KEY, TrailerPayload(t))])
  }

  /** `encode_trailer`. */
  function EncodeTrailer(t: Trailer): Option<Bytes> {
    match CanonicalBytes(Thaw(TrailerJson(t)))
    case None => None
    case Some(bytes) => if |bytes| + 1 > MAX_FRAME_BYTES then None else Some(bytes + [NEWLINE])
  }

  function DecodeSection(v: Json, expected: Kind): Option<Section> {
    if !v.Obj? || Names(v.entries) != {COUNT_KEY, KIND_KEY, SHA256_KEY} then None
    else
      match (Lookup(v.entries, KIND_KEY), Lookup(v.entries, COUNT_KEY), Lookup(v.entries, SHA256_KEY))
      case (Some(Str(name)), Some(Int(count)), Some(Str(digest))) =>
        var s := Section(expected, count, digest);
        if name == KindName(expected) && ValidSection(s) then Some(s) else None
      case _ => None
  }

  /** The strict zip of the raw sections with the section kinds. */
  function DecodeSections(items: seq<Json>, kinds: seq<Kind>): Option<seq<Section>>
    requires |items| == |kinds|
  {
    if items == [] then Some([])
    else
      match DecodeSection(items[0], kinds[0])
      case None => None
      case Some(first) =>
        match DecodeSections(items[1..], kinds[1..])
        case None => None
        case Some(rest) => Some([first] + rest)
  }

  function DecodePayload(p: Platform, ordinal: int, v: Json): Option<Trailer> {
    if !v.Obj? || Names(v.entries) != {BYTES_KEY, ROOT_KEY, SECTIONS_KEY} then None
    else
      match (Lookup(v.entries, BYTES_KEY), Lookup(v.entries, ROOT_KEY), Lookup(v.entries, SECTIONS_KEY))
      case (Some(Int(byteCount)), Some(Str(root)), Some(Arr(raw))) =>
        if |raw| != |SECTION_KINDS| then None
        else
          (match DecodeSections(raw, SECTION_KINDS)
           case None => None
           case Some(sections) =>
             var t := Trailer(ordinal, byteCount, root, sections);
             if ValidTrailer(p, t) then Some(t) else None)
      case _ => None
  }

  /** `decode_trailer`. */
  function DecodeTrailer(p: Platform, v: Json): Option<Trailer> {
    if !v.Obj? || Names(v.entries) != {KIND_KEY, ORDINAL_KEY, PAYLOAD_KEY} then None
    else if Lookup(v.entries, KIND_KEY) != Some(Str(TRAILER)) then None
    else
      match (Lookup(v.entries, ORDINAL_KEY), Lookup(v.entries, PAYLOAD_KEY))
      case (Some(Int(ordinal)), Some(payload)) => DecodePayload(p, ordinal, payload)
      case _ => None
  }

  lemma {:induction false} SectionFacts(p: Platform, s: Section)
    requires ValidSection(s)
    ensures var v := SectionJson(s);
            Sound(p.near, v) && Depth(v) == 1 && Decodable(v) && Canon(v) == v
  {
    SectionNames();
    KindNames(s.kind);
    Object3(p.near, Entry(COUNT_KEY, Int(s.count)), Entry(KIND_KEY, Str(KindName(s.kind))), Entry(SHA256_KEY, Str(s.sha256)));
  }

  lemma {:induction false} DecodeSectionJson(s: Section)
    requires ValidSection(s)
    ensures DecodeSection(SectionJson(s), s.kind) == Some(s)
  {
    SectionNames();
    Fields3(Entry(COUNT_KEY, Int(s.count)), Entry(KIND_KEY, Str(KindName(s.kind))), Entry(SHA256_KEY, Str(s.sha256)));
  }

  lemma {:induction false} ConsItem(p: Platform, v: Json, rest: seq<Json>)
    ensures var all := [v] + rest;
            && (SoundItems(p.near, all) <==> Sound(p.near, v) && SoundItems(p.near, rest))
            && (DecodableItems(all) <==> Decodable(v) && DecodableItems(rest))
            && ItemsDepth(all) == Max(Depth(v), ItemsDepth(rest))
            && CanonItems(all) == [Canon(v)] + CanonItems(rest)
  {
    assert ([v] + rest)[1..] == rest;
  }

  lemma {:induction false} SectionItemsFacts(p: Platform, ss: seq<Section>)
    requires forall i :: 0 <= i < |ss| ==> ValidSection(ss[i])
    ensures var items := SectionItems(ss);
            SoundItems(p.near, items) && ItemsDepth(items) <= 1 && DecodableItems(items) && CanonItems(items) == items
    decreases |ss|
  {
    if ss != [] {
      SectionFacts(p, ss[0]);
      SectionItemsFacts(p, ss[1..]);
      ConsItem(p, SectionJson(ss[0]), SectionItems(ss[1..]));
    }
  }

  lemma {:induction false} DecodeSectionItems(ss: seq<Section>, kinds: seq<Kind>)
    requires |ss| == |kinds|
    requires forall i :: 0 <= i < |ss| ==> ValidSection(ss[i]) && ss[i].kind == kinds[i]
    ensures DecodeSections(SectionItems(ss), kinds) == Some(ss)
    decreases |ss|
  {
    if ss != [] {
      DecodeSectionJson(ss[0]);
      DecodeSectionItems(ss[1..], kinds[1..]);
      assert SectionItems(ss)[1..] == SectionItems(ss[1..]);
      assert ss == [ss[0]] + ss[1..];
    }
  }

  lemma {:induction false} TrailerPayloadFacts(p: Platform, t: Trailer)
    requires ValidTrailer(p, t)
    ensures var v := TrailerPayload(t);
            Sound(p.near, v) && Depth(v) <= 3 && Decodable(v) && Canon(v) == v
  {
    PayloadNames();
    SectionItemsFacts(p, t.sections);
    Object3(p.near, Entry(BYTES_KEY, Int(t.byteCount)), Entry(ROOT_KEY, Str(t.root)),
            Entry(SECTIONS_KEY, Arr(SectionItems(t.sections))));
  }

  lemma {:induction false} DecodeTrailerPayload(p: Platform, t: Trailer)
    requires ValidTrailer(p, t)
    ensures DecodePayload(p, t.ordinal, TrailerPayload(t)) == Some(t)
  {
    PayloadNames();
    DecodeSectionItems(t.sections, SECTION_KINDS);
    Fields3(Entry(BYTES_KEY, Int(t.byteCount)), Entry(ROOT_KEY, Str(t.root)),
            Entry(SECTIONS_KEY, Arr(SectionItems(t.sections))));
  }

  lemma {:induction false} DecodeTrailerJson(p: Platform, t: Trailer)
    requires ValidTrailer(p, t)
    ensures DecodeTrailer(p, TrailerJson(t)) == Some(t)
    ensures Lookup(TrailerJson(t).entries, KIND_KEY) == Some(Str(TRAILER))
  {
    FrameNames();
    DecodeTrailerPayload(p, t);
    Fields3(Entry(KIND_KEY, Str(TRAILER)), Entry(ORDINAL_KEY, Int(t.ordinal)), Entry(PAYLOAD_KEY, TrailerPayload(t)));
  }

  /** The trailer object is frozen and free of floats. */
  lemma {:induction false} TrailerFacts(p: Platform, t: Trailer)
    requires ValidTrailer(p, t)
    ensures Decoded(p.near, TrailerJson(t))
  {
    FrameNames();
    TrailerPayloadFacts(p, t);
    Object3(p.near, Entry(KIND_KEY, Str(TRAILER)), Entry(ORDINAL_KEY, Int(t.ordinal)), Entry(PAYLOAD_KEY, TrailerPayload(t)));
  }

  lemma {:induction false} FrozenBytes(near: Rounding, v: Json)
    requires Decoded(near, v)
    ensures CanonicalBytes(Thaw(v)) == Some(Utf8(Render(v)))
  {
    FreezeThaw(near, v, 0);
  }

  lemma {:induction false} EncodedTrailer(p: Platform, t: Trailer)
    requires ValidTrailer(p, t)
    ensures var bytes := Utf8(Render(TrailerJson(t)));
            EncodeTrailer(t) == if |bytes| + 1 > MAX_FRAME_BYTES then None else Some(bytes + [NEWLINE])
  {
    TrailerFacts(p, t);
    FrozenBytes(p.near, TrailerJson(t));
  }

  lemma {:induction false} DecodedSection(p: Platform, v: Json, expected: Kind)
    requires Sound(p.near, v) && DecodeSection(v, expected).Some?
    ensures v == SectionJson(DecodeSection(v, expected).value)
  {
    SectionNames();
    Closed3(v.entries, COUNT_KEY, KIND_KEY, SHA256_KEY);
    assert v.entries == [v.entries[0], v.entries[1], v.entries[2]];
  }

  lemma {:induction false} DecodedSections(p: Platform, items: seq<Json>, kinds: seq<Kind>)
    requires |items| == |kinds| && SoundItems(p.near, items) && DecodeSections(items, kinds).Some?
    ensures items == SectionItems(DecodeSections(items, kinds).value)
    decreases |items|
  {
    if items != [] {
      DecodedSection(p, items[0], kinds[0]);
      DecodedSections(p, items[1..], kinds[1..]);
      var rest := DecodeSections(items[1..], kinds[1..]).value;
      var ss := [DecodeSection(items[0], kinds[0]).value] + rest;
      assert ss[1..] == rest;
      assert items == [items[0]] + items[1..];
    }
  }

  lemma {:induction false} SoundMember(p: Platform, entries: seq<Entry>, k: nat)
    requires SoundEntries(p.near, entries) && k < |entries|
    ensures Sound(p.near, entries[k].value)
    decreases entries
  {
    if k > 0 {
      SoundMember(p, entries[1..], k - 1);
    }
  }

  lemma {:induction false} Rebuilt3(es: seq<Entry>, a: Entry, b: Entry, c: Entry)
    requires |es| == 3 && es[0] == a && es[1] == b && es[2] == c
    ensures es == [a, b, c]
  {
  }

  /** A canonical object that decodes as a trailer is the object that trailer encodes to. */
  lemma {:induction false} DecodedTrailer(p: Platform, v: Json)
    requires Sound(p.near, v) && DecodeTrailer(p, v).Some?
    ensures v == TrailerJson(DecodeTrailer(p, v).value) && ValidTrailer(p, DecodeTrailer(p, v).value)
  {
    var es, t := v.entries, DecodeTrailer(p, v).value;
    FrameNames();
    Closed3(es, KIND_KEY, ORDINAL_KEY, PAYLOAD_KEY);
    SoundMember(p, es, 2);
    DecodedPayload(p, es[1].value.n, es[2].value);
    Rebuilt3(es, Entry(KIND_KEY, Str(TRAILER)), Entry(ORDINAL_KEY, Int(t.ordinal)), Entry(PAYLOAD_KEY, TrailerPayload(t)));
  }

  lemma {:induction false} PayloadFields(p: Platform, ordinal: int, v: Json)
    requires DecodePayload(p, ordinal, v).Some? && v.Obj? && StrictlySorted(EntryKey, v.entries)
    ensures var t, es := DecodePayload(p, ordinal, v).value, v.entries;
            && |es| == 3 && es[0] == Entry(BYTES_KEY, Int(t.byteCount)) && es[1] == Entry(ROOT_KEY, Str(t.root))
            && es[2].name == SECTIONS_KEY && es[2].value.Arr? && |es[2].value.items| == |SECTION_KINDS|
            && DecodeSections(es[2].value.items, SECTION_KINDS) == Some(t.sections)
            && ValidTrailer(p, t) && t.ordinal == ordinal
  {
    PayloadNames();
    Closed3(v.entries, BYTES_KEY, ROOT_KEY, SECTIONS_KEY);
  }

  lemma {:induction false} DecodedPayload(p: Platform, ordinal: int, v: Json)
    requires Sound(p.near, v) && DecodePayload(p, ordinal, v).Some?
    ensures v == TrailerPayload(DecodePayload(p, ordinal, v).value)
    ensures ValidTrailer(p, DecodePayload(p, ordinal, v).value) && DecodePayload(p, ordinal, v).value.ordinal == ordinal
  {
    var t, es := DecodePayload(p, ordinal, v).value, v.entries;
    PayloadFields(p, ordinal, v);
    SoundMember(p, es, 2);
    DecodedSections(p, es[2].value.items, SECTION_KINDS);
    Rebuilt3(es, Entry(BYTES_KEY, Int(t.byteCount)), Entry(ROOT_KEY, Str(t.root)),
             Entry(SECTIONS_KEY, Arr(SectionItems(t.sections))));
  }

  // ----- the object that the writer and the reader share -----

  class OrderedBundleDigests {
    var nextOrdinal: nat
    var sectionIndex: nat
    var byteCount: nat
    var root: Bytes
    var sections: seq<Bytes>
    var counts: seq<nat>

    /** The fields as one value. */
    function Value(): State
      reads this
    {
      State(nextOrdinal, sectionIndex, byteCount, root, sections, counts)
    }

    ghost predicate Valid()
      reads this
    {
      Consistent(Value())
    }

    constructor ()
      ensures Valid() && Value() == EMPTY
    {
      nextOrdinal, sectionIndex, byteCount, root := 0, 0, 0, [];
      sections := seq(7, _ => []);
      counts := seq(7, _ => 0);
      new;
      assert Value() == EMPTY;
      EmptyConsistent();
    }

    /** A refused frame leaves the object as it was. */
    method Add(p: Platform, f: Frame, line: Bytes) returns (ok: bool)
      requires Valid()
      modifies this
      ensures Valid()
      ensures ok == AddFrame(p, old(Value()), f, line).Some?
      ensures Value() == if ok then AddFrame(p, old(Value()), f, line).value else old(Value())
    {
      hide EncodeFrame;
      var k := SectionIndex(f.kind);
      if line == [] || line[|line| - 1] != NEWLINE || |line| > MAX_FRAME_BYTES
         || f.ordinal != nextOrdinal || f.kind == Audit
         || EncodeFrame(p, f.kind, f.ordinal, Thaw(f.payload)) != Some(line) {
        return false;
      }
      if k < sectionIndex {
        return false;
      }
      if f.kind == Header {
        if f.ordinal != 0 || counts[0] != 0 { return false; }
      } else if counts[0] != 1 {
        return false;
      }
      if f.kind == Service {
        if f.ordinal != 1 || counts[1] != 0 { return false; }
      } else if k > 1 && counts[1] != 1 {
        return false;
      }
      if nextOrdinal >= MAX_BUNDLE_FRAMES - 1 {
        return false;
      }
      ghost var before := Value();
      assert AddFrame(p, before, f, line).Some?;
      AddKeepsConsistent(p, before, f, line);
      sectionIndex := k;
      sections := sections[k := sections[k] + line];
      root := root + line;
      counts := counts[k := counts[k] + 1];
      byteCount := byteCount + |line|;
      nextOrdinal := nextOrdinal + 1;
      return true;
    }

    /** Whether a trailer is the one this object would write: it tells the frames that were
        added, and they may be closed. */
    method Verify(p: Platform, t: Trailer) returns (ok: bool)
      requires Valid()
      ensures ok <==> TrailerOf(p, Value()) == Some(t)
      ensures Regular(p) ==> (ok <==> Tells(p, t, Value()) && t.ordinal >= 2 && t.byteCount <= ABSOLUTE_MAX_BUNDLE_BYTES)
    {
      ok := TrailerOf(p, Value()) == Some(t);
      hide Regular, Tells, TrailerOf;
      if Regular(p) {
        TrailerIff(p, Value(), t);
      }
    }
  }
}
