/** Frames, trailer and ordered digests of portable bundle format v1. */
module Bundle {
  import opened Ordering
  import opened Text
  import opened Decimals
  import opened CanonicalJson
  import opened JsonParsing
  import opened JsonRoundTrip

  const MAX_FRAME_BYTES := 1024 * 1024
  const ABSOLUTE_MAX_BUNDLE_BYTES := 1024 * 1024 * 1024
  const MAX_BUNDLE_FRAMES := 1_000_000
  const NEWLINE: Byte := 0x0A
  const RETURN: Byte := 0x0D

  const KIND_KEY: Text := Ascii("kind")
  const ORDINAL_KEY: Text := Ascii("ordinal")
  const PAYLOAD_KEY: Text := Ascii("payload")
  const SHA256_KEY: Text := Ascii("sha256")
  const COUNT_KEY: Text := Ascii("count")
  const SECTIONS_KEY: Text := Ascii("sections")
  const ROOT_KEY: Text := Ascii("root_sha256")
  const BYTES_KEY: Text := Ascii("pre_trailer_byte_count")
  const TRAILER: Text := Ascii("trailer")

  /** The parts of the platform the format rests on: float rounding, SHA-256 as lower-case
      hexadecimal, the constant EMPTY_SHA256, and the header constructor's checks on a
      decoded header payload. */
  datatype Platform = Platform(near: Rounding, sha256: Bytes -> Text, emptyDigest: Text, validHeader: Json -> bool)

  predicate IsDigest(s: Text) {
    |s| == 64 && forall i :: 0 <= i < 64 ==> IsDigit(s[i]) || 'a' as int <= s[i] <= 'f' as int
  }

  /** What SHA-256 and `float` guarantee, the constant being the digest of no bytes.
      Nothing is assumed about collisions. */
  ghost predicate Regular(p: Platform) {
    Idempotent(p.near) && (forall b :: IsDigest(p.sha256(b))) && p.sha256([]) == p.emptyDigest
  }

  /** The non-trailer kinds in section order. */
  datatype Kind = Header | Service | Record | History | Branch | BranchMembership | Audit

  const SECTION_KINDS: seq<Kind> := [Header, Service, Record, History, Branch, BranchMembership, Audit]

  function SectionIndex(k: Kind): (i: nat)
    ensures i < 7 && SECTION_KINDS[i] == k
  {
    match k
    case Header => 0
    case Service => 1
    case Record => 2
    case History => 3
    case Branch => 4
    case BranchMembership => 5
    case Audit => 6
  }

  function KindName(k: Kind): Text {
    match k
    case Header => Ascii("header")
    case Service => Ascii("service")
    case Record => Ascii("record")
    case History => Ascii("history")
    case Branch => Ascii("branch")
    case BranchMembership => Ascii("branch_membership")
    case Audit => Ascii("audit")
  }

  function KindNamed(name: Text): Option<Kind> {
    if name == KindName(Header) then Some(Header)
    else if name == KindName(Service) then Some(Service)
    else if name == KindName(Record) then Some(Record)
    else if name == KindName(History) then Some(History)
    else if name == KindName(Branch) then Some(Branch)
    else if name == KindName(BranchMembership) then Some(BranchMembership)
    else if name == KindName(Audit) then Some(Audit)
    else None
  }

  lemma {:induction false} KindNames(k: Kind)
    ensures KindNamed(KindName(k)) == Some(k)
    ensures KindName(k) != TRAILER && Scalar(KindName(k))
  {
    var n := KindName(k);
    assert |TRAILER| == 7 && TRAILER[0] == 't' as int;
    match k
    case Header => assert n[0] == 'h' as int;
    case Service => assert n[0] == 's' as int;
    case Record => assert n[0] == 'r' as int;
    case History => assert n[0] == 'h' as int && |n| == 7;
    case Branch => assert n[0] == 'b' as int && |n| == 6;
    case BranchMembership => assert n[0] == 'b' as int && |n| == 17;
    case Audit => assert n[0] == 'a' as int;
  }

  lemma {:induction false} NamedKind(name: Text)
    ensures KindNamed(name).Some? ==> name == KindName(KindNamed(name).value)
  {
  }

  // ----- objects with a closed set of names -----

  function Lookup(entries: seq<Entry>, name: Text): Option<Json> {
    if entries == [] then None
    else if entries[0].name == name then Some(entries[0].value)
    else Lookup(entries[1..], name)
  }

  function Names(entries: seq<Entry>): set<Text> {
    set e | e in entries :: e.name
  }

  predicate Leads(a: Text, b: Text) {
    a != [] && b != [] && a[0] < b[0] && b[0] < 0xD800 && Scalar(a) && Scalar(b)
  }

  lemma {:induction false} LeadsLess(a: Text, b: Text)
    requires Leads(a, b)
    ensures Less(Utf16Key(a), Utf16Key(b)) && a != b
  {
    assert Utf16Key(a)[0] == a[0] && Utf16Key(b)[0] == b[0];
  }

  /** Three or four members under names of increasing first letter, in canonical order. */
  ghost predicate Shape(names: seq<Text>) {
    forall i, j :: 0 <= i < j < |names| ==> Leads(names[i], names[j])
  }

  lemma {:induction false} FrameNames()
    ensures Shape([KIND_KEY, ORDINAL_KEY, PAYLOAD_KEY, SHA256_KEY]) && Shape([KIND_KEY, ORDINAL_KEY, PAYLOAD_KEY])
  {
    assert KIND_KEY[0] == 'k' as int && ORDINAL_KEY[0] == 'o' as int;
    assert PAYLOAD_KEY[0] == 'p' as int && SHA256_KEY[0] == 's' as int;
  }

  lemma {:induction false} SectionNames()
    ensures Shape([COUNT_KEY, KIND_KEY, SHA256_KEY])
  {
    assert COUNT_KEY[0] == 'c' as int && KIND_KEY[0] == 'k' as int && SHA256_KEY[0] == 's' as int;
  }

  lemma {:induction false} PayloadNames()
    ensures Shape([BYTES_KEY, ROOT_KEY, SECTIONS_KEY])
  {
    assert BYTES_KEY[0] == 'p' as int && ROOT_KEY[0] == 'r' as int && SECTIONS_KEY[0] == 's' as int;
  }

  lemma {:induction false} ShapeSorted(entries: seq<Entry>, names: seq<Text>)
    requires Shape(names) && |entries| == |names|
    requires forall i :: 0 <= i < |names| ==> entries[i].name == names[i]
    ensures StrictlySorted(EntryKey, entries)
  {
    forall i, j | 0 <= i < j < |entries| ensures Less(EntryKey(entries[i]), EntryKey(entries[j])) {
      LeadsLess(names[i], names[j]);
    }
  }

  lemma {:induction false} LookupMember(entries: seq<Entry>, k: nat)
    requires StrictlySorted(EntryKey, entries) && k < |entries|
    ensures Lookup(entries, entries[k].name) == Some(entries[k].value)
  {
    if k > 0 {
      LessTotal(EntryKey(entries[0]), EntryKey(entries[k]));
      StrictTail(EntryKey, entries);
      LookupMember(entries[1..], k - 1);
    }
  }

  lemma {:induction false} LookupFinds(entries: seq<Entry>, name: Text)
    ensures name in Names(entries) <==> Lookup(entries, name).Some?
    ensures Lookup(entries, name).Some? ==> Entry(name, Lookup(entries, name).value) in entries
  {
    if entries != [] {
      LookupFinds(entries[1..], name);
      assert Names(entries) == {entries[0].name} + Names(entries[1..]);
    }
  }

  /** A canonical object whose names are exactly the given ones lists them in order. */
  lemma {:induction false} ClosedObject(entries: seq<Entry>, names: seq<Text>)
    requires StrictlySorted(EntryKey, entries) && Shape(names)
    requires forall n :: n in Names(entries) <==> n in names
    ensures |entries| == |names|
    ensures forall i :: 0 <= i < |names| ==> entries[i].name == names[i]
  {
    forall i | 0 <= i < |names| ensures Lookup(entries, names[i]).Some? {
      assert names[i] in Names(entries);
      LookupFinds(entries, names[i]);
    }
    var built := seq(|names|, i requires 0 <= i < |names| => Entry(names[i], Lookup(entries, names[i]).GetOr(Null)));
    ShapeSorted(built, names);
    forall e ensures e in entries <==> e in built {
      if e in entries {
        assert e.name in Names(entries);
        var i :| 0 <= i < |names| && names[i] == e.name;
        var k :| 0 <= k < |entries| && entries[k] == e;
        LookupMember(entries, k);
        assert built[i] == e;
      }
      if e in built {
        var i :| 0 <= i < |built| && built[i] == e;
        LookupFinds(entries, names[i]);
      }
    }
    StrictUnique(EntryKey, entries, built);
  }

  /** What the recursive functions over entries say of a first entry and the rest. */
  lemma {:induction false} ConsEntry(near: Rounding, e: Entry, rest: seq<Entry>)
    ensures var all := [e] + rest;
            && (SoundEntries(near, all) <==> Scalar(e.name) && Sound(near, e.value) && SoundEntries(near, rest))
            && (DecodableEntries(all) <==> Decodable(e.value) && DecodableEntries(rest))
            && EntriesDepth(all) == Max(Depth(e.value), EntriesDepth(rest))
            && ThawEntries(all) == [Pair(e.name, Thaw(e.value))] + ThawEntries(rest)
            && CanonEntries(all) == [Entry(e.name, Canon(e.value))] + CanonEntries(rest)
  {
    assert ([e] + rest)[1..] == rest;
  }

  lemma {:induction false} Entries3(near: Rounding, a: Entry, b: Entry, c: Entry)
    ensures var all := [a, b, c];
            && (SoundEntries(near, all) <==>
                  (Scalar(a.name) && Sound(near, a.value) && Scalar(b.name) && Sound(near, b.value)
                   && Scalar(c.name) && Sound(near, c.value)))
            && (DecodableEntries(all) <==> Decodable(a.value) && Decodable(b.value) && Decodable(c.value))
            && EntriesDepth(all) == Max(Depth(a.value), Max(Depth(b.value), Depth(c.value)))
            && ThawEntries(all) == [Pair(a.name, Thaw(a.value)), Pair(b.name, Thaw(b.value)), Pair(c.name, Thaw(c.value))]
            && CanonEntries(all) == [Entry(a.name, Canon(a.value)), Entry(b.name, Canon(b.value)), Entry(c.name, Canon(c.value))]
  {
    ConsEntry(near, c, []);
    ConsEntry(near, b, [c]);
    ConsEntry(near, a, [b, c]);
    assert [c] + [] == [c] && [b] + [c] == [b, c] && [a] + [b, c] == [a, b, c];
  }

  lemma {:induction false} Object3(near: Rounding, a: Entry, b: Entry, c: Entry)
    requires Shape([a.name, b.name, c.name])
    ensures var v := Obj([a, b, c]);
            && (Sound(near, a.value) && Sound(near, b.value) && Sound(near, c.value) ==> Sound(near, v))
            && (Decodable(v) <==> Decodable(a.value) && Decodable(b.value) && Decodable(c.value))
            && Depth(v) == 1 + Max(Depth(a.value), Max(Depth(b.value), Depth(c.value)))
            && Thaw(v) == RDict([Pair(a.name, Thaw(a.value)), Pair(b.name, Thaw(b.value)), Pair(c.name, Thaw(c.value))])
            && Canon(v) == Obj([Entry(a.name, Canon(a.value)), Entry(b.name, Canon(b.value)), Entry(c.name, Canon(c.value))])
  {
    var names := [a.name, b.name, c.name];
    assert Leads(names[0], names[1]) && Leads(names[1], names[2]);
    Entries3(near, a, b, c);
    ShapeSorted([a, b, c], names);
  }

  lemma {:induction false} Sorted4(a: Entry, b: Entry, c: Entry, d: Entry)
    requires Shape([a.name, b.name, c.name, d.name])
    ensures StrictlySorted(EntryKey, [a, b, c, d])
  {
    ShapeSorted([a, b, c, d], [a.name, b.name, c.name, d.name]);
  }

  lemma {:induction false} Object4(near: Rounding, a: Entry, b: Entry, c: Entry, d: Entry)
    requires Shape([a.name, b.name, c.name, d.name])
    ensures var v := Obj([a, b, c, d]);
            && (Sound(near, a.value) && Sound(near, b.value) && Sound(near, c.value) && Sound(near, d.value) ==> Sound(near, v))
            && (Decodable(v) <==> Decodable(a.value) && Decodable(b.value) && Decodable(c.value) && Decodable(d.value))
            && Depth(v) == 1 + Max(Depth(a.value), Max(Depth(b.value), Max(Depth(c.value), Depth(d.value))))
            && Thaw(v) == RDict([Pair(a.name, Thaw(a.value)), Pair(b.name, Thaw(b.value)), Pair(c.name, Thaw(c.value)),
                                 Pair(d.name, Thaw(d.value))])
            && Canon(v) == Obj([Entry(a.name, Canon(a.value)), Entry(b.name, Canon(b.value)),
                                Entry(c.name, Canon(c.value)), Entry(d.name, Canon(d.value))])
  {
    var names := [a.name, b.name, c.name, d.name];
    assert Leads(names[0], names[1]) && Leads(names[1], names[2]) && Leads(names[2], names[3]);
    Entries3(near, b, c, d);
    var rest := [b, c, d];
    ConsEntry(near, a, rest);
    assert [a] + rest == [a, b, c, d];
    Sorted4(a, b, c, d);
  }

  // ----- frames -----

  datatype Frame = Frame(kind: Kind, ordinal: int, payload: Json, sha256: Text)

  function CoreValue(kind: Kind, ordinal: int, payload: Json): Raw {
    RDict([Pair(KIND_KEY, RText(KindName(kind))), Pair(ORDINAL_KEY, RInt(ordinal)), Pair(PAYLOAD_KEY, Thaw(payload))])
  }

  function FrameValue(kind: Kind, ordinal: int, payload: Json, digest: Text): Raw {
    RDict([Pair(KIND_KEY, RText(KindName(kind))), Pair(ORDINAL_KEY, RInt(ordinal)), Pair(PAYLOAD_KEY, Thaw(payload)),
           Pair(SHA256_KEY, RText(digest))])
  }

  function CoreDigest(p: Platform, kind: Kind, ordinal: int, payload: Json): Option<Text> {
    match CanonicalBytes(CoreValue(kind, ordinal, payload))
    case None => None
    case Some(bytes) => Some(p.sha256(bytes))
  }

  /** `encode_non_trailer_frame`. */
  function EncodeFrame(p: Platform, kind: Kind, ordinal: int, payload: Raw): Option<Bytes> {
    match Freeze(payload, 0)
    case None => None
    case Some(detached) =>
      if !(0 <= ordinal < MAX_BUNDLE_FRAMES) || !detached.Obj? then None
      else
        match CoreDigest(p, kind, ordinal, detached)
        case None => None
        case Some(digest) =>
          match CanonicalBytes(FrameValue(kind, ordinal, detached, digest))
          case None => None
          case Some(bytes) =>
            if |bytes| + 1 > MAX_FRAME_BYTES then None else Some(bytes + [NEWLINE])
  }

  /** `decode_non_trailer_frame`. */
  function DecodeFrame(p: Platform, value: Json): Option<Frame> {
    if !value.Obj? || Names(value.entries) != {KIND_KEY, ORDINAL_KEY, PAYLOAD_KEY, SHA256_KEY} then None
    else
      match (Lookup(value.entries, KIND_KEY), Lookup(value.entries, ORDINAL_KEY),
             Lookup(value.entries, PAYLOAD_KEY), Lookup(value.entries, SHA256_KEY))
      case (Some(Str(name)), Some(Int(ordinal)), Some(payload), Some(Str(digest))) =>
        (match KindNamed(name)
         case None => None
         case Some(kind) =>
           if !(0 <= ordinal < MAX_BUNDLE_FRAMES) || !payload.Obj? || !IsDigest(digest) then None
           else if CoreDigest(p, kind, ordinal, payload) != Some(digest) then None
           else if kind == Header && !p.validHeader(payload) then None
           else Some(Frame(kind, ordinal, payload, digest)))
      case _ => None
  }

  function FrameJson(kind: Kind, ordinal: int, payload: Json, digest: Text): Json {
    Obj([Entry(KIND_KEY, Str(KindName(kind))), Entry(ORDINAL_KEY, Int(ordinal)), Entry(PAYLOAD_KEY, payload),
         Entry(SHA256_KEY, Str(digest))])
  }

  function CoreJson(kind: Kind, ordinal: int, payload: Json): Json {
    Obj([Entry(KIND_KEY, Str(KindName(kind))), Entry(ORDINAL_KEY, Int(ordinal)), Entry(PAYLOAD_KEY, payload)])
  }

  lemma {:induction false} CoreFacts(p: Platform, kind: Kind, ordinal: int, payload: Json)
    requires Sound(p.near, payload) && payload.Obj? && 0 <= ordinal < MAX_BUNDLE_FRAMES
    ensures var v := CoreJson(kind, ordinal, payload);
            && CanonicalBytes(CoreValue(kind, ordinal, payload))
               == (if 1 + Depth(payload) <= MAX_JSON_DEPTH then Some(Utf8(Render(v))) else None)
            && Render(CoreJson(kind, ordinal, Canon(payload))) == Render(v)
  {
    var v := CoreJson(kind, ordinal, payload);
    FrameNames();
    KindNames(kind);
    Object3(p.near, Entry(KIND_KEY, Str(KindName(kind))), Entry(ORDINAL_KEY, Int(ordinal)), Entry(PAYLOAD_KEY, payload));
    FreezeThaw(p.near, v, 0);
    CanonText(p.near, v);
  }

  lemma {:induction false} FrameFacts(p: Platform, kind: Kind, ordinal: int, payload: Json, digest: Text)
    requires Sound(p.near, payload) && payload.Obj? && 0 <= ordinal < MAX_BUNDLE_FRAMES && IsDigest(digest)
    ensures var v := FrameJson(kind, ordinal, payload, digest);
            && Sound(p.near, v) && Depth(v) == 1 + Depth(payload)
            && Thaw(v) == FrameValue(kind, ordinal, payload, digest)
            && CanonicalBytes(FrameValue(kind, ordinal, payload, digest))
               == (if 1 + Depth(payload) <= MAX_JSON_DEPTH then Some(Utf8(Render(v))) else None)
            && Canon(v) == FrameJson(kind, ordinal, Canon(payload), digest)
            && (Decodable(v) <==> Decodable(payload))
  {
    var v := FrameJson(kind, ordinal, payload, digest);
    FrameNames();
    KindNames(kind);
    Object4(p.near, Entry(KIND_KEY, Str(KindName(kind))), Entry(ORDINAL_KEY, Int(ordinal)),
            Entry(PAYLOAD_KEY, payload), Entry(SHA256_KEY, Str(digest)));
    FreezeThaw(p.near, v, 0);
  }

  /** What a frame line is made of: one canonical object with a digest of its core. */
  lemma {:induction false} EncodedFrame(p: Platform, kind: Kind, ordinal: int, payload: Raw)
    requires Regular(p) && Genuine(p.near, payload) && EncodeFrame(p, kind, ordinal, payload).Some?
    ensures Freeze(payload, 0).Some?
    ensures var d := Freeze(payload, 0).value;
            var digest := p.sha256(Utf8(Render(CoreJson(kind, ordinal, d))));
            && Frozen(p.near, FrameJson(kind, ordinal, d, digest), 0)
            && d.Obj? && Sound(p.near, d) && 0 <= ordinal < MAX_BUNDLE_FRAMES && IsDigest(digest)
            && EncodeFrame(p, kind, ordinal, payload).value
               == Utf8(Render(FrameJson(kind, ordinal, d, digest))) + [NEWLINE]
  {
    FreezeSound(p.near, payload, 0);
    var d := Freeze(payload, 0).value;
    CoreFacts(p, kind, ordinal, d);
    FrameFacts(p, kind, ordinal, d, p.sha256(Utf8(Render(CoreJson(kind, ordinal, d)))));
  }

  /** Decoding a frame line: the payload comes back with whole floats as integers, the
      kind, the ordinal and the digest come back unchanged. */
  lemma {:induction false} FrameRoundTrip(p: Platform, kind: Kind, ordinal: int, payload: Raw)
    requires Regular(p) && Genuine(p.near, payload) && EncodeFrame(p, kind, ordinal, payload).Some?
    ensures Freeze(payload, 0).Some?
    ensures var line := EncodeFrame(p, kind, ordinal, payload).value;
            var d := Freeze(payload, 0).value;
            var digest := p.sha256(Utf8(Render(CoreJson(kind, ordinal, d))));
            && DecodeCanonical(p.near, line[..|line| - 1])
               == (if Decodable(d) then Some(FrameJson(kind, ordinal, Canon(d), digest)) else None)
            && (Decodable(d) ==>
                DecodeFrame(p, FrameJson(kind, ordinal, Canon(d), digest))
                == if kind == Header && !p.validHeader(Canon(d)) then None
                   else Some(Frame(kind, ordinal, Canon(d), digest)))
  {
    EncodedFrame(p, kind, ordinal, payload);
    var line := EncodeFrame(p, kind, ordinal, payload).value;
    var d := Freeze(payload, 0).value;
    var digest := p.sha256(Utf8(Render(CoreJson(kind, ordinal, d))));
    var v := FrameJson(kind, ordinal, d, digest);
    FrameFacts(p, kind, ordinal, d, digest);
    assert line[..|line| - 1] == Utf8(Render(v));
    DecodeEncode(p.near, v);
    if Decodable(d) {
      CanonText(p.near, d);
      CoreFacts(p, kind, ordinal, d);
      CoreFacts(p, kind, ordinal, Canon(d));
      DecodeFrameJson(p, kind, ordinal, Canon(d), digest);
    }
  }

  lemma {:induction false} DecodeFrameJson(p: Platform, kind: Kind, ordinal: int, payload: Json, digest: Text)
    requires 0 <= ordinal < MAX_BUNDLE_FRAMES && payload.Obj? && IsDigest(digest)
    requires CoreDigest(p, kind, ordinal, payload) == Some(digest)
    ensures DecodeFrame(p, FrameJson(kind, ordinal, payload, digest))
         == if kind == Header && !p.validHeader(payload) then None
            else Some(Frame(kind, ordinal, payload, digest))
  {
    FrameNames();
    KindNames(kind);
    Fields4(Entry(KIND_KEY, Str(KindName(kind))), Entry(ORDINAL_KEY, Int(ordinal)),
            Entry(PAYLOAD_KEY, payload), Entry(SHA256_KEY, Str(digest)));
  }

  lemma {:induction false} Fields3(a: Entry, b: Entry, c: Entry)
    requires Shape([a.name, b.name, c.name])
    ensures var entries := [a, b, c];
            && Names(entries) == {a.name, b.name, c.name}
            && Lookup(entries, a.name) == Some(a.value) && Lookup(entries, b.name) == Some(b.value)
            && Lookup(entries, c.name) == Some(c.value)
  {
    var entries := [a, b, c];
    ShapeSorted(entries, [a.name, b.name, c.name]);
    LookupMember(entries, 0);
    LookupMember(entries, 1);
    LookupMember(entries, 2);
    assert entries[0] in entries && entries[1] in entries && entries[2] in entries;
  }

  lemma {:induction false} Fields4(a: Entry, b: Entry, c: Entry, d: Entry)
    requires Shape([a.name, b.name, c.name, d.name])
    ensures var entries := [a, b, c, d];
            && Names(entries) == {a.name, b.name, c.name, d.name}
            && Lookup(entries, a.name) == Some(a.value) && Lookup(entries, b.name) == Some(b.value)
            && Lookup(entries, c.name) == Some(c.value) && Lookup(entries, d.name) == Some(d.value)
  {
    var entries := [a, b, c, d];
    ShapeSorted(entries, [a.name, b.name, c.name, d.name]);
    LookupMember(entries, 0);
    LookupMember(entries, 1);
    LookupMember(entries, 2);
    LookupMember(entries, 3);
    assert entries[0] in entries && entries[1] in entries && entries[2] in entries && entries[3] in entries;
  }

  /** A closed canonical object of four names, read field by field. */
  lemma {:induction false} Closed4(entries: seq<Entry>, a: Text, b: Text, c: Text, d: Text)
    requires Shape([a, b, c, d])
    requires StrictlySorted(EntryKey, entries) && Names(entries) == {a, b, c, d}
    ensures |entries| == 4
    ensures entries[0].name == a && Lookup(entries, a) == Some(entries[0].value)
    ensures entries[1].name == b && Lookup(entries, b) == Some(entries[1].value)
    ensures entries[2].name == c && Lookup(entries, c) == Some(entries[2].value)
    ensures entries[3].name == d && Lookup(entries, d) == Some(entries[3].value)
  {
    var names := [a, b, c, d];
    ClosedObject(entries, names);
    assert names[0] == a && names[1] == b && names[2] == c && names[3] == d;
    LookupMember(entries, 0);
    LookupMember(entries, 1);
    LookupMember(entries, 2);
    LookupMember(entries, 3);
  }

  lemma {:induction false} Closed3(entries: seq<Entry>, a: Text, b: Text, c: Text)
    requires Shape([a, b, c])
    requires StrictlySorted(EntryKey, entries) && Names(entries) == {a, b, c}
    ensures |entries| == 3
    ensures entries[0].name == a && Lookup(entries, a) == Some(entries[0].value)
    ensures entries[1].name == b && Lookup(entries, b) == Some(entries[1].value)
    ensures entries[2].name == c && Lookup(entries, c) == Some(entries[2].value)
  {
    var names := [a, b, c];
    ClosedObject(entries, names);
    assert names[0] == a && names[1] == b && names[2] == c;
    LookupMember(entries, 0);
    LookupMember(entries, 1);
    LookupMember(entries, 2);
  }

  /** A decoded frame object is exactly the object the encoder writes for that frame. */
  lemma {:induction false} DecodedFrame(p: Platform, v: Json)
    requires Sound(p.near, v) && DecodeFrame(p, v).Some?
    ensures var f := DecodeFrame(p, v).value;
            v == FrameJson(f.kind, f.ordinal, f.payload, f.sha256)
  {
    FrameNames();
    Closed4(v.entries, KIND_KEY, ORDINAL_KEY, PAYLOAD_KEY, SHA256_KEY);
    NamedKind(Lookup(v.entries, KIND_KEY).value.s);
  }
}
