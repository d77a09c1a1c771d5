/** The bounded writer and the independent streaming reader of bundles, and what holds
    between them: the reader accepts exactly what the writer writes. */
module BundleStream {
  import opened Ordering
  import opened Text
  import opened CanonicalJson
  import opened JsonParsing
  import opened JsonRoundTrip
  import opened Bundle
  import opened Digests

  datatype Summary = Summary(header: Json, sections: seq<Section>, root: Text,
                             byteCount: int, totalByteCount: int, frameCount: int)

  /** The checks of the summary's constructor. */
  predicate ValidSummary(s: Summary) {
    && |s.sections| == 7
    && (forall i :: 0 <= i < 7 ==> s.sections[i].kind == SECTION_KINDS[i])
    && IsDigest(s.root)
    && 0 <= s.byteCount < s.totalByteCount <= ABSOLUTE_MAX_BUNDLE_BYTES
    && 3 <= s.frameCount <= MAX_BUNDLE_FRAMES
    && SectionSum(s.sections) + 1 == s.frameCount
  }

  function Summarise(header: Json, t: Trailer, total: int): Option<Summary> {
    var s := Summary(header, t.sections, t.root, t.byteCount, total, t.ordinal + 1);
    if ValidSummary(s) then Some(s) else None
  }

  predicate ValidLimit(limit: int) {
    1 <= limit <= ABSOLUTE_MAX_BUNDLE_BYTES
  }

  // ----- the writer -----

  datatype Writer = Writer(limit: int, digests: State, header: Option<Json>, finished: bool)

  function DecodeLine(p: Platform, line: Bytes): Option<Frame> {
    if line == [] then None
    else
      match DecodeCanonical(p.near, line[..|line| - 1])
      case None => None
      case Some(v) => DecodeFrame(p, v)
  }

  /** `PortableBundleEncoder.add`: the line it yields, and the state after it. */
  function WriterAdd(p: Platform, w: Writer, kind: Kind, payload: Raw): (r: Option<(Writer, Bytes)>)
    requires w.digests.Shaped()
    ensures r.Some? ==> r.value.0.digests.Shaped() && r.value.0.limit == w.limit && !r.value.0.finished
  {
    if w.finished then None
    else
      match EncodeFrame(p, kind, w.digests.nextOrdinal, payload)
      case None => None
      case Some(line) =>
        match DecodeLine(p, line)
        case None => None
        case Some(f) =>
          if w.digests.byteCount + |line| > w.limit then None
          else
            match AddFrame(p, w.digests, f, line)
            case None => None
            case Some(st) =>
              Some((Writer(w.limit, st, if f.kind == Header then Some(f.payload) else w.header, false), line))
  }

  /** `PortableBundleEncoder.finish`. */
  function WriterFinish(p: Platform, w: Writer): Option<(Bytes, Summary)>
    requires w.digests.Shaped()
  {
    if w.finished || w.header.None? then None
    else
      match TrailerOf(p, w.digests)
      case None => None
      case Some(t) =>
        match EncodeTrailer(t)
        case None => None
        case Some(line) =>
          var total := t.byteCount + |line|;
          if total > w.limit then None
          else
            match Summarise(w.header.value, t, total)
            case None => None
            case Some(summary) => Some((line, summary))
  }

  datatype Item = Item(kind: Kind, payload: Raw)

  /** A whole run of the writer: one line for each item, then the trailer line. */
  function WriteFrom(p: Platform, w: Writer, items: seq<Item>): Option<(seq<Bytes>, Summary)>
    requires w.digests.Shaped()
    decreases |items|
  {
    if items == [] then
      match WriterFinish(p, w)
      case None => None
      case Some((line, summary)) => Some(([line], summary))
    else
      match WriterAdd(p, w, items[0].kind, items[0].payload)
      case None => None
      case Some((next, line)) =>
        match WriteFrom(p, next, items[1..])
        case None => None
        case Some((lines, summary)) => Some(([line] + lines, summary))
  }

  function WriteBundle(p: Platform, limit: int, items: seq<Item>): Option<(seq<Bytes>, Summary)> {
    WriteFrom(p, Writer(limit, EMPTY, None, false), items)
  }

  // ----- the reader -----

  /** The length of what `readline(max)` returns. */
  function LineLength(s: Bytes, max: nat): (n: nat)
    ensures n <= |s| && n <= max
    decreases |s|
  {
    if s == [] || max == 0 then 0
    else if s[0] == NEWLINE then 1
    else 1 + LineLength(s[1..], max - 1)
  }

  /** `_read_frame` on the unread bytes of the source. */
  function ReadFrame(source: Bytes): (r: Option<Bytes>)
    ensures r.Some? ==> r.value != [] && r.value <= source && r.value[|r.value| - 1] == NEWLINE
  {
    var line := source[..LineLength(source, MAX_FRAME_BYTES + 1)];
    if line == [] || |line| > MAX_FRAME_BYTES || line[|line| - 1] != NEWLINE || line == [NEWLINE]
       || (|line| >= 2 && line[|line| - 2] == RETURN)
    then None else Some(line)
  }

  /** The next line and the canonical object on it, within the limits. */
  function ReadObject(p: Platform, limit: int, st: State, total: int, source: Bytes): (r: Option<(Bytes, Json)>)
    ensures r.Some? ==> r.value.0 != [] && r.value.0 <= source && r.value.1.Obj?
  {
    match ReadFrame(source)
    case None => None
    case Some(line) =>
      if total + |line| > limit || st.nextOrdinal + 1 > MAX_BUNDLE_FRAMES then None
      else
        match DecodeCanonical(p.near, line[..|line| - 1])
        case None => None
        case Some(v) => Some((line, v))
  }

  predicate IsTrailerObject(v: Json) {
    v.Obj? && Lookup(v.entries, KIND_KEY) == Some(Str(TRAILER))
  }

  /** The reader's last round, on a trailer object. */
  function CloseBundle(p: Platform, st: State, header: Option<Json>, total: int, v: Json, rest: Bytes): Option<Summary>
    requires st.Shaped()
  {
    match DecodeTrailer(p, v)
    case None => None
    case Some(t) =>
      if TrailerOf(p, st) != Some(t) || header.None? || rest != [] then None
      else Summarise(header.value, t, total)
  }

  /** Any other round of the reader, on a frame object. */
  function TakeFrame(p: Platform, st: State, header: Option<Json>, v: Json, line: Bytes): (r: Option<(State, Option<Json>)>)
    requires st.Shaped()
    ensures r.Some? ==> r.value.0.Shaped()
  {
    match DecodeFrame(p, v)
    case None => None
    case Some(f) =>
      match AddFrame(p, st, f, line)
      case None => None
      case Some(next) => Some((next, if f.kind == Header then Some(f.payload) else header))
  }

  /** `validate_and_spool_bundle` from any point of its loop. */
  function Validate(p: Platform, limit: int, st: State, header: Option<Json>, total: int,
                    source: Bytes, spooled: seq<Bytes>): Option<(Summary, seq<Bytes>)>
    requires st.Shaped()
    decreases |source|
  {
    match ReadObject(p, limit, st, total, source)
    case None => None
    case Some((line, v)) =>
      var rest := source[|line|..];
      if IsTrailerObject(v) then
        match CloseBundle(p, st, header, total + |line|, v, rest)
        case None => None
        case Some(summary) => Some((summary, spooled + [line]))
      else
        match TakeFrame(p, st, header, v, line)
        case None => None
        case Some((next, nextHeader)) =>
          Validate(p, limit, next, nextHeader, total + |line|, rest, spooled + [line])
  }

  function ValidateBundle(p: Platform, limit: int, source: Bytes): Option<(Summary, seq<Bytes>)> {
    Validate(p, limit, EMPTY, None, 0, source, [])
  }

  // ----- what was written is read back -----

  lemma {:induction false} LineLengthOf(body: Bytes, rest: Bytes, max: nat)
    requires NEWLINE !in body && |body| < max
    ensures LineLength(body + [NEWLINE] + rest, max) == |body| + 1
  {
    var s := body + [NEWLINE] + rest;
    if body != [] {
      assert s[1..] == body[1..] + [NEWLINE] + rest;
      LineLengthOf(body[1..], rest, max - 1);
    }
  }

  /** The reader cuts a canonical line exactly at its end. */
  lemma {:induction false} ReadsLine(near: Rounding, v: Json, rest: Bytes)
    requires Sound(near, v) && v.Obj? && |Utf8(Render(v))| + 1 <= MAX_FRAME_BYTES
    ensures var line := Utf8(Render(v)) + [NEWLINE];
            ReadFrame(line + rest) == Some(line) && (line + rest)[|line|..] == rest
  {
    var body := Utf8(Render(v));
    var line := body + [NEWLINE];
    NoLineBreaks(near, v);
    LineLengthOf(body, rest, MAX_FRAME_BYTES + 1);
    assert (line + rest)[..|line|] == line;
    EmitIs(v, []);
    assert Render(v) + [] == Render(v) && Render(v)[0] == OPEN_DICT;
    Utf8Ascii(Render(v), OPEN_DICT);
    assert OPEN_DICT in body;
    if |line| >= 2 {
      assert line[|line| - 2] == body[|body| - 1];
      assert body[|body| - 1] in body;
    }
  }

  /** An accepted add encodes a sound frame object and takes what it decodes to. */
  lemma {:induction false} AddedLine(p: Platform, w: Writer, item: Item) returns (written: Json, read: Json)
    requires Regular(p) && Consistent(w.digests) && Genuine(p.near, item.payload)
    requires WriterAdd(p, w, item.kind, item.payload).Some?
    ensures var (next, line) := WriterAdd(p, w, item.kind, item.payload).value;
            && Sound(p.near, written) && written.Obj? && line == Utf8(Render(written)) + [NEWLINE]
            && |line| <= MAX_FRAME_BYTES && w.digests.byteCount + |line| <= w.limit
            && DecodeCanonical(p.near, line[..|line| - 1]) == Some(read) && read.Obj? && !IsTrailerObject(read)
            && TakeFrame(p, w.digests, w.header, read, line) == Some((next.digests, next.header))
            && Consistent(next.digests) && next.digests.byteCount == w.digests.byteCount + |line|
  {
    var (next, line) := WriterAdd(p, w, item.kind, item.payload).value;
    var ordinal := w.digests.nextOrdinal;
    EncodedFrame(p, item.kind, ordinal, item.payload);
    FrameRoundTrip(p, item.kind, ordinal, item.payload);
    var d := Freeze(item.payload, 0).value;
    var digest := p.sha256(Utf8(Render(CoreJson(item.kind, ordinal, d))));
    written := FrameJson(item.kind, ordinal, d, digest);
    read := FrameJson(item.kind, ordinal, Canon(d), digest);
    AddKeepsConsistent(p, w.digests, DecodeLine(p, line).value, line);
    FrameIsNoTrailer(item.kind, ordinal, Canon(d), digest);
  }

  lemma {:induction false} FrameIsNoTrailer(kind: Kind, ordinal: int, payload: Json, digest: Text)
    ensures !IsTrailerObject(FrameJson(kind, ordinal, payload, digest))
  {
    KindNames(kind);
  }

  /** One accepted add is one accepted round of the reader, on the same line. */
  lemma {:induction false} AddIsRead(p: Platform, w: Writer, item: Item, rest: Bytes, spooled: seq<Bytes>)
    requires Regular(p) && Consistent(w.digests) && Genuine(p.near, item.payload)
    requires WriterAdd(p, w, item.kind, item.payload).Some?
    ensures var (next, line) := WriterAdd(p, w, item.kind, item.payload).value;
            && Consistent(next.digests) && next.digests.byteCount == w.digests.byteCount + |line|
            && Validate(p, w.limit, w.digests, w.header, w.digests.byteCount, line + rest, spooled)
               == Validate(p, w.limit, next.digests, next.header, next.digests.byteCount, rest, spooled + [line])
  {
    hide *;
    DigestsOf(w.digests);
    var (next, line) := WriterAdd(p, w, item.kind, item.payload).value;
    var written, read := AddedLine(p, w, item);
    ReadsLine(p.near, written, rest);
    RoundOf(p, w, line, rest, read, next, spooled);
  }

  lemma {:induction false} DigestsOf(st: State)
    requires Consistent(st)
    ensures st.Shaped() && st.nextOrdinal < MAX_BUNDLE_FRAMES
  {
  }

  lemma {:induction false} TrailerOfCounts(p: Platform, st: State)
    requires st.Shaped() && TrailerOf(p, st).Some?
    ensures TrailerOf(p, st).value.byteCount == st.byteCount && ValidTrailer(p, TrailerOf(p, st).value)
  {
  }

  /** A round of the reader on a line that holds a frame. */
  lemma {:induction false} RoundOf(p: Platform, w: Writer, line: Bytes, rest: Bytes, read: Json, next: Writer,
                                   spooled: seq<Bytes>)
    requires w.digests.Shaped() && w.digests.nextOrdinal < MAX_BUNDLE_FRAMES
    requires ReadFrame(line + rest) == Some(line) && (line + rest)[|line|..] == rest
    requires DecodeCanonical(p.near, line[..|line| - 1]) == Some(read) && read.Obj? && !IsTrailerObject(read)
    requires w.digests.byteCount + |line| <= w.limit
    requires TakeFrame(p, w.digests, w.header, read, line) == Some((next.digests, next.header))
    ensures next.digests.Shaped()
    ensures Validate(p, w.limit, w.digests, w.header, w.digests.byteCount, line + rest, spooled)
         == Validate(p, w.limit, next.digests, next.header, w.digests.byteCount + |line|, rest, spooled + [line])
  {
    hide TakeFrame, CloseBundle, DecodeCanonical, IsTrailerObject, ReadFrame;
  }

  /** What the finishing line is made of. */
  lemma {:induction false} FinishedLine(p: Platform, w: Writer)
    requires w.digests.Shaped() && WriterFinish(p, w).Some?
    ensures TrailerOf(p, w.digests).Some?
    ensures var (line, summary) := WriterFinish(p, w).value;
            var t := TrailerOf(p, w.digests).value;
            && EncodeTrailer(t) == Some(line) && t.byteCount == w.digests.byteCount
            && w.header.Some? && t.byteCount + |line| <= w.limit
            && Summarise(w.header.value, t, t.byteCount + |line|) == Some(summary)
  {
    hide EncodeTrailer, Summarise, ValidTrailer, SectionsOf;
  }

  /** The reader's last round on the line of a valid trailer. */
  lemma {:induction false} TrailerIsRead(p: Platform, limit: int, st: State, t: Trailer, line: Bytes)
    requires Regular(p) && ValidTrailer(p, t) && EncodeTrailer(t) == Some(line)
    requires st.byteCount + |line| <= limit && st.nextOrdinal < MAX_BUNDLE_FRAMES
    ensures ReadObject(p, limit, st, st.byteCount, line) == Some((line, TrailerJson(t)))
    ensures line[|line|..] == []
  {
    var v := TrailerJson(t);
    TrailerFacts(p, t);
    EncodedTrailer(p, t);
    ReadsLine(p.near, v, []);
    assert line + [] == line;
    assert line[..|line| - 1] == Utf8(Render(v));
    DecodeIffCanonical(p.near, Utf8(Render(v)), v);
  }

  /** The finishing line is the reader's last round, with the same summary. */
  lemma {:induction false} FinishIsRead(p: Platform, w: Writer, spooled: seq<Bytes>)
    requires Regular(p) && Consistent(w.digests) && WriterFinish(p, w).Some?
    ensures var (line, summary) := WriterFinish(p, w).value;
            Validate(p, w.limit, w.digests, w.header, w.digests.byteCount, line, spooled)
            == Some((summary, spooled + [line]))
  {
    hide *;
    DigestsOf(w.digests);
    var (line, summary) := WriterFinish(p, w).value;
    FinishedLine(p, w);
    TrailerOfCounts(p, w.digests);
    var t := TrailerOf(p, w.digests).value;
    DecodeTrailerJson(p, t);
    TrailerIsRead(p, w.limit, w.digests, t, line);
    TrailerObject(t);
    ClosesWith(p, w.digests, w.header, w.digests.byteCount + |line|, TrailerJson(t), t, summary);
    LastRoundOf(p, w, line, TrailerJson(t), summary, spooled);
  }

  lemma {:induction false} TrailerObject(t: Trailer)
    ensures TrailerJson(t).Obj?
  {
  }

  lemma {:induction false} LastRoundOf(p: Platform, w: Writer, line: Bytes, v: Json, summary: Summary,
                                       spooled: seq<Bytes>)
    requires w.digests.Shaped() && line[|line|..] == []
    requires ReadObject(p, w.limit, w.digests, w.digests.byteCount, line) == Some((line, v)) && IsTrailerObject(v)
    requires CloseBundle(p, w.digests, w.header, w.digests.byteCount + |line|, v, []) == Some(summary)
    ensures Validate(p, w.limit, w.digests, w.header, w.digests.byteCount, line, spooled)
         == Some((summary, spooled + [line]))
  {
    hide ReadObject, IsTrailerObject, CloseBundle, TakeFrame;
  }

  lemma {:induction false} ClosesWith(p: Platform, st: State, header: Option<Json>, total: int, v: Json,
                                      t: Trailer, summary: Summary)
    requires st.Shaped() && TrailerOf(p, st) == Some(t) && header.Some? && Summarise(header.value, t, total) == Some(summary)
    requires DecodeTrailer(p, v) == Some(t) && v.Obj? && Lookup(v.entries, KIND_KEY) == Some(Str(TRAILER))
    ensures CloseBundle(p, st, header, total, v, []) == Some(summary) && IsTrailerObject(v)
  {
    hide DecodeTrailer, TrailerOf, Summarise, Lookup;
  }

  ghost predicate AllGenuine(p: Platform, items: seq<Item>) {
    forall i :: 0 <= i < |items| ==> Genuine(p.near, items[i].payload)
  }

  lemma {:induction false} WrittenIsRead(p: Platform, w: Writer, items: seq<Item>, spooled: seq<Bytes>)
    requires Regular(p) && Consistent(w.digests) && AllGenuine(p, items) && WriteFrom(p, w, items).Some?
    ensures var (lines, summary) := WriteFrom(p, w, items).value;
            Validate(p, w.limit, w.digests, w.header, w.digests.byteCount, Flatten(lines), spooled)
            == Some((summary, spooled + lines))
    decreases |items|
  {
    var (lines, summary) := WriteFrom(p, w, items).value;
    if items == [] {
      FinishIsRead(p, w, spooled);
      assert Flatten(lines) == lines[0] by { assert lines[1..] == []; assert lines[0] + [] == lines[0]; }
    } else {
      var (next, line) := WriterAdd(p, w, items[0].kind, items[0].payload).value;
      var more := WriteFrom(p, next, items[1..]).value.0;
      AddIsRead(p, w, items[0], Flatten(more), spooled);
      WrittenIsRead(p, next, items[1..], spooled + [line]);
      assert lines[1..] == more;
      Assoc(spooled, [line], more);
    }
  }

  // ----- what is read was written -----

  /** The items that a sequence of lines was written from: every line but the trailer. */
  function ItemsOf(p: Platform, lines: seq<Bytes>): seq<Item> {
    if |lines| <= 1 then []
    else
      match DecodeLine(p, lines[0])
      case None => []
      case Some(f) => [Item(f.kind, Thaw(f.payload))] + ItemsOf(p, lines[1..])
  }

  lemma {:induction false} CanonicalSound(p: Platform, bytes: Bytes)
    requires Regular(p) && DecodeCanonical(p.near, bytes).Some?
    ensures var v := DecodeCanonical(p.near, bytes).value;
            Decoded(p.near, v) && bytes == Utf8(Render(v)) && Genuine(p.near, Thaw(v))
  {
    var v := DecodeCanonical(p.near, bytes).value;
    DecodeIffCanonical(p.near, bytes, v);
    ThawGenuine(p.near, v);
  }

  lemma {:induction false} ThawGenuine(near: Rounding, v: Json)
    requires Sound(near, v)
    ensures Genuine(near, Thaw(v))
    decreases v
  {
    match v
    case Arr(items) => ThawItemsGenuine(near, items);
    case Obj(entries) => ThawEntriesGenuine(near, entries);
    case _ =>
  }

  lemma {:induction false} ThawItemsGenuine(near: Rounding, items: seq<Json>)
    requires SoundItems(near, items)
    ensures forall i :: 0 <= i < |items| ==> Genuine(near, ThawItems(items)[i])
    decreases items
  {
    if items != [] {
      ThawGenuine(near, items[0]);
      ThawItemsGenuine(near, items[1..]);
    }
  }

  lemma {:induction false} ThawEntriesGenuine(near: Rounding, entries: seq<Entry>)
    requires SoundEntries(near, entries)
    ensures forall i :: 0 <= i < |entries| ==> Genuine(near, ThawEntries(entries)[i].value)
    decreases entries
  {
    if entries != [] {
      ThawGenuine(near, entries[0].value);
      ThawEntriesGenuine(near, entries[1..]);
    }
  }

  /** A round of the reader that accepts a frame is the writer's add of its payload. */
  lemma {:induction false} RoundIsAdd(p: Platform, limit: int, st: State, header: Option<Json>, line: Bytes, v: Json)
    requires Regular(p) && Consistent(st)
    requires line != [] && st.byteCount + |line| <= limit && DecodeCanonical(p.near, line[..|line| - 1]) == Some(v)
    requires TakeFrame(p, st, header, v, line).Some?
    ensures DecodeLine(p, line).Some?
    ensures var f := DecodeLine(p, line).value;
            var (next, nextHeader) := TakeFrame(p, st, header, v, line).value;
            && WriterAdd(p, Writer(limit, st, header, false), f.kind, Thaw(f.payload))
               == Some((Writer(limit, next, nextHeader, false), line))
            && Consistent(next) && next.byteCount == st.byteCount + |line|
            && Genuine(p.near, Thaw(f.payload))
  {
    hide EncodeFrame, DecodeFrame, DecodeCanonical, Consistent, Regular, Genuine, Sound;
    DigestsOf(st);
    var f := DecodeLine(p, line).value;
    AddKeepsConsistent(p, st, f, line);
    PayloadGenuine(p, line[..|line| - 1], v);
  }

  lemma {:induction false} PayloadGenuine(p: Platform, bytes: Bytes, v: Json)
    requires Regular(p) && DecodeCanonical(p.near, bytes) == Some(v) && DecodeFrame(p, v).Some?
    ensures Genuine(p.near, Thaw(DecodeFrame(p, v).value.payload))
  {
    hide DecodeCanonical, DecodeFrame, Regular, Genuine, CoreDigest;
    CanonicalSound(p, bytes);
    DecodedFrame(p, v);
    SoundMember(p, v.entries, 2);
    ThawGenuine(p.near, DecodeFrame(p, v).value.payload);
  }

  lemma {:induction false} LastByte(line: Bytes)
    requires line != [] && line[|line| - 1] == NEWLINE
    ensures line == line[..|line| - 1] + [NEWLINE]
  {
  }

  lemma {:induction false} TrailerLine(p: Platform, v: Json, line: Bytes, t: Trailer)
    requires Regular(p) && line != [] && line[|line| - 1] == NEWLINE && |line| <= MAX_FRAME_BYTES
    requires DecodeCanonical(p.near, line[..|line| - 1]) == Some(v) && DecodeTrailer(p, v) == Some(t)
    ensures EncodeTrailer(t) == Some(line)
  {
    LastByte(line);
    CanonicalSound(p, line[..|line| - 1]);
    DecodedTrailer(p, v);
    EncodedTrailer(p, t);
  }

  /** The accepted trailer line is the one the writer would have written. */
  lemma {:induction false} LastIsFinish(p: Platform, limit: int, st: State, header: Option<Json>, line: Bytes,
                                        v: Json, summary: Summary)
    requires Regular(p) && Consistent(st)
    requires line != [] && line[|line| - 1] == NEWLINE && |line| <= MAX_FRAME_BYTES && st.byteCount + |line| <= limit
    requires DecodeCanonical(p.near, line[..|line| - 1]) == Some(v)
    requires CloseBundle(p, st, header, st.byteCount + |line|, v, []) == Some(summary)
    ensures WriterFinish(p, Writer(limit, st, header, false)) == Some((line, summary))
  {
    hide DecodeTrailer, TrailerOf, Summarise, EncodeTrailer, DecodeCanonical, Consistent, Regular;
    var t := DecodeTrailer(p, v).value;
    DigestsOf(st);
    TrailerLine(p, v, line, t);
    TrailerOfCounts(p, st);
  }

  lemma {:induction false} ReadLine(p: Platform, limit: int, st: State, total: int, source: Bytes)
    requires ReadObject(p, limit, st, total, source).Some?
    ensures var (line, v) := ReadObject(p, limit, st, total, source).value;
            && line[|line| - 1] == NEWLINE && |line| <= MAX_FRAME_BYTES && total + |line| <= limit
            && DecodeCanonical(p.near, line[..|line| - 1]) == Some(v) && source == line + source[|line|..]
  {
    hide DecodeCanonical;
  }

  lemma {:induction false} ReadIsWritten(p: Platform, limit: int, st: State, header: Option<Json>,
                                         source: Bytes, spooled: seq<Bytes>)
    returns (lines: seq<Bytes>)
    requires Regular(p) && Consistent(st)
    requires Validate(p, limit, st, header, st.byteCount, source, spooled).Some?
    ensures var (summary, all) := Validate(p, limit, st, header, st.byteCount, source, spooled).value;
            && all == spooled + lines && lines != [] && Flatten(lines) == source
            && AllGenuine(p, ItemsOf(p, lines))
            && WriteFrom(p, Writer(limit, st, header, false), ItemsOf(p, lines)) == Some((lines, summary))
    decreases |source|
  {
    hide ReadObject, IsTrailerObject, CloseBundle, TakeFrame, Consistent, Regular, AllGenuine, ItemsOf, WriteFrom,
         Flatten, WriterAdd, WriterFinish, DecodeLine, DecodeCanonical, Genuine;
    DigestsOf(st);
    var (summary, all) := Validate(p, limit, st, header, st.byteCount, source, spooled).value;
    var (line, v) := ReadObject(p, limit, st, st.byteCount, source).value;
    ReadLine(p, limit, st, st.byteCount, source);
    var rest := source[|line|..];
    if IsTrailerObject(v) {
      lines := [line];
      ClosedAtEnd(p, st, header, st.byteCount + |line|, v, rest);
      LastIsFinish(p, limit, st, header, line, v, summary);
      WriteLast(p, Writer(limit, st, header, false), line, summary);
      assert source == line by { assert line + [] == line; }
    } else {
      var (next, nextHeader) := TakeFrame(p, st, header, v, line).value;
      RoundIsAdd(p, limit, st, header, line, v);
      var more := ReadIsWritten(p, limit, next, nextHeader, rest, spooled + [line]);
      lines := [line] + more;
      Assoc(spooled, [line], more);
      WriteMore(p, Writer(limit, st, header, false), line, more, summary);
    }
  }

  lemma {:induction false} ClosedAtEnd(p: Platform, st: State, header: Option<Json>, total: int, v: Json, rest: Bytes)
    requires st.Shaped() && CloseBundle(p, st, header, total, v, rest).Some?
    ensures rest == []
  {
    hide DecodeTrailer, TrailerOf, Summarise;
  }

  lemma {:induction false} WriteLast(p: Platform, w: Writer, line: Bytes, summary: Summary)
    requires w.digests.Shaped() && WriterFinish(p, w) == Some((line, summary))
    ensures ItemsOf(p, [line]) == [] && AllGenuine(p, []) && Flatten([line]) == line
    ensures WriteFrom(p, w, []) == Some(([line], summary))
  {
    hide WriterFinish, DecodeLine;
    assert [line][1..] == [] && line + [] == line;
  }

  lemma {:induction false} WriteMore(p: Platform, w: Writer, line: Bytes, more: seq<Bytes>, summary: Summary)
    requires w.digests.Shaped() && DecodeLine(p, line).Some? && more != [] && AllGenuine(p, ItemsOf(p, more))
    requires Genuine(p.near, Thaw(DecodeLine(p, line).value.payload))
    requires var f := DecodeLine(p, line).value;
             && WriterAdd(p, w, f.kind, Thaw(f.payload)).Some?
             && WriterAdd(p, w, f.kind, Thaw(f.payload)).value.1 == line
             && WriteFrom(p, WriterAdd(p, w, f.kind, Thaw(f.payload)).value.0, ItemsOf(p, more)) == Some((more, summary))
    ensures var lines := [line] + more;
            && AllGenuine(p, ItemsOf(p, lines)) && Flatten(lines) == line + Flatten(more)
            && WriteFrom(p, w, ItemsOf(p, lines)) == Some((lines, summary))
  {
    hide WriterFinish, WriterAdd, DecodeLine, Genuine;
    var f := DecodeLine(p, line).value;
    ItemsCons(p, line, more);
    assert ([line] + more)[1..] == more;
    var items := ItemsOf(p, [line] + more);
    assert items[1..] == ItemsOf(p, more) && items[0] == Item(f.kind, Thaw(f.payload));
  }

  lemma {:induction false} ItemsCons(p: Platform, line: Bytes, more: seq<Bytes>)
    requires DecodeLine(p, line).Some? && more != [] && AllGenuine(p, ItemsOf(p, more))
    requires Genuine(p.near, Thaw(DecodeLine(p, line).value.payload))
    ensures var f := DecodeLine(p, line).value;
            && ItemsOf(p, [line] + more) == [Item(f.kind, Thaw(f.payload))] + ItemsOf(p, more)
            && AllGenuine(p, ItemsOf(p, [line] + more))
  {
    hide DecodeLine, Genuine;
    assert ([line] + more)[1..] == more;
  }
}
