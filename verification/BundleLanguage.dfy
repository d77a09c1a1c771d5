/** The writer and the reader as the program runs them, and the language of bundles. */
module BundleLanguage {
  import opened Ordering
  import opened Text
  import opened CanonicalJson
  import opened JsonParsing
  import opened Bundle
  import opened Digests
  import opened BundleStream

  // ----- the writer object -----

  class PortableBundleEncoder {
    const limit: int
    const digests: OrderedBundleDigests
    var header: Option<Json>
    var finished: bool

    function Value(): Writer
      reads this, digests
    {
      Writer(limit, digests.Value(), header, finished)
    }

    ghost predicate Valid()
      reads this, digests
    {
      digests.Valid() && ValidLimit(limit)
    }

    constructor (limit: int)
      requires ValidLimit(limit)
      ensures Valid() && Value() == Writer(limit, EMPTY, None, false) && fresh(digests)
    {
      this.limit := limit;
      digests := new OrderedBundleDigests();
      header := None;
      finished := false;
    }

    /** A refused item leaves the encoder as it was. */
    method Add(p: Platform, kind: Kind, payload: Raw) returns (r: Option<Bytes>)
      requires Valid() && Regular(p)
      modifies this, digests
      ensures Valid()
      ensures old(Value()).digests.Shaped()
      ensures var w := WriterAdd(p, old(Value()), kind, payload);
              match r
              case None => w.None? && Value() == old(Value())
              case Some(line) => w == Some((Value(), line))
    {
      hide EncodeFrame, DecodeCanonical, DecodeFrame;
      if finished { return None; }
      var line := EncodeFrame(p, kind, digests.nextOrdinal, payload);
      if line.None? { return None; }
      var decoded := DecodeLine(p, line.value);
      if decoded.None? { return None; }
      if digests.byteCount + |line.value| > limit { return None; }
      var ok := digests.Add(p, decoded.value, line.value);
      if !ok { return None; }
      if decoded.value.kind == Header {
        header := Some(decoded.value.payload);
      }
      return line;
    }

    /** `finish`: the trailer line and the summary, once. */
    method Finish(p: Platform) returns (r: Option<(Bytes, Summary)>)
      requires Valid() && Regular(p)
      modifies this
      ensures Valid()
      ensures old(Value()).digests.Shaped()
      ensures r == WriterFinish(p, old(Value()))
      ensures Value() == old(Value()).(finished := old(finished) || r.Some?)
    {
      hide TrailerOf, EncodeTrailer, Summarise, Consistent, Regular;
      DigestsOf(digests.Value());
      if finished || header.None? { return None; }
      var t := TrailerOf(p, digests.Value());
      if t.None? { return None; }
      var line := EncodeTrailer(t.value);
      if line.None? { return None; }
      var total := t.value.byteCount + |line.value|;
      if total > limit { return None; }
      TrailerOfCounts(p, digests.Value());
      EncodedLength(t.value);
      FinishSummary(p, digests.Value(), header.value, t.value, total);
      finished := true;
      return Some((line.value, Summarise(header.value, t.value, total).value));
    }
  }

  lemma {:induction false} EncodedLength(t: Trailer)
    requires EncodeTrailer(t).Some?
    ensures |EncodeTrailer(t).value| >= 1
  {
  }

  /** The summary's constructor never refuses what passed the checks before it. */
  lemma {:induction false} FinishSummary(p: Platform, st: State, header: Json, t: Trailer, total: int)
    requires Regular(p) && Consistent(st) && TrailerOf(p, st) == Some(t)
    requires t.byteCount < total <= ABSOLUTE_MAX_BUNDLE_BYTES
    ensures Summarise(header, t, total).Some?
  {
    TrailerExists(p, st);
  }

  // ----- the reader's loop -----

  /** `validate_and_spool_bundle` on a source held as the bytes not yet read. */
  method ValidateAndSpool(p: Platform, source: Bytes, limit: int) returns (r: Option<(Summary, seq<Bytes>)>)
    requires Regular(p) && ValidLimit(limit)
    ensures r == ValidateBundle(p, limit, source)
  {
    hide DecodeCanonical, DecodeFrame, DecodeTrailer, Lookup, TrailerOf, AddFrame, Summarise, ReadFrame,
         Consistent, Regular, IsTrailerObject;
    var digests := new OrderedBundleDigests();
    var header: Option<Json> := None;
    var total, unread := 0, source;
    var spool: seq<Bytes> := [];
    DigestsOf(digests.Value());
    while true
      invariant digests.Valid() && digests.Value().Shaped() && fresh(digests)
      invariant ValidateBundle(p, limit, source)
             == Validate(p, limit, digests.Value(), header, total, unread, spool)
      decreases |unread|
    {
      var line := ReadFrame(unread);
      if line.None? { return None; }
      total := total + |line.value|;
      if total > limit { return None; }
      if digests.nextOrdinal + 1 > MAX_BUNDLE_FRAMES { return None; }
      var decoded := DecodeCanonical(p.near, line.value[..|line.value| - 1]);
      if decoded.None? { return None; }
      unread := unread[|line.value|..];
      if IsTrailerObject(decoded.value) {
        var trailer := DecodeTrailer(p, decoded.value);
        if trailer.None? { return None; }
        var verified := digests.Verify(p, trailer.value);
        if !verified || header.None? || unread != [] { return None; }
        var summary := Summarise(header.value, trailer.value, total);
        if summary.None? { return None; }
        return Some((summary.value, spool + [line.value]));
      }
      var frame := DecodeFrame(p, decoded.value);
      if frame.None? { return None; }
      var ok := digests.Add(p, frame.value, line.value);
      if !ok { return None; }
      if frame.value.kind == Header {
        header := Some(frame.value.payload);
      }
      spool := spool + [line.value];
      DigestsOf(digests.Value());
    }
  }

  // ----- the language -----

  /** Whatever a writer run produces, the reader accepts under the same limit, with an
      equal summary and equal spooled lines. */
  lemma {:induction false} WriterOutputAccepted(p: Platform, limit: int, items: seq<Item>)
    requires Regular(p) && AllGenuine(p, items) && WriteBundle(p, limit, items).Some?
    ensures var (lines, summary) := WriteBundle(p, limit, items).value;
            ValidateBundle(p, limit, Flatten(lines)) == Some((summary, lines))
  {
    EmptyConsistent();
    WrittenIsRead(p, Writer(limit, EMPTY, None, false), items, []);
    var lines := WriteBundle(p, limit, items).value.0;
    assert [] + lines == lines;
  }

  /** Whatever the reader accepts is, byte for byte, what the writer emits for the decoded
      payloads, with an equal summary. */
  lemma {:induction false} AcceptedIsWritten(p: Platform, limit: int, source: Bytes)
    requires Regular(p) && ValidateBundle(p, limit, source).Some?
    ensures var (summary, lines) := ValidateBundle(p, limit, source).value;
            && Flatten(lines) == source && lines != [] && AllGenuine(p, ItemsOf(p, lines))
            && WriteBundle(p, limit, ItemsOf(p, lines)) == Some((lines, summary))
  {
    EmptyConsistent();
    var lines := ReadIsWritten(p, limit, EMPTY, None, source, []);
    assert [] + lines == lines;
  }

  ghost predicate Writable(p: Platform, limit: int, source: Bytes) {
    exists items :: AllGenuine(p, items) && WriteBundle(p, limit, items).Some?
                    && Flatten(WriteBundle(p, limit, items).value.0) == source
  }

  /** The reader accepts exactly the writer's outputs. */
  lemma {:induction false} AcceptedIffWritable(p: Platform, limit: int, source: Bytes)
    requires Regular(p)
    ensures ValidateBundle(p, limit, source).Some? <==> Writable(p, limit, source)
  {
    hide WriteBundle, ValidateBundle, Flatten, Regular, AllGenuine;
    if ValidateBundle(p, limit, source).Some? {
      AcceptedIsWritten(p, limit, source);
      var items := ItemsOf(p, ValidateBundle(p, limit, source).value.1);
      assert AllGenuine(p, items) && WriteBundle(p, limit, items).Some?;
    }
    if Writable(p, limit, source) {
      var items :| AllGenuine(p, items) && WriteBundle(p, limit, items).Some?
                   && Flatten(WriteBundle(p, limit, items).value.0) == source;
      WriterOutputAccepted(p, limit, items);
    }
  }

  // ----- prefix freedom -----

  lemma {:induction false} LineLengthExtends(s: Bytes, more: Bytes, max: nat)
    requires var n := LineLength(s, max); n > 0 && s[n - 1] == NEWLINE
    ensures LineLength(s + more, max) == LineLength(s, max)
    decreases |s|
  {
    assert (s + more)[0] == s[0] && (s + more)[1..] == s[1..] + more;
    if s[0] != NEWLINE {
      LineLengthExtends(s[1..], more, max - 1);
    }
  }

  lemma {:induction false} SameLine(source: Bytes, more: Bytes)
    requires ReadFrame(source).Some?
    ensures ReadFrame(source + more) == ReadFrame(source)
    ensures var line := ReadFrame(source).value; (source + more)[|line|..] == source[|line|..] + more
  {
    LineLengthExtends(source, more, MAX_FRAME_BYTES + 1);
    var n := LineLength(source, MAX_FRAME_BYTES + 1);
    assert (source + more)[..n] == source[..n];
  }

  lemma {:induction false} ExtensionRefused(p: Platform, limit: int, st: State, header: Option<Json>, total: int,
                                            source: Bytes, more: Bytes, spooled: seq<Bytes>)
    requires st.Shaped() && Validate(p, limit, st, header, total, source, spooled).Some? && more != []
    ensures Validate(p, limit, st, header, total, source + more, spooled).None?
    decreases |source|
  {
    hide IsTrailerObject, DecodeTrailer, TrailerOf, Summarise, TakeFrame, DecodeCanonical, ReadFrame;
    var (line, v) := ReadObject(p, limit, st, total, source).value;
    SameLine(source, more);
    var rest := source[|line|..];
    if IsTrailerObject(v) {
      assert rest + more != [];
    } else {
      var (next, nextHeader) := TakeFrame(p, st, header, v, line).value;
      ExtensionRefused(p, limit, next, nextHeader, total + |line|, rest, more, spooled + [line]);
    }
  }

  /** No accepted bundle is a proper prefix of another. */
  lemma {:induction false} PrefixFree(p: Platform, limit: int, source: Bytes, more: Bytes)
    requires ValidateBundle(p, limit, source).Some? && ValidateBundle(p, limit, source + more).Some?
    ensures more == []
  {
    hide Validate;
    if more != [] {
      ExtensionRefused(p, limit, EMPTY, None, 0, source, more, []);
    }
  }

  // ----- tampering with whole frames -----

  /** The ordinal written on a line, and whether the line says it is the trailer. */
  function LineOrdinal(p: Platform, line: Bytes): Option<Json> {
    if line == [] then None
    else
      match DecodeCanonical(p.near, line[..|line| - 1])
      case None => None
      case Some(v) => if v.Obj? then Lookup(v.entries, ORDINAL_KEY) else None
  }

  predicate IsTrailerLine(p: Platform, line: Bytes) {
    line != [] && match DecodeCanonical(p.near, line[..|line| - 1])
                  case None => false
                  case Some(v) => IsTrailerObject(v)
  }

  lemma {:induction false} FrameOrdinal(p: Platform, v: Json)
    requires DecodeFrame(p, v).Some?
    ensures v.Obj? && Lookup(v.entries, ORDINAL_KEY) == Some(Int(DecodeFrame(p, v).value.ordinal))
  {
    hide CoreDigest, Lookup, Names, IsDigest, KindNamed;
  }

  lemma {:induction false} TrailerOrdinal(p: Platform, v: Json)
    requires DecodeTrailer(p, v).Some?
    ensures v.Obj? && Lookup(v.entries, ORDINAL_KEY) == Some(Int(DecodeTrailer(p, v).value.ordinal))
  {
    hide Lookup, Names, DecodeSections, ValidTrailer;
  }

  lemma {:induction false} TakenOrdinal(p: Platform, st: State, header: Option<Json>, v: Json, line: Bytes)
    requires Consistent(st) && TakeFrame(p, st, header, v, line).Some?
    ensures var next := TakeFrame(p, st, header, v, line).value.0;
            Consistent(next) && next.nextOrdinal == st.nextOrdinal + 1
    ensures v.Obj? && Lookup(v.entries, ORDINAL_KEY) == Some(Int(st.nextOrdinal))
  {
    hide DecodeFrame, Lookup, Consistent, EncodeFrame;
    var f := DecodeFrame(p, v).value;
    AddKeepsConsistent(p, st, f, line);
    FrameOrdinal(p, v);
  }

  lemma {:induction false} ClosedOrdinal(p: Platform, st: State, header: Option<Json>, total: int, v: Json,
                                         rest: Bytes)
    requires st.Shaped() && CloseBundle(p, st, header, total, v, rest).Some?
    ensures v.Obj? && Lookup(v.entries, ORDINAL_KEY) == Some(Int(st.nextOrdinal))
  {
    hide DecodeTrailer, Lookup, ValidTrailer, Summarise, SectionsOf;
    TrailerOrdinal(p, v);
  }

  /** Lines carry their own position, and only the last one is a trailer. */
  ghost predicate Numbered(p: Platform, lines: seq<Bytes>, from: nat) {
    forall i :: 0 <= i < |lines| ==>
      LineOrdinal(p, lines[i]) == Some(Int(from + i)) && (IsTrailerLine(p, lines[i]) <==> i == |lines| - 1)
  }

  lemma {:induction false} AcceptedNumbered(p: Platform, limit: int, st: State, header: Option<Json>, total: int,
                                            source: Bytes, spooled: seq<Bytes>)
    returns (lines: seq<Bytes>)
    requires Consistent(st) && Validate(p, limit, st, header, total, source, spooled).Some?
    ensures Validate(p, limit, st, header, total, source, spooled).value.1 == spooled + lines
    ensures lines != [] && Numbered(p, lines, st.nextOrdinal)
    decreases |source|
  {
    hide DecodeTrailer, TrailerOf, Summarise, TakeFrame, DecodeCanonical, ReadFrame, Lookup, Consistent,
         CloseBundle;
    DigestsOf(st);
    var (line, v) := ReadObject(p, limit, st, total, source).value;
    var rest := source[|line|..];
    if IsTrailerObject(v) {
      lines := [line];
      ClosedOrdinal(p, st, header, total + |line|, v, rest);
    } else {
      var (next, nextHeader) := TakeFrame(p, st, header, v, line).value;
      TakenOrdinal(p, st, header, v, line);
      var more := AcceptedNumbered(p, limit, next, nextHeader, total + |line|, rest, spooled + [line]);
      lines := [line] + more;
      Assoc(spooled, [line], more);
      assert LineOrdinal(p, line) == Some(Int(st.nextOrdinal)) && !IsTrailerLine(p, line);
      assert forall i :: 1 <= i < |lines| ==> lines[i] == more[i - 1];
    }
  }

  lemma {:induction false} NumberedLines(p: Platform, limit: int, source: Bytes)
    requires ValidateBundle(p, limit, source).Some?
    ensures var lines := ValidateBundle(p, limit, source).value.1; lines != [] && Numbered(p, lines, 0)
  {
    hide Validate, Numbered;
    EmptyConsistent();
    var lines := AcceptedNumbered(p, limit, EMPTY, None, 0, source, []);
    assert [] + lines == lines;
  }

  lemma {:induction false} SameLines(p: Platform, limit: int, original: Bytes, tampered: Bytes)
    requires ValidateBundle(p, limit, original).Some? && ValidateBundle(p, limit, tampered).Some?
    requires forall line :: line in ValidateBundle(p, limit, tampered).value.1 ==>
                            line in ValidateBundle(p, limit, original).value.1
    ensures ValidateBundle(p, limit, tampered).value.1 == ValidateBundle(p, limit, original).value.1
  {
    hide ValidateBundle, LineOrdinal, IsTrailerLine;
    NumberedLines(p, limit, original);
    NumberedLines(p, limit, tampered);
    var a, b := ValidateBundle(p, limit, original).value.1, ValidateBundle(p, limit, tampered).value.1;
    forall i | 0 <= i < |b| ensures i < |a| && b[i] == a[i] {
      assert b[i] in a;
      var j :| 0 <= j < |a| && a[j] == b[i];
      assert LineOrdinal(p, a[j]) == Some(Int(0 + j)) && LineOrdinal(p, b[i]) == Some(Int(0 + i));
    }
    assert IsTrailerLine(p, b[|b| - 1]) && b[|b| - 1] == a[|b| - 1];
  }

  /** A line that the reader cuts off as it is. */
  predicate Framed(line: Bytes) {
    ReadFrame(line) == Some(line)
  }

  lemma {:induction false} LineLengthOfLine(s: Bytes, max: nat)
    requires var n := LineLength(s, max); n > 0 && s[n - 1] == NEWLINE
    ensures LineLength(s[..LineLength(s, max)], max) == LineLength(s, max)
    decreases |s|
  {
    var n := LineLength(s, max);
    if s[0] != NEWLINE {
      LineLengthOfLine(s[1..], max - 1);
      assert s[..n][1..] == s[1..][..n - 1];
    }
  }

  lemma {:induction false} ReadIsFramed(source: Bytes)
    requires ReadFrame(source).Some?
    ensures Framed(ReadFrame(source).value)
  {
    var n := LineLength(source, MAX_FRAME_BYTES + 1);
    LineLengthOfLine(source, MAX_FRAME_BYTES + 1);
    assert source[..n][..n] == source[..n];
  }

  /** The lines of an accepted bundle are its bytes, cut where the reader cuts. */
  lemma {:induction false} AcceptedFramed(p: Platform, limit: int, st: State, header: Option<Json>, total: int,
                                          source: Bytes, spooled: seq<Bytes>)
    returns (lines: seq<Bytes>)
    requires st.Shaped() && Validate(p, limit, st, header, total, source, spooled).Some?
    ensures Validate(p, limit, st, header, total, source, spooled).value.1 == spooled + lines
    ensures Flatten(lines) == source && forall line :: line in lines ==> Framed(line)
    decreases |source|
  {
    hide IsTrailerObject, DecodeTrailer, TrailerOf, Summarise, TakeFrame, DecodeCanonical, ReadFrame, Framed;
    var (line, v) := ReadObject(p, limit, st, total, source).value;
    ReadIsFramed(source);
    var rest := source[|line|..];
    assert line + rest == source;
    if IsTrailerObject(v) {
      lines := [line];
      assert lines[1..] == [] && line + [] == source;
    } else {
      var (next, nextHeader) := TakeFrame(p, st, header, v, line).value;
      var more := AcceptedFramed(p, limit, next, nextHeader, total + |line|, rest, spooled + [line]);
      lines := [line] + more;
      assert lines[1..] == more;
      Assoc(spooled, [line], more);
    }
  }

  lemma {:induction false} NothingFlattened(lines: seq<Bytes>)
    requires forall line :: line in lines ==> Framed(line)
    ensures Flatten(lines) == [] <==> lines == []
  {
    assert forall line :: Framed(line) ==> line != [];
    assert lines != [] ==> lines[0] in lines;
  }

  /** A stream assembled from such lines is read as exactly those lines. */
  lemma {:induction false} ReadsAssembled(p: Platform, limit: int, st: State, header: Option<Json>, total: int,
                                          lines: seq<Bytes>, spooled: seq<Bytes>)
    requires st.Shaped() && Validate(p, limit, st, header, total, Flatten(lines), spooled).Some?
    requires forall line :: line in lines ==> Framed(line)
    ensures Validate(p, limit, st, header, total, Flatten(lines), spooled).value.1 == spooled + lines
    decreases |lines|
  {
    hide IsTrailerObject, DecodeTrailer, TrailerOf, Summarise, TakeFrame, DecodeCanonical, ReadFrame;
    var source := Flatten(lines);
    var (line, v) := ReadObject(p, limit, st, total, source).value;
    assert lines != [] && source == lines[0] + Flatten(lines[1..]) && lines[0] in lines;
    SameLine(lines[0], Flatten(lines[1..]));
    assert line == lines[0] && lines[0][|line|..] == [];
    var rest := source[|line|..];
    assert rest == Flatten(lines[1..]);
    assert forall x :: x in lines[1..] ==> x in lines;
    if IsTrailerObject(v) {
      NothingFlattened(lines[1..]);
      assert lines == [line];
    } else {
      var (next, nextHeader) := TakeFrame(p, st, header, v, line).value;
      ReadsAssembled(p, limit, next, nextHeader, total + |line|, lines[1..], spooled + [line]);
      Assoc(spooled, [line], lines[1..]);
      assert [line] + lines[1..] == lines;
    }
  }

  /** A stream assembled from the lines of an accepted bundle, with any of them dropped,
      repeated or moved, is accepted exactly when it is that bundle: ordinals, the trailer's
      count and the end of the stream suffice, and no property of the hash is used. */
  lemma {:induction false} TamperingDetected(p: Platform, limit: int, original: Bytes, lines: seq<Bytes>)
    requires ValidateBundle(p, limit, original).Some?
    requires forall line :: line in lines ==> line in ValidateBundle(p, limit, original).value.1
    ensures ValidateBundle(p, limit, Flatten(lines)).Some? <==> lines == ValidateBundle(p, limit, original).value.1
  {
    hide Validate, ReadFrame;
    var all := AcceptedFramed(p, limit, EMPTY, None, 0, original, []);
    assert [] + all == all;
    if ValidateBundle(p, limit, Flatten(lines)).Some? {
      ReadsAssembled(p, limit, EMPTY, None, 0, lines, []);
      assert [] + lines == lines;
      SameLines(p, limit, original, Flatten(lines));
    }
  }
}
