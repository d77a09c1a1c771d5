/** The decoder inverts the encoder, exactly where it can: what comes back is the value
    with every whole float turned into the integer it equals, and nothing comes back
    exactly when one of those integers does not fit in 64 bits. */
module JsonRoundTrip {
  import opened Ordering
  import opened Text
  import opened Decimals
  import opened Numbers
  import opened CanonicalJson
  import opened JsonParsing

  /** The value a decoder reads back: whole floats have become integers. */
  function Canon(v: Json): Json
    decreases v
  {
    match v
    case Float(d) => if Integral(d) then Int(IntegerOf(d)) else v
    case Arr(items) => Arr(CanonItems(items))
    case Obj(entries) => Obj(CanonEntries(entries))
    case _ => v
  }

  function CanonItems(items: seq<Json>): (r: seq<Json>)
    ensures |r| == |items|
    decreases items
  {
    if items == [] then [] else [Canon(items[0])] + CanonItems(items[1..])
  }

  function CanonEntries(entries: seq<Entry>): (r: seq<Entry>)
    ensures |r| == |entries|
    ensures forall i :: 0 <= i < |r| ==> r[i].name == entries[i].name
    decreases entries
  {
    if entries == [] then [] else [Entry(entries[0].name, Canon(entries[0].value))] + CanonEntries(entries[1..])
  }

  /** No whole float lies outside the signed 64-bit integers. */
  predicate Decodable(v: Json)
    decreases v
  {
    match v
    case Float(d) => Integral(d) ==> Signed64(IntegerOf(d))
    case Arr(items) => DecodableItems(items)
    case Obj(entries) => DecodableEntries(entries)
    case _ => true
  }

  predicate DecodableItems(items: seq<Json>)
    decreases items
  {
    items == [] || (Decodable(items[0]) && DecodableItems(items[1..]))
  }

  predicate DecodableEntries(entries: seq<Entry>)
    decreases entries
  {
    entries == [] || (Decodable(entries[0].value) && DecodableEntries(entries[1..]))
  }

  // ----- strings -----

  lemma {:induction false} ParseEscapedChar(c: CodePoint, rest: Text)
    requires !IsSurrogate(c)
    ensures ParseString(EscapeChar(c) + rest) == Consed(c, ParseString(rest))
  {
    var e := EscapeChar(c);
    var s := e + rest;
    assert s[|e|..] == rest;
    if c <= 0x1F && |e| == 6 {
      assert s[1..][1..] == s[2..] && s[2..][4..] == rest;
      assert HexValue(HexDigit(c / 16)) == c / 16 && HexValue(HexDigit(c % 16)) == c % 16;
      assert HexUnit(s[2..]) == Some(c);
      assert s[1..][5..] == rest;
    } else if |e| == 2 {
      assert s[1..][1..] == rest;
    }
  }

  lemma {:induction false} ParseEmitted(s: Text, rest: Text)
    requires Scalar(s)
    ensures ParseString(EmitEscaped(s, [QUOTE] + rest)) == Some((s, rest))
  {
    if s == [] {
      assert ([QUOTE] + rest)[1..] == rest;
    } else {
      ParseEmitted(s[1..], rest);
      ParseEscapedChar(s[0], EmitEscaped(s[1..], [QUOTE] + rest));
      assert s == [s[0]] + s[1..];
    }
  }

  // ----- numbers -----

  lemma {:induction false} ParseInteger(h: Hooks, n: int, rest: Text)
    requires Stops(rest)
    ensures ParseNumber(h, IntText(n) + rest)
         == if h.bounded && !Signed64(n) then None else Some((RInt(n), rest))
  {
    hide LexNumber, WellFormed, TokenText, IntText, IntegerToken, IntegerValue, IsInteger;
    IntegerSpelled(n);
    LexToken(IntegerToken(n), rest);
  }

  lemma {:induction false} IntegerSpelled(n: int)
    ensures var t := IntegerToken(n);
            WellFormed(t) && IsInteger(t) && TokenText(t) == IntText(n) && IntegerValue(t) == n
  {
    PlainPart(IntegerToken(n).whole, []);
  }

  lemma {:induction false} ParseFloat(h: Hooks, d: Shortest, rest: Text)
    requires Stops(rest) && h.near(d) == Some(d)
    ensures ParseNumber(h, EncodeBinary64(d) + rest)
         == if h.bounded && !Decodable(Float(d)) then None else Some((Thaw(Canon(Float(d))), rest))
  {
    hide LexNumber, WellFormed, TokenText, TokenOf, IsInteger, IntegerValue, ToDecimal, EncodeBinary64, CanonicalForm;
    EncodeIsCanonical(d);
    CanonicalIsToken(d);
    LexToken(TokenOf(d), rest);
    if !Integral(d) {
      ZeroIsIntegral(d);
      TokenDenotes(d);
    }
  }

  lemma {:induction false} ZeroIsIntegral(d: Shortest)
    ensures !Integral(d) ==> d.digits != []
  {
  }

  predicate StartsNumber(s: Text) {
    s != [] && (s[0] == MINUS || IsDigit(s[0]))
  }

  lemma {:induction false} IntegerStarts(n: int, rest: Text)
    ensures StartsNumber(IntText(n) + rest)
  {
    var ds := NatDigits(Magnitude(n));
    if n >= 0 {
      assert IntText(n) == DigitText(ds);
      assert (DigitText(ds) + rest)[0] == ZERO + ds[0];
    } else {
      assert IntText(n)[0] == MINUS;
    }
  }

  lemma {:induction false} FloatStarts(d: Shortest, rest: Text)
    ensures StartsNumber(EncodeBinary64(d) + rest)
  {
    EncodeIsCanonical(d);
    CanonicalIsToken(d);
    var t := TokenOf(d);
    TokenFollowed(t, rest);
    var body := DigitText(t.whole) + FractionPart(t.fraction, ExponentPart(t.exponent, rest));
    assert body[0] == ZERO + t.whole[0];
    assert Sign(false) + body == body;
  }

  lemma {:induction false} NumberDispatch(h: Hooks, s: Text)
    requires StartsNumber(s)
    ensures ParseValue(h, s) == ParseNumber(h, s)
  {
  }

  // ----- values -----

  /** Text that a value may start with: neither space nor a closing bracket. */
  predicate StartsValue(s: Text) {
    s != [] && !IsSpace(s[0]) && s[0] != CLOSE_LIST && s[0] != CLOSE_DICT
  }

  lemma {:induction false} EmitStarts(v: Json, rest: Text)
    ensures StartsValue(Emit(v, rest))
  {
    match v
    case Int(n) => IntegerStarts(n, rest);
    case Float(d) => FloatStarts(d, rest);
    case Null => assert (NULL_TEXT + rest)[0] == NULL_TEXT[0];
    case Bool(b) =>
      assert (TRUE_TEXT + rest)[0] == TRUE_TEXT[0];
      assert (FALSE_TEXT + rest)[0] == FALSE_TEXT[0];
    case _ =>
  }

  lemma {:induction false} ParseLiteral(h: Hooks, v: Json, rest: Text)
    requires v.Null? || v.Bool?
    ensures ParseValue(h, Emit(v, rest)) == Some((Thaw(v), rest))
  {
    var text := Render(v);
    var s := text + rest;
    assert s[..|text|] == text && s[|text|..] == rest;
    assert text <= s;
    assert s[0] == text[0];
  }

  lemma {:induction false} ReadItems(items: seq<Json>)
    requires items != []
    ensures ThawItems(CanonItems(items)) == [Thaw(Canon(items[0]))] + ThawItems(CanonItems(items[1..]))
    ensures |items| == 1 ==> items[1..] == [] && ThawItems(CanonItems(items)) == [Thaw(Canon(items[0]))]
  {
    assert CanonItems(items)[1..] == CanonItems(items[1..]);
  }

  lemma {:induction false} ReadEntries(entries: seq<Entry>)
    requires entries != []
    ensures var first := Pair(entries[0].name, Thaw(Canon(entries[0].value)));
            && ThawEntries(CanonEntries(entries)) == [first] + ThawEntries(CanonEntries(entries[1..]))
            && (|entries| == 1 ==> entries[1..] == [] && ThawEntries(CanonEntries(entries)) == [first])
  {
    assert CanonEntries(entries)[1..] == CanonEntries(entries[1..]);
  }

  function Parsed<T>(h: Hooks, decodable: bool, value: T, rest: Text): Option<(T, Text)> {
    if h.bounded && !decodable then None else Some((value, rest))
  }

  /** The parser undoes the printer, on every sound value and before any continuation. */
  lemma {:induction false} ParseEmit(h: Hooks, v: Json, rest: Text)
    requires Sound(h.near, v) && Stops(rest)
    ensures ParseValue(h, Emit(v, rest)) == Parsed(h, Decodable(v), Thaw(Canon(v)), rest)
    decreases v
  {
    var s := Emit(v, rest);
    match v
    case Int(n) =>
      IntegerStarts(n, rest);
      NumberDispatch(h, s);
      ParseInteger(h, n, rest);
    case Float(d) =>
      FloatStarts(d, rest);
      NumberDispatch(h, s);
      ParseFloat(h, d, rest);
    case Str(text) =>
      assert s[1..] == EmitEscaped(text, [QUOTE] + rest);
      ParseEmitted(text, rest);
    case Arr(items) =>
      ParseEmitArray(h, items, rest);
    case Obj(entries) =>
      ParseEmitObject(h, entries, rest);
    case _ =>
      ParseLiteral(h, v, rest);
  }

  lemma {:induction false} ParseEmitArray(h: Hooks, items: seq<Json>, rest: Text)
    requires SoundItems(h.near, items) && Stops(rest)
    ensures ParseValue(h, Emit(Arr(items), rest)) == Parsed(h, DecodableItems(items), Thaw(Canon(Arr(items))), rest)
    decreases items, 1
  {
    var s := Emit(Arr(items), rest);
    var body := EmitItems(items, [CLOSE_LIST] + rest);
    assert s[1..] == body;
    if items == [] {
      assert body[1..] == rest;
    } else {
      EmitStarts(items[0], if |items| == 1 then [CLOSE_LIST] + rest else [COMMA] + EmitItems(items[1..], [CLOSE_LIST] + rest));
      ParseEmitItems(h, items, rest);
    }
  }

  lemma {:induction false} ParseEmitItems(h: Hooks, items: seq<Json>, rest: Text)
    requires SoundItems(h.near, items) && items != []
    ensures ParseElements(h, EmitItems(items, [CLOSE_LIST] + rest))
         == Parsed(h, DecodableItems(items), ThawItems(CanonItems(items)), rest)
    decreases items, 0
  {
    var close := [CLOSE_LIST] + rest;
    assert close[1..] == rest;
    ReadItems(items);
    if |items| == 1 {
      ParseEmit(h, items[0], close);
    } else {
      var more := EmitItems(items[1..], close);
      var tail := [COMMA] + more;
      assert tail[1..] == more;
      ParseEmit(h, items[0], tail);
      EmitStarts(items[1], if |items[1..]| == 1 then close else [COMMA] + EmitItems(items[1..][1..], close));
      ParseEmitItems(h, items[1..], rest);
    }
  }

  lemma {:induction false} ParseEmitObject(h: Hooks, entries: seq<Entry>, rest: Text)
    requires SoundEntries(h.near, entries) && StrictlySorted(EntryKey, entries) && Stops(rest)
    ensures ParseValue(h, Emit(Obj(entries), rest)) == Parsed(h, DecodableEntries(entries), Thaw(Canon(Obj(entries))), rest)
    decreases entries, 1
  {
    var s := Emit(Obj(entries), rest);
    var body := EmitEntries(entries, [CLOSE_DICT] + rest);
    assert s[1..] == body;
    if entries == [] {
      assert body[1..] == rest;
    } else {
      ParseEmitEntries(h, entries, rest);
      StrictIsUnique(entries);
      assert UniquePairs(ThawEntries(CanonEntries(entries)));
    }
  }

  /** After one member, a comma leads to more members and a brace ends the object. */
  lemma {:induction false} ParsePairsAfter(h: Hooks, s: Text, pair: Pair, t: Text)
    requires ParsePair(h, s) == Some((pair, t)) && t != []
    ensures t[0] == CLOSE_DICT ==> ParsePairs(h, s) == Some(([pair], t[1..]))
    ensures t[0] == COMMA && |t| >= 2 && t[1] == QUOTE ==> ParsePairs(h, s) == Consed(pair, ParsePairs(h, t[1..]))
  {
  }

  lemma {:induction false} ParseEmitEntries(h: Hooks, entries: seq<Entry>, rest: Text)
    requires SoundEntries(h.near, entries) && entries != []
    ensures ParsePairs(h, EmitEntries(entries, [CLOSE_DICT] + rest))
         == Parsed(h, DecodableEntries(entries), ThawEntries(CanonEntries(entries)), rest)
    decreases entries, 0
  {
    var close := [CLOSE_DICT] + rest;
    var more := EmitEntries(entries[1..], close);
    var tail := if |entries| == 1 then close else [COMMA] + more;
    ParseEmitEntry(h, entries[0], tail);
    ReadEntries(entries);
    if !(h.bounded && !Decodable(entries[0].value)) {
      ParsePairsAfter(h, EmitEntries(entries, close), Pair(entries[0].name, Thaw(Canon(entries[0].value))), tail);
    }
    if |entries| == 1 {
      assert close[1..] == rest;
    } else {
      assert tail[1..] == more && more[0] == QUOTE;
      ParseEmitEntries(h, entries[1..], rest);
    }
  }

  lemma {:induction false} ParseEmitEntry(h: Hooks, entry: Entry, tail: Text)
    requires Scalar(entry.name) && Sound(h.near, entry.value) && Stops(tail)
    ensures ParsePair(h, EmitString(entry.name, [COLON] + Emit(entry.value, tail)))
         == Parsed(h, Decodable(entry.value), Pair(entry.name, Thaw(Canon(entry.value))), tail)
    decreases entry
  {
    var text := [COLON] + Emit(entry.value, tail);
    var s := EmitString(entry.name, text);
    assert s[1..] == EmitEscaped(entry.name, [QUOTE] + text);
    ParseEmitted(entry.name, text);
    EmitStarts(entry.value, tail);
    assert text[1..] == Emit(entry.value, tail);
    ParseEmit(h, entry.value, tail);
  }

  // ----- the scanner -----

  lemma {:induction false} ScanEmitted(s: Text, rest: Text, depth: int)
    ensures Scan(EmitEscaped(s, [QUOTE] + rest), depth, true, false) == Scan(rest, depth, false, false)
  {
    if s == [] {
      assert ([QUOTE] + rest)[1..] == rest;
    } else {
      var more := EmitEscaped(s[1..], [QUOTE] + rest);
      ScanEmitted(s[1..], rest, depth);
      ScanEscapedChar(s[0], more, depth);
    }
  }

  lemma {:induction false} ScanEscapedChar(c: CodePoint, rest: Text, depth: int)
    ensures Scan(EscapeChar(c) + rest, depth, true, false) == Scan(rest, depth, true, false)
  {
    var e := EscapeChar(c);
    var s := e + rest;
    assert s[|e|..] == rest;
    if |e| == 2 {
      assert s[1..][1..] == rest;
    } else if |e| == 6 {
      ScanPlain(e[2..], rest, depth);
      assert s[1..][1..] == e[2..] + rest;
    }
  }

  lemma {:induction false} ScanPlain(e: Text, rest: Text, depth: int)
    requires QUOTE !in e && BACKSLASH !in e
    ensures Scan(e + rest, depth, true, false) == Scan(rest, depth, true, false)
  {
    if e == [] {
      assert e + rest == rest;
    } else {
      assert (e + rest)[1..] == e[1..] + rest;
      ScanPlain(e[1..], rest, depth);
    }
  }

  /** Printable ASCII that neither opens nor closes anything. */
  predicate Flat(s: Text) {
    forall i :: 0 <= i < |s| ==>
      0x20 <= s[i] < 0x80 && s[i] != QUOTE && s[i] != OPEN_LIST && s[i] != CLOSE_LIST
      && s[i] != OPEN_DICT && s[i] != CLOSE_DICT
  }

  lemma {:induction false} FlatConcat(a: Text, b: Text)
    requires Flat(a) && Flat(b)
    ensures Flat(a + b)
  {
  }

  lemma {:induction false} DigitsFlat(ds: Digits)
    ensures Flat(DigitText(ds))
  {
  }

  lemma {:induction false} ScanFlat(e: Text, rest: Text, depth: int)
    requires Flat(e)
    ensures Scan(e + rest, depth, false, false) == Scan(rest, depth, false, false)
  {
    if e == [] {
      assert e + rest == rest;
    } else {
      assert (e + rest)[1..] == e[1..] + rest;
      ScanFlat(e[1..], rest, depth);
    }
  }

  lemma {:induction false} IntegerFlat(n: int)
    ensures Flat(IntText(n))
  {
    DigitsFlat(NatDigits(Magnitude(n)));
    FlatConcat(Sign(n < 0), DigitText(NatDigits(Magnitude(n))));
  }

  lemma {:induction false} FloatFlat(d: Shortest)
    ensures Flat(EncodeBinary64(d))
  {
    EncodeIsCanonical(d);
    CanonicalIsToken(d);
    var t := TokenOf(d);
    var e, f := ExponentPart(t.exponent, []), FractionPart(t.fraction, ExponentPart(t.exponent, []));
    if t.exponent.Some? {
      IntegerFlat(t.exponent.value);
      FlatConcat(if t.exponent.value >= 0 then [PLUS] else [], IntText(t.exponent.value));
      FlatConcat(SignedText(t.exponent.value), []);
      FlatConcat([SMALL_E], SignedText(t.exponent.value) + []);
    }
    if t.fraction != [] {
      DigitsFlat(t.fraction);
      FlatConcat(DigitText(t.fraction), e);
      FlatConcat([DOT], DigitText(t.fraction) + e);
    }
    DigitsFlat(t.whole);
    FlatConcat(DigitText(t.whole), f);
    FlatConcat(Sign(t.negative), DigitText(t.whole) + f);
  }

  /** The scan of a printed value succeeds exactly as deep as the value is. */
  lemma {:induction false} ScanEmit(v: Json, rest: Text, depth: nat)
    ensures Scan(Emit(v, rest), depth, false, false)
        == (depth + Depth(v) <= Max(depth, MAX_JSON_DEPTH) && Scan(rest, depth, false, false))
    decreases v
  {
    var s := Emit(v, rest);
    match v
    case Arr(items) =>
      var close := [CLOSE_LIST] + rest;
      assert s[1..] == EmitItems(items, close) && close[1..] == rest;
      ScanEmitItems(items, close, depth + 1);
    case Obj(entries) =>
      var close := [CLOSE_DICT] + rest;
      assert s[1..] == EmitEntries(entries, close) && close[1..] == rest;
      ScanEmitEntries(entries, close, depth + 1);
    case Str(text) =>
      assert s[1..] == EmitEscaped(text, [QUOTE] + rest);
      ScanEmitted(text, rest, depth);
    case Int(n) =>
      IntegerFlat(n);
      ScanFlat(Render(v), rest, depth);
    case Float(d) =>
      FloatFlat(d);
      ScanFlat(Render(v), rest, depth);
    case _ =>
      LiteralFlat(v);
      ScanFlat(Render(v), rest, depth);
  }

  lemma {:induction false} LiteralFlat(v: Json)
    requires v.Null? || v.Bool?
    ensures Flat(Render(v))
  {
  }

  lemma {:induction false} ScanEmitItems(items: seq<Json>, rest: Text, depth: nat)
    ensures Scan(EmitItems(items, rest), depth, false, false)
        == (depth + ItemsDepth(items) <= Max(depth, MAX_JSON_DEPTH) && Scan(rest, depth, false, false))
    decreases items
  {
    if items != [] {
      var more := EmitItems(items[1..], rest);
      var tail := if |items| == 1 then rest else [COMMA] + more;
      ScanEmit(items[0], tail, depth);
      ScanEmitItems(items[1..], rest, depth);
      if |items| == 1 {
        assert items[1..] == [];
      } else {
        assert tail[1..] == more;
      }
    }
  }

  lemma {:induction false} ScanEmitEntries(entries: seq<Entry>, rest: Text, depth: nat)
    ensures Scan(EmitEntries(entries, rest), depth, false, false)
        == (depth + EntriesDepth(entries) <= Max(depth, MAX_JSON_DEPTH) && Scan(rest, depth, false, false))
    decreases entries
  {
    if entries != [] {
      var name, value := entries[0].name, entries[0].value;
      var more := EmitEntries(entries[1..], rest);
      var tail := if |entries| == 1 then rest else [COMMA] + more;
      var text := [COLON] + Emit(value, tail);
      var s := EmitString(name, text);
      assert s[1..] == EmitEscaped(name, [QUOTE] + text) && text[1..] == Emit(value, tail);
      ScanEmitted(name, text, depth);
      ScanEmit(value, tail, depth);
      ScanEmitEntries(entries[1..], rest, depth);
      if |entries| == 1 {
        assert entries[1..] == [];
      } else {
        assert tail[1..] == more;
      }
    }
  }

  // ----- the laws -----

  /** Every code point of canonical text is scalar and printable: never a newline. */
  lemma {:induction false} EmitPrintable(near: Rounding, v: Json, rest: Text)
    requires Sound(near, v) && Printable(rest)
    ensures Printable(Emit(v, rest))
    decreases v
  {
    match v
    case Arr(items) =>
      PrintableConcat([CLOSE_LIST], rest);
      EmitItemsPrintable(near, items, [CLOSE_LIST] + rest);
      PrintableConcat([OPEN_LIST], EmitItems(items, [CLOSE_LIST] + rest));
    case Obj(entries) =>
      PrintableConcat([CLOSE_DICT], rest);
      EmitEntriesPrintable(near, entries, [CLOSE_DICT] + rest);
      PrintableConcat([OPEN_DICT], EmitEntries(entries, [CLOSE_DICT] + rest));
    case Str(text) => EmitStringPrintable(text, rest);
    case Int(n) =>
      IntegerFlat(n);
      PrintableConcat(Render(v), rest);
    case Float(d) =>
      FloatFlat(d);
      PrintableConcat(Render(v), rest);
    case _ => PrintableConcat(Render(v), rest);
  }

  predicate Printable(s: Text) {
    forall i :: 0 <= i < |s| ==> s[i] >= 0x20 && !IsSurrogate(s[i])
  }

  lemma {:induction false} PrintableConcat(a: Text, b: Text)
    requires Printable(a) && Printable(b)
    ensures Printable(a + b)
  {
  }

  lemma {:induction false} EmitStringPrintable(s: Text, rest: Text)
    requires Scalar(s) && Printable(rest)
    ensures Printable(EmitString(s, rest)) && Printable(EmitEscaped(s, [QUOTE] + rest))
    decreases |s|
  {
    PrintableConcat([QUOTE], rest);
    if s != [] {
      EmitStringPrintable(s[1..], rest);
      PrintableConcat(EscapeChar(s[0]), EmitEscaped(s[1..], [QUOTE] + rest));
    }
    PrintableConcat([QUOTE], EmitEscaped(s, [QUOTE] + rest));
  }

  lemma {:induction false} EmitItemsPrintable(near: Rounding, items: seq<Json>, rest: Text)
    requires SoundItems(near, items) && Printable(rest)
    ensures Printable(EmitItems(items, rest))
    decreases items
  {
    if items != [] {
      EmitItemsPrintable(near, items[1..], rest);
      PrintableConcat([COMMA], EmitItems(items[1..], rest));
      EmitPrintable(near, items[0], if |items| == 1 then rest else [COMMA] + EmitItems(items[1..], rest));
    }
  }

  lemma {:induction false} EmitEntriesPrintable(near: Rounding, entries: seq<Entry>, rest: Text)
    requires SoundEntries(near, entries) && Printable(rest)
    ensures Printable(EmitEntries(entries, rest))
    decreases entries
  {
    if entries != [] {
      EmitEntriesPrintable(near, entries[1..], rest);
      PrintableConcat([COMMA], EmitEntries(entries[1..], rest));
      var tail := if |entries| == 1 then rest else [COMMA] + EmitEntries(entries[1..], rest);
      EmitPrintable(near, entries[0].value, tail);
      PrintableConcat([COLON], Emit(entries[0].value, tail));
      EmitStringPrintable(entries[0].name, [COLON] + Emit(entries[0].value, tail));
    }
  }

  /** Canonical bytes hold no newline and no carriage return, so a line break can only
      be a frame boundary. */
  lemma {:induction false} NoLineBreaks(near: Rounding, v: Json)
    requires Sound(near, v)
    ensures Scalar(Render(v)) && 0x0A !in Utf8(Render(v)) && 0x0D !in Utf8(Render(v))
  {
    EmitIs(v, []);
    EmitPrintable(near, v, []);
    assert Render(v) + [] == Render(v);
    Utf8Ascii(Render(v), 0x0A);
    Utf8Ascii(Render(v), 0x0D);
  }

  /** The nesting scan of canonical text accepts exactly the values of depth 64 or less. */
  lemma {:induction false} ScanIsDepth(v: Json)
    ensures Scan(Render(v), 0, false, false) <==> Depth(v) <= MAX_JSON_DEPTH
  {
    EmitIs(v, []);
    assert Render(v) + [] == Render(v);
    ScanEmit(v, [], 0);
  }

  /** Reading back does not change the canonical text, the soundness or the depth. */
  lemma {:induction false} CanonText(near: Rounding, v: Json)
    requires Sound(near, v)
    ensures Render(Canon(v)) == Render(v) && Depth(Canon(v)) == Depth(v)
    ensures Decodable(v) ==> Sound(near, Canon(v)) && Decodable(Canon(v)) && Canon(Canon(v)) == Canon(v)
    decreases v
  {
    match v
    case Float(d) =>
      if Integral(d) {
        EncodeIsCanonical(d);
        IntegralText(d);
      }
    case Arr(items) => CanonItemsText(near, items);
    case Obj(entries) =>
      CanonEntriesText(near, entries);
      var read := CanonEntries(entries);
      forall i, j | 0 <= i < j < |read| ensures Less(EntryKey(read[i]), EntryKey(read[j])) {
        assert Less(EntryKey(entries[i]), EntryKey(entries[j]));
      }
    case _ =>
  }

  lemma {:induction false} CanonItemsText(near: Rounding, items: seq<Json>)
    requires SoundItems(near, items)
    ensures RenderItems(CanonItems(items)) == RenderItems(items)
    ensures ItemsDepth(CanonItems(items)) == ItemsDepth(items)
    ensures DecodableItems(items) ==>
              && SoundItems(near, CanonItems(items)) && DecodableItems(CanonItems(items))
              && CanonItems(CanonItems(items)) == CanonItems(items)
    decreases items
  {
    if items != [] {
      CanonText(near, items[0]);
      CanonItemsText(near, items[1..]);
      assert CanonItems(items)[1..] == CanonItems(items[1..]);
    }
  }

  lemma {:induction false} CanonEntriesText(near: Rounding, entries: seq<Entry>)
    requires SoundEntries(near, entries)
    ensures RenderEntries(CanonEntries(entries)) == RenderEntries(entries)
    ensures EntriesDepth(CanonEntries(entries)) == EntriesDepth(entries)
    ensures DecodableEntries(entries) ==>
              && SoundEntries(near, CanonEntries(entries)) && DecodableEntries(CanonEntries(entries))
              && CanonEntries(CanonEntries(entries)) == CanonEntries(entries)
    decreases entries
  {
    if entries != [] {
      CanonText(near, entries[0].value);
      CanonEntriesText(near, entries[1..]);
      assert CanonEntries(entries)[1..] == CanonEntries(entries[1..]);
    }
  }

  lemma {:induction false} LoadsRendered(h: Hooks, v: Json)
    requires Sound(h.near, v)
    ensures Loads(h, Render(v)) == if h.bounded && !Decodable(v) then None else Some(Thaw(Canon(v)))
  {
    EmitIs(v, []);
    assert Render(v) + [] == Render(v);
    EmitStarts(v, []);
    ParseEmit(h, v, []);
  }

  /** The decoder on the canonical bytes of any frozen object: it returns the object with
      whole floats as integers, unless one of those integers does not fit in 64 bits. */
  lemma {:induction false} DecodeEncode(near: Rounding, v: Json)
    requires Frozen(near, v, 0) && v.Obj?
    ensures DecodeCanonical(near, Utf8(Render(v))) == if Decodable(v) then Some(Canon(v)) else None
  {
    var text := Render(v);
    NoLineBreaks(near, v);
    Utf8RoundTrip(text);
    ScanIsDepth(v);
    EmitIs(v, []);
    assert text + [] == text && text[0] == OPEN_DICT;
    assert DecodeUtf8([]) == Some([]);
    LoadsRendered(Hooks(near, true), v);
    CanonText(near, v);
    if Decodable(v) {
      FreezeThaw(near, Canon(v), 0);
    }
  }

  // ----- where the round trip fails -----

  function Ten(n: nat): nat {
    if n == 0 then 1 else 10 * Ten(n - 1)
  }

  lemma {:induction false} OneAndZeros(n: nat)
    ensures NatValue([1] + Zeros(n)) == Ten(n)
  {
    if n > 0 {
      var ds := [1] + Zeros(n);
      assert ds[..|ds| - 1] == [1] + Zeros(n - 1) && ds[|ds| - 1] == 0;
      OneAndZeros(n - 1);
    } else {
      assert [1] + Zeros(0) == [1];
      assert NatValue([]) == 0 && [1][..0] == [];
    }
  }

  lemma {:induction false} LargeTens()
    ensures Ten(17) == 100_000_000_000_000_000 && Ten(19) == 10_000_000_000_000_000_000
  {
    assert Ten(3) == 1000 by { assert Ten(1) == 10 * Ten(0); }
    assert Ten(5) == 100_000;
    assert Ten(7) == 10_000_000;
    assert Ten(9) == 1_000_000_000;
    assert Ten(11) == 100_000_000_000;
    assert Ten(13) == 10_000_000_000_000;
    assert Ten(15) == 1_000_000_000_000_000;
  }

  /** The float 10^k, for a whole exponent below the scientific range. */
  lemma {:induction false} PowerOfTen(k: nat)
    requires k < 21
    ensures var d := Decimal(false, [1], k);
            Normal(d) && Integral(d) && IntegerOf(d) == Ten(k)
  {
    OneAndZeros(k);
  }

  /** A float that the encoder accepts and the decoder refuses: 10^19 is written as an integer
      literal outside the signed 64-bit range. */
  lemma {:induction false} WholeFloatIsLost(near: Rounding)
    requires near(Decimal(false, [1], 19)) == Some(Decimal(false, [1], 19))
    ensures var v := Obj([Entry([SMALL_E], Float(Decimal(false, [1], 19)))]);
            Frozen(near, v, 0) && DecodeCanonical(near, Utf8(Render(v))) == None
  {
    hide Render, Utf8, DecodeCanonical, Integral, IntegerOf;
    PowerOfTen(19);
    LargeTens();
    OneEntry(near, Entry([SMALL_E], Float(Decimal(false, [1], 19))));
    DecodeEncode(near, Obj([Entry([SMALL_E], Float(Decimal(false, [1], 19)))]));
  }

  lemma {:induction false} OneEntry(near: Rounding, e: Entry)
    requires Scalar(e.name) && e.value.Float? && Sound(near, e.value)
    ensures Frozen(near, Obj([e]), 0) && (Decodable(Obj([e])) <==> Decodable(e.value))
  {
    hide Integral, IntegerOf;
    assert [e][1..] == [];
    assert SoundEntries(near, [e][1..]) && DecodableEntries([e][1..]) && EntriesDepth([e][1..]) == 0;
    assert Depth(e.value) == 0 && EntriesDepth([e]) == 0;
    assert SoundEntries(near, [e]);
    assert DecodableEntries([e]) <==> Decodable(e.value);
  }

  /** Rounding an already rounded value changes nothing. */
  ghost predicate Idempotent(near: Rounding) {
    forall x :: near(x).Some? ==> near(near(x).value) == near(x)
  }

  /** Every float the parser returns is a binary64 value. */
  lemma {:induction false} ParseGenuine(h: Hooks, s: Text)
    requires Idempotent(h.near)
    ensures ParseValue(h, s).Some? ==> Genuine(h.near, ParseValue(h, s).value.0)
    decreases |s|, 0
  {
    if s != [] && ParseValue(h, s).Some? && (s[0] == OPEN_DICT || s[0] == OPEN_LIST) {
      var t := SkipSpace(s[1..]);
      if s[0] == OPEN_LIST {
        ParseElementsGenuine(h, t);
      } else {
        ParsePairsGenuine(h, t);
        ParseObject(h, s);
      }
    }
  }

  lemma {:induction false} ParseObject(h: Hooks, s: Text)
    requires s != [] && s[0] == OPEN_DICT && ParseValue(h, s).Some?
    ensures var t := SkipSpace(s[1..]);
            if t != [] && t[0] == CLOSE_DICT then ParseValue(h, s).value.0 == RDict([])
            else ParsePairs(h, t).Some? && ParseValue(h, s).value.0 == RDict(ParsePairs(h, t).value.0)
  {
  }

  lemma {:induction false} ParseElementsGenuine(h: Hooks, s: Text)
    requires Idempotent(h.near)
    ensures var r := ParseElements(h, s);
            r.Some? ==> forall i :: 0 <= i < |r.value.0| ==> Genuine(h.near, r.value.0[i])
    decreases |s|, 1
  {
    if ParseElements(h, s).Some? {
      ParseGenuine(h, s);
      var t := SkipSpace(ParseValue(h, s).value.1);
      if t[0] == COMMA {
        var more := ParseElements(h, SkipSpace(t[1..]));
        ParseElementsGenuine(h, SkipSpace(t[1..]));
        var first, all := ParseValue(h, s).value.0, ParseElements(h, s).value.0;
        assert all == [first] + more.value.0;
        forall i | 0 <= i < |all| ensures Genuine(h.near, all[i]) {
          assert all[i] == if i == 0 then first else more.value.0[i - 1];
        }
      }
    }
  }

  lemma {:induction false} ParsePairsGenuine(h: Hooks, s: Text)
    requires Idempotent(h.near)
    ensures var r := ParsePairs(h, s);
            r.Some? ==> forall i :: 0 <= i < |r.value.0| ==> Genuine(h.near, r.value.0[i].value)
    decreases |s|, 1
  {
    if ParsePairs(h, s).Some? {
      ParsePairGenuine(h, s);
      var t := SkipSpace(ParsePair(h, s).value.1);
      if t[0] == COMMA {
        var more := ParsePairs(h, SkipSpace(t[1..]));
        ParsePairsGenuine(h, SkipSpace(t[1..]));
        var first, all := ParsePair(h, s).value.0, ParsePairs(h, s).value.0;
        assert all == [first] + more.value.0;
        forall i | 0 <= i < |all| ensures Genuine(h.near, all[i].value) {
          assert all[i] == if i == 0 then first else more.value.0[i - 1];
        }
      }
    }
  }

  lemma {:induction false} ParsePairGenuine(h: Hooks, s: Text)
    requires Idempotent(h.near)
    ensures ParsePair(h, s).Some? ==> Genuine(h.near, ParsePair(h, s).value.0.value)
    decreases |s|, 0
  {
    if ParsePair(h, s).Some? {
      var colon := SkipSpace(ParseString(s[1..]).value.1);
      ParseGenuine(h, SkipSpace(colon[1..]));
    }
  }

  /** What a decoder may return: a frozen object without whole floats. */
  ghost predicate Decoded(near: Rounding, v: Json) {
    Frozen(near, v, 0) && v.Obj? && Decodable(v) && Canon(v) == v
  }

  /** The decoder accepts a byte string exactly when it is the canonical encoding of the
      object it returns; every other spelling of that object is refused. */
  lemma {:induction false} DecodeIffCanonical(near: Rounding, bytes: Bytes, v: Json)
    requires Idempotent(near)
    ensures DecodeCanonical(near, bytes) == Some(v) <==> Decoded(near, v) && bytes == Utf8(Render(v))
  {
    if DecodeCanonical(near, bytes) == Some(v) {
      var h := Hooks(near, true);
      var text := DecodeUtf8(bytes).value;
      ParseGenuine(h, SkipSpace(text));
      FreezeSound(near, Loads(h, text).value, 0);
      FreezeThaw(near, v, 0);
      DecodeEncode(near, v);
    }
    if Decoded(near, v) && bytes == Utf8(Render(v)) {
      DecodeEncode(near, v);
    }
  }

  /** Two frozen values have the same bytes exactly when they are equal up to writing
      whole floats as integers. */
  lemma {:induction false} EncodingInjective(near: Rounding, v: Json, w: Json)
    requires Sound(near, v) && Sound(near, w)
    ensures Utf8(Render(v)) == Utf8(Render(w)) <==> Canon(v) == Canon(w)
  {
    CanonText(near, v);
    CanonText(near, w);
    if Utf8(Render(v)) == Utf8(Render(w)) {
      NoLineBreaks(near, v);
      NoLineBreaks(near, w);
      Utf8RoundTrip(Render(v));
      Utf8RoundTrip(Render(w));
      LoadsRendered(Hooks(near, false), v);
      LoadsRendered(Hooks(near, false), w);
      ThawInjective(Canon(v), Canon(w));
    }
  }

  lemma {:induction false} ThawInjective(v: Json, w: Json)
    requires Thaw(v) == Thaw(w)
    ensures v == w
    decreases v
  {
    match v
    case Arr(items) => ThawItemsInjective(items, w.items);
    case Obj(entries) => ThawEntriesInjective(entries, w.entries);
    case _ =>
  }

  lemma {:induction false} ThawItemsInjective(a: seq<Json>, b: seq<Json>)
    requires ThawItems(a) == ThawItems(b)
    ensures a == b
    decreases a
  {
    assert |ThawItems(a)| == |a| && |ThawItems(b)| == |b|;
    if a != [] {
      assert ThawItems(a)[1..] == ThawItems(a[1..]) && ThawItems(b)[1..] == ThawItems(b[1..]);
      ThawInjective(a[0], b[0]);
      ThawItemsInjective(a[1..], b[1..]);
      assert a == [a[0]] + a[1..] && b == [b[0]] + b[1..];
    }
  }

  lemma {:induction false} ThawEntriesInjective(a: seq<Entry>, b: seq<Entry>)
    requires ThawEntries(a) == ThawEntries(b)
    ensures a == b
    decreases a
  {
    assert |ThawEntries(a)| == |a| && |ThawEntries(b)| == |b|;
    if a != [] {
      assert ThawEntries(a)[1..] == ThawEntries(a[1..]) && ThawEntries(b)[1..] == ThawEntries(b[1..]);
      ThawInjective(a[0].value, b[0].value);
      ThawEntriesInjective(a[1..], b[1..]);
      assert a == [a[0]] + a[1..] && b == [b[0]] + b[1..];
    }
  }
}
