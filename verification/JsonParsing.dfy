/** `json.loads` with the hooks the decoder installs, the nesting scanner that runs
    before it, and the decoder of canonical objects. */
module JsonParsing {
  import opened Ordering
  import opened Text
  import opened Decimals
  import opened Numbers
  import opened CanonicalJson

  /** What the caller plugs into `json.loads`: float rounding, and whether the integer
      hook that refuses literals outside 64 bits is installed. */
  datatype Hooks = Hooks(near: Rounding, bounded: bool)

  // ----- strings -----

  predicate IsHex(c: CodePoint) {
    IsDigit(c) || 'a' as int <= c <= 'f' as int || 'A' as int <= c <= 'F' as int
  }

  function HexValue(c: CodePoint): (v: int)
    requires IsHex(c)
    ensures 0 <= v < 16
  {
    if IsDigit(c) then c - ZERO else if c >= 'a' as int then c - 'a' as int + 10 else c - 'A' as int + 10
  }

  /** Four hexadecimal digits at the start of a text. */
  function HexUnit(s: Text): (r: Option<int>)
    ensures r.Some? ==> |s| >= 4 && 0 <= r.value < 0x10000
  {
    if |s| < 4 || !IsHex(s[0]) || !IsHex(s[1]) || !IsHex(s[2]) || !IsHex(s[3]) then None
    else Some(HexValue(s[0]) * 0x1000 + HexValue(s[1]) * 0x100 + HexValue(s[2]) * 0x10 + HexValue(s[3]))
  }

  /** The escape after a backslash; a \u pair of surrogates joins to one code point. */
  function ParseEscape(s: Text): (r: Option<(CodePoint, Text)>)
    ensures r.Some? ==> |r.value.1| < |s|
  {
    if s == [] then None
    else if s[0] == QUOTE || s[0] == BACKSLASH || s[0] == '/' as int then Some((s[0], s[1..]))
    else if s[0] == 'b' as int then Some((0x08, s[1..]))
    else if s[0] == 'f' as int then Some((0x0C, s[1..]))
    else if s[0] == 'n' as int then Some((0x0A, s[1..]))
    else if s[0] == 'r' as int then Some((0x0D, s[1..]))
    else if s[0] == 't' as int then Some((0x09, s[1..]))
    else if s[0] != 'u' as int then None
    else
      match HexUnit(s[1..])
      case None => None
      case Some(high) =>
        var rest := s[5..];
        if 0xD800 <= high < 0xDC00 && |rest| >= 2 && rest[0] == BACKSLASH && rest[1] == 'u' as int then
          match HexUnit(rest[2..])
          case None => None
          case Some(low) =>
            if 0xDC00 <= low < 0xE000 then
              Some((0x10000 + (high - 0xD800) * 0x400 + (low - 0xDC00), rest[6..]))
            else Some((high, rest))
        else Some((high, rest))
  }

  /** The contents of a string after its opening quote, and what follows the closing one. */
  function ParseString(s: Text): (r: Option<(Text, Text)>)
    ensures r.Some? ==> |r.value.1| < |s|
    decreases |s|
  {
    if s == [] then None
    else if s[0] == QUOTE then Some(([], s[1..]))
    else if s[0] == BACKSLASH then
      match ParseEscape(s[1..])
      case None => None
      case Some((c, rest)) => Consed(c, ParseString(rest))
    else if s[0] < 0x20 then None
    else Consed(s[0], ParseString(s[1..]))
  }

  function Consed<T>(x: T, r: Option<(seq<T>, Text)>): Option<(seq<T>, Text)> {
    match r
    case None => None
    case Some((more, rest)) => Some(([x] + more, rest))
  }

  // ----- values -----

  predicate IsSpace(c: CodePoint) {
    c == 0x20 || c == 0x09 || c == 0x0A || c == 0x0D
  }

  function SkipSpace(s: Text): (r: Text)
    ensures |r| <= |s|
  {
    if s != [] && IsSpace(s[0]) then SkipSpace(s[1..]) else s
  }

  function NumberValue(h: Hooks, t: Token): Option<Raw> {
    if IsInteger(t) then
      if h.bounded && !Signed64(IntegerValue(t)) then None else Some(RInt(IntegerValue(t)))
    else
      match h.near(ToDecimal(t))
      case None => None
      case Some(d) => Some(RFloat(Finite(d)))
  }

  function ParseNumber(h: Hooks, s: Text): (r: Option<(Raw, Text)>)
    ensures r.Some? ==> |r.value.1| < |s|
  {
    match LexNumber(s)
    case None => None
    case Some((t, rest)) =>
      match NumberValue(h, t)
      case None => None
      case Some(v) => Some((v, rest))
  }

  /** One JSON value at the start of a text. The literals NaN and Infinity, which
      `json.loads` would accept, end in the constant hook and are refused. */
  function ParseValue(h: Hooks, s: Text): (r: Option<(Raw, Text)>)
    ensures r.Some? ==> |r.value.1| < |s|
    decreases |s|, 0
  {
    if s == [] then None
    else if s[0] == QUOTE then
      match ParseString(s[1..])
      case None => None
      case Some((text, rest)) => Some((RText(text), rest))
    else if s[0] == OPEN_DICT then
      var t := SkipSpace(s[1..]);
      if t != [] && t[0] == CLOSE_DICT then Some((RDict([]), t[1..]))
      else
        match ParsePairs(h, t)
        case None => None
        case Some((pairs, rest)) => if UniquePairs(pairs) then Some((RDict(pairs), rest)) else None
    else if s[0] == OPEN_LIST then
      var t := SkipSpace(s[1..]);
      if t != [] && t[0] == CLOSE_LIST then Some((RList([]), t[1..]))
      else
        match ParseElements(h, t)
        case None => None
        case Some((items, rest)) => Some((RList(items), rest))
    else if NULL_TEXT <= s then Some((RNull, s[4..]))
    else if TRUE_TEXT <= s then Some((RBool(true), s[4..]))
    else if FALSE_TEXT <= s then Some((RBool(false), s[5..]))
    else ParseNumber(h, s)
  }

  function ParseElements(h: Hooks, s: Text): (r: Option<(seq<Raw>, Text)>)
    ensures r.Some? ==> |r.value.1| < |s|
    decreases |s|, 1
  {
    match ParseValue(h, s)
    case None => None
    case Some((item, rest)) =>
      var t := SkipSpace(rest);
      if t == [] then None
      else if t[0] == CLOSE_LIST then Some(([item], t[1..]))
      else if t[0] == COMMA then Consed(item, ParseElements(h, SkipSpace(t[1..])))
      else None
  }

  /** One member of an object: a name, a colon and a value. */
  function ParsePair(h: Hooks, s: Text): (r: Option<(Pair, Text)>)
    ensures r.Some? ==> |r.value.1| < |s|
    decreases |s|, 1
  {
    if s == [] || s[0] != QUOTE then None
    else
      match ParseString(s[1..])
      case None => None
      case Some((name, afterName)) =>
        var colon := SkipSpace(afterName);
        if colon == [] || colon[0] != COLON then None
        else
          match ParseValue(h, SkipSpace(colon[1..]))
          case None => None
          case Some((value, rest)) => Some((Pair(name, value), rest))
  }

  function ParsePairs(h: Hooks, s: Text): (r: Option<(seq<Pair>, Text)>)
    ensures r.Some? ==> |r.value.1| < |s|
    decreases |s|, 2
  {
    match ParsePair(h, s)
    case None => None
    case Some((pair, rest)) =>
      var t := SkipSpace(rest);
      if t == [] then None
      else if t[0] == CLOSE_DICT then Some(([pair], t[1..]))
      else if t[0] == COMMA then Consed(pair, ParsePairs(h, SkipSpace(t[1..])))
      else None
  }

  function Loads(h: Hooks, text: Text): Option<Raw> {
    match ParseValue(h, SkipSpace(text))
    case None => None
    case Some((value, rest)) => if SkipSpace(rest) == [] then Some(value) else None
  }

  // ----- the nesting scanner -----

  /** Whether the scan accepts the rest of a text from the given state. */
  predicate Scan(s: Text, depth: int, inString: bool, escaped: bool)
    decreases |s|
  {
    if s == [] then !inString && !escaped && depth == 0
    else if inString then
      if escaped then Scan(s[1..], depth, true, false)
      else if s[0] == BACKSLASH then Scan(s[1..], depth, true, true)
      else if s[0] == QUOTE then Scan(s[1..], depth, false, escaped)
      else Scan(s[1..], depth, true, escaped)
    else if s[0] == QUOTE then Scan(s[1..], depth, true, escaped)
    else if s[0] == OPEN_LIST || s[0] == OPEN_DICT then
      depth + 1 <= MAX_JSON_DEPTH && Scan(s[1..], depth + 1, false, escaped)
    else if s[0] == CLOSE_LIST || s[0] == CLOSE_DICT then
      depth - 1 >= 0 && Scan(s[1..], depth - 1, false, escaped)
    else Scan(s[1..], depth, false, escaped)
  }

  /** `_require_bounded_nesting`: one pass over the text with three changing locals. */
  method RequireBoundedNesting(value: Text) returns (ok: bool)
    ensures ok == Scan(value, 0, false, false)
  {
    var depth, inString, escaped := 0, false, false;
    assert value[0..] == value;
    for k := 0 to |value|
      invariant Scan(value, 0, false, false) == Scan(value[k..], depth, inString, escaped)
    {
      var character := value[k];
      assert value[k..][1..] == value[k + 1..];
      if inString {
        if escaped {
          escaped := false;
        } else if character == BACKSLASH {
          escaped := true;
        } else if character == QUOTE {
          inString := false;
        }
        continue;
      }
      if character == QUOTE {
        inString := true;
      } else if character == OPEN_LIST || character == OPEN_DICT {
        depth := depth + 1;
        if depth > MAX_JSON_DEPTH { return false; }
      } else if character == CLOSE_LIST || character == CLOSE_DICT {
        depth := depth - 1;
        if depth < 0 { return false; }
      }
    }
    return !(inString || escaped || depth != 0);
  }

  // ----- the decoder of canonical objects -----

  const BYTE_ORDER_MARK: CodePoint := 0xFEFF

  /** `decode_canonical_json_object`. */
  function DecodeCanonical(near: Rounding, value: Bytes): Option<Json> {
    if value == [] then None
    else
      match DecodeUtf8(value)
      case None => None
      case Some(text) =>
        if text != [] && text[0] == BYTE_ORDER_MARK then None
        else if !Scan(text, 0, false, false) then None
        else
          match Loads(Hooks(near, true), text)
          case None => None
          case Some(decoded) =>
            match Freeze(decoded, 0)
            case None => None
            case Some(detached) =>
              if detached.Obj? && CanonicalBytes(Thaw(detached)) == Some(value) then Some(detached) else None
  }

  // ----- canonical text with a continuation -----

  function EmitEscaped(s: Text, rest: Text): Text {
    if s == [] then rest else EscapeChar(s[0]) + EmitEscaped(s[1..], rest)
  }

  function EmitString(s: Text, rest: Text): Text {
    [QUOTE] + EmitEscaped(s, [QUOTE] + rest)
  }

  /** The canonical text of a value, followed by `rest`. */
  function Emit(v: Json, rest: Text): Text
    decreases v
  {
    match v
    case Arr(items) => [OPEN_LIST] + EmitItems(items, [CLOSE_LIST] + rest)
    case Obj(entries) => [OPEN_DICT] + EmitEntries(entries, [CLOSE_DICT] + rest)
    case Str(s) => EmitString(s, rest)
    case _ => Render(v) + rest
  }

  function EmitItems(items: seq<Json>, rest: Text): Text
    decreases items
  {
    if items == [] then rest
    else Emit(items[0], if |items| == 1 then rest else [COMMA] + EmitItems(items[1..], rest))
  }

  function EmitEntries(entries: seq<Entry>, rest: Text): Text
    decreases entries
  {
    if entries == [] then rest
    else
      EmitString(entries[0].name, [COLON] +
        Emit(entries[0].value, if |entries| == 1 then rest else [COMMA] + EmitEntries(entries[1..], rest)))
  }

  lemma {:induction false} EmitEscapedIs(s: Text, rest: Text)
    ensures EmitEscaped(s, rest) == Escaped(s) + rest
  {
    if s == [] {
      assert [] + rest == rest;
    } else {
      EmitEscapedIs(s[1..], rest);
      Assoc(EscapeChar(s[0]), Escaped(s[1..]), rest);
    }
  }

  lemma {:induction false} EmitStringIs(s: Text, rest: Text)
    ensures EmitString(s, rest) == StringText(s) + rest
  {
    EmitEscapedIs(s, [QUOTE] + rest);
    Assoc([QUOTE] + Escaped(s), [QUOTE], rest);
    Assoc([QUOTE], Escaped(s), [QUOTE] + rest);
  }

  lemma {:induction false} EmitIs(v: Json, rest: Text)
    ensures Emit(v, rest) == Render(v) + rest
    decreases v
  {
    match v
    case Arr(items) =>
      EmitItemsIs(items, [CLOSE_LIST] + rest);
      Bracketed(OPEN_LIST, RenderItems(items), CLOSE_LIST, rest);
    case Obj(entries) =>
      EmitEntriesIs(entries, [CLOSE_DICT] + rest);
      Bracketed(OPEN_DICT, RenderEntries(entries), CLOSE_DICT, rest);
    case Str(s) =>
      EmitStringIs(s, rest);
    case _ =>
  }

  lemma {:induction false} Bracketed(open: CodePoint, body: Text, close: CodePoint, rest: Text)
    ensures [open] + (body + ([close] + rest)) == ([open] + body + [close]) + rest
  {
    Assoc([open] + body, [close], rest);
    Assoc([open], body, [close] + rest);
  }

  lemma {:induction false} EmitItemsIs(items: seq<Json>, rest: Text)
    ensures EmitItems(items, rest) == RenderItems(items) + rest
    decreases items
  {
    if items == [] {
      assert [] + rest == rest;
    } else if |items| == 1 {
      EmitIs(items[0], rest);
      assert Render(items[0]) + [] == Render(items[0]);
    } else {
      var more := RenderItems(items[1..]);
      EmitItemsIs(items[1..], rest);
      EmitIs(items[0], [COMMA] + EmitItems(items[1..], rest));
      Assoc([COMMA], more, rest);
      Assoc(Render(items[0]), [COMMA] + more, rest);
    }
  }

  lemma {:induction false} EmitEntriesIs(entries: seq<Entry>, rest: Text)
    ensures EmitEntries(entries, rest) == RenderEntries(entries) + rest
    decreases entries
  {
    if entries == [] {
      assert [] + rest == rest;
    } else {
      var name, value := StringText(entries[0].name), Render(entries[0].value);
      var more := if |entries| == 1 then [] else [COMMA] + RenderEntries(entries[1..]);
      var tail := if |entries| == 1 then rest else [COMMA] + EmitEntries(entries[1..], rest);
      assert tail == more + rest by {
        if |entries| == 1 {
          assert [] + rest == rest;
        } else {
          EmitEntriesIs(entries[1..], rest);
          Assoc([COMMA], RenderEntries(entries[1..]), rest);
        }
      }
      EmitIs(entries[0].value, tail);
      EmitStringIs(entries[0].name, [COLON] + (value + tail));
      EntryText(name, value, more, rest);
    }
  }

  lemma {:induction false} EntryText(name: Text, value: Text, more: Text, rest: Text)
    ensures name + ([COLON] + (value + (more + rest))) == (name + [COLON] + value + more) + rest
  {
    Assoc(name + [COLON] + value, more, rest);
    Assoc(name + [COLON], value, more + rest);
    Assoc(name, [COLON], value + (more + rest));
  }
}
