/** Python text as code points, its two encodings used by the program, and bytes.
    A Python string may hold lone surrogates, so `Text` may too. */
module Text {
  import opened Ordering

  type CodePoint = c: int | 0 <= c < 0x110000
  type Text = seq<CodePoint>
  type Byte = b: int | 0 <= b < 0x100
  type Bytes = seq<Byte>

  const DOT: CodePoint := '.' as int
  const PLUS: CodePoint := '+' as int
  const MINUS: CodePoint := '-' as int
  const ZERO: CodePoint := '0' as int
  const NINE: CodePoint := '9' as int
  const SMALL_E: CodePoint := 'e' as int
  const BIG_E: CodePoint := 'E' as int

  function Ascii(s: string): Text {
    seq(|s|, i requires 0 <= i < |s| => s[i] as int)
  }

  predicate IsSurrogate(c: CodePoint) {
    0xD800 <= c <= 0xDFFF
  }

  /** The text `_require_scalar_text` admits: no surrogate code point. */
  predicate Scalar(s: Text) {
    forall i :: 0 <= i < |s| ==> !IsSurrogate(s[i])
  }

  // ----- UTF-8 -----

  function EncodePoint(c: CodePoint): Bytes {
    if c < 0x80 then [c]
    else if c < 0x800 then [0xC0 + c / 0x40, 0x80 + c % 0x40]
    else if c < 0x10000 then [0xE0 + c / 0x1000, 0x80 + c / 0x40 % 0x40, 0x80 + c % 0x40]
    else [0xF0 + c / 0x40000, 0x80 + c / 0x1000 % 0x40, 0x80 + c / 0x40 % 0x40, 0x80 + c % 0x40]
  }

  function Utf8(s: Text): Bytes {
    if s == [] then [] else EncodePoint(s[0]) + Utf8(s[1..])
  }

  predicate IsTail(b: Byte) {
    0x80 <= b < 0xC0
  }

  function Payload(b: Byte, marker: int): int {
    b - marker
  }

  /** One strictly decoded code point and the number of bytes it took: overlong forms,
      surrogates and values past U+10FFFF are rejected. */
  function DecodePoint(b: Bytes): (r: Option<(CodePoint, nat)>)
    requires b != []
    ensures r.Some? ==> 1 <= r.value.1 <= |b|
  {
    if b[0] < 0x80 then Some((b[0], 1))
    else if 0xC2 <= b[0] < 0xE0 && |b| >= 2 && IsTail(b[1]) then
      var c: int := 0x40 * Payload(b[0], 0xC0) + Payload(b[1], 0x80);
      Some((c, 2))
    else if 0xE0 <= b[0] < 0xF0 && |b| >= 3 && IsTail(b[1]) && IsTail(b[2]) then
      var c: int := 0x1000 * Payload(b[0], 0xE0) + 0x40 * Payload(b[1], 0x80) + Payload(b[2], 0x80);
      if c < 0x800 || IsSurrogate(c) then None else Some((c, 3))
    else if 0xF0 <= b[0] < 0xF5 && |b| >= 4 && IsTail(b[1]) && IsTail(b[2]) && IsTail(b[3]) then
      var c: int := 0x40000 * Payload(b[0], 0xF0) + 0x1000 * Payload(b[1], 0x80)
                    + 0x40 * Payload(b[2], 0x80) + Payload(b[3], 0x80);
      if 0x10000 <= c < 0x110000 then Some((c, 4)) else None
    else None
  }

  /** `value.decode("utf-8", errors="strict")`. */
  function DecodeUtf8(b: Bytes): Option<Text> {
    if b == [] then Some([])
    else match DecodePoint(b)
      case None => None
      case Some((c, n)) =>
        match DecodeUtf8(b[n..])
        case None => None
        case Some(rest) => Some([c] + rest)
  }

  lemma {:induction false} DecodePointInverts(c: CodePoint, rest: Bytes)
    requires !IsSurrogate(c)
    ensures DecodePoint(EncodePoint(c) + rest) == Some((c, |EncodePoint(c)|))
  {
    var e := EncodePoint(c);
    var b := e + rest;
    assert forall i :: 0 <= i < |e| ==> b[i] == e[i];
    if c >= 0x10000 {
      assert c / 0x40 / 0x40 == c / 0x1000 && c / 0x1000 / 0x40 == c / 0x40000;
    } else if c >= 0x800 {
      assert c / 0x40 / 0x40 == c / 0x1000;
    }
  }

  lemma {:induction false} Utf8RoundTrip(s: Text)
    requires Scalar(s)
    ensures DecodeUtf8(Utf8(s)) == Some(s)
  {
    if s != [] {
      var e := EncodePoint(s[0]);
      var tail := Utf8(s[1..]);
      DecodePointInverts(s[0], tail);
      assert (e + tail)[|e|..] == tail;
      Utf8RoundTrip(s[1..]);
      assert s == [s[0]] + s[1..];
    }
  }

  /** A byte below 0x80 occurs in the encoding only where that code point occurs. */
  lemma {:induction false} Utf8Ascii(s: Text, b: Byte)
    requires b < 0x80
    ensures b in Utf8(s) <==> b in s
  {
    if s != [] {
      Utf8Ascii(s[1..], b);
      var e := EncodePoint(s[0]);
      assert b in e <==> b == s[0];
      assert s == [s[0]] + s[1..];
      assert b in Utf8(s) <==> b in e || b in Utf8(s[1..]);
    }
  }

  // ----- UTF-16, the key order of canonical objects -----

  function Utf16Units(c: CodePoint): Key {
    if c < 0x10000 then [c] else [0xD800 + (c - 0x10000) / 0x400, 0xDC00 + (c - 0x10000) % 0x400]
  }

  /** `value.encode("utf-16-be")`, as 16-bit units. Every unit is two bytes, high byte
      first, so comparing units and comparing bytes give the same order. */
  function Utf16Key(s: Text): Key {
    if s == [] then [] else Utf16Units(s[0]) + Utf16Key(s[1..])
  }

  lemma {:induction false} Utf16Injective(a: Text, b: Text)
    requires Scalar(a) && Scalar(b) && Utf16Key(a) == Utf16Key(b)
    ensures a == b
  {
    if a == [] || b == [] {
      assert a == [] && b == [];
    } else {
      var x, y := Utf16Units(a[0]), Utf16Units(b[0]);
      var p, q := Utf16Key(a[1..]), Utf16Key(b[1..]);
      assert (x + p)[0] == x[0] && (y + q)[0] == y[0];
      assert |x| == |y|;
      assert p == (x + p)[|x|..] && q == (y + q)[|y|..];
      assert x == (x + p)[..|x|] && y == (y + q)[..|y|];
      assert a[0] == b[0] by { assert x[|x| - 1] == y[|y| - 1]; }
      Utf16Injective(a[1..], b[1..]);
      assert a == [a[0]] + a[1..] && b == [b[0]] + b[1..];
    }
  }
}
