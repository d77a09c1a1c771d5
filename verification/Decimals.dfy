/** Rendering of binary64 values and integers, and the lexing of JSON numbers.

    A finite binary64 value is carried as the decimal that Python's `repr` prints for
    it: the shortest digits that read back as the same value. */
module Decimals {
  import opened Ordering
  import opened Text

  type Digit = d: int | 0 <= d < 10
  type Digits = seq<Digit>

  /** The value +-d0.d1d2... * 10^exponent; zero is the empty digit string. */
  datatype Decimal = Decimal(negative: bool, digits: Digits, exponent: int)

  predicate Normal(d: Decimal) {
    if d.digits == [] then d.exponent == 0
    else d.digits[0] != 0 && d.digits[|d.digits| - 1] != 0
  }

  function Zeros(n: nat): Digits {
    seq(n, _ => 0)
  }

  function DigitText(ds: Digits): (r: Text)
    ensures |r| == |ds|
  {
    seq(|ds|, i requires 0 <= i < |ds| => ZERO + ds[i])
  }

  lemma {:induction false} DigitTextConcat(a: Digits, b: Digits)
    ensures DigitText(a + b) == DigitText(a) + DigitText(b)
  {
  }

  lemma {:induction false} DigitTextSlices(ds: Digits, k: nat)
    requires k <= |ds|
    ensures DigitText(ds)[..k] == DigitText(ds[..k]) && DigitText(ds)[k..] == DigitText(ds[k..])
  {
  }

  function NatValue(ds: Digits): nat {
    if ds == [] then 0 else 10 * NatValue(ds[..|ds| - 1]) + ds[|ds| - 1]
  }

  function NatDigits(n: nat): (ds: Digits)
    ensures ds != [] && NatValue(ds) == n
    ensures ds[0] == 0 ==> ds == [0]
  {
    if n < 10 then
      assert NatValue([n]) == 10 * NatValue([]) + n;
      [n]
    else
      var front := NatDigits(n / 10);
      assert (front + [n % 10])[..|front|] == front;
      front + [n % 10]
  }

  function Magnitude(n: int): nat {
    if n < 0 then -n else n
  }

  /** `str(n)` for a Python integer. */
  function IntText(n: int): Text {
    Sign(n < 0) + DigitText(NatDigits(Magnitude(n)))
  }

  function Sign(negative: bool): Text {
    if negative then [MINUS] else []
  }

  // ----- repr, and the program's rewriting of it -----

  /** Digits with the point after position `exponent`, which may lie outside them. */
  function Plain(ds: Digits, exponent: int): Text {
    if exponent < 0 then [ZERO, DOT] + DigitText(Zeros(-exponent - 1) + ds)
    else if |ds| <= exponent + 1 then DigitText(ds + Zeros(exponent + 1 - |ds|))
    else DigitText(ds[..exponent + 1]) + [DOT] + DigitText(ds[exponent + 1..])
  }

  function Mantissa(ds: Digits): Text
    requires ds != []
  {
    DigitText(ds[..1]) + if |ds| > 1 then [DOT] + DigitText(ds[1..]) else []
  }

  /** Python's `repr` of a positive finite float: positional for exponents -4 to 15,
      with ".0" after a whole number, otherwise with an exponent of two digits or more. */
  function Repr(ds: Digits, exponent: int): Text
    requires ds != []
  {
    if -4 <= exponent < 16 then
      Plain(ds, exponent) + if |ds| <= exponent + 1 then [DOT, ZERO] else []
    else
      Mantissa(ds) + [SMALL_E, if exponent < 0 then MINUS else PLUS]
      + DigitText(if Magnitude(exponent) < 10 then [0, Magnitude(exponent)] else NatDigits(Magnitude(exponent)))
  }

  /** `raw.split("e", 1)`: the text before and after the first "e", if there is one. */
  function SplitAtE(raw: Text): Option<(Text, Text)> {
    if raw == [] then None
    else if raw[0] == SMALL_E then Some(([], raw[1..]))
    else match SplitAtE(raw[1..])
      case None => None
      case Some((before, after)) => Some(([raw[0]] + before, after))
  }

  /** `mantissa.replace(".", "")`. */
  function WithoutDots(s: Text): Text {
    if s == [] then [] else (if s[0] == DOT then [] else [s[0]]) + WithoutDots(s[1..])
  }

  /** `int(text)` for a signed run of decimal digits. */
  function ParseSigned(s: Text): int {
    if s != [] && s[0] == MINUS then -(NatValue(TakeDigits(s[1..]).0) as int)
    else NatValue(TakeDigits(if s != [] && s[0] == PLUS then s[1..] else s).0)
  }

  function SignedText(n: int): Text {
    (if n >= 0 then [PLUS] else []) + IntText(n)
  }

  /** The second half of `_encode_binary64`: positional or scientific text from the digits
      and the exponent found in an exponent-form `repr`. The float comparison
      `1e-6 <= absolute < 1e21` is a comparison of the value's own exponent, `scale`,
      since shortest decimals are ordered as their values. */
  function Rewritten(scale: int, exponent: int, digits: Text): Text {
    if -6 <= scale < 21 then
      var position := exponent + 1;
      if position <= 0 then [ZERO, DOT] + DigitText(Zeros(-position)) + digits
      else if position >= |digits| then digits + DigitText(Zeros(position - |digits|))
      else digits[..position] + [DOT] + digits[position..]
    else
      digits[..if digits == [] then 0 else 1] + (if |digits| > 1 then [DOT] + digits[1..] else [])
      + [SMALL_E] + ((if exponent >= 0 then [PLUS] else []) + IntText(exponent))
  }

  /** `_encode_binary64` on a finite value. */
  function EncodeBinary64(d: Decimal): Text
    requires Normal(d)
  {
    if d.digits == [] then [ZERO]
    else
      var raw := Repr(d.digits, d.exponent);
      match SplitAtE(raw)
      case None =>
        Sign(d.negative) + if |raw| >= 2 && raw[|raw| - 2..] == [DOT, ZERO] then raw[..|raw| - 2] else raw
      case Some((mantissa, exponentText)) =>
        Sign(d.negative) + Rewritten(d.exponent, ParseSigned(exponentText), WithoutDots(mantissa))
  }

  /** The number form of the profile, stated directly: positional for exponents -6 to 20,
      otherwise a one-digit whole part and a signed exponent without padding. */
  function CanonicalForm(d: Decimal): Text
    requires Normal(d)
  {
    if d.digits == [] then [ZERO]
    else Sign(d.negative) + CanonicalMagnitude(d.digits, d.exponent)
  }

  function CanonicalMagnitude(ds: Digits, exponent: int): Text
    requires ds != []
  {
    if -6 <= exponent < 21 then Plain(ds, exponent)
    else Mantissa(ds) + [SMALL_E] + SignedText(exponent)
  }

  predicate IsDigit(c: CodePoint) {
    ZERO <= c <= NINE
  }

  /** The longest run of decimal digits a text starts with, and what follows it. */
  function TakeDigits(s: Text): (r: (Digits, Text))
    ensures |r.0| + |r.1| == |s|
    ensures s != [] && IsDigit(s[0]) ==> r.0 != []
  {
    if s == [] || !IsDigit(s[0]) then ([], s)
    else
      var (ds, rest) := TakeDigits(s[1..]);
      var d: int := s[0] - ZERO;
      ([d] + ds, rest)
  }

  lemma {:induction false} TakeDigitText(ds: Digits, rest: Text)
    requires rest == [] || !IsDigit(rest[0])
    ensures TakeDigits(DigitText(ds) + rest) == (ds, rest)
  {
    if ds == [] {
      assert DigitText(ds) + rest == rest;
    } else {
      TakeDigitText(ds[1..], rest);
      var text := DigitText(ds) + rest;
      assert text[1..] == DigitText(ds[1..]) + rest;
      assert text[0] == ZERO + ds[0];
      assert ds == [ds[0]] + ds[1..];
    }
  }

  lemma {:induction false} SplitPlain(s: Text, rest: Text)
    requires SMALL_E !in s
    ensures SplitAtE(s + [SMALL_E] + rest) == Some((s, rest))
    ensures SplitAtE(s) == None
  {
    var all := s + [SMALL_E] + rest;
    if s == [] {
      assert all[1..] == rest && all[0] == SMALL_E;
    } else {
      SplitPlain(s[1..], rest);
      assert all[1..] == s[1..] + [SMALL_E] + rest && all[0] == s[0];
      assert s == [s[0]] + s[1..];
    }
  }

  lemma {:induction false} NoDots(s: Text)
    requires DOT !in s
    ensures WithoutDots(s) == s
  {
    if s != [] {
      NoDots(s[1..]);
    }
  }

  lemma {:induction false} DotsConcat(s: Text, t: Text)
    ensures WithoutDots(s + t) == WithoutDots(s) + WithoutDots(t)
  {
    if s == [] {
      assert s + t == t;
    } else {
      DotsConcat(s[1..], t);
      assert (s + t)[1..] == s[1..] + t;
      Assoc(if s[0] == DOT then [] else [s[0]], WithoutDots(s[1..]), WithoutDots(t));
    }
  }

  lemma {:induction false} DigitsHaveNoMarks(ds: Digits)
    ensures DOT !in DigitText(ds) && SMALL_E !in DigitText(ds)
  {
  }

  lemma {:induction false} MantissaDigits(ds: Digits)
    requires ds != []
    ensures WithoutDots(Mantissa(ds)) == DigitText(ds)
  {
    var first, fraction := DigitText(ds[..1]), DigitText(ds[1..]);
    DigitsHaveNoMarks(ds[..1]);
    DigitsHaveNoMarks(ds[1..]);
    NoDots(first);
    NoDots(fraction);
    DigitTextSlices(ds, 1);
    hide DigitText;
    assert DigitText(ds) == first + fraction;
    if |ds| > 1 {
      DotsConcat(first, [DOT] + fraction);
      assert ([DOT] + fraction)[1..] == fraction;
      assert [] + fraction == fraction;
    } else {
      assert fraction == [] && first + [] == first;
    }
  }

  lemma {:induction false} ReprExponent(n: int)
    ensures var k := Magnitude(n);
            var text := DigitText(if k < 10 then [0, k] else NatDigits(k));
            ParseSigned([if n < 0 then MINUS else PLUS] + text) == n
  {
    var k := Magnitude(n);
    var ds: Digits := if k < 10 then [0, k] else NatDigits(k);
    var sign := [if n < 0 then MINUS else PLUS];
    if k < 10 {
      assert ds[..1] == [0] && NatValue(ds[..1]) == 10 * NatValue([]) + 0;
      assert NatValue(ds) == 10 * NatValue(ds[..1]) + ds[1];
    }
    TakeDigitText(ds, []);
    assert DigitText(ds) + [] == DigitText(ds);
    assert (sign + DigitText(ds))[1..] == DigitText(ds);
  }

  lemma {:induction false} RewrittenIsCanonical(ds: Digits, e: int)
    requires ds != []
    ensures Rewritten(e, e, DigitText(ds)) == CanonicalMagnitude(ds, e)
  {
    var digits := DigitText(ds);
    var position := e + 1;
    if -6 <= e < 21 {
      if position <= 0 {
        DigitTextConcat(Zeros(-position), ds);
        Assoc([ZERO, DOT], DigitText(Zeros(-position)), digits);
      } else if position >= |ds| {
        DigitTextConcat(ds, Zeros(position - |ds|));
      } else {
        DigitTextSlices(ds, position);
      }
    } else {
      DigitTextSlices(ds, 1);
      hide DigitText;
    }
    hide DigitText;
  }

  lemma {:induction false} PlainShape(ds: Digits, e: int)
    requires ds != []
    ensures SMALL_E !in Plain(ds, e)
    ensures |Plain(ds, e)| > 0
    ensures |ds| > e + 1 ==> Plain(ds, e)[|Plain(ds, e)| - 1] == ZERO + ds[|ds| - 1]
  {
    if e < 0 {
      var tail := DigitText(Zeros(-e - 1) + ds);
      assert Plain(ds, e) == [ZERO, DOT] + tail;
      assert tail[|tail| - 1] == ZERO + ds[|ds| - 1];
    } else if |ds| > e + 1 {
      var tail := DigitText(ds[e + 1..]);
      assert Plain(ds, e) == DigitText(ds[..e + 1]) + [DOT] + tail;
      assert tail[|tail| - 1] == ZERO + ds[|ds| - 1];
    }
  }

  lemma {:induction false} PositionalRepr(ds: Digits, e: int)
    requires ds != [] && ds[|ds| - 1] != 0 && -4 <= e < 16
    ensures SplitAtE(Repr(ds, e)) == None
    ensures var raw := Repr(ds, e);
            (if |raw| >= 2 && raw[|raw| - 2..] == [DOT, ZERO] then raw[..|raw| - 2] else raw) == Plain(ds, e)
  {
    PlainShape(ds, e);
    var plain, raw, suffix := Plain(ds, e), Repr(ds, e), [DOT, ZERO];
    SplitPlain(raw, []);
    if |ds| <= e + 1 {
      assert raw == plain + suffix;
    } else {
      assert raw == plain && raw[|raw| - 1] != suffix[1];
    }
  }

  lemma {:induction false} ExponentRepr(ds: Digits, e: int)
    requires ds != [] && !(-4 <= e < 16)
    ensures SplitAtE(Repr(ds, e)).Some?
    ensures var (mantissa, exponentText) := SplitAtE(Repr(ds, e)).value;
            WithoutDots(mantissa) == DigitText(ds) && ParseSigned(exponentText) == e
  {
    var k := Magnitude(e);
    var exponentText := [if e < 0 then MINUS else PLUS] + DigitText(if k < 10 then [0, k] else NatDigits(k));
    assert Repr(ds, e) == Mantissa(ds) + [SMALL_E] + exponentText;
    SplitPlain(Mantissa(ds), exponentText);
    MantissaDigits(ds);
    ReprExponent(e);
  }

  /** The textual rewriting of `repr` yields exactly the canonical number form. */
  lemma {:induction false} EncodeIsCanonical(d: Decimal)
    requires Normal(d)
    ensures EncodeBinary64(d) == CanonicalForm(d)
  {
    if d.digits != [] {
      if -4 <= d.exponent < 16 {
        PositionalRepr(d.digits, d.exponent);
      } else {
        ExponentRepr(d.digits, d.exponent);
        RewrittenIsCanonical(d.digits, d.exponent);
      }
    }
  }
}
