/** JSON number literals: their lexing, and the rational numbers they denote. */
module Numbers {
  import opened Ordering
  import opened Text
  import opened Decimals

  /** -whole.fraction e exponent; an absent fraction is empty. */
  datatype Token = Token(negative: bool, whole: Digits, fraction: Digits, exponent: Option<int>)

  predicate IsInteger(t: Token) {
    t.fraction == [] && t.exponent.None?
  }

  predicate WellFormed(t: Token) {
    t.whole != [] && (t.whole[0] == 0 ==> |t.whole| == 1)
  }

  function ExponentPart(exponent: Option<int>, rest: Text): Text {
    if exponent.None? then rest else [SMALL_E] + (SignedText(exponent.value) + rest)
  }

  function FractionPart(fraction: Digits, rest: Text): Text {
    if fraction == [] then rest else [DOT] + (DigitText(fraction) + rest)
  }

  /** The literal's text followed by `rest`. */
  function Spelled(t: Token, rest: Text): Text {
    Sign(t.negative) + (DigitText(t.whole) + FractionPart(t.fraction, ExponentPart(t.exponent, rest)))
  }

  function TokenText(t: Token): Text {
    Spelled(t, [])
  }

  // ----- the number pattern of Python's JSON scanner -----

  function LexWhole(s: Text): (r: Option<(Digits, Text)>)
    ensures r.Some? ==> |r.value.1| < |s|
  {
    if s == [] || !IsDigit(s[0]) then None
    else if s[0] == ZERO then Some(([0], s[1..]))
    else Some(TakeDigits(s))
  }

  function LexFraction(s: Text): (r: (Digits, Text))
    ensures |r.1| <= |s|
  {
    if |s| >= 2 && s[0] == DOT && IsDigit(s[1]) then TakeDigits(s[1..]) else ([], s)
  }

  function LexExponent(s: Text): (r: (Option<int>, Text))
    ensures |r.1| <= |s|
  {
    if s == [] || (s[0] != SMALL_E && s[0] != BIG_E) then (None, s)
    else
      var t := s[1..];
      var body := if t != [] && (t[0] == PLUS || t[0] == MINUS) then t[1..] else t;
      if body == [] || !IsDigit(body[0]) then (None, s)
      else (Some(ParseSigned(t)), TakeDigits(body).1)
  }

  function LexNumber(s: Text): (r: Option<(Token, Text)>)
    ensures r.Some? ==> |r.value.1| < |s|
  {
    var negative := s != [] && s[0] == MINUS;
    match LexWhole(if negative then s[1..] else s)
    case None => None
    case Some((whole, s1)) =>
      var (fraction, s2) := LexFraction(s1);
      var (exponent, s3) := LexExponent(s2);
      Some((Token(negative, whole, fraction, exponent), s3))
  }

  /** What may follow a number so that the pattern stops where the number ends. */
  predicate Stops(rest: Text) {
    rest == [] || !(IsDigit(rest[0]) || rest[0] == DOT || rest[0] == SMALL_E || rest[0] == BIG_E)
  }

  lemma {:induction false} SignedRun(k: int, rest: Text)
    requires rest == [] || !IsDigit(rest[0])
    ensures var t := SignedText(k) + rest;
            && t != [] && (t[0] == PLUS || t[0] == MINUS)
            && TakeDigits(t[1..]) == (NatDigits(Magnitude(k)), rest)
            && t[1..] != [] && IsDigit(t[1..][0]) && ParseSigned(t) == k
  {
    var digits := DigitText(NatDigits(Magnitude(k)));
    var sign := [if k < 0 then MINUS else PLUS];
    assert SignedText(k) == sign + digits;
    assert SignedText(k) + rest == sign + (digits + rest);
    TakeDigitText(NatDigits(Magnitude(k)), rest);
  }

  lemma {:induction false} LexSignedExponent(k: int, rest: Text)
    requires rest == [] || !IsDigit(rest[0])
    ensures LexExponent([SMALL_E] + (SignedText(k) + rest)) == (Some(k), rest)
  {
    SignedRun(k, rest);
  }

  lemma {:induction false} LexDottedFraction(fraction: Digits, rest: Text)
    requires fraction != [] && (rest == [] || !IsDigit(rest[0]))
    ensures LexFraction([DOT] + (DigitText(fraction) + rest)) == (fraction, rest)
  {
    TakeDigitText(fraction, rest);
    assert (DigitText(fraction) + rest)[0] == ZERO + fraction[0];
  }

  lemma {:induction false} LexPrintedWhole(whole: Digits, rest: Text)
    requires whole != [] && (whole[0] == 0 ==> |whole| == 1)
    requires rest == [] || !IsDigit(rest[0])
    ensures LexWhole(DigitText(whole) + rest) == Some((whole, rest))
    ensures (DigitText(whole) + rest)[0] != MINUS
  {
    var s := DigitText(whole) + rest;
    assert s[0] == ZERO + whole[0];
    if whole[0] == 0 {
      assert whole == [0] && s[|DigitText(whole)|..] == rest;
    } else {
      TakeDigitText(whole, rest);
    }
  }

  lemma {:induction false} ExponentFollowed(exponent: Option<int>, rest: Text)
    ensures ExponentPart(exponent, []) + rest == ExponentPart(exponent, rest)
  {
    if exponent.Some? {
      var k := SignedText(exponent.value);
      assert k + [] == k;
      Assoc([SMALL_E], k, rest);
    }
  }

  lemma {:induction false} FractionFollowed(fraction: Digits, s: Text, rest: Text)
    ensures FractionPart(fraction, s) + rest == FractionPart(fraction, s + rest)
  {
    Assoc([DOT], DigitText(fraction) + s, rest);
    Assoc(DigitText(fraction), s, rest);
  }

  lemma {:induction false} TokenFollowed(t: Token, rest: Text)
    ensures TokenText(t) + rest == Spelled(t, rest)
  {
    var e := ExponentPart(t.exponent, []);
    var f := FractionPart(t.fraction, e);
    ExponentFollowed(t.exponent, rest);
    FractionFollowed(t.fraction, e, rest);
    Assoc(Sign(t.negative), DigitText(t.whole) + f, rest);
    Assoc(DigitText(t.whole), f, rest);
  }

  /** The text of a token lexes back to that token, and the pattern stops at its end. */
  lemma {:induction false} LexToken(t: Token, rest: Text)
    requires WellFormed(t) && Stops(rest)
    ensures LexNumber(TokenText(t) + rest) == Some((t, rest))
  {
    var e := ExponentPart(t.exponent, rest);
    var f := FractionPart(t.fraction, e);
    TokenFollowed(t, rest);
    if t.exponent.Some? {
      LexSignedExponent(t.exponent.value, rest);
    }
    if t.fraction != [] {
      LexDottedFraction(t.fraction, e);
    }
    LexPrintedWhole(t.whole, f);
    var s := Sign(t.negative) + (DigitText(t.whole) + f);
    assert s[|Sign(t.negative)|..] == DigitText(t.whole) + f;
  }

  // ----- the tokens the encoder prints -----

  function TokenOf(d: Decimal): Token
    requires Normal(d)
  {
    var ds, e := d.digits, d.exponent;
    if ds == [] then Token(false, [0], [], None)
    else if !(-6 <= e < 21) then Token(d.negative, ds[..1], ds[1..], Some(e))
    else if e < 0 then Token(d.negative, [0], Zeros(-e - 1) + ds, None)
    else if |ds| <= e + 1 then Token(d.negative, ds + Zeros(e + 1 - |ds|), [], None)
    else Token(d.negative, ds[..e + 1], ds[e + 1..], None)
  }

  lemma {:induction false} CanonicalIsToken(d: Decimal)
    requires Normal(d)
    ensures WellFormed(TokenOf(d)) && CanonicalForm(d) == TokenText(TokenOf(d))
  {
    if d.digits == [] {
      PlainPart([0], []);
      assert DigitText([0]) == [ZERO];
    } else {
      var t := TokenOf(d);
      MagnitudeParts(d.digits, d.exponent, t);
    }
  }

  lemma {:induction false} MagnitudeParts(ds: Digits, e: int, t: Token)
    requires Normal(Decimal(t.negative, ds, e)) && ds != [] && t == TokenOf(Decimal(t.negative, ds, e))
    ensures WellFormed(t)
    ensures DigitText(t.whole) + FractionPart(t.fraction, ExponentPart(t.exponent, [])) == CanonicalMagnitude(ds, e)
  {
    if -6 <= e < 21 {
      PlainPart(t.whole, t.fraction);
      if e < 0 {
        var tail := DigitText(t.fraction);
        assert DigitText([0]) + [DOT] == [ZERO, DOT];
      }
    } else {
      ScientificPart(ds, e);
    }
  }

  lemma {:induction false} PlainPart(whole: Digits, fraction: Digits)
    ensures DigitText(whole) + FractionPart(fraction, ExponentPart(None, []))
         == if fraction == [] then DigitText(whole) else DigitText(whole) + [DOT] + DigitText(fraction)
  {
    if fraction == [] {
      assert DigitText(whole) + [] == DigitText(whole);
    } else {
      assert DigitText(fraction) + [] == DigitText(fraction);
      Assoc(DigitText(whole), [DOT], DigitText(fraction));
    }
  }

  lemma {:induction false} ScientificPart(ds: Digits, e: int)
    requires ds != []
    ensures DigitText(ds[..1]) + FractionPart(ds[1..], ExponentPart(Some(e), []))
         == Mantissa(ds) + [SMALL_E] + SignedText(e)
  {
    var k := SignedText(e);
    assert k + [] == k;
    var first, f := DigitText(ds[..1]), DigitText(ds[1..]);
    Assoc(Mantissa(ds), [SMALL_E], k);
    if |ds| > 1 {
      Assoc(first, [DOT] + f, [SMALL_E] + k);
      Assoc([DOT], f, [SMALL_E] + k);
    } else {
      assert Mantissa(ds) == first;
    }
  }

  function IntegerToken(n: int): Token {
    Token(n < 0, NatDigits(Magnitude(n)), [], None)
  }

  /** `int(text)` of an integer literal. */
  function IntegerValue(t: Token): int {
    if t.negative then -(NatValue(t.whole) as int) else NatValue(t.whole)
  }

  function StripLeading(ds: Digits): Digits {
    if ds != [] && ds[0] == 0 then StripLeading(ds[1..]) else ds
  }

  function StripTrailing(ds: Digits): Digits {
    if ds != [] && ds[|ds| - 1] == 0 then StripTrailing(ds[..|ds| - 1]) else ds
  }

  /** The exact decimal a literal denotes, before `float` rounds it to binary64. */
  function ToDecimal(t: Token): Decimal {
    var all := t.whole + t.fraction;
    var lead := StripLeading(all);
    var core := StripTrailing(lead);
    if core == [] then Decimal(t.negative, [], 0)
    else Decimal(t.negative, core, t.exponent.GetOr(0) + |t.whole| - 1 - (|all| - |lead|))
  }

  lemma {:induction false} StripLeadingZeros(n: nat, ds: Digits)
    requires ds != [] && ds[0] != 0
    ensures StripLeading(Zeros(n) + ds) == ds
  {
    if n == 0 {
      assert Zeros(0) + ds == ds;
    } else {
      StripLeadingZeros(n - 1, ds);
      assert (Zeros(n) + ds)[1..] == Zeros(n - 1) + ds;
    }
  }

  lemma {:induction false} StripTrailingZeros(ds: Digits, n: nat)
    requires ds != [] && ds[|ds| - 1] != 0
    ensures StripTrailing(ds + Zeros(n)) == ds
  {
    if n == 0 {
      assert ds + Zeros(0) == ds;
    } else {
      StripTrailingZeros(ds, n - 1);
      var all := ds + Zeros(n);
      assert all[..|all| - 1] == ds + Zeros(n - 1);
    }
  }

  /** A nonzero value's own literal denotes exactly that value. */
  lemma {:induction false} TokenDenotes(d: Decimal)
    requires Normal(d) && d.digits != []
    ensures ToDecimal(TokenOf(d)) == d
  {
    var ds, e := d.digits, d.exponent;
    var t := TokenOf(d);
    var all := t.whole + t.fraction;
    var k: nat := if -6 <= e < 0 then -e else 0;
    var m: nat := if 0 <= e < 21 && |ds| <= e + 1 then e + 1 - |ds| else 0;
    assert all == Zeros(k) + (ds + Zeros(m));
    StripLeadingZeros(k, ds + Zeros(m));
    StripTrailingZeros(ds, m);
  }

  // ----- the rational values denoted -----

  function Pow10(k: int): real
    decreases Magnitude(k)
  {
    if k == 0 then 1.0 else if k > 0 then 10.0 * Pow10(k - 1) else Pow10(k + 1) / 10.0
  }

  function Scaled(negative: bool, ds: Digits, scale: int): real {
    (if negative then -1.0 else 1.0) * (NatValue(ds) as real * Pow10(scale))
  }

  function TokenValue(t: Token): real {
    Scaled(t.negative, t.whole + t.fraction, t.exponent.GetOr(0) - |t.fraction|)
  }

  function DecimalValue(d: Decimal): real {
    Scaled(d.negative, d.digits, d.exponent + 1 - |d.digits|)
  }

  lemma {:induction false} LeadingZeros(ds: Digits)
    ensures NatValue([0] + ds) == NatValue(ds)
  {
    if ds == [] {
      assert [0] + ds == [0] && [0][..0] == [];
      assert NatValue([0]) == 10 * NatValue([]) + 0;
    } else {
      LeadingZeros(ds[..|ds| - 1]);
      var all := [0] + ds;
      assert all[..|all| - 1] == [0] + ds[..|ds| - 1];
    }
  }

  lemma {:induction false} StripLeadingValue(ds: Digits)
    ensures NatValue(StripLeading(ds)) == NatValue(ds)
  {
    if ds != [] && ds[0] == 0 {
      StripLeadingValue(ds[1..]);
      LeadingZeros(ds[1..]);
      assert ds == [0] + ds[1..];
    }
  }

  lemma {:induction false} TimesTen(n: nat, k: int)
    ensures (10 * n) as real * Pow10(k) == n as real * Pow10(k + 1)
  {
    assert Pow10(k + 1) == 10.0 * Pow10(k);
    assert (10 * n) as real == 10.0 * n as real;
  }

  lemma {:induction false} StripTrailingValue(ds: Digits, scale: int)
    ensures Scaled(false, StripTrailing(ds), scale + |ds| - |StripTrailing(ds)|) == Scaled(false, ds, scale)
  {
    if ds != [] && ds[|ds| - 1] == 0 {
      var front := ds[..|ds| - 1];
      StripTrailingValue(front, scale + 1);
      TimesTen(NatValue(front), scale);
      assert NatValue(ds) == 10 * NatValue(front);
    }
  }

  lemma {:induction false} ScaledSign(negative: bool, a: Digits, s: int, b: Digits, t: int)
    requires Scaled(false, a, s) == Scaled(false, b, t)
    ensures Scaled(negative, a, s) == Scaled(negative, b, t)
  {
  }

  lemma {:induction false} ScaledZero(negative: bool, scale: int)
    ensures Scaled(negative, [], scale) == 0.0
  {
  }

  lemma {:induction false} ScaledEqualDigits(a: Digits, b: Digits, scale: int)
    requires NatValue(a) == NatValue(b)
    ensures Scaled(false, a, scale) == Scaled(false, b, scale)
  {
  }

  /** Normalising a literal to shortest digits keeps the rational it denotes. */
  lemma {:induction false} ToDecimalValue(t: Token)
    ensures DecimalValue(ToDecimal(t)) == TokenValue(t)
  {
    var all := t.whole + t.fraction;
    var lead := StripLeading(all);
    var core := StripTrailing(lead);
    var scale := t.exponent.GetOr(0) - |t.fraction|;
    var coreScale := scale + |lead| - |core|;
    StripLeadingValue(all);
    StripTrailingValue(lead, scale);
    ScaledEqualDigits(lead, all, scale);
    ScaledSign(t.negative, core, coreScale, all, scale);
    if core == [] {
      ScaledZero(t.negative, coreScale);
      ScaledZero(t.negative, 1);
    }
  }

  /** The printed number, read as a rational, is the value that was printed. */
  lemma {:induction false} PrintedValue(d: Decimal)
    requires Normal(d)
    ensures exists t :: WellFormed(t) && EncodeBinary64(d) == TokenText(t) && TokenValue(t) == DecimalValue(d)
  {
    var t := TokenOf(d);
    EncodeIsCanonical(d);
    CanonicalIsToken(d);
    if d.digits == [] {
      assert t.whole + t.fraction == [0];
      LeadingZeros([]);
      assert [0] + [] == [0];
    } else {
      TokenDenotes(d);
      ToDecimalValue(t);
    }
  }

  // ----- integral values -----

  predicate Integral(d: Decimal)
    requires Normal(d)
  {
    IsInteger(TokenOf(d))
  }

  /** The Python integer that an integral float's text reads back as. */
  function IntegerOf(d: Decimal): int
    requires Normal(d)
  {
    IntegerValue(TokenOf(d))
  }

  lemma {:induction false} IntegerOfValue(d: Decimal)
    requires Normal(d) && Integral(d)
    ensures IntegerOf(d) as real == DecimalValue(d)
  {
    var t := TokenOf(d);
    assert t.whole + t.fraction == t.whole;
    assert TokenValue(t) == IntegerOf(d) as real;
    if d.digits == [] {
      assert [0] + [] == [0];
      LeadingZeros([]);
    } else {
      TokenDenotes(d);
      ToDecimalValue(t);
    }
  }

  lemma {:induction false} NatDigitsInverse(ds: Digits)
    requires ds != [] && (ds[0] == 0 ==> |ds| == 1)
    ensures NatDigits(NatValue(ds)) == ds
  {
    var front := ds[..|ds| - 1];
    if |ds| == 1 {
      assert NatValue(ds) == 10 * NatValue(front) + ds[0] && NatValue([]) == 0;
    } else {
      NatDigitsInverse(front);
      NatPositive(front);
      assert NatValue(ds) / 10 == NatValue(front) && NatValue(ds) % 10 == ds[|ds| - 1];
      assert ds == front + [ds[|ds| - 1]];
    }
  }

  lemma {:induction false} NatPositive(ds: Digits)
    requires ds != [] && ds[0] != 0
    ensures NatValue(ds) > 0
  {
    if |ds| > 1 {
      NatPositive(ds[..|ds| - 1]);
    }
  }

  /** An integral float prints the same text as the integer it equals. */
  lemma {:induction false} IntegralText(d: Decimal)
    requires Normal(d) && Integral(d)
    ensures CanonicalForm(d) == IntText(IntegerOf(d))
  {
    var t := TokenOf(d);
    CanonicalIsToken(d);
    NatDigitsInverse(t.whole);
    assert DigitText(t.whole) + [] == DigitText(t.whole);
    if d.digits != [] {
      NatPositive(t.whole);
    } else {
      assert NatValue([0]) == 0 by { LeadingZeros([]); assert [0] + [] == [0]; }
    }
  }
}
