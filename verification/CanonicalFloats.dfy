/** The four layouts of a float's shortest digits, after section 6.1.6.1.20 of ECMA-262 (src/encode.rs, canonical_float). */
module CanonicalFloats {
  import opened Bytes
  import opened Tokens
  import opened Scalar
  import opened Header
  import opened Values
  import opened Render
  import opened ReadScalars
  import opened ExactIntegers

  /** Shortest decimal digits: no zero at either end. */
  predicate Shortest(digits: bytes) {
    digits != [] && AllDigits(digits) && digits[0] != ZERO && digits[|digits| - 1] != ZERO
  }

  function ExponentText(e: int): bytes {
    [if e >= 0 then PLUS else MINUS] + DecimalText(if e >= 0 then e else -e)
  }

  /** The digits with the decimal point behind the first `point` of them; exponent form outside [-5, 21]. */
  function Layout(digits: bytes, point: int): bytes
    requires digits != []
  {
    if |digits| <= point <= 21 then digits + Zeros(point - |digits|)
    else if 0 < point <= 21 then digits[..point] + ([DOT] + digits[point..])
    else if -6 < point <= 0 then [ZERO] + ([DOT] + (Zeros(-point) + digits))
    else (if |digits| == 1 then digits else digits[..1] + ([DOT] + digits[1..])) + ([LOWER_E] + ExponentText(point - 1))
  }

  function CanonicalFloat(digits: bytes, point: int, negative: bool): bytes
    requires digits != []
  {
    (if negative then [MINUS] else []) + Layout(digits, point)
  }

  /** Two decimals, each an integer times a power of ten, are the same number. */
  predicate SameDecimal(m: nat, scale: int, m': nat, scale': int) {
    if scale >= scale' then m * Power(scale - scale') == m' else m == m' * Power(scale' - scale)
  }

  /** `body` is a number and denotes the digits with the point behind the first `point` of them. */
  ghost predicate Denotes(body: bytes, digits: bytes, point: int)
    requires AllDigits(digits)
  {
    && IsNumberBody(body) && AllDigits(DigitsOf(PartsOf(body)))
    && SameDecimal(DecimalValue(DigitsOf(PartsOf(body))), PointOf(PartsOf(body)) - |DigitsOf(PartsOf(body))|,
                   DecimalValue(digits), point - |digits|)
  }

  // ----- the layouts one by one -----------------------------------------------------------------------

  lemma {:induction false} WholeLayout(digits: bytes, point: int)
    requires Shortest(digits) && |digits| <= point
    ensures var body := digits + Zeros(point - |digits|); IsIntegerBody(body) && Denotes(body, digits, point)
  {
    var zeros := Zeros(point - |digits|);
    var body := digits + zeros;
    DecimalOfZeros(zeros);
    DecimalConcat(digits, zeros);
    assert body[..|body|] == body;
    PartsAt(body, |body|, |body|);
    assert body + [] == body;
    assert ExponentSize([]) == 0;
  }

  lemma {:induction false} FractionMantissa(integral: bytes, fraction: bytes, rest: bytes, body: bytes)
    requires body == integral + ([DOT] + (fraction + rest)) && AllDigits(integral) && integral != [] && (|integral| == 1 || integral[0] != ZERO)
    requires AllDigits(fraction) && fraction != [] && (rest != [] ==> IsExponentMark(rest[0]))
    ensures MantissaEnds(body, |integral|, |integral| + 1 + |fraction|)
    ensures |integral| + 1 + |fraction| + |rest| == |body| && body[|integral| + 1 + |fraction|..] == rest
    ensures PartsOf(body) == Parts(integral, fraction, if rest == [] then [] else rest[1..])
  {
    var n, m := |integral|, |integral| + 1 + |fraction|;
    MantissaSlices(integral, fraction, rest, body);
    if rest != [] { assert body[m] == rest[0] && body[m + 1..] == body[m..][1..]; }
    hide ExponentMark, IndexOf;
    PartsAt(body, n, m);
  }

  lemma {:induction false} MantissaSlices(integral: bytes, fraction: bytes, rest: bytes, body: bytes)
    requires body == integral + ([DOT] + (fraction + rest)) && integral != []
    ensures var n, m := |integral|, |integral| + 1 + |fraction|;
            && |body| == m + |rest| && body[..n] == integral && body[n] == DOT && body[n + 1..m] == fraction && body[m..] == rest
            && body[0] == integral[0]
  {
  }

  /** The parts decide: their digits, and how many of them stand before the point. */
  lemma {:induction false} DenotesByParts(body: bytes, parts: Parts, all: bytes, at: int, digits: bytes, point: int)
    requires AllDigits(digits) && IsNumberBody(body) && PartsOf(body) == parts
    requires parts.integral + parts.fraction == all && AllDigits(all) && |parts.integral| + ExponentValue(parts.exponent) == at
    requires SameDecimal(DecimalValue(all), at - |all|, DecimalValue(digits), point - |digits|)
    ensures Denotes(body, digits, point)
  {
    hide IsNumberBody, PartsOf, ExponentValue, SameDecimal;
  }

  lemma {:induction false} NoExponent()
    ensures ExponentValue([]) == 0
  {
  }

  lemma {:induction false} SameItself(m: nat, scale: int)
    ensures SameDecimal(m, scale, m, scale)
  {
  }

  lemma {:induction false} DottedLayout(digits: bytes, point: int)
    requires Shortest(digits) && 0 < point < |digits|
    ensures var body := digits[..point] + ([DOT] + digits[point..]); !IsIntegerBody(body) && Denotes(body, digits, point)
  {
    assert digits[..point] + digits[point..] == digits;
    DottedFraction(digits[..point], digits[point..], digits, digits[..point] + ([DOT] + digits[point..]));
  }

  lemma {:induction false} DottedFraction(front: bytes, back: bytes, digits: bytes, body: bytes)
    requires digits == front + back && front != [] && back != [] && AllDigits(digits) && digits[0] != ZERO && body == front + ([DOT] + back)
    ensures !IsIntegerBody(body) && Denotes(body, digits, |front|)
  {
    DigitHalves(front, back);
    assert back + [] == back && body[|front|] == DOT;
    NotInteger(body, |front|);
    hide IsNumberBody, PartsOf, ExponentValue, SameDecimal, MantissaEnds, Denotes, IsIntegerBody, DecimalValue;
    FractionMantissa(front, back, [], body);
    NumberFromMantissa(body, |front|, |body|);
    NoExponent();
    SameItself(DecimalValue(digits), |front| - |digits|);
    DenotesByParts(body, PartsOf(body), digits, |front|, digits, |front|);
  }

  lemma {:induction false} DigitHalves(front: bytes, back: bytes)
    requires AllDigits(front + back)
    ensures AllDigits(front) && AllDigits(back)
  {
    assert forall i :: 0 <= i < |front| ==> (front + back)[i] == front[i];
    assert forall i :: 0 <= i < |back| ==> (front + back)[|front| + i] == back[i];
  }

  lemma {:induction false} NotInteger(body: bytes, k: nat)
    requires k < |body| && !IsDigit(body[k])
    ensures !IsIntegerBody(body)
  {
  }

  lemma {:induction false} SmallLayout(digits: bytes, point: int)
    requires Shortest(digits) && point <= 0
    ensures var body := [ZERO] + ([DOT] + (Zeros(-point) + digits)); !IsIntegerBody(body) && Denotes(body, digits, point)
  {
    LeadingZeros(digits, -point);
    SmallFraction(Zeros(-point) + digits, digits, point, [ZERO] + ([DOT] + (Zeros(-point) + digits)));
  }

  lemma {:induction false} SmallFraction(fraction: bytes, digits: bytes, point: int, body: bytes)
    requires body == [ZERO] + ([DOT] + fraction) && AllDigits(digits) && AllDigits(fraction) && fraction != [] && |fraction| == |digits| - point
    requires AllDigits([ZERO] + fraction) && DecimalValue([ZERO] + fraction) == DecimalValue(digits)
    ensures !IsIntegerBody(body) && Denotes(body, digits, point)
  {
    assert fraction + [] == fraction && body[1] == DOT;
    NotInteger(body, 1);
    hide IsNumberBody, PartsOf, ExponentValue, SameDecimal, MantissaEnds, Denotes, IsIntegerBody, DecimalValue;
    FractionMantissa([ZERO], fraction, [], body);
    NumberFromMantissa(body, 1, |body|);
    NoExponent();
    SameItself(DecimalValue(digits), point - |digits|);
    DenotesByParts(body, PartsOf(body), [ZERO] + fraction, 1, digits, point);
  }

  lemma {:induction false} LeadingZeros(digits: bytes, n: nat)
    requires AllDigits(digits) && digits != []
    ensures AllDigits(Zeros(n) + digits) && Zeros(n) + digits != []
    ensures AllDigits([ZERO] + (Zeros(n) + digits)) && DecimalValue([ZERO] + (Zeros(n) + digits)) == DecimalValue(digits)
  {
    DecimalOfZeros([ZERO]);
    DecimalOfZeros(Zeros(n));
    DecimalConcat(Zeros(n), digits);
    DecimalConcat([ZERO], Zeros(n) + digits);
  }

  lemma {:induction false} ExponentTextValue(e: int)
    ensures IsExponent(ExponentText(e)) && ExponentValue(ExponentText(e)) == e
  {
    var magnitude: nat := if e >= 0 then e else -e;
    DecimalTextValue(magnitude);
    assert ExponentText(e)[1..] == DecimalText(magnitude);
  }

  lemma {:induction false} ExponentLayout(digits: bytes, point: int)
    requires Shortest(digits)
    ensures var body := (if |digits| == 1 then digits else digits[..1] + ([DOT] + digits[1..])) + ([LOWER_E] + ExponentText(point - 1));
            !IsIntegerBody(body) && Denotes(body, digits, point)
  {
    var rest := [LOWER_E] + ExponentText(point - 1);
    assert rest[1..] == ExponentText(point - 1);
    ExponentTextValue(point - 1);
    hide ExponentText, ExponentValue, IsExponent;
    if |digits| == 1 { ShortExponent(digits, rest, point); } else { LongExponent(digits, rest, point); }
  }

  lemma {:induction false} ShortExponent(digits: bytes, rest: bytes, point: int)
    requires Shortest(digits) && |digits| == 1 && rest != [] && rest[0] == LOWER_E && IsExponent(rest[1..])
    requires ExponentValue(rest[1..]) == point - 1
    ensures !IsIntegerBody(digits + rest) && Denotes(digits + rest, digits, point)
  {
    var body := digits + rest;
    assert body[..1] == digits && body[1] == rest[0] && body[2..] == rest[1..];
    NumberFromMantissa(body, 1, 1);
    PartsAt(body, 1, 1);
    assert digits + [] == digits;
  }

  lemma {:induction false} LongExponent(digits: bytes, rest: bytes, point: int)
    requires Shortest(digits) && |digits| > 1 && rest != [] && rest[0] == LOWER_E && IsExponent(rest[1..])
    requires ExponentValue(rest[1..]) == point - 1
    ensures var body := (digits[..1] + ([DOT] + digits[1..])) + rest; !IsIntegerBody(body) && Denotes(body, digits, point)
  {
    FirstDigit(digits);
    assert digits[..1] + digits[1..] == digits;
    Rebracket(digits[..1], digits[1..], rest);
    LongFraction(digits[..1], digits[1..], rest, digits, point, (digits[..1] + ([DOT] + digits[1..])) + rest);
  }

  lemma {:induction false} Rebracket(front: bytes, back: bytes, rest: bytes)
    ensures (front + ([DOT] + back)) + rest == front + ([DOT] + (back + rest))
  {
  }

  lemma {:induction false} LongFraction(front: bytes, back: bytes, rest: bytes, digits: bytes, point: int, body: bytes)
    requires digits == front + back && |front| == 1 && back != [] && AllDigits(digits) && AllDigits(front) && AllDigits(back)
    requires body == front + ([DOT] + (back + rest))
    requires rest != [] && rest[0] == LOWER_E && IsExponent(rest[1..]) && ExponentValue(rest[1..]) == point - 1
    ensures !IsIntegerBody(body) && Denotes(body, digits, point)
  {
    var m := |back| + 2;
    MantissaSlices(front, back, rest, body);
    NotInteger(body, 1);
    hide IsNumberBody, PartsOf, ExponentValue, SameDecimal, MantissaEnds, Denotes, IsIntegerBody, IsExponent, DecimalValue, AllDigits;
    FractionMantissa(front, back, rest, body);
    assert body[m] == rest[0] && body[m + 1..] == rest[1..];
    NumberFromMantissa(body, 1, m);
    SameItself(DecimalValue(digits), point - |digits|);
    DenotesByParts(body, PartsOf(body), digits, point, digits, point);
  }

  lemma {:induction false} FirstDigit(digits: bytes)
    requires Shortest(digits)
    ensures AllDigits(digits) && AllDigits(digits[..1]) && AllDigits(digits[1..])
  {
  }

  /** Every layout denotes the decimal it was laid out for, and is an integer exactly when all digits fit
      before the point. */
  lemma {:induction false} LayoutDenotes(digits: bytes, point: int)
    requires Shortest(digits)
    ensures Denotes(Layout(digits, point), digits, point) && IsNumberBody(Layout(digits, point))
    ensures IsIntegerBody(Layout(digits, point)) <==> |digits| <= point <= 21
  {
    hide Denotes, IsIntegerBody, Zeros, ExponentText;
    if |digits| <= point <= 21 { WholeLayout(digits, point); }
    else if 0 < point <= 21 { DottedLayout(digits, point); }
    else if -6 < point <= 0 { SmallLayout(digits, point); }
    else { ExponentLayout(digits, point); }
    DenotesNumber(Layout(digits, point), digits, point);
  }

  lemma {:induction false} DenotesNumber(body: bytes, digits: bytes, point: int)
    requires AllDigits(digits) && Denotes(body, digits, point)
    ensures IsNumberBody(body)
  {
  }

  lemma {:induction false} LayoutStartsWithDigit(digits: bytes, point: int)
    requires Shortest(digits)
    ensures Layout(digits, point) != [] && IsDigit(Layout(digits, point)[0])
    ensures Layout(digits, point) != [ZERO]
  {
  }

  /** A canonical float is read as a number of the same sign and value, never as a string: an integer exactly
      when its digits end before the point. */
  lemma {:induction false} CanonicalFloatReads(digits: bytes, point: int, negative: bool)
    requires Shortest(digits)
    ensures var text := CanonicalFloat(digits, point, negative);
            && WithoutMinus(text) == Layout(digits, point) && (text[0] == MINUS <==> negative)
            && Denotes(WithoutMinus(text), digits, point)
            && BareToken(text) == (if |digits| <= point <= 21 then IntegerToken(text) else FloatToken(text))
            && IsNumber(text) && text != [MINUS, ZERO]
  {
    var text := CanonicalFloat(digits, point, negative);
    LayoutDenotes(digits, point);
    LayoutStartsWithDigit(digits, point);
    hide Layout, Denotes, IsIntegerBody, IsFloatBody, BareToken, ScalarFormed;
    if negative { assert text[1..] == Layout(digits, point); } else { assert [] + Layout(digits, point) == Layout(digits, point); }
    CanonicalToken(text, Layout(digits, point), negative);
  }

  lemma {:induction false} CanonicalToken(text: bytes, body: bytes, negative: bool)
    requires text == (if negative then [MINUS] else []) + body && body != [] && IsDigit(body[0]) && IsNumberBody(body) && body != [ZERO]
    ensures BareToken(text) == if IsIntegerBody(body) then IntegerToken(text) else FloatToken(text)
    ensures IsNumber(text) && text != [MINUS, ZERO]
  {
    if negative { assert text[1..] == body; } else { assert text == body; }
    assert text[0] == MINUS || IsDigit(text[0]);
    hide IsIntegerBody, IsFloatBody;
  }
}
