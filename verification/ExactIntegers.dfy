/** Integers spelled as JSON numbers, read without rounding (src/typed.rs, exact_integer_text). */
module ExactIntegers {
  import opened Bytes
  import opened Scalar
  import opened Header
  import opened Values

  const I32_MAX: nat := 0x7FFF_FFFF
  const DIGIT_LIMIT: nat := 1_000_000

  // ----- the parts of a number ----------------------------------------------------------------

  /** The digits before and after the dot, and what follows the exponent mark. */
  datatype Parts = Parts(integral: bytes, fraction: bytes, exponent: bytes)

  function MantissaOf(body: bytes): bytes {
    match ExponentMark(body) case None => body case Some(k) => body[..k]
  }

  function PartsOf(body: bytes): Parts {
    var mantissa := MantissaOf(body);
    var dot := IndexOf(mantissa, DOT);
    Parts(if dot.Some? then mantissa[..dot.value] else mantissa,
          if dot.Some? then mantissa[dot.value + 1..] else [],
          match ExponentMark(body) { case None => [] case Some(k) => body[k + 1..] })
  }

  predicate IsNumberBody(body: bytes) {
    IsIntegerBody(body) || IsFloatBody(body)
  }

  /** The size of the exponent, its sign aside. */
  function ExponentSize(exponent: bytes): nat {
    if AllDigits(WithoutSign(exponent)) then DecimalValue(WithoutSign(exponent)) else 0
  }

  function ExponentValue(exponent: bytes): int {
    if exponent != [] && exponent[0] == MINUS then -(ExponentSize(exponent) as int) else ExponentSize(exponent)
  }

  /** All significant digits, and how many of them stand before the decimal point. */
  function DigitsOf(parts: Parts): bytes {
    parts.integral + parts.fraction
  }

  function PointOf(parts: Parts): int {
    |parts.integral| + ExponentValue(parts.exponent)
  }

  // ----- what the text stands for -----------------------------------------------------------------

  function Power(n: nat): (p: nat)
    ensures p > 0
  {
    if n == 0 then 1 else 10 * Power(n - 1)
  }

  /** `m` times ten to the `scale` is the integer `n`. */
  predicate IsScaled(m: nat, scale: int, n: int) {
    if scale >= 0 then n == m * Power(scale) else n * Power(-scale) == m
  }

  /** The number `text` stands for is the integer `n`. */
  ghost predicate StandsFor(text: bytes, n: int)
    requires IsNumberBody(WithoutMinus(text))
  {
    var parts := PartsOf(WithoutMinus(text));
    AllDigits(DigitsOf(parts)) &&
    var m := DecimalValue(DigitsOf(parts));
    var scale := PointOf(parts) - |DigitsOf(parts)|;
    if text[0] == MINUS then IsScaled(m, scale, -n) else IsScaled(m, scale, n)
  }

  // ----- the digits moved to the point --------------------------------------------------------------

  predicate AllZeros(s: bytes) {
    forall i :: 0 <= i < |s| ==> s[i] == ZERO
  }

  function Zeros(n: nat): (s: bytes)
    ensures |s| == n && AllZeros(s)
  {
    seq(n, _ => ZERO)
  }

  /** The digits up to the point; `None` when digits behind it are not zero or too many would be needed. */
  function Moved(digits: bytes, point: int): Option<bytes> {
    if point <= 0 then (if AllZeros(digits) then Some([ZERO]) else None)
    else if point < |digits| then (if AllZeros(digits[point..]) then Some(digits[..point]) else None)
    else if point > |digits| && point > DIGIT_LIMIT then None
    else Some(digits + Zeros(point - |digits|))
  }

  function Stripped(digits: bytes): (r: bytes)
    ensures digits != [] ==> r != []
  {
    if |digits| > 1 && digits[0] == ZERO then Stripped(digits[1..]) else digits
  }

  function Signed(digits: bytes, negative: bool): bytes {
    if negative && !AllZeros(digits) then [MINUS] + digits else digits
  }

  /** The exact integer digits of a number, if it has them. */
  function ExactText(text: bytes): Option<bytes> {
    var body := WithoutMinus(text);
    if !IsNumberBody(body) then None
    else
      var parts := PartsOf(body);
      if ExponentSize(parts.exponent) > I32_MAX then None
      else Shifted(DigitsOf(parts), PointOf(parts), text[0] == MINUS)
  }

  /** The integer of `digits` with the decimal point behind the first `point` of them. */
  function Shifted(digits: bytes, point: int, negative: bool): Option<bytes> {
    var moved :- Moved(digits, point);
    Some(Signed(Stripped(moved), negative))
  }

  // ----- decimal values ---------------------------------------------------------------------------------

  lemma {:induction false} DecimalConcat(a: bytes, b: bytes)
    requires AllDigits(a) && AllDigits(b)
    ensures AllDigits(a + b) && DecimalValue(a + b) == DecimalValue(a) * Power(|b|) + DecimalValue(b)
    decreases |b|
  {
    if b == [] {
      assert a + b == a;
    } else {
      var front, last := b[..|b| - 1], b[|b| - 1];
      assert AllDigits(front) && IsDigit(last) && AllDigits(a + b);
      DecimalConcat(a, front);
      assert (a + b)[..|a + b| - 1] == a + front && (a + b)[|a + b| - 1] == last;
      assert DecimalValue(a + b) == 10 * DecimalValue(a + front) + DigitValue(last);
      assert DecimalValue(b) == 10 * DecimalValue(front) + DigitValue(last) && Power(|b|) == 10 * Power(|front|);
      hide DecimalValue, Power, AllDigits, DigitValue;
      ScaleStep(DecimalValue(a), Power(|front|), DecimalValue(front), DigitValue(last));
    }
  }

  lemma {:induction false} ScaleStep(high: int, scale: int, low: int, digit: int)
    ensures 10 * (high * scale + low) + digit == high * (10 * scale) + (10 * low + digit)
  {
    assert high * (10 * scale) == 10 * (high * scale);
  }

  lemma {:induction false} DecimalOfZeros(s: bytes)
    requires AllZeros(s)
    ensures AllDigits(s) && DecimalValue(s) == 0
  {
    if s != [] { DecimalOfZeros(s[..|s| - 1]); }
  }

  lemma {:induction false} DecimalBelow(s: bytes)
    requires AllDigits(s)
    ensures DecimalValue(s) < Power(|s|)
  {
    if s != [] { DecimalBelow(s[..|s| - 1]); }
  }

  lemma {:induction false} ZeroMeansZeros(s: bytes)
    requires AllDigits(s) && DecimalValue(s) == 0
    ensures AllZeros(s)
  {
    if s != [] {
      var front := s[..|s| - 1];
      ZeroMeansZeros(front);
      assert forall i :: 0 <= i < |front| ==> s[i] == front[i];
    }
  }

  lemma {:induction false} StrippedValue(digits: bytes)
    requires AllDigits(digits) && digits != []
    ensures IsIntegerBody(Stripped(digits)) && DecimalValue(Stripped(digits)) == DecimalValue(digits)
    ensures AllZeros(Stripped(digits)) <==> AllZeros(digits)
  {
    if |digits| > 1 && digits[0] == ZERO {
      var rest := digits[1..];
      StrippedValue(rest);
      assert digits == [ZERO] + rest;
      DecimalOfZeros([ZERO]);
      DecimalConcat([ZERO], rest);
      assert AllZeros(digits) <==> AllZeros(rest) by {
        assert forall i :: 0 < i < |digits| ==> digits[i] == rest[i - 1];
      }
    }
  }

  // ----- exactness ------------------------------------------------------------------------------------------

  /** Moving the point keeps the number: where digits come out, they spell the same integer. */
  lemma {:induction false} MovedIsExact(digits: bytes, point: int)
    requires AllDigits(digits) && digits != [] && Moved(digits, point).Some?
    ensures AllDigits(Moved(digits, point).value) && Moved(digits, point).value != []
    ensures IsScaled(DecimalValue(digits), point - |digits|, DecimalValue(Moved(digits, point).value))
  {
    if point <= 0 {
      DecimalOfZeros(digits);
      DecimalOfZeros([ZERO]);
    } else if point < |digits| {
      var kept, lost := digits[..point], digits[point..];
      DecimalOfZeros(lost);
      DecimalConcat(kept, lost);
      assert digits == kept + lost;
    } else {
      var zeros := Zeros(point - |digits|);
      DecimalOfZeros(zeros);
      DecimalConcat(digits, zeros);
    }
  }

  lemma {:induction false} NoProduct(n: int, p: nat, m: nat)
    requires 0 < m < p
    ensures n * p != m
  {
    if n >= 1 {
      assert n * p >= p;
    } else {
      assert n * p <= 0;
    }
  }

  lemma {:induction false} NoScaled(kept: nat, rest: nat, p: nat, n: int)
    requires 0 < rest < p
    ensures n * p != kept * p + rest
  {
    NoProduct(n - kept, p, rest);
    assert (n - kept) * p == n * p - kept * p;
  }

  /** Where the digits behind the point are not all zero, the number is no integer. */
  lemma {:induction false} NotMovedMeansFraction(digits: bytes, point: int, n: int)
    requires AllDigits(digits) && digits != [] && Moved(digits, point).None? && !(point > |digits| && point > DIGIT_LIMIT)
    ensures !IsScaled(DecimalValue(digits), point - |digits|, n)
  {
    var m := DecimalValue(digits);
    if point <= 0 {
      if m == 0 { ZeroMeansZeros(digits); }
      DecimalBelow(digits);
      PowerGrows(|digits|, |digits| - point);
      NoProduct(n, Power(|digits| - point), m);
    } else {
      var kept, lost := digits[..point], digits[point..];
      if DecimalValue(lost) == 0 { ZeroMeansZeros(lost); }
      DecimalBelow(lost);
      DecimalConcat(kept, lost);
      assert digits == kept + lost;
      NoScaled(DecimalValue(kept), DecimalValue(lost), Power(|lost|), n);
    }
  }

  lemma {:induction false} PowerGrows(a: nat, b: nat)
    requires a <= b
    ensures Power(a) <= Power(b)
  {
    if a < b { PowerGrows(a, b - 1); }
  }

  lemma {:induction false} SignedValue(digits: bytes, negative: bool)
    requires IsIntegerBody(digits)
    ensures IsIntegerLiteral(Signed(digits, negative))
    ensures IntegerOf(Signed(digits, negative)) == if negative then -(DecimalValue(digits) as int) else DecimalValue(digits)
  {
    if AllZeros(digits) { DecimalOfZeros(digits); }
    if negative && !AllZeros(digits) { assert ([MINUS] + digits)[1..] == digits; }
  }

  /** A number's parts are digits. */
  lemma {:induction false} PartsAreDigits(body: bytes)
    requires IsNumberBody(body)
    ensures AllDigits(PartsOf(body).integral) && PartsOf(body).integral != [] && AllDigits(PartsOf(body).fraction)
    ensures AllDigits(DigitsOf(PartsOf(body)))
  {
    if IsIntegerBody(body) {
      assert ExponentMark(body).None?;
      assert IndexOf(body, DOT).None?;
    }
  }

  /** The text may be no exact integer for three reasons only. */
  predicate Refused(text: bytes)
    requires IsNumberBody(WithoutMinus(text))
  {
    var parts := PartsOf(WithoutMinus(text));
    ExponentSize(parts.exponent) > I32_MAX || (PointOf(parts) > |DigitsOf(parts)| && PointOf(parts) > DIGIT_LIMIT)
  }

  lemma {:induction false} MovedAndSigned(digits: bytes, point: int, negative: bool, moved: bytes)
    requires AllDigits(digits) && digits != [] && Moved(digits, point) == Some(moved)
    ensures IsIntegerLiteral(Signed(Stripped(moved), negative))
    ensures var n := IntegerOf(Signed(Stripped(moved), negative));
            IsScaled(DecimalValue(digits), point - |digits|, if negative then -n else n)
  {
    MovedIsExact(digits, point);
    StrippedValue(moved);
    SignedValue(Stripped(moved), negative);
    hide IsScaled, Moved, Signed, Stripped, IntegerOf, IsIntegerBody;
  }

  /** What comes out is a canonical integer and spells exactly the number the text stands for. */
  lemma {:induction false} ExactTextIsExact(text: bytes)
    requires ExactText(text).Some?
    ensures IsNumberBody(WithoutMinus(text)) && IsIntegerLiteral(ExactText(text).value)
    ensures StandsFor(text, IntegerOf(ExactText(text).value))
  {
    hide IsNumberBody, IsScaled, Moved, Signed, Stripped, IntegerOf, IsIntegerLiteral, DecimalValue, PointOf, PartsOf, DigitsOf, IsIntegerBody;
    var parts := PartsOf(WithoutMinus(text));
    PartsAreDigits(WithoutMinus(text));
    SomeDigits(parts);
    NumberIsNotEmpty(text);
    MovedAndSigned(DigitsOf(parts), PointOf(parts), text[0] == MINUS, Moved(DigitsOf(parts), PointOf(parts)).value);
  }

  lemma {:induction false} NumberIsNotEmpty(text: bytes)
    requires IsNumberBody(WithoutMinus(text))
    ensures text != []
  {
  }

  lemma {:induction false} SomeDigits(parts: Parts)
    requires parts.integral != []
    ensures DigitsOf(parts) != []
  {
  }

  /** Nothing comes out of a number exactly when its exponent overflows 32 bits, too many digits would be
      needed, or it is no integer. */
  lemma {:induction false} ExactTextMissing(text: bytes)
    requires IsNumberBody(WithoutMinus(text))
    ensures ExactText(text).None? <==> Refused(text) || forall n :: !StandsFor(text, n)
  {
    hide IsNumberBody, IsScaled, Signed, Stripped, IntegerOf, DecimalValue, PointOf, PartsOf, DigitsOf;
    var parts := PartsOf(WithoutMinus(text));
    PartsAreDigits(WithoutMinus(text));
    SomeDigits(parts);
    if ExactText(text).Some? {
      ExactTextIsExact(text);
    } else if !Refused(text) {
      forall n ensures !StandsFor(text, n) {
        NotMovedMeansFraction(DigitsOf(parts), PointOf(parts), n);
        NotMovedMeansFraction(DigitsOf(parts), PointOf(parts), -n);
      }
    }
  }

  // ----- the conversion as a cursor over the text ---------------------------------------------------------

  lemma {:induction false} NeitherMarkNorDot(body: bytes, n: nat, m: nat)
    requires n <= m <= |body| && AllDigits(body[..n]) && (m == n || AllDigits(body[n + 1..m]))
    ensures forall i :: 0 <= i < m && i != n ==> IsDigit(body[i])
  {
    forall i | 0 <= i < m && i != n ensures IsDigit(body[i]) {
      if i < n { assert body[..n][i] == body[i]; } else { assert body[n + 1..m][i - n - 1] == body[i]; }
    }
  }

  lemma {:induction false} MarkAt(body: bytes, n: nat, m: nat)
    requires n <= m <= |body| && (m < |body| ==> IsExponentMark(body[m])) && (m > n ==> body[n] == DOT)
    requires forall i :: 0 <= i < m && i != n ==> IsDigit(body[i])
    ensures ExponentMark(body) == if m < |body| then Some(m) else None
    ensures MantissaOf(body) == body[..m]
  {
    assert body[..|body|] == body;
  }

  lemma {:induction false} DotAt(body: bytes, n: nat, m: nat)
    requires n <= m <= |body| && (m > n ==> body[n] == DOT)
    requires forall i :: 0 <= i < m && i != n ==> IsDigit(body[i])
    ensures IndexOf(body[..m], DOT) == if m == n then None else Some(n)
  {
    if m > n { assert body[..m][n] == DOT; }
  }

  /** Where a mantissa ends, its parts are what the cursor passed. */
  lemma {:induction false} PartsAt(body: bytes, n: nat, m: nat)
    requires n <= m <= |body| && AllDigits(body[..n]) && (m < |body| ==> IsExponentMark(body[m]))
    requires m == n || (body[n] == DOT && AllDigits(body[n + 1..m]))
    ensures PartsOf(body) == Parts(body[..n], if m == n then [] else body[n + 1..m], if m < |body| then body[m + 1..] else [])
  {
    NeitherMarkNorDot(body, n, m);
    MarkAt(body, n, m);
    DotAt(body, n, m);
    hide ExponentMark, IndexOf, MantissaOf, AllDigits;
    if m > n {
      assert body[..m][..n] == body[..n] && body[..m][n + 1..] == body[n + 1..m];
    }
  }

  lemma {:induction false} DecimalSnoc(digits: bytes, n: nat)
    requires n < |digits| && AllDigits(digits)
    ensures DecimalValue(digits[..n + 1]) == 10 * DecimalValue(digits[..n]) + DigitValue(digits[n])
    ensures DecimalValue(digits[..n + 1]) <= DecimalValue(digits)
    decreases |digits| - n
  {
    var longer := digits[..n + 1];
    assert longer[..n] == digits[..n] && longer[n] == digits[n];
    if n + 1 < |digits| { DecimalSnoc(digits, n + 1); } else { assert longer == digits; }
  }

  lemma {:induction false} DigitStep(digits: bytes, index: nat)
    requires index < |digits| && AllDigits(digits[..index]) && IsDigit(digits[index])
    ensures AllDigits(digits[..index + 1])
    ensures DecimalValue(digits[..index + 1]) == 10 * DecimalValue(digits[..index]) + DigitValue(digits[index])
  {
    var longer := digits[..index + 1];
    assert longer == digits[..index] + [digits[index]];
    assert longer[..index] == digits[..index] && longer[index] == digits[index];
  }

  /** The exponent behind the mark, added up in 32 bits; `None` when it is missing, broken or overflows. */
  method ParseExponent(body: bytes, mark: nat) returns (r: Option<int>)
    requires mark < |body|
    ensures r == if IsExponent(body[mark + 1..]) && ExponentSize(body[mark + 1..]) <= I32_MAX
                 then Some(ExponentValue(body[mark + 1..])) else None
  {
    var tail := body[mark + 1..];
    var digits := WithoutSign(tail);
    var start := |tail| - |digits|;
    var exponent: nat := 0;
    var index := 0;
    assert digits[..0] == [];
    while index < |digits| && IsDigit(digits[index])
      invariant index <= |digits| && AllDigits(digits[..index]) && exponent == DecimalValue(digits[..index]) && exponent <= I32_MAX
    {
      DigitStep(digits, index);
      var next := 10 * exponent + DigitValue(digits[index]);
      if next > I32_MAX {
        if AllDigits(digits) { DecimalSnoc(digits, index); }
        return None;
      }
      exponent := next;
      index := index + 1;
    }
    if index == 0 || index < |digits| { return None; }
    assert digits[..index] == digits;
    return Some(if tail[0] == MINUS then -(exponent as int) else exponent);
  }

  method HasNonZero(s: bytes) returns (found: bool)
    ensures found <==> !AllZeros(s)
  {
    for i := 0 to |s|
      invariant AllZeros(s[..i])
    {
      if s[i] != ZERO { return true; }
      assert s[..i + 1] == s[..i] + [s[i]];
    }
    assert s[..|s|] == s;
    return false;
  }

  /** Truncate or extend the digits to the decimal point. */
  method MovePoint(digits: bytes, point: int) returns (r: Option<bytes>)
    ensures r == Moved(digits, point)
  {
    if point <= 0 {
      var nonZero := HasNonZero(digits);
      return if nonZero then None else Some([ZERO]);
    }
    if point < |digits| {
      var nonZero := HasNonZero(digits[point..]);
      return if nonZero then None else Some(digits[..point]);
    }
    if point > |digits| && point > DIGIT_LIMIT { return None; }
    return Some(digits + Zeros(point - |digits|));
  }

  method StripZeros(digits: bytes) returns (r: bytes)
    ensures r == Stripped(digits)
  {
    r := digits;
    while |r| > 1 && r[0] == ZERO
      invariant Stripped(r) == Stripped(digits)
      decreases |r|
    {
      r := r[1..];
    }
  }

  /** Read the mantissa: how far its integer digits and its digits after a dot reach. */
  method ScanMantissa(body: bytes) returns (n: nat, m: nat, ok: bool)
    ensures ok ==> MantissaEnds(body, n, m)
    ensures !ok ==> !IsNumberBody(body)
  {
    n := SkipDigits(body, 0);
    m := n;
    if n == 0 || (n > 1 && body[0] == ZERO) {
      LeadingDigits(body, n);
      return n, m, false;
    }
    assert body[..n] == body[0..n];
    if n < |body| && body[n] == DOT {
      m := SkipDigits(body, n + 1);
      if m == n + 1 {
        FloatWithFraction(body, n, m);
        assert !IsIntegerBody(body) by { assert !IsDigit(body[n]); }
        return n, m, false;
      }
    }
    return n, m, true;
  }

  /** The grammar of the whole number, told from where its mantissa ends. */
  lemma {:induction false} NumberFromMantissa(body: bytes, n: nat, m: nat)
    requires MantissaEnds(body, n, m)
    ensures IsNumberBody(body) <==> m == |body| || (IsExponentMark(body[m]) && IsExponent(body[m + 1..]))
  {
    if m == |body| && m == n {
      assert body[..n] == body;
    } else {
      var stop := if m == n then m else n;
      assert !IsDigit(body[stop]);
      assert !IsIntegerBody(body);
      if m == n {
        if IsExponentMark(body[n]) { FloatWithoutFraction(body, n); } else { NoFloatAfterInteger(body, n); }
      } else {
        FloatWithFraction(body, n, m);
      }
    }
  }

  /** Shift the point, drop leading zeros, and put the sign back unless the result is zero. */
  method ShiftDigits(digits: bytes, point: int, negative: bool) returns (r: Option<bytes>)
    ensures r == Shifted(digits, point, negative)
  {
    var moved := MovePoint(digits, point);
    if moved.None? { return None; }
    var stripped := StripZeros(moved.value);
    var nonZero := HasNonZero(stripped);
    return Some(if negative && nonZero then [MINUS] + stripped else stripped);
  }

  /** Where the cursor stands behind a mantissa. */
  predicate MantissaEnds(body: bytes, n: nat, m: nat) {
    && 0 < n <= m <= |body| && AllDigits(body[..n]) && (n == 1 || body[0] != ZERO)
    && (m == n || (body[n] == DOT && n + 1 < m && AllDigits(body[n + 1..m])))
    && (m < |body| ==> !IsDigit(body[m])) && (m == n && m < |body| ==> body[m] != DOT)
  }

  function MantissaDigits(body: bytes, n: nat, m: nat): bytes
    requires n <= m <= |body|
  {
    body[..n] + (if m == n then [] else body[n + 1..m])
  }

  lemma {:induction false} ExactOf(text: bytes, parts: Parts)
    requires IsNumberBody(WithoutMinus(text)) && PartsOf(WithoutMinus(text)) == parts
    ensures text != []
    ensures ExactText(text) ==
            if ExponentSize(parts.exponent) > I32_MAX then None
            else Shifted(parts.integral + parts.fraction, |parts.integral| + ExponentValue(parts.exponent), text[0] == MINUS)
  {
    NumberIsNotEmpty(text);
    hide IsNumberBody, Shifted, PartsOf, ExponentSize, ExponentValue, WithoutMinus;
  }

  lemma {:induction false} ExactWithoutExponent(text: bytes, body: bytes, n: nat)
    requires body == WithoutMinus(text) && MantissaEnds(body, n, |body|)
    ensures text != [] && ExactText(text) == Shifted(MantissaDigits(body, n, |body|), n, text[0] == MINUS)
  {
    NumberFromMantissa(body, n, |body|);
    PartsAt(body, n, |body|);
    assert ExponentSize([]) == 0 && ExponentValue([]) == 0;
    hide *;
    ExactOf(text, PartsOf(body));
  }

  /** With an exponent: it must be well formed and fit 32 bits. */
  lemma {:induction false} ExactWithExponent(text: bytes, body: bytes, n: nat, m: nat)
    requires body == WithoutMinus(text) && MantissaEnds(body, n, m) && m < |body| && IsExponentMark(body[m])
    ensures IsExponent(body[m + 1..]) && ExponentSize(body[m + 1..]) <= I32_MAX ==>
            text != [] && ExactText(text) == Shifted(MantissaDigits(body, n, m), n + ExponentValue(body[m + 1..]), text[0] == MINUS)
    ensures !(IsExponent(body[m + 1..]) && ExponentSize(body[m + 1..]) <= I32_MAX) ==> ExactText(text).None?
  {
    if IsExponent(body[m + 1..]) {
      ExponentParts(text, body, n, m);
      hide *;
    } else {
      NotExact(text, body, n, m);
      hide *;
    }
  }

  lemma {:induction false} ExponentParts(text: bytes, body: bytes, n: nat, m: nat)
    requires body == WithoutMinus(text) && MantissaEnds(body, n, m) && m < |body| && IsExponentMark(body[m])
    requires IsExponent(body[m + 1..])
    ensures text != [] && ExactText(text) ==
            if ExponentSize(body[m + 1..]) > I32_MAX then None
            else Shifted(MantissaDigits(body, n, m), n + ExponentValue(body[m + 1..]), text[0] == MINUS)
  {
    PartsAt(body, n, m);
    NumberFromMantissa(body, n, m);
    assert |body[..n]| == n;
    hide WithoutMinus, DigitsOf, PointOf;
    hide IsNumberBody, Shifted, PartsOf, MantissaEnds, ExponentSize, IsExponent, ExponentValue, ExactText, IsExponentMark, AllDigits;
    ExactOf(text, Parts(body[..n], if m == n then [] else body[n + 1..m], body[m + 1..]));
  }

  lemma {:induction false} NotExact(text: bytes, body: bytes, n: nat, m: nat)
    requires body == WithoutMinus(text) && MantissaEnds(body, n, m) && m < |body|
    requires !IsExponentMark(body[m]) || !IsExponent(body[m + 1..])
    ensures ExactText(text).None?
  {
    NumberFromMantissa(body, n, m);
    hide IsNumberBody, Shifted, PartsOf, MantissaEnds, IsExponent, IsExponentMark;
  }

  /** Normalise a number to exact integer digits when its value is integral, without rounding. */
  method ExactIntegerText(text: bytes) returns (r: Option<bytes>)
    ensures r == ExactText(text)
  {
    hide Shifted, IsExponent, ExponentSize, ExponentValue, PartsOf, IsNumberBody;
    var body := WithoutMinus(text);
    var n, m, ok := ScanMantissa(body);
    if !ok { return None; }
    if m == |body| {
      ExactWithoutExponent(text, body, n);
      r := ShiftDigits(MantissaDigits(body, n, m), n, text[0] == MINUS);
      return;
    }
    if !IsExponentMark(body[m]) {
      NotExact(text, body, n, m);
      return None;
    }
    var exponent := ParseExponent(body, m);
    ExactWithExponent(text, body, n, m);
    if exponent.None? { return None; }
    r := ShiftDigits(MantissaDigits(body, n, m), n + exponent.value, text[0] == MINUS);
  }
}
