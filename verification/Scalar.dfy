/** Scalar classification, quoted-string scanning, unescaping and cell splitting (src/scalar.rs). */
module Scalar {
  import opened Bytes
  import opened Faults
  import opened Tokens
  import opened Utf8

  // ----- bare tokens ---------------------------------------------------------

  predicate IsExponentMark(b: byte) { b == LOWER_E || b == UPPER_E }

  predicate IsSign(b: byte) { b == PLUS || b == MINUS }

  function WithoutMinus(token: bytes): bytes {
    if token != [] && token[0] == MINUS then token[1..] else token
  }

  function WithoutSign(s: bytes): bytes {
    if s != [] && IsSign(s[0]) then s[1..] else s
  }

  predicate IsIntegerBody(digits: bytes) {
    digits != [] && AllDigits(digits) && (|digits| == 1 || digits[0] != ZERO)
  }

  predicate IsIntegerLiteral(token: bytes) {
    IsIntegerBody(WithoutMinus(token))
  }

  /** The position of the exponent mark. */
  function ExponentMark(s: bytes): (r: Option<nat>)
    ensures r.Some? ==> r.value < |s| && IsExponentMark(s[r.value])
    ensures r.Some? ==> forall i :: 0 <= i < r.value ==> !IsExponentMark(s[i])
    ensures r.None? ==> forall i :: 0 <= i < |s| ==> !IsExponentMark(s[i])
  {
    if s == [] then None
    else if IsExponentMark(s[0]) then Some(0)
    else match ExponentMark(s[1..])
      case None => None
      case Some(k) => Some(k + 1)
  }

  predicate IsExponent(s: bytes) {
    WithoutSign(s) != [] && AllDigits(WithoutSign(s))
  }

  /** Mantissa and exponent are cut apart at the first `e` or `E`, the mantissa at its first dot. */
  predicate IsFloatBody(body: bytes) {
    var mark := ExponentMark(body);
    && IsMantissa(if mark.Some? then body[..mark.value] else body, mark.None?)
    && (mark.Some? ==> IsExponent(body[mark.value + 1..]))
  }

  predicate IsMantissa(mantissa: bytes, needsFraction: bool) {
    var dot := IndexOf(mantissa, DOT);
    var integral := if dot.Some? then mantissa[..dot.value] else mantissa;
    && integral != [] && AllDigits(integral) && (|integral| == 1 || integral[0] != ZERO)
    && (dot.Some? ==> dot.value + 1 < |mantissa| && AllDigits(mantissa[dot.value + 1..]))
    && (needsFraction ==> dot.Some?)
  }

  predicate IsFloatLiteral(token: bytes) {
    IsFloatBody(WithoutMinus(token))
  }

  /** What an unquoted token denotes: keywords, then two independent number grammars, then a string. */
  function BareToken(token: bytes): ScalarToken {
    if token == NULL_TEXT then NullToken
    else if token == TRUE_TEXT then BoolToken(true)
    else if token == FALSE_TEXT then BoolToken(false)
    else if IsIntegerLiteral(token) then IntegerToken(token)
    else if IsFloatLiteral(token) then FloatToken(token)
    else BareString(token)
  }

  method SkipDigits(body: bytes, from: nat) returns (index: nat)
    requires from <= |body|
    ensures from <= index <= |body|
    ensures AllDigits(body[from..index])
    ensures index < |body| ==> !IsDigit(body[index])
  {
    index := from;
    while index < |body| && IsDigit(body[index])
      invariant from <= index <= |body|
      invariant AllDigits(body[from..index])
    {
      assert body[from..index + 1] == body[from..index] + [body[index]];
      index := index + 1;
    }
  }

  /** `body` starts with exactly `n` digits that spell an integer part. */
  predicate IntegerPart(body: bytes, n: nat) {
    && 0 < n < |body| && AllDigits(body[..n]) && !IsDigit(body[n])
    && (n == 1 || body[0] != ZERO)
  }

  /** A dot follows the integer part, then exactly the digits up to `m`. */
  predicate FractionPart(body: bytes, n: nat, m: nat) {
    && IntegerPart(body, n) && body[n] == DOT && n < m <= |body| && AllDigits(body[n + 1..m])
    && (m < |body| ==> !IsDigit(body[m]))
  }

  lemma {:induction false} DigitsBefore(s: bytes, from: nat, to: nat, i: nat)
    requires from <= i < to <= |s| && AllDigits(s[from..to])
    ensures IsDigit(s[i])
  {
    assert s[from..to][i - from] == s[i];
  }

  /** No digit, or a superfluous leading zero: neither grammar accepts. */
  lemma {:induction false} LeadingDigits(body: bytes, n: nat)
    requires n <= |body| && AllDigits(body[0..n]) && (n < |body| ==> !IsDigit(body[n]))
    requires n == 0 || (n > 1 && body[0] == ZERO)
    ensures !IsFloatBody(body)
    ensures body == [] || !AllDigits(body) || (|body| > 1 && body[0] == ZERO)
  {
    var mark := ExponentMark(body);
    forall i | 0 <= i < n ensures IsDigit(body[i]) { DigitsBefore(body, 0, n, i); }
    var mantissa := if mark.Some? then body[..mark.value] else body;
    var dot := IndexOf(mantissa, DOT);
    var integral := if dot.Some? then mantissa[..dot.value] else mantissa;
    assert integral != [] ==> integral[0] == body[0];
    if n > 1 { assert |integral| >= n; }
  }

  lemma {:induction false} MantissaOfFraction(mantissa: bytes, n: nat, needsFraction: bool)
    requires IntegerPart(mantissa, n) && mantissa[n] == DOT
    ensures IsMantissa(mantissa, needsFraction) <==> n + 1 < |mantissa| && AllDigits(mantissa[n + 1..])
  {
    assert IndexOf(mantissa, DOT) == Some(n) by {
      forall i | 0 <= i < n ensures mantissa[i] != DOT { DigitsBefore(mantissa, 0, n, i); }
    }
  }

  /** The scan stops after the integer part at a byte that is neither dot nor exponent mark. */
  lemma {:induction false} NoFloatAfterInteger(body: bytes, n: nat)
    requires IntegerPart(body, n) && body[n] != DOT && !IsExponentMark(body[n])
    ensures !IsFloatBody(body)
  {
    var mark := ExponentMark(body);
    forall i | 0 <= i < n ensures IsDigit(body[i]) { DigitsBefore(body, 0, n, i); }
    var mantissa := if mark.Some? then body[..mark.value] else body;
    assert mantissa[n] == body[n];
    var dot := IndexOf(mantissa, DOT);
    if dot.Some? {
      assert dot.value > n;
      assert mantissa[..dot.value][n] == body[n];
    }
  }

  lemma {:induction false} FloatWithoutFraction(body: bytes, n: nat)
    requires IntegerPart(body, n) && IsExponentMark(body[n])
    ensures IsFloatBody(body) <==> IsExponent(body[n + 1..])
  {
    forall i | 0 <= i < n ensures IsDigit(body[i]) { DigitsBefore(body, 0, n, i); }
    assert ExponentMark(body) == Some(n);
    assert IndexOf(body[..n], DOT).None?;
  }

  /** The mark, if any, stands at or behind the end of the fraction. */
  lemma {:induction false} MarkAfterFraction(body: bytes, n: nat, m: nat)
    requires FractionPart(body, n, m)
    ensures ExponentMark(body).Some? ==> ExponentMark(body).value >= m
    ensures m < |body| && IsExponentMark(body[m]) ==> ExponentMark(body) == Some(m)
  {
    forall i | 0 <= i < m && i != n ensures IsDigit(body[i]) {
      if i < n { DigitsBefore(body, 0, n, i); } else { DigitsBefore(body, n + 1, m, i); }
    }
  }

  lemma {:induction false} FloatWithFraction(body: bytes, n: nat, m: nat)
    requires FractionPart(body, n, m)
    ensures m == n + 1 ==> !IsFloatBody(body)
    ensures n + 1 < m == |body| ==> IsFloatBody(body)
    ensures n + 1 < m < |body| && IsExponentMark(body[m]) ==>
              (IsFloatBody(body) <==> IsExponent(body[m + 1..]))
    ensures m < |body| && !IsExponentMark(body[m]) ==> !IsFloatBody(body)
  {
    hide ExponentMark, IsExponent, IndexOf;
    MarkAfterFraction(body, n, m);
    var mark := ExponentMark(body);
    var mantissa := if mark.Some? then body[..mark.value] else body;
    assert mantissa[..n] == body[..n];
    MantissaOfFraction(mantissa, n, mark.None?);
    if m < |body| && IsExponentMark(body[m]) {
      assert mantissa[n + 1..] == body[n + 1..m];
    } else if m < |body| {
      assert mantissa[n + 1..][m - n - 1] == body[m];
    } else {
      assert mantissa[n + 1..] == body[n + 1..m];
    }
  }

  lemma {:induction false} ExponentDigits(body: bytes, mark: nat, start: nat, end: nat)
    requires mark < |body| && mark + 1 <= start <= end <= |body|
    requires start == if mark + 1 < |body| && IsSign(body[mark + 1]) then mark + 2 else mark + 1
    requires AllDigits(body[start..end]) && (end < |body| ==> !IsDigit(body[end]))
    ensures IsExponent(body[mark + 1..]) <==> start < end == |body|
  {
    var tail := body[mark + 1..];
    assert tail != [] ==> tail[0] == body[mark + 1];
    assert WithoutSign(tail) == body[start..];
    if end < |body| {
      assert body[start..][end - start] == body[end];
    } else {
      assert body[start..] == body[start..end];
    }
  }

  /** The exponent that follows the mark at `mark`: a sign, digits, and nothing after them. */
  method ScanExponent(body: bytes, mark: nat) returns (complete: bool)
    requires mark < |body|
    ensures complete <==> IsExponent(body[mark + 1..])
  {
    var index := mark + 1;
    if index < |body| && IsSign(body[index]) {
      index := index + 1;
    }
    var firstExponentDigit := index;
    index := SkipDigits(body, index);
    ExponentDigits(body, mark, firstExponentDigit, index);
    complete := firstExponentDigit < index && index == |body|;
  }

  /** What follows the integer part: a fraction, an exponent, or both. */
  method ScanFraction(body: bytes, integerDigits: nat) returns (float: bool)
    requires IntegerPart(body, integerDigits)
    ensures float <==> IsFloatBody(body)
  {
    var index := integerDigits;
    if body[index] == DOT {
      var firstFractionDigit := index + 1;
      index := SkipDigits(body, firstFractionDigit);
      FloatWithFraction(body, integerDigits, index);
      if index == firstFractionDigit { return false; }
      if index == |body| { return true; }
      if !IsExponentMark(body[index]) { return false; }
      float := ScanExponent(body, index);
    } else if IsExponentMark(body[index]) {
      FloatWithoutFraction(body, integerDigits);
      float := ScanExponent(body, index);
    } else {
      NoFloatAfterInteger(body, integerDigits);
      float := false;
    }
  }

  /** One pass over the digits, fraction and exponent of a number body. */
  method ScanNumber(body: bytes) returns (integer: bool, float: bool)
    ensures integer <==> IsIntegerBody(body)
    ensures !integer ==> (float <==> IsFloatBody(body))
  {
    var index := SkipDigits(body, 0);
    if index == 0 || (index > 1 && body[0] == ZERO) {
      LeadingDigits(body, index);
      return false, false;
    }
    assert body[..index] == body[0..index];
    if index == |body| {
      assert IsIntegerBody(body) by { assert body[0..index] == body; }
      return true, false;
    }
    assert !AllDigits(body) by { assert !IsDigit(body[index]); }
    float := ScanFraction(body, index);
    return false, float;
  }

  /** One pass decides exactly as the keywords and the two separate number grammars do. */
  method ClassifyBare(token: bytes) returns (r: ScalarToken)
    ensures r == BareToken(token)
  {
    if token == NULL_TEXT { return NullToken; }
    if token == TRUE_TEXT { return BoolToken(true); }
    if token == FALSE_TEXT { return BoolToken(false); }
    var integer, float := ScanNumber(WithoutMinus(token));
    if integer { return IntegerToken(token); }
    return if float then FloatToken(token) else BareString(token);
  }
}
