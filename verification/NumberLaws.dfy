/** Where the layouts of floats begin and end, and how large an exactly read integer may be (src/encode.rs,
    src/typed.rs). */
module NumberLaws {
  import opened Bytes
  import opened Scalar
  import opened Header
  import opened Values
  import opened Render
  import opened ExactIntegers
  import opened CanonicalFloats
  import PlainStrings

  // ----- magnitudes -----------------------------------------------------------------------------------

  lemma {:induction false} PowerSum(a: nat, b: nat)
    ensures Power(a) * Power(b) == Power(a + b)
  {
    if a > 0 {
      PowerSum(a - 1, b);
      Tenfold(Power(a - 1), Power(b));
    }
  }

  lemma {:induction false} Tenfold(p: nat, q: nat)
    ensures 10 * p * q == 10 * (p * q)
  {
  }

  lemma {:induction false} PowerOrder(a: nat, b: nat)
    requires a <= b
    ensures Power(a) <= Power(b) && (a < b ==> 10 * Power(a) <= Power(b))
    decreases b
  {
    if a < b { PowerOrder(a, b - 1); }
  }

  /** A numeral of `k` digits without leading zeros lies between two powers of ten. */
  lemma {:induction false} NumeralBetween(digits: bytes)
    requires digits != [] && AllDigits(digits) && digits[0] != ZERO
    ensures Power(|digits| - 1) <= DecimalValue(digits) < Power(|digits|)
  {
    var front := digits[..|digits| - 1];
    if front == [] {
      assert DecimalValue(front) == 0;
      assert Power(1) == 10 && Power(0) == 1;
    } else {
      NumeralBetween(front);
    }
  }

  /** The number `m` times ten to the `scale` is at least ten to the `e`: both sides made whole. */
  predicate AtLeastTenTo(m: nat, scale: int, e: int) {
    if scale >= e then m * Power(scale - e) >= 1 else m >= Power(e - scale)
  }

  /** The number with its point behind `point` of its digits is at least ten to the `e` when the point says so. */
  lemma {:induction false} PointTellsSize(digits: bytes, point: int, e: int)
    requires digits != [] && AllDigits(digits) && digits[0] != ZERO
    ensures AtLeastTenTo(DecimalValue(digits), point - |digits|, e) <==> point > e
  {
    NumeralBetween(digits);
    var m, k, scale := DecimalValue(digits), |digits|, point - |digits|;
    if scale >= e {
      Positive(m, Power(scale - e));
    } else if point > e {
      PowerOrder(e - scale, k - 1);
    } else {
      PowerOrder(k, e - scale);
    }
  }

  lemma {:induction false} Positive(a: nat, b: nat)
    requires a > 0 && b > 0
    ensures a * b > 0
  {
  }

  // ----- layouts ----------------------------------------------------------------------------------------

  /** The layout has an exponent exactly when the number is at least 10^21 or less than 10^-6. */
  lemma {:induction false} ExponentByMagnitude(digits: bytes, point: int)
    requires Shortest(digits)
    ensures var (m, scale) := (DecimalValue(digits), point - |digits|);
            101 in Layout(digits, point) <==> AtLeastTenTo(m, scale, 21) || !AtLeastTenTo(m, scale, -6)
  {
    PointTellsSize(digits, point, 21);
    PointTellsSize(digits, point, -6);
    hide AtLeastTenTo, DecimalValue;
    if |digits| <= point <= 21 {
      NoMark(digits, Zeros(point - |digits|));
    } else if 0 < point <= 21 {
      NoMark(digits[..point], [DOT]);
      NoMark(digits[..point] + [DOT], digits[point..]);
      assert digits[..point] + ([DOT] + digits[point..]) == digits[..point] + [DOT] + digits[point..];
    } else if -6 < point <= 0 {
      NoMark(Zeros(-point), digits);
      NoMark([ZERO] + [DOT], Zeros(-point) + digits);
      assert [ZERO] + ([DOT] + (Zeros(-point) + digits)) == [ZERO] + [DOT] + (Zeros(-point) + digits);
    } else {
      assert 101 in [LOWER_E] + ExponentText(point - 1) by { assert ([LOWER_E] + ExponentText(point - 1))[0] == 101; }
    }
  }

  lemma {:induction false} NoMark(a: bytes, b: bytes)
    requires 101 !in a && 101 !in b
    ensures 101 !in a + b
  {
  }

  /** Without an exponent: all digits and zeros up to the point; or a point among the digits; or `0.`, zeros, and the
      digits. */
  lemma {:induction false} PlainLayouts(digits: bytes, point: int)
    requires Shortest(digits)
    ensures var r := Layout(digits, point);
            && (|digits| <= point <= 21 ==> |r| == point && r[..|digits|] == digits && forall i :: |digits| <= i < point ==> r[i] == 48)
            && (0 < point < |digits| && point <= 21 ==>
                  |r| == |digits| + 1 && r[..point] == digits[..point] && r[point] == 46 && r[point + 1..] == digits[point..])
            && (-5 <= point <= 0 ==>
                  |r| == 2 - point + |digits| && r[0] == 48 && r[1] == 46 && (forall i :: 2 <= i < 2 - point ==> r[i] == 48) && r[2 - point..] == digits)
  {
  }

  /** With an exponent: one digit, the others behind a point if there are any, `e`, a sign, and the size of the
      exponent, which counts from the first digit. */
  lemma {:induction false} ExponentLayouts(digits: bytes, point: int, size: bytes)
    requires Shortest(digits) && (point > 21 || point < -5)
    requires size != [] && AllDigits(size) && size[0] != 48 && DecimalValue(size) == if point > 0 then point - 1 else 1 - point
    ensures Layout(digits, point) ==
            (if |digits| == 1 then digits else [digits[0], 46] + digits[1..]) + [101, if point > 0 then 43 else 45] + size
  {
    PlainStrings.OneNumeral(size);
    var sign: byte := if point > 0 then 43 else 45;
    assert ExponentText(point - 1) == [sign] + size;
    hide DecimalValue, DecimalText, ExponentText;
    var head := if |digits| == 1 then digits else digits[..1] + ([DOT] + digits[1..]);
    assert Layout(digits, point) == head + ([LOWER_E] + ([sign] + size));
    HeadIs(digits);
    Apart(head, sign, size);
  }

  lemma {:induction false} HeadIs(digits: bytes)
    requires |digits| > 0
    ensures digits[..1] + ([DOT] + digits[1..]) == [digits[0], 46] + digits[1..]
  {
  }

  lemma {:induction false} Apart(head: bytes, sign: byte, size: bytes)
    ensures head + ([LOWER_E] + ([sign] + size)) == head + [101, sign] + size
  {
  }

  // ----- exact integers ---------------------------------------------------------------------------------

  /** `1e` and a size: exact up to a million digits. */
  lemma {:induction false} PowersOfTen(n: nat, size: bytes)
    requires size != [] && AllDigits(size) && DecimalValue(size) == n
    ensures ExactText([49, 101] + size) == if n < 1_000_000 then Some([49] + seq(n, _ => 48)) else None
  {
    SmallNumber(49, [], size);
    SizeOf([], size);
    var text := [49, 101] + size;
    Assembled(49, [], size);
    hide *;
    ExactByParts(text, Parts([49], [], size));
    PointOfPower(n, size);
    ShiftedOne(n);
    PowerFits(n);
  }

  lemma {:induction false} Assembled(digit: byte, sign: bytes, size: bytes)
    ensures [digit] + ([LOWER_E] + (sign + size)) == [digit, 101] + sign + size && [] + size == size
    ensures [digit, 101] + [] + size == [digit, 101] + size && [digit, 101] + [MINUS] + size == [digit, 101, 45] + size
  {
  }

  lemma {:induction false} ExactByParts(text: bytes, parts: Parts)
    requires text != [] && text[0] != MINUS && WithoutMinus(text) == text && IsNumberBody(text) && PartsOf(text) == parts
    ensures ExactText(text) == if ExponentSize(parts.exponent) > 2_147_483_647 then None else Shifted(DigitsOf(parts), PointOf(parts), false)
  {
    hide IsNumberBody, PartsOf, Shifted, ExponentSize, DigitsOf, PointOf, WithoutMinus;
  }

  lemma {:induction false} PowerFits(n: nat)
    ensures n > 2_147_483_647 ==> n >= 1_000_000
  {
  }

  lemma {:induction false} PointOfPower(n: nat, size: bytes)
    requires ExponentValue(size) == n
    ensures var parts := Parts([49], [], size); DigitsOf(parts) == [49] && PointOf(parts) == 1 + n
  {
  }

  lemma {:induction false} ShiftedOne(n: nat)
    ensures Shifted([49], 1 + n, false) == if n < 1_000_000 then Some([49] + seq(n, _ => 48)) else None
  {
    assert [49] + Zeros(n) == [49] + seq(n, _ => 48);
    assert ([49] + Zeros(n))[0] == 49;
  }

  /** A zero with a negative exponent is zero as long as the exponent's size fits 31 bits. */
  lemma {:induction false} ZeroTimes(n: nat, size: bytes)
    requires size != [] && AllDigits(size) && DecimalValue(size) == n && n > 0
    ensures ExactText([48, 101, 45] + size) == if n <= 2_147_483_647 then Some([48]) else None
  {
    SmallNumber(48, [MINUS], size);
    SizeOf([MINUS], size);
    var text := [48, 101, 45] + size;
    Assembled(48, [MINUS], size);
    hide *;
    ExactByParts(text, Parts([48], [], [MINUS] + size));
    PointOfZero(n, [MINUS] + size);
    ShiftedZero(n);
  }

  lemma {:induction false} PointOfZero(n: nat, exponent: bytes)
    requires ExponentValue(exponent) == -(n as int)
    ensures var parts := Parts([48], [], exponent); DigitsOf(parts) == [48] && PointOf(parts) == 1 - n
  {
  }

  lemma {:induction false} ShiftedZero(n: nat)
    requires n > 0
    ensures Shifted([48], 1 - n, false) == Some([48])
  {
  }

  lemma {:induction false} SizeOf(sign: bytes, size: bytes)
    requires size != [] && AllDigits(size) && (sign == [] || sign == [MINUS])
    ensures ExponentSize(sign + size) == DecimalValue(size) && IsExponent(sign + size)
    ensures ExponentValue(sign + size) == if sign == [] then DecimalValue(size) else -(DecimalValue(size) as int)
  {
    assert WithoutSign(sign + size) == size;
    assert (sign + size)[0] == if sign == [] then size[0] else MINUS;
  }

  lemma {:induction false} SmallNumber(digit: byte, sign: bytes, size: bytes)
    requires IsDigit(digit) && size != [] && AllDigits(size) && (sign == [] || sign == [MINUS])
    ensures var body := [digit] + ([LOWER_E] + (sign + size));
            && WithoutMinus(body) == body && IsNumberBody(body) && PartsOf(body) == Parts([digit], [], sign + size)
  {
    var body := [digit] + ([LOWER_E] + (sign + size));
    SizeOf(sign, size);
    assert body[..1] == [digit] && body[1] == LOWER_E && body[2..] == sign + size;
    hide *;
    SmallParts(body, digit, sign + size);
  }

  lemma {:induction false} SmallParts(body: bytes, digit: byte, exponent: bytes)
    requires IsDigit(digit) && |body| >= 2 && body[..1] == [digit] && body[1] == LOWER_E && body[2..] == exponent && IsExponent(exponent)
    ensures WithoutMinus(body) == body && IsNumberBody(body) && PartsOf(body) == Parts([digit], [], exponent)
  {
    assert body[0] == body[..1][0] == digit;
    assert IntegerPart(body, 1);
    FloatWithoutFraction(body, 1);
    hide IsExponent, IsFloatBody;
    MarkIsSecond(body);
    assert IndexOf([digit], DOT).None?;
    hide ExponentMark, IndexOf;
  }

  lemma {:induction false} MarkIsSecond(body: bytes)
    requires |body| >= 2 && IsDigit(body[0]) && body[1] == LOWER_E
    ensures ExponentMark(body) == Some(1)
  {
    assert body[1..][0] == LOWER_E;
  }

  /** There is no negative zero among integers. */
  lemma {:induction false} NoNegativeZero(text: bytes)
    ensures ExactText(text) != Some([45, 48])
  {
    var body := WithoutMinus(text);
    if IsNumberBody(body) {
      PartsAreDigits(body);
      hide IsNumberBody, PartsOf, DecimalValue, DigitsOf, PointOf, ExponentSize, Shifted;
      NotSigned(DigitsOf(PartsOf(body)), PointOf(PartsOf(body)), text[0] == MINUS);
    }
  }

  lemma {:induction false} NotSigned(digits: bytes, point: int, negative: bool)
    requires AllDigits(digits)
    ensures Shifted(digits, point, negative) != Some([45, 48])
  {
    var moved := Moved(digits, point);
    if moved.Some? {
      MovedDigits(digits, point, moved.value);
      StrippedDigits(moved.value);
      SignedDigits(Stripped(moved.value), negative);
    }
    hide Moved, Stripped, Signed, AllDigits;
  }

  lemma {:induction false} SignedDigits(digits: bytes, negative: bool)
    requires AllDigits(digits)
    ensures Signed(digits, negative) != [45, 48]
  {
    var r := Signed(digits, negative);
    if negative && !AllZeros(digits) {
      assert digits != [48];
      assert r[1..] == digits;
      assert [45 as byte, 48][1..] == [48];
    } else {
      assert r != [] ==> IsDigit(r[0]);
    }
  }

  lemma {:induction false} MovedDigits(digits: bytes, point: int, moved: bytes)
    requires AllDigits(digits) && Moved(digits, point) == Some(moved)
    ensures AllDigits(moved)
  {
  }

  lemma {:induction false} StrippedDigits(digits: bytes)
    requires AllDigits(digits)
    ensures AllDigits(Stripped(digits))
  {
    if |digits| > 1 && digits[0] == ZERO {
      assert forall i :: 0 <= i < |digits| - 1 ==> digits[1..][i] == digits[i + 1];
      StrippedDigits(digits[1..]);
    }
  }
}
