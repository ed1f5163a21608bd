/** Which code point a byte sequence or an escape stands for, in numbers (src/scalar.rs). */
module Unicode {
  import opened Bytes
  import opened Faults
  import opened Utf8
  import opened Escapes

  // ----- UTF-8 sequences ----------------------------------------------------------------------------

  /** The number a sequence of one to four bytes carries: what the lead byte and the bytes behind it add up to. */
  function Carried(s: bytes): int
    requires 1 <= |s| <= 4
  {
    if |s| == 1 then s[0] as int
    else if |s| == 2 then (s[0] as int - 192) * 64 + (s[1] as int - 128)
    else if |s| == 3 then (s[0] as int - 224) * 4096 + (s[1] as int - 128) * 64 + (s[2] as int - 128)
    else (s[0] as int - 240) * 262144 + (s[1] as int - 128) * 4096 + (s[2] as int - 128) * 64 + (s[3] as int - 128)
  }

  lemma {:induction false} Digits64(q: int, r: int)
    requires 0 <= r < 64
    ensures (q * 64 + r) / 64 == q && (q * 64 + r) % 64 == r
  {
  }

  lemma {:induction false} Places64(code: nat)
    ensures code / 4096 == code / 64 / 64 && code / 262144 == code / 64 / 64 / 64
    ensures code == code / 64 * 64 + code % 64 && code / 64 == code / 4096 * 64 + code / 64 % 64
    ensures code / 4096 == code / 262144 * 64 + code / 4096 % 64
  {
    var a := code / 64;
    var b := a / 64;
    assert code == a * 64 + code % 64 && a == b * 64 + a % 64;
    assert code / 4096 == b;
    assert b == b / 64 * 64 + b % 64;
    assert code / 262144 == b / 64;
  }

  /** The bytes of a code point carry it, in the shortest sequence that can (section 3 of RFC 3629). */
  lemma {:induction false} CodePointIsCarried(code: nat)
    requires code < 55296 || 57344 <= code < 1114112
    ensures ScalarValue(code)
    ensures var s := EncodeCodePoint(code);
            && |s| == (if code < 128 then 1 else if code < 2048 then 2 else if code < 65536 then 3 else 4)
            && Carried(s) == code
  {
    Places64(code);
    hide SequenceLength;
  }

  /** A well-formed sequence is the spelling of the code point it carries, which is no surrogate. */
  lemma {:induction false} SequenceIsCodePoint(s: bytes)
    requires SequenceLength(s) == |s| > 0
    ensures |s| <= 4 && (0 <= Carried(s) < 55296 || 57344 <= Carried(s) < 1114112)
    ensures ScalarValue(Carried(s)) && EncodeCodePoint(Carried(s)) == s
  {
    if |s| == 2 { TwoBytes(s); } else if |s| == 3 { ThreeBytes(s); } else if |s| == 4 { FourBytes(s); }
  }

  lemma {:induction false} TwoBytes(s: bytes)
    requires SequenceLength(s) == |s| == 2
    ensures 128 <= Carried(s) < 2048 && EncodeCodePoint(Carried(s)) == s
  {
    var (a, b) := (s[0] as int - 192, s[1] as int - 128);
    assert (a * 64 + b) / 64 == a && (a * 64 + b) % 64 == b;
  }

  lemma {:induction false} ThreeBytes(s: bytes)
    requires SequenceLength(s) == |s| == 3
    ensures 2048 <= Carried(s) < 65536 && !(55296 <= Carried(s) < 57344) && EncodeCodePoint(Carried(s)) == s
  {
    var (a, b, c) := (s[0] as int - 224, s[1] as int - 128, s[2] as int - 128);
    Digits64(a, b);
    Digits64(a * 64 + b, c);
    Places64((a * 64 + b) * 64 + c);
  }

  lemma {:induction false} FourBytes(s: bytes)
    requires SequenceLength(s) == |s| == 4
    ensures 65536 <= Carried(s) < 1114112 && EncodeCodePoint(Carried(s)) == s
  {
    FourInRange(s);
    var (a, b, c, d) := (s[0] as int - 240, s[1] as int - 128, s[2] as int - 128, s[3] as int - 128);
    hide SequenceLength;
    Digits64(a, b);
    Digits64(a * 64 + b, c);
    Digits64((a * 64 + b) * 64 + c, d);
    Places64(((a * 64 + b) * 64 + c) * 64 + d);
  }

  lemma {:induction false} FourInRange(s: bytes)
    requires SequenceLength(s) == |s| == 4
    ensures 65536 <= Carried(s) < 1114112 && 240 <= s[0] < 248 && forall i :: 1 <= i < 4 ==> 128 <= s[i] < 192
  {
  }

  /** The code points of a well-formed text. */
  function Points(s: bytes): seq<int>
    requires ValidUtf8(s)
  {
    if s == [] then []
    else
      var n := SequenceLength(s);
      SequenceAlone(s);
      assert SequenceLength(s[..n]) == n by { SequenceOfFront(s, n); }
      [Carried(s[..n])] + Points(s[n..])
  }

  lemma {:induction false} SequenceOfFront(s: bytes, n: nat)
    requires SequenceLength(s) == n > 0
    ensures SequenceLength(s[..n]) == n <= 4
  {
  }

  predicate AllPoints(points: seq<int>) {
    forall i :: 0 <= i < |points| ==> 0 <= points[i] < 55296 || 57344 <= points[i] < 1114112
  }

  /** What a text's code points spell is the text. */
  function Spelled(points: seq<int>): bytes
    requires AllPoints(points)
  {
    if points == [] then [] else EncodeCodePoint(points[0]) + Spelled(points[1..])
  }

  lemma {:induction false} SpelledCons(first: int, points: seq<int>)
    requires AllPoints(points) && (0 <= first < 55296 || 57344 <= first < 1114112)
    ensures AllPoints([first] + points) && Spelled([first] + points) == EncodeCodePoint(first) + Spelled(points)
  {
    hide EncodeCodePoint;
    assert ([first] + points)[1..] == points;
  }

  /** Every well-formed text is the spelling of its code points. */
  lemma {:induction false} TextIsItsPoints(s: bytes)
    requires ValidUtf8(s)
    ensures AllPoints(Points(s)) && Spelled(Points(s)) == s
  {
    if s != [] {
      var n := SequenceLength(s);
      SequenceOfFront(s, n);
      SequenceIsCodePoint(s[..n]);
      TextIsItsPoints(s[n..]);
      hide Carried, EncodeCodePoint, SequenceLength, Spelled;
      SpelledCons(Carried(s[..n]), Points(s[n..]));
      assert s == s[..n] + s[n..];
    }
  }

  lemma {:induction false} PointsCons(first: bytes, rest: bytes)
    requires first != [] && SequenceLength(first) == |first| && ValidUtf8(rest)
    ensures ValidUtf8(first + rest) && Points(first + rest) == [Carried(first)] + Points(rest)
  {
    SequenceLengthOfPrefix(first, rest);
    SequenceOfFront(first, |first|);
    hide SequenceLength, Carried;
    assert (first + rest)[..|first|] == first && (first + rest)[|first|..] == rest;
  }

  /** Code points are those of the text they spell. */
  lemma {:induction false} PointsAreTheirOwn(points: seq<int>)
    requires AllPoints(points)
    ensures ValidUtf8(Spelled(points)) && Points(Spelled(points)) == points
  {
    if points != [] {
      PointsAreTheirOwn(points[1..]);
      CodePointIsCarried(points[0]);
      hide SequenceLength, Carried, Points, ValidUtf8;
      PointsCons(EncodeCodePoint(points[0]), Spelled(points[1..]));
      hide EncodeCodePoint;
    }
  }

  // ----- hexadecimal ----------------------------------------------------------------------------------

  /** The byte is the hexadecimal digit of `d`, in either case. */
  predicate DigitOf(b: byte, d: nat) {
    if d < 10 then b as int == 48 + d else d < 16 && (b as int == 55 + d || b as int == 87 + d)
  }

  predicate InHex(h: bytes, n: nat) {
    |h| == 4 && n < 65536
    && DigitOf(h[0], n / 4096) && DigitOf(h[1], n / 256 % 16) && DigitOf(h[2], n / 16 % 16) && DigitOf(h[3], n % 16)
  }

  lemma {:induction false} Digits16(q: int, r: int)
    requires 0 <= r < 16
    ensures (q * 16 + r) / 16 == q && (q * 16 + r) % 16 == r
  {
  }

  lemma {:induction false} Places16(n: nat)
    ensures n / 256 == n / 16 / 16 && n / 4096 == n / 16 / 16 / 16
    ensures n == n / 4096 * 4096 + n / 256 % 16 * 256 + n / 16 % 16 * 16 + n % 16
  {
    var a := n / 16;
    var b := a / 16;
    assert n == a * 16 + n % 16 && a == b * 16 + a % 16;
    assert n / 256 == b;
    assert b == b / 16 * 16 + b % 16;
    assert n / 4096 == b / 16;
  }

  lemma {:induction false} DigitReads(b: byte, d: nat)
    requires DigitOf(b, d)
    ensures IsHex(b) && HexDigit(b) == d
  {
  }

  lemma {:induction false} DigitIsSpelled(b: byte)
    requires IsHex(b)
    ensures DigitOf(b, HexDigit(b))
  {
  }

  lemma {:induction false} HexReads(h: bytes, n: nat)
    requires InHex(h, n)
    ensures IsHex4(h) && Hex4(h) == n
  {
    DigitReads(h[0], n / 4096);
    DigitReads(h[1], n / 256 % 16);
    DigitReads(h[2], n / 16 % 16);
    DigitReads(h[3], n % 16);
    Places16(n);
    hide DigitOf, IsHex, HexDigit;
  }

  lemma {:induction false} HexIsSpelled(h: bytes)
    requires IsHex4(h)
    ensures InHex(h, Hex4(h))
  {
    DigitIsSpelled(h[0]);
    DigitIsSpelled(h[1]);
    DigitIsSpelled(h[2]);
    DigitIsSpelled(h[3]);
    hide DigitOf, IsHex, HexDigit;
    var (a, b, c, d) := (HexDigit(h[0]), HexDigit(h[1]), HexDigit(h[2]), HexDigit(h[3]));
    Digits16(a, b);
    Digits16(a * 16 + b, c);
    Digits16((a * 16 + b) * 16 + c, d);
    Places16(((a * 16 + b) * 16 + c) * 16 + d);
  }

  // ----- escapes ----------------------------------------------------------------------------------------

  /** `\u` and four digits. */
  function HexUnit(h: bytes): bytes {
    [92, 117] + h
  }

  lemma {:induction false} UnicodeParts(h: bytes, rest: bytes)
    requires |h| == 4
    ensures var s := HexUnit(h) + rest; |s| == 6 + |rest| && s[0] == 92 && s[1] == 117 && s[2..6] == h && s[6..] == rest
  {
  }

  /** Six bytes stand for the code point they spell, unless it is a surrogate. */
  lemma {:induction false} UnitMeans(code: nat, h: bytes, rest: bytes)
    requires InHex(h, code) && (code < 55296 || 57344 <= code)
    ensures EscapeAt(HexUnit(h) + rest) == Escape(6, EncodeCodePoint(code))
  {
    UnicodeParts(h, rest);
    HexReads(h, code);
    hide EncodeCodePoint, InHex;
  }

  /** Twelve bytes that spell the two halves of a code point past the first 65536 stand for it
      (section 3.9 of the Unicode Standard, UTF-16). */
  lemma {:induction false} PairMeans(code: nat, high: bytes, low: bytes, rest: bytes)
    requires 65536 <= code < 1114112
    requires InHex(high, 55296 + (code - 65536) / 1024) && InHex(low, 56320 + (code - 65536) % 1024)
    ensures EscapeAt(HexUnit(high) + (HexUnit(low) + rest)) == Escape(12, EncodeCodePoint(code))
  {
    UnicodeParts(high, HexUnit(low) + rest);
    UnicodeParts(low, rest);
    HexReads(high, 55296 + (code - 65536) / 1024);
    HexReads(low, 56320 + (code - 65536) % 1024);
    hide EncodeCodePoint, InHex;
    var s := HexUnit(high) + (HexUnit(low) + rest);
    assert s[6] == s[6..][0] && s[7] == s[6..][1] && s[8..12] == s[6..][2..6];
  }

  ghost predicate LowHalfNext(rest: bytes) {
    exists low, code: nat :: InHex(low, code) && 56320 <= code < 57344 && StartsWith(rest, HexUnit(low))
  }

  /** Half a pair stands for nothing: a low half alone, or a high half that no low half follows. */
  lemma {:induction false} HalfNeedsTheOther(unit: nat, h: bytes, rest: bytes)
    requires InHex(h, unit) && 55296 <= unit < 57344
    ensures EscapeAt(HexUnit(h) + rest) != BadEscape <==> unit < 56320 && LowHalfNext(rest)
  {
    if EscapeAt(HexUnit(h) + rest) != BadEscape { FollowedByLow(unit, h, rest); }
    if unit < 56320 && LowHalfNext(rest) { PrecedesLow(unit, h, rest); }
  }

  lemma {:induction false} PrecedesLow(unit: nat, h: bytes, rest: bytes)
    requires InHex(h, unit) && 55296 <= unit < 56320 && LowHalfNext(rest)
    ensures EscapeAt(HexUnit(h) + rest) != BadEscape
  {
    var low, code: nat :| InHex(low, code) && 56320 <= code < 57344 && StartsWith(rest, HexUnit(low));
    assert |low| == 4;
    hide InHex, EscapeAt, EncodeCodePoint;
    assert rest == HexUnit(low) + rest[6..];
    PairMeans(65536 + (unit - 55296) * 1024 + (code - 56320), h, low, rest[6..]);
  }

  lemma {:induction false} FollowedByLow(unit: nat, h: bytes, rest: bytes)
    requires InHex(h, unit) && 55296 <= unit < 57344 && EscapeAt(HexUnit(h) + rest) != BadEscape
    ensures unit < 56320 && LowHalfNext(rest)
  {
    UnicodeParts(h, rest);
    HexReads(h, unit);
    var s := HexUnit(h) + rest;
    hide EncodeCodePoint, InHex, IsHex4, Hex4;
    var low := s[8..12];
    HexIsSpelled(low);
    assert rest == s[6..];
    assert rest[..6] == HexUnit(low);
  }

  /** The escapes of one letter are `"`, `\`, `/`, `b`, `f`, `n`, `r` and `t`; any other letter but `u` is refused. */
  lemma {:induction false} LetterMeans(letter: byte, rest: bytes)
    requires letter != 117
    ensures EscapeAt([92, letter] + rest) ==
            if letter == 34 || letter == 92 || letter == 47 then Escape(2, [letter])
            else if letter == 98 then Escape(2, [8])
            else if letter == 102 then Escape(2, [12])
            else if letter == 110 then Escape(2, [10])
            else if letter == 114 then Escape(2, [13])
            else if letter == 116 then Escape(2, [9])
            else BadEscape
  {
  }

  // ----- whole strings ------------------------------------------------------------------------------------

  lemma {:induction false} MeaningStep(escape: bytes, rest: bytes, text: bytes)
    requires |escape| > 0 && escape[0] == 92 && EscapeAt(escape + rest) == Escape(|escape|, text)
    ensures Meaning(escape + rest) == (match Meaning(rest) case None => None case Some(more) => Some(text + more))
  {
    hide EscapeAt;
    assert (escape + rest)[|escape|..] == rest;
  }

  /** A string of escaped pairs means the code points they spell. */
  lemma {:induction false} PairInString(code: nat, high: bytes, low: bytes, rest: bytes)
    requires 65536 <= code < 1114112 && Meaning(rest).Some?
    requires InHex(high, 55296 + (code - 65536) / 1024) && InHex(low, 56320 + (code - 65536) % 1024)
    ensures Meaning(HexUnit(high) + (HexUnit(low) + rest)) == Some(EncodeCodePoint(code) + Meaning(rest).value)
  {
    PairMeans(code, high, low, rest);
    hide EscapeAt, EncodeCodePoint, InHex;
    assert HexUnit(high) + (HexUnit(low) + rest) == (HexUnit(high) + HexUnit(low)) + rest;
    MeaningStep(HexUnit(high) + HexUnit(low), rest, EncodeCodePoint(code));
  }
}
