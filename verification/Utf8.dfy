/** Well-formed UTF-8, as section 4 of RFC 3629 lays it out, and the encoder for one code point. */
module Utf8 {
  import opened Bytes

  predicate Continuation(b: byte) { 0x80 <= b <= 0xBF }

  /** The length of the well-formed sequence that starts `s`, or 0 when there is none. */
  function SequenceLength(s: bytes): (n: nat)
    ensures n <= |s|
    ensures n >= 2 ==> forall i :: 0 <= i < n ==> s[i] >= 0x80
    ensures n == 1 <==> s != [] && s[0] < 0x80
  {
    if s == [] then 0
    else if s[0] < 0x80 then 1
    else if 0xC2 <= s[0] <= 0xDF && |s| >= 2 && Continuation(s[1]) then 2
    else if |s| >= 3 && Continuation(s[2]) &&
            (|| (s[0] == 0xE0 && 0xA0 <= s[1] <= 0xBF)
             || ((0xE1 <= s[0] <= 0xEC || 0xEE <= s[0] <= 0xEF) && Continuation(s[1]))
             || (s[0] == 0xED && 0x80 <= s[1] <= 0x9F)) then 3
    else if |s| >= 4 && Continuation(s[2]) && Continuation(s[3]) &&
            (|| (s[0] == 0xF0 && 0x90 <= s[1] <= 0xBF)
             || (0xF1 <= s[0] <= 0xF3 && Continuation(s[1]))
             || (s[0] == 0xF4 && 0x80 <= s[1] <= 0x8F)) then 4
    else 0
  }

  predicate ValidUtf8(s: bytes) {
    s == [] || (SequenceLength(s) > 0 && ValidUtf8(s[SequenceLength(s)..]))
  }

  predicate ScalarValue(code: nat) {
    code < 0xD800 || 0xE000 <= code < 0x110000
  }

  function EncodeCodePoint(code: nat): (r: bytes)
    requires ScalarValue(code)
    ensures r != [] && SequenceLength(r) == |r|
  {
    if code < 0x80 then [code as byte]
    else if code < 0x800 then [(0xC0 + code / 64) as byte, (0x80 + code % 64) as byte]
    else if code < 0x10000 then
      [(0xE0 + code / 4096) as byte, (0x80 + code / 64 % 64) as byte, (0x80 + code % 64) as byte]
    else
      [(0xF0 + code / 262144) as byte, (0x80 + code / 4096 % 64) as byte,
       (0x80 + code / 64 % 64) as byte, (0x80 + code % 64) as byte]
  }

  /** A sequence is recognised by its own bytes alone. */
  lemma {:induction false} SequenceLengthOfPrefix(s: bytes, t: bytes)
    requires SequenceLength(s) > 0
    ensures SequenceLength(s + t) == SequenceLength(s)
  {
  }

  lemma {:induction false} ValidUtf8Concat(a: bytes, b: bytes)
    requires ValidUtf8(a) && ValidUtf8(b)
    ensures ValidUtf8(a + b)
  {
    if a == [] {
      assert a + b == b;
    } else {
      var n := SequenceLength(a);
      SequenceLengthOfPrefix(a, b);
      assert (a + b)[n..] == a[n..] + b;
      ValidUtf8Concat(a[n..], b);
    }
  }

  /** An ASCII byte always stands between sequences, so the text on both sides of it is well formed. */
  lemma {:induction false} ValidUtf8SplitAtAscii(a: bytes, c: byte, b: bytes)
    requires c < 0x80
    ensures ValidUtf8(a + [c] + b) <==> ValidUtf8(a) && ValidUtf8(b)
    decreases |a|
  {
    var s := a + [c] + b;
    if a == [] {
      assert s[1..] == b;
    } else {
      var n := SequenceLength(s);
      assert s == a + ([c] + b);
      if SequenceLength(a) > 0 { SequenceLengthOfPrefix(a, [c] + b); }
      assert s[|a|] == c;
      if n > 0 {
        assert n <= |a|;
        assert forall i :: 0 <= i < |a| ==> s[i] == a[i];
        assert s[n..] == a[n..] + [c] + b;
        ValidUtf8SplitAtAscii(a[n..], c, b);
      }
    }
  }

  lemma {:induction false} ValidUtf8CodePoint(code: nat)
    requires ScalarValue(code)
    ensures ValidUtf8(EncodeCodePoint(code))
  {
    var r := EncodeCodePoint(code);
    assert r[|r|..] == [];
  }

  lemma {:induction false} ValidUtf8Ascii(s: bytes)
    requires forall i :: 0 <= i < |s| ==> s[i] < 0x80
    ensures ValidUtf8(s)
  {
    if s != [] { ValidUtf8Ascii(s[1..]); }
  }
}
