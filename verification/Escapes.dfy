/** Quoted strings: the scan that validates escapes and the pass that resolves them (src/scalar.rs). */
module Escapes {
  import opened Bytes
  import opened Faults
  import opened Tokens
  import opened Utf8

  // ----- what an escape sequence means ---------------------------------------

  datatype Escape = BadEscape | Escape(len: nat, text: bytes)

  function HexDigit(b: byte): (v: nat)
    requires IsHex(b)
    ensures v < 16
  {
    if IsDigit(b) then (b - ZERO) as nat
    else if b <= 70 then (b - 55) as nat
    else (b - 87) as nat
  }

  predicate IsHex4(s: bytes) {
    |s| == 4 && IsHex(s[0]) && IsHex(s[1]) && IsHex(s[2]) && IsHex(s[3])
  }

  function Hex4(s: bytes): (v: nat)
    requires IsHex4(s)
    ensures v < 0x10000
  {
    HexDigit(s[0]) * 4096 + HexDigit(s[1]) * 256 + HexDigit(s[2]) * 16 + HexDigit(s[3])
  }

  predicate HighSurrogate(code: nat) { 0xD800 <= code < 0xDC00 }

  predicate LowSurrogate(code: nat) { 0xDC00 <= code < 0xE000 }

  function SurrogatePair(high: nat, low: nat): (code: nat)
    requires HighSurrogate(high) && LowSurrogate(low)
    ensures 0x10000 <= code < 0x110000
  {
    0x10000 + (high - 0xD800) * 1024 + (low - 0xDC00)
  }

  /** The one-letter escapes. */
  function SimpleEscape(letter: byte): Option<byte> {
    if letter == QUOTE || letter == BACKSLASH || letter == SLASH then Some(letter)
    else if letter == LOWER_B then Some(8)
    else if letter == LOWER_F then Some(12)
    else if letter == LOWER_N then Some(LF)
    else if letter == LOWER_R then Some(CR)
    else if letter == LOWER_T then Some(TAB)
    else None
  }

  /** The escape that starts `s` after its backslash, with the text it stands for. */
  function UnicodeEscape(s: bytes): Escape {
    if |s| < 6 || !IsHex4(s[2..6]) then BadEscape
    else
      var code := Hex4(s[2..6]);
      if HighSurrogate(code) then
        if |s| < 12 || s[6] != BACKSLASH || s[7] != LOWER_U || !IsHex4(s[8..12]) then BadEscape
        else if !LowSurrogate(Hex4(s[8..12])) then BadEscape
        else Escape(12, EncodeCodePoint(SurrogatePair(code, Hex4(s[8..12]))))
      else if LowSurrogate(code) then BadEscape
      else Escape(6, EncodeCodePoint(code))
  }

  function EscapeAt(s: bytes): (e: Escape)
    ensures e.Escape? ==> 2 <= e.len <= |s|
  {
    if |s| < 2 then BadEscape
    else if s[1] == LOWER_U then UnicodeEscape(s)
    else match SimpleEscape(s[1])
      case None => BadEscape
      case Some(b) => Escape(2, [b])
  }

  /** The text a quoted string's inner bytes stand for; `None` when an escape is invalid. */
  function Meaning(inner: bytes): Option<bytes> {
    if inner == [] then Some([])
    else if inner[0] == BACKSLASH then
      match EscapeAt(inner)
      case BadEscape => None
      case Escape(n, text) =>
        (match Meaning(inner[n..])
         case None => None
         case Some(rest) => Some(text + rest))
    else
      match Meaning(inner[1..])
      case None => None
      case Some(rest) => Some([inner[0]] + rest)
  }

  /** The bytes of a token, quotes resolved. */
  function TextOf(token: StringToken): bytes {
    match token
    case Bare(text) => text
    case Quoted(inner, escaped) => Unescaped(inner, escaped)
  }

  function Unescaped(inner: bytes, escaped: bool): bytes {
    if !escaped || Meaning(inner).None? then inner else Meaning(inner).value
  }

  // ----- the scan ------------------------------------------------------------

  /** Where a quoted string ends (one past its closing quote), and whether it holds escapes. */
  datatype Span = Span(end: nat, escaped: bool)

  /** One past the closing quote, and whether escapes occur, from `index` on. */
  function QuotedSpanFrom(content: bytes, index: nat, escaped: bool, start: nat, at: Position): (r: Result<Span>)
    ensures r.Ok? ==> index < r.value.end <= |content|
    decreases |content| - index
  {
    if index >= |content| then Err(Fault(UnclosedQuote, at.line, Some(at.column + start), false))
    else if content[index] == QUOTE then Ok(Span(index + 1, escaped))
    else if content[index] == BACKSLASH then
      match EscapeAt(content[index..])
      case BadEscape => Err(Fault(InvalidEscape, at.line, Some(at.column + index), false))
      case Escape(n, _) => QuotedSpanFrom(content, index + n, true, start, at)
    else QuotedSpanFrom(content, index + 1, escaped, start, at)
  }

  function QuotedSpan(content: bytes, start: nat, at: Position): Result<Span> {
    QuotedSpanFrom(content, start + 1, false, start, at)
  }

  method ScanQuoted(content: bytes, start: nat, at: Position) returns (r: Result<Span>)
    requires start < |content| && content[start] == QUOTE
    ensures r == QuotedSpan(content, start, at)
  {
    var index := start + 1;
    var escaped := false;
    while index < |content|
      invariant start < index <= |content|
      invariant QuotedSpan(content, start, at) == QuotedSpanFrom(content, index, escaped, start, at)
    {
      ghost var rest := content[index..];
      if content[index] == QUOTE { return Ok(Span(index + 1, escaped)); }
      if content[index] == BACKSLASH {
        escaped := true;
        var invalid := Err(Fault(InvalidEscape, at.line, Some(at.column + index), false));
        if index + 1 >= |content| { return invalid; }
        if SimpleEscape(content[index + 1]).Some? {
          index := index + 2;
        } else if content[index + 1] == LOWER_U {
          if index + 6 > |content| { return invalid; }
          var hex := content[index + 2..index + 6];
          assert hex == rest[2..6];
          if !IsHex4(hex) { return invalid; }
          var code := Hex4(hex);
          if HighSurrogate(code) {
            if At(content, index + 6) != Some(BACKSLASH) || At(content, index + 7) != Some(LOWER_U) { return invalid; }
            if index + 12 > |content| { return invalid; }
            var lowHex := content[index + 8..index + 12];
            assert lowHex == rest[8..12];
            if !IsHex4(lowHex) || !LowSurrogate(Hex4(lowHex)) { return invalid; }
            index := index + 12;
          } else if LowSurrogate(code) {
            return invalid;
          } else {
            index := index + 6;
          }
        } else {
          return invalid;
        }
      } else {
        index := index + 1;
      }
    }
    return Err(Fault(UnclosedQuote, at.line, Some(at.column + start), false));
  }

  // ----- the resolution ------------------------------------------------------

  /** Resolve the escape at `index`. No index leaves the slice, the match on the letter is total, and
      no code point needs a replacement character. */
  method ResolveEscape(inner: bytes, index: nat) returns (text: bytes, next: nat)
    requires index < |inner| && EscapeAt(inner[index..]).Escape?
    ensures index < next <= |inner| && EscapeAt(inner[index..]) == Escape(next - index, text)
  {
    ghost var rest := inner[index..];
    var letter := inner[index + 1];
    match SimpleEscape(letter)
    case Some(b) => return [b], index + 2;
    case None =>
      assert letter == LOWER_U;
      var hex := inner[index + 2..index + 6];
      assert hex == rest[2..6];
      var code := Hex4(hex);
      next := index + 6;
      if HighSurrogate(code) {
        var lowHex := inner[index + 8..index + 12];
        assert lowHex == rest[8..12];
        code := SurrogatePair(code, Hex4(lowHex));
        next := index + 12;
      }
      text := EncodeCodePoint(code);
  }

  /** Resolve the escapes of a scanned string; it never fails on what the scan accepted. */
  method Unescape(inner: bytes, escaped: bool) returns (out: bytes)
    requires escaped ==> Meaning(inner).Some?
    ensures out == Unescaped(inner, escaped)
  {
    if !escaped { return inner; }
    out := [];
    var index := 0;
    while index < |inner|
      invariant 0 <= index <= |inner|
      invariant Meaning(inner[index..]).Some?
      invariant out + Meaning(inner[index..]).value == Meaning(inner).value
    {
      ghost var rest, done := inner[index..], out;
      var text, next := [inner[index]], index + 1;
      if inner[index] == BACKSLASH {
        text, next := ResolveEscape(inner, index);
      }
      assert rest[next - index..] == inner[next..];
      out := out + text;
      index := next;
      ghost var after := Meaning(inner[next..]).value;
      assert Meaning(rest).value == text + after;
      assert (done + text) + after == done + (text + after);
    }
  }

  // ----- agreement of the two ------------------------------------------------

  lemma {:induction false} EscapeAtPrefix(s: bytes, m: nat)
    requires m <= |s| && EscapeAt(s).Escape? && EscapeAt(s).len <= m
    ensures EscapeAt(s[..m]) == EscapeAt(s)
  {
    var p := s[..m];
    if s[1] == LOWER_U {
      assert p[2..6] == s[2..6];
      if HighSurrogate(Hex4(s[2..6])) { assert p[8..12] == s[8..12]; }
    }
  }

  /** Every span the scan accepts has a meaning: the later resolution cannot fail. */
  lemma {:induction false} AcceptedSpanHasMeaning(
      content: bytes, index: nat, escaped: bool, start: nat, at: Position, span: Span)
    requires index <= |content|
    requires QuotedSpanFrom(content, index, escaped, start, at) == Ok(span)
    ensures index < span.end <= |content| && content[span.end - 1] == QUOTE
    ensures Meaning(content[index..span.end - 1]).Some?
    decreases |content| - index
  {
    if content[index] == QUOTE {
      assert content[index..index] == [];
    } else if content[index] == BACKSLASH {
      var n := EscapeAt(content[index..]).len;
      AcceptedSpanHasMeaning(content, index + n, true, start, at, span);
      MeaningOfEscape(content, index, n, span.end - 1);
    } else {
      AcceptedSpanHasMeaning(content, index + 1, escaped, start, at, span);
      MeaningOfPlainByte(content, index, span.end - 1);
    }
  }

  lemma {:induction false} MeaningOfPlainByte(content: bytes, index: nat, end: nat)
    requires index < end <= |content| && content[index] != BACKSLASH
    requires Meaning(content[index + 1..end]).Some?
    ensures Meaning(content[index..end]).Some?
  {
    var inner := content[index..end];
    assert inner[1..] == content[index + 1..end];
  }

  lemma {:induction false} MeaningOfEscape(content: bytes, index: nat, n: nat, end: nat)
    requires 0 < n && index + n <= end <= |content| && content[index] == BACKSLASH
    requires EscapeAt(content[index..]).Escape? && EscapeAt(content[index..]).len == n
    requires Meaning(content[index + n..end]).Some?
    ensures Meaning(content[index..end]).Some?
  {
    var inner := content[index..end];
    assert inner[n..] == content[index + n..end];
    assert inner == content[index..][..end - index];
    EscapeAtPrefix(content[index..], end - index);
  }

  /** Resolving escapes keeps UTF-8 well formed. */
  lemma {:induction false} MeaningIsUtf8(inner: bytes)
    requires ValidUtf8(inner) && Meaning(inner).Some?
    ensures ValidUtf8(Meaning(inner).value)
  {
    if inner != [] {
      if inner[0] == BACKSLASH {
        var e := EscapeAt(inner);
        ValidUtf8AfterAscii(inner, e.len);
        MeaningIsUtf8(inner[e.len..]);
        EscapeTextIsUtf8(inner);
        ValidUtf8Concat(e.text, Meaning(inner[e.len..]).value);
      } else {
        var n := SequenceLength(inner);
        MeaningOfPlain(inner, n);
        MeaningIsUtf8(inner[n..]);
        SequenceAlone(inner);
        ValidUtf8Concat(inner[..n], Meaning(inner[n..]).value);
      }
    }
  }

  lemma {:induction false} SequenceAlone(s: bytes)
    requires SequenceLength(s) > 0
    ensures ValidUtf8(s[..SequenceLength(s)])
  {
    var n := SequenceLength(s);
    assert SequenceLength(s[..n]) == n;
    assert s[..n][n..] == [];
  }

  lemma {:induction false} MeaningOfPlain(s: bytes, n: nat)
    requires n <= |s| && forall i :: 0 <= i < n ==> s[i] != BACKSLASH
    requires Meaning(s).Some?
    ensures Meaning(s[n..]).Some? && Meaning(s).value == s[..n] + Meaning(s[n..]).value
  {
    if n == 0 {
      assert s[0..] == s;
    } else {
      var tail := s[1..];
      MeaningOfPlain(tail, n - 1);
      assert tail[n - 1..] == s[n..];
      assert s[..n] == [s[0]] + tail[..n - 1];
      var rest := Meaning(s[n..]).value;
      assert [s[0]] + (tail[..n - 1] + rest) == s[..n] + rest;
    }
  }

  /** An escape is made of ASCII bytes, so what follows it is still well formed. */
  lemma {:induction false} ValidUtf8AfterAscii(s: bytes, n: nat)
    requires ValidUtf8(s) && s != [] && s[0] == BACKSLASH && EscapeAt(s).Escape? && n == EscapeAt(s).len
    ensures ValidUtf8(s[n..])
  {
    assert s[n - 1] < 0x80 by {
      if s[1] == LOWER_U {
        if n == 6 { assert s[2..6][3] == s[5]; } else { assert s[8..12][3] == s[11]; }
      }
    }
    assert s == s[..n - 1] + [s[n - 1]] + s[n..];
    ValidUtf8SplitAtAscii(s[..n - 1], s[n - 1], s[n..]);
  }

  lemma {:induction false} EscapeTextIsUtf8(s: bytes)
    requires s != [] && s[0] == BACKSLASH && EscapeAt(s).Escape?
    ensures ValidUtf8(EscapeAt(s).text)
  {
    if s[1] == LOWER_U {
      var code := Hex4(s[2..6]);
      if HighSurrogate(code) {
        ValidUtf8CodePoint(SurrogatePair(code, Hex4(s[8..12])));
      } else {
        ValidUtf8CodePoint(code);
      }
    } else {
      assert EscapeAt(s).text[1..] == [];
    }
  }

  /** A quoted string inside a well-formed document resolves to well-formed text. */
  lemma {:induction false} QuotedSpanIsUtf8(content: bytes, start: nat, at: Position, span: Span)
    requires start < |content| && content[start] == QUOTE && ValidUtf8(content)
    requires QuotedSpan(content, start, at) == Ok(span)
    ensures start + 1 < span.end <= |content|
    ensures ValidUtf8(Unescaped(content[start + 1..span.end - 1], span.escaped))
  {
    AcceptedSpanHasMeaning(content, start + 1, false, start, at, span);
    SliceBetweenQuotesResolves(content, start, span);
  }

  lemma {:induction false} SliceBetweenQuotesResolves(content: bytes, start: nat, span: Span)
    requires start + 1 < span.end <= |content| && ValidUtf8(content)
    requires content[start] == QUOTE && content[span.end - 1] == QUOTE
    requires Meaning(content[start + 1..span.end - 1]).Some?
    ensures ValidUtf8(Unescaped(content[start + 1..span.end - 1], span.escaped))
  {
    SliceBetweenQuotesIsUtf8(content, start, span.end);
    MeaningIsUtf8(content[start + 1..span.end - 1]);
  }

  lemma {:induction false} ValidUtf8AroundAscii(s: bytes, k: nat)
    requires k < |s| && s[k] < 0x80 && ValidUtf8(s)
    ensures ValidUtf8(s[..k]) && ValidUtf8(s[k + 1..])
  {
    assert s == s[..k] + [s[k]] + s[k + 1..];
    ValidUtf8SplitAtAscii(s[..k], s[k], s[k + 1..]);
  }

  lemma {:induction false} SliceBetweenQuotesIsUtf8(content: bytes, start: nat, end: nat)
    requires start + 1 < end <= |content| && ValidUtf8(content)
    requires content[start] == QUOTE && content[end - 1] == QUOTE
    ensures ValidUtf8(content[start + 1..end - 1])
  {
    var tail, k := content[start + 1..], end - start - 2;
    ValidUtf8AroundAscii(content, start);
    ValidUtf8AroundAscii(tail, k);
    assert tail[..k] == content[start + 1..end - 1];
  }
}
