/** How the encoder escapes a quoted string, and how the escapes read back (src/encode.rs). */
module Quoting {
  import opened Bytes
  import opened Tokens
  import opened Escapes
  import opened Output

  // ----- escaping ----------------------------------------------------------------

  function HexText(n: byte): byte
    requires n < 16
  {
    if n < 10 then ZERO + n else 87 + n
  }

  /** The spelling of one byte inside quotes. */
  function EscapeText(b: byte): (r: bytes)
    ensures r != []
  {
    if b == QUOTE then [BACKSLASH, QUOTE]
    else if b == BACKSLASH then [BACKSLASH, BACKSLASH]
    else if b == LF then [BACKSLASH, LOWER_N]
    else if b == CR then [BACKSLASH, LOWER_R]
    else if b == TAB then [BACKSLASH, LOWER_T]
    else if b < 0x20 then [BACKSLASH, LOWER_U, ZERO, ZERO, HexText(b / 16), HexText(b % 16)]
    else [b]
  }

  function EscapeAll(s: bytes): bytes {
    if s == [] then [] else EscapeText(s[0]) + EscapeAll(s[1..])
  }

  function QuotedText(s: bytes): bytes {
    [QUOTE] + EscapeAll(s) + [QUOTE]
  }

  predicate IsClean(b: byte) { b >= 0x20 && b != QUOTE && b != BACKSLASH }

  predicate Clean(s: bytes) {
    forall i :: 0 <= i < |s| ==> IsClean(s[i])
  }

  lemma {:induction false} EscapeAllConcat(a: bytes, b: bytes)
    ensures EscapeAll(a + b) == EscapeAll(a) + EscapeAll(b)
  {
    if a == [] {
      assert a + b == b;
    } else {
      assert (a + b)[1..] == a[1..] + b;
      EscapeAllConcat(a[1..], b);
    }
  }

  lemma {:induction false} EscapeAllClean(s: bytes)
    requires Clean(s)
    ensures EscapeAll(s) == s
  {
    if s != [] {
      EscapeAllClean(s[1..]);
      assert s == [s[0]] + s[1..];
    }
  }

  /** A clean span followed by one byte that needs an escape. */
  lemma {:induction false} EscapeSpan(s: bytes, start: nat, end: nat)
    requires start <= end < |s| && Clean(s[start..end])
    ensures EscapeAll(s[..end + 1]) == EscapeAll(s[..start]) + (s[start..end] + EscapeText(s[end]))
  {
    var span := s[start..end];
    EscapeAllClean(span);
    assert s[..end + 1] == s[..start] + (span + [s[end]]);
    EscapeAllConcat(s[..start], span + [s[end]]);
    EscapeAllConcat(span, [s[end]]);
    EscapeOne(s[end]);
  }

  lemma {:induction false} EscapeOne(b: byte)
    ensures EscapeAll([b]) == EscapeText(b)
  {
    assert EscapeAll([b]) == EscapeText(b) + EscapeAll([]);
  }

  lemma {:induction false} EscapeTail(s: bytes, start: nat)
    requires start <= |s| && Clean(s[start..])
    ensures EscapeAll(s) == EscapeAll(s[..start]) + s[start..]
  {
    EscapeAllClean(s[start..]);
    assert s == s[..start] + s[start..];
    EscapeAllConcat(s[..start], s[start..]);
  }

  method WriteEscape(writer: Writer, b: byte)
    requires !IsClean(b)
    modifies writer
    ensures writer.out == old(writer.out) + EscapeText(b)
  {
    if b == QUOTE { writer.Put([BACKSLASH, QUOTE]); return; }
    if b == BACKSLASH { writer.Put([BACKSLASH, BACKSLASH]); return; }
    if b == LF { writer.Put([BACKSLASH, LOWER_N]); return; }
    if b == CR { writer.Put([BACKSLASH, LOWER_R]); return; }
    if b == TAB { writer.Put([BACKSLASH, LOWER_T]); return; }
    writer.Put([BACKSLASH, LOWER_U, ZERO, ZERO]);
    writer.Put([HexText(b / 16)]);
    writer.Put([HexText(b % 16)]);
  }

  lemma {:induction false} Regroup(a: bytes, b: bytes, c: bytes, d: bytes)
    ensures ((a + b) + c) + d == a + (b + (c + d))
  {
  }

  /** The span that was held back, then the escape that interrupts it. */
  method WriteSpan(writer: Writer, text: bytes, start: nat, end: nat, ghost before: bytes)
    requires start <= end < |text| && Clean(text[start..end]) && !IsClean(text[end])
    requires writer.out == before + EscapeAll(text[..start])
    modifies writer
    ensures writer.out == before + EscapeAll(text[..end + 1])
  {
    EscapeSpan(text, start, end);
    ghost var span, escape := text[start..end], EscapeText(text[end]);
    Regroup(before, EscapeAll(text[..start]), span, escape);
    writer.Put(text[start..end]);
    WriteEscape(writer, text[end]);
  }

  lemma {:induction false} Enclosed(before: bytes, escaped: bytes, tail: bytes)
    ensures before + escaped + tail + [QUOTE] == before + ((escaped + tail) + [QUOTE])
  {
  }

  lemma {:induction false} EscapeNothing(text: bytes, before: bytes)
    ensures Clean(text[0..0]) && before == before + EscapeAll(text[..0])
  {
  }

  lemma {:induction false} CleanFurther(text: bytes, start: nat, position: nat)
    requires start <= position < |text| && Clean(text[start..position])
    ensures IsClean(text[position]) ==> Clean(text[start..position + 1])
    ensures Clean(text[position + 1..position + 1])
  {
    assert text[start..position + 1] == text[start..position] + [text[position]];
  }

  /** Copy clean spans in bulk; only bytes that need an escape interrupt the copy. */
  method WriteQuoted(writer: Writer, text: bytes)
    modifies writer
    ensures writer.out == old(writer.out) + QuotedText(text)
  {
    writer.Put([QUOTE]);
    ghost var before := writer.out;
    var cleanStart := 0;
    EscapeNothing(text, before);
    hide Clean, EscapeAll, EscapeText, IsClean;
    for position := 0 to |text|
      invariant cleanStart <= position
      invariant Clean(text[cleanStart..position])
      invariant writer.out == before + EscapeAll(text[..cleanStart])
    {
      CleanFurther(text, cleanStart, position);
      if !IsClean(text[position]) {
        WriteSpan(writer, text, cleanStart, position, before);
        cleanStart := position + 1;
      }
    }
    assert text[cleanStart..|text|] == text[cleanStart..];
    EscapeTail(text, cleanStart);
    Enclosed(before, EscapeAll(text[..cleanStart]), text[cleanStart..]);
    writer.Put(text[cleanStart..]);
    writer.Put([QUOTE]);
  }

  // ----- escapes read back ---------------------------------------------------------

  /** The escape the encoder writes for a byte is read as that byte. */
  lemma {:induction false} EscapeReadsBack(b: byte, tail: bytes)
    requires !IsClean(b)
    ensures EscapeText(b)[0] == BACKSLASH
    ensures EscapeAt(EscapeText(b) + tail) == Escape(|EscapeText(b)|, [b])
  {
    var s := EscapeText(b) + tail;
    if b < 0x20 && b != LF && b != CR && b != TAB {
      var hex := s[2..6];
      assert hex == [ZERO, ZERO, HexText(b / 16), HexText(b % 16)];
      assert HexDigit(HexText(b / 16)) == (b / 16) as nat && HexDigit(HexText(b % 16)) == (b % 16) as nat;
      assert Hex4(hex) == b as nat;
    }
  }

  /** One escaped byte of the scan. */
  lemma {:induction false} SpanStep(content: bytes, index: nat, b: byte, tail: bytes, escaped: bool, start: nat, at: Faults.Position)
    requires index <= |content| && content[index..] == EscapeText(b) + tail
    ensures QuotedSpanFrom(content, index, escaped, start, at) ==
            QuotedSpanFrom(content, index + |EscapeText(b)|, escaped || !IsClean(b), start, at)
    ensures content[index + |EscapeText(b)|..] == tail
  {
    var rest := content[index..];
    assert rest[0] == content[index];
    assert content[index + |EscapeText(b)|..] == rest[|EscapeText(b)|..];
    if !IsClean(b) { EscapeReadsBack(b, tail); }
  }

  /** The scan stops exactly behind the closing quote of a quoted string, whatever follows it. */
  lemma {:induction false} SpanOfEscaped(content: bytes, index: nat, text: bytes, suffix: bytes, escaped: bool, start: nat, at: Faults.Position)
    requires index <= |content| && content[index..] == EscapeAll(text) + ([QUOTE] + suffix)
    ensures QuotedSpanFrom(content, index, escaped, start, at) ==
            Faults.Ok(Span(index + |EscapeAll(text)| + 1, escaped || !Clean(text)))
    decreases |text|
  {
    hide EscapeText, QuotedSpanFrom, Clean, IsClean;
    if text == [] {
      SpanStops(content, index, suffix, escaped, start, at);
    } else {
      var width := |EscapeText(text[0])|;
      SpanMoves(content, index, text, [QUOTE] + suffix, escaped, start, at);
      SpanOfEscaped(content, index + width, text[1..], suffix, escaped || !IsClean(text[0]), start, at);
    }
  }

  /** The scan over one escaped byte and what is left of it. */
  lemma {:induction false} SpanMoves(content: bytes, index: nat, text: bytes, tail: bytes, escaped: bool, start: nat, at: Faults.Position)
    requires text != [] && index <= |content| && content[index..] == EscapeAll(text) + tail
    ensures index + |EscapeText(text[0])| <= |content| && |EscapeAll(text)| == |EscapeText(text[0])| + |EscapeAll(text[1..])|
    ensures content[index + |EscapeText(text[0])|..] == EscapeAll(text[1..]) + tail
    ensures QuotedSpanFrom(content, index, escaped, start, at) ==
            QuotedSpanFrom(content, index + |EscapeText(text[0])|, escaped || !IsClean(text[0]), start, at)
    ensures Clean(text) <==> IsClean(text[0]) && Clean(text[1..])
  {
    hide EscapeText, QuotedSpanFrom, Clean, IsClean;
    SpliceTail(EscapeText(text[0]), EscapeAll(text[1..]), tail);
    CleanCons(text);
    SpanStep(content, index, text[0], EscapeAll(text[1..]) + tail, escaped, start, at);
  }

  lemma {:induction false} SpliceTail(head: bytes, body: bytes, tail: bytes)
    ensures (head + body) + tail == head + (body + tail)
  {
  }

  lemma {:induction false} SpanStops(content: bytes, index: nat, suffix: bytes, escaped: bool, start: nat, at: Faults.Position)
    requires index <= |content| && content[index..] == EscapeAll([]) + ([QUOTE] + suffix)
    ensures QuotedSpanFrom(content, index, escaped, start, at) == Faults.Ok(Span(index + 1, escaped)) && Clean([])
  {
    assert content[index..][0] == content[index];
  }

  lemma {:induction false} CleanCons(s: bytes)
    requires s != []
    ensures Clean(s) <==> IsClean(s[0]) && Clean(s[1..])
  {
    assert forall i :: 0 < i < |s| ==> s[i] == s[1..][i - 1];
  }

  lemma {:induction false} MeaningOfEscaped(text: bytes)
    ensures Meaning(EscapeAll(text)) == Some(text)
  {
    if text != [] {
      var head, tail := EscapeText(text[0]), EscapeAll(text[1..]);
      MeaningOfEscaped(text[1..]);
      assert (head + tail)[|head|..] == tail;
      assert text == [text[0]] + text[1..];
      if !IsClean(text[0]) { EscapeReadsBack(text[0], tail); }
    }
  }

  lemma {:induction false} UnescapedOfEscaped(text: bytes)
    ensures Unescaped(EscapeAll(text), !Clean(text)) == text
  {
    MeaningOfEscaped(text);
    if Clean(text) { EscapeAllClean(text); }
  }

  /** Scanning and unescaping a quoted string gives back the string, for every string and any suffix. */
  lemma {:induction false} QuoteRoundTrip(content: bytes, start: nat, text: bytes, suffix: bytes, at: Faults.Position)
    requires start <= |content| && content[start..] == QuotedText(text) + suffix
    ensures start + 1 <= start + |QuotedText(text)| - 1 <= |content|
    ensures QuotedSpan(content, start, at) == Faults.Ok(Span(start + |QuotedText(text)|, !Clean(text)))
    ensures content[start + 1..start + |QuotedText(text)| - 1] == EscapeAll(text)
    ensures Unescaped(EscapeAll(text), !Clean(text)) == text
  {
    var tail := EscapeAll(text) + ([QUOTE] + suffix);
    assert content[start..] == [QUOTE] + tail;
    assert content[start + 1..] == tail;
    SpanOfEscaped(content, start + 1, text, suffix, false, start, at);
    assert content[start + 1..start + 1 + |EscapeAll(text)|] == tail[..|EscapeAll(text)|];
    UnescapedOfEscaped(text);
  }
}
