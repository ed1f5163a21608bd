/** Written scalars and keys read back: every spelling classifies to the scalar it was written for. */
module ReadScalars {
  import opened Bytes
  import opened Tokens
  import opened Faults
  import opened Utf8
  import opened Cells
  import opened Escapes
  import opened Scalar
  import opened Header
  import opened Values
  import opened Shapes
  import opened Quoting
  import opened QuoteDecision
  import opened Render
  import opened Layout
  import Grammar

  // ----- decimal numbers -----------------------------------------------------------

  lemma {:induction false} DecimalTextValue(n: nat)
    ensures DecimalValue(DecimalText(n)) == n
  {
    var text := DecimalText(n);
    if n >= 10 {
      DecimalTextValue(n / 10);
      assert text[..|text| - 1] == DecimalText(n / 10);
    } else {
      assert DecimalValue([]) == 0 && text[..0] == [];
    }
  }

  lemma {:induction false} IntTextValue(n: int)
    ensures IsIntegerLiteral(IntText(n)) && IntegerOf(IntText(n)) == n
  {
    if n < 0 {
      DecimalTextValue(-n);
      assert IntText(n)[1..] == DecimalText(-n);
    } else {
      DecimalTextValue(n);
    }
  }

  predicate IsNumber(text: bytes) { IsIntegerLiteral(text) || IsFloatLiteral(text) }

  /** Numbers are made of number bytes only. */
  lemma {:induction false} NumberBytes(text: bytes)
    requires IsNumber(text)
    ensures text != [] && forall i :: 0 <= i < |text| ==> IsNumericByte(text[i])
  {
    NumberIsNumericLike(text);
    var rest := WithoutSign(text);
    if rest != text { assert forall i :: 0 < i < |text| ==> text[i] == rest[i - 1]; }
  }

  // ----- text the scans pass over ----------------------------------------------------

  predicate IsMark(b: byte) {
    b == LBRACKET || b == RBRACKET || b == LBRACE || b == RBRACE || b == COLON || IsDelimiter(b)
  }

  /** No structural byte outside quotes, and every quote closed. */
  predicate Hushed(s: bytes, mode: Mode) {
    if s == [] then mode.Outside? else !(mode.Outside? && IsMark(s[0])) && Hushed(s[1..], Next(mode, s[0]))
  }

  lemma {:induction false} HushedFind(s: bytes, mode: Mode, needle: byte)
    requires Hushed(s, mode) && IsMark(needle)
    ensures Find(s, needle, mode).None? && ModeAfter(s, mode).Outside?
  {
    if s != [] { HushedFind(s[1..], Next(mode, s[0]), needle); }
  }

  lemma {:induction false} HushedInside(b: byte, rest: bytes)
    requires Hushed(rest, Inside) && IsClean(b)
    ensures Hushed([b] + rest, Inside)
  {
    assert ([b] + rest)[1..] == rest;
  }

  lemma {:induction false} HushedSkip(b: byte, rest: bytes)
    requires Hushed(rest, Inside)
    ensures Hushed([BACKSLASH, b] + rest, Inside)
  {
    assert ([BACKSLASH, b] + rest)[1..][1..] == rest;
  }

  /** An escaped byte leaves the scan inside the quotes. */
  lemma {:induction false} HushedEscape(b: byte, rest: bytes)
    requires Hushed(rest, Inside)
    ensures Hushed(EscapeText(b) + rest, Inside)
  {
    var e := EscapeText(b);
    if |e| == 1 {
      HushedInside(b, rest);
    } else if |e| == 2 {
      HushedSkip(e[1], rest);
    } else {
      var low := [e[5]] + rest;
      var high := [e[4]] + low;
      HushedInside(e[5], rest);
      HushedInside(e[4], low);
      HushedInside(ZERO, high);
      HushedInside(ZERO, [ZERO] + high);
      HushedSkip(LOWER_U, [ZERO] + ([ZERO] + high));
      assert e + rest == [BACKSLASH, LOWER_U] + ([ZERO] + ([ZERO] + high));
    }
  }

  lemma {:induction false} HushedEscapes(text: bytes)
    ensures Hushed(EscapeAll(text) + [QUOTE], Inside)
  {
    if text == [] {
      assert ([] + [QUOTE])[1..] == [];
    } else {
      HushedEscapes(text[1..]);
      HushedEscape(text[0], EscapeAll(text[1..]) + [QUOTE]);
      assert EscapeAll(text) + [QUOTE] == EscapeText(text[0]) + (EscapeAll(text[1..]) + [QUOTE]);
    }
  }

  lemma {:induction false} HushedQuoted(text: bytes)
    ensures Hushed(QuotedText(text), Outside)
  {
    HushedEscapes(text);
    assert QuotedText(text)[1..] == EscapeAll(text) + [QUOTE];
  }

  lemma {:induction false} HushedPlain(s: bytes)
    requires forall i :: 0 <= i < |s| ==> !IsMark(s[i]) && s[i] != QUOTE
    ensures Hushed(s, Outside)
  {
    if s != [] { HushedPlain(s[1..]); }
  }

  lemma {:induction false} ModeWithoutQuotes(s: bytes)
    requires QUOTE !in s
    ensures ModeAfter(s, Outside).Outside?
  {
    if s != [] { ModeWithoutQuotes(s[1..]); }
  }

  // ----- quoted text ----------------------------------------------------------------

  lemma {:induction false} EscapedIsPrintable(text: bytes)
    ensures Printable(EscapeAll(text))
  {
    if text != [] { EscapedIsPrintable(text[1..]); }
  }

  lemma {:induction false} EscapeIsUtf8(b: byte)
    requires b < 0x80
    ensures ValidUtf8(EscapeText(b))
  {
    ValidUtf8Ascii(EscapeText(b));
  }

  lemma {:induction false} EscapedIsUtf8(text: bytes)
    requires ValidUtf8(text)
    ensures ValidUtf8(EscapeAll(text))
  {
    if text != [] {
      var n := SequenceLength(text);
      EscapedIsUtf8(text[n..]);
      EscapeAllConcat(text[..n], text[n..]);
      assert text == text[..n] + text[n..];
      SequenceEscaped(text, n);
      ValidUtf8Concat(EscapeAll(text[..n]), EscapeAll(text[n..]));
    }
  }

  lemma {:induction false} SequenceEscaped(text: bytes, n: nat)
    requires n == SequenceLength(text) > 0
    ensures ValidUtf8(EscapeAll(text[..n]))
  {
    if n == 1 {
      assert text[..1] == [text[0]];
      EscapeOne(text[0]);
      EscapeIsUtf8(text[0]);
    } else {
      EscapeAllClean(text[..n]);
      SequenceAlone(text);
    }
  }

  lemma {:induction false} QuotedIsWritable(text: bytes)
    requires ValidUtf8(text)
    ensures Writable(QuotedText(text)) && QuotedText(text)[|QuotedText(text)| - 1] == QUOTE
  {
    EscapedIsPrintable(text);
    EscapedIsUtf8(text);
    ValidUtf8Ascii([QUOTE]);
    ValidUtf8Concat([QUOTE], EscapeAll(text));
    ValidUtf8Concat([QUOTE] + EscapeAll(text), [QUOTE]);
  }

  // ----- scalars -------------------------------------------------------------------

  /** Scalars as Python gives them: strings are UTF-8, a float's spelling is a number and zero has no sign. */
  predicate ScalarFormed(value: Value) {
    match value
    case Float(text) => IsNumber(text) && text != [MINUS, ZERO]
    case Str(text) => ValidUtf8(text)
    case _ => true
  }

  /** A float that is spelled as an integer comes back as one. */
  function NormScalar(value: Value): Value {
    if value.Float? && IsIntegerLiteral(value.text) then Int(IntegerOf(value.text)) else value
  }

  ghost predicate ReadsAs(text: bytes, value: Value) {
    forall at :: ReadsAt(text, value, at)
  }

  predicate ReadsAt(text: bytes, value: Value, at: Position) {
    var r := Grammar.ValueToken(text, at);
    r.Ok? && TokenValue(r.value) == value
  }

  lemma {:induction false} NumberReads(text: bytes)
    requires IsNumber(text)
    ensures ReadsAs(text, if IsIntegerLiteral(text) then Int(IntegerOf(text)) else Float(text))
  {
    NumberBytes(text);
    NumberToken(text);
  }

  lemma {:induction false} NumberToken(text: bytes)
    requires IsNumber(text) && text != [] && IsNumericByte(text[0])
    ensures BareToken(text) == if IsIntegerLiteral(text) then IntegerToken(text) else FloatToken(text)
  {
  }

  lemma {:induction false} QuotedReads(text: bytes)
    ensures ReadsAs(QuotedText(text), Str(text))
  {
    var content := QuotedText(text);
    forall at ensures ReadsAt(content, Str(text), at) {
      assert content[0..] == content + [];
      QuoteRoundTrip(content, 0, text, [], at);
    }
  }

  lemma {:induction false} BareReads(text: bytes, delimiter: byte)
    requires !MustQuote(text, delimiter)
    ensures ReadsAs(text, Str(text))
  {
  }

  /** Every scalar's spelling reads as that scalar. */
  lemma {:induction false} ScalarReads(value: Value, delimiter: byte)
    requires IsScalar(value) && ScalarFormed(value)
    ensures ReadsAs(ScalarText(value, delimiter), NormScalar(value))
  {
    match value
    case Null =>
    case Bool(_) =>
    case Int(n) =>
      IntTextValue(n);
      NumberReads(IntText(n));
    case Float(text) => NumberReads(text);
    case Str(text) =>
      if MustQuote(text, delimiter) { QuotedReads(text); } else { BareReads(text, delimiter); }
  }

  // ----- scalars as cells and lines -------------------------------------------------

  /** Text that can stand as a cell, and as the end of a line. */
  predicate Standalone(text: bytes, delimiter: byte) {
    && Writable(text) && text[|text| - 1] != SPACE
    && CellText(text, delimiter) && Find(text, COLON, Outside).None?
  }

  lemma {:induction false} PlainIsStandalone(text: bytes, delimiter: byte)
    requires Writable(text) && text[|text| - 1] != SPACE && IsDelimiter(delimiter)
    requires forall i :: 0 <= i < |text| ==> text[i] != QUOTE && text[i] != delimiter && text[i] != COLON
    ensures Standalone(text, delimiter)
  {
    FindWithoutQuotes(text, delimiter);
    FindWithoutQuotes(text, COLON);
    ModeWithoutQuotes(text);
  }

  lemma {:induction false} QuotedIsStandalone(text: bytes, delimiter: byte)
    requires ValidUtf8(text) && IsDelimiter(delimiter)
    ensures Standalone(QuotedText(text), delimiter)
  {
    QuotedIsWritable(text);
    HushedQuoted(text);
    HushedFind(QuotedText(text), Outside, delimiter);
    HushedFind(QuotedText(text), Outside, COLON);
  }

  lemma {:induction false} NumberIsStandalone(text: bytes, delimiter: byte)
    requires IsNumber(text) && IsDelimiter(delimiter)
    ensures Standalone(text, delimiter)
  {
    NumberBytes(text);
    NumericIsStandalone(text, delimiter);
  }

  lemma {:induction false} NumericIsStandalone(text: bytes, delimiter: byte)
    requires text != [] && IsDelimiter(delimiter) && forall i :: 0 <= i < |text| ==> IsNumericByte(text[i])
    ensures Standalone(text, delimiter)
  {
    ValidUtf8Ascii(text);
    PlainIsStandalone(text, delimiter);
  }

  lemma {:induction false} WordIsStandalone(text: bytes, delimiter: byte)
    requires text != [] && IsDelimiter(delimiter) && forall i :: 0 <= i < |text| ==> IsAlpha(text[i])
    ensures Standalone(text, delimiter)
  {
    ValidUtf8Ascii(text);
    PlainIsStandalone(text, delimiter);
  }

  lemma {:induction false} BareIsStandalone(text: bytes, delimiter: byte)
    requires !MustQuote(text, delimiter) && ValidUtf8(text) && IsDelimiter(delimiter)
    ensures Standalone(text, delimiter)
  {
    assert forall i :: 0 <= i < |text| ==> !ForcesQuote(text[i], delimiter);
    PlainIsStandalone(text, delimiter);
  }

  lemma {:induction false} ScalarIsStandalone(value: Value, delimiter: byte)
    requires IsScalar(value) && ScalarFormed(value) && IsDelimiter(delimiter)
    ensures Standalone(ScalarText(value, delimiter), delimiter)
  {
    match value
    case Null => WordIsStandalone(NULL_TEXT, delimiter);
    case Bool(flag) => WordIsStandalone(if flag then TRUE_TEXT else FALSE_TEXT, delimiter);
    case Int(n) =>
      IntTextValue(n);
      NumberIsStandalone(IntText(n), delimiter);
    case Float(text) => NumberIsStandalone(text, delimiter);
    case Str(text) =>
      if MustQuote(text, delimiter) { QuotedIsStandalone(text, delimiter); } else { BareIsStandalone(text, delimiter); }
  }

  // ----- keys ----------------------------------------------------------------------

  /** The token a written key is read as. */
  function KeyToken(key: bytes): StringToken {
    if KeyNeedsQuote(key) then Quoted(EscapeAll(key), !Clean(key)) else Bare(key)
  }

  lemma {:induction false} KeyTokenText(key: bytes)
    ensures TextOf(KeyToken(key)) == key
  {
    UnescapedOfEscaped(key);
  }

  /** A written key reads as itself, is silent to every structural scan, and has no space at its ends. */
  lemma {:induction false} KeyReads(key: bytes, at: Position)
    ensures StringTokenOf(KeyText(key), at) == Ok(KeyToken(key))
  {
    if KeyNeedsQuote(key) {
      var content := QuotedText(key);
      assert content[0..] == content + [];
      QuoteRoundTrip(content, 0, key, [], at);
    }
  }

  lemma {:induction false} BareKeyBytes(key: bytes)
    requires !KeyNeedsQuote(key)
    ensures key != [] && forall i :: 0 <= i < |key| ==> IsKeyByte(key[i])
  {
  }

  lemma {:induction false} KeyIsHushed(key: bytes)
    ensures Hushed(KeyText(key), Outside)
  {
    if KeyNeedsQuote(key) { HushedQuoted(key); } else { HushedPlain(key); }
  }

  lemma {:induction false} KeyIsTrimmed(key: bytes)
    ensures KeyText(key) != [] && Trimmed(KeyText(key)) && KeyText(key)[0] != MINUS && KeyText(key)[0] != LBRACKET
  {
    if !KeyNeedsQuote(key) {
      BareKeyBytes(key);
      assert IsKeyByte(key[|key| - 1]);
    }
  }

  lemma {:induction false} KeyIsWritable(key: bytes)
    requires ValidUtf8(key)
    ensures Writable(KeyText(key))
  {
    if KeyNeedsQuote(key) { QuotedIsWritable(key); } else { BareKeyBytes(key); }
  }
}
