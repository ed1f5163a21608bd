/** When the encoder quotes a string or a key (src/encode.rs). */
module QuoteDecision {
  import opened Bytes
  import opened Tokens
  import opened Scalar
  import opened Output
  import opened Quoting

  predicate IsNumericByte(b: byte) {
    IsDigit(b) || b == DOT || IsExponentMark(b) || IsSign(b)
  }

  /** A token that could be mistaken for a number: a digit somewhere, only number-like bytes. */
  predicate IsNumericLike(text: bytes) {
    var rest := WithoutSign(text);
    && (exists i :: 0 <= i < |rest| && IsDigit(rest[i]))
    && (forall i :: 0 <= i < |rest| ==> IsNumericByte(rest[i]))
  }

  predicate ForcesQuote(b: byte, delimiter: byte) {
    b == delimiter || b == COLON || b == QUOTE || b == BACKSLASH || b < 0x20
  }

  predicate HasForcing(text: bytes, delimiter: byte) {
    exists i :: 0 <= i < |text| && ForcesQuote(text[i], delimiter)
  }

  predicate StartsOddly(text: bytes)
    requires text != []
  {
    text[0] == SPACE || text[0] == QUOTE || text[0] == LBRACKET || text[0] == LBRACE || text[0] == HASH || text[0] == APOSTROPHE
  }

  /** The decision as separate passes: another token class, number-like, odd ends, a dash item, wire syntax. */
  predicate MustQuote(text: bytes, delimiter: byte) {
    || text == []
    || !BareToken(text).BareString?
    || IsNumericLike(text)
    || StartsOddly(text) || text[|text| - 1] == SPACE
    || text == [MINUS] || StartsWith(text, DASH) || text == EMPTY_ARRAY
    || HasForcing(text, delimiter)
  }

  lemma {:induction false} DigitsAreNumeric(s: bytes)
    requires AllDigits(s) && s != []
    ensures forall i :: 0 <= i < |s| ==> IsNumericByte(s[i])
    ensures exists i :: 0 <= i < |s| && IsDigit(s[i])
  {
    assert IsDigit(s[0]);
  }

  /** Every number token is number-like. */
  lemma {:induction false} NumberIsNumericLike(text: bytes)
    requires IsIntegerLiteral(text) || IsFloatLiteral(text)
    ensures IsNumericLike(text)
  {
    var body := WithoutMinus(text);
    if IsIntegerLiteral(text) {
      DigitsAreNumeric(body);
    } else {
      FloatBodyIsNumeric(body);
    }
    assert body != [] && IsDigit(body[0]);
    assert WithoutSign(text) == body;
  }

  lemma {:induction false} FloatBodyIsNumeric(body: bytes)
    requires IsFloatBody(body)
    ensures body != [] && IsDigit(body[0])
    ensures forall i :: 0 <= i < |body| ==> IsNumericByte(body[i])
  {
    var mark := ExponentMark(body);
    var mantissa := if mark.Some? then body[..mark.value] else body;
    var dot := IndexOf(mantissa, DOT);
    var integral := if dot.Some? then mantissa[..dot.value] else mantissa;
    assert integral[0] == body[0];
    forall i | 0 <= i < |mantissa| ensures IsNumericByte(mantissa[i]) {
      if dot.Some? && i < dot.value { assert integral[i] == mantissa[i]; }
      else if dot.Some? && i > dot.value { assert mantissa[dot.value + 1..][i - dot.value - 1] == mantissa[i]; }
    }
    if mark.Some? {
      var tail := body[mark.value + 1..];
      forall i | 0 <= i < |tail| ensures IsNumericByte(tail[i]) {
        if IsSign(tail[0]) && i > 0 { assert tail[1..][i - 1] == tail[i]; }
      }
      forall i | 0 <= i < |body| ensures IsNumericByte(body[i]) {
        if i < mark.value { assert mantissa[i] == body[i]; }
        else if i > mark.value { assert tail[i - mark.value - 1] == body[i]; }
      }
    }
  }

  method AnyForcing(text: bytes, delimiter: byte) returns (found: bool)
    ensures found <==> HasForcing(text, delimiter)
  {
    for i := 0 to |text|
      invariant forall j :: 0 <= j < i ==> !ForcesQuote(text[j], delimiter)
    {
      if ForcesQuote(text[i], delimiter) { return true; }
    }
    return false;
  }

  /** Answer both questions in one pass: does a byte force quotes, could the token pass for a number. */
  method ScanNumberLike(text: bytes, delimiter: byte) returns (quote: bool)
    requires text != []
    ensures quote <==> HasForcing(text, delimiter) || IsNumericLike(text)
  {
    var signed := IsSign(text[0]);
    ghost var rest := WithoutSign(text);
    ghost var skip := if signed then 1 else 0;
    var anyDigit, allNumeric := false, true;
    for i := 0 to |text|
      invariant forall j :: 0 <= j < i ==> !ForcesQuote(text[j], delimiter)
      invariant anyDigit <==> exists j :: skip <= j < i && IsDigit(text[j])
      invariant allNumeric <==> forall j :: skip <= j < i ==> IsNumericByte(text[j])
    {
      if ForcesQuote(text[i], delimiter) { return true; }
      if i == 0 && signed { continue; }
      if IsDigit(text[i]) {
        anyDigit := true;
      } else if !IsNumericByte(text[i]) {
        allNumeric := false;
      }
    }
    assert forall j :: 0 <= j < |rest| ==> rest[j] == text[j + skip];
    assert anyDigit ==> exists j :: 0 <= j < |rest| && IsDigit(rest[j]) by {
      if anyDigit { var j :| skip <= j < |text| && IsDigit(text[j]); assert rest[j - skip] == text[j]; }
    }
    assert allNumeric ==> forall j :: 0 <= j < |rest| ==> IsNumericByte(rest[j]);
    assert !allNumeric ==> !IsNumericLike(text) by {
      if !allNumeric { var j :| skip <= j < |text| && !IsNumericByte(text[j]); assert rest[j - skip] == text[j]; }
    }
    return anyDigit && allNumeric;
  }

  /** A token whose first byte no number starts with is not number-like. */
  lemma {:induction false} FirstByteDecides(text: bytes)
    requires text != [] && !IsNumericByte(text[0])
    ensures !IsNumericLike(text) && !IsIntegerLiteral(text) && !IsFloatLiteral(text)
  {
    assert WithoutSign(text) == text;
    if IsIntegerLiteral(text) || IsFloatLiteral(text) { NumberIsNumericLike(text); }
  }

  lemma {:induction false} NumberLikeCoversNumbers(text: bytes)
    requires !IsNumericLike(text)
    ensures !IsIntegerLiteral(text) && !IsFloatLiteral(text)
  {
    if IsIntegerLiteral(text) || IsFloatLiteral(text) { NumberIsNumericLike(text); }
  }

  /** One scan decides as the separate passes do. */
  method NeedsQuote(text: bytes, delimiter: byte) returns (quote: bool)
    ensures quote <==> MustQuote(text, delimiter)
  {
    if text == [] { return true; }
    if text == NULL_TEXT || text == TRUE_TEXT || text == FALSE_TEXT || text == [MINUS] || text == EMPTY_ARRAY { return true; }
    if StartsOddly(text) || text[|text| - 1] == SPACE || StartsWith(text, DASH) { return true; }
    if !IsNumericByte(text[0]) {
      FirstByteDecides(text);
      quote := AnyForcing(text, delimiter);
    } else {
      quote := ScanNumberLike(text, delimiter);
      if !quote { NumberLikeCoversNumbers(text); }
    }
  }

  /** A key may stay bare when it starts like an identifier and goes on with letters, digits, `_`, `-`, `.`. */
  predicate KeyNeedsQuote(key: bytes) {
    || key == []
    || !(IsAlpha(key[0]) || key[0] == UNDERSCORE)
    || exists i :: 0 <= i < |key| && !IsKeyByte(key[i])
  }

  predicate IsKeyByte(b: byte) {
    IsAlpha(b) || IsDigit(b) || b == UNDERSCORE || b == MINUS || b == DOT
  }

  function KeyText(key: bytes): bytes {
    if KeyNeedsQuote(key) then QuotedText(key) else key
  }

  function StringText(text: bytes, delimiter: byte): bytes {
    if MustQuote(text, delimiter) then QuotedText(text) else text
  }

  method WriteKey(writer: Writer, key: bytes)
    modifies writer
    ensures writer.out == old(writer.out) + KeyText(key)
  {
    if KeyNeedsQuote(key) { WriteQuoted(writer, key); } else { writer.Put(key); }
  }

  method WriteString(writer: Writer, text: bytes, delimiter: byte)
    modifies writer
    ensures writer.out == old(writer.out) + StringText(text, delimiter)
  {
    var quote := NeedsQuote(text, delimiter);
    if quote { WriteQuoted(writer, text); } else { writer.Put(text); }
  }

  // ----- long entry strings --------------------------------------------------------

  const LONG_ENTRY: nat := 96

  predicate LongEntry(text: bytes) {
    |text| >= LONG_ENTRY && !IsNumericByte(text[0])
  }

  /** The spelling of a string behind `key: `; a long one is only searched for wire syntax. */
  function EntryStringText(text: bytes, delimiter: byte): bytes {
    if LongEntry(text) then (if HasForcing(text, delimiter) then QuotedText(text) else text)
    else StringText(text, delimiter)
  }

  /** The long path decides as the full decision does, except on strings with odd ends. */
  lemma {:induction false} LongEntryDecision(text: bytes, delimiter: byte)
    requires LongEntry(text)
    requires !StartsOddly(text) && text[|text| - 1] != SPACE
    ensures HasForcing(text, delimiter) <==> MustQuote(text, delimiter)
  {
    FirstByteDecides(text);
    assert |NULL_TEXT| == 4 && |TRUE_TEXT| == 4 && |FALSE_TEXT| == 5;
  }

  method WriteEntryString(writer: Writer, text: bytes, delimiter: byte)
    modifies writer
    ensures writer.out == old(writer.out) + EntryStringText(text, delimiter)
  {
    if |text| >= LONG_ENTRY && !IsNumericByte(text[0]) {
      var quote := AnyForcing(text, delimiter);
      if quote { WriteQuoted(writer, text); } else { writer.Put(text); }
    } else {
      WriteString(writer, text, delimiter);
    }
  }
}
