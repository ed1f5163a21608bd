/** When a string is written as it stands, byte by byte, and how it is quoted otherwise (src/encode.rs). */
module PlainStrings {
  import opened Bytes
  import opened Values
  import opened Shapes
  import opened Quoting
  import opened QuoteDecision
  import opened Render
  import Scalar
  import Header

  // ----- plain strings --------------------------------------------------------------------------------

  /** A digit, and otherwise only digits, `.`, `e`, `E`, `+` and `-`, behind a sign that does not count. */
  predicate NumberLike(text: bytes) {
    var from := if text != [] && (text[0] == 43 || text[0] == 45) then 1 else 0;
    && (exists i :: from <= i < |text| && 48 <= text[i] <= 57)
    && (forall i :: from <= i < |text| ==>
          48 <= text[i] <= 57 || text[i] == 46 || text[i] == 101 || text[i] == 69 || text[i] == 43 || text[i] == 45)
  }

  /** No byte is wire syntax: the delimiter, a colon, a quote, a backslash, a control character. */
  predicate Quiet(text: bytes, delimiter: byte) {
    forall i :: 0 <= i < |text| ==> text[i] != delimiter && text[i] != 58 && text[i] != 34 && text[i] != 92 && 32 <= text[i]
  }

  /** The ends are harmless: no space at either, no quote, bracket, brace, hash or apostrophe in front, no dash
      that would make it a list item. */
  predicate QuietEnds(text: bytes)
    requires text != []
  {
    && text[0] != 32 && text[0] != 34 && text[0] != 91 && text[0] != 123 && text[0] != 35 && text[0] != 39
    && text[|text| - 1] != 32
    && !(text[0] == 45 && (|text| == 1 || text[1] == 32))
  }

  predicate Keyword(text: bytes) {
    text == [110, 117, 108, 108] || text == [116, 114, 117, 101] || text == [102, 97, 108, 115, 101]
  }

  /** A string that may stand as it is, wherever it stands. */
  predicate Plain(text: bytes, delimiter: byte) {
    text != [] && Quiet(text, delimiter) && QuietEnds(text) && !Keyword(text) && !NumberLike(text)
  }

  lemma {:induction false} NumberLikeIs(text: bytes)
    ensures IsNumericLike(text) <==> NumberLike(text)
  {
    var rest := Scalar.WithoutSign(text);
    var from := if text != [] && (text[0] == 43 || text[0] == 45) then 1 else 0;
    assert forall i :: 0 <= i < |rest| ==> rest[i] == text[i + from];
    if IsNumericLike(text) {
      var i :| 0 <= i < |rest| && IsDigit(rest[i]);
      assert 48 <= text[i + from] <= 57;
      forall k | from <= k < |text| ensures IsNumericByte(text[k]) { assert IsNumericByte(rest[k - from]); }
    }
    if NumberLike(text) {
      var i :| from <= i < |text| && 48 <= text[i] <= 57;
      assert IsDigit(rest[i - from]);
    }
  }

  /** A string needs quotes exactly when it is not plain. */
  lemma {:induction false} QuotedUnlessPlain(text: bytes, delimiter: byte)
    ensures MustQuote(text, delimiter) <==> !Plain(text, delimiter)
  {
    NumberLikeIs(text);
    if !IsNumericLike(text) { NumberLikeCoversNumbers(text); }
    hide IsNumericLike, NumberLike, Scalar.IsIntegerLiteral, Scalar.IsFloatLiteral;
    if text != [] {
      ForcingIs(text, delimiter);
      hide HasForcing, Quiet;
      DashIs(text);
    }
  }

  lemma {:induction false} ForcingIs(text: bytes, delimiter: byte)
    ensures HasForcing(text, delimiter) <==> !Quiet(text, delimiter)
  {
  }

  lemma {:induction false} DashIs(text: bytes)
    requires text != []
    ensures (text == [MINUS] || StartsWith(text, DASH)) <==> text[0] == 45 && (|text| == 1 || text[1] == 32)
  {
    if |text| >= 2 && text[0] == 45 && text[1] == 32 { assert text[..2] == DASH; }
  }

  // ----- quoted strings -------------------------------------------------------------------------------

  /** A hexadecimal digit in lower case. */
  function LowerHex(n: int): byte
    requires 0 <= n < 16
  {
    if n < 10 then (48 + n) as byte else (87 + n) as byte
  }

  /** One byte between quotes. */
  function Between(b: byte): bytes {
    if b == 34 then [92, 34]
    else if b == 92 then [92, 92]
    else if b == 10 then [92, 110]
    else if b == 13 then [92, 114]
    else if b == 9 then [92, 116]
    else if b < 32 then [92, 117, 48, 48, LowerHex(b as int / 16), LowerHex(b as int % 16)]
    else [b]
  }

  /** The bytes of a string between its quotes. */
  function Inside(text: bytes): bytes {
    if text == [] then [] else Inside(text[..|text| - 1]) + Between(text[|text| - 1])
  }

  function InQuotes(text: bytes): bytes {
    [34] + Inside(text) + [34]
  }

  lemma {:induction false} ByteBetween(b: byte)
    ensures EscapeText(b) == Between(b)
  {
  }

  lemma {:induction false} QuotesAre(text: bytes)
    ensures QuotedText(text) == InQuotes(text)
  {
    AllBetween(text);
  }

  lemma {:induction false} AllBetween(text: bytes)
    ensures EscapeAll(text) == Inside(text)
  {
    if text != [] {
      var front, last := text[..|text| - 1], text[|text| - 1];
      AllBetween(front);
      ByteBetween(last);
      assert text == front + [last];
      EscapeAllConcat(front, [last]);
      EscapeOne(last);
    }
  }

  // ----- what is written -----------------------------------------------------------------------------------

  /** A string as root, list item or cell. */
  function StringSpelling(text: bytes, delimiter: byte): bytes {
    if Plain(text, delimiter) then text else InQuotes(text)
  }

  /** A string behind a key: from 96 bytes on, unless it starts like a number, only wire syntax counts. */
  function EntrySpelling(text: bytes, delimiter: byte): bytes {
    if |text| >= 96 && !(48 <= text[0] <= 57 || text[0] == 46 || text[0] == 101 || text[0] == 69 || text[0] == 43 || text[0] == 45)
    then (if Quiet(text, delimiter) then text else InQuotes(text))
    else StringSpelling(text, delimiter)
  }

  /** A key stands as it is when it starts with a letter or `_` and goes on with letters, digits, `_`, `-` and `.`. */
  predicate PlainKey(key: bytes) {
    && key != [] && (65 <= key[0] <= 90 || 97 <= key[0] <= 122 || key[0] == 95)
    && forall i :: 0 <= i < |key| ==>
         65 <= key[i] <= 90 || 97 <= key[i] <= 122 || 48 <= key[i] <= 57 || key[i] == 95 || key[i] == 45 || key[i] == 46
  }

  function KeySpelling(key: bytes): bytes {
    if PlainKey(key) then key else InQuotes(key)
  }

  lemma {:induction false} KeyIsSpelled(key: bytes)
    ensures KeyText(key) == KeySpelling(key)
  {
    QuotesAre(key);
    hide QuotedText, InQuotes;
    assert KeyNeedsQuote(key) <==> !PlainKey(key);
  }

  lemma {:induction false} StringIsSpelled(text: bytes, delimiter: byte)
    ensures ScalarText(Str(text), delimiter) == StringSpelling(text, delimiter)
    ensures EntryScalarText(Str(text), delimiter) == EntrySpelling(text, delimiter)
  {
    QuotedUnlessPlain(text, delimiter);
    QuotesAre(text);
    ForcingIs(text, delimiter);
    hide MustQuote, Plain, QuotedText, InQuotes, HasForcing, Quiet;
  }

  /** The other scalars but numbers. */
  lemma {:induction false} WordsAreSpelled(delimiter: byte)
    ensures ScalarText(Null, delimiter) == [110, 117, 108, 108]
    ensures ScalarText(Bool(true), delimiter) == [116, 114, 117, 101] && ScalarText(Bool(false), delimiter) == [102, 97, 108, 115, 101]
  {
  }

  /** A string as document, behind a key, behind a dash, and among cells. */
  lemma {:induction false} StringsInPlace(text: bytes, key: bytes, depth: nat, nesting: nat, delimiter: byte, width: nat)
    ensures RootLines(Str(text), delimiter) == Some([OutLine(0, StringSpelling(text, delimiter))])
    ensures EntryBlock(key, Str(text), depth, delimiter) == Some(Block(KeySpelling(key) + ([58, 32] + EntrySpelling(text, delimiter)), []))
    ensures ItemBlock(Str(text), depth, nesting, delimiter) == Some(Block([45, 32] + StringSpelling(text, delimiter), []))
    ensures CellTexts([Str(text)], delimiter) == [StringSpelling(text, delimiter)]
  {
    StringIsSpelled(text, delimiter);
    KeyIsSpelled(key);
    hide ScalarText, EntryScalarText, KeyText, StringSpelling, EntrySpelling, KeySpelling;
  }

  // ----- integers --------------------------------------------------------------------------------------------

  /** A power of ten. */
  function TenTo(n: nat): nat {
    if n == 0 then 1 else 10 * TenTo(n - 1)
  }

  /** A numeral's first digit counts most: the value from the front. */
  lemma {:induction false} FromTheFront(digits: bytes)
    requires AllDigits(digits) && digits != []
    ensures Header.DecimalValue(digits) == (digits[0] as int - 48) * TenTo(|digits| - 1) + Header.DecimalValue(digits[1..])
  {
    if |digits| == 1 {
      assert digits[..0] == [] && digits[1..] == [];
    } else {
      var front := digits[..|digits| - 1];
      FromTheFront(front);
      assert digits[1..][..|digits| - 2] == front[1..] && digits[1..][|digits| - 2] == digits[|digits| - 1];
      TenTimes(digits[0] as int - 48, TenTo(|digits| - 2), Header.DecimalValue(front[1..]));
    }
  }

  lemma {:induction false} TenTimes(d: int, p: int, r: int)
    ensures 10 * (d * p + r) == d * (10 * p) + 10 * r
  {
  }

  /** The text of an integer: a minus if it is negative, and the one numeral of its size without leading zeros. */
  lemma {:induction false} IntegerText(n: int, digits: bytes)
    requires digits != [] && AllDigits(digits) && (|digits| == 1 || digits[0] != 48)
    requires Header.DecimalValue(digits) == if n < 0 then -n else n
    ensures IntText(n) == (if n < 0 then [45] else []) + digits
  {
    OneNumeral(digits);
  }

  lemma {:induction false} OneNumeral(digits: bytes)
    requires digits != [] && AllDigits(digits) && (|digits| == 1 || digits[0] != 48)
    ensures DecimalText(Header.DecimalValue(digits)) == digits
  {
    var front, last := digits[..|digits| - 1], digits[|digits| - 1];
    if |digits| == 1 {
      assert digits == [last] && Header.DecimalValue(front) == 0;
    } else {
      OneNumeral(front);
      NumeralIsPositive(front);
      assert digits == front + [last];
    }
  }

  lemma {:induction false} NumeralIsPositive(digits: bytes)
    requires digits != [] && AllDigits(digits) && digits[0] != 48
    ensures Header.DecimalValue(digits) > 0
  {
    if |digits| > 1 { NumeralIsPositive(digits[..|digits| - 1]); }
  }
}
