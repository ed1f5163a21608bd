/** What single tokens are, byte by byte: bare words and numbers, quoted values, keys, cells (src/scalar.rs, src/parser.rs). */
module TokenLaws {
  import opened Bytes
  import opened Faults
  import opened Tokens
  import opened Escapes
  import opened Scalar
  import opened Cells
  import opened Header
  import opened Grammar
  import opened Quoting
  import opened PlainStrings
  import opened LineLaws
  import opened Values

  // ----- numbers ------------------------------------------------------------------------------------

  /** Digits from `i` up to `j`, at least one. */
  predicate Digits(s: bytes, i: nat, j: nat) {
    i < j <= |s| && forall k :: i <= k < j ==> 48 <= s[k] <= 57
  }

  /** The integer part of a number: a zero, or digits that do not start with one. */
  predicate Whole(s: bytes, n: nat) {
    Digits(s, 0, n) && (n == 1 || s[0] != 48)
  }

  /** A point and digits, or nothing. */
  predicate Fraction(s: bytes, n: nat, m: nat) {
    m == n || (n < |s| && s[n] == 46 && Digits(s, n + 1, m))
  }

  /** A mark, a sign or none, and digits to the end, or nothing. */
  predicate Exponent(s: bytes, m: nat) {
    m == |s| ||
    (m < |s| && (s[m] == 101 || s[m] == 69) &&
     (Digits(s, m + 1, |s|) || (m + 1 < |s| && (s[m + 1] == 43 || s[m + 1] == 45) && Digits(s, m + 2, |s|))))
  }

  /** A number with a fraction, an exponent, or both (section 6 of RFC 8259), its minus taken off. */
  predicate FractionalAt(s: bytes, n: nat, m: nat) {
    Whole(s, n) && Fraction(s, n, m) && Exponent(s, m) && (n < m || m < |s|)
  }

  function Unsigned(token: bytes): bytes {
    if token != [] && token[0] == 45 then token[1..] else token
  }

  lemma {:induction false} IntegersAre(s: bytes)
    ensures IsIntegerBody(s) <==> Whole(s, |s|)
  {
  }

  lemma {:induction false} ExponentsAre(s: bytes, m: nat)
    requires m < |s| && (s[m] == 101 || s[m] == 69)
    ensures IsExponent(s[m + 1..]) <==> Exponent(s, m)
  {
    var tail := s[m + 1..];
    assert forall k :: 0 <= k < |tail| ==> tail[k] == s[m + 1 + k];
    if tail != [] && IsSign(tail[0]) {
      var digits := tail[1..];
      assert forall k :: 0 <= k < |digits| ==> digits[k] == s[m + 2 + k];
      assert forall k :: m + 2 <= k < |s| ==> s[k] == digits[k - m - 2];
    } else {
      assert forall k :: m + 1 <= k < |s| ==> s[k] == tail[k - m - 1];
    }
  }

  /** Where the integer part and the fraction end. */
  lemma {:induction false} FractionalIsFloat(s: bytes, n: nat, m: nat)
    requires FractionalAt(s, n, m)
    ensures IsFloatBody(s)
  {
    assert AllDigits(s[..n]);
    if m == n {
      assert IntegerPart(s, n);
      FloatWithoutFraction(s, n);
      ExponentsAre(s, n);
    } else {
      assert IntegerPart(s, n) && AllDigits(s[n + 1..m]);
      assert FractionPart(s, n, m);
      FloatWithFraction(s, n, m);
      if m < |s| { ExponentsAre(s, m); }
    }
  }

  /** A float starts with an integer part that is not all of it. */
  lemma {:induction false} FloatStartsWhole(s: bytes)
    requires IsFloatBody(s)
    ensures DigitRun(s) < |s| && IntegerPart(s, DigitRun(s)) && Whole(s, DigitRun(s))
  {
    var n := DigitRun(s);
    assert s[..n] == s[0..n];
    if n == 0 || (n > 1 && s[0] == ZERO) { LeadingDigits(s, n); }
    if n == |s| {
      assert s[..n] == s;
      DigitsOnly(s);
    }
    hide IsFloatBody;
    assert forall k :: 0 <= k < n ==> s[k] == s[..n][k];
  }

  lemma {:induction false} FloatIsFractional(s: bytes) returns (n: nat, m: nat)
    requires IsFloatBody(s)
    ensures FractionalAt(s, n, m)
  {
    FloatStartsWhole(s);
    n := DigitRun(s);
    if s[n] == DOT {
      m := FractionEnds(s, n);
    } else {
      m := n;
      if IsExponentMark(s[n]) {
        FloatWithoutFraction(s, n);
        ExponentsAre(s, n);
      } else {
        NoFloatAfterInteger(s, n);
      }
    }
    hide IsFloatBody, IsExponent;
  }

  lemma {:induction false} FractionEnds(s: bytes, n: nat) returns (m: nat)
    requires IsFloatBody(s) && IntegerPart(s, n) && s[n] == DOT
    ensures n < m && Fraction(s, n, m) && Exponent(s, m)
  {
    var run := DigitRun(s[n + 1..]);
    m := n + 1 + run;
    assert s[n + 1..m] == s[n + 1..][..run];
    assert m < |s| ==> s[m] == s[n + 1..][run];
    hide IsFloatBody, IsExponent;
    FloatWithFraction(s, n, m);
    if m < |s| { ExponentsAre(s, m); }
    SlicesAreDigits(s, n, m);
  }

  lemma {:induction false} SlicesAreDigits(s: bytes, n: nat, m: nat)
    requires n <= m <= |s| && AllDigits(s[..n]) && (m > n ==> AllDigits(s[n + 1..m]))
    ensures forall k :: 0 <= k < m && k != n ==> 48 <= s[k] <= 57
  {
    assert forall k :: 0 <= k < n ==> s[k] == s[..n][k];
    if m > n { assert forall k :: n < k < m ==> s[k] == s[n + 1..m][k - n - 1]; }
  }

  lemma {:induction false} DigitsOnly(s: bytes)
    requires AllDigits(s)
    ensures !IsFloatBody(s)
  {
    assert ExponentMark(s).None? && IndexOf(s, DOT).None?;
  }

  ghost predicate Fractional(s: bytes) {
    exists n: nat, m: nat :: FractionalAt(s, n, m)
  }

  lemma {:induction false} FloatsAre(s: bytes)
    ensures IsFloatBody(s) <==> Fractional(s)
  {
    if IsFloatBody(s) { var n, m := FloatIsFractional(s); }
    if Fractional(s) {
      var n: nat, m: nat :| FractionalAt(s, n, m);
      FractionalIsFloat(s, n, m);
    }
  }

  /** A bare token is a word of the language, an integer, a number with fraction or exponent, or else a string. */
  lemma {:induction false} BareTokens(token: bytes)
    ensures BareToken(token) ==
            if token == [110, 117, 108, 108] then NullToken
            else if token == [116, 114, 117, 101] then BoolToken(true)
            else if token == [102, 97, 108, 115, 101] then BoolToken(false)
            else if Whole(Unsigned(token), |Unsigned(token)|) then IntegerToken(token)
            else if Fractional(Unsigned(token)) then FloatToken(token)
            else BareString(token)
  {
    IntegersAre(Unsigned(token));
    FloatsAre(Unsigned(token));
    hide Fractional, Whole, IsFloatBody, IsIntegerBody;
  }

  /** What the tokens are worth to a decoder without a plan. */
  lemma {:induction false} TokensAreWorth(flag: bool, digits: bytes, text: bytes)
    requires digits != [] && AllDigits(digits)
    ensures TokenValue(NullToken) == Null && TokenValue(BoolToken(flag)) == Values.Bool(flag)
    ensures TokenValue(IntegerToken(digits)) == Int(DecimalValue(digits))
    ensures TokenValue(IntegerToken([45] + digits)) == Int(-(DecimalValue(digits) as int))
    ensures TokenValue(FloatToken(text)) == Float(text) && TokenValue(BareString(text)) == Str(text)
  {
    assert ([45] + digits)[1..] == digits;
  }

  // ----- quoted values and keys ----------------------------------------------------------------------

  /** A value in quotes is the string they hold; anything behind the closing quote is a fault at its column. */
  lemma {:induction false} QuotedValues(text: bytes, rest: bytes, at: Position)
    ensures var r := ValueToken(InQuotes(text) + rest, at);
            if rest != [] then r == Err(Fault(TrailingContent, at.line, Some(at.column + |InQuotes(text)|), false))
            else r.Ok? && r.value.QuotedString? && Unescaped(r.value.inner, r.value.escaped) == text
  {
    QuotesAre(text);
    var content := InQuotes(text) + rest;
    QuoteRoundTrip(content, 0, text, rest, at);
    assert content[0] == QUOTE && content[0..] == content;
    hide QuotedSpan, Unescaped, EscapeAll, Clean;
  }

  /** The same for a key. */
  lemma {:induction false} QuotedKeys(text: bytes, rest: bytes, at: Position)
    ensures var r := StringTokenOf(InQuotes(text) + rest, at);
            if rest != [] then r == Err(Fault(ContentAfterFieldGroup, at.line, Some(at.column), false))
            else r.Ok? && TextOf(r.value) == text
  {
    QuotesAre(text);
    var content := InQuotes(text) + rest;
    QuoteRoundTrip(content, 0, text, rest, at);
    assert content[0] == QUOTE && content[0..] == content;
    hide QuotedSpan, Unescaped, EscapeAll, Clean;
  }

  /** A value or key that starts with no quote is its own text. */
  lemma {:induction false} BareValuesAndKeys(text: bytes, at: Position)
    requires text == [] || text[0] != 34
    ensures ValueToken(text, at) == Ok(BareToken(text)) && StringTokenOf(text, at) == Ok(Bare(text))
  {
    hide BareToken;
  }

  /** A quote that is never closed is a fault where it opens. */
  lemma {:induction false} OpenQuote(text: bytes, at: Position)
    requires 34 !in text && 92 !in text
    ensures ValueToken([34] + text, at) == Err(Fault(UnclosedQuote, at.line, Some(at.column), false))
    ensures StringTokenOf([34] + text, at) == Err(Fault(UnclosedQuote, at.line, Some(at.column), false))
  {
    NoClosing([34] + text, 1, at);
    hide QuotedSpanFrom;
  }

  /** An escape that means nothing is a fault where its backslash stands. */
  lemma {:induction false} BadEscapes(text: bytes, escape: bytes, at: Position)
    requires 34 !in text && 92 !in text && escape != [] && escape[0] == 92 && EscapeAt(escape) == BadEscape
    ensures ValueToken([34] + text + escape, at) == Err(Fault(InvalidEscape, at.line, Some(at.column + 1 + |text|), false))
  {
    var content := [34] + text + escape;
    assert forall k :: 1 <= k < 1 + |text| ==> content[k] == text[k - 1];
    assert content[1 + |text|..] == escape;
    StopsAtEscape(content, 1, 1 + |text|, at);
    hide QuotedSpanFrom, EscapeAt;
  }

  lemma {:induction false} StopsAtEscape(content: bytes, index: nat, stop: nat, at: Position)
    requires index <= stop < |content| && content[stop] == 92 && EscapeAt(content[stop..]) == BadEscape
    requires forall k :: index <= k < stop ==> content[k] != 34 && content[k] != 92
    ensures QuotedSpanFrom(content, index, false, 0, at) == Err(Fault(InvalidEscape, at.line, Some(at.column + stop), false))
    decreases stop - index
  {
    hide EscapeAt;
    if index < stop { StopsAtEscape(content, index + 1, stop, at); }
  }

  lemma {:induction false} NoClosing(content: bytes, index: nat, at: Position)
    requires index <= |content| && forall k :: index <= k < |content| ==> content[k] != 34 && content[k] != 92
    ensures QuotedSpanFrom(content, index, false, 0, at) == Err(Fault(UnclosedQuote, at.line, Some(at.column), false))
    decreases |content| - index
  {
    if index < |content| { NoClosing(content, index + 1, at); }
  }

  // ----- colons --------------------------------------------------------------------------------------

  /** The first colon outside quotes ends the key if it ends the line or a space follows; if not, no other does. */
  lemma {:induction false} FirstColonDecides(key: bytes, rest: bytes)
    requires Find(key, 58, Outside).None? && ModeAfter(key, Outside).Outside?
    ensures EntryColon(key + [58] + rest) == if rest == [] || rest[0] == 32 then Some(|key|) else None
    ensures EntryColon(key) == None
  {
    var content := key + ([58] + rest);
    FindConcat(key, [58] + rest, 58, Outside);
    assert key + [58] + rest == content && content[0..] == content && key[0..] == key;
    assert Find([58] + rest, 58, Outside) == Some(0);
    assert rest != [] ==> content[|key| + 1] == rest[0];
    hide Find;
  }

  /** Text without quotes is outside quotes throughout. */
  lemma {:induction false} UnquotedKey(key: bytes)
    requires 34 !in key && 58 !in key
    ensures Find(key, 58, Outside).None? && ModeAfter(key, Outside).Outside?
  {
    if key != [] { UnquotedKey(key[1..]); }
  }

  // ----- cells ---------------------------------------------------------------------------------------

  function Padded(cell: bytes, left: nat, right: nat): bytes {
    LineLaws.Blanks(left) + (cell + LineLaws.Blanks(right))
  }

  lemma {:induction false} BlanksAreNothing(n: nat, needle: byte)
    requires needle != 32
    ensures Find(LineLaws.Blanks(n), needle, Outside).None? && ModeAfter(LineLaws.Blanks(n), Outside).Outside?
    ensures TrimLeft(LineLaws.Blanks(n)) == []
  {
    if n > 0 {
      assert LineLaws.Blanks(n)[1..] == LineLaws.Blanks(n - 1);
      BlanksAreNothing(n - 1, needle);
    }
  }

  lemma {:induction false} LeftTrimmed(n: nat, rest: bytes)
    requires rest != [] && rest[0] != 32
    ensures TrimLeft(LineLaws.Blanks(n) + rest) == rest
  {
    if n > 0 {
      assert (LineLaws.Blanks(n) + rest)[1..] == LineLaws.Blanks(n - 1) + rest;
      LeftTrimmed(n - 1, rest);
    } else {
      assert LineLaws.Blanks(0) + rest == rest;
    }
  }

  lemma {:induction false} ModeOfConcat(a: bytes, b: bytes, mode: Mode)
    ensures ModeAfter(a + b, mode) == ModeAfter(b, ModeAfter(a, mode))
    decreases |a|
  {
    if a == [] {
      assert a + b == b;
    } else {
      assert (a + b)[1..] == a[1..] + b;
      ModeOfConcat(a[1..], b, Next(mode, a[0]));
    }
  }

  lemma {:induction false} PaddedCell(cell: bytes, left: nat, right: nat, delimiter: byte)
    requires CellText(cell, delimiter) && delimiter != 32 && delimiter != QUOTE
    ensures var padded := Padded(cell, left, right);
            Find(padded, delimiter, Outside).None? && ModeAfter(padded, Outside).Outside? && Trim(padded) == cell
  {
    var tail := cell + LineLaws.Blanks(right);
    BlanksAreNothing(left, delimiter);
    BlanksAreNothing(right, delimiter);
    FindConcat(cell, LineLaws.Blanks(right), delimiter, Outside);
    ModeOfConcat(cell, LineLaws.Blanks(right), Outside);
    FindConcat(LineLaws.Blanks(left), tail, delimiter, Outside);
    ModeOfConcat(LineLaws.Blanks(left), tail, Outside);
    if cell == [] {
      assert tail == LineLaws.Blanks(right) && LineLaws.Blanks(left) + tail == LineLaws.Blanks(left + right);
      BlanksAreNothing(left + right, delimiter);
    } else {
      LeftTrimmed(left, tail);
      SpacesTrail(cell, right);
    }
  }

  ghost predicate Pads(padded: bytes, cell: bytes, delimiter: byte) {
    CellText(cell, delimiter) && exists left, right :: padded == Padded(cell, left, right)
  }

  /** Cells are told apart by the delimiter outside quotes, and the spaces around each do not count. */
  lemma {:induction false} SplitOfPadded(cells: seq<bytes>, padded: seq<bytes>, delimiter: byte)
    requires cells != [] && |padded| == |cells| && delimiter != QUOTE && delimiter != 32
    requires forall i :: 0 <= i < |cells| ==> Pads(padded[i], cells[i], delimiter)
    ensures SplitCells(Join(padded, delimiter), delimiter) == cells
    decreases |cells|
  {
    assert Pads(padded[0], cells[0], delimiter);
    var left, right :| padded[0] == Padded(cells[0], left, right);
    PaddedCell(cells[0], left, right, delimiter);
    hide Padded, CellText, Pads;
    if |cells| > 1 {
      assert forall i :: 0 <= i < |cells| - 1 ==> padded[1..][i] == padded[i + 1] && cells[1..][i] == cells[i + 1];
      SplitFirst(padded[0], Join(padded[1..], delimiter), delimiter);
      SplitOfPadded(cells[1..], padded[1..], delimiter);
    }
  }

  lemma {:induction false} SplitFirst(first: bytes, tail: bytes, delimiter: byte)
    requires Find(first, delimiter, Outside).None? && ModeAfter(first, Outside).Outside? && delimiter != QUOTE
    ensures SplitCells(first + [delimiter] + tail, delimiter) == [Trim(first)] + SplitCells(tail, delimiter)
  {
    var content := first + ([delimiter] + tail);
    assert first + [delimiter] + tail == content;
    FindConcat(first, [delimiter] + tail, delimiter, Outside);
    assert content[..|first|] == first && content[|first| + 1..] == tail;
    hide Find, Trim;
  }
}
