/** Entries and list items without lines below them, read back (src/parser.rs, src/encode.rs). */
module ReadLeaves {
  import opened Bytes
  import opened Tokens
  import opened Faults
  import opened Cells
  import opened Escapes
  import opened Scalar
  import opened Header
  import opened Scan
  import opened Events
  import opened Grammar
  import opened Values
  import opened Shapes
  import opened Quoting
  import opened QuoteDecision
  import opened Render
  import opened Layout
  import opened ReadScalars
  import opened ReadGroups
  import opened ReadHeaders
  import opened ReadRows
  import opened Faithful
  import opened ReadEntries

  // ----- trimming ---------------------------------------------------------------------------

  lemma {:induction false} TrimRightConcat(a: bytes, b: bytes)
    ensures TrimRight(a + b) == if TrimRight(b) == [] then TrimRight(a) else a + TrimRight(b)
  {
    if b == [] {
      assert a + b == a;
    } else if b[|b| - 1] == SPACE {
      var s := a + b;
      assert s[..|s| - 1] == a + b[..|b| - 1];
      TrimRightConcat(a, b[..|b| - 1]);
    }
  }

  lemma {:induction false} TrimRightKeeps(s: bytes)
    requires s != [] && s[|s| - 1] != SPACE
    ensures TrimRight(s) == s
  {
  }

  // ----- scalar entries -----------------------------------------------------------------------

  /** A long entry string written as it is reads as itself. */
  lemma {:induction false} LongEntryReads(text: bytes, delimiter: byte)
    requires LongEntry(text) && !HasForcing(text, delimiter)
    ensures ReadsAs(text, Str(text))
  {
    FirstByteDecides(text);
    assert !ForcesQuote(text[0], delimiter);
    assert |NULL_TEXT| == 4 && |TRUE_TEXT| == 4 && |FALSE_TEXT| == 5;
    assert BareToken(text) == BareString(text);
  }

  lemma {:induction false} EntryScalarReads(value: Value, delimiter: byte)
    requires IsScalar(value) && ScalarFormed(value)
    ensures ReadsAs(EntryScalarText(value, delimiter), NormScalar(value))
  {
    if value.Str? && LongEntry(value.text) {
      if HasForcing(value.text, delimiter) { QuotedReads(value.text); } else { LongEntryReads(value.text, delimiter); }
    } else {
      ScalarReads(value, delimiter);
    }
  }

  /** Whether the scalar's spelling behind a key ends in a space. */
  lemma {:induction false} EntryScalarEnd(value: Value, delimiter: byte, strict: bool)
    requires IsScalar(value) && ScalarFormed(value) && IsDelimiter(delimiter)
    ensures var text := EntryScalarText(value, delimiter);
            && text != [] && text != EMPTY_ARRAY
            && (text[|text| - 1] == SPACE <==> !EntryReturns(value, delimiter, strict))
            && (!EntryReturns(value, delimiter, strict) ==> text == value.text)
  {
    if value.Str? && LongEntry(value.text) {
      if HasForcing(value.text, delimiter) { assert QuotedText(value.text)[0] == QUOTE; }
    } else {
      ScalarIsStandalone(value, delimiter);
      ScalarIsNoEmptyArray(value, delimiter);
    }
  }

  lemma {:induction false} ScalarIsNoEmptyArray(value: Value, delimiter: byte)
    requires IsScalar(value) && ScalarFormed(value)
    ensures ScalarText(value, delimiter) != EMPTY_ARRAY
  {
    match value
    case Int(n) =>
      IntTextValue(n);
      NumberBytes(IntText(n));
    case Float(text) => NumberBytes(text);
    case Str(text) => assert MustQuote(text, delimiter) ==> ScalarText(value, delimiter)[0] == QUOTE;
    case _ =>
  }

  lemma {:induction false} InlineReads(text: bytes, value: Value, at: Position, stream: LineStream)
    requires ReadsAs(text, value) && text != EMPTY_ARRAY
    ensures ReadsTree(Inline(InlineValue(text, at), stream), true, value, stream)
  {
    assert ReadsAt(text, value, at);
    hide ValueToken;
  }

  /** What a trimmed string reads as is never the string itself. */
  lemma {:induction false} ShortenedReads(text: bytes, delimiter: byte, at: Position, stream: LineStream)
    requires LosesSpace(text, delimiter) && TrimRight(text) != []
    ensures ReadsTree(Inline(InlineValue(TrimRight(text), at), stream), false, Str(text), stream)
  {
    var shown := TrimRight(text);
    TrimRightShape(text);
    assert |shown| < |text|;
    assert shown[0] == text[0] && !ForcesQuote(text[0], delimiter);
    if shown != EMPTY_ARRAY { BareIsNot(shown, text, at); }
  }

  lemma {:induction false} BareIsNot(shown: bytes, text: bytes, at: Position)
    requires shown != [] && shown[0] != QUOTE && |shown| < |text|
    ensures ValueToken(shown, at).Ok? && TokenValue(ValueToken(shown, at).value) != Str(text)
  {
  }

  lemma {:induction false} EmptyNested(stream: LineStream, depth: nat, at: Position, strict: bool)
    requires Closes(stream, depth)
    ensures NestedObject(stream, depth, at, strict) == Ok(Parsed(Obj(Plain, [], at), stream))
  {
  }

  /** A scalar entry reads as its scalar, except that a lost trailing space makes it another one. */
  lemma {:induction false} ScalarEntryReads(key: bytes, value: Value, delimiter: byte, content: bytes, at: Position, stream: LineStream, depth: nat, seen: set<bytes>, strict: bool)
    requires IsScalar(value) && ScalarFormed(value) && IsDelimiter(delimiter) && key !in seen && Closes(stream, depth)
    requires content == TrimRight(KeyText(key) + ([COLON, SPACE] + EntryScalarText(value, delimiter)))
    ensures ReadsField(Entry(content, at, stream, depth, strict, seen), EntryReturns(value, delimiter, strict), Pair(key, NormScalar(value)), stream)
    ensures EntryLine(content, strict)
  {
    hide EntryScalarText, KeyText, InlineValue, AsField, ReadsAs, EntryLine, Entry;
    var text := EntryScalarText(value, delimiter);
    EntryScalarEnd(value, delimiter, strict);
    EntryScalarReads(value, delimiter);
    var shown := TrimRight(text);
    TrimmedEntry(key, text, content);
    var inline := if shown == [] then [] else [SPACE] + shown;
    ColonEntryReads(key, inline, content, at, stream, depth, seen, strict);
    ColonLineIsEntry(key, inline, content, strict);
    if EntryReturns(value, delimiter, strict) {
      TrimRightKeeps(text);
      InlineReads(text, NormScalar(value), ValueAt(key, at), stream);
      assert inline[1..] == text;
    } else {
      LossyValue(value.text, delimiter, inline, key, at, stream, depth, strict);
    }
    FieldOfTree(ColonValue(key, inline, at, stream, depth, strict), EntryReturns(value, delimiter, strict), NormScalar(value), stream, key, at);
  }

  lemma {:induction false} LossyValue(text: bytes, delimiter: byte, inline: bytes, key: bytes, at: Position, stream: LineStream, depth: nat, strict: bool)
    requires LosesSpace(text, delimiter) && Closes(stream, depth)
    requires inline == if TrimRight(text) == [] then [] else [SPACE] + TrimRight(text)
    ensures ReadsTree(ColonValue(key, inline, at, stream, depth, strict), false, Str(text), stream)
  {
    if TrimRight(text) == [] {
      EmptyNested(stream, depth, at, strict);
    } else {
      assert inline[1..] == TrimRight(text);
      ShortenedReads(text, delimiter, ValueAt(key, at), stream);
    }
  }

  lemma {:induction false} TrimmedEntry(key: bytes, text: bytes, content: bytes)
    requires content == TrimRight(KeyText(key) + ([COLON, SPACE] + text))
    ensures content == KeyText(key) + ([COLON] + (if TrimRight(text) == [] then [] else [SPACE] + TrimRight(text)))
  {
    var head := KeyText(key) + [COLON];
    hide KeyText;
    assert KeyText(key) + ([COLON, SPACE] + text) == head + ([SPACE] + text);
    TrimRightConcat([SPACE], text);
    assert TrimRight([SPACE]) == TrimRight([]) == [];
    TrimRightConcat(head, [SPACE] + text);
    TrimRightKeeps(head);
  }

  // ----- empty arrays ---------------------------------------------------------------------------

  lemma {:induction false} EmptyArrayEntryReads(key: bytes, content: bytes, at: Position, stream: LineStream, depth: nat, seen: set<bytes>, strict: bool)
    requires content == TrimRight(KeyText(key) + ([COLON, SPACE] + EMPTY_ARRAY)) && key !in seen
    ensures ReadsField(Entry(content, at, stream, depth, strict, seen), true, Pair(key, Seq([])), stream)
    ensures EntryLine(content, strict)
  {
    hide KeyText, AsField, EntryLine, Entry;
    TrimmedEntry(key, EMPTY_ARRAY, content);
    TrimRightKeeps(EMPTY_ARRAY);
    var inline := [SPACE] + EMPTY_ARRAY;
    ColonEntryReads(key, inline, content, at, stream, depth, seen, strict);
    ColonLineIsEntry(key, inline, content, strict);
    assert inline[1..] == EMPTY_ARRAY;
    FieldOfTree(ColonValue(key, inline, at, stream, depth, strict), true, Seq([]), stream, key, at);
  }

  // ----- inline arrays ----------------------------------------------------------------------------

  lemma {:induction false} InlineItemsRead(items: seq<Value>, texts: seq<bytes>, delimiter: byte, at: Position)
    requires AllScalars(items) && AllProper(items) && texts == CellTexts(items, delimiter)
    ensures InlineItems(texts, at).Ok? && DenoteItems(InlineItems(texts, at).value) == NormItems(items)
  {
    if items != [] {
      assert IsScalar(items[0]) && Proper(items[0]);
      ScalarReads(items[0], delimiter);
      assert ReadsAt(texts[0], NormScalar(items[0]), at);
      assert texts[1..] == CellTexts(items[1..], delimiter);
      InlineItemsRead(items[1..], texts[1..], delimiter, at);
    }
  }

  lemma {:induction false} InlineCellsSplit(items: seq<Value>, delimiter: byte)
    requires AllScalars(items) && AllProper(items) && items != [] && IsDelimiter(delimiter)
    ensures SplitCells(Join(CellTexts(items, delimiter), delimiter), delimiter) == CellTexts(items, delimiter)
    ensures Solid(Join(CellTexts(items, delimiter), delimiter))
  {
    forall i | 0 <= i < |items| ensures ScalarFormed(items[i]) { assert Proper(items[i]) && IsScalar(items[i]); }
    CellsAreStandalone(items, delimiter);
    StandaloneCells(CellTexts(items, delimiter), delimiter);
    JoinIsSolid(CellTexts(items, delimiter), delimiter);
  }

  lemma {:induction false} InlineBodyReads(items: seq<Value>, header: Header, stream: LineStream, depth: nat, at: Position, strict: bool)
    requires AllScalars(items) && AllProper(items) && items != [] && IsDelimiter(header.delimiter)
    requires header.fields == [] && header.declared == |items|
    requires header.inlineValues == Some(Join(CellTexts(items, header.delimiter), header.delimiter))
    ensures ReadsTree(ArrayBody(stream, header, depth, at, strict), true, Seq(NormItems(items)), stream)
  {
    InlineCellsSplit(items, header.delimiter);
    InlineItemsRead(items, CellTexts(items, header.delimiter), header.delimiter, at);
  }

  // ----- scalar list items --------------------------------------------------------------------------

  /** The header grammar leaves the line alone; lenient mode also passes over what is malformed. */
  predicate PassedOver(r: Result<HeaderOutcome>, strict: bool) {
    r.Ok? && (r.value.NotHeader? || (r.value.Malformed? && !strict))
  }

  /** An item the header grammar leaves alone and that holds no colon is its scalar. */
  lemma {:induction false} PlainItemReads(text: bytes, value: Value, at: Position, stream: LineStream, depth: nat, strict: bool)
    requires text != EMPTY_ARRAY && ReadsAs(text, value) && PassedOver(HeaderOf(text, strict, at), strict)
    requires FirstUnquoted(text, COLON, 0).None?
    ensures ReadsTree(DashedItem(text, at, stream, depth, strict), true, value, stream)
  {
    hide HeaderOf;
    assert ReadsAt(text, value, at);
    hide ValueToken;
    assert EntryColon(text).None?;
    var outcome := HeaderOf(text, strict, at).value;
    assert DashedItem(text, at, stream, depth, strict) == DashedWith(outcome, text, at, stream, depth, strict);
    assert DashedWith(outcome, text, at, stream, depth, strict) == PlainItem(text, at, stream, depth, strict);
  }

  lemma {:induction false} NoBracketNoHeader(text: bytes, at: Position, strict: bool)
    requires Find(text, LBRACKET, Outside).None?
    ensures HeaderOf(text, strict, at) == Ok(NotHeader)
  {
    hide BracketedOutcome;
    assert text[0..] == text;
  }

  /** A header names its colon: text without one is no header line. */
  lemma {:induction false} NoColonNoHeaderLine(content: bytes, at: Position, strict: bool)
    requires COLON !in content && QUOTE !in content && Marks(content).bracket.Some?
    ensures var r := HeaderOf(content, strict, at); if OverNested(content) then r.Err? else r.Ok? && r.value.Malformed?
  {
    hide BracketedOutcome, DeepBracket;
    BracketedWithoutColon(content, Marks(content).bracket.value, at, strict);
  }

  lemma {:induction false} BracketedWithoutColon(content: bytes, start: nat, at: Position, strict: bool)
    requires COLON !in content && QUOTE !in content && start < |content|
    ensures var r := BracketedOutcome(content, start, strict, at);
            if DeepBracket(content, start) then r.Err? else r.Ok? && r.value.Malformed?
  {
    hide BracketOf, KeyBefore, FirstUnquoted, GroupAt, DeepGroup;
    BareKeyBefore(content, start, at);
    if FirstUnquoted(content, RBRACKET, start + 1).Some? {
      var end := FirstUnquoted(content, RBRACKET, start + 1).value;
      if BracketOf(content[start + 1..end]).Some? {
        GroupIsDeep(content, end + 1, BracketOf(content[start + 1..end]).value.delimiter, at, strict);
      }
    }
  }

  lemma {:induction false} BareKeyBefore(content: bytes, start: nat, at: Position)
    requires QUOTE !in content && start <= |content|
    ensures KeyBefore(content, start, at).Ok?
  {
  }

  lemma {:induction false} GroupIsDeep(content: bytes, cursor: nat, delimiter: byte, at: Position, strict: bool)
    ensures GroupAt(content, cursor, delimiter, strict, at).Err? <==> DeepGroup(content, cursor)
  {
    hide MatchFrom, FieldsOf;
  }

  lemma {:induction false} UnquotedBracket(text: bytes)
    requires QUOTE !in text && COLON !in text && LBRACKET in text
    ensures Marks(text).bracket.Some?
  {
    FindWithoutQuotes(text, LBRACKET);
    FindWithoutQuotes(text, COLON);
    assert text[0..] == text;
  }

  lemma {:induction false} BareTextHasNoMarks(text: bytes, delimiter: byte)
    requires !MustQuote(text, delimiter)
    ensures QUOTE !in text && COLON !in text && text != EMPTY_ARRAY
  {
    assert forall i :: 0 <= i < |text| ==> !ForcesQuote(text[i], delimiter);
  }

  /** The parser refuses an item the header grammar claims. */
  lemma {:induction false} ClaimedItemFails(text: bytes, delimiter: byte, at: Position, stream: LineStream, depth: nat, strict: bool)
    requires Claimed(text, delimiter, strict)
    ensures DashedItem(text, at, stream, depth, strict).Err?
  {
    BareTextHasNoMarks(text, delimiter);
    UnquotedBracket(text);
    NoColonNoHeaderLine(text, at, strict);
    hide HeaderOf, Marks, LooksLikeHeader, OverNested;
  }

  /** What stands alone is a scalar to the parser unless the header grammar claims it. */
  lemma {:induction false} ScalarIsPassedOver(value: Value, delimiter: byte, at: Position, strict: bool)
    requires IsScalar(value) && ScalarFormed(value) && (value.Str? ==> !Claimed(value.text, delimiter, strict))
    ensures PassedOver(HeaderOf(ScalarText(value, delimiter), strict, at), strict)
  {
    if value.Str? && LooksLikeHeader(value.text, delimiter) {
      BareTextHasNoMarks(value.text, delimiter);
      UnquotedBracket(value.text);
      NoColonNoHeaderLine(value.text, at, strict);
    } else {
      ScalarHasNoBracket(value, delimiter);
      NoBracketNoHeader(ScalarText(value, delimiter), at, strict);
    }
    hide HeaderOf, Marks, OverNested, MustQuote;
  }

  lemma {:induction false} NumberHasNoBracket(text: bytes)
    requires IsNumber(text)
    ensures Find(text, LBRACKET, Outside).None?
  {
    hide IsNumber;
    NumberBytes(text);
    FindWithoutQuotes(text, LBRACKET);
  }

  lemma {:induction false} ScalarHasNoBracket(value: Value, delimiter: byte)
    requires IsScalar(value) && ScalarFormed(value) && (value.Str? ==> !LooksLikeHeader(value.text, delimiter))
    ensures Find(ScalarText(value, delimiter), LBRACKET, Outside).None?
  {
    match value
    case Null => FindWithoutQuotes(NULL_TEXT, LBRACKET);
    case Bool(flag) => FindWithoutQuotes(if flag then TRUE_TEXT else FALSE_TEXT, LBRACKET);
    case Int(n) =>
      IntTextValue(n);
      NumberHasNoBracket(IntText(n));
    case Float(text) => NumberHasNoBracket(text);
    case Str(text) =>
      if MustQuote(text, delimiter) {
        HushedQuoted(text);
        HushedFind(QuotedText(text), Outside, LBRACKET);
      } else {
        BareTextHasNoMarks(text, delimiter);
        FindWithoutQuotes(text, LBRACKET);
      }
  }

  /** A scalar item reads as its scalar, unless the header grammar claims it. */
  lemma {:induction false} ScalarItemReads(value: Value, delimiter: byte, at: Position, stream: LineStream, depth: nat, strict: bool)
    requires IsScalar(value) && ScalarFormed(value) && IsDelimiter(delimiter)
    ensures ReadsTree(DashedItem(ScalarText(value, delimiter), at, stream, depth, strict), ItemReturns(value, delimiter, strict), NormScalar(value), stream)
  {
    var text := ScalarText(value, delimiter);
    if ItemReturns(value, delimiter, strict) {
      ScalarIsPassedOver(value, delimiter, at, strict);
      ScalarReads(value, delimiter);
      ScalarIsNoEmptyArray(value, delimiter);
      ScalarIsStandalone(value, delimiter);
      assert text[0..] == text;
      hide HeaderOf, ScalarText, DashedItem, ReadsAs, PassedOver;
      PlainItemReads(text, NormScalar(value), at, stream, depth, strict);
    } else {
      ClaimedItemFails(value.text, delimiter, at, stream, depth, strict);
    }
  }
}
