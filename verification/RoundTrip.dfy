/** Encoding and decoding: exactly when, and as what, a value comes back (src/encode.rs, src/parser.rs). */
module RoundTrip {
  import opened Bytes
  import opened Tokens
  import opened Faults
  import opened Utf8
  import opened Cells
  import opened Escapes
  import opened Scalar
  import opened Header
  import opened Scan
  import opened Events
  import opened Grammar
  import opened Values
  import opened Shapes
  import opened Quoting
  import opened QuoteDecision
  import opened Render
  import opened Layout
  import opened ReadScalars
  import opened ReadGroups
  import opened ReadHeaders
  import opened ReadRows
  import opened Faithful
  import opened ReadEntries
  import opened ReadLeaves
  import opened ReadBack
  import opened WrittenLines
  import StrictMode

  // ----- the root construct on a stream ----------------------------------------------------------

  predicate ReadsRoot(r: Result<Tree>, back: bool, value: Value) {
    (back ==> r.Ok?) && (r.Ok? ==> (Denote(r.value) == value <==> back))
  }

  /** The root comes back once the scanner has delivered its lines. */
  predicate StreamReturns(value: Value, delimiter: byte, strict: bool) {
    if value.Str? then !Claimed(value.text, delimiter, strict) else EntryReturns(value, delimiter, strict)
  }

  lemma {:induction false} FinishedReads(body: Result<Parsed<Tree>>, back: bool, value: Value, rest: LineStream, r: Result<Tree>)
    requires ReadsTree(body, back, value, rest) && rest.End?
    requires r == if body.Err? then Err(body.fault) else Finished(body.value)
    ensures ReadsRoot(r, back, value)
  {
  }

  // ----- objects at the root ---------------------------------------------------------------------

  /** A first line that is an entry makes the root an object, or fails both ways. */
  lemma {:induction false} RootOfEntries(stream: LineStream, strict: bool)
    requires stream.More? && stream.line.depth == 0 && EntryLine(stream.line.content, strict)
    ensures Root(stream, strict) == RootObject(stream, stream.line.at, strict) || (Root(stream, strict).Err? && RootObject(stream, stream.line.at, strict).Err?)
  {
    var line := stream.line;
    var outcome := HeaderOf(line.content, strict, line.at);
    assert EntryLineAt(line.content, outcome);
    hide HeaderOf, EntryColon;
    if outcome.Err? || (strict && outcome.value.Malformed?) {
      EntryFails(stream, outcome, strict);
    }
  }

  lemma {:induction false} EntryFails(stream: LineStream, outcome: Result<HeaderOutcome>, strict: bool)
    requires stream.More? && stream.line.depth == 0 && outcome == HeaderOf(stream.line.content, strict, stream.line.at)
    requires outcome.Err? || (strict && outcome.value.Malformed?)
    ensures ObjectBody(stream, 0, strict, {}).Err?
  {
    hide HeaderOf;
    var line := stream.line;
    assert Entry(line.content, line.at, stream.rest, 0, strict, {}).Err?;
    assert LineEntry(line, stream.rest, 0, strict, {}).Err?;
  }

  lemma {:induction false} EntriesRootReads(pairs: seq<Pair>, delimiter: byte, lines: seq<OutLine>, stream: LineStream, strict: bool)
    requires ProperPairs(pairs) && IsDelimiter(delimiter) && EntriesLines(pairs, 0, delimiter) == Some(lines)
    requires Shows(stream, lines) && Drop(stream, |lines|).End?
    ensures ReadsRoot(Root(stream, strict), PairsReturn(pairs, delimiter, strict), Dict(NormPairs(pairs)))
  {
    EntriesStart(pairs, 0, delimiter, lines);
    if pairs == [] {
      EmptyRoot(stream, strict);
      assert NormPairs([]) == [];
    } else {
      var first, others := PairBlock(pairs[0], 0, delimiter).value, EntriesLines(pairs[1..], 0, delimiter).value;
      assert lines == Standing(first, 0) + others;
      hide PairBlock, EntriesLines, Shows, Drop, ProperPair, PairsReturn, NormPairs, EntryLine, Root, ObjectBody, ReadsFields;
      BodyReads(pairs, 0, delimiter, lines, stream, {}, strict);
      FirstLineIsEntry(pairs, delimiter, first, others, lines, stream, strict);
      RootOfEntries(stream, strict);
      RootBodyReads(pairs, delimiter, stream, Drop(stream, |lines|), strict);
    }
  }

  lemma {:induction false} EmptyRoot(stream: LineStream, strict: bool)
    requires stream.End?
    ensures Root(stream, strict).Ok? && Denote(Root(stream, strict).value) == Dict([])
  {
  }

  lemma {:induction false} FirstLineIsEntry(pairs: seq<Pair>, delimiter: byte, first: Block, others: seq<OutLine>, lines: seq<OutLine>, stream: LineStream, strict: bool)
    requires ProperPairs(pairs) && pairs != [] && IsDelimiter(delimiter)
    requires PairBlock(pairs[0], 0, delimiter) == Some(first) && EntriesLines(pairs[1..], 0, delimiter) == Some(others)
    requires lines == Standing(first, 0) + others && Shows(stream, lines) && Drop(stream, |lines|).End?
    ensures stream.More? && stream.line.depth == 0 && EntryLine(stream.line.content, strict)
  {
    hide PairBlock, EntriesLines, Shows, Drop, ProperPair, EntryLine;
    BlockFirst(stream, first, others, 0, lines);
    var middle := Drop(stream.rest, |first.tail|);
    EntriesStart(pairs[1..], 0, delimiter, others);
    NextStands(middle, others, 0, 0);
    ProperStep(pairs);
    PairReads(pairs[0], 0, delimiter, first, stream.line.content, stream.line.at, stream.rest, {}, strict);
  }

  lemma {:induction false} RootBodyReads(pairs: seq<Pair>, delimiter: byte, stream: LineStream, rest: LineStream, strict: bool)
    requires ProperPairs(pairs) && stream.More? && ReadsFields(ObjectBody(stream, 0, strict, {}), PairsReturn(pairs, delimiter, strict), NormPairs(pairs), rest)
    requires Root(stream, strict) == RootObject(stream, stream.line.at, strict) || (Root(stream, strict).Err? && RootObject(stream, stream.line.at, strict).Err?)
    ensures ReadsRoot(Root(stream, strict), PairsReturn(pairs, delimiter, strict), Dict(NormPairs(pairs)))
  {
    hide Root, ObjectBody, Denote, DenotePairs, NormPairs, PairsReturn, ProperPair;
    NormNames(pairs);
    var body := ObjectBody(stream, 0, strict, {});
    if body.Ok? { ObjectOfFields(body.value.value, Plain, stream.line.at, NormPairs(pairs)); }
  }

  // ----- headers at the root ---------------------------------------------------------------------

  lemma {:induction false} RootOfHeader(stream: LineStream, header: Header, strict: bool)
    requires stream.More? && stream.line.depth == 0 && stream.line.content != EMPTY_ARRAY && header.key.None?
    requires HeaderIs(stream.line.content, strict, stream.line.at, Ok(HeaderLine(header)))
    ensures var body := ArrayOrKeyed(stream.rest, header, 0, stream.line.at, strict);
            Root(stream, strict) == if body.Err? then Err(body.fault) else Finished(body.value)
  {
    hide HeaderOf, ArrayOrKeyed;
    assert Look(0);
  }

  lemma {:induction false} RootOfBadHeader(stream: LineStream, fault: Fault, strict: bool)
    requires stream.More? && stream.line.depth == 0 && stream.line.content != EMPTY_ARRAY
    requires HeaderIs(stream.line.content, strict, stream.line.at, Err(fault))
    ensures Root(stream, strict).Err?
  {
    hide HeaderOf;
    assert Look(0);
  }

  /** A document that is one array or keyed table. */
  lemma {:induction false} HeaderRootReads(
      count: nat, keyed: bool, delimiter: byte, form: Form, block: Block, stream: LineStream, back: bool, value: Value, strict: bool)
    requires IsDelimiter(delimiter) && count < USIZE_LIMIT && WellNamed(form.nodes) && Follows(form.suffix, form.nodes)
    requires (keyed ==> form.nodes != []) && (form.suffix != [] ==> Solid(form.suffix[1..]))
    requires block.head == HeadOf(AtRoot, count, keyed, delimiter, form)
    requires Shows(stream, Standing(block, 0)) && Drop(stream, |Standing(block, 0)|).End?
    requires ReadsTree(ArrayOrKeyed(stream.rest, HeaderFor(AtRoot, count, keyed, delimiter, form), 0, stream.line.at, strict), back, value,
                       Drop(stream.rest, |block.tail|))
    ensures ReadsRoot(Root(stream, strict), back && Braces(form.nodes) <= MAX_NESTING_DEPTH, value)
  {
    hide HeadOf, HeaderIs, WellNamed, Braces, ReadsTree, ArrayOrKeyed, NodesOf, Root, Shows, Solid, KeyOf;
    RootBlock(stream, block);
    HeadEnds(AtRoot, count, keyed, delimiter, form);
    TrimRightKeeps(block.head);
    HeadReads(AtRoot, count, keyed, delimiter, form, stream.line.at, strict);
    if Braces(form.nodes) > MAX_NESTING_DEPTH {
      RootOfBadHeader(stream, SyntaxAt(DepthLimit, stream.line.at), strict);
    } else {
      var header := HeaderFor(AtRoot, count, keyed, delimiter, form);
      RootHasNoKey();
      RootOfHeader(stream, header, strict);
      FinishedReads(ArrayOrKeyed(stream.rest, header, 0, stream.line.at, strict), back, value, Drop(stream.rest, |block.tail|), Root(stream, strict));
    }
  }

  lemma {:induction false} RootHasNoKey()
    ensures KeyOf(AtRoot) == None
  {
  }

  lemma {:induction false} RootBlock(stream: LineStream, block: Block)
    requires Shows(stream, Standing(block, 0))
    ensures stream.More? && IsLine(stream.line, OutLine(0, block.head)) && Shows(stream.rest, block.tail)
    ensures Drop(stream, |Standing(block, 0)|) == Drop(stream.rest, |block.tail|)
  {
    hide IsLine;
    assert Standing(block, 0)[1..] == block.tail;
  }

  lemma {:induction false} ArrayRootReads(items: seq<Value>, delimiter: byte, block: Block, stream: LineStream, strict: bool)
    requires Proper(Seq(items)) && IsDelimiter(delimiter) && ArrayBlock(AtRoot, items, 0, 0, delimiter) == Some(block)
    requires Shows(stream, Standing(block, 0)) && Drop(stream, |Standing(block, 0)|).End?
    ensures ReadsRoot(Root(stream, strict), EntryReturns(Seq(items), delimiter, strict), Norm(Seq(items), false))
  {
    RootBlock(stream, block);
    ProperSeq(items);
    if items == [] {
      EmptyArrayRoot(stream, strict);
    } else {
      assert EntryReturns(Seq(items), delimiter, strict) == ArrayReturns(items, false, delimiter, strict);
      hide ArrayBlock, Proper, Norm, EntryReturns, ArrayReturns, Shows, ArrayBody, HeadOf, BodyReturns, Braces, WellNamed, Utf8Named, Solid, ReadsTree, ReadsRoot, ArrayOrKeyed, Root;
      var form := ArrayForm(AtRoot, items, 0, delimiter);
      ArrayHead(AtRoot, items, 0, 0, delimiter, block);
      ArrayFormIsWritten(AtRoot, items, 0, delimiter);
      ArrayBodyReads(AtRoot, items, 0, 0, delimiter, block, stream.rest, stream.line.at, strict);
      ArrayReturnsWhen(AtRoot, items, 0, delimiter, strict);
      ArrayIsNotKeyed(stream.rest, HeaderFor(AtRoot, |items|, false, delimiter, form), 0, stream.line.at, strict);
      HeaderRootReads(|items|, false, delimiter, form, block, stream, BodyReturns(items, form, delimiter, strict), Norm(Seq(items), false), strict);
    }
  }

  lemma {:induction false} EmptyArrayRoot(stream: LineStream, strict: bool)
    requires stream.More? && stream.line.depth == 0 && stream.line.content == TrimRight(EMPTY_ARRAY) && stream.rest.End?
    ensures ReadsRoot(Root(stream, strict), true, Seq([]))
  {
    TrimRightKeeps(EMPTY_ARRAY);
  }

  lemma {:induction false} KeyedRootReads(pairs: seq<Pair>, nodes: seq<ShapeNode>, delimiter: byte, block: Block, stream: LineStream, strict: bool)
    requires Proper(Dict(pairs)) && IsDelimiter(delimiter) && KeyedShape(pairs, 0) == Shaped(nodes)
    requires KeyedBlock(AtRoot, pairs, nodes, 0, delimiter) == Some(block)
    requires Shows(stream, Standing(block, 0)) && Drop(stream, |Standing(block, 0)|).End?
    ensures ReadsRoot(Root(stream, strict), EntryReturns(Dict(pairs), delimiter, strict), Norm(Dict(pairs), false))
  {
    hide KeyedBlock, KeyedShape, Proper, ProperPairs, Norm, EntryReturns, Shows, HeadOf, Braces, WellNamed, Utf8Named, Solid, ReadsTree, ReadsRoot, ArrayOrKeyed, Root, KeyedLines, HeaderFor, IsLine, ProjectEach;
    ProperDict(pairs);
    RootBlock(stream, block);
    KeyedBlockParts(AtRoot, pairs, nodes, 0, delimiter, block);
    KeyedReturnsWhen(pairs, 0, delimiter, strict);
    KeyedShapeIsNamed(pairs, 0, nodes);
    KeyedTableReads(pairs, nodes, delimiter, block, stream, strict);
  }

  lemma {:induction false} KeyedTableReads(pairs: seq<Pair>, nodes: seq<ShapeNode>, delimiter: byte, block: Block, stream: LineStream, strict: bool)
    requires ProperPairs(pairs) && |pairs| < USIZE_LIMIT && IsDelimiter(delimiter) && nodes != [] && WellNamed(nodes)
    requires block.head == HeadOf(AtRoot, |pairs|, true, delimiter, Form(nodes, []))
    requires KeyedLines(nodes, pairs, 1, delimiter) == Some(block.tail)
    requires Shows(stream, Standing(block, 0)) && Drop(stream, |Standing(block, 0)|).End?
    ensures ReadsRoot(Root(stream, strict), Braces(nodes) <= MAX_NESTING_DEPTH, Dict(ProjectEach(nodes, pairs)))
  {
    hide ProperPairs, Shows, HeadOf, Braces, WellNamed, Solid, ReadsTree, ReadsRoot, ArrayOrKeyed, Root, KeyedLines, HeaderFor, IsLine, ProjectEach;
    RootBlock(stream, block);
    KeyedBodyReads(AtRoot, pairs, nodes, 0, delimiter, block.tail, stream.rest, stream.line.at, strict);
    HeaderRootReads(|pairs|, true, delimiter, Form(nodes, []), block, stream, true, Dict(ProjectEach(nodes, pairs)), strict);
  }

  // ----- scalars at the root -----------------------------------------------------------------------

  /** A line the header grammar leaves alone and that holds no colon is a scalar document. */
  lemma {:induction false} PlainRootReads(stream: LineStream, text: bytes, value: Value, strict: bool)
    requires stream.More? && stream.line.depth == 0 && stream.line.content == text && stream.rest.End?
    requires text != EMPTY_ARRAY && ReadsAs(text, value) && PassedOver(HeaderOf(text, strict, stream.line.at), strict)
    requires FirstUnquoted(text, COLON, 0).None?
    ensures ReadsRoot(Root(stream, strict), true, value)
  {
    hide HeaderOf;
    assert ReadsAt(text, value, stream.line.at);
    assert EntryColon(text).None?;
    hide ValueToken, EntryColon;
  }

  lemma {:induction false} ClaimedRootFails(stream: LineStream, text: bytes, delimiter: byte, strict: bool)
    requires stream.More? && stream.line.content == text && Claimed(text, delimiter, strict)
    ensures Root(stream, strict).Err?
  {
    BareTextHasNoMarks(text, delimiter);
    UnquotedBracket(text);
    NoColonNoHeaderLine(text, stream.line.at, strict);
    hide HeaderOf, Marks, LooksLikeHeader, OverNested;
  }

  lemma {:induction false} ScalarRootReads(value: Value, delimiter: byte, stream: LineStream, strict: bool)
    requires IsScalar(value) && ScalarFormed(value) && IsDelimiter(delimiter)
    requires Shows(stream, [OutLine(0, ScalarText(value, delimiter))]) && Drop(stream, 1).End?
    ensures ReadsRoot(Root(stream, strict), StreamReturns(value, delimiter, strict), NormScalar(value))
  {
    var text := ScalarText(value, delimiter);
    ScalarIsStandalone(value, delimiter);
    TrimRightKeeps(text);
    OnlyLine(stream, OutLine(0, text));
    if StreamReturns(value, delimiter, strict) {
      ScalarIsPassedOver(value, delimiter, stream.line.at, strict);
      ScalarReads(value, delimiter);
      ScalarIsNoEmptyArray(value, delimiter);
      assert text[0..] == text;
      hide HeaderOf, ScalarText, Root, ReadsAs, ReadsRoot, PassedOver;
      PlainRootReads(stream, text, NormScalar(value), strict);
    } else {
      ClaimedRootFails(stream, value.text, delimiter, strict);
    }
  }

  lemma {:induction false} OnlyLine(stream: LineStream, line: OutLine)
    requires Shows(stream, [line]) && Drop(stream, 1).End?
    ensures stream.More? && IsLine(stream.line, line) && stream.rest.End?
  {
    hide IsLine;
    assert Drop(stream, 1) == Drop(stream.rest, 0) == stream.rest;
  }

  // ----- the root on a stream ------------------------------------------------------------------------

  lemma {:induction false} RootReads(value: Value, delimiter: byte, lines: seq<OutLine>, stream: LineStream, strict: bool)
    requires Proper(value) && IsDelimiter(delimiter) && RootLines(value, delimiter) == Some(lines)
    requires Shows(stream, lines) && Drop(stream, |lines|).End?
    ensures ReadsRoot(Root(stream, strict), StreamReturns(value, delimiter, strict), Norm(value, false))
  {
    match value
    case Seq(items) => ArrayRootReads(items, delimiter, ArrayBlock(AtRoot, items, 0, 0, delimiter).value, stream, strict);
    case Dict(pairs) =>
      ProperDict(pairs);
      if KeyedShape(pairs, 0).Shaped? {
        var nodes := KeyedShape(pairs, 0).nodes;
        hide KeyedBlock, Shows, Drop, Root, ReadsRoot, Norm, EntryReturns, KeyedShape, EntriesLines;
        KeyedRootReads(pairs, nodes, delimiter, KeyedBlock(AtRoot, pairs, nodes, 0, delimiter).value, stream, strict);
      } else {
        PlainReturnsWhen(pairs, 0, delimiter, strict);
        hide KeyedBlock, Shows, Drop, Root, ReadsRoot, Norm, EntryReturns, KeyedShape, EntriesLines;
        EntriesRootReads(pairs, delimiter, lines, stream, strict);
      }
    case _ => ScalarRootReads(value, delimiter, stream, strict);
  }

  // ----- the written lines ---------------------------------------------------------------------------

  lemma {:induction false} RootLinesAreWritable(value: Value, delimiter: byte, lines: seq<OutLine>)
    requires Proper(value) && IsDelimiter(delimiter) && RootLines(value, delimiter) == Some(lines)
    ensures AllWritable(lines)
  {
    match value
    case Seq(items) =>
      var block := ArrayBlock(AtRoot, items, 0, 0, delimiter).value;
      hide ArrayBlock, Writable, Proper;
      assert AllProper(items) by { assert Proper(value); }
      ArrayIsWritable(AtRoot, items, 0, 0, delimiter, block);
      StandingIsWritable(block, 0);
    case Dict(pairs) =>
      ProperDict(pairs);
      hide KeyedShape, KeyedBlock, EntriesLines, Writable, ProperPair;
      if KeyedShape(pairs, 0).Shaped? {
        var block := KeyedBlock(AtRoot, pairs, KeyedShape(pairs, 0).nodes, 0, delimiter).value;
        KeyedBlockIsWritable(AtRoot, pairs, 0, delimiter, block);
        StandingIsWritable(block, 0);
      } else {
        EntriesAreWritable(pairs, 0, delimiter, lines);
      }
    case _ =>
      hide ScalarText, Writable, CellText;
      ScalarIsStandalone(value, delimiter);
  }

  /** A line that starts in ASCII carries no byte-order mark. */
  predicate AsciiFirst(content: bytes) {
    content != [] && content[0] < 0x80
  }

  lemma {:induction false} KeyIsAsciiFirst(key: bytes, rest: bytes)
    ensures AsciiFirst(KeyText(key) + rest)
  {
    KeyIsTrimmed(key);
    if !KeyNeedsQuote(key) { BareKeyBytes(key); }
  }

  lemma {:induction false} HeaderIsAsciiFirst(place: Place, count: nat, keyed: bool, delimiter: byte, nodes: seq<ShapeNode>, suffix: bytes)
    ensures AsciiFirst(HeaderText(place, count, keyed, delimiter, nodes) + suffix)
  {
    hide KeyText, BracketText, BracedGroup;
    var rest := [LBRACKET] + (BracketText(count, keyed, delimiter) + ([RBRACKET] + (BracedGroup(nodes, delimiter) + [COLON])));
    match place
    case Named(key) =>
      KeyIsAsciiFirst(key, rest + suffix);
      assert (KeyText(key) + rest) + suffix == KeyText(key) + (rest + suffix);
    case _ =>
      assert ([] + rest)[0] == LBRACKET;
  }

  lemma {:induction false} PairIsAsciiFirst(pair: Pair, depth: nat, delimiter: byte, block: Block)
    requires PairBlock(pair, depth, delimiter) == Some(block)
    ensures AsciiFirst(block.head)
  {
    hide KeyText, AsciiFirst;
    match pair.value
    case Seq(items) =>
      assert EntryBlock(pair.key, pair.value, depth, delimiter) == ArrayBlock(Named(pair.key), items, depth, 0, delimiter);
      if items == [] {
        KeyIsAsciiFirst(pair.key, [COLON, SPACE] + EMPTY_ARRAY);
      } else {
        ArrayHead(Named(pair.key), items, depth, 0, delimiter, block);
        var form := ArrayForm(Named(pair.key), items, 0, delimiter);
        HeaderIsAsciiFirst(Named(pair.key), |items|, false, delimiter, form.nodes, form.suffix);
      }
    case Dict(pairs) =>
      assert EntryBlock(pair.key, pair.value, depth, delimiter) == ObjectBlock(pair.key, pairs, depth, delimiter);
      if KeyedShape(pairs, depth).Shaped? {
        var nodes := KeyedShape(pairs, depth).nodes;
        KeyedBlockParts(Named(pair.key), pairs, nodes, depth, delimiter, block);
        HeaderIsAsciiFirst(Named(pair.key), |pairs|, true, delimiter, nodes, []);
      } else {
        KeyIsAsciiFirst(pair.key, [COLON]);
      }
    case _ => KeyIsAsciiFirst(pair.key, [COLON, SPACE] + EntryScalarText(pair.value, delimiter));
  }

  /** The encoder writes a byte-order mark first only where it leaves a root string unquoted. */
  predicate BomRoot(value: Value, delimiter: byte) {
    value.Str? && !MustQuote(value.text, delimiter) && StartsWith(value.text, BOM)
  }

  lemma {:induction false} AsciiIsUnmarked(lines: seq<OutLine>)
    requires lines != [] ==> AsciiFirst(lines[0].content)
    ensures !Marked(lines)
  {
  }

  lemma {:induction false} RootIsUnmarked(value: Value, delimiter: byte, lines: seq<OutLine>)
    requires Proper(value) && IsDelimiter(delimiter) && RootLines(value, delimiter) == Some(lines) && !BomRoot(value, delimiter)
    ensures !Marked(lines)
  {
    match value
    case Seq(items) =>
      var block := ArrayBlock(AtRoot, items, 0, 0, delimiter).value;
      if items != [] {
        hide ArrayBlock, HeaderText, AsciiFirst;
        ArrayHead(AtRoot, items, 0, 0, delimiter, block);
        var form := ArrayForm(AtRoot, items, 0, delimiter);
        HeaderIsAsciiFirst(AtRoot, |items|, false, delimiter, form.nodes, form.suffix);
      }
      AsciiIsUnmarked(lines);
    case Dict(pairs) => RootObjectIsUnmarked(pairs, delimiter, lines);
    case _ => RootScalarIsUnmarked(value, delimiter);
  }

  lemma {:induction false} RootScalarIsUnmarked(value: Value, delimiter: byte)
    requires IsScalar(value) && ScalarFormed(value) && !BomRoot(value, delimiter)
    ensures !Marked([OutLine(0, ScalarText(value, delimiter))])
  {
    if !value.Str? || MustQuote(value.text, delimiter) {
      ScalarIsAsciiFirst(value, delimiter);
      AsciiIsUnmarked([OutLine(0, ScalarText(value, delimiter))]);
    }
  }

  lemma {:induction false} NumberIsAsciiFirst(text: bytes)
    requires IsNumber(text)
    ensures AsciiFirst(text)
  {
    hide IsNumber;
    NumberBytes(text);
    assert IsNumericByte(text[0]);
  }

  lemma {:induction false} ScalarIsAsciiFirst(value: Value, delimiter: byte)
    requires IsScalar(value) && ScalarFormed(value) && (value.Str? ==> MustQuote(value.text, delimiter))
    ensures AsciiFirst(ScalarText(value, delimiter))
  {
    hide MustQuote, IsNumber, IntText;
    match value
    case Int(n) =>
      IntIsNumber(n);
      NumberIsAsciiFirst(IntText(n));
    case Float(text) => NumberIsAsciiFirst(text);
    case Str(text) => assert QuotedText(text)[0] == QUOTE;
    case _ =>
  }

  lemma {:induction false} IntIsNumber(n: int)
    ensures IsNumber(IntText(n))
  {
    IntTextValue(n);
  }

  lemma {:induction false} RootObjectIsUnmarked(pairs: seq<Pair>, delimiter: byte, lines: seq<OutLine>)
    requires RootLines(Dict(pairs), delimiter) == Some(lines)
    ensures !Marked(lines)
  {
    hide AsciiFirst, Marked;
    if KeyedShape(pairs, 0).Shaped? {
      var nodes := KeyedShape(pairs, 0).nodes;
      KeyedBlockParts(AtRoot, pairs, nodes, 0, delimiter, KeyedBlock(AtRoot, pairs, nodes, 0, delimiter).value);
      HeaderIsAsciiFirst(AtRoot, |pairs|, true, delimiter, nodes, []);
    } else if pairs != [] {
      PairIsAsciiFirst(pairs[0], 0, delimiter, PairBlock(pairs[0], 0, delimiter).value);
    }
    AsciiIsUnmarked(lines);
  }

  // ----- a root string the scanner takes a mark from ----------------------------------------------------

  predicate Returned(r: Result<Tree>, value: Value) {
    r.Ok? && Denote(r.value) == value
  }

  /** What a line reads as is a part of it. */
  lemma {:induction false} ReadIsPart(raw: bytes, number: nat, strict: bool, width: nat)
    requires width > 0
    ensures var r := ReadLine(raw, number, strict, width);
            r.Content? ==> |r.content| <= |raw| && forall b :: b in r.content ==> b in raw
  {
    var indent := LeadingSpaces(raw);
    PartOfSlice(raw, indent);
    PartOfSlice(raw, indent + TabRun(raw[indent..]).1);
    hide TrimRight, LeadingSpaces, TabRun, IsBlank;
  }

  lemma {:induction false} PartOfSlice(raw: bytes, from: nat)
    requires from <= |raw|
    ensures |TrimRight(raw[from..])| <= |raw| && forall b :: b in TrimRight(raw[from..]) ==> b in raw
  {
    TrimRightShape(raw[from..]);
  }

  /** A document of one line without colon, quote or bracket structure cannot be a longer string. */
  lemma {:induction false} ShortRootFails(stream: LineStream, text: bytes, strict: bool)
    requires stream.End? || stream.Broken? || (stream.More? && stream.rest.End?)
    requires stream.More? ==> |stream.line.content| < |text| && COLON !in stream.line.content && QUOTE !in stream.line.content
    ensures !Returned(Root(stream, strict), Str(text))
  {
    if stream.More? && stream.line.depth == 0 && stream.line.content != EMPTY_ARRAY {
      var content := stream.line.content;
      if Marks(content).bracket.Some? {
        NoColonNoHeaderLine(content, stream.line.at, strict);
        hide HeaderOf, Marks;
      } else {
        FindWithoutQuotes(content, COLON);
        assert content[0..] == content;
        ShortScalarFails(stream, text, strict);
      }
    }
  }

  lemma {:induction false} ShortScalarFails(stream: LineStream, text: bytes, strict: bool)
    requires stream.More? && stream.rest.End? && stream.line.depth == 0 && stream.line.content != EMPTY_ARRAY
    requires |stream.line.content| < |text| && QUOTE !in stream.line.content
    requires Marks(stream.line.content).bracket.None? && FirstUnquoted(stream.line.content, COLON, 0).None?
    ensures !Returned(Root(stream, strict), Str(text))
  {
    hide Marks, FirstUnquoted, BareToken;
    var token := BareToken(stream.line.content);
    BareTokenText(stream.line.content);
    assert ValueToken(stream.line.content, stream.line.at) == Ok(token);
    assert Root(stream, strict) == PlainRoot(stream, strict);
  }

  lemma {:induction false} BareTokenText(content: bytes)
    ensures TokenValue(BareToken(content)).Str? ==> TokenValue(BareToken(content)).text == content
  {
  }

  lemma {:induction false} BomRootFails(text: bytes, delimiter: byte, width: nat, strict: bool)
    requires width > 0 && BomRoot(Str(text), delimiter)
    ensures !Returned(Document(text, strict, width), Str(text))
  {
    assert forall i :: 0 <= i < |text| ==> !ForcesQuote(text[i], delimiter);
    assert LF !in text && COLON !in text && QUOTE !in text;
    assert LineWidth(text) == |text| && AfterLine(text) == [] && text[..|text|] == text;
    BomLine(text, width, strict);
    var stream := LinesOf(text, 0, strict, width, false);
    hide Root, LinesOf;
    ShortRootFails(stream, text, strict);
  }

  lemma {:induction false} BomLine(text: bytes, width: nat, strict: bool)
    requires width > 0 && StartsWith(text, BOM) && LineWidth(text) == |text| && text[|text| - 1] != CR
    requires COLON !in text && QUOTE !in text
    ensures var stream := LinesOf(text, 0, strict, width, false);
            && (stream.End? || stream.Broken? || (stream.More? && stream.rest.End?))
            && (stream.More? ==> |stream.line.content| < |text| && COLON !in stream.line.content && QUOTE !in stream.line.content)
  {
    var raw := StripMarks(text, 1);
    assert text[..LineWidth(text)] == text && AfterLine(text) == [];
    assert raw == text[3..];
    ReadIsPart(raw, 1, strict, width);
    var reading := ReadLine(raw, 1, strict, width);
    hide ReadLine, StripMarks;
    assert LinesOf(text, 0, strict, width, false) == LinesBehind(reading, [], 1, strict, width, false);
  }

  // ----- the theorem ---------------------------------------------------------------------------------------

  lemma {:induction false} DocumentIsRoot(lines: seq<OutLine>, width: nat, strict: bool)
    requires width > 0 && AllWritable(lines)
    ensures Document(Encoded(lines, width), strict, width) == Root(LinesOf(Encoded(lines, width), 0, strict, width, false), strict)
  {
    hide Root, LinesOf, ValidUtf8, Encoded;
    WrittenLinesAreUtf8(lines, width);
  }

  lemma {:induction false} UnmarkedReturnsIff(value: Value, delimiter: byte, lines: seq<OutLine>, width: nat, strict: bool)
    requires Proper(value) && IsDelimiter(delimiter) && width > 0 && RootLines(value, delimiter) == Some(lines) && !BomRoot(value, delimiter)
    ensures Returned(Document(Encoded(lines, width), strict, width), Norm(value, false)) <==> StreamReturns(value, delimiter, strict) && WithinLimit(lines)
  {
    hide Root, LinesOf, Encoded, Norm, RootLines, Proper, StreamReturns, WithinLimit, Denote, Document, Shows, Drop, Marked, AllWritable;
    RootLinesAreWritable(value, delimiter, lines);
    RootIsUnmarked(value, delimiter, lines);
    DocumentIsRoot(lines, width, strict);
    WrittenLinesScan(lines, 0, width, strict);
    assert Look(0);
    var stream := LinesOf(Encoded(lines, width), 0, strict, width, false);
    ScannedLinesShow(stream, lines);
    if WithinLimit(lines) {
      RootReads(value, delimiter, lines, stream, strict);
    } else if Root(stream, strict).Ok? {
      StrictMode.AcceptedIsUnbroken(stream, strict);
    }
  }

  /** The decoder gives back the encoded value, up to the key order of table rows and the type of
      integral floats, exactly when no string is one of the named kinds, no field group is too deep and no
      line lies too deep. */
  lemma {:induction false} EncodedReturnsIff(value: Value, delimiter: byte, lines: seq<OutLine>, width: nat, strict: bool)
    requires Proper(value) && IsDelimiter(delimiter) && width > 0 && RootLines(value, delimiter) == Some(lines)
    ensures Returned(Document(Encoded(lines, width), strict, width), Norm(value, false)) <==> RootReturns(value, delimiter, strict) && WithinLimit(lines)
  {
    if BomRoot(value, delimiter) {
      var text := value.text;
      EncodedScalar(text, width);
      assert ScalarText(value, delimiter) == text;
      BomRootFails(text, delimiter, width, strict);
    } else {
      hide Document, Norm, Encoded, Proper, RootLines, WithinLimit, EntryReturns, Claimed;
      UnmarkedReturnsIff(value, delimiter, lines, width, strict);
    }
  }

  lemma {:induction false} EncodedScalar(text: bytes, width: nat)
    ensures Encoded([OutLine(0, text)], width) == text
  {
    var lines := [OutLine(0, text)];
    EncodedCons(lines, width);
    assert (Spaces(0) + text) + [] == text;
  }
}
