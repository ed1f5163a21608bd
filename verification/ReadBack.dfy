/** The recursive structure read back: every construct the encoder writes is parsed as the construct it was
    written for, and where it is not, exactly the named conditions fail (src/parser.rs, src/encode.rs). */
module ReadBack {
  import opened Bytes
  import opened Tokens
  import opened Faults
  import opened Cells
  import opened Escapes
  import opened Header
  import opened Scan
  import opened Events
  import opened Grammar
  import opened Values
  import opened Shapes
  import opened QuoteDecision
  import opened Render
  import opened Layout
  import opened ReadScalars
  import opened ReadGroups
  import opened ReadHeaders
  import opened ReadRows
  import opened Faithful
  import opened ReadEntries
  import opened ReadLeaves

  // ----- the form of an array ------------------------------------------------------------------

  /** What a header names, and what follows it on its line. */
  datatype Form = Form(nodes: seq<ShapeNode>, suffix: bytes)

  function ArrayForm(place: Place, items: seq<Value>, nesting: nat, delimiter: byte): Form {
    if items == [] then Form([], [])
    else match ArrayShape(place, items, nesting)
      case Shaped(nodes) => Form(nodes, [])
      case _ =>
        if AllScalars(items) then Form([], [SPACE] + Join(CellTexts(items, delimiter), delimiter)) else Form([], [])
  }

  function HeaderFor(place: Place, count: nat, keyed: bool, delimiter: byte, form: Form): Header {
    Header(KeyOf(place), count, keyed, delimiter, NodesOf(form.nodes), InlineOf(form.suffix))
  }

  function HeadOf(place: Place, count: nat, keyed: bool, delimiter: byte, form: Form): bytes {
    HeaderText(place, count, keyed, delimiter, form.nodes) + form.suffix
  }

  /** The head of an array that is not spelled `[]`. */
  lemma {:induction false} ArrayHead(place: Place, items: seq<Value>, depth: nat, nesting: nat, delimiter: byte, block: Block)
    requires ArrayBlock(place, items, depth, nesting, delimiter) == Some(block) && (items != [] || place.InList?)
    ensures block.head == HeadOf(place, |items|, false, delimiter, ArrayForm(place, items, nesting, delimiter))
    ensures place.InList? ==> ArrayForm(place, items, nesting, delimiter).nodes == []
    ensures items != [] ==> !ArrayShape(place, items, nesting).TooDeep?
  {
    hide HeaderText, BuildShape, TableLines, ItemsLines, CellTexts, Join;
    if ArrayForm(place, items, nesting, delimiter).suffix == [] {
      NothingBehind(HeaderText(place, |items|, false, delimiter, ArrayForm(place, items, nesting, delimiter).nodes));
    }
  }

  lemma {:induction false} NothingBehind(s: bytes)
    ensures s + [] == s
  {
  }

  lemma {:induction false} ArrayFormIsWritten(place: Place, items: seq<Value>, nesting: nat, delimiter: byte)
    requires AllProper(items) && IsDelimiter(delimiter) && (items != [] ==> !ArrayShape(place, items, nesting).TooDeep?)
    ensures var form := ArrayForm(place, items, nesting, delimiter);
            && WellNamed(form.nodes) && Utf8Named(form.nodes) && Follows(form.suffix, form.nodes)
            && (form.suffix != [] ==> Solid(form.suffix[1..]))
  {
    if items != [] {
      if ArrayShape(place, items, nesting).Shaped? {
        ShapeIsNamed(items, nesting, ArrayShape(place, items, nesting).nodes);
      } else if AllScalars(items) {
        InlineCellsSplit(items, delimiter);
        assert ([SPACE] + Join(CellTexts(items, delimiter), delimiter))[1..] == Join(CellTexts(items, delimiter), delimiter);
      }
    }
  }

  lemma {:induction false} HeadEnds(place: Place, count: nat, keyed: bool, delimiter: byte, form: Form)
    requires form.suffix != [] ==> Solid(form.suffix[1..])
    ensures var head := HeadOf(place, count, keyed, delimiter, form);
            head != [] && head[|head| - 1] != SPACE && head != EMPTY_ARRAY
  {
    var text := HeaderText(place, count, keyed, delimiter, form.nodes);
    HeaderEnds(place, count, keyed, delimiter, form.nodes);
    var head := text + form.suffix;
    if form.suffix != [] {
      assert head[|head| - 1] == form.suffix[|form.suffix| - 1] == form.suffix[1..][|form.suffix| - 2];
    }
    assert head[|text| - 1] == COLON;
  }

  lemma {:induction false} HeaderEnds(place: Place, count: nat, keyed: bool, delimiter: byte, nodes: seq<ShapeNode>)
    ensures var text := HeaderText(place, count, keyed, delimiter, nodes); |text| > 2 && text[|text| - 1] == COLON
  {
    hide KeyPart, BracketText, BracedGroup;
  }

  /** What the header grammar makes of the head. */
  lemma {:induction false} HeadReads(place: Place, count: nat, keyed: bool, delimiter: byte, form: Form, at: Position, strict: bool)
    requires IsDelimiter(delimiter) && count < USIZE_LIMIT && WellNamed(form.nodes) && Follows(form.suffix, form.nodes)
    requires keyed ==> form.nodes != []
    ensures HeaderIs(HeadOf(place, count, keyed, delimiter, form), strict, at,
                     if Braces(form.nodes) > MAX_NESTING_DEPTH then Err(SyntaxAt(DepthLimit, at))
                     else Ok(HeaderLine(HeaderFor(place, count, keyed, delimiter, form))))
  {
    hide HeaderText, HeaderIs, WellNamed, Braces, NodesOf, KeyOf;
    HeaderReads(place, count, keyed, delimiter, form.nodes, form.suffix, strict, at);
  }

  // ----- streams -----------------------------------------------------------------------------------

  /** The lines behind an object at `depth` lie above it. */
  predicate Leaves(rest: LineStream, depth: nat) {
    rest.End? || (rest.More? && rest.line.depth < depth)
  }

  lemma {:induction false} EntriesStart(pairs: seq<Pair>, depth: nat, delimiter: byte, lines: seq<OutLine>)
    requires EntriesLines(pairs, depth, delimiter) == Some(lines)
    ensures pairs == [] <==> lines == []
    ensures lines != [] ==> lines[0].depth == depth
  {
    hide PairBlock;
    if pairs != [] { assert lines[0] == Standing(PairBlock(pairs[0], depth, delimiter).value, depth)[0]; }
  }

  lemma {:induction false} ItemsStart(items: seq<Value>, depth: nat, nesting: nat, delimiter: byte, lines: seq<OutLine>)
    requires ItemsLines(items, depth, nesting, delimiter) == Some(lines)
    ensures items == [] <==> lines == []
    ensures lines != [] ==> lines[0].depth == depth
  {
    hide ItemBlock;
    if items != [] { assert lines[0] == Standing(ItemBlock(items[0], depth, nesting, delimiter).value, depth)[0]; }
  }

  /** A stream that shows a block and more lines: the block's first line, its tail, then the others. */
  lemma {:induction false} BlockFirst(stream: LineStream, first: Block, others: seq<OutLine>, depth: nat, lines: seq<OutLine>)
    requires lines == Standing(first, depth) + others && Shows(stream, lines)
    ensures stream.More? && IsLine(stream.line, OutLine(depth, first.head)) && Shows(stream.rest, first.tail)
    ensures Shows(Drop(stream.rest, |first.tail|), others)
    ensures Drop(Drop(stream.rest, |first.tail|), |others|) == Drop(stream, |lines|)
  {
    hide IsLine;
    BlockLines(first, others, depth, lines);
    ShowsConcat(stream.rest, first.tail, others);
  }

  lemma {:induction false} BlockLines(first: Block, others: seq<OutLine>, depth: nat, lines: seq<OutLine>)
    requires lines == Standing(first, depth) + others
    ensures lines != [] && lines[0] == OutLine(depth, first.head) && lines[1..] == first.tail + others
  {
  }

  lemma {:induction false} NextStands(stream: LineStream, lines: seq<OutLine>, depth: nat, limit: nat)
    requires Shows(stream, lines) && Closes(Drop(stream, |lines|), limit) && (lines != [] ==> lines[0].depth == depth)
    ensures Closes(stream, Max(depth, limit))
  {
  }

  // ----- arrays --------------------------------------------------------------------------------------

  predicate BodyReturns(items: seq<Value>, form: Form, delimiter: byte, strict: bool) {
    form.nodes != [] || AllScalars(items) || ItemsReturn(items, delimiter, strict)
  }

  /** What the array's return depends on: its lines, and the depth of its header. */
  lemma {:induction false} ArrayReturnsWhen(place: Place, items: seq<Value>, nesting: nat, delimiter: byte, strict: bool)
    requires items != [] ==> !ArrayShape(place, items, nesting).TooDeep?
    ensures var form := ArrayForm(place, items, nesting, delimiter);
            ArrayReturns(items, place.InList?, delimiter, strict) <==> BodyReturns(items, form, delimiter, strict) && Braces(form.nodes) <= MAX_NESTING_DEPTH
    ensures var form := ArrayForm(place, items, nesting, delimiter);
            Norm(Seq(items), place.InList?) == Seq(if form.nodes != [] then ProjectRows(form.nodes, items) else NormItems(items))
  {
    hide BuildShape, ProjectRows, ItemsReturn, CellTexts, Join;
    if items != [] && !place.InList? { SameShape(items, nesting); }
    if items == [] { assert AllScalars(items); }
  }

  lemma {:induction false} ArrayBodyReads(
      place: Place, items: seq<Value>, depth: nat, nesting: nat, delimiter: byte, block: Block, stream: LineStream, at: Position, strict: bool)
    requires AllProper(items) && IsDelimiter(delimiter) && (items != [] || place.InList?)
    requires ArrayBlock(place, items, depth, nesting, delimiter) == Some(block)
    requires Shows(stream, block.tail) && Closes(Drop(stream, |block.tail|), depth)
    ensures var form := ArrayForm(place, items, nesting, delimiter);
            ReadsTree(ArrayBody(stream, HeaderFor(place, |items|, false, delimiter, form), depth, at, strict),
                      BodyReturns(items, form, delimiter, strict), Norm(Seq(items), place.InList?), Drop(stream, |block.tail|))
    decreases items, 2
  {
    hide HeaderText, Norm, BuildShape, CellTexts, Join, NormItems, ProjectRows, NodesOf, KeyOf, Proper, Shows, Closes, Drop, TableLines, ArrayBody;
    var form := ArrayForm(place, items, nesting, delimiter);
    var header := HeaderFor(place, |items|, false, delimiter, form);
    ArrayReturnsWhen(place, items, nesting, delimiter, strict);
    if items != [] && ArrayShape(place, items, nesting).Shaped? {
      TableBodyReads(form.nodes, items, nesting, block.tail, stream, header, depth, at, strict);
    } else if items != [] && AllScalars(items) {
      SuffixBody(items, form, header, stream, depth, at, strict);
    } else {
      assert AllScalars(items) ==> items == [];
      ListBodyReads(items, block.tail, stream, header, depth, nesting + 1, at, strict);
    }
  }

  lemma {:induction false} TableBodyReads(
      nodes: seq<ShapeNode>, rows: seq<Value>, nesting: nat, lines: seq<OutLine>, stream: LineStream, header: Header, depth: nat, at: Position, strict: bool)
    requires AllProper(rows) && rows != [] && BuildShape(rows, nesting) == Shaped(nodes) && IsDelimiter(header.delimiter)
    requires header.fields == NodesOf(nodes) && header.declared == |rows|
    requires TableLines(nodes, rows, depth + 1, header.delimiter) == Some(lines)
    requires Shows(stream, lines) && Closes(Drop(stream, |lines|), depth)
    ensures ReadsTree(ArrayBody(stream, header, depth, at, strict), true, Seq(ProjectRows(nodes, rows)), Drop(stream, |lines|))
  {
    ShapeIsNamed(rows, nesting, nodes);
    TableReads(nodes, rows, lines, stream, header, depth, 0, strict);
    hide TableLines, Shows, Closes, Drop, ProjectRows, BuildShape, Proper, WellNamed, Utf8Named, TableRows;
  }

  lemma {:induction false} SuffixBody(items: seq<Value>, form: Form, header: Header, stream: LineStream, depth: nat, at: Position, strict: bool)
    requires AllProper(items) && AllScalars(items) && items != [] && IsDelimiter(header.delimiter)
    requires form == Form([], [SPACE] + Join(CellTexts(items, header.delimiter), header.delimiter))
    requires header.fields == NodesOf(form.nodes) && header.declared == |items| && header.inlineValues == InlineOf(form.suffix)
    ensures ReadsTree(ArrayBody(stream, header, depth, at, strict), true, Seq(NormItems(items)), Drop(stream, 0))
  {
    hide ArrayBody, Denote, NormItems, CellTexts, Join;
    assert form.suffix[1..] == Join(CellTexts(items, header.delimiter), header.delimiter);
    InlineBodyReads(items, header, stream, depth, at, strict);
  }

  lemma {:induction false} ListBodyReads(
      items: seq<Value>, lines: seq<OutLine>, stream: LineStream, header: Header, depth: nat, nesting: nat, at: Position, strict: bool)
    requires AllProper(items) && IsDelimiter(header.delimiter)
    requires header.fields == [] && header.inlineValues.None? && header.declared == |items|
    requires ItemsLines(items, depth + 1, nesting, header.delimiter) == Some(lines)
    requires Shows(stream, lines) && Closes(Drop(stream, |lines|), depth)
    ensures ReadsTree(ArrayBody(stream, header, depth, at, strict), ItemsReturn(items, header.delimiter, strict), Seq(NormItems(items)), Drop(stream, |lines|))
    decreases items, 1
  {
    ListReads(items, depth, nesting, header.delimiter, lines, stream, header.declared, 0, strict);
    hide ItemsLines, Shows, Closes, Drop, NormItems, ItemsReturn, Proper, ListItems;
  }

  lemma {:induction false} ListReads(
      items: seq<Value>, depth: nat, nesting: nat, delimiter: byte, lines: seq<OutLine>, stream: LineStream, declared: nat, index: nat, strict: bool)
    requires AllProper(items) && IsDelimiter(delimiter) && declared == index + |items|
    requires ItemsLines(items, depth + 1, nesting, delimiter) == Some(lines)
    requires Shows(stream, lines) && Closes(Drop(stream, |lines|), depth)
    ensures ReadsItems(ListItems(stream, depth, strict, declared, index), ItemsReturn(items, delimiter, strict), NormItems(items), Drop(stream, |lines|))
    decreases items, 0
  {
    if items == [] {
      NoNextRow(stream, depth, declared, strict);
    } else {
      var first, others := ItemBlock(items[0], depth + 1, nesting, delimiter).value, ItemsLines(items[1..], depth + 1, nesting, delimiter).value;
      assert lines == Standing(first, depth + 1) + others;
      BlockFirst(stream, first, others, depth + 1, lines);
      hide ItemBlock, ItemsLines, Shows, IsLine, Drop, Proper, ListItem, ReadsTree, ReadsItems, Norm, ItemReturns;
      var middle := Drop(stream.rest, |first.tail|);
      ItemsStart(items[1..], depth + 1, nesting, delimiter, others);
      NextStands(middle, others, depth + 1, depth);
      assert Proper(items[0]);
      FirstItem(items[0], depth, nesting, delimiter, first, stream, strict);
      ListReads(items[1..], depth, nesting, delimiter, others, middle, declared, index + 1, strict);
      ListStep(items, stream, depth, declared, index, delimiter, middle, Drop(stream, |lines|), strict);
    }
  }

  lemma {:induction false} FirstItem(item: Value, depth: nat, nesting: nat, delimiter: byte, block: Block, stream: LineStream, strict: bool)
    requires Proper(item) && IsDelimiter(delimiter) && ItemBlock(item, depth + 1, nesting, delimiter) == Some(block)
    requires stream.More? && IsLine(stream.line, OutLine(depth + 1, block.head))
    requires Shows(stream.rest, block.tail) && Closes(Drop(stream.rest, |block.tail|), depth + 1)
    ensures stream.line.depth == depth + 1 && !stream.line.blankBefore
    ensures ReadsTree(ListItem(stream.line.content, stream.line.at, stream.rest, depth, strict), ItemReturns(item, delimiter, strict), Norm(item, true),
                      Drop(stream.rest, |block.tail|))
    decreases item, 4
  {
    hide ItemBlock, Shows, Closes, Drop, Proper, ListItem, ReadsTree, Norm, ItemReturns;
    ItemReads(item, depth, nesting, delimiter, block, stream.line.content, stream.line.at, stream.rest, strict);
  }

  lemma {:induction false} ListStep(items: seq<Value>, stream: LineStream, depth: nat, declared: nat, index: nat, delimiter: byte, middle: LineStream, rest: LineStream, strict: bool)
    requires items != [] && index < declared && stream.More? && stream.line.depth == depth + 1 && !stream.line.blankBefore
    requires ReadsTree(ListItem(stream.line.content, stream.line.at, stream.rest, depth, strict), ItemReturns(items[0], delimiter, strict), Norm(items[0], true), middle)
    requires ReadsItems(ListItems(middle, depth, strict, declared, index + 1), ItemsReturn(items[1..], delimiter, strict), NormItems(items[1..]), rest)
    ensures ReadsItems(ListItems(stream, depth, strict, declared, index), ItemsReturn(items, delimiter, strict), NormItems(items), rest)
  {
    hide ListItem, Norm, ItemReturns, Denote, DenoteItems;
    var first := ListItem(stream.line.content, stream.line.at, stream.rest, depth, strict);
    assert NextRow(stream, depth, strict, declared, index) == Ok(Some(Parsed(stream.line, stream.rest)));
    if first.Ok? {
      ItemsCons(first.value, ListItems(middle, depth, strict, declared, index + 1), ListItems(stream, depth, strict, declared, index),
                ItemReturns(items[0], delimiter, strict), ItemsReturn(items[1..], delimiter, strict), Norm(items[0], true), NormItems(items[1..]), rest, middle);
    }
  }

  // ----- list items ----------------------------------------------------------------------------------

  /** A dash and what stands behind it. */
  lemma {:induction false} DashedLine(content: bytes, head: bytes, at: Position, stream: LineStream, depth: nat, strict: bool)
    requires content == TrimRight(DASH + head) && TrimRight(head) != []
    ensures ListItem(content, at, stream, depth, strict) ==
            DashedItem(TrimRight(head), Position(at.line, at.column + 2), stream, depth, strict)
  {
    hide DashedItem;
    TrimRightConcat(DASH, head);
    assert content[2..] == TrimRight(head) && content[..2] == DASH;
  }

  lemma {:induction false} ItemReads(
      item: Value, depth: nat, nesting: nat, delimiter: byte, block: Block, content: bytes, at: Position, stream: LineStream, strict: bool)
    requires Proper(item) && IsDelimiter(delimiter) && ItemBlock(item, depth + 1, nesting, delimiter) == Some(block)
    requires content == TrimRight(block.head) && Shows(stream, block.tail) && Closes(Drop(stream, |block.tail|), depth + 1)
    ensures ReadsTree(ListItem(content, at, stream, depth, strict), ItemReturns(item, delimiter, strict), Norm(item, true), Drop(stream, |block.tail|))
    decreases item, 3
  {
    match item
    case Seq(items) => ArrayItemReads(items, depth, nesting, delimiter, block, content, at, stream, strict);
    case Dict(pairs) =>
      if pairs == [] {
        EmptyItemReads(content, at, stream, depth, strict);
      } else {
        ObjectItemReads(pairs, depth, nesting, delimiter, block, content, at, stream, strict);
      }
    case _ => ScalarLineReads(item, delimiter, content, at, stream, depth, strict);
  }

  lemma {:induction false} EmptyItemReads(content: bytes, at: Position, stream: LineStream, depth: nat, strict: bool)
    requires content == TrimRight([MINUS])
    ensures ReadsTree(ListItem(content, at, stream, depth, strict), true, Dict([]), stream)
  {
    TrimRightKeeps([MINUS]);
  }

  lemma {:induction false} ScalarLineReads(item: Value, delimiter: byte, content: bytes, at: Position, stream: LineStream, depth: nat, strict: bool)
    requires IsScalar(item) && ScalarFormed(item) && IsDelimiter(delimiter) && content == TrimRight(DASH + ScalarText(item, delimiter))
    ensures ReadsTree(ListItem(content, at, stream, depth, strict), ItemReturns(item, delimiter, strict), NormScalar(item), stream)
  {
    hide ScalarText, DashedItem, ListItem, ReadsTree;
    ScalarIsStandalone(item, delimiter);
    TrimRightKeeps(ScalarText(item, delimiter));
    DashedLine(content, ScalarText(item, delimiter), at, stream, depth, strict);
    ScalarItemReads(item, delimiter, Position(at.line, at.column + 2), stream, depth, strict);
  }

  lemma {:induction false} ArrayItemReads(
      items: seq<Value>, depth: nat, nesting: nat, delimiter: byte, block: Block, content: bytes, at: Position, stream: LineStream, strict: bool)
    requires Proper(Seq(items)) && IsDelimiter(delimiter) && ItemBlock(Seq(items), depth + 1, nesting, delimiter) == Some(block)
    requires content == TrimRight(block.head) && Shows(stream, block.tail) && Closes(Drop(stream, |block.tail|), depth + 1)
    ensures ReadsTree(ListItem(content, at, stream, depth, strict), ItemReturns(Seq(items), delimiter, strict), Norm(Seq(items), true), Drop(stream, |block.tail|))
    decreases items, 3
  {
    var inner := ArrayBlock(InList, items, depth + 1, nesting + 1, delimiter).value;
    assert block == Dashed(inner);
    assert ItemReturns(Seq(items), delimiter, strict) == ArrayReturns(items, true, delimiter, strict);
    ProperSeq(items);
    hide ArrayBlock, ItemBlock, Proper, Norm, ItemReturns, ArrayReturns, Shows, Drop, Closes, ListItem, DashedItem, ArrayBody, HeadOf, HeaderFor, BodyReturns, Braces, WellNamed, Utf8Named, Solid;
    var form, behind := ArrayForm(InList, items, nesting + 1, delimiter), Position(at.line, at.column + 2);
    ArrayHead(InList, items, depth + 1, nesting + 1, delimiter, inner);
    ArrayFormIsWritten(InList, items, nesting + 1, delimiter);
    HeadEnds(InList, |items|, false, delimiter, form);
    TrimRightKeeps(inner.head);
    DashedLine(content, inner.head, at, stream, depth, strict);
    HeadReads(InList, |items|, false, delimiter, form, behind, strict);
    ArrayBodyReads(InList, items, depth + 1, nesting + 1, delimiter, inner, stream, behind, strict);
    ArrayReturnsWhen(InList, items, nesting + 1, delimiter, strict);
    ListHeader(inner.head, items, delimiter, form, behind, stream, depth, strict);
  }

  lemma {:induction false} ListHeader(head: bytes, items: seq<Value>, delimiter: byte, form: Form, at: Position, stream: LineStream, depth: nat, strict: bool)
    requires form.nodes == [] && head != EMPTY_ARRAY
    requires HeaderIs(head, strict, at, if Braces(form.nodes) > MAX_NESTING_DEPTH then Err(SyntaxAt(DepthLimit, at))
                                      else Ok(HeaderLine(HeaderFor(InList, |items|, false, delimiter, form))))
    ensures Braces(form.nodes) <= MAX_NESTING_DEPTH
    ensures DashedItem(head, at, stream, depth, strict) == ArrayBody(stream, HeaderFor(InList, |items|, false, delimiter, form), depth + 1, at, strict)
  {
    hide HeaderOf, ArrayBody;
    assert Look(0);
    var outcome := HeaderLine(HeaderFor(InList, |items|, false, delimiter, form));
    assert DashedItem(head, at, stream, depth, strict) == DashedWith(outcome, head, at, stream, depth, strict);
  }

  // ----- entries -----------------------------------------------------------------------------------------

  lemma {:induction false} ObjectItemReads(
      pairs: seq<Pair>, depth: nat, nesting: nat, delimiter: byte, block: Block, content: bytes, at: Position, stream: LineStream, strict: bool)
    requires Proper(Dict(pairs)) && pairs != [] && IsDelimiter(delimiter) && ItemBlock(Dict(pairs), depth + 1, nesting, delimiter) == Some(block)
    requires content == TrimRight(block.head) && Shows(stream, block.tail) && Closes(Drop(stream, |block.tail|), depth + 1)
    ensures ReadsTree(ListItem(content, at, stream, depth, strict), ItemReturns(Dict(pairs), delimiter, strict), Norm(Dict(pairs), true), Drop(stream, |block.tail|))
    decreases pairs, 5
  {
    var first, others := PairBlock(pairs[0], depth + 2, delimiter).value, EntriesLines(pairs[1..], depth + 2, delimiter).value;
    assert block == Block(DASH + first.head, first.tail + others);
    assert ItemReturns(Dict(pairs), delimiter, strict) == PairsReturn(pairs, delimiter, strict) && Norm(Dict(pairs), true) == Dict(NormPairs(pairs));
    ProperDict(pairs);
    hide PairBlock, EntriesLines, ItemBlock, Proper, ProperPair, Norm, ItemReturns, PairReturns, PairsReturn, Shows, Drop, ListItem, DashedItem, Entry, ItemBody, EntryLine, NormPair, NormPairs, ReadsField, ReadsFields, ReadsTree, AsObject;
    var behind, middle := Position(at.line, at.column + 2), Drop(stream, |first.tail|);
    ShowsConcat(stream, first.tail, others);
    ProperStep(pairs);
    UnseenStep(pairs, {}, strict);
    NormNames(pairs);
    EntriesStart(pairs[1..], depth + 2, delimiter, others);
    NextStands(middle, others, depth + 2, depth + 1);
    PairReads(pairs[0], depth + 2, delimiter, first, TrimRight(first.head), behind, stream, {}, strict);
    ItemBodyReads(pairs[1..], depth, delimiter, others, middle, Noted({}, pairs[0].key, strict), strict);
    EntryLineNotBlank(TrimRight(first.head), strict);
    DashedLine(content, first.head, at, stream, depth, strict);
    DashedEntry(TrimRight(first.head), behind, stream, depth, strict);
    ObjectItemStep(pairs, Entry(TrimRight(first.head), behind, stream, depth + 2, strict, {}), behind, depth, delimiter, middle, Drop(stream, |block.tail|), strict);
  }

  lemma {:induction false} EntryLineNotBlank(content: bytes, strict: bool)
    requires EntryLine(content, strict)
    ensures content != []
  {
    var at := Position(1, 1);
    assert !EntryLineAt([], HeaderOf([], strict, at));
    assert EntryLineAt(content, HeaderOf(content, strict, at));
  }

  lemma {:induction false} ObjectItemStep(
      pairs: seq<Pair>, first: Result<Parsed<Field>>, at: Position, depth: nat, delimiter: byte, middle: LineStream, rest: LineStream, strict: bool)
    requires pairs != [] && DistinctKeys(NormPairs(pairs)) && ReadsField(first, PairReturns(pairs[0], delimiter, strict), NormPair(pairs[0]), middle)
    requires ReadsFields(ItemBody(middle, depth, strict, Noted({}, pairs[0].key, strict)), PairsReturn(pairs[1..], delimiter, strict), NormPairs(pairs[1..]), rest)
    ensures ReadsTree(AsObject(first, at, depth, strict), PairsReturn(pairs, delimiter, strict), Dict(NormPairs(pairs)), rest)
  {
    hide PairReturns, NormPair, ItemBody, Denote, DenotePairs, DenoteFields;
    if first.Ok? {
      assert Note({}, first.value.value.key, strict) == Noted({}, pairs[0].key, strict);
      var others := ItemBody(middle, depth, strict, Noted({}, pairs[0].key, strict));
      var all: Result<Parsed<seq<Field>>> := if others.Err? then Err(others.fault) else Ok(Parsed([first.value.value] + others.value.value, others.value.rest));
      FieldsCons(first.value, others, all, PairReturns(pairs[0], delimiter, strict), PairsReturn(pairs[1..], delimiter, strict),
                 NormPair(pairs[0]), NormPairs(pairs[1..]), rest, middle);
      if all.Ok? { ObjectOfFields(all.value.value, Repeated, at, NormPairs(pairs)); }
    }
  }

  lemma {:induction false} ItemBodyReads(
      pairs: seq<Pair>, depth: nat, delimiter: byte, lines: seq<OutLine>, stream: LineStream, seen: set<bytes>, strict: bool)
    requires ProperPairs(pairs) && IsDelimiter(delimiter) && Unseen(pairs, seen)
    requires EntriesLines(pairs, depth + 2, delimiter) == Some(lines)
    requires Shows(stream, lines) && Closes(Drop(stream, |lines|), depth + 1)
    ensures ReadsFields(ItemBody(stream, depth, strict, seen), PairsReturn(pairs, delimiter, strict), NormPairs(pairs), Drop(stream, |lines|))
    decreases pairs, 0
  {
    if pairs != [] {
      var first, others := PairBlock(pairs[0], depth + 2, delimiter).value, EntriesLines(pairs[1..], depth + 2, delimiter).value;
      assert lines == Standing(first, depth + 2) + others;
      hide PairBlock, EntriesLines, Shows, IsLine, Drop, Entry, ItemBody, NormPairs, NormPair, PairReturns, PairsReturn, ReadsFields, ReadsField, ProperPair;
      BlockFirst(stream, first, others, depth + 2, lines);
      var middle := Drop(stream.rest, |first.tail|);
      EntriesStart(pairs[1..], depth + 2, delimiter, others);
      NextStands(middle, others, depth + 2, depth + 1);
      ProperStep(pairs);
      UnseenStep(pairs, seen, strict);
      FirstEntry(pairs[0], depth + 2, delimiter, first, stream, seen, strict);
      ItemBodyReads(pairs[1..], depth, delimiter, others, middle, Noted(seen, pairs[0].key, strict), strict);
      ItemBodyStep(pairs, stream, depth, delimiter, seen, middle, Drop(stream, |lines|), strict);
    }
  }

  lemma {:induction false} FirstEntry(pair: Pair, depth: nat, delimiter: byte, block: Block, stream: LineStream, seen: set<bytes>, strict: bool)
    requires ProperPair(pair) && IsDelimiter(delimiter) && PairBlock(pair, depth, delimiter) == Some(block) && pair.key !in seen
    requires stream.More? && IsLine(stream.line, OutLine(depth, block.head))
    requires Shows(stream.rest, block.tail) && Closes(Drop(stream.rest, |block.tail|), depth)
    ensures stream.line.depth == depth && !stream.line.blankBefore
    ensures ReadsField(LineEntry(stream.line, stream.rest, depth, strict, seen), PairReturns(pair, delimiter, strict), NormPair(pair), Drop(stream.rest, |block.tail|))
    decreases pair, 5
  {
    hide PairBlock, Shows, Closes, Drop, ProperPair, Entry, ReadsField, NormPair, PairReturns;
    PairReads(pair, depth, delimiter, block, stream.line.content, stream.line.at, stream.rest, seen, strict);
  }

  lemma {:induction false} ItemBodyStep(
      pairs: seq<Pair>, stream: LineStream, depth: nat, delimiter: byte, seen: set<bytes>, middle: LineStream, rest: LineStream, strict: bool)
    requires pairs != [] && stream.More? && stream.line.depth == depth + 2 && !stream.line.blankBefore
    requires ReadsField(LineEntry(stream.line, stream.rest, depth + 2, strict, seen), PairReturns(pairs[0], delimiter, strict), NormPair(pairs[0]), middle)
    requires ReadsFields(ItemBody(middle, depth, strict, Noted(seen, pairs[0].key, strict)), PairsReturn(pairs[1..], delimiter, strict), NormPairs(pairs[1..]), rest)
    ensures ReadsFields(ItemBody(stream, depth, strict, seen), PairsReturn(pairs, delimiter, strict), NormPairs(pairs), rest)
  {
    hide LineEntry, PairReturns, NormPair, Denote, DenotePairs, TextOf;
    var first := LineEntry(stream.line, stream.rest, depth + 2, strict, seen);
    if first.Ok? {
      assert Note(seen, first.value.value.key, strict) == Noted(seen, pairs[0].key, strict);
      FieldsCons(first.value, ItemBody(middle, depth, strict, Noted(seen, pairs[0].key, strict)), ItemBody(stream, depth, strict, seen),
                 PairReturns(pairs[0], delimiter, strict), PairsReturn(pairs[1..], delimiter, strict), NormPair(pairs[0]), NormPairs(pairs[1..]), rest, middle);
    }
  }

  /** The entries of an object read as the object's fields. */
  lemma {:induction false} BodyReads(
      pairs: seq<Pair>, depth: nat, delimiter: byte, lines: seq<OutLine>, stream: LineStream, seen: set<bytes>, strict: bool)
    requires ProperPairs(pairs) && IsDelimiter(delimiter) && Unseen(pairs, seen)
    requires EntriesLines(pairs, depth, delimiter) == Some(lines)
    requires Shows(stream, lines) && Leaves(Drop(stream, |lines|), depth)
    ensures ReadsFields(ObjectBody(stream, depth, strict, seen), PairsReturn(pairs, delimiter, strict), NormPairs(pairs), Drop(stream, |lines|))
    decreases pairs, 0
  {
    if pairs != [] {
      var first, others := PairBlock(pairs[0], depth, delimiter).value, EntriesLines(pairs[1..], depth, delimiter).value;
      assert lines == Standing(first, depth) + others;
      hide PairBlock, EntriesLines, Shows, IsLine, Drop, Entry, ObjectBody, NormPairs, NormPair, PairReturns, PairsReturn, ReadsFields, ReadsField, ProperPair;
      BlockFirst(stream, first, others, depth, lines);
      var middle := Drop(stream.rest, |first.tail|);
      EntriesStart(pairs[1..], depth, delimiter, others);
      assert Closes(Drop(middle, |others|), depth);
      NextStands(middle, others, depth, depth);
      ProperStep(pairs);
      UnseenStep(pairs, seen, strict);
      FirstEntry(pairs[0], depth, delimiter, first, stream, seen, strict);
      BodyReads(pairs[1..], depth, delimiter, others, middle, Noted(seen, pairs[0].key, strict), strict);
      BodyStep(pairs, stream, depth, delimiter, seen, middle, Drop(stream, |lines|), strict);
    }
  }

  lemma {:induction false} BodyStep(
      pairs: seq<Pair>, stream: LineStream, depth: nat, delimiter: byte, seen: set<bytes>, middle: LineStream, rest: LineStream, strict: bool)
    requires pairs != [] && stream.More? && stream.line.depth == depth
    requires ReadsField(LineEntry(stream.line, stream.rest, depth, strict, seen), PairReturns(pairs[0], delimiter, strict), NormPair(pairs[0]), middle)
    requires ReadsFields(ObjectBody(middle, depth, strict, Noted(seen, pairs[0].key, strict)), PairsReturn(pairs[1..], delimiter, strict), NormPairs(pairs[1..]), rest)
    ensures ReadsFields(ObjectBody(stream, depth, strict, seen), PairsReturn(pairs, delimiter, strict), NormPairs(pairs), rest)
  {
    hide LineEntry, PairReturns, NormPair, Denote, DenotePairs, TextOf;
    var first := LineEntry(stream.line, stream.rest, depth, strict, seen);
    if first.Ok? {
      assert Note(seen, first.value.value.key, strict) == Noted(seen, pairs[0].key, strict);
      FieldsCons(first.value, ObjectBody(middle, depth, strict, Noted(seen, pairs[0].key, strict)), ObjectBody(stream, depth, strict, seen),
                 PairReturns(pairs[0], delimiter, strict), PairsReturn(pairs[1..], delimiter, strict), NormPair(pairs[0]), NormPairs(pairs[1..]), rest, middle);
    }
  }

  /** One entry, with the lines below it, reads as its key and value. */
  lemma {:induction false} PairReads(
      pair: Pair, depth: nat, delimiter: byte, block: Block, content: bytes, at: Position, stream: LineStream, seen: set<bytes>, strict: bool)
    requires ProperPair(pair) && IsDelimiter(delimiter) && PairBlock(pair, depth, delimiter) == Some(block) && pair.key !in seen
    requires content == TrimRight(block.head) && Shows(stream, block.tail) && Closes(Drop(stream, |block.tail|), depth)
    ensures ReadsField(Entry(content, at, stream, depth, strict, seen), PairReturns(pair, delimiter, strict), NormPair(pair), Drop(stream, |block.tail|))
    ensures EntryLine(content, strict)
    decreases pair, 4
  {
    hide Entry, ReadsField, EntryLine, Shows, Closes, KeyText;
    match pair.value
    case Seq(items) =>
      if items == [] {
        EmptyEntry(pair, depth, delimiter, block, content, at, stream, seen, strict);
      } else {
        ArrayEntryReads(pair.key, items, depth, delimiter, block, content, at, stream, seen, strict);
      }
    case Dict(pairs) =>
      if KeyedShape(pairs, depth).Shaped? {
        KeyedEntryReads(pair.key, pairs, depth, delimiter, block, content, at, stream, seen, strict);
      } else {
        NestedEntryReads(pair.key, pairs, depth, delimiter, block, content, at, stream, seen, strict);
      }
    case _ =>
      ScalarEntryReads(pair.key, pair.value, delimiter, content, at, stream, depth, seen, strict);
  }

  lemma {:induction false} EmptyEntry(pair: Pair, depth: nat, delimiter: byte, block: Block, content: bytes, at: Position, stream: LineStream, seen: set<bytes>, strict: bool)
    requires pair.value == Seq([]) && PairBlock(pair, depth, delimiter) == Some(block) && pair.key !in seen && content == TrimRight(block.head)
    ensures block.tail == []
    ensures ReadsField(Entry(content, at, stream, depth, strict, seen), PairReturns(pair, delimiter, strict), NormPair(pair), stream)
    ensures EntryLine(content, strict)
  {
    hide Entry, ReadsField, EntryLine, KeyText, TrimRight;
    assert EntryBlock(pair.key, pair.value, depth, delimiter) == ArrayBlock(Named(pair.key), [], depth, 0, delimiter);
    EmptyArrayEntryReads(pair.key, content, at, stream, depth, seen, strict);
    assert AllScalars([]) && NormItems([]) == [];
  }

  // ----- entries whose value stands below a header -----------------------------------------------------------

  lemma {:induction false} ArrayEntryReads(
      key: bytes, items: seq<Value>, depth: nat, delimiter: byte, block: Block, content: bytes, at: Position, stream: LineStream, seen: set<bytes>, strict: bool)
    requires ProperPair(Pair(key, Seq(items))) && items != [] && IsDelimiter(delimiter) && key !in seen
    requires ArrayBlock(Named(key), items, depth, 0, delimiter) == Some(block)
    requires content == TrimRight(block.head) && Shows(stream, block.tail) && Closes(Drop(stream, |block.tail|), depth)
    ensures ReadsField(Entry(content, at, stream, depth, strict, seen), EntryReturns(Seq(items), delimiter, strict), Pair(key, Norm(Seq(items), false)), Drop(stream, |block.tail|))
    ensures EntryLine(content, strict)
    decreases items, 4
  {
    assert EntryReturns(Seq(items), delimiter, strict) == ArrayReturns(items, false, delimiter, strict);
    ProperSeq(items);
    hide ArrayBlock, Proper, Norm, EntryReturns, ArrayReturns, Shows, Drop, Closes, Entry, ArrayBody, HeadOf, HeaderFor, BodyReturns, Braces, WellNamed, Utf8Named, Solid, ReadsField, ReadsTree, EntryLine, HeaderIs, ArrayOrKeyed;
    var form := ArrayForm(Named(key), items, 0, delimiter);
    ArrayHead(Named(key), items, depth, 0, delimiter, block);
    ArrayFormIsWritten(Named(key), items, 0, delimiter);
    HeadEnds(Named(key), |items|, false, delimiter, form);
    TrimRightKeeps(block.head);
    ArrayBodyReads(Named(key), items, depth, 0, delimiter, block, stream, at, strict);
    ArrayReturnsWhen(Named(key), items, 0, delimiter, strict);
    HeadIsEntry(key, |items|, false, delimiter, form, strict);
    ArrayIsNotKeyed(stream, HeaderFor(Named(key), |items|, false, delimiter, form), depth, at, strict);
    HeaderEntryReads(key, |items|, false, delimiter, form, content, at, stream, depth, seen, BodyReturns(items, form, delimiter, strict),
                     Norm(Seq(items), false), Drop(stream, |block.tail|), strict);
  }

  lemma {:induction false} ArrayIsNotKeyed(stream: LineStream, header: Header, depth: nat, at: Position, strict: bool)
    requires !header.keyed
    ensures ArrayOrKeyed(stream, header, depth, at, strict) == ArrayBody(stream, header, depth, at, strict)
  {
    hide ArrayBody;
  }

  lemma {:induction false} HeadIsEntry(key: bytes, count: nat, keyed: bool, delimiter: byte, form: Form, strict: bool)
    requires IsDelimiter(delimiter) && count < USIZE_LIMIT && WellNamed(form.nodes) && Follows(form.suffix, form.nodes)
    requires keyed ==> form.nodes != []
    requires HeadOf(Named(key), count, keyed, delimiter, form) != EMPTY_ARRAY
    ensures EntryLine(HeadOf(Named(key), count, keyed, delimiter, form), strict)
  {
    var content := HeadOf(Named(key), count, keyed, delimiter, form);
    hide HeadOf, HeaderOf, EntryLine, WellNamed, Braces, NodesOf;
    forall at ensures HeaderHasKey(content, at, strict) {
      HeadReads(Named(key), count, keyed, delimiter, form, at, strict);
    }
    HeaderLineIsEntry(content, strict);
  }

  /** An entry whose value stands below a header returns when its body does and the header is not too deep. */
  lemma {:induction false} HeaderEntryReads(
      key: bytes, count: nat, keyed: bool, delimiter: byte, form: Form, content: bytes, at: Position, stream: LineStream, depth: nat,
      seen: set<bytes>, back: bool, value: Value, rest: LineStream, strict: bool)
    requires IsDelimiter(delimiter) && count < USIZE_LIMIT && WellNamed(form.nodes) && Follows(form.suffix, form.nodes) && key !in seen
    requires keyed ==> form.nodes != []
    requires content == HeadOf(Named(key), count, keyed, delimiter, form)
    requires ReadsTree(ArrayOrKeyed(stream, HeaderFor(Named(key), count, keyed, delimiter, form), depth, at, strict), back, value, rest)
    ensures ReadsField(Entry(content, at, stream, depth, strict, seen), back && Braces(form.nodes) <= MAX_NESTING_DEPTH, Pair(key, value), rest)
  {
    hide HeadOf, HeaderIs, WellNamed, Braces, Entry, ReadsTree, ArrayOrKeyed, NodesOf, KeyToken, AsField;
    HeadReads(Named(key), count, keyed, delimiter, form, at, strict);
    if Braces(form.nodes) > MAX_NESTING_DEPTH {
      EntryOfBadHeader(content, at, stream, depth, seen, SyntaxAt(DepthLimit, at), strict);
    } else {
      var header := HeaderFor(Named(key), count, keyed, delimiter, form);
      EntryOfHeader(content, at, stream, depth, seen, header, key, strict);
      FieldOfTree(ArrayOrKeyed(stream, header, depth, at, strict), back, value, rest, key, at);
    }
  }

  lemma {:induction false} KeyedEntryReads(
      key: bytes, pairs: seq<Pair>, depth: nat, delimiter: byte, block: Block, content: bytes, at: Position, stream: LineStream, seen: set<bytes>, strict: bool)
    requires ProperPair(Pair(key, Dict(pairs))) && IsDelimiter(delimiter) && key !in seen
    requires KeyedShape(pairs, depth).Shaped? && ObjectBlock(key, pairs, depth, delimiter) == Some(block)
    requires content == TrimRight(block.head) && Shows(stream, block.tail) && Closes(Drop(stream, |block.tail|), depth)
    ensures ReadsField(Entry(content, at, stream, depth, strict, seen), EntryReturns(Dict(pairs), delimiter, strict), Pair(key, Norm(Dict(pairs), false)), Drop(stream, |block.tail|))
    ensures EntryLine(content, strict)
  {
    var nodes := KeyedShape(pairs, depth).nodes;
    var form := Form(nodes, []);
    KeyedBlockParts(Named(key), pairs, nodes, depth, delimiter, block);
    KeyedReturnsWhen(pairs, depth, delimiter, strict);
    ProperDict(pairs);
    hide ObjectBlock, KeyedBlock, KeyedShape, Proper, ProperPair, Norm, EntryReturns, Shows, Drop, Closes, Entry, HeadOf, Braces, WellNamed, Utf8Named, ReadsField, ReadsTree, EntryLine, HeaderIs, ArrayOrKeyed, KeyedLines, HeaderText;
    KeyedShapeIsNamed(pairs, depth, nodes);
    HeadEnds(Named(key), |pairs|, true, delimiter, form);
    TrimRightKeeps(block.head);
    KeyedBodyReads(Named(key), pairs, nodes, depth, delimiter, block.tail, stream, at, strict);
    HeadIsEntry(key, |pairs|, true, delimiter, form, strict);
    HeaderEntryReads(key, |pairs|, true, delimiter, form, content, at, stream, depth, seen, true, Norm(Dict(pairs), false), Drop(stream, |block.tail|), strict);
  }

  lemma {:induction false} KeyedBlockParts(place: Place, pairs: seq<Pair>, nodes: seq<ShapeNode>, depth: nat, delimiter: byte, block: Block)
    requires KeyedBlock(place, pairs, nodes, depth, delimiter) == Some(block)
    ensures block.head == HeadOf(place, |pairs|, true, delimiter, Form(nodes, []))
    ensures KeyedLines(nodes, pairs, depth + 1, delimiter) == Some(block.tail)
  {
    hide HeaderText, KeyedLines;
    NothingBehind(HeaderText(place, |pairs|, true, delimiter, nodes));
  }

  lemma {:induction false} KeyedReturnsWhen(pairs: seq<Pair>, depth: nat, delimiter: byte, strict: bool)
    requires KeyedShape(pairs, depth).Shaped?
    ensures EntryReturns(Dict(pairs), delimiter, strict) <==> Braces(KeyedShape(pairs, depth).nodes) <= MAX_NESTING_DEPTH
    ensures Norm(Dict(pairs), false) == Dict(ProjectEach(KeyedShape(pairs, depth).nodes, pairs))
  {
    SameKeyedShape(pairs, depth);
    hide KeyedShape, ProjectEach, Braces, PairsReturn, NormPairs;
  }

  lemma {:induction false} KeyedShapeIsNamed(pairs: seq<Pair>, depth: nat, nodes: seq<ShapeNode>)
    requires ProperPairs(pairs) && KeyedShape(pairs, depth) == Shaped(nodes)
    ensures nodes != [] && WellNamed(nodes) && Utf8Named(nodes)
  {
    var rows := ValuesOf(pairs);
    forall i | 0 <= i < |rows| ensures Proper(rows[i]) { assert ProperPair(pairs[i]); }
    ShapeIsNamed(rows, depth, nodes);
  }

  lemma {:induction false} ProjectedNames(nodes: seq<ShapeNode>, pairs: seq<Pair>)
    requires DistinctKeys(pairs)
    ensures DistinctKeys(ProjectEach(nodes, pairs))
  {
  }

  lemma {:induction false} KeyedBodyReads(
      place: Place, pairs: seq<Pair>, nodes: seq<ShapeNode>, depth: nat, delimiter: byte, lines: seq<OutLine>, stream: LineStream, at: Position, strict: bool)
    requires WellNamed(nodes) && ProperPairs(pairs) && IsDelimiter(delimiter)
    requires KeyedLines(nodes, pairs, depth + 1, delimiter) == Some(lines)
    requires Shows(stream, lines) && Closes(Drop(stream, |lines|), depth)
    ensures ReadsTree(ArrayOrKeyed(stream, HeaderFor(place, |pairs|, true, delimiter, Form(nodes, [])), depth, at, strict), true,
                      Dict(ProjectEach(nodes, pairs)), Drop(stream, |lines|))
  {
    var header := HeaderFor(place, |pairs|, true, delimiter, Form(nodes, []));
    KeyedReads(nodes, pairs, lines, stream, header, depth, 0, {}, strict);
    hide KeyedLines, Shows, Drop, Closes, KeyedRows, WellNamed, ProperPair, NodesOf;
    var rows := KeyedRows(stream, header, depth, strict, 0, {}).value;
    ProjectedNames(nodes, pairs);
    ObjectOfFields(rows.value, Table(LeafSum(header.fields)), at, ProjectEach(nodes, pairs));
  }

  // ----- nested objects ------------------------------------------------------------------------------------

  lemma {:induction false} NestedEntryReads(
      key: bytes, pairs: seq<Pair>, depth: nat, delimiter: byte, block: Block, content: bytes, at: Position, stream: LineStream, seen: set<bytes>, strict: bool)
    requires ProperPair(Pair(key, Dict(pairs))) && IsDelimiter(delimiter) && key !in seen
    requires !KeyedShape(pairs, depth).Shaped? && ObjectBlock(key, pairs, depth, delimiter) == Some(block)
    requires content == TrimRight(block.head) && Shows(stream, block.tail) && Closes(Drop(stream, |block.tail|), depth)
    ensures ReadsField(Entry(content, at, stream, depth, strict, seen), EntryReturns(Dict(pairs), delimiter, strict), Pair(key, Norm(Dict(pairs), false)), Drop(stream, |block.tail|))
    ensures EntryLine(content, strict)
    decreases pairs, 4
  {
    var lines := EntriesLines(pairs, depth + 1, delimiter).value;
    assert block == Block(KeyText(key) + [COLON], lines);
    PlainReturnsWhen(pairs, depth, delimiter, strict);
    ProperDict(pairs);
    hide ObjectBlock, KeyedShape, Proper, ProperPair, Norm, EntryReturns, Shows, Drop, Closes, Entry, ReadsField, ReadsTree, EntryLine, EntriesLines, KeyText, NestedObject, NormPairs, PairsReturn;
    TrimRightKeeps(block.head);
    NothingBehind([COLON]);
    ColonEntryReads(key, [], content, at, stream, depth, seen, strict);
    ColonLineIsEntry(key, [], content, strict);
    NestedReads(pairs, depth, delimiter, lines, stream, at, strict);
    FieldOfTree(NestedObject(stream, depth, at, strict), PairsReturn(pairs, delimiter, strict), Dict(NormPairs(pairs)), Drop(stream, |lines|), key, at);
  }

  lemma {:induction false} PlainReturnsWhen(pairs: seq<Pair>, depth: nat, delimiter: byte, strict: bool)
    requires KeyedShape(pairs, depth).NoShape?
    ensures EntryReturns(Dict(pairs), delimiter, strict) <==> PairsReturn(pairs, delimiter, strict)
    ensures Norm(Dict(pairs), false) == Dict(NormPairs(pairs))
  {
    SameKeyedShape(pairs, depth);
    hide KeyedShape, ProjectEach, Braces, PairsReturn, NormPairs;
  }

  lemma {:induction false} NormNames(pairs: seq<Pair>)
    requires DistinctKeys(pairs)
    ensures DistinctKeys(NormPairs(pairs))
  {
    NormKeys(pairs);
  }

  lemma {:induction false} NormKeys(pairs: seq<Pair>)
    ensures forall i :: 0 <= i < |pairs| ==> NormPairs(pairs)[i].key == pairs[i].key
  {
    hide NormPair;
    if pairs != [] {
      NormKeys(pairs[1..]);
      assert forall i :: 0 < i < |pairs| ==> NormPairs(pairs)[i] == NormPairs(pairs[1..])[i - 1];
    }
  }

  lemma {:induction false} NestedReads(pairs: seq<Pair>, depth: nat, delimiter: byte, lines: seq<OutLine>, stream: LineStream, at: Position, strict: bool)
    requires ProperPairs(pairs) && IsDelimiter(delimiter) && EntriesLines(pairs, depth + 1, delimiter) == Some(lines)
    requires Shows(stream, lines) && Closes(Drop(stream, |lines|), depth)
    ensures ReadsTree(NestedObject(stream, depth, at, strict), PairsReturn(pairs, delimiter, strict), Dict(NormPairs(pairs)), Drop(stream, |lines|))
    decreases pairs, 1
  {
    EntriesStart(pairs, depth + 1, delimiter, lines);
    if pairs == [] {
      EmptyNested(stream, depth, at, strict);
      assert NormPairs([]) == [] && PairsReturn([], delimiter, strict);
      assert lines == [] && Drop(stream, 0) == stream;
      assert Denote(Obj(Plain, [], at)) == Dict([]);
    } else {
      BodyReads(pairs, depth + 1, delimiter, lines, stream, {}, strict);
      NormNames(pairs);
      hide EntriesLines, PairsReturn, NormPairs, ObjectBody, ProperPair, Denote, DenotePairs;
      var body := ObjectBody(stream, depth + 1, strict, {});
      if body.Ok? { ObjectOfFields(body.value.value, Plain, at, NormPairs(pairs)); }
    }
  }
}
