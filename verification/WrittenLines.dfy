/** Every line the encoder writes is one the scanner delivers (src/encode.rs, src/scan.rs). */
module WrittenLines {
  import opened Bytes
  import opened Utf8
  import opened Cells
  import opened Header
  import opened Values
  import opened Shapes
  import opened Quoting
  import opened QuoteDecision
  import opened Render
  import opened Layout
  import opened ReadScalars
  import opened ReadGroups
  import opened ReadRows
  import opened Faithful
  import opened ReadLeaves
  import opened ReadBack

  /** Printable UTF-8. */
  predicate Clear(s: bytes) {
    Printable(s) && ValidUtf8(s)
  }

  lemma {:induction false} ClearConcat(a: bytes, b: bytes)
    requires Clear(a) && Clear(b)
    ensures Clear(a + b)
  {
    ValidUtf8Concat(a, b);
  }

  lemma {:induction false} ClearAscii(s: bytes)
    requires forall i :: 0 <= i < |s| ==> (0x20 <= s[i] < 0x80 || s[i] == TAB)
    ensures Clear(s)
  {
    ValidUtf8Ascii(s);
  }

  lemma {:induction false} ClearKey(key: bytes)
    requires ValidUtf8(key)
    ensures Clear(KeyText(key))
  {
    hide ValidUtf8, KeyText;
    KeyIsWritable(key);
  }

  // ----- headers -----------------------------------------------------------------------------

  lemma {:induction false} ClearBracket(count: nat, keyed: bool, delimiter: byte)
    requires IsDelimiter(delimiter)
    ensures Clear(BracketText(count, keyed, delimiter))
  {
    var digits := DecimalText(count);
    ClearAscii(digits);
    ClearAscii((if keyed then [COLON] else []));
    ClearAscii((if delimiter == COMMA then [] else [delimiter]));
    hide Clear;
    ClearConcat(digits, if keyed then [COLON] else []);
    ClearConcat(digits + (if keyed then [COLON] else []), if delimiter == COMMA then [] else [delimiter]);
  }

  lemma {:induction false} ClearGroup(nodes: seq<ShapeNode>, delimiter: byte)
    requires Utf8Named(nodes) && IsDelimiter(delimiter)
    ensures Clear(GroupText(nodes, delimiter))
    decreases nodes, 0
  {
    ClearAscii([delimiter]);
    ClearAscii([]);
    hide Clear, NodeText, ValidUtf8;
    if nodes != [] {
      ClearNode(nodes[0], delimiter);
      if |nodes| > 1 {
        ClearGroup(nodes[1..], delimiter);
        ClearConcat([delimiter], GroupText(nodes[1..], delimiter));
        ClearConcat(NodeText(nodes[0], delimiter), [delimiter] + GroupText(nodes[1..], delimiter));
      }
    }
  }

  lemma {:induction false} ClearNode(node: ShapeNode, delimiter: byte)
    requires ValidUtf8(node.wire) && Utf8Named(node.children) && IsDelimiter(delimiter)
    ensures Clear(NodeText(node, delimiter))
    decreases node
  {
    hide Clear, ValidUtf8, KeyText, BracedGroup;
    ClearKey(node.wire);
    ClearBraced(node.children, delimiter);
    ClearConcat(KeyText(node.wire), BracedGroup(node.children, delimiter));
  }

  lemma {:induction false} ClearBraced(nodes: seq<ShapeNode>, delimiter: byte)
    requires Utf8Named(nodes) && IsDelimiter(delimiter)
    ensures Clear(BracedGroup(nodes, delimiter))
    decreases nodes, 1
  {
    ClearAscii([LBRACE]);
    ClearAscii([RBRACE]);
    ClearAscii([]);
    hide Clear, GroupText;
    if nodes != [] {
      ClearGroup(nodes, delimiter);
      ClearConcat(GroupText(nodes, delimiter), [RBRACE]);
      ClearConcat([LBRACE], GroupText(nodes, delimiter) + [RBRACE]);
    }
  }

  predicate Utf8Place(place: Place) {
    place.Named? ==> ValidUtf8(place.key)
  }

  lemma {:induction false} ClearKeyPart(place: Place)
    requires Utf8Place(place)
    ensures Clear(KeyPart(place))
    ensures KeyPart(place) != [] ==> Writable(KeyPart(place))
  {
    if place.Named? {
      hide KeyText, ValidUtf8;
      KeyIsWritable(place.key);
    }
  }

  /** A header can start a line. */
  lemma {:induction false} HeaderIsWritable(place: Place, count: nat, keyed: bool, delimiter: byte, nodes: seq<ShapeNode>)
    requires Utf8Place(place) && Utf8Named(nodes) && IsDelimiter(delimiter)
    ensures Writable(HeaderText(place, count, keyed, delimiter, nodes))
  {
    var key, bracket, group := KeyPart(place), BracketText(count, keyed, delimiter), BracedGroup(nodes, delimiter);
    ClearKeyPart(place);
    ClearBracket(count, keyed, delimiter);
    ClearBraced(nodes, delimiter);
    ClearAscii([LBRACKET]);
    ClearAscii([RBRACKET]);
    ClearAscii([COLON]);
    hide Clear, KeyPart, BracketText, BracedGroup, ValidUtf8, Printable;
    ClearConcat(group, [COLON]);
    ClearConcat([RBRACKET], group + [COLON]);
    ClearConcat(bracket, [RBRACKET] + (group + [COLON]));
    ClearConcat([LBRACKET], bracket + ([RBRACKET] + (group + [COLON])));
    var rest := [LBRACKET] + (bracket + ([RBRACKET] + (group + [COLON])));
    ClearConcat(key, rest);
    KeyThenRest(key, rest);
  }

  lemma {:induction false} KeyThenRest(key: bytes, rest: bytes)
    requires Clear(key + rest) && rest != [] && rest[0] == LBRACKET && (key != [] ==> Writable(key))
    ensures Writable(key + rest)
  {
  }

  lemma {:induction false} WritableThen(a: bytes, b: bytes)
    requires Writable(a) && Clear(b)
    ensures Writable(a + b)
  {
    WritableConcat(a, b);
  }

  lemma {:induction false} HeadIsWritable(place: Place, count: nat, keyed: bool, delimiter: byte, form: Form)
    requires Utf8Place(place) && Utf8Named(form.nodes) && IsDelimiter(delimiter)
    requires form.suffix != [] ==> form.suffix[0] == SPACE && Solid(form.suffix[1..])
    ensures Writable(HeadOf(place, count, keyed, delimiter, form))
  {
    HeaderIsWritable(place, count, keyed, delimiter, form.nodes);
    var text := HeaderText(place, count, keyed, delimiter, form.nodes);
    ClearAscii([]);
    if form.suffix != [] {
      ClearAscii([SPACE]);
      ClearConcat([SPACE], form.suffix[1..]);
      assert [SPACE] + form.suffix[1..] == form.suffix;
    }
    hide HeaderText, Writable, Clear, Solid;
    WritableThen(text, form.suffix);
  }

  lemma {:induction false} DashThen(head: bytes)
    requires Writable(head)
    ensures Writable(DASH + head)
  {
    ClearAscii(DASH);
    ClearConcat(DASH, head);
  }

  // ----- blocks ------------------------------------------------------------------------------------

  predicate BlockWritable(block: Block) {
    Writable(block.head) && AllWritable(block.tail)
  }

  lemma {:induction false} WritableLines(a: seq<OutLine>, b: seq<OutLine>)
    requires AllWritable(a) && AllWritable(b)
    ensures AllWritable(a + b)
  {
    hide Writable;
    forall i | 0 <= i < |a + b| ensures Writable((a + b)[i].content) {
      if i < |a| { assert (a + b)[i] == a[i]; } else { assert (a + b)[i] == b[i - |a|]; }
    }
  }

  lemma {:induction false} StandingIsWritable(block: Block, depth: nat)
    requires BlockWritable(block)
    ensures AllWritable(Standing(block, depth))
  {
    hide Writable;
    WritableLines([OutLine(depth, block.head)], block.tail);
  }

  lemma {:induction false} TableIsWritable(nodes: seq<ShapeNode>, rows: seq<Value>, depth: nat, delimiter: byte, lines: seq<OutLine>)
    requires AllProper(rows) && IsDelimiter(delimiter) && TableLines(nodes, rows, depth, delimiter) == Some(lines)
    ensures AllWritable(lines)
  {
    hide Writable, RowText, Proper;
    if rows != [] {
      assert Proper(rows[0]);
      RowLineIsWritable(nodes, rows[0], delimiter, lines[0].content);
      TableIsWritable(nodes, rows[1..], depth, delimiter, lines[1..]);
      WritableLines([lines[0]], lines[1..]);
      assert lines == [lines[0]] + lines[1..];
    }
  }

  lemma {:induction false} RowLineIsWritable(nodes: seq<ShapeNode>, row: Value, delimiter: byte, text: bytes)
    requires Proper(row) && IsDelimiter(delimiter) && RowText(nodes, row, delimiter) == Some(text)
    ensures Writable(text)
  {
    hide Writable, RowText, Proper;
    RowIsSolid(nodes, row, delimiter, text);
  }

  lemma {:induction false} KeyedIsWritable(nodes: seq<ShapeNode>, pairs: seq<Pair>, depth: nat, delimiter: byte, lines: seq<OutLine>)
    requires ProperPairs(pairs) && IsDelimiter(delimiter) && KeyedLines(nodes, pairs, depth, delimiter) == Some(lines)
    ensures AllWritable(lines)
  {
    if pairs != [] {
      hide Writable, RowText, Proper, KeyedLine, ValidUtf8;
      ProperStep(pairs);
      var row := RowText(nodes, pairs[0].value, delimiter).value;
      RowIsSolid(nodes, pairs[0].value, delimiter, row);
      KeyedLineIsSolid(pairs[0], row, depth);
      KeyedIsWritable(nodes, pairs[1..], depth, delimiter, lines[1..]);
      assert lines[0] == KeyedLine(pairs[0].key, row, depth);
      WritableLines([lines[0]], lines[1..]);
      assert lines == [lines[0]] + lines[1..];
    }
  }

  lemma {:induction false} PairIsWritable(pair: Pair, depth: nat, delimiter: byte, block: Block)
    requires ProperPair(pair) && IsDelimiter(delimiter) && PairBlock(pair, depth, delimiter) == Some(block)
    ensures BlockWritable(block)
    decreases pair, 4
  {
    hide Writable, KeyText, ValidUtf8;
    match pair.value
    case Seq(items) => ArrayIsWritable(Named(pair.key), items, depth, 0, delimiter, block);
    case Dict(pairs) =>
      assert EntryBlock(pair.key, pair.value, depth, delimiter) == ObjectBlock(pair.key, pairs, depth, delimiter);
      if KeyedShape(pairs, depth).Shaped? {
        KeyedBlockIsWritable(Named(pair.key), pairs, depth, delimiter, block);
      } else {
        NestedIsWritable(pair.key, pairs, depth, delimiter, block);
      }
    case _ => ScalarEntryIsWritable(pair.key, pair.value, delimiter);
  }

  lemma {:induction false} ScalarEntryIsWritable(key: bytes, value: Value, delimiter: byte)
    requires ValidUtf8(key) && IsScalar(value) && ScalarFormed(value) && IsDelimiter(delimiter)
    ensures Writable(KeyText(key) + ([COLON, SPACE] + EntryScalarText(value, delimiter)))
  {
    EntryTextIsClear(value, delimiter);
    ClearAscii([COLON, SPACE]);
    hide EntryScalarText, KeyText, Clear, Writable;
    ClearConcat([COLON, SPACE], EntryScalarText(value, delimiter));
    KeyIsWritable(key);
    WritableThen(KeyText(key), [COLON, SPACE] + EntryScalarText(value, delimiter));
  }

  lemma {:induction false} EntryTextIsClear(value: Value, delimiter: byte)
    requires IsScalar(value) && ScalarFormed(value) && IsDelimiter(delimiter)
    ensures Clear(EntryScalarText(value, delimiter))
  {
    if value.Str? && LongEntry(value.text) {
      if HasForcing(value.text, delimiter) {
        QuotedIsWritable(value.text);
      } else {
        assert forall i :: 0 <= i < |value.text| ==> !ForcesQuote(value.text[i], delimiter);
      }
    } else {
      hide ScalarText;
      ScalarIsStandalone(value, delimiter);
    }
  }

  lemma {:induction false} KeyedBlockIsWritable(place: Place, pairs: seq<Pair>, depth: nat, delimiter: byte, block: Block)
    requires Utf8Place(place) && ProperPairs(pairs) && IsDelimiter(delimiter) && KeyedShape(pairs, depth).Shaped?
    requires KeyedBlock(place, pairs, KeyedShape(pairs, depth).nodes, depth, delimiter) == Some(block)
    ensures BlockWritable(block)
  {
    hide KeyedShape, HeadOf, KeyedLines, Writable, ProperPair, ValidUtf8, Utf8Named, Solid;
    var nodes := KeyedShape(pairs, depth).nodes;
    KeyedBlockParts(place, pairs, nodes, depth, delimiter, block);
    KeyedShapeIsNamed(pairs, depth, nodes);
    HeadIsWritable(place, |pairs|, true, delimiter, Form(nodes, []));
    KeyedIsWritable(nodes, pairs, depth + 1, delimiter, block.tail);
  }

  lemma {:induction false} NestedIsWritable(key: bytes, pairs: seq<Pair>, depth: nat, delimiter: byte, block: Block)
    requires ValidUtf8(key) && ProperPairs(pairs) && IsDelimiter(delimiter)
    requires !KeyedShape(pairs, depth).Shaped? && ObjectBlock(key, pairs, depth, delimiter) == Some(block)
    ensures BlockWritable(block)
    decreases pairs, 1
  {
    ClearAscii([COLON]);
    hide KeyedShape, KeyText, EntriesLines, Writable, ProperPair, ValidUtf8, Clear;
    var lines := EntriesLines(pairs, depth + 1, delimiter).value;
    assert block == Block(KeyText(key) + [COLON], lines);
    KeyIsWritable(key);
    WritableThen(KeyText(key), [COLON]);
    EntriesAreWritable(pairs, depth + 1, delimiter, lines);
  }

  lemma {:induction false} EntriesAreWritable(pairs: seq<Pair>, depth: nat, delimiter: byte, lines: seq<OutLine>)
    requires ProperPairs(pairs) && IsDelimiter(delimiter) && EntriesLines(pairs, depth, delimiter) == Some(lines)
    ensures AllWritable(lines)
    decreases pairs, 0
  {
    if pairs != [] {
      var first, others := PairBlock(pairs[0], depth, delimiter).value, EntriesLines(pairs[1..], depth, delimiter).value;
      assert lines == Standing(first, depth) + others;
      hide PairBlock, EntriesLines, Writable, ProperPair, AllWritable, BlockWritable;
      ProperStep(pairs);
      PairIsWritable(pairs[0], depth, delimiter, first);
      EntriesAreWritable(pairs[1..], depth, delimiter, others);
      StandingIsWritable(first, depth);
      WritableLines(Standing(first, depth), others);
    }
  }

  lemma {:induction false} ArrayIsWritable(place: Place, items: seq<Value>, depth: nat, nesting: nat, delimiter: byte, block: Block)
    requires Utf8Place(place) && AllProper(items) && IsDelimiter(delimiter)
    requires ArrayBlock(place, items, depth, nesting, delimiter) == Some(block)
    ensures BlockWritable(block)
    decreases items, 1
  {
    if items == [] && !place.InList? {
      EmptyIsWritable(place, delimiter);
    } else {
      ArrayHead(place, items, depth, nesting, delimiter, block);
      ArrayFormIsWritten(place, items, nesting, delimiter);
      hide HeadOf, HeaderText, Writable, Proper, BuildShape, TableLines, ItemsLines, CellTexts, Join, Utf8Named, WellNamed, Solid, ValidUtf8;
      HeadIsWritable(place, |items|, false, delimiter, ArrayForm(place, items, nesting, delimiter));
      if items != [] && ArrayShape(place, items, nesting).Shaped? {
        TableIsWritable(ArrayShape(place, items, nesting).nodes, items, depth + 1, delimiter, block.tail);
      } else if items != [] && !AllScalars(items) {
        ItemsAreWritable(items, depth + 1, nesting + 1, delimiter, block.tail);
      }
    }
  }

  lemma {:induction false} EmptyIsWritable(place: Place, delimiter: byte)
    requires Utf8Place(place) && !place.InList?
    ensures BlockWritable(EmptyBlock(place, delimiter))
  {
    ClearAscii([COLON, SPACE] + EMPTY_ARRAY);
    if place.Named? {
      hide KeyText, Clear, Writable;
      KeyIsWritable(place.key);
      WritableThen(KeyText(place.key), [COLON, SPACE] + EMPTY_ARRAY);
    } else {
      ClearAscii(EMPTY_ARRAY);
    }
  }

  lemma {:induction false} ItemsAreWritable(items: seq<Value>, depth: nat, nesting: nat, delimiter: byte, lines: seq<OutLine>)
    requires AllProper(items) && IsDelimiter(delimiter) && ItemsLines(items, depth, nesting, delimiter) == Some(lines)
    ensures AllWritable(lines)
    decreases items, 0
  {
    if items != [] {
      var first, others := ItemBlock(items[0], depth, nesting, delimiter).value, ItemsLines(items[1..], depth, nesting, delimiter).value;
      assert lines == Standing(first, depth) + others;
      assert Proper(items[0]);
      hide ItemBlock, ItemsLines, Writable, Proper, AllWritable, BlockWritable;
      ItemIsWritable(items[0], depth, nesting, delimiter, first);
      ItemsAreWritable(items[1..], depth, nesting, delimiter, others);
      StandingIsWritable(first, depth);
      WritableLines(Standing(first, depth), others);
    }
  }

  lemma {:induction false} ItemIsWritable(item: Value, depth: nat, nesting: nat, delimiter: byte, block: Block)
    requires Proper(item) && IsDelimiter(delimiter) && ItemBlock(item, depth, nesting, delimiter) == Some(block)
    ensures BlockWritable(block)
    decreases item, 3
  {
    match item
    case Seq(items) =>
      hide Writable;
      ArrayIsWritable(InList, items, depth, nesting + 1, delimiter, ArrayBlock(InList, items, depth, nesting + 1, delimiter).value);
      DashThen(ArrayBlock(InList, items, depth, nesting + 1, delimiter).value.head);
    case Dict(pairs) =>
      if pairs == [] {
        ClearAscii([MINUS]);
      } else {
        ObjectItemIsWritable(pairs, depth, nesting, delimiter, block);
      }
    case _ =>
      hide ScalarText, CellText;
      ScalarIsStandalone(item, delimiter);
      DashThen(ScalarText(item, delimiter));
  }

  lemma {:induction false} ObjectItemIsWritable(pairs: seq<Pair>, depth: nat, nesting: nat, delimiter: byte, block: Block)
    requires ProperPairs(pairs) && pairs != [] && IsDelimiter(delimiter) && ItemBlock(Dict(pairs), depth, nesting, delimiter) == Some(block)
    ensures BlockWritable(block)
    decreases pairs, 5
  {
    var first, others := PairBlock(pairs[0], depth + 1, delimiter).value, EntriesLines(pairs[1..], depth + 1, delimiter).value;
    assert block == Block(DASH + first.head, first.tail + others);
    hide PairBlock, EntriesLines, ItemBlock, Writable, ProperPair, AllWritable;
    ProperStep(pairs);
    PairIsWritable(pairs[0], depth + 1, delimiter, first);
    EntriesAreWritable(pairs[1..], depth + 1, delimiter, others);
    DashThen(first.head);
    WritableLines(first.tail, others);
  }
}
