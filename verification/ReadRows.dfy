/** Written table rows read back as the columns of their shape (src/parser.rs, src/encode.rs). */
module ReadRows {
  import opened Bytes
  import opened Tokens
  import opened Faults
  import opened Utf8
  import opened Cells
  import opened Escapes
  import opened Header
  import opened Scan
  import opened Events
  import opened Grammar
  import opened Values
  import opened Shapes
  import opened Quoting
  import opened QuoteDecision
  import opened Render
  import opened Layout
  import opened ReadScalars
  import opened ReadGroups

  // ----- values as Python gives them -----------------------------------------------------

  /** Distinct UTF-8 keys, UTF-8 strings, number spellings for floats, and lengths a machine word holds. */
  predicate Proper(value: Value)
    decreases value
  {
    match value
    case Seq(items) => |items| < USIZE_LIMIT && forall i :: 0 <= i < |items| ==> Proper(items[i])
    case Dict(pairs) => |pairs| < USIZE_LIMIT && DistinctKeys(pairs) && forall i :: 0 <= i < |pairs| ==> ProperPair(pairs[i])
    case _ => ScalarFormed(value)
  }

  predicate ProperPair(pair: Pair)
    decreases pair
  {
    ValidUtf8(pair.key) && Proper(pair.value)
  }

  predicate ProperPairs(pairs: seq<Pair>) {
    DistinctKeys(pairs) && forall i :: 0 <= i < |pairs| ==> ProperPair(pairs[i])
  }

  predicate AllProper(values: seq<Value>) {
    forall i :: 0 <= i < |values| ==> Proper(values[i])
  }

  lemma {:induction false} ProperDict(pairs: seq<Pair>)
    requires Proper(Dict(pairs))
    ensures ProperPairs(pairs) && |pairs| < USIZE_LIMIT
  {
  }

  lemma {:induction false} ProperSeq(items: seq<Value>)
    requires Proper(Seq(items))
    ensures AllProper(items) && |items| < USIZE_LIMIT
  {
  }

  lemma {:induction false} ProperItem(row: Value, key: bytes)
    requires Proper(row) && GetItem(row, key).Some?
    ensures Proper(GetItem(row, key).value) && ValidUtf8(key)
  {
    var i :| 0 <= i < |row.pairs| && row.pairs[i] == Pair(key, GetItem(row, key).value);
    assert ProperPair(row.pairs[i]);
  }

  // ----- what a row denotes --------------------------------------------------------------

  /** A row as its shape orders it, every column at its place. */
  function ProjectPairs(nodes: seq<ShapeNode>, row: Value): (r: seq<Pair>)
    ensures |r| == |nodes|
    decreases nodes
  {
    if nodes == [] then [] else [ProjectNode(nodes[0], row)] + ProjectPairs(nodes[1..], row)
  }

  function ProjectNode(node: ShapeNode, row: Value): Pair
    decreases node
  {
    match GetItem(row, node.wire)
    case None => Pair(node.wire, Null)
    case Some(item) => Pair(node.wire, if node.children == [] then NormScalar(item) else Dict(ProjectPairs(node.children, item)))
  }

  function DenotePairs(fields: seq<Field>): (r: seq<Pair>)
    ensures |r| == |fields|
  {
    if fields == [] then [] else [Pair(TextOf(fields[0].key), Denote(fields[0].value))] + DenotePairs(fields[1..])
  }

  /** With distinct keys no field replaces another. */
  lemma {:induction false} DistinctFieldsDenote(fields: seq<Field>, before: seq<Pair>)
    requires DistinctKeys(before + DenotePairs(fields))
    ensures DenoteFields(fields, before) == before + DenotePairs(fields)
  {
    if fields == [] {
      assert before + [] == before;
    } else {
      var first, rest := Pair(TextOf(fields[0].key), Denote(fields[0].value)), DenotePairs(fields[1..]);
      var all := before + DenotePairs(fields);
      assert all == (before + [first]) + rest;
      assert all[|before|] == first;
      assert !HasKey(before, first.key) by {
        forall i | 0 <= i < |before| ensures before[i].key != first.key { assert all[i] == before[i]; }
      }
      SetNewItem(before, first.key, first.value);
      DistinctFieldsDenote(fields[1..], before + [first]);
    }
  }

  lemma {:induction false} ObjectDenotes(fields: seq<Field>)
    requires DistinctKeys(DenotePairs(fields))
    ensures DenoteFields(fields, []) == DenotePairs(fields)
  {
    assert [] + DenotePairs(fields) == DenotePairs(fields);
    DistinctFieldsDenote(fields, []);
  }

  lemma {:induction false} ProjectedKeys(nodes: seq<ShapeNode>, row: Value)
    ensures |ProjectPairs(nodes, row)| == |nodes|
    ensures forall key :: HasKey(ProjectPairs(nodes, row), key) <==> NamesWire(nodes, key)
    ensures WellNamed(nodes) ==> DistinctKeys(ProjectPairs(nodes, row))
    decreases |nodes|
  {
    if nodes != [] {
      var pairs, rest := ProjectPairs(nodes, row), ProjectPairs(nodes[1..], row);
      ProjectedKeys(nodes[1..], row);
      assert pairs[0].key == nodes[0].wire && pairs[1..] == rest;
      forall key ensures HasKey(pairs, key) <==> NamesWire(nodes, key) { HasKeyCons(pairs, key); }
      if WellNamed(nodes) { DistinctCons(pairs); }
    }
  }

  lemma {:induction false} DistinctCons(pairs: seq<Pair>)
    requires pairs != [] && DistinctKeys(pairs[1..]) && !HasKey(pairs[1..], pairs[0].key)
    ensures DistinctKeys(pairs)
  {
    assert forall i :: 0 < i < |pairs| ==> pairs[i] == pairs[1..][i - 1];
  }

  // ----- cells to fields --------------------------------------------------------------------

  /** The first cells of `texts` are those of `cells`. */
  predicate StartsWithCells(texts: seq<bytes>, cells: seq<Value>, delimiter: byte) {
    |texts| >= |cells| && forall i :: 0 <= i < |cells| ==> IsScalar(cells[i]) && texts[i] == ScalarText(cells[i], delimiter)
  }

  predicate FieldsProject(r: Result<seq<Field>>, nodes: seq<ShapeNode>, row: Value) {
    r.Ok? && DenotePairs(r.value) == ProjectPairs(nodes, row)
  }

  /** The fields of a row are the columns of its shape. */
  lemma {:induction false} RowFieldsRead(nodes: seq<ShapeNode>, row: Value, cells: seq<Value>, texts: seq<bytes>, delimiter: byte, at: Position)
    requires WellNamed(nodes) && Proper(row) && RowCells(nodes, row) == Some(cells)
    requires StartsWithCells(texts, cells, delimiter)
    ensures LeafSum(NodesOf(nodes)) == |cells|
    ensures FieldsProject(RowFields(NodesOf(nodes), texts, at), nodes, row)
    decreases nodes
  {
    if nodes != [] {
      var first, others := NodeCells(nodes[0], row).value, RowCells(nodes[1..], row).value;
      assert cells == first + others;
      CellsSplit(texts, first, others, delimiter);
      RowFieldReads(nodes[0], row, first, texts, delimiter, at);
      RowFieldsRead(nodes[1..], row, others, texts[|first|..], delimiter, at);
      assert NodesOf(nodes)[0] == NodeOf(nodes[0]) && NodesOf(nodes)[1..] == NodesOf(nodes[1..]);
    }
  }

  lemma {:induction false} CellsSplit(texts: seq<bytes>, a: seq<Value>, b: seq<Value>, delimiter: byte)
    requires StartsWithCells(texts, a + b, delimiter)
    ensures StartsWithCells(texts, a, delimiter) && StartsWithCells(texts[|a|..], b, delimiter)
  {
    forall i | 0 <= i < |a| ensures IsScalar(a[i]) && texts[i] == ScalarText(a[i], delimiter) { assert (a + b)[i] == a[i]; }
    forall i | 0 <= i < |b| ensures IsScalar(b[i]) && texts[|a|..][i] == ScalarText(b[i], delimiter) {
      assert (a + b)[|a| + i] == b[i];
    }
  }

  predicate FieldProjects(r: Result<Field>, node: ShapeNode, row: Value) {
    r.Ok? && Pair(TextOf(r.value.key), Denote(r.value.value)) == ProjectNode(node, row)
  }

  lemma {:induction false} RowFieldReads(node: ShapeNode, row: Value, cells: seq<Value>, texts: seq<bytes>, delimiter: byte, at: Position)
    requires WellNamed(node.children) && Proper(row) && NodeCells(node, row) == Some(cells)
    requires StartsWithCells(texts, cells, delimiter)
    ensures LeafCount(NodeOf(node)) == |cells|
    ensures FieldProjects(RowField(NodeOf(node), texts, at), node, row)
    decreases node
  {
    var item := GetItem(row, node.wire).value;
    ProperItem(row, node.wire);
    KeyTokenText(node.wire);
    if node.children == [] {
      assert cells == [item] && cells[0] == item;
      assert IsScalar(cells[0]);
      ScalarReads(item, delimiter);
      assert ReadsAt(texts[0], NormScalar(item), at);
    } else {
      RowFieldsRead(node.children, item, cells, texts, delimiter, at);
      ProjectedKeys(node.children, item);
      ObjectDenotes(RowFields(NodesOf(node.children), texts, at).value);
    }
  }

  // ----- rows ------------------------------------------------------------------------------------

  lemma {:induction false} CellsAreStandalone(cells: seq<Value>, delimiter: byte)
    requires AllScalars(cells) && IsDelimiter(delimiter) && forall i :: 0 <= i < |cells| ==> ScalarFormed(cells[i])
    ensures forall i :: 0 <= i < |cells| ==> Standalone(CellTexts(cells, delimiter)[i], delimiter)
  {
    forall i | 0 <= i < |cells| ensures Standalone(CellTexts(cells, delimiter)[i], delimiter) {
      ScalarIsStandalone(cells[i], delimiter);
    }
  }

  lemma {:induction false} RowCellsAreFormed(nodes: seq<ShapeNode>, row: Value)
    requires Proper(row) && RowCells(nodes, row).Some? && AllScalars(RowCells(nodes, row).value)
    ensures forall i :: 0 <= i < |RowCells(nodes, row).value| ==> ScalarFormed(RowCells(nodes, row).value[i])
    decreases nodes
  {
    if nodes != [] {
      var first, others := NodeCells(nodes[0], row).value, RowCells(nodes[1..], row).value;
      var cells, item := RowCells(nodes, row).value, GetItem(row, nodes[0].wire).value;
      ProperItem(row, nodes[0].wire);
      forall i | 0 <= i < |first| ensures IsScalar(first[i]) { assert cells[i] == first[i]; }
      forall i | 0 <= i < |others| ensures IsScalar(others[i]) { assert cells[|first| + i] == others[i]; }
      if nodes[0].children != [] { RowCellsAreFormed(nodes[0].children, item); }
      RowCellsAreFormed(nodes[1..], row);
    }
  }

  lemma {:induction false} StandaloneCells(texts: seq<bytes>, delimiter: byte)
    requires texts != [] && IsDelimiter(delimiter) && forall i :: 0 <= i < |texts| ==> Standalone(texts[i], delimiter)
    ensures SplitCells(Join(texts, delimiter), delimiter) == texts
  {
    SplitOfJoin(texts, delimiter);
  }

  /** A written row reads as the row its shape projects. */
  lemma {:induction false} RowReads(nodes: seq<ShapeNode>, row: Value, header: Header, delimiter: byte, text: bytes, at: Position)
    requires WellNamed(nodes) && Proper(row) && IsDelimiter(delimiter)
    requires header.fields == NodesOf(nodes) && header.delimiter == delimiter
    requires RowText(nodes, row, delimiter) == Some(text)
    ensures RowDenotes(RowObject(header, text, at), nodes, row)
  {
    var cells := RowCells(nodes, row).value;
    var texts := CellTexts(cells, delimiter);
    RowCellsAreFormed(nodes, row);
    CellsAreStandalone(cells, delimiter);
    StandaloneCells(texts, delimiter);
    RowFieldsRead(nodes, row, cells, texts, delimiter, at);
    ProjectedKeys(nodes, row);
    ObjectDenotes(RowFields(NodesOf(nodes), texts, at).value);
  }

  predicate RowDenotes(r: Result<Tree>, nodes: seq<ShapeNode>, row: Value) {
    r.Ok? && Denote(r.value) == Dict(ProjectPairs(nodes, row))
  }

  // ----- rows as lines ---------------------------------------------------------------------------

  /** Content that the scanner delivers unchanged. */
  predicate Solid(content: bytes) {
    Writable(content) && content[|content| - 1] != SPACE
  }

  lemma {:induction false} SolidIsKept(content: bytes)
    requires Solid(content)
    ensures TrimRight(content) == content
  {
  }

  lemma {:induction false} WritableConcat(a: bytes, b: bytes)
    requires Writable(a) && Printable(b) && ValidUtf8(b)
    ensures Writable(a + b)
  {
    ValidUtf8Concat(a, b);
  }

  lemma {:induction false} JoinIsSolid(texts: seq<bytes>, delimiter: byte)
    requires texts != [] && IsDelimiter(delimiter) && forall i :: 0 <= i < |texts| ==> Standalone(texts[i], delimiter)
    ensures Solid(Join(texts, delimiter))
  {
    if |texts| > 1 {
      var rest := Join(texts[1..], delimiter);
      JoinIsSolid(texts[1..], delimiter);
      ValidUtf8Ascii([delimiter]);
      WritableConcat(texts[0], [delimiter]);
      WritableConcat(texts[0] + [delimiter], rest);
    }
  }

  /** The text of a row is one line's content, trimmed at both ends. */
  lemma {:induction false} RowIsSolid(nodes: seq<ShapeNode>, row: Value, delimiter: byte, text: bytes)
    requires Proper(row) && IsDelimiter(delimiter) && RowText(nodes, row, delimiter) == Some(text)
    ensures Solid(text)
  {
    var cells := RowCells(nodes, row).value;
    RowCellsAreFormed(nodes, row);
    CellsAreStandalone(cells, delimiter);
    JoinIsSolid(CellTexts(cells, delimiter), delimiter);
  }

  // ----- tables ------------------------------------------------------------------------------------

  /** The lines behind a construct at `depth` lie no deeper than it. */
  predicate Closes(rest: LineStream, depth: nat) {
    rest.End? || (rest.More? && rest.line.depth <= depth)
  }

  function ProjectRows(nodes: seq<ShapeNode>, rows: seq<Value>): (r: seq<Value>)
    ensures |r| == |rows|
  {
    seq(|rows|, i requires 0 <= i < |rows| => Dict(ProjectPairs(nodes, rows[i])))
  }

  predicate RowsDenote(r: Result<Parsed<seq<Tree>>>, values: seq<Value>, rest: LineStream) {
    r.Ok? && r.value.rest == rest && DenoteItems(r.value.value) == values
  }

  lemma {:induction false} NextRowIs(stream: LineStream, line: OutLine, depth: nat, declared: nat, index: nat, strict: bool)
    requires index < declared && line.depth == depth + 1 && stream.More? && IsLine(stream.line, line)
    ensures NextRow(stream, depth, strict, declared, index) == Ok(Some(Parsed(stream.line, stream.rest)))
  {
  }

  lemma {:induction false} NoNextRow(stream: LineStream, depth: nat, declared: nat, strict: bool)
    requires Closes(stream, depth)
    ensures NextRow(stream, depth, strict, declared, declared) == Ok(None)
  {
  }

  /** A written table reads as its rows. */
  lemma {:induction false} TableReads(
      nodes: seq<ShapeNode>, rows: seq<Value>, lines: seq<OutLine>, stream: LineStream, header: Header, depth: nat, index: nat, strict: bool)
    requires WellNamed(nodes) && AllProper(rows) && IsDelimiter(header.delimiter) && header.fields == NodesOf(nodes)
    requires TableLines(nodes, rows, depth + 1, header.delimiter) == Some(lines) && header.declared == index + |rows|
    requires Shows(stream, lines) && Closes(Drop(stream, |lines|), depth)
    ensures RowsDenote(TableRows(stream, header, depth, strict, index), ProjectRows(nodes, rows), Drop(stream, |lines|))
    decreases rows
  {
    if rows == [] {
      NoNextRow(stream, depth, header.declared, strict);
    } else {
      TableLinesCons(nodes, rows, depth + 1, header.delimiter, lines);
      ShowsCons(stream, lines);
      hide WellNamed, NodesOf, TableLines, TableRows, Shows, Drop, Closes, ProjectRows, RowText, IsLine, RowObject, NextRow;
      NextRowIs(stream, lines[0], depth, header.declared, index, strict);
      TableRowReads(nodes, rows[0], lines[0], stream.line, header);
      TableReads(nodes, rows[1..], lines[1..], stream.rest, header, depth, index + 1, strict);
      TableRowsStep(stream, header, depth, index, nodes, rows, Drop(stream, |lines|), strict);
    }
  }

  lemma {:induction false} TableLinesCons(nodes: seq<ShapeNode>, rows: seq<Value>, depth: nat, delimiter: byte, lines: seq<OutLine>)
    requires rows != [] && TableLines(nodes, rows, depth, delimiter) == Some(lines)
    ensures lines != [] && RowText(nodes, rows[0], delimiter) == Some(lines[0].content) && lines[0].depth == depth
    ensures TableLines(nodes, rows[1..], depth, delimiter) == Some(lines[1..])
  {
    hide RowText;
  }

  lemma {:induction false} ShowsCons(stream: LineStream, lines: seq<OutLine>)
    requires lines != [] && Shows(stream, lines)
    ensures stream.More? && IsLine(stream.line, lines[0]) && Shows(stream.rest, lines[1..])
    ensures Drop(stream, |lines|) == Drop(stream.rest, |lines[1..]|)
  {
    hide IsLine;
  }

  lemma {:induction false} TableRowsStep(
      stream: LineStream, header: Header, depth: nat, index: nat, nodes: seq<ShapeNode>, rows: seq<Value>, rest: LineStream, strict: bool)
    requires rows != [] && stream.More? && NextRow(stream, depth, strict, header.declared, index) == Ok(Some(Parsed(stream.line, stream.rest)))
    requires RowDenotes(RowObject(header, stream.line.content, stream.line.at), nodes, rows[0])
    requires RowsDenote(TableRows(stream.rest, header, depth, strict, index + 1), ProjectRows(nodes, rows[1..]), rest)
    ensures RowsDenote(TableRows(stream, header, depth, strict, index), ProjectRows(nodes, rows), rest)
  {
    hide NextRow, RowObject, ProjectPairs, Denote;
    var first := RowObject(header, stream.line.content, stream.line.at).value;
    var others := TableRows(stream.rest, header, depth, strict, index + 1).value;
    assert TableRows(stream, header, depth, strict, index) == Ok(Parsed([first] + others.value, others.rest));
    assert ([first] + others.value)[1..] == others.value;
    assert ProjectRows(nodes, rows) == [Dict(ProjectPairs(nodes, rows[0]))] + ProjectRows(nodes, rows[1..]);
  }

  lemma {:induction false} TableRowReads(nodes: seq<ShapeNode>, row: Value, out: OutLine, line: Line, header: Header)
    requires WellNamed(nodes) && Proper(row) && IsDelimiter(header.delimiter) && header.fields == NodesOf(nodes)
    requires RowText(nodes, row, header.delimiter) == Some(out.content) && IsLine(line, out)
    ensures RowDenotes(RowObject(header, line.content, line.at), nodes, row)
  {
    RowIsSolid(nodes, row, header.delimiter, out.content);
    SolidIsKept(out.content);
    RowReads(nodes, row, header, header.delimiter, line.content, line.at);
  }

  // ----- keyed tables --------------------------------------------------------------------------------

  /** A key, its colon, and text free of colons: the first colon separates them. */
  lemma {:induction false} EntryColonIs(key: bytes, value: bytes, content: bytes)
    requires content == KeyText(key) + ([COLON] + value) && (value == [] || value[0] == SPACE)
    ensures EntryColon(content) == Some(|KeyText(key)|)
    ensures content[..|KeyText(key)|] == KeyText(key) && content[|KeyText(key)| + 1..] == value
  {
    KeyIsHushed(key);
    HushedFind(KeyText(key), Outside, COLON);
    FindConcat(KeyText(key), [COLON] + value, COLON, Outside);
    assert content[0..] == content;
  }

  function ProjectEach(nodes: seq<ShapeNode>, pairs: seq<Pair>): (r: seq<Pair>)
    ensures |r| == |pairs|
  {
    seq(|pairs|, i requires 0 <= i < |pairs| => Pair(pairs[i].key, Dict(ProjectPairs(nodes, pairs[i].value))))
  }

  predicate KeyedRowDenotes(r: Result<Option<Field>>, nodes: seq<ShapeNode>, pair: Pair) {
    && r.Ok? && r.value.Some? && TextOf(r.value.value.key) == pair.key
    && Denote(r.value.value.value) == Dict(ProjectPairs(nodes, pair.value))
  }

  lemma {:induction false} TrimSpaced(text: bytes)
    requires Solid(text)
    ensures Trim([SPACE] + text) == text != []
  {
    assert ([SPACE] + text)[1..] == text;
    assert TrimLeft(text) == text && TrimLeft([SPACE] + text) == TrimLeft(text);
    assert TrimRight(text) == text;
  }

  /** A keyed row put together from its parts. */
  lemma {:induction false} KeyedRowOfParts(header: Header, line: Line, seen: set<bytes>, colon: nat, token: StringToken, row: bytes, r: Result<Tree>, strict: bool)
    requires EntryColon(line.content) == Some(colon) && StringTokenOf(Trim(line.content[..colon]), line.at) == Ok(token)
    requires Trim(line.content[colon + 1..]) == row != [] && TextOf(token) !in seen && RowObject(header, row, line.at) == r && r.Ok?
    ensures KeyedRow(header, line, strict, seen) == Ok(Some(Field(token, r.value, line.at)))
  {
    hide EntryColon, StringTokenOf, Trim, RowObject;
  }

  lemma {:induction false} KeyedRowReads(nodes: seq<ShapeNode>, pair: Pair, row: bytes, header: Header, line: Line, depth: nat, seen: set<bytes>, strict: bool)
    requires WellNamed(nodes) && ProperPair(pair) && IsDelimiter(header.delimiter) && header.fields == NodesOf(nodes)
    requires RowText(nodes, pair.value, header.delimiter) == Some(row) && IsLine(line, KeyedLine(pair.key, row, depth))
    requires pair.key !in seen
    ensures KeyedRowDenotes(KeyedRow(header, line, strict, seen), nodes, pair)
  {
    hide EntryColon, StringTokenOf, Trim, RowObject, KeyedRow, KeyText, KeyToken, Solid, RowText, WellNamed, NodesOf, Writable, TrimRight, ProjectPairs;
    var content := KeyedLine(pair.key, row, depth).content;
    KeyedLineParts(pair, row, depth, content, line.at);
    RowIsSolid(nodes, pair.value, header.delimiter, row);
    KeyedLineIsSolid(pair, row, depth);
    SolidIsKept(content);
    KeyTokenText(pair.key);
    TrimSpaced(row);
    RowReads(nodes, pair.value, header, header.delimiter, row, line.at);
    KeyedRowOfParts(header, line, seen, |KeyText(pair.key)|, KeyToken(pair.key), row, RowObject(header, row, line.at), strict);
  }

  lemma {:induction false} KeyedLineParts(pair: Pair, row: bytes, depth: nat, content: bytes, at: Position)
    requires content == KeyedLine(pair.key, row, depth).content
    ensures EntryColon(content) == Some(|KeyText(pair.key)|)
    ensures StringTokenOf(Trim(content[..|KeyText(pair.key)|]), at) == Ok(KeyToken(pair.key))
    ensures content[|KeyText(pair.key)| + 1..] == [SPACE] + row
  {
    assert content == KeyText(pair.key) + ([COLON] + ([SPACE] + row));
    EntryColonIs(pair.key, [SPACE] + row, content);
    KeyIsTrimmed(pair.key);
    TrimOfTrimmed(KeyText(pair.key));
    KeyReads(pair.key, at);
  }

  lemma {:induction false} KeyedLineIsSolid(pair: Pair, row: bytes, depth: nat)
    requires ValidUtf8(pair.key) && Solid(row)
    ensures Solid(KeyedLine(pair.key, row, depth).content)
  {
    var key := KeyText(pair.key);
    KeyIsWritable(pair.key);
    ValidUtf8Ascii([COLON, SPACE]);
    hide KeyText, ValidUtf8;
    ValidUtf8Concat([COLON, SPACE], row);
    WritableConcat(key, [COLON, SPACE] + row);
  }

  predicate KeyedRowsDenote(r: Result<Parsed<seq<Field>>>, pairs: seq<Pair>, rest: LineStream) {
    r.Ok? && r.value.rest == rest && DenotePairs(r.value.value) == pairs
  }

  /** The keys seen once one more was read: only strict mode keeps them. */
  function Noted(seen: set<bytes>, key: bytes, strict: bool): set<bytes> {
    if strict then seen + {key} else seen
  }

  predicate Unseen(pairs: seq<Pair>, seen: set<bytes>) {
    forall i :: 0 <= i < |pairs| ==> pairs[i].key !in seen
  }

  lemma {:induction false} UnseenStep(pairs: seq<Pair>, seen: set<bytes>, strict: bool)
    requires pairs != [] && DistinctKeys(pairs) && Unseen(pairs, seen)
    ensures Unseen(pairs[1..], Noted(seen, pairs[0].key, strict)) && DistinctKeys(pairs[1..]) && pairs[0].key !in seen
  {
    assert forall i :: 0 <= i < |pairs| - 1 ==> pairs[1..][i] == pairs[i + 1];
  }

  lemma {:induction false} ProperStep(pairs: seq<Pair>)
    requires pairs != [] && ProperPairs(pairs)
    ensures ProperPair(pairs[0]) && ProperPairs(pairs[1..])
  {
    assert forall i :: 0 <= i < |pairs| - 1 ==> pairs[1..][i] == pairs[i + 1];
  }

  /** A written keyed table reads as its rows under their keys. */
  lemma {:induction false} KeyedReads(
      nodes: seq<ShapeNode>, pairs: seq<Pair>, lines: seq<OutLine>, stream: LineStream, header: Header, depth: nat, index: nat, seen: set<bytes>, strict: bool)
    requires WellNamed(nodes) && ProperPairs(pairs) && IsDelimiter(header.delimiter) && header.fields == NodesOf(nodes)
    requires KeyedLines(nodes, pairs, depth + 1, header.delimiter) == Some(lines) && header.declared == index + |pairs|
    requires Shows(stream, lines) && Closes(Drop(stream, |lines|), depth) && Unseen(pairs, seen)
    ensures KeyedRowsDenote(KeyedRows(stream, header, depth, strict, index, seen), ProjectEach(nodes, pairs), Drop(stream, |lines|))
    decreases pairs
  {
    if pairs == [] {
      NoNextRow(stream, depth, header.declared, strict);
    } else {
      KeyedLinesCons(nodes, pairs, depth + 1, header.delimiter, lines);
      ShowsCons(stream, lines);
      UnseenStep(pairs, seen, strict);
      ProperStep(pairs);
      hide WellNamed, NodesOf, KeyedLines, KeyedLine, KeyedRows, Shows, Drop, Closes, ProjectEach, RowText, IsLine, KeyedRow, NextRow, Unseen;
      NextRowIs(stream, lines[0], depth, header.declared, index, strict);
      KeyedRowReads(nodes, pairs[0], RowText(nodes, pairs[0].value, header.delimiter).value, header, stream.line, depth + 1, seen, strict);
      KeyedReads(nodes, pairs[1..], lines[1..], stream.rest, header, depth, index + 1, Noted(seen, pairs[0].key, strict), strict);
      ProjectEachCons(nodes, pairs);
      KeyedRowsStep(stream, header, depth, index, seen, nodes, pairs, Drop(stream, |lines|), strict);
    }
  }

  lemma {:induction false} KeyedLinesCons(nodes: seq<ShapeNode>, pairs: seq<Pair>, depth: nat, delimiter: byte, lines: seq<OutLine>)
    requires pairs != [] && KeyedLines(nodes, pairs, depth, delimiter) == Some(lines)
    ensures lines != [] && RowText(nodes, pairs[0].value, delimiter).Some? && lines[0].depth == depth
    ensures lines[0] == KeyedLine(pairs[0].key, RowText(nodes, pairs[0].value, delimiter).value, depth)
    ensures KeyedLines(nodes, pairs[1..], depth, delimiter) == Some(lines[1..])
  {
    hide RowText;
  }

  lemma {:induction false} ProjectEachCons(nodes: seq<ShapeNode>, pairs: seq<Pair>)
    requires pairs != []
    ensures ProjectEach(nodes, pairs) == [Pair(pairs[0].key, Dict(ProjectPairs(nodes, pairs[0].value)))] + ProjectEach(nodes, pairs[1..])
  {
    hide ProjectPairs;
  }

  lemma {:induction false} KeyedRowsStep(
      stream: LineStream, header: Header, depth: nat, index: nat, seen: set<bytes>, nodes: seq<ShapeNode>, pairs: seq<Pair>, rest: LineStream, strict: bool)
    requires pairs != [] && stream.More? && NextRow(stream, depth, strict, header.declared, index) == Ok(Some(Parsed(stream.line, stream.rest)))
    requires KeyedRowDenotes(KeyedRow(header, stream.line, strict, seen), nodes, pairs[0])
    requires KeyedRowsDenote(KeyedRows(stream.rest, header, depth, strict, index + 1, Noted(seen, pairs[0].key, strict)), ProjectEach(nodes, pairs[1..]), rest)
    requires ProjectEach(nodes, pairs) == [Pair(pairs[0].key, Dict(ProjectPairs(nodes, pairs[0].value)))] + ProjectEach(nodes, pairs[1..])
    ensures KeyedRowsDenote(KeyedRows(stream, header, depth, strict, index, seen), ProjectEach(nodes, pairs), rest)
  {
    hide NextRow, KeyedRow, ProjectEach, ProjectPairs, TextOf, Denote;
    var first := KeyedRow(header, stream.line, strict, seen).value;
    var others := KeyedRows(stream.rest, header, depth, strict, index + 1, Noted(seen, pairs[0].key, strict)).value;
    assert NoteRow(seen, first, strict) == Noted(seen, pairs[0].key, strict);
    assert RowsOf(first) == [first.value];
    assert KeyedRows(stream, header, depth, strict, index, seen) == Ok(Parsed([first.value] + others.value, others.rest));
    assert ([first.value] + others.value)[1..] == others.value;
  }
}
