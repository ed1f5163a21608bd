/** The canonical encoder: each writer appends exactly the lines its specification names (src/encode.rs). */
module Encoder {
  import opened Bytes
  import opened Values
  import opened Shapes
  import opened Output
  import opened Quoting
  import opened QuoteDecision
  import opened Render
  import Cells
  import Scan

  // ----- what a writer has appended ------------------------------------------------

  /** A writer fails exactly when there is nothing to write, and otherwise appended the text. */
  ghost predicate Wrote(ok: bool, before: bytes, after: bytes, text: Option<bytes>) {
    (ok <==> text.Some?) && (ok ==> after == before + text.value)
  }

  ghost function LinesText(lines: Option<seq<OutLine>>, indentWidth: nat): Option<bytes> {
    if lines.None? then None else Some(Flat(lines.value, indentWidth))
  }

  /** The text of a construct, its first line indented unless the caller already stands on it. */
  ghost function BlockText(block: Option<Block>, depth: nat, inlined: bool, indentWidth: nat): Option<bytes> {
    if block.None? then None
    else Some((if inlined then [] else Spaces(depth * indentWidth)) + (block.value.head + ([LF] + Flat(block.value.tail, indentWidth))))
  }

  lemma {:induction false} FlatConcat(a: seq<OutLine>, b: seq<OutLine>, indentWidth: nat)
    ensures Flat(a + b, indentWidth) == Flat(a, indentWidth) + Flat(b, indentWidth)
  {
    if a == [] {
      assert a + b == b;
    } else {
      assert (a + b)[1..] == a[1..] + b;
      FlatConcat(a[1..], b, indentWidth);
      var first, x, y := LineText(a[0], indentWidth), Flat(a[1..], indentWidth), Flat(b, indentWidth);
      assert (first + x) + y == first + (x + y);
    }
  }

  lemma {:induction false} StandingText(block: Block, depth: nat, indentWidth: nat)
    ensures BlockText(Some(block), depth, false, indentWidth) == Some(Flat(Standing(block, depth), indentWidth))
  {
    var lines := Standing(block, depth);
    assert lines[1..] == block.tail;
    var indent, rest := Spaces(depth * indentWidth), Flat(block.tail, indentWidth);
    assert LineText(lines[0], indentWidth) + rest == indent + (block.head + ([LF] + rest));
  }

  // ----- scalars -------------------------------------------------------------------

  method WriteScalar(writer: Writer, value: Value, delimiter: byte) returns (ok: bool)
    modifies writer
    ensures ok <==> IsScalar(value)
    ensures ok ==> writer.out == old(writer.out) + ScalarText(value, delimiter)
  {
    match value
    case Null => writer.Put(NULL_TEXT); return true;
    case Bool(flag) => writer.Put(if flag then TRUE_TEXT else FALSE_TEXT); return true;
    case Int(n) => writer.Put(IntText(n)); return true;
    case Float(text) => writer.Put(text); return true;
    case Str(text) => WriteString(writer, text, delimiter); return true;
    case _ => return false;
  }

  method WriteEntryScalar(writer: Writer, value: Value, delimiter: byte)
    requires IsScalar(value)
    modifies writer
    ensures writer.out == old(writer.out) + EntryScalarText(value, delimiter)
  {
    if value.Str? {
      WriteEntryString(writer, value.text, delimiter);
    } else {
      var _ := WriteScalar(writer, value, delimiter);
    }
  }

  // ----- shape discovery -----------------------------------------------------------

  method RowFitsKeys(row: Value, first: seq<Pair>) returns (fits: bool)
    ensures fits <==> FitsKeys(row, first)
  {
    if !row.Dict? || |row.pairs| != |first| { return false; }
    for i := 0 to |first|
      invariant forall j :: 0 <= j < i ==> HasKey(row.pairs, first[j].key)
    {
      if !HasKey(row.pairs, first[i].key) { return false; }
    }
    return true;
  }

  /** Rows after the first must have as many keys, and every key of the first. */
  method HaveSameKeys(rows: seq<Value>) returns (same: bool)
    requires rows != []
    ensures same <==> SameKeys(rows)
  {
    if !rows[0].Dict? { return false; }
    for i := 1 to |rows|
      invariant forall j :: 1 <= j < i ==> FitsKeys(rows[j], rows[0].pairs)
    {
      var fits := RowFitsKeys(rows[i], rows[0].pairs);
      if !fits { return false; }
    }
    return true;
  }

  method FetchColumn(rows: seq<Value>, key: bytes) returns (r: Option<seq<Value>>)
    ensures r == Column(rows, key)
  {
    var column: seq<Value> := [];
    for i := 0 to |rows|
      invariant |column| == i && forall j :: 0 <= j < i ==> GetItem(rows[j], key) == Some(column[j])
    {
      var item := GetItem(rows[i], key);
      if item.None? { return None; }
      column := column + [item.value];
    }
    ColumnIs(rows, key, column);
    return Some(column);
  }

  method ScalarsOnly(values: seq<Value>) returns (all: bool)
    ensures all <==> AllScalars(values)
  {
    for i := 0 to |values|
      invariant AllScalars(values[..i])
    {
      if !IsScalar(values[i]) { return false; }
      assert values[..i + 1] == values[..i] + [values[i]];
    }
    assert values[..|values|] == values;
    return true;
  }

  /** What the columns from `i` on still add to the shape found so far. */
  ghost function Resumed(done: seq<ShapeNode>, rest: ShapeResult): ShapeResult {
    if rest.Shaped? then Shaped(done + rest.nodes) else rest
  }

  method DiscoverShape(rows: seq<Value>, depth: nat) returns (r: ShapeResult)
    requires rows != []
    ensures r == BuildShape(rows, depth)
    decreases Weight(rows[0]), 1
  {
    if depth > Scan.MAX_NESTING_DEPTH { return TooDeep; }
    var same := HaveSameKeys(rows);
    if !same || rows[0].pairs == [] { return NoShape; }
    var shape: seq<ShapeNode> := [];
    var columns := rows[0].pairs;
    assert columns[0..] == columns;
    for i := 0 to |columns|
      invariant Resumed(shape, ShapeColumns(rows, columns[i..], depth)) == ShapeColumns(rows, columns, depth)
    {
      var column := DiscoverColumn(rows, columns[i].key, depth);
      assert columns[i..][0] == columns[i] && columns[i..][1..] == columns[i + 1..];
      if !column.Shaped? { return column; }
      ResumeColumn(shape, column.nodes, ShapeColumns(rows, columns[i + 1..], depth));
      shape := shape + column.nodes;
    }
    return Shaped(shape);
  }

  lemma {:induction false} ResumeColumn(done: seq<ShapeNode>, first: seq<ShapeNode>, rest: ShapeResult)
    ensures Resumed(done, Resumed(first, rest)) == Resumed(done + first, rest)
  {
    if rest.Shaped? { assert done + (first + rest.nodes) == (done + first) + rest.nodes; }
  }

  method DiscoverColumn(rows: seq<Value>, key: bytes, depth: nat) returns (r: ShapeResult)
    requires rows != []
    ensures r == ShapeColumn(rows, key, depth)
    decreases Weight(rows[0]), 0
  {
    var column := FetchColumn(rows, key);
    if column.None? { return NoShape; }
    var leaf := ScalarsOnly(column.value);
    if leaf { return Shaped([ShapeNode(key, [])]); }
    var nested := DiscoverShape(column.value, depth + 1);
    match nested
    case Shaped(children) => return Shaped([ShapeNode(key, children)]);
    case _ => return nested;
  }

  /** The probe for a keyed table. */
  method DiscoverKeyed(pairs: seq<Pair>, depth: nat) returns (r: ShapeResult)
    ensures r == KeyedShape(pairs, depth)
  {
    if |pairs| < 2 { return NoShape; }
    var rows: seq<Value> := [];
    for i := 0 to |pairs|
      invariant rows == ValuesOf(pairs[..i]) && forall j :: 0 <= j < i ==> pairs[j].value.Dict?
    {
      if !pairs[i].value.Dict? { return NoShape; }
      rows := rows + [pairs[i].value];
      assert rows == ValuesOf(pairs[..i + 1]);
    }
    assert pairs[..|pairs|] == pairs;
    r := DiscoverShape(rows, depth);
  }

  // ----- headers -------------------------------------------------------------------

  /** What a field group still lacks when its first `i` columns are written. */
  ghost function GroupRest(nodes: seq<ShapeNode>, i: nat, delimiter: byte): bytes
    requires i <= |nodes|
  {
    if i == |nodes| then [] else Mark(i, delimiter) + GroupText(nodes[i..], delimiter)
  }

  ghost function Mark(i: nat, delimiter: byte): bytes {
    if i == 0 then [] else [delimiter]
  }

  lemma {:induction false} GroupRestStep(nodes: seq<ShapeNode>, i: nat, delimiter: byte)
    requires i < |nodes|
    ensures GroupRest(nodes, i, delimiter) ==
            (Mark(i, delimiter) + NodeText(nodes[i], delimiter)) + GroupRest(nodes, i + 1, delimiter)
  {
    var rest := nodes[i..];
    assert rest[0] == nodes[i] && rest[1..] == nodes[i + 1..];
    var first := NodeText(nodes[i], delimiter);
    if i + 1 == |nodes| {
      assert (Mark(i, delimiter) + first) + [] == Mark(i, delimiter) + first;
    } else {
      var others := GroupText(nodes[i + 1..], delimiter);
      assert (Mark(i, delimiter) + first) + ([delimiter] + others) == Mark(i, delimiter) + (first + ([delimiter] + others));
    }
  }

  method WriteFieldGroup(writer: Writer, nodes: seq<ShapeNode>, delimiter: byte)
    modifies writer
    ensures writer.out == old(writer.out) + GroupText(nodes, delimiter)
    decreases nodes, 1
  {
    ghost var before := writer.out;
    assert nodes[0..] == nodes;
    for i := 0 to |nodes|
      invariant writer.out + GroupRest(nodes, i, delimiter) == before + GroupText(nodes, delimiter)
    {
      GroupRestStep(nodes, i, delimiter);
      Reassociate(writer.out, Mark(i, delimiter) + NodeText(nodes[i], delimiter), GroupRest(nodes, i + 1, delimiter));
      WriteMarkedNode(writer, nodes[i], i, delimiter);
    }
  }

  lemma {:induction false} Reassociate(a: bytes, b: bytes, c: bytes)
    ensures (a + b) + c == a + (b + c)
  {
  }

  method WriteMarkedNode(writer: Writer, node: ShapeNode, i: nat, delimiter: byte)
    modifies writer
    ensures writer.out == old(writer.out) + (Mark(i, delimiter) + NodeText(node, delimiter))
    decreases node, 3
  {
    if i > 0 { writer.Put([delimiter]); }
    WriteNode(writer, node, delimiter);
  }

  method WriteNode(writer: Writer, node: ShapeNode, delimiter: byte)
    modifies writer
    ensures writer.out == old(writer.out) + NodeText(node, delimiter)
    decreases node, 2
  {
    WriteKey(writer, node.wire);
    if node.children != [] {
      writer.Put([LBRACE]);
      WriteFieldGroup(writer, node.children, delimiter);
      writer.Put([RBRACE]);
    }
  }

  method WriteBracket(writer: Writer, count: nat, keyed: bool, delimiter: byte)
    modifies writer
    ensures writer.out == old(writer.out) + ([LBRACKET] + (BracketText(count, keyed, delimiter) + [RBRACKET]))
  {
    writer.Put([LBRACKET]);
    writer.Put(DecimalText(count));
    if keyed { writer.Put([COLON]); }
    if delimiter != COMMA { writer.Put([delimiter]); }
    writer.Put([RBRACKET]);
  }

  method WriteGroup(writer: Writer, nodes: seq<ShapeNode>, delimiter: byte)
    modifies writer
    ensures writer.out == old(writer.out) + (BracedGroup(nodes, delimiter) + [COLON])
  {
    if nodes != [] {
      writer.Put([LBRACE]);
      WriteFieldGroup(writer, nodes, delimiter);
      writer.Put([RBRACE]);
    }
    writer.Put([COLON]);
  }

  method WriteIndent(writer: Writer, depth: nat, inlined: bool)
    modifies writer
    ensures writer.out == old(writer.out) + (if inlined then [] else Spaces(depth * writer.indentWidth))
  {
    if !inlined { writer.Indent(depth); }
  }

  method WriteHeader(writer: Writer, place: Place, count: nat, keyed: bool, nodes: seq<ShapeNode>, delimiter: byte)
    modifies writer
    ensures writer.out == old(writer.out) + HeaderText(place, count, keyed, delimiter, nodes)
  {
    ghost var before := writer.out;
    if place.Named? { WriteKey(writer, place.key); }
    assert writer.out == before + KeyPart(place);
    WriteBracket(writer, count, keyed, delimiter);
    WriteGroup(writer, nodes, delimiter);
    HeaderPieces(before, KeyPart(place), BracketText(count, keyed, delimiter), BracedGroup(nodes, delimiter));
  }

  lemma {:induction false} HeaderPieces(a: bytes, b: bytes, c: bytes, d: bytes)
    ensures ((a + b) + ([LBRACKET] + (c + [RBRACKET]))) + (d + [COLON]) ==
            a + (b + ([LBRACKET] + (c + ([RBRACKET] + (d + [COLON])))))
  {
  }

  // ----- rows ----------------------------------------------------------------------

  /** Cells as the row writer emits them: a delimiter before every cell but the row's first. */
  ghost function CellRun(texts: seq<bytes>, first: bool, delimiter: byte): bytes {
    if texts == [] then []
    else (if first then [] else [delimiter]) + (texts[0] + CellRun(texts[1..], false, delimiter))
  }

  lemma {:induction false} CellRunConcat(a: seq<bytes>, b: seq<bytes>, first: bool, delimiter: byte)
    ensures CellRun(a + b, first, delimiter) == CellRun(a, first, delimiter) + CellRun(b, first && a == [], delimiter)
  {
    if a == [] {
      assert a + b == b;
    } else {
      assert (a + b)[1..] == a[1..] + b;
      CellRunConcat(a[1..], b, false, delimiter);
    }
  }

  lemma {:induction false} CellRunIsJoin(texts: seq<bytes>, delimiter: byte)
    requires texts != []
    ensures CellRun(texts, true, delimiter) == Cells.Join(texts, delimiter)
    ensures CellRun(texts, false, delimiter) == [delimiter] + Cells.Join(texts, delimiter)
  {
    if |texts| == 1 {
      assert texts[1..] == [];
      assert texts[0] + [] == texts[0];
    } else {
      CellRunIsJoin(texts[1..], delimiter);
    }
  }

  lemma {:induction false} CellTextsConcat(a: seq<Value>, b: seq<Value>, delimiter: byte)
    requires AllScalars(a) && AllScalars(b)
    ensures AllScalars(a + b) && CellTexts(a + b, delimiter) == CellTexts(a, delimiter) + CellTexts(b, delimiter)
  {
  }

  /** The text a row adds, when none of its columns is lost and all its cells are scalars. */
  ghost function CellsText(cells: Option<seq<Value>>, first: bool, delimiter: byte): Option<bytes> {
    if cells.None? || !AllScalars(cells.value) then None else Some(CellRun(CellTexts(cells.value, delimiter), first, delimiter))
  }

  ghost predicate WroteCells(ok: bool, before: bytes, after: bytes, cells: Option<seq<Value>>, first: bool, next: bool, delimiter: byte) {
    && Wrote(ok, before, after, CellsText(cells, first, delimiter))
    && (ok ==> next == (first && cells.value == []))
  }

  lemma {:induction false} CellsThenCells(a: seq<Value>, b: Option<seq<Value>>, first: bool, delimiter: byte, all: Option<seq<Value>>)
    requires AllScalars(a) && all == (if b.None? then None else Some(a + b.value))
    ensures CellsText(all, first, delimiter) ==
            var rest := CellsText(b, first && a == [], delimiter);
            if rest.None? then None else Some(CellRun(CellTexts(a, delimiter), first, delimiter) + rest.value)
  {
    if b.Some? {
      if AllScalars(b.value) {
        CellTextsConcat(a, b.value, delimiter);
        CellRunConcat(CellTexts(a, delimiter), CellTexts(b.value, delimiter), first, delimiter);
      } else {
        var i :| 0 <= i < |b.value| && !IsScalar(b.value[i]);
        assert (a + b.value)[|a| + i] == b.value[i];
      }
    }
  }

  lemma {:induction false} FailedCells(a: Option<seq<Value>>, b: Option<seq<Value>>, all: Option<seq<Value>>)
    requires a.None? || !AllScalars(a.value)
    requires all == if a.None? || b.None? then None else Some(a.value + b.value)
    ensures all.None? || !AllScalars(all.value)
  {
    if all.Some? {
      var i :| 0 <= i < |a.value| && !IsScalar(a.value[i]);
      assert all.value[i] == a.value[i];
    }
  }

  /** Write the cells of one row; `first` tells whether no cell was written before. */
  method WriteRowObj(writer: Writer, row: Value, nodes: seq<ShapeNode>, delimiter: byte, first: bool) returns (ok: bool, next: bool)
    modifies writer
    ensures WroteCells(ok, old(writer.out), writer.out, RowCells(nodes, row), first, next, delimiter)
    decreases nodes
  {
    if nodes == [] { return true, first; }
    hide CellRun, CellTexts, NodeCells, AllScalars;
    ghost var start := writer.out;
    ghost var a, b := NodeCells(nodes[0], row), RowCells(nodes[1..], row);
    ok, next := WriteRowNode(writer, row, nodes[0], delimiter, first);
    if !ok {
      FailedCells(a, b, RowCells(nodes, row));
      return false, first;
    }
    CellsThenCells(a.value, b, first, delimiter, RowCells(nodes, row));
    if CellsText(b, next, delimiter).Some? {
      Reassociate(start, CellRun(CellTexts(a.value, delimiter), first, delimiter), CellsText(b, next, delimiter).value);
    }
    ok, next := WriteRowObj(writer, row, nodes[1..], delimiter, next);
  }

  method WriteRowNode(writer: Writer, row: Value, node: ShapeNode, delimiter: byte, first: bool) returns (ok: bool, next: bool)
    modifies writer
    ensures WroteCells(ok, old(writer.out), writer.out, NodeCells(node, row), first, next, delimiter)
    decreases node
  {
    hide CellRun, CellTexts, RowCells, ScalarText;
    var item := GetItem(row, node.wire);
    if item.None? { return false, first; }
    if node.children != [] {
      ok, next := WriteRowObj(writer, item.value, node.children, delimiter, first);
      return;
    }
    ok := WriteCell(writer, item.value, delimiter, first);
    next := false;
    assert [item.value][0] == item.value;
  }

  /** One cell, behind a delimiter unless it is the first. */
  method WriteCell(writer: Writer, item: Value, delimiter: byte, first: bool) returns (ok: bool)
    modifies writer
    ensures Wrote(ok, old(writer.out), writer.out,
                  if IsScalar(item) then Some(CellRun(CellTexts([item], delimiter), first, delimiter)) else None)
  {
    ghost var before, lead := writer.out, if first then [] else [delimiter];
    if !first { writer.Put([delimiter]); }
    assert writer.out == before + lead;
    hide CellRun, CellTexts, ScalarText;
    ok := WriteScalar(writer, item, delimiter);
    if ok {
      OneCell(item, first, delimiter);
      Reassociate(before, lead, ScalarText(item, delimiter));
    }
  }

  lemma {:induction false} OneCell(item: Value, first: bool, delimiter: byte)
    requires IsScalar(item)
    ensures CellRun(CellTexts([item], delimiter), first, delimiter) == (if first then [] else [delimiter]) + ScalarText(item, delimiter)
  {
    var text := ScalarText(item, delimiter);
    assert CellTexts([item], delimiter) == [text] && [text][1..] == [];
    assert text + [] == text;
  }

  /** A whole row. */
  method WriteRow(writer: Writer, row: Value, nodes: seq<ShapeNode>, delimiter: byte) returns (ok: bool)
    requires nodes != [] && (RowCells(nodes, row).Some? ==> RowCells(nodes, row).value != [])
    modifies writer
    ensures Wrote(ok, old(writer.out), writer.out, RowText(nodes, row, delimiter))
  {
    var next;
    ok, next := WriteRowObj(writer, row, nodes, delimiter, true);
    if ok { CellRunIsJoin(CellTexts(RowCells(nodes, row).value, delimiter), delimiter); }
  }

  // ----- loops over lines ----------------------------------------------------------

  /** What is still to be written completes the whole. */
  ghost predicate Pending(before: bytes, total: Option<bytes>, now: bytes, rest: Option<bytes>) {
    (total.Some? <==> rest.Some?) && (rest.Some? ==> now + rest.value == before + total.value)
  }

  ghost function Prepended(piece: bytes, rest: Option<bytes>): Option<bytes> {
    if rest.None? then None else Some(piece + rest.value)
  }

  lemma {:induction false} PendingStep(before: bytes, total: Option<bytes>, now: bytes, piece: bytes, rest: Option<bytes>)
    requires Pending(before, total, now, Prepended(piece, rest))
    ensures Pending(before, total, now + piece, rest)
  {
    if rest.Some? { Reassociate(now, piece, rest.value); }
  }

  lemma {:induction false} LinesThenLines(first: seq<OutLine>, others: Option<seq<OutLine>>, all: Option<seq<OutLine>>, indentWidth: nat)
    requires all == if others.None? then None else Some(first + others.value)
    ensures LinesText(all, indentWidth) == Prepended(Flat(first, indentWidth), LinesText(others, indentWidth))
  {
    if others.Some? { FlatConcat(first, others.value, indentWidth); }
  }

  lemma {:induction false} OneLine(line: OutLine, indentWidth: nat)
    ensures Flat([line], indentWidth) == LineText(line, indentWidth)
  {
    assert [line][1..] == [];
    assert LineText(line, indentWidth) + [] == LineText(line, indentWidth);
  }

  /** One table row on its own line. */
  method WriteRowLine(writer: Writer, row: Value, nodes: seq<ShapeNode>, depth: nat, delimiter: byte) returns (ok: bool)
    requires nodes != [] && (RowCells(nodes, row).Some? ==> RowCells(nodes, row).value != [])
    modifies writer
    ensures ok <==> RowText(nodes, row, delimiter).Some?
    ensures ok ==> writer.out == old(writer.out) + Flat([OutLine(depth, RowText(nodes, row, delimiter).value)], writer.indentWidth)
  {
    writer.Indent(depth);
    ok := WriteRow(writer, row, nodes, delimiter);
    writer.Newline();
    if ok { OneLine(OutLine(depth, RowText(nodes, row, delimiter).value), writer.indentWidth); }
  }

  /** One row of a keyed table. */
  method WriteKeyedLine(writer: Writer, pair: Pair, nodes: seq<ShapeNode>, depth: nat, delimiter: byte) returns (ok: bool)
    requires nodes != [] && (RowCells(nodes, pair.value).Some? ==> RowCells(nodes, pair.value).value != [])
    modifies writer
    ensures ok <==> RowText(nodes, pair.value, delimiter).Some?
    ensures ok ==> writer.out == old(writer.out) + Flat([KeyedLine(pair.key, RowText(nodes, pair.value, delimiter).value, depth)], writer.indentWidth)
  {
    ghost var before, indent := writer.out, Spaces(depth * writer.indentWidth);
    writer.Indent(depth);
    WriteKey(writer, pair.key);
    writer.Put([COLON, SPACE]);
    ok := WriteRow(writer, pair.value, nodes, delimiter);
    writer.Newline();
    if ok {
      ghost var row := RowText(nodes, pair.value, delimiter).value;
      KeyedLinePieces(before, indent, KeyText(pair.key), row);
      OneLine(KeyedLine(pair.key, row, depth), writer.indentWidth);
    }
  }

  lemma {:induction false} KeyedLinePieces(a: bytes, b: bytes, c: bytes, d: bytes)
    ensures ((((a + b) + c) + [COLON, SPACE]) + d) + [LF] == a + (b + (c + ([COLON, SPACE] + d)) + [LF])
  {
  }

  /** A shape whose rows have cells: at least one leaf. */
  lemma {:induction false} NonEmptyRow(nodes: seq<ShapeNode>, row: Value)
    requires nodes != [] && RowCells(nodes, row).Some?
    ensures RowCells(nodes, row).value != []
    decreases nodes
  {
    if nodes[0].children != [] { NonEmptyRow(nodes[0].children, GetItem(row, nodes[0].wire).value); }
  }

  method WriteTable(writer: Writer, nodes: seq<ShapeNode>, rows: seq<Value>, depth: nat, delimiter: byte) returns (ok: bool)
    requires nodes != []
    modifies writer
    ensures Wrote(ok, old(writer.out), writer.out, LinesText(TableLines(nodes, rows, depth, delimiter), writer.indentWidth))
  {
    ghost var before, total := writer.out, LinesText(TableLines(nodes, rows, depth, delimiter), writer.indentWidth);
    assert rows[0..] == rows;
    for i := 0 to |rows|
      invariant Pending(before, total, writer.out, LinesText(TableLines(nodes, rows[i..], depth, delimiter), writer.indentWidth))
    {
      ghost var rest := rows[i..];
      assert rest[0] == rows[i] && rest[1..] == rows[i + 1..];
      if RowCells(nodes, rows[i]).Some? { NonEmptyRow(nodes, rows[i]); }
      ghost var row := RowText(nodes, rows[i], delimiter);
      if row.Some? {
        LinesThenLines([OutLine(depth, row.value)], TableLines(nodes, rows[i + 1..], depth, delimiter),
                       TableLines(nodes, rest, depth, delimiter), writer.indentWidth);
        PendingStep(before, total, writer.out, Flat([OutLine(depth, row.value)], writer.indentWidth),
                    LinesText(TableLines(nodes, rows[i + 1..], depth, delimiter), writer.indentWidth));
      }
      ok := WriteRowLine(writer, rows[i], nodes, depth, delimiter);
      if !ok { return false; }
    }
    return true;
  }

  method WriteKeyedRows(writer: Writer, nodes: seq<ShapeNode>, pairs: seq<Pair>, depth: nat, delimiter: byte) returns (ok: bool)
    requires nodes != []
    modifies writer
    ensures Wrote(ok, old(writer.out), writer.out, LinesText(KeyedLines(nodes, pairs, depth, delimiter), writer.indentWidth))
  {
    ghost var before, total := writer.out, LinesText(KeyedLines(nodes, pairs, depth, delimiter), writer.indentWidth);
    assert pairs[0..] == pairs;
    for i := 0 to |pairs|
      invariant Pending(before, total, writer.out, LinesText(KeyedLines(nodes, pairs[i..], depth, delimiter), writer.indentWidth))
    {
      ghost var rest := pairs[i..];
      assert rest[0] == pairs[i] && rest[1..] == pairs[i + 1..];
      if RowCells(nodes, pairs[i].value).Some? { NonEmptyRow(nodes, pairs[i].value); }
      ghost var row := RowText(nodes, pairs[i].value, delimiter);
      if row.Some? {
        ghost var line := KeyedLine(pairs[i].key, row.value, depth);
        LinesThenLines([line], KeyedLines(nodes, pairs[i + 1..], depth, delimiter),
                       KeyedLines(nodes, rest, depth, delimiter), writer.indentWidth);
        PendingStep(before, total, writer.out, Flat([line], writer.indentWidth),
                    LinesText(KeyedLines(nodes, pairs[i + 1..], depth, delimiter), writer.indentWidth));
      }
      ok := WriteKeyedLine(writer, pairs[i], nodes, depth, delimiter);
      if !ok { return false; }
    }
    return true;
  }

  // ----- arrays and objects --------------------------------------------------------

  ghost function Indentation(depth: nat, inlined: bool, indentWidth: nat): bytes {
    if inlined then [] else Spaces(depth * indentWidth)
  }

  ghost function BlockWith(head: bytes, tail: Option<seq<OutLine>>): Option<Block> {
    if tail.None? then None else Some(Block(head, tail.value))
  }

  /** A first line and what stands below it, written one after the other. */
  lemma {:induction false} BlockWritten(
      ok: bool, before: bytes, after: bytes, head: bytes, tail: Option<seq<OutLine>>, depth: nat, inlined: bool, indentWidth: nat)
    requires Wrote(ok, ((before + Indentation(depth, inlined, indentWidth)) + head) + [LF], after, LinesText(tail, indentWidth))
    ensures Wrote(ok, before, after, BlockText(BlockWith(head, tail), depth, inlined, indentWidth))
  {
    if ok { BlockPieces(before, Indentation(depth, inlined, indentWidth), head, Flat(tail.value, indentWidth)); }
  }

  lemma {:induction false} BlockPieces(before: bytes, indent: bytes, head: bytes, tail: bytes)
    ensures (((before + indent) + head) + [LF]) + tail == before + (indent + (head + ([LF] + tail)))
  {
  }

  lemma {:induction false} LineWritten(before: bytes, head: bytes, depth: nat, inlined: bool, indentWidth: nat)
    ensures Wrote(true, before, ((before + Indentation(depth, inlined, indentWidth)) + head) + [LF],
                  BlockText(Some(Block(head, [])), depth, inlined, indentWidth))
  {
    var after := ((before + Indentation(depth, inlined, indentWidth)) + head) + [LF];
    assert after + Flat([], indentWidth) == after;
    BlockWritten(true, before, after, head, Some([]), depth, inlined, indentWidth);
  }

  function PlaceOf(key: Option<bytes>, inlined: bool): Place {
    if key.Some? then Named(key.value) else if inlined then InList else AtRoot
  }

  method WriteEmptyArray(writer: Writer, key: Option<bytes>, depth: nat, inlined: bool, delimiter: byte)
    modifies writer
    ensures Wrote(true, old(writer.out), writer.out,
                  BlockText(Some(EmptyBlock(PlaceOf(key, inlined), delimiter)), depth, inlined, writer.indentWidth))
  {
    ghost var before, head := writer.out, EmptyBlock(PlaceOf(key, inlined), delimiter).head;
    WriteIndent(writer, depth, inlined);
    if key.None? && inlined {
      WriteHeader(writer, InList, 0, false, [], delimiter);
    } else {
      if key.Some? {
        WriteKey(writer, key.value);
        writer.Put([COLON, SPACE]);
      }
      writer.Put(EMPTY_ARRAY);
    }
    assert writer.out == (before + Indentation(depth, inlined, writer.indentWidth)) + head;
    writer.Newline();
    LineWritten(before, head, depth, inlined, writer.indentWidth);
  }

  /** What an inline array still lacks when its first `i` values are written. */
  ghost function CellsRest(items: seq<Value>, i: nat, delimiter: byte): bytes
    requires i <= |items| && AllScalars(items)
  {
    CellRun(CellTexts(items, delimiter)[i..], i == 0, delimiter)
  }

  method WriteCells(writer: Writer, items: seq<Value>, delimiter: byte)
    requires AllScalars(items) && items != []
    modifies writer
    ensures writer.out == old(writer.out) + Cells.Join(CellTexts(items, delimiter), delimiter)
  {
    ghost var before, texts := writer.out, CellTexts(items, delimiter);
    CellRunIsJoin(texts, delimiter);
    assert texts[0..] == texts;
    for i := 0 to |items|
      invariant writer.out + CellsRest(items, i, delimiter) == before + Cells.Join(texts, delimiter)
    {
      assert texts[i..][0] == ScalarText(items[i], delimiter) && texts[i..][1..] == texts[i + 1..];
      CellPieces(writer.out, Mark(i, delimiter), texts[i], CellsRest(items, i + 1, delimiter));
      if i > 0 { writer.Put([delimiter]); }
      var _ := WriteScalar(writer, items[i], delimiter);
    }
  }

  lemma {:induction false} CellPieces(a: bytes, b: bytes, c: bytes, d: bytes)
    ensures ((a + b) + c) + d == a + (b + (c + d))
    ensures b == [] ==> a + b == a
  {
  }

  method WriteInlineArray(writer: Writer, key: Option<bytes>, items: seq<Value>, depth: nat, inlined: bool, delimiter: byte)
    requires AllScalars(items) && items != []
    modifies writer
    ensures Wrote(true, old(writer.out), writer.out,
                  BlockText(Some(InlineBlock(PlaceOf(key, inlined), items, delimiter)), depth, inlined, writer.indentWidth))
  {
    ghost var before, head := writer.out, InlineBlock(PlaceOf(key, inlined), items, delimiter).head;
    WriteIndent(writer, depth, inlined);
    ghost var cells := Cells.Join(CellTexts(items, delimiter), delimiter);
    InlinePieces(writer.out, HeaderText(PlaceOf(key, inlined), |items|, false, delimiter, []), cells);
    WriteHeader(writer, PlaceOf(key, inlined), |items|, false, [], delimiter);
    writer.Put([SPACE]);
    WriteCells(writer, items, delimiter);
    writer.Newline();
    LineWritten(before, head, depth, inlined, writer.indentWidth);
  }

  lemma {:induction false} InlinePieces(a: bytes, b: bytes, c: bytes)
    ensures ((a + b) + [SPACE]) + c == a + (b + ([SPACE] + c))
  {
  }

  method WriteTabular(writer: Writer, key: Option<bytes>, items: seq<Value>, nodes: seq<ShapeNode>, depth: nat, inlined: bool, delimiter: byte)
    returns (ok: bool)
    requires nodes != []
    modifies writer
    ensures Wrote(ok, old(writer.out), writer.out,
                  BlockText(TableBlock(PlaceOf(key, inlined), items, nodes, depth, delimiter), depth, inlined, writer.indentWidth))
  {
    ghost var before, head := writer.out, HeaderText(PlaceOf(key, inlined), |items|, false, delimiter, nodes);
    WriteIndent(writer, depth, inlined);
    WriteHeader(writer, PlaceOf(key, inlined), |items|, false, nodes, delimiter);
    writer.Newline();
    ok := WriteTable(writer, nodes, items, depth + 1, delimiter);
    BlockWritten(ok, before, writer.out, head, TableLines(nodes, items, depth + 1, delimiter), depth, inlined, writer.indentWidth);
  }

  method WriteKeyed(writer: Writer, key: Option<bytes>, pairs: seq<Pair>, nodes: seq<ShapeNode>, depth: nat, inlined: bool, delimiter: byte)
    returns (ok: bool)
    requires nodes != []
    modifies writer
    ensures Wrote(ok, old(writer.out), writer.out,
                  BlockText(KeyedBlock(PlaceOf(key, inlined), pairs, nodes, depth, delimiter), depth, inlined, writer.indentWidth))
  {
    ghost var before, head := writer.out, HeaderText(PlaceOf(key, inlined), |pairs|, true, delimiter, nodes);
    WriteIndent(writer, depth, inlined);
    WriteHeader(writer, PlaceOf(key, inlined), |pairs|, true, nodes, delimiter);
    writer.Newline();
    ok := WriteKeyedRows(writer, nodes, pairs, depth + 1, delimiter);
    BlockWritten(ok, before, writer.out, head, KeyedLines(nodes, pairs, depth + 1, delimiter), depth, inlined, writer.indentWidth);
  }

  predicate ExactScalar(value: Value) { IsScalar(value) && !value.Null? }

  /** A shape is sought before the scalar check when the first item is no scalar, after it otherwise. */
  method SeekShape(items: seq<Value>, nesting: nat, eligible: bool, allScalars: bool) returns (r: ShapeResult)
    requires items != [] && nesting <= Scan.MAX_NESTING_DEPTH
    ensures r == if eligible then BuildShape(items, nesting) else NoShape
  {
    r := NoShape;
    if eligible && !ExactScalar(items[0]) { r := DiscoverShape(items, nesting); }
    if r.NoShape? && !allScalars && eligible { r := DiscoverShape(items, nesting); }
  }

  method WriteArray(
      writer: Writer, key: Option<bytes>, items: seq<Value>, depth: nat, nesting: nat, inlined: bool, delimiter: byte)
    returns (ok: bool)
    modifies writer
    ensures Wrote(ok, old(writer.out), writer.out,
                  BlockText(ArrayBlock(PlaceOf(key, inlined), items, depth, nesting, delimiter), depth, inlined, writer.indentWidth))
    decreases items, 2
  {
    if nesting > Scan.MAX_NESTING_DEPTH { return false; }
    if items == [] {
      WriteEmptyArray(writer, key, depth, inlined, delimiter);
      return true;
    }
    var allScalars := ScalarsOnly(items);
    var shape := SeekShape(items, nesting, key.Some? || !inlined, allScalars);
    if shape.TooDeep? { return false; }
    if shape.Shaped? {
      ok := WriteTabular(writer, key, items, shape.nodes, depth, inlined, delimiter);
    } else if allScalars {
      WriteInlineArray(writer, key, items, depth, inlined, delimiter);
      ok := true;
    } else {
      ok := WriteListArray(writer, key, items, depth, nesting, inlined, delimiter);
    }
  }

  method WriteListArray(
      writer: Writer, key: Option<bytes>, items: seq<Value>, depth: nat, nesting: nat, inlined: bool, delimiter: byte)
    returns (ok: bool)
    modifies writer
    ensures Wrote(ok, old(writer.out), writer.out,
                  BlockText(BlockWith(HeaderText(PlaceOf(key, inlined), |items|, false, delimiter, []),
                                      ItemsLines(items, depth + 1, nesting + 1, delimiter)),
                            depth, inlined, writer.indentWidth))
    decreases items, 1
  {
    ghost var before, head := writer.out, HeaderText(PlaceOf(key, inlined), |items|, false, delimiter, []);
    WriteIndent(writer, depth, inlined);
    WriteHeader(writer, PlaceOf(key, inlined), |items|, false, [], delimiter);
    writer.Newline();
    ok := WriteItems(writer, items, depth + 1, nesting + 1, delimiter);
    BlockWritten(ok, before, writer.out, head, ItemsLines(items, depth + 1, nesting + 1, delimiter), depth, inlined, writer.indentWidth);
  }

  /** The next block of a loop, and the blocks behind it. */
  lemma {:induction false} BlockThenLines(first: Block, others: Option<seq<OutLine>>, all: Option<seq<OutLine>>, depth: nat, indentWidth: nat)
    requires all == if others.None? then None else Some(Standing(first, depth) + others.value)
    ensures BlockText(Some(first), depth, false, indentWidth).Some?
    ensures LinesText(all, indentWidth) ==
            Prepended(BlockText(Some(first), depth, false, indentWidth).value, LinesText(others, indentWidth))
  {
    StandingText(first, depth, indentWidth);
    LinesThenLines(Standing(first, depth), others, all, indentWidth);
  }

  lemma {:induction false} BlockStep(
      before: bytes, total: Option<bytes>, now: bytes, first: Option<Block>, others: Option<seq<OutLine>>, all: Option<seq<OutLine>>,
      depth: nat, indentWidth: nat)
    requires all == if first.None? || others.None? then None else Some(Standing(first.value, depth) + others.value)
    requires Pending(before, total, now, LinesText(all, indentWidth))
    ensures first.None? ==> total.None?
    ensures first.Some? ==> BlockText(first, depth, false, indentWidth).Some?
    ensures first.Some? ==> Pending(before, total, now + BlockText(first, depth, false, indentWidth).value, LinesText(others, indentWidth))
  {
    if first.Some? {
      BlockThenLines(first.value, others, all, depth, indentWidth);
      PendingStep(before, total, now, BlockText(first, depth, false, indentWidth).value, LinesText(others, indentWidth));
    }
  }

  method WriteItems(writer: Writer, items: seq<Value>, depth: nat, nesting: nat, delimiter: byte) returns (ok: bool)
    modifies writer
    ensures Wrote(ok, old(writer.out), writer.out, LinesText(ItemsLines(items, depth, nesting, delimiter), writer.indentWidth))
    decreases items, 0
  {
    ghost var before, total := writer.out, LinesText(ItemsLines(items, depth, nesting, delimiter), writer.indentWidth);
    assert items[0..] == items;
    for i := 0 to |items|
      invariant Pending(before, total, writer.out, LinesText(ItemsLines(items[i..], depth, nesting, delimiter), writer.indentWidth))
    {
      ghost var rest := items[i..];
      assert rest[0] == items[i] && rest[1..] == items[i + 1..];
      BlockStep(before, total, writer.out, ItemBlock(items[i], depth, nesting, delimiter),
                ItemsLines(items[i + 1..], depth, nesting, delimiter), ItemsLines(rest, depth, nesting, delimiter), depth, writer.indentWidth);
      ok := WriteListItem(writer, items[i], depth, nesting, delimiter);
      if !ok { return false; }
    }
    return true;
  }

  method WriteEntries(writer: Writer, pairs: seq<Pair>, depth: nat, delimiter: byte) returns (ok: bool)
    modifies writer
    ensures Wrote(ok, old(writer.out), writer.out, LinesText(EntriesLines(pairs, depth, delimiter), writer.indentWidth))
    decreases pairs, 0
  {
    if depth > Scan.MAX_NESTING_DEPTH { return false; }
    ghost var before, total := writer.out, LinesText(EntriesLines(pairs, depth, delimiter), writer.indentWidth);
    assert pairs[0..] == pairs;
    for i := 0 to |pairs|
      invariant Pending(before, total, writer.out, LinesText(EntriesLines(pairs[i..], depth, delimiter), writer.indentWidth))
    {
      ghost var rest := pairs[i..];
      assert rest[0] == pairs[i] && rest[1..] == pairs[i + 1..];
      BlockStep(before, total, writer.out, PairBlock(pairs[i], depth, delimiter),
                EntriesLines(pairs[i + 1..], depth, delimiter), EntriesLines(rest, depth, delimiter), depth, writer.indentWidth);
      ok := WriteEntry(writer, pairs[i].key, pairs[i].value, depth, false, delimiter);
      if !ok { return false; }
    }
    return true;
  }

  /** Write one entry; when `inlined` the writer already stands on its line, behind a dash. */
  method WriteEntry(writer: Writer, key: bytes, value: Value, depth: nat, inlined: bool, delimiter: byte) returns (ok: bool)
    modifies writer
    ensures Wrote(ok, old(writer.out), writer.out,
                  BlockText(EntryBlock(key, value, depth, delimiter), depth, inlined, writer.indentWidth))
    decreases value, 3
  {
    match value
    case Seq(items) => ok := WriteArray(writer, Some(key), items, depth, 0, inlined, delimiter);
    case Dict(pairs) => ok := WriteObject(writer, key, pairs, depth, inlined, delimiter);
    case _ =>
      WriteScalarEntry(writer, key, value, depth, inlined, delimiter);
      ok := true;
  }

  method WriteScalarEntry(writer: Writer, key: bytes, value: Value, depth: nat, inlined: bool, delimiter: byte)
    requires IsScalar(value)
    modifies writer
    ensures Wrote(true, old(writer.out), writer.out,
                  BlockText(Some(Block(KeyText(key) + ([COLON, SPACE] + EntryScalarText(value, delimiter)), [])), depth, inlined, writer.indentWidth))
  {
    ghost var before, text := writer.out, EntryScalarText(value, delimiter);
    WriteIndent(writer, depth, inlined);
    EntryPieces(writer.out, KeyText(key), text);
    WriteKey(writer, key);
    writer.Put([COLON, SPACE]);
    WriteEntryScalar(writer, value, delimiter);
    writer.Newline();
    LineWritten(before, KeyText(key) + ([COLON, SPACE] + text), depth, inlined, writer.indentWidth);
  }

  lemma {:induction false} EntryPieces(a: bytes, b: bytes, c: bytes)
    ensures ((a + b) + [COLON, SPACE]) + c == a + (b + ([COLON, SPACE] + c))
  {
  }

  method WriteObject(writer: Writer, key: bytes, pairs: seq<Pair>, depth: nat, inlined: bool, delimiter: byte) returns (ok: bool)
    modifies writer
    ensures Wrote(ok, old(writer.out), writer.out,
                  BlockText(ObjectBlock(key, pairs, depth, delimiter), depth, inlined, writer.indentWidth))
    decreases pairs, 1
  {
    var shape := DiscoverKeyed(pairs, depth);
    if shape.TooDeep? { return false; }
    if shape.Shaped? {
      ok := WriteKeyed(writer, Some(key), pairs, shape.nodes, depth, inlined, delimiter);
      return;
    }
    ghost var before, head := writer.out, KeyText(key) + [COLON];
    WriteIndent(writer, depth, inlined);
    Reassociate(writer.out, KeyText(key), [COLON]);
    WriteKey(writer, key);
    writer.Put([COLON]);
    writer.Newline();
    ok := WriteEntries(writer, pairs, depth + 1, delimiter);
    BlockWritten(ok, before, writer.out, head, EntriesLines(pairs, depth + 1, delimiter), depth, inlined, writer.indentWidth);
  }

  lemma {:induction false} DashedText(before: bytes, block: Block, depth: nat, indentWidth: nat)
    ensures ((before + Spaces(depth * indentWidth)) + DASH) + BlockText(Some(block), depth, true, indentWidth).value ==
            before + BlockText(Some(Dashed(block)), depth, false, indentWidth).value
  {
    var indent, rest := Spaces(depth * indentWidth), [LF] + Flat(block.tail, indentWidth);
    assert [] + (block.head + rest) == block.head + rest;
    assert ((before + indent) + DASH) + (block.head + rest) == before + (indent + ((DASH + block.head) + rest));
  }

  /** Write one list item; the first field of an object shares the dash line. */
  method WriteListItem(writer: Writer, item: Value, depth: nat, nesting: nat, delimiter: byte) returns (ok: bool)
    modifies writer
    ensures Wrote(ok, old(writer.out), writer.out,
                  BlockText(ItemBlock(item, depth, nesting, delimiter), depth, false, writer.indentWidth))
    decreases item, 3
  {
    match item
    case Seq(items) => ok := WriteArrayItem(writer, items, depth, nesting, delimiter);
    case Dict(pairs) => ok := WriteObjectItem(writer, pairs, depth, delimiter);
    case _ =>
      ghost var before := writer.out;
      writer.Indent(depth);
      Reassociate(writer.out, DASH, ScalarText(item, delimiter));
      writer.Put(DASH);
      var _ := WriteScalar(writer, item, delimiter);
      writer.Newline();
      LineWritten(before, DASH + ScalarText(item, delimiter), depth, false, writer.indentWidth);
      ok := true;
  }

  method WriteArrayItem(writer: Writer, items: seq<Value>, depth: nat, nesting: nat, delimiter: byte) returns (ok: bool)
    modifies writer
    ensures Wrote(ok, old(writer.out), writer.out,
                  BlockText(ItemBlock(Seq(items), depth, nesting, delimiter), depth, false, writer.indentWidth))
    decreases items, 3
  {
    ghost var before, block := writer.out, ArrayBlock(InList, items, depth, nesting + 1, delimiter);
    writer.Indent(depth);
    writer.Put(DASH);
    ok := WriteArray(writer, None, items, depth, nesting + 1, true, delimiter);
    if ok { DashedText(before, block.value, depth, writer.indentWidth); }
  }

  method WriteObjectItem(writer: Writer, pairs: seq<Pair>, depth: nat, delimiter: byte) returns (ok: bool)
    modifies writer
    ensures Wrote(ok, old(writer.out), writer.out,
                  BlockText(ItemBlock(Dict(pairs), depth, 0, delimiter), depth, false, writer.indentWidth))
    decreases pairs, 3
  {
    ghost var before := writer.out;
    writer.Indent(depth);
    if pairs == [] {
      writer.Put([MINUS]);
      writer.Newline();
      LineWritten(before, [MINUS], depth, false, writer.indentWidth);
      return true;
    }
    writer.Put(DASH);
    ghost var start := writer.out;
    ok := WriteEntry(writer, pairs[0].key, pairs[0].value, depth + 1, true, delimiter);
    if !ok { return false; }
    ghost var first, others := PairBlock(pairs[0], depth + 1, delimiter).value, EntriesLines(pairs[1..], depth + 1, delimiter);
    ok := WriteEntries(writer, pairs[1..], depth + 1, delimiter);
    if ok { ItemText(before, start, writer.out, first, others.value, depth, writer.indentWidth); }
  }

  lemma {:induction false} ItemText(before: bytes, start: bytes, after: bytes, first: Block, others: seq<OutLine>, depth: nat, indentWidth: nat)
    requires start == (before + Spaces(depth * indentWidth)) + DASH
    requires after == (start + BlockText(Some(first), depth + 1, true, indentWidth).value) + Flat(others, indentWidth)
    ensures after == before + BlockText(Some(Block(DASH + first.head, first.tail + others)), depth, false, indentWidth).value
  {
    DashedText(before, first, depth, indentWidth);
    LongerTail(before, Dashed(first), others, depth, indentWidth);
  }

  lemma {:induction false} LongerTail(before: bytes, block: Block, more: seq<OutLine>, depth: nat, indentWidth: nat)
    ensures (before + BlockText(Some(block), depth, false, indentWidth).value) + Flat(more, indentWidth) ==
            before + BlockText(Some(Block(block.head, block.tail + more)), depth, false, indentWidth).value
  {
    FlatConcat(block.tail, more, indentWidth);
    TailPieces(before, Spaces(depth * indentWidth), block.head, Flat(block.tail, indentWidth), Flat(more, indentWidth));
  }

  lemma {:induction false} TailPieces(a: bytes, b: bytes, c: bytes, d: bytes, e: bytes)
    ensures (a + (b + (c + ([LF] + d)))) + e == a + (b + (c + ([LF] + (d + e))))
  {
  }

  // ----- documents -----------------------------------------------------------------

  /** The document of a value; `None` reports the nesting limit. */
  method EncodeRoot(value: Value, delimiter: byte, indentWidth: nat) returns (r: Option<bytes>)
    ensures r == if RootLines(value, delimiter).None? then None else Some(Encoded(RootLines(value, delimiter).value, indentWidth))
  {
    var writer := new Writer(indentWidth);
    var ok := WriteRoot(writer, value, delimiter);
    if !ok { return None; }
    ghost var lines := RootLines(value, delimiter).value;
    assert [] + Flat(lines, indentWidth) == Flat(lines, indentWidth);
    var text := writer.Finish();
    Unended(text, Flat(lines, indentWidth));
    return Some(text);
  }

  lemma {:induction false} Unended(text: bytes, lines: bytes)
    requires if lines != [] && lines[|lines| - 1] == LF then text + [LF] == lines else text == lines
    ensures text == Output.WithoutLastFeed(lines)
  {
    if text + [LF] == lines { assert lines[..|text|] == text; }
  }

  method WriteRoot(writer: Writer, value: Value, delimiter: byte) returns (ok: bool)
    requires writer.out == []
    modifies writer
    ensures Wrote(ok, [], writer.out, LinesText(RootLines(value, delimiter), writer.indentWidth))
  {
    match value
    case Seq(items) =>
      ok := WriteArray(writer, None, items, 0, 0, false, delimiter);
      if ok { StandingText(ArrayBlock(AtRoot, items, 0, 0, delimiter).value, 0, writer.indentWidth); }
    case Dict(pairs) =>
      ok := WriteRootObject(writer, pairs, delimiter);
    case _ =>
      ok := WriteScalar(writer, value, delimiter);
      writer.Newline();
      RootScalarText(ScalarText(value, delimiter), writer.indentWidth);
  }

  lemma {:induction false} RootScalarText(text: bytes, indentWidth: nat)
    ensures Flat([OutLine(0, text)], indentWidth) == text + [LF]
  {
    OneLine(OutLine(0, text), indentWidth);
    assert Spaces(0) + text == text;
  }

  method WriteRootObject(writer: Writer, pairs: seq<Pair>, delimiter: byte) returns (ok: bool)
    requires writer.out == []
    modifies writer
    ensures Wrote(ok, [], writer.out, LinesText(RootLines(Dict(pairs), delimiter), writer.indentWidth))
  {
    var shape := DiscoverKeyed(pairs, 0);
    match shape
    case TooDeep => return false;
    case NoShape => ok := WriteEntries(writer, pairs, 0, delimiter);
    case Shaped(nodes) =>
      ok := WriteKeyed(writer, None, pairs, nodes, 0, false, delimiter);
      if ok { StandingText(KeyedBlock(AtRoot, pairs, nodes, 0, delimiter).value, 0, writer.indentWidth); }
  }
}
