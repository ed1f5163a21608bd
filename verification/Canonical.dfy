/** The canonical form of a value, written out: which form every array and object takes, and every byte of it
    (src/encode.rs; section 9 of TOON 4.1). */
module Canonical {
  import opened Bytes
  import opened Values
  import opened Shapes
  import opened QuoteDecision
  import opened Render
  import opened PlainStrings
  import Cells
  import Scan

  // ----- scalars ------------------------------------------------------------------------------------

  function Numeral(n: nat): bytes {
    if n < 10 then [(48 + n) as byte] else Numeral(n / 10) + [(48 + n % 10) as byte]
  }

  function ScalarSpelling(value: Value, delimiter: byte): bytes
    requires IsScalar(value)
  {
    match value
    case Null => [110, 117, 108, 108]
    case Bool(flag) => if flag then [116, 114, 117, 101] else [102, 97, 108, 115, 101]
    case Int(n) => if n < 0 then [45] + Numeral(-n) else Numeral(n)
    case Float(text) => text
    case Str(text) => StringSpelling(text, delimiter)
  }

  function BehindKey(value: Value, delimiter: byte): bytes
    requires IsScalar(value)
  {
    if value.Str? then EntrySpelling(value.text, delimiter) else ScalarSpelling(value, delimiter)
  }

  /** Scalars with the delimiter between them. */
  function Row(values: seq<Value>, delimiter: byte): bytes
    requires AllScalars(values)
  {
    if values == [] then []
    else if |values| == 1 then ScalarSpelling(values[0], delimiter)
    else ScalarSpelling(values[0], delimiter) + ([delimiter] + Row(values[1..], delimiter))
  }

  lemma {:induction false} NumeralIs(n: nat)
    ensures DecimalText(n) == Numeral(n)
  {
    if n >= 10 { NumeralIs(n / 10); }
  }

  lemma {:induction false} ScalarIs(value: Value, delimiter: byte)
    requires IsScalar(value)
    ensures ScalarText(value, delimiter) == ScalarSpelling(value, delimiter)
    ensures EntryScalarText(value, delimiter) == BehindKey(value, delimiter)
  {
    match value
    case Int(n) => NumeralIs(if n < 0 then -n else n);
    case Str(text) => StringIsSpelled(text, delimiter);
    case _ => WordsAreSpelled(delimiter);
  }

  lemma {:induction false} RowIs(values: seq<Value>, delimiter: byte)
    requires AllScalars(values) && values != []
    ensures Cells.Join(CellTexts(values, delimiter), delimiter) == Row(values, delimiter)
    decreases |values|
  {
    ScalarIs(values[0], delimiter);
    hide ScalarText, ScalarSpelling;
    if |values| > 1 {
      assert AllScalars(values[1..]);
      RowIs(values[1..], delimiter);
      var texts := CellTexts(values, delimiter);
      assert texts[1..] == CellTexts(values[1..], delimiter);
      assert texts[0] + [delimiter] + Cells.Join(texts[1..], delimiter) == texts[0] + ([delimiter] + Cells.Join(texts[1..], delimiter));
    }
  }

  // ----- columns ------------------------------------------------------------------------------------

  /** Every column is there in every row, and is all scalars or all uniform objects. */
  ghost predicate UniformColumns(rows: seq<Value>, columns: seq<Pair>)
    requires rows != []
  {
    forall i :: 0 <= i < |columns| ==> UniformColumn(rows, columns[i].key)
  }

  lemma {:induction false} FirstColumn(rows: seq<Value>, columns: seq<Pair>)
    requires rows != [] && columns != [] && UniformColumns(rows, columns)
    ensures var column := Column(rows, columns[0].key);
            && column.Some? && |column.value| == |rows| && GetItem(rows[0], columns[0].key) == Some(column.value[0])
            && Weight(column.value[0]) < Weight(rows[0])
            && (!AllScalars(column.value) ==> Uniform(column.value) && column.value[0].Dict? && UniformColumns(column.value, column.value[0].pairs))
    ensures UniformColumns(rows, columns[1..])
  {
    assert UniformColumn(rows, columns[0].key);
    assert forall i :: 0 <= i < |columns| - 1 ==> columns[1..][i] == columns[i + 1];
    var column := Column(rows, columns[0].key).value;
    if !AllScalars(column) { UniformRows(column); }
  }

  lemma {:induction false} UniformRows(rows: seq<Value>)
    requires rows != [] && Uniform(rows)
    ensures rows[0].Dict? && rows[0].pairs != [] && UniformColumns(rows, rows[0].pairs)
  {
    forall i | 0 <= i < |rows[0].pairs| ensures UniformColumn(rows, rows[0].pairs[i].key) {
      assert HasKey(rows[0].pairs, rows[0].pairs[i].key);
    }
  }

  /** The names of the columns, in the order of the first row; a column of objects with its own names in braces. */
  ghost function Names(rows: seq<Value>, columns: seq<Pair>, delimiter: byte): bytes
    requires rows != [] && UniformColumns(rows, columns)
    decreases Weight(rows[0]), 0, |columns|
  {
    if columns == [] then []
    else
      FirstColumn(rows, columns);
      var column := Column(rows, columns[0].key).value;
      var name := KeySpelling(columns[0].key) + Braces(column, delimiter);
      if |columns| == 1 then name else name + ([delimiter] + Names(rows, columns[1..], delimiter))
  }

  ghost function Braces(column: seq<Value>, delimiter: byte): bytes
    requires column != [] && (!AllScalars(column) ==> Uniform(column))
    decreases Weight(column[0]), 1, 0
  {
    if AllScalars(column) then []
    else
      UniformRows(column);
      [123] + Names(column, column[0].pairs, delimiter) + [125]
  }

  /** The scalars of a row, in the order of the columns. */
  ghost function Leaves(rows: seq<Value>, columns: seq<Pair>, row: Value): seq<Value>
    requires rows != [] && UniformColumns(rows, columns)
    decreases Weight(rows[0]), |columns|
  {
    if columns == [] then []
    else
      FirstColumn(rows, columns);
      var column := Column(rows, columns[0].key).value;
      var item := GetItem(row, columns[0].key);
      (if item.None? then [] else if AllScalars(column) then [item.value] else Leaves(column, column[0].pairs, item.value))
      + Leaves(rows, columns[1..], row)
  }

  /** The shape the encoder discovers names the columns as the first row does, and takes their cells. */
  lemma {:induction false} ShapeNames(rows: seq<Value>, columns: seq<Pair>, depth: nat, delimiter: byte, nodes: seq<ShapeNode>)
    requires rows != [] && UniformColumns(rows, columns) && ShapeColumns(rows, columns, depth) == Shaped(nodes)
    ensures GroupText(nodes, delimiter) == Names(rows, columns, delimiter)
    decreases Weight(rows[0]), 0, |columns|
  {
    if columns != [] {
      FirstColumn(rows, columns);
      var column := Column(rows, columns[0].key).value;
      var first := ShapeColumn(rows, columns[0].key, depth).nodes[0];
      assert nodes[0] == first && nodes[1..] == ShapeColumns(rows, columns[1..], depth).nodes;
      ColumnNames(rows, columns[0].key, column, depth, delimiter, first);
      ShapeNames(rows, columns[1..], depth, delimiter, nodes[1..]);
      hide Braces, KeySpelling, UniformColumns, ShapeColumn, Column, NodeText;
    }
  }

  lemma {:induction false} ColumnNames(rows: seq<Value>, key: bytes, column: seq<Value>, depth: nat, delimiter: byte, node: ShapeNode)
    requires rows != [] && Column(rows, key) == Some(column) && ShapeColumn(rows, key, depth) == Shaped([node])
    requires !AllScalars(column) ==> Uniform(column)
    ensures NodeText(node, delimiter) == KeySpelling(key) + Braces(column, delimiter)
    decreases Weight(rows[0]), 0, 0
  {
    KeyIsSpelled(key);
    assert GetItem(rows[0], key) == Some(column[0]);
    if !AllScalars(column) {
      UniformRows(column);
      ShapeNames(column, column[0].pairs, depth + 1, delimiter, node.children);
      hide Names, GroupText, KeySpelling, KeyText, UniformColumns, Uniform, BuildShape;
      assert [LBRACE] + (GroupText(node.children, delimiter) + [RBRACE]) == [123] + Names(column, column[0].pairs, delimiter) + [125];
    }
  }

  lemma {:induction false} ShapeCells(rows: seq<Value>, columns: seq<Pair>, depth: nat, nodes: seq<ShapeNode>, row: Value)
    requires rows != [] && UniformColumns(rows, columns) && ShapeColumns(rows, columns, depth) == Shaped(nodes) && RowCells(nodes, row).Some?
    ensures RowCells(nodes, row).value == Leaves(rows, columns, row)
    decreases Weight(rows[0]), 0, |columns|
  {
    if columns != [] {
      FirstColumn(rows, columns);
      var column := Column(rows, columns[0].key).value;
      var first := ShapeColumn(rows, columns[0].key, depth).nodes[0];
      assert nodes[0] == first && nodes[1..] == ShapeColumns(rows, columns[1..], depth).nodes;
      ShapeCells(rows, columns[1..], depth, nodes[1..], row);
      NodeCellsAre(rows, columns[0].key, column, depth, first, row);
      hide UniformColumns, ShapeColumn, Column, NodeCells, Uniform;
    }
  }

  lemma {:induction false} NodeCellsAre(rows: seq<Value>, key: bytes, column: seq<Value>, depth: nat, node: ShapeNode, row: Value)
    requires rows != [] && Column(rows, key) == Some(column) && ShapeColumn(rows, key, depth) == Shaped([node]) && NodeCells(node, row).Some?
    requires !AllScalars(column) ==> Uniform(column)
    ensures GetItem(row, key).Some?
    ensures AllScalars(column) ==> NodeCells(node, row).value == [GetItem(row, key).value]
    ensures !AllScalars(column) ==>
              column[0].Dict? && UniformColumns(column, column[0].pairs)
              && NodeCells(node, row).value == Leaves(column, column[0].pairs, GetItem(row, key).value)
    decreases Weight(rows[0]), 0, 0
  {
    assert GetItem(rows[0], key) == Some(column[0]);
    if !AllScalars(column) {
      UniformRows(column);
      ShapeCells(column, column[0].pairs, depth + 1, node.children, GetItem(row, key).value);
    }
  }

  // ----- forms --------------------------------------------------------------------------------------

  function Lead(place: Place): bytes {
    match place case Named(key) => KeySpelling(key) case _ => []
  }

  /** The number of elements in brackets, with a mark for a keyed table and one for any delimiter but the comma. */
  function Brackets(n: nat, keyed: bool, delimiter: byte): bytes {
    [91] + Numeral(n) + (if keyed then [58] else []) + (if delimiter == 44 then [] else [delimiter]) + [93]
  }

  /** One line for each row: its scalars. */
  ghost function RowLines(rows: seq<Value>, columns: seq<Pair>, some: seq<Value>, depth: nat, delimiter: byte): seq<OutLine>
    requires rows != [] && UniformColumns(rows, columns)
  {
    if some == [] then []
    else [OutLine(depth, RowOf(Leaves(rows, columns, some[0]), delimiter))] + RowLines(rows, columns, some[1..], depth, delimiter)
  }

  function RowOf(values: seq<Value>, delimiter: byte): bytes {
    if AllScalars(values) then Row(values, delimiter) else []
  }

  /** One line for each entry: its key, and the scalars of its row. */
  ghost function KeyedRowLines(rows: seq<Value>, columns: seq<Pair>, some: seq<Pair>, depth: nat, delimiter: byte): seq<OutLine>
    requires rows != [] && UniformColumns(rows, columns)
  {
    if some == [] then []
    else
      [OutLine(depth, KeySpelling(some[0].key) + [58, 32] + RowOf(Leaves(rows, columns, some[0].value), delimiter))]
      + KeyedRowLines(rows, columns, some[1..], depth, delimiter)
  }

  /** Objects under two or more keys that form uniform rows. */
  ghost predicate KeyedRows(pairs: seq<Pair>) {
    |pairs| >= 2 && Uniform(ValuesOf(pairs))
  }

  ghost function TableForm(place: Place, rows: seq<Value>, depth: nat, delimiter: byte): Block
    requires rows != [] && Uniform(rows)
  {
    UniformRows(rows);
    Block(Lead(place) + Brackets(|rows|, false, delimiter) + [123] + Names(rows, rows[0].pairs, delimiter) + [125, 58],
          RowLines(rows, rows[0].pairs, rows, depth + 1, delimiter))
  }

  ghost function KeyedForm(place: Place, pairs: seq<Pair>, depth: nat, delimiter: byte): Block
    requires KeyedRows(pairs)
  {
    var rows := ValuesOf(pairs);
    UniformRows(rows);
    Block(Lead(place) + Brackets(|pairs|, true, delimiter) + [123] + Names(rows, rows[0].pairs, delimiter) + [125, 58],
          KeyedRowLines(rows, rows[0].pairs, pairs, depth + 1, delimiter))
  }

  /** An array: `[]` when empty (`[0]:` among list items), a table when its items are uniform rows and it is no list
      item, its scalars behind the header when there is nothing else, and otherwise a list. */
  ghost function ArrayForm(place: Place, items: seq<Value>, depth: nat, delimiter: byte): Block
    decreases items, 1
  {
    if items == [] then
      match place
      case AtRoot => Block([91, 93], [])
      case Named(key) => Block(KeySpelling(key) + [58, 32, 91, 93], [])
      case InList => Block(Brackets(0, false, delimiter) + [58], [])
    else if !place.InList? && Uniform(items) then TableForm(place, items, depth, delimiter)
    else if AllScalars(items) then Block(Lead(place) + Brackets(|items|, false, delimiter) + [58, 32] + Row(items, delimiter), [])
    else Block(Lead(place) + Brackets(|items|, false, delimiter) + [58], ListForm(items, depth + 1, delimiter))
  }

  ghost function ListForm(items: seq<Value>, depth: nat, delimiter: byte): seq<OutLine>
    decreases items, 0
  {
    if items == [] then []
    else
      var first := ItemForm(items[0], depth, delimiter);
      [OutLine(depth, first.head)] + first.tail + ListForm(items[1..], depth, delimiter)
  }

  /** A list item: behind a dash its scalar, its array, or its first entry, the others two levels below the list. */
  ghost function ItemForm(item: Value, depth: nat, delimiter: byte): Block
    decreases item, 3
  {
    match item
    case Seq(items) =>
      var block := ArrayForm(InList, items, depth, delimiter);
      Block([45, 32] + block.head, block.tail)
    case Dict(pairs) =>
      if pairs == [] then Block([45], [])
      else
        var first := EntryForm(pairs[0], depth + 1, delimiter);
        Block([45, 32] + first.head, first.tail + EntriesForm(pairs[1..], depth + 1, delimiter))
    case _ => Block([45, 32] + ScalarSpelling(item, delimiter), [])
  }

  /** An entry: its scalar behind `: `, its array, a keyed table, or its own entries one level below. */
  ghost function EntryForm(pair: Pair, depth: nat, delimiter: byte): Block
    decreases pair, 4
  {
    match pair.value
    case Seq(items) => ArrayForm(Named(pair.key), items, depth, delimiter)
    case Dict(pairs) =>
      if KeyedRows(pairs) then KeyedForm(Named(pair.key), pairs, depth, delimiter)
      else Block(KeySpelling(pair.key) + [58], EntriesForm(pairs, depth + 1, delimiter))
    case _ => Block(KeySpelling(pair.key) + [58, 32] + BehindKey(pair.value, delimiter), [])
  }

  ghost function EntriesForm(pairs: seq<Pair>, depth: nat, delimiter: byte): seq<OutLine>
    decreases pairs, 0
  {
    if pairs == [] then []
    else
      var first := EntryForm(pairs[0], depth, delimiter);
      [OutLine(depth, first.head)] + first.tail + EntriesForm(pairs[1..], depth, delimiter)
  }

  /** A document: an array, a keyed table, entries at depth 0, or a scalar. */
  ghost function DocumentForm(value: Value, delimiter: byte): seq<OutLine> {
    match value
    case Seq(items) =>
      var block := ArrayForm(AtRoot, items, 0, delimiter);
      [OutLine(0, block.head)] + block.tail
    case Dict(pairs) =>
      if KeyedRows(pairs) then
        var block := KeyedForm(AtRoot, pairs, 0, delimiter);
        [OutLine(0, block.head)] + block.tail
      else EntriesForm(pairs, 0, delimiter)
    case _ => [OutLine(0, ScalarSpelling(value, delimiter))]
  }

  // ----- the encoder writes it -----------------------------------------------------------------------

  lemma {:induction false} LeadIs(place: Place)
    ensures KeyPart(place) == Lead(place)
  {
    match place case Named(key) => KeyIsSpelled(key); case _ =>
  }

  lemma {:induction false} BracketsAre(n: nat, keyed: bool, delimiter: byte)
    ensures [LBRACKET] + (BracketText(n, keyed, delimiter) + [RBRACKET]) == Brackets(n, keyed, delimiter)
  {
    NumeralIs(n);
    hide DecimalText, Numeral;
  }

  lemma {:induction false} Joined(lead: bytes, text: bytes, rest: bytes)
    ensures lead + ([LBRACKET] + (text + ([RBRACKET] + rest))) == lead + ([LBRACKET] + (text + [RBRACKET])) + rest
  {
  }

  lemma {:induction false} HeaderIs(place: Place, n: nat, keyed: bool, delimiter: byte)
    ensures HeaderText(place, n, keyed, delimiter, []) == Lead(place) + Brackets(n, keyed, delimiter) + [58]
  {
    LeadIs(place);
    BracketsAre(n, keyed, delimiter);
    hide BracketText, Brackets, Lead, KeyPart;
    Joined(Lead(place), BracketText(n, keyed, delimiter), [58]);
    assert BracedGroup([], delimiter) + [COLON] == [58];
  }

  lemma {:induction false} BracedHeaderIs(place: Place, n: nat, keyed: bool, delimiter: byte, nodes: seq<ShapeNode>, names: bytes)
    requires nodes != [] && GroupText(nodes, delimiter) == names
    ensures HeaderText(place, n, keyed, delimiter, nodes) == Lead(place) + Brackets(n, keyed, delimiter) + [123] + names + [125, 58]
  {
    LeadIs(place);
    BracketsAre(n, keyed, delimiter);
    hide BracketText, Brackets, Lead, KeyPart, GroupText;
    var rest := [123] + names + [125, 58];
    Joined(Lead(place), BracketText(n, keyed, delimiter), rest);
    assert BracedGroup(nodes, delimiter) + [COLON] == rest;
    assert Lead(place) + Brackets(n, keyed, delimiter) + rest == Lead(place) + Brackets(n, keyed, delimiter) + [123] + names + [125, 58];
  }

  lemma {:induction false} RowTextIs(rows: seq<Value>, columns: seq<Pair>, depth: nat, nodes: seq<ShapeNode>, row: Value, delimiter: byte)
    requires rows != [] && UniformColumns(rows, columns) && ShapeColumns(rows, columns, depth) == Shaped(nodes)
    requires RowText(nodes, row, delimiter).Some?
    ensures RowText(nodes, row, delimiter).value == RowOf(Leaves(rows, columns, row), delimiter)
  {
    ShapeCells(rows, columns, depth, nodes, row);
    hide Leaves, RowCells, UniformColumns;
    RowIs(RowCells(nodes, row).value, delimiter);
  }

  lemma {:induction false} TableRowsAre(
      rows: seq<Value>, columns: seq<Pair>, depth: nat, nodes: seq<ShapeNode>, some: seq<Value>, at: nat, delimiter: byte)
    requires rows != [] && UniformColumns(rows, columns) && ShapeColumns(rows, columns, depth) == Shaped(nodes)
    requires TableLines(nodes, some, at, delimiter).Some?
    ensures TableLines(nodes, some, at, delimiter).value == RowLines(rows, columns, some, at, delimiter)
    decreases |some|
  {
    hide RowText, Leaves, RowOf, UniformColumns, ShapeColumns;
    if some != [] {
      RowTextIs(rows, columns, depth, nodes, some[0], delimiter);
      TableRowsAre(rows, columns, depth, nodes, some[1..], at, delimiter);
    }
  }

  lemma {:induction false} KeyedRowsAre(
      rows: seq<Value>, columns: seq<Pair>, depth: nat, nodes: seq<ShapeNode>, some: seq<Pair>, at: nat, delimiter: byte)
    requires rows != [] && UniformColumns(rows, columns) && ShapeColumns(rows, columns, depth) == Shaped(nodes)
    requires KeyedLines(nodes, some, at, delimiter).Some?
    ensures KeyedLines(nodes, some, at, delimiter).value == KeyedRowLines(rows, columns, some, at, delimiter)
    decreases |some|
  {
    hide RowText, Leaves, RowOf, UniformColumns, ShapeColumns, KeyText, KeySpelling;
    if some != [] {
      var row := RowOf(Leaves(rows, columns, some[0].value), delimiter);
      RowTextIs(rows, columns, depth, nodes, some[0].value, delimiter);
      KeyIsSpelled(some[0].key);
      KeyedRowsAre(rows, columns, depth, nodes, some[1..], at, delimiter);
      assert KeySpelling(some[0].key) + ([COLON, SPACE] + row) == KeySpelling(some[0].key) + [58, 32] + row;
    }
  }

  predicate AllKeyed(items: seq<Value>) {
    forall i :: 0 <= i < |items| ==> Wellkeyed(items[i])
  }

  lemma {:induction false} TableIs(place: Place, rows: seq<Value>, nesting: nat, depth: nat, delimiter: byte, nodes: seq<ShapeNode>)
    requires rows != [] && AllKeyed(rows) && BuildShape(rows, nesting) == Shaped(nodes) && TableBlock(place, rows, nodes, depth, delimiter).Some?
    ensures Uniform(rows) && TableBlock(place, rows, nodes, depth, delimiter).value == TableForm(place, rows, depth, delimiter)
  {
    ShapedIffUniform(rows, nesting);
    UniformRows(rows);
    assert ShapeColumns(rows, rows[0].pairs, nesting) == Shaped(nodes);
    hide Uniform, UniformColumns, ShapeColumns, BuildShape, Names, RowLines, TableLines, GroupText, HeaderText, Brackets, Lead;
    ShapeNames(rows, rows[0].pairs, nesting, delimiter, nodes);
    BracedHeaderIs(place, |rows|, false, delimiter, nodes, Names(rows, rows[0].pairs, delimiter));
    TableRowsAre(rows, rows[0].pairs, nesting, nodes, rows, depth + 1, delimiter);
  }

  lemma {:induction false} KeyedIs(place: Place, pairs: seq<Pair>, nesting: nat, depth: nat, delimiter: byte, nodes: seq<ShapeNode>)
    requires AllKeyed(ValuesOf(pairs)) && KeyedShape(pairs, nesting) == Shaped(nodes) && KeyedBlock(place, pairs, nodes, depth, delimiter).Some?
    ensures KeyedRows(pairs) && KeyedBlock(place, pairs, nodes, depth, delimiter).value == KeyedForm(place, pairs, depth, delimiter)
  {
    var rows := ValuesOf(pairs);
    ShapedIffUniform(rows, nesting);
    UniformRows(rows);
    assert ShapeColumns(rows, rows[0].pairs, nesting) == Shaped(nodes);
    hide Uniform, UniformColumns, ShapeColumns, BuildShape, Names, KeyedRowLines, KeyedLines, GroupText, HeaderText, Brackets, Lead, KeyedShape, ValuesOf;
    ShapeNames(rows, rows[0].pairs, nesting, delimiter, nodes);
    BracedHeaderIs(place, |pairs|, true, delimiter, nodes, Names(rows, rows[0].pairs, delimiter));
    KeyedRowsAre(rows, rows[0].pairs, nesting, nodes, pairs, depth + 1, delimiter);
  }

  /** There is no keyed table exactly when the entries are no uniform rows, unless the limit is hit. */
  lemma {:induction false} NotKeyed(pairs: seq<Pair>, nesting: nat)
    requires AllKeyed(ValuesOf(pairs)) && KeyedShape(pairs, nesting).NoShape?
    ensures !KeyedRows(pairs)
  {
    var rows := ValuesOf(pairs);
    if |pairs| >= 2 {
      if forall i :: 0 <= i < |pairs| ==> pairs[i].value.Dict? {
        ShapedIffUniform(rows, nesting);
      } else {
        var i :| 0 <= i < |pairs| && !pairs[i].value.Dict?;
        assert !rows[i].Dict?;
      }
    }
  }

  predicate PairsKeyed(pairs: seq<Pair>) {
    DistinctKeys(pairs) && forall i :: 0 <= i < |pairs| ==> Wellkeyed(pairs[i].value)
  }

  lemma {:induction false} PairsKeyedTail(pairs: seq<Pair>)
    requires pairs != [] && PairsKeyed(pairs)
    ensures Wellkeyed(pairs[0].value) && PairsKeyed(pairs[1..]) && AllKeyed(ValuesOf(pairs))
  {
    assert forall i :: 0 <= i < |pairs| - 1 ==> pairs[1..][i] == pairs[i + 1];
  }

  lemma {:induction false} ArrayIs(place: Place, items: seq<Value>, depth: nat, nesting: nat, delimiter: byte)
    requires AllKeyed(items) && ArrayBlock(place, items, depth, nesting, delimiter).Some?
    ensures ArrayBlock(place, items, depth, nesting, delimiter).value == ArrayForm(place, items, depth, delimiter)
    decreases items, 1
  {
    hide Brackets, Lead, HeaderText, TableBlock, TableForm, BuildShape, Uniform, KeySpelling, KeyText, CellTexts, Row, Wellkeyed;
    if items == [] {
      EmptyIs(place, delimiter);
    } else {
      ShapeTells(items, nesting);
      HeaderIs(place, |items|, false, delimiter);
      if !place.InList? && BuildShape(items, nesting).Shaped? {
        TableIs(place, items, nesting, depth, delimiter, BuildShape(items, nesting).nodes);
      } else if AllScalars(items) {
        RowIs(items, delimiter);
        InlineIs(Lead(place) + Brackets(|items|, false, delimiter), Row(items, delimiter));
      } else {
        ListIs(items, depth + 1, nesting + 1, delimiter);
      }
    }
  }

  lemma {:induction false} InlineIs(lead: bytes, row: bytes)
    ensures lead + [58] + ([SPACE] + row) == lead + [58, 32] + row
  {
  }

  lemma {:induction false} ShapeTells(items: seq<Value>, nesting: nat)
    requires items != [] && AllKeyed(items)
    ensures BuildShape(items, nesting).Shaped? ==> Uniform(items)
    ensures BuildShape(items, nesting).NoShape? ==> !Uniform(items)
  {
    ShapedIffUniform(items, nesting);
  }

  lemma {:induction false} EmptyIs(place: Place, delimiter: byte)
    ensures EmptyBlock(place, delimiter) == ArrayForm(place, [], 0, delimiter)
  {
    match place
    case Named(key) => KeyIsSpelled(key);
    case _ => HeaderIs(place, 0, false, delimiter);
  }

  lemma {:induction false} ListIs(items: seq<Value>, depth: nat, nesting: nat, delimiter: byte)
    requires AllKeyed(items) && ItemsLines(items, depth, nesting, delimiter).Some?
    ensures ItemsLines(items, depth, nesting, delimiter).value == ListForm(items, depth, delimiter)
    decreases items, 0
  {
    if items != [] {
      assert forall i :: 0 <= i < |items| - 1 ==> items[1..][i] == items[i + 1];
      ItemIs(items[0], depth, nesting, delimiter);
      ListIs(items[1..], depth, nesting, delimiter);
      hide ItemBlock, ItemForm, Wellkeyed;
    }
  }

  lemma {:induction false} ItemIs(item: Value, depth: nat, nesting: nat, delimiter: byte)
    requires Wellkeyed(item) && ItemBlock(item, depth, nesting, delimiter).Some?
    ensures ItemBlock(item, depth, nesting, delimiter).value == ItemForm(item, depth, delimiter)
    decreases item, 3
  {
    match item
    case Seq(items) =>
      ArrayIs(InList, items, depth, nesting + 1, delimiter);
    case Dict(pairs) =>
      if pairs != [] {
        assert PairsKeyed(pairs);
        PairsKeyedTail(pairs);
        EntryIs(pairs[0], depth + 1, delimiter);
        EntriesAre(pairs[1..], depth + 1, delimiter);
      }
    case _ => ScalarIs(item, delimiter);
  }

  lemma {:induction false} EntryIs(pair: Pair, depth: nat, delimiter: byte)
    requires Wellkeyed(pair.value) && PairBlock(pair, depth, delimiter).Some?
    ensures PairBlock(pair, depth, delimiter).value == EntryForm(pair, depth, delimiter)
    decreases pair, 4
  {
    KeyIsSpelled(pair.key);
    match pair.value
    case Seq(items) =>
      assert PairBlock(pair, depth, delimiter) == ArrayBlock(Named(pair.key), items, depth, 0, delimiter);
      ArrayIs(Named(pair.key), items, depth, 0, delimiter);
    case Dict(pairs) =>
      assert PairsKeyed(pairs);
      assert PairBlock(pair, depth, delimiter) == ObjectBlock(pair.key, pairs, depth, delimiter);
      ObjectIs(pair.key, pairs, depth, delimiter);
    case _ =>
      ScalarIs(pair.value, delimiter);
      hide EntryScalarText, BehindKey, KeyText, KeySpelling;
      assert KeySpelling(pair.key) + ([COLON, SPACE] + BehindKey(pair.value, delimiter)) == KeySpelling(pair.key) + [58, 32] + BehindKey(pair.value, delimiter);
  }

  lemma {:induction false} ObjectIs(key: bytes, pairs: seq<Pair>, depth: nat, delimiter: byte)
    requires PairsKeyed(pairs) && ObjectBlock(key, pairs, depth, delimiter).Some?
    ensures KeyedRows(pairs) ==> ObjectBlock(key, pairs, depth, delimiter).value == KeyedForm(Named(key), pairs, depth, delimiter)
    ensures !KeyedRows(pairs) ==> ObjectBlock(key, pairs, depth, delimiter).value == Block(KeySpelling(key) + [58], EntriesForm(pairs, depth + 1, delimiter))
    decreases pairs, 1
  {
    KeyIsSpelled(key);
    hide KeyedShape, KeyedRows, KeyedForm, KeyedBlock, KeyText, KeySpelling;
    if KeyedShape(pairs, depth).Shaped? {
      KeyedIs(Named(key), pairs, depth, depth, delimiter, KeyedShape(pairs, depth).nodes);
    } else {
      NotKeyed(pairs, depth);
      EntriesAre(pairs, depth + 1, delimiter);
    }
  }

  lemma {:induction false} EntriesAre(pairs: seq<Pair>, depth: nat, delimiter: byte)
    requires PairsKeyed(pairs) && EntriesLines(pairs, depth, delimiter).Some?
    ensures EntriesLines(pairs, depth, delimiter).value == EntriesForm(pairs, depth, delimiter)
    decreases pairs, 0
  {
    if pairs != [] {
      PairsKeyedTail(pairs);
      hide PairsKeyed, PairBlock, EntryForm, Wellkeyed;
      EntryIs(pairs[0], depth, delimiter);
      EntriesAre(pairs[1..], depth, delimiter);
    }
  }

  /** Whatever the encoder writes is the canonical form: nothing but the value decides it. */
  lemma {:induction false} WrittenCanonically(value: Value, delimiter: byte)
    requires Wellkeyed(value) && RootLines(value, delimiter).Some?
    ensures RootLines(value, delimiter).value == DocumentForm(value, delimiter)
  {
    match value
    case Seq(items) => ArrayIs(AtRoot, items, 0, 0, delimiter);
    case Dict(pairs) =>
      assert PairsKeyed(pairs);
      hide KeyedShape, KeyedRows, KeyedForm, KeyedBlock, EntriesLines, EntriesForm, PairsKeyed;
      if KeyedShape(pairs, 0).Shaped? {
        KeyedIs(AtRoot, pairs, 0, 0, delimiter, KeyedShape(pairs, 0).nodes);
      } else {
        NotKeyed(pairs, 0);
        EntriesAre(pairs, 0, delimiter);
      }
    case _ => ScalarIs(value, delimiter);
  }

  // ----- the text -------------------------------------------------------------------------------------

  /** The lines, each behind its indentation, with line feeds between them. */
  function TextForm(lines: seq<OutLine>, width: nat): bytes {
    if lines == [] then []
    else if |lines| == 1 then Blanks(lines[0].depth * width) + lines[0].content
    else TextForm(lines[..|lines| - 1], width) + [10] + Blanks(lines[|lines| - 1].depth * width) + lines[|lines| - 1].content
  }

  function Blanks(n: nat): bytes {
    seq(n, _ => 32)
  }

  lemma {:induction false} FlatSnoc(lines: seq<OutLine>, last: OutLine, width: nat)
    ensures Flat(lines + [last], width) == Flat(lines, width) + LineText(last, width)
    decreases |lines|
  {
    hide LineText;
    if lines == [] {
      assert ([last])[1..] == [];
      assert LineText(last, width) + Flat([], width) == Flat([], width) + LineText(last, width);
    } else {
      FlatSnoc(lines[1..], last, width);
      assert (lines + [last])[1..] == lines[1..] + [last];
      assert LineText(lines[0], width) + (Flat(lines[1..], width) + LineText(last, width)) == Flat(lines, width) + LineText(last, width);
    }
  }

  lemma {:induction false} FlatIs(lines: seq<OutLine>, width: nat)
    requires lines != []
    ensures Flat(lines, width) == TextForm(lines, width) + [10]
    decreases |lines|
  {
    var front, last := lines[..|lines| - 1], lines[|lines| - 1];
    assert lines == front + [last];
    FlatSnoc(front, last, width);
    assert Blanks(last.depth * width) == Spaces(last.depth * width);
    hide Blanks;
    if front == [] {
      assert lines == [last] && Flat(front, width) == [];
    } else {
      FlatIs(front, width);
    }
  }

  /** The document is that text. */
  lemma {:induction false} TextIs(lines: seq<OutLine>, width: nat)
    ensures Encoded(lines, width) == TextForm(lines, width)
  {
    if lines != [] {
      FlatIs(lines, width);
      var text := TextForm(lines, width);
      assert (text + [10])[..|text|] == text;
    }
  }
}
