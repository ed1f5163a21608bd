/** Byte stability: the value that comes back is written as the same text (src/encode.rs). */
module StableText {
  import opened Bytes
  import opened Scalar
  import opened Header
  import opened Values
  import opened Shapes
  import opened QuoteDecision
  import opened Render
  import opened ReadScalars
  import opened ReadGroups
  import opened ReadRows
  import opened Faithful
  import opened ReadBack
  import opened Stability
  import opened EncoderLimit
  import Cells
  import Scan

  // ----- scalars -----------------------------------------------------------------------------

  lemma {:induction false} DecimalOfValue(digits: bytes)
    requires IsIntegerBody(digits)
    ensures DecimalText(DecimalValue(digits)) == digits
    ensures |digits| > 1 || digits[0] != ZERO ==> DecimalValue(digits) > 0
  {
    var front, last := digits[..|digits| - 1], digits[|digits| - 1];
    if |digits| == 1 {
      assert front == [] && digits == [last];
    } else {
      assert AllDigits(front) && front[0] == digits[0];
      DecimalOfValue(front);
      assert digits == front + [last];
      DecimalShift(DecimalValue(front), DigitValue(last));
    }
  }

  lemma {:induction false} DecimalShift(n: nat, d: nat)
    requires n > 0 && d < 10
    ensures DecimalText(10 * n + d) == DecimalText(n) + [DigitText(d)]
  {
  }

  lemma {:induction false} IntTextOf(text: bytes)
    requires IsIntegerLiteral(text) && text != [MINUS, ZERO]
    ensures IntText(IntegerOf(text)) == text
  {
    var digits := WithoutMinus(text);
    DecimalOfValue(digits);
    if text[0] == MINUS {
      assert text == [MINUS] + digits;
      assert digits != [ZERO];
    }
  }

  lemma {:induction false} ScalarTextIsStable(value: Value, delimiter: byte)
    requires IsScalar(value) && ScalarFormed(value)
    ensures ScalarText(NormScalar(value), delimiter) == ScalarText(value, delimiter)
    ensures EntryScalarText(NormScalar(value), delimiter) == EntryScalarText(value, delimiter)
  {
    if value.Float? && IsIntegerLiteral(value.text) { IntTextOf(value.text); }
  }

  lemma {:induction false} CellTextsAreStable(cells: seq<Value>, delimiter: byte)
    requires AllScalars(cells) && forall i :: 0 <= i < |cells| ==> ScalarFormed(cells[i])
    ensures AllScalars(NormCells(cells)) && CellTexts(NormCells(cells), delimiter) == CellTexts(cells, delimiter)
  {
    hide ScalarText, ScalarFormed, NormScalar;
    forall i | 0 <= i < |cells| ensures IsScalar(NormScalar(cells[i])) { ScalarStaysScalar(cells[i]); }
    forall i | 0 <= i < |cells| ensures ScalarText(NormScalar(cells[i]), delimiter) == ScalarText(cells[i], delimiter) {
      ScalarTextIsStable(cells[i], delimiter);
    }
  }

  lemma {:induction false} ScalarStaysScalar(value: Value)
    requires IsScalar(value)
    ensures IsScalar(NormScalar(value))
  {
  }

  // ----- rows --------------------------------------------------------------------------------

  lemma {:induction false} RowIsStable(rows: seq<Value>, depth: nat, nodes: seq<ShapeNode>, i: nat, delimiter: byte)
    requires i < |rows| && AllProper(rows) && BuildShape(rows, depth) == Shaped(nodes)
    ensures RowText(nodes, Dict(ProjectPairs(nodes, rows[i])), delimiter) == RowText(nodes, rows[i], delimiter)
  {
    hide BuildShape, ProjectPairs, WellNamed, ShapeFits, ColumnsHold, Proper, RowCells, ScalarText, Cells.Join;
    ShapeIsNamed(rows, depth, nodes);
    RowHolds(rows, depth, nodes, i);
    ProjectedCells(nodes, rows[i]);
    var cells := RowCells(nodes, rows[i]).value;
    ShapedRowFits(rows, depth, nodes, i);
    assert Proper(rows[i]);
    RowCellsAreFormed(nodes, rows[i]);
    CellTextsAreStable(cells, delimiter);
  }

  lemma {:induction false} RowHolds(rows: seq<Value>, depth: nat, nodes: seq<ShapeNode>, i: nat)
    requires i < |rows| && BuildShape(rows, depth) == Shaped(nodes)
    ensures ColumnsHold(nodes, rows[i])
  {
    ShapedRowsFit(rows, depth, nodes, i);
  }

  lemma {:induction false} TableIsStable(rows: seq<Value>, nodes: seq<ShapeNode>, other: seq<Value>, depth: nat, delimiter: byte)
    requires |other| == |rows|
    requires forall i :: 0 <= i < |rows| ==> RowText(nodes, other[i], delimiter) == RowText(nodes, rows[i], delimiter)
    ensures TableLines(nodes, other, depth, delimiter) == TableLines(nodes, rows, depth, delimiter)
  {
    hide RowText;
    if rows != [] { TableIsStable(rows[1..], nodes, other[1..], depth, delimiter); }
  }

  lemma {:induction false} KeyedIsStable(pairs: seq<Pair>, nodes: seq<ShapeNode>, other: seq<Pair>, depth: nat, delimiter: byte)
    requires |other| == |pairs| && forall i :: 0 <= i < |pairs| ==> other[i].key == pairs[i].key
    requires forall i :: 0 <= i < |pairs| ==> RowText(nodes, other[i].value, delimiter) == RowText(nodes, pairs[i].value, delimiter)
    ensures KeyedLines(nodes, other, depth, delimiter) == KeyedLines(nodes, pairs, depth, delimiter)
  {
    hide RowText;
    if pairs != [] { KeyedIsStable(pairs[1..], nodes, other[1..], depth, delimiter); }
  }

  // ----- shapes ---------------------------------------------------------------------------------

  lemma {:induction false} KeyedShapeIsStable(pairs: seq<Pair>, nodes: seq<ShapeNode>, depth: nat)
    requires ProperPairs(pairs) && KeyedShape(pairs, depth) == Shaped(nodes)
    ensures KeyedShape(ProjectEach(nodes, pairs), depth) == Shaped(nodes)
  {
    var rows := ValuesOf(pairs);
    forall i | 0 <= i < |rows| ensures Proper(rows[i]) { assert ProperPair(pairs[i]); }
    ProjectedShape(nodes, rows, depth);
    assert ValuesOf(ProjectEach(nodes, pairs)) == ProjectRows(nodes, rows);
  }

  lemma {:induction false} KeyedBlockIsStable(place: Place, pairs: seq<Pair>, nodes: seq<ShapeNode>, depth: nat, delimiter: byte)
    requires ProperPairs(pairs) && KeyedShape(pairs, depth) == Shaped(nodes)
    ensures KeyedBlock(place, ProjectEach(nodes, pairs), nodes, depth, delimiter) == KeyedBlock(place, pairs, nodes, depth, delimiter)
  {
    var rows := ValuesOf(pairs);
    forall i | 0 <= i < |rows| ensures Proper(rows[i]) { assert ProperPair(pairs[i]); }
    hide ProjectPairs, RowText, BuildShape, HeaderText, KeyedLines, Proper;
    forall i | 0 <= i < |pairs|
      ensures RowText(nodes, ProjectEach(nodes, pairs)[i].value, delimiter) == RowText(nodes, pairs[i].value, delimiter)
    {
      RowIsStable(rows, depth, nodes, i, delimiter);
    }
    KeyedIsStable(pairs, nodes, ProjectEach(nodes, pairs), depth + 1, delimiter);
  }

  lemma {:induction false} NormItemsSame(items: seq<Value>)
    requires AllProper(items)
    ensures AllSame(NormItems(items), items) && AllProper(NormItems(items))
  {
    NormItemsAreSame(items);
    NormItemsAreProper(items);
    forall i | 0 <= i < |items| ensures Wellkeyed(NormItems(items)[i]) && Wellkeyed(items[i]) {
      ProperIsKeyed(NormItems(items)[i]);
      assert Proper(items[i]);
      ProperIsKeyed(items[i]);
    }
  }

  /** Values that nest as little after normalising: discovery cannot hit the limit on them either. */
  lemma {:induction false} SameRowsWithin(a: seq<Value>, b: seq<Value>, depth: nat)
    requires AllSame(a, b) && RowsWithin(b, depth)
    ensures RowsWithin(a, depth)
  {
    forall i | 0 <= i < |a| ensures Height(a[i]) <= Height(b[i]) { SameHeight(a[i], b[i]); }
  }

  /** Rows without a shape have none after normalising, unless the limit interferes. */
  lemma {:induction false} NoShapeIsStable(a: seq<Value>, b: seq<Value>, depth: nat)
    requires AllSame(a, b) && b != [] && BuildShape(b, depth).NoShape?
    requires !BuildShape(a, depth).TooDeep? || RowsWithin(b, depth)
    ensures BuildShape(a, depth).NoShape?
  {
    hide AllSame, BuildShape, RowsWithin;
    SameShapeKind(a, b, depth);
    if RowsWithin(b, depth) {
      SameRowsWithin(a, b, depth);
      SameCount(a, b);
      LowRowsFit(a, depth);
    }
  }

  lemma {:induction false} SameCount(a: seq<Value>, b: seq<Value>)
    requires AllSame(a, b)
    ensures |a| == |b|
  {
  }

  lemma {:induction false} NormPairsKind(pairs: seq<Pair>)
    requires ProperPairs(pairs) && |pairs| < USIZE_LIMIT
    ensures |NormPairs(pairs)| == |pairs| && AllSame(ValuesOf(NormPairs(pairs)), ValuesOf(pairs))
    ensures forall i :: 0 <= i < |pairs| ==> (NormPairs(pairs)[i].value.Dict? <==> pairs[i].value.Dict?)
  {
    forall i | 0 <= i < |pairs|
      ensures NormPairs(pairs)[i].value.Dict? <==> pairs[i].value.Dict?
      ensures SameMap(NormPairs(pairs)[i].value, pairs[i].value)
      ensures Wellkeyed(NormPairs(pairs)[i].value) && Wellkeyed(pairs[i].value)
    {
      NormPairAt(pairs, i);
      assert ProperPair(pairs[i]);
      NormIsSame(pairs[i].value, false);
      NormIsProper(pairs[i].value, false);
      ProperIsKeyed(Norm(pairs[i].value, false));
      ProperIsKeyed(pairs[i].value);
    }
  }

  lemma {:induction false} NoKeyedShapeIsStable(pairs: seq<Pair>, depth: nat)
    requires ProperPairs(pairs) && |pairs| < USIZE_LIMIT && KeyedShape(pairs, depth).NoShape?
    requires !KeyedShape(NormPairs(pairs), depth).TooDeep? || depth + 1 + PairsHeight(pairs) <= Scan.MAX_NESTING_DEPTH
    ensures KeyedShape(NormPairs(pairs), depth).NoShape?
  {
    NormPairsKind(pairs);
    hide Norm, NormPairs, BuildShape, SameMap, Wellkeyed, ProperPair;
    if |pairs| >= 2 && forall i :: 0 <= i < |pairs| ==> pairs[i].value.Dict? {
      if depth + 1 + PairsHeight(pairs) <= Scan.MAX_NESTING_DEPTH { PairsWithin(pairs, depth); }
      NoShapeIsStable(ValuesOf(NormPairs(pairs)), ValuesOf(pairs), depth);
    }
  }

  lemma {:induction false} PairsWithin(pairs: seq<Pair>, depth: nat)
    requires depth + 1 + PairsHeight(pairs) <= Scan.MAX_NESTING_DEPTH
    ensures RowsWithin(ValuesOf(pairs), depth)
  {
    forall i | 0 <= i < |pairs| ensures Height(pairs[i].value) <= PairsHeight(pairs) { EntryHeight(pairs, i); }
  }

  lemma {:induction false} ItemsWithin(items: seq<Value>)
    requires 1 + ItemsHeight(items) <= Scan.MAX_NESTING_DEPTH
    ensures RowsWithin(items, 0)
  {
    forall i | 0 <= i < |items| ensures Height(items[i]) <= ItemsHeight(items) { ItemHeight(items, i); }
  }

  // ----- the recursive structure ---------------------------------------------------------------------

  /** Writing again is not cut off by the limit: it succeeded, or the value nests little enough. */
  predicate Again(second: bool, depth: nat, height: nat) {
    second || depth + height <= Scan.MAX_NESTING_DEPTH
  }

  lemma {:induction false} PairIsStable(pair: Pair, depth: nat, delimiter: byte, block: Block)
    requires ProperPair(pair) && PairBlock(pair, depth, delimiter) == Some(block)
    requires Again(PairBlock(NormPair(pair), depth, delimiter).Some?, depth, Height(pair.value))
    ensures PairBlock(NormPair(pair), depth, delimiter) == Some(block)
    decreases pair, 4
  {
    match pair.value
    case Seq(items) =>
      ProperSeq(items);
      ArrayPairIsStable(pair, items, depth, delimiter, block);
    case Dict(pairs) =>
      ProperDict(pairs);
      ObjectPairIsStable(pair, pairs, depth, delimiter, block);
    case _ =>
      hide EntryScalarText, KeyText, NormScalar;
      ScalarStaysScalar(pair.value);
      ScalarTextIsStable(pair.value, delimiter);
  }

  lemma {:induction false} ArrayPairIsStable(pair: Pair, items: seq<Value>, depth: nat, delimiter: byte, block: Block)
    requires pair.value == Seq(items) && AllProper(items) && PairBlock(pair, depth, delimiter) == Some(block)
    requires Again(PairBlock(NormPair(pair), depth, delimiter).Some?, depth, Height(pair.value))
    ensures PairBlock(NormPair(pair), depth, delimiter) == Some(block)
    decreases items, 3
  {
    var normed := Norm(Seq(items), false).items;
    assert PairBlock(pair, depth, delimiter) == ArrayBlock(Named(pair.key), items, depth, 0, delimiter);
    assert PairBlock(NormPair(pair), depth, delimiter) == EntryBlock(pair.key, Seq(normed), depth, delimiter);
    assert EntryBlock(pair.key, Seq(normed), depth, delimiter) == ArrayBlock(Named(pair.key), normed, depth, 0, delimiter);
    hide ArrayBlock, PairBlock, Norm, Proper;
    ArrayIsStable(Named(pair.key), items, depth, 0, delimiter, block);
  }

  lemma {:induction false} ObjectPairIsStable(pair: Pair, pairs: seq<Pair>, depth: nat, delimiter: byte, block: Block)
    requires pair.value == Dict(pairs) && ProperPairs(pairs) && |pairs| < USIZE_LIMIT && PairBlock(pair, depth, delimiter) == Some(block)
    requires Again(PairBlock(NormPair(pair), depth, delimiter).Some?, depth, Height(pair.value))
    ensures PairBlock(NormPair(pair), depth, delimiter) == Some(block)
    decreases pairs, 3
  {
    var normed := Norm(Dict(pairs), false).pairs;
    assert EntryBlock(pair.key, pair.value, depth, delimiter) == ObjectBlock(pair.key, pairs, depth, delimiter);
    assert EntryBlock(pair.key, Dict(normed), depth, delimiter) == ObjectBlock(pair.key, normed, depth, delimiter);
    assert PairBlock(pair, depth, delimiter) == ObjectBlock(pair.key, pairs, depth, delimiter);
    assert PairBlock(NormPair(pair), depth, delimiter) == ObjectBlock(pair.key, normed, depth, delimiter);
    assert Height(pair.value) == 1 + PairsHeight(pairs);
    hide PairBlock, EntryBlock, ObjectBlock, Norm, ProperPair, KeyedShape, Height;
    if KeyedShape(pairs, depth).Shaped? {
      KeyedReturnsWhen(pairs, depth, delimiter, true);
      KeyedObjectIsStable(pair.key, pairs, KeyedShape(pairs, depth).nodes, depth, delimiter);
    } else {
      ObjectShape(pair.key, pairs, depth, delimiter);
      PlainReturnsWhen(pairs, depth, delimiter, true);
      NestedIsStable(pair.key, pairs, depth, delimiter, block);
    }
  }

  lemma {:induction false} ObjectShape(key: bytes, pairs: seq<Pair>, depth: nat, delimiter: byte)
    requires ObjectBlock(key, pairs, depth, delimiter).Some?
    ensures !KeyedShape(pairs, depth).TooDeep?
  {
    hide KeyedShape, KeyedBlock, EntriesLines;
  }

  lemma {:induction false} KeyedObjectIsStable(key: bytes, pairs: seq<Pair>, nodes: seq<ShapeNode>, depth: nat, delimiter: byte)
    requires ProperPairs(pairs) && KeyedShape(pairs, depth) == Shaped(nodes)
    ensures ObjectBlock(key, ProjectEach(nodes, pairs), depth, delimiter) == ObjectBlock(key, pairs, depth, delimiter)
  {
    hide KeyedShape, KeyedBlock, ProjectEach, ProperPair;
    KeyedShapeIsStable(pairs, nodes, depth);
    KeyedBlockIsStable(Named(key), pairs, nodes, depth, delimiter);
  }

  lemma {:induction false} NestedIsStable(key: bytes, pairs: seq<Pair>, depth: nat, delimiter: byte, block: Block)
    requires ProperPairs(pairs) && |pairs| < USIZE_LIMIT && KeyedShape(pairs, depth).NoShape?
    requires ObjectBlock(key, pairs, depth, delimiter) == Some(block)
    requires Again(ObjectBlock(key, NormPairs(pairs), depth, delimiter).Some?, depth, 1 + PairsHeight(pairs))
    ensures ObjectBlock(key, NormPairs(pairs), depth, delimiter) == Some(block)
    decreases pairs, 2
  {
    hide KeyedShape, KeyedBlock, EntriesLines, NormPairs, PairsHeight, ProperPair, KeyText;
    NoKeyedShapeIsStable(pairs, depth);
    EntriesAreStable(pairs, depth + 1, delimiter, EntriesLines(pairs, depth + 1, delimiter).value);
  }

  lemma {:induction false} EntriesAreStable(pairs: seq<Pair>, depth: nat, delimiter: byte, lines: seq<OutLine>)
    requires ProperPairs(pairs) && EntriesLines(pairs, depth, delimiter) == Some(lines)
    requires Again(EntriesLines(NormPairs(pairs), depth, delimiter).Some?, depth, PairsHeight(pairs))
    ensures EntriesLines(NormPairs(pairs), depth, delimiter) == Some(lines)
    decreases pairs, 0
  {
    if pairs != [] {
      hide PairBlock, NormPair, ProperPair, Height;
      ProperStep(pairs);
      assert NormPairs(pairs)[0] == NormPair(pairs[0]) && NormPairs(pairs)[1..] == NormPairs(pairs[1..]);
      PairHeightIs(pairs[0]);
      PairIsStable(pairs[0], depth, delimiter, PairBlock(pairs[0], depth, delimiter).value);
      EntriesAreStable(pairs[1..], depth, delimiter, EntriesLines(pairs[1..], depth, delimiter).value);
    }
  }

  lemma {:induction false} PairHeightIs(pair: Pair)
    ensures PairHeight(pair) == Height(pair.value)
  {
  }

  lemma {:induction false} ArrayIsStable(place: Place, items: seq<Value>, depth: nat, nesting: nat, delimiter: byte, block: Block)
    requires AllProper(items) && ArrayBlock(place, items, depth, nesting, delimiter) == Some(block) && (place.InList? || nesting == 0)
    requires Again(ArrayBlock(place, Norm(Seq(items), place.InList?).items, depth, nesting, delimiter).Some?, depth, 1 + ItemsHeight(items))
    ensures ArrayBlock(place, Norm(Seq(items), place.InList?).items, depth, nesting, delimiter) == Some(block)
    decreases items, 2
  {
    if items == [] {
      assert Norm(Seq(items), place.InList?).items == [];
    } else {
      var shape := ArrayShape(place, items, nesting);
      assert !shape.TooDeep?;
      ArrayReturnsWhen(place, items, nesting, delimiter, true);
      assert ArrayForm(place, items, nesting, delimiter).nodes == if shape.Shaped? then shape.nodes else [];
      hide ArrayBlock, Norm, ArrayForm, BuildShape, Proper;
      if shape.Shaped? {
        TabularIsStable(place, items, shape.nodes, depth, nesting, delimiter);
      } else if AllScalars(items) {
        InlineIsStable(place, items, depth, nesting, delimiter);
      } else {
        ListIsStable(place, items, depth, nesting, delimiter, block);
      }
    }
  }

  lemma {:induction false} TabularIsStable(place: Place, items: seq<Value>, nodes: seq<ShapeNode>, depth: nat, nesting: nat, delimiter: byte)
    requires AllProper(items) && items != [] && ArrayShape(place, items, nesting) == Shaped(nodes)
    ensures ArrayBlock(place, ProjectRows(nodes, items), depth, nesting, delimiter) == ArrayBlock(place, items, depth, nesting, delimiter)
  {
    hide BuildShape, RowText, ProjectPairs, HeaderText, TableLines, Proper;
    ProjectedShape(nodes, items, nesting);
    forall i | 0 <= i < |items| ensures RowText(nodes, ProjectRows(nodes, items)[i], delimiter) == RowText(nodes, items[i], delimiter) {
      RowIsStable(items, nesting, nodes, i, delimiter);
    }
    TableIsStable(items, nodes, ProjectRows(nodes, items), depth + 1, delimiter);
  }

  lemma {:induction false} NormOfScalars(items: seq<Value>)
    requires AllScalars(items)
    ensures NormItems(items) == NormCells(items)
  {
    if items != [] {
      assert IsScalar(items[0]);
      NormOfScalars(items[1..]);
    }
  }

  lemma {:induction false} InlineIsStable(place: Place, items: seq<Value>, depth: nat, nesting: nat, delimiter: byte)
    requires AllProper(items) && AllScalars(items) && items != []
    ensures ArrayBlock(place, NormItems(items), depth, nesting, delimiter) == ArrayBlock(place, items, depth, nesting, delimiter)
  {
    forall i | 0 <= i < |items| ensures ScalarFormed(items[i]) { assert Proper(items[i]) && IsScalar(items[i]); }
    NormOfScalars(items);
    CellTextsAreStable(items, delimiter);
    assert IsScalar(items[0]) && IsScalar(NormCells(items)[0]);
    hide CellTexts, HeaderText, Cells.Join, NormCells, NormItems, TableLines, ItemsLines;
  }

  lemma {:induction false} ListIsStable(place: Place, items: seq<Value>, depth: nat, nesting: nat, delimiter: byte, block: Block)
    requires AllProper(items) && items != [] && ArrayShape(place, items, nesting).NoShape? && !AllScalars(items)
    requires ArrayBlock(place, items, depth, nesting, delimiter) == Some(block) && (place.InList? || nesting == 0)
    requires Again(ArrayBlock(place, NormItems(items), depth, nesting, delimiter).Some?, depth, 1 + ItemsHeight(items))
    ensures ArrayBlock(place, NormItems(items), depth, nesting, delimiter) == Some(block)
    decreases items, 1
  {
    hide BuildShape, HeaderText, TableLines, ItemsLines, NormItems, ItemsHeight, Proper, CellTexts, Cells.Join, AllSame;
    NormItemsSame(items);
    SameScalars(NormItems(items), items);
    if !place.InList? {
      if 1 + ItemsHeight(items) <= Scan.MAX_NESTING_DEPTH { ItemsWithin(items); }
      NoShapeIsStable(NormItems(items), items, nesting);
    }
    ItemsAreStable(items, depth + 1, nesting + 1, delimiter, ItemsLines(items, depth + 1, nesting + 1, delimiter).value);
  }

  lemma {:induction false} ItemsAreStable(items: seq<Value>, depth: nat, nesting: nat, delimiter: byte, lines: seq<OutLine>)
    requires AllProper(items) && ItemsLines(items, depth, nesting, delimiter) == Some(lines)
    requires Again(ItemsLines(NormItems(items), depth, nesting, delimiter).Some?, depth, ItemsHeight(items))
    ensures ItemsLines(NormItems(items), depth, nesting, delimiter) == Some(lines)
    decreases items, 0
  {
    if items != [] {
      hide ItemBlock, Norm, Proper, Height;
      assert Proper(items[0]);
      assert NormItems(items)[0] == Norm(items[0], true) && NormItems(items)[1..] == NormItems(items[1..]);
      ItemIsStable(items[0], depth, nesting, delimiter, ItemBlock(items[0], depth, nesting, delimiter).value);
      ItemsAreStable(items[1..], depth, nesting, delimiter, ItemsLines(items[1..], depth, nesting, delimiter).value);
    }
  }

  lemma {:induction false} ItemIsStable(item: Value, depth: nat, nesting: nat, delimiter: byte, block: Block)
    requires Proper(item) && ItemBlock(item, depth, nesting, delimiter) == Some(block)
    requires Again(ItemBlock(Norm(item, true), depth, nesting, delimiter).Some?, depth, Height(item))
    ensures ItemBlock(Norm(item, true), depth, nesting, delimiter) == Some(block)
    decreases item, 3
  {
    match item
    case Seq(items) =>
      ProperSeq(items);
      var normed := Norm(item, true).items;
      assert Norm(item, true) == Seq(normed);
      ArrayIsStable(InList, items, depth, nesting + 1, delimiter, ArrayBlock(InList, items, depth, nesting + 1, delimiter).value);
    case Dict(pairs) =>
      if pairs != [] {
        ProperDict(pairs);
        ObjectItemIsStable(pairs, depth, nesting, delimiter, block);
      }
    case _ =>
      hide ScalarText, NormScalar;
      ScalarStaysScalar(item);
      ScalarTextIsStable(item, delimiter);
  }

  lemma {:induction false} ObjectItemIsStable(pairs: seq<Pair>, depth: nat, nesting: nat, delimiter: byte, block: Block)
    requires ProperPairs(pairs) && pairs != [] && ItemBlock(Dict(pairs), depth, nesting, delimiter) == Some(block)
    requires Again(ItemBlock(Norm(Dict(pairs), true), depth, nesting, delimiter).Some?, depth, Height(Dict(pairs)))
    ensures ItemBlock(Norm(Dict(pairs), true), depth, nesting, delimiter) == Some(block)
    decreases pairs, 5
  {
    assert Norm(Dict(pairs), true) == Dict(NormPairs(pairs)) && Height(Dict(pairs)) == 1 + PairsHeight(pairs);
    hide PairBlock, NormPair, ProperPair, Height, EntriesLines, Norm;
    ProperStep(pairs);
    assert NormPairs(pairs)[0] == NormPair(pairs[0]) && NormPairs(pairs)[1..] == NormPairs(pairs[1..]);
    PairHeightIs(pairs[0]);
    PairIsStable(pairs[0], depth + 1, delimiter, PairBlock(pairs[0], depth + 1, delimiter).value);
    EntriesAreStable(pairs[1..], depth + 1, delimiter, EntriesLines(pairs[1..], depth + 1, delimiter).value);
  }

  // ----- documents -------------------------------------------------------------------------------------

  /** Whenever the value that comes back is written at all, it is written as the same lines; and it is written
      when the value nests no deeper than the limit. */
  lemma {:induction false} WrittenAgain(value: Value, delimiter: byte, lines: seq<OutLine>)
    requires Proper(value) && RootLines(value, delimiter) == Some(lines)
    requires RootLines(Norm(value, false), delimiter).Some? || Height(value) <= Scan.MAX_NESTING_DEPTH
    ensures RootLines(Norm(value, false), delimiter) == Some(lines)
  {
    match value
    case Seq(items) =>
      ProperSeq(items);
      RootArrayIsStable(items, delimiter);
    case Dict(pairs) =>
      ProperDict(pairs);
      RootObjectIsStable(pairs, delimiter, lines);
    case _ =>
      hide ScalarText, NormScalar;
      ScalarStaysScalar(value);
      ScalarTextIsStable(value, delimiter);
  }

  lemma {:induction false} RootArrayIsStable(items: seq<Value>, delimiter: byte)
    requires AllProper(items) && RootLines(Seq(items), delimiter).Some?
    requires RootLines(Norm(Seq(items), false), delimiter).Some? || Height(Seq(items)) <= Scan.MAX_NESTING_DEPTH
    ensures RootLines(Norm(Seq(items), false), delimiter) == RootLines(Seq(items), delimiter)
  {
    var normed := Norm(Seq(items), false).items;
    assert Norm(Seq(items), false) == Seq(normed) && Height(Seq(items)) == 1 + ItemsHeight(items);
    hide ArrayBlock, Norm, Height, Proper;
    ArrayIsStable(AtRoot, items, 0, 0, delimiter, ArrayBlock(AtRoot, items, 0, 0, delimiter).value);
  }

  lemma {:induction false} RootObjectIsStable(pairs: seq<Pair>, delimiter: byte, lines: seq<OutLine>)
    requires ProperPairs(pairs) && |pairs| < USIZE_LIMIT && RootLines(Dict(pairs), delimiter) == Some(lines)
    requires RootLines(Norm(Dict(pairs), false), delimiter).Some? || Height(Dict(pairs)) <= Scan.MAX_NESTING_DEPTH
    ensures RootLines(Norm(Dict(pairs), false), delimiter) == Some(lines)
  {
    assert Height(Dict(pairs)) == 1 + PairsHeight(pairs);
    hide KeyedShape, KeyedBlock, EntriesLines, Norm, Height, ProperPair;
    if KeyedShape(pairs, 0).Shaped? {
      var nodes := KeyedShape(pairs, 0).nodes;
      KeyedReturnsWhen(pairs, 0, delimiter, true);
      KeyedShapeIsStable(pairs, nodes, 0);
      KeyedBlockIsStable(AtRoot, pairs, nodes, 0, delimiter);
    } else {
      PlainReturnsWhen(pairs, 0, delimiter, true);
      NoKeyedShapeIsStable(pairs, 0);
      EntriesAreStable(pairs, 0, delimiter, lines);
    }
  }

  /** The deepest level at which the encoder checks its limit when the rows of tables are taken in the order of
      their header. */
  function HeaderOrderLimit(value: Value): nat {
    RootLimit(Norm(value, false))
  }

  /** The value that comes back is written as the same lines exactly when that level is within the limit, and
      otherwise not at all. */
  lemma {:induction false} EncodingIsStable(value: Value, delimiter: byte, lines: seq<OutLine>)
    requires Proper(value) && RootLines(value, delimiter) == Some(lines)
    ensures RootLines(Norm(value, false), delimiter) == if HeaderOrderLimit(value) <= Scan.MAX_NESTING_DEPTH then Some(lines) else None
    ensures Height(value) <= Scan.MAX_NESTING_DEPTH ==> HeaderOrderLimit(value) <= Scan.MAX_NESTING_DEPTH
  {
    hide RootLimit, RootLines, Norm, Proper, Height;
    RootDecides(Norm(value, false), delimiter);
    if RootLines(Norm(value, false), delimiter).Some? || Height(value) <= Scan.MAX_NESTING_DEPTH {
      WrittenAgain(value, delimiter, lines);
    }
  }
}
