/** When the encoder reports its nesting limit, told from the value alone (src/encode.rs). */
module EncoderLimit {
  import opened Bytes
  import opened Tokens
  import opened Values
  import opened Shapes
  import opened Render
  import opened ReadGroups
  import Cells
  import Scan

  // ----- shape discovery without a limit --------------------------------------------------------

  /** How many levels shape discovery goes down, taking columns in the order of the first row and stopping at
      the first that has no shape; and whether it finds a shape. */
  datatype Probe = Probe(reach: nat, shaped: bool)

  function ProbeRows(rows: seq<Value>): Probe
    requires rows != []
    decreases Weight(rows[0]), 1, 0
  {
    if !SameKeys(rows) || rows[0].pairs == [] then Probe(0, false) else ProbeColumns(rows, rows[0].pairs)
  }

  function ProbeColumns(rows: seq<Value>, columns: seq<Pair>): Probe
    requires rows != []
    decreases Weight(rows[0]), 0, |columns|
  {
    if columns == [] then Probe(0, true)
    else
      var first := ProbeColumn(rows, columns[0].key);
      if !first.shaped then first
      else
        var others := ProbeColumns(rows, columns[1..]);
        Probe(Max(first.reach, others.reach), others.shaped)
  }

  function ProbeColumn(rows: seq<Value>, key: bytes): Probe
    requires rows != []
    decreases Weight(rows[0]), 0, 0
  {
    match Column(rows, key)
    case None => Probe(0, false)
    case Some(column) =>
      if AllScalars(column) then Probe(0, true)
      else
        var inner := ProbeRows(column);
        Probe(1 + inner.reach, inner.shaped)
  }

  /** Discovery that starts at `depth` hits the limit exactly when the probe reaches below it, and otherwise
      finds a shape exactly when the probe does. */
  ghost predicate Decides(probe: Probe, depth: nat, result: ShapeResult) {
    && (result.TooDeep? <==> depth + probe.reach > Scan.MAX_NESTING_DEPTH)
    && (!result.TooDeep? ==> (result.Shaped? <==> probe.shaped))
  }

  lemma {:induction false} ProbeDecides(rows: seq<Value>, depth: nat)
    requires rows != []
    ensures Decides(ProbeRows(rows), depth, BuildShape(rows, depth))
    decreases Weight(rows[0]), 1, 0
  {
    if depth <= Scan.MAX_NESTING_DEPTH && SameKeys(rows) && rows[0].pairs != [] { ColumnsDecide(rows, rows[0].pairs, depth); }
  }

  lemma {:induction false} ColumnsDecide(rows: seq<Value>, columns: seq<Pair>, depth: nat)
    requires rows != [] && depth <= Scan.MAX_NESTING_DEPTH
    ensures Decides(ProbeColumns(rows, columns), depth, ShapeColumns(rows, columns, depth))
    decreases Weight(rows[0]), 0, |columns|
  {
    if columns != [] {
      hide ProbeColumn, ShapeColumn;
      ColumnDecides(rows, columns[0].key, depth);
      ColumnsDecide(rows, columns[1..], depth);
    }
  }

  lemma {:induction false} ColumnDecides(rows: seq<Value>, key: bytes, depth: nat)
    requires rows != [] && depth <= Scan.MAX_NESTING_DEPTH
    ensures Decides(ProbeColumn(rows, key), depth, ShapeColumn(rows, key, depth))
    decreases Weight(rows[0]), 0, 0
  {
    match Column(rows, key)
    case None =>
    case Some(column) => if !AllScalars(column) { ProbeDecides(column, depth + 1); }
  }

  /** The header of a discovered shape nests one brace more than the probe reaches. */
  lemma {:induction false} ShapeNestsAsProbed(rows: seq<Value>, depth: nat, nodes: seq<ShapeNode>)
    requires rows != [] && BuildShape(rows, depth) == Shaped(nodes)
    ensures Braces(nodes) == 1 + ProbeRows(rows).reach
    decreases Weight(rows[0]), 1, 0
  {
    ColumnsNestAsProbed(rows, rows[0].pairs, depth, nodes);
  }

  lemma {:induction false} ColumnsNestAsProbed(rows: seq<Value>, columns: seq<Pair>, depth: nat, nodes: seq<ShapeNode>)
    requires rows != [] && ShapeColumns(rows, columns, depth) == Shaped(nodes)
    ensures Braces(nodes) == if columns == [] then 0 else 1 + ProbeColumns(rows, columns).reach
    ensures ProbeColumns(rows, columns).shaped
    decreases Weight(rows[0]), 0, |columns|
  {
    if columns != [] {
      var key := columns[0].key;
      var first, others := ShapeColumn(rows, key, depth).nodes, ShapeColumns(rows, columns[1..], depth).nodes;
      ColumnNestsAsProbed(rows, key, depth, first[0]);
      ColumnsNestAsProbed(rows, columns[1..], depth, others);
      assert nodes[0] == first[0] && nodes[1..] == others;
      BracesOf(nodes);
    }
  }

  lemma {:induction false} ColumnNestsAsProbed(rows: seq<Value>, key: bytes, depth: nat, node: ShapeNode)
    requires rows != [] && ShapeColumn(rows, key, depth) == Shaped([node])
    ensures Braces(node.children) == ProbeColumn(rows, key).reach && ProbeColumn(rows, key).shaped
    decreases Weight(rows[0]), 0, 0
  {
    var column := Column(rows, key).value;
    if !AllScalars(column) {
      ShapeNestsAsProbed(column, depth + 1, node.children);
      ProbeDecides(column, depth + 1);
    }
  }

  // ----- the deepest level at which the encoder checks its limit ---------------------------------

  function KeyedProbe(pairs: seq<Pair>): Probe {
    if |pairs| < 2 || !(forall i :: 0 <= i < |pairs| ==> pairs[i].value.Dict?) then Probe(0, false)
    else ProbeRows(ValuesOf(pairs))
  }

  /** Whether an object is probed as a keyed table at all. */
  predicate Probed(pairs: seq<Pair>) {
    |pairs| >= 2 && forall i :: 0 <= i < |pairs| ==> pairs[i].value.Dict?
  }

  function EntryLimit(value: Value, depth: nat): nat
    decreases value, 2
  {
    match value
    case Seq(items) => ArrayLimit(items, false, depth, 0)
    case Dict(pairs) => Max(KeyedLimit(pairs, depth), if KeyedProbe(pairs).shaped then 0 else EntriesLimit(pairs, depth + 1))
    case _ => 0
  }

  function KeyedLimit(pairs: seq<Pair>, depth: nat): nat {
    if Probed(pairs) then depth + KeyedProbe(pairs).reach else 0
  }

  function EntriesLimit(pairs: seq<Pair>, depth: nat): nat
    decreases pairs, 0
  {
    if pairs == [] then depth else Max(depth, Max(PairLimit(pairs[0], depth), EntriesLimit(pairs[1..], depth)))
  }

  function PairLimit(pair: Pair, depth: nat): nat
    decreases pair, 3
  {
    EntryLimit(pair.value, depth)
  }

  /** Arrays count the lists around them; only an array that is no list item is probed. */
  function ArrayLimit(items: seq<Value>, inList: bool, depth: nat, nesting: nat): nat
    decreases items, 1
  {
    if items == [] then nesting
    else
      var probe := if inList then Probe(0, false) else ProbeRows(items);
      Max(nesting + probe.reach, if probe.shaped || AllScalars(items) then 0 else ItemsLimit(items, depth + 1, nesting + 1))
  }

  function ItemsLimit(items: seq<Value>, depth: nat, nesting: nat): nat
    decreases items, 0
  {
    if items == [] then 0 else Max(ItemLimit(items[0], depth, nesting), ItemsLimit(items[1..], depth, nesting))
  }

  function ItemLimit(item: Value, depth: nat, nesting: nat): nat
    decreases item, 2
  {
    match item
    case Seq(items) => ArrayLimit(items, true, depth, nesting + 1)
    case Dict(pairs) => if pairs == [] then 0 else Max(PairLimit(pairs[0], depth + 1), EntriesLimit(pairs[1..], depth + 1))
    case _ => 0
  }

  function RootLimit(value: Value): nat {
    match value
    case Seq(items) => ArrayLimit(items, false, 0, 0)
    case Dict(pairs) => Max(KeyedLimit(pairs, 0), if KeyedProbe(pairs).shaped then 0 else EntriesLimit(pairs, 0))
    case _ => 0
  }

  // ----- the limit is hit exactly when it is exceeded ------------------------------------------------

  predicate Fits(limit: nat) { limit <= Scan.MAX_NESTING_DEPTH }

  lemma {:induction false} KeyedDecides(pairs: seq<Pair>, depth: nat)
    ensures KeyedShape(pairs, depth).TooDeep? <==> !Fits(KeyedLimit(pairs, depth))
    ensures !KeyedShape(pairs, depth).TooDeep? ==> (KeyedShape(pairs, depth).Shaped? <==> KeyedProbe(pairs).shaped)
  {
    hide ProbeRows, BuildShape;
    if Probed(pairs) { ProbeDecides(ValuesOf(pairs), depth); }
  }

  lemma {:induction false} TableSucceeds(nodes: seq<ShapeNode>, rows: seq<Value>, depth: nat, delimiter: byte)
    requires forall i :: 0 <= i < |rows| ==> RowText(nodes, rows[i], delimiter).Some?
    ensures TableLines(nodes, rows, depth, delimiter).Some?
  {
    hide RowText;
    if rows != [] { TableSucceeds(nodes, rows[1..], depth, delimiter); }
  }

  lemma {:induction false} KeyedSucceeds(nodes: seq<ShapeNode>, pairs: seq<Pair>, depth: nat, delimiter: byte)
    requires forall i :: 0 <= i < |pairs| ==> RowText(nodes, pairs[i].value, delimiter).Some?
    ensures KeyedLines(nodes, pairs, depth, delimiter).Some?
  {
    hide RowText;
    if pairs != [] { KeyedSucceeds(nodes, pairs[1..], depth, delimiter); }
  }

  lemma {:induction false} SomeLeaf(nodes: seq<ShapeNode>)
    ensures nodes != [] ==> ShapeLeaves(nodes) > 0
    decreases nodes
  {
    if nodes != [] { SomeLeaf(nodes[0].children); }
  }

  lemma {:induction false} ShapedRowSucceeds(rows: seq<Value>, depth: nat, nodes: seq<ShapeNode>, i: nat, delimiter: byte)
    requires i < |rows| && BuildShape(rows, depth) == Shaped(nodes)
    ensures RowText(nodes, rows[i], delimiter).Some?
  {
    ShapedRowFits(rows, depth, nodes, i);
    SomeLeaf(nodes);
  }

  lemma {:induction false} KeyedBlockSucceeds(place: Place, pairs: seq<Pair>, nodes: seq<ShapeNode>, depth: nat, delimiter: byte)
    requires KeyedShape(pairs, depth) == Shaped(nodes)
    ensures KeyedBlock(place, pairs, nodes, depth, delimiter).Some?
  {
    hide BuildShape, RowText, HeaderText, KeyedLines;
    forall i | 0 <= i < |pairs| ensures RowText(nodes, pairs[i].value, delimiter).Some? {
      ShapedRowSucceeds(ValuesOf(pairs), depth, nodes, i, delimiter);
    }
    KeyedSucceeds(nodes, pairs, depth + 1, delimiter);
  }

  lemma {:induction false} TableBlockSucceeds(place: Place, items: seq<Value>, nodes: seq<ShapeNode>, depth: nat, nesting: nat, delimiter: byte)
    requires items != [] && BuildShape(items, nesting) == Shaped(nodes)
    ensures TableBlock(place, items, nodes, depth, delimiter).Some?
  {
    hide BuildShape, RowText, HeaderText, TableLines;
    forall i | 0 <= i < |items| ensures RowText(nodes, items[i], delimiter).Some? {
      ShapedRowSucceeds(items, nesting, nodes, i, delimiter);
    }
    TableSucceeds(nodes, items, depth + 1, delimiter);
  }

  lemma {:induction false} EntryDecides(key: bytes, value: Value, depth: nat, delimiter: byte)
    ensures EntryBlock(key, value, depth, delimiter).Some? <==> Fits(EntryLimit(value, depth))
    decreases value, 2
  {
    match value
    case Seq(items) => ArrayDecides(Named(key), items, depth, 0, delimiter);
    case Dict(pairs) =>
      KeyedDecides(pairs, depth);
      EntriesDecide(pairs, depth + 1, delimiter);
      hide KeyedShape, KeyedBlock, EntriesLines, KeyedProbe, KeyedLimit, EntriesLimit;
      assert EntryBlock(key, value, depth, delimiter) == ObjectBlock(key, pairs, depth, delimiter);
      if KeyedShape(pairs, depth).Shaped? { KeyedBlockSucceeds(Named(key), pairs, KeyedShape(pairs, depth).nodes, depth, delimiter); }
    case _ =>
  }

  lemma {:induction false} EntriesDecide(pairs: seq<Pair>, depth: nat, delimiter: byte)
    ensures EntriesLines(pairs, depth, delimiter).Some? <==> Fits(EntriesLimit(pairs, depth))
    decreases pairs, 0
  {
    if Fits(depth) && pairs != [] {
      hide PairBlock, PairLimit;
      PairDecides(pairs[0], depth, delimiter);
      EntriesDecide(pairs[1..], depth, delimiter);
    }
  }

  lemma {:induction false} PairDecides(pair: Pair, depth: nat, delimiter: byte)
    ensures PairBlock(pair, depth, delimiter).Some? <==> Fits(PairLimit(pair, depth))
    decreases pair, 3
  {
    EntryDecides(pair.key, pair.value, depth, delimiter);
  }

  lemma {:induction false} ArrayDecides(place: Place, items: seq<Value>, depth: nat, nesting: nat, delimiter: byte)
    ensures ArrayBlock(place, items, depth, nesting, delimiter).Some? <==> Fits(ArrayLimit(items, place.InList?, depth, nesting))
    decreases items, 1
  {
    if items != [] && Fits(nesting) {
      if !place.InList? { ProbeDecides(items, nesting); }
      if !AllScalars(items) { ItemsDecide(items, depth + 1, nesting + 1, delimiter); }
      hide BuildShape, ProbeRows, TableBlock, ItemsLines, ItemsLimit, HeaderText, CellTexts, Cells.Join;
      if !place.InList? && BuildShape(items, nesting).Shaped? {
        TableBlockSucceeds(place, items, BuildShape(items, nesting).nodes, depth, nesting, delimiter);
      }
    }
  }

  lemma {:induction false} ItemsDecide(items: seq<Value>, depth: nat, nesting: nat, delimiter: byte)
    ensures ItemsLines(items, depth, nesting, delimiter).Some? <==> Fits(ItemsLimit(items, depth, nesting))
    decreases items, 0
  {
    if items != [] {
      hide ItemBlock, ItemLimit;
      ItemDecides(items[0], depth, nesting, delimiter);
      ItemsDecide(items[1..], depth, nesting, delimiter);
    }
  }

  lemma {:induction false} ItemDecides(item: Value, depth: nat, nesting: nat, delimiter: byte)
    ensures ItemBlock(item, depth, nesting, delimiter).Some? <==> Fits(ItemLimit(item, depth, nesting))
    decreases item, 2
  {
    match item
    case Seq(items) => ArrayDecides(InList, items, depth, nesting + 1, delimiter);
    case Dict(pairs) =>
      if pairs != [] {
        hide PairBlock, PairLimit, EntriesLines, EntriesLimit;
        PairDecides(pairs[0], depth + 1, delimiter);
        EntriesDecide(pairs[1..], depth + 1, delimiter);
      }
    case _ =>
  }

  /** A value is written exactly when no level at which the encoder checks its limit lies below it. */
  lemma {:induction false} RootDecides(value: Value, delimiter: byte)
    ensures RootLines(value, delimiter).Some? <==> Fits(RootLimit(value))
  {
    match value
    case Seq(items) => ArrayDecides(AtRoot, items, 0, 0, delimiter);
    case Dict(pairs) =>
      KeyedDecides(pairs, 0);
      EntriesDecide(pairs, 0, delimiter);
      hide KeyedShape, KeyedBlock, EntriesLines, KeyedProbe, KeyedLimit, EntriesLimit;
      if KeyedShape(pairs, 0).Shaped? { KeyedBlockSucceeds(AtRoot, pairs, KeyedShape(pairs, 0).nodes, 0, delimiter); }
    case _ =>
  }
}
