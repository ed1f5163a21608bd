/** The tabular shape of a row array (src/encode.rs, build_shape). */
module Shapes {
  import opened Bytes
  import opened Values
  import Scan

  /** A column; one without children is a leaf. */
  datatype ShapeNode = ShapeNode(wire: bytes, children: seq<ShapeNode>)

  datatype ShapeResult = TooDeep | NoShape | Shaped(nodes: seq<ShapeNode>) {
    predicate IsFailure() { !Shaped? }

    function PropagateFailure(): ShapeResult
      requires IsFailure()
    {
      this
    }

    function Extract(): seq<ShapeNode>
      requires Shaped?
    {
      nodes
    }
  }

  predicate IsScalar(value: Value) { !value.Seq? && !value.Dict? }

  predicate AllScalars(values: seq<Value>) {
    forall i :: 0 <= i < |values| ==> IsScalar(values[i])
  }

  /** The nesting of dictionaries, counted in entries. */
  function Weight(value: Value): nat
    decreases value
  {
    if value.Dict? then 1 + PairsWeight(value.pairs) else 0
  }

  function PairsWeight(pairs: seq<Pair>): nat
    decreases pairs
  {
    if pairs == [] then 0 else Weight(pairs[0].value) + PairsWeight(pairs[1..])
  }

  function Lookup(pairs: seq<Pair>, key: bytes): (r: Option<Value>)
    ensures r.Some? <==> HasKey(pairs, key)
    ensures r.Some? ==> Weight(r.value) <= PairsWeight(pairs)
    ensures r.Some? ==> exists i :: 0 <= i < |pairs| && pairs[i] == Pair(key, r.value)
  {
    if pairs == [] then None
    else
      assert HasKey(pairs, key) <==> pairs[0].key == key || HasKey(pairs[1..], key) by { HasKeyCons(pairs, key); }
      if pairs[0].key == key then (assert pairs[0] == Pair(key, pairs[0].value); Some(pairs[0].value))
      else Lookup(pairs[1..], key)
  }

  function GetItem(row: Value, key: bytes): (r: Option<Value>)
    ensures r.Some? <==> row.Dict? && HasKey(row.pairs, key)
    ensures r.Some? ==> Weight(r.value) < Weight(row)
  {
    if row.Dict? then Lookup(row.pairs, key) else None
  }

  /** The values of one column, if no row lacks it. */
  function Column(rows: seq<Value>, key: bytes): (r: Option<seq<Value>>)
    ensures r.Some? ==> |r.value| == |rows| && forall i :: 0 <= i < |rows| ==> GetItem(rows[i], key) == Some(r.value[i])
    ensures r.None? ==> exists i :: 0 <= i < |rows| && GetItem(rows[i], key).None?
  {
    if rows == [] then Some([])
    else if GetItem(rows[0], key).None? then None
    else match Column(rows[1..], key)
      case None => None
      case Some(rest) => Some([GetItem(rows[0], key).value] + rest)
  }

  /** The column is known by its values. */
  lemma {:induction false} ColumnIs(rows: seq<Value>, key: bytes, column: seq<Value>)
    requires |column| == |rows| && forall i :: 0 <= i < |rows| ==> GetItem(rows[i], key) == Some(column[i])
    ensures Column(rows, key) == Some(column)
  {
    assert Column(rows, key).Some?;
    var r := Column(rows, key).value;
    forall i | 0 <= i < |rows| ensures r[i] == column[i] { assert GetItem(rows[i], key) == Some(r[i]); }
    assert r == column;
  }

  /** `row` has as many keys as `first` lists, and all of those. */
  predicate FitsKeys(row: Value, first: seq<Pair>) {
    row.Dict? && |row.pairs| == |first| && forall i :: 0 <= i < |first| ==> HasKey(row.pairs, first[i].key)
  }

  predicate SameKeys(rows: seq<Value>)
    requires rows != []
  {
    rows[0].Dict? && forall i :: 1 <= i < |rows| ==> FitsKeys(rows[i], rows[0].pairs)
  }

  function BuildShape(rows: seq<Value>, depth: nat): (r: ShapeResult)
    requires rows != []
    ensures r.Shaped? ==> r.nodes != []
    decreases Weight(rows[0]), 1, 0
  {
    if depth > Scan.MAX_NESTING_DEPTH then TooDeep
    else if !SameKeys(rows) || rows[0].pairs == [] then NoShape
    else ShapeColumns(rows, rows[0].pairs, depth)
  }

  function ShapeColumns(rows: seq<Value>, columns: seq<Pair>, depth: nat): (r: ShapeResult)
    requires rows != []
    ensures r.Shaped? ==> |r.nodes| == |columns|
    decreases Weight(rows[0]), 0, |columns|
  {
    if columns == [] then Shaped([])
    else
      var first :- ShapeColumn(rows, columns[0].key, depth);
      var others :- ShapeColumns(rows, columns[1..], depth);
      Shaped(first + others)
  }

  /** One column: a leaf when all its values are scalars, otherwise a group when they are uniform. */
  function ShapeColumn(rows: seq<Value>, key: bytes, depth: nat): (r: ShapeResult)
    requires rows != []
    ensures r.Shaped? ==> |r.nodes| == 1 && r.nodes[0].wire == key
    decreases Weight(rows[0]), 0, 0
  {
    match Column(rows, key)
    case None => NoShape
    case Some(column) =>
      if AllScalars(column) then Shaped([ShapeNode(key, [])])
      else
        var children :- BuildShape(column, depth + 1);
        Shaped([ShapeNode(key, children)])
  }

  // ----- the limit -----------------------------------------------------------------

  /** The depth only decides whether the limit is hit: less depth gives the same answer. */
  lemma {:induction false} ShapeIgnoresDepth(rows: seq<Value>, depth: nat, lower: nat)
    requires rows != [] && lower <= depth && !BuildShape(rows, depth).TooDeep?
    ensures BuildShape(rows, lower) == BuildShape(rows, depth)
    decreases Weight(rows[0]), 1, 0
  {
    if SameKeys(rows) && rows[0].pairs != [] { ColumnsIgnoreDepth(rows, rows[0].pairs, depth, lower); }
  }

  lemma {:induction false} ColumnsIgnoreDepth(rows: seq<Value>, columns: seq<Pair>, depth: nat, lower: nat)
    requires rows != [] && lower <= depth && !ShapeColumns(rows, columns, depth).TooDeep?
    ensures ShapeColumns(rows, columns, lower) == ShapeColumns(rows, columns, depth)
    decreases Weight(rows[0]), 0, |columns|
  {
    if columns != [] {
      ColumnIgnoresDepth(rows, columns[0].key, depth, lower);
      if ShapeColumn(rows, columns[0].key, depth).Shaped? { ColumnsIgnoreDepth(rows, columns[1..], depth, lower); }
    }
  }

  lemma {:induction false} ColumnIgnoresDepth(rows: seq<Value>, key: bytes, depth: nat, lower: nat)
    requires rows != [] && lower <= depth && !ShapeColumn(rows, key, depth).TooDeep?
    ensures ShapeColumn(rows, key, lower) == ShapeColumn(rows, key, depth)
    decreases Weight(rows[0]), 0, 0
  {
    match Column(rows, key)
    case None =>
    case Some(column) => if !AllScalars(column) { ShapeIgnoresDepth(column, depth + 1, lower + 1); }
  }

  // ----- uniformity ----------------------------------------------------------------

  /** Keys are distinct in every dictionary, as they are in Python. */
  predicate Wellkeyed(value: Value)
    decreases value
  {
    match value
    case Seq(items) => forall i :: 0 <= i < |items| ==> Wellkeyed(items[i])
    case Dict(pairs) => DistinctKeys(pairs) && forall i :: 0 <= i < |pairs| ==> Wellkeyed(pairs[i].value)
    case _ => true
  }

  /** Section 9.3 of TOON 4.1, without reference to any order: the rows are non-empty objects with one
      key set, and every column is all scalars or uniform itself. */
  ghost predicate Uniform(rows: seq<Value>)
    requires rows != []
    decreases Weight(rows[0])
  {
    && (forall i :: 0 <= i < |rows| ==> rows[i].Dict? && rows[i].pairs != [])
    && (forall i, key :: 0 <= i < |rows| ==> (HasKey(rows[i].pairs, key) <==> HasKey(rows[0].pairs, key)))
    && (forall key :: HasKey(rows[0].pairs, key) ==> UniformColumn(rows, key))
  }

  ghost predicate UniformColumn(rows: seq<Value>, key: bytes)
    requires rows != []
    decreases Weight(rows[0]), 0
  {
    var column := Column(rows, key);
    column.Some? && (AllScalars(column.value) || Uniform(column.value))
  }

  function Keys(pairs: seq<Pair>): set<bytes> {
    set i | 0 <= i < |pairs| :: pairs[i].key
  }

  lemma {:induction false} KeyCount(pairs: seq<Pair>)
    requires DistinctKeys(pairs)
    ensures |Keys(pairs)| == |pairs|
  {
    if pairs != [] {
      var front, last := pairs[..|pairs| - 1], pairs[|pairs| - 1];
      KeyCount(front);
      KeysSnoc(front, last);
      assert front + [last] == pairs;
      assert last.key !in Keys(front);
    }
  }

  lemma {:induction false} KeysSnoc(front: seq<Pair>, last: Pair)
    ensures Keys(front + [last]) == Keys(front) + {last.key}
  {
    var pairs := front + [last];
    assert pairs[|front|] == last;
    forall i | 0 <= i < |front| ensures front[i].key in Keys(pairs) { assert pairs[i] == front[i]; }
  }

  lemma {:induction false} SubsetOfEqualSize<T>(a: set<T>, b: set<T>)
    requires a <= b && |a| == |b|
    ensures a == b
  {
    assert b == a + (b - a);
  }

  /** Equal lengths and membership one way already mean equal key sets. */
  lemma {:induction false} FitsKeysMeansSameSet(row: Value, first: seq<Pair>)
    requires row.Dict? && DistinctKeys(row.pairs) && DistinctKeys(first)
    ensures FitsKeys(row, first) <==> forall key :: HasKey(row.pairs, key) <==> HasKey(first, key)
  {
    KeyCount(row.pairs);
    KeyCount(first);
    assert forall key :: key in Keys(row.pairs) <==> HasKey(row.pairs, key);
    assert forall key :: key in Keys(first) <==> HasKey(first, key);
    assert forall i :: 0 <= i < |first| ==> HasKey(first, first[i].key);
    if FitsKeys(row, first) {
      assert Keys(first) <= Keys(row.pairs);
      SubsetOfEqualSize(Keys(first), Keys(row.pairs));
    }
    if forall key :: HasKey(row.pairs, key) <==> HasKey(first, key) {
      assert Keys(first) == Keys(row.pairs);
    }
  }

  lemma {:induction false} SameKeysMeansSameSets(rows: seq<Value>)
    requires rows != [] && forall i :: 0 <= i < |rows| ==> Wellkeyed(rows[i])
    ensures SameKeys(rows) && rows[0].pairs != [] <==>
            && (forall i :: 0 <= i < |rows| ==> rows[i].Dict? && rows[i].pairs != [])
            && (forall i, key :: 0 <= i < |rows| ==> (HasKey(rows[i].pairs, key) <==> HasKey(rows[0].pairs, key)))
  {
    if rows[0].Dict? {
      forall i | 0 <= i < |rows| && rows[i].Dict?
        ensures FitsKeys(rows[i], rows[0].pairs) <==> forall key :: HasKey(rows[i].pairs, key) <==> HasKey(rows[0].pairs, key)
      {
        FitsKeysMeansSameSet(rows[i], rows[0].pairs);
      }
    }
  }

  /** Shape discovery finds a shape exactly for uniform rows, unless it hits the depth limit. */
  lemma {:induction false} ShapedIffUniform(rows: seq<Value>, depth: nat)
    requires rows != [] && forall i :: 0 <= i < |rows| ==> Wellkeyed(rows[i])
    ensures BuildShape(rows, depth).Shaped? ==> Uniform(rows)
    ensures BuildShape(rows, depth).NoShape? ==> !Uniform(rows)
    decreases Weight(rows[0]), 1, 0
  {
    SameKeysMeansSameSets(rows);
    if depth <= Scan.MAX_NESTING_DEPTH && SameKeys(rows) && rows[0].pairs != [] {
      ColumnsShapedIffUniform(rows, rows[0].pairs, depth);
      assert forall i :: 0 <= i < |rows[0].pairs| ==> HasKey(rows[0].pairs, rows[0].pairs[i].key);
    }
  }

  lemma {:induction false} ColumnsShapedIffUniform(rows: seq<Value>, columns: seq<Pair>, depth: nat)
    requires rows != [] && forall i :: 0 <= i < |rows| ==> Wellkeyed(rows[i])
    ensures var r := ShapeColumns(rows, columns, depth);
            && (r.Shaped? ==> forall i :: 0 <= i < |columns| ==> UniformColumn(rows, columns[i].key))
            && (r.NoShape? ==> exists i :: 0 <= i < |columns| && !UniformColumn(rows, columns[i].key))
    decreases Weight(rows[0]), 0, |columns|
  {
    if columns != [] {
      ColumnShapedIffUniform(rows, columns[0].key, depth);
      ColumnsShapedIffUniform(rows, columns[1..], depth);
      assert forall i :: 0 < i < |columns| ==> columns[i] == columns[1..][i - 1];
      assert forall i :: 0 <= i < |columns| - 1 ==> columns[1..][i] == columns[i + 1];
    }
  }

  lemma {:induction false} ColumnShapedIffUniform(rows: seq<Value>, key: bytes, depth: nat)
    requires rows != [] && forall i :: 0 <= i < |rows| ==> Wellkeyed(rows[i])
    ensures ShapeColumn(rows, key, depth).Shaped? ==> UniformColumn(rows, key)
    ensures ShapeColumn(rows, key, depth).NoShape? ==> !UniformColumn(rows, key)
    decreases Weight(rows[0]), 0, 0
  {
    match Column(rows, key)
    case None =>
    case Some(column) =>
      forall i | 0 <= i < |rows| ensures Wellkeyed(column[i]) { assert GetItem(rows[i], key) == Some(column[i]); }
      if !AllScalars(column) {
        ShapedIffUniform(column, depth + 1);
      } else {
        assert !column[0].Dict?;
      }
  }

  // ----- rows of a shape -----------------------------------------------------------

  /** The scalars of a row in the order of the shape's leaves; `None` when a column is missing. */
  function RowCells(nodes: seq<ShapeNode>, row: Value): Option<seq<Value>>
    decreases nodes
  {
    if nodes == [] then Some([])
    else
      var first :- NodeCells(nodes[0], row);
      var others :- RowCells(nodes[1..], row);
      Some(first + others)
  }

  function NodeCells(node: ShapeNode, row: Value): Option<seq<Value>>
    decreases node
  {
    var item :- GetItem(row, node.wire);
    if node.children == [] then Some([item]) else RowCells(node.children, item)
  }

  function ShapeLeaves(nodes: seq<ShapeNode>): nat
    decreases nodes
  {
    if nodes == [] then 0
    else (if nodes[0].children == [] then 1 else ShapeLeaves(nodes[0].children)) + ShapeLeaves(nodes[1..])
  }

  /** A row of a discovered shape loses no column: it has exactly one scalar for every leaf. */
  predicate RowFits(nodes: seq<ShapeNode>, row: Value) {
    var cells := RowCells(nodes, row);
    cells.Some? && |cells.value| == ShapeLeaves(nodes) && AllScalars(cells.value)
  }

  lemma {:induction false} ShapedRowFits(rows: seq<Value>, depth: nat, nodes: seq<ShapeNode>, i: nat)
    requires i < |rows| && BuildShape(rows, depth) == Shaped(nodes)
    ensures RowFits(nodes, rows[i])
    decreases Weight(rows[0]), 1, 0
  {
    ColumnsFit(rows, rows[0].pairs, depth, nodes, i);
  }

  lemma {:induction false} ColumnsFit(rows: seq<Value>, columns: seq<Pair>, depth: nat, nodes: seq<ShapeNode>, i: nat)
    requires i < |rows| && ShapeColumns(rows, columns, depth) == Shaped(nodes)
    ensures RowFits(nodes, rows[i])
    decreases Weight(rows[0]), 0, |columns|
  {
    if columns != [] {
      var first, others := ShapeColumn(rows, columns[0].key, depth).nodes, ShapeColumns(rows, columns[1..], depth).nodes;
      ColumnFits(rows, columns[0].key, depth, first[0], i);
      ColumnsFit(rows, columns[1..], depth, others, i);
      assert nodes[0] == first[0] && nodes[1..] == others;
    }
  }

  lemma {:induction false} ColumnFits(rows: seq<Value>, key: bytes, depth: nat, node: ShapeNode, i: nat)
    requires i < |rows| && ShapeColumn(rows, key, depth) == Shaped([node])
    ensures var cells := NodeCells(node, rows[i]);
            cells.Some? && AllScalars(cells.value) &&
            |cells.value| == if node.children == [] then 1 else ShapeLeaves(node.children)
    decreases Weight(rows[0]), 0, 0
  {
    var column := Column(rows, key).value;
    assert GetItem(rows[i], key) == Some(column[i]);
    if !AllScalars(column) { ShapedRowFits(column, depth + 1, node.children, i); }
  }
}
