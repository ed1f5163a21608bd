/** What comes back is the same value, and is written as the same bytes (src/encode.rs). */
module Stability {
  import opened Bytes
  import opened Scalar
  import opened Header
  import opened Values
  import opened Shapes
  import opened QuoteDecision
  import opened Render
  import opened ReadScalars
  import opened ReadGroups
  import opened ReadRows
  import opened Faithful
  import opened ReadBack
  import Cells
  import Scan
  import Tokens

  // ----- equality up to key order -----------------------------------------------------------

  /** `a` is `b` as Python compares them: dictionaries as maps, an integral float as its integer. */
  predicate SameMap(a: Value, b: Value)
    decreases b
  {
    match b
    case Seq(items) => a.Seq? && |a.items| == |items| && forall i :: 0 <= i < |items| ==> SameMap(a.items[i], items[i])
    case Dict(pairs) => a.Dict? && |a.pairs| == |pairs| && forall i :: 0 <= i < |pairs| ==> SameEntry(a.pairs, pairs[i])
    case _ => a == NormScalar(b)
  }

  predicate SameEntry(pairs: seq<Pair>, pair: Pair)
    decreases pair
  {
    HasKey(pairs, pair.key) && SameMap(Lookup(pairs, pair.key).value, pair.value)
  }

  lemma {:induction false} LookupAt(pairs: seq<Pair>, i: nat)
    requires i < |pairs| && DistinctKeys(pairs)
    ensures Lookup(pairs, pairs[i].key) == Some(pairs[i].value)
  {
    if i > 0 {
      assert pairs[0].key != pairs[i].key;
      assert pairs[1..][i - 1] == pairs[i];
      LookupAt(pairs[1..], i - 1);
    }
  }

  // ----- rows of a shape ----------------------------------------------------------------------

  /** `row` has exactly the columns of `nodes`: scalars at its leaves, such rows at its groups. */
  predicate ShapeFits(nodes: seq<ShapeNode>, row: Value)
    decreases nodes
  {
    row.Dict? && |row.pairs| == |nodes| && ColumnsHold(nodes, row)
  }

  predicate ColumnsHold(nodes: seq<ShapeNode>, row: Value)
    decreases nodes, 0
  {
    nodes == [] || (NodeHolds(nodes[0], row) && ColumnsHold(nodes[1..], row))
  }

  predicate NodeHolds(node: ShapeNode, row: Value)
    decreases node
  {
    var item := GetItem(row, node.wire);
    item.Some? && if node.children == [] then IsScalar(item.value) else ShapeFits(node.children, item.value)
  }

  lemma {:induction false} ShapedRowsFit(rows: seq<Value>, depth: nat, nodes: seq<ShapeNode>, i: nat)
    requires i < |rows| && BuildShape(rows, depth) == Shaped(nodes)
    ensures ShapeFits(nodes, rows[i])
    decreases Weight(rows[0]), 1, 0
  {
    ColumnsFitRow(rows, rows[0].pairs, depth, nodes, i);
  }

  lemma {:induction false} ColumnsFitRow(rows: seq<Value>, columns: seq<Pair>, depth: nat, nodes: seq<ShapeNode>, i: nat)
    requires i < |rows| && ShapeColumns(rows, columns, depth) == Shaped(nodes)
    ensures ColumnsHold(nodes, rows[i])
    decreases Weight(rows[0]), 0, |columns|
  {
    if columns != [] {
      var first, others := ShapeColumn(rows, columns[0].key, depth).nodes, ShapeColumns(rows, columns[1..], depth).nodes;
      ColumnFitsRow(rows, columns[0].key, depth, first[0], i);
      ColumnsFitRow(rows, columns[1..], depth, others, i);
      assert nodes[0] == first[0] && nodes[1..] == others;
    }
  }

  lemma {:induction false} ColumnFitsRow(rows: seq<Value>, key: bytes, depth: nat, node: ShapeNode, i: nat)
    requires i < |rows| && ShapeColumn(rows, key, depth) == Shaped([node])
    ensures NodeHolds(node, rows[i])
    decreases Weight(rows[0]), 0, 0
  {
    var column := Column(rows, key).value;
    assert GetItem(rows[i], key) == Some(column[i]);
    if !AllScalars(column) { ShapedRowsFit(column, depth + 1, node.children, i); }
  }

  /** A node among `nodes` holds, and is where its name is projected. */
  lemma {:induction false} ProjectedAt(nodes: seq<ShapeNode>, row: Value, i: nat)
    requires i < |nodes| && ColumnsHold(nodes, row)
    ensures NodeHolds(nodes[i], row) && ProjectPairs(nodes, row)[i] == ProjectNode(nodes[i], row)
    decreases |nodes|
  {
    if i > 0 {
      assert nodes[1..][i - 1] == nodes[i];
      ProjectedAt(nodes[1..], row, i - 1);
    }
  }

  lemma {:induction false} NameIndex(nodes: seq<ShapeNode>, key: bytes) returns (i: nat)
    requires NamesWire(nodes, key)
    ensures i < |nodes| && nodes[i].wire == key
  {
    if nodes[0].wire == key { return 0; }
    var k := NameIndex(nodes[1..], key);
    i := k + 1;
  }

  lemma {:induction false} NamedAt(nodes: seq<ShapeNode>, i: nat)
    requires i < |nodes| && WellNamed(nodes)
    ensures WellNamed(nodes[i].children) && NamesWire(nodes, nodes[i].wire)
  {
    if i > 0 {
      assert nodes[1..][i - 1] == nodes[i];
      NamedAt(nodes[1..], i - 1);
    }
  }

  /** The columns of a fitting row are exactly the names of the shape. */
  lemma {:induction false} NamesAreKeys(nodes: seq<ShapeNode>, row: Value)
    requires WellNamed(nodes) && ShapeFits(nodes, row) && DistinctKeys(row.pairs)
    ensures forall key :: HasKey(row.pairs, key) <==> NamesWire(nodes, key)
  {
    var names := ProjectPairs(nodes, row);
    ProjectedKeys(nodes, row);
    forall i | 0 <= i < |names| ensures HasKey(row.pairs, names[i].key) { ProjectedAt(nodes, row, i); }
    FitsKeysMeansSameSet(row, names);
  }

  /** A projected row is the row with its columns in the shape's order. */
  lemma {:induction false} ProjectionIsSame(nodes: seq<ShapeNode>, row: Value)
    requires WellNamed(nodes) && Proper(row) && ShapeFits(nodes, row)
    ensures SameMap(Dict(ProjectPairs(nodes, row)), row)
    decreases nodes
  {
    var pairs := ProjectPairs(nodes, row);
    NamesAreKeys(nodes, row);
    ProjectedKeys(nodes, row);
    forall k | 0 <= k < |row.pairs| ensures SameEntry(pairs, row.pairs[k]) {
      assert HasKey(row.pairs, row.pairs[k].key);
      var i := NameIndex(nodes, row.pairs[k].key);
      ProjectedAt(nodes, row, i);
      NamedAt(nodes, i);
      LookupAt(row.pairs, k);
      LookupAt(pairs, i);
      ProperItem(row, nodes[i].wire);
      if nodes[i].children != [] { ProjectionIsSame(nodes[i].children, row.pairs[k].value); }
    }
  }

  lemma {:induction false} ShapedRowIsSame(rows: seq<Value>, depth: nat, nodes: seq<ShapeNode>, i: nat)
    requires i < |rows| && AllProper(rows) && BuildShape(rows, depth) == Shaped(nodes)
    ensures SameMap(Dict(ProjectPairs(nodes, rows[i])), rows[i])
  {
    ShapeIsNamed(rows, depth, nodes);
    ShapedRowsFit(rows, depth, nodes, i);
    ProjectionIsSame(nodes, rows[i]);
  }

  // ----- what comes back is the same value ------------------------------------------------------

  /** Normalising a value changes neither its keys nor its values, only the order of keys. */
  lemma {:induction false} NormIsSame(value: Value, inList: bool)
    requires Proper(value)
    ensures SameMap(Norm(value, inList), value)
    decreases value, 1
  {
    match value
    case Seq(items) =>
      if !inList && ShapeOf(items).Shaped? {
        forall i | 0 <= i < |items| ensures SameMap(ProjectRows(ShapeOf(items).nodes, items)[i], items[i]) {
          ShapedRowIsSame(items, 0, ShapeOf(items).nodes, i);
        }
      } else {
        NormItemsAreSame(items);
      }
    case Dict(pairs) =>
      ProperDict(pairs);
      if !inList && KeyedShape(pairs, 0).Shaped? {
        KeyedIsSame(pairs);
      } else {
        NormPairsAreSame(pairs);
      }
    case _ =>
  }

  lemma {:induction false} NormItemsAreSame(items: seq<Value>)
    requires AllProper(items)
    ensures forall i :: 0 <= i < |items| ==> SameMap(NormItems(items)[i], items[i])
    decreases items, 0
  {
    if items != [] {
      assert Proper(items[0]);
      NormIsSame(items[0], true);
      NormItemsAreSame(items[1..]);
      assert forall i :: 0 < i < |items| ==> NormItems(items)[i] == NormItems(items[1..])[i - 1] && items[i] == items[1..][i - 1];
    }
  }

  lemma {:induction false} NormPairAt(pairs: seq<Pair>, i: nat)
    requires i < |pairs|
    ensures NormPairs(pairs)[i] == NormPair(pairs[i])
  {
    hide NormPair;
    if i > 0 { NormPairAt(pairs[1..], i - 1); }
  }

  lemma {:induction false} NormPairsAreSame(pairs: seq<Pair>)
    requires ProperPairs(pairs)
    ensures SameMap(Dict(NormPairs(pairs)), Dict(pairs))
    decreases pairs, 0
  {
    var normed := NormPairs(pairs);
    NormNames(pairs);
    forall i | 0 <= i < |pairs| ensures SameEntry(normed, pairs[i]) {
      NormPairAt(pairs, i);
      LookupAt(normed, i);
      assert ProperPair(pairs[i]);
      NormIsSame(pairs[i].value, false);
      assert HasKey(normed, pairs[i].key);
    }
  }

  lemma {:induction false} KeyedIsSame(pairs: seq<Pair>)
    requires ProperPairs(pairs) && KeyedShape(pairs, 0).Shaped?
    ensures SameMap(Dict(ProjectEach(KeyedShape(pairs, 0).nodes, pairs)), Dict(pairs))
  {
    var nodes, rows := KeyedShape(pairs, 0).nodes, ValuesOf(pairs);
    var each := ProjectEach(nodes, pairs);
    ProjectedNames(nodes, pairs);
    forall i | 0 <= i < |rows| ensures Proper(rows[i]) { assert ProperPair(pairs[i]); }
    forall i | 0 <= i < |pairs| ensures SameEntry(each, pairs[i]) {
      LookupAt(each, i);
      assert each[i].key == pairs[i].key;
      ShapedRowIsSame(rows, 0, nodes, i);
    }
  }

  // ----- projected rows have the same shape and the same cells ----------------------------------

  function NormCells(cells: seq<Value>): (r: seq<Value>)
    ensures |r| == |cells|
  {
    seq(|cells|, i requires 0 <= i < |cells| => NormScalar(cells[i]))
  }

  lemma {:induction false} NormCellsConcat(a: seq<Value>, b: seq<Value>)
    ensures NormCells(a + b) == NormCells(a) + NormCells(b)
  {
  }

  /** Looking a projected column up gives the projected node. */
  lemma {:induction false} ProjectedItem(nodes: seq<ShapeNode>, row: Value, i: nat)
    requires i < |nodes| && WellNamed(nodes) && ColumnsHold(nodes, row)
    ensures GetItem(Dict(ProjectPairs(nodes, row)), nodes[i].wire) == Some(ProjectNode(nodes[i], row).value)
  {
    ProjectedKeys(nodes, row);
    ProjectedAt(nodes, row, i);
    LookupAt(ProjectPairs(nodes, row), i);
  }

  /** The cells of a projected row are the cells of the row, integral floats as integers. */
  lemma {:induction false} ProjectedCells(nodes: seq<ShapeNode>, row: Value)
    requires WellNamed(nodes) && ColumnsHold(nodes, row)
    ensures RowCells(nodes, row).Some?
    ensures RowCells(nodes, Dict(ProjectPairs(nodes, row))) == Some(NormCells(RowCells(nodes, row).value))
    decreases nodes, 1
  {
    assert nodes[..0] == [];
    ProjectedCellsFrom(nodes, row, 0);
    assert nodes[0..] == nodes;
  }

  /** The same for the columns from the `i`-th on. */
  lemma {:induction false} ProjectedCellsFrom(nodes: seq<ShapeNode>, row: Value, i: nat)
    requires i <= |nodes| && WellNamed(nodes) && ColumnsHold(nodes, row)
    ensures RowCells(nodes[i..], row).Some?
    ensures RowCells(nodes[i..], Dict(ProjectPairs(nodes, row))) == Some(NormCells(RowCells(nodes[i..], row).value))
    decreases nodes, 0, |nodes| - i
  {
    if i < |nodes| {
      var node, projected := nodes[i], Dict(ProjectPairs(nodes, row));
      assert nodes[i..][0] == node && nodes[i..][1..] == nodes[i + 1..];
      ProjectedItem(nodes, row, i);
      ProjectedAt(nodes, row, i);
      NamedAt(nodes, i);
      ProjectedCellsFrom(nodes, row, i + 1);
      var item := GetItem(row, node.wire).value;
      if node.children == [] {
        assert NodeCells(node, row) == Some([item]) && NodeCells(node, projected) == Some([NormScalar(item)]);
        assert NormCells([item]) == [NormScalar(item)];
      } else {
        ProjectedCells(node.children, item);
      }
      NormCellsConcat(NodeCells(node, row).value, RowCells(nodes[i + 1..], row).value);
    }
  }

  function ProjectedValue(node: ShapeNode, item: Value): Value {
    if node.children == [] then NormScalar(item) else Dict(ProjectPairs(node.children, item))
  }

  lemma {:induction false} ProjectedCell(nodes: seq<ShapeNode>, row: Value, k: nat, item: Value)
    requires k < |nodes| && WellNamed(nodes) && ColumnsHold(nodes, row) && GetItem(row, nodes[k].wire) == Some(item)
    ensures GetItem(Dict(ProjectPairs(nodes, row)), nodes[k].wire) == Some(ProjectedValue(nodes[k], item))
  {
    hide ColumnsHold, WellNamed, ProjectPairs;
    ProjectedItem(nodes, row, k);
  }

  /** A column of projected rows: the scalars as they come back, or the rows projected on the group. */
  lemma {:induction false} ProjectedColumn(nodes: seq<ShapeNode>, rows: seq<Value>, k: nat, column: seq<Value>)
    requires k < |nodes| && WellNamed(nodes) && Column(rows, nodes[k].wire) == Some(column)
    requires forall i :: 0 <= i < |rows| ==> ColumnsHold(nodes, rows[i])
    ensures Column(ProjectRows(nodes, rows), nodes[k].wire) ==
            Some(if nodes[k].children == [] then NormCells(column) else ProjectRows(nodes[k].children, column))
  {
    hide ColumnsHold, WellNamed, ProjectPairs, GetItem, NormScalar;
    var projected := seq(|column|, i requires 0 <= i < |column| => ProjectedValue(nodes[k], column[i]));
    var all := ProjectRows(nodes, rows);
    forall i | 0 <= i < |rows| ensures GetItem(all[i], nodes[k].wire) == Some(projected[i]) {
      ProjectedCell(nodes, rows[i], k, column[i]);
    }
    ColumnIs(all, nodes[k].wire, projected);
    assert projected == if nodes[k].children == [] then NormCells(column) else ProjectRows(nodes[k].children, column);
  }

  /** Where shape discovery found a node, it looked at that column alone. */
  lemma {:induction false} NodeOfColumns(rows: seq<Value>, columns: seq<Pair>, depth: nat, nodes: seq<ShapeNode>, k: nat)
    requires rows != [] && ShapeColumns(rows, columns, depth) == Shaped(nodes) && k < |nodes|
    ensures ShapeColumn(rows, nodes[k].wire, depth) == Shaped([nodes[k]])
    decreases |columns|
  {
    hide ShapeColumn;
    var first, others := ShapeColumn(rows, columns[0].key, depth).nodes, ShapeColumns(rows, columns[1..], depth).nodes;
    assert first == [first[0]] && nodes == first + others;
    if k > 0 { NodeOfColumns(rows, columns[1..], depth, others, k - 1); }
  }

  /** Projected rows have the shape they were projected on. */
  lemma {:induction false} ProjectedShape(nodes: seq<ShapeNode>, rows: seq<Value>, depth: nat)
    requires rows != [] && AllProper(rows) && BuildShape(rows, depth) == Shaped(nodes)
    ensures BuildShape(ProjectRows(nodes, rows), depth) == Shaped(nodes)
    decreases nodes, 1
  {
    ShapeIsNamed(rows, depth, nodes);
    forall i | 0 <= i < |rows| ensures ColumnsHold(nodes, rows[i]) && DistinctKeys(ProjectPairs(nodes, rows[i])) {
      ShapedRowsFit(rows, depth, nodes, i);
      ProjectedKeys(nodes, rows[i]);
    }
    var all := ProjectRows(nodes, rows);
    forall i | 0 <= i < |rows| ensures FitsKeys(all[i], all[0].pairs) {
      ProjectedKeys(nodes, rows[i]);
      ProjectedKeys(nodes, rows[0]);
      assert forall k :: 0 <= k < |nodes| ==> HasKey(all[0].pairs, all[0].pairs[k].key);
    }
    forall k | 0 <= k < |nodes| ensures ShapeColumn(all, all[0].pairs[k].key, depth) == Shaped([nodes[k]]) {
      NodeOfColumns(rows, rows[0].pairs, depth, nodes, k);
      ProjectedColumnShape(nodes, rows, depth, k);
      ProjectedAt(nodes, rows[0], k);
    }
    ShapedColumns(all, all[0].pairs, depth, nodes);
  }

  /** Columns that are shaped one by one are shaped together. */
  lemma {:induction false} ShapedColumns(rows: seq<Value>, columns: seq<Pair>, depth: nat, nodes: seq<ShapeNode>)
    requires rows != [] && |columns| == |nodes|
    requires forall k :: 0 <= k < |nodes| ==> ShapeColumn(rows, columns[k].key, depth) == Shaped([nodes[k]])
    ensures ShapeColumns(rows, columns, depth) == Shaped(nodes)
    decreases |columns|
  {
    hide ShapeColumn;
    if columns != [] {
      ShapedColumns(rows, columns[1..], depth, nodes[1..]);
      assert ShapeColumn(rows, columns[0].key, depth) == Shaped([nodes[0]]);
      assert [nodes[0]] + nodes[1..] == nodes;
    }
  }

  lemma {:induction false} ProjectedColumnShape(nodes: seq<ShapeNode>, rows: seq<Value>, depth: nat, k: nat)
    requires rows != [] && AllProper(rows) && WellNamed(nodes) && k < |nodes|
    requires ShapeColumn(rows, nodes[k].wire, depth) == Shaped([nodes[k]])
    requires forall i :: 0 <= i < |rows| ==> ColumnsHold(nodes, rows[i])
    ensures ShapeColumn(ProjectRows(nodes, rows), nodes[k].wire, depth) == Shaped([nodes[k]])
    decreases nodes, 0, 0
  {
    var column := Column(rows, nodes[k].wire).value;
    ProjectedColumn(nodes, rows, k, column);
    if AllScalars(column) {
      assert nodes[k].children == [];
      assert AllScalars(NormCells(column));
    } else {
      assert BuildShape(column, depth + 1) == Shaped(nodes[k].children);
      forall i | 0 <= i < |rows| ensures Proper(column[i]) {
        assert GetItem(rows[i], nodes[k].wire) == Some(column[i]);
        ProperItem(rows[i], nodes[k].wire);
      }
      ProjectedShape(nodes[k].children, column, depth + 1);
      assert !IsScalar(ProjectRows(nodes[k].children, column)[0]);
    }
  }

  // ----- shape discovery does not depend on key order -------------------------------------------

  lemma {:induction false} SameKeySets(a: Value, b: Value)
    requires SameMap(a, b) && b.Dict? && DistinctKeys(a.pairs) && DistinctKeys(b.pairs)
    ensures forall key :: HasKey(a.pairs, key) <==> HasKey(b.pairs, key)
  {
    assert forall i :: 0 <= i < |b.pairs| ==> SameEntry(a.pairs, b.pairs[i]);
    FitsKeysMeansSameSet(a, b.pairs);
  }

  lemma {:induction false} SameItem(a: Value, b: Value, key: bytes)
    requires SameMap(a, b) && b.Dict? && Wellkeyed(a) && Wellkeyed(b) && HasKey(b.pairs, key)
    ensures GetItem(a, key).Some? && GetItem(b, key).Some?
    ensures SameMap(GetItem(a, key).value, GetItem(b, key).value)
    ensures Wellkeyed(GetItem(a, key).value) && Wellkeyed(GetItem(b, key).value)
  {
    var i :| 0 <= i < |b.pairs| && b.pairs[i].key == key;
    LookupAt(b.pairs, i);
    assert SameEntry(a.pairs, b.pairs[i]);
    var j :| 0 <= j < |a.pairs| && a.pairs[j] == Pair(key, Lookup(a.pairs, key).value);
  }

  predicate AllSame(a: seq<Value>, b: seq<Value>) {
    |a| == |b| && forall i :: 0 <= i < |a| ==> SameMap(a[i], b[i]) && Wellkeyed(a[i]) && Wellkeyed(b[i])
  }

  lemma {:induction false} SameColumn(a: seq<Value>, b: seq<Value>, key: bytes)
    requires AllSame(a, b) && forall i :: 0 <= i < |b| ==> b[i].Dict? && HasKey(b[i].pairs, key)
    ensures Column(a, key).Some? && Column(b, key).Some? && AllSame(Column(a, key).value, Column(b, key).value)
  {
    hide Wellkeyed, SameMap;
    forall i | 0 <= i < |b|
      ensures GetItem(a[i], key).Some? && GetItem(b[i], key).Some?
      ensures SameMap(GetItem(a[i], key).value, GetItem(b[i], key).value)
      ensures Wellkeyed(GetItem(a[i], key).value) && Wellkeyed(GetItem(b[i], key).value)
    {
      SameItem(a[i], b[i], key);
    }
  }

  lemma {:induction false} SameScalars(a: seq<Value>, b: seq<Value>)
    requires AllSame(a, b)
    ensures AllScalars(a) <==> AllScalars(b)
  {
    forall i | 0 <= i < |a| ensures IsScalar(a[i]) <==> IsScalar(b[i]) { assert SameMap(a[i], b[i]); }
  }

  lemma {:induction false} SameUniform(a: seq<Value>, b: seq<Value>)
    requires AllSame(a, b) && b != []
    ensures Uniform(a) <==> Uniform(b)
    decreases Weight(b[0])
  {
    forall i | 0 <= i < |b| && b[i].Dict?
      ensures a[i].Dict? && |a[i].pairs| == |b[i].pairs|
      ensures forall key :: HasKey(a[i].pairs, key) <==> HasKey(b[i].pairs, key)
    {
      SameKeySets(a[i], b[i]);
    }
    assert forall i :: 0 <= i < |b| ==> SameMap(a[i], b[i]);
    if OneKeySet(b) {
      forall key | HasKey(b[0].pairs, key) ensures UniformColumn(a, key) <==> UniformColumn(b, key) {
        SameColumn(a, b, key);
        var x, y := Column(a, key).value, Column(b, key).value;
        assert GetItem(b[0], key) == Some(y[0]);
        SameScalars(x, y);
        SameUniform(x, y);
      }
    }
  }

  ghost predicate OneKeySet(rows: seq<Value>)
    requires rows != []
  {
    && (forall i :: 0 <= i < |rows| ==> rows[i].Dict? && rows[i].pairs != [])
    && (forall i, key :: 0 <= i < |rows| ==> (HasKey(rows[i].pairs, key) <==> HasKey(rows[0].pairs, key)))
  }

  /** Rows that are the same up to key order have a shape together, unless the limit interferes. */
  lemma {:induction false} SameShapeKind(a: seq<Value>, b: seq<Value>, depth: nat)
    requires AllSame(a, b) && b != [] && BuildShape(b, depth).NoShape?
    ensures !BuildShape(a, depth).Shaped?
  {
    hide AllSame, SameMap, Uniform;
    SameUniform(a, b);
    RowsAreKeyed(a, b);
    ShapedIffUniform(a, depth);
    ShapedIffUniform(b, depth);
  }

  lemma {:induction false} RowsAreKeyed(a: seq<Value>, b: seq<Value>)
    requires AllSame(a, b)
    ensures |a| == |b| && forall i :: 0 <= i < |b| ==> Wellkeyed(a[i]) && Wellkeyed(b[i])
  {
  }

  // ----- what comes back is a proper value again --------------------------------------------------

  lemma {:induction false} ProperIsKeyed(value: Value)
    requires Proper(value)
    ensures Wellkeyed(value)
    decreases value
  {
    match value
    case Seq(items) => forall i | 0 <= i < |items| ensures Wellkeyed(items[i]) { ProperIsKeyed(items[i]); }
    case Dict(pairs) =>
      forall i | 0 <= i < |pairs| ensures Wellkeyed(pairs[i].value) {
        assert ProperPair(pairs[i]);
        ProperIsKeyed(pairs[i].value);
      }
    case _ =>
  }

  lemma {:induction false} ProjectionIsProper(nodes: seq<ShapeNode>, row: Value)
    requires WellNamed(nodes) && Proper(row) && ShapeFits(nodes, row)
    ensures Proper(Dict(ProjectPairs(nodes, row)))
    decreases nodes
  {
    var pairs := ProjectPairs(nodes, row);
    ProjectedKeys(nodes, row);
    forall k | 0 <= k < |pairs| ensures ProperPair(pairs[k]) {
      ProjectedAt(nodes, row, k);
      NamedAt(nodes, k);
      ProperItem(row, nodes[k].wire);
      if nodes[k].children != [] { ProjectionIsProper(nodes[k].children, GetItem(row, nodes[k].wire).value); }
    }
  }

  lemma {:induction false} ShapedRowIsProper(rows: seq<Value>, depth: nat, nodes: seq<ShapeNode>, i: nat)
    requires i < |rows| && AllProper(rows) && BuildShape(rows, depth) == Shaped(nodes)
    ensures Proper(Dict(ProjectPairs(nodes, rows[i])))
  {
    ShapeIsNamed(rows, depth, nodes);
    ShapedRowsFit(rows, depth, nodes, i);
    ProjectionIsProper(nodes, rows[i]);
  }

  lemma {:induction false} NormIsProper(value: Value, inList: bool)
    requires Proper(value)
    ensures Proper(Norm(value, inList))
    decreases value, 1
  {
    match value
    case Seq(items) =>
      if !inList && ShapeOf(items).Shaped? {
        forall i | 0 <= i < |items| ensures Proper(ProjectRows(ShapeOf(items).nodes, items)[i]) {
          ShapedRowIsProper(items, 0, ShapeOf(items).nodes, i);
        }
      } else {
        NormItemsAreProper(items);
      }
    case Dict(pairs) =>
      ProperDict(pairs);
      if !inList && KeyedShape(pairs, 0).Shaped? {
        KeyedIsProper(pairs);
      } else {
        NormPairsAreProper(pairs);
      }
    case _ =>
  }

  lemma {:induction false} NormItemsAreProper(items: seq<Value>)
    requires AllProper(items)
    ensures AllProper(NormItems(items))
    decreases items, 0
  {
    if items != [] {
      assert Proper(items[0]);
      NormIsProper(items[0], true);
      NormItemsAreProper(items[1..]);
      assert forall i :: 0 < i < |items| ==> NormItems(items)[i] == NormItems(items[1..])[i - 1];
    }
  }

  lemma {:induction false} NormPairsAreProper(pairs: seq<Pair>)
    requires ProperPairs(pairs) && |pairs| < USIZE_LIMIT
    ensures Proper(Dict(NormPairs(pairs))) && ProperPairs(NormPairs(pairs))
    decreases pairs, 0
  {
    NormNames(pairs);
    forall i | 0 <= i < |pairs| ensures ProperPair(NormPairs(pairs)[i]) {
      NormPairAt(pairs, i);
      assert ProperPair(pairs[i]);
      NormIsProper(pairs[i].value, false);
    }
  }

  lemma {:induction false} KeyedIsProper(pairs: seq<Pair>)
    requires ProperPairs(pairs) && |pairs| < USIZE_LIMIT && KeyedShape(pairs, 0).Shaped?
    ensures Proper(Dict(ProjectEach(KeyedShape(pairs, 0).nodes, pairs)))
  {
    var nodes, rows := KeyedShape(pairs, 0).nodes, ValuesOf(pairs);
    var each := ProjectEach(nodes, pairs);
    ProjectedNames(nodes, pairs);
    forall i | 0 <= i < |rows| ensures Proper(rows[i]) { assert ProperPair(pairs[i]); }
    forall i | 0 <= i < |pairs| ensures ProperPair(each[i]) {
      ShapedRowIsProper(rows, 0, nodes, i);
      assert ProperPair(pairs[i]);
    }
  }

  // ----- nesting --------------------------------------------------------------------------------

  /** Levels of lists and dictionaries. */
  function Height(value: Value): nat
    decreases value, 1
  {
    match value
    case Seq(items) => 1 + ItemsHeight(items)
    case Dict(pairs) => 1 + PairsHeight(pairs)
    case _ => 0
  }

  function ItemsHeight(items: seq<Value>): nat
    decreases items, 0
  {
    if items == [] then 0 else Tokens.Max(Height(items[0]), ItemsHeight(items[1..]))
  }

  function PairsHeight(pairs: seq<Pair>): nat
    decreases pairs, 0
  {
    if pairs == [] then 0 else Tokens.Max(PairHeight(pairs[0]), PairsHeight(pairs[1..]))
  }

  function PairHeight(pair: Pair): nat
    decreases pair, 2
  {
    Height(pair.value)
  }

  lemma {:induction false} ItemHeight(items: seq<Value>, i: nat)
    requires i < |items|
    ensures Height(items[i]) <= ItemsHeight(items)
  {
    if i > 0 { ItemHeight(items[1..], i - 1); }
  }

  lemma {:induction false} EntryHeight(pairs: seq<Pair>, i: nat)
    requires i < |pairs|
    ensures Height(pairs[i].value) <= PairsHeight(pairs)
  {
    assert PairHeight(pairs[0]) == Height(pairs[0].value);
    if i > 0 { EntryHeight(pairs[1..], i - 1); }
  }

  lemma {:induction false} HeightBound(pairs: seq<Pair>, n: nat)
    requires forall i :: 0 <= i < |pairs| ==> Height(pairs[i].value) <= n
    ensures PairsHeight(pairs) <= n
  {
    if pairs != [] {
      assert PairHeight(pairs[0]) == Height(pairs[0].value);
      HeightBound(pairs[1..], n);
    }
  }

  lemma {:induction false} ItemsHeightBound(items: seq<Value>, n: nat)
    requires forall i :: 0 <= i < |items| ==> Height(items[i]) <= n
    ensures ItemsHeight(items) <= n
  {
    if items != [] { ItemsHeightBound(items[1..], n); }
  }

  /** Reordering keys keeps the height. */
  lemma {:induction false} SameHeight(a: Value, b: Value)
    requires SameMap(a, b) && Wellkeyed(a) && Wellkeyed(b)
    ensures Height(a) <= Height(b)
    decreases b
  {
    match b
    case Seq(items) =>
      forall i | 0 <= i < |items| ensures Height(a.items[i]) <= ItemsHeight(items) {
        SameHeight(a.items[i], items[i]);
        ItemHeight(items, i);
      }
      ItemsHeightBound(a.items, ItemsHeight(items));
    case Dict(pairs) =>
      SameKeySets(a, b);
      forall i | 0 <= i < |a.pairs| ensures Height(a.pairs[i].value) <= PairsHeight(pairs) {
        assert HasKey(a.pairs, a.pairs[i].key);
        var j :| 0 <= j < |pairs| && pairs[j].key == a.pairs[i].key;
        SameItem(a, b, pairs[j].key);
        LookupAt(a.pairs, i);
        LookupAt(pairs, j);
        SameHeight(a.pairs[i].value, pairs[j].value);
        EntryHeight(pairs, j);
      }
      HeightBound(a.pairs, PairsHeight(pairs));
    case _ =>
  }

  predicate RowsWithin(rows: seq<Value>, depth: nat) {
    depth <= Scan.MAX_NESTING_DEPTH && forall i :: 0 <= i < |rows| ==> depth + Height(rows[i]) <= Scan.MAX_NESTING_DEPTH + 1
  }

  /** Shape discovery in rows that nest little enough does not hit the limit. */
  lemma {:induction false} LowRowsFit(rows: seq<Value>, depth: nat)
    requires rows != [] && RowsWithin(rows, depth)
    ensures !BuildShape(rows, depth).TooDeep?
    decreases Weight(rows[0]), 1, 0
  {
    if SameKeys(rows) { LowColumnsFit(rows, rows[0].pairs, depth); }
  }

  lemma {:induction false} LowColumnsFit(rows: seq<Value>, columns: seq<Pair>, depth: nat)
    requires rows != [] && RowsWithin(rows, depth)
    ensures !ShapeColumns(rows, columns, depth).TooDeep?
    decreases Weight(rows[0]), 0, |columns|
  {
    if columns != [] {
      LowColumnFits(rows, columns[0].key, depth);
      LowColumnsFit(rows, columns[1..], depth);
    }
  }

  lemma {:induction false} LowColumnFits(rows: seq<Value>, key: bytes, depth: nat)
    requires rows != [] && RowsWithin(rows, depth)
    ensures !ShapeColumn(rows, key, depth).TooDeep?
    decreases Weight(rows[0]), 0, 0
  {
    match Column(rows, key)
    case None =>
    case Some(column) =>
      hide Height;
      forall i | 0 <= i < |rows| ensures depth + 1 + Height(column[i]) <= Scan.MAX_NESTING_DEPTH + 1 {
        assert GetItem(rows[i], key) == Some(column[i]);
        ItemIsLower(rows[i], key);
      }
      if !AllScalars(column) {
        var i :| 0 <= i < |column| && !IsScalar(column[i]);
        ContainersHaveHeight(column[i]);
        LowRowsFit(column, depth + 1);
      }
  }

  lemma {:induction false} ItemIsLower(row: Value, key: bytes)
    requires GetItem(row, key).Some?
    ensures Height(GetItem(row, key).value) + 1 <= Height(row)
  {
    var j :| 0 <= j < |row.pairs| && row.pairs[j] == Pair(key, GetItem(row, key).value);
    EntryHeight(row.pairs, j);
  }

  lemma {:induction false} ContainersHaveHeight(value: Value)
    requires !IsScalar(value)
    ensures Height(value) >= 1
  {
  }
}
