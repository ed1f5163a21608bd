/** How deep the lines of a value lie, told from the value alone (src/encode.rs). */
module Reach {
  import opened Bytes
  import opened Tokens
  import opened Header
  import opened Values
  import opened Shapes
  import opened QuoteDecision
  import opened Render
  import opened Layout
  import opened ReadRows
  import opened Faithful
  import opened ReadBack
  import Cells

  // ----- levels below the line a construct starts on ------------------------------------------

  function EntryReach(value: Value): nat
    decreases value, 2
  {
    match value
    case Seq(items) => ArrayReach(items, false)
    case Dict(pairs) => if KeyedShape(pairs, 0).Shaped? then 1 else Below(pairs)
    case _ => 0
  }

  /** The entries of an object, one level below its line. */
  function Below(pairs: seq<Pair>): nat
    decreases pairs, 1
  {
    if pairs == [] then 0 else 1 + PairsReach(pairs)
  }

  function PairsReach(pairs: seq<Pair>): nat
    decreases pairs, 0
  {
    if pairs == [] then 0 else Max(PairReach(pairs[0]), PairsReach(pairs[1..]))
  }

  function PairReach(pair: Pair): nat
    decreases pair, 3
  {
    EntryReach(pair.value)
  }

  function ArrayReach(items: seq<Value>, inList: bool): nat
    decreases items, 1
  {
    if items == [] then 0
    else if !inList && ShapeOf(items).Shaped? then 1
    else if AllScalars(items) then 0
    else 1 + ItemsReach(items)
  }

  function ItemsReach(items: seq<Value>): nat
    decreases items, 0
  {
    if items == [] then 0 else Max(ItemReach(items[0]), ItemsReach(items[1..]))
  }

  /** The first field of an object item stands on the dash line, the others one level below. */
  function ItemReach(item: Value): nat
    decreases item, 2
  {
    match item
    case Seq(items) => ArrayReach(items, true)
    case Dict(pairs) => if pairs == [] then 0 else Max(Lowered(PairReach(pairs[0])), Below(pairs[1..]))
    case _ => 0
  }

  function Lowered(reach: nat): nat {
    if reach == 0 then 0 else 1 + reach
  }

  function RootReach(value: Value): nat {
    match value
    case Dict(pairs) => if KeyedShape(pairs, 0).Shaped? then 1 else PairsReach(pairs)
    case _ => EntryReach(value)
  }

  // ----- the lines lie exactly that deep ----------------------------------------------------------

  predicate Within(lines: seq<OutLine>, limit: nat) {
    forall i :: 0 <= i < |lines| ==> lines[i].depth <= limit
  }

  lemma {:induction false} WithinConcat(a: seq<OutLine>, b: seq<OutLine>, limit: nat)
    ensures Within(a + b, limit) <==> Within(a, limit) && Within(b, limit)
  {
    var all := a + b;
    assert forall i :: 0 <= i < |a| ==> all[i] == a[i];
    assert forall i :: 0 <= i < |b| ==> all[|a| + i] == b[i];
  }

  lemma {:induction false} StandingWithin(block: Block, depth: nat, limit: nat)
    ensures Within(Standing(block, depth), limit) <==> depth <= limit && Within(block.tail, limit)
  {
    WithinConcat([OutLine(depth, block.head)], block.tail, limit);
    assert [OutLine(depth, block.head)][0].depth == depth;
  }

  lemma {:induction false} TableWithin(nodes: seq<ShapeNode>, rows: seq<Value>, depth: nat, delimiter: byte, lines: seq<OutLine>, limit: nat)
    requires TableLines(nodes, rows, depth, delimiter) == Some(lines)
    ensures Within(lines, limit) <==> rows == [] || depth <= limit
  {
    hide RowText;
    if rows != [] {
      TableWithin(nodes, rows[1..], depth, delimiter, lines[1..], limit);
      WithinConcat([lines[0]], lines[1..], limit);
      assert lines == [lines[0]] + lines[1..] && lines[0].depth == depth;
    }
  }

  lemma {:induction false} KeyedWithin(nodes: seq<ShapeNode>, pairs: seq<Pair>, depth: nat, delimiter: byte, lines: seq<OutLine>, limit: nat)
    requires KeyedLines(nodes, pairs, depth, delimiter) == Some(lines)
    ensures Within(lines, limit) <==> pairs == [] || depth <= limit
  {
    hide RowText;
    if pairs != [] {
      KeyedWithin(nodes, pairs[1..], depth, delimiter, lines[1..], limit);
      WithinConcat([lines[0]], lines[1..], limit);
      assert lines == [lines[0]] + lines[1..] && lines[0].depth == depth;
    }
  }

  /** A block that starts at `depth` keeps within the limit when its reach does. */
  predicate Reaches(block: Block, depth: nat, reach: nat, limit: nat) {
    Within(block.tail, limit) <==> reach == 0 || depth + reach <= limit
  }

  lemma {:induction false} PairReaches(pair: Pair, depth: nat, delimiter: byte, block: Block, limit: nat)
    requires PairBlock(pair, depth, delimiter) == Some(block)
    ensures Reaches(block, depth, PairReach(pair), limit)
    decreases pair, 4
  {
    assert PairBlock(pair, depth, delimiter) == EntryBlock(pair.key, pair.value, depth, delimiter) && PairReach(pair) == EntryReach(pair.value);
    match pair.value
    case Seq(items) =>
      hide PairBlock, ArrayBlock, ArrayReach;
      ArrayReaches(Named(pair.key), items, depth, 0, delimiter, block, limit);
    case Dict(pairs) =>
      hide PairBlock, ObjectBlock, KeyedShape, Below;
      ObjectReaches(pair.key, pairs, depth, delimiter, block, limit);
    case _ =>
  }

  lemma {:induction false} ObjectReaches(key: bytes, pairs: seq<Pair>, depth: nat, delimiter: byte, block: Block, limit: nat)
    requires ObjectBlock(key, pairs, depth, delimiter) == Some(block)
    ensures Reaches(block, depth, if KeyedShape(pairs, 0).Shaped? then 1 else Below(pairs), limit)
    decreases pairs, 2
  {
    hide KeyedShape, KeyedLines, EntriesLines, HeaderText, KeyText, PairsReach;
    SameKeyedShape(pairs, depth);
    match KeyedShape(pairs, depth)
    case Shaped(nodes) =>
      KeyedIsNotEmpty(pairs, depth);
      KeyedWithin(nodes, pairs, depth + 1, delimiter, block.tail, limit);
    case NoShape => EntriesReach(pairs, depth + 1, delimiter, block.tail, limit);
  }

  lemma {:induction false} KeyedIsNotEmpty(pairs: seq<Pair>, depth: nat)
    requires KeyedShape(pairs, depth).Shaped?
    ensures pairs != []
  {
  }

  lemma {:induction false} EntriesReach(pairs: seq<Pair>, depth: nat, delimiter: byte, lines: seq<OutLine>, limit: nat)
    requires EntriesLines(pairs, depth, delimiter) == Some(lines)
    ensures Within(lines, limit) <==> pairs == [] || depth + PairsReach(pairs) <= limit
    decreases pairs, 0
  {
    if pairs != [] {
      hide PairBlock, PairReach, Within;
      var first, others := PairBlock(pairs[0], depth, delimiter).value, EntriesLines(pairs[1..], depth, delimiter).value;
      PairReaches(pairs[0], depth, delimiter, first, limit);
      EntriesReach(pairs[1..], depth, delimiter, others, limit);
      StandingWithin(first, depth, limit);
      WithinConcat(Standing(first, depth), others, limit);
    }
  }

  lemma {:induction false} ArrayReaches(place: Place, items: seq<Value>, depth: nat, nesting: nat, delimiter: byte, block: Block, limit: nat)
    requires ArrayBlock(place, items, depth, nesting, delimiter) == Some(block)
    ensures Reaches(block, depth, ArrayReach(items, place.InList?), limit)
    decreases items, 1
  {
    if items != [] {
      var shape := ArrayShape(place, items, nesting);
      assert !shape.TooDeep?;
      if !place.InList? { SameShape(items, nesting); }
      hide BuildShape, TableLines, ItemsLines, HeaderText, CellTexts, Cells.Join, ItemsReach;
      if shape.Shaped? {
        TableWithin(shape.nodes, items, depth + 1, delimiter, block.tail, limit);
      } else if !AllScalars(items) {
        ListReaches(items, depth + 1, nesting + 1, delimiter, block.tail, limit);
      }
    }
  }

  lemma {:induction false} ListReaches(items: seq<Value>, depth: nat, nesting: nat, delimiter: byte, lines: seq<OutLine>, limit: nat)
    requires ItemsLines(items, depth, nesting, delimiter) == Some(lines)
    ensures Within(lines, limit) <==> items == [] || depth + ItemsReach(items) <= limit
    decreases items, 0
  {
    if items != [] {
      hide ItemBlock, ItemReach, Within;
      var first, others := ItemBlock(items[0], depth, nesting, delimiter).value, ItemsLines(items[1..], depth, nesting, delimiter).value;
      ItemReaches(items[0], depth, nesting, delimiter, first, limit);
      ListReaches(items[1..], depth, nesting, delimiter, others, limit);
      StandingWithin(first, depth, limit);
      WithinConcat(Standing(first, depth), others, limit);
    }
  }

  lemma {:induction false} ItemReaches(item: Value, depth: nat, nesting: nat, delimiter: byte, block: Block, limit: nat)
    requires ItemBlock(item, depth, nesting, delimiter) == Some(block)
    ensures Reaches(block, depth, ItemReach(item), limit)
    decreases item, 3
  {
    match item
    case Seq(items) =>
      hide ArrayBlock, ArrayReach;
      ArrayReaches(InList, items, depth, nesting + 1, delimiter, ArrayBlock(InList, items, depth, nesting + 1, delimiter).value, limit);
    case Dict(pairs) =>
      if pairs != [] {
        hide PairBlock, EntriesLines, PairReach, PairsReach, Within;
        var first, others := PairBlock(pairs[0], depth + 1, delimiter).value, EntriesLines(pairs[1..], depth + 1, delimiter).value;
        PairReaches(pairs[0], depth + 1, delimiter, first, limit);
        EntriesReach(pairs[1..], depth + 1, delimiter, others, limit);
        WithinConcat(first.tail, others, limit);
      }
    case _ =>
  }

  /** The document's lines keep within a depth exactly when the value's reach does. */
  lemma {:induction false} RootReaches(value: Value, delimiter: byte, lines: seq<OutLine>, limit: nat)
    requires RootLines(value, delimiter) == Some(lines)
    ensures Within(lines, limit) <==> RootReach(value) <= limit
  {
    match value
    case Seq(items) =>
      hide ArrayBlock, ArrayReach;
      var block := ArrayBlock(AtRoot, items, 0, 0, delimiter).value;
      ArrayReaches(AtRoot, items, 0, 0, delimiter, block, limit);
      StandingWithin(block, 0, limit);
    case Dict(pairs) =>
      hide KeyedShape, KeyedLines, EntriesLines, HeaderText, PairsReach;
      if KeyedShape(pairs, 0).Shaped? {
        var nodes := KeyedShape(pairs, 0).nodes;
        var block := KeyedBlock(AtRoot, pairs, nodes, 0, delimiter).value;
        KeyedIsNotEmpty(pairs, 0);
        KeyedWithin(nodes, pairs, 1, delimiter, block.tail, limit);
        StandingWithin(block, 0, limit);
      } else {
        EntriesReach(pairs, 0, delimiter, lines, limit);
        if pairs == [] { NothingReaches(); }
      }
    case _ =>
  }

  lemma {:induction false} NothingReaches()
    ensures PairsReach([]) == 0
  {
  }
}
