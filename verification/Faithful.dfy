/** Which values the canonical text brings back, and as what (src/encode.rs, src/parser.rs). */
module Faithful {
  import opened Bytes
  import opened Values
  import opened Shapes
  import opened QuoteDecision
  import opened Render
  import opened Scan
  import opened Cells
  import opened Header
  import opened ReadScalars
  import opened ReadGroups
  import opened ReadRows
  import Utf8

  /** The shape of an array outside a list; the depth only matters for the limit. */
  function ShapeOf(items: seq<Value>): ShapeResult {
    if items == [] then NoShape else BuildShape(items, 0)
  }

  // ----- what comes back ----------------------------------------------------------------

  /** The value that comes back: table rows take the key order of their shape, integral floats become
      integers, and everything else stays as it is. */
  function Norm(value: Value, inList: bool): Value
    decreases value, 1
  {
    match value
    case Seq(items) =>
      if !inList && ShapeOf(items).Shaped? then Seq(ProjectRows(ShapeOf(items).nodes, items)) else Seq(NormItems(items))
    case Dict(pairs) =>
      if !inList && KeyedShape(pairs, 0).Shaped? then Dict(ProjectEach(KeyedShape(pairs, 0).nodes, pairs)) else Dict(NormPairs(pairs))
    case _ => NormScalar(value)
  }

  function NormItems(items: seq<Value>): (r: seq<Value>)
    ensures |r| == |items|
    decreases items, 0
  {
    if items == [] then [] else [Norm(items[0], true)] + NormItems(items[1..])
  }

  function NormPairs(pairs: seq<Pair>): (r: seq<Pair>)
    ensures |r| == |pairs|
    decreases pairs, 0
  {
    if pairs == [] then [] else [NormPair(pairs[0])] + NormPairs(pairs[1..])
  }

  function NormPair(pair: Pair): (r: Pair)
    ensures r.key == pair.key
    decreases pair, 1
  {
    Pair(pair.key, Norm(pair.value, false))
  }

  // ----- what does not come back ------------------------------------------------------------

  /** An entry string that loses its end: long, unquoted, and closed by a space. */
  predicate LosesSpace(text: bytes, delimiter: byte) {
    LongEntry(text) && !HasForcing(text, delimiter) && text[|text| - 1] == SPACE
  }

  /** An unquoted string the header grammar claims: a bracket behind its first byte. */
  predicate LooksLikeHeader(text: bytes, delimiter: byte) {
    !MustQuote(text, delimiter) && LBRACKET in text
  }

  /** A field group whose braces are closed and nest past the limit. */
  predicate DeepGroup(text: bytes, cursor: nat) {
    && At(text, cursor) == Some(LBRACE) && MatchFrom(text, cursor, false, 0, 0).Some?
    && MatchFrom(text, cursor, false, 0, 0).value.deepest > MAX_NESTING_DEPTH
  }

  /** A length in brackets that opens at `start`, directly behind its key, and a group past the limit directly behind it. */
  predicate DeepBracket(text: bytes, start: nat)
    requires start < |text|
  {
    && (start > 0 ==> text[start - 1] != SPACE)
    && var end := FirstUnquoted(text, RBRACKET, start + 1);
       end.Some? && BracketOf(text[start + 1..end.value]).Some? && DeepGroup(text, end.value + 1)
  }

  predicate OverNested(text: bytes) {
    Marks(text).bracket.Some? && DeepBracket(text, Marks(text).bracket.value)
  }

  /** An unquoted string the parser does not take for a string: strict mode refuses whatever resembles a header,
      lenient mode only what exceeds the header's own limit. */
  predicate Claimed(text: bytes, delimiter: byte, strict: bool) {
    LooksLikeHeader(text, delimiter) && (strict || OverNested(text))
  }

  /** A header the parser accepts: its groups stay within the nesting limit. */
  predicate ShallowShape(shape: ShapeResult) {
    shape.Shaped? ==> Braces(shape.nodes) <= MAX_NESTING_DEPTH
  }

  predicate EntryReturns(value: Value, delimiter: byte, strict: bool)
    decreases value, 1
  {
    match value
    case Seq(items) => ArrayReturns(items, false, delimiter, strict)
    case Dict(pairs) =>
      if KeyedShape(pairs, 0).Shaped? then ShallowShape(KeyedShape(pairs, 0)) else PairsReturn(pairs, delimiter, strict)
    case Str(text) => !LosesSpace(text, delimiter)
    case _ => true
  }

  predicate PairsReturn(pairs: seq<Pair>, delimiter: byte, strict: bool)
    decreases pairs, 0
  {
    pairs == [] || (PairReturns(pairs[0], delimiter, strict) && PairsReturn(pairs[1..], delimiter, strict))
  }

  predicate PairReturns(pair: Pair, delimiter: byte, strict: bool)
    decreases pair, 2
  {
    EntryReturns(pair.value, delimiter, strict)
  }

  predicate ArrayReturns(items: seq<Value>, inList: bool, delimiter: byte, strict: bool)
    decreases items, 1
  {
    if !inList && ShapeOf(items).Shaped? then ShallowShape(ShapeOf(items)) else AllScalars(items) || ItemsReturn(items, delimiter, strict)
  }

  predicate ItemsReturn(items: seq<Value>, delimiter: byte, strict: bool)
    decreases items, 0
  {
    items == [] || (ItemReturns(items[0], delimiter, strict) && ItemsReturn(items[1..], delimiter, strict))
  }

  predicate ItemReturns(item: Value, delimiter: byte, strict: bool)
    decreases item, 1
  {
    match item
    case Seq(items) => ArrayReturns(items, true, delimiter, strict)
    case Dict(pairs) => PairsReturn(pairs, delimiter, strict)
    case Str(text) => !Claimed(text, delimiter, strict)
    case _ => true
  }

  /** The document comes back: as an entry, except that a root string shares the dangers of a list item
      and must not start with a byte-order mark it is not quoted for. */
  predicate RootReturns(value: Value, delimiter: byte, strict: bool) {
    if value.Str? then !Claimed(value.text, delimiter, strict) && (MustQuote(value.text, delimiter) || !StartsWith(value.text, BOM))
    else EntryReturns(value, delimiter, strict)
  }

  // ----- reading up to the failures -----------------------------------------------------------

  /** The shape a writer found at some depth is the shape at the top. */
  lemma {:induction false} SameShape(items: seq<Value>, depth: nat)
    requires items != [] && !BuildShape(items, depth).TooDeep?
    ensures ShapeOf(items) == BuildShape(items, depth)
  {
    ShapeIgnoresDepth(items, depth, 0);
  }

  lemma {:induction false} SameKeyedShape(pairs: seq<Pair>, depth: nat)
    requires !KeyedShape(pairs, depth).TooDeep?
    ensures KeyedShape(pairs, 0) == KeyedShape(pairs, depth)
  {
    if |pairs| >= 2 && forall i :: 0 <= i < |pairs| ==> pairs[i].value.Dict? {
      ShapeIgnoresDepth(ValuesOf(pairs), depth, 0);
    }
  }

  // ----- names of a shape ---------------------------------------------------------------------

  predicate Utf8Named(nodes: seq<ShapeNode>)
    decreases nodes
  {
    nodes == [] || (Utf8.ValidUtf8(nodes[0].wire) && Utf8Named(nodes[0].children) && Utf8Named(nodes[1..]))
  }

  /** A discovered shape has distinct UTF-8 names at every level. */
  lemma {:induction false} ShapeIsNamed(rows: seq<Value>, depth: nat, nodes: seq<ShapeNode>)
    requires rows != [] && AllProper(rows) && BuildShape(rows, depth) == Shaped(nodes)
    ensures WellNamed(nodes) && Utf8Named(nodes)
    decreases Weight(rows[0]), 1, 0
  {
    assert Proper(rows[0]);
    ColumnsAreNamed(rows, rows[0].pairs, depth, nodes);
  }

  lemma {:induction false} ColumnsAreNamed(rows: seq<Value>, columns: seq<Pair>, depth: nat, nodes: seq<ShapeNode>)
    requires rows != [] && AllProper(rows) && ProperPairs(columns) && ShapeColumns(rows, columns, depth) == Shaped(nodes)
    ensures WellNamed(nodes) && Utf8Named(nodes)
    ensures forall key :: NamesWire(nodes, key) <==> HasKey(columns, key)
    decreases Weight(rows[0]), 0, |columns|
  {
    if columns != [] {
      var first, others := ShapeColumn(rows, columns[0].key, depth).nodes, ShapeColumns(rows, columns[1..], depth).nodes;
      ProperStep(columns);
      ColumnIsNamed(rows, columns[0].key, depth, first[0]);
      ColumnsAreNamed(rows, columns[1..], depth, others);
      assert nodes[0] == first[0] && nodes[1..] == others;
      assert !HasKey(columns[1..], columns[0].key);
      forall key ensures NamesWire(nodes, key) <==> HasKey(columns, key) { HasKeyCons(columns, key); }
    }
  }

  lemma {:induction false} ColumnIsNamed(rows: seq<Value>, key: bytes, depth: nat, node: ShapeNode)
    requires rows != [] && AllProper(rows) && ShapeColumn(rows, key, depth) == Shaped([node])
    ensures WellNamed(node.children) && Utf8Named(node.children)
    decreases Weight(rows[0]), 0, 0
  {
    var column := Column(rows, key).value;
    forall i | 0 <= i < |rows| ensures Proper(column[i]) {
      assert GetItem(rows[i], key) == Some(column[i]);
      ProperItem(rows[i], key);
    }
    if !AllScalars(column) { ShapeIsNamed(column, depth + 1, node.children); }
  }
}
