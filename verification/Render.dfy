/** The lines the canonical encoder writes for a value (src/encode.rs). */
module Render {
  import opened Bytes
  import opened Values
  import opened Shapes
  import opened Quoting
  import opened QuoteDecision
  import Cells
  import Scan
  import Output

  // ----- scalars -------------------------------------------------------------------

  function DigitText(d: nat): byte
    requires d < 10
  {
    ZERO + d as byte
  }

  /** The decimal digits of `n` without leading zeros. */
  function DecimalText(n: nat): (r: bytes)
    ensures r != [] && AllDigits(r) && (|r| == 1 || r[0] != ZERO)
    ensures n > 0 ==> r[0] != ZERO
  {
    if n < 10 then [DigitText(n)] else DecimalText(n / 10) + [DigitText(n % 10)]
  }

  function IntText(n: int): bytes {
    if n < 0 then [MINUS] + DecimalText(-n) else DecimalText(n)
  }

  /** The spelling of a scalar; a float's spelling is part of it. */
  function ScalarText(value: Value, delimiter: byte): bytes
    requires IsScalar(value)
  {
    match value
    case Null => NULL_TEXT
    case Bool(flag) => if flag then TRUE_TEXT else FALSE_TEXT
    case Int(n) => IntText(n)
    case Float(text) => text
    case Str(text) => StringText(text, delimiter)
  }

  /** The spelling of a scalar behind `key: `. */
  function EntryScalarText(value: Value, delimiter: byte): bytes
    requires IsScalar(value)
  {
    if value.Str? then EntryStringText(value.text, delimiter) else ScalarText(value, delimiter)
  }

  function CellTexts(cells: seq<Value>, delimiter: byte): (r: seq<bytes>)
    requires AllScalars(cells)
    ensures |r| == |cells|
  {
    seq(|cells|, i requires 0 <= i < |cells| => ScalarText(cells[i], delimiter))
  }

  // ----- lines ---------------------------------------------------------------------

  datatype OutLine = OutLine(depth: nat, content: bytes)

  /** A construct whose first line may share the line of a list dash: that line's content, and the lines below. */
  datatype Block = Block(head: bytes, tail: seq<OutLine>)

  function LineText(line: OutLine, indentWidth: nat): bytes {
    Spaces(line.depth * indentWidth) + line.content + [LF]
  }

  function Flat(lines: seq<OutLine>, indentWidth: nat): bytes {
    if lines == [] then [] else LineText(lines[0], indentWidth) + Flat(lines[1..], indentWidth)
  }

  function Standing(block: Block, depth: nat): seq<OutLine> {
    [OutLine(depth, block.head)] + block.tail
  }

  // ----- headers -------------------------------------------------------------------

  /** Where an array or keyed table stands: as the document, behind a key, or as a list item. */
  datatype Place = AtRoot | Named(key: bytes) | InList

  function KeyPart(place: Place): bytes {
    match place case Named(key) => KeyText(key) case _ => []
  }

  function BracketText(count: nat, keyed: bool, delimiter: byte): bytes {
    DecimalText(count) + (if keyed then [COLON] else []) + (if delimiter == COMMA then [] else [delimiter])
  }

  function GroupText(nodes: seq<ShapeNode>, delimiter: byte): bytes
    decreases nodes, 0
  {
    if nodes == [] then []
    else if |nodes| == 1 then NodeText(nodes[0], delimiter)
    else NodeText(nodes[0], delimiter) + ([delimiter] + GroupText(nodes[1..], delimiter))
  }

  function NodeText(node: ShapeNode, delimiter: byte): bytes
    decreases node
  {
    KeyText(node.wire) + BracedGroup(node.children, delimiter)
  }

  /** A group in its braces; nothing for a leaf. */
  function BracedGroup(nodes: seq<ShapeNode>, delimiter: byte): bytes
    decreases nodes, 1
  {
    if nodes == [] then [] else [LBRACE] + (GroupText(nodes, delimiter) + [RBRACE])
  }

  function HeaderText(place: Place, count: nat, keyed: bool, delimiter: byte, nodes: seq<ShapeNode>): bytes {
    KeyPart(place) + ([LBRACKET] + (BracketText(count, keyed, delimiter) + ([RBRACKET] + (BracedGroup(nodes, delimiter) + [COLON]))))
  }

  // ----- rows ----------------------------------------------------------------------

  function RowText(nodes: seq<ShapeNode>, row: Value, delimiter: byte): Option<bytes> {
    var cells :- RowCells(nodes, row);
    if AllScalars(cells) && cells != [] then Some(Cells.Join(CellTexts(cells, delimiter), delimiter)) else None
  }

  function TableLines(nodes: seq<ShapeNode>, rows: seq<Value>, depth: nat, delimiter: byte): Option<seq<OutLine>> {
    if rows == [] then Some([])
    else
      var first :- RowText(nodes, rows[0], delimiter);
      var others :- TableLines(nodes, rows[1..], depth, delimiter);
      Some([OutLine(depth, first)] + others)
  }

  function KeyedLines(nodes: seq<ShapeNode>, pairs: seq<Pair>, depth: nat, delimiter: byte): Option<seq<OutLine>> {
    if pairs == [] then Some([])
    else
      var first :- RowText(nodes, pairs[0].value, delimiter);
      var others :- KeyedLines(nodes, pairs[1..], depth, delimiter);
      Some([KeyedLine(pairs[0].key, first, depth)] + others)
  }

  function KeyedLine(key: bytes, row: bytes, depth: nat): OutLine {
    OutLine(depth, KeyText(key) + ([COLON, SPACE] + row))
  }

  function ValuesOf(pairs: seq<Pair>): (r: seq<Value>)
    ensures |r| == |pairs| && forall i :: 0 <= i < |r| ==> r[i] == pairs[i].value
  {
    seq(|pairs|, i requires 0 <= i < |pairs| => pairs[i].value)
  }

  /** The shape of a dictionary as a keyed table: two or more entries, each an object, of one shape. */
  function KeyedShape(pairs: seq<Pair>, depth: nat): ShapeResult {
    if |pairs| < 2 || !(forall i :: 0 <= i < |pairs| ==> pairs[i].value.Dict?) then NoShape
    else BuildShape(ValuesOf(pairs), depth)
  }

  function KeyedBlock(place: Place, pairs: seq<Pair>, nodes: seq<ShapeNode>, depth: nat, delimiter: byte): Option<Block> {
    var rows :- KeyedLines(nodes, pairs, depth + 1, delimiter);
    Some(Block(HeaderText(place, |pairs|, true, delimiter, nodes), rows))
  }

  function TableBlock(place: Place, items: seq<Value>, nodes: seq<ShapeNode>, depth: nat, delimiter: byte): Option<Block> {
    var rows :- TableLines(nodes, items, depth + 1, delimiter);
    Some(Block(HeaderText(place, |items|, false, delimiter, nodes), rows))
  }

  function InlineBlock(place: Place, items: seq<Value>, delimiter: byte): Block
    requires AllScalars(items) && items != []
  {
    Block(HeaderText(place, |items|, false, delimiter, []) + ([SPACE] + Cells.Join(CellTexts(items, delimiter), delimiter)), [])
  }

  /** An empty array: `[]`, but a header of its own as a list item. */
  function EmptyBlock(place: Place, delimiter: byte): Block {
    match place
    case InList => Block(HeaderText(place, 0, false, delimiter, []), [])
    case Named(key) => Block(KeyText(key) + ([COLON, SPACE] + EMPTY_ARRAY), [])
    case AtRoot => Block(EMPTY_ARRAY, [])
  }

  // ----- the recursive structure; `None` is the nesting limit ------------------------

  /** One `key: value` entry. */
  function EntryBlock(key: bytes, value: Value, depth: nat, delimiter: byte): Option<Block>
    decreases value, 3
  {
    match value
    case Seq(items) => ArrayBlock(Named(key), items, depth, 0, delimiter)
    case Dict(pairs) => ObjectBlock(key, pairs, depth, delimiter)
    case _ => Some(Block(KeyText(key) + ([COLON, SPACE] + EntryScalarText(value, delimiter)), []))
  }

  function ObjectBlock(key: bytes, pairs: seq<Pair>, depth: nat, delimiter: byte): Option<Block>
    decreases pairs, 1
  {
    match KeyedShape(pairs, depth)
    case TooDeep => None
    case Shaped(nodes) => KeyedBlock(Named(key), pairs, nodes, depth, delimiter)
    case NoShape =>
      var entries :- EntriesLines(pairs, depth + 1, delimiter);
      Some(Block(KeyText(key) + [COLON], entries))
  }

  /** The entries of an object, checked against the limit even when there are none. */
  function EntriesLines(pairs: seq<Pair>, depth: nat, delimiter: byte): Option<seq<OutLine>>
    decreases pairs, 0
  {
    if depth > Scan.MAX_NESTING_DEPTH then None
    else if pairs == [] then Some([])
    else
      var first :- PairBlock(pairs[0], depth, delimiter);
      var others :- EntriesLines(pairs[1..], depth, delimiter);
      Some(Standing(first, depth) + others)
  }

  function PairBlock(pair: Pair, depth: nat, delimiter: byte): Option<Block>
    decreases pair, 4
  {
    EntryBlock(pair.key, pair.value, depth, delimiter)
  }

  function ArrayBlock(place: Place, items: seq<Value>, depth: nat, nesting: nat, delimiter: byte): Option<Block>
    decreases items, 1
  {
    if nesting > Scan.MAX_NESTING_DEPTH then None
    else if items == [] then Some(EmptyBlock(place, delimiter))
    else match ArrayShape(place, items, nesting)
      case TooDeep => None
      case Shaped(nodes) => TableBlock(place, items, nodes, depth, delimiter)
      case NoShape =>
        if AllScalars(items) then Some(InlineBlock(place, items, delimiter))
        else
          var lines :- ItemsLines(items, depth + 1, nesting + 1, delimiter);
          Some(Block(HeaderText(place, |items|, false, delimiter, []), lines))
  }

  /** Named arrays and the root may be tables, list items may not. */
  function ArrayShape(place: Place, items: seq<Value>, nesting: nat): (r: ShapeResult)
    requires items != []
  {
    if place.InList? then NoShape else BuildShape(items, nesting)
  }

  function ItemsLines(items: seq<Value>, depth: nat, nesting: nat, delimiter: byte): Option<seq<OutLine>>
    decreases items, 0
  {
    if items == [] then Some([])
    else
      var first :- ItemBlock(items[0], depth, nesting, delimiter);
      var others :- ItemsLines(items[1..], depth, nesting, delimiter);
      Some(Standing(first, depth) + others)
  }

  function Dashed(block: Block): Block {
    Block(DASH + block.head, block.tail)
  }

  /** One list item; the first field of an object shares the dash line. */
  function ItemBlock(item: Value, depth: nat, nesting: nat, delimiter: byte): Option<Block>
    decreases item, 3
  {
    match item
    case Seq(items) =>
      var block :- ArrayBlock(InList, items, depth, nesting + 1, delimiter);
      Some(Dashed(block))
    case Dict(pairs) =>
      if pairs == [] then Some(Block([MINUS], []))
      else
        var first :- PairBlock(pairs[0], depth + 1, delimiter);
        var others :- EntriesLines(pairs[1..], depth + 1, delimiter);
        Some(Block(DASH + first.head, first.tail + others))
    case _ => Some(Block(DASH + ScalarText(item, delimiter), []))
  }

  // ----- documents -----------------------------------------------------------------

  function RootLines(value: Value, delimiter: byte): Option<seq<OutLine>> {
    match value
    case Seq(items) =>
      var block :- ArrayBlock(AtRoot, items, 0, 0, delimiter);
      Some(Standing(block, 0))
    case Dict(pairs) =>
      (match KeyedShape(pairs, 0)
       case TooDeep => None
       case NoShape => EntriesLines(pairs, 0, delimiter)
       case Shaped(nodes) =>
         var block :- KeyedBlock(AtRoot, pairs, nodes, 0, delimiter);
         Some(Standing(block, 0)))
    case _ => Some([OutLine(0, ScalarText(value, delimiter))])
  }

  /** The canonical text: the lines, without the last line feed. */
  function Encoded(lines: seq<OutLine>, indentWidth: nat): bytes {
    Output.WithoutLastFeed(Flat(lines, indentWidth))
  }
}
