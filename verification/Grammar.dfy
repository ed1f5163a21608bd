/** What a document denotes: the tree the structural parser builds from its lines (src/parser.rs). */
module Grammar {
  import opened Bytes
  import opened Faults
  import opened Tokens
  import opened Cells
  import opened Escapes
  import opened Scan
  import opened Header
  import opened Events
  import Scalar
  import Utf8

  /** A parsed part of the document and the lines behind it. */
  datatype Parsed<+T> = Parsed(value: T, rest: LineStream)

  // ----- lines -----------------------------------------------------------------

  /** A colon separates key and value if it ends the line or a space follows it. */
  function Separating(content: bytes, colon: Option<nat>): Option<nat>
    requires colon.Some? ==> colon.value < |content|
  {
    if colon.Some? && (colon.value + 1 == |content| || content[colon.value + 1] == SPACE) then colon else None
  }

  /** The line's first colon outside quotes, if it separates key and value. */
  function EntryColon(content: bytes): (r: Option<nat>)
    ensures r.Some? ==> r.value < |content| && content[r.value] == COLON
  {
    Separating(content, FirstUnquoted(content, COLON, 0))
  }

  function ValueToken(value: bytes, at: Position): Result<ScalarToken> {
    if value != [] && value[0] == QUOTE then
      var span :- QuotedSpan(value, 0, at);
      if span.end != |value| then Err(Fault(TrailingContent, at.line, Some(at.column + span.end), false))
      else Ok(QuotedString(value[1..span.end - 1], span.escaped))
    else Ok(Scalar.BareToken(value))
  }

  /** The next row of an array body at depth `depth + 1`. Strict mode reads exactly `declared` rows and
      tolerates neither a missing, nor an extra, nor a blank line; otherwise the rows end where the
      indentation does. */
  function NextRow(stream: LineStream, depth: nat, strict: bool, declared: nat, index: nat): (r: Result<Option<Parsed<Line>>>)
    ensures r.Ok? && r.value.Some? ==> stream.More? && r.value.value == Parsed(stream.line, stream.rest)
  {
    if stream.Broken? then Err(stream.fault)
    else if strict && index >= declared then
      if stream.More? && stream.line.depth > depth then Err(SyntaxAt(WrongArrayLength, stream.line.at)) else Ok(None)
    else if stream.More? && stream.line.depth == depth + 1 then
      if strict && stream.line.blankBefore && index > 0 then Err(SyntaxAt(BlankLineInArray, stream.line.at))
      else Ok(Some(Parsed(stream.line, stream.rest)))
    else if !strict then Ok(None)
    else if stream.More? then Err(SyntaxAt(WrongArrayLength, stream.line.at))
    else Err(Fault(WrongArrayLength, stream.lastLine, None, false))
  }

  // ----- tables ----------------------------------------------------------------

  function LeafField(name: StringToken, cell: bytes, at: Position): Result<Field> {
    var token :- ValueToken(cell, at);
    Ok(Field(name, Leaf(token, at), at))
  }

  /** The fields of one row: every leaf of the header takes the next cell of those given. */
  function RowFields(nodes: seq<FieldNode>, cells: seq<bytes>, at: Position): Result<seq<Field>>
    requires |cells| >= LeafSum(nodes)
    decreases nodes
  {
    if nodes == [] then Ok([])
    else
      var first :- RowField(nodes[0], cells, at);
      var others :- RowFields(nodes[1..], cells[LeafCount(nodes[0])..], at);
      Ok([first] + others)
  }

  function RowField(node: FieldNode, cells: seq<bytes>, at: Position): Result<Field>
    requires |cells| >= LeafCount(node)
    decreases node
  {
    if node.children == [] then LeafField(node.name, cells[0], at)
    else
      var fields :- RowFields(node.children, cells, at);
      Ok(Field(node.name, Obj(Group, fields, at), at))
  }

  function RowObject(header: Header, content: bytes, at: Position): Result<Tree> {
    var cells := SplitCells(content, header.delimiter);
    if |cells| != LeafSum(header.fields) then Err(SyntaxAt(WrongRowWidth, at))
    else
      var fields :- RowFields(header.fields, cells, at);
      Ok(Obj(Row, fields, at))
  }

  function TableRows(stream: LineStream, header: Header, depth: nat, strict: bool, index: nat): (r: Result<Parsed<seq<Tree>>>)
    ensures r.Ok? ==> Behind(r.value.rest, stream)
    decreases Size(stream)
  {
    var next :- NextRow(stream, depth, strict, header.declared, index);
    match next
    case None => Ok(Parsed([], stream))
    case Some(row) =>
      var first :- RowObject(header, row.value.content, row.value.at);
      var others :- TableRows(row.rest, header, depth, strict, index + 1);
      Ok(Parsed([first] + others.value, others.rest))
  }

  /** Strict mode keeps the keys it has seen. */
  function Note(seen: set<bytes>, key: StringToken, strict: bool): set<bytes> {
    if strict then seen + {TextOf(key)} else seen
  }

  function NoteRow(seen: set<bytes>, row: Option<Field>, strict: bool): set<bytes> {
    if row.None? then seen else Note(seen, row.value.key, strict)
  }

  function RowsOf(row: Option<Field>): seq<Field> {
    if row.None? then [] else [row.value]
  }

  /** One row of a keyed table; outside strict mode a row without a colon is skipped. */
  function KeyedRow(header: Header, line: Line, strict: bool, seen: set<bytes>): (r: Result<Option<Field>>) {
    match EntryColon(line.content)
    case None => if strict then Err(SyntaxAt(ExpectedKey, line.at)) else Ok(None)
    case Some(colon) =>
      var key :- StringTokenOf(Trim(line.content[..colon]), line.at);
      if strict && TextOf(key) in seen then Err(SyntaxAt(DuplicateKey, line.at))
      else if Trim(line.content[colon + 1..]) == [] then Err(SyntaxAt(WrongRowWidth, line.at))
      else
        var row :- RowObject(header, Trim(line.content[colon + 1..]), line.at);
        Ok(Some(Field(key, row, line.at)))
  }

  function KeyedRows(stream: LineStream, header: Header, depth: nat, strict: bool, index: nat, seen: set<bytes>):
    (r: Result<Parsed<seq<Field>>>)
    ensures r.Ok? ==> Behind(r.value.rest, stream)
    decreases Size(stream)
  {
    var next :- NextRow(stream, depth, strict, header.declared, index);
    match next
    case None => Ok(Parsed([], stream))
    case Some(row) =>
      var first :- KeyedRow(header, row.value, strict, seen);
      var others :- KeyedRows(row.rest, header, depth, strict, index + 1, NoteRow(seen, first, strict));
      Ok(Parsed(RowsOf(first) + others.value, others.rest))
  }

  function InlineItems(cells: seq<bytes>, at: Position): Result<seq<Tree>> {
    if cells == [] then Ok([])
    else
      var token :- ValueToken(cells[0], at);
      var others :- InlineItems(cells[1..], at);
      Ok([Leaf(token, at)] + others)
  }

  // ----- the recursive structure -------------------------------------------------

  function ArrayBody(stream: LineStream, header: Header, depth: nat, at: Position, strict: bool): (r: Result<Parsed<Tree>>)
    ensures r.Ok? ==> Behind(r.value.rest, stream)
    decreases Size(stream), 1
  {
    if header.fields != [] then
      var rows :- TableRows(stream, header, depth, strict, 0);
      Ok(Parsed(Arr(header.declared, Some(LeafSum(header.fields)), rows.value, at), rows.rest))
    else if header.inlineValues.Some? then
      var cells := SplitCells(header.inlineValues.value, header.delimiter);
      if strict && |cells| != header.declared then Err(SyntaxAt(WrongArrayLength, at))
      else
        var items :- InlineItems(cells, at);
        Ok(Parsed(Arr(header.declared, None, items, at), stream))
    else
      var items :- ListItems(stream, depth, strict, header.declared, 0);
      Ok(Parsed(Arr(header.declared, None, items.value, at), items.rest))
  }

  function ListItems(stream: LineStream, depth: nat, strict: bool, declared: nat, index: nat): (r: Result<Parsed<seq<Tree>>>)
    ensures r.Ok? ==> Behind(r.value.rest, stream)
    decreases Size(stream), 0
  {
    var next :- NextRow(stream, depth, strict, declared, index);
    match next
    case None => Ok(Parsed([], stream))
    case Some(row) =>
      var first :- ListItem(row.value.content, row.value.at, row.rest, depth, strict);
      var others :- ListItems(first.rest, depth, strict, declared, index + 1);
      Ok(Parsed([first.value] + others.value, others.rest))
  }

  function ArrayOrKeyed(stream: LineStream, header: Header, depth: nat, at: Position, strict: bool): (r: Result<Parsed<Tree>>)
    ensures r.Ok? ==> Behind(r.value.rest, stream)
    decreases Size(stream), 2
  {
    if header.keyed then
      var rows :- KeyedRows(stream, header, depth, strict, 0, {});
      Ok(Parsed(Obj(Table(LeafSum(header.fields)), rows.value, at), rows.rest))
    else ArrayBody(stream, header, depth, at, strict)
  }

  /** The value behind `key:` with nothing else on its line: an object, empty unless a deeper line follows. */
  function NestedObject(stream: LineStream, depth: nat, at: Position, strict: bool): (r: Result<Parsed<Tree>>)
    ensures r.Ok? ==> Behind(r.value.rest, stream)
    decreases Size(stream), 1
  {
    if stream.Broken? then Err(stream.fault)
    else if stream.More? && stream.line.depth > depth then
      if stream.line.depth != depth + 1 then Err(SyntaxAt(DepthJump, stream.line.at))
      else
        var body :- ObjectBody(stream, depth + 1, strict, {});
        Ok(Parsed(Obj(Plain, body.value, at), body.rest))
    else Ok(Parsed(Obj(Plain, [], at), stream))
  }

  function InlineValue(value: bytes, at: Position): Result<Tree> {
    if value == EMPTY_ARRAY then Ok(Arr(0, None, [], at))
    else
      var token :- ValueToken(value, at);
      Ok(Leaf(token, at))
  }

  function KeyValue(content: bytes, at: Position, stream: LineStream, depth: nat, strict: bool, seen: set<bytes>):
    (r: Result<Parsed<Field>>)
    ensures r.Ok? ==> Behind(r.value.rest, stream)
    decreases Size(stream), 2
  {
    match EntryColon(content)
    case None => Err(SyntaxAt(ExpectedKey, at))
    case Some(colon) =>
      var key :- StringTokenOf(Trim(content[..colon]), at);
      if strict && TextOf(key) in seen then Err(SyntaxAt(DuplicateKey, at))
      else if colon + 1 == |content| then
        var nested :- NestedObject(stream, depth, at, strict);
        Ok(Parsed(Field(key, nested.value, at), nested.rest))
      else
        var value :- InlineValue(content[colon + 2..], Position(at.line, at.column + colon + 2));
        Ok(Parsed(Field(key, value, at), stream))
  }

  /** One `key: value` entry, or `key[N]...:` with its body. */
  function Entry(content: bytes, at: Position, stream: LineStream, depth: nat, strict: bool, seen: set<bytes>):
    (r: Result<Parsed<Field>>)
    ensures r.Ok? ==> Behind(r.value.rest, stream)
    decreases Size(stream), 3
  {
    var outcome :- HeaderOf(content, strict, at);
    EntryWith(outcome, content, at, stream, depth, strict, seen)
  }

  function EntryWith(
      outcome: HeaderOutcome, content: bytes, at: Position, stream: LineStream, depth: nat, strict: bool, seen: set<bytes>):
    (r: Result<Parsed<Field>>)
    ensures r.Ok? ==> Behind(r.value.rest, stream)
    decreases Size(stream), 3, 1
  {
    match outcome
    case HeaderLine(header) => HeaderEntry(header, at, stream, depth, strict, seen)
    case Malformed(code) =>
      if strict then Err(SyntaxAt(code, at)) else KeyValue(content, at, stream, depth, strict, seen)
    case NotHeader => KeyValue(content, at, stream, depth, strict, seen)
  }

  function HeaderEntry(header: Header, at: Position, stream: LineStream, depth: nat, strict: bool, seen: set<bytes>):
    (r: Result<Parsed<Field>>)
    ensures r.Ok? ==> Behind(r.value.rest, stream)
    decreases Size(stream), 3, 0
  {
    if header.key.None? then Err(SyntaxAt(ExpectedKey, at))
    else if strict && TextOf(header.key.value) in seen then Err(SyntaxAt(DuplicateKey, at))
    else
      var body :- ArrayOrKeyed(stream, header, depth, at, strict);
      Ok(Parsed(Field(header.key.value, body.value, at), body.rest))
  }

  /** A whole line read as one entry. */
  function LineEntry(line: Line, stream: LineStream, depth: nat, strict: bool, seen: set<bytes>): (r: Result<Parsed<Field>>)
    ensures r.Ok? ==> Behind(r.value.rest, stream)
    decreases Size(stream), 4
  {
    Entry(line.content, line.at, stream, depth, strict, seen)
  }

  /** The entries at exactly `depth`; a deeper line is a fault. */
  function ObjectBody(stream: LineStream, depth: nat, strict: bool, seen: set<bytes>): (r: Result<Parsed<seq<Field>>>)
    ensures r.Ok? ==> Behind(r.value.rest, stream)
    ensures r.Ok? ==> r.value.rest.End? || (r.value.rest.More? && r.value.rest.line.depth < depth)
    decreases Size(stream), 0
  {
    match stream
    case Broken(fault) => Err(fault)
    case End(_) => Ok(Parsed([], stream))
    case More(line, rest) =>
      if line.depth < depth then Ok(Parsed([], stream))
      else if line.depth > depth then Err(SyntaxAt(DepthJump, line.at))
      else
        var first :- LineEntry(line, rest, depth, strict, seen);
        var others :- ObjectBody(first.rest, depth, strict, Note(seen, first.value.key, strict));
        Ok(Parsed([first.value] + others.value, others.rest))
  }

  /** The further entries of an object that is a list item, two levels below the list. */
  function ItemBody(stream: LineStream, depth: nat, strict: bool, seen: set<bytes>): (r: Result<Parsed<seq<Field>>>)
    ensures r.Ok? ==> Behind(r.value.rest, stream)
    decreases Size(stream), 0
  {
    match stream
    case Broken(fault) => Err(fault)
    case End(_) => Ok(Parsed([], stream))
    case More(line, rest) =>
      if line.depth != depth + 2 then Ok(Parsed([], stream))
      else if strict && line.blankBefore then Err(SyntaxAt(BlankLineInArray, line.at))
      else
        var first :- LineEntry(line, rest, depth + 2, strict, seen);
        var others :- ItemBody(first.rest, depth, strict, Note(seen, first.value.key, strict));
        Ok(Parsed([first.value] + others.value, others.rest))
  }

  /** An object item: its first entry on the dash line, the others below. */
  function ObjectItem(first: Parsed<Field>, at: Position, depth: nat, strict: bool): (r: Result<Parsed<Tree>>)
    ensures r.Ok? ==> Behind(r.value.rest, first.rest)
    decreases Size(first.rest), 1
  {
    var others :- ItemBody(first.rest, depth, strict, Note({}, first.value.key, strict));
    Ok(Parsed(Obj(Repeated, [first.value] + others.value, at), others.rest))
  }

  function ListItem(content: bytes, at: Position, stream: LineStream, depth: nat, strict: bool): (r: Result<Parsed<Tree>>)
    ensures r.Ok? ==> Behind(r.value.rest, stream)
    decreases Size(stream), 5
  {
    if content == [MINUS] then Ok(Parsed(Obj(Repeated, [], at), stream))
    else if !StartsWith(content, DASH) then Err(SyntaxAt(MissingListItem, at))
    else DashedItem(content[2..], Position(at.line, at.column + 2), stream, depth, strict)
  }

  function DashedItem(item: bytes, at: Position, stream: LineStream, depth: nat, strict: bool): (r: Result<Parsed<Tree>>)
    ensures r.Ok? ==> Behind(r.value.rest, stream)
    decreases Size(stream), 4
  {
    if item == EMPTY_ARRAY then Ok(Parsed(Arr(0, None, [], at), stream))
    else
      var outcome :- HeaderOf(item, strict, at);
      DashedWith(outcome, item, at, stream, depth, strict)
  }

  function DashedWith(outcome: HeaderOutcome, item: bytes, at: Position, stream: LineStream, depth: nat, strict: bool):
    (r: Result<Parsed<Tree>>)
    ensures r.Ok? ==> Behind(r.value.rest, stream)
    decreases Size(stream), 4, 0
  {
    match outcome
    case HeaderLine(header) =>
      if header.key.None? then
        if header.fields != [] || header.keyed then Err(SyntaxAt(MalformedHeader, at))
        else ArrayBody(stream, header, depth + 1, at, strict)
      else HeaderItem(header, at, stream, depth, strict)
    case Malformed(code) => if strict then Err(SyntaxAt(code, at)) else PlainItem(item, at, stream, depth, strict)
    case NotHeader => PlainItem(item, at, stream, depth, strict)
  }

  /** An object item whose first entry is an array. */
  function HeaderItem(header: Header, at: Position, stream: LineStream, depth: nat, strict: bool): (r: Result<Parsed<Tree>>)
    ensures r.Ok? ==> Behind(r.value.rest, stream)
    decreases Size(stream), 3, 2
  {
    var first :- HeaderEntry(header, at, stream, depth + 2, strict, {});
    ObjectItem(first, at, depth, strict)
  }

  /** An item that is no header: an object when it holds a separating colon, otherwise a scalar. */
  function PlainItem(item: bytes, at: Position, stream: LineStream, depth: nat, strict: bool): (r: Result<Parsed<Tree>>)
    ensures r.Ok? ==> Behind(r.value.rest, stream)
    decreases Size(stream), 3
  {
    if EntryColon(item).Some? then
      var first :- KeyValue(item, at, stream, depth + 2, strict, {});
      ObjectItem(first, at, depth, strict)
    else
      var token :- ValueToken(item, at);
      Ok(Parsed(Leaf(token, at), stream))
  }

  // ----- documents ---------------------------------------------------------------

  /** Nothing may follow a root that is not an object. */
  function Finished(root: Parsed<Tree>): Result<Tree> {
    match root.rest
    case End(_) => Ok(root.value)
    case More(line, _) => Err(SyntaxAt(TrailingContent, line.at))
    case Broken(fault) => Err(fault)
  }

  function RootObject(stream: LineStream, at: Position, strict: bool): Result<Tree> {
    var body :- ObjectBody(stream, 0, strict, {});
    Ok(Obj(Plain, body.value, at))
  }

  function Root(stream: LineStream, strict: bool): Result<Tree> {
    match stream
    case Broken(fault) => Err(fault)
    case End(_) => Ok(Obj(Plain, [], Position(1, 1)))
    case More(line, rest) =>
      if line.depth != 0 then Err(SyntaxAt(InvalidIndent, line.at))
      else if line.content == EMPTY_ARRAY then Finished(Parsed(Arr(0, None, [], line.at), rest))
      else
        var outcome :- HeaderOf(line.content, strict, line.at);
        RootWith(outcome, stream, strict)
  }

  function RootWith(outcome: HeaderOutcome, stream: LineStream, strict: bool): Result<Tree>
    requires stream.More?
  {
    match outcome
    case HeaderLine(header) =>
      if header.key.Some? then RootObject(stream, stream.line.at, strict)
      else
        var body :- ArrayOrKeyed(stream.rest, header, 0, stream.line.at, strict);
        Finished(body)
    case Malformed(code) =>
      if strict then Err(SyntaxAt(code, stream.line.at)) else PlainRoot(stream, strict)
    case NotHeader => PlainRoot(stream, strict)
  }

  function PlainRoot(stream: LineStream, strict: bool): Result<Tree>
    requires stream.More?
  {
    if EntryColon(stream.line.content).Some? then RootObject(stream, stream.line.at, strict)
    else
      var token :- ValueToken(stream.line.content, stream.line.at);
      Finished(Parsed(Leaf(token, stream.line.at), stream.rest))
  }

  function Document(input: bytes, strict: bool, indentSize: nat): Result<Tree>
    requires indentSize > 0
  {
    if !Utf8.ValidUtf8(input) then Err(Fault(InvalidUtf8, 1, None, false))
    else Root(LinesOf(input, 0, strict, indentSize, false), strict)
  }
}
