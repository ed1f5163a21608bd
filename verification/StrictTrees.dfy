/** What strict mode guarantees of every tree it accepts: declared lengths are met, keys are distinct. */
module StrictTrees {
  import opened Bytes
  import opened Faults
  import opened Tokens
  import opened Cells
  import opened Escapes
  import opened Scan
  import opened Header
  import opened Events
  import opened Grammar
  import Utf8

  /** Every array has its declared number of items, every object pairwise distinct keys once unescaped. */
  predicate StrictTree(tree: Tree)
    decreases tree
  {
    match tree
    case Leaf(_, _) => true
    case Arr(declared, _, items, _) => |items| == declared && forall i :: 0 <= i < |items| ==> StrictTree(items[i])
    case Obj(_, fields, _) =>
      && (forall i, j :: 0 <= i < j < |fields| ==> TextOf(fields[i].key) != TextOf(fields[j].key))
      && (forall i :: 0 <= i < |fields| ==> StrictTree(fields[i].value))
  }

  predicate StrictItems(items: seq<Tree>) {
    forall i :: 0 <= i < |items| ==> StrictTree(items[i])
  }

  predicate StrictFields(fields: seq<Field>) {
    forall i :: 0 <= i < |fields| ==> StrictTree(fields[i].value)
  }

  /** The keys of `fields` are new with respect to `seen` and to each other. */
  predicate NewKeys(fields: seq<Field>, seen: set<bytes>) {
    fields != [] ==>
      TextOf(fields[0].key) !in seen && NewKeys(fields[1..], seen + {TextOf(fields[0].key)})
  }

  lemma {:induction false} NewKeysAreDistinct(fields: seq<Field>, seen: set<bytes>)
    requires NewKeys(fields, seen)
    ensures forall i :: 0 <= i < |fields| ==> TextOf(fields[i].key) !in seen
    ensures forall i, j :: 0 <= i < j < |fields| ==> TextOf(fields[i].key) != TextOf(fields[j].key)
  {
    if fields != [] {
      NewKeysAreDistinct(fields[1..], seen + {TextOf(fields[0].key)});
      assert forall i :: 0 < i < |fields| ==> fields[i] == fields[1..][i - 1];
    }
  }

  lemma {:induction false} StrictObject(kind: ObjectKind, fields: seq<Field>, at: Position)
    requires NewKeys(fields, {}) && StrictFields(fields)
    ensures StrictTree(Obj(kind, fields, at))
  {
    NewKeysAreDistinct(fields, {});
  }

  lemma {:induction false} StrictFieldsCons(first: Field, others: seq<Field>)
    requires StrictTree(first.value) && StrictFields(others)
    ensures StrictFields([first] + others)
  {
  }

  // ----- headers -----------------------------------------------------------------

  /** Sibling names are pairwise distinct at every level of a header. */
  predicate DistinctNames(nodes: seq<FieldNode>)
    decreases nodes
  {
    && (forall i, j :: 0 <= i < j < |nodes| ==> TextOf(nodes[i].name) != TextOf(nodes[j].name))
    && (forall i :: 0 <= i < |nodes| ==> DistinctNames(nodes[i].children))
  }

  lemma {:induction false} StrictFieldsAreDistinct(content: bytes, delimiter: byte, at: Position, before: seq<FieldNode>)
    requires FieldsOf(content, delimiter, true, at, before).Good? && DistinctNames(before)
    ensures DistinctNames(FieldsOf(content, delimiter, true, at, before).value)
    decreases |content|, 1
  {
    var end := TopDelimiter(content, delimiter, Outside, 0);
    var cut := if end.Some? then content[..end.value] else content;
    TrimIsShorter(cut);
    var node := FieldOf(Trim(cut), delimiter, true, at).value;
    StrictFieldIsDistinct(Trim(cut), delimiter, at, node);
    DistinctAppend(before, node);
    if end.Some? { StrictFieldsAreDistinct(content[end.value + 1..], delimiter, at, before + [node]); }
  }

  lemma {:induction false} DistinctAppend(before: seq<FieldNode>, node: FieldNode)
    requires DistinctNames(before) && !HasName(before, node.name) && DistinctNames(node.children)
    ensures DistinctNames(before + [node])
  {
  }

  lemma {:induction false} StrictFieldIsDistinct(entry: bytes, delimiter: byte, at: Position, node: FieldNode)
    requires FieldOf(entry, delimiter, true, at) == Good(node)
    ensures DistinctNames(node.children)
    decreases |entry|, 0
  {
    var open := FirstUnquoted(entry, LBRACE, 0);
    if open.Some? {
      var group := MatchFrom(entry, open.value, false, 0, 0).value;
      StrictFieldsAreDistinct(entry[open.value + 1..group.close], delimiter, at, []);
    }
  }

  lemma {:induction false} StrictHeaderIsDistinct(content: bytes, at: Position, header: Header)
    requires HeaderOf(content, true, at) == Ok(HeaderLine(header))
    ensures DistinctNames(header.fields)
  {
    StrictBracketIsDistinct(content, Marks(content).bracket.value, at, header);
  }

  lemma {:induction false} StrictBracketIsDistinct(content: bytes, start: nat, at: Position, header: Header)
    requires start < |content| && BracketedOutcome(content, start, true, at) == Ok(HeaderLine(header))
    ensures DistinctNames(header.fields)
  {
    hide AfterBracket, KeyBefore, BracketOf, FirstUnquoted, DistinctNames;
    var end := FirstUnquoted(content, RBRACKET, start + 1);
    var bracket := BracketOf(content[start + 1..end.value]);
    var key := KeyBefore(content, start, at);
    StrictSuffixIsDistinct(content, end.value + 1, key.value, bracket.value, at, header);
  }

  lemma {:induction false} StrictSuffixIsDistinct(
      content: bytes, cursor: nat, key: Option<StringToken>, bracket: Bracket, at: Position, header: Header)
    requires AfterBracket(content, cursor, key, bracket, true, at) == Ok(HeaderLine(header))
    ensures DistinctNames(header.fields)
  {
    StrictGroupIsDistinct(content, cursor, bracket.delimiter, at);
  }

  lemma {:induction false} StrictGroupIsDistinct(content: bytes, cursor: nat, delimiter: byte, at: Position)
    requires GroupAt(content, cursor, delimiter, true, at).Ok? && GroupAt(content, cursor, delimiter, true, at).value.Good?
    ensures DistinctNames(GroupAt(content, cursor, delimiter, true, at).value.value.nodes)
  {
    if At(content, cursor) == Some(LBRACE) {
      var group := MatchFrom(content, cursor, false, 0, 0).value;
      StrictFieldsAreDistinct(content[cursor + 1..group.close], delimiter, at, []);
    }
  }

  // ----- rows ------------------------------------------------------------------

  /** A row's fields carry the header's names in order. */
  lemma {:induction false} RowFollowsHeader(nodes: seq<FieldNode>, cells: seq<bytes>, at: Position, fields: seq<Field>)
    requires |cells| >= LeafSum(nodes) && RowFields(nodes, cells, at) == Ok(fields) && DistinctNames(nodes)
    ensures |fields| == |nodes| && forall i :: 0 <= i < |nodes| ==> fields[i].key == nodes[i].name
    ensures StrictFields(fields)
    decreases nodes
  {
    if nodes != [] {
      var n := LeafCount(nodes[0]);
      RowFieldFollowsNode(nodes[0], cells, at, fields[0]);
      TailIsDistinct(nodes);
      RowFollowsHeader(nodes[1..], cells[n..], at, fields[1..]);
      assert forall i :: 0 < i < |nodes| ==> fields[i] == fields[1..][i - 1] && nodes[i] == nodes[1..][i - 1];
    }
  }

  lemma {:induction false} TailIsDistinct(nodes: seq<FieldNode>)
    requires nodes != [] && DistinctNames(nodes)
    ensures DistinctNames(nodes[1..])
  {
  }

  lemma {:induction false} RowFieldFollowsNode(node: FieldNode, cells: seq<bytes>, at: Position, field: Field)
    requires |cells| >= LeafCount(node) && RowField(node, cells, at) == Ok(field) && DistinctNames(node.children)
    ensures field.key == node.name && StrictTree(field.value)
    decreases node
  {
    if node.children != [] {
      RowFollowsHeader(node.children, cells, at, field.value.fields);
    }
  }

  lemma {:induction false} RowIsStrict(header: Header, content: bytes, at: Position, row: Tree)
    requires RowObject(header, content, at) == Ok(row) && DistinctNames(header.fields)
    ensures StrictTree(row)
  {
    RowFollowsHeader(header.fields, SplitCells(content, header.delimiter), at, row.fields);
  }

  lemma {:induction false} TableIsStrict(stream: LineStream, header: Header, depth: nat, index: nat)
    requires index <= header.declared && DistinctNames(header.fields)
    requires TableRows(stream, header, depth, true, index).Ok?
    ensures var rows := TableRows(stream, header, depth, true, index).value.value;
            |rows| == header.declared - index && StrictItems(rows)
    decreases Size(stream)
  {
    if NextRow(stream, depth, true, header.declared, index).value.Some? {
      RowIsStrict(header, stream.line.content, stream.line.at, RowObject(header, stream.line.content, stream.line.at).value);
      TableIsStrict(stream.rest, header, depth, index + 1);
    }
  }

  lemma {:induction false} KeyedIsStrict(stream: LineStream, header: Header, depth: nat, index: nat, seen: set<bytes>)
    requires DistinctNames(header.fields) && KeyedRows(stream, header, depth, true, index, seen).Ok?
    ensures var rows := KeyedRows(stream, header, depth, true, index, seen).value.value;
            NewKeys(rows, seen) && StrictFields(rows)
    decreases Size(stream)
  {
    if NextRow(stream, depth, true, header.declared, index).value.Some? {
      var row := KeyedRow(header, stream.line, true, seen).value.value;
      var others := KeyedRows(stream.rest, header, depth, true, index + 1, NoteRow(seen, Some(row), true)).value.value;
      KeyedRowIsStrict(header, stream.line, seen, row);
      KeyedIsStrict(stream.rest, header, depth, index + 1, NoteRow(seen, Some(row), true));
      assert ([row] + others)[1..] == others;
      StrictFieldsCons(row, others);
    }
  }

  lemma {:induction false} KeyedRowIsStrict(header: Header, line: Line, seen: set<bytes>, row: Field)
    requires DistinctNames(header.fields) && KeyedRow(header, line, true, seen) == Ok(Some(row))
    ensures TextOf(row.key) !in seen && StrictTree(row.value)
  {
    var colon := EntryColon(line.content).value;
    RowIsStrict(header, Trim(line.content[colon + 1..]), line.at, row.value);
  }

  lemma {:induction false} InlineIsStrict(cells: seq<bytes>, at: Position, items: seq<Tree>)
    requires InlineItems(cells, at) == Ok(items)
    ensures |items| == |cells| && StrictItems(items)
  {
    if cells != [] { InlineIsStrict(cells[1..], at, items[1..]); }
  }

  // ----- the recursive structure -------------------------------------------------

  lemma {:induction false} ArrayIsStrict(stream: LineStream, header: Header, depth: nat, at: Position)
    requires DistinctNames(header.fields) && ArrayBody(stream, header, depth, at, true).Ok?
    ensures StrictTree(ArrayBody(stream, header, depth, at, true).value.value)
    decreases Size(stream), 1
  {
    if header.fields != [] {
      TableIsStrict(stream, header, depth, 0);
    } else if header.inlineValues.Some? {
      var cells := SplitCells(header.inlineValues.value, header.delimiter);
      InlineIsStrict(cells, at, InlineItems(cells, at).value);
    } else {
      ItemsAreStrict(stream, depth, header.declared, 0);
    }
  }

  lemma {:induction false} ItemsAreStrict(stream: LineStream, depth: nat, declared: nat, index: nat)
    requires index <= declared && ListItems(stream, depth, true, declared, index).Ok?
    ensures var items := ListItems(stream, depth, true, declared, index).value.value;
            |items| == declared - index && StrictItems(items)
    decreases Size(stream), 0
  {
    if NextRow(stream, depth, true, declared, index).value.Some? {
      ItemIsStrict(stream.line.content, stream.line.at, stream.rest, depth);
      var first := ListItem(stream.line.content, stream.line.at, stream.rest, depth, true).value;
      ItemsAreStrict(first.rest, depth, declared, index + 1);
    }
  }

  lemma {:induction false} BodyIsStrict(stream: LineStream, header: Header, depth: nat, at: Position)
    requires DistinctNames(header.fields) && ArrayOrKeyed(stream, header, depth, at, true).Ok?
    ensures StrictTree(ArrayOrKeyed(stream, header, depth, at, true).value.value)
    decreases Size(stream), 2
  {
    if header.keyed {
      KeyedIsStrict(stream, header, depth, 0, {});
      var rows := KeyedRows(stream, header, depth, true, 0, {}).value.value;
      StrictObject(Table(LeafSum(header.fields)), rows, at);
    } else {
      ArrayIsStrict(stream, header, depth, at);
    }
  }

  lemma {:induction false} NestedIsStrict(stream: LineStream, depth: nat, at: Position)
    requires NestedObject(stream, depth, at, true).Ok?
    ensures StrictTree(NestedObject(stream, depth, at, true).value.value)
    decreases Size(stream), 1
  {
    if stream.More? && stream.line.depth > depth {
      ObjectIsStrict(stream, depth + 1, {});
      StrictObject(Plain, ObjectBody(stream, depth + 1, true, {}).value.value, at);
    }
  }

  lemma {:induction false} KeyValueIsStrict(content: bytes, at: Position, stream: LineStream, depth: nat, seen: set<bytes>)
    requires KeyValue(content, at, stream, depth, true, seen).Ok?
    ensures var field := KeyValue(content, at, stream, depth, true, seen).value.value;
            TextOf(field.key) !in seen && StrictTree(field.value)
    decreases Size(stream), 2
  {
    if EntryColon(content).value + 1 == |content| { NestedIsStrict(stream, depth, at); }
  }

  lemma {:induction false} HeaderEntryIsStrict(header: Header, at: Position, stream: LineStream, depth: nat, seen: set<bytes>)
    requires DistinctNames(header.fields) && HeaderEntry(header, at, stream, depth, true, seen).Ok?
    ensures var field := HeaderEntry(header, at, stream, depth, true, seen).value.value;
            TextOf(field.key) !in seen && StrictTree(field.value)
    decreases Size(stream), 3, 0
  {
    BodyIsStrict(stream, header, depth, at);
  }

  lemma {:induction false} EntryWithIsStrict(
      outcome: HeaderOutcome, content: bytes, at: Position, stream: LineStream, depth: nat, seen: set<bytes>)
    requires outcome.HeaderLine? ==> DistinctNames(outcome.header.fields)
    requires EntryWith(outcome, content, at, stream, depth, true, seen).Ok?
    ensures var field := EntryWith(outcome, content, at, stream, depth, true, seen).value.value;
            TextOf(field.key) !in seen && StrictTree(field.value)
    decreases Size(stream), 3, 1
  {
    match outcome
    case HeaderLine(header) => HeaderEntryIsStrict(header, at, stream, depth, seen);
    case Malformed(_) =>
    case NotHeader => KeyValueIsStrict(content, at, stream, depth, seen);
  }

  lemma {:induction false} EntryIsStrict(line: Line, stream: LineStream, depth: nat, seen: set<bytes>)
    requires LineEntry(line, stream, depth, true, seen).Ok?
    ensures var field := LineEntry(line, stream, depth, true, seen).value.value;
            TextOf(field.key) !in seen && StrictTree(field.value)
    decreases Size(stream), 4
  {
    var outcome := HeaderOf(line.content, true, line.at).value;
    if outcome.HeaderLine? { StrictHeaderIsDistinct(line.content, line.at, outcome.header); }
    EntryWithIsStrict(outcome, line.content, line.at, stream, depth, seen);
  }

  lemma {:induction false} ObjectIsStrict(stream: LineStream, depth: nat, seen: set<bytes>)
    requires ObjectBody(stream, depth, true, seen).Ok?
    ensures var fields := ObjectBody(stream, depth, true, seen).value.value;
            NewKeys(fields, seen) && StrictFields(fields)
    decreases Size(stream), 0
  {
    if stream.More? && stream.line.depth == depth {
      EntryIsStrict(stream.line, stream.rest, depth, seen);
      var first := LineEntry(stream.line, stream.rest, depth, true, seen).value;
      ObjectIsStrict(first.rest, depth, Note(seen, first.value.key, true));
      var others := ObjectBody(first.rest, depth, true, Note(seen, first.value.key, true)).value.value;
      assert ([first.value] + others)[1..] == others;
      StrictFieldsCons(first.value, others);
    }
  }

  lemma {:induction false} ItemBodyIsStrict(stream: LineStream, depth: nat, seen: set<bytes>)
    requires ItemBody(stream, depth, true, seen).Ok?
    ensures var fields := ItemBody(stream, depth, true, seen).value.value;
            NewKeys(fields, seen) && StrictFields(fields)
    decreases Size(stream), 0
  {
    if stream.More? && stream.line.depth == depth + 2 {
      EntryIsStrict(stream.line, stream.rest, depth + 2, seen);
      var first := LineEntry(stream.line, stream.rest, depth + 2, true, seen).value;
      ItemBodyIsStrict(first.rest, depth, Note(seen, first.value.key, true));
      var others := ItemBody(first.rest, depth, true, Note(seen, first.value.key, true)).value.value;
      assert ([first.value] + others)[1..] == others;
      StrictFieldsCons(first.value, others);
    }
  }

  lemma {:induction false} ObjectItemIsStrict(first: Parsed<Field>, at: Position, depth: nat)
    requires StrictTree(first.value.value) && ObjectItem(first, at, depth, true).Ok?
    ensures StrictTree(ObjectItem(first, at, depth, true).value.value)
    decreases Size(first.rest), 1
  {
    var seen := Note({}, first.value.key, true);
    ItemBodyIsStrict(first.rest, depth, seen);
    var others := ItemBody(first.rest, depth, true, seen).value.value;
    assert ([first.value] + others)[1..] == others;
    assert seen == {} + {TextOf(first.value.key)};
    StrictFieldsCons(first.value, others);
    StrictObject(Repeated, [first.value] + others, at);
  }

  lemma {:induction false} DashedIsStrict(outcome: HeaderOutcome, item: bytes, at: Position, stream: LineStream, depth: nat)
    requires outcome.HeaderLine? ==> DistinctNames(outcome.header.fields)
    requires DashedWith(outcome, item, at, stream, depth, true).Ok?
    ensures StrictTree(DashedWith(outcome, item, at, stream, depth, true).value.value)
    decreases Size(stream), 4, 0
  {
    match outcome
    case HeaderLine(header) =>
      if header.key.None? {
        ArrayIsStrict(stream, header, depth + 1, at);
      } else {
        HeaderEntryIsStrict(header, at, stream, depth + 2, {});
        ObjectItemIsStrict(HeaderEntry(header, at, stream, depth + 2, true, {}).value, at, depth);
      }
    case Malformed(_) =>
    case NotHeader =>
      if EntryColon(item).Some? {
        KeyValueIsStrict(item, at, stream, depth + 2, {});
        ObjectItemIsStrict(KeyValue(item, at, stream, depth + 2, true, {}).value, at, depth);
      }
  }

  lemma {:induction false} DashedItemIsStrict(item: bytes, at: Position, stream: LineStream, depth: nat)
    requires DashedItem(item, at, stream, depth, true).Ok?
    ensures StrictTree(DashedItem(item, at, stream, depth, true).value.value)
    decreases Size(stream), 4
  {
    if item != EMPTY_ARRAY {
      var outcome := HeaderOf(item, true, at).value;
      if outcome.HeaderLine? { StrictHeaderIsDistinct(item, at, outcome.header); }
      DashedIsStrict(outcome, item, at, stream, depth);
    }
  }

  lemma {:induction false} ItemIsStrict(content: bytes, at: Position, stream: LineStream, depth: nat)
    requires ListItem(content, at, stream, depth, true).Ok?
    ensures StrictTree(ListItem(content, at, stream, depth, true).value.value)
    decreases Size(stream), 5
  {
    if content != [MINUS] {
      DashedItemIsStrict(content[2..], Position(at.line, at.column + 2), stream, depth);
    }
  }

  lemma {:induction false} RootWithIsStrict(outcome: HeaderOutcome, stream: LineStream)
    requires stream.More? && RootWith(outcome, stream, true).Ok?
    requires outcome.HeaderLine? ==> DistinctNames(outcome.header.fields)
    ensures StrictTree(RootWith(outcome, stream, true).value)
  {
    if outcome.HeaderLine? && outcome.header.key.None? {
      BodyIsStrict(stream.rest, outcome.header, 0, stream.line.at);
    } else if outcome.HeaderLine? || EntryColon(stream.line.content).Some? {
      ObjectIsStrict(stream, 0, {});
      StrictObject(Plain, ObjectBody(stream, 0, true, {}).value.value, stream.line.at);
    }
  }

  /** In strict mode every array of an accepted document has as many items as it declares, and every
      object distinct keys. */
  lemma {:induction false} StrictDocumentIsStrict(input: bytes, indentSize: nat)
    requires indentSize > 0 && Document(input, true, indentSize).Ok?
    ensures StrictTree(Document(input, true, indentSize).value)
  {
    var stream := LinesOf(input, 0, true, indentSize, false);
    if stream.More? && stream.line.content != EMPTY_ARRAY {
      var outcome := HeaderOf(stream.line.content, true, stream.line.at).value;
      if outcome.HeaderLine? { StrictHeaderIsDistinct(stream.line.content, stream.line.at, outcome.header); }
      RootWithIsStrict(outcome, stream);
    }
  }
}
