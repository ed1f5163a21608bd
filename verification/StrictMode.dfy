/** Strict mode only ever rejects: what it accepts, the lenient mode reads identically. */
module StrictMode {
  import opened Bytes
  import opened Faults
  import opened Tokens
  import opened Cells
  import opened Escapes
  import opened Scan
  import opened Header
  import opened Events
  import opened Grammar
  import Utf8

  // ----- scanner and headers -----------------------------------------------------

  lemma {:induction false} StrictLinesAreLenient(tail: bytes, number: nat, indentSize: nat, blank: bool)
    requires indentSize > 0 && Unbroken(LinesOf(tail, number, true, indentSize, blank))
    ensures LinesOf(tail, number, false, indentSize, blank) == LinesOf(tail, number, true, indentSize, blank)
    decreases |tail|, 0
  {
    if tail != [] {
      var raw := StripMarks(tail[..LineWidth(tail)], number + 1);
      StrictLinesBehindAreLenient(ReadLine(raw, number + 1, true, indentSize), AfterLine(tail), number + 1, indentSize, blank);
      StrictReadingIsLenient(raw, number + 1, indentSize);
    }
  }

  lemma {:induction false} StrictLinesBehindAreLenient(reading: Reading, next: bytes, number: nat, indentSize: nat, blank: bool)
    requires indentSize > 0 && Unbroken(LinesBehind(reading, next, number, true, indentSize, blank))
    ensures !reading.Bad?
    ensures LinesBehind(reading, next, number, false, indentSize, blank) == LinesBehind(reading, next, number, true, indentSize, blank)
    decreases |next|, 1
  {
    match reading
    case Blank => StrictLinesAreLenient(next, number, indentSize, true);
    case Comment => StrictLinesAreLenient(next, number, indentSize, blank);
    case Bad(_) =>
    case Content(_, _, _) => StrictLinesAreLenient(next, number, indentSize, false);
  }

  lemma {:induction false} StrictReadingIsLenient(raw: bytes, number: nat, indentSize: nat)
    requires indentSize > 0 && !ReadLine(raw, number, true, indentSize).Bad?
    ensures ReadLine(raw, number, false, indentSize) == ReadLine(raw, number, true, indentSize)
  {
  }

  lemma {:induction false} StrictFieldsAreLenient(content: bytes, delimiter: byte, at: Position, before: seq<FieldNode>)
    requires FieldsOf(content, delimiter, true, at, before).Good?
    ensures FieldsOf(content, delimiter, false, at, before) == FieldsOf(content, delimiter, true, at, before)
    decreases |content|, 1
  {
    var end := TopDelimiter(content, delimiter, Outside, 0);
    var cut := if end.Some? then content[..end.value] else content;
    TrimIsShorter(cut);
    StrictFieldIsLenient(Trim(cut), delimiter, at);
    if end.Some? {
      var node := FieldOf(Trim(cut), delimiter, true, at).value;
      StrictFieldsAreLenient(content[end.value + 1..], delimiter, at, before + [node]);
    }
  }

  lemma {:induction false} StrictFieldIsLenient(entry: bytes, delimiter: byte, at: Position)
    requires FieldOf(entry, delimiter, true, at).Good?
    ensures FieldOf(entry, delimiter, false, at) == FieldOf(entry, delimiter, true, at)
    decreases |entry|, 0
  {
    var open := FirstUnquoted(entry, LBRACE, 0);
    if open.Some? {
      var group := MatchFrom(entry, open.value, false, 0, 0).value;
      StrictFieldsAreLenient(entry[open.value + 1..group.close], delimiter, at, []);
    }
  }

  lemma {:induction false} StrictHeaderIsLenient(content: bytes, at: Position)
    requires HeaderOf(content, true, at).Ok? && !HeaderOf(content, true, at).value.Malformed?
    ensures HeaderOf(content, false, at) == HeaderOf(content, true, at)
  {
    var start := Marks(content).bracket;
    hide Marks, GroupAt, KeyBefore, BracketOf, FirstUnquoted, HeaderWith;
    if start.Some? {
      var end := FirstUnquoted(content, RBRACKET, start.value + 1).value;
      var bracket := BracketOf(content[start.value + 1..end]).value;
      StrictGroupIsLenient(content, end + 1, bracket.delimiter, at);
    }
  }

  lemma {:induction false} StrictGroupIsLenient(content: bytes, cursor: nat, delimiter: byte, at: Position)
    requires GroupAt(content, cursor, delimiter, true, at).Ok? && GroupAt(content, cursor, delimiter, true, at).value.Good?
    ensures GroupAt(content, cursor, delimiter, false, at) == GroupAt(content, cursor, delimiter, true, at)
  {
    if At(content, cursor) == Some(LBRACE) {
      var group := MatchFrom(content, cursor, false, 0, 0).value;
      StrictFieldsAreLenient(content[cursor + 1..group.close], delimiter, at, []);
    }
  }

  // ----- rows ------------------------------------------------------------------

  /** Where strict mode takes a row or stops, lenient mode does the same. */
  lemma {:induction false} StrictRowIsLenient(stream: LineStream, depth: nat, declared: nat, index: nat)
    requires NextRow(stream, depth, true, declared, index).Ok?
    ensures NextRow(stream, depth, false, declared, index) == NextRow(stream, depth, true, declared, index)
  {
  }

  lemma {:induction false} StrictTableIsLenient(stream: LineStream, header: Header, depth: nat, index: nat)
    requires TableRows(stream, header, depth, true, index).Ok?
    ensures TableRows(stream, header, depth, false, index) == TableRows(stream, header, depth, true, index)
    decreases Size(stream)
  {
    StrictRowIsLenient(stream, depth, header.declared, index);
    if NextRow(stream, depth, true, header.declared, index).value.Some? {
      StrictTableIsLenient(stream.rest, header, depth, index + 1);
    }
  }

  lemma {:induction false} StrictKeyedIsLenient(
      stream: LineStream, header: Header, depth: nat, index: nat, seen: set<bytes>, ignored: set<bytes>)
    requires KeyedRows(stream, header, depth, true, index, seen).Ok?
    ensures KeyedRows(stream, header, depth, false, index, ignored) == KeyedRows(stream, header, depth, true, index, seen)
    decreases Size(stream)
  {
    StrictRowIsLenient(stream, depth, header.declared, index);
    if NextRow(stream, depth, true, header.declared, index).value.Some? {
      var row := KeyedRow(header, stream.line, true, seen).value;
      assert KeyedRow(header, stream.line, false, ignored) == Ok(row);
      StrictKeyedIsLenient(stream.rest, header, depth, index + 1, NoteRow(seen, row, true), ignored);
    }
  }

  // ----- the recursive structure -------------------------------------------------

  lemma {:induction false} StrictArrayIsLenient(stream: LineStream, header: Header, depth: nat, at: Position)
    requires ArrayBody(stream, header, depth, at, true).Ok?
    ensures ArrayBody(stream, header, depth, at, false) == ArrayBody(stream, header, depth, at, true)
    decreases Size(stream), 1
  {
    if header.fields != [] {
      StrictTableIsLenient(stream, header, depth, 0);
    } else if header.inlineValues.None? {
      StrictItemsAreLenient(stream, depth, header.declared, 0);
    }
  }

  lemma {:induction false} StrictItemsAreLenient(stream: LineStream, depth: nat, declared: nat, index: nat)
    requires ListItems(stream, depth, true, declared, index).Ok?
    ensures ListItems(stream, depth, false, declared, index) == ListItems(stream, depth, true, declared, index)
    decreases Size(stream), 0
  {
    StrictRowIsLenient(stream, depth, declared, index);
    if NextRow(stream, depth, true, declared, index).value.Some? {
      StrictItemIsLenient(stream.line.content, stream.line.at, stream.rest, depth);
      var first := ListItem(stream.line.content, stream.line.at, stream.rest, depth, true).value;
      StrictItemsAreLenient(first.rest, depth, declared, index + 1);
    }
  }

  lemma {:induction false} StrictBodyIsLenient(stream: LineStream, header: Header, depth: nat, at: Position)
    requires ArrayOrKeyed(stream, header, depth, at, true).Ok?
    ensures ArrayOrKeyed(stream, header, depth, at, false) == ArrayOrKeyed(stream, header, depth, at, true)
    decreases Size(stream), 2
  {
    if header.keyed {
      StrictKeyedIsLenient(stream, header, depth, 0, {}, {});
    } else {
      StrictArrayIsLenient(stream, header, depth, at);
    }
  }

  lemma {:induction false} StrictKeyValueIsLenient(
      content: bytes, at: Position, stream: LineStream, depth: nat, seen: set<bytes>, ignored: set<bytes>)
    requires KeyValue(content, at, stream, depth, true, seen).Ok?
    ensures KeyValue(content, at, stream, depth, false, ignored) == KeyValue(content, at, stream, depth, true, seen)
    decreases Size(stream), 2
  {
    if EntryColon(content).value + 1 == |content| {
      StrictNestedIsLenient(stream, depth, at);
    }
  }

  lemma {:induction false} StrictNestedIsLenient(stream: LineStream, depth: nat, at: Position)
    requires NestedObject(stream, depth, at, true).Ok?
    ensures NestedObject(stream, depth, at, false) == NestedObject(stream, depth, at, true)
    decreases Size(stream), 1
  {
    if stream.More? && stream.line.depth > depth {
      StrictObjectIsLenient(stream, depth + 1, {}, {});
    }
  }

  lemma {:induction false} StrictHeaderEntryIsLenient(
      header: Header, at: Position, stream: LineStream, depth: nat, seen: set<bytes>, ignored: set<bytes>)
    requires HeaderEntry(header, at, stream, depth, true, seen).Ok?
    ensures HeaderEntry(header, at, stream, depth, false, ignored) == HeaderEntry(header, at, stream, depth, true, seen)
    decreases Size(stream), 3, 0
  {
    StrictBodyIsLenient(stream, header, depth, at);
  }

  lemma {:induction false} StrictEntryIsLenient(line: Line, stream: LineStream, depth: nat, seen: set<bytes>, ignored: set<bytes>)
    requires LineEntry(line, stream, depth, true, seen).Ok?
    ensures LineEntry(line, stream, depth, false, ignored) == LineEntry(line, stream, depth, true, seen)
    decreases Size(stream), 4
  {
    var outcome := HeaderOf(line.content, true, line.at).value;
    StrictEntryWithIsLenient(outcome, line.content, line.at, stream, depth, seen, ignored);
    StrictHeaderIsLenient(line.content, line.at);
  }

  lemma {:induction false} StrictEntryWithIsLenient(
      outcome: HeaderOutcome, content: bytes, at: Position, stream: LineStream, depth: nat, seen: set<bytes>, ignored: set<bytes>)
    requires EntryWith(outcome, content, at, stream, depth, true, seen).Ok?
    ensures !outcome.Malformed?
    ensures EntryWith(outcome, content, at, stream, depth, false, ignored) == EntryWith(outcome, content, at, stream, depth, true, seen)
    decreases Size(stream), 3, 1
  {
    match outcome
    case HeaderLine(header) => StrictHeaderEntryIsLenient(header, at, stream, depth, seen, ignored);
    case Malformed(_) =>
    case NotHeader => StrictKeyValueIsLenient(content, at, stream, depth, seen, ignored);
  }

  lemma {:induction false} StrictObjectIsLenient(stream: LineStream, depth: nat, seen: set<bytes>, ignored: set<bytes>)
    requires ObjectBody(stream, depth, true, seen).Ok?
    ensures ObjectBody(stream, depth, false, ignored) == ObjectBody(stream, depth, true, seen)
    decreases Size(stream), 0
  {
    if stream.More? && stream.line.depth == depth {
      StrictEntryIsLenient(stream.line, stream.rest, depth, seen, ignored);
      var first := LineEntry(stream.line, stream.rest, depth, true, seen).value;
      StrictObjectIsLenient(first.rest, depth, Note(seen, first.value.key, true), ignored);
    }
  }

  lemma {:induction false} StrictItemBodyIsLenient(stream: LineStream, depth: nat, seen: set<bytes>, ignored: set<bytes>)
    requires ItemBody(stream, depth, true, seen).Ok?
    ensures ItemBody(stream, depth, false, ignored) == ItemBody(stream, depth, true, seen)
    decreases Size(stream), 0
  {
    if stream.More? && stream.line.depth == depth + 2 {
      StrictEntryIsLenient(stream.line, stream.rest, depth + 2, seen, ignored);
      var first := LineEntry(stream.line, stream.rest, depth + 2, true, seen).value;
      StrictItemBodyIsLenient(first.rest, depth, Note(seen, first.value.key, true), ignored);
    }
  }

  lemma {:induction false} StrictObjectItemIsLenient(first: Parsed<Field>, at: Position, depth: nat)
    requires ObjectItem(first, at, depth, true).Ok?
    ensures ObjectItem(first, at, depth, false) == ObjectItem(first, at, depth, true)
    decreases Size(first.rest), 1
  {
    StrictItemBodyIsLenient(first.rest, depth, Note({}, first.value.key, true), {});
  }

  lemma {:induction false} StrictItemIsLenient(content: bytes, at: Position, stream: LineStream, depth: nat)
    requires ListItem(content, at, stream, depth, true).Ok?
    ensures ListItem(content, at, stream, depth, false) == ListItem(content, at, stream, depth, true)
    decreases Size(stream), 5
  {
    if content != [MINUS] {
      StrictDashedItemIsLenient(content[2..], Position(at.line, at.column + 2), stream, depth);
    }
  }

  lemma {:induction false} StrictDashedItemIsLenient(item: bytes, at: Position, stream: LineStream, depth: nat)
    requires DashedItem(item, at, stream, depth, true).Ok?
    ensures DashedItem(item, at, stream, depth, false) == DashedItem(item, at, stream, depth, true)
    decreases Size(stream), 4
  {
    if item != EMPTY_ARRAY {
      StrictDashedIsLenient(HeaderOf(item, true, at).value, item, at, stream, depth);
      StrictHeaderIsLenient(item, at);
    }
  }

  lemma {:induction false} StrictDashedIsLenient(
      outcome: HeaderOutcome, item: bytes, at: Position, stream: LineStream, depth: nat)
    requires DashedWith(outcome, item, at, stream, depth, true).Ok?
    ensures !outcome.Malformed?
    ensures DashedWith(outcome, item, at, stream, depth, false) == DashedWith(outcome, item, at, stream, depth, true)
    decreases Size(stream), 4, 0
  {
    match outcome
    case HeaderLine(header) =>
      if header.key.None? {
        StrictArrayIsLenient(stream, header, depth + 1, at);
      } else {
        StrictHeaderEntryIsLenient(header, at, stream, depth + 2, {}, {});
        StrictObjectItemIsLenient(HeaderEntry(header, at, stream, depth + 2, true, {}).value, at, depth);
      }
    case Malformed(_) =>
    case NotHeader =>
      if EntryColon(item).Some? {
        StrictKeyValueIsLenient(item, at, stream, depth + 2, {}, {});
        StrictObjectItemIsLenient(KeyValue(item, at, stream, depth + 2, true, {}).value, at, depth);
      }
  }

  // ----- documents ---------------------------------------------------------------

  lemma {:induction false} StrictRootIsLenient(stream: LineStream)
    requires Root(stream, true).Ok?
    ensures Root(stream, false) == Root(stream, true)
  {
    if stream.More? && stream.line.content != EMPTY_ARRAY {
      var outcome := HeaderOf(stream.line.content, true, stream.line.at).value;
      StrictRootWithIsLenient(outcome, stream);
      StrictHeaderIsLenient(stream.line.content, stream.line.at);
    }
  }

  lemma {:induction false} StrictRootWithIsLenient(outcome: HeaderOutcome, stream: LineStream)
    requires stream.More? && RootWith(outcome, stream, true).Ok?
    ensures !outcome.Malformed? && RootWith(outcome, stream, false) == RootWith(outcome, stream, true)
  {
    if outcome.HeaderLine? && outcome.header.key.None? {
      StrictBodyIsLenient(stream.rest, outcome.header, 0, stream.line.at);
    } else if outcome.HeaderLine? || EntryColon(stream.line.content).Some? {
      StrictObjectIsLenient(stream, 0, {}, {});
    }
  }

  lemma {:induction false} AcceptedRootIsUnbroken(outcome: HeaderOutcome, stream: LineStream, strict: bool)
    requires stream.More? && RootWith(outcome, stream, strict).Ok?
    ensures Unbroken(stream)
  {
    if outcome.HeaderLine? && outcome.header.key.None? {
      assert Behind(ArrayOrKeyed(stream.rest, outcome.header, 0, stream.line.at, strict).value.rest, stream.rest);
    } else if outcome.HeaderLine? || EntryColon(stream.line.content).Some? {
      assert Behind(ObjectBody(stream, 0, strict, {}).value.rest, stream);
    }
  }

  /** A document parses only if it scans to its end. */
  lemma {:induction false} AcceptedIsUnbroken(stream: LineStream, strict: bool)
    requires Root(stream, strict).Ok?
    ensures Unbroken(stream)
  {
    if stream.More? && stream.line.content != EMPTY_ARRAY {
      AcceptedRootIsUnbroken(HeaderOf(stream.line.content, strict, stream.line.at).value, stream, strict);
    }
  }

  /** If strict mode accepts a document, lenient mode accepts it with the same tree, positions included;
      so both modes emit the identical events. */
  lemma {:induction false} StrictIsRestriction(input: bytes, indentSize: nat)
    requires indentSize > 0 && Document(input, true, indentSize).Ok?
    ensures Document(input, false, indentSize) == Document(input, true, indentSize)
  {
    var stream := LinesOf(input, 0, true, indentSize, false);
    AcceptedIsUnbroken(stream, true);
    StrictLinesAreLenient(input, 0, indentSize, false);
    StrictRootIsLenient(stream);
  }
}
