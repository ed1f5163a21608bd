/** The structural parser: it drives a recorder from scanned lines (src/parser.rs). */
module Parser {
  import opened Bytes
  import opened Faults
  import opened Tokens
  import opened Cells
  import opened Escapes
  import opened Scan
  import opened Header
  import opened Events
  import opened Grammar
  import Scalar
  import Utf8

  /** The deepest level any parsing routine is called with. */
  const DEEPEST: nat := MAX_NESTING_DEPTH + 1

  /** The keys of one object that strict mode has seen. */
  class SeenKeys {
    var keys: set<bytes>

    constructor ()
      ensures keys == {}
    {
      keys := {};
    }

    method NoteKey(key: StringToken, at: Position, strict: bool) returns (r: Result<()>)
      modifies this
      ensures if strict && TextOf(key) in old(keys) then r == Err(SyntaxAt(DuplicateKey, at))
              else r == Ok(()) && keys == Note(old(keys), key, strict)
    {
      if !strict { return Ok(()); }
      if TextOf(key) in keys { return Err(SyntaxAt(DuplicateKey, at)); }
      keys := keys + {TextOf(key)};
      return Ok(());
    }
  }

  /** The lines stand at `rest`. */
  ghost predicate Stands(lines: Lines, rest: LineStream)
    reads lines, lines.scanner
  {
    lines.Valid() && lines.ahead == rest && DepthBounded(rest)
  }

  /** A routine that met `spec`: the same fault, or the tree's events emitted and the lines consumed. */
  ghost predicate Parses(lines: Lines, out: Recorder, before: seq<Event>, spec: Result<Parsed<Tree>>, r: Result<()>)
    reads lines, lines.scanner, out
  {
    match spec
    case Err(fault) => r == Err(fault)
    case Ok(p) => r == Ok(()) && Stands(lines, p.rest) && out.events == before + EventsOf(p.value)
  }

  /** The same for one entry, whose key joins the `keys` seen before. */
  ghost predicate ParsesEntry(
      lines: Lines, out: Recorder, seen: SeenKeys, before: seq<Event>, keys: set<bytes>, strict: bool,
      spec: Result<Parsed<Field>>, r: Result<()>)
    reads lines, lines.scanner, out, seen
  {
    match spec
    case Err(fault) => r == Err(fault)
    case Ok(p) =>
      && r == Ok(()) && Stands(lines, p.rest) && out.events == before + FieldEvent(p.value)
      && seen.keys == Note(keys, p.value.key, strict)
  }

  ghost predicate ParsesFields(lines: Lines, out: Recorder, before: seq<Event>, spec: Result<Parsed<seq<Field>>>, r: Result<()>)
    reads lines, lines.scanner, out
  {
    match spec
    case Err(fault) => r == Err(fault)
    case Ok(p) => r == Ok(()) && Stands(lines, p.rest) && out.events == before + FieldEvents(p.value)
  }

  ghost predicate ParsesItems(lines: Lines, out: Recorder, before: seq<Event>, spec: Result<Parsed<seq<Tree>>>, r: Result<()>)
    reads lines, lines.scanner, out
  {
    match spec
    case Err(fault) => r == Err(fault)
    case Ok(p) => r == Ok(()) && Stands(lines, p.rest) && out.events == before + ItemEvents(p.value)
  }

  // ----- lines -----------------------------------------------------------------

  method ResolveEntryColon(content: bytes, marks: LineMarks) returns (colon: Option<nat>)
    requires marks == Marks(content)
    ensures colon == EntryColon(content)
  {
    var first := ResolvedColon(content, marks);
    colon := Separating(content, first);
  }

  method ClassifyValue(value: bytes, at: Position) returns (r: Result<ScalarToken>)
    ensures r == ValueToken(value, at)
  {
    if value != [] && value[0] == QUOTE {
      var span :- ScanQuoted(value, 0, at);
      if span.end != |value| { return Err(Fault(TrailingContent, at.line, Some(at.column + span.end), false)); }
      return Ok(QuotedString(value[1..span.end - 1], span.escaped));
    }
    var token := Scalar.ClassifyBare(value);
    return Ok(token);
  }

  method RejectExtraRows(lines: Lines, depth: nat) returns (r: Result<()>)
    requires lines.Valid()
    modifies lines, lines.scanner
    ensures match old(lines.ahead)
            case Broken(fault) => r == Err(fault)
            case More(line, _) =>
              if line.depth > depth then r == Err(SyntaxAt(WrongArrayLength, line.at))
              else r == Ok(()) && lines.Valid() && lines.ahead == old(lines.ahead)
            case End(_) => r == Ok(()) && lines.Valid() && lines.ahead == old(lines.ahead)
  {
    var next :- lines.Peek();
    if next.Some? && next.value.depth > depth { return Err(SyntaxAt(WrongArrayLength, next.value.at)); }
    return Ok(());
  }

  /** Pull the next row of an array body at `depth + 1`. */
  method NextBodyLine(lines: Lines, depth: nat, strict: bool, declared: nat, index: nat) returns (r: Result<Option<Line>>)
    requires lines.Valid()
    modifies lines, lines.scanner
    ensures match NextRow(old(lines.ahead), depth, strict, declared, index)
            case Err(fault) => r == Err(fault)
            case Ok(None) => r == Ok(None) && lines.Valid() && lines.ahead == old(lines.ahead)
            case Ok(Some(row)) => r == Ok(Some(row.value)) && lines.Valid() && lines.ahead == row.rest
  {
    var remaining := if index < declared then declared - index else 0;
    if strict && remaining == 0 {
      var _ :- RejectExtraRows(lines, depth);
      return Ok(None);
    }
    var next :- lines.Peek();
    if next.Some? && next.value.depth == depth + 1 {
      if strict && next.value.blankBefore && index > 0 { return Err(SyntaxAt(BlankLineInArray, next.value.at)); }
      r := lines.Advance();
      return;
    }
    if !strict || remaining == 0 { return Ok(None); }
    if next.Some? { return Err(SyntaxAt(WrongArrayLength, next.value.at)); }
    var number := lines.CurrentLineNumber();
    return Err(Fault(WrongArrayLength, number, None, false));
  }

  // ----- sequences of events ---------------------------------------------------

  lemma {:induction false} ItemEventsAppend(items: seq<Tree>, last: Tree)
    ensures ItemEvents(items + [last]) == ItemEvents(items) + EventsOf(last)
  {
    if items == [] {
      assert ([last])[1..] == [];
      assert ItemEvents([last]) == EventsOf(last) + ItemEvents([]);
    } else {
      assert (items + [last])[1..] == items[1..] + [last];
      ItemEventsAppend(items[1..], last);
    }
  }

  lemma {:induction false} FieldEventsAppend(fields: seq<Field>, last: Field)
    ensures FieldEvents(fields + [last]) == FieldEvents(fields) + FieldEvent(last)
  {
    if fields == [] {
      assert ([last])[1..] == [];
      assert FieldEvents([last]) == FieldEvent(last) + FieldEvents([]);
    } else {
      assert (fields + [last])[1..] == fields[1..] + [last];
      FieldEventsAppend(fields[1..], last);
    }
  }

  lemma {:induction false} CellEventsAppend(fields: seq<Field>, last: Field)
    ensures CellEvents(fields + [last]) == CellEvents(fields) + CellEvent(last)
  {
    if fields == [] {
      assert ([last])[1..] == [];
      assert CellEvents([last]) == CellEvent(last) + CellEvents([]);
    } else {
      assert (fields + [last])[1..] == fields[1..] + [last];
      CellEventsAppend(fields[1..], last);
    }
  }

  /** What a loop that has already gathered `done` ends with. */
  function Prepend<T>(done: seq<T>, r: Result<Parsed<seq<T>>>): Result<Parsed<seq<T>>> {
    match r
    case Err(fault) => Err(fault)
    case Ok(p) => Ok(Parsed(done + p.value, p.rest))
  }

  function PrependAll<T>(done: seq<T>, r: Result<seq<T>>): Result<seq<T>> {
    match r
    case Err(fault) => Err(fault)
    case Ok(fields) => Ok(done + fields)
  }

  // ----- rows ------------------------------------------------------------------

  /** The row from node `i` on, when the nodes before it gave `done`. */
  function RowFrom(nodes: seq<FieldNode>, i: nat, cells: seq<bytes>, cursor: nat, at: Position, done: seq<Field>): Result<seq<Field>>
    requires i <= |nodes| && cursor <= |cells| && |cells| - cursor >= LeafSum(nodes[i..])
  {
    PrependAll(done, RowFields(nodes[i..], cells[cursor..], at))
  }

  lemma {:induction false} PrependNone<T>(r: Result<seq<T>>)
    ensures PrependAll([], r) == r
  {
    match r
    case Err(_) =>
    case Ok(fields) => assert [] + fields == fields;
  }

  lemma {:induction false} RowStart(nodes: seq<FieldNode>, cells: seq<bytes>, start: nat, at: Position)
    requires start <= |cells| && |cells| - start >= LeafSum(nodes[0..])
    ensures nodes[0..] == nodes && RowFrom(nodes, 0, cells, start, at, []) == RowFields(nodes, cells[start..], at)
  {
    assert nodes[0..] == nodes;
    PrependNone(RowFields(nodes, cells[start..], at));
  }

  lemma {:induction false} RowEnd(nodes: seq<FieldNode>, cells: seq<bytes>, cursor: nat, at: Position, done: seq<Field>)
    requires cursor <= |cells|
    ensures LeafSum(nodes[|nodes|..]) == 0 && RowFrom(nodes, |nodes|, cells, cursor, at, done) == Ok(done)
  {
    assert nodes[|nodes|..] == [];
    assert done + [] == done;
  }

  lemma {:induction false} RowStep(nodes: seq<FieldNode>, i: nat, cells: seq<bytes>, cursor: nat, at: Position, done: seq<Field>)
    requires i < |nodes| && cursor <= |cells| && |cells| - cursor >= LeafSum(nodes[i..])
    ensures LeafSum(nodes[i..]) == LeafCount(nodes[i]) + LeafSum(nodes[i + 1..])
    ensures var n := LeafCount(nodes[i]);
            match RowField(nodes[i], cells[cursor..], at)
            case Err(fault) => RowFrom(nodes, i, cells, cursor, at, done) == Err(fault)
            case Ok(field) => RowFrom(nodes, i, cells, cursor, at, done) == RowFrom(nodes, i + 1, cells, cursor + n, at, done + [field])
  {
    var n := LeafCount(nodes[i]);
    assert nodes[i..][1..] == nodes[i + 1..];
    assert cells[cursor..][n..] == cells[cursor + n..];
    var first, others := RowField(nodes[i], cells[cursor..], at), RowFields(nodes[i + 1..], cells[cursor + n..], at);
    if first.Ok? && others.Ok? {
      assert done + ([first.value] + others.value) == (done + [first.value]) + others.value;
    }
  }

  /** Emit the fields of one row; `next` is the cursor behind the cells consumed. */
  method EmitRowFields(nodes: seq<FieldNode>, cells: seq<bytes>, start: nat, at: Position, out: Recorder)
    returns (r: Result<()>, next: nat)
    requires start <= |cells| && |cells| - start >= LeafSum(nodes)
    modifies out
    ensures next == start + LeafSum(nodes)
    ensures match RowFields(nodes, cells[start..], at)
            case Err(fault) => r == Err(fault)
            case Ok(fields) => r == Ok(()) && out.events == old(out.events) + CellEvents(fields)
    decreases nodes
  {
    next := start + LeafSum(nodes);
    var cursor: nat := start;
    ghost var done: seq<Field> := [];
    assert nodes[0..] == nodes;
    RowStart(nodes, cells, start, at);
    assert CellEvents(done) == [];
    hide CellEvents, CellEvent, RowField, RowFields, RowFrom, PrependAll, LeafCount, LeafSum;
    for i := 0 to |nodes|
      invariant cursor + LeafSum(nodes[i..]) == start + LeafSum(nodes)
      invariant cursor <= |cells| && |cells| - cursor >= LeafSum(nodes[i..])
      invariant RowFields(nodes, cells[start..], at) == RowFrom(nodes, i, cells, cursor, at, done)
      invariant out.events == old(out.events) + CellEvents(done)
    {
      RowStep(nodes, i, cells, cursor, at, done);
      ghost var spec := RowField(nodes[i], cells[cursor..], at);
      r, cursor := EmitRowField(nodes[i], cells, cursor, at, out);
      if r.Err? { return r, next; }
      CellEventsAppend(done, spec.value);
      Regroup(old(out.events), CellEvents(done), CellEvent(spec.value));
      done := done + [spec.value];
      assert RowFields(nodes, cells[start..], at) == RowFrom(nodes, i + 1, cells, cursor, at, done);
    }
    RowEnd(nodes, cells, cursor, at, done);
    r := Ok(());
  }

  method EmitRowField(node: FieldNode, cells: seq<bytes>, cursor: nat, at: Position, out: Recorder)
    returns (r: Result<()>, next: nat)
    requires cursor <= |cells| && |cells| - cursor >= LeafCount(node)
    modifies out
    ensures next == cursor + LeafCount(node)
    ensures match RowField(node, cells[cursor..], at)
            case Err(fault) => r == Err(fault)
            case Ok(field) => r == Ok(()) && out.events == old(out.events) + CellEvent(field)
    decreases node
  {
    if node.children == [] {
      var token := ClassifyValue(cells[cursor], at);
      if token.Err? { return Err(token.fault), cursor + 1; }
      out.Emit(ScalarField(node.name, token.value, at));
      return Ok(()), cursor + 1;
    }
    out.Emit(StartObjectField(node.name, at));
    r, next := EmitRowFields(node.children, cells, cursor, at, out);
    if r.Err? { return; }
    out.Emit(EndObjectField(at));
  }

  /** Split one table row and emit it as an object. */
  method EmitRow(header: Header, content: bytes, at: Position, cells: CellBuffer, out: Recorder) returns (r: Result<()>)
    requires IsDelimiter(header.delimiter)
    modifies cells, out
    ensures match RowObject(header, content, at)
            case Err(fault) => r == Err(fault)
            case Ok(row) => r == Ok(()) && out.events == old(out.events) + EventsOf(row)
  {
    SplitCellsInto(content, header.delimiter, cells);
    if |cells.items| != LeafSum(header.fields) { return Err(SyntaxAt(WrongRowWidth, at)); }
    ghost var before := out.events;
    out.Emit(StartObject(at));
    var items := cells.items;
    assert items[0..] == items;
    var next;
    r, next := EmitRowFields(header.fields, items, 0, at, out);
    if r.Err? { return; }
    out.Emit(EndObject(at));
    ghost var fields := RowFields(header.fields, items, at).value;
    assert out.events == before + ([StartObject(at)] + CellEvents(fields) + [EndObject(at)]);
  }

  lemma {:induction false} RowsStart<T>(r: Result<Parsed<seq<T>>>)
    ensures Prepend([], r) == r
  {
    match r
    case Err(_) =>
    case Ok(p) => assert [] + p.value == p.value;
  }

  lemma {:induction false} Regroup(a: seq<Event>, b: seq<Event>, c: seq<Event>)
    ensures (a + b) + c == a + (b + c) && a + [] == a
  {
  }

  lemma {:induction false} PrependEnds<T>(done: seq<T>, r: Result<Parsed<seq<T>>>)
    ensures r.Err? ==> Prepend(done, r) == Err(r.fault)
    ensures r.Ok? && r.value.value == [] ==> Prepend(done, r) == Ok(Parsed(done, r.value.rest))
  {
    assert done + [] == done;
  }

  lemma {:induction false} PrependOne<T>(done: seq<T>, one: seq<T>, r: Result<Parsed<seq<T>>>)
    ensures Prepend(done, Prepend(one, r)) == Prepend(done + one, r)
  {
    match r
    case Err(_) =>
    case Ok(p) => assert done + (one + p.value) == (done + one) + p.value;
  }

  lemma {:induction false} TableStep(done: seq<Tree>, stream: LineStream, header: Header, depth: nat, strict: bool, index: nat, row: Tree)
    requires NextRow(stream, depth, strict, header.declared, index).Ok?
    requires NextRow(stream, depth, strict, header.declared, index).value.Some?
    requires RowObject(header, stream.line.content, stream.line.at) == Ok(row)
    ensures Prepend(done, TableRows(stream, header, depth, strict, index)) ==
            Prepend(done + [row], TableRows(stream.rest, header, depth, strict, index + 1))
    ensures ItemEvents(done + [row]) == ItemEvents(done) + EventsOf(row)
  {
    var others := TableRows(stream.rest, header, depth, strict, index + 1);
    assert TableRows(stream, header, depth, strict, index) == Prepend([row], others);
    PrependOne(done, [row], others);
    ItemEventsAppend(done, row);
  }

  method ParseTableRows(lines: Lines, header: Header, depth: nat, strict: bool, out: Recorder) returns (r: Result<()>)
    requires Stands(lines, lines.ahead) && IsDelimiter(header.delimiter)
    modifies lines, lines.scanner, out
    ensures ParsesItems(lines, out, old(out.events), TableRows(old(lines.ahead), header, depth, strict, 0), r)
  {
    var cells := new CellBuffer();
    ghost var goal := TableRows(lines.ahead, header, depth, strict, 0);
    ghost var done: seq<Tree> := [];
    var index := 0;
    RowsStart(goal);
    assert ItemEvents(done) == [];
    hide ItemEvents, EventsOf, RowObject;
    while true
      invariant Stands(lines, lines.ahead)
      invariant goal == Prepend(done, TableRows(lines.ahead, header, depth, strict, index))
      invariant out.events == old(out.events) + ItemEvents(done)
      decreases Size(lines.ahead)
    {
      ghost var stream := lines.ahead;
      var next :- NextBodyLine(lines, depth, strict, header.declared, index);
      if next.None? {
        assert done + [] == done;
        return Ok(());
      }
      ghost var row := RowObject(header, next.value.content, next.value.at);
      var _ :- EmitRow(header, next.value.content, next.value.at, cells, out);
      TableStep(done, stream, header, depth, strict, index, row.value);
      Regroup(old(out.events), ItemEvents(done), EventsOf(row.value));
      done := done + [row.value];
      index := index + 1;
    }
  }

  /** One row of a keyed table: its key, then its cells. */
  method EmitKeyedRow(header: Header, line: Line, strict: bool, seen: SeenKeys, cells: CellBuffer, out: Recorder)
    returns (r: Result<()>)
    requires IsDelimiter(header.delimiter)
    modifies seen, cells, out
    ensures match KeyedRow(header, line, strict, old(seen.keys))
            case Err(fault) => r == Err(fault)
            case Ok(row) =>
              && r == Ok(()) && seen.keys == NoteRow(old(seen.keys), row, strict)
              && out.events == old(out.events) + FieldEvents(RowsOf(row))
  {
    var first := FindUnquoted(line.content, COLON, 0);
    var colon := Separating(line.content, first);
    if colon.None? {
      if strict { return Err(SyntaxAt(ExpectedKey, line.at)); }
      return Ok(());
    }
    var text := TrimSpaces(line.content[..colon.value]);
    var key :- ParseStringToken(text, line.at);
    var _ :- seen.NoteKey(key, line.at, strict);
    var rest := TrimSpaces(line.content[colon.value + 1..]);
    if rest == [] { return Err(SyntaxAt(WrongRowWidth, line.at)); }
    r := EmitKeyed(header, key, rest, line.at, cells, out);
  }

  method EmitKeyed(header: Header, key: StringToken, content: bytes, at: Position, cells: CellBuffer, out: Recorder)
    returns (r: Result<()>)
    requires IsDelimiter(header.delimiter)
    modifies cells, out
    ensures match RowObject(header, content, at)
            case Err(fault) => r == Err(fault)
            case Ok(row) => r == Ok(()) && out.events == old(out.events) + FieldEvents([Field(key, row, at)])
  {
    out.Emit(Key(key, at));
    r := EmitRow(header, content, at, cells, out);
    if r.Ok? { FieldEventsAppend([], Field(key, RowObject(header, content, at).value, at)); }
  }

  lemma {:induction false} FieldEventsConcat(a: seq<Field>, b: seq<Field>)
    ensures FieldEvents(a + b) == FieldEvents(a) + FieldEvents(b)
  {
    if a == [] {
      assert a + b == b;
    } else {
      assert (a + b)[1..] == a[1..] + b;
      FieldEventsConcat(a[1..], b);
    }
  }

  lemma {:induction false} KeyedStep(
      done: seq<Field>, stream: LineStream, header: Header, depth: nat, strict: bool, index: nat, seen: set<bytes>,
      row: Option<Field>)
    requires NextRow(stream, depth, strict, header.declared, index).Ok?
    requires NextRow(stream, depth, strict, header.declared, index).value.Some?
    requires KeyedRow(header, stream.line, strict, seen) == Ok(row)
    ensures Prepend(done, KeyedRows(stream, header, depth, strict, index, seen)) ==
            Prepend(done + RowsOf(row), KeyedRows(stream.rest, header, depth, strict, index + 1, NoteRow(seen, row, strict)))
    ensures FieldEvents(done + RowsOf(row)) == FieldEvents(done) + FieldEvents(RowsOf(row))
  {
    var others := KeyedRows(stream.rest, header, depth, strict, index + 1, NoteRow(seen, row, strict));
    assert KeyedRows(stream, header, depth, strict, index, seen) == Prepend(RowsOf(row), others);
    PrependOne(done, RowsOf(row), others);
    FieldEventsConcat(done, RowsOf(row));
  }

  /** One row of a keyed table; `false` when the table ends. */
  method ParseKeyedRow(
      lines: Lines, header: Header, depth: nat, strict: bool, index: nat, seen: SeenKeys, cells: CellBuffer, out: Recorder)
    returns (r: Result<bool>)
    requires Stands(lines, lines.ahead) && IsDelimiter(header.delimiter)
    modifies lines, lines.scanner, seen, cells, out
    ensures match NextRow(old(lines.ahead), depth, strict, header.declared, index)
            case Err(fault) => r == Err(fault)
            case Ok(None) =>
              r == Ok(false) && Stands(lines, old(lines.ahead)) && out.events == old(out.events) && seen.keys == old(seen.keys)
            case Ok(Some(line)) =>
              match KeyedRow(header, line.value, strict, old(seen.keys))
              case Err(fault) => r == Err(fault)
              case Ok(row) =>
                && r == Ok(true) && Stands(lines, line.rest) && seen.keys == NoteRow(old(seen.keys), row, strict)
                && out.events == old(out.events) + FieldEvents(RowsOf(row))
  {
    hide FieldEvents, RowsOf, KeyedRow, NoteRow;
    var next :- NextBodyLine(lines, depth, strict, header.declared, index);
    if next.None? { return Ok(false); }
    var _ :- EmitKeyedRow(header, next.value, strict, seen, cells, out);
    return Ok(true);
  }

  method ParseKeyedRows(lines: Lines, header: Header, depth: nat, strict: bool, out: Recorder) returns (r: Result<()>)
    requires Stands(lines, lines.ahead) && IsDelimiter(header.delimiter)
    modifies lines, lines.scanner, out
    ensures ParsesFields(lines, out, old(out.events), KeyedRows(old(lines.ahead), header, depth, strict, 0, {}), r)
  {
    var seen := new SeenKeys();
    var cells := new CellBuffer();
    ghost var goal := KeyedRows(lines.ahead, header, depth, strict, 0, {});
    ghost var done: seq<Field> := [];
    var index := 0;
    RowsStart(goal);
    assert FieldEvents(done) == [];
    hide FieldEvents, RowsOf, KeyedRow, NoteRow, Prepend;
    while true
      invariant Stands(lines, lines.ahead)
      invariant goal == Prepend(done, KeyedRows(lines.ahead, header, depth, strict, index, seen.keys))
      invariant out.events == old(out.events) + FieldEvents(done)
      decreases Size(lines.ahead)
    {
      ghost var stream, keys := lines.ahead, seen.keys;
      PrependEnds(done, KeyedRows(stream, header, depth, strict, index, keys));
      var more :- ParseKeyedRow(lines, header, depth, strict, index, seen, cells, out);
      if !more { return Ok(()); }
      ghost var row := KeyedRow(header, stream.line, strict, keys);
      KeyedStep(done, stream, header, depth, strict, index, keys, row.value);
      Regroup(old(out.events), FieldEvents(done), FieldEvents(RowsOf(row.value)));
      done := done + RowsOf(row.value);
      index := index + 1;
    }
  }

  lemma {:induction false} InlineItemsStep(done: seq<Tree>, cells: seq<bytes>, i: nat, at: Position)
    requires i < |cells|
    ensures var first := ValueToken(cells[i], at);
            PrependAll(done, InlineItems(cells[i..], at)) ==
            if first.Err? then Err(first.fault)
            else PrependAll(done + [Leaf(first.value, at)], InlineItems(cells[i + 1..], at))
  {
    assert cells[i..][1..] == cells[i + 1..];
    var first, others := ValueToken(cells[i], at), InlineItems(cells[i + 1..], at);
    if first.Ok? && others.Ok? {
      var leaf := Leaf(first.value, at);
      assert done + ([leaf] + others.value) == (done + [leaf]) + others.value;
    }
  }

  method EmitInline(values: bytes, header: Header, at: Position, strict: bool, out: Recorder) returns (r: Result<()>)
    requires IsDelimiter(header.delimiter)
    modifies out
    ensures var cells := SplitCells(values, header.delimiter);
            if strict && |cells| != header.declared then r == Err(SyntaxAt(WrongArrayLength, at))
            else match InlineItems(cells, at)
                 case Err(fault) => r == Err(fault)
                 case Ok(items) => r == Ok(()) && out.events == old(out.events) + ItemEvents(items)
  {
    var buffer := new CellBuffer();
    SplitCellsInto(values, header.delimiter, buffer);
    var cells := buffer.items;
    if strict && |cells| != header.declared { return Err(SyntaxAt(WrongArrayLength, at)); }
    r := EmitScalars(cells, at, out);
  }

  method EmitScalars(cells: seq<bytes>, at: Position, out: Recorder) returns (r: Result<()>)
    modifies out
    ensures match InlineItems(cells, at)
            case Err(fault) => r == Err(fault)
            case Ok(items) => r == Ok(()) && out.events == old(out.events) + ItemEvents(items)
  {
    ghost var done: seq<Tree> := [];
    assert cells[0..] == cells;
    PrependNone(InlineItems(cells, at));
    for i := 0 to |cells|
      invariant InlineItems(cells, at) == PrependAll(done, InlineItems(cells[i..], at))
      invariant out.events == old(out.events) + ItemEvents(done)
    {
      InlineItemsStep(done, cells, i, at);
      var token :- ClassifyValue(cells[i], at);
      out.Emit(Scalar(token, at));
      ItemEventsAppend(done, Leaf(token, at));
      done := done + [Leaf(token, at)];
    }
    assert cells[|cells|..] == [];
    assert done + [] == done;
    return Ok(());
  }

  // ----- the recursive structure -------------------------------------------------

  method ParseKeyedBody(lines: Lines, header: Header, depth: nat, at: Position, strict: bool, out: Recorder) returns (r: Result<()>)
    requires Stands(lines, lines.ahead) && depth <= DEEPEST && header.keyed && IsDelimiter(header.delimiter)
    modifies lines, lines.scanner, out
    ensures Parses(lines, out, old(out.events), ArrayOrKeyed(old(lines.ahead), header, depth, at, strict), r)
  {
    hide KeyedRows, FieldEvents;
    ghost var before := out.events;
    ghost var rows := KeyedRows(lines.ahead, header, depth, strict, 0, {});
    var leafCount := LeafSum(header.fields);
    out.Emit(StartObject(at));
    out.Emit(BeginTabular(leafCount, at));
    var _ :- ParseKeyedRows(lines, header, depth, strict, out);
    out.Emit(EndObject(at));
    assert out.events == before + ([StartObject(at), BeginTabular(leafCount, at)] + FieldEvents(rows.value.value) + [EndObject(at)]);
    return Ok(());
  }

  /** The events of an array around those of its items. */
  function Enclosed(header: Header, tabular: Option<nat>, at: Position, items: seq<Event>): seq<Event> {
    [StartArray(header.declared, at)] + Announcement(tabular, at) + items + [EndArray(at)]
  }

  method ParseTable(lines: Lines, header: Header, depth: nat, at: Position, strict: bool, out: Recorder) returns (r: Result<()>)
    requires Stands(lines, lines.ahead) && IsDelimiter(header.delimiter) && header.fields != []
    modifies lines, lines.scanner, out
    ensures Parses(lines, out, old(out.events), ArrayBody(old(lines.ahead), header, depth, at, strict), r)
  {
    hide TableRows, ItemEvents;
    ghost var before, rows := out.events, TableRows(lines.ahead, header, depth, strict, 0);
    out.Emit(StartArray(header.declared, at));
    out.Emit(BeginTabular(LeafSum(header.fields), at));
    var _ :- ParseTableRows(lines, header, depth, strict, out);
    out.Emit(EndArray(at));
    assert out.events == before + Enclosed(header, Some(LeafSum(header.fields)), at, ItemEvents(rows.value.value));
    return Ok(());
  }

  method ParseInline(lines: Lines, header: Header, depth: nat, at: Position, strict: bool, out: Recorder) returns (r: Result<()>)
    requires Stands(lines, lines.ahead) && IsDelimiter(header.delimiter) && header.fields == [] && header.inlineValues.Some?
    modifies lines, lines.scanner, out
    ensures Parses(lines, out, old(out.events), ArrayBody(old(lines.ahead), header, depth, at, strict), r)
  {
    hide SplitCells, InlineItems, ItemEvents;
    ghost var before := out.events;
    ghost var items := InlineItems(SplitCells(header.inlineValues.value, header.delimiter), at);
    out.Emit(StartArray(header.declared, at));
    var _ :- EmitInline(header.inlineValues.value, header, at, strict, out);
    out.Emit(EndArray(at));
    assert out.events == before + Enclosed(header, None, at, ItemEvents(items.value));
    return Ok(());
  }

  method ParseArrayBody(lines: Lines, header: Header, depth: nat, at: Position, strict: bool, out: Recorder) returns (r: Result<()>)
    requires Stands(lines, lines.ahead) && depth <= DEEPEST && IsDelimiter(header.delimiter)
    modifies lines, lines.scanner, out
    ensures Parses(lines, out, old(out.events), ArrayBody(old(lines.ahead), header, depth, at, strict), r)
    decreases Size(lines.ahead), 1
  {
    if header.fields != [] {
      r := ParseTable(lines, header, depth, at, strict, out);
    } else if header.inlineValues.Some? {
      r := ParseInline(lines, header, depth, at, strict, out);
    } else {
      ghost var before, items := out.events, ListItems(lines.ahead, depth, strict, header.declared, 0);
      out.Emit(StartArray(header.declared, at));
      var _ :- ParseListItems(lines, depth, strict, header.declared, out);
      out.Emit(EndArray(at));
      assert out.events == before + Enclosed(header, None, at, ItemEvents(items.value.value));
      return Ok(());
    }
  }

  lemma {:induction false} ListStep(done: seq<Tree>, stream: LineStream, depth: nat, strict: bool, declared: nat, index: nat, item: Parsed<Tree>)
    requires NextRow(stream, depth, strict, declared, index).Ok?
    requires NextRow(stream, depth, strict, declared, index).value.Some?
    requires ListItem(stream.line.content, stream.line.at, stream.rest, depth, strict) == Ok(item)
    ensures Prepend(done, ListItems(stream, depth, strict, declared, index)) ==
            Prepend(done + [item.value], ListItems(item.rest, depth, strict, declared, index + 1))
    ensures ItemEvents(done + [item.value]) == ItemEvents(done) + EventsOf(item.value)
  {
    var others := ListItems(item.rest, depth, strict, declared, index + 1);
    assert ListItems(stream, depth, strict, declared, index) == Prepend([item.value], others);
    PrependOne(done, [item.value], others);
    ItemEventsAppend(done, item.value);
  }

  /** The next item of a list; `false` when the list ends. */
  method ParseNextItem(lines: Lines, depth: nat, strict: bool, declared: nat, index: nat, out: Recorder) returns (r: Result<bool>)
    requires Stands(lines, lines.ahead) && depth <= DEEPEST
    modifies lines, lines.scanner, out
    ensures match NextRow(old(lines.ahead), depth, strict, declared, index)
            case Err(fault) => r == Err(fault)
            case Ok(None) => r == Ok(false) && Stands(lines, old(lines.ahead)) && out.events == old(out.events)
            case Ok(Some(line)) =>
              match ListItem(line.value.content, line.value.at, line.rest, depth, strict)
              case Err(fault) => r == Err(fault)
              case Ok(item) =>
                r == Ok(true) && Stands(lines, item.rest) && out.events == old(out.events) + EventsOf(item.value)
    decreases Size(lines.ahead), 0, 0
  {
    hide EventsOf, ListItem;
    var next :- NextBodyLine(lines, depth, strict, declared, index);
    if next.None? { return Ok(false); }
    var _ :- ParseListItem(next.value.content, next.value.at, lines, depth, strict, out);
    return Ok(true);
  }

  method ParseListItems(lines: Lines, depth: nat, strict: bool, declared: nat, out: Recorder) returns (r: Result<()>)
    requires Stands(lines, lines.ahead) && depth <= DEEPEST
    modifies lines, lines.scanner, out
    ensures ParsesItems(lines, out, old(out.events), ListItems(old(lines.ahead), depth, strict, declared, 0), r)
    decreases Size(lines.ahead), 0
  {
    ghost var goal := ListItems(lines.ahead, depth, strict, declared, 0);
    ghost var done: seq<Tree> := [];
    var index := 0;
    RowsStart(goal);
    assert ItemEvents(done) == [];
    hide ItemEvents, EventsOf, ListItem, Prepend;
    while true
      invariant Stands(lines, lines.ahead) && Size(lines.ahead) <= Size(old(lines.ahead))
      invariant goal == Prepend(done, ListItems(lines.ahead, depth, strict, declared, index))
      invariant out.events == old(out.events) + ItemEvents(done)
      decreases Size(lines.ahead)
    {
      ghost var stream := lines.ahead;
      PrependEnds(done, ListItems(stream, depth, strict, declared, index));
      var more :- ParseNextItem(lines, depth, strict, declared, index, out);
      if !more { return Ok(()); }
      ghost var item := ListItem(stream.line.content, stream.line.at, stream.rest, depth, strict);
      ListStep(done, stream, depth, strict, declared, index, item.value);
      Regroup(old(out.events), ItemEvents(done), EventsOf(item.value.value));
      done := done + [item.value.value];
      index := index + 1;
    }
  }

  method ParseArrayOrKeyedBody(lines: Lines, header: Header, depth: nat, at: Position, strict: bool, out: Recorder) returns (r: Result<()>)
    requires Stands(lines, lines.ahead) && depth <= DEEPEST && IsDelimiter(header.delimiter)
    modifies lines, lines.scanner, out
    ensures Parses(lines, out, old(out.events), ArrayOrKeyed(old(lines.ahead), header, depth, at, strict), r)
    decreases Size(lines.ahead), 2
  {
    if header.keyed {
      r := ParseKeyedBody(lines, header, depth, at, strict, out);
    } else {
      r := ParseArrayBody(lines, header, depth, at, strict, out);
    }
  }

  method ParseNested(lines: Lines, depth: nat, at: Position, strict: bool, out: Recorder) returns (r: Result<()>)
    requires Stands(lines, lines.ahead) && depth <= DEEPEST
    modifies lines, lines.scanner, out
    ensures Parses(lines, out, old(out.events), NestedObject(old(lines.ahead), depth, at, strict), r)
    decreases Size(lines.ahead), 1
  {
    hide ObjectBody;
    ghost var before, stream := out.events, lines.ahead;
    var next :- lines.Peek();
    var nested := false;
    if next.Some? && next.value.depth > depth {
      if next.value.depth != depth + 1 { return Err(SyntaxAt(DepthJump, next.value.at)); }
      nested := true;
    }
    out.Emit(StartObject(at));
    if nested {
      var _ :- ParseObjectBody(lines, depth + 1, strict, out);
      out.Emit(EndObject(at));
      ghost var fields := ObjectBody(stream, depth + 1, strict, {}).value.value;
      assert out.events == before + ([StartObject(at)] + FieldEvents(fields) + [EndObject(at)]);
    } else {
      out.Emit(EndObject(at));
      assert out.events == before + ([StartObject(at)] + FieldEvents([]) + [EndObject(at)]);
    }
    return Ok(());
  }

  method EmitInlineValue(value: bytes, at: Position, out: Recorder) returns (r: Result<()>)
    modifies out
    ensures match InlineValue(value, at)
            case Err(fault) => r == Err(fault)
            case Ok(tree) => r == Ok(()) && out.events == old(out.events) + EventsOf(tree)
  {
    if value == EMPTY_ARRAY {
      ghost var before := out.events;
      out.Emit(StartArray(0, at));
      out.Emit(EndArray(at));
      assert out.events == before + ([StartArray(0, at)] + [] + ItemEvents([]) + [EndArray(at)]);
      return Ok(());
    }
    var token :- ClassifyValue(value, at);
    out.Emit(Scalar(token, at));
    return Ok(());
  }

  method ParseKeyValue(content: bytes, marks: LineMarks, at: Position, lines: Lines, depth: nat, strict: bool, seen: SeenKeys, out: Recorder)
    returns (r: Result<()>)
    requires Stands(lines, lines.ahead) && depth <= DEEPEST && marks == Marks(content)
    modifies lines, lines.scanner, seen, out
    ensures ParsesEntry(lines, out, seen, old(out.events), old(seen.keys), strict,
                        KeyValue(content, at, old(lines.ahead), depth, strict, old(seen.keys)), r)
    decreases Size(lines.ahead), 2
  {
    hide EntryColon, Marks, NestedObject, InlineValue, StringTokenOf, EventsOf, Trim;
    var colon := ResolveEntryColon(content, marks);
    if colon.None? { return Err(SyntaxAt(ExpectedKey, at)); }
    var text := TrimSpaces(content[..colon.value]);
    var key :- ParseStringToken(text, at);
    var _ :- seen.NoteKey(key, at, strict);
    ghost var before := out.events;
    out.Emit(Key(key, at));
    if colon.value + 1 == |content| {
      r := ParseNested(lines, depth, at, strict, out);
    } else {
      r := EmitInlineValue(content[colon.value + 2..], Position(at.line, at.column + colon.value + 2), out);
    }
  }

  method ParseHeaderEntry(header: Header, at: Position, lines: Lines, depth: nat, strict: bool, seen: SeenKeys, out: Recorder)
    returns (r: Result<()>)
    requires Stands(lines, lines.ahead) && depth <= DEEPEST && IsDelimiter(header.delimiter)
    modifies lines, lines.scanner, seen, out
    ensures ParsesEntry(lines, out, seen, old(out.events), old(seen.keys), strict,
                        HeaderEntry(header, at, old(lines.ahead), depth, strict, old(seen.keys)), r)
    decreases Size(lines.ahead), 3, 0
  {
    if header.key.None? { return Err(SyntaxAt(ExpectedKey, at)); }
    var _ :- seen.NoteKey(header.key.value, at, strict);
    out.Emit(Key(header.key.value, at));
    r := ParseArrayOrKeyedBody(lines, header, depth, at, strict, out);
  }

  method ParseEntry(content: bytes, marks: LineMarks, at: Position, lines: Lines, depth: nat, strict: bool, seen: SeenKeys, out: Recorder)
    returns (r: Result<()>)
    requires Stands(lines, lines.ahead) && depth <= DEEPEST && marks == Marks(content)
    modifies lines, lines.scanner, seen, out
    ensures ParsesEntry(lines, out, seen, old(out.events), old(seen.keys), strict,
                        Entry(content, at, old(lines.ahead), depth, strict, old(seen.keys)), r)
    decreases Size(lines.ahead), 3
  {
    var outcome :- ParseHeader(content, marks, strict, at);
    r := ParseEntryWith(outcome, content, marks, at, lines, depth, strict, seen, out);
  }

  method ParseEntryWith(
      outcome: HeaderOutcome, content: bytes, marks: LineMarks, at: Position, lines: Lines, depth: nat, strict: bool,
      seen: SeenKeys, out: Recorder)
    returns (r: Result<()>)
    requires Stands(lines, lines.ahead) && depth <= DEEPEST && marks == Marks(content)
    requires outcome.HeaderLine? ==> IsDelimiter(outcome.header.delimiter)
    modifies lines, lines.scanner, seen, out
    ensures ParsesEntry(lines, out, seen, old(out.events), old(seen.keys), strict,
                        EntryWith(outcome, content, at, old(lines.ahead), depth, strict, old(seen.keys)), r)
    decreases Size(lines.ahead), 3, 1
  {
    match outcome
    case HeaderLine(header) =>
      r := ParseHeaderEntry(header, at, lines, depth, strict, seen, out);
    case Malformed(code) =>
      if strict { return Err(SyntaxAt(code, at)); }
      r := ParseKeyValue(content, marks, at, lines, depth, strict, seen, out);
    case NotHeader =>
      r := ParseKeyValue(content, marks, at, lines, depth, strict, seen, out);
  }

  /** A whole line read as one entry. */
  method ParseLine(line: Line, lines: Lines, depth: nat, strict: bool, seen: SeenKeys, out: Recorder) returns (r: Result<()>)
    requires Stands(lines, lines.ahead) && depth <= DEEPEST
    modifies lines, lines.scanner, seen, out
    ensures ParsesEntry(lines, out, seen, old(out.events), old(seen.keys), strict,
                        LineEntry(line, old(lines.ahead), depth, strict, old(seen.keys)), r)
    decreases Size(lines.ahead), 4
  {
    var marks := ScanLineMarks(line.content);
    r := ParseEntry(line.content, marks, line.at, lines, depth, strict, seen, out);
  }

  lemma {:induction false} BodyStep(done: seq<Field>, stream: LineStream, depth: nat, strict: bool, seen: set<bytes>, first: Parsed<Field>)
    requires stream.More? && stream.line.depth == depth
    requires LineEntry(stream.line, stream.rest, depth, strict, seen) == Ok(first)
    ensures Prepend(done, ObjectBody(stream, depth, strict, seen)) ==
            Prepend(done + [first.value], ObjectBody(first.rest, depth, strict, Note(seen, first.value.key, strict)))
    ensures FieldEvents(done + [first.value]) == FieldEvents(done) + FieldEvent(first.value)
  {
    var others := ObjectBody(first.rest, depth, strict, Note(seen, first.value.key, strict));
    assert ObjectBody(stream, depth, strict, seen) == Prepend([first.value], others);
    PrependOne(done, [first.value], others);
    FieldEventsAppend(done, first.value);
  }

  /** The next line of an object body at exactly `depth`, if there is one. */
  method TakeBodyLine(lines: Lines, depth: nat) returns (r: Result<Option<Line>>)
    requires Stands(lines, lines.ahead)
    modifies lines, lines.scanner
    ensures match old(lines.ahead)
            case Broken(fault) => r == Err(fault)
            case End(_) => r == Ok(None) && Stands(lines, old(lines.ahead))
            case More(line, rest) =>
              if line.depth < depth then r == Ok(None) && Stands(lines, old(lines.ahead))
              else if line.depth > depth then r == Err(SyntaxAt(DepthJump, line.at))
              else r == Ok(Some(line)) && Stands(lines, rest)
  {
    var next :- lines.Peek();
    if next.None? || next.value.depth < depth { return Ok(None); }
    if next.value.depth > depth { return Err(SyntaxAt(DepthJump, next.value.at)); }
    r := lines.Advance();
  }

  method ParseObjectBody(lines: Lines, depth: nat, strict: bool, out: Recorder) returns (r: Result<()>)
    requires Stands(lines, lines.ahead) && depth <= DEEPEST
    modifies lines, lines.scanner, out
    ensures ParsesFields(lines, out, old(out.events), ObjectBody(old(lines.ahead), depth, strict, {}), r)
    decreases Size(lines.ahead), 0
  {
    var seen := new SeenKeys();
    ghost var goal := ObjectBody(lines.ahead, depth, strict, {});
    ghost var done: seq<Field> := [];
    RowsStart(goal);
    assert FieldEvents(done) == [];
    hide FieldEvents, FieldEvent, LineEntry;
    while true
      invariant Stands(lines, lines.ahead) && Size(lines.ahead) <= Size(old(lines.ahead))
      invariant goal == Prepend(done, ObjectBody(lines.ahead, depth, strict, seen.keys))
      invariant out.events == old(out.events) + FieldEvents(done)
      decreases Size(lines.ahead)
    {
      ghost var stream, keys := lines.ahead, seen.keys;
      var next :- TakeBodyLine(lines, depth);
      if next.None? {
        assert done + [] == done;
        return Ok(());
      }
      var line := next.value;
      ghost var first := LineEntry(line, lines.ahead, depth, strict, keys);
      var _ :- ParseLine(line, lines, depth, strict, seen, out);
      BodyStep(done, stream, depth, strict, keys, first.value);
      Regroup(old(out.events), FieldEvents(done), FieldEvent(first.value.value));
      done := done + [first.value.value];
    }
  }

  lemma {:induction false} ItemStep(done: seq<Field>, stream: LineStream, depth: nat, strict: bool, seen: set<bytes>, first: Parsed<Field>)
    requires stream.More? && stream.line.depth == depth + 2 && !(strict && stream.line.blankBefore)
    requires LineEntry(stream.line, stream.rest, depth + 2, strict, seen) == Ok(first)
    ensures Prepend(done, ItemBody(stream, depth, strict, seen)) ==
            Prepend(done + [first.value], ItemBody(first.rest, depth, strict, Note(seen, first.value.key, strict)))
    ensures FieldEvents(done + [first.value]) == FieldEvents(done) + FieldEvent(first.value)
  {
    var others := ItemBody(first.rest, depth, strict, Note(seen, first.value.key, strict));
    assert ItemBody(stream, depth, strict, seen) == Prepend([first.value], others);
    PrependOne(done, [first.value], others);
    FieldEventsAppend(done, first.value);
  }

  /** The next line of an object item, two levels below its list, if there is one. */
  method TakeItemLine(lines: Lines, depth: nat, strict: bool) returns (r: Result<Option<Line>>)
    requires Stands(lines, lines.ahead)
    modifies lines, lines.scanner
    ensures match old(lines.ahead)
            case Broken(fault) => r == Err(fault)
            case End(_) => r == Ok(None) && Stands(lines, old(lines.ahead))
            case More(line, rest) =>
              if line.depth != depth + 2 then r == Ok(None) && Stands(lines, old(lines.ahead))
              else if strict && line.blankBefore then r == Err(SyntaxAt(BlankLineInArray, line.at))
              else r == Ok(Some(line)) && Stands(lines, rest)
  {
    var next :- lines.Peek();
    if next.None? || next.value.depth != depth + 2 { return Ok(None); }
    if strict && next.value.blankBefore { return Err(SyntaxAt(BlankLineInArray, next.value.at)); }
    r := lines.Advance();
  }

  method ContinueObjectItem(lines: Lines, depth: nat, strict: bool, seen: SeenKeys, out: Recorder) returns (r: Result<()>)
    requires Stands(lines, lines.ahead) && depth < MAX_NESTING_DEPTH
    modifies lines, lines.scanner, seen, out
    ensures ParsesFields(lines, out, old(out.events), ItemBody(old(lines.ahead), depth, strict, old(seen.keys)), r)
    decreases Size(lines.ahead), 0
  {
    ghost var goal := ItemBody(lines.ahead, depth, strict, seen.keys);
    ghost var done: seq<Field> := [];
    RowsStart(goal);
    assert FieldEvents(done) == [];
    hide FieldEvents, FieldEvent, LineEntry;
    while true
      invariant Stands(lines, lines.ahead) && Size(lines.ahead) <= Size(old(lines.ahead))
      invariant goal == Prepend(done, ItemBody(lines.ahead, depth, strict, seen.keys))
      invariant out.events == old(out.events) + FieldEvents(done)
      decreases Size(lines.ahead)
    {
      ghost var stream, keys := lines.ahead, seen.keys;
      var next :- TakeItemLine(lines, depth, strict);
      if next.None? {
        assert done + [] == done;
        return Ok(());
      }
      var line := next.value;
      ghost var first := LineEntry(line, lines.ahead, depth + 2, strict, keys);
      var _ :- ParseLine(line, lines, depth + 2, strict, seen, out);
      ItemStep(done, stream, depth, strict, keys, first.value);
      Regroup(old(out.events), FieldEvents(done), FieldEvent(first.value.value));
      done := done + [first.value.value];
    }
  }

  /** The rest of an object item whose first entry has just been emitted, and its end. */
  method FinishObjectItem(ghost before: seq<Event>, ghost first: Parsed<Field>, at: Position, lines: Lines, depth: nat, strict: bool, seen: SeenKeys, out: Recorder)
    returns (r: Result<()>)
    requires Stands(lines, first.rest) && depth < MAX_NESTING_DEPTH
    requires seen.keys == Note({}, first.value.key, strict)
    requires out.events == before + [StartRepeatedObject(at)] + FieldEvent(first.value)
    modifies lines, lines.scanner, seen, out
    ensures Parses(lines, out, before, ObjectItem(first, at, depth, strict), r)
    decreases Size(lines.ahead), 1
  {
    ghost var others := ItemBody(first.rest, depth, strict, seen.keys);
    var _ :- ContinueObjectItem(lines, depth, strict, seen, out);
    out.Emit(EndObject(at));
    FieldEventsConcat([first.value], others.value.value);
    FieldEventsAppend([], first.value);
    assert [] + [first.value] == [first.value];
    assert out.events == before + ([StartRepeatedObject(at)] + FieldEvents([first.value] + others.value.value) + [EndObject(at)]);
    return Ok(());
  }

  method ParseListItem(content: bytes, at: Position, lines: Lines, depth: nat, strict: bool, out: Recorder) returns (r: Result<()>)
    requires Stands(lines, lines.ahead) && depth < MAX_NESTING_DEPTH
    modifies lines, lines.scanner, out
    ensures Parses(lines, out, old(out.events), ListItem(content, at, old(lines.ahead), depth, strict), r)
    decreases Size(lines.ahead), 5
  {
    if content == [MINUS] {
      ghost var before := out.events;
      out.Emit(StartRepeatedObject(at));
      out.Emit(EndObject(at));
      assert out.events == before + ([StartRepeatedObject(at)] + FieldEvents([]) + [EndObject(at)]);
      return Ok(());
    }
    if !StartsWith(content, DASH) { return Err(SyntaxAt(MissingListItem, at)); }
    r := ParseDashedItem(content[2..], Position(at.line, at.column + 2), lines, depth, strict, out);
  }

  method ParseDashedItem(item: bytes, at: Position, lines: Lines, depth: nat, strict: bool, out: Recorder) returns (r: Result<()>)
    requires Stands(lines, lines.ahead) && depth < MAX_NESTING_DEPTH
    modifies lines, lines.scanner, out
    ensures Parses(lines, out, old(out.events), DashedItem(item, at, old(lines.ahead), depth, strict), r)
    decreases Size(lines.ahead), 4
  {
    if item == EMPTY_ARRAY {
      r := EmitInlineValue(item, at, out);
      return;
    }
    var marks := ScanLineMarks(item);
    var outcome :- ParseHeader(item, marks, strict, at);
    r := ParseDashedWith(outcome, item, marks, at, lines, depth, strict, out);
  }

  method ParseDashedWith(
      outcome: HeaderOutcome, item: bytes, marks: LineMarks, at: Position, lines: Lines, depth: nat, strict: bool, out: Recorder)
    returns (r: Result<()>)
    requires Stands(lines, lines.ahead) && depth < MAX_NESTING_DEPTH && marks == Marks(item)
    requires outcome.HeaderLine? ==> IsDelimiter(outcome.header.delimiter)
    modifies lines, lines.scanner, out
    ensures Parses(lines, out, old(out.events), DashedWith(outcome, item, at, old(lines.ahead), depth, strict), r)
    decreases Size(lines.ahead), 4, 0
  {
    match outcome
    case HeaderLine(header) =>
      if header.key.None? {
        if header.fields != [] || header.keyed { return Err(SyntaxAt(MalformedHeader, at)); }
        r := ParseArrayBody(lines, header, depth + 1, at, strict, out);
      } else {
        r := ParseHeaderItem(header, at, lines, depth, strict, out);
      }
    case Malformed(code) =>
      if strict { return Err(SyntaxAt(code, at)); }
      r := ParsePlainItem(item, marks, at, lines, depth, strict, out);
    case NotHeader =>
      r := ParsePlainItem(item, marks, at, lines, depth, strict, out);
  }

  /** An object item whose first entry is an array. */
  method ParseHeaderItem(header: Header, at: Position, lines: Lines, depth: nat, strict: bool, out: Recorder) returns (r: Result<()>)
    requires Stands(lines, lines.ahead) && depth < MAX_NESTING_DEPTH && header.key.Some? && IsDelimiter(header.delimiter)
    modifies lines, lines.scanner, out
    ensures Parses(lines, out, old(out.events), HeaderItem(header, at, old(lines.ahead), depth, strict), r)
    decreases Size(lines.ahead), 3, 2
  {
    ghost var before := out.events;
    ghost var first := HeaderEntry(header, at, lines.ahead, depth + 2, strict, {});
    out.Emit(StartRepeatedObject(at));
    var seen := new SeenKeys();
    var _ :- ParseHeaderEntry(header, at, lines, depth + 2, strict, seen, out);
    r := FinishObjectItem(before, first.value, at, lines, depth, strict, seen, out);
  }

  /** An item that is no header: an object when it holds a separating colon, otherwise a scalar. */
  method ParsePlainItem(item: bytes, marks: LineMarks, at: Position, lines: Lines, depth: nat, strict: bool, out: Recorder)
    returns (r: Result<()>)
    requires Stands(lines, lines.ahead) && depth < MAX_NESTING_DEPTH && marks == Marks(item)
    modifies lines, lines.scanner, out
    ensures Parses(lines, out, old(out.events), PlainItem(item, at, old(lines.ahead), depth, strict), r)
    decreases Size(lines.ahead), 3
  {
    var colon := ResolveEntryColon(item, marks);
    if colon.Some? {
      ghost var before := out.events;
      ghost var first := KeyValue(item, at, lines.ahead, depth + 2, strict, {});
      out.Emit(StartRepeatedObject(at));
      var seen := new SeenKeys();
      var _ :- ParseKeyValue(item, marks, at, lines, depth + 2, strict, seen, out);
      r := FinishObjectItem(before, first.value, at, lines, depth, strict, seen, out);
    } else {
      var token :- ClassifyValue(item, at);
      out.Emit(Scalar(token, at));
      return Ok(());
    }
  }

  // ----- documents ---------------------------------------------------------------

  /** A whole document parsed as `spec`. */
  ghost predicate Spells(out: Recorder, before: seq<Event>, spec: Result<Tree>, r: Result<()>)
    reads out
  {
    match spec
    case Err(fault) => r == Err(fault)
    case Ok(tree) => r == Ok(()) && out.events == before + EventsOf(tree)
  }

  method ExpectEnd(lines: Lines) returns (r: Result<()>)
    requires lines.Valid()
    modifies lines, lines.scanner
    ensures match old(lines.ahead)
            case Broken(fault) => r == Err(fault)
            case More(line, _) => r == Err(SyntaxAt(TrailingContent, line.at))
            case End(_) => r == Ok(())
  {
    var next :- lines.Peek();
    if next.Some? { return Err(SyntaxAt(TrailingContent, next.value.at)); }
    return Ok(());
  }

  method ParseRootObject(lines: Lines, at: Position, strict: bool, out: Recorder) returns (r: Result<()>)
    requires Stands(lines, lines.ahead)
    modifies lines, lines.scanner, out
    ensures Spells(out, old(out.events), RootObject(old(lines.ahead), at, strict), r)
  {
    ghost var before := out.events;
    ghost var body := ObjectBody(lines.ahead, 0, strict, {});
    out.Emit(StartObject(at));
    var _ :- ParseObjectBody(lines, 0, strict, out);
    out.Emit(EndObject(at));
    assert out.events == before + ([StartObject(at)] + FieldEvents(body.value.value) + [EndObject(at)]);
    return Ok(());
  }

  method ParsePlainRoot(first: Line, marks: LineMarks, lines: Lines, strict: bool, out: Recorder) returns (r: Result<()>)
    requires Stands(lines, lines.ahead) && lines.ahead.More? && lines.ahead.line == first && marks == Marks(first.content)
    modifies lines, lines.scanner, out
    ensures Spells(out, old(out.events), PlainRoot(old(lines.ahead), strict), r)
  {
    var colon := ResolveEntryColon(first.content, marks);
    if colon.Some? {
      r := ParseRootObject(lines, first.at, strict, out);
    } else {
      var _ := lines.Advance();
      var token :- ClassifyValue(first.content, first.at);
      out.Emit(Scalar(token, first.at));
      r := ExpectEnd(lines);
    }
  }

  method ParseLines(lines: Lines, strict: bool, out: Recorder) returns (r: Result<()>)
    requires Stands(lines, lines.ahead)
    modifies lines, lines.scanner, out
    ensures Spells(out, old(out.events), Root(old(lines.ahead), strict), r)
  {
    var peeked :- lines.Peek();
    if peeked.None? {
      ghost var before := out.events;
      out.Emit(StartObject(Position(1, 1)));
      out.Emit(EndObject(Position(1, 1)));
      assert out.events == before + ([StartObject(Position(1, 1))] + FieldEvents([]) + [EndObject(Position(1, 1))]);
      return Ok(());
    }
    var first := peeked.value;
    if first.depth != 0 { return Err(SyntaxAt(InvalidIndent, first.at)); }
    if first.content == EMPTY_ARRAY {
      var _ := lines.Advance();
      var _ := EmitInlineValue(first.content, first.at, out);
      r := ExpectEnd(lines);
      return;
    }
    var marks := ScanLineMarks(first.content);
    var outcome :- ParseHeader(first.content, marks, strict, first.at);
    r := ParseRootWith(outcome, first, marks, lines, strict, out);
  }

  method ParseRootWith(outcome: HeaderOutcome, first: Line, marks: LineMarks, lines: Lines, strict: bool, out: Recorder)
    returns (r: Result<()>)
    requires Stands(lines, lines.ahead) && lines.ahead.More? && lines.ahead.line == first && marks == Marks(first.content)
    requires outcome.HeaderLine? ==> IsDelimiter(outcome.header.delimiter)
    modifies lines, lines.scanner, out
    ensures Spells(out, old(out.events), RootWith(outcome, old(lines.ahead), strict), r)
  {
    match outcome
    case HeaderLine(header) =>
      if header.key.Some? {
        r := ParseRootObject(lines, first.at, strict, out);
      } else {
        var _ := lines.Advance();
        var _ :- ParseArrayOrKeyedBody(lines, header, 0, first.at, strict, out);
        r := ExpectEnd(lines);
      }
    case Malformed(code) =>
      if strict { return Err(SyntaxAt(code, first.at)); }
      r := ParsePlainRoot(first, marks, lines, strict, out);
    case NotHeader =>
      r := ParsePlainRoot(first, marks, lines, strict, out);
  }

  /** Parse a whole document: the same fault as `Document`, or exactly the events of its tree. */
  method Parse(input: bytes, strict: bool, indentSize: nat, out: Recorder) returns (r: Result<()>)
    requires indentSize > 0
    modifies out
    ensures Spells(out, old(out.events), Document(input, strict, indentSize), r)
  {
    if !Utf8.ValidUtf8(input) { return Err(Fault(InvalidUtf8, 1, None, false)); }
    var lines := new Lines(input, strict, indentSize);
    ScannedDepthIsBounded(input, 0, strict, indentSize, false);
    r := ParseLines(lines, strict, out);
  }
}
