/** What the parser makes of lines is a tree that stands on them (src/parser.rs). */
module OutlineTells {
  import opened Bytes
  import opened Faults
  import opened Tokens
  import opened Escapes
  import opened Cells
  import opened Scan
  import opened Header
  import opened Events
  import opened Grammar
  import opened Outline
  import opened OutlineReads
  import Utf8

  // ----- rows ---------------------------------------------------------------------------------------

  lemma {:induction false} NothingBefore(rest: LineStream)
    ensures Before([], rest) == rest
  {
  }

  lemma {:induction false} OneBefore(line: Line, ls: seq<Line>, rest: LineStream)
    ensures Before([line] + ls, rest) == More(line, Before(ls, rest))
  {
    assert ([line] + ls)[1..] == ls;
  }

  /** A row that is taken stands one level below, and in strict mode is declared and follows no blank line. */
  lemma {:induction false} TakenRow(stream: LineStream, depth: nat, strict: bool, declared: nat, index: nat)
    requires NextRow(stream, depth, strict, declared, index).Ok?
    ensures var r := NextRow(stream, depth, strict, declared, index).value;
            && (r.Some? ==> stream.More? && r.value == Parsed(stream.line, stream.rest) && stream.line.depth == depth + 1
                            && (strict ==> index < declared && (index > 0 ==> !stream.line.blankBefore)))
            && (r.None? && strict ==> index >= declared)
  {
  }

  /** No line at or behind a position follows a blank one, in strict mode. */
  predicate DenseFrom(ls: seq<Line>, strict: bool, index: nat) {
    strict ==> forall i :: 0 <= i < |ls| && index + i > 0 ==> !ls[i].blankBefore
  }

  lemma {:induction false} DenseCons(line: Line, ls: seq<Line>, strict: bool, index: nat)
    requires DenseFrom(ls, strict, index + 1) && (strict && index > 0 ==> !line.blankBefore)
    ensures DenseFrom([line] + ls, strict, index)
  {
  }

  lemma {:induction false} DenseAll(ls: seq<Line>, strict: bool)
    requires DenseFrom(ls, strict, 0)
    ensures Dense(ls, strict)
  {
  }

  lemma {:induction false} TableTold(stream: LineStream, header: Header, depth: nat, strict: bool, index: nat) returns (ls: seq<Line>)
    requires TableRows(stream, header, depth, strict, index).Ok? && (strict ==> index <= header.declared)
    ensures var r := TableRows(stream, header, depth, strict, index).value;
            && stream == Before(ls, r.rest) && RowsOn(r.value, header, ls, depth + 1) && DenseFrom(ls, strict, index)
            && (strict ==> index + |ls| == header.declared)
    decreases Size(stream)
  {
    TakenRow(stream, depth, strict, header.declared, index);
    hide NextRow, RowObject;
    var next := NextRow(stream, depth, strict, header.declared, index).value;
    if next.None? {
      ls := [];
    } else {
      var others := TableTold(stream.rest, header, depth, strict, index + 1);
      ls := [stream.line] + others;
      OneBefore(stream.line, others, TableRows(stream, header, depth, strict, index).value.rest);
      DenseCons(stream.line, others, strict, index);
    }
  }

  lemma {:induction false} KeyedTold(stream: LineStream, header: Header, depth: nat, strict: bool, index: nat, seen: set<bytes>) returns (ls: seq<Line>)
    requires KeyedRows(stream, header, depth, strict, index, seen).Ok? && (strict ==> index <= header.declared)
    ensures var r := KeyedRows(stream, header, depth, strict, index, seen).value;
            && stream == Before(ls, r.rest) && KeyedOn(r.value, header, ls, depth + 1, strict) && DenseFrom(ls, strict, index)
            && (strict ==> index + |ls| == header.declared) && Fresh(r.value, seen, strict)
    decreases Size(stream)
  {
    TakenRow(stream, depth, strict, header.declared, index);
    hide NextRow, RowObject, Fresh, EntryColon, StringTokenOf, Trim, DenseFrom;
    var next := NextRow(stream, depth, strict, header.declared, index).value;
    if next.None? {
      ls := [];
      NothingIsFresh(seen, strict, index);
    } else {
      var row := KeyedRow(header, stream.line, strict, seen).value;
      var others := KeyedTold(stream.rest, header, depth, strict, index + 1, NoteRow(seen, row, strict));
      var more := KeyedRows(stream.rest, header, depth, strict, index + 1, NoteRow(seen, row, strict)).value;
      ls := [stream.line] + others;
      OneBefore(stream.line, others, more.rest);
      DenseCons(stream.line, others, strict, index);
      assert KeyedRows(stream, header, depth, strict, index, seen) == Ok(Parsed(RowsOf(row) + more.value, more.rest));
      hide KeyedRows, KeyedRow, KeyedOn;
      KeyedRowTold(header, stream.line, row, more.value, others, depth + 1, strict, seen);
    }
  }

  lemma {:induction false} KeyedRowTold(
      header: Header, line: Line, row: Option<Field>, fields: seq<Field>, ls: seq<Line>, depth: nat, strict: bool, seen: set<bytes>)
    requires KeyedRow(header, line, strict, seen) == Ok(row) && line.depth == depth
    requires KeyedOn(fields, header, ls, depth, strict) && Fresh(fields, NoteRow(seen, row, strict), strict)
    ensures KeyedOn(RowsOf(row) + fields, header, [line] + ls, depth, strict) && Fresh(RowsOf(row) + fields, seen, strict)
  {
    hide RowObject, Fresh, EntryColon, StringTokenOf, Trim, TextOf;
    assert ([line] + ls)[1..] == ls;
    if row.Some? {
      FreshCons(row.value, fields, seen, strict);
      assert ([row.value] + fields)[1..] == fields;
    } else {
      assert [] + fields == fields;
    }
  }

  lemma {:induction false} NothingIsFresh(seen: set<bytes>, strict: bool, index: nat)
    ensures Fresh([], seen, strict) && DenseFrom([], strict, index)
  {
  }

  lemma {:induction false} ScalarsTold(cells: seq<bytes>, at: Position)
    requires InlineItems(cells, at).Ok?
    ensures ScalarsOn(InlineItems(cells, at).value, cells, at)
  {
    hide ValueToken;
    if cells != [] { ScalarsTold(cells[1..], at); }
  }

  // ----- the structure ------------------------------------------------------------------------------

  lemma {:induction false} HeadedTold(stream: LineStream, header: Header, depth: nat, at: Position, strict: bool) returns (ls: seq<Line>)
    requires ArrayOrKeyed(stream, header, depth, at, strict).Ok?
    ensures var r := ArrayOrKeyed(stream, header, depth, at, strict).value;
            stream == Before(ls, r.rest) && HeadedOn(r.value, header, at, ls, depth, strict)
    decreases Size(stream), 2
  {
    if header.keyed {
      ls := KeyedTold(stream, header, depth, strict, 0, {});
      DenseAll(ls, strict);
      hide KeyedRows, KeyedOn, Fresh, Before, Dense;
    } else {
      ls := ArrayTold(stream, header, depth, at, strict);
      hide ArrayBody, ArrayOn, Before;
    }
  }

  lemma {:induction false} ArrayTold(stream: LineStream, header: Header, depth: nat, at: Position, strict: bool) returns (ls: seq<Line>)
    requires ArrayBody(stream, header, depth, at, strict).Ok?
    ensures var r := ArrayBody(stream, header, depth, at, strict).value;
            stream == Before(ls, r.rest) && ArrayOn(r.value, header, at, ls, depth, strict)
    decreases Size(stream), 1
  {
    if header.fields != [] {
      ls := TableTold(stream, header, depth, strict, 0);
      DenseAll(ls, strict);
      TableIsAsLong(TableRows(stream, header, depth, strict, 0).value.value, header, ls, depth + 1);
      hide TableRows, RowsOn, Before, Dense;
    } else if header.inlineValues.Some? {
      var cells := SplitCells(header.inlineValues.value, header.delimiter);
      ls := [];
      ScalarsTold(cells, at);
      ScalarsAreAsMany(InlineItems(cells, at).value, cells, at);
      hide InlineItems, ScalarsOn, SplitCells;
    } else {
      ls := ListTold(stream, depth, strict, header.declared, 0);
      hide ListItems, ListOn, Before;
    }
  }

  lemma {:induction false} ListTold(stream: LineStream, depth: nat, strict: bool, declared: nat, index: nat) returns (ls: seq<Line>)
    requires ListItems(stream, depth, strict, declared, index).Ok? && (strict ==> index <= declared)
    ensures var r := ListItems(stream, depth, strict, declared, index).value;
            && stream == Before(ls, r.rest) && ListOn(r.value, ls, depth, strict, index == 0) && (strict ==> index + |r.value| == declared)
    decreases Size(stream), 0
  {
    TakenRow(stream, depth, strict, declared, index);
    hide NextRow, ListItem;
    var next := NextRow(stream, depth, strict, declared, index).value;
    if next.None? {
      ls := [];
    } else {
      var first := ListItem(stream.line.content, stream.line.at, stream.rest, depth, strict).value;
      var own := ItemTold(stream.line.content, stream.line.at, stream.rest, depth, strict);
      var others := ListTold(first.rest, depth, strict, declared, index + 1);
      var r := ListItems(stream, depth, strict, declared, index).value;
      ls := [stream.line] + own + others;
      Together(stream.line, own, others, r.rest);
      assert r.value[0] == first.value && r.value[1..] == ListItems(first.rest, depth, strict, declared, index + 1).value.value;
      hide ItemOn, Before, ListItems;
      assert ls[1..1 + |own|] == own && ls[1 + |own|..] == others;
    }
  }

  /** A line, its own lines, and the others. */
  lemma {:induction false} Together(line: Line, own: seq<Line>, others: seq<Line>, rest: LineStream)
    ensures Before([line] + own + others, rest) == More(line, Before(own, Before(others, rest)))
  {
    BeforeConcat(own, others, rest);
    OneBefore(line, own + others, rest);
    assert [line] + own + others == [line] + (own + others);
  }

  lemma {:induction false} ItemTold(content: bytes, at: Position, stream: LineStream, depth: nat, strict: bool) returns (ls: seq<Line>)
    requires ListItem(content, at, stream, depth, strict).Ok?
    ensures var r := ListItem(content, at, stream, depth, strict).value;
            stream == Before(ls, r.rest) && ItemOn(r.value, content, at, ls, depth, strict)
    decreases Size(stream), 6
  {
    hide DashedItem, DashedOn;
    if content == [45] {
      ls := [];
    } else {
      DashIs(content);
      ls := DashedTold(content[2..], Position(at.line, at.column + 2), stream, depth, strict);
      hide Before;
    }
  }

  lemma {:induction false} DashIs(content: bytes)
    ensures StartsWith(content, DASH) <==> |content| >= 2 && content[..2] == [45, 32]
  {
  }

  lemma {:induction false} DashedTold(item: bytes, at: Position, stream: LineStream, depth: nat, strict: bool) returns (ls: seq<Line>)
    requires DashedItem(item, at, stream, depth, strict).Ok?
    ensures var r := DashedItem(item, at, stream, depth, strict).value;
            stream == Before(ls, r.rest) && DashedOn(r.value, item, at, ls, depth, strict)
    decreases Size(stream), 5
  {
    hide HeaderOf, EntryColon, ValueToken, ArrayBody, ArrayOn, EntryOn, FieldsOn, Fresh, ObjectItem, KeyValue, HeaderEntry;
    if item == [91, 93] {
      ls := [];
    } else {
      var outcome := HeaderOf(item, strict, at).value;
      DashedGoesOn(item, outcome, at, stream, depth, strict);
      if outcome.HeaderLine? && outcome.header.key.None? {
        ls := ArrayTold(stream, outcome.header, depth + 1, at, strict);
      } else if outcome.HeaderLine? || EntryColon(item).Some? {
        ls := ObjectItemTold(item, outcome, at, stream, depth, strict);
      } else {
        ls := [];
        assert DashedWith(outcome, item, at, stream, depth, strict) == PlainItem(item, at, stream, depth, strict);
      }
    }
  }

  lemma {:induction false} ObjectItemTold(item: bytes, outcome: HeaderOutcome, at: Position, stream: LineStream, depth: nat, strict: bool) returns (ls: seq<Line>)
    requires HeaderOf(item, strict, at) == Ok(outcome) && DashedWith(outcome, item, at, stream, depth, strict).Ok?
    requires (outcome.HeaderLine? && outcome.header.key.Some?) || (!outcome.HeaderLine? && EntryColon(item).Some?)
    ensures var r := DashedWith(outcome, item, at, stream, depth, strict).value;
            var tree := r.value;
            && stream == Before(ls, r.rest)
            && tree.Obj? && tree.kind == Repeated && tree.at == at && tree.fields != [] && Fresh(tree.fields, {}, strict)
            && exists n :: 0 <= n <= |ls| && EntryOn(tree.fields[0], item, at, ls[..n], depth + 2, strict)
                           && FieldsOn(tree.fields[1..], ls[n..], depth + 2, strict, true)
    decreases Size(stream), 4
  {
    DashedByEntry(item, outcome, at, stream, depth, strict);
    var first := Entry(item, at, stream, depth + 2, strict, {}).value;
    hide HeaderOf, EntryColon, EntryOn, FieldsOn, Fresh, Entry, ItemBody, DashedWith, TextOf;
    var own := EntryTold(item, at, stream, depth + 2, strict, {});
    var others := ItemBodyTold(first.rest, depth, strict, Note({}, first.value.key, strict));
    var body := ItemBody(first.rest, depth, strict, Note({}, first.value.key, strict)).value;
    ls := own + others;
    BeforeConcat(own, others, body.rest);
    FreshCons(first.value, body.value, {}, strict);
    var fields := [first.value] + body.value;
    assert fields[1..] == body.value && ls[..|own|] == own && ls[|own|..] == others;
  }

  lemma {:induction false} ItemBodyTold(stream: LineStream, depth: nat, strict: bool, seen: set<bytes>) returns (ls: seq<Line>)
    requires ItemBody(stream, depth, strict, seen).Ok?
    ensures var r := ItemBody(stream, depth, strict, seen).value;
            stream == Before(ls, r.rest) && FieldsOn(r.value, ls, depth + 2, strict, true) && Fresh(r.value, seen, strict)
    decreases Size(stream), 0
  {
    hide Entry, EntryOn, Fresh, TextOf;
    if stream.End? || stream.line.depth != depth + 2 {
      ls := [];
      NothingIsFresh(seen, strict, 0);
    } else {
      var first := LineEntry(stream.line, stream.rest, depth + 2, strict, seen).value;
      var own := EntryTold(stream.line.content, stream.line.at, stream.rest, depth + 2, strict, seen);
      var others := ItemBodyTold(first.rest, depth, strict, Note(seen, first.value.key, strict));
      var body := ItemBody(first.rest, depth, strict, Note(seen, first.value.key, strict)).value;
      ls := [stream.line] + own + others;
      Together(stream.line, own, others, body.rest);
      FreshCons(first.value, body.value, seen, strict);
      FieldsTogether(first.value, body.value, stream.line, own, others, depth + 2, strict, true);
      hide FieldsOn, Before;
    }
  }

  lemma {:induction false} FieldsTogether(
      first: Field, fields: seq<Field>, line: Line, own: seq<Line>, others: seq<Line>, depth: nat, strict: bool, dense: bool)
    requires line.depth == depth && (strict && dense ==> !line.blankBefore)
    requires EntryOn(first, line.content, line.at, own, depth, strict) && FieldsOn(fields, others, depth, strict, dense)
    ensures FieldsOn([first] + fields, [line] + own + others, depth, strict, dense)
  {
    hide EntryOn;
    var ls, all := [line] + own + others, [first] + fields;
    assert ls[1..1 + |own|] == own && ls[1 + |own|..] == others && all[1..] == fields;
  }

  lemma {:induction false} FieldsTold(stream: LineStream, depth: nat, strict: bool, seen: set<bytes>) returns (ls: seq<Line>)
    requires ObjectBody(stream, depth, strict, seen).Ok?
    ensures var r := ObjectBody(stream, depth, strict, seen).value;
            stream == Before(ls, r.rest) && FieldsOn(r.value, ls, depth, strict, false) && Fresh(r.value, seen, strict)
    decreases Size(stream), 0
  {
    hide Entry, EntryOn, Fresh, TextOf;
    if stream.End? || stream.line.depth < depth {
      ls := [];
      NothingIsFresh(seen, strict, 0);
    } else {
      var first := LineEntry(stream.line, stream.rest, depth, strict, seen).value;
      var own := EntryTold(stream.line.content, stream.line.at, stream.rest, depth, strict, seen);
      var others := FieldsTold(first.rest, depth, strict, Note(seen, first.value.key, strict));
      var body := ObjectBody(first.rest, depth, strict, Note(seen, first.value.key, strict)).value;
      ls := [stream.line] + own + others;
      Together(stream.line, own, others, body.rest);
      FreshCons(first.value, body.value, seen, strict);
      FieldsTogether(first.value, body.value, stream.line, own, others, depth, strict, false);
      hide FieldsOn, Before;
    }
  }

  lemma {:induction false} EntryTold(content: bytes, at: Position, stream: LineStream, depth: nat, strict: bool, seen: set<bytes>) returns (ls: seq<Line>)
    requires Entry(content, at, stream, depth, strict, seen).Ok?
    ensures var r := Entry(content, at, stream, depth, strict, seen).value;
            && stream == Before(ls, r.rest) && EntryOn(r.value, content, at, ls, depth, strict) && (strict ==> TextOf(r.value.key) !in seen)
    decreases Size(stream), 3
  {
    hide HeaderOf, EntryColon, StringTokenOf, Trim, HeadedOn, ObjectOn, ArrayOrKeyed, NestedObject, ValueToken, TextOf;
    var outcome := HeaderOf(content, strict, at).value;
    if outcome.HeaderLine? {
      assert Entry(content, at, stream, depth, strict, seen) == HeaderEntry(outcome.header, at, stream, depth, strict, seen);
      ls := HeadedTold(stream, outcome.header, depth, at, strict);
    } else {
      assert Entry(content, at, stream, depth, strict, seen) == KeyValue(content, at, stream, depth, strict, seen);
      var colon := EntryColon(content).value;
      if colon + 1 == |content| {
        ls := NestedTold(stream, depth, at, strict);
      } else {
        ls := [];
      }
    }
  }

  lemma {:induction false} NestedTold(stream: LineStream, depth: nat, at: Position, strict: bool) returns (ls: seq<Line>)
    requires NestedObject(stream, depth, at, strict).Ok?
    ensures var r := NestedObject(stream, depth, at, strict).value;
            stream == Before(ls, r.rest) && ObjectOn(r.value, at, ls, depth + 1, strict)
    decreases Size(stream), 1
  {
    if stream.More? && stream.line.depth > depth {
      ls := FieldsTold(stream, depth + 1, strict, {});
      hide FieldsOn, ObjectBody, Fresh;
    } else {
      ls := [];
      NothingIsFresh({}, strict, 0);
    }
  }

  /** What a document means stands on all of its lines. */
  lemma {:induction false} DocumentTold(stream: LineStream, strict: bool) returns (ls: seq<Line>, last: nat)
    requires Root(stream, strict).Ok?
    ensures stream == Before(ls, End(last)) && DocumentOn(Root(stream, strict).value, ls, strict)
  {
    hide HeaderOf, EntryColon, ValueToken, HeadedOn, ObjectOn, ArrayOrKeyed, ObjectBody;
    ls, last := [], 0;
    if stream.End? {
      last := stream.lastLine;
    } else {
      var content, at := stream.line.content, stream.line.at;
      var own: seq<Line> := [];
      if content == [91, 93] {
        last := stream.rest.lastLine;
      } else {
        var outcome := HeaderOf(content, strict, at).value;
        if outcome.HeaderLine? && outcome.header.key.None? {
          own := HeadedTold(stream.rest, outcome.header, 0, at, strict);
          last := ArrayOrKeyed(stream.rest, outcome.header, 0, at, strict).value.rest.lastLine;
        } else if outcome.HeaderLine? || EntryColon(content).Some? {
          ls := RootObjectTold(stream, at, strict);
          last := ObjectBody(stream, 0, strict, {}).value.rest.lastLine;
          return;
        } else {
          last := stream.rest.lastLine;
        }
      }
      ls := [stream.line] + own;
      OneBefore(stream.line, own, End(last));
      assert ls[1..] == own;
    }
  }

  lemma {:induction false} RootObjectTold(stream: LineStream, at: Position, strict: bool) returns (ls: seq<Line>)
    requires stream.More? && RootObject(stream, at, strict).Ok?
    ensures var body := ObjectBody(stream, 0, strict, {}).value;
            && body.rest.End? && stream == Before(ls, body.rest) && ls != [] && ls[0] == stream.line
            && ObjectOn(RootObject(stream, at, strict).value, at, ls, 0, strict)
  {
    ls := FieldsTold(stream, 0, strict, {});
    hide FieldsOn, ObjectBody, Fresh;
  }

  /** A document means a tree exactly when the tree stands on its lines: in either mode, nothing else decides what is
      accepted and as what. */
  lemma {:induction false} DocumentMeans(input: bytes, strict: bool, indentSize: nat, tree: Tree)
    requires indentSize > 0
    ensures Document(input, strict, indentSize) == Ok(tree) <==>
            Utf8.ValidUtf8(input) && exists ls, last :: LinesOf(input, 0, strict, indentSize, false) == Before(ls, End(last)) && DocumentOn(tree, ls, strict)
  {
    hide Root, DocumentOn, Before, LinesOf, Utf8.ValidUtf8;
    var stream := LinesOf(input, 0, strict, indentSize, false);
    if Document(input, strict, indentSize) == Ok(tree) {
      var ls, last := DocumentTold(stream, strict);
      assert stream == Before(ls, End(last)) && DocumentOn(tree, ls, strict);
    }
    if Utf8.ValidUtf8(input) && exists ls, last :: stream == Before(ls, End(last)) && DocumentOn(tree, ls, strict) {
      var ls, last :| stream == Before(ls, End(last)) && DocumentOn(tree, ls, strict);
      DocumentRead(tree, ls, last, strict);
    }
  }
}
