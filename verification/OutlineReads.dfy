/** A tree that stands on lines is what the parser makes of them (src/parser.rs). */
module OutlineReads {
  import opened Bytes
  import opened Faults
  import opened Tokens
  import opened Escapes
  import opened Cells
  import opened Scan
  import opened Header
  import opened Events
  import opened Grammar
  import opened Outline

  // ----- rows ---------------------------------------------------------------------------------------

  lemma {:induction false} DenseTail(ls: seq<Line>, strict: bool)
    requires ls != [] && Dense(ls, strict)
    ensures Dense(ls[1..], strict) && (strict && |ls| > 1 ==> !ls[1].blankBefore)
  {
    assert forall i :: 0 <= i < |ls| - 1 ==> ls[1..][i] == ls[i + 1];
  }

  /** The next row is taken where there is one. */
  lemma {:induction false} RowIsNext(ls: seq<Line>, rest: LineStream, depth: nat, strict: bool, declared: nat, index: nat)
    requires ls != [] && ls[0].depth == depth + 1 && (strict ==> index < declared && (index > 0 ==> !ls[0].blankBefore))
    ensures NextRow(Before(ls, rest), depth, strict, declared, index) == Ok(Some(Parsed(ls[0], Before(ls[1..], rest))))
  {
  }

  lemma {:induction false} NoRowIsNext(rest: LineStream, depth: nat, strict: bool, declared: nat, index: nat)
    requires Closed(rest, depth) && (strict ==> index == declared)
    ensures NextRow(rest, depth, strict, declared, index) == Ok(None)
  {
  }

  lemma {:induction false} TableRead(
      rows: seq<Tree>, header: Header, ls: seq<Line>, rest: LineStream, depth: nat, strict: bool, index: nat)
    requires RowsOn(rows, header, ls, depth + 1) && Dense(ls, strict) && Closed(rest, depth)
    requires strict ==> index + |ls| == header.declared && (index > 0 && ls != [] ==> !ls[0].blankBefore)
    ensures TableRows(Before(ls, rest), header, depth, strict, index) == Ok(Parsed(rows, rest))
    decreases |ls|
  {
    hide RowObject;
    if ls == [] {
      NoRowIsNext(rest, depth, strict, header.declared, index);
      assert rows == [];
    } else {
      RowIsNext(ls, rest, depth, strict, header.declared, index);
      DenseTail(ls, strict);
      assert forall i :: 0 <= i < |ls| - 1 ==> ls[1..][i] == ls[i + 1] && rows[1..][i] == rows[i + 1];
      hide NextRow, Before;
      TableRead(rows[1..], header, ls[1..], rest, depth, strict, index + 1);
      assert [rows[0]] + rows[1..] == rows;
    }
  }

  lemma {:induction false} KeyedRead(
      fields: seq<Field>, header: Header, ls: seq<Line>, rest: LineStream, depth: nat, strict: bool, index: nat, seen: set<bytes>)
    requires KeyedOn(fields, header, ls, depth + 1, strict) && Dense(ls, strict) && Closed(rest, depth) && Fresh(fields, seen, strict)
    requires strict ==> index + |ls| == header.declared && (index > 0 && ls != [] ==> !ls[0].blankBefore)
    ensures KeyedRows(Before(ls, rest), header, depth, strict, index, seen) == Ok(Parsed(fields, rest))
    decreases |ls|
  {
    hide RowObject, Fresh, StringTokenOf, Trim, EntryColon;
    if ls == [] {
      NoRowIsNext(rest, depth, strict, header.declared, index);
    } else {
      RowIsNext(ls, rest, depth, strict, header.declared, index);
      DenseTail(ls, strict);
      hide NextRow, Before, Dense;
      if EntryColon(ls[0].content).None? {
        KeyedRead(fields, header, ls[1..], rest, depth, strict, index + 1, seen);
        assert [] + fields == fields;
      } else {
        assert [fields[0]] + fields[1..] == fields;
        FreshCons(fields[0], fields[1..], seen, strict);
        KeyedRead(fields[1..], header, ls[1..], rest, depth, strict, index + 1, Note(seen, fields[0].key, strict));
        assert KeyedRow(header, ls[0], strict, seen) == Ok(Some(fields[0]));
      }
    }
  }

  lemma {:induction false} ScalarsRead(items: seq<Tree>, cells: seq<bytes>, at: Position)
    requires ScalarsOn(items, cells, at)
    ensures InlineItems(cells, at) == Ok(items)
    decreases |cells|
  {
    hide ValueToken;
    if cells != [] {
      assert forall i :: 0 <= i < |cells| - 1 ==> cells[1..][i] == cells[i + 1] && items[1..][i] == items[i + 1];
      ScalarsRead(items[1..], cells[1..], at);
      assert [items[0]] + items[1..] == items;
    } else {
      assert items == [];
    }
  }

  // ----- the structure ------------------------------------------------------------------------------

  lemma {:induction false} HeadedRead(tree: Tree, header: Header, at: Position, ls: seq<Line>, rest: LineStream, depth: nat, strict: bool)
    requires HeadedOn(tree, header, at, ls, depth, strict) && Closed(rest, depth)
    ensures ArrayOrKeyed(Before(ls, rest), header, depth, at, strict) == Ok(Parsed(tree, rest))
    decreases tree, 2
  {
    if header.keyed {
      hide KeyedOn, KeyedRows, Before, Closed, Fresh;
      KeyedRead(tree.fields, header, ls, rest, depth, strict, 0, {});
    } else {
      hide ArrayBody, ArrayOn, Before, Closed;
      ArrayRead(tree, header, at, ls, rest, depth, strict);
    }
  }

  lemma {:induction false} ArrayRead(tree: Tree, header: Header, at: Position, ls: seq<Line>, rest: LineStream, depth: nat, strict: bool)
    requires ArrayOn(tree, header, at, ls, depth, strict) && Closed(rest, depth)
    ensures ArrayBody(Before(ls, rest), header, depth, at, strict) == Ok(Parsed(tree, rest))
    decreases tree, 1
  {
    hide TableRows, ListItems, InlineItems, SplitCells, RowsOn, ScalarsOn, ListOn, Closed, Dense;
    if header.fields != [] {
      TableIsAsLong(tree.items, header, ls, depth + 1);
      TableRead(tree.items, header, ls, rest, depth, strict, 0);
    } else if header.inlineValues.Some? {
      var cells := SplitCells(header.inlineValues.value, header.delimiter);
      ScalarsAreAsMany(tree.items, cells, at);
      ScalarsRead(tree.items, cells, at);
    } else {
      ListRead(tree.items, ls, rest, depth, strict, header.declared, 0);
    }
  }

  lemma {:induction false} TableIsAsLong(rows: seq<Tree>, header: Header, ls: seq<Line>, depth: nat)
    requires RowsOn(rows, header, ls, depth)
    ensures |rows| == |ls|
  {
  }

  lemma {:induction false} ScalarsAreAsMany(items: seq<Tree>, cells: seq<bytes>, at: Position)
    requires ScalarsOn(items, cells, at)
    ensures |items| == |cells|
  {
  }

  lemma {:induction false} ListStarts(items: seq<Tree>, ls: seq<Line>, depth: nat, strict: bool, first: bool)
    requires ListOn(items, ls, depth, strict, first)
    ensures Starts(ls, depth + 1)
  {
  }

  lemma {:induction false} FieldsStart(fields: seq<Field>, ls: seq<Line>, depth: nat, strict: bool, dense: bool)
    requires FieldsOn(fields, ls, depth, strict, dense)
    ensures Starts(ls, depth)
  {
  }

  /** The first line, the lines that belong to it, and the others. */
  lemma {:induction false} FirstApart(ls: seq<Line>, n: nat, rest: LineStream)
    requires 1 <= n <= |ls|
    ensures Before(ls, rest) == More(ls[0], Before(ls[1..n], Before(ls[n..], rest)))
    ensures Before(ls[1..], rest) == Before(ls[1..n], Before(ls[n..], rest))
  {
    assert ls[1..] == ls[1..n] + ls[n..];
    BeforeConcat(ls[1..n], ls[n..], rest);
  }

  lemma {:induction false} ListRead(items: seq<Tree>, ls: seq<Line>, rest: LineStream, depth: nat, strict: bool, declared: nat, index: nat)
    requires ListOn(items, ls, depth, strict, index == 0) && Closed(rest, depth) && (strict ==> index + |items| == declared)
    ensures ListItems(Before(ls, rest), depth, strict, declared, index) == Ok(Parsed(items, rest))
    decreases items, 0
  {
    hide *;
    if items == [] {
      NoItemOn(ls, rest, depth, strict, index == 0);
      NoRowIsNext(rest, depth, strict, declared, index);
      ListEnds(rest, depth, strict, declared, index);
    } else {
      var n := FirstItemOn(items, ls, depth, strict, index == 0);
      var behind := Before(ls[n..], rest);
      RowIsNext(ls, rest, depth, strict, declared, index);
      FirstApart(ls, n, rest);
      ListStarts(items[1..], ls[n..], depth, strict, false);
      ClosedDeeper(rest, depth);
      StillClosed(ls[n..], rest, depth + 1, depth);
      ItemRead(items[0], ls[0].content, ls[0].at, ls[1..n], behind, depth, strict);
      ListRead(items[1..], ls[n..], rest, depth, strict, declared, index + 1);
      ListContinues(ls[0], Before(ls, rest), Before(ls[1..], rest), behind, depth, strict, declared, index, items[0], items[1..], rest);
      assert [items[0]] + items[1..] == items;
    }
  }

  lemma {:induction false} NoItemOn(ls: seq<Line>, tail: LineStream, depth: nat, strict: bool, first: bool)
    requires ListOn([], ls, depth, strict, first)
    ensures Before(ls, tail) == tail
  {
  }

  lemma {:induction false} FirstItemOn(items: seq<Tree>, ls: seq<Line>, depth: nat, strict: bool, first: bool) returns (n: nat)
    requires items != [] && ListOn(items, ls, depth, strict, first)
    ensures 1 <= n <= |ls| && ItemOn(items[0], ls[0].content, ls[0].at, ls[1..n], depth, strict) && ListOn(items[1..], ls[n..], depth, strict, false)
    ensures ls[0].depth == depth + 1 && (strict && !first ==> !ls[0].blankBefore)
  {
    n :| 1 <= n <= |ls| && ItemOn(items[0], ls[0].content, ls[0].at, ls[1..n], depth, strict) && ListOn(items[1..], ls[n..], depth, strict, false);
  }

  lemma {:induction false} ListEnds(rest: LineStream, depth: nat, strict: bool, declared: nat, index: nat)
    requires NextRow(rest, depth, strict, declared, index) == Ok(None)
    ensures ListItems(rest, depth, strict, declared, index) == Ok(Parsed([], rest))
  {
  }

  lemma {:induction false} ListContinues(
      line: Line, stream: LineStream, more: LineStream, behind: LineStream, depth: nat, strict: bool, declared: nat, index: nat,
      item: Tree, items: seq<Tree>, rest: LineStream)
    requires NextRow(stream, depth, strict, declared, index) == Ok(Some(Parsed(line, more)))
    requires ListItem(line.content, line.at, more, depth, strict) == Ok(Parsed(item, behind))
    requires ListItems(behind, depth, strict, declared, index + 1) == Ok(Parsed(items, rest))
    ensures ListItems(stream, depth, strict, declared, index) == Ok(Parsed([item] + items, rest))
  {
    hide NextRow, ListItem;
  }

  lemma {:induction false} ClosedDeeper(rest: LineStream, depth: nat)
    requires Closed(rest, depth)
    ensures Closed(rest, depth + 1)
  {
  }

  lemma {:induction false} ItemRead(tree: Tree, content: bytes, at: Position, ls: seq<Line>, rest: LineStream, depth: nat, strict: bool)
    requires ItemOn(tree, content, at, ls, depth, strict) && Closed(rest, depth + 1)
    ensures ListItem(content, at, Before(ls, rest), depth, strict) == Ok(Parsed(tree, rest))
    decreases tree, 4
  {
    hide DashedItem, DashedOn, Closed;
    if content != [45] {
      DashedRead(tree, content[2..], Position(at.line, at.column + 2), ls, rest, depth, strict);
    }
  }

  lemma {:induction false} DashedRead(tree: Tree, item: bytes, at: Position, ls: seq<Line>, rest: LineStream, depth: nat, strict: bool)
    requires DashedOn(tree, item, at, ls, depth, strict) && Closed(rest, depth + 1)
    ensures DashedItem(item, at, Before(ls, rest), depth, strict) == Ok(Parsed(tree, rest))
    decreases tree, 3
  {
    hide HeaderOf, EntryColon, ValueToken, ArrayBody, ArrayOn, Closed, EntryOn, FieldsOn, Fresh, ObjectItem;
    if item != [91, 93] {
      var outcome := HeaderOf(item, strict, at).value;
      if outcome.HeaderLine? && outcome.header.key.None? {
        ArrayRead(tree, outcome.header, at, ls, rest, depth + 1, strict);
      } else if outcome.HeaderLine? || EntryColon(item).Some? {
        DashedGoesOn(item, outcome, at, Before(ls, rest), depth, strict);
        ObjectItemRead(tree, item, outcome, at, ls, rest, depth, strict);
      } else {
        DashedGoesOn(item, outcome, at, rest, depth, strict);
        assert DashedWith(outcome, item, at, rest, depth, strict) == PlainItem(item, at, rest, depth, strict);
      }
    }
  }

  lemma {:induction false} DashedGoesOn(item: bytes, outcome: HeaderOutcome, at: Position, stream: LineStream, depth: nat, strict: bool)
    requires item != [91, 93] && HeaderOf(item, strict, at) == Ok(outcome)
    ensures DashedItem(item, at, stream, depth, strict) == DashedWith(outcome, item, at, stream, depth, strict)
  {
    hide HeaderOf, DashedWith;
  }

  lemma {:induction false} ObjectItemRead(
      tree: Tree, item: bytes, outcome: HeaderOutcome, at: Position, ls: seq<Line>, rest: LineStream, depth: nat, strict: bool)
    requires HeaderOf(item, strict, at) == Ok(outcome) && Closed(rest, depth + 1)
    requires (outcome.HeaderLine? && outcome.header.key.Some?) || (!outcome.HeaderLine? && EntryColon(item).Some?)
    requires tree.Obj? && tree.kind == Repeated && tree.at == at && tree.fields != [] && Fresh(tree.fields, {}, strict)
    requires exists n :: 0 <= n <= |ls| && EntryOn(tree.fields[0], item, at, ls[..n], depth + 2, strict)
                         && FieldsOn(tree.fields[1..], ls[n..], depth + 2, strict, true)
    ensures DashedWith(outcome, item, at, Before(ls, rest), depth, strict) == Ok(Parsed(tree, rest))
    decreases tree, 2
  {
    var n :| 0 <= n <= |ls| && EntryOn(tree.fields[0], item, at, ls[..n], depth + 2, strict) && FieldsOn(tree.fields[1..], ls[n..], depth + 2, strict, true);
    hide HeaderOf, EntryColon, Closed, EntryOn, FieldsOn, Fresh, Before, Entry, ItemBody, DashedWith;
    assert ls == ls[..n] + ls[n..];
    BeforeConcat(ls[..n], ls[n..], rest);
    FieldsStart(tree.fields[1..], ls[n..], depth + 2, strict, true);
    ClosedDeeper(rest, depth + 1);
    StillClosed(ls[n..], rest, depth + 2, depth + 1);
    assert tree.fields == [tree.fields[0]] + tree.fields[1..];
    FreshCons(tree.fields[0], tree.fields[1..], {}, strict);
    EntryRead(tree.fields[0], item, at, ls[..n], Before(ls[n..], rest), depth + 2, strict, {});
    ItemBodyRead(tree.fields[1..], ls[n..], rest, depth, strict, Note({}, tree.fields[0].key, strict));
    DashedByEntry(item, outcome, at, Before(ls, rest), depth, strict);
  }

  /** An object behind a dash is its first entry, and then the others. */
  lemma {:induction false} DashedByEntry(item: bytes, outcome: HeaderOutcome, at: Position, stream: LineStream, depth: nat, strict: bool)
    requires HeaderOf(item, strict, at) == Ok(outcome)
    requires (outcome.HeaderLine? && outcome.header.key.Some?) || (!outcome.HeaderLine? && EntryColon(item).Some?)
    ensures var first := Entry(item, at, stream, depth + 2, strict, {});
            first.Ok? ==> DashedWith(outcome, item, at, stream, depth, strict) == ObjectItem(first.value, at, depth, strict)
    ensures Entry(item, at, stream, depth + 2, strict, {}).Err? ==> DashedWith(outcome, item, at, stream, depth, strict).Err?
  {
    hide HeaderOf, EntryColon, ObjectItem, KeyValue;
    if outcome.HeaderLine? {
      assert Entry(item, at, stream, depth + 2, strict, {}) == HeaderEntry(outcome.header, at, stream, depth + 2, strict, {});
    } else if outcome.Malformed? && strict {
      assert Entry(item, at, stream, depth + 2, strict, {}).Err?;
    } else {
      assert Entry(item, at, stream, depth + 2, strict, {}) == KeyValue(item, at, stream, depth + 2, strict, {});
    }
  }

  lemma {:induction false} ItemBodyRead(fields: seq<Field>, ls: seq<Line>, rest: LineStream, depth: nat, strict: bool, seen: set<bytes>)
    requires FieldsOn(fields, ls, depth + 2, strict, true) && Closed(rest, depth + 1) && Fresh(fields, seen, strict)
    ensures ItemBody(Before(ls, rest), depth, strict, seen) == Ok(Parsed(fields, rest))
    decreases fields, 0
  {
    hide Entry;
    if fields == [] {
      assert Closed(rest, depth + 1);
    } else {
      var n :| 1 <= n <= |ls| && EntryOn(fields[0], ls[0].content, ls[0].at, ls[1..n], depth + 2, strict) && FieldsOn(fields[1..], ls[n..], depth + 2, strict, true);
      FirstApart(ls, n, rest);
      assert fields == [fields[0]] + fields[1..];
      FreshCons(fields[0], fields[1..], seen, strict);
      hide EntryOn, FieldsOn, Fresh, Before, Closed;
      FieldsStart(fields[1..], ls[n..], depth + 2, strict, true);
      ClosedDeeper(rest, depth + 1);
      StillClosed(ls[n..], rest, depth + 2, depth + 1);
      EntryRead(fields[0], ls[0].content, ls[0].at, ls[1..n], Before(ls[n..], rest), depth + 2, strict, seen);
      ItemBodyRead(fields[1..], ls[n..], rest, depth, strict, Note(seen, fields[0].key, strict));
    }
  }

  lemma {:induction false} FieldsRead(fields: seq<Field>, ls: seq<Line>, rest: LineStream, depth: nat, strict: bool, seen: set<bytes>)
    requires FieldsOn(fields, ls, depth, strict, false) && Fresh(fields, seen, strict)
    requires rest.End? || (rest.More? && rest.line.depth < depth)
    ensures ObjectBody(Before(ls, rest), depth, strict, seen) == Ok(Parsed(fields, rest))
    decreases fields, 0
  {
    hide Entry;
    if fields != [] {
      var n :| 1 <= n <= |ls| && EntryOn(fields[0], ls[0].content, ls[0].at, ls[1..n], depth, strict) && FieldsOn(fields[1..], ls[n..], depth, strict, false);
      FirstApart(ls, n, rest);
      assert fields == [fields[0]] + fields[1..];
      FreshCons(fields[0], fields[1..], seen, strict);
      FieldsStart(fields[1..], ls[n..], depth, strict, false);
      assert Closed(rest, depth);
      hide EntryOn, FieldsOn, Fresh, Before;
      StillClosed(ls[n..], rest, depth, depth);
      EntryRead(fields[0], ls[0].content, ls[0].at, ls[1..n], Before(ls[n..], rest), depth, strict, seen);
      FieldsRead(fields[1..], ls[n..], rest, depth, strict, Note(seen, fields[0].key, strict));
    }
  }

  lemma {:induction false} EntryRead(field: Field, content: bytes, at: Position, ls: seq<Line>, rest: LineStream, depth: nat, strict: bool, seen: set<bytes>)
    requires EntryOn(field, content, at, ls, depth, strict) && Closed(rest, depth) && (strict ==> TextOf(field.key) !in seen)
    ensures Entry(content, at, Before(ls, rest), depth, strict, seen) == Ok(Parsed(field, rest))
    decreases field, 1
  {
    hide HeaderOf, EntryColon, StringTokenOf, Trim, HeadedOn, ObjectOn, ArrayOrKeyed, NestedObject, ValueToken, TextOf;
    var outcome := HeaderOf(content, strict, at).value;
    if outcome.HeaderLine? {
      HeadedRead(field.value, outcome.header, at, ls, rest, depth, strict);
      assert Entry(content, at, Before(ls, rest), depth, strict, seen) == HeaderEntry(outcome.header, at, Before(ls, rest), depth, strict, seen);
    } else {
      assert Entry(content, at, Before(ls, rest), depth, strict, seen) == KeyValue(content, at, Before(ls, rest), depth, strict, seen);
      var colon := EntryColon(content).value;
      if colon + 1 == |content| {
        NestedRead(field.value, at, ls, rest, depth, strict);
      }
    }
  }

  lemma {:induction false} NestedRead(tree: Tree, at: Position, ls: seq<Line>, rest: LineStream, depth: nat, strict: bool)
    requires ObjectOn(tree, at, ls, depth + 1, strict) && Closed(rest, depth)
    ensures NestedObject(Before(ls, rest), depth, at, strict) == Ok(Parsed(tree, rest))
    decreases tree, 1
  {
    FieldsStart(tree.fields, ls, depth + 1, strict, false);
    if ls == [] {
      assert tree.fields == [];
    } else {
      assert Closed(rest, depth);
      FieldsRead(tree.fields, ls, rest, depth + 1, strict, {});
      hide FieldsOn, Fresh, ObjectBody;
    }
  }

  /** A tree that stands on the document's lines is the document's. */
  lemma {:induction false} DocumentRead(tree: Tree, ls: seq<Line>, last: nat, strict: bool)
    requires DocumentOn(tree, ls, strict)
    ensures Root(Before(ls, End(last)), strict) == Ok(tree)
  {
    hide HeaderOf, EntryColon, ValueToken, HeadedOn, ObjectOn, ArrayOrKeyed, ObjectBody;
    if ls != [] && ls[0].content != [91, 93] {
      var outcome := HeaderOf(ls[0].content, strict, ls[0].at).value;
      if outcome.HeaderLine? && outcome.header.key.None? {
        HeadedRead(tree, outcome.header, ls[0].at, ls[1..], End(last), 0, strict);
      } else if outcome.HeaderLine? || EntryColon(ls[0].content).Some? {
        RootObjectRead(tree, ls[0].at, ls, End(last), strict);
      } else {
        assert Before(ls[1..], End(last)) == End(last);
      }
    }
  }

  lemma {:induction false} RootObjectRead(tree: Tree, at: Position, ls: seq<Line>, rest: LineStream, strict: bool)
    requires ObjectOn(tree, at, ls, 0, strict) && rest.End?
    ensures RootObject(Before(ls, rest), at, strict) == Ok(tree)
  {
    FieldsRead(tree.fields, ls, rest, 0, strict, {});
    hide FieldsOn, Fresh, ObjectBody;
  }
}
