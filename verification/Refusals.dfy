/** What a document is refused for, and where: the fault of the first line that does not fit (src/parser.rs). */
module Refusals {
  import opened Bytes
  import opened Faults
  import opened Tokens
  import opened Escapes
  import opened Cells
  import opened Scan
  import opened Header
  import opened Events
  import opened Grammar
  import opened Outline
  import opened OutlineReads
  import opened OutlineTells
  import Utf8

  function At(code: FaultCode, line: Line): Fault {
    Fault(code, line.at.line, Some(line.at.column), false)
  }

  // ----- rows -----------------------------------------------------------------------------------------

  /** What is wrong with the line where the next row of an array at `depth` would stand, if anything: in strict mode a
      line below the array once all rows are there, no line in its place before that, or a blank one in between; in
      either mode whatever the scanner met. */
  function RowFault(tail: LineStream, depth: nat, strict: bool, declared: nat, index: nat): Option<Fault> {
    match tail
    case Broken(fault) => Some(fault)
    case End(last) => if strict && index < declared then Some(Fault(WrongArrayLength, last, None, false)) else None
    case More(line, _) =>
      if !strict then None
      else if index >= declared then (if line.depth > depth then Some(At(WrongArrayLength, line)) else None)
      else if line.depth != depth + 1 then Some(At(WrongArrayLength, line))
      else if line.blankBefore && index > 0 then Some(At(BlankLineInArray, line))
      else None
  }

  lemma {:induction false} RowFaultIs(tail: LineStream, depth: nat, strict: bool, declared: nat, index: nat)
    ensures RowFault(tail, depth, strict, declared, index).Some? ==>
              NextRow(tail, depth, strict, declared, index) == Err(RowFault(tail, depth, strict, declared, index).value)
    ensures RowFault(tail, depth, strict, declared, index).None? ==> NextRow(tail, depth, strict, declared, index).Ok?
  {
  }

  function Joined<T>(done: seq<T>, r: Result<Parsed<seq<T>>>): Result<Parsed<seq<T>>> {
    match r
    case Err(fault) => Err(fault)
    case Ok(p) => Ok(Parsed(done + p.value, p.rest))
  }

  lemma {:induction false} JoinedTwice<T>(a: seq<T>, b: seq<T>, r: Result<Parsed<seq<T>>>)
    ensures Joined(a, Joined(b, r)) == Joined(a + b, r) && Joined([], r) == r
  {
    if r.Ok? {
      assert a + (b + r.value.value) == (a + b) + r.value.value;
      assert [] + r.value.value == r.value.value;
    }
  }

  lemma {:induction false} FirstAndOthers<T>(s: seq<T>)
    requires s != []
    ensures [s[0]] + s[1..] == s
  {
  }

  /** Good rows first: the table is what the lines behind them make it. */
  lemma {:induction false} TableGoesOn(
      rows: seq<Tree>, header: Header, ls: seq<Line>, tail: LineStream, depth: nat, strict: bool, index: nat)
    requires RowsOn(rows, header, ls, depth + 1) && DenseFrom(ls, strict, index) && (strict ==> index + |ls| <= header.declared)
    ensures TableRows(Before(ls, tail), header, depth, strict, index) == Joined(rows, TableRows(tail, header, depth, strict, index + |ls|))
    decreases |ls|
  {
    hide RowObject, Joined;
    var r := TableRows(tail, header, depth, strict, index + |ls|);
    if ls == [] {
      JoinedTwice([], [], r);
      assert rows == [];
    } else {
      RowIsNext(ls, tail, depth, strict, header.declared, index);
      assert forall i :: 0 <= i < |ls| - 1 ==> ls[1..][i] == ls[i + 1] && rows[1..][i] == rows[i + 1];
      hide NextRow, Before;
      TableGoesOn(rows[1..], header, ls[1..], tail, depth, strict, index + 1);
      TableStep(header, ls[0], Before(ls, tail), Before(ls[1..], tail), depth, strict, index, rows[0]);
      JoinedTwice([rows[0]], rows[1..], r);
      FirstAndOthers(rows);
    }
  }

  lemma {:induction false} TableStep(header: Header, line: Line, stream: LineStream, more: LineStream, depth: nat, strict: bool, index: nat, row: Tree)
    requires NextRow(stream, depth, strict, header.declared, index) == Ok(Some(Parsed(line, more))) && RowObject(header, line.content, line.at) == Ok(row)
    ensures TableRows(stream, header, depth, strict, index) == Joined([row], TableRows(more, header, depth, strict, index + 1))
  {
    hide NextRow, RowObject;
  }

  /** A table stops at the line that is no row of it. */
  lemma {:induction false} TableStops(rows: seq<Tree>, header: Header, ls: seq<Line>, tail: LineStream, depth: nat, at: Position, strict: bool)
    requires !header.keyed && header.fields != []
    requires RowsOn(rows, header, ls, depth + 1) && Dense(ls, strict) && (strict ==> |ls| <= header.declared)
    requires RowFault(tail, depth, strict, header.declared, |ls|).Some?
    ensures ArrayOrKeyed(Before(ls, tail), header, depth, at, strict) == Err(RowFault(tail, depth, strict, header.declared, |ls|).value)
  {
    TableGoesOn(rows, header, ls, tail, depth, strict, 0);
    RowFaultIs(tail, depth, strict, header.declared, |ls|);
    hide NextRow, RowFault, RowsOn, Before;
  }

  /** A table stops at the row that has too many or too few cells, or a cell that is no value. */
  lemma {:induction false} TableStopsInRow(rows: seq<Tree>, header: Header, ls: seq<Line>, line: Line, more: LineStream, depth: nat, at: Position, strict: bool)
    requires !header.keyed && header.fields != []
    requires RowsOn(rows, header, ls, depth + 1) && Dense(ls, strict) && (strict ==> |ls| < header.declared)
    requires line.depth == depth + 1 && (strict && |ls| > 0 ==> !line.blankBefore) && RowObject(header, line.content, line.at).Err?
    ensures ArrayOrKeyed(Before(ls, More(line, more)), header, depth, at, strict) == Err(RowObject(header, line.content, line.at).fault)
  {
    TableGoesOn(rows, header, ls, More(line, more), depth, strict, 0);
    hide RowObject, RowsOn, Before;
  }

  lemma {:induction false} ListGoesOn(items: seq<Tree>, ls: seq<Line>, tail: LineStream, depth: nat, strict: bool, declared: nat, index: nat)
    requires ListOn(items, ls, depth, strict, index == 0) && Closed(tail, depth + 1) && (strict ==> index + |items| <= declared)
    ensures ListItems(Before(ls, tail), depth, strict, declared, index) == Joined(items, ListItems(tail, depth, strict, declared, index + |items|))
    decreases items, 0
  {
    hide *;
    if items == [] {
      NoItemOn(ls, tail, depth, strict, index == 0);
      JoinedTwice([], [], ListItems(tail, depth, strict, declared, index));
    } else {
      var n := FirstItemOn(items, ls, depth, strict, index == 0);
      ListGoesOn(items[1..], ls[n..], tail, depth, strict, declared, index + 1);
      ItemThen(items, ls, n, tail, depth, strict, declared, index);
      JoinedTwice([items[0]], items[1..], ListItems(tail, depth, strict, declared, index + |items|));
      FirstAndOthers(items);
    }
  }

  /** The first item, and then whatever the lines behind it are. */
  lemma {:induction false} ItemThen(items: seq<Tree>, ls: seq<Line>, n: nat, tail: LineStream, depth: nat, strict: bool, declared: nat, index: nat)
    requires items != [] && 1 <= n <= |ls| && Closed(tail, depth + 1) && (strict ==> index < declared)
    requires ls[0].depth == depth + 1 && (strict && index > 0 ==> !ls[0].blankBefore)
    requires ItemOn(items[0], ls[0].content, ls[0].at, ls[1..n], depth, strict) && ListOn(items[1..], ls[n..], depth, strict, false)
    ensures ListItems(Before(ls, tail), depth, strict, declared, index) ==
            Joined([items[0]], ListItems(Before(ls[n..], tail), depth, strict, declared, index + 1))
    decreases items, 0
  {
    hide ListItem, Closed, Joined, NextRow, ItemOn, ListOn, Before, ListItems;
    RowIsNext(ls, tail, depth, strict, declared, index);
    FirstApart(ls, n, tail);
    ListStarts(items[1..], ls[n..], depth, strict, false);
    StillClosed(ls[n..], tail, depth + 1, depth + 1);
    ItemRead(items[0], ls[0].content, ls[0].at, ls[1..n], Before(ls[n..], tail), depth, strict);
    ListStep(ls[0], Before(ls, tail), Before(ls[1..], tail), Before(ls[n..], tail), depth, strict, declared, index, items[0]);
  }

  lemma {:induction false} ListStep(
      line: Line, stream: LineStream, more: LineStream, behind: LineStream, depth: nat, strict: bool, declared: nat, index: nat, item: Tree)
    requires NextRow(stream, depth, strict, declared, index) == Ok(Some(Parsed(line, more)))
    requires ListItem(line.content, line.at, more, depth, strict) == Ok(Parsed(item, behind))
    ensures ListItems(stream, depth, strict, declared, index) == Joined([item], ListItems(behind, depth, strict, declared, index + 1))
  {
    hide NextRow, ListItem;
  }

  /** A list stops at the line that is no item of it; unless it is deeper than an item, it may stand anywhere. */
  lemma {:induction false} ListStops(items: seq<Tree>, header: Header, ls: seq<Line>, tail: LineStream, depth: nat, at: Position, strict: bool)
    requires !header.keyed && header.fields == [] && header.inlineValues.None?
    requires ListOn(items, ls, depth, strict, true) && Closed(tail, depth + 1) && (strict ==> |items| <= header.declared)
    requires RowFault(tail, depth, strict, header.declared, |items|).Some?
    ensures ArrayOrKeyed(Before(ls, tail), header, depth, at, strict) == Err(RowFault(tail, depth, strict, header.declared, |items|).value)
  {
    ListGoesOn(items, ls, tail, depth, strict, header.declared, 0);
    RowFaultIs(tail, depth, strict, header.declared, |items|);
    hide NextRow, RowFault, ListOn, Before;
  }

  /** An item that starts with no dash is none. */
  lemma {:induction false} NoItem(items: seq<Tree>, header: Header, ls: seq<Line>, line: Line, more: LineStream, depth: nat, at: Position, strict: bool)
    requires !header.keyed && header.fields == [] && header.inlineValues.None?
    requires ListOn(items, ls, depth, strict, true) && (strict ==> |items| < header.declared)
    requires line.depth == depth + 1 && (strict && |items| > 0 ==> !line.blankBefore)
    requires line.content != [45] && !(|line.content| >= 2 && line.content[0] == 45 && line.content[1] == 32)
    ensures ArrayOrKeyed(Before(ls, More(line, more)), header, depth, at, strict) == Err(At(MissingListItem, line))
  {
    ListGoesOn(items, ls, More(line, more), depth, strict, header.declared, 0);
    NoDash(line.content);
    assert ListItem(line.content, line.at, more, depth, strict) == Err(At(MissingListItem, line));
    hide ListOn, Before, ListItem;
  }

  lemma {:induction false} NoDash(content: bytes)
    requires !(|content| >= 2 && content[0] == 45 && content[1] == 32)
    ensures !StartsWith(content, DASH)
  {
    assert |content| >= 2 ==> content[..2] == [content[0], content[1]];
  }

  /** In strict mode an inline array has as many values as its header declares. */
  lemma {:induction false} InlineCount(header: Header, stream: LineStream, depth: nat, at: Position)
    requires !header.keyed && header.fields == [] && header.inlineValues.Some?
    requires |SplitCells(header.inlineValues.value, header.delimiter)| != header.declared
    ensures ArrayOrKeyed(stream, header, depth, at, true) == Err(Fault(WrongArrayLength, at.line, Some(at.column), false))
  {
    hide SplitCells;
  }

  // ----- keyed rows ------------------------------------------------------------------------------------

  /** The keys seen once these fields were read. */
  function SeenAfter(fields: seq<Field>, seen: set<bytes>, strict: bool): set<bytes> {
    if fields == [] then seen else SeenAfter(fields[1..], Note(seen, fields[0].key, strict), strict)
  }

  lemma {:induction false} SeenAre(fields: seq<Field>, seen: set<bytes>, strict: bool, key: bytes)
    ensures key in SeenAfter(fields, seen, strict) <==> key in seen || (strict && exists i :: 0 <= i < |fields| && TextOf(fields[i].key) == key)
    decreases |fields|
  {
    hide TextOf;
    if fields != [] {
      SeenAre(fields[1..], Note(seen, fields[0].key, strict), strict, key);
      assert forall i :: 0 <= i < |fields| - 1 ==> fields[1..][i] == fields[i + 1];
      if exists i :: 0 <= i < |fields| && TextOf(fields[i].key) == key {
        var i :| 0 <= i < |fields| && TextOf(fields[i].key) == key;
        if i > 0 { assert TextOf(fields[1..][i - 1].key) == key; }
      }
    }
  }

  lemma {:induction false} KeyedGoesOn(
      fields: seq<Field>, header: Header, ls: seq<Line>, tail: LineStream, depth: nat, strict: bool, index: nat, seen: set<bytes>)
    requires KeyedOn(fields, header, ls, depth + 1, strict) && DenseFrom(ls, strict, index) && Fresh(fields, seen, strict)
    requires strict ==> index + |ls| <= header.declared
    ensures KeyedRows(Before(ls, tail), header, depth, strict, index, seen) ==
            Joined(fields, KeyedRows(tail, header, depth, strict, index + |ls|, SeenAfter(fields, seen, strict)))
    decreases |ls|
  {
    hide *;
    var r := KeyedRows(tail, header, depth, strict, index + |ls|, SeenAfter(fields, seen, strict));
    if ls == [] {
      NoRowOn(fields, header, tail, depth + 1, strict, seen);
      JoinedTwice([], [], r);
    } else {
      FirstRowOn(fields, header, ls, depth + 1, strict);
      DenseBehind(ls, strict, index);
      RowIsNext(ls, tail, depth, strict, header.declared, index);
      if EntryColon(ls[0].content).None? {
        RowWithoutColon(header, ls[0], strict, seen);
        KeyedGoesOn(fields, header, ls[1..], tail, depth, strict, index + 1, seen);
        KeyedStep(header, ls[0], Before(ls, tail), Before(ls[1..], tail), depth, strict, index, seen, None);
        NothingNoted(seen, strict);
        JoinedTwice([], [], Joined(fields, r));
      } else {
        FirstAndOthers(fields);
        FreshCons(fields[0], fields[1..], seen, strict);
        RowInOrder(header, ls[0], fields[0], strict, seen);
        KeyedGoesOn(fields[1..], header, ls[1..], tail, depth, strict, index + 1, Note(seen, fields[0].key, strict));
        KeyedStep(header, ls[0], Before(ls, tail), Before(ls[1..], tail), depth, strict, index, seen, Some(fields[0]));
        OneNoted(fields[0], fields, seen, strict);
        JoinedTwice([fields[0]], fields[1..], r);
      }
    }
  }

  lemma {:induction false} NoRowOn(fields: seq<Field>, header: Header, tail: LineStream, depth: nat, strict: bool, seen: set<bytes>)
    requires KeyedOn(fields, header, [], depth, strict)
    ensures fields == [] && Before([], tail) == tail && SeenAfter(fields, seen, strict) == seen
  {
  }

  lemma {:induction false} NothingNoted(seen: set<bytes>, strict: bool)
    ensures NoteRow(seen, None, strict) == seen && RowsOf(None) == []
  {
  }

  lemma {:induction false} OneNoted(first: Field, fields: seq<Field>, seen: set<bytes>, strict: bool)
    requires fields != [] && fields[0] == first
    ensures NoteRow(seen, Some(first), strict) == Note(seen, first.key, strict) && RowsOf(Some(first)) == [first]
    ensures SeenAfter(fields, seen, strict) == SeenAfter(fields[1..], Note(seen, first.key, strict), strict)
  {
  }

  lemma {:induction false} RowInOrder(header: Header, line: Line, field: Field, strict: bool, seen: set<bytes>)
    requires EntryColon(line.content).Some? && KeyedRowOn(field, header, line, EntryColon(line.content).value)
    requires strict ==> TextOf(field.key) !in seen
    ensures KeyedRow(header, line, strict, seen) == Ok(Some(field))
  {
    hide RowObject, StringTokenOf, Trim, EntryColon, TextOf;
  }

  lemma {:induction false} RowWithoutColon(header: Header, line: Line, strict: bool, seen: set<bytes>)
    requires EntryColon(line.content).None? && !strict
    ensures KeyedRow(header, line, strict, seen) == Ok(None)
  {
    hide EntryColon;
  }

  lemma {:induction false} FirstRowOn(fields: seq<Field>, header: Header, ls: seq<Line>, depth: nat, strict: bool)
    requires ls != [] && KeyedOn(fields, header, ls, depth, strict)
    ensures ls[0].depth == depth
    ensures EntryColon(ls[0].content).None? ==> !strict && KeyedOn(fields, header, ls[1..], depth, strict)
    ensures EntryColon(ls[0].content).Some? ==>
              fields != [] && KeyedRowOn(fields[0], header, ls[0], EntryColon(ls[0].content).value) && KeyedOn(fields[1..], header, ls[1..], depth, strict)
  {
    hide RowObject, StringTokenOf, Trim, EntryColon;
  }

  lemma {:induction false} DenseBehind(ls: seq<Line>, strict: bool, index: nat)
    requires ls != [] && DenseFrom(ls, strict, index)
    ensures DenseFrom(ls[1..], strict, index + 1) && (strict && index > 0 ==> !ls[0].blankBefore)
  {
    assert forall i :: 0 <= i < |ls| - 1 ==> ls[1..][i] == ls[i + 1];
  }

  lemma {:induction false} KeyedStep(
      header: Header, line: Line, stream: LineStream, more: LineStream, depth: nat, strict: bool, index: nat, seen: set<bytes>, row: Option<Field>)
    requires NextRow(stream, depth, strict, header.declared, index) == Ok(Some(Parsed(line, more)))
    requires KeyedRow(header, line, strict, seen) == Ok(row)
    ensures KeyedRows(stream, header, depth, strict, index, seen) ==
            Joined(RowsOf(row), KeyedRows(more, header, depth, strict, index + 1, NoteRow(seen, row, strict)))
  {
    hide NextRow, KeyedRow;
  }

  /** What is wrong with a keyed row: no colon, in strict mode; a key met before, in strict mode; nothing behind the
      colon. */
  function KeyedFault(line: Line, fields: seq<Field>, strict: bool): Option<Fault> {
    match EntryColon(line.content)
    case None => if strict then Some(At(ExpectedKey, line)) else None
    case Some(colon) =>
      match StringTokenOf(Trim(line.content[..colon]), line.at)
      case Err(fault) => Some(fault)
      case Ok(key) =>
        if strict && exists i :: 0 <= i < |fields| && TextOf(fields[i].key) == TextOf(key) then Some(At(DuplicateKey, line))
        else if Trim(line.content[colon + 1..]) == [] then Some(At(WrongRowWidth, line))
        else None
  }

  /** A keyed table stops at the line that is no row of it, or a row that is not in order. */
  lemma {:induction false} KeyedStops(fields: seq<Field>, header: Header, ls: seq<Line>, tail: LineStream, depth: nat, at: Position, strict: bool)
    requires header.keyed && KeyedOn(fields, header, ls, depth + 1, strict) && Dense(ls, strict) && Fresh(fields, {}, strict)
    requires strict ==> |ls| <= header.declared
    ensures RowFault(tail, depth, strict, header.declared, |ls|).Some? ==>
              ArrayOrKeyed(Before(ls, tail), header, depth, at, strict) == Err(RowFault(tail, depth, strict, header.declared, |ls|).value)
    ensures RowFault(tail, depth, strict, header.declared, |ls|).None? && tail.More? && tail.line.depth == depth + 1 && (strict ==> |ls| < header.declared)
            && KeyedFault(tail.line, fields, strict).Some? ==>
              ArrayOrKeyed(Before(ls, tail), header, depth, at, strict) == Err(KeyedFault(tail.line, fields, strict).value)
  {
    KeyedGoesOn(fields, header, ls, tail, depth, strict, 0, {});
    RowFaultIs(tail, depth, strict, header.declared, |ls|);
    var seen := SeenAfter(fields, {}, strict);
    if tail.More? && EntryColon(tail.line.content).Some? {
      var r := StringTokenOf(Trim(tail.line.content[..EntryColon(tail.line.content).value]), tail.line.at);
      if r.Ok? { SeenAre(fields, {}, strict, TextOf(r.value)); }
      hide SeenAfter, TextOf, StringTokenOf, Trim, EntryColon, RowObject, KeyedOn, Before, Fresh;
    } else {
      hide SeenAfter, TextOf, StringTokenOf, Trim, EntryColon, RowObject, KeyedOn, Before, Fresh;
    }
  }

  // ----- entries ---------------------------------------------------------------------------------------

  lemma {:induction false} FieldsGoOn(fields: seq<Field>, ls: seq<Line>, tail: LineStream, depth: nat, strict: bool, seen: set<bytes>)
    requires FieldsOn(fields, ls, depth, strict, false) && Fresh(fields, seen, strict) && Closed(tail, depth)
    ensures ObjectBody(Before(ls, tail), depth, strict, seen) == Joined(fields, ObjectBody(tail, depth, strict, SeenAfter(fields, seen, strict)))
    decreases fields, 0
  {
    hide Entry, Joined;
    var r := ObjectBody(tail, depth, strict, SeenAfter(fields, seen, strict));
    if fields == [] {
      JoinedTwice([], [], r);
    } else {
      var n :| 1 <= n <= |ls| && EntryOn(fields[0], ls[0].content, ls[0].at, ls[1..n], depth, strict) && FieldsOn(fields[1..], ls[n..], depth, strict, false);
      FirstApart(ls, n, tail);
      FirstAndOthers(fields);
      FreshCons(fields[0], fields[1..], seen, strict);
      FieldsStart(fields[1..], ls[n..], depth, strict, false);
      hide EntryOn, FieldsOn, Fresh, Before, ObjectBody;
      StillClosed(ls[n..], tail, depth, depth);
      EntryRead(fields[0], ls[0].content, ls[0].at, ls[1..n], Before(ls[n..], tail), depth, strict, seen);
      FieldsGoOn(fields[1..], ls[n..], tail, depth, strict, Note(seen, fields[0].key, strict));
      FieldsStep(fields[0], ls[0], Before(ls[1..n], Before(ls[n..], tail)), Before(ls[n..], tail), depth, strict, seen);
      JoinedTwice([fields[0]], fields[1..], r);
    }
  }

  lemma {:induction false} FieldsStep(first: Field, line: Line, more: LineStream, behind: LineStream, depth: nat, strict: bool, seen: set<bytes>)
    requires line.depth == depth && Entry(line.content, line.at, more, depth, strict, seen) == Ok(Parsed(first, behind))
    ensures ObjectBody(More(line, more), depth, strict, seen) == Joined([first], ObjectBody(behind, depth, strict, Note(seen, first.key, strict)))
  {
    hide Entry;
  }

  /** What is wrong with the line of an entry: a header without a key; in strict mode a malformed header, by its own
      code; no colon; a key that is no token; in strict mode a key met before. */
  function EntryFault(content: bytes, at: Position, fields: seq<Field>, strict: bool): Option<Fault> {
    match HeaderOf(content, strict, at)
    case Err(fault) => Some(fault)
    case Ok(outcome) =>
      if outcome.HeaderLine? then
        (match outcome.header.key
         case None => Some(Fault(ExpectedKey, at.line, Some(at.column), false))
         case Some(key) => Repeated(key, at, fields, strict))
      else if outcome.Malformed? && strict then Some(Fault(outcome.code, at.line, Some(at.column), false))
      else match EntryColon(content)
        case None => Some(Fault(ExpectedKey, at.line, Some(at.column), false))
        case Some(colon) =>
          match StringTokenOf(Trim(content[..colon]), at)
          case Err(fault) => Some(fault)
          case Ok(key) => Repeated(key, at, fields, strict)
  }

  function Repeated(key: StringToken, at: Position, fields: seq<Field>, strict: bool): Option<Fault> {
    if strict && exists i :: 0 <= i < |fields| && TextOf(fields[i].key) == TextOf(key)
    then Some(Fault(DuplicateKey, at.line, Some(at.column), false)) else None
  }

  lemma {:induction false} EntryFaultIs(content: bytes, at: Position, stream: LineStream, depth: nat, fields: seq<Field>, strict: bool)
    requires EntryFault(content, at, fields, strict).Some?
    ensures Entry(content, at, stream, depth, strict, SeenAfter(fields, {}, strict)) == Err(EntryFault(content, at, fields, strict).value)
  {
    hide SeenAfter, TextOf, StringTokenOf, Trim, EntryColon, HeaderOf, ArrayOrKeyed, NestedObject, InlineValue, Repeated;
    var seen := SeenAfter(fields, {}, strict);
    var header := HeaderOf(content, strict, at);
    if header.Ok? {
      assert Entry(content, at, stream, depth, strict, seen) == EntryWith(header.value, content, at, stream, depth, strict, seen);
      if header.value.HeaderLine? {
        assert EntryWith(header.value, content, at, stream, depth, strict, seen) == HeaderEntry(header.value.header, at, stream, depth, strict, seen);
        if header.value.header.key.Some? { RepeatedIs(header.value.header.key.value, at, fields, strict); }
      } else if !(header.value.Malformed? && strict) {
        assert EntryWith(header.value, content, at, stream, depth, strict, seen) == KeyValue(content, at, stream, depth, strict, seen);
        if EntryColon(content).Some? {
          var r := StringTokenOf(Trim(content[..EntryColon(content).value]), at);
          if r.Ok? { RepeatedIs(r.value, at, fields, strict); }
        }
      }
    }
  }

  lemma {:induction false} RepeatedIs(key: StringToken, at: Position, fields: seq<Field>, strict: bool)
    ensures Repeated(key, at, fields, strict) ==
            if strict && TextOf(key) in SeenAfter(fields, {}, strict) then Some(Fault(DuplicateKey, at.line, Some(at.column), false)) else None
  {
    SeenAre(fields, {}, strict, TextOf(key));
    hide SeenAfter, TextOf;
  }

  /** An object stops at the line that stands too deep, or is no entry of it. */
  lemma {:induction false} ObjectStops(fields: seq<Field>, ls: seq<Line>, line: Line, more: LineStream, depth: nat, strict: bool)
    requires FieldsOn(fields, ls, depth, strict, false) && Fresh(fields, {}, strict)
    ensures line.depth == depth && EntryFault(line.content, line.at, fields, strict).Some? ==>
              ObjectBody(Before(ls, More(line, more)), depth, strict, {}) == Err(EntryFault(line.content, line.at, fields, strict).value)
    ensures line.depth > depth ==> ObjectBody(More(line, more), depth, strict, {}) == Err(At(DepthJump, line))
  {
    if line.depth == depth && EntryFault(line.content, line.at, fields, strict).Some? {
      FieldsGoOn(fields, ls, More(line, more), depth, strict, {});
      EntryFaultIs(line.content, line.at, more, depth, fields, strict);
      hide Entry, EntryFault, FieldsOn, Fresh, Before;
    }
  }

  // ----- items -----------------------------------------------------------------------------------------

  lemma {:induction false} ItemEntriesGoOn(fields: seq<Field>, ls: seq<Line>, tail: LineStream, depth: nat, strict: bool, seen: set<bytes>)
    requires FieldsOn(fields, ls, depth + 2, strict, true) && Fresh(fields, seen, strict) && Closed(tail, depth + 2)
    ensures ItemBody(Before(ls, tail), depth, strict, seen) == Joined(fields, ItemBody(tail, depth, strict, SeenAfter(fields, seen, strict)))
    decreases fields, 0
  {
    hide *;
    if fields == [] {
      NoFieldOn(ls, tail, depth + 2, strict, seen);
      JoinedTwice([], [], ItemBody(tail, depth, strict, seen));
    } else {
      var n := FirstFieldOn(fields, ls, depth + 2, strict);
      FirstApart(ls, n, tail);
      FirstAndOthers(fields);
      FreshCons(fields[0], fields[1..], seen, strict);
      FieldsStart(fields[1..], ls[n..], depth + 2, strict, true);
      StillClosed(ls[n..], tail, depth + 2, depth + 2);
      EntryRead(fields[0], ls[0].content, ls[0].at, ls[1..n], Before(ls[n..], tail), depth + 2, strict, seen);
      ItemEntriesGoOn(fields[1..], ls[n..], tail, depth, strict, Note(seen, fields[0].key, strict));
      ItemStep(fields[0], ls[0], Before(ls[1..n], Before(ls[n..], tail)), Before(ls[n..], tail), depth, strict, seen);
      OneNoted(fields[0], fields, seen, strict);
      JoinedTwice([fields[0]], fields[1..], ItemBody(tail, depth, strict, SeenAfter(fields, seen, strict)));
    }
  }

  lemma {:induction false} NoFieldOn(ls: seq<Line>, tail: LineStream, depth: nat, strict: bool, seen: set<bytes>)
    requires FieldsOn([], ls, depth, strict, true)
    ensures Before(ls, tail) == tail && SeenAfter([], seen, strict) == seen
  {
  }

  lemma {:induction false} FirstFieldOn(fields: seq<Field>, ls: seq<Line>, depth: nat, strict: bool) returns (n: nat)
    requires fields != [] && FieldsOn(fields, ls, depth, strict, true)
    ensures 1 <= n <= |ls| && EntryOn(fields[0], ls[0].content, ls[0].at, ls[1..n], depth, strict) && FieldsOn(fields[1..], ls[n..], depth, strict, true)
    ensures ls[0].depth == depth && (strict ==> !ls[0].blankBefore)
  {
    n :| 1 <= n <= |ls| && EntryOn(fields[0], ls[0].content, ls[0].at, ls[1..n], depth, strict) && FieldsOn(fields[1..], ls[n..], depth, strict, true);
  }

  lemma {:induction false} ItemStep(first: Field, line: Line, more: LineStream, behind: LineStream, depth: nat, strict: bool, seen: set<bytes>)
    requires line.depth == depth + 2 && (strict ==> !line.blankBefore)
    requires Entry(line.content, line.at, more, depth + 2, strict, seen) == Ok(Parsed(first, behind))
    ensures ItemBody(More(line, more), depth, strict, seen) == Joined([first], ItemBody(behind, depth, strict, Note(seen, first.key, strict)))
  {
    hide Entry;
  }

  /** What is wrong with the next line of an object that is a list item: in strict mode a blank one before it; or what
      is wrong with it as an entry. */
  function ItemLineFault(line: Line, fields: seq<Field>, strict: bool): Option<Fault> {
    if strict && line.blankBefore then Some(At(BlankLineInArray, line)) else EntryFault(line.content, line.at, fields, strict)
  }

  /** An object that is a list item stops at the line that is no entry of it. */
  lemma {:induction false} ItemStops(
      first: Field, item: bytes, at: Position, own: seq<Line>, fields: seq<Field>, ls: seq<Line>, line: Line, more: LineStream, depth: nat, strict: bool)
    requires item != [91, 93] && EntryOn(first, item, at, own, depth + 2, strict)
    requires FieldsOn(fields, ls, depth + 2, strict, true) && Fresh([first] + fields, {}, strict)
    requires line.depth == depth + 2 && ItemLineFault(line, [first] + fields, strict).Some?
    ensures DashedItem(item, at, Before(own + ls, More(line, more)), depth, strict) == Err(ItemLineFault(line, [first] + fields, strict).value)
  {
    var outcome := ItemIsObject(first, item, at, own, depth, strict);
    var tail := More(line, more);
    var seen := Note({}, first.key, strict);
    hide *;
    FreshCons(first, fields, {}, strict);
    BeforeConcat(own, ls, tail);
    FieldsStart(fields, ls, depth + 2, strict, true);
    LineCloses(line, more, depth + 2);
    StillClosed(ls, tail, depth + 2, depth + 2);
    EntryRead(first, item, at, own, Before(ls, tail), depth + 2, strict, {});
    ItemEntriesGoOn(fields, ls, tail, depth, strict, seen);
    SeenWithFirst(first, fields, strict);
    LineIsRefused(line, more, [first] + fields, depth, strict);
    DashedGoesOn(item, outcome, at, Before(own, Before(ls, tail)), depth, strict);
    DashedByEntry(item, outcome, at, Before(own, Before(ls, tail)), depth, strict);
    ObjectItemStops(Parsed(first, Before(ls, tail)), at, depth, strict, fields, tail);
  }

  lemma {:induction false} LineCloses(line: Line, more: LineStream, depth: nat)
    requires line.depth == depth
    ensures Closed(More(line, more), depth)
  {
  }

  lemma {:induction false} SeenWithFirst(first: Field, fields: seq<Field>, strict: bool)
    ensures SeenAfter([first] + fields, {}, strict) == SeenAfter(fields, Note({}, first.key, strict), strict)
  {
    assert ([first] + fields)[1..] == fields;
  }

  lemma {:induction false} ItemIsObject(first: Field, item: bytes, at: Position, own: seq<Line>, depth: nat, strict: bool) returns (outcome: HeaderOutcome)
    requires EntryOn(first, item, at, own, depth + 2, strict)
    ensures HeaderOf(item, strict, at) == Ok(outcome)
    ensures (outcome.HeaderLine? && outcome.header.key.Some?) || (!outcome.HeaderLine? && EntryColon(item).Some?)
    ensures strict ==> TextOf(first.key) !in {}
  {
    outcome := HeaderOf(item, strict, at).value;
    hide HeaderOf, EntryColon, HeadedOn, ObjectOn;
  }

  lemma {:induction false} LineIsRefused(line: Line, more: LineStream, fields: seq<Field>, depth: nat, strict: bool)
    requires line.depth == depth + 2 && ItemLineFault(line, fields, strict).Some?
    ensures ItemBody(More(line, more), depth, strict, SeenAfter(fields, {}, strict)) == Err(ItemLineFault(line, fields, strict).value)
  {
    if !(strict && line.blankBefore) { EntryFaultIs(line.content, line.at, more, depth + 2, fields, strict); }
    hide Entry, EntryFault, SeenAfter;
  }

  lemma {:induction false} ObjectItemStops(first: Parsed<Field>, at: Position, depth: nat, strict: bool, fields: seq<Field>, tail: LineStream)
    requires var seen := Note({}, first.value.key, strict);
             && ItemBody(first.rest, depth, strict, seen) == Joined(fields, ItemBody(tail, depth, strict, SeenAfter(fields, seen, strict)))
             && ItemBody(tail, depth, strict, SeenAfter(fields, seen, strict)).Err?
    ensures ObjectItem(first, at, depth, strict) ==
            Err(ItemBody(tail, depth, strict, SeenAfter(fields, Note({}, first.value.key, strict), strict)).fault)
  {
    hide ItemBody, SeenAfter;
  }

  /** What is wrong with the text behind a dash: what the header grammar refuses; in strict mode a malformed header, by
      its own code; a header without a key that announces a table; a first entry that is none; a value that is none. */
  function DashFault(item: bytes, at: Position, strict: bool): Option<Fault> {
    match HeaderOf(item, strict, at)
    case Err(fault) => Some(fault)
    case Ok(outcome) =>
      if outcome.HeaderLine? && outcome.header.key.None? then
        (if outcome.header.fields != [] || outcome.header.keyed then Some(Fault(MalformedHeader, at.line, Some(at.column), false)) else None)
      else if outcome.HeaderLine? || EntryColon(item).Some? || (outcome.Malformed? && strict) then EntryFault(item, at, [], strict)
      else match ValueToken(item, at) case Err(fault) => Some(fault) case Ok(_) => None
  }

  /** An item with such a text is refused for it. */
  lemma {:induction false} DashStops(item: bytes, at: Position, stream: LineStream, depth: nat, strict: bool)
    requires item != [91, 93] && DashFault(item, at, strict).Some?
    ensures DashedItem(item, at, stream, depth, strict) == Err(DashFault(item, at, strict).value)
  {
    hide HeaderOf, EntryColon, ValueToken, ArrayBody, EntryFault, ObjectItem, Entry, DashedWith;
    var header := HeaderOf(item, strict, at);
    if header.Ok? {
      var outcome := header.value;
      DashedGoesOn(item, outcome, at, stream, depth, strict);
      if outcome.HeaderLine? && outcome.header.key.None? {
        KeylessItem(outcome.header, item, at, stream, depth, strict);
      } else if outcome.HeaderLine? || (EntryColon(item).Some? && !(outcome.Malformed? && strict)) {
        EntryFaultIs(item, at, stream, depth + 2, [], strict);
        NothingSeen(strict);
        FirstEntryFails(item, outcome, at, stream, depth, strict);
      } else {
        PlainItemFails(outcome, item, at, stream, depth, strict);
      }
    }
  }

  lemma {:induction false} NothingSeen(strict: bool)
    ensures SeenAfter([], {}, strict) == {}
  {
  }

  lemma {:induction false} KeylessItem(header: Header, item: bytes, at: Position, stream: LineStream, depth: nat, strict: bool)
    requires header.key.None? && (header.fields != [] || header.keyed)
    ensures DashedWith(HeaderLine(header), item, at, stream, depth, strict) == Err(Fault(MalformedHeader, at.line, Some(at.column), false))
  {
    hide ArrayBody;
  }

  lemma {:induction false} FirstEntryFails(item: bytes, outcome: HeaderOutcome, at: Position, stream: LineStream, depth: nat, strict: bool)
    requires HeaderOf(item, strict, at) == Ok(outcome) && Entry(item, at, stream, depth + 2, strict, {}).Err?
    requires (outcome.HeaderLine? && outcome.header.key.Some?) || (!outcome.HeaderLine? && EntryColon(item).Some? && !(outcome.Malformed? && strict))
    ensures DashedWith(outcome, item, at, stream, depth, strict) == Err(Entry(item, at, stream, depth + 2, strict, {}).fault)
  {
    hide HeaderOf, EntryColon, ObjectItem, KeyValue, HeaderEntry;
    if outcome.HeaderLine? {
      assert Entry(item, at, stream, depth + 2, strict, {}) == HeaderEntry(outcome.header, at, stream, depth + 2, strict, {});
      assert DashedWith(outcome, item, at, stream, depth, strict) == HeaderItem(outcome.header, at, stream, depth, strict);
    } else {
      assert Entry(item, at, stream, depth + 2, strict, {}) == KeyValue(item, at, stream, depth + 2, strict, {});
      assert DashedWith(outcome, item, at, stream, depth, strict) == PlainItem(item, at, stream, depth, strict);
    }
  }

  lemma {:induction false} PlainItemFails(outcome: HeaderOutcome, item: bytes, at: Position, stream: LineStream, depth: nat, strict: bool)
    requires HeaderOf(item, strict, at) == Ok(outcome) && !outcome.HeaderLine? && DashFault(item, at, strict).Some?
    requires EntryColon(item).None? || (outcome.Malformed? && strict)
    ensures DashedWith(outcome, item, at, stream, depth, strict) == Err(DashFault(item, at, strict).value)
  {
    hide HeaderOf, EntryColon, ValueToken, StringTokenOf, Trim;
  }

  /** Below a key without a value the lines stand exactly one level deeper. */
  lemma {:induction false} NestedStops(line: Line, more: LineStream, depth: nat, at: Position, strict: bool)
    requires line.depth > depth + 1
    ensures NestedObject(More(line, more), depth, at, strict) == Err(At(DepthJump, line))
  {
  }

  // ----- documents --------------------------------------------------------------------------------------

  /** The first line stands at the margin. */
  lemma {:induction false} IndentedRoot(line: Line, more: LineStream, strict: bool)
    requires line.depth > 0
    ensures Root(More(line, more), strict) == Err(At(InvalidIndent, line))
  {
  }

  /** What is wrong with a first line that is no entry: what the header grammar refuses; in strict mode a malformed
      header, by its own code; a value that is none. */
  lemma {:induction false} RootStops(line: Line, more: LineStream, strict: bool)
    requires line.depth == 0 && line.content != [91, 93]
    ensures HeaderOf(line.content, strict, line.at).Err? ==>
              Root(More(line, more), strict) == Err(HeaderOf(line.content, strict, line.at).fault)
    ensures var header := HeaderOf(line.content, strict, line.at);
            header.Ok? && header.value.Malformed? && strict ==> Root(More(line, more), strict) == Err(At(header.value.code, line))
    ensures var header := HeaderOf(line.content, strict, line.at);
            header.Ok? && (header.value.NotHeader? || (header.value.Malformed? && !strict)) && EntryColon(line.content).None?
            && ValueToken(line.content, line.at).Err? ==>
              Root(More(line, more), strict) == Err(ValueToken(line.content, line.at).fault)
  {
    hide HeaderOf, EntryColon, ValueToken, ObjectBody, ArrayOrKeyed;
  }

  /** A document whose first line is an entry fails as its entries do. */
  lemma {:induction false} RootStopsInEntries(line: Line, more: LineStream, strict: bool)
    requires line.depth == 0 && line.content != [91, 93] && ObjectBody(More(line, more), 0, strict, {}).Err?
    requires var header := HeaderOf(line.content, strict, line.at);
             header.Ok? && (if header.value.HeaderLine? then header.value.header.key.Some?
                            else EntryColon(line.content).Some? && !(header.value.Malformed? && strict))
    ensures Root(More(line, more), strict) == Err(ObjectBody(More(line, more), 0, strict, {}).fault)
  {
    hide HeaderOf, EntryColon, ObjectBody, ArrayOrKeyed;
  }

  /** Nothing may follow a document that is an array, a keyed table or a scalar. */
  lemma {:induction false} NothingFollows(tree: Tree, ls: seq<Line>, line: Line, more: LineStream, strict: bool)
    requires ls != [] && DocumentOn(tree, ls, strict) && line.depth == 0
    requires tree.Obj? ==> !tree.kind.Plain?
    ensures Root(Before(ls, More(line, more)), strict) == Err(At(TrailingContent, line))
  {
    hide HeaderOf, EntryColon, ValueToken, HeadedOn, ObjectOn, ArrayOrKeyed, ObjectBody;
    var tail := More(line, more);
    if ls[0].content != [91, 93] {
      var outcome := HeaderOf(ls[0].content, strict, ls[0].at).value;
      if outcome.HeaderLine? && outcome.header.key.None? {
        HeadedRead(tree, outcome.header, ls[0].at, ls[1..], tail, 0, strict);
      } else if outcome.HeaderLine? || EntryColon(ls[0].content).Some? {
        PlainTree(tree, ls[0].at, ls, strict);
        assert false;
      } else {
        assert Before(ls[1..], tail) == tail;
      }
    }
  }

  lemma {:induction false} PlainTree(tree: Tree, at: Position, ls: seq<Line>, strict: bool)
    requires ObjectOn(tree, at, ls, 0, strict)
    ensures tree.Obj? && tree.kind.Plain?
  {
  }

  /** A document is UTF-8 (the fault names its first line). */
  lemma {:induction false} NotUtf8(input: bytes, strict: bool, indentSize: nat)
    requires indentSize > 0 && !Utf8.ValidUtf8(input)
    ensures Document(input, strict, indentSize) == Err(Fault(InvalidUtf8, 1, None, false))
  {
  }
}
