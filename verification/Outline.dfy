/** Which lines a tree stands on: a document means a tree exactly when the tree's lines are the document's
    (src/parser.rs). */
module Outline {
  import opened Bytes
  import opened Faults
  import opened Tokens
  import opened Escapes
  import opened Cells
  import opened Scan
  import opened Header
  import opened Events
  import opened Grammar

  // ----- streams ------------------------------------------------------------------------------------

  /** The lines, and what is behind them. */
  function Before(ls: seq<Line>, rest: LineStream): LineStream {
    if ls == [] then rest else More(ls[0], Before(ls[1..], rest))
  }

  lemma {:induction false} BeforeConcat(a: seq<Line>, b: seq<Line>, rest: LineStream)
    ensures Before(a + b, rest) == Before(a, Before(b, rest))
    ensures Size(Before(a, rest)) == |a| + Size(rest)
  {
    if a == [] {
      assert a + b == b;
    } else {
      assert (a + b)[1..] == a[1..] + b;
      BeforeConcat(a[1..], b, rest);
    }
  }

  /** The lines behind stand no deeper than `depth`. */
  predicate Closed(rest: LineStream, depth: nat) {
    rest.End? || (rest.More? && rest.line.depth <= depth)
  }

  /** The first of the lines stands at `depth`. */
  predicate Starts(ls: seq<Line>, depth: nat) {
    ls != [] ==> ls[0].depth == depth
  }

  lemma {:induction false} StillClosed(ls: seq<Line>, rest: LineStream, depth: nat, limit: nat)
    requires Starts(ls, depth) && Closed(rest, limit) && limit <= depth
    ensures Closed(Before(ls, rest), depth)
  {
  }

  // ----- keys ---------------------------------------------------------------------------------------

  /** In strict mode no key repeats another, or one of those given. */
  predicate Fresh(fields: seq<Field>, seen: set<bytes>, strict: bool) {
    strict ==>
      && (forall i :: 0 <= i < |fields| ==> TextOf(fields[i].key) !in seen)
      && (forall i, j :: 0 <= i < j < |fields| ==> TextOf(fields[i].key) != TextOf(fields[j].key))
  }

  lemma {:induction false} FreshCons(first: Field, fields: seq<Field>, seen: set<bytes>, strict: bool)
    ensures Fresh([first] + fields, seen, strict) <==>
            (strict ==> TextOf(first.key) !in seen) && Fresh(fields, Note(seen, first.key, strict), strict)
  {
    if strict {
      if Fresh([first] + fields, seen, strict) { FreshTail(first, fields, seen); }
      if TextOf(first.key) !in seen && Fresh(fields, Note(seen, first.key, strict), strict) { FreshWhole(first, fields, seen); }
    }
  }

  lemma {:induction false} FreshTail(first: Field, fields: seq<Field>, seen: set<bytes>)
    requires Fresh([first] + fields, seen, true)
    ensures TextOf(first.key) !in seen && Fresh(fields, Note(seen, first.key, true), true)
  {
    hide TextOf;
    var all := [first] + fields;
    assert all[0] == first;
    forall i | 0 <= i < |fields| ensures TextOf(fields[i].key) !in Note(seen, first.key, true) {
      assert all[i + 1] == fields[i] && TextOf(all[0].key) != TextOf(all[i + 1].key) && TextOf(all[i + 1].key) !in seen;
    }
    forall i, j | 0 <= i < j < |fields| ensures TextOf(fields[i].key) != TextOf(fields[j].key) {
      assert all[i + 1] == fields[i] && all[j + 1] == fields[j] && TextOf(all[i + 1].key) != TextOf(all[j + 1].key);
    }
  }

  lemma {:induction false} FreshWhole(first: Field, fields: seq<Field>, seen: set<bytes>)
    requires TextOf(first.key) !in seen && Fresh(fields, Note(seen, first.key, true), true)
    ensures Fresh([first] + fields, seen, true)
  {
    hide TextOf;
    var all := [first] + fields;
    forall i | 0 <= i < |all| ensures TextOf(all[i].key) !in seen {
      if i > 0 { assert all[i] == fields[i - 1] && TextOf(fields[i - 1].key) !in Note(seen, first.key, true); }
    }
    forall i, j | 0 <= i < j < |all| ensures TextOf(all[i].key) != TextOf(all[j].key) {
      assert all[j] == fields[j - 1] && TextOf(fields[j - 1].key) !in Note(seen, first.key, true);
      if i > 0 { assert all[i] == fields[i - 1]; }
    }
  }

  // ----- scalars and rows ---------------------------------------------------------------------------

  /** A value behind a key. */
  predicate ValueOn(tree: Tree, text: bytes, at: Position) {
    if text == [91, 93] then tree == Arr(0, None, [], at)
    else tree.Leaf? && tree.at == at && ValueToken(text, at) == Ok(tree.token)
  }

  predicate ScalarsOn(items: seq<Tree>, cells: seq<bytes>, at: Position) {
    |items| == |cells| && forall i :: 0 <= i < |cells| ==> items[i].Leaf? && items[i].at == at && ValueToken(cells[i], at) == Ok(items[i].token)
  }

  /** In strict mode no line but the first follows a blank one. */
  predicate Dense(ls: seq<Line>, strict: bool) {
    strict ==> forall i :: 0 < i < |ls| ==> !ls[i].blankBefore
  }

  /** One line for each row. */
  predicate RowsOn(rows: seq<Tree>, header: Header, ls: seq<Line>, depth: nat) {
    |rows| == |ls| && forall i :: 0 <= i < |ls| ==> ls[i].depth == depth && RowObject(header, ls[i].content, ls[i].at) == Ok(rows[i])
  }

  /** One line for each keyed row; outside strict mode a line without a colon is none. */
  predicate KeyedOn(fields: seq<Field>, header: Header, ls: seq<Line>, depth: nat, strict: bool)
    decreases |ls|
  {
    if ls == [] then fields == []
    else
      && ls[0].depth == depth
      && match EntryColon(ls[0].content)
         case None => !strict && KeyedOn(fields, header, ls[1..], depth, strict)
         case Some(colon) => fields != [] && KeyedRowOn(fields[0], header, ls[0], colon) && KeyedOn(fields[1..], header, ls[1..], depth, strict)
  }

  predicate KeyedRowOn(field: Field, header: Header, line: Line, colon: nat)
    requires colon < |line.content|
  {
    && field.at == line.at && StringTokenOf(Trim(line.content[..colon]), line.at) == Ok(field.key)
    && Trim(line.content[colon + 1..]) != [] && RowObject(header, Trim(line.content[colon + 1..]), line.at) == Ok(field.value)
  }

  // ----- the structure ------------------------------------------------------------------------------

  /** The value a header announces: a keyed table, a table, values on its line, or a list; strict mode wants as many
      as declared. */
  ghost predicate HeadedOn(tree: Tree, header: Header, at: Position, ls: seq<Line>, depth: nat, strict: bool)
    decreases tree, 2
  {
    if header.keyed then
      && tree.Obj? && tree.at == at && tree.kind == Table(LeafSum(header.fields)) && KeyedOn(tree.fields, header, ls, depth + 1, strict)
      && Dense(ls, strict) && (strict ==> |ls| == header.declared) && Fresh(tree.fields, {}, strict)
    else ArrayOn(tree, header, at, ls, depth, strict)
  }

  ghost predicate ArrayOn(tree: Tree, header: Header, at: Position, ls: seq<Line>, depth: nat, strict: bool)
    decreases tree, 1
  {
    && tree.Arr? && tree.at == at && tree.declared == header.declared && (strict ==> |tree.items| == header.declared)
    && if header.fields != [] then
         tree.tabular == Some(LeafSum(header.fields)) && RowsOn(tree.items, header, ls, depth + 1) && Dense(ls, strict)
       else
         && tree.tabular == None
         && match header.inlineValues
            case Some(values) => ls == [] && ScalarsOn(tree.items, SplitCells(values, header.delimiter), at)
            case None => ListOn(tree.items, ls, depth, strict, true)
  }

  /** The items of a list, one level below it, each with the lines that belong to it. */
  ghost predicate ListOn(items: seq<Tree>, ls: seq<Line>, depth: nat, strict: bool, first: bool)
    decreases items, 0
  {
    if items == [] then ls == []
    else
      && ls != [] && ls[0].depth == depth + 1 && (strict && !first ==> !ls[0].blankBefore)
      && exists n :: 1 <= n <= |ls| && ItemOn(items[0], ls[0].content, ls[0].at, ls[1..n], depth, strict)
                     && ListOn(items[1..], ls[n..], depth, strict, false)
  }

  /** An item: a lone dash is an empty object; otherwise what stands behind the dash. */
  ghost predicate ItemOn(tree: Tree, content: bytes, at: Position, ls: seq<Line>, depth: nat, strict: bool)
    decreases tree, 4
  {
    if content == [45] then ls == [] && tree == Obj(Repeated, [], at)
    else |content| >= 2 && content[..2] == [45, 32] && DashedOn(tree, content[2..], Position(at.line, at.column + 2), ls, depth, strict)
  }

  /** Behind the dash: an empty array, an array under a header without a key, an object, or a scalar. */
  ghost predicate DashedOn(tree: Tree, item: bytes, at: Position, ls: seq<Line>, depth: nat, strict: bool)
    decreases tree, 3
  {
    if item == [91, 93] then ls == [] && tree == Arr(0, None, [], at)
    else
      var outcome := HeaderOf(item, strict, at);
      && outcome.Ok?
      && if outcome.value.HeaderLine? && outcome.value.header.key.None? then
           outcome.value.header.fields == [] && !outcome.value.header.keyed && ArrayOn(tree, outcome.value.header, at, ls, depth + 1, strict)
         else if outcome.value.HeaderLine? || EntryColon(item).Some? then
           && tree.Obj? && tree.kind == Repeated && tree.at == at && tree.fields != [] && Fresh(tree.fields, {}, strict)
           && exists n :: 0 <= n <= |ls| && EntryOn(tree.fields[0], item, at, ls[..n], depth + 2, strict)
                          && FieldsOn(tree.fields[1..], ls[n..], depth + 2, strict, true)
         else
           (outcome.value.Malformed? ==> !strict) && ls == [] && tree.Leaf? && tree.at == at && ValueToken(item, at) == Ok(tree.token)
  }

  /** The entries at one depth, each with the lines below it; in a list item strict mode tolerates no blank line
      before an entry. */
  ghost predicate FieldsOn(fields: seq<Field>, ls: seq<Line>, depth: nat, strict: bool, dense: bool)
    decreases fields, 0
  {
    if fields == [] then ls == []
    else
      && ls != [] && ls[0].depth == depth && (strict && dense ==> !ls[0].blankBefore)
      && exists n :: 1 <= n <= |ls| && EntryOn(fields[0], ls[0].content, ls[0].at, ls[1..n], depth, strict)
                     && FieldsOn(fields[1..], ls[n..], depth, strict, dense)
  }

  /** An entry: under a header with a key what it announces; otherwise a key and a colon, and behind it a value, or
      an object on the lines one level below. */
  ghost predicate EntryOn(field: Field, content: bytes, at: Position, ls: seq<Line>, depth: nat, strict: bool)
    decreases field, 1
  {
    var outcome := HeaderOf(content, strict, at);
    && field.at == at && outcome.Ok?
    && if outcome.value.HeaderLine? then
         outcome.value.header.key == Some(field.key) && HeadedOn(field.value, outcome.value.header, at, ls, depth, strict)
       else
         && (outcome.value.Malformed? ==> !strict)
         && match EntryColon(content)
            case None => false
            case Some(colon) =>
              && StringTokenOf(Trim(content[..colon]), at) == Ok(field.key)
              && if colon + 1 == |content| then ObjectOn(field.value, at, ls, depth + 1, strict)
                 else ls == [] && ValueOn(field.value, content[colon + 2..], Position(at.line, at.column + colon + 2))
  }

  ghost predicate ObjectOn(tree: Tree, at: Position, ls: seq<Line>, depth: nat, strict: bool)
    decreases tree, 1
  {
    tree.Obj? && tree.kind == Plain && tree.at == at && FieldsOn(tree.fields, ls, depth, strict, false) && Fresh(tree.fields, {}, strict)
  }

  /** A document: nothing is an empty object; otherwise an empty array, what a header without a key announces, the
      entries at depth 0, or a scalar. */
  ghost predicate DocumentOn(tree: Tree, ls: seq<Line>, strict: bool) {
    if ls == [] then tree == Obj(Plain, [], Position(1, 1))
    else
      var content, at := ls[0].content, ls[0].at;
      && ls[0].depth == 0
      && if content == [91, 93] then ls[1..] == [] && tree == Arr(0, None, [], at)
         else
           var outcome := HeaderOf(content, strict, at);
           && outcome.Ok?
           && if outcome.value.HeaderLine? && outcome.value.header.key.None? then HeadedOn(tree, outcome.value.header, at, ls[1..], 0, strict)
              else if outcome.value.HeaderLine? || EntryColon(content).Some? then
                ((outcome.value.Malformed? ==> !strict) && ObjectOn(tree, at, ls, 0, strict))
              else
                (outcome.value.Malformed? ==> !strict) && ls[1..] == [] && tree.Leaf? && tree.at == at && ValueToken(content, at) == Ok(tree.token)
  }
}
