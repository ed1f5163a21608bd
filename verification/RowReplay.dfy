/** In a tabular array the memo answers every key of every row as the plan does (src/typed.rs, src/parser.rs). */
module RowReplay {
  import opened Bytes
  import opened Faults
  import opened Tokens
  import opened Escapes
  import opened Events
  import opened Plans
  import opened TypedMachine
  import opened TypedTrees
  import opened TypedProof
  import opened Values
  import opened RowMemo
  import Header
  import Grammar
  import Scan
  import Cells
  import Untyped

  // ----- the lookups of one row ------------------------------------------------------------------

  lemma {:induction false} NothingTraced(target: Target, level: nat, st: State)
    requires ValidGraph(target.graph)
    ensures Traced(target, level, st, [], [])
  {
  }

  lemma {:induction false} FieldsTrace(
      target: Target, level: nat, st: State, plan: StructPlan, slots: seq<Option<Typed>>, fields: seq<Field>, nodes: seq<FieldNode>)
    requires ValidGraph(target.graph) && Settled(st) && Level(st.stack) == level && HasHeader(fields, nodes)
    ensures Traced(target, level, ObjectState(st, plan, slots), CellEvents(fields), RowQueries(target.graph, plan, nodes))
    decreases nodes, 1
  {
    hide ValidGraph, Traced, Run, CellEvent, NodeQueries, HasNode, ConvertField;
    var start := ObjectState(st, plan, slots);
    if nodes == [] {
      NothingTraced(target, level, start);
    } else {
      FieldTrace(target, level, st, plan, slots, fields[0], nodes[0]);
      FieldConverts(target, st, plan, slots, fields[0], true);
      var next := ConvertField(target, plan, fields[0], true, slots);
      if next.Ok? { FieldsTrace(target, level, st, plan, next.value, fields[1..], nodes[1..]); }
      TracedConcat(target, level, start, CellEvent(fields[0]), CellEvents(fields[1..]),
                   NodeQueries(target.graph, plan, nodes[0]), RowQueries(target.graph, plan, nodes[1..]));
    }
  }

  lemma {:induction false} FieldTrace(
      target: Target, level: nat, st: State, plan: StructPlan, slots: seq<Option<Typed>>, field: Field, node: FieldNode)
    requires ValidGraph(target.graph) && Settled(st) && Level(st.stack) == level && HasNode(field, node)
    ensures Traced(target, level, ObjectState(st, plan, slots), CellEvent(field), NodeQueries(target.graph, plan, node))
    decreases node
  {
    hide ValidGraph, Traced, Run, OpenQueries, ActionFor, HasHeader;
    var start := ObjectState(st, plan, slots);
    if node.children == [] {
      TracedOne(target, level, start, ScalarField(field.key, field.value.token, field.at));
      assert [Query(plan, TextOf(node.name))] + [] == [Query(plan, TextOf(node.name))];
    } else {
      GroupTrace(target, level, st, plan, slots, field, node);
    }
  }

  lemma {:induction false} GroupTrace(
      target: Target, level: nat, st: State, plan: StructPlan, slots: seq<Option<Typed>>, field: Field, node: FieldNode)
    requires ValidGraph(target.graph) && Settled(st) && Level(st.stack) == level && HasNode(field, node) && node.children != []
    ensures Traced(target, level, ObjectState(st, plan, slots), CellEvent(field), NodeQueries(target.graph, plan, node))
    decreases node, 1
  {
    var start, open := ObjectState(st, plan, slots), StartObjectField(field.key, field.at);
    var rest := CellEvents(field.value.fields) + [EndObjectField(field.value.at)];
    var inner := match ActionFor(plan, TextOf(node.name)) {
      case TakeField(index) => OpenQueries(target.graph, plan.fields[index].value, node.children)
      case _ => []
    };
    assert NodeQueries(target.graph, plan, node) == [Query(plan, TextOf(node.name))] + inner;
    assert CellEvent(field) == [open] + rest;
    hide ValidGraph, Traced, Run, OpenQueries, HasHeader, OpenObject, Forward, CellEvents, NodeQueries;
    TracedOne(target, level, start, open);
    RunOne(target, start, open);
    match ActionFor(plan, TextOf(node.name))
    case RejectKey =>
      TracedConcat(target, level, start, [open], rest, [Query(plan, TextOf(node.name))], inner);
    case SkipKey =>
      SkippedGroup(target, level, Push(st, ObjectFrame(plan, slots, None, true)).(skipDepth := 1), field);
      TracedConcat(target, level, start, [open], rest, [Query(plan, TextOf(node.name))], inner);
    case TakeField(index) =>
      var waiting := Push(st, ObjectFrame(plan, slots, Some(index), false));
      if Step(target, start, open).Ok? {
        OpenTrace(target, level, waiting, plan.fields[index].value, field.at, field.value, node.children);
      }
      TracedConcat(target, level, start, [open], rest, [Query(plan, TextOf(node.name))], inner);
  }

  lemma {:induction false} SkippedGroup(target: Target, level: nat, st: State, field: Field)
    requires ValidGraph(target.graph) && Skipping(st) && st.skipDepth == 1 && field.value.Obj?
    ensures Traced(target, level, st, CellEvents(field.value.fields) + [EndObjectField(field.value.at)], [])
  {
    hide ValidGraph, Traced, Run, DepthRun;
    DepthOfFields(field.value.fields, true, 1);
    SkipAsksNothing(target, level, st, CellEvents(field.value.fields));
    SkipFields(target, st, field.value.fields, true);
    TracedOne(target, level, st, EndObjectField(field.value.at));
    ThenClose(target, level, st, field.value, EndObjectField(field.value.at), []);
  }

  /** What stands behind an opened group asks what the group's plan and the header determine. */
  lemma {:induction false} OpenTrace(target: Target, level: nat, st: State, id: nat, at: Position, tree: Tree, nodes: seq<FieldNode>)
    requires ValidGraph(target.graph) && Ready(st) && Level(st.stack) == level && tree.Obj? && HasHeader(tree.fields, nodes) && OpenObject(target, st, id, at).Ok?
    ensures Traced(target, level, OpenObject(target, st, id, at).value, CellEvents(tree.fields) + [EndObjectField(tree.at)], OpenQueries(target.graph, id, nodes))
    decreases nodes, 2
  {
    var node := target.graph[Resolved(target.graph, id)];
    var close := EndObjectField(tree.at);
    match node.plan
    case ObjectPlan(plan) =>
      assert OpenQueries(target.graph, id, nodes) == RowQueries(target.graph, plan, nodes);
      assert OpenObject(target, st, id, at) == Ok(ObjectState(st, plan, EmptySlots(plan)));
      hide ValidGraph, Traced, Run, OpenQueries, OpenObject, RowQueries, CellEvents, ConvertFields;
      var start := ObjectState(st, plan, EmptySlots(plan));
      FieldsTrace(target, level, st, plan, EmptySlots(plan), tree.fields, nodes);
      FieldsConvert(target, st, plan, EmptySlots(plan), tree.fields, true);
      var slots := ConvertFields(target, plan, tree.fields, true, EmptySlots(plan));
      if slots.Ok? { TracedOne(target, level, ObjectState(st, plan, slots.value), close); }
      ThenClose(target, level, start, tree, close, RowQueries(target.graph, plan, nodes));
    case DictPlan(_, value) =>
      assert OpenQueries(target.graph, id, nodes) == DictQueries(target.graph, value, nodes);
      assert OpenObject(target, st, id, at) == Ok(DictState(st, [], value, node.limits));
      hide ValidGraph, Traced, Run, OpenQueries, OpenObject, DictQueries, CellEvents, ConvertPairs;
      var start := DictState(st, [], value, node.limits);
      PairsTrace(target, level, st, [], value, node.limits, tree.fields, nodes);
      PairsConvert(target, st, [], value, node.limits, tree.fields, true);
      var pairs := ConvertPairs(target, value, tree.fields, true, []);
      if pairs.Ok? { TracedOne(target, level, DictState(st, pairs.value, value, node.limits), close); }
      ThenClose(target, level, start, tree, close, DictQueries(target.graph, value, nodes));
    case AnyPlan =>
      assert OpenQueries(target.graph, id, nodes) == [];
      BeginsAny(st, tree, StartObject(at), at);
      assert OpenObject(target, st, id, at) == Ok(WithSub(st, SubOpened(tree), 1));
      AnyTrace(target, level, st, tree);
  }

  /** The closing of a group asks nothing. */
  lemma {:induction false} ThenClose(target: Target, level: nat, st: State, tree: Tree, close: Event, queries: seq<Query>)
    requires ValidGraph(target.graph) && tree.Obj? && Traced(target, level, st, CellEvents(tree.fields), queries)
    requires Run(target, st, CellEvents(tree.fields)).Ok? ==> Traced(target, level, Run(target, st, CellEvents(tree.fields)).value, [close], [])
    ensures Traced(target, level, st, CellEvents(tree.fields) + [close], queries)
  {
    hide ValidGraph, Traced, Run, CellEvents;
    TracedConcat(target, level, st, CellEvents(tree.fields), [close], queries, []);
    assert queries + [] == queries;
  }

  lemma {:induction false} AnyTrace(target: Target, level: nat, st: State, tree: Tree)
    requires ValidGraph(target.graph) && st.sub.None? && tree.Obj?
    ensures Traced(target, level, WithSub(st, SubOpened(tree), 1), CellEvents(tree.fields) + [EndObjectField(tree.at)], [])
  {
    hide ValidGraph, Traced, Run, DepthRun, CellEvents;
    var start := WithSub(st, SubOpened(tree), 1);
    DepthOfFields(tree.fields, true, 1);
    SubAsksNothing(target, level, start, CellEvents(tree.fields));
    var next := Run(target, start, CellEvents(tree.fields));
    if next.Ok? { TracedOne(target, level, next.value, EndObjectField(tree.at)); }
    ThenClose(target, level, start, tree, EndObjectField(tree.at), []);
  }

  lemma {:induction false} PairsTrace(
      target: Target, level: nat, st: State, pairs: seq<TypedPair>, id: nat, limits: Limits, fields: seq<Field>, nodes: seq<FieldNode>)
    requires ValidGraph(target.graph) && Settled(st) && Level(st.stack) == level && HasHeader(fields, nodes)
    ensures Traced(target, level, DictState(st, pairs, id, limits), CellEvents(fields), DictQueries(target.graph, id, nodes))
    decreases nodes, 1
  {
    hide ValidGraph, Traced, Run, CellEvent, OpenQueries, HasNode, ConvertChild;
    var start := DictState(st, pairs, id, limits);
    if nodes == [] {
      NothingTraced(target, level, start);
    } else {
      PairTrace(target, level, st, pairs, id, limits, fields[0], nodes[0]);
      PairConverts(target, st, pairs, id, limits, fields[0], true);
      var value := ConvertChild(target, id, fields[0], true);
      if value.Ok? {
        PairsTrace(target, level, st, SetTyped(pairs, TextOf(fields[0].key), value.value), id, limits, fields[1..], nodes[1..]);
      }
      TracedConcat(target, level, start, CellEvent(fields[0]), CellEvents(fields[1..]),
                   if nodes[0].children == [] then [] else OpenQueries(target.graph, id, nodes[0].children),
                   DictQueries(target.graph, id, nodes[1..]));
    }
  }

  lemma {:induction false} PairTrace(
      target: Target, level: nat, st: State, pairs: seq<TypedPair>, id: nat, limits: Limits, field: Field, node: FieldNode)
    requires ValidGraph(target.graph) && Settled(st) && Level(st.stack) == level && HasNode(field, node)
    ensures Traced(target, level, DictState(st, pairs, id, limits), CellEvent(field),
                   if node.children == [] then [] else OpenQueries(target.graph, id, node.children))
    decreases node
  {
    var start := DictState(st, pairs, id, limits);
    hide ValidGraph, Traced, Run, OpenQueries, HasHeader, OpenObject, Forward, ConvertScalar;
    if node.children == [] {
      TracedOne(target, level, start, ScalarField(field.key, field.value.token, field.at));
    } else {
      var open, rest := StartObjectField(field.key, field.at), CellEvents(field.value.fields) + [EndObjectField(field.value.at)];
      var waiting := Push(st, DictFrame(pairs, Some(TextOf(field.key)), id, limits));
      assert CellEvent(field) == [open] + rest;
      TracedOne(target, level, start, open);
      RunOne(target, start, open);
      if Step(target, start, open).Ok? {
        OpenTrace(target, level, waiting, id, field.at, field.value, node.children);
      }
      TracedConcat(target, level, start, [open], rest, [], OpenQueries(target.graph, id, node.children));
      assert [] + OpenQueries(target.graph, id, node.children) == OpenQueries(target.graph, id, node.children);
    }
  }

  // ----- the rows of one array ---------------------------------------------------------------------

  predicate IsRow(tree: Tree, nodes: seq<FieldNode>) {
    AsCells(tree) && HasHeader(tree.fields, nodes)
  }

  predicate AllRows(rows: seq<Tree>, nodes: seq<FieldNode>) {
    forall i :: 0 <= i < |rows| ==> IsRow(rows[i], nodes)
  }

  lemma {:induction false} CellsOnly(fields: seq<Field>, nodes: seq<FieldNode>)
    requires HasHeader(fields, nodes)
    ensures CellOnly(CellEvents(fields))
    decreases nodes
  {
    if nodes != [] {
      CellOnlyNode(fields[0], nodes[0]);
      CellsOnly(fields[1..], nodes[1..]);
      CellOnlyConcat(CellEvent(fields[0]), CellEvents(fields[1..]));
    }
  }

  lemma {:induction false} CellOnlyNode(field: Field, node: FieldNode)
    requires HasNode(field, node)
    ensures CellOnly(CellEvent(field))
    decreases node
  {
    if node.children != [] {
      CellsOnly(field.value.fields, node.children);
      CellOnlyConcat([StartObjectField(field.key, field.at)], CellEvents(field.value.fields));
      CellOnlyConcat([StartObjectField(field.key, field.at)] + CellEvents(field.value.fields), [EndObjectField(field.value.at)]);
    }
  }

  lemma {:induction false} CellOnlyConcat(a: seq<Event>, b: seq<Event>)
    requires CellOnly(a) && CellOnly(b)
    ensures CellOnly(a + b)
  {
    forall i | 0 <= i < |a + b| ensures Cell((a + b)[i]) {
      if i < |a| { assert (a + b)[i] == a[i]; } else { assert (a + b)[i] == b[i - |a|]; }
    }
  }

  lemma {:induction false} MemoConcat(target: Target, level: nat, st: State, memo: Memo, a: seq<Event>, b: seq<Event>)
    requires ValidGraph(target.graph)
    ensures MemoRun(target, level, st, memo, a + b) ==
            var first := MemoRun(target, level, st, memo, a);
            if first.state.Err? then first else MemoRun(target, level, first.state.value, first.memo, b)
    ensures Agrees(target, level, st, memo, a + b) <==>
            var first := MemoRun(target, level, st, memo, a);
            Agrees(target, level, st, memo, a) && (first.state.Ok? ==> Agrees(target, level, first.state.value, first.memo, b))
    decreases |a|
  {
    hide ValidGraph, MemoStep, Lookup, Asks, ActionFor;
    if a == [] {
      assert a + b == b;
    } else {
      assert (a + b)[1..] == a[1..] + b;
      var first := MemoStep(target, level, st, memo, a[0]);
      if first.state.Ok? { MemoConcat(target, level, first.state.value, first.memo, a[1..], b); }
    }
  }

  lemma {:induction false} MemoOne(target: Target, level: nat, st: State, memo: Memo, event: Event)
    requires ValidGraph(target.graph)
    ensures MemoRun(target, level, st, memo, [event]) == MemoStep(target, level, st, memo, event)
    ensures Own(level, st, event).None? ==> Agrees(target, level, st, memo, [event])
  {
    hide ValidGraph, MemoStep;
    var first := MemoStep(target, level, st, memo, event);
    assert [event][1..] == [];
    if first.state.Ok? { assert MemoRun(target, level, first.state.value, first.memo, []) == first; }
  }

  /** The memo between the rows of an array of structs: open before the first one, sealed behind it. */
  predicate Steady(memo: Memo, queries: seq<Query>) {
    memo.trusted && (Recording(memo, []) || Replaying(memo, queries))
  }

  /** Between rows that are no structs the memo never closes. */
  ghost predicate Loose(memo: Memo) {
    memo.trusted && !memo.complete && !memo.disabled && exists queries :: Recording(memo, queries)
  }

  ghost predicate Kept(target: Target, id: nat, memo: Memo, nodes: seq<FieldNode>)
    requires ValidGraph(target.graph) && id < |target.graph|
  {
    match target.graph[Resolved(target.graph, id)].plan
    case ObjectPlan(plan) => Steady(memo, RowQueries(target.graph, plan, nodes))
    case _ => Loose(memo)
  }

  /** Under an array whose items are of plan `id`. */
  predicate UnderArrayOf(st: State, id: nat) {
    Settled(st) && st.stack.Over? && st.stack.top.ListFrame? && st.stack.top.source == Uniform(id)
  }

  /** One row of structs: the memo is rewound, asked exactly what it was asked before, and sealed. */
  lemma {:induction false} StructRow(target: Target, level: nat, st: State, plan: StructPlan, row: Tree, memo: Memo, nodes: seq<FieldNode>)
    requires ValidGraph(target.graph) && Settled(st) && Level(st.stack) == level && UnderList(st) && IsRow(row, nodes)
    requires Steady(memo, RowQueries(target.graph, plan, nodes))
    ensures var inside := MemoRun(target, level, ObjectState(st, plan, EmptySlots(plan)), memo.(cursor := 0), CellEvents(row.fields));
            && inside.state == Run(target, ObjectState(st, plan, EmptySlots(plan)), CellEvents(row.fields))
            && Agrees(target, level, ObjectState(st, plan, EmptySlots(plan)), memo.(cursor := 0), CellEvents(row.fields))
            && (inside.state.Ok? ==> Replaying(inside.memo.(complete := true), RowQueries(target.graph, plan, nodes)) && !inside.memo.disabled)
  {
    hide ValidGraph, Run, MemoRun, Trace, RowQueries, CellEvents, CellOnly, Agrees;
    var start, queries := ObjectState(st, plan, EmptySlots(plan)), RowQueries(target.graph, plan, nodes);
    FieldsTrace(target, level, st, plan, EmptySlots(plan), row.fields, nodes);
    CellsOnly(row.fields, nodes);
    var events := CellEvents(row.fields);
    CellsAreQuiet(target, level, start, events);
    if Recording(memo, []) {
      RecordIsPlain(target, level, start, memo.(cursor := 0), events, []);
      assert [] + Trace(target, level, start, events) == Trace(target, level, start, events);
    } else {
      assert queries[0..] == queries;
      ReplayIsPlain(target, level, start, memo.(cursor := 0), events, queries);
    }
  }

  lemma {:induction false} StructRowRuns(target: Target, level: nat, st: State, id: nat, plan: StructPlan, row: Tree, memo: Memo, nodes: seq<FieldNode>)
    requires ValidGraph(target.graph) && id < |target.graph| && UnderArrayOf(st, id) && Level(st.stack) == level && IsRow(row, nodes)
    requires target.graph[Resolved(target.graph, id)].plan == ObjectPlan(plan) && Kept(target, id, memo, nodes)
    ensures MemoRun(target, level, st, memo, EventsOf(row)).state == Run(target, st, EventsOf(row)) && Agrees(target, level, st, memo, EventsOf(row))
    ensures MemoRun(target, level, st, memo, EventsOf(row)).state.Ok? ==> Kept(target, id, MemoRun(target, level, st, memo, EventsOf(row)).memo, nodes)
  {
    var open, close, start := StartObject(row.at), EndObject(row.at), ObjectState(st, plan, EmptySlots(plan));
    var queries := RowQueries(target.graph, plan, nodes);
    StructRow(target, level, st, plan, row, memo, nodes);
    RowOpens(target, level, st, id, plan, row, memo);
    hide ValidGraph, Run, MemoRun, RowQueries, CellEvents, MemoStep, Step, Replaying, Recording, HasHeader, Agrees;
    EventsAround(row);
    RunAround(target, st, open, CellEvents(row.fields), close);
    MemoConcat(target, level, st, memo, [open] + CellEvents(row.fields), [close]);
    MemoConcat(target, level, st, memo, [open], CellEvents(row.fields));
    MemoOne(target, level, st, memo, open);
    var inside := MemoRun(target, level, start, memo.(cursor := 0), CellEvents(row.fields));
    if inside.state.Ok? {
      FieldsConvert(target, st, plan, EmptySlots(plan), row.fields, true);
      var slots := ConvertFields(target, plan, row.fields, true, EmptySlots(plan)).value;
      RunOne(target, ObjectState(st, plan, slots), close);
      MemoOne(target, level, ObjectState(st, plan, slots), inside.memo, close);
      RowCloses(target, level, st, plan, slots, row, inside.memo);
    }
  }

  lemma {:induction false} RowOpens(target: Target, level: nat, st: State, id: nat, plan: StructPlan, row: Tree, memo: Memo)
    requires ValidGraph(target.graph) && id < |target.graph| && UnderArrayOf(st, id) && Level(st.stack) == level
    requires target.graph[Resolved(target.graph, id)].plan == ObjectPlan(plan)
    ensures Step(target, st, StartObject(row.at)) == Ok(ObjectState(st, plan, EmptySlots(plan)))
    ensures MemoStep(target, level, st, memo, StartObject(row.at)) == Memoed(Ok(ObjectState(st, plan, EmptySlots(plan))), memo.(cursor := 0))
  {
    hide ValidGraph, Forward;
    var start := ObjectState(st, plan, EmptySlots(plan));
    assert Step(target, st, StartObject(row.at)) == Ok(start);
    hide Step;
  }

  lemma {:induction false} RowCloses(target: Target, level: nat, st: State, plan: StructPlan, slots: seq<Option<Typed>>, row: Tree, memo: Memo)
    requires ValidGraph(target.graph) && Settled(st) && UnderList(st) && Level(st.stack) == level && !memo.disabled
    ensures var closed := MemoStep(target, level, ObjectState(st, plan, slots), memo, EndObject(row.at));
            && closed.state == Step(target, ObjectState(st, plan, slots), EndObject(row.at))
            && (closed.state.Ok? ==> closed.memo == memo.(complete := true))
  {
    hide ValidGraph, Step;
    assert Popped(ObjectState(st, plan, slots)) == st;
  }

  // ----- rows that are no structs ------------------------------------------------------------------------

  /** What an opened row that is no struct pushes, and what is left of it before its end. */
  lemma {:induction false} LooseRowRuns(target: Target, level: nat, st: State, id: nat, row: Tree, memo: Memo, nodes: seq<FieldNode>)
    requires ValidGraph(target.graph) && id < |target.graph| && UnderArrayOf(st, id) && Level(st.stack) == level && IsRow(row, nodes)
    requires !target.graph[Resolved(target.graph, id)].plan.ObjectPlan? && Loose(memo)
    ensures MemoRun(target, level, st, memo, EventsOf(row)).state == Run(target, st, EventsOf(row)) && Agrees(target, level, st, memo, EventsOf(row))
    ensures MemoRun(target, level, st, memo, EventsOf(row)).state.Ok? ==> Loose(MemoRun(target, level, st, memo, EventsOf(row)).memo)
  {
    var open, close, events := StartObject(row.at), EndObject(row.at), CellEvents(row.fields);
    CellsOnly(row.fields, nodes);
    LooseOpens(target, level, st, id, row, memo);
    hide ValidGraph, Run, MemoRun, CellEvents, MemoStep, Step, Recording, HasHeader, Agrees, CellOnly;
    EventsAround(row);
    RunAround(target, st, open, events, close);
    MemoConcat(target, level, st, memo, [open] + events, [close]);
    MemoConcat(target, level, st, memo, [open], events);
    MemoOne(target, level, st, memo, open);
    var begun := Step(target, st, open);
    if begun.Ok? {
      var queries :| Recording(memo, queries);
      CellsAreQuiet(target, level, begun.value, events);
      RecordIsPlain(target, level, begun.value, memo, events, queries);
      var inside := MemoRun(target, level, begun.value, memo, events);
      LooseHolds(inside.memo, queries + Trace(target, level, begun.value, events), memo);
      if inside.state.Ok? {
        LooseFills(target, st, id, row, inside.state.value);
        RunOne(target, inside.state.value, close);
        MemoOne(target, level, inside.state.value, inside.memo, close);
        LooseCloses(target, level, inside.state.value, row, inside.memo);
      }
    }
  }

  lemma {:induction false} LooseHolds(after: Memo, queries: seq<Query>, memo: Memo)
    requires Recording(after, queries) && after.trusted == memo.trusted && Loose(memo)
    ensures Loose(after)
  {
  }

  lemma {:induction false} LooseOpens(target: Target, level: nat, st: State, id: nat, row: Tree, memo: Memo)
    requires ValidGraph(target.graph) && id < |target.graph| && UnderArrayOf(st, id) && Level(st.stack) == level
    requires !target.graph[Resolved(target.graph, id)].plan.ObjectPlan?
    ensures MemoStep(target, level, st, memo, StartObject(row.at)) == Memoed(Step(target, st, StartObject(row.at)), memo)
    ensures Own(level, st, StartObject(row.at)).None?
  {
    var node := target.graph[Resolved(target.graph, id)];
    hide ValidGraph;
    assert Step(target, st, StartObject(row.at)) == OpenObject(target, st, id, row.at);
    if node.plan.DictPlan? {
      assert OpenObject(target, st, id, row.at) == Ok(DictState(st, [], node.plan.value, node.limits));
    } else if node.plan.AnyPlan? {
      var any := Obj(Row, [], row.at);
      BeginsAny(st, any, StartObject(row.at), row.at);
      assert OpenObject(target, st, id, row.at) == Ok(WithSub(st, SubOpened(any), 1));
    } else {
      assert OpenObject(target, st, id, row.at).Err?;
    }
  }

  /** Before its end such a row stands in a dictionary frame or in the untyped consumer. */
  lemma {:induction false} LooseFills(target: Target, st: State, id: nat, row: Tree, filled: State)
    requires ValidGraph(target.graph) && id < |target.graph| && UnderArrayOf(st, id) && AsCells(row)
    requires !target.graph[Resolved(target.graph, id)].plan.ObjectPlan?
    requires Then(target, Step(target, st, StartObject(row.at)), CellEvents(row.fields)) == Ok(filled)
    ensures filled.sub.Some? || (filled.stack.Over? && filled.stack.top.DictFrame?)
  {
    var node := target.graph[Resolved(target.graph, id)];
    hide ValidGraph, Run, CellEvents, ConvertPairs, DenoteFields;
    assert Step(target, st, StartObject(row.at)) == OpenObject(target, st, id, row.at);
    match node.plan
    case DictPlan(_, value) =>
      assert OpenObject(target, st, id, row.at) == Ok(DictState(st, [], value, node.limits));
      PairsConvert(target, st, [], value, node.limits, row.fields, true);
    case AnyPlan =>
      BeginsAny(st, row, StartObject(row.at), row.at);
      assert OpenObject(target, st, id, row.at) == Ok(WithSub(st, SubOpened(row), 1));
      SubFills(row, true);
      DepthOfBody(row, true);
      SubRuns(target, st, BodyOf(row, true), SubOpened(row), 1, SubFilled(row));
  }

  lemma {:induction false} LooseCloses(target: Target, level: nat, st: State, row: Tree, memo: Memo)
    requires ValidGraph(target.graph) && (st.sub.Some? || (st.stack.Over? && st.stack.top.DictFrame?))
    ensures MemoStep(target, level, st, memo, EndObject(row.at)) == Memoed(Step(target, st, EndObject(row.at)), memo)
    ensures Own(level, st, EndObject(row.at)).None?
  {
    hide ValidGraph, Step;
  }

  // ----- the array ------------------------------------------------------------------------------------------

  lemma {:induction false} RowLeavesArray(target: Target, st: State, id: nat, row: Tree)
    requires ValidGraph(target.graph) && UnderArrayOf(st, id) && Run(target, st, EventsOf(row)).Ok?
    ensures var next := Run(target, st, EventsOf(row)).value; UnderArrayOf(next, id) && Level(next.stack) == Level(st.stack)
  {
    hide ValidGraph, Run, EventsOf, Convert;
    TreeConverts(target, st, row, id);
  }

  lemma {:induction false} RowsReplay(target: Target, level: nat, st: State, id: nat, rows: seq<Tree>, memo: Memo, nodes: seq<FieldNode>)
    requires ValidGraph(target.graph) && id < |target.graph| && UnderArrayOf(st, id) && Level(st.stack) == level && AllRows(rows, nodes) && Kept(target, id, memo, nodes)
    ensures MemoRun(target, level, st, memo, ItemEvents(rows)).state == Run(target, st, ItemEvents(rows)) && Agrees(target, level, st, memo, ItemEvents(rows))
    decreases |rows|
  {
    hide ValidGraph, Run, MemoRun, EventsOf, Kept, Agrees, IsRow;
    if rows == [] {
      NoEvents(target, level, st, memo);
    } else {
      assert IsRow(rows[0], nodes);
      RowReplays(target, level, st, id, rows[0], memo, nodes);
      RunConcat(target, st, EventsOf(rows[0]), ItemEvents(rows[1..]));
      MemoConcat(target, level, st, memo, EventsOf(rows[0]), ItemEvents(rows[1..]));
      var first := MemoRun(target, level, st, memo, EventsOf(rows[0]));
      if first.state.Ok? {
        RowLeavesArray(target, st, id, rows[0]);
        RowsReplay(target, level, first.state.value, id, rows[1..], first.memo, nodes);
      }
    }
  }

  lemma {:induction false} NoEvents(target: Target, level: nat, st: State, memo: Memo)
    requires ValidGraph(target.graph)
    ensures MemoRun(target, level, st, memo, []) == Memoed(Ok(st), memo) && Run(target, st, []) == Ok(st) && Agrees(target, level, st, memo, [])
  {
  }

  lemma {:induction false} RowReplays(target: Target, level: nat, st: State, id: nat, row: Tree, memo: Memo, nodes: seq<FieldNode>)
    requires ValidGraph(target.graph) && id < |target.graph| && UnderArrayOf(st, id) && Level(st.stack) == level && IsRow(row, nodes) && Kept(target, id, memo, nodes)
    ensures MemoRun(target, level, st, memo, EventsOf(row)).state == Run(target, st, EventsOf(row)) && Agrees(target, level, st, memo, EventsOf(row))
    ensures MemoRun(target, level, st, memo, EventsOf(row)).state.Ok? ==> Kept(target, id, MemoRun(target, level, st, memo, EventsOf(row)).memo, nodes)
  {
    var resolved := target.graph[Resolved(target.graph, id)].plan;
    hide ValidGraph, Run, MemoRun, EventsOf, Agrees, IsRow, Steady, Loose, RowQueries;
    match resolved
    case ObjectPlan(plan) => StructRowRuns(target, level, st, id, plan, row, memo, nodes);
    case _ => LooseRowRuns(target, level, st, id, row, memo, nodes);
  }

  /** A tabular array, for any header and any number of rows: at every key of every row the memo answers as the
      frame's own plan does, so the memoized run ends as the plain one. */
  lemma {:induction false} TabularReplayIsPlain(
      target: Target, st: State, id: nat, rows: seq<Tree>, nodes: seq<FieldNode>, leafCount: nat, at: Position)
    requires ValidGraph(target.graph) && id < |target.graph| && UnderArrayOf(st, id) && AllRows(rows, nodes)
    ensures var events, level := [BeginTabular(leafCount, at)] + ItemEvents(rows), Level(st.stack);
            Agrees(target, level, st, FRESH, events) && MemoRun(target, level, st, FRESH, events).state == Run(target, st, events)
  {
    var level := Level(st.stack);
    var announced := FRESH.(trusted := true);
    assert MemoStep(target, level, st, FRESH, BeginTabular(leafCount, at)) == Memoed(Ok(st), announced);
    FreshIsKept(target, id, nodes);
    hide ValidGraph, Run, MemoRun, Kept, Agrees, MemoStep, Step;
    MemoOne(target, level, st, FRESH, BeginTabular(leafCount, at));
    MemoConcat(target, level, st, FRESH, [BeginTabular(leafCount, at)], ItemEvents(rows));
    NoAnnouncement(target, st, Some(leafCount), at, ItemEvents(rows));
    RowsReplay(target, level, st, id, rows, announced, nodes);
  }

  lemma {:induction false} FreshIsKept(target: Target, id: nat, nodes: seq<FieldNode>)
    requires ValidGraph(target.graph) && id < |target.graph|
    ensures Kept(target, id, FRESH.(trusted := true), nodes)
  {
    assert Recording(FRESH.(trusted := true), []);
  }

  // ----- tables as the parser delivers them ---------------------------------------------------------------------

  /** The rows the parser reads under one header all have that header's fields. */
  lemma {:induction false} ParsedRowsHaveHeader(
      stream: Scan.LineStream, header: Header.Header, depth: nat, strict: bool, index: nat)
    requires Grammar.TableRows(stream, header, depth, strict, index).Ok?
    ensures AllRows(Grammar.TableRows(stream, header, depth, strict, index).value.value, header.fields)
    decreases Scan.Size(stream)
  {
    hide Grammar.NextRow, Grammar.RowObject, IsRow;
    var next := Grammar.NextRow(stream, depth, strict, header.declared, index).value;
    if next.Some? {
      var row := Grammar.RowObject(header, next.value.value.content, next.value.value.at).value;
      ParsedRowHasHeader(header, next.value.value.content, next.value.value.at);
      ParsedRowsHaveHeader(next.value.rest, header, depth, strict, index + 1);
      var others := Grammar.TableRows(next.value.rest, header, depth, strict, index + 1).value.value;
      assert forall i :: 0 < i < |[row] + others| ==> ([row] + others)[i] == others[i - 1];
    }
  }

  lemma {:induction false} ParsedRowHasHeader(header: Header.Header, content: bytes, at: Position)
    requires Grammar.RowObject(header, content, at).Ok?
    ensures IsRow(Grammar.RowObject(header, content, at).value, header.fields)
  {
    ParsedFields(header.fields, Cells.SplitCells(content, header.delimiter), at);
  }

  lemma {:induction false} ParsedFields(nodes: seq<FieldNode>, cells: seq<bytes>, at: Position)
    requires |cells| >= LeafSum(nodes) && Grammar.RowFields(nodes, cells, at).Ok?
    ensures HasHeader(Grammar.RowFields(nodes, cells, at).value, nodes)
    decreases nodes
  {
    if nodes != [] {
      ParsedField(nodes[0], cells, at);
      ParsedFields(nodes[1..], cells[LeafCount(nodes[0])..], at);
      var first, others := Grammar.RowField(nodes[0], cells, at).value, Grammar.RowFields(nodes[1..], cells[LeafCount(nodes[0])..], at).value;
      assert ([first] + others)[1..] == others;
    }
  }

  lemma {:induction false} ParsedField(node: FieldNode, cells: seq<bytes>, at: Position)
    requires |cells| >= LeafCount(node) && Grammar.RowField(node, cells, at).Ok?
    ensures HasNode(Grammar.RowField(node, cells, at).value, node)
    decreases node
  {
    if node.children != [] { ParsedFields(node.children, cells, at); }
  }
}
