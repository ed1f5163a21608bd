/** The typed consumer agrees with a recursive conversion of the tree (src/typed.rs). */
module TypedTrees {
  import opened Bytes
  import opened Faults
  import opened Tokens
  import opened Escapes
  import opened Events
  import opened Values
  import opened Plans
  import opened TypedMachine
  import Untyped

  // ----- the recursive conversion ---------------------------------------------------------------

  /** The fields of a table row arrive as cells: a scalar or an object comes with its key. */
  predicate AsCells(tree: Tree) {
    tree.Obj? && tree.kind.Row?
  }

  function Convert(target: Target, id: nat, tree: Tree, open: Position, cells: bool): Result<Typed>
    requires ValidGraph(target.graph)
    decreases tree, 2
  {
    if id >= |target.graph| then Broken(open)
    else
      match tree
      case Leaf(token, _) => ConvertScalar(target, id, token, open, |target.graph|)
      case Arr(_, _, items, at) => ConvertArray(target, target.graph[Resolved(target.graph, id)], tree, items, open, at)
      case Obj(_, fields, at) => ConvertObject(target, target.graph[Resolved(target.graph, id)], tree, fields, open, at, cells)
  }

  function ConvertArray(target: Target, node: Node, tree: Tree, items: seq<Tree>, open: Position, at: Position): Result<Typed>
    requires ValidGraph(target.graph)
    decreases items, 1
  {
    match node.plan
    case ListPlan(item) => ConvertSequence(target, Uniform(item), items, false, node.limits, at)
    case TuplePlan(item) => ConvertSequence(target, Uniform(item), items, true, node.limits, at)
    case FixedPlan(plans) => ConvertSequence(target, ByPosition(plans), items, true, node.limits, at)
    case AnyPlan => Ok(Plainly(Denote(tree)))
    case _ => TypeMismatchAt(open)
  }

  function ConvertSequence(target: Target, source: Source, items: seq<Tree>, isTuple: bool, limits: Limits, at: Position): Result<Typed>
    requires ValidGraph(target.graph)
    decreases items, 0, 1
  {
    var values :- ConvertItems(target, source, items, []);
    FinishList(values, source, isTuple, limits, at)
  }

  /** Convert the items behind those in `before`; a fixed tuple has no plan for one too many. */
  function ConvertItems(target: Target, source: Source, items: seq<Tree>, before: seq<Typed>): Result<seq<Typed>>
    requires ValidGraph(target.graph)
    decreases items, 0, 0
  {
    if items == [] then Ok(before)
    else match PlanAt(source, |before|)
      case None => TypeMismatchAt(items[0].at)
      case Some(id) =>
        var value :- Convert(target, id, items[0], items[0].at, AsCells(items[0]));
        ConvertItems(target, source, items[1..], before + [value])
  }

  function ConvertObject(target: Target, node: Node, tree: Tree, fields: seq<Field>, open: Position, at: Position, cells: bool): Result<Typed>
    requires ValidGraph(target.graph)
    decreases fields, 2
  {
    match node.plan
    case ObjectPlan(plan) =>
      var slots :- ConvertFields(target, plan, fields, cells, EmptySlots(plan));
      FinishObject(plan, slots, at)
    case DictPlan(_, value) =>
      var pairs :- ConvertPairs(target, value, fields, cells, []);
      FinishDict(pairs, node.limits, at)
    case AnyPlan => Ok(Plainly(Denote(tree)))
    case _ => TypeMismatchAt(open)
  }

  function ConvertFields(target: Target, plan: StructPlan, fields: seq<Field>, cells: bool, slots: seq<Option<Typed>>): Result<seq<Option<Typed>>>
    requires ValidGraph(target.graph)
    decreases fields, 1
  {
    if fields == [] then Ok(slots)
    else
      var next :- ConvertField(target, plan, fields[0], cells, slots);
      ConvertFields(target, plan, fields[1..], cells, next)
  }

  /** One field of a struct: unknown keys are skipped or refused, known ones fill their slot. */
  function ConvertField(target: Target, plan: StructPlan, field: Field, cells: bool, slots: seq<Option<Typed>>): Result<seq<Option<Typed>>>
    requires ValidGraph(target.graph)
    decreases field, 4
  {
    match ActionFor(plan, TextOf(field.key))
    case SkipKey => Ok(slots)
    case RejectKey => Err(ValidationAt(UnknownField, field.at))
    case TakeField(index) =>
      if SlotAt(slots, index).Some? && target.strict then Err(ValidationAt(DuplicateKey, field.at))
      else
        var value :- ConvertChild(target, plan.fields[index].value, field, cells);
        Ok(WithSlot(slots, index, value))
  }

  /** The value of a field; as a cell it opens where its key stands. */
  function ConvertChild(target: Target, id: nat, field: Field, cells: bool): Result<Typed>
    requires ValidGraph(target.graph)
    decreases field, 3
  {
    if cells && !field.value.Arr? then Convert(target, id, field.value, field.at, true)
    else Convert(target, id, field.value, field.value.at, AsCells(field.value))
  }

  function ConvertPairs(target: Target, id: nat, fields: seq<Field>, cells: bool, pairs: seq<TypedPair>): Result<seq<TypedPair>>
    requires ValidGraph(target.graph)
    decreases fields, 1
  {
    if fields == [] then Ok(pairs)
    else
      var value :- ConvertChild(target, id, fields[0], cells);
      ConvertPairs(target, id, fields[1..], cells, SetTyped(pairs, TextOf(fields[0].key), value))
  }

  // ----- runs -----------------------------------------------------------------------------------

  function Then(target: Target, r: Result<State>, events: seq<Event>): Result<State>
    requires ValidGraph(target.graph)
  {
    match r case Err(fault) => Err(fault) case Ok(st) => Run(target, st, events)
  }

  lemma {:induction false} RunConcat(target: Target, st: State, a: seq<Event>, b: seq<Event>)
    requires ValidGraph(target.graph)
    ensures Run(target, st, a + b) == Then(target, Run(target, st, a), b)
    decreases |a|
  {
    hide Step, ValidGraph;
    if a == [] {
      assert a + b == b;
    } else {
      assert (a + b)[1..] == a[1..] + b;
      match Step(target, st, a[0])
      case Err(_) =>
      case Ok(next) => RunConcat(target, next, a[1..], b);
    }
  }

  lemma {:induction false} RunOne(target: Target, st: State, event: Event)
    requires ValidGraph(target.graph)
    ensures Run(target, st, [event]) == Step(target, st, event)
  {
    hide Step, ValidGraph;
    match Step(target, st, event)
    case Err(_) =>
    case Ok(next) => assert [event][1..] == [];
  }

  /** Events between an opening and a closing one. */
  lemma {:induction false} RunAround(target: Target, st: State, open: Event, body: seq<Event>, close: Event)
    requires ValidGraph(target.graph)
    ensures Run(target, st, [open] + body + [close]) == Then(target, Then(target, Step(target, st, open), body), [close])
  {
    hide Step, ValidGraph;
    RunConcat(target, st, [open] + body, [close]);
    RunConcat(target, st, [open], body);
    RunOne(target, st, open);
  }

  // ----- fused events -------------------------------------------------------------------------------

  /** No key of the innermost object waits for its value. */
  predicate BetweenFields(st: State) {
    st.stack.Over? && st.stack.top.ObjectFrame? ==> st.stack.top.awaiting.None? && !st.stack.top.skipping
  }

  /** Between fields the fused path of a cell does what the key and the value do one after the other; the end of
      a field group does in every state what the end of an object does. */
  lemma {:induction false} FusedIsPair(target: Target, st: State, event: Event)
    requires ValidGraph(target.graph) && (BetweenFields(st) || event.EndObjectField?)
    ensures Step(target, st, event) == Run(target, st, Unfused(event))
  {
    hide ValidGraph, Run, ConvertScalar, ActionFor, Resolved, SetTyped;
    match event
    case ScalarField(key, token, at) => RunPair(target, st, Key(key, at), Scalar(token, at));
    case StartObjectField(key, at) => RunPair(target, st, Key(key, at), StartObject(at));
    case EndObjectField(at) => RunOne(target, st, EndObject(at));
    case StartRepeatedObject(at) => RunOne(target, st, StartObject(at));
    case _ => RunOne(target, st, event);
  }

  lemma {:induction false} RunPair(target: Target, st: State, first: Event, second: Event)
    requires ValidGraph(target.graph)
    ensures Run(target, st, [first, second]) == Then(target, Step(target, st, first), [second])
    ensures Step(target, st, first).Ok? ==> Run(target, st, [first, second]) == Step(target, Step(target, st, first).value, second)
  {
    hide Step, ValidGraph;
    RunConcat(target, st, [first], [second]);
    RunOne(target, st, first);
    assert [first] + [second] == [first, second];
    if Step(target, st, first).Ok? { RunOne(target, Step(target, st, first).value, second); }
  }

  // ----- skipped values ---------------------------------------------------------------------------

  /** Inside a skipped value every balanced stretch of events leaves the machine as it was. */
  predicate Skipping(st: State) {
    st.sub.None? && st.skipDepth > 0
  }

  function Deeper(st: State): State {
    st.(skipDepth := st.skipDepth + 1)
  }

  lemma {:induction false} SkipOpen(target: Target, st: State, event: Event)
    requires ValidGraph(target.graph) && Skipping(st)
    requires event.StartObject? || event.StartRepeatedObject? || event.StartArray? || event.StartObjectField?
    ensures Step(target, st, event) == Ok(Deeper(st))
  {
  }

  lemma {:induction false} SkipEnd(target: Target, st: State, event: Event)
    requires ValidGraph(target.graph) && Skipping(st) && (event.EndObject? || event.EndArray? || event.EndObjectField?)
    ensures Step(target, Deeper(st), event) == Ok(st)
  {
    assert Deeper(st).(skipDepth := st.skipDepth) == st;
  }

  lemma {:induction false} SkipOther(target: Target, st: State, event: Event)
    requires ValidGraph(target.graph) && Skipping(st)
    requires event.Key? || event.Scalar? || event.ScalarField? || event.BeginTabular?
    ensures Step(target, st, event) == Ok(st)
  {
  }

  lemma {:induction false} SkipAround(target: Target, st: State, open: Event, body: seq<Event>, close: Event)
    requires ValidGraph(target.graph) && Skipping(st)
    requires open.StartObject? || open.StartRepeatedObject? || open.StartArray? || open.StartObjectField?
    requires close.EndObject? || close.EndArray? || close.EndObjectField?
    requires Run(target, Deeper(st), body) == Ok(Deeper(st))
    ensures Run(target, st, [open] + body + [close]) == Ok(st)
  {
    hide Step, ValidGraph;
    RunAround(target, st, open, body, close);
    SkipOpen(target, st, open);
    SkipEnd(target, st, close);
    RunOne(target, Deeper(st), close);
  }

  lemma {:induction false} SkipAnnounced(target: Target, st: State, leafCount: Option<nat>, at: Position, body: seq<Event>)
    requires ValidGraph(target.graph) && Skipping(st) && Run(target, st, body) == Ok(st)
    ensures Run(target, st, Announcement(leafCount, at) + body) == Ok(st)
  {
    hide Step, ValidGraph;
    RunConcat(target, st, Announcement(leafCount, at), body);
    if leafCount.Some? {
      RunOne(target, st, BeginTabular(leafCount.value, at));
      SkipOther(target, st, BeginTabular(leafCount.value, at));
    }
  }

  /** The events that spell a tree, its first and its last one set apart. */
  function Body(tree: Tree): seq<Event>
    requires !tree.Leaf?
  {
    match tree
    case Arr(_, tabular, items, at) => Announcement(tabular, at) + ItemEvents(items)
    case Obj(kind, fields, at) =>
      if kind.Row? then CellEvents(fields)
      else if kind.Table? then Announcement(Some(kind.leafCount), at) + FieldEvents(fields)
      else FieldEvents(fields)
  }

  function Opening(tree: Tree): Event
    requires !tree.Leaf?
  {
    match tree
    case Arr(declared, _, _, at) => StartArray(declared, at)
    case Obj(kind, _, at) => if kind.Repeated? then StartRepeatedObject(at) else StartObject(at)
  }

  function Closing(tree: Tree): Event
    requires !tree.Leaf?
  {
    if tree.Arr? then EndArray(tree.at) else EndObject(tree.at)
  }

  lemma {:induction false} EventsAround(tree: Tree)
    requires !tree.Leaf?
    ensures EventsOf(tree) == [Opening(tree)] + Body(tree) + [Closing(tree)]
  {
    match tree
    case Arr(declared, tabular, items, at) =>
      assert [StartArray(declared, at)] + Announcement(tabular, at) + ItemEvents(items) == [StartArray(declared, at)] + (Announcement(tabular, at) + ItemEvents(items));
    case Obj(kind, fields, at) =>
      if kind.Table? {
        assert [StartObject(at), BeginTabular(kind.leafCount, at)] + FieldEvents(fields) ==
               [StartObject(at)] + ([BeginTabular(kind.leafCount, at)] + FieldEvents(fields));
      }
  }

  lemma {:induction false} SkipTree(target: Target, st: State, tree: Tree)
    requires ValidGraph(target.graph) && Skipping(st)
    ensures Run(target, st, EventsOf(tree)) == Ok(st)
    decreases tree, 1
  {
    hide Step, ValidGraph, Run;
    match tree
    case Leaf(token, at) =>
      RunOne(target, st, Scalar(token, at));
      SkipOther(target, st, Scalar(token, at));
    case Arr(_, tabular, items, at) =>
      SkipItems(target, Deeper(st), items);
      SkipAnnounced(target, Deeper(st), tabular, at, ItemEvents(items));
      EventsAround(tree);
      SkipAround(target, st, Opening(tree), Body(tree), Closing(tree));
    case Obj(kind, fields, at) =>
      SkipFields(target, Deeper(st), fields, kind.Row?);
      if kind.Table? { SkipAnnounced(target, Deeper(st), Some(kind.leafCount), at, FieldEvents(fields)); }
      EventsAround(tree);
      SkipAround(target, st, Opening(tree), Body(tree), Closing(tree));
  }

  lemma {:induction false} SkipItems(target: Target, st: State, items: seq<Tree>)
    requires ValidGraph(target.graph) && Skipping(st)
    ensures Run(target, st, ItemEvents(items)) == Ok(st)
    decreases items, 0
  {
    hide Step, ValidGraph, EventsOf;
    if items != [] {
      SkipTree(target, st, items[0]);
      SkipItems(target, st, items[1..]);
      RunConcat(target, st, EventsOf(items[0]), ItemEvents(items[1..]));
    }
  }

  function Fused(fields: seq<Field>, cells: bool): seq<Event> {
    if cells then CellEvents(fields) else FieldEvents(fields)
  }

  function FusedOne(field: Field, cells: bool): seq<Event> {
    if cells then CellEvent(field) else FieldEvent(field)
  }

  lemma {:induction false} SkipFields(target: Target, st: State, fields: seq<Field>, cells: bool)
    requires ValidGraph(target.graph) && Skipping(st)
    ensures Run(target, st, Fused(fields, cells)) == Ok(st)
    decreases fields, 0
  {
    hide Step, ValidGraph, FusedOne;
    if fields != [] {
      SkipField(target, st, fields[0], cells);
      SkipFields(target, st, fields[1..], cells);
      FusedCons(fields, cells);
      RunConcat(target, st, FusedOne(fields[0], cells), Fused(fields[1..], cells));
    }
  }

  lemma {:induction false} FusedCons(fields: seq<Field>, cells: bool)
    requires fields != []
    ensures Fused(fields, cells) == FusedOne(fields[0], cells) + Fused(fields[1..], cells)
  {
  }

  lemma {:induction false} SkipField(target: Target, st: State, field: Field, cells: bool)
    requires ValidGraph(target.graph) && Skipping(st)
    ensures Run(target, st, FusedOne(field, cells)) == Ok(st)
    decreases field, 3
  {
    hide Step, ValidGraph, Run, EventsOf;
    if cells && field.value.Leaf? {
      RunOne(target, st, ScalarField(field.key, field.value.token, field.at));
      SkipOther(target, st, ScalarField(field.key, field.value.token, field.at));
    } else if cells && field.value.Obj? {
      SkipFields(target, Deeper(st), field.value.fields, true);
      SkipAround(target, st, StartObjectField(field.key, field.at), CellEvents(field.value.fields), EndObjectField(field.value.at));
    } else {
      RunOne(target, st, Key(field.key, field.at));
      SkipOther(target, st, Key(field.key, field.at));
      SkipTree(target, st, field.value);
      KeyThenValue(target, st, field);
    }
  }

  lemma {:induction false} KeyThenValue(target: Target, st: State, field: Field)
    requires ValidGraph(target.graph)
    ensures Run(target, st, FieldEvent(field)) == Then(target, Step(target, st, Key(field.key, field.at)), EventsOf(field.value))
    ensures !(field.value.Leaf? || field.value.Obj?) ==> CellEvent(field) == FieldEvent(field)
  {
    hide Step, ValidGraph, EventsOf;
    RunConcat(target, st, [Key(field.key, field.at)], EventsOf(field.value));
    RunOne(target, st, Key(field.key, field.at));
  }
}
