/** Fed with the events of a tree, the frame stack ends in what the recursive conversion gives (src/typed.rs). */
module TypedProof {
  import opened Bytes
  import opened Faults
  import opened Tokens
  import opened Escapes
  import opened Events
  import opened Values
  import opened Plans
  import opened TypedMachine
  import opened TypedTrees
  import Untyped

  // ----- `Any` subtrees ---------------------------------------------------------------------------

  /** The number of open containers after `events`; `None` when it reaches zero on the way. */
  function DepthRun(events: seq<Event>, depth: nat): Option<nat>
    decreases |events|
  {
    if events == [] then Some(depth)
    else if DepthAfter(events[0], depth) == 0 then None
    else DepthRun(events[1..], DepthAfter(events[0], depth))
  }

  lemma {:induction false} DepthConcat(a: seq<Event>, b: seq<Event>, depth: nat)
    requires DepthRun(a, depth) == Some(depth) && DepthRun(b, depth) == Some(depth)
    ensures DepthRun(a + b, depth) == Some(depth)
  {
    DepthThen(a, b, depth);
  }

  lemma {:induction false} DepthThen(a: seq<Event>, b: seq<Event>, depth: nat)
    requires DepthRun(a, depth).Some?
    ensures DepthRun(a + b, depth) == DepthRun(b, DepthRun(a, depth).value)
    decreases |a|
  {
    if a == [] {
      assert a + b == b;
    } else {
      assert (a + b)[1..] == a[1..] + b;
      DepthThen(a[1..], b, DepthAfter(a[0], depth));
    }
  }

  lemma {:induction false} DepthAround(open: Event, body: seq<Event>, close: Event, depth: nat)
    requires depth > 0 && DepthAfter(open, depth) == depth + 1 && DepthAfter(close, depth + 1) == depth
    requires DepthRun(body, depth + 1) == Some(depth + 1)
    ensures DepthRun([open] + body + [close], depth) == Some(depth)
  {
    assert [open][1..] == [] && [close][1..] == [];
    DepthThen([open], body, depth);
    DepthThen([open] + body, [close], depth);
  }

  lemma {:induction false} DepthAnnounced(leafCount: Option<nat>, at: Position, body: seq<Event>, depth: nat)
    requires depth > 0 && DepthRun(body, depth) == Some(depth)
    ensures DepthRun(Announcement(leafCount, at) + body, depth) == Some(depth)
  {
    if leafCount.Some? { assert [BeginTabular(leafCount.value, at)][1..] == []; }
    DepthConcat(Announcement(leafCount, at), body, depth);
  }

  lemma {:induction false} DepthOfTree(tree: Tree, depth: nat)
    requires depth > 0
    ensures DepthRun(EventsOf(tree), depth) == Some(depth)
    decreases tree, 1
  {
    match tree
    case Leaf(token, at) => assert [Scalar(token, at)][1..] == [];
    case Arr(_, tabular, items, at) =>
      DepthOfItems(items, depth + 1);
      DepthAnnounced(tabular, at, ItemEvents(items), depth + 1);
      EventsAround(tree);
      DepthAround(Opening(tree), Body(tree), Closing(tree), depth);
    case Obj(kind, fields, at) =>
      DepthOfFields(fields, kind.Row?, depth + 1);
      if kind.Table? { DepthAnnounced(Some(kind.leafCount), at, FieldEvents(fields), depth + 1); }
      EventsAround(tree);
      DepthAround(Opening(tree), Body(tree), Closing(tree), depth);
  }

  lemma {:induction false} DepthOfItems(items: seq<Tree>, depth: nat)
    requires depth > 0
    ensures DepthRun(ItemEvents(items), depth) == Some(depth)
    decreases items, 0
  {
    if items != [] {
      DepthOfTree(items[0], depth);
      DepthOfItems(items[1..], depth);
      DepthConcat(EventsOf(items[0]), ItemEvents(items[1..]), depth);
    }
  }

  lemma {:induction false} DepthOfFields(fields: seq<Field>, cells: bool, depth: nat)
    requires depth > 0
    ensures DepthRun(Fused(fields, cells), depth) == Some(depth)
    decreases fields, 0
  {
    if fields != [] {
      DepthOfField(fields[0], cells, depth);
      DepthOfFields(fields[1..], cells, depth);
      FusedCons(fields, cells);
      DepthConcat(FusedOne(fields[0], cells), Fused(fields[1..], cells), depth);
    }
  }

  lemma {:induction false} DepthOfField(field: Field, cells: bool, depth: nat)
    requires depth > 0
    ensures DepthRun(FusedOne(field, cells), depth) == Some(depth)
    decreases field, 3
  {
    if cells && field.value.Leaf? {
      assert [ScalarField(field.key, field.value.token, field.at)][1..] == [];
    } else if cells && field.value.Obj? {
      DepthOfFields(field.value.fields, true, depth + 1);
      DepthAround(StartObjectField(field.key, field.at), CellEvents(field.value.fields), EndObjectField(field.value.at), depth);
    } else {
      assert [Key(field.key, field.at)][1..] == [];
      DepthOfTree(field.value, depth);
      DepthConcat([Key(field.key, field.at)], EventsOf(field.value), depth);
      assert FusedOne(field, cells) == FieldEvent(field) == [Key(field.key, field.at)] + EventsOf(field.value);
    }
  }

  function WithSub(st: State, s: Untyped.State, depth: nat): State {
    st.(sub := Some(Sub(s, depth)))
  }

  /** While containers are open the untyped consumer sees every event as it would alone. */
  lemma {:induction false} SubStep(target: Target, st: State, event: Event, s: Untyped.State, depth: nat, next: Untyped.State)
    requires ValidGraph(target.graph) && depth > 0 && DepthAfter(event, depth) > 0 && Untyped.Step(s, event) == Ok(next)
    ensures Step(target, WithSub(st, s, depth), event) == Ok(WithSub(st, next, DepthAfter(event, depth)))
  {
    hide ValidGraph, Place, CloseObject, CloseArray, Expected;
    var sub := WithSub(st, s, depth);
    match event
    case ScalarField(key, token, at) =>
      var keyed := Untyped.TakeKey(s, key, at).value;
      assert Forward(sub, Key(key, at), at) == Ok(WithSub(st, keyed, depth));
      assert Forward(WithSub(st, keyed, depth), Scalar(token, at), at) == Ok(WithSub(st, next, depth));
    case StartObjectField(key, at) =>
      var keyed := Untyped.TakeKey(s, key, at).value;
      assert Forward(sub, Key(key, at), at) == Ok(WithSub(st, keyed, depth));
      assert Forward(WithSub(st, keyed, depth), StartObject(at), at) == Ok(WithSub(st, next, depth + 1));
    case _ =>
  }

  lemma {:induction false} SubRuns(target: Target, st: State, events: seq<Event>, s: Untyped.State, depth: nat, next: Untyped.State)
    requires ValidGraph(target.graph) && depth > 0 && DepthRun(events, depth).Some? && Untyped.Run(s, events) == Ok(next)
    ensures Run(target, WithSub(st, s, depth), events) == Ok(WithSub(st, next, DepthRun(events, depth).value))
    decreases |events|
  {
    hide ValidGraph, Step, Untyped.Step, DepthAfter;
    if events != [] {
      var middle := Untyped.Step(s, events[0]).value;
      SubStep(target, st, events[0], s, depth, middle);
      SubRuns(target, st, events[1..], middle, DepthAfter(events[0], depth), next);
    }
  }

  /** The untyped consumer right after a container's opening, and with its contents. */
  function SubOpened(tree: Tree): Untyped.State {
    Untyped.Push(Untyped.State([], None), if tree.Arr? then Untyped.ListBuilder([]) else Untyped.DictBuilder([], None))
  }

  function SubFilled(tree: Tree): Untyped.State
    requires !tree.Leaf?
  {
    Untyped.Push(Untyped.State([], None),
                 if tree.Arr? then Untyped.ListBuilder(DenoteItems(tree.items)) else Untyped.DictBuilder(DenoteFields(tree.fields, []), None))
  }

  function BodyOf(tree: Tree, cells: bool): seq<Event>
    requires !tree.Leaf?
  {
    if tree.Obj? && cells then CellEvents(tree.fields) else Body(tree)
  }

  lemma {:induction false} ReplaceTop(st: Untyped.State, a: Untyped.Builder, b: Untyped.Builder)
    ensures Untyped.Replace(Untyped.Push(st, a), b) == Untyped.Push(st, b) && Untyped.Pop(Untyped.Push(st, a)) == st
    ensures Untyped.Top(Untyped.Push(st, a)) == a
  {
    assert (st.stack + [a])[..|st.stack|] == st.stack;
  }

  lemma {:induction false} UntypedAnnounced(s: Untyped.State, leafCount: Option<nat>, at: Position, body: seq<Event>)
    ensures Untyped.Run(s, Announcement(leafCount, at) + body) == Untyped.Run(s, body)
  {
    hide Untyped.Step;
    Untyped.AnnouncementIsIgnored(s, leafCount, at);
    Untyped.RunConcat(s, Announcement(leafCount, at), body);
  }

  lemma {:induction false} SubFills(tree: Tree, cells: bool)
    requires !tree.Leaf?
    ensures Untyped.Run(SubOpened(tree), BodyOf(tree, cells)) == Ok(SubFilled(tree))
  {
    var start, empty := SubOpened(tree), Untyped.State([], None);
    hide Untyped.Run, Untyped.Step, DenoteFields, DenoteItems;
    match tree
    case Arr(_, tabular, items, at) =>
      ReplaceTop(empty, Untyped.ListBuilder([]), Untyped.ListBuilder(DenoteItems(items)));
      Untyped.ItemsBuild(start, items);
      assert [] + DenoteItems(items) == DenoteItems(items);
      UntypedAnnounced(start, tabular, at, ItemEvents(items));
    case Obj(kind, fields, at) =>
      ReplaceTop(empty, Untyped.DictBuilder([], None), Untyped.DictBuilder(DenoteFields(fields, []), None));
      if cells || kind.Row? {
        Untyped.CellsBuild(start, fields);
      } else {
        Untyped.FieldsBuild(start, fields);
        if kind.Table? { UntypedAnnounced(start, Some(kind.leafCount), at, FieldEvents(fields)); }
      }
  }

  lemma {:induction false} DepthOfBody(tree: Tree, cells: bool)
    requires !tree.Leaf?
    ensures DepthRun(BodyOf(tree, cells), 1) == Some(1)
  {
    match tree
    case Arr(_, tabular, items, at) =>
      DepthOfItems(items, 1);
      DepthAnnounced(tabular, at, ItemEvents(items), 1);
    case Obj(kind, fields, at) =>
      DepthOfFields(fields, cells || kind.Row?, 1);
      if kind.Table? && !cells { DepthAnnounced(Some(kind.leafCount), at, FieldEvents(fields), 1); }
  }

  /** A container opened as `Any`: its contents and closing place the value it denotes. */
  lemma {:induction false} AnyConverts(target: Target, st: State, tree: Tree, cells: bool, close: Event)
    requires ValidGraph(target.graph) && st.sub.None? && !tree.Leaf?
    requires close == Closing(tree) || (tree.Obj? && close == EndObjectField(tree.at))
    ensures Then(target, Run(target, WithSub(st, SubOpened(tree), 1), BodyOf(tree, cells)), [close]) == Place(st, Plainly(Denote(tree)), tree.at)
  {
    hide ValidGraph, Step, Untyped.Run, DenoteFields, DenoteItems, Place;
    SubFills(tree, cells);
    DepthOfBody(tree, cells);
    SubRuns(target, st, BodyOf(tree, cells), SubOpened(tree), 1, SubFilled(tree));
    var filled := WithSub(st, SubFilled(tree), 1);
    RunOne(target, filled, close);
    AnyCloses(target, st, tree, close);
  }

  lemma {:induction false} AnyCloses(target: Target, st: State, tree: Tree, close: Event)
    requires ValidGraph(target.graph) && st.sub.None? && !tree.Leaf?
    requires close == Closing(tree) || (tree.Obj? && close == EndObjectField(tree.at))
    ensures Step(target, WithSub(st, SubFilled(tree), 1), close) == Place(st, Plainly(Denote(tree)), tree.at)
  {
    hide ValidGraph, DenoteFields, DenoteItems, Place, TypedMachine.CloseObject, TypedMachine.CloseArray;
    var empty := Untyped.State([], None);
    if tree.Arr? {
      ReplaceTop(empty, Untyped.ListBuilder(DenoteItems(tree.items)), Untyped.ListBuilder([]));
    } else {
      ReplaceTop(empty, Untyped.DictBuilder(DenoteFields(tree.fields, []), None), Untyped.DictBuilder([], None));
    }
    assert Untyped.Step(SubFilled(tree), Closing(tree)) == Ok(Untyped.State([], Some(Denote(tree))));
    assert WithSub(st, SubFilled(tree), 1).(sub := None) == st;
    assert Forward(WithSub(st, SubFilled(tree), 1), Closing(tree), tree.at) == Place(st, Plainly(Denote(tree)), tree.at);
  }

  // ----- states that take a value -----------------------------------------------------------------

  predicate Settled(st: State) {
    st.sub.None? && st.skipDepth == 0
  }

  /** The innermost frame waits for a value. */
  predicate Ready(st: State) {
    && Settled(st)
    && match st.stack
       case Over(ObjectFrame(plan, _, awaiting, skipping), _) => !skipping && awaiting.Some? && awaiting.value < |plan.fields|
       case Over(DictFrame(_, pending, _, _), _) => pending.Some?
       case _ => true
  }

  /** Opening, contents and closing of a container, one after the other. */
  function Through(target: Target, begun: Result<State>, body: seq<Event>, close: Event): Result<State>
    requires ValidGraph(target.graph)
  {
    Then(target, Then(target, begun, body), [close])
  }

  predicate Closes(tree: Tree, close: Event) {
    !tree.Leaf? && (close == Closing(tree) || (tree.Obj? && close == EndObjectField(tree.at)))
  }

  lemma {:induction false} NoAnnouncement(target: Target, st: State, leafCount: Option<nat>, at: Position, body: seq<Event>)
    requires ValidGraph(target.graph)
    ensures Run(target, st, Announcement(leafCount, at) + body) == Run(target, st, body)
  {
    hide ValidGraph;
    RunConcat(target, st, Announcement(leafCount, at), body);
    if leafCount.Some? { RunOne(target, st, BeginTabular(leafCount.value, at)); }
  }

  // ----- sequences ------------------------------------------------------------------------------------

  /** A saturated fixed tuple refuses whatever comes. */
  lemma {:induction false} SaturatedFails(target: Target, st: State, tree: Tree)
    requires ValidGraph(target.graph) && Ready(st) && st.stack.Over? && st.stack.top.ListFrame?
    requires PlanAt(st.stack.top.source, |st.stack.top.items|).None?
    ensures Run(target, st, EventsOf(tree)) == TypeMismatchAt(tree.at)
  {
    hide ValidGraph, PlanAt, Forward, OpenArray, OpenObject, ConvertScalar;
    if tree.Leaf? {
      RunOne(target, st, Scalar(tree.token, tree.at));
    } else {
      EventsAround(tree);
      RunAround(target, st, Opening(tree), Body(tree), Closing(tree));
    }
  }

  /** The list on top holds the converted items, unless one failed. */
  function WithItems(st: State, items: Result<seq<Typed>>, source: Source, isTuple: bool, limits: Limits): Result<State>
    requires st.stack.Over?
  {
    match items
    case Err(fault) => Err(fault)
    case Ok(values) => Ok(WithTop(st, ListFrame(values, source, isTuple, limits)))
  }

  lemma {:induction false} ItemsConvert(
      target: Target, st: State, items: seq<Tree>, source: Source, before: seq<Typed>, isTuple: bool, limits: Limits)
    requires ValidGraph(target.graph) && Settled(st) && st.stack.Over? && st.stack.top == ListFrame(before, source, isTuple, limits)
    ensures Run(target, st, ItemEvents(items)) ==
            WithItems(st, ConvertItems(target, source, items, before), source, isTuple, limits)
    decreases items, 0
  {
    hide ValidGraph, Run, EventsOf, Convert, AsCells;
    if items == [] {
      NothingRuns(target, st);
    } else {
      RunConcat(target, st, EventsOf(items[0]), ItemEvents(items[1..]));
      match PlanAt(source, |before|)
      case None => SaturatedFails(target, st, items[0]);
      case Some(id) =>
        TreeConverts(target, st, items[0], id);
        var value := Convert(target, id, items[0], items[0].at, AsCells(items[0]));
        if value.Ok? {
          var next := WithTop(st, ListFrame(before + [value.value], source, isTuple, limits));
          ItemsConvert(target, next, items[1..], source, before + [value.value], isTuple, limits);
        }
    }
  }

  lemma {:induction false} NothingRuns(target: Target, st: State)
    requires ValidGraph(target.graph)
    ensures Run(target, st, []) == Ok(st)
  {
  }

  lemma {:induction false} SequenceConverts(
      target: Target, st: State, tree: Tree, items: seq<Tree>, source: Source, isTuple: bool, limits: Limits)
    requires ValidGraph(target.graph) && Settled(st) && tree.Arr? && items == tree.items
    ensures Through(target, Ok(Push(st, ListFrame([], source, isTuple, limits))), Body(tree), EndArray(tree.at)) ==
            Finished(st, ConvertSequence(target, source, items, isTuple, limits, tree.at), tree.at)
    decreases items, 1
  {
    hide ValidGraph, Run, ConvertItems, FinishList, Place, Step;
    var start := Push(st, ListFrame([], source, isTuple, limits));
    NoAnnouncement(target, start, tree.tabular, tree.at, ItemEvents(items));
    ItemsConvert(target, start, items, source, [], isTuple, limits);
    var values := ConvertItems(target, source, items, []);
    if values.Ok? {
      var filled := WithTop(start, ListFrame(values.value, source, isTuple, limits));
      RunOne(target, filled, EndArray(tree.at));
      ListCloses(target, st, filled, values.value, source, isTuple, limits, tree.at);
    }
  }

  lemma {:induction false} ListCloses(
      target: Target, st: State, filled: State, values: seq<Typed>, source: Source, isTuple: bool, limits: Limits, at: Position)
    requires ValidGraph(target.graph) && Settled(st) && filled == Push(st, ListFrame(values, source, isTuple, limits))
    ensures Step(target, filled, EndArray(at)) == Finished(st, FinishList(values, source, isTuple, limits, at), at)
  {
    hide ValidGraph, FinishList, Place;
    assert Popped(filled) == st;
  }

  // ----- objects --------------------------------------------------------------------------------------

  function ObjectState(st: State, plan: StructPlan, slots: seq<Option<Typed>>): State {
    Push(st, ObjectFrame(plan, slots, None, false))
  }

  function DictState(st: State, pairs: seq<TypedPair>, value: nat, limits: Limits): State {
    Push(st, DictFrame(pairs, None, value, limits))
  }

  lemma {:induction false} FieldsConvert(target: Target, st: State, plan: StructPlan, slots: seq<Option<Typed>>, fields: seq<Field>, cells: bool)
    requires ValidGraph(target.graph) && Settled(st)
    ensures Run(target, ObjectState(st, plan, slots), Fused(fields, cells)) ==
            match ConvertFields(target, plan, fields, cells, slots) {
              case Err(fault) => Err(fault)
              case Ok(filled) => Ok(ObjectState(st, plan, filled))
            }
    decreases fields, 0
  {
    hide ValidGraph, Run, FusedOne, ConvertField;
    if fields == [] {
      NothingRuns(target, ObjectState(st, plan, slots));
    } else {
      FusedCons(fields, cells);
      RunConcat(target, ObjectState(st, plan, slots), FusedOne(fields[0], cells), Fused(fields[1..], cells));
      FieldConverts(target, st, plan, slots, fields[0], cells);
      var next := ConvertField(target, plan, fields[0], cells, slots);
      if next.Ok? { FieldsConvert(target, st, plan, next.value, fields[1..], cells); }
    }
  }

  /** An unknown field's value is passed over, whatever it is. */
  lemma {:induction false} ValueIsSkipped(target: Target, st: State, plan: StructPlan, slots: seq<Option<Typed>>, tree: Tree)
    requires ValidGraph(target.graph) && Settled(st)
    ensures Run(target, Push(st, ObjectFrame(plan, slots, None, true)), EventsOf(tree)) == Ok(ObjectState(st, plan, slots))
  {
    var skipping := Push(st, ObjectFrame(plan, slots, None, true));
    var inside := skipping.(skipDepth := 1);
    hide ValidGraph, Run, EventsOf;
    if tree.Leaf? {
      RunOne(target, skipping, Scalar(tree.token, tree.at));
      assert EventsOf(tree) == [Scalar(tree.token, tree.at)] by { LeafEvents(tree); }
    } else {
      EventsAround(tree);
      RunAround(target, skipping, Opening(tree), Body(tree), Closing(tree));
      SkipBody(target, inside, tree);
      RunOne(target, inside, Closing(tree));
      assert inside.(skipDepth := 0) == skipping;
    }
  }

  lemma {:induction false} LeafEvents(tree: Tree)
    requires tree.Leaf?
    ensures EventsOf(tree) == [Scalar(tree.token, tree.at)]
  {
  }

  lemma {:induction false} SkipBody(target: Target, st: State, tree: Tree)
    requires ValidGraph(target.graph) && Skipping(st) && !tree.Leaf?
    ensures Run(target, st, Body(tree)) == Ok(st)
  {
    hide ValidGraph, Run;
    match tree
    case Arr(_, tabular, items, at) =>
      SkipItems(target, st, items);
      SkipAnnounced(target, st, tabular, at, ItemEvents(items));
    case Obj(kind, fields, at) =>
      SkipFields(target, st, fields, kind.Row?);
      if kind.Table? { SkipAnnounced(target, st, Some(kind.leafCount), at, FieldEvents(fields)); }
  }

  lemma {:induction false} FieldConverts(target: Target, st: State, plan: StructPlan, slots: seq<Option<Typed>>, field: Field, cells: bool)
    requires ValidGraph(target.graph) && Settled(st)
    ensures Run(target, ObjectState(st, plan, slots), FusedOne(field, cells)) ==
            match ConvertField(target, plan, field, cells, slots) {
              case Err(fault) => Err(fault)
              case Ok(filled) => Ok(ObjectState(st, plan, filled))
            }
    decreases field, 4
  {
    hide ValidGraph, Run, EventsOf, Convert;
    if cells && field.value.Leaf? {
      RunOne(target, ObjectState(st, plan, slots), ScalarField(field.key, field.value.token, field.at));
      LeafCellConverts(target, st, plan, slots, field);
    } else if cells && field.value.Obj? {
      ObjectCellConverts(target, st, plan, slots, field);
    } else {
      assert FusedOne(field, cells) == FieldEvent(field) by { KeyThenValue(target, st, field); }
      KeyedFieldConverts(target, st, plan, slots, field);
      assert ConvertChild(target, 0, field, cells) == ConvertChild(target, 0, field, false);
      SameField(target, plan, slots, field, cells);
    }
  }

  lemma {:induction false} SameField(target: Target, plan: StructPlan, slots: seq<Option<Typed>>, field: Field, cells: bool)
    requires ValidGraph(target.graph) && !(cells && !field.value.Arr?)
    ensures ConvertField(target, plan, field, cells, slots) == ConvertField(target, plan, field, false, slots)
  {
    hide ValidGraph, Convert;
  }

  lemma {:induction false} LeafCellConverts(target: Target, st: State, plan: StructPlan, slots: seq<Option<Typed>>, field: Field)
    requires ValidGraph(target.graph) && Settled(st) && field.value.Leaf?
    ensures Step(target, ObjectState(st, plan, slots), ScalarField(field.key, field.value.token, field.at)) ==
            match ConvertField(target, plan, field, true, slots) {
              case Err(fault) => Err(fault)
              case Ok(filled) => Ok(ObjectState(st, plan, filled))
            }
  {
    hide ConvertScalar, ActionFor, Forward;
    match ActionFor(plan, TextOf(field.key))
    case TakeField(index) => LeafChild(target, plan.fields[index].value, field);
    case _ =>
  }

  lemma {:induction false} LeafChild(target: Target, id: nat, field: Field)
    requires ValidGraph(target.graph) && field.value.Leaf?
    ensures ConvertChild(target, id, field, true) ==
            if id >= |target.graph| then Broken(field.at) else ConvertScalar(target, id, field.value.token, field.at, |target.graph|)
  {
    hide ConvertScalar;
  }

  lemma {:induction false} KeyedFieldConverts(target: Target, st: State, plan: StructPlan, slots: seq<Option<Typed>>, field: Field)
    requires ValidGraph(target.graph) && Settled(st)
    ensures Run(target, ObjectState(st, plan, slots), FieldEvent(field)) ==
            match ConvertField(target, plan, field, false, slots) {
              case Err(fault) => Err(fault)
              case Ok(filled) => Ok(ObjectState(st, plan, filled))
            }
    decreases field, 3
  {
    hide ValidGraph, Run, EventsOf, Convert, ActionFor, Forward;
    var start := ObjectState(st, plan, slots);
    KeyThenValue(target, start, field);
    match ActionFor(plan, TextOf(field.key))
    case RejectKey =>
    case SkipKey => ValueIsSkipped(target, st, plan, slots, field.value);
    case TakeField(index) =>
      if !(SlotAt(slots, index).Some? && target.strict) {
        SlotConverts(target, st, plan, slots, index, field);
      }
  }

  lemma {:induction false} SlotConverts(target: Target, st: State, plan: StructPlan, slots: seq<Option<Typed>>, index: nat, field: Field)
    requires ValidGraph(target.graph) && Settled(st) && index < |plan.fields|
    ensures Run(target, Push(st, ObjectFrame(plan, slots, Some(index), false)), EventsOf(field.value)) ==
            match ConvertChild(target, plan.fields[index].value, field, false) {
              case Err(fault) => Err(fault)
              case Ok(value) => Ok(ObjectState(st, plan, WithSlot(slots, index, value)))
            }
    decreases field, 2
  {
    hide ValidGraph, Run, EventsOf, Convert;
    TreeConverts(target, Push(st, ObjectFrame(plan, slots, Some(index), false)), field.value, plan.fields[index].value);
  }

  lemma {:induction false} ObjectCellConverts(target: Target, st: State, plan: StructPlan, slots: seq<Option<Typed>>, field: Field)
    requires ValidGraph(target.graph) && Settled(st) && field.value.Obj?
    ensures Run(target, ObjectState(st, plan, slots), CellEvent(field)) ==
            match ConvertField(target, plan, field, true, slots) {
              case Err(fault) => Err(fault)
              case Ok(filled) => Ok(ObjectState(st, plan, filled))
            }
    decreases field, 3
  {
    hide ValidGraph, Run, Convert, ActionFor, Forward, OpenObject, Place;
    var start := ObjectState(st, plan, slots);
    RunAround(target, start, StartObjectField(field.key, field.at), CellEvents(field.value.fields), EndObjectField(field.value.at));
    match ActionFor(plan, TextOf(field.key))
    case RejectKey =>
    case SkipKey => CellIsSkipped(target, st, plan, slots, field);
    case TakeField(index) =>
      if !(SlotAt(slots, index).Some? && target.strict) {
        var waiting := Push(st, ObjectFrame(plan, slots, Some(index), false));
        OpenedConverts(target, waiting, field.value, plan.fields[index].value, field.at, true, EndObjectField(field.value.at));
        PlaceInSlot(st, plan, slots, index, ConvertChild(target, plan.fields[index].value, field, true), field.value.at);
      }
  }

  lemma {:induction false} PlaceInSlot(st: State, plan: StructPlan, slots: seq<Option<Typed>>, index: nat, r: Result<Typed>, at: Position)
    ensures Finished(Push(st, ObjectFrame(plan, slots, Some(index), false)), r, at) ==
            match r { case Err(fault) => Err(fault) case Ok(value) => Ok(ObjectState(st, plan, WithSlot(slots, index, value))) }
  {
  }

  lemma {:induction false} CellIsSkipped(target: Target, st: State, plan: StructPlan, slots: seq<Option<Typed>>, field: Field)
    requires ValidGraph(target.graph) && Settled(st) && field.value.Obj? && ActionFor(plan, TextOf(field.key)).SkipKey?
    ensures Through(target, Step(target, ObjectState(st, plan, slots), StartObjectField(field.key, field.at)),
                    CellEvents(field.value.fields), EndObjectField(field.value.at)) == Ok(ObjectState(st, plan, slots))
  {
    var skipping := Push(st, ObjectFrame(plan, slots, None, true));
    var inside := skipping.(skipDepth := 1);
    hide ValidGraph, Run, ActionFor, Forward;
    assert Step(target, ObjectState(st, plan, slots), StartObjectField(field.key, field.at)) == Ok(inside);
    SkipFields(target, inside, field.value.fields, true);
    RunOne(target, inside, EndObjectField(field.value.at));
    assert inside.(skipDepth := 0) == skipping;
  }

  // ----- dictionaries -----------------------------------------------------------------------------------

  /** The dictionary on top holds the converted value under its key, unless the conversion failed. */
  function WithPair(st: State, pairs: seq<TypedPair>, key: bytes, r: Result<Typed>, id: nat, limits: Limits): Result<State> {
    match r
    case Err(fault) => Err(fault)
    case Ok(value) => Ok(DictState(st, SetTyped(pairs, key, value), id, limits))
  }

  lemma {:induction false} PairsConvert(
      target: Target, st: State, pairs: seq<TypedPair>, id: nat, limits: Limits, fields: seq<Field>, cells: bool)
    requires ValidGraph(target.graph) && Settled(st)
    ensures Run(target, DictState(st, pairs, id, limits), Fused(fields, cells)) ==
            match ConvertPairs(target, id, fields, cells, pairs) {
              case Err(fault) => Err(fault)
              case Ok(filled) => Ok(DictState(st, filled, id, limits))
            }
    decreases fields, 0
  {
    hide ValidGraph, Run, FusedOne, ConvertChild;
    if fields == [] {
      NothingRuns(target, DictState(st, pairs, id, limits));
    } else {
      FusedCons(fields, cells);
      RunConcat(target, DictState(st, pairs, id, limits), FusedOne(fields[0], cells), Fused(fields[1..], cells));
      PairConverts(target, st, pairs, id, limits, fields[0], cells);
      var value := ConvertChild(target, id, fields[0], cells);
      if value.Ok? { PairsConvert(target, st, SetTyped(pairs, TextOf(fields[0].key), value.value), id, limits, fields[1..], cells); }
    }
  }

  lemma {:induction false} PairConverts(
      target: Target, st: State, pairs: seq<TypedPair>, id: nat, limits: Limits, field: Field, cells: bool)
    requires ValidGraph(target.graph) && Settled(st)
    ensures Run(target, DictState(st, pairs, id, limits), FusedOne(field, cells)) ==
            WithPair(st, pairs, TextOf(field.key), ConvertChild(target, id, field, cells), id, limits)
    decreases field, 4
  {
    hide ValidGraph, Run, EventsOf, Convert, Forward, OpenObject, ConvertScalar;
    var start := DictState(st, pairs, id, limits);
    var waiting := Push(st, DictFrame(pairs, Some(TextOf(field.key)), id, limits));
    if cells && field.value.Leaf? {
      RunOne(target, start, ScalarField(field.key, field.value.token, field.at));
      LeafPairConverts(target, st, pairs, id, limits, field);
    } else if cells && field.value.Obj? {
      RunAround(target, start, StartObjectField(field.key, field.at), CellEvents(field.value.fields), EndObjectField(field.value.at));
      OpenedConverts(target, waiting, field.value, id, field.at, true, EndObjectField(field.value.at));
    } else {
      assert FusedOne(field, cells) == FieldEvent(field) by { KeyThenValue(target, st, field); }
      KeyThenValue(target, start, field);
      TreeConverts(target, waiting, field.value, id);
    }
  }

  lemma {:induction false} LeafPairConverts(target: Target, st: State, pairs: seq<TypedPair>, id: nat, limits: Limits, field: Field)
    requires ValidGraph(target.graph) && Settled(st) && field.value.Leaf?
    ensures Step(target, DictState(st, pairs, id, limits), ScalarField(field.key, field.value.token, field.at)) ==
            WithPair(st, pairs, TextOf(field.key), ConvertChild(target, id, field, true), id, limits)
  {
    hide ConvertScalar, Forward;
    var waiting := Push(st, DictFrame(pairs, Some(TextOf(field.key)), id, limits));
    LeafChild(target, id, field);
    assert OnKey(target, DictState(st, pairs, id, limits), field.key, field.at) == Ok(waiting);
    assert OnScalar(target, waiting, field.value.token, field.at) ==
           if id >= |target.graph| then Broken(field.at)
           else Finished(waiting, ConvertScalar(target, id, field.value.token, field.at, |target.graph|), field.at);
  }

  // ----- containers ---------------------------------------------------------------------------------------

  lemma {:induction false} ObjectCloses(target: Target, st: State, plan: StructPlan, slots: seq<Option<Typed>>, tree: Tree, close: Event)
    requires ValidGraph(target.graph) && Ready(st) && tree.Obj? && Closes(tree, close)
    ensures Step(target, ObjectState(st, plan, slots), close) == Finished(st, FinishObject(plan, slots, tree.at), tree.at)
  {
    hide ValidGraph, FinishObject;
    assert Popped(ObjectState(st, plan, slots)) == st;
  }

  lemma {:induction false} DictCloses(target: Target, st: State, pairs: seq<TypedPair>, id: nat, limits: Limits, tree: Tree, close: Event)
    requires ValidGraph(target.graph) && Ready(st) && tree.Obj? && Closes(tree, close)
    ensures Step(target, DictState(st, pairs, id, limits), close) == Finished(st, FinishDict(pairs, limits, tree.at), tree.at)
  {
    hide ValidGraph, FinishDict, Place;
    assert Popped(DictState(st, pairs, id, limits)) == st;
  }

  lemma {:induction false} StructConverts(target: Target, st: State, plan: StructPlan, tree: Tree, fields: seq<Field>, cells: bool, close: Event)
    requires ValidGraph(target.graph) && Ready(st) && tree.Obj? && fields == tree.fields && Closes(tree, close)
    requires cells == (cells || tree.kind.Row?)
    ensures Through(target, Ok(ObjectState(st, plan, EmptySlots(plan))), BodyOf(tree, cells), close) ==
            Finished(st, (match ConvertFields(target, plan, fields, cells, EmptySlots(plan)) {
                            case Err(fault) => Err(fault) case Ok(slots) => FinishObject(plan, slots, tree.at) }), tree.at)
    decreases fields, 1
  {
    hide ValidGraph, Run, ConvertFields, FinishObject, Place, Step;
    var start := ObjectState(st, plan, EmptySlots(plan));
    if tree.kind.Table? && !cells { NoAnnouncement(target, start, Some(tree.kind.leafCount), tree.at, FieldEvents(fields)); }
    FieldsConvert(target, st, plan, EmptySlots(plan), fields, cells);
    var slots := ConvertFields(target, plan, fields, cells, EmptySlots(plan));
    if slots.Ok? {
      RunOne(target, ObjectState(st, plan, slots.value), close);
      ObjectCloses(target, st, plan, slots.value, tree, close);
    }
  }

  lemma {:induction false} DictConverts(
      target: Target, st: State, id: nat, limits: Limits, tree: Tree, fields: seq<Field>, cells: bool, close: Event)
    requires ValidGraph(target.graph) && Ready(st) && tree.Obj? && fields == tree.fields && Closes(tree, close)
    requires cells == (cells || tree.kind.Row?)
    ensures Through(target, Ok(DictState(st, [], id, limits)), BodyOf(tree, cells), close) ==
            Finished(st, (match ConvertPairs(target, id, fields, cells, []) {
                            case Err(fault) => Err(fault) case Ok(pairs) => FinishDict(pairs, limits, tree.at) }), tree.at)
    decreases fields, 1
  {
    hide ValidGraph, Run, ConvertPairs, FinishDict, Place, Step;
    var start := DictState(st, [], id, limits);
    if tree.kind.Table? && !cells { NoAnnouncement(target, start, Some(tree.kind.leafCount), tree.at, FieldEvents(fields)); }
    PairsConvert(target, st, [], id, limits, fields, cells);
    var pairs := ConvertPairs(target, id, fields, cells, []);
    if pairs.Ok? {
      RunOne(target, DictState(st, pairs.value, id, limits), close);
      DictCloses(target, st, pairs.value, id, limits, tree, close);
    }
  }

  /** A container opened at `open`: contents and closing place what the conversion gives. */
  lemma {:induction false} OpenedConverts(target: Target, st: State, tree: Tree, id: nat, open: Position, cells: bool, close: Event)
    requires ValidGraph(target.graph) && Ready(st) && tree.Obj? && Closes(tree, close) && cells == (cells || tree.kind.Row?)
    ensures Through(target, OpenObject(target, st, id, open), BodyOf(tree, cells), close) ==
            Finished(st, Convert(target, id, tree, open, cells), tree.at)
    decreases tree, 1
  {
    if id < |target.graph| {
      var node := target.graph[Resolved(target.graph, id)];
      hide ValidGraph, Run, Step, ConvertFields, ConvertPairs, FinishObject, FinishDict, Place, Denote;
      match node.plan
      case ObjectPlan(plan) => StructConverts(target, st, plan, tree, tree.fields, cells, close);
      case DictPlan(_, value) => DictConverts(target, st, value, node.limits, tree, tree.fields, cells, close);
      case AnyPlan =>
        BeginsAny(st, tree, StartObject(open), open);
        AnyConverts(target, st, tree, cells, close);
      case _ =>
    }
  }

  lemma {:induction false} BeginsAny(st: State, tree: Tree, open: Event, at: Position)
    requires st.sub.None? && !tree.Leaf? && (if tree.Arr? then open.StartArray? else open.StartObject?)
    ensures BeginAny(st, open, at) == Ok(WithSub(st, SubOpened(tree), 1))
  {
  }

  lemma {:induction false} ArrayConverts(target: Target, st: State, tree: Tree, id: nat)
    requires ValidGraph(target.graph) && Ready(st) && tree.Arr?
    ensures Through(target, OpenArray(target, st, id, tree.declared, tree.at), Body(tree), EndArray(tree.at)) ==
            Finished(st, Convert(target, id, tree, tree.at, false), tree.at)
    decreases tree, 1
  {
    if id < |target.graph| {
      var node := target.graph[Resolved(target.graph, id)];
      hide ValidGraph, Run, Step, ConvertItems, FinishList, Place, Denote, ConvertSequence;
      match node.plan
      case ListPlan(item) => SequenceConverts(target, st, tree, tree.items, Uniform(item), false, node.limits);
      case TuplePlan(item) => SequenceConverts(target, st, tree, tree.items, Uniform(item), true, node.limits);
      case FixedPlan(plans) => SequenceConverts(target, st, tree, tree.items, ByPosition(plans), true, node.limits);
      case AnyPlan =>
        BeginsAny(st, tree, StartArray(tree.declared, tree.at), tree.at);
        AnyConverts(target, st, tree, false, EndArray(tree.at));
      case _ =>
    }
  }

  /** From any state that waits for a value of plan `id`, the events of a tree place what the recursive
      conversion gives, or end in its fault. */
  lemma {:induction false} TreeConverts(target: Target, st: State, tree: Tree, id: nat)
    requires ValidGraph(target.graph) && Ready(st) && Expected(target, st, tree.at) == Ok(id)
    ensures Run(target, st, EventsOf(tree)) == Finished(st, Convert(target, id, tree, tree.at, AsCells(tree)), tree.at)
    decreases tree, 2
  {
    hide ValidGraph, Run, Expected, OpenArray, OpenObject, Place, ConvertScalar, EventsOf, Forward;
    if tree.Leaf? {
      LeafEvents(tree);
      RunOne(target, st, Scalar(tree.token, tree.at));
    } else {
      EventsAround(tree);
      RunAround(target, st, Opening(tree), Body(tree), Closing(tree));
      if tree.Arr? {
        ArrayConverts(target, st, tree, id);
      } else {
        OpenedConverts(target, st, tree, id, tree.at, tree.kind.Row?, Closing(tree));
      }
    }
  }

  /** The typed consumer, fed with the events of any tree, ends with exactly the value that the recursive
      conversion gives, and fails exactly when it does, with the same fault. */
  lemma {:induction false} MachineIsConversion(target: Target, tree: Tree)
    requires ValidTarget(target)
    ensures Run(target, START, EventsOf(tree)) ==
            match Convert(target, target.root, tree, tree.at, AsCells(tree)) {
              case Err(fault) => Err(fault)
              case Ok(value) => Ok(State(Bottom, Some(value), 0, None))
            }
  {
    hide ValidGraph, Run, EventsOf, Convert;
    TreeConverts(target, START, tree, target.root);
  }
}
