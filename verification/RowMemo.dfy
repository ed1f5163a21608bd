/** The row memo: positional replay of key lookups in tabular arrays (src/typed.rs, lookup_field_action). */
module RowMemo {
  import opened Bytes
  import opened Faults
  import opened Tokens
  import opened Escapes
  import opened Events
  import opened Plans
  import opened TypedMachine
  import opened TypedTrees
  import opened TypedProof
  import Header
  import Grammar
  import Untyped

  // ----- the memo -----------------------------------------------------------------------------

  datatype Entry = Entry(key: bytes, action: FieldAction)

  datatype Memo = Memo(entries: seq<Entry>, cursor: nat, complete: bool, disabled: bool, trusted: bool)

  const FRESH: Memo := Memo([], 0, false, false, false)

  datatype Looked = Looked(action: FieldAction, memo: Memo)

  /** Resolve a key: a sealed trusted memo replays by position, a sealed one by position and key bytes, an
      open one records; any deviation switches the memo off. */
  function Lookup(memo: Memo, plan: StructPlan, key: bytes): Looked {
    if !memo.disabled && memo.complete && memo.cursor < |memo.entries| && (memo.trusted || memo.entries[memo.cursor].key == key)
    then Looked(memo.entries[memo.cursor].action, memo.(cursor := memo.cursor + 1))
    else
      var action := ActionFor(plan, key);
      if memo.disabled then Looked(action, memo)
      else if memo.complete then Looked(action, memo.(disabled := true))
      else Looked(action, memo.(entries := memo.entries + [Entry(key, action)], cursor := memo.cursor + 1))
  }

  /** The memo of one open array. */
  class Resolver {
    var entries: seq<Entry>
    var cursor: nat
    var complete: bool
    var disabled: bool
    var trusted: bool

    constructor ()
      ensures Now() == FRESH
    {
      entries, cursor, complete, disabled, trusted := [], 0, false, false, false;
    }

    function Now(): Memo
      reads this
    {
      Memo(entries, cursor, complete, disabled, trusted)
    }

    method LookupFieldAction(plan: StructPlan, key: StringToken) returns (action: FieldAction)
      modifies this
      ensures Looked(action, Now()) == Lookup(old(Now()), plan, TextOf(key))
    {
      if !disabled && complete && trusted {
        if cursor < |entries| {
          cursor := cursor + 1;
          return entries[cursor - 1].action;
        }
        disabled := true;
      }
      var raw := TextOf(key);
      if !disabled && complete {
        if cursor < |entries| && entries[cursor].key == raw {
          cursor := cursor + 1;
          return entries[cursor - 1].action;
        }
        disabled := true;
      }
      action := ActionFor(plan, raw);
      if !disabled && !complete {
        entries := entries + [Entry(raw, action)];
        cursor := cursor + 1;
      }
    }
  }

  // ----- the machine with its memo ------------------------------------------------------------

  /** A key looked up in the plan of a struct frame. */
  datatype Query = Query(plan: StructPlan, key: bytes)

  function KeyOfEvent(event: Event): Option<StringToken> {
    match event
    case Key(key, _) => Some(key)
    case ScalarField(key, _, _) => Some(key)
    case StartObjectField(key, _) => Some(key)
    case _ => None
  }

  /** The lookup an event causes. */
  function Asks(st: State, event: Event): Option<Query> {
    if Settled(st) && st.stack.Over? && st.stack.top.ObjectFrame? && KeyOfEvent(event).Some?
    then Some(Query(st.stack.top.plan, TextOf(KeyOfEvent(event).value))) else None
  }

  /** The step of an event whose key resolved to `action`. */
  function StepWith(target: Target, st: State, event: Event, action: FieldAction): Result<State>
    requires ValidGraph(target.graph) && Asks(st, event).Some?
  {
    var frame := st.stack.top;
    match event
    case Key(_, at) =>
      var choice :- Decide(target, frame, action, at);
      Ok(WithTop(st, if choice.Slot? then frame.(awaiting := Some(choice.index)) else frame.(skipping := true)))
    case ScalarField(_, token, at) =>
      var choice :- Decide(target, frame, action, at);
      if choice.Unknown? then Ok(st)
      else if choice.index >= |frame.plan.fields| then Broken(at)
      else
        var id := frame.plan.fields[choice.index].value;
        if id >= |target.graph| then Broken(at)
        else
          var value :- ConvertScalar(target, id, token, at, |target.graph|);
          Ok(WithTop(st, frame.(slots := WithSlot(frame.slots, choice.index, value))))
    case StartObjectField(_, at) =>
      var choice :- Decide(target, frame, action, at);
      if choice.Unknown? then OnStart(target, WithTop(st, frame.(skipping := true)), StartObject(at), at)
      else if choice.index >= |frame.plan.fields| then Broken(at)
      else OpenObject(target, WithTop(st, frame.(awaiting := Some(choice.index))), frame.plan.fields[choice.index].value, at)
  }

  lemma {:induction false} OwnActionSteps(target: Target, st: State, event: Event)
    requires ValidGraph(target.graph) && Asks(st, event).Some?
    ensures StepWith(target, st, event, ActionFor(st.stack.top.plan, Asks(st, event).value.key)) == Step(target, st, event)
  {
    hide ValidGraph, ActionFor, OpenObject, ConvertScalar, Forward;
  }

  predicate UnderList(st: State) {
    st.stack.Over? && st.stack.top.ListFrame?
  }

  /** How many arrays are open. Each has a memo of its own, and the memo of the innermost one is asked. */
  function Level(stack: Stack): nat {
    match stack
    case Bottom => 0
    case Over(top, below) => (if top.ListFrame? then 1 else 0) + Level(below)
  }

  /** The lookup an event causes in the memo of the array at `level`. */
  function Own(level: nat, st: State, event: Event): Option<Query> {
    if Level(st.stack) == level then Asks(st, event) else None
  }

  /** The event opens or closes a row of the array at `level`, or announces its rows. */
  predicate Tends(level: nat, st: State, event: Event, next: State) {
    Settled(st) && Level(st.stack) == level &&
    match event
    case StartObject(_) => UnderList(st) && next.stack.Over? && next.stack.top.ObjectFrame?
    case StartRepeatedObject(_) => UnderList(st) && next.stack.Over? && next.stack.top.ObjectFrame?
    case EndObject(_) => st.stack.Over? && st.stack.top.ObjectFrame? && UnderList(Popped(st))
    case BeginTabular(_, _) => UnderList(st)
    case _ => false
  }

  /** Rewind where a struct opens under the array, seal where one closes under it, trust a tabular array. */
  function Tended(level: nat, memo: Memo, st: State, event: Event, next: State): Memo {
    if !Tends(level, st, event, next) then memo
    else match event
      case StartObject(_) => memo.(cursor := 0)
      case StartRepeatedObject(_) => memo.(cursor := 0)
      case EndObject(_) => if memo.disabled then memo else memo.(complete := true)
      case BeginTabular(_, _) => if memo.disabled then memo else memo.(trusted := true)
  }

  datatype Memoed = Memoed(state: Result<State>, memo: Memo)

  function MemoStep(target: Target, level: nat, st: State, memo: Memo, event: Event): Memoed
    requires ValidGraph(target.graph)
  {
    match Own(level, st, event)
    case Some(query) =>
      var looked := Lookup(memo, query.plan, query.key);
      Memoed(StepWith(target, st, event, looked.action), looked.memo)
    case None =>
      var next := Step(target, st, event);
      Memoed(next, if next.Ok? then Tended(level, memo, st, event, next.value) else memo)
  }

  function MemoRun(target: Target, level: nat, st: State, memo: Memo, events: seq<Event>): Memoed
    requires ValidGraph(target.graph)
    decreases |events|
  {
    if events == [] then Memoed(Ok(st), memo)
    else
      var first := MemoStep(target, level, st, memo, events[0]);
      if first.state.Err? then first else MemoRun(target, level, first.state.value, first.memo, events[1..])
  }

  /** The lookups the plain machine makes on its way through `events`. */
  function Trace(target: Target, level: nat, st: State, events: seq<Event>): seq<Query>
    requires ValidGraph(target.graph)
    decreases |events|
  {
    if events == [] then []
    else
      var asked := match Own(level, st, events[0]) { case Some(query) => [query] case None => [] };
      match Step(target, st, events[0])
      case Err(_) => asked
      case Ok(next) => asked + Trace(target, level, next, events[1..])
  }

  /** At every key on the way the memo answers as the frame's own plan does. */
  predicate Agrees(target: Target, level: nat, st: State, memo: Memo, events: seq<Event>)
    requires ValidGraph(target.graph)
    decreases |events|
  {
    events == [] ||
    (var first := MemoStep(target, level, st, memo, events[0]);
     && (match Own(level, st, events[0])
         case Some(query) => Lookup(memo, query.plan, query.key).action == ActionFor(query.plan, query.key)
         case None => true)
     && (first.state.Ok? ==> Agrees(target, level, first.state.value, first.memo, events[1..])))
  }

  // ----- replay and recording ------------------------------------------------------------------

  predicate Cell(event: Event) {
    event.ScalarField? || event.StartObjectField? || event.EndObjectField?
  }

  /** Inside a row no event tends the memo of its array. */
  predicate Quiet(target: Target, level: nat, st: State, events: seq<Event>)
    requires ValidGraph(target.graph)
    decreases |events|
  {
    events == [] ||
    (var next := Step(target, st, events[0]);
     next.Ok? ==> !Tends(level, st, events[0], next.value) && Quiet(target, level, next.value, events[1..]))
  }

  /** Rows of a table hold cells, no arrays and no plain objects. */
  predicate CellOnly(events: seq<Event>) {
    forall i :: 0 <= i < |events| ==> Cell(events[i])
  }

  lemma {:induction false} CellsAreQuiet(target: Target, level: nat, st: State, events: seq<Event>)
    requires ValidGraph(target.graph) && CellOnly(events)
    ensures Quiet(target, level, st, events)
    decreases |events|
  {
    hide ValidGraph, Step, Level;
    if events != [] {
      assert Cell(events[0]);
      if Step(target, st, events[0]).Ok? { CellsAreQuiet(target, level, Step(target, st, events[0]).value, events[1..]); }
    }
  }

  predicate Begins(a: seq<Query>, b: seq<Query>) {
    |a| <= |b| && b[..|a|] == a
  }

  /** The memo holds the resolutions of `queries`. */
  predicate Holds(memo: Memo, queries: seq<Query>) {
    |memo.entries| == |queries| &&
    forall i :: 0 <= i < |queries| ==> memo.entries[i] == Entry(queries[i].key, ActionFor(queries[i].plan, queries[i].key))
  }

  predicate Replaying(memo: Memo, queries: seq<Query>) {
    Holds(memo, queries) && memo.complete && memo.trusted && !memo.disabled
  }

  predicate Recording(memo: Memo, queries: seq<Query>) {
    Holds(memo, queries) && memo.cursor == |queries| && !memo.complete && !memo.disabled
  }

  /** A sealed memo that is asked what it was asked before answers as the plan would. */
  lemma {:induction false} ReplayIsPlain(target: Target, level: nat, st: State, memo: Memo, events: seq<Event>, queries: seq<Query>)
    requires ValidGraph(target.graph) && Quiet(target, level, st, events) && Replaying(memo, queries) && memo.cursor <= |queries|
    requires Begins(Trace(target, level, st, events), queries[memo.cursor..])
    ensures MemoRun(target, level, st, memo, events).state == Run(target, st, events) && Agrees(target, level, st, memo, events)
    ensures MemoRun(target, level, st, memo, events).memo == memo.(cursor := memo.cursor + |Trace(target, level, st, events)|)
    decreases |events|
  {
    if events != [] {
      hide ValidGraph, Step, StepWith, ActionFor;
      var event, trace := events[0], Trace(target, level, st, events);
      match Own(level, st, event)
      case Some(query) =>
        assert query == trace[0] == queries[memo.cursor];
        OwnActionSteps(target, st, event);
        var next := memo.(cursor := memo.cursor + 1);
        assert Lookup(memo, query.plan, query.key) == Looked(ActionFor(query.plan, query.key), next);
        if Step(target, st, event).Ok? {
          assert trace[1..] == Trace(target, level, Step(target, st, event).value, events[1..]);
          assert queries[memo.cursor..][1..] == queries[next.cursor..];
          ReplayIsPlain(target, level, Step(target, st, event).value, next, events[1..], queries);
        }
      case None =>
        if Step(target, st, event).Ok? {
          assert [] + Trace(target, level, Step(target, st, event).value, events[1..]) == trace;
          ReplayIsPlain(target, level, Step(target, st, event).value, memo, events[1..], queries);
        }
    }
  }

  /** A sealed memo hands out what it recorded next: to any key when the array is a table, else to the same key only. */
  lemma {:induction false} SealedAnswers(memo: Memo, plan: StructPlan, key: bytes)
    requires memo.complete && !memo.disabled && memo.cursor < |memo.entries|
    ensures memo.trusted || memo.entries[memo.cursor].key == key ==>
              Lookup(memo, plan, key).action == memo.entries[memo.cursor].action && Lookup(memo, plan, key).memo.cursor == memo.cursor + 1
    ensures !memo.trusted && memo.entries[memo.cursor].key != key ==>
              Lookup(memo, plan, key).action == ActionFor(plan, key) && Lookup(memo, plan, key).memo.disabled
  {
  }

  lemma {:induction false} LookupRecords(memo: Memo, queries: seq<Query>, query: Query)
    requires Recording(memo, queries)
    ensures var looked := Lookup(memo, query.plan, query.key);
            && looked.action == ActionFor(query.plan, query.key) && Recording(looked.memo, queries + [query])
            && looked.memo.trusted == memo.trusted
  {
    hide ActionFor;
    var all := queries + [query];
    assert all[|queries|] == query && forall i :: 0 <= i < |queries| ==> all[i] == queries[i];
  }

  /** An open memo answers from the plan and keeps what it answered. */
  lemma {:induction false} RecordIsPlain(target: Target, level: nat, st: State, memo: Memo, events: seq<Event>, queries: seq<Query>)
    requires ValidGraph(target.graph) && Quiet(target, level, st, events) && Recording(memo, queries)
    ensures MemoRun(target, level, st, memo, events).state == Run(target, st, events) && Agrees(target, level, st, memo, events)
    ensures var after := MemoRun(target, level, st, memo, events).memo;
            Recording(after, queries + Trace(target, level, st, events)) && after.trusted == memo.trusted
    decreases |events|
  {
    if events == [] {
      assert queries + [] == queries;
    } else {
      hide ValidGraph, Step, StepWith, ActionFor, Recording, Lookup;
      var asked := match Own(level, st, events[0]) { case Some(query) => [query] case None => [] };
      var first := MemoStep(target, level, st, memo, events[0]);
      RecordStep(target, level, st, memo, events[0], queries);
      if first.state.Ok? {
        RecordIsPlain(target, level, first.state.value, first.memo, events[1..], queries + asked);
        Regrouped(queries, asked, Trace(target, level, first.state.value, events[1..]));
      }
    }
  }

  lemma {:induction false} Regrouped(a: seq<Query>, b: seq<Query>, c: seq<Query>)
    ensures a + (b + c) == (a + b) + c
  {
  }

  lemma {:induction false} RecordStep(target: Target, level: nat, st: State, memo: Memo, event: Event, queries: seq<Query>)
    requires ValidGraph(target.graph) && Quiet(target, level, st, [event]) && Recording(memo, queries)
    ensures var first := MemoStep(target, level, st, memo, event);
            && first.state == Step(target, st, event) && first.memo.trusted == memo.trusted
            && (match Own(level, st, event) {
                  case Some(query) => Lookup(memo, query.plan, query.key).action == ActionFor(query.plan, query.key) case None => true })
            && Recording(first.memo, queries + (match Own(level, st, event) { case Some(query) => [query] case None => [] }))
  {
    hide ValidGraph, Step, StepWith, ActionFor, Recording, Lookup;
    match Own(level, st, event)
    case Some(query) =>
      OwnActionSteps(target, st, event);
      LookupRecords(memo, queries, query);
    case None => assert queries + [] == queries;
  }

  /** A memo that is switched off answers from the plan: fixed tuples never memoize. */
  lemma {:induction false} DisabledIsPlain(target: Target, level: nat, st: State, memo: Memo, events: seq<Event>)
    requires ValidGraph(target.graph) && memo.disabled
    ensures MemoRun(target, level, st, memo, events).state == Run(target, st, events) && Agrees(target, level, st, memo, events)
    ensures MemoRun(target, level, st, memo, events).memo.disabled
    decreases |events|
  {
    hide ValidGraph, Step, StepWith, ActionFor;
    if events != [] {
      if Own(level, st, events[0]).Some? { OwnActionSteps(target, st, events[0]); }
      var first := MemoStep(target, level, st, memo, events[0]);
      if first.state.Ok? { DisabledIsPlain(target, level, first.state.value, first.memo, events[1..]); }
    }
  }

  // ----- the lookups of a row depend on plan and header alone -----------------------------------------

  /** The fields of a row are the leaves and groups of a header. */
  predicate HasHeader(fields: seq<Field>, nodes: seq<FieldNode>)
    decreases nodes
  {
    |fields| == |nodes| && (nodes == [] || (HasNode(fields[0], nodes[0]) && HasHeader(fields[1..], nodes[1..])))
  }

  predicate HasNode(field: Field, node: FieldNode)
    decreases node
  {
    TextOf(field.key) == TextOf(node.name) &&
    if node.children == [] then field.value.Leaf? else field.value.Obj? && HasHeader(field.value.fields, node.children)
  }

  function RowQueries(graph: Graph, plan: StructPlan, nodes: seq<FieldNode>): seq<Query>
    requires ValidGraph(graph)
    decreases nodes, 1
  {
    if nodes == [] then [] else NodeQueries(graph, plan, nodes[0]) + RowQueries(graph, plan, nodes[1..])
  }

  function NodeQueries(graph: Graph, plan: StructPlan, node: FieldNode): seq<Query>
    requires ValidGraph(graph)
    decreases node
  {
    var action := ActionFor(plan, TextOf(node.name));
    [Query(plan, TextOf(node.name))] +
    (if node.children != [] && action.TakeField? then OpenQueries(graph, plan.fields[action.index].value, node.children) else [])
  }

  function OpenQueries(graph: Graph, id: nat, nodes: seq<FieldNode>): seq<Query>
    requires ValidGraph(graph)
    decreases nodes, 2
  {
    if id >= |graph| then []
    else match graph[Resolved(graph, id)].plan
      case ObjectPlan(plan) => RowQueries(graph, plan, nodes)
      case DictPlan(_, value) => DictQueries(graph, value, nodes)
      case _ => []
  }

  function DictQueries(graph: Graph, value: nat, nodes: seq<FieldNode>): seq<Query>
    requires ValidGraph(graph)
    decreases nodes, 0
  {
    if nodes == [] then []
    else (if nodes[0].children == [] then [] else OpenQueries(graph, value, nodes[0].children)) + DictQueries(graph, value, nodes[1..])
  }

  /** The machine asks a beginning of `queries`, and all of them unless it fails. */
  predicate Traced(target: Target, level: nat, st: State, events: seq<Event>, queries: seq<Query>)
    requires ValidGraph(target.graph)
  {
    Begins(Trace(target, level, st, events), queries) && (Run(target, st, events).Ok? ==> Trace(target, level, st, events) == queries)
  }

  lemma {:induction false} TraceConcat(target: Target, level: nat, st: State, a: seq<Event>, b: seq<Event>)
    requires ValidGraph(target.graph)
    ensures Run(target, st, a).Err? ==> Trace(target, level, st, a + b) == Trace(target, level, st, a)
    ensures Run(target, st, a).Ok? ==>
              Trace(target, level, st, a + b) == Trace(target, level, st, a) + Trace(target, level, Run(target, st, a).value, b)
    decreases |a|
  {
    hide ValidGraph, Step, Asks;
    if a == [] {
      assert a + b == b;
    } else {
      assert (a + b)[1..] == a[1..] + b;
      if Step(target, st, a[0]).Ok? { TraceConcat(target, level, Step(target, st, a[0]).value, a[1..], b); }
    }
  }

  lemma {:induction false} TracedConcat(target: Target, level: nat, st: State, a: seq<Event>, b: seq<Event>, p: seq<Query>, q: seq<Query>)
    requires ValidGraph(target.graph) && Traced(target, level, st, a, p)
    requires Run(target, st, a).Ok? ==> Traced(target, level, Run(target, st, a).value, b, q)
    ensures Traced(target, level, st, a + b, p + q)
  {
    hide ValidGraph, Step, Asks, Trace, Run;
    TraceConcat(target, level, st, a, b);
    RunConcat(target, st, a, b);
  }

  lemma {:induction false} TracedOne(target: Target, level: nat, st: State, event: Event)
    requires ValidGraph(target.graph)
    ensures Traced(target, level, st, [event], match Own(level, st, event) { case Some(query) => [query] case None => [] })
  {
    hide ValidGraph, Step, Asks;
    assert [event][1..] == [];
    if Step(target, st, event).Ok? { assert Trace(target, level, Step(target, st, event).value, []) == []; }
  }

  /** Skipped values and `Any` subtrees ask nothing. */
  lemma {:induction false} SkipAsksNothing(target: Target, level: nat, st: State, events: seq<Event>)
    requires ValidGraph(target.graph) && Skipping(st) && DepthRun(events, st.skipDepth).Some?
    ensures Traced(target, level, st, events, [])
    decreases |events|
  {
    if events != [] {
      SkipKeeps(target, st, events[0]);
      hide ValidGraph, Step;
      SkipAsksNothing(target, level, Step(target, st, events[0]).value, events[1..]);
    }
  }

  lemma {:induction false} SkipKeeps(target: Target, st: State, event: Event)
    requires ValidGraph(target.graph) && Skipping(st) && DepthAfter(event, st.skipDepth) > 0
    ensures Step(target, st, event).Ok? && Skipping(Step(target, st, event).value)
    ensures Step(target, st, event).value.skipDepth == DepthAfter(event, st.skipDepth)
  {
    hide ValidGraph, OpenArray, OpenObject, Forward;
  }

  lemma {:induction false} SubAsksNothing(target: Target, level: nat, st: State, events: seq<Event>)
    requires ValidGraph(target.graph) && st.sub.Some? && st.sub.value.depth > 0 && DepthRun(events, st.sub.value.depth).Some?
    ensures Traced(target, level, st, events, [])
    decreases |events|
  {
    if events != [] {
      if Step(target, st, events[0]).Ok? { SubKeeps(target, st, events[0]); }
      hide ValidGraph, Step;
      if Step(target, st, events[0]).Ok? { SubAsksNothing(target, level, Step(target, st, events[0]).value, events[1..]); }
    }
  }

  lemma {:induction false} SubKeeps(target: Target, st: State, event: Event)
    requires ValidGraph(target.graph) && st.sub.Some? && st.sub.value.depth > 0 && DepthAfter(event, st.sub.value.depth) > 0
    requires Step(target, st, event).Ok?
    ensures Step(target, st, event).value.sub.Some?
    ensures Step(target, st, event).value.sub.value.depth == DepthAfter(event, st.sub.value.depth)
  {
    hide ValidGraph, OpenArray, OpenObject, Untyped.Step, Place, CloseObject, CloseArray, Expected, Choose;
  }
}
