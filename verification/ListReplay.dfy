/** The memo in arrays written as lists: when it answers as the plans do, and when it does not (src/typed.rs). */
module ListReplay {
  import opened Bytes
  import opened Faults
  import opened Tokens
  import opened Events
  import opened Values
  import opened Plans
  import opened TypedMachine
  import opened TypedTrees
  import opened TypedProof
  import opened RowMemo
  import opened RowReplay
  import Escapes
  import Untyped

  // ----- inside a row nothing tends the memo of its array -----------------------------------------

  /** `stack` holds frames of its own on top of `base`. */
  predicate Above(stack: Stack, base: Stack)
    decreases stack
  {
    stack.Over? && (stack.below == base || Above(stack.below, base))
  }

  function Frames(stack: Stack): nat {
    match stack case Bottom => 0 case Over(_, below) => 1 + Frames(below)
  }

  /** Containers open, typed, skipped and untyped. */
  function Opened(st: State): nat {
    Frames(st.stack) + st.skipDepth + (if st.sub.Some? then st.sub.value.depth else 0)
  }

  predicate Fit(st: State) {
    st.sub.Some? ==> st.sub.value.depth > 0 && st.skipDepth == 0
  }

  /** How many of them belong to the row that stands on `base`. */
  predicate Within(st: State, base: Stack, depth: nat) {
    Fit(st) && Above(st.stack, base) && Opened(st) == Frames(base) + depth
  }

  lemma {:induction false} AboveIsHigher(stack: Stack, base: Stack)
    requires Above(stack, base)
    ensures Frames(stack) > Frames(base) && Level(stack) >= Level(base)
    ensures stack.top.ListFrame? ==> Level(stack) > Level(base)
    decreases stack
  {
    if stack.below != base { AboveIsHigher(stack.below, base); }
  }

  lemma {:induction false} PlaceStaysWithin(st: State, value: Typed, at: Position, base: Stack, depth: nat)
    requires Within(st, base, depth) && Place(st, value, at).Ok?
    ensures Within(Place(st, value, at).value, base, depth)
  {
  }

  lemma {:induction false} ForwardStaysWithin(st: State, event: Event, at: Position, base: Stack, depth: nat)
    requires st.sub.Some? && st.skipDepth == 0 && Above(st.stack, base) && Opened(st) == Frames(base) + depth
    requires DepthAfter(event, depth) > 0 && Forward(st, event, at).Ok?
    requires st.sub.value.depth > 0 || DepthAfter(event, 0) > 0
    ensures Within(Forward(st, event, at).value, base, DepthAfter(event, depth))
  {
    hide Untyped.Step, Place;
    AboveIsHigher(st.stack, base);
    var next := Untyped.Step(st.sub.value.state, event).value;
    if DepthAfter(event, st.sub.value.depth) == 0 {
      PlaceStaysWithin(st.(sub := None), Plainly(next.result.value), at, base, DepthAfter(event, depth));
    }
  }

  lemma {:induction false} OpenStaysWithin(target: Target, st: State, id: nat, event: Event, at: Position, base: Stack, depth: nat)
    requires ValidGraph(target.graph) && Within(st, base, depth) && Settled(st)
    ensures OpenObject(target, st, id, at).Ok? ==> Within(OpenObject(target, st, id, at).value, base, depth + 1)
    ensures event.StartArray? && OpenArray(target, st, id, event.declared, at).Ok? ==>
              Within(OpenArray(target, st, id, event.declared, at).value, base, depth + 1)
  {
    hide ValidGraph, Forward;
    var begun := st.(sub := Some(Sub(Untyped.State([], None), 0)));
    if Forward(begun, StartObject(at), at).Ok? { ForwardStaysWithin(begun, StartObject(at), at, base, depth); }
    if event.StartArray? && Forward(begun, StartArray(event.declared, at), at).Ok? {
      ForwardStaysWithin(begun, StartArray(event.declared, at), at, base, depth);
    }
  }

  lemma {:induction false} FinishStaysWithin(st: State, r: Result<Typed>, at: Position, base: Stack, depth: nat)
    requires Within(st, base, depth + 1) && depth > 0 && Settled(st)
    ensures Within(Popped(st), base, depth)
    ensures Finished(Popped(st), r, at).Ok? ==> Within(Finished(Popped(st), r, at).value, base, depth)
  {
    assert st.stack.below != base;
    if Finished(Popped(st), r, at).Ok? { PlaceStaysWithin(Popped(st), r.value, at, base, depth); }
  }

  lemma {:induction false} CloseStaysWithin(st: State, at: Position, base: Stack, depth: nat)
    requires Within(st, base, depth + 1) && depth > 0 && Settled(st)
    ensures CloseObject(st, at).Ok? ==> Within(CloseObject(st, at).value, base, depth)
    ensures CloseArray(st, at).Ok? ==> Within(CloseArray(st, at).value, base, depth)
  {
    assert st.stack.Over?;
    hide FinishObject, FinishDict, FinishList, Within, Finished;
    match st.stack.top
    case ObjectFrame(plan, slots, _, _) => FinishStaysWithin(st, FinishObject(plan, slots, at), at, base, depth);
    case DictFrame(pairs, _, _, limits) => FinishStaysWithin(st, FinishDict(pairs, limits, at), at, base, depth);
    case ListFrame(items, source, isTuple, limits) => FinishStaysWithin(st, FinishList(items, source, isTuple, limits, at), at, base, depth);
  }

  lemma {:induction false} FieldEndStaysWithin(st: State, at: Position, base: Stack, depth: nat)
    requires Within(st, base, depth + 1) && depth > 0 && Settled(st) && OnEndObjectField(st, at).Ok?
    ensures Within(OnEndObjectField(st, at).value, base, depth)
  {
    assert st.stack.Over?;
    hide FinishObject, CloseObject, Within;
    CloseStaysWithin(st, at, base, depth);
    FinishStaysWithin(st, Err(SyntaxAt(Internal, at)), at, base, depth);
    if st.stack.below.Over? && st.stack.below.top.ObjectFrame? {
      var outer := st.stack.below.top;
      forall slots ensures Within(WithTop(Popped(st), outer.(slots := slots, awaiting := None)), base, depth) {
        TopStaysWithin(Popped(st), outer.(slots := slots, awaiting := None), base, depth);
      }
    }
  }

  lemma {:induction false} TopStaysWithin(st: State, frame: Frame, base: Stack, depth: nat)
    requires Within(st, base, depth) && st.stack.Over?
    ensures Within(WithTop(st, frame), base, depth)
  {
  }

  /** An event that leaves the row open stays within it. */
  lemma {:induction false} StepStaysWithin(target: Target, st: State, event: Event, base: Stack, depth: nat)
    requires ValidGraph(target.graph) && Within(st, base, depth) && depth > 0 && DepthAfter(event, depth) > 0
    requires Step(target, st, event).Ok?
    ensures Within(Step(target, st, event).value, base, DepthAfter(event, depth))
  {
    if st.sub.Some? {
      SubStaysWithin(target, st, event, base, depth);
    } else if st.skipDepth > 0 {
      SkipStaysWithin(target, st, event, base, depth);
    } else {
      SettledStaysWithin(target, st, event, base, depth);
    }
  }

  lemma {:induction false} SubStaysWithin(target: Target, st: State, event: Event, base: Stack, depth: nat)
    requires ValidGraph(target.graph) && Within(st, base, depth) && depth > 0 && DepthAfter(event, depth) > 0 && st.sub.Some?
    requires Step(target, st, event).Ok?
    ensures Within(Step(target, st, event).value, base, DepthAfter(event, depth))
  {
    assert st.sub.value.depth > 0;
    hide ValidGraph, Forward, Within, Untyped.Step, OpenObject, OpenArray, ConvertScalar, CloseObject, CloseArray;
    match event
    case BeginTabular(_, _) =>
    case ScalarField(key, token, at) =>
      assert Forward(st, Key(key, at), at).Ok?;
      WithinSub(st, Key(key, at), at, base, depth);
      var keyed := Forward(st, Key(key, at), at).value;
      SubKept(st, Key(key, at), at);
      WithinSub(keyed, Scalar(token, at), at, base, depth);
    case StartObjectField(key, at) =>
      WithinSub(st, Key(key, at), at, base, depth);
      SubKept(st, Key(key, at), at);
      WithinSub(Forward(st, Key(key, at), at).value, StartObject(at), at, base, depth);
    case EndObjectField(at) => WithinSub(st, EndObject(at), at, base, depth);
    case StartObject(at) => WithinSub(st, event, at, base, depth);
    case StartRepeatedObject(at) => WithinSub(st, event, at, base, depth);
    case StartArray(_, at) => WithinSub(st, event, at, base, depth);
    case EndObject(at) => WithinSub(st, event, at, base, depth);
    case EndArray(at) => WithinSub(st, event, at, base, depth);
    case Key(_, at) => WithinSub(st, event, at, base, depth);
    case Scalar(_, at) => WithinSub(st, event, at, base, depth);
  }

  lemma {:induction false} SubKept(st: State, event: Event, at: Position)
    requires st.sub.Some? && st.sub.value.depth > 0 && event.Key? && Forward(st, event, at).Ok?
    ensures Forward(st, event, at).value.sub.Some?
  {
    hide Untyped.Step;
  }

  lemma {:induction false} WithinSub(st: State, event: Event, at: Position, base: Stack, depth: nat)
    requires Within(st, base, depth) && st.sub.Some? && DepthAfter(event, depth) > 0
    ensures Forward(st, event, at).Ok? ==> Within(Forward(st, event, at).value, base, DepthAfter(event, depth))
  {
    hide Forward, DepthAfter;
    if Forward(st, event, at).Ok? { ForwardStaysWithin(st, event, at, base, depth); }
  }

  lemma {:induction false} SkipStaysWithin(target: Target, st: State, event: Event, base: Stack, depth: nat)
    requires ValidGraph(target.graph) && Within(st, base, depth) && depth > 0 && DepthAfter(event, depth) > 0
    requires st.sub.None? && st.skipDepth > 0 && Step(target, st, event).Ok?
    ensures Within(Step(target, st, event).value, base, DepthAfter(event, depth))
  {
    hide ValidGraph, Forward, OpenObject, OpenArray, ConvertScalar, CloseObject, CloseArray, Choose, Expected;
  }

  lemma {:induction false} SettledStaysWithin(target: Target, st: State, event: Event, base: Stack, depth: nat)
    requires ValidGraph(target.graph) && Within(st, base, depth) && depth > 0 && DepthAfter(event, depth) > 0
    requires Settled(st) && Step(target, st, event).Ok?
    ensures Within(Step(target, st, event).value, base, DepthAfter(event, depth))
  {
    match event
    case StartObject(_) => StartStaysWithin(target, st, event, base, depth);
    case StartRepeatedObject(_) => StartStaysWithin(target, st, event, base, depth);
    case StartArray(_, _) => StartStaysWithin(target, st, event, base, depth);
    case EndObject(at) => hide CloseObject, Within; CloseStaysWithin(st, at, base, depth - 1);
    case EndArray(at) => hide CloseArray, Within; CloseStaysWithin(st, at, base, depth - 1);
    case EndObjectField(at) => hide OnEndObjectField, Within; FieldEndStaysWithin(st, at, base, depth - 1);
    case StartObjectField(key, at) => FieldStartStaysWithin(target, st, key, at, base, depth);
    case BeginTabular(_, _) =>
    case _ => LeafStaysWithin(target, st, event, base, depth);
  }

  lemma {:induction false} StartStaysWithin(target: Target, st: State, event: Event, base: Stack, depth: nat)
    requires ValidGraph(target.graph) && Within(st, base, depth) && Settled(st)
    requires event.StartObject? || event.StartRepeatedObject? || event.StartArray?
    requires Step(target, st, event).Ok?
    ensures Within(Step(target, st, event).value, base, depth + 1)
  {
    hide ValidGraph, OpenObject, OpenArray, Expected, Forward;
    var r := Expected(target, st, event.at);
    if r.Ok? { OpenStaysWithin(target, st, r.value, event, event.at, base, depth); }
  }

  lemma {:induction false} FieldStartStaysWithin(target: Target, st: State, key: StringToken, at: Position, base: Stack, depth: nat)
    requires ValidGraph(target.graph) && Within(st, base, depth) && Settled(st) && OnStartObjectField(target, st, key, at).Ok?
    ensures Within(OnStartObjectField(target, st, key, at).value, base, depth + 1)
  {
    hide ValidGraph, OpenObject, OpenArray, Forward, ActionFor;
    if st.stack.top.ObjectFrame? {
      var frame := st.stack.top;
      var choice := Choose(target, frame, Escapes.TextOf(key), at).value;
      if choice.Slot? {
        var waiting := WithTop(st, frame.(awaiting := Some(choice.index)));
        OpenStaysWithin(target, waiting, frame.plan.fields[choice.index].value, StartObject(at), at, base, depth);
      }
    } else {
      var keyed := OnKey(target, st, key, at).value;
      var id := Expected(target, keyed, at);
      if id.Ok? { OpenStaysWithin(target, keyed, id.value, StartObject(at), at, base, depth); }
    }
  }

  lemma {:induction false} LeafStaysWithin(target: Target, st: State, event: Event, base: Stack, depth: nat)
    requires ValidGraph(target.graph) && Within(st, base, depth) && Settled(st) && (event.Key? || event.Scalar? || event.ScalarField?)
    requires Step(target, st, event).Ok?
    ensures Within(Step(target, st, event).value, base, depth)
  {
    hide ValidGraph, ConvertScalar, ActionFor, Forward;
  }

  lemma {:induction false} WithinTendsNot(level: nat, st: State, event: Event, next: State, base: Stack, depth: nat)
    requires Within(st, base, depth) && depth > 0 && DepthAfter(event, depth) > 0
    requires base.Over? && base.top.ListFrame? && Level(base) == level
    ensures !Tends(level, st, event, next)
  {
    AboveIsHigher(st.stack, base);
    if st.stack.below != base { AboveIsHigher(st.stack.below, base); }
  }

  lemma {:induction false} WithinIsQuiet(target: Target, level: nat, st: State, events: seq<Event>, base: Stack, depth: nat)
    requires ValidGraph(target.graph) && Within(st, base, depth) && depth > 0 && DepthRun(events, depth).Some?
    requires base.Over? && base.top.ListFrame? && Level(base) == level
    ensures Quiet(target, level, st, events)
    decreases |events|
  {
    hide ValidGraph, Step, Within, Tends, Level;
    if events != [] && Step(target, st, events[0]).Ok? {
      var next := Step(target, st, events[0]).value;
      WithinTendsNot(level, st, events[0], next, base, depth);
      StepStaysWithin(target, st, events[0], base, depth);
      WithinIsQuiet(target, level, next, events[1..], base, DepthAfter(events[0], depth));
    }
  }

  // ----- a later row against the first -----------------------------------------------------------------

  /** Lookup by lookup, as long as the keys are those of the first row, each key means to its own struct what it
      meant to the struct that was asked for it in the first row. */
  predicate RowAnswers(first: seq<Query>, row: seq<Query>) {
    row == [] || first == [] || first[0].key != row[0].key ||
    (ActionFor(first[0].plan, row[0].key) == ActionFor(row[0].plan, row[0].key) && RowAnswers(first[1..], row[1..]))
  }

  /** The row asks for no other keys than the first one, in the same order, perhaps for fewer. */
  predicate Follows(first: seq<Query>, row: seq<Query>) {
    row == [] || (first != [] && first[0].key == row[0].key && Follows(first[1..], row[1..]))
  }

  predicate Sealed(memo: Memo, first: seq<Query>) {
    Holds(memo, first) && memo.complete && !memo.trusted && !memo.disabled
  }

  lemma {:induction false} SealedLookup(memo: Memo, first: seq<Query>, query: Query)
    requires Sealed(memo, first) && memo.cursor <= |first|
    ensures var rest, looked := first[memo.cursor..], Lookup(memo, query.plan, query.key);
            if rest != [] && rest[0].key == query.key
            then looked == Looked(ActionFor(rest[0].plan, query.key), memo.(cursor := memo.cursor + 1))
            else looked == Looked(ActionFor(query.plan, query.key), memo.(disabled := true))
  {
    hide ActionFor;
    if memo.cursor < |first| { assert memo.entries[memo.cursor] == Entry(first[memo.cursor].key, ActionFor(first[memo.cursor].plan, first[memo.cursor].key)); }
  }

  /** A sealed memo answers as the plans do throughout a row exactly when the row's lookups answer the first's. */
  lemma {:induction false} SealedRow(target: Target, level: nat, st: State, memo: Memo, events: seq<Event>, first: seq<Query>)
    requires ValidGraph(target.graph) && Quiet(target, level, st, events) && Sealed(memo, first) && memo.cursor <= |first|
    ensures var rest, trace := first[memo.cursor..], Trace(target, level, st, events);
            Agrees(target, level, st, memo, events) <==> RowAnswers(rest, trace)
    ensures var rest, trace, ran := first[memo.cursor..], Trace(target, level, st, events), MemoRun(target, level, st, memo, events);
            RowAnswers(rest, trace) ==>
              && ran.state == Run(target, st, events)
              && (if Follows(rest, trace) then ran.memo == memo.(cursor := ran.memo.cursor) && ran.memo.cursor <= |first| else ran.memo.disabled)
    decreases |events|
  {
    if events != [] {
      hide ValidGraph, Step, StepWith, ActionFor, Lookup, Sealed, Tends;
      var event := events[0];
      match Own(level, st, event)
      case Some(query) => SealedAsk(target, level, st, memo, events, first, query);
      case None =>
        if Step(target, st, event).Ok? {
          var next := Step(target, st, event).value;
          assert [] + Trace(target, level, next, events[1..]) == Trace(target, level, next, events[1..]);
          SealedRow(target, level, next, memo, events[1..], first);
        }
    }
  }

  lemma {:induction false} SealedAsk(target: Target, level: nat, st: State, memo: Memo, events: seq<Event>, first: seq<Query>, query: Query)
    requires ValidGraph(target.graph) && events != [] && Quiet(target, level, st, events) && Sealed(memo, first) && memo.cursor <= |first|
    requires Own(level, st, events[0]) == Some(query)
    ensures var rest, trace := first[memo.cursor..], Trace(target, level, st, events);
            Agrees(target, level, st, memo, events) <==> RowAnswers(rest, trace)
    ensures var rest, trace, ran := first[memo.cursor..], Trace(target, level, st, events), MemoRun(target, level, st, memo, events);
            RowAnswers(rest, trace) ==>
              && ran.state == Run(target, st, events)
              && (if Follows(rest, trace) then ran.memo == memo.(cursor := ran.memo.cursor) && ran.memo.cursor <= |first| else ran.memo.disabled)
    decreases |events|, 0
  {
    hide ValidGraph, Step, StepWith, ActionFor, Lookup, Tends, Holds;
    var event, rest := events[0], first[memo.cursor..];
    var step := Step(target, st, event);
    var trace := Trace(target, level, st, events);
    SealedLookup(memo, first, query);
    OwnActionSteps(target, st, event);
    assert trace[0] == query && trace[1..] == if step.Ok? then Trace(target, level, step.value, events[1..]) else [];
    if rest == [] || rest[0].key != query.key {
      if step.Ok? { DisabledIsPlain(target, level, step.value, memo.(disabled := true), events[1..]); }
    } else if ActionFor(rest[0].plan, query.key) == ActionFor(query.plan, query.key) {
      var next := memo.(cursor := memo.cursor + 1);
      assert rest[1..] == first[next.cursor..];
      assert Follows(rest, trace) == Follows(rest[1..], trace[1..]) && RowAnswers(rest, trace) == RowAnswers(rest[1..], trace[1..]);
      assert Sealed(next, first) by { SealedMoves(memo, next, first); }
      if step.Ok? { SealedRow(target, level, step.value, next, events[1..], first); }
    }
  }

  lemma {:induction false} SealedMoves(memo: Memo, next: Memo, first: seq<Query>)
    requires Sealed(memo, first) && next == memo.(cursor := next.cursor)
    ensures Sealed(next, first)
  {
  }

  // ----- one row ------------------------------------------------------------------------------------------

  /** Where a row of structs starts, and the memo it starts with. */
  function Started(st: State, plan: StructPlan): State {
    ObjectState(st, plan, EmptySlots(plan))
  }

  predicate StructItems(target: Target, id: nat, plan: StructPlan)
    requires ValidGraph(target.graph)
  {
    id < |target.graph| && target.graph[Resolved(target.graph, id)].plan == ObjectPlan(plan)
  }

  /** Under an array of structs at `level`. */
  predicate AtArray(target: Target, level: nat, st: State, id: nat, plan: StructPlan)
    requires ValidGraph(target.graph)
  {
    UnderArrayOf(st, id) && Level(st.stack) == level && StructItems(target, id, plan)
  }

  lemma {:induction false} ItemOpens(target: Target, level: nat, st: State, id: nat, plan: StructPlan, row: Tree, memo: Memo)
    requires ValidGraph(target.graph) && AtArray(target, level, st, id, plan) && row.Obj?
    ensures Step(target, st, Opening(row)) == Ok(Started(st, plan)) && Own(level, st, Opening(row)).None?
    ensures MemoStep(target, level, st, memo, Opening(row)) == Memoed(Ok(Started(st, plan)), memo.(cursor := 0))
  {
    hide ValidGraph, Forward;
    assert Step(target, st, Opening(row)) == Ok(Started(st, plan));
    hide Step;
  }

  /** The contents of a row: quiet, and behind them only the row's own slots have changed. */
  lemma {:induction false} ItemBody(target: Target, level: nat, st: State, id: nat, plan: StructPlan, row: Tree)
    requires ValidGraph(target.graph) && AtArray(target, level, st, id, plan) && row.Obj?
    ensures Quiet(target, level, Started(st, plan), Body(row))
    ensures Run(target, Started(st, plan), Body(row)).Ok? ==>
              exists slots :: Run(target, Started(st, plan), Body(row)) == Ok(ObjectState(st, plan, slots))
  {
    var start := Started(st, plan);
    assert Within(start, st.stack, 1);
    hide ValidGraph, Run, Quiet, Within, Level;
    DepthOfBody(row, false);
    WithinIsQuiet(target, level, start, Body(row), st.stack, 1);
    FieldsConvert(target, st, plan, EmptySlots(plan), row.fields, row.kind.Row?);
    if row.kind.Table? { NoAnnouncement(target, start, Some(row.kind.leafCount), row.at, FieldEvents(row.fields)); }
  }

  lemma {:induction false} ItemCloses(target: Target, level: nat, st: State, id: nat, plan: StructPlan, slots: seq<Option<Typed>>, row: Tree, memo: Memo)
    requires ValidGraph(target.graph) && AtArray(target, level, st, id, plan) && row.Obj?
    ensures Own(level, ObjectState(st, plan, slots), Closing(row)).None?
    ensures var closed := MemoStep(target, level, ObjectState(st, plan, slots), memo, Closing(row));
            && closed.state == Step(target, ObjectState(st, plan, slots), Closing(row))
            && (closed.state.Ok? ==> closed.memo == if memo.disabled then memo else memo.(complete := true))
  {
    hide ValidGraph, Step;
    assert Popped(ObjectState(st, plan, slots)) == st;
  }

  lemma {:induction false} TraceOfOne(target: Target, level: nat, st: State, event: Event)
    requires ValidGraph(target.graph) && Own(level, st, event).None?
    ensures Trace(target, level, st, [event]) == []
  {
    hide ValidGraph, Step;
    assert [event][1..] == [];
    if Step(target, st, event).Ok? { assert Trace(target, level, Step(target, st, event).value, []) == []; }
  }

  /** The lookups of a row are those of its contents. */
  lemma {:induction false} ItemTrace(target: Target, level: nat, st: State, id: nat, plan: StructPlan, row: Tree)
    requires ValidGraph(target.graph) && AtArray(target, level, st, id, plan) && row.Obj?
    ensures Trace(target, level, st, EventsOf(row)) == Trace(target, level, Started(st, plan), Body(row))
  {
    hide ValidGraph, Run, Step, Trace, AtArray, EventsOf, Body;
    var start, open, body, close := Started(st, plan), Opening(row), Body(row), Closing(row);
    EventsAround(row);
    ItemOpens(target, level, st, id, plan, row, FRESH);
    ItemBody(target, level, st, id, plan, row);
    RunOne(target, st, open);
    RunConcat(target, st, [open], body);
    TraceConcat(target, level, st, [open] + body, [close]);
    TraceConcat(target, level, st, [open], body);
    TraceOfOne(target, level, st, open);
    assert [] + Trace(target, level, start, body) == Trace(target, level, start, body);
    if Run(target, start, body).Ok? {
      var slots :| Run(target, start, body) == Ok(ObjectState(st, plan, slots));
      ItemCloses(target, level, st, id, plan, slots, row, FRESH);
      TraceOfOne(target, level, ObjectState(st, plan, slots), close);
      assert Trace(target, level, start, body) + [] == Trace(target, level, start, body);
    }
  }

  /** A row agrees as its contents do, and its end seals the memo. */
  lemma {:induction false} ItemRuns(target: Target, level: nat, st: State, id: nat, plan: StructPlan, row: Tree, memo: Memo)
    requires ValidGraph(target.graph) && AtArray(target, level, st, id, plan) && row.Obj?
    ensures var start, inner := Started(st, plan), memo.(cursor := 0);
            var inside, ran := MemoRun(target, level, start, inner, Body(row)), MemoRun(target, level, st, memo, EventsOf(row));
            && (Agrees(target, level, start, inner, Body(row)) && inside.state == Run(target, start, Body(row)) ==>
                  && Agrees(target, level, st, memo, EventsOf(row)) && ran.state == Run(target, st, EventsOf(row))
                  && (ran.state.Ok? ==> ran.memo == if inside.memo.disabled then inside.memo else inside.memo.(complete := true)))
            && (Agrees(target, level, st, memo, EventsOf(row)) ==> Agrees(target, level, start, inner, Body(row)))
  {
    hide ValidGraph, Run, MemoRun, MemoStep, Step, Agrees, AtArray, EventsOf, Body;
    var start, inner, open, body, close := Started(st, plan), memo.(cursor := 0), Opening(row), Body(row), Closing(row);
    EventsAround(row);
    ItemOpens(target, level, st, id, plan, row, memo);
    ItemBody(target, level, st, id, plan, row);
    RunAround(target, st, open, body, close);
    MemoConcat(target, level, st, memo, [open] + body, [close]);
    MemoConcat(target, level, st, memo, [open], body);
    MemoOne(target, level, st, memo, open);
    var inside := MemoRun(target, level, start, inner, body);
    if inside.state == Run(target, start, body) && inside.state.Ok? {
      var slots :| Run(target, start, body) == Ok(ObjectState(st, plan, slots));
      RunOne(target, ObjectState(st, plan, slots), close);
      MemoOne(target, level, ObjectState(st, plan, slots), inside.memo, close);
      ItemCloses(target, level, st, id, plan, slots, row, inside.memo);
    }
  }

  /** An item that is no object asks nothing and leaves the memo alone. */
  lemma {:induction false} OtherItem(target: Target, level: nat, st: State, id: nat, plan: StructPlan, item: Tree, memo: Memo)
    requires ValidGraph(target.graph) && AtArray(target, level, st, id, plan) && !item.Obj?
    ensures Agrees(target, level, st, memo, EventsOf(item))
    ensures var ran := MemoRun(target, level, st, memo, EventsOf(item)); ran.state == Run(target, st, EventsOf(item)) && ran.memo == memo
  {
    match item
    case Leaf(token, at) =>
      hide ValidGraph, ConvertScalar;
      MemoOne(target, level, st, memo, Scalar(token, at));
      RunOne(target, st, Scalar(token, at));
      hide MemoRun, Run, Agrees;
    case Arr(declared, _, _, at) =>
      EventsAround(item);
      assert Step(target, st, StartArray(declared, at)) == TypeMismatchAt(at);
      assert EventsOf(item)[0] == StartArray(declared, at);
      hide ValidGraph, Step;
  }

  // ----- the whole list ------------------------------------------------------------------------------------

  /** The lookups the plain machine makes for each row that is an object, in turn. */
  function RowTraces(target: Target, level: nat, st: State, items: seq<Tree>): seq<seq<Query>>
    requires ValidGraph(target.graph)
    decreases |items|
  {
    if items == [] then []
    else
      (if items[0].Obj? then [Trace(target, level, st, EventsOf(items[0]))] else []) +
      (match Run(target, st, EventsOf(items[0])) { case Err(_) => [] case Ok(next) => RowTraces(target, level, next, items[1..]) })
  }

  /** Each row answers to the first one, until a row asks for other keys: from there on the memo is off. */
  predicate LaterAnswer(first: seq<Query>, rows: seq<seq<Query>>) {
    rows == [] || (RowAnswers(first, rows[0]) && (Follows(first, rows[0]) ==> LaterAnswer(first, rows[1..])))
  }

  predicate ListAnswers(rows: seq<seq<Query>>) {
    rows == [] || LaterAnswer(rows[0], rows[1..])
  }

  ghost predicate PlainRun(target: Target, level: nat, st: State, memo: Memo, events: seq<Event>)
    requires ValidGraph(target.graph)
  {
    Agrees(target, level, st, memo, events) && MemoRun(target, level, st, memo, events).state == Run(target, st, events)
  }

  /** One more row under a sealed memo. */
  lemma {:induction false} SealedItem(target: Target, level: nat, st: State, id: nat, plan: StructPlan, row: Tree, memo: Memo, first: seq<Query>)
    requires ValidGraph(target.graph) && AtArray(target, level, st, id, plan) && row.Obj? && Sealed(memo, first)
    ensures var trace := Trace(target, level, st, EventsOf(row));
            && (RowAnswers(first, trace) ==> PlainRun(target, level, st, memo, EventsOf(row)))
            && (Agrees(target, level, st, memo, EventsOf(row)) ==> RowAnswers(first, trace))
    ensures var trace, ran := Trace(target, level, st, EventsOf(row)), MemoRun(target, level, st, memo, EventsOf(row));
            RowAnswers(first, trace) && ran.state.Ok? ==> if Follows(first, trace) then Sealed(ran.memo, first) else ran.memo.disabled
  {
    var start, inner := Started(st, plan), memo.(cursor := 0);
    ItemTrace(target, level, st, id, plan, row);
    ItemBody(target, level, st, id, plan, row);
    assert first[0..] == first;
    hide ValidGraph, Run, MemoRun, Agrees, AtArray, EventsOf, Body, Trace, RowAnswers, Follows, Quiet, Holds;
    assert Sealed(inner, first) by { SealedMoves(memo, inner, first); }
    SealedRow(target, level, start, inner, Body(row), first);
    ItemRuns(target, level, st, id, plan, row, memo);
    var inside := MemoRun(target, level, start, inner, Body(row)).memo;
    if inside == inner.(cursor := inside.cursor) { SealedMoves(memo, inside, first); }
  }

  lemma {:induction false} StaysAtArray(target: Target, level: nat, st: State, id: nat, plan: StructPlan, item: Tree)
    requires ValidGraph(target.graph) && AtArray(target, level, st, id, plan) && Run(target, st, EventsOf(item)).Ok?
    ensures AtArray(target, level, Run(target, st, EventsOf(item)).value, id, plan)
  {
    hide ValidGraph, Run, EventsOf;
    RowLeavesArray(target, st, id, item);
  }

  lemma {:induction false} LaterItems(target: Target, level: nat, st: State, id: nat, plan: StructPlan, items: seq<Tree>, memo: Memo, first: seq<Query>)
    requires ValidGraph(target.graph) && AtArray(target, level, st, id, plan) && Sealed(memo, first)
    ensures LaterAnswer(first, RowTraces(target, level, st, items)) ==> PlainRun(target, level, st, memo, ItemEvents(items))
    ensures Agrees(target, level, st, memo, ItemEvents(items)) ==> LaterAnswer(first, RowTraces(target, level, st, items))
    decreases |items|
  {
    if items == [] {
      NoEvents(target, level, st, memo);
    } else {
      hide ValidGraph, Run, MemoRun, Agrees, AtArray, EventsOf, Trace, RowAnswers, Follows, Sealed;
      var item, rest := items[0], items[1..];
      var ran := MemoRun(target, level, st, memo, EventsOf(item));
      MemoConcat(target, level, st, memo, EventsOf(item), ItemEvents(rest));
      RunConcat(target, st, EventsOf(item), ItemEvents(rest));
      if item.Obj? { SealedItem(target, level, st, id, plan, item, memo, first); } else { OtherItem(target, level, st, id, plan, item, memo); }
      var plain := Run(target, st, EventsOf(item));
      var later := if plain.Ok? then RowTraces(target, level, plain.value, rest) else [];
      var trace := Trace(target, level, st, EventsOf(item));
      assert RowTraces(target, level, st, items) == if item.Obj? then [trace] + later else later;
      assert ([trace] + later)[1..] == later && [] + later == later;
      if plain.Ok? && ran.state == plain {
        StaysAtArray(target, level, st, id, plan, item);
        if ran.memo.disabled { DisabledIsPlain(target, level, plain.value, ran.memo, ItemEvents(rest)); }
        if Sealed(ran.memo, first) { LaterItems(target, level, plain.value, id, plan, rest, ran.memo, first); }
      }
    }
  }

  /** The first row is answered from the plans and recorded. */
  lemma {:induction false} FirstItem(target: Target, level: nat, st: State, id: nat, plan: StructPlan, row: Tree)
    requires ValidGraph(target.graph) && AtArray(target, level, st, id, plan) && row.Obj?
    ensures PlainRun(target, level, st, FRESH, EventsOf(row))
    ensures var ran := MemoRun(target, level, st, FRESH, EventsOf(row));
            ran.state.Ok? ==> Sealed(ran.memo, Trace(target, level, st, EventsOf(row)))
  {
    var start, trace := Started(st, plan), Trace(target, level, st, EventsOf(row));
    ItemTrace(target, level, st, id, plan, row);
    ItemBody(target, level, st, id, plan, row);
    assert FRESH.(cursor := 0) == FRESH && Recording(FRESH, []);
    hide ValidGraph, Run, MemoRun, Agrees, AtArray, EventsOf, Body, Trace, Quiet, Holds;
    RecordIsPlain(target, level, start, FRESH, Body(row), []);
    ItemRuns(target, level, st, id, plan, row, FRESH);
    assert [] + trace == trace;
    var inside := MemoRun(target, level, start, FRESH, Body(row)).memo;
    RecordedIsSealed(inside, trace);
  }

  lemma {:induction false} RecordedIsSealed(memo: Memo, queries: seq<Query>)
    requires Recording(memo, queries) && !memo.trusted
    ensures Sealed(memo.(complete := true), queries)
  {
  }

  /** An array of structs written as a list, whatever its items: at every key of every row its memo answers as the
      frame's own plan does, and the run is the plain one, exactly when the rows answer to the first. */
  lemma {:induction false} ListReplayIsPlain(target: Target, st: State, id: nat, plan: StructPlan, items: seq<Tree>)
    requires ValidGraph(target.graph) && AtArray(target, Level(st.stack), st, id, plan)
    ensures var level := Level(st.stack);
            Agrees(target, level, st, FRESH, ItemEvents(items)) <==> ListAnswers(RowTraces(target, level, st, items))
    ensures var level := Level(st.stack);
            ListAnswers(RowTraces(target, level, st, items)) ==>
              MemoRun(target, level, st, FRESH, ItemEvents(items)).state == Run(target, st, ItemEvents(items))
  {
    hide ValidGraph, AtArray, RowTraces, ListAnswers, Agrees, MemoRun, Run;
    FreshItems(target, Level(st.stack), st, id, plan, items);
  }

  lemma {:induction false} FreshItems(target: Target, level: nat, st: State, id: nat, plan: StructPlan, items: seq<Tree>)
    requires ValidGraph(target.graph) && AtArray(target, level, st, id, plan)
    ensures ListAnswers(RowTraces(target, level, st, items)) ==> PlainRun(target, level, st, FRESH, ItemEvents(items))
    ensures Agrees(target, level, st, FRESH, ItemEvents(items)) ==> ListAnswers(RowTraces(target, level, st, items))
    decreases |items|
  {
    if items == [] {
      NoEvents(target, level, st, FRESH);
    } else {
      hide ValidGraph, Run, MemoRun, Agrees, AtArray, EventsOf, Trace, RowAnswers, Follows, Sealed, LaterAnswer;
      var item, rest := items[0], items[1..];
      MemoConcat(target, level, st, FRESH, EventsOf(item), ItemEvents(rest));
      RunConcat(target, st, EventsOf(item), ItemEvents(rest));
      if item.Obj? { FirstItem(target, level, st, id, plan, item); } else { OtherItem(target, level, st, id, plan, item, FRESH); }
      var plain, ran := Run(target, st, EventsOf(item)), MemoRun(target, level, st, FRESH, EventsOf(item));
      var later := if plain.Ok? then RowTraces(target, level, plain.value, rest) else [];
      var trace := Trace(target, level, st, EventsOf(item));
      assert RowTraces(target, level, st, items) == if item.Obj? then [trace] + later else later;
      assert ([trace] + later)[1..] == later && [] + later == later;
      if plain.Ok? {
        StaysAtArray(target, level, st, id, plan, item);
        if item.Obj? {
          LaterItems(target, level, plain.value, id, plan, rest, ran.memo, trace);
        } else {
          FreshItems(target, level, plain.value, id, plan, rest);
        }
      } else {
        NothingLater(trace);
      }
    }
  }

  lemma {:induction false} NothingLater(trace: seq<Query>)
    ensures LaterAnswer(trace, [])
  {
  }

  // ----- arrays that always answer ---------------------------------------------------------------------------

  predicate AskedOf(plan: StructPlan, queries: seq<Query>) {
    forall i :: 0 <= i < |queries| ==> queries[i].plan == plan
  }

  /** Rows that only ever ask their own struct, as rows without structs inside them do, always answer. */
  lemma {:induction false} FlatRowsAnswer(plan: StructPlan, rows: seq<seq<Query>>)
    requires forall i :: 0 <= i < |rows| ==> AskedOf(plan, rows[i])
    ensures ListAnswers(rows)
  {
    if rows != [] { FlatRowsFollow(plan, rows[0], rows[1..]); }
  }

  lemma {:induction false} FlatRowsFollow(plan: StructPlan, first: seq<Query>, rows: seq<seq<Query>>)
    requires AskedOf(plan, first) && forall i :: 0 <= i < |rows| ==> AskedOf(plan, rows[i])
    ensures LaterAnswer(first, rows)
  {
    if rows != [] {
      FlatRowAnswers(plan, first, rows[0]);
      assert forall i :: 0 <= i < |rows| - 1 ==> rows[1..][i] == rows[i + 1];
      FlatRowsFollow(plan, first, rows[1..]);
    }
  }

  lemma {:induction false} FlatRowAnswers(plan: StructPlan, first: seq<Query>, row: seq<Query>)
    requires AskedOf(plan, first) && AskedOf(plan, row)
    ensures RowAnswers(first, row)
    decreases |row|
  {
    if row != [] && first != [] { FlatRowAnswers(plan, first[1..], row[1..]); }
  }

  // ----- arrays whose items are no structs ---------------------------------------------------------------------

  lemma {:induction false} QuietConcat(target: Target, level: nat, st: State, a: seq<Event>, b: seq<Event>)
    requires ValidGraph(target.graph) && Quiet(target, level, st, a)
    requires Run(target, st, a).Ok? ==> Quiet(target, level, Run(target, st, a).value, b)
    ensures Quiet(target, level, st, a + b)
    decreases |a|
  {
    hide ValidGraph, Step, Tends;
    if a == [] {
      assert a + b == b;
    } else {
      assert (a + b)[1..] == a[1..] + b;
      if Step(target, st, a[0]).Ok? { QuietConcat(target, level, Step(target, st, a[0]).value, a[1..], b); }
    }
  }

  lemma {:induction false} QuietOne(target: Target, level: nat, st: State, event: Event)
    requires ValidGraph(target.graph)
    requires Step(target, st, event).Ok? ==> !Tends(level, st, event, Step(target, st, event).value)
    ensures Quiet(target, level, st, [event])
  {
    hide ValidGraph, Step, Tends;
    assert [event][1..] == [];
    if Step(target, st, event).Ok? { assert Quiet(target, level, Step(target, st, event).value, []); }
  }

  lemma {:induction false} QuietAround(target: Target, level: nat, st: State, open: Event, body: seq<Event>, close: Event)
    requires ValidGraph(target.graph) && Quiet(target, level, st, [open])
    requires Step(target, st, open).Ok? ==> Quiet(target, level, Step(target, st, open).value, body)
    requires Then(target, Step(target, st, open), body).Ok? ==> Quiet(target, level, Then(target, Step(target, st, open), body).value, [close])
    ensures Quiet(target, level, st, [open] + body + [close])
  {
    hide ValidGraph, Step, Tends, Run, Quiet;
    RunOne(target, st, open);
    RunConcat(target, st, [open], body);
    QuietConcat(target, level, st, [open], body);
    QuietConcat(target, level, st, [open] + body, [close]);
  }

  /** Inside an `Any` subtree no event tends a memo. */
  lemma {:induction false} SubIsQuiet(target: Target, level: nat, st: State, events: seq<Event>)
    requires ValidGraph(target.graph) && st.sub.Some? && st.sub.value.depth > 0 && DepthRun(events, st.sub.value.depth).Some?
    ensures Quiet(target, level, st, events)
    decreases |events|
  {
    if events != [] {
      if Step(target, st, events[0]).Ok? { SubKeeps(target, st, events[0]); }
      hide ValidGraph, Step;
      if Step(target, st, events[0]).Ok? { SubIsQuiet(target, level, Step(target, st, events[0]).value, events[1..]); }
    }
  }

  predicate LooseItems(target: Target, level: nat, st: State, id: nat)
    requires ValidGraph(target.graph)
  {
    && UnderArrayOf(st, id) && Level(st.stack) == level && id < |target.graph|
    && !target.graph[Resolved(target.graph, id)].plan.ObjectPlan?
  }

  lemma {:induction false} LooseObjectOpens(target: Target, level: nat, st: State, id: nat, item: Tree)
    requires ValidGraph(target.graph) && LooseItems(target, level, st, id) && item.Obj?
    ensures var node := target.graph[Resolved(target.graph, id)];
            match node.plan
            case DictPlan(_, value) => Step(target, st, Opening(item)) == Ok(DictState(st, [], value, node.limits))
            case AnyPlan => Step(target, st, Opening(item)) == Ok(WithSub(st, SubOpened(item), 1))
            case _ => Step(target, st, Opening(item)).Err?
  {
    var node := target.graph[Resolved(target.graph, id)];
    hide ValidGraph;
    assert Step(target, st, Opening(item)) == OpenObject(target, st, id, item.at);
    if node.plan.AnyPlan? { BeginsAny(st, item, StartObject(item.at), item.at); }
  }

  lemma {:induction false} LooseObject(target: Target, level: nat, st: State, id: nat, item: Tree)
    requires ValidGraph(target.graph) && LooseItems(target, level, st, id) && item.Obj?
    ensures Quiet(target, level, st, EventsOf(item))
  {
    var node := target.graph[Resolved(target.graph, id)];
    EventsAround(item);
    LooseObjectOpens(target, level, st, id, item);
    DepthOfBody(item, false);
    QuietOne(target, level, st, Opening(item));
    if node.plan.DictPlan? {
      LooseDict(target, level, st, id, item, node.plan.value, node.limits);
    } else if node.plan.AnyPlan? {
      hide ValidGraph, Run, Step, Quiet, Level, DepthRun;
      SubIsQuiet(target, level, WithSub(st, SubOpened(item), 1), Body(item));
      SubFills(item, false);
      SubRuns(target, st, Body(item), SubOpened(item), 1, SubFilled(item));
      QuietOne(target, level, WithSub(st, SubFilled(item), 1), Closing(item));
      QuietAround(target, level, st, Opening(item), Body(item), Closing(item));
    } else {
      hide ValidGraph, Run, Step, Quiet;
      QuietAround(target, level, st, Opening(item), Body(item), Closing(item));
    }
  }

  lemma {:induction false} LooseDict(target: Target, level: nat, st: State, id: nat, item: Tree, value: nat, limits: Limits)
    requires ValidGraph(target.graph) && LooseItems(target, level, st, id) && item.Obj?
    requires Step(target, st, Opening(item)) == Ok(DictState(st, [], value, limits))
    ensures Quiet(target, level, st, [Opening(item)] + Body(item) + [Closing(item)])
  {
    var begun := DictState(st, [], value, limits);
    assert Within(begun, st.stack, 1);
    QuietOne(target, level, st, Opening(item));
    DepthOfBody(item, false);
    hide ValidGraph, Run, Step, Quiet, Within, Level, ConvertPairs;
    WithinIsQuiet(target, level, begun, Body(item), st.stack, 1);
    PairsConvert(target, st, [], value, limits, item.fields, item.kind.Row?);
    if item.kind.Table? { NoAnnouncement(target, begun, Some(item.kind.leafCount), item.at, FieldEvents(item.fields)); }
    var filled := Run(target, begun, Body(item));
    if filled.Ok? { QuietOne(target, level, filled.value, Closing(item)); }
    QuietAround(target, level, st, Opening(item), Body(item), Closing(item));
  }

  lemma {:induction false} LooseArray(target: Target, level: nat, st: State, id: nat, item: Tree)
    requires ValidGraph(target.graph) && LooseItems(target, level, st, id) && item.Arr?
    ensures Quiet(target, level, st, EventsOf(item))
  {
    var open := StartArray(item.declared, item.at);
    var step := Step(target, st, open);
    EventsAround(item);
    DepthOfBody(item, false);
    QuietOne(target, level, st, open);
    var plan := target.graph[Resolved(target.graph, id)].plan;
    assert step == OpenArray(target, st, id, item.declared, item.at);
    if plan.AnyPlan? {
      BeginsAny(st, item, open, item.at);
      assert step == Ok(WithSub(st, SubOpened(item), 1));
      hide ValidGraph, Run, Step, Quiet, Level, DepthRun;
      SubIsQuiet(target, level, step.value, Body(item));
    } else if step.Ok? {
      assert Within(step.value, st.stack, 1);
      hide ValidGraph, Run, Step, Quiet, Level, Within;
      WithinIsQuiet(target, level, step.value, Body(item), st.stack, 1);
    }
    hide ValidGraph, Run, Step, Quiet, Level, DepthRun;
    var filled := Then(target, step, Body(item));
    if filled.Ok? { QuietOne(target, level, filled.value, EndArray(item.at)); }
    QuietAround(target, level, st, open, Body(item), EndArray(item.at));
  }

  lemma {:induction false} LooseIsQuiet(target: Target, level: nat, st: State, id: nat, items: seq<Tree>)
    requires ValidGraph(target.graph) && LooseItems(target, level, st, id)
    ensures Quiet(target, level, st, ItemEvents(items))
    decreases |items|
  {
    if items != [] {
      match items[0] {
        case Leaf(token, at) => QuietOne(target, level, st, Scalar(token, at));
        case Arr(_, _, _, _) => LooseArray(target, level, st, id, items[0]);
        case Obj(_, _, _) => LooseObject(target, level, st, id, items[0]);
      }
      hide ValidGraph, Run, Quiet, EventsOf, Level;
      var next := Run(target, st, EventsOf(items[0]));
      if next.Ok? {
        RowLeavesArray(target, st, id, items[0]);
        LooseIsQuiet(target, level, next.value, id, items[1..]);
      }
      QuietConcat(target, level, st, EventsOf(items[0]), ItemEvents(items[1..]));
    }
  }

  /** An array whose items are no structs never seals its memo: it only records, and every answer is the plan's. */
  lemma {:induction false} LooseListIsPlain(target: Target, st: State, id: nat, items: seq<Tree>)
    requires ValidGraph(target.graph) && LooseItems(target, Level(st.stack), st, id)
    ensures var level := Level(st.stack);
            && Agrees(target, level, st, FRESH, ItemEvents(items))
            && MemoRun(target, level, st, FRESH, ItemEvents(items)).state == Run(target, st, ItemEvents(items))
  {
    assert Recording(FRESH, []);
    hide ValidGraph, Run, MemoRun, Quiet, Level, Trace;
    LooseIsQuiet(target, Level(st.stack), st, id, items);
    RecordIsPlain(target, Level(st.stack), st, FRESH, ItemEvents(items), []);
  }
}
