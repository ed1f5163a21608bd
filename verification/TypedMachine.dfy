/** The typed consumer: a frame stack that builds the requested target directly from events (src/typed.rs). */
module TypedMachine {
  import opened Bytes
  import opened Faults
  import opened Tokens
  import opened Escapes
  import opened Events
  import opened Values
  import opened Plans
  import Untyped

  // ----- frames -----------------------------------------------------------------------------

  /** Where a sequence finds the plan of its next element. */
  datatype Source = Uniform(plan: nat) | ByPosition(plans: seq<nat>)

  function PlanAt(source: Source, index: nat): Option<nat> {
    match source
    case Uniform(plan) => Some(plan)
    case ByPosition(plans) => if index < |plans| then Some(plans[index]) else None
  }

  datatype Frame =
    | ObjectFrame(plan: StructPlan, slots: seq<Option<Typed>>, awaiting: Option<nat>, skipping: bool)
    | ListFrame(items: seq<Typed>, source: Source, isTuple: bool, limits: Limits)
    | DictFrame(pairs: seq<TypedPair>, pending: Option<bytes>, value: nat, limits: Limits)

  datatype Stack = Bottom | Over(top: Frame, below: Stack)

  /** An untyped consumer at work inside an `Any` subtree, and how many containers it has open. */
  datatype Sub = Sub(state: Untyped.State, depth: nat)

  datatype State = State(stack: Stack, result: Option<Typed>, skipDepth: nat, sub: Option<Sub>)

  const START: State := State(Bottom, None, 0, None)

  function Broken<T>(at: Position): Result<T> {
    Err(SyntaxAt(Internal, at))
  }

  function SlotAt(slots: seq<Option<Typed>>, index: nat): Option<Typed> {
    if index < |slots| then slots[index] else None
  }

  function WithSlot(slots: seq<Option<Typed>>, index: nat, value: Typed): (r: seq<Option<Typed>>)
    ensures |r| == |slots|
  {
    if index < |slots| then slots[index := Some(value)] else slots
  }

  function EmptySlots(plan: StructPlan): seq<Option<Typed>> {
    seq(|plan.fields|, _ => None)
  }

  function SetTyped(pairs: seq<TypedPair>, key: bytes, value: Typed): seq<TypedPair> {
    if pairs == [] then [TypedPair(key, value)]
    else if pairs[0].key == key then [TypedPair(key, value)] + pairs[1..]
    else [pairs[0]] + SetTyped(pairs[1..], key, value)
  }

  function Push(st: State, frame: Frame): State {
    st.(stack := Over(frame, st.stack))
  }

  function WithTop(st: State, frame: Frame): State
    requires st.stack.Over?
  {
    st.(stack := Over(frame, st.stack.below))
  }

  function Popped(st: State): State
    requires st.stack.Over?
  {
    st.(stack := st.stack.below)
  }

  // ----- what the machine expects -------------------------------------------------------------

  /** The plan of the next value, or the fault that explains its absence. */
  function Expected(target: Target, st: State, at: Position): Result<nat> {
    match st.stack
    case Bottom => Ok(target.root)
    case Over(ObjectFrame(plan, _, awaiting, _), _) =>
      if awaiting.Some? && awaiting.value < |plan.fields| then Ok(plan.fields[awaiting.value].value) else Broken(at)
    case Over(ListFrame(items, source, _, _), _) =>
      (match PlanAt(source, |items|)
       case Some(plan) => Ok(plan)
       case None => TypeMismatchAt(at))
    case Over(DictFrame(_, _, value, _), _) => Ok(value)
  }

  function Place(st: State, value: Typed, at: Position): Result<State> {
    match st.stack
    case Bottom => Ok(st.(result := Some(value)))
    case Over(ObjectFrame(plan, slots, awaiting, skipping), _) =>
      if awaiting.None? then Broken(at)
      else Ok(WithTop(st, ObjectFrame(plan, WithSlot(slots, awaiting.value, value), None, skipping)))
    case Over(ListFrame(items, source, isTuple, limits), _) =>
      Ok(WithTop(st, ListFrame(items + [value], source, isTuple, limits)))
    case Over(DictFrame(pairs, pending, plan, limits), _) =>
      if pending.None? then Broken(at)
      else Ok(WithTop(st, DictFrame(SetTyped(pairs, pending.value, value), None, plan, limits)))
  }

  predicate TopSkips(st: State) {
    st.stack.Over? && st.stack.top.ObjectFrame? && st.stack.top.skipping
  }

  function ClearSkip(st: State): State {
    if st.stack.Over? && st.stack.top.ObjectFrame? then WithTop(st, st.stack.top.(skipping := false)) else st
  }

  // ----- `Any` subtrees -----------------------------------------------------------------------

  /** How an event changes the number of open containers. */
  function DepthAfter(event: Event, depth: nat): nat {
    match event
    case StartObject(_) => depth + 1
    case StartRepeatedObject(_) => depth + 1
    case StartArray(_, _) => depth + 1
    case StartObjectField(_, _) => depth + 1
    case EndObject(_) => if depth > 0 then depth - 1 else 0
    case EndArray(_) => if depth > 0 then depth - 1 else 0
    case EndObjectField(_) => if depth > 0 then depth - 1 else 0
    case _ => depth
  }

  /** Route an event to the untyped consumer; when its last container closes, its value is placed. */
  function Forward(st: State, event: Event, at: Position): Result<State>
    requires st.sub.Some?
  {
    var next :- Untyped.Step(st.sub.value.state, event);
    var depth := DepthAfter(event, st.sub.value.depth);
    if depth > 0 then Ok(st.(sub := Some(Sub(next, depth))))
    else if next.result.None? then Broken(at)
    else Place(st.(sub := None), Plainly(next.result.value), at)
  }

  function BeginAny(st: State, event: Event, at: Position): Result<State> {
    Forward(st.(sub := Some(Sub(Untyped.State([], None), 0))), event, at)
  }

  // ----- containers ---------------------------------------------------------------------------

  function OpenObject(target: Target, st: State, id: nat, at: Position): Result<State>
    requires ValidGraph(target.graph)
  {
    if id >= |target.graph| then Broken(at)
    else
      var node := target.graph[Resolved(target.graph, id)];
      match node.plan
      case ObjectPlan(plan) => Ok(Push(st, ObjectFrame(plan, EmptySlots(plan), None, false)))
      case DictPlan(_, value) => Ok(Push(st, DictFrame([], None, value, node.limits)))
      case AnyPlan => BeginAny(st, StartObject(at), at)
      case _ => TypeMismatchAt(at)
  }

  function OpenArray(target: Target, st: State, id: nat, declared: nat, at: Position): Result<State>
    requires ValidGraph(target.graph)
  {
    if id >= |target.graph| then Broken(at)
    else
      var node := target.graph[Resolved(target.graph, id)];
      match node.plan
      case ListPlan(item) => Ok(Push(st, ListFrame([], Uniform(item), false, node.limits)))
      case TuplePlan(item) => Ok(Push(st, ListFrame([], Uniform(item), true, node.limits)))
      case FixedPlan(plans) => Ok(Push(st, ListFrame([], ByPosition(plans), true, node.limits)))
      case AnyPlan => BeginAny(st, StartArray(declared, at), at)
      case _ => TypeMismatchAt(at)
  }

  /** The constructor's arguments: filled slots, or the fallbacks of the others. */
  function Arguments(fields: seq<FieldPlan>, slots: seq<Option<Typed>>, at: Position): Result<seq<Typed>>
    decreases |fields|
  {
    if fields == [] then Ok([])
    else
      var n := |fields| - 1;
      var before :- Arguments(fields[..n], slots, at);
      match SlotAt(slots, n)
      case Some(value) => Ok(before + [value])
      case None => if fields[n].fallback.Some? then Ok(before + [fields[n].fallback.value]) else Err(ValidationAt(MissingField, at))
  }

  function FinishObject(plan: StructPlan, slots: seq<Option<Typed>>, at: Position): Result<Typed> {
    var arguments :- Arguments(plan.fields, slots, at);
    Ok(Instance(plan.class_, arguments))
  }

  function WrongLength(source: Source, n: nat): bool {
    source.ByPosition? && |source.plans| != n
  }

  function FinishList(items: seq<Typed>, source: Source, isTuple: bool, limits: Limits, at: Position): Result<Typed> {
    if WrongLength(source, |items|) then TypeMismatchAt(at)
    else if !LengthValid(limits, |items|) then Err(ValidationAt(Constraint, at))
    else Ok(if isTuple then TypedTuple(items) else TypedList(items))
  }

  function FinishDict(pairs: seq<TypedPair>, limits: Limits, at: Position): Result<Typed> {
    if !LengthValid(limits, |pairs|) then Err(ValidationAt(Constraint, at)) else Ok(TypedDict(pairs))
  }

  function Finished(st: State, r: Result<Typed>, at: Position): Result<State> {
    var value :- r;
    Place(st, value, at)
  }

  function CloseObject(st: State, at: Position): Result<State> {
    match st.stack
    case Over(ObjectFrame(plan, slots, _, _), _) => Finished(Popped(st), FinishObject(plan, slots, at), at)
    case Over(DictFrame(pairs, _, _, limits), _) => Finished(Popped(st), FinishDict(pairs, limits, at), at)
    case _ => Broken(at)
  }

  function CloseArray(st: State, at: Position): Result<State> {
    match st.stack
    case Over(ListFrame(items, source, isTuple, limits), _) => Finished(Popped(st), FinishList(items, source, isTuple, limits, at), at)
    case _ => Broken(at)
  }

  /** Leave one level of a skipped value. */
  function SkipClose(st: State): State
    requires st.skipDepth > 0
  {
    var next := st.(skipDepth := st.skipDepth - 1);
    if next.skipDepth == 0 then ClearSkip(next) else next
  }

  // ----- events -------------------------------------------------------------------------------

  function OnStart(target: Target, st: State, event: Event, at: Position): Result<State>
    requires ValidGraph(target.graph)
  {
    if st.sub.Some? then Forward(st, event, at)
    else if st.skipDepth > 0 then Ok(st.(skipDepth := st.skipDepth + 1))
    else if TopSkips(st) then Ok(st.(skipDepth := 1))
    else
      var id :- Expected(target, st, at);
      if event.StartArray? then OpenArray(target, st, id, event.declared, at) else OpenObject(target, st, id, at)
  }

  /** The slot a key selects in the innermost object, after the checks on the key. */
  datatype Choice = Slot(index: nat) | Unknown

  function Choose(target: Target, frame: Frame, key: bytes, at: Position): (r: Result<Choice>)
    requires frame.ObjectFrame?
    ensures r.Ok? && r.value.Slot? ==> r.value.index < |frame.plan.fields|
  {
    Decide(target, frame, ActionFor(frame.plan, key), at)
  }

  /** What an action on a key means for the frame: pass over the value, refuse it, or fill a slot. */
  function Decide(target: Target, frame: Frame, action: FieldAction, at: Position): (r: Result<Choice>)
    requires frame.ObjectFrame?
    ensures r.Ok? && r.value.Slot? ==> action == TakeField(r.value.index)
  {
    match action
    case SkipKey => Ok(Unknown)
    case RejectKey => Err(ValidationAt(UnknownField, at))
    case TakeField(index) =>
      if SlotAt(frame.slots, index).Some? && target.strict then Err(ValidationAt(DuplicateKey, at)) else Ok(Slot(index))
  }

  function OnKey(target: Target, st: State, key: StringToken, at: Position): Result<State> {
    if st.sub.Some? then Forward(st, Key(key, at), at)
    else if st.skipDepth > 0 then Ok(st)
    else match st.stack
      case Over(ObjectFrame(_, _, _, _), _) =>
        var choice :- Choose(target, st.stack.top, TextOf(key), at);
        Ok(WithTop(st, if choice.Slot? then st.stack.top.(awaiting := Some(choice.index)) else st.stack.top.(skipping := true)))
      case Over(DictFrame(_, _, _, _), _) => Ok(WithTop(st, st.stack.top.(pending := Some(TextOf(key)))))
      case _ => Broken(at)
  }

  function OnScalar(target: Target, st: State, token: ScalarToken, at: Position): Result<State>
    requires ValidGraph(target.graph)
  {
    if st.sub.Some? then Forward(st, Scalar(token, at), at)
    else if st.skipDepth > 0 then Ok(st)
    else if TopSkips(st) then Ok(ClearSkip(st))
    else
      var id :- Expected(target, st, at);
      if id >= |target.graph| then Broken(at) else Finished(st, ConvertScalar(target, id, token, at, |target.graph|), at)
  }

  /** A key and its scalar as one event: in an object the value goes straight to its slot. */
  function OnScalarField(target: Target, st: State, key: StringToken, token: ScalarToken, at: Position): Result<State>
    requires ValidGraph(target.graph)
  {
    if st.sub.None? && st.skipDepth > 0 then Ok(st)
    else if st.sub.None? && st.stack.Over? && st.stack.top.ObjectFrame? then
      var frame := st.stack.top;
      var choice :- Choose(target, frame, TextOf(key), at);
      if choice.Unknown? then Ok(st)
      else
        var id := frame.plan.fields[choice.index].value;
        if id >= |target.graph| then Broken(at)
        else
          var value :- ConvertScalar(target, id, token, at, |target.graph|);
          Ok(WithTop(st, frame.(slots := WithSlot(frame.slots, choice.index, value))))
    else
      var keyed :- OnKey(target, st, key, at);
      OnScalar(target, keyed, token, at)
  }

  /** A key and the opening of its object as one event. */
  function OnStartObjectField(target: Target, st: State, key: StringToken, at: Position): Result<State>
    requires ValidGraph(target.graph)
  {
    if st.sub.None? && st.skipDepth == 0 && st.stack.Over? && st.stack.top.ObjectFrame? then
      var frame := st.stack.top;
      var choice :- Choose(target, frame, TextOf(key), at);
      if choice.Unknown? then OnStart(target, WithTop(st, frame.(skipping := true)), StartObject(at), at)
      else OpenObject(target, WithTop(st, frame.(awaiting := Some(choice.index))), frame.plan.fields[choice.index].value, at)
    else
      var keyed :- OnKey(target, st, key, at);
      OnStart(target, keyed, StartObject(at), at)
  }

  function OnEndObject(st: State, at: Position): Result<State> {
    if st.sub.Some? then Forward(st, EndObject(at), at)
    else if st.skipDepth > 0 then Ok(SkipClose(st))
    else CloseObject(st, at)
  }

  function OnEndArray(st: State, at: Position): Result<State> {
    if st.sub.Some? then Forward(st, EndArray(at), at)
    else if st.skipDepth > 0 then Ok(SkipClose(st))
    else CloseArray(st, at)
  }

  /** An object directly inside an object goes straight to its slot. */
  function OnEndObjectField(st: State, at: Position): Result<State> {
    if st.sub.None? && st.skipDepth == 0 && st.stack.Over? && st.stack.top.ObjectFrame?
       && st.stack.below.Over? && st.stack.below.top.ObjectFrame? then
      var value :- FinishObject(st.stack.top.plan, st.stack.top.slots, at);
      var outer := st.stack.below.top;
      if outer.awaiting.None? then Broken(at)
      else Ok(WithTop(Popped(st), outer.(slots := WithSlot(outer.slots, outer.awaiting.value, value), awaiting := None)))
    else OnEndObject(st, at)
  }

  function Step(target: Target, st: State, event: Event): Result<State>
    requires ValidGraph(target.graph)
  {
    match event
    case StartObject(at) => OnStart(target, st, event, at)
    case StartRepeatedObject(at) => OnStart(target, st, event, at)
    case StartArray(_, at) => OnStart(target, st, event, at)
    case EndObject(at) => OnEndObject(st, at)
    case EndArray(at) => OnEndArray(st, at)
    case BeginTabular(_, _) => Ok(st)
    case Key(key, at) => OnKey(target, st, key, at)
    case Scalar(token, at) => OnScalar(target, st, token, at)
    case ScalarField(key, token, at) => OnScalarField(target, st, key, token, at)
    case StartObjectField(key, at) => OnStartObjectField(target, st, key, at)
    case EndObjectField(at) => OnEndObjectField(st, at)
  }

  function Run(target: Target, st: State, events: seq<Event>): Result<State>
    requires ValidGraph(target.graph)
    decreases |events|
  {
    if events == [] then Ok(st)
    else
      var next :- Step(target, st, events[0]);
      Run(target, next, events[1..])
  }
}
