/** The typed consumer as it runs: every event updates the frame stack in place (src/typed.rs). */
module TypedConsumer {
  import opened Bytes
  import opened Faults
  import opened Tokens
  import opened Escapes
  import opened Events
  import opened Values
  import opened Plans
  import opened TypedMachine
  import Untyped

  class Consumer {
    const target: Target
    var stack: Stack
    var result: Option<Typed>
    var skipDepth: nat
    var sub: Option<Sub>

    constructor (target: Target)
      requires ValidTarget(target)
      ensures Now() == START && this.target == target
    {
      this.target := target;
      stack := Bottom;
      result := None;
      skipDepth := 0;
      sub := None;
    }

    function Now(): State
      reads this
    {
      State(stack, result, skipDepth, sub)
    }

    /** The method did what the specification says of its state, or reported its fault. */
    ghost predicate Did(spec: Result<State>, r: Result<()>)
      reads this
    {
      match spec
      case Err(fault) => r == Err(fault)
      case Ok(st) => r == Ok(()) && Now() == st
    }

    /** The plan the next value is converted by. */
    method ExpectedPlan(at: Position) returns (r: Result<nat>)
      ensures r == Expected(target, Now(), at)
    {
      match stack
      case Bottom => return Ok(target.root);
      case Over(ObjectFrame(plan, _, awaiting, _), _) =>
        if awaiting.None? || awaiting.value >= |plan.fields| { return Broken(at); }
        return Ok(plan.fields[awaiting.value].value);
      case Over(ListFrame(items, source, _, _), _) =>
        var plan := PlanAt(source, |items|);
        return if plan.Some? then Ok(plan.value) else TypeMismatchAt(at);
      case Over(DictFrame(_, _, value, _), _) => return Ok(value);
    }

    /** Hand a finished value to the innermost frame. */
    method Put(value: Typed, at: Position) returns (r: Result<()>)
      modifies this
      ensures Did(Place(old(Now()), value, at), r)
    {
      match stack
      case Bottom =>
        result := Some(value);
        return Ok(());
      case Over(ObjectFrame(plan, slots, awaiting, skipping), below) =>
        if awaiting.None? { return Broken(at); }
        stack := Over(ObjectFrame(plan, WithSlot(slots, awaiting.value, value), None, skipping), below);
        return Ok(());
      case Over(ListFrame(items, source, isTuple, limits), below) =>
        stack := Over(ListFrame(items + [value], source, isTuple, limits), below);
        return Ok(());
      case Over(DictFrame(pairs, pending, plan, limits), below) =>
        if pending.None? { return Broken(at); }
        stack := Over(DictFrame(SetTyped(pairs, pending.value, value), None, plan, limits), below);
        return Ok(());
    }

    /** Route an event into the untyped consumer at work inside an `Any` subtree. */
    method AnyForward(event: Event, at: Position) returns (r: Result<()>)
      requires sub.Some?
      modifies this
      ensures Did(Forward(old(Now()), event, at), r)
    {
      var next := Untyped.Step(sub.value.state, event);
      if next.Err? { return Err(next.fault); }
      var depth := DepthAfter(event, sub.value.depth);
      if depth > 0 {
        sub := Some(Sub(next.value, depth));
        return Ok(());
      }
      if next.value.result.None? { return Broken(at); }
      sub := None;
      r := Put(Plainly(next.value.result.value), at);
    }

    method AnyBegin(event: Event, at: Position) returns (r: Result<()>)
      modifies this
      ensures Did(BeginAny(old(Now()), event, at), r)
    {
      sub := Some(Sub(Untyped.State([], None), 0));
      r := AnyForward(event, at);
    }

    method StartObjectForPlan(id: nat, at: Position) returns (r: Result<()>)
      requires ValidGraph(target.graph)
      modifies this
      ensures Did(OpenObject(target, old(Now()), id, at), r)
    {
      if id >= |target.graph| { return Broken(at); }
      var resolved := ResolveContainer(target.graph, id);
      var node := target.graph[resolved];
      match node.plan
      case ObjectPlan(plan) =>
        stack := Over(ObjectFrame(plan, EmptySlots(plan), None, false), stack);
        return Ok(());
      case DictPlan(_, value) =>
        stack := Over(DictFrame([], None, value, node.limits), stack);
        return Ok(());
      case AnyPlan => r := AnyBegin(StartObject(at), at);
      case _ => return TypeMismatchAt(at);
    }

    method StartArrayForPlan(id: nat, declared: nat, at: Position) returns (r: Result<()>)
      requires ValidGraph(target.graph)
      modifies this
      ensures Did(OpenArray(target, old(Now()), id, declared, at), r)
    {
      if id >= |target.graph| { return Broken(at); }
      var resolved := ResolveContainer(target.graph, id);
      var node := target.graph[resolved];
      match node.plan
      case ListPlan(item) =>
        stack := Over(ListFrame([], Uniform(item), false, node.limits), stack);
        return Ok(());
      case TuplePlan(item) =>
        stack := Over(ListFrame([], Uniform(item), true, node.limits), stack);
        return Ok(());
      case FixedPlan(plans) =>
        stack := Over(ListFrame([], ByPosition(plans), true, node.limits), stack);
        return Ok(());
      case AnyPlan => r := AnyBegin(StartArray(declared, at), at);
      case _ => return TypeMismatchAt(at);
    }

    /** Convert one scalar by its plan; the passes over a union stop at the first member that takes it. */
    method ConvertOne(id: nat, token: ScalarToken, at: Position) returns (r: Result<Typed>)
      requires ValidGraph(target.graph)
      ensures r == if id >= |target.graph| then Broken(at) else ConvertScalar(target, id, token, at, |target.graph|)
    {
      if id >= |target.graph| { return Broken(at); }
      r := ConvertWithin(id, token, at, |target.graph|);
    }

    method ConvertWithin(id: nat, token: ScalarToken, at: Position, steps: nat) returns (r: Result<Typed>)
      requires InRange(target.graph) && id < |target.graph|
      ensures r == ConvertScalar(target, id, token, at, steps)
      decreases steps, 3
    {
      var node := target.graph[id];
      if !node.plan.UnionPlan? { return ConvertPlain(token, target, node, at); }
      if token.NullToken? { return if node.plan.nullable then Ok(Plainly(Null)) else TypeMismatchAt(at); }
      if steps == 0 { return TypeMismatchAt(at); }
      assert forall k :: 0 <= k < |node.plan.members| ==> Edges(node.plan)[k] == node.plan.members[k];
      var tried := TryMembers(node.plan.members, Exactly, token, at, steps - 1);
      if tried.Some? { return tried.value; }
      for rank := 0 to 5
        invariant TryRanks(target, node.plan.members, 0, token, at, steps - 1) == TryRanks(target, node.plan.members, rank, token, at, steps - 1)
      {
        tried := TryMembers(node.plan.members, Ranked(rank), token, at, steps - 1);
        if tried.Some? { return tried.value; }
      }
      return TypeMismatchAt(at);
    }

    method TryMembers(members: seq<nat>, pass: Pass, token: ScalarToken, at: Position, steps: nat) returns (r: Option<Result<Typed>>)
      requires InRange(target.graph) && Members(target.graph, members)
      ensures r == TryPass(target, members, pass, token, at, steps)
      decreases steps, 4
    {
      assert members[0..] == members;
      for i := 0 to |members|
        invariant TryPass(target, members, pass, token, at, steps) == TryPass(target, members[i..], pass, token, at, steps)
      {
        assert members[i..][0] == members[i] && members[i..][1..] == members[i + 1..];
        if InPass(pass, target.graph[members[i]].plan, token) {
          var converted := ConvertWithin(members[i], token, at, steps);
          if !Refuses(converted) { return Some(converted); }
        }
      }
      return None;
    }

    /** Build the object from its slots, fallbacks in place of those left empty. */
    method BuildObject(plan: StructPlan, slots: seq<Option<Typed>>, at: Position) returns (r: Result<Typed>)
      ensures r == FinishObject(plan, slots, at)
    {
      var arguments: seq<Typed> := [];
      assert plan.fields[..0] == [];
      for index := 0 to |plan.fields|
        invariant Arguments(plan.fields[..index], slots, at) == Ok(arguments)
      {
        ghost var longer := plan.fields[..index + 1];
        assert longer[..index] == plan.fields[..index] && longer[index] == plan.fields[index];
        var slot := SlotAt(slots, index);
        if slot.None? && plan.fields[index].fallback.None? {
          MissingStays(plan.fields, slots, at, index + 1);
          return Err(ValidationAt(MissingField, at));
        }
        arguments := arguments + [if slot.Some? then slot.value else plan.fields[index].fallback.value];
      }
      assert plan.fields[..|plan.fields|] == plan.fields;
      return Ok(Instance(plan.class_, arguments));
    }

    method OnStartEvent(event: Event, at: Position) returns (r: Result<()>)
      requires ValidGraph(target.graph)
      modifies this
      ensures Did(OnStart(target, old(Now()), event, at), r)
    {
      if sub.Some? { r := AnyForward(event, at); return; }
      if skipDepth > 0 { skipDepth := skipDepth + 1; return Ok(()); }
      if TopSkips(Now()) { skipDepth := 1; return Ok(()); }
      var id :- ExpectedPlan(at);
      if event.StartArray? { r := StartArrayForPlan(id, event.declared, at); } else { r := StartObjectForPlan(id, at); }
    }

    method OnKeyEvent(key: StringToken, at: Position) returns (r: Result<()>)
      modifies this
      ensures Did(OnKey(target, old(Now()), key, at), r)
    {
      if sub.Some? { r := AnyForward(Key(key, at), at); return; }
      if skipDepth > 0 { return Ok(()); }
      if stack.Over? && stack.top.ObjectFrame? {
        var choice :- Choose(target, stack.top, TextOf(key), at);
        stack := Over(if choice.Slot? then stack.top.(awaiting := Some(choice.index)) else stack.top.(skipping := true), stack.below);
        return Ok(());
      }
      if stack.Over? && stack.top.DictFrame? {
        stack := Over(stack.top.(pending := Some(TextOf(key))), stack.below);
        return Ok(());
      }
      return Broken(at);
    }

    method OnScalarEvent(token: ScalarToken, at: Position) returns (r: Result<()>)
      requires ValidGraph(target.graph)
      modifies this
      ensures Did(OnScalar(target, old(Now()), token, at), r)
    {
      if sub.Some? { r := AnyForward(Scalar(token, at), at); return; }
      if skipDepth > 0 { return Ok(()); }
      if TopSkips(Now()) {
        stack := Over(stack.top.(skipping := false), stack.below);
        return Ok(());
      }
      var id :- ExpectedPlan(at);
      var value :- ConvertOne(id, token, at);
      r := Put(value, at);
    }

    method OnScalarFieldEvent(key: StringToken, token: ScalarToken, at: Position) returns (r: Result<()>)
      requires ValidGraph(target.graph)
      modifies this
      ensures Did(OnScalarField(target, old(Now()), key, token, at), r)
    {
      if sub.None? && skipDepth > 0 { return Ok(()); }
      if sub.None? && stack.Over? && stack.top.ObjectFrame? {
        var choice :- Choose(target, stack.top, TextOf(key), at);
        if choice.Unknown? { return Ok(()); }
        var value :- ConvertOne(stack.top.plan.fields[choice.index].value, token, at);
        stack := Over(stack.top.(slots := WithSlot(stack.top.slots, choice.index, value)), stack.below);
        return Ok(());
      }
      var _ :- OnKeyEvent(key, at);
      r := OnScalarEvent(token, at);
    }

    method OnStartObjectFieldEvent(key: StringToken, at: Position) returns (r: Result<()>)
      requires ValidGraph(target.graph)
      modifies this
      ensures Did(OnStartObjectField(target, old(Now()), key, at), r)
    {
      if sub.None? && skipDepth == 0 && stack.Over? && stack.top.ObjectFrame? {
        var choice :- Choose(target, stack.top, TextOf(key), at);
        if choice.Unknown? {
          stack := Over(stack.top.(skipping := true), stack.below);
          r := OnStartEvent(StartObject(at), at);
          return;
        }
        stack := Over(stack.top.(awaiting := Some(choice.index)), stack.below);
        r := StartObjectForPlan(stack.top.plan.fields[choice.index].value, at);
        return;
      }
      var _ :- OnKeyEvent(key, at);
      r := OnStartEvent(StartObject(at), at);
    }

    /** Leave one level of a skipped value. */
    method LeaveSkipped()
      requires skipDepth > 0
      modifies this
      ensures Now() == SkipClose(old(Now()))
    {
      skipDepth := skipDepth - 1;
      if skipDepth == 0 && stack.Over? && stack.top.ObjectFrame? {
        stack := Over(stack.top.(skipping := false), stack.below);
      }
    }

    method OnEndObjectEvent(at: Position) returns (r: Result<()>)
      modifies this
      ensures Did(OnEndObject(old(Now()), at), r)
    {
      if sub.Some? { r := AnyForward(EndObject(at), at); return; }
      if skipDepth > 0 { LeaveSkipped(); return Ok(()); }
      match stack
      case Over(ObjectFrame(plan, slots, _, _), below) =>
        stack := below;
        var value :- BuildObject(plan, slots, at);
        r := Put(value, at);
      case Over(DictFrame(pairs, _, _, limits), below) =>
        stack := below;
        if !LengthValid(limits, |pairs|) { return Err(ValidationAt(Constraint, at)); }
        r := Put(TypedDict(pairs), at);
      case _ => return Broken(at);
    }

    method OnEndArrayEvent(at: Position) returns (r: Result<()>)
      modifies this
      ensures Did(OnEndArray(old(Now()), at), r)
    {
      if sub.Some? { r := AnyForward(EndArray(at), at); return; }
      if skipDepth > 0 { LeaveSkipped(); return Ok(()); }
      match stack
      case Over(ListFrame(items, source, isTuple, limits), below) =>
        stack := below;
        if source.ByPosition? && |source.plans| != |items| { return TypeMismatchAt(at); }
        if !LengthValid(limits, |items|) { return Err(ValidationAt(Constraint, at)); }
        r := Put(if isTuple then TypedTuple(items) else TypedList(items), at);
      case _ => return Broken(at);
    }

    method OnEndObjectFieldEvent(at: Position) returns (r: Result<()>)
      modifies this
      ensures Did(OnEndObjectField(old(Now()), at), r)
    {
      if sub.None? && skipDepth == 0 && stack.Over? && stack.top.ObjectFrame? && stack.below.Over? && stack.below.top.ObjectFrame? {
        var inner := stack.top;
        stack := stack.below;
        var value :- BuildObject(inner.plan, inner.slots, at);
        var outer := stack.top;
        if outer.awaiting.None? { return Broken(at); }
        stack := Over(outer.(slots := WithSlot(outer.slots, outer.awaiting.value, value), awaiting := None), stack.below);
        return Ok(());
      }
      r := OnEndObjectEvent(at);
    }

    /** Receive one event. */
    method On(event: Event) returns (r: Result<()>)
      requires ValidGraph(target.graph)
      modifies this
      ensures Did(Step(target, old(Now()), event), r)
    {
      match event
      case StartObject(at) => r := OnStartEvent(event, at);
      case StartRepeatedObject(at) => r := OnStartEvent(event, at);
      case StartArray(_, at) => r := OnStartEvent(event, at);
      case EndObject(at) => r := OnEndObjectEvent(at);
      case EndArray(at) => r := OnEndArrayEvent(at);
      case BeginTabular(_, _) => return Ok(());
      case Key(key, at) => r := OnKeyEvent(key, at);
      case Scalar(token, at) => r := OnScalarEvent(token, at);
      case ScalarField(key, token, at) => r := OnScalarFieldEvent(key, token, at);
      case StartObjectField(key, at) => r := OnStartObjectFieldEvent(key, at);
      case EndObjectField(at) => r := OnEndObjectFieldEvent(at);
    }

    /** Receive a whole event sequence. */
    method Consume(events: seq<Event>) returns (r: Result<()>)
      requires ValidGraph(target.graph)
      modifies this
      ensures Did(Run(target, old(Now()), events), r)
    {
      assert events[0..] == events;
      for i := 0 to |events|
        invariant Run(target, old(Now()), events) == Run(target, Now(), events[i..])
      {
        assert events[i..][0] == events[i] && events[i..][1..] == events[i + 1..];
        var _ :- On(events[i]);
      }
      return Ok(());
    }
  }

  /** A missing field among the first ones is missing among all. */
  lemma {:induction false} MissingStays(fields: seq<FieldPlan>, slots: seq<Option<Typed>>, at: Position, n: nat)
    requires n <= |fields| && Arguments(fields[..n], slots, at) == Err(ValidationAt(MissingField, at))
    ensures Arguments(fields, slots, at) == Err(ValidationAt(MissingField, at))
    decreases |fields|
  {
    if n < |fields| {
      assert fields[..|fields| - 1][..n] == fields[..n];
      MissingStays(fields[..|fields| - 1], slots, at, n);
    } else {
      assert fields[..n] == fields;
    }
  }
}
