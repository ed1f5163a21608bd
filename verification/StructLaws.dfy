/** What converting an object into a struct gives: its fields by name, fallbacks, and what stops it (src/typed.rs). */
module StructLaws {
  import opened Bytes
  import opened Faults
  import opened Tokens
  import opened Escapes
  import opened Events
  import opened Values
  import opened Plans
  import opened TypedMachine
  import opened TypedTrees
  import opened Dictionaries

  // ----- fields by name ---------------------------------------------------------------------------

  /** The name belongs to the field: of several fields of one name the last has it. */
  predicate Owns(plan: StructPlan, p: nat, name: bytes)
    requires p < |plan.fields|
  {
    plan.fields[p].wire == name && forall q :: p < q < |plan.fields| ==> plan.fields[q].wire != name
  }

  predicate Knows(plan: StructPlan, name: bytes) {
    exists p :: 0 <= p < |plan.fields| && plan.fields[p].wire == name
  }

  /** What the field is given: the value behind the last key of its name, or else its fallback. */
  function Argument(plan: StructPlan, names: seq<bytes>, values: seq<Typed>, p: nat): Option<Typed>
    requires p < |plan.fields| && |names| <= |values|
  {
    var name := plan.fields[p].wire;
    if Owns(plan, p, name) && name in names then Some(values[LastIndex(names, name)]) else plan.fields[p].fallback
  }

  /** The object's field is one the struct takes, or passes over: its value converts under the plan of its name, it
      is new where strict mode asks for that, and it is known where unknown keys are forbidden. */
  predicate Passes(target: Target, plan: StructPlan, fields: seq<Field>, cells: bool, i: nat, value: Typed)
    requires ValidGraph(target.graph) && i < |fields|
  {
    var name := TextOf(fields[i].key);
    && (!Knows(plan, name) ==> !plan.forbidUnknown)
    && (Knows(plan, name) && target.strict ==> name !in NamesOf(fields)[..i])
    && (forall p :: 0 <= p < |plan.fields| && Owns(plan, p, name) ==> ConvertChild(target, plan.fields[p].value, fields[i], cells) == Ok(value))
  }

  predicate AllPass(target: Target, plan: StructPlan, fields: seq<Field>, cells: bool, n: nat, values: seq<Typed>)
    requires ValidGraph(target.graph)
  {
    n <= |fields| && n <= |values| && forall i :: 0 <= i < n ==> Passes(target, plan, fields, cells, i, values[i])
  }

  lemma {:induction false} ActionIs(plan: StructPlan, name: bytes)
    ensures match ActionFor(plan, name)
            case TakeField(p) => Knows(plan, name) && Owns(plan, p, name)
            case RejectKey => !Knows(plan, name) && plan.forbidUnknown
            case SkipKey => !Knows(plan, name) && !plan.forbidUnknown
  {
    ActionSelects(plan, name);
  }

  // ----- slots ------------------------------------------------------------------------------------

  /** What the first `n` fields leave in the slots. */
  predicate Filled(plan: StructPlan, names: seq<bytes>, values: seq<Typed>, slots: seq<Option<Typed>>) {
    && |slots| == |plan.fields| && |names| <= |values|
    && forall p :: 0 <= p < |slots| ==>
         slots[p] == var name := plan.fields[p].wire;
                     if Owns(plan, p, name) && name in names then Some(values[LastIndex(names, name)]) else None
  }

  lemma {:induction false} NothingFilled(plan: StructPlan, values: seq<Typed>)
    ensures Filled(plan, [], values, EmptySlots(plan))
  {
  }

  lemma {:induction false} FillOne(plan: StructPlan, names: seq<bytes>, values: seq<Typed>, slots: seq<Option<Typed>>, p: nat, name: bytes)
    requires Filled(plan, names, values, slots) && |names| < |values| && p < |plan.fields| && Owns(plan, p, name)
    ensures Filled(plan, names + [name], values, slots[p := Some(values[|names|])])
  {
    var more, after := names + [name], slots[p := Some(values[|names|])];
    forall q | 0 <= q < |after| ensures
      after[q] == var wire := plan.fields[q].wire;
                  if Owns(plan, q, wire) && wire in more then Some(values[LastIndex(more, wire)]) else None
    {
      var wire := plan.fields[q].wire;
      if wire in names { PlacesGrow(names, name, wire); } else if wire == name { PlacesOfNew(names, name); }
      assert wire in more <==> wire in names || wire == name;
    }
  }

  lemma {:induction false} PassOver(plan: StructPlan, names: seq<bytes>, values: seq<Typed>, slots: seq<Option<Typed>>, name: bytes)
    requires Filled(plan, names, values, slots) && |names| < |values| && !Knows(plan, name)
    ensures Filled(plan, names + [name], values, slots)
  {
    forall q | 0 <= q < |slots| ensures
      slots[q] == var wire := plan.fields[q].wire;
                  if Owns(plan, q, wire) && wire in names + [name] then Some(values[LastIndex(names + [name], wire)]) else None
    {
      var wire := plan.fields[q].wire;
      assert wire != name;
      if wire in names { PlacesGrow(names, name, wire); }
    }
  }

  /** The fields from position `n` on, with the slots as those before left them. */
  ghost predicate FieldsFrom(target: Target, plan: StructPlan, fields: seq<Field>, cells: bool, n: nat, slots: seq<Option<Typed>>, values: seq<Typed>)
    requires ValidGraph(target.graph)
  {
    && n <= |fields| && n <= |values| && Filled(plan, NamesOf(fields)[..n], values, slots)
    && ConvertFields(target, plan, fields, cells, EmptySlots(plan)) == ConvertFields(target, plan, fields[n..], cells, slots)
  }

  lemma {:induction false} FieldsFill(target: Target, plan: StructPlan, fields: seq<Field>, cells: bool, n: nat, values: seq<Typed>)
    returns (slots: seq<Option<Typed>>)
    requires ValidGraph(target.graph) && AllPass(target, plan, fields, cells, n, values)
    ensures FieldsFrom(target, plan, fields, cells, n, slots, values)
  {
    hide ValidGraph, ConvertField, Filled, TextOf, Passes;
    if n == 0 {
      slots := EmptySlots(plan);
      NothingFilled(plan, values);
      assert NamesOf(fields)[..0] == [] && fields[0..] == fields;
    } else {
      var before := FieldsFill(target, plan, fields, cells, n - 1, values);
      assert Passes(target, plan, fields, cells, n - 1, values[n - 1]);
      slots := FieldFills(target, plan, fields, cells, n - 1, before, values);
      assert NamesOf(fields)[..n - 1] + [TextOf(fields[n - 1].key)] == NamesOf(fields)[..n];
      assert fields[n - 1..][0] == fields[n - 1] && fields[n - 1..][1..] == fields[n..];
    }
  }

  lemma {:induction false} FieldFills(
      target: Target, plan: StructPlan, fields: seq<Field>, cells: bool, i: nat, slots: seq<Option<Typed>>, values: seq<Typed>)
    returns (after: seq<Option<Typed>>)
    requires ValidGraph(target.graph) && i < |fields| && i < |values| && Passes(target, plan, fields, cells, i, values[i])
    requires Filled(plan, NamesOf(fields)[..i], values, slots)
    ensures ConvertField(target, plan, fields[i], cells, slots) == Ok(after)
    ensures Filled(plan, NamesOf(fields)[..i] + [TextOf(fields[i].key)], values, after)
  {
    var name, names := TextOf(fields[i].key), NamesOf(fields)[..i];
    ActionIs(plan, name);
    hide ValidGraph, ConvertChild, TextOf, ActionFor;
    match ActionFor(plan, name)
    case TakeField(p) =>
      after := slots[p := Some(values[i])];
      FillOne(plan, names, values, slots, p, name);
      assert SlotAt(slots, p).Some? ==> name in names;
    case _ =>
      after := slots;
      PassOver(plan, names, values, slots, name);
  }

  // ----- arguments --------------------------------------------------------------------------------

  predicate AllGiven(plan: StructPlan, names: seq<bytes>, values: seq<Typed>)
    requires |names| <= |values|
  {
    forall p :: 0 <= p < |plan.fields| ==> Argument(plan, names, values, p).Some?
  }

  function Given(plan: StructPlan, names: seq<bytes>, values: seq<Typed>): (r: seq<Typed>)
    requires |names| <= |values| && AllGiven(plan, names, values)
    ensures |r| == |plan.fields| && forall p :: 0 <= p < |r| ==> Argument(plan, names, values, p) == Some(r[p])
  {
    seq(|plan.fields|, p requires 0 <= p < |plan.fields| => Argument(plan, names, values, p).value)
  }

  lemma {:induction false} SlotOrFallback(plan: StructPlan, names: seq<bytes>, values: seq<Typed>, slots: seq<Option<Typed>>, p: nat)
    requires Filled(plan, names, values, slots) && p < |plan.fields|
    ensures Argument(plan, names, values, p) == if SlotAt(slots, p).Some? then SlotAt(slots, p) else plan.fields[p].fallback
  {
  }

  /** The arguments of the first `n` fields, if all are given. */
  function GivenUpTo(plan: StructPlan, names: seq<bytes>, values: seq<Typed>, n: nat): Option<seq<Typed>>
    requires |names| <= |values| && n <= |plan.fields|
  {
    if n == 0 then Some([])
    else
      var before :- GivenUpTo(plan, names, values, n - 1);
      var last :- Argument(plan, names, values, n - 1);
      Some(before + [last])
  }

  lemma {:induction false} GivenUpToIs(plan: StructPlan, names: seq<bytes>, values: seq<Typed>, n: nat)
    requires |names| <= |values| && n <= |plan.fields|
    ensures var r := GivenUpTo(plan, names, values, n);
            && (r.Some? <==> forall p :: 0 <= p < n ==> Argument(plan, names, values, p).Some?)
            && (r.Some? ==> |r.value| == n && forall p :: 0 <= p < n ==> Argument(plan, names, values, p) == Some(r.value[p]))
  {
    hide Argument;
    if n > 0 { GivenUpToIs(plan, names, values, n - 1); }
  }

  lemma {:induction false} ArgumentsAre(plan: StructPlan, names: seq<bytes>, values: seq<Typed>, slots: seq<Option<Typed>>, n: nat, at: Position)
    requires |names| <= |values| && Filled(plan, names, values, slots) && n <= |plan.fields|
    ensures Arguments(plan.fields[..n], slots, at) ==
            match GivenUpTo(plan, names, values, n) case Some(r) => Ok(r) case None => Err(Fault(MissingField, at.line, Some(at.column), true))
    decreases n
  {
    hide Filled, Argument, SlotAt;
    if n > 0 {
      assert plan.fields[..n][..n - 1] == plan.fields[..n - 1] && plan.fields[..n][n - 1] == plan.fields[n - 1];
      ArgumentsAre(plan, names, values, slots, n - 1, at);
      SlotOrFallback(plan, names, values, slots, n - 1);
    }
  }

  // ----- structs -----------------------------------------------------------------------------------

  /** An object whose fields all pass becomes an instance of the class: every field is given the value behind the
      last key of its name, or its fallback; a field with neither is missing. */
  lemma {:induction false} StructOfValues(
      target: Target, node: Node, tree: Tree, fields: seq<Field>, open: Position, at: Position, cells: bool, values: seq<Typed>)
    requires ValidGraph(target.graph) && node.plan.ObjectPlan? && |values| == |fields|
    requires AllPass(target, node.plan.object_, fields, cells, |fields|, values)
    ensures var plan := node.plan.object_;
            ConvertObject(target, node, tree, fields, open, at, cells) ==
            if AllGiven(plan, NamesOf(fields), values) then Ok(Instance(plan.class_, Given(plan, NamesOf(fields), values)))
            else Err(Fault(MissingField, at.line, Some(at.column), true))
  {
    var plan, names := node.plan.object_, NamesOf(fields);
    var slots := FieldsFill(target, plan, fields, cells, |fields|, values);
    assert names[..|fields|] == names && fields[|fields|..] == [] && plan.fields[..|plan.fields|] == plan.fields;
    hide ValidGraph, AllPass, Filled, Argument;
    ArgumentsAre(plan, names, values, slots, |plan.fields|, at);
    GivenUpToIs(plan, names, values, |plan.fields|);
    if AllGiven(plan, names, values) {
      assert GivenUpTo(plan, names, values, |plan.fields|).value == Given(plan, names, values);
    }
  }

  /** The first field that does not pass is the object's fault: an unknown key, a key met again in strict mode, or
      a value that does not convert. */
  lemma {:induction false} StructStopsAt(
      target: Target, node: Node, tree: Tree, fields: seq<Field>, open: Position, at: Position, cells: bool, values: seq<Typed>, k: nat, p: nat)
    requires ValidGraph(target.graph) && node.plan.ObjectPlan? && k < |fields| && AllPass(target, node.plan.object_, fields, cells, k, values)
    requires var plan, name := node.plan.object_, TextOf(fields[k].key);
             if Knows(plan, name)
             then p < |plan.fields| && Owns(plan, p, name)
                  && ((target.strict && name in NamesOf(fields)[..k]) || ConvertChild(target, plan.fields[p].value, fields[k], cells).Err?)
             else plan.forbidUnknown
    ensures var plan, name, here := node.plan.object_, TextOf(fields[k].key), fields[k].at;
            ConvertObject(target, node, tree, fields, open, at, cells) ==
            if !Knows(plan, name) then Err(Fault(UnknownField, here.line, Some(here.column), true))
            else if target.strict && name in NamesOf(fields)[..k] then Err(Fault(DuplicateKey, here.line, Some(here.column), true))
            else Err(ConvertChild(target, plan.fields[p].value, fields[k], cells).fault)
  {
    var plan, name := node.plan.object_, TextOf(fields[k].key);
    var slots := FieldsFill(target, plan, fields, cells, k, values);
    ActionIs(plan, name);
    assert fields[k..][0] == fields[k];
    hide ValidGraph, AllPass, ConvertChild, ActionFor, TextOf;
    assert ConvertField(target, plan, fields[k], cells, slots).Err?;
  }
}
