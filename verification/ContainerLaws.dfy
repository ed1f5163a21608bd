/** What converting an array or an object under a plan gives, in terms of its parts (src/typed.rs). */
module ContainerLaws {
  import opened Bytes
  import opened Faults
  import opened Tokens
  import opened Escapes
  import opened Events
  import opened Values
  import opened Plans
  import opened TypedMachine
  import opened TypedTrees
  import opened Dictionaries

  // ----- arrays -----------------------------------------------------------------------------------

  /** The plan of the element at a position, if the array may have one there. */
  function ElementPlan(plan: Plan, i: nat): Option<nat> {
    match plan
    case ListPlan(item) => Some(item)
    case TuplePlan(item) => Some(item)
    case FixedPlan(positions) => if i < |positions| then Some(positions[i]) else None
    case _ => None
  }

  predicate ArrayPlan(plan: Plan) {
    plan.ListPlan? || plan.TuplePlan? || plan.FixedPlan?
  }

  predicate LengthBounded(limits: Limits, n: nat) {
    && (limits.minLength.Some? ==> limits.minLength.value <= n)
    && (limits.maxLength.Some? ==> n <= limits.maxLength.value)
  }

  /** The element converts to the value. */
  predicate Element(target: Target, plan: Plan, items: seq<Tree>, i: nat, value: Typed)
    requires ValidGraph(target.graph) && i < |items|
  {
    && ElementPlan(plan, i).Some?
    && Convert(target, ElementPlan(plan, i).value, items[i], items[i].at, AsCells(items[i])) == Ok(value)
  }

  predicate Elements(target: Target, plan: Plan, items: seq<Tree>, n: nat, values: seq<Typed>)
    requires ValidGraph(target.graph)
  {
    n <= |items| && n <= |values| && forall i :: 0 <= i < n ==> Element(target, plan, items, i, values[i])
  }

  function SourceOf(plan: Plan): Source
    requires ArrayPlan(plan)
  {
    match plan
    case ListPlan(item) => Uniform(item)
    case TuplePlan(item) => Uniform(item)
    case FixedPlan(positions) => ByPosition(positions)
  }

  /** The items from position `k` on, when those before gave the values up to there. */
  lemma {:induction false} ItemsFrom(target: Target, plan: Plan, items: seq<Tree>, k: nat, n: nat, values: seq<Typed>)
    requires ValidGraph(target.graph) && ArrayPlan(plan) && k <= n && Elements(target, plan, items, n, values)
    ensures ConvertItems(target, SourceOf(plan), items[k..], values[..k]) == ConvertItems(target, SourceOf(plan), items[n..], values[..n])
    decreases n - k
  {
    hide ValidGraph, Convert;
    if k < n {
      assert Element(target, plan, items, k, values[k]);
      assert items[k..][0] == items[k] && items[k..][1..] == items[k + 1..];
      assert values[..k] + [values[k]] == values[..k + 1];
      ItemsFrom(target, plan, items, k + 1, n, values);
    }
  }

  /** An array whose elements all convert becomes the list or tuple of their values, in order. It needs as many
      as a fixed tuple has positions, and no fewer and no more than the bounds allow. */
  lemma {:induction false} ArrayOfValues(target: Target, node: Node, tree: Tree, items: seq<Tree>, open: Position, at: Position, values: seq<Typed>)
    requires ValidGraph(target.graph) && ArrayPlan(node.plan) && |values| == |items| && Elements(target, node.plan, items, |items|, values)
    ensures ConvertArray(target, node, tree, items, open, at) ==
            if node.plan.FixedPlan? && |node.plan.positions| != |items| then Err(Fault(TypeMismatch, at.line, Some(at.column), true))
            else if !LengthBounded(node.limits, |items|) then Err(Fault(Constraint, at.line, Some(at.column), true))
            else Ok(if node.plan.ListPlan? then TypedList(values) else TypedTuple(values))
  {
    ItemsFrom(target, node.plan, items, 0, |items|, values);
    hide ValidGraph, Element;
    assert items[0..] == items && values[..0] == [] && items[|items|..] == [] && values[..|values|] == values;
  }

  /** The first element that has no plan, or does not convert, is the array's fault. */
  lemma {:induction false} ArrayStopsAt(target: Target, node: Node, tree: Tree, items: seq<Tree>, open: Position, at: Position, values: seq<Typed>, k: nat)
    requires ValidGraph(target.graph) && ArrayPlan(node.plan) && k < |items| && Elements(target, node.plan, items, k, values)
    requires ElementPlan(node.plan, k).Some? ==> Convert(target, ElementPlan(node.plan, k).value, items[k], items[k].at, AsCells(items[k])).Err?
    ensures ConvertArray(target, node, tree, items, open, at) ==
            if ElementPlan(node.plan, k).None? then Err(Fault(TypeMismatch, items[k].at.line, Some(items[k].at.column), true))
            else Err(Convert(target, ElementPlan(node.plan, k).value, items[k], items[k].at, AsCells(items[k])).fault)
  {
    ItemsFrom(target, node.plan, items, 0, k, values);
    hide ValidGraph, Element, Convert;
    assert items[0..] == items && values[..0] == [] && items[k..][0] == items[k] && |values[..k]| == k;
  }

  /** Any other plan but the one that takes anything refuses an array where it opens. */
  lemma {:induction false} ArrayRefused(target: Target, node: Node, tree: Tree, items: seq<Tree>, open: Position, at: Position)
    requires ValidGraph(target.graph) && !ArrayPlan(node.plan)
    ensures ConvertArray(target, node, tree, items, open, at) ==
            if node.plan.AnyPlan? then Ok(Plainly(Denote(tree))) else Err(Fault(TypeMismatch, open.line, Some(open.column), true))
  {
    hide ValidGraph;
  }

  // ----- dictionaries -------------------------------------------------------------------------------

  function TypedKeys(pairs: seq<TypedPair>): (r: seq<bytes>)
    ensures |r| == |pairs|
  {
    seq(|pairs|, i requires 0 <= i < |pairs| => pairs[i].key)
  }

  function TypedValues(pairs: seq<TypedPair>): (r: seq<Typed>)
    ensures |r| == |pairs|
  {
    seq(|pairs|, i requires 0 <= i < |pairs| => pairs[i].value)
  }

  /** The dictionary's keys are the names in the order they first appear, each with the value it has last. */
  ghost predicate HoldsTyped(pairs: seq<TypedPair>, names: seq<bytes>, values: seq<Typed>) {
    Collects(names, values, TypedKeys(pairs), TypedValues(pairs))
  }

  lemma {:induction false} SetTypedIs(pairs: seq<TypedPair>, key: bytes, value: Typed)
    ensures if key in TypedKeys(pairs)
            then exists i :: 0 <= i < |pairs| && pairs[i].key == key && SetTyped(pairs, key, value) == pairs[i := TypedPair(key, value)]
            else SetTyped(pairs, key, value) == pairs + [TypedPair(key, value)]
  {
    if pairs == [] {
    } else if pairs[0].key == key {
      assert TypedKeys(pairs)[0] == key;
      assert SetTyped(pairs, key, value) == pairs[0 := TypedPair(key, value)];
    } else {
      var rest := pairs[1..];
      SetTypedIs(rest, key, value);
      assert TypedKeys(pairs) == [pairs[0].key] + TypedKeys(rest);
      if key in TypedKeys(rest) {
        var i :| 0 <= i < |rest| && rest[i].key == key && SetTyped(rest, key, value) == rest[i := TypedPair(key, value)];
        assert [pairs[0]] + rest[i := TypedPair(key, value)] == pairs[i + 1 := TypedPair(key, value)];
        assert pairs[i + 1].key == key;
      } else {
        assert [pairs[0]] + (rest + [TypedPair(key, value)]) == pairs + [TypedPair(key, value)];
      }
    }
  }

  lemma {:induction false} SetTypedCollects(pairs: seq<TypedPair>, names: seq<bytes>, values: seq<Typed>, key: bytes, value: Typed)
    requires HoldsTyped(pairs, names, values)
    ensures HoldsTyped(SetTyped(pairs, key, value), names + [key], values + [value])
  {
    SetTypedIs(pairs, key, value);
    var keys, kept := TypedKeys(pairs), TypedValues(pairs);
    hide Collects, SetTyped;
    if key in keys {
      var i :| 0 <= i < |pairs| && pairs[i].key == key && SetTyped(pairs, key, value) == pairs[i := TypedPair(key, value)];
      CollectAgain(names, values, keys, kept, i, value);
      assert TypedKeys(pairs[i := TypedPair(key, value)]) == keys && TypedValues(pairs[i := TypedPair(key, value)]) == kept[i := value];
    } else {
      CollectNew(names, values, keys, kept, key, value);
      assert TypedKeys(pairs + [TypedPair(key, value)]) == keys + [key] && TypedValues(pairs + [TypedPair(key, value)]) == kept + [value];
    }
  }

  /** The first `n` entries convert to the values. */
  predicate Entries(target: Target, id: nat, fields: seq<Field>, cells: bool, n: nat, values: seq<Typed>)
    requires ValidGraph(target.graph)
  {
    n <= |fields| && n <= |values| && forall i :: 0 <= i < n ==> ConvertChild(target, id, fields[i], cells) == Ok(values[i])
  }

  ghost predicate PairsFrom(target: Target, id: nat, fields: seq<Field>, cells: bool, n: nat, pairs: seq<TypedPair>, values: seq<Typed>)
    requires ValidGraph(target.graph)
  {
    && n <= |fields| && n <= |values| && HoldsTyped(pairs, NamesOf(fields)[..n], values[..n])
    && ConvertPairs(target, id, fields, cells, []) == ConvertPairs(target, id, fields[n..], cells, pairs)
  }

  lemma {:induction false} PairsCollect(target: Target, id: nat, fields: seq<Field>, cells: bool, n: nat, values: seq<Typed>) returns (pairs: seq<TypedPair>)
    requires ValidGraph(target.graph) && Entries(target, id, fields, cells, n, values)
    ensures PairsFrom(target, id, fields, cells, n, pairs, values)
  {
    hide ValidGraph, ConvertChild, HoldsTyped, SetTyped, TextOf;
    if n == 0 {
      pairs := [];
      NothingHeld(fields, values);
      assert fields[0..] == fields;
    } else {
      var before := PairsCollect(target, id, fields, cells, n - 1, values);
      var name, value := TextOf(fields[n - 1].key), values[n - 1];
      pairs := SetTyped(before, name, value);
      SetTypedCollects(before, NamesOf(fields)[..n - 1], values[..n - 1], name, value);
      assert NamesOf(fields)[..n - 1] + [name] == NamesOf(fields)[..n] && values[..n - 1] + [value] == values[..n];
      assert fields[n - 1..][0] == fields[n - 1] && fields[n - 1..][1..] == fields[n..];
    }
  }

  lemma {:induction false} NothingHeld(fields: seq<Field>, values: seq<Typed>)
    ensures HoldsTyped([], NamesOf(fields)[..0], values[..0])
  {
  }

  /** An object whose entries all convert becomes the dictionary of their values; the bounds count its keys. */
  lemma {:induction false} DictOfValues(
      target: Target, node: Node, tree: Tree, fields: seq<Field>, open: Position, at: Position, cells: bool, values: seq<Typed>)
    returns (pairs: seq<TypedPair>)
    requires ValidGraph(target.graph) && node.plan.DictPlan? && |values| == |fields|
    requires Entries(target, node.plan.value, fields, cells, |fields|, values)
    ensures HoldsTyped(pairs, NamesOf(fields), values)
    ensures ConvertObject(target, node, tree, fields, open, at, cells) ==
            if LengthBounded(node.limits, |pairs|) then Ok(TypedDict(pairs)) else Err(Fault(Constraint, at.line, Some(at.column), true))
  {
    pairs := PairsCollect(target, node.plan.value, fields, cells, |fields|, values);
    hide ValidGraph, Entries, HoldsTyped;
    assert NamesOf(fields)[..|fields|] == NamesOf(fields) && values[..|fields|] == values && fields[|fields|..] == [];
  }

  /** The first entry that does not convert is the dictionary's fault. */
  lemma {:induction false} DictStopsAt(
      target: Target, node: Node, tree: Tree, fields: seq<Field>, open: Position, at: Position, cells: bool, values: seq<Typed>, k: nat)
    requires ValidGraph(target.graph) && node.plan.DictPlan? && k < |fields| && Entries(target, node.plan.value, fields, cells, k, values)
    requires ConvertChild(target, node.plan.value, fields[k], cells).Err?
    ensures ConvertObject(target, node, tree, fields, open, at, cells) == Err(ConvertChild(target, node.plan.value, fields[k], cells).fault)
  {
    var pairs := PairsCollect(target, node.plan.value, fields, cells, k, values);
    hide ValidGraph, Entries, HoldsTyped, ConvertChild;
    assert fields[k..][0] == fields[k];
  }

  /** Any plan but those for structs, dictionaries and anything refuses an object where it opens. */
  lemma {:induction false} ObjectRefused(target: Target, node: Node, tree: Tree, fields: seq<Field>, open: Position, at: Position, cells: bool)
    requires ValidGraph(target.graph) && !node.plan.ObjectPlan? && !node.plan.DictPlan?
    ensures ConvertObject(target, node, tree, fields, open, at, cells) ==
            if node.plan.AnyPlan? then Ok(Plainly(Denote(tree))) else Err(Fault(TypeMismatch, open.line, Some(open.column), true))
  {
    hide ValidGraph;
  }
}
