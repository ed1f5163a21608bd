/** What a dictionary holds when keys repeat: the place of the first, the value of the last (src/untyped.rs). */
module Dictionaries {
  import opened Bytes
  import opened Tokens
  import opened Escapes
  import opened Events
  import opened Values
  import Faults

  /** The last place of a name. */
  function LastIndex(names: seq<bytes>, key: bytes): (j: nat)
    requires key in names
    ensures j < |names| && names[j] == key && forall m :: j < m < |names| ==> names[m] != key
  {
    if names[|names| - 1] == key then |names| - 1 else LastIndex(names[..|names| - 1], key)
  }

  /** The first place of a name. */
  function FirstIndex(names: seq<bytes>, key: bytes): (j: nat)
    requires key in names
    ensures j < |names| && names[j] == key && forall m :: 0 <= m < j ==> names[m] != key
  {
    if key in names[..|names| - 1] then FirstIndex(names[..|names| - 1], key) else |names| - 1
  }

  /** The keys are the names in the order of their first places, each with the value at its last place. */
  ghost predicate Collects<V>(names: seq<bytes>, values: seq<V>, keys: seq<bytes>, kept: seq<V>) {
    && |names| == |values| && |keys| == |kept|
    && (forall j :: 0 <= j < |names| ==> names[j] in keys)
    && (forall i :: 0 <= i < |keys| ==> keys[i] in names && kept[i] == values[LastIndex(names, keys[i])])
    && (forall a, b :: 0 <= a < b < |keys| ==> keys[a] in names && keys[b] in names && FirstIndex(names, keys[a]) < FirstIndex(names, keys[b]))
  }

  /** One place determines the other. */
  lemma {:induction false} PlacesGrow(names: seq<bytes>, name: bytes, key: bytes)
    requires key in names
    ensures key in names + [name] && FirstIndex(names + [name], key) == FirstIndex(names, key)
    ensures LastIndex(names + [name], key) == if key == name then |names| else LastIndex(names, key)
  {
    assert (names + [name])[..|names|] == names;
  }

  lemma {:induction false} PlacesOfNew(names: seq<bytes>, name: bytes)
    requires name !in names
    ensures name in names + [name] && FirstIndex(names + [name], name) == |names| == LastIndex(names + [name], name)
  {
    assert (names + [name])[..|names|] == names;
  }

  /** A name seen before keeps its place and takes the new value. */
  lemma {:induction false} CollectAgain<V>(names: seq<bytes>, values: seq<V>, keys: seq<bytes>, kept: seq<V>, i: nat, value: V)
    requires Collects(names, values, keys, kept) && i < |keys|
    ensures Collects(names + [keys[i]], values + [value], keys, kept[i := value])
  {
    var more := names + [keys[i]];
    forall k | 0 <= k < |keys| ensures keys[k] in more && kept[i := value][k] == (values + [value])[LastIndex(more, keys[k])] {
      PlacesGrow(names, keys[i], keys[k]);
      if k != i { assert FirstIndex(names, keys[k]) != FirstIndex(names, keys[i]); }
    }
    forall a, b | 0 <= a < b < |keys| ensures keys[a] in more && keys[b] in more && FirstIndex(more, keys[a]) < FirstIndex(more, keys[b]) {
      PlacesGrow(names, keys[i], keys[a]);
      PlacesGrow(names, keys[i], keys[b]);
    }
  }

  /** A new name comes last. */
  lemma {:induction false} CollectNew<V>(names: seq<bytes>, values: seq<V>, keys: seq<bytes>, kept: seq<V>, name: bytes, value: V)
    requires Collects(names, values, keys, kept) && name !in keys
    ensures Collects(names + [name], values + [value], keys + [name], kept + [value])
  {
    var more, all := names + [name], keys + [name];
    assert name !in names;
    PlacesOfNew(names, name);
    forall k | 0 <= k < |all| ensures all[k] in more && (kept + [value])[k] == (values + [value])[LastIndex(more, all[k])] {
      if k < |keys| { PlacesGrow(names, name, keys[k]); }
    }
    forall a, b | 0 <= a < b < |all| ensures all[a] in more && all[b] in more && FirstIndex(more, all[a]) < FirstIndex(more, all[b]) {
      PlacesGrow(names, name, keys[a]);
      if b < |keys| { PlacesGrow(names, name, keys[b]); }
    }
  }

  // ----- untyped dictionaries ---------------------------------------------------------------------------

  function KeysOf(pairs: seq<Pair>): (r: seq<bytes>)
    ensures |r| == |pairs|
  {
    seq(|pairs|, i requires 0 <= i < |pairs| => pairs[i].key)
  }

  function ValuesIn(pairs: seq<Pair>): (r: seq<Value>)
    ensures |r| == |pairs|
  {
    seq(|pairs|, i requires 0 <= i < |pairs| => pairs[i].value)
  }

  /** Setting an item replaces the value of the first entry with its key, or adds an entry at the end. */
  lemma {:induction false} SetItemIs(pairs: seq<Pair>, key: bytes, value: Value)
    ensures if key in KeysOf(pairs)
            then exists i :: 0 <= i < |pairs| && pairs[i].key == key && SetItem(pairs, key, value) == pairs[i := Pair(key, value)]
            else SetItem(pairs, key, value) == pairs + [Pair(key, value)]
  {
    if pairs == [] {
    } else if pairs[0].key == key {
      assert KeysOf(pairs)[0] == key;
      assert SetItem(pairs, key, value) == pairs[0 := Pair(key, value)];
    } else {
      var rest := pairs[1..];
      SetItemIs(rest, key, value);
      assert KeysOf(pairs) == [pairs[0].key] + KeysOf(rest);
      if key in KeysOf(rest) {
        var i :| 0 <= i < |rest| && rest[i].key == key && SetItem(rest, key, value) == rest[i := Pair(key, value)];
        assert [pairs[0]] + rest[i := Pair(key, value)] == pairs[i + 1 := Pair(key, value)];
        assert pairs[i + 1].key == key;
      } else {
        assert [pairs[0]] + (rest + [Pair(key, value)]) == pairs + [Pair(key, value)];
      }
    }
  }

  ghost predicate Holds(pairs: seq<Pair>, names: seq<bytes>, values: seq<Value>) {
    Collects(names, values, KeysOf(pairs), ValuesIn(pairs))
  }

  lemma {:induction false} SetItemCollects(pairs: seq<Pair>, names: seq<bytes>, values: seq<Value>, key: bytes, value: Value)
    requires Holds(pairs, names, values)
    ensures Holds(SetItem(pairs, key, value), names + [key], values + [value])
  {
    SetItemIs(pairs, key, value);
    var keys, kept := KeysOf(pairs), ValuesIn(pairs);
    hide Collects, SetItem;
    if key in keys {
      var i :| 0 <= i < |pairs| && pairs[i].key == key && SetItem(pairs, key, value) == pairs[i := Pair(key, value)];
      CollectAgain(names, values, keys, kept, i, value);
      assert KeysOf(pairs[i := Pair(key, value)]) == keys && ValuesIn(pairs[i := Pair(key, value)]) == kept[i := value];
    } else {
      CollectNew(names, values, keys, kept, key, value);
      assert KeysOf(pairs + [Pair(key, value)]) == keys + [key] && ValuesIn(pairs + [Pair(key, value)]) == kept + [value];
    }
  }

  function NamesOf(fields: seq<Field>): (r: seq<bytes>)
    ensures |r| == |fields|
  {
    seq(|fields|, i requires 0 <= i < |fields| => TextOf(fields[i].key))
  }

  function Denoted(fields: seq<Field>): (r: seq<Value>)
    ensures |r| == |fields|
  {
    seq(|fields|, i requires 0 <= i < |fields| => Denote(fields[i].value))
  }

  lemma {:induction false} FieldsCollect(fields: seq<Field>, before: seq<Pair>, names: seq<bytes>, values: seq<Value>)
    requires Holds(before, names, values)
    ensures Holds(DenoteFields(fields, before), names + NamesOf(fields), values + Denoted(fields))
    decreases |fields|
  {
    hide Holds, TextOf, Denote, SetItem;
    if fields == [] {
      assert names + NamesOf([]) == names && values + Denoted([]) == values;
    } else {
      var key, value := TextOf(fields[0].key), Denote(fields[0].value);
      SetItemCollects(before, names, values, key, value);
      FieldsCollect(fields[1..], SetItem(before, key, value), names + [key], values + [value]);
      FirstApart(fields, names, values);
    }
  }

  lemma {:induction false} FirstApart(fields: seq<Field>, names: seq<bytes>, values: seq<Value>)
    requires fields != []
    ensures names + [TextOf(fields[0].key)] + NamesOf(fields[1..]) == names + NamesOf(fields)
    ensures values + [Denote(fields[0].value)] + Denoted(fields[1..]) == values + Denoted(fields)
  {
    hide TextOf, Denote;
  }

  /** An object denotes its names in the order they first appear, each with the value it has last. */
  lemma {:induction false} ObjectDenotesLast(kind: ObjectKind, fields: seq<Field>, at: Faults.Position)
    ensures var value := Denote(Obj(kind, fields, at));
            value.Dict? && Holds(value.pairs, NamesOf(fields), Denoted(fields))
  {
    FieldsCollect(fields, [], [], []);
    hide Holds;
    assert [] + NamesOf(fields) == NamesOf(fields) && [] + Denoted(fields) == Denoted(fields);
  }
}
