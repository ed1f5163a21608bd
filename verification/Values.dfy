/** The values a document denotes: ordinary dictionaries, lists and scalars. */
module Values {
  import opened Bytes
  import opened Tokens
  import opened Escapes
  import opened Header
  import opened Events

  /** A float is known by its spelling; a dictionary keeps the order in which its keys came. */
  datatype Value =
    | Null
    | Bool(flag: bool)
    | Int(n: int)
    | Float(text: bytes)
    | Str(text: bytes)
    | Seq(items: seq<Value>)
    | Dict(pairs: seq<Pair>)

  datatype Pair = Pair(key: bytes, value: Value)

  predicate HasKey(pairs: seq<Pair>, key: bytes) {
    exists i :: 0 <= i < |pairs| && pairs[i].key == key
  }

  /** Assign `key`: a known key keeps its place and takes the new value. */
  function SetItem(pairs: seq<Pair>, key: bytes, value: Value): seq<Pair> {
    if pairs == [] then [Pair(key, value)]
    else if pairs[0].key == key then [Pair(key, value)] + pairs[1..]
    else [pairs[0]] + SetItem(pairs[1..], key, value)
  }

  predicate DistinctKeys(pairs: seq<Pair>) {
    forall i, j :: 0 <= i < j < |pairs| ==> pairs[i].key != pairs[j].key
  }

  lemma {:induction false} SetItemKeys(pairs: seq<Pair>, key: bytes, value: Value)
    ensures forall k :: HasKey(SetItem(pairs, key, value), k) <==> HasKey(pairs, k) || k == key
    ensures DistinctKeys(pairs) ==> DistinctKeys(SetItem(pairs, key, value))
  {
    var next := SetItem(pairs, key, value);
    if pairs == [] {
      assert next[0].key == key;
    } else if pairs[0].key == key {
      assert forall i :: 0 <= i < |pairs| ==> next[i].key == pairs[i].key;
      forall k ensures HasKey(next, k) <==> HasKey(pairs, k) || k == key {
        if HasKey(pairs, k) { var i :| 0 <= i < |pairs| && pairs[i].key == k; assert next[i].key == k; }
      }
    } else {
      var tail := SetItem(pairs[1..], key, value);
      SetItemKeys(pairs[1..], key, value);
      assert next[0] == pairs[0] && next[1..] == tail;
      forall k ensures HasKey(next, k) <==> HasKey(pairs, k) || k == key {
        HasKeyCons(next, k);
        HasKeyCons(pairs, k);
      }
      if DistinctKeys(pairs) {
        assert forall i :: 0 <= i < |pairs[1..]| ==> pairs[1..][i] == pairs[i + 1];
        assert !HasKey(pairs[1..], pairs[0].key);
        assert !HasKey(tail, pairs[0].key);
        assert forall i :: 0 < i < |next| ==> next[i] == tail[i - 1];
      }
    }
  }

  lemma {:induction false} HasKeyCons(pairs: seq<Pair>, k: bytes)
    requires pairs != []
    ensures HasKey(pairs, k) <==> pairs[0].key == k || HasKey(pairs[1..], k)
  {
    if HasKey(pairs, k) && pairs[0].key != k {
      var i :| 0 <= i < |pairs| && pairs[i].key == k;
      assert pairs[1..][i - 1].key == k;
    }
    if HasKey(pairs[1..], k) {
      var i :| 0 <= i < |pairs[1..]| && pairs[1..][i].key == k;
      assert pairs[i + 1].key == k;
    }
  }

  lemma {:induction false} SetNewItem(pairs: seq<Pair>, key: bytes, value: Value)
    requires !HasKey(pairs, key)
    ensures SetItem(pairs, key, value) == pairs + [Pair(key, value)]
  {
    if pairs != [] {
      HasKeyCons(pairs, key);
      SetNewItem(pairs[1..], key, value);
      assert pairs == [pairs[0]] + pairs[1..];
    }
  }

  // ----- tokens ------------------------------------------------------------------

  /** The integer an integer token spells. */
  function IntegerOf(text: bytes): int {
    if text != [] && text[0] == MINUS then
      (if AllDigits(text[1..]) then -(DecimalValue(text[1..]) as int) else 0)
    else if AllDigits(text) then DecimalValue(text)
    else 0
  }

  function TokenValue(token: ScalarToken): Value {
    match token
    case NullToken => Null
    case BoolToken(flag) => Bool(flag)
    case IntegerToken(text) => Int(IntegerOf(text))
    case FloatToken(text) => Float(text)
    case BareString(text) => Str(text)
    case QuotedString(inner, escaped) => Str(Unescaped(inner, escaped))
  }

  // ----- trees -------------------------------------------------------------------

  /** The value a tree denotes; of fields with equal keys the last one counts. */
  function Denote(tree: Tree): Value
    decreases tree, 1
  {
    match tree
    case Leaf(t, _) => TokenValue(t)
    case Arr(_, _, items, _) => Seq(DenoteItems(items))
    case Obj(_, fields, _) => Dict(DenoteFields(fields, []))
  }

  function DenoteItems(items: seq<Tree>): (values: seq<Value>)
    ensures |values| == |items|
    decreases items, 0
  {
    if items == [] then [] else [Denote(items[0])] + DenoteItems(items[1..])
  }

  function DenoteField(field: Field): Value
    decreases field, 1
  {
    Denote(field.value)
  }

  function DenoteFields(fields: seq<Field>, before: seq<Pair>): seq<Pair>
    decreases fields, 0
  {
    if fields == [] then before
    else DenoteFields(fields[1..], SetItem(before, TextOf(fields[0].key), DenoteField(fields[0])))
  }

  /** A denoted dictionary has distinct keys. */
  lemma {:induction false} DenotedKeysAreDistinct(fields: seq<Field>, before: seq<Pair>)
    requires DistinctKeys(before)
    ensures DistinctKeys(DenoteFields(fields, before))
  {
    if fields != [] {
      SetItemKeys(before, TextOf(fields[0].key), DenoteField(fields[0]));
      DenotedKeysAreDistinct(fields[1..], SetItem(before, TextOf(fields[0].key), DenoteField(fields[0])));
    }
  }
}
