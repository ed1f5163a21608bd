/** Values at the nesting limit that the codec does not bring back, or does not write again (src/encode.rs). */
module Extremes {
  import opened Bytes
  import opened Tokens
  import opened Header
  import opened Cells
  import opened Escapes
  import opened QuoteDecision
  import opened Scan
  import opened Values
  import opened Shapes
  import opened Render
  import opened ReadGroups
  import opened ReadRows
  import opened Faithful
  import opened Reach
  import opened Stability
  import opened EncoderLimit
  import opened StableText
  import opened Codec
  import opened Faults
  import Utf8

  // ----- small values -----------------------------------------------------------------------------

  const A: bytes := [97]
  const K: bytes := [107]
  const L: bytes := [108]
  const P: bytes := [112]
  const Q: bytes := [113]
  const U: bytes := [117]
  const V: bytes := [118]

  /** `n` dictionaries around a zero. */
  function Chain(n: nat): Value {
    if n == 0 then Int(0) else Dict([Pair(A, Chain(n - 1))])
  }

  function Both(first: bytes, one: Value, second: bytes, other: Value): Value {
    Dict([Pair(first, one), Pair(second, other)])
  }

  // ----- probing rows of one or two columns ---------------------------------------------------------

  function ProbeValues(column: seq<Value>): Probe
    requires column != []
  {
    if AllScalars(column) then Probe(0, true) else Probe(1 + ProbeRows(column).reach, ProbeRows(column).shaped)
  }

  lemma {:induction false} ProbeOne(rows: seq<Value>, key: bytes, column: seq<Value>)
    requires rows != [] && |column| == |rows| && forall i :: 0 <= i < |rows| ==> rows[i] == Dict([Pair(key, column[i])])
    ensures ProbeRows(rows) == ProbeValues(column)
  {
    forall i | 0 <= i < |rows| ensures GetItem(rows[i], key) == Some(column[i]) && FitsKeys(rows[i], rows[0].pairs) {
      assert rows[i].pairs[0].key == key;
    }
    ColumnIs(rows, key, column);
    assert rows[0].pairs[1..] == [] && ProbeColumns(rows, []) == Probe(0, true);
    assert ProbeColumns(rows, rows[0].pairs) == ProbeColumn(rows, key);
  }

  predicate TwoColumns(row: Value, one: bytes, x: Value, two: bytes, y: Value) {
    row == Both(one, x, two, y) || row == Both(two, y, one, x)
  }

  lemma {:induction false} ProbeTwo(rows: seq<Value>, one: bytes, xs: seq<Value>, two: bytes, ys: seq<Value>)
    requires rows != [] && |xs| == |ys| == |rows| && one != two && rows[0] == Both(one, xs[0], two, ys[0])
    requires forall i :: 0 <= i < |rows| ==> TwoColumns(rows[i], one, xs[i], two, ys[i])
    ensures ProbeRows(rows) ==
            var first, second := ProbeValues(xs), ProbeValues(ys);
            if first.shaped then Probe(Max(first.reach, second.reach), second.shaped) else first
  {
    forall i | 0 <= i < |rows|
      ensures GetItem(rows[i], one) == Some(xs[i]) && GetItem(rows[i], two) == Some(ys[i]) && FitsKeys(rows[i], rows[0].pairs)
    {
      var pairs := rows[i].pairs;
      assert pairs[0].key == one || pairs[1].key == one;
      assert pairs[0].key == two || pairs[1].key == two;
      assert pairs[1..][0] == pairs[1];
    }
    ColumnIs(rows, one, xs);
    ColumnIs(rows, two, ys);
    var pairs := rows[0].pairs;
    assert pairs[1..] == [Pair(two, ys[0])] && pairs[1..][1..] == [];
    hide ProbeRows, AllScalars, Column;
    assert ProbeColumns(rows, []) == Probe(0, true);
    ProbeColumnIs(rows, one, xs);
    ProbeColumnIs(rows, two, ys);
    assert ProbeColumns(rows, pairs[1..]) == ProbeValues(ys);
    ProbeOfColumns(rows);
  }

  lemma {:induction false} ProbeColumnIs(rows: seq<Value>, key: bytes, column: seq<Value>)
    requires rows != [] && Column(rows, key) == Some(column)
    ensures ProbeColumn(rows, key) == ProbeValues(column)
  {
  }

  lemma {:induction false} ProbeOfColumns(rows: seq<Value>)
    requires rows != [] && SameKeys(rows) && rows[0].pairs != []
    ensures ProbeRows(rows) == ProbeColumns(rows, rows[0].pairs)
  {
  }

  // ----- chains ----------------------------------------------------------------------------------

  lemma {:induction false} ProbeChain(n: nat)
    requires n > 0
    ensures ProbeRows([Chain(n)]) == Probe(n - 1, true)
  {
    ProbeOne([Chain(n)], A, [Chain(n - 1)]);
    hide ProbeRows;
    if n > 1 { ProbeChain(n - 1); }
  }

  lemma {:induction false} ProbeEqualChains(n: nat)
    requires n > 0
    ensures ProbeRows([Chain(n), Chain(n)]) == Probe(n - 1, true)
  {
    ProbeOne([Chain(n), Chain(n)], A, [Chain(n - 1), Chain(n - 1)]);
    hide ProbeRows;
    if n > 1 { ProbeEqualChains(n - 1); }
  }

  lemma {:induction false} ProbeUnequalChains(n: nat)
    ensures ProbeRows([Chain(n), Chain(n + 1)]) == Probe(n, false)
  {
    if n > 0 {
      ProbeOne([Chain(n), Chain(n + 1)], A, [Chain(n - 1), Chain(n)]);
      hide ProbeRows;
      ProbeUnequalChains(n - 1);
      assert [Chain(n - 1), Chain(n)][1].Dict?;
    }
  }

  lemma {:induction false} ChainIsProper(n: nat)
    ensures Proper(Chain(n))
  {
    if n > 0 {
      ChainIsProper(n - 1);
      Utf8.ValidUtf8Ascii(A);
      assert ProperPair(Pair(A, Chain(n - 1)));
    }
  }

  // ----- how nesting counts --------------------------------------------------------------------------

  /** `n` lists around an empty one. */
  function Lists(n: nat): Value {
    if n == 0 then Seq([]) else Seq([Lists(n - 1)])
  }

  /** `n` dictionaries around an empty one. */
  function Dicts(n: nat): Value {
    if n == 0 then Dict([]) else Dict([Pair(A, Dicts(n - 1))])
  }

  lemma {:induction false} ListsNest(n: nat, inList: bool, depth: nat, nesting: nat)
    ensures Lists(n).Seq? && ArrayLimit(Lists(n).items, inList, depth, nesting) == nesting + 2 * n
  {
    if n > 0 {
      ListsNest(n - 1, true, depth + 1, nesting + 2);
      var inner := Lists(n - 1);
      assert Lists(n).items == [inner] && [inner][1..] == [] && !IsScalar([inner][0]) && !inner.Dict?;
      assert ItemsLimit([inner], depth + 1, nesting + 1) == Max(ItemLimit(inner, depth + 1, nesting + 1), ItemsLimit([], depth + 1, nesting + 1));
    }
  }

  lemma {:induction false} DictsNest(n: nat, depth: nat)
    ensures Dicts(n).Dict? && EntriesLimit(Dicts(n).pairs, depth) == depth + n
  {
    if n > 0 {
      DictsNest(n - 1, depth + 1);
      var pair := Pair(A, Dicts(n - 1));
      assert Dicts(n).pairs == [pair] && [pair][1..] == [];
      assert !Probed(Dicts(n - 1).pairs) && KeyedProbe(Dicts(n - 1).pairs) == Probe(0, false) by {
        assert |Dicts(n - 1).pairs| < 2;
      }
      assert EntryLimit(Dicts(n - 1), depth) == EntriesLimit(Dicts(n - 1).pairs, depth + 1);
      assert PairLimit(pair, depth) == EntryLimit(Dicts(n - 1), depth);
      assert EntriesLimit([pair], depth) == Max(depth, Max(PairLimit(pair, depth), EntriesLimit([], depth)));
    }
  }

  /** Nested lists are written up to 128 levels around an empty one, nested dictionaries up to 256. */
  lemma {:induction false} NestingCounts(n: nat)
    ensures Encode(Lists(n), COMMA, TWO).Some? <==> n <= 128
    ensures Encode(Dicts(n), COMMA, TWO).Some? <==> n <= 256
  {
    ListsNest(n, false, 0, 0);
    DictsNest(n, 0);
    assert |Dicts(n).pairs| < 2;
    hide Encode, ArrayLimit, EntriesLimit, Lists, Dicts;
    EncodeSucceeds(Lists(n), COMMA, TWO);
    EncodeSucceeds(Dicts(n), COMMA, TWO);
  }

  // ----- a header that nests too deep ----------------------------------------------------------------

  /** The encoder writes a table whose header nests 257 groups, and the header parser refuses it. */
  lemma {:induction false} DeepHeaderIsLost(strict: bool)
    ensures Encode(Seq([Chain(MAX_NESTING_DEPTH + 1)]), COMMA, TWO).Some?
    ensures !ComesBack(Seq([Chain(MAX_NESTING_DEPTH + 1)]), strict)
  {
    DeepHeaderAt(MAX_NESTING_DEPTH + 1, strict);
  }

  lemma {:induction false} DeepHeaderAt(n: nat, strict: bool)
    requires n == MAX_NESTING_DEPTH + 1
    ensures Encode(Seq([Chain(n)]), COMMA, TWO).Some? && !ComesBack(Seq([Chain(n)]), strict)
  {
    hide *;
    SingleRow(Chain(n), n, strict);
    EncodeSucceeds(Seq([Chain(n)]), COMMA, TWO);
    ComesBackWhen(Seq([Chain(n)]), strict);
  }

  lemma {:induction false} SingleRow(row: Value, n: nat, strict: bool)
    requires n == MAX_NESTING_DEPTH + 1 && row == Chain(n)
    ensures Proper(Seq([row])) && RootLimit(Seq([row])) <= 256 && !RootReturns(Seq([row]), COMMA, strict)
  {
    var items := [row];
    ChainIsProper(n);
    ProbeChain(n);
    hide Chain;
    ProbeDecides(items, 0);
    hide ProbeRows;
    assert RootLimit(Seq(items)) == MAX_NESTING_DEPTH;
    hide BuildShape;
    hide Braces;
    ShapeNestsAsProbed(items, 0, BuildShape(items, 0).nodes);
    assert ShapeOf(items) == BuildShape(items, 0);
    assert EntryReturns(Seq(items), COMMA, strict) == ArrayReturns(items, false, COMMA, strict) == ShallowShape(ShapeOf(items));
  }

  // ----- a string with a group that nests too deep -----------------------------------------------------

  function Opened(n: nat): bytes {
    seq(n, _ => LBRACE)
  }

  function Closed(n: nat): bytes {
    seq(n, _ => RBRACE)
  }

  /** `a[1]`, then `n` braces opened and closed. */
  function Braced(n: nat): bytes {
    [97, LBRACKET, 49, RBRACKET] + (Opened(n) + Closed(n))
  }

  lemma {:induction false} BracesMatch(n: nat, depth: nat, deepest: nat)
    requires 0 < n + depth && depth <= deepest
    ensures var r := MatchBrace(Opened(n) + Closed(n + depth), Outside, depth, deepest);
            r.Some? && r.value.deepest == Max(deepest, depth + n)
    decreases n + n + depth
  {
    var s := Opened(n) + Closed(n + depth);
    BracesStep(n, depth);
    if n > 0 {
      hide Opened, Closed;
      BracesMatch(n - 1, depth + 1, Max(deepest, depth + 1));
    } else if depth > 1 {
      hide Opened, Closed;
      BracesMatch(0, depth - 1, deepest);
    }
  }

  lemma {:induction false} BracesStep(n: nat, depth: nat)
    requires 0 < n + depth
    ensures var s := Opened(n) + Closed(n + depth);
            if n > 0 then s[0] == LBRACE && s[1..] == Opened(n - 1) + Closed(n - 1 + (depth + 1))
            else s[0] == RBRACE && s[1..] == Opened(0) + Closed(depth - 1)
  {
  }

  lemma {:induction false} BracedIsOverNested(n: nat)
    requires n > MAX_NESTING_DEPTH
    ensures OverNested(Braced(n))
  {
    var text := Braced(n);
    BracesMatch(n, 0, 0);
    assert text[4..] == Opened(n) + Closed(n + 0) && text[4] == LBRACE;
    BracedMarks(n);
    assert text[2..3] == [49] && BracketOf([49]) == Some(Bracket(1, false, COMMA));
    hide Braced, Marks, FirstUnquoted, MatchBrace, BracketOf;
  }

  lemma {:induction false} BracedMarks(n: nat)
    ensures Marks(Braced(n)).bracket == Some(1) && FirstUnquoted(Braced(n), RBRACKET, 2) == Some(3)
  {
    var text := Braced(n);
    assert text[0..] == text;
    assert text[1..][0] == LBRACKET && text[2..][0] == 49 && text[2..][1..] == text[3..] && text[3..][0] == RBRACKET;
    assert Find(text[3..], RBRACKET, Outside) == Some(0);
    assert Find(text[1..], LBRACKET, Outside) == Some(0);
    FindWithoutQuotes(text, COLON);
  }

  /** In either mode a root string with a group past the limit is refused. */
  lemma {:induction false} DeepGroupIsLost(strict: bool)
    ensures !ComesBack(Str(Braced(MAX_NESTING_DEPTH + 1)), strict)
  {
    BracedIsLost(MAX_NESTING_DEPTH + 1, strict);
  }

  lemma {:induction false} BracedIsBare(n: nat)
    requires n > 0
    ensures Utf8.ValidUtf8(Braced(n)) && !MustQuote(Braced(n), COMMA) && Braced(n)[1] == LBRACKET && Braced(n)[0] == 97
  {
    var text := Braced(n);
    assert text[|text| - 1] == RBRACE && text[0] == 97;
    forall i | 0 <= i < |text| ensures text[i] < 0x80 && !ForcesQuote(text[i], COMMA) {
      if 4 <= i { assert text[i] == (Opened(n) + Closed(n))[i - 4]; }
    }
    hide Braced, MustQuote, Utf8.ValidUtf8;
    Utf8.ValidUtf8Ascii(text);
    Codec.BareString(text);
  }

  lemma {:induction false} OverNestedIsLost(text: bytes, strict: bool)
    requires Utf8.ValidUtf8(text) && !MustQuote(text, COMMA) && LBRACKET in text && text[0] == 97 && OverNested(text)
    ensures !ComesBack(Str(text), strict)
  {
    hide ComesBack, MustQuote, OverNested, Utf8.ValidUtf8;
    BareRoot(text, strict);
  }

  lemma {:induction false} BracedIsLost(n: nat, strict: bool)
    requires n > MAX_NESTING_DEPTH
    ensures !ComesBack(Str(Braced(n)), strict)
  {
    BracedIsBare(n);
    BracedIsOverNested(n);
    hide *;
    OverNestedIsLost(Braced(n), strict);
  }

  // ----- dictionaries of two entries -----------------------------------------------------------------

  lemma {:induction false} TwoPairs(one: bytes, x: Value, two: bytes, y: Value)
    ensures var pairs := [Pair(one, x), Pair(two, y)];
            && pairs[1..] == [Pair(two, y)] && pairs[1..][1..] == [] && ValuesOf(pairs) == [x, y]
            && (Probed(pairs) <==> x.Dict? && y.Dict?)
            && KeyedProbe(pairs) == (if x.Dict? && y.Dict? then ProbeRows([x, y]) else Probe(0, false))
  {
    hide ProbeRows;
    var pairs := [Pair(one, x), Pair(two, y)];
    assert pairs[0].value == x && pairs[1].value == y;
    assert ValuesOf(pairs) == [x, y];
  }

  lemma {:induction false} TwoLimits(one: bytes, x: Value, two: bytes, y: Value, depth: nat)
    ensures EntriesLimit(Both(one, x, two, y).pairs, depth) == Max(depth, Max(EntryLimit(x, depth), EntryLimit(y, depth)))
  {
    hide EntryLimit;
    var pairs := [Pair(one, x), Pair(two, y)];
    assert pairs[1..] == [Pair(two, y)] && pairs[1..][1..] == [];
    assert PairLimit(pairs[0], depth) == EntryLimit(x, depth) && PairLimit(pairs[1], depth) == EntryLimit(y, depth);
    assert EntriesLimit([], depth) == depth;
    assert EntriesLimit(pairs[1..], depth) == Max(depth, Max(EntryLimit(y, depth), depth));
  }

  lemma {:induction false} TwoReturn(one: bytes, x: Value, two: bytes, y: Value, strict: bool)
    ensures PairsReturn(Both(one, x, two, y).pairs, COMMA, strict) <==> EntryReturns(x, COMMA, strict) && EntryReturns(y, COMMA, strict)
  {
    hide EntryReturns;
    var pairs := [Pair(one, x), Pair(two, y)];
    assert pairs[1..] == [Pair(two, y)] && pairs[1..][1..] == [];
    assert PairReturns(pairs[0], COMMA, strict) == EntryReturns(x, COMMA, strict) && PairReturns(pairs[1], COMMA, strict) == EntryReturns(y, COMMA, strict);
    assert PairsReturn(pairs[1..], COMMA, strict) == EntryReturns(y, COMMA, strict);
  }

  lemma {:induction false} TwoReach(one: bytes, x: Value, two: bytes, y: Value)
    ensures PairsReach(Both(one, x, two, y).pairs) == Max(EntryReach(x), EntryReach(y))
  {
    hide EntryReach;
    var pairs := [Pair(one, x), Pair(two, y)];
    assert pairs[1..] == [Pair(two, y)] && pairs[1..][1..] == [];
    assert PairReach(pairs[0]) == EntryReach(x) && PairReach(pairs[1]) == EntryReach(y);
    assert PairsReach(pairs[1..]) == EntryReach(y);
  }

  lemma {:induction false} TwoNormed(one: bytes, x: Value, two: bytes, y: Value)
    requires !KeyedShape(Both(one, x, two, y).pairs, 0).Shaped?
    ensures Norm(Both(one, x, two, y), false) == Both(one, Norm(x, false), two, Norm(y, false))
  {
    hide KeyedShape;
    var pairs := [Pair(one, x), Pair(two, y)];
    assert pairs[1..] == [Pair(two, y)] && pairs[1..][1..] == [];
    assert NormPair(pairs[0]) == Pair(one, Norm(x, false)) && NormPair(pairs[1]) == Pair(two, Norm(y, false));
    assert NormPairs(pairs[1..]) == [NormPair(pairs[1])];
    assert NormPairs(pairs) == [NormPair(pairs[0]), NormPair(pairs[1])];
  }

  lemma {:induction false} TwoProper(one: bytes, x: Value, two: bytes, y: Value)
    requires |one| == |two| == 1 && one != two && one[0] < 0x80 && two[0] < 0x80 && Proper(x) && Proper(y)
    ensures Proper(Both(one, x, two, y))
  {
    Utf8.ValidUtf8Ascii(one);
    Utf8.ValidUtf8Ascii(two);
    var pairs := [Pair(one, x), Pair(two, y)];
    assert ProperPair(pairs[0]) && ProperPair(pairs[1]);
  }

  // ----- the first row keeps its order ----------------------------------------------------------------

  predicate Floatless(value: Value)
    decreases value
  {
    match value
    case Dict(pairs) => DistinctKeys(pairs) && forall i :: 0 <= i < |pairs| ==> Floatless(pairs[i].value)
    case Float(_) => false
    case _ => true
  }

  /** Projected on the shape it gave its order to, a row stays as it is. */
  lemma {:induction false} FirstRowIsKept(rows: seq<Value>, depth: nat, nodes: seq<ShapeNode>)
    requires rows != [] && BuildShape(rows, depth) == Shaped(nodes) && Floatless(rows[0])
    ensures ProjectPairs(nodes, rows[0]) == rows[0].pairs
    decreases Weight(rows[0]), 1, 0
  {
    assert rows[0].pairs[0..] == rows[0].pairs;
    FirstColumnsAreKept(rows, 0, depth, nodes);
  }

  lemma {:induction false} FirstColumnsAreKept(rows: seq<Value>, k: nat, depth: nat, nodes: seq<ShapeNode>)
    requires rows != [] && rows[0].Dict? && k <= |rows[0].pairs| && Floatless(rows[0])
    requires ShapeColumns(rows, rows[0].pairs[k..], depth) == Shaped(nodes)
    ensures ProjectPairs(nodes, rows[0]) == rows[0].pairs[k..]
    decreases Weight(rows[0]), 0, |rows[0].pairs| - k
  {
    var pairs := rows[0].pairs;
    if k < |pairs| {
      assert pairs[k..][0] == pairs[k] && pairs[k..][1..] == pairs[k + 1..];
      var first, others := ShapeColumn(rows, pairs[k].key, depth).nodes, ShapeColumns(rows, pairs[k + 1..], depth).nodes;
      assert nodes == first + others && first == [first[0]];
      FirstColumnIsKept(rows, k, depth, first[0]);
      FirstColumnsAreKept(rows, k + 1, depth, others);
      assert nodes[0] == first[0] && nodes[1..] == others;
      assert pairs[k..] == [pairs[k]] + pairs[k + 1..];
    }
  }

  lemma {:induction false} FirstColumnIsKept(rows: seq<Value>, k: nat, depth: nat, node: ShapeNode)
    requires rows != [] && rows[0].Dict? && k < |rows[0].pairs| && Floatless(rows[0])
    requires ShapeColumn(rows, rows[0].pairs[k].key, depth) == Shaped([node])
    ensures ProjectNode(node, rows[0]) == rows[0].pairs[k]
    decreases Weight(rows[0]), 0, 0
  {
    var pair := rows[0].pairs[k];
    var column := Column(rows, pair.key).value;
    LookupAt(rows[0].pairs, k);
    assert GetItem(rows[0], pair.key) == Some(column[0]) == Some(pair.value);
    if !AllScalars(column) { FirstRowIsKept(column, depth + 1, node.children); }
  }

  /** What a row is projected to depends on its lookups alone. */
  lemma {:induction false} ProjectionByLookup(nodes: seq<ShapeNode>, x: Value, y: Value)
    requires forall key :: GetItem(x, key) == GetItem(y, key)
    ensures ProjectPairs(nodes, x) == ProjectPairs(nodes, y)
    decreases |nodes|
  {
    if nodes != [] {
      assert GetItem(x, nodes[0].wire) == GetItem(y, nodes[0].wire);
      ProjectionByLookup(nodes[1..], x, y);
    }
  }

  // ----- a document that is written once but not again -------------------------------------------------

  function Twin(n: nat): Value { Both(U, Chain(n), V, Chain(n)) }

  function Straight(n: nat): Value { Both(K, Twin(n), L, Int(0)) }

  function Crossed(n: nat): Value { Both(L, Int(0), K, Twin(n)) }

  function Odd(n: nat): Value { Both(L, Seq([]), K, Twin(n + 1)) }

  /** Two rows of one shape, the second with its keys the other way round. */
  function Mixed(n: nat): Value { Both(P, Straight(n), Q, Crossed(n)) }

  /** The same rows in the order of their header. */
  function Ordered(n: nat): Value { Both(P, Straight(n), Q, Straight(n)) }

  /** Rows of no shape: a list stands where the others have a number. */
  function Spoiled(n: nat): Value { Both(P, Straight(n), Q, Odd(n)) }

  function Fragile(n: nat): Value { Both(K, Mixed(n), L, Spoiled(n)) }

  function InOrder(n: nat): Value { Both(K, Ordered(n), L, Spoiled(n)) }

  lemma {:induction false} ProbeTwins(n: nat)
    requires n > 0
    ensures ProbeRows([Twin(n), Twin(n)]) == Probe(n, true)
    ensures ProbeRows([Twin(n), Twin(n + 1)]) == Probe(n + 1, false)
  {
    ProbeEqualChains(n);
    ProbeUnequalChains(n);
    ProbeTwo([Twin(n), Twin(n)], U, [Chain(n), Chain(n)], V, [Chain(n), Chain(n)]);
    ProbeTwo([Twin(n), Twin(n + 1)], U, [Chain(n), Chain(n + 1)], V, [Chain(n), Chain(n + 1)]);
    hide ProbeRows;
    assert [Chain(n), Chain(n)][0].Dict? && [Chain(n), Chain(n + 1)][0].Dict?;
  }

  lemma {:induction false} ProbeRowsOfTwins(n: nat)
    requires n > 0
    ensures ProbeRows([Straight(n), Straight(n)]) == Probe(n + 1, true)
    ensures ProbeRows([Straight(n), Crossed(n)]) == Probe(n + 1, true)
    ensures ProbeRows([Straight(n), Odd(n)]) == Probe(n + 2, false)
  {
    ProbeTwins(n);
    ProbeTwo([Straight(n), Straight(n)], K, [Twin(n), Twin(n)], L, [Int(0), Int(0)]);
    ProbeTwo([Straight(n), Crossed(n)], K, [Twin(n), Twin(n)], L, [Int(0), Int(0)]);
    ProbeTwo([Straight(n), Odd(n)], K, [Twin(n), Twin(n + 1)], L, [Int(0), Seq([])]);
    hide ProbeRows, Chain;
    assert [Twin(n), Twin(n)][0].Dict? && [Twin(n), Twin(n + 1)][0].Dict?;
  }

  /** Met first, the column with a list ends the probe at once. */
  lemma {:induction false} ProbeCrossed(n: nat)
    ensures ProbeRows([Crossed(n), Odd(n)]) == Probe(1, false)
  {
    var column := [Int(0), Seq([])];
    assert !SameKeys(column);
    assert ProbeRows(column) == Probe(0, false);
    assert column[1].Seq?;
    ProbeTwo([Crossed(n), Odd(n)], L, column, K, [Twin(n), Twin(n + 1)]);
    hide ProbeRows, Chain;
  }

  lemma {:induction false} ProbeDocuments(n: nat)
    requires n > 0
    ensures ProbeRows([Mixed(n), Spoiled(n)]) == Probe(n + 2, false)
    ensures ProbeRows([Ordered(n), Spoiled(n)]) == Probe(n + 3, false)
  {
    ProbeRowsOfTwins(n);
    ProbeCrossed(n);
    hide Chain, Twin;
    ProbeTwo([Mixed(n), Spoiled(n)], P, [Straight(n), Straight(n)], Q, [Crossed(n), Odd(n)]);
    ProbeTwo([Ordered(n), Spoiled(n)], P, [Straight(n), Straight(n)], Q, [Straight(n), Odd(n)]);
    hide ProbeRows;
    assert [Straight(n), Straight(n)][0].Dict? && [Crossed(n), Odd(n)][0].Dict? && [Straight(n), Odd(n)][0].Dict?;
  }

  // ----- what it is, and what comes back ------------------------------------------------------------------

  lemma {:induction false} FragileIsProper(n: nat)
    ensures Proper(Fragile(n))
  {
    ChainIsProper(n);
    ChainIsProper(n + 1);
    assert Proper(Seq([])) && Proper(Int(0));
    hide Chain, Proper;
    TwoProper(U, Chain(n), V, Chain(n));
    TwoProper(U, Chain(n + 1), V, Chain(n + 1));
    TwoProper(K, Twin(n), L, Int(0));
    TwoProper(L, Int(0), K, Twin(n));
    TwoProper(L, Seq([]), K, Twin(n + 1));
    TwoProper(P, Straight(n), Q, Crossed(n));
    TwoProper(P, Straight(n), Q, Odd(n));
    TwoProper(K, Mixed(n), L, Spoiled(n));
  }

  lemma {:induction false} ChainIsFloatless(n: nat)
    ensures Floatless(Chain(n))
  {
    if n > 0 { ChainIsFloatless(n - 1); }
  }

  /** A twin is a keyed table whose rows stay as they are. */
  lemma {:induction false} TwinIsKeyed(n: nat)
    requires 0 < n <= MAX_NESTING_DEPTH
    ensures KeyedProbe(Twin(n).pairs) == Probe(n - 1, true) && Probed(Twin(n).pairs)
    ensures KeyedShape(Twin(n).pairs, 0).Shaped? && Norm(Twin(n), false) == Twin(n)
    ensures Braces(KeyedShape(Twin(n).pairs, 0).nodes) == n
  {
    var rows := [Chain(n), Chain(n)];
    ProbeEqualChains(n);
    TwoPairs(U, Chain(n), V, Chain(n));
    KeyedDecides(Twin(n).pairs, 0);
    ChainIsFloatless(n);
    hide ProbeRows, BuildShape, Braces, Floatless;
    var nodes := KeyedShape(Twin(n).pairs, 0).nodes;
    assert BuildShape(rows, 0) == Shaped(nodes);
    ShapeNestsAsProbed(rows, 0, nodes);
    FirstRowIsKept(rows, 0, nodes);
    hide Chain;
    assert ProjectEach(nodes, Twin(n).pairs) == Twin(n).pairs;
  }

  lemma {:induction false} PlainRowsNormed(n: nat)
    requires 0 < n < MAX_NESTING_DEPTH
    ensures Norm(Straight(n), false) == Straight(n) && Norm(Odd(n), false) == Odd(n)
  {
    TwinIsKeyed(n);
    TwinIsKeyed(n + 1);
    TwoPairs(K, Twin(n), L, Int(0));
    TwoPairs(L, Seq([]), K, Twin(n + 1));
    assert Norm(Int(0), false) == Int(0) && Norm(Seq([]), false) == Seq([]);
    hide Norm, Twin;
    TwoNormed(K, Twin(n), L, Int(0));
    TwoNormed(L, Seq([]), K, Twin(n + 1));
  }

  lemma {:induction false} StraightIsFloatless(n: nat)
    ensures Floatless(Straight(n))
  {
    ChainIsFloatless(n);
    hide Chain;
    assert Floatless(Twin(n));
  }

  lemma {:induction false} CrossedLooksStraight(n: nat)
    ensures forall key :: GetItem(Crossed(n), key) == GetItem(Straight(n), key)
  {
    forall key ensures GetItem(Crossed(n), key) == GetItem(Straight(n), key) {
      hide Twin;
      var a, b := Straight(n).pairs, Crossed(n).pairs;
      assert a[1..] == [Pair(L, Int(0))] && b[1..] == [Pair(K, Twin(n))];
    }
  }

  /** The rows come back in the order of the first one. */
  lemma {:induction false} MixedNormed(n: nat)
    requires 0 < n < MAX_NESTING_DEPTH
    ensures KeyedShape(Mixed(n).pairs, 0).Shaped? && Braces(KeyedShape(Mixed(n).pairs, 0).nodes) == n + 2
    ensures Norm(Mixed(n), false) == Ordered(n)
  {
    var rows := [Straight(n), Crossed(n)];
    ProbeRowsOfTwins(n);
    TwoPairs(P, Straight(n), Q, Crossed(n));
    KeyedDecides(Mixed(n).pairs, 0);
    StraightIsFloatless(n);
    CrossedLooksStraight(n);
    hide ProbeRows, BuildShape, Braces, Floatless, Twin, GetItem;
    var nodes := KeyedShape(Mixed(n).pairs, 0).nodes;
    assert BuildShape(rows, 0) == Shaped(nodes);
    ShapeNestsAsProbed(rows, 0, nodes);
    FirstRowIsKept(rows, 0, nodes);
    ProjectionByLookup(nodes, Crossed(n), Straight(n));
    assert ProjectEach(nodes, Mixed(n).pairs) == Ordered(n).pairs;
  }

  lemma {:induction false} FragileNormed(n: nat)
    requires 0 < n < MAX_NESTING_DEPTH - 1
    ensures Norm(Fragile(n), false) == InOrder(n)
  {
    ProbeRowsOfTwins(n);
    ProbeDocuments(n);
    TwoPairs(P, Straight(n), Q, Odd(n));
    TwoPairs(K, Mixed(n), L, Spoiled(n));
    KeyedDecides(Spoiled(n).pairs, 0);
    KeyedDecides(Fragile(n).pairs, 0);
    PlainRowsNormed(n);
    MixedNormed(n);
    hide ProbeRows, Norm, KeyedShape, Twin;
    TwoNormed(P, Straight(n), Q, Odd(n));
    TwoNormed(K, Mixed(n), L, Spoiled(n));
  }

  // ----- where its limits lie ---------------------------------------------------------------------------------

  lemma {:induction false} TwinLimits(n: nat, depth: nat)
    requires 0 < n <= MAX_NESTING_DEPTH
    ensures EntryLimit(Twin(n), depth) == depth + n - 1
  {
    TwinIsKeyed(n);
    hide KeyedProbe, Probed;
  }

  lemma {:induction false} RowLimits(n: nat, depth: nat)
    requires 0 < n < MAX_NESTING_DEPTH
    ensures EntryLimit(Straight(n), depth) == depth + n && EntryLimit(Odd(n), depth) == depth + n + 1
  {
    TwinLimits(n, depth + 1);
    TwinLimits(n + 1, depth + 1);
    UnprobedLimit(K, Twin(n), L, Int(0), depth);
    UnprobedLimit(L, Seq([]), K, Twin(n + 1), depth);
    assert EntryLimit(Int(0), depth + 1) == 0 && EntryLimit(Seq([]), depth + 1) == 0;
    hide Twin, EntryLimit;
  }

  lemma {:induction false} UnprobedLimit(one: bytes, x: Value, two: bytes, y: Value, depth: nat)
    requires !x.Dict? || !y.Dict?
    ensures EntryLimit(Both(one, x, two, y), depth) == Max(depth + 1, Max(EntryLimit(x, depth + 1), EntryLimit(y, depth + 1)))
  {
    TwoPairs(one, x, two, y);
    assert EntryLimit(Both(one, x, two, y), depth) == EntriesLimit(Both(one, x, two, y).pairs, depth + 1);
    hide EntryLimit, EntriesLimit, KeyedProbe, Probed;
    TwoLimits(one, x, two, y, depth + 1);
  }

  lemma {:induction false} TableLimits(n: nat)
    requires 0 < n < MAX_NESTING_DEPTH
    ensures EntryLimit(Mixed(n), 0) == n + 1 && EntryLimit(Spoiled(n), 0) == n + 2
  {
    ProbeRowsOfTwins(n);
    RowLimits(n, 1);
    TwoPairs(P, Straight(n), Q, Crossed(n));
    TwoPairs(P, Straight(n), Q, Odd(n));
    hide Straight, Odd, Crossed, EntriesLimit, KeyedProbe, Probed, ProbeRows;
    TwoLimits(P, Straight(n), Q, Odd(n), 1);
  }

  lemma {:induction false} DocumentLimits(n: nat)
    requires 0 < n < MAX_NESTING_DEPTH
    ensures RootLimit(Fragile(n)) == n + 2 && RootLimit(InOrder(n)) >= n + 3
  {
    ProbeDocuments(n);
    TableLimits(n);
    TwoPairs(K, Mixed(n), L, Spoiled(n));
    TwoPairs(K, Ordered(n), L, Spoiled(n));
    hide Mixed, Ordered, Spoiled, EntriesLimit, KeyedProbe, Probed, ProbeRows;
    TwoLimits(K, Mixed(n), L, Spoiled(n), 0);
  }

  lemma {:induction false} TwinReturns(n: nat, strict: bool)
    requires 0 < n <= MAX_NESTING_DEPTH
    ensures EntryReturns(Twin(n), COMMA, strict) && EntryReach(Twin(n)) == 1
  {
    TwinIsKeyed(n);
    hide KeyedShape, Braces;
  }

  lemma {:induction false} RowsReturn(n: nat, strict: bool)
    requires 0 < n < MAX_NESTING_DEPTH
    ensures EntryReturns(Straight(n), COMMA, strict) && EntryReach(Straight(n)) == 2
    ensures EntryReturns(Odd(n), COMMA, strict) && EntryReach(Odd(n)) == 2
  {
    TwinReturns(n, strict);
    TwinReturns(n + 1, strict);
    assert EntryReturns(Int(0), COMMA, strict) && EntryReach(Int(0)) == 0;
    assert EntryReturns(Seq([]), COMMA, strict) && EntryReach(Seq([])) == 0;
    hide Twin, PairsReturn, PairsReach;
    TwoReturn(K, Twin(n), L, Int(0), strict);
    TwoReturn(L, Seq([]), K, Twin(n + 1), strict);
    TwoReach(K, Twin(n), L, Int(0));
    TwoReach(L, Seq([]), K, Twin(n + 1));
  }

  lemma {:induction false} FragileReturns(n: nat, strict: bool)
    requires 0 < n < MAX_NESTING_DEPTH - 1
    ensures RootReturns(Fragile(n), COMMA, strict) && RootReach(Fragile(n)) <= MAX_NESTING_DEPTH
  {
    RowsReturn(n, strict);
    MixedNormed(n);
    ProbeRowsOfTwins(n);
    ProbeDocuments(n);
    TwoPairs(P, Straight(n), Q, Odd(n));
    TwoPairs(K, Mixed(n), L, Spoiled(n));
    KeyedDecides(Spoiled(n).pairs, 0);
    KeyedDecides(Fragile(n).pairs, 0);
    hide Straight, Odd, Crossed, KeyedShape, PairsReturn, PairsReach, Braces, ProbeRows;
    TwoReturn(P, Straight(n), Q, Odd(n), strict);
    TwoReach(P, Straight(n), Q, Odd(n));
    TwoReturn(K, Mixed(n), L, Spoiled(n), strict);
    TwoReach(K, Mixed(n), L, Spoiled(n));
  }

  /** A value that is written, comes back, and is then not written: in header order shape discovery goes one level
      deeper before it meets the column that has no shape. */
  lemma {:induction false} OrderCanMatter(strict: bool)
    ensures WrittenOnce(Fragile(MAX_NESTING_DEPTH - 2), InOrder(MAX_NESTING_DEPTH - 2), strict)
  {
    OrderMatters(MAX_NESTING_DEPTH - 2, strict);
  }

  /** The value is written, comes back as `again`, the same up to key order, and that is not written. */
  predicate WrittenOnce(value: Value, again: Value, strict: bool) {
    && Proper(value) && SameMap(again, value)
    && Encode(value, COMMA, TWO).Some? && Decode(Encode(value, COMMA, TWO).value, strict, TWO) == Ok(again)
    && Encode(again, COMMA, TWO).None?
  }

  lemma {:induction false} OrderMatters(n: nat, strict: bool)
    requires n == MAX_NESTING_DEPTH - 2
    ensures WrittenOnce(Fragile(n), InOrder(n), strict)
  {
    assert 0 < n < MAX_NESTING_DEPTH - 1 && IsDelimiter(COMMA) && TWO > 0;
    hide Fragile, InOrder, RootLimit, RootReach, RootReturns, Norm, Proper, SameMap, Encode, Decode;
    var value, again := Fragile(n), InOrder(n);
    FragileIsProper(n);
    DocumentLimits(n);
    FragileReturns(n, strict);
    FragileNormed(n);
    EncodeSucceeds(value, COMMA, TWO);
    EncodeSucceeds(again, COMMA, TWO);
    RoundTrips(value, COMMA, TWO, Encode(value, COMMA, TWO).value, strict);
  }
}
