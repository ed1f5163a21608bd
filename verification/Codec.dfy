/** The codec as a whole: decode after encode, in both modes, down to the value the consumer builds. */
module Codec {
  import opened Bytes
  import opened Faults
  import opened Header
  import opened Scan
  import opened Events
  import opened Grammar
  import opened Values
  import opened Shapes
  import opened QuoteDecision
  import opened Render
  import opened Layout
  import opened ReadScalars
  import opened ReadRows
  import opened Faithful
  import opened RoundTrip
  import opened Reach
  import opened Stability
  import opened EncoderLimit
  import opened StableText
  import StrictMode
  import Untyped
  import Canonical
  import Plans
  import TypedMachine
  import TypedTrees
  import TypedProof
  import Utf8
  import Cells

  /** The document of a value; `None` when the encoder reports its nesting limit. */
  function Encode(value: Value, delimiter: byte, width: nat): Option<bytes> {
    var lines :- RootLines(value, delimiter);
    Some(Encoded(lines, width))
  }

  /** What a document decodes to: its tree's events, run through the untyped consumer. */
  function Decode(text: bytes, strict: bool, width: nat): Result<Value>
    requires width > 0
  {
    var tree :- Document(text, strict, width);
    var state :- Untyped.Run(Untyped.State([], None), EventsOf(tree));
    if state.result.Some? then Ok(state.result.value) else Err(Fault(Internal, 1, None, false))
  }

  /** Decoding denotes the tree: the consumer neither fails nor adds anything. */
  lemma {:induction false} DecodeIsDenotation(text: bytes, strict: bool, width: nat)
    requires width > 0
    ensures Decode(text, strict, width) ==
            match Document(text, strict, width) { case Err(fault) => Err(fault) case Ok(tree) => Ok(Denote(tree)) }
  {
    hide Document, EventsOf, Untyped.Run, Denote;
    if Document(text, strict, width).Ok? { Untyped.EventsBuildTheValue(Document(text, strict, width).value); }
  }

  /** Decoding the encoded value gives the value back exactly when its strings, the depth of its tables and the
      depth of its lines allow it: each condition can be checked on the value alone. */
  lemma {:induction false} RoundTrips(value: Value, delimiter: byte, width: nat, text: bytes, strict: bool)
    requires Proper(value) && IsDelimiter(delimiter) && width > 0 && Encode(value, delimiter, width) == Some(text)
    ensures Decode(text, strict, width) == Ok(Norm(value, false)) <==>
            RootReturns(value, delimiter, strict) && RootReach(value) <= 256
    ensures SameMap(Norm(value, false), value)
  {
    var lines := RootLines(value, delimiter).value;
    hide Document, Norm, Encoded, Proper, RootLines, RootReturns, RootReach, Denote, Decode, SameMap;
    EncodedReturnsIff(value, delimiter, lines, width, strict);
    RootReaches(value, delimiter, lines, MAX_NESTING_DEPTH);
    DecodeIsDenotation(text, strict, width);
    NormIsSame(value, false);
  }

  /** What comes back in strict mode comes back in lenient mode, and as the same value. */
  lemma {:induction false} LenientRoundTrip(value: Value, delimiter: byte, width: nat, text: bytes)
    requires Proper(value) && IsDelimiter(delimiter) && width > 0 && Encode(value, delimiter, width) == Some(text)
    requires RootReturns(value, delimiter, true) && RootReach(value) <= 256
    ensures RootReturns(value, delimiter, false) && Decode(text, false, width) == Decode(text, true, width)
    ensures Decode(text, false, width).Ok? && SameMap(Decode(text, false, width).value, value)
  {
    hide Document, Norm, Encode, Proper, RootReturns, RootReach, Denote, SameMap;
    RoundTrips(value, delimiter, width, text, true);
    RoundTrips(value, delimiter, width, text, false);
    StrictMode.StrictIsRestriction(text, width);
  }

  /** Encoding succeeds exactly when no level at which the encoder checks its limit lies too deep. */
  lemma {:induction false} EncodeSucceeds(value: Value, delimiter: byte, width: nat)
    ensures Encode(value, delimiter, width).Some? <==> RootLimit(value) <= 256
  {
    hide RootLimit, RootLines;
    RootDecides(value, delimiter);
  }

  /** The document is the canonical form of the value, byte by byte, or there is none. */
  lemma {:induction false} EncodesCanonically(value: Value, delimiter: byte, width: nat)
    requires Wellkeyed(value)
    ensures Encode(value, delimiter, width) ==
            if RootLimit(value) <= 256 then Some(Canonical.TextForm(Canonical.DocumentForm(value, delimiter), width)) else None
  {
    RootDecides(value, delimiter);
    hide RootLimit, RootLines, Wellkeyed, Encoded, Canonical.DocumentForm;
    if RootLines(value, delimiter).Some? {
      Canonical.WrittenCanonically(value, delimiter);
      Canonical.TextIs(RootLines(value, delimiter).value, width);
    }
  }

  /** Canonical bytes: encoding what was decoded gives the very same document exactly when the limit is not hit
      with the rows of tables in the order of their header, as it never is for values that nest no deeper than
      the limit; otherwise there is no document. */
  lemma {:induction false} ByteStability(value: Value, delimiter: byte, width: nat, text: bytes, strict: bool, again: Value)
    requires Proper(value) && IsDelimiter(delimiter) && width > 0 && Encode(value, delimiter, width) == Some(text)
    requires RootReturns(value, delimiter, strict) && RootReach(value) <= 256 && Decode(text, strict, width) == Ok(again)
    ensures Encode(again, delimiter, width) == Some(text) <==> HeaderOrderLimit(value) <= 256
    ensures Encode(again, delimiter, width) == None <==> HeaderOrderLimit(value) > 256
    ensures Height(value) <= 256 ==> HeaderOrderLimit(value) <= 256
  {
    RoundTrips(value, delimiter, width, text, strict);
    hide Norm, RootLines, Proper, RootReturns, RootReach, Decode, Encoded, Height, HeaderOrderLimit;
    EncodingIsStable(value, delimiter, RootLines(value, delimiter).value);
  }

  // ----- typed decoding ----------------------------------------------------------------------------

  /** What a document decodes to under a type plan: its tree's events, run through the typed consumer. */
  function DecodeTyped(text: bytes, width: nat, target: Plans.Target): Result<Plans.Typed>
    requires width > 0 && Plans.ValidTarget(target)
  {
    var tree :- Document(text, target.strict, width);
    var state :- TypedMachine.Run(target, TypedMachine.START, EventsOf(tree));
    if state.result.Some? then Ok(state.result.value) else Err(Fault(Internal, 1, None, false))
  }

  /** Typed decoding is the recursive conversion of the document's tree, faults included. */
  lemma {:induction false} TypedDecodeIsConversion(text: bytes, width: nat, target: Plans.Target)
    requires width > 0 && Plans.ValidTarget(target)
    ensures DecodeTyped(text, width, target) ==
            match Document(text, target.strict, width) {
              case Err(fault) => Err(fault)
              case Ok(tree) => TypedTrees.Convert(target, target.root, tree, tree.at, TypedTrees.AsCells(tree))
            }
  {
    hide Document, EventsOf, TypedMachine.Run, TypedTrees.Convert, Plans.ValidGraph;
    if Document(text, target.strict, width).Ok? {
      TypedProof.MachineIsConversion(target, Document(text, target.strict, width).value);
    }
  }

  /** Under the plan that takes anything, the frame stack builds what the untyped consumer builds. */
  lemma {:induction false} AnyIsUntyped(text: bytes, width: nat, target: Plans.Target)
    requires width > 0 && Plans.ValidTarget(target) && target.graph[target.root].plan.AnyPlan?
    ensures DecodeTyped(text, width, target) ==
            match Decode(text, target.strict, width) { case Err(fault) => Err(fault) case Ok(value) => Ok(Plans.Plainly(value)) }
  {
    hide Document, DecodeTyped, Decode, Denote, Plans.ChainsEnd;
    TypedDecodeIsConversion(text, width, target);
    DecodeIsDenotation(text, target.strict, width);
    if Document(text, target.strict, width).Ok? {
      AnyConversion(target, Document(text, target.strict, width).value);
    }
  }

  lemma {:induction false} AnyConversion(target: Plans.Target, tree: Tree)
    requires Plans.ValidTarget(target) && target.graph[target.root].plan.AnyPlan?
    ensures TypedTrees.Convert(target, target.root, tree, tree.at, TypedTrees.AsCells(tree)) == Ok(Plans.Plainly(Denote(tree)))
  {
    hide Plans.ChainsEnd;
    assert Plans.Resolved(target.graph, target.root) == target.root;
  }

  // ----- values that do not come back ------------------------------------------------------------

  const TWO: nat := 2

  /** Encode and decode with commas and two spaces. */
  predicate ComesBack(value: Value, strict: bool) {
    var text := Encode(value, COMMA, TWO);
    text.Some? && Decode(text.value, strict, TWO) == Ok(Norm(value, false))
  }

  lemma {:induction false} ComesBackWhen(value: Value, strict: bool)
    requires Proper(value) && Encode(value, COMMA, TWO).Some?
    ensures ComesBack(value, strict) <==> RootReturns(value, COMMA, strict) && RootReach(value) <= 256
  {
    hide Encode, Decode, Norm, RootReturns, RootReach, Proper, SameMap;
    RoundTrips(value, COMMA, TWO, Encode(value, COMMA, TWO).value, strict);
  }

  lemma {:induction false} BareString(text: bytes)
    requires text != [] && !IsNumericByte(text[0]) && !StartsOddly(text) && text[|text| - 1] != SPACE && !HasForcing(text, COMMA)
    requires text != NULL_TEXT && text != TRUE_TEXT && text != FALSE_TEXT
    ensures !MustQuote(text, COMMA)
  {
    FirstByteDecides(text);
  }

  /** An unquoted root string comes back unless the header grammar claims it. */
  lemma {:induction false} BareRoot(text: bytes, strict: bool)
    requires Utf8.ValidUtf8(text) && !MustQuote(text, COMMA) && !StartsWith(text, BOM)
    ensures ComesBack(Str(text), strict) <==> !Claimed(text, COMMA, strict)
  {
    hide ComesBack, MustQuote, Claimed, Utf8.ValidUtf8, EntryReturns, RootReach, ScalarText;
    RootReachOfString(text);
    ComesBackWhen(Str(text), strict);
  }

  lemma {:induction false} RootReachOfString(text: bytes)
    ensures RootReach(Str(text)) == 0
  {
  }

  /** A root string with a bracket behind its first byte is refused in strict mode, and only there: `a[b`. */
  lemma {:induction false} BracketStringIsLost()
    ensures !ComesBack(Str([97, LBRACKET, LOWER_B]), true) && ComesBack(Str([97, LBRACKET, LOWER_B]), false)
  {
    var s: bytes := [97, LBRACKET, LOWER_B];
    Utf8.ValidUtf8Ascii(s);
    BareString(s);
    assert s[1] == LBRACKET;
    NoBracketCloses(s);
    hide ComesBack, MustQuote, OverNested, Utf8.ValidUtf8;
    BareRoot(s, true);
    BareRoot(s, false);
  }

  lemma {:induction false} NoBracketCloses(text: bytes)
    requires RBRACKET !in text && QUOTE !in text
    ensures !OverNested(text)
  {
    var bracket := Cells.Marks(text).bracket;
    if bracket.Some? { Cells.FindWithoutQuotes(text[bracket.value + 1..], RBRACKET); }
  }

  /** A root string that starts with a byte-order mark loses it. */
  lemma {:induction false} MarkedStringIsLost(strict: bool)
    ensures !ComesBack(Str(BOM), strict)
  {
    assert Utf8.SequenceLength(BOM) == 3 && BOM[3..] == [];
    BareString(BOM);
    hide ComesBack, MustQuote;
    ComesBackWhen(Str(BOM), strict);
  }

  function Padded(): bytes {
    seq(95, _ => 97) + [SPACE]
  }

  /** A long entry string loses the space at its end. */
  lemma {:induction false} TrailingSpaceIsLost(strict: bool)
    ensures !ComesBack(Dict([Pair([97], Str(Padded()))]), strict)
  {
    var pair := Pair([97], Str(Padded()));
    PaddedFacts();
    hide ComesBack, LosesSpace, Padded, ProperPair, Proper, Encode, RootReturns;
    SingleEntry(pair, strict);
    ComesBackWhen(Dict([pair]), strict);
  }

  lemma {:induction false} PaddedFacts()
    ensures ProperPair(Pair([97], Str(Padded()))) && LosesSpace(Padded(), COMMA)
  {
    PaddedIsProper();
    hide ProperPair;
    assert Padded()[95] == SPACE;
  }

  lemma {:induction false} PaddedIsProper()
    ensures ProperPair(Pair([97], Str(Padded())))
  {
    Utf8.ValidUtf8Ascii(Padded());
    Utf8.ValidUtf8Ascii([97]);
    hide Utf8.ValidUtf8, Padded;
  }

  lemma {:induction false} SingleEntry(pair: Pair, strict: bool)
    requires ProperPair(pair) && pair.value.Str?
    ensures Proper(Dict([pair])) && Encode(Dict([pair]), COMMA, TWO).Some?
    ensures RootReturns(Dict([pair]), COMMA, strict) ==> !LosesSpace(pair.value.text, COMMA)
  {
    var pairs := [pair];
    assert pairs[0] == pair && pairs[1..] == [];
    assert PairBlock(pair, 0, COMMA).Some?;
    assert EntriesLines([], 0, COMMA) == Some([]);
    assert EntriesLines(pairs, 0, COMMA).Some?;
    assert KeyedShape(pairs, 0).NoShape?;
    assert RootReturns(Dict(pairs), COMMA, strict) == PairsReturn(pairs, COMMA, strict);
    assert PairReturns(pair, COMMA, strict) == EntryReturns(pair.value, COMMA, strict);
  }

  /** `levels` dictionaries around a list that takes lines of its own. */
  function Deep(levels: nat): Value
    decreases levels, 0
  {
    if levels == 0 then Seq([Null, Seq([])]) else Dict(DeepPairs(levels - 1))
  }

  function DeepPairs(levels: nat): seq<Pair>
    decreases levels, 1
  {
    [Pair([97], Deep(levels))]
  }

  lemma {:induction false} DeepFacts(levels: nat)
    ensures Proper(Deep(levels)) && EntryReach(Deep(levels)) == levels + 1
  {
    if levels == 0 {
      var items := [Null, Seq([])];
      assert !IsScalar(items[1]) && !items[0].Dict?;
      assert ItemsReach(items) == 0;
    } else {
      DeepFacts(levels - 1);
      var pairs := DeepPairs(levels - 1);
      Utf8.ValidUtf8Ascii([97]);
      assert ProperPair(pairs[0]);
      assert PairReach(pairs[0]) == levels && pairs[1..] == [];
      assert PairsReach(pairs) == levels;
    }
  }

  lemma {:induction false} DeepEncodes(levels: nat, depth: nat)
    requires depth + levels <= 256
    ensures EntriesLines(DeepPairs(levels), depth, COMMA).Some?
  {
    var pair := DeepPairs(levels)[0];
    if levels == 0 {
      DeepListEncodes(depth);
    } else {
      DeepEncodes(levels - 1, depth + 1);
      assert pair.value == Dict(DeepPairs(levels - 1)) && KeyedShape(DeepPairs(levels - 1), depth).NoShape?;
      assert ObjectBlock(pair.key, DeepPairs(levels - 1), depth, COMMA).Some?;
      assert EntryBlock(pair.key, pair.value, depth, COMMA) == ObjectBlock(pair.key, DeepPairs(levels - 1), depth, COMMA);
    }
    assert PairBlock(pair, depth, COMMA) == EntryBlock(pair.key, pair.value, depth, COMMA);
    assert DeepPairs(levels)[1..] == [] && EntriesLines([], depth, COMMA) == Some([]);
  }

  lemma {:induction false} DeepListEncodes(depth: nat)
    ensures EntryBlock([97], Deep(0), depth, COMMA).Some?
  {
    var items := [Null, Seq([])];
    assert !IsScalar(items[1]) && !items[0].Dict? && items[1..] == [Seq([])] && items[1..][1..] == [];
    assert ItemsLines([], depth + 1, 1, COMMA) == Some([]);
    assert ItemBlock(Seq([]), depth + 1, 1, COMMA).Some? && ItemBlock(Null, depth + 1, 1, COMMA).Some?;
    assert ItemsLines(items[1..], depth + 1, 1, COMMA).Some?;
    assert ItemsLines(items, depth + 1, 1, COMMA).Some?;
    assert ArrayBlock(Named([97]), items, depth, 0, COMMA).Some?;
  }

  /** The encoder writes what the scanner refuses: a list below 257 dictionaries. */
  lemma {:induction false} DeepListIsLost(strict: bool)
    ensures Encode(Deep(MAX_NESTING_DEPTH + 1), COMMA, TWO).Some?
    ensures !ComesBack(Deep(MAX_NESTING_DEPTH + 1), strict)
  {
    var value := Deep(MAX_NESTING_DEPTH + 1);
    DeepFacts(MAX_NESTING_DEPTH + 1);
    DeepEncodes(MAX_NESTING_DEPTH, 0);
    DeepFacts(MAX_NESTING_DEPTH);
    DeepRoot(MAX_NESTING_DEPTH);
    hide ComesBack, Encode, Deep, RootReturns, Proper;
    ComesBackWhen(value, strict);
  }

  lemma {:induction false} DeepRoot(levels: nat)
    requires EntriesLines(DeepPairs(levels), 0, COMMA).Some? && EntryReach(Deep(levels)) == levels + 1
    ensures Encode(Deep(levels + 1), COMMA, TWO).Some? && RootReach(Deep(levels + 1)) == levels + 1
  {
    var pairs := DeepPairs(levels);
    hide EntriesLines, EntryReach;
    assert PairReach(pairs[0]) == EntryReach(Deep(levels)) && pairs[1..] == [];
    assert PairsReach(pairs) == levels + 1;
    assert Deep(levels + 1) == Dict(pairs);
  }
}
