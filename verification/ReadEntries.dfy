/** Single written lines as the parser takes them: entries, headers, list items (src/parser.rs). */
module ReadEntries {
  import opened Bytes
  import opened Tokens
  import opened Faults
  import opened Cells
  import opened Escapes
  import opened Header
  import opened Scan
  import opened Events
  import opened Grammar
  import opened Values
  import opened Shapes
  import opened Quoting
  import opened QuoteDecision
  import opened Render
  import opened Layout
  import opened ReadScalars
  import opened ReadGroups
  import opened ReadHeaders
  import opened ReadRows

  // ----- outcomes ---------------------------------------------------------------------------

  /** `r` is the tree of `value` with `rest` behind it exactly when `back` holds; a value that does not
      return is either refused or read as another one. */
  predicate ReadsTree(r: Result<Parsed<Tree>>, back: bool, value: Value, rest: LineStream) {
    (back ==> r.Ok?) && (r.Ok? ==> r.value.rest == rest && (Denote(r.value.value) == value <==> back))
  }

  predicate ReadsField(r: Result<Parsed<Field>>, back: bool, pair: Pair, rest: LineStream) {
    && (back ==> r.Ok?)
    && (r.Ok? ==> r.value.rest == rest && TextOf(r.value.value.key) == pair.key && (Denote(r.value.value.value) == pair.value <==> back))
  }

  predicate SameNames(a: seq<Pair>, b: seq<Pair>) {
    |a| == |b| && forall i :: 0 <= i < |a| ==> a[i].key == b[i].key
  }

  predicate ReadsFields(r: Result<Parsed<seq<Field>>>, back: bool, pairs: seq<Pair>, rest: LineStream) {
    && (back ==> r.Ok?)
    && (r.Ok? ==> r.value.rest == rest && SameNames(DenotePairs(r.value.value), pairs) && (DenotePairs(r.value.value) == pairs <==> back))
  }

  predicate ReadsItems(r: Result<Parsed<seq<Tree>>>, back: bool, values: seq<Value>, rest: LineStream) {
    (back ==> r.Ok?) && (r.Ok? ==> r.value.rest == rest && (DenoteItems(r.value.value) == values <==> back))
  }

  function AsField(r: Result<Parsed<Tree>>, key: bytes, at: Position): Result<Parsed<Field>> {
    match r
    case Err(fault) => Err(fault)
    case Ok(body) => Ok(Parsed(Field(KeyToken(key), body.value, at), body.rest))
  }

  lemma {:induction false} FieldOfTree(r: Result<Parsed<Tree>>, back: bool, value: Value, rest: LineStream, key: bytes, at: Position)
    requires ReadsTree(r, back, value, rest)
    ensures ReadsField(AsField(r, key, at), back, Pair(key, value), rest)
  {
    KeyTokenText(key);
  }

  lemma {:induction false} FieldsCons(
      first: Parsed<Field>, others: Result<Parsed<seq<Field>>>, all: Result<Parsed<seq<Field>>>,
      firstBack: bool, othersBack: bool, pair: Pair, pairs: seq<Pair>, rest: LineStream, middle: LineStream)
    requires ReadsField(Ok(first), firstBack, pair, middle) && ReadsFields(others, othersBack, pairs, rest)
    requires all == if others.Err? then Err(others.fault) else Ok(Parsed([first.value] + others.value.value, others.value.rest))
    ensures ReadsFields(all, firstBack && othersBack, [pair] + pairs, rest)
  {
    hide Denote, TextOf;
    if others.Ok? {
      var fields := [first.value] + others.value.value;
      assert fields[1..] == others.value.value;
      var a, b := Pair(TextOf(first.value.key), Denote(first.value.value)), DenotePairs(others.value.value);
      assert DenotePairs(fields) == [a] + b;
      assert ([a] + b)[0] == a && ([pair] + pairs)[0] == pair && ([a] + b)[1..] == b && ([pair] + pairs)[1..] == pairs;
    }
  }

  lemma {:induction false} ItemsCons(
      first: Parsed<Tree>, others: Result<Parsed<seq<Tree>>>, all: Result<Parsed<seq<Tree>>>,
      firstBack: bool, othersBack: bool, value: Value, values: seq<Value>, rest: LineStream, middle: LineStream)
    requires ReadsTree(Ok(first), firstBack, value, middle) && ReadsItems(others, othersBack, values, rest)
    requires all == if others.Err? then Err(others.fault) else Ok(Parsed([first.value] + others.value.value, others.value.rest))
    ensures ReadsItems(all, firstBack && othersBack, [value] + values, rest)
  {
    hide Denote;
    if others.Ok? {
      var items := [first.value] + others.value.value;
      assert items[1..] == others.value.value;
      var a, b := Denote(first.value), DenoteItems(others.value.value);
      assert DenoteItems(items) == [a] + b;
      assert ([a] + b)[0] == a && ([value] + values)[0] == value && ([a] + b)[1..] == b && ([value] + values)[1..] == values;
    }
  }

  lemma {:induction false} SameNamesDistinct(a: seq<Pair>, b: seq<Pair>)
    requires SameNames(a, b) && DistinctKeys(b)
    ensures DistinctKeys(a)
  {
  }

  /** An object of fields that read as `pairs`. */
  lemma {:induction false} ObjectOfFields(fields: seq<Field>, kind: ObjectKind, at: Position, pairs: seq<Pair>)
    requires SameNames(DenotePairs(fields), pairs) && DistinctKeys(pairs)
    ensures Denote(Obj(kind, fields, at)) == Dict(DenotePairs(fields))
  {
    SameNamesDistinct(DenotePairs(fields), pairs);
    ObjectDenotes(fields);
  }

  // ----- entries with a colon -----------------------------------------------------------------

  lemma {:induction false} NotAHeader(key: bytes, value: bytes, content: bytes, strict: bool, at: Position)
    requires content == KeyText(key) + ([COLON] + value)
    ensures HeaderOf(content, strict, at) == Ok(NotHeader)
  {
    hide BracketedOutcome, KeyText;
    KeyIsHushed(key);
    HushedFind(KeyText(key), Outside, COLON);
    HushedFind(KeyText(key), Outside, LBRACKET);
    FindConcat(KeyText(key), [COLON] + value, COLON, Outside);
    FindConcat(KeyText(key), [COLON] + value, LBRACKET, Outside);
    assert content[0..] == content;
  }

  lemma {:induction false} ColonKeyReads(key: bytes, value: bytes, content: bytes, at: Position)
    requires content == KeyText(key) + ([COLON] + value) && (value == [] || value[0] == SPACE)
    ensures EntryColon(content) == Some(|KeyText(key)|)
    ensures StringTokenOf(Trim(content[..|KeyText(key)|]), at) == Ok(KeyToken(key))
    ensures |content| == |KeyText(key)| + 1 + |value|
    ensures value != [] ==> content[|KeyText(key)| + 2..] == value[1..]
  {
    hide EntryColon, StringTokenOf, Trim, KeyText, KeyToken;
    EntryColonIs(key, value, content);
    KeyIsTrimmed(key);
    TrimOfTrimmed(KeyText(key));
    KeyReads(key, at);
  }

  /** Where an inline value stands on its line. */
  function ValueAt(key: bytes, at: Position): Position {
    Position(at.line, at.column + |KeyText(key)| + 2)
  }

  function Inline(r: Result<Tree>, stream: LineStream): Result<Parsed<Tree>> {
    match r case Err(fault) => Err(fault) case Ok(tree) => Ok(Parsed(tree, stream))
  }

  lemma {:induction false} KeyValueOfParts(
      key: bytes, value: bytes, content: bytes, colon: nat, at: Position, stream: LineStream, depth: nat, seen: set<bytes>, strict: bool)
    requires EntryColon(content) == Some(colon) && StringTokenOf(Trim(content[..colon]), at) == Ok(KeyToken(key)) && key !in seen
    requires |content| == colon + 1 + |value| && (value != [] ==> content[colon + 2..] == value[1..])
    ensures KeyValue(content, at, stream, depth, strict, seen) ==
            AsField(if value == [] then NestedObject(stream, depth, at, strict)
                    else Inline(InlineValue(value[1..], Position(at.line, at.column + colon + 2)), stream), key, at)
  {
    hide EntryColon, StringTokenOf, Trim, InlineValue, KeyToken;
    KeyTokenText(key);
  }

  lemma {:induction false} EntryOfNoHeader(content: bytes, at: Position, stream: LineStream, depth: nat, seen: set<bytes>, strict: bool)
    requires HeaderOf(content, strict, at) == Ok(NotHeader)
    ensures Entry(content, at, stream, depth, strict, seen) == KeyValue(content, at, stream, depth, strict, seen)
  {
    hide HeaderOf;
  }

  /** What an entry's value reads as: nothing behind the colon opens an object. */
  function ColonValue(key: bytes, value: bytes, at: Position, stream: LineStream, depth: nat, strict: bool): Result<Parsed<Tree>> {
    if value == [] then NestedObject(stream, depth, at, strict) else Inline(InlineValue(value[1..], ValueAt(key, at)), stream)
  }

  lemma {:induction false} ColonEntryReads(key: bytes, value: bytes, content: bytes, at: Position, stream: LineStream, depth: nat, seen: set<bytes>, strict: bool)
    requires content == KeyText(key) + ([COLON] + value) && (value == [] || value[0] == SPACE) && key !in seen
    ensures Entry(content, at, stream, depth, strict, seen) == AsField(ColonValue(key, value, at, stream, depth, strict), key, at)
  {
    hide KeyText, HeaderOf, EntryColon, StringTokenOf, Trim, InlineValue, KeyToken, AsField;
    NotAHeader(key, value, content, strict, at);
    ColonKeyReads(key, value, content, at);
    EntryOfNoHeader(content, at, stream, depth, seen, strict);
    KeyValueOfParts(key, value, content, |KeyText(key)|, at, stream, depth, seen, strict);
  }

  // ----- entries with a header ------------------------------------------------------------------

  lemma {:induction false} EntryOfHeader(content: bytes, at: Position, stream: LineStream, depth: nat, seen: set<bytes>, header: Header, key: bytes, strict: bool)
    requires HeaderIs(content, strict, at, Ok(HeaderLine(header))) && header.key == Some(KeyToken(key)) && key !in seen
    ensures Entry(content, at, stream, depth, strict, seen) == AsField(ArrayOrKeyed(stream, header, depth, at, strict), key, at)
  {
    hide HeaderOf, KeyToken;
    assert Look(0);
    KeyTokenText(key);
    assert Entry(content, at, stream, depth, strict, seen) == EntryWith(HeaderLine(header), content, at, stream, depth, strict, seen);
    assert EntryWith(HeaderLine(header), content, at, stream, depth, strict, seen) == HeaderEntry(header, at, stream, depth, strict, seen);
  }

  lemma {:induction false} EntryOfBadHeader(content: bytes, at: Position, stream: LineStream, depth: nat, seen: set<bytes>, fault: Fault, strict: bool)
    requires HeaderIs(content, strict, at, Err(fault))
    ensures Entry(content, at, stream, depth, strict, seen).Err?
  {
    hide HeaderOf;
    assert Look(0);
  }

  // ----- entries behind a dash --------------------------------------------------------------------

  /** A line that is an entry, also behind a dash. */
  ghost predicate EntryLine(content: bytes, strict: bool) {
    && content != EMPTY_ARRAY
    && forall at :: EntryLineAt(content, HeaderOf(content, strict, at))
  }

  predicate EntryLineAt(content: bytes, outcome: Result<HeaderOutcome>) {
    outcome.Ok? ==>
      if outcome.value.HeaderLine? then outcome.value.header.key.Some? else EntryColon(content).Some?
  }

  function AsObject(r: Result<Parsed<Field>>, at: Position, depth: nat, strict: bool): Result<Parsed<Tree>> {
    match r case Err(fault) => Err(fault) case Ok(first) => ObjectItem(first, at, depth, strict)
  }

  lemma {:induction false} DashedEntry(content: bytes, at: Position, stream: LineStream, depth: nat, strict: bool)
    requires EntryLine(content, strict)
    ensures DashedItem(content, at, stream, depth, strict) == AsObject(Entry(content, at, stream, depth + 2, strict, {}), at, depth, strict)
  {
    var outcome := HeaderOf(content, strict, at);
    assert EntryLineAt(content, outcome);
    hide HeaderOf, EntryColon;
    if outcome.Ok? {
      DashedOutcome(outcome.value, content, at, stream, depth, strict);
    }
  }

  lemma {:induction false} DashedOutcome(outcome: HeaderOutcome, content: bytes, at: Position, stream: LineStream, depth: nat, strict: bool)
    requires EntryLineAt(content, Ok(outcome))
    ensures DashedWith(outcome, content, at, stream, depth, strict) ==
            AsObject(EntryWith(outcome, content, at, stream, depth + 2, strict, {}), at, depth, strict)
  {
    hide EntryColon;
    match outcome
    case HeaderLine(header) =>
    case Malformed(_) =>
    case NotHeader =>
      var first := KeyValue(content, at, stream, depth + 2, strict, {});
  }

  lemma {:induction false} ColonLineIsEntry(key: bytes, value: bytes, content: bytes, strict: bool)
    requires content == KeyText(key) + ([COLON] + value) && (value == [] || value[0] == SPACE)
    ensures EntryLine(content, strict)
  {
    hide HeaderOf, KeyText, EntryColon;
    EntryColonIs(key, value, content);
    KeyIsTrimmed(key);
    assert content[0] == KeyText(key)[0];
    forall at ensures EntryLineAt(content, HeaderOf(content, strict, at)) { NotAHeader(key, value, content, strict, at); }
  }

  lemma {:induction false} HeaderLineIsEntry(content: bytes, strict: bool)
    requires content != EMPTY_ARRAY
    requires forall at :: HeaderHasKey(content, at, strict)
    ensures EntryLine(content, strict)
  {
    hide HeaderOf;
    forall at ensures EntryLineAt(content, HeaderOf(content, strict, at)) {
      assert HeaderHasKey(content, at, strict);
      assert Look(0);
    }
  }

  /** The header grammar refuses the line, or reads a header with a key. */
  ghost predicate HeaderHasKey(content: bytes, at: Position, strict: bool) {
    forall hint :: Look(hint) ==> var r := HeaderOf(content, strict, at); r.Err? || (r.value.HeaderLine? && r.value.header.key.Some?)
  }
}
