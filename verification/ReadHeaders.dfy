/** Written array headers read back (src/header.rs, src/encode.rs). */
module ReadHeaders {
  import opened Bytes
  import opened Tokens
  import opened Faults
  import opened Cells
  import opened Header
  import opened Scan
  import opened Shapes
  import opened QuoteDecision
  import opened Render
  import opened ReadScalars
  import opened ReadGroups

  // ----- the bracket ------------------------------------------------------------------

  lemma {:induction false} DigitRunOf(digits: bytes, rest: bytes)
    requires AllDigits(digits) && (rest != [] ==> !IsDigit(rest[0]))
    ensures DigitRun(digits + rest) == |digits|
  {
    if digits == [] {
      assert digits + rest == rest;
    } else {
      assert (digits + rest)[1..] == digits[1..] + rest;
      DigitRunOf(digits[1..], rest);
    }
  }

  function SuffixText(keyed: bool, delimiter: byte): bytes {
    (if keyed then [COLON] else []) + (if delimiter == COMMA then [] else [delimiter])
  }

  lemma {:induction false} SuffixReads(count: nat, keyed: bool, delimiter: byte)
    requires IsDelimiter(delimiter)
    ensures BracketSuffix(SuffixText(keyed, delimiter), count) == Some(Bracket(count, keyed, delimiter))
    ensures SuffixText(keyed, delimiter) != [] ==> !IsDigit(SuffixText(keyed, delimiter)[0])
  {
    var s := SuffixText(keyed, delimiter);
    if keyed && delimiter == COMMA { assert s == [COLON]; }
    if keyed && delimiter != COMMA { assert s == [COLON, delimiter]; }
    if !keyed && delimiter != COMMA { assert s == [delimiter]; }
    if !keyed && delimiter == COMMA { assert s == []; }
  }

  lemma {:induction false} BracketReads(count: nat, keyed: bool, delimiter: byte)
    requires IsDelimiter(delimiter) && count < USIZE_LIMIT
    ensures BracketOf(BracketText(count, keyed, delimiter)) == Some(Bracket(count, keyed, delimiter))
  {
    var digits, suffix := DecimalText(count), SuffixText(keyed, delimiter);
    SuffixReads(count, keyed, delimiter);
    DigitRunOf(digits, suffix);
    DecimalTextValue(count);
    BracketOfParts(digits, suffix, count);
    assert BracketText(count, keyed, delimiter) == digits + suffix;
  }

  lemma {:induction false} BracketOfParts(digits: bytes, suffix: bytes, count: nat)
    requires DigitRun(digits + suffix) == |digits| > 0 && AllDigits(digits) && (|digits| == 1 || digits[0] != ZERO)
    requires DecimalValue(digits) == count < USIZE_LIMIT
    ensures BracketOf(digits + suffix) == BracketSuffix(suffix, count)
  {
    var content := digits + suffix;
    assert content[..|digits|] == digits && content[|digits|..] == suffix && content[0] == digits[0];
  }

  lemma {:induction false} BracketIsPlain(count: nat, keyed: bool, delimiter: byte)
    requires IsDelimiter(delimiter)
    ensures QUOTE !in BracketText(count, keyed, delimiter) && RBRACKET !in BracketText(count, keyed, delimiter)
  {
    assert forall i :: 0 <= i < |DecimalText(count)| ==> IsDigit(DecimalText(count)[i]);
  }

  // ----- finding the bracket ------------------------------------------------------------

  /** Silence before the bracket: the line's first mark is the bracket. */
  lemma {:induction false} BracketIsFirst(key: bytes, rest: bytes)
    requires Hushed(key, Outside) && rest != [] && rest[0] == LBRACKET
    ensures Marks(key + rest).bracket == Some(|key|)
  {
    var content := key + rest;
    HushedFind(key, Outside, LBRACKET);
    HushedFind(key, Outside, COLON);
    FindConcat(key, rest, LBRACKET, Outside);
    FindConcat(key, rest, COLON, Outside);
    assert content[0..] == content;
  }

  lemma {:induction false} ClosingBracket(content: bytes, start: nat, bracket: bytes, rest: bytes)
    requires start < |content| && content[start + 1..] == bracket + ([RBRACKET] + rest)
    requires QUOTE !in bracket && RBRACKET !in bracket
    ensures FirstUnquoted(content, RBRACKET, start + 1) == Some(start + 1 + |bracket|)
  {
    FindWithoutQuotes(bracket, RBRACKET);
    ModeWithoutQuotes(bracket);
    FindConcat(bracket, [RBRACKET] + rest, RBRACKET, Outside);
  }

  // ----- guarded readings: stating `Look(0)` brings them into view ------------------------

  ghost predicate FieldsAre(text: bytes, delimiter: byte, strict: bool, at: Position, nodes: seq<ShapeNode>) {
    forall hint :: Look(hint) ==> FieldsOf(text, delimiter, strict, at, []) == Good(NodesOf(nodes))
  }

  ghost predicate GroupSpans(content: bytes, cursor: nat, group: Closing) {
    forall hint :: Look(hint) ==> MatchFrom(content, cursor, false, 0, 0) == Some(group)
  }

  ghost predicate BracketSpans(content: bytes, start: nat, end: nat) {
    forall hint :: Look(hint) ==> Marks(content).bracket == Some(start) && FirstUnquoted(content, RBRACKET, start + 1) == Some(end)
  }

  ghost predicate KeyIs(content: bytes, start: nat, at: Position, key: Option<StringToken>)
    requires start <= |content|
  {
    forall hint :: Look(hint) ==> (start > 0 ==> content[start - 1] != SPACE) && KeyBefore(content, start, at) == Ok(key)
  }

  ghost predicate BracketIs(text: bytes, bracket: Bracket) {
    forall hint :: Look(hint) ==> BracketOf(text) == Some(bracket)
  }

  ghost predicate GroupIs(content: bytes, cursor: nat, delimiter: byte, strict: bool, at: Position, r: Result<Coded<Fields>>) {
    forall hint :: Look(hint) ==> GroupAt(content, cursor, delimiter, strict, at) == r
  }

  ghost predicate TailIs(content: bytes, cursor: nat, key: Option<StringToken>, bracket: Bracket, strict: bool, at: Position, r: Result<HeaderOutcome>) {
    forall hint :: Look(hint) ==> AfterBracket(content, cursor, key, bracket, strict, at) == r
  }

  ghost predicate LeadsTo(content: bytes, cursor: nat, key: Option<StringToken>, bracket: Bracket, strict: bool, at: Position) {
    forall hint :: Look(hint) ==> HeaderOf(content, strict, at) == AfterBracket(content, cursor, key, bracket, strict, at)
  }

  /** The line reads as `r` for the header grammar. */
  ghost predicate HeaderIs(content: bytes, strict: bool, at: Position, r: Result<HeaderOutcome>) {
    forall hint :: Look(hint) ==> HeaderOf(content, strict, at) == r
  }

  lemma {:induction false} TailDecides(content: bytes, cursor: nat, key: Option<StringToken>, bracket: Bracket, strict: bool, at: Position, r: Result<HeaderOutcome>)
    requires LeadsTo(content, cursor, key, bracket, strict, at) && TailIs(content, cursor, key, bracket, strict, at, r)
    ensures HeaderIs(content, strict, at, r)
  {
    assert Look(0);
  }

  // ----- putting the header together ------------------------------------------------------

  function KeyOf(place: Place): Option<StringToken> {
    match place case Named(key) => Some(KeyToken(key)) case _ => None
  }

  function InlineOf(suffix: bytes): Option<bytes> {
    if suffix == [] then None else Some(suffix[1..])
  }

  /** What may follow the colon: nothing, or the values behind a space when the header names no fields. */
  predicate Follows(suffix: bytes, nodes: seq<ShapeNode>) {
    suffix == [] || (|suffix| > 1 && suffix[0] == SPACE && nodes == [])
  }

  function ReadHeader(place: Place, count: nat, keyed: bool, delimiter: byte, nodes: seq<ShapeNode>, suffix: bytes): HeaderOutcome {
    HeaderLine(Header(KeyOf(place), count, keyed, delimiter, NodesOf(nodes), InlineOf(suffix)))
  }

  function ReadGroup(nodes: seq<ShapeNode>, after: nat, at: Position): Result<Coded<Fields>> {
    if Braces(nodes) > MAX_NESTING_DEPTH then Err(SyntaxAt(DepthLimit, at)) else Ok(Good(Fields(NodesOf(nodes), after)))
  }

  /** The fields behind the bracket. */
  lemma {:induction false} GroupAtReads(content: bytes, cursor: nat, nodes: seq<ShapeNode>, delimiter: byte, tail: bytes, strict: bool, at: Position)
    requires IsDelimiter(delimiter) && WellNamed(nodes) && tail != [] && tail[0] != LBRACE
    requires cursor <= |content| && content[cursor..] == BracedGroup(nodes, delimiter) + tail
    ensures GroupIs(content, cursor, delimiter, strict, at, ReadGroup(nodes, cursor + |BracedGroup(nodes, delimiter)|, at))
  {
    if nodes == [] {
      NoGroup(content, cursor, delimiter, tail, strict, at);
    } else {
      SomeGroup(content, cursor, nodes, delimiter, tail, strict, at);
    }
  }

  lemma {:induction false} SomeGroup(content: bytes, cursor: nat, nodes: seq<ShapeNode>, delimiter: byte, tail: bytes, strict: bool, at: Position)
    requires IsDelimiter(delimiter) && WellNamed(nodes) && nodes != []
    requires cursor <= |content| && content[cursor..] == BracedGroup(nodes, delimiter) + tail
    ensures GroupIs(content, cursor, delimiter, strict, at, ReadGroup(nodes, cursor + |BracedGroup(nodes, delimiter)|, at))
  {
    hide *;
    InsideBraces(content, cursor, nodes, delimiter, tail);
    GroupFieldsRead(nodes, delimiter, strict, at);
    OuterMatch(content, cursor, nodes, delimiter, tail);
    GroupOfParts(content, cursor, cursor + |BracedGroup(nodes, delimiter)|, nodes, GroupText(nodes, delimiter), delimiter, strict, at);
  }

  lemma {:induction false} GroupFieldsRead(nodes: seq<ShapeNode>, delimiter: byte, strict: bool, at: Position)
    requires IsDelimiter(delimiter) && WellNamed(nodes) && nodes != []
    ensures FieldsAre(GroupText(nodes, delimiter), delimiter, strict, at, nodes)
  {
    GroupReads(nodes, delimiter, strict, at, []);
    assert [] + NodesOf(nodes) == NodesOf(nodes);
  }

  lemma {:induction false} OuterMatch(content: bytes, cursor: nat, nodes: seq<ShapeNode>, delimiter: byte, tail: bytes)
    requires IsDelimiter(delimiter) && nodes != []
    requires cursor < |content| && content[cursor..] == BracedGroup(nodes, delimiter) + tail
    ensures GroupSpans(content, cursor, Closing(cursor + |BracedGroup(nodes, delimiter)| - 1, Braces(nodes)))
  {
    var braced := BracedGroup(nodes, delimiter);
    MatchOuter(nodes, tail, delimiter);
    MatchFromOpen(content, cursor, braced + tail, Closing(|braced| - 1, Braces(nodes)));
  }

  lemma {:induction false} NoGroup(content: bytes, cursor: nat, delimiter: byte, tail: bytes, strict: bool, at: Position)
    requires tail != [] && tail[0] != LBRACE && cursor <= |content| && content[cursor..] == [] + tail
    ensures GroupIs(content, cursor, delimiter, strict, at, Ok(Good(Fields([], cursor))))
  {
    assert content[cursor] == content[cursor..][0];
  }

  lemma {:induction false} GroupOfParts(
      content: bytes, cursor: nat, after: nat, nodes: seq<ShapeNode>, text: bytes, delimiter: byte, strict: bool, at: Position)
    requires cursor + 1 < after <= |content| && content[cursor] == LBRACE && content[cursor + 1..after - 1] == text
    requires GroupSpans(content, cursor, Closing(after - 1, Braces(nodes)))
    requires FieldsAre(text, delimiter, strict, at, nodes)
    ensures GroupIs(content, cursor, delimiter, strict, at, ReadGroup(nodes, after, at))
  {
    assert Look(0);
  }

  lemma {:induction false} InsideBraces(content: bytes, cursor: nat, nodes: seq<ShapeNode>, delimiter: byte, tail: bytes)
    requires nodes != [] && cursor <= |content| && content[cursor..] == BracedGroup(nodes, delimiter) + tail
    ensures cursor < |content| && content[cursor] == LBRACE
    ensures cursor + |BracedGroup(nodes, delimiter)| <= |content| && |BracedGroup(nodes, delimiter)| >= 2
    ensures content[cursor + 1..cursor + |BracedGroup(nodes, delimiter)| - 1] == GroupText(nodes, delimiter)
  {
    SliceInside(content, cursor, GroupText(nodes, delimiter), tail);
  }

  lemma {:induction false} SliceInside(content: bytes, cursor: nat, group: bytes, tail: bytes)
    requires cursor <= |content| && content[cursor..] == ([LBRACE] + (group + [RBRACE])) + tail
    ensures cursor + |group| + 2 <= |content| && content[cursor + 1..cursor + |group| + 1] == group && content[cursor] == LBRACE
  {
    var rest := content[cursor..];
    assert rest[0] == content[cursor];
    assert rest[1..|group| + 1] == group;
  }

  /** The colon and the inline values behind the fields. */
  lemma {:induction false} HeaderWithReads(content: bytes, place: Place, count: nat, keyed: bool, delimiter: byte, nodes: seq<ShapeNode>, after: nat, suffix: bytes)
    requires after <= |content| && content[after..] == [COLON] + suffix && Follows(suffix, nodes) && (keyed ==> nodes != [])
    ensures HeaderWith(content, KeyOf(place), Bracket(count, keyed, delimiter), Fields(NodesOf(nodes), after)) ==
            ReadHeader(place, count, keyed, delimiter, nodes, suffix)
  {
    assert content[after] == content[after..][0];
    assert content[after + 1..] == suffix;
    if suffix != [] {
      assert content[after + 1] == suffix[0];
      assert content[after + 2..] == suffix[1..];
    }
  }

  function ReadTail(place: Place, count: nat, keyed: bool, delimiter: byte, nodes: seq<ShapeNode>, suffix: bytes, at: Position): Result<HeaderOutcome> {
    if Braces(nodes) > MAX_NESTING_DEPTH then Err(SyntaxAt(DepthLimit, at))
    else Ok(ReadHeader(place, count, keyed, delimiter, nodes, suffix))
  }

  lemma {:induction false} AfterBracketReads(
      content: bytes, cursor: nat, place: Place, count: nat, keyed: bool, delimiter: byte, nodes: seq<ShapeNode>, suffix: bytes,
      strict: bool, at: Position)
    requires IsDelimiter(delimiter) && WellNamed(nodes) && Follows(suffix, nodes) && (keyed ==> nodes != [])
    requires cursor <= |content| && content[cursor..] == BracedGroup(nodes, delimiter) + ([COLON] + suffix)
    ensures TailIs(content, cursor, KeyOf(place), Bracket(count, keyed, delimiter), strict, at,
                   ReadTail(place, count, keyed, delimiter, nodes, suffix, at))
  {
    hide HeaderWith, HeaderIs, GroupIs, TailIs, BracedGroup, NodesOf, WellNamed, Braces;
    GroupAtReads(content, cursor, nodes, delimiter, [COLON] + suffix, strict, at);
    var after := cursor + |BracedGroup(nodes, delimiter)|;
    assert content[after..] == content[cursor..][|BracedGroup(nodes, delimiter)|..];
    HeaderWithReads(content, place, count, keyed, delimiter, nodes, after, suffix);
    TailOfParts(content, cursor, KeyOf(place), Bracket(count, keyed, delimiter), strict, at,
                ReadGroup(nodes, after, at), ReadTail(place, count, keyed, delimiter, nodes, suffix, at));
  }

  lemma {:induction false} TailOfParts(
      content: bytes, cursor: nat, key: Option<StringToken>, bracket: Bracket, strict: bool, at: Position,
      group: Result<Coded<Fields>>, r: Result<HeaderOutcome>)
    requires GroupIs(content, cursor, bracket.delimiter, strict, at, group)
    requires group.Ok? ==> group.value.Good?
    requires r == if group.Err? then Err(group.fault) else Ok(HeaderWith(content, key, bracket, group.value.value))
    ensures TailIs(content, cursor, key, bracket, strict, at, r)
  {
    assert Look(0);
  }

  lemma {:induction false} KeyPartReads(place: Place, at: Position)
    ensures Hushed(KeyPart(place), Outside)
    ensures KeyPart(place) != [] ==> KeyPart(place)[|KeyPart(place)| - 1] != SPACE
    ensures KeyPart(place) == [] <==> !place.Named?
    ensures place.Named? ==> StringTokenOf(KeyPart(place), at) == Ok(KeyToken(place.key))
  {
    if place.Named? {
      KeyIsHushed(place.key);
      KeyIsTrimmed(place.key);
      KeyReads(place.key, at);
    }
  }

  /** The outcome once the parts of the line are known. */
  lemma {:induction false} OutcomeOfParts(
      content: bytes, start: nat, end: nat, text: bytes, key: Option<StringToken>, bracket: Bracket, strict: bool, at: Position)
    requires start < end < |content| && content[start + 1..end] == text
    requires KeyIs(content, start, at, key) && BracketSpans(content, start, end) && BracketIs(text, bracket)
    ensures LeadsTo(content, end + 1, key, bracket, strict, at)
  {
    hide AfterBracket, Marks, FirstUnquoted, BracketOf, KeyBefore;
    assert Look(0);
  }

  lemma {:induction false} KeyBeforeReads(content: bytes, place: Place, rest: bytes, at: Position)
    requires content == KeyPart(place) + rest
    ensures KeyIs(content, |KeyPart(place)|, at, KeyOf(place))
  {
    KeyPartReads(place, at);
    assert content[..|KeyPart(place)|] == KeyPart(place);
  }

  /** Where the parts of a written header stand. */
  lemma {:induction false} HeaderSlices(key: bytes, bracket: bytes, tail: bytes, content: bytes)
    requires content == key + ([LBRACKET] + (bracket + ([RBRACKET] + tail)))
    ensures |key| + 1 + |bracket| < |content| && content[|key| + 1..|key| + 1 + |bracket|] == bracket
  {
  }

  lemma {:induction false} BehindBracket(key: bytes, bracket: bytes, tail: bytes, content: bytes)
    requires content == key + ([LBRACKET] + (bracket + ([RBRACKET] + tail)))
    ensures |key| + 1 + |bracket| + 1 <= |content| && content[|key| + 1 + |bracket| + 1..] == tail
  {
  }

  lemma {:induction false} FromBracket(key: bytes, bracket: bytes, tail: bytes, content: bytes)
    requires content == key + ([LBRACKET] + (bracket + ([RBRACKET] + tail)))
    ensures |key| < |content| && content[|key| + 1..] == bracket + ([RBRACKET] + tail)
  {
  }

  lemma {:induction false} HeaderParts(key: bytes, bracket: bytes, group: bytes, suffix: bytes)
    ensures (key + ([LBRACKET] + (bracket + ([RBRACKET] + (group + [COLON]))))) + suffix ==
            key + ([LBRACKET] + (bracket + ([RBRACKET] + (group + ([COLON] + suffix)))))
  {
  }

  /** A written header reads as its parts, unless its field groups nest deeper than the limit. */
  lemma {:induction false} HeaderReads(
      place: Place, count: nat, keyed: bool, delimiter: byte, nodes: seq<ShapeNode>, suffix: bytes, strict: bool, at: Position)
    requires IsDelimiter(delimiter) && count < USIZE_LIMIT && WellNamed(nodes) && Follows(suffix, nodes) && (keyed ==> nodes != [])
    ensures HeaderIs(HeaderText(place, count, keyed, delimiter, nodes) + suffix, strict, at,
                     ReadTail(place, count, keyed, delimiter, nodes, suffix, at))
  {
    HeaderParts(KeyPart(place), BracketText(count, keyed, delimiter), BracedGroup(nodes, delimiter), suffix);
    HeaderOfContent(HeaderText(place, count, keyed, delimiter, nodes) + suffix, BracedGroup(nodes, delimiter) + ([COLON] + suffix),
                    place, count, keyed, delimiter, nodes, suffix, strict, at);
  }

  lemma {:induction false} HeaderOfContent(
      content: bytes, tail: bytes, place: Place, count: nat, keyed: bool, delimiter: byte, nodes: seq<ShapeNode>, suffix: bytes,
      strict: bool, at: Position)
    requires IsDelimiter(delimiter) && count < USIZE_LIMIT && WellNamed(nodes) && Follows(suffix, nodes) && (keyed ==> nodes != [])
    requires tail == BracedGroup(nodes, delimiter) + ([COLON] + suffix)
    requires content == KeyPart(place) + ([LBRACKET] + (BracketText(count, keyed, delimiter) + ([RBRACKET] + tail)))
    ensures HeaderIs(content, strict, at, ReadTail(place, count, keyed, delimiter, nodes, suffix, at))
  {
    hide *;
    var cursor := |KeyPart(place)| + 1 + |BracketText(count, keyed, delimiter)| + 1;
    var r := ReadTail(place, count, keyed, delimiter, nodes, suffix, at);
    BehindBracket(KeyPart(place), BracketText(count, keyed, delimiter), tail, content);
    WrittenOutcome(place, count, keyed, delimiter, tail, content, strict, at);
    AfterBracketReads(content, cursor, place, count, keyed, delimiter, nodes, suffix, strict, at);
    TailDecides(content, cursor, KeyOf(place), Bracket(count, keyed, delimiter), strict, at, r);
  }

  lemma {:induction false} WrittenOutcome(place: Place, count: nat, keyed: bool, delimiter: byte, tail: bytes, content: bytes, strict: bool, at: Position)
    requires IsDelimiter(delimiter) && count < USIZE_LIMIT
    requires content == KeyPart(place) + ([LBRACKET] + (BracketText(count, keyed, delimiter) + ([RBRACKET] + tail)))
    ensures LeadsTo(content, |KeyPart(place)| + 1 + |BracketText(count, keyed, delimiter)| + 1, KeyOf(place),
                    Bracket(count, keyed, delimiter), strict, at)
  {
    hide *;
    KeyBeforeReads(content, place, [LBRACKET] + (BracketText(count, keyed, delimiter) + ([RBRACKET] + tail)), at);
    BracketFacts(content, place, count, keyed, delimiter, tail, at);
    OutcomeOfBytes(content, KeyPart(place), BracketText(count, keyed, delimiter), tail, KeyOf(place),
                   Bracket(count, keyed, delimiter), strict, at);
  }

  lemma {:induction false} OutcomeOfBytes(
      content: bytes, before: bytes, text: bytes, tail: bytes, key: Option<StringToken>, bracket: Bracket, strict: bool, at: Position)
    requires content == before + ([LBRACKET] + (text + ([RBRACKET] + tail)))
    requires KeyIs(content, |before|, at, key) && BracketSpans(content, |before|, |before| + 1 + |text|) && BracketIs(text, bracket)
    ensures LeadsTo(content, |before| + 1 + |text| + 1, key, bracket, strict, at)
  {
    hide *;
    HeaderSlices(before, text, tail, content);
    OutcomeOfParts(content, |before|, |before| + 1 + |text|, text, key, bracket, strict, at);
  }

  lemma {:induction false} BracketFacts(content: bytes, place: Place, count: nat, keyed: bool, delimiter: byte, tail: bytes, at: Position)
    requires IsDelimiter(delimiter) && count < USIZE_LIMIT
    requires content == KeyPart(place) + ([LBRACKET] + (BracketText(count, keyed, delimiter) + ([RBRACKET] + tail)))
    ensures BracketIs(BracketText(count, keyed, delimiter), Bracket(count, keyed, delimiter))
    ensures BracketSpans(content, |KeyPart(place)|, |KeyPart(place)| + 1 + |BracketText(count, keyed, delimiter)|)
  {
    BracketTextReads(count, keyed, delimiter);
    BracketSpan(content, place, BracketText(count, keyed, delimiter), tail, at);
  }

  lemma {:induction false} BracketTextReads(count: nat, keyed: bool, delimiter: byte)
    requires IsDelimiter(delimiter) && count < USIZE_LIMIT
    ensures BracketIs(BracketText(count, keyed, delimiter), Bracket(count, keyed, delimiter))
    ensures QUOTE !in BracketText(count, keyed, delimiter) && RBRACKET !in BracketText(count, keyed, delimiter)
  {
    BracketReads(count, keyed, delimiter);
    BracketIsPlain(count, keyed, delimiter);
  }

  lemma {:induction false} BracketSpan(content: bytes, place: Place, bracket: bytes, tail: bytes, at: Position)
    requires QUOTE !in bracket && RBRACKET !in bracket
    requires content == KeyPart(place) + ([LBRACKET] + (bracket + ([RBRACKET] + tail)))
    ensures BracketSpans(content, |KeyPart(place)|, |KeyPart(place)| + 1 + |bracket|)
  {
    KeyPartReads(place, at);
    FromBracket(KeyPart(place), bracket, tail, content);
    BracketIsFirst(KeyPart(place), [LBRACKET] + (bracket + ([RBRACKET] + tail)));
    ClosingBracket(content, |KeyPart(place)|, bracket, tail);
  }
}
