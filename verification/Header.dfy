/** The array header grammar `key[N]{fields}:` with nested field groups (src/header.rs). */
module Header {
  import opened Bytes
  import opened Faults
  import opened Tokens
  import opened Cells
  import opened Escapes
  import opened Scan

  datatype Header = Header(
    key: Option<StringToken>,
    declared: nat,
    keyed: bool,
    delimiter: byte,
    fields: seq<FieldNode>,
    inlineValues: Option<bytes>)

  datatype HeaderOutcome = NotHeader | HeaderLine(header: Header) | Malformed(code: FaultCode)

  /** A value, or the code of the fault that replaces it. */
  datatype Coded<+T> = Good(value: T) | Wrong(code: FaultCode) {
    predicate IsFailure() { Wrong? }

    function PropagateFailure<U>(): Coded<U>
      requires Wrong?
    {
      Wrong(code)
    }

    function Extract(): T
      requires Good?
    {
      value
    }
  }

  // ----- the bracket segment ---------------------------------------------------

  const USIZE_LIMIT: nat := 0x1_0000_0000_0000_0000

  function DigitValue(b: byte): (d: nat)
    requires IsDigit(b)
    ensures d < 10
  {
    (b - ZERO) as nat
  }

  /** The number a digit string spells. */
  function DecimalValue(digits: bytes): nat
    requires AllDigits(digits)
  {
    if digits == [] then 0
    else 10 * DecimalValue(digits[..|digits| - 1]) + DigitValue(digits[|digits| - 1])
  }

  function DigitRun(s: bytes): (n: nat)
    ensures n <= |s| && AllDigits(s[..n])
    ensures n < |s| ==> !IsDigit(s[n])
  {
    if s == [] || !IsDigit(s[0]) then 0
    else
      var n := DigitRun(s[1..]);
      assert forall i :: 0 < i < n + 1 ==> s[i] == s[1..][..n][i - 1];
      n + 1
  }

  datatype Bracket = Bracket(declared: nat, keyed: bool, delimiter: byte)

  /** What stands between the digits and the closing bracket. */
  function BracketSuffix(suffix: bytes, declared: nat): (r: Option<Bracket>)
    ensures r.Some? ==> IsDelimiter(r.value.delimiter)
  {
    if suffix == [] then Some(Bracket(declared, false, COMMA))
    else if suffix == [TAB] || suffix == [PIPE] then Some(Bracket(declared, false, suffix[0]))
    else if suffix == [COLON] then Some(Bracket(declared, true, COMMA))
    else if suffix == [COLON, TAB] || suffix == [COLON, PIPE] then Some(Bracket(declared, true, suffix[1]))
    else None
  }

  function BracketOf(content: bytes): (r: Option<Bracket>)
    ensures r.Some? ==> IsDelimiter(r.value.delimiter)
  {
    var n := DigitRun(content);
    if n == 0 || (n > 1 && content[0] == ZERO) || DecimalValue(content[..n]) >= USIZE_LIMIT then None
    else BracketSuffix(content[n..], DecimalValue(content[..n]))
  }

  /** Parse the inside of the bracket: digits, an optional colon, an optional delimiter. */
  method ParseBracket(content: bytes) returns (r: Option<Bracket>)
    ensures r == BracketOf(content)
  {
    var digitCount := DigitRun(content);
    if digitCount == 0 { return None; }
    if digitCount > 1 && content[0] == ZERO { return None; }
    var declared := DecimalValue(content[..digitCount]);
    if declared >= USIZE_LIMIT { return None; }
    ghost var suffix := content[digitCount..];
    assert forall i :: 0 <= i < |suffix| ==> suffix[i] == content[digitCount + i];
    var cursor := digitCount;
    var keyed := At(content, cursor) == Some(COLON);
    if keyed { cursor := cursor + 1; }
    var delimiter := COMMA;
    if At(content, cursor) == Some(TAB) || At(content, cursor) == Some(PIPE) {
      delimiter := content[cursor];
      cursor := cursor + 1;
    }
    if cursor != |content| { return None; }
    return Some(Bracket(declared, keyed, delimiter));
  }

  // ----- keys ------------------------------------------------------------------

  function StringTokenOf(entry: bytes, at: Position): Result<StringToken> {
    if entry != [] && entry[0] == QUOTE then
      var span :- QuotedSpan(entry, 0, at);
      if span.end != |entry| then Err(SyntaxAt(ContentAfterFieldGroup, at))
      else Ok(Quoted(entry[1..span.end - 1], span.escaped))
    else Ok(Bare(entry))
  }

  method ParseStringToken(entry: bytes, at: Position) returns (r: Result<StringToken>)
    ensures r == StringTokenOf(entry, at)
  {
    if entry != [] && entry[0] == QUOTE {
      var span :- ScanQuoted(entry, 0, at);
      if span.end != |entry| { return Err(SyntaxAt(ContentAfterFieldGroup, at)); }
      return Ok(Quoted(entry[1..span.end - 1], span.escaped));
    }
    return Ok(Bare(entry));
  }

  // ----- braces ----------------------------------------------------------------

  /** The closing brace of a group, relative to where the scan began, and its deepest nesting. */
  datatype Closing = Closing(close: nat, deepest: nat)

  /** Scan `s` from brace depth `depth` to the brace that brings the depth to zero. */
  function MatchBrace(s: bytes, mode: Mode, depth: nat, deepest: nat): (r: Option<Closing>)
    ensures r.Some? ==> r.value.close < |s| && s[r.value.close] == RBRACE && deepest <= r.value.deepest
  {
    if s == [] then None
    else if mode.Outside? && s[0] == RBRACE && depth <= 1 then Some(Closing(0, deepest))
    else
      var depth' := if !mode.Outside? then depth
                    else if s[0] == LBRACE then depth + 1
                    else if s[0] == RBRACE then depth - 1
                    else depth;
      match MatchBrace(s[1..], Next(mode, s[0]), depth', Max(deepest, depth'))
      case None => None
      case Some(c) => Some(Closing(c.close + 1, c.deepest))
  }

  /** What a brace scan of `content` still reports when it stands at `index`. */
  function MatchFrom(content: bytes, index: nat, inQuote: bool, depth: nat, deepest: nat): Option<Closing> {
    if index >= |content| then None
    else
      match MatchBrace(content[index..], if inQuote then Inside else Outside, depth, deepest)
      case None => None
      case Some(c) => Some(Closing(index + c.close, c.deepest))
  }

  lemma {:induction false} MatchStep(content: bytes, index: nat, inQuote: bool, depth: nat, deepest: nat)
    requires index < |content| && depth <= deepest
    ensures var b := content[index];
            MatchFrom(content, index, inQuote, depth, deepest) ==
            if inQuote && b == BACKSLASH then MatchFrom(content, index + 2, true, depth, deepest)
            else if b == QUOTE then MatchFrom(content, index + 1, !inQuote, depth, deepest)
            else if inQuote then MatchFrom(content, index + 1, true, depth, deepest)
            else if b == LBRACE then MatchFrom(content, index + 1, false, depth + 1, Max(deepest, depth + 1))
            else if b == RBRACE && depth <= 1 then Some(Closing(index, deepest))
            else if b == RBRACE then MatchFrom(content, index + 1, false, depth - 1, deepest)
            else MatchFrom(content, index + 1, false, depth, deepest)
  {
    var rest := content[index..];
    assert rest[1..] == content[index + 1..];
    if inQuote && content[index] == BACKSLASH && index + 1 < |content| {
      var next := rest[1..];
      assert next[1..] == content[index + 2..];
      assert MatchBrace(next, Skipping, depth, deepest).Some? <==> MatchBrace(next[1..], Inside, depth, deepest).Some?;
    }
  }

  /** Locate the brace closing the group opened at `open`, and measure its nesting on the way. */
  method FindMatchingBrace(content: bytes, open: nat) returns (r: Option<Closing>)
    requires open < |content| && content[open] == LBRACE
    ensures r == MatchFrom(content, open, false, 0, 0)
  {
    hide MatchBrace;
    var depth: nat, deepest: nat := 0, 0;
    var inQuote := false;
    var index := open;
    while index < |content|
      invariant index >= open && depth <= deepest
      invariant if index == open then !inQuote else depth > 0
      invariant MatchFrom(content, open, false, 0, 0) == MatchFrom(content, index, inQuote, depth, deepest)
    {
      MatchStep(content, index, inQuote, depth, deepest);
      var b := content[index];
      if inQuote {
        if b == BACKSLASH {
          index := index + 1;
        } else if b == QUOTE {
          inQuote := false;
        }
      } else if b == QUOTE {
        inQuote := true;
      } else if b == LBRACE {
        depth := depth + 1;
        deepest := Max(deepest, depth);
      } else if b == RBRACE {
        depth := depth - 1;
        if depth == 0 { return Some(Closing(index, deepest)); }
      }
      index := index + 1;
    }
    return None;
  }

  /** The first delimiter of `s` outside quotes and at brace depth zero. */
  function TopDelimiter(s: bytes, delimiter: byte, mode: Mode, depth: nat): (r: Option<nat>)
    ensures r.Some? ==> r.value < |s| && s[r.value] == delimiter
  {
    if s == [] then None
    else if mode.Outside? && depth == 0 && s[0] == delimiter && s[0] != QUOTE && s[0] != LBRACE && s[0] != RBRACE then Some(0)
    else
      var depth' := if !mode.Outside? then depth
                    else if s[0] == LBRACE then depth + 1
                    else if s[0] == RBRACE && depth > 0 then depth - 1
                    else depth;
      Shift(TopDelimiter(s[1..], delimiter, Next(mode, s[0]), depth'), 1)
  }

  function TopFrom(content: bytes, delimiter: byte, index: nat, inQuote: bool, depth: nat): Option<nat> {
    if index >= |content| then None
    else Shift(TopDelimiter(content[index..], delimiter, if inQuote then Inside else Outside, depth), index)
  }

  lemma {:induction false} TopStep(content: bytes, delimiter: byte, index: nat, inQuote: bool, depth: nat)
    requires index < |content| && delimiter != QUOTE && delimiter != LBRACE && delimiter != RBRACE
    ensures var b := content[index];
            TopFrom(content, delimiter, index, inQuote, depth) ==
            if inQuote && b == BACKSLASH then TopFrom(content, delimiter, index + 2, true, depth)
            else if b == QUOTE then TopFrom(content, delimiter, index + 1, !inQuote, depth)
            else if inQuote then TopFrom(content, delimiter, index + 1, true, depth)
            else if b == LBRACE then TopFrom(content, delimiter, index + 1, false, depth + 1)
            else if b == RBRACE then TopFrom(content, delimiter, index + 1, false, if depth > 0 then depth - 1 else 0)
            else if b == delimiter && depth == 0 then Some(index)
            else TopFrom(content, delimiter, index + 1, false, depth)
  {
    var rest := content[index..];
    assert rest[1..] == content[index + 1..];
    if inQuote && content[index] == BACKSLASH && index + 1 < |content| {
      var next := rest[1..];
      assert next[1..] == content[index + 2..];
      assert TopDelimiter(next, delimiter, Skipping, depth) == Shift(TopDelimiter(next[1..], delimiter, Inside, depth), 1);
    }
  }

  /** Find the next field delimiter at brace depth zero, outside quotes. */
  method FindTopLevelDelimiter(content: bytes, from: nat, delimiter: byte) returns (r: Option<nat>)
    requires delimiter != QUOTE && delimiter != LBRACE && delimiter != RBRACE
    ensures r == TopFrom(content, delimiter, from, false, 0)
  {
    var depth: nat := 0;
    var inQuote := false;
    var index := from;
    while index < |content|
      invariant TopFrom(content, delimiter, from, false, 0) == TopFrom(content, delimiter, index, inQuote, depth)
    {
      TopStep(content, delimiter, index, inQuote, depth);
      var b := content[index];
      if inQuote {
        if b == BACKSLASH {
          index := index + 1;
        } else if b == QUOTE {
          inQuote := false;
        }
      } else if b == QUOTE {
        inQuote := true;
      } else if b == LBRACE {
        depth := depth + 1;
      } else if b == RBRACE {
        depth := if depth > 0 then depth - 1 else 0;
      } else if b == delimiter && depth == 0 {
        return Some(index);
      }
      index := index + 1;
    }
    return None;
  }

  // ----- field groups ----------------------------------------------------------

  predicate IsDelimiter(b: byte) { b == COMMA || b == TAB || b == PIPE }

  function NameOf(entry: bytes, at: Position): Coded<StringToken> {
    match StringTokenOf(entry, at)
    case Ok(token) => Good(token)
    case Err(fault) => Wrong(fault.code)
  }

  predicate HasName(fields: seq<FieldNode>, name: StringToken) {
    exists i :: 0 <= i < |fields| && TextOf(fields[i].name) == TextOf(name)
  }

  /** One entry of a field group: a name, or a name with a nested group. */
  function FieldOf(entry: bytes, delimiter: byte, strict: bool, at: Position): Coded<FieldNode>
    decreases |entry|, 0
  {
    match FirstUnquoted(entry, LBRACE, 0)
    case None =>
      var name :- NameOf(entry, at);
      Good(FieldNode(name, []))
    case Some(open) =>
      match MatchFrom(entry, open, false, 0, 0)
      case None => Wrong(UnclosedFieldGroup)
      case Some(group) =>
        if group.close + 1 != |entry| then Wrong(ContentAfterFieldGroup)
        else if group.close <= open then Wrong(UnclosedFieldGroup)
        else
          var name :- NameOf(Trim(entry[..open]), at);
          var children :- FieldsOf(entry[open + 1..group.close], delimiter, strict, at, []);
          Good(FieldNode(name, children))
  }

  /** The fields of a group whose entries up to here are `before`. */
  function FieldsOf(content: bytes, delimiter: byte, strict: bool, at: Position, before: seq<FieldNode>): Coded<seq<FieldNode>>
    decreases |content|, 1
  {
    var end := TopDelimiter(content, delimiter, Outside, 0);
    var cut := if end.Some? then content[..end.value] else content;
    TrimIsShorter(cut);
    var entry := Trim(cut);
    if entry == [] then Wrong(EmptyField)
    else
      var node :- FieldOf(entry, delimiter, strict, at);
      if strict && HasName(before, node.name) then Wrong(DuplicateField)
      else if end.None? then Good(before + [node])
      else FieldsOf(content[end.value + 1..], delimiter, strict, at, before + [node])
  }

  lemma {:induction false} TrimIsShorter(s: bytes)
    ensures |Trim(s)| <= |s|
  {
    TrimLeftShape(s);
    TrimRightShape(TrimLeft(s));
  }

  /** The next entry ends at a delimiter: what the group still holds after it. */
  lemma {:induction false} EntryThenMore(content: bytes, delimiter: byte, strict: bool, at: Position, cursor: nat, end: nat, before: seq<FieldNode>, node: FieldNode)
    requires cursor <= end < |content| && TopFrom(content, delimiter, cursor, false, 0) == Some(end)
    requires Trim(content[cursor..end]) != []
    requires FieldOf(Trim(content[cursor..end]), delimiter, strict, at) == Good(node)
    requires !(strict && HasName(before, node.name))
    ensures FieldsOf(content[cursor..], delimiter, strict, at, before) ==
            FieldsOf(content[end + 1..], delimiter, strict, at, before + [node])
  {
    var rest := content[cursor..];
    assert rest[..end - cursor] == content[cursor..end];
    assert rest[end - cursor + 1..] == content[end + 1..];
  }

  /** The entry of the group that starts at `cursor`. */
  method NextEntry(content: bytes, delimiter: byte, cursor: nat) returns (entry: bytes, end: Option<nat>)
    requires IsDelimiter(delimiter) && cursor <= |content|
    ensures end == TopFrom(content, delimiter, cursor, false, 0)
    ensures entry == Trim(if end.Some? then content[cursor..end.value] else content[cursor..])
    ensures end == Shift(TopDelimiter(content[cursor..], delimiter, Outside, 0), cursor)
    ensures |entry| <= |content| - cursor
    ensures end.Some? ==> content[cursor..][..end.value - cursor] == content[cursor..end.value]
  {
    end := FindTopLevelDelimiter(content, cursor, delimiter);
    var cut := if end.Some? then content[cursor..end.value] else content[cursor..];
    TrimIsShorter(cut);
    entry := TrimSpaces(cut);
  }

  /** Parse the inside of a field group; recursion is one level per brace. */
  method ParseFieldGroup(content: bytes, delimiter: byte, strict: bool, at: Position) returns (r: Coded<seq<FieldNode>>)
    requires IsDelimiter(delimiter)
    ensures r == FieldsOf(content, delimiter, strict, at, [])
    decreases |content|, 1
  {
    hide FieldOf, HasName, TopDelimiter, Trim;
    var fields: seq<FieldNode> := [];
    var cursor := 0;
    assert content[0..] == content;
    while true
      invariant cursor <= |content|
      invariant FieldsOf(content, delimiter, strict, at, []) == FieldsOf(content[cursor..], delimiter, strict, at, fields)
      decreases |content| - cursor
    {
      var entry, end := NextEntry(content, delimiter, cursor);
      if entry == [] { return Wrong(EmptyField); }
      var node :- ParseField(entry, delimiter, strict, at);
      if strict && HasName(fields, node.name) { return Wrong(DuplicateField); }
      if end.None? { return Good(fields + [node]); }
      EntryThenMore(content, delimiter, strict, at, cursor, end.value, fields, node);
      fields := fields + [node];
      cursor := end.value + 1;
    }
  }

  method ParseField(entry: bytes, delimiter: byte, strict: bool, at: Position) returns (r: Coded<FieldNode>)
    requires IsDelimiter(delimiter)
    ensures r == FieldOf(entry, delimiter, strict, at)
    decreases |entry|, 0
  {
    var open := FindUnquoted(entry, LBRACE, 0);
    if open.None? {
      var token := ParseStringToken(entry, at);
      match token
      case Ok(name) => return Good(FieldNode(name, []));
      case Err(fault) => return Wrong(fault.code);
    }
    var group := FindMatchingBrace(entry, open.value);
    if group.None? { return Wrong(UnclosedFieldGroup); }
    if group.value.close + 1 != |entry| { return Wrong(ContentAfterFieldGroup); }
    OpeningIsNotClosing(entry, open.value);
    var text := TrimSpaces(entry[..open.value]);
    var token := ParseStringToken(text, at);
    if token.Err? { return Wrong(token.fault.code); }
    var children :- ParseFieldGroup(entry[open.value + 1..group.value.close], delimiter, strict, at);
    return Good(FieldNode(token.value, children));
  }

  lemma {:induction false} OpeningIsNotClosing(content: bytes, open: nat)
    requires open < |content| && content[open] == LBRACE
    ensures MatchFrom(content, open, false, 0, 0).Some? ==> MatchFrom(content, open, false, 0, 0).value.close > open
  {
    assert content[open..][0] == LBRACE;
  }

  // ----- headers ---------------------------------------------------------------

  datatype Fields = Fields(nodes: seq<FieldNode>, after: nat)

  /** The field group that starts at `cursor`, if one does; `after` is the position behind it. */
  function GroupAt(content: bytes, cursor: nat, delimiter: byte, strict: bool, at: Position): Result<Coded<Fields>> {
    if At(content, cursor) != Some(LBRACE) then Ok(Good(Fields([], cursor)))
    else
      match MatchFrom(content, cursor, false, 0, 0)
      case None => Ok(Wrong(UnclosedFieldGroup))
      case Some(group) =>
        if group.deepest > MAX_NESTING_DEPTH then Err(SyntaxAt(DepthLimit, at))
        else if group.close <= cursor then Ok(Wrong(UnclosedFieldGroup))
        else
          match FieldsOf(content[cursor + 1..group.close], delimiter, strict, at, [])
          case Wrong(code) => Ok(Wrong(code))
          case Good(nodes) => Ok(Good(Fields(nodes, group.close + 1)))
  }

  function InlineValues(content: bytes, cursor: nat): Option<bytes>
    requires cursor <= |content|
  {
    var values := if At(content, cursor) == Some(SPACE) then content[cursor + 1..] else content[cursor..];
    if values == [] then None else Some(values)
  }

  /** The header a group belongs to, once the bracket and the key are known. */
  function HeaderWith(content: bytes, key: Option<StringToken>, bracket: Bracket, fields: Fields): (r: HeaderOutcome)
    ensures r.HeaderLine? ==> r.header.delimiter == bracket.delimiter
  {
    if At(content, fields.after) != Some(COLON) then Malformed(MalformedHeader)
    else
      var inlineValues := InlineValues(content, fields.after + 1);
      if fields.nodes != [] && inlineValues.Some? then Malformed(ContentAfterFieldsHeader)
      else if bracket.keyed && fields.nodes == [] then Malformed(MalformedHeader)
      else HeaderLine(Header(key, bracket.declared, bracket.keyed, bracket.delimiter, fields.nodes, inlineValues))
  }

  function KeyBefore(content: bytes, bracketStart: nat, at: Position): Result<Option<StringToken>>
    requires bracketStart <= |content|
  {
    if bracketStart == 0 then Ok(None)
    else
      var token :- StringTokenOf(content[..bracketStart], at);
      Ok(Some(token))
  }

  /** The outcome for a line whose first mark is the bracket at `start`. */
  function BracketedOutcome(content: bytes, start: nat, strict: bool, at: Position): (r: Result<HeaderOutcome>)
    requires start < |content|
    ensures r.Ok? && r.value.HeaderLine? ==> IsDelimiter(r.value.header.delimiter)
  {
    if start > 0 && content[start - 1] == SPACE then Ok(Malformed(MalformedHeader))
    else
      match FirstUnquoted(content, RBRACKET, start + 1)
      case None => Ok(Malformed(UnclosedBracket))
      case Some(end) =>
        match BracketOf(content[start + 1..end])
        case None => Ok(Malformed(InvalidLength))
        case Some(bracket) =>
          var key :- KeyBefore(content, start, at);
          AfterBracket(content, end + 1, key, bracket, strict, at)
  }

  /** The outcome once key and bracket are read and `cursor` stands behind the bracket. */
  function AfterBracket(content: bytes, cursor: nat, key: Option<StringToken>, bracket: Bracket, strict: bool, at: Position): (r: Result<HeaderOutcome>)
    ensures r.Ok? && r.value.HeaderLine? ==> r.value.header.delimiter == bracket.delimiter
  {
    var group :- GroupAt(content, cursor, bracket.delimiter, strict, at);
    match group
    case Wrong(code) => Ok(Malformed(code))
    case Good(fields) => Ok(HeaderWith(content, key, bracket, fields))
  }

  function HeaderOf(content: bytes, strict: bool, at: Position): (r: Result<HeaderOutcome>)
    ensures r.Ok? && r.value.HeaderLine? ==> IsDelimiter(r.value.header.delimiter)
  {
    match Marks(content).bracket
    case None => Ok(NotHeader)
    case Some(start) => BracketedOutcome(content, start, strict, at)
  }

  method ParseGroup(content: bytes, cursor: nat, delimiter: byte, strict: bool, at: Position) returns (r: Result<Coded<Fields>>)
    requires IsDelimiter(delimiter)
    ensures r == GroupAt(content, cursor, delimiter, strict, at)
  {
    if At(content, cursor) != Some(LBRACE) { return Ok(Good(Fields([], cursor))); }
    var group := FindMatchingBrace(content, cursor);
    if group.None? { return Ok(Wrong(UnclosedFieldGroup)); }
    if group.value.deepest > MAX_NESTING_DEPTH { return Err(SyntaxAt(DepthLimit, at)); }
    OpeningIsNotClosing(content, cursor);
    var parsed := ParseFieldGroup(content[cursor + 1..group.value.close], delimiter, strict, at);
    match parsed
    case Wrong(code) => return Ok(Wrong(code));
    case Good(nodes) => return Ok(Good(Fields(nodes, group.value.close + 1)));
  }

  method ParseKeyBefore(content: bytes, bracketStart: nat, at: Position) returns (r: Result<Option<StringToken>>)
    requires bracketStart <= |content|
    ensures r == KeyBefore(content, bracketStart, at)
  {
    if bracketStart == 0 { return Ok(None); }
    var token :- ParseStringToken(content[..bracketStart], at);
    return Ok(Some(token));
  }

  method ParseHeader(content: bytes, marks: LineMarks, strict: bool, at: Position) returns (r: Result<HeaderOutcome>)
    requires marks == Marks(content)
    ensures r == HeaderOf(content, strict, at)
  {
    hide KeyBefore, AfterBracket, BracketOf, FirstUnquoted;
    if marks.bracket.None? { return Ok(NotHeader); }
    var start := marks.bracket.value;
    if start > 0 && content[start - 1] == SPACE { return Ok(Malformed(MalformedHeader)); }
    var end := FindUnquoted(content, RBRACKET, start + 1);
    if end.None? { return Ok(Malformed(UnclosedBracket)); }
    var bracket := ParseBracket(content[start + 1..end.value]);
    if bracket.None? { return Ok(Malformed(InvalidLength)); }
    var key :- ParseKeyBefore(content, start, at);
    r := ParseAfterBracket(content, end.value + 1, key, bracket.value, strict, at);
  }

  method ParseAfterBracket(content: bytes, cursor: nat, key: Option<StringToken>, bracket: Bracket, strict: bool, at: Position)
    returns (r: Result<HeaderOutcome>)
    requires IsDelimiter(bracket.delimiter)
    ensures r == AfterBracket(content, cursor, key, bracket, strict, at)
  {
    var group :- ParseGroup(content, cursor, bracket.delimiter, strict, at);
    match group
    case Wrong(code) => return Ok(Malformed(code));
    case Good(fields) => return Ok(HeaderWith(content, key, bracket, fields));
  }
}
