/** What a header line is, part by part: the bracket, the fields, what follows the colon (src/header.rs). */
module HeaderLaws {
  import opened Bytes
  import opened Faults
  import opened Tokens
  import opened Escapes
  import opened Cells
  import opened Header
  import opened LineLaws
  import opened TokenLaws
  import ReadHeaders

  // ----- brackets -----------------------------------------------------------------------------------

  /** The mark of a delimiter: none for the comma, a tab or a pipe for itself. */
  predicate MarkOf(mark: bytes, delimiter: byte) {
    (mark == [] && delimiter == 44) || (mark == [9] && delimiter == 9) || (mark == [124] && delimiter == 124)
  }

  /** A number without leading zeros and below 2^64, a colon for a keyed table, and the delimiter's mark. */
  ghost predicate BracketSpells(content: bytes, bracket: Bracket) {
    exists digits: bytes, mark: bytes ::
      && content == digits + ((if bracket.keyed then [58] else []) + mark) && MarkOf(mark, bracket.delimiter)
      && digits != [] && AllDigits(digits) && (|digits| == 1 || digits[0] != 48)
      && DecimalValue(digits) == bracket.declared < 18_446_744_073_709_551_616
  }

  lemma {:induction false} SuffixIs(suffix: bytes, declared: nat, bracket: Bracket)
    ensures BracketSuffix(suffix, declared) == Some(bracket) <==>
            bracket.declared == declared &&
            exists mark: bytes :: suffix == (if bracket.keyed then [58] else []) + mark && MarkOf(mark, bracket.delimiter)
  {
    var lead: bytes := if bracket.keyed then [58] else [];
    if BracketSuffix(suffix, declared) == Some(bracket) {
      var mark := suffix[|lead|..];
      assert suffix == lead + mark && MarkOf(mark, bracket.delimiter);
    }
    if bracket.declared == declared && exists mark: bytes :: suffix == lead + mark && MarkOf(mark, bracket.delimiter) {
      var mark: bytes :| suffix == lead + mark && MarkOf(mark, bracket.delimiter);
      if bracket.keyed && mark != [] { assert suffix == [58, mark[0]]; }
    }
  }

  /** The bracket's inside is read exactly when it is spelled so. */
  lemma {:induction false} BracketsAre(content: bytes, bracket: Bracket)
    ensures BracketOf(content) == Some(bracket) <==> BracketSpells(content, bracket)
  {
    if BracketOf(content) == Some(bracket) {
      var n := DigitRun(content);
      SuffixIs(content[n..], DecimalValue(content[..n]), bracket);
      var mark: bytes :| content[n..] == (if bracket.keyed then [58] else []) + mark && MarkOf(mark, bracket.delimiter);
      assert content == content[..n] + content[n..];
    }
    if BracketSpells(content, bracket) {
      var digits: bytes, mark: bytes :|
        && content == digits + ((if bracket.keyed then [58] else []) + mark) && MarkOf(mark, bracket.delimiter)
        && digits != [] && AllDigits(digits) && (|digits| == 1 || digits[0] != 48)
        && DecimalValue(digits) == bracket.declared < 18_446_744_073_709_551_616;
      var suffix := (if bracket.keyed then [58] else []) + mark;
      SuffixIs(suffix, bracket.declared, bracket);
      ReadHeaders.DigitRunOf(digits, suffix);
      assert content[..|digits|] == digits && content[|digits|..] == suffix && content[0] == digits[0];
    }
  }

  // ----- flat groups --------------------------------------------------------------------------------

  /** A name without quotes, braces and delimiters, and without spaces around it. */
  predicate FlatName(name: bytes, delimiter: byte) {
    Trimmed(name) && forall i :: 0 <= i < |name| ==> name[i] != 34 && name[i] != 123 && name[i] != 125 && name[i] != delimiter
  }

  predicate Flat(s: bytes, delimiter: byte) {
    forall i :: 0 <= i < |s| ==> s[i] != 34 && s[i] != 123 && s[i] != 125 && s[i] != delimiter
  }

  lemma {:induction false} FlatTop(a: bytes, b: bytes, delimiter: byte)
    requires Flat(a, delimiter) && IsDelimiter(delimiter)
    ensures TopDelimiter(a, delimiter, Outside, 0).None?
    ensures TopDelimiter(a + ([delimiter] + b), delimiter, Outside, 0) == Some(|a|)
  {
    var s := a + ([delimiter] + b);
    if a != [] {
      assert s[1..] == a[1..] + ([delimiter] + b);
      assert forall i :: 0 <= i < |a| - 1 ==> a[1..][i] == a[i + 1];
      FlatTop(a[1..], b, delimiter);
    }
  }

  lemma {:induction false} FlatHasNoBrace(s: bytes, delimiter: byte)
    requires Flat(s, delimiter)
    ensures FirstUnquoted(s, LBRACE, 0).None?
  {
    FindWithoutQuotes(s, LBRACE);
    assert s[0..] == s;
  }

  /** A plain name is a field without fields of its own. */
  lemma {:induction false} FlatField(name: bytes, delimiter: byte, strict: bool, at: Position)
    requires FlatName(name, delimiter) && name != []
    ensures FieldOf(name, delimiter, strict, at) == Good(FieldNode(Bare(name), []))
  {
    FlatHasNoBrace(name, delimiter);
    hide FirstUnquoted;
  }

  lemma {:induction false} PaddedIsFlat(name: bytes, left: nat, right: nat, delimiter: byte)
    requires FlatName(name, delimiter) && IsDelimiter(delimiter)
    ensures Flat(Padded(name, left, right), delimiter) && Trim(Padded(name, left, right)) == name
  {
    if name == [] {
      assert Padded(name, left, right) == LineLaws.Blanks(left + right);
      BlanksAreNothing(left + right, delimiter);
    } else {
      LeftTrimmed(left, name + LineLaws.Blanks(right));
      SpacesTrail(name, right);
    }
  }

  /** The name stands before. */
  predicate Before(fields: seq<FieldNode>, name: bytes) {
    exists i :: 0 <= i < |fields| && TextOf(fields[i].name) == name
  }

  /** A group of plain names: each field in turn; an empty one is refused, and in strict mode one met before. */
  lemma {:induction false} FlatGroup(name: bytes, left: nat, right: nat, more: Option<bytes>, delimiter: byte, strict: bool, at: Position, before: seq<FieldNode>)
    requires FlatName(name, delimiter) && IsDelimiter(delimiter)
    ensures FieldsOf(Padded(name, left, right) + (if more.Some? then [delimiter] + more.value else []), delimiter, strict, at, before) ==
            if name == [] then Wrong(EmptyField)
            else if strict && Before(before, name) then Wrong(DuplicateField)
            else if more.None? then Good(before + [FieldNode(Bare(name), [])])
            else FieldsOf(more.value, delimiter, strict, at, before + [FieldNode(Bare(name), [])])
  {
    var padded := Padded(name, left, right);
    PaddedIsFlat(name, left, right, delimiter);
    FlatTop(padded, if more.Some? then more.value else [], delimiter);
    if name != [] { FlatField(name, delimiter, strict, at); }
    assert padded + [] == padded;
    assert more.Some? ==> padded + ([delimiter] + more.value) == padded + [delimiter] + more.value;
    hide *;
    FirstField(padded, name, more, delimiter, strict, at, before);
  }

  lemma {:induction false} FirstField(cut: bytes, name: bytes, more: Option<bytes>, delimiter: byte, strict: bool, at: Position, before: seq<FieldNode>)
    requires Trim(cut) == name && (name != [] ==> FieldOf(name, delimiter, strict, at) == Good(FieldNode(Bare(name), [])))
    requires more.None? ==> TopDelimiter(cut, delimiter, Outside, 0).None?
    requires more.Some? ==> TopDelimiter(cut + ([delimiter] + more.value), delimiter, Outside, 0) == Some(|cut|)
    ensures FieldsOf(cut + (if more.Some? then [delimiter] + more.value else []), delimiter, strict, at, before) ==
            if name == [] then Wrong(EmptyField)
            else if strict && Before(before, name) then Wrong(DuplicateField)
            else if more.None? then Good(before + [FieldNode(Bare(name), [])])
            else FieldsOf(more.value, delimiter, strict, at, before + [FieldNode(Bare(name), [])])
  {
    var content := cut + (if more.Some? then [delimiter] + more.value else []);
    if more.Some? {
      assert content[..|cut|] == cut && content[|cut| + 1..] == more.value;
    } else {
      assert content == cut;
    }
    hide TopDelimiter, FieldOf, Trim;
  }

  /** A name with a group in braces behind it has the fields of that group; nothing may follow the group, and it must
      be closed. */
  lemma {:induction false} NestedField(name: bytes, gap: nat, inner: bytes, tail: bytes, delimiter: byte, strict: bool, at: Position)
    requires FlatName(name, 123) && name != [] && Flat(inner, 125)
    ensures FieldOf(name + LineLaws.Blanks(gap) + [123] + inner + [125] + tail, delimiter, strict, at) ==
            if tail != [] then Wrong(ContentAfterFieldGroup)
            else match FieldsOf(inner, delimiter, strict, at, [])
              case Wrong(code) => Wrong(code)
              case Good(children) => Good(FieldNode(Bare(name), children))
    ensures FieldOf(name + LineLaws.Blanks(gap) + [123] + inner, delimiter, strict, at) == Wrong(UnclosedFieldGroup)
  {
    var lead := name + LineLaws.Blanks(gap);
    var entry, open := lead + ([123] + (inner + ([125] + tail))), lead + ([123] + inner);
    assert lead + [123] + inner + [125] + tail == entry && lead + [123] + inner == open;
    LeadIsName(name, gap);
    LeadIsQuiet(name, gap);
    FirstBrace(lead, inner + ([125] + tail));
    FirstBrace(lead, inner);
    FlatMatches(inner, tail);
    NeverMatches([123] + inner, 0, 0);
    hide *;
    FieldSlices(lead, inner, tail);
    ClosedField(entry, lead, name, inner, delimiter, strict, at);
    OpenField(open, |lead|, delimiter, strict, at);
  }

  lemma {:induction false} FieldSlices(lead: bytes, inner: bytes, tail: bytes)
    ensures var entry := lead + ([123] + (inner + ([125] + tail)));
            && |entry| == |lead| + 2 + |inner| + |tail| && entry[|lead|..] == [123] + (inner + ([125] + tail))
            && entry[..|lead|] == lead && entry[|lead| + 1..|lead| + 1 + |inner|] == inner
    ensures var open := lead + ([123] + inner); |lead| < |open| && open[|lead|..] == [123] + inner
  {
  }

  lemma {:induction false} ClosedField(entry: bytes, lead: bytes, name: bytes, inner: bytes, delimiter: byte, strict: bool, at: Position)
    requires FirstUnquoted(entry, LBRACE, 0) == Some(|lead|) && |lead| + 2 + |inner| <= |entry|
    requires MatchBrace(entry[|lead|..], Outside, 0, 0) == Some(Closing(1 + |inner|, 1))
    requires entry[..|lead|] == lead && entry[|lead| + 1..|lead| + 1 + |inner|] == inner && Trim(lead) == name && name != [] && name[0] != 34
    ensures FieldOf(entry, delimiter, strict, at) ==
            if |entry| != |lead| + 2 + |inner| then Wrong(ContentAfterFieldGroup)
            else match FieldsOf(inner, delimiter, strict, at, [])
              case Wrong(code) => Wrong(code)
              case Good(children) => Good(FieldNode(Bare(name), children))
  {
    hide FieldsOf, MatchBrace, FirstUnquoted, Trim;
    assert MatchFrom(entry, |lead|, false, 0, 0) == Some(Closing(|lead| + 1 + |inner|, 1));
  }

  lemma {:induction false} OpenField(entry: bytes, open: nat, delimiter: byte, strict: bool, at: Position)
    requires FirstUnquoted(entry, LBRACE, 0) == Some(open) && MatchBrace(entry[open..], Outside, 0, 0) == None
    ensures FieldOf(entry, delimiter, strict, at) == Wrong(UnclosedFieldGroup)
  {
    hide MatchBrace, FirstUnquoted;
  }

  lemma {:induction false} LeadIsQuiet(name: bytes, gap: nat)
    requires FlatName(name, 123)
    ensures var lead := name + LineLaws.Blanks(gap); 34 !in lead && 123 !in lead
    ensures name != [] ==> name[0] != 34
  {
  }

  lemma {:induction false} LeadIsName(name: bytes, gap: nat)
    requires name != [] && Trimmed(name)
    ensures Trim(name + LineLaws.Blanks(gap)) == name
  {
    SpacesTrail(name, gap);
    assert (name + LineLaws.Blanks(gap))[0] == name[0];
  }

  lemma {:induction false} FirstBrace(lead: bytes, rest: bytes)
    requires 34 !in lead && 123 !in lead
    ensures FirstUnquoted(lead + ([123] + rest), LBRACE, 0) == Some(|lead|)
  {
    var s := lead + ([123] + rest);
    FindWithoutQuotes(lead, LBRACE);
    NoQuoteOutside(lead);
    FindConcat(lead, [123] + rest, LBRACE, Outside);
    assert s[0..] == s;
  }

  lemma {:induction false} NoQuoteOutside(s: bytes)
    requires 34 !in s
    ensures ModeAfter(s, Outside).Outside?
  {
    if s != [] { NoQuoteOutside(s[1..]); }
  }

  // ----- the line -----------------------------------------------------------------------------------

  /** Behind a bare key a bracket must follow at once and hold a length, or the line is no header; then come the fields,
      and what is behind them. */
  lemma {:induction false} BracketDecides(key: bytes, inside: bytes, rest: bytes, strict: bool, at: Position)
    requires 34 !in key && 58 !in key && 91 !in key && 34 !in inside && 93 !in inside
    ensures var content := key + ([91] + (inside + ([93] + rest)));
            HeaderOf(content, strict, at) ==
            if key != [] && key[|key| - 1] == 32 then Ok(Malformed(MalformedHeader))
            else match BracketOf(inside)
              case None => Ok(Malformed(InvalidLength))
              case Some(bracket) =>
                AfterBracket(content, |key| + |inside| + 2, if key == [] then None else Some(Bare(key)), bracket, strict, at)
  {
    var content := key + ([91] + (inside + ([93] + rest)));
    FirstBracket(key, inside + ([93] + rest));
    ClosesAt(key, inside, rest, content);
    assert content[..|key|] == key && content[|key| + 1..|key| + 1 + |inside|] == inside;
    BareKey(content, key, at);
    assert key != [] ==> content[|key| - 1] == key[|key| - 1];
    hide *;
    BracketOutcome(content, key, inside, strict, at);
  }

  lemma {:induction false} BracketOutcome(content: bytes, key: bytes, inside: bytes, strict: bool, at: Position)
    requires |key| + 1 + |inside| < |content| && content[|key| + 1..|key| + 1 + |inside|] == inside
    requires key != [] ==> content[|key| - 1] == key[|key| - 1]
    requires Marks(content).bracket == Some(|key|) && FirstUnquoted(content, RBRACKET, |key| + 1) == Some(|key| + 1 + |inside|)
    requires KeyBefore(content, |key|, at) == Ok(if key == [] then None else Some(Bare(key)))
    ensures HeaderOf(content, strict, at) ==
            if key != [] && key[|key| - 1] == 32 then Ok(Malformed(MalformedHeader))
            else match BracketOf(inside)
              case None => Ok(Malformed(InvalidLength))
              case Some(bracket) =>
                AfterBracket(content, |key| + |inside| + 2, if key == [] then None else Some(Bare(key)), bracket, strict, at)
  {
    hide AfterBracket, BracketOf, Marks, FirstUnquoted, KeyBefore;
  }

  lemma {:induction false} BareKey(content: bytes, key: bytes, at: Position)
    requires |key| <= |content| && content[..|key|] == key && 34 !in key
    ensures KeyBefore(content, |key|, at) == Ok(if key == [] then None else Some(Bare(key)))
  {
    if key != [] { assert key[0] != 34; }
  }

  /** A bracket that is never closed makes the line no header, and without a bracket there is none. */
  lemma {:induction false} BracketMissing(key: bytes, inside: bytes, strict: bool, at: Position)
    requires 34 !in key && 58 !in key && 91 !in key && 34 !in inside && 93 !in inside
    ensures HeaderOf(key + ([91] + inside), strict, at) ==
            Ok(Malformed(if key != [] && key[|key| - 1] == 32 then MalformedHeader else UnclosedBracket))
    ensures HeaderOf(key, strict, at) == Ok(NotHeader)
  {
    var open := key + ([91] + inside);
    FirstBracket(key, inside);
    NeverCloses(key, inside, open);
    NoBracketNoMark(key);
    hide AfterBracket, BracketOf, Marks, FirstUnquoted;
    assert key != [] ==> open[|key| - 1] == key[|key| - 1];
  }

  lemma {:induction false} FirstBracket(key: bytes, rest: bytes)
    requires 34 !in key && 58 !in key && 91 !in key
    ensures Marks(key + ([91] + rest)).bracket == Some(|key|)
  {
    var content := key + ([91] + rest);
    UnquotedKey(key);
    FindWithoutQuotes(key, LBRACKET);
    FindConcat(key, [91] + rest, LBRACKET, Outside);
    FindConcat(key, [91] + rest, COLON, Outside);
    assert content[0..] == content;
  }

  lemma {:induction false} NoBracketNoMark(key: bytes)
    requires 34 !in key && 91 !in key
    ensures Marks(key).bracket == None
  {
    FindWithoutQuotes(key, LBRACKET);
    assert key[0..] == key;
  }

  lemma {:induction false} ClosesAt(key: bytes, inside: bytes, rest: bytes, content: bytes)
    requires content == key + ([91] + (inside + ([93] + rest))) && 34 !in inside && 93 !in inside
    ensures FirstUnquoted(content, RBRACKET, |key| + 1) == Some(|key| + 1 + |inside|)
  {
    assert content[|key| + 1..] == inside + ([RBRACKET] + rest);
    ReadHeaders.ClosingBracket(content, |key|, inside, rest);
  }

  lemma {:induction false} NeverCloses(key: bytes, inside: bytes, content: bytes)
    requires content == key + ([91] + inside) && 34 !in inside && 93 !in inside
    ensures FirstUnquoted(content, RBRACKET, |key| + 1) == None
  {
    assert content[|key| + 1..] == inside;
    FindWithoutQuotes(inside, RBRACKET);
  }

  /** Without a field group a colon must follow at once. A keyed table has no header without fields; otherwise what
      is behind the colon, less one space, are the inline values. */
  lemma {:induction false} ColonFollows(before: bytes, rest: bytes, key: Option<StringToken>, bracket: Bracket, strict: bool, at: Position)
    requires rest == [] || rest[0] != 123
    ensures AfterBracket(before + rest, |before|, key, bracket, strict, at) ==
            if rest == [] || rest[0] != 58 || bracket.keyed then Ok(Malformed(MalformedHeader))
            else
              var values := if |rest| > 1 && rest[1] == 32 then rest[2..] else rest[1..];
              Ok(HeaderLine(Header(key, bracket.declared, false, bracket.delimiter, [], if values == [] then None else Some(values))))
  {
    var content := before + rest;
    assert rest != [] ==> content[|before|] == rest[0] && content[|before| + 1..] == rest[1..];
    assert |rest| > 1 ==> content[|before| + 1] == rest[1] && content[|before| + 2..] == rest[2..];
  }

  /** Behind a field group the colon must follow, and nothing behind it. */
  lemma {:induction false} GroupFollows(before: bytes, group: bytes, tail: bytes, key: Option<StringToken>, bracket: Bracket, strict: bool, at: Position)
    requires Flat(group, 125) && IsDelimiter(bracket.delimiter)
    ensures AfterBracket(before + ([123] + group + [125] + tail), |before|, key, bracket, strict, at) ==
            match FieldsOf(group, bracket.delimiter, strict, at, [])
            case Wrong(code) => Ok(Malformed(code))
            case Good(fields) =>
              if tail == [] || tail[0] != 58 then Ok(Malformed(MalformedHeader))
              else if tail != [58] && tail != [58, 32] then Ok(Malformed(ContentAfterFieldsHeader))
              else Ok(HeaderLine(Header(key, bracket.declared, bracket.keyed, bracket.delimiter, fields, None)))
  {
    var content := before + ([123] + group + [125] + tail);
    var close := |before| + 1 + |group|;
    assert content[|before|] == 123 && content[|before|..] == [123] + (group + ([125] + tail));
    FlatMatches(group, tail);
    assert content[|before| + 1..close] == group && content[close + 1..] == tail;
    GroupOutcome(content, |before|, close, group, tail, key, bracket, strict, at);
    hide *;
  }

  lemma {:induction false} FieldsAreSome(content: bytes, delimiter: byte, strict: bool, at: Position, before: seq<FieldNode>)
    ensures var r := FieldsOf(content, delimiter, strict, at, before); r.Good? ==> |r.value| > |before|
    decreases |content|
  {
    hide FieldOf, HasName, Trim;
    var end := TopDelimiter(content, delimiter, Outside, 0);
    if end.Some? {
      var entry := Trim(content[..end.value]);
      if entry != [] && FieldOf(entry, delimiter, strict, at).Good? {
        FieldsAreSome(content[end.value + 1..], delimiter, strict, at, before + [FieldOf(entry, delimiter, strict, at).value]);
      }
    }
  }

  lemma {:induction false} GroupOutcome(
      content: bytes, cursor: nat, close: nat, group: bytes, tail: bytes, key: Option<StringToken>, bracket: Bracket, strict: bool, at: Position)
    requires IsDelimiter(bracket.delimiter) && cursor < close < |content| && content[cursor] == 123
    requires MatchBrace(content[cursor..], Outside, 0, 0) == Some(Closing(close - cursor, 1))
    requires content[cursor + 1..close] == group && content[close + 1..] == tail
    ensures AfterBracket(content, cursor, key, bracket, strict, at) ==
            match FieldsOf(group, bracket.delimiter, strict, at, [])
            case Wrong(code) => Ok(Malformed(code))
            case Good(fields) =>
              if tail == [] || tail[0] != 58 then Ok(Malformed(MalformedHeader))
              else if tail != [58] && tail != [58, 32] then Ok(Malformed(ContentAfterFieldsHeader))
              else Ok(HeaderLine(Header(key, bracket.declared, bracket.keyed, bracket.delimiter, fields, None)))
  {
    FieldsAreSome(group, bracket.delimiter, strict, at, []);
    hide FieldsOf, MatchBrace;
    assert tail != [] ==> content[close + 1] == tail[0] && content[close + 2..] == tail[1..];
    assert |tail| > 1 ==> content[close + 2] == tail[1] && content[close + 3..] == tail[2..];
    assert tail == [58, 32] <==> |tail| == 2 && tail[0] == 58 && tail[1] == 32;
  }

  lemma {:induction false} FlatMatches(group: bytes, tail: bytes)
    requires Flat(group, 125)
    ensures MatchBrace([123] + (group + ([125] + tail)), Outside, 0, 0) == Some(Closing(1 + |group|, 1))
  {
    var s := [123] + (group + ([125] + tail));
    assert s[1..] == group + ([125] + tail);
    FlatCloses(group, tail);
  }

  lemma {:induction false} FlatCloses(group: bytes, tail: bytes)
    requires Flat(group, 125)
    ensures MatchBrace(group + ([125] + tail), Outside, 1, 1) == Some(Closing(|group|, 1))
  {
    var s := group + ([125] + tail);
    if group != [] {
      assert s[1..] == group[1..] + ([125] + tail);
      assert forall i :: 0 <= i < |group| - 1 ==> group[1..][i] == group[i + 1];
      FlatCloses(group[1..], tail);
    }
  }

  /** A group that is never closed makes the line no header. */
  lemma {:induction false} OpenGroup(before: bytes, group: bytes, key: Option<StringToken>, bracket: Bracket, strict: bool, at: Position)
    requires 34 !in group && 125 !in group && IsDelimiter(bracket.delimiter)
    ensures AfterBracket(before + ([123] + group), |before|, key, bracket, strict, at) == Ok(Malformed(UnclosedFieldGroup))
  {
    var content := before + ([123] + group);
    assert content[|before|..] == [123] + group && content[|before|] == 123;
    NeverMatches([123] + group, 0, 0);
    hide MatchBrace;
  }

  lemma {:induction false} NeverMatches(s: bytes, depth: nat, deepest: nat)
    requires 34 !in s && 125 !in s
    ensures MatchBrace(s, Outside, depth, deepest) == None
  {
    if s != [] { NeverMatches(s[1..], if s[0] == 123 then depth + 1 else depth, Max(deepest, if s[0] == 123 then depth + 1 else depth)); }
  }
}
