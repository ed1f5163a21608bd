/** What the outer brace scan guarantees for the nested field groups (src/header.rs). */
module HeaderDepth {
  import opened Bytes
  import opened Tokens
  import opened Faults
  import opened Cells
  import opened Escapes
  import opened Header
  import opened Scan

  // ----- balanced text ---------------------------------------------------------------------------

  datatype Swept = Swept(mode: Mode, depth: nat, deepest: nat)

  /** Sweep over `s`, counting braces outside quotes; `None` when one closes that was not opened. */
  function Sweep(s: bytes, mode: Mode, depth: nat, deepest: nat): Option<Swept> {
    if s == [] then Some(Swept(mode, depth, deepest))
    else if mode.Outside? && s[0] == RBRACE && depth == 0 then None
    else
      var next := if !mode.Outside? then depth
                  else if s[0] == LBRACE then depth + 1
                  else if s[0] == RBRACE then depth - 1
                  else depth;
      Sweep(s[1..], Next(mode, s[0]), next, Max(deepest, next))
  }

  /** Quotes and braces are closed, and braces nest no deeper than `limit`. */
  predicate Balanced(s: bytes, limit: nat) {
    var r := Sweep(s, Outside, 0, 0);
    r.Some? && r.value.mode.Outside? && r.value.depth == 0 && r.value.deepest <= limit
  }

  lemma {:induction false} SweepConcat(a: bytes, b: bytes, mode: Mode, depth: nat, deepest: nat)
    ensures Sweep(a + b, mode, depth, deepest) ==
            match Sweep(a, mode, depth, deepest) { case None => None case Some(r) => Sweep(b, r.mode, r.depth, r.deepest) }
    decreases |a|
  {
    if a == [] {
      assert a + b == b;
    } else {
      assert (a + b)[1..] == a[1..] + b;
      if !(mode.Outside? && a[0] == RBRACE && depth == 0) {
        var next := if !mode.Outside? then depth else if a[0] == LBRACE then depth + 1 else if a[0] == RBRACE then depth - 1 else depth;
        SweepConcat(a[1..], b, Next(mode, a[0]), next, Max(deepest, next));
      }
    }
  }

  /** The deepest level counts from where it started. */
  lemma {:induction false} SweepDeepest(s: bytes, mode: Mode, depth: nat, deepest: nat, higher: nat)
    requires deepest <= higher
    ensures Sweep(s, mode, depth, deepest).Some? <==> Sweep(s, mode, depth, higher).Some?
    ensures var r, h := Sweep(s, mode, depth, deepest), Sweep(s, mode, depth, higher);
            r.Some? ==> h.value == Swept(r.value.mode, r.value.depth, Max(r.value.deepest, higher)) && r.value.deepest >= deepest
    decreases |s|
  {
    if s != [] && !(mode.Outside? && s[0] == RBRACE && depth == 0) {
      var next := if !mode.Outside? then depth else if s[0] == LBRACE then depth + 1 else if s[0] == RBRACE then depth - 1 else depth;
      SweepDeepest(s[1..], Next(mode, s[0]), next, Max(deepest, next), Max(higher, next));
      if deepest < next { SweepDeepest(s[1..], Next(mode, s[0]), next, next, Max(higher, next)); }
    }
  }

  /** What the brace scan encloses is balanced, one level less deep than the whole. */
  lemma {:induction false} EnclosedSweep(s: bytes, mode: Mode, depth: nat, deepest: nat)
    requires 1 <= depth <= deepest && MatchBrace(s, mode, depth, deepest).Some?
    ensures var group := MatchBrace(s, mode, depth, deepest).value;
            group.deepest >= 1 && Sweep(s[..group.close], mode, depth - 1, deepest - 1) == Some(Swept(Outside, 0, group.deepest - 1))
    decreases |s|
  {
    var group := MatchBrace(s, mode, depth, deepest).value;
    if mode.Outside? && s[0] == RBRACE && depth <= 1 {
      assert s[..0] == [];
    } else {
      var next := if !mode.Outside? then depth else if s[0] == LBRACE then depth + 1 else if s[0] == RBRACE then depth - 1 else depth;
      EnclosedSweep(s[1..], Next(mode, s[0]), next, Max(deepest, next));
      assert s[..group.close][1..] == s[1..][..group.close - 1];
    }
  }

  /** Inside an opened group of balanced text the brace scan finds the closing brace, and goes no deeper. */
  lemma {:induction false} BalancedCloses(s: bytes, mode: Mode, depth: nat, deepest: nat)
    requires 1 <= depth <= deepest
    requires var r := Sweep(s, mode, depth, deepest); r.Some? && r.value.depth == 0
    ensures MatchBrace(s, mode, depth, deepest).Some?
    ensures MatchBrace(s, mode, depth, deepest).value.deepest <= Sweep(s, mode, depth, deepest).value.deepest
    decreases |s|
  {
    if mode.Outside? && s[0] == RBRACE && depth <= 1 {
      SweepDeepest(s[1..], Outside, 0, deepest, deepest);
    } else {
      var next := if !mode.Outside? then depth else if s[0] == LBRACE then depth + 1 else if s[0] == RBRACE then depth - 1 else depth;
      BalancedCloses(s[1..], Next(mode, s[0]), next, Max(deepest, next));
    }
  }

  // ----- parts of balanced text --------------------------------------------------------------------

  /** A top-level delimiter cuts balanced text into balanced parts. */
  lemma {:induction false} CutSweep(s: bytes, delimiter: byte, mode: Mode, depth: nat, deepest: nat)
    requires IsDelimiter(delimiter) && Sweep(s, mode, depth, deepest).Some? && TopDelimiter(s, delimiter, mode, depth).Some?
    ensures var end := TopDelimiter(s, delimiter, mode, depth).value;
            var front := Sweep(s[..end], mode, depth, deepest);
            && front.Some? && front.value.mode.Outside? && front.value.depth == 0
            && Sweep(s[end + 1..], Outside, 0, front.value.deepest) == Sweep(s, mode, depth, deepest)
    decreases |s|
  {
    var end := TopDelimiter(s, delimiter, mode, depth).value;
    if end == 0 {
      assert s[..0] == [];
    } else {
      var next := if !mode.Outside? then depth else if s[0] == LBRACE then depth + 1 else if s[0] == RBRACE then depth - 1 else depth;
      CutSweep(s[1..], delimiter, Next(mode, s[0]), next, Max(deepest, next));
      assert s[..end][1..] == s[1..][..end - 1];
      assert s[1..][end - 1 + 1..] == s[end + 1..];
    }
  }

  lemma {:induction false} CutIsBalanced(s: bytes, delimiter: byte, limit: nat)
    requires IsDelimiter(delimiter) && Balanced(s, limit) && TopDelimiter(s, delimiter, Outside, 0).Some?
    ensures var end := TopDelimiter(s, delimiter, Outside, 0).value; Balanced(s[..end], limit) && Balanced(s[end + 1..], limit)
  {
    var end := TopDelimiter(s, delimiter, Outside, 0).value;
    CutSweep(s, delimiter, Outside, 0, 0);
    var front := Sweep(s[..end], Outside, 0, 0).value;
    SweepDeepest(s[end + 1..], Outside, 0, 0, front.deepest);
  }

  lemma {:induction false} SpacesSweep(s: bytes, mode: Mode, depth: nat, deepest: nat)
    requires depth <= deepest && forall i :: 0 <= i < |s| ==> s[i] == SPACE
    ensures Sweep(s, mode, depth, deepest) == Some(Swept(if s != [] && mode.Skipping? then Inside else mode, depth, deepest))
    decreases |s|
  {
    if s != [] { SpacesSweep(s[1..], Next(mode, s[0]), depth, deepest); }
  }

  lemma {:induction false} SweepKeepsOrder(s: bytes, mode: Mode, depth: nat, deepest: nat)
    requires depth <= deepest && Sweep(s, mode, depth, deepest).Some?
    ensures Sweep(s, mode, depth, deepest).value.depth <= Sweep(s, mode, depth, deepest).value.deepest
    decreases |s|
  {
    if s != [] {
      var next := if !mode.Outside? then depth else if s[0] == LBRACE then depth + 1 else if s[0] == RBRACE then depth - 1 else depth;
      SweepKeepsOrder(s[1..], Next(mode, s[0]), next, Max(deepest, next));
    }
  }

  /** Trimming balanced text leaves it balanced. */
  lemma {:induction false} TrimIsBalanced(s: bytes, limit: nat)
    requires Balanced(s, limit)
    ensures Balanced(Trim(s), limit)
  {
    var from, to := TrimShape(s);
    var front, middle, back := s[..from], s[from..to], s[to..];
    assert s == front + (middle + back);
    SpacesSweep(front, Outside, 0, 0);
    SweepConcat(front, middle + back, Outside, 0, 0);
    SweepConcat(middle, back, Outside, 0, 0);
    SweepKeepsOrder(middle, Outside, 0, 0);
    var inner := Sweep(middle, Outside, 0, 0).value;
    SpacesSweep(back, inner.mode, inner.depth, inner.deepest);
  }

  /** Before the first brace nothing nests, so the group that starts there stands on its own. */
  lemma {:induction false} FirstBrace(s: bytes, mode: Mode, deepest: nat)
    requires Find(s, LBRACE, mode).Some? && Sweep(s, mode, 0, deepest).Some?
    ensures var open := Find(s, LBRACE, mode).value; Sweep(s[open..], Outside, 0, deepest) == Sweep(s, mode, 0, deepest)
    decreases |s|
  {
    var open := Find(s, LBRACE, mode).value;
    if open == 0 {
      assert s[0..] == s;
    } else {
      FirstBrace(s[1..], Next(mode, s[0]), deepest);
      assert s[1..][open - 1..] == s[open..];
    }
  }

  /** In a balanced entry the group found at its first brace is closed, and its inside is balanced. */
  lemma {:induction false} EntryGroup(entry: bytes, limit: nat, open: nat)
    requires Balanced(entry, limit) && FirstUnquoted(entry, LBRACE, 0) == Some(open)
    ensures MatchFrom(entry, open, false, 0, 0).Some?
    ensures var group := MatchFrom(entry, open, false, 0, 0).value;
            open < group.close < |entry| && limit > 0 && Balanced(entry[open + 1..group.close], limit - 1)
  {
    assert entry[0..] == entry;
    FirstBrace(entry, Outside, 0);
    var rest := entry[open..];
    var tail := rest[1..];
    assert rest[0] == LBRACE;
    BalancedCloses(tail, Outside, 1, 1);
    EnclosedSweep(tail, Outside, 1, 1);
    var group := MatchBrace(tail, Outside, 1, 1).value;
    assert MatchBrace(rest, Outside, 0, 0) == Some(Closing(group.close + 1, group.deepest));
    assert entry[open + 1..open + 1 + group.close] == tail[..group.close];
  }

  // ----- headers --------------------------------------------------------------------------------------

  lemma {:induction false} NameFaults(entry: bytes, at: Position)
    ensures NameOf(entry, at) != Wrong(UnclosedFieldGroup)
  {
    if entry != [] && entry[0] == QUOTE { SpanFaults(entry, 1, false, 0, at); }
  }

  lemma {:induction false} SpanFaults(content: bytes, index: nat, escaped: bool, start: nat, at: Position)
    ensures var r := QuotedSpanFrom(content, index, escaped, start, at); r.Err? ==> r.fault.code == UnclosedQuote || r.fault.code == InvalidEscape
    decreases |content| - index
  {
    if index < |content| && content[index] != QUOTE {
      if content[index] == BACKSLASH {
        var e := EscapeAt(content[index..]);
        if e.Escape? { SpanFaults(content, index + e.len, true, start, at); }
      } else {
        SpanFaults(content, index + 1, escaped, start, at);
      }
    }
  }

  predicate Sound(r: Coded<seq<FieldNode>>, limit: nat) {
    match r
    case Wrong(code) => code != UnclosedFieldGroup
    case Good(nodes) => GroupDepth(nodes) <= limit
  }

  lemma {:induction false} DepthOfMore(before: seq<FieldNode>, node: FieldNode, limit: nat)
    requires GroupDepth(before) <= limit && 1 + GroupDepth(node.children) <= limit
    ensures GroupDepth(before + [node]) <= limit
    decreases |before|
  {
    var all := before + [node];
    if before == [] {
      assert all[1..] == [];
    } else {
      assert all[1..] == before[1..] + [node];
      DepthOfMore(before[1..], node, limit);
    }
  }

  /** Balanced text never makes the nested group parser report an unclosed group, and yields no deeper tree. */
  lemma {:induction false} BalancedFields(content: bytes, delimiter: byte, strict: bool, at: Position, before: seq<FieldNode>, limit: nat)
    requires IsDelimiter(delimiter) && Balanced(content, limit) && GroupDepth(before) <= limit + 1
    ensures Sound(FieldsOf(content, delimiter, strict, at, before), limit + 1)
    decreases |content|, 1
  {
    var end := TopDelimiter(content, delimiter, Outside, 0);
    var cut := if end.Some? then content[..end.value] else content;
    TrimIsShorter(cut);
    if end.Some? { CutIsBalanced(content, delimiter, limit); }
    TrimIsBalanced(cut, limit);
    hide TopDelimiter, Balanced, Trim, FieldOf, HasName, GroupDepth;
    var entry := Trim(cut);
    if entry != [] {
      BalancedField(entry, delimiter, strict, at, limit);
      var node := FieldOf(entry, delimiter, strict, at);
      if node.Good? {
        DepthOfMore(before, node.value, limit + 1);
        if end.Some? { BalancedFields(content[end.value + 1..], delimiter, strict, at, before + [node.value], limit); }
      }
    }
  }

  lemma {:induction false} BalancedField(entry: bytes, delimiter: byte, strict: bool, at: Position, limit: nat)
    requires IsDelimiter(delimiter) && Balanced(entry, limit)
    ensures FieldOf(entry, delimiter, strict, at) != Wrong(UnclosedFieldGroup)
    ensures FieldOf(entry, delimiter, strict, at).Good? ==> GroupDepth(FieldOf(entry, delimiter, strict, at).value.children) <= limit
    decreases |entry|, 0
  {
    match FirstUnquoted(entry, LBRACE, 0)
    case None => NameFaults(entry, at);
    case Some(open) =>
      EntryGroup(entry, limit, open);
      hide Balanced, MatchFrom, FirstUnquoted, FieldsOf, NameOf, Trim, GroupDepth;
      var group := MatchFrom(entry, open, false, 0, 0).value;
      NameFaults(Trim(entry[..open]), at);
      if group.close + 1 == |entry| {
        BalancedFields(entry[open + 1..group.close], delimiter, strict, at, [], limit - 1);
      }
  }

  /** Once the outer scan has accepted a group, no group inside it is unclosed; and every tree a header is
      accepted with nests at most to the limit. */
  lemma {:induction false} AcceptedGroupIsSound(content: bytes, cursor: nat, delimiter: byte, strict: bool, at: Position)
    requires IsDelimiter(delimiter) && At(content, cursor) == Some(LBRACE) && MatchFrom(content, cursor, false, 0, 0).Some?
    ensures GroupAt(content, cursor, delimiter, strict, at) != Ok(Wrong(UnclosedFieldGroup))
    ensures var r := GroupAt(content, cursor, delimiter, strict, at);
            r.Ok? && r.value.Good? ==> GroupDepth(r.value.value.nodes) <= MAX_NESTING_DEPTH
  {
    var rest := content[cursor..];
    var tail := rest[1..];
    assert rest[0] == LBRACE;
    var group := MatchFrom(content, cursor, false, 0, 0).value;
    EnclosedSweep(tail, Outside, 1, 1);
    var inner := MatchBrace(tail, Outside, 1, 1).value;
    assert content[cursor + 1..group.close] == tail[..inner.close];
    BalancedFields(content[cursor + 1..group.close], delimiter, strict, at, [], group.deepest - 1);
  }
}
