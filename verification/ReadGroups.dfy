/** Written field groups read back: the header grammar recovers the tree of columns (src/header.rs, src/encode.rs). */
module ReadGroups {
  import opened Bytes
  import opened Tokens
  import opened Faults
  import opened Cells
  import opened Escapes
  import opened Header
  import opened Shapes
  import opened Render
  import opened ReadScalars
  import opened QuoteDecision
  import opened Layout

  // ----- the tree of a group ---------------------------------------------------------

  function NodeOf(node: ShapeNode): FieldNode
    decreases node
  {
    FieldNode(KeyToken(node.wire), NodesOf(node.children))
  }

  function NodesOf(nodes: seq<ShapeNode>): (r: seq<FieldNode>)
    ensures |r| == |nodes|
    decreases nodes
  {
    if nodes == [] then [] else [NodeOf(nodes[0])] + NodesOf(nodes[1..])
  }

  /** Levels of braces a group is written with. */
  function Braces(nodes: seq<ShapeNode>): nat {
    GroupDepth(NodesOf(nodes))
  }

  lemma {:induction false} BracesOf(nodes: seq<ShapeNode>)
    requires nodes != []
    ensures Braces(nodes) == Max(1 + Braces(nodes[0].children), Braces(nodes[1..]))
  {
    assert NodesOf(nodes)[0] == NodeOf(nodes[0]) && NodesOf(nodes)[1..] == NodesOf(nodes[1..]);
  }

  /** Sibling columns have distinct names, at every level. */
  predicate WellNamed(nodes: seq<ShapeNode>)
    decreases nodes
  {
    nodes == [] || (!NamesWire(nodes[1..], nodes[0].wire) && WellNamed(nodes[0].children) && WellNamed(nodes[1..]))
  }

  predicate NamesWire(nodes: seq<ShapeNode>, wire: bytes) {
    nodes != [] && (nodes[0].wire == wire || NamesWire(nodes[1..], wire))
  }

  // ----- scans over a written group ----------------------------------------------------

  function Later(c: Option<Closing>, n: nat): Option<Closing> {
    if c.None? then None else Some(Closing(c.value.close + n, c.value.deepest))
  }

  /** Where the two scans stand outside quotes: how many braces are open, and the most that ever were. */
  datatype Level = Level(depth: nat, deepest: nat)

  ghost predicate MovesBefore(a: bytes, b: bytes, delimiter: byte, from: Level, to: Level) {
    && MatchBrace(a + b, Outside, from.depth, from.deepest) == Later(MatchBrace(b, Outside, to.depth, to.deepest), |a|)
    && TopBefore(a, b, delimiter, from.depth, to.depth)
  }

  ghost predicate TopBefore(a: bytes, b: bytes, delimiter: byte, from: nat, to: nat) {
    TopDelimiter(a + b, delimiter, Outside, from) == Shift(TopDelimiter(b, delimiter, Outside, to), |a|)
  }

  /** The delimiter scan alone crosses `a`. */
  ghost predicate TopMoves(a: bytes, delimiter: byte, from: nat, to: nat) {
    forall b :: TopBefore(a, b, delimiter, from, to)
  }

  /** Both scans cross `a` without stopping, whatever follows, and stand at `to` behind it. */
  ghost predicate Moves(a: bytes, delimiter: byte, from: Level, to: Level) {
    forall b :: MovesBefore(a, b, delimiter, from, to)
  }

  lemma {:induction false} Compose(a: bytes, b: bytes, delimiter: byte, from: Level, over: Level, to: Level)
    requires Moves(a, delimiter, from, over) && Moves(b, delimiter, over, to)
    ensures Moves(a + b, delimiter, from, to)
  {
    forall c ensures MovesBefore(a + b, c, delimiter, from, to) {
      assert MovesBefore(a, b + c, delimiter, from, over) && MovesBefore(b, c, delimiter, over, to);
      assert (a + b) + c == a + (b + c);
    }
  }

  lemma {:induction false} MatchOverHushed(a: bytes, b: bytes, mode: Mode, depth: nat, deepest: nat)
    requires Hushed(a, mode) && depth <= deepest
    ensures MatchBrace(a + b, mode, depth, deepest) == Later(MatchBrace(b, Outside, depth, deepest), |a|)
  {
    if a == [] {
      assert a + b == b;
    } else {
      assert (a + b)[1..] == a[1..] + b;
      MatchOverHushed(a[1..], b, Next(mode, a[0]), depth, deepest);
    }
  }

  lemma {:induction false} TopOverHushed(a: bytes, b: bytes, delimiter: byte, mode: Mode, depth: nat)
    requires Hushed(a, mode) && IsDelimiter(delimiter)
    ensures TopDelimiter(a + b, delimiter, mode, depth) == Shift(TopDelimiter(b, delimiter, Outside, depth), |a|)
  {
    if a == [] {
      assert a + b == b;
    } else {
      assert (a + b)[1..] == a[1..] + b;
      TopOverHushed(a[1..], b, delimiter, Next(mode, a[0]), depth);
    }
  }

  lemma {:induction false} MovesOverKey(wire: bytes, delimiter: byte, level: Level)
    requires IsDelimiter(delimiter) && level.depth <= level.deepest
    ensures Moves(KeyText(wire), delimiter, level, level)
  {
    KeyIsHushed(wire);
    forall b ensures MovesBefore(KeyText(wire), b, delimiter, level, level) {
      MatchOverHushed(KeyText(wire), b, Outside, level.depth, level.deepest);
      TopOverHushed(KeyText(wire), b, delimiter, Outside, level.depth);
    }
  }

  function Opened(level: Level): Level {
    Level(level.depth + 1, Max(level.deepest, level.depth + 1))
  }

  function Closed(level: Level): Level
    requires level.depth > 0
  {
    Level(level.depth - 1, level.deepest)
  }

  lemma {:induction false} MovesOverOpening(delimiter: byte, level: Level)
    requires IsDelimiter(delimiter)
    ensures Moves([LBRACE], delimiter, level, Opened(level))
  {
    var to := Opened(level);
    forall b ensures MovesBefore([LBRACE], b, delimiter, level, to) {
      assert ([LBRACE] + b)[1..] == b;
    }
  }

  lemma {:induction false} MovesOverClosing(delimiter: byte, level: Level)
    requires IsDelimiter(delimiter) && 1 < level.depth <= level.deepest
    ensures Moves([RBRACE], delimiter, level, Closed(level))
  {
    var to := Closed(level);
    forall b ensures MovesBefore([RBRACE], b, delimiter, level, to) {
      assert ([RBRACE] + b)[1..] == b;
    }
  }

  lemma {:induction false} MovesOverDelimiter(delimiter: byte, level: Level)
    requires IsDelimiter(delimiter) && 1 <= level.depth <= level.deepest
    ensures Moves([delimiter], delimiter, level, level)
  {
    forall b ensures MovesBefore([delimiter], b, delimiter, level, level) {
      assert ([delimiter] + b)[1..] == b;
    }
  }

  /** The level once a group with `braces` levels of its own was crossed. */
  function Reached(level: Level, braces: nat): Level {
    Level(level.depth, Max(level.deepest, level.depth + braces))
  }

  lemma {:induction false} ReachedTwice(level: Level, first: nat, more: nat)
    requires more > 0
    ensures Reached(Reached(level, first), more - 1) == Reached(level, Max(1 + first, more) - 1)
    ensures level.depth > 0 ==> Closed(Reached(Opened(level), more - 1)) == Reached(level, more)
  {
  }

  /** The scans cross the columns of a group inside its braces, and note how deep they go. */
  lemma {:induction false} MovesOverGroup(nodes: seq<ShapeNode>, delimiter: byte, level: Level)
    requires IsDelimiter(delimiter) && 1 <= level.depth <= level.deepest && nodes != []
    ensures Moves(GroupText(nodes, delimiter), delimiter, level, Reached(level, Braces(nodes) - 1))
    decreases nodes, 1
  {
    BracesOf(nodes);
    MovesOverNode(nodes[0], delimiter, level);
    if |nodes| > 1 {
      var over := Reached(level, Braces(nodes[0].children));
      BracesOf(nodes[1..]);
      MovesOverGroup(nodes[1..], delimiter, over);
      ReachedTwice(level, Braces(nodes[0].children), Braces(nodes[1..]));
      Separated(NodeText(nodes[0], delimiter), GroupText(nodes[1..], delimiter), delimiter, level, over, Reached(level, Braces(nodes) - 1));
    }
  }

  lemma {:induction false} Separated(first: bytes, more: bytes, delimiter: byte, level: Level, over: Level, to: Level)
    requires IsDelimiter(delimiter) && 1 <= over.depth <= over.deepest
    requires Moves(first, delimiter, level, over) && Moves(more, delimiter, over, to)
    ensures Moves(first + ([delimiter] + more), delimiter, level, to)
  {
    MovesOverDelimiter(delimiter, over);
    Compose([delimiter], more, delimiter, over, over, to);
    Compose(first, [delimiter] + more, delimiter, level, over, to);
  }

  lemma {:induction false} MovesOverNode(node: ShapeNode, delimiter: byte, level: Level)
    requires IsDelimiter(delimiter) && 1 <= level.depth <= level.deepest
    ensures Moves(NodeText(node, delimiter), delimiter, level, Reached(level, Braces(node.children)))
    decreases node
  {
    MovesOverKey(node.wire, delimiter, level);
    MovesOverBraced(node.children, delimiter, level);
    Compose(KeyText(node.wire), BracedGroup(node.children, delimiter), delimiter, level, level, Reached(level, Braces(node.children)));
  }

  lemma {:induction false} MovesOverBraced(nodes: seq<ShapeNode>, delimiter: byte, level: Level)
    requires IsDelimiter(delimiter) && 1 <= level.depth <= level.deepest
    ensures Moves(BracedGroup(nodes, delimiter), delimiter, level, Reached(level, Braces(nodes)))
    decreases nodes, 2
  {
    if nodes == [] {
      MovesOverNothing(delimiter, level);
    } else {
      BracesOf(nodes);
      MovesOverGroup(nodes, delimiter, Opened(level));
      ReachedTwice(level, 0, Braces(nodes));
      Enclosed(GroupText(nodes, delimiter), delimiter, level, Reached(Opened(level), Braces(nodes) - 1));
    }
  }

  lemma {:induction false} Enclosed(group: bytes, delimiter: byte, level: Level, behind: Level)
    requires IsDelimiter(delimiter) && level.depth <= level.deepest && 1 < behind.depth <= behind.deepest
    requires Moves(group, delimiter, Opened(level), behind)
    ensures Moves([LBRACE] + (group + [RBRACE]), delimiter, level, Closed(behind))
  {
    MovesOverOpening(delimiter, level);
    MovesOverClosing(delimiter, behind);
    Compose(group, [RBRACE], delimiter, Opened(level), behind, Closed(behind));
    Compose([LBRACE], group + [RBRACE], delimiter, level, Opened(level), Closed(behind));
  }

  lemma {:induction false} MovesOverNothing(delimiter: byte, level: Level)
    ensures Moves([], delimiter, level, level)
  {
    forall b ensures MovesBefore([], b, delimiter, level, level) { assert [] + b == b; }
  }

  lemma {:induction false} MovesIntoGroup(nodes: seq<ShapeNode>, delimiter: byte)
    requires IsDelimiter(delimiter) && nodes != []
    ensures Moves([LBRACE] + GroupText(nodes, delimiter), delimiter, Level(0, 0), Level(1, Braces(nodes)))
  {
    var inside := Level(1, 1);
    BracesOf(nodes);
    MovesOverOpening(delimiter, Level(0, 0));
    MovesOverGroup(nodes, delimiter, inside);
    Compose([LBRACE], GroupText(nodes, delimiter), delimiter, Level(0, 0), inside, Level(1, Braces(nodes)));
  }

  lemma {:induction false} ClosesHere(tail: bytes, deepest: nat)
    ensures MatchBrace([RBRACE] + tail, Outside, 1, deepest) == Some(Closing(0, deepest))
  {
  }

  /** The brace scan stops at the brace that closes the outermost group. */
  lemma {:induction false} OuterCloses(a: bytes, tail: bytes, delimiter: byte, deepest: nat)
    requires Moves(a, delimiter, Level(0, 0), Level(1, deepest))
    ensures MatchBrace(a + ([RBRACE] + tail), Outside, 0, 0) == Some(Closing(|a|, deepest))
  {
    ClosesHere(tail, deepest);
    assert MovesBefore(a, [RBRACE] + tail, delimiter, Level(0, 0), Level(1, deepest));
  }

  lemma {:induction false} BracedParts(nodes: seq<ShapeNode>, tail: bytes, delimiter: byte)
    requires nodes != []
    ensures BracedGroup(nodes, delimiter) + tail == ([LBRACE] + GroupText(nodes, delimiter)) + ([RBRACE] + tail)
    ensures |BracedGroup(nodes, delimiter)| == |[LBRACE] + GroupText(nodes, delimiter)| + 1
  {
    BytesApart([LBRACE], GroupText(nodes, delimiter), [RBRACE], tail);
  }

  lemma {:induction false} BytesApart(a: bytes, b: bytes, c: bytes, d: bytes)
    ensures (a + (b + c)) + d == (a + b) + (c + d)
  {
  }

  /** The brace scan from outside stops at the group's own closing brace. */
  lemma {:induction false} MatchOuter(nodes: seq<ShapeNode>, tail: bytes, delimiter: byte)
    requires IsDelimiter(delimiter) && nodes != []
    ensures MatchBrace(BracedGroup(nodes, delimiter) + tail, Outside, 0, 0) ==
            Some(Closing(|BracedGroup(nodes, delimiter)| - 1, Braces(nodes)))
  {
    MovesIntoGroup(nodes, delimiter);
    OuterCloses([LBRACE] + GroupText(nodes, delimiter), tail, delimiter, Braces(nodes));
    BracedParts(nodes, tail, delimiter);
  }

  lemma {:induction false} ComposeTop(a: bytes, b: bytes, delimiter: byte, from: nat, over: nat, to: nat)
    requires TopMoves(a, delimiter, from, over) && TopMoves(b, delimiter, over, to)
    ensures TopMoves(a + b, delimiter, from, to)
  {
    forall c ensures TopBefore(a + b, c, delimiter, from, to) {
      assert TopBefore(a, b + c, delimiter, from, over) && TopBefore(b, c, delimiter, over, to);
      assert (a + b) + c == a + (b + c);
    }
  }

  lemma {:induction false} TopMovesToo(a: bytes, delimiter: byte, from: Level, to: Level)
    requires Moves(a, delimiter, from, to)
    ensures TopMoves(a, delimiter, from.depth, to.depth)
  {
    forall b ensures TopBefore(a, b, delimiter, from.depth, to.depth) { assert MovesBefore(a, b, delimiter, from, to); }
  }

  lemma {:induction false} TopOverClosing(delimiter: byte)
    requires IsDelimiter(delimiter)
    ensures TopMoves([RBRACE], delimiter, 1, 0)
  {
    forall b ensures TopBefore([RBRACE], b, delimiter, 1, 0) { assert ([RBRACE] + b)[1..] == b; }
  }

  /** A delimiter inside the braces of a column does not end the column. */
  lemma {:induction false} TopOverNode(node: ShapeNode, delimiter: byte)
    requires IsDelimiter(delimiter)
    ensures TopMoves(NodeText(node, delimiter), delimiter, 0, 0)
  {
    MovesOverKey(node.wire, delimiter, Level(0, 0));
    TopMovesToo(KeyText(node.wire), delimiter, Level(0, 0), Level(0, 0));
    TopOverBraced(node.children, delimiter);
    ComposeTop(KeyText(node.wire), BracedGroup(node.children, delimiter), delimiter, 0, 0, 0);
  }

  lemma {:induction false} TopOverBraced(nodes: seq<ShapeNode>, delimiter: byte)
    requires IsDelimiter(delimiter)
    ensures TopMoves(BracedGroup(nodes, delimiter), delimiter, 0, 0)
  {
    if nodes == [] {
      MovesOverNothing(delimiter, Level(0, 0));
      TopMovesToo([], delimiter, Level(0, 0), Level(0, 0));
    } else {
      var open := [LBRACE] + GroupText(nodes, delimiter);
      MovesIntoGroup(nodes, delimiter);
      TopMovesToo(open, delimiter, Level(0, 0), Level(1, Braces(nodes)));
      TopOverClosing(delimiter);
      ComposeTop(open, [RBRACE], delimiter, 0, 1, 0);
      assert BracedGroup(nodes, delimiter) == open + [RBRACE];
    }
  }

  // ----- fields ----------------------------------------------------------------------

  /** A written column starts and ends with bytes that trimming keeps. */
  lemma {:induction false} NodeIsTrimmed(node: ShapeNode, delimiter: byte)
    ensures NodeText(node, delimiter) != [] && Trimmed(NodeText(node, delimiter))
  {
    KeyIsTrimmed(node.wire);
  }

  lemma {:induction false} FieldReads(node: ShapeNode, delimiter: byte, strict: bool, at: Position)
    requires IsDelimiter(delimiter) && WellNamed(node.children)
    ensures FieldOf(NodeText(node, delimiter), delimiter, strict, at) == Good(NodeOf(node))
    decreases node
  {
    var entry, key, braced := NodeText(node, delimiter), KeyText(node.wire), BracedGroup(node.children, delimiter);
    KeyIsHushed(node.wire);
    HushedFind(key, Outside, LBRACE);
    FindConcat(key, braced, LBRACE, Outside);
    KeyReads(node.wire, at);
    assert entry[0..] == entry;
    if node.children == [] {
      assert entry == key;
    } else {
      GroupFieldReads(node, delimiter, strict, at, entry, |key|);
    }
  }

  /** A field with a group, put together from its parts. */
  lemma {:induction false} FieldOfParts(
      entry: bytes, open: nat, deepest: nat, name: StringToken, children: seq<FieldNode>, delimiter: byte, strict: bool, at: Position)
    requires FirstUnquoted(entry, LBRACE, 0) == Some(open) && open + 1 < |entry|
    requires MatchFrom(entry, open, false, 0, 0) == Some(Closing(|entry| - 1, deepest))
    requires NameOf(Trim(entry[..open]), at) == Good(name)
    requires FieldsOf(entry[open + 1..|entry| - 1], delimiter, strict, at, []) == Good(children)
    ensures FieldOf(entry, delimiter, strict, at) == Good(FieldNode(name, children))
  {
  }

  lemma {:induction false} GroupFieldReads(node: ShapeNode, delimiter: byte, strict: bool, at: Position, entry: bytes, open: nat)
    requires IsDelimiter(delimiter) && WellNamed(node.children) && node.children != []
    requires entry == NodeText(node, delimiter) && open == |KeyText(node.wire)|
    requires FirstUnquoted(entry, LBRACE, 0) == Some(open)
    ensures FieldOf(entry, delimiter, strict, at) == Good(NodeOf(node))
    decreases node, 0
  {
    GroupSlices(KeyText(node.wire), GroupText(node.children, delimiter), entry);
    KeyIsTrimmed(node.wire);
    TrimOfTrimmed(KeyText(node.wire));
    KeyReads(node.wire, at);
    GroupReads(node.children, delimiter, strict, at, []);
    assert [] + NodesOf(node.children) == NodesOf(node.children);
    OuterGroup(node, delimiter, entry, open);
    FieldOfParts(entry, open, Braces(node.children), KeyToken(node.wire), NodesOf(node.children), delimiter, strict, at);
  }

  lemma {:induction false} OuterGroup(node: ShapeNode, delimiter: byte, entry: bytes, open: nat)
    requires IsDelimiter(delimiter) && node.children != []
    requires entry == NodeText(node, delimiter) && open == |KeyText(node.wire)| < |entry|
    ensures MatchFrom(entry, open, false, 0, 0) == Some(Closing(|entry| - 1, Braces(node.children)))
  {
    var braced := BracedGroup(node.children, delimiter);
    MatchOuter(node.children, [], delimiter);
    assert braced + [] == braced;
    MatchFromOpen(entry, open, braced, Closing(|braced| - 1, Braces(node.children)));
  }

  lemma {:induction false} MatchFromOpen(entry: bytes, open: nat, rest: bytes, group: Closing)
    requires open < |entry| && entry[open..] == rest && MatchBrace(rest, Outside, 0, 0) == Some(group)
    ensures MatchFrom(entry, open, false, 0, 0) == Some(Closing(open + group.close, group.deepest))
  {
  }

  lemma {:induction false} GroupSlices(key: bytes, group: bytes, entry: bytes)
    requires entry == key + ([LBRACE] + (group + [RBRACE]))
    ensures |key| + 1 < |entry| && entry[..|key|] == key && entry[|key|..] == [LBRACE] + (group + [RBRACE])
    ensures entry[|key| + 1..|entry| - 1] == group
  {
  }

  lemma {:induction false} FieldsEnd(content: bytes, delimiter: byte, strict: bool, at: Position, before: seq<FieldNode>, node: FieldNode)
    requires TopDelimiter(content, delimiter, Outside, 0).None? && Trim(content) == content != []
    requires FieldOf(content, delimiter, strict, at) == Good(node) && !HasName(before, node.name)
    ensures FieldsOf(content, delimiter, strict, at, before) == Good(before + [node])
  {
  }

  lemma {:induction false} FieldsContinue(
      content: bytes, end: nat, first: bytes, more: bytes, delimiter: byte, strict: bool, at: Position, before: seq<FieldNode>, node: FieldNode)
    requires TopDelimiter(content, delimiter, Outside, 0) == Some(end)
    requires content[..end] == first && content[end + 1..] == more && Trim(first) == first != []
    requires FieldOf(first, delimiter, strict, at) == Good(node) && !HasName(before, node.name)
    ensures FieldsOf(content, delimiter, strict, at, before) == FieldsOf(more, delimiter, strict, at, before + [node])
  {
  }

  /** A column reads as itself, and its name is new. */
  ghost predicate NewColumn(node: ShapeNode, delimiter: byte, strict: bool, at: Position, before: seq<FieldNode>) {
    var text := NodeText(node, delimiter);
    && Trim(text) == text != [] && FieldOf(text, delimiter, strict, at) == Good(NodeOf(node))
    && !HasName(before, KeyToken(node.wire))
  }

  /** The fields of a written group are its columns, whether or not duplicates are checked. */
  lemma {:induction false} GroupReads(nodes: seq<ShapeNode>, delimiter: byte, strict: bool, at: Position, before: seq<FieldNode>)
    requires IsDelimiter(delimiter) && nodes != [] && WellNamed(nodes) && Apart(before, nodes)
    ensures FieldsOf(GroupText(nodes, delimiter), delimiter, strict, at, before) == Good(before + NodesOf(nodes))
    decreases nodes
  {
    ApartStep(before, nodes);
    FirstColumnReads(nodes, delimiter, strict, at, before);
    if |nodes| == 1 {
      LastColumn(nodes, delimiter, strict, at, before);
    } else {
      GroupReads(nodes[1..], delimiter, strict, at, before + [NodeOf(nodes[0])]);
      MoreColumns(nodes, delimiter, strict, at, before);
    }
  }

  lemma {:induction false} FirstColumnReads(nodes: seq<ShapeNode>, delimiter: byte, strict: bool, at: Position, before: seq<FieldNode>)
    requires IsDelimiter(delimiter) && nodes != [] && WellNamed(nodes) && !HasName(before, KeyToken(nodes[0].wire))
    ensures NewColumn(nodes[0], delimiter, strict, at, before)
    decreases nodes, 0
  {
    NodeIsTrimmed(nodes[0], delimiter);
    TrimOfTrimmed(NodeText(nodes[0], delimiter));
    FieldReads(nodes[0], delimiter, strict, at);
  }

  lemma {:induction false} LastColumn(nodes: seq<ShapeNode>, delimiter: byte, strict: bool, at: Position, before: seq<FieldNode>)
    requires IsDelimiter(delimiter) && |nodes| == 1 && NewColumn(nodes[0], delimiter, strict, at, before)
    ensures FieldsOf(GroupText(nodes, delimiter), delimiter, strict, at, before) == Good(before + NodesOf(nodes))
  {
    var first := NodeText(nodes[0], delimiter);
    TopOverNode(nodes[0], delimiter);
    assert TopBefore(first, [], delimiter, 0, 0) && first + [] == first;
    FieldsEnd(first, delimiter, strict, at, before, NodeOf(nodes[0]));
    assert NodesOf(nodes) == [NodeOf(nodes[0])];
  }

  lemma {:induction false} MoreColumns(nodes: seq<ShapeNode>, delimiter: byte, strict: bool, at: Position, before: seq<FieldNode>)
    requires IsDelimiter(delimiter) && |nodes| > 1 && NewColumn(nodes[0], delimiter, strict, at, before)
    requires FieldsOf(GroupText(nodes[1..], delimiter), delimiter, strict, at, before + [NodeOf(nodes[0])]) ==
             Good((before + [NodeOf(nodes[0])]) + NodesOf(nodes[1..]))
    ensures FieldsOf(GroupText(nodes, delimiter), delimiter, strict, at, before) == Good(before + NodesOf(nodes))
  {
    var first, more := NodeText(nodes[0], delimiter), GroupText(nodes[1..], delimiter);
    TopAfterNode(nodes[0], more, delimiter);
    FieldsContinue(first + ([delimiter] + more), |first|, first, more, delimiter, strict, at, before, NodeOf(nodes[0]));
    Regrouped(before, [NodeOf(nodes[0])], NodesOf(nodes[1..]));
  }

  lemma {:induction false} Regrouped(a: seq<FieldNode>, b: seq<FieldNode>, c: seq<FieldNode>)
    ensures (a + b) + c == a + (b + c)
  {
  }

  /** The delimiter behind a column is the first at the top level. */
  lemma {:induction false} TopAfterNode(node: ShapeNode, more: bytes, delimiter: byte)
    requires IsDelimiter(delimiter)
    ensures var first := NodeText(node, delimiter);
            var content := first + ([delimiter] + more);
            && TopDelimiter(content, delimiter, Outside, 0) == Some(|first|)
            && content[..|first|] == first && content[|first| + 1..] == more
  {
    TopOverNode(node, delimiter);
    assert TopBefore(NodeText(node, delimiter), [delimiter] + more, delimiter, 0, 0);
  }

  /** No column of `nodes` bears a name of `before`. */
  ghost predicate Apart(before: seq<FieldNode>, nodes: seq<ShapeNode>) {
    forall wire :: NamesWire(nodes, wire) ==> !HasName(before, KeyToken(wire))
  }

  lemma {:induction false} ApartStep(before: seq<FieldNode>, nodes: seq<ShapeNode>)
    requires nodes != [] && Apart(before, nodes) && WellNamed(nodes)
    ensures !HasName(before, KeyToken(nodes[0].wire))
    ensures Apart(before + [NodeOf(nodes[0])], nodes[1..])
  {
    assert NamesWire(nodes, nodes[0].wire);
    var next := before + [NodeOf(nodes[0])];
    forall wire | NamesWire(nodes[1..], wire) ensures !HasName(next, KeyToken(wire)) {
      assert NamesWire(nodes, wire) && wire != nodes[0].wire;
      KeyTokenText(wire);
      KeyTokenText(nodes[0].wire);
      assert forall i :: 0 <= i < |before| ==> next[i] == before[i];
    }
  }
}
