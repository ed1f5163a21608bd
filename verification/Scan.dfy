/** The line scanner and its one-line lookahead (src/scan.rs). */
module Scan {
  import opened Bytes
  import opened Faults
  import Cells

  const MAX_NESTING_DEPTH: nat := 256

  datatype Line = Line(content: bytes, depth: nat, at: Position, blankBefore: bool)

  // ----- what a document's lines are -------------------------------------------

  /** The lines a scanner still has to deliver, up to the end of the document or its first fault. */
  datatype LineStream =
    | More(line: Line, rest: LineStream)
    | End(lastLine: nat)
    | Broken(fault: Fault)

  function Size(stream: LineStream): nat {
    if stream.More? then 1 + Size(stream.rest) else 0
  }

  /** No line lies deeper than the nesting limit. */
  predicate DepthBounded(stream: LineStream) {
    stream.More? ==> stream.line.depth <= MAX_NESTING_DEPTH && DepthBounded(stream.rest)
  }

  /** The document scans to its end. */
  predicate Unbroken(stream: LineStream) {
    match stream
    case More(_, rest) => Unbroken(rest)
    case End(_) => true
    case Broken(_) => false
  }

  /** What parsing a part of `stream` may leave of it. */
  predicate Behind(rest: LineStream, stream: LineStream) {
    && Size(rest) <= Size(stream)
    && (DepthBounded(stream) ==> DepthBounded(rest))
    && (Unbroken(rest) ==> Unbroken(stream))
  }

  datatype Reading =
    | Blank
    | Comment
    | Content(content: bytes, depth: nat, column: nat)
    | Bad(fault: Fault)

  predicate IsBlank(raw: bytes) {
    forall i :: 0 <= i < |raw| ==> raw[i] == SPACE || raw[i] == TAB
  }

  /** The length of the run of spaces that starts `raw`. */
  function LeadingSpaces(raw: bytes): (n: nat)
    ensures n <= |raw| && (n < |raw| ==> raw[n] != SPACE)
  {
    if raw != [] && raw[0] == SPACE then 1 + LeadingSpaces(raw[1..]) else 0
  }

  /** Tabs in the run of tabs and spaces that starts `s`, and the length of the run. */
  function TabRun(s: bytes): (r: (nat, nat))
    ensures r.1 <= |s|
  {
    if s == [] || (s[0] != TAB && s[0] != SPACE) then (0, 0)
    else
      var (tabs, length) := TabRun(s[1..]);
      (tabs + (if s[0] == TAB then 1 else 0), length + 1)
  }

  /** The first line loses a byte-order mark, every line its carriage return. */
  function StripMarks(raw: bytes, number: nat): bytes {
    var body := if number == 1 && StartsWith(raw, BOM) then raw[3..] else raw;
    if body != [] && body[|body| - 1] == CR then body[..|body| - 1] else body
  }

  function DepthFault(number: nat): Fault {
    Fault(DepthLimit, number, Some(1), false)
  }

  /** Whole indentation units in `indent` spaces. */
  function Levels(indent: nat, indentSize: nat): nat
    requires indentSize > 0
  {
    indent / indentSize
  }

  predicate Aligned(indent: nat, indentSize: nat)
    requires indentSize > 0
  {
    indent % indentSize == 0
  }

  /** Non-strict leniency: every tab of the indentation counts as one level. */
  function ReadTabbed(raw: bytes, indent: nat, number: nat, indentSize: nat): Reading
    requires indent <= |raw| && indentSize > 0
  {
    var run := TabRun(raw[indent..]);
    var levels := Levels(indent, indentSize) + run.0;
    var content := TrimRight(raw[indent + run.1..]);
    if content == [] then Blank
    else if levels > MAX_NESTING_DEPTH then Bad(DepthFault(number))
    else Content(content, levels, indent + run.1 + 1)
  }

  function ReadIndented(raw: bytes, indent: nat, number: nat, strict: bool, indentSize: nat): Reading
    requires indent <= |raw| && indentSize > 0
  {
    var content := TrimRight(raw[indent..]);
    if StartsWith(content, [HASH]) then Comment
    else if strict && !Aligned(indent, indentSize) then Bad(Fault(InvalidIndent, number, Some(1), false))
    else if Levels(indent, indentSize) > MAX_NESTING_DEPTH then Bad(DepthFault(number))
    else Content(content, Levels(indent, indentSize), indent + 1)
  }

  /** How one raw line reads, its marks already stripped. */
  function ReadLine(raw: bytes, number: nat, strict: bool, indentSize: nat): Reading
    requires indentSize > 0
  {
    var indent := LeadingSpaces(raw);
    if IsBlank(raw) then Blank
    else if At(raw, indent) != Some(TAB) then ReadIndented(raw, indent, number, strict, indentSize)
    else if strict then Bad(Fault(TabIndent, number, Some(indent + 1), false))
    else ReadTabbed(raw, indent, number, indentSize)
  }

  function LineWidth(tail: bytes): (w: nat)
    ensures w <= |tail|
  {
    match IndexOf(tail, LF) case None => |tail| case Some(k) => k
  }

  /** The bytes after the first line of `tail` and its line feed. */
  function AfterLine(tail: bytes): (rest: bytes)
    ensures tail != [] ==> |rest| < |tail|
  {
    if LineWidth(tail) < |tail| then tail[LineWidth(tail) + 1..] else []
  }

  /** The lines of `tail`, whose first line has number `number + 1`. */
  function LinesOf(tail: bytes, number: nat, strict: bool, indentSize: nat, blank: bool): LineStream
    requires indentSize > 0
    decreases |tail|, 0
  {
    if tail == [] then End(number)
    else
      var reading := ReadLine(StripMarks(tail[..LineWidth(tail)], number + 1), number + 1, strict, indentSize);
      LinesBehind(reading, AfterLine(tail), number + 1, strict, indentSize, blank)
  }

  /** The line with number `number` as it reads, and the lines of `next` behind it. */
  function LinesBehind(reading: Reading, next: bytes, number: nat, strict: bool, indentSize: nat, blank: bool): LineStream
    requires indentSize > 0
    decreases |next|, 1
  {
    match reading
    case Blank => LinesOf(next, number, strict, indentSize, true)
    case Comment => LinesOf(next, number, strict, indentSize, blank)
    case Bad(fault) => Broken(fault)
    case Content(content, depth, column) =>
      More(Line(content, depth, Position(number, column), blank), LinesOf(next, number, strict, indentSize, false))
  }

  predicate Shallow(reading: Reading) {
    reading.Content? ==> reading.depth <= MAX_NESTING_DEPTH
  }

  lemma {:induction false} ReadingIsShallow(raw: bytes, number: nat, strict: bool, indentSize: nat)
    requires indentSize > 0
    ensures Shallow(ReadLine(raw, number, strict, indentSize))
  {
  }

  /** The scanner's own gate bounds every line depth, whatever the document. */
  lemma {:induction false} ScannedDepthIsBounded(tail: bytes, number: nat, strict: bool, indentSize: nat, blank: bool)
    requires indentSize > 0
    ensures DepthBounded(LinesOf(tail, number, strict, indentSize, blank))
    decreases |tail|, 0
  {
    if tail != [] {
      var raw := StripMarks(tail[..LineWidth(tail)], number + 1);
      ReadingIsShallow(raw, number + 1, strict, indentSize);
      DepthBehindIsBounded(ReadLine(raw, number + 1, strict, indentSize), AfterLine(tail), number + 1, strict, indentSize, blank);
    }
  }

  lemma {:induction false} DepthBehindIsBounded(
      reading: Reading, next: bytes, number: nat, strict: bool, indentSize: nat, blank: bool)
    requires indentSize > 0 && Shallow(reading)
    ensures DepthBounded(LinesBehind(reading, next, number, strict, indentSize, blank))
    decreases |next|, 1
  {
    match reading
    case Blank => ScannedDepthIsBounded(next, number, strict, indentSize, true);
    case Comment => ScannedDepthIsBounded(next, number, strict, indentSize, blank);
    case Bad(_) =>
    case Content(_, _, _) => ScannedDepthIsBounded(next, number, strict, indentSize, false);
  }

  // ----- the scanner -----------------------------------------------------------

  class Scanner {
    const input: bytes
    const strict: bool
    const indentSize: nat
    var offset: nat
    var line: nat

    constructor (input: bytes, strict: bool, indentSize: nat)
      requires indentSize > 0
      ensures Valid() && this.input == input && this.strict == strict && this.indentSize == indentSize
      ensures Remaining(false) == LinesOf(input, 0, strict, indentSize, false)
    {
      this.input := input;
      this.strict := strict;
      this.indentSize := indentSize;
      offset := 0;
      line := 0;
      new;
      assert input[0..] == input;
    }

    ghost predicate Valid()
      reads this
    {
      offset <= |input| && indentSize > 0
    }

    /** The lines ahead, `blank` telling whether a blank line was just skipped. */
    ghost function Remaining(blank: bool): LineStream
      requires Valid()
      reads this
    {
      LinesOf(input[offset..], line, strict, indentSize, blank)
    }

    /** Read one raw line as `ReadLine` does, by moving cursors over its bytes. */
    method Read(raw: bytes, number: nat) returns (reading: Reading)
      requires Valid()
      ensures reading == ReadLine(raw, number, strict, indentSize)
    {
      if IsBlank(raw) { return Blank; }
      var indent := 0;
      assert raw[0..] == raw;
      while indent < |raw| && raw[indent] == SPACE
        invariant indent <= |raw|
        invariant forall i :: 0 <= i < indent ==> raw[i] == SPACE
        invariant LeadingSpaces(raw) == indent + LeadingSpaces(raw[indent..])
      {
        assert raw[indent..][1..] == raw[indent + 1..];
        indent := indent + 1;
      }
      if raw[indent] != TAB {
        reading := ReadSpaced(raw, indent, number);
      } else if strict {
        reading := Bad(Fault(TabIndent, number, Some(indent + 1), false));
      } else {
        reading := ReadLenient(raw, indent, number);
      }
    }

    method CountTabs(raw: bytes, indent: nat) returns (cursor: nat, tabs: nat)
      requires indent <= |raw|
      ensures TabRun(raw[indent..]) == (tabs, cursor - indent) && indent <= cursor <= |raw|
    {
      cursor, tabs := indent, 0;
      while cursor < |raw| && (raw[cursor] == TAB || raw[cursor] == SPACE)
        invariant indent <= cursor <= |raw|
        invariant TabRun(raw[indent..]).0 == tabs + TabRun(raw[cursor..]).0
        invariant TabRun(raw[indent..]).1 == cursor - indent + TabRun(raw[cursor..]).1
      {
        assert raw[cursor..][1..] == raw[cursor + 1..];
        tabs := tabs + (if raw[cursor] == TAB then 1 else 0);
        cursor := cursor + 1;
      }
    }

    method ReadLenient(raw: bytes, indent: nat, number: nat) returns (reading: Reading)
      requires Valid() && indent <= |raw|
      ensures reading == ReadTabbed(raw, indent, number, indentSize)
    {
      var cursor, tabs := CountTabs(raw, indent);
      var levels := Levels(indent, indentSize) + tabs;
      var content := TrimEnd(raw[cursor..]);
      if content == [] { return Blank; }
      if levels > MAX_NESTING_DEPTH { return Bad(DepthFault(number)); }
      return Content(content, levels, cursor + 1);
    }

    method ReadSpaced(raw: bytes, indent: nat, number: nat) returns (reading: Reading)
      requires Valid() && indent <= |raw|
      ensures reading == ReadIndented(raw, indent, number, strict, indentSize)
    {
      var content := TrimEnd(raw[indent..]);
      if StartsWith(content, [HASH]) { return Comment; }
      if strict && !Aligned(indent, indentSize) { return Bad(Fault(InvalidIndent, number, Some(1), false)); }
      if Levels(indent, indentSize) > MAX_NESTING_DEPTH { return Bad(DepthFault(number)); }
      return Content(content, Levels(indent, indentSize), indent + 1);
    }

    method TrimEnd(s: bytes) returns (content: bytes)
      ensures content == TrimRight(s)
    {
      var end := |s|;
      assert s[..end] == s;
      while end > 0 && s[end - 1] == SPACE
        invariant end <= |s|
        invariant TrimRight(s[..end]) == TrimRight(s)
      {
        assert s[..end][..end - 1] == s[..end - 1];
        end := end - 1;
      }
      content := s[..end];
    }

    /** Cut the next raw line off the input; `line` becomes its number. */
    method Cut() returns (raw: bytes)
      requires Valid() && offset < |input|
      modifies this
      ensures Valid() && offset > old(offset) && line == old(line) + 1
      ensures raw == old(input[offset..])[..LineWidth(old(input[offset..]))]
      ensures input[offset..] == AfterLine(old(input[offset..]))
    {
      ghost var tail := input[offset..];
      var width := LineWidth(input[offset..]);
      raw := input[offset..offset + width];
      assert raw == tail[..width];
      if width < |input| - offset {
        assert tail[width + 1..] == input[offset + width + 1..];
        offset := offset + width + 1;
      } else {
        offset := offset + width;
      }
      line := line + 1;
    }

    /** Read one raw line; the lines ahead are those before it, less the line itself. */
    method ReadNext(ghost blank: bool) returns (reading: Reading)
      requires Valid() && offset < |input|
      modifies this
      ensures Valid() && offset > old(offset)
      ensures old(Remaining(blank)) == LinesBehind(reading, input[offset..], line, strict, indentSize, blank)
    {
      var raw := Cut();
      reading := Read(StripMarks(raw, line), line);
    }

    /** Deliver the next content line, skipping blank lines and comments. */
    method NextLine() returns (r: Result<Option<Line>>)
      requires Valid()
      modifies this
      ensures Valid()
      ensures match old(Remaining(false))
              case More(l, rest) => r == Ok(Some(l)) && Remaining(false) == rest
              case End(n) => r == Ok(None) && offset == |input| && line == n
              case Broken(fault) => r == Err(fault)
    {
      var blankBefore := false;
      while offset < |input|
        invariant Valid()
        invariant Remaining(blankBefore) == old(Remaining(false))
        decreases |input| - offset
      {
        var reading := ReadNext(blankBefore);
        match reading
        case Blank => blankBefore := true;
        case Comment =>
        case Bad(fault) => return Err(fault);
        case Content(content, depth, column) =>
          return Ok(Some(Line(content, depth, Position(line, column), blankBefore)));
      }
      return Ok(None);
    }
  }

  /** Stating `Look(0)` brings an equation guarded by `Look` into a proof that needs it. */
  ghost predicate Look(hint: int) { true }

  /** A one-line lookahead over the scanner. */
  class Lines {
    const scanner: Scanner
    var peeked: Option<Option<Line>>
    /** The lines the parser has not consumed, the peeked one included. */
    ghost var ahead: LineStream

    constructor (input: bytes, strict: bool, indentSize: nat)
      requires indentSize > 0
      ensures Valid() && fresh(scanner)
      ensures ahead == LinesOf(input, 0, strict, indentSize, false)
    {
      scanner := new Scanner(input, strict, indentSize);
      peeked := None;
      ahead := LinesOf(input, 0, strict, indentSize, false);
    }

    ghost predicate Valid()
      reads this, scanner
    {
      && scanner.Valid()
      && (peeked == Some(None) ==> scanner.offset == |scanner.input| && ahead == End(scanner.line))
      && (forall hint :: Look(hint) ==> ahead == Unread())
    }

    ghost function Unread(): LineStream
      requires scanner.Valid()
      reads this, scanner
    {
      if peeked.None? || peeked.value.None? then scanner.Remaining(false)
      else More(peeked.value.value, scanner.Remaining(false))
    }

    method Peek() returns (r: Result<Option<Line>>)
      requires Valid()
      modifies this, scanner
      ensures match old(ahead)
              case More(l, _) => r == Ok(Some(l)) && Valid() && ahead == old(ahead)
              case End(_) => r == Ok(None) && Valid() && ahead == old(ahead) && peeked == Some(None)
              case Broken(fault) => r == Err(fault)
    {
      assert Look(0);
      if peeked.None? {
        var next :- scanner.NextLine();
        peeked := Some(next);
      }
      return Ok(peeked.value);
    }

    method Advance() returns (r: Result<Option<Line>>)
      requires Valid()
      modifies this, scanner
      ensures match old(ahead)
              case More(l, rest) => r == Ok(Some(l)) && Valid() && ahead == rest
              case End(_) => r == Ok(None) && Valid() && ahead == old(ahead)
              case Broken(fault) => r == Err(fault)
    {
      assert Look(0);
      ahead := if ahead.More? then ahead.rest else ahead;
      if peeked.Some? {
        r := Ok(peeked.value);
        peeked := None;
      } else {
        r := scanner.NextLine();
      }
    }

    /** The number of the last line read; at the end of the document, the number of its last line. */
    method CurrentLineNumber() returns (n: nat)
      requires Valid()
      ensures peeked == Some(None) ==> ahead == End(n)
    {
      n := scanner.line;
    }
  }
}
