/** How the bytes of a line read, in numbers: indentation, tabs, comments, blank lines, carriage returns, the
    byte-order mark (src/scan.rs). */
module LineLaws {
  import opened Bytes
  import opened Faults
  import opened Scan

  function Blanks(n: nat): (r: bytes)
    ensures |r| == n
  {
    seq(n, _ => 32)
  }

  predicate AllBlank(raw: bytes) {
    forall i :: 0 <= i < |raw| ==> raw[i] == 32 || raw[i] == 9
  }

  /** Text that starts and ends in something. */
  predicate Something(content: bytes) {
    content != [] && content[0] != 32 && content[0] != 9 && content[|content| - 1] != 32
  }

  // ----- spaces ---------------------------------------------------------------------------------------

  lemma {:induction false} SpacesLead(n: nat, rest: bytes)
    requires rest != [] && rest[0] != 32
    ensures LeadingSpaces(Blanks(n) + rest) == n
    ensures (Blanks(n) + rest)[n..] == rest
  {
    if n > 0 {
      assert (Blanks(n) + rest)[1..] == Blanks(n - 1) + rest;
      SpacesLead(n - 1, rest);
    }
  }

  lemma {:induction false} SpacesTrail(content: bytes, n: nat)
    requires content != [] && content[|content| - 1] != 32
    ensures TrimRight(content + Blanks(n)) == content
  {
    var s := content + Blanks(n);
    if n > 0 {
      assert s[..|s| - 1] == content + Blanks(n - 1);
      SpacesTrail(content, n - 1);
    } else {
      assert s == content;
    }
  }

  lemma {:induction false} LevelIs(indent: nat, width: nat, level: nat)
    requires width > 0 && level * width <= indent < (level + 1) * width
    ensures indent / width == level && (indent % width == 0 <==> indent == level * width)
  {
    var r := indent - level * width;
    assert 0 <= r < width;
    QuotientIs(level, width, r);
  }

  lemma {:induction false} QuotientIs(q: nat, width: nat, r: nat)
    requires r < width
    ensures (q * width + r) / width == q && (q * width + r) % width == r
  {
    var n := q * width + r;
    var (d, m) := (n / width, n % width);
    assert n == d * width + m && 0 <= m < width;
    if d < q { Further(d, q, width); } else if q < d { Further(q, d, width); }
  }

  lemma {:induction false} Further(a: nat, b: nat, width: nat)
    requires a < b
    ensures a * width + width <= b * width
    decreases b - a
  {
    if a + 1 < b { Further(a + 1, b, width); }
    assert (a + 1) * width == a * width + width;
  }

  // ----- lines ----------------------------------------------------------------------------------------

  /** Spaces, text, spaces: a comment if the text starts with `#`; otherwise the text, as deep as the indentation
      units that fit, from the column behind the indentation. Strict mode takes whole units only. */
  lemma {:induction false} SpacedLine(indent: nat, content: bytes, trail: nat, number: nat, strict: bool, width: nat, level: nat)
    requires width > 0 && Something(content) && level * width <= indent < (level + 1) * width
    ensures ReadLine(Blanks(indent) + content + Blanks(trail), number, strict, width) ==
            if content[0] == 35 then Comment
            else if strict && indent != level * width then Bad(Fault(InvalidIndent, number, Some(1), false))
            else if level > 256 then Bad(Fault(DepthLimit, number, Some(1), false))
            else Content(content, level, indent + 1)
  {
    var rest := content + Blanks(trail);
    var raw := Blanks(indent) + rest;
    assert Blanks(indent) + content + Blanks(trail) == raw;
    SpacesLead(indent, rest);
    SpacesTrail(content, trail);
    LevelIs(indent, width, level);
    assert raw[indent] == content[0];
    hide LeadingSpaces, TrimRight;
    if content[0] == 35 { assert content[..1] == [35]; }
  }

  /** Spaces and tabs only: a blank line. */
  lemma {:induction false} BlankLine(raw: bytes, number: nat, strict: bool, width: nat)
    requires width > 0 && AllBlank(raw)
    ensures ReadLine(raw, number, strict, width) == Blank
  {
  }

  /** Strict mode refuses a tab in the indentation, at its column. */
  lemma {:induction false} StrictTab(indent: nat, rest: bytes, number: nat, width: nat)
    requires width > 0 && rest != [] && rest[0] == 9 && !AllBlank(rest)
    ensures ReadLine(Blanks(indent) + rest, number, true, width) == Bad(Fault(TabIndent, number, Some(indent + 1), false))
  {
    var raw := Blanks(indent) + rest;
    SpacesLead(indent, rest);
    var i :| 0 <= i < |rest| && rest[i] != 32 && rest[i] != 9;
    assert raw[indent + i] == rest[i] && raw[indent] == 9;
  }

  function Tabs(run: bytes): nat {
    if run == [] then 0 else Tabs(run[..|run| - 1]) + (if run[|run| - 1] == 9 then 1 else 0)
  }

  lemma {:induction false} TabsFromFront(run: bytes)
    requires run != []
    ensures Tabs(run) == (if run[0] == 9 then 1 else 0) + Tabs(run[1..])
  {
    if |run| > 1 {
      TabsFromFront(run[..|run| - 1]);
      assert run[..|run| - 1][1..] == run[1..][..|run| - 2];
    } else {
      assert run[..0] == [] && run[1..] == [];
    }
  }

  lemma {:induction false} RunIs(run: bytes, rest: bytes)
    requires AllBlank(run) && rest != [] && rest[0] != 32 && rest[0] != 9
    ensures TabRun(run + rest) == (Tabs(run), |run|)
    ensures (run + rest)[|run|..] == rest
  {
    if run != [] {
      TabsFromFront(run);
      assert (run + rest)[1..] == run[1..] + rest;
      RunIs(run[1..], rest);
    } else {
      assert run + rest == rest;
    }
  }

  /** In lenient mode every tab of the indentation is one level more, and what follows is never a comment. */
  lemma {:induction false} LenientTabs(indent: nat, run: bytes, content: bytes, trail: nat, number: nat, width: nat, level: nat)
    requires width > 0 && Something(content) && level * width <= indent < (level + 1) * width
    requires AllBlank(run) && run != [] && run[0] == 9
    ensures ReadLine(Blanks(indent) + (run + (content + Blanks(trail))), number, false, width) ==
            if level + Tabs(run) > 256 then Bad(Fault(DepthLimit, number, Some(1), false))
            else Content(content, level + Tabs(run), indent + |run| + 1)
  {
    var text := content + Blanks(trail);
    var rest := run + text;
    var raw := Blanks(indent) + rest;
    SpacesLead(indent, rest);
    LevelIs(indent, width, level);
    assert raw[indent] == 9 && raw[indent + |run|] == content[0];
    hide LeadingSpaces, ReadTabbed, Tabs;
    TabbedLine(raw, indent, run, content, trail, number, width);
  }

  lemma {:induction false} TabbedLine(raw: bytes, indent: nat, run: bytes, content: bytes, trail: nat, number: nat, width: nat)
    requires width > 0 && Something(content) && AllBlank(run) && indent <= |raw| && raw[indent..] == run + (content + Blanks(trail))
    ensures ReadTabbed(raw, indent, number, width) ==
            if indent / width + Tabs(run) > 256 then Bad(Fault(DepthLimit, number, Some(1), false))
            else Content(content, indent / width + Tabs(run), indent + |run| + 1)
  {
    var text := content + Blanks(trail);
    assert text[0] == content[0];
    RunIs(run, text);
    SpacesTrail(content, trail);
    assert raw[indent + |run|..] == raw[indent..][|run|..];
    hide TrimRight, TabRun, Tabs, Blanks;
  }

  // ----- marks ----------------------------------------------------------------------------------------

  /** The first line loses a byte-order mark, and any line one carriage return at its end. */
  lemma {:induction false} MarksAreStripped(marked: bool, raw: bytes, returned: bool, number: nat)
    requires marked ==> number == 1
    requires !marked && number == 1 ==> !StartsWith(raw + (if returned then [13] else []), [239, 187, 191])
    requires !returned && raw != [] ==> raw[|raw| - 1] != 13
    ensures StripMarks((if marked then [239, 187, 191] else []) + raw + (if returned then [13] else []), number) == raw
  {
    var tail := raw + (if returned then [13] else []);
    var all := (if marked then [239, 187, 191] else []) + raw + (if returned then [13] else []);
    if marked {
      assert all[..3] == BOM && all[3..] == tail;
    } else {
      assert all == tail;
    }
    if returned { assert tail[..|tail| - 1] == raw; }
  }

  // ----- the stream -----------------------------------------------------------------------------------

  lemma {:induction false} FeedIs(line: bytes, rest: bytes)
    requires 10 !in line
    ensures IndexOf(line + [10] + rest, 10) == Some(|line|)
  {
    var s := line + [10] + rest;
    if line != [] {
      assert s[1..] == line[1..] + [10] + rest;
      FeedIs(line[1..], rest);
    }
  }

  /** What a line that reads like this makes of the lines behind it. A line counts as standing behind a blank one if
      blank lines, and comments among them, are all there is since the line before it. */
  function Then(reading: Reading, rest: LineStream, restBlank: LineStream, same: LineStream, number: nat, blank: bool): LineStream {
    match reading
    case Content(content, depth, column) => More(Line(content, depth, Position(number, column), blank), rest)
    case Blank => restBlank
    case Comment => same
    case Bad(fault) => Broken(fault)
  }

  lemma {:induction false} FirstLineIs(line: bytes, rest: bytes)
    requires 10 !in line
    ensures var text := line + [10] + rest; text != [] && LineWidth(text) == |line| && text[..|line|] == line && AfterLine(text) == rest
  {
    FeedIs(line, rest);
  }

  lemma {:induction false} FirstIsRead(text: bytes, line: bytes, rest: bytes, number: nat, strict: bool, width: nat, blank: bool)
    requires width > 0 && text != [] && LineWidth(text) == |line| && text[..|line|] == line && AfterLine(text) == rest
    ensures LinesOf(text, number, strict, width, blank) ==
            Then(ReadLine(StripMarks(line, number + 1), number + 1, strict, width),
                 LinesOf(rest, number + 1, strict, width, false), LinesOf(rest, number + 1, strict, width, true),
                 LinesOf(rest, number + 1, strict, width, blank), number + 1, blank)
  {
    hide ReadLine, StripMarks, LineWidth, AfterLine;
  }

  /** The lines of a text are read one by one, each up to its line feed. */
  lemma {:induction false} LinesAreRead(line: bytes, rest: bytes, number: nat, strict: bool, width: nat, blank: bool)
    requires width > 0 && 10 !in line
    ensures LinesOf(line + [10] + rest, number, strict, width, blank) ==
            Then(ReadLine(StripMarks(line, number + 1), number + 1, strict, width),
                 LinesOf(rest, number + 1, strict, width, false), LinesOf(rest, number + 1, strict, width, true),
                 LinesOf(rest, number + 1, strict, width, blank), number + 1, blank)
  {
    FirstLineIs(line, rest);
    hide *;
    FirstIsRead(line + [10] + rest, line, rest, number, strict, width, blank);
  }

  /** The last line needs no line feed; a text that is used up ends. */
  lemma {:induction false} LastLineIsRead(line: bytes, number: nat, strict: bool, width: nat, blank: bool)
    requires width > 0 && 10 !in line && line != []
    ensures LinesOf(line, number, strict, width, blank) ==
            Then(ReadLine(StripMarks(line, number + 1), number + 1, strict, width), End(number + 1), End(number + 1), End(number + 1), number + 1, blank)
    ensures LinesOf([], number, strict, width, blank) == End(number)
  {
    assert line[..|line|] == line;
    FirstIsRead(line, line, [], number, strict, width, blank);
    hide ReadLine, StripMarks;
  }
}
