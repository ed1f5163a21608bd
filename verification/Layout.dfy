/** The encoder's lines as the scanner reads them back (src/encode.rs, src/scan.rs). */
module Layout {
  import opened Bytes
  import opened Faults
  import opened Scan
  import opened Render
  import opened Utf8
  import Output
  import Cells

  // ----- streams that start with given lines ---------------------------------------

  /** `stream` starts with `lines`, spaces at their ends gone and no blank line among them. */
  predicate Shows(stream: LineStream, lines: seq<OutLine>) {
    lines == [] || (stream.More? && IsLine(stream.line, lines[0]) && Shows(stream.rest, lines[1..]))
  }

  predicate IsLine(line: Line, out: OutLine) {
    line.depth == out.depth && line.content == TrimRight(out.content) && !line.blankBefore
  }

  function Drop(stream: LineStream, n: nat): LineStream {
    if n == 0 || !stream.More? then stream else Drop(stream.rest, n - 1)
  }

  lemma {:induction false} ShowsConcat(stream: LineStream, a: seq<OutLine>, b: seq<OutLine>)
    ensures Shows(stream, a + b) <==> Shows(stream, a) && Shows(Drop(stream, |a|), b)
    ensures Shows(stream, a) ==> Drop(stream, |a + b|) == Drop(Drop(stream, |a|), |b|)
  {
    if a == [] {
      assert a + b == b;
    } else {
      assert (a + b)[0] == a[0] && (a + b)[1..] == a[1..] + b;
      if stream.More? { ShowsConcat(stream.rest, a[1..], b); }
    }
  }

  // ----- lines the scanner delivers -------------------------------------------------

  predicate Printable(s: bytes) {
    forall i :: 0 <= i < |s| ==> s[i] >= 0x20 || s[i] == TAB
  }

  /** A line's content that is neither blank, nor indentation, nor a comment, nor broken in two. */
  predicate Writable(content: bytes) {
    && content != [] && content[0] != SPACE && content[0] != TAB && content[0] != HASH
    && Printable(content) && ValidUtf8(content)
  }

  lemma {:induction false} LeadingSpacesOf(n: nat, content: bytes)
    requires content != [] && content[0] != SPACE
    ensures LeadingSpaces(Spaces(n) + content) == n
  {
    var raw := Spaces(n) + content;
    if n > 0 {
      assert raw[1..] == Spaces(n - 1) + content;
      LeadingSpacesOf(n - 1, content);
    }
  }

  lemma {:induction false} WholeLevels(depth: nat, width: nat)
    requires width > 0
    ensures Levels(depth * width, width) == depth && Aligned(depth * width, width)
  {
    if depth > 0 {
      WholeLevels(depth - 1, width);
      assert depth * width == (depth - 1) * width + width;
    }
  }

  function WrittenReading(depth: nat, content: bytes, number: nat, indent: nat): Reading {
    if depth > MAX_NESTING_DEPTH then Bad(DepthFault(number)) else Content(TrimRight(content), depth, indent + 1)
  }

  lemma {:induction false} IndentedReads(raw: bytes, indent: nat, depth: nat, content: bytes, number: nat, width: nat, strict: bool)
    requires Writable(content) && width > 0 && indent <= |raw| && raw[indent..] == content
    requires Levels(indent, width) == depth && Aligned(indent, width)
    ensures ReadIndented(raw, indent, number, strict, width) == WrittenReading(depth, content, number, indent)
  {
    Cells.TrimRightShape(content);
  }

  /** How a written line reads: at its own depth, unless that exceeds the limit. */
  lemma {:induction false} WrittenLineReads(depth: nat, content: bytes, number: nat, width: nat, strict: bool)
    requires Writable(content) && width > 0
    ensures ReadLine(Spaces(depth * width) + content, number, strict, width) == WrittenReading(depth, content, number, depth * width)
  {
    var indent := depth * width;
    var raw := Spaces(indent) + content;
    LeadingSpacesOf(indent, content);
    assert raw[indent] == content[0];
    WholeLevels(depth, width);
    IndentedReads(raw, indent, depth, content, number, width, strict);
  }

  lemma {:induction false} NoMarks(depth: nat, content: bytes, number: nat, width: nat)
    requires Writable(content) && width > 0 && (number == 1 ==> !StartsWith(content, BOM))
    ensures StripMarks(Spaces(depth * width) + content, number) == Spaces(depth * width) + content
  {
    var raw := Spaces(depth * width) + content;
    assert raw[|raw| - 1] == content[|content| - 1];
    if depth * width > 0 { assert raw[0] == SPACE; } else { assert raw == content; }
  }

  lemma {:induction false} FirstFeed(line: bytes, rest: bytes)
    requires LF !in line
    ensures IndexOf(line + ([LF] + rest), LF) == Some(|line|)
  {
    var s := line + ([LF] + rest);
    if line != [] {
      assert s[1..] == line[1..] + ([LF] + rest);
      FirstFeed(line[1..], rest);
    }
  }

  lemma {:induction false} PrintableHasNoFeed(depth: nat, content: bytes, width: nat)
    requires Printable(content)
    ensures LF !in Spaces(depth * width) + content
  {
  }

  predicate AllWritable(lines: seq<OutLine>) {
    forall i :: 0 <= i < |lines| ==> Writable(lines[i].content)
  }

  lemma {:induction false} WritableTail(lines: seq<OutLine>)
    requires lines != [] && AllWritable(lines)
    ensures Writable(lines[0].content) && AllWritable(lines[1..])
  {
    forall i | 0 <= i < |lines| - 1 ensures Writable(lines[1..][i].content) { assert lines[1..][i] == lines[i + 1]; }
  }

  predicate WithinLimit(lines: seq<OutLine>) {
    forall i :: 0 <= i < |lines| ==> lines[i].depth <= MAX_NESTING_DEPTH
  }

  /** A byte-order mark where the scanner would take it for one. */
  predicate Marked(lines: seq<OutLine>) {
    lines != [] && StartsWith(lines[0].content, BOM)
  }

  lemma {:induction false} EncodedCons(lines: seq<OutLine>, width: nat)
    requires lines != []
    ensures Encoded(lines, width) ==
            (Spaces(lines[0].depth * width) + lines[0].content) + (if |lines| == 1 then [] else [LF] + Encoded(lines[1..], width))
  {
    var raw, rest := Spaces(lines[0].depth * width) + lines[0].content, Flat(lines[1..], width);
    if |lines| == 1 {
      assert Flat(lines, width) == raw + [LF] + [];
    } else {
      FlatEnds(lines[1..], width);
      assert Flat(lines, width) == raw + [LF] + rest;
      assert (raw + [LF] + rest)[..|raw| + |rest|] == raw + ([LF] + rest[..|rest| - 1]);
    }
  }

  lemma {:induction false} FlatEnds(lines: seq<OutLine>, width: nat)
    requires lines != []
    ensures Flat(lines, width) != [] && Flat(lines, width)[|Flat(lines, width)| - 1] == LF
  {
    if |lines| > 1 { FlatEnds(lines[1..], width); }
  }

  /** The document is its lines, each ended by a line feed but the last. */
  lemma {:induction false} EncodedEndsNoLine(lines: seq<OutLine>, width: nat)
    ensures lines == [] ==> Encoded(lines, width) == []
    ensures lines != [] ==> Encoded(lines, width) + [LF] == Flat(lines, width)
  {
    if lines != [] { FlatEnds(lines, width); }
  }

  /** The first raw line of the written text, and what stands behind it. */
  lemma {:induction false} FirstLine(lines: seq<OutLine>, text: bytes, width: nat)
    requires lines != [] && AllWritable(lines) && text == Encoded(lines, width)
    ensures text != [] && text[..LineWidth(text)] == Spaces(lines[0].depth * width) + lines[0].content
    ensures AfterLine(text) == Encoded(lines[1..], width)
  {
    EncodedCons(lines, width);
    PrintableHasNoFeed(lines[0].depth, lines[0].content, width);
    var raw := Spaces(lines[0].depth * width) + lines[0].content;
    if |lines| == 1 {
      assert raw + [] == raw;
      assert Encoded(lines[1..], width) == [];
    } else {
      FirstFeed(raw, Encoded(lines[1..], width));
    }
  }

  /** `stream` is just `lines`, or `lines` up to the first that lies too deep. */
  predicate Scans(stream: LineStream, lines: seq<OutLine>) {
    if lines == [] then stream.End?
    else if lines[0].depth > MAX_NESTING_DEPTH then stream.Broken?
    else stream.More? && IsLine(stream.line, lines[0]) && Scans(stream.rest, lines[1..])
  }

  /** The scanner of a text delivers `lines`; `Look` brings the claim into view. */
  ghost predicate ScannedAs(text: bytes, number: nat, width: nat, lines: seq<OutLine>, strict: bool)
    requires width > 0
  {
    forall hint :: Look(hint) ==> Scans(LinesOf(text, number, strict, width, false), lines)
  }

  lemma {:induction false} EndOfText(text: bytes, number: nat, width: nat, strict: bool)
    requires width > 0 && text == Encoded([], width)
    ensures ScannedAs(text, number, width, [], strict)
  {
  }

  /** The scanner delivers the written lines, or breaks off when one lies too deep. */
  lemma {:induction false} WrittenLinesScan(lines: seq<OutLine>, number: nat, width: nat, strict: bool)
    requires width > 0 && AllWritable(lines) && (number == 0 ==> !Marked(lines))
    ensures ScannedAs(Encoded(lines, width), number, width, lines, strict)
    decreases |lines|
  {
    if lines == [] {
      EndOfText(Encoded(lines, width), number, width, strict);
    } else {
      WritableTail(lines);
      hide ScannedAs, Encoded, AllWritable;
      WrittenLinesScan(lines[1..], number + 1, width, strict);
      MoreLinesScan(lines, number, width, strict);
    }
  }

  lemma {:induction false} MoreLinesScan(lines: seq<OutLine>, number: nat, width: nat, strict: bool)
    requires width > 0 && lines != [] && AllWritable(lines) && (number == 0 ==> !Marked(lines))
    requires ScannedAs(Encoded(lines[1..], width), number + 1, width, lines[1..], strict)
    ensures ScannedAs(Encoded(lines, width), number, width, lines, strict)
  {
    FirstLine(lines, Encoded(lines, width), width);
    FirstLineScans(lines, Encoded(lines, width), number, width, strict);
  }

  /** The stream of a text whose first raw line reads as `reading`. */
  lemma {:induction false} StreamOfFirst(text: bytes, raw: bytes, reading: Reading, number: nat, width: nat, strict: bool)
    requires text != [] && width > 0 && text[..LineWidth(text)] == raw && StripMarks(raw, number + 1) == raw
    requires ReadLine(raw, number + 1, strict, width) == reading
    ensures LinesOf(text, number, strict, width, false) == LinesBehind(reading, AfterLine(text), number + 1, strict, width, false)
  {
  }

  lemma {:induction false} FirstLineReads(first: OutLine, text: bytes, number: nat, width: nat, strict: bool)
    requires width > 0 && Writable(first.content) && (number == 0 ==> !StartsWith(first.content, BOM))
    requires text != [] && text[..LineWidth(text)] == Spaces(first.depth * width) + first.content
    ensures LinesOf(text, number, strict, width, false) ==
            LinesBehind(WrittenReading(first.depth, first.content, number + 1, first.depth * width), AfterLine(text), number + 1, strict, width, false)
  {
    NoMarks(first.depth, first.content, number + 1, width);
    WrittenLineReads(first.depth, first.content, number + 1, width, strict);
    StreamOfFirst(text, Spaces(first.depth * width) + first.content,
                  WrittenReading(first.depth, first.content, number + 1, first.depth * width), number, width, strict);
  }

  lemma {:induction false} FirstLineScans(lines: seq<OutLine>, text: bytes, number: nat, width: nat, strict: bool)
    requires width > 0 && lines != [] && Writable(lines[0].content) && (number == 0 ==> !Marked(lines))
    requires text != [] && text[..LineWidth(text)] == Spaces(lines[0].depth * width) + lines[0].content
    requires ScannedAs(AfterLine(text), number + 1, width, lines[1..], strict)
    ensures ScannedAs(text, number, width, lines, strict)
  {
    assert Look(0);
    FirstLineReads(lines[0], text, number, width, strict);
    ScansBehind(lines, LinesOf(text, number, strict, width, false),
                WrittenReading(lines[0].depth, lines[0].content, number + 1, lines[0].depth * width), AfterLine(text), number + 1, width, strict);
  }

  lemma {:induction false} ScansBehind(lines: seq<OutLine>, stream: LineStream, reading: Reading, next: bytes, number: nat, width: nat, strict: bool)
    requires lines != [] && width > 0
    requires reading == WrittenReading(lines[0].depth, lines[0].content, number, lines[0].depth * width)
    requires Scans(LinesOf(next, number, strict, width, false), lines[1..])
    requires stream == LinesBehind(reading, next, number, strict, width, false)
    ensures Scans(stream, lines)
  {
  }

  lemma {:induction false} ScannedLinesShow(stream: LineStream, lines: seq<OutLine>)
    requires Scans(stream, lines)
    ensures WithinLimit(lines) ==> Shows(stream, lines) && Drop(stream, |lines|).End?
    ensures !WithinLimit(lines) ==> !Unbroken(stream)
  {
    if lines != [] {
      WithinLimitCons(lines);
      if stream.More? { ScannedLinesShow(stream.rest, lines[1..]); }
    }
  }

  lemma {:induction false} WithinLimitCons(lines: seq<OutLine>)
    requires lines != []
    ensures WithinLimit(lines) <==> lines[0].depth <= MAX_NESTING_DEPTH && WithinLimit(lines[1..])
  {
    assert forall i :: 0 < i < |lines| ==> lines[i] == lines[1..][i - 1];
  }

  // ----- UTF-8 ---------------------------------------------------------------------

  lemma {:induction false} LineIsUtf8(depth: nat, content: bytes, width: nat)
    requires ValidUtf8(content)
    ensures ValidUtf8(Spaces(depth * width) + content)
  {
    ValidUtf8Ascii(Spaces(depth * width));
    ValidUtf8Concat(Spaces(depth * width), content);
  }

  /** The written text is UTF-8. */
  lemma {:induction false} WrittenLinesAreUtf8(lines: seq<OutLine>, width: nat)
    requires AllWritable(lines)
    ensures ValidUtf8(Encoded(lines, width))
  {
    if lines != [] {
      EncodedCons(lines, width);
      LineIsUtf8(lines[0].depth, lines[0].content, width);
      var raw := Spaces(lines[0].depth * width) + lines[0].content;
      if |lines| == 1 {
        assert raw + [] == raw;
      } else {
        var rest := Encoded(lines[1..], width);
        WritableTail(lines);
        WrittenLinesAreUtf8(lines[1..], width);
        assert raw + [LF] + rest == raw + ([LF] + rest);
        ValidUtf8SplitAtAscii(raw, LF, rest);
      }
    }
  }
}
