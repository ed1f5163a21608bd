/** Byte scans that respect quotes, and the splitting of rows into cells (src/scalar.rs). */
module Cells {
  import opened Bytes

  // ----- the quote state machine -----------------------------------------------

  /** Where a left-to-right scan stands: outside quotes, inside, or just after a backslash inside. */
  datatype Mode = Outside | Inside | Skipping

  function Next(mode: Mode, b: byte): Mode {
    match mode
    case Outside => if b == QUOTE then Inside else Outside
    case Inside => if b == BACKSLASH then Skipping else if b == QUOTE then Outside else Inside
    case Skipping => Inside
  }

  /** The mode after scanning all of `s`. */
  function ModeAfter(s: bytes, mode: Mode): Mode {
    if s == [] then mode else ModeAfter(s[1..], Next(mode, s[0]))
  }

  /** The first `needle` outside quotes in `s`, for a scan that starts in `mode`. */
  function Find(s: bytes, needle: byte, mode: Mode): (r: Option<nat>)
    ensures r.Some? ==> r.value < |s| && s[r.value] == needle
  {
    if s == [] then None
    else if mode.Outside? && s[0] != QUOTE && s[0] == needle then Some(0)
    else match Find(s[1..], needle, Next(mode, s[0]))
      case None => None
      case Some(k) => Some(k + 1)
  }

  function Shift(r: Option<nat>, offset: nat): Option<nat> {
    if r.Some? then Some(r.value + offset) else None
  }

  /** The first `needle` outside quotes at or after `from`, where a scan starts afresh. */
  function FirstUnquoted(content: bytes, needle: byte, from: nat): (r: Option<nat>)
    ensures r.Some? ==> from <= r.value < |content| && content[r.value] == needle
  {
    if from >= |content| then None else Shift(Find(content[from..], needle, Outside), from)
  }

  lemma {:induction false} FindConcat(a: bytes, b: bytes, needle: byte, mode: Mode)
    ensures Find(a, needle, mode).Some? ==> Find(a + b, needle, mode) == Find(a, needle, mode)
    ensures Find(a, needle, mode).None? ==>
              Find(a + b, needle, mode) == Shift(Find(b, needle, ModeAfter(a, mode)), |a|)
  {
    if a == [] {
      assert a + b == b;
    } else {
      assert (a + b)[1..] == a[1..] + b;
      FindConcat(a[1..], b, needle, Next(mode, a[0]));
    }
  }

  /** `Find` is exactly the least position that holds the needle outside quotes. */
  lemma {:induction false} FindIsLeast(s: bytes, needle: byte, mode: Mode, k: nat)
    requires needle != QUOTE
    ensures Find(s, needle, mode) == Some(k) <==>
              && k < |s| && s[k] == needle && ModeAfter(s[..k], mode) == Outside
              && forall i :: 0 <= i < k && s[i] == needle ==> ModeAfter(s[..i], mode) != Outside
  {
    if s != [] && !(mode.Outside? && s[0] == needle) {
      if k > 0 {
        FindIsLeast(s[1..], needle, Next(mode, s[0]), k - 1);
        assert forall i :: 0 < i <= |s| ==> s[..i][1..] == s[1..][..i - 1];
        assert k <= |s| ==> ModeAfter(s[..k], mode) == ModeAfter(s[1..][..k - 1], Next(mode, s[0]));
        forall i | 0 < i <= |s| ensures ModeAfter(s[..i], mode) == ModeAfter(s[1..][..i - 1], Next(mode, s[0])) {}
        assert forall i :: 0 <= i < k - 1 && k <= |s| ==> s[1..][i] == s[i + 1];
      }
    }
  }

  /** What a scan of `content` still finds when it stands at `index`. */
  function Resume(content: bytes, needle: byte, index: nat, inQuote: bool): Option<nat> {
    if index >= |content| then None
    else Shift(Find(content[index..], needle, if inQuote then Inside else Outside), index)
  }

  /** One step of the scan. */
  lemma {:induction false} ResumeStep(content: bytes, needle: byte, index: nat, inQuote: bool)
    requires index < |content| && needle != QUOTE
    ensures var b := content[index];
            Resume(content, needle, index, inQuote) ==
            if inQuote && b == BACKSLASH then Resume(content, needle, index + 2, true)
            else if b == QUOTE then Resume(content, needle, index + 1, !inQuote)
            else if !inQuote && b == needle then Some(index)
            else Resume(content, needle, index + 1, inQuote)
  {
    var rest := content[index..];
    assert rest[1..] == content[index + 1..];
    if inQuote && content[index] == BACKSLASH && index + 1 < |content| {
      var next := rest[1..];
      assert next[1..] == content[index + 2..];
      assert Find(next, needle, Skipping) == Shift(Find(next[1..], needle, Inside), 1);
    }
  }

  method FindUnquoted(content: bytes, needle: byte, from: nat) returns (r: Option<nat>)
    requires needle != QUOTE
    ensures r == FirstUnquoted(content, needle, from)
  {
    var index := from;
    var inQuote := false;
    while index < |content|
      invariant FirstUnquoted(content, needle, from) == Resume(content, needle, index, inQuote)
    {
      ResumeStep(content, needle, index, inQuote);
      var b := content[index];
      if inQuote {
        if b == BACKSLASH {
          index := index + 1;
        } else if b == QUOTE {
          inQuote := false;
        }
      } else if b == QUOTE {
        inQuote := true;
      } else if b == needle {
        return Some(index);
      }
      index := index + 1;
    }
    return None;
  }

  // ----- line marks ------------------------------------------------------------

  /** The first structural mark of a line; at most one of the two is reported. */
  datatype LineMarks = LineMarks(bracket: Option<nat>, colon: Option<nat>)

  /** The marks as two independent scans give them: the earlier of the two positions wins. */
  function Marks(content: bytes): LineMarks {
    var bracket := FirstUnquoted(content, LBRACKET, 0);
    var colon := FirstUnquoted(content, COLON, 0);
    if bracket.Some? && (colon.None? || bracket.value < colon.value) then LineMarks(bracket, None)
    else LineMarks(None, colon)
  }

  method ScanLineMarks(content: bytes) returns (marks: LineMarks)
    ensures marks == Marks(content)
  {
    var inQuote := false;
    var index := 0;
    while index < |content|
      invariant FirstUnquoted(content, LBRACKET, 0) == Resume(content, LBRACKET, index, inQuote)
      invariant FirstUnquoted(content, COLON, 0) == Resume(content, COLON, index, inQuote)
    {
      ResumeStep(content, LBRACKET, index, inQuote);
      ResumeStep(content, COLON, index, inQuote);
      var b := content[index];
      if inQuote {
        if b == BACKSLASH {
          index := index + 1;
        } else if b == QUOTE {
          inQuote := false;
        }
      } else if b == QUOTE {
        inQuote := true;
      } else if b == LBRACKET {
        return LineMarks(Some(index), None);
      } else if b == COLON {
        return LineMarks(None, Some(index));
      }
      index := index + 1;
    }
    return LineMarks(None, None);
  }

  /** A scan resumed at a position outside quotes finds what the scan from the start finds. */
  lemma {:induction false} FindResumes(content: bytes, needle: byte, other: byte)
    requires needle != QUOTE && other != QUOTE && needle != other
    requires FirstUnquoted(content, other, 0).Some?
    requires Find(content[..FirstUnquoted(content, other, 0).value], needle, Outside).None?
    ensures FirstUnquoted(content, needle, 0) ==
            FirstUnquoted(content, needle, FirstUnquoted(content, other, 0).value)
  {
    var k := FirstUnquoted(content, other, 0).value;
    assert content[0..] == content == content[..k] + content[k..];
    FindIsLeast(content, other, Outside, k);
    FindConcat(content[..k], content[k..], needle, Outside);
  }

  /** Completing the scan from the bracket gives the line's first colon. */
  method ResolvedColon(content: bytes, marks: LineMarks) returns (colon: Option<nat>)
    requires marks == Marks(content)
    ensures colon == FirstUnquoted(content, COLON, 0)
  {
    if marks.colon.Some? || marks.bracket.None? { return marks.colon; }
    colon := FindUnquoted(content, COLON, marks.bracket.value);
    NothingBefore(content, COLON, marks.bracket.value);
    FindResumes(content, COLON, LBRACKET);
  }

  /** A scan of a prefix finds nothing when the scan of the whole finds nothing before its end. */
  lemma {:induction false} NothingBefore(content: bytes, needle: byte, k: nat)
    requires k <= |content|
    requires FirstUnquoted(content, needle, 0).None? || FirstUnquoted(content, needle, 0).value >= k
    ensures Find(content[..k], needle, Outside).None?
  {
    assert content[0..] == content == content[..k] + content[k..];
    FindConcat(content[..k], content[k..], needle, Outside);
  }

  // ----- trimming --------------------------------------------------------------

  method TrimSpaces(s: bytes) returns (r: bytes)
    ensures r == Trim(s)
  {
    r := s;
    while r != [] && r[0] == SPACE
      invariant TrimLeft(r) == TrimLeft(s)
      decreases |r|
    {
      r := r[1..];
    }
    while r != [] && r[|r| - 1] == SPACE
      invariant TrimRight(r) == Trim(s)
      decreases |r|
    {
      r := r[..|r| - 1];
    }
  }

  lemma {:induction false} TrimOfTrimmed(s: bytes)
    requires Trimmed(s)
    ensures Trim(s) == s
  {
  }

  lemma {:induction false} TrimRightShape(s: bytes)
    ensures |TrimRight(s)| <= |s| && TrimRight(s) == s[..|TrimRight(s)|]
    ensures forall i :: |TrimRight(s)| <= i < |s| ==> s[i] == SPACE
    ensures TrimRight(s) != [] ==> TrimRight(s)[|TrimRight(s)| - 1] != SPACE
  {
    if s != [] && s[|s| - 1] == SPACE {
      TrimRightShape(s[..|s| - 1]);
    }
  }

  lemma {:induction false} TrimLeftShape(s: bytes)
    ensures |TrimLeft(s)| <= |s| && TrimLeft(s) == s[|s| - |TrimLeft(s)|..]
    ensures forall i :: 0 <= i < |s| - |TrimLeft(s)| ==> s[i] == SPACE
    ensures TrimLeft(s) != [] ==> TrimLeft(s)[0] != SPACE
  {
    if s != [] && s[0] == SPACE {
      TrimLeftShape(s[1..]);
    }
  }

  /** `Trim` is the slice that is left when the spaces at both ends are gone. */
  lemma {:induction false} TrimShape(s: bytes) returns (from: nat, to: nat)
    ensures from <= to <= |s| && Trim(s) == s[from..to] && Trimmed(Trim(s))
    ensures forall i :: 0 <= i < from || to <= i < |s| ==> s[i] == SPACE
  {
    TrimLeftShape(s);
    var t := TrimLeft(s);
    TrimRightShape(t);
    from := |s| - |t|;
    to := from + |TrimRight(t)|;
    assert forall i :: 0 <= i < |t| ==> t[i] == s[from + i];
    if to < from { from := to; }
    assert forall i {:trigger s[i]} :: to <= i < |s| ==> t[i - from] == s[i];
  }

  // ----- cells -----------------------------------------------------------------

  /** The cells between the delimiters outside quotes, spaces trimmed. */
  function SplitCells(content: bytes, delimiter: byte): (cells: seq<bytes>)
    ensures cells != []
    decreases |content|
  {
    match Find(content, delimiter, Outside)
    case None => [Trim(content)]
    case Some(k) => [Trim(content[..k])] + SplitCells(content[k + 1..], delimiter)
  }

  function Join(cells: seq<bytes>, delimiter: byte): bytes
    requires cells != []
  {
    if |cells| == 1 then cells[0] else cells[0] + [delimiter] + Join(cells[1..], delimiter)
  }

  /** A caller-owned buffer that tabular rows refill. */
  class CellBuffer {
    var items: seq<bytes>

    constructor ()
      ensures items == []
    {
      items := [];
    }
  }

  /** Without a quote every position is outside quotes. */
  lemma {:induction false} FindWithoutQuotes(s: bytes, needle: byte)
    requires QUOTE !in s && needle != QUOTE
    ensures Find(s, needle, Outside) == IndexOf(s, needle)
  {
    if s != [] { FindWithoutQuotes(s[1..], needle); }
  }

  lemma {:induction false} SplitAtEnd(content: bytes, delimiter: byte, start: nat, end: nat)
    requires start <= end < |content| && Find(content[start..], delimiter, Outside) == Some(end - start)
    ensures SplitCells(content[start..], delimiter) ==
            [Trim(content[start..end])] + SplitCells(content[end + 1..], delimiter)
  {
    var rest := content[start..];
    assert rest[..end - start] == content[start..end];
    assert rest[end - start + 1..] == content[end + 1..];
  }

  /** The next delimiter: rows free of quotes take a plain byte search. */
  method NextDelimiter(content: bytes, delimiter: byte, start: nat, plain: bool) returns (end: Option<nat>)
    requires delimiter != QUOTE && start <= |content| && (plain ==> QUOTE !in content)
    ensures end == Shift(Find(content[start..], delimiter, Outside), start)
  {
    if plain {
      FindWithoutQuotes(content[start..], delimiter);
      end := Shift(IndexOf(content[start..], delimiter), start);
    } else {
      end := FindUnquoted(content, delimiter, start);
    }
  }

  lemma {:induction false} PushCell(done: seq<bytes>, content: bytes, delimiter: byte, start: nat, end: nat)
    requires start <= end < |content| && Find(content[start..], delimiter, Outside) == Some(end - start)
    ensures done + SplitCells(content[start..], delimiter) ==
            (done + [Trim(content[start..end])]) + SplitCells(content[end + 1..], delimiter)
  {
    SplitAtEnd(content, delimiter, start, end);
    hide Find, Trim, SplitCells;
    var cell, after := Trim(content[start..end]), SplitCells(content[end + 1..], delimiter);
    assert done + ([cell] + after) == (done + [cell]) + after;
  }

  /** Refill `cells` with the cells of the row. */
  method SplitCellsInto(content: bytes, delimiter: byte, cells: CellBuffer)
    requires delimiter != QUOTE
    modifies cells
    ensures cells.items == SplitCells(content, delimiter)
  {
    hide Find, Trim, IndexOf;
    cells.items := [];
    var start := 0;
    var plain := IndexOf(content, QUOTE).None?;
    assert content[0..] == content;
    var end := NextDelimiter(content, delimiter, start, plain);
    while end.Some?
      invariant start <= |content|
      invariant end == Shift(Find(content[start..], delimiter, Outside), start)
      invariant cells.items + SplitCells(content[start..], delimiter) == SplitCells(content, delimiter)
      decreases |content| - start
    {
      PushCell(cells.items, content, delimiter, start, end.value);
      var cell := TrimSpaces(content[start..end.value]);
      cells.items := cells.items + [cell];
      start := end.value + 1;
      end := NextDelimiter(content, delimiter, start, plain);
    }
    var last := TrimSpaces(content[start..]);
    cells.items := cells.items + [last];
  }

  /** A cell the splitter leaves alone: no delimiter outside its quotes, which it closes, and trimmed. */
  predicate CellText(cell: bytes, delimiter: byte) {
    Find(cell, delimiter, Outside).None? && ModeAfter(cell, Outside).Outside? && Trimmed(cell)
  }

  /** Splitting the joined cells gives back the cells. */
  lemma {:induction false} SplitOfJoin(cells: seq<bytes>, delimiter: byte)
    requires cells != [] && delimiter != QUOTE
    requires forall i :: 0 <= i < |cells| ==> CellText(cells[i], delimiter)
    ensures SplitCells(Join(cells, delimiter), delimiter) == cells
  {
    TrimOfTrimmed(cells[0]);
    if |cells| > 1 {
      var tail := Join(cells[1..], delimiter);
      var content := Join(cells, delimiter);
      assert content == cells[0] + ([delimiter] + tail);
      FindConcat(cells[0], [delimiter] + tail, delimiter, Outside);
      assert content[..|cells[0]|] == cells[0];
      assert content[|cells[0]| + 1..] == tail;
      SplitOfJoin(cells[1..], delimiter);
    }
  }
}
