/** The encoder's output buffer (src/writer.rs). */
module Output {
  import opened Bytes

  /** The output buffer (src/writer.rs). */
  class Writer {
    var out: bytes
    const indentWidth: nat

    constructor (indentWidth: nat)
      ensures out == [] && this.indentWidth == indentWidth
    {
      out := [];
      this.indentWidth := indentWidth;
    }

    method Put(value: bytes)
      modifies this
      ensures out == old(out) + value
    {
      out := out + value;
    }

    method Indent(depth: nat)
      modifies this
      ensures out == old(out) + Spaces(depth * indentWidth)
    {
      out := out + Spaces(depth * indentWidth);
    }

    method Newline()
      modifies this
      ensures out == old(out) + [LF]
    {
      out := out + [LF];
    }

    /** The text whose last line the buffer ends, or the buffer if it ends no line. */
    method Finish() returns (bytes: bytes)
      ensures if out != [] && out[|out| - 1] == LF then bytes + [LF] == out else bytes == out
    {
      if out != [] && out[|out| - 1] == LF { return out[..|out| - 1]; }
      return out;
    }
  }

  function WithoutLastFeed(out: bytes): bytes {
    if out != [] && out[|out| - 1] == LF then out[..|out| - 1] else out
  }
}
