/**
 * Byte offsets to editor line/column coordinates (`get_position`) and the
 * end of the line holding an offset (`get_line_end`). The text is the UTF-8
 * bytes of a Rust `&str`.
 */
module PositionMapper {
  import opened Wrappers

  newtype byte = x: int | 0 <= x < 256

  type Text = seq<byte>

  /** The byte of '\n'. */
  const NL: byte := 10

  /**
   * `s.get(p..p+1)`: a one-byte slice of a valid UTF-8 string is itself a
   * string only when both ends are char boundaries, that is when the byte
   * at `p` exists and is ASCII. A rejected byte is never a newline.
   */
  function SliceOne(s: Text, p: nat): (r: Option<byte>)
    ensures r.Some? ==> p < |s| && r.value == s[p]
    ensures r == Some(NL) <==> p < |s| && s[p] == NL
  {
    if p < |s| && s[p] < 0x80 then Some(s[p]) else None
  }

  /** The offsets of the text that exist: `pos` capped at the length. */
  function Clip(s: Text, pos: nat): (k: nat)
    ensures k <= |s| && k <= pos
    ensures k == pos || k == |s|
  {
    if pos <= |s| then pos else |s|
  }

  /**
   * The (line, column) of offset `pos`, scanning as `get_position` does:
   * a newline starts the next line at column 0, any other byte, and any
   * offset past the end, moves one column on.
   */
  function LineCol(s: Text, pos: nat): (r: (nat, nat))
    decreases pos
  {
    if pos == 0 then (0, 0)
    else
      var prev := LineCol(s, pos - 1);
      if SliceOne(s, pos - 1) == Some(NL) then (prev.0 + 1, 0) else (prev.0, prev.1 + 1)
  }

  /**
   * What `LineCol` counts: the line is the number of newlines before `pos`;
   * the column is the number of offsets since the last of them (or since the
   * start of the text), offsets past the end included.
   */
  lemma {:induction false} LineColCounts(s: Text, pos: nat)
    ensures LineCol(s, pos).0 == multiset(s[..Clip(s, pos)])[NL]
    ensures var k := Clip(s, pos); var c := LineCol(s, pos).1;
      pos - k <= c <= pos &&
      (forall i :: k - (c - (pos - k)) <= i < k ==> s[i] != NL) &&
      (c - (pos - k) < k ==> s[k - (c - (pos - k)) - 1] == NL)
  {
    if pos > 0 {
      LineColCounts(s, pos - 1);
      if pos - 1 < |s| {
        assert s[..pos] == s[..pos - 1] + [s[pos - 1]];
      }
    }
  }

  /** `get_position`. */
  method GetPosition(s: Text, pos: nat) returns (line: nat, col: nat)
    ensures (line, col) == LineCol(s, pos)
  {
    line, col := 0, 0;
    var p := 0;
    while p < pos
      invariant p <= pos
      invariant (line, col) == LineCol(s, p)
    {
      var c := SliceOne(s, p);
      if c.Some? {
        if c.value == NL {
          line := line + 1;
          col := 0;
        } else {
          col := col + 1;
        }
      } else {
        col := col + 1;
      }
      p := p + 1;
    }
  }

  /**
   * The offset at which the line holding `pos` ends: the first newline at or
   * after `pos`, or the length of the text; an offset already past the text
   * is its own line end.
   */
  function LineEnd(s: Text, pos: nat): (r: nat)
    decreases |s| - pos
    ensures pos <= r
    ensures |s| <= pos ==> r == pos
    ensures pos < |s| ==> r <= |s| && (r == |s| || s[r] == NL)
    ensures pos < |s| ==> forall i :: pos <= i < r ==> s[i] != NL
  {
    if |s| <= pos then pos
    else if SliceOne(s, pos) == Some(NL) then pos
    else LineEnd(s, pos + 1)
  }

  /** `get_line_end`. */
  method GetLineEnd(s: Text, pos: nat) returns (r: nat)
    ensures r == LineEnd(s, pos)
  {
    var p := pos;
    while p < |s|
      invariant pos <= p
      invariant LineEnd(s, p) == LineEnd(s, pos)
    {
      var c := SliceOne(s, p);
      if c.Some? {
        if c.value == NL {
          break;
        }
      }
      p := p + 1;
    }
    r := p;
  }

  /**
   * Moving across offsets that hold no newline (offsets past the text hold
   * none) keeps the line and adds the distance to the column.
   */
  lemma {:induction false} LineColAdvance(s: Text, a: nat, b: nat)
    requires a <= b
    requires forall i :: a <= i < b && i < |s| ==> s[i] != NL
    ensures LineCol(s, b) == (LineCol(s, a).0, LineCol(s, a).1 + (b - a))
    decreases b - a
  {
    if a < b {
      LineColAdvance(s, a, b - 1);
    }
  }

  /** Every offset at or past the end of the text adds one column. */
  lemma PastEndAddsColumns(s: Text, pos: nat)
    requires |s| <= pos
    ensures LineCol(s, pos) == (LineCol(s, |s|).0, LineCol(s, |s|).1 + (pos - |s|))
  {
    LineColAdvance(s, |s|, pos);
  }

  /**
   * The column computed for the end of a parse-error range, the start column
   * plus the distance to the line end, is the true position of the line end.
   */
  lemma LineEndOnSameLine(s: Text, pos: nat)
    ensures LineCol(s, LineEnd(s, pos)) == (LineCol(s, pos).0, LineCol(s, pos).1 + (LineEnd(s, pos) - pos))
  {
    LineColAdvance(s, pos, LineEnd(s, pos));
  }

  /** A newline at `p` ends the line: the next offset is column 0 of the next line. */
  lemma NewlineStartsLine(s: Text, p: nat)
    requires p < |s| && s[p] == NL
    ensures LineCol(s, p + 1) == (LineCol(s, p).0 + 1, 0)
  {
  }
}
