/**
 * What the parser and the rule checker report, and the editor diagnostics
 * the backend turns those reports into.
 */
module Diagnostics {
  import opened Wrappers
  import opened Paths
  import opened PositionMapper

  /** A zero-based line and column, as the editor protocol counts them. */
  datatype Position = Position(line: nat, character: nat)

  datatype Range = Range(start: Position, end: Position)

  datatype Severity = Error | Warning

  datatype Diagnostic = Diagnostic(range: Range, severity: Option<Severity>, code: Option<string>,
                                   source: Option<string>, message: string)

  /** The `source` every diagnostic carries. */
  const ServerName: string := "svls"

  const ParseErrorMessage: string := "parse error"

  /** One rule violation reported by the rule checker, at `beg` for `len` bytes of the file at `path`. */
  datatype LintFailure = LintFailure(name: string, hint: string, path: Path, beg: nat, len: nat)

  /**
   * An error from the parser. Only a syntax error (`Parse`) may carry the
   * file and byte offset at which it was found; the other kinds of error
   * (I/O, include, preprocessing) carry nothing the backend uses.
   */
  datatype SvError = Parse(location: Option<(Path, nat)>) | OtherError

  function At(lc: (nat, nat)): Position
  {
    Position(lc.0, lc.1)
  }

  /**
   * The warning for a rule violation: it starts at the position of `beg`
   * and spans `len` columns of that same line.
   */
  function RuleWarning(s: Text, f: LintFailure): (d: Diagnostic)
    ensures d.severity == Some(Warning) && d.code == Some(f.name)
    ensures d.source == Some(ServerName) && d.message == f.hint
    ensures d.range.start == At(LineCol(s, f.beg))
    ensures d.range.end.line == d.range.start.line
    ensures d.range.end.character == d.range.start.character + f.len
  {
    var (line, col) := LineCol(s, f.beg);
    Diagnostic(Range(Position(line, col), Position(line, col + f.len)),
               Some(Warning), Some(f.name), Some(ServerName), f.hint)
  }

  /**
   * When the violation holds no newline, the end of its warning is exactly
   * the position of the offset just past it.
   */
  lemma RuleWarningEndsAtTruePosition(s: Text, f: LintFailure)
    requires forall i :: f.beg <= i < f.beg + f.len && i < |s| ==> s[i] != NL
    ensures RuleWarning(s, f).range.end == At(LineCol(s, f.beg + f.len))
  {
    LineColAdvance(s, f.beg, f.beg + f.len);
  }

  /**
   * The diagnostics for a parse error: one error, spanning from the failure
   * to the end of its line, when the error is a syntax error located in the
   * unsaved buffer (the empty path); none otherwise.
   */
  function ParseErrorDiagnostics(s: Text, e: SvError): (r: seq<Diagnostic>)
    ensures |r| <= 1
    ensures r != [] <==> e.Parse? && e.location.Some? && e.location.value.0 == EmptyPath
    ensures r != [] ==>
      var pos := e.location.value.1;
      r[0].severity == Some(Error) && r[0].code == None && r[0].source == Some(ServerName) &&
      r[0].message == ParseErrorMessage &&
      r[0].range.start == At(LineCol(s, pos)) &&
      r[0].range.end == At(LineCol(s, LineEnd(s, pos))) &&
      r[0].range.end.line == r[0].range.start.line
  {
    match e
    case Parse(Some((path, pos))) =>
      if path == EmptyPath then
        var (line, col) := LineCol(s, pos);
        var len := LineEnd(s, pos) - pos;
        LineEndOnSameLine(s, pos);
        [Diagnostic(Range(Position(line, col), Position(line, col + len)),
                    Some(Error), None, Some(ServerName), ParseErrorMessage)]
      else []
    case _ => []
  }

  /** The failures of the unsaved buffer, in the order reported. */
  function Kept(fs: seq<LintFailure>): seq<LintFailure>
    decreases |fs|
  {
    if fs == [] then []
    else
      var last := fs[|fs| - 1];
      Kept(fs[..|fs| - 1]) + if last.path == EmptyPath then [last] else []
  }

  /**
   * Only failures located in the unsaved buffer (the empty path) are kept,
   * and all of them are.
   */
  lemma {:induction false} KeptMembers(fs: seq<LintFailure>)
    ensures |Kept(fs)| <= |fs|
    ensures forall f :: f in Kept(fs) <==> f in fs && f.path == EmptyPath
    decreases |fs|
  {
    if fs != [] {
      KeptMembers(fs[..|fs| - 1]);
      assert fs == fs[..|fs| - 1] + [fs[|fs| - 1]];
    }
  }

  /** Filtering keeps the reported order: it commutes with concatenation. */
  lemma {:induction false} KeptAppend(a: seq<LintFailure>, b: seq<LintFailure>)
    ensures Kept(a + b) == Kept(a) + Kept(b)
    decreases |b|
  {
    if b == [] {
      assert a + b == a;
    } else {
      var b' := b[..|b| - 1];
      assert (a + b)[..|a + b| - 1] == a + b';
      KeptAppend(a, b');
    }
  }

  /** The warnings for the given violations, one each, in order. */
  function Warnings(s: Text, fs: seq<LintFailure>): seq<Diagnostic>
    decreases |fs|
  {
    if fs == [] then [] else Warnings(s, fs[..|fs| - 1]) + [RuleWarning(s, fs[|fs| - 1])]
  }

  lemma {:induction false} WarningsAt(s: Text, fs: seq<LintFailure>)
    ensures |Warnings(s, fs)| == |fs|
    ensures forall i :: 0 <= i < |fs| ==> Warnings(s, fs)[i] == RuleWarning(s, fs[i])
    decreases |fs|
  {
    if fs != [] {
      WarningsAt(s, fs[..|fs| - 1]);
    }
  }

  /** The failures of a pass, event after event. */
  function Flatten(xss: seq<seq<LintFailure>>): (r: seq<LintFailure>)
    decreases |xss|
  {
    if xss == [] then [] else Flatten(xss[..|xss| - 1]) + xss[|xss| - 1]
  }

  /** Every failure of a pass comes from one of its events, and every event's failures are in it. */
  lemma {:induction false} FlattenMembers(xss: seq<seq<LintFailure>>, f: LintFailure)
    ensures f in Flatten(xss) <==> exists i :: 0 <= i < |xss| && f in xss[i]
    decreases |xss|
  {
    if xss != [] {
      var init := xss[..|xss| - 1];
      FlattenMembers(init, f);
      if f in Flatten(xss) && f !in xss[|xss| - 1] {
        var i :| 0 <= i < |init| && f in init[i];
        assert xss[i] == init[i];
      }
      if exists i :: 0 <= i < |xss| && f in xss[i] {
        var i :| 0 <= i < |xss| && f in xss[i];
        if i < |init| {
          assert f in init[i];
        }
      }
    }
  }
}
