/**
 * One analysis pass of the language server (`Backend::lint`): build the
 * preprocessor context from the settings, parse the buffer, run the rule
 * checker over the syntax tree's events, and translate what is reported in
 * the unsaved buffer into diagnostics.
 *
 * The project root, the settings and the rule checker, which the server
 * keeps behind locks, are plain inputs here. The libraries the pass calls
 * are the fields of `Collaborators`.
 */
module Backend {
  import opened Wrappers
  import opened Paths
  import opened PositionMapper
  import opened ConfigResolver
  import opened Diagnostics

  type Url = string

  /** A preprocessor macro: a name, no formal arguments, and substitution text if any. */
  datatype Define = Define(identifier: string, arguments: seq<string>, text: Option<string>)

  /** The enter/leave events of a depth-first walk over a syntax tree, by node. */
  datatype NodeEvent = Enter(node: nat) | Leave(node: nat)

  datatype SyntaxTree = SyntaxTree(events: seq<NodeEvent>)

  datatype ParseOutcome = Parsed(tree: SyntaxTree) | Failed(error: SvError)

  /**
   * `Url::to_file_path`, `enquote::unescape`, `sv_parser::parse_sv_str`
   * (text, file path, predefined macros, include paths) and `Linter::check`.
   */
  datatype Collaborators = Collaborators(
    toFilePath: Url -> Option<Path>,
    unescape: string -> Option<string>,
    parse: (Text, Path, map<string, Option<Define>>, seq<Path>) -> ParseOutcome,
    check: (Linter, SyntaxTree, NodeEvent) -> seq<LintFailure>)

  /**
   * The directory include paths are resolved against: the root the editor
   * gave when it is a file URL, the empty path otherwise.
   */
  function RootPath(rootUri: Option<Url>, toFilePath: Url -> Option<Path>): (r: Path)
    ensures rootUri.None? ==> r == EmptyPath
    ensures rootUri.Some? && toFilePath(rootUri.value).None? ==> r == EmptyPath
    ensures rootUri.Some? && toFilePath(rootUri.value).Some? ==> r == toFilePath(rootUri.value).value
    ensures r != EmptyPath ==> rootUri.Some? && toFilePath(rootUri.value) == Some(r)
  {
    match rootUri
    case None => EmptyPath
    case Some(uri) =>
      match toFilePath(uri)
      case Some(p) => p
      case None => EmptyPath
  }

  /** Each configured include path resolved against the root, in configured order. */
  function ResolveIncludes(root: Path, paths: seq<string>): seq<Path>
  {
    seq(|paths|, i requires 0 <= i < |paths| => Join(root, FromString(paths[i])))
  }

  /** The include-path list `lint` builds by pushing one resolved path per configured path. */
  method BuildIncludePaths(root: Path, paths: seq<string>) returns (includes: seq<Path>)
    ensures includes == ResolveIncludes(root, paths)
    ensures |includes| == |paths|
    ensures forall i :: 0 <= i < |paths| ==> includes[i] == Join(root, FromString(paths[i]))
  {
    includes := [];
    for i := 0 to |paths|
      invariant |includes| == i
      invariant forall j :: 0 <= j < i ==> includes[j] == Join(root, FromString(paths[j]))
    {
      includes := includes + [Join(root, FromString(paths[i]))];
    }
  }

  /** `splitn(2, c)`: the text before the first `c`, and the text after it if there is one. */
  function SplitFirst(s: string, c: char): (r: (string, Option<string>))
    decreases |s|
    ensures c !in r.0
    ensures r.1.None? ==> r.0 == s
    ensures r.1.Some? ==> s == r.0 + [c] + r.1.value
  {
    if s == [] then ([], None)
    else if s[0] == c then ([], Some(s[1..]))
    else
      var (head, tail) := SplitFirst(s[1..], c);
      assert tail.Some? ==> s == [s[0]] + s[1..] == [s[0]] + head + [c] + tail.value;
      ([s[0]] + head, tail)
  }

  /**
   * A configured define `NAME` or `NAME=VALUE`: the name is the text before
   * the first '='; the value, when there is an '=', is the rest unescaped,
   * and a rest that does not unescape leaves the macro with no text.
   */
  function DefineOf(d: string, unescape: string -> Option<string>): (r: Define)
    ensures '=' !in r.identifier && r.identifier <= d && r.arguments == []
    ensures '=' !in d ==> r.identifier == d && r.text == None
    ensures '=' in d ==> |r.identifier| < |d| && d[|r.identifier|] == '=' &&
                         r.text == unescape(d[|r.identifier| + 1..])
  {
    var (ident, rest) := SplitFirst(d, '=');
    var text := match rest
      case Some(x) => (match unescape(x) case Some(t) => Some(t) case None => None)
      case None => None;
    assert rest.Some? ==> d[|ident|] == '=' && d[|ident| + 1..] == rest.value;
    Define(ident, [], text)
  }

  /** The macro table after inserting each define in turn. */
  function DefineMap(defines: seq<string>, unescape: string -> Option<string>): map<string, Option<Define>>
    decreases |defines|
  {
    if defines == [] then map[]
    else
      var d := DefineOf(defines[|defines| - 1], unescape);
      DefineMap(defines[..|defines| - 1], unescape)[d.identifier := Some(d)]
  }

  /** The name a configured define string gives its macro. */
  function Identifier(d: string, unescape: string -> Option<string>): string
  {
    DefineOf(d, unescape).identifier
  }

  /** The macro table names exactly the configured identifiers. */
  lemma {:induction false} DefineMapKeys(defines: seq<string>, unescape: string -> Option<string>, k: string)
    ensures k in DefineMap(defines, unescape) <==>
      exists i :: 0 <= i < |defines| && Identifier(defines[i], unescape) == k
    decreases |defines|
  {
    if defines != [] {
      var init := defines[..|defines| - 1];
      DefineMapKeys(init, unescape, k);
      if exists i :: 0 <= i < |init| && Identifier(init[i], unescape) == k {
        var i :| 0 <= i < |init| && Identifier(init[i], unescape) == k;
        assert defines[i] == init[i];
      }
      if exists i :: 0 <= i < |defines| && Identifier(defines[i], unescape) == k {
        var i :| 0 <= i < |defines| && Identifier(defines[i], unescape) == k;
        if i < |init| {
          assert Identifier(init[i], unescape) == k;
        }
      }
    }
  }

  /**
   * A macro holds the define of the last configured string that names it:
   * a later duplicate replaces an earlier one.
   */
  lemma {:induction false} DefineMapLastWins(defines: seq<string>, unescape: string -> Option<string>, i: nat)
    requires i < |defines|
    requires forall j :: i < j < |defines| ==> Identifier(defines[j], unescape) != Identifier(defines[i], unescape)
    ensures Identifier(defines[i], unescape) in DefineMap(defines, unescape)
    ensures DefineMap(defines, unescape)[Identifier(defines[i], unescape)] == Some(DefineOf(defines[i], unescape))
    decreases |defines|
  {
    var init := defines[..|defines| - 1];
    if i < |init| {
      assert defines[i] == init[i];
      forall j | i < j < |init|
        ensures Identifier(init[j], unescape) != Identifier(init[i], unescape)
      {
        assert init[j] == defines[j];
      }
      DefineMapLastWins(init, unescape, i);
    }
  }

  /** The macro table `lint` builds: each define inserted in turn, a later one replacing an earlier. */
  method BuildDefines(defines: seq<string>, unescape: string -> Option<string>)
    returns (table: map<string, Option<Define>>)
    ensures table == DefineMap(defines, unescape)
  {
    table := map[];
    for i := 0 to |defines|
      invariant table == DefineMap(defines[..i], unescape)
    {
      var d := DefineOf(defines[i], unescape);
      assert defines[..i + 1][..i] == defines[..i];
      table := table[d.identifier := Some(d)];
    }
    assert defines[..|defines|] == defines;
  }

  /** What the rule checker reports for each event of the tree, event by event. */
  function EventFailures(linter: Linter, tree: SyntaxTree, check: (Linter, SyntaxTree, NodeEvent) -> seq<LintFailure>)
    : seq<seq<LintFailure>>
  {
    seq(|tree.events|, i requires 0 <= i < |tree.events| => check(linter, tree, tree.events[i]))
  }

  /** The include paths a pass hands to the parser. */
  function IncludePaths(root: Path, config: Option<Config>): seq<Path>
  {
    if config.None? then [] else ResolveIncludes(root, config.value.verilog.includePaths)
  }

  /** The macro table a pass hands to the parser. */
  function Defines(config: Option<Config>, unescape: string -> Option<string>): map<string, Option<Define>>
  {
    if config.None? then map[] else DefineMap(config.value.verilog.defines, unescape)
  }

  /** What the parser returns for the text, given the context a pass builds from the settings. */
  function ParseOf(s: Text, rootUri: Option<Url>, config: Option<Config>, c: Collaborators): ParseOutcome
  {
    var root := RootPath(rootUri, c.toFilePath);
    c.parse(s, EmptyPath, Defines(config, c.unescape), IncludePaths(root, config))
  }

  /** The diagnostics of one pass over the text `s`. */
  function LintResult(s: Text, rootUri: Option<Url>, config: Option<Config>, linter: Option<Linter>,
                      c: Collaborators): seq<Diagnostic>
  {
    match ParseOf(s, rootUri, config, c)
    case Parsed(tree) =>
      if linter.None? then [] else Warnings(s, Kept(Flatten(EventFailures(linter.value, tree, c.check))))
    case Failed(e) => ParseErrorDiagnostics(s, e)
  }

  /**
   * After a successful parse, each diagnostic of the pass is the warning for
   * a failure that the rule checker reported for some event of the tree and
   * that lies in the unsaved buffer; failures in included files never show.
   */
  lemma LintWarningFromBuffer(s: Text, rootUri: Option<Url>, config: Option<Config>, linter: Option<Linter>,
                              c: Collaborators, d: Diagnostic)
    requires ParseOf(s, rootUri, config, c).Parsed?
    requires d in LintResult(s, rootUri, config, linter, c)
    ensures linter.Some?
    ensures var tree := ParseOf(s, rootUri, config, c).tree;
      exists i, f :: 0 <= i < |tree.events| && f in c.check(linter.value, tree, tree.events[i]) &&
        f.path == EmptyPath && d == RuleWarning(s, f)
  {
    var tree := ParseOf(s, rootUri, config, c).tree;
    var perEvent := EventFailures(linter.value, tree, c.check);
    var kept := Kept(Flatten(perEvent));
    WarningsAt(s, kept);
    var k :| 0 <= k < |kept| && Warnings(s, kept)[k] == d;
    var f := kept[k];
    KeptMembers(Flatten(perEvent));
    FlattenMembers(perEvent, f);
    var i :| 0 <= i < |perEvent| && f in perEvent[i];
    assert f in c.check(linter.value, tree, tree.events[i]);
  }

  /**
   * After a successful parse with a rule checker, every failure it reports
   * in the unsaved buffer, for any event, is reported as its warning.
   */
  lemma LintReportsEveryBufferFailure(s: Text, rootUri: Option<Url>, config: Option<Config>, linter: Option<Linter>,
                                      c: Collaborators, i: nat, f: LintFailure)
    requires ParseOf(s, rootUri, config, c).Parsed? && linter.Some?
    requires var tree := ParseOf(s, rootUri, config, c).tree;
      i < |tree.events| && f in c.check(linter.value, tree, tree.events[i])
    requires f.path == EmptyPath
    ensures RuleWarning(s, f) in LintResult(s, rootUri, config, linter, c)
  {
    var tree := ParseOf(s, rootUri, config, c).tree;
    var perEvent := EventFailures(linter.value, tree, c.check);
    assert perEvent[i] == c.check(linter.value, tree, tree.events[i]);
    FlattenMembers(perEvent, f);
    KeptMembers(Flatten(perEvent));
    var kept := Kept(Flatten(perEvent));
    var k :| 0 <= k < |kept| && kept[k] == f;
    WarningsAt(s, kept);
  }

  /** A pass whose parse fails reports at most the one parse error, an Error. */
  lemma LintParseFailure(s: Text, rootUri: Option<Url>, config: Option<Config>, linter: Option<Linter>, c: Collaborators)
    requires ParseOf(s, rootUri, config, c).Failed?
    ensures |LintResult(s, rootUri, config, linter, c)| <= 1
    ensures forall d :: d in LintResult(s, rootUri, config, linter, c) ==>
      d.severity == Some(Error) && d.code == None && d.message == ParseErrorMessage
  {
  }

  /**
   * The rule-checking half of a pass: every failure the checker reports for
   * each event, kept only when it lies in the unsaved buffer, becomes a
   * warning, in the order reported.
   */
  method CheckTree(s: Text, linter: Linter, tree: SyntaxTree, check: (Linter, SyntaxTree, NodeEvent) -> seq<LintFailure>)
    returns (ret: seq<Diagnostic>)
    ensures ret == Warnings(s, Kept(Flatten(EventFailures(linter, tree, check))))
  {
    ret := [];
    ghost var perEvent := EventFailures(linter, tree, check);
    var events := tree.events;
    for i := 0 to |events|
      invariant ret == Warnings(s, Kept(Flatten(perEvent[..i])))
    {
      var failures := check(linter, tree, events[i]);
      ret := PushWarnings(s, Flatten(perEvent[..i]), failures, ret);
      assert perEvent[..i + 1][..i] == perEvent[..i];
    }
    assert perEvent[..|events|] == perEvent;
  }

  /** The failures of one event appended to those of the earlier events. */
  method PushWarnings(s: Text, ghost done: seq<LintFailure>, failures: seq<LintFailure>, ret0: seq<Diagnostic>)
    returns (ret: seq<Diagnostic>)
    requires ret0 == Warnings(s, Kept(done))
    ensures ret == Warnings(s, Kept(done + failures))
  {
    ret := ret0;
    assert done + failures[..0] == done;
    for j := 0 to |failures|
      invariant ret == Warnings(s, Kept(done + failures[..j]))
    {
      var failed := failures[j];
      assert failures[..j + 1] == failures[..j] + [failed];
      assert done + failures[..j + 1] == done + failures[..j] + [failed];
      KeepOne(s, ret, done + failures[..j], failed);
      if failed.path != EmptyPath {
        continue;
      }
      var line, col := GetPosition(s, failed.beg);
      var warning := Diagnostic(Range(Position(line, col), Position(line, col + failed.len)),
                                Some(Warning), Some(failed.name), Some(ServerName), failed.hint);
      assert warning == RuleWarning(s, failed);
      ret := ret + [warning];
    }
    assert failures[..|failures|] == failures;
  }

  /** One more reported failure adds its warning when it lies in the unsaved buffer, and nothing otherwise. */
  lemma KeepOne(s: Text, ret: seq<Diagnostic>, done: seq<LintFailure>, f: LintFailure)
    requires ret == Warnings(s, Kept(done))
    ensures Warnings(s, Kept(done + [f])) ==
      if f.path == EmptyPath then ret + [RuleWarning(s, f)] else ret
  {
    KeptAppend(done, [f]);
    assert [f][..0] == [];
    if f.path == EmptyPath {
      var k := Kept(done) + [f];
      assert k[..|k| - 1] == Kept(done) && k[|k| - 1] == f;
    } else {
      assert Kept(done) + [] == Kept(done);
    }
  }

  /** The parse-error half of a pass. */
  method ReportParseError(s: Text, x: SvError) returns (ret: seq<Diagnostic>)
    ensures ret == ParseErrorDiagnostics(s, x)
  {
    ret := [];
    if x.Parse? && x.location.Some? {
      var (path, pos) := x.location.value;
      if path == EmptyPath {
        var line, col := GetPosition(s, pos);
        var lineEnd := GetLineEnd(s, pos);
        var len := lineEnd - pos;
        ret := ret + [Diagnostic(Range(Position(line, col), Position(line, col + len)),
                                 Some(Error), None, Some(ServerName), ParseErrorMessage)];
      }
    }
  }

  /** `Backend::lint`. */
  method Lint(s: Text, rootUri: Option<Url>, config: Option<Config>, linter: Option<Linter>, c: Collaborators)
    returns (ret: seq<Diagnostic>)
    ensures ret == LintResult(s, rootUri, config, linter, c)
  {
    ret := [];
    var root := RootPath(rootUri, c.toFilePath);
    var includePaths: seq<Path> := [];
    var defines: map<string, Option<Define>> := map[];
    if config.Some? {
      includePaths := BuildIncludePaths(root, config.value.verilog.includePaths);
      defines := BuildDefines(config.value.verilog.defines, c.unescape);
    }

    var parsed := c.parse(s, EmptyPath, defines, includePaths);
    assert parsed == ParseOf(s, rootUri, config, c);
    match parsed {
      case Parsed(tree) =>
        if linter.Some? {
          ret := CheckTree(s, linter.value, tree, c.check);
        }
      case Failed(x) =>
        ret := ReportParseError(s, x);
    }
  }
}
