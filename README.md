# svls lint-on-edit pipeline, modelled in Dafny

svls is a language server for SystemVerilog. On every edit it receives the
whole text of a document, parses it with the settings of the project, runs
the rule checker (svlint) over the syntax tree, and publishes diagnostics
positioned by line and column. This project models the part of
`src/backend.rs` that does not depend on the protocol, the parser or the
rule checker:

- **Position mapping** (`PositionMapper`): `get_position` turns a byte
  offset into a (line, column) pair; `get_line_end` finds where the line
  holding an offset ends. Both are loops over the UTF-8 bytes of the
  text. They are modelled as methods proved against the functions
  `LineCol` and `LineEnd`. Lemmas state what those functions count.
- **Settings** (`ConfigResolver`, `Paths`): `search_config` walks from the
  current directory up through its ancestors and returns the first place
  where the settings file exists. `generate_config` and `generate_linter`
  sort a settings path into "absent", "cannot be read", "cannot be parsed"
  or "loaded".
- **Diagnostic translation** (`Diagnostics`): a rule violation becomes a
  Warning on one line. A syntax error becomes one Error that runs to the
  end of its line. Anything located in another file than the unsaved buffer
  (the empty path) is dropped.
- **One analysis pass** (`Backend`): `Backend::lint` falls back to an empty
  root when there is no file root. It resolves the include paths against
  the root and builds the macro table from the `NAME` / `NAME=VALUE`
  defines, where a later define replaces an earlier one. It then parses,
  and either checks every event of the syntax tree or reports the parse
  error. `Lint` is proved equal to the function `LintResult`. The lemmas
  beside it say which failures reach the editor.

The text is a sequence of bytes. `s.get(p..p+1)` is `SliceOne`: on a valid
UTF-8 string it succeeds only for an in-range ASCII byte, so a byte it
rejects is never a newline.

The libraries the backend calls are parameters:
- `Url::to_file_path`, `enquote::unescape`, `sv_parser::parse_sv_str` and
  `Linter::check` are the fields of `Backend.Collaborators`;
- `std::fs::read_to_string` and `toml::from_str` are the `read` and
  `parseToml` arguments;
- `Path::exists` is a set of existing paths;
- `env::current_dir` is an optional path.

Three behaviours of the code the model keeps:
- every diagnostic's `source` is `"svls"`;
- `get_line_end` returns an offset already past the text unchanged, not
  the length of the text;
- configuration errors are `Result<_, String>` in the code; the model keeps
  only their classification, as the tagged `ConfigError`.

## Model

| member | source | states |
|---|---|---|
| `PositionMapper.SliceOne` | src/backend.rs:291 | a one-byte slice succeeds only on an existing byte and returns it; it is `"\n"` exactly when that byte is a newline |
| `PositionMapper.GetPosition` | src/backend.rs:286-304 | the loop's (line, column) is `LineCol(s, pos)` |
| `PositionMapper.LineColCounts` | src/backend.rs:286-304 | the line is the number of newlines before `pos`; the column is the number of offsets since the last newline (or the start), and no newline lies in between |
| `PositionMapper.LineColAdvance` | src/backend.rs:290-302 | across offsets holding no newline the line stays and the column grows by the distance |
| `PositionMapper.PastEndAddsColumns` | src/backend.rs:298-300 | every offset at or past the end of the text adds one column to the position of the end |
| `PositionMapper.NewlineStartsLine` | src/backend.rs:292-294 | the offset after a newline is column 0 of the next line |
| `PositionMapper.LineEnd` | src/backend.rs:306-317 | the result is at least `pos`, no newline lies between `pos` and it, and it is a newline or the end of the text; an offset past the text is returned unchanged |
| `PositionMapper.GetLineEnd` | src/backend.rs:306-317 | the loop's result is `LineEnd(s, pos)` |
| `PositionMapper.LineEndOnSameLine` | src/backend.rs:113-117 | the parse-error end column, start column plus distance to the line end, is the true position of the line end on the same line |
| `Paths.Join` | src/backend.rs:51-52 | joining a relative path appends its components to the base; an absolute one replaces the base |
| `Paths.Ancestors` | src/backend.rs:230 | the ancestors are the path, then each successive parent, down to the path with no components |
| `Paths.ComponentsWellFormed` | src/backend.rs:52 | the components of a path string are non-empty and hold no separator; a separator-free string is its one component |
| `Paths.ComponentsSplit` | src/backend.rs:52 | the components of `a/b` are those of `a` followed by those of `b`, so they are the '/'-separated pieces in order |
| `Paths.FromString` | src/backend.rs:52 | a path string is absolute exactly when it starts with '/', and its parts are its components |
| `ConfigResolver.SearchConfig` | src/backend.rs:228-240 | returns the settings path under the nearest of the current directory and its ancestors where it exists; none when no ancestor has it or there is no current directory |
| `ConfigResolver.GenerateConfig` | src/backend.rs:242-262 | an absent path gives the default settings; a read failure and a parse failure are reported with the path; otherwise the parsed settings |
| `ConfigResolver.GenerateLinter` | src/backend.rs:264-284 | an absent path is an error; read and parse failures as for the server settings; otherwise a checker built from the parsed rule settings |
| `ConfigResolver.LoadersAgreeOnPresentFile` | src/backend.rs:242-284 | both loaders classify a present file the same way and differ only on an absent one |
| `Diagnostics.RuleWarning` | src/backend.rs:92-104 | a violation's diagnostic is a Warning with the rule name as code, source "svls", the hint as message, starting at the violation's position and spanning its length on that line |
| `Diagnostics.RuleWarningEndsAtTruePosition` | src/backend.rs:92-97 | for a violation holding no newline, the warning's end is the position just past it |
| `Diagnostics.ParseErrorDiagnostics` | src/backend.rs:109-127 | at most one diagnostic, present exactly for a syntax error located in the unsaved buffer: an Error without code, message "parse error", from the error to the end of its line |
| `Diagnostics.KeptMembers` | src/backend.rs:89-91 | only failures of the unsaved buffer are kept, and all of them |
| `Diagnostics.KeptAppend` | src/backend.rs:86-91 | filtering keeps the reported order: it commutes with concatenation |
| `Diagnostics.WarningsAt` | src/backend.rs:92-104 | each kept failure gives exactly one warning, at the same index |
| `Diagnostics.FlattenMembers` | src/backend.rs:86-87 | the failures of a pass are exactly those reported for its events |
| `Backend.RootPath` | src/backend.rs:35-44 | a missing root, or one that is not a file URL, gives the empty path; a root whose file path exists gives that path |
| `Backend.BuildIncludePaths` | src/backend.rs:47-54 | the loop builds `ResolveIncludes`: one include path per configured path, in order, each the root joined with it |
| `Backend.SplitFirst` | src/backend.rs:56-58 | the text before the first separator, which holds none, and the rest after it; the pieces rebuild the string |
| `Backend.DefineOf` | src/backend.rs:55-67 | the name is the text before the first '=' (all of it without '='); without '=' there is no text, with one the text is the unescaped rest, none when unescaping fails |
| `Backend.DefineMapKeys` | src/backend.rs:55-69 | the macro table names exactly the configured identifiers |
| `Backend.DefineMapLastWins` | src/backend.rs:67-68 | each identifier holds the define of the last string naming it |
| `Backend.BuildDefines` | src/backend.rs:55-69 | the loop builds `DefineMap` of the configured defines |
| `Backend.LintWarningFromBuffer` | src/backend.rs:82-108 | after a successful parse each diagnostic is the warning of a failure reported for some event and located in the unsaved buffer; with no checker there are none |
| `Backend.LintReportsEveryBufferFailure` | src/backend.rs:84-107 | after a successful parse with a checker, every failure in the unsaved buffer shows as its warning |
| `Backend.LintParseFailure` | src/backend.rs:109-127 | a failed parse gives at most one diagnostic, a "parse error" Error without code |
| `Backend.KeepOne` | src/backend.rs:89-104 | one more failure adds its warning when it lies in the unsaved buffer and nothing otherwise |
| `Backend.PushWarnings` | src/backend.rs:87-105 | the inner loop appends the warnings of one event's kept failures |
| `Backend.CheckTree` | src/backend.rs:84-107 | the event loop yields the warnings of all kept failures of all events, in order |
| `Backend.ReportParseError` | src/backend.rs:109-127 | the error branch yields `ParseErrorDiagnostics` of the error |
| `Backend.Lint` | src/backend.rs:32-130 | one pass returns `LintResult` for the text, root, settings and checker |

## Left out

- The async `LanguageServer` implementation (`initialize`, `initialized`,
  `shutdown`, `did_open`, `did_change`, workspace folders). It is protocol
  transport and messaging. So the fallback to defaults after a
  configuration error, and the warning shown to the user, are not modelled.
- The `Arc<RwLock<…>>` fields and the lock discipline (concurrency). The
  root, the settings and the checker are plain inputs to `Lint`.
- `Linter::check` is a function of the checker, the tree and the event.
  State the checker may accumulate across the events of a pass is not
  modelled.
- `src/main.rs` and `src/opt.rs`: process bootstrap and command-line
  declaration. `src/config.rs` is not part of this model. Its default
  (no include paths, no defines, rule checking on) is `DefaultConfig`.
- The internals of the parser, the rule checker, `unescape`, TOML,
  reading files, `Path::exists` and `current_dir`: foreign libraries and
  the filesystem.
- The wording of the configuration error messages and the `debug!` logs.
  Only the read / parse / not-found classification is kept.
- `PositionMapper.GetPosition`: line, column and offsets are unbounded
  naturals. The `u32` casts and `col + len` overflow of the source are not
  modelled. Columns count bytes, as in the source, not the UTF-16 units of
  the protocol.
- `Paths.FromString`: drops empty components only. The normalisation of
  `.` components and Windows path prefixes are not modelled.
- The parser's `ignore_include` and `allow_incomplete` flags are always
  `false` in the source and are not parameters of the model. The
  macro-table produced by the parser is discarded by the source and is not
  modelled. A define's text carries no origin.
