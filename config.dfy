/**
 * Locating and loading the two settings files, `.svls.toml` and
 * `.svlint.toml`. Reading a file, deciding whether a path exists and TOML
 * deserialisation belong to the filesystem and to libraries, so they are
 * parameters: `read` stands for `std::fs::read_to_string`, `existing` for
 * the paths at which `Path::exists` holds, and `parseToml` for
 * `toml::from_str` at the settings type.
 */
module ConfigResolver {
  import opened Wrappers
  import opened Paths

  /** The `[verilog]` table of `.svls.toml`. */
  datatype VerilogConfig = VerilogConfig(includePaths: seq<string>, defines: seq<string>)

  /** The `[option]` table of `.svls.toml`. */
  datatype OptionConfig = OptionConfig(linter: bool)

  /** The server settings read from `.svls.toml`. */
  datatype Config = Config(verilog: VerilogConfig, option: OptionConfig)

  /** `Config::default()`: no include paths, no defines, rule checking on. */
  const DefaultConfig: Config := Config(VerilogConfig([], []), OptionConfig(true))

  /** The rule settings read from `.svlint.toml`, opaque to the server. */
  datatype LintConfig = LintConfig(table: string)

  /** A rule-checking engine built from rule settings (`Linter::new`). */
  datatype Linter = Linter(config: LintConfig)

  /** Why a settings file could not be used; each case names the path. */
  datatype ConfigError = ReadFailed(path: Path) | ParseFailed(path: Path) | NotFound

  /**
   * `dirs[i]` is the first of `dirs` under which `name` exists: it exists
   * there and under none before.
   */
  ghost predicate FirstWith(dirs: seq<Path>, name: Path, existing: set<Path>, i: int)
  {
    0 <= i < |dirs| && Join(dirs[i], name) in existing &&
    forall j :: 0 <= j < i ==> Join(dirs[j], name) !in existing
  }

  /**
   * `search_config`: the first of the current directory and its ancestors,
   * nearest first, at which `name` joined onto it exists.
   */
  method SearchConfig(current: Option<Path>, name: Path, existing: set<Path>) returns (r: Option<Path>)
    ensures current.None? ==> r.None?
    ensures current.Some? && r.Some? ==>
      exists i :: FirstWith(Ancestors(current.value), name, existing, i) &&
        r.value == Join(Ancestors(current.value)[i], name)
    ensures current.Some? && r.None? ==>
      forall i :: 0 <= i < |Ancestors(current.value)| ==> Join(Ancestors(current.value)[i], name) !in existing
  {
    if current.None? {
      return None;
    }
    var dirs := Ancestors(current.value);
    var i := 0;
    while i < |dirs|
      invariant i <= |dirs|
      invariant forall j :: 0 <= j < i ==> Join(dirs[j], name) !in existing
    {
      var candidate := Join(dirs[i], name);
      if candidate in existing {
        assert FirstWith(dirs, name, existing, i);
        return Some(candidate);
      }
      i := i + 1;
    }
    return None;
  }

  /**
   * `generate_config`: no path gives the default settings; a path that
   * cannot be read, or whose contents do not deserialise, gives an error
   * naming it; otherwise the deserialised settings.
   */
  function GenerateConfig(path: Option<Path>, read: Path -> Option<string>,
                          parseToml: string -> Option<Config>): (r: Result<Config, ConfigError>)
    ensures path.None? ==> r == Ok(DefaultConfig)
    ensures r.Err? ==> path.Some? && r.error != NotFound && r.error.path == path.value
    ensures r.Err? && r.error.ReadFailed? <==> path.Some? && read(path.value).None?
    ensures r.Err? && r.error.ParseFailed? <==>
      path.Some? && read(path.value).Some? && parseToml(read(path.value).value).None?
    ensures r.Ok? && path.Some? ==>
      read(path.value).Some? && Some(r.value) == parseToml(read(path.value).value)
  {
    match path
    case None => Ok(DefaultConfig)
    case Some(p) =>
      match read(p)
      case None => Err(ReadFailed(p))
      case Some(text) =>
        match parseToml(text)
        case None => Err(ParseFailed(p))
        case Some(config) => Ok(config)
  }

  /**
   * `generate_linter`: as `generate_config`, except that a missing
   * `.svlint.toml` is itself an error.
   */
  function GenerateLinter(path: Option<Path>, read: Path -> Option<string>,
                          parseToml: string -> Option<LintConfig>): (r: Result<Linter, ConfigError>)
    ensures path.None? <==> r == Err(NotFound)
    ensures r.Err? && r.error.ReadFailed? <==> path.Some? && read(path.value).None?
    ensures r.Err? && r.error.ParseFailed? <==>
      path.Some? && read(path.value).Some? && parseToml(read(path.value).value).None?
    ensures r.Err? && path.Some? ==> r.error.path == path.value
    ensures r.Ok? ==>
      path.Some? && read(path.value).Some? && Some(r.value.config) == parseToml(read(path.value).value)
  {
    match path
    case None => Err(NotFound)
    case Some(p) =>
      match read(p)
      case None => Err(ReadFailed(p))
      case Some(text) =>
        match parseToml(text)
        case None => Err(ParseFailed(p))
        case Some(config) => Ok(Linter(config))
  }

  /**
   * Both loaders classify a settings file that is present in the same way:
   * they fail to read it together, and each fails to parse it exactly when
   * its own deserialiser rejects the text. They differ only on an absent file.
   */
  lemma LoadersAgreeOnPresentFile(p: Path, read: Path -> Option<string>,
                                  parseConfig: string -> Option<Config>,
                                  parseLint: string -> Option<LintConfig>)
    ensures GenerateConfig(Some(p), read, parseConfig) == Err(ReadFailed(p)) <==>
            GenerateLinter(Some(p), read, parseLint) == Err(ReadFailed(p))
    ensures read(p).Some? ==>
      (GenerateConfig(Some(p), read, parseConfig) == Err(ParseFailed(p)) <==> parseConfig(read(p).value).None?) &&
      (GenerateLinter(Some(p), read, parseLint) == Err(ParseFailed(p)) <==> parseLint(read(p).value).None?)
    ensures GenerateConfig(None, read, parseConfig).Ok? && GenerateLinter(None, read, parseLint).Err?
  {
  }
}
