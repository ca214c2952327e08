/**
 * Filesystem paths as Rust's `Path`/`PathBuf` treat them for the backend:
 * a list of components, with a flag for a leading root. Two paths are equal
 * when their components are, as `PathBuf`'s equality compares components.
 */
module Paths {

  datatype Path = Path(absolute: bool, parts: seq<string>)

  /** `PathBuf::from("")`: the path of the unsaved in-memory buffer. */
  const EmptyPath: Path := Path(false, [])

  /**
   * `PathBuf::push` / `Path::join`: an absolute argument replaces the base,
   * a relative one is appended to it.
   */
  function Join(base: Path, p: Path): (r: Path)
    ensures p.absolute ==> r == p
    ensures !p.absolute ==> r.absolute == base.absolute && |r.parts| == |base.parts| + |p.parts|
    ensures !p.absolute ==> r.parts[..|base.parts|] == base.parts && r.parts[|base.parts|..] == p.parts
  {
    if p.absolute then p else Path(base.absolute, base.parts + p.parts)
  }

  /** `Path::parent`, defined only where Rust returns `Some`. */
  function Parent(p: Path): Path
    requires p.parts != []
  {
    Path(p.absolute, p.parts[..|p.parts| - 1])
  }

  /**
   * `Path::ancestors`: the path itself, then each successive parent, ending
   * at the path with no components (the root, or the empty relative path).
   */
  function Ancestors(p: Path): (r: seq<Path>)
    decreases |p.parts|
    ensures |r| == |p.parts| + 1
    ensures r[0] == p
    ensures r[|r| - 1] == Path(p.absolute, [])
    ensures forall k :: 0 <= k < |r| - 1 ==> r[k].parts != [] && r[k + 1] == Parent(r[k])
    ensures forall k :: 0 <= k < |r| ==> r[k].absolute == p.absolute && |r[k].parts| == |p.parts| - k
  {
    if p.parts == [] then [p] else [p] + Ancestors(Parent(p))
  }

  /**
   * The components of a path string (`PathBuf::from`): the text between
   * separators '/', with empty components dropped.
   */
  function Components(s: string): seq<string>
    decreases |s|
  {
    if s == [] then []
    else
      var i := SeparatorIndex(s);
      if i == |s| then [s]
      else if i == 0 then Components(s[1..])
      else [s[..i]] + Components(s[i + 1..])
  }

  /**
   * Every component is non-empty and holds no separator; a non-empty string
   * without a separator is its own single component.
   */
  lemma {:induction false} ComponentsWellFormed(s: string)
    ensures forall k :: 0 <= k < |Components(s)| ==> Components(s)[k] != [] && '/' !in Components(s)[k]
    ensures '/' !in s && s != [] ==> Components(s) == [s]
    decreases |s|
  {
    if s != [] {
      var i := SeparatorIndex(s);
      if i == 0 {
        ComponentsWellFormed(s[1..]);
      } else if i < |s| {
        ComponentsWellFormed(s[i + 1..]);
      }
    }
  }

  /** Index of the first '/' in `s`, or `|s|` when there is none. */
  function SeparatorIndex(s: string): (i: nat)
    ensures i <= |s|
    ensures '/' !in s[..i]
    ensures i < |s| ==> s[i] == '/'
  {
    if s == [] then 0
    else if s[0] == '/' then 0
    else 1 + SeparatorIndex(s[1..])
  }

  function FromString(s: string): (p: Path)
    ensures p.absolute <==> |s| > 0 && s[0] == '/'
    ensures p.parts == Components(s)
  {
    Path(|s| > 0 && s[0] == '/', Components(s))
  }

  /** The first separator of `a + x` is that of `a`, or else found in `x`. */
  lemma {:induction false} SeparatorIndexAppend(a: string, x: string)
    ensures SeparatorIndex(a + x) == if SeparatorIndex(a) < |a| then SeparatorIndex(a) else |a| + SeparatorIndex(x)
    decreases |a|
  {
    if a != [] && a[0] != '/' {
      assert (a + x)[1..] == a[1..] + x;
      SeparatorIndexAppend(a[1..], x);
    } else if a == [] {
      assert a + x == x;
    }
  }

  /** A leading separator contributes no component. */
  lemma ComponentsLeadingSeparator(s: string)
    requires s != [] && s[0] == '/'
    ensures Components(s) == Components(s[1..])
  {
  }

  /** The text before the first separator, when non-empty, is the first component. */
  lemma ComponentsFirstPiece(s: string, i: nat)
    requires i == SeparatorIndex(s) && 0 < i < |s|
    ensures Components(s) == [s[..i]] + Components(s[i + 1..])
  {
  }

  /** The split at a separator with no text before it. */
  lemma SplitAfterNothing(b: string)
    ensures Components([] + ['/'] + b) == Components([]) + Components(b)
  {
    var s := [] + ['/'] + b;
    assert s[1..] == b;
    ComponentsLeadingSeparator(s);
  }

  /** The split at the first separator after a separator-free, non-empty piece. */
  lemma SplitAfterPiece(a: string, b: string)
    requires a != [] && SeparatorIndex(a) == |a|
    ensures Components(a + ['/'] + b) == Components(a) + Components(b)
  {
    var s := a + ['/'] + b;
    assert s == a + (['/'] + b);
    SeparatorIndexAppend(a, ['/'] + b);
    assert s[..|a|] == a && s[|a| + 1..] == b;
    ComponentsFirstPiece(s, |a|);
    assert a[..|a|] == a;
  }

  /** The split of `a + "/" + b` when `a` opens with a separator. */
  lemma SplitAfterLeadingSeparator(a: string, b: string)
    requires a != [] && a[0] == '/'
    requires Components(a[1..] + ['/'] + b) == Components(a[1..]) + Components(b)
    ensures Components(a + ['/'] + b) == Components(a) + Components(b)
  {
    var s := a + ['/'] + b;
    assert s[1..] == a[1..] + ['/'] + b;
    ComponentsLeadingSeparator(s);
    ComponentsLeadingSeparator(a);
  }

  /** Appending after a string that holds a separator keeps its first separator, and the text around it. */
  lemma SplitKeepsFirstSeparator(a: string, b: string, i: nat)
    requires i == SeparatorIndex(a) && i < |a|
    ensures SeparatorIndex(a + ['/'] + b) == i
    ensures (a + ['/'] + b)[..i] == a[..i]
    ensures (a + ['/'] + b)[i + 1..] == a[i + 1..] + ['/'] + b
  {
    assert a + ['/'] + b == a + (['/'] + b);
    SeparatorIndexAppend(a, ['/'] + b);
  }

  /** Concatenation regroups. */
  lemma SeqAssoc(x: seq<string>, y: seq<string>, z: seq<string>)
    ensures x + (y + z) == x + y + z
  {
  }

  /** The split of `a + "/" + b` when `a` holds a separator after some text. */
  lemma SplitAfterInnerSeparator(a: string, b: string, i: nat)
    requires i == SeparatorIndex(a) && 0 < i < |a|
    requires Components(a[i + 1..] + ['/'] + b) == Components(a[i + 1..]) + Components(b)
    ensures Components(a + ['/'] + b) == Components(a) + Components(b)
  {
    SplitKeepsFirstSeparator(a, b, i);
    ComponentsFirstPiece(a + ['/'] + b, i);
    ComponentsFirstPiece(a, i);
    var head, cs, cb := a[..i], Components(a[i + 1..]), Components(b);
    assert Components(a + ['/'] + b) == [head] + (cs + cb);
    assert Components(a) == [head] + cs;
    SeqAssoc([head], cs, cb);
  }

  /**
   * A separator splits the components: those of `a + "/" + b` are those of
   * `a` followed by those of `b`. With `Components("") == []` and a single
   * separator-free piece giving itself, this determines `Components`.
   */
  lemma {:induction false} ComponentsSplit(a: string, b: string)
    ensures Components(a + ['/'] + b) == Components(a) + Components(b)
    decreases |a|
  {
    var i := SeparatorIndex(a);
    if a == [] {
      SplitAfterNothing(b);
    } else if i == |a| {
      SplitAfterPiece(a, b);
    } else if i == 0 {
      ComponentsSplit(a[1..], b);
      SplitAfterLeadingSeparator(a, b);
    } else {
      ComponentsSplit(a[i + 1..], b);
      SplitAfterInnerSeparator(a, b, i);
    }
  }
}
