/**
 * File-system paths as sequences of name segments, with the parts of
 * Python's `pathlib.PurePosixPath` the harness relies on: the final suffix,
 * `with_suffix`, `relative_to`, and the order `sorted()` puts paths in.
 * The file tree itself is a finite set of paths; a file exists when its path
 * is in the set.
 */
module Paths {
  import opened Wrappers
  import opened Ordering
  import opened Text

  type Path = seq<string>

  /** Where `PurePath.suffix` starts: the last '.', unless it opens the name or ends it. */
  function SuffixStart(name: string): (r: Option<nat>)
    ensures r.Some? ==> 0 < r.value < |name| - 1 && name[r.value] == '.'
    ensures r.Some? ==> forall k :: r.value < k < |name| ==> name[k] != '.'
  {
    match LastIndexOfChar(name, '.', |name|)
    case Some(i) => if 0 < i < |name| - 1 then Some(i) else None
    case None => None
  }

  /** `PurePath.suffix` of a name: its final suffix, or "" when it has none. */
  function Suffix(name: string): string {
    match SuffixStart(name)
    case Some(i) => name[i..]
    case None => ""
  }

  /** `PurePath.stem`: the name without its final suffix. */
  function Stem(name: string): (r: string)
    ensures r + Suffix(name) == name
  {
    match SuffixStart(name)
    case Some(i) => name[..i]
    case None => name
  }

  /** A suffix `with_suffix` accepts: empty, or starting with '.' but not just ".", and no '/'. */
  predicate ValidSuffix(suf: string) {
    && '/' !in suf
    && (suf == "" || (suf[0] == '.' && suf != "."))
  }

  /** A suffix of the form ".ext" with a non-empty extension free of dots, such as ".in". */
  predicate SimpleSuffix(suf: string) {
    |suf| >= 2 && suf[0] == '.' && '.' !in suf[1..] && '/' !in suf
  }

  /** A path whose final name is not empty, as every real file and directory name is. */
  predicate Named(p: Path) {
    |p| > 0 && p[|p| - 1] != ""
  }

  /** `p.with_suffix(suf)`: the last segment's final suffix replaced by `suf`. */
  function WithSuffix(p: Path, suf: string): Path
    requires Named(p)
    requires ValidSuffix(suf)
  {
    p[..|p| - 1] + [Stem(p[|p| - 1]) + suf]
  }

  /** `with_suffix` keeps the parent and replaces only the final name's suffix. */
  lemma WithSuffixParts(p: Path, suf: string)
    requires Named(p)
    requires ValidSuffix(suf)
    ensures |WithSuffix(p, suf)| == |p|
    ensures forall i :: 0 <= i < |p| - 1 ==> WithSuffix(p, suf)[i] == p[i]
    ensures WithSuffix(p, suf)[|p| - 1] == Stem(p[|p| - 1]) + suf
    ensures EndsWith(WithSuffix(p, suf)[|p| - 1], suf)
  {
    var name := Stem(p[|p| - 1]) + suf;
    assert name[|name| - |suf|..] == suf;
  }

  /** A name that ends in a simple suffix and has something before it carries that suffix. */
  lemma SuffixOfSimple(name: string, suf: string)
    requires SimpleSuffix(suf)
    requires EndsWith(name, suf) && |name| > |suf|
    ensures SuffixStart(name) == Some(|name| - |suf|)
    ensures Suffix(name) == suf && Stem(name) == name[..|name| - |suf|]
  {
    var i := |name| - |suf|;
    assert name[i..] == suf;
    assert name[i] == '.';
    forall j | i < j < |name| ensures name[j] != '.' {
      assert name[j] == suf[j - i];
      assert suf[j - i] in suf[1..];
    }
    assert LastIndexOfChar(name, '.', |name|) == Some(i);
  }

  /**
   * Replacing a simple suffix twice is replacing it once: the paired output
   * path and the input differ in the terminal suffix only, and going back
   * from the output with the input suffix restores the input.
   */
  lemma WithSuffixRoundTrip(p: Path, inSuffix: string, outSuffix: string)
    requires Named(p) && SimpleSuffix(inSuffix) && SimpleSuffix(outSuffix)
    requires EndsWith(p[|p| - 1], inSuffix) && |p[|p| - 1]| > |inSuffix|
    ensures WithSuffix(WithSuffix(p, outSuffix), inSuffix) == p
  {
    var name := p[|p| - 1];
    SuffixOfSimple(name, inSuffix);
    var stem := name[..|name| - |inSuffix|];
    var q := WithSuffix(p, outSuffix);
    var outName := stem + outSuffix;
    assert q[|q| - 1] == outName;
    assert outName[|outName| - |outSuffix|..] == outSuffix;
    SuffixOfSimple(outName, outSuffix);
    assert Stem(outName) == stem;
    assert name == stem + inSuffix;
    assert p == p[..|p| - 1] + [name];
  }

  /** `p.relative_to(base)`: the segments of `p` below `base`. */
  function RelativeTo(p: Path, base: Path): (r: Path)
    requires |base| <= |p| && p[..|base|] == base
    ensures base + r == p
  {
    p[|base|..]
  }

  /** The order `sorted()` gives `PurePosixPath` objects: segment by segment. */
  predicate PathLt(a: Path, b: Path)
    decreases |a|
  {
    if a == [] then b != []
    else b != [] && (StrLt(a[0], b[0]) || (a[0] == b[0] && PathLt(a[1..], b[1..])))
  }

  lemma {:induction false} PathLtIrreflexive(a: Path)
    ensures !PathLt(a, a)
    decreases |a|
  {
    if a != [] {
      StrLtIrreflexive(a[0]);
      PathLtIrreflexive(a[1..]);
    }
  }

  lemma {:induction false} PathLtTransitive(a: Path, b: Path, c: Path)
    requires PathLt(a, b) && PathLt(b, c)
    ensures PathLt(a, c)
    decreases |a|
  {
    if a != [] {
      if StrLt(a[0], b[0]) && StrLt(b[0], c[0]) {
        StrLtTransitive(a[0], b[0], c[0]);
      } else if a[0] == b[0] && b[0] == c[0] {
        PathLtTransitive(a[1..], b[1..], c[1..]);
      }
    }
  }

  lemma {:induction false} PathLtTotal(a: Path, b: Path)
    requires a != b
    ensures PathLt(a, b) || PathLt(b, a)
    decreases |a|
  {
    if a != [] && b != [] {
      if a[0] == b[0] {
        assert a == [a[0]] + a[1..] && b == [b[0]] + b[1..];
        PathLtTotal(a[1..], b[1..]);
      } else {
        StrLtTotal(a[0], b[0]);
      }
    }
  }

  lemma PathLtIsStrictTotal()
    ensures StrictTotalOrder(PathLt)
  {
    forall a ensures !PathLt(a, a) {
      PathLtIrreflexive(a);
    }
    forall a, b, c | PathLt(a, b) && PathLt(b, c) ensures PathLt(a, c) {
      PathLtTransitive(a, b, c);
    }
    forall a, b | a != b ensures PathLt(a, b) || PathLt(b, a) {
      PathLtTotal(a, b);
    }
  }

  /** `sorted(paths)` for a set of distinct paths. */
  function SortedPaths(s: set<Path>): (r: seq<Path>)
    ensures |r| == |s|
    ensures forall p :: p in r <==> p in s
    ensures StrictlySorted(r, PathLt)
  {
    PathLtIsStrictTotal();
    SortSet(s, PathLt)
  }
}
