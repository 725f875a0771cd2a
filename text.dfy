/**
 * String primitives shared by the preprocessor and the harness: prefix and
 * suffix tests, the index searches of C++ `std::string`, Python's
 * `str.split`/`str.join` on one separator character, the code-point order
 * Python uses to compare strings, and ASCII lower-casing.
 */
module Text {
  import opened Wrappers
  import opened Ordering

  predicate StartsWith(s: string, prefix: string) {
    |prefix| <= |s| && s[..|prefix|] == prefix
  }

  predicate EndsWith(s: string, suffix: string) {
    |suffix| <= |s| && s[|s| - |suffix|..] == suffix
  }

  /**
   * `s.find_first_of(cs, from)`: the first index at or after `from` holding
   * one of `cs`, or None (`npos`), also when `from` is past the end.
   */
  function IndexOfAny(s: string, cs: set<char>, from: nat): (r: Option<nat>)
    ensures r.Some? ==> from <= r.value < |s| && s[r.value] in cs
    decreases |s| - from
  {
    if from >= |s| then None
    else if s[from] in cs then Some(from)
    else IndexOfAny(s, cs, from + 1)
  }

  /** The index found is the first: nothing between `from` and it, or up to the end, is in `cs`. */
  lemma {:induction false} IndexOfAnyFirst(s: string, cs: set<char>, from: nat)
    ensures IndexOfAny(s, cs, from).Some? ==> forall k :: from <= k < IndexOfAny(s, cs, from).value ==> s[k] !in cs
    ensures IndexOfAny(s, cs, from).None? ==> forall k :: from <= k < |s| ==> s[k] !in cs
    decreases |s| - from
  {
    if from < |s| && s[from] !in cs {
      IndexOfAnyFirst(s, cs, from + 1);
    }
  }

  /** The first index at or after `from` holding one of `cs` is what `IndexOfAny` finds. */
  lemma IndexOfAnyIs(s: string, cs: set<char>, from: nat, r: Option<nat>)
    requires r.Some? ==> from <= r.value < |s| && s[r.value] in cs && forall k :: from <= k < r.value ==> s[k] !in cs
    requires r.None? ==> forall k :: from <= k < |s| ==> s[k] !in cs
    ensures IndexOfAny(s, cs, from) == r
  {
    IndexOfAnyFirst(s, cs, from);
  }

  /** Searching a suffix of `s` finds what searching `s` from that offset finds, shifted. */
  lemma IndexOfAnyShift(s: string, cs: set<char>, start: nat)
    requires start <= |s|
    ensures IndexOfAny(s[start..], cs, 0) ==
      match IndexOfAny(s, cs, start)
      case None => None
      case Some(k) => Some(k - start)
  {
    var t := s[start..];
    assert forall k :: 0 <= k < |t| ==> t[k] == s[start + k];
    IndexOfAnyFirst(s, cs, start);
    match IndexOfAny(s, cs, start)
    case None => IndexOfAnyIs(t, cs, 0, None);
    case Some(k) => IndexOfAnyIs(t, cs, 0, Some(k - start));
  }

  /** `pat` occurs in `s` starting at index `i`. */
  predicate OccursAt(s: string, pat: string, i: nat) {
    i + |pat| <= |s| && s[i..i + |pat|] == pat
  }

  /** The last occurrence of `pat` starting at or below `i`. */
  function LastIndexAtOrBelow(s: string, pat: string, i: int): (r: Option<nat>)
    ensures r.Some? ==> r.value <= i && OccursAt(s, pat, r.value)
    ensures r.Some? ==> forall j: nat :: r.value < j <= i ==> !OccursAt(s, pat, j)
    ensures r.None? ==> forall j: nat :: j <= i ==> !OccursAt(s, pat, j)
    decreases i + 1
  {
    if i < 0 then None
    else if OccursAt(s, pat, i) then Some(i)
    else LastIndexAtOrBelow(s, pat, i - 1)
  }

  /** `s.rfind(pat)`: the start of the last occurrence of `pat` in `s`, or None (`npos`). */
  function LastIndexOf(s: string, pat: string): (r: Option<nat>)
    ensures r.Some? ==> OccursAt(s, pat, r.value)
    ensures r.Some? ==> forall j: nat :: r.value < j ==> !OccursAt(s, pat, j)
    ensures r.None? ==> forall j: nat :: !OccursAt(s, pat, j)
  {
    LastIndexAtOrBelow(s, pat, |s| - |pat|)
  }

  /** The last index below `upTo` holding `c`: `s.rfind(c)` when `upTo` is `|s|`. */
  function LastIndexOfChar(s: string, c: char, upTo: nat): (r: Option<nat>)
    requires upTo <= |s|
    ensures r.Some? ==> r.value < upTo && s[r.value] == c
    ensures r.Some? ==> forall k :: r.value < k < upTo ==> s[k] != c
    ensures r.None? ==> forall k :: 0 <= k < upTo ==> s[k] != c
  {
    if upTo == 0 then None
    else if s[upTo - 1] == c then Some(upTo - 1)
    else LastIndexOfChar(s, c, upTo - 1)
  }

  /** `sep.join(xs)`. */
  function Join(xs: seq<string>, sep: char): string
    decreases |xs|
  {
    if |xs| == 0 then []
    else if |xs| == 1 then xs[0]
    else xs[0] + [sep] + Join(xs[1..], sep)
  }

  /** `s.split(sep)`: the pieces between separators, at least one, none holding `sep`. */
  function Split(s: string, sep: char): (r: seq<string>)
    ensures |r| >= 1
    decreases |s|
  {
    match IndexOfAny(s, {sep}, 0)
    case None => [s]
    case Some(k) =>
      var rest := Split(s[k + 1..], sep);
      assert s == s[..k] + [sep] + s[k + 1..];
      [s[..k]] + rest
  }

  /** The pieces hold no separator. */
  lemma {:induction false} SplitNoSep(s: string, sep: char)
    ensures forall i :: 0 <= i < |Split(s, sep)| ==> sep !in Split(s, sep)[i]
    decreases |s|
  {
    IndexOfAnyFirst(s, {sep}, 0);
    match IndexOfAny(s, {sep}, 0)
    case None =>
      assert Split(s, sep) == [s];
    case Some(k) =>
      var rest := Split(s[k + 1..], sep);
      SplitNoSep(s[k + 1..], sep);
      SplitAtFirst(s, sep, k);
      var r := Split(s, sep);
      forall i | 0 <= i < |r| ensures sep !in r[i] {
        if i == 0 {
          assert r[0] == s[..k];
        } else {
          assert r[i] == rest[i - 1];
        }
      }
  }

  /** Joining the pieces gives the text back. */
  lemma {:induction false} SplitJoins(s: string, sep: char)
    ensures Join(Split(s, sep), sep) == s
    decreases |s|
  {
    match IndexOfAny(s, {sep}, 0)
    case None =>
      assert Split(s, sep) == [s];
    case Some(k) =>
      var rest := Split(s[k + 1..], sep);
      SplitJoins(s[k + 1..], sep);
      SplitAtFirst(s, sep, k);
      var r := [s[..k]] + rest;
      assert r[1..] == rest;
      assert Join(r, sep) == s[..k] + [sep] + Join(rest, sep);
      assert s == s[..k] + [sep] + s[k + 1..];
  }

  /** Splitting at the first separator: the piece before it, then the split of the rest. */
  lemma SplitAtFirst(s: string, sep: char, i: nat)
    requires IndexOfAny(s, {sep}, 0) == Some(i)
    ensures Split(s, sep) == [s[..i]] + Split(s[i + 1..], sep)
  {
  }

  /** Splitting a join of separator-free pieces gives the pieces back. */
  lemma {:induction false} SplitJoin(xs: seq<string>, sep: char)
    requires |xs| >= 1
    requires forall i :: 0 <= i < |xs| ==> sep !in xs[i]
    ensures Split(Join(xs, sep), sep) == xs
    decreases |xs|
  {
    var s := Join(xs, sep);
    if |xs| == 1 {
      IndexOfAnyIs(s, {sep}, 0, None);
    } else {
      var k := |xs[0]|;
      assert s == xs[0] + [sep] + Join(xs[1..], sep);
      assert s[k] == sep;
      forall j | 0 <= j < k ensures s[j] != sep {
        assert s[j] == xs[0][j];
      }
      IndexOfAnyIs(s, {sep}, 0, Some(k));
      assert s[..k] == xs[0];
      assert s[k + 1..] == Join(xs[1..], sep);
      SplitJoin(xs[1..], sep);
      assert xs == [xs[0]] + xs[1..];
    }
  }

  /** Python's string order: lexicographic by code point, a proper prefix first. */
  predicate StrLt(a: string, b: string)
    decreases |a|
  {
    if a == [] then b != []
    else b != [] && (a[0] < b[0] || (a[0] == b[0] && StrLt(a[1..], b[1..])))
  }

  lemma {:induction false} StrLtIrreflexive(a: string)
    ensures !StrLt(a, a)
    decreases |a|
  {
    if a != [] {
      StrLtIrreflexive(a[1..]);
    }
  }

  lemma {:induction false} StrLtTransitive(a: string, b: string, c: string)
    requires StrLt(a, b) && StrLt(b, c)
    ensures StrLt(a, c)
    decreases |a|
  {
    if a != [] && a[0] == b[0] && b[0] == c[0] {
      StrLtTransitive(a[1..], b[1..], c[1..]);
    }
  }

  lemma {:induction false} StrLtTotal(a: string, b: string)
    requires a != b
    ensures StrLt(a, b) || StrLt(b, a)
    decreases |a|
  {
    if a != [] && b != [] && a[0] == b[0] {
      assert a == [a[0]] + a[1..] && b == [b[0]] + b[1..];
      StrLtTotal(a[1..], b[1..]);
    }
  }

  lemma StrLtIsStrictTotal()
    ensures StrictTotalOrder(StrLt)
  {
    forall a ensures !StrLt(a, a) {
      StrLtIrreflexive(a);
    }
    forall a, b, c | StrLt(a, b) && StrLt(b, c) ensures StrLt(a, c) {
      StrLtTransitive(a, b, c);
    }
    forall a, b | a != b ensures StrLt(a, b) || StrLt(b, a) {
      StrLtTotal(a, b);
    }
  }

  predicate IsAsciiUpper(c: char) {
    'A' <= c <= 'Z'
  }

  function LowerChar(c: char): (r: char)
    ensures !IsAsciiUpper(r)
    ensures r == c || (IsAsciiUpper(c) && r as int == c as int + 32)
  {
    if IsAsciiUpper(c) then (c as int + 32) as char else c
  }

  /** `s.lower()` restricted to the ASCII letters. */
  function Lower(s: string): string {
    seq(|s|, i requires 0 <= i < |s| => LowerChar(s[i]))
  }

  predicate IsLower(s: string) {
    forall i :: 0 <= i < |s| ==> !IsAsciiUpper(s[i])
  }

  /**
   * Lower-casing keeps the length, maps each upper-case ASCII letter to its
   * lower-case one, keeps every other character, and leaves no upper-case
   * ASCII letter.
   */
  lemma LowerSpec(s: string)
    ensures |Lower(s)| == |s| && IsLower(Lower(s))
    ensures forall i :: 0 <= i < |s| ==>
      Lower(s)[i] == s[i] || (IsAsciiUpper(s[i]) && Lower(s)[i] as int == s[i] as int + 32)
  {
  }

  /** Lower-casing leaves an already lower-case string alone, so it is idempotent. */
  lemma LowerOfLower(s: string)
    requires IsLower(s)
    ensures Lower(s) == s
  {
  }
}
