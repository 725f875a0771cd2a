/**
 * Fixture discovery shared by the test suites (tests/__init__.py): input
 * files are found below a folder, sorted, and paired with the output file
 * whose name differs in the final suffix only; an input without an output
 * file is skipped with a warning. The file system is a finite set of file
 * paths; a directory exists when some file lies below it.
 */
module Discovery {
  import opened Ordering
  import opened Text
  import opened Paths

  /** Every file and directory of a tree given by its file paths: their non-empty prefixes. */
  function Existing(tree: set<Path>): set<Path> {
    set p, i | p in tree && 1 <= i <= |p| :: p[..i]
  }

  /** `p` lies strictly below `folder`. */
  predicate Under(p: Path, folder: Path) {
    |folder| < |p| && p[..|folder|] == folder
  }

  // folder.glob("**/*" + suffix): the entries at any depth below `folder` whose name ends in `suffix`.
  function GlobDeep(tree: set<Path>, folder: Path, suffix: string): (r: set<Path>)
    ensures forall p :: p in r ==> Under(p, folder) && Named(p) && EndsWith(p[|p| - 1], suffix)
  {
    set p | p in Existing(tree) && Under(p, folder) && Named(p) && EndsWith(p[|p| - 1], suffix)
  }

  // folder.glob("*/*" + suffix): the entries exactly one directory below `folder` whose name ends in `suffix`.
  function GlobOneLevel(tree: set<Path>, folder: Path, suffix: string): (r: set<Path>)
    ensures forall p :: p in r ==> Under(p, folder) && |p| == |folder| + 2 && Named(p) && EndsWith(p[|p| - 1], suffix)
  {
    set p | p in Existing(tree) && Under(p, folder) && |p| == |folder| + 2 && Named(p) && EndsWith(p[|p| - 1], suffix)
  }

  /** `ParserTestFiles`: an input, its output, and the folder the input was found under. */
  datatype ParserTestFiles = ParserTestFiles(input: Path, output: Path, testFolder: Path)

  /**
   * The test id: the input relative to `folder`, its final suffix removed,
   * its parts joined by '.'.
   */
  function DottedId(input: Path, folder: Path): string
    requires Under(input, folder) && Named(input)
  {
    Join(WithSuffix(RelativeTo(input, folder), ""), '.')
  }

  /** `ParserTestFiles.__str__`. */
  function Id(f: ParserTestFiles): string
    requires Under(f.input, f.testFolder) && Named(f.input)
  {
    DottedId(f.input, f.testFolder)
  }

  /** No directory below the folder and not the stem of the file name holds a '.'. */
  predicate Dotless(input: Path, folder: Path)
    requires Under(input, folder) && Named(input)
  {
    (forall i :: |folder| <= i < |input| - 1 ==> '.' !in input[i]) && '.' !in Stem(input[|input| - 1])
  }

  /** The id keeps every directory below the folder and the input's stem, in order. */
  lemma DottedIdParts(input: Path, folder: Path)
    requires Under(input, folder) && Named(input)
    requires forall i :: |folder| <= i < |input| - 1 ==> '.' !in input[i]
    requires '.' !in Stem(input[|input| - 1])
    ensures Split(DottedId(input, folder), '.') ==
      input[|folder|..|input| - 1] + [Stem(input[|input| - 1])]
  {
    var parts := WithSuffix(RelativeTo(input, folder), "");
    IdPieces(input, folder);
    forall i | 0 <= i < |parts| ensures '.' !in parts[i] {
      if i < |parts| - 1 {
        assert parts[i] == input[|folder| + i];
      }
    }
    SplitJoin(parts, '.');
  }

  /** The pieces the id joins: the directories below the folder, then the stem. */
  lemma IdPieces(input: Path, folder: Path)
    requires Under(input, folder) && Named(input)
    ensures WithSuffix(RelativeTo(input, folder), "") == input[|folder|..|input| - 1] + [Stem(input[|input| - 1])]
  {
    var rel := RelativeTo(input, folder);
    var stem := Stem(input[|input| - 1]);
    assert rel[|rel| - 1] == input[|input| - 1];
    assert rel[..|rel| - 1] == input[|folder|..|input| - 1];
    assert stem + "" == stem;
  }

  /** The example of the id's format: `a/case1.in` below the folder has the id `a.case1`. */
  lemma DottedIdExample(folder: Path, input: Path)
    requires input == folder + ["a", "case1.in"]
    ensures DottedId(input, folder) == "a.case1"
  {
    var name := "case1.in";
    SuffixOfSimple(name, ".in");
    assert Stem(name) == "case1" by {
      assert name[..|name| - 3] == "case1";
    }
    assert RelativeTo(input, folder) == ["a", name];
    var parts := WithSuffix(["a", name], "");
    assert Stem(name) + "" == "case1";
    assert ["a", name][..1] == ["a"];
    assert parts == ["a", "case1"];
    assert Join(parts, '.') == "a" + ['.'] + Join(["case1"], '.');
  }

  /** Each input paired with its output where that exists; the others, in order, as skipped. */
  datatype Found = Found(cases: seq<ParserTestFiles>, skipped: seq<Path>)

  function CaseInputs(cases: seq<ParserTestFiles>): (r: seq<Path>)
    ensures |r| == |cases| && forall i :: 0 <= i < |r| ==> r[i] == cases[i].input
  {
    seq(|cases|, i requires 0 <= i < |cases| => cases[i].input)
  }

  lemma CaseInputsCons(c: ParserTestFiles, cases: seq<ParserTestFiles>)
    ensures CaseInputs([c] + cases) == [c.input] + CaseInputs(cases)
  {
    var l, r := CaseInputs([c] + cases), [c.input] + CaseInputs(cases);
    assert |l| == |r|;
    forall i | 0 <= i < |l| ensures l[i] == r[i] {
      if i > 0 {
        assert ([c] + cases)[i] == cases[i - 1];
      }
    }
  }

  /** The output paired with input `p` is among the `present` files and directories. */
  predicate HasOutput(p: Path, present: set<Path>, outSuffix: string)
    requires ValidSuffix(outSuffix)
  {
    Named(p) && WithSuffix(p, outSuffix) in present
  }

  /**
   * The loop body of `find_test_cases` over the sorted inputs: yield the
   * pair when `input.with_suffix(outSuffix)` is among the `present` files and
   * directories, warn and skip otherwise.
   */
  function Pair(inputs: seq<Path>, present: set<Path>, folder: Path, outSuffix: string): (r: Found)
    requires ValidSuffix(outSuffix)
    ensures |r.cases| + |r.skipped| == |inputs|
    decreases |inputs|
  {
    if inputs == [] then Found([], [])
    else
      var input := inputs[0];
      var rest := Pair(inputs[1..], present, folder, outSuffix);
      if HasOutput(input, present, outSuffix) then
        Found([ParserTestFiles(input, WithSuffix(input, outSuffix), folder)] + rest.cases, rest.skipped)
      else Found(rest.cases, [input] + rest.skipped)
  }

  /** `c` pairs an input whose output exists with that output, under `folder`. */
  predicate IsCase(c: ParserTestFiles, present: set<Path>, folder: Path, outSuffix: string)
    requires ValidSuffix(outSuffix)
  {
    && HasOutput(c.input, present, outSuffix)
    && c.output == WithSuffix(c.input, outSuffix)
    && c.testFolder == folder
  }

  /** Every yielded record pairs one of the inputs with its existing output and carries the folder. */
  lemma {:induction false} PairYields(inputs: seq<Path>, present: set<Path>, folder: Path, outSuffix: string)
    requires ValidSuffix(outSuffix)
    ensures forall c :: c in Pair(inputs, present, folder, outSuffix).cases ==>
      c.input in inputs && IsCase(c, present, folder, outSuffix)
    decreases |inputs|
  {
    if inputs != [] {
      var rest := Pair(inputs[1..], present, folder, outSuffix);
      PairYields(inputs[1..], present, folder, outSuffix);
      var r := Pair(inputs, present, folder, outSuffix);
      assert inputs == [inputs[0]] + inputs[1..];
      if HasOutput(inputs[0], present, outSuffix) {
        var c := ParserTestFiles(inputs[0], WithSuffix(inputs[0], outSuffix), folder);
        assert r.cases == [c] + rest.cases;
      } else {
        assert r.cases == rest.cases;
      }
    }
  }

  /** An input is yielded exactly when its output exists, and skipped exactly when it does not. */
  lemma PairPartition(inputs: seq<Path>, present: set<Path>, folder: Path, outSuffix: string)
    requires ValidSuffix(outSuffix)
    ensures var r := Pair(inputs, present, folder, outSuffix);
      && (forall p :: p in CaseInputs(r.cases) <==> p in inputs && HasOutput(p, present, outSuffix))
      && (forall p :: p in r.skipped <==> p in inputs && !HasOutput(p, present, outSuffix))
  {
    PairCases(inputs, present, folder, outSuffix);
    PairSkipped(inputs, present, folder, outSuffix);
  }

  lemma {:induction false} PairCases(inputs: seq<Path>, present: set<Path>, folder: Path, outSuffix: string)
    requires ValidSuffix(outSuffix)
    ensures forall p :: p in CaseInputs(Pair(inputs, present, folder, outSuffix).cases) <==>
      p in inputs && HasOutput(p, present, outSuffix)
    decreases |inputs|
  {
    if inputs != [] {
      var rest := Pair(inputs[1..], present, folder, outSuffix);
      PairCases(inputs[1..], present, folder, outSuffix);
      var r := Pair(inputs, present, folder, outSuffix);
      assert inputs == [inputs[0]] + inputs[1..];
      if HasOutput(inputs[0], present, outSuffix) {
        CaseInputsCons(r.cases[0], rest.cases);
        assert r.cases == [r.cases[0]] + rest.cases;
      } else {
        assert r.cases == rest.cases;
      }
    }
  }

  lemma {:induction false} PairSkipped(inputs: seq<Path>, present: set<Path>, folder: Path, outSuffix: string)
    requires ValidSuffix(outSuffix)
    ensures forall p :: p in Pair(inputs, present, folder, outSuffix).skipped <==>
      p in inputs && !HasOutput(p, present, outSuffix)
    decreases |inputs|
  {
    if inputs != [] {
      PairSkipped(inputs[1..], present, folder, outSuffix);
      assert inputs == [inputs[0]] + inputs[1..];
    }
  }

  /** Yielding keeps the order of the inputs, whatever strict order they are sorted by. */
  lemma {:induction false} PairSorted(inputs: seq<Path>, present: set<Path>, folder: Path, outSuffix: string,
                                      lt: (Path, Path) -> bool)
    requires ValidSuffix(outSuffix)
    requires StrictlySorted(inputs, lt)
    ensures StrictlySorted(CaseInputs(Pair(inputs, present, folder, outSuffix).cases), lt)
    decreases |inputs|
  {
    if inputs != [] {
      var rc := Pair(inputs[1..], present, folder, outSuffix).cases;
      var rest := CaseInputs(rc);
      SortedTail(inputs, lt);
      PairSorted(inputs[1..], present, folder, outSuffix, lt);
      PairPartition(inputs[1..], present, folder, outSuffix);
      var r := Pair(inputs, present, folder, outSuffix);
      if HasOutput(inputs[0], present, outSuffix) {
        assert r.cases == [r.cases[0]] + rc;
        CaseInputsCons(r.cases[0], rc);
        forall j | 0 <= j < |rest| ensures lt(inputs[0], rest[j]) {
          assert rest[j] in inputs[1..];
          var k :| 0 <= k < |inputs| - 1 && inputs[1..][k] == rest[j];
          assert inputs[k + 1] == rest[j];
        }
        SortedCons(inputs[0], rest, lt);
      } else {
        assert r.cases == rc;
      }
    }
  }

  /** `find_test_cases(test_folder, input_suffix, output_suffix)`. */
  function FindTestCases(tree: set<Path>, folder: Path, inSuffix: string := ".in", outSuffix: string := ".out"): Found
    requires ValidSuffix(outSuffix)
  {
    var inputs := SortedPaths(GlobDeep(tree, folder, inSuffix));
    Pair(inputs, Existing(tree), folder, outSuffix)
  }

  /**
   * What `find_test_cases` promises: every input found below the folder is
   * either yielded, paired with its existing output and the folder, or
   * skipped because that output is missing, never both and each once; the
   * yielded inputs come in sorted order.
   */
  lemma FindTestCasesSpec(tree: set<Path>, folder: Path, inSuffix: string, outSuffix: string)
    requires ValidSuffix(outSuffix)
    ensures var r := FindTestCases(tree, folder, inSuffix, outSuffix);
      && |r.cases| + |r.skipped| == |GlobDeep(tree, folder, inSuffix)|
      && (forall p :: p in CaseInputs(r.cases) <==>
            p in GlobDeep(tree, folder, inSuffix) && HasOutput(p, Existing(tree), outSuffix))
      && (forall p :: p in r.skipped <==>
            p in GlobDeep(tree, folder, inSuffix) && !HasOutput(p, Existing(tree), outSuffix))
      && (forall c :: c in r.cases ==> IsCase(c, Existing(tree), folder, outSuffix))
      && StrictlySorted(CaseInputs(r.cases), PathLt)
  {
    var inputs := SortedPaths(GlobDeep(tree, folder, inSuffix));
    PairYields(inputs, Existing(tree), folder, outSuffix);
    PairPartition(inputs, Existing(tree), folder, outSuffix);
    PairSorted(inputs, Existing(tree), folder, outSuffix, PathLt);
  }

  /**
   * Every record `find_test_cases` yields has an id, the one pytest shows
   * for it: the record carries the folder, and its input is an entry found
   * below it.
   */
  lemma CaseId(tree: set<Path>, folder: Path, inSuffix: string, outSuffix: string, c: ParserTestFiles)
    requires ValidSuffix(outSuffix)
    requires c in FindTestCases(tree, folder, inSuffix, outSuffix).cases
    ensures c.testFolder == folder && c.input in GlobDeep(tree, folder, inSuffix)
    ensures Under(c.input, c.testFolder) && Named(c.input)
  {
    var inputs := SortedPaths(GlobDeep(tree, folder, inSuffix));
    PairYields(inputs, Existing(tree), folder, outSuffix);
  }

  /**
   * When no directory below the folder and not the stem holds a '.', the id
   * splits at its dots into those directories and the stem.
   */
  lemma IdParts(f: ParserTestFiles)
    requires Under(f.input, f.testFolder) && Named(f.input) && Dotless(f.input, f.testFolder)
    ensures Split(Id(f), '.') == f.input[|f.testFolder|..|f.input| - 1] + [Stem(f.input[|f.input| - 1])]
  {
    DottedIdParts(f.input, f.testFolder);
  }
}
