/**
 * The parser conformance test of tests/test_parser.py: fixtures one
 * directory below the tests folder, the `canonicalize` wrapper around
 * `ET.canonicalize`, and the decision `test_parser` makes for one case. The
 * program run and the canonicalizer are given as values (see Oracles).
 */
module TestParser {
  import opened Wrappers
  import opened Ordering
  import opened Text
  import opened Paths
  import opened Oracles
  import opened Discovery

  /** `INPUT_SUFFIX` and `OUTPUT_SUFFIX`, with the leading dot the glob and `with_suffix` add. */
  const InputSuffix: string := ".in"
  const OutputSuffix: string := ".out"

  // `find_test_cases()`: the inputs "*/*.in" one directory below the tests
  // folder, sorted, each paired with its `.out` file when that exists. The
  // records carry the tests folder, the module constant the id is computed
  // against.
  function FindTestCases(tree: set<Path>, testsFolder: Path): Found {
    var inputs := SortedPaths(GlobOneLevel(tree, testsFolder, InputSuffix));
    Pair(inputs, Existing(tree), testsFolder, OutputSuffix)
  }

  /**
   * What the one-level discovery yields: each input found exactly one level
   * below the folder either as a case paired with its existing `.out` file,
   * or as skipped because that file is missing; the cases in sorted order.
   */
  lemma FindTestCasesSpec(tree: set<Path>, testsFolder: Path)
    ensures |FindTestCases(tree, testsFolder).cases| + |FindTestCases(tree, testsFolder).skipped|
      == |GlobOneLevel(tree, testsFolder, InputSuffix)|
    ensures forall c :: c in FindTestCases(tree, testsFolder).cases ==>
      && c.input in GlobOneLevel(tree, testsFolder, InputSuffix)
      && |c.input| == |testsFolder| + 2
      && Paired(c, tree, testsFolder)
    ensures forall p :: p in CaseInputs(FindTestCases(tree, testsFolder).cases) <==>
      p in GlobOneLevel(tree, testsFolder, InputSuffix) && !OutputMissing(p, tree)
    ensures forall p :: p in FindTestCases(tree, testsFolder).skipped <==>
      p in GlobOneLevel(tree, testsFolder, InputSuffix) && OutputMissing(p, tree)
    ensures StrictlySorted(CaseInputs(FindTestCases(tree, testsFolder).cases), PathLt)
  {
    var inputs := SortedPaths(GlobOneLevel(tree, testsFolder, InputSuffix));
    PairYields(inputs, Existing(tree), testsFolder, OutputSuffix);
    PairPartition(inputs, Existing(tree), testsFolder, OutputSuffix);
    PairSorted(inputs, Existing(tree), testsFolder, OutputSuffix, PathLt);
  }

  /** A record pairs its input with the input's existing `.out` file and carries the tests folder. */
  predicate Paired(c: ParserTestFiles, tree: set<Path>, testsFolder: Path) {
    IsCase(c, Existing(tree), testsFolder, OutputSuffix)
  }

  /** The input's `.out` file is absent from the tree. */
  predicate OutputMissing(p: Path, tree: set<Path>) {
    !HasOutput(p, Existing(tree), OutputSuffix)
  }

  /** `ParserTestFiles.__str__`: the dotted id of the input below the tests folder. */
  function TestId(f: ParserTestFiles): string
    requires Under(f.input, f.testFolder) && Named(f.input)
  {
    DottedId(f.input, f.testFolder)
  }

  /**
   * The id pytest shows for each yielded record: the category directory, a
   * '.', and the stem of the input's name, e.g. `a.case1` for `a/case1.in`.
   */
  lemma TestIdParts(tree: set<Path>, testsFolder: Path, c: ParserTestFiles)
    requires c in FindTestCases(tree, testsFolder).cases
    ensures |c.input| == |testsFolder| + 2 && Under(c.input, c.testFolder) && Named(c.input)
    ensures TestId(c) == c.input[|testsFolder|] + "." + Stem(c.input[|testsFolder| + 1])
  {
    FindTestCasesSpec(tree, testsFolder);
    assert Paired(c, tree, testsFolder);
    OneLevelId(c);
  }

  /** The id of an input one level below the record's folder. */
  lemma OneLevelId(f: ParserTestFiles)
    requires Under(f.input, f.testFolder) && |f.input| == |f.testFolder| + 2 && Named(f.input)
    ensures TestId(f) == f.input[|f.testFolder|] + "." + Stem(f.input[|f.testFolder| + 1])
  {
    var category := f.input[|f.testFolder|];
    var stem := Stem(f.input[|f.testFolder| + 1]);
    IdPieces(f.input, f.testFolder);
    assert f.input[|f.testFolder|..|f.input| - 1] == [category];
    assert Join([category, stem], '.') == category + "." + Join([stem], '.');
  }

  /** The arguments `canonicalize` passes on: text stripped, comments dropped. */
  const CanonicalizeFlags: Kwargs := map["strip_text" := true, "with_comments" := false]

  /** What the test writes to stderr: a document that failed to parse, or the program's own stderr. */
  datatype Diagnostic = InvalidXml(xml: string) | Forwarded(text: string)

  /**
   * `canonicalize(xml)`: the canonical text, or the parse error it re-raises
   * after dumping the document to stderr. There is no special case for a
   * document without elements.
   */
  function Canonicalize(xml: string, canon: Canonicalizer): (r: (Result<string, int>, seq<Diagnostic>))
    ensures r.0.Success? <==> canon(xml, CanonicalizeFlags).Canonical?
    ensures r.0.Success? ==> r.0.value == canon(xml, CanonicalizeFlags).text && r.1 == []
    ensures r.0.Failure? ==> r.0.error == canon(xml, CanonicalizeFlags).code && r.1 == [InvalidXml(xml)]
  {
    match canon(xml, CanonicalizeFlags)
    case Canonical(text) => (Success(text), [])
    case ParseFault(code) => (Failure(code), [InvalidXml(xml)])
  }

  /** Why a case does not pass. */
  datatype Reason =
    | ExpectedInvalid(code: int)  // the `.out` file does not parse
    | TimeLimit                   // the program ran past the timeout
    | ReturnCode(code: int)       // `check_returncode()` raised
    | OutputInvalid(code: int)    // the program's output does not parse
    | Mismatch                    // the final assertion failed

  datatype Verdict = Passed | Failed(why: Reason)

  /** The verdict of `test_parser` and everything it wrote to stderr, in order. */
  datatype Outcome = Outcome(verdict: Verdict, stderr: seq<Diagnostic>)

  /**
   * `test_parser` for one case: canonicalize the expected output (before the
   * program is started), run the program, forward non-empty stderr, fail on
   * a non-zero exit, canonicalize the output, compare.
   */
  function TestParser(expectedText: string, run: Run, canon: Canonicalizer): (r: Outcome)
    ensures r.verdict == Passed <==>
      && canon(expectedText, CanonicalizeFlags).Canonical?
      && run.Exited? && run.code == 0
      && canon(run.stdout, CanonicalizeFlags) == canon(expectedText, CanonicalizeFlags)
  {
    var (expected, diag0) := Canonicalize(expectedText, canon);
    match expected
    case Failure(code) => Outcome(Failed(ExpectedInvalid(code)), diag0)
    case Success(want) =>
      match run
      case TimedOut => Outcome(Failed(TimeLimit), [])
      case Exited(code, stdout, stderr) =>
        var forwarded := if stderr != "" then [Forwarded(stderr)] else [];
        if code != 0 then Outcome(Failed(ReturnCode(code)), forwarded)
        else
          var (processed, diag1) := Canonicalize(stdout, canon);
          match processed
          case Failure(c) => Outcome(Failed(OutputInvalid(c)), forwarded + diag1)
          case Success(got) => Outcome(if want == got then Passed else Failed(Mismatch), forwarded)
  }

  /** An `.out` file that does not parse fails the case whatever the program does. */
  lemma ExpectedInvalidIgnoresRun(expectedText: string, run1: Run, run2: Run, canon: Canonicalizer)
    requires canon(expectedText, CanonicalizeFlags).ParseFault?
    ensures TestParser(expectedText, run1, canon) == TestParser(expectedText, run2, canon)
    ensures TestParser(expectedText, run1, canon).verdict == Failed(ExpectedInvalid(canon(expectedText, CanonicalizeFlags).code))
  {
  }

  /** A non-zero exit fails the case before the output is looked at. */
  lemma NonZeroExitFails(expectedText: string, code: int, out1: string, out2: string, err: string, canon: Canonicalizer)
    requires canon(expectedText, CanonicalizeFlags).Canonical?
    requires code != 0
    ensures TestParser(expectedText, Exited(code, out1, err), canon) == TestParser(expectedText, Exited(code, out2, err), canon)
    ensures TestParser(expectedText, Exited(code, out1, err), canon).verdict == Failed(ReturnCode(code))
  {
  }

  /** Once the program has run, its stderr is forwarded exactly when it is not empty, and first. */
  lemma StderrForwarded(expectedText: string, code: int, stdout: string, stderr: string, canon: Canonicalizer)
    requires canon(expectedText, CanonicalizeFlags).Canonical?
    ensures var d := TestParser(expectedText, Exited(code, stdout, stderr), canon).stderr;
      (Forwarded(stderr) in d <==> stderr != "") && (stderr != "" ==> d[0] == Forwarded(stderr))
  {
  }

  /**
   * Output without elements is a parse error like any other here: it fails
   * the case, and the output is dumped to stderr.
   */
  lemma EmptyOutputFails(expectedText: string, stdout: string, stderr: string, canon: Canonicalizer)
    requires canon(expectedText, CanonicalizeFlags).Canonical?
    requires canon(stdout, CanonicalizeFlags) == ParseFault(NoElementsCode)
    ensures var r := TestParser(expectedText, Exited(0, stdout, stderr), canon);
      r.verdict == Failed(OutputInvalid(NoElementsCode)) && r.stderr[|r.stderr| - 1] == InvalidXml(stdout)
  {
  }
}
