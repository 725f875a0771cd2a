/**
 * The stand-alone conformance runner tester.py: the result classification
 * of one run, the wrapper that tolerates documents without elements, and the
 * report loop that filters the cases by category, skips the ones it cannot
 * judge, counts passes and totals per category, and reports the categories
 * in sorted order. The file system, the file contents, the program runs and
 * the canonicalizer are given as values (see Oracles).
 */
module Tester {
  import opened Wrappers
  import opened Ordering
  import opened Text
  import opened Paths
  import opened Oracles
  import opened Discovery

  /** `TestResult`. */
  datatype TestResult = Pass | Fail | Crash | Timeout

  /** `result.name`, as the report prints it. */
  function Name(r: TestResult): string {
    match r
    case Pass => "PASS"
    case Fail => "FAIL"
    case Crash => "CRASH"
    case Timeout => "TIMEOUT"
  }

  /** The name printed after a test's name tells its result: no two results print the same name. */
  lemma NameIdentifies(a: TestResult, b: TestResult)
    ensures Name(a) == Name(b) <==> a == b
  {
  }

  /** `TESTS_FOLDER`, relative to the working directory, and the two suffixes with their dot. */
  const TestsFolder: Path := ["tests"]
  const InputSuffix: string := ".in"
  const OutputSuffix: string := ".out"

  /** `{"strip_text": True} | kwargs`: the default flag, overridden by any flag the caller passes. */
  function WithDefaults(kwargs: Kwargs): (r: Kwargs)
    ensures r.Keys == kwargs.Keys + {"strip_text"}
    ensures forall k :: k in kwargs ==> r[k] == kwargs[k]
    ensures "strip_text" !in kwargs ==> r["strip_text"]
  {
    map["strip_text" := true] + kwargs
  }

  /**
   * `canonicalize_possibly_empty(doc, **kwargs)`: the canonical text, ""
   * when the document has no elements, and None for any other parse error.
   */
  function CanonicalizePossiblyEmpty(doc: string, kwargs: Kwargs, canon: Canonicalizer): (r: Option<string>)
    ensures canon(doc, WithDefaults(kwargs)).Canonical? ==> r == Some(canon(doc, WithDefaults(kwargs)).text)
    ensures canon(doc, WithDefaults(kwargs)) == ParseFault(NoElementsCode) ==> r == Some("")
    ensures r.None? <==> canon(doc, WithDefaults(kwargs)).ParseFault? && canon(doc, WithDefaults(kwargs)).code != NoElementsCode
  {
    match canon(doc, WithDefaults(kwargs))
    case Canonical(text) => Some(text)
    case ParseFault(code) => if code == NoElementsCode then Some("") else None
  }

  /**
   * `run_test(program, test_input, expected)`: TIMEOUT and CRASH come from
   * the run alone; otherwise PASS exactly when the canonical output equals
   * the expected text.
   */
  function RunTest(run: Run, expected: string, canon: Canonicalizer): (r: TestResult)
    ensures r == Timeout <==> run.TimedOut?
    ensures r == Crash <==> run.Exited? && run.code != 0
    ensures r == Pass <==>
      run.Exited? && run.code == 0 && CanonicalizePossiblyEmpty(run.stdout, map[], canon) == Some(expected)
  {
    match run
    case TimedOut => Timeout
    case Exited(code, stdout, _) =>
      if code != 0 then Crash
      else if CanonicalizePossiblyEmpty(stdout, map[], canon) == Some(expected) then Pass
      else Fail
  }

  /** A timed-out or crashed run is classified without looking at what it printed. */
  lemma RunTestIgnoresOutput(run1: Run, run2: Run, expected: string, canon: Canonicalizer)
    requires run1.TimedOut? || run1.code != 0
    requires run2.TimedOut? == run1.TimedOut? && (run1.Exited? ==> run2.code == run1.code)
    ensures RunTest(run1, expected, canon) == RunTest(run2, expected, canon)
  {
  }

  /** Output that fails to parse for a reason other than having no elements is a FAIL, whatever is expected. */
  lemma UnparseableOutputFails(stdout: string, stderr: string, expected: string, canon: Canonicalizer)
    requires canon(stdout, WithDefaults(map[])).ParseFault?
    requires canon(stdout, WithDefaults(map[])).code != NoElementsCode
    ensures RunTest(Exited(0, stdout, stderr), expected, canon) == Fail
  {
  }

  /** Output without elements passes exactly when the expected output is empty too. */
  lemma EmptyOutputPassesIffEmptyExpected(stdout: string, stderr: string, expected: string, canon: Canonicalizer)
    requires canon(stdout, WithDefaults(map[])) == ParseFault(NoElementsCode)
    ensures RunTest(Exited(0, stdout, stderr), expected, canon) == Pass <==> expected == ""
  {
  }

  /** Everything the report loop consults: the files, their contents, the runs, the canonicalizer, `--categories`. */
  datatype Suite = Suite(
    tree: set<Path>,
    contents: Path -> string,
    runs: Path -> Run,
    canon: Canonicalizer,
    categories: Option<seq<string>>)

  /** A path the input glob can yield: a named entry exactly one directory below the tests folder. */
  predicate TestInput(p: Path) {
    Under(p, TestsFolder) && |p| == |TestsFolder| + 2 && Named(p)
  }

  // sorted(TESTS_FOLDER.glob("*/*.in")).
  function Inputs(s: Suite): (r: seq<Path>)
    ensures forall i :: 0 <= i < |r| ==> TestInput(r[i])
  {
    SortedPaths(GlobOneLevel(s.tree, TestsFolder, InputSuffix))
  }

  /** `str(test_in.relative_to(TESTS_FOLDER).with_suffix(""))`. */
  function TestName(p: Path): string
    requires TestInput(p)
  {
    Join(WithSuffix(RelativeTo(p, TestsFolder), ""), '/')
  }

  /**
   * The inputs are exactly the `.in` entries one directory below the tests
   * folder, once each, in increasing path order.
   */
  lemma InputsSorted(s: Suite)
    ensures forall p :: p in Inputs(s) <==> p in GlobOneLevel(s.tree, TestsFolder, InputSuffix)
    ensures StrictlySorted(Inputs(s), PathLt)
  {
  }

  /** The test name is the category directory, a '/', and the file name without its final suffix. */
  lemma TestNameParts(p: Path)
    requires TestInput(p)
    ensures TestName(p) == p[1] + "/" + Stem(p[2])
  {
    var rel := RelativeTo(p, TestsFolder);
    assert rel == [p[1], p[2]] by {
      assert TestsFolder + rel == p;
    }
    var named := WithSuffix(rel, "");
    assert named == [p[1], Stem(p[2])] by {
      assert Stem(p[2]) + "" == Stem(p[2]);
    }
    assert named[1..] == [Stem(p[2])];
    assert Join(named, '/') == p[1] + ['/'] + Join([Stem(p[2])], '/');
  }

  /** `test_in.parts[1]`: the directory under the tests folder. */
  function Category(p: Path): string
    requires TestInput(p)
  {
    p[1]
  }

  /** A case runs unless a non-empty category list leaves its category out. */
  predicate Selected(categories: Option<seq<string>>, category: string) {
    !(categories.Some? && |categories.value| > 0 && category !in categories.value)
  }

  /** `Counter[key]`: 0 for a key never counted. */
  function Count(m: map<string, nat>, key: string): nat {
    if key in m then m[key] else 0
  }

  /** `counter[key] += 1`. */
  function Inc(m: map<string, nat>, key: string): (r: map<string, nat>)
    ensures r.Keys == m.Keys + {key}
    ensures Count(r, key) == Count(m, key) + 1
    ensures forall k :: k != key ==> Count(r, k) == Count(m, k)
  {
    m[key := Count(m, key) + 1]
  }

  /** Why a case was skipped, as the stderr message says. */
  datatype SkipReason = NoOutputFile | ExpectedUnparseable

  /** What the loop reports for one case: a skip on stderr, or the name and result on stdout. */
  datatype Event = Skipped(name: string, why: SkipReason) | Ran(name: string, result: TestResult)

  /** `passed_counts`, `total_counts` and the per-case lines written so far. */
  datatype Tally = Tally(passed: map<string, nat>, total: map<string, nat>, log: seq<Event>)

  /** One iteration of the report loop. */
  function Step(s: Suite, t: Tally, p: Path): (r: Tally)
    requires TestInput(p)
  {
    var name := TestName(p);
    var category := Category(p);
    if !Selected(s.categories, category) then t
    else if !HasOutput(p, Existing(s.tree), OutputSuffix) then
      Tally(t.passed, t.total, t.log + [Skipped(name, NoOutputFile)])
    else
      match CanonicalizePossiblyEmpty(s.contents(WithSuffix(p, OutputSuffix)), map[], s.canon)
      case None => Tally(t.passed, t.total, t.log + [Skipped(name, ExpectedUnparseable)])
      case Some(expected) =>
        var result := RunTest(s.runs(p), expected, s.canon);
        Tally(if result == Pass then Inc(t.passed, category) else t.passed,
              Inc(t.total, category),
              t.log + [Ran(name, result)])
  }

  /** The state of the report loop after the given inputs. */
  function Tallied(s: Suite, inputs: seq<Path>): Tally
    requires forall i :: 0 <= i < |inputs| ==> TestInput(inputs[i])
  {
    if inputs == [] then Tally(map[], map[], [])
    else Step(s, Tallied(s, inputs[..|inputs| - 1]), inputs[|inputs| - 1])
  }

  lemma TalliedNext(s: Suite, inputs: seq<Path>, i: nat)
    requires i < |inputs|
    requires forall k :: 0 <= k < |inputs| ==> TestInput(inputs[k])
    ensures Tallied(s, inputs[..i + 1]) == Step(s, Tallied(s, inputs[..i]), inputs[i])
  {
    assert inputs[..i + 1][..i] == inputs[..i];
  }

  /** The body of the report loop for one input; each `continue` of the loop is a return here. */
  method Visit(s: Suite, passed0: map<string, nat>, total0: map<string, nat>, log0: seq<Event>, testIn: Path)
    returns (passed: map<string, nat>, total: map<string, nat>, log: seq<Event>)
    requires TestInput(testIn)
    ensures Tally(passed, total, log) == Step(s, Tally(passed0, total0, log0), testIn)
  {
    passed, total, log := passed0, total0, log0;
    var testName := TestName(testIn);
    var category := Category(testIn);
    if s.categories.Some? && |s.categories.value| > 0 && category !in s.categories.value {
      return;
    }
    var testOut := WithSuffix(testIn, OutputSuffix);
    if testOut !in Existing(s.tree) {
      log := log + [Skipped(testName, NoOutputFile)];
      return;
    }
    var expectedResult := CanonicalizePossiblyEmpty(s.contents(testOut), map[], s.canon);
    if expectedResult.None? {
      log := log + [Skipped(testName, ExpectedUnparseable)];
      return;
    }
    var result := RunTest(s.runs(testIn), expectedResult.value, s.canon);
    log := log + [Ran(testName, result)];
    total := Inc(total, category);
    if result == Pass {
      passed := Inc(passed, category);
    }
  }

  /** The report loop of tester.py over the sorted inputs. */
  method RunSuite(s: Suite) returns (passed: map<string, nat>, total: map<string, nat>, log: seq<Event>)
    ensures Tally(passed, total, log) == Tallied(s, Inputs(s))
  {
    passed, total, log := RunInputs(s, Inputs(s));
  }

  /** The report loop over a given list of inputs. */
  method RunInputs(s: Suite, inputs: seq<Path>) returns (passed: map<string, nat>, total: map<string, nat>, log: seq<Event>)
    requires forall k :: 0 <= k < |inputs| ==> TestInput(inputs[k])
    ensures Tally(passed, total, log) == Tallied(s, inputs)
  {
    passed, total, log := map[], map[], [];
    for i := 0 to |inputs|
      invariant Tally(passed, total, log) == Tallied(s, inputs[..i])
    {
      passed, total, log := VisitNext(s, inputs, i, passed, total, log);
    }
    assert inputs[..|inputs|] == inputs;
  }

  /** One turn of the report loop: visiting the next input extends the tally by that input. */
  method VisitNext(s: Suite, inputs: seq<Path>, i: nat, passed0: map<string, nat>, total0: map<string, nat>, log0: seq<Event>)
    returns (passed: map<string, nat>, total: map<string, nat>, log: seq<Event>)
    requires i < |inputs| && forall k :: 0 <= k < |inputs| ==> TestInput(inputs[k])
    requires Tally(passed0, total0, log0) == Tallied(s, inputs[..i])
    ensures Tally(passed, total, log) == Tallied(s, inputs[..i + 1])
  {
    TalliedNext(s, inputs, i);
    passed, total, log := Visit(s, passed0, total0, log0, inputs[i]);
  }

  /** `Counter.total()`: the sum of the counts. */
  function Sum(m: map<string, nat>): nat {
    StrLtIsStrictTotal();
    MapSum(m, StrLt)
  }

  /** Counting one more case adds one to the sum. */
  lemma SumInc(m: map<string, nat>, key: string)
    ensures Sum(Inc(m, key)) == Sum(m) + 1
  {
    StrLtIsStrictTotal();
    var r := Inc(m, key);
    MapSumRemove(r, key, StrLt);
    if key in m {
      MapSumRemove(m, key, StrLt);
      assert r - {key} == m - {key};
    } else {
      assert r - {key} == m;
    }
  }

  /** The number of results written, and of PASS results among them. */
  function RanCount(log: seq<Event>): nat {
    if log == [] then 0
    else RanCount(log[..|log| - 1]) + (if log[|log| - 1].Ran? then 1 else 0)
  }

  function PassCount(log: seq<Event>): nat {
    if log == [] then 0
    else PassCount(log[..|log| - 1]) + (if log[|log| - 1].Ran? && log[|log| - 1].result == Pass then 1 else 0)
  }

  lemma RanCountAppend(log: seq<Event>, e: Event)
    ensures RanCount(log + [e]) == RanCount(log) + (if e.Ran? then 1 else 0)
    ensures PassCount(log + [e]) == PassCount(log) + (if e.Ran? && e.result == Pass then 1 else 0)
  {
    assert (log + [e])[..|log|] == log;
  }

  /**
   * What the counters hold after any prefix of the inputs: a category is
   * counted only if it is selected and at least once; passes never exceed
   * the total of their category; the overall figures are the number of
   * results written and of PASS results among them.
   */
  predicate Consistent(t: Tally, categories: Option<seq<string>>) {
    CountersValid(t, categories) && Sum(t.total) == RanCount(t.log) && Sum(t.passed) == PassCount(t.log)
  }

  predicate CountersValid(t: Tally, categories: Option<seq<string>>) {
    && (forall c :: c in t.total ==> t.total[c] >= 1 && Selected(categories, c))
    && (forall c :: c in t.passed ==> c in t.total && t.passed[c] <= t.total[c])
  }

  /**
   * The three ways one iteration changes the tally: not at all (a category
   * left out), one skip message and no count, or one result written with
   * the category's total and, on PASS only, its passes counted once more.
   */
  predicate Extends(t: Tally, r: Tally, category: string, categories: Option<seq<string>>) {
    || (r == t && !Selected(categories, category))
    || (&& Selected(categories, category)
        && |r.log| == |t.log| + 1 && r.log == t.log + [r.log[|t.log|]]
        && (if r.log[|t.log|].Skipped? then r.passed == t.passed && r.total == t.total
            else && r.total == Inc(t.total, category)
                 && r.passed == if r.log[|t.log|].result == Pass then Inc(t.passed, category) else t.passed))
  }

  lemma StepExtends(s: Suite, t: Tally, p: Path)
    requires TestInput(p)
    ensures Extends(t, Step(s, t, p), Category(p), s.categories)
  {
  }

  /** A change of the three kinds keeps the counters consistent. */
  lemma ExtendsConsistent(t: Tally, r: Tally, category: string, categories: Option<seq<string>>)
    requires Consistent(t, categories)
    requires Extends(t, r, category, categories)
    ensures Consistent(r, categories)
  {
    if r != t {
      var e := r.log[|t.log|];
      RanCountAppend(t.log, e);
      if e.Ran? {
        SumInc(t.total, category);
        if e.result == Pass {
          SumInc(t.passed, category);
        }
      }
    }
  }

  /** One iteration keeps the counters consistent. */
  lemma StepConsistent(s: Suite, t: Tally, p: Path)
    requires TestInput(p)
    requires Consistent(t, s.categories)
    ensures Consistent(Step(s, t, p), s.categories)
  {
    StepExtends(s, t, p);
    ExtendsConsistent(t, Step(s, t, p), Category(p), s.categories);
  }

  lemma {:induction false} TalliedConsistent(s: Suite, inputs: seq<Path>)
    requires forall i :: 0 <= i < |inputs| ==> TestInput(inputs[i])
    ensures Consistent(Tallied(s, inputs), s.categories)
  {
    if inputs != [] {
      TalliedConsistent(s, inputs[..|inputs| - 1]);
      StepConsistent(s, Tallied(s, inputs[..|inputs| - 1]), inputs[|inputs| - 1]);
    }
  }

  /**
   * A skipped case (no `.out` file, or one that does not parse) and a case
   * of a category left out are counted nowhere.
   */
  lemma SkippedCountedNowhere(s: Suite, t: Tally, p: Path)
    requires TestInput(p)
    requires || !Selected(s.categories, Category(p))
             || !HasOutput(p, Existing(s.tree), OutputSuffix)
             || CanonicalizePossiblyEmpty(s.contents(WithSuffix(p, OutputSuffix)), map[], s.canon).None?
    ensures Step(s, t, p).passed == t.passed && Step(s, t, p).total == t.total
  {
  }

  /** No category list and an empty one both run every category. */
  lemma {:induction false} NoFilterRunsAll(s: Suite, inputs: seq<Path>)
    requires forall i :: 0 <= i < |inputs| ==> TestInput(inputs[i])
    requires s.categories == None
    ensures Tallied(s, inputs) == Tallied(s.(categories := Some([])), inputs)
  {
    if inputs != [] {
      NoFilterRunsAll(s, inputs[..|inputs| - 1]);
    }
  }

  /** One line of the per-category report: the category, its passes and its total. */
  datatype CategoryLine = CategoryLine(category: string, passed: nat, total: nat)

  function Line(t: Tally, category: string): CategoryLine {
    CategoryLine(category, Count(t.passed, category), Count(t.total, category))
  }

  /** The per-category lines for the categories in the given order. */
  function LinesFor(t: Tally, categories: seq<string>): (r: seq<CategoryLine>)
    ensures |r| == |categories|
    ensures forall i :: 0 <= i < |r| ==> r[i] == Line(t, categories[i])
  {
    seq(|categories|, i requires 0 <= i < |categories| => Line(t, categories[i]))
  }

  /** `sorted(total_counts.keys())`. */
  function SortedCategories(t: Tally): (r: seq<string>)
    ensures forall c :: c in r <==> c in t.total
  {
    StrLtIsStrictTotal();
    SortSet(t.total.Keys, StrLt)
  }

  /** The categories come once each, in increasing order. */
  lemma SortedCategoriesSorted(t: Tally)
    ensures |SortedCategories(t)| == |t.total.Keys|
    ensures StrictlySorted(SortedCategories(t), StrLt)
  {
    StrLtIsStrictTotal();
  }

  /** `for category in sorted(total_counts.keys())`: one line per category. */
  method WriteCategoryLines(t: Tally) returns (lines: seq<CategoryLine>)
    ensures lines == LinesFor(t, SortedCategories(t))
  {
    var keys := SortedCategories(t);
    lines := [];
    for i := 0 to |keys|
      invariant lines == LinesFor(t, keys[..i])
    {
      var category := keys[i];
      var passed := Count(t.passed, category);
      var total := Count(t.total, category);
      LinesForNext(t, keys, i);
      lines := lines + [CategoryLine(category, passed, total)];
    }
    assert keys[..|keys|] == keys;
  }

  lemma LinesForNext(t: Tally, keys: seq<string>, i: nat)
    requires i < |keys|
    ensures LinesFor(t, keys[..i + 1]) == LinesFor(t, keys[..i]) + [Line(t, keys[i])]
  {
    var r, l := LinesFor(t, keys[..i + 1]), LinesFor(t, keys[..i]) + [Line(t, keys[i])];
    assert |r| == |l|;
    forall k | 0 <= k < |r| ensures r[k] == l[k] {
      if k < i {
        assert keys[..i + 1][k] == keys[..i][k];
      }
    }
  }

  /** The per-category lines come one per counted category, in increasing order. */
  lemma LinesSorted(t: Tally)
    ensures var lines := LinesFor(t, SortedCategories(t));
      && |lines| == |t.total.Keys|
      && (forall i, j :: 0 <= i < j < |lines| ==> StrLt(lines[i].category, lines[j].category))
  {
    SortedCategoriesSorted(t);
  }

  /** The per-category lines name exactly the counted categories. */
  lemma LinesCover(t: Tally)
    ensures var lines := LinesFor(t, SortedCategories(t));
      forall c :: c in t.total <==> exists i :: 0 <= i < |lines| && lines[i].category == c
  {
    var keys := SortedCategories(t);
    var lines := LinesFor(t, keys);
    forall c | c in t.total ensures exists i :: 0 <= i < |lines| && lines[i].category == c {
      var i :| 0 <= i < |keys| && keys[i] == c;
      assert lines[i].category == c;
    }
    forall i | 0 <= i < |lines| ensures lines[i].category in t.total {
      assert keys[i] in keys;
    }
  }

  /** Of a valid tally, every line's category is selected and its passes do not exceed its non-zero total. */
  lemma LinesBounded(t: Tally, categories: Option<seq<string>>)
    requires CountersValid(t, categories)
    ensures var lines := LinesFor(t, SortedCategories(t));
      forall i :: 0 <= i < |lines| ==>
        1 <= lines[i].total && lines[i].passed <= lines[i].total && Selected(categories, lines[i].category)
  {
    var keys := SortedCategories(t);
    forall i | 0 <= i < |keys| ensures keys[i] in t.total {
      assert keys[i] in keys;
    }
  }

  /**
   * The report of the whole suite: the per-category lines as above, and
   * overall figures equal to the number of results and of passes written
   * before them.
   */
  lemma ReportSpec(s: Suite)
    ensures var t := Tallied(s, Inputs(s));
      && Consistent(t, s.categories)
      && Sum(t.total) == RanCount(t.log)
      && Sum(t.passed) == PassCount(t.log)
      && |LinesFor(t, SortedCategories(t))| == |t.total.Keys|
  {
    var t := Tallied(s, Inputs(s));
    TalliedConsistent(s, Inputs(s));
    LinesSorted(t);
  }

  /** The overall figures: `passed_counts.total()` and `total_counts.total()`. */
  datatype Overall = Overall(passed: nat, total: nat)

  /** No more PASS results are written than results. */
  lemma {:induction false} PassCountBounded(log: seq<Event>)
    ensures PassCount(log) <= RanCount(log)
  {
    if log != [] {
      PassCountBounded(log[..|log| - 1]);
    }
  }

  /**
   * The overall line, or None where the percentage divides by a zero
   * total: on consistent counters, None exactly when no result was written,
   * and otherwise the number of PASS results out of the results written.
   */
  function Summarize(t: Tally, categories: Option<seq<string>>): (r: Option<Overall>)
    requires Consistent(t, categories)
    ensures r.Some? <==> RanCount(t.log) != 0
    ensures r.Some? ==> r.value == Overall(PassCount(t.log), RanCount(t.log))
    ensures r.Some? ==> r.value.passed <= r.value.total
  {
    PassCountBounded(t.log);
    if Sum(t.total) == 0 then None else Some(Overall(Sum(t.passed), Sum(t.total)))
  }

  /** After the whole loop the overall line counts the results written and their passes. */
  lemma RunSummary(s: Suite)
    ensures var t := Tallied(s, Inputs(s));
      && Consistent(t, s.categories)
      && (Summarize(t, s.categories).None? <==> RanCount(t.log) == 0)
      && (Summarize(t, s.categories).Some? ==>
            Summarize(t, s.categories).value == Overall(PassCount(t.log), RanCount(t.log)))
  {
    TalliedConsistent(s, Inputs(s));
  }
}
