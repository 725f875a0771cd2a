/**
 * The JSON comparison of blimp/tests/test_blimp_parser.py: the program's
 * output is loaded, the keys of its top-level object are lower-cased, and
 * the result is compared with the expected `.json` file as loaded. Parsing
 * JSON is left to `json.loads`/`json.load`, given here as their results.
 */
module BlimpTest {
  import opened Wrappers
  import opened Ordering
  import opened Text
  import opened Paths
  import opened Discovery

  /**
   * A JSON value as Python loads it: objects become dictionaries, which
   * compare without regard to order, so they are maps here.
   */
  datatype Json =
    | Null
    | Bool(b: bool)
    | Number(n: real)
    | Str(s: string)
    | Array(items: seq<Json>)
    | Object(members: map<string, Json>)

  /**
   * What `json.loads(output)` gives for the program's output: a top-level
   * object as its `items()`, in dictionary order, or any other value.
   */
  datatype Loaded = Items(items: seq<(string, Json)>) | Other(value: Json)

  /** The folder the cases live in, below the test module's folder. */
  function CasesFolder(testDir: Path): Path {
    testDir + ["cases"]
  }

  /** The parametrisation: `find_test_cases(TESTS_FOLDER, output_suffix=".json")`. */
  function BlimpCases(tree: set<Path>, testDir: Path): Found {
    FindTestCases(tree, CasesFolder(testDir), outSuffix := ".json")
  }

  /**
   * Every case is an `.in` file found at any depth below the cases folder,
   * paired with the `.json` file of the same stem, which exists; the inputs
   * without one are the skipped ones.
   */
  lemma BlimpCasesSpec(tree: set<Path>, testDir: Path)
    ensures forall c :: c in BlimpCases(tree, testDir).cases ==>
      && Under(c.input, CasesFolder(testDir)) && EndsWith(c.input[|c.input| - 1], ".in")
      && JsonPaired(c, tree, testDir)
    ensures forall p :: p in BlimpCases(tree, testDir).skipped <==>
      p in GlobDeep(tree, CasesFolder(testDir), ".in") && JsonMissing(p, tree)
  {
    var folder := CasesFolder(testDir);
    FindTestCasesSpec(tree, folder, ".in", ".json");
    var r := BlimpCases(tree, testDir);
    forall c | c in r.cases
      ensures Under(c.input, folder) && EndsWith(c.input[|c.input| - 1], ".in")
    {
      var i :| 0 <= i < |r.cases| && r.cases[i] == c;
      assert CaseInputs(r.cases)[i] == c.input;
    }
  }

  /** A record pairs its input with the input's existing `.json` file and carries the cases folder. */
  predicate JsonPaired(c: ParserTestFiles, tree: set<Path>, testDir: Path) {
    IsCase(c, Existing(tree), CasesFolder(testDir), ".json")
  }

  /** The input's `.json` file is absent from the tree. */
  predicate JsonMissing(p: Path, tree: set<Path>) {
    !HasOutput(p, Existing(tree), ".json")
  }

  /** `{k.lower(): v for k, v in output_json.items()}`: a later key that lower-cases alike replaces the value. */
  function Fold(items: seq<(string, Json)>): map<string, Json> {
    if items == [] then map[]
    else
      var last := items[|items| - 1];
      Fold(items[..|items| - 1])[Lower(last.0) := last.1]
  }

  /** The lower-cased keys of the items, in order. */
  function FoldedKeys(items: seq<(string, Json)>): (r: seq<string>)
    ensures |r| == |items| && forall i :: 0 <= i < |r| ==> r[i] == Lower(items[i].0)
  {
    seq(|items|, i requires 0 <= i < |items| => Lower(items[i].0))
  }

  lemma FoldedKeysInit(items: seq<(string, Json)>)
    requires items != []
    ensures FoldedKeys(items) == FoldedKeys(items[..|items| - 1]) + [Lower(items[|items| - 1].0)]
  {
    var n := |items| - 1;
    assert forall i :: 0 <= i < n ==> items[..n][i] == items[i];
  }

  /** The folded mapping holds exactly the lower-cased keys. */
  lemma {:induction false} FoldKeys(items: seq<(string, Json)>)
    ensures forall k :: k in Fold(items) <==> k in FoldedKeys(items)
  {
    if items != [] {
      FoldKeys(items[..|items| - 1]);
      FoldedKeysInit(items);
    }
  }

  /** Item `i` is the last whose key lower-cases to `k`. */
  predicate LastWithKey(items: seq<(string, Json)>, i: int, k: string) {
    0 <= i < |items| && Lower(items[i].0) == k && k !in FoldedKeys(items)[i + 1..]
  }

  /** Each key of the folded mapping maps to the value, untouched, of the last item whose key lower-cases to it. */
  lemma {:induction false} FoldValues(items: seq<(string, Json)>)
    ensures forall k :: k in Fold(items) ==> exists i :: LastWithKey(items, i, k) && Fold(items)[k] == items[i].1
  {
    if items != [] {
      var n := |items| - 1;
      var init := items[..n];
      FoldValues(init);
      FoldedKeysInit(items);
      var m := Fold(items);
      forall k | k in m ensures exists i :: LastWithKey(items, i, k) && m[k] == items[i].1 {
        if k == Lower(items[n].0) {
          assert FoldedKeys(items)[n + 1..] == [];
          assert LastWithKey(items, n, k);
        } else {
          assert k in Fold(init);
          var i :| LastWithKey(init, i, k) && Fold(init)[k] == init[i].1;
          LastWithKeyExtends(items, i, k);
        }
      }
    }
  }

  /** The last item with key `k` before the final item stays the last when the final item's key differs. */
  lemma LastWithKeyExtends(items: seq<(string, Json)>, i: int, k: string)
    requires items != [] && k != Lower(items[|items| - 1].0)
    requires LastWithKey(items[..|items| - 1], i, k)
    ensures LastWithKey(items, i, k) && items[i] == items[..|items| - 1][i]
  {
    var n := |items| - 1;
    FoldedKeysInit(items);
    assert FoldedKeys(items)[i + 1..] == FoldedKeys(items[..n])[i + 1..] + [Lower(items[n].0)];
  }

  /** The last item whose key lower-cases to `k` gives the value of `k`. */
  lemma {:induction false} FoldAt(items: seq<(string, Json)>, j: int, k: string)
    requires LastWithKey(items, j, k)
    ensures k in Fold(items) && Fold(items)[k] == items[j].1
    decreases |items|
  {
    var n := |items| - 1;
    if j < n {
      var init := items[..n];
      FoldedKeysInit(items);
      assert FoldedKeys(items)[j + 1..] == FoldedKeys(init)[j + 1..] + [Lower(items[n].0)];
      assert init[j] == items[j];
      FoldAt(init, j, k);
    }
  }

  /** Two top-level keys that differ only in case: the later one's value is kept. */
  lemma LaterKeyWins(items: seq<(string, Json)>, i: nat, j: nat)
    requires i < j < |items| && Lower(items[i].0) == Lower(items[j].0)
    requires Lower(items[j].0) !in FoldedKeys(items)[j + 1..]
    ensures Lower(items[i].0) in Fold(items)
    ensures Fold(items)[Lower(items[i].0)] == items[j].1
  {
    FoldAt(items, j, Lower(items[j].0));
  }

  /** Every key of the folded mapping is lower-case. */
  lemma FoldKeysLower(items: seq<(string, Json)>)
    ensures forall k :: k in Fold(items) ==> IsLower(k)
  {
    FoldKeys(items);
    forall k | k in Fold(items) ensures IsLower(k) {
      var i :| 0 <= i < |items| && FoldedKeys(items)[i] == k;
      LowerSpec(items[i].0);
    }
  }

  /** `sorted(m.keys())`. */
  function SortedKeys(m: map<string, Json>): (r: seq<string>)
    ensures forall k :: k in r <==> k in m
  {
    StrLtIsStrictTotal();
    SortSet(m.Keys, StrLt)
  }

  lemma SortedKeysDistinct(m: map<string, Json>)
    ensures forall i, j :: 0 <= i < j < |SortedKeys(m)| ==> SortedKeys(m)[i] != SortedKeys(m)[j]
  {
    StrLtIsStrictTotal();
    StrictlySortedDistinct(SortedKeys(m), StrLt);
  }

  /** The items of a mapping in increasing key order. */
  function ItemsOf(m: map<string, Json>): (r: seq<(string, Json)>)
    ensures |r| == |SortedKeys(m)|
    ensures forall i :: 0 <= i < |r| ==> r[i] == (SortedKeys(m)[i], m[SortedKeys(m)[i]])
  {
    var keys := SortedKeys(m);
    seq(|keys|, i requires 0 <= i < |keys| => (keys[i], m[keys[i]]))
  }

  /** Lower-cased keys fold to themselves. */
  lemma FoldedKeysOfItems(m: map<string, Json>)
    requires forall k :: k in m ==> IsLower(k)
    ensures FoldedKeys(ItemsOf(m)) == SortedKeys(m)
  {
    var keys := SortedKeys(m);
    forall i | 0 <= i < |keys| ensures FoldedKeys(ItemsOf(m))[i] == keys[i] {
      assert keys[i] in m;
      LowerOfLower(keys[i]);
    }
  }

  /** Each key of a mapping with lower-case keys survives the fold of its items, with its value. */
  lemma FoldItemsAt(m: map<string, Json>, k: string)
    requires forall k :: k in m ==> IsLower(k)
    requires k in m
    ensures k in Fold(ItemsOf(m)) && Fold(ItemsOf(m))[k] == m[k]
  {
    var keys := SortedKeys(m);
    SortedKeysDistinct(m);
    FoldedKeysOfItems(m);
    var i :| 0 <= i < |keys| && keys[i] == k;
    assert k !in keys[i + 1..] by {
      forall l | i + 1 <= l < |keys| ensures keys[l] != k {}
    }
    assert LastWithKey(ItemsOf(m), i, k);
    FoldAt(ItemsOf(m), i, k);
  }

  /** Folding again changes nothing: the keys are lower-case already. */
  lemma FoldIdempotent(items: seq<(string, Json)>)
    ensures Fold(ItemsOf(Fold(items))) == Fold(items)
  {
    var m := Fold(items);
    FoldKeysLower(items);
    FoldedKeysOfItems(m);
    FoldKeys(ItemsOf(m));
    forall k | k in m ensures k in Fold(ItemsOf(m)) && Fold(ItemsOf(m))[k] == m[k] {
      FoldItemsAt(m, k);
    }
  }

  /** How the test ends when it does not reach its assertion. */
  datatype Error = OutputNotJson | OutputNotObject | ExpectedNotJson

  datatype Verdict = Pass | Fail | Errored(why: Error)

  /**
   * `test_blimp_parser` given what the two loads return (None for a decode
   * error): the output is loaded and folded before the expected file is
   * loaded, and the folded output must equal the expected value as loaded.
   */
  function BlimpVerdict(output: Option<Loaded>, expected: Option<Json>): (r: Verdict)
    ensures r == Pass <==>
      output.Some? && output.value.Items? && expected == Some(Object(Fold(output.value.items)))
    ensures r == Errored(OutputNotJson) <==> output.None?
    ensures r == Errored(OutputNotObject) <==> output.Some? && output.value.Other?
    ensures r == Errored(ExpectedNotJson) <==> output.Some? && output.value.Items? && expected.None?
  {
    match output
    case None => Errored(OutputNotJson)
    case Some(Other(_)) => Errored(OutputNotObject)
    case Some(Items(items)) =>
      var folded := Fold(items);
      match expected
      case None => Errored(ExpectedNotJson)
      case Some(want) => if Object(folded) == want then Pass else Fail
  }

  /**
   * The expected file is not folded: an expected top-level key with an
   * upper-case ASCII letter can never be matched.
   */
  lemma UpperCaseExpectedKeyNeverPasses(output: Option<Loaded>, members: map<string, Json>, k: string)
    requires k in members && !IsLower(k)
    ensures BlimpVerdict(output, Some(Object(members))) != Pass
  {
    if output.Some? && output.value.Items? {
      FoldKeysLower(output.value.items);
      assert k !in Fold(output.value.items);
    }
  }
}
