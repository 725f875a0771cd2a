# blcmm-parsing: the reference preprocessor and the conformance harness, in Dafny

This project models two parts of the blcmm-parsing repository and proves
properties of them.

**The reference BLCMM-to-XML preprocessor** (`reference/blcmm.cpp`, module
`Blcmm`). A BLCMM file is read line by line and turned into one XML text.
The preprocessor:

- drops filter-tool warning lines (`#<!!!`);
- writes the `</BLCMM>` line verbatim and stops there;
- for every other line, copies the opening tag from its first `<` through
  the end of its name;
- copies the attribute sections, with each quoted value XML-escaped; a `"`
  preceded by a backslash does not close a value;
- writes the escaped element text up to the last `</name>`, then that
  closing tag;
- throws on malformed lines, and on reaching end of input without
  `</BLCMM>`.

The five entities are those of section 4.6 of XML 1.0. The output stream is
the text written so far; a thrown `blcmm_parser_error` is an error value
returned beside that text. Each C++ loop is a Dafny method with its loop
invariants: `find_first_of`, `rfind`, the attribute `while (true)`, the
escaped-quote `do/while`, the escaping `for` loops, the loop over the lines,
and the loop of `in_comma_seperated_list`. Each method is proved equal to a
specification function (`ConvertLineAsWritten`, `Preprocess`, `Entries`).
The promised properties are then proved about those functions. The methods
follow the code as written, including where line 77 starts the element text
(see "## Findings"). `ConvertLine` is the conversion with that start
corrected; it differs from `ConvertLineAsWritten` in nothing else
(`Blcmm.CorrectionOnlyMovesContent`).

**The conformance harness** (`tester.py`, `tests/__init__.py`,
`tests/test_parser.py`, `blimp/tests/test_blimp_parser.py`; modules
`Tester`, `Discovery`, `TestParser`, `BlimpTest`). It covers:

- fixture discovery over a file tree given as a finite set of paths, with
  a path a sequence of segments;
- pairing `.in` files with their outputs by replacing the final suffix;
- the dotted test ids;
- the `canonicalize` wrappers and the PASS/FAIL/CRASH/TIMEOUT
  classification;
- the report loop of `tester.py`, which filters by category, counts per
  category in two `Counter`s and reports the categories in sorted order;
- the top-level key lower-casing of the JSON test.

`ET.canonicalize`, `json.loads` and the program under test are outside
code. They appear as parameters: a canonicalizer function
(`Oracles.Canonicalizer`), the loaded JSON values, and the way a run
ended (`Oracles.Run`). Supporting modules:

- `Wrappers`: Option and Result.
- `Text`: `find_first_of`, `rfind`, `split`, `join`, string order, ASCII
  lower-casing.
- `Ordering`: sorting a finite set by a strict total order, and sums over
  a map.
- `Paths`: `PurePath` suffix rules, `with_suffix`, `relative_to`, and path
  order by parts.

Where the repository's prose description and its code differ, the model
follows the code. The one exception is the corrected conversion
`ConvertLine`, which stands beside the model of the code as the corrected
half of the finding below. The differences:

- `sorted()` over `Path` objects compares paths part by part
  (`Paths.PathLt`), not as whole strings.
- In `tester.py` the category filter comes before the `.out` check. A case
  of a category left out is skipped without any message, even when its
  `.out` file is missing.
- `tester.py` skips a case whose expected output fails to parse, with a
  message. It is counted nowhere, not as a failure.
- In `tester.py` an empty result comes only from the "no elements" parse
  error (`Tester.CanonicalizePossiblyEmpty`). The `canonicalize` of
  `tests/test_parser.py` has no such case: a program that writes nothing
  fails there (`TestParser.EmptyOutputFails`).

## Model

| member | source | states |
|---|---|---|
| Blcmm.EscapeNoMarkup | reference/blcmm.cpp:6-15 | escaped text contains none of `"` `'` `<` `>` and is never shorter than the input |
| Blcmm.EscapeConcat | reference/blcmm.cpp:6-15 | escaping one character at a time: the escape of a concatenation is the concatenation of the escapes |
| Blcmm.EscapeUnchanged | reference/blcmm.cpp:13 | text without markup characters and `&` is written unchanged |
| Blcmm.UnescapeCons | reference/blcmm.cpp:6-15 | for every character, reading back what `put_xml_escaped` writes for it gives that character, whatever follows |
| Blcmm.UnescapeEscape | reference/blcmm.cpp:6-15 | replacing the entities back restores the escaped text exactly, whatever text follows it |
| Blcmm.UnescapeRaw | reference/blcmm.cpp:80-89 | text without `&` (a closing tag with such a name) reads back as itself |
| Blcmm.EscapedValue | reference/blcmm.cpp:69-72 | an escaped attribute value contains no `"`, so the `"` written after it is the only closing quote, and the value reads back unchanged |
| Blcmm.ValueEnd | reference/blcmm.cpp:59-67 | the `do/while` stops at or after its start, on a `"` whose preceding character is not a backslash |
| Blcmm.ValueEndFirst | reference/blcmm.cpp:59-67 | that quote is the first unescaped one; when there is none, no later `"` is unescaped |
| Blcmm.SectionStep | reference/blcmm.cpp:45-74 | one pass of the attribute loop either goes on after a value closed at an index past its opening quote, or ends at a `>` at or after the section start, or throws one of the two line errors |
| Blcmm.TagBodyEnds | reference/blcmm.cpp:44-75 | the attribute loop either ends at a `>` at or after its start, found at the start of its last section, or throws one of the two line errors |
| Blcmm.NameBounds | reference/blcmm.cpp:29-37 | the tag starts at a `<` and its name ends at a later `>` or space |
| Blcmm.OpenTagStart | reference/blcmm.cpp:29 | a found tag starts at the first `<` of the line |
| Blcmm.OpenTagName | reference/blcmm.cpp:34-38 | the tag name, which lines 80-82 use for the closing tag, is the text between that `<` and the first `>` or space after it, and contains neither |
| Blcmm.OpenTagWritten | reference/blcmm.cpp:38 | the output of a line begins with its `<`, the name and the name's terminator |
| Blcmm.OpenTagClosed | reference/blcmm.cpp:42-57 | a found tag is closed by a `>` at or after the end of its name |
| Blcmm.OpenTagError | reference/blcmm.cpp:29-67 | a malformed line throws one of the three line errors, carrying that line, never the read error |
| Blcmm.ContentRoundTrip | reference/blcmm.cpp:80-90 | without `</name>` nothing follows the opening tag; with it, reading back the element text and closing tag gives the line from the element text through the last `</name>`, so text after it is dropped |
| Blcmm.ClosedContentRoundTrip | reference/blcmm.cpp:83-89 | the escaped text before a closing tag followed by that tag reads back as the line through the closing tag |
| Blcmm.NoInitialTagError | reference/blcmm.cpp:29-32 | a line fails with "couldn't find inital tag" exactly when it has no `<` |
| Blcmm.NoTagThrows | reference/blcmm.cpp:29-32 | such a line writes nothing before the error |
| Blcmm.TagPresentOtherError | reference/blcmm.cpp:29-37 | a line with a `<` never fails for a missing tag |
| Blcmm.TagNameUnclosedError | reference/blcmm.cpp:34-37 | when no `>` or space follows the first `<`, the line writes nothing and throws "inital tag doesn't close" |
| Blcmm.SectionUnclosedError | reference/blcmm.cpp:45-50 | an attribute section with no further `"` or `>` writes nothing and throws "inital tag doesn't close" |
| Blcmm.ValueUnclosedError | reference/blcmm.cpp:59-66 | a value with no unescaped closing quote throws "attribute value doesn't close" after the section through its opening quote |
| Blcmm.ContentStartCounterexample | reference/blcmm.cpp:77 | as written, `<a b="x" >t</a>` becomes `<a b="x" >&gt;t</a>`: the element text starts at the `>` that closes the tag |
| Blcmm.ContentStartCorrected | reference/blcmm.cpp:77-89 | with the element text starting after that `>`, the same line is written unchanged |
| Blcmm.CorrectionOnlyMovesContent | reference/blcmm.cpp:77 | the corrected conversion throws the same errors and writes the same opening tag as the code; the two differ only when the last attribute section starts before the `>` |
| Blcmm.EndMarkerStops | reference/blcmm.cpp:20-23 | no line after the first `</BLCMM>` line contributes anything |
| Blcmm.EndMarkerWritten | reference/blcmm.cpp:20-23 | when every earlier line is passed over without error, the `</BLCMM>` line ends the output verbatim and no error is raised |
| Blcmm.MarkersExclusive | reference/blcmm.cpp:20-27 | no line is both a warning line and the end line |
| Blcmm.DropWarnings | reference/blcmm.cpp:25-27 | removing the warning lines leaves none and never adds lines |
| Blcmm.WarningsIgnored | reference/blcmm.cpp:25-27 | warning lines produce no output: the result is the same with them removed |
| Blcmm.PreprocessSucceeds | reference/blcmm.cpp:18-23 | the file succeeds exactly when some `</BLCMM>` line is preceded only by lines passed over without error |
| Blcmm.PreprocessHitsEof | reference/blcmm.cpp:93-97 | the read error at end of input is raised exactly when every line is passed over without error and none is `</BLCMM>` |
| Blcmm.PreprocessAsWrittenHitsEof | reference/blcmm.cpp:93-97 | for the conversion the code performs, the read error is raised exactly when every line is passed over without error and none is `</BLCMM>` |
| Blcmm.FindFirstOf | reference/blcmm.cpp:29-34 | the scanning loop that stands for each `find_first_of` call (also lines 45, 61 and 108) returns the first index at or after the start holding one of the characters, or none |
| Blcmm.RFind | reference/blcmm.cpp:83 | the backward scan returns the last occurrence of the closing tag, or none |
| Blcmm.WriteEscaped | reference/blcmm.cpp:69-71 | the escaping `for` loop writes the escape of the characters from its start up to its end, and nothing for an empty range |
| Blcmm.FindValueEnd | reference/blcmm.cpp:59-67 | the `do/while` loop finds the first unescaped closing quote, as `ValueEnd` specifies |
| Blcmm.ScanSection | reference/blcmm.cpp:45-57 | one pass of the attribute loop computes the step `SectionStep` specifies and the text written for it |
| Blcmm.ScanValue | reference/blcmm.cpp:59-74 | the value part of a pass computes the same step and text |
| Blcmm.ScanAttributes | reference/blcmm.cpp:43-75 | the `while (true)` loop writes the attribute text and ends as `TagBodyText`/`TagBodyEnd` specify; `Blcmm.TagBodyReadBack` shows that this text reads back as the source's attribute sections |
| Blcmm.EscapeReadsBack | reference/blcmm.cpp:6-15 | replacing the entities back in an escaped text, followed by any text, gives the original followed by that text read back |
| Blcmm.ValueChunkReadBack | reference/blcmm.cpp:50-72 | for a line without `&`, the section written verbatim, then the escaped value and the closing quote read back as the line from the section start to that quote |
| Blcmm.TagBodyReadBack | reference/blcmm.cpp:43-75 | for a line without `&` whose attribute loop reaches the `>`, the text the loop writes reads back as exactly the line from where the loop starts to that `>` |
| Blcmm.OpenTagReadBack | reference/blcmm.cpp:29-78 | for a line without `&` whose opening tag closes, replacing the entities back in the written opening tag gives exactly the line from the `<` to the `>` that ends the tag |
| Blcmm.ScanAfterName | reference/blcmm.cpp:38-78 | after the name, the method writes the opening tag and finds where it ends, as specified |
| Blcmm.ScanOpeningTag | reference/blcmm.cpp:29-78 | the opening-tag scan writes `OpenTagText` and ends with the tag or the error of `OpenTagEnd` |
| Blcmm.WriteContent | reference/blcmm.cpp:80-90 | the content step writes what `Content` specifies |
| Blcmm.ProcessLine | reference/blcmm.cpp:29-90 | one ordinary line is converted as blcmm.cpp does it, output and error, with the element text starting where line 77 starts it (`ConvertLineAsWritten`) |
| Blcmm.PreprocessBlcmmFile | reference/blcmm.cpp:17-98 | the loop over the lines writes the concatenation, without separators, and raises the error that `Preprocess` specifies with the lines converted as written (`ConvertLineAsWritten`) |
| Blcmm.InCommaSeparatedList | reference/blcmm.cpp:105-118 | the loop returns true exactly when the value is one of the entries it compares |
| Blcmm.EntriesAreSplit | reference/blcmm.cpp:105-118 | the entries compared are the pieces of `split(',')`, except the empty piece after a trailing comma |
| Blcmm.InListIffEntry | reference/blcmm.cpp:105-118 | membership holds exactly for a comma-separated entry; an empty list never matches, and neither does a value containing a comma |
| Text.IndexOfAny | reference/blcmm.cpp:29-34 | a found index lies at or after the start, inside the string, on one of the characters |
| Text.IndexOfAnyFirst | reference/blcmm.cpp:29-34 | it is the first such index, and "not found" means none of the characters occurs from the start on |
| Text.LastIndexOf | reference/blcmm.cpp:83 | `rfind`: a found index is an occurrence and no later one exists, and "not found" means none exists |
| Text.SplitNoSep | reference/blcmm.cpp:105-118 | no piece of a split contains the separator |
| Text.SplitJoins | reference/blcmm.cpp:105-118 | joining the pieces with the separator restores the string |
| Text.SplitJoin | tests/__init__.py:16-17 | splitting pieces that do not contain the separator, after joining them, gives them back |
| Text.StrLtIsStrictTotal | tester.py:158 | string order, as `sorted` uses it on the category names, is a strict total order |
| Text.LowerSpec | blimp/tests/test_blimp_parser.py:21 | lower-casing keeps the length, maps each upper-case ASCII letter to its lower-case letter and leaves no upper-case letter |
| Text.LowerOfLower | blimp/tests/test_blimp_parser.py:21 | lower-casing a lower-case key changes nothing |
| Ordering.SortSet | tests/__init__.py:36 | `sorted` of a set yields every element once, in strictly increasing order |
| Ordering.SortedUnique | tests/__init__.py:36 | there is only one such order |
| Ordering.MapSumRemove | tester.py:150-151 | `Counter.total()` is one key's count plus the total of the others |
| Paths.Stem | tests/__init__.py:17 | the stem followed by the final suffix is the name |
| Paths.WithSuffixParts | tests/__init__.py:37 | `with_suffix` keeps the parent path and replaces only the final suffix of the last name |
| Paths.SuffixOfSimple | tests/__init__.py:37 | a name ending in `.in` has `.in` as its suffix and the rest as its stem |
| Paths.WithSuffixRoundTrip | tests/__init__.py:37 | replacing the suffix of an input by `.out` and back again gives the input |
| Paths.RelativeTo | tests/__init__.py:17 | the folder followed by the relative path is the path |
| Paths.PathLtIsStrictTotal | tests/__init__.py:36 | path order, part by part, is a strict total order |
| Paths.SortedPaths | tests/__init__.py:36 | the sorted paths are the set's paths, once each, in increasing order |
| Discovery.GlobDeep | tests/__init__.py:36 | the recursive glob yields paths below the folder, at any depth, with non-empty names ending in the input suffix |
| Discovery.GlobOneLevel | tests/test_parser.py:46 | the one-level glob yields paths exactly one directory below the folder, with names ending in the suffix |
| Discovery.DottedIdParts | tests/__init__.py:16-17 | the id splits at its dots into the directories below the folder and the stem of the file name |
| Discovery.DottedIdExample | tests/__init__.py:16-17 | `a/case1.in` below the folder has the id `a.case1` |
| Discovery.CaseId | tests/__init__.py:36-43 | every yielded record carries the folder and an input found below it, so its id is defined |
| Discovery.IdParts | tests/__init__.py:16-17 | a record's id splits at its dots into the directories below its folder and the stem, when none of these holds a dot |
| Discovery.PairYields | tests/__init__.py:37-43 | every record yielded pairs one of the inputs with its existing output, and carries the folder |
| Discovery.PairCases | tests/__init__.py:38-43 | an input is yielded exactly when its output file exists |
| Discovery.PairSkipped | tests/__init__.py:38-42 | an input is skipped exactly when its output file is missing |
| Discovery.PairPartition | tests/__init__.py:38-43 | together: yielded when the output exists, skipped otherwise |
| Discovery.PairSorted | tests/__init__.py:36-43 | the records keep the sorted order of the inputs |
| Discovery.FindTestCasesSpec | tests/__init__.py:20-43 | each input found at any depth is yielded once, paired and carrying the folder, or skipped for a missing output, and the records come sorted |
| TestParser.FindTestCasesSpec | tests/test_parser.py:45-53 | each `*/*.in` input exactly one level down is yielded once, paired with its existing `.out` file, or skipped, in sorted order; an input is yielded exactly when its `.out` file exists |
| TestParser.TestIdParts | tests/test_parser.py:22-23 | the id of each yielded record is its category directory, `.`, and the stem of its input's name |
| TestParser.Canonicalize | tests/test_parser.py:26-42 | with text stripped and comments dropped, the result is the canonical text or the re-raised parse error; the document is written to stderr exactly on error |
| TestParser.TestParser | tests/test_parser.py:56-77 | the test passes exactly when the expected output parses, the program exits 0, and the canonical output equals the canonical expected output |
| TestParser.ExpectedInvalidIgnoresRun | tests/test_parser.py:59 | an expected output that does not parse fails the test before the program's result matters |
| TestParser.NonZeroExitFails | tests/test_parser.py:71-73 | a non-zero exit fails the test whatever the program wrote to stdout |
| TestParser.StderrForwarded | tests/test_parser.py:71-72 | the program's stderr is forwarded first, and exactly when it is not empty |
| TestParser.EmptyOutputFails | tests/test_parser.py:38-42 | output with no elements fails the test as a parse error, after being dumped to stderr |
| Tester.WithDefaults | tester.py:41-43 | `strip_text` defaults to true; every flag the caller passes keeps its value |
| Tester.CanonicalizePossiblyEmpty | tester.py:44-50 | the canonical text, `""` for the "no elements" error, and None exactly for any other parse error |
| Tester.RunTest | tester.py:53-90 | TIMEOUT exactly on a timeout, CRASH exactly on a non-zero exit, PASS exactly when the canonical output equals the expected text |
| Tester.RunTestIgnoresOutput | tester.py:72-83 | a timeout or a crash is classified without looking at the output |
| Tester.UnparseableOutputFails | tester.py:85-90 | output that fails to parse, other than for lack of elements, is always FAIL |
| Tester.EmptyOutputPassesIffEmptyExpected | tester.py:85-90 | output with no elements passes exactly when the expected text is empty |
| Tester.Inputs | tester.py:121 | every input is a named entry exactly one directory below `tests` |
| Tester.InputsSorted | tester.py:121 | the inputs are the `*/*.in` entries, once each, in sorted order |
| Tester.TestNameParts | tester.py:122 | the test name is the category directory, `/`, and the file name without its final suffix |
| Tester.NameIdentifies | tester.py:142-144 | the printed result name tells the result: two results print the same name exactly when they are equal |
| Tester.Inc | tester.py:146-148 | `counter[key] += 1` adds one to that key and changes no other key |
| Tester.Visit | tester.py:121-148 | one iteration of the report loop, with its `continue`s, changes the counters and the log as `Step` specifies |
| Tester.VisitNext | tester.py:121-148 | after one more iteration the state is that of the loop over one more input |
| Tester.RunInputs | tester.py:118-148 | the loop over the given inputs ends in the state `Tallied` specifies |
| Tester.RunSuite | tester.py:118-148 | the report loop over the sorted inputs ends in that state |
| Tester.SumInc | tester.py:146-151 | counting one more case adds one to `Counter.total()` |
| Tester.StepExtends | tester.py:125-148 | one iteration does one of three things: nothing for a category left out, one skip and no count, or one result with its category's total counted once more and its passes only on PASS |
| Tester.ExtendsConsistent | tester.py:146-151 | any such iteration keeps the counts valid |
| Tester.StepConsistent | tester.py:125-151 | so each iteration keeps them valid |
| Tester.TalliedConsistent | tester.py:118-151 | after any inputs, only selected categories are counted and each at least once, passes never exceed the category total, and the overall figures are the numbers of results and of PASS results written |
| Tester.SkippedCountedNowhere | tester.py:125-140 | a case left out by the filter, without a `.out` file, or with an unparseable expected output changes no counter |
| Tester.NoFilterRunsAll | tester.py:125 | no category list and an empty one run the same cases with the same results |
| Tester.LinesFor | tester.py:158-162 | one line per category, with that category's passes and total |
| Tester.SortedCategories | tester.py:158 | the categories reported are exactly the counted ones |
| Tester.SortedCategoriesSorted | tester.py:158 | they come once each, in increasing order |
| Tester.WriteCategoryLines | tester.py:158-162 | the report loop writes one line per counted category, in sorted order |
| Tester.LinesSorted | tester.py:158-162 | the per-category lines come in strictly increasing category order, one per counted category |
| Tester.LinesCover | tester.py:158-162 | a category has a line exactly when it was counted |
| Tester.LinesBounded | tester.py:158-162 | every line's category was selected, its total is at least one, and its passes do not exceed it |
| Tester.ReportSpec | tester.py:118-162 | after the whole loop the counters are consistent, the overall figures match the results written, and there is one line per category |
| Tester.Summarize | tester.py:150-155 | for consistent counters, there is an overall line exactly when at least one result was written; it shows the number of PASS results out of the results written, and the passes never exceed the total. With no result written the source's percentage divides by zero |
| Tester.PassCountBounded | tester.py:146-148 | no more results pass than are written |
| Tester.RunSummary | tester.py:118-155 | after a whole run, the overall line is missing exactly when no result was written, and otherwise shows the PASS results out of all results written |
| BlimpTest.BlimpCasesSpec | blimp/tests/test_blimp_parser.py:9-17 | every case is an `.in` file below `cases`, paired with its existing `.json` file; the inputs without one are skipped |
| BlimpTest.FoldKeys | blimp/tests/test_blimp_parser.py:21 | the folded keys are exactly the lower-cased output keys |
| BlimpTest.FoldValues | blimp/tests/test_blimp_parser.py:21 | each folded key maps to the unchanged value of the last output key that lower-cases to it |
| BlimpTest.FoldAt | blimp/tests/test_blimp_parser.py:21 | the last item with a given lower-cased key supplies that key's value |
| BlimpTest.LaterKeyWins | blimp/tests/test_blimp_parser.py:21 | of two keys differing only in case, the later one's value wins |
| BlimpTest.FoldKeysLower | blimp/tests/test_blimp_parser.py:21 | every folded key is lower case |
| BlimpTest.FoldIdempotent | blimp/tests/test_blimp_parser.py:21 | folding an already folded mapping changes nothing |
| BlimpTest.BlimpVerdict | blimp/tests/test_blimp_parser.py:18-24 | the test passes exactly when the output is an object whose folded mapping equals the expected value as loaded; each load error is reported as its own error |
| BlimpTest.UpperCaseExpectedKeyNeverPasses | blimp/tests/test_blimp_parser.py:22-24 | the expected file is not case-folded, so an expected key with an upper-case letter never matches |

## Left out

- Reading and writing streams, running processes, wall-clock timeouts, pytest and its fixtures, and argparse. These are I/O and framework code. A run is given as how it ended (`Oracles.Run`), and the file tree as a set of paths.
- `conftest.py` and `tests/conftest.py`: pytest option registration, the runner fixture and the traceback handling. They are framework glue and I/O.
- `ET.canonicalize`, `json.loads` and `json.load`: outside library code, passed in as their results. XML and JSON parsing are not modelled.
- JSON equality of `True` and `1`, and of NaN: the model compares JSON values structurally.
- The percentages in `tester.py`: floating-point formatting. `Tester.Summarize` returns no overall line where the overall percentage divides by zero.
- Blcmm.OpenTagReadBack: stated for lines without `&`. The name, the white space and the attribute names are copied verbatim, so an entity written there in the input would be decoded on reading back. `Blcmm.TagBodyReadBack` and `Blcmm.ValueChunkReadBack` have the same restriction.
- The exact wording of warnings and stderr messages. The model records which case was skipped and why.
- The write failure at reference/blcmm.cpp:100-102 and read failures other than end of input: stream state outside the program text.
- `blcmm.hpp`: `blcmm.hpp` is not part of this model. The exception class is an error value.
- Unicode case mapping: `str.lower` is modelled on ASCII letters only.
- Glob metacharacters in folder names, symlinks, and an output path that names a directory: `exists()` is membership in the tree.
- Paths.WithSuffix: requires a suffix that `with_suffix` accepts. `with_suffix` raises ValueError on any other suffix, and the harness only passes `.in`, `.out`, `.json` and `""`.
- Blcmm.PreprocessSucceeds: stated for any converter of ordinary lines, so it holds for `ConvertLineAsWritten`, which the methods follow, and for the corrected `ConvertLine`. The same holds for the other `Preprocess` lemmas.

## Findings

| source | as written | input that shows it | evidently intended | confidence | as-written member | corrected member |
|---|---|---|---|---|---|---|
| reference/blcmm.cpp:77 | `content_start = tag_body_section_start + 1` starts the element text one past the start of the last attribute section, not one past the `>` that ends the tag | the line `<a b="x" >t</a>` is written as `<a b="x" >&gt;t</a>` | the element text starts right after the `>` that closes the opening tag, so the line is written unchanged | not executed | Blcmm.ContentStartCounterexample | Blcmm.ContentStartCorrected |
