# PEP8-parser style corrector, modelled in Dafny

PEP8-parser walks over Python files and fixes a few style problems. A file is a list of
lines, terminators included. For each rule in `EXECUTION_LIST`, a detector returns `None`
or a list of violation records. The matching corrective action then rewrites the line
list. `FileHandler.analyze` repeats detect→fix until the detector is satisfied. A safety
counter caps the number of rounds.

This project models that engine and proves what it does:

- `wrappers.dfy` (`Wrappers`): `Option` and `Result`. A Python exception is a `Failure`.
- `py_text.dfy` (`PyText`): the Python `str` and `list` behaviour the engine relies on.
  This covers `isspace`, `strip`, `split`, `replace`, indexing with negative indices,
  `insert` (which clamps) and `del`.
- `diagnostics.dfy` (`Diagnostics`):
  - the `patterns` table (E400, E401, E302);
  - the violation record;
  - the three shapes a detector's value can take: `None`, a list, or anything else.
- `violations.dfy` (`Violations`): the detectors.
  - `calculate_blank_lines`.
  - The E401 regular expression, as a predicate proved equivalent to the pattern's
    semantics, together with `multiple_imports_check`.
  - `imports_position_check` and `expected_blank_lines_check`, over an abstract tree.
- `corrective_actions.dfy` (`CorrectiveActions`): the five correctors.
  - Each is a method with the source's loops.
  - Each is proved equal to a specification function that follows the loop step by step.
  - The properties of each correction are lemmas about those functions.
- `blank_lines_proof.dfy` (`BlankLinesProof`): the blank-line corrector applied to
  detected records, and to the E302 detector's own report, leaves each flagged definition
  with exactly the expected number of blank lines.
- `multiple_imports_proof.dfy` (`MultipleImportsProof`): after one pass of the
  multiple-imports corrector, nothing is left for the E401 detector to flag.
- `file_handler.dfy` (`FileHandling`):
  - `parse_pycodestyle_output`;
  - the `analyze` loop;
  - `run_pycodestyle`;
  - `EXECUTION_LIST`;
  - the `FileHandler` class, whose `content` field stands for the file on disk.

Modelling choices:

- A corrector's `write_to_file` becomes the returned line list. `analyze` stores that list
  in `content`, and `read_from_file` reads it back.
- Every corrector starts from `file_content.copy()`. Dafny sequences are values, so the
  caller's list can never change.
- `ast.parse` and `ast.walk` are replaced by abstract inputs:
  - For blank lines: the module's top-level statements (`Stmt`). Each is a function, a
    class with its body, or another statement.
  - For import positions: the imports in `ast.walk` order (`ImportNode`). Each records
    whether it lies inside a top-level function or class. Only `ast.FunctionDef` and
    `ast.ClassDef` count (`Scripts/violations.py:98`). So an import inside a top-level
    `async def` is still flagged.
  - In the driver, a `Parser` value supplies both, or raises.
- `expected` and `received` on an E302 record are `Option<int>`. The source formats them
  into strings and converts them back with `int()`.
- A record without the field a corrector reads raises `KeyError`. An index outside the
  list raises `IndexError`. `min()` of an empty list raises `ValueError`.
- A line is blank when `line.strip()` is empty. This is `IsBlankLine`, proved equal to "every
  character satisfies `str.isspace`" (`PyText.StripEmptyIffAllSpace`).
- In `expected_blank_lines_check`, `current_class` is always `None` at top level. So the
  branch at `Scripts/violations.py:145-146` is dead. Every top-level function expects two
  blank lines; only functions directly in a top-level class body expect one.
- `extraneous_whitespace_corrective_action` is modelled as written. Every record is
  applied. A record on the same line as the one before it shifts its column by that one
  record's count only, not by a running total, and later records are not skipped.
- The detectors and correctors that `EXECUTION_LIST` names but the modelled files do not
  define are opaque (check, fix) pairs (`FileHandling.Unmodelled`).

## Model

| member | source | states |
|---|---|---|
| PyText.LeadingSpaces | Scripts/violations.py:25 | `\s*` takes the maximal whitespace prefix: all of it is whitespace and the next character is not |
| PyText.StripEmptyIffAllSpace | Scripts/violations.py:61 | `line.strip()` is empty exactly when every character is whitespace, in both directions |
| PyText.StripKeepsOnly | Scripts/corrective_actions.py:104 | `strip()` only removes characters: every character of the result occurs in the input |
| PyText.PrefixBefore | Scripts/corrective_actions.py:135 | `line.split('import')[0]` is a prefix of the line |
| PyText.RemoveSpaces | Scripts/corrective_actions.py:72 | `replace(" ", "")` leaves no space |
| PyText.RemoveSpacesLength | Scripts/corrective_actions.py:72 | `replace(" ", "")` shortens the text by exactly its number of spaces |
| PyText.Split | Scripts/corrective_actions.py:138 | `split(',')` yields one more part than there are commas, and no part holds a comma |
| PyText.JoinSplit | Scripts/corrective_actions.py:138 | joining the parts of `split(sep)` with `sep` gives back the original text |
| PyText.PyIndex | Scripts/corrective_actions.py:213 | Python indexing accepts exactly `-n <= i < n`, lands inside the list, and is the identity on non-negative indices |
| PyText.PyInsert | Scripts/corrective_actions.py:175 | `list.insert` always adds exactly one element, whatever the index |
| PyText.PyDelete | Scripts/corrective_actions.py:180 | `del lines[i]` succeeds exactly when `-n <= i < n` and removes one element; otherwise it raises `IndexError` |
| PyText.SliceBound | Scripts/corrective_actions.py:71-73 | a slice bound is clamped into the list and left alone when already inside |
| PyText.PySlice | Scripts/corrective_actions.py:71-73 | Python slicing agrees with Dafny slicing on in-range bounds |
| PyText.InsertEachIsBlock | Scripts/corrective_actions.py:174-177 | repeated `insert` at an advancing index places the new lines as one block at that index |
| Diagnostics.Flag | Scripts/violations.py:107-109 | a record built from a pattern carries the line, the pattern's code and message, and no counts or column |
| Diagnostics.LineNumbers | Scripts/violations.py:111 | `[v.get("line_number") for v in violations]` keeps length and takes each record's line |
| Violations.BlankRun | Scripts/violations.py:57-63 | the blank-line count above an index never exceeds the number of lines above it |
| Violations.BlankRunIsMaximal | Scripts/violations.py:61-63 | the counted lines are all blank, and counting stops at a non-blank line or at the top of the file |
| Violations.CalculateBlankLines | Scripts/violations.py:53-74 | returns no record exactly when the blank lines above the line equal the expectation; otherwise the E302 record with the line, the expectation and the count |
| Violations.TopLevelDefLinesMeaning | Scripts/violations.py:141-150 | the lines expecting two blank lines are exactly those of top-level functions and classes |
| Violations.MethodsOfMeaning | Scripts/violations.py:151-153 | a class's methods are exactly the functions directly in its body |
| Violations.MethodLinesMeaning | Scripts/violations.py:141-154 | the lines expecting one blank line are exactly the methods of top-level classes |
| Violations.MismatchesMeaning | Scripts/violations.py:156-164 | a record is produced for a listed line exactly when its blank count differs from the expectation, and it carries that line, expectation and count |
| Violations.MismatchesCount | Scripts/violations.py:156-164 | no record occurs more often than its line is listed |
| Violations.CollectDefinitions | Scripts/violations.py:141-154 | the first loop collects the top-level definition lines and the method lines in source order |
| Violations.CollectMethods | Scripts/violations.py:151-153 | the inner loop collects the class body's function lines |
| Violations.CheckLines | Scripts/violations.py:156-164 | the `calculate_blank_lines` loop appends exactly the mismatching records, in order |
| Violations.InsertByLine | Scripts/violations.py:166 | inserting into a list sorted by line keeps it sorted and adds exactly that record |
| Violations.SortByLine | Scripts/violations.py:166 | `sorted(..., key=line_number)` yields a list sorted by line that is a permutation of its input |
| Violations.ExpectedBlankLinesOutput | Scripts/violations.py:133-168 | `None` exactly when no definition mismatches; otherwise a list sorted by line that is a permutation of the mismatch records; never anything else |
| Violations.ExpectedBlankLinesCheck | Scripts/violations.py:133-168 | the loops of `expected_blank_lines_check` compute `ExpectedBlankLinesOutput` |
| Violations.CommaBeforeHashIsLineEnd | Scripts/violations.py:25 | the scan for a comma before any `#` succeeds exactly when `[^#]*,[^#]*$` can match the rest of the line |
| Violations.MatchImpliesPattern | Scripts/violations.py:25 | a line the predicate flags is matched by the E401 pattern |
| Violations.PatternImpliesMatch | Scripts/violations.py:25 | a line the E401 pattern matches is flagged by the predicate |
| Violations.PatternTail | Scripts/violations.py:25 | in a pattern match, the text after `import` and one whitespace character matches `\s*[^#]*,[^#]*$` |
| Violations.LeadingSpacesAt | Scripts/violations.py:25 | the whitespace prefix ends at the first non-whitespace character |
| Violations.MultipleImportsMatchIsPattern | Scripts/violations.py:25 | a line is flagged iff the E401 pattern matches it |
| Violations.FromImportNeverFlagged | Scripts/violations.py:25 | a `from x import a, b` line is never flagged |
| Violations.MultipleImportsRecordsAscending | Scripts/violations.py:123-128 | the records are in strictly ascending line order, each an E401 record on a line of the file |
| Violations.MultipleImportsRecordsExact | Scripts/violations.py:123-128 | a line number is reported exactly when that line matches the pattern |
| Violations.MultipleImportsRecordsMeaning | Scripts/violations.py:123-130 | no records iff no line matches; otherwise strictly ascending E401 records, each on a matching line, and every matching line reported |
| Violations.MultipleImportsRecordsSound | Scripts/violations.py:123-128 | every reported line matches the pattern |
| Violations.MultipleImportsRecordsComplete | Scripts/violations.py:123-128 | every matching line is reported |
| Violations.MultipleImportsOutput | Scripts/violations.py:117-130 | `None` iff no line matches; otherwise strictly ascending E401 records that cover exactly the matching lines; never anything else |
| Violations.MultipleImportsCheck | Scripts/violations.py:117-130 | the loop of `multiple_imports_check` computes `MultipleImportsOutput` and so has all of its properties |
| Violations.CandidateLines | Scripts/violations.py:91-109 | a line is a candidate exactly when some import in walk order on it lies outside every top-level function and class |
| Violations.Min | Scripts/violations.py:112 | `min` is an element no greater than any other |
| Violations.Max | Scripts/violations.py:112 | `max` is an element no smaller than any other |
| Violations.Range | Scripts/violations.py:112 | `range(lo, hi)` has `hi - lo` elements, counting up from `lo` |
| Violations.ConsecutiveBounds | Scripts/violations.py:111-113 | a list counting up by one has its first element as minimum and its last as maximum |
| Violations.ContiguousIffConsecutive | Scripts/violations.py:111-113 | `line_numbers == list(range(min, max + 1))` holds iff the list counts up by one from its first element |
| Violations.ImportsPositionCheck | Scripts/violations.py:81-114 | raises `ValueError` iff there are no candidates; `None` iff the candidates count up by one, wherever they start; otherwise one E400 record per candidate in walk order |
| Violations.ImportsPositionOutput | Scripts/violations.py:111-114 | for a non-empty candidate list: `None` iff it counts up by one; otherwise one E400 record per candidate |
| Violations.FlagAll | Scripts/violations.py:105-109 | one record per line, in order, each a record of the pattern |
| CorrectiveActions.WhitespaceEnd | Scripts/corrective_actions.py:64-67 | the counting loop never moves backwards |
| CorrectiveActions.WhitespaceRemovalPastEnd | Scripts/corrective_actions.py:63-76 | from the end of the line or beyond it, the line comes back unchanged with count 0 |
| CorrectiveActions.WhitespaceRemovalRun | Scripts/corrective_actions.py:63-76 | inside the line, the count is the length of the maximal whitespace run from the start index; text before and after the run is kept; only spaces in the run are deleted; the line shrinks by the run's spaces |
| CorrectiveActions.WhitespaceRemovalAtNonSpace | Scripts/corrective_actions.py:63-76 | on a non-whitespace character the line comes back unchanged with count 0 |
| CorrectiveActions.WhitespaceEndRun | Scripts/corrective_actions.py:65-67 | the loop stops at the end of the maximal whitespace run |
| CorrectiveActions.RemoveWhitespaceAndCount | Scripts/corrective_actions.py:51-76 | the counting loop and slicing compute `WhitespaceRemoval`, including Python's rules for negative indices |
| CorrectiveActions.Keep | Scripts/corrective_actions.py:107 | filtering out removed line numbers never lengthens the list |
| CorrectiveActions.KeepLength | Scripts/corrective_actions.py:106-107 | the filtered list loses exactly one line per distinct flagged line number inside the file |
| CorrectiveActions.KeepNothingRemoved | Scripts/corrective_actions.py:106-107 | with no flagged line inside the file, the filter keeps every line |
| CorrectiveActions.FlaggedLines | Scripts/corrective_actions.py:101-104 | one stored line per record, or `IndexError` |
| CorrectiveActions.StripEach | Scripts/corrective_actions.py:104 | each stored line is the stripped original |
| CorrectiveActions.WithNewlines | Scripts/corrective_actions.py:110 | each stored line gets `'\n'` appended |
| CorrectiveActions.ImportsPositionCorrectiveAction | Scripts/corrective_actions.py:83-112 | the method's loops compute `ImportsPositionFix` |
| CorrectiveActions.InsertAtTop | Scripts/corrective_actions.py:109-110 | `lines.insert(i, line + '\n')` over the stored lines puts them, in order, at the top |
| CorrectiveActions.FlaggedLinesFailsFrom | Scripts/corrective_actions.py:101-104 | once one record's line lookup fails, the whole collection fails |
| CorrectiveActions.FlaggedLinesInRange | Scripts/corrective_actions.py:101-104 | with every record on a line of the file, the stored lines are those lines |
| CorrectiveActions.FlaggedLinesFails | Scripts/corrective_actions.py:101-104 | the collection raises iff some record's index is outside Python's index range, and the error is `IndexError` |
| CorrectiveActions.ImportsPositionFixLayout | Scripts/corrective_actions.py:97-110 | the output is each flagged line stripped plus `'\n'` in record order, then the unflagged lines in order; its length is `len(content) - distinct flagged + records` |
| CorrectiveActions.ImportsPositionFixFails | Scripts/corrective_actions.py:97-110 | the corrector raises iff some record's line index is out of Python's range, with `IndexError` |
| CorrectiveActions.ExpandImportLine | Scripts/corrective_actions.py:135-139 | the flagged line becomes one statement per comma-separated part of its text after `import ` is removed |
| CorrectiveActions.ExpandImportLineStatements | Scripts/corrective_actions.py:135-139 | each new statement starts with the line's indentation and `import `, ends with `'\n'`, and holds no comma in between |
| CorrectiveActions.ExpandStep | Scripts/corrective_actions.py:133-143 | one record's split grows the list by exactly as much as it grows the offset |
| CorrectiveActions.MultipleImportsCorrectiveAction | Scripts/corrective_actions.py:115-145 | the method computes `MultipleImportsFix` with the source's split |
| CorrectiveActions.ExpandFlaggedLines | Scripts/corrective_actions.py:129-143 | the loop over the records, with its running offset, computes `MultipleImportsFix` |
| CorrectiveActions.ExpandLine | Scripts/corrective_actions.py:133-143 | the loop body for one record computes `ExpandStep` |
| CorrectiveActions.ExpandAtAgree | Scripts/corrective_actions.py:132-143 | the expansion depends only on which of the document's own lines are flagged |
| CorrectiveActions.ExpandAtSplit | Scripts/corrective_actions.py:132-143 | expanding a document is expanding its two halves and concatenating |
| CorrectiveActions.ExpandAtNothing | Scripts/corrective_actions.py:132-143 | with no flagged line, the expansion is the document itself |
| CorrectiveActions.MultipleImportsFixFrom | Scripts/corrective_actions.py:132-143 | with the records of lines below `p` done, the loop, with its running offset, ends with the rest expanded at exactly the flagged lines |
| CorrectiveActions.MultipleImportsFixExpands | Scripts/corrective_actions.py:115-145 | on ascending in-range records, the corrector replaces exactly the flagged lines by their expansions, so the offset steers each later record to its shifted line |
| CorrectiveActions.MultipleImportsFixKeepsPrefix | Scripts/corrective_actions.py:130-143 | the lines before the first flagged line are unchanged |
| CorrectiveActions.ExpandAtGrowth | Scripts/corrective_actions.py:137-143 | expanding from line `p` lengthens the rest by the sum of (statements − 1) over the flagged lines |
| CorrectiveActions.MultipleImportsFixLength | Scripts/corrective_actions.py:130-143 | the corrected document is longer by Σ(kᵢ − 1) |
| CorrectiveActions.InsertBelow | Scripts/corrective_actions.py:140-143 | inserting the extra statements one below another puts them as one block after the first |
| CorrectiveActions.Blanks | Scripts/corrective_actions.py:175 | `n` inserted lines, each `'\n'` |
| CorrectiveActions.DeleteAbove | Scripts/corrective_actions.py:179-182 | a successful run of deletions removes exactly `n` lines |
| CorrectiveActions.DeleteAboveIsBlock | Scripts/corrective_actions.py:179-182 | deleting `n` times at a falling index removes the `n` lines just above the definition as one block |
| CorrectiveActions.Respace | Scripts/corrective_actions.py:170-182 | one record changes the length by exactly `expected - received` |
| CorrectiveActions.BlankLinesCorrectiveAction | Scripts/corrective_actions.py:148-184 | the method, with its running offset, computes `BlankLinesFix`, raising `KeyError` for a record without counts; `BlankLinesFixLength` and `BlankLinesProof.BlankLinesCorrectionRestores` state what that result is |
| CorrectiveActions.BlankLinesFixLength | Scripts/corrective_actions.py:165-182 | a successful correction changes the number of lines by exactly the sum of `expected - received` over the records |
| CorrectiveActions.RespaceAt | Scripts/corrective_actions.py:170-182 | the insert-or-delete branch for one record computes `Respace` |
| CorrectiveActions.InsertBlanks | Scripts/corrective_actions.py:173-177 | the insertion loop adds `diff` `'\n'` lines just above the definition |
| CorrectiveActions.DeleteBlanks | Scripts/corrective_actions.py:178-182 | the deletion loop removes `-diff` lines just above the definition, or raises `IndexError` |
| CorrectiveActions.ExtraneousStep | Scripts/corrective_actions.py:208-219 | one record keeps the number of lines and its line number; it raises `KeyError` without a column and `IndexError` on a line outside Python's index range |
| CorrectiveActions.ExtraneousStepRemovesRun | Scripts/corrective_actions.py:208-216 | with the column shifted by the previous record's count on the same line, the maximal whitespace run there loses its spaces and is counted, and every other line is unchanged |
| CorrectiveActions.ExtraneousStepAt | Scripts/corrective_actions.py:208-219 | a record whose removal succeeds rewrites the one line it addresses |
| CorrectiveActions.ExtraneousStepFrame | Scripts/corrective_actions.py:213-216 | one record changes no line other than the one it addresses |
| CorrectiveActions.ExtraneousFixFrame | Scripts/corrective_actions.py:204-219 | a successful correction keeps the number of lines and every line no record addresses |
| CorrectiveActions.ExtraneousWhitespaceCorrectiveAction | Scripts/corrective_actions.py:187-221 | the loop with `prev_line_number` and `prev_count` computes `ExtraneousFix`; `ExtraneousFixDistinctLines` and `ExtraneousFixOneLine` state what that result is |
| CorrectiveActions.ExtraneousFixDistinctAt | Scripts/corrective_actions.py:204-219 | for records on strictly ascending lines whose columns lie inside their lines, the correction succeeds, keeps the number of lines, and leaves record `k`'s line as the whitespace removal at its own, unshifted column makes it |
| CorrectiveActions.ExtraneousFixDistinctLines | Scripts/corrective_actions.py:187-221 | the whole correction, on records on strictly ascending lines whose columns lie inside their lines: it succeeds, keeps the number of lines, and every record's line is its removal at the unshifted column; together with `ExtraneousFixFrame`, every other line is unchanged |
| CorrectiveActions.SameLineFix | Scripts/corrective_actions.py:204-219 | records that all address one line rewrite only that line, as `LineRemovals` does: each column is moved left by the count of the removal just before it on the line only, and a failure is raised exactly as `LineRemovals` raises it |
| CorrectiveActions.ExtraneousFixOneLine | Scripts/corrective_actions.py:187-221 | the whole correction of records on one line: the first column is unshifted, each later one is moved left by the previous removal's count only, every other line is kept, and errors are those of `LineRemovals` |
| CorrectiveActions.RewriteLine | Scripts/corrective_actions.py:208-219 | the loop body for one record computes `ExtraneousStep` |
| BlankLinesProof.BlankRunExact | Scripts/violations.py:61-63 | blank lines above an index bounded by a non-blank line or the top are counted exactly |
| BlankLinesProof.BlankRunPrefix | Scripts/violations.py:61-63 | the count above an index depends only on the lines above it |
| BlankLinesProof.RunAbove | Scripts/violations.py:57-63 | a block of blank lines between a non-blank line and a definition is exactly the definition's count |
| BlankLinesProof.NewRun | Scripts/corrective_actions.py:173-182 | the resized run has exactly `expected` lines |
| BlankLinesProof.RespaceBlock | Scripts/corrective_actions.py:173-182 | one record's edit replaces the blank run above the definition by a run of exactly `expected` lines and keeps everything else |
| BlankLinesProof.NewRunBlank | Scripts/corrective_actions.py:175 | the resized run is all blank |
| BlankLinesProof.CorrectedRun | Scripts/corrective_actions.py:170-182 | after one record, the definition has exactly `expected` blank lines above it, and the already corrected part is kept |
| BlankLinesProof.RestoredHead | Scripts/corrective_actions.py:166-171 | the first record is corrected at its offset-shifted line once its corrected prefix is in place |
| BlankLinesProof.RestoredTail | Scripts/corrective_actions.py:166-171 | the running offset maps a later record's correction to its shifted line |
| BlankLinesProof.FirstRecordCorrected | Scripts/corrective_actions.py:165-182 | correcting the first record leaves a corrected prefix from which the loop continues with the rest |
| BlankLinesProof.BlankLinesFixFrom | Scripts/corrective_actions.py:165-182 | from any corrected prefix, the loop corrects every remaining record and keeps the prefix |
| BlankLinesProof.BlankLinesFixAfter | Scripts/corrective_actions.py:165-182 | the induction step of the loop: the first record stays corrected while the rest are done |
| BlankLinesProof.RestoredAll | Scripts/corrective_actions.py:165-182 | the first record and the rest, each restored, make every record restored |
| BlankLinesProof.BlankLinesCorrectionRestores | Scripts/corrective_actions.py:148-184 | on strictly ascending records whose counts are the real blank runs, the correction succeeds; the length grows by the sum of diffs; each definition, at its offset-shifted line, has exactly `expected` blank lines above it; and the result is `Respaced`, the file with each record's blank run resized and every other line kept in order |
| BlankLinesProof.DetectedIsSpaced | Scripts/violations.py:57-63 | detected records in ascending order never share blank lines |
| BlankLinesProof.ReportOrigin | Scripts/violations.py:156-164 | each record comes from a top-level definition expecting 2, or from a method expecting 1, with that line's real blank count |
| BlankLinesProof.ReportDetected | Scripts/violations.py:156-164 | each record of the report is one `calculate_blank_lines` builds for a definition line |
| BlankLinesProof.ReportCountedOnce | Scripts/violations.py:156-164 | with definitions on distinct lines, no record occurs twice |
| BlankLinesProof.ReportOneRecordPerLine | Scripts/violations.py:156-164 | with definitions on distinct lines, no two records share a line |
| BlankLinesProof.DetectorReportRestored | Scripts/violations.py:133-168 | the detector's sorted report, handed to the blank-line corrector, is fully corrected, and the result is `Respaced`: only the blank runs above the reported definitions change |
| MultipleImportsProof.PrefixBeforeFirst | Scripts/corrective_actions.py:135 | `split('import')[0]` ends where `import` first occurs: given an occurrence at `i` and none at any earlier index, the prefix is exactly the text before `i` |
| MultipleImportsProof.IndentationOfFlagged | Scripts/corrective_actions.py:135 | for a flagged line, the copied indentation is its leading whitespace and holds no comma |
| MultipleImportsProof.CommaBeforeHashNeedsComma | Scripts/violations.py:25 | `[^#]*,[^#]*$` cannot match text without a comma |
| MultipleImportsProof.CommaFreeNeverFlagged | Scripts/violations.py:25 | a line without a comma is never flagged |
| MultipleImportsProof.CommaFreeStatement | Scripts/corrective_actions.py:137-142 | a statement built from a comma-free head, comma-free text and `'\n'` has no comma |
| MultipleImportsProof.StatementShapeNotFlagged | Scripts/corrective_actions.py:137-142 | a statement of the shape the corrector writes is not flagged |
| MultipleImportsProof.ExpandedStatementNotFlagged | Scripts/corrective_actions.py:137-142 | no statement a flagged line is split into is flagged again |
| MultipleImportsProof.ExpandAtOrigin | Scripts/corrective_actions.py:132-143 | every line of the corrected file is an unflagged original line or part of a flagged line's split |
| MultipleImportsProof.FixedLineNotFlagged | Scripts/corrective_actions.py:132-143 | no line of the corrected file is flagged |
| MultipleImportsProof.MultipleImportsFixClears | Scripts/corrective_actions.py:115-145 | on the detector's own records the corrector succeeds, expands exactly the flagged lines, and the detector then returns `None` |
| FileHandling.ParsePycodestyleOutput | Scripts/file_handler.py:134-155 | `False` iff the value is `None`; `True` for any list, empty included; exit status 1 for anything else |
| FileHandling.AnalyzeTrace | Scripts/file_handler.py:100-117 | at most 9 checks; the first sees the file; each later check sees what the fix made of the file the previous check saw; the file left is the last one seen or the last fix's output when the counter ran out |
| FileHandling.AnalyzeOutcome | Scripts/file_handler.py:100-117 | the loop stops converged only on a `None` check; exits with status 1 only on a non-list; raises only when the check or the fix raised, with that error |
| FileHandling.RunStagesAppend | Scripts/file_handler.py:126-132 | running two lists of stages in turn is running their concatenation, and the second starts only if the first completed |
| FileHandling.RunStagesCompleted | Scripts/file_handler.py:126-132 | a completed run went through every stage in order, each converging or giving up, none raising or exiting |
| FileHandling.ExecutionList | Scripts/file_handler.py:23-44 | eleven stages in source order: trailing whitespace first and tenth; the extraneous-whitespace stage third, with `ExtraneousFix` from no previous line as its corrector; import positions seventh, multiple imports eighth, expected blank lines ninth; each unmodelled stage in its own place |
| FileHandling.MultipleImportsStageConverges | Scripts/file_handler.py:100-117 | the multiple-imports stage converges after at most one correction, leaving the flagged lines expanded |
| FileHandling.FileHandler.constructor | Scripts/file_handler.py:76-77 | the handler holds the path and the file's lines |
| FileHandling.FileHandler.Analyze | Scripts/file_handler.py:90-117 | the `while status` loop with its safety counter leaves the file and outcome `AnalyzeFrom` describes |
| FileHandling.FileHandler.RunPycodestyle | Scripts/file_handler.py:119-132 | running the stages in order leaves the file and result `RunStages` describes; the first exception becomes `CodeStyleAnalysisError` |

## Left out

- File I/O is not modelled: `write_to_file`, `read_from_file` and `FileHandler.open` with
  `subprocess.Popen`. The file is the `content` field.
- `time.sleep`, all logging (`log_obj`, `get_info_format`) and exception message texts are
  not modelled. They do not affect the line lists.
- `ast.parse` and `ast.walk` are parameters (`FileHandling.Parser`). The tree they build from
  Python text, and when they raise `SyntaxError`, are not modelled.
- `parse_pattern`'s `re.compile` is not modelled. No general regular-expression engine is
  modelled: the one E401 pattern is a hand-written predicate proved equivalent to its
  matching semantics. The other two patterns have an empty `value` and are never matched.
- The detectors and correctors `EXECUTION_LIST` names that the modelled files do not define
  are opaque stages (`FileHandling.Unmodelled`). These are trailing whitespace, tabs,
  missing whitespace, whitespace before parameters, whitespace around operators, missing
  newline, and the extraneous-whitespace detector. Their behaviour is unknown.
- `program.py`, `Scripts/folder_handler.py`, `Scripts/logging_handler.py` and
  `Scripts/error_handler.py` are not part of this model. `CodeStyleAnalysisError` appears
  only as the `AnalysisError` result of `RunPycodestyle`. `sys.exit` appears as an
  `Exited`/`Stopped` result.
- Python's `str.isspace` is taken to be the fixed set of whitespace characters in
  `PyText.IsSpace`. Unicode tables beyond that set are not modelled.
- BlankLinesProof.DetectorReportRestored: assumes every definition line is a non-blank line
  of the file and that no two definitions share a line. The parser guarantees both for real
  Python text, but the abstract tree does not.
- File round trip: `read_from_file` after `write_to_file` is taken to give back the same
  list. That holds only when every line but the last ends in `'\n'` and no line holds another
  `'\n'`. The corrected lists are not shown to meet that.
- CorrectiveActions.ExtraneousFixDistinctLines: covers records on distinct lines whose columns lie inside their
  lines. Records sharing a line are covered separately by `ExtraneousFixOneLine`. A mix of
  both is characterised only through `ExtraneousFix` itself and `ExtraneousFixFrame`.
- BlankLinesProof.BlankLinesCorrectionRestores: covers strictly ascending records only.
  With two records on one line the corrector still runs, but its result is not
  characterised.
- MultipleImportsProof.MultipleImportsFixClears: covers the records the E401 detector
  itself produces. For arbitrary records only the shape lemmas in `CorrectiveActions` apply.
- FileHandling.MultipleImportsStageConverges: the other two modelled stages depend on the
  abstract parser. For them, convergence of `analyze` is not claimed.
