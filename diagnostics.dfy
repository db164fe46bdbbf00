/**
 * The violation record shared by detectors and correctors, the per-rule metadata table
 * (`patterns`), and the shape of a detector's return value.
 */
module Diagnostics {
  import opened Wrappers

  /** One entry of the `patterns` table: regex text, violation code, message and format templates. */
  datatype PatternInfo = PatternInfo(
    value: string,
    violationType: string,
    key: string,
    expected: Option<string>,
    received: Option<string>)

  const ImportsPosition := PatternInfo("", "E400", "Import positioning", None, None)
  const MultipleImports :=
    PatternInfo("^\\s*import\\s+[^#]*,[^#]*$", "E401", "Multiple imports on one line", None, None)
  const ExpectedBlankLines :=
    PatternInfo("", "E302", "Blank lines positioning", Some("{expected}"), Some("{received}"))

  /**
   * A violation record. Line numbers are 1-based. `expected` and `received` are the blank-line
   * counts of an E302 record, `atPosition` the column an extraneous-whitespace record points at;
   * a field the producing detector did not set is `None` (reading it is a `KeyError`).
   */
  datatype Violation = Violation(
    lineNumber: int,
    violationType: string,
    key: string,
    expected: Option<int>,
    received: Option<int>,
    atPosition: Option<int>)

  /** A record carrying only the line and the pattern's code and message. */
  function Flag(p: PatternInfo, lineNumber: int): (v: Violation)
    ensures v.lineNumber == lineNumber && v.violationType == p.violationType && v.key == p.key
    ensures v.expected.None? && v.received.None? && v.atPosition.None?
  {
    Violation(lineNumber, p.violationType, p.key, None, None, None)
  }

  /** What a detector hands back: `None`, a list of records, or (from a faulty detector) anything else. */
  datatype Output = NoneOutput | ListOutput(items: seq<Violation>) | OtherOutput

  /** Line numbers of a list of records, in list order. */
  function LineNumbers(vs: seq<Violation>): (ns: seq<int>)
    ensures |ns| == |vs|
    ensures forall k :: 0 <= k < |vs| ==> ns[k] == vs[k].lineNumber
  {
    seq(|vs|, k requires 0 <= k < |vs| => vs[k].lineNumber)
  }

  /** Records in strictly increasing line order. */
  predicate StrictlyAscending(vs: seq<Violation>) {
    forall j, k :: 0 <= j < k < |vs| ==> vs[j].lineNumber < vs[k].lineNumber
  }

  /** Records in non-decreasing line order. */
  predicate SortedByLine(vs: seq<Violation>) {
    forall j, k :: 0 <= j < k < |vs| ==> vs[j].lineNumber <= vs[k].lineNumber
  }
}
