/**
 * The detectors: `calculate_blank_lines`, `imports_position_check`, `multiple_imports_check`
 * and `expected_blank_lines_check`. The two tree-based checks take the parsed module as an
 * abstract input (the Python parser itself is not part of this model).
 */
module Violations {
  import opened Wrappers
  import opened PyText
  import opened Diagnostics

  // ---------------------------------------------------------------------------------------
  // Blank lines above a line
  // ---------------------------------------------------------------------------------------

  /**
   * A blank line: only whitespace characters. This is the source's test `not line.strip()`,
   * by `StripEmptyIffAllSpace`.
   */
  predicate IsBlankLine(line: string) {
    AllSpace(line)
  }

  /** The maximal run of blank lines directly above index `i` (0-based) of `doc`. */
  function BlankRun(doc: seq<string>, i: nat): (r: nat)
    requires i <= |doc|
    ensures r <= i
  {
    if i == 0 || !IsBlankLine(doc[i - 1]) then 0 else 1 + BlankRun(doc, i - 1)
  }

  /** The run is made of blank lines and stops at a non-blank line or at the top of the document. */
  lemma {:induction false} BlankRunIsMaximal(doc: seq<string>, i: nat)
    requires i <= |doc|
    ensures forall k :: i - BlankRun(doc, i) <= k < i ==> IsBlankLine(doc[k])
    ensures BlankRun(doc, i) == i || !IsBlankLine(doc[i - BlankRun(doc, i) - 1])
  {
    if i > 0 && IsBlankLine(doc[i - 1]) {
      BlankRunIsMaximal(doc, i - 1);
    }
  }

  /** Blank lines directly above 1-based `lineNumber`; none above the first line. */
  function BlankLinesAbove(doc: seq<string>, lineNumber: int): nat
    requires lineNumber <= |doc| + 1
  {
    if lineNumber <= 1 then 0 else BlankRun(doc, lineNumber - 1)
  }

  /** The E302 record `calculate_blank_lines` builds. */
  function BlankLineViolation(lineNumber: int, expected: int, received: int): Violation {
    Violation(lineNumber, ExpectedBlankLines.violationType, ExpectedBlankLines.key,
              Some(expected), Some(received), None)
  }

  /**
   * `calculate_blank_lines`: walks upward from the line above `lineNumber` while lines are
   * blank, and reports a record exactly when the count differs from `expected`.
   */
  method CalculateBlankLines(doc: seq<string>, lineNumber: int, expected: int)
    returns (r: Option<Violation>)
    requires lineNumber <= |doc| + 1
    ensures r.None? <==> BlankLinesAbove(doc, lineNumber) == expected
    ensures r.Some? ==> r.value == BlankLineViolation(lineNumber, expected, BlankLinesAbove(doc, lineNumber))
  {
    var count := 0;
    var current := lineNumber - 2;
    while current >= 0 && Strip(doc[current]) == []
      invariant current <= lineNumber - 2
      invariant lineNumber >= 1 ==> current >= -1
      invariant lineNumber < 2 ==> current == lineNumber - 2
      invariant count == lineNumber - 2 - current
      invariant lineNumber >= 2 ==> BlankRun(doc, lineNumber - 1) == count + BlankRun(doc, current + 1)
    {
      StripEmptyIffAllSpace(doc[current]);
      count := count + 1;
      current := current - 1;
    }
    if current >= 0 {
      StripEmptyIffAllSpace(doc[current]);
    }
    assert lineNumber >= 2 ==> BlankRun(doc, current + 1) == 0;
    assert count == BlankLinesAbove(doc, lineNumber);
    if count != expected {
      r := Some(BlankLineViolation(lineNumber, expected, count));
    } else {
      r := None;
    }
  }

  // ---------------------------------------------------------------------------------------
  // Expected blank lines before definitions
  // ---------------------------------------------------------------------------------------

  /** The statements of the parsed module that the blank-line rule looks at. */
  datatype Stmt =
    | FunctionDef(lineno: int)
    | ClassDef(lineno: int, body: seq<Stmt>)
    | OtherStmt(lineno: int)

  /** Line numbers of the top-level functions and classes, in module order. */
  function TopLevelDefLines(body: seq<Stmt>): seq<int> {
    if body == [] then []
    else
      var last := body[|body| - 1];
      TopLevelDefLines(body[..|body| - 1]) + (if last.OtherStmt? then [] else [last.lineno])
  }

  /** The listed lines are those of the module's top-level functions and classes. */
  lemma {:induction false} TopLevelDefLinesMeaning(body: seq<Stmt>)
    ensures forall n :: n in TopLevelDefLines(body) <==>
      exists k :: 0 <= k < |body| && !body[k].OtherStmt? && body[k].lineno == n
    decreases |body|
  {
    if body != [] {
      var init := body[..|body| - 1];
      TopLevelDefLinesMeaning(init);
      forall n
        ensures n in TopLevelDefLines(body) <==>
          exists k :: 0 <= k < |body| && !body[k].OtherStmt? && body[k].lineno == n
      {
        if n in TopLevelDefLines(init) {
          var k :| 0 <= k < |init| && !init[k].OtherStmt? && init[k].lineno == n;
          assert body[k] == init[k];
        }
        if k :| 0 <= k < |body| && !body[k].OtherStmt? && body[k].lineno == n {
          if k < |init| {
            assert init[k] == body[k];
          }
        }
      }
    }
  }

  /** Line numbers of the functions directly in one class body. */
  function MethodsOf(classBody: seq<Stmt>): seq<int> {
    if classBody == [] then []
    else
      var last := classBody[|classBody| - 1];
      MethodsOf(classBody[..|classBody| - 1]) + (if last.FunctionDef? then [last.lineno] else [])
  }

  /** Line numbers of the methods of every top-level class, class by class. */
  function MethodLines(body: seq<Stmt>): seq<int> {
    if body == [] then []
    else
      var last := body[|body| - 1];
      MethodLines(body[..|body| - 1]) + (if last.ClassDef? then MethodsOf(last.body) else [])
  }

  /** The methods of a class body are its direct function definitions. */
  lemma {:induction false} MethodsOfMeaning(classBody: seq<Stmt>)
    ensures forall n :: n in MethodsOf(classBody) <==>
      exists m :: 0 <= m < |classBody| && classBody[m].FunctionDef? && classBody[m].lineno == n
    decreases |classBody|
  {
    if classBody != [] {
      var init := classBody[..|classBody| - 1];
      MethodsOfMeaning(init);
      forall n
        ensures n in MethodsOf(classBody) <==>
          exists m :: 0 <= m < |classBody| && classBody[m].FunctionDef? && classBody[m].lineno == n
      {
        if n in MethodsOf(init) {
          var m :| 0 <= m < |init| && init[m].FunctionDef? && init[m].lineno == n;
          assert classBody[m] == init[m];
        }
        if m :| 0 <= m < |classBody| && classBody[m].FunctionDef? && classBody[m].lineno == n {
          if m < |init| {
            assert init[m] == classBody[m];
          }
        }
      }
    }
  }

  /**
   * The method lines are those of the functions directly in the body of a top-level class;
   * a function at module level is never counted as a method.
   */
  lemma {:induction false} MethodLinesMeaning(body: seq<Stmt>)
    ensures forall n :: n in MethodLines(body) <==>
      exists k :: 0 <= k < |body| && body[k].ClassDef? && n in MethodsOf(body[k].body)
    decreases |body|
  {
    if body != [] {
      var init := body[..|body| - 1];
      MethodLinesMeaning(init);
      forall n
        ensures n in MethodLines(body) <==>
          exists k :: 0 <= k < |body| && body[k].ClassDef? && n in MethodsOf(body[k].body)
      {
        if n in MethodLines(init) {
          var k :| 0 <= k < |init| && init[k].ClassDef? && n in MethodsOf(init[k].body);
          assert body[k] == init[k];
        }
        if k :| 0 <= k < |body| && body[k].ClassDef? && n in MethodsOf(body[k].body) {
          if k < |init| {
            assert init[k] == body[k];
          }
        }
      }
    }
  }

  /** Every line the rule examines lies inside the document (or just past it). */
  predicate DefLinesWithin(body: seq<Stmt>, n: nat) {
    LinesWithin(TopLevelDefLines(body), n) && LinesWithin(MethodLines(body), n)
  }

  /** Every line number is at most one past the last of `n` lines. */
  predicate LinesWithin(lines: seq<int>, n: nat) {
    forall k :: 0 <= k < |lines| ==> lines[k] <= n + 1
  }

  /** The records `calculate_blank_lines` yields for `lines`, in order, with one expectation. */
  function Mismatches(doc: seq<string>, lines: seq<int>, expected: int): seq<Violation>
    requires LinesWithin(lines, |doc|)
  {
    if lines == [] then []
    else
      var ln := lines[|lines| - 1];
      var received := BlankLinesAbove(doc, ln);
      Mismatches(doc, lines[..|lines| - 1], expected)
        + (if received != expected then [BlankLineViolation(ln, expected, received)] else [])
  }

  /**
   * A record is produced for a listed line exactly when the blank lines above it differ from
   * the expectation, and it carries that line, the expectation and the count.
   */
  lemma {:induction false} MismatchesMeaning(doc: seq<string>, lines: seq<int>, expected: int)
    requires LinesWithin(lines, |doc|)
    ensures forall v :: v in Mismatches(doc, lines, expected) <==>
      exists k :: 0 <= k < |lines| && BlankLinesAbove(doc, lines[k]) != expected
        && v == BlankLineViolation(lines[k], expected, BlankLinesAbove(doc, lines[k]))
    decreases |lines|
  {
    if lines != [] {
      var init := lines[..|lines| - 1];
      var ln := lines[|lines| - 1];
      MismatchesMeaning(doc, init, expected);
      forall v
        ensures v in Mismatches(doc, lines, expected) <==>
          exists k :: 0 <= k < |lines| && BlankLinesAbove(doc, lines[k]) != expected
            && v == BlankLineViolation(lines[k], expected, BlankLinesAbove(doc, lines[k]))
      {
        if v in Mismatches(doc, init, expected) {
          var k :| 0 <= k < |init| && BlankLinesAbove(doc, init[k]) != expected
            && v == BlankLineViolation(init[k], expected, BlankLinesAbove(doc, init[k]));
          assert lines[k] == init[k];
        }
        if k :| 0 <= k < |lines| && BlankLinesAbove(doc, lines[k]) != expected && v == BlankLineViolation(lines[k], expected, BlankLinesAbove(doc, lines[k])) {
          if k < |init| {
            assert init[k] == lines[k];
          }
        }
      }
    }
  }

  /** No line yields more records than the times it is listed. */
  lemma {:induction false} MismatchesCount(doc: seq<string>, lines: seq<int>, expected: int, v: Violation)
    requires LinesWithin(lines, |doc|)
    ensures multiset(Mismatches(doc, lines, expected))[v] <= multiset(lines)[v.lineNumber]
    decreases |lines|
  {
    if lines != [] {
      var init := lines[..|lines| - 1];
      var ln := lines[|lines| - 1];
      var received := BlankLinesAbove(doc, ln);
      MismatchesCount(doc, init, expected, v);
      assert lines == init + [ln];
      assert multiset(lines) == multiset(init) + multiset{ln};
      if received != expected {
        var w := BlankLineViolation(ln, expected, received);
        assert Mismatches(doc, lines, expected) == Mismatches(doc, init, expected) + [w];
        assert multiset(Mismatches(doc, lines, expected)) == multiset(Mismatches(doc, init, expected)) + multiset{w};
        assert multiset{w}[v] <= multiset{ln}[v.lineNumber] by {
          if w == v {
            assert v.lineNumber == ln;
          }
        }
      }
    }
  }

  /** Both rounds of `expected_blank_lines_check` before sorting: definitions (2), then methods (1). */
  function BlankLineReport(doc: seq<string>, body: seq<Stmt>): seq<Violation>
    requires DefLinesWithin(body, |doc|)
  {
    Mismatches(doc, TopLevelDefLines(body), 2) + Mismatches(doc, MethodLines(body), 1)
  }

  /** Python's stable `sorted(..., key=line_number)`, as an insertion sort. */
  function InsertByLine(v: Violation, sorted: seq<Violation>): (r: seq<Violation>)
    requires SortedByLine(sorted)
    ensures SortedByLine(r)
    ensures multiset(r) == multiset(sorted) + multiset{v}
    ensures r[0] == v || (sorted != [] && r[0] == sorted[0])
  {
    if sorted == [] || v.lineNumber <= sorted[0].lineNumber then
      ConsSorted(v, sorted);
      [v] + sorted
    else
      var rest := InsertByLine(v, sorted[1..]);
      assert sorted == [sorted[0]] + sorted[1..];
      assert sorted[0].lineNumber <= rest[0].lineNumber;
      ConsSorted(sorted[0], rest);
      [sorted[0]] + rest
  }

  /** A record no later than the head of a sorted list can go in front of it. */
  lemma ConsSorted(x: Violation, s: seq<Violation>)
    requires SortedByLine(s)
    requires s == [] || x.lineNumber <= s[0].lineNumber
    ensures SortedByLine([x] + s)
  {
    forall j, k | 0 <= j < k < |[x] + s|
      ensures ([x] + s)[j].lineNumber <= ([x] + s)[k].lineNumber
    {
      if j > 0 {
        assert ([x] + s)[j] == s[j - 1];
      }
      assert ([x] + s)[k] == s[k - 1];
    }
  }

  function SortByLine(vs: seq<Violation>): (r: seq<Violation>)
    ensures SortedByLine(r)
    ensures multiset(r) == multiset(vs)
  {
    if vs == [] then []
    else
      assert vs == [vs[0]] + vs[1..];
      InsertByLine(vs[0], SortByLine(vs[1..]))
  }

  /** The first loop of `expected_blank_lines_check`: definition lines, then method lines. */
  method CollectDefinitions(body: seq<Stmt>) returns (classesAndFunctions: seq<int>, methods: seq<int>)
    ensures classesAndFunctions == TopLevelDefLines(body)
    ensures methods == MethodLines(body)
  {
    classesAndFunctions, methods := [], [];
    for k := 0 to |body|
      invariant classesAndFunctions == TopLevelDefLines(body[..k])
      invariant methods == MethodLines(body[..k])
    {
      assert body[..k + 1][..k] == body[..k];
      match body[k]
      case FunctionDef(ln) =>
        classesAndFunctions := classesAndFunctions + [ln];
      case ClassDef(ln, inner) =>
        classesAndFunctions := classesAndFunctions + [ln];
        var found := CollectMethods(inner);
        methods := methods + found;
      case OtherStmt(_) =>
    }
    assert body[..|body|] == body;
  }

  /** The inner loop over one class body. */
  method CollectMethods(inner: seq<Stmt>) returns (found: seq<int>)
    ensures found == MethodsOf(inner)
  {
    found := [];
    for m := 0 to |inner|
      invariant found == MethodsOf(inner[..m])
    {
      assert inner[..m + 1][..m] == inner[..m];
      if inner[m].FunctionDef? {
        found := found + [inner[m].lineno];
      }
    }
    assert inner[..|inner|] == inner;
  }

  /** One of the two reporting loops: `calculate_blank_lines` on each line, keeping the records. */
  method CheckLines(doc: seq<string>, lines: seq<int>, expected: int) returns (violations: seq<Violation>)
    requires LinesWithin(lines, |doc|)
    ensures violations == Mismatches(doc, lines, expected)
  {
    violations := [];
    for i := 0 to |lines|
      invariant violations == Mismatches(doc, lines[..i], expected)
    {
      assert lines[..i + 1][..i] == lines[..i];
      var v := CalculateBlankLines(doc, lines[i], expected);
      if v.Some? {
        violations := violations + [v.value];
      }
    }
    assert lines[..|lines|] == lines;
  }

  /**
   * The value `expected_blank_lines_check` returns: a record for every top-level function or
   * class not preceded by exactly 2 blank lines and every method (a function directly in a
   * top-level class body) not preceded by exactly 1, sorted by line; `None` when there is none.
   */
  function ExpectedBlankLinesOutput(doc: seq<string>, body: seq<Stmt>): (out: Output)
    requires DefLinesWithin(body, |doc|)
    ensures out.NoneOutput? <==> BlankLineReport(doc, body) == []
    ensures out.ListOutput? ==> SortedByLine(out.items)
    ensures out.ListOutput? ==> multiset(out.items) == multiset(BlankLineReport(doc, body))
    ensures !out.OtherOutput?
  {
    var report := BlankLineReport(doc, body);
    if report == [] then NoneOutput else ListOutput(SortByLine(report))
  }

  /** `expected_blank_lines_check`, over the parsed module `body`. */
  method ExpectedBlankLinesCheck(doc: seq<string>, body: seq<Stmt>) returns (out: Output)
    requires DefLinesWithin(body, |doc|)
    ensures out == ExpectedBlankLinesOutput(doc, body)
  {
    var classesAndFunctions, methods := CollectDefinitions(body);
    var fromDefinitions := CheckLines(doc, classesAndFunctions, 2);
    var fromMethods := CheckLines(doc, methods, 1);
    var violations := fromDefinitions + fromMethods;
    if violations == [] {
      out := NoneOutput;
    } else {
      out := ListOutput(SortByLine(violations));
    }
  }

  // ---------------------------------------------------------------------------------------
  // Multiple imports on one line
  // ---------------------------------------------------------------------------------------

  /**
   * The tail of `^\s*import\s+[^#]*,[^#]*$` (MULTILINE) after the first whitespace following
   * `import`: a comma occurs before some line end (a newline or the end of the text) with no
   * `#` on the way there.
   */
  function CommaBeforeHash(rest: string, seenComma: bool): bool {
    if rest == [] then seenComma
    else if rest[0] == '#' then false
    else if rest[0] == '\n' && seenComma then true
    else CommaBeforeHash(rest[1..], seenComma || rest[0] == ',')
  }

  /** `re.match(patterns["multiple_imports"]["value"], line)` succeeds. */
  predicate MultipleImportsMatch(line: string) {
    var i := LeadingSpaces(line);
    && i + 7 <= |line|
    && line[i..i + 6] == "import"
    && IsSpace(line[i + 6])
    && CommaBeforeHash(line[i + 7..], false)
  }

  /**
   * One way the regular expression can match `line`: `\s*` takes `line[..i]`, `import`
   * is `line[i..i+6]`, `\s+` takes `line[i+6..j]`, `[^#]*,[^#]*` takes `line[j..p]`, and `$`
   * matches at `p` (before a newline or at the end).
   */
  ghost predicate PatternMatchAt(line: string, i: int, j: int, p: int) {
    && 0 <= i && i + 6 < j <= p <= |line|
    && AllSpace(line[..i])
    && line[i..i + 6] == "import"
    && AllSpace(line[i + 6..j])
    && ',' in line[j..p]
    && '#' !in line[j..p]
    && (p == |line| || line[p] == '\n')
  }

  ghost predicate PatternMatches(line: string) {
    exists i, j, p :: PatternMatchAt(line, i, j, p)
  }

  /** A line end reachable from the start of `rest` without a `#`, with a comma seen by then. */
  ghost predicate LineEndAfterComma(rest: string, p: int, seenComma: bool) {
    && 0 <= p <= |rest|
    && (p == |rest| || rest[p] == '\n')
    && '#' !in rest[..p]
    && (seenComma || ',' in rest[..p])
  }

  lemma {:induction false} CommaBeforeHashIsLineEnd(rest: string, seenComma: bool)
    ensures CommaBeforeHash(rest, seenComma) <==> exists p :: LineEndAfterComma(rest, p, seenComma)
    decreases |rest|
  {
    if rest == [] {
      if seenComma {
        assert LineEndAfterComma(rest, 0, seenComma);
      }
    } else if rest[0] == '#' {
    } else if rest[0] == '\n' && seenComma {
      assert LineEndAfterComma(rest, 0, seenComma);
    } else {
      var seen' := seenComma || rest[0] == ',';
      CommaBeforeHashIsLineEnd(rest[1..], seen');
      if CommaBeforeHash(rest, seenComma) {
        var p :| LineEndAfterComma(rest[1..], p, seen');
        assert rest[..p + 1] == [rest[0]] + rest[1..][..p];
        assert LineEndAfterComma(rest, p + 1, seenComma);
      }
      if p :| LineEndAfterComma(rest, p, seenComma) {
        assert p != 0;
        assert rest[..p] == [rest[0]] + rest[1..][..p - 1];
        assert LineEndAfterComma(rest[1..], p - 1, seen');
      }
    }
  }

  lemma MatchImpliesPattern(line: string)
    requires MultipleImportsMatch(line)
    ensures PatternMatches(line)
  {
    var i := LeadingSpaces(line);
    var rest := line[i + 7..];
    CommaBeforeHashIsLineEnd(rest, false);
    var p :| LineEndAfterComma(rest, p, false);
    assert line[i + 7..i + 7 + p] == rest[..p];
    assert line[i + 6..i + 7] == [line[i + 6]];
    assert PatternMatchAt(line, i, i + 7, i + 7 + p);
  }

  lemma PatternImpliesMatch(line: string)
    requires PatternMatches(line)
    ensures MultipleImportsMatch(line)
  {
    var i, j, p :| PatternMatchAt(line, i, j, p);
    // `\s*` can only stop at the first non-space, since `i` is not a space
    assert line[i] == line[i..i + 6][0] == 'i';
    LeadingSpacesAt(line, i);
    assert IsSpace(line[i + 6..j][0]);
    PatternTail(line, i, j, p);
    CommaBeforeHashIsLineEnd(line[i + 7..], false);
  }

  /** After `import` and one whitespace character, the rest of a match reaches a line end past a comma. */
  lemma PatternTail(line: string, i: int, j: int, p: int)
    requires PatternMatchAt(line, i, j, p)
    ensures LineEndAfterComma(line[i + 7..], p - (i + 7), false)
  {
    var rest := line[i + 7..];
    var q := p - (i + 7);
    assert rest[..q] == line[i + 7..j] + line[j..p];
    assert forall c :: c in line[i + 7..j] ==> IsSpace(c);
  }

  lemma LeadingSpacesAt(s: string, i: nat)
    requires i < |s| && AllSpace(s[..i]) && !IsSpace(s[i])
    ensures LeadingSpaces(s) == i
  {
  }

  /** The hand-written matcher accepts exactly the lines the regular expression matches. */
  lemma MultipleImportsMatchIsPattern(line: string)
    ensures MultipleImportsMatch(line) <==> PatternMatches(line)
  {
    if MultipleImportsMatch(line) {
      MatchImpliesPattern(line);
    }
    if PatternMatches(line) {
      PatternImpliesMatch(line);
    }
  }

  /** A `from x import a, b` line (after optional indentation) is never flagged. */
  lemma FromImportNeverFlagged(line: string)
    requires var i := LeadingSpaces(line); i + 4 <= |line| && line[i..i + 4] == "from"
    ensures !MultipleImportsMatch(line)
  {
    var i := LeadingSpaces(line);
    assert line[i..i + 4][0] == line[i] == 'f';
    if i + 7 <= |line| {
      assert line[i..i + 6][0] != "import"[0];
    }
  }

  /** The records `multiple_imports_check` collects, one per matching line, in line order. */
  function MultipleImportsRecords(doc: seq<string>): seq<Violation> {
    if doc == [] then []
    else
      MultipleImportsRecords(doc[..|doc| - 1])
        + (if MultipleImportsMatch(doc[|doc| - 1]) then [Flag(MultipleImports, |doc|)] else [])
  }

  /** The records are E401 flags on lines of the document, in strictly ascending order. */
  lemma {:induction false} MultipleImportsRecordsAscending(doc: seq<string>)
    ensures StrictlyAscending(MultipleImportsRecords(doc))
    ensures forall v :: v in MultipleImportsRecords(doc) ==>
      v == Flag(MultipleImports, v.lineNumber) && 1 <= v.lineNumber <= |doc|
  {
    if doc != [] {
      MultipleImportsRecordsAscending(doc[..|doc| - 1]);
    }
  }

  /** A line number is recorded exactly when that line matches the pattern. */
  lemma {:induction false} MultipleImportsRecordsExact(doc: seq<string>)
    ensures forall n :: n in LineNumbers(MultipleImportsRecords(doc)) <==>
      1 <= n <= |doc| && MultipleImportsMatch(doc[n - 1])
  {
    if doc != [] {
      var init := doc[..|doc| - 1];
      MultipleImportsRecordsExact(init);
      var rs := MultipleImportsRecords(doc);
      var rs0 := MultipleImportsRecords(init);
      assert rs[..|rs0|] == rs0;
      forall n ensures n in LineNumbers(rs) <==> 1 <= n <= |doc| && MultipleImportsMatch(doc[n - 1]) {
        if n in LineNumbers(rs) {
          var k :| 0 <= k < |rs| && LineNumbers(rs)[k] == n;
          if k < |rs0| {
            assert LineNumbers(rs0)[k] == n;
            assert n in LineNumbers(rs0);
            assert doc[n - 1] == init[n - 1];
          }
        }
        if 1 <= n <= |doc| && MultipleImportsMatch(doc[n - 1]) {
          if n < |doc| {
            assert doc[n - 1] == init[n - 1];
            assert n in LineNumbers(rs0);
            var k :| 0 <= k < |rs0| && LineNumbers(rs0)[k] == n;
            assert LineNumbers(rs)[k] == n;
          } else {
            assert LineNumbers(rs)[|rs| - 1] == n;
          }
        }
      }
    }
  }

  /** What the collected records mean: one per flagged line, in line order, and none otherwise. */
  lemma MultipleImportsRecordsMeaning(doc: seq<string>)
    ensures var rs := MultipleImportsRecords(doc);
      && (rs == [] <==> forall k :: 0 <= k < |doc| ==> !MultipleImportsMatch(doc[k]))
      && StrictlyAscending(rs)
      && (forall v :: v in rs ==>
           v == Flag(MultipleImports, v.lineNumber) && 1 <= v.lineNumber <= |doc| && MultipleImportsMatch(doc[v.lineNumber - 1]))
      && (forall k :: 0 <= k < |doc| && MultipleImportsMatch(doc[k]) ==> k + 1 in LineNumbers(MultipleImportsRecords(doc)))
  {
    var rs := MultipleImportsRecords(doc);
    MultipleImportsRecordsAscending(doc);
    MultipleImportsRecordsSound(doc);
    MultipleImportsRecordsComplete(doc);
    if rs != [] {
      assert rs[0] in rs;
      var k := rs[0].lineNumber - 1;
      assert 0 <= k < |doc| && MultipleImportsMatch(doc[k]);
    }
  }

  lemma {:induction false} MultipleImportsRecordsSound(doc: seq<string>)
    ensures forall v :: v in MultipleImportsRecords(doc) ==>
      1 <= v.lineNumber <= |doc| && MultipleImportsMatch(doc[v.lineNumber - 1])
  {
    if doc != [] {
      var init := doc[..|doc| - 1];
      MultipleImportsRecordsSound(init);
      forall v | v in MultipleImportsRecords(init)
        ensures 1 <= v.lineNumber <= |doc| && MultipleImportsMatch(doc[v.lineNumber - 1])
      {
        assert doc[v.lineNumber - 1] == init[v.lineNumber - 1];
      }
    }
  }

  lemma MultipleImportsRecordsComplete(doc: seq<string>)
    ensures forall k :: 0 <= k < |doc| && MultipleImportsMatch(doc[k]) ==> k + 1 in LineNumbers(MultipleImportsRecords(doc))
    ensures MultipleImportsRecords(doc) == [] ==> forall k :: 0 <= k < |doc| ==> !MultipleImportsMatch(doc[k])
  {
    MultipleImportsRecordsExact(doc);
  }

  /** The value `multiple_imports_check` returns: the records, or `None` when there are none. */
  function MultipleImportsOutput(doc: seq<string>): (out: Output)
    ensures out.NoneOutput? <==> forall k :: 0 <= k < |doc| ==> !MultipleImportsMatch(doc[k])
    ensures out.ListOutput? ==> StrictlyAscending(out.items)
    ensures out.ListOutput? ==> forall v :: v in out.items ==>
      v == Flag(MultipleImports, v.lineNumber) && 1 <= v.lineNumber <= |doc| && MultipleImportsMatch(doc[v.lineNumber - 1])
    ensures out.ListOutput? ==> forall k :: 0 <= k < |doc| && MultipleImportsMatch(doc[k]) ==>
      k + 1 in LineNumbers(out.items)
    ensures !out.OtherOutput?
  {
    MultipleImportsRecordsMeaning(doc);
    var rs := MultipleImportsRecords(doc);
    if rs == [] then NoneOutput else ListOutput(rs)
  }

  /**
   * `multiple_imports_check`: `None` when no line matches, otherwise one E401 record per
   * matching line, strictly ascending, covering every matching line.
   */
  method MultipleImportsCheck(doc: seq<string>) returns (out: Output)
    ensures out == MultipleImportsOutput(doc)
    ensures out.NoneOutput? <==> forall k :: 0 <= k < |doc| ==> !MultipleImportsMatch(doc[k])
    ensures out.ListOutput? ==> StrictlyAscending(out.items)
    ensures out.ListOutput? ==> forall v :: v in out.items ==>
      v == Flag(MultipleImports, v.lineNumber) && 1 <= v.lineNumber <= |doc| && MultipleImportsMatch(doc[v.lineNumber - 1])
    ensures out.ListOutput? ==> forall k :: 0 <= k < |doc| && MultipleImportsMatch(doc[k]) ==>
      k + 1 in LineNumbers(out.items)
    ensures !out.OtherOutput?
  {
    var violations: seq<Violation> := [];
    for i := 0 to |doc|
      invariant violations == MultipleImportsRecords(doc[..i])
    {
      assert doc[..i + 1][..i] == doc[..i];
      if MultipleImportsMatch(doc[i]) {
        violations := violations + [Flag(MultipleImports, i + 1)];
      }
    }
    assert doc[..|doc|] == doc;
    out := if violations == [] then NoneOutput else ListOutput(violations);
  }

  // ---------------------------------------------------------------------------------------
  // Import position
  // ---------------------------------------------------------------------------------------

  /**
   * An import statement of the parsed module, in `ast.walk` order: its line, and whether it
   * lies anywhere inside a top-level function or class. Only a plain `def` and a `class`
   * count there; an import inside a top-level `async def` is not inside in this sense.
   */
  datatype ImportNode = ImportNode(lineno: int, insideTopLevelDef: bool)

  /** Lines of the imports outside every top-level function and class, in walk order. */
  function CandidateLines(imports: seq<ImportNode>): (ns: seq<int>)
    ensures |ns| <= |imports|
    ensures forall n :: n in ns <==>
      exists k :: 0 <= k < |imports| && !imports[k].insideTopLevelDef && imports[k].lineno == n
  {
    if imports == [] then []
    else
      var rest := CandidateLines(imports[1..]);
      assert forall k :: 1 <= k < |imports| ==> imports[k] == imports[1..][k - 1];
      (if imports[0].insideTopLevelDef then [] else [imports[0].lineno]) + rest
  }

  function Min(ns: seq<int>): (m: int)
    requires ns != []
    ensures m in ns && forall k :: 0 <= k < |ns| ==> m <= ns[k]
  {
    if |ns| == 1 then ns[0]
    else
      var m := Min(ns[1..]);
      assert m in ns[1..];
      if ns[0] <= m then ns[0] else m
  }

  function Max(ns: seq<int>): (m: int)
    requires ns != []
    ensures m in ns && forall k :: 0 <= k < |ns| ==> ns[k] <= m
  {
    if |ns| == 1 then ns[0]
    else
      var m := Max(ns[1..]);
      assert m in ns[1..];
      if m <= ns[0] then ns[0] else m
  }

  /** `list(range(lo, hi))`. */
  function Range(lo: int, hi: int): (r: seq<int>)
    ensures |r| == if lo <= hi then hi - lo else 0
    ensures forall k :: 0 <= k < |r| ==> r[k] == lo + k
  {
    if lo < hi then seq(hi - lo, k requires 0 <= k < hi - lo => lo + k) else []
  }

  /** Each line number is the first one plus its position: consecutive and in order. */
  predicate ConsecutiveFromFirst(ns: seq<int>) {
    forall k :: 0 <= k < |ns| ==> ns[k] == ns[0] + k
  }

  /** A run climbing by one has its first entry as minimum and its last as maximum. */
  lemma {:induction false} ConsecutiveBounds(ns: seq<int>)
    requires ns != [] && ConsecutiveFromFirst(ns)
    ensures Min(ns) == ns[0] && Max(ns) == ns[|ns| - 1]
  {
    if |ns| > 1 {
      var tail := ns[1..];
      forall k | 0 <= k < |tail| ensures tail[k] == tail[0] + k {
        assert tail[k] == ns[k + 1] == ns[0] + k + 1;
        assert tail[0] == ns[1] == ns[0] + 1;
      }
      ConsecutiveBounds(tail);
      assert ns[1] == ns[0] + 1;
    }
  }

  /** `ns == list(range(min(ns), max(ns) + 1))` holds exactly when `ns` climbs by one from its first entry. */
  lemma ContiguousIffConsecutive(ns: seq<int>)
    requires ns != []
    ensures ns == Range(Min(ns), Max(ns) + 1) <==> ConsecutiveFromFirst(ns)
  {
    var lo, hi := Min(ns), Max(ns);
    var r := Range(lo, hi + 1);
    if ConsecutiveFromFirst(ns) {
      ConsecutiveBounds(ns);
      assert |r| == |ns|;
      forall k | 0 <= k < |ns| ensures r[k] == ns[k] {
        assert ns[k] == ns[0] + k;
      }
    }
    if ns == r {
      assert r[0] == lo;
      forall k | 0 <= k < |ns| ensures ns[k] == ns[0] + k {
        assert r[k] == lo + k;
      }
    }
  }

  /**
   * `imports_position_check`: the candidate imports (those outside every top-level function
   * and class) are clean when their line numbers, in walk order, are exactly a run `[m..M]`;
   * otherwise every candidate is reported. With no candidate at all, `min()` raises.
   */
  function ImportsPositionCheck(imports: seq<ImportNode>): (r: Result<Output, PyException>)
    ensures r.Failure? <==> CandidateLines(imports) == []
    ensures r.Failure? ==> r.error == ValueError
    ensures r == Success(NoneOutput) ==> ConsecutiveFromFirst(CandidateLines(imports))
    ensures r.Success? && ConsecutiveFromFirst(CandidateLines(imports)) ==> r == Success(NoneOutput)
    ensures r.Success? ==> !r.value.OtherOutput?
    ensures r.Success? && r.value.ListOutput? ==>
      && LineNumbers(r.value.items) == CandidateLines(imports)
      && forall v :: v in r.value.items ==> v == Flag(ImportsPosition, v.lineNumber)
  {
    var lineNumbers := CandidateLines(imports);
    if lineNumbers == [] then Failure(ValueError) else Success(ImportsPositionOutput(lineNumbers))
  }

  /**
   * The value `imports_position_check` returns for a non-empty list of candidate lines:
   * `None` exactly when `line_numbers == list(range(min, max + 1))`, else one record per line.
   */
  function ImportsPositionOutput(lineNumbers: seq<int>): (out: Output)
    requires lineNumbers != []
    ensures out.NoneOutput? <==> ConsecutiveFromFirst(lineNumbers)
    ensures !out.OtherOutput?
    ensures out.ListOutput? ==>
      && LineNumbers(out.items) == lineNumbers
      && forall v :: v in out.items ==> v == Flag(ImportsPosition, v.lineNumber)
  {
    ContiguousIffConsecutive(lineNumbers);
    if lineNumbers == Range(Min(lineNumbers), Max(lineNumbers) + 1) then NoneOutput
    else ListOutput(FlagAll(ImportsPosition, lineNumbers))
  }

  /** One record per line number, in order. */
  function FlagAll(p: PatternInfo, ns: seq<int>): (vs: seq<Violation>)
    ensures LineNumbers(vs) == ns
    ensures forall v :: v in vs ==> v == Flag(p, v.lineNumber)
  {
    seq(|ns|, k requires 0 <= k < |ns| => Flag(p, ns[k]))
  }
}
