/**
 * The correctors. Each takes the document (its lines, terminators included) and the records
 * of the matching detector and builds the corrected line list; persisting it is not modelled.
 * Every corrector is a method that works on its own copy of the lines and is proved equal to
 * a specification function that follows the source's loop step by step; the properties of
 * the correction are lemmas about those functions.
 */
module CorrectiveActions {
  import opened Wrappers
  import opened PyText
  import opened Diagnostics
  import opened Violations

  // ---------------------------------------------------------------------------------------
  // remove_whitespace_and_count
  // ---------------------------------------------------------------------------------------

  /** Where `while end < len(s) and s[end].isspace(): end += 1` stops, starting at `end`. */
  function WhitespaceEnd(s: string, end: int): (r: Result<int, PyException>)
    ensures r.Success? ==> r.value >= end
    decreases |s| - end
  {
    if end < |s| then
      match PyIndex(|s|, end)
      case None => Failure(IndexError)
      case Some(k) => if IsSpace(s[k]) then WhitespaceEnd(s, end + 1) else Success(end)
    else Success(end)
  }

  /** The modified line and the number of whitespace characters counted. */
  datatype Removal = Removal(line: string, count: nat)

  /** What `remove_whitespace_and_count(s, start)` returns, with Python's slicing rules. */
  function WhitespaceRemoval(s: string, start: int): Result<Removal, PyException> {
    var end :- WhitespaceEnd(s, start);
    Success(Removal(PySlice(s, 0, start) + RemoveSpaces(PySlice(s, start, end)) + PySlice(s, end, |s|),
                    end - start))
  }

  /** From the end of the line (or past it) the line comes back unchanged with count 0. */
  lemma WhitespaceRemovalPastEnd(s: string, start: int)
    requires start >= |s|
    ensures WhitespaceRemoval(s, start) == Success(Removal(s, 0))
  {
    assert WhitespaceEnd(s, start) == Success(start);
    assert PySlice(s, 0, start) == s;
    assert PySlice(s, start, start) == [] && PySlice(s, start, |s|) == [];
    assert RemoveSpaces([]) == [];
    var r := Removal(PySlice(s, 0, start) + RemoveSpaces(PySlice(s, start, start)) + PySlice(s, start, |s|),
                     start - start);
    assert r == Removal(s, 0);
  }

  /**
   * From a column inside the line: the count is the length of the maximal whitespace run
   * starting there; the text before and after the run is kept, and inside the run only the
   * spaces are deleted (tabs and newlines stay), so the line shrinks by the run's spaces.
   */
  lemma WhitespaceRemovalRun(s: string, start: nat)
    requires start < |s|
    ensures WhitespaceRemoval(s, start).Success?
    ensures var r := WhitespaceRemoval(s, start).value; var e := start + r.count;
      && e <= |s|
      && AllSpace(s[start..e])
      && (e == |s| || !IsSpace(s[e]))
      && r.line == s[..start] + RemoveSpaces(s[start..e]) + s[e..]
      && |r.line| == |s| - multiset(s[start..e])[' ']
  {
    assert s[start..start] == [];
    WhitespaceEndRun(s, start, start);
    var end := WhitespaceEnd(s, start).value;
    assert PySlice(s, 0, start) == s[..start];
    assert PySlice(s, start, end) == s[start..end];
    assert PySlice(s, end, |s|) == s[end..];
    var line := s[..start] + RemoveSpaces(s[start..end]) + s[end..];
    assert WhitespaceRemoval(s, start) == Success(Removal(line, end - start));
    RemoveSpacesLength(s[start..end]);
    assert |line| == start + |RemoveSpaces(s[start..end])| + (|s| - end);
  }

  /** A column on a non-space character leaves the line unchanged, with count 0. */
  lemma WhitespaceRemovalAtNonSpace(s: string, start: nat)
    requires start < |s| && !IsSpace(s[start])
    ensures WhitespaceRemoval(s, start) == Success(Removal(s, 0))
  {
    assert WhitespaceEnd(s, start) == Success(start);
    assert RemoveSpaces([]) == [];
    var r := Removal(PySlice(s, 0, start) + RemoveSpaces(PySlice(s, start, start)) + PySlice(s, start, |s|),
                     start - start);
    assert s[..start] + s[start..] == s;
    assert r == Removal(s, 0);
  }

  /** The loop stops at the first non-space (or the end) and passes only spaces on the way. */
  lemma {:induction false} WhitespaceEndRun(s: string, start: nat, end: nat)
    requires start <= end
    requires end <= |s| ==> AllSpace(s[start..end])
    requires end > |s| ==> start == end
    ensures WhitespaceEnd(s, end).Success?
    ensures var e := WhitespaceEnd(s, end).value;
      && (end > |s| ==> e == end)
      && (end <= |s| ==> e <= |s| && AllSpace(s[start..e]) && (e == |s| || !IsSpace(s[e])))
    decreases |s| - end
  {
    if end < |s| && IsSpace(s[end]) {
      forall k | start <= k < end + 1 ensures IsSpace(s[k]) {
        if k < end {
          assert s[k] == s[start..end][k - start];
        }
      }
      WhitespaceEndRun(s, start, end + 1);
    }
  }

  /** `remove_whitespace_and_count`: the counting `while` loop, then the three slices. */
  method RemoveWhitespaceAndCount(s: string, startIndex: int) returns (r: Result<Removal, PyException>)
    ensures r == WhitespaceRemoval(s, startIndex)
  {
    var count := 0;
    var endIndex := startIndex;
    while endIndex < |s|
      invariant endIndex >= startIndex
      invariant count == endIndex - startIndex
      invariant WhitespaceEnd(s, endIndex) == WhitespaceEnd(s, startIndex)
      decreases |s| - endIndex
    {
      var k := PyIndex(|s|, endIndex);
      if k.None? {
        return Failure(IndexError);
      }
      if !IsSpace(s[k.value]) {
        break;
      }
      count := count + 1;
      endIndex := endIndex + 1;
    }
    var modifiedLine := PySlice(s, 0, startIndex) + RemoveSpaces(PySlice(s, startIndex, endIndex))
                        + PySlice(s, endIndex, |s|);
    r := Success(Removal(modifiedLine, count));
  }

  // ---------------------------------------------------------------------------------------
  // imports_position_corrective_action
  // ---------------------------------------------------------------------------------------

  /** `[line for i, line in enumerate(lines, start=first) if i not in remove]`. */
  function Keep(lines: seq<string>, remove: set<int>, first: int): (r: seq<string>)
    ensures |r| <= |lines|
  {
    if lines == [] then []
    else (if first in remove then [] else [lines[0]]) + Keep(lines[1..], remove, first + 1)
  }

  /** The numbers in `[first, first + n)` that belong to `remove`. */
  function Hits(remove: set<int>, first: int, n: nat): set<int> {
    set i | i in remove && first <= i < first + n
  }

  /** The comprehension drops exactly one line per number of `remove` inside the numbering. */
  lemma {:induction false} KeepLength(lines: seq<string>, remove: set<int>, first: int)
    ensures |Keep(lines, remove, first)| == |lines| - |Hits(remove, first, |lines|)|
    decreases |lines|
  {
    if lines == [] {
      assert Hits(remove, first, 0) == {};
    } else {
      KeepLength(lines[1..], remove, first + 1);
      var rest := Hits(remove, first + 1, |lines| - 1);
      if first in remove {
        assert Hits(remove, first, |lines|) == {first} + rest;
      } else {
        assert Hits(remove, first, |lines|) == rest;
      }
    }
  }

  /** With nothing to remove inside the numbering, the comprehension keeps every line. */
  lemma {:induction false} KeepNothingRemoved(lines: seq<string>, remove: set<int>, first: int)
    requires forall i :: i in remove ==> i < first || i >= first + |lines|
    ensures Keep(lines, remove, first) == lines
    decreases |lines|
  {
    if lines != [] {
      KeepNothingRemoved(lines[1..], remove, first + 1);
    }
  }

  /** `lines[line_number - 1]` for each record, in record order. */
  function FlaggedLines(content: seq<string>, vs: seq<Violation>): (r: Result<seq<string>, PyException>)
    ensures r.Success? ==> |r.value| == |vs|
    ensures r.Failure? ==> r.error == IndexError
  {
    if vs == [] then Success([])
    else
      var flagged :- FlaggedLines(content, vs[..|vs| - 1]);
      match PyIndex(|content|, vs[|vs| - 1].lineNumber - 1)
      case None => Failure(IndexError)
      case Some(i) => Success(flagged + [content[i]])
  }

  /** `[line.strip() for line in lines]`. */
  function StripEach(lines: seq<string>): (r: seq<string>)
    ensures |r| == |lines|
    ensures forall k :: 0 <= k < |r| ==> r[k] == Strip(lines[k])
  {
    seq(|lines|, k requires 0 <= k < |lines| => Strip(lines[k]))
  }

  /** Each line followed by `'\n'`. */
  function WithNewlines(lines: seq<string>): (r: seq<string>)
    ensures |r| == |lines|
    ensures forall k :: 0 <= k < |r| ==> r[k] == lines[k] + "\n"
  {
    seq(|lines|, k requires 0 <= k < |lines| => lines[k] + "\n")
  }

  function LineSet(vs: seq<Violation>): set<int> {
    set k | 0 <= k < |vs| :: vs[k].lineNumber
  }

  /** What `imports_position_corrective_action` writes. */
  function ImportsPositionFix(content: seq<string>, vs: seq<Violation>): Result<seq<string>, PyException> {
    var flagged :- FlaggedLines(content, vs);
    Success(InsertEach(Keep(content, LineSet(vs), 1), 0, WithNewlines(StripEach(flagged))))
  }

  /**
   * `imports_position_corrective_action`: collects the stripped text of each flagged line,
   * drops the flagged lines, and inserts the collected imports at the top.
   */
  method ImportsPositionCorrectiveAction(content: seq<string>, vs: seq<Violation>)
    returns (r: Result<seq<string>, PyException>)
    ensures r == ImportsPositionFix(content, vs)
  {
    var lines := content;
    var storedLines: seq<string> := [];
    var linesToRemove: seq<int> := [];
    for k := 0 to |vs|
      invariant linesToRemove == LineNumbers(vs[..k])
      invariant FlaggedLines(content, vs[..k]).Success?
      invariant storedLines == StripEach(FlaggedLines(content, vs[..k]).value)
    {
      assert vs[..k + 1][..k] == vs[..k];
      var lineNumber := vs[k].lineNumber;
      linesToRemove := linesToRemove + [lineNumber];
      var i := PyIndex(|lines|, lineNumber - 1);
      if i.None? {
        assert FlaggedLines(content, vs[..k + 1]).Failure?;
        FlaggedLinesFailsFrom(content, vs, k + 1);
        return Failure(IndexError);
      }
      ghost var flagged := FlaggedLines(content, vs[..k]).value;
      assert FlaggedLines(content, vs[..k + 1]) == Success(flagged + [lines[i.value]]);
      storedLines := storedLines + [Strip(lines[i.value])];
      assert storedLines == StripEach(flagged + [lines[i.value]]);
    }
    assert vs[..|vs|] == vs;
    var remove := set n | n in linesToRemove;
    assert remove == LineSet(vs) by {
      forall n ensures n in remove <==> n in LineSet(vs) {
        if n in LineSet(vs) {
          var k :| 0 <= k < |vs| && vs[k].lineNumber == n;
          assert linesToRemove[k] == n;
        }
      }
    }
    lines := Keep(lines, remove, 1);
    lines := InsertAtTop(lines, storedLines);
    r := Success(lines);
  }

  /** `for i, line in enumerate(stored): lines.insert(i, line + '\n')`. */
  method InsertAtTop(lines: seq<string>, stored: seq<string>) returns (r: seq<string>)
    ensures r == InsertEach(lines, 0, WithNewlines(stored))
  {
    r := lines;
    ghost var newLines := WithNewlines(stored);
    for i := 0 to |stored|
      invariant InsertEach(r, i, newLines[i..]) == InsertEach(lines, 0, newLines)
    {
      assert newLines[i..][1..] == newLines[i + 1..];
      r := PyInsert(r, i, stored[i] + "\n");
    }
  }

  /** Once one record's line cannot be read, reading all of them fails. */
  lemma {:induction false} FlaggedLinesFailsFrom(content: seq<string>, vs: seq<Violation>, k: nat)
    requires 0 < k <= |vs|
    requires FlaggedLines(content, vs[..k]).Failure?
    ensures FlaggedLines(content, vs).Failure?
    decreases |vs| - k
  {
    if k < |vs| {
      assert vs[..k + 1][..k] == vs[..k];
      FlaggedLinesFailsFrom(content, vs, k + 1);
    } else {
      assert vs[..k] == vs;
    }
  }

  /** Reading records whose lines are all inside the document succeeds, in record order. */
  lemma {:induction false} FlaggedLinesInRange(content: seq<string>, vs: seq<Violation>)
    requires forall k :: 0 <= k < |vs| ==> 1 <= vs[k].lineNumber <= |content|
    ensures FlaggedLines(content, vs).Success?
    ensures forall k :: 0 <= k < |vs| ==> FlaggedLines(content, vs).value[k] == content[vs[k].lineNumber - 1]
  {
    if vs != [] {
      var init := vs[..|vs| - 1];
      assert forall k :: 0 <= k < |init| ==> init[k] == vs[k];
      FlaggedLinesInRange(content, init);
      var flagged := FlaggedLines(content, init).value;
      var ln := vs[|vs| - 1].lineNumber;
      assert PyIndex(|content|, ln - 1) == Some(ln - 1);
      assert FlaggedLines(content, vs) == Success(flagged + [content[ln - 1]]);
    }
  }

  /**
   * With every record on a line of the document, the output is the stripped flagged lines
   * with `'\n'`, in record order, followed by every unflagged line in its original order; its
   * length is `len(content) - (distinct flagged lines) + (records)`.
   */
  lemma ImportsPositionFixLayout(content: seq<string>, vs: seq<Violation>)
    requires forall k :: 0 <= k < |vs| ==> 1 <= vs[k].lineNumber <= |content|
    ensures ImportsPositionFix(content, vs).Success?
    ensures var out := ImportsPositionFix(content, vs).value;
      && |out| == |content| - |LineSet(vs)| + |vs|
      && (forall k :: 0 <= k < |vs| ==> out[k] == Strip(content[vs[k].lineNumber - 1]) + "\n")
      && out[|vs|..] == Keep(content, LineSet(vs), 1)
  {
    FlaggedLinesInRange(content, vs);
    var flagged := FlaggedLines(content, vs).value;
    var news := WithNewlines(StripEach(flagged));
    var kept := Keep(content, LineSet(vs), 1);
    assert ImportsPositionFix(content, vs) == Success(InsertEach(kept, 0, news));
    InsertEachIsBlock(kept, 0, news);
    assert kept[..0] == [] && kept[0..] == kept;
    assert [] + news == news;
    var out := news + kept;
    KeepLength(content, LineSet(vs), 1);
    assert Hits(LineSet(vs), 1, |content|) == LineSet(vs);
    forall k | 0 <= k < |vs| ensures out[k] == Strip(content[vs[k].lineNumber - 1]) + "\n" {
      assert out[k] == news[k];
    }
    assert out[|vs|..] == kept;
  }

  /** The corrector fails exactly when some record's line cannot be indexed (Python `IndexError`). */
  lemma {:induction false} ImportsPositionFixFails(content: seq<string>, vs: seq<Violation>)
    ensures ImportsPositionFix(content, vs).Failure? <==>
      exists k :: 0 <= k < |vs| && PyIndex(|content|, vs[k].lineNumber - 1).None?
    ensures ImportsPositionFix(content, vs).Failure? ==> ImportsPositionFix(content, vs).error == IndexError
  {
    FlaggedLinesFails(content, vs);
  }

  lemma {:induction false} FlaggedLinesFails(content: seq<string>, vs: seq<Violation>)
    ensures FlaggedLines(content, vs).Failure? <==>
      exists k :: 0 <= k < |vs| && PyIndex(|content|, vs[k].lineNumber - 1).None?
    ensures FlaggedLines(content, vs).Failure? ==> FlaggedLines(content, vs).error == IndexError
  {
    if vs != [] {
      var init := vs[..|vs| - 1];
      FlaggedLinesFails(content, init);
      if exists k :: 0 <= k < |init| && PyIndex(|content|, init[k].lineNumber - 1).None? {
        var k :| 0 <= k < |init| && PyIndex(|content|, init[k].lineNumber - 1).None?;
        assert vs[k] == init[k];
      }
      if exists k :: 0 <= k < |vs| && PyIndex(|content|, vs[k].lineNumber - 1).None? {
        var k :| 0 <= k < |vs| && PyIndex(|content|, vs[k].lineNumber - 1).None?;
        if k < |init| {
          assert vs[k] == init[k];
        }
      }
    }
  }

  // ---------------------------------------------------------------------------------------
  // multiple_imports_corrective_action
  // ---------------------------------------------------------------------------------------

  /**
   * The import statements one flagged line becomes: its indentation (the text before the
   * first `import`) plus `import ` plus one stripped name of the line with every `import `
   * removed and split at the commas, each ending in `'\n'`.
   */
  function ExpandImportLine(line: string): (r: seq<string>)
    ensures |r| == multiset(ReplaceAll(line, "import ", ""))[','] + 1
  {
    var indentation := PrefixBefore(line, "import");
    var modules := Split(ReplaceAll(line, "import ", ""), ',');
    seq(|modules|, k requires 0 <= k < |modules| => indentation + "import " + Strip(modules[k]) + "\n")
  }

  /**
   * Each statement the line becomes starts with the line's indentation and `import `, ends
   * with `'\n'` and names a single module (no comma): one statement per comma, plus one.
   */
  lemma ExpandImportLineStatements(line: string)
    ensures |ExpandImportLine(line)| == multiset(ReplaceAll(line, "import ", ""))[','] + 1
    ensures forall k :: 0 <= k < |ExpandImportLine(line)| ==>
      var statement := ExpandImportLine(line)[k];
      var head := PrefixBefore(line, "import") + "import ";
      && head <= statement
      && statement[|statement| - 1] == '\n'
      && ',' !in statement[|head|..|statement| - 1]
  {
    var indentation := PrefixBefore(line, "import");
    var modules := Split(ReplaceAll(line, "import ", ""), ',');
    forall k | 0 <= k < |modules|
      ensures ',' !in Strip(modules[k])
    {
      StripKeepsOnly(modules[k]);
    }
  }

  /**
   * What `multiple_imports_corrective_action` writes, from the running `offset`, when each
   * flagged line becomes `expand(line)` (`ExpandImportLine` in the source: the list
   * comprehension is a parameter here so the loop's proof does not depend on its text).
   * An empty expansion would make `imports[0]` raise `IndexError`.
   */
  function MultipleImportsFix(lines: seq<string>, vs: seq<Violation>, offset: int,
                              expand: string -> seq<string>): Result<seq<string>, PyException>
    decreases |vs|
  {
    if vs == [] then Success(lines)
    else
      var step :- ExpandStep(lines, vs[0], offset, expand);
      MultipleImportsFix(step.lines, vs[1..], step.offset, expand)
  }

  /** The lines after one record is handled, and the offset for the next record. */
  datatype Expansion = Expansion(lines: seq<string>, offset: int)

  /**
   * One record: line `v.lineNumber + offset` is overwritten by its first import and the
   * others are inserted below it; the offset grows by the number of inserted lines.
   */
  function ExpandStep(lines: seq<string>, v: Violation, offset: int, expand: string -> seq<string>)
    : (r: Result<Expansion, PyException>)
    ensures r.Success? ==> |r.value.lines| - |lines| == r.value.offset - offset
  {
    var lineNumber := v.lineNumber + offset;
    match PyIndex(|lines|, lineNumber - 1)
    case None => Failure(IndexError)
    case Some(i) =>
      var imports := expand(lines[i]);
      if imports == [] then Failure(IndexError)
      else Success(Expansion(InsertEach(lines[i := imports[0]], lineNumber, imports[1..]), offset + |imports| - 1))
  }

  /** `multiple_imports_corrective_action`, with `ExpandImportLine` as the comprehension. */
  method MultipleImportsCorrectiveAction(content: seq<string>, vs: seq<Violation>)
    returns (r: Result<seq<string>, PyException>)
    ensures r == MultipleImportsFix(content, vs, 0, ExpandImportLine)
  {
    r := ExpandFlaggedLines(content, vs, ExpandImportLine);
  }

  /**
   * The loop of `multiple_imports_corrective_action`: each flagged line (shifted by the lines
   * already added) is overwritten by its first import, the others are inserted below it, and
   * the offset grows by one per inserted line.
   */
  method ExpandFlaggedLines(content: seq<string>, vs: seq<Violation>, expand: string -> seq<string>)
    returns (r: Result<seq<string>, PyException>)
    ensures r == MultipleImportsFix(content, vs, 0, expand)
  {
    var lines := content;
    var offset := 0;
    for k := 0 to |vs|
      invariant MultipleImportsFix(lines, vs[k..], offset, expand) == MultipleImportsFix(content, vs, 0, expand)
    {
      assert vs[k..][1..] == vs[k + 1..];
      var step := ExpandLine(lines, vs[k], offset, expand);
      if step.Failure? {
        return Failure(step.error);
      }
      lines, offset := step.value.lines, step.value.offset;
    }
    r := Success(lines);
  }

  /** One pass of the loop body. */
  method ExpandLine(lines: seq<string>, v: Violation, offset: int, expand: string -> seq<string>)
    returns (r: Result<Expansion, PyException>)
    ensures r == ExpandStep(lines, v, offset, expand)
  {
    var lineNumber := v.lineNumber + offset;
    var i := PyIndex(|lines|, lineNumber - 1);
    if i.None? {
      return Failure(IndexError);
    }
    var imports := expand(lines[i.value]);
    if imports == [] {
      return Failure(IndexError);
    }
    var replaced := lines[i.value := imports[0]];
    var inserted := InsertBelow(replaced, lineNumber, imports[1..]);
    r := Success(Expansion(inserted, offset + |imports| - 1));
  }

  /** The document with each line whose number (counting from `first`) is flagged replaced by its expansion. */
  function ExpandAt(lines: seq<string>, flagged: set<int>, first: int, expand: string -> seq<string>): (r: seq<string>)
    decreases |lines|
  {
    if lines == [] then []
    else (if first in flagged then expand(lines[0]) else [lines[0]]) + ExpandAt(lines[1..], flagged, first + 1, expand)
  }

  /** Only the flagged numbers inside the numbered range matter. */
  lemma {:induction false} ExpandAtAgree(lines: seq<string>, f: set<int>, g: set<int>, first: int,
                                         expand: string -> seq<string>)
    requires forall n :: first <= n < first + |lines| ==> (n in f <==> n in g)
    ensures ExpandAt(lines, f, first, expand) == ExpandAt(lines, g, first, expand)
    decreases |lines|
  {
    if lines != [] {
      ExpandAtAgree(lines[1..], f, g, first + 1, expand);
    }
  }

  /** Expanding a document is expanding its first `j` lines, then the rest. */
  lemma {:induction false} ExpandAtSplit(lines: seq<string>, f: set<int>, first: int, j: nat, mid: int,
                                         expand: string -> seq<string>)
    requires j <= |lines| && mid == first + j
    ensures ExpandAt(lines, f, first, expand) ==
      ExpandAt(lines[..j], f, first, expand) + ExpandAt(lines[j..], f, mid, expand)
    decreases j
  {
    if j > 0 {
      ExpandAtSplit(lines[1..], f, first + 1, j - 1, mid, expand);
      assert lines[..j][1..] == lines[1..][..j - 1];
      assert lines[1..][j - 1..] == lines[j..];
    }
  }

  /** With nothing flagged in range, expanding changes nothing. */
  lemma {:induction false} ExpandAtNothing(lines: seq<string>, f: set<int>, first: int, expand: string -> seq<string>)
    requires forall n :: first <= n < first + |lines| ==> n !in f
    ensures ExpandAt(lines, f, first, expand) == lines
    decreases |lines|
  {
    if lines != [] {
      ExpandAtNothing(lines[1..], f, first + 1, expand);
    }
  }

  /**
   * One record of the loop, on line `j` of the rest of the document past the already
   * expanded prefix `done`: its expansion goes in place, and the offset becomes how many
   * lines the new prefix `done'` grew by.
   */
  lemma MultipleImportsFixStep(done: seq<string>, rest: seq<string>, vs: seq<Violation>, p: int, j: nat,
                               offset: int, done': seq<string>, next: int, expand: string -> seq<string>)
    requires vs != [] && j < |rest| && vs[0].lineNumber == p + j + 1 && offset == |done| - p
    requires expand(rest[j]) != [] && done' == done + rest[..j] + expand(rest[j])
    requires next == |done'| - vs[0].lineNumber
    ensures ExpandStep(done + rest, vs[0], offset, expand) == Success(Expansion(done' + rest[j + 1..], next))
  {
    var lines := done + rest;
    var imports := expand(rest[j]);
    assert lines[|done| + j] == rest[j];
    var replaced := lines[|done| + j := imports[0]];
    InsertEachIsBlock(replaced, |done| + j + 1, imports[1..]);
    assert replaced[..|done| + j + 1] + imports[1..] + replaced[|done| + j + 1..]
      == done + rest[..j] + imports + rest[j + 1..];
  }

  /** A record whose step succeeds hands its lines and offset on to the next record. */
  lemma MultipleImportsFixCons(lines: seq<string>, vs: seq<Violation>, offset: int,
                               lines': seq<string>, offset': int, expand: string -> seq<string>)
    requires vs != [] && ExpandStep(lines, vs[0], offset, expand) == Success(Expansion(lines', offset'))
    ensures MultipleImportsFix(lines, vs, offset, expand) == MultipleImportsFix(lines', vs[1..], offset', expand)
  {
  }

  /** The expansion of the rest of the document, split at the next flagged line `p + j + 1`. */
  lemma ExpandAtNext(rest: seq<string>, vs: seq<Violation>, p: int, j: nat, expand: string -> seq<string>)
    requires StrictlyAscending(vs) && vs != [] && j < |rest| && vs[0].lineNumber == p + j + 1
    ensures ExpandAt(rest, LineSet(vs), p + 1, expand) ==
      rest[..j] + expand(rest[j]) + ExpandAt(rest[j + 1..], LineSet(vs[1..]), vs[0].lineNumber + 1, expand)
  {
    var flagged, flagged' := LineSet(vs), LineSet(vs[1..]);
    var n := vs[0].lineNumber;
    forall m | n + 1 <= m
      ensures m in flagged' <==> m in flagged
    {
      if m in flagged {
        var k :| 0 <= k < |vs| && vs[k].lineNumber == m;
        assert vs[1..][k - 1] == vs[k];
      }
      if m in flagged' {
        var k :| 0 <= k < |vs[1..]| && vs[1..][k].lineNumber == m;
        assert vs[k + 1] == vs[1..][k];
      }
    }
    assert forall k :: 0 <= k < |vs| ==> vs[k].lineNumber >= n;
    assert n in flagged;
    ExpandAtFlaggedAt(rest, flagged, flagged', p, j, n, expand);
  }

  /** The same split for any two flag sets that agree past line `n`, where `n` is the first flagged line. */
  lemma ExpandAtFlaggedAt(rest: seq<string>, f: set<int>, g: set<int>, p: int, j: nat, n: int,
                          expand: string -> seq<string>)
    requires j < |rest| && n == p + j + 1 && n in f
    requires forall m :: p + 1 <= m < n ==> m !in f
    requires forall m :: n + 1 <= m ==> (m in g <==> m in f)
    ensures ExpandAt(rest, f, p + 1, expand) == rest[..j] + expand(rest[j]) + ExpandAt(rest[j + 1..], g, n + 1, expand)
  {
    var tail := ExpandAt(rest[j + 1..], f, n + 1, expand);
    ExpandAtAgree(rest[j + 1..], g, f, n + 1, expand);
    ExpandAtSplit(rest, f, p + 1, j, n, expand);
    ExpandAtNothing(rest[..j], f, p + 1, expand);
    assert rest[j..][0] == rest[j] && rest[j..][1..] == rest[j + 1..];
    assert ExpandAt(rest[j..], f, n, expand) == expand(rest[j]) + tail;
    AppendAssoc3(rest[..j], expand(rest[j]), tail);
  }

  lemma AppendAssoc3<T>(a: seq<T>, b: seq<T>, c: seq<T>)
    ensures a + (b + c) == a + b + c
  {
  }

  lemma AppendAssoc<T>(a: seq<T>, b: seq<T>, c: seq<T>, d: seq<T>)
    ensures a + b + c + d == a + (b + c + d)
  {
  }

  /** The records after the first of an ascending list lie after it and within the same bound. */
  lemma AscendingTail(vs: seq<Violation>, bound: int)
    requires StrictlyAscending(vs) && vs != []
    requires forall k :: 0 <= k < |vs| ==> vs[k].lineNumber <= bound
    ensures StrictlyAscending(vs[1..])
    ensures forall k :: 0 <= k < |vs[1..]| ==> vs[0].lineNumber < vs[1..][k].lineNumber <= bound
  {
    assert forall k :: 0 <= k < |vs[1..]| ==> vs[1..][k] == vs[k + 1];
  }

  /**
   * The loop's invariant: after the records above line `p` are done, the lines are the
   * expanded prefix `done` followed by the untouched rest of the document, and the offset is
   * how many lines the prefix grew by.
   */
  lemma {:induction false} MultipleImportsFixFrom(done: seq<string>, rest: seq<string>, vs: seq<Violation>, p: int,
                                                  offset: int, expand: string -> seq<string>)
    requires StrictlyAscending(vs)
    requires forall k :: 0 <= k < |vs| ==> p < vs[k].lineNumber <= p + |rest|
    requires forall x :: expand(x) != []
    requires offset == |done| - p
    ensures MultipleImportsFix(done + rest, vs, offset, expand) ==
      Success(done + ExpandAt(rest, LineSet(vs), p + 1, expand))
    decreases |vs|
  {
    if vs == [] {
      ExpandAtNothing(rest, LineSet(vs), p + 1, expand);
    } else {
      var j := vs[0].lineNumber - p - 1;
      var done' := done + rest[..j] + expand(rest[j]);
      var next := |done'| - vs[0].lineNumber;
      var tail := ExpandAt(rest[j + 1..], LineSet(vs[1..]), vs[0].lineNumber + 1, expand);
      MultipleImportsFixStep(done, rest, vs, p, j, offset, done', next, expand);
      MultipleImportsFixCons(done + rest, vs, offset, done' + rest[j + 1..], next, expand);
      AscendingTail(vs, p + |rest|);
      assert p + |rest| == vs[0].lineNumber + |rest[j + 1..]|;
      MultipleImportsFixFrom(done', rest[j + 1..], vs[1..], vs[0].lineNumber, next, expand);
      ExpandAtNext(rest, vs, p, j, expand);
      AppendAssoc(done, rest[..j], expand(rest[j]), tail);
    }
  }

  /**
   * On records in strictly ascending order, each naming a line of the document (as the
   * E401 detector produces them), the corrector replaces exactly the flagged lines by their
   * expansions, in place, and keeps every other line.
   */
  lemma MultipleImportsFixExpands(content: seq<string>, vs: seq<Violation>, expand: string -> seq<string>)
    requires StrictlyAscending(vs)
    requires forall k :: 0 <= k < |vs| ==> 1 <= vs[k].lineNumber <= |content|
    requires forall x :: expand(x) != []
    ensures MultipleImportsFix(content, vs, 0, expand) == Success(ExpandAt(content, LineSet(vs), 1, expand))
  {
    MultipleImportsFixFrom([], content, vs, 0, 0, expand);
    assert [] + content == content;
    assert [] + ExpandAt(content, LineSet(vs), 1, expand) == ExpandAt(content, LineSet(vs), 1, expand);
  }

  /** Lines above the first flagged line come through the correction unchanged. */
  lemma MultipleImportsFixKeepsPrefix(content: seq<string>, vs: seq<Violation>, expand: string -> seq<string>)
    requires StrictlyAscending(vs) && vs != []
    requires forall k :: 0 <= k < |vs| ==> 1 <= vs[k].lineNumber <= |content|
    requires forall x :: expand(x) != []
    ensures var r := MultipleImportsFix(content, vs, 0, expand);
      && r.Success?
      && vs[0].lineNumber - 1 <= |r.value|
      && r.value[..vs[0].lineNumber - 1] == content[..vs[0].lineNumber - 1]
  {
    MultipleImportsFixExpands(content, vs, expand);
    var j := vs[0].lineNumber - 1;
    ExpandAtSplit(content, LineSet(vs), 1, j, j + 1, expand);
    assert forall k :: 0 <= k < |vs| ==> vs[k].lineNumber >= j + 1;
    ExpandAtNothing(content[..j], LineSet(vs), 1, expand);
  }

  /** Lines the records add: one less than the number of statements of each flagged line. */
  function Growth(content: seq<string>, vs: seq<Violation>, expand: string -> seq<string>): int
    requires forall k :: 0 <= k < |vs| ==> 1 <= vs[k].lineNumber <= |content|
  {
    if vs == [] then 0
    else |expand(content[vs[0].lineNumber - 1])| - 1 + Growth(content, vs[1..], expand)
  }

  /** The expansion of the lines from index `p` on grows by the records' `Growth`. */
  lemma {:induction false} ExpandAtGrowth(content: seq<string>, vs: seq<Violation>, p: nat,
                                          expand: string -> seq<string>)
    requires StrictlyAscending(vs) && p <= |content|
    requires forall k :: 0 <= k < |vs| ==> p < vs[k].lineNumber <= |content|
    ensures |ExpandAt(content[p..], LineSet(vs), p + 1, expand)| == |content| - p + Growth(content, vs, expand)
    decreases |vs|
  {
    if vs == [] {
      ExpandAtNothing(content[p..], LineSet(vs), p + 1, expand);
    } else {
      var n := vs[0].lineNumber;
      var rest := content[p..];
      ExpandAtNext(rest, vs, p, n - p - 1, expand);
      assert rest[n - p - 1 + 1..] == content[n..];
      assert rest[n - p - 1] == content[n - 1];
      ExpandAtGrowth(content, vs[1..], n, expand);
    }
  }

  /**
   * A correction over ascending, in-range records grows the document by the lines it adds:
   * `|content| + Σ (statements of flagged line − 1)`.
   */
  lemma MultipleImportsFixLength(content: seq<string>, vs: seq<Violation>, expand: string -> seq<string>)
    requires StrictlyAscending(vs)
    requires forall k :: 0 <= k < |vs| ==> 1 <= vs[k].lineNumber <= |content|
    requires forall x :: expand(x) != []
    ensures var r := MultipleImportsFix(content, vs, 0, expand);
      r.Success? && |r.value| == |content| + Growth(content, vs, expand)
  {
    MultipleImportsFixExpands(content, vs, expand);
    ExpandAtGrowth(content, vs, 0, expand);
    assert content[0..] == content;
  }

  /**
   * `for new_line in imports[1:]: line_number += 1; lines.insert(line_number - 1, new_line)`:
   * the new lines go one after the other directly below line `lineNumber`.
   */
  method InsertBelow(lines: seq<string>, lineNumber: int, news: seq<string>) returns (r: seq<string>)
    ensures r == InsertEach(lines, lineNumber, news)
  {
    r := lines;
    var n := lineNumber;
    for j := 0 to |news|
      invariant n == lineNumber + j
      invariant InsertEach(r, n, news[j..]) == InsertEach(lines, lineNumber, news)
    {
      assert news[j..][1..] == news[j + 1..];
      n := n + 1;
      r := PyInsert(r, n - 1, news[j]);
    }
  }

  // ---------------------------------------------------------------------------------------
  // blank_lines_corrective_action
  // ---------------------------------------------------------------------------------------

  /** `n` lines holding only `'\n'`. */
  function Blanks(n: nat): (r: seq<string>)
    ensures |r| == n
    ensures forall k :: 0 <= k < n ==> r[k] == "\n"
  {
    seq(n, _ => "\n")
  }

  /** `while n: del lines[at]; at -= 1; n -= 1`. */
  function DeleteAbove(lines: seq<string>, at: int, n: nat): (r: Result<seq<string>, PyException>)
    ensures r.Success? ==> |r.value| == |lines| - n
    decreases n
  {
    if n == 0 then Success(lines)
    else
      var shorter :- PyDelete(lines, at);
      DeleteAbove(shorter, at - 1, n - 1)
  }

  /** Deleting upward from index `at` removes the block of `n` lines that ends at `at`. */
  lemma {:induction false} DeleteAboveIsBlock(lines: seq<string>, at: int, n: nat)
    requires n <= at + 1 && at < |lines|
    ensures DeleteAbove(lines, at, n) == Success(lines[..at + 1 - n] + lines[at + 1..])
    decreases n
  {
    if n > 0 {
      var shorter := lines[..at] + lines[at + 1..];
      assert PyDelete(lines, at) == Success(shorter);
      assert DeleteAbove(lines, at, n) == DeleteAbove(shorter, at - 1, n - 1);
      DeleteAboveIsBlock(shorter, at - 1, n - 1);
      assert shorter[..at - 1 + 1 - (n - 1)] == lines[..at + 1 - n];
      assert shorter[at - 1 + 1..] == lines[at + 1..];
    } else {
      assert lines[..at + 1 - n] + lines[at + 1..] == lines;
    }
  }

  /** `expected - received` of a blank-line record (0 when a field is missing). */
  function Diff(v: Violation): int {
    if v.expected.Some? && v.received.Some? then v.expected.value - v.received.value else 0
  }

  function DiffSum(vs: seq<Violation>): int {
    if vs == [] then 0 else Diff(vs[0]) + DiffSum(vs[1..])
  }

  /** One record's edit: insert `diff` blank lines above `lineNumber`, or delete `-diff` lines above it. */
  function Respace(lines: seq<string>, lineNumber: int, diff: int): (r: Result<seq<string>, PyException>)
    ensures r.Success? ==> |r.value| == |lines| + diff
  {
    if diff > 0 then Success(InsertEach(lines, lineNumber - 1, Blanks(diff)))
    else if diff < 0 then DeleteAbove(lines, lineNumber - 2, -diff)
    else Success(lines)
  }

  /** What `blank_lines_corrective_action` writes, from the running `offset`. */
  function BlankLinesFix(lines: seq<string>, vs: seq<Violation>, offset: int): Result<seq<string>, PyException>
    decreases |vs|
  {
    if vs == [] then Success(lines)
    else
      var v := vs[0];
      if v.expected.None? || v.received.None? then Failure(KeyError)
      else
        var diff := v.expected.value - v.received.value;
        var respaced :- Respace(lines, v.lineNumber + offset, diff);
        BlankLinesFix(respaced, vs[1..], offset + diff)
  }

  /**
   * Whatever the records, a successful correction changes the number of lines by exactly the
   * sum of their `expected - received`.
   */
  lemma {:induction false} BlankLinesFixLength(lines: seq<string>, vs: seq<Violation>, offset: int)
    ensures var r := BlankLinesFix(lines, vs, offset);
      r.Success? ==> |r.value| == |lines| + DiffSum(vs)
    decreases |vs|
  {
    if vs != [] && vs[0].expected.Some? && vs[0].received.Some? {
      var diff := vs[0].expected.value - vs[0].received.value;
      var respaced := Respace(lines, vs[0].lineNumber + offset, diff);
      if respaced.Success? {
        BlankLinesFixLength(respaced.value, vs[1..], offset + diff);
      }
    }
  }

  /**
   * `blank_lines_corrective_action`: for each record, shifted by the running offset, inserts
   * `expected - received` blank lines above the definition or deletes the surplus lines
   * directly above it.
   */
  method BlankLinesCorrectiveAction(content: seq<string>, vs: seq<Violation>)
    returns (r: Result<seq<string>, PyException>)
    ensures r == BlankLinesFix(content, vs, 0)
  {
    var lines := content;
    var offset := 0;
    for k := 0 to |vs|
      invariant BlankLinesFix(lines, vs[k..], offset) == BlankLinesFix(content, vs, 0)
    {
      assert vs[k..][1..] == vs[k + 1..];
      var lineNumber := vs[k].lineNumber + offset;
      if vs[k].expected.None? || vs[k].received.None? {
        return Failure(KeyError);
      }
      var expectedBlankLines := vs[k].expected.value;
      var receivedBlankLines := vs[k].received.value;
      var blankLinesDiff := expectedBlankLines - receivedBlankLines;
      offset := offset + blankLinesDiff;
      var respaced := RespaceAt(lines, lineNumber, blankLinesDiff);
      if respaced.Failure? {
        return Failure(respaced.error);
      }
      lines := respaced.value;
    }
    r := Success(lines);
  }

  /** The `if blank_lines_diff > 0 ... elif blank_lines_diff < 0 ...` step for one record. */
  method RespaceAt(lines: seq<string>, lineNumber: int, diff: int) returns (r: Result<seq<string>, PyException>)
    ensures r == Respace(lines, lineNumber, diff)
  {
    if diff > 0 {
      var inserted := InsertBlanks(lines, lineNumber, diff);
      r := Success(inserted);
    } else if diff < 0 {
      r := DeleteBlanks(lines, lineNumber, -diff);
    } else {
      r := Success(lines);
    }
  }

  /** `while blank_lines_diff: lines.insert(line_number - 1, '\n'); line_number += 1; ...` */
  method InsertBlanks(lines: seq<string>, lineNumber: int, n: nat) returns (r: seq<string>)
    ensures r == InsertEach(lines, lineNumber - 1, Blanks(n))
  {
    r := lines;
    var at := lineNumber;
    var left := n;
    while left != 0
      invariant 0 <= left <= n
      invariant InsertEach(r, at - 1, Blanks(left)) == InsertEach(lines, lineNumber - 1, Blanks(n))
    {
      assert Blanks(left)[1..] == Blanks(left - 1);
      r := PyInsert(r, at - 1, "\n");
      at := at + 1;
      left := left - 1;
    }
  }

  /** `while blank_lines_diff: del lines[line_number - 2]; line_number -= 1; ...` */
  method DeleteBlanks(lines: seq<string>, lineNumber: int, n: nat) returns (r: Result<seq<string>, PyException>)
    ensures r == DeleteAbove(lines, lineNumber - 2, n)
  {
    var current := lines;
    var at := lineNumber;
    var left := n;
    while left != 0
      invariant 0 <= left <= n
      invariant DeleteAbove(current, at - 2, left) == DeleteAbove(lines, lineNumber - 2, n)
    {
      var shorter := PyDelete(current, at - 2);
      if shorter.Failure? {
        return Failure(IndexError);
      }
      current := shorter.value;
      at := at - 1;
      left := left - 1;
    }
    r := Success(current);
  }


  // ---------------------------------------------------------------------------------------
  // extraneous_whitespace_corrective_action
  // ---------------------------------------------------------------------------------------

  /** The lines after one record's removal, and what the next record compares against. */
  datatype Rewrite = Rewrite(lines: seq<string>, lineNumber: int, count: nat)

  /**
   * One record of `extraneous_whitespace_corrective_action`. A record on the same line as the
   * previous one has its column moved left by the number of characters the previous removal
   * counted; the record's line is rewritten with `remove_whitespace_and_count`.
   */
  function ExtraneousStep(lines: seq<string>, v: Violation, prevLine: Option<int>, prevCount: int)
    : (r: Result<Rewrite, PyException>)
    ensures r.Success? ==> |r.value.lines| == |lines| && r.value.lineNumber == v.lineNumber
    ensures v.atPosition.None? ==> r == Failure(KeyError)
    ensures v.atPosition.Some? && !(-|lines| <= v.lineNumber - 1 < |lines|) ==> r == Failure(IndexError)
  {
    if v.atPosition.None? then Failure(KeyError)
    else
      var at := if prevLine == Some(v.lineNumber) then v.atPosition.value - prevCount else v.atPosition.value;
      match PyIndex(|lines|, v.lineNumber - 1)
      case None => Failure(IndexError)
      case Some(i) =>
        var removal :- WhitespaceRemoval(lines[i], at);
        Success(Rewrite(lines[i := removal.line], v.lineNumber, removal.count))
  }

  /** What `extraneous_whitespace_corrective_action` writes: the records' steps in order. */
  function ExtraneousFix(lines: seq<string>, vs: seq<Violation>, prevLine: Option<int>, prevCount: int)
    : Result<seq<string>, PyException>
    decreases |vs|
  {
    if vs == [] then Success(lines)
    else
      var step :- ExtraneousStep(lines, vs[0], prevLine, prevCount);
      ExtraneousFix(step.lines, vs[1..], Some(step.lineNumber), step.count)
  }

  /** Whether a record's line number names list index `i` of a list of `n` lines, as Python indexes. */
  predicate Addresses(n: nat, v: Violation, i: int) {
    v.lineNumber - 1 == i || v.lineNumber - 1 == i - n
  }

  /**
   * A record whose (adjusted) column lies inside its line: the maximal whitespace run starting
   * there loses its spaces, the count is the run's length, and no other line changes.
   */
  lemma ExtraneousStepRemovesRun(lines: seq<string>, v: Violation, prevLine: Option<int>, prevCount: int, at: nat)
    requires v.atPosition.Some? && 1 <= v.lineNumber <= |lines|
    requires at == if prevLine == Some(v.lineNumber) then v.atPosition.value - prevCount else v.atPosition.value
    requires at < |lines[v.lineNumber - 1]|
    ensures var r := ExtraneousStep(lines, v, prevLine, prevCount);
      && r.Success?
      && (forall i :: 0 <= i < |lines| && i != v.lineNumber - 1 ==> r.value.lines[i] == lines[i])
      && var s, e := lines[v.lineNumber - 1], at + r.value.count;
         && e <= |s| && AllSpace(s[at..e]) && (e == |s| || !IsSpace(s[e]))
         && r.value.lines[v.lineNumber - 1] == s[..at] + RemoveSpaces(s[at..e]) + s[e..]
  {
    var s := lines[v.lineNumber - 1];
    WhitespaceRemovalRun(s, at);
    var removal := WhitespaceRemoval(s, at).value;
    ExtraneousStepAt(lines, v, prevLine, prevCount, v.lineNumber - 1, at, removal);
  }

  /** A record on list index `i` whose removal at column `at` succeeds rewrites that line. */
  lemma ExtraneousStepAt(lines: seq<string>, v: Violation, prevLine: Option<int>, prevCount: int,
                         i: nat, at: int, removal: Removal)
    requires v.atPosition.Some?
    requires at == if prevLine == Some(v.lineNumber) then v.atPosition.value - prevCount else v.atPosition.value
    requires PyIndex(|lines|, v.lineNumber - 1) == Some(i)
    requires WhitespaceRemoval(lines[i], at) == Success(removal)
    ensures ExtraneousStep(lines, v, prevLine, prevCount) == Success(Rewrite(lines[i := removal.line], v.lineNumber, removal.count))
  {
  }

  /** One step rewrites at most the line its record addresses. */
  lemma ExtraneousStepFrame(lines: seq<string>, v: Violation, prevLine: Option<int>, prevCount: int)
    ensures var r := ExtraneousStep(lines, v, prevLine, prevCount);
      r.Success? ==> forall i :: 0 <= i < |lines| && !Addresses(|lines|, v, i) ==> r.value.lines[i] == lines[i]
  {
    if v.atPosition.Some? {
      var at := if prevLine == Some(v.lineNumber) then v.atPosition.value - prevCount else v.atPosition.value;
      var j := PyIndex(|lines|, v.lineNumber - 1);
      if j.Some? && WhitespaceRemoval(lines[j.value], at).Success? {
        ExtraneousStepAt(lines, v, prevLine, prevCount, j.value, at, WhitespaceRemoval(lines[j.value], at).value);
      }
    }
  }

  /** No record of `vs` addresses list index `i`. */
  predicate Unaddressed(n: nat, vs: seq<Violation>, i: int) {
    forall k :: 0 <= k < |vs| ==> !Addresses(n, vs[k], i)
  }

  /**
   * Whatever the records, a successful correction keeps the number of lines, and every line
   * that no record addresses comes back unchanged.
   */
  lemma {:induction false} ExtraneousFixFrame(lines: seq<string>, vs: seq<Violation>, prevLine: Option<int>, prevCount: int)
    ensures var r := ExtraneousFix(lines, vs, prevLine, prevCount);
      r.Success? ==>
        && |r.value| == |lines|
        && forall i :: 0 <= i < |lines| && Unaddressed(|lines|, vs, i) ==> r.value[i] == lines[i]
    decreases |vs|
  {
    if vs != [] {
      var step := ExtraneousStep(lines, vs[0], prevLine, prevCount);
      if step.Success? {
        var next := step.value.lines;
        ExtraneousStepFrame(lines, vs[0], prevLine, prevCount);
        ExtraneousFixFrame(next, vs[1..], Some(step.value.lineNumber), step.value.count);
        forall i | 0 <= i < |lines| && Unaddressed(|lines|, vs, i)
          ensures next[i] == lines[i] && Unaddressed(|lines|, vs[1..], i)
        {
          assert !Addresses(|lines|, vs[0], i);
          assert forall k :: 0 <= k < |vs[1..]| ==> vs[1..][k] == vs[k + 1];
        }
      }
    }
  }

  /** A line above every record's line is left as it is. */
  lemma ExtraneousFixKeepsLine(lines: seq<string>, vs: seq<Violation>, prevLine: Option<int>, prevCount: int, i: nat)
    requires ExtraneousFix(lines, vs, prevLine, prevCount).Success? && i < |lines|
    requires forall k :: 0 <= k < |vs| ==> i < vs[k].lineNumber - 1
    ensures |ExtraneousFix(lines, vs, prevLine, prevCount).value| == |lines|
    ensures ExtraneousFix(lines, vs, prevLine, prevCount).value[i] == lines[i]
  {
    ExtraneousFixFrame(lines, vs, prevLine, prevCount);
    assert Unaddressed(|lines|, vs, i);
  }

  /** Every record has a column inside the line it addresses. */
  predicate ColumnsFit(lines: seq<string>, vs: seq<Violation>) {
    forall k :: 0 <= k < |vs| ==>
      vs[k].atPosition.Some? && 1 <= vs[k].lineNumber <= |lines| && 0 <= vs[k].atPosition.value < |lines[vs[k].lineNumber - 1]|
  }

  /** Rewriting the first record's line leaves the later records' lines, and so their columns, alone. */
  lemma ColumnsFitTail(lines: seq<string>, next: seq<string>, vs: seq<Violation>)
    requires StrictlyAscending(vs) && ColumnsFit(lines, vs) && vs != [] && |next| == |lines|
    requires forall i :: 0 <= i < |lines| && i != vs[0].lineNumber - 1 ==> next[i] == lines[i]
    ensures StrictlyAscending(vs[1..]) && ColumnsFit(next, vs[1..])
  {
    forall k | 0 <= k < |vs[1..]|
      ensures vs[1..][k].atPosition.Some? && 1 <= vs[1..][k].lineNumber <= |next|
      ensures 0 <= vs[1..][k].atPosition.value < |next[vs[1..][k].lineNumber - 1]|
    {
      assert vs[1..][k] == vs[k + 1];
    }
    assert forall k :: 0 <= k < |vs[1..]| ==> vs[1..][k] == vs[k + 1];
  }

  /**
   * The first record's column is inside its line, and no earlier record shares that line: its
   * removal succeeds, and the correction is that of the later records on the rewritten lines.
   */
  lemma DistinctFirstStep(lines: seq<string>, vs: seq<Violation>, prevLine: Option<int>, prevCount: int, i: nat, at: int)
    requires ColumnsFit(lines, vs) && vs != []
    requires prevLine.Some? ==> prevLine.value < vs[0].lineNumber
    requires i == vs[0].lineNumber - 1 && vs[0].atPosition == Some(at)
    ensures i < |lines| && WhitespaceRemoval(lines[i], at).Success?
    ensures ExtraneousFix(lines, vs, prevLine, prevCount)
         == ExtraneousFix(lines[i := WhitespaceRemoval(lines[i], at).value.line], vs[1..], Some(vs[0].lineNumber),
                          WhitespaceRemoval(lines[i], at).value.count)
  {
    assert 0 <= at < |lines[i]|;
    WhitespaceRemovalRun(lines[i], at);
    var removal := WhitespaceRemoval(lines[i], at).value;
    ExtraneousStepAt(lines, vs[0], prevLine, prevCount, i, at, removal);
    ExtraneousFixCons(lines, vs, prevLine, prevCount, Rewrite(lines[i := removal.line], vs[0].lineNumber, removal.count));
  }

  /**
   * Records on distinct lines, in ascending order, each with a column inside its line: the
   * correction succeeds, keeps the number of lines, and record `k`'s line (list index `j`,
   * column `at`, original text `s`) is what `remove_whitespace_and_count` makes of `s` at `at`.
   */
  lemma {:induction false} ExtraneousFixDistinctAt(lines: seq<string>, vs: seq<Violation>, prevLine: Option<int>,
                                                   prevCount: int, k: nat, j: nat, at: int, s: string)
    requires StrictlyAscending(vs) && ColumnsFit(lines, vs) && k < |vs|
    requires prevLine.Some? ==> prevLine.value < vs[0].lineNumber
    requires j == vs[k].lineNumber - 1 && vs[k].atPosition == Some(at) && j < |lines| && s == lines[j]
    ensures var r := ExtraneousFix(lines, vs, prevLine, prevCount);
      && r.Success? && |r.value| == |lines|
      && WhitespaceRemoval(s, at).Success?
      && r.value[j] == WhitespaceRemoval(s, at).value.line
    decreases |vs|, 1
  {
    var v := vs[0];
    var i := v.lineNumber - 1;
    DistinctFirstStep(lines, vs, prevLine, prevCount, i, v.atPosition.value);
    var removal := WhitespaceRemoval(lines[i], v.atPosition.value);
    var next := lines[i := removal.value.line];
    if |vs| == 1 {
      assert vs[1..] == [];
    } else if k == 0 {
      DistinctRestKeepsFirst(lines, next, vs, removal.value.count);
    } else {
      assert j != i by { assert vs[0].lineNumber < vs[k].lineNumber; }
      DistinctRestAt(lines, next, vs, removal.value.count, k, j, at, s);
    }
  }

  /** The later records' correction leaves the first record's line, already rewritten in `next`, alone. */
  lemma DistinctRestKeepsFirst(lines: seq<string>, next: seq<string>, vs: seq<Violation>, count: int)
    requires StrictlyAscending(vs) && ColumnsFit(lines, vs) && |vs| > 1 && |next| == |lines|
    requires forall i :: 0 <= i < |lines| && i != vs[0].lineNumber - 1 ==> next[i] == lines[i]
    ensures var rest := ExtraneousFix(next, vs[1..], Some(vs[0].lineNumber), count);
      && 1 <= vs[0].lineNumber <= |lines|
      && rest.Success? && |rest.value| == |lines| && rest.value[vs[0].lineNumber - 1] == next[vs[0].lineNumber - 1]
    decreases |vs|, 0
  {
    ColumnsFitTail(lines, next, vs);
    assert vs[1..][0] == vs[1];
    var w := vs[1];
    ExtraneousFixDistinctAt(next, vs[1..], Some(vs[0].lineNumber), count, 0,
                            w.lineNumber - 1, w.atPosition.value, next[w.lineNumber - 1]);
    AscendingTail(vs, |lines|);
    ExtraneousFixKeepsLine(next, vs[1..], Some(vs[0].lineNumber), count, vs[0].lineNumber - 1);
  }

  /** A later record's line, untouched in `next`, is rewritten by the later records' correction alone. */
  lemma DistinctRestAt(lines: seq<string>, next: seq<string>, vs: seq<Violation>, count: int,
                       k: nat, j: nat, at: int, s: string)
    requires StrictlyAscending(vs) && ColumnsFit(lines, vs) && 0 < k < |vs| && |next| == |lines|
    requires forall i :: 0 <= i < |lines| && i != vs[0].lineNumber - 1 ==> next[i] == lines[i]
    requires j == vs[k].lineNumber - 1 && vs[k].atPosition == Some(at) && j < |lines| && s == lines[j]
    requires j != vs[0].lineNumber - 1
    ensures var rest := ExtraneousFix(next, vs[1..], Some(vs[0].lineNumber), count);
      && rest.Success? && |rest.value| == |lines|
      && WhitespaceRemoval(s, at).Success?
      && rest.value[j] == WhitespaceRemoval(s, at).value.line
    decreases |vs|, 0
  {
    ColumnsFitTail(lines, next, vs);
    assert vs[1..][0] == vs[1] && vs[1..][k - 1] == vs[k];
    ExtraneousFixDistinctAt(next, vs[1..], Some(vs[0].lineNumber), count, k - 1, j, at, s);
  }

  /**
   * Records on distinct lines, in ascending order, each with a column inside its line: the
   * correction succeeds, and every addressed line is what `remove_whitespace_and_count` makes
   * of the original line at the record's own column (no shift applies, since no record follows
   * one on its line).
   */
  lemma ExtraneousFixDistinctLines(lines: seq<string>, vs: seq<Violation>, prevLine: Option<int>, prevCount: int)
    requires StrictlyAscending(vs) && ColumnsFit(lines, vs)
    requires vs != [] && prevLine.Some? ==> prevLine.value < vs[0].lineNumber
    ensures var r := ExtraneousFix(lines, vs, prevLine, prevCount);
      && r.Success?
      && |r.value| == |lines|
      && forall k :: 0 <= k < |vs| ==>
           && vs[k].atPosition.Some? && 1 <= vs[k].lineNumber <= |lines|
           && WhitespaceRemoval(lines[vs[k].lineNumber - 1], vs[k].atPosition.value).Success?
           && r.value[vs[k].lineNumber - 1] == WhitespaceRemoval(lines[vs[k].lineNumber - 1], vs[k].atPosition.value).value.line
  {
    if vs != [] {
      ExtraneousFixDistinctRecord(lines, vs, prevLine, prevCount, 0);
      forall k | 0 <= k < |vs|
        ensures && vs[k].atPosition.Some? && 1 <= vs[k].lineNumber <= |lines|
                && WhitespaceRemoval(lines[vs[k].lineNumber - 1], vs[k].atPosition.value).Success?
                && ExtraneousFix(lines, vs, prevLine, prevCount).value[vs[k].lineNumber - 1]
                   == WhitespaceRemoval(lines[vs[k].lineNumber - 1], vs[k].atPosition.value).value.line
      {
        ExtraneousFixDistinctRecord(lines, vs, prevLine, prevCount, k);
      }
    }
  }

  /** `ExtraneousFixDistinctAt` for record `k` at its own line, column and original text. */
  lemma ExtraneousFixDistinctRecord(lines: seq<string>, vs: seq<Violation>, prevLine: Option<int>, prevCount: int, k: nat)
    requires StrictlyAscending(vs) && ColumnsFit(lines, vs) && k < |vs|
    requires prevLine.Some? ==> prevLine.value < vs[0].lineNumber
    ensures ExtraneousFix(lines, vs, prevLine, prevCount).Success?
    ensures |ExtraneousFix(lines, vs, prevLine, prevCount).value| == |lines|
    ensures && vs[k].atPosition.Some? && 1 <= vs[k].lineNumber <= |lines|
            && WhitespaceRemoval(lines[vs[k].lineNumber - 1], vs[k].atPosition.value).Success?
            && ExtraneousFix(lines, vs, prevLine, prevCount).value[vs[k].lineNumber - 1]
               == WhitespaceRemoval(lines[vs[k].lineNumber - 1], vs[k].atPosition.value).value.line
  {
    ExtraneousFixDistinctAt(lines, vs, prevLine, prevCount, k, vs[k].lineNumber - 1, vs[k].atPosition.value,
                            lines[vs[k].lineNumber - 1]);
  }

  /** One record's step, then the correction of the rest. */
  lemma ExtraneousFixCons(lines: seq<string>, vs: seq<Violation>, prevLine: Option<int>, prevCount: int,
                          step: Rewrite)
    requires vs != [] && ExtraneousStep(lines, vs[0], prevLine, prevCount) == Success(step)
    ensures ExtraneousFix(lines, vs, prevLine, prevCount)
         == ExtraneousFix(step.lines, vs[1..], Some(step.lineNumber), step.count)
  {
  }

  /**
   * Reference for the records that share one line, applied to that line's text `s`: each
   * removal starts at the record's column moved left by what the removal just before it on the
   * line counted (`prevCount`), not by the sum of all earlier counts on the line.
   */
  function LineRemovals(s: string, vs: seq<Violation>, prevCount: int): Result<string, PyException>
    decreases |vs|
  {
    if vs == [] then Success(s)
    else if vs[0].atPosition.None? then Failure(KeyError)
    else
      var removal :- WhitespaceRemoval(s, vs[0].atPosition.value - prevCount);
      LineRemovals(removal.line, vs[1..], removal.count)
  }

  /** Writing the same list index twice keeps only the second write. */
  lemma UpdateTwice<T>(s: seq<T>, i: nat, a: T, b: T)
    requires i < |s|
    ensures s[i := a][i := b] == s[i := b]
  {
  }

  /**
   * Records that all address line `ln` (list index `i`, whose text is now `s`), the previous
   * record having been on that line too or having counted nothing: the correction rewrites
   * line `i` as `LineRemovals` does, fails as it does, and leaves every other line alone.
   */
  lemma {:induction false} SameLineFix(base: seq<string>, vs: seq<Violation>, ln: int, prevLine: Option<int>,
                                       prevCount: int, i: nat, s: string)
    requires i == ln - 1 && i < |base|
    requires forall k :: 0 <= k < |vs| ==> vs[k].lineNumber == ln
    requires prevLine == Some(ln) || prevCount == 0
    ensures ExtraneousFix(base[i := s], vs, prevLine, prevCount)
         == match LineRemovals(s, vs, prevCount)
            case Success(t) => Success(base[i := t])
            case Failure(e) => Failure(e)
    decreases |vs|, 1
  {
    if vs != [] && vs[0].atPosition.Some? {
      match WhitespaceRemoval(s, vs[0].atPosition.value - prevCount)
      case Failure(e) =>
        assert vs[0].lineNumber == ln && s == base[i := s][i];
      case Success(removal) =>
        SameLineStep(base, vs, ln, prevLine, prevCount, i, s, removal);
    }
  }

  /** The step of `SameLineFix` for a first record whose removal succeeds as `removal`. */
  lemma {:induction false} SameLineStep(base: seq<string>, vs: seq<Violation>, ln: int, prevLine: Option<int>,
                                        prevCount: int, i: nat, s: string, removal: Removal)
    requires i == ln - 1 && i < |base|
    requires forall k :: 0 <= k < |vs| ==> vs[k].lineNumber == ln
    requires prevLine == Some(ln) || prevCount == 0
    requires vs != [] && vs[0].atPosition.Some?
    requires WhitespaceRemoval(s, vs[0].atPosition.value - prevCount) == Success(removal)
    ensures ExtraneousFix(base[i := s], vs, prevLine, prevCount)
         == match LineRemovals(s, vs, prevCount)
            case Success(t) => Success(base[i := t])
            case Failure(e) => Failure(e)
    decreases |vs|, 0
  {
    var v, lines := vs[0], base[i := s];
    assert v.lineNumber == ln && s == lines[i];
    ExtraneousFixFirstAt(lines, vs, v, prevLine, prevCount, i, v.atPosition.value - prevCount, s, removal);
    UpdateTwice(base, i, s, removal.line);
    assert forall k :: 0 <= k < |vs[1..]| ==> vs[1..][k] == vs[k + 1];
    SameLineFix(base, vs[1..], ln, Some(ln), removal.count, i, removal.line);
  }

  /**
   * `extraneous_whitespace_corrective_action` on records that all address line `ln`: only that
   * line changes, and it ends up as `LineRemovals` leaves it, the first column unshifted.
   */
  lemma ExtraneousFixOneLine(lines: seq<string>, vs: seq<Violation>, ln: int)
    requires 1 <= ln <= |lines|
    requires forall k :: 0 <= k < |vs| ==> vs[k].lineNumber == ln
    ensures ExtraneousFix(lines, vs, None, 0)
         == match LineRemovals(lines[ln - 1], vs, 0)
            case Success(t) => Success(lines[ln - 1 := t])
            case Failure(e) => Failure(e)
  {
    assert lines[ln - 1 := lines[ln - 1]] == lines;
    SameLineFix(lines, vs, ln, None, 0, ln - 1, lines[ln - 1]);
  }

  /**
   * A first record `v` on list index `i` (original text `s`) whose removal at the shifted column
   * `at` succeeds: the correction is that of the rest on the rewritten lines.
   */
  lemma ExtraneousFixFirstAt(lines: seq<string>, vs: seq<Violation>, v: Violation, prevLine: Option<int>, prevCount: int,
                             i: nat, at: int, s: string, removal: Removal)
    requires vs != [] && vs[0] == v && v.atPosition.Some?
    requires at == if prevLine == Some(v.lineNumber) then v.atPosition.value - prevCount else v.atPosition.value
    requires i == v.lineNumber - 1 && i < |lines| && s == lines[i]
    requires WhitespaceRemoval(s, at) == Success(removal)
    ensures ExtraneousFix(lines, vs, prevLine, prevCount)
         == ExtraneousFix(lines[i := removal.line], vs[1..], Some(v.lineNumber), removal.count)
  {
    ExtraneousStepAt(lines, v, prevLine, prevCount, i, at, removal);
    ExtraneousFixCons(lines, vs, prevLine, prevCount, Rewrite(lines[i := removal.line], v.lineNumber, removal.count));
  }

  /** `extraneous_whitespace_corrective_action`: one whitespace removal per record, in record order. */
  method ExtraneousWhitespaceCorrectiveAction(content: seq<string>, vs: seq<Violation>)
    returns (r: Result<seq<string>, PyException>)
    ensures r == ExtraneousFix(content, vs, None, 0)
  {
    var lines := content;
    var prevLineNumber: Option<int> := None;
    var prevCount := 0;
    for k := 0 to |vs|
      invariant ExtraneousFix(lines, vs[k..], prevLineNumber, prevCount) == ExtraneousFix(content, vs, None, 0)
    {
      assert vs[k..][1..] == vs[k + 1..];
      var step := RewriteLine(lines, vs[k], prevLineNumber, prevCount);
      if step.Failure? {
        return Failure(step.error);
      }
      lines := step.value.lines;
      prevLineNumber := Some(step.value.lineNumber);
      prevCount := step.value.count;
    }
    r := Success(lines);
  }

  /** The loop body of `extraneous_whitespace_corrective_action` for one record. */
  method RewriteLine(lines: seq<string>, v: Violation, prevLineNumber: Option<int>, prevCount: int)
    returns (r: Result<Rewrite, PyException>)
    ensures r == ExtraneousStep(lines, v, prevLineNumber, prevCount)
  {
    var lineNumber := v.lineNumber;
    if v.atPosition.None? {
      return Failure(KeyError);
    }
    var atPosition := v.atPosition.value;
    if prevLineNumber == Some(lineNumber) {
      atPosition := atPosition - prevCount;
    }
    var i := PyIndex(|lines|, lineNumber - 1);
    if i.None? {
      return Failure(IndexError);
    }
    var removal := RemoveWhitespaceAndCount(lines[i.value], atPosition);
    if removal.Failure? {
      return Failure(removal.error);
    }
    r := Success(Rewrite(lines[i.value := removal.value.line], lineNumber, removal.value.count));
  }
}
