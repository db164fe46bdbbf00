/**
 * Why one pass of `multiple_imports_corrective_action` leaves nothing for
 * `multiple_imports_check` to flag: every unflagged line is kept as it is, and every
 * statement a flagged line is split into holds no comma at all.
 */
module MultipleImportsProof {
  import opened Wrappers
  import opened PyText
  import opened Diagnostics
  import opened Violations
  import opened CorrectiveActions

  /** Whether `pat` occurs in `s` starting at index `j`. */
  predicate OccursAt(s: string, pat: string, j: int) {
    0 <= j && j + |pat| <= |s| && s[j..j + |pat|] == pat
  }

  /** An occurrence in the text without its first character is one a step further in the text. */
  lemma OccursInTail(s: string, pat: string, j: nat)
    requires s != []
    ensures OccursAt(s[1..], pat, j) <==> OccursAt(s, pat, j + 1)
  {
    if j + |pat| <= |s[1..]| {
      var shifted, window := s[1..][j..j + |pat|], s[j + 1..j + 1 + |pat|];
      forall k | 0 <= k < |pat| ensures shifted[k] == window[k] {
        assert s[1..][j + k] == s[j + 1 + k];
      }
      assert shifted == window;
    }
  }

  /** `PrefixBefore` stops at the first place the pattern occurs. */
  lemma {:induction false} PrefixBeforeFirst(s: string, pat: string, i: nat)
    requires pat != []
    requires OccursAt(s, pat, i)
    requires forall j :: 0 <= j < i ==> !OccursAt(s, pat, j)
    ensures PrefixBefore(s, pat) == s[..i]
    decreases i
  {
    if i > 0 {
      assert !OccursAt(s, pat, 0);
      OccursInTail(s, pat, i - 1);
      forall j | 0 <= j < i - 1
        ensures !OccursAt(s[1..], pat, j)
      {
        assert !OccursAt(s, pat, j + 1);
        OccursInTail(s, pat, j);
      }
      PrefixBeforeFirst(s[1..], pat, i - 1);
      assert s[..i] == [s[0]] + s[1..][..i - 1] by {
        forall k | 0 <= k < i ensures s[..i][k] == ([s[0]] + s[1..][..i - 1])[k] {
          if k > 0 { assert s[1..][..i - 1][k - 1] == s[k]; }
        }
      }
    }
  }

  /** The indentation the corrector copies from a flagged line is that line's leading whitespace. */
  lemma IndentationOfFlagged(line: string)
    requires MultipleImportsMatch(line)
    ensures PrefixBefore(line, "import") == line[..LeadingSpaces(line)]
    ensures ',' !in PrefixBefore(line, "import")
  {
    var i := LeadingSpaces(line);
    forall j | 0 <= j < i
      ensures !OccursAt(line, "import", j)
    {
      assert line[..i][j] == line[j];
      if j + 6 <= |line| {
        assert line[j..j + 6][0] == line[j] != 'i';
      }
    }
    PrefixBeforeFirst(line, "import", i);
    assert forall j :: 0 <= j < i ==> line[..i][j] != ',' by {
      forall j | 0 <= j < i ensures line[..i][j] != ',' {
        assert IsSpace(line[..i][j]);
      }
    }
  }

  /** The pattern's tail can only succeed on text that holds a comma. */
  lemma {:induction false} CommaBeforeHashNeedsComma(rest: string)
    requires ',' !in rest
    ensures !CommaBeforeHash(rest, false)
    decreases |rest|
  {
    if rest != [] {
      assert forall c :: c in rest[1..] ==> c in rest;
      CommaBeforeHashNeedsComma(rest[1..]);
    }
  }

  /** A line with no comma is never flagged. */
  lemma CommaFreeNeverFlagged(line: string)
    requires ',' !in line
    ensures !MultipleImportsMatch(line)
  {
    var i := LeadingSpaces(line);
    if i + 7 <= |line| {
      assert forall c :: c in line[i + 7..] ==> c in line;
      CommaBeforeHashNeedsComma(line[i + 7..]);
    }
  }

  /** A comma-free head, then comma-free text, then a newline: no comma anywhere. */
  lemma CommaFreeStatement(statement: string, head: string)
    requires head <= statement && |head| < |statement|
    requires ',' !in head
    requires ',' !in statement[|head|..|statement| - 1]
    requires statement[|statement| - 1] == '\n'
    ensures ',' !in statement
  {
    forall p | 0 <= p < |statement|
      ensures statement[p] != ','
    {
      if p < |head| {
        assert statement[p] == head[p];
      } else if p < |statement| - 1 {
        assert statement[p] == statement[|head|..|statement| - 1][p - |head|];
      }
    }
  }

  /**
   * A statement made of a flagged line's indentation, `import `, comma-free text and a
   * newline is not flagged.
   */
  lemma StatementShapeNotFlagged(line: string, statement: string, head: string)
    requires MultipleImportsMatch(line)
    requires head == PrefixBefore(line, "import") + "import "
    requires head <= statement && |head| < |statement| && statement[|statement| - 1] == '\n'
    requires ',' !in statement[|head|..|statement| - 1]
    ensures !MultipleImportsMatch(statement)
  {
    var indentation := PrefixBefore(line, "import");
    assert ',' !in head by {
      IndentationOfFlagged(line);
      assert forall c :: c in head ==> c in indentation || c in "import ";
    }
    CommaFreeStatement(statement, head);
    CommaFreeNeverFlagged(statement);
  }

  /** Each statement a flagged line is split into is no longer flagged. */
  lemma ExpandedStatementNotFlagged(line: string, statement: string)
    requires MultipleImportsMatch(line)
    requires statement in ExpandImportLine(line)
    ensures !MultipleImportsMatch(statement)
  {
    var head := PrefixBefore(line, "import") + "import ";
    ExpandImportLineStatements(line);
    StatementShapeNotFlagged(line, statement, head);
  }

  /** Every line of an expansion is an unflagged original line or part of a flagged one. */
  lemma {:induction false} ExpandAtOrigin(lines: seq<string>, flagged: set<int>, first: int,
                                          expand: string -> seq<string>, x: string)
    requires x in ExpandAt(lines, flagged, first, expand)
    ensures exists k :: 0 <= k < |lines| && (if first + k in flagged then x in expand(lines[k]) else x == lines[k])
    decreases |lines|
  {
    var here := if first in flagged then expand(lines[0]) else [lines[0]];
    if x in here {
      assert 0 < |lines| && (if first + 0 in flagged then x in expand(lines[0]) else x == lines[0]);
    } else {
      assert x in ExpandAt(lines[1..], flagged, first + 1, expand);
      ExpandAtOrigin(lines[1..], flagged, first + 1, expand, x);
      var k :| 0 <= k < |lines[1..]| &&
        (if first + 1 + k in flagged then x in expand(lines[1..][k]) else x == lines[1..][k]);
      assert lines[1..][k] == lines[k + 1];
      assert first + (k + 1) == first + 1 + k;
    }
  }

  /** No line of the corrected document is flagged: neither a kept line nor a split statement. */
  lemma FixedLineNotFlagged(doc: seq<string>, rs: seq<Violation>, x: string)
    requires rs == MultipleImportsRecords(doc)
    requires x in ExpandAt(doc, LineSet(rs), 1, ExpandImportLine)
    ensures !MultipleImportsMatch(x)
  {
    ExpandAtOrigin(doc, LineSet(rs), 1, ExpandImportLine, x);
    var k :| 0 <= k < |doc| && (if 1 + k in LineSet(rs) then x in ExpandImportLine(doc[k]) else x == doc[k]);
    if 1 + k in LineSet(rs) {
      MultipleImportsRecordsSound(doc);
      var m :| 0 <= m < |rs| && rs[m].lineNumber == 1 + k;
      assert rs[m] in rs;
      ExpandedStatementNotFlagged(doc[k], x);
    } else {
      MultipleImportsRecordsComplete(doc);
      assert k + 1 !in LineNumbers(rs) by {
        forall m | 0 <= m < |rs|
          ensures LineNumbers(rs)[m] != k + 1
        {
          assert rs[m].lineNumber in LineSet(rs);
        }
      }
    }
  }

  /**
   * One pass of the corrector over the records of `multiple_imports_check` succeeds, expands
   * exactly the flagged lines, and leaves a document in which no line is flagged.
   */
  lemma MultipleImportsFixClears(doc: seq<string>)
    ensures var rs := MultipleImportsRecords(doc);
      && MultipleImportsFix(doc, rs, 0, ExpandImportLine)
           == Success(ExpandAt(doc, LineSet(rs), 1, ExpandImportLine))
      && MultipleImportsOutput(ExpandAt(doc, LineSet(rs), 1, ExpandImportLine)) == NoneOutput
  {
    var rs := MultipleImportsRecords(doc);
    MultipleImportsRecordsAscending(doc);
    forall k | 0 <= k < |rs|
      ensures 1 <= rs[k].lineNumber <= |doc|
    {
      assert rs[k] in rs;
    }
    forall x: string
      ensures ExpandImportLine(x) != []
    {
      assert |ExpandImportLine(x)| >= 1;
    }
    MultipleImportsFixExpands(doc, rs, ExpandImportLine);
    var fixed := ExpandAt(doc, LineSet(rs), 1, ExpandImportLine);
    forall j | 0 <= j < |fixed|
      ensures !MultipleImportsMatch(fixed[j])
    {
      FixedLineNotFlagged(doc, rs, fixed[j]);
    }
  }
}
