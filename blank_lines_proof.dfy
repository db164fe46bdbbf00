/**
 * What `blank_lines_corrective_action` achieves on the records the blank-line detector
 * produces: every flagged definition ends up with exactly the expected number of blank
 * lines above it, at the position the running offset predicts, and every line outside the
 * resized blank runs is kept, in order (`Respaced`).
 */
module BlankLinesProof {
  import opened Wrappers
  import opened PyText
  import opened Diagnostics
  import opened Violations
  import opened CorrectiveActions

  /** A record as `calculate_blank_lines` builds it for a (non-blank) definition line of `doc`. */
  predicate Detected(doc: seq<string>, v: Violation) {
    && 1 <= v.lineNumber <= |doc|
    && !IsBlankLine(doc[v.lineNumber - 1])
    && v.expected.Some? && v.expected.value >= 0
    && v.received == Some(BlankLinesAbove(doc, v.lineNumber))
  }

  /**
   * The records, in order, each with its blank run starting at or after `c` (the index just
   * past the previous record's definition line), so that no two corrections overlap.
   */
  predicate Spaced(doc: seq<string>, vs: seq<Violation>, c: nat)
    decreases |vs|
  {
    vs == [] ||
    (var v := vs[0];
     && v.expected.Some? && v.expected.value >= 0 && v.received.Some?
     && 1 <= v.lineNumber <= |doc|
     && v.received.value == BlankLinesAbove(doc, v.lineNumber)
     && c + v.received.value < v.lineNumber
     && Spaced(doc, vs[1..], v.lineNumber))
  }

  /**
   * Record `k` is corrected in `out`: its definition line, shifted by `offset` and by the
   * lines the records up to and including it added or removed, is the original line and has
   * exactly the expected number of blank lines above it.
   */
  predicate Restored(out: seq<string>, doc: seq<string>, vs: seq<Violation>, k: int, offset: int)
    requires 0 <= k < |vs|
  {
    var at := vs[k].lineNumber + offset + DiffSum(vs[..k + 1]);
    && 1 <= vs[k].lineNumber <= |doc|
    && 1 <= at <= |out|
    && out[at - 1] == doc[vs[k].lineNumber - 1]
    && vs[k].expected == Some(BlankLinesAbove(out, at))
  }

  /** Every record is corrected in `out`. */
  predicate AllRestored(out: seq<string>, doc: seq<string>, vs: seq<Violation>, offset: int) {
    forall k :: 0 <= k < |vs| ==> Restored(out, doc, vs, k, offset)
  }

  /** A run of exactly `m` blank lines directly above index `i`. */
  lemma {:induction false} BlankRunExact(x: seq<string>, i: nat, m: nat)
    requires m <= i <= |x|
    requires forall k :: i - m <= k < i ==> IsBlankLine(x[k])
    requires m == i || !IsBlankLine(x[i - m - 1])
    ensures BlankRun(x, i) == m
    decreases m
  {
    if m > 0 {
      BlankRunExact(x, i - 1, m - 1);
    }
  }

  /** The blank run above index `i` depends only on the lines before `i`. */
  lemma {:induction false} BlankRunPrefix(x: seq<string>, y: seq<string>, i: nat)
    requires i <= |x| && i <= |y| && x[..i] == y[..i]
    ensures BlankRun(x, i) == BlankRun(y, i)
    decreases i
  {
    if i > 0 {
      assert x[i - 1] == x[..i][i - 1] == y[i - 1];
      assert x[..i - 1] == x[..i][..i - 1] == y[..i - 1];
      BlankRunPrefix(x, y, i - 1);
    }
  }

  /** Lines `p`, then the blank lines `q`, then a line: that line has `|q|` blank lines above it. */
  lemma RunAbove(x: seq<string>, p: seq<string>, q: seq<string>, s: seq<string>, i: int)
    requires forall k :: 0 <= k < |q| ==> IsBlankLine(q[k])
    requires p == [] || !IsBlankLine(p[|p| - 1])
    requires s != [] && x == p + q + s && i == |p| + |q| + 1
    ensures BlankLinesAbove(x, i) == |q|
  {
    forall k | |p| <= k < |p| + |q|
      ensures IsBlankLine(x[k])
    {
      assert x[k] == q[k - |p|];
    }
    if |q| < |p| + |q| {
      assert x[|p| + |q| - |q| - 1] == p[|p| - 1];
    }
    BlankRunExact(x, |p| + |q|, |q|);
  }

  lemma NewlineIsBlank()
    ensures IsBlankLine("\n")
  {
    StripEmptyIffAllSpace("\n");
  }

  /**
   * The blank run above a definition resized to `expected` lines: the first `expected` of
   * the old run when it shrinks, the old run followed by new `'\n'` lines when it grows.
   */
  function NewRun(run: seq<string>, expected: nat): (r: seq<string>)
    ensures |r| == expected
  {
    if expected > |run| then run + Blanks(expected - |run|) else run[..expected]
  }

  /** One record's edit on lines `p`, then the run, then the definition line and what follows. */
  lemma RespaceBlock(L: seq<string>, P: seq<string>, run: seq<string>, S: seq<string>, n: int, expected: nat,
                     diff: int)
    requires L == P + run + S && S != []
    requires n == |P| + |run| + 1 && diff == expected - |run|
    ensures Respace(L, n, diff) == Success(P + NewRun(run, expected) + S)
  {
    if diff > 0 {
      InsertEachIsBlock(L, n - 1, Blanks(diff));
      assert L[..n - 1] == P + run;
      assert L[n - 1..] == S;
      assert NewRun(run, expected) == run + Blanks(diff);
      assert P + run + Blanks(diff) + S == P + (run + Blanks(diff)) + S;
    } else if diff < 0 {
      DeleteAboveIsBlock(L, n - 2, -diff);
      assert L[..n - 2 + 1 - -diff] == P + run[..expected];
      assert L[n - 2 + 1..] == S;
    } else {
      assert run[..expected] == run;
    }
  }

  /** The new run is blank when the old one was. */
  lemma NewRunBlank(run: seq<string>, expected: nat)
    requires forall k :: 0 <= k < |run| ==> IsBlankLine(run[k])
    ensures forall k :: 0 <= k < expected ==> IsBlankLine(NewRun(run, expected)[k])
  {
    NewlineIsBlank();
  }

  /**
   * The lines from index `c` up to and including the definition line `ln`, with the
   * `received` blank lines above the definition resized to `expected` lines.
   */
  function Resized(doc: seq<string>, c: nat, ln: int, received: nat, expected: nat): seq<string>
    requires c + received < ln <= |doc|
  {
    doc[c..ln - 1 - received] + NewRun(doc[ln - 1 - received..ln - 1], expected) + [doc[ln - 1]]
  }

  /** The corrected lines up to and including the definition line `ln`. */
  function Corrected(done: seq<string>, doc: seq<string>, c: nat, ln: int, received: nat, expected: nat)
    : seq<string>
    requires c + received < ln <= |doc|
  {
    done + doc[c..ln - 1 - received] + NewRun(doc[ln - 1 - received..ln - 1], expected) + [doc[ln - 1]]
  }

  /** How the corrected prefix and the document around one record fit together. */
  lemma CorrectedShape(done: seq<string>, doc: seq<string>, c: nat, ln: int, received: nat, expected: nat)
    requires c + received < ln <= |doc|
    ensures var i := ln - 1 - received;
      var P, run, S := done + doc[c..i], doc[i..ln - 1], doc[ln - 1..];
      var p := Corrected(done, doc, c, ln, received, expected);
      && done + doc[c..] == P + run + S
      && p == P + NewRun(run, expected) + [doc[ln - 1]]
      && P + NewRun(run, expected) + S == p + doc[ln..]
      && done <= p
      && (i > c ==> P[|P| - 1] == doc[i - 1])
      && (i == c ==> P == done)
  {
    var i := ln - 1 - received;
    var P, run, S := done + doc[c..i], doc[i..ln - 1], doc[ln - 1..];
    assert doc[c..] == doc[c..i] + run + S;
    assert S == [doc[ln - 1]] + doc[ln..];
    var p := Corrected(done, doc, c, ln, received, expected);
    assert p[..|done|] == done;
  }

  /** The blank run above line `ln` and the line just above it. */
  lemma BlankRunFacts(doc: seq<string>, ln: int, received: nat, run: seq<string>)
    requires received < ln <= |doc|
    requires received == BlankLinesAbove(doc, ln)
    requires run == doc[ln - 1 - received..ln - 1]
    ensures forall k :: 0 <= k < |run| ==> IsBlankLine(run[k])
    ensures ln - 1 - received > 0 ==> !IsBlankLine(doc[ln - 2 - received])
  {
    if ln >= 2 {
      BlankRunIsMaximal(doc, ln - 1);
    }
    forall k | 0 <= k < |run|
      ensures IsBlankLine(run[k])
    {
      assert run[k] == doc[ln - 1 - received + k];
    }
  }

  /** A resized run of blank lines between a non-blank line and a definition is the whole run above it. */
  lemma ResizedRunAbove(P: seq<string>, run: seq<string>, def: string, expected: nat)
    requires forall k :: 0 <= k < |run| ==> IsBlankLine(run[k])
    requires P == [] || !IsBlankLine(P[|P| - 1])
    ensures var p := P + NewRun(run, expected) + [def];
      BlankLinesAbove(p, |p|) == expected
  {
    var q := NewRun(run, expected);
    NewRunBlank(run, expected);
    RunAbove(P + q + [def], P, q, [def], |P| + |q| + 1);
  }

  /** The lines kept above a blank run end with a non-blank line, if there are any. */
  lemma PrefixEndsNonBlank(P: seq<string>, done: seq<string>, doc: seq<string>, c: nat, i: nat)
    requires c <= i <= |doc|
    requires i > c ==> P != [] && P[|P| - 1] == doc[i - 1]
    requires i == c ==> P == done
    requires (c == 0 && done == []) || (c > 0 && done != [] && done[|done| - 1] == doc[c - 1])
    requires i > 0 ==> !IsBlankLine(doc[i - 1])
    ensures P == [] || !IsBlankLine(P[|P| - 1])
  {
  }

  /** The corrector's edit for one record turns the lines into the corrected prefix and the rest of `doc`. */
  lemma RespaceInPlace(done: seq<string>, doc: seq<string>, c: nat, offset: int, ln: int, received: nat,
                       expected: nat)
    requires offset == |done| - c
    requires c + received < ln <= |doc|
    ensures Respace(done + doc[c..], ln + offset, expected - received)
         == Success(Corrected(done, doc, c, ln, received, expected) + doc[ln..])
  {
    var i := ln - 1 - received;
    CorrectedShape(done, doc, c, ln, received, expected);
    RespaceBlock(done + doc[c..], done + doc[c..i], doc[i..ln - 1], doc[ln - 1..], ln + offset, expected,
                 expected - received);
  }

  /**
   * One record, applied to a document whose lines before `c` are already corrected (`done`):
   * in the corrected prefix the definition line has exactly `expected` blank lines above it,
   * and the already corrected part is kept.
   */
  lemma CorrectedRun(done: seq<string>, doc: seq<string>, c: nat, ln: int, received: nat, expected: nat)
    requires c + received < ln <= |doc|
    requires received == BlankLinesAbove(doc, ln)
    requires (c == 0 && done == []) || (c > 0 && done != [] && done[|done| - 1] == doc[c - 1])
    ensures var p := Corrected(done, doc, c, ln, received, expected);
      && |p| == |done| + (ln - c) + (expected - received)
      && p != []
      && done <= p
      && p[|p| - 1] == doc[ln - 1]
      && BlankLinesAbove(p, |p|) == expected
  {
    var i := ln - 1 - received;
    var P, run := done + doc[c..i], doc[i..ln - 1];
    var p := Corrected(done, doc, c, ln, received, expected);
    CorrectedShape(done, doc, c, ln, received, expected);
    BlankRunFacts(doc, ln, received, run);
    PrefixEndsNonBlank(P, done, doc, c, i);
    ResizedRunAbove(P, run, doc[ln - 1], expected);
    assert p == P + NewRun(run, expected) + [doc[ln - 1]];
    assert |p| == |done| + (i - c) + expected + 1;
  }

  /** One step of the corrector's recursion, for a record with both counts. */
  lemma BlankLinesFixUnfold(lines: seq<string>, vs: seq<Violation>, offset: int)
    requires vs != [] && vs[0].expected.Some? && vs[0].received.Some?
    requires Respace(lines, vs[0].lineNumber + offset, vs[0].expected.value - vs[0].received.value).Success?
    ensures BlankLinesFix(lines, vs, offset)
         == BlankLinesFix(Respace(lines, vs[0].lineNumber + offset, vs[0].expected.value - vs[0].received.value).value,
                          vs[1..], offset + (vs[0].expected.value - vs[0].received.value))
  {
  }

  /** The first record is corrected once its corrected prefix `p` is a prefix of the output. */
  lemma RestoredHead(out: seq<string>, doc: seq<string>, vs: seq<Violation>, offset: int, p: seq<string>)
    requires vs != [] && 1 <= vs[0].lineNumber <= |doc| && vs[0].expected.Some? && vs[0].received.Some?
    requires |p| == vs[0].lineNumber + offset + (vs[0].expected.value - vs[0].received.value) >= 1
    requires p <= out
    requires p[|p| - 1] == doc[vs[0].lineNumber - 1]
    requires vs[0].expected == Some(BlankLinesAbove(p, |p|))
    ensures Restored(out, doc, vs, 0, offset)
  {
    assert vs[..1] == [vs[0]];
    assert DiffSum(vs[..1]) == vs[0].expected.value - vs[0].received.value;
    assert out[..|p|] == p;
    if |p| >= 2 {
      assert out[..|p| - 1] == p[..|p| - 1];
      BlankRunPrefix(out, p, |p| - 1);
    }
  }

  /** A later record's correction, seen from one record earlier. */
  lemma RestoredTail(out: seq<string>, doc: seq<string>, vs: seq<Violation>, k: int, offset: int)
    requires 0 < k < |vs| && vs[0].expected.Some? && vs[0].received.Some?
    requires Restored(out, doc, vs[1..], k - 1, offset + (vs[0].expected.value - vs[0].received.value))
    ensures Restored(out, doc, vs, k, offset)
  {
    assert vs[1..][k - 1] == vs[k];
    assert vs[..k + 1][1..] == vs[1..][..k];
    assert DiffSum(vs[..k + 1]) == vs[0].expected.value - vs[0].received.value + DiffSum(vs[1..][..k]);
  }

  /**
   * What correcting the first record leaves: the corrector continues from the corrected
   * prefix `p` followed by the original lines after the first definition, and in `p` that
   * definition has the expected blank lines above it.
   */
  predicate FirstCorrected(done: seq<string>, doc: seq<string>, vs: seq<Violation>, c: nat, offset: int,
                           p: seq<string>)
  {
    && c <= |doc|
    && vs != [] && vs[0].expected.Some? && vs[0].received.Some?
    && 1 <= vs[0].lineNumber <= |doc|
    && BlankLinesFix(done + doc[c..], vs, offset)
       == BlankLinesFix(p + doc[vs[0].lineNumber..], vs[1..], offset + (vs[0].expected.value - vs[0].received.value))
    && |p| == |done| + (vs[0].lineNumber - c) + (vs[0].expected.value - vs[0].received.value)
    && p != []
    && done <= p
    && p[|p| - 1] == doc[vs[0].lineNumber - 1]
    && BlankLinesAbove(p, |p|) == vs[0].expected.value
  }

  /** The first record's correction, with its corrected prefix `p`. */
  lemma FirstRecordCorrected(done: seq<string>, doc: seq<string>, vs: seq<Violation>, c: nat, offset: int,
                              p: seq<string>)
    requires c <= |doc| && offset == |done| - c
    requires vs != [] && Spaced(doc, vs, c)
    requires (c == 0 && done == []) || (c > 0 && done != [] && done[|done| - 1] == doc[c - 1])
    requires p == Corrected(done, doc, c, vs[0].lineNumber, vs[0].received.value, vs[0].expected.value)
    ensures FirstCorrected(done, doc, vs, c, offset, p)
  {
    var ln, received, expected := vs[0].lineNumber, vs[0].received.value, vs[0].expected.value;
    RespaceInPlace(done, doc, c, offset, ln, received, expected);
    CorrectedRun(done, doc, c, ln, received, expected);
    BlankLinesFixUnfold(done + doc[c..], vs, offset);
    assert FirstCorrected(done, doc, vs, c, offset, p);
  }

  /**
   * The document from index `c` on as the correction should leave it: the blank run above
   * each record's definition resized to the record's `expected` lines (`NewRun`), and every
   * other line kept, in order. A record whose counts are missing, negative or reach back past
   * `c` (which `Spaced` rules out) leaves the rest of the document as it is.
   */
  function Respaced(doc: seq<string>, vs: seq<Violation>, c: nat): seq<string>
    requires c <= |doc|
    decreases |vs|
  {
    if vs == [] then doc[c..]
    else
      var v := vs[0];
      if v.expected.Some? && v.received.Some? && v.expected.value >= 0 && v.received.value >= 0
         && c + v.received.value < v.lineNumber <= |doc|
      then Resized(doc, c, v.lineNumber, v.received.value, v.expected.value) + Respaced(doc, vs[1..], v.lineNumber)
      else doc[c..]
  }

  /**
   * Generalisation to every remaining record: the corrector, started on the corrected prefix
   * `done` followed by the original lines from `c`, corrects every record.
   */
  lemma {:induction false} BlankLinesFixFrom(done: seq<string>, doc: seq<string>, vs: seq<Violation>, c: nat,
                                            offset: int)
    requires c <= |doc| && offset == |done| - c
    requires Spaced(doc, vs, c)
    requires (c == 0 && done == []) || (c > 0 && done != [] && done[|done| - 1] == doc[c - 1])
    ensures var r := BlankLinesFix(done + doc[c..], vs, offset);
      && r.Success?
      && |r.value| == |done| + (|doc| - c) + DiffSum(vs)
      && done <= r.value
      && AllRestored(r.value, doc, vs, offset)
      && r.value == done + Respaced(doc, vs, c)
    decreases |vs|, 1
  {
    if vs != [] {
      var p := Corrected(done, doc, c, vs[0].lineNumber, vs[0].received.value, vs[0].expected.value);
      FirstRecordCorrected(done, doc, vs, c, offset, p);
      RespacedCons(done, doc, vs, c, p);
      BlankLinesFixAfter(done, doc, vs, c, offset, p);
    }
  }

  /** The induction step, once the first record's corrected prefix `p` is known. */
  lemma {:induction false} BlankLinesFixAfter(done: seq<string>, doc: seq<string>, vs: seq<Violation>, c: nat,
                                             offset: int, p: seq<string>)
    requires offset == |done| - c
    requires FirstCorrected(done, doc, vs, c, offset, p)
    requires Spaced(doc, vs[1..], vs[0].lineNumber)
    requires p + Respaced(doc, vs[1..], vs[0].lineNumber) == done + Respaced(doc, vs, c)
    ensures var r := BlankLinesFix(done + doc[c..], vs, offset);
      && r.Success?
      && |r.value| == |done| + (|doc| - c) + DiffSum(vs)
      && done <= r.value
      && AllRestored(r.value, doc, vs, offset)
      && r.value == done + Respaced(doc, vs, c)
    decreases |vs|, 0
  {
    var next := offset + (vs[0].expected.value - vs[0].received.value);
    BlankLinesFixFrom(p, doc, vs[1..], vs[0].lineNumber, next);
    var out := BlankLinesFix(p + doc[vs[0].lineNumber..], vs[1..], next).value;
    RestoredAll(out, doc, vs, offset, next, p);
    assert DiffSum(vs) == vs[0].expected.value - vs[0].received.value + DiffSum(vs[1..]);
    PrefixTransitive(done, p, out);
  }

  /** A corrected prefix is the earlier prefix followed by the resized lines. */
  lemma CorrectedIsResized(done: seq<string>, doc: seq<string>, c: nat, ln: int, received: nat, expected: nat)
    requires c + received < ln <= |doc|
    ensures Corrected(done, doc, c, ln, received, expected) == done + Resized(doc, c, ln, received, expected)
  {
  }

  /** The corrected prefix of the first record, then the rest resized, is the whole document resized. */
  lemma RespacedCons(done: seq<string>, doc: seq<string>, vs: seq<Violation>, c: nat, p: seq<string>)
    requires c <= |doc| && vs != [] && Spaced(doc, vs, c)
    requires p == Corrected(done, doc, c, vs[0].lineNumber, vs[0].received.value, vs[0].expected.value)
    ensures p + Respaced(doc, vs[1..], vs[0].lineNumber) == done + Respaced(doc, vs, c)
  {
    var head := Resized(doc, c, vs[0].lineNumber, vs[0].received.value, vs[0].expected.value);
    CorrectedIsResized(done, doc, c, vs[0].lineNumber, vs[0].received.value, vs[0].expected.value);
    AppendAssoc3(done, head, Respaced(doc, vs[1..], vs[0].lineNumber));
  }


  /** Every record is corrected once the first is and the others are, seen from one record on. */
  lemma RestoredAll(out: seq<string>, doc: seq<string>, vs: seq<Violation>, offset: int, next: int,
                    p: seq<string>)
    requires vs != [] && 1 <= vs[0].lineNumber <= |doc| && vs[0].expected.Some? && vs[0].received.Some?
    requires next == offset + (vs[0].expected.value - vs[0].received.value)
    requires |p| == vs[0].lineNumber + offset + (vs[0].expected.value - vs[0].received.value) >= 1
    requires p <= out
    requires p[|p| - 1] == doc[vs[0].lineNumber - 1]
    requires vs[0].expected == Some(BlankLinesAbove(p, |p|))
    requires forall k :: 0 <= k < |vs[1..]| ==> Restored(out, doc, vs[1..], k, next)
    ensures forall k :: 0 <= k < |vs| ==> Restored(out, doc, vs, k, offset)
  {
    forall k | 0 <= k < |vs|
      ensures Restored(out, doc, vs, k, offset)
    {
      if k == 0 {
        RestoredHead(out, doc, vs, offset, p);
      } else {
        RestoredTail(out, doc, vs, k, offset);
      }
    }
  }

  lemma PrefixTransitive<T>(a: seq<T>, b: seq<T>, c: seq<T>)
    requires a <= b && b <= c
    ensures a <= c
  {
  }

  /**
   * `blank_lines_corrective_action` on records the detector built for a document, in
   * ascending line order: it succeeds, the document grows by the sum of `expected - received`,
   * and every flagged definition is the same line, moved down by the lines added above it so
   * far, now with exactly the expected number of blank lines above it.
   */
  lemma BlankLinesCorrectionRestores(doc: seq<string>, vs: seq<Violation>)
    requires StrictlyAscending(vs)
    requires forall k :: 0 <= k < |vs| ==> Detected(doc, vs[k])
    ensures var r := BlankLinesFix(doc, vs, 0);
      && r.Success?
      && |r.value| == |doc| + DiffSum(vs)
      && (forall k :: 0 <= k < |vs| ==> Restored(r.value, doc, vs, k, 0))
      && r.value == Respaced(doc, vs, 0)
  {
    DetectedIsSpaced(doc, vs, 0);
    BlankLinesFixFrom([], doc, vs, 0, 0);
    assert [] + doc[0..] == doc;
  }

  /** Ascending records on non-blank definition lines never share blank lines. */
  lemma {:induction false} DetectedIsSpaced(doc: seq<string>, vs: seq<Violation>, c: nat)
    requires StrictlyAscending(vs)
    requires forall k :: 0 <= k < |vs| ==> Detected(doc, vs[k])
    requires vs != [] ==> c < vs[0].lineNumber
    requires c == 0 || (c <= |doc| && !IsBlankLine(doc[c - 1]))
    ensures Spaced(doc, vs, c)
    decreases |vs|
  {
    if vs != [] {
      var ln := vs[0].lineNumber;
      assert Detected(doc, vs[0]);
      if ln >= 2 {
        BlankRunIsMaximal(doc, ln - 1);
      }
      assert forall k :: 0 <= k < |vs[1..]| ==> vs[1..][k] == vs[k + 1];
      DetectedIsSpaced(doc, vs[1..], ln);
    }
  }

  /** Every line the rule examines is a non-blank line of the document, as a definition line is. */
  predicate DefLinesOnCode(doc: seq<string>, body: seq<Stmt>) {
    forall n :: n in TopLevelDefLines(body) + MethodLines(body) ==>
      1 <= n <= |doc| && !IsBlankLine(doc[n - 1])
  }

  /** No line is examined twice: two definitions never start on the same line. */
  predicate DistinctDefLines(body: seq<Stmt>) {
    var lines := TopLevelDefLines(body) + MethodLines(body);
    forall n :: n in lines ==> multiset(lines)[n] <= 1
  }

  /**
   * A record of the report comes from a top-level definition expecting two blank lines or
   * from a method expecting one, and records the blank lines actually above that line.
   */
  lemma ReportOrigin(doc: seq<string>, body: seq<Stmt>, v: Violation)
    requires DefLinesWithin(body, |doc|)
    requires v in BlankLineReport(doc, body)
    ensures var n := v.lineNumber;
      || (n in TopLevelDefLines(body) && v == BlankLineViolation(n, 2, BlankLinesAbove(doc, n)))
      || (n in MethodLines(body) && v == BlankLineViolation(n, 1, BlankLinesAbove(doc, n)))
  {
    var top, methods := TopLevelDefLines(body), MethodLines(body);
    MismatchesMeaning(doc, top, 2);
    MismatchesMeaning(doc, methods, 1);
    if v in Mismatches(doc, top, 2) {
      var k :| 0 <= k < |top| && BlankLinesAbove(doc, top[k]) != 2 && v == BlankLineViolation(top[k], 2, BlankLinesAbove(doc, top[k]));
    } else {
      var k :| 0 <= k < |methods| && BlankLinesAbove(doc, methods[k]) != 1 && v == BlankLineViolation(methods[k], 1, BlankLinesAbove(doc, methods[k]));
    }
  }

  /** Every record of the detector's report is a record `calculate_blank_lines` builds. */
  lemma ReportDetected(doc: seq<string>, body: seq<Stmt>, v: Violation)
    requires DefLinesWithin(body, |doc|) && DefLinesOnCode(doc, body)
    requires v in BlankLineReport(doc, body)
    ensures Detected(doc, v)
  {
    ReportOrigin(doc, body, v);
    assert v.lineNumber in TopLevelDefLines(body) + MethodLines(body);
  }

  /** With distinct definition lines, the report holds each record once. */
  lemma ReportCountedOnce(doc: seq<string>, body: seq<Stmt>, v: Violation)
    requires DefLinesWithin(body, |doc|) && DistinctDefLines(body)
    ensures multiset(BlankLineReport(doc, body))[v] <= 1
  {
    var top, methods := TopLevelDefLines(body), MethodLines(body);
    MismatchesCount(doc, top, 2, v);
    MismatchesCount(doc, methods, 1, v);
    if v.lineNumber in top + methods {
      assert multiset(top + methods)[v.lineNumber] <= 1;
    }
  }

  /** With distinct definition lines, two records of the report on one line are the same record. */
  lemma ReportOneRecordPerLine(doc: seq<string>, body: seq<Stmt>, v: Violation, w: Violation)
    requires DefLinesWithin(body, |doc|) && DistinctDefLines(body)
    requires v in BlankLineReport(doc, body) && w in BlankLineReport(doc, body)
    requires v.lineNumber == w.lineNumber
    ensures v == w
  {
    var top, methods := TopLevelDefLines(body), MethodLines(body);
    var n := v.lineNumber;
    assert multiset(top + methods)[n] == multiset(top)[n] + multiset(methods)[n];
    ReportOrigin(doc, body, v);
    ReportOrigin(doc, body, w);
  }

  /** A value at two positions of a sequence is counted at least twice. */
  lemma TwiceCounted(s: seq<Violation>, j: nat, k: nat)
    requires j < k < |s| && s[j] == s[k]
    ensures multiset(s)[s[j]] >= 2
  {
    assert s == s[..k] + s[k..];
    assert s[j] == s[..k][j];
    assert s[k] == s[k..][0];
  }

  /**
   * The report of `expected_blank_lines_check`, handed to `blank_lines_corrective_action`, is
   * fully corrected: the correction succeeds and every flagged definition ends up with the
   * expected number of blank lines above it, when definitions sit on distinct non-blank lines.
   */
  lemma DetectorReportRestored(doc: seq<string>, body: seq<Stmt>)
    requires DefLinesWithin(body, |doc|) && DefLinesOnCode(doc, body) && DistinctDefLines(body)
    ensures var out := ExpectedBlankLinesOutput(doc, body);
      out.ListOutput? ==>
        var r := BlankLinesFix(doc, out.items, 0);
        && r.Success?
        && |r.value| == |doc| + DiffSum(out.items)
        && (forall k :: 0 <= k < |out.items| ==> Restored(r.value, doc, out.items, k, 0))
        && r.value == Respaced(doc, out.items, 0)
  {
    var out := ExpectedBlankLinesOutput(doc, body);
    if out.ListOutput? {
      var items := out.items;
      var report := BlankLineReport(doc, body);
      forall k | 0 <= k < |items|
        ensures Detected(doc, items[k])
      {
        assert items[k] in multiset(report);
        ReportDetected(doc, body, items[k]);
      }
      forall j, k | 0 <= j < k < |items|
        ensures items[j].lineNumber < items[k].lineNumber
      {
        if items[j].lineNumber == items[k].lineNumber {
          assert items[j] in multiset(report) && items[k] in multiset(report);
          ReportOneRecordPerLine(doc, body, items[j], items[k]);
          TwiceCounted(items, j, k);
          ReportCountedOnce(doc, body, items[j]);
          assert false;
        }
      }
      BlankLinesCorrectionRestores(doc, items);
    }
  }
}
