/**
 * The driver: `FileHandler.analyze` alternates one detector and its corrector on the file
 * until the detector is satisfied or a safety counter runs out, and `run_pycodestyle` runs
 * the stages of `EXECUTION_LIST` in order.
 *
 * The file is the handler's `content` field (the lines `readlines` returns); reading it is
 * a read of the field and a corrector's `write_to_file` is an assignment to it. A detector
 * or corrector is a function value; one that raises returns `Failure`, and a corrector
 * that raises writes nothing.
 */
module FileHandling {
  import opened Wrappers
  import opened PyText
  import opened Diagnostics
  import opened Violations
  import opened CorrectiveActions
  import opened MultipleImportsProof

  type Document = seq<string>

  /** A detector: the file's lines to its return value, or the exception it raises. */
  type Check = Document -> Result<Output, PyException>

  /** A corrector: the lines and the detector's records to the lines it writes back. */
  type Fix = (Document, seq<Violation>) -> Result<Document, PyException>

  /** One entry of `EXECUTION_LIST`: a detector and its corrector. */
  datatype Stage = Stage(check: Check, fix: Fix)

  // ---------------------------------------------------------------------------------------
  // parse_pycodestyle_output
  // ---------------------------------------------------------------------------------------

  /** What `parse_pycodestyle_output` makes of a detector's value. */
  datatype Verdict =
    | Found              // `True`: a list (even an empty one), so the corrector runs
    | Clean              // `False`: the detector returned `None`
    | SystemExit(code: int)  // `sys.exit(1)` after the `TypeError` for a value that is not a list

  /**
   * `parse_pycodestyle_output`: `None` means clean, any list means violations were found,
   * and anything else ends the process with exit status 1.
   */
  function ParsePycodestyleOutput(output: Output): (r: Verdict)
    ensures r == Clean <==> output.NoneOutput?
    ensures r == Found <==> output.ListOutput?
    ensures r.SystemExit? <==> output.OtherOutput?
    ensures r.SystemExit? ==> r.code == 1
  {
    match output
    case NoneOutput => Clean
    case ListOutput(_) => Found
    case OtherOutput => SystemExit(1)
  }

  // ---------------------------------------------------------------------------------------
  // analyze
  // ---------------------------------------------------------------------------------------

  /** `analyze` stops before its tenth check: `if safety_step_count >= 10: break`. */
  const SafetyCap := 10

  /** How one `analyze` call ends. */
  datatype Outcome =
    | Converged               // the detector returned `None`
    | GaveUp                  // the safety counter reached its cap
    | Raised(error: PyException)  // the detector or the corrector raised
    | Exited(code: int)       // `parse_pycodestyle_output` called `sys.exit`

  /** The file after `analyze`, how it ended, and every version of the file the detector saw. */
  datatype Analysis = Analysis(content: Document, outcome: Outcome, seen: seq<Document>)

  /**
   * `analyze` from a safety counter of `count`: each round bumps the counter, gives up once it
   * reaches `SafetyCap`, and otherwise runs the detector on the file and, when it reports a
   * list, the corrector on the same lines and records.
   */
  function AnalyzeFrom(content: Document, stage: Stage, count: nat): Analysis
    decreases SafetyCap - count
  {
    if count + 1 >= SafetyCap then Analysis(content, GaveUp, [])
    else
      match stage.check(content)
      case Failure(e) => Analysis(content, Raised(e), [content])
      case Success(out) =>
        match ParsePycodestyleOutput(out)
        case Clean => Analysis(content, Converged, [content])
        case SystemExit(code) => Analysis(content, Exited(code), [content])
        case Found =>
          match stage.fix(content, out.items)
          case Failure(e) => Analysis(content, Raised(e), [content])
          case Success(next) =>
            var rest := AnalyzeFrom(next, stage, count + 1);
            Analysis(rest.content, rest.outcome, [content] + rest.seen)
  }

  /** The detector flagged `before` and the corrector turned it into `after`. */
  predicate FixedInto(stage: Stage, before: Document, after: Document) {
    && stage.check(before).Success?
    && stage.check(before).value.ListOutput?
    && stage.fix(before, stage.check(before).value.items) == Success(after)
  }

  /**
   * The run of one `analyze` call: the detector sees the file first, each later version is
   * what the corrector made of the one before, at most `SafetyCap - 1` checks happen, and the
   * file left behind is the last version seen or, when the counter ran out, the corrector's
   * last output.
   */
  lemma {:induction false} AnalyzeTrace(content: Document, stage: Stage, count: nat)
    requires count < SafetyCap
    ensures var a := AnalyzeFrom(content, stage, count);
      && |a.seen| <= SafetyCap - 1 - count
      && (a.seen != [] ==> a.seen[0] == content)
      && (forall k :: 0 <= k < |a.seen| - 1 ==> FixedInto(stage, a.seen[k], a.seen[k + 1]))
      && (a.outcome != GaveUp ==> a.seen != [] && a.content == a.seen[|a.seen| - 1])
      && (a.outcome == GaveUp ==> |a.seen| == SafetyCap - 1 - count)
      && (a.outcome == GaveUp && a.seen == [] ==> a.content == content)
      && (a.outcome == GaveUp && a.seen != [] ==> FixedInto(stage, a.seen[|a.seen| - 1], a.content))
    decreases SafetyCap - count
  {
    if count + 1 < SafetyCap {
      var a := AnalyzeFrom(content, stage, count);
      var r := stage.check(content);
      if r.Success? && r.value.ListOutput? && stage.fix(content, r.value.items).Success? {
        var next := stage.fix(content, r.value.items).value;
        var rest := AnalyzeFrom(next, stage, count + 1);
        AnalyzeTrace(next, stage, count + 1);
        assert a.seen == [content] + rest.seen;
        if rest.seen != [] {
          assert FixedInto(stage, a.seen[0], a.seen[1]);
          forall k | 1 <= k < |a.seen| - 1
            ensures FixedInto(stage, a.seen[k], a.seen[k + 1])
          {
            assert a.seen[k] == rest.seen[k - 1] && a.seen[k + 1] == rest.seen[k];
          }
        }
      }
    }
  }

  /** Why `analyze` stopped, read off the last version of the file the detector saw. */
  lemma {:induction false} AnalyzeOutcome(content: Document, stage: Stage, count: nat)
    requires count < SafetyCap
    ensures var a := AnalyzeFrom(content, stage, count);
      && (a.outcome == Converged ==> stage.check(a.content) == Success(NoneOutput))
      && (a.outcome.Exited? ==> stage.check(a.content) == Success(OtherOutput) && a.outcome.code == 1)
      && (a.outcome.Raised? ==>
            || stage.check(a.content) == Failure(a.outcome.error)
            || (&& stage.check(a.content).Success? && stage.check(a.content).value.ListOutput?
                && stage.fix(a.content, stage.check(a.content).value.items) == Failure(a.outcome.error)))
    decreases SafetyCap - count
  {
    if count + 1 < SafetyCap {
      var r := stage.check(content);
      if r.Success? && r.value.ListOutput? && stage.fix(content, r.value.items).Success? {
        AnalyzeOutcome(stage.fix(content, r.value.items).value, stage, count + 1);
      }
    }
  }

  // ---------------------------------------------------------------------------------------
  // run_pycodestyle
  // ---------------------------------------------------------------------------------------

  /** How `run_pycodestyle` ends. */
  datatype RunResult =
    | Completed            // every stage ran
    | AnalysisError        // a stage raised; re-raised as `CodeStyleAnalysisError`
    | Stopped(code: int)   // `sys.exit` inside a stage (not an `Exception`, so not caught)

  datatype Run = Run(content: Document, result: RunResult)

  /**
   * `run_pycodestyle` over `stages`: each stage analyses the file the previous one left;
   * an exception in a stage ends the run with `CodeStyleAnalysisError`, an exit ends it with
   * the exit status, and a stage that gives up lets the next one run.
   */
  function RunStages(content: Document, stages: seq<Stage>): Run
    decreases |stages|
  {
    if stages == [] then Run(content, Completed)
    else
      var a := AnalyzeFrom(content, stages[0], 0);
      match a.outcome
      case Raised(_) => Run(a.content, AnalysisError)
      case Exited(code) => Run(a.content, Stopped(code))
      case _ => RunStages(a.content, stages[1..])
  }

  /**
   * Running two lists of stages one after the other is running their concatenation: the
   * second list starts from the file the first left, and only if the first completed.
   */
  lemma {:induction false} RunStagesAppend(content: Document, first: seq<Stage>, second: seq<Stage>)
    ensures var r := RunStages(content, first);
      RunStages(content, first + second)
        == if r.result == Completed then RunStages(r.content, second) else r
    decreases |first|
  {
    if first == [] {
      assert first + second == second;
    } else {
      assert (first + second)[1..] == first[1..] + second;
      var a := AnalyzeFrom(content, first[0], 0);
      if !a.outcome.Raised? && !a.outcome.Exited? {
        RunStagesAppend(a.content, first[1..], second);
      }
    }
  }

  /** A run that completes went through every stage without an exception or an exit. */
  lemma {:induction false} RunStagesCompleted(content: Document, stages: seq<Stage>)
    requires RunStages(content, stages).result == Completed
    ensures forall k :: 0 <= k < |stages| ==>
      var before := RunStages(content, stages[..k]);
      && before.result == Completed
      && AnalyzeFrom(before.content, stages[k], 0).outcome in {Converged, GaveUp}
  {
    forall k | 0 <= k < |stages|
      ensures var before := RunStages(content, stages[..k]);
        && before.result == Completed
        && AnalyzeFrom(before.content, stages[k], 0).outcome in {Converged, GaveUp}
    {
      assert stages == stages[..k] + stages[k..];
      RunStagesAppend(content, stages[..k], stages[k..]);
      var before := RunStages(content, stages[..k]);
      var a := AnalyzeFrom(before.content, stages[k], 0);
      assert a.outcome.Raised? || a.outcome.Exited? || a.outcome in {Converged, GaveUp};
    }
  }

  // ---------------------------------------------------------------------------------------
  // EXECUTION_LIST
  // ---------------------------------------------------------------------------------------

  /**
   * The stages whose detector or corrector the repository does not define in the modelled
   * files; they are taken as given.
   */
  datatype Unmodelled = Unmodelled(
    trailingWhitespace: Stage,
    tabs: Stage,
    extraneousWhitespaceCheck: Check,
    missingWhitespace: Stage,
    whitespaceBeforeParameters: Stage,
    whitespaceAroundOperator: Stage,
    missingNewline: Stage)

  /**
   * `ast.parse` as the detectors use it: the imports in `ast.walk` order and the module's
   * top-level statements, or `SyntaxError`.
   */
  datatype Parser = Parser(
    walkImports: Document -> Result<seq<ImportNode>, PyException>,
    moduleBody: Document -> Result<seq<Stmt>, PyException>)

  /** `[imports_position_check, imports_position_corrective_action]`. */
  function ImportsPositionStage(parser: Parser): Stage {
    Stage(doc => (var imports :- parser.walkImports(doc); ImportsPositionCheck(imports)),
          ImportsPositionFix)
  }

  /** `[multiple_imports_check, multiple_imports_corrective_action]`. */
  const MultipleImportsStage: Stage :=
    Stage(doc => Success(MultipleImportsOutput(doc)),
          (doc, vs) => MultipleImportsFix(doc, vs, 0, ExpandImportLine))

  /**
   * `[expected_blank_lines_check, blank_lines_corrective_action]`. A definition line more than
   * one past the end of the file would make `calculate_blank_lines` index past the list.
   */
  function ExpectedBlankLinesStage(parser: Parser): Stage {
    Stage(doc => (var body :- parser.moduleBody(doc);
                  if DefLinesWithin(body, |doc|) then Success(ExpectedBlankLinesOutput(doc, body))
                  else Failure(IndexError)),
          (doc, vs) => BlankLinesFix(doc, vs, 0))
  }

  /** `EXECUTION_LIST`, in order. */
  function ExecutionList(u: Unmodelled, parser: Parser): (stages: seq<Stage>)
    ensures |stages| == 11
    ensures stages[0] == stages[9] == u.trailingWhitespace
    ensures stages[1] == u.tabs && stages[10] == u.missingNewline
    ensures stages[2].check == u.extraneousWhitespaceCheck
    ensures forall doc, vs :: stages[2].fix(doc, vs) == ExtraneousFix(doc, vs, None, 0)
    ensures stages[3] == u.missingWhitespace && stages[4] == u.whitespaceBeforeParameters
    ensures stages[5] == u.whitespaceAroundOperator
    ensures stages[6] == ImportsPositionStage(parser)
    ensures stages[7] == MultipleImportsStage
    ensures stages[8] == ExpectedBlankLinesStage(parser)
  {
    [ u.trailingWhitespace,
      u.tabs,
      Stage(u.extraneousWhitespaceCheck, (doc, vs) => ExtraneousFix(doc, vs, None, 0)),
      u.missingWhitespace,
      u.whitespaceBeforeParameters,
      u.whitespaceAroundOperator,
      ImportsPositionStage(parser),
      MultipleImportsStage,
      ExpectedBlankLinesStage(parser),
      u.trailingWhitespace,
      u.missingNewline ]
  }

  /**
   * The multiple-imports stage always converges after at most one correction: the first check
   * flags every `import a, b` line, the corrector splits each into one statement per module,
   * and the second check finds nothing.
   */
  lemma MultipleImportsStageConverges(doc: Document)
    ensures var a := AnalyzeFrom(doc, MultipleImportsStage, 0);
      && a.outcome == Converged
      && 1 <= |a.seen| <= 2
      && MultipleImportsOutput(a.content) == NoneOutput
      && a.content == ExpandAt(doc, LineSet(MultipleImportsRecords(doc)), 1, ExpandImportLine)
  {
    var rs := MultipleImportsRecords(doc);
    MultipleImportsFixClears(doc);
    var fixed := ExpandAt(doc, LineSet(rs), 1, ExpandImportLine);
    if rs == [] {
      assert LineSet(rs) == {};
      ExpandAtNothing(doc, {}, 1, ExpandImportLine);
    } else {
      assert MultipleImportsStage.check(doc) == Success(ListOutput(rs));
      assert MultipleImportsStage.fix(doc, rs) == Success(fixed);
      assert AnalyzeFrom(fixed, MultipleImportsStage, 1) == Analysis(fixed, Converged, [fixed]);
    }
  }

  // ---------------------------------------------------------------------------------------
  // The handler
  // ---------------------------------------------------------------------------------------

  /** `FileHandler`: one Python file, held as the list of its lines. */
  class FileHandler {
    const filePath: string
    var content: Document

    constructor (filePath: string, content: Document)
      ensures this.filePath == filePath && this.content == content
    {
      this.filePath := filePath;
      this.content := content;
    }

    /**
     * `analyze(callback_check, callback_fix)`: re-reads the file, checks it and corrects it
     * until the detector returns `None`, the safety counter reaches `SafetyCap`, or something
     * raises or exits.
     */
    method Analyze(stage: Stage) returns (outcome: Outcome)
      modifies this
      ensures content == AnalyzeFrom(old(content), stage, 0).content
      ensures outcome == AnalyzeFrom(old(content), stage, 0).outcome
    {
      ghost var goal := AnalyzeFrom(content, stage, 0);
      var status := true;
      var safetyStepCount := 0;
      outcome := Converged;
      while status
        invariant 0 <= safetyStepCount < SafetyCap
        invariant status ==> AnalyzeFrom(content, stage, safetyStepCount).content == goal.content
        invariant status ==> AnalyzeFrom(content, stage, safetyStepCount).outcome == goal.outcome
        invariant !status ==> content == goal.content && outcome == goal.outcome
        decreases SafetyCap - safetyStepCount
      {
        safetyStepCount := safetyStepCount + 1;
        if safetyStepCount >= SafetyCap {
          outcome := GaveUp;
          break;
        }
        var fileContent := content;
        var violations := stage.check(fileContent);
        if violations.Failure? {
          outcome := Raised(violations.error);
          return;
        }
        var verdict := ParsePycodestyleOutput(violations.value);
        if verdict.SystemExit? {
          outcome := Exited(verdict.code);
          return;
        }
        status := verdict == Found;
        if status {
          var fixed := stage.fix(fileContent, violations.value.items);
          if fixed.Failure? {
            outcome := Raised(fixed.error);
            return;
          }
          content := fixed.value;
        } else {
          outcome := Converged;
        }
      }
    }

    /**
     * `run_pycodestyle` over `stages` (`EXECUTION_LIST` in the source): analyses the file with
     * each stage in turn, turning the first exception into `CodeStyleAnalysisError`.
     */
    method RunPycodestyle(stages: seq<Stage>) returns (result: RunResult)
      modifies this
      ensures content == RunStages(old(content), stages).content
      ensures result == RunStages(old(content), stages).result
    {
      ghost var goal := RunStages(content, stages);
      var k := 0;
      while k < |stages|
        invariant 0 <= k <= |stages|
        invariant RunStages(content, stages[k..]) == goal
      {
        assert stages[k..][1..] == stages[k + 1..];
        var outcome := Analyze(stages[k]);
        if outcome.Raised? {
          return AnalysisError;
        }
        if outcome.Exited? {
          return Stopped(outcome.code);
        }
        k := k + 1;
      }
      result := Completed;
    }
  }
}
