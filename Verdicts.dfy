/**
 * The verdict the submission runner returns once the sandbox has run: a compile error,
 * an execution failure reported by the sandbox, or the outcome of comparing
 * each test's normalised output with its normalised expected output, with
 * the content of hidden tests redacted.
 */
module Verdicts {
  import opened Common
  import opened TestPrep
  import opened OutputNorm

  /** One entry of the `tests` list of the sandbox's result record; `None` is a missing field. */
  datatype ResultEntry = ResultEntry(name: Option<string>, status: Option<string>)

  /** The sandbox's parsed result record. */
  datatype SandboxResults = SandboxResults(verdict: Option<string>, tests: Option<seq<ResultEntry>>)

  datatype TestStatus = OK | WA

  /** One entry of the graded list; `None` is a field left undefined. */
  datatype TestReport = TestReport(
    name: string,
    status: TestStatus,
    output: Option<string>,
    expected: Option<string>,
    input: Option<string>)

  datatype FailKind = TimeLimit | RuntimeError

  /** The objects the job handler returns. */
  datatype Verdict =
    | NoTests(message: string)
    | CompileError(error: string)
    | ExecFailure(kind: FailKind, failedTest: Option<string>, runError: Option<string>, input: Option<string>)
    | Graded(accepted: bool, tests: seq<TestReport>)

  const NoTestsMessage := "No tests have been added to this task yet."

  /** The `verdict` field of each returned object. */
  function VerdictName(v: Verdict): string {
    match v
    case NoTests(_) => "No Tests"
    case CompileError(_) => "Compile Error"
    case ExecFailure(kind, _, _, _) => if kind == TimeLimit then "Time Limit Exceeded" else "Runtime Error"
    case Graded(accepted, _) => if accepted then "Accepted" else "Wrong Answer"
  }

  // ---------------------------------------------------------------------
  // Output comparison.

  /** The program's output for a test: the `outs/<safeName>.out` file, `""` when it cannot be read. */
  function OutputOf(outputs: map<string, string>, t: SafeTest): string {
    if t.safeName in outputs then outputs[t.safeName] else ""
  }

  /** A test passes when its normalised output equals its normalised expected output. */
  predicate Matches(t: SafeTest, outputs: map<string, string>) {
    Norm(OutputOf(outputs, t)) == Norm(t.test.expected)
  }

  predicate AllMatch(ps: seq<SafeTest>, outputs: map<string, string>) {
    forall i :: 0 <= i < |ps| ==> Matches(ps[i], outputs)
  }

  /** Whether each test matched, in order. */
  function Checks(ps: seq<SafeTest>, outputs: map<string, string>): (oks: seq<bool>)
    ensures |oks| == |ps|
    ensures forall i :: 0 <= i < |ps| ==> (oks[i] <==> Matches(ps[i], outputs))
  {
    seq(|ps|, i requires 0 <= i < |ps| => Matches(ps[i], outputs))
  }

  /** The entry the comparison loop pushes for one test, given whether it matched. */
  function Report(t: SafeTest, ok: bool, outputs: map<string, string>): (r: TestReport)
    ensures r.status == OK <==> ok
    ensures t.test.hidden ==> r == TestReport("hidden", r.status, None, None, None)
    ensures !t.test.hidden ==>
      && r.output == Some(OutputOf(outputs, t))
      && r.expected == Some(t.test.expected)
      && r.input == Some(t.test.input)
      && r.name == t.originalName.GetOr(t.safeName)
  {
    var status := if ok then OK else WA;
    if t.test.hidden then TestReport("hidden", status, None, None, None)
    else TestReport(t.originalName.GetOr(t.safeName), status, Some(OutputOf(outputs, t)),
                    Some(t.test.expected), Some(t.test.input))
  }

  /** The entries for `ps` given whether each matched: one per test, in order, up to and including the first mismatch. */
  function GradeWith(ps: seq<SafeTest>, oks: seq<bool>, outputs: map<string, string>): seq<TestReport>
    requires |oks| == |ps|
  {
    if ps == [] then []
    else if !oks[0] then [Report(ps[0], false, outputs)]
    else [Report(ps[0], true, outputs)] + GradeWith(ps[1..], oks[1..], outputs)
  }

  /** The list the comparison loop builds. */
  function Grade(ps: seq<SafeTest>, outputs: map<string, string>): seq<TestReport> {
    GradeWith(ps, Checks(ps, outputs), outputs)
  }

  /** The index of the first `false`, or `|oks|` when there is none. */
  function FirstFalse(oks: seq<bool>): (k: nat)
    ensures k <= |oks|
    ensures k < |oks| ==> !oks[k]
    ensures forall i :: 0 <= i < k ==> oks[i]
  {
    if oks == [] || !oks[0] then 0
    else
      var k := 1 + FirstFalse(oks[1..]);
      assert forall i :: 1 <= i < |oks| ==> oks[i] == oks[1..][i - 1];
      k
  }

  /** The index of the first test that does not match, or `|ps|` when all match. */
  function FirstMismatch(ps: seq<SafeTest>, outputs: map<string, string>): (k: nat)
    ensures k <= |ps|
    ensures k < |ps| ==> !Matches(ps[k], outputs)
    ensures forall i :: 0 <= i < k ==> Matches(ps[i], outputs)
  {
    var oks := Checks(ps, outputs);
    var k := FirstFalse(oks);
    assert forall i :: 0 <= i < k ==> oks[i];
    k
  }

  /** The entries hold the tests up to the first `false`, in order. */
  lemma GradeWithEntries(ps: seq<SafeTest>, oks: seq<bool>, outputs: map<string, string>)
    requires |oks| == |ps|
    ensures var k := FirstFalse(oks);
      |GradeWith(ps, oks, outputs)| == if k < |ps| then k + 1 else |ps|
    ensures forall i :: 0 <= i < |GradeWith(ps, oks, outputs)| ==>
      GradeWith(ps, oks, outputs)[i] == Report(ps[i], oks[i], outputs)
  {
    GradeWithLength(ps, oks, outputs);
    forall i | 0 <= i < |GradeWith(ps, oks, outputs)| {
      GradeWithAt(ps, oks, outputs, i);
    }
  }

  lemma {:induction false} GradeWithLength(ps: seq<SafeTest>, oks: seq<bool>, outputs: map<string, string>)
    requires |oks| == |ps|
    ensures var k := FirstFalse(oks);
      |GradeWith(ps, oks, outputs)| == if k < |ps| then k + 1 else |ps|
  {
    if ps != [] && oks[0] {
      GradeWithLength(ps[1..], oks[1..], outputs);
    }
  }

  lemma {:induction false} GradeWithAt(ps: seq<SafeTest>, oks: seq<bool>, outputs: map<string, string>, i: nat)
    requires |oks| == |ps| && i < |GradeWith(ps, oks, outputs)|
    ensures i < |ps| && GradeWith(ps, oks, outputs)[i] == Report(ps[i], oks[i], outputs)
    decreases i
  {
    if i > 0 {
      var g' := GradeWith(ps[1..], oks[1..], outputs);
      assert GradeWith(ps, oks, outputs) == [Report(ps[0], true, outputs)] + g';
      GradeWithAt(ps[1..], oks[1..], outputs, i - 1);
      assert ps[1..][i - 1] == ps[i] && oks[1..][i - 1] == oks[i];
    }
  }

  /** The graded list holds the tests up to the first mismatch, in order. */
  lemma GradeEntries(ps: seq<SafeTest>, outputs: map<string, string>)
    ensures var k := FirstMismatch(ps, outputs);
      |Grade(ps, outputs)| == if k < |ps| then k + 1 else |ps|
    ensures forall i :: 0 <= i < |Grade(ps, outputs)| ==>
      Grade(ps, outputs)[i] == Report(ps[i], Matches(ps[i], outputs), outputs)
  {
    var oks := Checks(ps, outputs);
    GradeWithEntries(ps, oks, outputs);
  }

  /**
   * The shape of the graded list: the tests up to the first mismatch, in
   * order; every entry but a mismatching last one is `OK`.
   */
  lemma GradeShape(ps: seq<SafeTest>, outputs: map<string, string>)
    ensures var k := FirstMismatch(ps, outputs);
      |Grade(ps, outputs)| == if k < |ps| then k + 1 else |ps|
    ensures forall i :: 0 <= i < |Grade(ps, outputs)| ==>
      Grade(ps, outputs)[i] == Report(ps[i], Matches(ps[i], outputs), outputs)
    ensures forall i :: 0 <= i < |Grade(ps, outputs)| - 1 ==> Grade(ps, outputs)[i].status == OK
    ensures FirstMismatch(ps, outputs) < |ps| ==> Grade(ps, outputs)[|Grade(ps, outputs)| - 1].status == WA
  {
    var oks := Checks(ps, outputs);
    GradeWithEntries(ps, oks, outputs);
    var g := Grade(ps, outputs);
    var k := FirstFalse(oks);
    forall i | 0 <= i < |g| - 1 ensures g[i].status == OK {
      assert g[i] == Report(ps[i], oks[i], outputs);
    }
    if k < |ps| {
      assert g[k] == Report(ps[k], oks[k], outputs);
    }
  }

  /** All tests matched exactly when the graded list covers every test and every entry is `OK`. */
  lemma AcceptedIffAllMatch(ps: seq<SafeTest>, outputs: map<string, string>)
    ensures AllMatch(ps, outputs) <==>
      (|Grade(ps, outputs)| == |ps| && forall i :: 0 <= i < |Grade(ps, outputs)| ==> Grade(ps, outputs)[i].status == OK)
  {
    GradeShape(ps, outputs);
    var k := FirstMismatch(ps, outputs);
    if k < |ps| {
      var g := Grade(ps, outputs);
      assert g[k].status == WA;
    }
  }

  /** No entry of the graded list carries the name, output, expected output or input of a hidden test. */
  lemma GradeRedactsHidden(ps: seq<SafeTest>, outputs: map<string, string>, i: nat)
    requires i < |Grade(ps, outputs)|
    ensures i < |ps|
    ensures ps[i].test.hidden ==>
      Grade(ps, outputs)[i] == TestReport("hidden", Grade(ps, outputs)[i].status, None, None, None)
  {
    GradeEntries(ps, outputs);
  }

  /**
   * The comparison loop: visit the tests in order, push an entry for each,
   * clear `allAccepted` and stop at the first mismatch.
   */
  method CompareOutputs(ps: seq<SafeTest>, outputs: map<string, string>)
    returns (allAccepted: bool, perTest: seq<TestReport>)
    ensures perTest == Grade(ps, outputs)
    ensures allAccepted <==> AllMatch(ps, outputs)
  {
    ghost var oks := Checks(ps, outputs);
    AllMatchIff(ps, outputs);
    perTest := [];
    allAccepted := true;
    var i := 0;
    while i < |ps|
      invariant i <= FirstFalse(oks)
      invariant allAccepted
      invariant |perTest| == i
      invariant forall j :: 0 <= j < i ==> perTest[j] == Report(ps[j], true, outputs)
    {
      var t := ps[i];
      var got := OutputOf(outputs, t);
      var ok := Norm(got) == Norm(t.test.expected);
      assert ok == oks[i];
      FirstFalseStep(oks, i);
      if !ok {
        allAccepted := false;
      }
      ghost var before := perTest;
      perTest := perTest + [Report(t, ok, outputs)];
      if !ok {
        GradeOfReports(ps, oks, outputs, perTest);
        return;
      }
      PushEntry(before, ps, outputs, i);
      i := i + 1;
    }
    GradeOfReports(ps, oks, outputs, perTest);
  }

  /** Position `i`, reached with every earlier check `true`, is the first `false` or lies before it. */
  lemma FirstFalseStep(oks: seq<bool>, i: nat)
    requires i < |oks| && i <= FirstFalse(oks)
    ensures oks[i] ==> i + 1 <= FirstFalse(oks)
    ensures !oks[i] ==> FirstFalse(oks) == i
  {
  }

  /** Appending the `OK` entry of test `i` extends a list of `OK` entries of the tests before it. */
  lemma PushEntry(r: seq<TestReport>, ps: seq<SafeTest>, outputs: map<string, string>, i: nat)
    requires i < |ps| && |r| == i
    requires forall j :: 0 <= j < i ==> r[j] == Report(ps[j], true, outputs)
    ensures forall j :: 0 <= j <= i ==> (r + [Report(ps[i], true, outputs)])[j] == Report(ps[j], true, outputs)
  {
  }

  /** Every test matched exactly when no check is `false`. */
  lemma AllMatchIff(ps: seq<SafeTest>, outputs: map<string, string>)
    ensures AllMatch(ps, outputs) <==> FirstFalse(Checks(ps, outputs)) == |ps|
  {
    var oks := Checks(ps, outputs);
    var k := FirstFalse(oks);
    if k < |ps| {
      assert !Matches(ps[k], outputs);
    }
  }

  /**
   * The entries of the tests before the first `false`, each `OK`, and the
   * entry of that one, if any, make up the list.
   */
  lemma GradeOfReports(ps: seq<SafeTest>, oks: seq<bool>, outputs: map<string, string>, r: seq<TestReport>)
    requires |oks| == |ps|
    requires var k := FirstFalse(oks); |r| == if k < |ps| then k + 1 else |ps|
    requires forall j :: 0 <= j < |r| && j < FirstFalse(oks) ==> r[j] == Report(ps[j], true, outputs)
    requires FirstFalse(oks) < |ps| ==> r[FirstFalse(oks)] == Report(ps[FirstFalse(oks)], false, outputs)
    ensures r == GradeWith(ps, oks, outputs)
  {
    GradeWithEntries(ps, oks, outputs);
    var g := GradeWith(ps, oks, outputs);
    forall j | 0 <= j < |r| ensures r[j] == g[j] {
      assert g[j] == Report(ps[j], oks[j], outputs);
    }
  }

  // ---------------------------------------------------------------------
  // Execution failures reported by the sandbox.

  /** An entry whose status is present, non-empty and not `"OK"`. */
  predicate IsFailing(e: ResultEntry) {
    e.status.Some? && e.status.value != "" && e.status.value != "OK"
  }

  /** `tests.find(t => t.status && t.status !== "OK")`. */
  function FirstFailing(es: seq<ResultEntry>): (r: Option<ResultEntry>)
    ensures r.None? <==> forall i :: 0 <= i < |es| ==> !IsFailing(es[i])
    ensures r.Some? ==> exists k :: (0 <= k < |es| && es[k] == r.value && IsFailing(es[k])
      && forall i :: 0 <= i < k ==> !IsFailing(es[i]))
  {
    if es == [] then None
    else if IsFailing(es[0]) then Some(es[0])
    else
      var r := FirstFailing(es[1..]);
      assert r.Some? ==> es[1..] == es[1..];
      r
  }

  /** A prepared test answers to a reported name by its `safeName` or by its original name. */
  predicate AnswersTo(t: SafeTest, name: Option<string>) {
    name == Some(t.safeName) || t.originalName == name
  }

  /** `tests.find(t => t.safeName === name || t.originalName === name)`. */
  function FindDefinition(ps: seq<SafeTest>, name: Option<string>): (r: Option<SafeTest>)
    ensures r.None? <==> forall i :: 0 <= i < |ps| ==> !AnswersTo(ps[i], name)
    ensures r.Some? ==> exists k :: (0 <= k < |ps| && ps[k] == r.value && AnswersTo(ps[k], name)
      && forall i :: 0 <= i < k ==> !AnswersTo(ps[i], name))
  {
    if ps == [] then None
    else if AnswersTo(ps[0], name) then Some(ps[0])
    else
      var r := FindDefinition(ps[1..], name);
      assert r.Some? ==> ps[1..] == ps[1..];
      r
  }

  /** The object returned for a failing entry, given the prepared test it names, if any, and the run stderr. */
  function FailureVerdict(e: ResultEntry, def: Option<SafeTest>, runErr: string): (v: Verdict)
    ensures v.ExecFailure?
    ensures v.kind == TimeLimit <==> e.status == Some("TLE")
    ensures def.Some? && def.value.test.hidden ==>
      v.failedTest == Some("hidden") && v.runError.None? && v.input.None?
    ensures def.Some? && !def.value.test.hidden ==>
      && v.failedTest == (if def.value.originalName.Some? then def.value.originalName else e.name)
      && v.runError == Some(runErr) && v.input == Some(def.value.test.input)
    ensures def.None? ==> v.failedTest == e.name && v.runError == Some(runErr) && v.input.None?
  {
    var kind := if e.status == Some("TLE") then TimeLimit else RuntimeError;
    match def
    case Some(t) =>
      if t.test.hidden then ExecFailure(kind, Some("hidden"), None, None)
      else ExecFailure(kind, if t.originalName.Some? then t.originalName else e.name, Some(runErr), Some(t.test.input))
    case None => ExecFailure(kind, e.name, Some(runErr), None)
  }

  /**
   * What the handler returns once the sandbox has written its results:
   * a compile error first, then the first failing entry, then the comparison.
   * A stderr file that cannot be read counts as `""`.
   */
  function Assemble(ps: seq<SafeTest>, results: SandboxResults, compileErr: Option<string>,
                    runErr: Option<string>, outputs: map<string, string>): Verdict
  {
    if results.verdict == Some("CE") then CompileError(compileErr.GetOr(""))
    else
      match FirstFailing(results.tests.GetOr([]))
      case Some(e) => FailureVerdict(e, FindDefinition(ps, e.name), runErr.GetOr(""))
      case None => Graded(AllMatch(ps, outputs), Grade(ps, outputs))
  }

  /** The order of the rules: compile error, then execution failure, then the comparison. */
  lemma AssembleCases(ps: seq<SafeTest>, results: SandboxResults, compileErr: Option<string>,
                      runErr: Option<string>, outputs: map<string, string>)
    ensures var v := Assemble(ps, results, compileErr, runErr, outputs);
      && (v.CompileError? <==> results.verdict == Some("CE"))
      && (v.CompileError? ==> v.error == compileErr.GetOr(""))
      && (v.ExecFailure? <==> (results.verdict != Some("CE")
            && exists i :: 0 <= i < |results.tests.GetOr([])| && IsFailing(results.tests.GetOr([])[i])))
      && (v.Graded? ==> v.tests == Grade(ps, outputs) && (v.accepted <==> AllMatch(ps, outputs)))
      && !v.NoTests?
  {
  }

  /** `Accepted` is returned exactly when no rule before the comparison fires and every test matched. */
  lemma AcceptedIff(ps: seq<SafeTest>, results: SandboxResults, compileErr: Option<string>,
                    runErr: Option<string>, outputs: map<string, string>)
    ensures VerdictName(Assemble(ps, results, compileErr, runErr, outputs)) == "Accepted" <==>
      && results.verdict != Some("CE")
      && (forall i :: 0 <= i < |results.tests.GetOr([])| ==> !IsFailing(results.tests.GetOr([])[i]))
      && AllMatch(ps, outputs)
  {
    var v := Assemble(ps, results, compileErr, runErr, outputs);
    if v.ExecFailure? {
      assert VerdictName(v) == "Time Limit Exceeded" || VerdictName(v) == "Runtime Error";
    } else if v.CompileError? {
      assert VerdictName(v) == "Compile Error";
    }
  }

  /** `Wrong Answer` lists the tests up to the first mismatch, the last of them `WA` and the rest `OK`. */
  lemma WrongAnswerShape(ps: seq<SafeTest>, results: SandboxResults, compileErr: Option<string>,
                         runErr: Option<string>, outputs: map<string, string>)
    requires Assemble(ps, results, compileErr, runErr, outputs).Graded?
    requires !Assemble(ps, results, compileErr, runErr, outputs).accepted
    ensures var r := Assemble(ps, results, compileErr, runErr, outputs).tests;
      && |r| == FirstMismatch(ps, outputs) + 1
      && r[|r| - 1].status == WA
      && forall i :: 0 <= i < |r| - 1 ==> r[i].status == OK
  {
    GradeShape(ps, outputs);
  }

  /** Two prepared test lists that differ at most in the inputs of hidden tests. */
  predicate SameButHiddenInputs(ps: seq<SafeTest>, qs: seq<SafeTest>) {
    |ps| == |qs| && forall i :: 0 <= i < |ps| ==>
      && ps[i].safeName == qs[i].safeName
      && ps[i].originalName == qs[i].originalName
      && ps[i].test.hidden == qs[i].test.hidden
      && ps[i].test.expected == qs[i].test.expected
      && ps[i].test.dataFileName == qs[i].test.dataFileName
      && ps[i].test.dataFileContent == qs[i].test.dataFileContent
      && (!ps[i].test.hidden ==> ps[i].test.input == qs[i].test.input)
  }

  /** For the same results record, stderr and outputs, the verdict does not depend on the input of a hidden test. */
  lemma HiddenInputsDoNotLeak(ps: seq<SafeTest>, qs: seq<SafeTest>, results: SandboxResults,
                              compileErr: Option<string>, runErr: Option<string>, outputs: map<string, string>)
    requires SameButHiddenInputs(ps, qs)
    ensures Assemble(ps, results, compileErr, runErr, outputs) == Assemble(qs, results, compileErr, runErr, outputs)
  {
    if results.verdict != Some("CE") {
      match FirstFailing(results.tests.GetOr([]))
      case Some(e) =>
        FailureVerdictHiddenInputs(ps, qs, e, runErr.GetOr(""));
      case None =>
        GradeHiddenInputs(ps, qs, outputs);
    }
  }

  lemma FailureVerdictHiddenInputs(ps: seq<SafeTest>, qs: seq<SafeTest>, e: ResultEntry, runErr: string)
    requires SameButHiddenInputs(ps, qs)
    ensures FailureVerdict(e, FindDefinition(ps, e.name), runErr) == FailureVerdict(e, FindDefinition(qs, e.name), runErr)
  {
    FindDefinitionHiddenInputs(ps, qs, e.name);
  }

  lemma GradeHiddenInputs(ps: seq<SafeTest>, qs: seq<SafeTest>, outputs: map<string, string>)
    requires SameButHiddenInputs(ps, qs)
    ensures Grade(ps, outputs) == Grade(qs, outputs)
    ensures AllMatch(ps, outputs) == AllMatch(qs, outputs)
  {
    var oks := Checks(ps, outputs);
    assert oks == Checks(qs, outputs) by {
      forall i | 0 <= i < |ps| ensures oks[i] == Checks(qs, outputs)[i] {
        assert OutputOf(outputs, ps[i]) == OutputOf(outputs, qs[i]);
      }
    }
    GradeWithHiddenInputs(ps, qs, oks, outputs);
    assert forall i :: 0 <= i < |ps| ==> Matches(ps[i], outputs) == oks[i] == Matches(qs[i], outputs);
  }

  lemma {:induction false} GradeWithHiddenInputs(ps: seq<SafeTest>, qs: seq<SafeTest>, oks: seq<bool>, outputs: map<string, string>)
    requires SameButHiddenInputs(ps, qs) && |oks| == |ps|
    ensures GradeWith(ps, oks, outputs) == GradeWith(qs, oks, outputs)
    decreases |ps|
  {
    if ps != [] {
      assert Report(ps[0], oks[0], outputs) == Report(qs[0], oks[0], outputs) by {
        assert OutputOf(outputs, ps[0]) == OutputOf(outputs, qs[0]);
      }
      assert SameButHiddenInputs(ps[1..], qs[1..]) by {
        forall i | 0 <= i < |ps| - 1 ensures ps[1..][i] == ps[i + 1] && qs[1..][i] == qs[i + 1] { }
      }
      GradeWithHiddenInputs(ps[1..], qs[1..], oks[1..], outputs);
    }
  }

  lemma {:induction false} FindDefinitionHiddenInputs(ps: seq<SafeTest>, qs: seq<SafeTest>, name: Option<string>)
    requires SameButHiddenInputs(ps, qs)
    ensures FindDefinition(ps, name).None? == FindDefinition(qs, name).None?
    ensures FindDefinition(ps, name).Some? ==>
      var d, e := FindDefinition(ps, name).value, FindDefinition(qs, name).value;
      d.originalName == e.originalName && d.test.hidden == e.test.hidden
      && (!d.test.hidden ==> d.test.input == e.test.input)
    decreases |ps|
  {
    if ps != [] && !AnswersTo(ps[0], name) {
      assert SameButHiddenInputs(ps[1..], qs[1..]) by {
        forall i | 0 <= i < |ps| - 1 ensures ps[1..][i] == ps[i + 1] && qs[1..][i] == qs[i + 1] { }
      }
      FindDefinitionHiddenInputs(ps[1..], qs[1..], name);
    }
  }
}
