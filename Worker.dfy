/**
 * The submission runner's job handler: check the job, fetch and prepare the tests,
 * stage the work directory, run the sandbox, assemble the verdict and
 * remove the work directory on every path out once it exists.
 *
 * Everything outside the process is an oracle, `Environment`: what the
 * tests endpoint returns, whether the work directory, its two
 * subdirectories, the staging writes and the sandbox run succeed, and what
 * the sandbox leaves behind.
 */
module Worker {
  import opened Common
  import opened TestPrep
  import opened Verdicts
  import opened Staging

  /**
   * The job payload as the submit endpoint queues it: both fields are
   * strings (`String(body.x ?? "")`), and `None` is a field that is absent.
   * A string is falsy only when it is empty, so `"0"` counts as an id.
   */
  datatype JobData = JobData(problemId: Option<string>, code: Option<string>)

  /** What the world outside the handler does during one job. */
  datatype Environment = Environment(
    fetched: Option<seq<ApiTest>>,       // the tests endpoint's list for `Number(problemId)`; `None` when the fetch
                                         // fails (the endpoint answers 400 for a task id of 0 or `NaN`) or is not an array
    workDirOk: bool,                     // `mkdtemp` succeeds
    testsDirOk: bool,                    // creating `tests/` succeeds
    outsDirOk: bool,                     // creating `outs/` succeeds
    writesOk: bool,                      // the staging writes that do not land on a directory succeed
    sandboxOk: bool,                     // the sandbox run exits successfully
    results: Option<SandboxResults>,     // the result record; `None` when it cannot be read or parsed
    compileStderr: Option<string>,       // `None` when the file cannot be read
    runStderr: Option<string>,
    outputs: map<string, string>)        // the readable `outs/<safeName>.out` files, by safe name

  datatype FailReason = MissingInput | FetchFailed | WorkDirFailed | StagingFailed | SandboxFailed | ResultsUnreadable

  /** How a job ends: with a returned object or with a thrown error. */
  datatype JobResult = Returned(verdict: Verdict) | Threw(reason: FailReason)

  /** The result of a job together with the effects it issued, in order. */
  datatype JobRun = JobRun(result: JobResult, trace: seq<Effect>)

  /** `!problemId || !code`. */
  predicate MissingJobInput(job: JobData) {
    job.problemId.None? || job.problemId == Some("") || job.code.None? || job.code == Some("")
  }

  /** Both directories are created and the staging writes all succeed. */
  predicate StagingSucceeds(ps: seq<SafeTest>, env: Environment) {
    env.testsDirOk && env.outsDirOk && env.writesOk && !SomeWriteLandsOnDirectory(ps)
  }

  /** What has been issued once both directories exist and the writes are under way. */
  function Staged(ps: seq<SafeTest>, code: string): seq<Effect> {
    [MakeWorkDir] + StagingDirs + WritePlan(ps, code)
  }

  /** The job handler, as a function of the job and the environment. */
  function Run(job: JobData, env: Environment): JobRun {
    if MissingJobInput(job) then JobRun(Threw(MissingInput), [])
    else if env.fetched.None? then JobRun(Threw(FetchFailed), [])
    else Proceed(Prepare(FromApiAll(env.fetched.value)), job.code.value, env)
  }

  /**
   * The handler once the tests are prepared. `mkdtemp` is outside the
   * `try`, so its failure removes nothing; each `mkdir` is awaited before
   * the next step is issued.
   */
  function Proceed(ps: seq<SafeTest>, code: string, env: Environment): JobRun {
    if ps == [] then JobRun(Returned(NoTests(NoTestsMessage)), [])
    else if !env.workDirOk then JobRun(Threw(WorkDirFailed), [])
    else if !env.testsDirOk then JobRun(Threw(StagingFailed), [MakeWorkDir, MakeDir(["tests"]), RemoveWorkDir])
    else if !env.outsDirOk then JobRun(Threw(StagingFailed), [MakeWorkDir] + StagingDirs + [RemoveWorkDir])
    else
      var staged := Staged(ps, code);
      if !StagingSucceeds(ps, env) then JobRun(Threw(StagingFailed), staged + [RemoveWorkDir])
      else if !env.sandboxOk then JobRun(Threw(SandboxFailed), staged + [RunSandbox, RemoveWorkDir])
      else if env.results.None? then JobRun(Threw(ResultsUnreadable), staged + [RunSandbox, RemoveWorkDir])
      else JobRun(Returned(Assemble(ps, env.results.value, env.compileStderr, env.runStderr, env.outputs)),
                  staged + [RunSandbox, RemoveWorkDir])
  }

  /** The handler body, step by step. */
  method HandleJob(job: JobData, env: Environment) returns (result: JobResult, trace: seq<Effect>)
    ensures JobRun(result, trace) == Run(job, env)
  {
    if MissingJobInput(job) {
      return Threw(MissingInput), [];
    }
    if env.fetched.None? {
      return Threw(FetchFailed), [];
    }
    var tests := PrepareTests(FromApiAll(env.fetched.value));
    result, trace := HandlePrepared(tests, job.code.value, env);
  }

  /** The handler from the `No Tests` check on, with the removal of the work directory in `finally`. */
  method HandlePrepared(tests: seq<SafeTest>, code: string, env: Environment) returns (result: JobResult, trace: seq<Effect>)
    ensures JobRun(result, trace) == Proceed(tests, code, env)
  {
    if |tests| == 0 {
      return Returned(NoTests(NoTestsMessage)), [];
    }
    if !env.workDirOk {
      return Threw(WorkDirFailed), [];
    }
    trace := [MakeWorkDir];
    // try
    trace := trace + [MakeDir(["tests"])];
    if !env.testsDirOk {
      result := Threw(StagingFailed);
    } else {
      trace := trace + [MakeDir(["outs"])];
      if !env.outsDirOk {
        result := Threw(StagingFailed);
      } else {
        var writeOps := Stage(tests, code);
        trace := trace + writeOps;
        assert trace == Staged(tests, code);
        if !StagingSucceeds(tests, env) {
          result := Threw(StagingFailed);
        } else {
          trace := trace + [RunSandbox];
          if !env.sandboxOk {
            result := Threw(SandboxFailed);
          } else if env.results.None? {
            result := Threw(ResultsUnreadable);
          } else {
            var v := GradeJob(tests, env.results.value, env.compileStderr, env.runStderr, env.outputs);
            result := Returned(v);
          }
        }
      }
    }
    // finally
    trace := trace + [RemoveWorkDir];
  }

  /** The verdict from the sandbox's results: compile error, first failing entry, then the comparison loop. */
  method GradeJob(tests: seq<SafeTest>, results: SandboxResults, compileStderr: Option<string>,
               runStderr: Option<string>, outputs: map<string, string>) returns (v: Verdict)
    ensures v == Assemble(tests, results, compileStderr, runStderr, outputs)
  {
    var compileErr := compileStderr.GetOr("");
    var runErr := runStderr.GetOr("");
    if results.verdict == Some("CE") {
      return CompileError(compileErr);
    }
    var execFail := FirstFailing(results.tests.GetOr([]));
    if execFail.Some? {
      var def := FindDefinition(tests, execFail.value.name);
      return FailureVerdict(execFail.value, def, runErr);
    }
    var allAccepted, perTest := CompareOutputs(tests, outputs);
    v := Graded(allAccepted, perTest);
  }

  /**
   * A job without a problem id or without code fails before anything else
   * happens, and that error comes from nowhere else: an id such as `"0"`
   * goes on to the fetch.
   */
  lemma MissingInputFails(job: JobData, env: Environment)
    ensures MissingJobInput(job) ==> Run(job, env) == JobRun(Threw(MissingInput), [])
    ensures Run(job, env).result == Threw(MissingInput) ==> MissingJobInput(job)
    ensures !MissingJobInput(job) && env.fetched.None? ==> Run(job, env) == JobRun(Threw(FetchFailed), [])
  {
  }

  /** The id `"0"` is truthy: the job asks for task 0, which the tests endpoint refuses, so the fetch fails. */
  lemma ZeroIdReachesFetch(code: string, env: Environment)
    requires code != "" && env.fetched.None?
    ensures Run(JobData(Some("0"), Some(code)), env) == JobRun(Threw(FetchFailed), [])
  {
  }

  /** When `mkdtemp` fails, the job throws without having created or removed anything. */
  lemma WorkDirFailureRemovesNothing(job: JobData, env: Environment)
    requires !MissingJobInput(job) && env.fetched.Some? && env.fetched.value != [] && !env.workDirOk
    ensures Run(job, env) == JobRun(Threw(WorkDirFailed), [])
  {
    PrepareSpec(FromApiAll(env.fetched.value));
  }

  /** No file is written before both `tests/` and `outs/` exist. */
  lemma WritesFollowDirectories(job: JobData, env: Environment)
    ensures var t := Run(job, env).trace;
      forall i :: 0 <= i < |t| && t[i].WriteFile? ==>
        3 <= i && t[1] == MakeDir(["tests"]) && t[2] == MakeDir(["outs"])
  {
    if !MissingJobInput(job) && env.fetched.Some? {
      ProceedWritesFollowDirectories(Prepare(FromApiAll(env.fetched.value)), job.code.value, env);
    }
  }

  /**
   * A valid job whose task has no tests returns `No Tests` with the fixed
   * message, before any work directory exists and without running the sandbox.
   */
  lemma NoTestsBeforeAnyWork(job: JobData, env: Environment)
    requires !MissingJobInput(job) && env.fetched == Some([])
    ensures Run(job, env) == JobRun(Returned(NoTests(NoTestsMessage)), [])
  {
    PrepareSpec(FromApiAll([]));
  }

  /** `No Tests` is returned exactly for an empty test list. */
  lemma NoTestsIff(job: JobData, env: Environment)
    requires !MissingJobInput(job)
    ensures Run(job, env).result.Returned? && Run(job, env).result.verdict.NoTests? <==>
      env.fetched == Some([])
  {
    if env.fetched.Some? {
      PrepareSpec(FromApiAll(env.fetched.value));
      if env.fetched.value != [] {
        assert |Prepare(FromApiAll(env.fetched.value))| > 0;
        var ps := Prepare(FromApiAll(env.fetched.value));
        if env.workDirOk && StagingSucceeds(ps, env) && env.sandboxOk && env.results.Some? {
          AssembleCases(ps, env.results.value, env.compileStderr, env.runStderr, env.outputs);
        }
      }
    }
  }

  /**
   * Once the work directory exists, every way out removes it, as the last
   * effect; it is created first and removed once.
   */
  lemma CleanupOnEveryExit(job: JobData, env: Environment)
    ensures var t := Run(job, env).trace;
      t != [] ==>
        && t[0] == MakeWorkDir
        && t[|t| - 1] == RemoveWorkDir
        && (forall i :: 0 <= i < |t| - 1 ==> t[i] != RemoveWorkDir)
        && (forall i :: 0 < i < |t| ==> t[i] != MakeWorkDir)
  {
    if !MissingJobInput(job) && env.fetched.Some? {
      ProceedCleanup(Prepare(FromApiAll(env.fetched.value)), job.code.value, env);
    }
  }

  lemma ProceedCleanup(ps: seq<SafeTest>, code: string, env: Environment)
    ensures var t := Proceed(ps, code, env).trace;
      t != [] ==>
        && t[0] == MakeWorkDir
        && t[|t| - 1] == RemoveWorkDir
        && (forall i :: 0 <= i < |t| - 1 ==> t[i] != RemoveWorkDir)
        && (forall i :: 0 < i < |t| ==> t[i] != MakeWorkDir)
  {
    if ps != [] && env.workDirOk && env.testsDirOk && env.outsDirOk {
      PlanHasNoLifecycleEffects(ps, code);
      var tail := Proceed(ps, code, env).trace[|Staged(ps, code)|..];
      assert Proceed(ps, code, env).trace == Staged(ps, code) + tail;
      StagedCleanup(WritePlan(ps, code), tail);
    }
  }

  /** A trace that stages `plan` and then ends, possibly after the sandbox, with the removal. */
  lemma StagedCleanup(plan: seq<Effect>, tail: seq<Effect>)
    requires forall e :: e in plan ==> e.MakeDir? || e.WriteFile?
    requires tail == [RemoveWorkDir] || tail == [RunSandbox, RemoveWorkDir]
    ensures var t := [MakeWorkDir] + StagingDirs + plan + tail;
      && t[0] == MakeWorkDir
      && t[|t| - 1] == RemoveWorkDir
      && (forall i :: 0 <= i < |t| - 1 ==> t[i] != RemoveWorkDir)
      && (forall i :: 0 < i < |t| ==> t[i] != MakeWorkDir)
  {
    var t := [MakeWorkDir] + StagingDirs + plan + tail;
    forall i | 0 < i < |t| - 1 ensures t[i] != RemoveWorkDir && t[i] != MakeWorkDir {
      if 3 <= i < 3 + |plan| {
        assert t[i] == plan[i - 3] && plan[i - 3] in plan;
      }
    }
  }

  /** The write plan neither creates nor removes the work directory, nor runs the sandbox. */
  lemma PlanHasNoLifecycleEffects(ps: seq<SafeTest>, code: string)
    ensures forall e :: e in WritePlan(ps, code) ==> e.MakeDir? || e.WriteFile?
  {
    forall e | e in WritePlan(ps, code) ensures e.MakeDir? || e.WriteFile? {
      if e in AllTestWrites(ps) {
        AllTestWritesFrom(ps, e);
      }
    }
  }

  lemma ProceedWritesFollowDirectories(ps: seq<SafeTest>, code: string, env: Environment)
    ensures var t := Proceed(ps, code, env).trace;
      forall i :: 0 <= i < |t| && t[i].WriteFile? ==>
        3 <= i && t[1] == MakeDir(["tests"]) && t[2] == MakeDir(["outs"])
  {
    PlanHasNoLifecycleEffects(ps, code);
  }

  /** The sandbox runs only after every staging effect has been issued and all of them succeeded. */
  lemma SandboxRunsAfterStaging(job: JobData, env: Environment)
    requires RunSandbox in Run(job, env).trace
    ensures !MissingJobInput(job) && env.fetched.Some? && env.workDirOk
    ensures var ps := Prepare(FromApiAll(env.fetched.value));
      && StagingSucceeds(ps, env)
      && Run(job, env).trace == Staged(ps, job.code.value) + [RunSandbox, RemoveWorkDir]
  {
    ProceedSandboxAfterStaging(Prepare(FromApiAll(env.fetched.value)), job.code.value, env);
  }

  lemma ProceedSandboxAfterStaging(ps: seq<SafeTest>, code: string, env: Environment)
    requires RunSandbox in Proceed(ps, code, env).trace
    ensures env.workDirOk && StagingSucceeds(ps, env)
    ensures Proceed(ps, code, env).trace == Staged(ps, code) + [RunSandbox, RemoveWorkDir]
  {
    PlanHasNoLifecycleEffects(ps, code);
  }

  /** A job is `Accepted` exactly when it gets as far as the comparison and every test matches. */
  lemma AcceptedIffAllTestsMatch(job: JobData, env: Environment)
    ensures var r := Run(job, env).result;
      (r.Returned? && VerdictName(r.verdict) == "Accepted") <==>
        && !MissingJobInput(job) && env.fetched.Some? && env.fetched.value != []
        && var ps := Prepare(FromApiAll(env.fetched.value));
           && env.workDirOk && StagingSucceeds(ps, env) && env.sandboxOk && env.results.Some?
           && env.results.value.verdict != Some("CE")
           && (forall i :: 0 <= i < |env.results.value.tests.GetOr([])| ==> !IsFailing(env.results.value.tests.GetOr([])[i]))
           && AllMatch(ps, env.outputs)
  {
    if !MissingJobInput(job) && env.fetched.Some? {
      var ps := Prepare(FromApiAll(env.fetched.value));
      PrepareSpec(FromApiAll(env.fetched.value));
      if ps != [] && env.workDirOk && StagingSucceeds(ps, env) && env.sandboxOk && env.results.Some? {
        AcceptedIff(ps, env.results.value, env.compileStderr, env.runStderr, env.outputs);
      }
    }
  }

  /** Two fetched lists that differ at most in the inputs of hidden tests. */
  predicate SameButHiddenApiInputs(a: seq<ApiTest>, b: seq<ApiTest>) {
    |a| == |b| && forall i :: 0 <= i < |a| ==>
      && a[i].name == b[i].name
      && a[i].expectedOutput == b[i].expectedOutput
      && a[i].isHidden == b[i].isHidden
      && a[i].dataFileName == b[i].dataFileName
      && a[i].dataFileContent == b[i].dataFileContent
      && (a[i].isHidden != Some(true) ==> a[i].input == b[i].input)
  }

  /** The renaming depends only on the names, so lists that differ in hidden inputs are prepared alike. */
  lemma PrepareHiddenInputs(a: seq<ApiTest>, b: seq<ApiTest>)
    requires SameButHiddenApiInputs(a, b)
    ensures SameButHiddenInputs(Prepare(FromApiAll(a)), Prepare(FromApiAll(b)))
  {
    var ta, tb := FromApiAll(a), FromApiAll(b);
    assert Bases(ta) == Bases(tb) by {
      forall i | 0 <= i < |ta| ensures Bases(ta)[i] == Bases(tb)[i] {
        assert ta[i].name == tb[i].name;
        assert FallbackName(ta[i], i) == FallbackName(tb[i], i);
      }
    }
    PrepareNames(ta);
    PrepareNames(tb);
  }

  /** Two prepared lists that differ only in hidden inputs lead to the same result. */
  lemma ProceedHiddenInputs(pa: seq<SafeTest>, pb: seq<SafeTest>, code: string, env: Environment)
    requires SameButHiddenInputs(pa, pb)
    ensures Proceed(pa, code, env).result == Proceed(pb, code, env).result
  {
    assert SomeWriteLandsOnDirectory(pa) == SomeWriteLandsOnDirectory(pb) by {
      assert forall i :: 0 <= i < |pa| ==> HasDataFile(pa[i]) == HasDataFile(pb[i]);
    }
    if env.results.Some? {
      HiddenInputsDoNotLeak(pa, pb, env.results.value, env.compileStderr, env.runStderr, env.outputs);
    }
  }

  /**
   * For the same sandbox results, stderr files and output files, the job's
   * result does not depend on the input of a hidden test. What the sandbox
   * writes is not tied to the inputs here; `RunStderrReachesVisibleFailure`
   * shows the channel that leaves open.
   */
  lemma HiddenInputsNeverLeak(job: JobData, env: Environment, other: seq<ApiTest>)
    requires env.fetched.Some? && SameButHiddenApiInputs(env.fetched.value, other)
    ensures Run(job, env).result == Run(job, env.(fetched := Some(other))).result
  {
    if !MissingJobInput(job) {
      var pa, pb := Prepare(FromApiAll(env.fetched.value)), Prepare(FromApiAll(other));
      assert Run(job, env) == Proceed(pa, job.code.value, env);
      assert Run(job, env.(fetched := Some(other))) == Proceed(pb, job.code.value, env.(fetched := Some(other)));
      assert Proceed(pb, job.code.value, env.(fetched := Some(other))) == Proceed(pb, job.code.value, env);
      PrepareHiddenInputs(env.fetched.value, other);
      ProceedHiddenInputs(pa, pb, job.code.value, env);
    }
  }

  /**
   * `run_stderr.txt` is one file for the whole job: a visible execution
   * failure reports all of it, whichever test wrote it, so whatever a
   * program prints to stderr while running a hidden test reaches the result.
   */
  lemma RunStderrReachesVisibleFailure(job: JobData, env: Environment)
    requires var r := Run(job, env).result;
      r.Returned? && r.verdict.ExecFailure? && r.verdict.runError.Some?
    ensures Run(job, env).result.verdict.runError == Some(env.runStderr.GetOr(""))
  {
    var ps := Prepare(FromApiAll(env.fetched.value));
    var e := FirstFailing(env.results.value.tests.GetOr([]));
    assert Run(job, env).result.verdict ==
      FailureVerdict(e.value, FindDefinition(ps, e.value.name), env.runStderr.GetOr(""));
  }
}
