# A verified model of the beta-code submission runner, task store and API handlers

This project is a Dafny model of the core of beta-code, a small
programming-exercise site. The model has three parts.

**The submission runner** (`runner/worker.js`) takes a job holding a problem id and
C++ source. It does the following:

- fetches the task's tests and applies field defaults;
- gives every test a distinct, filesystem-safe `safeName`;
- stages a work directory;
- runs a sandbox;
- turns the sandbox's results into a verdict: `No Tests`, `Compile Error`,
  `Time Limit Exceeded`/`Runtime Error`, `Accepted` or `Wrong Answer`;
- removes the work directory on every way out.

The modules are:

- `TestPrep`: the field defaults, the sanitiser `sanitizeTestName` and the renamer `prepareTests`, with its `while (used.has(…))` loop as a method.
- `OutputNorm`: the normaliser `norm`.
- `Staging`: the write plan, `basename` and path joining.
- `Verdicts`: the compile-error and execution-failure branches, and the comparison loop as a method.
- `Worker`: the handler as a method and a function. Everything outside the process is one `Environment` value:
  - the fetched test list;
  - whether `mkdtemp`, the `tests/` and `outs/` directories, the writes and the sandbox succeed;
  - the results record;
  - the stderr files;
  - the output files.

  The method returns the effects it issued, in order.

**The task store** (`frontend/src/lib/tasks.ts`) is the class `TaskStore.Store`. It has two `seq` fields, one for tasks and one for tests, and these operations:

- `createTask`/`createTest` append a record with id max+1;
- `updateTask`/`updateTest` patch the first record with the id;
- `deleteTask` removes the task and its tests;
- `deleteTest` removes the test;
- the getters filter and sort by id.

**The API handlers** are pure decision functions from a normalised request to a response or to a store call. Each has a `Reply` function that turns the store's answer into the response. The handlers are:

- `task-file.ts` (file download);
- `user/signup.ts`;
- `admin/tasks.ts`;
- `admin/tests.ts`.

`JsText` models the JavaScript string primitives the code relies on:

- `trim`/`trimEnd`, over the full ECMAScript whitespace and line-terminator set;
- UTF-16 `length`;
- `endsWith`;
- decimal rendering of numbers.

`Collections` models `filter`, `find`, the stable `sort` by a numeric key and the max-reduce.

Three behaviours of the code a reader might not expect:

- **Fallback name.** The fallback name `test-<index+1>` replaces only a missing or empty name, before sanitising. A name that sanitises to nothing becomes `test`.
- **Line endings.** The comparison ignores line-ending style only for text in which every `\r` is followed by `\n`.
- **`norm` is not idempotent.** `a\r\r\nb` normalises to `a\r\nb`, and a second pass gives `a\nb`.

## Model

| member | source | states |
|---|---|---|
| TestPrep.FromApi | runner/worker.js:35-42 | name, data-file name and content are passed through; input and expected output default to `""`; hidden is true exactly when `is_hidden` is true |
| TestPrep.FromApiAll | runner/worker.js:35-42 | the fetched list is mapped record by record, keeping length and order |
| TestPrep.DropUnsafe | runner/worker.js:48 | removes exactly the leading characters outside `[A-Za-z0-9_-]`, leaving a suffix that is empty or starts in the charset |
| TestPrep.ReplaceUnsafeRuns | runner/worker.js:48 | the result lies in the charset, a string already in the charset is unchanged, and a leading safe character is kept |
| TestPrep.ReplaceUnsafeRunsUsable | runner/worker.js:48 | replacing runs keeps the letters, digits and hyphens, in order |
| TestPrep.ReplaceUnsafeRunsSplit | runner/worker.js:48 | no replaced run crosses a point just after a safe character, so the replacement of `x + y` is that of `x` followed by that of `y` |
| TestPrep.ReplaceUnsafeRunsOneUnderscore | runner/worker.js:48 | a maximal run of characters outside the charset, however long, becomes exactly one `_` |
| TestPrep.TrimLeadingUnderscores | runner/worker.js:49 | removes exactly the leading `_` run; the result does not start with `_` |
| TestPrep.TrimTrailingUnderscores | runner/worker.js:49 | removes exactly the trailing `_` run; the result is a prefix not ending in `_` |
| TestPrep.SanitizeTestName | runner/worker.js:45-50 | the result is non-empty, over `[A-Za-z0-9_-]`, and neither starts nor ends with `_` |
| TestPrep.SanitizeSpec | runner/worker.js:45-50 | the letters, digits and hyphens are kept in order; a name without any becomes `test`; a safe name is unchanged; a leading `-` survives |
| TestPrep.SanitizeIdempotent | runner/worker.js:45-50 | sanitising a sanitised name changes nothing |
| TestPrep.BaseName | runner/worker.js:55 | the base name (the name, or `test-<index+1>` when it is missing or empty, then sanitised) is safe |
| TestPrep.CandidateSafe | runner/worker.js:59 | `base_k` of a safe base is safe |
| TestPrep.CandidateInjective | runner/worker.js:59 | distinct suffixes give distinct names |
| TestPrep.CandidateNotTried | runner/worker.js:58-60 | each attempt is new, so the set of untried used names shrinks (the loop terminates) |
| TestPrep.FirstFree | runner/worker.js:58-60 | the attempt the loop settles on is not in `used` |
| TestPrep.FirstFreeMinimal | runner/worker.js:58-60 | every earlier attempt was in `used` |
| TestPrep.FirstFreeUnique | runner/worker.js:58-60 | the first free attempt is unique |
| TestPrep.Bases | runner/worker.js:55 | one safe base name per test, in order |
| TestPrep.AssignNamesLength | runner/worker.js:54-68 | the renaming pass gives one name per test |
| TestPrep.AssignNamesAt | runner/worker.js:56-61 | name i is the first free attempt for base i, given the names handed out before it |
| TestPrep.PrepareNames | runner/worker.js:63-67 | each prepared entry keeps its test and original name and carries the name of the renaming pass |
| TestPrep.AssignedNameFresh | runner/worker.js:56-61 | each assigned name is safe and differs from every earlier one |
| TestPrep.AssignedNameSuffix | runner/worker.js:56-61 | a base not yet used is kept; otherwise the name is `base_k` with every `base_2`…`base_(k-1)` already used |
| TestPrep.PrepareSpec | runner/worker.js:52-69 | length and order are kept, `originalName` is the input name, and every `safeName` is safe and pairwise distinct |
| TestPrep.PrepareSuffix | runner/worker.js:52-69 | a test keeps its base unless an earlier test took it; otherwise it gets `base_k` for the smallest k ≥ 2 not taken before |
| TestPrep.PrepareSafeNames | runner/worker.js:52-69 | the prepared names are those of the renaming pass |
| TestPrep.FreeName | runner/worker.js:56-60 | the suffix loop returns the first free attempt, which is not in `used` |
| TestPrep.PrepareTests | runner/worker.js:52-69 | the loop over the tests with the `used` set computes `Prepare` |
| JsText.TrimEndSpec | runner/worker.js:72 | `trimEnd` keeps a prefix that does not end in whitespace and drops only whitespace |
| JsText.TrimEndUnique | runner/worker.js:72 | any such prefix is the one `trimEnd` keeps |
| JsText.TrimEndEmptyIffWhitespace | runner/worker.js:72 | `trimEnd` gives `""` exactly for whitespace-only text |
| JsText.TrimEndAppendWhitespace | runner/worker.js:72 | appended whitespace does not change `trimEnd` |
| JsText.TrimStartSpec | frontend/src/pages/api/user/signup.ts:12 | `trimStart` keeps a suffix that does not start with whitespace and drops only whitespace |
| JsText.TrimSpec | frontend/src/pages/api/user/signup.ts:12 | `trim`'s result neither starts nor ends with whitespace, and it is empty exactly for whitespace-only text |
| JsText.TrimPadded | frontend/src/pages/api/user/signup.ts:12 | whitespace added at either end does not change `trim` |
| JsText.TrimStartPrependWhitespace | frontend/src/pages/api/user/signup.ts:12 | leading whitespace does not change `trimStart` |
| JsText.TrimEndPrepend | frontend/src/pages/api/user/signup.ts:12 | `trimEnd` of `w + u`, where `w` is all whitespace, keeps `w` unless `u` is all whitespace |
| JsText.TrimStartNonEmpty | frontend/src/pages/api/user/signup.ts:12 | trimming the front of text that does not end in whitespace keeps its last character |
| JsText.JsLength | frontend/src/pages/api/user/signup.ts:23 | the UTF-16 length is between the code-point count and twice it |
| JsText.NatToString | runner/worker.js:55 | the decimal rendering is non-empty and all digits, with two or more digits from 10 on |
| JsText.NatToStringInjective | runner/worker.js:59 | distinct numbers render differently |
| OutputNorm.ReplaceCrlf | runner/worker.js:72 | the replace never lengthens the text |
| OutputNorm.ReplaceCrlfNoCr | runner/worker.js:72 | text without `\r` is unchanged by the replace |
| OutputNorm.ReplaceCrlfDropsCr | runner/worker.js:72 | when every `\r` is followed by `\n`, the replace removes exactly the `\r`s |
| OutputNorm.ReplaceCrlfAppend | runner/worker.js:72 | the replace splits at any boundary that does not cut a `\r\n` |
| OutputNorm.ReplaceCrlfWhitespace | runner/worker.js:72 | whitespace-only text stays whitespace-only |
| OutputNorm.ReplaceCrlfExample | runner/worker.js:72 | the replace is non-overlapping: `a\r\r\nb` becomes `a\r\nb` |
| OutputNorm.NormNoTrailingWhitespace | runner/worker.js:71-73 | `norm(s)` is no longer than `s` and does not end in whitespace |
| OutputNorm.NormIgnoresTrailingWhitespace | runner/worker.js:71-73 | `norm(s + w) == norm(s)` for any whitespace-only `w`, including `\r\n` split across the boundary |
| OutputNorm.NormLineEndingInsensitive | runner/worker.js:71-73 | texts without stray `\r` that differ only in `\r\n` versus `\n` normalise alike |
| OutputNorm.NormFixesCanonical | runner/worker.js:71-73 | text without `\r` and trailing whitespace is its own normal form |
| OutputNorm.NormNotIdempotent | runner/worker.js:71-73 | `norm(norm("a\r\r\nb")) != norm("a\r\r\nb")` |
| OutputNorm.DropCr | runner/worker.js:72 | the result contains no `\r` |
| Staging.StripTrailingSlashes | runner/worker.js:129 | a prefix of the name that does not end in `/` |
| Staging.AfterLastSlash | runner/worker.js:129 | a suffix of the name without `/` |
| Staging.Basename | runner/worker.js:129 | `basename` contains no `/` |
| Staging.DataFilePath | runner/worker.js:125-129 | a plain basename gives `testdata/<safeName>/<basename>`; otherwise the joined path is the data directory or `testdata` |
| Staging.SafeNamePlain | runner/worker.js:120 | a safe name and its `.in` file name are plain path components |
| Staging.TestWritesCases | runner/worker.js:118-135 | a test writes its input file and, when it has one, its data file, and nothing else |
| Staging.DataFileWrittenIff | runner/worker.js:124-133 | a data file is written exactly when name and content are non-empty, and only inside that test's `testdata/<safeName>/` (or onto `testdata` for a `..` basename) |
| Staging.WritesDisjoint | runner/worker.js:118-135 | tests with distinct safe names never write the same file |
| Staging.AllTestWritesHas | runner/worker.js:118-135 | every test's writes are in the plan |
| Staging.AllTestWritesFrom | runner/worker.js:118-135 | every write in the plan comes from one test |
| Staging.Stage | runner/worker.js:115-136 | the `writeOps` loop issues `main.cpp`, then each test's writes in order |
| Verdicts.Checks | runner/worker.js:166-168 | entry i is true exactly when test i's normalised output equals its normalised expected output |
| Verdicts.Report | runner/worker.js:171-177 | status is OK exactly on a match; a hidden test's entry is `hidden` with no output, expected or input; otherwise they are shown with the original name, or the safe name when there is none |
| Verdicts.FirstFalse | runner/worker.js:179 | the index of the first false entry, or the length when there is none |
| Verdicts.FirstMismatch | runner/worker.js:166-179 | the index of the first mismatching test, with every earlier test matching |
| Verdicts.GradeWithEntries | runner/worker.js:166-180 | the list has one entry per test up to and including the first false one, each the test's report |
| Verdicts.GradeEntries | runner/worker.js:166-180 | the graded list has the tests up to and including the first mismatch, in order, each with its report |
| Verdicts.GradeShape | runner/worker.js:166-180 | every entry but the last is OK, and the last is WA when a test mismatched |
| Verdicts.AcceptedIffAllMatch | runner/worker.js:182 | all tests match exactly when the list covers every test and every entry is OK |
| Verdicts.GradeRedactsHidden | runner/worker.js:172-176 | no entry of a hidden test carries its name, output, expected output or input |
| Verdicts.CompareOutputs | runner/worker.js:163-182 | the loop builds exactly the graded list, and `allAccepted` is true exactly when every test matches |
| Verdicts.AllMatchIff | runner/worker.js:164-169 | every test matches exactly when no check is false |
| Verdicts.FirstFailing | runner/worker.js:152 | the first entry with a present status other than `OK`, or none exactly when there is no such entry |
| Verdicts.FindDefinition | runner/worker.js:154 | the first prepared test answering to the name by safe or original name, or none exactly when no test does |
| Verdicts.FailureVerdict | runner/worker.js:155-160 | `TLE` gives Time Limit Exceeded, anything else Runtime Error; a hidden test is reported as `hidden` without error or input; an unknown name is reported as given |
| Verdicts.AssembleCases | runner/worker.js:148-182 | a compile error (with stderr, `""` if unreadable) comes first, then an execution failure exactly when an entry fails, then the graded list |
| Verdicts.AcceptedIff | runner/worker.js:148-182 | Accepted exactly when there is no compile error, no failing entry, and every test matches |
| Verdicts.WrongAnswerShape | runner/worker.js:163-182 | on Wrong Answer the list has length first-mismatch + 1, the last entry WA and the rest OK |
| Verdicts.HiddenInputsDoNotLeak | runner/worker.js:148-182 | for the same results record, stderr and outputs, the verdict is the same for test lists that differ only in hidden tests' inputs |
| Verdicts.FailureVerdictHiddenInputs | runner/worker.js:154-160 | the execution-failure verdict is the same for such lists |
| Verdicts.GradeHiddenInputs | runner/worker.js:163-182 | the graded list and acceptance are the same for such lists |
| Verdicts.GradeWithHiddenInputs | runner/worker.js:166-180 | the per-test entries are the same for such lists |
| Verdicts.FindDefinitionHiddenInputs | runner/worker.js:154 | the test found for a name agrees in name, hidden flag and, when visible, input |
| Worker.HandleJob | runner/worker.js:100-185 | the handler returns the result and issues the effects of `Run` |
| Worker.HandlePrepared | runner/worker.js:105-185 | from the `No Tests` check on, the handler follows `Proceed`, with removal in `finally` |
| Worker.GradeJob | runner/worker.js:142-182 | the verdict from the sandbox's results is `Assemble`'s |
| Worker.MissingInputFails | runner/worker.js:100-104 | a falsy (absent or empty) `problemId` or `code` throws before any effect, this error has no other cause, and any other job goes on to the fetch |
| Worker.ZeroIdReachesFetch | runner/worker.js:101-104 | the queued id `"0"` is truthy, so the job fetches task 0 and fails at the fetch, not with the missing-input error |
| Worker.WorkDirFailureRemovesNothing | runner/worker.js:108-110 | a failing `mkdtemp` is outside the `try`: the job throws with no effect and no removal |
| Worker.WritesFollowDirectories | runner/worker.js:111-138 | no file is written before `tests/` and `outs/` have both been created, in that order |
| Worker.ProceedWritesFollowDirectories | runner/worker.js:111-138 | the same from the `No Tests` check on |
| Worker.NoTestsBeforeAnyWork | runner/worker.js:104-107 | an empty test list returns `No Tests` with the fixed message and no effect |
| Worker.NoTestsIff | runner/worker.js:104-107 | `No Tests` is returned exactly for an empty fetched list |
| Worker.CleanupOnEveryExit | runner/worker.js:108-185 | once the work directory is created, every exit removes it, last and once |
| Worker.ProceedCleanup | runner/worker.js:108-185 | the same from the `No Tests` check on |
| Worker.StagedCleanup | runner/worker.js:110-185 | a trace that stages the writes and ends with the removal has one creation, first, and one removal, last |
| Worker.PlanHasNoLifecycleEffects | runner/worker.js:115-136 | the write plan only creates data directories and writes files |
| Worker.SandboxRunsAfterStaging | runner/worker.js:108-140 | the sandbox runs only after the work directory, both subdirectories and every write have been issued and have succeeded |
| Worker.ProceedSandboxAfterStaging | runner/worker.js:138-140 | the same from the `No Tests` check on |
| Worker.AcceptedIffAllTestsMatch | runner/worker.js:100-182 | a job is Accepted exactly when it reaches the comparison and every test matches |
| Worker.PrepareHiddenInputs | runner/worker.js:52-69 | lists that differ only in hidden inputs are prepared alike |
| Worker.ProceedHiddenInputs | runner/worker.js:105-182 | such prepared lists give the same result |
| Worker.HiddenInputsNeverLeak | runner/worker.js:100-185 | for the same sandbox results, stderr files and output files, the job's result does not depend on the input of a hidden test |
| Worker.RunStderrReachesVisibleFailure | runner/worker.js:146-160 | a visible execution failure reports the whole job-wide `run_stderr.txt`, whichever test wrote to it |
| Collections.Filter | frontend/src/lib/tasks.ts:175 | filtering never lengthens the list |
| Collections.FilterMembers | frontend/src/lib/tasks.ts:189 | an element is kept exactly when it is in the list and passes the test |
| Collections.FilterLength | frontend/src/lib/tasks.ts:175-176 | the length is unchanged exactly when every element passes, and then the list is unchanged |
| Collections.FilterAppend | frontend/src/lib/tasks.ts:175 | filtering distributes over concatenation, so it keeps relative order |
| Collections.FindIndex | frontend/src/lib/tasks.ts:123 | the first index whose element passes, or the length when none does |
| Collections.FindIndexSortedMin | frontend/src/pages/api/problems/task-file.ts:20-25 | in a list sorted by key, the first element found has the smallest key among those that pass |
| Collections.InsertBy | frontend/src/lib/tasks.ts:118 | insertion adds exactly the element |
| Collections.InsertByKeysAtLeast | frontend/src/lib/tasks.ts:118 | insertion keeps a lower bound on keys |
| Collections.InsertBySorted | frontend/src/lib/tasks.ts:118 | insertion into a sorted list keeps it sorted |
| Collections.SortBy | frontend/src/lib/tasks.ts:118 | sorting is a permutation of the same length |
| Collections.SortBySpec | frontend/src/lib/tasks.ts:118 | the sorted list is in ascending key order and a permutation |
| Collections.InsertByFilterKey | frontend/src/lib/tasks.ts:118 | insertion keeps the order of the elements with any one key, and puts the new element before the others with its key |
| Collections.SortByStable | frontend/src/lib/tasks.ts:118 | the sort is stable: the elements with any one key keep their input order |
| Collections.SortByMembers | frontend/src/lib/tasks.ts:191 | sorting neither adds nor drops an element |
| Collections.MaxKey | frontend/src/lib/tasks.ts:136 | the reduce is at least the start value, at least every key, and equal to the start or to some key |
| TaskStore.NextId | frontend/src/lib/tasks.ts:136 | the next id is at least 1, exceeds every id, and is 1 or one more than an existing id |
| TaskStore.AppendFreshKeepsUnique | frontend/src/lib/tasks.ts:148 | appending a record with a larger id keeps ids unique |
| TaskStore.FilterKeepsUnique | frontend/src/lib/tasks.ts:175 | filtering keeps ids unique |
| TaskStore.UpdateKeepsUnique | frontend/src/lib/tasks.ts:161-166 | rewriting a record's fields keeps ids unique |
| TaskStore.PatchTask | frontend/src/lib/tasks.ts:161-166 | a patch never changes the id or creation time |
| TaskStore.PatchTaskFields | frontend/src/lib/tasks.ts:161-166 | each of the six fields is kept when omitted and takes the supplied value otherwise; patching is idempotent, and the empty patch is the identity |
| TaskStore.PatchTest | frontend/src/lib/tasks.ts:231-236 | a patch never changes the id, task id or creation time |
| TaskStore.PatchTestFields | frontend/src/lib/tasks.ts:231-236 | each of the six fields is kept when omitted and takes the supplied value otherwise, and a data-file field can be set to `null`; patching is idempotent |
| TaskStore.Store.constructor | frontend/src/lib/tasks.ts:68-80 | the store holds the given task and test lists |
| TaskStore.Store.AllTasks | frontend/src/lib/tasks.ts:116-119 | all tasks, as a permutation, in ascending id order |
| TaskStore.Store.TaskById | frontend/src/lib/tasks.ts:121-125 | the first task with the id, or none exactly when no task has it |
| TaskStore.Store.TestsForTask | frontend/src/lib/tasks.ts:186-192 | exactly the tests of that task, in ascending id order |
| TaskStore.Store.CreateTask | frontend/src/lib/tasks.ts:127-151 | appends a task with id max+1, distinct from every id; nothing else changes, and the task is then found by id |
| TaskStore.Store.UpdateTask | frontend/src/lib/tasks.ts:153-170 | an unknown id changes nothing and gives none; otherwise only the first task with the id is patched and returned |
| TaskStore.Store.DeleteTask | frontend/src/lib/tasks.ts:172-184 | false exactly when no task had the id, and then nothing changes; otherwise the task and all its tests are removed, the rest in order |
| TaskStore.Store.CreateTest | frontend/src/lib/tasks.ts:194-221 | appends a test with id max+1 and the given (possibly `null`) data-file fields; nothing else changes |
| TaskStore.Store.UpdateTest | frontend/src/lib/tasks.ts:223-240 | an unknown id changes nothing and gives none; otherwise only the first test with the id is patched and returned |
| TaskStore.Store.DeleteTest | frontend/src/lib/tasks.ts:242-249 | true exactly when some test had the id; exactly those tests are removed |
| TaskStore.DeleteTaskCascade | frontend/src/lib/tasks.ts:175-179 | after deletion no task with the id and no test of it remain, every other record is kept, and order is kept |
| TaskFileApi.ServeTaskFile | frontend/src/pages/api/problems/task-file.ts:12-17 | a falsy `taskId` or missing `fileName` gives 400 |
| TaskFileApi.LookUpNoneIff | frontend/src/pages/api/problems/task-file.ts:23-25 | the lookup finds nothing exactly when no test of the task is visible with that file name and non-empty content |
| TaskFileApi.LookUpFound | frontend/src/pages/api/problems/task-file.ts:20-25 | the test found belongs to the task, qualifies, and has the smallest id among those that qualify |
| TaskFileApi.NotFoundIff | frontend/src/pages/api/problems/task-file.ts:27-32 | 404 "File not found" exactly when the parameters are present and no test qualifies |
| TaskFileApi.ServedFileIsVisible | frontend/src/pages/api/problems/task-file.ts:40-45 | a 200 body is the non-empty content of a visible test with exactly that file name, offered under that name; the status is 200, 400 or 404 |
| TaskFileApi.BadRequestBeforeStore | frontend/src/pages/api/problems/task-file.ts:12-17 | status 400 exactly on missing parameters, whatever the store holds |
| TaskFileApi.ContentTypeSpec | frontend/src/pages/api/problems/task-file.ts:34-38 | `.json` gives JSON, `.csv` gives CSV, anything else plain text |
| SignupApi.ValidateIff | frontend/src/pages/api/user/signup.ts:16-35 | the input is accepted exactly for a trimmed username of 3–50 UTF-16 units and a password of at least 6; every refusal is 400 |
| SignupApi.ValidationOrder | frontend/src/pages/api/user/signup.ts:16-35 | missing fields are reported first, then the username length; the password length only once the username passes |
| SignupApi.UsernameTrimmedPasswordNot | frontend/src/pages/api/user/signup.ts:12-13 | whitespace around the username is ignored; the password is passed on as typed |
| SignupApi.SignupOutcomes | frontend/src/pages/api/user/signup.ts:38-74 | 201 with only id, username and completed tasks and the session cookie exactly on creation; 409 for a taken name; 500 when anything throws |
| AdminTasksApi.ForbiddenUnlessAdmin | frontend/src/pages/api/admin/tasks.ts:12-16 | every method answers 403 exactly when the user is not a signed-in admin |
| AdminTasksApi.NormalizeSpec | frontend/src/pages/api/admin/tasks.ts:38-45 | type is `fix` only for `"fix"`; the difficulty is kept only if it is one of the three levels, else `Easy`; points default to 50 and supplied points are kept; name and description are their inputs trimmed (no whitespace at either end, empty exactly for whitespace-only input), the code preview is passed on untrimmed |
| AdminTasksApi.EmptyNameRefused | frontend/src/pages/api/admin/tasks.ts:47-49 | a name that trims to nothing gives 400 on `POST`, and on `PUT` with an id |
| AdminTasksApi.IdCheckedFirst | frontend/src/pages/api/admin/tasks.ts:83-84 | on `DELETE` and `PUT`, "Missing id" exactly for a falsy id, before the name check |
| AdminTasksApi.CallsCarryValidInput | frontend/src/pages/api/admin/tasks.ts:51-99 | the store gets a non-zero id for updates and deletions and a non-empty trimmed name for creations and updates |
| AdminTasksApi.PutResetsOmittedFields | frontend/src/pages/api/admin/tasks.ts:86-99 | a `PUT` resets fields the body omits to their defaults |
| AdminTasksApi.ReplyStatus | frontend/src/pages/api/admin/tasks.ts:52-104 | 201 with the task exactly for a creation, 404 exactly for an update of an unknown id, 200 otherwise |
| AdminTestsApi.ForbiddenUnlessAdmin | frontend/src/pages/api/admin/tests.ts:11-15 | every method answers 403 exactly when the user is not a signed-in admin |
| AdminTestsApi.GetNeedsTaskId | frontend/src/pages/api/admin/tests.ts:24-28 | `GET` gives 400 exactly for a falsy `taskId` and otherwise lists that task's tests |
| AdminTestsApi.PostChecksInOrder | frontend/src/pages/api/admin/tests.ts:42-51 | `task_id` is checked before the name; the store is called exactly when both are present |
| AdminTestsApi.PostDefaults | frontend/src/pages/api/admin/tests.ts:42-61 | input and expected output are passed on and default to `""`; the hidden flag is the coerced boolean; a supplied data-file name is stored trimmed (whitespace-only gives `""`), a missing one as `null`; the content is passed on |
| AdminTestsApi.DeleteAnswersStore | frontend/src/pages/api/admin/tests.ts:75-80 | `DELETE` gives 400 exactly for a falsy id; otherwise `success` is the store's answer |

## Left out

- The sandbox (`runDocker`): container limits, network isolation and the 30 s timeout belong to the container runtime. The model's `Environment` supplies the sandbox's outcome, results record, stderr files and output files.
- The job queue (BullMQ, Redis, worker concurrency): the handler is modelled for one job.
- File and network I/O (the JSON stores, the test fetch, `mkdtemp`, `mkdir`, `writeFile`, `readFile`, `rm`): each is a value in the model (the store's fields, the fetched list, and the `Environment` flags for `mkdtemp`, the two `mkdir`s and the writes). A failing `rm` is swallowed in the source, so in the model removal always happens.
- Worker.HiddenInputsNeverLeak: the sandbox's results record, stderr files and output files are inputs of the model, not computed from the tests' inputs. `run_stderr.txt` is one file for the whole job, and a visible Runtime Error or Time Limit Exceeded result carries all of it (`Worker.RunStderrReachesVisibleFailure`). So a program that echoes a hidden test's input to stderr can make that input appear in the result.
- JSON parsing. A non-array test list and an unparsable results file are each one `None` case.
- Order of the parallel writes (`Promise.all`): the plan lists them in issue order. The writes are taken to all succeed or the job to fail, with no partial effects.
- TestPrep.SanitizeTestName: Unicode NFKD normalisation is taken as the identity, because it depends on Unicode tables.
- `Number(...)` coercion: ids and points are integers, and `None` stands for `NaN`. Fractional numbers and a non-numeric `points` (which becomes `NaN`, not 50) are not modelled.
- Worker.Run: the task id `Number(problemId)` is not computed. The tests endpoint's answer for it is the `fetched` value of the `Environment`, which is `None` when the endpoint refuses an id of 0 or `NaN`.
- Worker.JobData: the job's fields are taken to be strings, as the submit endpoint queues them (`frontend/src/pages/api/problems/submit.ts:14-15`); a job carrying a number is not modelled.
- `String(...)` of non-string values: the request fields are strings or absent.
- JSON `null` versus `undefined`: the two are one `None` for the fields of fetched tests and of result entries, so a test without a name answers to a result entry without a name even where the source's `===` would tell `null` from `undefined`. `TaskStore.TestPatch` keeps them apart.
- `Date` and `toISOString`: `created_at` is an opaque `Timestamp` passed to the create methods, and reading the clock is left out.
- `initTasksTable`, `initUsersTable` and the default-task seeding: store setup is not part of this model.
- `frontend/src/lib/users.ts` (database queries and password hashing) and the session store. `createUser`'s outcome and the session cookie are parameters of `SignupApi.Signup`, and the current user is a parameter of the admin handlers.
- The settings module, the static problem catalogue and the other endpoints (login, logout, me, submit, status, save/load code, complete-task, the public task listings). These are not part of this model.
- Staging.DataFilePath: a data-file name whose basename is `""`, `.` or `..` makes the path a directory the job creates. The model then fails the job at staging (`StagingFailed`) instead of describing the operating-system error.
- Staging.TestWrites: a data-file name or content given as a non-string truthy value is not modelled.
- TaskFileApi.ServeTaskFile: the source's second `!test.data_file_content` check repeats a condition of the lookup. It is modelled as written, and `TaskFileApi.LookUpFound` shows it cannot fire.
