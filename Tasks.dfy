/**
 * The task and test store of the frontend: two tables of records, each
 * kept as a list in file order. Loading and saving the JSON files is not
 * modelled; the store object holds the two lists the operations read and
 * replace.
 */
module TaskStore {
  import opened Common
  import opened Collections

  /** The moment a record was created, kept as an uninterpreted value. */
  datatype Timestamp = Timestamp(millis: int)

  datatype TaskType = Solve | Fix

  datatype Task = Task(
    id: int,
    name: string,
    description: string,
    codePreview: string,
    points: int,
    kind: TaskType,
    difficulty: string,
    createdAt: Timestamp)

  datatype TaskTest = TaskTest(
    id: int,
    taskId: int,
    name: string,
    input: string,
    expectedOutput: string,
    isHidden: bool,
    dataFileName: Option<string>,
    dataFileContent: Option<string>,
    createdAt: Timestamp)

  /** The fields `createTask` takes. */
  datatype TaskData = TaskData(
    name: string, description: string, codePreview: string,
    points: int, kind: TaskType, difficulty: string)

  /** The fields `createTest` takes; an absent or `null` data file field is `None`. */
  datatype TestData = TestData(
    taskId: int, name: string, input: string, expectedOutput: string, isHidden: bool,
    dataFileName: Option<string>, dataFileContent: Option<string>)

  /** The fields `updateTask` takes: `None` is a field left `undefined`. */
  datatype TaskPatch = TaskPatch(
    name: Option<string>, description: Option<string>, codePreview: Option<string>,
    points: Option<int>, kind: Option<TaskType>, difficulty: Option<string>)

  /**
   * The fields `updateTest` takes: `None` is a field left `undefined`; for
   * the data file fields `Some(None)` sets the field to `null`.
   */
  datatype TestPatch = TestPatch(
    name: Option<string>, input: Option<string>, expectedOutput: Option<string>,
    isHidden: Option<bool>, dataFileName: Option<Option<string>>,
    dataFileContent: Option<Option<string>>)

  function TaskKey(t: Task): int { t.id }
  function TestKey(t: TaskTest): int { t.id }

  function HasTaskId(id: int): Task -> bool { (t: Task) => t.id == id }
  function LacksTaskId(id: int): Task -> bool { (t: Task) => t.id != id }
  function HasTestId(id: int): TaskTest -> bool { (t: TaskTest) => t.id == id }
  function LacksTestId(id: int): TaskTest -> bool { (t: TaskTest) => t.id != id }
  function BelongsTo(taskId: int): TaskTest -> bool { (t: TaskTest) => t.taskId == taskId }
  function NotOf(taskId: int): TaskTest -> bool { (t: TaskTest) => t.taskId != taskId }

  /** No two records share an id. */
  predicate UniqueIds<T>(s: seq<T>, key: T -> int) {
    forall i, j :: 0 <= i < j < |s| ==> key(s[i]) != key(s[j])
  }

  /** `reduce((max, r) => Math.max(max, r.id), 0) + 1`: larger than every id and than 0. */
  function NextId<T>(s: seq<T>, key: T -> int): (n: int)
    ensures n >= 1
    ensures forall i :: 0 <= i < |s| ==> key(s[i]) < n
    ensures n == 1 || exists i :: 0 <= i < |s| && key(s[i]) == n - 1
  {
    MaxKey(s, key, 0) + 1
  }

  /** Appending a record whose id exceeds every existing id keeps the ids unique. */
  lemma AppendFreshKeepsUnique<T>(s: seq<T>, key: T -> int, x: T)
    requires UniqueIds(s, key)
    requires forall i :: 0 <= i < |s| ==> key(s[i]) < key(x)
    ensures UniqueIds(s + [x], key)
  {
    var r := s + [x];
    forall i, j | 0 <= i < j < |r| ensures key(r[i]) != key(r[j]) {
      assert r[i] == s[i];
    }
  }

  /** No record of `s` has the id `k`. */
  predicate KeyAbsent<T>(s: seq<T>, key: T -> int, k: int) {
    forall i :: 0 <= i < |s| ==> key(s[i]) != k
  }

  lemma UniqueCons<T>(x: T, u: seq<T>, key: T -> int)
    requires UniqueIds(u, key) && KeyAbsent(u, key, key(x))
    ensures UniqueIds([x] + u, key)
  {
    var r := [x] + u;
    forall i, j | 0 <= i < j < |r| ensures key(r[i]) != key(r[j]) {
      assert r[j] == u[j - 1];
      if i > 0 { assert r[i] == u[i - 1]; }
    }
  }

  lemma UniqueTail<T>(s: seq<T>, key: T -> int)
    requires s != [] && UniqueIds(s, key)
    ensures UniqueIds(s[1..], key) && KeyAbsent(s[1..], key, key(s[0]))
  {
    var t := s[1..];
    forall i, j | 0 <= i < j < |t| ensures key(t[i]) != key(t[j]) {
      assert t[i] == s[i + 1] && t[j] == s[j + 1];
    }
    forall i | 0 <= i < |t| ensures key(t[i]) != key(s[0]) {
      assert t[i] == s[i + 1];
    }
  }

  /** Filtering never brings in an id the list did not have. */
  lemma {:induction false} FilterKeyAbsent<T>(s: seq<T>, key: T -> int, p: T -> bool, k: int)
    requires KeyAbsent(s, key, k)
    ensures KeyAbsent(Filter(s, p), key, k)
  {
    if s != [] {
      assert KeyAbsent(s[1..], key, k) by {
        forall i | 0 <= i < |s[1..]| ensures key(s[1..][i]) != k { assert s[1..][i] == s[i + 1]; }
      }
      FilterKeyAbsent(s[1..], key, p, k);
    }
  }

  /** A filtered list keeps unique ids unique. */
  lemma {:induction false} FilterKeepsUnique<T>(s: seq<T>, key: T -> int, p: T -> bool)
    requires UniqueIds(s, key)
    ensures UniqueIds(Filter(s, p), key)
  {
    if s != [] {
      UniqueTail(s, key);
      FilterKeepsUnique(s[1..], key, p);
      if p(s[0]) {
        FilterKeyAbsent(s[1..], key, p, key(s[0]));
        UniqueCons(s[0], Filter(s[1..], p), key);
      }
    }
  }

  /** Replacing one record by one with the same id keeps the ids unique. */
  lemma UpdateKeepsUnique<T>(s: seq<T>, key: T -> int, i: nat, x: T)
    requires UniqueIds(s, key) && i < |s| && key(x) == key(s[i])
    ensures UniqueIds(s[i := x], key)
  {
  }

  /** The task with the supplied fields of `p` written over those of `t`. */
  function PatchTask(t: Task, p: TaskPatch): (r: Task)
    ensures r.id == t.id && r.createdAt == t.createdAt
  {
    t.(name := p.name.GetOr(t.name),
       description := p.description.GetOr(t.description),
       codePreview := p.codePreview.GetOr(t.codePreview),
       points := p.points.GetOr(t.points),
       kind := p.kind.GetOr(t.kind),
       difficulty := p.difficulty.GetOr(t.difficulty))
  }

  /** The test with the supplied fields of `p` written over those of `t`. */
  function PatchTest(t: TaskTest, p: TestPatch): (r: TaskTest)
    ensures r.id == t.id && r.taskId == t.taskId && r.createdAt == t.createdAt
  {
    t.(name := p.name.GetOr(t.name),
       input := p.input.GetOr(t.input),
       expectedOutput := p.expectedOutput.GetOr(t.expectedOutput),
       isHidden := p.isHidden.GetOr(t.isHidden),
       dataFileName := p.dataFileName.GetOr(t.dataFileName),
       dataFileContent := p.dataFileContent.GetOr(t.dataFileContent))
  }

  /** A field a patch leaves out keeps its value, and one it supplies takes the patch's value. */
  lemma PatchTaskFields(t: Task, p: TaskPatch)
    ensures p.name.None? ==> PatchTask(t, p).name == t.name
    ensures p.name.Some? ==> PatchTask(t, p).name == p.name.value
    ensures p.description.None? ==> PatchTask(t, p).description == t.description
    ensures p.description.Some? ==> PatchTask(t, p).description == p.description.value
    ensures p.codePreview.None? ==> PatchTask(t, p).codePreview == t.codePreview
    ensures p.codePreview.Some? ==> PatchTask(t, p).codePreview == p.codePreview.value
    ensures p.points.None? ==> PatchTask(t, p).points == t.points
    ensures p.points.Some? ==> PatchTask(t, p).points == p.points.value
    ensures p.kind.None? ==> PatchTask(t, p).kind == t.kind
    ensures p.kind.Some? ==> PatchTask(t, p).kind == p.kind.value
    ensures p.difficulty.None? ==> PatchTask(t, p).difficulty == t.difficulty
    ensures p.difficulty.Some? ==> PatchTask(t, p).difficulty == p.difficulty.value
    ensures PatchTask(PatchTask(t, p), p) == PatchTask(t, p)
    ensures PatchTask(t, TaskPatch(None, None, None, None, None, None)) == t
  {
  }

  /**
   * A field a patch leaves out keeps its value, one it supplies takes the
   * patch's value, and a data file field can be cleared to `null`.
   */
  lemma PatchTestFields(t: TaskTest, p: TestPatch)
    ensures p.name.None? ==> PatchTest(t, p).name == t.name
    ensures p.name.Some? ==> PatchTest(t, p).name == p.name.value
    ensures p.input.None? ==> PatchTest(t, p).input == t.input
    ensures p.input.Some? ==> PatchTest(t, p).input == p.input.value
    ensures p.expectedOutput.None? ==> PatchTest(t, p).expectedOutput == t.expectedOutput
    ensures p.expectedOutput.Some? ==> PatchTest(t, p).expectedOutput == p.expectedOutput.value
    ensures p.isHidden.None? ==> PatchTest(t, p).isHidden == t.isHidden
    ensures p.isHidden.Some? ==> PatchTest(t, p).isHidden == p.isHidden.value
    ensures p.dataFileName.None? ==> PatchTest(t, p).dataFileName == t.dataFileName
    ensures p.dataFileName.Some? ==> PatchTest(t, p).dataFileName == p.dataFileName.value
    ensures p.dataFileName == Some(None) ==> PatchTest(t, p).dataFileName.None?
    ensures p.dataFileContent.None? ==> PatchTest(t, p).dataFileContent == t.dataFileContent
    ensures p.dataFileContent.Some? ==> PatchTest(t, p).dataFileContent == p.dataFileContent.value
    ensures PatchTest(PatchTest(t, p), p) == PatchTest(t, p)
  {
  }

  class Store {
    var tasks: seq<Task>
    var tests: seq<TaskTest>

    constructor (tasks0: seq<Task>, tests0: seq<TaskTest>)
      ensures tasks == tasks0 && tests == tests0
    {
      tasks := tasks0;
      tests := tests0;
    }

    /** `getAllTasks`: every task, in ascending id order. */
    function AllTasks(): (r: seq<Task>)
      reads this
      ensures SortedBy(r, TaskKey)
      ensures multiset(r) == multiset(tasks)
    {
      SortBySpec(tasks, TaskKey);
      SortBy(tasks, TaskKey)
    }

    /** `getTaskById`: the first task with that id, or `None`. */
    function TaskById(id: int): (r: Option<Task>)
      reads this
      ensures r.None? <==> forall i :: 0 <= i < |tasks| ==> tasks[i].id != id
      ensures r.Some? ==> r.value.id == id
      ensures r.Some? ==> exists i :: 0 <= i < |tasks| && tasks[i] == r.value && forall j :: 0 <= j < i ==> tasks[j].id != id
    {
      var i := FindIndex(tasks, HasTaskId(id));
      if i < |tasks| then Some(tasks[i]) else None
    }

    /** `getTestsForTask`: exactly the tests of that task, in ascending id order. */
    function TestsForTask(taskId: int): (r: seq<TaskTest>)
      reads this
      ensures SortedBy(r, TestKey)
      ensures multiset(r) == multiset(Filter(tests, BelongsTo(taskId)))
      ensures forall t :: t in r <==> t in tests && t.taskId == taskId
    {
      var mine := Filter(tests, BelongsTo(taskId));
      SortBySpec(mine, TestKey);
      SortByMembers(mine, TestKey);
      FilterMembers(tests, BelongsTo(taskId));
      SortBy(mine, TestKey)
    }

    /** `createTask`: a record with the next id is appended; nothing else changes. */
    method CreateTask(data: TaskData, now: Timestamp) returns (task: Task)
      modifies this
      ensures task == Task(NextId(old(tasks), TaskKey), data.name, data.description, data.codePreview,
                           data.points, data.kind, data.difficulty, now)
      ensures forall i :: 0 <= i < |old(tasks)| ==> old(tasks)[i].id != task.id
      ensures tasks == old(tasks) + [task] && tests == old(tests)
      ensures UniqueIds(old(tasks), TaskKey) ==> UniqueIds(tasks, TaskKey)
      ensures TaskById(task.id) == Some(task)
    {
      var nextId := NextId(tasks, TaskKey);
      task := Task(nextId, data.name, data.description, data.codePreview,
                   data.points, data.kind, data.difficulty, now);
      if UniqueIds(tasks, TaskKey) {
        AppendFreshKeepsUnique(tasks, TaskKey, task);
      }
      tasks := tasks + [task];
      assert tasks[|tasks| - 1] == task;
    }

    /**
     * `updateTask`: the first task with the id takes the supplied fields and
     * is returned; with no such task nothing changes and `None` is returned.
     */
    method UpdateTask(id: int, patch: TaskPatch) returns (r: Option<Task>)
      modifies this
      ensures tests == old(tests)
      ensures r.None? <==> forall i :: 0 <= i < |old(tasks)| ==> old(tasks)[i].id != id
      ensures r.None? ==> tasks == old(tasks)
      ensures r.Some? ==> var i := FindIndex(old(tasks), HasTaskId(id));
        && i < |old(tasks)|
        && tasks == old(tasks)[i := PatchTask(old(tasks)[i], patch)]
        && r.value == tasks[i] && r.value.id == id
      ensures UniqueIds(old(tasks), TaskKey) ==> UniqueIds(tasks, TaskKey)
    {
      var i := FindIndex(tasks, HasTaskId(id));
      if i == |tasks| {
        return None;
      }
      var updated := PatchTask(tasks[i], patch);
      if UniqueIds(tasks, TaskKey) {
        UpdateKeepsUnique(tasks, TaskKey, i, updated);
      }
      tasks := tasks[i := updated];
      r := Some(updated);
    }

    /**
     * `deleteTask`: with no task of that id nothing changes and the answer is
     * false; otherwise every task with the id and every test of that task
     * is removed, the rest keeping their order.
     */
    method DeleteTask(id: int) returns (deleted: bool)
      modifies this
      ensures deleted <==> exists i :: 0 <= i < |old(tasks)| && old(tasks)[i].id == id
      ensures !deleted ==> tasks == old(tasks) && tests == old(tests)
      ensures deleted ==> tasks == Filter(old(tasks), LacksTaskId(id))
      ensures deleted ==> tests == Filter(old(tests), NotOf(id))
      ensures UniqueIds(old(tasks), TaskKey) ==> UniqueIds(tasks, TaskKey)
    {
      var filtered := Filter(tasks, LacksTaskId(id));
      FilterLength(tasks, LacksTaskId(id));
      if |filtered| == |tasks| {
        return false;
      }
      if UniqueIds(tasks, TaskKey) {
        FilterKeepsUnique(tasks, TaskKey, LacksTaskId(id));
      }
      tests := Filter(tests, NotOf(id));
      tasks := filtered;
      deleted := true;
    }

    /** `createTest`: a record with the next test id is appended; nothing else changes. */
    method CreateTest(data: TestData, now: Timestamp) returns (test: TaskTest)
      modifies this
      ensures test == TaskTest(NextId(old(tests), TestKey), data.taskId, data.name, data.input,
                               data.expectedOutput, data.isHidden, data.dataFileName,
                               data.dataFileContent, now)
      ensures forall i :: 0 <= i < |old(tests)| ==> old(tests)[i].id != test.id
      ensures tests == old(tests) + [test] && tasks == old(tasks)
      ensures UniqueIds(old(tests), TestKey) ==> UniqueIds(tests, TestKey)
    {
      var nextId := NextId(tests, TestKey);
      test := TaskTest(nextId, data.taskId, data.name, data.input, data.expectedOutput,
                       data.isHidden, data.dataFileName, data.dataFileContent, now);
      if UniqueIds(tests, TestKey) {
        AppendFreshKeepsUnique(tests, TestKey, test);
      }
      tests := tests + [test];
    }

    /**
     * `updateTest`: the first test with the id takes the supplied fields and
     * is returned; with no such test nothing changes and `None` is returned.
     */
    method UpdateTest(id: int, patch: TestPatch) returns (r: Option<TaskTest>)
      modifies this
      ensures tasks == old(tasks)
      ensures r.None? <==> forall i :: 0 <= i < |old(tests)| ==> old(tests)[i].id != id
      ensures r.None? ==> tests == old(tests)
      ensures r.Some? ==> var i := FindIndex(old(tests), HasTestId(id));
        && i < |old(tests)|
        && tests == old(tests)[i := PatchTest(old(tests)[i], patch)]
        && r.value == tests[i] && r.value.id == id
      ensures UniqueIds(old(tests), TestKey) ==> UniqueIds(tests, TestKey)
    {
      var i := FindIndex(tests, HasTestId(id));
      if i == |tests| {
        return None;
      }
      var updated := PatchTest(tests[i], patch);
      if UniqueIds(tests, TestKey) {
        UpdateKeepsUnique(tests, TestKey, i, updated);
      }
      tests := tests[i := updated];
      r := Some(updated);
    }

    /** `deleteTest`: true exactly when some test had the id; exactly those tests are removed. */
    method DeleteTest(id: int) returns (deleted: bool)
      modifies this
      ensures deleted <==> exists i :: 0 <= i < |old(tests)| && old(tests)[i].id == id
      ensures tasks == old(tasks)
      ensures tests == Filter(old(tests), LacksTestId(id))
    {
      var filtered := Filter(tests, LacksTestId(id));
      FilterLength(tests, LacksTestId(id));
      if |filtered| == |tests| {
        return false;
      }
      tests := filtered;
      deleted := true;
    }
  }

  /**
   * What a task deletion leaves: no task with the id and no test of that
   * task; every other record is kept, and the kept records stay in order.
   */
  lemma DeleteTaskCascade(tasks: seq<Task>, tests: seq<TaskTest>, id: int)
    ensures forall t :: t in Filter(tasks, LacksTaskId(id)) <==> t in tasks && t.id != id
    ensures forall t :: t in Filter(tests, NotOf(id)) <==> t in tests && t.taskId != id
    ensures forall a, b :: tasks == a + b ==>
      Filter(tasks, LacksTaskId(id)) == Filter(a, LacksTaskId(id)) + Filter(b, LacksTaskId(id))
  {
    FilterMembers(tasks, LacksTaskId(id));
    FilterMembers(tests, NotOf(id));
    forall a, b | tasks == a + b
      ensures Filter(tasks, LacksTaskId(id)) == Filter(a, LacksTaskId(id)) + Filter(b, LacksTaskId(id))
    {
      FilterAppend(a, b, LacksTaskId(id));
    }
  }
}
