/**
 * `GET /api/problems/task-file?taskId=N&fileName=X`: serves the data file
 * attached to a visible test of a task.
 */
module TaskFileApi {
  import opened Common
  import opened JsText
  import opened Collections
  import opened TaskStore
  import opened Http

  /** A test that may serve `fileName`: not hidden, that exact file name, and non-empty content. */
  function Serves(fileName: string): TaskTest -> bool {
    (t: TaskTest) => !t.isHidden && t.dataFileName == Some(fileName)
                     && t.dataFileContent.Some? && t.dataFileContent.value != ""
  }

  /** The first test of the task, in ascending id order, that serves `fileName`. */
  function LookUp(store: Store, taskId: int, fileName: string): Option<TaskTest>
    reads store
  {
    var tests := store.TestsForTask(taskId);
    var i := FindIndex(tests, Serves(fileName));
    if i < |tests| then Some(tests[i]) else None
  }

  /** The content type chosen from the file name's suffix. */
  function ContentType(fileName: string): string {
    if EndsWith(fileName, ".json") then "application/json"
    else if EndsWith(fileName, ".csv") then "text/csv"
    else "text/plain"
  }

  function Disposition(fileName: string): string {
    "attachment; filename=\"" + fileName + "\""
  }

  /** The handler, given the query parameters as read from the URL. */
  function ServeTaskFile(store: Store, taskId: Option<int>, fileName: Option<string>): (r: Response)
    reads store
    ensures Falsy(taskId) || MissingText(fileName) ==> r == JsonError(400, "Missing taskId or fileName")
  {
    if Falsy(taskId) || MissingText(fileName) then
      JsonError(400, "Missing taskId or fileName")
    else
      var test := LookUp(store, taskId.value, fileName.value);
      if test.None? || test.value.dataFileContent.None? || test.value.dataFileContent.value == "" then
        JsonError(404, "File not found")
      else
        Response(200, Raw(test.value.dataFileContent.value),
                 Headers(Some(ContentType(fileName.value)), Some(Disposition(fileName.value)), None))
  }

  /** The lookup finds nothing exactly when no test of the task serves the file. */
  lemma LookUpNoneIff(store: Store, taskId: int, fileName: string)
    ensures LookUp(store, taskId, fileName).None? <==>
      forall t :: t in store.tests && t.taskId == taskId ==> !Serves(fileName)(t)
  {
    var tests := store.TestsForTask(taskId);
    if FindIndex(tests, Serves(fileName)) == |tests| {
      forall t | t in store.tests && t.taskId == taskId ensures !Serves(fileName)(t) {
        assert t in tests;
      }
    }
  }

  /**
   * What the lookup finds is a test of the task that serves the file, with
   * the smallest id among those that do.
   */
  lemma LookUpFound(store: Store, taskId: int, fileName: string)
    requires LookUp(store, taskId, fileName).Some?
    ensures var t := LookUp(store, taskId, fileName).value;
      && t in store.tests && t.taskId == taskId && Serves(fileName)(t)
      && forall u :: u in store.tests && u.taskId == taskId && Serves(fileName)(u) ==> t.id <= u.id
  {
    var tests := store.TestsForTask(taskId);
    FindIndexSortedMin(tests, TestKey, Serves(fileName));
    var i := FindIndex(tests, Serves(fileName));
    assert tests[i] in tests;
    forall u | u in store.tests && u.taskId == taskId && Serves(fileName)(u)
      ensures tests[i].id <= u.id
    {
      assert u in tests;
      var k :| 0 <= k < |tests| && tests[k] == u;
    }
  }

  /** The response is 404 exactly when the parameters are present and no test of the task serves the file. */
  lemma NotFoundIff(store: Store, taskId: Option<int>, fileName: Option<string>)
    ensures ServeTaskFile(store, taskId, fileName).status == 404 <==>
      !Falsy(taskId) && !MissingText(fileName)
      && forall t :: t in store.tests && t.taskId == taskId.value ==> !Serves(fileName.value)(t)
    ensures ServeTaskFile(store, taskId, fileName) == JsonError(404, "File not found") <==>
      ServeTaskFile(store, taskId, fileName).status == 404
  {
    if !Falsy(taskId) && !MissingText(fileName) {
      LookUpNoneIff(store, taskId.value, fileName.value);
    }
  }

  /**
   * A served body is the content of a visible test of the task whose data
   * file name is exactly the requested name, and the download is offered
   * under that name.
   */
  lemma ServedFileIsVisible(store: Store, taskId: Option<int>, fileName: Option<string>)
    ensures ServeTaskFile(store, taskId, fileName).status == 200 ==>
      var r := ServeTaskFile(store, taskId, fileName);
      && !Falsy(taskId) && !MissingText(fileName)
      && r.payload.Raw? && r.payload.content != ""
      && r.headers.disposition == Some(Disposition(fileName.value))
      && r.headers.contentType == Some(ContentType(fileName.value))
      && (exists t :: t in store.tests && t.taskId == taskId.value && !t.isHidden
           && t.dataFileName == fileName && t.dataFileContent == Some(r.payload.content))
    ensures ServeTaskFile(store, taskId, fileName).status in {200, 400, 404}
  {
    if !Falsy(taskId) && !MissingText(fileName) && LookUp(store, taskId.value, fileName.value).Some? {
      LookUpFound(store, taskId.value, fileName.value);
    }
  }

  /** The parameter check does not depend on the store. */
  lemma BadRequestBeforeStore(s1: Store, s2: Store, taskId: Option<int>, fileName: Option<string>)
    ensures ServeTaskFile(s1, taskId, fileName).status == 400 <==> Falsy(taskId) || MissingText(fileName)
    ensures Falsy(taskId) || MissingText(fileName) ==>
      ServeTaskFile(s1, taskId, fileName) == ServeTaskFile(s2, taskId, fileName)
  {
  }

  /** The content type follows the suffix: `.json`, then `.csv`, then plain text. */
  lemma ContentTypeSpec(fileName: string)
    ensures ContentType(fileName) == "application/json" <==> EndsWith(fileName, ".json")
    ensures ContentType(fileName) == "text/csv" <==> EndsWith(fileName, ".csv")
    ensures ContentType(fileName) == "text/plain" <==> !EndsWith(fileName, ".json") && !EndsWith(fileName, ".csv")
  {
    if EndsWith(fileName, ".csv") {
      assert fileName[|fileName| - 1] == 'v';
    }
  }
}
