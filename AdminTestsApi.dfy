/**
 * `/api/admin/tests`: lists, creates and deletes the tests of a task for
 * an admin. Each method normalises its input and either answers at once
 * or calls the task store, whose answer becomes the response.
 */
module AdminTestsApi {
  import opened Common
  import opened JsText
  import opened TaskStore
  import opened Http

  datatype TestsMethod = Get | Post | Delete

  /**
   * The request's inputs. `taskIdParam` is `Number` of the `taskId` query
   * parameter and `id`, `taskId` are `Number` of body fields (`None` is
   * `NaN`). `name`, `input` and `expectedOutput` are `String(field)`, `None`
   * when absent or `null`. `hidden` is `Boolean(is_hidden)`.
   * `dataFileName` and `dataFileContent` are `String(field)` when the field
   * is truthy and `None` when it is not.
   */
  datatype TestsRequest = TestsRequest(
    taskIdParam: Option<int>, id: Option<int>, taskId: Option<int>,
    name: Option<string>, input: Option<string>, expectedOutput: Option<string>,
    hidden: bool, dataFileName: Option<string>, dataFileContent: Option<string>)

  datatype TestCall =
    | ListTests(taskId: int)
    | CreateTestCall(data: TestData)
    | DeleteTestCall(id: int)

  datatype TestReply =
    | ListedTests(tests: seq<TaskTest>)
    | CreatedTest(test: TaskTest)
    | DeletedTest(deleted: bool)

  /** The fields of the test a `POST` creates, with their defaults. */
  function NewTest(taskId: int, req: TestsRequest): TestData {
    TestData(taskId, Trim(req.name.GetOr("")), req.input.GetOr(""), req.expectedOutput.GetOr(""),
             req.hidden,
             if req.dataFileName.Some? then Some(Trim(req.dataFileName.value)) else None,
             req.dataFileContent)
  }

  function Decide(verb: TestsMethod, user: Option<CurrentUser>, req: TestsRequest): Decision<TestCall> {
    if !IsAdmin(user) then Respond(Forbidden)
    else match verb
      case Get =>
        if Falsy(req.taskIdParam) then Respond(BareError(400, "Missing taskId"))
        else Call(ListTests(req.taskIdParam.value))
      case Post =>
        if Falsy(req.taskId) then Respond(BareError(400, "Missing task_id"))
        else if Trim(req.name.GetOr("")) == "" then Respond(BareError(400, "Test name is required"))
        else Call(CreateTestCall(NewTest(req.taskId.value, req)))
      case Delete =>
        if Falsy(req.id) then Respond(BareError(400, "Missing id"))
        else Call(DeleteTestCall(req.id.value))
  }

  function Reply(reply: TestReply): Response {
    match reply
    case ListedTests(tests) => JsonOk(TestListJson(tests))
    case CreatedTest(test) => Response(201, TestJson(test), JsonHeaders)
    case DeletedTest(deleted) => JsonOk(SuccessJson(deleted))
  }

  /** Only an admin gets past the guard, whatever the method and request. */
  lemma ForbiddenUnlessAdmin(verb: TestsMethod, user: Option<CurrentUser>, req: TestsRequest)
    ensures Decide(verb, user, req) == Respond(Forbidden) <==> !IsAdmin(user)
    ensures Decide(verb, user, req).Call? ==> IsAdmin(user)
  {
  }

  /** A `GET` needs a task id and lists that task's tests. */
  lemma GetNeedsTaskId(user: Option<CurrentUser>, req: TestsRequest)
    requires IsAdmin(user)
    ensures Decide(Get, user, req) == Respond(BareError(400, "Missing taskId")) <==> Falsy(req.taskIdParam)
    ensures !Falsy(req.taskIdParam) ==> Decide(Get, user, req) == Call(ListTests(req.taskIdParam.value))
  {
  }

  /** A `POST` checks the task id before the name, and refuses a name that trims to nothing. */
  lemma PostChecksInOrder(user: Option<CurrentUser>, req: TestsRequest)
    requires IsAdmin(user)
    ensures Falsy(req.taskId) ==> Decide(Post, user, req) == Respond(BareError(400, "Missing task_id"))
    ensures !Falsy(req.taskId) && AllWhitespace(req.name.GetOr("")) ==>
      Decide(Post, user, req) == Respond(BareError(400, "Test name is required"))
    ensures Decide(Post, user, req).Call? <==> !Falsy(req.taskId) && !AllWhitespace(req.name.GetOr(""))
  {
    TrimSpec(req.name.GetOr(""));
  }

  /**
   * The test a `POST` creates: input and expected output are passed on and
   * default to the empty string, the data file name is trimmed when given
   * and the content passed on unchanged, and a
   * whitespace-only data file name is stored as the empty string.
   */
  lemma PostDefaults(user: Option<CurrentUser>, req: TestsRequest)
    requires IsAdmin(user) && Decide(Post, user, req).Call?
    ensures var d := Decide(Post, user, req).call.data;
      && d.taskId == req.taskId.value && d.taskId != 0
      && d.name == Trim(req.name.GetOr("")) && d.name != ""
      && (req.input.None? ==> d.input == "")
      && (req.input.Some? ==> d.input == req.input.value)
      && (req.expectedOutput.None? ==> d.expectedOutput == "")
      && (req.expectedOutput.Some? ==> d.expectedOutput == req.expectedOutput.value)
      && d.isHidden == req.hidden
      && (req.dataFileName.None? <==> d.dataFileName.None?)
      && (req.dataFileName.Some? ==> d.dataFileName == Some(Trim(req.dataFileName.value)))
      && (req.dataFileName.Some? && AllWhitespace(req.dataFileName.value) ==> d.dataFileName == Some(""))
      && d.dataFileContent == req.dataFileContent
  {
    if req.dataFileName.Some? {
      TrimSpec(req.dataFileName.value);
    }
  }

  /** A `DELETE` needs an id, and its `success` is exactly the store's answer. */
  lemma DeleteAnswersStore(user: Option<CurrentUser>, req: TestsRequest, deleted: bool)
    requires IsAdmin(user)
    ensures Decide(Delete, user, req) == Respond(BareError(400, "Missing id")) <==> Falsy(req.id)
    ensures !Falsy(req.id) ==> Decide(Delete, user, req) == Call(DeleteTestCall(req.id.value))
    ensures Reply(DeletedTest(deleted)) == JsonOk(SuccessJson(deleted))
  {
  }
}
