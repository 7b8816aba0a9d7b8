/**
 * `/api/admin/tasks`: lists, creates, updates and deletes tasks for an
 * admin. Each method normalises the request body and either answers at
 * once or calls the task store, whose answer becomes the response.
 */
module AdminTasksApi {
  import opened Common
  import opened JsText
  import opened TaskStore
  import opened Http

  datatype HttpMethod = Get | Post | Put | Delete

  /**
   * The request body's fields. `id` and `points` are what `Number` makes of
   * the field (`None` is `NaN`; for `points`, an absent or `null` field).
   * `name`, `description` and `codePreview` are `String(field)`, `None`
   * when absent or `null`. `kind` and `difficulty` are the field when it is
   * a string, `None` otherwise.
   */
  datatype TaskBody = TaskBody(
    id: Option<int>, name: Option<string>, description: Option<string>,
    codePreview: Option<string>, points: Option<int>, kind: Option<string>,
    difficulty: Option<string>)

  /** The store call a request leads to. */
  datatype TaskCall =
    | ListTasks
    | CreateTaskCall(data: TaskData)
    | UpdateTaskCall(id: int, patch: TaskPatch)
    | DeleteTaskCall(id: int)

  /** What the store answers. */
  datatype TaskReply =
    | Listed(tasks: seq<Task>)
    | CreatedTask(task: Task)
    | UpdatedTask(result: Option<Task>)
    | DeletedTask(deleted: bool)

  const Difficulties := ["Easy", "Medium", "Hard"]

  function NormKind(kind: Option<string>): TaskType {
    if kind == Some("fix") then Fix else Solve
  }

  function NormDifficulty(difficulty: Option<string>): string {
    if difficulty.Some? && difficulty.value in Difficulties then difficulty.value else "Easy"
  }

  /** The task fields `POST` and `PUT` build from the body. */
  function Normalize(body: TaskBody): TaskData {
    TaskData(Trim(body.name.GetOr("")), Trim(body.description.GetOr("")),
             body.codePreview.GetOr(""), body.points.GetOr(50),
             NormKind(body.kind), NormDifficulty(body.difficulty))
  }

  /** Every field of the update, so a `PUT` overwrites all six editable fields. */
  function FullPatch(d: TaskData): TaskPatch {
    TaskPatch(Some(d.name), Some(d.description), Some(d.codePreview),
              Some(d.points), Some(d.kind), Some(d.difficulty))
  }

  function Decide(verb: HttpMethod, user: Option<CurrentUser>, body: TaskBody): Decision<TaskCall> {
    if !IsAdmin(user) then Respond(Forbidden)
    else match verb
      case Get => Call(ListTasks)
      case Post =>
        var data := Normalize(body);
        if data.name == "" then Respond(BareError(400, "Name is required"))
        else Call(CreateTaskCall(data))
      case Delete =>
        if Falsy(body.id) then Respond(BareError(400, "Missing id"))
        else Call(DeleteTaskCall(body.id.value))
      case Put =>
        if Falsy(body.id) then Respond(BareError(400, "Missing id"))
        else
          var data := Normalize(body);
          if data.name == "" then Respond(BareError(400, "Name is required"))
          else Call(UpdateTaskCall(body.id.value, FullPatch(data)))
  }

  function Reply(reply: TaskReply): Response {
    match reply
    case Listed(tasks) => JsonOk(TaskListJson(tasks))
    case CreatedTask(task) => Response(201, TaskJson(task), JsonHeaders)
    case UpdatedTask(None) => BareError(404, "Task not found")
    case UpdatedTask(Some(task)) => JsonOk(TaskJson(task))
    case DeletedTask(deleted) => JsonOk(SuccessJson(deleted))
  }

  /** Only an admin gets past the guard, whatever the method and body. */
  lemma ForbiddenUnlessAdmin(verb: HttpMethod, user: Option<CurrentUser>, body: TaskBody)
    ensures Decide(verb, user, body) == Respond(Forbidden) <==> !IsAdmin(user)
    ensures Decide(verb, user, body).Call? ==> IsAdmin(user)
  {
  }

  /**
   * The type is `fix` only for the string "fix"; the difficulty is kept only
   * when it is one of the three levels; points default to 50; name and
   * description are trimmed, the code preview is not.
   */
  lemma NormalizeSpec(body: TaskBody)
    ensures Normalize(body).kind == Fix <==> body.kind == Some("fix")
    ensures Normalize(body).difficulty in Difficulties
    ensures body.difficulty.Some? && body.difficulty.value in Difficulties ==>
      Normalize(body).difficulty == body.difficulty.value
    ensures !(body.difficulty.Some? && body.difficulty.value in Difficulties) ==>
      Normalize(body).difficulty == "Easy"
    ensures body.points.None? ==> Normalize(body).points == 50
    ensures body.points.Some? ==> Normalize(body).points == body.points.value
    ensures Normalize(body).codePreview == body.codePreview.GetOr("")
    ensures Normalize(body).name == Trim(body.name.GetOr(""))
    ensures Normalize(body).description == Trim(body.description.GetOr(""))
    ensures Normalize(body).name == [] || (!IsJsWhitespace(Normalize(body).name[0])
      && !IsJsWhitespace(Normalize(body).name[|Normalize(body).name| - 1]))
    ensures Normalize(body).name == [] <==> AllWhitespace(body.name.GetOr(""))
    ensures Normalize(body).description == [] || (!IsJsWhitespace(Normalize(body).description[0])
      && !IsJsWhitespace(Normalize(body).description[|Normalize(body).description| - 1]))
    ensures Normalize(body).description == [] <==> AllWhitespace(body.description.GetOr(""))
  {
    TrimSpec(body.name.GetOr(""));
    TrimSpec(body.description.GetOr(""));
  }

  /** A name that trims to nothing is refused with 400 before the store is called. */
  lemma EmptyNameRefused(verb: HttpMethod, user: Option<CurrentUser>, body: TaskBody)
    requires IsAdmin(user) && AllWhitespace(body.name.GetOr(""))
    ensures verb == Post ==> Decide(verb, user, body) == Respond(BareError(400, "Name is required"))
    ensures verb == Put && !Falsy(body.id) ==>
      Decide(verb, user, body) == Respond(BareError(400, "Name is required"))
  {
    TrimSpec(body.name.GetOr(""));
  }

  /** `DELETE` and `PUT` need an id, and `PUT` checks it before the name. */
  lemma IdCheckedFirst(verb: HttpMethod, user: Option<CurrentUser>, body: TaskBody)
    requires IsAdmin(user) && (verb == Delete || verb == Put)
    ensures Decide(verb, user, body) == Respond(BareError(400, "Missing id")) <==> Falsy(body.id)
  {
  }

  /**
   * The calls the store receives: an update or deletion carries the
   * request's non-zero id, and an update or creation carries a non-empty
   * trimmed name.
   */
  lemma CallsCarryValidInput(verb: HttpMethod, user: Option<CurrentUser>, body: TaskBody)
    ensures Decide(verb, user, body).Call? ==> match Decide(verb, user, body).call
      case ListTasks => verb == Get
      case CreateTaskCall(data) => verb == Post && data == Normalize(body) && data.name != ""
      case UpdateTaskCall(id, patch) =>
        && verb == Put && Some(id) == body.id && id != 0
        && patch == FullPatch(Normalize(body)) && Normalize(body).name != ""
      case DeleteTaskCall(id) => verb == Delete && Some(id) == body.id && id != 0
  {
  }

  /**
   * A `PUT` sets every editable field: one the body leaves out is reset to
   * its default (empty description and code preview, 50 points, `solve`,
   * `Easy`) rather than kept.
   */
  lemma PutResetsOmittedFields(t: Task, id: int, name: string)
    requires Trim(name) != ""
    ensures var body := TaskBody(Some(id), Some(name), None, None, None, None, None);
      var p := FullPatch(Normalize(body));
      PatchTask(t, p) == t.(name := Trim(name), description := "", codePreview := "",
                            points := 50, kind := Solve, difficulty := "Easy")
  {
    assert Trim("") == "";
  }

  /** The store's answer decides the status: 201 for a creation, 404 for an update of an unknown id, 200 otherwise. */
  lemma ReplyStatus(reply: TaskReply)
    ensures Reply(reply).status == 201 <==> reply.CreatedTask?
    ensures Reply(reply).status == 404 <==> reply == UpdatedTask(None)
    ensures Reply(reply).status == 200 <==> !reply.CreatedTask? && reply != UpdatedTask(None)
    ensures reply.CreatedTask? ==> Reply(reply).payload == TaskJson(reply.task)
  {
  }
}
