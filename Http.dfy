/**
 * What the API handlers answer: a status, a JSON or raw payload and the
 * headers they set. A handler that needs the store or the user database
 * first decides on a call to make, and then turns the answer into its
 * response.
 */
module Http {
  import opened Common
  import opened TaskStore

  /** The fields of a user the signup response carries: no password hash, no admin flag. */
  datatype PublicUser = PublicUser(id: int, username: string, completedTasks: seq<string>)

  datatype Payload =
    | ErrorJson(error: string)
    | TaskJson(task: Task)
    | TaskListJson(tasks: seq<Task>)
    | TestJson(test: TaskTest)
    | TestListJson(tests: seq<TaskTest>)
    | SuccessJson(success: bool)
    | SignupJson(user: PublicUser)     // `{success: true, user}`: the constant `success` is left implicit
    | Raw(content: string)

  datatype Headers = Headers(contentType: Option<string>, disposition: Option<string>, setCookie: Option<string>)

  datatype Response = Response(status: int, payload: Payload, headers: Headers)

  /** Either a response given straight away, or a call whose answer decides the response. */
  datatype Decision<+C> = Respond(response: Response) | Call(call: C)

  const JsonType := "application/json"
  const JsonHeaders := Headers(Some(JsonType), None, None)
  const NoHeaders := Headers(None, None, None)

  /** A JSON error body with a JSON content type. */
  function JsonError(status: int, message: string): Response {
    Response(status, ErrorJson(message), JsonHeaders)
  }

  /** A JSON error body sent without a content type, as the admin endpoints do. */
  function BareError(status: int, message: string): Response {
    Response(status, ErrorJson(message), NoHeaders)
  }

  /** A 200 response with a JSON payload. */
  function JsonOk(payload: Payload): Response {
    Response(200, payload, JsonHeaders)
  }

  /**
   * `!Number(x)` for a numeric request field: `None` stands for a value
   * that `Number` turns into `NaN`, and `0` is falsy as well.
   */
  predicate Falsy(n: Option<int>) {
    n.None? || n.value == 0
  }

  /** `!s` for a string that may be missing. */
  predicate MissingText(s: Option<string>) {
    s.None? || s.value == ""
  }

  /** The signed-in user as the admin guard sees it. */
  datatype CurrentUser = CurrentUser(isAdmin: bool)

  /** `requireAdmin`: a user is signed in and is an admin. */
  predicate IsAdmin(user: Option<CurrentUser>) {
    user.Some? && user.value.isAdmin
  }

  const Forbidden := BareError(403, "Forbidden")
}
