/**
 * `POST /api/user/signup`: validates a username and password, asks the
 * user database to create the account and signs the new user in.
 */
module SignupApi {
  import opened Common
  import opened JsText
  import opened TaskStore
  import opened Http

  /**
   * The request body's fields after `String(field ?? "")`: `None` is a
   * field that is absent or `null`; an unreadable body has neither.
   */
  datatype SignupBody = SignupBody(username: Option<string>, password: Option<string>)

  /** A user row as the database returns it. */
  datatype User = User(id: int, username: string, completedTasks: seq<string>, isAdmin: bool, createdAt: Timestamp)

  /** What `createUser` does: creates the row, reports the name as taken, or throws. */
  datatype CreateOutcome = Created(user: User) | Taken | Threw

  /** The call the handler makes once the input is valid. */
  datatype CreateUserCall = CreateUser(username: string, password: string)

  const RequiredMessage := "Username and password are required"
  const UsernameLengthMessage := "Username must be between 3 and 50 characters"
  const PasswordLengthMessage := "Password must be at least 6 characters"

  function Username(body: SignupBody): string { Trim(body.username.GetOr("")) }
  function Password(body: SignupBody): string { body.password.GetOr("") }

  /** The checks, in the handler's order, on the trimmed username and the untrimmed password. */
  function Validate(body: SignupBody): Decision<CreateUserCall> {
    var username := Username(body);
    var password := Password(body);
    if username == "" || password == "" then Respond(JsonError(400, RequiredMessage))
    else if JsLength(username) < 3 || JsLength(username) > 50 then Respond(JsonError(400, UsernameLengthMessage))
    else if JsLength(password) < 6 then Respond(JsonError(400, PasswordLengthMessage))
    else Call(CreateUser(username, password))
  }

  /** The response to `createUser`'s outcome; `cookie` is the session cookie made for the new user. */
  function Reply(outcome: CreateOutcome, cookie: string): Response {
    match outcome
    case Created(user) =>
      Response(201, SignupJson(PublicUser(user.id, user.username, user.completedTasks)),
               Headers(Some(JsonType), None, Some(cookie)))
    case Taken => JsonError(409, "Username already taken")
    case Threw => JsonError(500, "Internal server error")
  }

  /**
   * The whole handler: `tableReady` is false when creating the users table
   * throws, `outcome` is what `createUser` does when it is called.
   */
  function Signup(tableReady: bool, body: SignupBody, outcome: CreateOutcome, cookie: string): Response {
    if !tableReady then JsonError(500, "Internal server error")
    else match Validate(body)
      case Respond(r) => r
      case Call(_) => Reply(outcome, cookie)
  }

  /** The input is accepted exactly when the trimmed username has 3 to 50 units and the password at least 6. */
  lemma ValidateIff(body: SignupBody)
    ensures Validate(body).Call? <==>
      3 <= JsLength(Username(body)) <= 50 && JsLength(Password(body)) >= 6
    ensures Validate(body).Call? ==>
      Validate(body).call == CreateUser(Trim(body.username.GetOr("")), body.password.GetOr(""))
    ensures Validate(body).Respond? ==> Validate(body).response.status == 400
  {
  }

  /**
   * The checks come in order: missing fields first, then the username's
   * length, and the password's length only once the username is fine.
   */
  lemma ValidationOrder(body: SignupBody)
    ensures Username(body) == "" || Password(body) == "" ==>
      Validate(body) == Respond(JsonError(400, RequiredMessage))
    ensures (Username(body) != "" && Password(body) != ""
             && (JsLength(Username(body)) < 3 || JsLength(Username(body)) > 50)) ==>
      Validate(body) == Respond(JsonError(400, UsernameLengthMessage))
    ensures Validate(body) == Respond(JsonError(400, PasswordLengthMessage)) <==>
      Username(body) != "" && Password(body) != ""
      && 3 <= JsLength(Username(body)) <= 50 && JsLength(Password(body)) < 6
  {
  }

  /** Whitespace around the username is ignored; the password is passed on as typed, whitespace included. */
  lemma UsernameTrimmedPasswordNot(w1: string, u: string, w2: string, p: string)
    requires AllWhitespace(w1) && AllWhitespace(w2)
    ensures Validate(SignupBody(Some(w1 + u + w2), Some(p))) == Validate(SignupBody(Some(u), Some(p)))
    ensures Validate(SignupBody(Some(u), Some(w1 + p))).Call? ==>
      Validate(SignupBody(Some(u), Some(w1 + p))).call.password == w1 + p
  {
    TrimPadded(w1, u, w2);
  }

  /**
   * A successful signup answers 201 with the new user's id, name and
   * completed tasks, and sets the session cookie; a taken name gives 409;
   * anything that throws gives 500.
   */
  lemma SignupOutcomes(tableReady: bool, body: SignupBody, outcome: CreateOutcome, cookie: string)
    ensures Signup(tableReady, body, outcome, cookie).status == 201 <==>
      tableReady && Validate(body).Call? && outcome.Created?
    ensures Signup(tableReady, body, outcome, cookie).status == 201 ==>
      Signup(tableReady, body, outcome, cookie).payload ==
        SignupJson(PublicUser(outcome.user.id, outcome.user.username, outcome.user.completedTasks))
      && Signup(tableReady, body, outcome, cookie).headers.setCookie == Some(cookie)
    ensures Signup(tableReady, body, outcome, cookie).status == 409 <==>
      tableReady && Validate(body).Call? && outcome.Taken?
    ensures Signup(tableReady, body, outcome, cookie).status == 500 <==>
      !tableReady || (Validate(body).Call? && outcome.Threw?)
    ensures Signup(tableReady, body, outcome, cookie).status == 400 <==>
      tableReady && Validate(body).Respond?
  {
  }
}
