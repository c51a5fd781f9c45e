/** The HTTP handlers of `/auth/register` and `/auth/login`: a check that
    the required body fields are truthy, then the service call, then the
    mapping of its outcome to one response. */
module AuthController {
  import opened Js
  import opened Store
  import opened AuthService
  import opened Http

  // ---------------------------------------------------------------------
  // register

  /** `const {username, email, password} = req.body` */
  datatype RegisterBody = RegisterBody(username: Option<string>, email: Option<string>, password: Option<string>)

  datatype RegisterArgs = RegisterArgs(username: string, email: string, password: string)

  const FieldsRequired := "Username, email and password are required."

  /** 400 and no service call when any of the three fields is falsy. */
  function RegisterDispatch(body: RegisterBody): (d: Dispatch<RegisterArgs, PublicUser>)
    ensures d.Reply? <==> !Truthy(body.username) || !Truthy(body.email) || !Truthy(body.password)
    ensures d.Reply? ==> d.response == Response(400, ErrorJson(FieldsRequired))
    ensures d.Call? ==> d.args == RegisterArgs(body.username.value, body.email.value, body.password.value)
  {
    if !Truthy(body.username) || !Truthy(body.email) || !Truthy(body.password) then
      Reply(Response(400, ErrorJson(FieldsRequired)))
    else Call(RegisterArgs(body.username.value, body.email.value, body.password.value))
  }

  /** 201 with the public projection; an error whose `status` is exactly
      409 keeps its status and message; every other error is 500 with the
      body `{error: "Error "}`. */
  function RegisterReply(out: Outcome<PublicUser>): (r: Response<PublicUser>)
    ensures r.status == 201 <==> out.Ok?
    ensures out.Ok? ==> r.body == Json(out.value)
    ensures r.status == 409 <==> out.Thrown? && out.error.status == Some(409)
    ensures r.status == 409 ==> r.body == ErrorJson(out.error.message)
    ensures out.Thrown? && out.error.status != Some(409) ==> r == Response(500, ErrorJson("Error "))
  {
    match out
    case Ok(u) => Response(201, Json(u))
    case Thrown(e) =>
      if e.status == Some(409) then Response(409, ErrorJson(e.message)) else Response(500, ErrorJson("Error "))
  }

  /** `POST /auth/register` with all fields present: 409 "Email is already
      in use." whenever the email or the username is taken (even when only
      the username is), and then no user is inserted; otherwise 201 with
      the new user, never its password hash. */
  lemma RegisterResponds(t: Tables, username: string, email: string, password: string,
                         salt: string, bcrypt: Bcrypt, now: int)
    requires t.Valid() && username != "" && email != "" && password != ""
    ensures var d := RegisterDispatch(RegisterBody(Some(username), Some(email), Some(password)));
            && d.Call?
            && var s := RegisterStep(t, d.args.username, d.args.email, d.args.password, salt, bcrypt, now);
            && (RegisterReply(s.outcome) == Response(409, ErrorJson("Email is already in use.")) <==> Taken(t.users, username, email))
            && (Taken(t.users, username, email) ==> s.after == t)
            && (RegisterReply(s.outcome).status == 201 ==>
                  RegisterReply(s.outcome).body.payload == PublicUser(s.after.users[|t.users|].id, username, email, now))
  {
  }

  // ---------------------------------------------------------------------
  // login

  /** `const {email, password} = req.body` */
  datatype LoginBody = LoginBody(email: Option<string>, password: Option<string>)

  datatype LoginArgs = LoginArgs(email: string, password: string)

  const CredentialsRequired := "Email and password are required"

  /** 400 and no service call when the email or the password is falsy. */
  function LoginDispatch(body: LoginBody): (d: Dispatch<LoginArgs, AccessToken>)
    ensures d.Reply? <==> !Truthy(body.email) || !Truthy(body.password)
    ensures d.Reply? ==> d.response == Response(400, ErrorJson(CredentialsRequired))
    ensures d.Call? ==> d.args == LoginArgs(body.email.value, body.password.value)
  {
    if !Truthy(body.email) || !Truthy(body.password) then Reply(Response(400, ErrorJson(CredentialsRequired)))
    else Call(LoginArgs(body.email.value, body.password.value))
  }

  /** `error?.status || 500`: the error's status when truthy, else 500. */
  function Code(e: Error): (c: int)
    ensures c == 401 <==> e.status == Some(401)
  {
    if TruthyNum(e.status) then e.status.value else 500
  }

  /** 200 with `{accessToken}`; an error whose status is 401 becomes 401
      "Invalid credentials." (whatever its message); every other error,
      the one without a status included, becomes 500. */
  function LoginReply(out: Outcome<AccessToken>): (r: Response<AccessToken>)
    ensures r.status == 200 <==> out.Ok?
    ensures out.Ok? ==> r.body == Json(out.value)
    ensures r.status == 401 <==> out.Thrown? && out.error.status == Some(401)
    ensures r.status == 401 ==> r.body == ErrorJson("Invalid credentials.")
    ensures out.Thrown? && out.error.status != Some(401) ==> r == InternalError()
  {
    match out
    case Ok(token) => Response(200, Json(token))
    case Thrown(e) =>
      if Code(e) == 401 then Response(401, ErrorJson("Invalid credentials.")) else InternalError()
  }

  /** `POST /auth/login` with both fields present: an unknown email and a
      wrong password get the same 401 response; good credentials without a
      configured secret get 500; otherwise 200 with the signed token. */
  lemma LoginResponds(us: seq<User>, email: string, password: string, secret: Option<string>,
                      bcrypt: Bcrypt, jwt: Jwt, now: int)
    requires email != "" && password != ""
    ensures var d := LoginDispatch(LoginBody(Some(email), Some(password)));
            && d.Call?
            && var r := LoginReply(Login(us, d.args.email, d.args.password, secret, bcrypt, jwt, now));
            && (r == Response(401, ErrorJson("Invalid credentials.")) <==>
                  || FindUserByEmail(us, email).None?
                  || !bcrypt.compare(password, us[FindUserByEmail(us, email).value].passwordHash))
            && (r == InternalError() <==>
                  && FindUserByEmail(us, email).Some?
                  && bcrypt.compare(password, us[FindUserByEmail(us, email).value].passwordHash)
                  && !Truthy(secret))
            && (r.status == 200 <==>
                  && FindUserByEmail(us, email).Some?
                  && bcrypt.compare(password, us[FindUserByEmail(us, email).value].passwordHash)
                  && Truthy(secret))
            && (r.status == 200 ==>
                  r.body == Json(AccessToken(jwt.sign(TokenClaims(us[FindUserByEmail(us, email).value], now), secret.value))))
  {
  }

  /** With a sound hash, a user who has just registered through the
      handler can log in through the handler and gets 200. */
  lemma RegisterThenLoginResponds(t: Tables, username: string, email: string, password: string, salt: string,
                                  bcrypt: Bcrypt, jwt: Jwt, registered: int, secret: string, now: int)
    requires t.Valid() && bcrypt.Sound() && secret != ""
    requires RegisterReply(RegisterStep(t, username, email, password, salt, bcrypt, registered).outcome).status == 201
    ensures var s := RegisterStep(t, username, email, password, salt, bcrypt, registered);
            LoginReply(Login(s.after.users, email, password, Some(secret), bcrypt, jwt, now)).status == 200
  {
    RegisterThenLogin(t, username, email, password, salt, bcrypt, jwt, registered, secret, now);
  }
}
