/** The sign-in form's submit handler (Signin.jsx, `handleSubmit`): the JSON
    body it posts, and how the reply becomes either an error message or a
    stored token and a move to the landing page. The effects come back as
    values: each `setError` call in order, the token written to local
    storage, and the path navigated to. */
module SignIn {
  import opened Js

  /** What the three inputs hold. */
  datatype Credentials = Credentials(username: string, email: string, password: string)

  /** The fields of the decoded reply object the handler reads; None when a
      field is missing. */
  datatype LoginBody = LoginBody(error: Option<string>, token: Option<string>)

  /** How the request ends: something throws before the status is looked at
      (the fetch rejects, the body is not JSON, or the body is null so reading
      a field fails), carrying the error's message; or a decoded object
      arrives with the response's `ok` flag. */
  datatype LoginResponse = Failed(message: string) | Responded(ok: bool, body: LoginBody)

  /** The effects of one submit. */
  datatype SigninOutcome = SigninOutcome(
    request: seq<(string, string)>,
    errors: seq<Option<string>>,
    storedToken: Option<string>,
    navigateTo: Option<string>)

  const InvalidCredentials := "Invalid login credentials"
  const LoginFailed := "Login failed"
  const DummyToken := "dummy_token"
  const LandingPath := "/landing"

  /** `JSON.stringify({ username, email, password })`, as its list of
      members in order (string escaping is not modelled). */
  function LoginRequest(c: Credentials): seq<(string, string)> {
    [("username", c.username), ("email", c.email), ("password", c.password)]
  }

  /** The credentials a receiver reads back from the posted members. */
  function ReadLogin(members: seq<(string, string)>): Option<Credentials> {
    if |members| == 3 && members[0].0 == "username" && members[1].0 == "email" && members[2].0 == "password"
    then Some(Credentials(members[0].1, members[1].1, members[2].1))
    else None
  }

  /** The body carries exactly the three inputs, under their own names. */
  lemma LoginRequestRoundTrip(c: Credentials)
    ensures ReadLogin(LoginRequest(c)) == Some(c)
  {
  }

  /** The message of the error the `try` block throws, if it throws: the
      failure's own message, or for a non-ok reply the server's error text,
      falling back to a fixed one. */
  function Thrown(response: LoginResponse): Option<string> {
    match response
    case Failed(message) => Some(message)
    case Responded(ok, body) => if ok then None else Some(OrElse(body.error, InvalidCredentials))
  }

  /** `handleSubmit` with the given inputs and reply. */
  function HandleSubmit(c: Credentials, response: LoginResponse): (r: SigninOutcome)
    ensures ReadLogin(r.request) == Some(c)
    ensures 1 <= |r.errors| <= 2 && r.errors[0] == None
    ensures |r.errors| == 2 ==> r.errors[1].Some? && r.errors[1].value != ""
    ensures r.storedToken.Some? <==> |r.errors| == 1
    ensures r.navigateTo.Some? <==> r.storedToken.Some?
    ensures r.storedToken.Some? <==> response.Responded? && response.ok
    ensures r.navigateTo.Some? ==> r.navigateTo.value == LandingPath
    ensures r.storedToken.Some? ==>
      r.storedToken.value != "" && (Truthy(response.body.token) ==> r.storedToken == response.body.token)
    ensures r.storedToken.Some? && !Truthy(response.body.token) ==> r.storedToken == Some(DummyToken)
    ensures response.Responded? && !response.ok ==>
      r.errors[1] == Some(if Truthy(response.body.error) then response.body.error.value else InvalidCredentials)
    ensures response.Failed? ==>
      r.errors[1] == Some(if response.message == "" then LoginFailed else response.message)
  {
    LoginRequestRoundTrip(c);
    var request := LoginRequest(c);
    match Thrown(response)
    case Some(message) =>
      SigninOutcome(request, [None, Some(OrElse(Some(message), LoginFailed))], None, None)
    case None =>
      SigninOutcome(request, [None], Some(OrElse(response.body.token, DummyToken)), Some(LandingPath))
  }

  /** A successful reply without a usable token still signs the user in,
      with the placeholder token. */
  lemma MissingTokenFallsBack(c: Credentials, error: Option<string>, token: Option<string>)
    requires !Truthy(token)
    ensures HandleSubmit(c, Responded(true, LoginBody(error, token))).storedToken == Some(DummyToken)
  {
  }

  /** A successful reply signs the user in even when it also carries an
      error field: only the status decides. */
  lemma StatusDecides(c: Credentials, body: LoginBody)
    ensures HandleSubmit(c, Responded(true, body)).navigateTo == Some(LandingPath)
    ensures HandleSubmit(c, Responded(false, body)).navigateTo == None
    ensures HandleSubmit(c, Responded(false, body)).storedToken == None
  {
  }
}
