/** app/api/admin/login/route.ts: password sign-in for the dashboard. The
    backend's answer is a parameter: the message of the error it reports,
    if any, and whether a session came back. */
module LoginRoute {
  import opened Optional
  import opened Schema
  import SupabaseEnv
  import Text

  const LoginFailed: string := "Login failed"

  const EmailChecks: seq<Check> := [Email, MaxLength(255)]
  const PasswordChecks: seq<Check> := [MinLength(6), MaxLength(200)]

  datatype Credentials = Credentials(email: string, password: string)

  datatype SignIn = SignIn(error: Option<string>, session: bool)

  datatype Body = Unparseable(message: string) | Parsed(json: Json)

  datatype ErrorBody = Message(text: string) | IssueList(issues: seq<Issue>)

  /** The response, and the credentials handed to the backend, if any. */
  datatype Reply = Reply(status: nat, ok: bool, error: Option<ErrorBody>, attempted: Option<Credentials>)

  function ParseLogin(json: Json, isEmail: EmailTest): (r: Parsed<Credentials>)
    ensures r.Valid? <==>
              && json.Object?
              && StringIssues("email", Get(json.fields, "email"), EmailChecks, false, isEmail) == []
              && StringIssues("password", Get(json.fields, "password"), PasswordChecks, false, isEmail) == []
    ensures r.Valid? ==> Get(json.fields, "email") == Str(r.value.email)
                         && Get(json.fields, "password") == Str(r.value.password)
                         && isEmail(r.value.email)
    // a non-object is refused at the root; an object's issues are the
    // email field's followed by the password field's
    ensures json.NonObject? ==> r == Invalid([Issue("", NotAnObject)])
    ensures json.Object? && r.Invalid? ==>
              r.issues == StringIssues("email", Get(json.fields, "email"), EmailChecks, false, isEmail)
                          + StringIssues("password", Get(json.fields, "password"), PasswordChecks, false, isEmail)
    ensures r.Invalid? ==> r.issues != []
  {
    match json
    case NonObject => Invalid([Issue("", NotAnObject)])
    case Object(obj) =>
      var issues := StringIssues("email", Get(obj, "email"), EmailChecks, false, isEmail)
                    + StringIssues("password", Get(obj, "password"), PasswordChecks, false, isEmail);
      if issues != [] then Invalid(issues)
      else
        assert Passes(EmailChecks[0], Get(obj, "email").s, isEmail);
        Valid(Credentials(Get(obj, "email").s, Get(obj, "password").s))
  }

  /** `error?.message || 'Login failed'`. */
  function FailureMessage(error: Option<string>): (m: string)
    ensures m != ""
    ensures error.Some? && error.value != "" ==> m == error.value
  {
    if error.Some? && error.value != "" then error.value else LoginFailed
  }

  /** `POST` with the environment values and the backend's answer. */
  function Post(body: Body, isEmail: EmailTest, url: Option<string>, anonKey: Option<string>, signIn: SignIn): (r: Reply)
    ensures r.status in {200, 400, 401}
    ensures r.ok <==> r.status == 200
    // the backend is asked only with valid credentials and a configuration
    ensures r.attempted.Some? <==>
              body.Parsed? && ParseLogin(body.json, isEmail).Valid? && SupabaseEnv.HasSupabaseEnv(url, anonKey)
    ensures r.attempted.Some? ==> r.attempted.value == ParseLogin(body.json, isEmail).value
    // success needs a session and no reported error
    ensures r.ok <==> r.attempted.Some? && signIn.error.None? && signIn.session
    ensures r.status == 401 <==> r.attempted.Some? && (signIn.error.Some? || !signIn.session)
    ensures r.status == 401 ==> r.error == Some(Message(FailureMessage(signIn.error)))
    ensures r.status == 400 ==> r.error.Some? && r.attempted.None?
    // each refusal before sign-in carries its own message
    ensures body.Unparseable? ==> r == Reply(400, false, Some(Message(body.message)), None)
    ensures body.Parsed? && ParseLogin(body.json, isEmail).Invalid? ==>
              r == Reply(400, false, Some(IssueList(ParseLogin(body.json, isEmail).issues)), None)
    ensures body.Parsed? && ParseLogin(body.json, isEmail).Valid? && !SupabaseEnv.HasSupabaseEnv(url, anonKey) ==>
              r == Reply(400, false, Some(Message(SupabaseEnv.MissingEnvMessage)), None)
  {
    match body
    case Unparseable(message) => Reply(400, false, Some(Message(message)), None)
    case Parsed(json) =>
      match ParseLogin(json, isEmail)
      case Invalid(issues) => Reply(400, false, Some(IssueList(issues)), None)
      case Valid(credentials) =>
        match SupabaseEnv.RequireSupabaseEnv(url, anonKey)
        case Thrown(message) => Reply(400, false, Some(Message(message)), None)
        case Returned(_) =>
          if signIn.error.Some? || !signIn.session then
            Reply(401, false, Some(Message(FailureMessage(signIn.error))), Some(credentials))
          else Reply(200, true, None, Some(credentials))
  }

  /** A password shorter than six code units never reaches the backend. */
  lemma ShortPasswordRefused(email: string, password: string, isEmail: EmailTest,
                             url: Option<string>, anonKey: Option<string>, signIn: SignIn)
    requires Text.Utf16Length(password) < 6
    ensures var obj := map["email" := Str(email), "password" := Str(password)];
            && Post(Parsed(Object(obj)), isEmail, url, anonKey, signIn).status == 400
            && Post(Parsed(Object(obj)), isEmail, url, anonKey, signIn).attempted == None
  {
    var obj := map["email" := Str(email), "password" := Str(password)];
    assert Get(obj, "password") == Str(password);
    assert !Passes(PasswordChecks[0], password, isEmail);
  }

  /** An object with neither field is refused with one `Required` issue per
      field, email first, and nothing is asked of the backend. */
  lemma EmptyObjectNamesBothFields(isEmail: EmailTest, url: Option<string>, anonKey: Option<string>, signIn: SignIn)
    ensures Post(Parsed(Object(map[])), isEmail, url, anonKey, signIn)
            == Reply(400, false, Some(IssueList([Issue("email", Required), Issue("password", Required)])), None)
  {
    var obj: map<string, Field> := map[];
    assert Get(obj, "email") == Missing && Get(obj, "password") == Missing;
    assert StringIssues("email", Missing, EmailChecks, false, isEmail) == [Issue("email", Required)];
    assert StringIssues("password", Missing, PasswordChecks, false, isEmail) == [Issue("password", Required)];
    assert ParseLogin(Object(obj), isEmail) == Invalid([Issue("email", Required), Issue("password", Required)]);
  }
}
