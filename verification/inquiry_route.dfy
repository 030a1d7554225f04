/** app/api/inquiries/route.ts: the public contact form endpoint. The
    body is validated, the backend configuration is required, and one row
    is inserted; the insert's outcome is a parameter. */
module InquiryRoute {
  import opened Optional
  import opened Schema
  import Text
  import SupabaseEnv

  /** The validated form. */
  datatype Inquiry = Inquiry(firstName: string, lastName: string, email: string,
                             phone: Option<string>, message: string, sourceUrl: Option<string>)

  /** The row handed to the `inquiries` table, in its column naming. */
  datatype Row = Row(first_name: string, last_name: string, email: string,
                     phone: Option<string>, message: string, source_url: Option<string>)

  const FirstNameChecks: seq<Check> := [MinLength(1), MaxLength(100)]
  const LastNameChecks: seq<Check> := [MinLength(1), MaxLength(100)]
  const EmailChecks: seq<Check> := [Email, MaxLength(255)]
  const PhoneChecks: seq<Check> := [MaxLength(50)]
  const MessageChecks: seq<Check> := [MinLength(1), MaxLength(5000)]
  const SourceUrlChecks: seq<Check> := [MaxLength(2000)]

  /** Every issue of the inquiry schema, field by field in declaration
      order. */
  function Issues(obj: map<string, Field>, isEmail: EmailTest): seq<Issue>
  {
    StringIssues("firstName", Get(obj, "firstName"), FirstNameChecks, false, isEmail)
    + StringIssues("lastName", Get(obj, "lastName"), LastNameChecks, false, isEmail)
    + StringIssues("email", Get(obj, "email"), EmailChecks, false, isEmail)
    + StringIssues("phone", Get(obj, "phone"), PhoneChecks, true, isEmail)
    + StringIssues("message", Get(obj, "message"), MessageChecks, false, isEmail)
    + StringIssues("sourceUrl", Get(obj, "sourceUrl"), SourceUrlChecks, true, isEmail)
  }

  /** `inquirySchema.parse(json)`, with a failure's issue list in place of
      the thrown error. */
  function ParseInquiry(json: Json, isEmail: EmailTest): (r: Parsed<Inquiry>)
    ensures json.NonObject? ==> r == Invalid([Issue("", NotAnObject)])
    ensures r.Valid? ==>
              && json.Object?
              && Get(json.fields, "firstName") == Str(r.value.firstName)
              && Get(json.fields, "lastName") == Str(r.value.lastName)
              && Get(json.fields, "email") == Str(r.value.email)
              && Get(json.fields, "message") == Str(r.value.message)
              && 1 <= Text.Utf16Length(r.value.firstName) <= 100
              && 1 <= Text.Utf16Length(r.value.lastName) <= 100
              && isEmail(r.value.email) && Text.Utf16Length(r.value.email) <= 255
              && 1 <= Text.Utf16Length(r.value.message) <= 5000
              && (r.value.phone.Some? ==> Text.Utf16Length(r.value.phone.value) <= 50)
              && (r.value.sourceUrl.Some? ==> Text.Utf16Length(r.value.sourceUrl.value) <= 2000)
              && r.value.phone == OrNull(Get(json.fields, "phone"))
              && r.value.sourceUrl == OrNull(Get(json.fields, "sourceUrl"))
    // an object is accepted exactly when no field reports an issue
    ensures json.Object? ==> (r.Valid? <==> Issues(json.fields, isEmail) == [])
    ensures json.Object? && r.Invalid? ==> r.issues == Issues(json.fields, isEmail)
    ensures r.Invalid? ==> r.issues != []
  {
    match json
    case NonObject => Invalid([Issue("", NotAnObject)])
    case Object(obj) =>
      var issues := Issues(obj, isEmail);
      if issues != [] then Invalid(issues)
      else
        assert Passes(FirstNameChecks[0], Get(obj, "firstName").s, isEmail);
        assert Passes(FirstNameChecks[1], Get(obj, "firstName").s, isEmail);
        assert Passes(LastNameChecks[0], Get(obj, "lastName").s, isEmail);
        assert Passes(LastNameChecks[1], Get(obj, "lastName").s, isEmail);
        assert Passes(EmailChecks[0], Get(obj, "email").s, isEmail);
        assert Passes(EmailChecks[1], Get(obj, "email").s, isEmail);
        assert Passes(MessageChecks[0], Get(obj, "message").s, isEmail);
        assert Passes(MessageChecks[1], Get(obj, "message").s, isEmail);
        assert Get(obj, "phone").Str? ==> Passes(PhoneChecks[0], Get(obj, "phone").s, isEmail);
        assert Get(obj, "sourceUrl").Str? ==> Passes(SourceUrlChecks[0], Get(obj, "sourceUrl").s, isEmail);
        Valid(Inquiry(Get(obj, "firstName").s, Get(obj, "lastName").s, Get(obj, "email").s,
                      OrNull(Get(obj, "phone")), Get(obj, "message").s, OrNull(Get(obj, "sourceUrl"))))
  }

  /** The insert payload: camelCase to snake_case, absent optionals as
      `null`. */
  function ToRow(i: Inquiry): (r: Row)
    ensures FromRow(r) == i
  {
    Row(i.firstName, i.lastName, i.email, i.phone, i.message, i.sourceUrl)
  }

  /** Reading a stored row back into the form's shape; the partner of
      `ToRow`. */
  function FromRow(r: Row): Inquiry
  {
    Inquiry(r.first_name, r.last_name, r.email, r.phone, r.message, r.source_url)
  }

  /** A failure's `error`: a message, or the schema's issues (which zod
      renders as the thrown error's message). */
  datatype ErrorBody = Message(text: string) | IssueList(issues: seq<Issue>)

  datatype Reply = Reply(status: nat, ok: bool, error: Option<ErrorBody>, inserted: Option<Row>)

  /** The request body as `request.json()` delivers it. */
  datatype Body = Unparseable(message: string) | Parsed(json: Json)

  /** `POST` with the two environment values and `insertError`, the
      message of the error the insert reports, if any. */
  function Post(body: Body, isEmail: EmailTest, url: Option<string>, anonKey: Option<string>,
                insertError: Option<string>): (r: Reply)
    ensures r.ok <==> r.status == 200
    ensures r.status in {200, 400}
    ensures r.ok <==> r.inserted.Some? && insertError.None?
    ensures r.ok ==> r.error.None?
    ensures !r.ok ==> r.error.Some?
    // a row is written only for a valid body with the backend configured
    ensures r.inserted.Some? <==>
              body.Parsed? && ParseInquiry(body.json, isEmail).Valid? && SupabaseEnv.HasSupabaseEnv(url, anonKey)
    ensures r.inserted.Some? ==> r.inserted.value == ToRow(ParseInquiry(body.json, isEmail).value)
    ensures body.Unparseable? ==> r.error == Some(Message(body.message))
    ensures r.inserted.Some? && insertError.Some? ==> r.error == Some(Message(insertError.value))
    ensures body.Parsed? && ParseInquiry(body.json, isEmail).Invalid? ==>
              r.error == Some(IssueList(ParseInquiry(body.json, isEmail).issues))
    ensures body.Parsed? && ParseInquiry(body.json, isEmail).Valid? && !SupabaseEnv.HasSupabaseEnv(url, anonKey) ==>
              r.error == Some(Message(SupabaseEnv.MissingEnvMessage))
  {
    match body
    case Unparseable(message) => Reply(400, false, Some(Message(message)), None)
    case Parsed(json) =>
      match ParseInquiry(json, isEmail)
      case Invalid(issues) => Reply(400, false, Some(IssueList(issues)), None)
      case Valid(inquiry) =>
        match SupabaseEnv.RequireSupabaseEnv(url, anonKey)
        case Thrown(message) => Reply(400, false, Some(Message(message)), None)
        case Returned(_) =>
          var row := ToRow(inquiry);
          match insertError
          case Some(message) => Reply(400, false, Some(Message(message)), Some(row))
          case None => Reply(200, true, None, Some(row))
  }

  /** A required string property within the given length bounds. */
  predicate RequiredWithin(f: Field, min: nat, max: nat)
  {
    f.Str? && min <= Text.Utf16Length(f.s) <= max
  }

  /** An optional, nullable string property within the given bound. */
  predicate OptionalWithin(f: Field, max: nat)
  {
    f.Missing? || f.Null? || (f.Str? && Text.Utf16Length(f.s) <= max)
  }

  /** The inquiry schema read as plain bounds on the request's properties. */
  predicate MeetsSchema(obj: map<string, Field>, isEmail: EmailTest)
  {
    && RequiredWithin(Get(obj, "firstName"), 1, 100)
    && RequiredWithin(Get(obj, "lastName"), 1, 100)
    && RequiredWithin(Get(obj, "email"), 0, 255) && isEmail(Get(obj, "email").s)
    && OptionalWithin(Get(obj, "phone"), 50)
    && RequiredWithin(Get(obj, "message"), 1, 5000)
    && OptionalWithin(Get(obj, "sourceUrl"), 2000)
  }

  lemma RequiredIssues(path: string, f: Field, min: nat, max: nat, isEmail: EmailTest)
    ensures StringIssues(path, f, [MinLength(min), MaxLength(max)], false, isEmail) == [] <==> RequiredWithin(f, min, max)
  {
    var checks := [MinLength(min), MaxLength(max)];
    if f.Str? && RequiredWithin(f, min, max) {
      assert forall i :: 0 <= i < |checks| ==> Passes(checks[i], f.s, isEmail);
    }
    if f.Str? && StringIssues(path, f, checks, false, isEmail) == [] {
      assert Passes(checks[0], f.s, isEmail) && Passes(checks[1], f.s, isEmail);
    }
  }

  lemma OptionalIssues(path: string, f: Field, max: nat, isEmail: EmailTest)
    ensures StringIssues(path, f, [MaxLength(max)], true, isEmail) == [] <==> OptionalWithin(f, max)
  {
    var checks := [MaxLength(max)];
    if f.Str? && StringIssues(path, f, checks, true, isEmail) == [] {
      assert Passes(checks[0], f.s, isEmail);
    }
  }

  lemma EmailIssues(f: Field, isEmail: EmailTest)
    ensures StringIssues("email", f, EmailChecks, false, isEmail) == [] <==>
            RequiredWithin(f, 0, 255) && isEmail(f.s)
  {
    if f.Str? && RequiredWithin(f, 0, 255) && isEmail(f.s) {
      assert forall i :: 0 <= i < |EmailChecks| ==> Passes(EmailChecks[i], f.s, isEmail);
    }
    if f.Str? && StringIssues("email", f, EmailChecks, false, isEmail) == [] {
      assert Passes(EmailChecks[0], f.s, isEmail) && Passes(EmailChecks[1], f.s, isEmail);
    }
  }

  /** The parser accepts an object exactly when its properties meet every
      bound the schema declares; nothing else is refused. */
  lemma AcceptsExactlySchema(obj: map<string, Field>, isEmail: EmailTest)
    ensures ParseInquiry(Object(obj), isEmail).Valid? <==> MeetsSchema(obj, isEmail)
  {
    RequiredIssues("firstName", Get(obj, "firstName"), 1, 100, isEmail);
    RequiredIssues("lastName", Get(obj, "lastName"), 1, 100, isEmail);
    EmailIssues(Get(obj, "email"), isEmail);
    OptionalIssues("phone", Get(obj, "phone"), 50, isEmail);
    RequiredIssues("message", Get(obj, "message"), 1, 5000, isEmail);
    OptionalIssues("sourceUrl", Get(obj, "sourceUrl"), 2000, isEmail);
  }

  /** A complete, well-formed submission is stored as given, optional
      fields left out becoming `null`. */
  lemma MinimalSubmissionAccepted(first: string, last: string, email: string, message: string,
                                  isEmail: EmailTest, url: string, anonKey: string)
    requires 1 <= |first| <= 50 && 1 <= |last| <= 50 && 1 <= |message| <= 2500 && |email| <= 127
    requires isEmail(email) && url != "" && anonKey != ""
    ensures var obj := map["firstName" := Str(first), "lastName" := Str(last), "email" := Str(email), "message" := Str(message)];
            Post(Parsed(Object(obj)), isEmail, Some(url), Some(anonKey), None)
              == Reply(200, true, None, Some(Row(first, last, email, None, message, None)))
  {
    var obj := map["firstName" := Str(first), "lastName" := Str(last), "email" := Str(email), "message" := Str(message)];
    assert Get(obj, "phone") == Missing && Get(obj, "sourceUrl") == Missing;
    assert Issues(obj, isEmail) == [];
  }

  /** An over-long first name is refused before the backend is touched. */
  lemma LongFirstNameRefused(obj: map<string, Field>, isEmail: EmailTest, url: Option<string>,
                             anonKey: Option<string>, insertError: Option<string>)
    requires "firstName" in obj && obj["firstName"].Str? && Text.Utf16Length(obj["firstName"].s) > 100
    ensures Post(Parsed(Object(obj)), isEmail, url, anonKey, insertError).status == 400
    ensures Post(Parsed(Object(obj)), isEmail, url, anonKey, insertError).inserted == None
    ensures Issue("firstName", TooLong(100)) in ParseInquiry(Object(obj), isEmail).issues
  {
    var s := obj["firstName"].s;
    assert !Passes(FirstNameChecks[1], s, isEmail);
    assert CheckIssues("firstName", s, FirstNameChecks[1..], isEmail)[0] == Issue("firstName", TooLong(100));
    assert Issue("firstName", TooLong(100)) in StringIssues("firstName", obj["firstName"], FirstNameChecks, false, isEmail);
  }
}
