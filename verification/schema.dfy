/** The slice of zod's object and string validation that the two API
    routes' schemas use. A JSON property is absent, `null`, a string, or
    some other value; string lengths are counted in UTF-16 code units, as
    `String.prototype.length` counts them. Whether a string is a
    well-formed e-mail address is a parameter. */
module Schema {
  import opened Optional
  import Text

  datatype Field = Missing | Null | Str(s: string) | Other

  /** A parsed request body: its properties, or a JSON value that is not an
      object (`null`, an array, a primitive). */
  datatype Json = NonObject | Object(fields: map<string, Field>)

  function Get(obj: map<string, Field>, key: string): Field
  {
    if key in obj then obj[key] else Missing
  }

  datatype Problem = Required | NotAString | NotAnObject | TooShort(min: nat) | TooLong(max: nat) | NotAnEmail

  /** One zod issue: the offending property ("" for the root) and why. */
  datatype Issue = Issue(path: string, problem: Problem)

  /** A string refinement, applied in declaration order; every failing
      refinement reports its own issue. */
  datatype Check = MinLength(min: nat) | MaxLength(max: nat) | Email

  type EmailTest = string -> bool

  predicate Passes(c: Check, s: string, isEmail: EmailTest)
  {
    match c
    case MinLength(n) => Text.Utf16Length(s) >= n
    case MaxLength(n) => Text.Utf16Length(s) <= n
    case Email => isEmail(s)
  }

  function Failure(c: Check): Problem
  {
    match c
    case MinLength(n) => TooShort(n)
    case MaxLength(n) => TooLong(n)
    case Email => NotAnEmail
  }

  function CheckIssues(path: string, s: string, checks: seq<Check>, isEmail: EmailTest): (r: seq<Issue>)
    ensures |r| <= |checks|
    ensures forall i :: 0 <= i < |r| ==> r[i].path == path
    ensures r == [] <==> forall i :: 0 <= i < |checks| ==> Passes(checks[i], s, isEmail)
  {
    if checks == [] then []
    else
      (if Passes(checks[0], s, isEmail) then [] else [Issue(path, Failure(checks[0]))])
      + CheckIssues(path, s, checks[1..], isEmail)
  }

  /** `z.string().<checks>`, wrapped in `.optional().nullable()` when
      `optional` holds: a type mismatch is reported alone. */
  function StringIssues(path: string, f: Field, checks: seq<Check>, optional: bool, isEmail: EmailTest): (r: seq<Issue>)
    ensures r == [] <==> (optional && (f.Missing? || f.Null?)) ||
                         (f.Str? && forall i :: 0 <= i < |checks| ==> Passes(checks[i], f.s, isEmail))
    ensures !optional && f.Missing? ==> r == [Issue(path, Required)]
    ensures forall i :: 0 <= i < |r| ==> r[i].path == path
  {
    match f
    case Str(s) => CheckIssues(path, s, checks, isEmail)
    case Missing => if optional then [] else [Issue(path, Required)]
    case Null => if optional then [] else [Issue(path, NotAString)]
    case Other => [Issue(path, NotAString)]
  }

  /** The value an optional string field contributes: `data.x ?? null`. */
  function OrNull(f: Field): (r: Option<string>)
    ensures r.Some? <==> f.Str?
    ensures r.Some? ==> r.value == f.s
  {
    if f.Str? then Some(f.s) else None
  }

  datatype Parsed<T> = Valid(value: T) | Invalid(issues: seq<Issue>)
}
