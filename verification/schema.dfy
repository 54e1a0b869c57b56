/** The shared record shapes and the login input validator (`loginSchema`). */
module Schema {
  import opened Wrappers

  /** A JSON value as it reaches the validator. Only whether a field holds a
      string, and which string, affects validation. */
  datatype Json = JString(str: string) | JNonString

  /** A request body: a JSON object, or anything else (an array, a scalar,
      or no body at all). */
  datatype Body = Object(fields: map<string, Json>) | NonObject

  /** The validated login input. */
  datatype LoginRequest = LoginRequest(username: string, password: string)

  /** One complaint of the validator. A missing field and a field holding a
      non-string are both an invalid-type issue; an empty string is a
      too-small issue carrying the schema's message. */
  datatype Issue =
    | NotAnObject
    | InvalidType(field: string)
    | TooSmall(field: string, message: string)

  const UsernameKey := "username"
  const PasswordKey := "password"
  const UsernameRequired := "El nombre de usuario es requerido"
  const PasswordRequired := "La contraseña es requerida"

  /** A timestamp, in milliseconds since the epoch; never inspected. */
  datatype Instant = Instant(epochMillis: int)

  /** The record kept per session. */
  datatype UserSession = UserSession(id: string, username: string, loginTime: Instant)

  /** The JSON answer of every handler: `success` is always present,
      `username` and `message` are optional. */
  datatype AuthResponse = AuthResponse(success: bool, username: Option<string>, message: Option<string>)

  /** What the schema demands of one field: present, a string, at least one
      character long. No maximum, no character set, no trimming. */
  function NonEmptyString(fields: map<string, Json>, key: string): (ok: bool)
    ensures ok ==> key in fields && fields[key].JString?
    ensures key in fields && fields[key] == JString("") ==> !ok
  {
    key in fields && fields[key].JString? && |fields[key].str| >= 1
  }

  /** The bodies `loginSchema` accepts. */
  function Accepts(body: Body): (ok: bool)
    ensures ok ==> body.Object? && UsernameKey in body.fields && PasswordKey in body.fields
    ensures body.NonObject? ==> !ok
  {
    body.Object? && NonEmptyString(body.fields, UsernameKey) && NonEmptyString(body.fields, PasswordKey)
  }

  /** The issues raised for one `z.string().min(1, message)` field. */
  function FieldIssues(fields: map<string, Json>, key: string, message: string): (issues: seq<Issue>)
    ensures issues == [] <==> NonEmptyString(fields, key)
    ensures |issues| <= 1
    ensures key in fields && fields[key] == JString("") ==> issues == [TooSmall(key, message)]
    ensures forall i :: 0 <= i < |issues| ==> !issues[i].NotAnObject? && issues[i].field == key
  {
    if key !in fields || !fields[key].JString? then [InvalidType(key)]
    else if |fields[key].str| < 1 then [TooSmall(key, message)]
    else []
  }

  /** `loginSchema.parse`: both fields are checked (all issues are
      collected), unknown keys are dropped, and the accepted strings are
      returned as they were sent. */
  function ParseLogin(body: Body): (r: Result<LoginRequest, seq<Issue>>)
    ensures r.Success? <==> Accepts(body)
    ensures r.Success? ==>
              && r.value.username == body.fields[UsernameKey].str
              && r.value.password == body.fields[PasswordKey].str
    ensures r.Failure? ==> |r.error| >= 1
    ensures body.Object? && UsernameKey in body.fields && body.fields[UsernameKey] == JString("") ==>
              r.Failure? && TooSmall(UsernameKey, UsernameRequired) in r.error
    ensures body.Object? && PasswordKey in body.fields && body.fields[PasswordKey] == JString("") ==>
              r.Failure? && TooSmall(PasswordKey, PasswordRequired) in r.error
  {
    match body
    case NonObject => Failure([NotAnObject])
    case Object(fields) =>
      var issues := FieldIssues(fields, UsernameKey, UsernameRequired)
                  + FieldIssues(fields, PasswordKey, PasswordRequired);
      if issues == [] then
        Success(LoginRequest(fields[UsernameKey].str, fields[PasswordKey].str))
      else
        Failure(issues)
  }

  /** The body a client sends for a login request (`JSON.stringify` of the
      two fields). */
  function LoginBody(req: LoginRequest): Body
  {
    Object(map[UsernameKey := JString(req.username), PasswordKey := JString(req.password)])
  }

  /** Every pair of non-empty strings is accepted and comes back unchanged:
      parsing is a left inverse of building the body. */
  lemma ParseLoginBody(req: LoginRequest)
    requires |req.username| >= 1 && |req.password| >= 1
    ensures ParseLogin(LoginBody(req)) == Success(req)
  {
  }

  /** A body with an empty field is refused, whatever the other field holds. */
  lemma EmptyFieldRejected(req: LoginRequest)
    requires req.username == "" || req.password == ""
    ensures ParseLogin(LoginBody(req)).Failure?
  {
  }

  /** Keys other than `username` and `password` never change the outcome. */
  lemma UnknownKeysIgnored(fields: map<string, Json>, key: string, value: Json)
    requires key != UsernameKey && key != PasswordKey
    ensures ParseLogin(Object(fields[key := value])) == ParseLogin(Object(fields))
  {
    var extended := fields[key := value];
    assert FieldIssues(extended, UsernameKey, UsernameRequired) == FieldIssues(fields, UsernameKey, UsernameRequired);
    assert FieldIssues(extended, PasswordKey, PasswordRequired) == FieldIssues(fields, PasswordKey, PasswordRequired);
  }
}
