/** The three handlers of the auth gate: login, status and logout. Each
    handler is one atomic transition from a gate state to a response and a
    new gate state. The gate state is the session store together with the
    `sessionId` field of the caller's cookie-backed session. */
module Routes {
  import opened Wrappers
  import opened Schema
  import opened Storage

  /** The single shared password. */
  const CorrectPassword := "MJP-HHB1"

  const MsgValidation := "Error en la validación de datos"
  const MsgWrongPassword := "Contraseña incorrecta. Verifica tu clave de acceso."
  const MsgAccessGranted := "Acceso concedido al área de miembros"
  const MsgNoSession := "No hay sesión activa"
  const MsgInvalidSession := "Sesión inválida"
  const MsgLoggedOut := "Sesión cerrada exitosamente"

  const StatusOk := 200
  const StatusBadRequest := 400
  const StatusUnauthorized := 401

  /** The store and the caller's cookie session id (absent until a login
      binds one). */
  datatype State = State(store: Store, cookie: Option<string>)

  datatype Response = Response(status: int, body: AuthResponse)

  /** What a handler produces: the response sent and the state left behind. */
  datatype Outcome = Outcome(response: Response, state: State)

  /** The handlers test the cookie id for truthiness, so an empty id counts
      as no id at all. */
  function HasSessionId(cookie: Option<string>): (present: bool)
    ensures present ==> cookie.Some?
    ensures cookie == Some("") ==> !present
  {
    cookie.Some? && cookie.value != ""
  }

  function Refusal(status: int, message: string): Response
  {
    Response(status, AuthResponse(false, None, Some(message)))
  }

  /** The login handler. Validation comes first (400), then the password
      comparison (401); only a valid body carrying the shared password
      creates a session, under `freshId`, and binds it into the cookie. */
  function Login(s: State, body: Body, freshId: string, now: Instant): (r: Outcome)
    requires freshId !in s.store
    ensures !Accepts(body) ==> r == Outcome(Refusal(StatusBadRequest, MsgValidation), s)
    ensures Accepts(body) && body.fields[PasswordKey].str != CorrectPassword ==>
              r == Outcome(Refusal(StatusUnauthorized, MsgWrongPassword), s)
    ensures r.response.body.success <==> Accepts(body) && body.fields[PasswordKey].str == CorrectPassword
    ensures !r.response.body.success ==> r.state == s
    ensures r.response.body.success ==>
              && r.response.status == StatusOk
              && r.response.body.username == Some(body.fields[UsernameKey].str)
              && r.response.body.message == Some(MsgAccessGranted)
              && r.state.cookie == Some(freshId)
              && r.state.store.Keys == s.store.Keys + {freshId}
              && r.state.store[freshId] == UserSession(freshId, body.fields[UsernameKey].str, now)
              && (forall id :: id in s.store ==> id in r.state.store && r.state.store[id] == s.store[id])
  {
    match ParseLogin(body)
    case Failure(_) => Outcome(Refusal(StatusBadRequest, MsgValidation), s)
    case Success(req) =>
      if req.password != CorrectPassword then
        Outcome(Refusal(StatusUnauthorized, MsgWrongPassword), s)
      else
        var created := CreateSession(s.store, req.username, freshId, now);
        var granted := AuthResponse(true, Some(req.username), Some(MsgAccessGranted));
        Outcome(Response(StatusOk, granted), State(created.store, Some(created.session.id)))
  }

  /** The status handler: no cookie id gives 401 "no active session", an id
      the store does not know gives 401 "invalid session", and a known id
      gives success with the stored username. Nothing changes. */
  function Status(s: State): (r: Outcome)
    ensures r.state == s
    ensures !HasSessionId(s.cookie) ==> r.response == Refusal(StatusUnauthorized, MsgNoSession)
    ensures HasSessionId(s.cookie) && s.cookie.value !in s.store ==>
              r.response == Refusal(StatusUnauthorized, MsgInvalidSession)
    ensures r.response.body.success <==> HasSessionId(s.cookie) && s.cookie.value in s.store
    ensures r.response.body.success ==>
              && r.response.status == StatusOk
              && r.response.body.username == Some(s.store[s.cookie.value].username)
  {
    if !HasSessionId(s.cookie) then
      Outcome(Refusal(StatusUnauthorized, MsgNoSession), s)
    else
      match GetSession(s.store, s.cookie.value)
      case None => Outcome(Refusal(StatusUnauthorized, MsgInvalidSession), s)
      case Some(session) => Outcome(Response(StatusOk, AuthResponse(true, Some(session.username), None)), s)
  }

  /** The logout handler: deletes the cookie's session if it names one,
      always clears the cookie, and always reports success. */
  function Logout(s: State): (r: Outcome)
    ensures r.response == Response(StatusOk, AuthResponse(true, None, Some(MsgLoggedOut)))
    ensures r.state.cookie == None
    ensures HasSessionId(s.cookie) ==> r.state.store.Keys == s.store.Keys - {s.cookie.value}
    ensures !HasSessionId(s.cookie) ==> r.state.store == s.store
    ensures forall id :: id in r.state.store ==> id in s.store && r.state.store[id] == s.store[id]
  {
    var store := if HasSessionId(s.cookie) then DeleteSession(s.store, s.cookie.value) else s.store;
    Outcome(Response(StatusOk, AuthResponse(true, None, Some(MsgLoggedOut))), State(store, None))
  }

  /** Logging in with the shared password and then asking for the status
      reports the username that was typed. */
  lemma LoginThenStatus(s: State, req: LoginRequest, freshId: string, now: Instant)
    requires freshId !in s.store && freshId != ""
    requires |req.username| >= 1 && req.password == CorrectPassword
    ensures Login(s, LoginBody(req), freshId, now).response.body.success
    ensures Status(Login(s, LoginBody(req), freshId, now).state).response
            == Response(StatusOk, AuthResponse(true, Some(req.username), None))
  {
    ParseLoginBody(req);
  }

  /** After logout the status is "no active session", and the id that was
      bound no longer resolves in the store. */
  lemma LogoutThenStatus(s: State)
    ensures Status(Logout(s).state).response == Refusal(StatusUnauthorized, MsgNoSession)
    ensures HasSessionId(s.cookie) ==> GetSession(Logout(s).state.store, s.cookie.value) == None
  {
  }

  /** Login, logout, status: the store is back to what it was and status is
      refused. A state whose cookie still named the deleted id (which only a
      failed `destroy` of the cookie session could leave behind) would be
      told the session is invalid. */
  lemma LoginLogoutStatus(s: State, req: LoginRequest, freshId: string, now: Instant)
    requires freshId !in s.store && freshId != ""
    requires |req.username| >= 1 && req.password == CorrectPassword
    ensures var afterLogout := Logout(Login(s, LoginBody(req), freshId, now).state).state;
            && Status(afterLogout).response == Refusal(StatusUnauthorized, MsgNoSession)
            && Status(State(afterLogout.store, Some(freshId))).response
               == Refusal(StatusUnauthorized, MsgInvalidSession)
            && afterLogout.store == s.store
  {
    ParseLoginBody(req);
    var loggedIn := Login(s, LoginBody(req), freshId, now).state;
    assert loggedIn.store == CreateSession(s.store, req.username, freshId, now).store;
    DeleteUndoesCreate(s.store, req.username, freshId, now);
  }

  /** Logout twice is logout once, and neither call fails. */
  lemma LogoutIdempotent(s: State)
    ensures Logout(Logout(s).state) == Outcome(Logout(s).response, Logout(s).state)
  {
  }

  /** An empty password is a validation error (400), never a credential
      error (401), whatever the username. */
  lemma ValidationBeforePassword(s: State, username: string, freshId: string, now: Instant)
    requires freshId !in s.store
    ensures Login(s, LoginBody(LoginRequest(username, "")), freshId, now).response.status == StatusBadRequest
  {
  }

  /** A failed login leaves every session that existed before it resolvable
      as before. */
  lemma FailedLoginKeepsSessions(s: State, body: Body, freshId: string, now: Instant, id: string)
    requires freshId !in s.store
    requires !Login(s, body, freshId, now).response.body.success
    ensures Status(State(Login(s, body, freshId, now).state.store, Some(id))) == Status(State(s.store, Some(id)))
  {
  }

  /** A second successful login overwrites the cookie but does not delete
      the session the cookie named before; it stays resolvable. */
  lemma ReloginKeepsPreviousSession(s: State, body: Body, freshId: string, now: Instant)
    requires freshId !in s.store
    requires HasSessionId(s.cookie) && s.cookie.value in s.store
    requires Login(s, body, freshId, now).response.body.success
    ensures var after := Login(s, body, freshId, now).state;
            && after.cookie == Some(freshId)
            && GetSession(after.store, s.cookie.value) == GetSession(s.store, s.cookie.value)
            && Status(State(after.store, s.cookie)).response == Status(s).response
  {
  }

  /** A sample round: "ana" logs in with the shared password, is
      recognised, logs out, and is then refused. */
  lemma AnaScenario(freshId: string, now: Instant)
    requires freshId != ""
    ensures var s0 := State(map[], None);
            var login := Login(s0, LoginBody(LoginRequest("ana", "MJP-HHB1")), freshId, now);
            var status := Status(login.state);
            var logout := Logout(status.state);
            var after := Status(logout.state);
            && login.response.body == AuthResponse(true, Some("ana"), Some(MsgAccessGranted))
            && status.response.body == AuthResponse(true, Some("ana"), None)
            && logout.response.body.success
            && !after.response.body.success
  {
    LoginThenStatus(State(map[], None), LoginRequest("ana", "MJP-HHB1"), freshId, now);
  }
}
