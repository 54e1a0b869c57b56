/** Sequences of requests from one client, and the session lifecycle they
    drive. The abstract machine has two states per client, Unauthenticated
    and Authenticated(username): a successful login authenticates, a logout
    unauthenticates, everything else keeps the state. The concrete gate
    (store plus cookie) is shown to follow that machine on every trace. */
module Lifecycle {
  import opened Wrappers
  import opened Schema
  import opened Storage
  import opened Routes

  /** One request of the client. A login carries the id the generator
      produces for it and the time it is handled. */
  datatype Request =
    | LoginReq(body: Body, freshId: string, now: Instant)
    | StatusReq
    | LogoutReq

  /** Dispatch of one request to its handler. */
  function Handle(s: State, req: Request): (r: Outcome)
    requires req.LoginReq? ==> req.freshId !in s.store
    ensures req.StatusReq? ==> r.state == s
    ensures req.LogoutReq? ==> r.state.cookie == None && r.response.body.success
    ensures !req.LoginReq? ==> r.state.store.Keys <= s.store.Keys
    ensures req.LoginReq? ==> r.state.store.Keys <= s.store.Keys + {req.freshId}
  {
    match req
    case LoginReq(body, freshId, now) => Login(s, body, freshId, now)
    case StatusReq => Status(s)
    case LogoutReq => Logout(s)
  }

  /** The ids the generator hands out over a trace, in order. */
  function LoginIds(trace: seq<Request>): (ids: seq<string>)
    ensures |ids| <= |trace|
  {
    if trace == [] then []
    else if trace[0].LoginReq? then [trace[0].freshId] + LoginIds(trace[1..])
    else LoginIds(trace[1..])
  }

  /** The generator never repeats an id, never yields an empty one, and
      never yields one already in the store. */
  predicate FreshIds(store: Store, trace: seq<Request>)
  {
    var ids := LoginIds(trace);
    && (forall i, j :: 0 <= i < j < |ids| ==> ids[i] != ids[j])
    && (forall i :: 0 <= i < |ids| ==> ids[i] != "" && ids[i] !in store)
  }

  /** What the client may rely on between requests: the store files each
      record under its own id, and a bound cookie names a live session. */
  ghost predicate Invariant(s: State)
  {
    && WellFormed(s.store)
    && (s.cookie.Some? ==> s.cookie.value != "" && s.cookie.value in s.store)
  }

  /** The responses a trace receives and the state it leaves. */
  datatype Transcript = Transcript(responses: seq<Response>, final: State)

  lemma {:induction false} LoginIdsTail(trace: seq<Request>)
    requires trace != []
    ensures trace[0].LoginReq? ==> LoginIds(trace) == [trace[0].freshId] + LoginIds(trace[1..])
    ensures !trace[0].LoginReq? ==> LoginIds(trace) == LoginIds(trace[1..])
  {
  }

  /** The first request of a fresh trace leaves the rest of the trace fresh
      for the state it produces. */
  lemma FreshIdsStep(s: State, trace: seq<Request>)
    requires trace != [] && FreshIds(s.store, trace)
    ensures trace[0].LoginReq? ==> trace[0].freshId !in s.store && trace[0].freshId != ""
    ensures trace[0].LoginReq? ==> FreshIds(Handle(s, trace[0]).state.store, trace[1..])
    ensures !trace[0].LoginReq? ==> FreshIds(Handle(s, trace[0]).state.store, trace[1..])
  {
    LoginIdsTail(trace);
    var ids := LoginIds(trace);
    var rest := LoginIds(trace[1..]);
    if trace[0].LoginReq? {
      assert ids[0] == trace[0].freshId;
      var next := Handle(s, trace[0]).state.store;
      forall i, j | 0 <= i < j < |rest|
        ensures rest[i] != rest[j]
      {
        assert rest[i] == ids[i + 1] && rest[j] == ids[j + 1];
      }
      forall i | 0 <= i < |rest|
        ensures rest[i] != "" && rest[i] !in next
      {
        assert rest[i] == ids[i + 1];
        assert ids[0] != ids[i + 1];
      }
    }
  }

  /** Handles a trace of requests in order. The store only ever holds the
      sessions it started with and those the trace's logins created, and
      the invariant survives every request. */
  function Run(s: State, trace: seq<Request>): (t: Transcript)
    requires FreshIds(s.store, trace)
    ensures |t.responses| == |trace|
    ensures forall id :: id in t.final.store ==> id in s.store || id in LoginIds(trace)
    ensures Invariant(s) ==> Invariant(t.final)
    decreases |trace|
  {
    if trace == [] then Transcript([], s)
    else
      FreshIdsStep(s, trace);
      LoginIdsTail(trace);
      var first := Handle(s, trace[0]);
      var rest := Run(first.state, trace[1..]);
      Transcript([first.response] + rest.responses, rest.final)
  }

  /** The abstract session state. */
  datatype AuthState = Unauthenticated | Authenticated(username: string)

  /** The abstract machine's transition on one request. */
  function Next(a: AuthState, req: Request): AuthState
  {
    match req
    case LoginReq(body, _, _) =>
      if Accepts(body) && body.fields[PasswordKey].str == CorrectPassword
      then Authenticated(body.fields[UsernameKey].str)
      else a
    case StatusReq => a
    case LogoutReq => Unauthenticated
  }

  /** The abstract state after a whole trace. */
  function After(a: AuthState, trace: seq<Request>): AuthState
    decreases |trace|
  {
    if trace == [] then a else After(Next(a, trace[0]), trace[1..])
  }

  /** How a concrete state looks to the client: authenticated as the stored
      username exactly when its cookie names a live session. */
  function Abstraction(s: State): AuthState
  {
    if s.cookie.Some? && s.cookie.value != "" && s.cookie.value in s.store
    then Authenticated(s.store[s.cookie.value].username)
    else Unauthenticated
  }

  /** The status handler reports the abstract state. */
  lemma StatusReportsAbstraction(s: State)
    ensures Status(s).response.body.success <==> Abstraction(s).Authenticated?
    ensures Abstraction(s).Authenticated? ==> Status(s).response.body.username == Some(Abstraction(s).username)
  {
  }

  /** One request moves the concrete gate exactly as the abstract machine
      moves. */
  lemma HandleRefinesNext(s: State, req: Request)
    requires req.LoginReq? ==> req.freshId !in s.store && req.freshId != ""
    ensures Abstraction(Handle(s, req).state) == Next(Abstraction(s), req)
  {
  }

  /** Over any trace with fresh ids, the gate ends in the abstract state the
      machine predicts. */
  lemma {:induction false} RunRefinesAfter(s: State, trace: seq<Request>)
    requires FreshIds(s.store, trace)
    ensures Abstraction(Run(s, trace).final) == After(Abstraction(s), trace)
    decreases |trace|
  {
    if trace != [] {
      FreshIdsStep(s, trace);
      HandleRefinesNext(s, trace[0]);
      RunRefinesAfter(Handle(s, trace[0]).state, trace[1..]);
    }
  }

  /** Every status request in a trace is answered from the abstract state
      reached by the requests before it: success exactly when authenticated,
      with that username. */
  lemma {:induction false} StatusAnswersFollowMachine(s: State, trace: seq<Request>, i: nat)
    requires FreshIds(s.store, trace)
    requires i < |trace| && trace[i].StatusReq?
    ensures var a := After(Abstraction(s), trace[..i]);
            var resp := Run(s, trace).responses[i];
            && (resp.body.success <==> a.Authenticated?)
            && (a.Authenticated? ==> resp.body.username == Some(a.username))
    decreases |trace|
  {
    FreshIdsStep(s, trace);
    var first := Handle(s, trace[0]);
    if i == 0 {
      assert trace[..0] == [];
      StatusReportsAbstraction(s);
    } else {
      HandleRefinesNext(s, trace[0]);
      StatusAnswersFollowMachine(first.state, trace[1..], i - 1);
      assert trace[..i] == [trace[0]] + trace[1..][..i - 1];
      assert trace[1..][i - 1] == trace[i];
    }
  }

  /** From an empty store with no cookie, every fresh trace leaves the gate
      consistent: the client is recognised exactly when it holds a cookie. */
  lemma FromStartCookieDecides(trace: seq<Request>)
    requires FreshIds(map[], trace)
    ensures var final := Run(State(map[], None), trace).final;
            Status(final).response.body.success <==> final.cookie.Some?
  {
  }

  /** Only logins add sessions: a trace with no login request never grows
      the store. */
  lemma {:induction false} LoginlessTraceNeverGrows(s: State, trace: seq<Request>)
    requires forall k :: 0 <= k < |trace| ==> !trace[k].LoginReq?
    ensures LoginIds(trace) == []
    ensures FreshIds(s.store, trace)
    ensures Run(s, trace).final.store.Keys <= s.store.Keys
    decreases |trace|
  {
    if trace != [] {
      LoginIdsTail(trace);
      LoginlessTraceNeverGrows(Handle(s, trace[0]).state, trace[1..]);
    }
  }
}
