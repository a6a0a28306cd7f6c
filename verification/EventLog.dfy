/**
The global append-only log, restricted to the two aggregates of the OIDC flow:
auth requests and OIDC sessions.
*/
module EventLog {
  import opened Wrappers

  /** Instants and durations are nanoseconds. */
  type Time = int
  type Duration = int

  datatype ResponseType = Code | IDToken | IDTokenToken | UnknownResponseType(value: int)

  datatype CodeChallenge = CodeChallenge(challenge: string, challengeMethod: int)

  /** What a client asks for; fixed by the Added event of an auth request. */
  datatype AuthRequest = AuthRequest(
    loginClient: string,
    clientID: string,
    redirectURI: string,
    state: string,
    nonce: string,
    scope: seq<string>,
    audience: seq<string>,
    responseType: ResponseType,
    codeChallenge: Option<CodeChallenge>,
    prompt: seq<int>,
    uiLocales: seq<string>,
    maxAge: Option<Duration>,
    loginHint: Option<string>,
    hintUserID: Option<string>)

  datatype AuthRequestChange =
    | RequestAdded(request: AuthRequest)
    | SessionLinked(sessionID: string, userID: string, authTime: Time, authMethods: seq<int>)
    | RequestFailed(reason: int)
    | CodeAdded
    | CodeExchanged
    | Succeeded

  /** What an OIDC session is granted; fixed by the Added event of the session. */
  datatype Grant = Grant(
    userID: string,
    sessionID: string,
    clientID: string,
    audience: seq<string>,
    scope: seq<string>,
    authMethods: seq<int>,
    authTime: Time)

  datatype OIDCSessionChange =
    | SessionAdded(grant: Grant)
    | AccessTokenAdded(tokenID: string, tokenScope: seq<string>, lifetime: Duration)
    | AccessTokenRevoked
    | RefreshTokenAdded(tokenID: string, lifetime: Duration, idleLifetime: Duration)
    | RefreshTokenRenewed(tokenID: string, idleLifetime: Duration)
    | RefreshTokenRevoked

  datatype Event =
    | AuthRequestEvent(id: string, created: Time, request: AuthRequestChange)
    | OIDCSessionEvent(id: string, created: Time, session: OIDCSessionChange)

  /**
  The queries of the write models. `OIDCSessionQuery` is the one the session model issues; it
  names five of the six event types. `WholeOIDCSession` is the query it does not issue.
  */
  datatype Query =
    | AuthRequestQuery(id: string)
    | OIDCSessionQuery(id: string)
    | WholeOIDCSession(id: string)

  predicate Matches(q: Query, e: Event) {
    match q
    case AuthRequestQuery(id) => e.AuthRequestEvent? && e.id == id
    case OIDCSessionQuery(id) => e.OIDCSessionEvent? && e.id == id && !e.session.AccessTokenRevoked?
    case WholeOIDCSession(id) => e.OIDCSessionEvent? && e.id == id
  }

  /** What the event store returns for a query: the matching events in log order. */
  function Filter(log: seq<Event>, q: Query): seq<Event> {
    if log == [] then []
    else
      var before := Filter(log[..|log| - 1], q);
      if Matches(q, log[|log| - 1]) then before + [log[|log| - 1]] else before
  }

  lemma FilterSnoc(log: seq<Event>, e: Event, q: Query)
    ensures Filter(log + [e], q) == Filter(log, q) + (if Matches(q, e) then [e] else [])
  {
    assert (log + [e])[..|log|] == log;
  }

  lemma {:induction false} FilterConcat(log: seq<Event>, more: seq<Event>, q: Query)
    ensures Filter(log + more, q) == Filter(log, q) + Filter(more, q)
  {
    if more == [] {
      assert log + more == log;
    } else {
      var init, last := more[..|more| - 1], more[|more| - 1];
      FilterConcat(log, init, q);
      FilterSnoc(log + init, last, q);
      assert log + more == (log + init) + [last];
    }
  }

  /** Every event a query returns is in the log and matches the query. */
  lemma {:induction false} FilterMatches(log: seq<Event>, q: Query)
    ensures forall e <- Filter(log, q) :: e in log && Matches(q, e)
  {
    if log != [] {
      FilterMatches(log[..|log| - 1], q);
    }
  }

  /** An event that matches a query is returned by it. */
  lemma {:induction false} FilterComplete(log: seq<Event>, q: Query, i: nat)
    requires i < |log| && Matches(q, log[i])
    ensures log[i] in Filter(log, q)
  {
    if i < |log| - 1 {
      FilterComplete(log[..|log| - 1], q, i);
    }
  }

  /** Loading a session with its own query is loading it whole and dropping the omitted type. */
  lemma {:induction false} FilterOfWhole(log: seq<Event>, id: string)
    ensures Filter(Filter(log, WholeOIDCSession(id)), OIDCSessionQuery(id)) == Filter(log, OIDCSessionQuery(id))
  {
    if log != [] {
      var init, last := log[..|log| - 1], log[|log| - 1];
      FilterOfWhole(init, id);
      if Matches(WholeOIDCSession(id), last) {
        FilterSnoc(Filter(init, WholeOIDCSession(id)), last, OIDCSessionQuery(id));
      }
    }
  }
}
