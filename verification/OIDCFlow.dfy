/**
The commands of the OIDC flow as a transition system over the log. Each command loads the models
it needs, decides, and either fails or appends its events in one step.
*/
module OIDCFlow {
  import opened Wrappers
  import opened EventLog
  import opened Tokens
  import Request = AuthRequestModel
  import Session = OIDCSessionModel

  /** Encryption followed by base64, and its inverse. */
  datatype Cipher = Cipher(encrypt: string -> string, decrypt: string -> Result<string, Error>)

  ghost predicate Inverse(c: Cipher) {
    forall text :: c.decrypt(c.encrypt(text)) == Ok(text)
  }

  /** The token decrypts to the text; there may be many such tokens. */
  predicate Carries(c: Cipher, token: string, text: string) {
    c.decrypt(token) == Ok(text)
  }

  lemma EncryptedCarries(c: Cipher, text: string)
    requires Inverse(c)
    ensures Carries(c, c.encrypt(text), text)
  {
  }

  datatype Lifetimes = Lifetimes(access: Duration, refresh: Duration, refreshIdle: Duration)

  /** The instance settings override the defaults wherever they are positive. */
  function TokenLifetimes(defaults: Lifetimes, settings: Lifetimes): Lifetimes {
    Lifetimes(
      if settings.access > 0 then settings.access else defaults.access,
      if settings.refresh > 0 then settings.refresh else defaults.refresh,
      if settings.refreshIdle > 0 then settings.refreshIdle else defaults.refreshIdle)
  }

  datatype Config = Config(cipher: Cipher, defaults: Lifetimes)

  datatype LoginState = LoginUnspecified | LoginActive | LoginTerminated

  /** What the commands read from a login session; how it came about is not part of this model. */
  datatype Login = Login(state: LoginState, userID: string, authTime: Time, authMethods: seq<int>)

  /** `used` holds every id the generator has handed out. */
  datatype Store = Store(log: seq<Event>, now: Time, used: set<string>)

  datatype Command =
    | AddAuthRequest(newID: string, request: AuthRequest)
    | LinkSession(requestID: string, sessionID: string, login: Login, permission: Result<(), Error>, checkLoginClient: bool, caller: string)
    | FailAuthRequest(requestID: string, reason: int)
    | AddCode(requestID: string, code: string)
    | ExchangeCode(code: string)
    | Mint(requestID: string, login: Login, ownerKnown: bool, settings: Lifetimes,
           newSession: string, newAccess: string, newRefresh: Option<string>)
    | Refresh(oidcSessionID: string, token: string, scope: seq<string>, settings: Lifetimes,
              newAccess: string, renewed: string)
    | Revoke(token: string, clientID: string)
    | Wait(duration: nat)

  function Generated(c: Command): seq<string> {
    match c
    case AddAuthRequest(id, _) => [id]
    case Mint(_, _, _, _, session, access, refresh) =>
      [session, access] + (if refresh.Some? then [refresh.value] else [])
    case Refresh(_, _, _, _, access, renewed) => [access, renewed]
    case _ => []
  }

  /** The id generator never repeats itself and yields no delimiter. */
  ghost predicate Fresh(s: Store, c: Command) {
    var ids := Generated(c);
    && (forall i :: 0 <= i < |ids| ==> PlainID(ids[i]) && ids[i] !in s.used)
    && (forall i, j :: 0 <= i < j < |ids| ==> ids[i] != ids[j])
  }

  type Outcome = Result<seq<Event>, Error>

  function DecideAdd(s: Store, newID: string, request: AuthRequest): Outcome {
    var id := ID_PREFIX_V2 + newID;
    if !Request.Load(s.log, id).state.RequestUnspecified? then Err(PreconditionFailed("COMMAND-Sf3gt"))
    else Ok([AuthRequestEvent(id, s.now, RequestAdded(request))])
  }

  /** No login session is stored under the empty id. */
  predicate LoginFound(sessionID: string, login: Login) {
    sessionID != "" && !login.state.LoginUnspecified?
  }

  function DecideLink(s: Store, id: string, sessionID: string, login: Login, permission: Result<(), Error>,
                      checkLoginClient: bool, caller: string): Outcome
  {
    var v := Request.Load(s.log, id);
    if v.state.RequestUnspecified? then Err(NotFound("COMMAND-jae5P"))
    else if !v.state.RequestStateAdded? then Err(PreconditionFailed("COMMAND-Sx208nt"))
    else if checkLoginClient && caller != v.request.loginClient then Err(PermissionDenied("COMMAND-rai9Y"))
    else if !LoginFound(sessionID, login) then Err(NotFound("COMMAND-x0099887"))
    else if permission.Err? then Err(permission.error)
    else Ok([AuthRequestEvent(id, s.now, SessionLinked(sessionID, login.userID, login.authTime, login.authMethods))])
  }

  function DecideFail(s: Store, id: string, reason: int): Outcome {
    if !Request.Load(s.log, id).state.RequestStateAdded? then Err(PreconditionFailed("COMMAND-Sx202nt"))
    else Ok([AuthRequestEvent(id, s.now, RequestFailed(reason))])
  }

  function DecideAddCode(s: Store, id: string, code: string): Outcome {
    if code == "" then Err(PreconditionFailed("COMMAND-Ht52d"))
    else
      var v := Request.Load(s.log, id);
      if !v.state.RequestStateAdded? || v.sessionID == "" then Err(PreconditionFailed("COMMAND-SFwd2"))
      else Ok([AuthRequestEvent(id, s.now, CodeAdded)])
  }

  function DecideExchange(s: Store, code: string): Outcome {
    if code == "" then Err(PreconditionFailed("COMMAND-Sf3g2"))
    else if !Request.Load(s.log, code).state.RequestStateCodeAdded? then Err(PreconditionFailed("COMMAND-SFwd2"))
    else Ok([AuthRequestEvent(code, s.now, CodeExchanged)])
  }

  /** The grant of a session minted for an auth request. */
  function GrantFor(v: Request.View, login: Login): Grant {
    Grant(login.userID, v.sessionID, v.request.clientID, v.request.audience, v.request.scope,
          login.authMethods, login.authTime)
  }

  /** The one batch that creates a session and closes its auth request. */
  function MintBatch(v: Request.View, requestID: string, login: Login, lifetimes: Lifetimes, now: Time,
                     newSession: string, newAccess: string, newRefresh: Option<string>): seq<Event>
  {
    var sid := ID_PREFIX_V2 + newSession;
    [OIDCSessionEvent(sid, now, SessionAdded(GrantFor(v, login))),
     OIDCSessionEvent(sid, now, AccessTokenAdded(ACCESS_TOKEN_PREFIX + newAccess, v.request.scope, lifetimes.access))]
    + (if newRefresh.None? then []
       else [OIDCSessionEvent(sid, now, RefreshTokenAdded(REFRESH_TOKEN_PREFIX + newRefresh.value, lifetimes.refresh, lifetimes.refreshIdle))])
    + [AuthRequestEvent(requestID, now, Succeeded)]
  }

  function DecideMint(cfg: Config, s: Store, requestID: string, login: Login, ownerKnown: bool, settings: Lifetimes,
                      newSession: string, newAccess: string, newRefresh: Option<string>): Outcome
  {
    var v := Request.Load(s.log, requestID);
    var authenticated := Request.CheckAuthenticated(v);
    if authenticated.Err? then Err(authenticated.error)
    else if !login.state.LoginActive? then Err(PreconditionFailed("OIDCS-sjkl3"))
    else if !ownerKnown then Err(Internal("OIDCS-sferh"))
    else Ok(MintBatch(v, requestID, login, TokenLifetimes(cfg.defaults, settings), s.now, newSession, newAccess, newRefresh))
  }

  /** Only the refresh token id inside the token is used; the session is the one the caller names. */
  function DecryptRefreshToken(cfg: Config, token: string): Result<string, Error> {
    match cfg.cipher.decrypt(token)
    case Err(e) => Err(e)
    case Ok(text) =>
      match ParseRefreshToken(text)
      case Err(e) => Err(e)
      case Ok(ids) => Ok(ids.refreshTokenID)
  }

  /** Whether the session loads with the token's refresh token id as its current one, and in time. */
  function CheckedForUpdate(cfg: Config, s: Store, sid: string, token: string): Result<(), Error> {
    var decrypted := DecryptRefreshToken(cfg, token);
    if decrypted.Err? then Err(decrypted.error)
    else Session.CheckRefreshToken(Session.Load(s.log, sid), decrypted.value, s.now)
  }

  function RefreshBatch(now: Time, sid: string, scope: seq<string>, lifetimes: Lifetimes, newAccess: string, renewed: string): seq<Event> {
    [OIDCSessionEvent(sid, now, AccessTokenAdded(ACCESS_TOKEN_PREFIX + newAccess, scope, lifetimes.access)),
     OIDCSessionEvent(sid, now, RefreshTokenRenewed(REFRESH_TOKEN_PREFIX + renewed, lifetimes.refreshIdle))]
  }

  function DecideRefresh(cfg: Config, s: Store, sid: string, token: string, scope: seq<string>, settings: Lifetimes,
                         newAccess: string, renewed: string): Outcome
  {
    var checked := CheckedForUpdate(cfg, s, sid, token);
    if checked.Err? then Err(checked.error)
    else Ok(RefreshBatch(s.now, sid, scope, TokenLifetimes(cfg.defaults, settings), newAccess, renewed))
  }

  function RevocationEvents(ids: TokenIDs, v: Session.View, now: Time): seq<Event> {
    if ids.refreshTokenID != "" then
      if Session.CheckRefreshToken(v, ids.refreshTokenID, now).Err? then []
      else [OIDCSessionEvent(ids.oidcSessionID, now, RefreshTokenRevoked)]
    else
      if Session.CheckAccessToken(v, ids.accessTokenID, now).Err? then []
      else [OIDCSessionEvent(ids.oidcSessionID, now, AccessTokenRevoked)]
  }

  /** A token that is malformed or not acceptable is ignored without an error; a foreign client is not. */
  function DecideRevoke(s: Store, token: string, clientID: string): Outcome {
    var parsed := TokenIDsFromToken(token);
    if parsed.Err? then Ok([])
    else
      var ids := parsed.value;
      var v := Session.Load(s.log, ids.oidcSessionID);
      var client := Session.ClientChecked(v, clientID);
      if client.Err? then Err(client.error)
      else Ok(RevocationEvents(ids, v, s.now))
  }

  function Decide(cfg: Config, s: Store, c: Command): Outcome {
    match c
    case AddAuthRequest(newID, request) => DecideAdd(s, newID, request)
    case LinkSession(id, sessionID, login, permission, check, caller) => DecideLink(s, id, sessionID, login, permission, check, caller)
    case FailAuthRequest(id, reason) => DecideFail(s, id, reason)
    case AddCode(id, code) => DecideAddCode(s, id, code)
    case ExchangeCode(code) => DecideExchange(s, code)
    case Mint(id, login, ownerKnown, settings, session, access, refresh) =>
      DecideMint(cfg, s, id, login, ownerKnown, settings, session, access, refresh)
    case Refresh(sid, token, scope, settings, access, renewed) =>
      DecideRefresh(cfg, s, sid, token, scope, settings, access, renewed)
    case Revoke(token, clientID) => DecideRevoke(s, token, clientID)
    case Wait(_) => Ok([])
  }

  function Pushed(outcome: Outcome): seq<Event> {
    if outcome.Ok? then outcome.value else []
  }

  function Next(cfg: Config, s: Store, c: Command): Store {
    Store(
      s.log + Pushed(Decide(cfg, s, c)),
      s.now + (if c.Wait? then c.duration else 0),
      s.used + set id <- Generated(c))
  }

  function Exec(cfg: Config, s: Store, cs: seq<Command>): Store {
    if cs == [] then s else Next(cfg, Exec(cfg, s, cs[..|cs| - 1]), cs[|cs| - 1])
  }

  ghost predicate Admissible(cfg: Config, s: Store, cs: seq<Command>) {
    cs == [] ||
    (Admissible(cfg, s, cs[..|cs| - 1]) && Fresh(Exec(cfg, s, cs[..|cs| - 1]), cs[|cs| - 1]))
  }

  function Start(now: Time): Store {
    Store([], now, {})
  }

  ghost predicate Reaches(cfg: Config, start: Time, cs: seq<Command>, s: Store) {
    Admissible(cfg, Start(start), cs) && Exec(cfg, Start(start), cs) == s
  }

  /** Some run from an empty log leads to the store. */
  ghost predicate Reachable(cfg: Config, s: Store) {
    exists start, cs :: Reaches(cfg, start, cs, s)
  }

  lemma ExecSnoc(cfg: Config, s: Store, cs: seq<Command>, c: Command)
    ensures Exec(cfg, s, cs + [c]) == Next(cfg, Exec(cfg, s, cs), c)
    ensures Admissible(cfg, s, cs + [c]) <==> Admissible(cfg, s, cs) && Fresh(Exec(cfg, s, cs), c)
  {
    assert (cs + [c])[..|cs|] == cs;
  }

  lemma ReachableNext(cfg: Config, s: Store, c: Command)
    requires Reachable(cfg, s) && Fresh(s, c)
    ensures Reachable(cfg, Next(cfg, s, c))
  {
    var start, cs :| Reaches(cfg, start, cs, s);
    ExecSnoc(cfg, Start(start), cs, c);
    assert Reaches(cfg, start, cs + [c], Next(cfg, s, c));
  }

  lemma Waited(cfg: Config, s: Store, d: nat)
    ensures Next(cfg, s, Wait(d)) == Store(s.log, s.now + d, s.used) && Fresh(s, Wait(d))
  {
    assert s.log + [] == s.log;
  }

  /** Running on from where a run ended is one longer run. */
  lemma {:induction false} ExecConcat(cfg: Config, s: Store, cs: seq<Command>, more: seq<Command>)
    ensures Exec(cfg, s, cs + more) == Exec(cfg, Exec(cfg, s, cs), more)
    ensures Admissible(cfg, s, cs) && Admissible(cfg, Exec(cfg, s, cs), more) ==> Admissible(cfg, s, cs + more)
  {
    if more == [] {
      assert cs + more == cs;
    } else {
      ExecConcat(cfg, s, cs, more[..|more| - 1]);
      assert (cs + more)[..|cs + more| - 1] == cs + more[..|more| - 1];
    }
  }

  /** The log is append-only. */
  lemma {:induction false} LogGrows(cfg: Config, s: Store, cs: seq<Command>)
    ensures s.log <= Exec(cfg, s, cs).log
  {
    if cs != [] {
      LogGrows(cfg, s, cs[..|cs| - 1]);
    }
  }
}
