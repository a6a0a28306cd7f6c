/** The commands as they are written: load a model, decide, push, and reduce the pushed events. */
module OIDCCommands {
  import opened Wrappers
  import opened EventLog
  import opened Tokens
  import opened OIDCFlow
  import Request = AuthRequestModel
  import Session = OIDCSessionModel

  datatype IssuedTokens = IssuedTokens(accessToken: string, refreshToken: string, expiration: Time)

  /** Collects the events of one batch, and the token ids created on the way. */
  class OIDCSessionEvents {
    const oidcSession: Session.OIDCSessionWriteModel
    const lifetimes: Lifetimes
    const now: Time
    var events: seq<Event>
    var accessTokenID: string
    var refreshToken: string

    constructor (oidcSession: Session.OIDCSessionWriteModel, lifetimes: Lifetimes, now: Time)
      ensures this.oidcSession == oidcSession && this.lifetimes == lifetimes && this.now == now
      ensures events == [] && accessTokenID == "" && refreshToken == ""
    {
      this.oidcSession, this.lifetimes, this.now := oidcSession, lifetimes, now;
      events, accessTokenID, refreshToken := [], "", "";
    }

    method AddSession(request: Request.View, login: Login)
      modifies `events
      ensures events == old(events) + [OIDCSessionEvent(oidcSession.aggregateID, now, SessionAdded(GrantFor(request, login)))]
    {
      var grant := Grant(login.userID, request.sessionID, request.request.clientID, request.request.audience,
                         request.request.scope, login.authMethods, login.authTime);
      events := events + [OIDCSessionEvent(oidcSession.aggregateID, now, SessionAdded(grant))];
    }

    method SetAuthRequestSuccessful(requestID: string)
      modifies `events
      ensures events == old(events) + [AuthRequestEvent(requestID, now, Succeeded)]
    {
      events := events + [AuthRequestEvent(requestID, now, Succeeded)];
    }

    method AddAccessToken(generated: string, scope: seq<string>)
      modifies `events, `accessTokenID
      ensures accessTokenID == ACCESS_TOKEN_PREFIX + generated
      ensures events == old(events) + [OIDCSessionEvent(oidcSession.aggregateID, now, AccessTokenAdded(accessTokenID, scope, lifetimes.access))]
    {
      accessTokenID := ACCESS_TOKEN_PREFIX + generated;
      events := events + [OIDCSessionEvent(oidcSession.aggregateID, now, AccessTokenAdded(accessTokenID, scope, lifetimes.access))];
    }

    method AddRefreshToken(cfg: Config, generated: string, userID: string)
      modifies `events, `refreshToken
      ensures refreshToken == cfg.cipher.encrypt(RefreshTokenText(oidcSession.aggregateID, REFRESH_TOKEN_PREFIX + generated, userID))
      ensures events == old(events) + [OIDCSessionEvent(oidcSession.aggregateID, now,
                                         RefreshTokenAdded(REFRESH_TOKEN_PREFIX + generated, lifetimes.refresh, lifetimes.refreshIdle))]
    {
      var id := REFRESH_TOKEN_PREFIX + generated;
      refreshToken := cfg.cipher.encrypt(RefreshTokenText(oidcSession.aggregateID, id, userID));
      events := events + [OIDCSessionEvent(oidcSession.aggregateID, now, RefreshTokenAdded(id, lifetimes.refresh, lifetimes.refreshIdle))];
    }

    method RenewRefreshToken(cfg: Config, generated: string)
      modifies `events, `refreshToken
      ensures refreshToken == cfg.cipher.encrypt(
                RefreshTokenText(oidcSession.aggregateID, REFRESH_TOKEN_PREFIX + generated, oidcSession.grant.userID))
      ensures events == old(events) + [OIDCSessionEvent(oidcSession.aggregateID, now,
                                         RefreshTokenRenewed(REFRESH_TOKEN_PREFIX + generated, lifetimes.refreshIdle))]
    {
      var id := REFRESH_TOKEN_PREFIX + generated;
      refreshToken := cfg.cipher.encrypt(RefreshTokenText(oidcSession.aggregateID, id, oidcSession.grant.userID));
      events := events + [OIDCSessionEvent(oidcSession.aggregateID, now, RefreshTokenRenewed(id, lifetimes.refreshIdle))];
    }
  }

  /**
  The command side over one log. The ghost fields record the run: where it started and the
  commands so far; the real fields are always what that run leads to.
  */
  class Commands {
    const cfg: Config
    var log: seq<Event>
    var now: Time
    ghost var used: set<string>
    ghost var start: Time
    ghost var history: seq<Command>

    ghost predicate Valid()
      reads this
    {
      Admissible(cfg, Start(start), history) && Current() == Exec(cfg, Start(start), history)
    }

    ghost function Current(): Store
      reads this
    {
      Store(log, now, used)
    }

    /** Whatever is proved of reachable stores holds of every history. */
    lemma CurrentIsReachable()
      requires Valid()
      ensures Reachable(cfg, Current())
    {
      assert Reaches(cfg, start, history, Current());
    }

    constructor (cfg: Config, now: Time)
      ensures Valid() && this.cfg == cfg && Current() == Start(now) && history == []
    {
      this.cfg, this.now := cfg, now;
      log, used, start, history := [], {}, now, [];
    }

    /** Records a command whose events have been pushed. */
    ghost method Record(c: Command, before: Store)
      requires Admissible(cfg, Start(start), history) && before == Exec(cfg, Start(start), history)
      requires Fresh(before, c)
      requires used == before.used && log == Next(cfg, before, c).log && now == Next(cfg, before, c).now
      modifies `used, `history
      ensures Valid() && history == old(history) + [c] && Current() == Next(cfg, before, c)
    {
      ghost var after, longer := Next(cfg, before, c), history + [c];
      ExecSnoc(cfg, Start(start), history, c);
      assert Reaches(cfg, start, longer, after);
      used := after.used;
      history := longer;
      assert Current() == after;
    }

    method Wait(duration: nat)
      requires Valid()
      modifies this
      ensures Valid() && history == old(history) + [OIDCFlow.Command.Wait(duration)]
      ensures Current() == Next(cfg, old(Current()), OIDCFlow.Command.Wait(duration))
    {
      ghost var before := Current();
      now := now + duration;
      assert log == before.log + [];
      Record(OIDCFlow.Command.Wait(duration), before);
    }

    method LoadRequest(id: string) returns (wm: Request.AuthRequestWriteModel)
      ensures fresh(wm) && wm.aggregateID == id && wm.events == []
      ensures wm.Fields() == Request.Load(log, id)
    {
      wm := new Request.AuthRequestWriteModel(id);
      wm.AppendAndReduce(Filter(log, AuthRequestQuery(id)));
    }

    method LoadSession(id: string) returns (wm: Session.OIDCSessionWriteModel)
      ensures fresh(wm) && wm.aggregateID == id && wm.events == []
      ensures wm.Fields() == Session.Load(log, id)
    {
      wm := new Session.OIDCSessionWriteModel(id);
      wm.AppendAndReduce(Filter(log, OIDCSessionQuery(id)));
    }

    /** Pushes one event of a loaded auth request and reduces it: the model is then a fresh load. */
    method PushAppendAndReduce(wm: Request.AuthRequestWriteModel, change: AuthRequestChange)
      requires wm.events == [] && wm.Fields() == Request.Load(log, wm.aggregateID)
      modifies `log, wm
      ensures log == old(log) + [AuthRequestEvent(wm.aggregateID, now, change)]
      ensures wm.Fields() == Request.Load(log, wm.aggregateID)
    {
      var pushed := [AuthRequestEvent(wm.aggregateID, now, change)];
      log := log + pushed;
      wm.AppendAndReduce(pushed);
      Request.IncrementalEqualsReload(old(log), wm.aggregateID, pushed);
    }

    method AddAuthRequest(newID: string, request: AuthRequest) returns (r: Result<Request.View, Error>)
      requires Valid() && Fresh(Current(), OIDCFlow.Command.AddAuthRequest(newID, request))
      modifies this
      ensures Valid() && history == old(history) + [OIDCFlow.Command.AddAuthRequest(newID, request)]
      ensures Current() == Next(cfg, old(Current()), OIDCFlow.Command.AddAuthRequest(newID, request))
      ensures r.Err? ==> Decide(cfg, old(Current()), OIDCFlow.Command.AddAuthRequest(newID, request)) == Err(r.error)
      ensures r.Ok? ==> |log| == |old(log)| + 1 && r.value == Request.Load(log, ID_PREFIX_V2 + newID)
    {
      ghost var before := Current();
      ghost var c := OIDCFlow.Command.AddAuthRequest(newID, request);
      var wm := LoadRequest(ID_PREFIX_V2 + newID);
      if !wm.state.RequestUnspecified? {
        r := Err(PreconditionFailed("COMMAND-Sf3gt"));
        assert log == before.log + [];
      } else {
        PushAppendAndReduce(wm, RequestAdded(request));
        r := Ok(wm.Fields());
      }
      Record(c, before);
    }

    method LinkSessionToAuthRequest(id: string, sessionID: string, login: Login, permission: Result<(), Error>,
                                    checkLoginClient: bool, caller: string) returns (r: Result<Request.View, Error>)
      requires Valid()
      modifies this
      ensures Valid() && history == old(history) + [LinkSession(id, sessionID, login, permission, checkLoginClient, caller)]
      ensures Current() == Next(cfg, old(Current()), LinkSession(id, sessionID, login, permission, checkLoginClient, caller))
      ensures r.Err? ==> DecideLink(old(Current()), id, sessionID, login, permission, checkLoginClient, caller) == Err(r.error)
      ensures r.Ok? ==> |log| == |old(log)| + 1 && r.value == Request.Load(log, id)
    {
      ghost var before := Current();
      var wm := LoadRequest(id);
      if wm.state.RequestUnspecified? {
        r := Err(NotFound("COMMAND-jae5P"));
      } else if !wm.state.RequestStateAdded? {
        r := Err(PreconditionFailed("COMMAND-Sx208nt"));
      } else if checkLoginClient && caller != wm.request.loginClient {
        r := Err(PermissionDenied("COMMAND-rai9Y"));
      } else if !LoginFound(sessionID, login) {
        r := Err(NotFound("COMMAND-x0099887"));
      } else if permission.Err? {
        r := Err(permission.error);
      } else {
        PushAppendAndReduce(wm, SessionLinked(sessionID, login.userID, login.authTime, login.authMethods));
        r := Ok(wm.Fields());
      }
      assert r.Err? ==> log == before.log + [];
      Record(LinkSession(id, sessionID, login, permission, checkLoginClient, caller), before);
    }

    method FailAuthRequest(id: string, reason: int) returns (r: Result<Request.View, Error>)
      requires Valid()
      modifies this
      ensures Valid() && history == old(history) + [OIDCFlow.Command.FailAuthRequest(id, reason)]
      ensures Current() == Next(cfg, old(Current()), OIDCFlow.Command.FailAuthRequest(id, reason))
      ensures r.Err? ==> DecideFail(old(Current()), id, reason) == Err(r.error)
      ensures r.Ok? ==> |log| == |old(log)| + 1 && r.value == Request.Load(log, id)
    {
      ghost var before := Current();
      var wm := LoadRequest(id);
      if !wm.state.RequestStateAdded? {
        r := Err(PreconditionFailed("COMMAND-Sx202nt"));
        assert log == before.log + [];
      } else {
        PushAppendAndReduce(wm, RequestFailed(reason));
        r := Ok(wm.Fields());
      }
      Record(OIDCFlow.Command.FailAuthRequest(id, reason), before);
    }

    method AddAuthRequestCode(id: string, code: string) returns (r: Result<(), Error>)
      requires Valid()
      modifies this
      ensures Valid() && history == old(history) + [AddCode(id, code)]
      ensures Current() == Next(cfg, old(Current()), AddCode(id, code))
      ensures r.Err? ==> DecideAddCode(old(Current()), id, code) == Err(r.error)
      ensures r.Ok? ==> |log| == |old(log)| + 1
    {
      ghost var before := Current();
      r := Ok(());
      if code == "" {
        r := Err(PreconditionFailed("COMMAND-Ht52d"));
      } else {
        var wm := LoadRequest(id);
        if !wm.state.RequestStateAdded? || wm.sessionID == "" {
          r := Err(PreconditionFailed("COMMAND-SFwd2"));
        } else {
          PushAppendAndReduce(wm, CodeAdded);
        }
      }
      assert r.Err? ==> log == before.log + [];
      Record(AddCode(id, code), before);
    }

    method ExchangeAuthCode(code: string) returns (r: Result<Request.View, Error>)
      requires Valid()
      modifies this
      ensures Valid() && history == old(history) + [ExchangeCode(code)]
      ensures Current() == Next(cfg, old(Current()), ExchangeCode(code))
      ensures r.Err? ==> DecideExchange(old(Current()), code) == Err(r.error)
      ensures r.Ok? ==> |log| == |old(log)| + 1 && r.value == Request.Load(log, code)
    {
      ghost var before := Current();
      if code == "" {
        r := Err(PreconditionFailed("COMMAND-Sf3g2"));
      } else {
        var wm := LoadRequest(code);
        if !wm.state.RequestStateCodeAdded? {
          r := Err(PreconditionFailed("COMMAND-SFwd2"));
        } else {
          PushAppendAndReduce(wm, CodeExchanged);
          r := Ok(wm.Fields());
        }
      }
      assert r.Err? ==> log == before.log + [];
      Record(ExchangeCode(code), before);
    }

    /** Pushes a batch, reduces it into the session model and returns the issued tokens. */
    method PushEvents(cmd: OIDCSessionEvents) returns (issued: IssuedTokens)
      requires cmd.oidcSession.events == []
      modifies `log, cmd.oidcSession
      ensures log == old(log) + cmd.events
      ensures cmd.oidcSession.Fields() == Session.Reduced(old(cmd.oidcSession.Fields()), cmd.events)
      ensures issued == IssuedTokens(AccessTokenText(cmd.oidcSession.aggregateID, cmd.accessTokenID), cmd.refreshToken,
                                     cmd.oidcSession.accessTokenExpiration)
    {
      log := log + cmd.events;
      cmd.oidcSession.AppendAndReduce(cmd.events);
      issued := IssuedTokens(cmd.oidcSession.aggregateID + [TOKEN_DELIMITER] + cmd.accessTokenID, cmd.refreshToken,
                             cmd.oidcSession.accessTokenExpiration);
    }

    method AddEvents(request: Request.View, requestID: string, login: Login, lifetimes: Lifetimes,
                     newSession: string, newAccess: string, newRefresh: Option<string>)
      returns (cmd: OIDCSessionEvents)
      ensures fresh(cmd) && fresh(cmd.oidcSession)
      ensures cmd.oidcSession.aggregateID == ID_PREFIX_V2 + newSession
      ensures cmd.oidcSession.events == [] && cmd.oidcSession.Fields() == Session.EMPTY
      ensures cmd.events == MintBatch(request, requestID, login, lifetimes, now, newSession, newAccess, newRefresh)
      ensures cmd.accessTokenID == ACCESS_TOKEN_PREFIX + newAccess
      ensures newRefresh.Some? ==> cmd.refreshToken == cfg.cipher.encrypt(
                RefreshTokenText(ID_PREFIX_V2 + newSession, REFRESH_TOKEN_PREFIX + newRefresh.value, login.userID))
    {
      var session := new Session.OIDCSessionWriteModel(ID_PREFIX_V2 + newSession);
      cmd := new OIDCSessionEvents(session, lifetimes, now);
      cmd.AddSession(request, login);
      cmd.AddAccessToken(newAccess, request.request.scope);
      if newRefresh.Some? {
        cmd.AddRefreshToken(cfg, newRefresh.value, login.userID);
      }
      cmd.SetAuthRequestSuccessful(requestID);
    }

    method UpdateEvents(session: Session.OIDCSessionWriteModel, scope: seq<string>, lifetimes: Lifetimes,
                        newAccess: string, renewed: string)
      returns (cmd: OIDCSessionEvents)
      ensures fresh(cmd) && cmd.oidcSession == session
      ensures cmd.events == RefreshBatch(now, session.aggregateID, scope, lifetimes, newAccess, renewed)
      ensures cmd.accessTokenID == ACCESS_TOKEN_PREFIX + newAccess
      ensures cmd.refreshToken == cfg.cipher.encrypt(
                RefreshTokenText(session.aggregateID, REFRESH_TOKEN_PREFIX + renewed, session.grant.userID))
    {
      cmd := new OIDCSessionEvents(session, lifetimes, now);
      cmd.AddAccessToken(newAccess, scope);
      cmd.RenewRefreshToken(cfg, renewed);
    }

    /** AddOIDCSessionAccessToken, and with `newRefresh` AddOIDCSessionRefreshAndAccessToken. */
    method AddOIDCSession(requestID: string, login: Login, ownerKnown: bool, settings: Lifetimes,
                          newSession: string, newAccess: string, newRefresh: Option<string>)
      returns (r: Result<IssuedTokens, Error>)
      requires Valid() && Fresh(Current(), Mint(requestID, login, ownerKnown, settings, newSession, newAccess, newRefresh))
      modifies this
      ensures Valid() && history == old(history) + [Mint(requestID, login, ownerKnown, settings, newSession, newAccess, newRefresh)]
      ensures Current() == Next(cfg, old(Current()), Mint(requestID, login, ownerKnown, settings, newSession, newAccess, newRefresh))
      ensures r.Err? ==> DecideMint(cfg, old(Current()), requestID, login, ownerKnown, settings, newSession, newAccess, newRefresh) == Err(r.error)
      ensures r.Ok? ==>
                && |log| > |old(log)|
                && r.value.accessToken == AccessTokenText(ID_PREFIX_V2 + newSession, ACCESS_TOKEN_PREFIX + newAccess)
                && r.value.expiration == now + TokenLifetimes(cfg.defaults, settings).access
                && (newRefresh.Some? ==> r.value.refreshToken == cfg.cipher.encrypt(
                      RefreshTokenText(ID_PREFIX_V2 + newSession, REFRESH_TOKEN_PREFIX + newRefresh.value, login.userID)))
    {
      ghost var before := Current();
      ghost var c := Mint(requestID, login, ownerKnown, settings, newSession, newAccess, newRefresh);
      var request := LoadRequest(requestID);
      var authenticated := Request.CheckAuthenticated(request.Fields());
      if authenticated.Err? {
        r := Err(authenticated.error);
      } else if !login.state.LoginActive? {
        r := Err(PreconditionFailed("OIDCS-sjkl3"));
      } else if !ownerKnown {
        r := Err(Internal("OIDCS-sferh"));
      } else {
        var lifetimes := TokenLifetimes(cfg.defaults, settings);
        var cmd := AddEvents(request.Fields(), requestID, login, lifetimes, newSession, newAccess, newRefresh);
        MintExpiration(request.Fields(), requestID, login, lifetimes, now, newSession, newAccess, newRefresh);
        var issued := PushEvents(cmd);
        r := Ok(issued);
      }
      assert r.Err? ==> log == before.log + [];
      Record(c, before);
    }

    /** The session to be refreshed, if the token decrypts to its current refresh token and that has not expired. */
    method LoadForUpdate(sid: string, token: string) returns (r: Result<Session.OIDCSessionWriteModel, Error>)
      ensures r.Err? ==> CheckedForUpdate(cfg, Current(), sid, token) == Err(r.error)
      ensures r.Ok? ==>
                && CheckedForUpdate(cfg, Current(), sid, token).Ok?
                && fresh(r.value) && r.value.aggregateID == sid && r.value.events == []
                && r.value.Fields() == Session.Load(log, sid)
    {
      var decrypted := DecryptRefreshToken(cfg, token);
      if decrypted.Err? {
        return Err(decrypted.error);
      }
      var session := LoadSession(sid);
      var checked := Session.CheckRefreshToken(session.Fields(), decrypted.value, now);
      if checked.Err? {
        return Err(checked.error);
      }
      return Ok(session);
    }

    /** Pushes the new tokens of a loaded session. */
    method PushRefresh(session: Session.OIDCSessionWriteModel, scope: seq<string>, lifetimes: Lifetimes,
                       newAccess: string, renewed: string)
      returns (issued: IssuedTokens)
      requires session.events == [] && session.Fields() == Session.Load(log, session.aggregateID)
      modifies `log, session
      ensures log == old(log) + RefreshBatch(now, session.aggregateID, scope, lifetimes, newAccess, renewed)
      ensures issued.accessToken == AccessTokenText(session.aggregateID, ACCESS_TOKEN_PREFIX + newAccess)
      ensures issued.expiration == now + lifetimes.access
      ensures issued.expiration == Session.Load(log, session.aggregateID).accessTokenExpiration
      ensures issued.refreshToken == cfg.cipher.encrypt(
                RefreshTokenText(session.aggregateID, REFRESH_TOKEN_PREFIX + renewed, Session.Load(log, session.aggregateID).grant.userID))
    {
      var cmd := UpdateEvents(session, scope, lifetimes, newAccess, renewed);
      Session.IncrementalEqualsReload(log, session.aggregateID, cmd.events);
      RefreshExpiration(session.Fields(), cmd.events);
      issued := PushEvents(cmd);
    }

    method ExchangeOIDCSessionRefreshAndAccessToken(sid: string, token: string, scope: seq<string>, settings: Lifetimes,
                                                    newAccess: string, renewed: string)
      returns (r: Result<IssuedTokens, Error>)
      requires Valid() && Fresh(Current(), Refresh(sid, token, scope, settings, newAccess, renewed))
      modifies this
      ensures Valid() && history == old(history) + [Refresh(sid, token, scope, settings, newAccess, renewed)]
      ensures Current() == Next(cfg, old(Current()), Refresh(sid, token, scope, settings, newAccess, renewed))
      ensures r.Err? ==> DecideRefresh(cfg, old(Current()), sid, token, scope, settings, newAccess, renewed) == Err(r.error)
      ensures r.Ok? ==>
                && |log| == |old(log)| + 2
                && r.value.accessToken == AccessTokenText(sid, ACCESS_TOKEN_PREFIX + newAccess)
                && r.value.expiration == now + TokenLifetimes(cfg.defaults, settings).access
                && r.value.expiration == Session.Load(log, sid).accessTokenExpiration
                && r.value.refreshToken == cfg.cipher.encrypt(
                     RefreshTokenText(sid, REFRESH_TOKEN_PREFIX + renewed, Session.Load(log, sid).grant.userID))
    {
      ghost var before := Current();
      ghost var c := Refresh(sid, token, scope, settings, newAccess, renewed);
      var loaded := LoadForUpdate(sid, token);
      RefreshDecided(cfg, before, c);
      if loaded.Err? {
        r := Err(loaded.error);
        assert log == before.log + [];
      } else {
        var issued := PushRefresh(loaded.value, scope, TokenLifetimes(cfg.defaults, settings), newAccess, renewed);
        r := Ok(issued);
      }
      Record(c, before);
    }

    /** Starts a refresh grant: reads the session a clear-text refresh token belongs to. */
    method OIDCSessionByRefreshToken(token: string) returns (r: Result<Session.View, Error>)
      ensures r.Ok? <==> ParseRefreshToken(token).Ok? &&
                         var ids := ParseRefreshToken(token).value;
                         Session.CheckRefreshToken(Session.Load(log, ids.oidcSessionID), ids.refreshTokenID, now).Ok?
      ensures r.Ok? ==> r.value == Session.Load(log, ParseRefreshToken(token).value.oidcSessionID)
      ensures r.Err? ==>
                r.error ==
                if ParseRefreshToken(token).Err? then ParseRefreshToken(token).error
                else
                  var ids := ParseRefreshToken(token).value;
                  Session.CheckRefreshToken(Session.Load(log, ids.oidcSessionID), ids.refreshTokenID, now).error
    {
      var parsed := ParseRefreshToken(token);
      if parsed.Err? {
        return Err(parsed.error);
      }
      var session := LoadSession(parsed.value.oidcSessionID);
      var checked := Session.CheckRefreshToken(session.Fields(), parsed.value.refreshTokenID, now);
      if checked.Err? {
        return Err(checked.error);
      }
      return Ok(session.Fields());
    }

    /** The body of a revocation once the token is parsed; nothing is pushed for a token that is not acceptable. */
    method RevokeLoaded(ids: TokenIDs, session: Session.OIDCSessionWriteModel, clientID: string)
      returns (r: Result<(), Error>, pushed: seq<Event>)
      requires session.aggregateID == ids.oidcSessionID && session.events == []
      ensures r == Session.ClientChecked(session.Fields(), clientID)
      ensures r.Err? ==> pushed == []
      ensures r.Ok? ==> pushed == RevocationEvents(ids, session.Fields(), now)
    {
      pushed := [];
      r := session.CheckClient(clientID);
      if r.Err? {
        return;
      }
      if ids.refreshTokenID != "" {
        var checked := Session.CheckRefreshToken(session.Fields(), ids.refreshTokenID, now);
        if checked.Ok? {
          pushed := [OIDCSessionEvent(session.aggregateID, now, RefreshTokenRevoked)];
        }
      } else {
        var checked := Session.CheckAccessToken(session.Fields(), ids.accessTokenID, now);
        if checked.Ok? {
          pushed := [OIDCSessionEvent(session.aggregateID, now, AccessTokenRevoked)];
        }
      }
    }

    /** What a revocation pushes, or the error of the audience check. */
    method Revocation(token: string, clientID: string) returns (decided: Outcome)
      ensures decided == DecideRevoke(Current(), token, clientID)
    {
      var parsed := TokenIDsFromToken(token);
      if parsed.Err? {
        return Ok([]);
      }
      var session := LoadSession(parsed.value.oidcSessionID);
      var client, pushed := RevokeLoaded(parsed.value, session, clientID);
      if client.Err? {
        return Err(client.error);
      }
      session.AppendAndReduce(pushed);
      return Ok(pushed);
    }

    method RevokeOIDCSessionToken(token: string, clientID: string) returns (r: Result<(), Error>)
      requires Valid()
      modifies this
      ensures Valid() && history == old(history) + [Revoke(token, clientID)]
      ensures Current() == Next(cfg, old(Current()), Revoke(token, clientID))
      ensures r.Err? <==> DecideRevoke(old(Current()), token, clientID).Err?
      ensures r.Err? ==> DecideRevoke(old(Current()), token, clientID) == Err(r.error)
    {
      ghost var before := Current();
      var decided := Revocation(token, clientID);
      r := if decided.Ok? then Ok(()) else Err(decided.error);
      log := log + Pushed(decided);
      RevokeStep(cfg, before, token, clientID);
      Record(Revoke(token, clientID), before);
    }
  }

  lemma RefreshDecided(cfg: Config, s: Store, c: Command)
    requires c.Refresh?
    ensures var checked := CheckedForUpdate(cfg, s, c.oidcSessionID, c.token);
            && Decide(cfg, s, c) == DecideRefresh(cfg, s, c.oidcSessionID, c.token, c.scope, c.settings, c.newAccess, c.renewed)
            && Decide(cfg, s, c) ==
               if checked.Err? then Err(checked.error)
               else Ok(RefreshBatch(s.now, c.oidcSessionID, c.scope, TokenLifetimes(cfg.defaults, c.settings), c.newAccess, c.renewed))
  {
  }

  lemma RevokeStep(cfg: Config, s: Store, token: string, clientID: string)
    ensures Fresh(s, Revoke(token, clientID))
    ensures Next(cfg, s, Revoke(token, clientID)).log == s.log + Pushed(DecideRevoke(s, token, clientID))
  {
  }

  lemma RefreshExpiration(v: Session.View, es: seq<Event>)
    requires |es| == 2 && es[0].OIDCSessionEvent? && es[0].session.AccessTokenAdded?
    requires es[1].OIDCSessionEvent? && es[1].session.RefreshTokenRenewed?
    ensures Session.Reduced(v, es).accessTokenExpiration == es[0].created + es[0].session.lifetime
    ensures Session.Reduced(v, es).grant == v.grant
  {
    Session.ReducedSnoc(v, [], es[0]);
    Session.ReducedSnoc(v, [es[0]], es[1]);
    assert [] + [es[0]] == [es[0]] && [es[0]] + [es[1]] == es;
  }

  lemma MintExpiration(v: Request.View, requestID: string, login: Login, lifetimes: Lifetimes, now: Time,
                       newSession: string, newAccess: string, newRefresh: Option<string>)
    ensures Session.Reduced(Session.EMPTY, MintBatch(v, requestID, login, lifetimes, now, newSession, newAccess, newRefresh)).accessTokenExpiration
         == now + lifetimes.access
  {
    var es := MintBatch(v, requestID, login, lifetimes, now, newSession, newAccess, newRefresh);
    assert es == es[..2] + (if newRefresh.None? then [] else [es[2]]) + [es[|es| - 1]];
    Session.ReducedSnoc(Session.EMPTY, es[..1], es[1]);
    assert es[..1] + [es[1]] == es[..2];
    if newRefresh.Some? {
      Session.ReducedSnoc(Session.EMPTY, es[..2], es[2]);
      assert es[..2] + [es[2]] == es[..3];
    }
    Session.ReducedSnoc(Session.EMPTY, es[..|es| - 1], es[|es| - 1]);
    assert es[..|es| - 1] + [es[|es| - 1]] == es;
  }
}
