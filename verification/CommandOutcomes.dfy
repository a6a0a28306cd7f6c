/** The exact outcome of each command of the OIDC flow after any run, in terms of the log and the command alone. */
module CommandOutcomes {
  import opened Wrappers
  import opened EventLog
  import opened Tokens
  import opened OIDCFlow
  import opened AuthRequestRuns
  import Runs = OIDCSessionRuns
  import Rotation = RefreshRotation
  import Request = AuthRequestModel
  import Session = OIDCSessionModel

  // ---------------------------------------------------------------- what the log of an auth request says

  function LastLink(w: seq<Event>): (e: Option<Event>)
    ensures e.Some? ==> IsLink(e.value)
  {
    if w == [] then None else if IsLink(w[|w| - 1]) then Some(w[|w| - 1]) else LastLink(w[..|w| - 1])
  }

  /** The model has what the last link named, or nothing. */
  predicate LinkedAs(v: Request.View, link: Option<Event>) {
    if link.None? then v.sessionID == "" && v.userID == "" && v.authTime == 0 && v.authMethods == []
    else
      IsLink(link.value) &&
      var l := link.value.request;
      v.sessionID == l.sessionID && v.userID == l.userID && v.authTime == l.authTime && v.authMethods == l.authMethods
  }

  /** On every log, the login session, user, time and methods of the model are those of the last link. */
  lemma {:induction false} LinkFields(w: seq<Event>)
    ensures LinkedAs(Request.Reduced(Request.EMPTY, w), LastLink(w))
  {
    if w != [] {
      LinkFields(w[..|w| - 1]);
    }
  }

  /** Added and perhaps linked, and nothing else. */
  predicate IsOpen(w: seq<Event>) {
    w != [] && IsAdded(w[0]) && forall i :: 1 <= i < |w| ==> IsLink(w[i])
  }

  predicate HasCode(w: seq<Event>) {
    w != [] && IsCodeAdded(w[|w| - 1])
  }

  predicate IsExchanged(w: seq<Event>) {
    w != [] && IsCodeExchanged(w[|w| - 1])
  }

  predicate IsLinked(w: seq<Event>) {
    LastLink(w).Some? && LastLink(w).value.request.sessionID != ""
  }

  /** Linked, and ready for tokens: with a code that was exchanged for the code type, as added for an ID token type. */
  predicate IsAuthenticated(w: seq<Event>) {
    && w != [] && IsAdded(w[0]) && IsLinked(w)
    && match w[0].request.request.responseType
       case Code => IsExchanged(w)
       case IDToken => IsOpen(w)
       case IDTokenToken => IsOpen(w)
       case UnknownResponseType(_) => false
  }

  lemma RequestOfWord(w: seq<Event>)
    requires IsWord(w)
    ensures w != [] ==> IsAdded(w[0]) && Request.Reduced(Request.EMPTY, w).request == w[0].request.request
    ensures var state := Request.Reduced(Request.EMPTY, w).state;
            && (state.RequestUnspecified? <==> w == [])
            && (state.RequestStateAdded? <==> IsOpen(w))
            && (state.RequestStateCodeAdded? <==> HasCode(w))
            && (state.RequestStateCodeExchanged? <==> IsExchanged(w))
  {
    if w != [] {
      var k: nat :| IsWordAt(w, k);
      WordState(w, k);
      EndingState(w, k);
    }
  }

  lemma LoadedRequest(cfg: Config, s: Store, id: string)
    requires Reachable(cfg, s)
    ensures var w, v := RequestLog(s.log, id), Request.Load(s.log, id);
            && IsWord(w) && LinkedAs(v, LastLink(w))
            && (w != [] ==> IsAdded(w[0]) && v.request == w[0].request.request)
            && (v.state.RequestUnspecified? <==> w == [])
            && (v.state.RequestStateAdded? <==> IsOpen(w))
            && (v.state.RequestStateCodeAdded? <==> HasCode(w))
            && (v.state.RequestStateCodeExchanged? <==> IsExchanged(w))
  {
    var start, cs :| Reaches(cfg, start, cs, s);
    RequestLogsAreWords(cfg, Start(start), cs, id);
    RequestOfWord(RequestLog(s.log, id));
    LinkFields(RequestLog(s.log, id));
  }

  // ---------------------------------------------------------------- the commands of auth requests

  /** An auth request is added as it is given, unless its id has been used. */
  lemma AddOutcome(cfg: Config, s: Store, newID: string, request: AuthRequest)
    requires Reachable(cfg, s)
    ensures var id := ID_PREFIX_V2 + newID;
            Decide(cfg, s, AddAuthRequest(newID, request)) ==
            if RequestLog(s.log, id) == [] then Ok([AuthRequestEvent(id, s.now, RequestAdded(request))])
            else Err(PreconditionFailed("COMMAND-Sf3gt"))
  {
    LoadedRequest(cfg, s, ID_PREFIX_V2 + newID);
  }

  lemma LinkOutcome(cfg: Config, s: Store, c: Command)
    requires Reachable(cfg, s) && c.LinkSession?
    ensures var w := RequestLog(s.log, c.requestID);
            Decide(cfg, s, c) ==
            if w == [] then Err(NotFound("COMMAND-jae5P"))
            else if !IsOpen(w) then Err(PreconditionFailed("COMMAND-Sx208nt"))
            else if c.checkLoginClient && c.caller != w[0].request.request.loginClient then Err(PermissionDenied("COMMAND-rai9Y"))
            else if c.sessionID == "" || c.login.state.LoginUnspecified? then Err(NotFound("COMMAND-x0099887"))
            else if c.permission.Err? then Err(c.permission.error)
            else Ok([AuthRequestEvent(c.requestID, s.now,
                                      SessionLinked(c.sessionID, c.login.userID, c.login.authTime, c.login.authMethods))])
  {
    LoadedRequest(cfg, s, c.requestID);
  }

  lemma FailOutcome(cfg: Config, s: Store, id: string, reason: int)
    requires Reachable(cfg, s)
    ensures Decide(cfg, s, FailAuthRequest(id, reason)) ==
            if IsOpen(RequestLog(s.log, id)) then Ok([AuthRequestEvent(id, s.now, RequestFailed(reason))])
            else Err(PreconditionFailed("COMMAND-Sx202nt"))
  {
    LoadedRequest(cfg, s, id);
  }

  lemma AddCodeOutcome(cfg: Config, s: Store, id: string, code: string)
    requires Reachable(cfg, s)
    ensures var w := RequestLog(s.log, id);
            Decide(cfg, s, AddCode(id, code)) ==
            if code == "" then Err(PreconditionFailed("COMMAND-Ht52d"))
            else if IsOpen(w) && IsLinked(w) then Ok([AuthRequestEvent(id, s.now, CodeAdded)])
            else Err(PreconditionFailed("COMMAND-SFwd2"))
  {
    LoadedRequest(cfg, s, id);
  }

  lemma ExchangeOutcome(cfg: Config, s: Store, code: string)
    requires Reachable(cfg, s)
    ensures Decide(cfg, s, ExchangeCode(code)) ==
            if code == "" then Err(PreconditionFailed("COMMAND-Sf3g2"))
            else if HasCode(RequestLog(s.log, code)) then Ok([AuthRequestEvent(code, s.now, CodeExchanged)])
            else Err(PreconditionFailed("COMMAND-SFwd2"))
  {
    LoadedRequest(cfg, s, code);
  }

  // ---------------------------------------------------------------- minting

  /** What an instance grants: its setting if that is positive, the default otherwise. */
  function Effective(setting: Duration, default_: Duration): Duration {
    if setting > 0 then setting else default_
  }

  /** The events of a mint: the grant of the request and its last link, and the tokens with the effective lifetimes. */
  function EventsOfMint(cfg: Config, w: seq<Event>, c: Command, now: Time): seq<Event>
    requires c.Mint? && IsAuthenticated(w)
  {
    var sid, request, link := ID_PREFIX_V2 + c.newSession, w[0].request.request, LastLink(w).value.request;
    [OIDCSessionEvent(sid, now, SessionAdded(Grant(c.login.userID, link.sessionID, request.clientID, request.audience, request.scope,
                                                   c.login.authMethods, c.login.authTime))),
     OIDCSessionEvent(sid, now, AccessTokenAdded(ACCESS_TOKEN_PREFIX + c.newAccess, request.scope,
                                                 Effective(c.settings.access, cfg.defaults.access)))]
    + (if c.newRefresh.None? then []
       else [OIDCSessionEvent(sid, now, RefreshTokenAdded(REFRESH_TOKEN_PREFIX + c.newRefresh.value,
                                                          Effective(c.settings.refresh, cfg.defaults.refresh),
                                                          Effective(c.settings.refreshIdle, cfg.defaults.refreshIdle)))])
    + [AuthRequestEvent(c.requestID, now, Succeeded)]
  }

  lemma AuthenticatedRequest(cfg: Config, s: Store, id: string)
    requires Reachable(cfg, s)
    ensures var w := RequestLog(s.log, id);
            Request.CheckAuthenticated(Request.Load(s.log, id)) ==
            if !IsLinked(w) then Err(PreconditionFailed("AUTHR-SF2r2"))
            else if !IsAuthenticated(w) then Err(PreconditionFailed("AUTHR-sajk3"))
            else Ok(())
  {
    LoadedRequest(cfg, s, id);
    var w := RequestLog(s.log, id);
    if w == [] {
      assert LastLink(w).None?;
    }
  }

  /** Tokens are minted exactly for an authenticated request, with an active login session and a known owner. */
  lemma MintOutcome(cfg: Config, s: Store, c: Command)
    requires Reachable(cfg, s) && c.Mint?
    ensures var w := RequestLog(s.log, c.requestID);
            Decide(cfg, s, c) ==
            if !IsLinked(w) then Err(PreconditionFailed("AUTHR-SF2r2"))
            else if !IsAuthenticated(w) then Err(PreconditionFailed("AUTHR-sajk3"))
            else if !c.login.state.LoginActive? then Err(PreconditionFailed("OIDCS-sjkl3"))
            else if !c.ownerKnown then Err(Internal("OIDCS-sferh"))
            else Ok(EventsOfMint(cfg, w, c, s.now))
  {
    var w := RequestLog(s.log, c.requestID);
    AuthenticatedRequest(cfg, s, c.requestID);
    MintDecided(cfg, s, c);
    if IsAuthenticated(w) {
      LoadedRequest(cfg, s, c.requestID);
      EventsOfBatch(cfg, s, w, c);
    }
  }

  /** The tests of a mint, in terms of the loaded request. */
  lemma MintDecided(cfg: Config, s: Store, c: Command)
    requires c.Mint?
    ensures var checked := Request.CheckAuthenticated(Request.Load(s.log, c.requestID));
            Decide(cfg, s, c) ==
            if checked.Err? then Err(checked.error)
            else if !c.login.state.LoginActive? then Err(PreconditionFailed("OIDCS-sjkl3"))
            else if !c.ownerKnown then Err(Internal("OIDCS-sferh"))
            else Ok(MintBatch(Request.Load(s.log, c.requestID), c.requestID, c.login, TokenLifetimes(cfg.defaults, c.settings), s.now,
                              c.newSession, c.newAccess, c.newRefresh))
  {
  }

  lemma EventsOfBatch(cfg: Config, s: Store, w: seq<Event>, c: Command)
    requires c.Mint? && IsAuthenticated(w)
    requires var v := Request.Load(s.log, c.requestID); LinkedAs(v, LastLink(w)) && v.request == w[0].request.request
    ensures MintBatch(Request.Load(s.log, c.requestID), c.requestID, c.login, TokenLifetimes(cfg.defaults, c.settings), s.now,
                      c.newSession, c.newAccess, c.newRefresh)
            == EventsOfMint(cfg, w, c, s.now)
  {
  }

  predicate HasLifetimes(e: Event, defaults: Lifetimes, settings: Lifetimes) {
    && (Runs.IsAccess(e) ==> e.session.lifetime == Effective(settings.access, defaults.access))
    && (Runs.IsRefresh(e) ==> e.session.lifetime == Effective(settings.refresh, defaults.refresh))
    && (Runs.IsRefresh(e) || Runs.IsRenewed(e) ==> e.session.idleLifetime == Effective(settings.refreshIdle, defaults.refreshIdle))
  }

  /** In every store, each lifetime that is pushed is the setting of the instance if that is positive, and the default otherwise. */
  lemma PushedLifetimes(cfg: Config, s: Store, c: Command, k: nat)
    requires (c.Mint? || c.Refresh?) && k < |Pushed(Decide(cfg, s, c))|
    ensures HasLifetimes(Pushed(Decide(cfg, s, c))[k], cfg.defaults, c.settings)
  {
  }

  // ---------------------------------------------------------------- refresh tokens

  /** What the check of an issued refresh token answers for a session, in terms of the log. */
  function TokenOutcome(s: Store, i: nat, sid: string): Result<(), Error>
    requires i < |s.log|
  {
    if Runs.SessionLog(s.log, sid) == [] then Err(PreconditionFailed("OIDCS-s3hjk"))
    else if sid != s.log[i].id || exists j :: i < j < |s.log| && Rotation.Rotates(s.log[j], sid)
    then Err(PreconditionFailed("OIDCS-28ubl"))
    else if !Runs.Within(Runs.WindowOf(Runs.SessionLog(s.log, sid)), s.now) then Err(PreconditionFailed("OIDCS-3jt2w"))
    else Ok(())
  }

  /** The loaded refresh token id is that of event i exactly if it is of this session and nothing has rotated it away. */
  lemma LoadedIsIssued(cfg: Config, s: Store, i: nat, sid: string)
    requires Reachable(cfg, s) && i < |s.log| && Runs.RefreshTokenOf(s.log[i]).Some?
    ensures Runs.RefreshTokenOf(s.log[i]).value != ""
    ensures Session.Load(s.log, sid).refreshTokenID == Runs.RefreshTokenOf(s.log[i]).value
            <==> sid == s.log[i].id && !exists j :: i < j < |s.log| && Rotation.Rotates(s.log[j], sid)
  {
    Rotation.ReachableTokens(cfg, s);
    assert Runs.EventIssued(s.used, s.log[i]);
    if sid != s.log[i].id {
      Rotation.ForeignIsNotCurrent(s.log, sid, i);
    } else if j :| i < j < |s.log| && Rotation.Rotates(s.log[j], sid) {
      Rotation.SupersededIsNotCurrent(s.log, sid, i, j);
    } else {
      Rotation.LastRotationIs(s.log, sid, i);
      Rotation.CurrentRefreshToken(s.log, sid);
    }
  }

  lemma CheckOutcome(cfg: Config, s: Store, i: nat, sid: string)
    requires Reachable(cfg, s) && i < |s.log| && Runs.RefreshTokenOf(s.log[i]).Some?
    ensures Session.CheckRefreshToken(Session.Load(s.log, sid), Runs.RefreshTokenOf(s.log[i]).value, s.now) == TokenOutcome(s, i, sid)
  {
    LoadedIsIssued(cfg, s, i, sid);
    Runs.ReachableSession(cfg, s, sid);
    Runs.LoadIsSeen(s.log, sid);
    if Runs.SessionLog(s.log, sid) != [] {
      Runs.WordState(Runs.SessionLog(s.log, sid));
    }
  }

  /** What a refresh answers to a token that carries the text of an issued one. */
  lemma RefreshOutcome(cfg: Config, s: Store, i: nat, userID: string, c: Command)
    requires Reachable(cfg, s) && i < |s.log| && Rotation.Presents(cfg, c, s.log[i], userID)
    ensures Decide(cfg, s, c) ==
            if TokenOutcome(s, i, c.oidcSessionID).Err? then Err(TokenOutcome(s, i, c.oidcSessionID).error)
            else Ok([OIDCSessionEvent(c.oidcSessionID, s.now, AccessTokenAdded(ACCESS_TOKEN_PREFIX + c.newAccess, c.scope,
                                                                               Effective(c.settings.access, cfg.defaults.access))),
                     OIDCSessionEvent(c.oidcSessionID, s.now, RefreshTokenRenewed(REFRESH_TOKEN_PREFIX + c.renewed,
                                                                                  Effective(c.settings.refreshIdle, cfg.defaults.refreshIdle)))])
  {
    CheckOutcome(cfg, s, i, c.oidcSessionID);
    ParsedText(cfg, s, i, userID);
    RefreshByID(cfg, s, c, Runs.RefreshTokenOf(s.log[i]).value);
  }

  lemma IssuedIDs(cfg: Config, s: Store, i: nat)
    requires Reachable(cfg, s) && i < |s.log| && Runs.RefreshTokenOf(s.log[i]).Some?
    ensures PlainID(s.log[i].id) && PlainID(Runs.RefreshTokenOf(s.log[i]).value)
    ensures HasPrefix(Runs.RefreshTokenOf(s.log[i]).value, REFRESH_TOKEN_PREFIX)
  {
    Rotation.ReachableTokens(cfg, s);
    assert Runs.EventIssued(s.used, s.log[i]);
    IssuedIsPlain(s.used, ID_PREFIX_V2, s.log[i].id);
    IssuedIsPlain(s.used, REFRESH_TOKEN_PREFIX, Runs.RefreshTokenOf(s.log[i]).value);
  }

  lemma IssuedIsPlain(used: set<string>, prefix: string, id: string)
    requires PlainID(prefix) && Runs.Issued(used, prefix, id)
    ensures PlainID(id) && HasPrefix(id, prefix)
  {
    assert id == prefix + id[|prefix|..];
  }

  lemma IDsParse(sid: string, id: string, userID: string)
    requires PlainID(sid) && PlainID(id) && HasPrefix(id, REFRESH_TOKEN_PREFIX)
    ensures ParseRefreshToken(RefreshTokenText(sid, id, userID)) == Ok(RefreshTokenIDs(sid, id))
    ensures TokenIDsFromToken(AccessTokenText(sid, id)) == Ok(TokenIDs(sid, id, ""))
  {
    assert id == REFRESH_TOKEN_PREFIX + id[|REFRESH_TOKEN_PREFIX|..];
    RefreshTokenRoundTrip(sid, id[|REFRESH_TOKEN_PREFIX|..], userID);
    PlainRefreshTokenRoundTrip(sid, id[|REFRESH_TOKEN_PREFIX|..]);
  }

  /** The text of an issued refresh token parses back to its session and id, for any user. */
  lemma ParsedText(cfg: Config, s: Store, i: nat, userID: string)
    requires Reachable(cfg, s) && i < |s.log| && Runs.RefreshTokenOf(s.log[i]).Some?
    ensures var sid, id := s.log[i].id, Runs.RefreshTokenOf(s.log[i]).value;
            && PlainID(sid) && PlainID(id) && HasPrefix(id, REFRESH_TOKEN_PREFIX)
            && ParseRefreshToken(RefreshTokenText(sid, id, userID)) == Ok(RefreshTokenIDs(sid, id))
            && TokenIDsFromToken(AccessTokenText(sid, id)) == Ok(TokenIDs(sid, id, ""))
  {
    IssuedIDs(cfg, s, i);
    IDsParse(s.log[i].id, Runs.RefreshTokenOf(s.log[i]).value, userID);
  }

  lemma RefreshByID(cfg: Config, s: Store, c: Command, id: string)
    requires c.Refresh? && DecryptRefreshToken(cfg, c.token) == Ok(id)
    ensures var checked := Session.CheckRefreshToken(Session.Load(s.log, c.oidcSessionID), id, s.now);
            Decide(cfg, s, c) ==
            if checked.Err? then Err(checked.error)
            else Ok([OIDCSessionEvent(c.oidcSessionID, s.now, AccessTokenAdded(ACCESS_TOKEN_PREFIX + c.newAccess, c.scope,
                                                                               Effective(c.settings.access, cfg.defaults.access))),
                     OIDCSessionEvent(c.oidcSessionID, s.now, RefreshTokenRenewed(REFRESH_TOKEN_PREFIX + c.renewed,
                                                                                  Effective(c.settings.refreshIdle, cfg.defaults.refreshIdle)))])
  {
  }

  /** A token that does not decrypt, or not to a refresh token, is refused whatever the session. */
  lemma MalformedRefreshesNothing(cfg: Config, s: Store, c: Command)
    requires c.Refresh? && DecryptRefreshToken(cfg, c.token).Err?
    ensures Decide(cfg, s, c) == if cfg.cipher.decrypt(c.token).Err? then Err(cfg.cipher.decrypt(c.token).error)
                                 else Err(PreconditionFailed("OIDCS-JOI23"))
  {
  }

  /** The clear text of an issued refresh token finds its session exactly while the token is current. */
  lemma LookupOutcome(cfg: Config, s: Store, i: nat, userID: string)
    requires Reachable(cfg, s) && i < |s.log| && Runs.RefreshTokenOf(s.log[i]).Some?
    ensures var parsed := ParseRefreshToken(RefreshTokenText(s.log[i].id, Runs.RefreshTokenOf(s.log[i]).value, userID));
            && parsed.Ok? && parsed.value.oidcSessionID == s.log[i].id
            && (Session.CheckRefreshToken(Session.Load(s.log, s.log[i].id), parsed.value.refreshTokenID, s.now).Ok?
                <==> Rotation.IsCurrent(s, i))
  {
    ParsedText(cfg, s, i, userID);
    CheckOutcome(cfg, s, i, s.log[i].id);
    IssuedHasSession(s.log, i);
  }

  lemma IssuedHasSession(log: seq<Event>, i: nat)
    requires i < |log| && log[i].OIDCSessionEvent?
    ensures Runs.SessionLog(log, log[i].id) != []
  {
    FilterComplete(log, WholeOIDCSession(log[i].id), i);
  }

  /**
  After any run, revoking with an issued refresh token fails for a client outside the audience of its
  session; for one inside, the session is revoked exactly if the token is its latest one and both its
  limits hold, and otherwise nothing is pushed.
  */
  lemma RevokeOutcome(cfg: Config, s: Store, i: nat, client: string)
    requires Reachable(cfg, s) && i < |s.log| && Runs.RefreshTokenOf(s.log[i]).Some?
    ensures Decide(cfg, s, Revoke(AccessTokenText(s.log[i].id, Runs.RefreshTokenOf(s.log[i]).value), client)) ==
            if !Runs.InAudience(s.log, s.log[i].id, client) then Err(PreconditionFailed("OIDCS-SKjl3"))
            else if Rotation.IsCurrent(s, i) then Ok([OIDCSessionEvent(s.log[i].id, s.now, RefreshTokenRevoked)])
            else Ok([])
  {
    ParsedText(cfg, s, i, "");
    LoadedIsIssued(cfg, s, i, s.log[i].id);
    CheckOutcome(cfg, s, i, s.log[i].id);
    IssuedHasSession(s.log, i);
    Runs.LoadedAudience(cfg, s, s.log[i].id, client);
    RevokeByID(cfg, s, AccessTokenText(s.log[i].id, Runs.RefreshTokenOf(s.log[i]).value), client);
  }

  lemma RevokeByID(cfg: Config, s: Store, token: string, client: string)
    requires TokenIDsFromToken(token).Ok? && TokenIDsFromToken(token).value.refreshTokenID != ""
    ensures var ids := TokenIDsFromToken(token).value;
            var v := Session.Load(s.log, ids.oidcSessionID);
            Decide(cfg, s, Revoke(token, client)) ==
            if Session.ClientChecked(v, client).Err? then Err(PreconditionFailed("OIDCS-SKjl3"))
            else if Session.CheckRefreshToken(v, ids.refreshTokenID, s.now).Err? then Ok([])
            else Ok([OIDCSessionEvent(ids.oidcSessionID, s.now, RefreshTokenRevoked)])
  {
  }

  /** Whatever the token and the store, a revoked session has been presented the id that its last rotation issued. */
  lemma RevocationPresentsCurrent(cfg: Config, s: Store, token: string, client: string, e: Event)
    requires Decide(cfg, s, Revoke(token, client)) == Ok([e]) && Runs.IsRevoked(e)
    ensures var p := Rotation.LastRotation(s.log, e.id);
            && p.Some? && Runs.RefreshTokenOf(s.log[p.value]).Some?
            && TokenIDsFromToken(token) == Ok(TokenIDs(e.id, Runs.RefreshTokenOf(s.log[p.value]).value, ""))
  {
    RevokedIsLoaded(cfg, s, token, client, e);
    Rotation.CurrentRefreshToken(s.log, e.id);
  }

  lemma RevokedIsLoaded(cfg: Config, s: Store, token: string, client: string, e: Event)
    requires Decide(cfg, s, Revoke(token, client)) == Ok([e]) && Runs.IsRevoked(e)
    ensures TokenIDsFromToken(token) == Ok(TokenIDs(e.id, Session.Load(s.log, e.id).refreshTokenID, ""))
    ensures Session.Load(s.log, e.id).refreshTokenID != ""
  {
    assert [e][0] == e;
  }

  /**
  The text with a subject, as it is encrypted for the client, never revokes its session: the revocation
  parser keeps the subject, and rejects the text if the user id contains a `-`.
  */
  lemma SubjectRevokesNothing(cfg: Config, s: Store, i: nat, userID: string, client: string)
    requires Reachable(cfg, s) && i < |s.log| && Runs.RefreshTokenOf(s.log[i]).Some?
    ensures Decide(cfg, s, Revoke(RefreshTokenText(s.log[i].id, Runs.RefreshTokenOf(s.log[i]).value, userID), client)) ==
            if TOKEN_DELIMITER !in userID && !Runs.InAudience(s.log, s.log[i].id, client) then Err(PreconditionFailed("OIDCS-SKjl3"))
            else Ok([])
  {
    var sid, id := s.log[i].id, Runs.RefreshTokenOf(s.log[i]).value;
    ParsedText(cfg, s, i, userID);
    SubjectIsKept(sid, id, userID);
    if TOKEN_DELIMITER in userID {
      MalformedRevokesNothing(cfg, s, RefreshTokenText(sid, id, userID), client);
    } else {
      LoadedIsPlain(cfg, s, sid);
      OtherRevokesNothing(cfg, s, RefreshTokenText(sid, id, userID), client);
      IssuedHasSession(s.log, i);
      Runs.LoadedAudience(cfg, s, sid, client);
    }
  }

  lemma MalformedRevokesNothing(cfg: Config, s: Store, token: string, client: string)
    requires TokenIDsFromToken(token).Err?
    ensures Decide(cfg, s, Revoke(token, client)) == Ok([])
  {
  }

  /** A refresh token id other than the loaded one only passes or fails the check of the audience. */
  lemma OtherRevokesNothing(cfg: Config, s: Store, token: string, client: string)
    requires TokenIDsFromToken(token).Ok? && TokenIDsFromToken(token).value.refreshTokenID != ""
    requires var ids := TokenIDsFromToken(token).value; Session.Load(s.log, ids.oidcSessionID).refreshTokenID != ids.refreshTokenID
    ensures Decide(cfg, s, Revoke(token, client)) ==
            if Session.ClientChecked(Session.Load(s.log, TokenIDsFromToken(token).value.oidcSessionID), client).Err?
            then Err(PreconditionFailed("OIDCS-SKjl3"))
            else Ok([])
  {
    RevokeByID(cfg, s, token, client);
  }

  lemma SubjectIsKept(sid: string, id: string, userID: string)
    requires PlainID(sid) && PlainID(id) && HasPrefix(id, REFRESH_TOKEN_PREFIX)
    ensures TokenIDsFromToken(RefreshTokenText(sid, id, userID)) ==
            if TOKEN_DELIMITER in userID then Err(PreconditionFailed("OIDCS-S87kl"))
            else Ok(TokenIDs(sid, id + [SUBJECT_DELIMITER] + userID, ""))
    ensures SUBJECT_DELIMITER in id + [SUBJECT_DELIMITER] + userID
  {
    var tail := id + [SUBJECT_DELIMITER] + userID;
    TailKeepsDelimiters(id, userID);
    assert RefreshTokenText(sid, id, userID) == sid + [TOKEN_DELIMITER] + tail;
    SecondPart(sid, tail);
  }

  lemma TailKeepsDelimiters(id: string, userID: string)
    requires PlainID(id) && HasPrefix(id, REFRESH_TOKEN_PREFIX)
    ensures var tail := id + [SUBJECT_DELIMITER] + userID;
            && SUBJECT_DELIMITER in tail && HasPrefix(tail, REFRESH_TOKEN_PREFIX)
            && (TOKEN_DELIMITER in tail <==> TOKEN_DELIMITER in userID)
  {
    var tail := id + [SUBJECT_DELIMITER] + userID;
    assert tail[|id|] == SUBJECT_DELIMITER;
    if k :| 0 <= k < |userID| && userID[k] == TOKEN_DELIMITER {
      assert tail[|id| + 1 + k] == TOKEN_DELIMITER;
    }
  }

  lemma SecondPart(sid: string, tail: string)
    requires PlainID(sid) && HasPrefix(tail, REFRESH_TOKEN_PREFIX)
    ensures TokenIDsFromToken(sid + [TOKEN_DELIMITER] + tail) ==
            if TOKEN_DELIMITER in tail then Err(PreconditionFailed("OIDCS-S87kl")) else Ok(TokenIDs(sid, tail, ""))
  {
    SplitFirst(sid, TOKEN_DELIMITER, tail);
    if TOKEN_DELIMITER in tail {
      SplitSome(tail, TOKEN_DELIMITER);
    } else {
      SplitNone(tail, TOKEN_DELIMITER);
    }
  }

  lemma LoadedIsPlain(cfg: Config, s: Store, sid: string)
    requires Reachable(cfg, s)
    ensures SUBJECT_DELIMITER !in Session.Load(s.log, sid).refreshTokenID
  {
    Rotation.CurrentRefreshToken(s.log, sid);
    var p := Rotation.LastRotation(s.log, sid);
    if p.Some? && Runs.RefreshTokenOf(s.log[p.value]).Some? {
      IssuedIDs(cfg, s, p.value);
    }
  }
}
