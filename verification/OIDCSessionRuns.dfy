/** What the log of one OIDC session looks like in every run, and when its tokens were accepted. */
module OIDCSessionRuns {
  import opened Wrappers
  import opened EventLog
  import opened Tokens
  import opened OIDCFlow
  import AuthRequestRuns
  import Request = AuthRequestModel
  import Session = OIDCSessionModel

  function SessionLog(log: seq<Event>, sid: string): seq<Event> {
    Filter(log, WholeOIDCSession(sid))
  }

  predicate IsAdded(e: Event) { e.OIDCSessionEvent? && e.session.SessionAdded? }
  predicate IsAccess(e: Event) { e.OIDCSessionEvent? && e.session.AccessTokenAdded? }
  predicate IsRefresh(e: Event) { e.OIDCSessionEvent? && e.session.RefreshTokenAdded? }
  predicate IsRenewed(e: Event) { e.OIDCSessionEvent? && e.session.RefreshTokenRenewed? }
  predicate IsAccessRevoked(e: Event) { e.OIDCSessionEvent? && e.session.AccessTokenRevoked? }
  predicate IsRevoked(e: Event) { e.OIDCSessionEvent? && e.session.RefreshTokenRevoked? }

  /** Until when a session may be refreshed: the absolute limit and the idle limit. */
  datatype Window =
    | Closed
    | NoRefresh
    | Until(expiry: Time, idle: Time)

  predicate Within(w: Window, t: Time) {
    w.Until? && t <= w.expiry && t <= w.idle
  }

  /** How an event changes the window: a renewal restarts the idle limit and nothing else. */
  function WindowAfter(w: Window, e: Event): Window {
    if IsRefresh(e) then Until(e.created + e.session.lifetime, e.created + e.session.idleLifetime)
    else if IsRenewed(e) && w.Until? then Until(w.expiry, e.created + e.session.idleLifetime)
    else if IsRevoked(e) then Closed
    else w
  }

  function WindowOf(es: seq<Event>): Window {
    if es == [] then NoRefresh else WindowAfter(WindowOf(es[..|es| - 1]), es[|es| - 1])
  }

  /** The batch a session starts with: of a login session, and its first access token has the scope of its grant. */
  predicate IsBirth(es: seq<Event>) {
    && 2 <= |es| <= 3
    && IsAdded(es[0]) && IsAccess(es[1]) && es[1].created == es[0].created
    && es[0].session.grant.sessionID != "" && es[1].session.tokenScope == es[0].session.grant.scope
    && (|es| == 3 ==> IsRefresh(es[2]) && es[2].created == es[0].created)
  }

  /** What one command may add to a session whose window is w. */
  predicate IsContinuation(w: Window, more: seq<Event>) {
    || (|more| == 1 && IsAccessRevoked(more[0]) && !w.Closed?)
    || (|more| == 1 && IsRevoked(more[0]) && Within(w, more[0].created))
    || (|more| == 2 && IsAccess(more[0]) && IsRenewed(more[1]) && more[0].created == more[1].created && Within(w, more[1].created))
  }

  /** The last access token of a session log; its revocation does not count, the commands do not see it. */
  function LastAccess(es: seq<Event>): (e: Option<Event>)
    ensures e.Some? ==> IsAccess(e.value) && e.value in es
  {
    if es == [] then None else if IsAccess(es[|es| - 1]) then Some(es[|es| - 1]) else LastAccess(es[..|es| - 1])
  }

  predicate HasAudience(es: seq<Event>) {
    es != [] && IsAdded(es[0]) && es[0].session.grant.audience != []
  }

  /** Some client may revoke tokens of the session, and an access token only until the last one has expired. */
  predicate MayRevoke(known: seq<Event>, e: Event) {
    && (IsAccessRevoked(e) || IsRevoked(e) ==> HasAudience(known))
    && (IsAccessRevoked(e) ==>
          LastAccess(known).Some? && var a := LastAccess(known).value; e.created <= a.created + a.session.lifetime)
  }

  /** What one command may add to a session log that is not empty. */
  predicate Extends(known: seq<Event>, more: seq<Event>) {
    IsContinuation(WindowOf(known), more) && (|more| == 1 ==> MayRevoke(known, more[0]))
  }

  /**
  The timed language of session logs: a birth, then revocations of access tokens that have not
  expired and refreshes inside the window, and possibly one final revocation of the refresh token
  inside the window.
  */
  predicate IsSessionWord(es: seq<Event>)
    decreases |es|
  {
    || es == []
    || IsBirth(es)
    || (|es| >= 3 && IsSessionWord(es[..|es| - 1]) && Extends(es[..|es| - 1], es[|es| - 1..]))
    || (|es| >= 4 && IsSessionWord(es[..|es| - 2]) && Extends(es[..|es| - 2], es[|es| - 2..]))
  }

  predicate MayFollow(known: seq<Event>, more: seq<Event>) {
    more == [] || (known == [] && IsBirth(more)) || (known != [] && Extends(known, more))
  }

  /** A session word that is not empty ends with what one command added to a shorter one. */
  lemma WordSplit(es: seq<Event>) returns (init: seq<Event>, more: seq<Event>)
    requires IsSessionWord(es) && es != []
    ensures es == init + more && more != [] && IsSessionWord(init) && MayFollow(init, more)
  {
    if IsBirth(es) {
      init, more := [], es;
    } else if |es| >= 3 && IsSessionWord(es[..|es| - 1]) && Extends(es[..|es| - 1], es[|es| - 1..]) {
      init, more := es[..|es| - 1], es[|es| - 1..];
    } else {
      init, more := es[..|es| - 2], es[|es| - 2..];
    }
  }

  /** Folding what the query returns of a session log. */
  function Seen(es: seq<Event>): Session.View {
    if es == [] then Session.EMPTY
    else
      var v, e := Seen(es[..|es| - 1]), es[|es| - 1];
      if IsAccessRevoked(e) then v else Session.Step(v, e)
  }

  lemma {:induction false} SeenIsLoaded(es: seq<Event>, sid: string)
    requires forall e <- es :: Matches(WholeOIDCSession(sid), e)
    ensures Session.Reduced(Session.EMPTY, Filter(es, OIDCSessionQuery(sid))) == Seen(es)
  {
    if es != [] {
      var init, last := es[..|es| - 1], es[|es| - 1];
      SeenIsLoaded(init, sid);
      assert last in es;
      Session.ReducedSnoc(Session.EMPTY, Filter(init, OIDCSessionQuery(sid)), last);
    }
  }

  /** The commands see of a session what its log amounts to. */
  lemma LoadIsSeen(log: seq<Event>, sid: string)
    ensures Session.Load(log, sid) == Seen(SessionLog(log, sid))
  {
    FilterMatches(log, WholeOIDCSession(sid));
    FilterOfWhole(log, sid);
    SeenIsLoaded(SessionLog(log, sid), sid);
  }

  /** The refresh fields of a model that stands for a session with window w. */
  predicate Agrees(v: Session.View, w: Window) {
    match w
    case Closed => v.refreshTokenID == "" && v.accessTokenID == ""
    case NoRefresh => v.refreshTokenID == ""
    case Until(expiry, idle) => v.refreshTokenExpiration == expiry && v.refreshTokenIdleExpiration == idle
  }

  /** The last event that issued a refresh token. */
  function LastRefresh(es: seq<Event>): (e: Option<Event>)
    ensures e.Some? ==> RefreshTokenOf(e.value).Some? && e.value in es
  {
    if es == [] then None
    else if RefreshTokenOf(es[|es| - 1]).Some? then Some(es[|es| - 1])
    else LastRefresh(es[..|es| - 1])
  }

  /** The tokens of a model that stands for a session log: the last ones issued, until the session is revoked. */
  predicate TokensAgree(v: Session.View, es: seq<Event>) {
    !WindowOf(es).Closed? ==>
      && LastAccess(es).Some?
      && var a := LastAccess(es).value;
      && v.accessTokenID == a.session.tokenID && v.accessTokenExpiration == a.created + a.session.lifetime
      && (WindowOf(es).Until? ==> LastRefresh(es).Some? && Some(v.refreshTokenID) == RefreshTokenOf(LastRefresh(es).value))
  }

  /** The model has the grant of the log's first event, and its limits and tokens are those of the log. */
  predicate StandsFor(v: Session.View, es: seq<Event>) {
    && es != [] && IsAdded(es[0]) && v.grant == es[0].session.grant && v.state.SessionActive?
    && Agrees(v, WindowOf(es)) && TokensAgree(v, es)
  }

  /** The loaded model of a session word: its grant is the first event's, its limits are the window. */
  lemma {:induction false} WordState(es: seq<Event>)
    requires IsSessionWord(es) && es != []
    ensures StandsFor(Seen(es), es)
    decreases |es|
  {
    var init, more := WordSplit(es);
    if init == [] {
      assert es == more;
      BirthState(es);
    } else {
      WordState(init);
      if |more| == 1 {
        assert es == init + [more[0]];
        RevokedState(init, more[0]);
      } else {
        assert es == init + [more[0]] + [more[1]];
        RefreshState(init, more[0], more[1]);
      }
    }
  }

  lemma RevokedState(es: seq<Event>, e: Event)
    requires StandsFor(Seen(es), es) && IsContinuation(WindowOf(es), [e])
    ensures StandsFor(Seen(es + [e]), es + [e])
  {
    SeenSnoc(es, e);
    assert [e][0] == e;
    if IsRevoked(e) {
      StepAgrees(Seen(es), WindowOf(es), e);
    }
  }

  lemma SeenSnoc(es: seq<Event>, e: Event)
    ensures Seen(es + [e]) == if IsAccessRevoked(e) then Seen(es) else Session.Step(Seen(es), e)
    ensures WindowOf(es + [e]) == WindowAfter(WindowOf(es), e)
    ensures LastAccess(es + [e]) == if IsAccess(e) then Some(e) else LastAccess(es)
    ensures LastRefresh(es + [e]) == if RefreshTokenOf(e).Some? then Some(e) else LastRefresh(es)
  {
    assert (es + [e])[..|es|] == es;
  }

  lemma RefreshState(es: seq<Event>, access: Event, renewed: Event)
    requires StandsFor(Seen(es), es) && WindowOf(es).Until?
    requires IsAccess(access) && IsRenewed(renewed)
    ensures StandsFor(Seen(es + [access] + [renewed]), es + [access] + [renewed])
  {
    SeenSnoc(es, access);
    StepAgrees(Seen(es), WindowOf(es), access);
    SeenSnoc(es + [access], renewed);
    StepAgrees(Seen(es + [access]), WindowOf(es + [access]), renewed);
  }

  lemma StepAgrees(v: Session.View, w: Window, e: Event)
    requires Agrees(v, w) && v.state.SessionActive? && (IsAccess(e) || IsRenewed(e) || IsRevoked(e))
    requires w.Until?
    ensures Agrees(Session.Step(v, e), WindowAfter(w, e))
    ensures Session.Step(v, e).grant == v.grant && Session.Step(v, e).state.SessionActive?
  {
  }

  lemma BirthState(es: seq<Event>)
    requires IsBirth(es)
    ensures StandsFor(Seen(es), es) && !WindowOf(es).Closed?
  {
    var one, two := es[..1], es[..2];
    assert one == [] + [es[0]] && two == one + [es[1]];
    SeenSnoc([], es[0]);
    SeenSnoc(one, es[1]);
    if |es| == 3 {
      assert es == two + [es[2]];
      SeenSnoc(two, es[2]);
    } else {
      assert es == two;
    }
  }

  // ---------------------------------------------------------------- ids

  predicate Issued(used: set<string>, prefix: string, id: string) {
    prefix <= id && id[|prefix|..] in used && PlainID(id[|prefix|..])
  }

  /** The id of the refresh token that an event issues, if any. */
  function RefreshTokenOf(e: Event): Option<string> {
    if IsRefresh(e) || IsRenewed(e) then Some(e.session.tokenID) else None
  }

  /** The ids in an event stem from the generator. */
  predicate EventIssued(used: set<string>, e: Event) {
    e.OIDCSessionEvent? ==>
      && Issued(used, ID_PREFIX_V2, e.id)
      && (IsAccess(e) ==> Issued(used, ACCESS_TOKEN_PREFIX, e.session.tokenID))
      && (RefreshTokenOf(e).Some? ==> Issued(used, REFRESH_TOKEN_PREFIX, RefreshTokenOf(e).value))
  }

  predicate AllIssued(s: Store) {
    forall i :: 0 <= i < |s.log| ==> EventIssued(s.used, s.log[i])
  }

  // ---------------------------------------------------------------- what the commands push

  /** A session that loads as active has events. */
  lemma ActiveHasEvents(log: seq<Event>, sid: string) returns (i: nat)
    requires Session.Load(log, sid).state.SessionActive?
    ensures i < |log| && log[i].OIDCSessionEvent? && log[i].id == sid
  {
    FilterMatches(log, OIDCSessionQuery(sid));
    var queried := Filter(log, OIDCSessionQuery(sid));
    assert queried != [];
    assert queried[0] in log;
    i :| 0 <= i < |log| && log[i] == queried[0];
  }

  lemma MintPushes(cfg: Config, s: Store, c: Command)
    requires c.Mint?
    ensures var es, sid := Pushed(Decide(cfg, s, c)), ID_PREFIX_V2 + c.newSession;
            es == [] ||
            (&& |es| >= 1 && IsBirth(es[..|es| - 1]) && AuthRequestRuns.IsSucceeded(es[|es| - 1])
             && es[|es| - 1].id == c.requestID
             && (forall i :: 0 <= i < |es| - 1 ==> es[i].id == sid && es[i].created == s.now)
             && es[0].session.grant == GrantFor(Request.Load(s.log, c.requestID), c.login)
             && es[1].session.tokenID == ACCESS_TOKEN_PREFIX + c.newAccess
             && (|es| == 4 ==> c.newRefresh.Some? && es[2].session.tokenID == REFRESH_TOKEN_PREFIX + c.newRefresh.value))
  {
  }

  lemma RefreshPushes(cfg: Config, s: Store, c: Command)
    requires c.Refresh?
    ensures var es, v := Pushed(Decide(cfg, s, c)), Session.Load(s.log, c.oidcSessionID);
            es == [] ||
            (&& |es| == 2 && IsAccess(es[0]) && IsRenewed(es[1])
             && es[0].id == es[1].id == c.oidcSessionID && es[0].created == es[1].created == s.now
             && es[0].session.tokenID == ACCESS_TOKEN_PREFIX + c.newAccess
             && es[1].session.tokenID == REFRESH_TOKEN_PREFIX + c.renewed
             && v.refreshTokenID != "" && Session.CheckRefreshToken(v, v.refreshTokenID, s.now).Ok?)
  {
    if Pushed(Decide(cfg, s, c)) != [] {
      ParsedIDsPrefixed(cfg.cipher.decrypt(c.token).value);
    }
  }

  lemma RevokePushes(cfg: Config, s: Store, c: Command)
    requires c.Revoke?
    ensures var es := Pushed(Decide(cfg, s, c));
            es == [] ||
            (&& |es| == 1 && (IsRevoked(es[0]) || IsAccessRevoked(es[0])) && es[0].created == s.now
             && var v := Session.Load(s.log, es[0].id);
                && v.state.SessionActive? && c.clientID in v.grant.audience
                && (IsRevoked(es[0]) ==> v.refreshTokenID != "" && Session.CheckRefreshToken(v, v.refreshTokenID, s.now).Ok?)
                && (IsAccessRevoked(es[0]) ==> v.accessTokenID != "" && s.now <= v.accessTokenExpiration))
  {
    ParsedIDsPrefixed(c.token);
  }

  lemma OthersPushNothing(cfg: Config, s: Store, c: Command)
    requires !c.Mint? && !c.Refresh? && !c.Revoke?
    ensures forall i :: 0 <= i < |Pushed(Decide(cfg, s, c))| ==> Pushed(Decide(cfg, s, c))[i].AuthRequestEvent?
  {
  }

  /** Every session event a command pushes goes to one session. */
  predicate AllOf(es: seq<Event>, sid: string) {
    forall i :: 0 <= i < |es| ==> es[i].OIDCSessionEvent? && es[i].id == sid
  }

  lemma {:induction false} FilterAll(es: seq<Event>, sid: string, other: string)
    requires AllOf(es, sid)
    ensures SessionLog(es, other) == if sid == other then es else []
  {
    if es != [] {
      FilterAll(es[..|es| - 1], sid, other);
    }
  }

  lemma MintToSession(cfg: Config, s: Store, c: Command, sid: string)
    requires c.Mint? && AllIssued(s) && Fresh(s, c) && Pushed(Decide(cfg, s, c)) != []
    ensures MayFollow(SessionLog(s.log, sid), SessionLog(Pushed(Decide(cfg, s, c)), sid))
  {
    var es := Pushed(Decide(cfg, s, c));
    MintPushes(cfg, s, c);
    NewSessionIsEmpty(s, c);
    BatchOfSession(es[..|es| - 1], es[|es| - 1], ID_PREFIX_V2 + c.newSession, sid);
    assert es == es[..|es| - 1] + [es[|es| - 1]];
  }

  lemma BatchOfSession(es: seq<Event>, last: Event, sid: string, other: string)
    requires AllOf(es, sid) && last.AuthRequestEvent?
    ensures SessionLog(es + [last], other) == if sid == other then es else []
  {
    FilterAll(es, sid, other);
    FilterSnoc(es, last, WholeOIDCSession(other));
  }

  lemma RefreshToSession(cfg: Config, s: Store, c: Command, sid: string)
    requires c.Refresh? && IsSessionWord(SessionLog(s.log, sid)) && Pushed(Decide(cfg, s, c)) != []
    ensures MayFollow(SessionLog(s.log, sid), SessionLog(Pushed(Decide(cfg, s, c)), sid))
  {
    RefreshPushes(cfg, s, c);
    FilterAll(Pushed(Decide(cfg, s, c)), c.oidcSessionID, sid);
    AcceptedIsWithin(s, c.oidcSessionID, sid);
  }

  lemma RevokeToSession(cfg: Config, s: Store, c: Command, sid: string)
    requires c.Revoke? && IsSessionWord(SessionLog(s.log, sid)) && Pushed(Decide(cfg, s, c)) != []
    ensures MayFollow(SessionLog(s.log, sid), SessionLog(Pushed(Decide(cfg, s, c)), sid))
  {
    var es := Pushed(Decide(cfg, s, c));
    RevokePushes(cfg, s, c);
    FilterAll(es, es[0].id, sid);
    AcceptedIsWithin(s, es[0].id, sid);
  }

  /** What a command adds to a session: nothing, its birth if it is new, or an allowed continuation. */
  lemma PushedToSession(cfg: Config, s: Store, c: Command, sid: string)
    requires AllIssued(s) && Fresh(s, c) && IsSessionWord(SessionLog(s.log, sid))
    ensures MayFollow(SessionLog(s.log, sid), SessionLog(Pushed(Decide(cfg, s, c)), sid))
  {
    var es := Pushed(Decide(cfg, s, c));
    if es == [] {
    } else if c.Mint? {
      MintToSession(cfg, s, c, sid);
    } else if c.Refresh? {
      RefreshToSession(cfg, s, c, sid);
    } else if c.Revoke? {
      RevokeToSession(cfg, s, c, sid);
    } else {
      OthersPushNothing(cfg, s, c);
      AuthRequestRuns.FilterNone(es, WholeOIDCSession(sid));
    }
  }

  /** The session a mint creates has no events yet. */
  lemma NewSessionIsEmpty(s: Store, c: Command)
    requires c.Mint? && AllIssued(s) && Fresh(s, c)
    ensures SessionLog(s.log, ID_PREFIX_V2 + c.newSession) == []
  {
    var sid := ID_PREFIX_V2 + c.newSession;
    assert Generated(c)[0] == c.newSession;
    assert sid[|ID_PREFIX_V2|..] == c.newSession;
    forall i | 0 <= i < |s.log|
      ensures !Matches(WholeOIDCSession(sid), s.log[i])
    {
      assert EventIssued(s.used, s.log[i]);
    }
    AuthRequestRuns.FilterNone(s.log, WholeOIDCSession(sid));
  }

  /** If the loaded model passes a check for a non-empty token id, the session's window is open. */
  lemma AcceptedIsWithin(s: Store, sid: string, other: string)
    requires sid == other ==> IsSessionWord(SessionLog(s.log, sid))
    requires Session.Load(s.log, sid).state.SessionActive?
    ensures sid == other ==>
              var v, w := Session.Load(s.log, sid), WindowOf(SessionLog(s.log, sid));
              && SessionLog(s.log, sid) != []
              && (v.refreshTokenID != "" && Session.CheckRefreshToken(v, v.refreshTokenID, s.now).Ok? ==> Within(w, s.now))
              && (v.accessTokenID != "" ==> !w.Closed?)
              && HasAudience(SessionLog(s.log, sid)) == (v.grant.audience != [])
              && TokensAgree(v, SessionLog(s.log, sid))
  {
    LoadIsSeen(s.log, sid);
    if sid == other {
      WordState(SessionLog(s.log, sid));
    }
  }

  lemma WordKept(cfg: Config, s: Store, c: Command, sid: string)
    requires AllIssued(s) && Fresh(s, c) && IsSessionWord(SessionLog(s.log, sid))
    ensures IsSessionWord(SessionLog(Next(cfg, s, c).log, sid))
  {
    var es := Pushed(Decide(cfg, s, c));
    FilterConcat(s.log, es, WholeOIDCSession(sid));
    PushedToSession(cfg, s, c, sid);
    WordGrows(SessionLog(s.log, sid), SessionLog(es, sid));
  }

  lemma WordGrows(es: seq<Event>, more: seq<Event>)
    requires IsSessionWord(es)
    requires MayFollow(es, more)
    ensures IsSessionWord(es + more)
  {
    if more == [] {
      assert es + more == es;
    } else if es == [] {
      assert es + more == more;
    } else {
      var longer := es + more;
      assert longer[..|longer| - |more|] == es && longer[|longer| - |more|..] == more;
    }
  }

  lemma IssuedKept(cfg: Config, s: Store, c: Command)
    requires AllIssued(s) && Fresh(s, c)
    ensures AllIssued(Next(cfg, s, c))
  {
    var es, s' := Pushed(Decide(cfg, s, c)), Next(cfg, s, c);
    forall i | 0 <= i < |s.log|
      ensures EventIssued(s'.used, s'.log[i])
    {
      assert EventIssued(s.used, s.log[i]);
    }
    forall i | 0 <= i < |es|
      ensures EventIssued(s'.used, es[i])
    {
      PushedIssued(cfg, s, c, i);
    }
  }

  lemma GeneratedAreUsed(cfg: Config, s: Store, c: Command)
    requires Fresh(s, c)
    ensures forall k :: 0 <= k < |Generated(c)| ==> Generated(c)[k] in Next(cfg, s, c).used && PlainID(Generated(c)[k])
    ensures s.used <= Next(cfg, s, c).used
  {
  }

  lemma MintedIssued(cfg: Config, s: Store, c: Command, used: set<string>, i: nat)
    requires c.Mint? && i < |Pushed(Decide(cfg, s, c))|
    requires forall k :: 0 <= k < |Generated(c)| ==> Generated(c)[k] in used && PlainID(Generated(c)[k])
    ensures EventIssued(used, Pushed(Decide(cfg, s, c))[i])
  {
    var ids := Generated(c);
    MintPushes(cfg, s, c);
    assert ids[0] == c.newSession && ids[1] == c.newAccess;
    assert c.newRefresh.Some? ==> ids[2] == c.newRefresh.value;
  }

  lemma RefreshedIssued(cfg: Config, s: Store, c: Command, used: set<string>, i: nat)
    requires AllIssued(s) && s.used <= used && c.Refresh? && i < |Pushed(Decide(cfg, s, c))|
    requires forall k :: 0 <= k < |Generated(c)| ==> Generated(c)[k] in used && PlainID(Generated(c)[k])
    ensures EventIssued(used, Pushed(Decide(cfg, s, c))[i])
  {
    var ids := Generated(c);
    RefreshPushes(cfg, s, c);
    assert ids[0] == c.newAccess && ids[1] == c.renewed;
    var k := ActiveHasEvents(s.log, c.oidcSessionID);
    assert EventIssued(s.used, s.log[k]);
  }

  lemma PushedIssued(cfg: Config, s: Store, c: Command, i: nat)
    requires AllIssued(s) && Fresh(s, c) && i < |Pushed(Decide(cfg, s, c))|
    ensures EventIssued(Next(cfg, s, c).used, Pushed(Decide(cfg, s, c))[i])
  {
    GeneratedAreUsed(cfg, s, c);
    if c.Mint? {
      MintedIssued(cfg, s, c, Next(cfg, s, c).used, i);
    } else if c.Refresh? {
      RefreshedIssued(cfg, s, c, Next(cfg, s, c).used, i);
    } else if c.Revoke? {
      RevokePushes(cfg, s, c);
      var k := ActiveHasEvents(s.log, Pushed(Decide(cfg, s, c))[0].id);
      assert EventIssued(s.used, s.log[k]);
    } else {
      OthersPushNothing(cfg, s, c);
    }
  }

  /** In every run the log of every OIDC session is a word of the timed language. */
  lemma {:induction false} SessionLogsAreWords(cfg: Config, s: Store, cs: seq<Command>, sid: string)
    requires Admissible(cfg, s, cs) && AllIssued(s) && IsSessionWord(SessionLog(s.log, sid))
    ensures AllIssued(Exec(cfg, s, cs))
    ensures IsSessionWord(SessionLog(Exec(cfg, s, cs).log, sid))
  {
    if cs != [] {
      var before := Exec(cfg, s, cs[..|cs| - 1]);
      SessionLogsAreWords(cfg, s, cs[..|cs| - 1], sid);
      IssuedKept(cfg, before, cs[|cs| - 1]);
      WordKept(cfg, before, cs[|cs| - 1], sid);
    }
  }

  // ---------------------------------------------------------------- revocation is final

  /** In a session word nothing follows the revocation of the refresh token. */
  lemma {:induction false} RevokedIsLast(es: seq<Event>, i: nat)
    requires IsSessionWord(es) && i < |es| && IsRevoked(es[i])
    ensures i == |es| - 1 && WindowOf(es).Closed?
    decreases |es|
  {
    if !IsBirth(es) && i < |es| - 1 {
      if IsSessionWord(es[..|es| - 1]) && IsContinuation(WindowOf(es[..|es| - 1]), es[|es| - 1..]) {
        RevokedIsLast(es[..|es| - 1], i);
      } else {
        var two := es[..|es| - 2];
        assert IsContinuation(WindowOf(two), es[|es| - 2..]);
        if i < |two| {
          RevokedIsLast(two, i);
        }
      }
    }
  }

  /**
  Once a session's refresh token is revoked, no run adds to the session, and both its token ids
  stay empty (sections 2.1 and 2.2 of RFC 7009).
  */
  lemma RevocationIsFinal(cfg: Config, s: Store, cs: seq<Command>, sid: string, i: nat)
    requires Admissible(cfg, s, cs) && AllIssued(s) && IsSessionWord(SessionLog(s.log, sid))
    requires i < |SessionLog(s.log, sid)| && IsRevoked(SessionLog(s.log, sid)[i])
    ensures SessionLog(Exec(cfg, s, cs).log, sid) == SessionLog(s.log, sid)
    ensures Session.Load(Exec(cfg, s, cs).log, sid).refreshTokenID == ""
    ensures Session.Load(Exec(cfg, s, cs).log, sid).accessTokenID == ""
  {
    var later := SessionLog(Exec(cfg, s, cs).log, sid);
    SessionLogsAreWords(cfg, s, cs, sid);
    AuthRequestRuns.ProjectionGrows(cfg, s, cs, WholeOIDCSession(sid));
    assert later[i] == SessionLog(s.log, sid)[i];
    RevokedIsLast(later, i);
    LoadIsSeen(Exec(cfg, s, cs).log, sid);
    WordState(later);
  }

  // ---------------------------------------------------------------- bounds on time

  /** The last event before j that issued a refresh token. */
  function PreviousIssue(es: seq<Event>, j: nat): (p: Option<nat>)
    requires j <= |es|
    ensures p.Some? ==> p.value < j && RefreshTokenOf(es[p.value]).Some?
    ensures forall i :: (if p.Some? then p.value + 1 else 0) <= i < j ==> RefreshTokenOf(es[i]).None?
  {
    if j == 0 then None
    else if RefreshTokenOf(es[j - 1]).Some? then Some(j - 1)
    else PreviousIssue(es, j - 1)
  }

  lemma {:induction false} PreviousIssueOfPrefix(es: seq<Event>, shorter: seq<Event>, j: nat)
    requires j <= |shorter| && shorter <= es
    ensures PreviousIssue(es, j) == PreviousIssue(shorter, j)
  {
    if j > 0 {
      PreviousIssueOfPrefix(es, shorter, j - 1);
    }
  }

  /** An instant that lies within the limits set by the first and by the latest refresh token. */
  predicate InTime(es: seq<Event>, j: nat, t: Time)
    requires j <= |es|
  {
    && |es| > 2 && IsRefresh(es[2])
    && t <= es[2].created + es[2].session.lifetime
    && PreviousIssue(es, j).Some?
    && var p := PreviousIssue(es, j).value; t <= es[p].created + es[p].session.idleLifetime
  }

  /** An open window has the absolute limit of the first refresh token and the idle limit of the latest. */
  predicate WindowIs(es: seq<Event>) {
    WindowOf(es).Until? ==>
      && |es| > 2 && IsRefresh(es[2]) && WindowOf(es).expiry == es[2].created + es[2].session.lifetime
      && PreviousIssue(es, |es|).Some?
      && var p := PreviousIssue(es, |es|).value; WindowOf(es).idle == es[p].created + es[p].session.idleLifetime
  }

  lemma {:induction false} WordWindow(es: seq<Event>)
    requires IsSessionWord(es)
    ensures WindowIs(es)
    decreases |es|
  {
    if es != [] {
      var init, more := WordSplit(es);
      WordWindow(init);
      if init == [] {
        assert es == more;
        BirthWindow(es);
      } else if |more| == 1 {
        assert es == init + [more[0]];
        WindowSnoc(init, more[0]);
      } else {
        assert es == init + [more[0]] + [more[1]];
        WindowSnoc(init, more[0]);
        WindowSnoc(init + [more[0]], more[1]);
      }
    }
  }

  lemma BirthWindow(es: seq<Event>)
    requires IsBirth(es)
    ensures WindowIs(es)
  {
    var one, two := es[..1], es[..2];
    assert one == [] + [es[0]] && two == one + [es[1]];
    SeenSnoc([], es[0]);
    SeenSnoc(one, es[1]);
    if |es| == 3 {
      assert es == two + [es[2]];
      SeenSnoc(two, es[2]);
    } else {
      assert es == two;
    }
  }

  lemma WindowSnoc(es: seq<Event>, e: Event)
    requires WindowIs(es) && !IsRefresh(e) && (IsRenewed(e) ==> WindowOf(es).Until?)
    ensures WindowIs(es + [e])
  {
    SeenSnoc(es, e);
    PreviousIssueOfPrefix(es + [e], es, |es|);
  }

  /** The window in terms of the events: set by the first refresh token, moved by the latest. */
  lemma WindowMeaning(es: seq<Event>, t: Time)
    requires IsSessionWord(es) && Within(WindowOf(es), t)
    ensures InTime(es, |es|, t)
    ensures WindowOf(es).expiry == es[2].created + es[2].session.lifetime
  {
    WordWindow(es);
  }

  /**
  Every renewal and every revocation of a refresh token lies within the lifetime of the first
  refresh token and within the idle lifetime of the latest one: renewals never move the first
  limit.
  */
  lemma {:induction false} AcceptedInTime(es: seq<Event>, j: nat)
    requires IsSessionWord(es) && j < |es| && (IsRenewed(es[j]) || IsRevoked(es[j]))
    ensures InTime(es, j, es[j].created)
    decreases |es|
  {
    var init, more := WordSplit(es);
    if j < |init| {
      AcceptedInTime(init, j);
      InTimeOfPrefix(es, init, j, es[j].created);
    } else if init != [] {
      AddedInTime(init, more, j - |init|);
    }
  }

  /** The step of AcceptedInTime for what the last command added. */
  lemma AddedInTime(init: seq<Event>, more: seq<Event>, k: nat)
    requires IsSessionWord(init) && IsContinuation(WindowOf(init), more) && k < |more| && (IsRenewed(more[k]) || IsRevoked(more[k]))
    ensures InTime(init + more, |init| + k, more[k].created)
  {
    WindowMeaning(init, more[k].created);
    InTimeOnward(init, more, k, more[k].created);
  }

  lemma InTimeOnward(init: seq<Event>, more: seq<Event>, k: nat, t: Time)
    requires InTime(init, |init|, t) && k < |more| && (k == 0 || (k == 1 && RefreshTokenOf(more[0]).None?))
    ensures InTime(init + more, |init| + k, t)
  {
    var es := init + more;
    InTimeOfPrefix(es, init, |init|, t);
    if k == 1 {
      assert es[|init|] == more[0];
      assert PreviousIssue(es, |init| + 1) == PreviousIssue(es, |init|);
    }
  }

  lemma InTimeOfPrefix(es: seq<Event>, prefix: seq<Event>, j: nat, t: Time)
    requires prefix <= es && j <= |prefix|
    ensures InTime(prefix, j, t) ==> InTime(es, j, t)
  {
    PreviousIssueOfPrefix(es, prefix, j);
  }

  /** Access tokens are minted with the session or inside the window of its refresh token. */
  lemma {:induction false} AccessTokensInTime(es: seq<Event>, j: nat)
    requires IsSessionWord(es) && j < |es| && IsAccess(es[j])
    ensures IsAdded(es[0])
    ensures es[j].created == es[0].created ||
            (|es| > 2 && IsRefresh(es[2]) && es[j].created <= es[2].created + es[2].session.lifetime)
    ensures j > 1 ==> |es| > 2 && IsRefresh(es[2])
    ensures |es| > 2 && IsRefresh(es[2]) ==> es[2].created == es[0].created
    decreases |es|
  {
    if !IsBirth(es) {
      var one := es[..|es| - 1];
      if IsSessionWord(one) && IsContinuation(WindowOf(one), es[|es| - 1..]) {
        AccessTokensInTime(one, j);
      } else {
        var two := es[..|es| - 2];
        assert IsContinuation(WindowOf(two), es[|es| - 2..]);
        assert es[|es| - 2..] == [es[|es| - 2], es[|es| - 1]];
        if j < |two| {
          AccessTokensInTime(two, j);
        } else {
          WindowMeaning(two, es[j].created);
          assert IsAccess(two[1]) by { SecondIsAccess(two); }
          AccessTokensInTime(two, 1);
        }
      }
    }
  }

  lemma {:induction false} SecondIsAccess(es: seq<Event>)
    requires IsSessionWord(es) && es != []
    ensures |es| >= 2 && IsAccess(es[1])
    decreases |es|
  {
    if !IsBirth(es) {
      if IsSessionWord(es[..|es| - 1]) {
        SecondIsAccess(es[..|es| - 1]);
      } else {
        SecondIsAccess(es[..|es| - 2]);
      }
    }
  }

  /**
  No access token of a session outlives the lifetime of its first refresh token by more than the
  largest access token lifetime; without a refresh token there is only the first access token.
  */
  lemma AccessTokenBound(es: seq<Event>, j: nat, largest: Duration)
    requires IsSessionWord(es) && j < |es| && IsAccess(es[j])
    requires forall e <- es :: IsAccess(e) ==> e.session.lifetime <= largest
    ensures IsAdded(es[0])
    ensures if |es| > 2 && IsRefresh(es[2]) then
              es[j].created + es[j].session.lifetime <= es[2].created + Max(0, es[2].session.lifetime) + largest
            else
              j == 1 && es[j].created == es[0].created
  {
    AccessTokensInTime(es, j);
    assert es[j] in es;
  }

  /** In every reachable store all ids stem from the generator and every session's log is a session word. */
  lemma ReachableSession(cfg: Config, s: Store, sid: string)
    requires Reachable(cfg, s)
    ensures AllIssued(s) && IsSessionWord(SessionLog(s.log, sid))
  {
    var start, cs :| Reaches(cfg, start, cs, s);
    SessionLogsAreWords(cfg, Start(start), cs, sid);
  }

  /** A refresh that is accepted happens within both limits. */
  lemma RefreshAcceptedInTime(cfg: Config, s: Store, c: Command)
    requires Reachable(cfg, s) && c.Refresh? && Decide(cfg, s, c).Ok?
    ensures var es := SessionLog(s.log, c.oidcSessionID); InTime(es, |es|, s.now)
  {
    ReachableSession(cfg, s, c.oidcSessionID);
    RefreshPushes(cfg, s, c);
    AcceptedIsWithin(s, c.oidcSessionID, c.oidcSessionID);
    WindowMeaning(SessionLog(s.log, c.oidcSessionID), s.now);
  }

  // ---------------------------------------------------------------- when a revocation fails

  /** The session exists and the client is in the audience that its first event grants. */
  predicate InAudience(log: seq<Event>, sid: string, client: string) {
    var es := SessionLog(log, sid);
    es != [] && IsAdded(es[0]) && client in es[0].session.grant.audience
  }

  lemma LoadedAudience(cfg: Config, s: Store, sid: string, client: string)
    requires Reachable(cfg, s)
    ensures Session.ClientChecked(Session.Load(s.log, sid), client).Ok? <==> InAudience(s.log, sid, client)
  {
    ReachableSession(cfg, s, sid);
    LoadIsSeen(s.log, sid);
    if SessionLog(s.log, sid) != [] {
      WordState(SessionLog(s.log, sid));
    }
  }

  /**
  After any run a revocation fails exactly for a well-formed token whose session does not exist or
  does not have the client in its audience; it is then the audience check that fails.
  */
  lemma RevocationFails(cfg: Config, s: Store, token: string, client: string)
    requires Reachable(cfg, s)
    ensures var parsed := TokenIDsFromToken(token);
            && (Decide(cfg, s, Revoke(token, client)).Err? <==> parsed.Ok? && !InAudience(s.log, parsed.value.oidcSessionID, client))
            && (Decide(cfg, s, Revoke(token, client)).Err? ==>
                  Decide(cfg, s, Revoke(token, client)) == Err(PreconditionFailed("OIDCS-SKjl3")))
  {
    if TokenIDsFromToken(token).Ok? {
      LoadedAudience(cfg, s, TokenIDsFromToken(token).value.oidcSessionID, client);
    }
  }

  /** So a well-formed token of no session is not ignored: here one is refused in the empty store. */
  lemma UnknownSessionIsRefused(cfg: Config, now: Time, client: string)
    ensures Decide(cfg, Start(now), Revoke("V2_1-at_1", client)) == Err(PreconditionFailed("OIDCS-SKjl3"))
  {
    assert Reaches(cfg, now, [], Start(now));
    assert PlainID("1");
    assert AccessTokenText("V2_1", ACCESS_TOKEN_PREFIX + "1") == "V2_1-at_1";
    AccessTokenRoundTrip("V2_1", "1");
    RevocationFails(cfg, Start(now), "V2_1-at_1", client);
  }

  /** A session without a current refresh token refuses every refresh. */
  lemma NothingToRefresh(cfg: Config, s: Store, c: Command)
    requires c.Refresh? && Session.Load(s.log, c.oidcSessionID).refreshTokenID == ""
    ensures Decide(cfg, s, c).Err?
  {
    if Decide(cfg, s, c).Ok? {
      RefreshedFrom(cfg, s, c);
    }
  }

  lemma RefreshedFrom(cfg: Config, s: Store, c: Command)
    requires c.Refresh? && Decide(cfg, s, c).Ok?
    ensures Session.Load(s.log, c.oidcSessionID).refreshTokenID != ""
  {
    ParsedIDsPrefixed(cfg.cipher.decrypt(c.token).value);
  }

  lemma NothingAdded(log: seq<Event>, more: seq<Event>, sid: string)
    requires SessionLog(log + more, sid) == SessionLog(log, sid)
    ensures SessionLog(more, sid) == []
  {
    FilterConcat(log, more, WholeOIDCSession(sid));
    assert |SessionLog(log + more, sid)| == |SessionLog(log, sid)| + |SessionLog(more, sid)|;
  }

  lemma RevokedRefusesRefresh(cfg: Config, s: Store, cs: seq<Command>, sid: string, i: nat, c: Command)
    requires Reachable(cfg, s) && Admissible(cfg, s, cs) && c.Refresh? && c.oidcSessionID == sid
    requires i < |SessionLog(s.log, sid)| && IsRevoked(SessionLog(s.log, sid)[i])
    ensures Decide(cfg, Exec(cfg, s, cs), c).Err?
  {
    ReachableSession(cfg, s, sid);
    RevocationIsFinal(cfg, s, cs, sid, i);
    NothingToRefresh(cfg, Exec(cfg, s, cs), c);
  }

  lemma LogAfterRevoke(cfg: Config, s: Store, c: Command)
    requires c.Revoke?
    ensures Next(cfg, s, c).log == s.log + Pushed(Decide(cfg, s, c)) && Fresh(s, c)
  {
  }

  lemma RevokedIgnoresRevocation(cfg: Config, s: Store, cs: seq<Command>, sid: string, i: nat, c: Command)
    requires Reachable(cfg, s) && Admissible(cfg, s, cs) && c.Revoke?
    requires i < |SessionLog(s.log, sid)| && IsRevoked(SessionLog(s.log, sid)[i])
    ensures SessionLog(Pushed(Decide(cfg, Exec(cfg, s, cs), c)), sid) == []
  {
    var later := Exec(cfg, s, cs);
    ReachableSession(cfg, s, sid);
    LogAfterRevoke(cfg, later, c);
    ExecSnoc(cfg, s, cs, c);
    RevocationIsFinal(cfg, s, cs, sid, i);
    RevocationIsFinal(cfg, s, cs + [c], sid, i);
    NothingAdded(later.log, Pushed(Decide(cfg, later, c)), sid);
  }

  /** Once a session's refresh token is revoked, every refresh of it is refused and no revocation pushes anything to it. */
  lemma RevokedIsRefused(cfg: Config, s: Store, cs: seq<Command>, sid: string, i: nat, c: Command)
    requires Reachable(cfg, s) && Admissible(cfg, s, cs)
    requires i < |SessionLog(s.log, sid)| && IsRevoked(SessionLog(s.log, sid)[i])
    ensures c.Refresh? && c.oidcSessionID == sid ==> Decide(cfg, Exec(cfg, s, cs), c).Err?
    ensures c.Revoke? ==> SessionLog(Pushed(Decide(cfg, Exec(cfg, s, cs), c)), sid) == []
  {
    if c.Refresh? && c.oidcSessionID == sid {
      RevokedRefusesRefresh(cfg, s, cs, sid, i, c);
    } else if c.Revoke? {
      RevokedIgnoresRevocation(cfg, s, cs, sid, i, c);
    }
  }
}
