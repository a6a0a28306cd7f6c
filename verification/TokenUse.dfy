/** Tokens that a command returns are accepted while their lifetimes last. */
module TokenUse {
  import opened Wrappers
  import opened EventLog
  import opened Tokens
  import opened OIDCFlow
  import opened OIDCSessionRuns
  import opened RefreshRotation
  import SessionPairing
  import Request = AuthRequestModel

  function Granted(cfg: Config, c: Command): Lifetimes
    requires c.Mint? || c.Refresh?
  {
    TokenLifetimes(cfg.defaults, c.settings)
  }

  /** A mint that succeeds pushes the one batch. */
  lemma MintedBatch(cfg: Config, s: Store, c: Command)
    requires c.Mint? && Decide(cfg, s, c).Ok?
    ensures Next(cfg, s, c).log ==
            s.log + MintBatch(Request.Load(s.log, c.requestID), c.requestID, c.login, Granted(cfg, c), s.now,
                              c.newSession, c.newAccess, c.newRefresh)
    ensures Next(cfg, s, c).now == s.now
    ensures Request.Load(s.log, c.requestID).sessionID != ""
  {
  }

  lemma WindowOfBirth(es: seq<Event>)
    requires IsBirth(es) && |es| == 3
    ensures WindowOf(es) == Until(es[2].created + es[2].session.lifetime, es[2].created + es[2].session.idleLifetime)
  {
  }

  /** In a log that ends with the birth of a session and a success, the session's refresh token is the current one. */
  lemma BornCurrent(before: seq<Event>, birth: seq<Event>, last: Event, s: Store, sid: string)
    requires s.log == before + birth + [last] && SessionLog(before, sid) == []
    requires IsBirth(birth) && |birth| == 3 && AllOf(birth, sid) && last.AuthRequestEvent?
    requires s.now <= birth[2].created + birth[2].session.lifetime && s.now <= birth[2].created + birth[2].session.idleLifetime
    ensures s.log[|s.log| - 2] == birth[2] && IsCurrent(s, |s.log| - 2)
  {
    SessionPairing.MintedSession(Store(before, s.now, s.used), birth, last, sid);
    WindowOfBirth(birth);
    assert s.log[|s.log| - 1] == last;
  }

  /**
  The refresh token that a mint returns refreshes its session after any wait that stays within
  both of its lifetimes.
  */
  lemma MintedTokenRefreshes(cfg: Config, s: Store, mint: Command, wait: nat, refresh: Command, userID: string)
    requires Reachable(cfg, s) && Fresh(s, mint)
    requires mint.Mint? && mint.newRefresh.Some? && Decide(cfg, s, mint).Ok?
    requires wait <= Granted(cfg, mint).refresh && wait <= Granted(cfg, mint).refreshIdle
    requires refresh.Refresh? && refresh.oidcSessionID == ID_PREFIX_V2 + mint.newSession
    requires Carries(cfg.cipher, refresh.token, RefreshTokenText(ID_PREFIX_V2 + mint.newSession, REFRESH_TOKEN_PREFIX + mint.newRefresh.value, userID))
    ensures Decide(cfg, Next(cfg, Next(cfg, s, mint), Wait(wait)), refresh).Ok?
  {
    var minted := Next(cfg, s, mint);
    var waited := Next(cfg, minted, Wait(wait));
    MintedBatch(cfg, s, mint);
    Waited(cfg, minted, wait);
    MintedIsCurrent(cfg, s, mint, waited);
    ReachableNext(cfg, s, mint);
    ReachableNext(cfg, minted, Wait(wait));
    RefreshesIffCurrent(cfg, waited, |waited.log| - 2, userID, refresh);
  }

  /** The four events of a mint with a refresh token: the birth of the session and the success. */
  lemma EventsOfMint(v: Request.View, c: Command, lifetimes: Lifetimes, now: Time) returns (es: seq<Event>)
    requires c.Mint? && c.newRefresh.Some? && v.sessionID != ""
    ensures es == MintBatch(v, c.requestID, c.login, lifetimes, now, c.newSession, c.newAccess, c.newRefresh)
    ensures |es| == 4 && es[3].AuthRequestEvent? && IsBirth(es[..3]) && AllOf(es[..3], ID_PREFIX_V2 + c.newSession)
    ensures es[2] == OIDCSessionEvent(ID_PREFIX_V2 + c.newSession, now,
                                      RefreshTokenAdded(REFRESH_TOKEN_PREFIX + c.newRefresh.value, lifetimes.refresh, lifetimes.refreshIdle))
  {
    es := MintBatch(v, c.requestID, c.login, lifetimes, now, c.newSession, c.newAccess, c.newRefresh);
  }

  lemma MintedIsCurrent(cfg: Config, s: Store, mint: Command, later: Store)
    requires Reachable(cfg, s) && Fresh(s, mint) && mint.Mint? && mint.newRefresh.Some?
    requires Request.Load(s.log, mint.requestID).sessionID != ""
    requires later.log == s.log + MintBatch(Request.Load(s.log, mint.requestID), mint.requestID, mint.login, Granted(cfg, mint), s.now,
                                            mint.newSession, mint.newAccess, mint.newRefresh)
    requires later.now <= s.now + Granted(cfg, mint).refresh && later.now <= s.now + Granted(cfg, mint).refreshIdle
    ensures |later.log| >= 2 && IsCurrent(later, |later.log| - 2)
    ensures var e := later.log[|later.log| - 2];
            e.id == ID_PREFIX_V2 + mint.newSession && RefreshTokenOf(e) == Some(REFRESH_TOKEN_PREFIX + mint.newRefresh.value)
  {
    var es := EventsOfMint(Request.Load(s.log, mint.requestID), mint, Granted(cfg, mint), s.now);
    ReachableSession(cfg, s, "");
    NewSessionIsEmpty(s, mint);
    assert later.log == s.log + es[..3] + [es[3]];
    BornCurrent(s.log, es[..3], es[3], later, ID_PREFIX_V2 + mint.newSession);
  }

  /** A refresh that succeeds pushes its batch, having found the window open. */
  lemma RefreshedBatch(cfg: Config, s: Store, c: Command)
    requires c.Refresh? && Decide(cfg, s, c).Ok?
    ensures Next(cfg, s, c).log == s.log + RefreshBatch(s.now, c.oidcSessionID, c.scope, Granted(cfg, c), c.newAccess, c.renewed)
    ensures Next(cfg, s, c).now == s.now
  {
  }

  /** After a refresh the window of the session has the old absolute limit and a new idle limit. */
  lemma RenewedIsCurrent(before: seq<Event>, sid: string, access: Event, renewed: Event, s: Store)
    requires s.log == before + [access] + [renewed] && WindowOf(SessionLog(before, sid)).Until?
    requires IsAccess(access) && access.id == sid && IsRenewed(renewed) && renewed.id == sid
    requires s.now <= WindowOf(SessionLog(before, sid)).expiry && s.now <= renewed.created + renewed.session.idleLifetime
    ensures s.log[|s.log| - 1] == renewed && IsCurrent(s, |s.log| - 1)
  {
    var q := WholeOIDCSession(sid);
    FilterSnoc(before, access, q);
    FilterSnoc(before + [access], renewed, q);
    SeenSnoc(SessionLog(before, sid), access);
    SeenSnoc(SessionLog(before, sid) + [access], renewed);
  }

  /**
  The refresh token that a refresh returns refreshes the session again after any wait that stays
  within its idle lifetime and within the absolute limit of the session.
  */
  lemma RenewedTokenRefreshes(cfg: Config, s: Store, first: Command, wait: nat, second: Command, userID: string)
    requires Reachable(cfg, s) && Fresh(s, first)
    requires first.Refresh? && Decide(cfg, s, first).Ok?
    requires wait <= Granted(cfg, first).refreshIdle
    requires var w := WindowOf(SessionLog(s.log, first.oidcSessionID)); w.Until? ==> s.now + wait <= w.expiry
    requires second.Refresh? && second.oidcSessionID == first.oidcSessionID
    requires Carries(cfg.cipher, second.token, RefreshTokenText(first.oidcSessionID, REFRESH_TOKEN_PREFIX + first.renewed, userID))
    ensures Decide(cfg, Next(cfg, Next(cfg, s, first), Wait(wait)), second).Ok?
  {
    var refreshed := Next(cfg, s, first);
    var waited := Next(cfg, refreshed, Wait(wait));
    RefreshedBatch(cfg, s, first);
    Waited(cfg, refreshed, wait);
    ReachableSession(cfg, s, first.oidcSessionID);
    RefreshIsWithin(cfg, s, first);
    var es := RefreshBatch(s.now, first.oidcSessionID, first.scope, Granted(cfg, first), first.newAccess, first.renewed);
    assert waited.log == s.log + [es[0]] + [es[1]];
    RenewedIsCurrent(s.log, first.oidcSessionID, es[0], es[1], waited);
    ReachableNext(cfg, s, first);
    ReachableNext(cfg, refreshed, Wait(wait));
    RefreshesIffCurrent(cfg, waited, |waited.log| - 1, userID, second);
  }
}
