/** The timed language of OIDC session logs is exact: every word of it is the log of some run. */
module OIDCSessionLanguage {
  import opened Wrappers
  import opened EventLog
  import opened Tokens
  import opened OIDCFlow
  import opened OIDCSessionRuns
  import opened AuthRequestLanguage
  import AuthRequestRuns
  import RefreshRotation
  import Request = AuthRequestModel
  import Session = OIDCSessionModel

  predicate IsToken(e: Event) {
    IsAccess(e) || RefreshTokenOf(e).Some?
  }

  function PrefixOf(e: Event): string {
    if IsAccess(e) then ACCESS_TOKEN_PREFIX else REFRESH_TOKEN_PREFIX
  }

  /** The generated part of a token id. */
  function Tail(e: Event): string
    requires IsToken(e)
  {
    if PrefixOf(e) <= e.session.tokenID then e.session.tokenID[3..] else ""
  }

  predicate HasGeneratedID(e: Event, g: string) {
    IsToken(e) ==> PrefixOf(e) <= e.session.tokenID && PlainID(Tail(e)) && Tail(e) != g
  }

  /** All token ids are generated, none twice, and none is the id of the session. */
  predicate HasGeneratedIDs(w: seq<Event>, g: string) {
    && (forall i :: 0 <= i < |w| ==> HasGeneratedID(w[i], g))
    && (forall i, j :: 0 <= i < j < |w| && IsToken(w[i]) && IsToken(w[j]) ==> Tail(w[i]) != Tail(w[j]))
  }

  /** A lifetime is positive or the default, since only positive settings override it. */
  predicate Grantable(default_: Duration, lifetime: Duration) {
    lifetime > 0 || lifetime == default_
  }

  predicate HasGrantableLifetimes(d: Lifetimes, e: Event) {
    && (IsAccess(e) ==> Grantable(d.access, e.session.lifetime))
    && (IsRefresh(e) ==> Grantable(d.refresh, e.session.lifetime) && Grantable(d.refreshIdle, e.session.idleLifetime))
    && (IsRenewed(e) ==> Grantable(d.refreshIdle, e.session.idleLifetime))
  }

  predicate AreGrantable(d: Lifetimes, w: seq<Event>) {
    forall i :: 0 <= i < |w| ==> HasGrantableLifetimes(d, w[i])
  }

  /** A session word with dates in order, ids from the generator and lifetimes that the settings can give. */
  predicate IsSessionLog(cfg: Config, g: string, w: seq<Event>) {
    && IsSessionWord(w) && AllOf(w, ID_PREFIX_V2 + g) && Chronological(w)
    && HasGeneratedIDs(w, g) && AreGrantable(cfg.defaults, w)
  }

  // ---------------------------------------------------------------- logs of runs are such words

  function Tails(w: seq<Event>): set<string> {
    set i | 0 <= i < |w| && IsToken(w[i]) :: Tail(w[i])
  }

  lemma IDsConcat(a: seq<Event>, b: seq<Event>, g: string)
    requires HasGeneratedIDs(a, g) && HasGeneratedIDs(b, g) && Tails(a) !! Tails(b)
    ensures HasGeneratedIDs(a + b, g)
  {
    var w := a + b;
    forall i, j | 0 <= i < j < |w| && IsToken(w[i]) && IsToken(w[j])
      ensures Tail(w[i]) != Tail(w[j])
    {
      if i < |a| <= j {
        assert Tail(a[i]) in Tails(a) && Tail(b[j - |a|]) in Tails(b);
      }
    }
  }

  lemma TailsOfIssued(s: Store, w: seq<Event>)
    requires forall e <- w :: EventIssued(s.used, e)
    ensures Tails(w) <= s.used
  {
    forall i | 0 <= i < |w| && IsToken(w[i])
      ensures Tail(w[i]) in s.used
    {
      assert w[i] in w;
    }
  }

  lemma IDsOfBirth(w: seq<Event>, g: string, access: string, refresh: Option<string>)
    requires IsBirth(w) && w[1].session.tokenID == ACCESS_TOKEN_PREFIX + access
    requires |w| == 3 ==> refresh.Some? && w[2].session.tokenID == REFRESH_TOKEN_PREFIX + refresh.value
    requires PlainID(access) && access != g && (refresh.Some? ==> PlainID(refresh.value) && refresh.value != g && refresh.value != access)
    ensures HasGeneratedIDs(w, g)
    ensures Tails(w) <= {access} + if refresh.Some? then {refresh.value} else {}
  {
    assert Tail(w[1]) == access;
    assert |w| == 3 ==> Tail(w[2]) == refresh.value;
  }

  /** The ids in what a command pushes to a session have been generated for it. */
  lemma MintedIDs(cfg: Config, s: Store, c: Command)
    requires c.Mint? && Fresh(s, c) && Pushed(Decide(cfg, s, c)) != []
    ensures var es := Pushed(Decide(cfg, s, c));
            var birth := es[..|es| - 1];
            HasGeneratedIDs(birth, c.newSession) && Tails(birth) <= (set id <- Generated(c))
  {
    MintPushes(cfg, s, c);
    GeneratedByMint(s, c);
    var es := Pushed(Decide(cfg, s, c));
    IDsOfBirth(es[..|es| - 1], c.newSession, c.newAccess, c.newRefresh);
  }

  lemma GeneratedByMint(s: Store, c: Command)
    requires c.Mint? && Fresh(s, c)
    ensures PlainID(c.newAccess) && c.newAccess != c.newSession
    ensures c.newRefresh.Some? ==>
              PlainID(c.newRefresh.value) && c.newRefresh.value != c.newSession && c.newRefresh.value != c.newAccess
    ensures {c.newAccess} + (if c.newRefresh.Some? then {c.newRefresh.value} else {}) <= (set id <- Generated(c))
  {
    var ids := Generated(c);
    assert ids[0] == c.newSession && ids[1] == c.newAccess;
    assert c.newRefresh.Some? ==> ids[2] == c.newRefresh.value;
  }

  lemma RefreshedIDs(cfg: Config, s: Store, c: Command, g: string)
    requires c.Refresh? && Fresh(s, c) && Pushed(Decide(cfg, s, c)) != [] && g in s.used
    ensures HasGeneratedIDs(Pushed(Decide(cfg, s, c)), g) && Tails(Pushed(Decide(cfg, s, c))) <= (set id <- Generated(c))
  {
    var ids := Generated(c);
    RefreshPushes(cfg, s, c);
    assert ids[0] == c.newAccess && ids[1] == c.renewed;
  }

  lemma NoTokens(w: seq<Event>, g: string)
    requires forall i :: 0 <= i < |w| ==> !IsToken(w[i])
    ensures HasGeneratedIDs(w, g) && Tails(w) == {}
  {
  }

  /** Ids that no earlier event has. */
  predicate AreNewIDs(s: Store, more: seq<Event>, g: string) {
    HasGeneratedIDs(more, g) && Tails(more) !! s.used
  }

  lemma MintedNewIDs(cfg: Config, s: Store, c: Command, g: string)
    requires c.Mint? && Fresh(s, c) && Pushed(Decide(cfg, s, c)) != []
    ensures AreNewIDs(s, SessionLog(Pushed(Decide(cfg, s, c)), ID_PREFIX_V2 + g), g)
  {
    var es, sid := Pushed(Decide(cfg, s, c)), ID_PREFIX_V2 + g;
    MintPushes(cfg, s, c);
    BatchOfSession(es[..|es| - 1], es[|es| - 1], ID_PREFIX_V2 + c.newSession, sid);
    assert es == es[..|es| - 1] + [es[|es| - 1]];
    MintedIDs(cfg, s, c);
    NoTokens([], g);
    assert sid[|ID_PREFIX_V2|..] == g && (ID_PREFIX_V2 + c.newSession)[|ID_PREFIX_V2|..] == c.newSession;
  }

  lemma RefreshedNewIDs(cfg: Config, s: Store, c: Command, g: string)
    requires c.Refresh? && AllIssued(s) && Fresh(s, c) && Pushed(Decide(cfg, s, c)) != []
    ensures AreNewIDs(s, SessionLog(Pushed(Decide(cfg, s, c)), ID_PREFIX_V2 + g), g)
  {
    RefreshPushes(cfg, s, c);
    FilterAll(Pushed(Decide(cfg, s, c)), c.oidcSessionID, ID_PREFIX_V2 + g);
    NoTokens([], g);
    if c.oidcSessionID == ID_PREFIX_V2 + g {
      SessionIDIsUsed(s, g);
      RefreshedIDs(cfg, s, c, g);
    }
  }

  lemma RevokedNewIDs(cfg: Config, s: Store, c: Command, g: string)
    requires c.Revoke? && Pushed(Decide(cfg, s, c)) != []
    ensures AreNewIDs(s, SessionLog(Pushed(Decide(cfg, s, c)), ID_PREFIX_V2 + g), g)
  {
    RevokePushes(cfg, s, c);
    RevokingBatch(s, Pushed(Decide(cfg, s, c)), g);
  }

  lemma RevokingBatch(s: Store, es: seq<Event>, g: string)
    requires |es| == 1 && (IsRevoked(es[0]) || IsAccessRevoked(es[0]))
    ensures AreNewIDs(s, SessionLog(es, ID_PREFIX_V2 + g), g)
  {
    FilterAll(es, es[0].id, ID_PREFIX_V2 + g);
    NoTokens(SessionLog(es, ID_PREFIX_V2 + g), g);
  }

  lemma PushedIDs(cfg: Config, s: Store, c: Command, g: string)
    requires AllIssued(s) && Fresh(s, c)
    ensures AreNewIDs(s, SessionLog(Pushed(Decide(cfg, s, c)), ID_PREFIX_V2 + g), g)
  {
    var es := Pushed(Decide(cfg, s, c));
    if es == [] {
      NoTokens([], g);
    } else if c.Mint? {
      MintedNewIDs(cfg, s, c, g);
    } else if c.Refresh? {
      RefreshedNewIDs(cfg, s, c, g);
    } else if c.Revoke? {
      RevokedNewIDs(cfg, s, c, g);
    } else {
      OthersPushNothing(cfg, s, c);
      AuthRequestRuns.FilterNone(es, WholeOIDCSession(ID_PREFIX_V2 + g));
      NoTokens([], g);
    }
  }

  lemma SessionIDIsUsed(s: Store, g: string)
    requires AllIssued(s) && Session.Load(s.log, ID_PREFIX_V2 + g).state.SessionActive?
    ensures g in s.used
  {
    var k := ActiveHasEvents(s.log, ID_PREFIX_V2 + g);
    assert EventIssued(s.used, s.log[k]);
    assert (ID_PREFIX_V2 + g)[|ID_PREFIX_V2|..] == g;
  }

  lemma PushedLifetimes(cfg: Config, s: Store, c: Command)
    ensures AreGrantable(cfg.defaults, Pushed(Decide(cfg, s, c)))
  {
  }

  lemma {:induction false} FilterKeepsGrantable(d: Lifetimes, es: seq<Event>, q: Query)
    requires AreGrantable(d, es)
    ensures AreGrantable(d, Filter(es, q))
  {
    if es != [] {
      FilterKeepsGrantable(d, es[..|es| - 1], q);
    }
  }

  /** What a run keeps of the log of a session besides its being a word. */
  predicate IDsAndLifetimes(cfg: Config, s: Store, g: string) {
    var w := SessionLog(s.log, ID_PREFIX_V2 + g);
    HasGeneratedIDs(w, g) && AreGrantable(cfg.defaults, w)
  }

  lemma IDsAndLifetimesKept(cfg: Config, s: Store, c: Command, g: string)
    requires AllIssued(s) && Fresh(s, c) && IsSessionWord(SessionLog(s.log, ID_PREFIX_V2 + g)) && IDsAndLifetimes(cfg, s, g)
    ensures IDsAndLifetimes(cfg, Next(cfg, s, c), g)
  {
    var es, sid := Pushed(Decide(cfg, s, c)), ID_PREFIX_V2 + g;
    var w, more := SessionLog(s.log, sid), SessionLog(es, sid);
    FilterConcat(s.log, es, WholeOIDCSession(sid));
    PushedIDs(cfg, s, c, g);
    FilterMatches(s.log, WholeOIDCSession(sid));
    forall e | e in w
      ensures EventIssued(s.used, e)
    {
      assert e in s.log;
    }
    TailsOfIssued(s, w);
    IDsConcat(w, more, g);
    PushedLifetimes(cfg, s, c);
    FilterKeepsGrantable(cfg.defaults, es, WholeOIDCSession(sid));
  }

  lemma {:induction false} RunsGiveSessionLogs(cfg: Config, start: Time, cs: seq<Command>, g: string)
    requires Admissible(cfg, Start(start), cs)
    ensures IDsAndLifetimes(cfg, Exec(cfg, Start(start), cs), g)
  {
    if cs != [] {
      var before := Exec(cfg, Start(start), cs[..|cs| - 1]);
      RunsGiveSessionLogs(cfg, start, cs[..|cs| - 1], g);
      SessionLogsAreWords(cfg, Start(start), cs[..|cs| - 1], ID_PREFIX_V2 + g);
      IDsAndLifetimesKept(cfg, before, cs[|cs| - 1], g);
    }
  }

  lemma ProjectionIsOfSession(es: seq<Event>, sid: string)
    ensures AllOf(SessionLog(es, sid), sid)
  {
    var w := SessionLog(es, sid);
    FilterMatches(es, WholeOIDCSession(sid));
    forall i | 0 <= i < |w|
      ensures Matches(WholeOIDCSession(sid), w[i])
    {
      assert w[i] in w;
    }
  }

  // ---------------------------------------------------------------- every such word occurs

  /**
  A run has left the word as the log of the session, its last event has just been pushed, and it
  has used no ids but the session's, those of the word's tokens and one for an auth request.
  */
  ghost predicate Left(cfg: Config, s: Store, g: string, other: string, w: seq<Event>) {
    && Reachable(cfg, s) && SessionLog(s.log, ID_PREFIX_V2 + g) == w
    && w != [] && s.now == w[|w| - 1].created && s.used <= {g, other} + Tails(w)
  }

  /** What a wait and then a command that pushes to the session leave. */
  lemma LeftAfter(cfg: Config, s: Store, s': Store, g: string, other: string, w: seq<Event>, pushed: seq<Event>, more: seq<Event>)
    requires Left(cfg, s, g, other, w) && Reachable(cfg, s') && s'.log == s.log + pushed
    requires SessionLog(pushed, ID_PREFIX_V2 + g) == more && more != [] && s'.now == more[|more| - 1].created
    requires s'.used <= s.used + Tails(more)
    ensures Left(cfg, s', g, other, w + more)
  {
    FilterConcat(s.log, pushed, WholeOIDCSession(ID_PREFIX_V2 + g));
    TailsConcat(w, more);
  }

  lemma NextOf(cfg: Config, s: Store, c: Command, es: seq<Event>)
    requires Decide(cfg, s, c) == Ok(es) && !c.Wait?
    ensures Next(cfg, s, c) == Store(s.log + es, s.now, s.used + set id <- Generated(c))
  {
  }

  /** Where a wait and a command that pushes the events lead. */
  lemma WaitAndRun(cfg: Config, s: Store, waited: Store, c: Command, es: seq<Event>) returns (cs: seq<Command>, after: Store)
    requires Reachable(cfg, s) && !c.Wait? && s.now <= waited.now && waited == Store(s.log, waited.now, s.used)
    requires Fresh(waited, c) && Decide(cfg, waited, c) == Ok(es)
    ensures Admissible(cfg, s, cs) && Exec(cfg, s, cs) == after && Reachable(cfg, after)
    ensures after == Store(s.log + es, waited.now, s.used + set id <- Generated(c))
  {
    var wait := Waiting(cfg, s, waited);
    cs, after := [wait, c], Next(cfg, waited, c);
    TwoCommands(cfg, s, wait, c);
    ReachableNext(cfg, waited, c);
    NextOf(cfg, waited, c, es);
  }

  lemma Waiting(cfg: Config, s: Store, waited: Store) returns (wait: Command)
    requires Reachable(cfg, s) && s.now <= waited.now && waited == Store(s.log, waited.now, s.used)
    ensures Fresh(s, wait) && Next(cfg, s, wait) == waited && Reachable(cfg, waited)
  {
    wait := Wait(waited.now - s.now);
    Waited(cfg, s, waited.now - s.now);
    ReachableNext(cfg, s, wait);
  }

  lemma TailsConcat(a: seq<Event>, b: seq<Event>)
    ensures Tails(a + b) == Tails(a) + Tails(b)
  {
    var w := a + b;
    forall t | t in Tails(a) + Tails(b)
      ensures t in Tails(w)
    {
      if t in Tails(a) {
        var i :| 0 <= i < |a| && IsToken(a[i]) && Tail(a[i]) == t;
        assert w[i] == a[i];
      } else {
        var i :| 0 <= i < |b| && IsToken(b[i]) && Tail(b[i]) == t;
        assert w[|a| + i] == b[i];
      }
    }
  }

  // ------------------------------------------------------------ a revocation

  /** A token text of the session's current refresh or access token, with the audience's client, revokes that token. */
  lemma RevocationOfRefresh(cfg: Config, s: Store, sid: string, generated: string, client: string)
    requires PlainID(sid) && PlainID(generated)
    requires var v := Session.Load(s.log, sid);
             client in v.grant.audience && Session.CheckRefreshToken(v, REFRESH_TOKEN_PREFIX + generated, s.now).Ok?
    ensures Decide(cfg, s, Revoke(AccessTokenText(sid, REFRESH_TOKEN_PREFIX + generated), client))
            == Ok([OIDCSessionEvent(sid, s.now, RefreshTokenRevoked)])
  {
    PlainRefreshTokenRoundTrip(sid, generated);
  }

  lemma RevocationOfAccess(cfg: Config, s: Store, sid: string, generated: string, client: string)
    requires PlainID(sid) && PlainID(generated)
    requires var v := Session.Load(s.log, sid);
             client in v.grant.audience && Session.CheckAccessToken(v, ACCESS_TOKEN_PREFIX + generated, s.now).Ok?
    ensures Decide(cfg, s, Revoke(AccessTokenText(sid, ACCESS_TOKEN_PREFIX + generated), client))
            == Ok([OIDCSessionEvent(sid, s.now, AccessTokenRevoked)])
  {
    AccessTokenRoundTrip(sid, generated);
  }

  /** What the word says of the loaded session: its tokens pass their checks as long as the word allows. */
  lemma LoadedTokens(s: Store, g: string, w: seq<Event>)
    requires SessionLog(s.log, ID_PREFIX_V2 + g) == w && IsSessionWord(w) && w != [] && HasGeneratedIDs(w, g) && !WindowOf(w).Closed?
    ensures LastAccess(w).Some? && LastAccess(w).value.session.tokenID == ACCESS_TOKEN_PREFIX + Tail(LastAccess(w).value)
    ensures PlainID(Tail(LastAccess(w).value))
    ensures var v, a := Session.Load(s.log, ID_PREFIX_V2 + g), LastAccess(w).value;
            && IsAdded(w[0]) && v.grant == w[0].session.grant
            && (s.now <= a.created + a.session.lifetime ==> Session.CheckAccessToken(v, a.session.tokenID, s.now).Ok?)
            && (WindowOf(w).Until? ==>
                  && LastRefresh(w).Some?
                  && var r := LastRefresh(w).value;
                  && r.session.tokenID == REFRESH_TOKEN_PREFIX + Tail(r) && PlainID(Tail(r))
                  && (Within(WindowOf(w), s.now) ==> Session.CheckRefreshToken(v, r.session.tokenID, s.now).Ok?))
  {
    LoadIsSeen(s.log, ID_PREFIX_V2 + g);
    WordState(w);
    LastIsGenerated(w, g, LastAccess(w).value);
    if WindowOf(w).Until? {
      LastIsGenerated(w, g, LastRefresh(w).value);
    }
  }

  /** Some client revokes with the text of the word's last token, and exactly the revoking event is pushed. */
  lemma RevocationPushes(cfg: Config, s: Store, g: string, w: seq<Event>, e: Event) returns (c: Command)
    requires PlainID(g) && SessionLog(s.log, ID_PREFIX_V2 + g) == w && IsSessionWord(w) && w != []
    requires HasGeneratedIDs(w, g) && e.OIDCSessionEvent? && e.id == ID_PREFIX_V2 + g && e.created == s.now && Extends(w, [e])
    ensures c.Revoke? && Decide(cfg, s, c) == Ok([e])
  {
    assert [e][0] == e;
    assert PlainID(ID_PREFIX_V2 + g);
    LoadedTokens(s, g, w);
    var client := w[0].session.grant.audience[0];
    if IsRevoked(e) {
      var generated := Tail(LastRefresh(w).value);
      RevocationOfRefresh(cfg, s, e.id, generated, client);
      c := Revoke(AccessTokenText(e.id, REFRESH_TOKEN_PREFIX + generated), client);
    } else {
      var generated := Tail(LastAccess(w).value);
      RevocationOfAccess(cfg, s, e.id, generated, client);
      c := Revoke(AccessTokenText(e.id, ACCESS_TOKEN_PREFIX + generated), client);
    }
  }

  lemma LastIsGenerated(w: seq<Event>, g: string, t: Event)
    requires HasGeneratedIDs(w, g) && t in w && IsToken(t)
    ensures t.session.tokenID == PrefixOf(t) + Tail(t) && PlainID(Tail(t))
  {
    var i :| 0 <= i < |w| && w[i] == t;
    assert HasGeneratedID(w[i], g);
  }

  lemma RevokeNext(cfg: Config, s: Store, g: string, other: string, w: seq<Event>, e: Event) returns (more: seq<Command>)
    requires PlainID(g) && Left(cfg, s, g, other, w) && IsSessionWord(w) && HasGeneratedIDs(w, g)
    requires e.OIDCSessionEvent? && e.id == ID_PREFIX_V2 + g && s.now <= e.created && Extends(w, [e])
    ensures Admissible(cfg, s, more) && Left(cfg, Exec(cfg, s, more), g, other, w + [e])
  {
    var waited := Store(s.log, e.created, s.used);
    var c := RevocationPushes(cfg, waited, g, w, e);
    NothingGenerated(waited, c);
    var cs, after := WaitAndRun(cfg, s, waited, c, [e]);
    more := cs;
    PushedOne(cfg, s, after, g, other, w, e);
  }

  lemma NothingGenerated(s: Store, c: Command)
    requires c.Revoke?
    ensures Fresh(s, c) && (set id <- Generated(c)) == {}
  {
  }

  lemma PushedOne(cfg: Config, s: Store, after: Store, g: string, other: string, w: seq<Event>, e: Event)
    requires Left(cfg, s, g, other, w) && Reachable(cfg, after) && after.log == s.log + [e] && after.now == e.created
    requires after.used <= s.used && e.OIDCSessionEvent? && e.id == ID_PREFIX_V2 + g
    ensures Left(cfg, after, g, other, w + [e])
  {
    FilterAll([e], e.id, e.id);
    LeftAfter(cfg, s, after, g, other, w, [e], [e]);
  }

  // ------------------------------------------------------------ a refresh

  function RefreshFor(cfg: Config, w: seq<Event>, access: Event, renewed: Event): Command
    requires LastRefresh(w).Some? && IsAccess(access) && IsRenewed(renewed)
  {
    Refresh(access.id, cfg.cipher.encrypt(RefreshTokenText(access.id, LastRefresh(w).value.session.tokenID, "")),
            access.session.tokenScope, Lifetimes(access.session.lifetime, 0, renewed.session.idleLifetime),
            Tail(access), Tail(renewed))
  }

  lemma GrantedLifetimes(d: Lifetimes, l: Lifetimes)
    ensures Grantable(d.access, l.access) ==> TokenLifetimes(d, l).access == l.access
    ensures Grantable(d.refresh, l.refresh) ==> TokenLifetimes(d, l).refresh == l.refresh
    ensures Grantable(d.refreshIdle, l.refreshIdle) ==> TokenLifetimes(d, l).refreshIdle == l.refreshIdle
  {
  }

  predicate IsRefreshPair(g: string, access: Event, renewed: Event) {
    && IsAccess(access) && IsRenewed(renewed) && access.id == renewed.id == ID_PREFIX_V2 + g && access.created == renewed.created
  }

  lemma RefreshPairPushed(cfg: Config, s: Store, g: string, w: seq<Event>, access: Event, renewed: Event)
    requires Inverse(cfg.cipher) && PlainID(g) && SessionLog(s.log, ID_PREFIX_V2 + g) == w && IsSessionWord(w) && w != []
    requires HasGeneratedIDs(w, g) && HasGeneratedIDs([access, renewed], g) && AreGrantable(cfg.defaults, [access, renewed])
    requires IsRefreshPair(g, access, renewed) && access.created == s.now && Within(WindowOf(w), s.now)
    ensures LastRefresh(w).Some?
    ensures Decide(cfg, s, RefreshFor(cfg, w, access, renewed)) == Ok([access, renewed])
  {
    LoadedTokens(s, g, w);
    var t, c, pair := LastRefresh(w).value, RefreshFor(cfg, w, access, renewed), [access, renewed];
    assert pair[0] == access && pair[1] == renewed;
    LastIsGenerated(pair, g, access);
    LastIsGenerated(pair, g, renewed);
    EncryptedCarries(cfg.cipher, RefreshTokenText(access.id, t.session.tokenID, ""));
    assert PlainID(ID_PREFIX_V2 + g);
    RefreshRotation.RefreshOfIssued(cfg, s, c, access.id, Tail(t), "");
    RefreshBatchIs(cfg, s, c, access, renewed);
  }

  lemma RefreshBatchIs(cfg: Config, s: Store, c: Command, access: Event, renewed: Event)
    requires c.Refresh? && Decide(cfg, s, c).Ok? && IsAccess(access) && IsRenewed(renewed)
    requires access.id == renewed.id == c.oidcSessionID && access.created == renewed.created == s.now
    requires access.session.tokenID == ACCESS_TOKEN_PREFIX + c.newAccess && renewed.session.tokenID == REFRESH_TOKEN_PREFIX + c.renewed
    requires access.session.tokenScope == c.scope
    requires c.settings.access == access.session.lifetime && c.settings.refreshIdle == renewed.session.idleLifetime
    requires Grantable(cfg.defaults.access, access.session.lifetime) && Grantable(cfg.defaults.refreshIdle, renewed.session.idleLifetime)
    ensures Decide(cfg, s, c) == Ok([access, renewed])
  {
    GrantedLifetimes(cfg.defaults, c.settings);
    assert RefreshBatch(s.now, c.oidcSessionID, c.scope, TokenLifetimes(cfg.defaults, c.settings), c.newAccess, c.renewed) == [access, renewed];
  }

  lemma RefreshNext(cfg: Config, s: Store, g: string, other: string, w: seq<Event>, access: Event, renewed: Event)
    returns (more: seq<Command>)
    requires Inverse(cfg.cipher) && PlainID(g) && Left(cfg, s, g, other, w) && IsSessionWord(w) && HasGeneratedIDs(w, g)
    requires HasGeneratedIDs(w + [access, renewed], g) && AreGrantable(cfg.defaults, [access, renewed])
    requires other !in Tails([access, renewed])
    requires IsRefreshPair(g, access, renewed) && s.now <= access.created && Within(WindowOf(w), access.created)
    ensures Admissible(cfg, s, more) && Left(cfg, Exec(cfg, s, more), g, other, w + [access, renewed])
  {
    var waited, pair := Store(s.log, access.created, s.used), [access, renewed];
    IDsOfSuffix(w, pair, g);
    RefreshPairPushed(cfg, waited, g, w, access, renewed);
    var c := RefreshFor(cfg, w, access, renewed);
    RefreshIsFresh(waited, g, other, w, access, renewed, c);
    var cs, after := WaitAndRun(cfg, s, waited, c, pair);
    more := cs;
    PushedPair(cfg, s, after, g, other, w, access, renewed);
  }

  lemma PushedPair(cfg: Config, s: Store, after: Store, g: string, other: string, w: seq<Event>, access: Event, renewed: Event)
    requires Left(cfg, s, g, other, w) && Reachable(cfg, after) && after.log == s.log + [access, renewed]
    requires IsRefreshPair(g, access, renewed) && after.now == access.created && after.used <= s.used + Tails([access, renewed])
    ensures Left(cfg, after, g, other, w + [access, renewed])
  {
    var pair := [access, renewed];
    FilterAll(pair, access.id, access.id);
    LeftAfter(cfg, s, after, g, other, w, pair, pair);
  }

  lemma IDsOfSuffix(a: seq<Event>, b: seq<Event>, g: string)
    requires HasGeneratedIDs(a + b, g)
    ensures HasGeneratedIDs(b, g)
  {
    var w := a + b;
    forall i | 0 <= i < |b|
      ensures HasGeneratedID(b[i], g)
    {
      assert w[|a| + i] == b[i];
    }
    forall i, j | 0 <= i < j < |b| && IsToken(b[i]) && IsToken(b[j])
      ensures Tail(b[i]) != Tail(b[j])
    {
      assert w[|a| + i] == b[i] && w[|a| + j] == b[j];
    }
  }

  lemma RefreshIsFresh(s: Store, g: string, other: string, w: seq<Event>, access: Event, renewed: Event, c: Command)
    requires IsRefreshPair(g, access, renewed) && HasGeneratedIDs(w + [access, renewed], g)
    requires s.used <= {g, other} + Tails(w) && other !in Tails([access, renewed])
    requires c.Refresh? && c.newAccess == Tail(access) && c.renewed == Tail(renewed)
    ensures Fresh(s, c) && (set id <- Generated(c)) <= Tails([access, renewed])
  {
    var pair, all := [access, renewed], w + [access, renewed];
    assert pair[0] == access && pair[1] == renewed && all[|w|] == access && all[|w| + 1] == renewed;
    assert HasGeneratedID(all[|w|], g) && HasGeneratedID(all[|w| + 1], g);
    assert Tail(pair[0]) in Tails(pair) && Tail(pair[1]) in Tails(pair);
    forall i | 0 <= i < |w| && IsToken(w[i])
      ensures Tail(w[i]) != Tail(access) && Tail(w[i]) != Tail(renewed)
    {
      assert all[i] == w[i];
    }
  }

  // ------------------------------------------------------------ the birth of a session

  /** The auth request from which a session with the grant can be minted. */
  function RequestWord(other: string, grant: Grant, now: Time): seq<Event> {
    [AuthRequestEvent(ID_PREFIX_V2 + other, now,
                      RequestAdded(AuthRequest("", grant.clientID, "", "", "", grant.scope, grant.audience, IDToken, None, [], [], None, None, None))),
     AuthRequestEvent(ID_PREFIX_V2 + other, now, SessionLinked(grant.sessionID, grant.userID, grant.authTime, grant.authMethods))]
  }

  lemma RequestWordState(other: string, grant: Grant, now: Time)
    requires grant.sessionID != ""
    ensures var w := RequestWord(other, grant, now);
            AuthRequestRuns.IsWordAt(w, 2) && OfRequest(w, ID_PREFIX_V2 + other) && Chronological(w)
    ensures var v := Request.Reduced(Request.EMPTY, RequestWord(other, grant, now));
            && Request.CheckAuthenticated(v).Ok? && v.sessionID == grant.sessionID && v.request.clientID == grant.clientID
            && v.request.audience == grant.audience && v.request.scope == grant.scope
  {
    AuthRequestRuns.WordState(RequestWord(other, grant, now), 2);
  }

  function LoginOf(grant: Grant): Login {
    Login(LoginActive, grant.userID, grant.authTime, grant.authMethods)
  }

  /** The mint that gives birth to the session. */
  function MintFor(g: string, other: string, w: seq<Event>): Command
    requires IsBirth(w)
  {
    Mint(ID_PREFIX_V2 + other, LoginOf(w[0].session.grant), true,
         Lifetimes(w[1].session.lifetime, if |w| == 3 then w[2].session.lifetime else 0, if |w| == 3 then w[2].session.idleLifetime else 0),
         g, Tail(w[1]), if |w| == 3 then Some(Tail(w[2])) else None)
  }

  lemma BatchIsBirth(d: Lifetimes, g: string, other: string, w: seq<Event>, v: Request.View, c: Command, now: Time)
    requires IsBirth(w) && AllOf(w, ID_PREFIX_V2 + g) && HasGeneratedIDs(w, g) && AreGrantable(d, w) && w[0].created == now
    requires c == MintFor(g, other, w)
    requires var grant := w[0].session.grant;
             && v.sessionID == grant.sessionID && v.request.clientID == grant.clientID
             && v.request.audience == grant.audience && v.request.scope == grant.scope
    ensures MintBatch(v, c.requestID, c.login, TokenLifetimes(d, c.settings), now, g, c.newAccess, c.newRefresh)
            == w + [AuthRequestEvent(c.requestID, now, Succeeded)]
  {
    GrantedLifetimes(d, c.settings);
    assert GrantFor(v, c.login) == w[0].session.grant;
    assert w[1] in w;
    LastIsGenerated(w, g, w[1]);
    assert HasGrantableLifetimes(d, w[1]);
    if |w| == 3 {
      assert w[2] in w;
      LastIsGenerated(w, g, w[2]);
      assert HasGrantableLifetimes(d, w[2]);
      assert w == [w[0], w[1], w[2]];
    } else {
      assert w == [w[0], w[1]];
    }
  }

  lemma MintSucceeds(cfg: Config, s: Store, c: Command)
    requires c.Mint? && Request.CheckAuthenticated(Request.Load(s.log, c.requestID)).Ok? && c.login.state.LoginActive? && c.ownerKnown
    ensures Decide(cfg, s, c) ==
            Ok(MintBatch(Request.Load(s.log, c.requestID), c.requestID, c.login, TokenLifetimes(cfg.defaults, c.settings), s.now,
                         c.newSession, c.newAccess, c.newRefresh))
  {
  }

  lemma MintIsFresh(s: Store, g: string, other: string, w: seq<Event>)
    requires IsBirth(w) && PlainID(g) && HasGeneratedIDs(w, g) && s.used <= {other} && other != g && other !in Tails(w)
    ensures Fresh(s, MintFor(g, other, w)) && (set id <- Generated(MintFor(g, other, w))) <= {g} + Tails(w)
  {
    var ids := Generated(MintFor(g, other, w));
    assert ids == if |w| == 3 then [g, Tail(w[1]), Tail(w[2])] else [g, Tail(w[1])];
    assert Tail(w[1]) in Tails(w) && HasGeneratedID(w[1], g);
    if |w| == 3 {
      assert Tail(w[2]) in Tails(w) && HasGeneratedID(w[2], g);
    }
  }

  lemma BirthOccurs(cfg: Config, g: string, other: string, w: seq<Event>) returns (cs: seq<Command>)
    requires IsSessionLog(cfg, g, w) && IsBirth(w) && PlainID(g) && PlainID(other) && other != g && other !in Tails(w)
    ensures Admissible(cfg, Start(w[0].created), cs) && Left(cfg, Exec(cfg, Start(w[0].created), cs), g, other, w)
  {
    var now, grant := w[0].created, w[0].session.grant;
    var request := RequestWord(other, grant, now);
    RequestWordState(other, grant, now);
    var before := WordOccurs(cfg, other, now, request);
    var s, c := Exec(cfg, Start(now), before), MintFor(g, other, w);
    assert request[1] == request[|request| - 1];
    assert Reaches(cfg, now, before, s);
    ReachableSession(cfg, s, "");
    MintIsFresh(s, g, other, w);
    NewSessionIsEmpty(s, c);
    var v := Request.Load(s.log, ID_PREFIX_V2 + other);
    MintSucceeds(cfg, s, c);
    BatchIsBirth(cfg.defaults, g, other, w, v, c, now);
    cs := before + [c];
    ExecSnoc(cfg, Start(now), before, c);
    ReachableNext(cfg, s, c);
    NextOf(cfg, s, c, w + [AuthRequestEvent(ID_PREFIX_V2 + other, now, Succeeded)]);
    BornLeft(cfg, s, Next(cfg, s, c), g, other, w);
  }

  lemma BornLeft(cfg: Config, s: Store, after: Store, g: string, other: string, w: seq<Event>)
    requires Reachable(cfg, after) && SessionLog(s.log, ID_PREFIX_V2 + g) == []
    requires IsBirth(w) && AllOf(w, ID_PREFIX_V2 + g) && after.now == w[0].created
    requires after.log == s.log + (w + [AuthRequestEvent(ID_PREFIX_V2 + other, after.now, Succeeded)])
    requires after.used <= {g, other} + Tails(w)
    ensures Left(cfg, after, g, other, w)
  {
    BornLog(s.log, w, AuthRequestEvent(ID_PREFIX_V2 + other, after.now, Succeeded), ID_PREFIX_V2 + g);
  }

  lemma BornLog(before: seq<Event>, w: seq<Event>, last: Event, sid: string)
    requires SessionLog(before, sid) == [] && AllOf(w, sid) && last.AuthRequestEvent?
    ensures SessionLog(before + (w + [last]), sid) == w
  {
    BatchOfSession(w, last, sid, sid);
    FilterConcat(before, w + [last], WholeOIDCSession(sid));
    assert [] + w == w;
  }

  // ------------------------------------------------------------ the whole word

  lemma PrefixIsSessionLog(cfg: Config, g: string, init: seq<Event>, more: seq<Event>)
    requires IsSessionLog(cfg, g, init + more) && IsSessionWord(init)
    ensures IsSessionLog(cfg, g, init)
  {
    var w := init + more;
    assert forall i :: 0 <= i < |init| ==> init[i] == w[i];
  }

  lemma SuffixOfSessionLog(cfg: Config, g: string, init: seq<Event>, more: seq<Event>)
    requires IsSessionLog(cfg, g, init + more) && init != []
    ensures AllOf(more, ID_PREFIX_V2 + g) && AreGrantable(cfg.defaults, more) && Chronological(more)
    ensures more != [] ==> init[|init| - 1].created <= more[0].created
  {
    var w := init + more;
    assert forall i :: 0 <= i < |more| ==> more[i] == w[|init| + i];
    assert more != [] ==> w[|init| - 1] == init[|init| - 1] && w[|init|] == more[0];
  }

  lemma {:induction false} SessionLogOccurs(cfg: Config, g: string, other: string, w: seq<Event>) returns (cs: seq<Command>)
    requires Inverse(cfg.cipher) && IsSessionLog(cfg, g, w) && w != []
    requires PlainID(g) && PlainID(other) && other != g && other !in Tails(w)
    ensures Admissible(cfg, Start(w[0].created), cs) && Left(cfg, Exec(cfg, Start(w[0].created), cs), g, other, w)
    decreases |w|
  {
    var init, more := WordSplit(w);
    if init == [] {
      assert w == more;
      cs := BirthOccurs(cfg, g, other, w);
    } else {
      PrefixIsSessionLog(cfg, g, init, more);
      SuffixOfSessionLog(cfg, g, init, more);
      TailsConcat(init, more);
      var before := SessionLogOccurs(cfg, g, other, init);
      assert init[0] == w[0];
      var s := Exec(cfg, Start(w[0].created), before);
      var after := OneMore(cfg, s, g, other, init, more);
      ExecConcat(cfg, Start(w[0].created), before, after);
      cs := before + after;
    }
  }

  lemma OneMore(cfg: Config, s: Store, g: string, other: string, init: seq<Event>, more: seq<Event>) returns (cs: seq<Command>)
    requires Inverse(cfg.cipher) && PlainID(g) && Left(cfg, s, g, other, init) && IsSessionWord(init)
    requires HasGeneratedIDs(init, g) && HasGeneratedIDs(init + more, g) && AreGrantable(cfg.defaults, more) && other !in Tails(more)
    requires more != [] && AllOf(more, ID_PREFIX_V2 + g) && s.now <= more[0].created && Extends(init, more)
    ensures Admissible(cfg, s, cs) && Left(cfg, Exec(cfg, s, cs), g, other, init + more)
  {
    if |more| == 1 {
      assert more == [more[0]];
      cs := RevokeNext(cfg, s, g, other, init, more[0]);
    } else {
      assert more == [more[0], more[1]];
      cs := RefreshNext(cfg, s, g, other, init, more[0], more[1]);
    }
  }

  /** An id of the generator's form that is not among some. */
  lemma UnusedID(ids: set<string>) returns (id: string)
    ensures PlainID(id) && id !in ids
  {
    var n := LongerThanAll(ids);
    id := seq(n, _ => 'x');
  }

  lemma LongerThanAll(ids: set<string>) returns (n: nat)
    ensures forall id <- ids :: |id| < n
  {
    n := 0;
    var rest := ids;
    while rest != {}
      invariant rest <= ids && forall id <- ids - rest :: |id| < n
      decreases rest
    {
      var id :| id in rest;
      n := if n <= |id| then |id| + 1 else n;
      rest := rest - {id};
    }
  }

  ghost predicate SessionOccursIn(cfg: Config, sid: string, w: seq<Event>, start: Time, cs: seq<Command>) {
    Admissible(cfg, Start(start), cs) && SessionLog(Exec(cfg, Start(start), cs).log, sid) == w
  }

  lemma OccurringIsSessionLog(cfg: Config, g: string, w: seq<Event>, start: Time, cs: seq<Command>)
    requires SessionOccursIn(cfg, ID_PREFIX_V2 + g, w, start, cs)
    ensures IsSessionLog(cfg, g, w)
  {
    var s, sid := Exec(cfg, Start(start), cs), ID_PREFIX_V2 + g;
    SessionLogsAreWords(cfg, Start(start), cs, sid);
    RunsGiveSessionLogs(cfg, start, cs, g);
    LogIsChronological(cfg, start, cs);
    ProjectionIsChronological(s.log, s.now, WholeOIDCSession(sid));
    ProjectionIsOfSession(s.log, sid);
  }

  /**
  The logs that runs give an OIDC session are exactly the words of the timed language with dates
  in order, generated ids and lifetimes that the settings can give.
  */
  lemma SessionLogsAreExactlyWords(cfg: Config, g: string, w: seq<Event>)
    requires Inverse(cfg.cipher) && PlainID(g)
    ensures (exists start, cs :: SessionOccursIn(cfg, ID_PREFIX_V2 + g, w, start, cs)) <==> IsSessionLog(cfg, g, w)
  {
    forall start, cs | SessionOccursIn(cfg, ID_PREFIX_V2 + g, w, start, cs)
      ensures IsSessionLog(cfg, g, w)
    {
      OccurringIsSessionLog(cfg, g, w, start, cs);
    }
    if IsSessionLog(cfg, g, w) {
      if w == [] {
        assert SessionOccursIn(cfg, ID_PREFIX_V2 + g, w, 0, []);
      } else {
        var other := UnusedID({g} + Tails(w));
        var cs := SessionLogOccurs(cfg, g, other, w);
        assert SessionOccursIn(cfg, ID_PREFIX_V2 + g, w, w[0].created, cs);
      }
    }
  }
}
