/** When an access token can be revoked, and that revoking it leaves it revocable (section 2 of RFC 7009). */
module AccessTokens {
  import opened Wrappers
  import opened EventLog
  import opened Tokens
  import opened OIDCFlow
  import opened OIDCSessionRuns
  import opened OIDCSessionLanguage
  import Session = OIDCSessionModel

  /** Nothing after k issues an access token or revokes the session. */
  predicate IsLatestAccess(w: seq<Event>, k: nat) {
    k < |w| && IsAccess(w[k]) && forall j :: k < j < |w| ==> !IsAccess(w[j]) && !IsRevoked(w[j])
  }

  lemma {:induction false} LastAccessAt(w: seq<Event>) returns (k: nat)
    requires LastAccess(w).Some?
    ensures k < |w| && LastAccess(w) == Some(w[k]) && IsAccess(w[k]) && forall j :: k < j < |w| ==> !IsAccess(w[j])
  {
    if IsAccess(w[|w| - 1]) {
      k := |w| - 1;
    } else {
      k := LastAccessAt(w[..|w| - 1]);
    }
  }

  lemma {:induction false} ClosedIsRevoked(w: seq<Event>) returns (j: nat)
    requires WindowOf(w).Closed?
    ensures j < |w| && IsRevoked(w[j])
  {
    if IsRevoked(w[|w| - 1]) {
      j := |w| - 1;
    } else {
      j := ClosedIsRevoked(w[..|w| - 1]);
    }
  }

  /** The loaded access token is the one issued at k exactly if that is the latest and the session is not revoked. */
  lemma LoadedAccess(w: seq<Event>, g: string, v: Session.View, k: nat)
    requires IsSessionWord(w) && StandsFor(v, w) && HasGeneratedIDs(w, g) && k < |w| && IsAccess(w[k])
    ensures v.accessTokenID == w[k].session.tokenID <==> IsLatestAccess(w, k)
    ensures IsLatestAccess(w, k) ==> v.accessTokenExpiration == w[k].created + w[k].session.lifetime
  {
    assert HasGeneratedID(w[k], g);
    if WindowOf(w).Closed? {
      var j := ClosedIsRevoked(w);
      RevokedIsLast(w, j);
      assert k < j;
    } else {
      var m := LastAccessAt(w);
      NotRevoked(w);
      assert m != k ==> Tail(w[m]) != Tail(w[k]);
    }
  }

  lemma NotRevoked(w: seq<Event>)
    requires IsSessionWord(w) && !WindowOf(w).Closed?
    ensures forall j :: 0 <= j < |w| ==> !IsRevoked(w[j])
  {
    forall j | 0 <= j < |w|
      ensures !IsRevoked(w[j])
    {
      if IsRevoked(w[j]) {
        RevokedIsLast(w, j);
      }
    }
  }

  /** What a revocation with an access token does, by what is loaded of its session. */
  lemma AccessRevocation(cfg: Config, s: Store, sid: string, generated: string, client: string)
    requires PlainID(sid) && PlainID(generated)
    ensures var v := Session.Load(s.log, sid);
            Decide(cfg, s, Revoke(AccessTokenText(sid, ACCESS_TOKEN_PREFIX + generated), client)) ==
            if Session.ClientChecked(v, client).Err? then Err(Session.ClientChecked(v, client).error)
            else if Session.CheckAccessToken(v, ACCESS_TOKEN_PREFIX + generated, s.now).Err? then Ok([])
            else Ok([OIDCSessionEvent(sid, s.now, AccessTokenRevoked)])
  {
    AccessTokenRoundTrip(sid, generated);
  }

  /**
  After any run, take any access token that a session has issued. Revoking it pushes the revocation
  exactly if it is the latest of a session that is not revoked, it has not expired, and the client
  is in the audience.
  */
  lemma RevocableIffLatest(cfg: Config, s: Store, g: string, k: nat, client: string)
    requires Reachable(cfg, s) && PlainID(g) && k < |SessionLog(s.log, ID_PREFIX_V2 + g)|
    requires IsAccess(SessionLog(s.log, ID_PREFIX_V2 + g)[k])
    ensures var sid := ID_PREFIX_V2 + g;
            var w := SessionLog(s.log, sid);
            Decide(cfg, s, Revoke(AccessTokenText(sid, w[k].session.tokenID), client)) == Ok([OIDCSessionEvent(sid, s.now, AccessTokenRevoked)])
            <==> IsLatestAccess(w, k) && s.now <= w[k].created + w[k].session.lifetime && InAudience(s.log, sid, client)
  {
    var sid := ID_PREFIX_V2 + g;
    var w := SessionLog(s.log, sid);
    ReachableSession(cfg, s, sid);
    ReachableIDs(cfg, s, g);
    LoadIsSeen(s.log, sid);
    WordState(w);
    LoadedAccess(w, g, Session.Load(s.log, sid), k);
    LoadedAudience(cfg, s, sid, client);
    LastIsGenerated(w, g, w[k]);
    assert PlainID(sid);
    AccessRevocation(cfg, s, sid, Tail(w[k]), client);
  }

  lemma ReachableIDs(cfg: Config, s: Store, g: string)
    requires Reachable(cfg, s)
    ensures HasGeneratedIDs(SessionLog(s.log, ID_PREFIX_V2 + g), g)
  {
    var start, cs :| Reaches(cfg, start, cs, s);
    RunsGiveSessionLogs(cfg, start, cs, g);
  }

  /** In every store, a revocation of an access token that has been pushed can be asked for again and is pushed again. */
  lemma RevokedAgain(cfg: Config, s: Store, c: Command, e: Event)
    requires c.Revoke? && Decide(cfg, s, c) == Ok([e]) && IsAccessRevoked(e)
    ensures Decide(cfg, Next(cfg, s, c), c) == Ok([e])
  {
    var s' := Next(cfg, s, c);
    LogAfterRevoke(cfg, s, c);
    assert s'.log == s.log + [e] && s'.now == s.now;
    RevokedSession(cfg, s, c, e);
    Session.LoadSnoc(s.log, e, e.id);
    SameRevocation(cfg, s, s', c, e.id);
  }

  /** A revocation is decided by the clock and the session that the token names. */
  lemma SameRevocation(cfg: Config, s: Store, t: Store, c: Command, sid: string)
    requires c.Revoke? && s.now == t.now && Session.Load(s.log, sid) == Session.Load(t.log, sid)
    requires TokenIDsFromToken(c.token).Ok? && TokenIDsFromToken(c.token).value.oidcSessionID == sid
    ensures Decide(cfg, t, c) == Decide(cfg, s, c)
  {
  }

  lemma RevokedSession(cfg: Config, s: Store, c: Command, e: Event)
    requires c.Revoke? && Decide(cfg, s, c) == Ok([e])
    ensures TokenIDsFromToken(c.token).Ok? && TokenIDsFromToken(c.token).value.oidcSessionID == e.id
  {
    assert [e][0] == e;
  }
}
