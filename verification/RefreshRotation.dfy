/** Which refresh tokens a session accepts, over whole runs (sections 6 and 10.4 of RFC 6749). */
module RefreshRotation {
  import opened Wrappers
  import opened EventLog
  import opened Tokens
  import opened OIDCFlow
  import opened OIDCSessionRuns
  import Session = OIDCSessionModel

  /** No two events of the whole log issue the same refresh token id. */
  predicate DistinctRefreshTokens(log: seq<Event>) {
    forall i, j :: 0 <= i < j < |log| && RefreshTokenOf(log[i]).Some? ==> RefreshTokenOf(log[i]) != RefreshTokenOf(log[j])
  }

  /** A refresh token that a command issues has an id generated for it, at one place of the batch. */
  lemma PushedTokenIsGenerated(cfg: Config, s: Store, c: Command, k: nat)
    requires k < |Pushed(Decide(cfg, s, c))| && RefreshTokenOf(Pushed(Decide(cfg, s, c))[k]).Some?
    ensures (c.Mint? && k == 2 && c.newRefresh.Some?) || (c.Refresh? && k == 1)
    ensures RefreshTokenOf(Pushed(Decide(cfg, s, c))[k]).value
            == REFRESH_TOKEN_PREFIX + if c.Mint? then c.newRefresh.value else c.renewed
  {
    if c.Mint? {
      MintPushes(cfg, s, c);
    } else if c.Refresh? {
      RefreshPushes(cfg, s, c);
    } else if c.Revoke? {
      RevokePushes(cfg, s, c);
    } else {
      OthersPushNothing(cfg, s, c);
    }
  }

  lemma GeneratedIsNew(s: Store, c: Command, id: string)
    requires Fresh(s, c) && ((c.Mint? && c.newRefresh == Some(id)) || (c.Refresh? && c.renewed == id))
    ensures id !in s.used
  {
    assert id == Generated(c)[if c.Mint? then 2 else 1];
  }

  /** The refresh tokens that a command issues are new, and it issues at most one. */
  lemma PushedRefreshTokens(cfg: Config, s: Store, c: Command, i: nat, j: nat)
    requires AllIssued(s) && Fresh(s, c)
    requires i < j < |Next(cfg, s, c).log| && |s.log| <= j
    ensures RefreshTokenOf(Next(cfg, s, c).log[i]).Some? ==>
              RefreshTokenOf(Next(cfg, s, c).log[i]) != RefreshTokenOf(Next(cfg, s, c).log[j])
  {
    var log, es, n := Next(cfg, s, c).log, Pushed(Decide(cfg, s, c)), |s.log|;
    assert log[j] == es[j - n];
    if RefreshTokenOf(log[j]).Some? {
      PushedTokenIsGenerated(cfg, s, c, j - n);
      if i < n {
        assert log[i] == s.log[i] && EventIssued(s.used, s.log[i]);
        GeneratedIsNew(s, c, if c.Mint? then c.newRefresh.value else c.renewed);
      } else if RefreshTokenOf(es[i - n]).Some? {
        PushedTokenIsGenerated(cfg, s, c, i - n);
      }
    }
  }

  lemma {:induction false} RefreshTokensDistinct(cfg: Config, s: Store, cs: seq<Command>)
    requires Admissible(cfg, s, cs) && AllIssued(s) && DistinctRefreshTokens(s.log)
    ensures AllIssued(Exec(cfg, s, cs)) && DistinctRefreshTokens(Exec(cfg, s, cs).log)
  {
    if cs != [] {
      var before, c := Exec(cfg, s, cs[..|cs| - 1]), cs[|cs| - 1];
      RefreshTokensDistinct(cfg, s, cs[..|cs| - 1]);
      IssuedKept(cfg, before, c);
      var log := Next(cfg, before, c).log;
      forall i, j | 0 <= i < j < |log| && RefreshTokenOf(log[i]).Some?
        ensures RefreshTokenOf(log[i]) != RefreshTokenOf(log[j])
      {
        if |before.log| <= j {
          PushedRefreshTokens(cfg, before, c, i, j);
        }
      }
    }
  }

  predicate Rotates(e: Event, sid: string) {
    e.OIDCSessionEvent? && e.id == sid && (RefreshTokenOf(e).Some? || IsRevoked(e))
  }

  /** The last event that decided the refresh token of a session. */
  function LastRotation(log: seq<Event>, sid: string): (p: Option<nat>)
    ensures p.Some? ==> p.value < |log| && Rotates(log[p.value], sid)
    ensures forall i :: (if p.Some? then p.value + 1 else 0) <= i < |log| ==> !Rotates(log[i], sid)
  {
    if log == [] then None
    else if Rotates(log[|log| - 1], sid) then Some(|log| - 1)
    else LastRotation(log[..|log| - 1], sid)
  }

  lemma RotationStep(v: Session.View, e: Event)
    ensures Session.Step(v, e).refreshTokenID
            == if RefreshTokenOf(e).Some? then RefreshTokenOf(e).value else if IsRevoked(e) then "" else v.refreshTokenID
  {
  }

  /** The loaded refresh token id is the one that the last such event left. */
  lemma {:induction false} CurrentRefreshToken(log: seq<Event>, sid: string)
    ensures var p := LastRotation(log, sid);
            Session.Load(log, sid).refreshTokenID ==
            if p.Some? && RefreshTokenOf(log[p.value]).Some? then RefreshTokenOf(log[p.value]).value else ""
  {
    if log != [] {
      var init, e := log[..|log| - 1], log[|log| - 1];
      CurrentRefreshToken(init, sid);
      assert log == init + [e];
      Session.LoadSnoc(init, e, sid);
      RotationStep(Session.Load(init, sid), e);
    }
  }

  /** A token id that has been superseded or revoked is not the current one. */
  lemma SupersededIsNotCurrent(log: seq<Event>, sid: string, i: nat, j: nat)
    requires DistinctRefreshTokens(log)
    requires i < j < |log| && Rotates(log[i], sid) && Rotates(log[j], sid)
    requires RefreshTokenOf(log[i]).Some? && RefreshTokenOf(log[i]).value != ""
    ensures Session.Load(log, sid).refreshTokenID != RefreshTokenOf(log[i]).value
  {
    CurrentRefreshToken(log, sid);
    var p := LastRotation(log, sid).value;
    assert i < p;
  }

  /** A token id issued for one session is not the current one of another. */
  lemma ForeignIsNotCurrent(log: seq<Event>, sid: string, i: nat)
    requires DistinctRefreshTokens(log)
    requires i < |log| && RefreshTokenOf(log[i]).Some? && RefreshTokenOf(log[i]).value != "" && log[i].id != sid
    ensures Session.Load(log, sid).refreshTokenID != RefreshTokenOf(log[i]).value
  {
    CurrentRefreshToken(log, sid);
    var p := LastRotation(log, sid);
    if p.Some? && RefreshTokenOf(log[p.value]).Some? {
      assert p.value < i || i < p.value;
    }
  }

  /** What the refresh command answers to a token that carries the text of an issued one. */
  lemma RefreshOfIssued(cfg: Config, s: Store, c: Command, minted: string, generated: string, userID: string)
    requires c.Refresh? && PlainID(generated) && TOKEN_DELIMITER !in minted
    requires Carries(cfg.cipher, c.token, RefreshTokenText(minted, REFRESH_TOKEN_PREFIX + generated, userID))
    ensures Decide(cfg, s, c).Ok? <==>
            Session.CheckRefreshToken(Session.Load(s.log, c.oidcSessionID), REFRESH_TOKEN_PREFIX + generated, s.now).Ok?
  {
    RefreshTokenRoundTrip(minted, generated, userID);
  }

  /** The command presents a token that carries the text of the issued one, for any user. */
  predicate Presents(cfg: Config, c: Command, issued: Event, userID: string) {
    && c.Refresh? && RefreshTokenOf(issued).Some?
    && Carries(cfg.cipher, c.token, RefreshTokenText(issued.id, RefreshTokenOf(issued).value, userID))
  }

  lemma RefreshOfLogged(cfg: Config, s: Store, c: Command, i: nat, userID: string)
    requires AllIssued(s) && i < |s.log| && Presents(cfg, c, s.log[i], userID)
    ensures RefreshTokenOf(s.log[i]).value != ""
    ensures Decide(cfg, s, c).Ok? <==>
            Session.CheckRefreshToken(Session.Load(s.log, c.oidcSessionID), RefreshTokenOf(s.log[i]).value, s.now).Ok?
  {
    assert EventIssued(s.used, s.log[i]);
    var sid, id := s.log[i].id, RefreshTokenOf(s.log[i]).value;
    assert sid == ID_PREFIX_V2 + sid[|ID_PREFIX_V2|..];
    assert id == REFRESH_TOKEN_PREFIX + id[|REFRESH_TOKEN_PREFIX|..];
    RefreshOfIssued(cfg, s, c, sid, id[|REFRESH_TOKEN_PREFIX|..], userID);
  }

  /** In every reachable store no refresh token id has been issued twice. */
  lemma ReachableTokens(cfg: Config, s: Store)
    requires Reachable(cfg, s)
    ensures AllIssued(s) && DistinctRefreshTokens(s.log)
  {
    var start, cs :| Reaches(cfg, start, cs, s);
    RefreshTokensDistinct(cfg, Start(start), cs);
  }

  /**
  After any run, take any event in the log that issued a refresh token, and the token text for
  any user. A refresh with that token is refused by every session but the one it was issued for,
  and by that one if a later event renewed or revoked it. A refused refresh pushes nothing.
  */
  lemma OnlyTheLatestTokenRefreshes(cfg: Config, s: Store, i: nat, userID: string, c: Command)
    requires Reachable(cfg, s)
    requires i < |s.log| && Presents(cfg, c, s.log[i], userID)
    requires c.oidcSessionID != s.log[i].id || exists j :: i < j < |s.log| && Rotates(s.log[j], s.log[i].id)
    ensures Decide(cfg, s, c).Err? && Next(cfg, s, c).log == s.log
  {
    ReachableTokens(cfg, s);
    RefreshOfLogged(cfg, s, c, i, userID);
    if c.oidcSessionID != s.log[i].id {
      ForeignIsNotCurrent(s.log, c.oidcSessionID, i);
    } else {
      var j :| i < j < |s.log| && Rotates(s.log[j], s.log[i].id);
      SupersededIsNotCurrent(s.log, c.oidcSessionID, i, j);
    }
  }

  /** What has superseded a token stays in the log, so a token once refused for that is refused forever. */
  lemma SupersededForever(cfg: Config, s: Store, cs: seq<Command>, i: nat, j: nat, userID: string, c: Command)
    requires Reachable(cfg, s) && Admissible(cfg, s, cs)
    requires i < j < |s.log| && Rotates(s.log[j], s.log[i].id) && Presents(cfg, c, s.log[i], userID)
    ensures Decide(cfg, Exec(cfg, s, cs), c).Err?
  {
    var start, before :| Reaches(cfg, start, before, s);
    var later := Exec(cfg, s, cs);
    ExecConcat(cfg, Start(start), before, cs);
    assert Reaches(cfg, start, before + cs, later);
    LogGrows(cfg, s, cs);
    assert later.log[i] == s.log[i] && later.log[j] == s.log[j];
    OnlyTheLatestTokenRefreshes(cfg, later, i, userID, c);
  }

  /** The token id that the last rotation of a session issued passes the check while the window is open. */
  lemma CurrentPassesCheck(s: Store, i: nat)
    requires i < |s.log| && RefreshTokenOf(s.log[i]).Some?
    requires LastRotation(s.log, s.log[i].id) == Some(i)
    requires IsSessionWord(SessionLog(s.log, s.log[i].id)) && Within(WindowOf(SessionLog(s.log, s.log[i].id)), s.now)
    ensures Session.CheckRefreshToken(Session.Load(s.log, s.log[i].id), RefreshTokenOf(s.log[i]).value, s.now).Ok?
  {
    var sid := s.log[i].id;
    CurrentRefreshToken(s.log, sid);
    LoadIsSeen(s.log, sid);
    FilterComplete(s.log, WholeOIDCSession(sid), i);
    WordState(SessionLog(s.log, sid));
  }

  /** Conversely the latest token of a session, used on that session in time, is accepted. */
  lemma TheLatestTokenRefreshes(cfg: Config, s: Store, i: nat, userID: string, c: Command)
    requires Reachable(cfg, s)
    requires i < |s.log| && Presents(cfg, c, s.log[i], userID)
    requires c.oidcSessionID == s.log[i].id && LastRotation(s.log, s.log[i].id) == Some(i)
    requires Within(WindowOf(SessionLog(s.log, s.log[i].id)), s.now)
    ensures Decide(cfg, s, c).Ok?
  {
    ReachableSession(cfg, s, s.log[i].id);
    CurrentPassesCheck(s, i);
    RefreshOfLogged(cfg, s, c, i, userID);
  }

  /** The token that event i issued is its session's latest one and both limits of the session still hold. */
  ghost predicate IsCurrent(s: Store, i: nat)
    requires i < |s.log|
  {
    && (forall j :: i < j < |s.log| ==> !Rotates(s.log[j], s.log[i].id))
    && Within(WindowOf(SessionLog(s.log, s.log[i].id)), s.now)
  }

  /**
  So after any run an issued token refreshes a session exactly when it is that session's, nothing
  has renewed or revoked it since, and both its limits still hold.
  */
  lemma RefreshesIffCurrent(cfg: Config, s: Store, i: nat, userID: string, c: Command)
    requires Reachable(cfg, s)
    requires i < |s.log| && Presents(cfg, c, s.log[i], userID)
    ensures Decide(cfg, s, c).Ok? <==> c.oidcSessionID == s.log[i].id && IsCurrent(s, i)
  {
    var sid := s.log[i].id;
    ReachableSession(cfg, s, sid);
    if Decide(cfg, s, c).Ok? {
      if c.oidcSessionID != sid || exists j :: i < j < |s.log| && Rotates(s.log[j], sid) {
        OnlyTheLatestTokenRefreshes(cfg, s, i, userID, c);
      } else {
        RefreshIsWithin(cfg, s, c);
      }
    } else if c.oidcSessionID == sid && IsCurrent(s, i) {
      LastRotationIs(s.log, sid, i);
      TheLatestTokenRefreshes(cfg, s, i, userID, c);
    }
  }

  lemma RefreshIsWithin(cfg: Config, s: Store, c: Command)
    requires c.Refresh? && Decide(cfg, s, c).Ok? && IsSessionWord(SessionLog(s.log, c.oidcSessionID))
    ensures Within(WindowOf(SessionLog(s.log, c.oidcSessionID)), s.now)
  {
    RefreshPushes(cfg, s, c);
    AcceptedIsWithin(s, c.oidcSessionID, c.oidcSessionID);
  }

  lemma LastRotationIs(log: seq<Event>, sid: string, i: nat)
    requires i < |log| && Rotates(log[i], sid) && forall j :: i < j < |log| ==> !Rotates(log[j], sid)
    ensures LastRotation(log, sid) == Some(i)
  {
  }

  /** Whatever the token, a refresh that succeeds has presented the id that the session's last rotation issued. */
  lemma RefreshPresentsCurrent(cfg: Config, s: Store, c: Command)
    requires c.Refresh? && Decide(cfg, s, c).Ok?
    ensures var p := LastRotation(s.log, c.oidcSessionID);
            p.Some? && RefreshTokenOf(s.log[p.value]).Some?
            && DecryptRefreshToken(cfg, c.token) == Ok(RefreshTokenOf(s.log[p.value]).value)
  {
    PresentedIsLoaded(cfg, s, c);
    CurrentRefreshToken(s.log, c.oidcSessionID);
  }

  lemma PresentedIsLoaded(cfg: Config, s: Store, c: Command)
    requires c.Refresh? && Decide(cfg, s, c).Ok?
    ensures DecryptRefreshToken(cfg, c.token) == Ok(Session.Load(s.log, c.oidcSessionID).refreshTokenID)
    ensures Session.Load(s.log, c.oidcSessionID).refreshTokenID != ""
  {
    ParsedIDsPrefixed(cfg.cipher.decrypt(c.token).value);
  }
}
