/** Every OIDC session belongs to one auth request that succeeded, and the other way round. */
module SessionPairing {
  import opened EventLog
  import opened Tokens
  import opened OIDCFlow
  import AuthRequestRuns
  import opened OIDCSessionRuns
  import Request = AuthRequestModel
  import Session = OIDCSessionModel

  predicate IsSuccess(log: seq<Event>, j: nat) {
    j < |log| && AuthRequestRuns.IsSucceeded(log[j])
  }

  /** A success closes the batch of the session it belongs to, so the event before it names the session. */
  predicate ClosesBatch(log: seq<Event>, j: nat) {
    IsSuccess(log, j) && 1 <= j && log[j - 1].OIDCSessionEvent?
  }

  function SessionOf(log: seq<Event>, j: nat): string
    requires ClosesBatch(log, j)
  {
    log[j - 1].id
  }

  /** The session has what the auth request asked for and what it was linked to. */
  predicate GrantMatches(grant: Grant, v: Request.View) {
    && grant.sessionID == v.sessionID
    && grant.clientID == v.request.clientID
    && grant.audience == v.request.audience
    && grant.scope == v.request.scope
  }

  /** The success at j belongs to a session of the log whose grant is that of the auth request. */
  predicate IsPair(log: seq<Event>, j: nat) {
    && ClosesBatch(log, j)
    && SessionLog(log, SessionOf(log, j)) != []
    && GrantMatches(Session.Load(log, SessionOf(log, j)).grant, Request.Load(log, log[j].id))
    && Request.Load(log, log[j].id).state.RequestStateSucceeded?
  }

  /**
  Successes and sessions correspond one to one: each success belongs to a session with the same
  grant, two successes are of different requests and belong to different sessions, and each
  session has a success.
  */
  ghost predicate Paired(log: seq<Event>) {
    && (forall j :: IsSuccess(log, j) ==> IsPair(log, j))
    && (forall i: nat, j: nat :: i < j && IsSuccess(log, i) && IsSuccess(log, j) ==>
          IsPair(log, i) && IsPair(log, j) && log[i].id != log[j].id && SessionOf(log, i) != SessionOf(log, j))
    && (forall i :: 0 <= i < |log| && IsAdded(log[i]) ==> HasSuccess(log, log[i].id))
  }

  ghost predicate HasSuccess(log: seq<Event>, sid: string) {
    exists j :: ClosesBatch(log, j) && SessionOf(log, j) == sid
  }

  ghost predicate Invariant(s: Store) {
    && AllIssued(s)
    && (forall id :: AuthRequestRuns.IsWord(AuthRequestRuns.RequestLog(s.log, id)))
    && (forall sid :: IsSessionWord(SessionLog(s.log, sid)))
    && Paired(s.log)
  }

  lemma InvariantAtStart(now: Time)
    ensures Invariant(Start(now))
  {
  }

  /** A finished request and a session's grant are the same after any command. */
  lemma PairKept(cfg: Config, s: Store, c: Command, j: nat)
    requires Invariant(s) && Fresh(s, c) && IsSuccess(s.log, j)
    ensures IsPair(Next(cfg, s, c).log, j)
    ensures Request.Load(Next(cfg, s, c).log, s.log[j].id) == Request.Load(s.log, s.log[j].id)
  {
    var s', rid, sid := Next(cfg, s, c), s.log[j].id, SessionOf(s.log, j);
    assert IsPair(s.log, j);
    var run := [c];
    assert Exec(cfg, s, run) == s' by { assert run[..0] == []; assert Exec(cfg, s, run[..0]) == s; }
    FilterComplete(s.log, AuthRequestQuery(rid), j);
    var w := AuthRequestRuns.RequestLog(s.log, rid);
    var k :| 0 <= k < |w| && w[k] == s.log[j];
    AuthRequestRuns.FinishedRequestIsFrozen(cfg, s, run, rid, k);
    GrantKept(cfg, s, c, sid);
  }

  lemma GrantKept(cfg: Config, s: Store, c: Command, sid: string)
    requires AllIssued(s) && Fresh(s, c) && IsSessionWord(SessionLog(s.log, sid)) && SessionLog(s.log, sid) != []
    ensures SessionLog(Next(cfg, s, c).log, sid) != []
    ensures Session.Load(Next(cfg, s, c).log, sid).grant == Session.Load(s.log, sid).grant
  {
    var s' := Next(cfg, s, c);
    var es, more := SessionLog(s.log, sid), SessionLog(Pushed(Decide(cfg, s, c)), sid);
    FilterConcat(s.log, Pushed(Decide(cfg, s, c)), WholeOIDCSession(sid));
    WordKept(cfg, s, c, sid);
    LoadIsSeen(s.log, sid);
    LoadIsSeen(s'.log, sid);
    WordState(es);
    WordState(es + more);
  }

  lemma MintedSession(s: Store, birth: seq<Event>, last: Event, sid: string)
    requires SessionLog(s.log, sid) == [] && IsBirth(birth) && AllOf(birth, sid) && last.AuthRequestEvent?
    ensures SessionLog(s.log + birth + [last], sid) == birth
    ensures Session.Load(s.log + birth + [last], sid).grant == birth[0].session.grant
  {
    FilterAll(birth, sid, sid);
    FilterConcat(s.log, birth, WholeOIDCSession(sid));
    FilterSnoc(s.log + birth, last, WholeOIDCSession(sid));
    LoadIsSeen(s.log + birth + [last], sid);
    BirthState(birth);
  }

  lemma MintedRequest(s: Store, birth: seq<Event>, last: Event, sid: string)
    requires AllOf(birth, sid) && last.AuthRequestEvent?
    ensures Request.Load(s.log + birth + [last], last.id) == Request.Step(Request.Load(s.log, last.id), last)
  {
    var q := AuthRequestQuery(last.id);
    AuthRequestRuns.FilterNone(birth, q);
    FilterConcat(s.log, birth, q);
    FilterSnoc(s.log + birth, last, q);
    assert Filter(s.log, q) + [] == Filter(s.log, q);
    Request.ReducedSnoc(Request.EMPTY, Filter(s.log, q), last);
  }

  /** After a mint the new success and the new session are a pair. */
  lemma MintedPair(cfg: Config, s: Store, c: Command)
    requires AllIssued(s) && Fresh(s, c) && c.Mint? && Pushed(Decide(cfg, s, c)) != []
    ensures var s' := Next(cfg, s, c);
            && |s'.log| > |s.log| && IsPair(s'.log, |s'.log| - 1)
            && SessionOf(s'.log, |s'.log| - 1) == ID_PREFIX_V2 + c.newSession
            && s'.log[|s'.log| - 1].id == c.requestID
            && (forall j :: |s.log| <= j < |s'.log| - 1 ==> s'.log[j].OIDCSessionEvent? && s'.log[j].id == ID_PREFIX_V2 + c.newSession)
  {
    var s', es, sid := Next(cfg, s, c), Pushed(Decide(cfg, s, c)), ID_PREFIX_V2 + c.newSession;
    MintPushes(cfg, s, c);
    NewSessionIsEmpty(s, c);
    var birth, last := es[..|es| - 1], es[|es| - 1];
    assert s'.log == s.log + birth + [last];
    MintedSession(s, birth, last, sid);
    MintedRequest(s, birth, last, sid);
  }

  /** Only a mint pushes a success or starts a session. */
  lemma OnlyMintPairs(cfg: Config, s: Store, c: Command)
    requires !c.Mint?
    ensures forall e <- Pushed(Decide(cfg, s, c)) :: !AuthRequestRuns.IsSucceeded(e) && !IsAdded(e)
  {
  }

  /** A request that has succeeded is not minted again, and a new session id is not an old one. */
  lemma MintIsNew(cfg: Config, s: Store, c: Command, j: nat)
    requires Invariant(s) && Fresh(s, c) && c.Mint? && Pushed(Decide(cfg, s, c)) != [] && IsSuccess(s.log, j)
    ensures s.log[j].id != c.requestID && SessionOf(s.log, j) != ID_PREFIX_V2 + c.newSession
  {
    assert IsPair(s.log, j);
    NewSessionIsEmpty(s, c);
  }

  predicate Mints(cfg: Config, s: Store, c: Command) {
    c.Mint? && Pushed(Decide(cfg, s, c)) != []
  }

  /** A success of the new log is either an old one or the one that a mint has just pushed. */
  lemma SuccessKept(cfg: Config, s: Store, c: Command, j: nat)
    requires Invariant(s) && Fresh(s, c) && IsSuccess(Next(cfg, s, c).log, j)
    ensures var log := Next(cfg, s, c).log;
            IsPair(log, j) && if j < |s.log| then IsSuccess(s.log, j) else Mints(cfg, s, c) && j == |log| - 1
  {
    if j < |s.log| {
      assert Next(cfg, s, c).log[j] == s.log[j];
      PairKept(cfg, s, c, j);
    } else {
      NewSuccess(cfg, s, c, j);
    }
  }

  lemma NewSuccess(cfg: Config, s: Store, c: Command, j: nat)
    requires AllIssued(s) && Fresh(s, c) && |s.log| <= j && IsSuccess(Next(cfg, s, c).log, j)
    ensures Mints(cfg, s, c) && IsPair(Next(cfg, s, c).log, j) && j == |Next(cfg, s, c).log| - 1
  {
    var es := Pushed(Decide(cfg, s, c));
    assert Next(cfg, s, c).log[j] == es[j - |s.log|];
    if c.Mint? {
      MintedPair(cfg, s, c);
    } else {
      OnlyMintPairs(cfg, s, c);
    }
  }

  lemma PairsDistinct(cfg: Config, s: Store, c: Command, i: nat, j: nat)
    requires Invariant(s) && Fresh(s, c) && i < j
    requires IsSuccess(Next(cfg, s, c).log, i) && IsSuccess(Next(cfg, s, c).log, j)
    ensures var log := Next(cfg, s, c).log;
            IsPair(log, i) && IsPair(log, j) && log[i].id != log[j].id && SessionOf(log, i) != SessionOf(log, j)
  {
    SuccessKept(cfg, s, c, i);
    SuccessKept(cfg, s, c, j);
    assert IsPair(s.log, i);
    if |s.log| <= j {
      MintedPair(cfg, s, c);
      MintIsNew(cfg, s, c, i);
    } else {
      assert IsPair(s.log, j);
    }
  }

  lemma StartHasSuccess(cfg: Config, s: Store, c: Command, i: nat)
    requires Invariant(s) && Fresh(s, c) && i < |Next(cfg, s, c).log| && IsAdded(Next(cfg, s, c).log[i])
    ensures HasSuccess(Next(cfg, s, c).log, Next(cfg, s, c).log[i].id)
  {
    if i < |s.log| {
      assert Next(cfg, s, c).log[i] == s.log[i];
      assert HasSuccess(s.log, s.log[i].id);
      SuccessStays(s.log, Pushed(Decide(cfg, s, c)), s.log[i].id);
    } else {
      NewStartHasSuccess(cfg, s, c, i);
    }
  }

  lemma SuccessStays(log: seq<Event>, more: seq<Event>, sid: string)
    requires HasSuccess(log, sid)
    ensures HasSuccess(log + more, sid)
  {
    var j: nat :| ClosesBatch(log, j) && SessionOf(log, j) == sid;
    assert ClosesBatch(log + more, j) && SessionOf(log + more, j) == sid;
  }

  lemma NewStartHasSuccess(cfg: Config, s: Store, c: Command, i: nat)
    requires AllIssued(s) && Fresh(s, c) && |s.log| <= i < |Next(cfg, s, c).log| && IsAdded(Next(cfg, s, c).log[i])
    ensures HasSuccess(Next(cfg, s, c).log, Next(cfg, s, c).log[i].id)
  {
    var log, es := Next(cfg, s, c).log, Pushed(Decide(cfg, s, c));
    assert log[i] == es[i - |s.log|];
    if c.Mint? {
      MintedPair(cfg, s, c);
      assert ClosesBatch(log, |log| - 1) && SessionOf(log, |log| - 1) == log[i].id;
    } else {
      OnlyMintPairs(cfg, s, c);
    }
  }

  lemma PairingKept(cfg: Config, s: Store, c: Command)
    requires Invariant(s) && Fresh(s, c)
    ensures Paired(Next(cfg, s, c).log)
  {
    var log := Next(cfg, s, c).log;
    forall j: nat | IsSuccess(log, j)
      ensures IsPair(log, j)
    {
      SuccessKept(cfg, s, c, j);
    }
    forall i: nat, j: nat | i < j && IsSuccess(log, i) && IsSuccess(log, j)
      ensures IsPair(log, i) && IsPair(log, j) && log[i].id != log[j].id && SessionOf(log, i) != SessionOf(log, j)
    {
      PairsDistinct(cfg, s, c, i, j);
    }
    forall i: nat | i < |log| && IsAdded(log[i])
      ensures HasSuccess(log, log[i].id)
    {
      StartHasSuccess(cfg, s, c, i);
    }
  }

  lemma {:induction false} InvariantHolds(cfg: Config, s: Store, cs: seq<Command>)
    requires Admissible(cfg, s, cs) && Invariant(s)
    ensures Invariant(Exec(cfg, s, cs))
  {
    if cs != [] {
      var before, c := Exec(cfg, s, cs[..|cs| - 1]), cs[|cs| - 1];
      InvariantHolds(cfg, s, cs[..|cs| - 1]);
      IssuedKept(cfg, before, c);
      PairingKept(cfg, before, c);
      forall id { AuthRequestRuns.WordKept(cfg, before, c, id); }
      forall sid { WordKept(cfg, before, c, sid); }
    }
  }

  /** No session is started twice. */
  lemma OneStartPerSession(log: seq<Event>, i: nat, j: nat)
    requires i < j < |log| && IsAdded(log[i]) && IsAdded(log[j]) && log[i].id == log[j].id
    ensures !IsSessionWord(SessionLog(log, log[i].id))
  {
    var sid, before, after := log[i].id, log[..j], log[j + 1..];
    var q := WholeOIDCSession(sid);
    assert log == before + [log[j]] + after;
    FilterSnoc(before, log[j], q);
    FilterConcat(before + [log[j]], after, q);
    FilterComplete(before, q, i);
    var k := |SessionLog(before, sid)|;
    assert SessionLog(log, sid)[k] == log[j];
    if IsSessionWord(SessionLog(log, sid)) {
      AddedIsFirst(SessionLog(log, sid), k);
    }
  }

  lemma {:induction false} AddedIsFirst(es: seq<Event>, i: nat)
    requires IsSessionWord(es) && i < |es| && IsAdded(es[i])
    ensures i == 0
    decreases |es|
  {
    if !IsBirth(es) {
      if IsSessionWord(es[..|es| - 1]) && IsContinuation(WindowOf(es[..|es| - 1]), es[|es| - 1..]) {
        AddedIsFirst(es[..|es| - 1], i);
      } else {
        assert es[|es| - 2..] == [es[|es| - 2], es[|es| - 1]];
        AddedIsFirst(es[..|es| - 2], i);
      }
    }
  }

  lemma ReachableInvariant(cfg: Config, s: Store)
    requires Reachable(cfg, s)
    ensures Invariant(s)
  {
    var start, cs :| Reaches(cfg, start, cs, s);
    InvariantAtStart(start);
    InvariantHolds(cfg, Start(start), cs);
  }

  ghost predicate StartsOnce(log: seq<Event>) {
    forall i, j :: 0 <= i < j < |log| && IsAdded(log[i]) && IsAdded(log[j]) ==> log[i].id != log[j].id
  }

  ghost predicate HasStart(log: seq<Event>, sid: string) {
    exists i :: 0 <= i < |log| && IsAdded(log[i]) && log[i].id == sid
  }

  lemma SuccessHasStart(log: seq<Event>, j: nat)
    requires IsSuccess(log, j) && IsPair(log, j) && IsSessionWord(SessionLog(log, SessionOf(log, j)))
    ensures HasStart(log, SessionOf(log, j))
  {
    var sid := SessionOf(log, j);
    var es := SessionLog(log, sid);
    WordState(es);
    FilterMatches(log, WholeOIDCSession(sid));
    assert es[0] in es;
  }

  /**
  After every run, following each success to the session its batch created is a bijection from the
  successes of the log to the session starts of the log, no request succeeds twice, and the
  session's grant is the one of its request, as both load now.
  */
  lemma SessionsAndSuccessesCorrespond(cfg: Config, s: Store)
    requires Reachable(cfg, s)
    ensures Paired(s.log) && StartsOnce(s.log)
    ensures forall j :: IsSuccess(s.log, j) ==> ClosesBatch(s.log, j) && HasStart(s.log, SessionOf(s.log, j))
  {
    ReachableInvariant(cfg, s);
    forall i, j | 0 <= i < j < |s.log| && IsAdded(s.log[i]) && IsAdded(s.log[j])
      ensures s.log[i].id != s.log[j].id
    {
      if s.log[i].id == s.log[j].id {
        OneStartPerSession(s.log, i, j);
      }
    }
    forall j: nat | IsSuccess(s.log, j)
      ensures ClosesBatch(s.log, j) && HasStart(s.log, SessionOf(s.log, j))
    {
      assert IsPair(s.log, j);
      SuccessHasStart(s.log, j);
    }
  }
}
