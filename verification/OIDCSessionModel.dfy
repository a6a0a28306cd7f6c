/** The OIDC session write model: the fold of a session's events and the checks on its tokens. */
module OIDCSessionModel {
  import opened Wrappers
  import opened EventLog

  datatype SessionState = SessionUnspecified | SessionActive | SessionTerminated

  /** The fields of the write model as one value. */
  datatype View = View(
    grant: Grant,
    state: SessionState,
    accessTokenID: string,
    accessTokenExpiration: Time,
    refreshTokenID: string,
    refreshTokenExpiration: Time,
    refreshTokenIdleExpiration: Time)

  const NO_GRANT := Grant("", "", "", [], [], [], 0)
  const EMPTY := View(NO_GRANT, SessionUnspecified, "", 0, "", 0, 0)

  function Step(v: View, e: Event): View {
    if e.AuthRequestEvent? then v
    else
      match e.session
      case SessionAdded(grant) =>
        v.(grant := grant, state := SessionActive)
      case AccessTokenAdded(id, _, lifetime) =>
        v.(accessTokenID := id, accessTokenExpiration := e.created + lifetime)
      case AccessTokenRevoked =>
        v.(accessTokenID := "", accessTokenExpiration := e.created)
      case RefreshTokenAdded(id, lifetime, idleLifetime) =>
        v.(refreshTokenID := id, refreshTokenExpiration := e.created + lifetime,
           refreshTokenIdleExpiration := e.created + idleLifetime)
      case RefreshTokenRenewed(id, idleLifetime) =>
        v.(refreshTokenID := id, refreshTokenIdleExpiration := e.created + idleLifetime)
      case RefreshTokenRevoked =>
        v.(refreshTokenID := "", refreshTokenExpiration := e.created, refreshTokenIdleExpiration := e.created,
           accessTokenID := "", accessTokenExpiration := e.created)
  }

  function Reduced(v: View, es: seq<Event>): View {
    if es == [] then v else Step(Reduced(v, es[..|es| - 1]), es[|es| - 1])
  }

  lemma ReducedSnoc(v: View, es: seq<Event>, e: Event)
    ensures Reduced(v, es + [e]) == Step(Reduced(v, es), e)
  {
    assert (es + [e])[..|es|] == es;
  }

  lemma {:induction false} ReducedConcat(v: View, a: seq<Event>, b: seq<Event>)
    ensures Reduced(v, a + b) == Reduced(Reduced(v, a), b)
  {
    if b == [] {
      assert a + b == a;
    } else {
      ReducedConcat(v, a, b[..|b| - 1]);
      assert (a + b)[..|a + b| - 1] == a + b[..|b| - 1];
    }
  }

  /** What the commands see of a session: the fold of the queried events. */
  function Load(log: seq<Event>, id: string): View {
    Reduced(EMPTY, Filter(log, OIDCSessionQuery(id)))
  }

  lemma LoadSnoc(log: seq<Event>, e: Event, id: string)
    ensures Load(log + [e], id) == if Matches(OIDCSessionQuery(id), e) then Step(Load(log, id), e) else Load(log, id)
  {
    FilterSnoc(log, e, OIDCSessionQuery(id));
    ReducedSnoc(EMPTY, Filter(log, OIDCSessionQuery(id)), e);
    assert Filter(log, OIDCSessionQuery(id)) + [] == Filter(log, OIDCSessionQuery(id));
  }

  /** What the write model would hold if its query named every event type of the session. */
  function LoadWhole(log: seq<Event>, id: string): View {
    Reduced(EMPTY, Filter(log, WholeOIDCSession(id)))
  }

  function CheckRefreshToken(v: View, refreshTokenID: string, now: Time): Result<(), Error> {
    if !v.state.SessionActive? then Err(PreconditionFailed("OIDCS-s3hjk"))
    else if v.refreshTokenID != refreshTokenID then Err(PreconditionFailed("OIDCS-28ubl"))
    else if v.refreshTokenExpiration < now || v.refreshTokenIdleExpiration < now then Err(PreconditionFailed("OIDCS-3jt2w"))
    else Ok(())
  }

  function CheckAccessToken(v: View, accessTokenID: string, now: Time): Result<(), Error> {
    if !v.state.SessionActive? then Err(PreconditionFailed("OIDCS-KL2pk"))
    else if v.accessTokenID != accessTokenID then Err(PreconditionFailed("OIDCS-JLKW2"))
    else if v.accessTokenExpiration < now then Err(PreconditionFailed("OIDCS-3j3md"))
    else Ok(())
  }

  /** The specification of the audience search. */
  function ClientChecked(v: View, clientID: string): Result<(), Error> {
    if clientID in v.grant.audience then Ok(()) else Err(PreconditionFailed("OIDCS-SKjl3"))
  }

  // ---------------------------------------------------------------- the query that omits a type

  predicate TouchesAccessToken(e: Event) {
    e.OIDCSessionEvent? &&
    (e.session.AccessTokenAdded? || e.session.AccessTokenRevoked? || e.session.RefreshTokenRevoked?)
  }

  /** The last event of a session that decides its access token, if any. */
  function LastAccessTokenEvent(es: seq<Event>): (r: Option<Event>) {
    if es == [] then None
    else if TouchesAccessToken(es[|es| - 1]) then Some(es[|es| - 1])
    else LastAccessTokenEvent(es[..|es| - 1])
  }

  predicate AgreeButForAccessToken(v: View, w: View) {
    v == w.(accessTokenID := v.accessTokenID, accessTokenExpiration := v.accessTokenExpiration)
  }

  /** What the last access token event leaves in the two access token fields. */
  function AccessTokenFields(e: Option<Event>): (string, Time)
    requires e.Some? ==> TouchesAccessToken(e.value)
  {
    if e.None? then (EMPTY.accessTokenID, EMPTY.accessTokenExpiration)
    else if e.value.session.AccessTokenAdded? then (e.value.session.tokenID, e.value.created + e.value.session.lifetime)
    else ("", e.value.created)
  }

  lemma {:induction false} AccessTokenFieldsOf(es: seq<Event>)
    ensures LastAccessTokenEvent(es).Some? ==> TouchesAccessToken(LastAccessTokenEvent(es).value)
    ensures (Reduced(EMPTY, es).accessTokenID, Reduced(EMPTY, es).accessTokenExpiration)
         == AccessTokenFields(LastAccessTokenEvent(es))
  {
    if es != [] {
      AccessTokenFieldsOf(es[..|es| - 1]);
    }
  }

  lemma StepAgrees(v: View, w: View, e: Event)
    requires AgreeButForAccessToken(v, w)
    ensures AgreeButForAccessToken(Step(v, e), Step(w, e))
    ensures e.OIDCSessionEvent? && e.session.AccessTokenRevoked? ==> AgreeButForAccessToken(v, Step(w, e))
  {
  }

  lemma {:induction false} FilteredAgrees(es: seq<Event>, id: string)
    requires forall e <- es :: Matches(WholeOIDCSession(id), e)
    ensures AgreeButForAccessToken(Reduced(EMPTY, Filter(es, OIDCSessionQuery(id))), Reduced(EMPTY, es))
  {
    if es != [] {
      var init, last := es[..|es| - 1], es[|es| - 1];
      FilteredAgrees(init, id);
      assert last in es;
      var f := Filter(init, OIDCSessionQuery(id));
      StepAgrees(Reduced(EMPTY, f), Reduced(EMPTY, init), last);
      ReducedSnoc(EMPTY, f, last);
    }
  }

  predicate IsAccessTokenRevocation(e: Option<Event>) {
    e.Some? && e.value.OIDCSessionEvent? && e.value.session.AccessTokenRevoked?
  }

  /**
  The load that omits access token revocations agrees with the whole log on every field but the
  two of the access token, and on those too unless the last access token event is a revocation.
  In that case the loaded model still holds what the previous event left.
  */
  lemma FilteredLoad(log: seq<Event>, id: string)
    ensures AgreeButForAccessToken(Load(log, id), LoadWhole(log, id))
    ensures var whole := Filter(log, WholeOIDCSession(id));
            if IsAccessTokenRevocation(LastAccessTokenEvent(whole)) then
              && LoadWhole(log, id).accessTokenID == ""
              && (Load(log, id).accessTokenID, Load(log, id).accessTokenExpiration)
                 == AccessTokenFields(LastQueriedAccessTokenEvent(whole))
            else
              Load(log, id) == LoadWhole(log, id)
  {
    var whole := Filter(log, WholeOIDCSession(id));
    FilterMatches(log, WholeOIDCSession(id));
    FilterOfWhole(log, id);
    FilteredAgrees(whole, id);
    AccessTokenFieldsOf(whole);
    AccessTokenFieldsOf(Filter(log, OIDCSessionQuery(id)));
    LastQueried(whole, id);
    NotRevokedMeansQueried(whole);
  }

  /** The last event that decides the access token and that the query returns. */
  function LastQueriedAccessTokenEvent(es: seq<Event>): (r: Option<Event>)
    ensures r.Some? ==> TouchesAccessToken(r.value) && !r.value.session.AccessTokenRevoked?
  {
    if es == [] then None
    else if TouchesAccessToken(es[|es| - 1]) && !es[|es| - 1].session.AccessTokenRevoked? then Some(es[|es| - 1])
    else LastQueriedAccessTokenEvent(es[..|es| - 1])
  }

  lemma {:induction false} NotRevokedMeansQueried(es: seq<Event>)
    ensures !IsAccessTokenRevocation(LastAccessTokenEvent(es)) ==> LastQueriedAccessTokenEvent(es) == LastAccessTokenEvent(es)
  {
    if es != [] {
      NotRevokedMeansQueried(es[..|es| - 1]);
    }
  }

  lemma {:induction false} LastQueried(es: seq<Event>, id: string)
    requires forall e <- es :: Matches(WholeOIDCSession(id), e)
    ensures LastAccessTokenEvent(Filter(es, OIDCSessionQuery(id))) == LastQueriedAccessTokenEvent(es)
  {
    if es != [] {
      var init, last := es[..|es| - 1], es[|es| - 1];
      LastQueried(init, id);
      assert last in es;
      var f := Filter(init, OIDCSessionQuery(id));
      if Matches(OIDCSessionQuery(id), last) {
        assert (f + [last])[..|f|] == f;
        assert Filter(es, OIDCSessionQuery(id)) == f + [last];
      } else {
        assert Filter(es, OIDCSessionQuery(id)) == f;
      }
    }
  }

  // ---------------------------------------------------------------- incremental reduction

  lemma {:induction false} ReducedFiltered(v: View, id: string, es: seq<Event>)
    requires forall e <- es :: e.OIDCSessionEvent? ==> e.id == id && !e.session.AccessTokenRevoked?
    ensures Reduced(v, Filter(es, OIDCSessionQuery(id))) == Reduced(v, es)
  {
    if es != [] {
      var init, last := es[..|es| - 1], es[|es| - 1];
      ReducedFiltered(v, id, init);
      ReducedSnoc(v, Filter(init, OIDCSessionQuery(id)), last);
    }
  }

  /**
  A loaded session that reduces a pushed batch, events of the auth request included, is a fresh
  load of the longer log, provided the batch revokes no access token.
  */
  lemma IncrementalEqualsReload(log: seq<Event>, id: string, pushed: seq<Event>)
    requires forall e <- pushed :: e.OIDCSessionEvent? ==> e.id == id && !e.session.AccessTokenRevoked?
    ensures Reduced(Load(log, id), pushed) == Load(log + pushed, id)
  {
    FilterConcat(log, pushed, OIDCSessionQuery(id));
    ReducedConcat(EMPTY, Filter(log, OIDCSessionQuery(id)), Filter(pushed, OIDCSessionQuery(id)));
    ReducedFiltered(Load(log, id), id, pushed);
  }

  /** After pushing an access token revocation, the reload is as if nothing had been pushed. */
  lemma RevocationForgotten(log: seq<Event>, id: string, now: Time)
    ensures Load(log + [OIDCSessionEvent(id, now, AccessTokenRevoked)], id) == Load(log, id)
    ensures Reduced(Load(log, id), [OIDCSessionEvent(id, now, AccessTokenRevoked)]) == Load(log, id)
            <==> Load(log, id).accessTokenID == "" && Load(log, id).accessTokenExpiration == now
  {
    var e := OIDCSessionEvent(id, now, AccessTokenRevoked);
    FilterSnoc(log, e, OIDCSessionQuery(id));
    assert Reduced(Load(log, id), [e]) == Step(Reduced(Load(log, id), []), e);
  }

  class OIDCSessionWriteModel {
    const aggregateID: string
    var events: seq<Event>
    var grant: Grant
    var state: SessionState
    var accessTokenID: string
    var accessTokenExpiration: Time
    var refreshTokenID: string
    var refreshTokenExpiration: Time
    var refreshTokenIdleExpiration: Time

    constructor (id: string)
      ensures aggregateID == id && events == [] && Fields() == EMPTY
    {
      aggregateID := id;
      events := [];
      grant, state := NO_GRANT, SessionUnspecified;
      accessTokenID, accessTokenExpiration := "", 0;
      refreshTokenID, refreshTokenExpiration, refreshTokenIdleExpiration := "", 0, 0;
    }

    function Fields(): View
      reads this
    {
      View(grant, state, accessTokenID, accessTokenExpiration,
           refreshTokenID, refreshTokenExpiration, refreshTokenIdleExpiration)
    }

    method AppendEvents(more: seq<Event>)
      modifies `events
      ensures events == old(events) + more
    {
      events := events + more;
    }

    method ReduceEvent(e: Event)
      requires e.OIDCSessionEvent?
      modifies this
      ensures Fields() == Step(old(Fields()), e) && events == old(events)
    {
      match e.session
      case SessionAdded(g) =>
        grant, state := g, SessionActive;
      case AccessTokenAdded(id, _, lifetime) =>
        accessTokenID, accessTokenExpiration := id, e.created + lifetime;
      case AccessTokenRevoked =>
        accessTokenID, accessTokenExpiration := "", e.created;
      case RefreshTokenAdded(id, lifetime, idleLifetime) =>
        refreshTokenID := id;
        refreshTokenExpiration, refreshTokenIdleExpiration := e.created + lifetime, e.created + idleLifetime;
      case RefreshTokenRenewed(id, idleLifetime) =>
        refreshTokenID, refreshTokenIdleExpiration := id, e.created + idleLifetime;
      case RefreshTokenRevoked =>
        refreshTokenID, refreshTokenExpiration, refreshTokenIdleExpiration := "", e.created, e.created;
        accessTokenID, accessTokenExpiration := "", e.created;
    }

    method Reduce()
      modifies this
      ensures Fields() == Reduced(old(Fields()), old(events))
      ensures events == []
    {
      for i := 0 to |events|
        invariant events == old(events)
        invariant Fields() == Reduced(old(Fields()), events[..i])
      {
        assert events[..i + 1][..i] == events[..i];
        if events[i].OIDCSessionEvent? {
          ReduceEvent(events[i]);
        }
      }
      assert events[..|events|] == events;
      events := [];
    }

    method AppendAndReduce(more: seq<Event>)
      requires events == []
      modifies this
      ensures Fields() == Reduced(old(Fields()), more)
      ensures events == []
    {
      AppendEvents(more);
      assert events == more;
      Reduce();
    }

    method CheckClient(client: string) returns (r: Result<(), Error>)
      ensures r == ClientChecked(Fields(), client)
    {
      for i := 0 to |grant.audience|
        invariant client !in grant.audience[..i]
      {
        if grant.audience[i] == client {
          return Ok(());
        }
      }
      return Err(PreconditionFailed("OIDCS-SKjl3"));
    }
  }
}
