/** The auth request write model: the fold of an auth request's events, and its one decision. */
module AuthRequestModel {
  import opened Wrappers
  import opened EventLog

  datatype RequestState =
    | RequestUnspecified
    | RequestStateAdded
    | RequestStateCodeAdded
    | RequestStateCodeExchanged
    | RequestStateFailed
    | RequestStateSucceeded

  /** The fields of the write model as one value. */
  datatype View = View(
    request: AuthRequest,
    sessionID: string,
    userID: string,
    authTime: Time,
    authMethods: seq<int>,
    state: RequestState)

  const NO_REQUEST := AuthRequest("", "", "", "", "", [], [], Code, None, [], [], None, None, None)
  const EMPTY := View(NO_REQUEST, "", "", 0, [], RequestUnspecified)

  function Step(v: View, e: Event): View {
    if e.OIDCSessionEvent? then v
    else
      match e.request
      case RequestAdded(request) => v.(request := request, state := RequestStateAdded)
      case SessionLinked(sessionID, userID, authTime, authMethods) =>
        v.(sessionID := sessionID, userID := userID, authTime := authTime, authMethods := authMethods)
      case CodeAdded => v.(state := RequestStateCodeAdded)
      case RequestFailed(_) => v.(state := RequestStateFailed)
      case CodeExchanged => v.(state := RequestStateCodeExchanged)
      case Succeeded => v.(state := RequestStateSucceeded)
  }

  function Reduced(v: View, es: seq<Event>): View {
    if es == [] then v else Step(Reduced(v, es[..|es| - 1]), es[|es| - 1])
  }

  lemma ReducedSnoc(v: View, es: seq<Event>, e: Event)
    ensures Reduced(v, es + [e]) == Step(Reduced(v, es), e)
  {
    assert (es + [e])[..|es|] == es;
  }

  lemma {:induction false} ReducedConcat(v: View, a: seq<Event>, b: seq<Event>)
    ensures Reduced(v, a + b) == Reduced(Reduced(v, a), b)
  {
    if b == [] {
      assert a + b == a;
    } else {
      ReducedConcat(v, a, b[..|b| - 1]);
      assert (a + b)[..|a + b| - 1] == a + b[..|b| - 1];
    }
  }

  /** The auth request a log holds for an id. */
  function Load(log: seq<Event>, id: string): View {
    Reduced(EMPTY, Filter(log, AuthRequestQuery(id)))
  }

  /** A loaded model that reduces the events just pushed is a fresh load of the longer log. */
  lemma IncrementalEqualsReload(log: seq<Event>, id: string, pushed: seq<Event>)
    requires forall e <- pushed :: e.AuthRequestEvent? ==> e.id == id
    ensures Reduced(Load(log, id), pushed) == Load(log + pushed, id)
  {
    FilterConcat(log, pushed, AuthRequestQuery(id));
    ReducedConcat(EMPTY, Filter(log, AuthRequestQuery(id)), Filter(pushed, AuthRequestQuery(id)));
    ReducedFiltered(Load(log, id), id, pushed);
  }

  lemma {:induction false} ReducedFiltered(v: View, id: string, es: seq<Event>)
    requires forall e <- es :: e.AuthRequestEvent? ==> e.id == id
    ensures Reduced(v, Filter(es, AuthRequestQuery(id))) == Reduced(v, es)
  {
    if es != [] {
      var init, last := es[..|es| - 1], es[|es| - 1];
      ReducedFiltered(v, id, init);
      ReducedSnoc(v, Filter(init, AuthRequestQuery(id)), last);
    }
  }

  /**
  Tokens may be issued for a request with a linked session whose code has been exchanged, or,
  without a code, for one that has just been added.
  */
  function CheckAuthenticated(v: View): Result<(), Error> {
    if v.sessionID == "" then Err(PreconditionFailed("AUTHR-SF2r2"))
    else if v.request.responseType.Code? && v.state.RequestStateCodeExchanged? then Ok(())
    else if (v.request.responseType.IDToken? || v.request.responseType.IDTokenToken?) && v.state.RequestStateAdded? then Ok(())
    else Err(PreconditionFailed("AUTHR-sajk3"))
  }

  class AuthRequestWriteModel {
    const aggregateID: string
    var events: seq<Event>
    var request: AuthRequest
    var sessionID: string
    var userID: string
    var authTime: Time
    var authMethods: seq<int>
    var state: RequestState

    constructor (id: string)
      ensures aggregateID == id && events == [] && Fields() == EMPTY
    {
      aggregateID := id;
      events := [];
      request := NO_REQUEST;
      sessionID, userID, authTime, authMethods := "", "", 0, [];
      state := RequestUnspecified;
    }

    function Fields(): View
      reads this
    {
      View(request, sessionID, userID, authTime, authMethods, state)
    }

    method AppendEvents(more: seq<Event>)
      modifies `events
      ensures events == old(events) + more
    {
      events := events + more;
    }

    method Reduce()
      modifies this
      ensures Fields() == Reduced(old(Fields()), old(events))
      ensures events == []
    {
      for i := 0 to |events|
        invariant events == old(events)
        invariant Fields() == Reduced(old(Fields()), events[..i])
      {
        assert events[..i + 1][..i] == events[..i];
        if events[i].AuthRequestEvent? {
          match events[i].request
          case RequestAdded(r) => request, state := r, RequestStateAdded;
          case SessionLinked(s, u, t, m) => sessionID, userID, authTime, authMethods := s, u, t, m;
          case CodeAdded => state := RequestStateCodeAdded;
          case RequestFailed(_) => state := RequestStateFailed;
          case CodeExchanged => state := RequestStateCodeExchanged;
          case Succeeded => state := RequestStateSucceeded;
        }
      }
      assert events[..|events|] == events;
      events := [];
    }

    method AppendAndReduce(more: seq<Event>)
      requires events == []
      modifies this
      ensures Fields() == Reduced(old(Fields()), more)
      ensures events == []
    {
      AppendEvents(more);
      assert events == more;
      Reduce();
    }
  }
}
