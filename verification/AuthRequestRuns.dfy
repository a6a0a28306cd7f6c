/** What the log of one auth request looks like in every run. */
module AuthRequestRuns {
  import opened Wrappers
  import opened EventLog
  import opened OIDCFlow
  import Request = AuthRequestModel

  function RequestLog(log: seq<Event>, id: string): seq<Event> {
    Filter(log, AuthRequestQuery(id))
  }

  predicate IsAdded(e: Event) { e.AuthRequestEvent? && e.request.RequestAdded? }
  predicate IsLink(e: Event) { e.AuthRequestEvent? && e.request.SessionLinked? }
  predicate IsFailed(e: Event) { e.AuthRequestEvent? && e.request.RequestFailed? }
  predicate IsCodeAdded(e: Event) { e.AuthRequestEvent? && e.request.CodeAdded? }
  predicate IsCodeExchanged(e: Event) { e.AuthRequestEvent? && e.request.CodeExchanged? }
  predicate IsSucceeded(e: Event) { e.AuthRequestEvent? && e.request.Succeeded? }

  /** The session named by the last of the links w[1..k]. */
  function LinkedSession(w: seq<Event>, k: nat): string
    requires 1 <= k <= |w| && forall i :: 1 <= i < k ==> IsLink(w[i])
  {
    if k == 1 then ""
    else
      assert IsLink(w[k - 1]);
      w[k - 1].request.sessionID
  }

  /**
  How an auth request may go on after its links w[1..k]: not at all, failed, with a code that may
  be exchanged and then may succeed, or straight to success. The direct way is for the ID token
  response types only, the one through a code for the code response type only, and only a
  request linked to a session gets a code or succeeds.
  */
  predicate IsEnding(w: seq<Event>, k: nat)
    requires 1 <= k <= |w| && IsAdded(w[0]) && forall i :: 1 <= i < k ==> IsLink(w[i])
  {
    var responseType, linked := w[0].request.request.responseType, LinkedSession(w, k);
    match |w| - k
    case 0 => true
    case 1 =>
      || IsFailed(w[k])
      || (IsCodeAdded(w[k]) && linked != "")
      || (IsSucceeded(w[k]) && linked != "" && (responseType.IDToken? || responseType.IDTokenToken?))
    case 2 => IsCodeAdded(w[k]) && linked != "" && IsCodeExchanged(w[k + 1])
    case 3 => IsCodeAdded(w[k]) && linked != "" && IsCodeExchanged(w[k + 1]) && IsSucceeded(w[k + 2]) && responseType.Code?
    case _ => false
  }

  predicate IsWordAt(w: seq<Event>, k: nat) {
    && 1 <= k <= |w|
    && IsAdded(w[0])
    && (forall i :: 1 <= i < k ==> IsLink(w[i]) && w[i].request.sessionID != "")
    && IsEnding(w, k)
  }

  /** Added, then links, then one of the endings; or nothing at all. */
  ghost predicate IsWord(w: seq<Event>) {
    w == [] || exists k: nat :: IsWordAt(w, k)
  }

  /** The state that an event of a word leaves. */
  function StateAfter(e: Event): Request.RequestState
    requires e.AuthRequestEvent?
  {
    match e.request
    case RequestAdded(_) => Request.RequestStateAdded
    case SessionLinked(_, _, _, _) => Request.RequestStateAdded
    case RequestFailed(_) => Request.RequestStateFailed
    case CodeAdded => Request.RequestStateCodeAdded
    case CodeExchanged => Request.RequestStateCodeExchanged
    case Succeeded => Request.RequestStateSucceeded
  }

  /** The write model of a word: the request of its first event, its last link, its last event. */
  lemma {:induction false} WordState(w: seq<Event>, k: nat)
    requires IsWordAt(w, k)
    ensures w[|w| - 1].AuthRequestEvent?
    ensures var v := Request.Reduced(Request.EMPTY, w);
            && v.request == w[0].request.request
            && v.sessionID == LinkedSession(w, k)
            && v.state == StateAfter(w[|w| - 1])
  {
    var init := w[..|w| - 1];
    if |w| == 1 {
      assert Request.Reduced(Request.EMPTY, init) == Request.EMPTY;
    } else {
      WordState(init, if k < |w| then k else k - 1);
    }
  }

  /** What a command requires of the loaded model before it pushes an event of the auth request. */
  predicate Allowed(v: Request.View, e: Event) {
    e.AuthRequestEvent? &&
    match e.request
    case RequestAdded(_) => v.state.RequestUnspecified?
    case SessionLinked(sessionID, _, _, _) => v.state.RequestStateAdded? && sessionID != ""
    case RequestFailed(_) => v.state.RequestStateAdded?
    case CodeAdded => v.state.RequestStateAdded? && v.sessionID != ""
    case CodeExchanged => v.state.RequestStateCodeAdded?
    case Succeeded => Request.CheckAuthenticated(v).Ok?
  }

  lemma WordGrows(w: seq<Event>, e: Event)
    requires IsWord(w) && Allowed(Request.Reduced(Request.EMPTY, w), e)
    ensures IsWord(w + [e])
  {
    var w' := w + [e];
    if w == [] {
      assert IsWordAt(w', 1);
    } else {
      var k: nat :| IsWordAt(w, k);
      WordState(w, k);
      EndingState(w, k);
      assert IsWordAt(w', if IsLink(e) then k + 1 else k);
    }
  }

  /** The state of a word tells how far its ending has got. */
  lemma EndingState(w: seq<Event>, k: nat)
    requires IsWordAt(w, k)
    ensures w[|w| - 1].AuthRequestEvent?
    ensures match StateAfter(w[|w| - 1])
            case RequestUnspecified => false
            case RequestStateAdded => |w| == k
            case RequestStateFailed => |w| == k + 1 && IsFailed(w[k])
            case RequestStateCodeAdded => |w| == k + 1 && IsCodeAdded(w[k])
            case RequestStateCodeExchanged => |w| == k + 2
            case RequestStateSucceeded => (|w| == k + 1 && IsSucceeded(w[k])) || |w| == k + 3
  {
  }

  lemma FilterSingle(es: seq<Event>, q: Query)
    requires |es| == 1
    ensures Filter(es, q) == if Matches(q, es[0]) then es else []
  {
    FilterSnoc([], es[0], q);
    assert es == [] + [es[0]];
  }

  lemma {:induction false} FilterNone(es: seq<Event>, q: Query)
    requires forall i :: 0 <= i < |es| ==> !Matches(q, es[i])
    ensures Filter(es, q) == []
  {
    if es != [] {
      FilterNone(es[..|es| - 1], q);
    }
  }

  predicate IsRequestCommand(c: Command) {
    c.AddAuthRequest? || c.LinkSession? || c.FailAuthRequest? || c.AddCode? || c.ExchangeCode?
  }

  /** The auth request commands push one event, and only one that the loaded model allows. */
  lemma RequestCommandPushes(cfg: Config, s: Store, c: Command)
    requires IsRequestCommand(c)
    ensures var es := Pushed(Decide(cfg, s, c));
            es == [] || (|es| == 1 && Allowed(Request.Load(s.log, es[0].id), es[0]))
  {
  }

  /** Minting pushes session events and then the success of the request, which must be authenticated. */
  lemma MintPushes(cfg: Config, s: Store, c: Command)
    requires c.Mint?
    ensures var es := Pushed(Decide(cfg, s, c));
            es == [] ||
            (&& |es| >= 1 && (forall i :: 0 <= i < |es| - 1 ==> es[i].OIDCSessionEvent?)
             && IsSucceeded(es[|es| - 1]) && es[|es| - 1].id == c.requestID
             && Allowed(Request.Load(s.log, c.requestID), es[|es| - 1]))
  {
  }

  /** The other commands push no event of an auth request. */
  lemma SessionCommandPushes(cfg: Config, s: Store, c: Command)
    requires !IsRequestCommand(c) && !c.Mint?
    ensures forall e <- Pushed(Decide(cfg, s, c)) :: e.OIDCSessionEvent?
  {
  }

  /** A command pushes at most one event of any auth request, and only one that its model allows. */
  lemma PushedToRequest(cfg: Config, s: Store, c: Command, id: string)
    ensures var pushed := Filter(Pushed(Decide(cfg, s, c)), AuthRequestQuery(id));
            pushed == [] || (|pushed| == 1 && Allowed(Request.Load(s.log, id), pushed[0]))
  {
    var es, q := Pushed(Decide(cfg, s, c)), AuthRequestQuery(id);
    if IsRequestCommand(c) {
      RequestCommandPushes(cfg, s, c);
      if es != [] {
        FilterSingle(es, q);
      }
    } else if c.Mint? {
      MintPushes(cfg, s, c);
      if es != [] {
        FilterNone(es[..|es| - 1], q);
      }
    } else {
      SessionCommandPushes(cfg, s, c);
      FilterNone(es, q);
    }
  }

  lemma WordKept(cfg: Config, s: Store, c: Command, id: string)
    requires IsWord(RequestLog(s.log, id))
    ensures IsWord(RequestLog(Next(cfg, s, c).log, id))
  {
    var es := Pushed(Decide(cfg, s, c));
    FilterConcat(s.log, es, AuthRequestQuery(id));
    PushedToRequest(cfg, s, c, id);
    var pushed := Filter(es, AuthRequestQuery(id));
    if pushed != [] {
      assert pushed == [pushed[0]];
      WordGrows(RequestLog(s.log, id), pushed[0]);
    } else {
      assert RequestLog(s.log, id) + pushed == RequestLog(s.log, id);
    }
  }

  /** In every run the log of every auth request is a word of the grammar. */
  lemma {:induction false} RequestLogsAreWords(cfg: Config, s: Store, cs: seq<Command>, id: string)
    requires IsWord(RequestLog(s.log, id))
    ensures IsWord(RequestLog(Exec(cfg, s, cs).log, id))
  {
    if cs != [] {
      RequestLogsAreWords(cfg, s, cs[..|cs| - 1], id);
      WordKept(cfg, Exec(cfg, s, cs[..|cs| - 1]), cs[|cs| - 1], id);
    }
  }

  /** The events an id's log gains over a run come after the ones it has. */
  lemma ProjectionGrows(cfg: Config, s: Store, cs: seq<Command>, q: Query)
    ensures Filter(s.log, q) <= Filter(Exec(cfg, s, cs).log, q)
  {
    LogGrows(cfg, s, cs);
    var longer := Exec(cfg, s, cs).log;
    assert longer == s.log + longer[|s.log|..];
    FilterConcat(s.log, longer[|s.log|..], q);
  }

  predicate IsFinal(e: Event) {
    IsFailed(e) || IsSucceeded(e)
  }

  /** In a word, an event that ends the request is the last one. */
  lemma FinalIsLast(w: seq<Event>, i: nat)
    requires IsWord(w) && i < |w| && IsFinal(w[i])
    ensures i == |w| - 1
  {
  }

  /** Once an auth request has failed or succeeded, no run adds to it, and it loads the same forever. */
  lemma FinishedRequestIsFrozen(cfg: Config, s: Store, cs: seq<Command>, id: string, i: nat)
    requires IsWord(RequestLog(s.log, id))
    requires i < |RequestLog(s.log, id)| && IsFinal(RequestLog(s.log, id)[i])
    ensures RequestLog(Exec(cfg, s, cs).log, id) == RequestLog(s.log, id)
    ensures Request.Load(Exec(cfg, s, cs).log, id) == Request.Load(s.log, id)
  {
    var later := RequestLog(Exec(cfg, s, cs).log, id);
    RequestLogsAreWords(cfg, s, cs, id);
    ProjectionGrows(cfg, s, cs, AuthRequestQuery(id));
    assert later[i] == RequestLog(s.log, id)[i];
    FinalIsLast(later, i);
  }

  /** A word with an exchange in it no longer has a code to exchange. */
  lemma ExchangedState(w: seq<Event>, i: nat)
    requires IsWord(w) && i < |w| && IsCodeExchanged(w[i])
    ensures !Request.Reduced(Request.EMPTY, w).state.RequestStateCodeAdded?
  {
    var k: nat :| IsWordAt(w, k);
    WordState(w, k);
    EndingState(w, k);
  }

  lemma ExchangedLoads(log: seq<Event>, i: nat)
    requires i < |log| && IsCodeExchanged(log[i]) && IsWord(RequestLog(log, log[i].id))
    ensures !Request.Load(log, log[i].id).state.RequestStateCodeAdded?
  {
    FilterComplete(log, AuthRequestQuery(log[i].id), i);
    var w := RequestLog(log, log[i].id);
    var k: nat :| k < |w| && w[k] == log[i];
    ExchangedState(w, k);
  }

  lemma ExchangeRefused(cfg: Config, s: Store, code: string)
    requires !Request.Load(s.log, code).state.RequestStateCodeAdded?
    ensures Decide(cfg, s, ExchangeCode(code)).Err?
  {
  }

  /** Once a code has been exchanged, every later exchange of it is refused (section 4.1.2 of RFC 6749). */
  lemma CodeIsSingleUse(cfg: Config, s: Store, cs: seq<Command>, i: nat)
    requires Reachable(cfg, s) && i < |s.log| && IsCodeExchanged(s.log[i])
    ensures Decide(cfg, Exec(cfg, s, cs), ExchangeCode(s.log[i].id)).Err?
  {
    var code, later := s.log[i].id, Exec(cfg, s, cs);
    var start, before :| Reaches(cfg, start, before, s);
    RequestLogsAreWords(cfg, Start(start), before, code);
    RequestLogsAreWords(cfg, s, cs, code);
    LogGrows(cfg, s, cs);
    assert later.log[i] == s.log[i];
    ExchangedLoads(later.log, i);
    ExchangeRefused(cfg, later, code);
  }
}
