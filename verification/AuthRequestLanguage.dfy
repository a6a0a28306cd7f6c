/** The grammar of auth request logs is exact: every word of it is the log of some run. */
module AuthRequestLanguage {
  import opened Wrappers
  import opened EventLog
  import opened Tokens
  import opened OIDCFlow
  import opened AuthRequestRuns
  import Request = AuthRequestModel

  predicate Chronological(es: seq<Event>) {
    forall i :: 0 < i < |es| ==> es[i - 1].created <= es[i].created
  }

  predicate Until(es: seq<Event>, now: Time) {
    Chronological(es) && (es != [] ==> es[|es| - 1].created <= now)
  }

  predicate OfRequest(w: seq<Event>, id: string) {
    forall i :: 0 <= i < |w| ==> w[i].AuthRequestEvent? && w[i].id == id
  }

  // ---------------------------------------------------------------- every log is chronological

  lemma PushedNow(cfg: Config, s: Store, c: Command)
    ensures forall i :: 0 <= i < |Pushed(Decide(cfg, s, c))| ==> Pushed(Decide(cfg, s, c))[i].created == s.now
  {
  }

  lemma UntilConcat(a: seq<Event>, b: seq<Event>, now: Time, later: Time)
    requires Until(a, now) && now <= later && forall i :: 0 <= i < |b| ==> b[i].created == now
    ensures Until(a + b, later)
  {
  }

  lemma {:induction false} LogIsChronological(cfg: Config, start: Time, cs: seq<Command>)
    ensures Until(Exec(cfg, Start(start), cs).log, Exec(cfg, Start(start), cs).now)
  {
    if cs != [] {
      var s, c := Exec(cfg, Start(start), cs[..|cs| - 1]), cs[|cs| - 1];
      LogIsChronological(cfg, start, cs[..|cs| - 1]);
      PushedNow(cfg, s, c);
      UntilConcat(s.log, Pushed(Decide(cfg, s, c)), s.now, Next(cfg, s, c).now);
    }
  }

  lemma {:induction false} ProjectionIsChronological(es: seq<Event>, now: Time, q: Query)
    requires Until(es, now)
    ensures Until(Filter(es, q), now)
  {
    if es != [] {
      var init, e := es[..|es| - 1], es[|es| - 1];
      assert es == init + [e];
      FilterSnoc(init, e, q);
      ProjectionIsChronological(init, e.created, q);
    }
  }

  lemma ProjectionIsOfRequest(es: seq<Event>, id: string)
    ensures OfRequest(RequestLog(es, id), id)
  {
    var w := RequestLog(es, id);
    FilterMatches(es, AuthRequestQuery(id));
    forall i | 0 <= i < |w|
      ensures Matches(AuthRequestQuery(id), w[i])
    {
      assert w[i] in w;
    }
  }

  // ---------------------------------------------------------------- every word occurs

  /** The command that pushes an event of a word. Only minting needs generated ids besides the one of the request. */
  function CommandFor(e: Event, generated: string): Command
    requires e.AuthRequestEvent?
  {
    match e.request
    case RequestAdded(request) => AddAuthRequest(generated, request)
    case SessionLinked(sessionID, userID, authTime, authMethods) =>
      LinkSession(e.id, sessionID, Login(LoginActive, userID, authTime, authMethods), Ok(()), false, "")
    case RequestFailed(reason) => FailAuthRequest(e.id, reason)
    case CodeAdded => AddCode(e.id, e.id)
    case CodeExchanged => ExchangeCode(e.id)
    case Succeeded =>
      Mint(e.id, Login(LoginActive, "", 0, []), true, Lifetimes(0, 0, 0), generated + "s", generated + "a", None)
  }

  /** The run has left the word as the log of the request, and no id has been used but the one of the request. */
  ghost predicate Reached(cfg: Config, s: Store, g: string, w: seq<Event>) {
    && RequestLog(s.log, ID_PREFIX_V2 + g) == w
    && (w == [] ==> s.used == {})
    && (w != [] ==> s.now == w[|w| - 1].created)
    && (w != [] && !IsFinal(w[|w| - 1]) ==> s.used <= {g})
  }

  lemma CommandIsFresh(s: Store, g: string, e: Event)
    requires PlainID(g) && e.AuthRequestEvent? && s.used <= {g}
    requires IsAdded(e) ==> s.used == {}
    ensures Fresh(s, CommandFor(e, g))
  {
    assert PlainID("s") && PlainID("a");
    assert |g + "s"| != |g| && |g + "a"| != |g|;
    assert (g + "s")[|g|] != (g + "a")[|g|];
  }

  /** When the loaded model allows the event, the command succeeds and pushes the event as its last. */
  lemma CommandPushes(cfg: Config, s: Store, g: string, e: Event)
    requires Allowed(Request.Load(s.log, ID_PREFIX_V2 + g), e) && e.id == ID_PREFIX_V2 + g && e.created == s.now
    ensures RequestLog(Pushed(Decide(cfg, s, CommandFor(e, g))), e.id) == [e]
  {
    var es, q := Pushed(Decide(cfg, s, CommandFor(e, g))), AuthRequestQuery(e.id);
    if IsSucceeded(e) {
      var init := es[..|es| - 1];
      assert es == init + [e];
      FilterNone(init, q);
      FilterSnoc(init, e, q);
      assert [] + [e] == [e];
    } else {
      assert es == [e];
      FilterSingle(es, q);
    }
  }

  /** One more event: wait until its time, then run its command. */
  lemma ReachNext(cfg: Config, s: Store, g: string, w: seq<Event>, e: Event) returns (more: seq<Command>)
    requires PlainID(g) && Reached(cfg, s, g, w) && s.now <= e.created && e.AuthRequestEvent? && e.id == ID_PREFIX_V2 + g
    requires Allowed(Request.Reduced(Request.EMPTY, w), e) && (w != [] ==> !IsFinal(w[|w| - 1])) && (IsAdded(e) <==> w == [])
    ensures Admissible(cfg, s, more) && Reached(cfg, Exec(cfg, s, more), g, w + [e])
  {
    var wait, c := Wait(e.created - s.now), CommandFor(e, g);
    more := [wait, c];
    var waited := Next(cfg, s, wait);
    assert waited == Store(s.log, e.created, s.used) by {
      assert s.log + [] == s.log;
    }
    CommandIsFresh(waited, g, e);
    CommandReaches(cfg, waited, g, w, e);
    TwoCommands(cfg, s, wait, c);
  }

  lemma OneCommand(cfg: Config, s: Store, c: Command)
    ensures Exec(cfg, s, [c]) == Next(cfg, s, c)
    ensures Admissible(cfg, s, [c]) <==> Fresh(s, c)
  {
    ExecSnoc(cfg, s, [], c);
    assert [] + [c] == [c];
    assert Exec(cfg, s, []) == s && Admissible(cfg, s, []);
  }

  lemma TwoCommands(cfg: Config, s: Store, c: Command, d: Command)
    requires Fresh(s, c) && Fresh(Next(cfg, s, c), d)
    ensures Exec(cfg, s, [c, d]) == Next(cfg, Next(cfg, s, c), d) && Admissible(cfg, s, [c, d])
  {
    OneCommand(cfg, s, c);
    ExecSnoc(cfg, s, [c], d);
    assert [c] + [d] == [c, d];
  }

  lemma CommandReaches(cfg: Config, s: Store, g: string, w: seq<Event>, e: Event)
    requires RequestLog(s.log, ID_PREFIX_V2 + g) == w && s.now == e.created && e.id == ID_PREFIX_V2 + g && s.used <= {g}
    requires Allowed(Request.Reduced(Request.EMPTY, w), e)
    ensures Reached(cfg, Next(cfg, s, CommandFor(e, g)), g, w + [e])
  {
    var c := CommandFor(e, g);
    CommandPushes(cfg, s, g, e);
    FilterConcat(s.log, Pushed(Decide(cfg, s, c)), AuthRequestQuery(e.id));
    assert Generated(c) == (if IsAdded(e) then [g] else if IsSucceeded(e) then [g + "s", g + "a"] + [] else []);
  }

  lemma PrefixIsWord(w: seq<Event>, k: nat)
    requires IsWordAt(w, k) && |w| >= 2
    ensures IsWordAt(w[..|w| - 1], if k < |w| then k else k - 1)
  {
  }

  /** The last event of a word is one that the model of the events before it allows. */
  lemma LastIsAllowed(w: seq<Event>)
    requires IsWord(w) && w != []
    ensures var init, e := w[..|w| - 1], w[|w| - 1];
            && IsWord(init) && Allowed(Request.Reduced(Request.EMPTY, init), e)
            && (init != [] ==> !IsFinal(init[|init| - 1])) && (IsAdded(e) <==> init == [])
  {
    var init, e := w[..|w| - 1], w[|w| - 1];
    var k: nat :| IsWordAt(w, k);
    if init != [] {
      var m := if k < |w| then k else k - 1;
      PrefixIsWord(w, k);
      WordState(init, m);
      EndingState(init, m);
    }
  }

  lemma {:induction false} WordOccurs(cfg: Config, g: string, start: Time, w: seq<Event>) returns (cs: seq<Command>)
    requires PlainID(g) && IsWord(w) && OfRequest(w, ID_PREFIX_V2 + g) && Chronological(w)
    requires w != [] ==> start <= w[0].created
    ensures Admissible(cfg, Start(start), cs) && Reached(cfg, Exec(cfg, Start(start), cs), g, w)
    ensures w == [] ==> cs == []
  {
    if w == [] {
      cs := [];
    } else {
      var init, e := w[..|w| - 1], w[|w| - 1];
      assert init + [e] == w;
      LastIsAllowed(w);
      var before := WordOccurs(cfg, g, start, init);
      var s := Exec(cfg, Start(start), before);
      assert s.now <= e.created;
      var more := ReachNext(cfg, s, g, init, e);
      ExecConcat(cfg, Start(start), before, more);
      cs := before + more;
    }
  }

  ghost predicate OccursIn(cfg: Config, id: string, w: seq<Event>, start: Time, cs: seq<Command>) {
    Admissible(cfg, Start(start), cs) && RequestLog(Exec(cfg, Start(start), cs).log, id) == w
  }

  /** The logs that runs give an auth request are exactly the chronological words of the grammar. */
  lemma LogsAreExactlyWords(cfg: Config, g: string, w: seq<Event>)
    requires PlainID(g)
    ensures (exists start, cs :: OccursIn(cfg, ID_PREFIX_V2 + g, w, start, cs))
            <==> IsWord(w) && OfRequest(w, ID_PREFIX_V2 + g) && Chronological(w)
  {
    var id := ID_PREFIX_V2 + g;
    forall start, cs | OccursIn(cfg, id, w, start, cs)
      ensures IsWord(w) && OfRequest(w, id) && Chronological(w)
    {
      var s := Exec(cfg, Start(start), cs);
      RequestLogsAreWords(cfg, Start(start), cs, id);
      LogIsChronological(cfg, start, cs);
      ProjectionIsChronological(s.log, s.now, AuthRequestQuery(id));
      ProjectionIsOfRequest(s.log, id);
    }
    if IsWord(w) && OfRequest(w, id) && Chronological(w) {
      var start := if w == [] then 0 else w[0].created;
      var cs := WordOccurs(cfg, g, start, w);
      assert OccursIn(cfg, id, w, start, cs);
    }
  }
}
