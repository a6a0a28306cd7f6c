/** The three read models of an instance's domains and the commands that add and remove domains. */
module InstanceDomains {
  import Folds
  import opened Strings
  import opened Wrappers
  import opened Slices

  datatype InstanceState = InstanceUnspecified | InstanceActive | InstanceRemoved
  datatype DomainState = DomainUnspecified | DomainActive | DomainStateRemoved

  datatype Event =
    | InstanceAddedEvent(name: string)
    | InstanceChangedEvent(name: string)
    | InstanceRemovedEvent
    | DomainAdded(domain: string, generated: bool)
    | DomainRemoved(domain: string)
    | ProjectSet(projectID: string)
    | DefaultOrgSet(orgID: string)
    | DefaultLanguageSet(language: string)

  // ---------------------------------------------------------------- the domain lists

  function StepDomains(ds: seq<string>, e: Event): seq<string> {
    match e
    case DomainAdded(d, _) => ds + [d]
    case DomainRemoved(d) => SwapRemoveAll(ds, d)
    case _ => ds
  }

  function ReducedDomains(ds: seq<string>, es: seq<Event>): seq<string> {
    if es == [] then ds else StepDomains(ReducedDomains(ds, es[..|es| - 1]), es[|es| - 1])
  }

  /** The list that both list models hold for a log, in the order the swaps leave it. */
  function Domains(es: seq<Event>): seq<string> {
    ReducedDomains([], es)
  }

  // ---------------------------------------------------------------- the model of one domain

  datatype DomainView = DomainView(generated: bool, state: DomainState)

  predicate Concerns(e: Event, d: string) {
    (e.DomainAdded? || e.DomainRemoved?) && e.domain == d
  }

  function StepDomain(v: DomainView, e: Event): DomainView {
    match e
    case DomainAdded(_, generated) => DomainView(generated, DomainActive)
    case DomainRemoved(_) => v.(state := DomainStateRemoved)
    case _ => v
  }

  /** The events of d among es, and the model that they fold to. */
  function EventsOf(es: seq<Event>, d: string): seq<Event> {
    if es == [] then []
    else EventsOf(es[..|es| - 1], d) + (if Concerns(es[|es| - 1], d) then [es[|es| - 1]] else [])
  }

  function ReducedDomain(v: DomainView, es: seq<Event>): DomainView {
    if es == [] then v else StepDomain(ReducedDomain(v, es[..|es| - 1]), es[|es| - 1])
  }

  function LoadDomain(es: seq<Event>, d: string): DomainView {
    ReducedDomain(DomainView(false, DomainUnspecified), EventsOf(es, d))
  }

  lemma LoadDomainSnoc(es: seq<Event>, e: Event, d: string)
    ensures LoadDomain(es + [e], d) == if Concerns(e, d) then StepDomain(LoadDomain(es, d), e) else LoadDomain(es, d)
  {
    var before := EventsOf(es, d);
    assert (es + [e])[..|es|] == es;
    assert (before + [e])[..|before|] == before;
    assert before + [] == before;
  }

  /** On every log a name is in the list exactly when the model of that one domain is active. */
  lemma {:induction false} ListedIffActive(es: seq<Event>, d: string)
    ensures d in Domains(es) <==> LoadDomain(es, d).state.DomainActive?
  {
    if es != [] {
      var init, last := es[..|es| - 1], es[|es| - 1];
      ListedIffActive(init, d);
      LoadDomainSnoc(init, last, d);
      assert es == init + [last];
      if last.DomainRemoved? {
        SwapRemoveAllMultiset(Domains(init), last.domain);
        assert d in Domains(es) <==> d in multiset(Domains(es));
        assert d in Domains(init) <==> d in multiset(Domains(init));
      }
    }
  }

  function AddedSinceRemoval(es: seq<Event>, d: string): nat {
    if es == [] then 0
    else
      var n, e := AddedSinceRemoval(es[..|es| - 1], d), es[|es| - 1];
      if !Concerns(e, d) then n else if e.DomainAdded? then n + 1 else 0
  }

  /** On every log the list holds each name as often as it was added since its last removal. */
  lemma {:induction false} ListedAsOftenAsAdded(es: seq<Event>, d: string)
    ensures multiset(Domains(es))[d] == AddedSinceRemoval(es, d)
  {
    if es != [] {
      var init, last := es[..|es| - 1], es[|es| - 1];
      ListedAsOftenAsAdded(init, d);
      if last.DomainRemoved? {
        SwapRemoveAllMultiset(Domains(init), last.domain);
      }
    }
  }

  // ---------------------------------------------------------------- the commands

  /** The pattern ^[a-zA-Z0-9\.\-]+$. */
  predicate AllowedRunes(s: string) {
    && s != ""
    && forall i :: 0 <= i < |s| ==> 'a' <= s[i] <= 'z' || 'A' <= s[i] <= 'Z' || '0' <= s[i] <= '9' || s[i] == '.' || s[i] == '-'
  }

  datatype Command = AddDomain(name: string, generated: bool) | RemoveDomain(name: string) | Other(event: Event)

  /** Events of other commands on the instance; they neither add nor remove a domain. */
  predicate IsCommand(c: Command) {
    c.Other? ==> !c.event.DomainAdded? && !c.event.DomainRemoved?
  }

  function Decide(log: seq<Event>, c: Command): Result<seq<Event>, Error> {
    match c
    case AddDomain(name, generated) =>
      var d := TrimSpace(name);
      if d == "" then Err(InvalidArgument("INST-28nlD"))
      else if !AllowedRunes(d) then Err(InvalidArgument("INST-S3v3w"))
      else if LoadDomain(log, d).state.DomainActive? then Err(AlreadyExists("INST-i2nl"))
      else Ok([DomainAdded(d, generated)])
    case RemoveDomain(name) =>
      var d := TrimSpace(name);
      if d == "" then Err(InvalidArgument("INST-39nls"))
      else if !LoadDomain(log, d).state.DomainActive? then Err(NotFound("INSTANCE-8ls9f"))
      else if LoadDomain(log, d).generated then Err(PreconditionFailed("INSTANCE-9hn3n"))
      else Ok([DomainRemoved(d)])
    case Other(e) => Ok([e])
  }

  function Next(log: seq<Event>, c: Command): seq<Event> {
    var decided := Decide(log, c);
    log + (if decided.Ok? then decided.value else [])
  }

  function Exec(log: seq<Event>, cs: seq<Command>): seq<Event> {
    if cs == [] then log else Next(Exec(log, cs[..|cs| - 1]), cs[|cs| - 1])
  }

  lemma ExecSnoc(cs: seq<Command>, c: Command)
    ensures Exec([], cs + [c]) == Next(Exec([], cs), c)
  {
    assert (cs + [c])[..|cs|] == cs;
  }

  /** A name that has been added is listed, one that has been removed is not. */
  lemma ListedAfter(log: seq<Event>, c: Command)
    ensures c.AddDomain? && Decide(log, c).Ok? ==> TrimSpace(c.name) in Domains(Next(log, c))
    ensures c.RemoveDomain? && Decide(log, c).Ok? ==> TrimSpace(c.name) !in Domains(Next(log, c))
  {
    if Decide(log, c).Ok? {
      assert Next(log, c)[..|log|] == log;
    }
    if c.RemoveDomain? {
      SwapRemoveAllMultiset(Domains(log), TrimSpace(c.name));
    }
  }

  predicate AreCommands(cs: seq<Command>) {
    forall i :: 0 <= i < |cs| ==> IsCommand(cs[i])
  }

  /** What every run keeps: no name is listed twice, and a name ever generated is active and generated. */
  ghost predicate Invariant(log: seq<Event>) {
    && NoDuplicates(Domains(log))
    && forall d :: DomainAdded(d, true) in log ==> LoadDomain(log, d) == DomainView(true, DomainActive)
  }

  lemma InvariantKept(log: seq<Event>, c: Command)
    requires Invariant(log) && IsCommand(c)
    ensures Invariant(Next(log, c))
  {
    if Decide(log, c).Ok? {
      var e := Decide(log, c).value[0];
      assert Next(log, c)[..|log|] == log;
      NoDuplicatesKept(log, c);
      forall d | DomainAdded(d, true) in log + [e]
        ensures LoadDomain(log + [e], d) == DomainView(true, DomainActive)
      {
        LoadDomainSnoc(log, e, d);
      }
    } else {
      assert Next(log, c) == log;
    }
  }

  lemma NoDuplicatesKept(log: seq<Event>, c: Command)
    requires NoDuplicates(Domains(log)) && IsCommand(c) && Decide(log, c).Ok?
    ensures NoDuplicates(Domains(Next(log, c)))
  {
    var e := Decide(log, c).value[0];
    assert Next(log, c)[..|log|] == log;
    if e.DomainAdded? {
      ListedIffActive(log, e.domain);
    } else if e.DomainRemoved? {
      SwapRemoveAllMultiset(Domains(log), e.domain);
      NoDuplicatesMultiset(Domains(log));
      NoDuplicatesMultiset(Domains(Next(log, c)));
    }
  }

  lemma {:induction false} InvariantHolds(log: seq<Event>, cs: seq<Command>)
    requires Invariant(log) && AreCommands(cs)
    ensures Invariant(Exec(log, cs)) && log <= Exec(log, cs)
  {
    if cs != [] {
      InvariantHolds(log, cs[..|cs| - 1]);
      InvariantKept(Exec(log, cs[..|cs| - 1]), cs[|cs| - 1]);
    }
  }

  /**
  In every run the list is free of duplicates and is the set of active domains, and a domain
  that a run has generated is listed in every continuation of that run.
  */
  lemma DomainsInEveryRun(cs: seq<Command>, more: seq<Command>, d: string)
    requires AreCommands(cs) && AreCommands(more)
    ensures var log := Exec(Exec([], cs), more);
            && NoDuplicates(Domains(log))
            && (d in Domains(log) <==> LoadDomain(log, d).state.DomainActive?)
            && (DomainAdded(d, true) in Exec([], cs) ==> d in Domains(log))
  {
    InvariantHolds([], cs);
    InvariantHolds(Exec([], cs), more);
    ListedIffActive(Exec(Exec([], cs), more), d);
  }

  /** A name can be added, on every log, exactly if it is not blank, has no other characters and is not listed. */
  lemma AddOutcome(log: seq<Event>, name: string, generated: bool)
    ensures var d := TrimSpace(name);
            Decide(log, AddDomain(name, generated)) ==
            if d == "" then Err(InvalidArgument("INST-28nlD"))
            else if !AllowedRunes(d) then Err(InvalidArgument("INST-S3v3w"))
            else if d in Domains(log) then Err(AlreadyExists("INST-i2nl"))
            else Ok([DomainAdded(d, generated)])
  {
    ListedIffActive(log, TrimSpace(name));
  }

  lemma {:induction false} GeneratedWasAdded(es: seq<Event>, d: string)
    ensures LoadDomain(es, d).generated ==> DomainAdded(d, true) in es
  {
    if es != [] {
      var init, last := es[..|es| - 1], es[|es| - 1];
      GeneratedWasAdded(init, d);
      assert es == init + [last];
      LoadDomainSnoc(init, last, d);
    }
  }

  /** After any run, a name can be removed exactly if it is listed and was never generated. */
  lemma RemoveOutcome(cs: seq<Command>, name: string)
    requires AreCommands(cs)
    ensures var d, log := TrimSpace(name), Exec([], cs);
            Decide(log, RemoveDomain(name)) ==
            if d == "" then Err(InvalidArgument("INST-39nls"))
            else if d !in Domains(log) then Err(NotFound("INSTANCE-8ls9f"))
            else if DomainAdded(d, true) in log then Err(PreconditionFailed("INSTANCE-9hn3n"))
            else Ok([DomainRemoved(d)])
  {
    var d, log := TrimSpace(name), Exec([], cs);
    InvariantHolds([], cs);
    ListedIffActive(log, d);
    GeneratedWasAdded(log, d);
  }

  // ---------------------------------------------------------------- the models as written

  /** A Go slice: a backing array and how much of it is in use. */
  class StringSlice {
    var a: array<string>
    var n: nat

    ghost predicate Valid()
      reads this
    {
      n <= a.Length
    }

    function Contents(): seq<string>
      requires Valid()
      reads this, a
    {
      a[..n]
    }

    constructor ()
      ensures Valid() && Contents() == [] && fresh(a)
    {
      a := new string[0];
      n := 0;
    }

    /** append: in place while there is room, otherwise into a larger copy. */
    method Append(s: string)
      requires Valid()
      modifies this, a
      ensures Valid() && (a == old(a) || fresh(a))
      ensures Contents() == old(Contents()) + [s]
    {
      if n == a.Length {
        var b := new string[2 * n + 1];
        for i := 0 to n
          invariant a == old(a) && n == old(n) && a[..] == old(a[..])
          invariant b[..i] == a[..i]
        {
          b[i] := a[i];
        }
        a := b;
      }
      a[n] := s;
      n := n + 1;
    }

    /**
    removeDomainFromDomains on this slice: works backwards on the backing array, overwrites each
    match with the last element, blanks that one and shortens the slice. What was in use and no
    longer is holds blanks.
    */
    method RemoveAll(domain: string)
      requires Valid()
      modifies `n, a
      ensures Valid() && n <= old(n)
      ensures Contents() == SwapRemoveAll(old(Contents()), domain)
      ensures forall k :: n <= k < old(n) ==> a[k] == ""
      ensures forall k :: old(n) <= k < a.Length ==> a[k] == old(a[k])
    {
      var i: nat := n;
      while i > 0
        invariant 0 <= i <= n <= old(n)
        invariant SwapRemoveDown(a[..n], i, domain) == SwapRemoveAll(old(a[..n]), domain)
        invariant forall k :: n <= k < old(n) ==> a[k] == ""
        invariant forall k :: old(n) <= k < a.Length ==> a[k] == old(a[k])
      {
        i := i - 1;
        if a[i] == domain {
          ghost var before := a[..n];
          a[i] := a[n - 1];
          a[n - 1] := "";
          n := n - 1;
          assert a[..n] == SwapRemoveAt(before, i);
        }
      }
      assert SwapRemoveDown(a[..n], 0, domain) == a[..n];
    }
  }

  class InstanceDomainsWriteModel {
    var events: seq<Event>
    const domains: StringSlice

    ghost predicate Valid()
      reads this, domains
    {
      domains.Valid()
    }

    constructor ()
      ensures Valid() && fresh(domains) && fresh(domains.a) && events == [] && domains.Contents() == []
    {
      events := [];
      domains := new StringSlice();
    }

    method AppendEvents(more: seq<Event>)
      modifies `events
      ensures events == old(events) + OnlyDomainEvents(more)
    {
      for i := 0 to |more|
        invariant events == old(events) + OnlyDomainEvents(more[..i])
      {
        assert more[..i + 1][..i] == more[..i];
        if more[i].DomainAdded? || more[i].DomainRemoved? {
          events := events + [more[i]];
        }
      }
      assert more[..|more|] == more;
    }

    method ReduceEvent(e: Event)
      requires Valid()
      modifies domains, domains.a
      ensures Valid() && (domains.a == old(domains.a) || fresh(domains.a))
      ensures domains.Contents() == StepDomains(old(domains.Contents()), e)
    {
      match e
      case DomainAdded(d, _) => domains.Append(d);
      case DomainRemoved(d) => domains.RemoveAll(d);
      case _ =>
    }

    method Reduce()
      requires Valid()
      modifies this, domains, domains.a
      ensures Valid() && (domains.a == old(domains.a) || fresh(domains.a))
      ensures domains.Contents() == ReducedDomains(old(domains.Contents()), old(events)) && events == []
    {
      for i := 0 to |events|
        invariant Valid() && (domains.a == old(domains.a) || fresh(domains.a))
        invariant events == old(events)
        invariant domains.Contents() == ReducedDomains(old(domains.Contents()), events[..i])
      {
        assert events[..i + 1][..i] == events[..i];
        ReduceEvent(events[i]);
      }
      assert events[..|events|] == events;
      events := [];
    }
  }

  function OnlyDomainEvents(es: seq<Event>): seq<Event> {
    if es == [] then []
    else
      var e := es[|es| - 1];
      OnlyDomainEvents(es[..|es| - 1]) + (if e.DomainAdded? || e.DomainRemoved? then [e] else [])
  }

  lemma {:induction false} OtherEventsDoNotMatter(es: seq<Event>)
    ensures Domains(OnlyDomainEvents(es)) == Domains(es)
  {
    if es != [] {
      var init, e := es[..|es| - 1], es[|es| - 1];
      OtherEventsDoNotMatter(init);
      var kept := OnlyDomainEvents(init);
      assert (kept + [e])[..|kept|] == kept;
      assert kept + [] == kept;
    }
  }

  /** The other fields of the instance model. */
  datatype InstanceView = InstanceView(
    name: string, state: InstanceState, generatedDomain: string,
    defaultOrgID: string, projectID: string, defaultLanguage: string)

  function StepInstance(v: InstanceView, e: Event): InstanceView {
    match e
    case InstanceAddedEvent(name) => v.(name := name, state := InstanceActive)
    case InstanceChangedEvent(name) => v.(name := name)
    case InstanceRemovedEvent => v.(state := InstanceRemoved)
    case DomainAdded(d, generated) => if generated then v.(generatedDomain := d) else v
    case DomainRemoved(_) => v
    case ProjectSet(id) => v.(projectID := id)
    case DefaultOrgSet(id) => v.(defaultOrgID := id)
    case DefaultLanguageSet(language) => v.(defaultLanguage := language)
  }

  function ReducedInstance(v: InstanceView, es: seq<Event>): InstanceView {
    if es == [] then v else StepInstance(ReducedInstance(v, es[..|es| - 1]), es[|es| - 1])
  }

  const NO_INSTANCE := InstanceView("", InstanceUnspecified, "", "", "", "")

  function GivesName(e: Event): Option<string> {
    if e.InstanceAddedEvent? || e.InstanceChangedEvent? then Some(e.name) else None
  }

  function GivesState(e: Event): Option<InstanceState> {
    if e.InstanceAddedEvent? then Some(InstanceActive) else if e.InstanceRemovedEvent? then Some(InstanceRemoved) else None
  }

  function GivesGeneratedDomain(e: Event): Option<string> {
    if e.DomainAdded? && e.generated then Some(e.domain) else None
  }

  function GivesDefaultOrg(e: Event): Option<string> {
    if e.DefaultOrgSet? then Some(e.orgID) else None
  }

  function GivesProject(e: Event): Option<string> {
    if e.ProjectSet? then Some(e.projectID) else None
  }

  function GivesLanguage(e: Event): Option<string> {
    if e.DefaultLanguageSet? then Some(e.language) else None
  }

  /** On every log, each field of the instance has the value that was given last. */
  lemma {:induction false} InstanceFieldsAreLatest(es: seq<Event>)
    ensures var v := ReducedInstance(NO_INSTANCE, es);
            && v.name == Folds.Latest(es, "", GivesName)
            && v.state == Folds.Latest(es, InstanceUnspecified, GivesState)
            && v.generatedDomain == Folds.Latest(es, "", GivesGeneratedDomain)
            && v.defaultOrgID == Folds.Latest(es, "", GivesDefaultOrg)
            && v.projectID == Folds.Latest(es, "", GivesProject)
            && v.defaultLanguage == Folds.Latest(es, "", GivesLanguage)
  {
    if es != [] {
      InstanceFieldsAreLatest(es[..|es| - 1]);
    }
  }

  class InstanceWriteModel {
    var events: seq<Event>
    var fields: InstanceView
    const domains: StringSlice

    ghost predicate Valid()
      reads this, domains
    {
      domains.Valid()
    }

    constructor ()
      ensures Valid() && fresh(domains) && fresh(domains.a) && events == [] && domains.Contents() == [] && fields == NO_INSTANCE
    {
      events := [];
      fields := NO_INSTANCE;
      domains := new StringSlice();
    }

    method AppendEvents(more: seq<Event>)
      modifies `events
      ensures events == old(events) + more
    {
      events := events + more;
    }

    /**
    The removal loop ranges over the slice as it was when the loop began, length included, while
    the body shortens the slice and blanks the tail of the array it shares. It stays in bounds,
    and the slice ends up without the domain and with everything else.
    */
    method RemoveInRange(domain: string)
      requires Valid()
      modifies domains`n, domains.a
      ensures Valid() && domains.a == old(domains.a)
      ensures domains.Contents() == SwapRemoveAll(old(domains.Contents()), domain)
    {
      var ranged, n := domains.a, domains.n;
      ghost var before := domains.Contents();
      SwapRemoveAllMultiset(before, domain);
      for k := 0 to n
        invariant domains.a == ranged && domains.n <= n <= ranged.Length
        invariant domains.Contents() == SwapRemoveAll(before, domain) || (domains.Contents() == before && domain !in before[..k])
      {
        var customDomain := ranged[k];
        if customDomain == domain {
          if domains.Contents() == SwapRemoveAll(before, domain) {
            SwapRemoveDownAbsent(domains.Contents(), domains.n, domain);
          }
          domains.RemoveAll(domain);
        }
      }
      if domain !in before {
        SwapRemoveDownAbsent(before, |before|, domain);
      }
    }

    method ReduceEvent(e: Event)
      requires Valid()
      modifies `fields, domains, domains.a
      ensures Valid() && (domains.a == old(domains.a) || fresh(domains.a))
      ensures fields == StepInstance(old(fields), e)
      ensures domains.Contents() == StepDomains(old(domains.Contents()), e)
    {
      match e
      case InstanceAddedEvent(name) => fields := fields.(name := name, state := InstanceActive);
      case InstanceChangedEvent(name) => fields := fields.(name := name);
      case InstanceRemovedEvent => fields := fields.(state := InstanceRemoved);
      case DomainAdded(d, generated) =>
        if generated {
          fields := fields.(generatedDomain := d);
        }
        domains.Append(d);
      case DomainRemoved(d) => RemoveInRange(d);
      case ProjectSet(id) => fields := fields.(projectID := id);
      case DefaultOrgSet(id) => fields := fields.(defaultOrgID := id);
      case DefaultLanguageSet(language) => fields := fields.(defaultLanguage := language);
    }

    /** Unlike the other models this one does not clear the events it has folded. */
    method Reduce()
      requires Valid()
      modifies this, domains, domains.a
      ensures Valid() && (domains.a == old(domains.a) || fresh(domains.a))
      ensures domains.Contents() == ReducedDomains(old(domains.Contents()), events)
      ensures fields == ReducedInstance(old(fields), events) && events == old(events)
    {
      for i := 0 to |events|
        invariant Valid() && (domains.a == old(domains.a) || fresh(domains.a))
        invariant events == old(events)
        invariant fields == ReducedInstance(old(fields), events[..i])
        invariant domains.Contents() == ReducedDomains(old(domains.Contents()), events[..i])
      {
        assert events[..i + 1][..i] == events[..i];
        ReduceEvent(events[i]);
      }
      assert events[..|events|] == events;
    }
  }

  class InstanceDomainWriteModel {
    const domain: string
    var events: seq<Event>
    var generated: bool
    var state: DomainState

    constructor (domain: string)
      ensures this.domain == domain && events == [] && Fields() == DomainView(false, DomainUnspecified)
    {
      this.domain := domain;
      events, generated, state := [], false, DomainUnspecified;
    }

    function Fields(): DomainView
      reads this
    {
      DomainView(generated, state)
    }

    method AppendEvents(more: seq<Event>)
      modifies `events
      ensures events == old(events) + EventsOf(more, domain)
    {
      for i := 0 to |more|
        invariant events == old(events) + EventsOf(more[..i], domain)
      {
        assert more[..i + 1][..i] == more[..i];
        if (more[i].DomainAdded? || more[i].DomainRemoved?) && more[i].domain == domain {
          events := events + [more[i]];
        }
      }
      assert more[..|more|] == more;
    }

    method Reduce()
      modifies `generated, `state
      ensures Fields() == ReducedDomain(old(Fields()), events)
    {
      for i := 0 to |events|
        invariant Fields() == ReducedDomain(old(Fields()), events[..i])
      {
        assert events[..i + 1][..i] == events[..i];
        match events[i]
        case DomainAdded(_, g) => generated, state := g, DomainActive;
        case DomainRemoved(_) => state := DomainStateRemoved;
        case _ =>
      }
      assert events[..|events|] == events;
    }
  }

  class Commands {
    var log: seq<Event>
    ghost var history: seq<Command>

    ghost predicate Valid()
      reads this
    {
      AreCommands(history) && log == Exec([], history)
    }

    constructor ()
      ensures Valid() && log == []
    {
      log, history := [], [];
    }

    method LoadDomainModel(d: string) returns (wm: InstanceDomainWriteModel)
      ensures fresh(wm) && wm.Fields() == LoadDomain(log, d)
    {
      wm := new InstanceDomainWriteModel(d);
      wm.AppendEvents(log);
      assert wm.events == EventsOf(log, d);
      wm.Reduce();
    }

    /** The two list models of one log, each loaded with its own query, hold the same list. */
    method LoadLists() returns (list: InstanceDomainsWriteModel, instance: InstanceWriteModel)
      requires Valid()
      ensures list.Valid() && instance.Valid()
      ensures list.domains.Contents() == instance.domains.Contents() == Domains(log)
      ensures NoDuplicates(list.domains.Contents())
    {
      list := new InstanceDomainsWriteModel();
      list.AppendEvents(log);
      OtherEventsDoNotMatter(log);
      assert list.events == OnlyDomainEvents(log);
      list.Reduce();
      instance := new InstanceWriteModel();
      instance.AppendEvents(log);
      assert instance.events == log;
      instance.Reduce();
      InvariantHolds([], history);
    }

    method AddInstanceDomain(name: string, generated: bool) returns (r: Result<(), Error>)
      requires Valid()
      modifies this
      ensures Valid() && history == old(history) + [AddDomain(name, generated)]
      ensures log == Next(old(log), AddDomain(name, generated))
      ensures r.Ok? <==> Decide(old(log), AddDomain(name, generated)).Ok?
      ensures r.Err? ==> Decide(old(log), AddDomain(name, generated)) == Err(r.error)
      ensures r.Ok? ==> NoDuplicates(Domains(log)) && TrimSpace(name) in Domains(log)
    {
      var decided := AddDomainEvents(name, generated);
      InvariantHolds([], history);
      InvariantKept(log, AddDomain(name, generated));
      ListedAfter(log, AddDomain(name, generated));
      ExecSnoc(history, AddDomain(name, generated));
      log := log + (if decided.Ok? then decided.value else []);
      history := history + [AddDomain(name, generated)];
      r := if decided.Ok? then Ok(()) else Err(decided.error);
    }

    method AddDomainEvents(name: string, generated: bool) returns (decided: Result<seq<Event>, Error>)
      ensures decided == Decide(log, AddDomain(name, generated))
    {
      var d := TrimSpace(name);
      if d == "" {
        return Err(InvalidArgument("INST-28nlD"));
      }
      if !AllowedRunes(d) {
        return Err(InvalidArgument("INST-S3v3w"));
      }
      var wm := LoadDomainModel(d);
      if wm.state.DomainActive? {
        return Err(AlreadyExists("INST-i2nl"));
      }
      return Ok([DomainAdded(d, generated)]);
    }

    method RemoveInstanceDomain(name: string) returns (r: Result<(), Error>)
      requires Valid()
      modifies this
      ensures Valid() && history == old(history) + [RemoveDomain(name)]
      ensures log == Next(old(log), RemoveDomain(name))
      ensures r.Ok? <==> Decide(old(log), RemoveDomain(name)).Ok?
      ensures r.Err? ==> Decide(old(log), RemoveDomain(name)) == Err(r.error)
      ensures r.Ok? ==> NoDuplicates(Domains(log)) && TrimSpace(name) !in Domains(log)
    {
      var decided := RemoveDomainEvents(name);
      InvariantHolds([], history);
      InvariantKept(log, RemoveDomain(name));
      ListedAfter(log, RemoveDomain(name));
      ExecSnoc(history, RemoveDomain(name));
      log := log + (if decided.Ok? then decided.value else []);
      history := history + [RemoveDomain(name)];
      r := if decided.Ok? then Ok(()) else Err(decided.error);
    }

    method RemoveDomainEvents(name: string) returns (decided: Result<seq<Event>, Error>)
      ensures decided == Decide(log, RemoveDomain(name))
    {
      var d := TrimSpace(name);
      if d == "" {
        return Err(InvalidArgument("INST-39nls"));
      }
      var wm := LoadDomainModel(d);
      if !wm.state.DomainActive? {
        return Err(NotFound("INSTANCE-8ls9f"));
      }
      if wm.generated {
        return Err(PreconditionFailed("INSTANCE-9hn3n"));
      }
      return Ok([DomainRemoved(d)]);
    }
  }
}
