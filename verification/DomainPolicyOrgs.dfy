/** Which organisations follow the default domain policy, and the change that visits each of them. */
module DomainPolicyOrgs {
  import opened Wrappers
  import opened Slices

  datatype OrgEvent = OrgAdded(id: string) | PolicyAdded(id: string) | PolicyRemoved(id: string)

  function Step(ids: seq<string>, e: OrgEvent): seq<string> {
    match e
    case OrgAdded(id) => ids + [id]
    case PolicyAdded(id) => SwapRemoveFirst(ids, Is(id))
    case PolicyRemoved(id) => ids + [id]
  }

  function Reduced(ids: seq<string>, es: seq<OrgEvent>): seq<string> {
    if es == [] then ids else Step(Reduced(ids, es[..|es| - 1]), es[|es| - 1])
  }

  function OrgIDs(es: seq<OrgEvent>): seq<string> {
    Reduced([], es)
  }

  datatype Policy = Unknown | Default | Custom

  /** The policy an organisation has according to its own last event. */
  function PolicyOf(es: seq<OrgEvent>, id: string): Policy {
    if es == [] then Unknown
    else if es[|es| - 1].id != id then PolicyOf(es[..|es| - 1], id)
    else if es[|es| - 1].PolicyAdded? then Custom
    else Default
  }

  /** Each organisation is added once, and its own policy is added and removed in turns after that. */
  predicate Alternates(es: seq<OrgEvent>) {
    es == [] ||
    (Alternates(es[..|es| - 1]) &&
     var e := es[|es| - 1];
     var before := PolicyOf(es[..|es| - 1], e.id);
     match e
     case OrgAdded(_) => before.Unknown?
     case PolicyAdded(_) => before.Default?
     case PolicyRemoved(_) => before.Custom?)
  }

  /** The folded list is, without duplicates, the organisations without a policy of their own. */
  ghost predicate AreDefaultOrgs(ids: seq<string>, es: seq<OrgEvent>) {
    NoDuplicates(ids) && forall id :: id in ids <==> PolicyOf(es, id).Default?
  }

  /** No organisation is listed once more while it already follows the default. */
  predicate NeverListedTwice(es: seq<OrgEvent>) {
    es == [] ||
    (NeverListedTwice(es[..|es| - 1]) &&
     (!es[|es| - 1].PolicyAdded? ==> !PolicyOf(es[..|es| - 1], es[|es| - 1].id).Default?))
  }

  ghost predicate AreDefaultAt(es: seq<OrgEvent>, n: nat)
    requires n <= |es|
  {
    AreDefaultOrgs(OrgIDs(es[..n]), es[..n])
  }

  lemma LastEventKeepsDefault(es: seq<OrgEvent>)
    requires es != [] && AreDefaultAt(es, |es| - 1)
    ensures AreDefaultAt(es, |es|) <==>
            (!es[|es| - 1].PolicyAdded? ==> !PolicyOf(es[..|es| - 1], es[|es| - 1].id).Default?)
  {
    var init, e := es[..|es| - 1], es[|es| - 1];
    var ids := OrgIDs(init);
    assert es[..|es|] == es;
    assert e.id in ids <==> PolicyOf(init, e.id).Default?;
    if !e.PolicyAdded? {
      ListedOnceMore(ids, e.id);
    } else if e.id in ids {
      RemoveOne(ids, e.id);
    } else {
      RemoveAbsent(ids, e.id);
    }
  }

  lemma ListedOnceMore(ids: seq<string>, x: string)
    requires NoDuplicates(ids)
    ensures NoDuplicates(ids + [x]) <==> x !in ids
  {
    if x in ids {
      var i :| 0 <= i < |ids| && ids[i] == x;
      assert (ids + [x])[i] == (ids + [x])[|ids|];
    }
  }

  lemma RemoveAbsent(ids: seq<string>, x: string)
    requires x !in ids
    ensures SwapRemoveFirst(ids, Is(x)) == ids
  {
    FirstIsUnique(ids, Is(x), |ids|);
  }

  /** The list is the organisations on the default all along exactly if none is listed once more while it is one of them. */
  lemma {:induction false} DefaultAllAlongIff(es: seq<OrgEvent>)
    ensures (forall n: nat :: n <= |es| ==> AreDefaultAt(es, n)) <==> NeverListedTwice(es)
  {
    if es != [] {
      var init := es[..|es| - 1];
      DefaultAllAlongIff(init);
      forall n: nat | n <= |init|
        ensures AreDefaultAt(es, n) <==> AreDefaultAt(init, n)
      {
        assert es[..n] == init[..n];
      }
      if AreDefaultAt(es, |init|) {
        LastEventKeepsDefault(es);
      }
    }
  }

  lemma {:induction false} AlternatingListsOnce(es: seq<OrgEvent>)
    requires Alternates(es)
    ensures NeverListedTwice(es)
  {
    if es != [] {
      AlternatingListsOnce(es[..|es| - 1]);
    }
  }

  lemma FoldedOrgsAreDefault(es: seq<OrgEvent>)
    requires Alternates(es)
    ensures AreDefaultOrgs(OrgIDs(es), es)
  {
    AlternatingListsOnce(es);
    DefaultAllAlongIff(es);
    assert AreDefaultAt(es, |es|) && es[..|es|] == es;
  }

  lemma RemoveOne(ids: seq<string>, x: string)
    requires NoDuplicates(ids) && x in ids
    ensures NoDuplicates(SwapRemoveFirst(ids, Is(x)))
    ensures forall y :: y in SwapRemoveFirst(ids, Is(x)) <==> y in ids && y != x
  {
    var k := FirstFrom(ids, Is(x), 0);
    var i :| 0 <= i < |ids| && ids[i] == x;
    assert Is(x)(ids[i]) && Is(x)(ids[k]);
    RemoveAtDistinct(ids, k);
  }

  lemma RemoveAtDistinct(ids: seq<string>, k: nat)
    requires NoDuplicates(ids) && k < |ids|
    ensures NoDuplicates(SwapRemoveAt(ids, k))
    ensures forall y :: y in SwapRemoveAt(ids, k) <==> y in ids && y != ids[k]
  {
    var r := SwapRemoveAt(ids, k);
    forall y | y in ids && y != ids[k]
      ensures y in r
    {
      var j :| 0 <= j < |ids| && ids[j] == y;
      assert r[if j == |ids| - 1 then k else j] == y;
    }
  }

  class DomainPolicyOrgsWriteModel {
    var events: seq<OrgEvent>
    var orgIDs: seq<string>

    constructor ()
      ensures events == [] && orgIDs == []
    {
      events, orgIDs := [], [];
    }

    method AppendEvents(more: seq<OrgEvent>)
      modifies `events
      ensures events == old(events) + more
    {
      events := events + more;
    }

    /** The inner loop: drops the first entry of the organisation. */
    method RemoveOrg(id: string)
      modifies `orgIDs
      ensures orgIDs == SwapRemoveFirst(old(orgIDs), Is(id))
    {
      var i := 0;
      while i < |orgIDs| && orgIDs[i] != id
        invariant i <= |orgIDs| && forall j :: 0 <= j < i ==> !Is(id)(orgIDs[j])
      {
        i := i + 1;
      }
      FirstIsUnique(orgIDs, Is(id), i);
      if i < |orgIDs| {
        orgIDs := orgIDs[i := orgIDs[|orgIDs| - 1]];
        orgIDs := orgIDs[..|orgIDs| - 1];
      }
    }

    method Reduce()
      modifies this
      ensures orgIDs == Reduced(old(orgIDs), old(events)) && events == []
    {
      for n := 0 to |events|
        invariant events == old(events)
        invariant orgIDs == Reduced(old(orgIDs), events[..n])
      {
        assert events[..n + 1][..n] == events[..n];
        match events[n]
        case OrgAdded(id) => orgIDs := orgIDs + [id];
        case PolicyAdded(id) => RemoveOrg(id);
        case PolicyRemoved(id) => orgIDs := orgIDs + [id];
      }
      assert events[..|events|] == events;
      events := [];
    }
  }

  datatype Flags = Flags(userLoginMustBeDomain: bool, validateOrgDomains: bool, smtpSenderMatches: bool)

  datatype Cmd = PolicyChanged(changes: set<FlagChange>) | UsernameChanged(orgID: string, userID: string)

  datatype FlagChange = ChangeUserLogin(to: bool) | ChangeValidate(to: bool) | ChangeSMTP(to: bool)

  function Changes(current: Flags, wanted: Flags): set<FlagChange> {
    (if current.userLoginMustBeDomain != wanted.userLoginMustBeDomain then {ChangeUserLogin(wanted.userLoginMustBeDomain)} else {})
    + (if current.validateOrgDomains != wanted.validateOrgDomains then {ChangeValidate(wanted.validateOrgDomains)} else {})
    + (if current.smtpSenderMatches != wanted.smtpSenderMatches then {ChangeSMTP(wanted.smtpSenderMatches)} else {})
  }

  /** The flags after an event with these changes: a flag is what the changes give it, or as it was. */
  function Applied(flags: Flags, changes: set<FlagChange>): Flags {
    Flags(if ChangeUserLogin(true) in changes then true else flags.userLoginMustBeDomain && ChangeUserLogin(false) !in changes,
          if ChangeValidate(true) in changes then true else flags.validateOrgDomains && ChangeValidate(false) !in changes,
          if ChangeSMTP(true) in changes then true else flags.smtpSenderMatches && ChangeSMTP(false) !in changes)
  }

  /** The changes turn the current flags into the wanted ones, and name exactly the flags that differ. */
  ghost predicate IsDifference(changes: set<FlagChange>, current: Flags, wanted: Flags) {
    && Applied(current, changes) == wanted
    && forall to: bool ::
         && (ChangeUserLogin(to) in changes <==> current.userLoginMustBeDomain != wanted.userLoginMustBeDomain == to)
         && (ChangeValidate(to) in changes <==> current.validateOrgDomains != wanted.validateOrgDomains == to)
         && (ChangeSMTP(to) in changes <==> current.smtpSenderMatches != wanted.smtpSenderMatches == to)
  }

  lemma ChangesAreDifference(current: Flags, wanted: Flags)
    ensures IsDifference(Changes(current, wanted), current, wanted)
  {
  }

  /** The username events of each organisation in turn; how one organisation's come about is a parameter. */
  function ForEach(orgs: seq<string>, users: string -> seq<string>): seq<Cmd> {
    if orgs == [] then [] else ForEach(orgs[..|orgs| - 1], users) + ForOrg(orgs[|orgs| - 1], users(orgs[|orgs| - 1]))
  }

  function ForOrg(org: string, users: seq<string>): seq<Cmd> {
    seq(|users|, i requires 0 <= i < |users| => UsernameChanged(org, users[i]))
  }

  /** The commands that concern one organisation. */
  function Concerning(cmds: seq<Cmd>, org: string): seq<Cmd> {
    if cmds == [] then []
    else
      var c := cmds[|cmds| - 1];
      Concerning(cmds[..|cmds| - 1], org) + (if c.UsernameChanged? && c.orgID == org then [c] else [])
  }

  lemma {:induction false} ConcerningConcat(a: seq<Cmd>, b: seq<Cmd>, org: string)
    ensures Concerning(a + b, org) == Concerning(a, org) + Concerning(b, org)
  {
    if b == [] {
      assert a + b == a;
    } else {
      ConcerningConcat(a, b[..|b| - 1], org);
      assert (a + b)[..|a + b| - 1] == a + b[..|b| - 1];
    }
  }

  lemma {:induction false} ConcerningForOrg(org: string, users: seq<string>, other: string)
    ensures Concerning(ForOrg(org, users), other) == if org == other then ForOrg(org, users) else []
    decreases |users|
  {
    if users != [] {
      var init := users[..|users| - 1];
      ConcerningForOrg(org, init, other);
      assert ForOrg(org, users)[..|users| - 1] == ForOrg(org, init);
    }
  }

  /** Visiting a list without duplicates visits each of its organisations once and no other. */
  lemma {:induction false} EachVisitedOnce(orgs: seq<string>, users: string -> seq<string>, org: string)
    requires NoDuplicates(orgs)
    ensures Concerning(ForEach(orgs, users), org) == if org in orgs then ForOrg(org, users(org)) else []
  {
    if orgs != [] {
      var init, last := orgs[..|orgs| - 1], orgs[|orgs| - 1];
      EachVisitedOnce(init, users, org);
      ConcerningConcat(ForEach(init, users), ForOrg(last, users(last)), org);
      ConcerningForOrg(last, users(last), org);
      assert orgs == init + [last];
    }
  }

  /**
  Changes the default policy to the wanted flags, naming those that differ. If the user login rule changes, every organisation that follows the
  default policy gets its username events exactly once, and no other organisation gets any.
  */
  method ChangeDefaultDomainPolicy(exists_: bool, current: Flags, wanted: Flags, log: seq<OrgEvent>, users: string -> seq<string>)
    returns (r: Result<seq<Cmd>, Error>)
    ensures r.Err? <==> !exists_ || current == wanted
    ensures r.Err? ==> r.error == if !exists_ then NotFound("INSTANCE-0Pl0d") else PreconditionFailed("INSTANCE-pl9fN")
    ensures r.Ok? ==> |r.value| >= 1 && r.value[0].PolicyChanged? && IsDifference(r.value[0].changes, current, wanted)
    ensures r.Ok? && current.userLoginMustBeDomain == wanted.userLoginMustBeDomain ==> |r.value| == 1
    ensures r.Ok? && current.userLoginMustBeDomain != wanted.userLoginMustBeDomain ==>
              r.value[1..] == ForEach(OrgIDs(log), users)
    ensures r.Ok? && current.userLoginMustBeDomain != wanted.userLoginMustBeDomain && Alternates(log) ==>
              forall org :: Concerning(r.value, org) == if PolicyOf(log, org).Default? then ForOrg(org, users(org)) else []
  {
    if !exists_ {
      return Err(NotFound("INSTANCE-0Pl0d"));
    }
    var changes := Changes(current, wanted);
    ChangesAreDifference(current, wanted);
    NoDifference(changes, current, wanted);
    if changes == {} {
      return Err(PreconditionFailed("INSTANCE-pl9fN"));
    }
    var cmds := [PolicyChanged(changes)];
    if current.userLoginMustBeDomain == wanted.userLoginMustBeDomain {
      return Ok(cmds);
    }
    cmds := AppendUsernameEvents(cmds, log, users);
    forall org | Alternates(log)
      ensures Concerning(cmds, org) == if PolicyOf(log, org).Default? then ForOrg(org, users(org)) else []
    {
      DefaultOrgsVisited(PolicyChanged(changes), log, users, org);
    }
    return Ok(cmds);
  }

  /** The loop over the organisations that follow the default policy. */
  method AppendUsernameEvents(cmds: seq<Cmd>, log: seq<OrgEvent>, users: string -> seq<string>) returns (r: seq<Cmd>)
    ensures r == cmds + ForEach(OrgIDs(log), users)
  {
    var orgs := LoadOrgs(log);
    r := cmds;
    for i := 0 to |orgs|
      invariant r == cmds + ForEach(orgs[..i], users)
    {
      ForEachSnoc(orgs[..i], orgs[i], users);
      assert orgs[..i + 1] == orgs[..i] + [orgs[i]];
      var more := ForOrg(orgs[i], users(orgs[i]));
      assert r + more == cmds + (ForEach(orgs[..i], users) + more);
      r := r + more;
    }
    assert orgs[..|orgs|] == orgs;
  }

  method LoadOrgs(log: seq<OrgEvent>) returns (orgs: seq<string>)
    ensures orgs == OrgIDs(log)
  {
    var wm := new DomainPolicyOrgsWriteModel();
    wm.AppendEvents(log);
    assert wm.events == log;
    wm.Reduce();
    orgs := wm.orgIDs;
  }

  lemma ForEachSnoc(orgs: seq<string>, org: string, users: string -> seq<string>)
    ensures ForEach(orgs + [org], users) == ForEach(orgs, users) + ForOrg(org, users(org))
  {
    assert (orgs + [org])[..|orgs|] == orgs;
  }

  lemma DefaultOrgsVisited(c: Cmd, log: seq<OrgEvent>, users: string -> seq<string>, org: string)
    requires Alternates(log) && c.PolicyChanged?
    ensures Concerning([c] + ForEach(OrgIDs(log), users), org)
            == if PolicyOf(log, org).Default? then ForOrg(org, users(org)) else []
  {
    FoldedOrgsAreDefault(log);
    EachVisitedOnce(OrgIDs(log), users, org);
    ConcerningConcat([c], ForEach(OrgIDs(log), users), org);
  }

  lemma NoDifference(changes: set<FlagChange>, current: Flags, wanted: Flags)
    requires IsDifference(changes, current, wanted)
    ensures changes == {} <==> current == wanted
  {
    if current == wanted {
      forall c | c in changes
        ensures false
      {
        match c
        case ChangeUserLogin(to) => assert false;
        case ChangeValidate(to) => assert false;
        case ChangeSMTP(to) => assert false;
      }
    }
  }
}
