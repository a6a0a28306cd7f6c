/** The four lists that removing an organisation collects, each folded from events in place. */
module OrgFolds {
  import opened Slices
  import opened Wrappers
  import KeyedLists

  // ---------------------------------------------------------------- OrgDomains

  datatype DomainEvent = DomainVerified(domain: string) | DomainRemoved(domain: string)

  function StepNames(names: seq<string>, e: DomainEvent): seq<string> {
    match e
    case DomainVerified(d) => names + [d]
    case DomainRemoved(d) => SwapRemoveFirst(names, Is(d))
  }

  function Names(es: seq<DomainEvent>): seq<string> {
    if es == [] then [] else StepNames(Names(es[..|es| - 1]), es[|es| - 1])
  }

  /** The simple form: a multiset in which removal takes one away if there is one. */
  function NameCounts(es: seq<DomainEvent>): multiset<string> {
    if es == [] then multiset{}
    else
      match es[|es| - 1]
      case DomainVerified(d) => NameCounts(es[..|es| - 1]) + multiset{d}
      case DomainRemoved(d) => NameCounts(es[..|es| - 1]) - multiset{d}
  }

  lemma SwapRemoveFirstMultiset(s: seq<string>, x: string)
    ensures multiset(SwapRemoveFirst(s, Is(x))) == multiset(s) - multiset{x}
  {
    var k := FirstFrom(s, Is(x), 0);
    if k < |s| {
      assert Is(x)(s[k]);
      SwapRemoveAtMultiset(s, k);
    } else {
      assert forall i :: 0 <= i < |s| ==> !Is(x)(s[i]);
      assert x !in multiset(s);
    }
  }

  lemma {:induction false} NamesAreCounts(es: seq<DomainEvent>)
    ensures multiset(Names(es)) == NameCounts(es)
  {
    if es != [] {
      NamesAreCounts(es[..|es| - 1]);
      if es[|es| - 1].DomainRemoved? {
        SwapRemoveFirstMultiset(Names(es[..|es| - 1]), es[|es| - 1].domain);
      }
    }
  }

  method OrgDomains(events: seq<DomainEvent>) returns (names: seq<string>)
    ensures names == Names(events)
    ensures multiset(names) == NameCounts(events)
  {
    names := [];
    for n := 0 to |events|
      invariant names == Names(events[..n])
    {
      assert events[..n + 1][..n] == events[..n];
      match events[n]
      case DomainVerified(d) => names := names + [d];
      case DomainRemoved(d) =>
        var i := 0;
        while i < |names| && names[i] != d
          invariant i <= |names| && forall j :: 0 <= j < i ==> names[j] != d
        {
          i := i + 1;
        }
        FirstIsUnique(names, Is(d), i);
        if i < |names| {
          names := names[i := names[|names| - 1]];
          names := names[..|names| - 1];
        }
    }
    assert events[..|events|] == events;
    NamesAreCounts(events);
  }

  // ---------------------------------------------------------------- OrgUserIDPLinks

  datatype Link = Link(idpConfigID: string, externalUserID: string, displayName: string)

  datatype LinkKey = LinkKey(idpConfigID: string, externalUserID: string)

  datatype LinkEvent =
    | LinkAdded(link: Link)
    | LinkRemoved(idpConfigID: string, externalUserID: string)
    | LinkCascadeRemoved(idpConfigID: string, externalUserID: string)

  function KeyOf(link: Link): LinkKey {
    LinkKey(link.idpConfigID, link.externalUserID)
  }

  function HasKey(key: LinkKey): Link -> bool {
    (link: Link) => KeyOf(link) == key
  }

  function StepLinks(links: seq<Link>, e: LinkEvent): seq<Link> {
    match e
    case LinkAdded(link) => links + [link]
    case LinkRemoved(idp, user) => SwapRemoveFirst(links, HasKey(LinkKey(idp, user)))
    case LinkCascadeRemoved(idp, user) => SwapRemoveFirst(links, HasKey(LinkKey(idp, user)))
  }

  function Links(es: seq<LinkEvent>): seq<Link> {
    if es == [] then [] else StepLinks(Links(es[..|es| - 1]), es[|es| - 1])
  }

  function Keys(links: seq<Link>): (r: seq<LinkKey>)
    ensures |r| == |links| && forall i :: 0 <= i < |links| ==> r[i] == KeyOf(links[i])
  {
    if links == [] then [] else Keys(links[..|links| - 1]) + [KeyOf(links[|links| - 1])]
  }

  /** The simple form counts links by identity provider and external user. */
  function LinkCounts(es: seq<LinkEvent>): multiset<LinkKey> {
    if es == [] then multiset{}
    else
      match es[|es| - 1]
      case LinkAdded(link) => LinkCounts(es[..|es| - 1]) + multiset{KeyOf(link)}
      case LinkRemoved(idp, user) => LinkCounts(es[..|es| - 1]) - multiset{LinkKey(idp, user)}
      case LinkCascadeRemoved(idp, user) => LinkCounts(es[..|es| - 1]) - multiset{LinkKey(idp, user)}
  }

  lemma RemoveLinkMultiset(links: seq<Link>, key: LinkKey)
    ensures multiset(Keys(SwapRemoveFirst(links, HasKey(key)))) == multiset(Keys(links)) - multiset{key}
  {
    var k := FirstFrom(links, HasKey(key), 0);
    if k < |links| {
      assert HasKey(key)(links[k]);
      assert Keys(SwapRemoveAt(links, k)) == SwapRemoveAt(Keys(links), k);
      SwapRemoveAtMultiset(Keys(links), k);
    } else {
      assert forall i :: 0 <= i < |links| ==> !HasKey(key)(links[i]);
      assert key !in multiset(Keys(links));
    }
  }

  lemma {:induction false} LinksAreCounts(es: seq<LinkEvent>)
    ensures multiset(Keys(Links(es))) == LinkCounts(es)
  {
    if es != [] {
      var before := Links(es[..|es| - 1]);
      LinksAreCounts(es[..|es| - 1]);
      match es[|es| - 1]
      case LinkAdded(link) => assert Keys(before + [link]) == Keys(before) + [KeyOf(link)];
      case LinkRemoved(idp, user) => RemoveLinkMultiset(before, LinkKey(idp, user));
      case LinkCascadeRemoved(idp, user) => RemoveLinkMultiset(before, LinkKey(idp, user));
    }
  }

  /** The inner loop of both removal events. */
  method RemoveLink(links: seq<Link>, idp: string, user: string) returns (r: seq<Link>)
    ensures r == SwapRemoveFirst(links, HasKey(LinkKey(idp, user)))
  {
    r := links;
    var i := 0;
    while i < |r| && !(r[i].externalUserID == user && r[i].idpConfigID == idp)
      invariant i <= |r| && forall j :: 0 <= j < i ==> !HasKey(LinkKey(idp, user))(r[j])
    {
      i := i + 1;
    }
    FirstIsUnique(r, HasKey(LinkKey(idp, user)), i);
    if i < |r| {
      r := r[i := r[|r| - 1]];
      r := r[..|r| - 1];
    }
  }

  method OrgUserIDPLinks(events: seq<LinkEvent>) returns (links: seq<Link>)
    ensures links == Links(events)
    ensures multiset(Keys(links)) == LinkCounts(events)
  {
    links := [];
    for n := 0 to |events|
      invariant links == Links(events[..n])
    {
      assert events[..n + 1][..n] == events[..n];
      match events[n]
      case LinkAdded(link) => links := links + [link];
      case LinkRemoved(idp, user) => links := RemoveLink(links, idp, user);
      case LinkCascadeRemoved(idp, user) => links := RemoveLink(links, idp, user);
    }
    assert events[..|events|] == events;
    LinksAreCounts(events);
  }

  // ---------------------------------------------------------------- OrgUsers

  datatype UserEvent =
    | HumanAdded(id: string, name: string)
    | MachineAdded(id: string, name: string)
    | HumanRegistered(id: string, name: string)
    | DomainClaimed(id: string, name: string)
    | UsernameChanged(id: string, name: string)
    | UserRemoved(id: string)

  function UserEdit(e: UserEvent): KeyedLists.Edit {
    match e
    case HumanAdded(id, name) => KeyedLists.Put(id, name)
    case MachineAdded(id, name) => KeyedLists.Put(id, name)
    case HumanRegistered(id, name) => KeyedLists.Put(id, name)
    case DomainClaimed(id, name) => KeyedLists.Change(id, name)
    case UsernameChanged(id, name) => KeyedLists.Change(id, name)
    case UserRemoved(id) => KeyedLists.Drop(id)
  }

  function UserEdits(es: seq<UserEvent>): (r: seq<KeyedLists.Edit>)
    ensures |r| == |es|
  {
    if es == [] then [] else UserEdits(es[..|es| - 1]) + [UserEdit(es[|es| - 1])]
  }

  /** The name of a user according to its own events: given by the last one since it was added, none once it is removed. */
  function NameOf(es: seq<UserEvent>, id: string): Option<string> {
    if es == [] then None
    else
      var before, e := NameOf(es[..|es| - 1], id), es[|es| - 1];
      if e.id != id then before
      else if e.UserRemoved? then None
      else if (e.DomainClaimed? || e.UsernameChanged?) && before.None? then None
      else Some(e.name)
  }

  function At(m: map<string, string>, id: string): Option<string> {
    if id in m then Some(m[id]) else None
  }

  lemma {:induction false} LatestNames(es: seq<UserEvent>, id: string)
    ensures At(KeyedLists.Latest(UserEdits(es)), id) == NameOf(es, id)
  {
    if es != [] {
      var init, e := es[..|es| - 1], es[|es| - 1];
      LatestNames(init, id);
      KeyedLists.LatestSnoc(UserEdits(init), UserEdit(e));
    }
  }

  /** The names are one per id of the map of latest names, and each is the latest of its id. */
  ghost predicate AreLatestValues(values: seq<string>, edits: seq<KeyedLists.Edit>) {
    exists es: seq<KeyedLists.Entry> ::
      KeyedLists.Represents(es, KeyedLists.Latest(edits)) && values == KeyedLists.Values(es) && |es| == |KeyedLists.Latest(edits)|
  }

  lemma EditedAreLatest(edits: seq<KeyedLists.Edit>, all: bool)
    requires KeyedLists.NeverReAdded(edits)
    ensures AreLatestValues(KeyedLists.Values(KeyedLists.Edited(edits, all)), edits)
  {
    KeyedLists.ListIsMap(edits, all);
    assert KeyedLists.RepresentsAt(edits, all, |edits|);
    assert edits[..|edits|] == edits;
    KeyedLists.RepresentsSize(KeyedLists.Edited(edits, all), KeyedLists.Latest(edits));
  }

  /** The inner loops of the two renaming events: every entry of the id is renamed. */
  method Rename(users: seq<KeyedLists.Entry>, id: string, name: string) returns (r: seq<KeyedLists.Entry>)
    ensures r == KeyedLists.ChangeAll(users, id, name)
  {
    r := users;
    for i := 0 to |users|
      invariant |r| == |users|
      invariant forall j :: 0 <= j < i ==> r[j] == KeyedLists.Changed(users[j], id, name)
      invariant forall j :: i <= j < |users| ==> r[j] == users[j]
    {
      if r[i].id == id {
        r := r[i := r[i].(value := name)];
      }
    }
  }

  method DropFirst(entries: seq<KeyedLists.Entry>, id: string) returns (r: seq<KeyedLists.Entry>)
    ensures r == SwapRemoveFirst(entries, KeyedLists.HasID(id))
  {
    r := entries;
    var i := 0;
    while i < |r| && r[i].id != id
      invariant i <= |r| && forall j :: 0 <= j < i ==> !KeyedLists.HasID(id)(r[j])
    {
      i := i + 1;
    }
    FirstIsUnique(r, KeyedLists.HasID(id), i);
    if i < |r| {
      r := r[i := r[|r| - 1]];
      r := r[..|r| - 1];
    }
  }

  method OrgUsers(events: seq<UserEvent>) returns (names: seq<string>)
    ensures names == KeyedLists.Values(KeyedLists.Edited(UserEdits(events), true))
    ensures KeyedLists.NeverReAdded(UserEdits(events)) ==> AreLatestValues(names, UserEdits(events))
    ensures forall id :: At(KeyedLists.Latest(UserEdits(events)), id) == NameOf(events, id)
  {
    var users := FoldUsers(events);
    names := ValuesOf(users);
    forall id
      ensures At(KeyedLists.Latest(UserEdits(events)), id) == NameOf(events, id)
    {
      LatestNames(events, id);
    }
    if KeyedLists.NeverReAdded(UserEdits(events)) {
      EditedAreLatest(UserEdits(events), true);
    }
  }

  method FoldUsers(events: seq<UserEvent>) returns (users: seq<KeyedLists.Entry>)
    ensures users == KeyedLists.Edited(UserEdits(events), true)
  {
    users := [];
    for n := 0 to |events|
      invariant users == KeyedLists.Edited(UserEdits(events[..n]), true)
    {
      assert events[..n + 1][..n] == events[..n];
      assert UserEdits(events[..n + 1]) == UserEdits(events[..n]) + [UserEdit(events[n])];
      KeyedLists.EditedSnoc(UserEdits(events[..n]), UserEdit(events[n]), true);
      match events[n]
      case HumanAdded(id, name) => users := users + [KeyedLists.Entry(id, name)];
      case MachineAdded(id, name) => users := users + [KeyedLists.Entry(id, name)];
      case HumanRegistered(id, name) => users := users + [KeyedLists.Entry(id, name)];
      case DomainClaimed(id, name) => users := Rename(users, id, name);
      case UsernameChanged(id, name) => users := Rename(users, id, name);
      case UserRemoved(id) => users := DropFirst(users, id);
    }
    assert events[..|events|] == events;
  }

  method ValuesOf(entries: seq<KeyedLists.Entry>) returns (values: seq<string>)
    ensures values == KeyedLists.Values(entries)
  {
    values := [];
    for i := 0 to |entries|
      invariant values == KeyedLists.Values(entries[..i])
    {
      assert entries[..i + 1][..i] == entries[..i];
      values := values + [entries[i].value];
    }
    assert entries[..|entries|] == entries;
  }

  // ---------------------------------------------------------------- OrgSamlEntityIDs

  datatype SAMLEvent =
    | SAMLConfigAdded(appID: string, entityID: string)
    | SAMLConfigChanged(appID: string, entityID: string)
    | ApplicationRemoved(appID: string)

  function SAMLEdit(e: SAMLEvent): KeyedLists.Edit {
    match e
    case SAMLConfigAdded(app, entity) => KeyedLists.Put(app, entity)
    case SAMLConfigChanged(app, entity) => KeyedLists.Change(app, entity)
    case ApplicationRemoved(app) => KeyedLists.Drop(app)
  }

  function SAMLEdits(es: seq<SAMLEvent>): (r: seq<KeyedLists.Edit>)
    ensures |r| == |es|
  {
    if es == [] then [] else SAMLEdits(es[..|es| - 1]) + [SAMLEdit(es[|es| - 1])]
  }

  /** The entity id of an application according to its own events. */
  function EntityOf(es: seq<SAMLEvent>, app: string): Option<string> {
    if es == [] then None
    else
      var before, e := EntityOf(es[..|es| - 1], app), es[|es| - 1];
      if e.appID != app then before
      else if e.ApplicationRemoved? then None
      else if e.SAMLConfigChanged? && before.None? then None
      else Some(e.entityID)
  }

  lemma {:induction false} LatestEntities(es: seq<SAMLEvent>, app: string)
    ensures At(KeyedLists.Latest(SAMLEdits(es)), app) == EntityOf(es, app)
  {
    if es != [] {
      var init, e := es[..|es| - 1], es[|es| - 1];
      LatestEntities(init, app);
      KeyedLists.LatestSnoc(SAMLEdits(init), SAMLEdit(e));
    }
  }

  /** The inner loop of a change: only the first entry of the application. */
  method ChangeEntity(entries: seq<KeyedLists.Entry>, app: string, entity: string) returns (r: seq<KeyedLists.Entry>)
    ensures r == KeyedLists.ChangeFirst(entries, app, entity)
  {
    r := entries;
    var i := 0;
    while i < |r| && r[i].id != app
      invariant i <= |r| && forall j :: 0 <= j < i ==> !KeyedLists.HasID(app)(r[j])
    {
      i := i + 1;
    }
    FirstIsUnique(r, KeyedLists.HasID(app), i);
    if i < |r| {
      r := r[i := r[i].(value := entity)];
    }
  }

  method FoldEntities(events: seq<SAMLEvent>) returns (entries: seq<KeyedLists.Entry>)
    ensures entries == KeyedLists.Edited(SAMLEdits(events), false)
  {
    entries := [];
    for n := 0 to |events|
      invariant entries == KeyedLists.Edited(SAMLEdits(events[..n]), false)
    {
      assert events[..n + 1][..n] == events[..n];
      assert SAMLEdits(events[..n + 1]) == SAMLEdits(events[..n]) + [SAMLEdit(events[n])];
      KeyedLists.EditedSnoc(SAMLEdits(events[..n]), SAMLEdit(events[n]), false);
      match events[n]
      case SAMLConfigAdded(app, entity) => entries := entries + [KeyedLists.Entry(app, entity)];
      case SAMLConfigChanged(app, entity) => entries := ChangeEntity(entries, app, entity);
      case ApplicationRemoved(app) => entries := DropFirst(entries, app);
    }
    assert events[..|events|] == events;
  }

  method OrgSamlEntityIDs(events: seq<SAMLEvent>) returns (ids: seq<string>)
    ensures ids == KeyedLists.Values(KeyedLists.Edited(SAMLEdits(events), false))
    ensures KeyedLists.NeverReAdded(SAMLEdits(events)) ==> AreLatestValues(ids, SAMLEdits(events))
    ensures forall app :: At(KeyedLists.Latest(SAMLEdits(events)), app) == EntityOf(events, app)
  {
    var entries := FoldEntities(events);
    ids := ValuesOf(entries);
    forall app
      ensures At(KeyedLists.Latest(SAMLEdits(events)), app) == EntityOf(events, app)
    {
      LatestEntities(events, app);
    }
    if KeyedLists.NeverReAdded(SAMLEdits(events)) {
      EditedAreLatest(SAMLEdits(events), false);
    }
  }
}
