/**
Identity providers: the ten write models of a provider, the model that tells which of them an id
belongs to, and the model that decides whether an id can be removed.
*/
module IdentityProviders {
  import opened Wrappers
  import Folds

  datatype IDPType =
    | IDPTypeUnspecified
    | IDPTypeOIDC
    | IDPTypeJWT
    | IDPTypeOAuth
    | IDPTypeLDAP
    | IDPTypeAzureAD
    | IDPTypeGitHub
    | IDPTypeGitHubEnterprise
    | IDPTypeGitLab
    | IDPTypeGitLabSelfHosted
    | IDPTypeGoogle

  /** The type that an old configuration event carries. */
  datatype ConfigType = ConfigOIDC | ConfigSAML | ConfigJWT | ConfigUnspecified

  datatype IDPState = IDPStateUnspecified | IDPStateActive | IDPStateRemoved | IDPStateMigrated

  predicate Exists(s: IDPState) {
    !s.IDPStateUnspecified? && !s.IDPStateRemoved? && !s.IDPStateMigrated?
  }

  datatype Options = Options(isCreationAllowed: bool, isLinkingAllowed: bool, isAutoCreation: bool, isAutoUpdate: bool)

  /** The settings the models share; a type that lacks one has it at its zero value. */
  datatype Settings = Settings(name: string, clientID: string, clientSecret: string, scopes: seq<string>,
                               tenant: string, isEmailVerified: bool, options: Options)

  const NO_SETTINGS := Settings("", "", "", [], "", false, Options(false, false, false, false))

  datatype OptionChanges = OptionChanges(isCreationAllowed: Option<bool>, isLinkingAllowed: Option<bool>,
                                         isAutoCreation: Option<bool>, isAutoUpdate: Option<bool>)

  datatype SettingsChange = SettingsChange(name: Option<string>, clientID: Option<string>, clientSecret: Option<string>,
                                           scopes: Option<seq<string>>, tenant: Option<string>,
                                           isEmailVerified: Option<bool>, options: OptionChanges)

  datatype Aggregate = Instance(instanceID: string) | Org(orgID: string, instanceID: string)
  {
    function ResourceOwner(): string {
      if Instance? then instanceID else orgID
    }

    /** Ids are generated, so none is empty and an organization does not have the id of its instance. */
    predicate WellFormed() {
      instanceID != "" && (Org? ==> orgID != "" && orgID != instanceID)
    }
  }

  datatype Change =
    | Added(t: IDPType, settings: Settings)
    | Changed(t: IDPType, change: SettingsChange)
    | MigratedAzureAD(settings: Settings)
    | MigratedGoogle(settings: Settings)
    | Removed
    | ConfigAdded(typ: ConfigType, name: string, autoRegister: bool)
    | ConfigChanged(newName: Option<string>, newAutoRegister: Option<bool>)
    | OIDCConfigAdded(clientID: string, clientSecret: string, scopes: seq<string>)
    | OIDCConfigChanged(newClientID: Option<string>, newClientSecret: Option<string>, newScopes: Option<seq<string>>)
    | ConfigRemoved

  datatype Event = Event(aggregate: Aggregate, id: string, change: Change)

  // ---------------------------------------------------------------- queries

  datatype Query =
    | TypeQuery(id: string)
    | RemoveQuery(instance: bool, resourceOwner: string, id: string)
    | ProviderQuery(t: IDPType, instance: bool, resourceOwner: string, id: string)

  predicate OfAggregate(e: Event, instance: bool, resourceOwner: string) {
    e.aggregate.Instance? == instance && e.aggregate.ResourceOwner() == resourceOwner
  }

  /** The event types that the query of the model of a type lists. */
  predicate Listed(t: IDPType, c: Change) {
    match c
    case Added(t', _) => t' == t
    case Changed(t', _) => t' == t
    case MigratedAzureAD(_) => t.IDPTypeOIDC? || t.IDPTypeAzureAD?
    case MigratedGoogle(_) => t.IDPTypeOIDC? || t.IDPTypeGoogle?
    case Removed => true
    case ConfigAdded(_, _, _) => t.IDPTypeOIDC? || t.IDPTypeJWT?
    case ConfigChanged(_, _) => t.IDPTypeOIDC? || t.IDPTypeJWT?
    case OIDCConfigAdded(_, _, _) => t.IDPTypeOIDC?
    case OIDCConfigChanged(_, _, _) => t.IDPTypeOIDC?
    case ConfigRemoved => t.IDPTypeOIDC? || t.IDPTypeJWT?
  }

  predicate Matches(q: Query, e: Event) {
    match q
    case TypeQuery(id) =>
      e.id == id && (e.change.Added? || e.change.MigratedAzureAD? || e.change.MigratedGoogle? || e.change.Removed?
                     || e.change.ConfigAdded? || e.change.ConfigRemoved?)
    case RemoveQuery(instance, resourceOwner, id) =>
      e.id == id && OfAggregate(e, instance, resourceOwner)
      && (e.change.Added? || e.change.Removed? || e.change.ConfigAdded? || e.change.ConfigRemoved?)
    case ProviderQuery(t, instance, resourceOwner, id) =>
      e.id == id && OfAggregate(e, instance, resourceOwner) && Listed(t, e.change)
  }

  function Filter(log: seq<Event>, q: Query): seq<Event> {
    if log == [] then []
    else
      var rest, e := Filter(log[..|log| - 1], q), log[|log| - 1];
      if Matches(q, e) then rest + [e] else rest
  }

  lemma FilterSnoc(log: seq<Event>, e: Event, q: Query)
    ensures Filter(log + [e], q) == if Matches(q, e) then Filter(log, q) + [e] else Filter(log, q)
  {
    assert (log + [e])[..|log|] == log;
  }

  // ---------------------------------------------------------------- the model of the type

  datatype TypeView = TypeView(t: IDPType, state: IDPState, resourceOwner: string, instanceID: string)

  const NO_TYPE := TypeView(IDPTypeUnspecified, IDPStateUnspecified, "", "")

  /** The type of a provider that an event adds, none if it adds none that this model knows. */
  function AddedType(c: Change): Option<IDPType> {
    if c.Added? then Some(c.t)
    else if c.ConfigAdded? && c.typ.ConfigOIDC? then Some(IDPTypeOIDC)
    else if c.ConfigAdded? && c.typ.ConfigJWT? then Some(IDPTypeJWT)
    else None
  }

  function MigratedType(c: Change): Option<IDPType> {
    if c.MigratedAzureAD? then Some(IDPTypeAzureAD) else if c.MigratedGoogle? then Some(IDPTypeGoogle) else None
  }

  predicate IsRemoval(c: Change) {
    c.Removed? || c.ConfigRemoved?
  }

  function TypeStep(v: TypeView, e: Event): TypeView {
    if AddedType(e.change).Some? then
      TypeView(AddedType(e.change).value, IDPStateActive, e.aggregate.ResourceOwner(), e.aggregate.instanceID)
    else if MigratedType(e.change).Some? then v.(t := MigratedType(e.change).value)
    else if IsRemoval(e.change) then TypeView(IDPTypeUnspecified, IDPStateRemoved, "", "")
    else v
  }

  function TypeReduced(v: TypeView, es: seq<Event>, id: string): TypeView {
    if es == [] then v
    else
      var before, e := TypeReduced(v, es[..|es| - 1], id), es[|es| - 1];
      if e.id == id then TypeStep(before, e) else before
  }

  function LoadType(log: seq<Event>, id: string): TypeView {
    TypeReduced(NO_TYPE, Filter(log, TypeQuery(id)), id)
  }

  lemma LoadTypeSnoc(log: seq<Event>, e: Event, id: string)
    ensures LoadType(log + [e], id) == if e.id == id then TypeStep(LoadType(log, id), e) else LoadType(log, id)
  {
    FilterSnoc(log, e, TypeQuery(id));
    var f := Filter(log, TypeQuery(id));
    assert (f + [e])[..|f|] == f;
  }

  class IDPTypeWriteModel {
    const id: string
    var events: seq<Event>
    var t: IDPType
    var state: IDPState
    var resourceOwner: string
    var instanceID: string

    ghost function View(): TypeView
      reads this
    {
      TypeView(t, state, resourceOwner, instanceID)
    }

    constructor (id: string)
      ensures this.id == id && events == [] && View() == NO_TYPE
    {
      this.id := id;
      events, t, state, resourceOwner, instanceID := [], IDPTypeUnspecified, IDPStateUnspecified, "", "";
    }

    method AppendEvents(more: seq<Event>)
      modifies `events
      ensures events == old(events) + more
    {
      events := events + more;
    }

    method ReduceAdded(id: string, t: IDPType, aggregate: Aggregate)
      modifies `t, `state, `resourceOwner, `instanceID
      ensures View() == if this.id != id then old(View())
                        else TypeView(t, IDPStateActive, aggregate.ResourceOwner(), aggregate.instanceID)
    {
      if this.id != id { return; }
      this.t, state := t, IDPStateActive;
      resourceOwner, instanceID := aggregate.ResourceOwner(), aggregate.instanceID;
    }

    method ReduceChanged(id: string, t: IDPType)
      modifies `t
      ensures this.t == if this.id != id then old(this.t) else t
    {
      if this.id != id { return; }
      this.t := t;
    }

    method ReduceRemoved(id: string)
      modifies `t, `state, `resourceOwner, `instanceID
      ensures View() == if this.id != id then old(View()) else TypeView(IDPTypeUnspecified, IDPStateRemoved, "", "")
    {
      if this.id != id { return; }
      t, state, resourceOwner, instanceID := IDPTypeUnspecified, IDPStateRemoved, "", "";
    }

    method Reduce()
      modifies this
      ensures View() == TypeReduced(old(View()), old(events), id) && events == []
    {
      for i := 0 to |events|
        invariant events == old(events)
        invariant View() == TypeReduced(old(View()), events[..i], id)
      {
        assert events[..i + 1][..i] == events[..i];
        var e := events[i];
        match e.change
        case Added(t, _) => ReduceAdded(e.id, t, e.aggregate);
        case MigratedAzureAD(_) => ReduceChanged(e.id, IDPTypeAzureAD);
        case MigratedGoogle(_) => ReduceChanged(e.id, IDPTypeGoogle);
        case Removed => ReduceRemoved(e.id);
        case ConfigAdded(typ, _, _) =>
          if typ == ConfigOIDC {
            ReduceAdded(e.id, IDPTypeOIDC, e.aggregate);
          } else if typ == ConfigJWT {
            ReduceAdded(e.id, IDPTypeJWT, e.aggregate);
          }
        case ConfigRemoved => ReduceRemoved(e.id);
        case _ =>
      }
      assert events[..|events|] == events;
      events := [];
    }
  }

  // ---------------------------------------------------------------- the model of a removal

  function RemoveStep(s: IDPState, c: Change): IDPState {
    if c.Added? || c.ConfigAdded? then IDPStateActive else if IsRemoval(c) then IDPStateRemoved else s
  }

  function RemoveReduced(s: IDPState, es: seq<Event>, id: string): IDPState {
    if es == [] then s
    else
      var before, e := RemoveReduced(s, es[..|es| - 1], id), es[|es| - 1];
      if e.id == id then RemoveStep(before, e.change) else before
  }

  function LoadRemove(log: seq<Event>, instance: bool, resourceOwner: string, id: string): IDPState {
    RemoveReduced(IDPStateUnspecified, Filter(log, RemoveQuery(instance, resourceOwner, id)), id)
  }

  lemma LoadRemoveSnoc(log: seq<Event>, e: Event, instance: bool, resourceOwner: string, id: string)
    ensures LoadRemove(log + [e], instance, resourceOwner, id) ==
            if e.id == id && OfAggregate(e, instance, resourceOwner)
            then RemoveStep(LoadRemove(log, instance, resourceOwner, id), e.change)
            else LoadRemove(log, instance, resourceOwner, id)
  {
    var q := RemoveQuery(instance, resourceOwner, id);
    FilterSnoc(log, e, q);
    assert (Filter(log, q) + [e])[..|Filter(log, q)|] == Filter(log, q);
  }

  class IDPRemoveWriteModel {
    const instance: bool
    const resourceOwner: string
    const id: string
    var events: seq<Event>
    var state: IDPState

    constructor (instance: bool, resourceOwner: string, id: string)
      ensures this.instance == instance && this.resourceOwner == resourceOwner && this.id == id
      ensures events == [] && state == IDPStateUnspecified
    {
      this.instance, this.resourceOwner, this.id := instance, resourceOwner, id;
      events, state := [], IDPStateUnspecified;
    }

    method AppendEvents(more: seq<Event>)
      modifies `events
      ensures events == old(events) + more
    {
      events := events + more;
    }

    method ReduceAdded(id: string)
      modifies `state
      ensures state == if this.id != id then old(state) else IDPStateActive
    {
      if this.id != id { return; }
      state := IDPStateActive;
    }

    method ReduceRemoved(id: string)
      modifies `state
      ensures state == if this.id != id then old(state) else IDPStateRemoved
    {
      if this.id != id { return; }
      state := IDPStateRemoved;
    }

    method Reduce()
      modifies this
      ensures state == RemoveReduced(old(state), old(events), id) && events == []
    {
      for i := 0 to |events|
        invariant events == old(events)
        invariant state == RemoveReduced(old(state), events[..i], id)
      {
        assert events[..i + 1][..i] == events[..i];
        var e := events[i];
        match e.change
        case Added(_, _) => ReduceAdded(e.id);
        case Removed => ReduceRemoved(e.id);
        case ConfigAdded(_, _, _) => ReduceAdded(e.id);
        case ConfigRemoved => ReduceRemoved(e.id);
        case _ =>
      }
      assert events[..|events|] == events;
      events := [];
    }
  }

  // ---------------------------------------------------------------- the models of the ten types

  datatype View = View(settings: Settings, state: IDPState)

  const EMPTY := View(NO_SETTINGS, IDPStateUnspecified)

  function Changes<T>(old_: T, new_: Option<T>): T {
    if new_.Some? then new_.value else old_
  }

  function ReduceOptions(o: Options, c: OptionChanges): Options {
    Options(Changes(o.isCreationAllowed, c.isCreationAllowed), Changes(o.isLinkingAllowed, c.isLinkingAllowed),
            Changes(o.isAutoCreation, c.isAutoCreation), Changes(o.isAutoUpdate, c.isAutoUpdate))
  }

  function ReduceSettings(s: Settings, c: SettingsChange): Settings {
    Settings(Changes(s.name, c.name), Changes(s.clientID, c.clientID), Changes(s.clientSecret, c.clientSecret),
             Changes(s.scopes, c.scopes), Changes(s.tenant, c.tenant), Changes(s.isEmailVerified, c.isEmailVerified),
             ReduceOptions(s.options, c.options))
  }

  /** Names a value only if it differs. */
  function Difference<T(==)>(have: T, want: T): Option<T> {
    if have != want then Some(want) else None
  }

  function OptionsDifference(have: Options, want: Options): OptionChanges {
    OptionChanges(Difference(have.isCreationAllowed, want.isCreationAllowed), Difference(have.isLinkingAllowed, want.isLinkingAllowed),
                  Difference(have.isAutoCreation, want.isAutoCreation), Difference(have.isAutoUpdate, want.isAutoUpdate))
  }

  /** The change that an update pushes; the secret is only changed if a new one is given. */
  function NewChanges(have: Settings, want: Settings, newSecret: string, encrypt: string -> string): SettingsChange {
    SettingsChange(Difference(have.name, want.name), Difference(have.clientID, want.clientID),
                   if newSecret != "" then Some(encrypt(newSecret)) else None,
                   Difference(have.scopes, want.scopes), Difference(have.tenant, want.tenant),
                   Difference(have.isEmailVerified, want.isEmailVerified), OptionsDifference(have.options, want.options))
  }

  const NO_CHANGE := SettingsChange(None, None, None, None, None, None, OptionChanges(None, None, None, None))

  /** Reducing an update leaves the wanted settings, with the new secret or the one of before; an update without effect is empty. */
  lemma UpdateReduces(have: Settings, want: Settings, newSecret: string, encrypt: string -> string)
    ensures ReduceSettings(have, NewChanges(have, want, newSecret, encrypt))
            == want.(clientSecret := if newSecret == "" then have.clientSecret else encrypt(newSecret))
    ensures NewChanges(have, want, newSecret, encrypt) == NO_CHANGE
            <==> newSecret == "" && want.(clientSecret := have.clientSecret) == have
  {
  }

  /** What the model of a type does with an event. */
  function Step(t: IDPType, v: View, c: Change): View {
    match c
    case Added(t', settings) => if t' == t then View(settings, IDPStateActive) else v
    case Changed(t', change) => if t' == t then v.(settings := ReduceSettings(v.settings, change)) else v
    case MigratedAzureAD(settings) =>
      if t.IDPTypeOIDC? then v.(state := IDPStateMigrated)
      else if t.IDPTypeAzureAD? then View(settings, IDPStateActive)
      else v
    case MigratedGoogle(settings) =>
      if t.IDPTypeOIDC? then v.(state := IDPStateMigrated)
      else if t.IDPTypeGoogle? then View(settings, IDPStateActive)
      else v
    case Removed => v.(state := IDPStateRemoved)
    case ConfigAdded(_, name, autoRegister) =>
      if t.IDPTypeOIDC? || t.IDPTypeJWT?
      then View(v.settings.(name := name, options := v.settings.options.(isAutoCreation := autoRegister)), IDPStateActive)
      else v
    case ConfigChanged(name, autoRegister) =>
      if t.IDPTypeOIDC? || t.IDPTypeJWT?
      then v.(settings := v.settings.(name := Changes(v.settings.name, name),
                                      options := v.settings.options.(isAutoCreation :=
                                        Changes(v.settings.options.isAutoCreation, autoRegister))))
      else v
    case OIDCConfigAdded(clientID, clientSecret, scopes) =>
      if t.IDPTypeOIDC?
      then v.(settings := v.settings.(clientID := clientID, clientSecret := clientSecret, scopes := scopes))
      else v
    case OIDCConfigChanged(clientID, clientSecret, scopes) =>
      if t.IDPTypeOIDC?
      then v.(settings := v.settings.(clientID := Changes(v.settings.clientID, clientID),
                                      clientSecret := Changes(v.settings.clientSecret, clientSecret),
                                      scopes := Changes(v.settings.scopes, scopes)))
      else v
    case ConfigRemoved => if t.IDPTypeOIDC? || t.IDPTypeJWT? then v.(state := IDPStateRemoved) else v
  }

  function Reduced(t: IDPType, v: View, es: seq<Event>): View {
    if es == [] then v else Step(t, Reduced(t, v, es[..|es| - 1]), es[|es| - 1].change)
  }

  predicate IsOld(t: IDPType) {
    t.IDPTypeOIDC? || t.IDPTypeJWT?
  }

  function AllOf(s: Settings): SettingsChange {
    SettingsChange(Some(s.name), Some(s.clientID), Some(s.clientSecret), Some(s.scopes), Some(s.tenant), Some(s.isEmailVerified),
                   OptionChanges(Some(s.options.isCreationAllowed), Some(s.options.isLinkingAllowed),
                                 Some(s.options.isAutoCreation), Some(s.options.isAutoUpdate)))
  }

  /** Which settings an event gives to the model of a type. */
  function Given(t: IDPType, c: Change): SettingsChange {
    match c
    case Added(t', s) => if t' == t then AllOf(s) else NO_CHANGE
    case Changed(t', change) => if t' == t then change else NO_CHANGE
    case MigratedAzureAD(s) => if t.IDPTypeAzureAD? then AllOf(s) else NO_CHANGE
    case MigratedGoogle(s) => if t.IDPTypeGoogle? then AllOf(s) else NO_CHANGE
    case Removed => NO_CHANGE
    case ConfigAdded(_, name, auto) =>
      if IsOld(t) then NO_CHANGE.(name := Some(name), options := NO_CHANGE.options.(isAutoCreation := Some(auto))) else NO_CHANGE
    case ConfigChanged(name, auto) =>
      if IsOld(t) then NO_CHANGE.(name := name, options := NO_CHANGE.options.(isAutoCreation := auto)) else NO_CHANGE
    case OIDCConfigAdded(id, secret, scopes) =>
      if t.IDPTypeOIDC? then NO_CHANGE.(clientID := Some(id), clientSecret := Some(secret), scopes := Some(scopes)) else NO_CHANGE
    case OIDCConfigChanged(id, secret, scopes) =>
      if t.IDPTypeOIDC? then NO_CHANGE.(clientID := id, clientSecret := secret, scopes := scopes) else NO_CHANGE
    case ConfigRemoved => NO_CHANGE
  }

  function AllGiven(t: IDPType, es: seq<Event>): seq<SettingsChange> {
    if es == [] then [] else AllGiven(t, es[..|es| - 1]) + [Given(t, es[|es| - 1].change)]
  }

  function NameOf(c: SettingsChange): Option<string> { c.name }
  function ClientIDOf(c: SettingsChange): Option<string> { c.clientID }
  function SecretOf(c: SettingsChange): Option<string> { c.clientSecret }
  function ScopesOf(c: SettingsChange): Option<seq<string>> { c.scopes }
  function TenantOf(c: SettingsChange): Option<string> { c.tenant }
  function VerifiedOf(c: SettingsChange): Option<bool> { c.isEmailVerified }
  function CreationOf(c: SettingsChange): Option<bool> { c.options.isCreationAllowed }
  function LinkingOf(c: SettingsChange): Option<bool> { c.options.isLinkingAllowed }
  function AutoCreationOf(c: SettingsChange): Option<bool> { c.options.isAutoCreation }
  function AutoUpdateOf(c: SettingsChange): Option<bool> { c.options.isAutoUpdate }

  predicate AreLatestOptions(o: Options, given: seq<SettingsChange>) {
    && o.isCreationAllowed == Folds.Latest(given, false, CreationOf)
    && o.isLinkingAllowed == Folds.Latest(given, false, LinkingOf)
    && o.isAutoCreation == Folds.Latest(given, false, AutoCreationOf)
    && o.isAutoUpdate == Folds.Latest(given, false, AutoUpdateOf)
  }

  predicate AreLatestSettings(s: Settings, given: seq<SettingsChange>) {
    && s.name == Folds.Latest(given, "", NameOf)
    && s.clientID == Folds.Latest(given, "", ClientIDOf)
    && s.clientSecret == Folds.Latest(given, "", SecretOf)
    && s.scopes == Folds.Latest(given, [], ScopesOf)
    && s.tenant == Folds.Latest(given, "", TenantOf)
    && s.isEmailVerified == Folds.Latest(given, false, VerifiedOf)
    && AreLatestOptions(s.options, given)
  }

  lemma LatestOptionsKept(o: Options, given: seq<SettingsChange>, c: SettingsChange)
    requires AreLatestOptions(o, given)
    ensures AreLatestOptions(ReduceOptions(o, c.options), given + [c])
  {
    Folds.LatestSnoc(given, c, false, CreationOf);
    Folds.LatestSnoc(given, c, false, LinkingOf);
    Folds.LatestSnoc(given, c, false, AutoCreationOf);
    Folds.LatestSnoc(given, c, false, AutoUpdateOf);
  }

  lemma LatestKept(s: Settings, given: seq<SettingsChange>, c: SettingsChange)
    requires AreLatestSettings(s, given)
    ensures AreLatestSettings(ReduceSettings(s, c), given + [c])
  {
    Folds.LatestSnoc(given, c, "", NameOf);
    Folds.LatestSnoc(given, c, "", ClientIDOf);
    Folds.LatestSnoc(given, c, "", SecretOf);
    Folds.LatestSnoc(given, c, [], ScopesOf);
    Folds.LatestSnoc(given, c, "", TenantOf);
    Folds.LatestSnoc(given, c, false, VerifiedOf);
    LatestOptionsKept(s.options, given, c);
  }

  /** Every setting of a model is the last one that an event of its type, or an old event it reads, has given. */
  lemma {:induction false} SettingsAreLatest(t: IDPType, es: seq<Event>)
    ensures AreLatestSettings(Reduced(t, EMPTY, es).settings, AllGiven(t, es))
  {
    if es != [] {
      var init, c := es[..|es| - 1], es[|es| - 1].change;
      SettingsAreLatest(t, init);
      StepGives(t, Reduced(t, EMPTY, init), c);
      LatestKept(Reduced(t, EMPTY, init).settings, AllGiven(t, init), Given(t, c));
    }
  }

  lemma StepGives(t: IDPType, v: View, c: Change)
    ensures Step(t, v, c).settings == ReduceSettings(v.settings, Given(t, c))
  {
    match c
    case Added(_, _) =>
    case Changed(_, _) =>
    case MigratedAzureAD(_) =>
    case MigratedGoogle(_) =>
    case Removed =>
    case ConfigAdded(_, _, _) =>
    case ConfigChanged(_, _) =>
    case OIDCConfigAdded(_, _, _) =>
    case OIDCConfigChanged(_, _, _) =>
    case ConfigRemoved =>
  }

  function Load(log: seq<Event>, t: IDPType, instance: bool, resourceOwner: string, id: string): View {
    Reduced(t, EMPTY, Filter(log, ProviderQuery(t, instance, resourceOwner, id)))
  }

  lemma LoadSnoc(log: seq<Event>, e: Event, t: IDPType, instance: bool, resourceOwner: string, id: string)
    ensures Load(log + [e], t, instance, resourceOwner, id) ==
            if e.id == id && OfAggregate(e, instance, resourceOwner)
            then Step(t, Load(log, t, instance, resourceOwner, id), e.change)
            else Load(log, t, instance, resourceOwner, id)
  {
    var q := ProviderQuery(t, instance, resourceOwner, id);
    FilterSnoc(log, e, q);
    assert (Filter(log, q) + [e])[..|Filter(log, q)|] == Filter(log, q);
  }

  /** What the model of a type does with its state alone. */
  function StateStep(t: IDPType, s: IDPState, c: Change): IDPState {
    var old_ := t.IDPTypeOIDC? || t.IDPTypeJWT?;
    if (c.Added? && c.t == t) || (MigratedType(c) == Some(t) && !t.IDPTypeOIDC?) || (old_ && c.ConfigAdded?) then IDPStateActive
    else if t.IDPTypeOIDC? && MigratedType(c).Some? then IDPStateMigrated
    else if c.Removed? || (old_ && c.ConfigRemoved?) then IDPStateRemoved
    else s
  }

  lemma StepOfState(t: IDPType, v: View, c: Change)
    ensures Step(t, v, c).state == StateStep(t, v.state, c)
  {
    match c
    case Added(_, _) =>
    case Changed(_, _) =>
    case MigratedAzureAD(_) =>
    case MigratedGoogle(_) =>
    case Removed =>
    case ConfigAdded(_, _, _) =>
    case ConfigChanged(_, _) =>
    case OIDCConfigAdded(_, _, _) =>
    case OIDCConfigChanged(_, _, _) =>
    case ConfigRemoved =>
  }

  lemma LoadStateSnoc(log: seq<Event>, e: Event, t: IDPType, instance: bool, resourceOwner: string, id: string)
    ensures Load(log + [e], t, instance, resourceOwner, id).state ==
            if e.id == id && OfAggregate(e, instance, resourceOwner)
            then StateStep(t, Load(log, t, instance, resourceOwner, id).state, e.change)
            else Load(log, t, instance, resourceOwner, id).state
  {
    LoadSnoc(log, e, t, instance, resourceOwner, id);
    StepOfState(t, Load(log, t, instance, resourceOwner, id), e.change);
  }

  /** The write model of a provider; the type says which of the ten write models it is. */
  class ProviderWriteModel {
    const t: IDPType
    const instance: bool
    const resourceOwner: string
    const id: string
    var events: seq<Event>
    var settings: Settings
    var state: IDPState

    constructor (t: IDPType, instance: bool, resourceOwner: string, id: string)
      ensures this.t == t && this.instance == instance && this.resourceOwner == resourceOwner && this.id == id
      ensures events == [] && View(settings, state) == EMPTY
    {
      this.t, this.instance, this.resourceOwner, this.id := t, instance, resourceOwner, id;
      events, settings, state := [], NO_SETTINGS, IDPStateUnspecified;
    }

    method AppendEvents(more: seq<Event>)
      modifies `events
      ensures events == old(events) + more
    {
      events := events + more;
    }

    method ReduceAdded(s: Settings)
      modifies `settings, `state
      ensures View(settings, state) == View(s, IDPStateActive)
    {
      settings := Settings(s.name, s.clientID, s.clientSecret, s.scopes, s.tenant, s.isEmailVerified, s.options);
      state := IDPStateActive;
    }

    method ReduceChanged(c: SettingsChange)
      modifies `settings
      ensures settings == ReduceSettings(old(settings), c)
    {
      if c.clientID.Some? { settings := settings.(clientID := c.clientID.value); }
      if c.clientSecret.Some? { settings := settings.(clientSecret := c.clientSecret.value); }
      if c.name.Some? { settings := settings.(name := c.name.value); }
      if c.scopes.Some? { settings := settings.(scopes := c.scopes.value); }
      if c.tenant.Some? { settings := settings.(tenant := c.tenant.value); }
      if c.isEmailVerified.Some? { settings := settings.(isEmailVerified := c.isEmailVerified.value); }
      settings := settings.(options := ReduceOptions(settings.options, c.options));
    }

    /** What OIDC and JWT do with the old events. */
    method ReduceConfig(c: Change)
      requires t.IDPTypeOIDC? || t.IDPTypeJWT?
      requires c.ConfigAdded? || c.ConfigChanged? || c.OIDCConfigAdded? || c.OIDCConfigChanged? || c.ConfigRemoved?
      modifies `settings, `state
      ensures View(settings, state) == Step(t, old(View(settings, state)), c)
    {
      match c
      case ConfigAdded(_, name, autoRegister) =>
        settings := settings.(name := name, options := settings.options.(isAutoCreation := autoRegister));
        state := IDPStateActive;
      case ConfigChanged(name, autoRegister) =>
        if name.Some? { settings := settings.(name := name.value); }
        if autoRegister.Some? {
          settings := settings.(options := settings.options.(isAutoCreation := autoRegister.value));
        }
      case OIDCConfigAdded(clientID, clientSecret, scopes) =>
        if t.IDPTypeOIDC? {
          settings := settings.(clientID := clientID, clientSecret := clientSecret, scopes := scopes);
        }
      case OIDCConfigChanged(clientID, clientSecret, scopes) =>
        if t.IDPTypeOIDC? {
          if clientID.Some? { settings := settings.(clientID := clientID.value); }
          if clientSecret.Some? { settings := settings.(clientSecret := clientSecret.value); }
          if scopes.Some? { settings := settings.(scopes := scopes.value); }
        }
      case ConfigRemoved => state := IDPStateRemoved;
    }

    method ReduceEvent(e: Event)
      modifies `settings, `state
      ensures View(settings, state) == Step(t, old(View(settings, state)), e.change)
    {
      match e.change
      case Added(t', s) => if t' == t { ReduceAdded(s); }
      case Changed(t', c) => if t' == t { ReduceChanged(c); }
      case MigratedAzureAD(s) =>
        if t.IDPTypeOIDC? { state := IDPStateMigrated; } else if t.IDPTypeAzureAD? { ReduceAdded(s); }
      case MigratedGoogle(s) =>
        if t.IDPTypeOIDC? { state := IDPStateMigrated; } else if t.IDPTypeGoogle? { ReduceAdded(s); }
      case Removed => state := IDPStateRemoved;
      case _ => if t.IDPTypeOIDC? || t.IDPTypeJWT? { ReduceConfig(e.change); }
    }

    /** The model of LDAP skips the events of other ids by itself; the query has left none. */
    method Reduce()
      requires forall e <- events :: e.id == id
      modifies this
      ensures View(settings, state) == Reduced(t, old(View(settings, state)), old(events)) && events == []
    {
      for i := 0 to |events|
        invariant events == old(events)
        invariant View(settings, state) == Reduced(t, old(View(settings, state)), events[..i])
      {
        assert events[..i + 1][..i] == events[..i];
        if t.IDPTypeLDAP? && events[i].id != id { continue; }
        ReduceEvent(events[i]);
      }
      assert events[..|events|] == events;
      events := [];
    }
  }
}
