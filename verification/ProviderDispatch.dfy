/** Which model an id is dispatched to, when the models of an id agree, and what an active provider holds. */
module ProviderDispatch {
  import opened Wrappers
  import opened IdentityProviders

  /** An event of the id is in the aggregate, and an addition has a type. */
  predicate Belongs(e: Event, id: string, aggregate: Aggregate) {
    e.id == id ==> e.aggregate == aggregate && (e.change.Added? ==> !e.change.t.IDPTypeUnspecified?)
  }

  /** All events of an id are in one aggregate. */
  predicate InOneAggregate(log: seq<Event>, id: string, aggregate: Aggregate) {
    aggregate.WellFormed() && forall e <- log :: Belongs(e, id, aggregate)
  }

  lemma OneAggregateSnoc(init: seq<Event>, e: Event, id: string, agg: Aggregate)
    requires InOneAggregate(init + [e], id, agg)
    ensures InOneAggregate(init, id, agg) && Belongs(e, id, agg)
  {
    assert forall d <- init :: d in init + [e];
    assert e in init + [e];
  }

  /** An event that leaves the type model active leaves the model of the new type active. */
  lemma ActiveStep(v: TypeView, s: IDPState, e: Event)
    requires TypeStep(v, e).state.IDPStateActive?
    requires v.state.IDPStateActive? && TypeStep(v, e).t == v.t ==> s.IDPStateActive?
    requires e.change.Added? ==> !e.change.t.IDPTypeUnspecified?
    requires v.state.IDPStateActive? ==> !v.t.IDPTypeUnspecified?
    ensures StateStep(TypeStep(v, e).t, s, e.change).IDPStateActive? && !TypeStep(v, e).t.IDPTypeUnspecified?
  {
  }

  /** What the type model tells is where and as what an active provider can be found. */
  predicate PointsTo(v: TypeView, agg: Aggregate) {
    if v.state.IDPStateActive?
    then !v.t.IDPTypeUnspecified? && v.resourceOwner == agg.ResourceOwner() && v.instanceID == agg.instanceID
    else v.resourceOwner == "" && v.instanceID == ""
  }

  lemma PointsToStep(v: TypeView, e: Event)
    requires PointsTo(v, e.aggregate) && (e.change.Added? ==> !e.change.t.IDPTypeUnspecified?)
    ensures PointsTo(TypeStep(v, e), e.aggregate)
  {
  }

  predicate Agrees(log: seq<Event>, id: string, agg: Aggregate) {
    var v := LoadType(log, id);
    && PointsTo(v, agg)
    && (v.state.IDPStateActive? ==> Load(log, v.t, agg.Instance?, agg.ResourceOwner(), id).state.IDPStateActive?)
  }

  lemma AgreesSnoc(init: seq<Event>, e: Event, id: string, agg: Aggregate)
    requires Agrees(init, id, agg) && Belongs(e, id, agg)
    ensures Agrees(init + [e], id, agg)
  {
    var v, v' := LoadType(init, id), LoadType(init + [e], id);
    LoadTypeSnoc(init, e, id);
    LoadStateSnoc(init, e, v'.t, agg.Instance?, agg.ResourceOwner(), id);
    if e.id == id {
      PointsToStep(v, e);
      if v'.state.IDPStateActive? {
        ActiveStep(v, Load(init, v'.t, agg.Instance?, agg.ResourceOwner(), id).state, e);
        assert OfAggregate(e, agg.Instance?, agg.ResourceOwner());
      }
    }
  }

  /** While the type model is active, the model of that type is active too and in the right aggregate. */
  lemma {:induction false} DispatchAgrees(log: seq<Event>, id: string, agg: Aggregate)
    requires InOneAggregate(log, id, agg)
    ensures Agrees(log, id, agg)
  {
    if log != [] {
      var init, e := log[..|log| - 1], log[|log| - 1];
      assert log == init + [e];
      OneAggregateSnoc(init, e, id, agg);
      DispatchAgrees(init, id, agg);
      AgreesSnoc(init, e, id, agg);
    }
  }

  /** The events of an id since it was last removed. */
  function SinceRemoval(log: seq<Event>, id: string): seq<Event> {
    if log == [] then []
    else
      var since, e := SinceRemoval(log[..|log| - 1], id), log[|log| - 1];
      if e.id != id then since else if IsRemoval(e.change) then [] else since + [e]
  }

  predicate AddsKnown(es: seq<Event>) {
    exists e <- es :: AddedType(e.change).Some?
  }

  /** A configuration of a type that the type model does not know. */
  predicate IsUnknownConfig(c: Change) {
    c.ConfigAdded? && AddedType(c).None?
  }

  predicate AddsUnknown(es: seq<Event>) {
    exists e <- es :: IsUnknownConfig(e.change)
  }

  predicate EverRemoved(log: seq<Event>, id: string) {
    exists e <- log :: e.id == id && IsRemoval(e.change)
  }

  lemma AddsSnoc(es: seq<Event>, e: Event)
    ensures AddsKnown(es + [e]) <==> AddsKnown(es) || AddedType(e.change).Some?
    ensures AddsUnknown(es + [e]) <==> AddsUnknown(es) || IsUnknownConfig(e.change)
  {
    assert forall d :: d in es + [e] <==> d in es || d == e;
    assert e in es + [e];
    if d :| d in es && AddedType(d.change).Some? {
      assert d in es + [e];
    }
    if d :| d in es && IsUnknownConfig(d.change) {
      assert d in es + [e];
    }
  }

  function IdleState(log: seq<Event>, id: string): IDPState {
    if EverRemoved(log, id) then IDPStateRemoved else IDPStateUnspecified
  }

  predicate StatesAre(log: seq<Event>, id: string, agg: Aggregate) {
    var since := SinceRemoval(log, id);
    && LoadType(log, id).state == (if AddsKnown(since) then IDPStateActive else IdleState(log, id))
    && LoadRemove(log, agg.Instance?, agg.ResourceOwner(), id)
       == (if AddsKnown(since) || AddsUnknown(since) then IDPStateActive else IdleState(log, id))
  }

  lemma EverRemovedSnoc(init: seq<Event>, e: Event, id: string)
    ensures EverRemoved(init + [e], id) <==> EverRemoved(init, id) || (e.id == id && IsRemoval(e.change))
  {
    assert forall d :: d in init + [e] <==> d in init || d == e;
    assert e in init + [e];
    if d :| d in init && d.id == id && IsRemoval(d.change) {
      assert d in init + [e];
    }
  }

  lemma SinceRemovalSnoc(init: seq<Event>, e: Event, id: string)
    ensures SinceRemoval(init + [e], id)
            == if e.id != id then SinceRemoval(init, id) else if IsRemoval(e.change) then [] else SinceRemoval(init, id) + [e]
  {
    assert (init + [e])[..|init|] == init;
  }

  lemma StateOfStep(v: TypeView, s: IDPState, e: Event)
    ensures TypeStep(v, e).state
            == if AddedType(e.change).Some? then IDPStateActive else if IsRemoval(e.change) then IDPStateRemoved else v.state
    ensures RemoveStep(s, e.change)
            == if AddedType(e.change).Some? || IsUnknownConfig(e.change) then IDPStateActive
               else if IsRemoval(e.change) then IDPStateRemoved else s
    ensures IsRemoval(e.change) ==> AddedType(e.change).None? && !IsUnknownConfig(e.change)
  {
  }

  lemma StatesSnoc(init: seq<Event>, e: Event, id: string, agg: Aggregate)
    requires StatesAre(init, id, agg) && Belongs(e, id, agg)
    ensures StatesAre(init + [e], id, agg)
  {
    var type_, remove := LoadType(init, id), LoadRemove(init, agg.Instance?, agg.ResourceOwner(), id);
    LoadTypeSnoc(init, e, id);
    LoadRemoveSnoc(init, e, agg.Instance?, agg.ResourceOwner(), id);
    SinceRemovalSnoc(init, e, id);
    EverRemovedSnoc(init, e, id);
    if e.id == id {
      assert OfAggregate(e, agg.Instance?, agg.ResourceOwner());
      StateOfStep(type_, remove, e);
      AddsSnoc(SinceRemoval(init, id), e);
    }
  }

  /** What the two models fold to on every log of one aggregate, in terms of the events since the last removal. */
  lemma {:induction false} StatesSinceRemoval(log: seq<Event>, id: string, agg: Aggregate)
    requires InOneAggregate(log, id, agg)
    ensures StatesAre(log, id, agg)
  {
    if log != [] {
      var init, e := log[..|log| - 1], log[|log| - 1];
      assert log == init + [e];
      OneAggregateSnoc(init, e, id, agg);
      StatesSinceRemoval(init, id, agg);
      StatesSnoc(init, e, id, agg);
    }
  }

  /** Only configurations of unknown type have been added since the last removal. */
  predicate OnlyUnknown(log: seq<Event>, id: string) {
    AddsUnknown(SinceRemoval(log, id)) && !AddsKnown(SinceRemoval(log, id))
  }

  /** The removal model and the type model agree exactly on the other logs. */
  lemma RemovalAgrees(log: seq<Event>, id: string, agg: Aggregate)
    requires InOneAggregate(log, id, agg)
    ensures LoadRemove(log, agg.Instance?, agg.ResourceOwner(), id) == LoadType(log, id).state <==> !OnlyUnknown(log, id)
  {
    StatesSinceRemoval(log, id, agg);
  }

  /** So they agree whenever all old configurations are of OIDC or JWT. */
  lemma RemovalAgreesOnKnownConfigs(log: seq<Event>, id: string, agg: Aggregate)
    requires InOneAggregate(log, id, agg)
    requires forall e <- log :: e.id == id && e.change.ConfigAdded? ==> e.change.typ.ConfigOIDC? || e.change.typ.ConfigJWT?
    ensures LoadRemove(log, agg.Instance?, agg.ResourceOwner(), id) == LoadType(log, id).state
  {
    SinceOfID(log, id);
    RemovalAgrees(log, id, agg);
  }

  lemma {:induction false} SinceOfID(log: seq<Event>, id: string)
    ensures forall e <- SinceRemoval(log, id) :: e.id == id && e in log && !IsRemoval(e.change)
  {
    if log != [] {
      SinceOfID(log[..|log| - 1], id);
      assert log[|log| - 1] in log;
    }
  }

  /** They differ after a first old configuration of another type, such as SAML. */
  lemma UnknownConfigDiffers(e: Event)
    requires e.aggregate.WellFormed() && IsUnknownConfig(e.change)
    ensures InOneAggregate([e], e.id, e.aggregate)
    ensures LoadRemove([e], e.aggregate.Instance?, e.aggregate.ResourceOwner(), e.id).IDPStateActive?
    ensures LoadType([e], e.id) == NO_TYPE
  {
    assert [] + [e] == [e];
    LoadTypeSnoc([], e, e.id);
    LoadRemoveSnoc([], e, e.aggregate.Instance?, e.aggregate.ResourceOwner(), e.id);
  }

  // ---------------------------------------------------------------- when a model and the type go together

  /** The event gives the id the type. */
  predicate Names(e: Event, id: string, t: IDPType) {
    e.id == id && (AddedType(e.change) == Some(t) || MigratedType(e.change) == Some(t))
  }

  /** The last event that gave the id the type. */
  function LastNaming(log: seq<Event>, id: string, t: IDPType): (k: Option<nat>)
    ensures k.Some? ==> k.value < |log| && Names(log[k.value], id, t)
    ensures forall i :: (if k.Some? then k.value + 1 else 0) <= i < |log| ==> !Names(log[i], id, t)
  {
    if log == [] then None
    else if Names(log[|log| - 1], id, t) then Some(|log| - 1)
    else LastNaming(log[..|log| - 1], id, t)
  }

  lemma LastNamingSnoc(init: seq<Event>, e: Event, id: string, t: IDPType)
    ensures LastNaming(init + [e], id, t) == if Names(e, id, t) then Some(|init|) else LastNaming(init, id, t)
  {
    assert (init + [e])[..|init|] == init;
  }

  /** The change neither gives a type nor removes. */
  predicate Leaves(c: Change) {
    AddedType(c).None? && MigratedType(c).None? && !IsRemoval(c)
  }

  /** Nothing gives the id another type or removes it. */
  predicate Settled(es: seq<Event>, id: string) {
    forall e <- es :: e.id == id ==> Leaves(e.change)
  }

  lemma SettledSnoc(es: seq<Event>, e: Event, id: string)
    ensures Settled(es + [e], id) <==> Settled(es, id) && Settled([e], id)
  {
    assert forall d :: d in es + [e] <==> d in es || d in [e];
  }

  lemma SettledOne(e: Event, id: string)
    ensures Settled([e], id) <==> (e.id == id ==> Leaves(e.change))
  {
    assert e in [e];
  }

  predicate HasType(log: seq<Event>, id: string, t: IDPType) {
    LoadType(log, id).state.IDPStateActive? && LoadType(log, id).t == t
  }

  /** At k a provider was added, or one that had been added and not removed was migrated. */
  predicate Grounded(log: seq<Event>, id: string, k: nat) {
    k < |log| && (AddedType(log[k].change).Some? || AddsKnown(SinceRemoval(log[..k], id)))
  }

  /** The last event that gave the id the type was grounded, and nothing of the kind has followed. */
  predicate NamedLast(log: seq<Event>, id: string, t: IDPType) {
    var k := LastNaming(log, id, t);
    k.Some? && Grounded(log, id, k.value) && Settled(log[k.value + 1..], id)
  }

  lemma TypeStepNames(v: TypeView, e: Event, t: IDPType)
    requires !t.IDPTypeUnspecified?
    ensures var w := TypeStep(v, e);
            w.state.IDPStateActive? && w.t == t <==>
              if AddedType(e.change) == Some(t) || MigratedType(e.change) == Some(t)
              then AddedType(e.change).Some? || v.state.IDPStateActive?
              else v.state.IDPStateActive? && v.t == t && Leaves(e.change)
  {
  }

  lemma HasTypeSnoc(init: seq<Event>, e: Event, id: string, t: IDPType)
    requires !t.IDPTypeUnspecified?
    ensures HasType(init + [e], id, t) <==>
            if Names(e, id, t) then AddedType(e.change).Some? || LoadType(init, id).state.IDPStateActive?
            else HasType(init, id, t) && Settled([e], id)
  {
    LoadTypeSnoc(init, e, id);
    SettledOne(e, id);
    TypeStepNames(LoadType(init, id), e, t);
  }

  lemma NamedLastSnoc(init: seq<Event>, e: Event, id: string, t: IDPType)
    ensures NamedLast(init + [e], id, t) <==>
            if Names(e, id, t) then AddedType(e.change).Some? || AddsKnown(SinceRemoval(init, id))
            else NamedLast(init, id, t) && Settled([e], id)
  {
    var log := init + [e];
    LastNamingSnoc(init, e, id, t);
    if Names(e, id, t) {
      assert log[|init| + 1..] == [] && log[..|init|] == init && log[|init|] == e;
    } else if LastNaming(init, id, t).Some? {
      var k := LastNaming(init, id, t).value;
      assert log[k + 1..] == init[k + 1..] + [e] && log[..k] == init[..k] && log[k] == init[k];
      SettledSnoc(init[k + 1..], e, id);
    }
  }

  lemma ActiveIffAdded(log: seq<Event>, id: string, agg: Aggregate)
    requires InOneAggregate(log, id, agg)
    ensures LoadType(log, id).state.IDPStateActive? <==> AddsKnown(SinceRemoval(log, id))
  {
    StatesSinceRemoval(log, id, agg);
  }

  /** For all ten types: the type model is active with a type exactly if that was the last type given. */
  lemma {:induction false} TypeIffNamedLast(log: seq<Event>, id: string, t: IDPType, agg: Aggregate)
    requires InOneAggregate(log, id, agg) && !t.IDPTypeUnspecified?
    ensures HasType(log, id, t) <==> NamedLast(log, id, t)
  {
    if log != [] {
      var init, e := log[..|log| - 1], log[|log| - 1];
      assert log == init + [e];
      OneAggregateSnoc(init, e, id, agg);
      TypeIffNamedLast(init, id, t, agg);
      HasTypeSnoc(init, e, id, t);
      NamedLastSnoc(init, e, id, t);
      ActiveIffAdded(init, id, agg);
    }
  }

  /** No event removes the provider in the way of the new events. */
  predicate Undeleted(es: seq<Event>, id: string) {
    forall e <- es :: e.id == id ==> !e.change.Removed?
  }

  predicate IsNewType(t: IDPType) {
    !t.IDPTypeUnspecified? && !t.IDPTypeOIDC? && !t.IDPTypeJWT?
  }

  predicate NamedAndKept(log: seq<Event>, id: string, t: IDPType) {
    var k := LastNaming(log, id, t);
    k.Some? && Undeleted(log[k.value + 1..], id)
  }

  lemma UndeletedSnoc(es: seq<Event>, e: Event, id: string)
    ensures Undeleted(es + [e], id) <==> Undeleted(es, id) && (e.id == id ==> !e.change.Removed?)
  {
    assert e in es + [e];
    assert forall d <- es :: d in es + [e];
  }

  lemma NamedAndKeptSnoc(init: seq<Event>, e: Event, id: string, t: IDPType)
    ensures NamedAndKept(init + [e], id, t) <==>
            Names(e, id, t) || (NamedAndKept(init, id, t) && (e.id == id ==> !e.change.Removed?))
  {
    var log := init + [e];
    LastNamingSnoc(init, e, id, t);
    if Names(e, id, t) {
      assert log[|init| + 1..] == [];
    } else if LastNaming(init, id, t).Some? {
      var k := LastNaming(init, id, t).value;
      assert log[k + 1..] == init[k + 1..] + [e];
      UndeletedSnoc(init[k + 1..], e, id);
    }
  }

  predicate IsActiveAs(log: seq<Event>, id: string, t: IDPType, agg: Aggregate) {
    Load(log, t, agg.Instance?, agg.ResourceOwner(), id).state.IDPStateActive?
  }

  lemma NewStateStep(t: IDPType, s: IDPState, c: Change)
    requires IsNewType(t)
    ensures StateStep(t, s, c).IDPStateActive? <==>
            AddedType(c) == Some(t) || MigratedType(c) == Some(t) || (s.IDPStateActive? && !c.Removed?)
  {
  }

  lemma NewModelSnoc(init: seq<Event>, e: Event, id: string, t: IDPType, agg: Aggregate)
    requires IsNewType(t) && Belongs(e, id, agg)
    ensures IsActiveAs(init + [e], id, t, agg) <==>
            Names(e, id, t) || (IsActiveAs(init, id, t, agg) && (e.id == id ==> !e.change.Removed?))
  {
    LoadStateSnoc(init, e, t, agg.Instance?, agg.ResourceOwner(), id);
    NewStateStep(t, Load(init, t, agg.Instance?, agg.ResourceOwner(), id).state, e.change);
  }

  /** The model of a type without old events is active exactly if the type was given and no new event has removed it since. */
  lemma {:induction false} ModelIffNamedAndKept(log: seq<Event>, id: string, t: IDPType, agg: Aggregate)
    requires InOneAggregate(log, id, agg) && IsNewType(t)
    ensures IsActiveAs(log, id, t, agg) <==> NamedAndKept(log, id, t)
  {
    if log != [] {
      var init, e := log[..|log| - 1], log[|log| - 1];
      assert log == init + [e];
      OneAggregateSnoc(init, e, id, agg);
      ModelIffNamedAndKept(init, id, t, agg);
      NewModelSnoc(init, e, id, t, agg);
      NamedAndKeptSnoc(init, e, id, t);
    }
  }

  /** Nothing removes the old configuration, adds another provider or migrates to another type. */
  predicate Undisturbed(es: seq<Event>, id: string) {
    forall e <- es :: e.id == id ==> AddedType(e.change).None? && MigratedType(e.change).None? && !e.change.ConfigRemoved?
  }

  /**
  When the model of one of these eight types is active, the type model is active with that type
  exactly if, since the last event that gave the type, nothing has removed the old configuration,
  added another provider or migrated elsewhere, and that event was no migration of a provider
  already removed.
  */
  lemma DispatchConverse(log: seq<Event>, id: string, t: IDPType, agg: Aggregate)
    requires InOneAggregate(log, id, agg) && IsNewType(t)
    requires IsActiveAs(log, id, t, agg)
    ensures LastNaming(log, id, t).Some?
    ensures var k := LastNaming(log, id, t).value;
            HasType(log, id, t) <==> Undisturbed(log[k + 1..], id) && Grounded(log, id, k)
  {
    ModelIffNamedAndKept(log, id, t, agg);
    TypeIffNamedLast(log, id, t, agg);
  }

  lemma OIDCStepIsRemovable(s: IDPState, r: IDPState, c: Change)
    requires s.IDPStateActive? ==> r.IDPStateActive?
    ensures StateStep(IDPTypeOIDC, s, c).IDPStateActive? ==> RemoveStep(r, c).IDPStateActive?
  {
  }

  /** An OIDC model that is active can be removed. */
  lemma {:induction false} OIDCActiveIsRemovable(log: seq<Event>, id: string, instance: bool, resourceOwner: string)
    ensures Load(log, IDPTypeOIDC, instance, resourceOwner, id).state.IDPStateActive?
            ==> LoadRemove(log, instance, resourceOwner, id).IDPStateActive?
  {
    if log != [] {
      var init, e := log[..|log| - 1], log[|log| - 1];
      OIDCActiveIsRemovable(init, id, instance, resourceOwner);
      assert log == init + [e];
      LoadStateSnoc(init, e, IDPTypeOIDC, instance, resourceOwner, id);
      LoadRemoveSnoc(init, e, instance, resourceOwner, id);
      OIDCStepIsRemovable(Load(init, IDPTypeOIDC, instance, resourceOwner, id).state,
                          LoadRemove(init, instance, resourceOwner, id), e.change);
    }
  }

  /** A migration while the type model is inactive opens the model of the target and leaves the type model inactive. */
  lemma UngroundedMigration(log: seq<Event>, e: Event, id: string, t: IDPType, agg: Aggregate)
    requires !LoadType(log, id).state.IDPStateActive? && e.id == id && Belongs(e, id, agg)
    requires IsNewType(t) && MigratedType(e.change) == Some(t)
    ensures IsActiveAs(log + [e], id, t, agg) && !HasType(log + [e], id, t)
    ensures LastNaming(log + [e], id, t) == Some(|log|)
  {
    HasTypeSnoc(log, e, id, t);
    NewModelSnoc(log, e, id, t, agg);
    LastNamingSnoc(log, e, id, t);
    MigrationsAreNoAdditions(e.change);
  }

  lemma MigrationsAreNoAdditions(c: Change)
    requires MigratedType(c).Some?
    ensures AddedType(c).None?
  {
  }

  /** Every migration in the log found the OIDC model active, as its command demands, and the old configurations are known. */
  predicate MigratesActive(log: seq<Event>, id: string, agg: Aggregate) {
    forall k :: 0 <= k < |log| && log[k].id == id ==>
      && !IsUnknownConfig(log[k].change)
      && (MigratedType(log[k].change).Some? ==>
            Load(log[..k], IDPTypeOIDC, agg.Instance?, agg.ResourceOwner(), id).state.IDPStateActive?)
  }

  lemma MigrationIsGrounded(log: seq<Event>, id: string, agg: Aggregate, k: nat)
    requires InOneAggregate(log, id, agg) && MigratesActive(log, id, agg)
    requires k < |log| && log[k].id == id && MigratedType(log[k].change).Some?
    ensures AddsKnown(SinceRemoval(log[..k], id))
  {
    var before := log[..k];
    assert forall d <- before :: d in log;
    OIDCActiveIsRemovable(before, id, agg.Instance?, agg.ResourceOwner());
    StatesSinceRemoval(before, id, agg);
    SinceOfID(before, id);
    forall e | e in SinceRemoval(before, id)
      ensures !IsUnknownConfig(e.change)
    {
      assert e in before;
      var i :| 0 <= i < |before| && before[i] == e;
      assert log[i] == e;
    }
  }

  /** On such logs only what follows the last event that gave the type decides. */
  lemma DispatchConverseOfCommands(log: seq<Event>, id: string, t: IDPType, agg: Aggregate)
    requires InOneAggregate(log, id, agg) && IsNewType(t) && MigratesActive(log, id, agg)
    requires IsActiveAs(log, id, t, agg)
    ensures LastNaming(log, id, t).Some?
    ensures HasType(log, id, t) <==> Undisturbed(log[LastNaming(log, id, t).value + 1..], id)
  {
    DispatchConverse(log, id, t, agg);
    var k := LastNaming(log, id, t).value;
    if AddedType(log[k].change).None? {
      MigrationIsGrounded(log, id, agg, k);
    }
  }

  /** Removing the old configuration leaves the model of a migrated provider active and the type model without it. */
  lemma ConfigRemovalDisturbs(log: seq<Event>, e: Event, id: string, t: IDPType, agg: Aggregate)
    requires IsNewType(t) && e.id == id && e.aggregate == agg && e.change.ConfigRemoved?
    requires IsActiveAs(log, id, t, agg)
    ensures IsActiveAs(log + [e], id, t, agg)
    ensures LoadType(log + [e], id).state.IDPStateRemoved?
  {
    LoadTypeSnoc(log, e, id);
    StateOfStep(LoadType(log, id), IDPStateActive, e);
    NewModelSnoc(log, e, id, t, agg);
  }

  /** The two types of the old events: their models take a configuration of any type for one of their own. */
  predicate OpensOld(c: Change, t: IDPType) {
    c.ConfigAdded? || (c.Added? && c.t == t)
  }

  /** In the events since the last removal the model was opened, and for OIDC not migrated after that. */
  predicate OpenOld(es: seq<Event>, t: IDPType) {
    es != [] &&
    var e := es[|es| - 1].change;
    OpensOld(e, t) || (OpenOld(es[..|es| - 1], t) && !(t.IDPTypeOIDC? && MigratedType(e).Some?))
  }

  lemma OpenOldSnoc(es: seq<Event>, e: Event, t: IDPType)
    ensures OpenOld(es + [e], t) <==> OpensOld(e.change, t) || (OpenOld(es, t) && !(t.IDPTypeOIDC? && MigratedType(e.change).Some?))
  {
    assert (es + [e])[..|es|] == es;
  }

  lemma OldStateStep(t: IDPType, s: IDPState, c: Change)
    requires t.IDPTypeOIDC? || t.IDPTypeJWT?
    ensures StateStep(t, s, c).IDPStateActive? <==>
            OpensOld(c, t) || (s.IDPStateActive? && !IsRemoval(c) && !(t.IDPTypeOIDC? && MigratedType(c).Some?))
  {
  }

  lemma OldModelSnoc(init: seq<Event>, e: Event, id: string, t: IDPType, agg: Aggregate)
    requires (t.IDPTypeOIDC? || t.IDPTypeJWT?) && Belongs(e, id, agg)
    requires IsActiveAs(init, id, t, agg) <==> OpenOld(SinceRemoval(init, id), t)
    ensures IsActiveAs(init + [e], id, t, agg) <==> OpenOld(SinceRemoval(init + [e], id), t)
  {
    LoadStateSnoc(init, e, t, agg.Instance?, agg.ResourceOwner(), id);
    OldStateStep(t, Load(init, t, agg.Instance?, agg.ResourceOwner(), id).state, e.change);
    SinceRemovalSnoc(init, e, id);
    OpenOldSnoc(SinceRemoval(init, id), e, t);
  }

  lemma {:induction false} OldModelIffOpen(log: seq<Event>, id: string, t: IDPType, agg: Aggregate)
    requires InOneAggregate(log, id, agg) && (t.IDPTypeOIDC? || t.IDPTypeJWT?)
    ensures IsActiveAs(log, id, t, agg) <==> OpenOld(SinceRemoval(log, id), t)
  {
    if log != [] {
      var init, e := log[..|log| - 1], log[|log| - 1];
      assert log == init + [e];
      OneAggregateSnoc(init, e, id, agg);
      OldModelIffOpen(init, id, t, agg);
      OldModelSnoc(init, e, id, t, agg);
    }
  }

  /** The last type given since the last removal. */
  function LastGiven(es: seq<Event>): Option<IDPType> {
    if es == [] then None
    else
      var e := es[|es| - 1].change;
      if AddedType(e).Some? then AddedType(e) else if MigratedType(e).Some? then MigratedType(e) else LastGiven(es[..|es| - 1])
  }

  lemma LastGivenSnoc(es: seq<Event>, e: Event)
    ensures LastGiven(es + [e]) ==
            if AddedType(e.change).Some? then AddedType(e.change)
            else if MigratedType(e.change).Some? then MigratedType(e.change) else LastGiven(es)
  {
    assert (es + [e])[..|es|] == es;
  }

  function TypeGiven(es: seq<Event>): IDPType {
    if LastGiven(es).Some? then LastGiven(es).value else IDPTypeUnspecified
  }

  lemma TypeOfStep(v: TypeView, e: Event)
    ensures TypeStep(v, e).t ==
            if AddedType(e.change).Some? then AddedType(e.change).value
            else if MigratedType(e.change).Some? then MigratedType(e.change).value
            else if IsRemoval(e.change) then IDPTypeUnspecified else v.t
    ensures IsRemoval(e.change) ==> AddedType(e.change).None? && MigratedType(e.change).None?
  {
  }

  lemma TypeGivenSnoc(init: seq<Event>, e: Event, id: string)
    requires LoadType(init, id).t == TypeGiven(SinceRemoval(init, id))
    ensures LoadType(init + [e], id).t == TypeGiven(SinceRemoval(init + [e], id))
  {
    LoadTypeSnoc(init, e, id);
    TypeOfStep(LoadType(init, id), e);
    SinceRemovalSnoc(init, e, id);
    LastGivenSnoc(SinceRemoval(init, id), e);
  }

  /** The type model holds the last type given since the last removal, on every log. */
  lemma {:induction false} TypeIsLastGiven(log: seq<Event>, id: string)
    ensures LoadType(log, id).t == TypeGiven(SinceRemoval(log, id))
  {
    if log != [] {
      var init, e := log[..|log| - 1], log[|log| - 1];
      assert log == init + [e];
      TypeIsLastGiven(init, id);
      TypeGivenSnoc(init, e, id);
    }
  }

  lemma {:induction false} GivenOldIsAdded(es: seq<Event>, t: IDPType)
    requires LastGiven(es) == Some(t) && (t.IDPTypeOIDC? || t.IDPTypeJWT?)
    ensures AddsKnown(es)
  {
    var init, e := es[..|es| - 1], es[|es| - 1];
    assert es == init + [e];
    LastGivenSnoc(init, e);
    AddsSnoc(init, e);
    if AddedType(e.change).None? {
      GivenOldIsAdded(init, t);
    }
  }

  /** When the OIDC or the JWT model is active, the type model is active with that type exactly if it is the last one given since the last removal. */
  lemma DispatchConverseOld(log: seq<Event>, id: string, t: IDPType, agg: Aggregate)
    requires InOneAggregate(log, id, agg) && (t.IDPTypeOIDC? || t.IDPTypeJWT?)
    requires IsActiveAs(log, id, t, agg)
    ensures HasType(log, id, t) <==> LastGiven(SinceRemoval(log, id)) == Some(t)
  {
    TypeIsLastGiven(log, id);
    ActiveIffAdded(log, id, agg);
    if LastGiven(SinceRemoval(log, id)) == Some(t) {
      GivenOldIsAdded(SinceRemoval(log, id), t);
    }
  }

  /** A first OIDC or JWT configuration gives the provider that type, and makes the model of the other one active as well. */
  lemma ConfigOpensBoth(e: Event, t: IDPType, other: IDPType)
    requires e.aggregate.WellFormed() && e.change.ConfigAdded?
    requires if e.change.typ.ConfigOIDC? then t.IDPTypeOIDC? && other.IDPTypeJWT?
             else e.change.typ.ConfigJWT? && t.IDPTypeJWT? && other.IDPTypeOIDC?
    ensures HasType([e], e.id, t)
    ensures IsActiveAs([e], e.id, t, e.aggregate) && IsActiveAs([e], e.id, other, e.aggregate)
  {
    assert [] + [e] == [e];
    LoadTypeSnoc([], e, e.id);
    LoadStateSnoc([], e, t, e.aggregate.Instance?, e.aggregate.ResourceOwner(), e.id);
    LoadStateSnoc([], e, other, e.aggregate.Instance?, e.aggregate.ResourceOwner(), e.id);
  }

  // ---------------------------------------------------------------- the settings of an active provider

  /** The event sets all settings of the model of the type. */
  predicate Sets(e: Event, id: string, t: IDPType) {
    e.id == id && ((e.change.Added? && e.change.t == t) || MigratedType(e.change) == Some(t))
  }

  /** Changes of a provider, later ones over earlier ones. */
  function Edited(s: Settings, es: seq<Event>, t: IDPType, id: string): Settings {
    if es == [] then s
    else
      var before, e := Edited(s, es[..|es| - 1], t, id), es[|es| - 1];
      if e.id == id && e.change.Changed? && e.change.t == t then ReduceSettings(before, e.change.change) else before
  }

  /** The provider was set at k, and what it is now follows from that event and the later changes alone. */
  predicate SetAt(log: seq<Event>, id: string, t: IDPType, agg: Aggregate, k: nat) {
    && k < |log| && Sets(log[k], id, t) && Settled(log[k + 1..], id)
    && Load(log, t, agg.Instance?, agg.ResourceOwner(), id)
       == View(Edited(log[k].change.settings, log[k + 1..], t, id), IDPStateActive)
  }

  lemma SetNow(init: seq<Event>, e: Event, id: string, t: IDPType, agg: Aggregate)
    requires e.aggregate == agg && Sets(e, id, t) && !t.IDPTypeOIDC?
    ensures SetAt(init + [e], id, t, agg, |init|)
  {
    var log := init + [e];
    LoadSnoc(init, e, t, agg.Instance?, agg.ResourceOwner(), id);
    assert log[|init|] == e && log[|init| + 1..] == [];
  }

  lemma StepOfSettled(t: IDPType, v: View, e: Event, id: string)
    requires Settled([e], id) && e.id == id && !t.IDPTypeOIDC? && !t.IDPTypeJWT?
    ensures Step(t, v, e.change)
            == if e.change.Changed? && e.change.t == t then View(ReduceSettings(v.settings, e.change.change), v.state) else v
  {
    assert e in [e];
  }

  lemma EditedSnoc(s: Settings, es: seq<Event>, e: Event, t: IDPType, id: string)
    ensures Edited(s, es + [e], t, id)
            == if e.id == id && e.change.Changed? && e.change.t == t
               then ReduceSettings(Edited(s, es, t, id), e.change.change) else Edited(s, es, t, id)
  {
    assert (es + [e])[..|es|] == es;
  }

  lemma SetBefore(init: seq<Event>, e: Event, id: string, t: IDPType, agg: Aggregate, k: nat)
    requires SetAt(init, id, t, agg, k) && Settled([e], id) && (e.id == id ==> e.aggregate == agg)
    requires !t.IDPTypeOIDC? && !t.IDPTypeJWT?
    ensures SetAt(init + [e], id, t, agg, k)
  {
    var log, before := init + [e], Load(init, t, agg.Instance?, agg.ResourceOwner(), id);
    LoadSnoc(init, e, t, agg.Instance?, agg.ResourceOwner(), id);
    assert log[k + 1..] == init[k + 1..] + [e] && log[k] == init[k];
    EditedSnoc(init[k].change.settings, init[k + 1..], e, t, id);
    SettledSnoc(init[k + 1..], e, id);
    if e.id == id {
      StepOfSettled(t, before, e, id);
    }
  }

  /**
  The settings of an active provider of the eight types without old configuration events, Google
  and AzureAD among them, depend on the last event that added or migrated it and on what follows.
  */
  lemma {:induction false} SettingsSinceSet(log: seq<Event>, id: string, agg: Aggregate)
    requires InOneAggregate(log, id, agg)
    requires LoadType(log, id).state.IDPStateActive?
    requires !LoadType(log, id).t.IDPTypeOIDC? && !LoadType(log, id).t.IDPTypeJWT?
    ensures exists k: nat :: SetAt(log, id, LoadType(log, id).t, agg, k)
  {
    if log != [] {
      var init, e, t := log[..|log| - 1], log[|log| - 1], LoadType(log, id).t;
      assert log == init + [e];
      OneAggregateSnoc(init, e, id, agg);
      LoadTypeSnoc(init, e, id);
      if Sets(e, id, t) {
        SetNow(init, e, id, t, agg);
      } else {
        SettingsSinceSet(init, id, agg);
        var k: nat :| SetAt(init, id, t, agg, k);
        SetBefore(init, e, id, t, agg, k);
      }
    }
  }

  // ---------------------------------------------------------------- loading and asking for existence

  /** Loading by id alone: the type first, then the model of that type. */
  function Provider(log: seq<Event>, id: string): Result<(IDPType, View), Error> {
    var v := LoadType(log, id);
    var instance := v.resourceOwner == v.instanceID;
    if Filter(log, TypeQuery(id)) == [] then Err(PreconditionFailed("COMMAND-as02jin"))
    else if v.t.IDPTypeUnspecified? then Err(Internal(if instance then "COMMAND-xw921211" else "COMMAND-xw921111"))
    else Ok((v.t, Load(log, v.t, instance, v.resourceOwner, id)))
  }

  function ExistsIn(log: seq<Event>, id: string, orgID: string, instanceID: string): bool {
    if Filter(log, RemoveQuery(false, orgID, id)) != [] then Exists(LoadRemove(log, false, orgID, id))
    else if Filter(log, RemoveQuery(true, instanceID, id)) == [] then false
    else Exists(LoadRemove(log, true, instanceID, id))
  }

  lemma {:induction false} NothingElsewhere(log: seq<Event>, id: string, agg: Aggregate, instance: bool, resourceOwner: string)
    requires InOneAggregate(log, id, agg)
    requires instance != agg.Instance? || resourceOwner != agg.ResourceOwner()
    ensures Filter(log, RemoveQuery(instance, resourceOwner, id)) == []
    ensures forall t :: Filter(log, ProviderQuery(t, instance, resourceOwner, id)) == []
  {
    if log != [] {
      assert forall d <- log[..|log| - 1] :: d in log;
      assert log[|log| - 1] in log;
      NothingElsewhere(log[..|log| - 1], id, agg, instance, resourceOwner);
    }
  }

  /** Whether the last addition or removal of the id in an aggregate is an addition, if there is one. */
  function LastSays(log: seq<Event>, instance: bool, resourceOwner: string, id: string): Option<bool> {
    if log == [] then None
    else
      var e := log[|log| - 1];
      if e.id != id || !OfAggregate(e, instance, resourceOwner) then LastSays(log[..|log| - 1], instance, resourceOwner, id)
      else if e.change.Added? || e.change.ConfigAdded? then Some(true)
      else if e.change.Removed? || e.change.ConfigRemoved? then Some(false)
      else LastSays(log[..|log| - 1], instance, resourceOwner, id)
  }

  lemma {:induction false} RemovalSaysLast(log: seq<Event>, instance: bool, resourceOwner: string, id: string)
    ensures Filter(log, RemoveQuery(instance, resourceOwner, id)) == [] <==> LastSays(log, instance, resourceOwner, id).None?
    ensures Exists(LoadRemove(log, instance, resourceOwner, id)) <==> LastSays(log, instance, resourceOwner, id) == Some(true)
  {
    if log != [] {
      var init, e := log[..|log| - 1], log[|log| - 1];
      assert log == init + [e];
      RemovalSaysLast(init, instance, resourceOwner, id);
      LoadRemoveSnoc(init, e, instance, resourceOwner, id);
    }
  }

  /**
  On every log, whatever aggregates its events are in, the last addition or removal in the
  organization decides whether the id exists, and that in the instance if there is none.
  */
  lemma ExistsIfLastAdded(log: seq<Event>, id: string, orgID: string, instanceID: string)
    ensures ExistsIn(log, id, orgID, instanceID) <==>
            if LastSays(log, false, orgID, id).Some? then LastSays(log, false, orgID, id) == Some(true)
            else LastSays(log, true, instanceID, id) == Some(true)
  {
    RemovalSaysLast(log, false, orgID, id);
    RemovalSaysLast(log, true, instanceID, id);
  }

  /** The type model is asked about the event. */
  predicate IsOfType(c: Change) {
    AddedType(c).Some? || IsUnknownConfig(c) || MigratedType(c).Some? || IsRemoval(c)
  }

  lemma {:induction false} NothingOfType(log: seq<Event>, id: string)
    ensures Filter(log, TypeQuery(id)) == [] <==> forall e <- log :: e.id == id ==> !IsOfType(e.change)
  {
    if log != [] {
      var init, last := log[..|log| - 1], log[|log| - 1];
      NothingOfType(init, id);
      assert forall e :: e in log <==> e in init || e == last;
    }
  }

  lemma {:induction false} LastGivenIsType(es: seq<Event>)
    requires forall e <- es :: e.change.Added? ==> !e.change.t.IDPTypeUnspecified?
    ensures LastGiven(es) != Some(IDPTypeUnspecified)
  {
    if es != [] {
      assert forall e <- es[..|es| - 1] :: e in es;
      LastGivenIsType(es[..|es| - 1]);
    }
  }

  /**
  What loading by id gives: an error if nothing added, migrated or removed it, another if it was
  given no type since its last removal, and else the model of the last type it was given, which is
  looked up in its aggregate if the id was added since, and nowhere if it was only migrated.
  */
  lemma LoadOutcome(log: seq<Event>, id: string, agg: Aggregate)
    requires InOneAggregate(log, id, agg)
    ensures var since := SinceRemoval(log, id);
            Provider(log, id) ==
            if forall e <- log :: e.id == id ==> !IsOfType(e.change) then Err(PreconditionFailed("COMMAND-as02jin"))
            else if LastGiven(since).None? then Err(Internal("COMMAND-xw921211"))
            else Ok((LastGiven(since).value,
                     if AddsKnown(since) then Load(log, LastGiven(since).value, agg.Instance?, agg.ResourceOwner(), id) else EMPTY))
  {
    var v, since := LoadType(log, id), SinceRemoval(log, id);
    NothingOfType(log, id);
    TypeIsLastGiven(log, id);
    StatesSinceRemoval(log, id, agg);
    DispatchAgrees(log, id, agg);
    SinceOfID(log, id);
    LastGivenIsType(since);
    if AddsKnown(since) {
      assert v.state.IDPStateActive?;
      assert (v.resourceOwner == v.instanceID) == agg.Instance?;
    } else {
      assert !v.state.IDPStateActive?;
      NothingElsewhere(log, id, agg, true, "");
    }
  }

  /**
  For an id of the asking organization or instance, loading it gives an active provider exactly
  if it exists and not only configurations of unknown type have been added since its removal.
  */
  lemma LoadableIffExists(log: seq<Event>, id: string, agg: Aggregate, orgID: string)
    requires InOneAggregate(log, id, agg) && (agg.Org? ==> agg.orgID == orgID)
    ensures var p := Provider(log, id);
            p.Ok? && p.value.1.state.IDPStateActive? <==> ExistsIn(log, id, orgID, agg.instanceID) && !OnlyUnknown(log, id)
  {
    var v := LoadType(log, id);
    StatesSinceRemoval(log, id, agg);
    DispatchAgrees(log, id, agg);
    if agg.Instance? {
      NothingElsewhere(log, id, agg, false, orgID);
    } else {
      NothingElsewhere(log, id, agg, true, agg.instanceID);
    }
    if !v.state.IDPStateActive? {
      NothingElsewhere(log, id, agg, v.resourceOwner == v.instanceID, "");
    } else {
      assert (v.resourceOwner == v.instanceID) == agg.Instance?;
    }
  }

  lemma {:induction false} FilterIDs(log: seq<Event>, q: Query)
    ensures forall e <- Filter(log, q) :: e.id == q.id
  {
    if log != [] {
      FilterIDs(log[..|log| - 1], q);
    }
  }
}
