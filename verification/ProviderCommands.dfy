/** Loading a provider by id, asking for its existence, and migrating a generic OIDC provider. */
module ProviderCommands {
  import opened Strings
  import opened Wrappers
  import opened IdentityProviders
  import opened ProviderDispatch

  datatype Target = ToAzureAD | ToGoogle

  function Migration(target: Target, settings: Settings): Change {
    if target.ToAzureAD? then MigratedAzureAD(settings) else MigratedGoogle(settings)
  }

  /** There is no inactive state in these folds, so existing is being active. */
  lemma ExistsIsActive(log: seq<Event>, instanceID: string, id: string)
    ensures var s := Load(log, IDPTypeOIDC, true, instanceID, id).state;
            Exists(s) <==> s.IDPStateActive?
  {
  }

  function TypeOf(target: Target): IDPType {
    if target.ToAzureAD? then IDPTypeAzureAD else IDPTypeGoogle
  }

  /** What the type model makes of a migration: the target where the provider was, or nowhere if the type model was inactive. */
  lemma TypeAfterMigration(log: seq<Event>, e: Event, id: string, agg: Aggregate, target: Target, settings: Settings)
    requires InOneAggregate(log, id, agg) && e == Event(agg, id, Migration(target, settings))
    ensures var v, w := LoadType(log, id), LoadType(log + [e], id);
            && w.t == TypeOf(target)
            && (if v.state.IDPStateActive? then w.resourceOwner == agg.ResourceOwner() && w.instanceID == agg.instanceID
                else w.resourceOwner == "" && w.instanceID == "")
    ensures Filter(log + [e], TypeQuery(id)) != []
  {
    DispatchAgrees(log, id, agg);
    LoadTypeSnoc(log, e, id);
    FilterSnoc(log, e, TypeQuery(id));
  }

  lemma MigratedModel(log: seq<Event>, e: Event, id: string, agg: Aggregate, target: Target, settings: Settings)
    requires InOneAggregate(log, id, agg) && e == Event(agg, id, Migration(target, settings))
    ensures Load(log + [e], TypeOf(target), agg.Instance?, agg.ResourceOwner(), id) == View(settings, IDPStateActive)
    ensures Load(log + [e], TypeOf(target), true, "", id) == EMPTY
  {
    LoadSnoc(log, e, TypeOf(target), agg.Instance?, agg.ResourceOwner(), id);
    LoadSnoc(log, e, TypeOf(target), true, "", id);
    NothingElsewhere(log, id, agg, true, "");
  }

  /**
  Loading a provider right after its migration gives the target type with the migrated settings
  and nothing of before, unless only configurations of unknown type had been added since its last
  removal; then it gives an empty model of the target.
  */
  lemma MigratedLoads(log: seq<Event>, id: string, agg: Aggregate, target: Target, settings: Settings)
    requires InOneAggregate(log, id, agg)
    requires Load(log, IDPTypeOIDC, agg.Instance?, agg.ResourceOwner(), id).state.IDPStateActive?
    ensures Provider(log + [Event(agg, id, Migration(target, settings))], id)
            == Ok((TypeOf(target), if OnlyUnknown(log, id) then EMPTY else View(settings, IDPStateActive)))
  {
    var e := Event(agg, id, Migration(target, settings));
    OIDCActiveIsRemovable(log, id, agg.Instance?, agg.ResourceOwner());
    StatesSinceRemoval(log, id, agg);
    TypeAfterMigration(log, e, id, agg, target, settings);
    MigratedModel(log, e, id, agg, target, settings);
    assert (agg.ResourceOwner() == agg.instanceID) == agg.Instance?;
  }

  class Commands {
    var log: seq<Event>

    constructor ()
      ensures log == []
    {
      log := [];
    }

    /** One model of the ten, none for the unspecified type. */
    method NewAllIDPWriteModel(resourceOwner: string, instance: bool, id: string, t: IDPType)
      returns (r: Result<ProviderWriteModel, Error>)
      ensures r.Err? <==> t.IDPTypeUnspecified?
      ensures r.Err? ==> r.error == Internal(if instance then "COMMAND-xw921211" else "COMMAND-xw921111")
      ensures r.Ok? ==> fresh(r.value) && r.value.events == [] && View(r.value.settings, r.value.state) == EMPTY
                        && r.value.t == t && r.value.instance == instance
                        && r.value.resourceOwner == resourceOwner && r.value.id == id
    {
      if instance {
        if t.IDPTypeUnspecified? {
          return Err(Internal("COMMAND-xw921211"));
        }
        var wm := new ProviderWriteModel(t, true, resourceOwner, id);
        return Ok(wm);
      } else {
        if t.IDPTypeUnspecified? {
          return Err(Internal("COMMAND-xw921111"));
        }
        var wm := new ProviderWriteModel(t, false, resourceOwner, id);
        return Ok(wm);
      }
    }

    method LoadProvider(wm: ProviderWriteModel)
      requires wm.events == [] && View(wm.settings, wm.state) == EMPTY
      modifies wm
      ensures View(wm.settings, wm.state) == Load(log, wm.t, wm.instance, wm.resourceOwner, wm.id)
    {
      var q := ProviderQuery(wm.t, wm.instance, wm.resourceOwner, wm.id);
      FilterIDs(log, q);
      wm.AppendEvents(Filter(log, q));
      assert wm.events == Filter(log, q);
      wm.Reduce();
    }

    method IDPProviderWriteModel(id: string) returns (r: Result<ProviderWriteModel, Error>)
      ensures r.Err? ==> Provider(log, id) == Err(r.error)
      ensures r.Ok? ==> fresh(r.value) && Provider(log, id) == Ok((r.value.t, View(r.value.settings, r.value.state)))
    {
      var wm := new IDPTypeWriteModel(id);
      var events := Filter(log, TypeQuery(id));
      if |events| == 0 {
        return Err(PreconditionFailed("COMMAND-as02jin"));
      }
      wm.AppendEvents(events);
      assert wm.events == events;
      wm.Reduce();
      r := NewAllIDPWriteModel(wm.resourceOwner, wm.resourceOwner == wm.instanceID, wm.id, wm.t);
      if r.Ok? {
        LoadProvider(r.value);
      }
    }

    /** Migrating a provider of the instance; the encryption of the secret is a parameter. */
    method MigrateInstanceGenericOIDC(instanceID: string, id: string, target: Target, provider: Settings,
                                      encrypt: string -> string)
      returns (r: Result<(), Error>)
      modifies `log
      ensures var azure := target.ToAzureAD?;
              r == if azure && TrimSpace(provider.name) == "" then Err(InvalidArgument("INST-sdf3g"))
                   else if TrimSpace(provider.clientID) == "" then Err(InvalidArgument(if azure then "INST-Fhbr2" else "INST-D3fvs"))
                   else if TrimSpace(provider.clientSecret) == "" then Err(InvalidArgument(if azure then "INST-Dzh3g" else "INST-W2vqs"))
                   else if !Load(old(log), IDPTypeOIDC, true, instanceID, id).state.IDPStateActive?
                   then Err(NotFound(if azure then "INST-Dg29201" else "INST-Dg29202"))
                   else Ok(())
      ensures r.Err? ==> log == old(log)
      ensures var azure := target.ToAzureAD?;
              var settings := provider.(name := if azure then TrimSpace(provider.name) else provider.name,
                                        clientID := TrimSpace(provider.clientID),
                                        clientSecret := encrypt(TrimSpace(provider.clientSecret)));
              r.Ok? ==>
                && log == old(log) + [Event(Instance(instanceID), id, if azure then MigratedAzureAD(settings) else MigratedGoogle(settings))]
                && (InOneAggregate(old(log), id, Instance(instanceID)) ==>
                      Provider(log, id) == Ok((if azure then IDPTypeAzureAD else IDPTypeGoogle,
                                               if OnlyUnknown(old(log), id) then EMPTY else View(settings, IDPStateActive))))
    {
      var p := provider;
      if target.ToAzureAD? {
        p := p.(name := TrimSpace(p.name));
        if p.name == "" {
          return Err(InvalidArgument("INST-sdf3g"));
        }
      }
      p := p.(clientID := TrimSpace(p.clientID));
      if p.clientID == "" {
        return Err(InvalidArgument(if target.ToAzureAD? then "INST-Fhbr2" else "INST-D3fvs"));
      }
      p := p.(clientSecret := TrimSpace(p.clientSecret));
      if p.clientSecret == "" {
        return Err(InvalidArgument(if target.ToAzureAD? then "INST-Dzh3g" else "INST-W2vqs"));
      }
      var wm := new ProviderWriteModel(IDPTypeOIDC, true, instanceID, id);
      LoadProvider(wm);
      ExistsIsActive(log, instanceID, id);
      if !Exists(wm.state) {
        return Err(NotFound(if target.ToAzureAD? then "INST-Dg29201" else "INST-Dg29202"));
      }
      var settings := p.(clientSecret := encrypt(p.clientSecret));
      if InOneAggregate(log, id, Instance(instanceID)) {
        MigratedLoads(log, id, Instance(instanceID), target, settings);
      }
      log := log + [Event(Instance(instanceID), id, Migration(target, settings))];
      return Ok(());
    }

    method ExistsIDP(id: string, orgID: string, instanceID: string) returns (exists_: bool)
      ensures exists_ == ExistsIn(log, id, orgID, instanceID)
    {
      var wm := new IDPRemoveWriteModel(false, orgID, id);
      var events := Filter(log, RemoveQuery(false, orgID, id));
      if |events| > 0 {
        wm.AppendEvents(events);
        assert wm.events == events;
        wm.Reduce();
        return Exists(wm.state);
      }
      var instanceModel := new IDPRemoveWriteModel(true, instanceID, id);
      events := Filter(log, RemoveQuery(true, instanceID, id));
      if |events| == 0 {
        return false;
      }
      instanceModel.AppendEvents(events);
      assert instanceModel.events == events;
      instanceModel.Reduce();
      return Exists(instanceModel.state);
    }
  }
}
