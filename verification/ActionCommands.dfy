/** The action commands over one log, and the quota that deactivates the newest actions. */
module ActionCommands {
  import opened Wrappers
  import opened Slices
  import opened Actions

  class ActionWriteModel {
    var events: seq<Event>
    var body: Body
    var state: State

    constructor ()
      ensures events == [] && Fields() == EMPTY
    {
      events, body, state := [], Body("", "", 0, false), Unspecified;
    }

    function Fields(): View
      reads this
    {
      View(body, state)
    }

    method AppendAndReduce(more: seq<Event>)
      modifies this
      requires events == []
      ensures Fields() == Reduced(old(Fields()), more) && events == []
    {
      events := events + more;
      assert events == more;
      for i := 0 to |events|
        invariant events == more
        invariant Fields() == Reduced(old(Fields()), events[..i])
      {
        assert events[..i + 1][..i] == events[..i];
        match events[i].change
        case Added(b) => body, state := b, Active;
        case Changed(name, script, timeout, allowed) =>
          if name.Some? { body := body.(name := name.value); }
          if script.Some? { body := body.(script := script.value); }
          if timeout.Some? { body := body.(timeout := timeout.value); }
          if allowed.Some? { body := body.(allowedToFail := allowed.value); }
        case Deactivated => state := Inactive;
        case Reactivated => state := Active;
        case ActionRemoved => state := Removed;
      }
      assert events[..|events|] == events;
      events := [];
    }
  }

  class ActionExistsModel {
    var checkedIDs: seq<string>

    constructor ()
      ensures checkedIDs == []
    {
      checkedIDs := [];
    }

    method Reduce(events: seq<Event>)
      modifies this
      ensures checkedIDs == ReducedChecked(old(checkedIDs), events)
    {
      for n := 0 to |events|
        invariant checkedIDs == ReducedChecked(old(checkedIDs), events[..n])
      {
        assert events[..n + 1][..n] == events[..n];
        if events[n].change.Added? {
          checkedIDs := checkedIDs + [events[n].id];
        } else if events[n].change.ActionRemoved? {
          RemoveLast(events[n].id);
        }
      }
      assert events[..|events|] == events;
    }

    method RemoveLast(id: string)
      modifies this
      ensures checkedIDs == SwapRemoveLast(old(checkedIDs), id)
    {
      var i := |checkedIDs|;
      while i > 0 && checkedIDs[i - 1] != id
        invariant 0 <= i <= |checkedIDs| && checkedIDs == old(checkedIDs)
        invariant forall j :: i <= j < |checkedIDs| ==> checkedIDs[j] != id
      {
        i := i - 1;
      }
      if i > 0 {
        checkedIDs := checkedIDs[i - 1 := checkedIDs[|checkedIDs| - 1]];
        checkedIDs := checkedIDs[|checkedIDs| - 1 := ""];
        checkedIDs := checkedIDs[..|checkedIDs| - 1];
        assert checkedIDs == SwapRemoveAt(old(checkedIDs), i - 1);
      }
    }
  }

  class ActionsListByOrgModel {
    var actions: map<string, Listed>

    constructor ()
      ensures actions == map[]
    {
      actions := map[];
    }

    /** Folds events whose edits all meet an entry; otherwise the source stops on a nil pointer. */
    method Reduce(events: seq<Event>)
      requires ReducedList(Some(actions), events).Some?
      modifies this
      ensures Some(actions) == ReducedList(Some(old(actions)), events)
    {
      for i := 0 to |events|
        invariant Some(actions) == ReducedList(Some(old(actions)), events[..i])
      {
        assert events[..i + 1][..i] == events[..i];
        PrefixIsSafe(old(actions), events, i + 1);
        var e := events[i];
        match e.change
        case Added(body) => actions := actions[e.id := Listed(e.created, body.name, Active)];
        case Changed(_, _, _, _) =>
        case Deactivated => actions := actions[e.id := actions[e.id].(state := Inactive)];
        case Reactivated => actions := actions[e.id := actions[e.id].(state := Active)];
        case ActionRemoved => actions := actions - {e.id};
      }
      assert events[..|events|] == events;
    }
  }

  lemma {:induction false} PrefixIsSafe(m: map<string, Listed>, events: seq<Event>, n: nat)
    requires n <= |events| && ReducedList(Some(m), events).Some?
    ensures ReducedList(Some(m), events[..n]).Some?
    decreases |events|
  {
    if n == |events| {
      assert events[..n] == events;
    } else {
      var init := events[..|events| - 1];
      PrefixIsSafe(m, init, n);
      assert init[..n] == events[..n];
    }
  }

  // ---------------------------------------------------------------- the quota

  function ActiveIDs(m: map<string, Listed>): set<string> {
    set id | id in m && m[id].state.Active?
  }

  /** Deactivated events for the given actions, in order. */
  function Deactivations(owner: string, ids: seq<string>, now: Time): seq<Event> {
    if ids == [] then [] else Deactivations(owner, ids[..|ids| - 1], now) + [Event(owner, ids[|ids| - 1], now, Deactivated)]
  }

  /** The surplus over the quota, the newest actions of the list. */
  ghost predicate IsSurplus(m: map<string, Listed>, maxAllowed: nat, dropped: seq<string>) {
    && NoDuplicates(dropped)
    && Elements(dropped) <= ActiveIDs(m)
    && |dropped| == (if |ActiveIDs(m)| <= maxAllowed then 0 else |ActiveIDs(m)| - maxAllowed)
    && forall kept, d :: kept in ActiveIDs(m) && kept !in dropped && d in ActiveIDs(m) && d in dropped ==> m[kept].changeDate <= m[d].changeDate
  }

  predicate SortedByDate(ids: seq<string>, m: map<string, Listed>) {
    forall i, j :: 0 <= i < j < |ids| && ids[i] in m && ids[j] in m ==> m[ids[i]].changeDate <= m[ids[j]].changeDate
  }

  /** Sorted insertion. */
  function Insert(ids: seq<string>, id: string, m: map<string, Listed>): (r: seq<string>)
    requires SortedByDate(ids, m) && id in m && forall x <- ids :: x in m
    ensures SortedByDate(r, m) && |r| == |ids| + 1
    ensures forall x :: x in r <==> x in ids || x == id
  {
    if ids == [] then [id]
    else
      var init, last := ids[..|ids| - 1], ids[|ids| - 1];
      assert ids == init + [last];
      if m[last].changeDate <= m[id].changeDate then ids + [id]
      else
        var r := Insert(init, id, m);
        assert forall x <- r :: m[x].changeDate <= m[last].changeDate;
        r + [last]
  }

  /** Stands in for sort.Slice, of which only the order of the result is used. */
  function Sorted(ids: seq<string>, m: map<string, Listed>): (r: seq<string>)
    requires forall x <- ids :: x in m
    ensures SortedByDate(r, m) && |r| == |ids|
    ensures forall x :: x in r <==> x in ids
  {
    if ids == [] then []
    else
      assert ids == ids[..|ids| - 1] + [ids[|ids| - 1]];
      Insert(Sorted(ids[..|ids| - 1], m), ids[|ids| - 1], m)
  }

  /** Collects the active actions in whatever order the map yields them. */
  method CollectActive(m: map<string, Listed>) returns (ids: seq<string>)
    ensures NoDuplicates(ids) && forall x :: x in ids <==> x in ActiveIDs(m)
  {
    ids := [];
    var rest := m.Keys;
    while rest != {}
      invariant rest <= m.Keys
      invariant NoDuplicates(ids) && forall x :: x in ids <==> x in ActiveIDs(m) && x !in rest
      decreases rest
    {
      var id :| id in rest;
      if m[id].state.Active? {
        ids := ids + [id];
      }
      rest := rest - {id};
    }
  }

  method SortedActive(m: map<string, Listed>) returns (ids: seq<string>)
    ensures SortedByDate(ids, m) && NoDuplicates(ids) && Elements(ids) == ActiveIDs(m)
  {
    var active := CollectActive(m);
    ids := Sorted(active, m);
    assert Elements(ids) == Elements(active) == ActiveIDs(m);
    ElementsSize(active);
    ElementsSize(ids);
  }

  method DeactivateNotAllowed(m: map<string, Listed>, maxAllowed: nat) returns (dropped: seq<string>)
    ensures IsSurplus(m, maxAllowed, dropped)
  {
    var active := SortedActive(m);
    ElementsSize(active);
    if |active| <= maxAllowed {
      assert Elements([]) == {};
      return [];
    }
    dropped := active[maxAllowed..];
    TailIsSurplus(m, maxAllowed, active);
  }

  lemma TailIsSurplus(m: map<string, Listed>, maxAllowed: nat, active: seq<string>)
    requires SortedByDate(active, m) && NoDuplicates(active) && Elements(active) == ActiveIDs(m)
    requires |active| == |ActiveIDs(m)| && maxAllowed < |active|
    ensures IsSurplus(m, maxAllowed, active[maxAllowed..])
  {
    var dropped := active[maxAllowed..];
    forall d | d in dropped
      ensures d in ActiveIDs(m)
    {
      assert d in Elements(active);
    }
    forall k | maxAllowed <= k < |active|
      ensures active[k] in dropped
    {
      assert active[k] == dropped[k - maxAllowed];
    }
    forall kept, d | kept in ActiveIDs(m) && kept !in dropped && d in ActiveIDs(m) && d in dropped
      ensures m[kept].changeDate <= m[d].changeDate
    {
      assert kept in Elements(active);
      var i :| 0 <= i < |active| && active[i] == kept;
      var j :| 0 <= j < |dropped| && dropped[j] == d;
      assert active[maxAllowed + j] == d;
    }
  }

  lemma DeactivationsSnoc(owner: string, ids: seq<string>, last: string, now: Time)
    ensures Deactivations(owner, ids + [last], now) == Deactivations(owner, ids, now) + [Event(owner, last, now, Deactivated)]
  {
    assert (ids + [last])[..|ids|] == ids;
  }

  /** What deactivating some actions of an organisation makes of any action. */
  predicate DeactivatedAt(log: seq<Event>, owner: string, ids: seq<string>, now: Time, o: string, id: string) {
    var log' := log + Deactivations(owner, ids, now);
    && IsActionLog(log')
    && Load(log', o, id) == if o == owner && id in ids then Load(log, o, id).(state := Inactive) else Load(log, o, id)
  }

  lemma DeactivateOne(log: seq<Event>, owner: string, last: string, now: Time, o: string, id: string)
    requires IsActionLog(log) && Load(log, owner, last).state.Active?
    ensures var log' := log + [Event(owner, last, now, Deactivated)];
            && IsActionLog(log')
            && Load(log', o, id) == if o == owner && id == last then Load(log, o, id).(state := Inactive) else Load(log, o, id)
  {
    ActionLogSnoc(log, Event(owner, last, now, Deactivated));
    LoadSnoc(log, Event(owner, last, now, Deactivated), o, id);
  }

  lemma DeactivateAnother(log: seq<Event>, owner: string, ids: seq<string>, last: string, now: Time, o: string, id: string)
    requires DeactivatedAt(log, owner, ids, now, o, id) && DeactivatedAt(log, owner, ids, now, owner, last)
    requires Load(log, owner, last).state.Active? && last !in ids
    ensures DeactivatedAt(log, owner, ids + [last], now, o, id)
  {
    var before := log + Deactivations(owner, ids, now);
    DeactivateOne(before, owner, last, now, o, id);
    DeactivationsSnoc(owner, ids, last, now);
    assert log + Deactivations(owner, ids + [last], now) == before + [Event(owner, last, now, Deactivated)];
  }

  /** Pushing the deactivations of active actions deactivates those and touches no other action. */
  lemma {:induction false} DeactivationsApply(log: seq<Event>, owner: string, ids: seq<string>, now: Time, o: string, id: string)
    requires IsActionLog(log) && NoDuplicates(ids)
    requires forall i :: 0 <= i < |ids| ==> Load(log, owner, ids[i]).state.Active?
    ensures DeactivatedAt(log, owner, ids, now, o, id)
  {
    if ids == [] {
      assert log + [] == log;
    } else {
      var init, last := ids[..|ids| - 1], ids[|ids| - 1];
      assert last !in init && ids == init + [last];
      DeactivationsApply(log, owner, init, now, o, id);
      DeactivationsApply(log, owner, init, now, owner, last);
      DeactivateAnother(log, owner, init, last, now, o, id);
    }
  }

  /**
  After the surplus is pushed, the list folded again has exactly min(active, maxAllowed) active
  actions, the ones that were active and not dropped; every other action is as it was; and the
  quota finds nothing more to do.
  */
  lemma QuotaHolds(log: seq<Event>, owner: string, maxAllowed: nat, dropped: seq<string>, now: Time)
    requires IsActionLog(log) && List(log, owner).Some? && IsSurplus(List(log, owner).value, maxAllowed, dropped)
    ensures var log' := log + Deactivations(owner, dropped, now);
            && IsActionLog(log')
            && List(log', owner).Some?
            && ActiveIDs(List(log', owner).value) == ActiveIDs(List(log, owner).value) - Elements(dropped)
            && |ActiveIDs(List(log', owner).value)| ==
                 (if |ActiveIDs(List(log, owner).value)| <= maxAllowed then |ActiveIDs(List(log, owner).value)| else maxAllowed)
            && (forall o, id :: !(o == owner && id in dropped) ==> Load(log', o, id) == Load(log, o, id))
            && (forall again :: IsSurplus(List(log', owner).value, maxAllowed, again) ==> again == [])
  {
    var log' := log + Deactivations(owner, dropped, now);
    var m := List(log, owner).value;
    forall i | 0 <= i < |dropped|
      ensures Load(log, owner, dropped[i]).state.Active?
    {
      ListIsExistingActions(log, owner, dropped[i]);
      assert dropped[i] in Elements(dropped);
    }
    DeactivationsApply(log, owner, dropped, now, owner, "");
    forall o, id
      ensures Load(log', o, id) == if o == owner && id in dropped then Load(log, o, id).(state := Inactive) else Load(log, o, id)
    {
      DeactivationsApply(log, owner, dropped, now, o, id);
    }
    ListIsExistingActions(log', owner, "");
    var m' := List(log', owner).value;
    forall id
      ensures id in ActiveIDs(m') <==> id in ActiveIDs(m) && id !in dropped
    {
      ListIsExistingActions(log, owner, id);
      ListIsExistingActions(log', owner, id);
    }
    assert ActiveIDs(m') == ActiveIDs(m) - Elements(dropped);
    ElementsSize(dropped);
  }

  /** An event of an organisation that takes an action from the triggers of a flow. */
  datatype CascadeRemoved = CascadeRemoved(owner: string, flowType: int, actionID: string)

  class Commands {
    var log: seq<Event>
    var cascades: seq<CascadeRemoved>
    var now: Time

    ghost predicate Valid()
      reads this
    {
      IsActionLog(log)
    }

    constructor (now: Time)
      ensures Valid() && log == [] && cascades == []
    {
      this.now := now;
      log, cascades := [], [];
    }

    /** Time passes between commands. */
    method Wait(duration: nat)
      requires Valid()
      modifies `now
      ensures Valid() && now == old(now) + duration
    {
      now := now + duration;
    }

    method LoadAction(owner: string, id: string) returns (wm: ActionWriteModel)
      ensures fresh(wm) && wm.events == [] && wm.Fields() == Load(log, owner, id)
    {
      wm := new ActionWriteModel();
      wm.AppendAndReduce(EventsOf(log, owner, id));
    }

    method Push(owner: string, id: string, change: Change)
      requires Valid() && Allowed(Load(log, owner, id).state, change)
      modifies `log
      ensures Valid() && log == old(log) + [Event(owner, id, now, change)]
      ensures Load(log, owner, id) == Step(Load(old(log), owner, id), Event(owner, id, now, change))
    {
      var e := Event(owner, id, now, change);
      AllowedPush(log, e);
      log := log + [e];
    }

    method AddActionWithID(owner: string, id: string, body: Body) returns (r: Result<(), Error>)
      requires Valid()
      modifies `log
      ensures Valid()
      ensures r == if !Load(old(log), owner, id).state.Unspecified? then Err(PreconditionFailed("COMMAND-nau2k"))
                   else if id == "" then Err(InvalidArgument("V2-Afdfe")) else Ok(())
      ensures log == if r.Ok? then old(log) + [Event(owner, id, now, Added(body))] else old(log)
      ensures r.Ok? ==> Load(log, owner, id) == View(body, Active)
    {
      var wm := LoadAction(owner, id);
      if !wm.state.Unspecified? {
        return Err(PreconditionFailed("COMMAND-nau2k"));
      }
      if id == "" {
        return Err(InvalidArgument("V2-Afdfe"));
      }
      Push(owner, id, Added(body));
      return Ok(());
    }

    /** The generated id names no action of any organisation yet. */
    method AddAction(owner: string, newID: string, body: Body) returns (r: Result<(), Error>)
      requires Valid() && newID != "" && forall e <- log :: e.id != newID
      modifies `log
      ensures Valid()
      ensures r == if body.name == "" then Err(InvalidArgument("COMMAND-eg2gf")) else Ok(())
      ensures log == if r.Ok? then old(log) + [Event(owner, newID, now, Added(body))] else old(log)
      ensures r.Ok? ==> Load(log, owner, newID) == View(body, Active)
    {
      if body.name == "" {
        return Err(InvalidArgument("COMMAND-eg2gf"));
      }
      NothingLoaded(log, owner, newID);
      Push(owner, newID, Added(body));
      return Ok(());
    }

    method ChangeAction(owner: string, id: string, wanted: Body) returns (r: Result<(), Error>)
      requires Valid()
      modifies `log
      ensures Valid()
      ensures var v := Load(old(log), owner, id);
              r == if wanted.name == "" || id == "" then Err(InvalidArgument("COMMAND-Df2f3"))
                   else if !Exists(v.state) then Err(NotFound("COMMAND-Sfg2t"))
                   else if v.body == wanted then Err(PreconditionFailed("ACTION-dg4t2")) else Ok(())
      ensures r.Ok? ==> |log| == |old(log)| + 1 && log[..|old(log)|] == old(log)
      ensures r.Ok? ==>
                var e, body := log[|old(log)|], Load(old(log), owner, id).body;
                && e.owner == owner && e.id == id && e.created == now && e.change.Changed?
                && (e.change.name.Some? <==> body.name != wanted.name)
                && (e.change.script.Some? <==> body.script != wanted.script)
                && (e.change.timeout.Some? <==> body.timeout != wanted.timeout)
                && (e.change.allowedToFail.Some? <==> body.allowedToFail != wanted.allowedToFail)
      ensures r.Ok? ==> Load(log, owner, id) == Load(old(log), owner, id).(body := wanted)
      ensures r.Err? ==> log == old(log)
    {
      if wanted.name == "" || id == "" {
        return Err(InvalidArgument("COMMAND-Df2f3"));
      }
      var wm := LoadAction(owner, id);
      if !Exists(wm.state) {
        return Err(NotFound("COMMAND-Sfg2t"));
      }
      var change := Changed(None, None, None, None);
      if wm.body.name != wanted.name { change := change.(name := Some(wanted.name)); }
      if wm.body.script != wanted.script { change := change.(script := Some(wanted.script)); }
      if wm.body.timeout != wanted.timeout { change := change.(timeout := Some(wanted.timeout)); }
      if wm.body.allowedToFail != wanted.allowedToFail { change := change.(allowedToFail := Some(wanted.allowedToFail)); }
      if change == Changed(None, None, None, None) {
        return Err(PreconditionFailed("ACTION-dg4t2"));
      }
      Push(owner, id, change);
      return Ok(());
    }

    method DeactivateAction(owner: string, id: string) returns (r: Result<(), Error>)
      requires Valid()
      modifies `log
      ensures Valid()
      ensures var state := Load(old(log), owner, id).state;
              r == if id == "" || owner == "" then Err(InvalidArgument("COMMAND-DAhk5"))
                   else if !Exists(state) then Err(NotFound("COMMAND-NRmhu"))
                   else if !state.Active? then Err(PreconditionFailed("COMMAND-Dgj92")) else Ok(())
      ensures log == if r.Ok? then old(log) + [Event(owner, id, now, Deactivated)] else old(log)
      ensures r.Ok? ==> Load(log, owner, id) == Load(old(log), owner, id).(state := Inactive)
    {
      if id == "" || owner == "" {
        return Err(InvalidArgument("COMMAND-DAhk5"));
      }
      var wm := LoadAction(owner, id);
      if !Exists(wm.state) {
        return Err(NotFound("COMMAND-NRmhu"));
      }
      if !wm.state.Active? {
        return Err(PreconditionFailed("COMMAND-Dgj92"));
      }
      Push(owner, id, Deactivated);
      return Ok(());
    }

    method ReactivateAction(owner: string, id: string) returns (r: Result<(), Error>)
      requires Valid()
      modifies `log
      ensures Valid()
      ensures var state := Load(old(log), owner, id).state;
              r == if id == "" || owner == "" then Err(InvalidArgument("COMMAND-BNm56"))
                   else if !Exists(state) then Err(NotFound("COMMAND-Aa22g"))
                   else if !state.Inactive? then Err(PreconditionFailed("COMMAND-J53zh")) else Ok(())
      ensures log == if r.Ok? then old(log) + [Event(owner, id, now, Reactivated)] else old(log)
      ensures r.Ok? ==> Load(log, owner, id) == Load(old(log), owner, id).(state := Active)
    {
      if id == "" || owner == "" {
        return Err(InvalidArgument("COMMAND-BNm56"));
      }
      var wm := LoadAction(owner, id);
      if !Exists(wm.state) {
        return Err(NotFound("COMMAND-Aa22g"));
      }
      if !wm.state.Inactive? {
        return Err(PreconditionFailed("COMMAND-J53zh"));
      }
      Push(owner, id, Reactivated);
      return Ok(());
    }

    /** Removes the action and, in events of the organisation, takes it from the triggers of the given flow types. */
    method DeleteAction(owner: string, id: string, flowTypes: seq<int>) returns (r: Result<(), Error>)
      requires Valid()
      modifies `log, `cascades
      ensures Valid()
      ensures r == if id == "" || owner == "" then Err(InvalidArgument("COMMAND-Gfg3g"))
                   else if !Exists(Load(old(log), owner, id).state) then Err(NotFound("COMMAND-Dgh4h")) else Ok(())
      ensures log == if r.Ok? then old(log) + [Event(owner, id, now, ActionRemoved)] else old(log)
      ensures r.Ok? ==> Load(log, owner, id).state.Removed?
      ensures r.Err? ==> cascades == old(cascades)
      ensures r.Ok? ==>
                && |cascades| == |old(cascades)| + |flowTypes| && cascades[..|old(cascades)|] == old(cascades)
                && forall i :: 0 <= i < |flowTypes| ==> cascades[|old(cascades)| + i] == CascadeRemoved(owner, flowTypes[i], id)
    {
      if id == "" || owner == "" {
        return Err(InvalidArgument("COMMAND-Gfg3g"));
      }
      var wm := LoadAction(owner, id);
      if !Exists(wm.state) {
        return Err(NotFound("COMMAND-Dgh4h"));
      }
      var events: seq<CascadeRemoved> := [];
      for i := 0 to |flowTypes|
        invariant |events| == i && forall j :: 0 <= j < i ==> events[j] == CascadeRemoved(owner, flowTypes[j], id)
      {
        events := events + [CascadeRemoved(owner, flowTypes[i], id)];
      }
      Push(owner, id, ActionRemoved);
      cascades := cascades + events;
      return Ok(());
    }

    /** Loads the list: the fold never meets a missing entry. */
    method LoadList(owner: string) returns (m: map<string, Listed>)
      requires Valid()
      ensures List(log, owner) == Some(m)
    {
      ListIsExistingActions(log, owner, "");
      var wm := new ActionsListByOrgModel();
      wm.Reduce(ListQuery(log, owner));
      return wm.actions;
    }

    /** Computes the surplus of an organisation and pushes its deactivations. */
    method ApplyQuota(owner: string, maxAllowed: nat) returns (dropped: seq<string>)
      requires Valid()
      modifies `log
      ensures Valid() && List(old(log), owner).Some? && List(log, owner).Some?
      ensures IsSurplus(List(old(log), owner).value, maxAllowed, dropped)
      ensures log == old(log) + Deactivations(owner, dropped, now)
      ensures ActiveIDs(List(log, owner).value) == ActiveIDs(List(old(log), owner).value) - Elements(dropped)
      ensures |ActiveIDs(List(log, owner).value)| <= maxAllowed
    {
      var m := LoadList(owner);
      dropped := DeactivateNotAllowed(m, maxAllowed);
      QuotaHolds(log, owner, maxAllowed, dropped, now);
      log := log + Deactivations(owner, dropped, now);
    }

    /** Whether all requested actions exist, as asked before they are put into a flow. */
    method ActionsIDsExist(owner: string, ids: seq<string>) returns (all: bool)
      requires Valid()
      ensures ids != [] ==> (all <==> NoDuplicates(ids) && forall id <- ids :: Exists(Load(log, owner, id).state))
    {
      var wm := new ActionExistsModel();
      wm.Reduce(ExistsQuery(log, owner, ids));
      all := |ids| == |wm.checkedIDs|;
      if ids != [] {
        LengthsMeanAllExist(log, owner, ids);
      }
    }
  }

  lemma {:induction false} NothingLoaded(log: seq<Event>, owner: string, id: string)
    requires forall e <- log :: e.id != id
    ensures EventsOf(log, owner, id) == []
  {
    if log != [] {
      NothingLoaded(log[..|log| - 1], owner, id);
      assert log[|log| - 1] in log;
    }
  }
}
