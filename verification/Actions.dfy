/** Actions of an organisation: three read models of one log, the commands, and the quota. */
module Actions {
  import opened Wrappers
  import opened Slices

  type Time = int

  datatype State = Unspecified | Active | Inactive | Removed

  predicate Exists(s: State) {
    !s.Unspecified? && !s.Removed?
  }

  datatype Body = Body(name: string, script: string, timeout: int, allowedToFail: bool)

  datatype Change =
    | Added(body: Body)
    | Changed(name: Option<string>, script: Option<string>, timeout: Option<int>, allowedToFail: Option<bool>)
    | Deactivated
    | Reactivated
    | ActionRemoved

  datatype Event = Event(owner: string, id: string, created: Time, change: Change)

  // ---------------------------------------------------------------- one action

  datatype View = View(body: Body, state: State)

  const EMPTY := View(Body("", "", 0, false), Unspecified)

  function Or<T>(change: Option<T>, current: T): T {
    if change.Some? then change.value else current
  }

  function Step(v: View, e: Event): View {
    match e.change
    case Added(body) => View(body, Active)
    case Changed(name, script, timeout, allowed) =>
      v.(body := Body(Or(name, v.body.name), Or(script, v.body.script), Or(timeout, v.body.timeout), Or(allowed, v.body.allowedToFail)))
    case Deactivated => v.(state := Inactive)
    case Reactivated => v.(state := Active)
    case ActionRemoved => v.(state := Removed)
  }

  function Reduced(v: View, es: seq<Event>): View {
    if es == [] then v else Step(Reduced(v, es[..|es| - 1]), es[|es| - 1])
  }

  predicate Concerns(e: Event, owner: string, id: string) {
    e.owner == owner && e.id == id
  }

  function EventsOf(log: seq<Event>, owner: string, id: string): seq<Event> {
    if log == [] then []
    else EventsOf(log[..|log| - 1], owner, id) + (if Concerns(log[|log| - 1], owner, id) then [log[|log| - 1]] else [])
  }

  function Load(log: seq<Event>, owner: string, id: string): View {
    Reduced(EMPTY, EventsOf(log, owner, id))
  }

  lemma LoadSnoc(log: seq<Event>, e: Event, owner: string, id: string)
    ensures Load(log + [e], owner, id) == if Concerns(e, owner, id) then Step(Load(log, owner, id), e) else Load(log, owner, id)
  {
    var before := EventsOf(log, owner, id);
    assert (log + [e])[..|log|] == log;
    assert (before + [e])[..|before|] == before;
    assert before + [] == before;
  }

  // ---------------------------------------------------------------- which logs the commands produce

  /** What a command checks of the loaded action before it pushes an event of it. */
  predicate Allowed(s: State, c: Change) {
    match c
    case Added(_) => s.Unspecified?
    case Changed(_, _, _, _) => Exists(s)
    case Deactivated => s.Active?
    case Reactivated => s.Inactive?
    case ActionRemoved => Exists(s)
  }

  predicate IsActionLog(log: seq<Event>) {
    log == [] ||
    (IsActionLog(log[..|log| - 1]) &&
     var e := log[|log| - 1]; Allowed(Load(log[..|log| - 1], e.owner, e.id).state, e.change))
  }

  lemma ActionLogSnoc(log: seq<Event>, e: Event)
    requires IsActionLog(log) && Allowed(Load(log, e.owner, e.id).state, e.change)
    ensures IsActionLog(log + [e])
  {
    assert (log + [e])[..|log|] == log;
  }

  /** An allowed event continues the log and is a step of the action's model. */
  lemma AllowedPush(log: seq<Event>, e: Event)
    requires IsActionLog(log) && Allowed(Load(log, e.owner, e.id).state, e.change)
    ensures IsActionLog(log + [e])
    ensures Load(log + [e], e.owner, e.id) == Step(Load(log, e.owner, e.id), e)
  {
    ActionLogSnoc(log, e);
    LoadSnoc(log, e, e.owner, e.id);
  }

  // ---------------------------------------------------------------- the list of an organisation

  datatype Listed = Listed(changeDate: Time, name: string, state: State)

  /**
  The list model ignores changes: its query does not name them. Editing an entry that is not
  there is a nil pointer in the source; here it makes the whole list None.
  */
  function StepList(m: Option<map<string, Listed>>, e: Event): Option<map<string, Listed>> {
    if m.None? then None
    else
      match e.change
      case Added(body) => Some(m.value[e.id := Listed(e.created, body.name, Active)])
      case Changed(_, _, _, _) => m
      case Deactivated => if e.id in m.value then Some(m.value[e.id := m.value[e.id].(state := Inactive)]) else None
      case Reactivated => if e.id in m.value then Some(m.value[e.id := m.value[e.id].(state := Active)]) else None
      case ActionRemoved => Some(m.value - {e.id})
  }

  function ListQuery(log: seq<Event>, owner: string): seq<Event> {
    if log == [] then []
    else
      var e := log[|log| - 1];
      ListQuery(log[..|log| - 1], owner) + (if e.owner == owner && !e.change.Changed? then [e] else [])
  }

  function ReducedList(m: Option<map<string, Listed>>, es: seq<Event>): Option<map<string, Listed>> {
    if es == [] then m else StepList(ReducedList(m, es[..|es| - 1]), es[|es| - 1])
  }

  function List(log: seq<Event>, owner: string): Option<map<string, Listed>> {
    ReducedList(Some(map[]), ListQuery(log, owner))
  }

  lemma ListSnoc(log: seq<Event>, e: Event, owner: string)
    ensures List(log + [e], owner) == if e.owner == owner && !e.change.Changed? then StepList(List(log, owner), e) else List(log, owner)
  {
    var es := ListQuery(log, owner);
    assert (log + [e])[..|log|] == log;
    assert (es + [e])[..|es|] == es;
    assert es + [] == es;
  }

  /** When and under which name an action was added. */
  function AddedAs(log: seq<Event>, owner: string, id: string): Option<Event> {
    if log == [] then None
    else if Concerns(log[|log| - 1], owner, id) && log[|log| - 1].change.Added? then Some(log[|log| - 1])
    else AddedAs(log[..|log| - 1], owner, id)
  }

  /** An entry carries the state of the action and the date and name of its addition. */
  predicate EntryAgrees(log: seq<Event>, owner: string, id: string, entry: Listed) {
    var added := AddedAs(log, owner, id);
    && entry.state == Load(log, owner, id).state
    && added.Some? && added.value.change.Added?
    && entry.changeDate == added.value.created && entry.name == added.value.change.body.name
  }

  predicate ListAgrees(log: seq<Event>, owner: string, m: map<string, Listed>, id: string) {
    && (id in m <==> Exists(Load(log, owner, id).state))
    && (id in m ==> EntryAgrees(log, owner, id, m[id]))
  }

  /**
  On every log the commands can produce the list never edits a missing entry and holds exactly
  the existing actions, each with the state that its own model folds to.
  */
  lemma {:induction false} ListIsExistingActions(log: seq<Event>, owner: string, id: string)
    requires IsActionLog(log)
    ensures List(log, owner).Some? && ListAgrees(log, owner, List(log, owner).value, id)
  {
    if log != [] {
      var init, e := log[..|log| - 1], log[|log| - 1];
      ListIsExistingActions(init, owner, id);
      ListIsExistingActions(init, owner, e.id);
      assert log == init + [e];
      ListSnoc(init, e, owner);
      LoadSnoc(init, e, owner, id);
    }
  }

  // ---------------------------------------------------------------- which requested actions exist

  /** An empty request is no restriction. */
  predicate Requested(ids: seq<string>, id: string) {
    ids == [] || id in ids
  }

  function ExistsQuery(log: seq<Event>, owner: string, ids: seq<string>): seq<Event> {
    if log == [] then []
    else
      var e := log[|log| - 1];
      ExistsQuery(log[..|log| - 1], owner, ids)
      + (if e.owner == owner && Requested(ids, e.id) && (e.change.Added? || e.change.ActionRemoved?) then [e] else [])
  }

  /** The last position that holds x, searching backwards from i, or none. */
  function LastBefore(s: seq<string>, x: string, i: nat): (k: Option<nat>)
    requires i <= |s|
    ensures k.Some? ==> k.value < i && s[k.value] == x
    ensures forall j :: (if k.Some? then k.value + 1 else 0) <= j < i ==> s[j] != x
  {
    if i == 0 then None else if s[i - 1] == x then Some(i - 1) else LastBefore(s, x, i - 1)
  }

  function SwapRemoveLast(s: seq<string>, x: string): seq<string> {
    var k := LastBefore(s, x, |s|);
    if k.Some? then SwapRemoveAt(s, k.value) else s
  }

  function StepChecked(checked: seq<string>, e: Event): seq<string> {
    match e.change
    case Added(_) => checked + [e.id]
    case ActionRemoved => SwapRemoveLast(checked, e.id)
    case _ => checked
  }

  function ReducedChecked(checked: seq<string>, es: seq<Event>): seq<string> {
    if es == [] then checked else StepChecked(ReducedChecked(checked, es[..|es| - 1]), es[|es| - 1])
  }

  lemma RemoveChecked(s: seq<string>, x: string)
    requires NoDuplicates(s)
    ensures NoDuplicates(SwapRemoveLast(s, x))
    ensures forall y :: y in SwapRemoveLast(s, x) <==> y in s && y != x
  {
    var k := LastBefore(s, x, |s|);
    if k.Some? {
      var r := SwapRemoveAt(s, k.value);
      forall y | y in s && y != x
        ensures y in r
      {
        var j :| 0 <= j < |s| && s[j] == y;
        assert r[if j == |s| - 1 then k.value else j] == y;
      }
    }
  }

  lemma StepCheckedMembers(checked: seq<string>, e: Event, id: string)
    requires NoDuplicates(checked) && (e.change.Added? ==> e.id !in checked)
    ensures NoDuplicates(StepChecked(checked, e))
    ensures id in StepChecked(checked, e) <==>
            if id == e.id && e.change.Added? then true
            else if id == e.id && e.change.ActionRemoved? then false
            else id in checked
  {
    RemoveChecked(checked, e.id);
  }

  function Checked(log: seq<Event>, owner: string, ids: seq<string>): seq<string> {
    ReducedChecked([], ExistsQuery(log, owner, ids))
  }

  lemma CheckedSnoc(log: seq<Event>, e: Event, owner: string, ids: seq<string>)
    ensures Checked(log + [e], owner, ids)
         == if e.owner == owner && Requested(ids, e.id) then StepChecked(Checked(log, owner, ids), e) else Checked(log, owner, ids)
  {
    var es := ExistsQuery(log, owner, ids);
    assert (log + [e])[..|log|] == log;
    assert (es + [e])[..|es|] == es;
    assert es + [] == es;
  }

  ghost predicate CheckedAt(log: seq<Event>, owner: string, ids: seq<string>, id: string) {
    && NoDuplicates(Checked(log, owner, ids))
    && (id in Checked(log, owner, ids) <==> Requested(ids, id) && Exists(Load(log, owner, id).state))
  }

  lemma ExistsAfter(v: View, e: Event)
    requires Allowed(v.state, e.change)
    ensures Exists(Step(v, e).state) <==> (if e.change.Added? then true else if e.change.ActionRemoved? then false else Exists(v.state))
    ensures e.change.Added? ==> !Exists(v.state)
  {
  }

  lemma CheckedGrows(log: seq<Event>, e: Event, owner: string, ids: seq<string>, id: string)
    requires CheckedAt(log, owner, ids, id) && CheckedAt(log, owner, ids, e.id)
    requires Allowed(Load(log, e.owner, e.id).state, e.change)
    ensures CheckedAt(log + [e], owner, ids, id)
  {
    CheckedSnoc(log, e, owner, ids);
    LoadSnoc(log, e, owner, id);
    ExistsAfter(Load(log, e.owner, e.id), e);
    if e.owner == owner && Requested(ids, e.id) {
      StepCheckedMembers(Checked(log, owner, ids), e, id);
    }
  }

  /** The checked ids are, without duplicates, the requested ids that exist. */
  lemma {:induction false} CheckedAreExisting(log: seq<Event>, owner: string, ids: seq<string>, id: string)
    requires IsActionLog(log)
    ensures NoDuplicates(Checked(log, owner, ids))
    ensures id in Checked(log, owner, ids) <==> Requested(ids, id) && Exists(Load(log, owner, id).state)
  {
    if log != [] {
      var init, e := log[..|log| - 1], log[|log| - 1];
      CheckedAreExisting(init, owner, ids, id);
      CheckedAreExisting(init, owner, ids, e.id);
      CheckedGrows(init, e, owner, ids, id);
      assert log == init + [e];
    }
  }

  function Elements(s: seq<string>): set<string> {
    set x | x in s
  }

  lemma {:induction false} ElementsSize(s: seq<string>)
    ensures |Elements(s)| <= |s|
    ensures |Elements(s)| == |s| <==> NoDuplicates(s)
  {
    if s != [] {
      var init, last := s[..|s| - 1], s[|s| - 1];
      ElementsSize(init);
      assert s == init + [last];
      assert Elements(s) == Elements(init) + {last};
      if last in init {
        var i :| 0 <= i < |init| && init[i] == last;
        assert s[i] == s[|s| - 1];
        assert Elements(s) == Elements(init);
      } else {
        assert NoDuplicates(init) ==> NoDuplicates(s);
        if NoDuplicates(s) {
          assert NoDuplicates(init) by {
            forall i, j | 0 <= i < j < |init| ensures init[i] != init[j] { assert s[i] == init[i] && s[j] == init[j]; }
          }
        }
      }
    }
  }

  /** Comparing lengths answers whether all requested actions exist, and none was named twice. */
  lemma LengthsMeanAllExist(log: seq<Event>, owner: string, ids: seq<string>)
    requires IsActionLog(log) && ids != []
    ensures |ids| == |Checked(log, owner, ids)| <==>
            NoDuplicates(ids) && forall id <- ids :: Exists(Load(log, owner, id).state)
  {
    var checked := Checked(log, owner, ids);
    forall id
      ensures NoDuplicates(checked) && (id in checked <==> id in ids && Exists(Load(log, owner, id).state))
    {
      CheckedAreExisting(log, owner, ids, id);
    }
    ElementsSize(ids);
    ElementsSize(checked);
    assert Elements(checked) <= Elements(ids);
    if |ids| == |checked| {
      SubsetOfSameSize(Elements(checked), Elements(ids));
      assert forall id <- ids :: id in Elements(checked);
    }
    if NoDuplicates(ids) && forall id <- ids :: Exists(Load(log, owner, id).state) {
      assert Elements(checked) == Elements(ids);
    }
  }

  /** So a request that names one existing action twice is answered as if one were missing. */
  lemma NamedTwice(log: seq<Event>, owner: string, id: string)
    requires IsActionLog(log)
    ensures |[id, id]| != |Checked(log, owner, [id, id])|
  {
    LengthsMeanAllExist(log, owner, [id, id]);
    assert [id, id][0] == [id, id][1];
  }

  lemma {:induction false} SubsetOfSameSize(a: set<string>, b: set<string>)
    requires a <= b && |a| >= |b|
    ensures a == b
  {
    if a != b {
      var x :| x in b && x !in a;
      assert a <= b - {x};
      SizeOfSubset(a, b - {x});
    }
  }

  lemma {:induction false} SizeOfSubset(a: set<string>, b: set<string>)
    requires a <= b
    ensures |a| <= |b|
  {
    if a != {} {
      var x :| x in a;
      SizeOfSubset(a - {x}, b - {x});
    }
  }
}
