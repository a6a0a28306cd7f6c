/**
Lists of entries that are edited in place by id: appended, given a new value, and swap-removed.
While no id is added that is still present, such a list is a map.
*/
module KeyedLists {
  import opened Slices

  datatype Entry = Entry(id: string, value: string)

  datatype Edit = Put(id: string, value: string) | Change(id: string, value: string) | Drop(id: string)

  function HasID(id: string): Entry -> bool {
    (e: Entry) => e.id == id
  }

  /** Gives the entry at i the new value if it has the id. */
  function Changed(e: Entry, id: string, value: string): Entry {
    if e.id == id then Entry(id, value) else e
  }

  function ChangeAll(es: seq<Entry>, id: string, value: string): (r: seq<Entry>)
    ensures |r| == |es| && forall i :: 0 <= i < |es| ==> r[i] == Changed(es[i], id, value)
  {
    if es == [] then [] else ChangeAll(es[..|es| - 1], id, value) + [Changed(es[|es| - 1], id, value)]
  }

  function ChangeFirst(es: seq<Entry>, id: string, value: string): (r: seq<Entry>)
    ensures |r| == |es|
  {
    var k := FirstFrom(es, HasID(id), 0);
    if k < |es| then es[k := Entry(id, value)] else es
  }

  /** `all` says whether a change reaches every entry of the id or only the first. */
  function Step(es: seq<Entry>, e: Edit, all: bool): seq<Entry> {
    match e
    case Put(id, value) => es + [Entry(id, value)]
    case Change(id, value) => if all then ChangeAll(es, id, value) else ChangeFirst(es, id, value)
    case Drop(id) => SwapRemoveFirst(es, HasID(id))
  }

  function Edited(edits: seq<Edit>, all: bool): seq<Entry> {
    if edits == [] then [] else Step(Edited(edits[..|edits| - 1], all), edits[|edits| - 1], all)
  }

  lemma EditedSnoc(edits: seq<Edit>, e: Edit, all: bool)
    ensures Edited(edits + [e], all) == Step(Edited(edits, all), e, all)
  {
    assert (edits + [e])[..|edits|] == edits;
  }

  /** The simple form: the latest value of each id. */
  function StepMap(m: map<string, string>, e: Edit): map<string, string> {
    match e
    case Put(id, value) => m[id := value]
    case Change(id, value) => if id in m then m[id := value] else m
    case Drop(id) => m - {id}
  }

  function Latest(edits: seq<Edit>): map<string, string> {
    if edits == [] then map[] else StepMap(Latest(edits[..|edits| - 1]), edits[|edits| - 1])
  }

  lemma LatestSnoc(edits: seq<Edit>, e: Edit)
    ensures Latest(edits + [e]) == StepMap(Latest(edits), e)
  {
    assert (edits + [e])[..|edits|] == edits;
  }

  predicate Distinct(es: seq<Entry>) {
    forall i, j :: 0 <= i < j < |es| ==> es[i].id != es[j].id
  }

  predicate AreCurrent(es: seq<Entry>, m: map<string, string>) {
    forall i :: 0 <= i < |es| ==> es[i].id in m && m[es[i].id] == es[i].value
  }

  predicate Has(es: seq<Entry>, id: string) {
    exists i :: 0 <= i < |es| && es[i].id == id
  }

  /** The list holds each id of the map once, with its value, and nothing else. */
  ghost predicate Represents(es: seq<Entry>, m: map<string, string>) {
    Distinct(es) && AreCurrent(es, m) && forall id :: id in m ==> Has(es, id)
  }

  lemma DropRepresents(es: seq<Entry>, m: map<string, string>, id: string)
    requires Represents(es, m)
    ensures Represents(SwapRemoveFirst(es, HasID(id)), m - {id})
  {
    var k := FirstFrom(es, HasID(id), 0);
    var r := SwapRemoveFirst(es, HasID(id));
    if k < |es| {
      assert es[k].id == id;
      forall other | other in m - {id}
        ensures Has(r, other)
      {
        assert Has(es, other);
        var i :| 0 <= i < |es| && es[i].id == other;
        assert r[if i == |es| - 1 then k else i].id == other;
      }
    } else {
      assert forall i :: 0 <= i < |es| ==> !HasID(id)(es[i]);
      assert id in m ==> Has(es, id);
      assert m - {id} == m;
    }
  }

  /** With distinct ids, changing the first entry of an id is changing every one. */
  lemma ChangeFirstIsChangeAll(es: seq<Entry>, id: string, value: string)
    requires Distinct(es)
    ensures ChangeFirst(es, id, value) == ChangeAll(es, id, value)
  {
    var k := FirstFrom(es, HasID(id), 0);
    assert k < |es| ==> es[k].id == id;
    assert forall i :: 0 <= i < k ==> !HasID(id)(es[i]);
  }

  lemma ChangeRepresents(es: seq<Entry>, m: map<string, string>, id: string, value: string, all: bool)
    requires Represents(es, m)
    ensures Represents(Step(es, Change(id, value), all), StepMap(m, Change(id, value)))
  {
    ChangeFirstIsChangeAll(es, id, value);
    if id in m {
      ChangePresent(es, m, id, value);
    } else {
      assert ChangeAll(es, id, value) == es;
    }
  }

  lemma ChangePresent(es: seq<Entry>, m: map<string, string>, id: string, value: string)
    requires Represents(es, m) && id in m
    ensures Represents(ChangeAll(es, id, value), m[id := value])
  {
    var r := ChangeAll(es, id, value);
    assert forall i :: 0 <= i < |es| ==> r[i].id == es[i].id;
    forall other | other in m
      ensures Has(r, other)
    {
      assert Has(es, other);
      var i :| 0 <= i < |es| && es[i].id == other;
      assert r[i].id == other;
    }
  }

  lemma PutRepresents(es: seq<Entry>, m: map<string, string>, id: string, value: string)
    requires Represents(es, m)
    ensures Represents(es + [Entry(id, value)], m[id := value]) <==> id !in m
  {
    var r, m' := es + [Entry(id, value)], m[id := value];
    if id in m {
      assert Has(es, id);
      var i :| 0 <= i < |es| && es[i].id == id;
      assert r[i].id == r[|es|].id;
    } else {
      forall other | other in m'
        ensures Has(r, other)
      {
        if other == id {
          assert r[|es|].id == other;
        } else {
          assert Has(es, other);
          var i :| 0 <= i < |es| && es[i].id == other;
          assert r[i].id == other;
        }
      }
    }
  }

  /** No id is added while it is present. */
  predicate NeverReAdded(edits: seq<Edit>) {
    edits == [] ||
    (NeverReAdded(edits[..|edits| - 1]) &&
     (edits[|edits| - 1].Put? ==> edits[|edits| - 1].id !in Latest(edits[..|edits| - 1])))
  }

  ghost predicate RepresentsAt(edits: seq<Edit>, all: bool, n: nat)
    requires n <= |edits|
  {
    Represents(Edited(edits[..n], all), Latest(edits[..n]))
  }

  lemma LastEditRepresents(edits: seq<Edit>, all: bool)
    requires edits != [] && RepresentsAt(edits, all, |edits| - 1)
    ensures RepresentsAt(edits, all, |edits|) <==>
            (edits[|edits| - 1].Put? ==> edits[|edits| - 1].id !in Latest(edits[..|edits| - 1]))
  {
    var init := edits[..|edits| - 1];
    assert edits[..|edits|] == edits;
    match edits[|edits| - 1]
    case Put(id, value) => PutRepresents(Edited(init, all), Latest(init), id, value);
    case Change(id, value) => ChangeRepresents(Edited(init, all), Latest(init), id, value, all);
    case Drop(id) => DropRepresents(Edited(init, all), Latest(init), id);
  }

  /**
  The list is the map of latest values all along exactly when no id is added while present; both
  ways of changing an entry then come to the same.
  */
  lemma {:induction false} ListIsMap(edits: seq<Edit>, all: bool)
    ensures (forall n: nat :: n <= |edits| ==> RepresentsAt(edits, all, n)) <==> NeverReAdded(edits)
  {
    if edits != [] {
      var init := edits[..|edits| - 1];
      ListIsMap(init, all);
      forall n: nat | n <= |init|
        ensures RepresentsAt(edits, all, n) <==> RepresentsAt(init, all, n)
      {
        assert edits[..n] == init[..n];
      }
      if RepresentsAt(edits, all, |init|) {
        LastEditRepresents(edits, all);
      }
    }
  }

  /** The values of the list, one for each id of the map. */
  function Values(es: seq<Entry>): (r: seq<string>)
    ensures |r| == |es| && forall i :: 0 <= i < |es| ==> r[i] == es[i].value
  {
    if es == [] then [] else Values(es[..|es| - 1]) + [es[|es| - 1].value]
  }

  /** A list that represents a map has one entry per id. */
  lemma {:induction false} RepresentsSize(es: seq<Entry>, m: map<string, string>)
    requires Represents(es, m)
    ensures |es| == |m|
    decreases |es|
  {
    if es == [] {
      assert forall id :: id in m ==> Has(es, id);
      assert m.Keys == {};
    } else {
      var last := es[|es| - 1];
      LastDropped(es, m);
      RepresentsSize(es[..|es| - 1], m - {last.id});
      assert m == (m - {last.id})[last.id := last.value];
    }
  }

  lemma LastDropped(es: seq<Entry>, m: map<string, string>)
    requires Represents(es, m) && es != []
    ensures Represents(es[..|es| - 1], m - {es[|es| - 1].id})
  {
    var init, last := es[..|es| - 1], es[|es| - 1];
    forall id | id in m - {last.id}
      ensures Has(init, id)
    {
      assert Has(es, id);
      var i :| 0 <= i < |es| && es[i].id == id;
      assert init[i].id == id;
    }
  }
}
