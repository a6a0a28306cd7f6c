/** The simple form of a field that events set one after the other: the value given last. */
module Folds {
  import opened Wrappers

  /** What the last event that gives a value gives, and zero if none does. */
  function Latest<E, T>(es: seq<E>, zero: T, given: E -> Option<T>): T {
    if es == [] then zero
    else if given(es[|es| - 1]).Some? then given(es[|es| - 1]).value
    else Latest(es[..|es| - 1], zero, given)
  }

  lemma LatestSnoc<E, T>(es: seq<E>, e: E, zero: T, given: E -> Option<T>)
    ensures Latest(es + [e], zero, given) == if given(e).Some? then given(e).value else Latest(es, zero, given)
  {
    assert (es + [e])[..|es|] == es;
  }

  lemma {:induction false} LatestIs<E, T>(es: seq<E>, zero: T, given: E -> Option<T>, k: nat)
    requires k < |es| && given(es[k]).Some? && forall i :: k < i < |es| ==> given(es[i]).None?
    ensures Latest(es, zero, given) == given(es[k]).value
  {
    if k < |es| - 1 {
      LatestIs(es[..|es| - 1], zero, given, k);
    }
  }
}
