/** The slice edits that the folds use: overwrite an element with the last one and drop the last. */
module Slices {

  function SwapRemoveAt<T>(s: seq<T>, i: nat): (r: seq<T>)
    requires i < |s|
    ensures |r| == |s| - 1
    ensures forall j :: 0 <= j < |r| ==> r[j] == if j == i then s[|s| - 1] else s[j]
  {
    s[i := s[|s| - 1]][..|s| - 1]
  }

  lemma PartsOfSwap<T>(s: seq<T>, i: nat)
    requires i < |s| - 1
    ensures s == s[..i] + [s[i]] + s[i + 1..|s| - 1] + [s[|s| - 1]]
    ensures SwapRemoveAt(s, i) == s[..i] + [s[|s| - 1]] + s[i + 1..|s| - 1]
  {
  }

  lemma SwapRemoveAtMultiset<T>(s: seq<T>, i: nat)
    requires i < |s|
    ensures multiset(SwapRemoveAt(s, i)) == multiset(s) - multiset{s[i]}
  {
    if i == |s| - 1 {
      assert s == SwapRemoveAt(s, i) + [s[i]];
    } else {
      PartsOfSwap(s, i);
      SwapOfParts(s[..i], s[i], s[i + 1..|s| - 1], s[|s| - 1]);
    }
  }

  lemma SwapOfParts<T>(front: seq<T>, x: T, middle: seq<T>, last: T)
    ensures multiset(front + [last] + middle) == multiset(front + [x] + middle + [last]) - multiset{x}
  {
  }

  /** Scans s[..i] backwards and swap-removes every x. */
  function SwapRemoveDown<T(==)>(s: seq<T>, i: nat, x: T): (r: seq<T>)
    requires i <= |s|
    ensures |r| <= |s|
    decreases i
  {
    if i == 0 then s
    else if s[i - 1] == x then SwapRemoveDown(SwapRemoveAt(s, i - 1), i - 1, x)
    else SwapRemoveDown(s, i - 1, x)
  }

  function SwapRemoveAll<T(==)>(s: seq<T>, x: T): seq<T> {
    SwapRemoveDown(s, |s|, x)
  }

  /** Swap-removing the element before a tail without x brings no x into the tail. */
  lemma SwapKeepsTailClean<T>(s: seq<T>, i: nat, x: T)
    requires 1 <= i <= |s| && x !in s[i..]
    ensures x !in SwapRemoveAt(s, i - 1)[i - 1..]
  {
    var t := SwapRemoveAt(s, i - 1);
    forall k | i - 1 <= k < |t|
      ensures t[k] != x
    {
      var from := if k == i - 1 then |s| - 1 else k;
      assert t[k] == s[from];
      if i <= from {
        assert s[from] == s[i..][from - i];
      }
    }
  }

  lemma DropFromCleared<T>(m: multiset<T>, x: T)
    ensures (m - multiset{x})[x := 0] == m[x := 0]
  {
  }

  lemma ClearedOfAbsent<T>(s: seq<T>, x: T)
    requires x !in s
    ensures multiset(s)[x := 0] == multiset(s)
  {
    assert x !in multiset(s);
  }

  lemma {:induction false} SwapRemoveDownMultiset<T>(s: seq<T>, i: nat, x: T)
    requires i <= |s| && x !in s[i..]
    ensures multiset(SwapRemoveDown(s, i, x)) == multiset(s)[x := 0]
    decreases i
  {
    if i == 0 {
      assert s[i..] == s;
      ClearedOfAbsent(s, x);
    } else if s[i - 1] == x {
      SwapKeepsTailClean(s, i, x);
      SwapRemoveDownMultiset(SwapRemoveAt(s, i - 1), i - 1, x);
      SwapRemoveAtMultiset(s, i - 1);
      DropFromCleared(multiset(s), x);
    } else {
      assert s[i - 1..] == [s[i - 1]] + s[i..];
      SwapRemoveDownMultiset(s, i - 1, x);
    }
  }

  /** Exactly the other elements stay, each as often as before. */
  lemma SwapRemoveAllMultiset<T>(s: seq<T>, x: T)
    ensures multiset(SwapRemoveAll(s, x)) == multiset(s)[x := 0]
    ensures x !in SwapRemoveAll(s, x)
  {
    SwapRemoveDownMultiset(s, |s|, x);
    assert x !in multiset(SwapRemoveAll(s, x));
  }

  lemma {:induction false} SwapRemoveDownAbsent<T>(s: seq<T>, i: nat, x: T)
    requires i <= |s| && x !in s[..i]
    ensures SwapRemoveDown(s, i, x) == s
    decreases i
  {
    if i > 0 {
      assert s[i - 1] == s[..i][i - 1];
      assert s[..i - 1] == s[..i][..i - 1];
      SwapRemoveDownAbsent(s, i - 1, x);
    }
  }

  /** The first position from i on whose element satisfies p. */
  function FirstFrom<T>(s: seq<T>, p: T -> bool, i: nat): (k: nat)
    requires i <= |s|
    ensures i <= k <= |s|
    ensures k < |s| ==> p(s[k])
    ensures forall j :: i <= j < k ==> !p(s[j])
    decreases |s| - i
  {
    if i == |s| || p(s[i]) then i else FirstFrom(s, p, i + 1)
  }

  /** Swap-removes the first element that satisfies p, if there is one. */
  function Is<T(==)>(x: T): T -> bool {
    (y: T) => y == x
  }

  function SwapRemoveFirst<T>(s: seq<T>, p: T -> bool): seq<T> {
    var k := FirstFrom(s, p, 0);
    if k < |s| then SwapRemoveAt(s, k) else s
  }

  lemma FirstIsUnique<T>(s: seq<T>, p: T -> bool, k: nat)
    requires k <= |s| && (k < |s| ==> p(s[k])) && forall j :: 0 <= j < k ==> !p(s[j])
    ensures FirstFrom(s, p, 0) == k
  {
  }

  predicate NoDuplicates<T(==)>(s: seq<T>) {
    forall i, j :: 0 <= i < j < |s| ==> s[i] != s[j]
  }

  /** A sequence is free of duplicates exactly when no element occurs twice. */
  lemma {:induction false} NoDuplicatesMultiset<T>(s: seq<T>)
    ensures NoDuplicates(s) <==> forall x :: multiset(s)[x] <= 1
  {
    if s != [] {
      var init, last := s[..|s| - 1], s[|s| - 1];
      NoDuplicatesMultiset(init);
      assert s == init + [last];
      assert forall x :: multiset(s)[x] == multiset(init)[x] + (if x == last then 1 else 0);
      if NoDuplicates(s) {
        assert last !in init;
        assert multiset(init)[last] == 0;
      }
      if forall x :: multiset(s)[x] <= 1 {
        assert multiset(init)[last] == 0;
        assert last !in init;
        forall i, j | 0 <= i < j < |s|
          ensures s[i] != s[j]
        {
          assert s[i] == init[i];
          if j < |init| {
            assert s[j] == init[j];
          }
        }
      }
    }
  }
}
