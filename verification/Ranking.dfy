/** Ranked lists: sorting with an unstable sort, then cutting to the first few. */
module Ranking {

  ghost predicate StrictWeakOrder<T(!new)>(less: (T, T) -> bool) {
    && (forall x :: !less(x, x))
    && (forall x, y, z :: less(x, y) && less(y, z) ==> less(x, z))
    && (forall x, y, z :: !less(x, y) && !less(y, z) ==> !less(x, z))
  }

  predicate Sorted<T>(s: seq<T>, less: (T, T) -> bool) {
    forall i, j :: 0 <= i < j < |s| ==> !less(s[j], s[i])
  }

  /** All that sort.Slice promises: it is not stable, so ties may land anywhere. */
  predicate IsSortOf<T(==)>(s: seq<T>, sorted: seq<T>, less: (T, T) -> bool) {
    multiset(sorted) == multiset(s) && Sorted(sorted, less)
  }

  method Sort<T(!new, ==)>(s: seq<T>, less: (T, T) -> bool) returns (sorted: seq<T>)
    requires StrictWeakOrder(less)
    ensures IsSortOf(s, sorted, less)
  {
    sorted := [];
    for n := 0 to |s|
      invariant IsSortOf(s[..n], sorted, less)
    {
      var p := 0;
      while p < |sorted| && !less(s[n], sorted[p])
        invariant 0 <= p <= |sorted|
        invariant forall i :: 0 <= i < p ==> !less(s[n], sorted[i])
      {
        p := p + 1;
      }
      InsertKeepsSorted(sorted, s[n], p, less);
      InsertKeepsMultiset(s, sorted, n, p);
      sorted := sorted[..p] + [s[n]] + sorted[p..];
    }
    assert s[..|s|] == s;
  }

  lemma InsertKeepsSorted<T(!new)>(s: seq<T>, x: T, p: nat, less: (T, T) -> bool)
    requires StrictWeakOrder(less) && Sorted(s, less) && p <= |s|
    requires forall i :: 0 <= i < p ==> !less(x, s[i])
    requires p < |s| ==> less(x, s[p])
    ensures Sorted(s[..p] + [x] + s[p..], less)
  {
    forall i | p <= i < |s|
      ensures !less(s[i], x)
    {
      assert p == i || !less(s[i], s[p]);
    }
  }

  lemma InsertKeepsMultiset<T>(s: seq<T>, sorted: seq<T>, n: nat, p: nat)
    requires n < |s| && p <= |sorted| && multiset(sorted) == multiset(s[..n])
    ensures multiset(sorted[..p] + [s[n]] + sorted[p..]) == multiset(s[..n + 1])
  {
    assert s[..n + 1] == s[..n] + [s[n]];
    assert sorted == sorted[..p] + sorted[p..];
  }

  /** The positions of the elements with a property. */
  function Where<T>(s: seq<T>, p: T -> bool): set<int> {
    set i | 0 <= i < |s| && p(s[i])
  }

  lemma WhereSnoc<T>(s: seq<T>, p: T -> bool)
    requires s != []
    ensures |Where(s, p)| == |Where(s[..|s| - 1], p)| + if p(s[|s| - 1]) then 1 else 0
  {
    var front := s[..|s| - 1];
    assert forall i :: 0 <= i < |front| ==> front[i] == s[i];
    assert Where(s, p) == Where(front, p) + if p(s[|s| - 1]) then {|s| - 1} else {};
  }

  function Top<T>(s: seq<T>, k: nat): seq<T> {
    if |s| > k then s[..k] else s
  }

  lemma TopSorted<T>(s: seq<T>, k: nat, less: (T, T) -> bool)
    requires Sorted(s, less)
    ensures Sorted(Top(s, k), less)
  {
  }

  lemma TopSubmultiset<T>(s: seq<T>, k: nat)
    ensures multiset(Top(s, k)) <= multiset(s)
  {
    if |s| > k {
      assert s == s[..k] + s[k..];
    }
  }

  /** Order by a number, largest first. */
  function Descending<T>(key: T -> int): (T, T) -> bool {
    (x: T, y: T) => key(x) > key(y)
  }

  lemma DescendingIsOrder<T(!new)>(key: T -> int)
    ensures StrictWeakOrder(Descending(key))
  {
  }

  // ----- how much of a cut list the sort's freedom leaves open

  function Keys<T>(s: seq<T>, key: T -> int): (r: seq<int>)
    ensures |r| == |s| && forall i :: 0 <= i < |s| ==> r[i] == key(s[i])
  {
    seq(|s|, i requires 0 <= i < |s| => key(s[i]))
  }

  predicate Falling(s: seq<int>) {
    forall i, j :: 0 <= i < j < |s| ==> s[i] >= s[j]
  }

  lemma MultisetWithout<T>(s: seq<T>, p: nat)
    requires p < |s|
    ensures multiset(s) == multiset(s[..p] + s[p + 1..]) + multiset{s[p]}
  {
    assert s == s[..p] + [s[p]] + s[p + 1..];
  }

  lemma RepeatedCounts<T>(s: seq<T>, i: nat, j: nat)
    requires i < j < |s| && s[i] == s[j]
    ensures multiset(s)[s[i]] >= 2
  {
    assert s[..j][i] == s[i] && s[j..][0] == s[j];
    assert s[i] in multiset(s[..j]) && s[j] in multiset(s[j..]);
    assert s == s[..j] + s[j..];
    assert multiset(s) == multiset(s[..j]) + multiset(s[j..]);
  }

  /** Permutations stay permutations when one common element is taken out of each. */
  lemma WithoutCommon<T>(s: seq<T>, p: nat, t: seq<T>, q: nat)
    requires p < |s| && q < |t| && s[p] == t[q] && multiset(s) == multiset(t)
    ensures multiset(s[..p] + s[p + 1..]) == multiset(t[..q] + t[q + 1..])
  {
    MultisetWithout(s, p);
    MultisetWithout(t, q);
    var one := multiset{s[p]};
    var a, b := multiset(s[..p] + s[p + 1..]), multiset(t[..q] + t[q + 1..]);
    assert a == (a + one) - one && b == (b + one) - one;
  }

  lemma HeadIsLargest(s: seq<int>, x: int)
    requires Falling(s) && x in multiset(s)
    ensures s != [] && x <= s[0]
  {
    assert x in s;
  }

  lemma HeadsAgree(s: seq<int>, t: seq<int>)
    requires s != [] && Falling(s) && Falling(t) && multiset(s) == multiset(t)
    ensures t != [] && s[0] == t[0]
  {
    assert s[0] in multiset(s);
    HeadIsLargest(t, s[0]);
    assert t[0] in multiset(t);
    HeadIsLargest(s, t[0]);
  }

  lemma TailsAgree(s: seq<int>, t: seq<int>)
    requires s != [] && t != [] && s[0] == t[0] && multiset(s) == multiset(t)
    ensures multiset(s[1..]) == multiset(t[1..])
  {
    WithoutCommon(s, 0, t, 0);
    assert s[..0] + s[0 + 1..] == s[1..];
    assert t[..0] + t[0 + 1..] == t[1..];
  }

  lemma {:induction false} FallingUnique(s: seq<int>, t: seq<int>)
    requires Falling(s) && Falling(t) && multiset(s) == multiset(t)
    ensures s == t
    decreases |s|
  {
    if s == [] {
      assert |multiset(t)| == |t|;
    } else {
      HeadsAgree(s, t);
      TailsAgree(s, t);
      FallingUnique(s[1..], t[1..]);
      assert s == [s[0]] + s[1..] && t == [t[0]] + t[1..];
    }
  }

  lemma KeysWithout<T>(s: seq<T>, p: nat, rest: seq<T>, key: T -> int)
    requires p < |s| && rest == s[..p] + s[p + 1..]
    ensures multiset(Keys(s, key)) == multiset(Keys(rest, key)) + multiset{key(s[p])}
  {
    MultisetWithout(Keys(s, key), p);
    assert Keys(s, key)[..p] + Keys(s, key)[p + 1..] == Keys(rest, key);
  }

  lemma {:induction false} KeysOfPermutation<T>(s: seq<T>, t: seq<T>, key: T -> int)
    requires multiset(s) == multiset(t)
    ensures multiset(Keys(s, key)) == multiset(Keys(t, key))
    decreases |s|
  {
    if s == [] {
      assert |multiset(t)| == |t|;
    } else {
      assert s[0] in multiset(s);
      assert s[0] in t;
      var p :| 0 <= p < |t| && t[p] == s[0];
      var s', t' := s[..0] + s[0 + 1..], t[..p] + t[p + 1..];
      WithoutCommon(s, 0, t, p);
      KeysOfPermutation(s', t', key);
      KeysWithout(s, 0, s', key);
      KeysWithout(t, p, t', key);
    }
  }

  /** Any two sorts of the same items show the same numbers, position by position. */
  lemma SortedKeysAgree<T(!new)>(items: seq<T>, a: seq<T>, b: seq<T>, key: T -> int)
    requires IsSortOf(items, a, Descending(key)) && IsSortOf(items, b, Descending(key))
    ensures |a| == |b| && Keys(a, key) == Keys(b, key)
  {
    KeysOfPermutation(a, b, key);
    FallingUnique(Keys(a, key), Keys(b, key));
  }

  lemma {:induction false} DistinctOnce<T>(s: seq<T>, x: T)
    requires forall i, j :: 0 <= i < j < |s| ==> s[i] != s[j]
    ensures multiset(s)[x] <= 1
    decreases |s|
  {
    if s != [] {
      assert s == [s[0]] + s[1..];
      DistinctOnce(s[1..], x);
      if s[0] == x {
        assert x !in s[1..];
      }
    }
  }

  lemma SubmultisetSize<T>(small: multiset<T>, large: multiset<T>)
    requires small <= large
    ensures |small| <= |large| && (|small| == |large| ==> small == large)
  {
    assert large == small + (large - small);
  }

  /** Below a value, in a sorted list: what is not below it is not followed by anything that is. */
  lemma NothingBelowLater<T(!new)>(b: seq<T>, i: nat, pivot: T, less: (T, T) -> bool)
    requires StrictWeakOrder(less) && Sorted(b, less) && i < |b| && !less(b[i], pivot)
    ensures forall j :: i <= j < |b| ==> !less(b[j], pivot)
  {
    forall j | i < j < |b|
      ensures !less(b[j], pivot)
    {
      assert !less(b[j], b[i]);
    }
  }

  /** When the cut does not split a tie, exactly the items below the first one cut off are kept. */
  lemma KeptBelowCut<T(!new)>(a: seq<T>, k: nat, less: (T, T) -> bool, x: T)
    requires StrictWeakOrder(less) && Sorted(a, less) && 1 <= k < |a| && less(a[k - 1], a[k])
    ensures multiset(a[..k])[x] == if less(x, a[k]) then multiset(a)[x] else 0
  {
    assert a == a[..k] + a[k..];
    assert multiset(a) == multiset(a[..k]) + multiset(a[k..]);
    if less(x, a[k]) {
      NothingBelowLater(a, k, a[k], less);
      assert x !in a[k..];
    } else {
      forall i | 0 <= i < k
        ensures a[i] != x
      {
        assert i < k - 1 ==> !less(a[k - 1], a[i]);
      }
      assert x !in a[..k];
    }
  }

  /** Any other sort has them in front as well. */
  lemma BelowComesFirst<T(!new)>(a: seq<T>, b: seq<T>, k: nat, less: (T, T) -> bool, i: nat)
    requires StrictWeakOrder(less) && Sorted(a, less) && Sorted(b, less) && multiset(a) == multiset(b)
    requires 1 <= k < |a| == |b| && less(a[k - 1], a[k]) && i < k
    ensures less(b[i], a[k])
  {
    if !less(b[i], a[k]) {
      NothingBelowLater(b, i, a[k], less);
      assert b == b[..i] + b[i..];
      assert multiset(b) == multiset(b[..i]) + multiset(b[i..]);
      forall x
        ensures multiset(a[..k])[x] <= multiset(b[..i])[x]
      {
        KeptBelowCut(a, k, less, x);
        if less(x, a[k]) {
          assert x !in b[i..];
        }
      }
      SubmultisetSize(multiset(a[..k]), multiset(b[..i]));
    }
  }

  lemma SameItemsKept<T(!new)>(a: seq<T>, b: seq<T>, k: nat, less: (T, T) -> bool)
    requires StrictWeakOrder(less) && Sorted(a, less) && Sorted(b, less) && multiset(a) == multiset(b)
    requires 1 <= k < |a| == |b| && less(a[k - 1], a[k])
    ensures multiset(a[..k]) == multiset(b[..k])
  {
    assert b == b[..k] + b[k..];
    assert multiset(b) == multiset(b[..k]) + multiset(b[k..]);
    forall x
      ensures multiset(b[..k])[x] <= multiset(a[..k])[x]
    {
      KeptBelowCut(a, k, less, x);
      if x in b[..k] {
        var i :| 0 <= i < k && b[i] == x;
        BelowComesFirst(a, b, k, less, i);
      }
    }
    SubmultisetSize(multiset(b[..k]), multiset(a[..k]));
  }

  /** If the cut falls between two items of equal rank, another legal sort keeps other items. */
  lemma TieLeavesChoice<T(!new)>(items: seq<T>, a: seq<T>, k: nat, less: (T, T) -> bool) returns (b: seq<T>)
    requires IsSortOf(items, a, less) && 1 <= k < |a| && !less(a[k - 1], a[k])
    requires forall i, j :: 0 <= i < j < |a| ==> a[i] != a[j]
    ensures IsSortOf(items, b, less) && multiset(Top(b, k)) != multiset(Top(a, k))
  {
    b := a[k - 1 := a[k]][k := a[k - 1]];
    assert b[..k][k - 1] == a[k];
    assert a[k] !in multiset(a[..k]) && a[k] in multiset(b[..k]);
    SwapKeepsSorted(a, b, k, less);
  }

  lemma SwapKeepsSorted<T(!new)>(a: seq<T>, b: seq<T>, k: nat, less: (T, T) -> bool)
    requires Sorted(a, less) && 1 <= k < |a| && !less(a[k - 1], a[k])
    requires b == a[k - 1 := a[k]][k := a[k - 1]]
    ensures Sorted(b, less)
  {
    forall i, j | 0 <= i < j < |b|
      ensures !less(b[j], b[i])
    {
      var i', j' := Swapped(i, k), Swapped(j, k);
      assert b[i] == a[i'] && b[j] == a[j'];
      assert i' < j' ==> !less(a[j'], a[i']);
    }
  }

  function Swapped(i: nat, k: nat): nat
    requires k >= 1
  {
    if i == k then k - 1 else if i == k - 1 then k else i
  }

  /**
   * Which items the cut keeps does not depend on the sort exactly when nothing
   * is cut off or the cut does not split a tie, for every order of the items.
   */
  lemma KeptItemsFixedIff<T(!new)>(items: seq<T>, a: seq<T>, k: nat, less: (T, T) -> bool)
    requires StrictWeakOrder(less) && IsSortOf(items, a, less) && k >= 1
    requires forall i, j :: 0 <= i < j < |a| ==> a[i] != a[j]
    ensures (forall b :: IsSortOf(items, b, less) ==> multiset(Top(b, k)) == multiset(Top(a, k)))
      <==> |a| <= k || less(a[k - 1], a[k])
  {
    if |a| <= k || less(a[k - 1], a[k]) {
      forall b | IsSortOf(items, b, less)
        ensures multiset(Top(b, k)) == multiset(Top(a, k))
      {
        assert |b| == |multiset(b)| == |multiset(a)| == |a|;
        if |a| > k {
          SameItemsKept(a, b, k, less);
        }
      }
    } else {
      var b := TieLeavesChoice(items, a, k, less);
    }
  }
}
