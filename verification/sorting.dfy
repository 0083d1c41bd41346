/** Python's `sorted` on a list of integers. An insertion sort stands in for
    Timsort; `SortIsTheSortedPermutation` shows the choice cannot matter, because a
    list of integers has exactly one ascending rearrangement. */
module Sorting {

  predicate Sorted(s: seq<int>)
  {
    forall i, j :: 0 <= i < j < |s| ==> s[i] <= s[j]
  }

  predicate StrictlyIncreasing(s: seq<int>)
  {
    forall i, j :: 0 <= i < j < |s| ==> s[i] < s[j]
  }

  predicate Distinct(s: seq<int>)
  {
    forall i, j :: 0 <= i < j < |s| ==> s[i] != s[j]
  }

  /** Insert `x` into an ascending list, keeping it ascending and keeping every element. */
  function Insert(x: int, s: seq<int>): (r: seq<int>)
    requires Sorted(s)
    ensures Sorted(r)
    ensures multiset(r) == multiset(s) + multiset{x}
    ensures StrictlyIncreasing(s) && x !in s ==> StrictlyIncreasing(r)
  {
    if |s| == 0 then [x]
    else if x <= s[0] then
      assert x !in s ==> x < s[0];
      [x] + s
    else
      var rest := Insert(x, s[1..]);
      ConsBelow(s, x, rest);
      [s[0]] + rest
  }

  /** Putting the head of `s` in front of an ascending rearrangement of its tail plus
      a larger `x` gives an ascending rearrangement of `s` plus `x`. */
  lemma ConsBelow(s: seq<int>, x: int, rest: seq<int>)
    requires Sorted(s) && |s| > 0 && s[0] < x
    requires Sorted(rest) && multiset(rest) == multiset(s[1..]) + multiset{x}
    requires StrictlyIncreasing(s[1..]) && x !in s[1..] ==> StrictlyIncreasing(rest)
    ensures Sorted([s[0]] + rest)
    ensures multiset([s[0]] + rest) == multiset(s) + multiset{x}
    ensures StrictlyIncreasing(s) && x !in s ==> StrictlyIncreasing([s[0]] + rest)
  {
    assert s == [s[0]] + s[1..];
    LowerBound(s[0], rest, s[1..], x);
  }

  /** Every element of a rearrangement of `t` plus `x` is at least `lo`
      when `lo` bounds `t` and `x` from below. */
  lemma LowerBound(lo: int, r: seq<int>, t: seq<int>, x: int)
    requires multiset(r) == multiset(t) + multiset{x}
    requires lo < x && forall k :: 0 <= k < |t| ==> lo <= t[k]
    ensures forall k :: 0 <= k < |r| ==> lo <= r[k]
    ensures (forall k :: 0 <= k < |t| ==> lo < t[k]) ==> forall k :: 0 <= k < |r| ==> lo < r[k]
  {
    forall k | 0 <= k < |r|
      ensures lo <= r[k]
      ensures (forall k' :: 0 <= k' < |t| ==> lo < t[k']) ==> lo < r[k]
    {
      assert r[k] in multiset(r);
      if r[k] != x {
        assert r[k] in multiset(t);
        var k' :| 0 <= k' < |t| && t[k'] == r[k];
      }
    }
  }

  /** `sorted(s)`: the ascending rearrangement of `s`; a list without repeats
      comes out strictly increasing. */
  function Sort(s: seq<int>): (r: seq<int>)
    ensures Sorted(r)
    ensures multiset(r) == multiset(s)
    ensures |r| == |s|
    ensures Distinct(s) ==> StrictlyIncreasing(r)
  {
    if |s| == 0 then []
    else
      var rest := Sort(s[1..]);
      ConsFacts(s);
      var r := Insert(s[0], rest);
      assert |r| == |multiset(r)|;
      r
  }

  /** A non-empty list is its head before its tail, and without repeats its head
      does not occur in its tail. */
  lemma ConsFacts(s: seq<int>)
    requires |s| > 0
    ensures multiset(s) == multiset(s[1..]) + multiset{s[0]}
    ensures Distinct(s) ==> Distinct(s[1..]) && s[0] !in multiset(s[1..])
  {
    assert s == [s[0]] + s[1..];
    if Distinct(s) {
      assert forall i, j :: 0 <= i < j < |s[1..]| ==> s[1..][i] == s[i + 1] && s[1..][j] == s[j + 1];
      assert forall i :: 0 <= i < |s[1..]| ==> s[1..][i] != s[0];
    }
  }

  /** Two ascending lists with the same elements are the same list. */
  lemma {:induction false} SortedUnique(a: seq<int>, b: seq<int>)
    requires Sorted(a) && Sorted(b)
    requires multiset(a) == multiset(b)
    ensures a == b
  {
    assert |a| == |multiset(a)| == |multiset(b)| == |b|;
    if |a| > 0 {
      SameHead(a, b);
      SameTail(a, b);
      SortedUnique(a[1..], b[1..]);
      assert a == [a[0]] + a[1..];
      assert b == [b[0]] + b[1..];
    }
  }

  /** Non-empty ascending lists with the same elements start with the same (least) element. */
  lemma SameHead(a: seq<int>, b: seq<int>)
    requires Sorted(a) && Sorted(b) && |a| > 0 && |b| > 0
    requires multiset(a) == multiset(b)
    ensures a[0] == b[0]
  {
    assert a[0] in multiset(b);
    assert b[0] in multiset(a);
    var i :| 0 <= i < |b| && b[i] == a[0];
    var j :| 0 <= j < |a| && a[j] == b[0];
    assert b[0] <= b[i] && a[0] <= a[j];
  }

  /** Removing the same first element from two rearrangements leaves rearrangements. */
  lemma SameTail(a: seq<int>, b: seq<int>)
    requires |a| > 0 && |b| > 0 && a[0] == b[0]
    requires multiset(a) == multiset(b)
    ensures multiset(a[1..]) == multiset(b[1..])
  {
    assert a == [a[0]] + a[1..];
    assert b == [b[0]] + b[1..];
    assert multiset(a[1..]) == multiset(a) - multiset{a[0]};
    assert multiset(b[1..]) == multiset(b) - multiset{b[0]};
  }

  /** Any ascending rearrangement of `s` (Timsort's included) is `Sort(s)`. */
  lemma SortIsTheSortedPermutation(s: seq<int>, t: seq<int>)
    requires Sorted(t) && multiset(t) == multiset(s)
    ensures t == Sort(s)
  {
    SortedUnique(t, Sort(s));
  }
}
