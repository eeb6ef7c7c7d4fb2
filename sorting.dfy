/**
 * Rust's stable `sort_by` / `sort_by_key`, used in place by `compress_images`,
 * `discover_plugins` and `gallery_list_hosts`. Under a total preorder every stable sort gives
 * the same result, so it is modelled by stable insertion sort: `SortBy` states that result as
 * a function, and `SortInPlace` computes it on an array.
 */
module Sorting {

  /** Neighbours are in order. */
  predicate SortedBy<T>(s: seq<T>, le: (T, T) -> bool) {
    forall i :: 0 < i < |s| ==> le(s[i - 1], s[i])
  }

  /** `le` is total and transitive, as every comparator the source passes to `sort_by` is. */
  ghost predicate TotalPreorder<T(!new)>(le: (T, T) -> bool) {
    (forall a, b :: le(a, b) || le(b, a)) &&
    (forall a, b, c :: le(a, b) && le(b, c) ==> le(a, c))
  }

  /** Puts `x` after every trailing element of `t` that is greater than it (stability). */
  function Insert<T>(t: seq<T>, x: T, le: (T, T) -> bool): (r: seq<T>)
    ensures |r| == |t| + 1
    decreases |t|
  {
    if |t| == 0 || le(t[|t| - 1], x) then t + [x]
    else Insert(t[..|t| - 1], x, le) + [t[|t| - 1]]
  }

  /** The stable sort of `s`: its elements inserted one after another, left to right. */
  function SortBy<T>(s: seq<T>, le: (T, T) -> bool): (r: seq<T>)
    ensures |r| == |s|
    decreases |s|
  {
    if |s| == 0 then []
    else Insert(SortBy(s[..|s| - 1], le), s[|s| - 1], le)
  }

  /** Where `Insert` puts `x`: just after the last element that is not greater than it. */
  lemma {:induction false} InsertAt<T>(t: seq<T>, x: T, le: (T, T) -> bool, j: nat)
    requires j <= |t|
    requires j == 0 || le(t[j - 1], x)
    requires forall k :: j <= k < |t| ==> !le(t[k], x)
    ensures Insert(t, x, le) == t[..j] + [x] + t[j..]
    decreases |t|
  {
    if j < |t| {
      var u := t[..|t| - 1];
      var last := t[|t| - 1];
      assert Insert(t, x, le) == Insert(u, x, le) + [last] by {
        assert !le(last, x);
      }
      assert j == 0 || le(u[j - 1], x);
      assert forall k :: j <= k < |u| ==> !le(u[k], x) by {
        forall k | j <= k < |u| ensures !le(u[k], x) {
          assert u[k] == t[k];
        }
      }
      InsertAt(u, x, le, j);
      SplitBeforeLast(t, j);
    } else {
      assert t[j..] == [] && t[..j] == t;
    }
  }

  lemma SplitBeforeLast<T>(t: seq<T>, j: nat)
    requires j < |t|
    ensures t[..j] + t[j..] == t
    ensures t[..j] == t[..|t| - 1][..j]
    ensures t[j..] == t[..|t| - 1][j..] + [t[|t| - 1]]
  {
  }

  /** Sorting what is already sorted changes nothing. */
  lemma {:induction false} SortedIsFixpoint<T>(s: seq<T>, le: (T, T) -> bool)
    requires SortedBy(s, le)
    ensures SortBy(s, le) == s
    decreases |s|
  {
    if |s| > 0 {
      var u := s[..|s| - 1];
      assert SortedBy(u, le);
      SortedIsFixpoint(u, le);
      assert s == u + [s[|s| - 1]];
    }
  }

  /** Inserting into a sorted sequence keeps it sorted. */
  lemma {:induction false} InsertKeepsSorted<T(!new)>(t: seq<T>, x: T, le: (T, T) -> bool)
    requires TotalPreorder(le)
    requires SortedBy(t, le)
    ensures SortedBy(Insert(t, x, le), le)
    decreases |t|
  {
    if |t| > 0 && !le(t[|t| - 1], x) {
      var u := t[..|t| - 1];
      assert SortedBy(u, le);
      InsertKeepsSorted(u, x, le);
      var r := Insert(u, x, le);
      var last := t[|t| - 1];
      assert le(x, last);
      // the last element of `r` is either `x` or the last element of `u`, both below `last`
      if |u| > 0 && le(u[|u| - 1], x) {
        assert r[|r| - 1] == x;
      } else if |u| > 0 {
        assert r == Insert(u[..|u| - 1], x, le) + [u[|u| - 1]];
        assert le(u[|u| - 1], last);
      }
      assert r + [last] == Insert(t, x, le);
    }
  }

  /** The output of `SortBy` is sorted. */
  lemma {:induction false} SortBySorted<T(!new)>(s: seq<T>, le: (T, T) -> bool)
    requires TotalPreorder(le)
    ensures SortedBy(SortBy(s, le), le)
    decreases |s|
  {
    if |s| > 0 {
      SortBySorted(s[..|s| - 1], le);
      InsertKeepsSorted(SortBy(s[..|s| - 1], le), s[|s| - 1], le);
    }
  }

  /** Inserting adds exactly `x`. */
  lemma {:induction false} InsertPermutes<T>(t: seq<T>, x: T, le: (T, T) -> bool)
    ensures multiset(Insert(t, x, le)) == multiset(t) + multiset{x}
    decreases |t|
  {
    if |t| > 0 && !le(t[|t| - 1], x) {
      var u := t[..|t| - 1];
      InsertPermutes(u, x, le);
      assert t == u + [t[|t| - 1]];
    }
  }

  /** Sorting is a permutation. */
  lemma {:induction false} SortByPermutes<T>(s: seq<T>, le: (T, T) -> bool)
    ensures multiset(SortBy(s, le)) == multiset(s)
    decreases |s|
  {
    if |s| > 0 {
      var u := s[..|s| - 1];
      SortByPermutes(u, le);
      var x := s[|s| - 1];
      assert SortBy(s, le) == Insert(SortBy(u, le), x, le);
      InsertPermutes(SortBy(u, le), x, le);
      assert s == u + [x];
      assert multiset(s) == multiset(u) + multiset{x};
    }
  }

  /** Sorting keeps every element and adds none. */
  lemma SortByElements<T>(s: seq<T>, le: (T, T) -> bool)
    ensures forall x :: x in SortBy(s, le) <==> x in s
  {
    var r := SortBy(s, le);
    SortByPermutes(s, le);
    forall x ensures x in r <==> x in s {
      assert x in r <==> x in multiset(r);
      assert x in s <==> x in multiset(s);
    }
  }

  /** `slice::sort_by(le)` in place: stable insertion sort. */
  method SortInPlace<T>(a: array<T>, le: (T, T) -> bool)
    modifies a
    ensures a[..] == SortBy(old(a[..]), le)
  {
    ghost var s := a[..];
    var i := 0;
    while i < a.Length
      invariant 0 <= i <= a.Length
      invariant a[..i] == SortBy(s[..i], le)
      invariant a[i..] == s[i..]
    {
      InsertStep(a, i, le);
      assert s[..i + 1][..i] == s[..i];
      i := i + 1;
    }
    assert s[..a.Length] == s;
  }

  /** One pass of the insertion sort: moves `a[i]` left into the sorted prefix `a[..i]`. */
  method InsertStep<T>(a: array<T>, i: nat, le: (T, T) -> bool)
    requires i < a.Length
    modifies a
    ensures a[..i + 1] == Insert(old(a[..i]), old(a[i]), le)
    ensures a[i + 1..] == old(a[i + 1..])
  {
    var x := a[i];
    ghost var t := a[..i];
    var j := i;
    while j > 0 && !le(a[j - 1], x)
      invariant 0 <= j <= i
      invariant a[..j] == t[..j]
      invariant a[j + 1..i + 1] == t[j..i]
      invariant forall k :: j <= k < i ==> !le(t[k], x)
      invariant a[i + 1..] == old(a[i + 1..])
    {
      a[j] := a[j - 1];
      assert a[j..i + 1] == [t[j - 1]] + t[j..i];
      assert t[j - 1..i] == [t[j - 1]] + t[j..i];
      j := j - 1;
    }
    ghost var rest := a[j + 1..i + 1];
    a[j] := x;
    assert a[..i + 1] == a[..j] + [x] + a[j + 1..i + 1];
    assert a[..j] == t[..j] && a[j + 1..i + 1] == rest;
    InsertAt(t, x, le, j);
  }
}
