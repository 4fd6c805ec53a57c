/**
 Sorting a slice in place with a caller-supplied "less" function, standing
 for Go's (unstable) library sort, and the fact that makes sort-then-compare a sound way
 to compare two collections.
 */
module Sorting {

  /**
   `less` can drive a sort: it is asymmetric, and "not after" (the negation
   of `less` with its arguments swapped) is transitive.
   */
  ghost predicate StrictWeakOrder<T(!new)>(less: (T, T) -> bool)
  {
    && (forall x, y :: less(x, y) ==> !less(y, x))
    && (forall x, y, z :: !less(y, x) && !less(z, y) ==> !less(z, x))
  }

  /** No element comes after one that sorts before it. */
  predicate SortedBy<T>(s: seq<T>, less: (T, T) -> bool)
  {
    forall i, j :: 0 <= i < j < |s| ==> !less(s[j], s[i])
  }

  /** Any two different elements of `s` are ordered one way or the other. */
  ghost predicate TotalOn<T>(s: seq<T>, less: (T, T) -> bool)
  {
    forall x, y :: x in s && y in s ==> x == y || less(x, y) || less(y, x)
  }

  /** Sorts `a` in place by `less` (insertion sort). */
  method SortBy<T(!new)>(a: array<T>, less: (T, T) -> bool)
    requires StrictWeakOrder(less)
    modifies a
    ensures SortedBy(a[..], less)
    ensures multiset(a[..]) == multiset(old(a[..]))
  {
    var i := 0;
    while i < a.Length
      invariant 0 <= i <= a.Length
      invariant forall k, m :: 0 <= k < m < i ==> !less(a[m], a[k])
      invariant multiset(a[..]) == multiset(old(a[..]))
    {
      InsertIntoSortedPrefix(a, i, less);
      i := i + 1;
    }
  }

  /** Moves `a[i]` left into the sorted prefix `a[..i]` so that `a[..i + 1]` is sorted. */
  method InsertIntoSortedPrefix<T(!new)>(a: array<T>, i: nat, less: (T, T) -> bool)
    requires StrictWeakOrder(less)
    requires i < a.Length
    requires forall k, m :: 0 <= k < m < i ==> !less(a[m], a[k])
    modifies a
    ensures forall k, m :: 0 <= k < m <= i ==> !less(a[m], a[k])
    ensures multiset(a[..i + 1]) == multiset(old(a[..i + 1]))
    ensures a[i + 1..] == old(a[i + 1..])
    ensures multiset(a[..]) == multiset(old(a[..]))
  {
    var j := i;
    while j > 0 && less(a[j], a[j - 1])
      invariant 0 <= j <= i
      invariant forall k, m :: 0 <= k < m <= i && k != j && m != j ==> !less(a[m], a[k])
      invariant forall m :: j < m <= i ==> less(a[j], a[m])
      invariant multiset(a[..i + 1]) == multiset(old(a[..i + 1]))
      invariant a[i + 1..] == old(a[i + 1..])
    {
      a[j - 1], a[j] := a[j], a[j - 1];
      j := j - 1;
    }
    assert a[..] == a[..i + 1] + a[i + 1..];
    assert old(a[..]) == old(a[..i + 1]) + old(a[i + 1..]);
  }

  /** Taking out the element at `k` takes one copy of it out of the multiset. */
  lemma {:induction false} MultisetRemove<T>(s: seq<T>, k: nat)
    requires k < |s|
    ensures multiset(s) == multiset(s[..k] + s[k + 1..]) + multiset{s[k]}
    ensures multiset(s[..k] + s[k + 1..]) == multiset(s) - multiset{s[k]}
  {
    var r := s[..k] + s[k + 1..];
    assert s == s[..k] + [s[k]] + s[k + 1..];
    forall y
      ensures multiset(r)[y] == (multiset(s) - multiset{s[k]})[y]
    {
      assert multiset(s)[y] == multiset(r)[y] + multiset{s[k]}[y];
    }
  }

  /** Taking the same element out of two permutations leaves permutations. */
  lemma {:induction false} PermutationRemove<T>(s: seq<T>, t: seq<T>, k: nat)
    requires multiset(s) == multiset(t) && s != [] && k < |t| && t[k] == s[0]
    ensures multiset(s[1..]) == multiset(t[..k] + t[k + 1..])
  {
    MultisetRemove(t, k);
    assert s == [s[0]] + s[1..];
    assert multiset(s) == multiset{s[0]} + multiset(s[1..]);
    forall y
      ensures multiset(s[1..])[y] == multiset(t[..k] + t[k + 1..])[y]
    {
      assert multiset(s)[y] == multiset(t)[y];
    }
  }

  /** Sorted by an order total on their elements, two permutations start alike. */
  lemma {:induction false} SortedPermutationsSameHead<T>(s: seq<T>, t: seq<T>, less: (T, T) -> bool)
    requires SortedBy(s, less) && SortedBy(t, less) && multiset(s) == multiset(t)
    requires TotalOn(s, less)
    requires s != []
    ensures t != [] && s[0] == t[0]
  {
    assert s[0] in multiset(t);
    var k :| 0 <= k < |t| && t[k] == s[0];
    assert t[0] in multiset(s);
    var j :| 0 <= j < |s| && s[j] == t[0];
    assert k == 0 || !less(s[0], t[0]);
    assert j == 0 || !less(t[0], s[0]);
  }

  lemma {:induction false} SortedByTail<T>(s: seq<T>, less: (T, T) -> bool)
    requires SortedBy(s, less) && s != []
    ensures SortedBy(s[1..], less)
  {
  }

  lemma {:induction false} TotalOnTail<T>(s: seq<T>, less: (T, T) -> bool)
    requires TotalOn(s, less) && s != []
    ensures TotalOn(s[1..], less)
  {
    assert forall x :: x in s[1..] ==> x in s;
  }

  /** Two permutations that start alike are permutations after their first element. */
  lemma {:induction false} PermutationTails<T>(s: seq<T>, t: seq<T>)
    requires multiset(s) == multiset(t) && s != [] && t != [] && s[0] == t[0]
    ensures multiset(s[1..]) == multiset(t[1..])
  {
    assert s == [s[0]] + s[1..];
    assert t == [t[0]] + t[1..];
    assert multiset(s) == multiset{s[0]} + multiset(s[1..]);
    assert multiset(t) == multiset{s[0]} + multiset(t[1..]);
    forall y
      ensures multiset(s[1..])[y] == multiset(t[1..])[y]
    {
      assert multiset(s)[y] == multiset(t)[y];
    }
  }

  /**
   Two sequences holding the same elements, both sorted by an order that is
   total on those elements, are equal position by position.
   */
  lemma {:induction false} SortedPermutationsEqual<T>(s: seq<T>, t: seq<T>, less: (T, T) -> bool)
    requires SortedBy(s, less) && SortedBy(t, less) && multiset(s) == multiset(t)
    requires TotalOn(s, less)
    ensures s == t
    decreases |s|
  {
    if s == [] {
      assert |t| == |multiset(t)| == 0;
    } else {
      SortedPermutationsSameHead(s, t, less);
      SortedByTail(s, less);
      SortedByTail(t, less);
      TotalOnTail(s, less);
      PermutationTails(s, t);
      SortedPermutationsEqual(s[1..], t[1..], less);
      assert s == [s[0]] + s[1..] && t == [t[0]] + t[1..];
    }
  }
}
