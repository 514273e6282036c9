/** `Array.prototype.sort(comparefn)`: an in-place sort of an array by a
    comparator returning a negative, zero or positive number. */
module Sorting {

  /** The comparator requirements the sort relies on: a positive answer one way
      is a negative answer the other way, and "may precede" is transitive.
      ECMAScript leaves the order unspecified for comparators that break them. */
  ghost predicate Consistent<T(!new)>(compare: (T, T) -> int) {
    && (forall x, y {:trigger Answer(compare, x, y)} ::
          Answer(compare, x, y) > 0 ==> Answer(compare, y, x) < 0)
    && (forall x, y, z {:trigger Answer(compare, x, y), Answer(compare, y, z)} ::
          Answer(compare, x, y) <= 0 && Answer(compare, y, z) <= 0 ==> Answer(compare, x, z) <= 0)
  }

  /** The comparator's answer for `x` and `y`; naming it keeps the two
      requirements above from being applied where no proof asks for them. */
  ghost function Answer<T>(compare: (T, T) -> int, x: T, y: T): int {
    compare(x, y)
  }

  /** No element is placed before one the comparator says it must follow. */
  ghost predicate SortedWith<T>(compare: (T, T) -> int, s: seq<T>) {
    forall i, j :: 0 <= i < j < |s| ==> compare(s[i], s[j]) <= 0
  }

  /** Sorts `a` in place by insertion; an already ordered array is left as it is. */
  method SortInPlace<T(!new)>(a: array<T>, compare: (T, T) -> int)
    requires Consistent(compare)
    modifies a
    ensures SortedWith(compare, a[..])
    ensures multiset(a[..]) == multiset(old(a[..]))
    ensures SortedWith(compare, old(a[..])) ==> a[..] == old(a[..])
  {
    var i := 0;
    while i < a.Length
      invariant 0 <= i <= a.Length
      invariant SortedWith(compare, a[..i])
      invariant multiset(a[..]) == multiset(old(a[..]))
      invariant SortedWith(compare, old(a[..])) ==> a[..] == old(a[..])
    {
      Insert(a, i, compare);
      i := i + 1;
    }
    assert a[..a.Length] == a[..];
  }

  /** Moves `a[i]` left into the ordered prefix `a[..i]`, one swap at a time,
      until its left neighbour may precede it. */
  method Insert<T(!new)>(a: array<T>, i: nat, compare: (T, T) -> int)
    requires i < a.Length
    requires Consistent(compare)
    requires SortedWith(compare, a[..i])
    modifies a
    ensures SortedWith(compare, a[..i + 1])
    ensures multiset(a[..]) == multiset(old(a[..]))
    ensures (i == 0 || compare(old(a[i - 1]), old(a[i])) <= 0) ==> unchanged(a)
  {
    var j := i;
    while 0 < j && compare(a[j - 1], a[j]) > 0
      invariant 0 <= j <= i
      invariant multiset(a[..]) == multiset(old(a[..]))
      invariant Inserting(compare, a[..], i, j)
      invariant j < i ==> compare(old(a[i - 1]), old(a[i])) > 0
      invariant j == i ==> unchanged(a)
    {
      ghost var before := a[..];
      SwapKeepsInserting(compare, before, i, j);
      a[j - 1], a[j] := a[j], a[j - 1];
      assert a[..] == Swap(before, j);
      j := j - 1;
    }
    InsertingDone(compare, a[..], i, j);
  }

  /** The state of `Insert` after moving the new element to index `j`: the
      first `i + 1` elements are in order except around index `j`, and the
      element at `j` may precede everything it has passed. */
  ghost predicate Inserting<T>(compare: (T, T) -> int, s: seq<T>, i: nat, j: nat)
    requires j <= i < |s|
  {
    && (forall k, l :: 0 <= k < l <= i && k != j && l != j ==> compare(s[k], s[l]) <= 0)
    && (forall l :: j < l <= i ==> compare(s[j], s[l]) <= 0)
  }

  /** `s` with the elements at `j - 1` and `j` exchanged. */
  ghost function Swap<T>(s: seq<T>, j: nat): (r: seq<T>)
    requires 0 < j < |s|
    ensures multiset(r) == multiset(s)
  {
    s[j - 1 := s[j]][j := s[j - 1]]
  }

  lemma SwapKeepsInserting<T(!new)>(compare: (T, T) -> int, s: seq<T>, i: nat, j: nat)
    requires Consistent(compare)
    requires 0 < j <= i < |s|
    requires Inserting(compare, s, i, j)
    requires compare(s[j - 1], s[j]) > 0
    ensures Inserting(compare, Swap(s, j), i, j - 1)
  {
    assert Answer(compare, s[j - 1], s[j]) > 0;
  }

  lemma InsertingDone<T(!new)>(compare: (T, T) -> int, s: seq<T>, i: nat, j: nat)
    requires Consistent(compare)
    requires j <= i < |s|
    requires Inserting(compare, s, i, j)
    requires j == 0 || compare(s[j - 1], s[j]) <= 0
    ensures SortedWith(compare, s[..i + 1])
  {
    forall k, l | 0 <= k < l <= i
      ensures compare(s[k], s[l]) <= 0
    {
      if l == j && k < j - 1 {
        assert Answer(compare, s[k], s[j - 1]) <= 0 && Answer(compare, s[j - 1], s[j]) <= 0;
      }
    }
  }
}
