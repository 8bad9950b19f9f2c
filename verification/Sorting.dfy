/** Sorting in place, as the programs' library sorts do it: an ordered permutation. */
module Sorting {

  /** x may stand before y, for either direction of the comparison passed to the sort. */
  predicate Before(descending: bool, x: nat, y: nat) {
    if descending then x >= y else x <= y
  }

  ghost predicate Ordered(descending: bool, s: seq<nat>) {
    forall i, j :: 0 <= i < j < |s| ==> Before(descending, s[i], s[j])
  }

  /** Moves the element at position n into its place among the ordered elements before it. */
  method Insert(a: array<nat>, n: nat, descending: bool)
    requires n < a.Length && Ordered(descending, a[..n])
    modifies a
    ensures multiset(a[..]) == old(multiset(a[..]))
    ensures Ordered(descending, a[..n + 1])
  {
    ghost var was := a[..];
    var j := n;
    while j > 0 && !Before(descending, a[j - 1], a[j])
      invariant 0 <= j <= n
      invariant forall x :: 0 <= x < a.Length ==> a[x] == Moved(was, n, j, x)
      invariant forall x :: j <= x < n ==> Before(descending, was[n], was[x])
    {
      a[j - 1], a[j] := a[j], a[j - 1];
      j := j - 1;
    }
    MovedIsPermutation(was, n, j, a[..]);
    MovedIsOrdered(was, n, j, a[..], descending);
  }

  /** Element x of s after the element at position n has been moved down to position j. */
  ghost function Moved(s: seq<nat>, n: nat, j: nat, x: nat): nat
    requires j <= n < |s| && x < |s|
  {
    if x < j || x > n then s[x] else if x == j then s[n] else s[x - 1]
  }

  lemma MovedIsPermutation(s: seq<nat>, n: nat, j: nat, r: seq<nat>)
    requires j <= n < |s| == |r|
    requires forall x :: 0 <= x < |s| ==> r[x] == Moved(s, n, j, x)
    ensures multiset(r) == multiset(s)
  {
    assert s == s[..j] + s[j..n] + [s[n]] + s[n + 1..];
    assert r == s[..j] + [s[n]] + s[j..n] + s[n + 1..];
  }

  lemma MovedIsOrdered(s: seq<nat>, n: nat, j: nat, r: seq<nat>, descending: bool)
    requires j <= n < |s| == |r|
    requires forall x :: 0 <= x < |s| ==> r[x] == Moved(s, n, j, x)
    requires Ordered(descending, s[..n])
    requires j > 0 ==> Before(descending, s[j - 1], s[n])
    requires forall x :: j <= x < n ==> Before(descending, s[n], s[x])
    ensures Ordered(descending, r[..n + 1])
  {
    assert r[..n + 1] == s[..j] + [s[n]] + s[j..n];
    assert s[..n] == s[..j] + s[j..n];
    InsertedKeepsOrder(s[..j], s[n], s[j..n], descending);
  }

  lemma InsertedKeepsOrder(front: seq<nat>, x: nat, back: seq<nat>, descending: bool)
    requires Ordered(descending, front + back)
    requires front != [] ==> Before(descending, front[|front| - 1], x)
    requires forall k :: 0 <= k < |back| ==> Before(descending, x, back[k])
    ensures Ordered(descending, front + [x] + back)
  {
    var r, s := front + [x] + back, front + back;
    forall i, j | 0 <= i < j < |r|
      ensures Before(descending, r[i], r[j])
    {
      if j < |front| || |front| < i {
        var i', j' := if i < |front| then i else i - 1, if j < |front| then j else j - 1;
        assert Before(descending, s[i'], s[j']);
      } else if j == |front| {
        assert i == j - 1 || Before(descending, s[i], s[j - 1]);
      } else if i < |front| {
        assert Before(descending, s[i], s[j - 1]);
      }
    }
  }

  /** The in-place sort the program calls. */
  method SortSlice(a: array<nat>, descending: bool)
    modifies a
    ensures multiset(a[..]) == old(multiset(a[..]))
    ensures Ordered(descending, a[..])
  {
    for n := 0 to a.Length
      invariant multiset(a[..]) == old(multiset(a[..]))
      invariant Ordered(descending, a[..n])
    {
      Insert(a, n, descending);
    }
    assert a[..] == a[..a.Length];
  }
}
