/** Sizes of sets of indices and of lists without repetition. */
module Finite {

  lemma CountedTwice(list: seq<nat>, i: nat, j: nat)
    requires i < j < |list| && list[i] == list[j]
    ensures multiset(list)[list[i]] >= 2
  {
    assert list == list[..i] + [list[i]] + list[i + 1..j] + [list[j]] + list[j + 1..];
  }

  lemma {:induction false} IndexSetSize(s: set<nat>, n: nat)
    requires forall v :: v in s ==> v < n
    ensures |s| <= n
    decreases n
  {
    if n > 0 {
      IndexSetSize(s - {n - 1}, n - 1);
      assert |s| <= |s - {n - 1}| + 1;
    } else {
      assert s == {};
    }
  }

  lemma {:induction false} SubsetSize(a: set<nat>, b: set<nat>)
    requires a <= b
    ensures |a| <= |b|
  {
    assert b == a + (b - a);
  }

  lemma {:induction false} DistinctSize(list: seq<nat>)
    requires forall i, j :: 0 <= i < j < |list| ==> list[i] != list[j]
    ensures |set i | 0 <= i < |list| :: list[i]| == |list|
  {
    var all := set i | 0 <= i < |list| :: list[i];
    if list == [] {
      assert all == {};
    } else {
      var m := |list| - 1;
      DistinctSize(list[..m]);
      var rest := set i | 0 <= i < m :: list[..m][i];
      assert all == rest + {list[m]};
    }
  }

  lemma {:induction false} Pigeonhole(list: seq<nat>, n: nat)
    requires forall i :: 0 <= i < |list| ==> list[i] < n
    requires forall i, j :: 0 <= i < j < |list| ==> list[i] != list[j]
    ensures |list| <= n
  {
    var all := set i | 0 <= i < |list| :: list[i];
    IndexSetSize(all, n);
    DistinctSize(list);
  }
}
