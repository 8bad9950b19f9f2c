/**
  Triangle counting of include/scea/algo/tc.hpp on adjacency lists: sort every list,
  then for every ascending pair of edges look up the closing edge.
 */
module Triangles {
  import opened Finite
  import opened Sorting
  import opened MutableGraph

  ghost predicate Adj(g: seq<seq<nat>>, u: nat, v: nat) {
    u < |g| && v in g[u]
  }

  /** All targets are vertices, and no edge comes twice. */
  ghost predicate Plain(g: seq<seq<nat>>) {
    forall u :: 0 <= u < |g| ==> PlainList(g[u], |g|)
  }

  ghost predicate PlainList(list: seq<nat>, n: nat) {
    (forall v :: v in list ==> v < n) && forall i, j :: 0 <= i < j < |list| ==> list[i] != list[j]
  }

  ghost predicate Symmetric(g: seq<seq<nat>>) {
    forall u: nat, v: nat :: Adj(g, u, v) ==> Adj(g, v, u)
  }

  // ---------- What is counted ----------

  ghost predicate IsClique(g: seq<seq<nat>>, a: nat, b: nat, c: nat) {
    && a != b && b != c && a != c
    && Adj(g, a, b) && Adj(g, b, a) && Adj(g, b, c) && Adj(g, c, b) && Adj(g, a, c) && Adj(g, c, a)
  }

  /** The sets of three vertices that are all joined to each other. */
  ghost function Cliques(g: seq<seq<nat>>): set<set<nat>> {
    set a: nat, b: nat, c: nat | a < |g| && b < |g| && c < |g| && IsClique(g, a, b, c) :: {a, b, c}
  }

  ghost predicate Ascending(g: seq<seq<nat>>, t: (nat, nat, nat)) {
    t.0 < t.1 < t.2 && Adj(g, t.0, t.1) && Adj(g, t.1, t.2) && Adj(g, t.0, t.2)
  }

  /** Ascending triples with all three edges. */
  ghost function Triples(g: seq<seq<nat>>): set<(nat, nat, nat)> {
    set a: nat, b: nat, c: nat | a < |g| && b < |g| && c < |g| && Ascending(g, (a, b, c)) :: (a, b, c)
  }

  ghost function SetOf(t: (nat, nat, nat)): set<nat> {
    {t.0, t.1, t.2}
  }

  ghost function SetsOf(triples: set<(nat, nat, nat)>): set<set<nat>> {
    set t | t in triples :: SetOf(t)
  }

  /** Ascending triples with the same members are the same. */
  lemma SameSet(t: (nat, nat, nat), u: (nat, nat, nat))
    requires t.0 < t.1 < t.2 && u.0 < u.1 < u.2 && SetOf(t) == SetOf(u)
    ensures t == u
  {
    assert t.0 in SetOf(u) && t.1 in SetOf(u) && t.2 in SetOf(u);
    assert u.0 in SetOf(t) && u.1 in SetOf(t) && u.2 in SetOf(t);
  }

  lemma {:induction false} SetsSize(triples: set<(nat, nat, nat)>)
    requires forall t :: t in triples ==> t.0 < t.1 < t.2
    ensures |SetsOf(triples)| == |triples|
    decreases |triples|
  {
    if triples == {} {
      assert SetsOf(triples) == {};
    } else {
      var t :| t in triples;
      var rest := triples - {t};
      SetsSize(rest);
      assert SetOf(t) !in SetsOf(rest) by {
        forall u | u in rest
          ensures SetOf(u) != SetOf(t)
        {
          if SetOf(u) == SetOf(t) {
            SameSet(u, t);
          }
        }
      }
      assert SetsOf(triples) == SetsOf(rest) + {SetOf(t)};
    }
  }

  /** In a symmetric graph every clique is counted exactly once, as its ascending triple. */
  lemma CliquesAreTriples(g: seq<seq<nat>>)
    requires Plain(g) && Symmetric(g)
    ensures |Cliques(g)| == |Triples(g)|
  {
    SetsSize(Triples(g));
    forall s | s in Cliques(g)
      ensures s in SetsOf(Triples(g))
    {
      var a: nat, b: nat, c: nat :| a < |g| && b < |g| && c < |g| && IsClique(g, a, b, c) && s == {a, b, c};
      var t := Sorted3(g, a, b, c);
      assert t in Triples(g);
    }
    forall s | s in SetsOf(Triples(g))
      ensures s in Cliques(g)
    {
      var t :| t in Triples(g) && s == SetOf(t);
      assert IsClique(g, t.0, t.1, t.2);
    }
    assert Cliques(g) == SetsOf(Triples(g));
  }

  lemma Sorted3(g: seq<seq<nat>>, a: nat, b: nat, c: nat) returns (t: (nat, nat, nat))
    requires IsClique(g, a, b, c)
    ensures Ascending(g, t) && SetOf(t) == {a, b, c} && t.0 < |g| && t.1 < |g| && t.2 < |g|
  {
    if a < b {
      t := if b < c then (a, b, c) else if a < c then (a, c, b) else (c, a, b);
    } else {
      t := if a < c then (b, a, c) else if b < c then (b, c, a) else (c, b, a);
    }
  }

  // ---------- The count ----------

  /** The triples that start with v0 and one of the first i edges of v0. */
  ghost function StartingAt(g: seq<seq<nat>>, v0: nat, i: nat): set<(nat, nat, nat)>
    requires v0 < |g| && i <= |g[v0]|
  {
    set t | t in Triples(g) && t.0 == v0 && t.1 in g[v0][..i]
  }

  /** The triples that start with v0 and v1 and end with one of the first j edges of v1. */
  ghost function ClosedBy(g: seq<seq<nat>>, v0: nat, v1: nat, j: nat): set<(nat, nat, nat)>
    requires v1 < |g| && j <= |g[v1]|
  {
    set t | t in Triples(g) && t.0 == v0 && t.1 == v1 && t.2 in g[v1][..j]
  }

  ghost function StartingBelow(g: seq<seq<nat>>, v: nat): set<(nat, nat, nat)> {
    set t | t in Triples(g) && t.0 < v
  }

  lemma NextClosing(g: seq<seq<nat>>, v0: nat, v1: nat, j: nat)
    requires Plain(g) && v0 < v1 && Adj(g, v0, v1) && v1 < |g| && j < |g[v1]|
    ensures |ClosedBy(g, v0, v1, j + 1)| ==
      |ClosedBy(g, v0, v1, j)| + if v1 < g[v1][j] && Adj(g, v0, g[v1][j]) then 1 else 0
  {
    var v2 := g[v1][j];
    FreshTarget(g, v1, j);
    if v1 < v2 && Adj(g, v0, v2) {
      NewTriple(g, v0, v1, j);
    } else {
      NoTriple(g, v0, v1, j);
    }
  }

  lemma FreshTarget(g: seq<seq<nat>>, v1: nat, j: nat)
    requires Plain(g) && v1 < |g| && j < |g[v1]|
    ensures g[v1][..j + 1] == g[v1][..j] + [g[v1][j]] && g[v1][j] < |g| && g[v1][j] !in g[v1][..j]
  {
    assert PlainList(g[v1], |g|);
    assert g[v1][j] in g[v1];
  }

  lemma NewTriple(g: seq<seq<nat>>, v0: nat, v1: nat, j: nat)
    requires v0 < v1 < |g| && Adj(g, v0, v1) && j < |g[v1]| && v1 < g[v1][j] && Adj(g, v0, g[v1][j])
    requires g[v1][..j + 1] == g[v1][..j] + [g[v1][j]] && g[v1][j] < |g| && g[v1][j] !in g[v1][..j]
    ensures |ClosedBy(g, v0, v1, j + 1)| == |ClosedBy(g, v0, v1, j)| + 1
  {
    var t := (v0, v1, g[v1][j]);
    assert Ascending(g, t);
    assert t in Triples(g);
    hide Triples;
    assert ClosedBy(g, v0, v1, j + 1) == ClosedBy(g, v0, v1, j) + {t};
  }

  lemma NoTriple(g: seq<seq<nat>>, v0: nat, v1: nat, j: nat)
    requires v1 < |g| && j < |g[v1]| && !(v1 < g[v1][j] && Adj(g, v0, g[v1][j]))
    requires g[v1][..j + 1] == g[v1][..j] + [g[v1][j]]
    ensures ClosedBy(g, v0, v1, j + 1) == ClosedBy(g, v0, v1, j)
  {
  }

  lemma NextStart(g: seq<seq<nat>>, v0: nat, i: nat)
    requires Plain(g) && v0 < |g| && i < |g[v0]| && g[v0][i] < |g|
    ensures |StartingAt(g, v0, i + 1)| ==
      |StartingAt(g, v0, i)| + if v0 < g[v0][i] then |ClosedBy(g, v0, g[v0][i], |g[g[v0][i]]|)| else 0
  {
    var v1 := g[v0][i];
    assert PlainList(g[v0], |g|);
    assert g[v0][..i + 1] == g[v0][..i] + [v1];
    assert v1 !in g[v0][..i];
    assert g[v1][..|g[v1]|] == g[v1];
    var before, after, more := StartingAt(g, v0, i), StartingAt(g, v0, i + 1), ClosedBy(g, v0, v1, |g[v1]|);
    if v0 < v1 {
      assert after == before + more && before !! more;
    } else {
      assert after == before;
    }
  }

  lemma NextVertex(g: seq<seq<nat>>, v: nat)
    requires v < |g|
    ensures |StartingBelow(g, v + 1)| == |StartingBelow(g, v)| + |StartingAt(g, v, |g[v]|)|
  {
    assert g[v][..|g[v]|] == g[v];
    var before, after, more := StartingBelow(g, v), StartingBelow(g, v + 1), StartingAt(g, v, |g[v]|);
    assert after == before + more && before !! more;
  }

  /** Every list is sorted and a rearrangement of what it was. */
  ghost predicate Rearranged(before: seq<seq<nat>>, after: seq<seq<nat>>) {
    |before| == |after| && forall v :: 0 <= v < |after| ==> multiset(after[v]) == multiset(before[v])
  }

  lemma PlainAfter(a: seq<nat>, b: seq<nat>, n: nat)
    requires multiset(a) == multiset(b) && PlainList(a, n)
    ensures PlainList(b, n) && forall v :: v in b <==> v in a
  {
    forall v
      ensures v in b <==> v in a
    {
      assert v in b <==> v in multiset(b);
      assert v in a <==> v in multiset(a);
    }
    forall i, j | 0 <= i < j < |b|
      ensures b[i] != b[j]
    {
      AtMostOnce(a, b[i]);
      if b[i] == b[j] {
        CountedTwice(b, i, j);
      }
    }
  }

  lemma {:induction false} AtMostOnce(a: seq<nat>, x: nat)
    requires forall i, j :: 0 <= i < j < |a| ==> a[i] != a[j]
    ensures multiset(a)[x] <= 1
  {
    if a != [] {
      var m := |a| - 1;
      assert a == a[..m] + [a[m]];
      AtMostOnce(a[..m], x);
      if a[m] == x {
        assert x !in a[..m];
      }
    }
  }

  /** Sorting changes neither edges nor triples. */
  lemma SameTriples(before: seq<seq<nat>>, after: seq<seq<nat>>)
    requires Rearranged(before, after) && Plain(before)
    ensures Plain(after) && Triples(after) == Triples(before)
  {
    forall u: nat | u < |after|
      ensures PlainList(after[u], |after|) && forall v :: v in after[u] <==> v in before[u]
    {
      assert PlainList(before[u], |before|);
      PlainAfter(before[u], after[u], |before|);
    }
    forall u: nat, v: nat
      ensures Adj(after, u, v) <==> Adj(before, u, v)
    {
    }
  }

  /** Sorts every list, in any order of the vertices. */
  method SortAll(g: AdjGraph)
    modifies g
    ensures Rearranged(old(g.edges), g.edges)
    ensures forall v :: 0 <= v < |g.edges| ==> Ordered(false, g.edges[v])
  {
    var todo := Indices(|g.edges|);
    while todo != {}
      invariant Rearranged(old(g.edges), g.edges) && forall v: nat :: v in todo ==> v < |g.edges|
      invariant forall v: nat :: v < |g.edges| && v !in todo ==> Ordered(false, g.edges[v])
    {
      var v :| v in todo;
      g.SortEdges(v);
      todo := todo - {v};
    }
  }

  method CountClosing(g: AdjGraph, v0: nat, v1: nat) returns (n: nat)
    requires Plain(g.edges) && forall v :: 0 <= v < |g.edges| ==> Ordered(false, g.edges[v])
    requires v0 < v1 < |g.edges| && Adj(g.edges, v0, v1)
    ensures n == |ClosedBy(g.edges, v0, v1, |g.edges[v1]|)|
  {
    n := 0;
    assert ClosedBy(g.edges, v0, v1, 0) == {};
    for j := 0 to |g.edges[v1]|
      invariant n == |ClosedBy(g.edges, v0, v1, j)|
    {
      NextClosing(g.edges, v0, v1, j);
      var v2 := g.edges[v1][j];
      if v1 < v2 {
        var found := g.FindEdgeSorted(v0, v2);
        if found {
          n := n + 1;
        }
      }
    }
  }

  method CountFrom(g: AdjGraph, v0: nat) returns (n: nat)
    requires Plain(g.edges) && forall v :: 0 <= v < |g.edges| ==> Ordered(false, g.edges[v])
    requires v0 < |g.edges|
    ensures n == |StartingAt(g.edges, v0, |g.edges[v0]|)|
  {
    n := 0;
    assert StartingAt(g.edges, v0, 0) == {};
    for i := 0 to |g.edges[v0]|
      invariant n == |StartingAt(g.edges, v0, i)|
    {
      assert PlainList(g.edges[v0], |g.edges|);
      assert g.edges[v0][i] in g.edges[v0];
      NextStart(g.edges, v0, i);
      var v1 := g.edges[v0][i];
      if v0 < v1 {
        var m := CountClosing(g, v0, v1);
        n := n + m;
      }
    }
  }

  /** The number of triangles. */
  method Compute(g: AdjGraph) returns (numTriangles: nat)
    requires Plain(g.edges)
    modifies g
    ensures numTriangles == |Triples(old(g.edges))|
    ensures Symmetric(old(g.edges)) ==> numTriangles == |Cliques(old(g.edges))|
    ensures Rearranged(old(g.edges), g.edges)
  {
    ghost var before := g.edges;
    SortAll(g);
    SameTriples(before, g.edges);
    ghost var sorted := g.edges;
    numTriangles := 0;
    assert StartingBelow(g.edges, 0) == {};
    for v0 := 0 to |g.edges|
      invariant numTriangles == |StartingBelow(g.edges, v0)|
      invariant g.edges == sorted
    {
      NextVertex(g.edges, v0);
      var n := CountFrom(g, v0);
      numTriangles := numTriangles + n;
    }
    assert StartingBelow(g.edges, |g.edges|) == Triples(g.edges);
    if Symmetric(before) {
      CliquesAreTriples(before);
    }
  }
}
