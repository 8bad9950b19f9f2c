/**
  Walks in a directed multigraph given by its adjacency lists, as the graph
  interface exposes it. A walk is its start vertex and the sequence of edge slots
  it takes, so parallel edges give different walks.
 */
module Walks {
  import opened Sums

  type Graph = seq<seq<nat>>

  ghost predicate WellFormed(g: Graph) {
    forall u, k :: 0 <= u < |g| && 0 <= k < |g[u]| ==> g[u][k] < |g|
  }

  // ---------- Walks as sequences of edge slots ----------

  ghost predicate IsWalk(g: Graph, s: nat, slots: seq<nat>)
    requires WellFormed(g) && s < |g|
    decreases slots
  {
    slots != [] ==> slots[0] < |g[s]| && IsWalk(g, g[s][slots[0]], slots[1..])
  }

  ghost function EndOf(g: Graph, s: nat, slots: seq<nat>): (v: nat)
    requires WellFormed(g) && s < |g| && IsWalk(g, s, slots)
    ensures v < |g|
    decreases slots
  {
    if slots == [] then s else EndOf(g, g[s][slots[0]], slots[1..])
  }

  /** The walk visits v at some point, ends included. */
  ghost predicate Visits(g: Graph, s: nat, slots: seq<nat>, v: nat)
    requires WellFormed(g) && s < |g| && IsWalk(g, s, slots)
    decreases slots
  {
    s == v || (slots != [] && Visits(g, g[s][slots[0]], slots[1..], v))
  }

  /** All walks of n edges from s to t. */
  ghost function WalkSet(g: Graph, n: nat, s: nat, t: nat): (r: set<seq<nat>>)
    requires WellFormed(g) && s < |g|
    decreases n, 1
  {
    if n == 0 then if s == t then {[]} else {}
    else FirstSlots(g, n, s, t, |g[s]|)
  }

  /** The walks of n edges from s to t that start with one of the first m edges of s. */
  ghost function FirstSlots(g: Graph, n: nat, s: nat, t: nat, m: nat): (r: set<seq<nat>>)
    requires WellFormed(g) && s < |g| && m <= |g[s]| && n > 0
    decreases n, 0, m
  {
    if m == 0 then {}
    else FirstSlots(g, n, s, t, m - 1) + Prepend(m - 1, WalkSet(g, n - 1, g[s][m - 1], t))
  }

  ghost function Prepend(k: nat, walks: set<seq<nat>>): (r: set<seq<nat>>) {
    set w | w in walks :: [k] + w
  }

  lemma InPrepend(k: nat, walks: set<seq<nat>>, w: seq<nat>)
    ensures w in Prepend(k, walks) <==> w != [] && w[0] == k && w[1..] in walks
  {
    if w != [] && w[0] == k && w[1..] in walks {
      assert w == [k] + w[1..];
    }
    if w in Prepend(k, walks) {
      var v :| v in walks && [k] + v == w;
      assert v == w[1..];
    }
  }

  /** WalkSet has exactly the slot sequences of length n that are walks from s to t. */
  lemma {:induction false} InWalkSet(g: Graph, n: nat, s: nat, t: nat, w: seq<nat>)
    requires WellFormed(g) && s < |g|
    ensures w in WalkSet(g, n, s, t) <==> |w| == n && IsWalk(g, s, w) && EndOf(g, s, w) == t
    decreases n, 1
  {
    if n > 0 {
      InFirstSlots(g, n, s, t, |g[s]|, w);
    }
  }

  lemma {:induction false} InFirstSlots(g: Graph, n: nat, s: nat, t: nat, m: nat, w: seq<nat>)
    requires WellFormed(g) && s < |g| && m <= |g[s]| && n > 0
    ensures w in FirstSlots(g, n, s, t, m) <==> |w| == n && w[0] < m && IsWalk(g, s, w) && EndOf(g, s, w) == t
    decreases n, 0, m
  {
    if m > 0 {
      InFirstSlots(g, n, s, t, m - 1, w);
      InPrepend(m - 1, WalkSet(g, n - 1, g[s][m - 1], t), w);
      if w != [] && w[0] == m - 1 {
        InWalkSet(g, n - 1, g[s][m - 1], t, w[1..]);
      }
    }
  }

  // ---------- Counting walks ----------

  /** The number of walks of n edges from s to t. */
  ghost function Count(g: Graph, n: nat, s: nat, t: nat): nat
    requires WellFormed(g) && s < |g|
    decreases n, 1
  {
    if n == 0 then if s == t then 1 else 0
    else CountFirst(g, n, s, t, |g[s]|)
  }

  ghost function CountFirst(g: Graph, n: nat, s: nat, t: nat, m: nat): nat
    requires WellFormed(g) && s < |g| && m <= |g[s]| && n > 0
    decreases n, 0, m
  {
    if m == 0 then 0 else CountFirst(g, n, s, t, m - 1) + Count(g, n - 1, g[s][m - 1], t)
  }

  lemma {:induction false} PrependSize(k: nat, walks: set<seq<nat>>)
    ensures |Prepend(k, walks)| == |walks|
    decreases |walks|
  {
    if walks != {} {
      var x :| x in walks;
      var rest := walks - {x};
      PrependSize(k, rest);
      forall w
        ensures w in Prepend(k, walks) <==> w in Prepend(k, rest) + {[k] + x}
      {
        InPrepend(k, walks, w);
        InPrepend(k, rest, w);
        assert ([k] + x)[1..] == x;
        if w != [] && w[0] == k && w[1..] == x {
          assert w == [k] + x;
        }
      }
      assert Prepend(k, walks) == Prepend(k, rest) + {[k] + x};
      InPrepend(k, rest, [k] + x);
      assert ([k] + x)[1..] == x;
    }
  }

  lemma {:induction false} CountIsSize(g: Graph, n: nat, s: nat, t: nat)
    requires WellFormed(g) && s < |g|
    ensures |WalkSet(g, n, s, t)| == Count(g, n, s, t)
    decreases n, 1
  {
    if n > 0 {
      CountFirstIsSize(g, n, s, t, |g[s]|);
    }
  }

  lemma {:induction false} CountFirstIsSize(g: Graph, n: nat, s: nat, t: nat, m: nat)
    requires WellFormed(g) && s < |g| && m <= |g[s]| && n > 0
    ensures |FirstSlots(g, n, s, t, m)| == CountFirst(g, n, s, t, m)
    decreases n, 0, m
  {
    if m > 0 {
      CountFirstIsSize(g, n, s, t, m - 1);
      CountIsSize(g, n - 1, g[s][m - 1], t);
      MoreFirstSlots(g, n, s, t, m);
    }
  }

  lemma MoreFirstSlots(g: Graph, n: nat, s: nat, t: nat, m: nat)
    requires WellFormed(g) && s < |g| && 0 < m <= |g[s]| && n > 0
    ensures |FirstSlots(g, n, s, t, m)| == |FirstSlots(g, n, s, t, m - 1)| + |WalkSet(g, n - 1, g[s][m - 1], t)|
  {
    var walks := WalkSet(g, n - 1, g[s][m - 1], t);
    FirstSlotsApart(g, n, s, t, m);
    hide *;
    PrependSize(m - 1, walks);
    UnionSize(FirstSlots(g, n, s, t, m), FirstSlots(g, n, s, t, m - 1), Prepend(m - 1, walks));
  }

  lemma UnionSize(all: set<seq<nat>>, a: set<seq<nat>>, b: set<seq<nat>>)
    requires a !! b && all == a + b
    ensures |all| == |a| + |b|
  {
  }

  lemma FirstSlotsApart(g: Graph, n: nat, s: nat, t: nat, m: nat)
    requires WellFormed(g) && s < |g| && 0 < m <= |g[s]| && n > 0
    ensures FirstSlots(g, n, s, t, m - 1) !! Prepend(m - 1, WalkSet(g, n - 1, g[s][m - 1], t))
    ensures FirstSlots(g, n, s, t, m) == FirstSlots(g, n, s, t, m - 1) + Prepend(m - 1, WalkSet(g, n - 1, g[s][m - 1], t))
  {
    var earlier := FirstSlots(g, n, s, t, m - 1);
    forall w | w in earlier
      ensures w !in Prepend(m - 1, WalkSet(g, n - 1, g[s][m - 1], t))
    {
      InFirstSlots(g, n, s, t, m - 1, w);
      InPrepend(m - 1, WalkSet(g, n - 1, g[s][m - 1], t), w);
    }
  }

  // ---------- Splitting walks ----------

  /** Walks of a edges from s to v, each continued by walks of b edges from v to t. */
  ghost function Through(g: Graph, a: nat, b: nat, s: nat, t: nat): nat -> int
    requires WellFormed(g) && s < |g|
  {
    (v: nat) => if v < |g| then Count(g, a, s, v) * Count(g, b, v, t) else 0
  }

  ghost function ThroughFirst(g: Graph, a: nat, b: nat, s: nat, t: nat, m: nat): nat -> int
    requires WellFormed(g) && s < |g| && m <= |g[s]| && a > 0
  {
    (v: nat) => if v < |g| then CountFirst(g, a, s, v, m) * Count(g, b, v, t) else 0
  }

  /** A walk of a + b edges passes exactly one vertex after its first a edges. */
  lemma {:induction false} CountSplit(g: Graph, a: nat, b: nat, s: nat, t: nat)
    requires WellFormed(g) && s < |g|
    ensures Count(g, a + b, s, t) == Total(|g|, Through(g, a, b, s, t))
    decreases a, 1
  {
    if a == 0 {
      TotalSingle(|g|, Through(g, a, b, s, t), s);
    } else {
      CountSplitFirst(g, a, b, s, t, |g[s]|);
      TotalEq(|g|, Through(g, a, b, s, t), ThroughFirst(g, a, b, s, t, |g[s]|));
    }
  }

  lemma {:induction false} CountSplitFirst(g: Graph, a: nat, b: nat, s: nat, t: nat, m: nat)
    requires WellFormed(g) && s < |g| && m <= |g[s]| && a > 0
    ensures CountFirst(g, a + b, s, t, m) == Total(|g|, ThroughFirst(g, a, b, s, t, m))
    decreases a, 0, m
  {
    if m == 0 {
      TotalConst(|g|, ThroughFirst(g, a, b, s, t, 0), 0);
    } else {
      var x := g[s][m - 1];
      CountSplitFirst(g, a, b, s, t, m - 1);
      CountSplit(g, a - 1, b, x, t);
      forall v: nat | v < |g|
        ensures ThroughFirst(g, a, b, s, t, m)(v) == ThroughFirst(g, a, b, s, t, m - 1)(v) + Through(g, a - 1, b, x, t)(v)
      {
        Distribute(CountFirst(g, a, s, v, m - 1), Count(g, a - 1, x, v), Count(g, b, v, t));
      }
      TotalAdd(|g|, ThroughFirst(g, a, b, s, t, m - 1), Through(g, a - 1, b, x, t), ThroughFirst(g, a, b, s, t, m));
    }
  }

  lemma Distribute(x: int, y: int, z: int)
    ensures (x + y) * z == x * z + y * z
  {
  }

  /** Two walks that meet make one. */
  lemma CountJoin(g: Graph, a: nat, b: nat, s: nat, v: nat, t: nat)
    requires WellFormed(g) && s < |g| && v < |g|
    requires Count(g, a, s, v) > 0 && Count(g, b, v, t) > 0
    ensures Count(g, a + b, s, t) > 0
  {
    CountSplit(g, a, b, s, t);
    TotalTerm(|g|, Through(g, a, b, s, t), v);
  }

  // ---------- Walks of one edge ----------

  lemma {:induction false} OneEdgeFirst(g: Graph, v: nat, k: nat, m: nat)
    requires WellFormed(g) && v < |g| && k < m <= |g[v]|
    ensures CountFirst(g, 1, v, g[v][k], m) > 0
  {
    if k < m - 1 {
      OneEdgeFirst(g, v, k, m - 1);
    }
  }

  lemma OneEdge(g: Graph, v: nat, k: nat)
    requires WellFormed(g) && v < |g| && k < |g[v]|
    ensures Count(g, 1, v, g[v][k]) > 0
  {
    OneEdgeFirst(g, v, k, |g[v]|);
  }

  /** No edge slot leads to v: no walk does. */
  lemma {:induction false} NoEdge(g: Graph, u: nat, v: nat, m: nat)
    requires WellFormed(g) && u < |g| && m <= |g[u]|
    requires forall k: nat :: k < m ==> g[u][k] != v
    ensures CountFirst(g, 1, u, v, m) == 0
  {
    if m > 0 {
      NoEdge(g, u, v, m - 1);
    }
  }

  lemma EdgeOfWalk(g: Graph, u: nat, v: nat) returns (k: nat)
    requires WellFormed(g) && u < |g| && Count(g, 1, u, v) > 0
    ensures k < |g[u]| && g[u][k] == v
  {
    if !exists k: nat :: k < |g[u]| && g[u][k] == v {
      NoEdge(g, u, v, |g[u]|);
      assert false;
    }
    k :| k < |g[u]| && g[u][k] == v;
  }

  // ---------- Distances ----------

  ghost predicate IsDist(g: Graph, s: nat, t: nat, d: nat)
    requires WellFormed(g) && s < |g|
  {
    Count(g, d, s, t) > 0 && forall e: nat :: e < d ==> Count(g, e, s, t) == 0
  }

  ghost predicate Reaches(g: Graph, s: nat, t: nat)
    requires WellFormed(g) && s < |g|
  {
    exists n: nat :: Count(g, n, s, t) > 0
  }

  lemma {:induction false} DistExists(g: Graph, s: nat, t: nat, n: nat) returns (d: nat)
    requires WellFormed(g) && s < |g| && Count(g, n, s, t) > 0
    ensures IsDist(g, s, t, d) && d <= n
  {
    if e: nat :| e < n && Count(g, e, s, t) > 0 {
      d := DistExists(g, s, t, e);
    } else {
      d := n;
    }
  }

  /** The vertex a shortest walk passes after a edges is at distance a. */
  lemma DistSplit(g: Graph, s: nat, t: nat, a: nat, b: nat) returns (v: nat)
    requires WellFormed(g) && s < |g| && IsDist(g, s, t, a + b)
    ensures v < |g| && IsDist(g, s, v, a) && Count(g, b, v, t) > 0
  {
    CountSplit(g, a, b, s, t);
    v := TotalPositive(|g|, Through(g, a, b, s, t));
    PositiveProduct(Count(g, a, s, v), Count(g, b, v, t));
    forall e: nat | e < a
      ensures Count(g, e, s, v) == 0
    {
      if Count(g, e, s, v) > 0 {
        CountJoin(g, e, b, s, v, t);
        assert false;
      }
    }
  }

  lemma {:induction false} TotalPositive(n: nat, f: nat -> int) returns (k: nat)
    requires Total(n, f) > 0
    ensures k < n && f(k) > 0
  {
    if f(n - 1) > 0 {
      k := n - 1;
    } else {
      k := TotalPositive(n - 1, f);
    }
  }

  lemma PositiveProduct(x: nat, y: nat)
    requires x * y > 0
    ensures x > 0 && y > 0
  {
  }
}
