/**
  Betweenness centrality by its definition: the share of shortest walks between
  two vertices that pass a third, summed over all pairs. And the recurrence over
  the shortest-path levels by which it can be computed from the deepest level up.
 */
module Dependency {
  import opened Sums
  import opened Walks

  // ---------- Definition ----------

  /** The shortest walks from s to t; none when t cannot be reached. */
  ghost function ShortestWalks(g: Graph, s: nat, t: nat): set<seq<nat>>
    requires WellFormed(g) && s < |g|
  {
    if d: nat :| IsDist(g, s, t, d) then WalkSet(g, d, s, t) else {}
  }

  ghost function ShortestThrough(g: Graph, s: nat, t: nat, v: nat): set<seq<nat>>
    requires WellFormed(g) && s < |g|
  {
    set w | w in ShortestWalks(g, s, t) && IsWalk(g, s, w) && Visits(g, s, w, v)
  }

  /** The share of the shortest walks from s to t that pass v. */
  ghost function PairShare(g: Graph, s: nat, v: nat): nat -> real
    requires WellFormed(g) && s < |g|
  {
    (t: nat) => if t == v then 0.0 else Ratio(|ShortestThrough(g, s, t, v)|, |ShortestWalks(g, s, t)|)
  }

  /** a / b, and nothing when there is nothing to share. */
  ghost function Ratio(a: nat, b: nat): real {
    if b == 0 then 0.0 else a as real / b as real
  }

  lemma RatioAdd(a: nat, b: nat, c: nat)
    ensures Ratio(a + b, c) == Ratio(a, c) + Ratio(b, c)
  {
  }

  lemma RatioTimes(a: nat, b: nat, c: nat)
    ensures Ratio(a * b, c) == Scaled(Ratio(b, c), a)
  {
    assert (a * b) as real == a as real * b as real;
  }

  lemma RatioZero(c: nat)
    ensures Ratio(0, c) == 0.0
  {
  }

  /** How much the shortest walks from s depend on v. */
  ghost function DependencyOn(g: Graph, s: nat, v: nat): real
    requires WellFormed(g) && s < |g|
  {
    Sum(|g|, PairShare(g, s, v))
  }

  /** Betweenness centrality of v over the sampled sources. */
  ghost function Centrality(g: Graph, sources: seq<nat>, v: nat): real
    requires WellFormed(g) && forall i :: 0 <= i < |sources| ==> sources[i] < |g|
  {
    if sources == [] then 0.0
    else
      var n := |sources| - 1;
      Centrality(g, sources[..n], v) + if sources[n] == v then 0.0 else DependencyOn(g, sources[n], v)
  }

  // ---------- Shortest walks through a vertex ----------

  lemma ShortestAre(g: Graph, s: nat, t: nat, d: nat)
    requires WellFormed(g) && s < |g| && IsDist(g, s, t, d)
    ensures ShortestWalks(g, s, t) == WalkSet(g, d, s, t)
  {
    forall e: nat | IsDist(g, s, t, e)
      ensures e == d
    {
    }
  }

  /** All walks of a followed by all walks of b. */
  ghost function Join(a: set<seq<nat>>, b: set<seq<nat>>): set<seq<nat>> {
    set x, y | x in a && y in b :: x + y
  }

  lemma {:induction false} PrefixedSize(x: seq<nat>, b: set<seq<nat>>)
    ensures |Join({x}, b)| == |b|
    decreases |b|
  {
    if b == {} {
      assert Join({x}, b) == {};
    } else {
      var y :| y in b;
      PrefixedSize(x, b - {y});
      assert x + y !in Join({x}, b - {y}) by {
        forall z | z in b - {y}
          ensures x + z != x + y
        {
          assert (x + z)[|x|..] == z && (x + y)[|x|..] == y;
        }
      }
      assert Join({x}, b) == Join({x}, b - {y}) + {x + y};
    }
  }

  /** When the first parts all have the same length, joining multiplies the numbers. */
  lemma {:induction false} JoinSize(a: set<seq<nat>>, b: set<seq<nat>>, n: nat)
    requires forall x :: x in a ==> |x| == n
    ensures |Join(a, b)| == |a| * |b|
    decreases |a|
  {
    if a == {} {
      assert Join(a, b) == {};
    } else {
      var x :| x in a;
      var rest := a - {x};
      assert rest + {x} == a && |a| == |rest| + 1;
      hide Join;
      JoinSize(rest, b, n);
      PrefixedSize(x, b);
      JoinApart(rest, x, b, n);
      JoinUnion(rest, x, b);
      DisjointSizes(Join(rest, b), Join({x}, b), |rest|, |b|);
    }
  }

  lemma DisjointSizes(p: set<seq<nat>>, q: set<seq<nat>>, k: nat, n: nat)
    requires p !! q && |p| == k * n && |q| == n
    ensures |p + q| == (k + 1) * n
  {
    Distribute(k, 1, n);
  }

  lemma JoinUnion(a: set<seq<nat>>, x: seq<nat>, b: set<seq<nat>>)
    ensures Join(a + {x}, b) == Join(a, b) + Join({x}, b)
  {
  }

  lemma JoinApart(a: set<seq<nat>>, x: seq<nat>, b: set<seq<nat>>, n: nat)
    requires x !in a && |x| == n && forall y :: y in a ==> |y| == n
    ensures Join(a, b) !! Join({x}, b)
  {
    forall w | w in Join(a, b)
      ensures w !in Join({x}, b)
    {
      var y, z :| y in a && z in b && w == y + z;
      assert w[..n] == y;
      forall u | u in b
        ensures x + u != w
      {
        assert (x + u)[..n] == x;
      }
    }
  }

  /** A walk that visits v is a walk to v and a walk from v. */
  lemma {:induction false} VisitSplits(g: Graph, s: nat, w: seq<nat>, v: nat) returns (i: nat)
    requires WellFormed(g) && s < |g| && IsWalk(g, s, w) && Visits(g, s, w, v)
    ensures v < |g| && i <= |w|
    ensures IsWalk(g, s, w[..i]) && EndOf(g, s, w[..i]) == v
    ensures IsWalk(g, v, w[i..]) && EndOf(g, v, w[i..]) == EndOf(g, s, w)
    decreases |w|
  {
    if s == v {
      i := 0;
      assert w[0..] == w;
    } else {
      var j := VisitSplits(g, g[s][w[0]], w[1..], v);
      i := j + 1;
      assert w[..i][1..] == w[1..][..j] && w[i..] == w[1..][j..];
    }
  }

  lemma {:induction false} JoinedWalk(g: Graph, s: nat, x: seq<nat>, v: nat, y: seq<nat>)
    requires WellFormed(g) && s < |g| && IsWalk(g, s, x) && EndOf(g, s, x) == v && IsWalk(g, v, y)
    ensures IsWalk(g, s, x + y) && EndOf(g, s, x + y) == EndOf(g, v, y) && Visits(g, s, x + y, v)
    decreases |x|
  {
    if x == [] {
      assert x + y == y;
    } else {
      JoinedWalk(g, g[s][x[0]], x[1..], v, y);
      assert (x + y)[1..] == x[1..] + y;
    }
  }

  lemma VisitAtDistance(g: Graph, s: nat, t: nat, v: nat, d: nat, w: seq<nat>) returns (i: nat)
    requires WellFormed(g) && s < |g| && IsDist(g, s, t, d) && w in WalkSet(g, d, s, t) && IsWalk(g, s, w) && Visits(g, s, w, v)
    ensures v < |g| && i <= d == |w| && IsDist(g, s, v, i)
    ensures w[..i] in WalkSet(g, i, s, v) && w[i..] in WalkSet(g, d - i, v, t)
  {
    InWalkSet(g, d, s, t, w);
    i := VisitSplits(g, s, w, v);
    InWalkSet(g, i, s, v, w[..i]);
    InWalkSet(g, d - i, v, t, w[i..]);
    CountIsSize(g, i, s, v);
    CountIsSize(g, d - i, v, t);
    var a := DistExists(g, s, v, i);
    CountJoin(g, a, d - i, s, v, t);
  }

  /** On the way to t at distance d, the shortest walks through v at distance a are those to v times those from v in the rest. */
  lemma ThroughSize(g: Graph, s: nat, t: nat, v: nat, d: nat, a: nat)
    requires WellFormed(g) && s < |g| && v < |g| && IsDist(g, s, t, d) && IsDist(g, s, v, a)
    ensures |ShortestThrough(g, s, t, v)| == if a <= d then Count(g, a, s, v) * Count(g, d - a, v, t) else 0
  {
    if a <= d {
      ThroughIsJoin(g, s, t, v, d, a);
      var x, y := WalkSet(g, a, s, v), WalkSet(g, d - a, v, t);
      forall p | p in x
        ensures |p| == a
      {
        InWalkSet(g, a, s, v, p);
      }
      hide ShortestThrough, Join;
      JoinSize(x, y, a);
      CountIsSize(g, a, s, v);
      CountIsSize(g, d - a, v, t);
    } else {
      ShortestAre(g, s, t, d);
      var through := ShortestThrough(g, s, t, v);
      forall w | w in through
        ensures false
      {
        var i := VisitAtDistance(g, s, t, v, d, w);
      }
      assert through == {};
    }
  }

  lemma ThroughIsJoin(g: Graph, s: nat, t: nat, v: nat, d: nat, a: nat)
    requires WellFormed(g) && s < |g| && v < |g| && IsDist(g, s, t, d) && IsDist(g, s, v, a) && a <= d
    ensures ShortestThrough(g, s, t, v) == Join(WalkSet(g, a, s, v), WalkSet(g, d - a, v, t))
  {
    ShortestAre(g, s, t, d);
    var through := ShortestThrough(g, s, t, v);
    var x, y := WalkSet(g, a, s, v), WalkSet(g, d - a, v, t);
    forall w | w in through
      ensures w in Join(x, y)
    {
      var i := VisitAtDistance(g, s, t, v, d, w);
      assert i == a;
      assert w == w[..i] + w[i..];
    }
    forall w | w in Join(x, y)
      ensures w in through
    {
      var p, q :| p in x && q in y && w == p + q;
      InWalkSet(g, a, s, v, p);
      InWalkSet(g, d - a, v, t, q);
      JoinedWalk(g, s, p, v, q);
      InWalkSet(g, d, s, t, w);
    }
  }

  lemma UnreachedIsPassedByNone(g: Graph, s: nat, t: nat, v: nat)
    requires WellFormed(g) && s < |g| && !Reaches(g, s, v)
    ensures ShortestThrough(g, s, t, v) == {}
  {
    if d: nat :| IsDist(g, s, t, d) {
      ShortestAre(g, s, t, d);
      forall w | w in ShortestThrough(g, s, t, v)
        ensures false
      {
        var i := VisitAtDistance(g, s, t, v, d, w);
      }
    }
  }

  // ---------- The recurrence over levels ----------

  /**
    dist and sigma are the distances from s, with inf for vertices that cannot be
    reached, and the numbers of shortest walks from s.
   */
  ghost predicate Levels(g: Graph, s: nat, inf: nat, dist: seq<nat>, sigma: seq<nat>)
    requires WellFormed(g) && s < |g|
  {
    && |dist| == |sigma| == |g|
    && forall v :: 0 <= v < |g| ==> LevelOf(g, s, inf, v, dist[v], sigma[v])
  }

  ghost predicate LevelOf(g: Graph, s: nat, inf: nat, v: nat, d: nat, n: nat)
    requires WellFormed(g) && s < |g|
  {
    if d == inf then n == 0 && !Reaches(g, s, v) else IsDist(g, s, v, d) && n == Count(g, d, s, v)
  }

  /** The share of the shortest walks to t that continue from v, per shortest walk to v. */
  ghost function DownShare(g: Graph, inf: nat, dist: seq<nat>, sigma: seq<nat>, v: nat): nat -> real
    requires WellFormed(g) && v < |g| == |dist| == |sigma|
  {
    (t: nat) => if t < |g| && dist[t] != inf && dist[t] > dist[v]
                then Ratio(Count(g, dist[t] - dist[v], v, t), sigma[t]) else 0.0
  }

  ghost function Down(g: Graph, inf: nat, dist: seq<nat>, sigma: seq<nat>, v: nat): real
    requires WellFormed(g) && v < |g| == |dist| == |sigma|
  {
    Sum(|g|, DownShare(g, inf, dist, sigma, v))
  }

  /** The dependency on v as the algorithms compute it: its shortest walks times the shares that continue from it. */
  ghost function Delta(g: Graph, inf: nat, dist: seq<nat>, sigma: seq<nat>, v: nat): real
    requires WellFormed(g) && v < |g| == |dist| == |sigma|
  {
    Scaled(Down(g, inf, dist, sigma, v), sigma[v])
  }

  /** That product is the dependency of the definition. */
  lemma DeltaIsDependency(g: Graph, s: nat, inf: nat, dist: seq<nat>, sigma: seq<nat>, v: nat)
    requires WellFormed(g) && s < |g| && v < |g| && Levels(g, s, inf, dist, sigma)
    ensures Delta(g, inf, dist, sigma, v) == DependencyOn(g, s, v)
  {
    assert |dist| == |sigma| == |g|;
    var pair, down := PairShare(g, s, v), DownShare(g, inf, dist, sigma, v);
    hide PairShare, DownShare, Levels, Scaled;
    forall t: nat | t < |g|
      ensures pair(t) == Scaled(down(t), sigma[v])
    {
      PairIsDown(g, s, inf, dist, sigma, v, t);
    }
    ScaledSum(|g|, down, pair, sigma[v]);
  }

  lemma PairIsDown(g: Graph, s: nat, inf: nat, dist: seq<nat>, sigma: seq<nat>, v: nat, t: nat)
    requires WellFormed(g) && s < |g| && v < |g| && t < |g| && Levels(g, s, inf, dist, sigma)
    ensures PairShare(g, s, v)(t) == Scaled(DownShare(g, inf, dist, sigma, v)(t), sigma[v])
  {
    assert LevelOf(g, s, inf, v, dist[v], sigma[v]);
    assert LevelOf(g, s, inf, t, dist[t], sigma[t]);
    hide ShortestWalks, ShortestThrough, Ratio, CountFirst;
    if dist[t] == inf {
      NotReached(g, s, t);
      RatioZero(0);
      NoneThrough(g, s, t, v);
    } else {
      ReachedPair(g, s, inf, dist, sigma, v, t);
    }
  }

  lemma NoneThrough(g: Graph, s: nat, t: nat, v: nat)
    requires WellFormed(g) && s < |g| && ShortestWalks(g, s, t) == {}
    ensures ShortestThrough(g, s, t, v) == {}
  {
  }

  lemma ReachedPair(g: Graph, s: nat, inf: nat, dist: seq<nat>, sigma: seq<nat>, v: nat, t: nat)
    requires WellFormed(g) && s < |g| && v < |g| && t < |g| && Levels(g, s, inf, dist, sigma) && dist[t] != inf
    ensures PairShare(g, s, v)(t) == Scaled(DownShare(g, inf, dist, sigma, v)(t), sigma[v])
  {
    assert LevelOf(g, s, inf, v, dist[v], sigma[v]);
    assert LevelOf(g, s, inf, t, dist[t], sigma[t]);
    var d := dist[t];
    ShortestAre(g, s, t, d);
    CountIsSize(g, d, s, t);
    assert Count(g, 0, v, t) == if v == t then 1 else 0;
    hide ShortestWalks, ShortestThrough, Ratio, Count, CountFirst, Levels;
    RatioZero(sigma[t]);
    if dist[v] == inf {
      UnreachedIsPassedByNone(g, s, t, v);
    } else {
      ThroughSize(g, s, t, v, d, dist[v]);
      if dist[v] <= d {
        RatioTimes(sigma[v], Count(g, d - dist[v], v, t), sigma[t]);
      }
    }
  }

  lemma NotReached(g: Graph, s: nat, t: nat)
    requires WellFormed(g) && s < |g| && !Reaches(g, s, t)
    ensures ShortestWalks(g, s, t) == {}
  {
  }

  // ---------- One edge of the recurrence ----------

  /** What an edge to w contributes to its source at distance d: nothing unless w is one level deeper. */
  ghost function EdgeShare(g: Graph, inf: nat, dist: seq<nat>, sigma: seq<nat>, d: nat, w: nat): real
    requires WellFormed(g) && w < |g| == |dist| == |sigma|
  {
    if dist[w] == d + 1 && sigma[w] > 0 then (1.0 + Delta(g, inf, dist, sigma, w)) / sigma[w] as real else 0.0
  }

  ghost function EdgeShares(g: Graph, inf: nat, dist: seq<nat>, sigma: seq<nat>, v: nat, m: nat): real
    requires WellFormed(g) && v < |g| == |dist| == |sigma| && m <= |g[v]|
  {
    if m == 0 then 0.0
    else EdgeShares(g, inf, dist, sigma, v, m - 1) + EdgeShare(g, inf, dist, sigma, dist[v], g[v][m - 1])
  }

  /** Shares of the walks that leave v by one of its first m edges. */
  ghost function FirstShare(g: Graph, inf: nat, dist: seq<nat>, sigma: seq<nat>, v: nat, m: nat): nat -> real
    requires WellFormed(g) && v < |g| == |dist| == |sigma| && m <= |g[v]|
  {
    (t: nat) => if t < |g| && dist[t] != inf && dist[t] > dist[v]
                then Ratio(CountFirst(g, dist[t] - dist[v], v, t, m), sigma[t]) else 0.0
  }

  /** Shares of the walks that go on from w, the target of an edge from a vertex at distance d. */
  ghost function RestShare(g: Graph, inf: nat, dist: seq<nat>, sigma: seq<nat>, d: nat, w: nat): nat -> real
    requires WellFormed(g) && w < |g| == |dist| == |sigma|
  {
    (t: nat) => if t < |g| && dist[t] != inf && dist[t] > d
                then Ratio(Count(g, dist[t] - d - 1, w, t), sigma[t]) else 0.0
  }

  lemma StepOfDist(g: Graph, s: nat, inf: nat, dist: seq<nat>, sigma: seq<nat>, v: nat, k: nat)
    requires WellFormed(g) && s < |g| && Levels(g, s, inf, dist, sigma)
    requires v < |g| && k < |g[v]| && dist[v] != inf
    ensures dist[g[v][k]] != inf && dist[g[v][k]] <= dist[v] + 1
  {
    var w := g[v][k];
    assert LevelOf(g, s, inf, v, dist[v], sigma[v]);
    assert LevelOf(g, s, inf, w, dist[w], sigma[w]);
    OneEdge(g, v, k);
    CountJoin(g, dist[v], 1, s, v, w);
  }

  /** An edge that does not lead one level deeper starts no shortest walk. */
  lemma NoDetour(g: Graph, s: nat, inf: nat, dist: seq<nat>, sigma: seq<nat>, d: nat, w: nat, t: nat)
    requires WellFormed(g) && s < |g| && Levels(g, s, inf, dist, sigma)
    requires w < |g| && t < |g| && dist[w] != inf && dist[w] <= d && dist[t] != inf && dist[t] > d
    ensures Count(g, dist[t] - d - 1, w, t) == 0
  {
    assert LevelOf(g, s, inf, w, dist[w], sigma[w]);
    assert LevelOf(g, s, inf, t, dist[t], sigma[t]);
    if Count(g, dist[t] - d - 1, w, t) > 0 {
      CountJoin(g, dist[w], dist[t] - d - 1, s, w, t);
      assert false;
    }
  }

  /** All walks going on from w together are w's edge share. */
  lemma RestIsEdge(g: Graph, s: nat, inf: nat, dist: seq<nat>, sigma: seq<nat>, d: nat, w: nat)
    requires WellFormed(g) && s < |g| && Levels(g, s, inf, dist, sigma)
    requires w < |g| && dist[w] != inf && dist[w] <= d + 1
    ensures Sum(|g|, RestShare(g, inf, dist, sigma, d, w)) == EdgeShare(g, inf, dist, sigma, d, w)
  {
    var rest := RestShare(g, inf, dist, sigma, d, w);
    assert LevelOf(g, s, inf, w, dist[w], sigma[w]);
    hide Ratio, LevelOf, CountFirst, IsDist;
    if dist[w] <= d {
      forall t: nat | t < |g|
        ensures rest(t) == 0.0
      {
        if dist[t] != inf && dist[t] > d {
          NoDetour(g, s, inf, dist, sigma, d, w, t);
          RatioZero(sigma[t]);
        }
      }
      SumZero(|g|, rest);
    } else {
      DeeperEdge(g, s, inf, dist, sigma, d, w);
    }
  }

  lemma DeeperEdge(g: Graph, s: nat, inf: nat, dist: seq<nat>, sigma: seq<nat>, d: nat, w: nat)
    requires WellFormed(g) && s < |g| && Levels(g, s, inf, dist, sigma)
    requires w < |g| && dist[w] != inf && dist[w] == d + 1
    ensures Sum(|g|, RestShare(g, inf, dist, sigma, d, w)) == EdgeShare(g, inf, dist, sigma, d, w)
  {
    assert LevelOf(g, s, inf, w, dist[w], sigma[w]);
    var rest, down := RestShare(g, inf, dist, sigma, d, w), DownShare(g, inf, dist, sigma, w);
    var own := (t: nat) => if t == w then Ratio(1, sigma[w]) else 0.0;
    hide Levels, IsDist, CountFirst, Ratio;
    forall t: nat | t < |g|
      ensures rest(t) == down(t) + own(t)
    {
      RatioZero(sigma[t]);
      assert Count(g, 0, w, t) == if w == t then 1 else 0;
    }
    SumAdd(|g|, down, own, rest);
    SumSingle(|g|, own, w);
    hide Count, RestShare, DownShare, Sum, Scaled;
    EdgeArithmetic(sigma[w], Down(g, inf, dist, sigma, w));
  }

  lemma EdgeArithmetic(a: nat, x: real)
    requires a > 0
    ensures (1.0 + Scaled(x, a)) / a as real == x + Ratio(1, a)
  {
  }

  lemma NothingFirst(g: Graph, inf: nat, dist: seq<nat>, sigma: seq<nat>, v: nat)
    requires WellFormed(g) && v < |g| == |dist| == |sigma|
    ensures Sum(|g|, FirstShare(g, inf, dist, sigma, v, 0)) == 0.0
  {
    forall t: nat | t < |g|
      ensures FirstShare(g, inf, dist, sigma, v, 0)(t) == 0.0
    {
      RatioZero(sigma[t]);
    }
    SumZero(|g|, FirstShare(g, inf, dist, sigma, v, 0));
  }

  lemma {:induction false} FirstIsEdges(g: Graph, s: nat, inf: nat, dist: seq<nat>, sigma: seq<nat>, v: nat, m: nat)
    requires WellFormed(g) && s < |g| && Levels(g, s, inf, dist, sigma)
    requires v < |g| && dist[v] != inf && m <= |g[v]|
    ensures Sum(|g|, FirstShare(g, inf, dist, sigma, v, m)) == EdgeShares(g, inf, dist, sigma, v, m)
  {
    if m == 0 {
      NothingFirst(g, inf, dist, sigma, v);
    } else {
      var w := g[v][m - 1];
      FirstIsEdges(g, s, inf, dist, sigma, v, m - 1);
      StepOfDist(g, s, inf, dist, sigma, v, m - 1);
      RestIsEdge(g, s, inf, dist, sigma, dist[v], w);
      var before, rest, after := FirstShare(g, inf, dist, sigma, v, m - 1), RestShare(g, inf, dist, sigma, dist[v], w),
                                 FirstShare(g, inf, dist, sigma, v, m);
      hide Levels, LevelOf, Ratio, EdgeShare, Delta, Down;
      forall t: nat | t < |g|
        ensures after(t) == before(t) + rest(t)
      {
        if dist[t] != inf && dist[t] > dist[v] {
          RatioAdd(CountFirst(g, dist[t] - dist[v], v, t, m - 1), Count(g, dist[t] - dist[v] - 1, w, t), sigma[t]);
        }
      }
      SumAdd(|g|, before, rest, after);
    }
  }

  /** The recurrence: the dependency on v follows from the dependencies one level deeper. */
  lemma DeltaFromEdges(g: Graph, s: nat, inf: nat, dist: seq<nat>, sigma: seq<nat>, v: nat)
    requires WellFormed(g) && s < |g| && Levels(g, s, inf, dist, sigma)
    requires v < |g| && dist[v] != inf
    ensures Delta(g, inf, dist, sigma, v) == Scaled(EdgeShares(g, inf, dist, sigma, v, |g[v]|), sigma[v])
  {
    FirstIsEdges(g, s, inf, dist, sigma, v, |g[v]|);
    hide Levels, Ratio, EdgeShares, Scaled;
    SumEq(|g|, DownShare(g, inf, dist, sigma, v), FirstShare(g, inf, dist, sigma, v, |g[v]|));
  }
}
