/**
  Betweenness centrality as include/scea/algo/bc.hpp computes it: a search from
  every source, then dependencies gathered from the deepest level up.
 */
module Brandes {
  import opened Finite
  import opened Sums
  import opened Walks
  import opened Dependency
  import opened LevelSearch

  /** On the deepest level nothing depends on a vertex. */
  lemma DeepestDelta(g: Graph, dist: seq<nat>, sigma: seq<nat>, d: nat, v: nat)
    requires WellFormed(g) && v < |g| == |dist| == |sigma| && dist[v] == d
    requires forall t :: 0 <= t < |g| ==> dist[t] == INFINITY || dist[t] <= d
    ensures Delta(g, INFINITY, dist, sigma, v) == 0.0
  {
    SumZero(|g|, DownShare(g, INFINITY, dist, sigma, v));
  }

  /** Vertices in `done` have their dependency, and it has been added to their score; the others are untouched. */
  ghost predicate Gathered(g: Graph, dist: seq<nat>, sigma: seq<nat>, dep: seq<real>, base: seq<real>, scores: seq<real>, done: set<nat>)
    requires WellFormed(g) && |dist| == |sigma| == |dep| == |base| == |scores| == |g|
  {
    forall v: nat :: v < |g| ==>
      if v in done then
        dep[v] == Delta(g, INFINITY, dist, sigma, v) && scores[v] == base[v] + dep[v]
      else dep[v] == 0.0 && scores[v] == base[v]
  }

  /** The vertices reached at a distance beyond l. */
  ghost function Beyond(dist: seq<nat>, l: nat): set<nat> {
    set v: nat | v < |dist| && l < dist[v] && dist[v] != INFINITY
  }

  /** The edges one level deeper contribute what the recurrence says. */
  lemma NextEdge(g: Graph, s: nat, dist: seq<nat>, sigma: seq<nat>, n: nat, k: nat)
    requires WellFormed(g) && s < |g| && Levels(g, s, INFINITY, dist, sigma) && n < |g| && k < |g[n]|
    ensures EdgeShares(g, INFINITY, dist, sigma, n, k + 1) ==
      EdgeShares(g, INFINITY, dist, sigma, n, k) + EdgeShare(g, INFINITY, dist, sigma, dist[n], g[n][k])
  {
  }

  lemma ReachedCount(g: Graph, s: nat, dist: seq<nat>, sigma: seq<nat>, w: nat)
    requires WellFormed(g) && s < |g| && Levels(g, s, INFINITY, dist, sigma) && w < |g| && dist[w] != INFINITY
    ensures sigma[w] > 0
  {
    assert LevelOf(g, s, INFINITY, w, dist[w], sigma[w]);
  }

  /** The vertices of the level below already have their dependency. */
  ghost predicate BelowReady(g: Graph, dist: seq<nat>, sigma: seq<nat>, dep: seq<real>, l: nat)
    requires WellFormed(g) && |dist| == |sigma| == |dep| == |g|
  {
    forall v: nat :: v < |g| && dist[v] == l ==> dep[v] == Delta(g, INFINITY, dist, sigma, v)
  }

  lemma ShareOfDeeper(g: Graph, s: nat, dist: seq<nat>, sigma: seq<nat>, dep: seq<real>, d: nat, w: nat)
    requires WellFormed(g) && s < |g| && Levels(g, s, INFINITY, dist, sigma) && |dep| == |g| && w < |g| && d + 1 < INFINITY
    requires BelowReady(g, dist, sigma, dep, d + 1)
    ensures dist[w] == d + 1 ==> sigma[w] > 0 && EdgeShare(g, INFINITY, dist, sigma, d, w) == (1.0 + dep[w]) / sigma[w] as real
    ensures dist[w] != d + 1 ==> EdgeShare(g, INFINITY, dist, sigma, d, w) == 0.0
  {
    if dist[w] == d + 1 {
      ReachedCount(g, s, dist, sigma, w);
    }
  }

  /** Adds up what the edges of one vertex contribute. */
  method GatherEdges(g: Graph, ghost s: nat, n: nat, level: nat, distance: array<nat>, shortestPathCount: array<nat>,
                     dependency: array<real>)
    requires WellFormed(g) && s < |g| && n < |g|
    requires distance.Length == shortestPathCount.Length == dependency.Length == |g|
    requires Levels(g, s, INFINITY, distance[..], shortestPathCount[..])
    requires BelowReady(g, distance[..], shortestPathCount[..], dependency[..], level + 1)
    requires distance[n] == level < INFINITY - 1 && dependency[n] == 0.0
    modifies dependency
    ensures dependency[..] == old(dependency[..])[n := EdgeShares(g, INFINITY, distance[..], shortestPathCount[..], n, |g[n]|)]
  {
    ghost var dist, sigma, dep0 := distance[..], shortestPathCount[..], dependency[..];
    hide EdgeShares, EdgeShare, Delta, BelowReady, Levels;
    EdgesOfNone(g, dist, sigma, n);
    for k := 0 to |g[n]|
      invariant dependency[..] == dep0[n := EdgeShares(g, INFINITY, dist, sigma, n, k)]
    {
      var dest := g[n][k];
      NextEdge(g, s, dist, sigma, n, k);
      ShareOfDeeper(g, s, dist, sigma, dep0, level, dest);
      if distance[dest] == level + 1 {
        var contrib := (1.0 + dependency[dest]) / shortestPathCount[dest] as real;
        dependency[n] := dependency[n] + contrib;
      }
    }
  }

  /** Gathers the dependency on one vertex from its targets one level deeper. */
  method GatherVertex(g: Graph, ghost s: nat, n: nat, level: nat, distance: array<nat>, shortestPathCount: array<nat>,
                      dependency: array<real>, centralityScores: array<real>)
    requires WellFormed(g) && s < |g| && n < |g|
    requires distance.Length == shortestPathCount.Length == dependency.Length == centralityScores.Length == |g|
    requires dependency != centralityScores
    requires Levels(g, s, INFINITY, distance[..], shortestPathCount[..])
    requires BelowReady(g, distance[..], shortestPathCount[..], dependency[..], level + 1)
    requires distance[n] == level < INFINITY - 1 && dependency[n] == 0.0
    modifies dependency, centralityScores
    ensures dependency[..] == old(dependency[..])[n := Delta(g, INFINITY, distance[..], shortestPathCount[..], n)]
    ensures centralityScores[..] ==
      old(centralityScores[..])[n := old(centralityScores[n]) + Delta(g, INFINITY, distance[..], shortestPathCount[..], n)]
  {
    ghost var dist, sigma := distance[..], shortestPathCount[..];
    GatherEdges(g, s, n, level, distance, shortestPathCount, dependency);
    DeltaFromEdges(g, s, INFINITY, dist, sigma, n);
    hide EdgeShares, Delta, BelowReady, Levels;
    ghost var gathered := dependency[..];
    dependency[n] := dependency[n] * shortestPathCount[n] as real;
    centralityScores[n] := centralityScores[n] + dependency[n];
    assert gathered[n] == EdgeShares(g, INFINITY, dist, sigma, n, |g[n]|);
    assert dependency[n] == Delta(g, INFINITY, dist, sigma, n);
  }

  /** Gathers the dependencies on the vertices of one level, in the order of its worklist. */
  method GatherLevel(g: Graph, ghost s: nat, worklist: seq<nat>, level: nat, distance: array<nat>, shortestPathCount: array<nat>,
                     dependency: array<real>, centralityScores: array<real>, ghost base: seq<real>)
    requires WellFormed(g) && s < |g|
    requires distance.Length == shortestPathCount.Length == dependency.Length == centralityScores.Length == |base| == |g|
    requires dependency != centralityScores
    requires Levels(g, s, INFINITY, distance[..], shortestPathCount[..])
    requires 0 < level < INFINITY - 1 && Lists(worklist, distance[..], level)
    requires Gathered(g, distance[..], shortestPathCount[..], dependency[..], base, centralityScores[..], Beyond(distance[..], level))
    modifies dependency, centralityScores
    ensures Gathered(g, distance[..], shortestPathCount[..], dependency[..], base, centralityScores[..], Beyond(distance[..], level - 1))
  {
    ghost var dist, sigma := distance[..], shortestPathCount[..];
    ghost var done := Beyond(dist, level);
    hide Delta, Levels, Lists;
    for i := 0 to |worklist|
      invariant done == Beyond(dist, level) + set j | 0 <= j < i :: worklist[j]
      invariant Gathered(g, dist, sigma, dependency[..], base, centralityScores[..], done)
    {
      var n := worklist[i];
      ghost var dep0, scores0 := dependency[..], centralityScores[..];
      FreshVertex(g, dist, sigma, dep0, base, scores0, worklist, level, i, done);
      GatherVertex(g, s, n, level, distance, shortestPathCount, dependency, centralityScores);
      OneMore(g, dist, sigma, dep0, dependency[..], base, scores0, centralityScores[..], done, n);
      done := done + {n};
    }
    WholeLevel(dist, worklist, level);
  }

  lemma FreshVertex(g: Graph, dist: seq<nat>, sigma: seq<nat>, dep: seq<real>, base: seq<real>, scores: seq<real>,
                    worklist: seq<nat>, level: nat, i: nat, done: set<nat>)
    requires WellFormed(g) && |dist| == |sigma| == |dep| == |base| == |scores| == |g|
    requires Gathered(g, dist, sigma, dep, base, scores, done) && Lists(worklist, dist, level) && i < |worklist|
    requires done == Beyond(dist, level) + set j | 0 <= j < i :: worklist[j]
    requires level + 1 < INFINITY
    ensures worklist[i] < |g| && dist[worklist[i]] == level && worklist[i] !in done && dep[worklist[i]] == 0.0
    ensures BelowReady(g, dist, sigma, dep, level + 1)
  {
    assert worklist[i] in worklist;
  }

  lemma OneMore(g: Graph, dist: seq<nat>, sigma: seq<nat>, dep: seq<real>, dep': seq<real>, base: seq<real>,
                scores: seq<real>, scores': seq<real>, done: set<nat>, n: nat)
    requires WellFormed(g) && |dist| == |sigma| == |dep| == |base| == |scores| == |g|
    requires Gathered(g, dist, sigma, dep, base, scores, done) && n < |g| && n !in done
    requires dep' == dep[n := Delta(g, INFINITY, dist, sigma, n)]
    requires scores' == scores[n := scores[n] + Delta(g, INFINITY, dist, sigma, n)]
    ensures Gathered(g, dist, sigma, dep', base, scores', done + {n})
  {
  }

  lemma WholeLevel(dist: seq<nat>, worklist: seq<nat>, level: nat)
    requires 0 < level < INFINITY && Lists(worklist, dist, level)
    ensures Beyond(dist, level - 1) == Beyond(dist, level) + set j | 0 <= j < |worklist| :: worklist[j]
  {
    var listed := set j | 0 <= j < |worklist| :: worklist[j];
    forall v: nat
      ensures v in Beyond(dist, level - 1) <==> v in Beyond(dist, level) + listed
    {
      assert v in worklist <==> v in listed;
    }
  }

  // ---------- One source ----------

  /** The level that the sweep gathers first. */
  function FirstGathered(levels: nat): nat {
    if levels >= 3 then levels - 3 else 0
  }

  lemma NoneListed(dist: seq<nat>, l: nat)
    requires Lists([], dist, l)
    ensures forall v: nat :: v < |dist| ==> dist[v] != l
  {
    forall v: nat | v < |dist|
      ensures dist[v] != l
    {
      assert v !in [];
    }
  }

  /** No vertex is deeper than the last non-empty worklist. */
  lemma DeepestLevel(g: Graph, s: nat, stack: seq<seq<nat>>, dist: seq<nat>, sigma: seq<nat>, v: nat)
    requires WellFormed(g) && s < |g| && Levels(g, s, INFINITY, dist, sigma) && Stack(stack, dist) && v < |g|
    requires |stack| - 1 < INFINITY
    ensures dist[v] == INFINITY || dist[v] < |stack| - 1
  {
    var l := |stack| - 1;
    assert LevelOf(g, s, INFINITY, v, dist[v], sigma[v]);
    NoneListed(dist, l);
    if dist[v] != INFINITY && dist[v] >= l {
      var u := DistSplit(g, s, v, l, dist[v] - l);
      assert LevelOf(g, s, INFINITY, u, dist[u], sigma[u]);
      DistUnique(g, s, u, l);
    }
  }

  /** The deepest level needs no gathering: nothing depends on its vertices. */
  lemma NothingGathered(g: Graph, s: nat, stack: seq<seq<nat>>, dist: seq<nat>, sigma: seq<nat>, dep: seq<real>, base: seq<real>)
    requires WellFormed(g) && s < |g| == |dep| == |base| && Levels(g, s, INFINITY, dist, sigma) && Stack(stack, dist)
    requires 2 <= |stack| && |stack| - 1 < INFINITY
    requires forall v :: 0 <= v < |g| ==> dep[v] == 0.0
    ensures Gathered(g, dist, sigma, dep, base, base, Beyond(dist, FirstGathered(|stack|)))
  {
    var first := FirstGathered(|stack|);
    forall v: nat | v < |g|
      ensures dist[v] == INFINITY || dist[v] <= |stack| - 2
    {
      DeepestLevel(g, s, stack, dist, sigma, v);
    }
    forall v: nat | v in Beyond(dist, first)
      ensures Delta(g, INFINITY, dist, sigma, v) == 0.0
    {
      DeepestDelta(g, dist, sigma, |stack| - 2, v);
    }
  }

  /** After the last level every vertex other than the source has gained its dependency. */
  lemma AllGathered(g: Graph, s: nat, dist: seq<nat>, sigma: seq<nat>, dep: seq<real>, base: seq<real>, scores: seq<real>, v: nat)
    requires WellFormed(g) && s < |g| == |dep| == |base| == |scores| && Levels(g, s, INFINITY, dist, sigma)
    requires Gathered(g, dist, sigma, dep, base, scores, Beyond(dist, 0)) && v < |g|
    ensures scores[v] == base[v] + if v == s then 0.0 else DependencyOn(g, s, v)
  {
    assert LevelOf(g, s, INFINITY, v, dist[v], sigma[v]);
    assert LevelOf(g, s, INFINITY, s, dist[s], sigma[s]);
    assert Count(g, 0, s, s) == 1;
    assert Count(g, 0, s, v) == if s == v then 1 else 0;
    assert IsDist(g, s, s, 0);
    DistUnique(g, s, s, 0);
    assert dist[s] == 0 && (dist[v] == 0 ==> v == s);
    assert v in Beyond(dist, 0) <==> v != s && dist[v] != INFINITY;
    hide Delta, Levels, Count, IsDist;
    DeltaIsDependency(g, s, INFINITY, dist, sigma, v);
    if dist[v] == INFINITY {
      UnreachedDelta(g, INFINITY, dist, sigma, v);
    }
  }

  lemma UnreachedDelta(g: Graph, inf: nat, dist: seq<nat>, sigma: seq<nat>, v: nat)
    requires WellFormed(g) && v < |g| == |dist| == |sigma| && sigma[v] == 0
    ensures Delta(g, inf, dist, sigma, v) == 0.0
  {
  }

  /** Search and sweep from one source: every other vertex gains its dependency for that source. */
  method AddSource(g: Graph, s: nat, distance: array<nat>, shortestPathCount: array<nat>,
                   dependency: array<real>, centralityScores: array<real>)
    requires WellFormed(g) && s < |g| < INFINITY
    requires distance.Length == shortestPathCount.Length == dependency.Length == centralityScores.Length == |g|
    requires dependency != centralityScores && distance != shortestPathCount
    modifies distance, shortestPathCount, dependency, centralityScores
    ensures forall v :: 0 <= v < |g| ==>
      centralityScores[v] == old(centralityScores[v]) + if v == s then 0.0 else DependencyOn(g, s, v)
  {
    ghost var base := centralityScores[..];
    for n := 0 to |g|
      invariant forall v :: 0 <= v < n ==> distance[v] == INFINITY && shortestPathCount[v] == 0 && dependency[v] == 0.0
      invariant centralityScores[..] == base
    {
      distance[n] := INFINITY;
      shortestPathCount[n] := 0;
      dependency[n] := 0.0;
    }
    var stackOfWorklists := LevelSSSP(g, s, distance, shortestPathCount);
    ghost var dist, sigma := distance[..], shortestPathCount[..];
    AtLeastTwo(g, s, stackOfWorklists, dist, sigma);
    FewLevels(stackOfWorklists, dist);
    NothingGathered(g, s, stackOfWorklists, dist, sigma, dependency[..], base);
    hide Levels, Gathered, DependencyOn;
    if |stackOfWorklists| >= 3 {
      var currentLevel := |stackOfWorklists| - 3;
      while currentLevel > 0
        invariant 0 <= currentLevel <= |stackOfWorklists| - 3 && distance[..] == dist && shortestPathCount[..] == sigma
        invariant Gathered(g, dist, sigma, dependency[..], base, centralityScores[..], Beyond(dist, currentLevel))
      {
        GatherLevel(g, s, stackOfWorklists[currentLevel], currentLevel, distance, shortestPathCount, dependency, centralityScores, base);
        currentLevel := currentLevel - 1;
      }
    }
    forall v: nat | v < |g|
      ensures centralityScores[v] == base[v] + if v == s then 0.0 else DependencyOn(g, s, v)
    {
      AllGathered(g, s, dist, sigma, dependency[..], base, centralityScores[..], v);
    }
  }

  /** The source is on the first worklist, so there is a second. */
  lemma AtLeastTwo(g: Graph, s: nat, stack: seq<seq<nat>>, dist: seq<nat>, sigma: seq<nat>)
    requires WellFormed(g) && s < |g| && Levels(g, s, INFINITY, dist, sigma) && Stack(stack, dist)
    ensures |stack| >= 2
  {
    assert LevelOf(g, s, INFINITY, s, dist[s], sigma[s]);
    assert Count(g, 0, s, s) == 1;
    assert IsDist(g, s, s, 0);
    DistUnique(g, s, s, 0);
    assert s in stack[0];
  }

  /** There are at most as many non-empty worklists as vertices. */
  lemma FewLevels(stack: seq<seq<nat>>, dist: seq<nat>)
    requires Stack(stack, dist) && |dist| < INFINITY
    ensures |stack| - 1 <= |dist|
  {
    if |dist| < |stack| - 1 {
      var first := seq(|dist| + 1, (d: nat) requires d <= |dist| => stack[d][0]);
      forall i, j | 0 <= i < j < |first|
        ensures first[i] != first[j]
      {
        assert stack[i][0] in stack[i] && stack[j][0] in stack[j];
      }
      forall i | 0 <= i < |first|
        ensures first[i] < |dist|
      {
        assert stack[i][0] in stack[i];
      }
      Pigeonhole(first, |dist|);
    }
  }

  // ---------- All sources ----------

  /** The sources: every vertex, or as many as asked for of a shuffled order. */
  function Sources(n: nat, numSrc: nat, shuffled: seq<nat>): (r: seq<nat>)
    requires |shuffled| == n
    ensures numSrc == 0 ==> |r| == n && forall i :: 0 <= i < n ==> r[i] == i
    ensures numSrc > 0 ==> |r| <= numSrc && |r| <= n && (|r| == numSrc || |r| == n) && r <= shuffled
  {
    if numSrc == 0 then seq(n, (i: nat) => i) else shuffled[..if n < numSrc then n else numSrc]
  }

  /**
    Betweenness centrality: over all vertices when no number of sources is given,
    otherwise over that many vertices, or all there are, from the front of the
    shuffled order.
   */
  method Compute(g: Graph, numSrc: nat, shuffled: seq<nat>) returns (scores: seq<real>)
    requires WellFormed(g) && |g| < INFINITY
    requires |shuffled| == |g| && forall i :: 0 <= i < |g| ==> shuffled[i] < |g|
    ensures |scores| == |g|
    ensures numSrc == 0 ==> forall v :: 0 <= v < |g| ==> scores[v] == Centrality(g, seq(|g|, (i: nat) => i), v)
    ensures 0 < numSrc < |g| ==> forall v :: 0 <= v < |g| ==> scores[v] == Centrality(g, shuffled[..numSrc], v)
    ensures numSrc > 0 && numSrc >= |g| ==> forall v :: 0 <= v < |g| ==> scores[v] == Centrality(g, shuffled, v)
  {
    var sources := Sources(|g|, numSrc, shuffled);
    var distance := new nat[|g|](_ => INFINITY);
    var shortestPathCount := new nat[|g|](_ => 0);
    var dependency := new real[|g|](_ => 0.0);
    var centralityScores := new real[|g|](_ => 0.0);
    for i := 0 to |sources|
      invariant forall v :: 0 <= v < |g| ==> centralityScores[v] == Centrality(g, sources[..i], v)
    {
      assert sources[..i + 1][..i] == sources[..i];
      AddSource(g, sources[i], distance, shortestPathCount, dependency, centralityScores);
    }
    assert sources[..|sources|] == sources;
    assert numSrc == 0 ==> sources == seq(|g|, (i: nat) => i);
    assert 0 < numSrc < |g| ==> sources == shuffled[..numSrc];
    assert numSrc > 0 && numSrc >= |g| ==> sources == shuffled;
    scores := centralityScores[..];
  }

  lemma EdgesOfNone(g: Graph, dist: seq<nat>, sigma: seq<nat>, n: nat)
    requires WellFormed(g) && n < |g| == |dist| == |sigma|
    ensures EdgeShares(g, INFINITY, dist, sigma, n, 0) == 0.0
  {
  }
}
