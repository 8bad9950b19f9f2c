/**
  The serial betweenness centrality of include/scea/algo/bc.hpp: a breadth-first
  search with a queue that records predecessors, then a sweep that pushes
  dependencies from the deepest level to the predecessors. It computes the same
  vector as the gathering form.
 */
module SerialBrandes {
  import opened Finite
  import opened Sums
  import opened Walks
  import opened Dependency
  import LevelSearch
  import Brandes

  /** The sentinel distance: the largest int. */
  const INT_MAX: nat := 0x7FFF_FFFF

  // ---------- The search ----------

  /**
    The state of the search: `order` lists the vertices in the order they entered
    the queue, of which `head` have left it or are being scanned; scan[x] edges of
    x have been looked at.
   */
  ghost predicate OrderInv(g: Graph, s: nat, order: seq<nat>, head: nat, scan: seq<nat>, dist: seq<nat>)
    requires WellFormed(g) && s < |g|
  {
    && |scan| == |dist| == |g| && head <= |order|
    && (forall v: nat :: v in order <==> v < |g| && dist[v] != INT_MAX)
    && (forall i :: 0 <= i < |order| ==> order[i] < |g|)
    && (forall i, j :: 0 <= i < j < |order| ==> order[i] != order[j] && dist[order[i]] <= dist[order[j]])
    && (forall i :: 0 <= i < |order| ==> dist[order[i]] <= i)
    && (forall i :: head <= i < |order| ==> dist[order[i]] <= dist[order[head]] + 1)
    && (forall x: nat :: x < |g| && dist[x] == INT_MAX ==> scan[x] == 0)
    && (forall i :: 0 <= i < head ==> order[i] < |g| && scan[order[i]] == |g[order[i]]|)
    && (forall i :: head < i < |order| ==> scan[order[i]] == 0)
  }

  ghost predicate DistInv(g: Graph, s: nat, scan: seq<nat>, dist: seq<nat>)
    requires WellFormed(g) && s < |g|
  {
    && |scan| == |dist| == |g|
    && dist[s] == 0
    && (forall x: nat :: x < |g| ==> scan[x] <= |g[x]|)
    && (forall x: nat, k: nat :: x < |g| && k < scan[x] && k < |g[x]| ==>
        dist[g[x][k]] != INT_MAX && dist[g[x][k]] <= dist[x] + 1)
    && (forall v: nat :: v < |g| && dist[v] != INT_MAX ==> Count(g, dist[v], s, v) > 0)
  }

  /** The path counts that reach v from x over the edges scanned so far. */
  ghost function Via(g: Graph, scan: seq<nat>, dist: seq<nat>, sigma: seq<nat>, v: nat): nat -> int
    requires WellFormed(g) && |scan| == |dist| == |sigma| == |g| && v < |g|
  {
    (x: nat) => if x < |g| && OneDeeper(dist, x, v) then LevelSearch.Added(g, x, scan[x], sigma, v) else 0
  }

  ghost predicate OneDeeper(dist: seq<nat>, x: nat, v: nat)
    requires x < |dist| && v < |dist|
  {
    dist[x] != INT_MAX && dist[v] != INT_MAX && dist[v] == dist[x] + 1
  }

  ghost predicate CountInv(g: Graph, s: nat, scan: seq<nat>, dist: seq<nat>, sigma: seq<nat>)
    requires WellFormed(g) && s < |g| && |scan| == |dist| == |sigma| == |g|
  {
    forall v: nat :: v < |g| ==> sigma[v] == (if v == s then 1 else 0) + Total(|g|, Via(g, scan, dist, sigma, v))
  }

  /** How often x stands among the predecessors of v. */
  ghost function Occurs(g: Graph, scan: seq<nat>, dist: seq<nat>, x: nat, v: nat): nat
    requires WellFormed(g) && |scan| == |dist| == |g| && v < |g|
  {
    if x < |g| && scan[x] <= |g[x]| && OneDeeper(dist, x, v) then CountFirst(g, 1, x, v, scan[x]) else 0
  }

  ghost predicate PredInv(g: Graph, scan: seq<nat>, dist: seq<nat>, preds: seq<seq<nat>>)
    requires WellFormed(g) && |scan| == |dist| == |preds| == |g|
  {
    forall v: nat, x: nat :: v < |g| ==> multiset(preds[v])[x] == Occurs(g, scan, dist, x, v)
  }

  lemma NextScan(g: Graph, x: nat, v: nat, m: nat)
    requires WellFormed(g) && x < |g| && m < |g[x]|
    ensures CountFirst(g, 1, x, v, m + 1) == CountFirst(g, 1, x, v, m) + if g[x][m] == v then 1 else 0
  {
  }

  // ---------- One edge ----------

  /** What scanning slot k of u does to the distances and the queue. */
  ghost predicate EdgeScan(g: Graph, u: nat, k: nat, order: seq<nat>, order': seq<nat>, scan: seq<nat>, scan': seq<nat>,
                           dist: seq<nat>, dist': seq<nat>)
    requires WellFormed(g) && u < |g| == |dist| == |scan| && k < |g[u]|
  {
    var v := g[u][k];
    && scan' == scan[u := k + 1]
    && if dist[v] == INT_MAX then order' == order + [v] && dist' == dist[v := dist[u] + 1]
       else order' == order && dist' == dist
  }

  lemma ScanKeepsOrder(g: Graph, s: nat, head: nat, k: nat, order: seq<nat>, order': seq<nat>, scan: seq<nat>, scan': seq<nat>,
                       dist: seq<nat>, dist': seq<nat>)
    requires WellFormed(g) && s < |g| < INT_MAX && OrderInv(g, s, order, head, scan, dist) && head < |order|
    requires scan[order[head]] == k < |g[order[head]]| && g[order[head]][k] < |g|
    requires EdgeScan(g, order[head], k, order, order', scan, scan', dist, dist')
    ensures OrderInv(g, s, order', head, scan', dist')
  {
    var u := order[head];
    var v := g[u][k];
    ShortOrder(g, s, order, head, scan, dist);
    hide OrderInv;
    ScanOnly(g, s, order, head, scan, dist, k + 1);
    if dist[v] == INT_MAX {
      AppendOnly(g, s, order, head, scan', dist, v);
    }
  }

  /** Looking at one more edge changes nothing about the queue. */
  lemma ScanOnly(g: Graph, s: nat, order: seq<nat>, head: nat, scan: seq<nat>, dist: seq<nat>, m: nat)
    requires WellFormed(g) && s < |g| && OrderInv(g, s, order, head, scan, dist) && head < |order|
    ensures order[head] < |scan| && OrderInv(g, s, order, head, scan[order[head] := m], dist)
  {
    hide WellFormed;
    assert order[head] in order;
  }

  /** A vertex seen for the first time joins the end of the queue. */
  lemma AppendOnly(g: Graph, s: nat, order: seq<nat>, head: nat, scan: seq<nat>, dist: seq<nat>, v: nat)
    requires WellFormed(g) && s < |g| < INT_MAX && OrderInv(g, s, order, head, scan, dist) && head < |order| <= |g|
    requires v < |g| && dist[v] == INT_MAX
    ensures order[head] < |g| && OrderInv(g, s, order + [v], head, scan, dist[v := dist[order[head]] + 1])
  {
    hide WellFormed;
    var u := order[head];
    assert u in order;
    var order', dist' := order + [v], dist[v := dist[u] + 1];
    forall w: nat
      ensures w in order' <==> w < |g| && dist'[w] != INT_MAX
    {
      assert w in order <==> w < |g| && dist[w] != INT_MAX;
    }
    forall i | 0 <= i < |order|
      ensures order[i] != v && dist'[order[i]] == dist[order[i]] && dist'[order[i]] <= dist[u] + 1
    {
      assert order[i] in order;
    }
  }

  lemma ShortOrder(g: Graph, s: nat, order: seq<nat>, head: nat, scan: seq<nat>, dist: seq<nat>)
    requires WellFormed(g) && s < |g| && OrderInv(g, s, order, head, scan, dist)
    ensures |order| <= |g|
  {
    forall i | 0 <= i < |order|
      ensures order[i] < |g|
    {
      assert order[i] in order;
    }
    Pigeonhole(order, |g|);
  }

  lemma ScanKeepsDist(g: Graph, s: nat, head: nat, k: nat, order: seq<nat>, order': seq<nat>, scan: seq<nat>, scan': seq<nat>,
                      dist: seq<nat>, dist': seq<nat>)
    requires WellFormed(g) && s < |g| < INT_MAX && OrderInv(g, s, order, head, scan, dist) && head < |order|
    requires scan[order[head]] == k < |g[order[head]]| && DistInv(g, s, scan, dist)
    requires EdgeScan(g, order[head], k, order, order', scan, scan', dist, dist')
    ensures DistInv(g, s, scan', dist')
  {
    TargetDist(g, s, order, head, scan, dist, k);
    hide Count, OrderInv;
  }

  /** A vertex first seen from u is one step further; the others are no deeper than that. */
  lemma TargetDist(g: Graph, s: nat, order: seq<nat>, head: nat, scan: seq<nat>, dist: seq<nat>, k: nat)
    requires WellFormed(g) && s < |g| < INT_MAX && OrderInv(g, s, order, head, scan, dist) && head < |order|
    requires k < |g[order[head]]| && DistInv(g, s, scan, dist)
    ensures dist[order[head]] + 1 < INT_MAX
    ensures dist[g[order[head]][k]] == INT_MAX ==>
      Count(g, dist[order[head]] + 1, s, g[order[head]][k]) > 0 && scan[g[order[head]][k]] == 0
    ensures dist[g[order[head]][k]] != INT_MAX ==>
      dist[g[order[head]][k]] <= dist[order[head]] + 1
      && (dist[g[order[head]][k]] == dist[order[head]] + 1 ==> scan[g[order[head]][k]] == 0)
  {
    var u := order[head];
    assert u in order;
    var v := g[u][k];
    ShortOrder(g, s, order, head, scan, dist);
    OneEdge(g, u, k);
    if dist[v] == INT_MAX {
      CountJoin(g, dist[u], 1, s, u, v);
    } else {
      assert v in order;
      QueuedIsNear(g, s, order, head, scan, dist, v);
    }
  }

  lemma QueuedIsNear(g: Graph, s: nat, order: seq<nat>, head: nat, scan: seq<nat>, dist: seq<nat>, v: nat)
    requires WellFormed(g) && s < |g| && OrderInv(g, s, order, head, scan, dist) && head < |order| && v in order
    ensures v < |g| && order[head] < |g| && dist[v] <= dist[order[head]] + 1
    ensures dist[v] == dist[order[head]] + 1 ==> scan[v] == 0
  {
    assert order[head] in order;
    var i :| 0 <= i < |order| && order[i] == v;
  }

  /** The counts after the scan: only the target gains, and it gains what the edge brings. */
  lemma ScanKeepsCount(g: Graph, s: nat, u: nat, k: nat, order: seq<nat>, order': seq<nat>, scan: seq<nat>, scan': seq<nat>,
                       dist: seq<nat>, dist': seq<nat>, sigma: seq<nat>, sigma': seq<nat>, w: nat)
    requires WellFormed(g) && s < |g| && |sigma| == |g| && DistInv(g, s, scan, dist) && CountInv(g, s, scan, dist, sigma)
    requires u < |g| && scan[u] == k < |g[u]| && dist[u] != INT_MAX && dist[u] + 1 < INT_MAX
    requires EdgeScan(g, u, k, order, order', scan, scan', dist, dist')
    requires dist'[g[u][k]] == dist[u] + 1 ==> scan[g[u][k]] == 0
    requires sigma' == if dist'[g[u][k]] == dist[u] + 1 then sigma[g[u][k] := sigma[g[u][k]] + sigma[u]] else sigma
    requires w < |g|
    ensures sigma'[w] == (if w == s then 1 else 0) + Total(|g|, Via(g, scan', dist', sigma', w))
  {
    var v := g[u][k];
    var before, after := Via(g, scan, dist, sigma, w), Via(g, scan', dist', sigma', w);
    assert sigma[w] == (if w == s then 1 else 0) + Total(|g|, before);
    hide CountInv;
    assert sigma'[u] == sigma[u];
    LevelSearch.AddedNext(g, u, k, sigma, w);
    assert LevelSearch.Added(g, u, k + 1, sigma, w) == LevelSearch.Added(g, u, k + 1, sigma', w);
    forall x: nat | x < |g| && x != u
      ensures after(x) == before(x)
    {
      SameVia(g, s, u, k, order, order', scan, scan', dist, dist', sigma, sigma', w, x);
    }
    if dist[w] == INT_MAX {
      NewTarget(g, s, scan, dist, sigma, w, u);
    }
    hide LevelSearch.Added, DistInv;
    TotalChange(|g|, before, after, u);
  }

  lemma NewTarget(g: Graph, s: nat, scan: seq<nat>, dist: seq<nat>, sigma: seq<nat>, w: nat, x: nat)
    requires WellFormed(g) && s < |g| && |sigma| == |g| && DistInv(g, s, scan, dist) && w < |g| && x < |g|
    requires dist[w] == INT_MAX
    ensures LevelSearch.Added(g, x, scan[x], sigma, w) == 0
    ensures CountFirst(g, 1, x, w, scan[x]) == 0
  {
    NoEdge(g, x, w, scan[x]);
  }

  lemma SameVia(g: Graph, s: nat, u: nat, k: nat, order: seq<nat>, order': seq<nat>, scan: seq<nat>, scan': seq<nat>,
                dist: seq<nat>, dist': seq<nat>, sigma: seq<nat>, sigma': seq<nat>, w: nat, x: nat)
    requires WellFormed(g) && s < |g| && |sigma| == |g| == |sigma'| && DistInv(g, s, scan, dist)
    requires u < |g| && scan[u] == k < |g[u]| && x < |g| && x != u && w < |g|
    requires EdgeScan(g, u, k, order, order', scan, scan', dist, dist')
    requires scan[g[u][k]] == 0 || (sigma' == sigma && dist == dist')
    requires forall y :: 0 <= y < |g| && y != g[u][k] ==> sigma'[y] == sigma[y]
    ensures Via(g, scan', dist', sigma', w)(x) == Via(g, scan, dist, sigma, w)(x)
  {
    if dist[w] == INT_MAX {
      NewTarget(g, s, scan, dist, sigma, w, x);
      NewTarget(g, s, scan, dist, sigma', w, x);
    }
    if x == g[u][k] && scan[x] == 0 {
      assert CountFirst(g, 1, x, w, 0) == 0;
    }
  }

  /** The predecessor lists after the scan. */
  lemma ScanKeepsPreds(g: Graph, s: nat, u: nat, k: nat, order: seq<nat>, order': seq<nat>, scan: seq<nat>, scan': seq<nat>,
                       dist: seq<nat>, dist': seq<nat>, preds: seq<seq<nat>>, preds': seq<seq<nat>>, w: nat, x: nat)
    requires WellFormed(g) && s < |g| && |preds| == |g| && DistInv(g, s, scan, dist) && PredInv(g, scan, dist, preds)
    requires u < |g| && scan[u] == k < |g[u]| && dist[u] != INT_MAX && dist[u] + 1 < INT_MAX
    requires EdgeScan(g, u, k, order, order', scan, scan', dist, dist')
    requires dist'[g[u][k]] == dist[u] + 1 ==> scan[g[u][k]] == 0
    requires preds' == if dist'[g[u][k]] == dist[u] + 1 then preds[g[u][k] := preds[g[u][k]] + [u]] else preds
    requires w < |g|
    ensures multiset(preds'[w])[x] == Occurs(g, scan', dist', x, w)
  {
    var v := g[u][k];
    assert multiset(preds[w])[x] == Occurs(g, scan, dist, x, w);
    hide PredInv;
    if x < |g| && dist[w] == INT_MAX {
      NewTarget(g, s, scan, dist, seq(|g|, _ => 0), w, x);
    }
    NextScan(g, u, w, k);
    assert x < |g| ==> CountFirst(g, 1, x, w, 0) == 0;
    hide CountFirst;
  }

  /** All that holds between two steps of the search. */
  ghost predicate SearchInv(g: Graph, s: nat, order: seq<nat>, head: nat, scan: seq<nat>, dist: seq<nat>, sigma: seq<nat>,
                            preds: seq<seq<nat>>)
    requires WellFormed(g) && s < |g|
  {
    && |scan| == |dist| == |sigma| == |preds| == |g|
    && OrderInv(g, s, order, head, scan, dist) && DistInv(g, s, scan, dist)
    && CountInv(g, s, scan, dist, sigma) && PredInv(g, scan, dist, preds)
  }

  lemma ScanKeepsInv(g: Graph, s: nat, head: nat, k: nat, order: seq<nat>, order': seq<nat>, scan: seq<nat>, scan': seq<nat>,
                     dist: seq<nat>, dist': seq<nat>, sigma: seq<nat>, sigma': seq<nat>, preds: seq<seq<nat>>, preds': seq<seq<nat>>)
    requires WellFormed(g) && s < |g| < INT_MAX && SearchInv(g, s, order, head, scan, dist, sigma, preds)
    requires head < |order| && order[head] < |g| && scan[order[head]] == k < |g[order[head]]|
    requires EdgeScan(g, order[head], k, order, order', scan, scan', dist, dist')
    requires var u := order[head]; var v := g[u][k];
      if dist'[v] == dist[u] + 1 then sigma' == sigma[v := sigma[v] + sigma[u]] && preds' == preds[v := preds[v] + [u]]
      else sigma' == sigma && preds' == preds
    ensures SearchInv(g, s, order', head, scan', dist', sigma', preds')
  {
    TargetAfter(g, s, order, head, scan, dist, k, order', scan', dist');
    hide OrderInv, DistInv, CountInv, PredInv, EdgeScan;
    ScanKeepsOrder(g, s, head, k, order, order', scan, scan', dist, dist');
    ScanKeepsDist(g, s, head, k, order, order', scan, scan', dist, dist');
    CountAndPreds(g, s, order[head], k, order, order', scan, scan', dist, dist', sigma, sigma', preds, preds');
  }

  lemma TargetAfter(g: Graph, s: nat, order: seq<nat>, head: nat, scan: seq<nat>, dist: seq<nat>, k: nat,
                    order': seq<nat>, scan': seq<nat>, dist': seq<nat>)
    requires WellFormed(g) && s < |g| < INT_MAX && OrderInv(g, s, order, head, scan, dist) && head < |order|
    requires k < |g[order[head]]| && DistInv(g, s, scan, dist)
    requires EdgeScan(g, order[head], k, order, order', scan, scan', dist, dist')
    ensures |scan'| == |dist'| == |scan| == |dist| == |g|
    ensures dist[order[head]] != INT_MAX && dist[order[head]] + 1 < INT_MAX
    ensures dist'[g[order[head]][k]] == dist[order[head]] + 1 ==> scan[g[order[head]][k]] == 0
  {
    assert order[head] in order;
    TargetDist(g, s, order, head, scan, dist, k);
  }

  lemma CountAndPreds(g: Graph, s: nat, u: nat, k: nat, order: seq<nat>, order': seq<nat>, scan: seq<nat>, scan': seq<nat>,
                      dist: seq<nat>, dist': seq<nat>, sigma: seq<nat>, sigma': seq<nat>, preds: seq<seq<nat>>, preds': seq<seq<nat>>)
    requires WellFormed(g) && s < |g| == |sigma| == |preds| == |scan| == |dist| && DistInv(g, s, scan, dist)
    requires CountInv(g, s, scan, dist, sigma) && PredInv(g, scan, dist, preds)
    requires u < |g| && scan[u] == k < |g[u]| && dist[u] != INT_MAX && dist[u] + 1 < INT_MAX
    requires EdgeScan(g, u, k, order, order', scan, scan', dist, dist')
    requires dist'[g[u][k]] == dist[u] + 1 ==> scan[g[u][k]] == 0
    requires var v := g[u][k];
      if dist'[v] == dist[u] + 1 then sigma' == sigma[v := sigma[v] + sigma[u]] && preds' == preds[v := preds[v] + [u]]
      else sigma' == sigma && preds' == preds
    ensures |scan'| == |dist'| == |sigma'| == |preds'| == |g|
    ensures CountInv(g, s, scan', dist', sigma') && PredInv(g, scan', dist', preds')
  {
    hide DistInv;
    forall w: nat | w < |g|
      ensures sigma'[w] == (if w == s then 1 else 0) + Total(|g|, Via(g, scan', dist', sigma', w))
    {
      ScanKeepsCount(g, s, u, k, order, order', scan, scan', dist, dist', sigma, sigma', w);
    }
    forall w: nat, x: nat | w < |g|
      ensures multiset(preds'[w])[x] == Occurs(g, scan', dist', x, w)
    {
      ScanKeepsPreds(g, s, u, k, order, order', scan, scan', dist, dist', preds, preds', w, x);
    }
  }

  lemma NextHead(g: Graph, s: nat, order: seq<nat>, head: nat, scan: seq<nat>, dist: seq<nat>, sigma: seq<nat>, preds: seq<seq<nat>>)
    requires WellFormed(g) && s < |g| && SearchInv(g, s, order, head, scan, dist, sigma, preds)
    requires head < |order| && order[head] < |g| && scan[order[head]] == |g[order[head]]|
    ensures SearchInv(g, s, order, head + 1, scan, dist, sigma, preds)
    ensures head + 1 < |order| ==> order[head + 1] < |g| && scan[order[head + 1]] == 0
  {
    forall i | head + 1 <= i < |order|
      ensures dist[order[i]] <= dist[order[head + 1]] + 1
    {
      assert dist[order[head]] <= dist[order[head + 1]];
    }
    assert OrderInv(g, s, order, head + 1, scan, dist);
  }

  // ---------- The end of the search ----------

  /** With every queued vertex scanned, no walk is shorter than the distance found. */
  lemma {:induction false} NoShorter(g: Graph, s: nat, order: seq<nat>, scan: seq<nat>, dist: seq<nat>, v: nat, n: nat)
    requires WellFormed(g) && s < |g| && OrderInv(g, s, order, |order|, scan, dist) && DistInv(g, s, scan, dist)
    requires v < |g| && Count(g, n, s, v) > 0
    ensures dist[v] != INT_MAX && dist[v] <= n
    decreases n
  {
    if n > 0 {
      CountSplit(g, n - 1, 1, s, v);
      var x := TotalPositive(|g|, Through(g, n - 1, 1, s, v));
      PositiveProduct(Count(g, n - 1, s, x), Count(g, 1, x, v));
      NoShorter(g, s, order, scan, dist, x, n - 1);
      WholeScan(g, s, order, scan, dist, x);
      EdgeIsScanned(g, s, scan, dist, x, v);
    }
  }

  lemma WholeScan(g: Graph, s: nat, order: seq<nat>, scan: seq<nat>, dist: seq<nat>, x: nat)
    requires WellFormed(g) && s < |g| && OrderInv(g, s, order, |order|, scan, dist) && x < |g| && dist[x] != INT_MAX
    ensures scan[x] == |g[x]|
  {
    assert x in order;
    var i :| 0 <= i < |order| && order[i] == x;
  }

  lemma EdgeIsScanned(g: Graph, s: nat, scan: seq<nat>, dist: seq<nat>, x: nat, v: nat)
    requires WellFormed(g) && s < |g| && DistInv(g, s, scan, dist) && x < |g| && v < |g| && scan[x] == |g[x]|
    requires Count(g, 1, x, v) > 0
    ensures dist[v] != INT_MAX && dist[v] <= dist[x] + 1
  {
    var k := EdgeOfWalk(g, x, v);
  }

  /** The counts are those of all shortest walks. */
  lemma {:induction false} CountsExact(g: Graph, s: nat, order: seq<nat>, scan: seq<nat>, dist: seq<nat>, sigma: seq<nat>, v: nat, d: nat)
    requires WellFormed(g) && s < |g| && |sigma| == |g| && OrderInv(g, s, order, |order|, scan, dist) && DistInv(g, s, scan, dist)
    requires CountInv(g, s, scan, dist, sigma) && v < |g| && dist[v] == d != INT_MAX
    ensures sigma[v] == Count(g, d, s, v)
    decreases d
  {
    var via := Via(g, scan, dist, sigma, v);
    assert sigma[v] == (if v == s then 1 else 0) + Total(|g|, via);
    assert Count(g, 0, s, v) == if s == v then 1 else 0;
    assert dist[s] == 0;
    if d == 0 {
      TotalConst(|g|, via, 0);
    } else {
      CountSplit(g, d - 1, 1, s, v);
      hide CountInv, OrderInv, DistInv, LevelSearch.Added, Count, CountFirst;
      forall x: nat | x < |g|
        ensures via(x) == Through(g, d - 1, 1, s, v)(x)
      {
        if dist[x] != INT_MAX && dist[x] == d - 1 {
          CountsExact(g, s, order, scan, dist, sigma, x, d - 1);
          WholeScan(g, s, order, scan, dist, x);
          SameProduct(g, x, v, sigma);
        } else {
          NoOtherWay(g, s, order, scan, dist, x, v, d);
        }
      }
      TotalEq(|g|, via, Through(g, d - 1, 1, s, v));
    }
  }

  lemma SameProduct(g: Graph, x: nat, v: nat, sigma: seq<nat>)
    requires WellFormed(g) && |sigma| == |g| && x < |g|
    ensures LevelSearch.Added(g, x, |g[x]|, sigma, v) == sigma[x] * Count(g, 1, x, v)
  {
  }

  lemma NoOtherWay(g: Graph, s: nat, order: seq<nat>, scan: seq<nat>, dist: seq<nat>, x: nat, v: nat, d: nat)
    requires WellFormed(g) && s < |g| && OrderInv(g, s, order, |order|, scan, dist) && DistInv(g, s, scan, dist)
    requires x < |g| && v < |g| && 0 < d == dist[v] != INT_MAX && (dist[x] == INT_MAX || dist[x] != d - 1)
    ensures Count(g, d - 1, s, x) * Count(g, 1, x, v) == 0
  {
    if Count(g, d - 1, s, x) > 0 {
      NoShorter(g, s, order, scan, dist, x, d - 1);
      if Count(g, 1, x, v) > 0 {
        WholeScan(g, s, order, scan, dist, x);
        EdgeIsScanned(g, s, scan, dist, x, v);
        assert false;
      }
    }
  }

  /** The predecessors of v: each vertex one level up, once for every edge to v. */
  ghost predicate Predecessors(g: Graph, dist: seq<nat>, preds: seq<seq<nat>>)
    requires WellFormed(g) && |dist| == |preds| == |g|
  {
    forall v: nat, x: nat :: v < |g| ==>
      multiset(preds[v])[x] == if x < |g| && OneDeeper(dist, x, v) then Count(g, 1, x, v) else 0
  }

  /** When the queue is empty the search has found what it is for. */
  lemma SearchDone(g: Graph, s: nat, order: seq<nat>, scan: seq<nat>, dist: seq<nat>, sigma: seq<nat>, preds: seq<seq<nat>>)
    requires WellFormed(g) && s < |g| && SearchInv(g, s, order, |order|, scan, dist, sigma, preds)
    ensures Levels(g, s, INT_MAX, dist, sigma) && Predecessors(g, dist, preds)
  {
    forall v | 0 <= v < |g|
      ensures LevelOf(g, s, INT_MAX, v, dist[v], sigma[v])
    {
      ExactLevel(g, s, order, scan, dist, sigma, v);
    }
    forall v: nat, x: nat | v < |g|
      ensures multiset(preds[v])[x] == if x < |g| && OneDeeper(dist, x, v) then Count(g, 1, x, v) else 0
    {
      assert multiset(preds[v])[x] == Occurs(g, scan, dist, x, v);
      if x < |g| && OneDeeper(dist, x, v) {
        WholeScan(g, s, order, scan, dist, x);
      }
    }
  }

  lemma ExactLevel(g: Graph, s: nat, order: seq<nat>, scan: seq<nat>, dist: seq<nat>, sigma: seq<nat>, v: nat)
    requires WellFormed(g) && s < |g| && |sigma| == |g| && OrderInv(g, s, order, |order|, scan, dist) && DistInv(g, s, scan, dist)
    requires CountInv(g, s, scan, dist, sigma) && v < |g|
    ensures LevelOf(g, s, INT_MAX, v, dist[v], sigma[v])
  {
    if dist[v] == INT_MAX {
      assert sigma[v] == (if v == s then 1 else 0) + Total(|g|, Via(g, scan, dist, sigma, v));
      TotalConst(|g|, Via(g, scan, dist, sigma, v), 0);
      if n: nat :| Count(g, n, s, v) > 0 {
        NoShorter(g, s, order, scan, dist, v, n);
        assert false;
      }
    } else {
      CountsExact(g, s, order, scan, dist, sigma, v, dist[v]);
      forall e: nat | e < dist[v]
        ensures Count(g, e, s, v) == 0
      {
        if Count(g, e, s, v) > 0 {
          NoShorter(g, s, order, scan, dist, v, e);
          assert false;
        }
      }
    }
  }

  /** Looks at the edge from u to v. */
  method ScanEdge(g: Graph, ghost s: nat, u: nat, ghost k: nat, q: seq<nat>, predecessors: array<seq<nat>>,
                  shortestPathCount: array<nat>, distance: array<nat>, maxLevel: nat,
                  v: nat, ghost order: seq<nat>, ghost head: nat, ghost scan: seq<nat>)
    returns (q': seq<nat>, maxLevel': nat, ghost order': seq<nat>)
    requires WellFormed(g) && s < |g| < INT_MAX && distance != shortestPathCount
    requires predecessors.Length == shortestPathCount.Length == distance.Length == |g|
    requires SearchInv(g, s, order, head, scan, distance[..], shortestPathCount[..], predecessors[..])
    requires head < |order| && order[head] == u && q == order[head + 1..] && u < |g| && |scan| == |g|
    requires scan[u] == k < |g[u]| && g[u][k] == v < |g| && distance[u] + 1 < INT_MAX && NoDeeper(distance[..], maxLevel)
    modifies predecessors, shortestPathCount, distance
    ensures SearchInv(g, s, order', head, scan[u := k + 1], distance[..], shortestPathCount[..], predecessors[..])
    ensures head < |order'| && order'[head] == u && q' == order'[head + 1..] && NoDeeper(distance[..], maxLevel')
  {
    hide SearchInv, WellFormed, Count;
    q', maxLevel', order' := q, maxLevel, order;
    ghost var dist0, sigma0, preds0 := distance[..], shortestPathCount[..], predecessors[..];
    if distance[v] == INT_MAX {
      q' := q' + [v];
      order' := order' + [v];
      distance[v] := distance[u] + 1;
    }
    if distance[v] == distance[u] + 1 {
      shortestPathCount[v] := shortestPathCount[v] + shortestPathCount[u];
      predecessors[v] := predecessors[v] + [u];
    }
    if distance[v] > maxLevel' {
      maxLevel' := distance[v];
    }
    ghost var scan' := scan[u := k + 1];
    ghost var dist', sigma', preds' := distance[..], shortestPathCount[..], predecessors[..];
    assert EdgeScan(g, u, k, order, order', scan, scan', dist0, dist');
    ScanKeepsInv(g, s, head, k, order, order', scan, scan', dist0, dist', sigma0, sigma', preds0, preds');
  }

  /** Scans the edges of u, which has just left the queue. */
  method ScanEdges(g: Graph, ghost s: nat, u: nat, q: seq<nat>, predecessors: array<seq<nat>>, shortestPathCount: array<nat>,
                   distance: array<nat>, maxLevel: nat, ghost order: seq<nat>, ghost head: nat, ghost scan: seq<nat>)
    returns (q': seq<nat>, maxLevel': nat, ghost order': seq<nat>, ghost scan': seq<nat>)
    requires WellFormed(g) && s < |g| < INT_MAX && distance != shortestPathCount
    requires predecessors.Length == shortestPathCount.Length == distance.Length == |g|
    requires SearchInv(g, s, order, head, scan, distance[..], shortestPathCount[..], predecessors[..])
    requires head < |order| && order[head] == u && q == order[head + 1..] && u < |g| == |scan| && scan[u] == 0
    requires NoDeeper(distance[..], maxLevel)
    modifies predecessors, shortestPathCount, distance
    ensures SearchInv(g, s, order', head + 1, scan', distance[..], shortestPathCount[..], predecessors[..])
    ensures head + 1 <= |order'| && q' == order'[head + 1..] && NoDeeper(distance[..], maxLevel')
    ensures head + 1 < |order'| ==> order'[head + 1] < |scan'| && scan'[order'[head + 1]] == 0
  {
    q', maxLevel', order', scan' := q, maxLevel, order, scan;
    hide SearchInv, NoDeeper;
    for k := 0 to |g[u]|
      invariant |scan'| == |g| && scan'[u] == k
      invariant SearchInv(g, s, order', head, scan', distance[..], shortestPathCount[..], predecessors[..])
      invariant head < |order'| && order'[head] == u && q' == order'[head + 1..]
      invariant NoDeeper(distance[..], maxLevel')
    {
      Unseen(g, s, order', head, scan', distance[..], shortestPathCount[..], predecessors[..], u);
      q', maxLevel', order' := ScanEdge(g, s, u, k, q', predecessors, shortestPathCount, distance, maxLevel', g[u][k], order', head, scan');
      scan' := scan'[u := k + 1];
    }
    NextHead(g, s, order', head, scan', distance[..], shortestPathCount[..], predecessors[..]);
  }

  ghost predicate NoDeeper(dist: seq<nat>, maxLevel: nat) {
    maxLevel < INT_MAX && forall v :: 0 <= v < |dist| ==> dist[v] == INT_MAX || dist[v] <= maxLevel
  }

  lemma Unseen(g: Graph, s: nat, order: seq<nat>, head: nat, scan: seq<nat>, dist: seq<nat>, sigma: seq<nat>,
               preds: seq<seq<nat>>, u: nat)
    requires WellFormed(g) && s < |g| < INT_MAX && SearchInv(g, s, order, head, scan, dist, sigma, preds)
    requires head < |order| && order[head] == u && u < |g|
    ensures dist[u] + 1 < INT_MAX
  {
    ShortOrder(g, s, order, head, scan, dist);
  }

  lemma NotYetScanned(g: Graph, s: nat, order: seq<nat>, head: nat, scan: seq<nat>, dist: seq<nat>, sigma: seq<nat>,
                      preds: seq<seq<nat>>)
    requires WellFormed(g) && s < |g| && SearchInv(g, s, order, head, scan, dist, sigma, preds)
    ensures head <= |order| <= |g| && |scan| == |g|
    ensures head < |order| ==> order[head] < |g|
  {
    ShortOrder(g, s, order, head, scan, dist);
  }

  ghost function Zeros(n: nat): (r: seq<nat>)
    ensures |r| == n && forall i :: 0 <= i < n ==> r[i] == 0
  {
    seq(n, _ => 0)
  }

  lemma SearchStart(g: Graph, s: nat, dist: seq<nat>, sigma: seq<nat>, preds: seq<seq<nat>>, scan: seq<nat>)
    requires WellFormed(g) && s < |g| && |scan| == |dist| == |sigma| == |preds| == |g|
    requires forall v :: 0 <= v < |g| ==> scan[v] == 0 && preds[v] == []
    requires forall v :: 0 <= v < |g| ==> dist[v] == (if v == s then 0 else INT_MAX) && sigma[v] == if v == s then 1 else 0
    ensures SearchInv(g, s, [s], 0, scan, dist, sigma, preds)
  {
    assert Count(g, 0, s, s) == 1;
    forall v: nat | v < |g|
      ensures Total(|g|, Via(g, scan, dist, sigma, v)) == 0
    {
      TotalConst(|g|, Via(g, scan, dist, sigma, v), 0);
    }
    assert forall x: nat :: multiset([])[x] == 0;
  }

  /** Breadth-first search from s with a queue. */
  method BfsShortestPaths(g: Graph, s: nat, predecessors: array<seq<nat>>, shortestPathCount: array<nat>, distance: array<nat>)
    returns (maxLevel: nat)
    requires WellFormed(g) && s < |g| < INT_MAX && distance != shortestPathCount
    requires predecessors.Length == shortestPathCount.Length == distance.Length == |g|
    requires forall v :: 0 <= v < |g| ==> distance[v] == INT_MAX && shortestPathCount[v] == 0 && predecessors[v] == []
    modifies predecessors, shortestPathCount, distance
    ensures Levels(g, s, INT_MAX, distance[..], shortestPathCount[..])
    ensures Predecessors(g, distance[..], predecessors[..])
    ensures NoDeeper(distance[..], maxLevel)
  {
    maxLevel := 0;
    var q: seq<nat> := [s];
    distance[s] := 0;
    shortestPathCount[s] := 1;
    ghost var order: seq<nat>, head: nat, scan := [s], 0, Zeros(|g|);
    SearchStart(g, s, distance[..], shortestPathCount[..], predecessors[..], scan);
    while q != []
      invariant head <= |order| && q == order[head..] && NoDeeper(distance[..], maxLevel)
      invariant SearchInv(g, s, order, head, scan, distance[..], shortestPathCount[..], predecessors[..])
      invariant head < |order| ==> order[head] < |scan| && scan[order[head]] == 0
      decreases |g| - head
    {
      NotYetScanned(g, s, order, head, scan, distance[..], shortestPathCount[..], predecessors[..]);
      var u := q[0];
      q := q[1..];
      q, maxLevel, order, scan := ScanEdges(g, s, u, q, predecessors, shortestPathCount, distance, maxLevel, order, head, scan);
      head := head + 1;
    }
    SearchDone(g, s, order, scan, distance[..], shortestPathCount[..], predecessors[..]);
  }

  // ---------- The sweep ----------

  /** What one edge from x to i, one level deeper, brings x. */
  ghost function Push(g: Graph, dist: seq<nat>, sigma: seq<nat>, x: nat, i: nat): real
    requires WellFormed(g) && |dist| == |sigma| == |g| && x < |g| && i < |g|
  {
    Scaled(EdgeShare(g, INT_MAX, dist, sigma, dist[x], i), sigma[x])
  }

  /** What x has received from the vertices in `done`. */
  ghost function PushedBy(g: Graph, dist: seq<nat>, sigma: seq<nat>, x: nat, done: set<nat>): nat -> real
    requires WellFormed(g) && |dist| == |sigma| == |g| && x < |g|
  {
    (i: nat) => if i < |g| && i in done then Scaled(Push(g, dist, sigma, x, i), Edges(g, dist, x, i)) else 0.0
  }

  /** Edges from x to i when i is one level deeper. */
  ghost function Edges(g: Graph, dist: seq<nat>, x: nat, i: nat): nat
    requires WellFormed(g) && |dist| == |g| && x < |g| && i < |g|
  {
    if OneDeeper(dist, x, i) then Count(g, 1, x, i) else 0
  }

  ghost function ByTarget(g: Graph, dist: seq<nat>, sigma: seq<nat>, x: nat, m: nat): nat -> real
    requires WellFormed(g) && |dist| == |sigma| == |g| && x < |g| && m <= |g[x]|
  {
    (i: nat) => if i < |g| then Scaled(EdgeShare(g, INT_MAX, dist, sigma, dist[x], i), CountFirst(g, 1, x, i, m)) else 0.0
  }

  /** Summing over edge slots, or over targets with the number of edges to each. */
  lemma {:induction false} SlotsByTarget(g: Graph, dist: seq<nat>, sigma: seq<nat>, x: nat, m: nat)
    requires WellFormed(g) && |dist| == |sigma| == |g| && x < |g| && m <= |g[x]|
    ensures EdgeShares(g, INT_MAX, dist, sigma, x, m) == Sum(|g|, ByTarget(g, dist, sigma, x, m))
  {
    var now := ByTarget(g, dist, sigma, x, m);
    if m == 0 {
      forall i: nat | i < |g|
        ensures now(i) == 0.0
      {
        assert CountFirst(g, 1, x, i, 0) == 0;
      }
      SumZero(|g|, now);
    } else {
      SlotsByTarget(g, dist, sigma, x, m - 1);
      var w := g[x][m - 1];
      var before := ByTarget(g, dist, sigma, x, m - 1);
      var one := (i: nat) => if i == w then EdgeShare(g, INT_MAX, dist, sigma, dist[x], w) else 0.0;
      forall i: nat | i < |g|
        ensures now(i) == before(i) + one(i)
      {
        NextScan(g, x, i, m - 1);
        hide CountFirst, EdgeShare;
        ScaledNext(EdgeShare(g, INT_MAX, dist, sigma, dist[x], i), CountFirst(g, 1, x, i, m - 1));
      }
      SumAdd(|g|, before, one, now);
      SumSingle(|g|, one, w);
    }
  }

  lemma ScaledTwice(x: real, a: nat, b: nat)
    ensures Scaled(Scaled(x, a), b) == Scaled(Scaled(x, b), a)
  {
    assert x * a as real * b as real == x * b as real * a as real;
  }

  /** Once all deeper neighbours have pushed, x has its dependency. */
  lemma AllPushed(g: Graph, s: nat, dist: seq<nat>, sigma: seq<nat>, x: nat, done: set<nat>)
    requires WellFormed(g) && s < |g| && Levels(g, s, INT_MAX, dist, sigma) && x < |g| && dist[x] != INT_MAX
    requires forall i: nat :: i < |g| && OneDeeper(dist, x, i) ==> i in done
    ensures Sum(|g|, PushedBy(g, dist, sigma, x, done)) == Delta(g, INT_MAX, dist, sigma, x)
  {
    DeltaFromEdges(g, s, INT_MAX, dist, sigma, x);
    SlotsByTarget(g, dist, sigma, x, |g[x]|);
    var edges, pushed := ByTarget(g, dist, sigma, x, |g[x]|), PushedBy(g, dist, sigma, x, done);
    forall i: nat | i < |g|
      ensures pushed(i) == Scaled(edges(i), sigma[x])
    {
      PushIsEdges(g, s, dist, sigma, x, i);
    }
    ScaledSum(|g|, edges, pushed, sigma[x]);
  }

  lemma PushIsEdges(g: Graph, s: nat, dist: seq<nat>, sigma: seq<nat>, x: nat, i: nat)
    requires WellFormed(g) && s < |g| && Levels(g, s, INT_MAX, dist, sigma) && x < |g| && i < |g| && dist[x] != INT_MAX
    ensures OneDeeper(dist, x, i) ==>
      Scaled(Push(g, dist, sigma, x, i), Edges(g, dist, x, i)) == Scaled(ByTarget(g, dist, sigma, x, |g[x]|)(i), sigma[x])
    ensures !OneDeeper(dist, x, i) ==> Edges(g, dist, x, i) == 0 && ByTarget(g, dist, sigma, x, |g[x]|)(i) == 0.0
    ensures Scaled(Push(g, dist, sigma, x, i), 0) == 0.0 == Scaled(0.0, sigma[x])
  {
    assert LevelOf(g, s, INT_MAX, i, dist[i], sigma[i]);
    assert Count(g, 1, x, i) == CountFirst(g, 1, x, i, |g[x]|);
    var share := EdgeShare(g, INT_MAX, dist, sigma, dist[x], i);
    assert !OneDeeper(dist, x, i) ==> share == 0.0;
    ScaledNext(Push(g, dist, sigma, x, i), 0);
    hide EdgeShare, CountFirst, Count, Levels, LevelOf;
    ScaledTwice(share, sigma[x], CountFirst(g, 1, x, i, |g[x]|));
  }

  /** Vertices in `done` have pushed to their predecessors. */
  ghost predicate HavePushed(g: Graph, dist: seq<nat>, sigma: seq<nat>, dep: seq<real>, done: set<nat>)
    requires WellFormed(g) && |dist| == |sigma| == |dep| == |g|
  {
    forall x: nat :: x < |g| ==> dep[x] == Sum(|g|, PushedBy(g, dist, sigma, x, done))
  }

  /** Vertices in `done` have had their dependency added to their score, except for the source. */
  ghost predicate Scored(g: Graph, s: nat, dist: seq<nat>, sigma: seq<nat>, base: seq<real>, scores: seq<real>, done: set<nat>)
    requires WellFormed(g) && |dist| == |sigma| == |base| == |scores| == |g|
  {
    forall x: nat :: x < |g| ==>
      scores[x] == base[x] + if x in done && x != s then Delta(g, INT_MAX, dist, sigma, x) else 0.0
  }

  ghost predicate Swept(g: Graph, s: nat, dist: seq<nat>, sigma: seq<nat>, dep: seq<real>, base: seq<real>, scores: seq<real>,
                        done: set<nat>)
    requires WellFormed(g) && |dist| == |sigma| == |dep| == |base| == |scores| == |g|
  {
    HavePushed(g, dist, sigma, dep, done) && Scored(g, s, dist, sigma, base, scores, done)
  }

  /** The vertices deeper than l, and those of level l before i. */
  ghost function Done(dist: seq<nat>, l: int, i: nat): set<nat> {
    set v: nat | v < |dist| && dist[v] != INT_MAX && (dist[v] > l || (dist[v] == l && v < i))
  }

  /** How much has been pushed to each vertex after the first p predecessors of i. */
  ghost predicate PartPushed(g: Graph, dist: seq<nat>, sigma: seq<nat>, dep0: seq<real>, dep: seq<real>, list: seq<nat>, i: nat)
    requires WellFormed(g) && |dist| == |sigma| == |dep0| == |dep| == |g| && i < |g|
  {
    forall x: nat :: x < |g| ==> dep[x] == dep0[x] + Scaled(Push(g, dist, sigma, x, i), multiset(list)[x])
  }

  lemma PushStart(g: Graph, dist: seq<nat>, sigma: seq<nat>, dep0: seq<real>, i: nat)
    requires WellFormed(g) && |dist| == |sigma| == |dep0| == |g| && i < |g|
    ensures PartPushed(g, dist, sigma, dep0, dep0, [], i)
  {
    hide Push;
    forall x: nat | x < |g|
      ensures dep0[x] == dep0[x] + Scaled(Push(g, dist, sigma, x, i), multiset([])[x])
    {
      assert multiset([])[x] == 0;
      ScaledNext(Push(g, dist, sigma, x, i), 0);
    }
  }

  lemma PushNext(g: Graph, dist: seq<nat>, sigma: seq<nat>, dep0: seq<real>, dep: seq<real>, list: seq<nat>, pred: nat, i: nat)
    requires WellFormed(g) && |dist| == |sigma| == |dep0| == |dep| == |g| && i < |g| && pred < |g|
    requires PartPushed(g, dist, sigma, dep0, dep, list, i)
    ensures PartPushed(g, dist, sigma, dep0, dep[pred := dep[pred] + Push(g, dist, sigma, pred, i)], list + [pred], i)
  {
    hide Push, Scaled;
    assert multiset(list + [pred]) == multiset(list)[pred := multiset(list)[pred] + 1];
    ScaledNext(Push(g, dist, sigma, pred, i), multiset(list)[pred]);
  }

  lemma PushAmount(g: Graph, s: nat, dist: seq<nat>, sigma: seq<nat>, x: nat, i: nat)
    requires WellFormed(g) && s < |g| && Levels(g, s, INT_MAX, dist, sigma) && x < |g| && i < |g| && OneDeeper(dist, x, i)
    ensures sigma[i] > 0
    ensures Push(g, dist, sigma, x, i) == (1.0 + Delta(g, INT_MAX, dist, sigma, i)) * (sigma[x] as real / sigma[i] as real)
  {
    assert LevelOf(g, s, INT_MAX, i, dist[i], sigma[i]);
    hide Delta, Levels, Count;
    QuotientArithmetic(1.0 + Delta(g, INT_MAX, dist, sigma, i), sigma[x], sigma[i]);
  }

  lemma QuotientArithmetic(d: real, a: nat, b: nat)
    requires b > 0
    ensures Scaled(d / b as real, a) == d * (a as real / b as real)
  {
  }

  /** Pushes the dependency on i along one edge. */
  method PushEdge(g: Graph, ghost s: nat, i: nat, pred: nat, shortestPathCount: array<nat>, ghost dist: seq<nat>, dependency: array<real>)
    requires WellFormed(g) && s < |g| && i < |g| && pred < |g|
    requires shortestPathCount.Length == dependency.Length == |g|
    requires Levels(g, s, INT_MAX, dist, shortestPathCount[..]) && OneDeeper(dist, pred, i)
    requires dependency[i] == Delta(g, INT_MAX, dist, shortestPathCount[..], i)
    modifies dependency
    ensures dependency[..] == old(dependency[..])[pred := old(dependency[pred]) + Push(g, dist, shortestPathCount[..], pred, i)]
  {
    PushAmount(g, s, dist, shortestPathCount[..], pred, i);
    hide Levels, Delta, Push;
    var ratio := shortestPathCount[pred] as real / shortestPathCount[i] as real;
    dependency[pred] := dependency[pred] + (1.0 + dependency[i]) * ratio;
  }

  /** Pushes the dependency on i to its predecessors, once for every edge. */
  method PushEdges(g: Graph, ghost s: nat, i: nat, predecessors: array<seq<nat>>, shortestPathCount: array<nat>,
                   ghost dist: seq<nat>, dependency: array<real>)
    requires WellFormed(g) && s < |g| && i < |g|
    requires predecessors.Length == shortestPathCount.Length == dependency.Length == |g|
    requires Levels(g, s, INT_MAX, dist, shortestPathCount[..]) && Predecessors(g, dist, predecessors[..])
    requires dependency[i] == Delta(g, INT_MAX, dist, shortestPathCount[..], i)
    modifies dependency
    ensures PartPushed(g, dist, shortestPathCount[..], old(dependency[..]), dependency[..], predecessors[i], i)
    ensures dependency[i] == old(dependency[i])
  {
    ghost var sigma, dep0 := shortestPathCount[..], dependency[..];
    PushStart(g, dist, sigma, dep0, i);
    hide PartPushed, Levels, Delta, Predecessors, Push;
    for p := 0 to |predecessors[i]|
      invariant PartPushed(g, dist, sigma, dep0, dependency[..], predecessors[i][..p], i)
      invariant dependency[i] == dep0[i]
    {
      var pred := predecessors[i][p];
      IsOneDeeper(g, dist, predecessors[..], i, p);
      PushNext(g, dist, sigma, dep0, dependency[..], predecessors[i][..p], pred, i);
      PushEdge(g, s, i, pred, shortestPathCount, dist, dependency);
      assert predecessors[i][..p + 1] == predecessors[i][..p] + [pred];
    }
    assert predecessors[i][..|predecessors[i]|] == predecessors[i];
  }

  /** With that, i has pushed too. */
  method PushVertex(g: Graph, ghost s: nat, i: nat, predecessors: array<seq<nat>>, shortestPathCount: array<nat>,
                    ghost dist: seq<nat>, dependency: array<real>, ghost done: set<nat>)
    requires WellFormed(g) && s < |g| == |dist| && i < |g|
    requires predecessors.Length == shortestPathCount.Length == dependency.Length == |g|
    requires Levels(g, s, INT_MAX, dist, shortestPathCount[..]) && Predecessors(g, dist, predecessors[..])
    requires dependency[i] == Delta(g, INT_MAX, dist, shortestPathCount[..], i)
    requires HavePushed(g, dist, shortestPathCount[..], dependency[..], done) && i !in done
    modifies dependency
    ensures HavePushed(g, dist, shortestPathCount[..], dependency[..], done + {i})
    ensures dependency[i] == old(dependency[i])
  {
    hide *;
    ghost var dep0 := dependency[..];
    PushEdges(g, s, i, predecessors, shortestPathCount, dist, dependency);
    OneMoreDone(g, dist, shortestPathCount[..], predecessors[..], dep0, dependency[..], done, i);
  }

  lemma IsOneDeeper(g: Graph, dist: seq<nat>, preds: seq<seq<nat>>, i: nat, p: nat)
    requires WellFormed(g) && |dist| == |preds| == |g| && Predecessors(g, dist, preds) && i < |g| && p < |preds[i]|
    ensures preds[i][p] < |g| && OneDeeper(dist, preds[i][p], i) && preds[i][p] != i
  {
    assert preds[i][p] in multiset(preds[i]);
  }

  /** A vertex whose deeper neighbours are all done has its dependency. */
  lemma ReadyToPush(g: Graph, s: nat, dist: seq<nat>, sigma: seq<nat>, dep: seq<real>, l: nat, i: nat)
    requires WellFormed(g) && s < |g| == |dep| && Levels(g, s, INT_MAX, dist, sigma)
    requires HavePushed(g, dist, sigma, dep, Done(dist, l, i)) && i < |g| && dist[i] == l != INT_MAX
    ensures dep[i] == Delta(g, INT_MAX, dist, sigma, i)
  {
    AllPushed(g, s, dist, sigma, i, Done(dist, l, i));
  }

  lemma OneMoreDone(g: Graph, dist: seq<nat>, sigma: seq<nat>, preds: seq<seq<nat>>, dep: seq<real>, dep': seq<real>,
                    done: set<nat>, i: nat)
    requires WellFormed(g) && |g| == |dist| == |sigma| == |preds| == |dep| == |dep'|
    requires i < |g| && i !in done && Predecessors(g, dist, preds)
    requires HavePushed(g, dist, sigma, dep, done) && PartPushed(g, dist, sigma, dep, dep', preds[i], i)
    ensures HavePushed(g, dist, sigma, dep', done + {i})
  {
    hide Delta, Push, Scaled, PushedBy, Sum, Count;
    forall x: nat | x < |g|
      ensures dep'[x] == Sum(|g|, PushedBy(g, dist, sigma, x, done + {i}))
    {
      assert multiset(preds[i])[x] == Edges(g, dist, x, i);
      OneMorePush(g, dist, sigma, x, done, i);
    }
  }

  lemma OneMorePush(g: Graph, dist: seq<nat>, sigma: seq<nat>, x: nat, done: set<nat>, i: nat)
    requires WellFormed(g) && |dist| == |sigma| == |g| && x < |g| && i < |g| && i !in done
    ensures Sum(|g|, PushedBy(g, dist, sigma, x, done + {i})) ==
      Sum(|g|, PushedBy(g, dist, sigma, x, done)) + Scaled(Push(g, dist, sigma, x, i), Edges(g, dist, x, i))
  {
    hide Push, Scaled, Edges;
    SumChange(|g|, PushedBy(g, dist, sigma, x, done), PushedBy(g, dist, sigma, x, done + {i}), i);
  }

  lemma ScoredNext(g: Graph, s: nat, dist: seq<nat>, sigma: seq<nat>, base: seq<real>, scores: seq<real>, done: set<nat>, i: nat)
    requires WellFormed(g) && s < |g| == |dist| == |sigma| == |base| == |scores| && i < |g| && i !in done
    requires Scored(g, s, dist, sigma, base, scores, done)
    ensures i == s ==> Scored(g, s, dist, sigma, base, scores, done + {i})
    ensures i != s ==>
      Scored(g, s, dist, sigma, base, scores[i := scores[i] + Delta(g, INT_MAX, dist, sigma, i)], done + {i})
  {
    hide Delta;
  }

  /** One vertex of the level being swept. */
  method SweepVertex(g: Graph, s: nat, level: nat, i: nat, predecessors: array<seq<nat>>, shortestPathCount: array<nat>,
                     ghost dist: seq<nat>, dependency: array<real>, centralityScores: array<real>, ghost base: seq<real>)
    requires WellFormed(g) && s < |g| && i < |g| && dependency != centralityScores
    requires predecessors.Length == shortestPathCount.Length == dependency.Length == centralityScores.Length == |g| == |base|
    requires Levels(g, s, INT_MAX, dist, shortestPathCount[..]) && Predecessors(g, dist, predecessors[..])
    requires |dist| == |g| && dist[i] == level < INT_MAX
    requires HavePushed(g, dist, shortestPathCount[..], dependency[..], Done(dist, level, i))
    requires Scored(g, s, dist, shortestPathCount[..], base, centralityScores[..], Done(dist, level, i))
    modifies dependency, centralityScores
    ensures HavePushed(g, dist, shortestPathCount[..], dependency[..], Done(dist, level, i) + {i})
    ensures Scored(g, s, dist, shortestPathCount[..], base, centralityScores[..], Done(dist, level, i) + {i})
  {
    hide *;
    DoneNext(dist, level, i);
    ReadyToPush(g, s, dist, shortestPathCount[..], dependency[..], level, i);
    ScoredNext(g, s, dist, shortestPathCount[..], base, centralityScores[..], Done(dist, level, i), i);
    PushVertex(g, s, i, predecessors, shortestPathCount, dist, dependency, Done(dist, level, i));
    if i != s {
      centralityScores[i] := centralityScores[i] + dependency[i];
    }
  }

  lemma DoneNext(dist: seq<nat>, level: nat, i: nat)
    requires i < |dist| && level < INT_MAX
    ensures dist[i] == level ==> i !in Done(dist, level, i)
    ensures Done(dist, level, i + 1) == if dist[i] == level then Done(dist, level, i) + {i} else Done(dist, level, i)
    ensures Done(dist, level, |dist|) == Done(dist, level - 1, 0)
  {
  }

  /** Index i of a level: its vertex is swept if it is on the level. */
  method SweepIndex(g: Graph, s: nat, level: nat, i: nat, predecessors: array<seq<nat>>, shortestPathCount: array<nat>,
                    distance: array<nat>, dependency: array<real>, centralityScores: array<real>, ghost base: seq<real>)
    requires WellFormed(g) && s < |g| && i < |g| && dependency != centralityScores && level < INT_MAX
    requires predecessors.Length == shortestPathCount.Length == distance.Length == dependency.Length == |g|
    requires centralityScores.Length == |g| == |base|
    requires Levels(g, s, INT_MAX, distance[..], shortestPathCount[..]) && Predecessors(g, distance[..], predecessors[..])
    requires Swept(g, s, distance[..], shortestPathCount[..], dependency[..], base, centralityScores[..], Done(distance[..], level, i))
    modifies dependency, centralityScores
    ensures Swept(g, s, distance[..], shortestPathCount[..], dependency[..], base, centralityScores[..], Done(distance[..], level, i + 1))
  {
    hide Levels, Predecessors, HavePushed, Scored, Done, Delta, WellFormed;
    DoneNext(distance[..], level, i);
    if distance[i] == level {
      SweepVertex(g, s, level, i, predecessors, shortestPathCount, distance[..], dependency, centralityScores, base);
    }
  }

  /** One level of the sweep. */
  method SweepLevel(g: Graph, s: nat, level: nat, predecessors: array<seq<nat>>, shortestPathCount: array<nat>, distance: array<nat>,
                    dependency: array<real>, centralityScores: array<real>, ghost base: seq<real>)
    requires WellFormed(g) && s < |g| && dependency != centralityScores && level < INT_MAX
    requires predecessors.Length == shortestPathCount.Length == distance.Length == dependency.Length == |g|
    requires centralityScores.Length == |g| == |base|
    requires Levels(g, s, INT_MAX, distance[..], shortestPathCount[..]) && Predecessors(g, distance[..], predecessors[..])
    requires Swept(g, s, distance[..], shortestPathCount[..], dependency[..], base, centralityScores[..], Done(distance[..], level, 0))
    modifies dependency, centralityScores
    ensures Swept(g, s, distance[..], shortestPathCount[..], dependency[..], base, centralityScores[..], Done(distance[..], level - 1, 0))
  {
    hide *;
    for i := 0 to |g|
      invariant Swept(g, s, distance[..], shortestPathCount[..], dependency[..], base, centralityScores[..], Done(distance[..], level, i))
    {
      SweepIndex(g, s, level, i, predecessors, shortestPathCount, distance, dependency, centralityScores, base);
    }
    DoneNext(distance[..], level, s);
  }

  lemma SweepStart(g: Graph, s: nat, dist: seq<nat>, sigma: seq<nat>, dep: seq<real>, base: seq<real>, maxLevel: nat)
    requires WellFormed(g) && s < |g| == |dist| == |sigma| == |dep| == |base| && NoDeeper(dist, maxLevel)
    requires forall x :: 0 <= x < |g| ==> dep[x] == 0.0
    ensures Swept(g, s, dist, sigma, dep, base, base, Done(dist, maxLevel, 0))
  {
    forall x: nat | x < |g|
      ensures Sum(|g|, PushedBy(g, dist, sigma, x, Done(dist, maxLevel, 0))) == 0.0
    {
      SumZero(|g|, PushedBy(g, dist, sigma, x, Done(dist, maxLevel, 0)));
    }
  }

  /** After the last level every vertex other than the source has gained its dependency. */
  lemma AllSwept(g: Graph, s: nat, dist: seq<nat>, sigma: seq<nat>, dep: seq<real>, base: seq<real>, scores: seq<real>, x: nat)
    requires WellFormed(g) && s < |g| == |dep| == |base| == |scores| && Levels(g, s, INT_MAX, dist, sigma) && x < |g|
    requires Swept(g, s, dist, sigma, dep, base, scores, Done(dist, -1, 0))
    ensures scores[x] == base[x] + if x == s then 0.0 else DependencyOn(g, s, x)
  {
    assert LevelOf(g, s, INT_MAX, x, dist[x], sigma[x]);
    assert x in Done(dist, -1, 0) <==> dist[x] != INT_MAX;
    hide Delta, Levels, DependencyOn;
    DeltaIsDependency(g, s, INT_MAX, dist, sigma, x);
    if dist[x] == INT_MAX {
      Brandes.UnreachedDelta(g, INT_MAX, dist, sigma, x);
    }
  }

  /** The sweep, from the deepest level to the source. */
  method Sweep(g: Graph, s: nat, maxLevel: nat, predecessors: array<seq<nat>>, shortestPathCount: array<nat>, distance: array<nat>,
               dependency: array<real>, centralityScores: array<real>, ghost base: seq<real>)
    requires WellFormed(g) && s < |g| && dependency != centralityScores && maxLevel < INT_MAX
    requires predecessors.Length == shortestPathCount.Length == distance.Length == dependency.Length == |g|
    requires centralityScores.Length == |g| == |base|
    requires Levels(g, s, INT_MAX, distance[..], shortestPathCount[..]) && Predecessors(g, distance[..], predecessors[..])
    requires Swept(g, s, distance[..], shortestPathCount[..], dependency[..], base, centralityScores[..], Done(distance[..], maxLevel, 0))
    modifies dependency, centralityScores
    ensures Swept(g, s, distance[..], shortestPathCount[..], dependency[..], base, centralityScores[..], Done(distance[..], -1, 0))
  {
    var level: int := maxLevel;
    hide *;
    while level >= 0
      invariant -1 <= level < INT_MAX
      invariant Swept(g, s, distance[..], shortestPathCount[..], dependency[..], base, centralityScores[..], Done(distance[..], level, 0))
    {
      SweepLevel(g, s, level, predecessors, shortestPathCount, distance, dependency, centralityScores, base);
      level := level - 1;
    }
  }

  /** Search and sweep from one source. */
  method AddSource(g: Graph, s: nat, centralityScores: array<real>)
    requires WellFormed(g) && s < |g| < INT_MAX && centralityScores.Length == |g|
    modifies centralityScores
    ensures forall v: nat :: v < |g| ==>
      centralityScores[v] == old(centralityScores[v]) + if v == s then 0.0 else DependencyOn(g, s, v)
  {
    ghost var base := centralityScores[..];
    var predecessors := new seq<nat>[|g|](_ => []);
    var shortestPathCount := new nat[|g|](_ => 0);
    var distance := new nat[|g|](_ => INT_MAX);
    var maxLevel := BfsShortestPaths(g, s, predecessors, shortestPathCount, distance);
    var dependency := new real[|g|](_ => 0.0);
    assert maxLevel < INT_MAX;
    hide *;
    SweepStart(g, s, distance[..], shortestPathCount[..], dependency[..], base, maxLevel);
    Sweep(g, s, maxLevel, predecessors, shortestPathCount, distance, dependency, centralityScores, base);
    forall v: nat | v < |g|
      ensures centralityScores[v] == base[v] + if v == s then 0.0 else DependencyOn(g, s, v)
    {
      AllSwept(g, s, distance[..], shortestPathCount[..], dependency[..], base, centralityScores[..], v);
    }
  }

  /** Betweenness centrality with every vertex as source: the vector the level-synchronous form computes. */
  method Compute(g: Graph) returns (scores: seq<real>)
    requires WellFormed(g) && |g| < INT_MAX
    ensures |scores| == |g|
    ensures forall v :: 0 <= v < |g| ==> scores[v] == Centrality(g, seq(|g|, (i: nat) => i), v)
  {
    ghost var sources := seq(|g|, (i: nat) => i);
    var centralityScores := new real[|g|](_ => 0.0);
    for s := 0 to |g|
      invariant forall v :: 0 <= v < |g| ==> centralityScores[v] == Centrality(g, sources[..s], v)
    {
      assert sources[..s + 1][..s] == sources[..s];
      AddSource(g, s, centralityScores);
    }
    assert sources[..|g|] == sources;
    scores := centralityScores[..];
  }
}
