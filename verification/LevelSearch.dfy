/**
  The level-synchronous shortest-path search of include/scea/algo/bc.hpp. One
  level is processed by concurrent tasks, one per vertex of the level, that race
  for the vertices of the next level by compare-and-swap; the scheduler below
  runs their steps in any order whatever.
 */
module LevelSearch {
  import opened Finite
  import opened Sums
  import opened Walks
  import opened Dependency

  /** The sentinel distance of a vertex that has not been reached. */
  const INFINITY: nat := 0x3FFF_FFFF_FFFF_FFFF

  /**
    Where a task stands with its current edge: about to read the distance of the
    target, about to read it again, about to swap it, about to put the target on
    the next worklist, about to add its path count.
   */
  datatype Pc = Read | Reread | Swap | Push | Add

  datatype Task = Task(n: nat, k: nat, pc: Pc)

  // ---------- Sums over the tasks of a level ----------

  predicate Finished(g: Graph, t: Task)
    requires t.n < |g|
  {
    t.k == |g[t.n]|
  }

  ghost function Rank(pc: Pc): nat {
    match pc
    case Read => 0
    case Reread => 1
    case Swap => 1
    case Push => 2
    case Add => 3
  }

  /** Steps a task may still take, at most. */
  ghost function StepsLeft(g: Graph, tasks: seq<Task>): nat -> int {
    (i: nat) => if i < |tasks| && tasks[i].n < |g| then 5 * (|g[tasks[i].n]| - tasks[i].k) - Rank(tasks[i].pc) else 0
  }

  /** Path counts that a task of vertex n has added to vertex w with its first k edges. */
  ghost function Added(g: Graph, n: nat, k: nat, sigma: seq<nat>, w: nat): nat
    requires WellFormed(g) && |sigma| == |g|
  {
    if n < |g| && k <= |g[n]| then CountFirst(g, 1, n, w, k) * sigma[n] else 0
  }

  lemma AddedNext(g: Graph, n: nat, k: nat, sigma: seq<nat>, w: nat)
    requires WellFormed(g) && |sigma| == |g| && n < |g| && k < |g[n]|
    ensures Added(g, n, k + 1, sigma, w) == Added(g, n, k, sigma, w) + if g[n][k] == w then sigma[n] else 0
  {
    var one := if g[n][k] == w then 1 else 0;
    assert CountFirst(g, 1, n, w, k + 1) == CountFirst(g, 1, n, w, k) + one;
    hide CountFirst;
    Distribute(CountFirst(g, 1, n, w, k), one, sigma[n]);
  }

  ghost function AddedBy(g: Graph, tasks: seq<Task>, sigma: seq<nat>, w: nat): nat -> int
    requires WellFormed(g) && |sigma| == |g|
  {
    (i: nat) => if i < |tasks| then Added(g, tasks[i].n, tasks[i].k, sigma, w) else 0
  }

  /** Task i has won vertex w but not yet put it on the worklist. */
  ghost function HoldsWon(g: Graph, tasks: seq<Task>, w: nat): nat -> int {
    (i: nat) => if i < |tasks| && tasks[i].pc == Push && tasks[i].n < |g| && tasks[i].k < |g[tasks[i].n]|
                   && g[tasks[i].n][tasks[i].k] == w then 1 else 0
  }

  // ---------- The invariant of one level ----------

  /** The search has settled everything up to level l; `current` lists the vertices of level l once each. */
  ghost predicate Settled(g: Graph, s: nat, l: nat, dist: seq<nat>, sigma: seq<nat>, current: seq<nat>)
    requires WellFormed(g) && s < |g|
  {
    && |dist| == |sigma| == |g|
    && l < INFINITY
    && (forall v :: 0 <= v < |g| ==>
        if dist[v] == INFINITY then sigma[v] == 0 && forall e: nat :: e <= l ==> Count(g, e, s, v) == 0
        else dist[v] <= l && IsDist(g, s, v, dist[v]) && sigma[v] == Count(g, dist[v], s, v))
    && Lists(current, dist, l)
  }

  /** `current` has exactly the vertices at distance l, each once. */
  ghost predicate Lists(current: seq<nat>, dist: seq<nat>, l: nat) {
    && (forall v: nat :: v in current <==> v < |dist| && dist[v] == l)
    && forall i, j :: 0 <= i < j < |current| ==> current[i] != current[j]
  }

  ghost predicate TaskOk(g: Graph, l: nat, dist0: seq<nat>, dist: seq<nat>, t: Task)
    requires WellFormed(g) && |dist0| == |dist| == |g|
  {
    && t.n < |g| && dist0[t.n] == l && t.k <= |g[t.n]|
    && (t.pc != Read ==> t.k < |g[t.n]|)
    && (t.pc == Swap ==> dist0[g[t.n][t.k]] == INFINITY)
    && (t.pc == Reread ==> dist[g[t.n][t.k]] != INFINITY)
    && (t.pc == Push || t.pc == Add ==> dist[g[t.n][t.k]] == l + 1)
    && forall j :: 0 <= j < t.k ==> dist[g[t.n][j]] != INFINITY
  }

  ghost predicate TasksOk(g: Graph, l: nat, dist0: seq<nat>, dist: seq<nat>, tasks: seq<Task>)
    requires WellFormed(g) && |dist0| == |dist| == |g|
  {
    forall i :: 0 <= i < |tasks| ==> TaskOk(g, l, dist0, dist, tasks[i])
  }

  /** A vertex is as before the level, or it has just been reached along an edge of the level. */
  ghost predicate VertexOk(g: Graph, l: nat, dist0: seq<nat>, dist: seq<nat>, w: nat)
    requires WellFormed(g) && |dist0| == |dist| == |g| && w < |g|
  {
    || dist[w] == dist0[w]
    || (dist0[w] == INFINITY && dist[w] == l + 1
        && exists n, k :: 0 <= n < |g| && dist0[n] == l && 0 <= k < |g[n]| && g[n][k] == w)
  }

  ghost predicate LevelInv(g: Graph, l: nat, dist0: seq<nat>, sigma0: seq<nat>, dist: seq<nat>, sigma: seq<nat>,
                           tasks: seq<Task>, next: seq<nat>)
    requires WellFormed(g) && |dist0| == |sigma0| == |dist| == |sigma| == |g|
  {
    && l + 1 < INFINITY && (forall v :: 0 <= v < |g| ==> dist0[v] == INFINITY || dist0[v] <= l)
    && TasksOk(g, l, dist0, dist, tasks)
    && (forall w :: 0 <= w < |g| ==> VertexOk(g, l, dist0, dist, w))
    && (forall w: nat :: w < |g| && dist0[w] == INFINITY ==> sigma[w] == Total(|tasks|, AddedBy(g, tasks, sigma0, w)))
    && (forall w: nat :: w < |g| && dist0[w] != INFINITY ==> sigma[w] == sigma0[w])
    && (forall w: nat :: multiset(next)[w] + Total(|tasks|, HoldsWon(g, tasks, w)) == if w < |g| && dist[w] == l + 1 then 1 else 0)
  }

  /** One step of task t on edge (t.n, w): the new task, and what it writes. */
  ghost predicate TaskStep(g: Graph, l: nat, dist: seq<nat>, sigma: seq<nat>, t: Task, t': Task,
                           dist': seq<nat>, sigma': seq<nat>, next: seq<nat>, next': seq<nat>)
    requires WellFormed(g) && |dist| == |sigma| == |g| && t.n < |g| && t.k < |g[t.n]|
  {
    var w := g[t.n][t.k];
    match t.pc
    case Read =>
      dist' == dist && sigma' == sigma && next' == next
      && t' == if dist[w] == INFINITY then t.(pc := Swap) else t.(pc := Reread)
    case Reread =>
      dist' == dist && sigma' == sigma && next' == next
      && t' == if dist[w] == l + 1 then t.(pc := Add) else Task(t.n, t.k + 1, Read)
    case Swap =>
      sigma' == sigma && next' == next
      && if dist[w] == INFINITY then dist' == dist[w := l + 1] && t' == t.(pc := Push)
         else dist' == dist && t' == t.(pc := Add)
    case Push =>
      dist' == dist && sigma' == sigma && next' == next + [w] && t' == t.(pc := Add)
    case Add =>
      dist' == dist && sigma' == sigma[w := sigma[w] + sigma[t.n]] && next' == next && t' == Task(t.n, t.k + 1, Read)
  }

  lemma OtherTaskOk(g: Graph, l: nat, dist0: seq<nat>, dist: seq<nat>, dist': seq<nat>, t: Task)
    requires WellFormed(g) && |dist0| == |dist| == |dist'| == |g|
    requires forall v :: 0 <= v < |g| && dist[v] != INFINITY ==> dist'[v] == dist[v]
    requires l + 1 < INFINITY && TaskOk(g, l, dist0, dist, t)
    ensures TaskOk(g, l, dist0, dist', t)
  {
  }

  lemma StepTasks(g: Graph, l: nat, dist0: seq<nat>, sigma0: seq<nat>, dist: seq<nat>, sigma: seq<nat>,
                  tasks: seq<Task>, next: seq<nat>, i: nat,
                  t': Task, dist': seq<nat>, sigma': seq<nat>, next': seq<nat>)
    requires WellFormed(g) && |dist0| == |sigma0| == |dist| == |sigma| == |g|
    requires LevelInv(g, l, dist0, sigma0, dist, sigma, tasks, next)
    requires i < |tasks| && tasks[i].k < |g[tasks[i].n]|
    requires TaskStep(g, l, dist, sigma, tasks[i], t', dist', sigma', next, next')
    ensures |dist'| == |sigma'| == |g|
    ensures TasksOk(g, l, dist0, dist', tasks[i := t'])
    ensures forall w :: 0 <= w < |g| ==> VertexOk(g, l, dist0, dist', w)
  {
    var t := tasks[i];
    assert TaskOk(g, l, dist0, dist, t);
    assert VertexOk(g, l, dist0, dist, g[t.n][t.k]);
    assert l + 1 < INFINITY;
    OwnTask(g, l, dist0, dist, sigma, t, t', dist', sigma', next, next');
    var after := tasks[i := t'];
    hide TaskStep, Total;
    forall j | 0 <= j < |after|
      ensures TaskOk(g, l, dist0, dist', after[j])
    {
      if j != i {
        assert TaskOk(g, l, dist0, dist, tasks[j]);
        OtherTaskOk(g, l, dist0, dist, dist', tasks[j]);
      }
    }
    forall v | 0 <= v < |g|
      ensures VertexOk(g, l, dist0, dist', v)
    {
      assert VertexOk(g, l, dist0, dist, v);
      if dist'[v] != dist[v] {
        assert v == g[t.n][t.k];
      }
    }
  }

  /** The step's own task, and what may have changed with it. */
  lemma OwnTask(g: Graph, l: nat, dist0: seq<nat>, dist: seq<nat>, sigma: seq<nat>, t: Task, t': Task,
                dist': seq<nat>, sigma': seq<nat>, next: seq<nat>, next': seq<nat>)
    requires WellFormed(g) && |dist0| == |dist| == |sigma| == |g| && l + 1 < INFINITY
    requires TaskOk(g, l, dist0, dist, t) && t.k < |g[t.n]| && VertexOk(g, l, dist0, dist, g[t.n][t.k])
    requires forall v :: 0 <= v < |g| ==> dist0[v] == INFINITY || dist0[v] <= l
    requires TaskStep(g, l, dist, sigma, t, t', dist', sigma', next, next')
    ensures |dist'| == |sigma'| == |g| && TaskOk(g, l, dist0, dist', t')
    ensures forall v :: 0 <= v < |g| && dist[v] != INFINITY ==> dist'[v] == dist[v]
    ensures forall v :: 0 <= v < |g| && dist'[v] != dist[v] ==>
      v == g[t.n][t.k] && dist0[v] == INFINITY && dist'[v] == l + 1 && dist0[t.n] == l
  {
  }

  /** An added path count is accounted for by the edge it came along. */
  lemma StepCounts(g: Graph, l: nat, dist0: seq<nat>, sigma0: seq<nat>, dist: seq<nat>, sigma: seq<nat>,
                   tasks: seq<Task>, next: seq<nat>, i: nat,
                   t': Task, dist': seq<nat>, sigma': seq<nat>, next': seq<nat>, v: nat)
    requires WellFormed(g) && |dist0| == |sigma0| == |dist| == |sigma| == |g|
    requires LevelInv(g, l, dist0, sigma0, dist, sigma, tasks, next)
    requires i < |tasks| && tasks[i].k < |g[tasks[i].n]|
    requires TaskStep(g, l, dist, sigma, tasks[i], t', dist', sigma', next, next')
    requires v < |g| == |sigma'|
    ensures dist0[v] == INFINITY ==> sigma'[v] == Total(|tasks|, AddedBy(g, tasks[i := t'], sigma0, v))
    ensures dist0[v] != INFINITY ==> sigma'[v] == sigma0[v]
  {
    hide Count, CountFirst, Total, Added;
    var t := tasks[i];
    assert TaskOk(g, l, dist0, dist, t);
    var w := g[t.n][t.k];
    assert VertexOk(g, l, dist0, dist, w);
    assert sigma[t.n] == sigma0[t.n];
    var before, after := AddedBy(g, tasks, sigma0, v), AddedBy(g, tasks[i := t'], sigma0, v);
    assert dist0[v] == INFINITY ==> sigma[v] == Total(|tasks|, before);
    assert dist0[v] != INFINITY ==> sigma[v] == sigma0[v];
    assert l + 1 < INFINITY && (dist0[w] == INFINITY || dist0[w] <= l);
    AddedNext(g, t.n, t.k, sigma0, v);
    assert dist0[v] == INFINITY ==> after(i) == before(i) + sigma'[v] - sigma[v];
    TotalChange(|tasks|, before, after, i);
  }

  /** Every vertex of the next level is on the worklist once, or held by the one task that won it. */
  lemma StepWorklist(g: Graph, l: nat, dist0: seq<nat>, sigma0: seq<nat>, dist: seq<nat>, sigma: seq<nat>,
                     tasks: seq<Task>, next: seq<nat>, i: nat,
                     t': Task, dist': seq<nat>, sigma': seq<nat>, next': seq<nat>, v: nat)
    requires WellFormed(g) && |dist0| == |sigma0| == |dist| == |sigma| == |g|
    requires LevelInv(g, l, dist0, sigma0, dist, sigma, tasks, next)
    requires i < |tasks| && tasks[i].k < |g[tasks[i].n]|
    requires TaskStep(g, l, dist, sigma, tasks[i], t', dist', sigma', next, next')
    ensures |dist'| == |g|
    ensures multiset(next')[v] + Total(|tasks|, HoldsWon(g, tasks[i := t'], v)) == if v < |g| && dist'[v] == l + 1 then 1 else 0
  {
    var t := tasks[i];
    assert TaskOk(g, l, dist0, dist, t);
    var before, after := HoldsWon(g, tasks, v), HoldsWon(g, tasks[i := t'], v);
    assert multiset(next)[v] + Total(|tasks|, before) == if v < |g| && dist[v] == l + 1 then 1 else 0;
    hide LevelInv, TaskOk;
    TotalChange(|tasks|, before, after, i);
  }

  lemma StepKeepsInv(g: Graph, l: nat, dist0: seq<nat>, sigma0: seq<nat>, dist: seq<nat>, sigma: seq<nat>,
                     tasks: seq<Task>, next: seq<nat>, i: nat,
                     t': Task, dist': seq<nat>, sigma': seq<nat>, next': seq<nat>)
    requires WellFormed(g) && |dist0| == |sigma0| == |dist| == |sigma| == |g|
    requires LevelInv(g, l, dist0, sigma0, dist, sigma, tasks, next)
    requires i < |tasks| && tasks[i].k < |g[tasks[i].n]|
    requires TaskStep(g, l, dist, sigma, tasks[i], t', dist', sigma', next, next')
    ensures |dist'| == |sigma'| == |g| && LevelInv(g, l, dist0, sigma0, dist', sigma', tasks[i := t'], next')
    ensures 0 <= Total(|tasks|, StepsLeft(g, tasks[i := t'])) < Total(|tasks|, StepsLeft(g, tasks))
  {
    StepTasks(g, l, dist0, sigma0, dist, sigma, tasks, next, i, t', dist', sigma', next');
    forall v: nat
      ensures v < |g| && dist0[v] == INFINITY ==> sigma'[v] == Total(|tasks|, AddedBy(g, tasks[i := t'], sigma0, v))
      ensures v < |g| && dist0[v] != INFINITY ==> sigma'[v] == sigma0[v]
      ensures multiset(next')[v] + Total(|tasks|, HoldsWon(g, tasks[i := t'], v)) == if v < |g| && dist'[v] == l + 1 then 1 else 0
    {
      if v < |g| {
        StepCounts(g, l, dist0, sigma0, dist, sigma, tasks, next, i, t', dist', sigma', next', v);
      }
      StepWorklist(g, l, dist0, sigma0, dist, sigma, tasks, next, i, t', dist', sigma', next', v);
    }
    StepShortens(g, l, dist0, dist, sigma, tasks, i, t', dist', sigma', next, next');
  }

  lemma StepShortens(g: Graph, l: nat, dist0: seq<nat>, dist: seq<nat>, sigma: seq<nat>, tasks: seq<Task>, i: nat,
                     t': Task, dist': seq<nat>, sigma': seq<nat>, next: seq<nat>, next': seq<nat>)
    requires WellFormed(g) && |dist0| == |dist| == |sigma| == |g| == |dist'|
    requires i < |tasks| && tasks[i].n < |g| && tasks[i].k < |g[tasks[i].n]|
    requires TaskStep(g, l, dist, sigma, tasks[i], t', dist', sigma', next, next')
    requires TasksOk(g, l, dist0, dist', tasks[i := t'])
    ensures 0 <= Total(|tasks|, StepsLeft(g, tasks[i := t'])) < Total(|tasks|, StepsLeft(g, tasks))
  {
    var before, after := StepsLeft(g, tasks), StepsLeft(g, tasks[i := t']);
    TotalChange(|tasks|, before, after, i);
    forall j: nat | j < |tasks|
      ensures 0 <= after(j)
    {
      var t := tasks[i := t'][j];
      assert TaskOk(g, l, dist0, dist', t);
    }
    TotalNonneg(|tasks|, after);
  }

  // ---------- The end of a level ----------

  ghost predicate AllFinished(g: Graph, tasks: seq<Task>) {
    forall i :: 0 <= i < |tasks| ==> tasks[i].n < |g| && tasks[i].k == |g[tasks[i].n]|
  }

  /** One task per vertex of the level. */
  ghost predicate TasksOf(tasks: seq<Task>, current: seq<nat>) {
    |tasks| == |current| && forall i :: 0 <= i < |tasks| ==> tasks[i].n == current[i]
  }

  /** A sum over the vertices of a list without repetition is a sum over all vertices, the others contributing nothing. */
  lemma {:induction false} SumOverList(n: nat, list: seq<nat>, f: nat -> int)
    requires forall i :: 0 <= i < |list| ==> list[i] < n
    requires forall i, j :: 0 <= i < j < |list| ==> list[i] != list[j]
    ensures Total(n, Restricted(list, f)) == Total(|list|, OverList(list, f))
    decreases |list|
  {
    if list == [] {
      TotalConst(n, Restricted(list, f), 0);
    } else {
      var m := |list| - 1;
      SumOverList(n, list[..m], f);
      forall v: nat | v < n && v != list[m]
        ensures Restricted(list[..m], f)(v) == Restricted(list, f)(v)
      {
        if v in list {
          var i :| 0 <= i < |list| && list[i] == v;
          assert list[..m][i] == v;
        }
      }
      assert list[m] !in list[..m];
      TotalChange(n, Restricted(list[..m], f), Restricted(list, f), list[m]);
      TotalEq(m, OverList(list[..m], f), OverList(list, f));
    }
  }

  ghost function Restricted(list: seq<nat>, f: nat -> int): nat -> int {
    (v: nat) => if v in list then f(v) else 0
  }

  ghost function OverList(list: seq<nat>, f: nat -> int): nat -> int {
    (i: nat) => if i < |list| then f(list[i]) else 0
  }

  /** What all edges from n to w carry. */
  ghost function Carried(g: Graph, sigma: seq<nat>, w: nat): nat -> int
    requires WellFormed(g) && |sigma| == |g|
  {
    (n: nat) => if n < |g| then Count(g, 1, n, w) * sigma[n] else 0
  }

  lemma AddedIsCarried(g: Graph, sigma: seq<nat>, current: seq<nat>, tasks: seq<Task>, w: nat)
    requires WellFormed(g) && |sigma| == |g| && TasksOf(tasks, current) && AllFinished(g, tasks)
    ensures Total(|tasks|, AddedBy(g, tasks, sigma, w)) == Total(|current|, OverList(current, Carried(g, sigma, w)))
  {
    forall i: nat | i < |tasks|
      ensures AddedBy(g, tasks, sigma, w)(i) == OverList(current, Carried(g, sigma, w))(i)
    {
      assert tasks[i].n == current[i];
    }
    TotalEq(|tasks|, AddedBy(g, tasks, sigma, w), OverList(current, Carried(g, sigma, w)));
  }

  /** After the level the path count of a newly reached vertex is the number of walks one edge longer. */
  lemma LevelCounts(g: Graph, s: nat, l: nat, dist0: seq<nat>, sigma0: seq<nat>, current: seq<nat>, tasks: seq<Task>, w: nat)
    requires WellFormed(g) && s < |g| && w < |g| && Settled(g, s, l, dist0, sigma0, current)
    requires TasksOf(tasks, current) && AllFinished(g, tasks) && dist0[w] == INFINITY
    ensures Total(|tasks|, AddedBy(g, tasks, sigma0, w)) == Count(g, l + 1, s, w)
  {
    var f := Carried(g, sigma0, w);
    AddedIsCarried(g, sigma0, current, tasks, w);
    forall i | 0 <= i < |current|
      ensures current[i] < |g|
    {
      assert current[i] in current;
    }
    assert forall i, j :: 0 <= i < j < |current| ==> current[i] != current[j];
    hide AllFinished, TasksOf, Settled;
    SumOverList(|g|, current, f);
    forall v: nat | v < |g|
      ensures Restricted(current, f)(v) == Walks.Through(g, l, 1, s, w)(v)
    {
      OnlyTheLevelLeadsOn(g, s, l, dist0, sigma0, current, v, w);
    }
    TotalEq(|g|, Restricted(current, f), Walks.Through(g, l, 1, s, w));
    CountSplit(g, l, 1, s, w);
  }

  /** Only vertices of level l have walks of l edges from s and an edge to a vertex not yet reached. */
  lemma OnlyTheLevelLeadsOn(g: Graph, s: nat, l: nat, dist0: seq<nat>, sigma0: seq<nat>, current: seq<nat>, v: nat, w: nat)
    requires WellFormed(g) && s < |g| && v < |g| && w < |g| && Settled(g, s, l, dist0, sigma0, current) && dist0[w] == INFINITY
    ensures (if v in current then Count(g, 1, v, w) * sigma0[v] else 0) == Count(g, l, s, v) * Count(g, 1, v, w)
  {
    hide Count, CountFirst;
    if v in current {
      assert dist0[v] == l;
    } else if Count(g, l, s, v) > 0 && Count(g, 1, v, w) > 0 {
      assert dist0[v] != INFINITY && dist0[v] < l;
      CountJoin(g, dist0[v], 1, s, v, w);
      assert false;
    } else {
      ZeroProduct(Count(g, l, s, v), Count(g, 1, v, w));
    }
  }

  lemma ZeroProduct(x: nat, y: nat)
    requires x == 0 || y == 0
    ensures x * y == 0
  {
  }

  /** A newly reached vertex is the target of an edge of the level, and every such target has been reached. */
  lemma ReachedIffEdge(g: Graph, s: nat, l: nat, dist0: seq<nat>, sigma0: seq<nat>, current: seq<nat>,
                       dist: seq<nat>, sigma: seq<nat>, tasks: seq<Task>, next: seq<nat>, w: nat)
    requires WellFormed(g) && s < |g| && w < |g| && Settled(g, s, l, dist0, sigma0, current)
    requires |dist| == |sigma| == |g| && LevelInv(g, l, dist0, sigma0, dist, sigma, tasks, next)
    requires TasksOf(tasks, current) && AllFinished(g, tasks) && dist0[w] == INFINITY
    ensures dist[w] != INFINITY <==> Count(g, l + 1, s, w) > 0
  {
    assert VertexOk(g, l, dist0, dist, w) && TasksOk(g, l, dist0, dist, tasks);
    assert l + 1 < INFINITY;
    hide LevelInv, Count, CountFirst;
    if dist[w] != INFINITY {
      var n, k :| 0 <= n < |g| && dist0[n] == l && 0 <= k < |g[n]| && g[n][k] == w;
      assert IsDist(g, s, n, l);
      hide Settled, VertexOk, TasksOk;
      OneEdge(g, n, k);
      CountJoin(g, l, 1, s, n, w);
    }
    if Count(g, l + 1, s, w) > 0 {
      TargetReached(g, s, l, dist0, sigma0, current, dist, tasks, w);
    }
  }

  lemma TargetReached(g: Graph, s: nat, l: nat, dist0: seq<nat>, sigma0: seq<nat>, current: seq<nat>,
                      dist: seq<nat>, tasks: seq<Task>, w: nat)
    requires WellFormed(g) && s < |g| && w < |g| && Settled(g, s, l, dist0, sigma0, current)
    requires |dist| == |g| && TasksOk(g, l, dist0, dist, tasks)
    requires TasksOf(tasks, current) && AllFinished(g, tasks) && dist0[w] == INFINITY
    requires Count(g, l + 1, s, w) > 0
    ensures dist[w] != INFINITY
  {
    CountSplit(g, l, 1, s, w);
    var v := TotalPositive(|g|, Walks.Through(g, l, 1, s, w));
    PositiveProduct(Count(g, l, s, v), Count(g, 1, v, w));
    OnlyTheLevelLeadsOn(g, s, l, dist0, sigma0, current, v, w);
    var i :| 0 <= i < |current| && current[i] == v;
    hide Settled;
    assert TaskOk(g, l, dist0, dist, tasks[i]);
    var k := EdgeOfWalk(g, v, w);
  }

  /** When all tasks have finished, the next level is settled and its worklist lists it. */
  lemma LevelDone(g: Graph, s: nat, l: nat, dist0: seq<nat>, sigma0: seq<nat>, current: seq<nat>,
                  dist: seq<nat>, sigma: seq<nat>, tasks: seq<Task>, next: seq<nat>)
    requires WellFormed(g) && s < |g| && Settled(g, s, l, dist0, sigma0, current)
    requires |dist| == |sigma| == |g| && LevelInv(g, l, dist0, sigma0, dist, sigma, tasks, next)
    requires TasksOf(tasks, current) && AllFinished(g, tasks)
    ensures Settled(g, s, l + 1, dist, sigma, next)
    ensures forall v :: 0 <= v < |g| && dist0[v] != INFINITY ==> dist[v] == dist0[v]
  {
    forall v | 0 <= v < |g|
      ensures if dist[v] == INFINITY then sigma[v] == 0 && forall e: nat :: e <= l + 1 ==> Count(g, e, s, v) == 0
              else dist[v] <= l + 1 && IsDist(g, s, v, dist[v]) && sigma[v] == Count(g, dist[v], s, v)
    {
      assert VertexOk(g, l, dist0, dist, v);
      if dist0[v] == INFINITY {
        ReachedIffEdge(g, s, l, dist0, sigma0, current, dist, sigma, tasks, next, v);
        LevelCounts(g, s, l, dist0, sigma0, current, tasks, v);
      }
    }
    forall v: nat
      ensures multiset(next)[v] == if v < |g| && dist[v] == l + 1 then 1 else 0
    {
      TotalConst(|tasks|, HoldsWon(g, tasks, v), 0);
    }
    ListsFromCounts(next, dist, l + 1);
    forall v | 0 <= v < |g| && dist0[v] != INFINITY
      ensures dist[v] == dist0[v]
    {
      assert VertexOk(g, l, dist0, dist, v);
    }
  }

  lemma ListsFromCounts(next: seq<nat>, dist: seq<nat>, l: nat)
    requires forall v: nat :: multiset(next)[v] == if v < |dist| && dist[v] == l then 1 else 0
    ensures Lists(next, dist, l)
  {
    forall v: nat
      ensures v in next <==> v < |dist| && dist[v] == l
    {
      assert v in next <==> v in multiset(next);
    }
    forall i, j | 0 <= i < j < |next|
      ensures next[i] != next[j]
    {
      if next[i] == next[j] {
        CountedTwice(next, i, j);
        assert false;
      }
    }
  }

  // ---------- The search ----------

  /** Lets a task take its next step. */
  method StepTask(g: Graph, l: nat, t: Task, worklist: seq<nat>, distance: array<nat>, shortestPathCount: array<nat>)
    returns (after: Task, next: seq<nat>)
    requires WellFormed(g) && distance.Length == shortestPathCount.Length == |g| && distance != shortestPathCount
    requires t.n < |g| && t.k < |g[t.n]|
    modifies distance, shortestPathCount
    ensures TaskStep(g, l, old(distance[..]), old(shortestPathCount[..]), t, after, distance[..], shortestPathCount[..], worklist, next)
    ensures after.n == t.n
  {
    var dest := g[t.n][t.k];
    after, next := t, worklist;
    match t.pc {
      case Read =>
        after := if distance[dest] == INFINITY then t.(pc := Swap) else t.(pc := Reread);
      case Reread =>
        after := if distance[dest] == l + 1 then t.(pc := Add) else Task(t.n, t.k + 1, Read);
      case Swap =>
        if distance[dest] == INFINITY {
          distance[dest] := l + 1;
          after := t.(pc := Push);
        } else {
          after := t.(pc := Add);
        }
      case Push =>
        next := worklist + [dest];
        after := t.(pc := Add);
      case Add =>
        shortestPathCount[dest] := shortestPathCount[dest] + shortestPathCount[t.n];
        after := Task(t.n, t.k + 1, Read);
    }
  }

  /** Lets task i of a level take its next step. */
  method StepOne(g: Graph, l: nat, ghost dist0: seq<nat>, ghost sigma0: seq<nat>, ghost current: seq<nat>, tasks: seq<Task>,
                 next: seq<nat>, i: nat, distance: array<nat>, shortestPathCount: array<nat>)
    returns (tasks': seq<Task>, next': seq<nat>)
    requires WellFormed(g) && distance != shortestPathCount && |dist0| == |sigma0| == distance.Length == shortestPathCount.Length == |g|
    requires LevelInv(g, l, dist0, sigma0, distance[..], shortestPathCount[..], tasks, next) && TasksOf(tasks, current)
    requires i < |tasks| && tasks[i].n < |g| && tasks[i].k < |g[tasks[i].n]|
    modifies distance, shortestPathCount
    ensures LevelInv(g, l, dist0, sigma0, distance[..], shortestPathCount[..], tasks', next') && TasksOf(tasks', current)
    ensures 0 <= Total(|tasks'|, StepsLeft(g, tasks')) < Total(|tasks|, StepsLeft(g, tasks))
  {
    hide LevelInv, TaskStep;
    ghost var dist, sigma := distance[..], shortestPathCount[..];
    var after;
    after, next' := StepTask(g, l, tasks[i], next, distance, shortestPathCount);
    StepKeepsInv(g, l, dist0, sigma0, dist, sigma, tasks, next, i, after, distance[..], shortestPathCount[..], next');
    tasks' := tasks[i := after];
  }

  /** Processes one level: a task per vertex, their steps in any order until all have finished. */
  method RunLevel(g: Graph, ghost s: nat, l: nat, current: seq<nat>, distance: array<nat>, shortestPathCount: array<nat>)
    returns (next: seq<nat>)
    requires WellFormed(g) && s < |g| && distance != shortestPathCount && l + 1 < INFINITY
    requires Settled(g, s, l, distance[..], shortestPathCount[..], current)
    modifies distance, shortestPathCount
    ensures Settled(g, s, l + 1, distance[..], shortestPathCount[..], next)
    ensures forall v :: 0 <= v < |g| && old(distance[v]) != INFINITY ==> distance[v] == old(distance[v])
  {
    ghost var dist0, sigma0 := distance[..], shortestPathCount[..];
    var tasks := seq(|current|, i requires 0 <= i < |current| => Task(current[i], 0, Read));
    next := [];
    StartOfLevel(g, s, l, dist0, sigma0, current, tasks);
    hide LevelInv, Settled, TaskStep, TasksOf, WellFormed;
    while exists i :: 0 <= i < |tasks| && tasks[i].n < |g| && tasks[i].k < |g[tasks[i].n]|
      invariant distance.Length == shortestPathCount.Length == |g|
      invariant LevelInv(g, l, dist0, sigma0, distance[..], shortestPathCount[..], tasks, next)
      invariant TasksOf(tasks, current)
      invariant 0 <= Total(|tasks|, StepsLeft(g, tasks))
      decreases Total(|tasks|, StepsLeft(g, tasks))
    {
      var i :| 0 <= i < |tasks| && tasks[i].n < |g| && tasks[i].k < |g[tasks[i].n]|;
      tasks, next := StepOne(g, l, dist0, sigma0, current, tasks, next, i, distance, shortestPathCount);
    }
    NoneLeft(g, l, dist0, sigma0, distance[..], shortestPathCount[..], tasks, next);
    LevelDone(g, s, l, dist0, sigma0, current, distance[..], shortestPathCount[..], tasks, next);
  }

  lemma NoneLeft(g: Graph, l: nat, dist0: seq<nat>, sigma0: seq<nat>, dist: seq<nat>, sigma: seq<nat>,
                 tasks: seq<Task>, next: seq<nat>)
    requires WellFormed(g) && |dist0| == |sigma0| == |dist| == |sigma| == |g|
    requires LevelInv(g, l, dist0, sigma0, dist, sigma, tasks, next)
    requires !exists i :: 0 <= i < |tasks| && tasks[i].n < |g| && tasks[i].k < |g[tasks[i].n]|
    ensures AllFinished(g, tasks)
  {
    forall i | 0 <= i < |tasks|
      ensures tasks[i].n < |g| && tasks[i].k == |g[tasks[i].n]|
    {
      assert TaskOk(g, l, dist0, dist, tasks[i]);
    }
  }

  lemma StartOfLevel(g: Graph, s: nat, l: nat, dist0: seq<nat>, sigma0: seq<nat>, current: seq<nat>, tasks: seq<Task>)
    requires WellFormed(g) && s < |g| && Settled(g, s, l, dist0, sigma0, current) && l + 1 < INFINITY
    requires TasksOf(tasks, current) && forall i :: 0 <= i < |tasks| ==> tasks[i].k == 0 && tasks[i].pc == Read
    ensures LevelInv(g, l, dist0, sigma0, dist0, sigma0, tasks, [])
    ensures 0 <= Total(|tasks|, StepsLeft(g, tasks))
  {
    forall i | 0 <= i < |tasks|
      ensures TaskOk(g, l, dist0, dist0, tasks[i])
    {
      assert current[i] in current;
    }
    forall w: nat
      ensures w < |g| ==> Total(|tasks|, AddedBy(g, tasks, sigma0, w)) == 0
      ensures Total(|tasks|, HoldsWon(g, tasks, w)) == 0
    {
      TotalConst(|tasks|, HoldsWon(g, tasks, w), 0);
      if w < |g| {
        forall i: nat | i < |tasks|
          ensures AddedBy(g, tasks, sigma0, w)(i) == 0
        {
          assert CountFirst(g, 1, current[i], w, 0) == 0;
        }
        TotalConst(|tasks|, AddedBy(g, tasks, sigma0, w), 0);
      }
    }
    assert forall w: nat :: multiset([])[w] == 0;
    TotalNonneg(|tasks|, StepsLeft(g, tasks));
  }

  ghost function SeenSet(dist: seq<nat>): set<nat> {
    set v: nat | v < |dist| && dist[v] != INFINITY
  }

  /** The worklists of the search: the d-th has exactly the vertices at distance d, each once, and only the last is empty. */
  ghost predicate Stack(stack: seq<seq<nat>>, dist: seq<nat>) {
    && stack != [] && stack[|stack| - 1] == []
    && (forall d :: 0 <= d < |stack| ==> Lists(stack[d], dist, d))
    && (forall d :: 0 <= d < |stack| - 1 ==> stack[d] != [])
  }

  lemma DistUnique(g: Graph, s: nat, u: nat, l: nat)
    requires WellFormed(g) && s < |g| && IsDist(g, s, u, l)
    ensures forall d: nat :: IsDist(g, s, u, d) ==> d == l
  {
  }

  /** When a level is empty there is nothing any deeper. */
  lemma SearchDone(g: Graph, s: nat, l: nat, dist: seq<nat>, sigma: seq<nat>)
    requires WellFormed(g) && s < |g| && Settled(g, s, l, dist, sigma, [])
    ensures Levels(g, s, INFINITY, dist, sigma)
  {
    forall v | 0 <= v < |g|
      ensures LevelOf(g, s, INFINITY, v, dist[v], sigma[v])
    {
      if dist[v] == INFINITY && Reaches(g, s, v) {
        var n: nat :| Count(g, n, s, v) > 0;
        var u := LevelInhabited(g, s, l, dist, sigma, [], v, n);
        assert false;
      }
    }
  }

  /** On the way to a vertex not yet reached there is one of the current level. */
  lemma LevelInhabited(g: Graph, s: nat, l: nat, dist: seq<nat>, sigma: seq<nat>, current: seq<nat>, v: nat, n: nat) returns (u: nat)
    requires WellFormed(g) && s < |g| && Settled(g, s, l, dist, sigma, current)
    requires v < |g| && dist[v] == INFINITY && Count(g, n, s, v) > 0
    ensures u in current
  {
    var d := DistExists(g, s, v, n);
    u := DistSplit(g, s, v, l, d - l);
    DistUnique(g, s, u, l);
    assert IsDist(g, s, u, dist[u]);
  }

  /** Breadth-first search from s, filling in distances and path counts. */
  method LevelSSSP(g: Graph, s: nat, distance: array<nat>, shortestPathCount: array<nat>) returns (stack: seq<seq<nat>>)
    requires WellFormed(g) && s < |g| < INFINITY && distance != shortestPathCount
    requires distance.Length == shortestPathCount.Length == |g|
    requires forall v :: 0 <= v < |g| ==> distance[v] == INFINITY && shortestPathCount[v] == 0
    modifies distance, shortestPathCount
    ensures Levels(g, s, INFINITY, distance[..], shortestPathCount[..])
    ensures Stack(stack, distance[..])
  {
    var currentLevel := 0;
    stack := [[s]];
    distance[s] := 0;
    shortestPathCount[s] := 1;
    assert Settled(g, s, 0, distance[..], shortestPathCount[..], [s]);
    assert s in SeenSet(distance[..]);
    while stack[currentLevel] != []
      invariant |stack| == currentLevel + 1 && distance.Length == shortestPathCount.Length == |g|
      invariant Settled(g, s, currentLevel, distance[..], shortestPathCount[..], stack[currentLevel])
      invariant forall d :: 0 <= d <= currentLevel ==> Lists(stack[d], distance[..], d)
      invariant forall d :: 0 <= d < currentLevel ==> stack[d] != []
      invariant |SeenSet(distance[..])| >= currentLevel + if stack[currentLevel] != [] then 1 else 0
      decreases |g| - |SeenSet(distance[..])|, |stack[currentLevel]|
    {
      ghost var dist0 := distance[..];
      IndexSetSize(SeenSet(dist0), |g|);
      var next := RunLevel(g, s, currentLevel, stack[currentLevel], distance, shortestPathCount);
      stack := stack + [next];
      currentLevel := currentLevel + 1;
      MoreSeen(dist0, distance[..], currentLevel, next);
      IndexSetSize(SeenSet(distance[..]), |g|);
    }
    SearchDone(g, s, currentLevel, distance[..], shortestPathCount[..]);
  }

  lemma MoreSeen(dist0: seq<nat>, dist: seq<nat>, l: nat, next: seq<nat>)
    requires |dist0| == |dist| && forall v :: 0 <= v < |dist| && dist0[v] != INFINITY ==> dist[v] == dist0[v]
    requires forall v :: 0 <= v < |dist| && dist0[v] != INFINITY ==> dist0[v] < l
    requires Lists(next, dist, l) && l < INFINITY
    ensures |SeenSet(dist)| >= |SeenSet(dist0)| + if next != [] then 1 else 0
  {
    SubsetSize(SeenSet(dist0), SeenSet(dist));
    if next != [] {
      assert next[0] in next;
      SubsetSize(SeenSet(dist0) + {next[0]}, SeenSet(dist));
    }
  }

}
