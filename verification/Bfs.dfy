/**
  The breadth-first search of include/scea/algo/bfs.hpp: two bags that are swapped
  after every level and may hold a vertex several times. The vertices of a bag are
  handled by concurrent tasks whose steps come in any order whatever.
 */
module Bfs {
  import opened Finite
  import opened Sums
  import opened Walks
  import LevelSearch

  const UNVISITED: nat := 0xFFFF_FFFF_FFFF_FFFF

  /**
    A task is about to test its vertex, to write its level, to test the target of
    its current edge, or to put that target into the next bag; or it found its
    vertex visited.
   */
  datatype Pc = Test | Write | Look | Push | Skipped

  datatype Task = Task(v: nat, k: nat, pc: Pc)

  predicate Finished(g: Graph, t: Task)
    requires t.v < |g|
  {
    t.pc == Skipped || (t.pc == Look && t.k == |g[t.v]|)
  }

  ghost predicate Wrote(t: Task) {
    t.pc == Look || t.pc == Push
  }

  // ---------- One level ----------

  ghost predicate TaskOk(g: Graph, level: nat, path0: seq<nat>, path: seq<nat>, next: seq<nat>, t: Task)
    requires WellFormed(g) && |path0| == |path| == |g|
  {
    && t.v < |g| && t.k <= |g[t.v]|
    && (t.pc == Push ==> t.k < |g[t.v]|)
    && (t.pc == Test || t.pc == Write ==> t.k == 0)
    && (t.pc == Write ==> path0[t.v] == UNVISITED)
    && (t.pc == Skipped ==> path[t.v] != UNVISITED)
    && (Wrote(t) ==> path0[t.v] == UNVISITED && path[t.v] == level)
    && (Wrote(t) ==> forall j :: 0 <= j < t.k ==> g[t.v][j] in next || path[g[t.v][j]] != UNVISITED)
  }

  ghost predicate HasWriter(tasks: seq<Task>, v: nat) {
    exists i :: 0 <= i < |tasks| && tasks[i].v == v && Wrote(tasks[i])
  }

  /** A vertex is as before the level or has just been visited. */
  ghost predicate VertexOk(level: nat, path0: seq<nat>, path: seq<nat>, tasks: seq<Task>, v: nat)
    requires v < |path0| == |path|
  {
    path[v] == path0[v] || (path0[v] == UNVISITED && path[v] == level && HasWriter(tasks, v))
  }

  /** The next bag holds only targets of vertices visited on this level. */
  ghost predicate PushedOk(g: Graph, level: nat, path0: seq<nat>, path: seq<nat>, x: nat)
    requires WellFormed(g) && |path0| == |path| == |g|
  {
    exists u, k :: 0 <= u < |g| && 0 <= k < |g[u]| && g[u][k] == x && path0[u] == UNVISITED && path[u] == level
  }

  ghost predicate LevelInv(g: Graph, level: nat, path0: seq<nat>, path: seq<nat>, bag: seq<nat>, tasks: seq<Task>, next: seq<nat>)
    requires WellFormed(g) && |path0| == |path| == |g|
  {
    && level < UNVISITED && |tasks| == |bag|
    && (forall i :: 0 <= i < |tasks| ==> tasks[i].v == bag[i] && TaskOk(g, level, path0, path, next, tasks[i]))
    && (forall v: nat :: v < |g| ==> VertexOk(level, path0, path, tasks, v))
    && (forall x :: x in next ==> PushedOk(g, level, path0, path, x))
  }

  /** One step of a task: the new task, and what it writes. */
  ghost predicate TaskStep(g: Graph, level: nat, t: Task, t': Task, path: seq<nat>, path': seq<nat>, next: seq<nat>, next': seq<nat>)
    requires WellFormed(g) && |path| == |g| && t.v < |g| && !Finished(g, t) && t.k <= |g[t.v]| && (t.pc == Push ==> t.k < |g[t.v]|)
  {
    match t.pc
    case Test => path' == path && next' == next && t' == Task(t.v, 0, if path[t.v] == UNVISITED then Write else Skipped)
    case Write => path' == path[t.v := level] && next' == next && t' == Task(t.v, 0, Look)
    case Look => path' == path && next' == next
                 && t' == if path[g[t.v][t.k]] == UNVISITED then t.(pc := Push) else t.(k := t.k + 1)
    case Push => path' == path && next' == next + [g[t.v][t.k]] && t' == Task(t.v, t.k + 1, Look)
  }

  lemma OtherTask(g: Graph, level: nat, path0: seq<nat>, path: seq<nat>, path': seq<nat>, next: seq<nat>, next': seq<nat>, t: Task)
    requires WellFormed(g) && |path0| == |path| == |path'| == |g| && level < UNVISITED
    requires TaskOk(g, level, path0, path, next, t)
    requires forall v :: 0 <= v < |g| ==> path'[v] == path[v] || path'[v] == level
    requires forall x :: x in next ==> x in next'
    ensures TaskOk(g, level, path0, path', next', t)
  {
  }

  /** Every step of every task keeps the invariant. */
  lemma StepKeepsInv(g: Graph, level: nat, path0: seq<nat>, path: seq<nat>, path': seq<nat>, bag: seq<nat>, tasks: seq<Task>, i: nat,
                     t': Task, next: seq<nat>, next': seq<nat>)
    requires WellFormed(g) && |path0| == |path| == |g| && LevelInv(g, level, path0, path, bag, tasks, next)
    requires i < |tasks| && tasks[i].v < |g| && !Finished(g, tasks[i]) && TaskOk(g, level, path0, path, next, tasks[i])
    requires TaskStep(g, level, tasks[i], t', path, path', next, next')
    ensures |path'| == |g| && LevelInv(g, level, path0, path', bag, tasks[i := t'], next')
  {
    var t := tasks[i];
    var tasks' := tasks[i := t'];
    assert VertexOk(level, path0, path, tasks, t.v);
    assert forall x :: x in next ==> x in next';
    forall j | 0 <= j < |tasks'|
      ensures tasks'[j].v == bag[j] && TaskOk(g, level, path0, path', next', tasks'[j])
    {
      OtherTask(g, level, path0, path, path', next, next', tasks[j]);
    }
    forall v: nat | v < |g|
      ensures VertexOk(level, path0, path', tasks', v)
    {
      assert VertexOk(level, path0, path, tasks, v);
      WriterStays(tasks, i, t', v);
    }
    forall x | x in next'
      ensures PushedOk(g, level, path0, path', x)
    {
      if x in next {
        assert PushedOk(g, level, path0, path, x);
      }
    }
  }

  lemma WriterStays(tasks: seq<Task>, i: nat, t': Task, v: nat)
    requires i < |tasks| && t'.v == tasks[i].v && (Wrote(tasks[i]) ==> Wrote(t'))
    ensures HasWriter(tasks, v) ==> HasWriter(tasks[i := t'], v)
    ensures t'.v == v && Wrote(t') ==> HasWriter(tasks[i := t'], v)
  {
    var tasks' := tasks[i := t'];
    assert tasks'[i] == t';
    if HasWriter(tasks, v) {
      var j :| 0 <= j < |tasks| && tasks[j].v == v && Wrote(tasks[j]);
      assert tasks'[j].v == v && Wrote(tasks'[j]);
    }
  }

  // ---------- Between levels ----------

  /** Everything nearer than `level` has its distance, the rest is unvisited; the bag has what is at that distance. */
  ghost predicate Settled(g: Graph, s: nat, level: nat, path: seq<nat>, bag: seq<nat>)
    requires WellFormed(g) && s < |g|
  {
    && |path| == |g|
    && (forall v: nat :: v < |g| ==>
        if path[v] == UNVISITED then forall e: nat :: e < level ==> Count(g, e, s, v) == 0
        else path[v] < level && IsDist(g, s, v, path[v]))
    && (forall v :: v in bag ==> v < |g| && (path[v] == UNVISITED ==> Count(g, level, s, v) > 0))
    && (forall v: nat :: v < |g| && IsDist(g, s, v, level) ==> v in bag)
  }

  ghost predicate AllFinished(g: Graph, tasks: seq<Task>) {
    forall i :: 0 <= i < |tasks| ==> tasks[i].v < |g| && Finished(g, tasks[i])
  }

  /** A level done: its vertices are visited, and the next bag has those one further. */
  lemma LevelDone(g: Graph, s: nat, level: nat, path0: seq<nat>, path: seq<nat>, bag: seq<nat>, tasks: seq<Task>, next: seq<nat>)
    requires WellFormed(g) && s < |g| && |path| == |g| && Settled(g, s, level, path0, bag)
    requires LevelInv(g, level, path0, path, bag, tasks, next) && AllFinished(g, tasks)
    ensures Settled(g, s, level + 1, path, next)
    ensures next != [] ==> exists v :: 0 <= v < |g| && path0[v] == UNVISITED && path[v] != UNVISITED
  {
    forall v: nat | v < |g|
      ensures if path[v] == UNVISITED then forall e: nat :: e < level + 1 ==> Count(g, e, s, v) == 0
        else path[v] < level + 1 && IsDist(g, s, v, path[v])
    {
      VertexDone(g, s, level, path0, path, bag, tasks, next, v);
    }
    forall x | x in next
      ensures x < |g| && (path[x] == UNVISITED ==> Count(g, level + 1, s, x) > 0)
      ensures exists v :: 0 <= v < |g| && path0[v] == UNVISITED && path[v] != UNVISITED
    {
      assert PushedOk(g, level, path0, path, x);
      PushedDone(g, s, level, path0, path, bag, tasks, next, x);
    }
    forall v: nat | v < |g| && IsDist(g, s, v, level + 1)
      ensures v in next
    {
      NextFound(g, s, level, path0, path, bag, tasks, next, v);
    }
    if next != [] {
      assert next[0] in next;
    }
  }

  /** A bag vertex that was unvisited before the level is at the level's distance. */
  lemma AtLevel(g: Graph, s: nat, level: nat, path0: seq<nat>, bag: seq<nat>, v: nat)
    requires WellFormed(g) && s < |g| && Settled(g, s, level, path0, bag) && v in bag && path0[v] == UNVISITED
    ensures v < |g| && IsDist(g, s, v, level)
  {
  }

  lemma VertexDone(g: Graph, s: nat, level: nat, path0: seq<nat>, path: seq<nat>, bag: seq<nat>, tasks: seq<Task>, next: seq<nat>, v: nat)
    requires WellFormed(g) && s < |g| && |path| == |g| && Settled(g, s, level, path0, bag) && v < |g|
    requires LevelInv(g, level, path0, path, bag, tasks, next) && AllFinished(g, tasks)
    ensures if path[v] == UNVISITED then forall e: nat :: e < level + 1 ==> Count(g, e, s, v) == 0
      else path[v] < level + 1 && IsDist(g, s, v, path[v])
  {
    assert VertexOk(level, path0, path, tasks, v);
    if path[v] != path0[v] {
      var i :| 0 <= i < |tasks| && tasks[i].v == v && Wrote(tasks[i]);
      assert bag[i] in bag;
      AtLevel(g, s, level, path0, bag, v);
    } else if path[v] == UNVISITED && Count(g, level, s, v) > 0 {
      assert IsDist(g, s, v, level);
      var i :| 0 <= i < |bag| && bag[i] == v;
      BagVisited(g, level, path0, path, bag, tasks, next, i);
      assert false;
    }
  }

  lemma BagVisited(g: Graph, level: nat, path0: seq<nat>, path: seq<nat>, bag: seq<nat>, tasks: seq<Task>, next: seq<nat>, i: nat)
    requires WellFormed(g) && |path0| == |path| == |g| && i < |bag|
    requires LevelInv(g, level, path0, path, bag, tasks, next) && AllFinished(g, tasks)
    ensures bag[i] < |g| && path[bag[i]] != UNVISITED
  {
    assert TaskOk(g, level, path0, path, next, tasks[i]);
  }

  lemma PushedDone(g: Graph, s: nat, level: nat, path0: seq<nat>, path: seq<nat>, bag: seq<nat>, tasks: seq<Task>, next: seq<nat>, x: nat)
    requires WellFormed(g) && s < |g| && |path| == |g| && Settled(g, s, level, path0, bag)
    requires LevelInv(g, level, path0, path, bag, tasks, next) && PushedOk(g, level, path0, path, x) && level < UNVISITED
    ensures x < |g| && Count(g, level + 1, s, x) > 0
    ensures exists v :: 0 <= v < |g| && path0[v] == UNVISITED && path[v] != UNVISITED
  {
    var u: nat, k: nat :| u < |g| && k < |g[u]| && g[u][k] == x && path0[u] == UNVISITED && path[u] == level;
    assert VertexOk(level, path0, path, tasks, u);
    var i :| 0 <= i < |tasks| && tasks[i].v == u && Wrote(tasks[i]);
    assert bag[i] in bag;
    AtLevel(g, s, level, path0, bag, u);
    OneEdge(g, u, k);
    CountJoin(g, level, 1, s, u, x);
  }

  /** Every vertex one further has been put into the next bag. */
  lemma NextFound(g: Graph, s: nat, level: nat, path0: seq<nat>, path: seq<nat>, bag: seq<nat>, tasks: seq<Task>, next: seq<nat>, v: nat)
    requires WellFormed(g) && s < |g| && |path| == |g| && Settled(g, s, level, path0, bag)
    requires LevelInv(g, level, path0, path, bag, tasks, next) && AllFinished(g, tasks)
    requires v < |g| && IsDist(g, s, v, level + 1)
    ensures v in next
  {
    var u := DistSplit(g, s, v, level, 1);
    var k := EdgeOfWalk(g, u, v);
    var b :| 0 <= b < |bag| && bag[b] == u;
    BagVisited(g, level, path0, path, bag, tasks, next, b);
    assert path0[u] == UNVISITED by { LevelSearch.DistUnique(g, s, u, level); }
    assert VertexOk(level, path0, path, tasks, u);
    var i :| 0 <= i < |tasks| && tasks[i].v == u && Wrote(tasks[i]);
    assert TaskOk(g, level, path0, path, next, tasks[i]);
    VertexDone(g, s, level, path0, path, bag, tasks, next, v);
    if path[v] != UNVISITED {
      LevelSearch.DistUnique(g, s, v, path[v]);
      assert false;
    }
  }

  // ---------- Running a level ----------

  ghost function Rank(pc: Pc): int {
    match pc
    case Test => 4
    case Write => 3
    case Look => 2
    case Push => 1
    case Skipped => 0
  }

  /** Steps a task may still take, at most. */
  ghost function StepsLeft(g: Graph, tasks: seq<Task>): nat -> int {
    (i: nat) => if i < |tasks| && tasks[i].v < |g| && tasks[i].k <= |g[tasks[i].v]| then
                  (if tasks[i].pc == Skipped then 0 else 2 * (|g[tasks[i].v]| - tasks[i].k) + Rank(tasks[i].pc)) else 0
  }

  lemma StepShortens(g: Graph, level: nat, tasks: seq<Task>, i: nat, t': Task, path: seq<nat>, path': seq<nat>, next: seq<nat>, next': seq<nat>)
    requires WellFormed(g) && |path| == |g| && i < |tasks| && tasks[i].v < |g| && !Finished(g, tasks[i])
    requires tasks[i].k <= |g[tasks[i].v]| && (tasks[i].pc == Push ==> tasks[i].k < |g[tasks[i].v]|)
    requires tasks[i].pc == Test || tasks[i].pc == Write ==> tasks[i].k == 0
    requires TaskStep(g, level, tasks[i], t', path, path', next, next')
    ensures 0 <= Total(|tasks|, StepsLeft(g, tasks[i := t'])) < Total(|tasks|, StepsLeft(g, tasks))
  {
    TotalChange(|tasks|, StepsLeft(g, tasks), StepsLeft(g, tasks[i := t']), i);
    TotalNonneg(|tasks|, StepsLeft(g, tasks[i := t']));
  }

  /** One step of one task. */
  method StepTask(g: Graph, level: nat, t: Task, shortestPath: array<nat>, next: seq<nat>) returns (t': Task, next': seq<nat>)
    requires WellFormed(g) && shortestPath.Length == |g| && t.v < |g| && !Finished(g, t) && t.k <= |g[t.v]| && (t.pc == Push ==> t.k < |g[t.v]|)
    modifies shortestPath
    ensures TaskStep(g, level, t, t', old(shortestPath[..]), shortestPath[..], next, next')
  {
    t', next' := t, next;
    match t.pc
    case Test =>
      t' := Task(t.v, 0, if shortestPath[t.v] == UNVISITED then Write else Skipped);
    case Write =>
      shortestPath[t.v] := level;
      t' := Task(t.v, 0, Look);
    case Look =>
      var neighbor := g[t.v][t.k];
      t' := if shortestPath[neighbor] == UNVISITED then t.(pc := Push) else t.(k := t.k + 1);
    case Push =>
      next' := next + [g[t.v][t.k]];
      t' := Task(t.v, t.k + 1, Look);
  }

  /** Handles all vertices of a bag, the steps of their tasks in any order. */
  method RunLevel(g: Graph, level: nat, bag: seq<nat>, shortestPath: array<nat>) returns (next: seq<nat>, ghost tasks: seq<Task>)
    requires WellFormed(g) && shortestPath.Length == |g| && level < UNVISITED
    requires forall i :: 0 <= i < |bag| ==> bag[i] < |g|
    modifies shortestPath
    ensures LevelInv(g, level, old(shortestPath[..]), shortestPath[..], bag, tasks, next) && AllFinished(g, tasks)
  {
    ghost var path0 := shortestPath[..];
    next := [];
    var running := seq(|bag|, (i: nat) requires i < |bag| => Task(bag[i], 0, Test));
    TotalNonneg(|running|, StepsLeft(g, running));
    while exists i :: 0 <= i < |running| && !Finished(g, running[i])
      invariant LevelInv(g, level, path0, shortestPath[..], bag, running, next)
      invariant forall i :: 0 <= i < |running| ==> running[i].v < |g|
      invariant 0 <= Total(|running|, StepsLeft(g, running))
      decreases Total(|running|, StepsLeft(g, running))
    {
      var i :| 0 <= i < |running| && !Finished(g, running[i]);
      ghost var path, pushed := shortestPath[..], next;
      assert TaskOk(g, level, path0, path, pushed, running[i]);
      var after;
      after, next := StepTask(g, level, running[i], shortestPath, next);
      StepShortens(g, level, running, i, after, path, shortestPath[..], pushed, next);
      StepKeepsInv(g, level, path0, path, shortestPath[..], bag, running, i, after, pushed, next);
      running := running[i := after];
    }
    tasks := running;
  }

  // ---------- The search ----------

  ghost function Visited(path: seq<nat>): set<nat> {
    set v: nat | v < |path| && path[v] != UNVISITED
  }

  /** Each vertex has its hop distance, or it cannot be reached. */
  ghost predicate HopDistances(g: Graph, s: nat, path: seq<nat>)
    requires WellFormed(g) && s < |g|
  {
    |path| == |g| && forall v: nat :: v < |g| ==>
      if path[v] == UNVISITED then !Reaches(g, s, v) else IsDist(g, s, v, path[v])
  }

  /** An empty bag means that there is nothing further. */
  lemma SearchDone(g: Graph, s: nat, level: nat, path: seq<nat>)
    requires WellFormed(g) && s < |g| && Settled(g, s, level, path, [])
    ensures HopDistances(g, s, path)
  {
    forall u: nat | u < |g|
      ensures !IsDist(g, s, u, level)
    {
      assert u !in [];
    }
    forall v: nat | v < |g| && path[v] == UNVISITED
      ensures !Reaches(g, s, v)
    {
      if n: nat :| Count(g, n, s, v) > 0 {
        var d := DistExists(g, s, v, n);
        var u := DistSplit(g, s, v, level, d - level);
        assert false;
      }
    }
  }

  lemma LevelProgress(path0: seq<nat>, path: seq<nat>, level: nat, next: seq<nat>)
    requires |path0| == |path| && forall v :: 0 <= v < |path| && path0[v] != UNVISITED ==> path[v] != UNVISITED
    requires next != [] ==> exists v :: 0 <= v < |path| && path0[v] == UNVISITED && path[v] != UNVISITED
    requires |Visited(path0)| >= level
    ensures next != [] ==> |Visited(path)| > |Visited(path0)|
    ensures |path0| >= |Visited(path)| >= |Visited(path0)|
  {
    SubsetSize(Visited(path0), Visited(path));
    IndexSetSize(Visited(path), |path|);
    if next != [] {
      var v: nat :| v < |path| && path0[v] == UNVISITED && path[v] != UNVISITED;
      SubsetSize(Visited(path0) + {v}, Visited(path));
    }
  }

  /** The number of edges on a shortest path from src to every vertex. */
  method Compute(g: Graph, src: nat) returns (paths: seq<nat>)
    requires WellFormed(g) && |g| < UNVISITED
    ensures src >= |g| ==> paths == seq(|g|, (v: nat) => UNVISITED)
    ensures src < |g| ==> HopDistances(g, src, paths)
  {
    var shortestPath := new nat[|g|](_ => UNVISITED);
    if src >= |g| {
      return shortestPath[..];
    }
    var next: seq<nat> := [src];
    var level: nat := 0;
    SearchStart(g, src, shortestPath[..]);
    while next != []
      invariant Settled(g, src, level, shortestPath[..], next)
      invariant next != [] ==> |Visited(shortestPath[..])| >= level
      decreases |g| - |Visited(shortestPath[..])|, |next|
    {
      ghost var path0 := shortestPath[..];
      IndexSetSize(Visited(path0), |g|);
      var current := next;
      forall i | 0 <= i < |current|
        ensures current[i] < |g|
      {
        assert current[i] in current;
      }
      ghost var tasks;
      next, tasks := RunLevel(g, level, current, shortestPath);
      LevelDone(g, src, level, path0, shortestPath[..], current, tasks, next);
      StaysVisited(g, level, path0, shortestPath[..], current, tasks, next);
      LevelProgress(path0, shortestPath[..], level, next);
      level := level + 1;
    }
    SearchDone(g, src, level, shortestPath[..]);
    return shortestPath[..];
  }

  lemma SearchStart(g: Graph, s: nat, path: seq<nat>)
    requires WellFormed(g) && s < |g| == |path| && forall v :: 0 <= v < |g| ==> path[v] == UNVISITED
    ensures Settled(g, s, 0, path, [s])
  {
    forall v: nat | v < |g| && IsDist(g, s, v, 0)
      ensures v in [s]
    {
      assert Count(g, 0, s, v) > 0;
    }
    assert Count(g, 0, s, s) == 1;
  }

  lemma StaysVisited(g: Graph, level: nat, path0: seq<nat>, path: seq<nat>, bag: seq<nat>, tasks: seq<Task>, next: seq<nat>)
    requires WellFormed(g) && |path0| == |path| == |g| && LevelInv(g, level, path0, path, bag, tasks, next)
    ensures forall v :: 0 <= v < |path| && path0[v] != UNVISITED ==> path[v] != UNVISITED
  {
    forall v: nat | v < |path| && path0[v] != UNVISITED
      ensures path[v] != UNVISITED
    {
      assert VertexOk(level, path0, path, tasks, v);
    }
  }
}
