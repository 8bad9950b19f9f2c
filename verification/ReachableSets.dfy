/**
  Generation of random reverse reachable sets in
  wf4/src/influence_maximization.cpp, for one set: the partial set that travels
  between hosts, the expansion of its frontier, and what "reachable" means.
 */
module ReachableSets {

  /** Owner host and out-edges of every node; edges are stored at the owner of their source. */
  datatype Net = Net(hosts: nat, owner: seq<nat>, adj: seq<seq<nat>>)

  ghost predicate WellFormed(net: Net) {
    && |net.owner| == |net.adj|
    && (forall v :: 0 <= v < |net.owner| ==> net.owner[v] < net.hosts)
    && forall u, k :: 0 <= u < |net.adj| && 0 <= k < |net.adj[u]| ==> net.adj[u][k] < |net.adj|
  }

  /**
    Outcome of the random draw for the k-th edge of node u while building set
    `id` of host `owner`. No edge is drawn twice for the same set.
   */
  type Coins = (nat, nat, nat, nat) -> bool

  datatype Partial = Partial(id: nat, ownerHost: nat, reached: set<nat>, frontier: set<nat>)

  /** Targets of the first n edges of u that are live for the set p. */
  function LiveTargets(net: Net, coin: Coins, p: Partial, u: nat, n: nat): set<nat>
    requires u < |net.adj| && n <= |net.adj[u]|
  {
    set k | 0 <= k < n && coin(p.id, p.ownerHost, u, k) :: net.adj[u][k]
  }

  function Live(net: Net, coin: Coins, p: Partial, u: nat): set<nat>
    requires u < |net.adj|
  {
    LiveTargets(net, coin, p, u, |net.adj[u]|)
  }

  // ---------- Reachability over live edges ----------

  ghost predicate LivePath(net: Net, coin: Coins, p: Partial, path: seq<nat>) {
    && path != []
    && (forall i :: 0 <= i < |path| ==> path[i] < |net.adj|)
    && forall i: nat :: i + 1 < |path| ==> LiveStep(net, coin, p, path, i)
  }

  ghost predicate LiveStep(net: Net, coin: Coins, p: Partial, path: seq<nat>, i: nat)
    requires i + 1 < |path|
  {
    path[i] < |net.adj| && LiveTo(net, coin, p, path[i], path[i + 1])
  }

  /** Some edge from u to v has been drawn for the set. */
  ghost predicate LiveTo(net: Net, coin: Coins, p: Partial, u: nat, v: nat)
    requires u < |net.adj|
  {
    exists k :: 0 <= k < |net.adj[u]| && LiveEdge(net, coin, p, u, k, v)
  }

  ghost predicate LiveEdge(net: Net, coin: Coins, p: Partial, u: nat, k: nat, v: nat)
    requires u < |net.adj| && k < |net.adj[u]|
  {
    coin(p.id, p.ownerHost, u, k) && net.adj[u][k] == v
  }

  lemma LiveByEdge(net: Net, coin: Coins, p: Partial, u: nat, v: nat)
    requires u < |net.adj|
    ensures v in Live(net, coin, p, u) <==> LiveTo(net, coin, p, u, v)
  {
    if LiveTo(net, coin, p, u, v) {
      var k :| 0 <= k < |net.adj[u]| && LiveEdge(net, coin, p, u, k, v);
    }
    if v in Live(net, coin, p, u) {
      var k :| 0 <= k < |net.adj[u]| && coin(p.id, p.ownerHost, u, k) && net.adj[u][k] == v;
      assert LiveEdge(net, coin, p, u, k, v);
    }
  }

  ghost predicate Reachable(net: Net, coin: Coins, p: Partial, root: nat, v: nat) {
    exists path :: LivePath(net, coin, p, path) && path[0] == root && path[|path| - 1] == v
  }

  lemma ReachableExtends(net: Net, coin: Coins, p: Partial, root: nat, u: nat, v: nat)
    requires WellFormed(net) && u < |net.adj|
    requires Reachable(net, coin, p, root, u) && v in Live(net, coin, p, u)
    ensures Reachable(net, coin, p, root, v)
  {
    var path :| LivePath(net, coin, p, path) && path[0] == root && path[|path| - 1] == u;
    var longer := path + [v];
    forall i: nat | i + 1 < |longer|
      ensures LiveStep(net, coin, p, longer, i)
    {
      if i + 1 < |path| {
        assert LiveStep(net, coin, p, path, i);
      } else {
        LiveByEdge(net, coin, p, u, v);
      }
    }
    assert LivePath(net, coin, p, longer) && longer[|path|] == v;
  }

  lemma RootReachable(net: Net, coin: Coins, p: Partial, root: nat)
    requires root < |net.adj|
    ensures Reachable(net, coin, p, root, root)
  {
    assert LivePath(net, coin, p, [root]) && [root][|[root]| - 1] == root;
  }

  /** A set that has the root and is closed under live edges has everything reachable. */
  lemma {:induction false} ClosedHasPath(net: Net, coin: Coins, p: Partial, s: set<nat>, path: seq<nat>)
    requires LivePath(net, coin, p, path) && path[0] in s
    requires forall u :: u in s ==> u < |net.adj| && Live(net, coin, p, u) <= s
    ensures path[|path| - 1] in s
    decreases |path|
  {
    if |path| > 1 {
      assert LiveStep(net, coin, p, path, 0);
      LiveByEdge(net, coin, p, path[0], path[1]);
      var rest := path[1..];
      forall i: nat | i + 1 < |rest|
        ensures LiveStep(net, coin, p, rest, i)
      {
        assert LiveStep(net, coin, p, path, i + 1);
      }
      ClosedHasPath(net, coin, p, s, rest);
    }
  }

  // ---------- One step of a set ----------

  ghost predicate Sound(net: Net, p: Partial) {
    p.frontier <= p.reached && forall v :: v in p.reached ==> v < |net.adj|
  }

  /** The nodes whose edges have been followed and whose counters have been raised for this set. */
  ghost function Expanded(p: Partial): set<nat> {
    p.reached - p.frontier
  }

  /** Follows the live edges of frontier node u. */
  ghost function Expand(net: Net, coin: Coins, p: Partial, u: nat): Partial
    requires u < |net.adj|
  {
    var found := Live(net, coin, p, u) - p.reached;
    p.(reached := p.reached + found, frontier := p.frontier - {u} + found)
  }

  /** Only counts frontier node u: what is done instead of following its edges once the traversal is cut off. */
  ghost function Tally(p: Partial, u: nat): Partial {
    p.(frontier := p.frontier - {u})
  }

  /** Drops the frontier nodes nobody will visit any more. */
  ghost function CutOff(p: Partial): Partial {
    p.(reached := p.reached - p.frontier, frontier := {})
  }

  lemma ExpandFacts(net: Net, coin: Coins, p: Partial, u: nat)
    requires WellFormed(net) && Sound(net, p) && u in p.frontier
    ensures Sound(net, Expand(net, coin, p, u))
    ensures Expanded(Expand(net, coin, p, u)) == Expanded(p) + {u}
    ensures Live(net, coin, p, u) <= Expand(net, coin, p, u).reached
  {
  }

  lemma TallyFacts(net: Net, p: Partial, u: nat)
    requires Sound(net, p) && u in p.frontier
    ensures Sound(net, Tally(p, u)) && Expanded(Tally(p, u)) == Expanded(p) + {u}
  {
  }

  lemma CutOffFacts(net: Net, p: Partial)
    requires Sound(net, p)
    ensures Sound(net, CutOff(p)) && Expanded(CutOff(p)) == Expanded(p)
  {
  }

  // ---------- The traversal at one host ----------

  /** The set after visiting the nodes of the trace in order. */
  ghost function Visit(net: Net, coin: Coins, p: Partial, trace: seq<nat>, finish: bool): (r: Partial)
    requires forall i :: 0 <= i < |trace| ==> trace[i] < |net.adj|
    ensures r.id == p.id && r.ownerHost == p.ownerHost
  {
    if trace == [] then p
    else
      var n := |trace| - 1;
      var prior := Visit(net, coin, p, trace[..n], finish);
      if finish then Tally(prior, trace[n]) else Expand(net, coin, prior, trace[n])
  }

  /** Every node of the trace is, when its turn comes, a frontier node that the host owns. */
  ghost predicate LegalTrace(net: Net, coin: Coins, host: nat, p: Partial, trace: seq<nat>, finish: bool) {
    && |net.owner| == |net.adj|
    && (forall i :: 0 <= i < |trace| ==> trace[i] < |net.adj| && net.owner[trace[i]] == host)
    && forall i :: 0 <= i < |trace| ==> trace[i] in Visit(net, coin, p, trace[..i], finish).frontier
  }

  ghost predicate NothingOwned(net: Net, host: nat, nodes: set<nat>)
    requires |net.owner| == |net.adj|
  {
    forall v :: v in nodes && v < |net.adj| ==> net.owner[v] != host
  }

  ghost function Queued(q: seq<nat>): set<nat> {
    set i | 0 <= i < |q| :: q[i]
  }

  ghost predicate Distinct(q: seq<nat>) {
    forall i, j :: 0 <= i < j < |q| ==> q[i] != q[j]
  }

  lemma QueuedAppend(q: seq<nat>, v: nat)
    ensures Queued(q + [v]) == Queued(q) + {v}
    ensures Distinct(q) && v !in Queued(q) ==> Distinct(q + [v])
  {
    forall w
      ensures w in Queued(q + [v]) <==> w in Queued(q) + {v}
    {
      if w in Queued(q) {
        var i :| 0 <= i < |q| && q[i] == w;
        assert (q + [v])[i] == w;
      } else if w == v {
        assert (q + [v])[|q|] == v;
      }
    }
  }

  lemma QueuedPop(q: seq<nat>)
    requires q != [] && Distinct(q)
    ensures Queued(q[1..]) == Queued(q) - {q[0]} && Distinct(q[1..]) && q[0] in Queued(q)
  {
    forall w
      ensures w in Queued(q[1..]) <==> w in Queued(q) - {q[0]}
    {
      if w in Queued(q) - {q[0]} {
        var i :| 0 <= i < |q| && q[i] == w;
        assert q[1..][i - 1] == w;
      }
    }
  }

  /** The nodes waiting in a host's queue are distinct and owned here; the remote ones are owned elsewhere. */
  ghost predicate Split(net: Net, host: nat, queue: seq<nat>, remote: set<nat>)
    requires |net.owner| == |net.adj|
  {
    && Distinct(queue) && Queued(queue) !! remote
    && (forall v :: v in Queued(queue) ==> v < |net.adj| && net.owner[v] == host)
    && forall v :: v in remote ==> v < |net.adj| && net.owner[v] != host
  }

  method SplitFrontier(net: Net, host: nat, frontier: set<nat>) returns (queue: seq<nat>, remote: set<nat>)
    requires WellFormed(net) && forall v :: v in frontier ==> v < |net.adj|
    ensures Split(net, host, queue, remote) && Queued(queue) + remote == frontier
  {
    queue, remote := [], {};
    var todo := frontier;
    while todo != {}
      invariant todo <= frontier && Split(net, host, queue, remote)
      invariant Queued(queue) + remote == frontier - todo
      decreases todo
    {
      var v :| v in todo;
      QueuedAppend(queue, v);
      if net.owner[v] == host {
        queue := queue + [v];
      } else {
        remote := remote + {v};
      }
      todo := todo - {v};
    }
  }

  /** Draws every edge of u and adds the targets that are new to the set and to the queue or the remote frontier. */
  method FollowEdges(net: Net, coin: Coins, host: nat, id: nat, ownerHost: nat, u: nat,
                     reached0: set<nat>, queue0: seq<nat>, remote0: set<nat>, ghost p: Partial)
    returns (reached: set<nat>, queue: seq<nat>, remote: set<nat>)
    requires WellFormed(net) && Sound(net, p) && u < |net.adj|
    requires p.id == id && p.ownerHost == ownerHost && p.reached == reached0
    requires Split(net, host, queue0, remote0) && Queued(queue0) + remote0 == p.frontier - {u}
    ensures reached == Expand(net, coin, p, u).reached
    ensures Split(net, host, queue, remote) && Queued(queue) + remote == Expand(net, coin, p, u).frontier
  {
    reached, queue, remote := reached0, queue0, remote0;
    for k := 0 to |net.adj[u]|
      invariant reached == p.reached + LiveTargets(net, coin, p, u, k)
      invariant Split(net, host, queue, remote)
      invariant Queued(queue) + remote == p.frontier - {u} + (LiveTargets(net, coin, p, u, k) - p.reached)
    {
      var v := net.adj[u][k];
      LiveTargetsStep(net, coin, p, u, k);
      if coin(id, ownerHost, u, k) && v !in reached {
        reached := reached + {v};
        QueuedAppend(queue, v);
        if net.owner[v] == host {
          queue := queue + [v];
        } else {
          remote := remote + {v};
        }
      }
    }
  }

  ghost function Unvisited(net: Net, p: Partial): set<nat> {
    set v: nat | v < |net.adj| && v !in Expanded(p)
  }

  lemma EmptyTrace(net: Net, coin: Coins, host: nat, p: Partial, finish: bool)
    requires WellFormed(net)
    ensures LegalTrace(net, coin, host, p, [], finish) && Visit(net, coin, p, [], finish) == p
  {
  }

  lemma VisitShrinks(net: Net, coin: Coins, p: Partial, q: Partial, u: nat, finish: bool)
    requires WellFormed(net) && Sound(net, p) && u in p.frontier && u < |net.adj|
    requires q == if finish then Tally(p, u) else Expand(net, coin, p, u)
    ensures Sound(net, q) && Unvisited(net, q) < Unvisited(net, p)
  {
    TallyFacts(net, p, u);
    ExpandFacts(net, coin, p, u);
    assert u in Unvisited(net, p);
    assert Unvisited(net, q) == Unvisited(net, p) - {u};
  }

  lemma FirstIsOwned(net: Net, host: nat, queue: seq<nat>, remote: set<nat>)
    requires |net.owner| == |net.adj| && Split(net, host, queue, remote) && queue != []
    ensures queue[0] in Queued(queue) && queue[0] < |net.adj| && net.owner[queue[0]] == host
  {
  }

  lemma OnlyRemoteLeft(net: Net, host: nat, queue: seq<nat>, remote: set<nat>)
    requires |net.owner| == |net.adj| && Split(net, host, queue, remote) && queue == []
    ensures NothingOwned(net, host, remote) && Queued(queue) + remote == remote
  {
  }

  /** Takes the first node off the queue and visits it. */
  method VisitFirst(net: Net, coin: Coins, host: nat, id: nat, ownerHost: nat, finish: bool,
                    reached0: set<nat>, queue0: seq<nat>, remote0: set<nat>, ghost p: Partial)
    returns (reached: set<nat>, queue: seq<nat>, remote: set<nat>, ghost q: Partial)
    requires WellFormed(net) && Sound(net, p) && queue0 != [] && Split(net, host, queue0, remote0)
    requires p.id == id && p.ownerHost == ownerHost && p.reached == reached0 && Queued(queue0) + remote0 == p.frontier
    ensures queue0[0] < |net.adj| && q == if finish then Tally(p, queue0[0]) else Expand(net, coin, p, queue0[0])
    ensures Sound(net, q) && Unvisited(net, q) < Unvisited(net, p)
    ensures q.id == id && q.ownerHost == ownerHost
    ensures Split(net, host, queue, remote) && reached == q.reached && Queued(queue) + remote == q.frontier
  {
    var u := queue0[0];
    QueuedPop(queue0);
    q := if finish then Tally(p, u) else Expand(net, coin, p, u);
    VisitShrinks(net, coin, p, q, u, finish);
    hide Unvisited, Expanded;
    reached, queue, remote := reached0, queue0[1..], remote0;
    if !finish {
      reached, queue, remote := FollowEdges(net, coin, host, id, ownerHost, u, reached, queue, remote, p);
    }
  }

  /**
    Continues a partial set at a host: visits its frontier nodes owned here and
    everything owned here that they lead to, in queue order, raising the counter
    of every visited node. With `finish` nothing is followed and the frontier
    nodes of other hosts are dropped from the set. `trace` is the order of visits.
   */
  method Continue(net: Net, coin: Coins, host: nat, p: Partial, finish: bool, freq: array<nat>)
    returns (q: Partial, ghost trace: seq<nat>)
    requires WellFormed(net) && Sound(net, p) && freq.Length == |net.adj|
    modifies freq
    ensures LegalTrace(net, coin, host, p, trace, finish)
    ensures q == if finish then CutOff(Visit(net, coin, p, trace, finish)) else Visit(net, coin, p, trace, finish)
    ensures NothingOwned(net, host, Visit(net, coin, p, trace, finish).frontier)
    ensures forall v: nat :: v < freq.Length ==> freq[v] == old(freq[v]) + multiset(trace)[v]
  {
    var queue, remote := SplitFrontier(net, host, p.frontier);
    var reached := p.reached;
    EmptyTrace(net, coin, host, p, finish);
    hide Live, LegalTrace, Visit, Unvisited, Expanded, Split, Expand, Tally;
    trace := [];
    ghost var now := p;
    while queue != []
      invariant LegalTrace(net, coin, host, p, trace, finish)
      invariant now == Visit(net, coin, p, trace, finish) && Sound(net, now)
      invariant reached == now.reached && Queued(queue) + remote == now.frontier
      invariant Split(net, host, queue, remote)
      invariant forall v: nat :: v < freq.Length ==> freq[v] == old(freq[v]) + multiset(trace)[v]
      decreases Unvisited(net, now)
    {
      var u := queue[0];
      FirstIsOwned(net, host, queue, remote);
      ExtendTrace(net, coin, host, p, trace, finish, u);
      trace := trace + [u];
      reached, queue, remote, now := VisitFirst(net, coin, host, p.id, p.ownerHost, finish, reached, queue, remote, now);
      freq[u] := freq[u] + 1;
    }
    OnlyRemoteLeft(net, host, queue, remote);
    q := Partial(p.id, p.ownerHost, if finish then reached - remote else reached, if finish then {} else remote);
  }

  lemma LiveTargetsStep(net: Net, coin: Coins, p: Partial, u: nat, k: nat)
    requires u < |net.adj| && k < |net.adj[u]|
    ensures LiveTargets(net, coin, p, u, k + 1) ==
      LiveTargets(net, coin, p, u, k) + if coin(p.id, p.ownerHost, u, k) then {net.adj[u][k]} else {}
  {
  }

  lemma ExtendTrace(net: Net, coin: Coins, host: nat, p: Partial, trace: seq<nat>, finish: bool, u: nat)
    requires LegalTrace(net, coin, host, p, trace, finish)
    requires u < |net.adj| && net.owner[u] == host && u in Visit(net, coin, p, trace, finish).frontier
    ensures LegalTrace(net, coin, host, p, trace + [u], finish)
    ensures var prior := Visit(net, coin, p, trace, finish);
            Visit(net, coin, p, trace + [u], finish) == if finish then Tally(prior, u) else Expand(net, coin, prior, u)
  {
    var longer := trace + [u];
    assert longer[..|trace|] == trace;
    forall i | 0 <= i < |longer|
      ensures longer[i] in Visit(net, coin, p, longer[..i], finish).frontier
    {
      if i < |trace| {
        assert longer[..i] == trace[..i];
      }
    }
  }
}
