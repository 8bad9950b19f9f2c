/**
  The batch replayer of microbench/edit_scalability_large.cpp: an edge list is cut
  into a pre-ingested prefix and batches, each grouped by source and ingested. The
  result is that of loading the whole list at once.
 */
module Replay {
  import opened MutableGraph

  datatype Edge = Edge(src: nat, dst: nat)

  // ---------- Edge lists ----------

  /** The targets of v in an edge list, counted with repetitions. */
  ghost function Targets(list: seq<Edge>, v: nat): multiset<nat> {
    if list == [] then multiset{}
    else
      var last := list[|list| - 1];
      Targets(list[..|list| - 1], v) + if last.src == v then multiset{last.dst} else multiset{}
  }

  lemma {:induction false} TargetsAppend(a: seq<Edge>, b: seq<Edge>, v: nat)
    ensures Targets(a + b, v) == Targets(a, v) + Targets(b, v)
    decreases |b|
  {
    if b == [] {
      assert a + b == a;
    } else {
      var front := b[..|b| - 1];
      assert (a + b)[..|a + b| - 1] == a + front;
      TargetsAppend(a, front, v);
    }
  }

  /** Taking out one edge, wherever it stands. */
  lemma TargetsWithout(list: seq<Edge>, i: nat, v: nat)
    requires i < |list|
    ensures Targets(list, v) ==
      Targets(list[..i] + list[i + 1..], v) + if list[i].src == v then multiset{list[i].dst} else multiset{}
  {
    var a, e, b := list[..i], [list[i]], list[i + 1..];
    assert list == a + (e + b);
    TargetsAppend(a, e + b, v);
    TargetsAppend(e, b, v);
    TargetsAppend(a, b, v);
    assert e[..0] == [];
  }

  lemma {:induction false} TargetIffEdge(list: seq<Edge>, v: nat, w: nat)
    ensures w in Targets(list, v) <==> Edge(v, w) in list
  {
    if list != [] {
      TargetIffEdge(list[..|list| - 1], v, w);
      assert list == list[..|list| - 1] + [list[|list| - 1]];
    }
  }

  ghost predicate Occurs(list: seq<Edge>, v: nat) {
    exists e :: e in list && (e.src == v || e.dst == v)
  }

  // ---------- Grouping by source ----------

  /** The batch has every edge of the list, grouped by source. */
  ghost predicate Groups(batch: seq<Adjacent>, list: seq<Edge>) {
    && DistinctSources(batch)
    && (forall i :: 0 <= i < |batch| ==> batch[i].dsts != [])
    && forall v: nat :: multiset(DstsOf(batch, v)) == Targets(list, v)
  }

  ghost function Grouped(adjMap: map<nat, seq<nat>>, v: nat): seq<nat> {
    if v in adjMap then adjMap[v] else []
  }

  /** Groups the edges of a stretch of the file by source; edges come in any order, and so do the groups. */
  method PrepareBatch(file: seq<Edge>, startIndex: nat, endIndex: nat) returns (batch: seq<Adjacent>)
    requires startIndex <= |file| && endIndex <= |file|
    ensures Groups(batch, if startIndex < endIndex then file[startIndex..endIndex] else [])
  {
    if endIndex <= startIndex {
      return [];
    }
    var list := file[startIndex..endIndex];
    var adjMap: map<nat, seq<nat>> := map[];
    var remaining := list;
    assert GroupedSoFar(map[], list, list);
    hide GroupedSoFar;
    while remaining != []
      invariant GroupedSoFar(adjMap, remaining, list)
      decreases |remaining|
    {
      var i: nat :| i < |remaining|;
      var edge := remaining[i];
      GroupNext(adjMap, remaining, list, i);
      assert edge.src !in adjMap ==> Grouped(adjMap, edge.src) + [edge.dst] == [edge.dst];
      if edge.src in adjMap {
        adjMap := adjMap[edge.src := adjMap[edge.src] + [edge.dst]];
      } else {
        adjMap := adjMap[edge.src := [edge.dst]];
      }
      remaining := remaining[..i] + remaining[i + 1..];
    }
    GroupEnd(adjMap, list);
    batch := ListGroups(adjMap);
  }

  /** Every edge of the list is in the map or still to come. */
  ghost predicate GroupedSoFar(adjMap: map<nat, seq<nat>>, remaining: seq<Edge>, list: seq<Edge>) {
    && (forall v :: v in adjMap ==> adjMap[v] != [])
    && forall v: nat :: multiset(Grouped(adjMap, v)) + Targets(remaining, v) == Targets(list, v)
  }

  lemma GroupNext(adjMap: map<nat, seq<nat>>, remaining: seq<Edge>, list: seq<Edge>, i: nat)
    requires GroupedSoFar(adjMap, remaining, list) && i < |remaining|
    ensures GroupedSoFar(WithEdge(adjMap, remaining[i]), remaining[..i] + remaining[i + 1..], list)
  {
    hide Targets, Grouped, WithEdge;
    var after, rest := WithEdge(adjMap, remaining[i]), remaining[..i] + remaining[i + 1..];
    NoneEmpty(adjMap, remaining[i]);
    forall v: nat
      ensures multiset(Grouped(after, v)) + Targets(rest, v) == Targets(list, v)
    {
      assert multiset(Grouped(adjMap, v)) + Targets(remaining, v) == Targets(list, v);
      TargetsWithout(remaining, i, v);
      GroupedNext(adjMap, remaining[i], v);
    }
  }

  ghost function WithEdge(adjMap: map<nat, seq<nat>>, e: Edge): map<nat, seq<nat>> {
    adjMap[e.src := Grouped(adjMap, e.src) + [e.dst]]
  }

  lemma NoneEmpty(adjMap: map<nat, seq<nat>>, e: Edge)
    requires forall v :: v in adjMap ==> adjMap[v] != []
    ensures forall v :: v in WithEdge(adjMap, e) ==> WithEdge(adjMap, e)[v] != []
  {
  }

  lemma GroupedNext(adjMap: map<nat, seq<nat>>, e: Edge, v: nat)
    ensures multiset(Grouped(WithEdge(adjMap, e), v)) ==
      multiset(Grouped(adjMap, v)) + if e.src == v then multiset{e.dst} else multiset{}
  {
  }

  lemma GroupEnd(adjMap: map<nat, seq<nat>>, list: seq<Edge>)
    requires GroupedSoFar(adjMap, [], list)
    ensures (forall v :: v in adjMap ==> adjMap[v] != [])
    ensures forall v: nat :: multiset(Grouped(adjMap, v)) == Targets(list, v)
  {
    forall v: nat
      ensures multiset(Grouped(adjMap, v)) == Targets(list, v)
    {
      assert multiset(Grouped(adjMap, v)) + Targets([], v) == Targets(list, v);
    }
  }

  /** The entries of the map in any order. */
  method ListGroups(adjMap: map<nat, seq<nat>>) returns (batch: seq<Adjacent>)
    requires forall v :: v in adjMap ==> adjMap[v] != []
    ensures DistinctSources(batch) && forall i :: 0 <= i < |batch| ==> batch[i].dsts != []
    ensures forall v: nat :: DstsOf(batch, v) == Grouped(adjMap, v)
  {
    batch := [];
    var keys := adjMap.Keys;
    while keys != {}
      invariant Listed(adjMap, keys, batch)
    {
      var k :| k in keys;
      ListNext(adjMap, keys, batch, k);
      batch := batch + [Adjacent(k, adjMap[k])];
      keys := keys - {k};
    }
  }

  /** The entries for all keys but these have been listed. */
  ghost predicate Listed(adjMap: map<nat, seq<nat>>, keys: set<nat>, batch: seq<Adjacent>) {
    && keys <= adjMap.Keys && DistinctSources(batch)
    && (forall i :: 0 <= i < |batch| ==> batch[i].dsts != [] && batch[i].src in adjMap && batch[i].src !in keys)
    && forall v: nat :: DstsOf(batch, v) == if v in keys then [] else Grouped(adjMap, v)
  }

  lemma ListNext(adjMap: map<nat, seq<nat>>, keys: set<nat>, batch: seq<Adjacent>, k: nat)
    requires Listed(adjMap, keys, batch) && k in keys && forall v :: v in adjMap ==> adjMap[v] != []
    ensures Listed(adjMap, keys - {k}, batch + [Adjacent(k, adjMap[k])])
  {
    var after := batch + [Adjacent(k, adjMap[k])];
    assert after[..|after| - 1] == batch;
    forall v: nat
      ensures DstsOf(after, v) == if v in keys - {k} then [] else Grouped(adjMap, v)
    {
      assert DstsOf(batch, v) == if v in keys then [] else Grouped(adjMap, v);
    }
  }

  lemma GroupsMention(batch: seq<Adjacent>, list: seq<Edge>, v: nat)
    requires Groups(batch, list)
    ensures Mentions(batch, v) <==> Occurs(list, v)
  {
    if Mentions(batch, v) {
      var i :| 0 <= i < |batch| && (batch[i].src == v || v in batch[i].dsts);
      var u := batch[i].src;
      DstsOfIndex(batch, i);
      var w := if u == v then batch[i].dsts[0] else v;
      assert w in multiset(DstsOf(batch, u));
      TargetIffEdge(list, u, w);
      assert Edge(u, w) in list;
    }
    if Occurs(list, v) {
      var e :| e in list && (e.src == v || e.dst == v);
      TargetIffEdge(list, e.src, e.dst);
      assert e.dst in multiset(DstsOf(batch, e.src));
      var i := SourceOf(batch, e.src, e.dst);
    }
  }

  lemma {:induction false} SourceOf(batch: seq<Adjacent>, u: nat, w: nat) returns (i: nat)
    requires w in DstsOf(batch, u)
    ensures i < |batch| && batch[i].src == u && w in batch[i].dsts
  {
    var m := |batch| - 1;
    if batch[m].src == u && w in batch[m].dsts {
      i := m;
    } else {
      i := SourceOf(batch[..m], u, w);
    }
  }

  // ---------- A loaded graph ----------

  /** The adjacency lists are those of the edge list, each in some order, over just enough vertices. */
  ghost predicate Loaded(list: seq<Edge>, edges: seq<seq<nat>>) {
    && 1 <= |edges|
    && (forall v: nat :: Occurs(list, v) ==> v < |edges|)
    && (|edges| > 1 ==> Occurs(list, |edges| - 1))
    && forall v: nat :: v < |edges| ==> multiset(edges[v]) == Targets(list, v)
  }

  /** Nothing ingested yet, or the first p edges loaded. */
  ghost predicate LoadedTo(file: seq<Edge>, p: nat, edges: seq<seq<nat>>)
    requires p <= |file|
  {
    (p == 0 && edges == []) || Loaded(file[..p], edges)
  }

  /** Loading determines the graph up to the order of each list. */
  lemma LoadedAgree(list: seq<Edge>, a: seq<seq<nat>>, b: seq<seq<nat>>)
    requires Loaded(list, a) && Loaded(list, b)
    ensures |a| == |b| && forall v :: 0 <= v < |a| ==> multiset(a[v]) == multiset(b[v])
  {
    assert |a| > 1 ==> Occurs(list, |a| - 1);
    assert |b| > 1 ==> Occurs(list, |b| - 1);
  }

  lemma IngestLoads(file: seq<Edge>, p: nat, q: nat, batch: seq<Adjacent>, before: seq<seq<nat>>, after: seq<seq<nat>>)
    requires p <= q <= |file| && LoadedTo(file, p, before)
    requires Groups(batch, file[p..q]) && Ingested(before, batch, after)
    ensures Loaded(file[..q], after)
  {
    var list, slice := file[..p], file[p..q];
    assert file[..q] == list + slice;
    forall v: nat
      ensures Occurs(file[..q], v) <==> (Occurs(list, v) || Mentions(batch, v))
    {
      OccursAppend(list, slice, v);
      GroupsMention(batch, slice, v);
    }
    forall v: nat
      ensures Targets(file[..q], v) == Targets(list, v) + multiset(DstsOf(batch, v))
      ensures v >= |before| ==> Targets(list, v) == multiset{}
    {
      TargetsAppend(list, slice, v);
      if v >= |before| && Targets(list, v) != multiset{} {
        var w :| w in Targets(list, v);
        TargetIffEdge(list, v, w);
        assert Occurs(list, v);
        assert false;
      }
    }
    forall v: nat | v < |after|
      ensures multiset(after[v]) == Targets(file[..q], v)
    {
      assert after[v] == (if v < |before| then before[v] else []) + DstsOf(batch, v);
    }
  }

  lemma OccursAppend(a: seq<Edge>, b: seq<Edge>, v: nat)
    ensures Occurs(a + b, v) <==> Occurs(a, v) || Occurs(b, v)
  {
    if Occurs(a, v) {
      var e :| e in a && (e.src == v || e.dst == v);
      assert e in a + b;
    }
    if Occurs(b, v) {
      var e :| e in b && (e.src == v || e.dst == v);
      assert e in a + b;
    }
  }

  // ---------- Batches ----------

  function Clamp(x: nat, limit: nat): nat {
    if x < limit then x else limit
  }

  function PerBatch(numEdges: nat, pre: nat, numBatches: nat): nat
    requires pre <= numEdges && 0 < numBatches
  {
    (numEdges - pre + (numBatches - 1)) / numBatches
  }

  /** Where batch b starts and batch b - 1 ends. */
  function Boundary(numEdges: nat, pre: nat, numBatches: nat, b: nat): nat
    requires pre <= numEdges && 0 < numBatches
  {
    Clamp(pre + b * PerBatch(numEdges, pre, numBatches), numEdges)
  }

  lemma RoundedUp(x: nat, d: nat)
    requires d > 0
    ensures d * ((x + (d - 1)) / d) >= x
  {
    var q := (x + (d - 1)) / d;
    assert x + (d - 1) == q * d + (x + (d - 1)) % d;
  }

  lemma BoundaryNext(numEdges: nat, pre: nat, numBatches: nat, b: nat)
    requires pre <= numEdges && 0 < numBatches
    ensures Boundary(numEdges, pre, numBatches, b) <= Boundary(numEdges, pre, numBatches, b + 1) <= numEdges
  {
    var per := PerBatch(numEdges, pre, numBatches);
    assert (b + 1) * per == b * per + per;
  }

  /**
    A batch has as many edges as any other, unless the file ends with it or before
    it; and that number is the least with which the batches reach the end.
   */
  lemma BatchSizes(numEdges: nat, pre: nat, numBatches: nat, b: nat) returns (size: nat)
    requires pre <= numEdges && b < numBatches
    ensures size * numBatches >= numEdges - pre && (size > 0 ==> (size - 1) * numBatches < numEdges - pre)
    ensures var start, end := Boundary(numEdges, pre, numBatches, b), Boundary(numEdges, pre, numBatches, b + 1);
            start <= end <= numEdges && end - start <= size && (end - start < size ==> end == numEdges)
  {
    size := PerBatch(numEdges, pre, numBatches);
    RoundedUp(numEdges - pre, numBatches);
    BoundaryNext(numEdges, pre, numBatches, b);
    assert (b + 1) * size == b * size + size;
    if size > 0 {
      RoundedLeast(numEdges - pre, numBatches);
    }
  }

  lemma RoundedLeast(x: nat, d: nat)
    requires d > 0 && (x + (d - 1)) / d > 0
    ensures ((x + (d - 1)) / d - 1) * d < x
  {
    var q := (x + (d - 1)) / d;
    assert x + (d - 1) == q * d + (x + (d - 1)) % d;
    assert (q - 1) * d == q * d - d;
  }

  /** The edges of the first m batches, one batch after the other. */
  ghost function FirstBatches(file: seq<Edge>, pre: nat, numBatches: nat, m: nat): seq<Edge>
    requires pre <= |file| && 0 < numBatches
  {
    if m == 0 then []
    else
      BoundaryNext(|file|, pre, numBatches, m - 1);
      FirstBatches(file, pre, numBatches, m - 1)
        + file[Boundary(|file|, pre, numBatches, m - 1)..Boundary(|file|, pre, numBatches, m)]
  }

  /** The batches tile everything after the pre-ingested edges: nothing is skipped, nothing comes twice. */
  lemma BatchesTile(file: seq<Edge>, pre: nat, numBatches: nat)
    requires pre <= |file| && 0 < numBatches
    ensures Boundary(|file|, pre, numBatches, 0) == pre
    ensures Boundary(|file|, pre, numBatches, numBatches) == |file|
    ensures FirstBatches(file, pre, numBatches, numBatches) == file[pre..]
  {
    LastBoundary(|file|, pre, numBatches);
    TileTo(file, pre, numBatches, numBatches);
    hide Boundary, FirstBatches;
    assert file[pre..|file|] == file[pre..];
  }

  lemma LastBoundary(numEdges: nat, pre: nat, numBatches: nat)
    requires pre <= numEdges && 0 < numBatches
    ensures Boundary(numEdges, pre, numBatches, 0) == pre
    ensures Boundary(numEdges, pre, numBatches, numBatches) == numEdges
  {
    RoundedUp(numEdges - pre, numBatches);
  }

  lemma {:induction false} TileTo(file: seq<Edge>, pre: nat, numBatches: nat, m: nat)
    requires pre <= |file| && 0 < numBatches
    ensures pre <= Boundary(|file|, pre, numBatches, m) <= |file|
    ensures FirstBatches(file, pre, numBatches, m) == file[pre..Boundary(|file|, pre, numBatches, m)]
  {
    if m > 0 {
      TileTo(file, pre, numBatches, m - 1);
      BoundaryNext(|file|, pre, numBatches, m - 1);
    }
  }

  /** Ingests the next batch and rebuilds the compact form. */
  method ReplayBatch(graph: Csr, file: seq<Edge>, start: nat, end: nat)
    requires start <= end <= |file| && graph.Valid() && graph.Compacted() && LoadedTo(file, start, graph.edges)
    modifies graph
    ensures graph.Valid() && graph.Compacted() && Loaded(file[..end], graph.edges)
  {
    var batch := PrepareBatch(file, start, end);
    assert start == end ==> file[start..end] == [];
    ghost var before := graph.edges;
    graph.Ingest(batch);
    IngestLoads(file, start, end, batch, before, graph.edges);
    graph.PostIngest();
  }

  /**
    Replays a file: the pre-ingested edges if any, then every batch; `seen` is what
    the algorithm finds after each batch, namely the graph of all edges so far.
   */
  method Replay(file: seq<Edge>, preIngest: nat, numBatches: nat) returns (graph: Csr, ghost seen: seq<seq<seq<nat>>>)
    requires preIngest <= |file| && 0 < numBatches
    ensures graph.Valid() && graph.Compacted() && Loaded(file, graph.edges)
    ensures |seen| == numBatches && seen[numBatches - 1] == graph.edges
    ensures forall b: nat :: b < numBatches ==> SeenAfter(file, preIngest, numBatches, b, seen[b])
  {
    hide Boundary, Loaded, SeenAfter;
    seen := [];
    graph := new Csr();
    if preIngest > 0 {
      ReplayBatch(graph, file, 0, preIngest);
    }
    BatchesTile(file, preIngest, numBatches);
    for b := 0 to numBatches
      invariant graph.Valid() && graph.Compacted() && fresh(graph)
      invariant Boundary(|file|, preIngest, numBatches, b) <= |file|
      invariant LoadedTo(file, Boundary(|file|, preIngest, numBatches, b), graph.edges)
      invariant b > 0 ==> Loaded(file[..Boundary(|file|, preIngest, numBatches, b)], graph.edges)
      invariant |seen| == b && (b > 0 ==> seen[b - 1] == graph.edges)
      invariant forall k: nat :: k < b ==> SeenAfter(file, preIngest, numBatches, k, seen[k])
    {
      BoundaryNext(|file|, preIngest, numBatches, b);
      ReplayBatch(graph, file, Boundary(|file|, preIngest, numBatches, b), Boundary(|file|, preIngest, numBatches, b + 1));
      Seen(file, preIngest, numBatches, b, graph.edges);
      seen := seen + [graph.edges];
    }
    assert file[..|file|] == file;
  }

  /** The lists are those of all edges up to the end of batch b. */
  ghost predicate SeenAfter(file: seq<Edge>, preIngest: nat, numBatches: nat, b: nat, edges: seq<seq<nat>>)
    requires preIngest <= |file| && 0 < numBatches
  {
    BoundaryNext(|file|, preIngest, numBatches, b);
    Loaded(file[..Boundary(|file|, preIngest, numBatches, b + 1)], edges)
  }

  lemma Seen(file: seq<Edge>, preIngest: nat, numBatches: nat, b: nat, edges: seq<seq<nat>>)
    requires preIngest <= |file| && 0 < numBatches && Boundary(|file|, preIngest, numBatches, b + 1) <= |file|
    requires Loaded(file[..Boundary(|file|, preIngest, numBatches, b + 1)], edges)
    ensures SeenAfter(file, preIngest, numBatches, b, edges)
  {
  }

  /** Loads a file in one go. */
  method LoadAtOnce(file: seq<Edge>) returns (graph: AdjGraph)
    ensures Loaded(file, graph.edges)
  {
    graph := new AdjGraph();
    var batch := PrepareBatch(file, 0, |file|);
    assert file[0..|file|] == file && file[..|file|] == file;
    ghost var before := graph.edges;
    graph.Ingest(batch);
    IngestLoads(file, 0, |file|, batch, before, graph.edges);
  }
}
