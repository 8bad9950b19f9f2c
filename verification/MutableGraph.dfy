/**
  The graphs of include/scea/graph: adjacency lists that grow by ingesting batches,
  and the compact form that a prefix sum builds from them, which must answer every
  question as the adjacency lists do.
 */
module MutableGraph {
  import opened Sorting

  /** New targets of one source. */
  datatype Adjacent = Adjacent(src: nat, dsts: seq<nat>)

  ghost predicate DistinctSources(batch: seq<Adjacent>) {
    forall i, j :: 0 <= i < j < |batch| ==> batch[i].src != batch[j].src
  }

  // ---------- What ingesting a batch means ----------

  /** The targets a batch has for v, in batch order. */
  ghost function DstsOf(batch: seq<Adjacent>, v: nat): seq<nat> {
    if batch == [] then []
    else DstsOf(batch[..|batch| - 1], v) + if batch[|batch| - 1].src == v then batch[|batch| - 1].dsts else []
  }

  ghost predicate Mentions(batch: seq<Adjacent>, v: nat) {
    exists i :: 0 <= i < |batch| && (batch[i].src == v || v in batch[i].dsts)
  }

  /** The number of vertices after a batch: enough for all it mentions, and at least one. */
  ghost predicate SizeAfter(before: nat, batch: seq<Adjacent>, after: nat) {
    && before <= after && 1 <= after
    && (forall v: nat :: Mentions(batch, v) ==> v < after)
    && (after > before && after > 1 ==> Mentions(batch, after - 1))
  }

  /** The adjacency lists after a batch. */
  ghost predicate Ingested(before: seq<seq<nat>>, batch: seq<Adjacent>, after: seq<seq<nat>>) {
    && SizeAfter(|before|, batch, |after|)
    && forall v: nat :: v < |after| ==> after[v] == (if v < |before| then before[v] else []) + DstsOf(batch, v)
  }

  method MaxElement(s: seq<nat>) returns (m: nat)
    requires s != []
    ensures m in s && forall x :: x in s ==> x <= m
  {
    m := s[0];
    for i := 0 to |s|
      invariant m in s && forall j :: 0 <= j < i ==> s[j] <= m
    {
      if s[i] > m {
        m := s[i];
      }
    }
  }

  /** The largest vertex a batch mentions; 0 when it mentions none. */
  method MaxVertex(batch: seq<Adjacent>) returns (m: nat)
    ensures forall v: nat :: Mentions(batch, v) ==> v <= m
    ensures m > 0 ==> Mentions(batch, m)
  {
    m := 0;
    for i := 0 to |batch|
      invariant forall v: nat :: Mentions(batch[..i], v) ==> v <= m
      invariant m > 0 ==> Mentions(batch, m)
    {
      assert batch[..i + 1] == batch[..i] + [batch[i]];
      if batch[i].src > m {
        m := batch[i].src;
      }
      if batch[i].dsts != [] {
        var d := MaxElement(batch[i].dsts);
        if d > m {
          m := d;
        }
      }
      ghost var longer := batch[..i + 1];
      forall v: nat | Mentions(longer, v)
        ensures v <= m
      {
        MentionsSplit(batch[..i], batch[i], v);
      }
    }
    assert batch[..|batch|] == batch;
  }

  lemma MentionsSplit(batch: seq<Adjacent>, last: Adjacent, v: nat)
    requires Mentions(batch + [last], v)
    ensures Mentions(batch, v) || last.src == v || v in last.dsts
  {
    var i :| 0 <= i < |batch| + 1 && ((batch + [last])[i].src == v || v in (batch + [last])[i].dsts);
    if i < |batch| {
      assert (batch + [last])[i] == batch[i];
    }
  }

  lemma {:induction false} DstsOfIndex(batch: seq<Adjacent>, i: nat)
    requires DistinctSources(batch) && i < |batch|
    ensures DstsOf(batch, batch[i].src) == batch[i].dsts
  {
    var m := |batch| - 1;
    if i == m {
      NoDstsOf(batch[..m], batch[i].src);
    } else {
      DstsOfIndex(batch[..m], i);
    }
  }

  lemma {:induction false} NoDstsOf(batch: seq<Adjacent>, v: nat)
    requires forall j :: 0 <= j < |batch| ==> batch[j].src != v
    ensures DstsOf(batch, v) == []
  {
    if batch != [] {
      NoDstsOf(batch[..|batch| - 1], v);
    }
  }

  /** With distinct sources the order of a batch does not matter. */
  lemma OrderOfBatch(batch: seq<Adjacent>, other: seq<Adjacent>, v: nat)
    requires DistinctSources(batch) && DistinctSources(other) && multiset(batch) == multiset(other)
    ensures DstsOf(batch, v) == DstsOf(other, v)
  {
    if i :| 0 <= i < |batch| && batch[i].src == v {
      DstsOfIndex(batch, i);
      assert batch[i] in multiset(other);
      var j :| 0 <= j < |other| && other[j] == batch[i];
      DstsOfIndex(other, j);
    } else {
      NoDstsOf(batch, v);
      forall j | 0 <= j < |other|
        ensures other[j].src != v
      {
        assert other[j] in multiset(batch);
      }
      NoDstsOf(other, v);
    }
  }

  // ---------- Adjacency lists ----------

  class AdjGraph {
    var edges: seq<seq<nat>>

    constructor ()
      ensures edges == []
    {
      edges := [];
    }

    method Size() returns (n: nat)
      ensures n == |edges|
    {
      n := |edges|;
    }

    method GetOutDegree(src: nat) returns (d: nat)
      requires src < |edges|
      ensures d == |edges[src]|
    {
      d := |edges[src]|;
    }

    /** Adds the targets of every source, the sources in any order. */
    method Ingest(batch: seq<Adjacent>)
      requires DistinctSources(batch)
      modifies this
      ensures Ingested(old(edges), batch, edges)
    {
      var maxVertexId := MaxVertex(batch);
      if |edges| < maxVertexId + 1 {
        edges := edges + seq(maxVertexId + 1 - |edges|, _ => []);
      }
      ghost var grown := edges;
      var todo := Indices(|batch|);
      NothingSoFar(batch);
      while todo != {}
        invariant forall i :: i in todo ==> i < |batch|
        invariant |edges| == |grown|
        invariant forall v: nat :: v < |grown| ==> edges[v] == grown[v] + DstsSoFar(batch, todo, v)
      {
        var i :| i in todo;
        var src, dsts := batch[i].src, batch[i].dsts;
        assert Mentions(batch, src);
        ghost var before := edges;
        edges := edges[src := edges[src] + dsts];
        forall v: nat | v < |grown|
          ensures edges[v] == grown[v] + DstsSoFar(batch, todo - {i}, v)
        {
          SoFarNext(batch, todo, i, v);
          assert before[v] == grown[v] + DstsSoFar(batch, todo, v);
        }
        todo := todo - {i};
      }
    }

    /** The targets handed to the callback, in order. */
    method ForEachEdge(src: nat) returns (visited: seq<nat>)
      requires src < |edges|
      ensures visited == edges[src]
    {
      visited := [];
      for i := 0 to |edges[src]|
        invariant visited == edges[src][..i]
      {
        visited := visited + [edges[src][i]];
      }
    }

    method SortEdges(src: nat)
      requires src < |edges|
      modifies this
      ensures |edges| == old(|edges|) && edges == old(edges)[src := edges[src]]
      ensures multiset(edges[src]) == multiset(old(edges[src])) && Ordered(false, edges[src])
    {
      var unsorted := edges[src];
      var list := new nat[|unsorted|](i requires 0 <= i < |unsorted| => unsorted[i]);
      assert list[..] == unsorted;
      SortSlice(list, false);
      edges := edges[src := list[..]];
    }

    method FindEdgeSorted(src: nat, dst: nat) returns (found: bool)
      requires src < |edges| && Ordered(false, edges[src])
      ensures found <==> dst in edges[src]
    {
      found := BinarySearch(edges[src], 0, |edges[src]|, dst);
      assert edges[src][..] == edges[src];
    }
  }

  /** What has been added for v when the batch entries in `todo` are still to come. */
  ghost function DstsSoFar(batch: seq<Adjacent>, todo: set<nat>, v: nat): seq<nat> {
    if exists i :: i in todo && i < |batch| && batch[i].src == v then [] else DstsOf(batch, v)
  }

  function Indices(n: nat): (r: set<nat>)
    ensures forall i: nat :: i in r <==> i < n
  {
    if n == 0 then {} else Indices(n - 1) + {n - 1}
  }

  lemma NothingSoFar(batch: seq<Adjacent>)
    ensures forall v: nat :: DstsSoFar(batch, Indices(|batch|), v) == []
  {
    forall v: nat
      ensures DstsSoFar(batch, Indices(|batch|), v) == []
    {
      if forall j :: 0 <= j < |batch| ==> batch[j].src != v {
        NoDstsOf(batch, v);
      } else {
        var j :| 0 <= j < |batch| && batch[j].src == v;
        assert j in Indices(|batch|);
      }
    }
  }

  lemma SoFarNext(batch: seq<Adjacent>, todo: set<nat>, i: nat, v: nat)
    requires DistinctSources(batch) && i in todo && i < |batch|
    ensures DstsSoFar(batch, todo - {i}, v) == if batch[i].src == v then batch[i].dsts else DstsSoFar(batch, todo, v)
    ensures batch[i].src == v ==> DstsSoFar(batch, todo, v) == []
  {
    DstsOfIndex(batch, i);
  }

  /** Finds x in an ordered stretch of a list. */
  method BinarySearch(s: seq<nat>, lo: nat, hi: nat, x: nat) returns (found: bool)
    requires lo <= hi <= |s| && Ordered(false, s[lo..hi])
    ensures found <==> x in s[lo..hi]
  {
    var a, b := lo, hi;
    assert forall i, j :: lo <= i < j < hi ==> Before(false, s[lo..hi][i - lo], s[lo..hi][j - lo]) && s[i] <= s[j];
    while a < b
      invariant lo <= a <= b <= hi
      invariant forall i :: lo <= i < a ==> s[i] < x
      invariant forall i :: b <= i < hi ==> s[i] > x
    {
      var mid := (a + b) / 2;
      if s[mid] == x {
        assert s[lo..hi][mid - lo] == x;
        return true;
      }
      if s[mid] < x {
        a := mid + 1;
      } else {
        b := mid;
      }
    }
    found := false;
  }

  // ---------- The compact form ----------

  /** Where the edges of vertex i start: after all edges of the vertices before it. */
  ghost function OffsetAt(edges: seq<seq<nat>>, i: nat): nat
    requires i <= |edges|
  {
    if i == 0 then 0 else OffsetAt(edges, i - 1) + |edges[i - 1]|
  }

  ghost predicate Offsets(edges: seq<seq<nat>>, vertices: seq<nat>) {
    |vertices| == |edges| + 1 && forall i :: 0 <= i <= |edges| ==> vertices[i] == OffsetAt(edges, i)
  }

  /** Vertex i's stretch of the compact edges holds its adjacency list. */
  ghost predicate Holds(edges: seq<seq<nat>>, compact: seq<nat>, i: nat)
    requires i < |edges|
  {
    && OffsetAt(edges, i) + |edges[i]| <= |compact|
    && compact[OffsetAt(edges, i)..OffsetAt(edges, i) + |edges[i]|] == edges[i]
  }

  /** The compact form is the adjacency lists one after the other. */
  ghost predicate Built(edges: seq<seq<nat>>, vertices: seq<nat>, compact: seq<nat>) {
    && Offsets(edges, vertices)
    && |compact| == OffsetAt(edges, |edges|)
    && forall i: nat :: i < |edges| ==> Holds(edges, compact, i)
  }

  lemma {:induction false} OffsetsGrow(edges: seq<seq<nat>>, i: nat, j: nat)
    requires i <= j <= |edges|
    ensures OffsetAt(edges, i) <= OffsetAt(edges, j)
    ensures i < j ==> OffsetAt(edges, i) + |edges[i]| <= OffsetAt(edges, j)
    decreases j - i
  {
    if i < j {
      OffsetsGrow(edges, i, j - 1);
    }
  }

  /** s with `part` copied over it from position a on. */
  function Paste(s: seq<nat>, a: nat, part: seq<nat>): (r: seq<nat>)
    requires a + |part| <= |s|
    ensures |r| == |s| && r[a..a + |part|] == part
  {
    s[..a] + part + s[a + |part|..]
  }

  lemma PasteKeeps(s: seq<nat>, a: nat, part: seq<nat>, b: nat, m: nat)
    requires a + |part| <= |s| && b + m <= |s| && (b + m <= a || a + |part| <= b)
    ensures Paste(s, a, part)[b..b + m] == s[b..b + m]
  {
    forall k | b <= k < b + m
      ensures Paste(s, a, part)[k] == s[k]
    {
    }
  }

  /** Copying one vertex's edges leaves the stretches of all others alone. */
  lemma CopyKeeps(edges: seq<seq<nat>>, compact: seq<nat>, i: nat, j: nat)
    requires i < |edges| && j < |edges| && i != j && |compact| == OffsetAt(edges, |edges|)
    requires Holds(edges, compact, j)
    ensures OffsetAt(edges, i) + |edges[i]| <= |compact|
    ensures Holds(edges, Paste(compact, OffsetAt(edges, i), edges[i]), j)
  {
    OffsetsGrow(edges, i, |edges|);
    if i < j {
      OffsetsGrow(edges, i, j);
    } else {
      OffsetsGrow(edges, j, i);
    }
    hide OffsetAt, Paste;
    PasteKeeps(compact, OffsetAt(edges, i), edges[i], OffsetAt(edges, j), |edges[j]|);
  }

  class Csr {
    var edges: seq<seq<nat>>
    var vertices: seq<nat>
    var edgesCompact: seq<nat>

    constructor ()
      ensures Valid() && edges == [] && Compacted()
    {
      edges, vertices, edgesCompact := [], [0], [];
    }

    ghost predicate Valid()
      reads this
    {
      vertices != [] && vertices[0] == 0
    }

    /** The compact form is up to date with the adjacency lists. */
    ghost predicate Compacted()
      reads this
    {
      Built(edges, vertices, edgesCompact)
    }

    method Size() returns (n: nat)
      requires Valid()
      ensures Compacted() ==> n == |edges|
    {
      n := |vertices| - 1;
    }

    method GetOutDegree(src: nat) returns (d: nat)
      requires Compacted() && src < |edges|
      ensures d == |edges[src]|
    {
      d := vertices[src + 1] - vertices[src];
    }

    /** As for the adjacency lists; the compact form is now behind. */
    method Ingest(batch: seq<Adjacent>)
      requires Valid() && DistinctSources(batch)
      modifies this
      ensures Valid() && Ingested(old(edges), batch, edges)
      ensures vertices == old(vertices) && edgesCompact == old(edgesCompact)
    {
      var lists := new AdjGraph();
      lists.edges := edges;
      lists.Ingest(batch);
      edges := lists.edges;
    }

    /** Rebuilds the compact form, whatever it was before. */
    method PostIngest()
      requires Valid() && (edges == [] ==> Compacted())
      modifies this
      ensures Valid() && Compacted() && edges == old(edges)
    {
      if edges == [] {
        return;
      }
      PrefixSum();
      edgesCompact := seq(vertices[|vertices| - 1], (_: nat) => 0);
      var todo := Indices(|edges|);
      while todo != {}
        invariant edges == old(edges) && Valid() && Offsets(edges, vertices) && |edgesCompact| == OffsetAt(edges, |edges|)
        invariant forall i: nat :: i in todo ==> i < |edges|
        invariant forall i: nat :: i < |edges| && i !in todo ==> Holds(edges, edgesCompact, i)
      {
        var i :| i in todo;
        OffsetsGrow(edges, i, |edges|);
        forall j: nat | j < |edges| && j !in todo
          ensures Holds(edges, Paste(edgesCompact, vertices[i], edges[i]), j)
        {
          CopyKeeps(edges, edgesCompact, i, j);
        }
        edgesCompact := Paste(edgesCompact, vertices[i], edges[i]);
        assert Holds(edges, edgesCompact, i);
        todo := todo - {i};
      }
    }

    /** The inclusive scan of the degrees, after a leading zero. */
    method PrefixSum()
      requires Valid() && edges != []
      modifies this`vertices
      ensures Valid() && Offsets(edges, vertices)
    {
      var sums := [vertices[0]];
      for i := 0 to |edges|
        invariant |sums| == i + 1 && forall j :: 0 <= j <= i ==> sums[j] == OffsetAt(edges, j)
      {
        sums := sums + [|edges[i]| + sums[i]];
      }
      vertices := sums;
    }

    /** The targets handed to the callback: those of the adjacency list, in its order. */
    method ForEachEdge(src: nat) returns (visited: seq<nat>)
      requires Compacted() && src < |edges|
      ensures visited == edges[src]
    {
      visited := [];
      OffsetsGrow(edges, src, src + 1);
      assert Holds(edges, edgesCompact, src);
      for i := vertices[src] to vertices[src + 1]
        invariant visited == edgesCompact[vertices[src]..i]
      {
        visited := visited + [edgesCompact[i]];
      }
    }

    /** Sorts from the start of the stretch to its start, that is nothing. */
    method SortEdges(src: nat)
      requires Compacted() && src < |edges|
      modifies this`edgesCompact
      ensures edgesCompact == old(edgesCompact)
    {
      OffsetsGrow(edges, src, |edges|);
      var lo := vertices[src];
      var range := edgesCompact[lo..lo];
      var list := new nat[|range|](i requires 0 <= i < |range| => range[i]);
      SortSlice(list, false);
      edgesCompact := edgesCompact[..lo] + list[..] + edgesCompact[lo..];
    }

    method FindEdgeSorted(src: nat, dst: nat) returns (found: bool)
      requires Compacted() && src < |edges| && Ordered(false, edges[src])
      ensures found <==> dst in edges[src]
    {
      assert Holds(edges, edgesCompact, src);
      assert vertices[src + 1] == vertices[src] + |edges[src]|;
      found := BinarySearch(edgesCompact, vertices[src], vertices[src + 1], dst);
    }
  }
}
