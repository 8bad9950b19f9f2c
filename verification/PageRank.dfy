/**
  PageRank as include/scea/algo/pr.hpp iterates it, in exact arithmetic: each step
  is a contraction, so the tolerance test ends the loop well before its cap.
 */
module PageRank {
  import opened Sums
  import opened Walks

  const DAMPING_FACTOR: real := 0.85
  const MAX_ITERATIONS: nat := 100
  const TOLERANCE: real := 0.0001

  // ---------- One iteration ----------

  /** What vertex i passes along each of its edges. */
  ghost function PerEdge(g: Graph, rank: seq<real>, i: nat): real
    requires i < |g| == |rank|
  {
    if |g[i]| == 0 then 0.0 else rank[i] / |g[i]| as real
  }

  /** What v receives from each vertex. */
  ghost function Flow(g: Graph, rank: seq<real>, v: nat): nat -> real
    requires WellFormed(g) && |rank| == |g|
  {
    (i: nat) => if i < |g| then Scaled(PerEdge(g, rank, i), Count(g, 1, i, v)) else 0.0
  }

  ghost function NextRank(g: Graph, rank: seq<real>, v: nat): real
    requires WellFormed(g) && |rank| == |g| > 0
  {
    (1.0 - DAMPING_FACTOR) / |g| as real + DAMPING_FACTOR * Sum(|g|, Flow(g, rank, v))
  }

  ghost function Next(g: Graph, rank: seq<real>): (r: seq<real>)
    requires WellFormed(g) && |rank| == |g|
    ensures |r| == |g|
  {
    seq(|g|, (v: nat) requires v < |g| => NextRank(g, rank, v))
  }

  ghost function Uniform(n: nat): (r: seq<real>)
    ensures |r| == n
  {
    seq(n, (v: nat) requires v < n => 1.0 / n as real)
  }

  /** The ranks after k iterations. */
  ghost function Ranks(g: Graph, k: nat): (r: seq<real>)
    requires WellFormed(g)
    ensures |r| == |g|
  {
    if k == 0 then Uniform(|g|) else Next(g, Ranks(g, k - 1))
  }

  // ---------- Distances ----------

  function Abs(x: real): (r: real)
    ensures r >= 0.0 && r >= x && r >= -x && (r == x || r == -x)
  {
    if x >= 0.0 then x else -x
  }

  ghost function Gap(a: seq<real>, b: seq<real>): nat -> real {
    (v: nat) => if v < |a| && v < |b| then Abs(a[v] - b[v]) else 0.0
  }

  /** The sum of the absolute differences. */
  ghost function Distance(a: seq<real>, b: seq<real>): real
    requires |a| == |b|
  {
    Sum(|a|, Gap(a, b))
  }

  ghost function Entries(a: seq<real>): nat -> real {
    (v: nat) => if v < |a| then a[v] else 0.0
  }

  ghost function TotalRank(a: seq<real>): real {
    Sum(|a|, Entries(a))
  }

  ghost predicate NonNegative(a: seq<real>) {
    forall v :: 0 <= v < |a| ==> a[v] >= 0.0
  }

  lemma {:induction false} SumDifference(n: nat, f: nat -> real, g: nat -> real, h: nat -> real)
    requires forall i: nat :: i < n ==> Abs(f(i) - g(i)) <= h(i)
    ensures Abs(Sum(n, f) - Sum(n, g)) <= Sum(n, h)
  {
    if n > 0 {
      SumDifference(n - 1, f, g, h);
    }
  }

  lemma Triangle(a: seq<real>, b: seq<real>, c: seq<real>)
    requires |a| == |b| == |c|
    ensures Distance(a, c) <= Distance(a, b) + Distance(b, c)
  {
    var both := (v: nat) => Gap(a, b)(v) + Gap(b, c)(v);
    SumAdd(|a|, Gap(a, b), Gap(b, c), both);
    SumLe(|a|, Gap(a, c), both);
  }

  // ---------- Where rank goes ----------

  ghost function Sent(g: Graph, x: real, i: nat, m: nat): nat -> real
    requires WellFormed(g) && i < |g| && m <= |g[i]|
  {
    (v: nat) => Scaled(x, CountFirst(g, 1, i, v, m))
  }

  /** All that goes out along the first m edges of i arrives somewhere. */
  lemma {:induction false} SentArrives(g: Graph, x: real, i: nat, m: nat)
    requires WellFormed(g) && i < |g| && m <= |g[i]|
    ensures Sum(|g|, Sent(g, x, i, m)) == Scaled(x, m)
  {
    if m == 0 {
      forall v: nat | v < |g|
        ensures Sent(g, x, i, 0)(v) == 0.0
      {
        assert CountFirst(g, 1, i, v, 0) == 0;
      }
      SumZero(|g|, Sent(g, x, i, 0));
    } else {
      SentArrives(g, x, i, m - 1);
      var w := g[i][m - 1];
      forall v: nat | v < |g|
        ensures Sent(g, x, i, m)(v) == Sent(g, x, i, m - 1)(v) + if v == w then x else 0.0
      {
        assert CountFirst(g, 1, i, v, m) == CountFirst(g, 1, i, v, m - 1) + if w == v then 1 else 0;
        ScaledNext(x, CountFirst(g, 1, i, v, m - 1));
      }
      hide Sent, Scaled;
      SumChange(|g|, Sent(g, x, i, m - 1), Sent(g, x, i, m), w);
      ScaledNext(x, m - 1);
    }
  }

  ghost function Shares(g: Graph, xs: seq<real>): (nat, nat) -> real
    requires WellFormed(g) && |xs| == |g|
  {
    (i: nat, v: nat) => if i < |g| then Scaled(xs[i], Count(g, 1, i, v)) else 0.0
  }

  /** Summed over all receivers, vertices without edges pass on nothing, the others everything. */
  lemma SharesArrive(g: Graph, xs: seq<real>, f: nat -> real)
    requires WellFormed(g) && |xs| == |g|
    requires forall i: nat :: i < |g| ==> f(i) == Scaled(xs[i], |g[i]|)
    ensures Sum(|g|, ColumnSums(|g|, Shares(g, xs))) == Sum(|g|, f)
  {
    SumExchange(|g|, |g|, Shares(g, xs));
    forall i: nat | i < |g|
      ensures RowSums(|g|, Shares(g, xs))(i) == f(i)
    {
      SentArrives(g, xs[i], i, |g[i]|);
      forall v: nat
        ensures RowOf(Shares(g, xs), i)(v) == Sent(g, xs[i], i, |g[i]|)(v)
      {
        assert Count(g, 1, i, v) == CountFirst(g, 1, i, v, |g[i]|);
      }
      SumEq(|g|, RowOf(Shares(g, xs), i), Sent(g, xs[i], i, |g[i]|));
    }
    SumEq(|g|, RowSums(|g|, Shares(g, xs)), f);
  }

  // ---------- Contraction ----------

  /** The difference that i passes along each edge. */
  ghost function GapPerEdge(g: Graph, a: seq<real>, b: seq<real>): (r: seq<real>)
    requires |a| == |b| == |g|
    ensures |r| == |g|
  {
    seq(|g|, (i: nat) requires i < |g| => Abs(PerEdge(g, a, i) - PerEdge(g, b, i)))
  }

  /** The differences that are passed on: all but those of vertices without edges. */
  ghost function PassedGap(g: Graph, a: seq<real>, b: seq<real>): nat -> real
    requires |a| == |b| == |g|
  {
    (i: nat) => if i < |g| && |g[i]| > 0 then Gap(a, b)(i) else 0.0
  }

  lemma PassedOn(x: real, y: real, d: nat)
    requires d > 0
    ensures Scaled(Abs(x / d as real - y / d as real), d) == Abs(x - y)
  {
    var q := x / d as real - y / d as real;
    assert q * d as real == x - y;
    if q >= 0.0 {
      assert q * d as real >= 0.0;
    } else {
      assert q * d as real <= 0.0;
    }
  }

  lemma ScaledGap(x: real, y: real, n: nat)
    ensures Abs(Scaled(x, n) - Scaled(y, n)) == Scaled(Abs(x - y), n)
  {
    assert Scaled(x, n) - Scaled(y, n) == (x - y) * n as real;
    if x >= y {
      assert (x - y) * n as real >= 0.0;
    } else {
      assert (x - y) * n as real <= 0.0;
    }
  }

  /** One vertex: the difference of two steps is at most the damped differences it receives. */
  lemma GapAt(g: Graph, a: seq<real>, b: seq<real>, v: nat)
    requires WellFormed(g) && |a| == |b| == |g| && v < |g|
    ensures Gap(Next(g, a), Next(g, b))(v) <= DAMPING_FACTOR * ColumnSums(|g|, Shares(g, GapPerEdge(g, a, b)))(v)
  {
    var shares := ColumnOf(Shares(g, GapPerEdge(g, a, b)), v);
    forall i: nat | i < |g|
      ensures Abs(Flow(g, a, v)(i) - Flow(g, b, v)(i)) <= shares(i)
    {
      ScaledGap(PerEdge(g, a, i), PerEdge(g, b, i), Count(g, 1, i, v));
    }
    SumDifference(|g|, Flow(g, a, v), Flow(g, b, v), shares);
    hide Flow, Sum, Shares;
    assert Next(g, a)[v] - Next(g, b)[v] == DAMPING_FACTOR * (Sum(|g|, Flow(g, a, v)) - Sum(|g|, Flow(g, b, v)));
  }

  /** One step brings any two rank vectors closer by the damping factor. */
  lemma Contraction(g: Graph, a: seq<real>, b: seq<real>)
    requires WellFormed(g) && |a| == |b| == |g|
    ensures Distance(Next(g, a), Next(g, b)) <= DAMPING_FACTOR * Distance(a, b)
  {
    hide Gap, ColumnSums, Shares, GapPerEdge, PassedGap, Next, Sum, Scaled;
    var n := |g|;
    var received := ColumnSums(n, Shares(g, GapPerEdge(g, a, b)));
    PassedGapsLess(g, a, b);
    PassedGaps(g, a, b);
    SharesArrive(g, GapPerEdge(g, a, b), PassedGap(g, a, b));
    forall v: nat | v < n
      ensures Gap(Next(g, a), Next(g, b))(v) <= DAMPING_FACTOR * received(v)
    {
      GapAt(g, a, b, v);
    }
    DampedSum(n, Gap(Next(g, a), Next(g, b)), received, 0.0);
  }

  lemma DampedSum(n: nat, f: nat -> real, received: nat -> real, base: real)
    ensures (forall v: nat :: v < n ==> f(v) <= base + DAMPING_FACTOR * received(v)) ==>
      Sum(n, f) <= n as real * base + DAMPING_FACTOR * Sum(n, received)
    ensures (forall v: nat :: v < n ==> f(v) == base + DAMPING_FACTOR * received(v)) ==>
      Sum(n, f) == n as real * base + DAMPING_FACTOR * Sum(n, received)
  {
    var bases := (v: nat) => base;
    var both := (v: nat) => bases(v) + Damped(received)(v);
    SumAdd(n, bases, Damped(received), both);
    SumConst(n, bases, base);
    SumScale(n, received, Damped(received), DAMPING_FACTOR);
    if forall v: nat :: v < n ==> f(v) <= base + DAMPING_FACTOR * received(v) {
      SumLe(n, f, both);
    }
    if forall v: nat :: v < n ==> f(v) == base + DAMPING_FACTOR * received(v) {
      SumEq(n, f, both);
    }
  }

  ghost function Damped(f: nat -> real): nat -> real {
    (v: nat) => f(v) * DAMPING_FACTOR
  }

  lemma PassedGapsLess(g: Graph, a: seq<real>, b: seq<real>)
    requires |a| == |b| == |g|
    ensures Sum(|g|, PassedGap(g, a, b)) <= Sum(|g|, Gap(a, b))
  {
    SumLe(|g|, PassedGap(g, a, b), Gap(a, b));
  }

  lemma PassedGaps(g: Graph, a: seq<real>, b: seq<real>)
    requires |a| == |b| == |g|
    ensures forall i: nat :: i < |g| ==> PassedGap(g, a, b)(i) == Scaled(GapPerEdge(g, a, b)[i], |g[i]|)
  {
    forall i: nat | i < |g|
      ensures PassedGap(g, a, b)(i) == Scaled(GapPerEdge(g, a, b)[i], |g[i]|)
    {
      var d := |g[i]|;
      assert GapPerEdge(g, a, b)[i] == Abs(PerEdge(g, a, i) - PerEdge(g, b, i));
      hide GapPerEdge, Scaled;
      if d > 0 {
        PassedOn(a[i], b[i], d);
        assert Gap(a, b)(i) == Abs(a[i] - b[i]);
        assert PerEdge(g, a, i) == a[i] / d as real && PerEdge(g, b, i) == b[i] / d as real;
      } else {
        ScaledNext(GapPerEdge(g, a, b)[i], 0);
      }
    }
  }

  // ---------- Total rank ----------

  ghost function PerEdges(g: Graph, rank: seq<real>): (r: seq<real>)
    requires |rank| == |g|
    ensures |r| == |g|
  {
    seq(|g|, (i: nat) requires i < |g| => PerEdge(g, rank, i))
  }

  ghost function PassedRank(g: Graph, rank: seq<real>): nat -> real
    requires |rank| == |g|
  {
    (i: nat) => if i < |g| && |g[i]| > 0 then rank[i] else 0.0
  }

  /** After a step the total is what is given out evenly and the damped ranks of vertices with edges. */
  lemma TotalNext(g: Graph, rank: seq<real>)
    requires WellFormed(g) && |rank| == |g| > 0
    ensures TotalRank(Next(g, rank)) == 1.0 - DAMPING_FACTOR + DAMPING_FACTOR * Sum(|g|, PassedRank(g, rank))
  {
    hide Entries, ColumnSums, Shares, PerEdges, PerEdge, PassedRank, Next, Sum, Scaled;
    var n := |g|;
    var received := ColumnSums(n, Shares(g, PerEdges(g, rank)));
    var base := (1.0 - DAMPING_FACTOR) / n as real;
    PassedRanks(g, rank);
    SharesArrive(g, PerEdges(g, rank), PassedRank(g, rank));
    forall v: nat | v < n
      ensures Entries(Next(g, rank))(v) == base + DAMPING_FACTOR * received(v)
    {
      RankAt(g, rank, v);
    }
    DampedSum(n, Entries(Next(g, rank)), received, base);
    WholeShare(1.0 - DAMPING_FACTOR, n);
  }

  lemma RankAt(g: Graph, rank: seq<real>, v: nat)
    requires WellFormed(g) && v < |rank| == |g|
    ensures Entries(Next(g, rank))(v) ==
      (1.0 - DAMPING_FACTOR) / |g| as real + DAMPING_FACTOR * ColumnSums(|g|, Shares(g, PerEdges(g, rank)))(v)
  {
    SumEq(|g|, Flow(g, rank, v), ColumnOf(Shares(g, PerEdges(g, rank)), v));
  }

  lemma WholeShare(x: real, n: nat)
    requires n > 0
    ensures n as real * (x / n as real) == x
  {
  }

  lemma PassedRanks(g: Graph, rank: seq<real>)
    requires |rank| == |g|
    ensures forall i: nat :: i < |g| ==> PassedRank(g, rank)(i) == Scaled(PerEdges(g, rank)[i], |g[i]|)
  {
    forall i: nat | i < |g|
      ensures PassedRank(g, rank)(i) == Scaled(PerEdges(g, rank)[i], |g[i]|)
    {
      if |g[i]| > 0 {
        WholeShare(rank[i], |g[i]|);
      } else {
        ScaledNext(PerEdges(g, rank)[i], 0);
      }
    }
  }

  lemma NextNonNegative(g: Graph, rank: seq<real>)
    requires WellFormed(g) && |rank| == |g| && NonNegative(rank)
    ensures NonNegative(Next(g, rank))
  {
    forall v | 0 <= v < |g|
      ensures Next(g, rank)[v] >= 0.0
    {
      FlowNonNegative(g, rank, v);
    }
  }

  lemma FlowNonNegative(g: Graph, rank: seq<real>, v: nat)
    requires WellFormed(g) && |rank| == |g| && NonNegative(rank)
    ensures Sum(|g|, Flow(g, rank, v)) >= 0.0
  {
    var zero := (i: nat) => 0.0;
    SumZero(|g|, zero);
    forall i: nat | i < |g|
      ensures Flow(g, rank, v)(i) >= 0.0
    {
      assert PerEdge(g, rank, i) >= 0.0;
      hide PerEdge;
      assert Scaled(PerEdge(g, rank, i), Count(g, 1, i, v)) >= 0.0;
    }
    hide Flow;
    SumLe(|g|, zero, Flow(g, rank, v));
  }

  /** Total rank never exceeds 1, and stays 1 when every vertex has an edge. */
  lemma {:induction false} TotalIsOne(g: Graph, k: nat)
    requires WellFormed(g) && |g| > 0
    ensures NonNegative(Ranks(g, k)) && TotalRank(Ranks(g, k)) <= 1.0
    ensures (forall i :: 0 <= i < |g| ==> |g[i]| > 0) ==> TotalRank(Ranks(g, k)) == 1.0
  {
    var n := |g|;
    if k == 0 {
      SumConst(n, Entries(Uniform(n)), 1.0 / n as real);
      WholeShare(1.0, n);
    } else {
      var before := Ranks(g, k - 1);
      TotalIsOne(g, k - 1);
      NextNonNegative(g, before);
      TotalNext(g, before);
      SumLe(n, PassedRank(g, before), Entries(before));
      if forall i :: 0 <= i < n ==> |g[i]| > 0 {
        SumEq(n, PassedRank(g, before), Entries(before));
      }
    }
  }

  // ---------- Convergence ----------

  /** What the tolerance test of iteration k compares. */
  ghost function Difference(g: Graph, k: nat): real
    requires WellFormed(g)
  {
    Distance(Ranks(g, k + 1), Ranks(g, k))
  }

  ghost function Power(x: real, k: nat): real {
    if k == 0 then 1.0 else x * Power(x, k - 1)
  }

  lemma FirstDifference(g: Graph)
    requires WellFormed(g) && |g| > 0
    ensures Difference(g, 0) <= 2.0
  {
    var a, b := Ranks(g, 1), Ranks(g, 0);
    TotalIsOne(g, 1);
    TotalIsOne(g, 0);
    var both := (v: nat) => Entries(a)(v) + Entries(b)(v);
    SumAdd(|g|, Entries(a), Entries(b), both);
    SumLe(|g|, Gap(a, b), both);
  }

  /** Successive differences shrink geometrically. */
  lemma {:induction false} DifferenceShrinks(g: Graph, k: nat)
    requires WellFormed(g) && |g| > 0
    ensures Difference(g, k + 1) <= DAMPING_FACTOR * Difference(g, k)
    ensures Difference(g, k) <= 2.0 * Power(DAMPING_FACTOR, k)
  {
    Contraction(g, Ranks(g, k + 1), Ranks(g, k));
    if k == 0 {
      FirstDifference(g);
    } else {
      DifferenceShrinks(g, k - 1);
    }
  }

  lemma {:induction false} PowerSum(x: real, j: nat, k: nat)
    ensures Power(x, j + k) == Power(x, j) * Power(x, k)
  {
    if j > 0 {
      PowerSum(x, j - 1, k);
    }
  }

  lemma {:induction false} PowerLe(x: real, j: nat, y: real)
    requires 0.0 <= x
    ensures Power(x, j) >= 0.0
    ensures Power(x, j) <= y ==> Power(x, 2 * j) <= y * y
  {
    if j > 0 {
      PowerLe(x, j - 1, y);
    }
    PowerSum(x, j, j);
    if Power(x, j) <= y {
      assert Power(x, j) * Power(x, j) <= y * Power(x, j) <= y * y;
    }
  }

  /** 0.85 to the 61st is below half the tolerance. */
  lemma CapIsAmple()
    ensures 2.0 * Power(DAMPING_FACTOR, 61) < TOLERANCE
  {
    var d := DAMPING_FACTOR;
    assert Power(d, 5) <= 0.443706 by {
      assert Power(d, 1) == d * Power(d, 0);
      assert Power(d, 2) == d * Power(d, 1);
      assert Power(d, 3) == d * Power(d, 2);
      assert Power(d, 4) == d * Power(d, 3);
      assert Power(d, 5) == d * Power(d, 4);
    }
    PowerLe(d, 5, 0.443706);
    assert Power(d, 10) <= 0.19688;
    PowerSum(d, 10, 5);
    PowerLe(d, 10, 0.19688);
    ProductLe(Power(d, 10), 0.19688, Power(d, 5), 0.443706);
    PowerLe(d, 15, 0.08736);
    PowerLe(d, 30, 0.007632);
    assert Power(d, 61) == d * Power(d, 60);
  }

  lemma ProductLe(a: real, b: real, c: real, d: real)
    requires 0.0 <= a <= b && 0.0 <= c <= d
    ensures a * c <= b * d
  {
    assert a * c <= b * c <= b * d;
  }

  /** However the exact PageRank p is obtained, ranks that one step moves by little are close to it. */
  lemma NearFixedPoint(g: Graph, rank: seq<real>, p: seq<real>)
    requires WellFormed(g) && |rank| == |p| == |g| && Next(g, p) == p
    ensures (1.0 - DAMPING_FACTOR) * Distance(Next(g, rank), p) <= DAMPING_FACTOR * Distance(Next(g, rank), rank)
  {
    Contraction(g, rank, p);
    Triangle(rank, Next(g, rank), p);
    SumEq(|g|, Gap(rank, Next(g, rank)), Gap(Next(g, rank), rank));
  }

  // ---------- The iteration ----------

  /** What v has received from the first i vertices and the first k edges of the next. */
  ghost function Received(g: Graph, rank: seq<real>, v: nat, i: nat, k: nat): real
    requires WellFormed(g) && |rank| == |g| && i < |g| && k <= |g[i]|
  {
    Sum(i, Flow(g, rank, v)) + Scaled(PerEdge(g, rank, i), CountFirst(g, 1, i, v, k))
  }

  lemma ReceivedNext(g: Graph, rank: seq<real>, v: nat, i: nat)
    requires WellFormed(g) && |rank| == |g| && i < |g|
    ensures Received(g, rank, v, i, 0) == Sum(i, Flow(g, rank, v))
    ensures Received(g, rank, v, i, |g[i]|) == Sum(i + 1, Flow(g, rank, v))
    ensures forall k: nat :: k < |g[i]| ==>
      Received(g, rank, v, i, k + 1) == Received(g, rank, v, i, k) + if g[i][k] == v then PerEdge(g, rank, i) else 0.0
  {
    assert CountFirst(g, 1, i, v, 0) == 0;
    assert Count(g, 1, i, v) == CountFirst(g, 1, i, v, |g[i]|);
    forall k: nat | k < |g[i]|
      ensures Received(g, rank, v, i, k + 1) == Received(g, rank, v, i, k) + if g[i][k] == v then PerEdge(g, rank, i) else 0.0
    {
      assert CountFirst(g, 1, i, v, k + 1) == CountFirst(g, 1, i, v, k) + if g[i][k] == v then 1 else 0;
      ScaledNext(PerEdge(g, rank, i), CountFirst(g, 1, i, v, k));
    }
  }

  /** Passes on the rank of every vertex along its edges. */
  method DistributeContributions(g: Graph, rank: array<real>, newRank: array<real>)
    requires WellFormed(g) && rank.Length == newRank.Length == |g| && rank != newRank
    requires forall v :: 0 <= v < |g| ==> newRank[v] == 0.0
    modifies newRank
    ensures forall v :: 0 <= v < |g| ==> newRank[v] == Sum(|g|, Flow(g, rank[..], v))
  {
    ghost var r := rank[..];
    for i := 0 to |g|
      invariant forall v :: 0 <= v < |g| ==> newRank[v] == Sum(i, Flow(g, r, v))
    {
      DistributeFrom(g, rank, newRank, i);
    }
  }

  method DistributeFrom(g: Graph, rank: array<real>, newRank: array<real>, i: nat)
    requires WellFormed(g) && rank.Length == newRank.Length == |g| && rank != newRank && i < |g|
    requires forall v :: 0 <= v < |g| ==> newRank[v] == Sum(i, Flow(g, rank[..], v))
    modifies newRank
    ensures forall v :: 0 <= v < |g| ==> newRank[v] == Sum(i + 1, Flow(g, rank[..], v))
  {
    ghost var r := rank[..];
    forall v: nat | v < |g|
      ensures Received(g, r, v, i, 0) == Sum(i, Flow(g, r, v))
    {
      ReceivedNext(g, r, v, i);
    }
    hide Received, Flow;
    for k := 0 to |g[i]|
      invariant forall v: nat :: v < |g| ==> newRank[v] == Received(g, r, v, i, k)
    {
      forall v: nat | v < |g|
        ensures Received(g, r, v, i, k + 1) == Received(g, r, v, i, k) + if g[i][k] == v then PerEdge(g, r, i) else 0.0
      {
        ReceivedNext(g, r, v, i);
      }
      var dst := g[i][k];
      newRank[dst] := newRank[dst] + rank[i] / |g[i]| as real;
    }
    forall v: nat | v < |g|
      ensures newRank[v] == Sum(i + 1, Flow(g, r, v))
    {
      ReceivedNext(g, r, v, i);
    }
  }

  /** One iteration: the new ranks, and how far they are from the old. */
  method Iterate(g: Graph, rank: array<real>, newRank: array<real>) returns (diff: real)
    requires WellFormed(g) && rank.Length == newRank.Length == |g| && rank != newRank
    modifies rank, newRank
    ensures rank[..] == Next(g, old(rank[..])) && diff == Distance(rank[..], old(rank[..]))
  {
    ghost var r := rank[..];
    for i := 0 to |g|
      invariant forall v :: 0 <= v < i ==> newRank[v] == 0.0
      invariant rank[..] == r
    {
      newRank[i] := 0.0;
    }
    DistributeContributions(g, rank, newRank);
    hide Flow, Sum, Gap;
    for i := 0 to |g|
      invariant forall v :: 0 <= v < i ==> newRank[v] == NextRank(g, r, v)
      invariant forall v :: i <= v < |g| ==> newRank[v] == Sum(|g|, Flow(g, r, v))
      invariant rank[..] == r
    {
      newRank[i] := (1.0 - DAMPING_FACTOR) / |g| as real + DAMPING_FACTOR * newRank[i];
    }
    assert newRank[..] == Next(g, r);
    diff := Update(g, rank, newRank);
  }

  method Update(g: Graph, rank: array<real>, newRank: array<real>) returns (diff: real)
    requires rank.Length == newRank.Length == |g| && rank != newRank
    modifies rank
    ensures rank[..] == newRank[..] && diff == Distance(rank[..], old(rank[..]))
  {
    ghost var r := rank[..];
    diff := 0.0;
    for i := 0 to |g|
      invariant forall v :: 0 <= v < i ==> rank[v] == newRank[v]
      invariant forall v :: i <= v < |g| ==> rank[v] == r[v]
      invariant diff == Sum(i, Gap(newRank[..], r))
    {
      diff := diff + Abs(newRank[i] - rank[i]);
      rank[i] := newRank[i];
    }
    assert rank[..] == newRank[..];
  }

  /** The ranks returned and whether the tolerance test ended the loop after `iterations` iterations. */
  method Compute(g: Graph) returns (ranks: seq<real>, iterations: nat, converged: bool)
    requires WellFormed(g)
    ensures ranks == Ranks(g, iterations) && 1 <= iterations <= 62
    ensures converged && Difference(g, iterations - 1) < 0.0001
    ensures forall k: nat :: k + 1 < iterations ==> Difference(g, k) >= 0.0001
    ensures |g| > 0 ==> Ranks(g, 0) == seq(|g|, (v: nat) => 1.0 / |g| as real)
    ensures forall v: nat :: v < |g| ==>
      ranks[v] == 0.15 / |g| as real + 0.85 * Sum(|g|, Flow(g, Ranks(g, iterations - 1), v))
    ensures forall v: nat :: v < |g| && NoInEdges(g, v) ==> ranks[v] == 0.15 / |g| as real
  {
    hide Ranks, Next, Distance, Difference, Sum, Flow, NoInEdges;
    var newRank := new real[|g|];
    var rank := new real[|g|](i requires 0 <= i < |g| => 1.0 / |g| as real);
    iterations := 0;
    RanksStart(g, rank[..]);
    converged := false;
    while iterations < MAX_ITERATIONS && !converged
      invariant rank[..] == Ranks(g, iterations)
      invariant iterations <= 62 && (converged ==> iterations > 0 && Difference(g, iterations - 1) < TOLERANCE)
      invariant forall k: nat :: k + (if converged then 1 else 0) < iterations ==> Difference(g, k) >= TOLERANCE
      invariant !converged ==> iterations <= 61
      decreases MAX_ITERATIONS - iterations
    {
      AlwaysBreaks(g, iterations);
      DifferenceIs(g, iterations);
      var diff := Iterate(g, rank, newRank);
      iterations := iterations + 1;
      converged := diff < TOLERANCE;
    }
    ranks := rank[..];
    RanksAre(g, iterations);
  }

  lemma {:induction false} NothingArrives(g: Graph, i: nat, v: nat, m: nat)
    requires WellFormed(g) && i < |g| && v !in g[i] && m <= |g[i]|
    ensures CountFirst(g, 1, i, v, m) == 0
  {
    if m > 0 {
      NothingArrives(g, i, v, m - 1);
    }
  }

  lemma RanksStart(g: Graph, rank: seq<real>)
    requires WellFormed(g) && |rank| == |g| && forall v :: 0 <= v < |g| ==> rank[v] == 1.0 / |g| as real
    ensures rank == Ranks(g, 0)
    ensures |g| > 0 ==> Ranks(g, 0) == seq(|g|, (v: nat) => 1.0 / |g| as real)
  {
    assert rank == Uniform(|g|);
  }

  lemma RanksAre(g: Graph, k: nat)
    requires WellFormed(g) && k > 0
    ensures forall v: nat :: v < |g| ==> Ranks(g, k)[v] == 0.15 / |g| as real + 0.85 * Sum(|g|, Flow(g, Ranks(g, k - 1), v))
    ensures forall v: nat :: v < |g| && NoInEdges(g, v) ==> Ranks(g, k)[v] == 0.15 / |g| as real
  {
    hide Ranks, NoInEdges, Sum, Flow;
    forall v: nat | v < |g|
      ensures Ranks(g, k)[v] == 0.15 / |g| as real + 0.85 * Sum(|g|, Flow(g, Ranks(g, k - 1), v))
      ensures NoInEdges(g, v) ==> Ranks(g, k)[v] == 0.15 / |g| as real
    {
      RankIs(g, k, v);
    }
  }

  ghost predicate NoInEdges(g: Graph, v: nat) {
    forall i :: 0 <= i < |g| ==> v !in g[i]
  }

  /** A rank is its part of the undamped share and of what its in-neighbours passed along before. */
  lemma RankIs(g: Graph, k: nat, v: nat)
    requires WellFormed(g) && v < |g| && k > 0
    ensures Ranks(g, k)[v] == 0.15 / |g| as real + 0.85 * Sum(|g|, Flow(g, Ranks(g, k - 1), v))
    ensures NoInEdges(g, v) ==> Ranks(g, k)[v] == 0.15 / |g| as real
  {
    var rank := Ranks(g, k - 1);
    if NoInEdges(g, v) {
      forall i: nat | i < |g|
        ensures Flow(g, rank, v)(i) == 0.0
      {
        NothingArrives(g, i, v, |g[i]|);
      }
      SumZero(|g|, Flow(g, rank, v));
    }
  }

  lemma DifferenceIs(g: Graph, k: nat)
    requires WellFormed(g)
    ensures Difference(g, k) == Distance(Next(g, Ranks(g, k)), Ranks(g, k)) && Next(g, Ranks(g, k)) == Ranks(g, k + 1)
  {
  }

  /** At the 62nd iteration at the latest the difference is below the tolerance. */
  lemma AlwaysBreaks(g: Graph, k: nat)
    requires WellFormed(g)
    ensures k == 61 ==> Difference(g, k) < TOLERANCE
  {
    if k == 61 && |g| > 0 {
      DifferenceShrinks(g, 61);
      CapIsAmple();
    }
  }
}
