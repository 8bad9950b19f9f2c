/**
  The host load balancer of scripts/convert/graph_convert.go: virtual-host loads
  are folded from a list of lines, sorted in descending order, and handed one by
  one to the currently least loaded host (longest processing time first).

  A schedule is a sequence of bins, one per host, each holding the sizes of the
  virtual hosts placed there. The schedule the program builds is compared with
  every other way of distributing the same virtual hosts.
 */
module Scheduler {
  import opened Basics
  import opened Sorting


  // ---------- Sums over a sequence of job sizes ----------

  ghost function SumBy(s: seq<nat>, f: nat -> nat): nat {
    if s == [] then 0 else f(s[0]) + SumBy(s[1..], f)
  }

  ghost function Load(s: seq<nat>): nat {
    SumBy(s, x => x)
  }

  lemma {:induction false} SumByAppend(s: seq<nat>, t: seq<nat>, f: nat -> nat)
    ensures SumBy(s + t, f) == SumBy(s, f) + SumBy(t, f)
  {
    if s == [] {
      assert s + t == t;
    } else {
      assert (s + t)[1..] == s[1..] + t;
      SumByAppend(s[1..], t, f);
    }
  }

  lemma FindIn(s: seq<nat>, x: nat) returns (k: nat)
    requires x in multiset(s)
    ensures k < |s| && s[k] == x
  {
    k :| 0 <= k < |s| && s[k] == x;
  }

  lemma SplitAt(p: seq<nat>, j: nat, f: nat -> nat)
    requires j < |p|
    ensures SumBy(p, f) == SumBy(p[..j], f) + f(p[j]) + SumBy(p[j + 1..], f)
  {
    assert p == p[..j] + p[j..] && p[j..][1..] == p[j + 1..];
    SumByAppend(p[..j], p[j..], f);
  }

  /** A sum depends on the multiset of the terms only. */
  lemma {:induction false} SumByPermutation(s: seq<nat>, t: seq<nat>, f: nat -> nat)
    requires multiset(s) == multiset(t)
    ensures SumBy(s, f) == SumBy(t, f)
    decreases |s|
  {
    if s == [] {
      assert |multiset(t)| == 0;
    } else {
      var k := FindIn(t, s[0]);
      RemoveOne(s, 0);
      RemoveOne(t, k);
      SumByPermutation(s[1..], t[..k] + t[k + 1..], f);
      SplitAt(t, k, f);
      SumByAppend(t[..k], t[k + 1..], f);
      assert s[..0] + s[1..] == s[1..];
    }
  }

  lemma RemoveOne(s: seq<nat>, k: nat)
    requires k < |s|
    ensures multiset(s[..k] + s[k + 1..]) == multiset(s) - multiset{s[k]}
  {
    assert s == s[..k] + [s[k]] + s[k + 1..];
  }

  ghost function Flat(bins: seq<seq<nat>>): seq<nat> {
    if bins == [] then [] else bins[0] + Flat(bins[1..])
  }

  ghost function Loads(bins: seq<seq<nat>>): (r: seq<nat>)
    ensures |r| == |bins| && forall i :: 0 <= i < |r| ==> r[i] == Load(bins[i])
  {
    seq(|bins|, i requires 0 <= i < |bins| => Load(bins[i]))
  }

  /** If every bin sums to at most c, all bins together sum to at most |bins| * c; likewise for at least. */
  lemma {:induction false} SumFlatAtMost(bins: seq<seq<nat>>, f: nat -> nat, c: nat)
    requires forall i :: 0 <= i < |bins| ==> SumBy(bins[i], f) <= c
    ensures SumBy(Flat(bins), f) <= |bins| * c
  {
    if bins != [] {
      SumByAppend(bins[0], Flat(bins[1..]), f);
      SumFlatAtMost(bins[1..], f, c);
      MulSuccessor(|bins[1..]|, c);
    }
  }

  lemma {:induction false} SumFlatAtLeast(bins: seq<seq<nat>>, f: nat -> nat, c: nat)
    requires forall i :: 0 <= i < |bins| ==> SumBy(bins[i], f) >= c
    ensures SumBy(Flat(bins), f) >= |bins| * c
  {
    if bins != [] {
      SumByAppend(bins[0], Flat(bins[1..]), f);
      SumFlatAtLeast(bins[1..], f, c);
      MulSuccessor(|bins[1..]|, c);
    }
  }

  lemma {:induction false} FlatPlace(bins: seq<seq<nat>>, i: nat, v: nat)
    requires i < |bins|
    ensures multiset(Flat(bins[i := bins[i] + [v]])) == multiset(Flat(bins)) + multiset{v}
  {
    var after := bins[i := bins[i] + [v]];
    if i == 0 {
      assert after[1..] == bins[1..];
    } else {
      assert after[1..] == bins[1..][i - 1 := bins[1..][i - 1] + [v]];
      FlatPlace(bins[1..], i - 1, v);
    }
  }

  // ---------- Schedules ----------

  /** Every way of putting the jobs p on m hosts. */
  ghost predicate Schedule(bins: seq<seq<nat>>, p: seq<nat>, m: nat) {
    |bins| == m && multiset(Flat(bins)) == multiset(p)
  }

  /** No host of the schedule carries more than t. */
  ghost predicate Within(bins: seq<seq<nat>>, t: nat) {
    forall i :: 0 <= i < |bins| ==> Load(bins[i]) <= t
  }

  /** Graham's bound for longest-processing-time-first: no load exceeds 4/3 - 1/(3m) times the makespan t of any schedule. */
  ghost predicate GrahamBound(load: nat, m: nat, t: nat)
    requires m >= 1
  {
    Times(3 * m, load) <= Times(4 * m - 1, t)
  }

  /** k copies of x. */
  ghost function Times(k: nat, x: nat): nat {
    if k == 0 then 0 else Times(k - 1, x) + x
  }

  lemma {:induction false} TimesIsProduct(k: nat, x: nat)
    ensures Times(k, x) == k * x
  {
    if k > 0 {
      TimesIsProduct(k - 1, x);
      MulSuccessor(k - 1, x);
    }
  }

  /** Every load of the bins meets Graham's bound against every schedule of p. */
  ghost predicate NearOptimal(bins: seq<seq<nat>>, p: seq<nat>) {
    forall alt: seq<seq<nat>>, t: nat :: Schedule(alt, p, |bins|) && Within(alt, t) ==>
      forall i :: 0 <= i < |bins| ==> GrahamBound(Load(bins[i]), |bins|, t)
  }

  ghost predicate AtMost(p: seq<nat>, b: nat) {
    forall k :: 0 <= k < |p| ==> p[k] <= b
  }

  /** Two loads differ by at most the largest job of p. */
  ghost predicate Balanced(bins: seq<seq<nat>>, p: seq<nat>) {
    forall b: nat :: AtMost(p, b) ==>
      forall i, k :: 0 <= i < |bins| && 0 <= k < |bins| ==> Load(bins[i]) <= Load(bins[k]) + b
  }

  /**
    Weight of a job relative to the job v being placed and a makespan t: 0 when
    it is smaller than v, 2 when it is at least v and cannot share a host with v
    within t, 1 otherwise.
   */
  ghost function Weight(v: nat, t: nat): nat -> nat {
    q => if q < v then 0 else if q + v > t then 2 else 1
  }

  /** A host whose load stays within t has weight at most 2 when v is more than a third of t. */
  lemma {:induction false} WeightOfFittingBin(b: seq<nat>, v: nat, t: nat)
    requires 3 * v > t && Load(b) <= t && v <= t
    ensures SumBy(b, Weight(v, t)) <= 2
    ensures SumBy(b, Weight(v, t)) == 1 ==> Load(b) >= v
    ensures SumBy(b, Weight(v, t)) == 2 ==> Load(b) + v > t
  {
    if b != [] {
      var q := b[0];
      assert Load(b) == q + Load(b[1..]);
      WeightOfFittingBin(b[1..], v, t);
      assert SumBy(b, Weight(v, t)) == Weight(v, t)(b[0]) + SumBy(b[1..], Weight(v, t));
    }
  }

  /** A host to which v cannot be added within t has weight at least 2. */
  lemma WeightOfFullBin(b: seq<nat>, v: nat, t: nat)
    requires Load(b) + v > t && v <= t
    requires forall i :: 0 <= i < |b| ==> b[i] >= v
    ensures SumBy(b, Weight(v, t)) >= 2
  {
    if |b| == 1 {
      assert b == [b[0]] && b[1..] == [];
    } else if |b| >= 2 {
      assert b == [b[0], b[1]] + b[2..];
      assert b[1..][1..] == b[2..] && b[1..][0] == b[1];
      assert SumBy(b, Weight(v, t)) == Weight(v, t)(b[0]) + SumBy(b[1..], Weight(v, t));
    }
  }

  lemma {:induction false} JobsOfBins(bins: seq<seq<nat>>, i: nat, k: nat)
    requires i < |bins| && k < |bins[i]|
    ensures bins[i][k] in multiset(Flat(bins))
  {
    if i > 0 {
      JobsOfBins(bins[1..], i - 1, k);
    } else {
      assert Flat(bins)[k] == bins[0][k];
    }
  }

  lemma {:induction false} JobsOfFlat(bins: seq<seq<nat>>, x: nat) returns (i: nat, k: nat)
    requires x in multiset(Flat(bins))
    ensures i < |bins| && k < |bins[i]| && bins[i][k] == x
  {
    if x in multiset(bins[0]) {
      i := 0;
      k := FindIn(bins[0], x);
    } else {
      assert x in multiset(Flat(bins[1..]));
      var j;
      j, k := JobsOfFlat(bins[1..], x);
      i := j + 1;
    }
  }

  lemma {:induction false} LoadAtLeastJob(b: seq<nat>, k: nat)
    requires k < |b|
    ensures Load(b) >= b[k]
  {
    if k > 0 {
      LoadAtLeastJob(b[1..], k - 1);
    }
  }

  lemma AlternativeWeight(p: seq<nat>, alt: seq<seq<nat>>, v: nat, t: nat)
    requires Schedule(alt, p, |alt|) && Within(alt, t)
    requires 3 * v > t && v <= t
    ensures SumBy(p, Weight(v, t)) <= 2 * |alt|
  {
    var w := Weight(v, t);
    forall k | 0 <= k < |alt|
      ensures SumBy(alt[k], w) <= 2
    {
      WeightOfFittingBin(alt[k], v, t);
    }
    SumFlatAtMost(alt, w, 2);
    SumByPermutation(Flat(alt), p, w);
  }

  /** If the j-th job fits on no host within t, the jobs weigh at least 2m + 1. */
  lemma OwnWeight(p: seq<nat>, j: nat, bins: seq<seq<nat>>, i: nat, t: nat)
    requires j < |p| && Ordered(true, p) && i < |bins|
    requires multiset(Flat(bins)) == multiset(p[..j])
    requires forall k :: 0 <= k < |bins| ==> Load(bins[i]) <= Load(bins[k])
    requires p[j] <= t < Load(bins[i]) + p[j]
    ensures SumBy(p, Weight(p[j], t)) >= 2 * |bins| + 1
  {
    var v := p[j];
    var w := Weight(v, t);
    forall k | 0 <= k < |bins|
      ensures SumBy(bins[k], w) >= 2
    {
      forall q | 0 <= q < |bins[k]|
        ensures bins[k][q] >= v
      {
        JobsOfBins(bins, k, q);
        var x := FindIn(p[..j], bins[k][q]);
      }
      WeightOfFullBin(bins[k], v, t);
    }
    SumFlatAtLeast(bins, w, 2);
    SumByPermutation(Flat(bins), p[..j], w);
    SplitAt(p, j, w);
  }

  /**
    Placing the j-th largest job on a least loaded host: either the job is at
    most a third of the makespan t of the other schedule, or the new load is
    within t. A pigeonhole argument on weights: were the job too big for every
    host, the jobs would weigh at least 2m + 1, while the other schedule has
    room for 2m.
   */
  lemma LargeJobFits(p: seq<nat>, j: nat, bins: seq<seq<nat>>, i: nat, alt: seq<seq<nat>>, t: nat)
    requires j < |p| && Ordered(true, p) && i < |bins|
    requires multiset(Flat(bins)) == multiset(p[..j])
    requires forall k :: 0 <= k < |bins| ==> Load(bins[i]) <= Load(bins[k])
    requires Schedule(alt, p, |bins|) && Within(alt, t)
    requires 3 * p[j] > t
    ensures Load(bins[i]) + p[j] <= t
  {
    assert p[j] in multiset(p);
    var h, q := JobsOfFlat(alt, p[j]);
    LoadAtLeastJob(alt[h], q);
    if Load(bins[i]) + p[j] > t {
      OwnWeight(p, j, bins, i, t);
      AlternativeWeight(p, alt, p[j], t);
      assert false;
    }
  }

  /** Averaging: m times the least load plus the job is at most the total, hence at most m * t. */
  lemma AverageBound(p: seq<nat>, j: nat, bins: seq<seq<nat>>, i: nat, alt: seq<seq<nat>>, t: nat)
    requires j < |p| && i < |bins|
    requires multiset(Flat(bins)) == multiset(p[..j])
    requires forall k :: 0 <= k < |bins| ==> Load(bins[i]) <= Load(bins[k])
    requires Schedule(alt, p, |bins|) && Within(alt, t)
    ensures Times(|bins|, Load(bins[i])) + p[j] <= Times(|bins|, t)
  {
    TimesIsProduct(|bins|, Load(bins[i]));
    TimesIsProduct(|bins|, t);
    SumFlatAtLeast(bins, x => x, Load(bins[i]));
    SumFlatAtMost(alt, x => x, t);
    SumByPermutation(Flat(bins), p[..j], x => x);
    SumByPermutation(Flat(alt), p, x => x);
    SplitAt(p, j, x => x);
  }

  lemma PlacementBound(p: seq<nat>, j: nat, bins: seq<seq<nat>>, i: nat, alt: seq<seq<nat>>, t: nat)
    requires j < |p| && Ordered(true, p) && i < |bins|
    requires multiset(Flat(bins)) == multiset(p[..j])
    requires forall k :: 0 <= k < |bins| ==> Load(bins[i]) <= Load(bins[k])
    requires Schedule(alt, p, |bins|) && Within(alt, t)
    ensures GrahamBound(Load(bins[i]) + p[j], |bins|, t)
  {
    hide *;
    var load := Load(bins[i]) + p[j];
    if load <= t {
      FittingMeetsBound(load, |bins|, t);
    } else {
      SmallJob(p, j, bins, i, alt, t);
      AverageBound(p, j, bins, i, alt, t);
      AverageMeetsBound(|bins|, Load(bins[i]), p[j], t);
    }
  }

  lemma SmallJob(p: seq<nat>, j: nat, bins: seq<seq<nat>>, i: nat, alt: seq<seq<nat>>, t: nat)
    requires j < |p| && Ordered(true, p) && i < |bins|
    requires multiset(Flat(bins)) == multiset(p[..j])
    requires forall k :: 0 <= k < |bins| ==> Load(bins[i]) <= Load(bins[k])
    requires Schedule(alt, p, |bins|) && Within(alt, t)
    requires Load(bins[i]) + p[j] > t
    ensures 3 * p[j] <= t
  {
    if 3 * p[j] > t {
      LargeJobFits(p, j, bins, i, alt, t);
      assert false;
    }
  }

  lemma FittingMeetsBound(load: nat, m: nat, t: nat)
    requires m >= 1 && load <= t
    ensures GrahamBound(load, m, t)
  {
    TimesIsProduct(3 * m, load);
    TimesIsProduct(4 * m - 1, t);
    MulLe(load, t, 3 * m);
    MulLe(3 * m, 4 * m - 1, t);
  }

  lemma AverageMeetsBound(m: nat, l: nat, v: nat, t: nat)
    requires m >= 1 && Times(m, l) + v <= Times(m, t) && 3 * v <= t
    ensures GrahamBound(l + v, m, t)
  {
    TimesIsProduct(m, l);
    TimesIsProduct(m, t);
    TimesIsProduct(3 * m, l + v);
    TimesIsProduct(4 * m - 1, t);
    hide Times;
    AverageArithmetic(m, l, v, t);
  }

  lemma AverageArithmetic(m: nat, l: nat, v: nat, t: nat)
    requires m >= 1 && m * l + v <= m * t && 3 * v <= t
    ensures 3 * m * (l + v) <= (4 * m - 1) * t
  {
    MulLe(3 * v, t, m - 1);
    calc {
      3 * m * (l + v);
      3 * (m * l) + 3 * (m * v);
      3 * (m * l) + 3 * v + (m - 1) * (3 * v);
    <=
      3 * (m * t) + (m - 1) * t;
      (4 * m - 1) * t;
    }
  }

  lemma MulSuccessor(n: nat, c: nat)
    ensures (n + 1) * c == n * c + c
  {
  }

  lemma MulLe(a: int, b: int, c: nat)
    requires a <= b
    ensures a * c <= b * c && c * a <= c * b
  {
  }

  // ---------- The program ----------

  /** Virtual host k receives every line whose position is k modulo the number of virtual hosts. */
  ghost function RoundRobin(lines: seq<nat>, vhosts: nat, k: nat): nat
    requires vhosts > 0
  {
    if lines == [] then 0
    else
      var n := |lines| - 1;
      RoundRobin(lines[..n], vhosts, k) + if n % vhosts == k then lines[n] else 0
  }

  ghost function VhostLoads(lines: seq<nat>, vhosts: nat): (r: seq<nat>)
    requires vhosts == 0 ==> lines == []
    ensures |r| == vhosts
  {
    seq(vhosts, k requires 0 <= k < vhosts => RoundRobin(lines, vhosts, k))
  }

  lemma {:induction false} LoadUpdate(s: seq<nat>, i: nat, x: nat)
    requires i < |s|
    ensures Load(s[i := x]) == Load(s) - s[i] + x
  {
    if i > 0 {
      assert s[i := x][1..] == s[1..][i - 1 := x];
      LoadUpdate(s[1..], i - 1, x);
    } else {
      assert s[0 := x][1..] == s[1..];
    }
  }

  /** The loads h, in any order, are those of bins holding the first j jobs of p placed near-optimally. */
  ghost predicate Placed(bins: seq<seq<nat>>, h: seq<nat>, p: seq<nat>, j: nat)
    requires j <= |p|
  {
    && |bins| == |h|
    && multiset(Loads(bins)) == multiset(h)
    && multiset(Flat(bins)) == multiset(p[..j])
    && NearOptimal(bins, p)
    && Balanced(bins, p)
  }

  lemma LeastLoaded(bins: seq<seq<nat>>, h: seq<nat>) returns (i: nat)
    requires h != [] && Ordered(false, h) && multiset(Loads(bins)) == multiset(h)
    ensures i < |bins| && Load(bins[i]) == h[0]
    ensures forall k :: 0 <= k < |bins| ==> Load(bins[i]) <= Load(bins[k])
  {
    assert h[0] in multiset(h);
    i := FindIn(Loads(bins), h[0]);
    forall k | 0 <= k < |bins|
      ensures h[0] <= Load(bins[k])
    {
      assert Loads(bins)[k] in multiset(Loads(bins));
      var x := FindIn(h, Loads(bins)[k]);
      assert x == 0 || Before(false, h[0], h[x]);
    }
  }

  /** Adding the next job to the first of the sorted host loads keeps the schedule near-optimal and balanced. */
  lemma PlaceNext(bins: seq<seq<nat>>, h: seq<nat>, p: seq<nat>, j: nat) returns (after: seq<seq<nat>>)
    requires j < |p| && h != [] && Ordered(false, h) && Ordered(true, p) && Placed(bins, h, p, j)
    ensures Placed(after, h[0 := h[0] + p[j]], p, j + 1)
  {
    var i := LeastLoaded(bins, h);
    after := bins[i := bins[i] + [p[j]]];
    SumByAppend(bins[i], [p[j]], x => x);
    assert Load(after[i]) == Load(bins[i]) + p[j];
    assert Loads(after) == Loads(bins)[i := h[0] + p[j]];
    FlatPlace(bins, i, p[j]);
    assert p[..j + 1] == p[..j] + [p[j]];
    PlaceNextNearOptimal(bins, p, j, i, after);
    PlaceNextBalanced(bins, p, j, i, after);
  }

  lemma PlaceNextNearOptimal(bins: seq<seq<nat>>, p: seq<nat>, j: nat, i: nat, after: seq<seq<nat>>)
    requires j < |p| && Ordered(true, p) && i < |bins|
    requires multiset(Flat(bins)) == multiset(p[..j])
    requires forall k :: 0 <= k < |bins| ==> Load(bins[i]) <= Load(bins[k])
    requires |after| == |bins| && Load(after[i]) == Load(bins[i]) + p[j]
    requires forall k :: 0 <= k < |bins| && k != i ==> after[k] == bins[k]
    requires NearOptimal(bins, p)
    ensures NearOptimal(after, p)
  {
    hide Schedule, Within, Load, SumBy, Flat, GrahamBound, Times, Ordered;
    forall alt: seq<seq<nat>>, t: nat, k | Schedule(alt, p, |after|) && Within(alt, t) && 0 <= k < |after|
      ensures GrahamBound(Load(after[k]), |after|, t)
    {
      if k == i {
        PlacementBound(p, j, bins, i, alt, t);
      } else {
        assert GrahamBound(Load(bins[k]), |bins|, t);
      }
    }
  }

  lemma PlaceNextBalanced(bins: seq<seq<nat>>, p: seq<nat>, j: nat, i: nat, after: seq<seq<nat>>)
    requires j < |p| && i < |bins|
    requires forall k :: 0 <= k < |bins| ==> Load(bins[i]) <= Load(bins[k])
    requires |after| == |bins| && Load(after[i]) == Load(bins[i]) + p[j]
    requires forall k :: 0 <= k < |bins| && k != i ==> after[k] == bins[k]
    requires Balanced(bins, p)
    ensures Balanced(after, p)
  {
  }

  lemma PlacedReordered(bins: seq<seq<nat>>, h: seq<nat>, sorted: seq<nat>, p: seq<nat>, j: nat)
    requires j <= |p| && Placed(bins, h, p, j) && multiset(sorted) == multiset(h)
    ensures Placed(bins, sorted, p, j) && |sorted| == |h|
  {
    assert |sorted| == |multiset(sorted)|;
  }

  lemma NothingPlaced(m: nat, p: seq<nat>) returns (bins: seq<seq<nat>>)
    ensures Placed(bins, seq(m, _ => 0), p, 0)
    ensures bins == seq(m, _ => [])
  {
    bins := seq(m, _ => []);
    FlatOfEmpty(bins);
    assert p[..0] == [];
    assert Loads(bins) == seq(m, _ => 0);
    assert NearOptimal(bins, p) by {
      forall alt: seq<seq<nat>>, t: nat, i | Schedule(alt, p, |bins|) && Within(alt, t) && 0 <= i < |bins|
        ensures GrahamBound(Load(bins[i]), |bins|, t)
      {
        FittingMeetsBound(0, m, t);
      }
    }
  }

  lemma {:induction false} FlatOfEmpty(bins: seq<seq<nat>>)
    requires forall i :: 0 <= i < |bins| ==> bins[i] == []
    ensures Flat(bins) == []
  {
    if bins != [] {
      FlatOfEmpty(bins[1..]);
    }
  }

  /**
    Hands the jobs, sorted in descending order, one by one to the least loaded
    host, sorting the hosts before every step.
   */
  method Distribute(p: seq<nat>, hostDist: array<nat>) returns (ghost bins: seq<seq<nat>>)
    requires Ordered(true, p)
    requires hostDist.Length > 0 && forall i :: 0 <= i < hostDist.Length ==> hostDist[i] == 0
    modifies hostDist
    ensures Placed(bins, hostDist[..], p, |p|)
  {
    hide *;
    bins := NothingPlaced(hostDist.Length, p);
    assert hostDist[..] == seq(hostDist.Length, _ => 0);
    for j := 0 to |p|
      invariant Placed(bins, hostDist[..], p, j)
    {
      ghost var before := hostDist[..];
      SortSlice(hostDist, false);
      ghost var h := hostDist[..];
      PlacedReordered(bins, before, h, p, j);
      bins := PlaceNext(bins, h, p, j);
      hostDist[0] := hostDist[0] + p[j];
      assert hostDist[..] == h[0 := h[0] + p[j]];
    }
  }

  /** What the written loads say about the virtual hosts p, without reference to the run that produced them. */
  ghost predicate GoodSchedule(out: seq<nat>, p: seq<nat>) {
    && (exists bins: seq<seq<nat>> :: Schedule(bins, p, |out|) && multiset(Loads(bins)) == multiset(out))
    && (forall alt: seq<seq<nat>>, t: nat :: Schedule(alt, p, |out|) && Within(alt, t) ==>
        forall i :: 0 <= i < |out| ==> GrahamBound(out[i], |out|, t))
    && (forall b: nat :: AtMost(p, b) ==>
        forall i, k :: 0 <= i < |out| && 0 <= k < |out| ==> out[i] <= out[k] + b)
  }

  lemma PlacedIsGood(bins: seq<seq<nat>>, out: seq<nat>, sorted: seq<nat>, p: seq<nat>)
    requires multiset(sorted) == multiset(p) && Placed(bins, out, sorted, |sorted|)
    ensures GoodSchedule(out, p)
  {
    assert sorted[..|sorted|] == sorted;
    assert Schedule(bins, p, |out|);
    forall i | 0 <= i < |out|
      ensures exists x :: 0 <= x < |bins| && Load(bins[x]) == out[i]
    {
      assert out[i] in multiset(out);
      var x := FindIn(Loads(bins), out[i]);
    }
    forall alt: seq<seq<nat>>, t: nat, i | Schedule(alt, p, |out|) && Within(alt, t) && 0 <= i < |out|
      ensures GrahamBound(out[i], |out|, t)
    {
      assert Schedule(alt, sorted, |bins|);
    }
    forall b: nat, i, k | AtMost(p, b) && 0 <= i < |out| && 0 <= k < |out|
      ensures out[i] <= out[k] + b
    {
      AtMostPermuted(p, sorted, b);
    }
  }

  lemma AtMostPermuted(p: seq<nat>, q: seq<nat>, b: nat)
    requires multiset(p) == multiset(q) && AtMost(p, b)
    ensures AtMost(q, b)
  {
    forall k | 0 <= k < |q|
      ensures q[k] <= b
    {
      assert q[k] in multiset(q);
      var x := FindIn(p, q[k]);
    }
  }

  lemma {:induction false} LoadOfLoads(bins: seq<seq<nat>>)
    ensures Load(Loads(bins)) == Load(Flat(bins))
  {
    if bins != [] {
      SumByAppend(bins[0], Flat(bins[1..]), x => x);
      LoadOfLoads(bins[1..]);
      assert Loads(bins)[1..] == Loads(bins[1..]);
    }
  }

  lemma {:induction false} VhostLoadsStep(lines: seq<nat>, vhosts: nat)
    requires vhosts > 0 && lines != []
    ensures var n := |lines| - 1; var prior := VhostLoads(lines[..n], vhosts);
            VhostLoads(lines, vhosts) == prior[n % vhosts := prior[n % vhosts] + lines[n]]
  {
  }

  lemma {:induction false} LoadAppendOne(s: seq<nat>, x: nat)
    ensures Load(s + [x]) == Load(s) + x
  {
    SumByAppend(s, [x], x => x);
    assert [x][1..] == [];
  }

  /** Folding the lines into virtual hosts loses nothing. */
  lemma {:induction false} VhostTotal(lines: seq<nat>, vhosts: nat)
    requires vhosts > 0
    ensures Load(VhostLoads(lines, vhosts)) == Load(lines)
  {
    if lines == [] {
      ZeroLoad(VhostLoads(lines, vhosts));
    } else {
      var n := |lines| - 1;
      VhostTotal(lines[..n], vhosts);
      VhostLoadsStep(lines, vhosts);
      var prior := VhostLoads(lines[..n], vhosts);
      LoadUpdate(prior, n % vhosts, prior[n % vhosts] + lines[n]);
      assert lines == lines[..n] + [lines[n]];
      LoadAppendOne(lines[..n], lines[n]);
    }
  }

  lemma {:induction false} ZeroLoad(s: seq<nat>)
    requires forall i :: 0 <= i < |s| ==> s[i] == 0
    ensures Load(s) == 0
  {
    if s != [] {
      ZeroLoad(s[1..]);
    }
  }

  /** Folds the lines into the virtual-host loads, one after the other. */
  method FoldLines(lines: seq<nat>, vhosts: nat) returns (vhostDist: array<nat>)
    requires vhosts > 0
    ensures fresh(vhostDist) && vhostDist[..] == VhostLoads(lines, vhosts)
  {
    vhostDist := new nat[vhosts](_ => 0);
    assert vhostDist[..] == VhostLoads(lines[..0], vhosts);
    var currVhost := 0;
    for n := 0 to |lines|
      invariant currVhost == n % vhosts
      invariant vhostDist[..] == VhostLoads(lines[..n], vhosts)
    {
      ghost var prior := vhostDist[..];
      vhostDist[currVhost] := vhostDist[currVhost] + lines[n];
      assert lines[..n + 1][..n] == lines[..n];
      VhostLoadsStep(lines[..n + 1], vhosts);
      assert vhostDist[..] == prior[currVhost := prior[currVhost] + lines[n]];
      NextModulo(n, vhosts);
      currVhost := (currVhost + 1) % vhosts;
    }
    assert lines[..|lines|] == lines;
  }

  lemma NextModulo(n: nat, k: nat)
    requires k > 0
    ensures (n % k + 1) % k == (n + 1) % k
  {
    var q, r := n / k, n % k;
    if r + 1 == k {
      MulSuccessor(q, k);
      ModuloUnique(n + 1, k, q + 1, 0);
      ModuloUnique(k, k, 1, 0);
    } else {
      ModuloUnique(n + 1, k, q, r + 1);
      ModuloUnique(r + 1, k, 0, r + 1);
    }
  }

  lemma ModuloUnique(n: nat, k: nat, q: nat, r: nat)
    requires r < k && n == q * k + r
    ensures n % k == r
  {
    var d := n / k - q;
    assert d * k == r - n % k;
    if d >= 1 {
      MulLe(1, d, k);
    } else if d <= -1 {
      MulLe(1, -d, k);
    }
  }

  /**
    The conversion from virtual-host loads to host loads. It panics, which None
    stands for, exactly when it indexes an empty slice: a line without virtual
    hosts, or a virtual host without hosts.
   */
  method Vdl2Hdl(lines: seq<nat>, vhosts: nat, hosts: nat) returns (r: Option<seq<nat>>)
    ensures r.None? <==> (vhosts == 0 && lines != []) || (hosts == 0 && vhosts > 0)
    ensures r.Some? ==> |r.value| == hosts
    ensures r.Some? ==> Load(r.value) == Load(lines)
    ensures r.Some? ==> GoodSchedule(r.value, VhostLoads(lines, vhosts))
  {
    if (vhosts == 0 && lines != []) || (hosts == 0 && vhosts > 0) {
      return None;
    }
    hide GoodSchedule, Placed, VhostLoads, Ordered, Load;
    var hostDist := new nat[hosts](_ => 0);
    if vhosts == 0 {
      NothingIsGood(hosts, hostDist[..], lines);
      return Some(hostDist[..]);
    }
    var vhostDist := FoldLines(lines, vhosts);
    SortSlice(vhostDist, true);
    ghost var bins := Distribute(vhostDist[..], hostDist);
    PlacedIsGood(bins, hostDist[..], vhostDist[..], VhostLoads(lines, vhosts));
    DistributedTotal(bins, hostDist[..], vhostDist[..], lines, vhosts);
    return Some(hostDist[..]);
  }

  /** Without lines and virtual hosts every host is left with nothing. */
  lemma NothingIsGood(hosts: nat, out: seq<nat>, lines: seq<nat>)
    requires lines == [] && |out| == hosts && forall i :: 0 <= i < hosts ==> out[i] == 0
    ensures GoodSchedule(out, VhostLoads(lines, 0)) && Load(out) == Load(lines)
  {
    var bins := NothingPlaced(hosts, []);
    assert out == seq(hosts, _ => 0);
    PlacedIsGood(bins, out, [], VhostLoads(lines, 0));
    ZeroLoad(out);
  }

  lemma DistributedTotal(bins: seq<seq<nat>>, out: seq<nat>, sorted: seq<nat>, lines: seq<nat>, vhosts: nat)
    requires vhosts > 0 && multiset(sorted) == multiset(VhostLoads(lines, vhosts))
    requires Placed(bins, out, sorted, |sorted|)
    ensures Load(out) == Load(lines)
  {
    assert sorted[..|sorted|] == sorted;
    hide NearOptimal, Balanced;
    SumByPermutation(out, Loads(bins), x => x);
    LoadOfLoads(bins);
    SumByPermutation(Flat(bins), sorted, x => x);
    SumByPermutation(sorted, VhostLoads(lines, vhosts), x => x);
    VhostTotal(lines, vhosts);
  }

  // ---------- Chunking of bel2vdlConvert ----------

  /** First record of routine i when `indexes` records are split among `routines` routines. */
  function ChunkStart(indexes: nat, routines: nat, i: nat): nat
    requires routines > 0
  {
    var remaining := indexes % routines;
    indexes / routines * i + if remaining > i then i else remaining
  }

  function ChunkEnd(indexes: nat, routines: nat, i: nat): nat
    requires routines > 0
  {
    ChunkStart(indexes, routines, i) + indexes / routines + if indexes % routines > i then 1 else 0
  }

  /**
    Consecutive chunks meet, the first starts at 0 and the last ends at `indexes`:
    every record is in exactly one chunk.
   */
  lemma ChunksTile(indexes: nat, routines: nat, i: nat)
    requires i < routines
    ensures ChunkStart(indexes, routines, 0) == 0
    ensures i + 1 < routines ==> ChunkEnd(indexes, routines, i) == ChunkStart(indexes, routines, i + 1)
    ensures ChunkEnd(indexes, routines, routines - 1) == indexes
    ensures ChunkEnd(indexes, routines, i) <= indexes
  {
    var c, r := indexes / routines, indexes % routines;
    assert indexes == c * routines + r;
    assert c * (i + 1) == c * i + c;
    assert c * routines == c * (routines - 1) + c;
    MulLe(i + 1, routines, c);
  }

  /** Every chunk has the average number of records, rounded down or up. */
  lemma ChunkSizes(indexes: nat, routines: nat, i: nat)
    requires i < routines
    ensures ChunkStart(indexes, routines, i) <= ChunkEnd(indexes, routines, i)
    ensures var size := ChunkEnd(indexes, routines, i) - ChunkStart(indexes, routines, i);
            (size - 1) * routines < indexes < (size + 1) * routines
  {
    var c, r := indexes / routines, indexes % routines;
    AroundAverage(indexes, routines, c, r);
    hide *;
    ChunkIs(indexes, routines, i);
  }

  lemma ChunkIs(indexes: nat, routines: nat, i: nat)
    requires i < routines
    ensures ChunkEnd(indexes, routines, i) ==
      ChunkStart(indexes, routines, i) + indexes / routines + if indexes % routines > i then 1 else 0
  {
  }

  lemma AroundAverage(n: nat, k: nat, c: nat, r: nat)
    requires k > 0 && c == n / k && r == n % k
    ensures (c - 1) * k < n < (c + 1) * k
    ensures r > 0 ==> c * k < n < (c + 2) * k
  {
    assert n == c * k + r;
    assert (c - 1) * k == c * k - k && (c + 1) * k == c * k + k && (c + 2) * k == c * k + 2 * k;
  }

  /** How many of the records have their source in virtual host k. */
  ghost function SourcesOf(srcs: seq<nat>, vhosts: nat, k: nat): nat
    requires vhosts > 0
  {
    if srcs == [] then 0
    else
      var n := |srcs| - 1;
      SourcesOf(srcs[..n], vhosts, k) + if srcs[n] % vhosts == k then 1 else 0
  }

  /** The records whose source falls to virtual host k. */
  ghost function RecordsOf(srcs: seq<nat>, vhosts: nat, k: nat): set<nat>
    requires vhosts > 0
  {
    set i: nat | i < |srcs| && srcs[i] % vhosts == k
  }

  lemma {:induction false} SourcesOfIsSize(srcs: seq<nat>, vhosts: nat, k: nat)
    requires vhosts > 0
    ensures SourcesOf(srcs, vhosts, k) == |RecordsOf(srcs, vhosts, k)|
  {
    if srcs == [] {
      assert RecordsOf(srcs, vhosts, k) == {};
    } else {
      var n := |srcs| - 1;
      SourcesOfIsSize(srcs[..n], vhosts, k);
      var before := RecordsOf(srcs[..n], vhosts, k);
      assert RecordsOf(srcs, vhosts, k) == before + if srcs[n] % vhosts == k then {n} else {};
    }
  }

  ghost function Counts(srcs: seq<nat>, vhosts: nat): (r: seq<nat>)
    requires vhosts > 0
    ensures |r| == vhosts && forall k :: 0 <= k < vhosts ==> r[k] == SourcesOf(srcs, vhosts, k)
  {
    seq(vhosts, (k: nat) requires k < vhosts => SourcesOf(srcs, vhosts, k))
  }

  /** Every record is counted for one virtual host. */
  lemma {:induction false} CountsTotal(srcs: seq<nat>, vhosts: nat)
    requires vhosts > 0
    ensures Load(Counts(srcs, vhosts)) == |srcs|
  {
    if srcs == [] {
      ZeroLoad(Counts(srcs, vhosts));
    } else {
      var n := |srcs| - 1;
      var prior, k := Counts(srcs[..n], vhosts), srcs[n] % vhosts;
      CountsTotal(srcs[..n], vhosts);
      LoadUpdate(prior, k, prior[k] + 1);
      assert Counts(srcs, vhosts) == prior[k := prior[k] + 1];
    }
  }

  /** Counts the records of one chunk. */
  method CountChunk(srcs: seq<nat>, vhosts: nat, from: nat, to: nat, vhostDist: array<nat>)
    requires from <= to <= |srcs| && vhosts == vhostDist.Length && (vhosts == 0 ==> from == to)
    requires forall k :: 0 <= k < vhosts ==> vhostDist[k] == SourcesOf(srcs[..from], vhosts, k)
    modifies vhostDist
    ensures forall k :: 0 <= k < vhosts ==> vhostDist[k] == SourcesOf(srcs[..to], vhosts, k)
  {
    for j := from to to
      invariant forall k :: 0 <= k < vhosts ==> vhostDist[k] == SourcesOf(srcs[..j], vhosts, k)
    {
      var curr := srcs[j];
      vhostDist[curr % vhosts] := vhostDist[curr % vhosts] + 1;
      assert srcs[..j + 1][..j] == srcs[..j];
    }
  }

  /**
    Counts the records of every virtual host, chunk by chunk. It panics, which
    None stands for, when there are no routines (a division by zero that comes
    before the test for zero routines) or records but no virtual hosts.
   */
  method Bel2Vdl(srcs: seq<nat>, vhosts: nat, routines: nat) returns (r: Option<seq<nat>>)
    ensures r.None? <==> routines == 0 || (vhosts == 0 && srcs != [])
    ensures r.Some? ==> |r.value| == vhosts
    ensures r.Some? ==> forall k :: 0 <= k < vhosts ==> r.value[k] == |set i: nat | i < |srcs| && srcs[i] % vhosts == k|
    ensures r.Some? ==> Load(r.value) == |srcs|
  {
    if routines == 0 || (vhosts == 0 && srcs != []) {
      return None;
    }
    var vhostDist := new nat[vhosts](_ => 0);
    var indexes := |srcs|;
    ChunksTile(indexes, routines, 0);
    hide ChunkStart, ChunkEnd;
    for i := 0 to routines
      invariant Reached(indexes, routines, i) <= indexes
      invariant forall k :: 0 <= k < vhosts ==> vhostDist[k] == SourcesOf(srcs[..Reached(indexes, routines, i)], vhosts, k)
    {
      NextChunk(indexes, routines, i);
      CountChunk(srcs, vhosts, ChunkStart(indexes, routines, i), ChunkEnd(indexes, routines, i), vhostDist);
    }
    assert srcs[..indexes] == srcs;
    AllCounted(srcs, vhosts, vhostDist[..]);
    return Some(vhostDist[..]);
  }

  lemma AllCounted(srcs: seq<nat>, vhosts: nat, out: seq<nat>)
    requires |out| == vhosts && (vhosts == 0 ==> srcs == [])
    requires forall k :: 0 <= k < vhosts ==> out[k] == SourcesOf(srcs, vhosts, k)
    ensures forall k :: 0 <= k < vhosts ==> out[k] == |set i: nat | i < |srcs| && srcs[i] % vhosts == k|
    ensures Load(out) == |srcs|
  {
    if vhosts > 0 {
      forall k | 0 <= k < vhosts
        ensures out[k] == |set i: nat | i < |srcs| && srcs[i] % vhosts == k|
      {
        SourcesOfIsSize(srcs, vhosts, k);
        assert RecordsOf(srcs, vhosts, k) == set i: nat | i < |srcs| && srcs[i] % vhosts == k;
      }
      CountsTotal(srcs, vhosts);
      assert out == Counts(srcs, vhosts);
    }
  }

  /** How many records the chunks before the i-th hold. */
  ghost function Reached(indexes: nat, routines: nat, i: nat): nat
    requires routines > 0
  {
    if i < routines then ChunkStart(indexes, routines, i) else indexes
  }

  lemma NextChunk(indexes: nat, routines: nat, i: nat)
    requires i < routines
    ensures ChunkStart(indexes, routines, i) == Reached(indexes, routines, i) <= ChunkEnd(indexes, routines, i) <= indexes
    ensures ChunkEnd(indexes, routines, i) == Reached(indexes, routines, i + 1)
  {
    ChunksTile(indexes, routines, i);
  }
}
