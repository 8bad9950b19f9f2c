/**
  Greedy choice of influential nodes over a fixed family of reverse reachable
  sets: what the picks achieve, whatever machinery counts the occurrences.
 */
module SeedSelection {

  /** In how many sets v occurs. */
  ghost function Containing(sets: seq<set<nat>>, v: nat): nat {
    if sets == [] then 0 else (if v in sets[0] then 1 else 0) + Containing(sets[1..], v)
  }

  /** How many sets have a node in common with `nodes`. */
  ghost function Hit(sets: seq<set<nat>>, nodes: set<nat>): nat {
    if sets == [] then 0 else (if sets[0] * nodes != {} then 1 else 0) + Hit(sets[1..], nodes)
  }

  ghost function SetsWith(sets: seq<set<nat>>, v: nat): set<nat> {
    set i: nat | i < |sets| && v in sets[i]
  }

  lemma {:induction false} ContainingIsSize(sets: seq<set<nat>>, v: nat)
    ensures Containing(sets, v) == |SetsWith(sets, v)|
    decreases |sets|
  {
    if sets == [] {
      assert SetsWith(sets, v) == {};
    } else {
      var n := |sets| - 1;
      ContainingIsSize(sets[..n], v);
      ContainingLast(sets, v);
      hide Containing;
      SetsWithLast(sets, v);
    }
  }

  lemma SetsWithLast(sets: seq<set<nat>>, v: nat)
    requires sets != []
    ensures |SetsWith(sets, v)| == |SetsWith(sets[..|sets| - 1], v)| + if v in sets[|sets| - 1] then 1 else 0
  {
    var n := |sets| - 1;
    assert SetsWith(sets, v) == SetsWith(sets[..n], v) + if v in sets[n] then {n} else {};
  }

  lemma {:induction false} ContainingLast(sets: seq<set<nat>>, v: nat)
    requires sets != []
    ensures Containing(sets, v) == Containing(sets[..|sets| - 1], v) + if v in sets[|sets| - 1] then 1 else 0
    decreases |sets|
  {
    if |sets| > 1 {
      ContainingLast(sets[1..], v);
      assert sets[1..][..|sets| - 2] == sets[..|sets| - 1][1..];
    } else {
      assert sets[..0] == [] && sets[1..] == [];
    }
  }

  /** The family after every set with node x has been emptied. */
  ghost function Without(sets: seq<set<nat>>, x: nat): (r: seq<set<nat>>)
    ensures |r| == |sets|
    ensures forall i :: 0 <= i < |sets| ==> r[i] == if x in sets[i] then {} else sets[i]
  {
    seq(|sets|, i requires 0 <= i < |sets| => if x in sets[i] then {} else sets[i])
  }

  ghost function Remaining(sets: seq<set<nat>>, picks: seq<nat>): (r: seq<set<nat>>)
    ensures |r| == |sets|
  {
    if picks == [] then sets
    else Without(Remaining(sets, picks[..|picks| - 1]), picks[|picks| - 1])
  }

  ghost predicate Maximal(sets: seq<set<nat>>, x: nat) {
    forall v: nat :: Containing(sets, v) <= Containing(sets, x)
  }

  /** Every pick occurs most often among the sets the earlier picks left over. */
  ghost predicate Greedy(sets: seq<set<nat>>, picks: seq<nat>) {
    forall j :: 0 <= j < |picks| ==> Maximal(Remaining(sets, picks[..j]), picks[j])
  }

  ghost function NodesOf(picks: seq<nat>): set<nat> {
    set i | 0 <= i < |picks| :: picks[i]
  }

  lemma NodesOfAppend(picks: seq<nat>, x: nat)
    ensures NodesOf(picks + [x]) == NodesOf(picks) + {x}
  {
    forall v
      ensures v in NodesOf(picks + [x]) <==> v in NodesOf(picks) + {x}
    {
      if v in NodesOf(picks) {
        var i :| 0 <= i < |picks| && picks[i] == v;
        assert (picks + [x])[i] == v;
      } else if v == x {
        assert (picks + [x])[|picks|] == v;
      }
    }
  }

  lemma {:induction false} RemainingSet(sets: seq<set<nat>>, picks: seq<nat>, i: nat)
    requires i < |sets|
    ensures Remaining(sets, picks)[i] == if sets[i] * NodesOf(picks) != {} then {} else sets[i]
  {
    if picks != [] {
      var n := |picks| - 1;
      RemainingSet(sets, picks[..n], i);
      assert picks == picks[..n] + [picks[n]];
      NodesOfAppend(picks[..n], picks[n]);
      if picks[n] in sets[i] {
        assert picks[n] in sets[i] * NodesOf(picks);
      } else {
        assert sets[i] * NodesOf(picks) == sets[i] * NodesOf(picks[..n]);
      }
    } else {
      assert NodesOf(picks) == {};
    }
  }

  /** The sets already hit and the sets still to be hit by `nodes` together outnumber all sets hit by `nodes`. */
  lemma {:induction false} HitSplit(sets: seq<set<nat>>, rest: seq<set<nat>>, covered: set<nat>, nodes: set<nat>)
    requires |sets| == |rest|
    requires forall i :: 0 <= i < |sets| ==> rest[i] == if sets[i] * covered != {} then {} else sets[i]
    ensures Hit(sets, nodes) <= Hit(sets, covered) + Hit(rest, nodes)
  {
    if sets != [] {
      HitSplit(sets[1..], rest[1..], covered, nodes);
    }
  }

  lemma MeetsUnion(s: set<nat>, nodes: set<nat>, x: nat)
    ensures s * (nodes + {x}) != {} <==> s * nodes != {} || x in s
  {
    if x in s {
      assert x in s * (nodes + {x});
    } else {
      assert s * (nodes + {x}) == s * nodes;
    }
  }

  /** A further pick adds exactly the remaining sets it occurs in. */
  lemma {:induction false} HitGain(sets: seq<set<nat>>, rest: seq<set<nat>>, covered: set<nat>, x: nat)
    requires |sets| == |rest|
    requires forall i :: 0 <= i < |sets| ==> rest[i] == if sets[i] * covered != {} then {} else sets[i]
    ensures Hit(sets, covered + {x}) == Hit(sets, covered) + Containing(rest, x)
  {
    if sets != [] {
      HitGain(sets[1..], rest[1..], covered, x);
      MeetsUnion(sets[0], covered, x);
    }
  }

  lemma {:induction false} HitUnion(sets: seq<set<nat>>, nodes: set<nat>, x: nat)
    ensures Hit(sets, nodes + {x}) <= Hit(sets, nodes) + Containing(sets, x)
  {
    if sets != [] {
      HitUnion(sets[1..], nodes, x);
      MeetsUnion(sets[0], nodes, x);
    }
  }

  lemma {:induction false} HitNothing(sets: seq<set<nat>>)
    ensures Hit(sets, {}) == 0
  {
    if sets != [] {
      HitNothing(sets[1..]);
    }
  }

  /** No group of nodes hits more than its size times the sets of a maximal node. */
  lemma {:induction false} HitAtMost(sets: seq<set<nat>>, nodes: set<nat>, x: nat)
    requires Maximal(sets, x)
    ensures Hit(sets, nodes) <= |nodes| * Containing(sets, x)
    decreases |nodes|
  {
    if nodes == {} {
      HitNothing(sets);
    } else {
      var o :| o in nodes;
      HitAtMost(sets, nodes - {o}, x);
      HitUnion(sets, nodes - {o}, o);
      assert nodes - {o} + {o} == nodes;
      Successor(|nodes - {o}|, Containing(sets, x));
    }
  }

  lemma Successor(a: nat, c: nat)
    ensures (a + 1) * c == a * c + c
  {
  }

  ghost function Power(b: nat, e: nat): nat {
    if e == 0 then 1 else b * Power(b, e - 1)
  }

  /**
    After j picks the sets still missing of an optimum opt are at most a
    (1 - 1/k)^j fraction of it.
   */
  ghost predicate CoverageBound(k: nat, j: nat, opt: nat, covered: nat)
    requires k >= 1
  {
    Power(k, j) * (opt - covered) <= Power(k - 1, j) * opt
  }

  /**
    Maximum coverage: against any k nodes, k greedy picks miss at most a
    (1 - 1/k)^k fraction of the sets those nodes hit. The induction covers j
    picks measured against k nodes.
   */
  lemma {:induction false} GreedyCoverage(sets: seq<set<nat>>, picks: seq<nat>, k: nat, nodes: set<nat>)
    requires Greedy(sets, picks) && k >= 1 && |nodes| <= k
    ensures CoverageBound(k, |picks|, Hit(sets, nodes), Hit(sets, NodesOf(picks)))
  {
    hide CoverageBound, Hit, Remaining, Containing;
    if picks == [] {
      CoverageOfNothing(k, Hit(sets, nodes), Hit(sets, NodesOf(picks)));
    } else {
      var j := |picks| - 1;
      var prior := picks[..j];
      forall i | 0 <= i < j
        ensures Maximal(Remaining(sets, prior[..i]), prior[i])
      {
        assert prior[..i] == picks[..i];
      }
      assert prior + [picks[j]] == picks;
      assert Maximal(Remaining(sets, prior), picks[j]);
      GreedyCoverage(sets, prior, k, nodes);
      OnePick(sets, prior, picks[j], k, nodes);
      CoverageArithmetic(k, j, Hit(sets, nodes), Hit(sets, NodesOf(prior)), Hit(sets, NodesOf(picks)));
    }
  }

  /** One pick closes at least a k-th of the gap to any k nodes. */
  lemma OnePick(sets: seq<set<nat>>, prior: seq<nat>, x: nat, k: nat, nodes: set<nat>)
    requires Maximal(Remaining(sets, prior), x) && |nodes| <= k
    ensures Hit(sets, nodes) - Hit(sets, NodesOf(prior)) <= k * (Hit(sets, NodesOf(prior + [x])) - Hit(sets, NodesOf(prior)))
  {
    var rest := Remaining(sets, prior);
    forall i | 0 <= i < |sets|
      ensures rest[i] == if sets[i] * NodesOf(prior) != {} then {} else sets[i]
    {
      RemainingSet(sets, prior, i);
    }
    NodesOfAppend(prior, x);
    hide *;
    HitSplit(sets, rest, NodesOf(prior), nodes);
    HitGain(sets, rest, NodesOf(prior), x);
    HitAtMost(rest, nodes, x);
    TimesMonotone(|nodes|, k, Containing(rest, x));
  }

  lemma TimesMonotone(a: nat, b: nat, c: nat)
    requires a <= b
    ensures a * c <= b * c
  {
  }

  lemma CoverageOfNothing(k: nat, opt: nat, covered: nat)
    requires k >= 1
    ensures CoverageBound(k, 0, opt, covered)
  {
  }

  lemma CoverageArithmetic(k: nat, j: nat, opt: nat, before: nat, after: nat)
    requires k >= 1 && opt - before <= k * (after - before)
    requires CoverageBound(k, j, opt, before)
    ensures CoverageBound(k, j + 1, opt, after)
  {
    var p, q := Power(k, j), Power(k - 1, j);
    assert Power(k, j + 1) == k * p && Power(k - 1, j + 1) == (k - 1) * q;
    hide Power;
    GapShrinks(k, opt, before, after);
    ScaleLe(k * (opt - after), (k - 1) * (opt - before), p);
    ScaleLe(p * (opt - before), q * opt, k - 1);
    Regroup(k, p, opt - after);
    Regroup(p, k - 1, opt - before);
    Regroup(k - 1, q, opt);
  }

  lemma GapShrinks(k: nat, opt: nat, before: nat, after: nat)
    requires k >= 1 && opt - before <= k * (after - before)
    ensures k * (opt - after) <= (k - 1) * (opt - before)
  {
  }

  /** Both ways of grouping a product of three factors. */
  lemma Regroup(a: int, b: int, c: int)
    ensures a * b * c == a * (b * c) == b * (a * c)
  {
  }

  lemma ScaleLe(a: int, b: int, c: nat)
    requires a <= b
    ensures c * a <= c * b
  {
  }

  /** A pick that still occurs somewhere was not picked before. */
  lemma PositivePicksDistinct(sets: seq<set<nat>>, picks: seq<nat>, j: nat)
    requires j < |picks| && Containing(Remaining(sets, picks[..j]), picks[j]) > 0
    ensures picks[j] !in picks[..j]
  {
    var rest := Remaining(sets, picks[..j]);
    var i := Occurs(rest, picks[j]);
    RemainingSet(sets, picks[..j], i);
    var met := sets[i] * NodesOf(picks[..j]);
    var x := picks[j];
    assert x in NodesOf(picks[..j]) ==> x in met;
  }

  lemma {:induction false} Occurs(sets: seq<set<nat>>, v: nat) returns (i: nat)
    requires Containing(sets, v) > 0
    ensures i < |sets| && v in sets[i]
  {
    if v in sets[0] {
      i := 0;
    } else {
      var k := Occurs(sets[1..], v);
      i := k + 1;
    }
  }

  lemma {:induction false} OccurrencesCount(sets: seq<set<nat>>, i: nat, v: nat)
    requires i < |sets| && v in sets[i]
    ensures Containing(sets, v) > 0
  {
    if i > 0 {
      OccurrencesCount(sets[1..], i - 1, v);
    }
  }

  lemma {:induction false} ContainingUpdate(sets: seq<set<nat>>, i: nat, t: set<nat>, v: nat)
    requires i < |sets|
    ensures Containing(sets[i := t], v) == Containing(sets, v) - (if v in sets[i] then 1 else 0) + if v in t then 1 else 0
  {
    if i == 0 {
      assert sets[0 := t][1..] == sets[1..];
    } else {
      assert sets[i := t][1..] == sets[1..][i - 1 := t];
      ContainingUpdate(sets[1..], i - 1, t, v);
    }
  }
}
