/**
  What the buyers of a phase achieve, wf4/src/quiesce.cpp: how much a buyer trades
  on a visit to a seller, whatever the others do meanwhile; why a buyer may be left
  with a need; and what the only buyer in need obtains.
 */
module Outcomes {
  import opened Basics
  import opened Sums
  import opened Reservation
  import opened Trading

  // ---------- The last step of a run ----------

  lemma LastStep(n: nat, local: set<nat>, run: seq<State>) returns (i: nat, boughtFirst: bool)
    requires Run(n, local, run) && |run| > 1
    ensures var st := run[|run| - 2];
      && Run(n, local, run[..|run| - 1]) && Shape(n, st) && i < |st.agents| && !Finished(st.agents[i])
      && run[|run| - 1] == Step(local, st, i, boughtFirst)
  {
    FrontRun(n, local, run);
    var st := run[|run| - 2];
    assert StepAt(n, local, run, |run| - 2);
    i, boughtFirst :| i < |st.agents| && !Finished(st.agents[i]) && run[|run| - 1] == Step(local, st, i, boughtFirst);
  }

  lemma PrefixRun(n: nat, local: set<nat>, run: seq<State>, m: nat)
    requires Run(n, local, run) && 0 < m <= |run|
    ensures Run(n, local, run[..m])
  {
    forall k: nat | k + 1 < m
      ensures StepAt(n, local, run[..m], k)
    {
      assert StepAt(n, local, run, k);
    }
  }

  ghost function SoldAt(run: seq<State>, m: nat, c: nat): real {
    if m < |run| && c < |run[m].sold| then run[m].sold[c] else 0.0
  }

  ghost function BoughtAt(run: seq<State>, m: nat, c: nat): real {
    if m < |run| && c < |run[m].bought| then run[m].bought[c] else 0.0
  }

  // ---------- A visit to a seller ----------

  /** At moment m of the run buyer i is at its edge j. */
  ghost predicate Visits(run: seq<State>, i: nat, j: nat, m: nat) {
    m < |run| && i < |run[m].agents| && run[m].agents[i].k == j
  }

  ghost predicate SawSold(run: seq<State>, i: nat, j: nat, c: nat, s: real) {
    exists m: nat :: Visits(run, i, j, m) && SoldAt(run, m, c) == s
  }

  ghost predicate SawBought(run: seq<State>, i: nat, j: nat, c: nat, b: real) {
    exists m: nat :: Visits(run, i, j, m) && BoughtAt(run, m, c) == b
  }

  /** What c had bought at one moment of the visit is x more than what it had sold at another. */
  ghost predicate Offers(run: seq<State>, i: nat, j: nat, c: nat, x: real) {
    exists b: real, s: real :: SawBought(run, i, j, c, b) && SawSold(run, i, j, c, s) && x == b - s
  }

  /** At some moment of the visit c had sold more than it had bought at another. */
  ghost predicate Oversold(run: seq<State>, i: nat, j: nat, c: nat) {
    exists s: real, b: real :: SawSold(run, i, j, c, s) && SawBought(run, i, j, c, b) && s > b
  }

  /** What a buyer with this need gets of a surplus x. */
  function Gain(need: real, x: real): (r: real)
    ensures if need <= 0.0 || x <= 0.0 then r == 0.0 else 0.0 < r <= need && r <= x && (r == need || r == x)
  {
    if Min(need, x) > 0.0 then Min(need, x) else 0.0
  }

  /**
    The need on arrival and on departure: a buyer in need gets all it can of the
    surplus it saw, or nothing because its addition did not fit.
   */
  ghost predicate VisitOutcome(run: seq<State>, i: nat, j: nat, c: nat, need: real, need': real) {
    if need <= 0.0 then need' == need
    else exists x :: Offers(run, i, j, c, x) && (need' == need - Gain(need, x) || (need' == need && x > 0.0 && Oversold(run, i, j, c)))
  }

  ghost predicate Wants(run: seq<State>, i: nat, j: nat, c: nat, need: real, d: real) {
    exists x :: Offers(run, i, j, c, x) && 0.0 < d == Min(need, x)
  }

  /** What buyer i knows so far about the seller it visits. */
  ghost predicate Knows(run: seq<State>, i: nat, a: Agent, c: nat) {
    match a.pc
    case Look => true
    case Read => a.needed > 0.0
    case ReadSold(b) => a.needed > 0.0 && SawBought(run, i, a.k, c, b)
    case ReadBought(s) => a.needed > 0.0 && SawSold(run, i, a.k, c, s)
    case Reserve(d) => Wants(run, i, a.k, c, a.needed, d)
    case Check(d, seen) => Wants(run, i, a.k, c, a.needed, d) && SawSold(run, i, a.k, c, seen)
    case Rollback(d) => Wants(run, i, a.k, c, a.needed, d) && Oversold(run, i, a.k, c)
    case Commit(d) => Wants(run, i, a.k, c, a.needed, d)
  }

  /** What has been seen stays seen. */
  lemma SeenLonger(run: seq<State>, m: nat, i: nat, c: nat)
    requires m <= |run|
    ensures forall j, s :: SawSold(run[..m], i, j, c, s) ==> SawSold(run, i, j, c, s)
    ensures forall j, b :: SawBought(run[..m], i, j, c, b) ==> SawBought(run, i, j, c, b)
  {
    forall j, s | SawSold(run[..m], i, j, c, s)
      ensures SawSold(run, i, j, c, s)
    {
      var k: nat :| Visits(run[..m], i, j, k) && SoldAt(run[..m], k, c) == s;
      assert Visits(run, i, j, k) && SoldAt(run, k, c) == s;
    }
    forall j, b | SawBought(run[..m], i, j, c, b)
      ensures SawBought(run, i, j, c, b)
    {
      var k: nat :| Visits(run[..m], i, j, k) && BoughtAt(run[..m], k, c) == b;
      assert Visits(run, i, j, k) && BoughtAt(run, k, c) == b;
    }
  }

  lemma KnownLonger(run: seq<State>, m: nat, i: nat, a: Agent, c: nat)
    requires m <= |run| && Knows(run[..m], i, a, c)
    ensures Knows(run, i, a, c)
  {
    SeenLonger(run, m, i, c);
    OffersLonger(run, m, i, a.k, c);
    hide SawSold, SawBought, Offers;
  }

  lemma OffersLonger(run: seq<State>, m: nat, i: nat, j: nat, c: nat)
    requires m <= |run|
    ensures forall x :: Offers(run[..m], i, j, c, x) ==> Offers(run, i, j, c, x)
    ensures Oversold(run[..m], i, j, c) ==> Oversold(run, i, j, c)
  {
    SeenLonger(run, m, i, c);
    hide SawSold, SawBought;
  }

  /** What the seller has sold and bought at the last moment of the run. */
  lemma SeesNow(run: seq<State>, i: nat, c: nat)
    requires run != [] && i < |run[|run| - 1].agents|
    ensures var last := |run| - 1;
      && SawSold(run, i, run[last].agents[i].k, c, SoldAt(run, last, c))
      && SawBought(run, i, run[last].agents[i].k, c, BoughtAt(run, last, c))
  {
    assert Visits(run, i, run[|run| - 1].agents[i].k, |run| - 1);
  }

  /** The step of buyer i itself: either the visit goes on, or it ends with the outcome promised. */
  lemma OwnStep(n: nat, local: set<nat>, run: seq<State>, st': State, i: nat, boughtFirst: bool)
    requires run != [] && Shape(n, run[|run| - 1]) && i < |run[|run| - 1].agents| && !Finished(run[|run| - 1].agents[i])
    requires st' == Step(local, run[|run| - 1], i, boughtFirst)
    requires var a := run[|run| - 1].agents[i];
      && AgentShape(n, a) && a.k < |a.edges| && a.edges[a.k].purchase && Knows(run, i, a, a.edges[a.k].seller)
    ensures i < |st'.agents|
    ensures var a, a' := run[|run| - 1].agents[i], st'.agents[i];
      var c := a.edges[a.k].seller;
      if a'.k == a.k then Knows(run + [st'], i, a', c) else VisitOutcome(run, i, a.k, c, a.needed, a'.needed)
  {
    var last := |run| - 1;
    var st := run[last];
    var a, a' := st.agents[i], st'.agents[i];
    var c := a.edges[a.k].seller;
    var run' := run + [st'];
    SeesNow(run, i, c);
    SeesNow(run', i, c);
    assert run'[..|run|] == run;
    hide SawSold, SawBought, Knows, VisitOutcome;
    if a'.k == a.k {
      StaysKnowing(run, i, a, c, st.sold[c], st.bought[c], boughtFirst);
      KnownLonger(run', |run|, i, a'.(pc := if a.pc.Reserve? then a.pc else a'.pc), c);
      if a.pc.Reserve? {
        ReservedKnows(run', i, a, c, st.sold[c] + a.pc.d);
      }
    } else {
      LeavesKnowing(n, run, i, a, c, st.sold[c], st.bought[c], boughtFirst);
    }
  }

  lemma StaysKnowing(run: seq<State>, i: nat, a: Agent, c: nat, sold: real, bought: real, boughtFirst: bool)
    requires a.k < |a.edges| && Knows(run, i, a, c) && a.edges[a.k].purchase
    requires SawSold(run, i, a.k, c, sold) && SawBought(run, i, a.k, c, bought)
    ensures var a' := AgentStep(a, sold, bought, boughtFirst); a'.k == a.k && !a.pc.Reserve? ==> Knows(run, i, a', c)
  {
    hide SawSold, SawBought;
    match a.pc
    case ReadSold(b) =>
      assert Offers(run, i, a.k, c, b - sold);
    case ReadBought(s) =>
      assert Offers(run, i, a.k, c, bought - s);
    case _ =>
  }

  lemma ReservedKnows(run: seq<State>, i: nat, a: Agent, c: nat, seen: real)
    requires a.pc.Reserve? && Knows(run, i, a, c) && SawSold(run, i, a.k, c, seen)
    ensures Knows(run, i, a.(pc := Check(a.pc.d, seen)), c)
  {
  }

  lemma LeavesKnowing(n: nat, run: seq<State>, i: nat, a: Agent, c: nat, sold: real, bought: real, boughtFirst: bool)
    requires a.k < |a.edges| && Knows(run, i, a, c) && AgentShape(n, a) && a.edges[a.k].purchase
    requires SawSold(run, i, a.k, c, sold) && SawBought(run, i, a.k, c, bought)
    ensures var a' := AgentStep(a, sold, bought, boughtFirst); a'.k != a.k ==> VisitOutcome(run, i, a.k, c, a.needed, a'.needed)
  {
    hide SawSold, SawBought, Oversold;
    match a.pc
    case ReadSold(b) =>
      assert Offers(run, i, a.k, c, b - sold);
    case ReadBought(s) =>
      assert Offers(run, i, a.k, c, bought - s);
    case Commit(d) =>
      WantsGain(run, i, a.k, c, a.needed, d);
    case Rollback(d) =>
      WantsGain(run, i, a.k, c, a.needed, d);
    case _ =>
  }

  lemma WantsGain(run: seq<State>, i: nat, j: nat, c: nat, need: real, d: real)
    requires Wants(run, i, j, c, need, d)
    ensures exists x :: Offers(run, i, j, c, x) && x > 0.0 && need > 0.0 && d == Gain(need, x)
  {
  }

  // ---------- All visits of a run ----------

  /** The buyers of the run are those it starts with. */
  lemma {:induction false} SameThroughout(n: nat, local: set<nat>, run: seq<State>)
    requires Run(n, local, run)
    ensures Shape(n, run[|run| - 1]) && SameBuyers(run[0].agents, run[|run| - 1].agents)
    decreases |run|
  {
    if |run| > 1 {
      var i, boughtFirst := LastStep(n, local, run);
      SameThroughout(n, local, run[..|run| - 1]);
      hide Step, Run;
      StepShape(n, local, run[|run| - 2], i, boughtFirst);
      StepSameBuyers(n, local, run[|run| - 2], i, boughtFirst);
      SameTransitive(run[0].agents, run[|run| - 2].agents, run[|run| - 1].agents);
    }
  }

  ghost predicate KnowsNow(run: seq<State>, i: nat)
    requires run != [] && i < |run[|run| - 1].agents|
  {
    var a := run[|run| - 1].agents[i];
    a.k < |a.edges| && a.edges[a.k].purchase ==> Knows(run, i, a, a.edges[a.k].seller)
  }

  lemma {:induction false} AlwaysKnows(n: nat, local: set<nat>, run: seq<State>, i: nat)
    requires Run(n, local, run) && i < |run[0].agents|
    ensures i < |run[|run| - 1].agents| && KnowsNow(run, i)
    decreases |run|
  {
    hide SawSold, SawBought, VisitOutcome;
    SameThroughout(n, local, run);
    if |run| > 1 {
      var i', boughtFirst := LastStep(n, local, run);
      var front := run[..|run| - 1];
      AlwaysKnows(n, local, front, i);
      NextKnows(n, local, front, run[|run| - 1], i, i', boughtFirst);
      assert front + [run[|run| - 1]] == run;
    }
  }

  lemma NextKnows(n: nat, local: set<nat>, run: seq<State>, st': State, i: nat, i': nat, boughtFirst: bool)
    requires run != [] && Shape(n, run[|run| - 1]) && i < |run[|run| - 1].agents| && KnowsNow(run, i)
    requires i' < |run[|run| - 1].agents| && !Finished(run[|run| - 1].agents[i']) && st' == Step(local, run[|run| - 1], i', boughtFirst)
    ensures i < |st'.agents| && KnowsNow(run + [st'], i)
  {
    hide Knows, VisitOutcome;
    var st := run[|run| - 1];
    var a := st.agents[i];
    assert AgentShape(n, a);
    var run' := run + [st'];
    var a' := st'.agents[i];
    if i' != i {
      assert a' == a && run'[..|run|] == run;
      if a.k < |a.edges| && a.edges[a.k].purchase {
        KnownLonger(run', |run|, i, a, a.edges[a.k].seller);
      }
    } else if a'.k == a.k {
      OwnStep(n, local, run, st', i, boughtFirst);
    } else if a'.k < |a'.edges| {
      assert a'.pc == Look;
      LookKnows(run', i, a', a'.edges[a'.k].seller);
    }
  }

  lemma LookKnows(run: seq<State>, i: nat, a: Agent, c: nat)
    requires a.pc == Look
    ensures Knows(run, i, a, c)
  {
  }

  /** Buyer i is at its edge j at moment m and no longer one step later. */
  ghost predicate Leaves(run: seq<State>, i: nat, j: nat, m: nat) {
    m + 1 < |run| && Visits(run, i, j, m) && !Visits(run, i, j, m + 1)
  }

  ghost function NeedAt(run: seq<State>, i: nat, m: nat): real {
    if m < |run| && i < |run[m].agents| then run[m].agents[i].needed else 0.0
  }

  /** The need left one step later. */
  ghost function NeedAfter(run: seq<State>, i: nat, m: nat): real {
    NeedAt(run, i, m + 1)
  }

  /** On every visit, whatever the other buyers do, a buyer gets what the surplus it saw allows or fails the check. */
  lemma LeavesWith(n: nat, local: set<nat>, run: seq<State>, i: nat, j: nat, m: nat)
    requires Run(n, local, run) && i < |run[0].agents| && j < |run[0].agents[i].edges| && run[0].agents[i].edges[j].purchase
    requires Leaves(run, i, j, m)
    ensures VisitOutcome(run, i, j, run[0].agents[i].edges[j].seller, NeedAt(run, i, m), NeedAfter(run, i, m))
  {
    hide SawSold, SawBought, Knows, Step;
    var front := run[..m + 1];
    var c := run[0].agents[i].edges[j].seller;
    PrefixRun(n, local, run, m + 1);
    PrefixRun(n, local, run, m + 2);
    SameThroughout(n, local, front);
    AlwaysKnows(n, local, front, i);
    assert run[..m + 2][..m + 1] == front;
    var i', boughtFirst := LastStep(n, local, run[..m + 2]);
    OtherStays(n, local, run[m], i, i', boughtFirst);
    var a := run[m].agents[i];
    assert a.k == j && run[m] == front[m];
    assert AgentShape(n, a);
    OwnStep(n, local, front, run[m + 1], i, boughtFirst);
    OutcomeLonger(run, m + 1, i, j, c, NeedAt(run, i, m), NeedAfter(run, i, m));
  }

  lemma OtherStays(n: nat, local: set<nat>, st: State, i: nat, i': nat, boughtFirst: bool)
    requires Shape(n, st) && i < |st.agents| && i' < |st.agents| && !Finished(st.agents[i'])
    ensures var st' := Step(local, st, i', boughtFirst);
      |st'.agents| == |st.agents| && (i != i' ==> st'.agents[i] == st.agents[i])
  {
  }

  lemma OutcomeLonger(run: seq<State>, m: nat, i: nat, j: nat, c: nat, need: real, need': real)
    requires m <= |run| && VisitOutcome(run[..m], i, j, c, need, need')
    ensures VisitOutcome(run, i, j, c, need, need')
  {
    OffersLonger(run, m, i, j, c);
    hide Offers, Oversold;
  }

  /** Every edge behind a buyer that is still in need has been visited and left. */
  lemma {:induction false} Passed(n: nat, local: set<nat>, run: seq<State>, i: nat, j: nat)
    requires Run(n, local, run) && i < |run[0].agents|
    ensures i < |run[|run| - 1].agents|
    ensures var a := run[|run| - 1].agents[i]; j < a.k ==> a.needed <= 0.0 || exists m: nat :: Leaves(run, i, j, m)
    decreases |run|
  {
    SameThroughout(n, local, run);
    if |run| > 1 {
      var i', boughtFirst := LastStep(n, local, run);
      var last := |run| - 1;
      var front := run[..last];
      SameThroughout(n, local, front);
      Passed(n, local, front, i, j);
      var a, a' := run[last - 1].agents[i], run[last].agents[i];
      assert AgentShape(n, a);
      if j < a.k && a.needed > 0.0 {
        var m: nat :| Leaves(front, i, j, m);
        assert Leaves(run, i, j, m);
      } else if a.k <= j < a'.k && a'.needed > 0.0 {
        assert Leaves(run, i, j, last - 1);
      }
    }
  }

  lemma {:induction false} NeedFalls(n: nat, local: set<nat>, run: seq<State>, i: nat, m: nat)
    requires Run(n, local, run) && i < |run[0].agents| && m < |run|
    ensures NeedAt(run, i, |run| - 1) <= NeedAt(run, i, m)
    decreases |run|
  {
    SameThroughout(n, local, run);
    if m < |run| - 1 {
      var i', boughtFirst := LastStep(n, local, run);
      var front := run[..|run| - 1];
      SameThroughout(n, local, front);
      NeedFalls(n, local, front, i, m);
      hide Step;
      StepSameBuyers(n, local, run[|run| - 2], i', boughtFirst);
    }
  }

  /** Buyer i took all of the surplus x that it saw. */
  ghost predicate TookAll(run: seq<State>, i: nat, j: nat, x: real) {
    exists m: nat :: Leaves(run, i, j, m) && NeedAfter(run, i, m) == NeedAt(run, i, m) - x
  }

  /**
    Under any schedule: a buyer left in need had, at each of its sellers, seen no
    surplus, or taken all it saw, or failed the check because others had taken it.
   */
  lemma LeftInNeed(n: nat, local: set<nat>, run: seq<State>, i: nat, j: nat)
    requires Run(n, local, run) && AllFinished(run[|run| - 1])
    requires i < |run[0].agents| && j < |run[0].agents[i].edges| && run[0].agents[i].edges[j].purchase
    ensures NeedAt(run, i, |run| - 1) > 0.0 ==>
      exists x :: Offers(run, i, j, run[0].agents[i].edges[j].seller, x)
        && (x <= 0.0 || TookAll(run, i, j, x) || Oversold(run, i, j, run[0].agents[i].edges[j].seller))
  {
    hide Offers, Oversold, Leaves;
    var c := run[0].agents[i].edges[j].seller;
    SameThroughout(n, local, run);
    Passed(n, local, run, i, j);
    if NeedAt(run, i, |run| - 1) > 0.0 {
      var m: nat :| Leaves(run, i, j, m);
      LeavesWith(n, local, run, i, j, m);
      LeavesInside(run, i, j, m);
      NeedFalls(n, local, run, i, m + 1);
      NeedFalls(n, local, run, i, m);
      var x :| Offers(run, i, j, c, x)
        && (NeedAfter(run, i, m) == NeedAt(run, i, m) - Gain(NeedAt(run, i, m), x)
            || (NeedAfter(run, i, m) == NeedAt(run, i, m) && x > 0.0 && Oversold(run, i, j, c)));
      assert x > 0.0 && !Oversold(run, i, j, c) ==> TookAll(run, i, j, x);
    }
  }

  lemma LeavesInside(run: seq<State>, i: nat, j: nat, m: nat)
    requires Leaves(run, i, j, m)
    ensures m + 1 < |run|
  {
  }

  // ---------- Needs and purchases ----------

  /** No seller on another host is listed twice. */
  ghost predicate DistinctRemote(local: set<nat>, edges: seq<Edge>) {
    forall j, k :: 0 <= j < k < |edges| && edges[j].purchase && edges[k].purchase && edges[j].seller == edges[k].seller ==>
      edges[j].seller in local
  }

  /** What buyer i has, is promised and still needs. */
  ghost function Balance(n: nat, st: State, i: nat): real
    requires i < |st.agents| && st.agents[i].buyer < |st.bought|
  {
    st.bought[st.agents[i].buyer] + RowSum(n, st.deals, st.agents[i].buyer) + st.agents[i].needed
  }

  lemma StepBalances(n: nat, local: set<nat>, st: State, needs: seq<real>, i: nat, i': nat, boughtFirst: bool)
    requires Shape(n, st) && i < |st.agents| && i' < |st.agents| && !Finished(st.agents[i'])
    requires DistinctBuyers(st.agents) && DealsOk(st, needs, local) && DistinctRemote(local, st.agents[i].edges)
    ensures var st' := Step(local, st, i', boughtFirst);
      && i < |st'.agents| && st.agents[i].buyer < n && st'.agents[i].buyer == st.agents[i].buyer && |st'.bought| == n
      && Balance(n, st', i) == Balance(n, st, i)
  {
    hide RowSum;
    var st' := Step(local, st, i', boughtFirst);
    var a := st.agents[i'];
    assert AgentShape(n, a) && AgentShape(n, st.agents[i]);
    StepShape(n, local, st, i', boughtFirst);
    if i != i' || !a.pc.Commit? {
      StepBuys(n, local, st, i', boughtFirst, st.agents[i].buyer);
    } else if a.edges[a.k].seller !in local {
      var c := a.edges[a.k].seller;
      if (a.buyer, c) in st.deals {
        NotedBehind(local, st, needs, i, c);
        assert false;
      }
      NewDeal(n, st.deals, a.buyer, a.edges[a.k].seller, a.pc.d);
    }
  }

  /** A note is for an edge behind its buyer. */
  lemma NotedBehind(local: set<nat>, st: State, needs: seq<real>, i: nat, c: nat)
    requires DistinctBuyers(st.agents) && DealsOk(st, needs, local) && i < |st.agents| && (st.agents[i].buyer, c) in st.deals
    ensures c !in local && exists j: nat :: j < |st.agents[i].edges| && j < st.agents[i].k && st.agents[i].edges[j] == Edge(true, c)
  {
    var b := st.agents[i].buyer;
    assert DealOk(st, needs, local, b, c, st.deals[(b, c)]);
    var i1: nat, j1: nat :| Behind(st.agents, i1, j1, b, c);
    assert i1 == i;
  }

  /** Whatever a buyer no longer needs it has bought or been promised. */
  lemma {:induction false} RunBalances(n: nat, local: set<nat>, run: seq<State>, i: nat)
    requires Run(n, local, run) && DistinctBuyers(run[0].agents)
    requires i < |run[0].agents| && DistinctRemote(local, run[0].agents[i].edges)
    ensures Shape(n, run[0]) && Shape(n, run[|run| - 1]) && i < |run[|run| - 1].agents|
    ensures run[|run| - 1].agents[i].buyer == run[0].agents[i].buyer < n
    ensures Balance(n, run[|run| - 1], i) == Balance(n, run[0], i)
    decreases |run|
  {
    hide Balance, Step, RowSum;
    SameThroughout(n, local, run);
    assert AgentShape(n, run[0].agents[i]);
    if |run| > 1 {
      var i', boughtFirst := LastStep(n, local, run);
      var front := run[..|run| - 1];
      RunBalances(n, local, front, i);
      RunAccounts(n, local, front);
      AccountsDeals(n, local, run[0], run[|run| - 2]);
      StepBalances(n, local, run[|run| - 2], Needs(run[0].agents), i, i', boughtFirst);
    }
  }

  lemma AccountsDeals(n: nat, local: set<nat>, st0: State, st: State)
    requires Accounts(n, local, st0, st)
    ensures DealsOk(st, Needs(st0.agents), local) && SameBuyers(st0.agents, st.agents)
    ensures DistinctBuyers(st0.agents) ==> DistinctBuyers(st.agents)
    ensures forall i :: 0 <= i < |st.agents| && DistinctRemote(local, st0.agents[i].edges) ==> DistinctRemote(local, st.agents[i].edges)
  {
  }

  // ---------- A seller that always has something left ----------

  /** No addition to what c has sold fails against the bound b. */
  ghost predicate Calm(st: State, c: nat, b: real) {
    && c < |st.bought| && b <= st.bought[c]
    && forall x: nat :: x < |st.agents| && st.agents[x].k < |st.agents[x].edges| && st.agents[x].edges[st.agents[x].k].seller == c ==>
        !st.agents[x].pc.Rollback? && (st.agents[x].pc.Check? ==> st.agents[x].pc.seen < b)
  }

  /** On edge j the buyer asks for all it needs, and past it needs nothing. */
  ghost predicate Eager(a: Agent, j: nat, sold: real, b: real) {
    && (a.k > j ==> a.needed <= 0.0 && a.pc == Look)
    && (a.k == j ==>
        match a.pc
        case ReadSold(x) => b <= x
        case ReadBought(s) => s <= sold
        case Reserve(d) => d == a.needed || sold + d >= b
        case Check(d, _) => d == a.needed
        case Commit(d) => d == a.needed
        case _ => true)
  }

  lemma StepCalm(n: nat, local: set<nat>, st: State, x: nat, boughtFirst: bool, c: nat, b: real)
    requires Shape(n, st) && x < |st.agents| && !Finished(st.agents[x]) && c < n && Calm(st, c, b)
    requires Shape(n, Step(local, st, x, boughtFirst)) && Step(local, st, x, boughtFirst).sold[c] < b
    ensures Calm(Step(local, st, x, boughtFirst), c, b) && st.sold[c] <= Step(local, st, x, boughtFirst).sold[c]
  {
    var a := st.agents[x];
    assert AgentShape(n, a);
    StepShape(n, local, st, x, boughtFirst);
    var st' := Step(local, st, x, boughtFirst);
    forall y: nat | y < |st'.agents| && st'.agents[y].k < |st'.agents[y].edges| && st'.agents[y].edges[st'.agents[y].k].seller == c
      ensures !st'.agents[y].pc.Rollback? && (st'.agents[y].pc.Check? ==> st'.agents[y].pc.seen < b)
    {
      if y != x {
        assert st'.agents[y] == st.agents[y];
      }
    }
  }

  lemma StepEager(n: nat, local: set<nat>, st: State, x: nat, boughtFirst: bool, i: nat, j: nat, c: nat, b: real)
    requires Shape(n, st) && x < |st.agents| && !Finished(st.agents[x]) && c < n && Calm(st, c, b)
    requires Shape(n, Step(local, st, x, boughtFirst))
    requires st.sold[c] <= Step(local, st, x, boughtFirst).sold[c] < b
    requires i < |st.agents| && j < |st.agents[i].edges| && st.agents[i].edges[j] == Edge(true, c)
    requires Eager(st.agents[i], j, st.sold[c], b)
    ensures var st' := Step(local, st, x, boughtFirst); i < |st'.agents| && Eager(st'.agents[i], j, st'.sold[c], b)
  {
    assert AgentShape(n, st.agents[i]);
    var st' := Step(local, st, x, boughtFirst);
    if x != i {
      assert st'.agents[i] == st.agents[i];
    }
  }

  lemma {:induction false} StaysEager(n: nat, local: set<nat>, run: seq<State>, i: nat, j: nat, c: nat)
    requires Run(n, local, run) && i < |run[0].agents| && j < |run[0].agents[i].edges| && run[0].agents[i].edges[j] == Edge(true, c)
    requires c < n && |run[0].bought| == n && forall m: nat :: m < |run| ==> SoldAt(run, m, c) < run[0].bought[c]
    ensures Shape(n, run[|run| - 1]) && Calm(run[|run| - 1], c, run[0].bought[c])
    ensures i < |run[|run| - 1].agents| && Eager(run[|run| - 1].agents[i], j, run[|run| - 1].sold[c], run[0].bought[c])
    decreases |run|
  {
    SameThroughout(n, local, run);
    if |run| > 1 {
      var x, boughtFirst := LastStep(n, local, run);
      var front, st := run[..|run| - 1], run[|run| - 2];
      forall m: nat | m < |front|
        ensures SoldAt(front, m, c) < run[0].bought[c]
      {
        assert SoldAt(front, m, c) == SoldAt(run, m, c);
      }
      SameThroughout(n, local, front);
      StaysEager(n, local, front, i, j, c);
      assert SoldAt(run, |run| - 1, c) == run[|run| - 1].sold[c];
      hide Step, Calm, Eager;
      StepCalm(n, local, st, x, boughtFirst, c, run[0].bought[c]);
      StepEager(n, local, st, x, boughtFirst, i, j, c, run[0].bought[c]);
    }
  }

  /**
    Under any schedule every buyer ends with all it needed, bought or promised,
    unless each of its sellers had at some moment sold what it had at the start.
   */
  lemma ServedOrSoldOut(n: nat, local: set<nat>, run: seq<State>, i: nat, j: nat)
    requires Run(n, local, run) && AllFinished(run[|run| - 1]) && DistinctBuyers(run[0].agents)
    requires i < |run[0].agents| && j < |run[0].agents[i].edges| && run[0].agents[i].edges[j].purchase
    requires DistinctRemote(local, run[0].agents[i].edges) && run[0].agents[i].needed > 0.0
    ensures Shape(n, run[0]) && Shape(n, run[|run| - 1]) && run[0].agents[i].buyer < n
    ensures var start, end, a := run[0], run[|run| - 1], run[0].agents[i];
      || end.bought[a.buyer] + RowSum(n, end.deals, a.buyer) == start.bought[a.buyer] + a.needed
      || (exists m: nat :: m < |run| && SoldAt(run, m, a.edges[j].seller) >= BoughtAt(run, 0, a.edges[j].seller))
  {
    hide RowSum, Step, Calm;
    var start, end, a := run[0], run[|run| - 1], run[0].agents[i];
    var c := a.edges[j].seller;
    SameThroughout(n, local, run);
    assert AgentShape(n, a);
    RunBalances(n, local, run, i);
    NoDeals(n);
    RunWithin(n, local, run, i);
    if forall m: nat :: m < |run| ==> SoldAt(run, m, c) < BoughtAt(run, 0, c) {
      StaysEager(n, local, run, i, j, c);
    }
  }

  lemma RunWithin(n: nat, local: set<nat>, run: seq<State>, i: nat)
    requires Run(n, local, run) && DistinctBuyers(run[0].agents) && i < |run[0].agents| && run[0].agents[i].needed > 0.0
    ensures i < |run[|run| - 1].agents| && 0.0 <= run[|run| - 1].agents[i].needed
  {
    RunAccounts(n, local, run);
    var end := run[|run| - 1];
    assert Within(n, end, end.agents[i], run[0].bought, Needs(run[0].agents)[i]);
  }
}
