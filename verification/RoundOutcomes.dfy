/**
  What a round of trading achieves over all hosts, wf4/src/quiesce.cpp: the only
  buyer in need is served, and a buyer left in need has met a seller with nothing left.
 */
module RoundOutcomes {
  import opened Basics
  import opened Sums
  import opened Reservation
  import opened Trading
  import opened TradeRound
  import opened Outcomes
  import opened LoneBuyer

  // ---------- The only buyer in need ----------

  /** Only v is in need, and its only purchase edge goes to c. */
  ghost predicate OnlyBuyer(net: Network, r: Round, v: nat, j: nat, c: nat)
    requires IsRound(net, r)
  {
    && v < |net.owner| && OneSeller(net.edges[v], j, c) && c < |net.owner|
    && forall u: nat :: u < |net.owner| && u != v ==> net.desired[u] <= StartBought(net, r, u)
  }

  /** The surplus of c that the host of v knows of. */
  ghost function KnownSurplus(net: Network, r: Round, v: nat, c: nat): real
    requires IsRound(net, r) && v < |net.owner| && c < |net.owner|
  {
    RoundShape(net, r, net.owner[v]);
    r.propose[net.owner[v]][0].bought[c] - r.propose[net.owner[v]][0].sold[c]
  }

  ghost function Asked(net: Network, r: Round, v: nat, c: nat): real
    requires IsRound(net, r) && v < |net.owner| && c < |net.owner|
  {
    Gain(net.desired[v] - StartBought(net, r, v), KnownSurplus(net, r, v, c))
  }

  /** What v gets: a seller elsewhere has the last word. */
  ghost function Given(net: Network, r: Round, v: nat, c: nat): real
    requires IsRound(net, r) && v < |net.owner| && c < |net.owner|
  {
    if net.owner[c] == net.owner[v] then Asked(net, r, v, c)
    else Gain(Asked(net, r, v, c), StartBought(net, r, c) - StartSold(net, r, c))
  }

  ghost predicate AllIdle(st: State) {
    forall x :: 0 <= x < |st.agents| ==> st.agents[x].needed <= 0.0 && st.agents[x].pc == Look
  }

  lemma {:induction false} NobodyTrades(n: nat, local: set<nat>, run: seq<State>)
    requires Run(n, local, run) && AllIdle(run[0])
    ensures var start, end := run[0], run[|run| - 1];
      AllIdle(end) && end.sold == start.sold && end.bought == start.bought && end.deals == map[]
    decreases |run|
  {
    if |run| > 1 {
      var x, boughtFirst := LastStep(n, local, run);
      NobodyTrades(n, local, run[..|run| - 1]);
      var st := run[|run| - 2];
      var a := st.agents[x];
      assert AgentShape(n, a);
      assert st.sold[a.edges[a.k].seller := st.sold[a.edges[a.k].seller]] == st.sold;
    }
  }

  lemma ProposeAtBuyer(net: Network, r: Round, v: nat, j: nat, c: nat)
    requires IsRound(net, r) && OnlyBuyer(net, r, v, j, c)
    ensures var h := net.owner[v];
      var start, end, d := r.propose[h][0], End(r.propose[h]), Asked(net, r, v, c);
      && |start.sold| == |start.bought| == |net.owner|
      && end.sold == start.sold[c := start.sold[c] + d]
      && end.bought == (if c in Owned(net, h) then start.bought[v := start.bought[v] + d] else start.bought)
      && end.deals == (if d > 0.0 && c !in Owned(net, h) then map[(v, c) := d] else map[])
  {
    hide OthersIdle, OneSeller, OwnBuyers, Run;
    var h := net.owner[v];
    assert ProposeOn(net, h, r.propose[h]);
    RoundShape(net, r, h);
    var i := BuyerIndex(net, r, v, j, c);
    LoneBuyerTrades(|net.owner|, Owned(net, h), r.propose[h], i, j, c);
  }

  /** The buyer for v on its host; the others there have no need. */
  lemma BuyerIndex(net: Network, r: Round, v: nat, j: nat, c: nat) returns (i: nat)
    requires IsRound(net, r) && OnlyBuyer(net, r, v, j, c)
    ensures var start := r.propose[net.owner[v]][0];
      && i < |start.agents| && |start.bought| == |net.owner|
      && start.agents[i].buyer == v && start.agents[i].edges == net.edges[v]
      && start.agents[i].needed == net.desired[v] - start.bought[v] && OthersIdle(start.agents, i)
  {
    var h := net.owner[v];
    var start := r.propose[h][0];
    assert ProposeOn(net, h, r.propose[h]);
    RoundShape(net, r, h);
    assert v in Owned(net, h);
    i :| 0 <= i < |start.agents| && start.agents[i].buyer == v;
    forall x | 0 <= x < |start.agents| && x != i
      ensures start.agents[x].needed <= 0.0 && start.agents[x].pc == Look
    {
      assert start.agents[x].buyer != v;
    }
  }

  lemma ProposeElsewhere(net: Network, r: Round, v: nat, j: nat, c: nat, g: nat)
    requires IsRound(net, r) && OnlyBuyer(net, r, v, j, c) && g < net.hosts && g != net.owner[v]
    ensures var start, end := r.propose[g][0], End(r.propose[g]);
      end.sold == start.sold && end.bought == start.bought && end.deals == map[]
  {
    var run := r.propose[g];
    assert ProposeOn(net, g, run);
    NobodyTrades(|net.owner|, Owned(net, g), run);
  }

  /** A list with one entry, or with none. */
  lemma OneEntry(list: seq<ProposedEdge>, b: nat, c: nat, d: real, there: bool)
    requires DistinctKeys(list)
    requires forall b': nat, c': nat, w: real :: ProposedEdge(b', c', w) in list <==> there && b' == b && c' == c && w == d
    ensures list == if there then [ProposedEdge(b, c, d)] else []
  {
    forall i | 0 <= i < |list|
      ensures there && i == 0 && list[i] == ProposedEdge(b, c, d)
    {
      assert ProposedEdge(list[i].src, list[i].dst, list[i].weight) in list;
      assert ProposedEdge(list[0].src, list[0].dst, list[0].weight) in list;
    }
    assert list != [] ==> list[|list| - 1] == ProposedEdge(b, c, d);
    assert there ==> ProposedEdge(b, c, d) in list;
  }

  lemma ProposalsOnlyToSeller(net: Network, r: Round, v: nat, j: nat, c: nat, g: nat)
    requires IsRound(net, r) && OnlyBuyer(net, r, v, j, c) && g < net.hosts
    ensures var d := Asked(net, r, v, c);
      r.proposals[g] == if net.owner[c] == g != net.owner[v] && d > 0.0 then [ProposedEdge(v, c, d)] else []
  {
    var d, h, ends := Asked(net, r, v, c), net.owner[v], Ends(r.propose);
    var there := net.owner[c] == g != h && d > 0.0;
    assert ReceivesProposals(net, g, ends, r.proposals[g]);
    ProposeAtBuyer(net, r, v, j, c);
    forall b: nat, x: nat, w: real
      ensures ProposedEdge(b, x, w) in r.proposals[g] <==> there && b == v && x == c && w == d
    {
      if b < |net.owner| && net.owner[b] != h {
        ProposeElsewhere(net, r, v, j, c, net.owner[b]);
      }
    }
    OneEntry(r.proposals[g], v, c, d, there);
  }

  lemma DecideAtSeller(net: Network, r: Round, v: nat, j: nat, c: nat, g: nat)
    requires IsRound(net, r) && OnlyBuyer(net, r, v, j, c) && g < net.hosts
    ensures var before, end := End(r.propose[g]), End(r.decide[g]);
      var d, there := Given(net, r, v, c), net.owner[c] == g != net.owner[v];
      && |before.sold| == |net.owner|
      && end.sold == (if there then before.sold[c := before.sold[c] + d] else before.sold)
      && end.bought == before.bought
      && end.deals == (if there && d > 0.0 then map[(v, c) := d] else map[])
  {
    var n, run := |net.owner|, r.decide[g];
    RoundShape(net, r, g);
    assert DecideOn(net, r.propose[g], r.proposals[g], run);
    ProposalsOnlyToSeller(net, r, v, j, c, g);
    if net.owner[c] == g != net.owner[v] {
      ProposeElsewhere(net, r, v, j, c, g);
      if Asked(net, r, v, c) > 0.0 {
        assert run[0].agents == [Agent(v, [Edge(true, c)], 0, Asked(net, r, v, c), Look)];
        LoneBuyerTrades(n, {}, run, 0, 0, c);
      } else {
        NobodyTrades(n, {}, run);
      }
    } else {
      NobodyTrades(n, {}, run);
    }
  }

  lemma DecisionsOnlyToBuyer(net: Network, r: Round, v: nat, j: nat, c: nat, h: nat)
    requires IsRound(net, r) && OnlyBuyer(net, r, v, j, c) && h < net.hosts
    ensures var d := Given(net, r, v, c);
      r.decisions[h] == if net.owner[v] == h != net.owner[c] && d > 0.0 then [ProposedEdge(v, c, d)] else []
  {
    var d, g, ends := Given(net, r, v, c), net.owner[c], Ends(r.decide);
    var there := net.owner[v] == h != g && d > 0.0;
    assert ReceivesDecisions(net, h, ends, r.decisions[h]);
    forall b: nat, x: nat, w: real
      ensures ProposedEdge(b, x, w) in r.decisions[h] <==> there && b == v && x == c && w == d
    {
      if x < |net.owner| {
        DecideAtSeller(net, r, v, j, c, net.owner[x]);
      }
    }
    OneEntry(r.decisions[h], v, c, d, there);
  }

  /**
    When only v is in need and it has one purchase edge, its seller c ends the round
    having sold, and v having bought, what c can spare of what v needs; all other
    masters keep what they had.
   */
  lemma OnlyBuyerServed(net: Network, r: Round, v: nat, j: nat, c: nat, u: nat)
    requires IsRound(net, r) && OnlyBuyer(net, r, v, j, c) && u < |net.owner|
    ensures FinalSold(net, r, u) == StartSold(net, r, u) + if u == c then Given(net, r, v, c) else 0.0
    ensures FinalBought(net, r, u) == StartBought(net, r, u) + if u == v then Given(net, r, v, c) else 0.0
  {
    var h := net.owner[u];
    RoundShape(net, r, h);
    if h == net.owner[v] {
      ProposeAtBuyer(net, r, v, j, c);
    } else {
      ProposeElsewhere(net, r, v, j, c, h);
    }
    DecideAtSeller(net, r, v, j, c, h);
    DecisionsOnlyToBuyer(net, r, v, j, c, h);
    CreditsOfOne(v, c, Given(net, r, v, c), u);
  }

  lemma CreditsOfOne(v: nat, c: nat, d: real, u: nat)
    ensures Credits([ProposedEdge(v, c, d)], u) == if u == v then d else 0.0
    ensures Credits([], u) == 0.0
  {
    var list := [ProposedEdge(v, c, d)];
    assert list[..|list| - 1] == [];
  }

  // ---------- Buyers left in need ----------

  /** What proposal i has been promised and still asks for is w. */
  ghost predicate PairInv(st: State, i: nat, b: nat, c: nat, w: real) {
    && i < |st.agents| && st.agents[i].buyer == b && st.agents[i].edges == [Edge(true, c)] && st.agents[i].needed >= 0.0
    && Deal(st.deals, b, c) + st.agents[i].needed == w
  }

  lemma StepPair(n: nat, st: State, needs: seq<real>, i: nat, x: nat, boughtFirst: bool, b: nat, c: nat, w: real)
    requires Shape(n, st) && DealsOk(st, needs, {}) && DistinctPairs(st.agents) && PairInv(st, i, b, c, w)
    requires x < |st.agents| && !Finished(st.agents[x])
    ensures PairInv(Step({}, st, x, boughtFirst), i, b, c, w)
  {
    var a := st.agents[x];
    assert AgentShape(n, a);
    if a.pc.Commit? {
      NotYetNoted(n, st, needs, {}, x);
      if a.buyer == b && a.edges[a.k].seller == c {
        assert SamePair(st.agents, i, 0, x, a.k);
      }
    }
  }

  /** What a proposal no longer asks for has been decided. */
  lemma {:induction false} RunPair(n: nat, run: seq<State>, i: nat, b: nat, c: nat, w: real)
    requires Run(n, {}, run) && DistinctPairs(run[0].agents) && w >= 0.0
    requires i < |run[0].agents| && run[0].agents[i] == Agent(b, [Edge(true, c)], 0, w, Look)
    ensures PairInv(run[|run| - 1], i, b, c, w)
    decreases |run|
  {
    hide Step, DealsOk, DistinctPairs, SameBuyers, Accounts, Shape;
    if |run| > 1 {
      var x, boughtFirst := LastStep(n, {}, run);
      var front, st := run[..|run| - 1], run[|run| - 2];
      RunPair(n, front, i, b, c, w);
      RunAccounts(n, {}, front);
      AccountsDeals(n, {}, run[0], st);
      StepDistinct(run[0].agents, st.agents);
      StepPair(n, st, Needs(run[0].agents), i, x, boughtFirst, b, c, w);
    }
  }

  ghost predicate SoldOut(run: seq<State>, c: nat) {
    exists m: nat :: m < |run| && SoldAt(run, m, c) >= BoughtAt(run, 0, c)
  }

  /** A proposal is decided in full unless its seller had at some moment nothing left of what it started with. */
  lemma DecidedOrSoldOut(n: nat, run: seq<State>, i: nat, b: nat, c: nat, w: real)
    requires Run(n, {}, run) && AllFinished(run[|run| - 1]) && DistinctPairs(run[0].agents) && w >= 0.0
    requires i < |run[0].agents| && run[0].agents[i] == Agent(b, [Edge(true, c)], 0, w, Look)
    ensures Deal(run[|run| - 1].deals, b, c) == w || SoldOut(run, c)
  {
    RunPair(n, run, i, b, c, w);
    SameThroughout(n, {}, run);
    assert AgentShape(n, run[0].agents[i]) && run[0].agents[i].edges[0].seller == c;
    if forall m: nat :: m < |run| ==> SoldAt(run, m, c) < BoughtAt(run, 0, c) {
      StaysEager(n, {}, run, i, 0, c);
    }
  }

  /** The host of v proposed a trade to c, whose owner had at some moment nothing left. */
  ghost predicate TurnedDown(net: Network, r: Round, v: nat, c: nat)
    requires IsRound(net, r) && v < |net.owner|
  {
    c < |net.owner| && Deal(End(r.propose[net.owner[v]]).deals, v, c) > 0.0 && SoldOut(r.decide[net.owner[c]], c)
  }

  /** The task that decides the proposal of v's host to c. */
  lemma ProposalTask(net: Network, r: Round, v: nat, c: nat) returns (i: nat)
    requires IsRound(net, r) && v < |net.owner| && c < |net.owner| && Deal(End(r.propose[net.owner[v]]).deals, v, c) > 0.0
    ensures var run := r.decide[net.owner[c]];
      && Run(|net.owner|, {}, run) && AllFinished(End(run)) && DistinctPairs(run[0].agents) && i < |run[0].agents|
      && run[0].agents[i] == Agent(v, [Edge(true, c)], 0, Deal(End(r.propose[net.owner[v]]).deals, v, c), Look)
  {
    hide AllFinished, StepAt, Fresh, OwnBuyers;
    var g, w := net.owner[c], Deal(End(r.propose[net.owner[v]]).deals, v, c);
    var run, list := r.decide[g], r.proposals[g];
    assert DecideOn(net, r.propose[g], list, run);
    assert ReceivesProposals(net, g, Ends(r.propose), list);
    assert IsNoted(Ends(r.propose), net.owner[v], v, c, w);
    assert ProposedEdge(v, c, w) in list;
    i :| 0 <= i < |list| && list[i] == ProposedEdge(v, c, w);
    ProposalsDistinct(list, run[0].agents);
  }

  lemma FullyDecided(net: Network, r: Round, v: nat, c: nat)
    requires IsRound(net, r) && v < |net.owner| && c < |net.owner| && !TurnedDown(net, r, v, c)
    ensures DecidedFor(net, Ends(r.decide), v, c) == Deal(End(r.propose[net.owner[v]]).deals, v, c)
  {
    hide AllFinished, StepAt, Fresh, DistinctPairs, SoldOut, ReceivesProposals, ReceivesDecisions;
    DecidedWithin(net, r, v, c);
    var w := Deal(End(r.propose[net.owner[v]]).deals, v, c);
    if w > 0.0 {
      var i := ProposalTask(net, r, v, c);
      DecidedOrSoldOut(|net.owner|, r.decide[net.owner[c]], i, v, c, w);
    }
  }

  /**
    In a round a buyer in need ends with what it desires, unless the copy of its
    seller on its own host, or the master of a seller it made a proposal to, had at
    some moment nothing left of what it started with.
   */
  lemma ServedInRound(net: Network, r: Round, v: nat, j: nat)
    requires IsRound(net, r) && v < |net.owner| && net.desired[v] > StartBought(net, r, v)
    requires j < |net.edges[v]| && net.edges[v][j].purchase && DistinctRemote(Owned(net, net.owner[v]), net.edges[v])
    ensures FinalBought(net, r, v) == net.desired[v]
      || SoldOut(r.propose[net.owner[v]], net.edges[v][j].seller) || exists c: nat :: TurnedDown(net, r, v, c)
  {
    var n, h := |net.owner|, net.owner[v];
    RoundShape(net, r, h);
    var run := r.propose[h];
    assert ProposeOn(net, h, run) && v in Owned(net, h);
    var i :| 0 <= i < |run[0].agents| && run[0].agents[i].buyer == v;
    ServedOrSoldOut(n, Owned(net, h), run, i, j);
    if !SoldOut(run, net.edges[v][j].seller) && !exists c: nat :: TurnedDown(net, r, v, c) {
      assert DecideOn(net, run, r.proposals[h], r.decide[h]);
      assert ReceivesDecisions(net, h, Ends(r.decide), r.decisions[h]);
      CreditsAreDecided(net, h, Ends(r.decide), r.decisions[h], v);
      forall c: nat | c < n
        ensures Decided(net, Ends(r.decide), v)(c) == Row(End(run).deals, v)(c)
      {
        FullyDecided(net, r, v, c);
      }
      SumEq(n, Decided(net, Ends(r.decide), v), Row(End(run).deals, v));
      BoughtKept(net, r, h);
    }
  }

  /** Deciding does not change what anyone has bought. */
  lemma BoughtKept(net: Network, r: Round, h: nat)
    requires IsRound(net, r) && h < net.hosts
    ensures End(r.decide[h]).bought == End(r.propose[h]).bought
  {
    assert DecideOn(net, r.propose[h], r.proposals[h], r.decide[h]);
    assert ReceivesProposals(net, h, Ends(r.propose), r.proposals[h]);
    ProposalsDistinct(r.proposals[h], r.decide[h][0].agents);
    DecidePhase(|net.owner|, r.decide[h]);
  }
}
