/**
  A round of wf4/src/quiesce.cpp from start to end: every host runs its buyers,
  sends what it has noted, decides what it receives and commits the decisions.
 */
module QuiesceGraph {
  import opened Basics
  import opened Sums
  import opened Reservation
  import opened Trading
  import opened TradeRound
  import opened QuiesceHost
  import opened Outcomes
  import opened LoneBuyer
  import opened RoundOutcomes

  /** Runs a phase on a host whose nodes have sold and bought these amounts. */
  method RunHost(n: nat, local: set<nat>, sold: seq<real>, bought: seq<real>, buyers: seq<Agent>)
    returns (sold': seq<real>, bought': seq<real>, deals: map<(nat, nat), real>, ghost run: seq<State>)
    requires |sold| == |bought| == n
    requires forall i :: 0 <= i < |buyers| ==> AgentShape(n, buyers[i]) && buyers[i].k == 0 && buyers[i].pc == Look
    ensures Run(n, local, run) && AllFinished(End(run))
    ensures run[0] == State(sold, bought, buyers, map[], Logs(n))
    ensures sold' == End(run).sold && bought' == End(run).bought && deals == End(run).deals
  {
    var host := new Host(n);
    for v := 0 to n
      invariant forall u :: 0 <= u < v ==> host.sold[u] == sold[u] && host.bought[u] == bought[u]
      invariant host.remoteEdges == map[]
    {
      host.sold[v] := sold[v];
      host.bought[v] := bought[v];
    }
    assert host.sold[..] == sold && host.bought[..] == bought;
    run := host.RunPhase(local, buyers);
    sold', bought', deals := host.sold[..], host.bought[..], host.remoteEdges;
  }

  /** The nodes a host owns. */
  method Masters(net: Network, h: nat) returns (masters: set<nat>)
    requires NetworkShape(net)
    ensures masters == Owned(net, h)
  {
    masters := {};
    for v := 0 to |net.owner|
      invariant masters == set u: nat | u < v && u < |net.owner| && net.owner[u] == h
    {
      if net.owner[v] == h {
        masters := masters + {v};
      }
    }
  }

  ghost predicate EdgesShape(net: Network) {
    forall v, k :: 0 <= v < |net.edges| && 0 <= k < |net.edges[v]| ==> net.edges[v][k].seller < |net.owner|
  }

  /** The buyer for node v, who needs what it desires beyond what it has bought. */
  function BuyerOf(net: Network, bought: seq<real>, v: nat): Agent
    requires NetworkShape(net) && |bought| == |net.owner| && v < |net.owner|
  {
    Agent(v, net.edges[v], 0, net.desired[v] - bought[v], Look)
  }

  /** One buyer for every node the host owns, in any order. */
  method Buyers(net: Network, h: nat, bought: seq<real>) returns (buyers: seq<Agent>)
    requires NetworkShape(net) && EdgesShape(net) && |bought| == |net.owner|
    ensures forall i :: 0 <= i < |buyers| ==> AgentShape(|net.owner|, buyers[i]) && buyers[i].k == 0 && buyers[i].pc == Look
    ensures forall sold, deals, log :: OwnBuyers(net, h, State(sold, bought, buyers, deals, log))
  {
    hide BuyersFor;
    var masters := Masters(net, h);
    buyers := [];
    var rest := masters;
    NoBuyers(net, masters, bought);
    while rest != {}
      invariant rest <= masters && BuyersFor(net, masters, rest, bought, buyers)
    {
      var v :| v in rest;
      NextBuyer(net, masters, rest, bought, buyers, v);
      buyers := buyers + [BuyerOf(net, bought, v)];
      rest := rest - {v};
    }
    AllBuyers(net, h, bought, buyers);
  }

  /** A buyer for each of the nodes but the rest. */
  ghost predicate BuyersFor(net: Network, masters: set<nat>, rest: set<nat>, bought: seq<real>, buyers: seq<Agent>)
    requires NetworkShape(net) && |bought| == |net.owner|
  {
    && (forall v :: v in masters ==> v < |net.owner|)
    && (forall i :: 0 <= i < |buyers| ==> buyers[i].buyer in masters && buyers[i].buyer !in rest)
    && (forall i :: 0 <= i < |buyers| ==> buyers[i].buyer < |net.owner| && buyers[i] == BuyerOf(net, bought, buyers[i].buyer))
    && (forall v :: v in masters && v !in rest ==> Buys(buyers, v))
    && DistinctBuyers(buyers)
  }

  ghost predicate Buys(buyers: seq<Agent>, v: nat) {
    exists i :: 0 <= i < |buyers| && buyers[i].buyer == v
  }

  lemma NoBuyers(net: Network, masters: set<nat>, bought: seq<real>)
    requires NetworkShape(net) && |bought| == |net.owner| && forall v :: v in masters ==> v < |net.owner|
    ensures BuyersFor(net, masters, masters, bought, [])
  {
  }

  lemma NextBuyer(net: Network, masters: set<nat>, rest: set<nat>, bought: seq<real>, buyers: seq<Agent>, v: nat)
    requires NetworkShape(net) && |bought| == |net.owner| && BuyersFor(net, masters, rest, bought, buyers)
    requires v in rest && rest <= masters
    ensures v < |net.owner| && BuyersFor(net, masters, rest - {v}, bought, buyers + [BuyerOf(net, bought, v)])
  {
    var after := buyers + [BuyerOf(net, bought, v)];
    assert after[|buyers|].buyer == v;
    forall u | u in masters && u !in rest - {v}
      ensures Buys(after, u)
    {
      if u != v {
        assert Buys(buyers, u);
        var i :| 0 <= i < |buyers| && buyers[i].buyer == u;
        assert after[i].buyer == u;
      }
    }
  }

  lemma AllBuyers(net: Network, h: nat, bought: seq<real>, buyers: seq<Agent>)
    requires NetworkShape(net) && EdgesShape(net) && |bought| == |net.owner| && BuyersFor(net, Owned(net, h), {}, bought, buyers)
    ensures forall i :: 0 <= i < |buyers| ==> AgentShape(|net.owner|, buyers[i]) && buyers[i].k == 0 && buyers[i].pc == Look
    ensures forall sold, deals, log :: OwnBuyers(net, h, State(sold, bought, buyers, deals, log))
  {
    forall v: nat | v in Owned(net, h)
      ensures exists i :: 0 <= i < |buyers| && buyers[i].buyer == v
    {
      assert Buys(buyers, v);
    }
  }

  // ---------- Exchanging edges ----------

  /** The edges of the first m hosts' deals whose buyer or seller host h owns. */
  ghost predicate Collected(net: Network, h: nat, deals: seq<map<(nat, nat), real>>, toSeller: bool, m: nat, list: seq<ProposedEdge>)
    requires m <= |deals|
  {
    && DistinctKeys(list)
    && forall b: nat, c: nat, w: real :: ProposedEdge(b, c, w) in list <==> exists g :: 0 <= g < m && g != h && Goes(net, h, deals[g], toSeller, b, c, w)
  }

  predicate Goes(net: Network, h: nat, deals: map<(nat, nat), real>, toSeller: bool, b: nat, c: nat, w: real) {
    && (b, c) in deals && deals[(b, c)] == w && b < |net.owner| && c < |net.owner|
    && (if toSeller then net.owner[c] else net.owner[b]) == h
  }

  /** No two hosts have noted the same buyer and seller. */
  ghost predicate OneSender(deals: seq<map<(nat, nat), real>>) {
    forall g: nat, g': nat, k: (nat, nat) :: g < g' < |deals| && k in deals[g] ==> k !in deals[g']
  }

  /** What host h receives from all others. */
  method SendNewEdges(net: Network, h: nat, deals: seq<map<(nat, nat), real>>, toSeller: bool) returns (list: seq<ProposedEdge>)
    requires OneSender(deals)
    ensures Collected(net, h, deals, toSeller, |deals|, list)
  {
    list := [];
    for g := 0 to |deals|
      invariant Collected(net, h, deals, toSeller, g, list)
    {
      if g != h {
        var part := SerializeSet(net, h, deals[g], toSeller);
        CollectNext(net, h, deals, toSeller, g, list, part);
        list := list + part;
      } else {
        forall b: nat, c: nat, w: real
          ensures ProposedEdge(b, c, w) in list <==> exists g' :: 0 <= g' < g + 1 && g' != h && Goes(net, h, deals[g'], toSeller, b, c, w)
        {
        }
      }
    }
  }

  lemma CollectNext(net: Network, h: nat, deals: seq<map<(nat, nat), real>>, toSeller: bool, g: nat, list: seq<ProposedEdge>,
                    part: seq<ProposedEdge>)
    requires g < |deals| && g != h && OneSender(deals) && Collected(net, h, deals, toSeller, g, list) && DistinctKeys(part)
    requires forall b: nat, c: nat, w: real :: ProposedEdge(b, c, w) in part <==> Goes(net, h, deals[g], toSeller, b, c, w)
    ensures Collected(net, h, deals, toSeller, g + 1, list + part)
  {
    forall i, j | 0 <= i < |list| && 0 <= j < |part|
      ensures list[i].src != part[j].src || list[i].dst != part[j].dst
    {
      var x, y := list[i], part[j];
      assert ProposedEdge(x.src, x.dst, x.weight) in list;
      assert ProposedEdge(y.src, y.dst, y.weight) in part;
      var g' :| 0 <= g' < g && g' != h && Goes(net, h, deals[g'], toSeller, x.src, x.dst, x.weight);
      assert (x.src, x.dst) in deals[g'];
    }
    forall b: nat, c: nat, w: real
      ensures ProposedEdge(b, c, w) in list + part <==> exists g' :: 0 <= g' < g + 1 && g' != h && Goes(net, h, deals[g'], toSeller, b, c, w)
    {
      var e := ProposedEdge(b, c, w);
      if e in list {
        var g' :| 0 <= g' < g && g' != h && Goes(net, h, deals[g'], toSeller, b, c, w);
      }
      if g' :| 0 <= g' < g + 1 && g' != h && Goes(net, h, deals[g'], toSeller, b, c, w) {
        if g' < g {
          assert e in list;
        } else {
          assert e in part;
        }
      }
    }
  }

  /** The entries of one host's notes that go to host h, in any order. */
  method SerializeSet(net: Network, h: nat, deals: map<(nat, nat), real>, toSeller: bool) returns (list: seq<ProposedEdge>)
    ensures DistinctKeys(list)
    ensures forall b: nat, c: nat, w: real :: ProposedEdge(b, c, w) in list <==> Goes(net, h, deals, toSeller, b, c, w)
  {
    list := [];
    var keys := deals.Keys;
    while keys != {}
      invariant keys <= deals.Keys && DistinctKeys(list)
      invariant forall i :: 0 <= i < |list| ==> (list[i].src, list[i].dst) !in keys
      invariant forall b: nat, c: nat, w: real :: ProposedEdge(b, c, w) in list <==>
        (b, c) !in keys && Goes(net, h, deals, toSeller, b, c, w)
    {
      var key :| key in keys;
      var (b, c) := key;
      if Goes(net, h, deals, toSeller, b, c, deals[key]) {
        list := list + [ProposedEdge(b, c, deals[key])];
      }
      keys := keys - {key};
    }
  }

  // ---------- All hosts ----------

  ghost predicate AllProposed(net: Network, proposed: seq<seq<State>>)
    requires NetworkShape(net)
    ensures AllProposed(net, proposed) ==> |proposed| == net.hosts && forall h :: 0 <= h < |proposed| ==> proposed[h] != []
  {
    |proposed| == net.hosts && forall h :: 0 <= h < net.hosts ==> ProposeOn(net, h, proposed[h])
  }

  ghost predicate AllReceived(net: Network, proposed: seq<seq<State>>, lists: seq<seq<ProposedEdge>>)
    requires NetworkShape(net) && AllProposed(net, proposed)
  {
    |lists| == net.hosts && forall h :: 0 <= h < net.hosts ==> ReceivesProposals(net, h, Ends(proposed), lists[h])
  }

  ghost predicate AllDecided(net: Network, proposed: seq<seq<State>>, lists: seq<seq<ProposedEdge>>, decided: seq<seq<State>>)
    requires NetworkShape(net) && AllProposed(net, proposed) && AllReceived(net, proposed, lists)
    ensures AllDecided(net, proposed, lists, decided) ==>
      |decided| == net.hosts && forall h :: 0 <= h < |decided| ==> decided[h] != []
  {
    |decided| == net.hosts && forall h :: 0 <= h < net.hosts ==> DecideOn(net, proposed[h], lists[h], decided[h])
  }

  /** What the hosts have at the end of their runs. */
  ghost predicate Results(runs: seq<seq<State>>, sold: seq<seq<real>>, bought: seq<seq<real>>, deals: seq<map<(nat, nat), real>>) {
    |sold| == |bought| == |deals| == |runs| && forall h :: 0 <= h < |runs| ==> ResultOf(runs[h], sold[h], bought[h], deals[h])
  }

  ghost predicate ResultOf(run: seq<State>, sold: seq<real>, bought: seq<real>, deals: map<(nat, nat), real>) {
    run != [] && sold == End(run).sold && bought == End(run).bought && deals == End(run).deals
  }

  ghost predicate StartOf(run: seq<State>, sold: seq<real>, bought: seq<real>) {
    run != [] && run[0].sold == sold && run[0].bought == bought
  }

  /** What a host notes while proposing is for buyers it owns and sellers it does not. */
  lemma NotedByBuyer(net: Network, g: nat, run: seq<State>, b: nat, c: nat)
    requires NetworkShape(net) && ProposeOn(net, g, run) && (b, c) in End(run).deals
    ensures b in Owned(net, g) && c < |net.owner| && net.owner[c] != g
  {
    var n, end := |net.owner|, End(run);
    RunAccounts(n, Owned(net, g), run);
    assert DealOk(end, Needs(run[0].agents), Owned(net, g), b, c, end.deals[(b, c)]);
    var i: nat, j: nat :| Behind(end.agents, i, j, b, c);
    assert AgentShape(n, end.agents[i]);
    assert run[0].agents[i].buyer == b;
  }

  /** What a host notes while deciding is for sellers it owns and buyers it does not. */
  lemma NotedBySeller(net: Network, g: nat, proposed: seq<seq<State>>, lists: seq<seq<ProposedEdge>>, run: seq<State>, b: nat, c: nat)
    requires NetworkShape(net) && AllProposed(net, proposed) && AllReceived(net, proposed, lists) && g < net.hosts
    requires DecideOn(net, proposed[g], lists[g], run) && (b, c) in End(run).deals
    ensures c in Owned(net, g) && b < |net.owner| && net.owner[b] != g
  {
    var list := lists[g];
    assert ReceivesProposals(net, g, Ends(proposed), list);
    ProposalsDistinct(list, run[0].agents);
    DecidePhase(|net.owner|, run);
    var i := ProposalBehind(list, run, b, c);
    assert ProposedEdge(b, c, list[i].weight) == list[i] && list[i] in list;
    assert IsNoted(Ends(proposed), net.owner[b], b, c, list[i].weight);
    assert ProposeOn(net, net.owner[b], proposed[net.owner[b]]);
    NotedByBuyer(net, net.owner[b], proposed[net.owner[b]], b, c);
  }

  lemma ProposalsDelivered(net: Network, h: nat, proposed: seq<seq<State>>, sold: seq<seq<real>>, bought: seq<seq<real>>,
                           deals: seq<map<(nat, nat), real>>, list: seq<ProposedEdge>)
    requires NetworkShape(net) && AllProposed(net, proposed) && Results(proposed, sold, bought, deals) && h < net.hosts
    requires Collected(net, h, deals, true, net.hosts, list)
    ensures ReceivesProposals(net, h, Ends(proposed), list)
  {
    var ends := Ends(proposed);
    forall b: nat, c: nat, w: real
      ensures ProposedEdge(b, c, w) in list <==> b < |net.owner| && c in Owned(net, h) && IsNoted(ends, net.owner[b], b, c, w)
    {
      if ProposedEdge(b, c, w) in list {
        var g :| 0 <= g < net.hosts && g != h && Goes(net, h, deals[g], true, b, c, w);
        assert ResultOf(proposed[g], sold[g], bought[g], deals[g]) && ProposeOn(net, g, proposed[g]);
        NotedByBuyer(net, g, proposed[g], b, c);
      }
      if b < |net.owner| && c in Owned(net, h) && IsNoted(ends, net.owner[b], b, c, w) {
        var g := net.owner[b];
        assert ResultOf(proposed[g], sold[g], bought[g], deals[g]) && ProposeOn(net, g, proposed[g]);
        NotedByBuyer(net, g, proposed[g], b, c);
        assert Goes(net, h, deals[g], true, b, c, w);
      }
    }
  }

  lemma DecisionsDelivered(net: Network, h: nat, proposed: seq<seq<State>>, lists: seq<seq<ProposedEdge>>, decided: seq<seq<State>>,
                           sold: seq<seq<real>>, bought: seq<seq<real>>, deals: seq<map<(nat, nat), real>>, list: seq<ProposedEdge>)
    requires NetworkShape(net) && AllProposed(net, proposed) && AllReceived(net, proposed, lists)
    requires AllDecided(net, proposed, lists, decided) && Results(decided, sold, bought, deals) && h < net.hosts
    requires Collected(net, h, deals, false, net.hosts, list)
    ensures ReceivesDecisions(net, h, Ends(decided), list)
  {
    var ends := Ends(decided);
    forall b: nat, c: nat, w: real
      ensures ProposedEdge(b, c, w) in list <==> c < |net.owner| && b in Owned(net, h) && IsNoted(ends, net.owner[c], b, c, w)
    {
      if ProposedEdge(b, c, w) in list {
        var g :| 0 <= g < net.hosts && g != h && Goes(net, h, deals[g], false, b, c, w);
        assert ResultOf(decided[g], sold[g], bought[g], deals[g]) && DecideOn(net, proposed[g], lists[g], decided[g]);
        NotedBySeller(net, g, proposed, lists, decided[g], b, c);
      }
      if c < |net.owner| && b in Owned(net, h) && IsNoted(ends, net.owner[c], b, c, w) {
        var g := net.owner[c];
        assert ResultOf(decided[g], sold[g], bought[g], deals[g]) && DecideOn(net, proposed[g], lists[g], decided[g]);
        NotedBySeller(net, g, proposed, lists, decided[g], b, c);
        assert Goes(net, h, deals[g], false, b, c, w);
      }
    }
  }

  lemma ProposersDiffer(net: Network, proposed: seq<seq<State>>, sold: seq<seq<real>>, bought: seq<seq<real>>,
                        deals: seq<map<(nat, nat), real>>)
    requires NetworkShape(net) && AllProposed(net, proposed) && Results(proposed, sold, bought, deals)
    ensures OneSender(deals)
  {
    forall g: nat, g': nat, key: (nat, nat) | g < g' < |deals| && key in deals[g]
      ensures key !in deals[g']
    {
      ProposerOwns(net, proposed, sold, bought, deals, g, key);
      if key in deals[g'] {
        ProposerOwns(net, proposed, sold, bought, deals, g', key);
      }
    }
  }

  lemma ProposerOwns(net: Network, proposed: seq<seq<State>>, sold: seq<seq<real>>, bought: seq<seq<real>>,
                     deals: seq<map<(nat, nat), real>>, g: nat, key: (nat, nat))
    requires NetworkShape(net) && AllProposed(net, proposed) && Results(proposed, sold, bought, deals)
    requires g < |deals| && key in deals[g]
    ensures key.0 < |net.owner| && net.owner[key.0] == g
  {
    assert ResultOf(proposed[g], sold[g], bought[g], deals[g]) && ProposeOn(net, g, proposed[g]);
    NotedByBuyer(net, g, proposed[g], key.0, key.1);
  }

  lemma DecidersDiffer(net: Network, proposed: seq<seq<State>>, lists: seq<seq<ProposedEdge>>, decided: seq<seq<State>>,
                       sold: seq<seq<real>>, bought: seq<seq<real>>, deals: seq<map<(nat, nat), real>>)
    requires NetworkShape(net) && AllProposed(net, proposed) && AllReceived(net, proposed, lists)
    requires AllDecided(net, proposed, lists, decided) && Results(decided, sold, bought, deals)
    ensures OneSender(deals)
  {
    forall g: nat, g': nat, key: (nat, nat) | g < g' < |deals| && key in deals[g]
      ensures key !in deals[g']
    {
      DeciderOwns(net, proposed, lists, decided, sold, bought, deals, g, key);
      if key in deals[g'] {
        DeciderOwns(net, proposed, lists, decided, sold, bought, deals, g', key);
      }
    }
  }

  lemma DeciderOwns(net: Network, proposed: seq<seq<State>>, lists: seq<seq<ProposedEdge>>, decided: seq<seq<State>>,
                    sold: seq<seq<real>>, bought: seq<seq<real>>, deals: seq<map<(nat, nat), real>>, g: nat, key: (nat, nat))
    requires NetworkShape(net) && AllProposed(net, proposed) && AllReceived(net, proposed, lists)
    requires AllDecided(net, proposed, lists, decided) && Results(decided, sold, bought, deals)
    requires g < |deals| && key in deals[g]
    ensures key.1 < |net.owner| && net.owner[key.1] == g
  {
    assert ResultOf(decided[g], sold[g], bought[g], deals[g]) && DecideOn(net, proposed[g], lists[g], decided[g]);
    NotedBySeller(net, g, proposed, lists, decided[g], key.0, key.1);
  }

  // ---------- The round ----------

  /** Every host proposes. */
  method ProposeAll(net: Network, sold: seq<seq<real>>, bought: seq<seq<real>>)
    returns (sold': seq<seq<real>>, bought': seq<seq<real>>, deals: seq<map<(nat, nat), real>>, ghost proposed: seq<seq<State>>)
    requires NetworkShape(net) && EdgesShape(net) && |sold| == |bought| == net.hosts
    requires forall h :: 0 <= h < net.hosts ==> |sold[h]| == |bought[h]| == |net.owner|
    ensures AllProposed(net, proposed) && Results(proposed, sold', bought', deals)
    ensures forall h :: 0 <= h < net.hosts ==> StartOf(proposed[h], sold[h], bought[h])
  {
    sold', bought', deals, proposed := [], [], [], [];
    for h := 0 to net.hosts
      invariant |proposed| == h && Results(proposed, sold', bought', deals)
      invariant forall k :: 0 <= k < h ==> ProposeOn(net, k, proposed[k]) && StartOf(proposed[k], sold[k], bought[k])
    {
      var masters := Masters(net, h);
      var buyers := Buyers(net, h, bought[h]);
      var s, b, d;
      ghost var run;
      s, b, d, run := RunHost(|net.owner|, masters, sold[h], bought[h], buyers);
      assert ProposeOn(net, h, run) && StartOf(run, sold[h], bought[h]) && ResultOf(run, s, b, d);
      sold', bought', deals, proposed := sold' + [s], bought' + [b], deals + [d], proposed + [run];
    }
  }

  /** Every host receives. */
  method ExchangeAll(net: Network, deals: seq<map<(nat, nat), real>>, toSeller: bool) returns (lists: seq<seq<ProposedEdge>>)
    requires OneSender(deals) && |deals| == net.hosts
    ensures |lists| == net.hosts
    ensures forall h :: 0 <= h < net.hosts ==> Collected(net, h, deals, toSeller, net.hosts, lists[h])
  {
    lists := [];
    for h := 0 to net.hosts
      invariant |lists| == h && forall k :: 0 <= k < h ==> Collected(net, k, deals, toSeller, net.hosts, lists[k])
    {
      var list := SendNewEdges(net, h, deals, toSeller);
      lists := lists + [list];
    }
  }

  /** One host decides what it has received. */
  method DecideHost(net: Network, h: nat, sold: seq<real>, bought: seq<real>, list: seq<ProposedEdge>, ghost proposed: seq<seq<State>>)
    returns (sold': seq<real>, bought': seq<real>, deals: map<(nat, nat), real>, ghost run: seq<State>)
    requires NetworkShape(net) && h < net.hosts && AllProposed(net, proposed)
    requires sold == End(proposed[h]).sold && bought == End(proposed[h]).bought
    requires ReceivesProposals(net, h, Ends(proposed), list)
    ensures DecideOn(net, proposed[h], list, run) && ResultOf(run, sold', bought', deals)
  {
    var buyers := seq(|list|, (i: nat) requires i < |list| => Agent(list[i].src, [Edge(true, list[i].dst)], 0, list[i].weight, Look));
    assert ProposeOn(net, h, proposed[h]);
    RunInv(|net.owner|, Owned(net, h), proposed[h]);
    forall i | 0 <= i < |buyers|
      ensures AgentShape(|net.owner|, buyers[i])
    {
      assert ProposedEdge(list[i].src, list[i].dst, list[i].weight) in list;
    }
    sold', bought', deals, run := RunHost(|net.owner|, {}, sold, bought, buyers);
  }

  /** Every host decides. */
  method DecideAll(net: Network, sold: seq<seq<real>>, bought: seq<seq<real>>, ghost deals0: seq<map<(nat, nat), real>>,
                   lists: seq<seq<ProposedEdge>>, ghost proposed: seq<seq<State>>)
    returns (sold': seq<seq<real>>, bought': seq<seq<real>>, deals: seq<map<(nat, nat), real>>, ghost decided: seq<seq<State>>)
    requires NetworkShape(net) && AllProposed(net, proposed) && Results(proposed, sold, bought, deals0)
    requires AllReceived(net, proposed, lists)
    ensures AllDecided(net, proposed, lists, decided) && Results(decided, sold', bought', deals)
  {
    sold', bought', deals, decided := [], [], [], [];
    for h := 0 to net.hosts
      invariant |decided| == h && Results(decided, sold', bought', deals)
      invariant forall k :: 0 <= k < h ==> DecideOn(net, proposed[k], lists[k], decided[k])
    {
      assert ResultOf(proposed[h], sold[h], bought[h], deals0[h]);
      assert ReceivesProposals(net, h, Ends(proposed), lists[h]);
      var s, b, d;
      ghost var run;
      s, b, d, run := DecideHost(net, h, sold[h], bought[h], lists[h], proposed);
      sold', bought', deals, decided := sold' + [s], bought' + [b], deals + [d], decided + [run];
    }
  }

  /** One host commits the decisions it has received. */
  method CommitHost(bought: seq<real>, list: seq<ProposedEdge>) returns (bought': seq<real>)
    requires forall i :: 0 <= i < |list| ==> list[i].src < |bought|
    ensures |bought'| == |bought| && forall v :: 0 <= v < |bought| ==> bought'[v] == bought[v] + Credits(list, v)
  {
    var host := new Host(|bought|);
    for v := 0 to |bought|
      invariant forall u :: 0 <= u < v ==> host.bought[u] == bought[u]
    {
      host.bought[v] := bought[v];
    }
    host.AddPurchaseEdges(list);
    bought' := host.bought[..];
  }

  /** Every host commits. */
  method CommitAll(net: Network, bought: seq<seq<real>>, lists: seq<seq<ProposedEdge>>) returns (bought': seq<seq<real>>)
    requires |bought| == |lists| == net.hosts
    requires forall h :: 0 <= h < net.hosts ==> |bought[h]| == |net.owner| && SourcesIn(lists[h], |net.owner|)
    ensures |bought'| == net.hosts && forall h :: 0 <= h < net.hosts ==> |bought'[h]| == |net.owner|
    ensures forall h :: 0 <= h < net.hosts ==> Committed(bought[h], lists[h], bought'[h])
  {
    bought' := [];
    for h := 0 to net.hosts
      invariant |bought'| == h && forall k :: 0 <= k < h ==> Committed(bought[k], lists[k], bought'[k])
    {
      assert SourcesIn(lists[h], |net.owner|);
      var b := CommitHost(bought[h], lists[h]);
      bought' := bought' + [b];
    }
  }

  ghost predicate SourcesIn(list: seq<ProposedEdge>, n: nat) {
    forall i :: 0 <= i < |list| ==> list[i].src < n
  }

  ghost predicate Committed(bought: seq<real>, list: seq<ProposedEdge>, bought': seq<real>) {
    |bought'| == |bought| && forall v :: 0 <= v < |bought| ==> bought'[v] == bought[v] + Credits(list, v)
  }

  lemma SourcesOwned(net: Network, h: nat, ends: seq<State>, list: seq<ProposedEdge>)
    requires NetworkShape(net) && ReceivesDecisions(net, h, ends, list)
    ensures SourcesIn(list, |net.owner|)
  {
    forall i | 0 <= i < |list|
      ensures list[i].src < |net.owner|
    {
      assert ProposedEdge(list[i].src, list[i].dst, list[i].weight) in list;
    }
  }

  /** The values of a master before and after a round, and what the round promises about them. */
  ghost predicate Served(desired: real, sold: real, bought: real, sold': real, bought': real) {
    && bought' <= (if desired > bought then desired else bought)
    && (sold' == sold || sold' <= bought')
  }

  ghost predicate Accounted(net: Network, r: Round, v: nat, sold: seq<seq<real>>, bought: seq<seq<real>>, sold': seq<seq<real>>,
                            bought': seq<seq<real>>)
    requires IsRound(net, r) && v < |net.owner| && |sold| == |bought| == |sold'| == |bought'| == net.hosts
  {
    var h := net.owner[v];
    && v < |sold[h]| && v < |bought[h]| && v < |sold'[h]| && v < |bought'[h]|
    && sold[h][v] == StartSold(net, r, v) && bought[h][v] == StartBought(net, r, v)
    && sold'[h][v] == FinalSold(net, r, v) && bought'[h][v] == FinalBought(net, r, v)
    && Served(net.desired[v], sold[h][v], bought[h][v], sold'[h][v], bought'[h][v])
  }

  lemma RoundAccounted(net: Network, r: Round, v: nat, sold: seq<seq<real>>, bought: seq<seq<real>>, deals2: seq<map<(nat, nat), real>>,
                       sold2: seq<seq<real>>, bought2: seq<seq<real>>, bought': seq<seq<real>>)
    requires IsRound(net, r) && v < |net.owner| && |sold| == |bought| == |bought'| == net.hosts
    requires Results(r.decide, sold2, bought2, deals2)
    requires forall h :: 0 <= h < net.hosts ==> StartOf(r.propose[h], sold[h], bought[h])
    requires forall h :: 0 <= h < net.hosts ==> Committed(bought2[h], r.decisions[h], bought'[h])
    ensures Accounted(net, r, v, sold, bought, sold2, bought')
  {
    var h := net.owner[v];
    RoundShape(net, r, h);
    assert StartOf(r.propose[h], sold[h], bought[h]) && ResultOf(r.decide[h], sold2[h], bought2[h], deals2[h]);
    assert Committed(bought2[h], r.decisions[h], bought'[h]);
    NoOverbuyingInRound(net, r, v);
    NoOversellInRound(net, r, v);
  }

  /** Only v is in need, and its only purchase edge goes to c. */
  ghost predicate OnlyInNeed(net: Network, bought: seq<seq<real>>, v: nat, j: nat, c: nat)
    requires NetworkShape(net) && |bought| == net.hosts && forall h :: 0 <= h < net.hosts ==> |bought[h]| == |net.owner|
  {
    && v < |net.owner| && OneSeller(net.edges[v], j, c) && c < |net.owner|
    && forall u: nat :: u < |net.owner| && u != v ==> net.desired[u] <= bought[net.owner[u]][u]
  }

  /** The smallest of what v needs, the surplus of c that v's host knows of, and the surplus that c has; never below zero. */
  ghost function Amount(net: Network, sold: seq<seq<real>>, bought: seq<seq<real>>, v: nat, c: nat): real
    requires NetworkShape(net) && |sold| == |bought| == net.hosts && v < |net.owner| && c < |net.owner|
    requires forall h :: 0 <= h < net.hosts ==> |sold[h]| == |bought[h]| == |net.owner|
  {
    var h, g := net.owner[v], net.owner[c];
    var least := Min(Min(net.desired[v] - bought[h][v], bought[h][c] - sold[h][c]), bought[g][c] - sold[g][c]);
    if least > 0.0 then least else 0.0
  }

  /** That amount has gone from c to v, and nothing else has changed. */
  ghost predicate OnlyTrade(net: Network, d: real, v: nat, c: nat, sold: seq<seq<real>>, bought: seq<seq<real>>,
                            sold': seq<seq<real>>, bought': seq<seq<real>>)
    requires NetworkShape(net) && |sold| == |bought| == |sold'| == |bought'| == net.hosts
    requires forall h :: 0 <= h < net.hosts ==> |sold[h]| == |bought[h]| == |sold'[h]| == |bought'[h]| == |net.owner|
  {
    forall u: nat :: u < |net.owner| ==>
      && sold'[net.owner[u]][u] == sold[net.owner[u]][u] + (if u == c then d else 0.0)
      && bought'[net.owner[u]][u] == bought[net.owner[u]][u] + (if u == v then d else 0.0)
  }

  lemma OnlyTradeDone(net: Network, r: Round, v: nat, j: nat, c: nat, sold: seq<seq<real>>, bought: seq<seq<real>>,
                      sold': seq<seq<real>>, bought': seq<seq<real>>)
    requires IsRound(net, r) && |sold| == |bought| == |sold'| == |bought'| == net.hosts
    requires forall h :: 0 <= h < net.hosts ==> |sold[h]| == |bought[h]| == |sold'[h]| == |bought'[h]| == |net.owner|
    requires forall h :: 0 <= h < net.hosts ==> StartOf(r.propose[h], sold[h], bought[h])
    requires forall u: nat :: u < |net.owner| ==> Accounted(net, r, u, sold, bought, sold', bought')
    requires OnlyInNeed(net, bought, v, j, c)
    ensures OnlyTrade(net, Amount(net, sold, bought, v, c), v, c, sold, bought, sold', bought')
  {
    forall u: nat | u < |net.owner| && u != v
      ensures net.desired[u] <= StartBought(net, r, u)
    {
      assert Accounted(net, r, u, sold, bought, sold', bought');
    }
    assert OnlyBuyer(net, r, v, j, c);
    GivenIsAmount(net, r, v, c, sold, bought);
    forall u: nat | u < |net.owner|
      ensures sold'[net.owner[u]][u] == sold[net.owner[u]][u] + (if u == c then Given(net, r, v, c) else 0.0)
      ensures bought'[net.owner[u]][u] == bought[net.owner[u]][u] + (if u == v then Given(net, r, v, c) else 0.0)
    {
      assert Accounted(net, r, u, sold, bought, sold', bought');
      OnlyBuyerServed(net, r, v, j, c, u);
    }
  }

  lemma GivenIsAmount(net: Network, r: Round, v: nat, c: nat, sold: seq<seq<real>>, bought: seq<seq<real>>)
    requires IsRound(net, r) && |sold| == |bought| == net.hosts && v < |net.owner| && c < |net.owner|
    requires forall h :: 0 <= h < net.hosts ==> |sold[h]| == |bought[h]| == |net.owner|
    requires forall h :: 0 <= h < net.hosts ==> StartOf(r.propose[h], sold[h], bought[h])
    ensures Given(net, r, v, c) == Amount(net, sold, bought, v, c)
  {
    var h, g := net.owner[v], net.owner[c];
    assert StartOf(r.propose[h], sold[h], bought[h]) && StartOf(r.propose[g], sold[g], bought[g]);
  }

  /** What is promised of the end of a round. */
  ghost predicate RoundDone(net: Network, r: Round, sold: seq<seq<real>>, bought: seq<seq<real>>, sold': seq<seq<real>>,
                            bought': seq<seq<real>>)
    requires IsRound(net, r) && |sold| == |bought| == |sold'| == |bought'| == net.hosts
    requires forall h :: 0 <= h < net.hosts ==> |sold[h]| == |bought[h]| == |sold'[h]| == |bought'[h]| == |net.owner|
  {
    && (forall v: nat :: v < |net.owner| ==> Accounted(net, r, v, sold, bought, sold', bought'))
    && Sum(|net.owner|, SoldRise(net, r)) == Sum(|net.owner|, BoughtRise(net, r))
    && forall v: nat, j: nat, c: nat :: OnlyInNeed(net, bought, v, j, c) ==>
        OnlyTrade(net, Amount(net, sold, bought, v, c), v, c, sold, bought, sold', bought')
  }

  lemma RoundIsDone(net: Network, r: Round, sold: seq<seq<real>>, bought: seq<seq<real>>, deals2: seq<map<(nat, nat), real>>,
                    sold2: seq<seq<real>>, bought2: seq<seq<real>>, bought': seq<seq<real>>)
    requires IsRound(net, r) && |sold| == |bought| == |sold2| == |bought'| == net.hosts
    requires forall h :: 0 <= h < net.hosts ==> |sold[h]| == |bought[h]| == |sold2[h]| == |bought'[h]| == |net.owner|
    requires Results(r.decide, sold2, bought2, deals2)
    requires forall h :: 0 <= h < net.hosts ==> StartOf(r.propose[h], sold[h], bought[h])
    requires forall h :: 0 <= h < net.hosts ==> Committed(bought2[h], r.decisions[h], bought'[h])
    ensures RoundDone(net, r, sold, bought, sold2, bought')
  {
    hide IsRound, Accounted, OnlyInNeed, OnlyTrade, Amount, StartOf, Committed, Results;
    forall v: nat | v < |net.owner|
      ensures Accounted(net, r, v, sold, bought, sold2, bought')
    {
      RoundAccounted(net, r, v, sold, bought, deals2, sold2, bought2, bought');
    }
    RoundConserves(net, r);
    TradesDone(net, r, sold, bought, sold2, bought');
  }

  lemma TradesDone(net: Network, r: Round, sold: seq<seq<real>>, bought: seq<seq<real>>, sold': seq<seq<real>>, bought': seq<seq<real>>)
    requires IsRound(net, r) && |sold| == |bought| == |sold'| == |bought'| == net.hosts
    requires forall h :: 0 <= h < net.hosts ==> |sold[h]| == |bought[h]| == |sold'[h]| == |bought'[h]| == |net.owner|
    requires forall h :: 0 <= h < net.hosts ==> StartOf(r.propose[h], sold[h], bought[h])
    requires forall u: nat :: u < |net.owner| ==> Accounted(net, r, u, sold, bought, sold', bought')
    ensures forall v: nat, j: nat, c: nat :: OnlyInNeed(net, bought, v, j, c) ==>
      OnlyTrade(net, Amount(net, sold, bought, v, c), v, c, sold, bought, sold', bought')
  {
    hide Accounted, OnlyTrade, Amount, StartOf, OneSeller;
    forall v: nat, j: nat, c: nat | OnlyInNeed(net, bought, v, j, c)
      ensures OnlyTrade(net, Amount(net, sold, bought, v, c), v, c, sold, bought, sold', bought')
    {
      OnlyTradeDone(net, r, v, j, c, sold, bought, sold', bought');
    }
  }

  /**
    A whole round. Every master ends with what the round gives it; so nobody buys
    more than it had or desires, whoever sold has not sold more than it bought, and
    as much has been sold as bought. If only one node is in need, with one seller, it
    gets what it needs as far as the seller has it.
   */
  method QuiesceGraph(net: Network, sold: seq<seq<real>>, bought: seq<seq<real>>)
    returns (sold': seq<seq<real>>, bought': seq<seq<real>>, ghost r: Round)
    requires NetworkShape(net) && EdgesShape(net) && |sold| == |bought| == net.hosts
    requires forall h :: 0 <= h < net.hosts ==> |sold[h]| == |bought[h]| == |net.owner|
    ensures IsRound(net, r) && |sold'| == |bought'| == net.hosts
    ensures forall h :: 0 <= h < net.hosts ==> |sold'[h]| == |bought'[h]| == |net.owner|
    ensures RoundDone(net, r, sold, bought, sold', bought')
  {
    hide ProposeOn, DecideOn, ReceivesProposals, ReceivesDecisions, NetworkShape, EdgesShape, Collected, StartOf, ResultOf, RoundDone;
    var sold1, bought1, deals1, bought2, deals2;
    ghost var proposed, decided;
    sold1, bought1, deals1, proposed := ProposeAll(net, sold, bought);
    ProposersDiffer(net, proposed, sold1, bought1, deals1);
    var proposals := ExchangeAll(net, deals1, true);
    forall h | 0 <= h < net.hosts
      ensures ReceivesProposals(net, h, Ends(proposed), proposals[h])
    {
      ProposalsDelivered(net, h, proposed, sold1, bought1, deals1, proposals[h]);
    }
    sold', bought2, deals2, decided := DecideAll(net, sold1, bought1, deals1, proposals, proposed);
    DecidersDiffer(net, proposed, proposals, decided, sold', bought2, deals2);
    var decisions := ExchangeAll(net, deals2, false);
    forall h | 0 <= h < net.hosts
      ensures ReceivesDecisions(net, h, Ends(decided), decisions[h]) && SourcesIn(decisions[h], |net.owner|)
    {
      DecisionsDelivered(net, h, proposed, proposals, decided, sold', bought2, deals2, decisions[h]);
      SourcesOwned(net, h, Ends(decided), decisions[h]);
    }
    r := Round(proposed, proposals, decided, decisions);
    forall h | 0 <= h < net.hosts
      ensures |sold'[h]| == |bought2[h]| == |net.owner|
    {
      LengthsAfter(net, r, sold', bought2, deals2, h);
    }
    bought' := CommitAll(net, bought2, decisions);
    RoundIsDone(net, r, sold, bought, deals2, sold', bought2, bought');
  }

  lemma LengthsAfter(net: Network, r: Round, sold: seq<seq<real>>, bought: seq<seq<real>>, deals: seq<map<(nat, nat), real>>, h: nat)
    requires IsRound(net, r) && Results(r.decide, sold, bought, deals) && h < net.hosts
    ensures |sold[h]| == |bought[h]| == |net.owner|
  {
    RoundShape(net, r, h);
    assert ResultOf(r.decide[h], sold[h], bought[h], deals[h]);
  }
}
