/**
  A whole round of trading over all hosts, wf4/src/quiesce.cpp: every host proposes,
  the proposals travel to the sellers' hosts, these decide, and the decisions
  travel back and are committed.
 */
module TradeRound {
  import opened Sums
  import opened Reservation
  import opened Trading

  datatype ProposedEdge = ProposedEdge(src: nat, dst: nat, weight: real)

  /** The two concurrent phases of each host and the edges each host receives after them. */
  datatype Round = Round(propose: seq<seq<State>>, proposals: seq<seq<ProposedEdge>>,
                         decide: seq<seq<State>>, decisions: seq<seq<ProposedEdge>>)

  /** The nodes of the network: who owns them, what they want, and their edges. */
  datatype Network = Network(hosts: nat, owner: seq<nat>, desired: seq<real>, edges: seq<seq<Edge>>)

  ghost predicate NetworkShape(net: Network) {
    && |net.desired| == |net.edges| == |net.owner|
    && (forall v :: 0 <= v < |net.owner| ==> net.owner[v] < net.hosts)
  }

  ghost function Owned(net: Network, h: nat): set<nat> {
    set v: nat | v < |net.owner| && net.owner[v] == h
  }

  ghost function End(run: seq<State>): State
    requires run != []
  {
    run[|run| - 1]
  }

  /** A host starts with one buyer for each node it owns, who needs what it desires beyond what it has bought. */
  ghost predicate OwnBuyers(net: Network, h: nat, st: State)
    requires NetworkShape(net) && |st.bought| == |net.owner|
  {
    && (forall i :: 0 <= i < |st.agents| ==> var a := st.agents[i];
        a.buyer in Owned(net, h) && a.edges == net.edges[a.buyer] && a.needed == net.desired[a.buyer] - st.bought[a.buyer])
    && (forall v: nat :: v in Owned(net, h) ==> exists i :: 0 <= i < |st.agents| && st.agents[i].buyer == v)
    && DistinctBuyers(st.agents)
  }

  /** A buyer for each proposal received. */
  ghost predicate ProposalBuyers(list: seq<ProposedEdge>, agents: seq<Agent>) {
    |agents| == |list| && forall i :: 0 <= i < |list| ==>
      agents[i] == Agent(list[i].src, [Edge(true, list[i].dst)], 0, list[i].weight, Look)
  }

  ghost predicate DistinctKeys(list: seq<ProposedEdge>) {
    forall i, j :: 0 <= i < j < |list| ==> list[i].src != list[j].src || list[i].dst != list[j].dst
  }

  /** What the hosts in `sender` have noted for (b, c), `receiver` being the host it goes to. */
  ghost predicate IsNoted(ends: seq<State>, sender: nat, b: nat, c: nat, w: real) {
    sender < |ends| && (b, c) in ends[sender].deals && ends[sender].deals[(b, c)] == w
  }

  /** The edges that host h receives: proposals for sellers it owns from the buyers' hosts, in any order. */
  ghost predicate ReceivesProposals(net: Network, h: nat, ends: seq<State>, list: seq<ProposedEdge>)
    requires NetworkShape(net)
  {
    && DistinctKeys(list)
    && forall b: nat, c: nat, w: real :: ProposedEdge(b, c, w) in list <==>
        b < |net.owner| && c in Owned(net, h) && IsNoted(ends, net.owner[b], b, c, w)
  }

  /** The edges that host h receives back: decisions for buyers it owns from the sellers' hosts. */
  ghost predicate ReceivesDecisions(net: Network, h: nat, ends: seq<State>, list: seq<ProposedEdge>)
    requires NetworkShape(net)
  {
    && DistinctKeys(list)
    && forall b: nat, c: nat, w: real :: ProposedEdge(b, c, w) in list <==>
        c < |net.owner| && b in Owned(net, h) && IsNoted(ends, net.owner[c], b, c, w)
  }

  ghost function Ends(runs: seq<seq<State>>): (r: seq<State>)
    requires forall h :: 0 <= h < |runs| ==> runs[h] != []
    ensures |r| == |runs| && forall h :: 0 <= h < |r| ==> r[h] == End(runs[h])
  {
    seq(|runs|, (h: nat) requires h < |runs| => End(runs[h]))
  }

  /** On each host the phases are runs of their own: hosts interact by messages only. */
  ghost predicate IsRound(net: Network, r: Round) {
    var n := |net.owner|;
    && NetworkShape(net)
    && |r.propose| == |r.proposals| == |r.decide| == |r.decisions| == net.hosts
    && (forall h :: 0 <= h < net.hosts ==> ProposeOn(net, h, r.propose[h]))
    && (forall h :: 0 <= h < net.hosts ==> ReceivesProposals(net, h, Ends(r.propose), r.proposals[h]))
    && (forall h :: 0 <= h < net.hosts ==> DecideOn(net, r.propose[h], r.proposals[h], r.decide[h]))
    && (forall h :: 0 <= h < net.hosts ==> ReceivesDecisions(net, h, Ends(r.decide), r.decisions[h]))
  }

  ghost predicate ProposeOn(net: Network, h: nat, run: seq<State>)
    requires NetworkShape(net)
  {
    Run(|net.owner|, Owned(net, h), run) && AllFinished(End(run)) && OwnBuyers(net, h, run[0])
  }

  ghost predicate DecideOn(net: Network, before: seq<State>, list: seq<ProposedEdge>, run: seq<State>)
    requires NetworkShape(net) && before != []
  {
    && Run(|net.owner|, {}, run) && AllFinished(End(run))
    && run[0].sold == End(before).sold && run[0].bought == End(before).bought
    && ProposalBuyers(list, run[0].agents)
  }

  /** What the commits add to buyer b. */
  ghost function Credits(list: seq<ProposedEdge>, b: nat): real {
    if list == [] then 0.0
    else Credits(list[..|list| - 1], b) + if list[|list| - 1].src == b then list[|list| - 1].weight else 0.0
  }

  ghost function StartSold(net: Network, r: Round, v: nat): real
    requires IsRound(net, r) && v < |net.owner|
  {
    r.propose[net.owner[v]][0].sold[v]
  }

  ghost function StartBought(net: Network, r: Round, v: nat): real
    requires IsRound(net, r) && v < |net.owner|
  {
    r.propose[net.owner[v]][0].bought[v]
  }

  ghost function FinalSold(net: Network, r: Round, v: nat): real
    requires IsRound(net, r) && v < |net.owner|
  {
    RoundShape(net, r, net.owner[v]);
    End(r.decide[net.owner[v]]).sold[v]
  }

  ghost function FinalBought(net: Network, r: Round, v: nat): real
    requires IsRound(net, r) && v < |net.owner|
  {
    RoundShape(net, r, net.owner[v]);
    End(r.decide[net.owner[v]]).bought[v] + Credits(r.decisions[net.owner[v]], v)
  }

  lemma RoundShape(net: Network, r: Round, h: nat)
    requires IsRound(net, r) && h < net.hosts
    ensures Shape(|net.owner|, r.propose[h][0]) && Shape(|net.owner|, End(r.propose[h]))
    ensures Shape(|net.owner|, r.decide[h][0]) && Shape(|net.owner|, End(r.decide[h]))
  {
    assert ProposeOn(net, h, r.propose[h]);
    assert DecideOn(net, r.propose[h], r.proposals[h], r.decide[h]);
    RunInv(|net.owner|, Owned(net, h), r.propose[h]);
    RunInv(|net.owner|, {}, r.decide[h]);
  }

  // ---------- Lists of edges and the deals they carry ----------

  ghost function Carried(list: seq<ProposedEdge>, b: nat): nat -> real {
    (c: nat) => CarriedFor(list, b, c)
  }

  ghost function CarriedFor(list: seq<ProposedEdge>, b: nat, c: nat): real {
    if list == [] then 0.0
    else
      var last := list[|list| - 1];
      CarriedFor(list[..|list| - 1], b, c) + if last.src == b && last.dst == c then last.weight else 0.0
  }

  lemma {:induction false} CreditsCarried(n: nat, list: seq<ProposedEdge>, b: nat)
    requires forall i :: 0 <= i < |list| ==> list[i].dst < n
    ensures Credits(list, b) == Sum(n, Carried(list, b))
  {
    if list == [] {
      SumZero(n, Carried(list, b));
    } else {
      var front, last := list[..|list| - 1], list[|list| - 1];
      CreditsCarried(n, front, b);
      SumChange(n, Carried(front, b), Carried(list, b), last.dst);
    }
  }

  lemma {:induction false} CarriedOnce(list: seq<ProposedEdge>, b: nat, c: nat, w: real)
    requires DistinctKeys(list)
    ensures ProposedEdge(b, c, w) in list ==> CarriedFor(list, b, c) == w
    ensures (forall x: real :: ProposedEdge(b, c, x) !in list) ==> CarriedFor(list, b, c) == 0.0
  {
    if list != [] {
      var front, last := list[..|list| - 1], list[|list| - 1];
      CarriedOnce(front, b, c, w);
      assert list == front + [last];
      assert last.src == b && last.dst == c ==> last == ProposedEdge(b, c, last.weight);
      if last.src == b && last.dst == c {
        forall e | e in front
          ensures e.src != b || e.dst != c
        {
          var i :| 0 <= i < |front| && front[i] == e;
          assert list[i] == front[i];
        }
      }
    }
  }

  // ---------- Sums over hosts ----------

  /** Host h contributes nothing for nodes it does not own. */
  ghost predicate OwnOnly(net: Network, f: (nat, nat) -> real, h: nat) {
    forall v: nat :: v < |net.owner| && net.owner[v] != h ==> f(h, v) == 0.0
  }

  /** Terms that only the owner contributes add up the same by host or by node. */
  lemma ByOwner(n: nat, net: Network, f: (nat, nat) -> real)
    requires NetworkShape(net) && |net.owner| == n
    requires forall h: nat :: h < net.hosts ==> OwnOnly(net, f, h)
    ensures Sum(net.hosts, RowSums(n, f)) == Sum(n, AtOwner(net, f))
  {
    SumExchange(net.hosts, n, f);
    forall v: nat | v < n
      ensures ColumnSums(net.hosts, f)(v) == AtOwner(net, f)(v)
    {
      forall h: nat | h < net.hosts && h != net.owner[v]
        ensures ColumnOf(f, v)(h) == 0.0
      {
        assert OwnOnly(net, f, h);
      }
      SumSingle(net.hosts, ColumnOf(f, v), net.owner[v]);
    }
    SumEq(n, ColumnSums(net.hosts, f), AtOwner(net, f));
  }

  ghost function AtOwner(net: Network, f: (nat, nat) -> real): nat -> real {
    (v: nat) => if v < |net.owner| then f(net.owner[v], v) else 0.0
  }

  // ---------- What is decided ----------

  /** What seller c's host has decided for buyer b. */
  ghost function DecidedFor(net: Network, ends: seq<State>, b: nat, c: nat): real {
    if c < |net.owner| && net.owner[c] < |ends| then Deal(ends[net.owner[c]].deals, b, c) else 0.0
  }

  ghost function Decided(net: Network, ends: seq<State>, b: nat): nat -> real {
    (c: nat) => DecidedFor(net, ends, b, c)
  }

  /** The commits for b are the decisions of all sellers' hosts, no more and no less. */
  lemma CreditsAreDecided(net: Network, h: nat, ends: seq<State>, list: seq<ProposedEdge>, b: nat)
    requires NetworkShape(net) && |ends| == net.hosts && ReceivesDecisions(net, h, ends, list) && b in Owned(net, h)
    ensures Credits(list, b) == Sum(|net.owner|, Decided(net, ends, b))
  {
    var n := |net.owner|;
    forall i | 0 <= i < |list|
      ensures list[i].dst < n
    {
      assert ProposedEdge(list[i].src, list[i].dst, list[i].weight) in list;
    }
    CreditsCarried(n, list, b);
    forall c: nat | c < n
      ensures Carried(list, b)(c) == Decided(net, ends, b)(c)
    {
      var d := DecidedFor(net, ends, b, c);
      CarriedOnce(list, b, c, d);
      if IsNoted(ends, net.owner[c], b, c, d) {
        assert ProposedEdge(b, c, d) in list;
      } else {
        assert forall x: real :: !IsNoted(ends, net.owner[c], b, c, x);
      }
    }
    SumEq(n, Carried(list, b), Decided(net, ends, b));
  }

  lemma ProposalsDistinct(list: seq<ProposedEdge>, agents: seq<Agent>)
    requires ProposalBuyers(list, agents) && DistinctKeys(list)
    ensures DistinctPairs(agents)
  {
    forall i: nat, j: nat, i': nat, j': nat | SamePair(agents, i, j, i', j')
      ensures i == i' && j == j'
    {
      assert list[i].src == list[i'].src && list[i].dst == list[i'].dst;
    }
  }

  /** A decision is for the proposal's pair and at most its amount; it is made where the seller is owned. */
  lemma DecisionOk(net: Network, r: Round, h: nat, b: nat, c: nat)
    requires IsRound(net, r) && h < net.hosts && (b, c) in End(r.decide[h]).deals
    ensures c in Owned(net, h) && b < |net.owner|
    ensures (b, c) in End(r.propose[net.owner[b]]).deals
    ensures 0.0 < End(r.decide[h]).deals[(b, c)] <= End(r.propose[net.owner[b]]).deals[(b, c)]
  {
    var run, list := r.decide[h], r.proposals[h];
    assert DecideOn(net, r.propose[h], list, run);
    assert ReceivesProposals(net, h, Ends(r.propose), list);
    ProposalsDistinct(list, run[0].agents);
    DecidePhase(|net.owner|, run);
    hide IsRound, DistinctPairs, Run, SameBuyers;
    var i := ProposalBehind(list, run, b, c);
    assert ProposedEdge(b, c, list[i].weight) == list[i];
    assert list[i] in list;
  }

  /** A decision goes back to a proposal received. */
  lemma ProposalBehind(list: seq<ProposedEdge>, run: seq<State>, b: nat, c: nat) returns (i: nat)
    requires run != [] && ProposalBuyers(list, run[0].agents) && SameBuyers(run[0].agents, End(run).agents)
    requires DealsOk(End(run), Needs(run[0].agents), {}) && (b, c) in End(run).deals
    ensures i < |list| && list[i].src == b && list[i].dst == c && 0.0 < End(run).deals[(b, c)] <= list[i].weight
  {
    var end, needs := End(run), Needs(run[0].agents);
    assert DealOk(end, needs, {}, b, c, end.deals[(b, c)]);
    var j: nat;
    i, j :| Behind(end.agents, i, j, b, c) && i < |needs| && 0.0 < end.deals[(b, c)] <= needs[i];
    assert run[0].agents[i].edges == [Edge(true, list[i].dst)];
  }

  /** Node by node: decided amounts are within the proposed ones. */
  lemma DecidedWithin(net: Network, r: Round, b: nat, c: nat)
    requires IsRound(net, r) && b < |net.owner| && c < |net.owner|
    ensures 0.0 <= DecidedFor(net, Ends(r.decide), b, c) <= Deal(End(r.propose[net.owner[b]]).deals, b, c)
  {
    if (b, c) in End(r.decide[net.owner[c]]).deals {
      DecisionOk(net, r, net.owner[c], b, c);
    } else {
      ProposedPositive(net, r, b, c);
    }
  }

  lemma ProposedPositive(net: Network, r: Round, b: nat, c: nat)
    requires IsRound(net, r) && b < |net.owner|
    ensures Deal(End(r.propose[net.owner[b]]).deals, b, c) >= 0.0
  {
    var h := net.owner[b];
    assert ProposeOn(net, h, r.propose[h]);
    RunAccounts(|net.owner|, Owned(net, h), r.propose[h]);
    if (b, c) in End(r.propose[h]).deals {
      assert DealOk(End(r.propose[h]), Needs(r.propose[h][0].agents), Owned(net, h), b, c, End(r.propose[h]).deals[(b, c)]);
    }
  }

  // ---------- The three results ----------

  /** No buyer ends a round with more than it had or desires. */
  lemma NoOverbuyingInRound(net: Network, r: Round, v: nat)
    requires IsRound(net, r) && v < |net.owner|
    ensures FinalBought(net, r, v) <= if net.desired[v] > StartBought(net, r, v) then net.desired[v] else StartBought(net, r, v)
  {
    var n, h := |net.owner|, net.owner[v];
    RoundShape(net, r, h);
    assert ProposeOn(net, h, r.propose[h]);
    assert DecideOn(net, r.propose[h], r.proposals[h], r.decide[h]);
    assert ReceivesProposals(net, h, Ends(r.propose), r.proposals[h]);
    assert ReceivesDecisions(net, h, Ends(r.decide), r.decisions[h]);
    ProposalsDistinct(r.proposals[h], r.decide[h][0].agents);
    DecidePhase(n, r.decide[h]);
    ProposePhase(n, Owned(net, h), r.propose[h]);
    CreditsAreDecided(net, h, Ends(r.decide), r.decisions[h], v);
    forall c: nat | c < n
      ensures Decided(net, Ends(r.decide), v)(c) <= Row(End(r.propose[h]).deals, v)(c)
    {
      DecidedWithin(net, r, v, c);
    }
    SumLe(n, Decided(net, Ends(r.decide), v), Row(End(r.propose[h]).deals, v));
    var start := r.propose[h][0];
    var i :| 0 <= i < |start.agents| && start.agents[i].buyer == v;
    assert Sated(n, start, End(r.propose[h]), start.agents[i]);
  }

  lemma CreditsPositive(list: seq<ProposedEdge>, b: nat)
    requires forall i :: 0 <= i < |list| ==> list[i].weight > 0.0
    ensures Credits(list, b) >= 0.0
  {
  }

  lemma DecisionsPositive(net: Network, r: Round, h: nat)
    requires IsRound(net, r) && h < net.hosts
    ensures forall i :: 0 <= i < |r.decisions[h]| ==> r.decisions[h][i].weight > 0.0
  {
    var list := r.decisions[h];
    assert ReceivesDecisions(net, h, Ends(r.decide), list);
    forall i | 0 <= i < |list|
      ensures list[i].weight > 0.0
    {
      var e := list[i];
      assert ProposedEdge(e.src, e.dst, e.weight) in list;
      DecisionOk(net, r, net.owner[e.dst], e.src, e.dst);
    }
  }

  /** A node that has sold anything during a round has not sold more than it has bought. */
  lemma NoOversellInRound(net: Network, r: Round, v: nat)
    requires IsRound(net, r) && v < |net.owner|
    ensures FinalSold(net, r, v) == StartSold(net, r, v) || FinalSold(net, r, v) <= FinalBought(net, r, v)
  {
    var n, h := |net.owner|, net.owner[v];
    RoundShape(net, r, h);
    assert ProposeOn(net, h, r.propose[h]);
    assert DecideOn(net, r.propose[h], r.proposals[h], r.decide[h]);
    NoOversell(n, Owned(net, h), r.propose[h], v);
    NoOversell(n, {}, r.decide[h], v);
    RunInv(n, {}, r.decide[h]);
    DecisionsPositive(net, r, h);
    CreditsPositive(r.decisions[h], v);
  }

  // ---------- Conservation ----------

  ghost function ProposeSold(net: Network, r: Round): (nat, nat) -> real
    requires IsRound(net, r)
  {
    (h: nat, v: nat) => if h < net.hosts then RiseIn(Owned(net, h), r.propose[h][0].sold, End(r.propose[h]).sold)(v) else 0.0
  }

  ghost function ProposeBought(net: Network, r: Round): (nat, nat) -> real
    requires IsRound(net, r)
  {
    (h: nat, v: nat) => if h < net.hosts then Rise(r.propose[h][0].bought, End(r.propose[h]).bought)(v) else 0.0
  }

  ghost function DecideSold(net: Network, r: Round): (nat, nat) -> real
    requires IsRound(net, r)
  {
    (h: nat, v: nat) => if h < net.hosts then Rise(r.decide[h][0].sold, End(r.decide[h]).sold)(v) else 0.0
  }

  ghost function Credited(net: Network, r: Round): nat -> real
    requires IsRound(net, r)
  {
    (v: nat) => if v < |net.owner| then Credits(r.decisions[net.owner[v]], v) else 0.0
  }

  /** Trades completed while proposing raise what masters have sold and bought alike. */
  lemma ProposalsConserve(net: Network, r: Round)
    requires IsRound(net, r)
    ensures Sum(|net.owner|, AtOwner(net, ProposeSold(net, r))) == Sum(|net.owner|, AtOwner(net, ProposeBought(net, r)))
  {
    var n := |net.owner|;
    var sold, bought := ProposeSold(net, r), ProposeBought(net, r);
    forall h: nat | h < net.hosts
      ensures RowSums(n, sold)(h) == RowSums(n, bought)(h) && OwnOnly(net, sold, h) && OwnOnly(net, bought, h)
    {
      ProposalsOfHost(net, r, h);
    }
    hide ProposeSold, ProposeBought, IsRound, OwnOnly;
    ByOwner(n, net, sold);
    ByOwner(n, net, bought);
    SumEq(net.hosts, RowSums(n, sold), RowSums(n, bought));
  }

  lemma ProposalsOfHost(net: Network, r: Round, h: nat)
    requires IsRound(net, r) && h < net.hosts
    ensures Sum(|net.owner|, RowOf(ProposeSold(net, r), h)) == Sum(|net.owner|, RowOf(ProposeBought(net, r), h))
    ensures OwnOnly(net, ProposeSold(net, r), h) && OwnOnly(net, ProposeBought(net, r), h)
  {
    var n, sold, bought := |net.owner|, ProposeSold(net, r), ProposeBought(net, r);
    var start, end := r.propose[h][0], End(r.propose[h]);
    assert ProposeOn(net, h, r.propose[h]);
    ProposePhase(n, Owned(net, h), r.propose[h]);
    SumEq(n, RowOf(sold, h), RiseIn(Owned(net, h), start.sold, end.sold));
    SumEq(n, RowOf(bought, h), Rise(start.bought, end.bought));
    forall v: nat | v < n && net.owner[v] != h
      ensures bought(h, v) == 0.0
    {
      assert v !in Owned(net, h);
    }
  }

  ghost function DealsAt(net: Network, r: Round, b: nat): (nat, nat) -> real
    requires IsRound(net, r)
  {
    (h: nat, c: nat) => if h < net.hosts then Deal(End(r.decide[h]).deals, b, c) else 0.0
  }

  ghost function RowsAt(net: Network, r: Round): (nat, nat) -> real
    requires IsRound(net, r)
  {
    (h: nat, b: nat) => if h < net.hosts then RowSum(|net.owner|, End(r.decide[h]).deals, b) else 0.0
  }

  lemma DealsOfOwner(net: Network, r: Round, h: nat, b: nat)
    requires IsRound(net, r) && h < net.hosts
    ensures OwnOnly(net, DealsAt(net, r, b), h)
  {
    forall c: nat | c < |net.owner| && net.owner[c] != h
      ensures DealsAt(net, r, b)(h, c) == 0.0
    {
      if (b, c) in End(r.decide[h]).deals {
        DecisionOk(net, r, h, b, c);
      }
    }
  }

  /** All hosts' decisions for buyer b are what is committed for b. */
  lemma DecisionsForBuyer(net: Network, r: Round, b: nat)
    requires IsRound(net, r) && b < |net.owner|
    ensures Sum(net.hosts, ColumnOf(RowsAt(net, r), b)) == Credited(net, r)(b)
  {
    var n := |net.owner|;
    var f := DealsAt(net, r, b);
    forall h: nat | h < net.hosts
      ensures OwnOnly(net, f, h) && RowsAt(net, r)(h, b) == RowSums(n, f)(h)
    {
      DealsOfOwner(net, r, h, b);
      SumEq(n, Row(End(r.decide[h]).deals, b), RowOf(f, h));
    }
    ByOwner(n, net, f);
    SumEq(net.hosts, ColumnOf(RowsAt(net, r), b), RowSums(n, f));
    var g := net.owner[b];
    assert ReceivesDecisions(net, g, Ends(r.decide), r.decisions[g]);
    CreditsAreDecided(net, g, Ends(r.decide), r.decisions[g], b);
    SumEq(n, AtOwner(net, f), Decided(net, Ends(r.decide), b));
  }

  lemma DecisionsOfHost(net: Network, r: Round, h: nat)
    requires IsRound(net, r) && h < net.hosts
    ensures Sum(|net.owner|, RowOf(DecideSold(net, r), h)) == Sum(|net.owner|, RowOf(RowsAt(net, r), h))
    ensures OwnOnly(net, DecideSold(net, r), h)
  {
    var n, sold, rows := |net.owner|, DecideSold(net, r), RowsAt(net, r);
    var run, list := r.decide[h], r.proposals[h];
    assert DecideOn(net, r.propose[h], list, run);
    assert ReceivesProposals(net, h, Ends(r.propose), list);
    ProposalsDistinct(list, run[0].agents);
    DecidePhase(n, run);
    SumEq(n, RowOf(sold, h), Rise(run[0].sold, End(run).sold));
    SumEq(n, RowOf(rows, h), Rows(n, End(run).deals));
    forall v: nat | v < n && net.owner[v] != h
      ensures sold(h, v) == 0.0
    {
      NotProposedTo(net, h, Ends(r.propose), list, run[0].agents, v);
      Untouched(n, {}, run, v);
    }
  }

  lemma NotProposedTo(net: Network, h: nat, ends: seq<State>, list: seq<ProposedEdge>, agents: seq<Agent>, v: nat)
    requires NetworkShape(net) && ReceivesProposals(net, h, ends, list) && ProposalBuyers(list, agents) && v !in Owned(net, h)
    ensures NobodyDeals(agents, v)
  {
    forall i | 0 <= i < |agents|
      ensures list[i].dst != v
    {
      assert ProposedEdge(list[i].src, list[i].dst, list[i].weight) in list;
    }
  }

  /** Sales decided for buyers elsewhere raise what masters have sold and bought alike. */
  lemma DecisionsConserve(net: Network, r: Round)
    requires IsRound(net, r)
    ensures Sum(|net.owner|, AtOwner(net, DecideSold(net, r))) == Sum(|net.owner|, Credited(net, r))
  {
    var n := |net.owner|;
    var sold, rows := DecideSold(net, r), RowsAt(net, r);
    forall h: nat | h < net.hosts
      ensures RowSums(n, sold)(h) == RowSums(n, rows)(h) && OwnOnly(net, sold, h)
    {
      DecisionsOfHost(net, r, h);
    }
    forall b: nat | b < n
      ensures ColumnSums(net.hosts, rows)(b) == Credited(net, r)(b)
    {
      DecisionsForBuyer(net, r, b);
    }
    hide DecideSold, RowsAt, Credited, IsRound, OwnOnly;
    ByOwner(n, net, sold);
    SumEq(net.hosts, RowSums(n, sold), RowSums(n, rows));
    SumExchange(net.hosts, n, rows);
    SumEq(n, ColumnSums(net.hosts, rows), Credited(net, r));
  }

  ghost function SoldRise(net: Network, r: Round): nat -> real
    requires IsRound(net, r)
  {
    (v: nat) => if v < |net.owner| then FinalSold(net, r, v) - StartSold(net, r, v) else 0.0
  }

  ghost function BoughtRise(net: Network, r: Round): nat -> real
    requires IsRound(net, r)
  {
    (v: nat) => if v < |net.owner| then FinalBought(net, r, v) - StartBought(net, r, v) else 0.0
  }

  /** Over a whole round all masters together have sold exactly as much more as they have bought more. */
  lemma RoundConserves(net: Network, r: Round)
    requires IsRound(net, r)
    ensures Sum(|net.owner|, SoldRise(net, r)) == Sum(|net.owner|, BoughtRise(net, r))
  {
    var n := |net.owner|;
    ProposalsConserve(net, r);
    DecisionsConserve(net, r);
    forall v: nat | v < n
      ensures SoldRise(net, r)(v) == AtOwner(net, ProposeSold(net, r))(v) + AtOwner(net, DecideSold(net, r))(v)
      ensures BoughtRise(net, r)(v) == AtOwner(net, ProposeBought(net, r))(v) + Credited(net, r)(v)
    {
      RisesAtOwner(net, r, v);
    }
    SumAdd(n, AtOwner(net, ProposeSold(net, r)), AtOwner(net, DecideSold(net, r)), SoldRise(net, r));
    SumAdd(n, AtOwner(net, ProposeBought(net, r)), Credited(net, r), BoughtRise(net, r));
  }

  lemma RisesAtOwner(net: Network, r: Round, v: nat)
    requires IsRound(net, r) && v < |net.owner|
    ensures SoldRise(net, r)(v) == AtOwner(net, ProposeSold(net, r))(v) + AtOwner(net, DecideSold(net, r))(v)
    ensures BoughtRise(net, r)(v) == AtOwner(net, ProposeBought(net, r))(v) + Credited(net, r)(v)
  {
    var n, h := |net.owner|, net.owner[v];
    RoundShape(net, r, h);
    assert DecideOn(net, r.propose[h], r.proposals[h], r.decide[h]);
    assert ReceivesProposals(net, h, Ends(r.propose), r.proposals[h]);
    ProposalsDistinct(r.proposals[h], r.decide[h][0].agents);
    DecidePhase(n, r.decide[h]);
    assert v in Owned(net, h);
    var start, middle, end := r.propose[h][0], End(r.propose[h]), End(r.decide[h]);
    assert RiseIn(Owned(net, h), start.sold, middle.sold)(v) == middle.sold[v] - start.sold[v];
    assert ProposeSold(net, r)(h, v) == middle.sold[v] - start.sold[v];
    assert DecideSold(net, r)(h, v) == end.sold[v] - middle.sold[v];
    assert Rise(start.bought, middle.bought)(v) == middle.bought[v] - start.bought[v];
    assert ProposeBought(net, r)(h, v) == middle.bought[v] - start.bought[v];
  }
}
