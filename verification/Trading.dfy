/**
  Conservation of trades and no over-buying, first for the phases on one host and
  then for a whole round of wf4/src/quiesce.cpp: propose, decide, commit.
 */
module Trading {
  import opened Sums
  import opened Reservation

  // ---------- Deals noted for other hosts ----------

  ghost function Deal(deals: map<(nat, nat), real>, b: nat, c: nat): real {
    if (b, c) in deals then deals[(b, c)] else 0.0
  }

  ghost function Row(deals: map<(nat, nat), real>, b: nat): nat -> real {
    (c: nat) => Deal(deals, b, c)
  }

  /** All that buyer b has been promised by sellers elsewhere. */
  ghost function RowSum(n: nat, deals: map<(nat, nat), real>, b: nat): real {
    Sum(n, Row(deals, b))
  }

  ghost function Rows(n: nat, deals: map<(nat, nat), real>): nat -> real {
    (b: nat) => RowSum(n, deals, b)
  }

  ghost function DealSum(n: nat, deals: map<(nat, nat), real>): real {
    Sum(n, Rows(n, deals))
  }

  lemma NewDeal(n: nat, deals: map<(nat, nat), real>, b: nat, c: nat, d: real)
    requires b < n && c < n && (b, c) !in deals
    ensures forall x :: 0 <= x < n ==> RowSum(n, deals[(b, c) := d], x) == RowSum(n, deals, x) + if x == b then d else 0.0
    ensures DealSum(n, deals[(b, c) := d]) == DealSum(n, deals) + d
  {
    var deals' := deals[(b, c) := d];
    forall x | 0 <= x < n
      ensures RowSum(n, deals', x) == RowSum(n, deals, x) + if x == b then d else 0.0
    {
      if x == b {
        SumChange(n, Row(deals, x), Row(deals', x), c);
      } else {
        SumEq(n, Row(deals, x), Row(deals', x));
      }
    }
    SumChange(n, Rows(n, deals), Rows(n, deals'), b);
  }

  lemma NoDeals(n: nat)
    ensures DealSum(n, map[]) == 0.0 && forall b :: 0 <= b < n ==> RowSum(n, map[], b) == 0.0
  {
    forall b | 0 <= b < n
      ensures RowSum(n, map[], b) == 0.0
    {
      SumZero(n, Row(map[], b));
    }
    SumZero(n, Rows(n, map[]));
  }

  // ---------- Accepted and completed trades ----------

  ghost function AcceptedIn(side: set<nat>, log: seq<seq<Add>>): nat -> real {
    (c: nat) => if c < |log| && c in side then Accepted(log[c]) else 0.0
  }

  ghost predicate Committing(side: set<nat>, a: Agent) {
    a.pc.Commit? && a.k < |a.edges| && a.edges[a.k].seller in side
  }

  ghost function CommitIn(side: set<nat>, agents: seq<Agent>): nat -> real {
    (i: nat) => if i < |agents| && Committing(side, agents[i]) then agents[i].pc.d else 0.0
  }

  /** What sellers in `side` have accepted and the buyers have completed. */
  ghost function Completed(n: nat, side: set<nat>, st: State): real {
    Sum(n, AcceptedIn(side, st.log)) - Sum(|st.agents|, CommitIn(side, st.agents))
  }

  lemma StepCompletes(n: nat, s0: seq<real>, local: set<nat>, side: set<nat>, st: State, i: nat, boughtFirst: bool)
    requires Inv(n, s0, st) && i < |st.agents| && !Finished(st.agents[i])
    ensures Completed(n, side, Step(local, st, i, boughtFirst)) ==
      Completed(n, side, st) + if Committing(side, st.agents[i]) then st.agents[i].pc.d else 0.0
  {
    assert AgentShape(n, st.agents[i]);
    StepAcceptedSum(n, s0, local, side, st, i, boughtFirst);
    StepCommitSum(n, local, side, st, i, boughtFirst);
  }

  ghost predicate Accepting(n: nat, side: set<nat>, st: State, i: nat)
    requires Shape(n, st) && i < |st.agents| && AgentShape(n, st.agents[i])
  {
    var a := st.agents[i];
    a.pc.Check? && a.edges[a.k].seller in side && a.pc.seen <= st.bought[a.edges[a.k].seller]
  }

  lemma StepAcceptedSum(n: nat, s0: seq<real>, local: set<nat>, side: set<nat>, st: State, i: nat, boughtFirst: bool)
    requires Inv(n, s0, st) && i < |st.agents| && !Finished(st.agents[i]) && AgentShape(n, st.agents[i])
    ensures Sum(n, AcceptedIn(side, Step(local, st, i, boughtFirst).log)) ==
      Sum(n, AcceptedIn(side, st.log)) + if Accepting(n, side, st, i) then st.agents[i].pc.d else 0.0
  {
    var st' := Step(local, st, i, boughtFirst);
    var a := st.agents[i];
    StepShape(n, local, st, i, boughtFirst);
    var before, after := AcceptedIn(side, st.log), AcceptedIn(side, st'.log);
    hide Step, CopyInv, Accepted;
    forall c: nat | c < n
      ensures after(c) == before(c) + if Accepting(n, side, st, i) && a.edges[a.k].seller == c then a.pc.d else 0.0
    {
      StepAccepts(n, s0, local, st, i, boughtFirst, c);
    }
    if a.k < |a.edges| {
      SumChange(n, before, after, a.edges[a.k].seller);
    } else {
      SumEq(n, before, after);
    }
  }

  lemma StepCommitSum(n: nat, local: set<nat>, side: set<nat>, st: State, i: nat, boughtFirst: bool)
    requires Shape(n, st) && i < |st.agents| && !Finished(st.agents[i]) && AgentShape(n, st.agents[i])
    ensures var agents' := Step(local, st, i, boughtFirst).agents;
      Sum(|agents'|, CommitIn(side, agents')) == Sum(|st.agents|, CommitIn(side, st.agents))
        + (if Accepting(n, side, st, i) then st.agents[i].pc.d else 0.0)
        - (if Committing(side, st.agents[i]) then st.agents[i].pc.d else 0.0)
  {
    var agents' := Step(local, st, i, boughtFirst).agents;
    SumChange(|st.agents|, CommitIn(side, st.agents), CommitIn(side, agents'), i);
  }

  ghost function Rise(from: seq<real>, to: seq<real>): nat -> real {
    (c: nat) => if c < |from| && c < |to| then to[c] - from[c] else 0.0
  }

  /** How much buyers have gained at once by trades completed on this host. */
  ghost predicate Conserved(n: nat, local: set<nat>, b0: seq<real>, st: State) {
    Completed(n, local, st) == Sum(n, Rise(b0, st.bought))
  }

  lemma StepConserves(n: nat, s0: seq<real>, b0: seq<real>, local: set<nat>, st: State, i: nat, boughtFirst: bool)
    requires Inv(n, s0, st) && i < |st.agents| && !Finished(st.agents[i]) && |b0| == n
    requires Conserved(n, local, b0, st)
    ensures Conserved(n, local, b0, Step(local, st, i, boughtFirst))
  {
    StepCompletes(n, s0, local, local, st, i, boughtFirst);
    var st' := Step(local, st, i, boughtFirst);
    var a := st.agents[i];
    assert AgentShape(n, a);
    assert |st.bought| == n;
    hide Inv, Shape;
    if Committing(local, a) {
      SumChange(n, Rise(b0, st.bought), Rise(b0, st'.bought), a.buyer);
    }
  }

  /** The other sellers of a host. */
  ghost function Others(n: nat, local: set<nat>): set<nat> {
    set c: nat | c < n && c !in local
  }

  /** No two purchase edges of this phase join the same buyer and seller. */
  ghost predicate DistinctPairs(agents: seq<Agent>) {
    forall i: nat, j: nat, i': nat, j': nat :: SamePair(agents, i, j, i', j') ==> i == i' && j == j'
  }

  ghost predicate SamePair(agents: seq<Agent>, i: nat, j: nat, i': nat, j': nat) {
    IsPair(agents, i, j) && IsPair(agents, i', j')
    && agents[i].buyer == agents[i'].buyer && agents[i].edges[j].seller == agents[i'].edges[j'].seller
  }

  ghost predicate IsPair(agents: seq<Agent>, i: nat, j: nat) {
    i < |agents| && j < |agents[i].edges| && agents[i].edges[j].purchase
  }

  /** The pair (b, c) is edge j of buyer i, who has dealt with it already. */
  ghost predicate Behind(agents: seq<Agent>, i: nat, j: nat, b: nat, c: nat) {
    IsPair(agents, i, j) && j < agents[i].k && agents[i].buyer == b && agents[i].edges[j].seller == c
  }

  /** A deal is noted only for an edge already dealt with, for a positive amount within the buyer's need. */
  ghost predicate DealOk(st: State, needs: seq<real>, local: set<nat>, b: nat, c: nat, w: real) {
    c !in local && exists i: nat, j: nat :: Behind(st.agents, i, j, b, c) && i < |needs| && 0.0 < w <= needs[i]
  }

  ghost predicate DealsOk(st: State, needs: seq<real>, local: set<nat>) {
    forall b, c :: (b, c) in st.deals ==> DealOk(st, needs, local, b, c, st.deals[(b, c)])
  }

  /** Buyers keep their edges; their needs only shrink. */
  ghost predicate SameBuyers(agents: seq<Agent>, agents': seq<Agent>) {
    |agents| == |agents'| && forall i :: 0 <= i < |agents| ==>
      agents[i].buyer == agents'[i].buyer && agents[i].edges == agents'[i].edges && agents[i].k <= agents'[i].k
      && agents'[i].needed <= agents[i].needed
  }

  lemma StepSameBuyers(n: nat, local: set<nat>, st: State, i: nat, boughtFirst: bool)
    requires Shape(n, st) && i < |st.agents| && !Finished(st.agents[i])
    ensures SameBuyers(st.agents, Step(local, st, i, boughtFirst).agents)
  {
    assert AgentShape(n, st.agents[i]);
  }

  ghost predicate NeedsOk(st: State, needs: seq<real>) {
    |needs| == |st.agents| && forall i :: 0 <= i < |needs| ==> st.agents[i].needed <= needs[i]
  }

  lemma StepDeals(n: nat, local: set<nat>, st: State, needs: seq<real>, i: nat, boughtFirst: bool)
    requires Shape(n, st) && i < |st.agents| && !Finished(st.agents[i])
    requires DealsOk(st, needs, local) && NeedsOk(st, needs)
    ensures DealsOk(Step(local, st, i, boughtFirst), needs, local) && NeedsOk(Step(local, st, i, boughtFirst), needs)
  {
    var st' := Step(local, st, i, boughtFirst);
    var a := st.agents[i];
    assert AgentShape(n, a);
    StepSameBuyers(n, local, st, i, boughtFirst);
    forall b, c | (b, c) in st'.deals
      ensures DealOk(st', needs, local, b, c, st'.deals[(b, c)])
    {
      if (b, c) in st.deals && st'.deals[(b, c)] == st.deals[(b, c)] {
        assert DealOk(st, needs, local, b, c, st.deals[(b, c)]);
        var i1: nat, j1: nat :| Behind(st.agents, i1, j1, b, c) && i1 < |needs| && 0.0 < st.deals[(b, c)] <= needs[i1];
        assert Behind(st'.agents, i1, j1, b, c);
      } else {
        assert Behind(st'.agents, i, a.k, b, c);
      }
    }
  }

  lemma StepDistinct(agents: seq<Agent>, agents': seq<Agent>)
    requires SameBuyers(agents, agents') && DistinctPairs(agents)
    ensures DistinctPairs(agents')
  {
    forall i: nat, j: nat, i': nat, j': nat | SamePair(agents', i, j, i', j')
      ensures i == i' && j == j'
    {
      assert SamePair(agents, i, j, i', j');
    }
  }

  /** Without repeated pairs, the deals noted are exactly the trades completed with sellers elsewhere. */
  ghost predicate Noted(n: nat, local: set<nat>, st: State) {
    Completed(n, Others(n, local), st) == DealSum(n, st.deals)
  }

  lemma StepNotes(n: nat, s0: seq<real>, local: set<nat>, st: State, needs: seq<real>, i: nat, boughtFirst: bool)
    requires Inv(n, s0, st) && i < |st.agents| && !Finished(st.agents[i])
    requires DealsOk(st, needs, local) && DistinctPairs(st.agents) && Noted(n, local, st)
    ensures Noted(n, local, Step(local, st, i, boughtFirst))
  {
    StepCompletes(n, s0, local, Others(n, local), st, i, boughtFirst);
    var a := st.agents[i];
    assert AgentShape(n, a);
    if Committing(Others(n, local), a) {
      var c := a.edges[a.k].seller;
      NotYetNoted(n, st, needs, local, i);
      NewDeal(n, st.deals, a.buyer, c, a.pc.d);
    }
  }

  lemma NotYetNoted(n: nat, st: State, needs: seq<real>, local: set<nat>, i: nat)
    requires DealsOk(st, needs, local) && DistinctPairs(st.agents) && i < |st.agents| && AgentShape(n, st.agents[i])
    requires st.agents[i].pc.Commit?
    ensures (st.agents[i].buyer, st.agents[i].edges[st.agents[i].k].seller) !in st.deals
  {
    var a := st.agents[i];
    var b, c := a.buyer, a.edges[a.k].seller;
    if (b, c) in st.deals {
      assert DealOk(st, needs, local, b, c, st.deals[(b, c)]);
      var i1: nat, j1: nat :| Behind(st.agents, i1, j1, b, c);
      assert SamePair(st.agents, i, a.k, i1, j1);
      assert false;
    }
  }

  // ---------- No over-buying ----------

  ghost predicate DistinctBuyers(agents: seq<Agent>) {
    forall i, j :: 0 <= i < j < |agents| ==> agents[i].buyer != agents[j].buyer
  }

  /** Bought, promised and still needed together never exceed what was bought and needed at first. */
  ghost predicate Within(n: nat, st: State, a: Agent, b0: seq<real>, need0: real)
    requires a.buyer < n == |st.bought| == |b0|
  {
    && st.bought[a.buyer] + RowSum(n, st.deals, a.buyer) + a.needed <= b0[a.buyer] + need0
    && (if need0 <= 0.0 then a.needed == need0 && a.pc == Look else 0.0 <= a.needed)
  }

  ghost predicate NoOverbuying(n: nat, st: State, b0: seq<real>, needs: seq<real>)
    requires Shape(n, st) && |b0| == n && |needs| == |st.agents|
  {
    && (forall i :: 0 <= i < |st.agents| ==> st.agents[i].buyer < n && Within(n, st, st.agents[i], b0, needs[i]))
    && forall b: nat :: b < n && (forall i :: 0 <= i < |st.agents| ==> st.agents[i].buyer != b) ==>
        st.bought[b] == b0[b] && RowSum(n, st.deals, b) == 0.0
  }

  lemma StepBuys(n: nat, local: set<nat>, st: State, i: nat, boughtFirst: bool, x: nat)
    requires Shape(n, st) && i < |st.agents| && !Finished(st.agents[i]) && x < n
    ensures Shape(n, Step(local, st, i, boughtFirst))
    ensures var a, st' := st.agents[i], Step(local, st, i, boughtFirst);
      && (a.buyer != x || !a.pc.Commit? ==> st'.bought[x] == st.bought[x] && RowSum(n, st'.deals, x) == RowSum(n, st.deals, x))
      && (a.buyer == x && a.pc.Commit? ==>
          st'.bought[x] + RowSum(n, st'.deals, x) <= st.bought[x] + RowSum(n, st.deals, x) + a.pc.d)
  {
    var a := st.agents[i];
    assert AgentShape(n, a);
    StepShape(n, local, st, i, boughtFirst);
    if a.pc.Commit? {
      var c := a.edges[a.k].seller;
      if c !in local && (a.buyer, c) !in st.deals {
        NewDeal(n, st.deals, a.buyer, c, a.pc.d);
      }
    }
  }

  lemma StepWithin(n: nat, local: set<nat>, st: State, i: nat, boughtFirst: bool, b0: seq<real>, needs: seq<real>)
    requires Shape(n, st) && i < |st.agents| && !Finished(st.agents[i]) && DistinctBuyers(st.agents)
    requires |b0| == n && |needs| == |st.agents| && NoOverbuying(n, st, b0, needs)
    ensures Shape(n, Step(local, st, i, boughtFirst)) && |Step(local, st, i, boughtFirst).agents| == |needs|
    ensures NoOverbuying(n, Step(local, st, i, boughtFirst), b0, needs)
  {
    hide RowSum;
    var a, st' := st.agents[i], Step(local, st, i, boughtFirst);
    assert AgentShape(n, a);
    StepShape(n, local, st, i, boughtFirst);
    StepSameBuyers(n, local, st, i, boughtFirst);
    forall j | 0 <= j < |st'.agents|
      ensures st'.agents[j].buyer < n && Within(n, st', st'.agents[j], b0, needs[j])
    {
      assert Within(n, st, st.agents[j], b0, needs[j]);
      StepBuys(n, local, st, i, boughtFirst, st.agents[j].buyer);
    }
    forall b: nat | b < n && forall j :: 0 <= j < |st'.agents| ==> st'.agents[j].buyer != b
      ensures st'.bought[b] == b0[b] && RowSum(n, st'.deals, b) == 0.0
    {
      assert forall j :: 0 <= j < |st.agents| ==> st.agents[j].buyer == st'.agents[j].buyer;
      StepBuys(n, local, st, i, boughtFirst, b);
    }
  }

  // ---------- Whole runs of one host ----------

  ghost function Needs(agents: seq<Agent>): (r: seq<real>)
    ensures |r| == |agents| && forall i :: 0 <= i < |r| ==> r[i] == agents[i].needed
  {
    seq(|agents|, (i: nat) requires i < |agents| => agents[i].needed)
  }

  /** What a phase keeps. */
  ghost predicate Accounts(n: nat, local: set<nat>, st0: State, st: State) {
    && Inv(n, st0.sold, st) && Conserved(n, local, st0.bought, st)
    && SameBuyers(st0.agents, st.agents)
    && NeedsOk(st, Needs(st0.agents)) && DealsOk(st, Needs(st0.agents), local)
    && (DistinctPairs(st0.agents) ==> Noted(n, local, st))
    && (DistinctBuyers(st0.agents) && |st0.bought| == n ==> NoOverbuying(n, st, st0.bought, Needs(st0.agents)))
    && (local == {} ==> st.bought == st0.bought)
  }

  lemma FreshAccounts(n: nat, local: set<nat>, st: State)
    requires Fresh(n, st)
    ensures Accounts(n, local, st, st)
  {
    FreshInv(n, st);
    SumZero(n, AcceptedIn(local, st.log));
    SumZero(n, AcceptedIn(Others(n, local), st.log));
    SumZero(|st.agents|, CommitIn(local, st.agents));
    SumZero(|st.agents|, CommitIn(Others(n, local), st.agents));
    SumZero(n, Rise(st.bought, st.bought));
    NoDeals(n);
    forall i | 0 <= i < |st.agents|
      ensures st.agents[i].buyer < n && Within(n, st, st.agents[i], st.bought, st.agents[i].needed)
    {
      assert AgentShape(n, st.agents[i]);
    }
  }

  lemma StepAccounts(n: nat, local: set<nat>, st0: State, st: State, i: nat, boughtFirst: bool)
    requires Accounts(n, local, st0, st) && i < |st.agents| && !Finished(st.agents[i]) && |st0.bought| == n
    ensures Accounts(n, local, st0, Step(local, st, i, boughtFirst))
  {
    var needs := Needs(st0.agents);
    var st' := Step(local, st, i, boughtFirst);
    assert local == {} ==> st'.bought == st.bought;
    assert |st.agents| == |needs|;
    hide Conserved, Noted, DealsOk, NeedsOk, Inv, NoOverbuying, SameBuyers, DistinctPairs, DistinctBuyers, Step;
    StepKeepsInv(n, st0.sold, local, st, i, boughtFirst);
    InvShape(n, st0.sold, st);
    StepConserves(n, st0.sold, st0.bought, local, st, i, boughtFirst);
    StepDeals(n, local, st, needs, i, boughtFirst);
    StepSameBuyers(n, local, st, i, boughtFirst);
    SameTransitive(st0.agents, st.agents, st'.agents);
    if DistinctPairs(st0.agents) {
      StepDistinct(st0.agents, st.agents);
      StepNotes(n, st0.sold, local, st, needs, i, boughtFirst);
    }
    if DistinctBuyers(st0.agents) {
      StepWithin(n, local, st, i, boughtFirst, st0.bought, needs);
    }
  }

  lemma InvShape(n: nat, s0: seq<real>, st: State)
    requires Inv(n, s0, st)
    ensures Shape(n, st)
  {
  }

  lemma SameTransitive(x: seq<Agent>, y: seq<Agent>, z: seq<Agent>)
    requires SameBuyers(x, y) && SameBuyers(y, z)
    ensures SameBuyers(x, z)
    ensures DistinctBuyers(x) ==> DistinctBuyers(y)
  {
  }

  lemma {:induction false} RunAccounts(n: nat, local: set<nat>, run: seq<State>)
    requires Run(n, local, run)
    ensures Accounts(n, local, run[0], run[|run| - 1])
    decreases |run|
  {
    var last := |run| - 1;
    if last == 0 {
      FreshAccounts(n, local, run[0]);
    } else {
      FrontRun(n, local, run);
      RunAccounts(n, local, run[..last]);
      assert StepAt(n, local, run, last - 1);
      var i: nat, boughtFirst: bool :| i < |run[last - 1].agents| && !Finished(run[last - 1].agents[i])
        && run[last] == Step(local, run[last - 1], i, boughtFirst);
      hide Accounts, Step;
      StepAccounts(n, local, run[0], run[last - 1], i, boughtFirst);
    }
  }

  // ---------- What the phases achieve ----------

  ghost function RiseIn(side: set<nat>, from: seq<real>, to: seq<real>): nat -> real {
    (c: nat) => if c in side && c < |from| && c < |to| then to[c] - from[c] else 0.0
  }

  /** At the end of a run nothing is on its way: what sellers accepted is what they have sold more than before. */
  lemma RunCompletes(n: nat, local: set<nat>, run: seq<State>, side: set<nat>)
    requires Run(n, local, run) && AllFinished(run[|run| - 1])
    ensures Completed(n, side, run[|run| - 1]) == Sum(n, RiseIn(side, run[0].sold, run[|run| - 1].sold))
  {
    RunAccounts(n, local, run);
    var end := run[|run| - 1];
    SumZero(|end.agents|, CommitIn(side, end.agents));
    forall c: nat | c < n
      ensures AcceptedIn(side, end.log)(c) == RiseIn(side, run[0].sold, end.sold)(c)
    {
      NoOversell(n, local, run, c);
    }
    SumEq(n, AcceptedIn(side, end.log), RiseIn(side, run[0].sold, end.sold));
  }

  /** What a buyer has bought and is promised is within what it had and needed. */
  ghost predicate Sated(n: nat, start: State, end: State, a: Agent)
    requires a.buyer < n == |start.bought| == |end.bought|
  {
    end.bought[a.buyer] + RowSum(n, end.deals, a.buyer) <= start.bought[a.buyer] + if a.needed > 0.0 then a.needed else 0.0
  }

  /** Proposing: trades on the host are conserved, and no buyer is promised more than it needs. */
  lemma ProposePhase(n: nat, local: set<nat>, run: seq<State>)
    requires Run(n, local, run) && AllFinished(run[|run| - 1]) && DistinctBuyers(run[0].agents)
    ensures Shape(n, run[0]) && Shape(n, run[|run| - 1])
    ensures var start, end := run[0], run[|run| - 1];
      && Sum(n, RiseIn(local, start.sold, end.sold)) == Sum(n, Rise(start.bought, end.bought))
      && (forall i :: 0 <= i < |start.agents| ==> start.agents[i].buyer < n && Sated(n, start, end, start.agents[i]))
      && (forall b: nat :: b < n && (forall i :: 0 <= i < |start.agents| ==> start.agents[i].buyer != b) ==>
          end.bought[b] == start.bought[b] && RowSum(n, end.deals, b) == 0.0)
  {
    var start, end := run[0], run[|run| - 1];
    RunAccounts(n, local, run);
    RunCompletes(n, local, run, local);
    RunInv(n, local, run);
    hide Inv, Noted, DealsOk, RowSum, Run;
    forall i | 0 <= i < |start.agents|
      ensures start.agents[i].buyer < n && Sated(n, start, end, start.agents[i])
    {
      assert Within(n, end, end.agents[i], start.bought, Needs(start.agents)[i]);
    }
    forall b: nat | b < n && forall i :: 0 <= i < |start.agents| ==> start.agents[i].buyer != b
      ensures end.bought[b] == start.bought[b] && RowSum(n, end.deals, b) == 0.0
    {
      assert forall i :: 0 <= i < |end.agents| ==> end.agents[i].buyer == start.agents[i].buyer;
    }
  }

  /** Deciding: every sale is noted for the buyer's host, within what was proposed, and nothing bought changes. */
  lemma DecidePhase(n: nat, run: seq<State>)
    requires Run(n, {}, run) && AllFinished(run[|run| - 1]) && DistinctPairs(run[0].agents)
    ensures Shape(n, run[0]) && Shape(n, run[|run| - 1])
    ensures Sum(n, Rise(run[0].sold, run[|run| - 1].sold)) == DealSum(n, run[|run| - 1].deals)
    ensures run[|run| - 1].bought == run[0].bought
    ensures SameBuyers(run[0].agents, run[|run| - 1].agents)
    ensures DealsOk(run[|run| - 1], Needs(run[0].agents), {})
  {
    RunAccounts(n, {}, run);
    RunCompletes(n, {}, run, Others(n, {}));
    RunInv(n, {}, run);
    var end := run[|run| - 1];
    SumEq(n, RiseIn(Others(n, {}), run[0].sold, end.sold), Rise(run[0].sold, end.sold));
  }

  ghost predicate NobodyDeals(agents: seq<Agent>, c: nat) {
    forall i, j :: 0 <= i < |agents| && 0 <= j < |agents[i].edges| ==> agents[i].edges[j].seller != c
  }

  lemma StepUntouched(n: nat, local: set<nat>, st: State, i: nat, boughtFirst: bool, c: nat)
    requires Shape(n, st) && i < |st.agents| && !Finished(st.agents[i]) && NobodyDeals(st.agents, c) && c < n
    ensures var st' := Step(local, st, i, boughtFirst);
      |st'.sold| == n && st'.sold[c] == st.sold[c] && NobodyDeals(st'.agents, c)
  {
    StepSameBuyers(n, local, st, i, boughtFirst);
  }

  /** Copies nobody deals with keep what they have sold. */
  lemma {:induction false} Untouched(n: nat, local: set<nat>, run: seq<State>, c: nat)
    requires Run(n, local, run) && c < n && NobodyDeals(run[0].agents, c)
    ensures Shape(n, run[0]) && Shape(n, run[|run| - 1]) && run[|run| - 1].sold[c] == run[0].sold[c]
    ensures NobodyDeals(run[|run| - 1].agents, c)
    decreases |run|
  {
    var last := |run| - 1;
    RunInv(n, local, run);
    InvShape(n, run[0].sold, run[last]);
    if last > 0 {
      FrontRun(n, local, run);
      Untouched(n, local, run[..last], c);
      assert StepAt(n, local, run, last - 1);
      var i: nat, boughtFirst: bool :| i < |run[last - 1].agents| && !Finished(run[last - 1].agents[i])
        && run[last] == Step(local, run[last - 1], i, boughtFirst);
      hide Step, NobodyDeals, Inv;
      StepUntouched(n, local, run[last - 1], i, boughtFirst, c);
    }
  }
}
