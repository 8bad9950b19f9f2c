/**
  The only buyer in need on a host, wf4/src/quiesce.cpp: the concurrent protocol
  then comes down to a plain walk over the purchase edges that takes what there is.
 */
module LoneBuyer {
  import opened Basics
  import opened Sums
  import opened Reservation
  import opened Trading
  import opened Outcomes

  // ---------- The plain walk ----------

  datatype Books = Books(sold: seq<real>, bought: seq<real>, deals: map<(nat, nat), real>, needed: real)

  ghost predicate BooksShape(n: nat, b: nat, x: Books) {
    |x.sold| == |x.bought| == n && b < n
  }

  /** Buyer b takes d from seller c. */
  ghost function Take(local: set<nat>, b: nat, c: nat, d: real, x: Books): Books
    requires b < |x.bought| && c < |x.sold|
  {
    Books(x.sold[c := x.sold[c] + d], Pay(local, b, c, d, x.bought), Note(local, b, c, d, x.deals), x.needed - d)
  }

  ghost function Pay(local: set<nat>, b: nat, c: nat, d: real, bought: seq<real>): (r: seq<real>)
    requires b < |bought|
    ensures |r| == |bought|
  {
    if c in local then bought[b := bought[b] + d] else bought
  }

  ghost function Note(local: set<nat>, b: nat, c: nat, d: real, deals: map<(nat, nat), real>): map<(nat, nat), real> {
    if c !in local && (b, c) !in deals then deals[(b, c) := d] else deals
  }

  /** Buyer b takes what it can get from seller c. */
  ghost function Trade(n: nat, local: set<nat>, b: nat, c: nat, x: Books): (r: Books)
    requires BooksShape(n, b, x) && c < n
    ensures BooksShape(n, b, r)
  {
    var d := Gain(x.needed, x.bought[c] - x.sold[c]);
    if d > 0.0 then Take(local, b, c, d, x) else x
  }

  /** The walk over the edges from the k-th on. */
  ghost function Walk(n: nat, local: set<nat>, b: nat, edges: seq<Edge>, k: nat, x: Books): (r: Books)
    requires BooksShape(n, b, x) && k <= |edges| && forall j :: 0 <= j < |edges| ==> edges[j].seller < n
    ensures BooksShape(n, b, r)
    decreases |edges| - k
  {
    if k == |edges| then x
    else Walk(n, local, b, edges, k + 1, if edges[k].purchase then Trade(n, local, b, edges[k].seller, x) else x)
  }

  lemma {:induction false} NothingToWalkFor(n: nat, local: set<nat>, b: nat, edges: seq<Edge>, k: nat, x: Books)
    requires BooksShape(n, b, x) && k <= |edges| && forall j :: 0 <= j < |edges| ==> edges[j].seller < n
    requires x.needed <= 0.0
    ensures Walk(n, local, b, edges, k, x) == x
    decreases |edges| - k
  {
    if k < |edges| {
      NothingToWalkFor(n, local, b, edges, k + 1, x);
    }
  }

  lemma WalkNext(n: nat, local: set<nat>, b: nat, edges: seq<Edge>, k: nat, x: Books)
    requires BooksShape(n, b, x) && k < |edges| && forall j :: 0 <= j < |edges| ==> edges[j].seller < n
    ensures Walk(n, local, b, edges, k, x) ==
      Walk(n, local, b, edges, k + 1, if edges[k].purchase then Trade(n, local, b, edges[k].seller, x) else x)
  {
  }

  // ---------- The protocol does the walk ----------

  /** All buyers but the i-th have no need. */
  ghost predicate OthersIdle(agents: seq<Agent>, i: nat) {
    forall x :: 0 <= x < |agents| && x != i ==> agents[x].needed <= 0.0 && agents[x].pc == Look
  }

  /** What buyer a has read is still true. */
  ghost predicate UpToDate(a: Agent, sold: real, bought: real) {
    match a.pc
    case Look => true
    case Read => a.needed > 0.0
    case ReadSold(b) => a.needed > 0.0 && b == bought
    case ReadBought(s) => a.needed > 0.0 && s == sold
    case Reserve(d) => 0.0 < d == Gain(a.needed, bought - sold)
    case Check(d, seen) => seen == sold <= bought
    case Rollback(_) => false
    case Commit(_) => true
  }

  ghost predicate Alone(n: nat, st: State, i: nat) {
    && Shape(n, st) && i < |st.agents| && OthersIdle(st.agents, i)
    && (st.agents[i].k < |st.agents[i].edges| ==>
        var c := st.agents[i].edges[st.agents[i].k].seller;
        c < n && UpToDate(st.agents[i], st.sold[c], st.bought[c]))
  }

  /** What buyer i has on its books once the visit it is on is over. */
  ghost function AfterVisit(local: set<nat>, st: State, a: Agent): Books
    requires a.buyer < |st.bought|
  {
    if (a.pc.Check? || a.pc.Commit?) && a.k < |a.edges| then
      var c := a.edges[a.k].seller;
      Books(st.sold, Pay(local, a.buyer, c, a.pc.d, st.bought), Note(local, a.buyer, c, a.pc.d, st.deals), a.needed - a.pc.d)
    else Books(st.sold, st.bought, st.deals, a.needed)
  }

  /** What the plain walk would make of the rest. */
  ghost function Rest(n: nat, local: set<nat>, st: State, a: Agent): Books
    requires AgentShape(n, a) && |st.sold| == |st.bought| == n
  {
    Walk(n, local, a.buyer, a.edges, if a.pc.Check? || a.pc.Commit? then a.k + 1 else a.k, AfterVisit(local, st, a))
  }

  lemma IdleStep(n: nat, local: set<nat>, st: State, i: nat, x: nat, boughtFirst: bool)
    requires Alone(n, st, i) && x < |st.agents| && x != i && !Finished(st.agents[x])
    ensures var st' := Step(local, st, x, boughtFirst);
      && Alone(n, st', i) && st'.agents[i] == st.agents[i]
      && st'.sold == st.sold && st'.bought == st.bought && st'.deals == st.deals
  {
    assert AgentShape(n, st.agents[x]) && AgentShape(n, st.agents[i]);
    StepShape(n, local, st, x, boughtFirst);
    var a := st.agents[x];
    assert st.sold[a.edges[a.k].seller := st.sold[a.edges[a.k].seller]] == st.sold;
  }

  lemma OwnStepStays(n: nat, local: set<nat>, st: State, i: nat, boughtFirst: bool)
    requires Alone(n, st, i) && !Finished(st.agents[i]) && AgentShape(n, st.agents[i])
    ensures var st' := Step(local, st, i, boughtFirst);
      Alone(n, st', i) && AgentShape(n, st'.agents[i]) && |st'.sold| == |st'.bought| == n
  {
    StepShape(n, local, st, i, boughtFirst);
    var st' := Step(local, st, i, boughtFirst);
    assert AgentShape(n, st'.agents[i]);
  }

  /** The step of the buyer in need leaves the rest of its walk as it is. */
  lemma OwnStepAlone(n: nat, local: set<nat>, st: State, i: nat, boughtFirst: bool)
    requires Alone(n, st, i) && !Finished(st.agents[i]) && AgentShape(n, st.agents[i])
    ensures var st' := Step(local, st, i, boughtFirst);
      && Alone(n, st', i) && AgentShape(n, st'.agents[i]) && |st'.sold| == |st'.bought| == n
      && Rest(n, local, st', st'.agents[i]) == Rest(n, local, st, st.agents[i])
  {
    hide OthersIdle, Rest;
    OwnStepStays(n, local, st, i, boughtFirst);
    OwnStepRest(n, local, st, Step(local, st, i, boughtFirst), i, st.agents[i], boughtFirst);
  }

  lemma OwnStepRest(n: nat, local: set<nat>, st: State, st': State, i: nat, a: Agent, boughtFirst: bool)
    requires |st.sold| == |st.bought| == |st'.sold| == |st'.bought| == n && AgentShape(n, a) && a.k < |a.edges|
    requires var c := a.edges[a.k].seller;
      && UpToDate(a, st.sold[c], st.bought[c])
      && st'.sold == st.sold[c := SoldStep(a, st.sold[c])]
      && st'.bought == (if a.pc.Commit? && c in local then st.bought[a.buyer := st.bought[a.buyer] + a.pc.d] else st.bought)
      && st'.deals == (if a.pc.Commit? && c !in local && (a.buyer, c) !in st.deals then st.deals[(a.buyer, c) := a.pc.d] else st.deals)
      && AgentShape(n, AgentStep(a, st.sold[c], st.bought[c], boughtFirst))
    ensures Rest(n, local, st', AgentStep(a, st.sold[a.edges[a.k].seller], st.bought[a.edges[a.k].seller], boughtFirst))
      == Rest(n, local, st, a)
  {
    hide Walk;
    var c := a.edges[a.k].seller;
    assert st.sold[c := st.sold[c]] == st.sold;
    WalkNext(n, local, a.buyer, a.edges, a.k, AfterVisit(local, st, a));
    if a.pc == Look && a.needed <= 0.0 {
      NothingToWalkFor(n, local, a.buyer, a.edges, a.k, AfterVisit(local, st, a));
      NothingToWalkFor(n, local, a.buyer, a.edges, |a.edges|, AfterVisit(local, st, a));
    }
  }

  lemma {:induction false} RunRest(n: nat, local: set<nat>, run: seq<State>, i: nat)
    requires Run(n, local, run) && i < |run[0].agents| && OthersIdle(run[0].agents, i)
    ensures Shape(n, run[0]) && Shape(n, run[|run| - 1]) && i < |run[|run| - 1].agents|
    ensures AgentShape(n, run[0].agents[i]) && AgentShape(n, run[|run| - 1].agents[i])
    ensures Alone(n, run[|run| - 1], i)
    ensures Rest(n, local, run[|run| - 1], run[|run| - 1].agents[i]) == Rest(n, local, run[0], run[0].agents[i])
    decreases |run|
  {
    assert AgentShape(n, run[0].agents[i]);
    if |run| > 1 {
      var x, boughtFirst := LastStep(n, local, run);
      hide Step, Rest, Alone, Run, AgentShape;
      RunRest(n, local, run[..|run| - 1], i);
      if x == i {
        OwnStepAlone(n, local, run[|run| - 2], i, boughtFirst);
        AloneShape(n, run[|run| - 1], i);
      } else {
        IdleStep(n, local, run[|run| - 2], i, x, boughtFirst);
        AloneShape(n, run[|run| - 1], i);
        SameRest(n, local, run[|run| - 2], run[|run| - 1], run[|run| - 1].agents[i]);
      }
    }
  }

  lemma AloneShape(n: nat, st: State, i: nat)
    requires Alone(n, st, i)
    ensures Shape(n, st) && |st.sold| == |st.bought| == n && AgentShape(n, st.agents[i])
  {
  }

  lemma SameRest(n: nat, local: set<nat>, st: State, st': State, a: Agent)
    requires AgentShape(n, a) && |st.sold| == |st.bought| == n
    requires st'.sold == st.sold && st'.bought == st.bought && st'.deals == st.deals
    ensures Rest(n, local, st', a) == Rest(n, local, st, a)
  {
  }

  /** The books at the end of a run in which only buyer i is in need are those of the plain walk. */
  lemma LoneWalk(n: nat, local: set<nat>, run: seq<State>, i: nat)
    requires Run(n, local, run) && AllFinished(run[|run| - 1]) && i < |run[0].agents| && OthersIdle(run[0].agents, i)
    ensures Shape(n, run[0]) && Shape(n, run[|run| - 1]) && AgentShape(n, run[0].agents[i]) && i < |run[|run| - 1].agents|
    ensures var start, end, a := run[0], run[|run| - 1], run[0].agents[i];
      Books(end.sold, end.bought, end.deals, end.agents[i].needed)
      == Walk(n, local, a.buyer, a.edges, 0, Books(start.sold, start.bought, map[], a.needed))
  {
    RunRest(n, local, run, i);
  }

  // ---------- One seller ----------

  lemma {:induction false} WalkToOne(n: nat, local: set<nat>, b: nat, edges: seq<Edge>, k: nat, x: Books, j: nat)
    requires BooksShape(n, b, x) && k <= |edges| && forall m :: 0 <= m < |edges| ==> edges[m].seller < n
    requires j < |edges| && forall m :: 0 <= m < |edges| ==> (edges[m].purchase <==> m == j)
    ensures Walk(n, local, b, edges, k, x) == if k <= j then Trade(n, local, b, edges[j].seller, x) else x
    decreases |edges| - k
  {
    if k < |edges| {
      WalkToOne(n, local, b, edges, k + 1, if edges[k].purchase then Trade(n, local, b, edges[k].seller, x) else x, j);
    }
  }

  /** The only purchase edge of buyer a goes to seller c. */
  ghost predicate OneSeller(edges: seq<Edge>, j: nat, c: nat) {
    j < |edges| && edges[j].seller == c && forall m :: 0 <= m < |edges| ==> (edges[m].purchase <==> m == j)
  }

  /**
    The only buyer in need, with one purchase edge to another node, takes the
    smaller of its need and the surplus: the seller has sold that much more, and the
    buyer has bought it, or it is noted for the seller's host. Nothing else changes.
   */
  lemma LoneBuyerTrades(n: nat, local: set<nat>, run: seq<State>, i: nat, j: nat, c: nat)
    requires Run(n, local, run) && AllFinished(run[|run| - 1]) && i < |run[0].agents| && OthersIdle(run[0].agents, i)
    requires OneSeller(run[0].agents[i].edges, j, c)
    ensures Shape(n, run[0]) && Shape(n, run[|run| - 1]) && AgentShape(n, run[0].agents[i]) && c < n
    ensures var start, end, b := run[0], run[|run| - 1], run[0].agents[i].buyer;
      var need, surplus := run[0].agents[i].needed, start.bought[c] - start.sold[c];
      var d := if need <= 0.0 || surplus <= 0.0 then 0.0 else if need <= surplus then need else surplus;
      && end.sold == start.sold[c := start.sold[c] + d]
      && end.bought == (if c in local then start.bought[b := start.bought[b] + d] else start.bought)
      && end.deals == (if d > 0.0 && c !in local then map[(b, c) := d] else map[])
  {
    LoneWalk(n, local, run, i);
    var start, a := run[0], run[0].agents[i];
    var x := Books(start.sold, start.bought, map[], a.needed);
    WalkToOne(n, local, a.buyer, a.edges, 0, x, j);
    assert start.sold[c := start.sold[c] + 0.0] == start.sold;
    assert start.bought[a.buyer := start.bought[a.buyer] + 0.0] == start.bought;
  }

  // ---------- Several sellers ----------

  /** What the sellers from the k-th edge on have to offer. */
  ghost function Supply(n: nat, edges: seq<Edge>, k: nat, sold: seq<real>, bought: seq<real>): (r: real)
    requires |sold| == |bought| == n && k <= |edges| && forall j :: 0 <= j < |edges| ==> edges[j].seller < n
    ensures r >= 0.0
    decreases |edges| - k
  {
    if k == |edges| then 0.0
    else
      var c := edges[k].seller;
      (if edges[k].purchase && bought[c] > sold[c] then bought[c] - sold[c] else 0.0) + Supply(n, edges, k + 1, sold, bought)
  }

  /** The purchase edges lead to different nodes, none of them the buyer itself. */
  ghost predicate DistinctSellers(edges: seq<Edge>, b: nat) {
    && (forall j :: 0 <= j < |edges| && edges[j].purchase ==> edges[j].seller != b)
    && forall j, k :: 0 <= j < k < |edges| && edges[j].purchase && edges[k].purchase ==> edges[j].seller != edges[k].seller
  }

  lemma {:induction false} SupplyElsewhere(n: nat, edges: seq<Edge>, k: nat, x: Books, y: Books)
    requires |x.sold| == |x.bought| == |y.sold| == |y.bought| == n && k <= |edges|
    requires forall j :: 0 <= j < |edges| ==> edges[j].seller < n
    requires forall j :: k <= j < |edges| && edges[j].purchase ==>
      x.sold[edges[j].seller] == y.sold[edges[j].seller] && x.bought[edges[j].seller] == y.bought[edges[j].seller]
    ensures Supply(n, edges, k, x.sold, x.bought) == Supply(n, edges, k, y.sold, y.bought)
    decreases |edges| - k
  {
    if k < |edges| {
      SupplyElsewhere(n, edges, k + 1, x, y);
    }
  }

  lemma {:induction false} WalkGains(n: nat, local: set<nat>, b: nat, edges: seq<Edge>, k: nat, x: Books)
    requires BooksShape(n, b, x) && k <= |edges| && forall j :: 0 <= j < |edges| ==> edges[j].seller < n
    requires DistinctSellers(edges, b)
    ensures Walk(n, local, b, edges, k, x).needed == x.needed - Gain(x.needed, Supply(n, edges, k, x.sold, x.bought))
    decreases |edges| - k
  {
    if k < |edges| {
      var y := if edges[k].purchase then Trade(n, local, b, edges[k].seller, x) else x;
      SupplyElsewhere(n, edges, k + 1, x, y);
      WalkGains(n, local, b, edges, k + 1, y);
    }
  }

  /** The only buyer in need ends with what it needs, or with all that its sellers had to offer. */
  lemma LoneBuyerServed(n: nat, local: set<nat>, run: seq<State>, i: nat)
    requires Run(n, local, run) && AllFinished(run[|run| - 1]) && i < |run[0].agents| && OthersIdle(run[0].agents, i)
    requires DistinctBuyers(run[0].agents) && DistinctSellers(run[0].agents[i].edges, run[0].agents[i].buyer)
    ensures Shape(n, run[0]) && Shape(n, run[|run| - 1]) && AgentShape(n, run[0].agents[i])
    ensures var start, end, a := run[0], run[|run| - 1], run[0].agents[i];
      end.bought[a.buyer] + RowSum(n, end.deals, a.buyer)
      == start.bought[a.buyer] + Gain(a.needed, Supply(n, a.edges, 0, start.sold, start.bought))
  {
    LoneWalk(n, local, run, i);
    var start, a := run[0], run[0].agents[i];
    WalkGains(n, local, a.buyer, a.edges, 0, Books(start.sold, start.bought, map[], a.needed));
    RunBalances(n, local, run, i);
    NoDeals(n);
  }
}
