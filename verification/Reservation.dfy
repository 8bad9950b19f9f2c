/**
  Optimistic reservation on one host, wf4/src/quiesce.cpp: concurrent buyers read
  a seller's surplus, add to what it has sold, check the result against what it
  has bought, and take the addition back when it does not fit.
  A buyer in the first phase walks its purchase edges; in the second phase every
  proposal received from another host is a buyer with one edge.
 */
module Reservation {
  import opened Basics

  datatype Edge = Edge(purchase: bool, seller: nat)

  /** Where a buyer stands with its current edge; the two reads of the surplus may come in either order. */
  datatype Pc =
    | Look
    | Read
    | ReadSold(b: real)
    | ReadBought(s: real)
    | Reserve(d: real)
    | Check(d: real, seen: real)
    | Rollback(d: real)
    | Commit(d: real)

  datatype Agent = Agent(buyer: nat, edges: seq<Edge>, k: nat, needed: real, pc: Pc)

  /** One addition to a seller's `sold` that has not been taken back. */
  datatype Add = Add(agent: nat, delta: real, seen: real, accepted: bool)

  /**
    The copies of all nodes on one host, the buyers at work, the deals noted for
    other hosts by buyer and seller, and for every copy its additions in order.
   */
  datatype State = State(sold: seq<real>, bought: seq<real>, agents: seq<Agent>, deals: map<(nat, nat), real>, log: seq<seq<Add>>)

  // ---------- The steps ----------

  predicate Finished(a: Agent) {
    a.pc == Look && a.k == |a.edges|
  }

  ghost predicate AgentShape(n: nat, a: Agent) {
    && a.buyer < n && a.k <= |a.edges|
    && (forall j :: 0 <= j < |a.edges| ==> a.edges[j].seller < n)
    && (a.pc != Look ==> a.k < |a.edges| && a.edges[a.k].purchase)
    && (a.pc.Reserve? || a.pc.Check? || a.pc.Rollback? || a.pc.Commit? ==> 0.0 < a.pc.d <= a.needed)
  }

  ghost predicate Shape(n: nat, st: State) {
    && |st.sold| == |st.bought| == |st.log| == n
    && forall i :: 0 <= i < |st.agents| ==> AgentShape(n, st.agents[i])
  }

  function NextEdge(a: Agent): Agent {
    a.(k := a.k + 1, pc := Look)
  }

  function WithSurplus(a: Agent, b: real, s: real): Agent {
    var d := Min(a.needed, b - s);
    if d <= 0.0 then NextEdge(a) else a.(pc := Reserve(d))
  }

  /** The buyer after its next step, given its view of the seller. */
  function AgentStep(a: Agent, sold: real, bought: real, boughtFirst: bool): Agent
    requires !(a.pc == Look && a.k >= |a.edges|)
  {
    match a.pc
    case Look => if a.needed <= 0.0 then a.(k := |a.edges|) else if !a.edges[a.k].purchase then NextEdge(a) else a.(pc := Read)
    case Read => if boughtFirst then a.(pc := ReadSold(bought)) else a.(pc := ReadBought(sold))
    case ReadSold(b) => WithSurplus(a, b, sold)
    case ReadBought(s) => WithSurplus(a, bought, s)
    case Reserve(d) => a.(pc := Check(d, sold + d))
    case Check(d, seen) => if seen > bought then a.(pc := Rollback(d)) else a.(pc := Commit(d))
    case Rollback(d) => NextEdge(a)
    case Commit(d) => NextEdge(a).(needed := a.needed - d)
  }

  /** What `sold` of the seller becomes. */
  function SoldStep(a: Agent, sold: real): real {
    match a.pc
    case Reserve(d) => sold + d
    case Rollback(d) => sold - d
    case _ => sold
  }

  ghost function LogStep(a: Agent, i: nat, sold: real, bought: real, log: seq<Add>): seq<Add> {
    match a.pc
    case Reserve(d) => log + [Add(i, d, sold + d, false)]
    case Check(d, seen) => if seen > bought then log else Accept(log, i)
    case Rollback(d) => Drop(log, i)
    case _ => log
  }

  /** The state after a step of buyer i; trades with sellers in `local` complete at once, the others are noted. */
  ghost function Step(local: set<nat>, st: State, i: nat, boughtFirst: bool): State
    requires Shape(|st.sold|, st) && i < |st.agents| && !Finished(st.agents[i])
  {
    var a := st.agents[i];
    if a.k < |a.edges| then
      var c := a.edges[a.k].seller;
      State(st.sold[c := SoldStep(a, st.sold[c])],
            if a.pc.Commit? && c in local then st.bought[a.buyer := st.bought[a.buyer] + a.pc.d] else st.bought,
            st.agents[i := AgentStep(a, st.sold[c], st.bought[c], boughtFirst)],
            if a.pc.Commit? && c !in local && (a.buyer, c) !in st.deals then st.deals[(a.buyer, c) := a.pc.d] else st.deals,
            st.log[c := LogStep(a, i, st.sold[c], st.bought[c], st.log[c])])
    else st
  }

  // ---------- The log of one copy ----------

  ghost function LogSum(log: seq<Add>): real {
    if log == [] then 0.0 else LogSum(log[..|log| - 1]) + log[|log| - 1].delta
  }

  /** What buyer i has added and neither had accepted nor taken back. */
  ghost function Held(log: seq<Add>, i: nat): real {
    if log == [] then 0.0
    else
      var last := log[|log| - 1];
      Held(log[..|log| - 1], i) + if last.agent == i && !last.accepted then last.delta else 0.0
  }

  ghost function Drop(log: seq<Add>, i: nat): seq<Add> {
    if log == [] then []
    else
      var last := log[|log| - 1];
      Drop(log[..|log| - 1], i) + if last.agent == i && !last.accepted then [] else [last]
  }

  ghost function Accept(log: seq<Add>, i: nat): seq<Add> {
    if log == [] then []
    else
      var last := log[|log| - 1];
      Accept(log[..|log| - 1], i) + [if last.agent == i && !last.accepted then last.(accepted := true) else last]
  }

  /** What has been accepted. */
  ghost function Accepted(log: seq<Add>): real {
    if log == [] then 0.0
    else
      var last := log[|log| - 1];
      Accepted(log[..|log| - 1]) + if last.accepted then last.delta else 0.0
  }

  /**
    Every addition saw at least the additions before it that are still there, and
    one that was accepted saw no more than what is bought.
   */
  ghost predicate LogOk(s0: real, bought: real, log: seq<Add>)
    decreases log
  {
    log != [] ==>
      var last := log[|log| - 1];
      && LogOk(s0, bought, log[..|log| - 1])
      && last.delta > 0.0 && last.seen >= s0 + LogSum(log)
      && (last.accepted ==> last.seen <= bought)
  }

  lemma {:induction false} DropOk(s0: real, bought: real, log: seq<Add>, i: nat)
    requires LogOk(s0, bought, log)
    ensures LogOk(s0, bought, Drop(log, i)) && LogSum(Drop(log, i)) == LogSum(log) - Held(log, i)
    ensures Held(log, i) >= 0.0
    ensures Accepted(Drop(log, i)) == Accepted(log)
  {
    if log != [] {
      var front, last := log[..|log| - 1], log[|log| - 1];
      DropOk(s0, bought, front, i);
      assert Drop(front, i) + [] == Drop(front, i);
      if !(last.agent == i && !last.accepted) {
        assert (Drop(front, i) + [last])[..|Drop(front, i)|] == Drop(front, i);
      }
    }
  }

  lemma {:induction false} AcceptOk(s0: real, bought: real, log: seq<Add>, i: nat, seen: real)
    requires LogOk(s0, bought, log) && seen <= bought
    requires forall m :: 0 <= m < |log| && log[m].agent == i && !log[m].accepted ==> log[m].seen == seen
    ensures LogOk(s0, bought, Accept(log, i)) && LogSum(Accept(log, i)) == LogSum(log)
    ensures Accepted(Accept(log, i)) == Accepted(log) + Held(log, i)
  {
    if log != [] {
      var front, last := log[..|log| - 1], log[|log| - 1];
      AcceptOk(s0, bought, front, i, seen);
      var last' := if last.agent == i && !last.accepted then last.(accepted := true) else last;
      assert (Accept(front, i) + [last'])[..|Accept(front, i)|] == Accept(front, i);
    }
  }

  lemma AppendOk(s0: real, bought: real, log: seq<Add>, add: Add)
    requires LogOk(s0, bought, log) && add.delta > 0.0 && !add.accepted && add.seen == s0 + LogSum(log) + add.delta
    ensures LogOk(s0, bought, log + [add]) && LogSum(log + [add]) == LogSum(log) + add.delta
    ensures Accepted(log + [add]) == Accepted(log)
  {
    assert (log + [add])[..|log|] == log;
  }

  lemma {:induction false} HigherBound(s0: real, bought: real, bought': real, log: seq<Add>)
    requires LogOk(s0, bought, log) && bought <= bought'
    ensures LogOk(s0, bought', log)
  {
    if log != [] {
      HigherBound(s0, bought, bought', log[..|log| - 1]);
    }
  }

  /** What another buyer holds is not touched. */
  lemma {:induction false} HeldElsewhere(log: seq<Add>, i: nat, j: nat)
    ensures Held(Drop(log, i), j) == if i == j then 0.0 else Held(log, j)
    ensures Held(Accept(log, i), j) == if i == j then 0.0 else Held(log, j)
  {
    if log != [] {
      var front, last := log[..|log| - 1], log[|log| - 1];
      HeldElsewhere(front, i, j);
      var last' := if last.agent == i && !last.accepted then last.(accepted := true) else last;
      assert (Accept(front, i) + [last'])[..|Accept(front, i)|] == Accept(front, i);
      assert (Drop(front, i) + [last])[..|Drop(front, i)|] == Drop(front, i);
      assert Drop(front, i) + [] == Drop(front, i);
    }
  }

  lemma HeldAppend(log: seq<Add>, add: Add, j: nat)
    requires !add.accepted
    ensures Held(log + [add], j) == Held(log, j) + if add.agent == j then add.delta else 0.0
  {
    assert (log + [add])[..|log|] == log;
  }

  ghost predicate Open(log: seq<Add>, i: nat, seen: real) {
    exists m :: 0 <= m < |log| && log[m].agent == i && !log[m].accepted && log[m].seen == seen
  }

  lemma {:induction false} OpenAfter(log: seq<Add>, i: nat, j: nat, seen: real)
    ensures Open(Drop(log, i), j, seen) <==> i != j && Open(log, j, seen)
    ensures Open(Accept(log, i), j, seen) <==> i != j && Open(log, j, seen)
  {
    if log != [] {
      var front, last := log[..|log| - 1], log[|log| - 1];
      OpenAfter(front, i, j, seen);
      var last' := if last.agent == i && !last.accepted then last.(accepted := true) else last;
      OpenSplit(log, j, seen);
      OpenSplit(Accept(front, i) + [last'], j, seen);
      assert (Accept(front, i) + [last'])[..|Accept(front, i)|] == Accept(front, i);
      OpenSplit(Drop(front, i) + [last], j, seen);
      assert (Drop(front, i) + [last])[..|Drop(front, i)|] == Drop(front, i);
      assert Drop(front, i) + [] == Drop(front, i);
    }
  }

  lemma OpenSplit(log: seq<Add>, j: nat, seen: real)
    requires log != []
    ensures Open(log, j, seen) <==>
      Open(log[..|log| - 1], j, seen) || (log[|log| - 1].agent == j && !log[|log| - 1].accepted && log[|log| - 1].seen == seen)
  {
    var front := log[..|log| - 1];
    if Open(front, j, seen) {
      var m :| 0 <= m < |front| && front[m].agent == j && !front[m].accepted && front[m].seen == seen;
      assert log[m] == front[m];
    }
    if Open(log, j, seen) {
      var m :| 0 <= m < |log| && log[m].agent == j && !log[m].accepted && log[m].seen == seen;
      assert m < |front| ==> front[m] == log[m];
    }
  }

  /** With nothing open, everything that is left has been accepted: the copy is sound. */
  lemma {:induction false} AllAccepted(s0: real, bought: real, log: seq<Add>)
    requires LogOk(s0, bought, log) && forall j: nat, seen: real :: !Open(log, j, seen)
    ensures Accepted(log) == LogSum(log) >= 0.0
    ensures if log == [] then LogSum(log) == 0.0 else LogSum(log) > 0.0 && s0 + LogSum(log) <= bought
  {
    if log != [] {
      var front, last := log[..|log| - 1], log[|log| - 1];
      forall j: nat, seen: real
        ensures !Open(front, j, seen)
      {
        OpenSplit(log, j, seen);
      }
      OpenSplit(log, last.agent, last.seen);
      AllAccepted(s0, bought, front);
    }
  }

  // ---------- The invariant ----------

  /** The buyer has added to copy c and has not yet been accepted nor taken it back. */
  ghost predicate PendingAt(a: Agent, c: nat) {
    (a.pc.Check? || a.pc.Rollback?) && a.k < |a.edges| && a.edges[a.k].seller == c
  }

  ghost function Holds(a: Agent, c: nat): real {
    if PendingAt(a, c) then a.pc.d else 0.0
  }

  ghost predicate Awaits(a: Agent, c: nat, seen: real) {
    PendingAt(a, c) && (a.pc.Check? ==> a.pc.seen == seen)
  }

  /** Copy c has sold what it started with and the additions of its log, whose open entries belong to pending buyers. */
  ghost predicate CopyInv(s0: real, sold: real, bought: real, log: seq<Add>, agents: seq<Agent>, c: nat) {
    && LogOk(s0, bought, log) && sold == s0 + LogSum(log)
    && (forall i: nat :: i < |agents| ==> Held(log, i) == Holds(agents[i], c))
    && (forall j: nat, seen: real :: Open(log, j, seen) ==> j < |agents| && Awaits(agents[j], c, seen))
  }

  ghost predicate Inv(n: nat, s0: seq<real>, st: State) {
    && |s0| == n && Shape(n, st)
    && forall c :: 0 <= c < n ==> CopyInv(s0[c], st.sold[c], st.bought[c], st.log[c], st.agents, c)
  }

  /** The step of buyer i at the copy it deals with. */
  lemma SellerStep(s0: real, sold: real, bought: real, log: seq<Add>, agents: seq<Agent>, c: nat, i: nat, boughtFirst: bool, n: nat)
    requires CopyInv(s0, sold, bought, log, agents, c) && i < |agents| && AgentShape(n, agents[i])
    requires agents[i].k < |agents[i].edges| && agents[i].edges[agents[i].k].seller == c
    ensures CopyInv(s0, SoldStep(agents[i], sold), bought, LogStep(agents[i], i, sold, bought, log),
                    agents[i := AgentStep(agents[i], sold, bought, boughtFirst)], c)
  {
    var a := agents[i];
    var a' := AgentStep(a, sold, bought, boughtFirst);
    var agents', log' := agents[i := a'], LogStep(a, i, sold, bought, log);
    assert Held(log, i) == Holds(a, c);
    forall seen: real | Open(log, i, seen)
      ensures Awaits(a, c, seen)
    {
    }
    hide LogOk, LogSum, Held, Accepted, LogStep, SoldStep, Open;
    SellerLog(s0, sold, bought, log, a, c, i, n);
    forall j: nat | j < |agents'|
      ensures Held(log', j) == Holds(agents'[j], c)
    {
      OthersHeld(s0, sold, bought, log, a, c, i, j);
      assert Held(log, j) == Holds(agents[j], c);
    }
    forall j: nat, seen: real | Open(log', j, seen)
      ensures j < |agents'| && Awaits(agents'[j], c, seen)
    {
      OthersOpen(s0, sold, bought, log, a, c, i, j, seen);
    }
  }

  lemma SellerLog(s0: real, sold: real, bought: real, log: seq<Add>, a: Agent, c: nat, i: nat, n: nat)
    requires LogOk(s0, bought, log) && sold == s0 + LogSum(log) && AgentShape(n, a)
    requires a.k < |a.edges| && a.edges[a.k].seller == c
    requires Held(log, i) == Holds(a, c) && forall seen: real :: Open(log, i, seen) ==> Awaits(a, c, seen)
    ensures LogOk(s0, bought, LogStep(a, i, sold, bought, log))
    ensures SoldStep(a, sold) == s0 + LogSum(LogStep(a, i, sold, bought, log))
    ensures Accepted(LogStep(a, i, sold, bought, log)) ==
      Accepted(log) + if a.pc.Check? && a.pc.seen <= bought then a.pc.d else 0.0
  {
    match a.pc
    case Reserve(d) => AppendOk(s0, bought, log, Add(i, d, sold + d, false));
    case Check(d, seen) =>
      if seen <= bought {
        forall m | 0 <= m < |log| && log[m].agent == i && !log[m].accepted
          ensures log[m].seen == seen
        {
          assert Open(log, i, log[m].seen);
        }
        AcceptOk(s0, bought, log, i, seen);
      }
    case Rollback(d) => DropOk(s0, bought, log, i);
    case _ =>
  }

  lemma OthersHeld(s0: real, sold: real, bought: real, log: seq<Add>, a: Agent, c: nat, i: nat, j: nat)
    requires a.k < |a.edges| && a.edges[a.k].seller == c && Held(log, i) == Holds(a, c)
    ensures Held(LogStep(a, i, sold, bought, log), j) == if i != j then Held(log, j)
      else if a.pc.Reserve? then a.pc.d
      else if a.pc.Check? && a.pc.seen > bought then a.pc.d else 0.0
  {
    hide Held, Drop, Accept;
    HeldElsewhere(log, i, j);
    match a.pc
    case Reserve(d) => HeldAppend(log, Add(i, d, sold + d, false), j);
    case _ =>
  }

  lemma OthersOpen(s0: real, sold: real, bought: real, log: seq<Add>, a: Agent, c: nat, i: nat, j: nat, seen: real)
    requires a.k < |a.edges| && a.edges[a.k].seller == c
    requires Open(log, i, seen) ==> Awaits(a, c, seen)
    requires Open(LogStep(a, i, sold, bought, log), j, seen)
    ensures i != j ==> Open(log, j, seen)
    ensures i == j && a.pc.Reserve? ==> seen == sold + a.pc.d
    ensures i == j && !a.pc.Reserve? ==> a.pc.Check? && a.pc.seen > bought
  {
    OpenAfter(log, i, j, seen);
    match a.pc
    case Reserve(d) =>
      var log' := log + [Add(i, d, sold + d, false)];
      OpenSplit(log', j, seen);
      assert log'[..|log'| - 1] == log;
    case _ =>
  }

  /** A copy the step does not touch, but for a possible rise of what it has bought. */
  lemma OtherCopy(s0: real, sold: real, bought: real, bought': real, log: seq<Add>, agents: seq<Agent>, c: nat, i: nat, a': Agent)
    requires CopyInv(s0, sold, bought, log, agents, c) && bought <= bought' && i < |agents|
    requires forall seen: real :: Awaits(agents[i], c, seen) <==> Awaits(a', c, seen)
    requires Holds(agents[i], c) == Holds(a', c)
    ensures CopyInv(s0, sold, bought', log, agents[i := a'], c)
  {
    HigherBound(s0, bought, bought', log);
    forall j: nat, seen: real | Open(log, j, seen)
      ensures j < |agents| && Awaits(agents[i := a'][j], c, seen)
    {
      assert Awaits(agents[j], c, seen);
    }
  }

  lemma StepShape(n: nat, local: set<nat>, st: State, i: nat, boughtFirst: bool)
    requires Shape(n, st) && i < |st.agents| && !Finished(st.agents[i])
    ensures Shape(n, Step(local, st, i, boughtFirst))
    ensures forall c :: 0 <= c < n ==> st.bought[c] <= Step(local, st, i, boughtFirst).bought[c]
  {
    var st' := Step(local, st, i, boughtFirst);
    var a := st.agents[i];
    assert AgentShape(n, a);
    forall j | 0 <= j < |st'.agents|
      ensures AgentShape(n, st'.agents[j])
    {
      if j != i {
        assert AgentShape(n, st.agents[j]);
      }
    }
  }

  /** Every step keeps the invariant, whichever buyer takes it. */
  lemma StepKeepsInv(n: nat, s0: seq<real>, local: set<nat>, st: State, i: nat, boughtFirst: bool)
    requires Inv(n, s0, st) && i < |st.agents| && !Finished(st.agents[i])
    ensures Inv(n, s0, Step(local, st, i, boughtFirst))
    ensures forall c :: 0 <= c < n ==> st.bought[c] <= Step(local, st, i, boughtFirst).bought[c]
  {
    var st' := Step(local, st, i, boughtFirst);
    StepShape(n, local, st, i, boughtFirst);
    var a := st.agents[i];
    assert AgentShape(n, a);
    if a.k < |a.edges| {
      var s := a.edges[a.k].seller;
      forall c | 0 <= c < n
        ensures CopyInv(s0[c], st'.sold[c], st'.bought[c], st'.log[c], st'.agents, c)
      {
        assert CopyInv(s0[c], st.sold[c], st.bought[c], st.log[c], st.agents, c);
        StepAtCopy(n, s0, local, st, i, boughtFirst, c);
      }
    }
  }

  lemma StepAtCopy(n: nat, s0: seq<real>, local: set<nat>, st: State, i: nat, boughtFirst: bool, c: nat)
    requires Shape(n, st) && |s0| == n && i < |st.agents| && c < n && st.agents[i].k < |st.agents[i].edges|
    requires CopyInv(s0[c], st.sold[c], st.bought[c], st.log[c], st.agents, c)
    requires AgentShape(n, st.agents[i])
    ensures var st' := Step(local, st, i, boughtFirst);
      c < |st'.sold| && c < |st'.bought| && c < |st'.log| && CopyInv(s0[c], st'.sold[c], st'.bought[c], st'.log[c], st'.agents, c)
  {
    var st' := Step(local, st, i, boughtFirst);
    var a := st.agents[i];
    var s := a.edges[a.k].seller;
    hide CopyInv;
    if c == s {
      SellerStep(s0[c], st.sold[c], st.bought[c], st.log[c], st.agents, c, i, boughtFirst, n);
      SameAgent(s0[c], st'.sold[c], st.bought[c], st'.bought[c], st'.log[c], st'.agents, c);
    } else {
      OtherCopy(s0[c], st.sold[c], st.bought[c], st'.bought[c], st.log[c], st.agents, c, i, st'.agents[i]);
    }
  }

  lemma SameAgent(s0: real, sold: real, bought: real, bought': real, log: seq<Add>, agents: seq<Agent>, c: nat)
    requires CopyInv(s0, sold, bought, log, agents, c) && bought <= bought'
    ensures CopyInv(s0, sold, bought', log, agents, c)
  {
    HigherBound(s0, bought, bought', log);
  }

  // ---------- Whole runs ----------

  /** Buyers that have not started; nothing has been added or noted. */
  ghost predicate Fresh(n: nat, st: State) {
    && Shape(n, st) && st.deals == map[]
    && (forall i :: 0 <= i < |st.agents| ==> st.agents[i].k == 0 && st.agents[i].pc == Look)
    && forall c :: 0 <= c < n ==> st.log[c] == []
  }

  /** A run takes steps of any unfinished buyers in any order. */
  ghost predicate Run(n: nat, local: set<nat>, run: seq<State>) {
    && run != [] && Fresh(n, run[0])
    && forall m: nat :: m + 1 < |run| ==> StepAt(n, local, run, m)
  }

  ghost predicate StepAt(n: nat, local: set<nat>, run: seq<State>, m: nat)
    requires m + 1 < |run|
  {
    Shape(n, run[m]) && SomeStep(local, run[m], run[m + 1])
  }

  ghost predicate SomeStep(local: set<nat>, st: State, st': State)
    requires Shape(|st.sold|, st)
  {
    exists i: nat, boughtFirst: bool :: i < |st.agents| && !Finished(st.agents[i]) && st' == Step(local, st, i, boughtFirst)
  }

  ghost predicate AllFinished(st: State) {
    forall i :: 0 <= i < |st.agents| ==> Finished(st.agents[i])
  }

  lemma FreshInv(n: nat, st: State)
    requires Fresh(n, st)
    ensures Inv(n, st.sold, st)
  {
    forall c | 0 <= c < n
      ensures CopyInv(st.sold[c], st.sold[c], st.bought[c], st.log[c], st.agents, c)
    {
      assert forall j: nat, seen: real :: !Open([], j, seen);
    }
  }

  lemma FrontRun(n: nat, local: set<nat>, run: seq<State>)
    requires Run(n, local, run) && |run| > 1
    ensures Run(n, local, run[..|run| - 1])
  {
    var front := run[..|run| - 1];
    forall m: nat | m + 1 < |front|
      ensures StepAt(n, local, front, m)
    {
      assert StepAt(n, local, run, m);
    }
  }

  /** Every state of every run satisfies the invariant, and nothing bought is ever taken back. */
  lemma {:induction false} RunInv(n: nat, local: set<nat>, run: seq<State>)
    requires Run(n, local, run)
    ensures Inv(n, run[0].sold, run[|run| - 1]) && Shape(n, run[0])
    ensures forall c :: 0 <= c < n ==> run[0].bought[c] <= run[|run| - 1].bought[c]
    decreases |run|
  {
    var last := |run| - 1;
    if last == 0 {
      FreshInv(n, run[0]);
    } else {
      var front := run[..last];
      FrontRun(n, local, run);
      RunInv(n, local, front);
      assert StepAt(n, local, run, last - 1);
      var i: nat, boughtFirst: bool :| i < |run[last - 1].agents| && !Finished(run[last - 1].agents[i])
        && run[last] == Step(local, run[last - 1], i, boughtFirst);
      StepKeepsInv(n, run[0].sold, local, run[last - 1], i, boughtFirst);
    }
  }

  /** At the end of every run a copy that accepted a trade has sold no more than it has bought; the others are unchanged. */
  lemma NoOversell(n: nat, local: set<nat>, run: seq<State>, c: nat)
    requires Run(n, local, run) && AllFinished(run[|run| - 1]) && c < n
    ensures Shape(n, run[0]) && Shape(n, run[|run| - 1])
    ensures var end := run[|run| - 1];
      if Accepted(end.log[c]) > 0.0 then end.sold[c] <= end.bought[c] else end.sold[c] == run[0].sold[c]
    ensures run[|run| - 1].sold[c] == run[0].sold[c] + Accepted(run[|run| - 1].log[c])
    ensures Accepted(run[|run| - 1].log[c]) >= 0.0
  {
    RunInv(n, local, run);
    var end := run[|run| - 1];
    assert CopyInv(run[0].sold[c], end.sold[c], end.bought[c], end.log[c], end.agents, c);
    forall j: nat, seen: real
      ensures !Open(end.log[c], j, seen)
    {
    }
    AllAccepted(run[0].sold[c], end.bought[c], end.log[c]);
  }

  /** What a step adds to what copy c has accepted. */
  lemma StepAccepts(n: nat, s0: seq<real>, local: set<nat>, st: State, i: nat, boughtFirst: bool, c: nat)
    requires Inv(n, s0, st) && i < |st.agents| && !Finished(st.agents[i]) && c < n
    ensures Shape(n, Step(local, st, i, boughtFirst))
    ensures var a := st.agents[i];
      Accepted(Step(local, st, i, boughtFirst).log[c]) ==
      Accepted(st.log[c]) + if a.pc.Check? && a.edges[a.k].seller == c && a.pc.seen <= st.bought[c] then a.pc.d else 0.0
  {
    StepShape(n, local, st, i, boughtFirst);
    var a := st.agents[i];
    assert AgentShape(n, a);
    if a.k < |a.edges| && a.edges[a.k].seller == c {
      assert CopyInv(s0[c], st.sold[c], st.bought[c], st.log[c], st.agents, c);
      forall seen: real | Open(st.log[c], i, seen)
        ensures Awaits(a, c, seen)
      {
      }
      assert Held(st.log[c], i) == Holds(a, c);
      SellerLog(s0[c], st.sold[c], st.bought[c], st.log[c], a, c, i, n);
    }
  }
}
