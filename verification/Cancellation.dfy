/**
  Cancelling nodes, wf4/src/quiesce.cpp: on every host concurrent tasks, one per
  cancelled node, take the amounts of its trades off the partners; a partner owned
  elsewhere collects them in its mirror, which starts from zero, and the mirrors
  are then added to the master.
 */
module Cancellation {
  import opened Basics
  import opened Sums

  datatype Kind = Sale | Purchase | Other

  datatype Edge = Edge(kind: Kind, partner: nat, amount: real)

  /** Nodes with their owners and their edges, which only the owner holds. */
  datatype Network = Network(hosts: nat, owner: seq<nat>, edges: seq<seq<Edge>>)

  ghost predicate NetworkShape(net: Network) {
    && |net.edges| == |net.owner|
    && (forall v :: 0 <= v < |net.owner| ==> net.owner[v] < net.hosts)
    && forall v :: 0 <= v < |net.edges| ==> EdgesShape(|net.owner|, net.edges[v])
  }

  ghost predicate EdgesShape(n: nat, edges: seq<Edge>) {
    forall k :: 0 <= k < |edges| ==> edges[k].partner < n && edges[k].amount >= 0.0
  }

  /** The amounts of the first m edges of the given kind that go to v. */
  ghost function Amount(edges: seq<Edge>, m: nat, kind: Kind, v: nat): real
    requires m <= |edges|
  {
    if m == 0 then 0.0
    else Amount(edges, m - 1, kind, v) + if edges[m - 1].kind == kind && edges[m - 1].partner == v then edges[m - 1].amount else 0.0
  }

  lemma {:induction false} AmountPositive(n: nat, edges: seq<Edge>, m: nat, kind: Kind, v: nat)
    requires EdgesShape(n, edges) && m <= |edges|
    ensures Amount(edges, m, kind, v) >= 0.0
  {
    if m > 0 {
      AmountPositive(n, edges, m - 1, kind, v);
    }
  }

  // ---------- One host ----------

  datatype Pc = Start | Look | Clamp | Subtract

  datatype Task = Task(node: nat, k: nat, pc: Pc)

  /** What partners have bought or sold, by node, and which of these have been flagged for the exchange. */
  datatype Ledger = Ledger(values: seq<real>, flagged: set<nat>)

  ghost predicate TaskShape(net: Network, h: nat, t: Task)
    requires NetworkShape(net)
  {
    && t.node < |net.owner| && t.k <= |net.edges[t.node]|
    && (t.pc == Start ==> t.k == 0)
    && (t.pc == Clamp || t.pc == Subtract ==> t.k < |net.edges[t.node]| && net.edges[t.node][t.k].kind != Other)
    && (t.pc == Clamp ==> net.owner[net.edges[t.node][t.k].partner] != h)
    && (t.pc != Start && net.owner[t.node] != h ==> t.k == |net.edges[t.node]| && t.pc == Look)
  }

  /** What task t has taken off partner v of the given kind. */
  ghost function Taken(net: Network, h: nat, kind: Kind, v: nat, t: Task): real
    requires NetworkShape(net)
  {
    if t.node < |net.owner| && net.owner[t.node] == h && t.k <= |net.edges[t.node]| then Amount(net.edges[t.node], t.k, kind, v) else 0.0
  }

  ghost function TakenBy(net: Network, h: nat, kind: Kind, v: nat, tasks: seq<Task>): nat -> real
    requires NetworkShape(net)
  {
    (i: nat) => if i < |tasks| then Taken(net, h, kind, v, tasks[i]) else 0.0
  }

  ghost function TakenOff(net: Network, h: nat, kind: Kind, v: nat, tasks: seq<Task>): real
    requires NetworkShape(net)
  {
    Sum(|tasks|, TakenBy(net, h, kind, v, tasks))
  }

  /** The target of the edge that task t is at, if it is of the given kind. */
  ghost predicate At(net: Network, t: Task, kind: Kind, v: nat)
    requires NetworkShape(net)
  {
    t.node < |net.edges| && t.k < |net.edges[t.node]| && net.edges[t.node][t.k].kind == kind && net.edges[t.node][t.k].partner == v
  }

  ghost predicate Hit(e: Edge, kind: Kind, v: nat) {
    e.kind == kind && e.partner == v
  }

  /** Task t has taken something off partner v. */
  ghost predicate HasTaken(net: Network, h: nat, kind: Kind, v: nat, t: Task)
    requires NetworkShape(net)
  {
    && t.node < |net.owner| && net.owner[t.node] == h && t.k <= |net.edges[t.node]|
    && exists k :: 0 <= k < t.k && Hit(net.edges[t.node][k], kind, v)
  }

  ghost predicate SomeTaken(net: Network, h: nat, kind: Kind, v: nat, tasks: seq<Task>)
    requires NetworkShape(net)
  {
    exists i :: 0 <= i < |tasks| && HasTaken(net, h, kind, v, tasks[i])
  }

  /** Task t has clamped the mirror of partner v and not yet subtracted from it. */
  ghost predicate HasClamped(net: Network, kind: Kind, v: nat, t: Task)
    requires NetworkShape(net)
  {
    t.pc == Subtract && At(net, t, kind, v)
  }

  ghost predicate SomeClamped(net: Network, kind: Kind, v: nat, tasks: seq<Task>)
    requires NetworkShape(net)
  {
    exists i :: 0 <= i < |tasks| && HasClamped(net, kind, v, tasks[i])
  }

  /** What is left of the start: all of a master, and of a mirror until it is clamped. */
  ghost function Base(master: bool, clamped: bool, start: real): real {
    if clamped && !master then Min(start, 0.0) else start
  }

  /** A partner is flagged once something is taken off. A master loses just that; a mirror too, but from zero or below. */
  ghost predicate PartnerInv(net: Network, h: nat, start: real, value: real, flagged: bool, taken: real, hit: bool, clamped: bool, v: nat)
    requires v < |net.owner|
  {
    && (flagged <==> hit)
    && value == Base(net.owner[v] == h, hit || clamped, start) - taken
    && taken >= 0.0 && (!hit ==> taken == 0.0)
  }

  ghost predicate LedgerInv(net: Network, h: nat, cancelled: set<nat>, kind: Kind, start: seq<real>, l: Ledger, tasks: seq<Task>)
    requires NetworkShape(net)
  {
    && |start| == |l.values| == |net.owner|
    && forall v: nat :: v < |net.owner| && v !in cancelled ==>
        PartnerInv(net, h, start[v], l.values[v], v in l.flagged, TakenOff(net, h, kind, v, tasks),
                   SomeTaken(net, h, kind, v, tasks), SomeClamped(net, kind, v, tasks), v)
  }

  /** The task after its step. */
  ghost function NextTask(net: Network, h: nat, present: set<nat>, t: Task): Task
    requires NetworkShape(net) && TaskShape(net, h, t)
  {
    var edges := net.edges[t.node];
    match t.pc
    case Start => if t.node in present && net.owner[t.node] == h then t.(pc := Look) else Task(t.node, |edges|, Look)
    case Look =>
      if t.k == |edges| then t
      else if edges[t.k].kind == Other then t.(k := t.k + 1)
      else if net.owner[edges[t.k].partner] == h then t.(pc := Subtract) else t.(pc := Clamp)
    case Clamp => t.(pc := Subtract)
    case Subtract => Task(t.node, t.k + 1, Look)
  }

  /** The ledger of the given kind after the step of task t. */
  ghost function NextLedger(net: Network, h: nat, present: set<nat>, kind: Kind, t: Task, l: Ledger): Ledger
    requires NetworkShape(net) && TaskShape(net, h, t) && |l.values| == |net.owner|
  {
    match t.pc
    case Start => if t.node in present then l.(values := l.values[t.node := 0.0]) else l
    case Look => l
    case Clamp =>
      var e := net.edges[t.node][t.k];
      if e.kind == kind then l.(values := l.values[e.partner := Min(l.values[e.partner], 0.0)]) else l
    case Subtract =>
      var e := net.edges[t.node][t.k];
      if e.kind == kind then Ledger(l.values[e.partner := l.values[e.partner] - e.amount], l.flagged + {e.partner}) else l
  }

  lemma TakenChanges(net: Network, h: nat, present: set<nat>, kind: Kind, v: nat, tasks: seq<Task>, i: nat)
    requires NetworkShape(net) && i < |tasks| && TaskShape(net, h, tasks[i])
    requires kind != Other && (tasks[i].node in present || net.owner[tasks[i].node] != h)
    ensures TakenOff(net, h, kind, v, tasks[i := NextTask(net, h, present, tasks[i])]) ==
      TakenOff(net, h, kind, v, tasks)
      + if tasks[i].pc == Subtract && At(net, tasks[i], kind, v) then net.edges[tasks[i].node][tasks[i].k].amount else 0.0
  {
    var after := tasks[i := NextTask(net, h, present, tasks[i])];
    SumChange(|tasks|, TakenBy(net, h, kind, v, tasks), TakenBy(net, h, kind, v, after), i);
  }

  lemma SomeTakenChanges(net: Network, h: nat, present: set<nat>, kind: Kind, v: nat, tasks: seq<Task>, i: nat)
    requires NetworkShape(net) && i < |tasks| && TaskShape(net, h, tasks[i])
    requires kind != Other && (tasks[i].node in present || net.owner[tasks[i].node] != h)
    ensures SomeTaken(net, h, kind, v, tasks[i := NextTask(net, h, present, tasks[i])]) <==>
      SomeTaken(net, h, kind, v, tasks) || HasClamped(net, kind, v, tasks[i])
  {
    var t, t' := tasks[i], NextTask(net, h, present, tasks[i]);
    TaskTakes(net, h, present, kind, v, t);
    var after := tasks[i := t'];
    hide HasTaken, HasClamped, NextTask;
    if SomeTaken(net, h, kind, v, tasks) {
      var j :| 0 <= j < |tasks| && HasTaken(net, h, kind, v, tasks[j]);
      assert HasTaken(net, h, kind, v, after[j]);
    }
    if SomeTaken(net, h, kind, v, after) {
      var j :| 0 <= j < |after| && HasTaken(net, h, kind, v, after[j]);
      assert j != i ==> HasTaken(net, h, kind, v, tasks[j]);
    }
    if HasClamped(net, kind, v, t) {
      assert HasTaken(net, h, kind, v, after[i]);
    }
  }

  lemma TaskTakes(net: Network, h: nat, present: set<nat>, kind: Kind, v: nat, t: Task)
    requires NetworkShape(net) && TaskShape(net, h, t) && kind != Other && (t.node in present || net.owner[t.node] != h)
    ensures HasTaken(net, h, kind, v, NextTask(net, h, present, t)) <==> HasTaken(net, h, kind, v, t) || HasClamped(net, kind, v, t)
  {
    var t' := NextTask(net, h, present, t);
    if HasTaken(net, h, kind, v, t) {
      var k :| 0 <= k < t.k && Hit(net.edges[t.node][k], kind, v);
      assert k < t'.k;
    } else if HasClamped(net, kind, v, t) {
      assert Hit(net.edges[t.node][t.k], kind, v) && t'.k == t.k + 1;
    }
  }

  lemma SomeClampedChanges(net: Network, h: nat, present: set<nat>, kind: Kind, v: nat, tasks: seq<Task>, i: nat)
    requires NetworkShape(net) && i < |tasks| && TaskShape(net, h, tasks[i]) && v < |net.owner| && net.owner[v] != h
    ensures var t, after := tasks[i], tasks[i := NextTask(net, h, present, tasks[i])];
      && (SomeClamped(net, kind, v, after) ==> SomeClamped(net, kind, v, tasks) || (t.pc == Clamp && At(net, t, kind, v)))
      && (SomeClamped(net, kind, v, tasks) ==> SomeClamped(net, kind, v, after) || HasClamped(net, kind, v, t))
      && (t.pc == Clamp && At(net, t, kind, v) ==> SomeClamped(net, kind, v, after))
  {
    var t, after := tasks[i], tasks[i := NextTask(net, h, present, tasks[i])];
    if SomeClamped(net, kind, v, after) {
      var j :| 0 <= j < |after| && HasClamped(net, kind, v, after[j]);
      assert j != i ==> HasClamped(net, kind, v, tasks[j]);
    }
    if SomeClamped(net, kind, v, tasks) {
      var j :| 0 <= j < |tasks| && HasClamped(net, kind, v, tasks[j]);
      assert j != i ==> HasClamped(net, kind, v, after[j]);
    }
    if t.pc == Clamp && At(net, t, kind, v) {
      assert HasClamped(net, kind, v, after[i]);
    }
  }

  /** Every step of every task keeps the books. */
  lemma StepKeepsLedger(net: Network, h: nat, present: set<nat>, cancelled: set<nat>, kind: Kind, start: seq<real>, l: Ledger,
                        tasks: seq<Task>, i: nat)
    requires NetworkShape(net) && LedgerInv(net, h, cancelled, kind, start, l, tasks) && kind != Other
    requires i < |tasks| && TaskShape(net, h, tasks[i]) && tasks[i].node in cancelled
    requires tasks[i].node in present || net.owner[tasks[i].node] != h
    ensures var t := tasks[i];
      LedgerInv(net, h, cancelled, kind, start, NextLedger(net, h, present, kind, t, l), tasks[i := NextTask(net, h, present, t)])
    ensures TaskShape(net, h, NextTask(net, h, present, tasks[i]))
  {
    hide SomeTaken, SomeClamped, TakenOff;
    var t := tasks[i];
    var l', tasks' := NextLedger(net, h, present, kind, t, l), tasks[i := NextTask(net, h, present, t)];
    forall v: nat | v < |net.owner| && v !in cancelled
      ensures PartnerInv(net, h, start[v], l'.values[v], v in l'.flagged, TakenOff(net, h, kind, v, tasks'),
                         SomeTaken(net, h, kind, v, tasks'), SomeClamped(net, kind, v, tasks'), v)
    {
      PartnerStep(net, h, present, kind, start, l, tasks, i, v);
    }
  }

  lemma PartnerStep(net: Network, h: nat, present: set<nat>, kind: Kind, start: seq<real>, l: Ledger, tasks: seq<Task>, i: nat, v: nat)
    requires NetworkShape(net) && kind != Other && |start| == |l.values| == |net.owner|
    requires i < |tasks| && TaskShape(net, h, tasks[i]) && v < |net.owner| && tasks[i].node != v
    requires tasks[i].node in present || net.owner[tasks[i].node] != h
    requires PartnerInv(net, h, start[v], l.values[v], v in l.flagged, TakenOff(net, h, kind, v, tasks),
                        SomeTaken(net, h, kind, v, tasks), SomeClamped(net, kind, v, tasks), v)
    ensures var l', tasks' := NextLedger(net, h, present, kind, tasks[i], l), tasks[i := NextTask(net, h, present, tasks[i])];
      PartnerInv(net, h, start[v], l'.values[v], v in l'.flagged, TakenOff(net, h, kind, v, tasks'),
                 SomeTaken(net, h, kind, v, tasks'), SomeClamped(net, kind, v, tasks'), v)
  {
    hide TakenOff, SomeTaken, SomeClamped;
    var t := tasks[i];
    assert EdgesShape(|net.owner|, net.edges[t.node]);
    TakenChanges(net, h, present, kind, v, tasks, i);
    SomeTakenChanges(net, h, present, kind, v, tasks, i);
    if net.owner[v] != h {
      SomeClampedChanges(net, h, present, kind, v, tasks, i);
    }
    if HasClamped(net, kind, v, tasks[i]) {
      ClampedShows(net, kind, v, tasks, i);
    }
  }

  lemma ClampedShows(net: Network, kind: Kind, v: nat, tasks: seq<Task>, i: nat)
    requires NetworkShape(net) && i < |tasks| && HasClamped(net, kind, v, tasks[i])
    ensures SomeClamped(net, kind, v, tasks)
  {
  }

  // ---------- Running the tasks of a host ----------

  predicate Finished(net: Network, t: Task)
    requires t.node < |net.edges|
  {
    t.pc == Look && t.k == |net.edges[t.node]|
  }

  ghost function StepsLeft(net: Network, h: nat, tasks: seq<Task>): nat -> int
    requires NetworkShape(net)
  {
    (i: nat) => if i < |tasks| && TaskShape(net, h, tasks[i]) then
                  4 * (|net.edges[tasks[i].node]| - tasks[i].k) + Phase(tasks[i].pc) else 0
  }

  ghost function Phase(pc: Pc): int {
    match pc
    case Start => 1
    case Look => 0
    case Clamp => -1
    case Subtract => -2
  }

  ghost predicate TasksShape(net: Network, h: nat, nodes: seq<nat>, tasks: seq<Task>)
    requires NetworkShape(net)
  {
    |tasks| == |nodes| && forall i :: 0 <= i < |tasks| ==> TaskShape(net, h, tasks[i]) && tasks[i].node == nodes[i]
  }

  lemma StepShortens(net: Network, h: nat, present: set<nat>, nodes: seq<nat>, tasks: seq<Task>, i: nat)
    requires NetworkShape(net) && TasksShape(net, h, nodes, tasks) && i < |tasks| && !Finished(net, tasks[i])
    ensures var tasks' := tasks[i := NextTask(net, h, present, tasks[i])];
      && TasksShape(net, h, nodes, tasks')
      && 0 <= Total(|tasks'|, StepsLeft(net, h, tasks')) < Total(|tasks|, StepsLeft(net, h, tasks))
  {
    var tasks' := tasks[i := NextTask(net, h, present, tasks[i])];
    TotalChange(|tasks|, StepsLeft(net, h, tasks), StepsLeft(net, h, tasks'), i);
    TotalNonneg(|tasks|, StepsLeft(net, h, tasks'));
  }

  ghost function Members(nodes: seq<nat>): set<nat> {
    set v | v in nodes
  }

  ghost function StartTasks(nodes: seq<nat>): (r: seq<Task>)
    ensures |r| == |nodes| && forall i :: 0 <= i < |r| ==> r[i] == Task(nodes[i], 0, Start)
  {
    seq(|nodes|, (i: nat) requires i < |nodes| => Task(nodes[i], 0, Start))
  }

  /** What host h takes off partner v for all the nodes on the list that it owns. */
  ghost function RemovedBy(net: Network, h: nat, nodes: seq<nat>, kind: Kind, v: nat): nat -> real
    requires NetworkShape(net)
  {
    (i: nat) => if i < |nodes| && nodes[i] < |net.owner| && net.owner[nodes[i]] == h
                then Amount(net.edges[nodes[i]], |net.edges[nodes[i]]|, kind, v) else 0.0
  }

  ghost function Removed(net: Network, h: nat, nodes: seq<nat>, kind: Kind, v: nat): real
    requires NetworkShape(net)
  {
    Sum(|nodes|, RemovedBy(net, h, nodes, kind, v))
  }

  /** A node on the list that host h owns trades with v. */
  ghost predicate Trades(net: Network, h: nat, nodes: seq<nat>, kind: Kind, v: nat)
    requires NetworkShape(net)
  {
    exists i, k :: 0 <= i < |nodes| && nodes[i] < |net.owner| && net.owner[nodes[i]] == h
      && 0 <= k < |net.edges[nodes[i]]| && Hit(net.edges[nodes[i]][k], kind, v)
  }

  /**
    Every partner's books on host h once all tasks are finished: exactly the
    partners of listed nodes are flagged, and the copies of other nodes are as they were.
   */
  ghost predicate HostDone(net: Network, h: nat, nodes: seq<nat>, kind: Kind, start: seq<real>, values: seq<real>, flagged: set<nat>)
    requires NetworkShape(net)
  {
    && |start| == |values| == |net.owner|
    && forall v: nat :: v < |net.owner| && v !in nodes ==> BooksDone(net, h, nodes, kind, start[v], values[v], v in flagged, v)
  }

  ghost predicate BooksDone(net: Network, h: nat, nodes: seq<nat>, kind: Kind, start: real, value: real, flagged: bool, v: nat)
    requires NetworkShape(net) && v < |net.owner|
  {
    && (flagged <==> Trades(net, h, nodes, kind, v))
    && value == Base(net.owner[v] == h, flagged, start) - Removed(net, h, nodes, kind, v)
    && (!flagged ==> Removed(net, h, nodes, kind, v) == 0.0)
  }

  lemma StartLedger(net: Network, h: nat, cancelled: set<nat>, nodes: seq<nat>, kind: Kind, start: seq<real>)
    requires NetworkShape(net) && |start| == |net.owner|
    ensures LedgerInv(net, h, cancelled, kind, start, Ledger(start, {}), StartTasks(nodes))
  {
    forall v: nat | v < |net.owner|
      ensures TakenOff(net, h, kind, v, StartTasks(nodes)) == 0.0
    {
      SumZero(|nodes|, TakenBy(net, h, kind, v, StartTasks(nodes)));
    }
  }

  lemma EndLedger(net: Network, h: nat, nodes: seq<nat>, kind: Kind, start: seq<real>, l: Ledger, tasks: seq<Task>)
    requires NetworkShape(net) && TasksShape(net, h, nodes, tasks)
    requires LedgerInv(net, h, Members(nodes), kind, start, l, tasks)
    requires forall i :: 0 <= i < |tasks| ==> Finished(net, tasks[i])
    ensures HostDone(net, h, nodes, kind, start, l.values, l.flagged)
  {
    forall v: nat | v < |net.owner| && v !in nodes
      ensures BooksDone(net, h, nodes, kind, start[v], l.values[v], v in l.flagged, v)
    {
      SumEq(|tasks|, TakenBy(net, h, kind, v, tasks), RemovedBy(net, h, nodes, kind, v));
      TakenIsTrades(net, h, nodes, kind, tasks, v);
      assert !SomeClamped(net, kind, v, tasks);
    }
  }

  lemma TakenIsTrades(net: Network, h: nat, nodes: seq<nat>, kind: Kind, tasks: seq<Task>, v: nat)
    requires NetworkShape(net) && TasksShape(net, h, nodes, tasks)
    requires forall i :: 0 <= i < |tasks| ==> Finished(net, tasks[i])
    ensures SomeTaken(net, h, kind, v, tasks) <==> Trades(net, h, nodes, kind, v)
  {
    if SomeTaken(net, h, kind, v, tasks) {
      var i :| 0 <= i < |tasks| && HasTaken(net, h, kind, v, tasks[i]);
      var k :| 0 <= k < tasks[i].k && Hit(net.edges[tasks[i].node][k], kind, v);
      assert nodes[i] == tasks[i].node;
    }
    if Trades(net, h, nodes, kind, v) {
      var i, k :| 0 <= i < |nodes| && nodes[i] < |net.owner| && net.owner[nodes[i]] == h
        && 0 <= k < |net.edges[nodes[i]]| && Hit(net.edges[nodes[i]][k], kind, v);
      assert tasks[i].node == nodes[i] && Finished(net, tasks[i]);
      assert HasTaken(net, h, kind, v, tasks[i]);
    }
  }

  // ---------- What the tasks do to `desired` ----------

  /** Some task has cleared v. */
  ghost predicate Begun(tasks: seq<Task>, v: nat) {
    exists i :: 0 <= i < |tasks| && tasks[i].node == v && tasks[i].pc != Start
  }

  ghost predicate DesiredInv(present: set<nat>, start: seq<real>, desired: seq<real>, tasks: seq<Task>) {
    && |desired| == |start|
    && forall v: nat :: v < |start| ==> desired[v] == if v in present && Begun(tasks, v) then 0.0 else start[v]
  }

  lemma StepKeepsDesired(net: Network, h: nat, present: set<nat>, start: seq<real>, desired: seq<real>, desired': seq<real>,
                         tasks: seq<Task>, i: nat)
    requires NetworkShape(net) && i < |tasks| && TaskShape(net, h, tasks[i]) && tasks[i].node < |start|
    requires DesiredInv(present, start, desired, tasks)
    requires desired' == if tasks[i].pc == Start && tasks[i].node in present then desired[tasks[i].node := 0.0] else desired
    ensures DesiredInv(present, start, desired', tasks[i := NextTask(net, h, present, tasks[i])])
  {
    var t, tasks' := tasks[i], tasks[i := NextTask(net, h, present, tasks[i])];
    forall v: nat | v < |start|
      ensures Begun(tasks', v) <==> Begun(tasks, v) || t.node == v
    {
      if Begun(tasks, v) {
        var j :| 0 <= j < |tasks| && tasks[j].node == v && tasks[j].pc != Start;
        assert tasks'[j].node == v && tasks'[j].pc != Start;
      }
      if t.node == v {
        assert tasks'[i].node == v && tasks'[i].pc != Start;
      }
    }
    if t.pc != Start {
      assert Begun(tasks, t.node);
    }
  }

  lemma EndDesired(net: Network, h: nat, nodes: seq<nat>, present: set<nat>, start: seq<real>, desired: seq<real>, tasks: seq<Task>)
    requires NetworkShape(net) && TasksShape(net, h, nodes, tasks) && DesiredInv(present, start, desired, tasks)
    requires forall i :: 0 <= i < |tasks| ==> Finished(net, tasks[i])
    ensures forall v: nat :: v < |start| ==> desired[v] == if v in nodes && v in present then 0.0 else start[v]
  {
    forall v: nat | v < |start|
      ensures Begun(tasks, v) <==> v in nodes
    {
      if v in nodes {
        var i :| 0 <= i < |nodes| && nodes[i] == v;
        assert tasks[i].node == v;
      }
    }
  }

  class Host {
    const sold: array<real>
    const bought: array<real>
    const desired: array<real>
    var flaggedSold: set<nat>
    var flaggedBought: set<nat>

    constructor (n: nat)
      ensures fresh(sold) && fresh(bought) && fresh(desired) && Valid(n)
    {
      sold, bought, desired := new real[n](_ => 0.0), new real[n](_ => 0.0), new real[n](_ => 0.0);
      flaggedSold, flaggedBought := {}, {};
    }

    ghost predicate Valid(n: nat) {
      && sold.Length == bought.Length == desired.Length == n
      && sold != bought && sold != desired && bought != desired
    }

    /** Sales of a cancelled node are taken off what the partner has bought, purchases off what it has sold. */
    ghost function Book(kind: Kind): Ledger
      reads this, sold, bought
    {
      if kind == Sale then Ledger(bought[..], flaggedBought) else Ledger(sold[..], flaggedSold)
    }

    /** The amounts the copies start with. */
    method Load(sold0: seq<real>, bought0: seq<real>, desired0: seq<real>)
      requires Valid(|sold0|) && |sold0| == |bought0| == |desired0|
      modifies sold, bought, desired
      ensures sold[..] == sold0 && bought[..] == bought0 && desired[..] == desired0
    {
      for v := 0 to |sold0|
        invariant sold[..v] == sold0[..v] && bought[..v] == bought0[..v] && desired[..v] == desired0[..v]
      {
        sold[v], bought[v], desired[v] := sold0[v], bought0[v], desired0[v];
      }
    }

    /** Clears a node. */
    method Cancel(v: nat)
      requires Valid(sold.Length) && v < sold.Length
      modifies sold, bought, desired
      ensures sold[..] == old(sold[..])[v := 0.0] && bought[..] == old(bought[..])[v := 0.0]
      ensures desired[..] == old(desired[..])[v := 0.0]
    {
      sold[v] := 0.0;
      bought[v] := 0.0;
      desired[v] := 0.0;
    }

    /** One step of one task. */
    method StepTask(net: Network, h: nat, present: set<nat>, t: Task) returns (t': Task)
      requires NetworkShape(net) && Valid(|net.owner|) && TaskShape(net, h, t) && !Finished(net, t)
      modifies this, sold, bought, desired
      ensures t' == NextTask(net, h, present, t)
      ensures Book(Sale) == NextLedger(net, h, present, Sale, t, old(Book(Sale)))
      ensures Book(Purchase) == NextLedger(net, h, present, Purchase, t, old(Book(Purchase)))
      ensures desired[..] == if t.pc == Start && t.node in present then old(desired[..])[t.node := 0.0] else old(desired[..])
    {
      match t.pc
      case Start =>
        if t.node in present {
          Cancel(t.node);
        }
        t' := if t.node in present && net.owner[t.node] == h then t.(pc := Look) else Task(t.node, |net.edges[t.node]|, Look);
      case Look =>
        var edge := net.edges[t.node][t.k];
        t' := if edge.kind == Other then t.(k := t.k + 1)
              else t.(pc := if net.owner[edge.partner] == h then Subtract else Clamp);
      case Clamp =>
        var edge := net.edges[t.node][t.k];
        if edge.kind == Sale {
          bought[edge.partner] := Min(bought[edge.partner], 0.0);
        } else {
          sold[edge.partner] := Min(sold[edge.partner], 0.0);
        }
        t' := t.(pc := Subtract);
      case Subtract =>
        var edge := net.edges[t.node][t.k];
        if edge.kind == Sale {
          bought[edge.partner] := bought[edge.partner] - edge.amount;
          flaggedBought := flaggedBought + {edge.partner};
        } else {
          sold[edge.partner] := sold[edge.partner] - edge.amount;
          flaggedSold := flaggedSold + {edge.partner};
        }
        t' := Task(t.node, t.k + 1, Look);
    }

    /** Cancels all nodes on the list, their tasks interleaved by any schedule. */
    method CancelAll(net: Network, h: nat, present: set<nat>, nodes: seq<nat>)
      requires NetworkShape(net) && Valid(|net.owner|)
      requires forall i :: 0 <= i < |nodes| ==> nodes[i] < |net.owner|
      requires forall v: nat :: v < |net.owner| && net.owner[v] == h ==> v in present
      modifies this, sold, bought, desired
      ensures forall v :: 0 <= v < |net.owner| ==> desired[v] == if v in nodes && v in present then 0.0 else old(desired[v])
      ensures HostDone(net, h, nodes, Sale, old(bought[..]), bought[..], flaggedBought)
      ensures HostDone(net, h, nodes, Purchase, old(sold[..]), sold[..], flaggedSold)
    {
      flaggedSold, flaggedBought := {}, {};
      ghost var cancelled := Members(nodes);
      ghost var sold0, bought0, desired0 := sold[..], bought[..], desired[..];
      var tasks := seq(|nodes|, (i: nat) requires i < |nodes| => Task(nodes[i], 0, Start));
      assert tasks == StartTasks(nodes);
      StartLedger(net, h, cancelled, nodes, Sale, bought0);
      StartLedger(net, h, cancelled, nodes, Purchase, sold0);
      TotalNonneg(|tasks|, StepsLeft(net, h, tasks));
      assert DesiredInv(present, desired0, desired[..], tasks);
      hide LedgerInv, NextTask, NextLedger, TaskShape, StepsLeft, HostDone, DesiredInv;
      while exists i :: 0 <= i < |tasks| && !Finished(net, tasks[i])
        invariant TasksShape(net, h, nodes, tasks)
        invariant LedgerInv(net, h, cancelled, Sale, bought0, Book(Sale), tasks)
        invariant LedgerInv(net, h, cancelled, Purchase, sold0, Book(Purchase), tasks)
        invariant DesiredInv(present, desired0, desired[..], tasks)
        invariant 0 <= Total(|tasks|, StepsLeft(net, h, tasks))
        decreases Total(|tasks|, StepsLeft(net, h, tasks))
      {
        var i :| 0 <= i < |tasks| && !Finished(net, tasks[i]);
        StepKeepsLedger(net, h, present, cancelled, Sale, bought0, Book(Sale), tasks, i);
        StepKeepsLedger(net, h, present, cancelled, Purchase, sold0, Book(Purchase), tasks, i);
        StepShortens(net, h, present, nodes, tasks, i);
        ghost var before := desired[..];
        var t := StepTask(net, h, present, tasks[i]);
        StepKeepsDesired(net, h, present, desired0, before, desired[..], tasks, i);
        tasks := tasks[i := t];
      }
      EndDesired(net, h, nodes, present, desired0, desired[..], tasks);
      EndLedger(net, h, nodes, Sale, bought0, Book(Sale), tasks);
      EndLedger(net, h, nodes, Purchase, sold0, Book(Purchase), tasks);
    }

    /** Clears the cancelled nodes once more, after the exchange between hosts. */
    method CancelAgain(present: set<nat>, nodes: seq<nat>)
      requires Valid(sold.Length) && forall i :: 0 <= i < |nodes| ==> nodes[i] < sold.Length
      modifies sold, bought, desired
      ensures forall v :: 0 <= v < sold.Length ==>
        if v in present && v in nodes then sold[v] == bought[v] == desired[v] == 0.0
        else sold[v] == old(sold[v]) && bought[v] == old(bought[v]) && desired[v] == old(desired[v])
    {
      for i := 0 to |nodes|
        invariant forall v :: 0 <= v < sold.Length ==>
          if v in present && v in nodes[..i] then sold[v] == bought[v] == desired[v] == 0.0
          else sold[v] == old(sold[v]) && bought[v] == old(bought[v]) && desired[v] == old(desired[v])
      {
        if nodes[i] in present {
          Cancel(nodes[i]);
        }
        assert nodes[..i + 1] == nodes[..i] + [nodes[i]];
      }
      assert nodes[..|nodes|] == nodes;
    }
  }

  // ---------- All hosts ----------

  /** What the flagged mirror on host h adds to the master of v. */
  ghost function MirrorShare(net: Network, values: seq<seq<real>>, flagged: seq<set<nat>>, v: nat): nat -> real {
    (h: nat) => if h < |values| && h < |flagged| && v < |values[h]| && v < |net.owner| && h != net.owner[v] && v in flagged[h]
                then values[h][v] else 0.0
  }

  /** The master of v after the exchange between hosts. */
  ghost function Exchanged(net: Network, values: seq<seq<real>>, flagged: seq<set<nat>>, v: nat): real
    requires NetworkShape(net) && v < |net.owner| && |values| == net.hosts && |values[net.owner[v]]| == |net.owner|
  {
    values[net.owner[v]][v] + Sum(net.hosts, MirrorShare(net, values, flagged, v))
  }

  ghost predicate AllDone(net: Network, nodes: seq<nat>, kind: Kind, start: seq<seq<real>>, values: seq<seq<real>>, flagged: seq<set<nat>>)
    requires NetworkShape(net)
  {
    && |start| == |values| == |flagged| == net.hosts
    && forall h :: 0 <= h < net.hosts ==> HostDone(net, h, nodes, kind, start[h], values[h], flagged[h])
  }

  ghost function RemovedOn(net: Network, nodes: seq<nat>, kind: Kind, v: nat): nat -> real
    requires NetworkShape(net)
  {
    (h: nat) => Removed(net, h, nodes, kind, v)
  }

  /** What node u trades with v. */
  ghost function TradeWith(net: Network, kind: Kind, u: nat, v: nat): real
    requires NetworkShape(net)
  {
    if u < |net.edges| then Amount(net.edges[u], |net.edges[u]|, kind, v) else 0.0
  }

  ghost function ListTrades(net: Network, nodes: seq<nat>, kind: Kind, v: nat): nat -> real
    requires NetworkShape(net)
  {
    (i: nat) => if i < |nodes| then TradeWith(net, kind, nodes[i], v) else 0.0
  }

  ghost function RemovedTable(net: Network, nodes: seq<nat>, kind: Kind, v: nat): (nat, nat) -> real
    requires NetworkShape(net)
  {
    (h: nat, i: nat) => RemovedBy(net, h, nodes, kind, v)(i)
  }

  /** Every node on the list is handled by exactly one host. */
  lemma AllRemoved(net: Network, nodes: seq<nat>, kind: Kind, v: nat)
    requires NetworkShape(net) && forall i :: 0 <= i < |nodes| ==> nodes[i] < |net.owner|
    ensures Sum(net.hosts, RemovedOn(net, nodes, kind, v)) == Sum(|nodes|, ListTrades(net, nodes, kind, v))
  {
    var f := RemovedTable(net, nodes, kind, v);
    SumExchange(net.hosts, |nodes|, f);
    forall h: nat | h < net.hosts
      ensures RemovedOn(net, nodes, kind, v)(h) == RowSums(|nodes|, f)(h)
    {
      SumEq(|nodes|, RemovedBy(net, h, nodes, kind, v), RowOf(f, h));
    }
    SumEq(net.hosts, RemovedOn(net, nodes, kind, v), RowSums(|nodes|, f));
    forall i: nat | i < |nodes|
      ensures ColumnSums(net.hosts, f)(i) == ListTrades(net, nodes, kind, v)(i)
    {
      HandledOnce(net, nodes, kind, v, i);
    }
    SumEq(|nodes|, ColumnSums(net.hosts, f), ListTrades(net, nodes, kind, v));
  }

  lemma HandledOnce(net: Network, nodes: seq<nat>, kind: Kind, v: nat, i: nat)
    requires NetworkShape(net) && i < |nodes| && nodes[i] < |net.owner|
    ensures Sum(net.hosts, ColumnOf(RemovedTable(net, nodes, kind, v), i)) == TradeWith(net, kind, nodes[i], v)
  {
    var column := ColumnOf(RemovedTable(net, nodes, kind, v), i);
    forall h: nat
      ensures column(h) == if h == net.owner[nodes[i]] then TradeWith(net, kind, nodes[i], v) else 0.0
    {
      assert column(h) == RemovedTable(net, nodes, kind, v)(h, i) == RemovedBy(net, h, nodes, kind, v)(i);
    }
    SumSingle(net.hosts, column, net.owner[nodes[i]]);
  }

  /** What a mirror of v was below zero when it was set to start from zero. */
  ghost function Debts(net: Network, nodes: seq<nat>, kind: Kind, start: seq<seq<real>>, v: nat): nat -> real
    requires NetworkShape(net)
  {
    (h: nat) => if h < |start| && v < |start[h]| && v < |net.owner| && h != net.owner[v] && Trades(net, h, nodes, kind, v)
                then Min(start[h][v], 0.0) else 0.0
  }

  /**
    Whatever the partition and the schedules: the master of a node that is not
    cancelled loses what the nodes on the list traded with it, once for every time
    they are listed, and whatever a mirror that takes part was below zero.
   */
  lemma AfterExchange(net: Network, nodes: seq<nat>, kind: Kind, start: seq<seq<real>>, values: seq<seq<real>>,
                      flagged: seq<set<nat>>, v: nat)
    requires NetworkShape(net) && AllDone(net, nodes, kind, start, values, flagged)
    requires v < |net.owner| && v !in nodes && forall i :: 0 <= i < |nodes| ==> nodes[i] < |net.owner|
    ensures |start[net.owner[v]]| == |values[net.owner[v]]| == |net.owner|
    ensures Exchanged(net, values, flagged, v) ==
      start[net.owner[v]][v] - Sum(|nodes|, ListTrades(net, nodes, kind, v)) + Sum(net.hosts, Debts(net, nodes, kind, start, v))
  {
    var o := net.owner[v];
    assert HostDone(net, o, nodes, kind, start[o], values[o], flagged[o]);
    var removed, shares, debts := RemovedOn(net, nodes, kind, v), MirrorShare(net, values, flagged, v), Debts(net, nodes, kind, start, v);
    forall h: nat | h < net.hosts
      ensures shares(h) == debts(h) + if h == o then 0.0 else -removed(h)
    {
      HostShare(net, nodes, kind, start, values, flagged, v, h);
    }
    HostShare(net, nodes, kind, start, values, flagged, v, o);
    hide RemovedOn, MirrorShare, HostDone, Removed, Debts;
    AllButOwner(net.hosts, removed, shares, debts, o);
    AllRemoved(net, nodes, kind, v);
  }

  lemma HostShare(net: Network, nodes: seq<nat>, kind: Kind, start: seq<seq<real>>, values: seq<seq<real>>,
                  flagged: seq<set<nat>>, v: nat, h: nat)
    requires NetworkShape(net) && AllDone(net, nodes, kind, start, values, flagged)
    requires v < |net.owner| && v !in nodes && h < net.hosts
    ensures |start[h]| == |values[h]| == |net.owner|
    ensures h == net.owner[v] ==> values[h][v] == start[h][v] - Removed(net, h, nodes, kind, v)
    ensures MirrorShare(net, values, flagged, v)(h) ==
      Debts(net, nodes, kind, start, v)(h) + if h == net.owner[v] then 0.0 else -Removed(net, h, nodes, kind, v)
  {
    assert HostDone(net, h, nodes, kind, start[h], values[h], flagged[h]);
    assert BooksDone(net, h, nodes, kind, start[h][v], values[h][v], v in flagged[h], v);
  }

  lemma AllButOwner(n: nat, removed: nat -> real, shares: nat -> real, debts: nat -> real, o: nat)
    requires o < n && forall h: nat :: h < n ==> shares(h) == debts(h) + if h == o then 0.0 else -removed(h)
    ensures Sum(n, shares) == removed(o) - Sum(n, removed) + Sum(n, debts)
  {
    var back := (h: nat) => if h == o then removed(h) else 0.0;
    SumSingle(n, back, o);
    var both := (h: nat) => back(h) + debts(h);
    SumAdd(n, back, debts, both);
    var sum := (h: nat) => removed(h) + shares(h);
    SumAdd(n, removed, shares, sum);
    SumEq(n, sum, both);
  }

  // ---------- Cancellation is deletion ----------

  /** The trades of v with all nodes, or with those not in `cancelled`. */
  ghost function OwnTrades(net: Network, own: Kind, v: nat, cancelled: set<nat>): nat -> real
    requires NetworkShape(net)
  {
    (u: nat) => if u in cancelled then 0.0 else TradeWith(net, own, v, u)
  }

  ghost function ListedTrades(net: Network, kind: Kind, v: nat, nodes: seq<nat>): nat -> real
    requires NetworkShape(net)
  {
    (u: nat) => if u in nodes then TradeWith(net, kind, u, v) else 0.0
  }

  /** Each trade is recorded at both ends, as a sale and as a purchase. */
  ghost predicate Twins(net: Network, kind: Kind, own: Kind)
    requires NetworkShape(net)
  {
    forall u: nat, v: nat :: u < |net.owner| && v < |net.owner| ==> TradeWith(net, kind, u, v) == TradeWith(net, own, v, u)
  }

  /** A node is listed again only if it trades nothing with v. */
  ghost predicate RepeatsIdle(net: Network, nodes: seq<nat>, kind: Kind, v: nat)
    requires NetworkShape(net)
  {
    forall i, j :: 0 <= i < j < |nodes| && nodes[i] == nodes[j] ==> TradeWith(net, kind, nodes[i], v) == 0.0
  }

  lemma {:induction false} ListOrSet(net: Network, nodes: seq<nat>, kind: Kind, v: nat)
    requires NetworkShape(net) && forall i :: 0 <= i < |nodes| ==> nodes[i] < |net.owner|
    ensures Sum(|nodes|, ListTrades(net, nodes, kind, v)) >= Sum(|net.owner|, ListedTrades(net, kind, v, nodes))
    ensures Sum(|nodes|, ListTrades(net, nodes, kind, v)) == Sum(|net.owner|, ListedTrades(net, kind, v, nodes)) <==>
            RepeatsIdle(net, nodes, kind, v)
    decreases |nodes|
  {
    hide Sum, ListTrades, ListedTrades, RepeatsIdle, TradeWith;
    if nodes == [] {
      NothingListed(net, kind, v);
    } else {
      var m := |nodes| - 1;
      var front, u := nodes[..m], nodes[m];
      assert nodes == front + [u];
      ListOrSet(net, front, kind, v);
      ListNext(net, front, u, kind, v);
      ListedNext(net, front, u, kind, v);
      RepeatsNext(net, front, u, kind, v);
    }
  }

  lemma NothingListed(net: Network, kind: Kind, v: nat)
    requires NetworkShape(net)
    ensures Sum(0, ListTrades(net, [], kind, v)) == Sum(|net.owner|, ListedTrades(net, kind, v, [])) && RepeatsIdle(net, [], kind, v)
  {
    SumZero(|net.owner|, ListedTrades(net, kind, v, []));
  }

  lemma ListNext(net: Network, front: seq<nat>, u: nat, kind: Kind, v: nat)
    requires NetworkShape(net) && u < |net.owner|
    ensures Sum(|front| + 1, ListTrades(net, front + [u], kind, v)) ==
      Sum(|front|, ListTrades(net, front, kind, v)) + TradeWith(net, kind, u, v)
    ensures TradeWith(net, kind, u, v) >= 0.0
  {
    SumEq(|front|, ListTrades(net, front, kind, v), ListTrades(net, front + [u], kind, v));
    AmountPositive(|net.owner|, net.edges[u], |net.edges[u]|, kind, v);
  }

  lemma ListedNext(net: Network, front: seq<nat>, u: nat, kind: Kind, v: nat)
    requires NetworkShape(net) && u < |net.owner|
    ensures Sum(|net.owner|, ListedTrades(net, kind, v, front + [u])) ==
      Sum(|net.owner|, ListedTrades(net, kind, v, front)) + if u in front then 0.0 else TradeWith(net, kind, u, v)
  {
    SumChange(|net.owner|, ListedTrades(net, kind, v, front), ListedTrades(net, kind, v, front + [u]), u);
  }

  lemma RepeatsNext(net: Network, front: seq<nat>, u: nat, kind: Kind, v: nat)
    requires NetworkShape(net)
    ensures RepeatsIdle(net, front + [u], kind, v) <==>
      RepeatsIdle(net, front, kind, v) && (u in front ==> TradeWith(net, kind, u, v) == 0.0)
  {
    var nodes := front + [u];
    if RepeatsIdle(net, nodes, kind, v) {
      forall i, j | 0 <= i < j < |front| && front[i] == front[j]
        ensures TradeWith(net, kind, front[i], v) == 0.0
      {
        assert nodes[i] == nodes[j];
      }
      if u in front {
        var i :| 0 <= i < |front| && front[i] == u;
        assert nodes[i] == nodes[|front|];
      }
    }
  }

  /** No mirror of v that takes part starts below zero. */
  ghost predicate MirrorsClear(net: Network, nodes: seq<nat>, kind: Kind, start: seq<seq<real>>, v: nat)
    requires NetworkShape(net) && |start| == net.hosts && v < |net.owner|
    requires forall h :: 0 <= h < net.hosts ==> |start[h]| == |net.owner|
  {
    forall h: nat :: h < net.hosts && h != net.owner[v] && Trades(net, h, nodes, kind, v) ==> start[h][v] >= 0.0
  }

  lemma {:induction false} BelowZero(n: nat, f: nat -> real)
    requires forall h: nat :: h < n ==> f(h) <= 0.0
    ensures Sum(n, f) <= 0.0 && (Sum(n, f) == 0.0 <==> forall h: nat :: h < n ==> f(h) == 0.0)
  {
    if n > 0 {
      BelowZero(n - 1, f);
    }
  }

  lemma DebtsClear(net: Network, nodes: seq<nat>, kind: Kind, start: seq<seq<real>>, v: nat)
    requires NetworkShape(net) && |start| == net.hosts && v < |net.owner|
    requires forall h :: 0 <= h < net.hosts ==> |start[h]| == |net.owner|
    ensures var debt := Sum(net.hosts, Debts(net, nodes, kind, start, v));
            debt <= 0.0 && (debt == 0.0 <==> MirrorsClear(net, nodes, kind, start, v))
  {
    var debts := Debts(net, nodes, kind, start, v);
    BelowZero(net.hosts, debts);
    forall h: nat | h < net.hosts
      ensures debts(h) == 0.0 <==> (h != net.owner[v] && Trades(net, h, nodes, kind, v) ==> start[h][v] >= 0.0)
    {
    }
  }

  /**
    If a master starts with the sum of its trades, then after cancelling it has the
    sum of its trades with nodes that are not cancelled, as if the cancelled nodes
    had been deleted, exactly when no node that trades with it is listed twice and
    none of its mirrors that takes part starts below zero.
   */
  lemma CancelIsDeletion(net: Network, nodes: seq<nat>, kind: Kind, own: Kind, start: seq<seq<real>>, values: seq<seq<real>>,
                         flagged: seq<set<nat>>, v: nat)
    requires NetworkShape(net) && AllDone(net, nodes, kind, start, values, flagged) && Twins(net, kind, own)
    requires v < |net.owner| && v !in nodes && forall i :: 0 <= i < |nodes| ==> nodes[i] < |net.owner|
    requires forall h :: 0 <= h < net.hosts ==> |start[h]| == |values[h]| == |net.owner|
    requires start[net.owner[v]][v] == Sum(|net.owner|, OwnTrades(net, own, v, {}))
    ensures Exchanged(net, values, flagged, v) == Sum(|net.owner|, OwnTrades(net, own, v, Members(nodes))) <==>
            RepeatsIdle(net, nodes, kind, v) && MirrorsClear(net, nodes, kind, start, v)
  {
    AfterExchange(net, nodes, kind, start, values, flagged, v);
    hide AllDone, RepeatsIdle, TradeWith, NetworkShape, Exchanged, Twins, OwnTrades, MirrorsClear, Debts;
    ListOrSet(net, nodes, kind, v);
    KeptAndGone(net, nodes, kind, own, v);
    DebtsClear(net, nodes, kind, start, v);
  }

  lemma KeptAndGone(net: Network, nodes: seq<nat>, kind: Kind, own: Kind, v: nat)
    requires NetworkShape(net) && Twins(net, kind, own) && v < |net.owner|
    ensures Sum(|net.owner|, OwnTrades(net, own, v, {})) ==
      Sum(|net.owner|, OwnTrades(net, own, v, Members(nodes))) + Sum(|net.owner|, ListedTrades(net, kind, v, nodes))
  {
    var n := |net.owner|;
    var all, kept, gone := OwnTrades(net, own, v, {}), OwnTrades(net, own, v, Members(nodes)), ListedTrades(net, kind, v, nodes);
    forall u: nat | u < n
      ensures all(u) == kept(u) + gone(u)
    {
      assert TradeWith(net, kind, u, v) == TradeWith(net, own, v, u);
    }
    SumAdd(n, kept, gone, all);
  }

  // ---------- The whole operation ----------

  /** Cancels the nodes on one host whose copies have these amounts. */
  method CancelOn(net: Network, h: nat, present: set<nat>, nodes: seq<nat>, sold: seq<real>, bought: seq<real>, desired: seq<real>)
    returns (sold': seq<real>, flaggedSold: set<nat>, bought': seq<real>, flaggedBought: set<nat>, desired': seq<real>)
    requires NetworkShape(net) && |sold| == |bought| == |desired| == |net.owner|
    requires forall i :: 0 <= i < |nodes| ==> nodes[i] < |net.owner|
    requires forall v: nat :: v < |net.owner| && net.owner[v] == h ==> v in present
    ensures HostDone(net, h, nodes, Sale, bought, bought', flaggedBought)
    ensures HostDone(net, h, nodes, Purchase, sold, sold', flaggedSold)
    ensures Cleared(present, nodes, desired, desired')
  {
    var host := new Host(|net.owner|);
    host.Load(sold, bought, desired);
    host.CancelAll(net, h, present, nodes);
    sold', bought', desired' := host.sold[..], host.bought[..], host.desired[..];
    flaggedSold, flaggedBought := host.flaggedSold, host.flaggedBought;
  }

  /** The listed nodes that are present are zero, and nothing else has changed. */
  ghost predicate Cleared(present: set<nat>, nodes: seq<nat>, values: seq<real>, values': seq<real>) {
    |values'| == |values| && forall v: nat :: v < |values| ==> values'[v] == if v in nodes && v in present then 0.0 else values[v]
  }

  /** Adds the flagged mirrors to the masters. */
  method AddMirrors(net: Network, values: seq<seq<real>>, flagged: seq<set<nat>>) returns (masters: seq<real>)
    requires NetworkShape(net) && |values| == |flagged| == net.hosts
    requires forall h :: 0 <= h < net.hosts ==> |values[h]| == |net.owner|
    ensures |masters| == |net.owner|
    ensures forall v: nat :: v < |net.owner| ==> masters[v] == Exchanged(net, values, flagged, v)
  {
    masters := [];
    for v := 0 to |net.owner|
      invariant |masters| == v && forall u: nat :: u < v ==> masters[u] == Exchanged(net, values, flagged, u)
    {
      var sum := 0.0;
      for h := 0 to net.hosts
        invariant sum == Sum(h, MirrorShare(net, values, flagged, v))
      {
        if h != net.owner[v] && v in flagged[h] {
          sum := sum + values[h][v];
        }
      }
      masters := masters + [values[net.owner[v]][v] + sum];
    }
  }

  /** The masters start with the sums of their sales or purchases. */
  ghost predicate StartsWithTrades(net: Network, own: Kind, start: seq<seq<real>>)
    requires NetworkShape(net) && |start| == net.hosts && forall h :: 0 <= h < net.hosts ==> |start[h]| == |net.owner|
  {
    forall v: nat :: v < |net.owner| ==> start[net.owner[v]][v] == Sum(|net.owner|, OwnTrades(net, own, v, {}))
  }

  /**
    The master of v at the end, `kind` being the trades of a cancelled node that are
    taken off it and `own` the same trades as v records them.
   */
  ghost predicate MasterDone(net: Network, nodes: seq<nat>, kind: Kind, own: Kind, start: seq<seq<real>>, value: real, v: nat)
    requires NetworkShape(net) && |start| == net.hosts && forall h :: 0 <= h < net.hosts ==> |start[h]| == |net.owner|
    requires v < |net.owner|
  {
    if v in nodes then value == 0.0
    else
      && value == start[net.owner[v]][v] - Sum(|nodes|, ListTrades(net, nodes, kind, v)) + Sum(net.hosts, Debts(net, nodes, kind, start, v))
      && (Twins(net, kind, own) && StartsWithTrades(net, own, start) ==>
          (value == Sum(|net.owner|, OwnTrades(net, own, v, Members(nodes))) <==>
           RepeatsIdle(net, nodes, kind, v) && MirrorsClear(net, nodes, kind, start, v)))
  }

  lemma MasterIsDone(net: Network, nodes: seq<nat>, kind: Kind, own: Kind, start: seq<seq<real>>, values: seq<seq<real>>,
                     flagged: seq<set<nat>>, v: nat)
    requires NetworkShape(net) && AllDone(net, nodes, kind, start, values, flagged)
    requires v < |net.owner| && v !in nodes && forall i :: 0 <= i < |nodes| ==> nodes[i] < |net.owner|
    requires forall h :: 0 <= h < net.hosts ==> |start[h]| == |values[h]| == |net.owner|
    ensures MasterDone(net, nodes, kind, own, start, Exchanged(net, values, flagged, v), v)
  {
    hide HostDone, RepeatsIdle, MirrorsClear, Twins;
    AfterExchange(net, nodes, kind, start, values, flagged, v);
    if Twins(net, kind, own) && StartsWithTrades(net, own, start) {
      CancelIsDeletion(net, nodes, kind, own, start, values, flagged, v);
    }
  }

  /**
    Cancels the nodes on all hosts, adds up mirrors and masters, and clears the
    cancelled nodes again. The cancelled masters end at zero and want nothing; the
    others want what they wanted, lose what the listed nodes traded with them and,
    where trades are recorded at both ends, end as if these had never been there
    exactly when none that trades with them is listed twice and no mirror of theirs
    starts below zero.
   */
  method CancelNodes(net: Network, present: seq<set<nat>>, nodes: seq<nat>, sold: seq<seq<real>>, bought: seq<seq<real>>,
                     desired: seq<seq<real>>)
    returns (sold': seq<real>, bought': seq<real>, desired': seq<real>)
    requires NetworkShape(net) && |present| == |sold| == |bought| == |desired| == net.hosts
    requires forall h :: 0 <= h < net.hosts ==> |sold[h]| == |bought[h]| == |desired[h]| == |net.owner|
    requires forall i :: 0 <= i < |nodes| ==> nodes[i] < |net.owner|
    requires forall v: nat :: v < |net.owner| ==> v in present[net.owner[v]]
    ensures |sold'| == |bought'| == |desired'| == |net.owner|
    ensures forall v: nat :: v < |net.owner| ==> MasterDone(net, nodes, Purchase, Sale, sold, sold'[v], v)
    ensures forall v: nat :: v < |net.owner| ==> MasterDone(net, nodes, Sale, Purchase, bought, bought'[v], v)
    ensures forall v: nat :: v < |net.owner| ==> desired'[v] == if v in nodes then 0.0 else desired[net.owner[v]][v]
  {
    hide HostDone, NetworkShape, Exchanged, MasterDone;
    var solds: seq<seq<real>>, boughts: seq<seq<real>>, flaggedSold: seq<set<nat>>, flaggedBought: seq<set<nat>> := [], [], [], [];
    var desireds: seq<seq<real>> := [];
    for h := 0 to net.hosts
      invariant |solds| == |boughts| == |flaggedSold| == |flaggedBought| == |desireds| == h
      invariant forall k :: 0 <= k < h ==> HostDone(net, k, nodes, Sale, bought[k], boughts[k], flaggedBought[k])
      invariant forall k :: 0 <= k < h ==> HostDone(net, k, nodes, Purchase, sold[k], solds[k], flaggedSold[k])
      invariant forall k :: 0 <= k < h ==> Cleared(present[k], nodes, desired[k], desireds[k])
    {
      var s, fs, b, fb, d := CancelOn(net, h, present[h], nodes, sold[h], bought[h], desired[h]);
      solds, flaggedSold, boughts, flaggedBought := solds + [s], flaggedSold + [fs], boughts + [b], flaggedBought + [fb];
      desireds := desireds + [d];
    }
    DoneLengths(net, nodes, Sale, bought, boughts, flaggedBought);
    DoneLengths(net, nodes, Purchase, sold, solds, flaggedSold);
    var sold1 := AddMirrors(net, solds, flaggedSold);
    var bought1 := AddMirrors(net, boughts, flaggedBought);
    var desired1 := MastersOf(net, present, nodes, desired, desireds);
    forall v: nat | v < |net.owner| && v !in nodes
      ensures MasterDone(net, nodes, Purchase, Sale, sold, sold1[v], v) && MasterDone(net, nodes, Sale, Purchase, bought, bought1[v], v)
    {
      MasterIsDone(net, nodes, Purchase, Sale, sold, solds, flaggedSold, v);
      MasterIsDone(net, nodes, Sale, Purchase, bought, boughts, flaggedBought, v);
    }
    sold', bought', desired' := ClearMasters(net, nodes, sold1, bought1, desired1);
    ZeroIsDone(net, nodes, Purchase, Sale, sold);
    ZeroIsDone(net, nodes, Sale, Purchase, bought);
  }

  lemma ZeroIsDone(net: Network, nodes: seq<nat>, kind: Kind, own: Kind, start: seq<seq<real>>)
    requires NetworkShape(net) && |start| == net.hosts && forall h :: 0 <= h < net.hosts ==> |start[h]| == |net.owner|
    ensures forall v: nat :: v < |net.owner| && v in nodes ==> MasterDone(net, nodes, kind, own, start, 0.0, v)
  {
  }

  /** What the masters desire. */
  method MastersOf(net: Network, present: seq<set<nat>>, nodes: seq<nat>, desired: seq<seq<real>>, desireds: seq<seq<real>>)
    returns (masters: seq<real>)
    requires NetworkShape(net) && |present| == |desired| == |desireds| == net.hosts
    requires forall h :: 0 <= h < net.hosts ==> |desired[h]| == |net.owner| && Cleared(present[h], nodes, desired[h], desireds[h])
    requires forall v: nat :: v < |net.owner| ==> v in present[net.owner[v]]
    ensures |masters| == |net.owner|
    ensures forall v: nat :: v < |net.owner| ==> masters[v] == if v in nodes then 0.0 else desired[net.owner[v]][v]
  {
    masters := [];
    for v := 0 to |net.owner|
      invariant |masters| == v <= |net.owner|
      invariant forall u: nat :: u < v ==> masters[u] == if u in nodes then 0.0 else desired[net.owner[u]][u]
    {
      assert Cleared(present[net.owner[v]], nodes, desired[net.owner[v]], desireds[net.owner[v]]);
      masters := masters + [desireds[net.owner[v]][v]];
    }
  }

  lemma DoneLengths(net: Network, nodes: seq<nat>, kind: Kind, start: seq<seq<real>>, values: seq<seq<real>>, flagged: seq<set<nat>>)
    requires NetworkShape(net) && AllDone(net, nodes, kind, start, values, flagged)
    ensures forall h :: 0 <= h < net.hosts ==> |start[h]| == |values[h]| == |net.owner|
  {
    forall h | 0 <= h < net.hosts
      ensures |start[h]| == |values[h]| == |net.owner|
    {
      assert HostDone(net, h, nodes, kind, start[h], values[h], flagged[h]);
    }
  }

  /** The second clearing, on every owner. */
  method ClearMasters(net: Network, nodes: seq<nat>, sold: seq<real>, bought: seq<real>, desired: seq<real>)
    returns (sold': seq<real>, bought': seq<real>, desired': seq<real>)
    requires |sold| == |bought| == |desired| == |net.owner| && forall i :: 0 <= i < |nodes| ==> nodes[i] < |net.owner|
    ensures |sold'| == |bought'| == |desired'| == |net.owner|
    ensures forall v :: 0 <= v < |net.owner| ==> sold'[v] == (if v in nodes then 0.0 else sold[v])
    ensures forall v :: 0 <= v < |net.owner| ==> bought'[v] == (if v in nodes then 0.0 else bought[v])
    ensures forall v :: 0 <= v < |net.owner| ==> desired'[v] == (if v in nodes then 0.0 else desired[v])
  {
    var host := new Host(|net.owner|);
    host.Load(sold, bought, desired);
    host.CancelAgain(set i | 0 <= i < |nodes| :: nodes[i], nodes);
    sold', bought', desired' := host.sold[..], host.bought[..], host.desired[..];
  }
}
