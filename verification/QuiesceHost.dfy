/**
  One host of wf4/src/quiesce.cpp with its fields updated in place: the concurrent
  phases, run by any schedule, and the commits at the end of a round.
 */
module QuiesceHost {
  import opened Basics
  import opened Sums
  import opened Reservation
  import opened TradeRound

  // ---------- How long a phase may take ----------

  ghost function Progress(pc: Pc): nat {
    match pc
    case Look => 0
    case Read => 1
    case ReadSold(_) => 2
    case ReadBought(_) => 2
    case Reserve(_) => 3
    case Check(_, _) => 4
    case Rollback(_) => 5
    case Commit(_) => 5
  }

  /** Steps a buyer may still take, at most. */
  ghost function StepsLeft(agents: seq<Agent>): nat -> int {
    (i: nat) => if i < |agents| then 6 * (|agents[i].edges| - agents[i].k) - Progress(agents[i].pc) else 0
  }

  lemma StepShortens(n: nat, local: set<nat>, st: State, i: nat, boughtFirst: bool)
    requires Shape(n, st) && i < |st.agents| && !Finished(st.agents[i])
    ensures var agents' := Step(local, st, i, boughtFirst).agents;
      |agents'| == |st.agents| && 0 <= Total(|agents'|, StepsLeft(agents')) < Total(|st.agents|, StepsLeft(st.agents))
  {
    assert AgentShape(n, st.agents[i]);
    StepShape(n, local, st, i, boughtFirst);
    var st' := Step(local, st, i, boughtFirst);
    TotalChange(|st.agents|, StepsLeft(st.agents), StepsLeft(st'.agents), i);
    LeftPositive(n, st');
  }

  lemma LeftPositive(n: nat, st: State)
    requires Shape(n, st)
    ensures 0 <= Total(|st.agents|, StepsLeft(st.agents))
  {
    forall i: nat | i < |st.agents|
      ensures 0 <= StepsLeft(st.agents)(i)
    {
      assert AgentShape(n, st.agents[i]);
    }
    TotalNonneg(|st.agents|, StepsLeft(st.agents));
  }

  ghost function Logs(n: nat): (r: seq<seq<Add>>)
    ensures |r| == n && forall c :: 0 <= c < n ==> r[c] == []
  {
    seq(n, _ => [])
  }

  class Host {
    const sold: array<real>
    const bought: array<real>
    var remoteEdges: map<(nat, nat), real>

    constructor (n: nat)
      ensures fresh(sold) && fresh(bought) && sold != bought && sold.Length == bought.Length == n && remoteEdges == map[]
      ensures forall c :: 0 <= c < n ==> sold[c] == bought[c] == 0.0
    {
      sold := new real[n](_ => 0.0);
      bought := new real[n](_ => 0.0);
      remoteEdges := map[];
    }

    /** The fields are those of st. */
    ghost predicate Shows(st: State)
      reads this, sold, bought
    {
      sold != bought && sold[..] == st.sold && bought[..] == st.bought && remoteEdges == st.deals
    }

    /** One step of one buyer. */
    method StepBuyer(local: set<nat>, a: Agent, boughtFirst: bool, ghost st: State, ghost i: nat) returns (a': Agent)
      requires Shows(st) && Shape(sold.Length, st) && i < |st.agents| && st.agents[i] == a && !Finished(a)
      modifies this`remoteEdges, sold, bought
      ensures Shows(Step(local, st, i, boughtFirst)) && Step(local, st, i, boughtFirst).agents == st.agents[i := a']
    {
      assert AgentShape(sold.Length, a);
      if a.pc.Look? {
        a' := if a.needed <= 0.0 then a.(k := |a.edges|) else if a.edges[a.k].purchase then a.(pc := Read) else NextEdge(a);
        return;
      }
      var seller := a.edges[a.k].seller;
      match a.pc
      case Read =>
        a' := if boughtFirst then a.(pc := ReadSold(bought[seller])) else a.(pc := ReadBought(sold[seller]));
      case ReadSold(b) =>
        var delta := Min(a.needed, b - sold[seller]);
        a' := if delta <= 0.0 then NextEdge(a) else a.(pc := Reserve(delta));
      case ReadBought(s) =>
        var delta := Min(a.needed, bought[seller] - s);
        a' := if delta <= 0.0 then NextEdge(a) else a.(pc := Reserve(delta));
      case Reserve(d) =>
        sold[seller] := sold[seller] + d;
        a' := a.(pc := Check(d, sold[seller]));
      case Check(d, seen) =>
        a' := if seen > bought[seller] then a.(pc := Rollback(d)) else a.(pc := Commit(d));
      case Rollback(d) =>
        sold[seller] := sold[seller] - d;
        a' := NextEdge(a);
      case Commit(d) =>
        if seller in local {
          bought[a.buyer] := bought[a.buyer] + d;
        } else if (a.buyer, seller) !in remoteEdges {
          remoteEdges := remoteEdges[(a.buyer, seller) := d];
        }
        a' := NextEdge(a).(needed := a.needed - d);
    }

    /** Runs all buyers to the end, whichever takes the next step; it always comes to an end. */
    method RunPhase(local: set<nat>, buyers: seq<Agent>) returns (ghost run: seq<State>)
      requires sold != bought && sold.Length == bought.Length && remoteEdges == map[]
      requires forall i :: 0 <= i < |buyers| ==> AgentShape(sold.Length, buyers[i]) && buyers[i].k == 0 && buyers[i].pc == Look
      modifies this`remoteEdges, sold, bought
      ensures Run(sold.Length, local, run) && AllFinished(run[|run| - 1]) && Shows(run[|run| - 1])
      ensures run[0] == State(old(sold[..]), old(bought[..]), buyers, map[], Logs(sold.Length))
    {
      var agents := buyers;
      ghost var n := sold.Length;
      ghost var st := State(sold[..], bought[..], buyers, map[], Logs(n));
      run := [st];
      LeftPositive(n, st);
      hide Step, AgentShape, Fresh;
      assert Fresh(n, st) by { FreshStart(n, st); }
      while exists i :: 0 <= i < |agents| && !Finished(agents[i])
        invariant Run(n, local, run) && run[|run| - 1] == st && run[0] == State(old(sold[..]), old(bought[..]), buyers, map[], Logs(n))
        invariant Shape(n, st) && Shows(st) && st.agents == agents
        invariant 0 <= Total(|agents|, StepsLeft(agents))
        decreases Total(|agents|, StepsLeft(agents))
      {
        var i :| 0 <= i < |agents| && !Finished(agents[i]);
        var boughtFirst: bool := *;
        var a := StepBuyer(local, agents[i], boughtFirst, st, i);
        StepShortens(n, local, st, i, boughtFirst);
        StepShape(n, local, st, i, boughtFirst);
        ghost var st' := Step(local, st, i, boughtFirst);
        LongerRun(n, local, run, st', i, boughtFirst);
        run := run + [st'];
        st := st';
        agents := agents[i := a];
      }
    }

    /** Adds the purchases that sellers on other hosts have decided. */
    method AddPurchaseEdges(decided: seq<ProposedEdge>)
      requires forall i :: 0 <= i < |decided| ==> decided[i].src < bought.Length
      modifies bought
      ensures forall v :: 0 <= v < bought.Length ==> bought[v] == old(bought[v]) + Credits(decided, v)
    {
      for i := 0 to |decided|
        invariant forall v :: 0 <= v < bought.Length ==> bought[v] == old(bought[v]) + Credits(decided[..i], v)
      {
        var edge := decided[i];
        assert decided[..i + 1][..i] == decided[..i];
        bought[edge.src] := bought[edge.src] + edge.weight;
      }
      assert decided[..|decided|] == decided;
    }
  }

  lemma FreshStart(n: nat, st: State)
    requires Shape(n, st) && st.deals == map[] && st.log == Logs(n)
    requires forall i :: 0 <= i < |st.agents| ==> st.agents[i].k == 0 && st.agents[i].pc == Look
    ensures Fresh(n, st)
  {
  }

  lemma LongerRun(n: nat, local: set<nat>, run: seq<State>, st': State, i: nat, boughtFirst: bool)
    requires Run(n, local, run) && Shape(n, run[|run| - 1]) && i < |run[|run| - 1].agents| && !Finished(run[|run| - 1].agents[i])
    requires st' == Step(local, run[|run| - 1], i, boughtFirst)
    ensures Run(n, local, run + [st'])
  {
    var longer := run + [st'];
    forall m: nat | m + 1 < |longer|
      ensures StepAt(n, local, longer, m)
    {
      if m + 1 < |run| {
        assert StepAt(n, local, run, m);
      } else {
        assert SomeStep(local, longer[m], longer[m + 1]);
      }
    }
  }
}
