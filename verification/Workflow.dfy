/**
  The influence workflow end to end: the counters that generation leaves behind
  are what the greedy phase needs, so its picks cover the generated sets well.
 */
module Workflow {
  import opened Basics
  import opened SeedSelection
  import opened ReachableSets
  import Generation
  import Removal

  ghost function ConfigOf(net: Net, s: Generation.State): Removal.Config {
    Removal.Config(net.hosts, net.owner,
                   seq(|s.tokens|, i requires 0 <= i < |s.tokens| => s.tokens[i].p.ownerHost))
  }

  /** The state of the greedy phase right after generation. */
  ghost function Handover(net: Net, s: Generation.State): Removal.State {
    Removal.State(
      Generation.ReachedSets(s.tokens),
      seq(|s.tokens|, _ => None),
      s.freq,
      seq(net.hosts, _ => seq(|net.owner|, _ => 0)),
      seq(net.hosts, _ => seq(|net.owner|, _ => 0)),
      seq(net.hosts, _ => false),
      [])
  }

  lemma HandoverIsInitial(net: Net, coin: Coins, epochs: nat, states: seq<Generation.State>, steps: seq<Generation.Step>)
    requires Generation.Run(net, coin, epochs, states, steps) && states[|steps|].phase == Generation.Done
    ensures Removal.Init(ConfigOf(net, states[|steps|]), Handover(net, states[|steps|]))
  {
    var s := states[|steps|];
    Generation.Generated(net, coin, epochs, states, steps);
    Generation.RunInv(net, coin, epochs, states, steps, |steps|);
    forall i | 0 <= i < |s.tokens|
      ensures s.tokens[i].p.ownerHost < net.hosts && forall v :: v in s.tokens[i].p.reached ==> v < |net.owner|
    {
      assert Generation.TokenInv(net, coin, epochs, s.tokens[i], s.epoch, s.phase);
    }
  }

  /**
    Any run of generation followed by any run of the greedy phase: the picks hit
    all but a (1 - 1/k)^k fraction of the generated sets the best k nodes hit.
   */
  lemma InfluenceMaximization(net: Net, coin: Coins, epochs: nat,
                              states: seq<Generation.State>, steps: seq<Generation.Step>,
                              rstates: seq<Removal.State>, rsteps: seq<Removal.Step>, nodes: set<nat>)
    requires Generation.Run(net, coin, epochs, states, steps) && states[|steps|].phase == Generation.Done
    requires Removal.Steps(ConfigOf(net, states[|steps|]), rstates, rsteps) && rstates[0] == Handover(net, states[|steps|])
    requires rstates[|rsteps|].picks != [] && |nodes| <= |rstates[|rsteps|].picks|
    ensures var sets, picks := Generation.ReachedSets(states[|steps|].tokens), rstates[|rsteps|].picks;
            CoverageBound(|picks|, |picks|, Hit(sets, nodes), Hit(sets, NodesOf(picks)))
  {
    HandoverIsInitial(net, coin, epochs, states, steps);
    hide Removal.Steps, Removal.Init;
    Removal.RunCoverage(ConfigOf(net, states[|steps|]), rstates, rsteps, nodes);
  }
}
