/**
  The distributed generation of random reverse reachable sets: partial sets hop
  between hosts for a number of epochs, then two forced rounds bring all of them
  home. Within a round the visits and departures of all sets on all hosts
  interleave arbitrarily; an exchange happens when every set has been dealt with.
 */
module Generation {
  import opened Finite
  import opened Sums
  import opened SeedSelection
  import opened ReachableSets

  /** Where a set is: being worked on, on its way, in the result of its owner, or discarded unsent. */
  datatype Place = At(host: nat) | Sent(from: nat, to: nat) | Stored | Dropped

  /** `root` and `cut` are for the statements: the seed node, and whether the set lost frontier nodes to a forced finish. */
  datatype Token = Token(p: Partial, root: nat, place: Place, cut: bool)

  datatype Phase = Running | Finish1 | Finish2 | Done

  datatype State = State(tokens: seq<Token>, freq: seq<nat>, epoch: nat, phase: Phase)

  datatype Step =
    | Visits(i: nat, u: nat)
    | Leaves(i: nat, next: nat)
    | Exchange
    | StartFinish
    | End

  ghost predicate Finishing(s: State) {
    s.phase == Finish1 || s.phase == Finish2
  }

  ghost predicate Working(s: State, epochs: nat) {
    Finishing(s) || (s.phase == Running && s.epoch < epochs)
  }

  /** The host a departing set is sent to; `next` is the frontier node the code happens to look at first. */
  ghost function NextHost(net: Net, p: Partial, finish: bool, next: nat): nat {
    if finish || p.frontier == {} then p.ownerHost
    else if next < |net.owner| then net.owner[next] else 0
  }

  ghost function Delivered(t: Token): Token {
    match t.place
    case Sent(from, to) => if from == to then t.(place := Dropped) else t.(place := At(to))
    case _ => t
  }

  ghost predicate AllDealtWith(s: State) {
    forall i :: 0 <= i < |s.tokens| ==> !s.tokens[i].place.At?
  }

  ghost predicate Next(net: Net, coin: Coins, epochs: nat, s: State, step: Step, t: State)
    requires WellFormed(net)
  {
    match step
    case Visits(i, u) =>
      && i < |s.tokens| && Working(s, epochs) && s.tokens[i].place.At? && |s.freq| == |net.adj|
      && var k := s.tokens[i];
         && u in k.p.frontier && u < |net.adj| && net.owner[u] == k.place.host
         && var after := if Finishing(s) then k.(p := Tally(k.p, u), cut := true) else k.(p := Expand(net, coin, k.p, u));
            t == s.(tokens := s.tokens[i := after], freq := s.freq[u := s.freq[u] + 1])
    case Leaves(i, next) =>
      && i < |s.tokens| && Working(s, epochs) && s.tokens[i].place.At?
      && var k := s.tokens[i];
         && NothingOwned(net, k.place.host, k.p.frontier)
         && var q := if Finishing(s) then CutOff(k.p) else k.p;
         && (q.frontier != {} ==> next in q.frontier)
         && var place :=
              if q.ownerHost == k.place.host && (Finishing(s) || q.frontier == {}) then Stored
              else Sent(k.place.host, NextHost(net, q, Finishing(s), next));
            t == s.(tokens := s.tokens[i := Token(q, k.root, place, k.cut || q != k.p)])
    case Exchange =>
      && (s.phase == Finish1 || (s.phase == Running && s.epoch < epochs)) && AllDealtWith(s)
      && t == State(seq(|s.tokens|, i requires 0 <= i < |s.tokens| => Delivered(s.tokens[i])), s.freq,
                    if s.phase == Running then s.epoch + 1 else s.epoch,
                    if s.phase == Running then Running else Finish2)
    case StartFinish =>
      s.phase == Running && s.epoch >= epochs && t == s.(phase := Finish1)
    case End =>
      s.phase == Finish2 && AllDealtWith(s) && t == s.(phase := Done)
  }

  /** No two sets have the same owner host and number, so none is stored over another. */
  ghost predicate DistinctKeys(tokens: seq<Token>) {
    forall i, j :: 0 <= i < j < |tokens| ==>
      tokens[i].p.id != tokens[j].p.id || tokens[i].p.ownerHost != tokens[j].p.ownerHost
  }

  /** Every host seeds its sets at nodes it owns and counts nothing yet. */
  ghost predicate Init(net: Net, s: State) {
    && WellFormed(net) && DistinctKeys(s.tokens)
    && (forall i :: 0 <= i < |s.tokens| ==>
        var k := s.tokens[i];
        && k.p.ownerHost < net.hosts && k.root < |net.adj| && net.owner[k.root] == k.p.ownerHost
        && k.p.reached == {k.root} && k.p.frontier == {k.root}
        && k.place == At(k.p.ownerHost) && !k.cut)
    && s.freq == seq(|net.adj|, _ => 0)
    && s.epoch == 0 && s.phase == Running
  }

  // ---------- The invariant of one set ----------

  ghost predicate HasOwned(net: Net, host: nat, nodes: set<nat>)
    requires |net.owner| == |net.adj|
  {
    exists v :: v in nodes && v < |net.adj| && net.owner[v] == host
  }

  /** What holds of a set wherever it is: it only has reachable nodes, and follows every live edge unless it was cut. */
  ghost predicate SetInv(net: Net, coin: Coins, k: Token)
    requires WellFormed(net)
  {
    && Sound(net, k.p)
    && k.root < |net.adj| && net.owner[k.root] == k.p.ownerHost
    && k.root in k.p.reached
    && (forall v :: v in k.p.reached ==> Reachable(net, coin, k.p, k.root, v))
    && (!k.cut ==> forall u :: u in Expanded(k.p) ==> Live(net, coin, k.p, u) <= k.p.reached)
  }

  /** Where a set may be in which state, and how much of it has been expanded by then. */
  ghost predicate PlaceInv(net: Net, k: Token, epoch: nat, phase: Phase)
    requires WellFormed(net)
  {
    && (k.root in k.p.frontier ==> k.place == At(k.p.ownerHost))
    && (phase == Running ==> !k.cut)
    && match k.place
       case At(h) =>
         && h < net.hosts && phase != Done
         && (phase == Finish2 ==> h == k.p.ownerHost && k.p.frontier == {})
         && (phase == Running && k.p.frontier != {} ==>
             |Expanded(k.p)| > epoch || (|Expanded(k.p)| == epoch && HasOwned(net, h, k.p.frontier)))
       case Sent(from, to) =>
         && from != to && to < net.hosts
         && (phase == Running || phase == Finish1)
         && (k.p.frontier == {} ==> to == k.p.ownerHost)
         && (k.p.frontier != {} ==> phase == Running && |Expanded(k.p)| > epoch && HasOwned(net, to, k.p.frontier))
       case Stored => k.p.frontier == {}
       case Dropped => false
  }

  /** When the epochs are over, a set that has not come to its end has been worked on in every epoch. */
  ghost predicate CutInv(net: Net, epochs: nat, k: Token, phase: Phase)
    requires WellFormed(net)
  {
    phase != Running ==>
      && (k.cut ==> |Expanded(k.p)| > epochs)
      && (k.p.frontier != {} ==>
          |Expanded(k.p)| > epochs || (|Expanded(k.p)| == epochs && k.place.At? && HasOwned(net, k.place.host, k.p.frontier)))
  }

  ghost function ExpandedSets(tokens: seq<Token>): (r: seq<set<nat>>)
    ensures |r| == |tokens| && forall i :: 0 <= i < |r| ==> r[i] == Expanded(tokens[i].p)
  {
    seq(|tokens|, i requires 0 <= i < |tokens| => Expanded(tokens[i].p))
  }

  /** Every counter is the number of sets, wherever they are, that have the node and have visited it. */
  ghost predicate CountInv(net: Net, s: State) {
    |s.freq| == |net.adj| && forall v :: 0 <= v < |s.freq| ==> s.freq[v] == Containing(ExpandedSets(s.tokens), v)
  }

  ghost predicate TokenInv(net: Net, coin: Coins, epochs: nat, k: Token, epoch: nat, phase: Phase)
    requires WellFormed(net)
  {
    SetInv(net, coin, k) && PlaceInv(net, k, epoch, phase) && CutInv(net, epochs, k, phase)
  }

  ghost predicate Inv(net: Net, coin: Coins, epochs: nat, s: State) {
    && WellFormed(net)
    && CountInv(net, s)
    && s.epoch <= epochs && (s.phase != Running ==> s.epoch == epochs)
    && (s.phase == Running && s.epoch >= epochs ==> forall i :: 0 <= i < |s.tokens| ==> !s.tokens[i].place.Sent?)
    && forall i :: 0 <= i < |s.tokens| ==> TokenInv(net, coin, epochs, s.tokens[i], s.epoch, s.phase)
  }

  /** The identity of a set: its owner host and its number there. */
  ghost predicate SameSets(s: State, t: State) {
    && |s.tokens| == |t.tokens|
    && forall i :: 0 <= i < |s.tokens| ==>
       && s.tokens[i].root == t.tokens[i].root
       && s.tokens[i].p.id == t.tokens[i].p.id && s.tokens[i].p.ownerHost == t.tokens[i].p.ownerHost
  }

  lemma InitInv(net: Net, coin: Coins, epochs: nat, s: State)
    requires Init(net, s)
    ensures Inv(net, coin, epochs, s)
  {
    forall i | 0 <= i < |s.tokens|
      ensures TokenInv(net, coin, epochs, s.tokens[i], s.epoch, s.phase)
    {
      var k := s.tokens[i];
      RootReachable(net, coin, k.p, k.root);
      assert k.root in k.p.frontier;
    }
    forall v: nat
      ensures Containing(ExpandedSets(s.tokens), v) == 0
    {
      NothingContains(ExpandedSets(s.tokens), v);
    }
  }

  lemma {:induction false} NothingContains(sets: seq<set<nat>>, v: nat)
    requires forall i :: 0 <= i < |sets| ==> v !in sets[i]
    ensures Containing(sets, v) == 0
  {
    if sets != [] {
      NothingContains(sets[1..], v);
    }
  }

  /** Reachability and liveness only depend on the identity of a set. */
  lemma SameIdentity(net: Net, coin: Coins, p: Partial, q: Partial, root: nat, v: nat)
    requires p.id == q.id && p.ownerHost == q.ownerHost
    requires Reachable(net, coin, p, root, v)
    ensures Reachable(net, coin, q, root, v)
  {
    var path :| LivePath(net, coin, p, path) && path[0] == root && path[|path| - 1] == v;
    SameLive(net, coin, p, q);
    forall i: nat | i + 1 < |path|
      ensures LiveStep(net, coin, q, path, i)
    {
      assert LiveStep(net, coin, p, path, i);
      SameLiveTo(net, coin, p, q, path[i], path[i + 1]);
    }
    assert LivePath(net, coin, q, path);
  }

  lemma SameLiveTo(net: Net, coin: Coins, p: Partial, q: Partial, u: nat, v: nat)
    requires p.id == q.id && p.ownerHost == q.ownerHost && u < |net.adj| && LiveTo(net, coin, p, u, v)
    ensures LiveTo(net, coin, q, u, v)
  {
    var k :| 0 <= k < |net.adj[u]| && LiveEdge(net, coin, p, u, k, v);
    assert LiveEdge(net, coin, q, u, k, v);
  }

  lemma SameLive(net: Net, coin: Coins, p: Partial, q: Partial)
    requires p.id == q.id && p.ownerHost == q.ownerHost
    ensures forall u: nat :: u < |net.adj| ==> Live(net, coin, p, u) == Live(net, coin, q, u)
  {
  }

  /** Following the edges of a frontier node keeps the set sound, reachable and closed. */
  lemma ExpandKeepsSet(net: Net, coin: Coins, k: Token, u: nat)
    requires WellFormed(net) && SetInv(net, coin, k) && u in k.p.frontier
    ensures SetInv(net, coin, k.(p := Expand(net, coin, k.p, u)))
  {
    var q := Expand(net, coin, k.p, u);
    ExpandFacts(net, coin, k.p, u);
    SameLive(net, coin, k.p, q);
    forall v | v in q.reached
      ensures Reachable(net, coin, q, k.root, v)
    {
      if v !in k.p.reached {
        ReachableExtends(net, coin, k.p, k.root, u, v);
      }
      SameIdentity(net, coin, k.p, q, k.root, v);
    }
    hide Live, Reachable;
  }

  /** Counting a node, or dropping the frontier, only takes nodes away. */
  lemma ShrinkKeepsSet(net: Net, coin: Coins, k: Token, q: Partial, cut: bool)
    requires WellFormed(net) && SetInv(net, coin, k)
    requires q.id == k.p.id && q.ownerHost == k.p.ownerHost && q.reached <= k.p.reached && q.frontier <= q.reached
    requires k.root in q.reached && (!cut ==> !k.cut && q == k.p)
    ensures SetInv(net, coin, k.(p := q, cut := cut))
  {
    forall v | v in q.reached
      ensures Reachable(net, coin, q, k.root, v)
    {
      SameIdentity(net, coin, k.p, q, k.root, v);
    }
  }

  lemma OneMoreExpanded(net: Net, coin: Coins, p: Partial, u: nat)
    requires WellFormed(net) && Sound(net, p) && u in p.frontier
    ensures |Expanded(Expand(net, coin, p, u))| == |Expanded(p)| + 1
  {
    ExpandFacts(net, coin, p, u);
    assert u !in Expanded(p);
  }

  /** A set with a frontier has not expanded every node. */
  lemma UnfinishedIsSmall(net: Net, p: Partial)
    requires Sound(net, p) && p.frontier != {}
    ensures |Expanded(p)| < |net.adj|
  {
    var u :| u in p.frontier;
    IndexSetSize(Expanded(p) + {u}, |net.adj|);
    assert |Expanded(p) + {u}| == |Expanded(p)| + 1;
  }

  lemma VisitKeepsToken(net: Net, coin: Coins, epochs: nat, s: State, i: nat, u: nat, t: State)
    requires Inv(net, coin, epochs, s) && Next(net, coin, epochs, s, Visits(i, u), t)
    ensures TokenInv(net, coin, epochs, t.tokens[i], t.epoch, t.phase)
  {
    var k := s.tokens[i];
    assert TokenInv(net, coin, epochs, k, s.epoch, s.phase);
    if Finishing(s) {
      TallyFacts(net, k.p, u);
      ShrinkKeepsSet(net, coin, k, Tally(k.p, u), true);
      hide SetInv;
      assert PlaceInv(net, t.tokens[i], t.epoch, t.phase);
    } else {
      ExpandKeepsSet(net, coin, k, u);
      OneMoreExpanded(net, coin, k.p, u);
      hide SetInv;
      assert PlaceInv(net, t.tokens[i], t.epoch, t.phase);
    }
  }

  lemma LeaveKeepsToken(net: Net, coin: Coins, epochs: nat, s: State, i: nat, next: nat, t: State)
    requires Inv(net, coin, epochs, s) && Next(net, coin, epochs, s, Leaves(i, next), t)
    ensures TokenInv(net, coin, epochs, t.tokens[i], t.epoch, t.phase)
  {
    var k := s.tokens[i];
    assert TokenInv(net, coin, epochs, k, s.epoch, s.phase);
    hide SetInv;
    if Finishing(s) {
      FinishedLeaves(net, coin, epochs, k, t.tokens[i], s.epoch, s.phase);
    } else {
      RunningLeaves(net, coin, epochs, k, t.tokens[i], next, s.epoch);
    }
  }

  lemma FinishedLeaves(net: Net, coin: Coins, epochs: nat, k: Token, l: Token, epoch: nat, phase: Phase)
    requires WellFormed(net) && TokenInv(net, coin, epochs, k, epoch, phase)
    requires (phase == Finish1 || phase == Finish2) && k.place.At? && NothingOwned(net, k.place.host, k.p.frontier)
    requires l.p == CutOff(k.p) && l.root == k.root && l.cut == (k.cut || l.p != k.p)
    requires l.place == if k.p.ownerHost == k.place.host then Stored else Sent(k.place.host, k.p.ownerHost)
    ensures TokenInv(net, coin, epochs, l, epoch, phase)
  {
    assert k.p.frontier == {} ==> l.p == k.p;
    assert l == k.(p := l.p, cut := l.cut, place := l.place);
    ShrinkKeepsSet(net, coin, k, l.p, l.cut);
    MovedSet(net, coin, k.(p := l.p, cut := l.cut), l.place);
    hide SetInv;
  }

  lemma MovedSet(net: Net, coin: Coins, k: Token, place: Place)
    requires WellFormed(net) && SetInv(net, coin, k)
    ensures SetInv(net, coin, k.(place := place))
  {
  }

  lemma RunningLeaves(net: Net, coin: Coins, epochs: nat, k: Token, l: Token, next: nat, epoch: nat)
    requires WellFormed(net) && TokenInv(net, coin, epochs, k, epoch, Running)
    requires k.place.At? && NothingOwned(net, k.place.host, k.p.frontier) && (k.p.frontier != {} ==> next in k.p.frontier)
    requires l.p == k.p && l.root == k.root && !l.cut
    requires l.place == if k.p.ownerHost == k.place.host && k.p.frontier == {} then Stored
                        else Sent(k.place.host, NextHost(net, k.p, false, next))
    ensures TokenInv(net, coin, epochs, l, epoch, Running)
  {
    assert l == k.(place := l.place);
    MovedSet(net, coin, k, l.place);
    assert next in k.p.reached || k.p.frontier == {};
    assert next < |net.adj| || k.p.frontier == {};
    hide SetInv;
  }

  /** Delivery never meets a set addressed to its own sender, so it never discards one. */
  lemma DeliveryKeepsToken(net: Net, coin: Coins, epochs: nat, s: State, i: nat, t: State)
    requires Inv(net, coin, epochs, s) && Next(net, coin, epochs, s, Exchange, t) && i < |s.tokens|
    ensures TokenInv(net, coin, epochs, t.tokens[i], t.epoch, t.phase)
  {
    var k := s.tokens[i];
    assert TokenInv(net, coin, epochs, k, s.epoch, s.phase);
    assert t.tokens[i].p == k.p;
    assert SetInv(net, coin, t.tokens[i]);
    hide SetInv, HasOwned;
    assert PlaceInv(net, t.tokens[i], t.epoch, t.phase);
  }

  lemma StartKeepsToken(net: Net, coin: Coins, epochs: nat, s: State, i: nat, t: State)
    requires Inv(net, coin, epochs, s) && i < |s.tokens|
    requires Next(net, coin, epochs, s, StartFinish, t)
    ensures TokenInv(net, coin, epochs, t.tokens[i], t.epoch, t.phase)
  {
    var k := s.tokens[i];
    assert TokenInv(net, coin, epochs, k, s.epoch, s.phase);
    hide SetInv;
  }

  lemma NextCounts(net: Net, coin: Coins, epochs: nat, s: State, step: Step, t: State)
    requires Inv(net, coin, epochs, s) && Next(net, coin, epochs, s, step, t)
    ensures CountInv(net, t)
  {
    match step
    case Visits(i, u) =>
      VisitsCounts(net, coin, epochs, s, i, u, t);
    case Leaves(i, next) =>
      var k := s.tokens[i];
      assert TokenInv(net, coin, epochs, k, s.epoch, s.phase);
      CutOffFacts(net, k.p);
      hide SetInv, PlaceInv, CutInv, NothingOwned, Containing;
      assert ExpandedSets(t.tokens) == ExpandedSets(s.tokens);
    case _ =>
      assert ExpandedSets(t.tokens) == ExpandedSets(s.tokens);
  }

  lemma VisitsCounts(net: Net, coin: Coins, epochs: nat, s: State, i: nat, u: nat, t: State)
    requires Inv(net, coin, epochs, s) && Next(net, coin, epochs, s, Visits(i, u), t)
    ensures CountInv(net, t)
  {
    hide TokenInv, NothingOwned, Containing, Expand, Tally;
    var k := s.tokens[i];
    SoundToken(net, coin, epochs, k, s.epoch, s.phase);
    TallyFacts(net, k.p, u);
    ExpandFacts(net, coin, k.p, u);
    VisitCounts(ExpandedSets(s.tokens), ExpandedSets(t.tokens), i, u);
  }

  lemma SoundToken(net: Net, coin: Coins, epochs: nat, k: Token, epoch: nat, phase: Phase)
    requires WellFormed(net) && TokenInv(net, coin, epochs, k, epoch, phase)
    ensures Sound(net, k.p)
  {
  }

  lemma VisitCounts(before: seq<set<nat>>, after: seq<set<nat>>, i: nat, u: nat)
    requires i < |before| == |after| && u !in before[i] && after[i] == before[i] + {u}
    requires forall j :: 0 <= j < |before| && j != i ==> after[j] == before[j]
    ensures forall v: nat :: Containing(after, v) == Containing(before, v) + if v == u then 1 else 0
  {
    assert after == before[i := before[i] + {u}];
    forall v: nat
      ensures Containing(after, v) == Containing(before, v) + if v == u then 1 else 0
    {
      ContainingUpdate(before, i, before[i] + {u}, v);
    }
  }

  /** Every step keeps the invariant, and the sets keep their identity. */
  lemma NextInv(net: Net, coin: Coins, epochs: nat, s: State, step: Step, t: State)
    requires Inv(net, coin, epochs, s) && Next(net, coin, epochs, s, step, t)
    ensures Inv(net, coin, epochs, t) && SameSets(s, t)
  {
    NextCounts(net, coin, epochs, s, step, t);
    NextKeepsSets(net, coin, epochs, s, step, t);
    hide CountInv, SetInv, PlaceInv, CutInv, Next, SameSets;
    forall i | 0 <= i < |t.tokens|
      ensures TokenInv(net, coin, epochs, t.tokens[i], t.epoch, t.phase)
    {
      NextKeepsToken(net, coin, epochs, s, step, i, t);
    }
  }

  lemma NextKeepsSets(net: Net, coin: Coins, epochs: nat, s: State, step: Step, t: State)
    requires Inv(net, coin, epochs, s) && Next(net, coin, epochs, s, step, t)
    ensures SameSets(s, t) && t.epoch <= epochs && (t.phase != Running ==> t.epoch == epochs)
    ensures t.phase == Running && t.epoch >= epochs ==> forall i :: 0 <= i < |t.tokens| ==> !t.tokens[i].place.Sent?
  {
    hide CountInv, TokenInv, SetInv, Live, NothingOwned;
  }

  lemma NextKeepsToken(net: Net, coin: Coins, epochs: nat, s: State, step: Step, i: nat, t: State)
    requires Inv(net, coin, epochs, s) && Next(net, coin, epochs, s, step, t) && i < |s.tokens|
    ensures |t.tokens| == |s.tokens| && TokenInv(net, coin, epochs, t.tokens[i], t.epoch, t.phase)
  {
    assert TokenInv(net, coin, epochs, s.tokens[i], s.epoch, s.phase);
    match step
    case Visits(j, u) =>
      VisitKeepsToken(net, coin, epochs, s, j, u, t);
    case Leaves(j, next) =>
      LeaveKeepsToken(net, coin, epochs, s, j, next, t);
    case Exchange =>
      DeliveryKeepsToken(net, coin, epochs, s, i, t);
    case StartFinish =>
      StartKeepsToken(net, coin, epochs, s, i, t);
    case End =>
      hide SetInv;
  }

  /** State `last` is s after the nodes of the trace have been visited for set i. */
  ghost predicate VisitedAll(net: Net, coin: Coins, s: State, i: nat, trace: seq<nat>, last: State)
    requires i < |s.tokens| && forall j :: 0 <= j < |trace| ==> trace[j] < |net.adj|
  {
    var k := s.tokens[i];
    && last.tokens == s.tokens[i := k.(p := Visit(net, coin, k.p, trace, Finishing(s)),
                                       cut := k.cut || (Finishing(s) && trace != []))]
    && last.epoch == s.epoch && last.phase == s.phase && |last.freq| == |s.freq|
    && forall v: nat :: v < |s.freq| ==> last.freq[v] == s.freq[v] + multiset(trace)[v]
  }

  lemma OneMoreVisit(net: Net, coin: Coins, epochs: nat, s: State, i: nat, trace: seq<nat>, before: State) returns (last: State)
    requires WellFormed(net) && Working(s, epochs) && i < |s.tokens| && s.tokens[i].place.At? && |s.freq| == |net.adj|
    requires trace != [] && forall j :: 0 <= j < |trace| ==> trace[j] < |net.adj|
    requires var n := |trace| - 1;
             && VisitedAll(net, coin, s, i, trace[..n], before)
             && net.owner[trace[n]] == s.tokens[i].place.host
             && trace[n] in Visit(net, coin, s.tokens[i].p, trace[..n], Finishing(s)).frontier
    ensures Next(net, coin, epochs, before, Visits(i, trace[|trace| - 1]), last)
    ensures VisitedAll(net, coin, s, i, trace, last)
  {
    var n := |trace| - 1;
    var u := trace[n];
    var k := before.tokens[i];
    var after := if Finishing(s) then k.(p := Tally(k.p, u), cut := true) else k.(p := Expand(net, coin, k.p, u));
    last := before.(tokens := before.tokens[i := after], freq := before.freq[u := before.freq[u] + 1]);
    assert trace == trace[..n] + [u];
    assert multiset(trace) == multiset(trace[..n]) + multiset{u};
    hide Expand, Tally, WellFormed;
    assert last.tokens == s.tokens[i := after];
  }

  /** The traversal the code performs at one host is a sequence of visits of the system. */
  lemma {:induction false} ContinueIsVisits(net: Net, coin: Coins, epochs: nat, s: State, i: nat, trace: seq<nat>)
    returns (states: seq<State>)
    requires WellFormed(net) && Working(s, epochs) && |s.freq| == |net.adj|
    requires i < |s.tokens| && s.tokens[i].place.At?
    requires LegalTrace(net, coin, s.tokens[i].place.host, s.tokens[i].p, trace, Finishing(s))
    ensures VisitRun(net, coin, epochs, i, trace, states) && states[0] == s
    ensures VisitedAll(net, coin, s, i, trace, states[|trace|])
    decreases |trace|
  {
    assert forall j :: 0 <= j < |trace| ==> trace[j] < |net.adj|;
    if trace == [] {
      states := [s];
      assert s.tokens[i := s.tokens[i]] == s.tokens;
    } else {
      var n := |trace| - 1;
      LegalPrefix(net, coin, s.tokens[i].place.host, s.tokens[i].p, trace, Finishing(s));
      hide LegalTrace, VisitedAll, VisitRun, Next, Visit, Finishing;
      var prior := ContinueIsVisits(net, coin, epochs, s, i, trace[..n]);
      var last := OneMoreVisit(net, coin, epochs, s, i, trace, prior[n]);
      VisitRunExtends(net, coin, epochs, i, trace, prior, last);
      states := prior + [last];
    }
  }

  /** Consecutive states related by visits of the nodes of the trace for set i. */
  ghost predicate VisitRun(net: Net, coin: Coins, epochs: nat, i: nat, trace: seq<nat>, states: seq<State>)
    requires WellFormed(net)
    ensures VisitRun(net, coin, epochs, i, trace, states) ==> |states| == |trace| + 1
  {
    && |states| == |trace| + 1
    && forall j: nat :: j < |trace| ==> VisitAt(net, coin, epochs, i, trace, states, j)
  }

  ghost predicate VisitAt(net: Net, coin: Coins, epochs: nat, i: nat, trace: seq<nat>, states: seq<State>, j: nat)
    requires WellFormed(net) && |states| == |trace| + 1 && j < |trace|
  {
    Next(net, coin, epochs, states[j], Visits(i, trace[j]), states[j + 1])
  }

  lemma VisitRunExtends(net: Net, coin: Coins, epochs: nat, i: nat, trace: seq<nat>, prior: seq<State>, last: State)
    requires WellFormed(net) && trace != []
    requires VisitRun(net, coin, epochs, i, trace[..|trace| - 1], prior)
    requires Next(net, coin, epochs, prior[|trace| - 1], Visits(i, trace[|trace| - 1]), last)
    ensures VisitRun(net, coin, epochs, i, trace, prior + [last])
    ensures (prior + [last])[0] == prior[0] && (prior + [last])[|trace|] == last
  {
    var states := prior + [last];
    forall j: nat | j < |trace|
      ensures VisitAt(net, coin, epochs, i, trace, states, j)
    {
      if j < |trace| - 1 {
        assert VisitAt(net, coin, epochs, i, trace[..|trace| - 1], prior, j);
        assert trace[..|trace| - 1][j] == trace[j];
        assert states[j] == prior[j] && states[j + 1] == prior[j + 1];
      }
    }
  }

  lemma LegalPrefix(net: Net, coin: Coins, host: nat, p: Partial, trace: seq<nat>, finish: bool)
    requires LegalTrace(net, coin, host, p, trace, finish) && trace != []
    ensures var n := |trace| - 1;
            && LegalTrace(net, coin, host, p, trace[..n], finish)
            && trace[n] < |net.adj| && net.owner[trace[n]] == host
            && trace[n] in Visit(net, coin, p, trace[..n], finish).frontier
  {
    hide Expand, Tally, Visit;
    var n := |trace| - 1;
    forall i | 0 <= i < n
      ensures trace[..n][i] in Visit(net, coin, p, trace[..n][..i], finish).frontier
    {
      assert trace[..n][..i] == trace[..i];
    }
  }

  // ---------- Whole runs ----------

  ghost predicate Run(net: Net, coin: Coins, epochs: nat, states: seq<State>, steps: seq<Step>) {
    && |states| == |steps| + 1
    && Init(net, states[0])
    && forall j: nat :: j < |steps| ==> StepAt(net, coin, epochs, states, steps, j)
  }

  ghost predicate StepAt(net: Net, coin: Coins, epochs: nat, states: seq<State>, steps: seq<Step>, j: nat)
    requires WellFormed(net) && |states| == |steps| + 1 && j < |steps|
  {
    Next(net, coin, epochs, states[j], steps[j], states[j + 1])
  }

  /**
    In every reachable state the counters count the visited nodes of all sets,
    and every set is in exactly one place and none is discarded.
   */
  lemma {:induction false} RunInv(net: Net, coin: Coins, epochs: nat, states: seq<State>, steps: seq<Step>, j: nat)
    requires Run(net, coin, epochs, states, steps) && j <= |steps|
    ensures Inv(net, coin, epochs, states[j]) && SameSets(states[0], states[j])
    ensures forall i :: 0 <= i < |states[j].tokens| ==> !states[j].tokens[i].place.Dropped?
  {
    hide Next, CountInv, SetInv, CutInv;
    if j == 0 {
      InitInv(net, coin, epochs, states[0]);
    } else {
      RunInv(net, coin, epochs, states, steps, j - 1);
      assert StepAt(net, coin, epochs, states, steps, j - 1);
      NextInv(net, coin, epochs, states[j - 1], steps[j - 1], states[j]);
    }
    forall i | 0 <= i < |states[j].tokens|
      ensures !states[j].tokens[i].place.Dropped?
    {
      assert TokenInv(net, coin, epochs, states[j].tokens[i], states[j].epoch, states[j].phase);
    }
  }

  ghost function ReachedSets(tokens: seq<Token>): (r: seq<set<nat>>)
    ensures |r| == |tokens| && forall i :: 0 <= i < |r| ==> r[i] == tokens[i].p.reached
  {
    seq(|tokens|, i requires 0 <= i < |tokens| => tokens[i].p.reached)
  }

  /**
    When generation is over every set is stored at its owner, the counters count
    the stored sets a node occurs in, every stored set has its root and only
    nodes reachable from it, and a set that was not cut off has exactly the
    reachable nodes. All epochs have been run: a set that was cut off has more
    nodes than there are epochs, so with as many epochs as nodes none is.
   */
  lemma Generated(net: Net, coin: Coins, epochs: nat, states: seq<State>, steps: seq<Step>)
    requires Run(net, coin, epochs, states, steps) && states[|steps|].phase == Done
    ensures var s := states[|steps|];
            && SameSets(states[0], s) && DistinctKeys(s.tokens) && |s.freq| == |net.adj|
            && (forall i :: 0 <= i < |s.tokens| ==> s.tokens[i].place == Stored)
            && (forall v :: 0 <= v < |s.freq| ==> s.freq[v] == Containing(ReachedSets(s.tokens), v))
            && (forall v :: 0 <= v < |s.freq| ==> s.freq[v] == |set i: nat | i < |s.tokens| && v in s.tokens[i].p.reached|)
            && (forall i :: 0 <= i < |s.tokens| ==> TraversalResult(net, coin, s.tokens[i]))
            && s.epoch == epochs
            && (forall i :: 0 <= i < |s.tokens| && s.tokens[i].cut ==> epochs < |s.tokens[i].p.reached| <= |net.adj|)
  {
    RunInv(net, coin, epochs, states, steps, |steps|);
    var s := states[|steps|];
    forall i | 0 <= i < |s.tokens|
      ensures s.tokens[i].place == Stored && s.tokens[i].p.frontier == {}
      ensures Expanded(s.tokens[i].p) == s.tokens[i].p.reached
      ensures s.tokens[i].cut ==> epochs < |s.tokens[i].p.reached| <= |net.adj|
    {
      assert TokenInv(net, coin, epochs, s.tokens[i], s.epoch, s.phase);
      IndexSetSize(s.tokens[i].p.reached, |net.adj|);
    }
    assert ExpandedSets(s.tokens) == ReachedSets(s.tokens);
    forall v | 0 <= v < |s.freq|
      ensures s.freq[v] == |set i: nat | i < |s.tokens| && v in s.tokens[i].p.reached|
    {
      StoredWith(s.tokens, v);
    }
    forall i | 0 <= i < |s.tokens|
      ensures TraversalResult(net, coin, s.tokens[i])
    {
      assert TokenInv(net, coin, epochs, s.tokens[i], s.epoch, s.phase);
      StoredResult(net, coin, s.tokens[i]);
    }
  }

  lemma StoredWith(tokens: seq<Token>, v: nat)
    ensures Containing(ReachedSets(tokens), v) == |set i: nat | i < |tokens| && v in tokens[i].p.reached|
  {
    ContainingIsSize(ReachedSets(tokens), v);
    assert SetsWith(ReachedSets(tokens), v) == set i: nat | i < |tokens| && v in tokens[i].p.reached;
  }

  /** The result a sequential traversal of the live edges would give, or a part of it that has the root. */
  ghost predicate TraversalResult(net: Net, coin: Coins, k: Token) {
    && k.root in k.p.reached
    && (forall v :: v in k.p.reached ==> Reachable(net, coin, k.p, k.root, v))
    && (!k.cut ==> forall v :: Reachable(net, coin, k.p, k.root, v) ==> v in k.p.reached)
  }

  lemma StoredResult(net: Net, coin: Coins, k: Token)
    requires WellFormed(net) && SetInv(net, coin, k) && k.p.frontier == {}
    ensures TraversalResult(net, coin, k)
  {
    if !k.cut {
      assert Expanded(k.p) == k.p.reached;
      forall v | Reachable(net, coin, k.p, k.root, v)
        ensures v in k.p.reached
      {
        var path :| LivePath(net, coin, k.p, path) && path[0] == k.root && path[|path| - 1] == v;
        ClosedHasPath(net, coin, k.p, k.p.reached, path);
      }
    }
  }

  // ---------- Every run comes to an end ----------

  /** How many exchanges and changes of phase are still to come, at most. */
  ghost function Stage(epochs: nat, s: State): int {
    match s.phase
    case Running => 3 + epochs - s.epoch
    case Finish1 => 2
    case Finish2 => 1
    case Done => 0
  }

  /** What is still to be done with each set before the next exchange, at most. */
  ghost function Work(net: Net, tokens: seq<Token>): nat -> int {
    (i: nat) => if i < |tokens| && tokens[i].place.At? then 1 + |net.adj| - |Expanded(tokens[i].p)| else 0
  }

  ghost function Left(net: Net, s: State): int {
    Total(|s.tokens|, Work(net, s.tokens))
  }

  lemma LeftPositive(net: Net, coin: Coins, epochs: nat, s: State)
    requires Inv(net, coin, epochs, s)
    ensures Left(net, s) >= 0 && Stage(epochs, s) >= 0
  {
    forall i: nat | i < |s.tokens|
      ensures Work(net, s.tokens)(i) >= 0
    {
      var k := s.tokens[i];
      assert TokenInv(net, coin, epochs, k, s.epoch, s.phase);
      IndexSetSize(Expanded(k.p), |net.adj|);
    }
    TotalNonneg(|s.tokens|, Work(net, s.tokens));
  }

  /** Every step brings the end nearer: it is one stage less, or less work in the same stage. */
  lemma StepAdvances(net: Net, coin: Coins, epochs: nat, s: State, step: Step, t: State)
    requires Inv(net, coin, epochs, s) && Next(net, coin, epochs, s, step, t)
    ensures 0 <= Stage(epochs, t) < Stage(epochs, s) || (Stage(epochs, t) == Stage(epochs, s) && 0 <= Left(net, t) < Left(net, s))
  {
    NextInv(net, coin, epochs, s, step, t);
    LeftPositive(net, coin, epochs, t);
    hide Inv, Total;
    match step
    case Visits(i, u) =>
      VisitWorks(net, coin, epochs, s, i, u, t);
    case Leaves(i, next) =>
      LeaveWorks(net, coin, epochs, s, i, next, t);
    case _ =>
  }

  lemma VisitWorks(net: Net, coin: Coins, epochs: nat, s: State, i: nat, u: nat, t: State)
    requires Inv(net, coin, epochs, s) && Next(net, coin, epochs, s, Visits(i, u), t)
    ensures Left(net, t) < Left(net, s)
  {
    hide TokenInv, NothingOwned, Expand, Tally, Total;
    var k := s.tokens[i];
    SoundToken(net, coin, epochs, k, s.epoch, s.phase);
    TallyFacts(net, k.p, u);
    ExpandFacts(net, coin, k.p, u);
    assert u !in Expanded(k.p);
    TotalChange(|s.tokens|, Work(net, s.tokens), Work(net, t.tokens), i);
  }

  lemma LeaveWorks(net: Net, coin: Coins, epochs: nat, s: State, i: nat, next: nat, t: State)
    requires Inv(net, coin, epochs, s) && Next(net, coin, epochs, s, Leaves(i, next), t)
    ensures Left(net, t) < Left(net, s)
  {
    hide TokenInv, NothingOwned, CutOff, Total;
    var k := s.tokens[i];
    SoundToken(net, coin, epochs, k, s.epoch, s.phase);
    IndexSetSize(Expanded(k.p), |net.adj|);
    TotalChange(|s.tokens|, Work(net, s.tokens), Work(net, t.tokens), i);
  }

  /** Until generation is done some step is possible. */
  lemma NotStuck(net: Net, coin: Coins, epochs: nat, s: State) returns (step: Step, t: State)
    requires Inv(net, coin, epochs, s) && s.phase != Done
    ensures Next(net, coin, epochs, s, step, t)
  {
    hide TokenInv, Delivered;
    if s.phase == Running && s.epoch >= epochs {
      step, t := StartFinish, s.(phase := Finish1);
    } else if AllDealtWith(s) {
      if s.phase == Finish2 {
        step, t := End, s.(phase := Done);
      } else {
        step := Exchange;
        t := State(seq(|s.tokens|, i requires 0 <= i < |s.tokens| => Delivered(s.tokens[i])), s.freq,
                   if s.phase == Running then s.epoch + 1 else s.epoch, if s.phase == Running then Running else Finish2);
      }
    } else {
      var i: nat :| i < |s.tokens| && s.tokens[i].place.At?;
      SoundToken(net, coin, epochs, s.tokens[i], s.epoch, s.phase);
      step, t := TokenSteps(net, coin, epochs, s, i);
    }
  }

  lemma TokenSteps(net: Net, coin: Coins, epochs: nat, s: State, i: nat) returns (step: Step, t: State)
    requires WellFormed(net) && Working(s, epochs) && |s.freq| == |net.adj|
    requires i < |s.tokens| && s.tokens[i].place.At? && Sound(net, s.tokens[i].p)
    ensures Next(net, coin, epochs, s, step, t)
  {
    var k := s.tokens[i];
    if NothingOwned(net, k.place.host, k.p.frontier) {
      var q := if Finishing(s) then CutOff(k.p) else k.p;
      var next: nat := 0;
      if q.frontier != {} {
        next :| next in q.frontier;
      }
      var place := if q.ownerHost == k.place.host && (Finishing(s) || q.frontier == {}) then Stored
                   else Sent(k.place.host, NextHost(net, q, Finishing(s), next));
      step, t := Leaves(i, next), s.(tokens := s.tokens[i := Token(q, k.root, place, k.cut || q != k.p)]);
    } else {
      var u: nat :| u in k.p.frontier && u < |net.adj| && net.owner[u] == k.place.host;
      var after := if Finishing(s) then k.(p := Tally(k.p, u), cut := true) else k.(p := Expand(net, coin, k.p, u));
      step, t := Visits(i, u), s.(tokens := s.tokens[i := after], freq := s.freq[u := s.freq[u] + 1]);
    }
  }

  /** Every run can be continued until generation is done; as every step advances, none goes on for ever. */
  lemma {:induction false} Completes(net: Net, coin: Coins, epochs: nat, states: seq<State>, steps: seq<Step>)
    returns (states': seq<State>, steps': seq<Step>)
    requires Run(net, coin, epochs, states, steps)
    ensures Run(net, coin, epochs, states', steps') && states <= states' && steps <= steps'
    ensures states'[|steps'|].phase == Done
    decreases Stage(epochs, states[|steps|]), Left(net, states[|steps|])
  {
    hide Next, Inv, Left, Stage;
    var s := states[|steps|];
    RunInv(net, coin, epochs, states, steps, |steps|);
    LeftPositive(net, coin, epochs, s);
    if s.phase == Done {
      states', steps' := states, steps;
    } else {
      var step, t := NotStuck(net, coin, epochs, s);
      StepAdvances(net, coin, epochs, s, step, t);
      RunExtends(net, coin, epochs, states, steps, step, t);
      states', steps' := Completes(net, coin, epochs, states + [t], steps + [step]);
    }
  }

  lemma RunExtends(net: Net, coin: Coins, epochs: nat, states: seq<State>, steps: seq<Step>, step: Step, t: State)
    requires Run(net, coin, epochs, states, steps) && Next(net, coin, epochs, states[|steps|], step, t)
    ensures Run(net, coin, epochs, states + [t], steps + [step])
  {
    var longer, more := states + [t], steps + [step];
    forall j: nat | j < |more|
      ensures StepAt(net, coin, epochs, longer, more, j)
    {
      if j < |steps| {
        assert StepAt(net, coin, epochs, states, steps, j);
        assert longer[j] == states[j] && longer[j + 1] == states[j + 1];
      }
    }
  }
}
