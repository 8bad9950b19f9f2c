/**
  The greedy phase of wf4/src/influence_maximization.cpp on a cluster of hosts,
  as steps on a global state. Sets live at the host that generated them, the
  counter of a node lives at the node's owner, and every host may be anywhere in
  its part of the current round: emptying its sets node by node, sending its
  batched decrements, or applying the batches of others. The steps of different
  sets, threads and hosts interleave arbitrarily; only the barriers of the
  program order them.
 */
module Removal {
  import opened Basics
  import opened Finite
  import opened SeedSelection
  import opened Sums

  /** Number of hosts, owner of every node, host of every set. */
  datatype Config = Config(hosts: nat, owner: seq<nat>, home: seq<nat>)

  /**
    todo[i] holds the nodes of set i whose counters are still to be decremented
    while the set is being removed. pend[h] is the remote update map of host h
    (the destination of an entry is the owner of its node), msgs[h] the entries
    host h has sent and their owners have not applied, sent[h] says that h has
    finished its sets in this round.
   */
  datatype State = State(
    sets: seq<set<nat>>,
    todo: seq<Option<set<nat>>>,
    freq: seq<int>,
    pend: seq<seq<nat>>,
    msgs: seq<seq<nat>>,
    sent: seq<bool>,
    picks: seq<nat>)

  /** What a thread, a host or the cluster found so far; the node of a fresh record is unset. */
  datatype LocalMax = LocalMax(node: Option<nat>, influence: nat)

  // ---------- Choosing the maximum ----------

  /** The scan over the hosts' maxima in host order; only a strictly larger influence replaces the record. */
  ghost function GlobalMax(maxes: seq<LocalMax>): LocalMax {
    if maxes == [] then LocalMax(None, 0)
    else
      var best, last := GlobalMax(maxes[..|maxes| - 1]), maxes[|maxes| - 1];
      if last.influence > best.influence then last else best
  }

  /** lm is a correct answer of host h: an owned node of largest counter, or unset when no owned counter is positive. */
  ghost predicate IsHostMax(c: Config, freq: seq<int>, h: nat, lm: LocalMax)
    requires |freq| == |c.owner|
  {
    && (lm.node.None? ==> lm.influence == 0)
    && (lm.node.Some? ==>
        lm.node.value < |freq| && c.owner[lm.node.value] == h && freq[lm.node.value] == lm.influence)
    && forall v :: 0 <= v < |freq| && c.owner[v] == h ==> freq[v] <= lm.influence
  }

  /** y is the pick all hosts derive from the exchanged maxima; an unset pick is arbitrary. */
  ghost predicate IsPick(c: Config, freq: seq<int>, maxes: seq<LocalMax>, y: nat)
    requires |freq| == |c.owner|
  {
    && |maxes| == c.hosts
    && (forall h :: 0 <= h < c.hosts ==> IsHostMax(c, freq, h, maxes[h]))
    && (GlobalMax(maxes).node.Some? ==> y == GlobalMax(maxes).node.value)
  }

  // ---------- Steps ----------

  datatype Step =
    | Begin(i: nat)
    | Settle(i: nat, v: nat)
    | Clear(i: nat)
    | Send(h: nat)
    | Apply(h: nat, v: nat)
    | Pick(maxes: seq<LocalMax>, y: nat)

  ghost predicate Shape(c: Config, s: State) {
    && (forall v :: 0 <= v < |c.owner| ==> c.owner[v] < c.hosts)
    && (forall i :: 0 <= i < |c.home| ==> c.home[i] < c.hosts)
    && |s.sets| == |s.todo| == |c.home|
    && |s.freq| == |c.owner|
    && |s.pend| == |s.msgs| == |s.sent| == c.hosts
    && (forall h :: 0 <= h < c.hosts ==> |s.pend[h]| == |s.msgs[h]| == |c.owner|)
    && (forall i, v :: 0 <= i < |s.sets| && v in s.sets[i] ==> v < |c.owner|)
  }

  /** The node of the current round is in set i. */
  ghost predicate Doomed(s: State, i: nat)
    requires i < |s.sets|
  {
    s.picks != [] && s.picks[|s.picks| - 1] in s.sets[i]
  }

  /** Host h has emptied every set it has to empty in this round. */
  ghost predicate HostDone(c: Config, s: State, h: nat)
    requires Shape(c, s)
  {
    forall i :: 0 <= i < |s.sets| && c.home[i] == h ==> s.todo[i].None? && !Doomed(s, i)
  }

  ghost predicate Zero(row: seq<nat>) {
    forall v :: 0 <= v < |row| ==> row[v] == 0
  }

  /** The barrier between two rounds: everybody has sent, everything sent has been applied. */
  ghost predicate Barrier(c: Config, s: State)
    requires Shape(c, s)
  {
    && (s.picks == [] || forall h :: 0 <= h < c.hosts ==> s.sent[h])
    && forall h :: 0 <= h < c.hosts ==> Zero(s.msgs[h])
  }

  ghost predicate Next(c: Config, s: State, step: Step, t: State)
    requires Shape(c, s)
  {
    match step
    case Begin(i) =>
      && i < |s.sets| && s.todo[i].None? && Doomed(s, i)
      && t == s.(todo := s.todo[i := Some(s.sets[i])])
    case Settle(i, v) =>
      && i < |s.sets| && s.todo[i].Some? && v in s.todo[i].value && v < |c.owner|
      && var h := c.home[i];
         var after := s.(todo := s.todo[i := Some(s.todo[i].value - {v})]);
         t == if c.owner[v] == h then after.(freq := s.freq[v := s.freq[v] - 1])
              else after.(pend := s.pend[h := s.pend[h][v := s.pend[h][v] + 1]])
    case Clear(i) =>
      && i < |s.sets| && s.todo[i] == Some({})
      && t == s.(todo := s.todo[i := None], sets := s.sets[i := {}])
    case Send(h) =>
      && h < c.hosts && !s.sent[h] && s.picks != [] && HostDone(c, s, h)
      && t == s.(msgs := s.msgs[h := s.pend[h]], pend := s.pend[h := seq(|c.owner|, _ => 0)], sent := s.sent[h := true])
    case Apply(h, v) =>
      && h < c.hosts && v < |c.owner| && s.msgs[h][v] > 0 && s.sent[c.owner[v]]
      && t == s.(msgs := s.msgs[h := s.msgs[h][v := 0]], freq := s.freq[v := s.freq[v] - s.msgs[h][v]])
    case Pick(maxes, y) =>
      && Barrier(c, s) && IsPick(c, s.freq, maxes, y)
      && t == s.(picks := s.picks + [y], sent := seq(c.hosts, _ => false))
  }

  // ---------- The counting invariant ----------

  ghost function Column(rows: seq<seq<nat>>, v: nat): nat
    requires forall h :: 0 <= h < |rows| ==> v < |rows[h]|
  {
    if rows == [] then 0 else rows[0][v] + Column(rows[1..], v)
  }

  lemma {:induction false} ColumnUpdate(rows: seq<seq<nat>>, h: nat, row: seq<nat>, v: nat)
    requires h < |rows| && v < |row|
    requires forall k :: 0 <= k < |rows| ==> v < |rows[k]|
    ensures Column(rows[h := row], v) == Column(rows, v) - rows[h][v] + row[v]
  {
    if h == 0 {
      assert rows[0 := row][1..] == rows[1..];
    } else {
      assert rows[h := row][1..] == rows[1..][h - 1 := row];
      ColumnUpdate(rows[1..], h - 1, row, v);
    }
  }

  lemma {:induction false} ColumnZero(rows: seq<seq<nat>>, v: nat)
    requires forall k :: 0 <= k < |rows| ==> v < |rows[k]| && rows[k][v] == 0
    ensures Column(rows, v) == 0
  {
    if rows != [] {
      ColumnZero(rows[1..], v);
    }
  }

  /** Set i as far as its nodes are still counted. */
  ghost function Counted(s: State): (r: seq<set<nat>>)
    requires |s.sets| == |s.todo|
    ensures |r| == |s.sets|
    ensures forall i :: 0 <= i < |r| ==> r[i] == if s.todo[i].Some? then s.todo[i].value else s.sets[i]
  {
    seq(|s.sets|, i requires 0 <= i < |s.sets| => if s.todo[i].Some? then s.todo[i].value else s.sets[i])
  }

  /** Every counter equals the occurrences still counted plus the decrements under way. */
  ghost predicate CountersAgree(c: Config, s: State)
    requires Shape(c, s)
  {
    forall v :: 0 <= v < |s.freq| ==>
      s.freq[v] == Containing(Counted(s), v) + Column(s.pend, v) + Column(s.msgs, v)
  }

  ghost function Base(sets0: seq<set<nat>>, picks: seq<nat>): (r: seq<set<nat>>)
    ensures |r| == |sets0|
  {
    if picks == [] then sets0 else Remaining(sets0, picks[..|picks| - 1])
  }

  /** The part of the invariant about which sets are gone and who has sent. */
  ghost predicate RoundState(c: Config, sets0: seq<set<nat>>, s: State)
    requires Shape(c, s)
  {
    && |sets0| == |s.sets|
    && (forall i :: 0 <= i < |s.sets| ==>
        s.sets[i] == Base(sets0, s.picks)[i]
        || (s.picks != [] && s.picks[|s.picks| - 1] in Base(sets0, s.picks)[i] && s.sets[i] == {}))
    && (forall i :: 0 <= i < |s.sets| && s.todo[i].Some? ==> Doomed(s, i) && s.todo[i].value <= s.sets[i])
    && (forall h :: 0 <= h < c.hosts && s.sent[h] ==> s.picks != [] && HostDone(c, s, h) && Zero(s.pend[h]))
    && (forall h :: 0 <= h < c.hosts && !s.sent[h] ==> Zero(s.msgs[h]))
    && (s.picks == [] ==> forall h :: 0 <= h < c.hosts ==> Zero(s.pend[h]))
  }

  ghost predicate Inv(c: Config, sets0: seq<set<nat>>, s: State) {
    Shape(c, s) && CountersAgree(c, s) && RoundState(c, sets0, s) && Greedy(sets0, s.picks)
  }

  ghost predicate Init(c: Config, s: State) {
    && Shape(c, s)
    && (forall i :: 0 <= i < |s.todo| ==> s.todo[i].None?)
    && (forall h :: 0 <= h < c.hosts ==> Zero(s.pend[h]) && Zero(s.msgs[h]) && !s.sent[h])
    && (forall v :: 0 <= v < |s.freq| ==> s.freq[v] == Containing(s.sets, v))
    && s.picks == []
  }

  lemma InitInv(c: Config, s: State)
    requires Init(c, s)
    ensures Inv(c, s.sets, s)
  {
    assert Counted(s) == s.sets;
    forall v | 0 <= v < |s.freq|
      ensures Column(s.pend, v) == 0 && Column(s.msgs, v) == 0
    {
      ColumnZero(s.pend, v);
      ColumnZero(s.msgs, v);
    }
  }

  lemma NextShape(c: Config, s: State, step: Step, t: State)
    requires Shape(c, s) && Next(c, s, step, t)
    ensures Shape(c, t)
  {
  }

  lemma CountersAgreeNext(c: Config, s: State, step: Step, t: State)
    requires Shape(c, s) && CountersAgree(c, s) && Next(c, s, step, t) && Shape(c, t)
    requires forall h :: 0 <= h < c.hosts && !s.sent[h] ==> Zero(s.msgs[h])
    ensures CountersAgree(c, t)
  {
    match step
    case Settle(i, w) =>
      SettleCounts(c, s, i, w, t);
    case Send(h) =>
      SendCounts(c, s, h, t);
    case Apply(h, w) =>
      ApplyCounts(c, s, h, w, t);
    case _ =>
      assert Counted(t) == Counted(s);
  }

  /** A decrement leaves the set and reaches the counter or the update map, never both. */
  lemma SettleCounts(c: Config, s: State, i: nat, w: nat, t: State)
    requires Shape(c, s) && CountersAgree(c, s) && Next(c, s, Settle(i, w), t) && Shape(c, t)
    ensures CountersAgree(c, t)
  {
    var h, rest := c.home[i], s.todo[i].value - {w};
    assert Counted(t) == Counted(s)[i := rest];
    forall v | 0 <= v < |t.freq|
      ensures t.freq[v] == Containing(Counted(t), v) + Column(t.pend, v) + Column(t.msgs, v)
    {
      ContainingUpdate(Counted(s), i, rest, v);
      if c.owner[w] != h {
        ColumnUpdate(s.pend, h, s.pend[h][w := s.pend[h][w] + 1], v);
      }
    }
  }

  lemma SendCounts(c: Config, s: State, h: nat, t: State)
    requires Shape(c, s) && CountersAgree(c, s) && Next(c, s, Send(h), t) && Shape(c, t) && Zero(s.msgs[h])
    ensures CountersAgree(c, t)
  {
    assert Counted(t) == Counted(s);
    forall v | 0 <= v < |t.freq|
      ensures t.freq[v] == Containing(Counted(t), v) + Column(t.pend, v) + Column(t.msgs, v)
    {
      ColumnUpdate(s.pend, h, seq(|c.owner|, _ => 0), v);
      ColumnUpdate(s.msgs, h, s.pend[h], v);
    }
  }

  lemma ApplyCounts(c: Config, s: State, h: nat, w: nat, t: State)
    requires Shape(c, s) && CountersAgree(c, s) && Next(c, s, Apply(h, w), t) && Shape(c, t)
    ensures CountersAgree(c, t)
  {
    assert Counted(t) == Counted(s);
    forall v | 0 <= v < |t.freq|
      ensures t.freq[v] == Containing(Counted(t), v) + Column(t.pend, v) + Column(t.msgs, v)
    {
      ColumnUpdate(s.msgs, h, s.msgs[h][w := 0], v);
    }
  }

  /** At a barrier every set of the round is empty: the family is what the picks left over, and the counters count it. */
  lemma AtBarrier(c: Config, sets0: seq<set<nat>>, s: State)
    requires Inv(c, sets0, s) && Barrier(c, s)
    ensures s.sets == Remaining(sets0, s.picks)
    ensures forall i :: 0 <= i < |s.todo| ==> s.todo[i].None?
    ensures forall v :: 0 <= v < |s.freq| ==> s.freq[v] == Containing(s.sets, v)
  {
    forall i | 0 <= i < |s.sets|
      ensures s.todo[i].None? && s.sets[i] == Remaining(sets0, s.picks)[i]
    {
      assert s.picks != [] ==> s.sent[c.home[i]];
    }
    assert Counted(s) == s.sets;
    forall v | 0 <= v < |s.freq|
      ensures Column(s.pend, v) == 0 && Column(s.msgs, v) == 0
    {
      assert forall h :: 0 <= h < c.hosts ==> Zero(s.pend[h]);
      ColumnZero(s.pend, v);
      ColumnZero(s.msgs, v);
    }
  }

  /** best is the first of the records with the largest influence, provided that one is positive. */
  ghost predicate IsFirstLargest(maxes: seq<LocalMax>, best: LocalMax) {
    && (forall h :: 0 <= h < |maxes| ==> maxes[h].influence <= best.influence)
    && (best.influence == 0 ==> best.node.None?)
    && (best.influence > 0 ==> exists h :: 0 <= h < |maxes| && maxes[h] == best && LargerThanBefore(maxes, h))
  }

  ghost predicate LargerThanBefore(maxes: seq<LocalMax>, h: nat)
    requires h < |maxes|
  {
    forall i :: 0 <= i < h ==> maxes[i].influence < maxes[h].influence
  }

  /** The scan finds the first of the largest records. */
  lemma {:induction false} GlobalMaxBounds(maxes: seq<LocalMax>)
    ensures IsFirstLargest(maxes, GlobalMax(maxes))
    ensures GlobalMax(maxes) in maxes || GlobalMax(maxes) == LocalMax(None, 0)
  {
    if maxes != [] {
      var n := |maxes| - 1;
      var front, best := maxes[..n], GlobalMax(maxes[..n]);
      GlobalMaxBounds(front);
      assert forall h :: 0 <= h < n ==> maxes[h] == front[h];
      if maxes[n].influence > best.influence {
        assert LargerThanBefore(maxes, n);
      } else if best.influence > 0 {
        var h :| 0 <= h < n && front[h] == best && LargerThanBefore(front, h);
        assert LargerThanBefore(maxes, h);
      }
    }
  }

  /** The agreed pick has the largest counter in the cluster, and it is unset exactly when all counters are zero. */
  lemma PickIsLargest(c: Config, freq: seq<int>, maxes: seq<LocalMax>, y: nat)
    requires |freq| == |c.owner| && IsPick(c, freq, maxes, y)
    requires forall v :: 0 <= v < |freq| ==> c.owner[v] < c.hosts && 0 <= freq[v]
    ensures GlobalMax(maxes).node.Some? ==> y < |freq| && forall v :: 0 <= v < |freq| ==> freq[v] <= freq[y]
    ensures GlobalMax(maxes).node.Some? <==> exists v :: 0 <= v < |freq| && freq[v] > 0
  {
    GlobalMaxBounds(maxes);
    var best := GlobalMax(maxes);
    forall v | 0 <= v < |freq|
      ensures freq[v] <= best.influence
    {
      assert IsHostMax(c, freq, c.owner[v], maxes[c.owner[v]]);
    }
    if best.node.Some? {
      var h :| 0 <= h < |maxes| && maxes[h] == best;
      assert IsHostMax(c, freq, h, maxes[h]);
      UnsetUnlessPositive(maxes);
    }
  }

  /** A record enters the result only by a positive influence. */
  lemma {:induction false} UnsetUnlessPositive(maxes: seq<LocalMax>)
    ensures GlobalMax(maxes).node.Some? ==> GlobalMax(maxes).influence > 0
  {
    if maxes != [] {
      UnsetUnlessPositive(maxes[..|maxes| - 1]);
    }
  }

  lemma {:induction false} AbsentNode(sets: seq<set<nat>>, v: nat)
    requires forall i :: 0 <= i < |sets| ==> v !in sets[i]
    ensures Containing(sets, v) == 0
  {
    if sets != [] {
      AbsentNode(sets[1..], v);
    }
  }

  /** The pick made at a barrier occurs most often among the remaining sets; it is unset exactly when none remains. */
  lemma PickIsGreedy(c: Config, sets0: seq<set<nat>>, s: State, maxes: seq<LocalMax>, y: nat)
    requires Inv(c, sets0, s) && Barrier(c, s) && IsPick(c, s.freq, maxes, y)
    ensures Maximal(Remaining(sets0, s.picks), y)
    ensures GlobalMax(maxes).node.None? <==> forall i :: 0 <= i < |s.sets| ==> s.sets[i] == {}
  {
    AtBarrier(c, sets0, s);
    PickIsLargest(c, s.freq, maxes, y);
    forall v: nat
      ensures Containing(s.sets, v) <= Containing(s.sets, y)
    {
      if v >= |s.freq| {
        AbsentNode(s.sets, v);
      }
    }
    if i :| 0 <= i < |s.sets| && s.sets[i] != {} {
      var v :| v in s.sets[i];
      OccurrencesCount(s.sets, i, v);
      assert s.freq[v] > 0;
    } else {
      forall v | 0 <= v < |s.freq|
        ensures s.freq[v] == 0
      {
        AbsentNode(s.sets, v);
      }
    }
  }

  lemma RoundStateNext(c: Config, sets0: seq<set<nat>>, s: State, step: Step, t: State)
    requires Shape(c, s) && RoundState(c, sets0, s) && Next(c, s, step, t) && Shape(c, t) && !step.Pick?
    ensures RoundState(c, sets0, t)
  {
    match step
    case Begin(i) =>
      RoundStateSets(c, sets0, s, step, t);
    case Settle(i, w) =>
      RoundStateSets(c, sets0, s, step, t);
    case Clear(i) =>
      RoundStateCleared(c, sets0, s, i, t);
    case Send(h) =>
      RoundStateMessages(c, sets0, s, step, t);
    case Apply(h, w) =>
      RoundStateMessages(c, sets0, s, step, t);
  }

  lemma RoundStateSets(c: Config, sets0: seq<set<nat>>, s: State, step: Step, t: State)
    requires Shape(c, s) && RoundState(c, sets0, s) && Next(c, s, step, t) && Shape(c, t) && (step.Begin? || step.Settle?)
    ensures RoundState(c, sets0, t)
  {
    hide Remaining, Base, Barrier, IsPick;
  }

  lemma RoundStateCleared(c: Config, sets0: seq<set<nat>>, s: State, i: nat, t: State)
    requires Shape(c, s) && RoundState(c, sets0, s) && Next(c, s, Clear(i), t) && Shape(c, t)
    ensures RoundState(c, sets0, t)
  {
    hide Remaining, Base, Barrier, IsPick;
    forall h | 0 <= h < c.hosts && t.sent[h]
      ensures HostDone(c, t, h)
    {
    }
  }

  lemma RoundStateMessages(c: Config, sets0: seq<set<nat>>, s: State, step: Step, t: State)
    requires Shape(c, s) && RoundState(c, sets0, s) && Next(c, s, step, t) && Shape(c, t) && (step.Send? || step.Apply?)
    ensures RoundState(c, sets0, t)
  {
    hide Remaining, Base, Barrier, IsPick;
  }

  lemma RoundStatePick(c: Config, sets0: seq<set<nat>>, s: State, step: Step, t: State)
    requires Inv(c, sets0, s) && Next(c, s, step, t) && Shape(c, t) && step.Pick?
    ensures RoundState(c, sets0, t)
  {
    AtBarrier(c, sets0, s);
    assert Barrier(c, s);
    assert t.picks[..|t.picks| - 1] == s.picks;
    hide Remaining, Inv;
    NewRound(c, sets0, t);
  }

  lemma NewRound(c: Config, sets0: seq<set<nat>>, t: State)
    requires Shape(c, t) && t.picks != [] && |sets0| == |t.sets| && t.sets == Base(sets0, t.picks)
    requires forall i :: 0 <= i < |t.todo| ==> t.todo[i].None?
    requires forall h :: 0 <= h < c.hosts ==> !t.sent[h] && Zero(t.msgs[h])
    ensures RoundState(c, sets0, t)
  {
  }

  lemma GreedyAppend(sets: seq<set<nat>>, picks: seq<nat>, y: nat)
    requires Greedy(sets, picks) && Maximal(Remaining(sets, picks), y)
    ensures Greedy(sets, picks + [y])
  {
    forall j | 0 <= j < |picks| + 1
      ensures Maximal(Remaining(sets, (picks + [y])[..j]), (picks + [y])[j])
    {
      if j < |picks| {
        assert (picks + [y])[..j] == picks[..j];
      } else {
        assert (picks + [y])[..j] == picks;
      }
    }
  }

  /** Every step keeps the invariant. */
  lemma NextInv(c: Config, sets0: seq<set<nat>>, s: State, step: Step, t: State)
    requires Inv(c, sets0, s) && Next(c, s, step, t)
    ensures Inv(c, sets0, t)
  {
    NextShape(c, s, step, t);
    CountersAgreeNext(c, s, step, t);
    if !step.Pick? {
      RoundStateNext(c, sets0, s, step, t);
    } else {
      RoundStatePick(c, sets0, s, step, t);
      PickIsGreedy(c, sets0, s, step.maxes, step.y);
      GreedyAppend(sets0, s.picks, step.y);
    }
  }

  // ---------- Whole runs ----------

  ghost predicate Run(c: Config, states: seq<State>, steps: seq<Step>) {
    Steps(c, states, steps) && Init(c, states[0])
  }

  ghost predicate Steps(c: Config, states: seq<State>, steps: seq<Step>) {
    && |states| == |steps| + 1
    && forall j: nat :: j < |steps| ==> StepAt(c, states, steps, j)
  }

  ghost predicate StepAt(c: Config, states: seq<State>, steps: seq<Step>, j: nat)
    requires |states| == |steps| + 1 && j < |steps|
  {
    Shape(c, states[j]) && Next(c, states[j], steps[j], states[j + 1])
  }

  lemma {:induction false} RunInv(c: Config, states: seq<State>, steps: seq<Step>, j: nat)
    requires Run(c, states, steps) && j <= |steps|
    ensures Inv(c, states[0].sets, states[j])
  {
    if j == 0 {
      InitInv(c, states[0]);
    } else {
      RunInv(c, states, steps, j - 1);
      assert StepAt(c, states, steps, j - 1);
      NextInv(c, states[0].sets, states[j - 1], steps[j - 1], states[j]);
    }
  }

  /**
    In every reachable state, every counter is the number of remaining
    occurrences plus the decrements under way; as that is never negative, no
    subtraction of any step underflows.
   */
  lemma RunCounts(c: Config, states: seq<State>, steps: seq<Step>, j: nat)
    requires Run(c, states, steps) && j <= |steps|
    ensures Inv(c, states[0].sets, states[j])
    ensures forall v :: 0 <= v < |states[j].freq| ==> states[j].freq[v] >= 0
  {
    RunInv(c, states, steps, j);
  }

  /**
    The k picks of any run hit all but a (1 - 1/k)^k fraction of the sets that
    the best k nodes would hit, however the steps were interleaved.
   */
  lemma RunCoverage(c: Config, states: seq<State>, steps: seq<Step>, nodes: set<nat>)
    requires Run(c, states, steps)
    requires var k := |states[|steps|].picks|; k >= 1 && |nodes| <= k
    ensures var sets, picks := states[0].sets, states[|steps|].picks;
            CoverageBound(|picks|, |picks|, Hit(sets, nodes), Hit(sets, NodesOf(picks)))
  {
    RunInv(c, states, steps, |steps|);
    GreedyCoverage(states[0].sets, states[|steps|].picks, |states[|steps|].picks|, nodes);
  }

  // ---------- The next pick is always reached ----------

  ghost function NonZero(row: seq<nat>): set<nat> {
    set v: nat | v < |row| && row[v] > 0
  }

  /** Steps still to be taken for set i in this round. */
  ghost function SetWork(s: State): nat -> int
    requires |s.sets| == |s.todo|
  {
    (i: nat) => if i >= |s.sets| then 0
                else if s.todo[i].Some? then 1 + |s.todo[i].value|
                else if Doomed(s, i) then 2 + |s.sets[i]| else 0
  }

  /** Steps still to be taken for the messages of host h in this round, at most. */
  ghost function HostWork(c: Config, s: State): nat -> int
    requires Shape(c, s)
  {
    (h: nat) => if h >= c.hosts then 0 else |NonZero(s.msgs[h])| + if s.sent[h] then 0 else 1 + |c.owner|
  }

  ghost function Work(c: Config, s: State): int {
    if Shape(c, s) then Total(|s.sets|, SetWork(s)) + Total(c.hosts, HostWork(c, s)) else 0
  }

  lemma WorkPositive(c: Config, s: State)
    ensures Work(c, s) >= 0
  {
    if Shape(c, s) {
      TotalNonneg(|s.sets|, SetWork(s));
      TotalNonneg(c.hosts, HostWork(c, s));
    }
  }

  /** What progress needs of the invariant. */
  ghost predicate Orderly(c: Config, s: State) {
    && Shape(c, s)
    && (forall i :: 0 <= i < |s.sets| && s.todo[i].Some? ==> s.todo[i].value <= s.sets[i])
    && (forall h :: 0 <= h < c.hosts && !s.sent[h] ==> Zero(s.msgs[h]))
    && (s.picks == [] ==> forall h :: 0 <= h < c.hosts ==> Zero(s.msgs[h]))
  }

  lemma InvOrderly(c: Config, sets0: seq<set<nat>>, s: State)
    requires Inv(c, sets0, s)
    ensures Orderly(c, s)
  {
    hide Greedy, CountersAgree, Base, HostDone;
  }

  /** Every step but a pick leaves less to do. */
  lemma StepWorks(c: Config, s: State, step: Step, t: State)
    requires Orderly(c, s) && Next(c, s, step, t) && !step.Pick?
    ensures 0 <= Work(c, t) < Work(c, s) && t.picks == s.picks
  {
    NextShape(c, s, step, t);
    WorkPositive(c, t);
    hide Work, Orderly;
    match step
    case Send(h) =>
      SendWorks(c, s, h, t);
    case Apply(h, v) =>
      ApplyWorks(c, s, h, v, t);
    case Begin(i) =>
      SetStepWorks(c, s, step, i, t);
    case Settle(i, v) =>
      SetStepWorks(c, s, step, i, t);
    case Clear(i) =>
      SetStepWorks(c, s, step, i, t);
  }

  lemma SetStepWorks(c: Config, s: State, step: Step, i: nat, t: State)
    requires Shape(c, s) && Shape(c, t) && Next(c, s, step, t)
    requires step == Begin(i) || step == Clear(i) || (step.Settle? && step.i == i)
    ensures Work(c, t) < Work(c, s)
  {
    hide Work, HostDone, Barrier, IsPick;
    if step.Settle? {
      assert s.todo[i].value == t.todo[i].value + {step.v};
    }
    SetWorks(c, s, t, i);
  }

  lemma SendWorks(c: Config, s: State, h: nat, t: State)
    requires Orderly(c, s) && Shape(c, t) && Next(c, s, Send(h), t)
    ensures Work(c, t) < Work(c, s)
  {
    hide Work, HostDone, Barrier, IsPick;
    assert NonZero(s.msgs[h]) == {};
    IndexSetSize(NonZero(t.msgs[h]), |c.owner|);
    HostWorks(c, s, t, h);
  }

  lemma ApplyWorks(c: Config, s: State, h: nat, v: nat, t: State)
    requires Shape(c, s) && Shape(c, t) && Next(c, s, Apply(h, v), t)
    ensures Work(c, t) < Work(c, s)
  {
    hide Work, HostDone, Barrier, IsPick;
    assert NonZero(s.msgs[h]) == NonZero(t.msgs[h]) + {v};
    HostWorks(c, s, t, h);
  }

  lemma SetWorks(c: Config, s: State, t: State, i: nat)
    requires Shape(c, s) && Shape(c, t) && i < |s.sets| && SetWork(t)(i) < SetWork(s)(i)
    requires t.msgs == s.msgs && t.sent == s.sent && t.picks == s.picks
    requires forall j: nat :: j < |s.sets| && j != i ==> t.todo[j] == s.todo[j] && t.sets[j] == s.sets[j]
    ensures Work(c, t) < Work(c, s)
  {
    TotalChange(|s.sets|, SetWork(s), SetWork(t), i);
    TotalEq(c.hosts, HostWork(c, s), HostWork(c, t));
  }

  lemma HostWorks(c: Config, s: State, t: State, h: nat)
    requires Shape(c, s) && Shape(c, t) && h < c.hosts && HostWork(c, t)(h) < HostWork(c, s)(h)
    requires t.sets == s.sets && t.todo == s.todo && t.picks == s.picks
    requires forall g: nat :: g < c.hosts && g != h ==> t.msgs[g] == s.msgs[g] && t.sent[g] == s.sent[g]
    ensures Work(c, t) < Work(c, s)
  {
    TotalEq(|s.sets|, SetWork(s), SetWork(t));
    TotalChange(c.hosts, HostWork(c, s), HostWork(c, t), h);
  }

  lemma {:induction false} HostMaxUpTo(c: Config, freq: seq<int>, h: nat, n: nat) returns (lm: LocalMax)
    requires |freq| == |c.owner| && n <= |freq|
    ensures lm.node.None? ==> lm.influence == 0
    ensures lm.node.Some? ==> lm.node.value < n && c.owner[lm.node.value] == h && freq[lm.node.value] == lm.influence
    ensures forall v :: 0 <= v < n && c.owner[v] == h ==> freq[v] <= lm.influence
  {
    if n == 0 {
      lm := LocalMax(None, 0);
    } else {
      lm := HostMaxUpTo(c, freq, h, n - 1);
      if c.owner[n - 1] == h && freq[n - 1] > lm.influence {
        lm := LocalMax(Some(n - 1), freq[n - 1]);
      }
    }
  }

  /** At a barrier a pick can be made. */
  lemma PickPossible(c: Config, s: State) returns (step: Step, t: State)
    requires Shape(c, s) && Barrier(c, s)
    ensures step.Pick? && Next(c, s, step, t) && |t.picks| == |s.picks| + 1
  {
    var maxes: seq<LocalMax> := [];
    while |maxes| < c.hosts
      invariant |maxes| <= c.hosts && forall h :: 0 <= h < |maxes| ==> IsHostMax(c, s.freq, h, maxes[h])
    {
      var lm := HostMaxUpTo(c, s.freq, |maxes|, |s.freq|);
      maxes := maxes + [lm];
    }
    var y: nat := if GlobalMax(maxes).node.Some? then GlobalMax(maxes).node.value else 0;
    step, t := Pick(maxes, y), s.(picks := s.picks + [y], sent := seq(c.hosts, _ => false));
  }

  /** Away from a barrier some other step is possible. */
  lemma NotStuck(c: Config, s: State) returns (step: Step, t: State)
    requires Orderly(c, s) && !Barrier(c, s)
    ensures !step.Pick? && Next(c, s, step, t)
  {
    if i: nat :| i < |s.sets| && s.todo[i].Some? {
      step, t := SetStep(c, s, i);
    } else if i: nat :| i < |s.sets| && Doomed(s, i) {
      step, t := Begin(i), s.(todo := s.todo[i := Some(s.sets[i])]);
    } else if h: nat :| h < c.hosts && !s.sent[h] && s.picks != [] {
      step := Send(h);
      t := s.(msgs := s.msgs[h := s.pend[h]], pend := s.pend[h := seq(|c.owner|, _ => 0)], sent := s.sent[h := true]);
    } else {
      var h: nat :| h < c.hosts && !Zero(s.msgs[h]);
      step, t := MessageStep(c, s, h);
    }
  }

  lemma SetStep(c: Config, s: State, i: nat) returns (step: Step, t: State)
    requires Orderly(c, s) && i < |s.sets| && s.todo[i].Some?
    ensures !step.Pick? && Next(c, s, step, t)
  {
    if s.todo[i].value == {} {
      step, t := Clear(i), s.(todo := s.todo[i := None], sets := s.sets[i := {}]);
    } else {
      var v :| v in s.todo[i].value;
      assert v in s.sets[i];
      var h := c.home[i];
      var after := s.(todo := s.todo[i := Some(s.todo[i].value - {v})]);
      step := Settle(i, v);
      t := if c.owner[v] == h then after.(freq := s.freq[v := s.freq[v] - 1])
           else after.(pend := s.pend[h := s.pend[h][v := s.pend[h][v] + 1]]);
    }
  }

  lemma MessageStep(c: Config, s: State, h: nat) returns (step: Step, t: State)
    requires Shape(c, s) && h < c.hosts && !Zero(s.msgs[h]) && forall g :: 0 <= g < c.hosts ==> s.sent[g]
    ensures !step.Pick? && Next(c, s, step, t)
  {
    var v: nat :| v < |s.msgs[h]| && s.msgs[h][v] != 0;
    step, t := Apply(h, v), s.(msgs := s.msgs[h := s.msgs[h][v := 0]], freq := s.freq[v := s.freq[v] - s.msgs[h][v]]);
  }

  /** Every run can be continued to one more pick; as every other step leaves less to do, none goes on without one. */
  lemma {:induction false} NextPickReached(c: Config, states: seq<State>, steps: seq<Step>)
    returns (states': seq<State>, steps': seq<Step>)
    requires Run(c, states, steps)
    ensures Run(c, states', steps') && states <= states' && steps <= steps'
    ensures |states'[|steps'|].picks| == |states[|steps|].picks| + 1
    decreases Work(c, states[|steps|])
  {
    RunInv(c, states, steps, |steps|);
    hide Next, Work, Inv, Barrier;
    var s := states[|steps|];
    InvOrderly(c, states[0].sets, s);
    WorkPositive(c, s);
    if Barrier(c, s) {
      var step, t := PickPossible(c, s);
      RunExtends(c, states, steps, step, t);
      states', steps' := states + [t], steps + [step];
    } else {
      var step, t := NotStuck(c, s);
      StepWorks(c, s, step, t);
      RunExtends(c, states, steps, step, t);
      states', steps' := NextPickReached(c, states + [t], steps + [step]);
    }
  }

  lemma RunExtends(c: Config, states: seq<State>, steps: seq<Step>, step: Step, t: State)
    requires Run(c, states, steps) && Shape(c, states[|steps|]) && Next(c, states[|steps|], step, t)
    ensures Run(c, states + [t], steps + [step])
  {
    var longer, more := states + [t], steps + [step];
    forall j: nat | j < |more|
      ensures StepAt(c, longer, more, j)
    {
      if j < |steps| {
        assert StepAt(c, states, steps, j);
        assert longer[j] == states[j] && longer[j + 1] == states[j + 1];
      }
    }
  }
}
