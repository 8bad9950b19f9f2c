/**
  The same greedy phase as the code writes it: loops over sets, nodes, threads
  and hosts that update the counters in place.
 */
module GreedyCluster {
  import opened Basics
  import opened SeedSelection
  import opened Removal

  /** The scan over recorded maxima shared by threads and hosts. */
  method GetMaxNode(maxes: seq<LocalMax>) returns (best: LocalMax)
    ensures best == GlobalMax(maxes) && IsFirstLargest(maxes, best)
  {
    best := LocalMax(None, 0);
    for h := 0 to |maxes|
      invariant best == GlobalMax(maxes[..h])
    {
      assert maxes[..h + 1][..h] == maxes[..h];
      if maxes[h].influence > best.influence {
        best := maxes[h];
      }
    }
    assert maxes[..|maxes|] == maxes;
    GlobalMaxBounds(maxes);
  }

  ghost predicate ThreadRecord(c: Config, freq: seq<nat>, h: nat, slot: Option<LocalMax>)
    requires |freq| == |c.owner|
  {
    slot.Some? ==>
      var lm := slot.value;
      && lm.node.Some? && lm.node.value < |freq| && c.owner[lm.node.value] == h
      && freq[lm.node.value] == lm.influence
  }

  /** Every thread's record is of one of the host's nodes, and no node handled so far beats its thread's record. */
  ghost predicate Recorded(c: Config, freq: seq<nat>, h: nat, masters: seq<nat>, thread: seq<nat>, i: nat, records: seq<Option<LocalMax>>)
    requires |freq| == |c.owner| && i <= |thread| == |masters|
  {
    && (forall k :: 0 <= k < |records| ==> ThreadRecord(c, freq, h, records[k]))
    && forall j :: 0 <= j < i ==> Beaten(freq, masters[j], thread[j], records)
  }

  ghost predicate Beaten(freq: seq<nat>, v: nat, k: nat, records: seq<Option<LocalMax>>) {
    k < |records| && v < |freq| && records[k].Some? && freq[v] <= records[k].value.influence
  }

  /** The threads' records over all nodes of a host. */
  method RecordMaxima(c: Config, freq: seq<nat>, h: nat, masters: seq<nat>, thread: seq<nat>, threads: nat)
    returns (records: seq<Option<LocalMax>>)
    requires |freq| == |c.owner| && |thread| == |masters|
    requires forall i :: 0 <= i < |masters| ==> masters[i] < |freq| && c.owner[masters[i]] == h
    requires forall i :: 0 <= i < |thread| ==> thread[i] < threads
    ensures |records| == threads && Recorded(c, freq, h, masters, thread, |masters|, records)
  {
    records := seq(threads, _ => Option<LocalMax>.None);
    for i := 0 to |masters|
      invariant |records| == threads && Recorded(c, freq, h, masters, thread, i, records)
    {
      var v, k := masters[i], thread[i];
      if records[k].None? || freq[v] > records[k].value.influence {
        records := records[k := Some(LocalMax(Some(v), freq[v]))];
      }
    }
  }

  /**
    The maximum of one host. The host's nodes are visited in any order and any
    thread may take any of them; every thread keeps its own record.
   */
  method HostMaximum(c: Config, freq: seq<nat>, h: nat, masters: seq<nat>, thread: seq<nat>, threads: nat)
    returns (lm: LocalMax)
    requires |freq| == |c.owner| && |thread| == |masters|
    requires forall v: nat :: v in masters <==> v < |freq| && c.owner[v] == h
    requires forall i :: 0 <= i < |thread| ==> thread[i] < threads
    ensures IsHostMax(c, freq, h, lm)
  {
    assert forall i :: 0 <= i < |masters| ==> masters[i] in masters;
    var records := RecordMaxima(c, freq, h, masters, thread, threads);
    var found: seq<LocalMax> := [];
    hide Recorded, ThreadRecord;
    for k := 0 to threads
      invariant forall lm :: lm in found ==> ThreadRecord(c, freq, h, Some(lm))
      invariant forall j :: 0 <= j < k && records[j].Some? ==> records[j].value in found
    {
      if records[k].Some? {
        found := found + [records[k].value];
      }
    }
    lm := GetMaxNode(found);
    FoundIsMax(c, freq, h, masters, thread, records, found);
  }

  /** The largest of the records is the host's maximum. */
  lemma FoundIsMax(c: Config, freq: seq<nat>, h: nat, masters: seq<nat>, thread: seq<nat>, records: seq<Option<LocalMax>>,
                   found: seq<LocalMax>)
    requires |freq| == |c.owner| && |thread| == |masters|
    requires forall v: nat :: v in masters <==> v < |freq| && c.owner[v] == h
    requires Recorded(c, freq, h, masters, thread, |masters|, records)
    requires forall lm :: lm in found ==> ThreadRecord(c, freq, h, Some(lm))
    requires forall j :: 0 <= j < |records| && records[j].Some? ==> records[j].value in found
    ensures IsHostMax(c, freq, h, GlobalMax(found))
  {
    GlobalMaxBounds(found);
    forall v | 0 <= v < |freq| && c.owner[v] == h
      ensures freq[v] <= GlobalMax(found).influence
    {
      var j :| 0 <= j < |masters| && masters[j] == v;
      assert Beaten(freq, masters[j], thread[j], records);
      var r :| 0 <= r < |found| && found[r] == records[thread[j]].value;
    }
  }

  /** The maxima as host h sees them after receiving those of the others, in any order of arrival. */
  method ExchangeMostInfluentialNodes(c: Config, h: nat, locals: seq<LocalMax>, arrivals: seq<nat>)
    returns (maxes: seq<LocalMax>)
    requires h < c.hosts == |locals|
    requires forall k: nat :: k in arrivals <==> k < c.hosts && k != h
    ensures maxes == locals
  {
    assert forall i :: 0 <= i < |arrivals| ==> arrivals[i] in arrivals;
    maxes := seq(c.hosts, _ => LocalMax(None, 0))[h := locals[h]];
    for i := 0 to |arrivals|
      invariant |maxes| == c.hosts && maxes[h] == locals[h]
      invariant forall j :: 0 <= j < i ==> maxes[arrivals[j]] == locals[arrivals[j]]
    {
      maxes := maxes[arrivals[i] := locals[arrivals[i]]];
    }
    forall k: nat | k < c.hosts
      ensures maxes[k] == locals[k]
    {
      if k != h {
        assert k in arrivals;
        var j :| 0 <= j < |arrivals| && arrivals[j] == k;
      }
    }
  }

  /** What the update maps of all hosts still hold for node v. */
  ghost function Pending(remote: seq<map<nat, nat>>, v: nat): nat {
    if remote == [] then 0 else (if v in remote[0] then remote[0][v] else 0) + Pending(remote[1..], v)
  }

  lemma {:induction false} PendingUpdate(remote: seq<map<nat, nat>>, h: nat, m: map<nat, nat>, v: nat)
    requires h < |remote|
    ensures Pending(remote[h := m], v) ==
      Pending(remote, v) - (if v in remote[h] then remote[h][v] else 0) + if v in m then m[v] else 0
  {
    if h == 0 {
      assert remote[0 := m][1..] == remote[1..];
    } else {
      assert remote[h := m][1..] == remote[1..][h - 1 := m];
      PendingUpdate(remote[1..], h - 1, m, v);
    }
  }

  lemma {:induction false} PendingTerm(remote: seq<map<nat, nat>>, h: nat, v: nat)
    requires h < |remote| && v in remote[h]
    ensures remote[h][v] <= Pending(remote, v)
  {
    if h > 0 {
      PendingTerm(remote[1..], h - 1, v);
    }
  }

  lemma {:induction false} PendingNothing(remote: seq<map<nat, nat>>, v: nat)
    requires forall h :: 0 <= h < |remote| ==> v !in remote[h]
    ensures Pending(remote, v) == 0
  {
    if remote != [] {
      PendingNothing(remote[1..], v);
    }
  }

  /** The loop counter of the pick loop is unsigned 64-bit, so asking for no nodes wraps around. */
  function PickCount(numNodes: nat): (r: nat)
    ensures numNodes > 0 ==> r == numNodes
    ensures numNodes == 0 ==> r == 0x1_0000_0000_0000_0000
  {
    if numNodes == 0 then 0x1_0000_0000_0000_0000 else numNodes
  }

  /** The update map of host h only has nodes that other hosts own. */
  ghost predicate Foreign(c: Config, h: nat, m: map<nat, nat>) {
    forall v: nat | v in m :: v < |c.owner| && c.owner[v] != h
  }

  class Cluster {
    const c: Config
    const sets: array<set<nat>>
    const freq: array<nat>
    var remote: seq<map<nat, nat>>

    ghost predicate Valid()
      reads this, sets, freq
    {
      && (forall v :: 0 <= v < |c.owner| ==> c.owner[v] < c.hosts)
      && (forall i :: 0 <= i < |c.home| ==> c.home[i] < c.hosts)
      && sets.Length == |c.home| && freq.Length == |c.owner| && |remote| == c.hosts
      && (forall i: nat, v: nat :: i < sets.Length && v in sets[i] ==> v < freq.Length)
      && (forall h :: 0 <= h < |remote| ==> Foreign(c, h, remote[h]))
    }

    /** Every counter is what the sets `counted` contain plus what waits in the update maps. */
    ghost predicate Agree(counted: seq<set<nat>>)
      reads this, freq
    {
      forall v :: 0 <= v < freq.Length ==> freq[v] == Containing(counted, v) + Pending(remote, v)
    }

    ghost predicate NothingPending()
      reads this
    {
      forall h :: 0 <= h < |remote| ==> remote[h] == map[]
    }

    /** Empties set i if it has the node x, taking each of its nodes off its counter, here or by a remote update. */
    method RemoveReachableSetsWithInfluentialNode(i: nat, x: nat)
      requires Valid() && i < sets.Length && Agree(sets[..])
      modifies sets, freq, this`remote
      ensures Valid() && Agree(sets[..])
      ensures sets[..] == old(sets[..])[i := if x in old(sets[i]) then {} else old(sets[i])]
    {
      if x !in sets[i] {
        assert sets[..] == old(sets[..])[i := old(sets[i])];
        return;
      }
      var h, todo := c.home[i], sets[i];
      ghost var counted := sets[..];
      while todo != {}
        invariant Valid() && todo <= sets[i] && sets[..] == old(sets[..])
        invariant counted == old(sets[..])[i := todo] && Agree(counted)
        decreases todo
      {
        var v :| v in todo;
        OccurrencesCount(counted, i, v);
        forall w | 0 <= w < freq.Length
          ensures Containing(counted[i := todo - {v}], w) == Containing(counted, w) - if w == v then 1 else 0
        {
          ContainingUpdate(counted, i, todo - {v}, w);
        }
        if c.owner[v] == h {
          freq[v] := freq[v] - 1;
        } else {
          var count := if v in remote[h] then remote[h][v] + 1 else 1;
          forall w | 0 <= w < freq.Length
            ensures Pending(remote[h := remote[h][v := count]], w) == Pending(remote, w) + if w == v then 1 else 0
          {
            PendingUpdate(remote, h, remote[h][v := count], w);
          }
          remote := remote[h := remote[h][v := count]];
        }
        todo := todo - {v};
        counted := counted[i := todo];
      }
      sets[i] := {};
      assert sets[..] == counted;
    }

    /** Every host sends its update map to the owners, who subtract the entries; the maps are empty afterwards. */
    method RemoveNodesFromRemotes()
      requires Valid() && Agree(sets[..])
      modifies freq, this`remote
      ensures Valid() && Agree(sets[..]) && NothingPending()
    {
      for h := 0 to |remote|
        invariant Valid() && Agree(sets[..])
        invariant forall k :: 0 <= k < h ==> remote[k] == map[]
      {
        while remote[h] != map[]
          invariant Valid() && Agree(sets[..])
          invariant forall k :: 0 <= k < h ==> remote[k] == map[]
          decreases remote[h].Keys
        {
          assert remote[h].Keys != {};
          var v :| v in remote[h].Keys;
          RemoveNode(h, v);
        }
      }
    }

    /** Subtracts one entry of a removal map from its counter. */
    method RemoveNode(h: nat, v: nat)
      requires Valid() && Agree(sets[..]) && h < |remote| && v in remote[h]
      modifies freq, this`remote
      ensures Valid() && Agree(sets[..]) && remote == old(remote)[h := old(remote[h]) - {v}]
    {
      PendingTerm(remote, h, v);
      var rest := remote[h] - {v};
      forall w | 0 <= w < freq.Length
        ensures Pending(remote[h := rest], w) == Pending(remote, w) - if w == v then remote[h][v] else 0
      {
        PendingUpdate(remote, h, rest, w);
      }
      freq[v] := freq[v] - remote[h][v];
      remote := remote[h := rest];
    }

    /** The pick all hosts agree on; when every counter is zero no record is set and the pick is arbitrary. */
    method GetMostInfluentialNode() returns (y: nat)
      requires Valid() && Agree(sets[..]) && NothingPending()
      ensures Maximal(sets[..], y)
    {
      var locals: seq<LocalMax> := [];
      for h := 0 to c.hosts
        invariant |locals| == h
        invariant forall k :: 0 <= k < h ==> IsHostMax(c, freq[..], k, locals[k])
      {
        var masters: seq<nat> := [];
        for v := 0 to freq.Length
          invariant forall w: nat :: w in masters <==> w < v && c.owner[w] == h
        {
          if c.owner[v] == h {
            masters := masters + [v];
          }
        }
        var lm := HostMaximum(c, freq[..], h, masters, seq(|masters|, _ => 0), 1);
        locals := locals + [lm];
      }
      var best := GetMaxNode(locals);
      y := *;
      if best.node.Some? {
        y := best.node.value;
      }
      PickIsLargest(c, freq[..], locals, y);
      LargestIsMaximal(y, best);
    }

    lemma LargestIsMaximal(y: nat, best: LocalMax)
      requires Valid() && Agree(sets[..]) && NothingPending()
      requires best.node.Some? ==> y < freq.Length && forall v :: 0 <= v < freq.Length ==> freq[v] <= freq[y]
      requires best.node.None? ==> forall v :: 0 <= v < freq.Length ==> freq[v] == 0
      ensures Maximal(sets[..], y)
    {
      forall v: nat
        ensures Containing(sets[..], v) <= Containing(sets[..], y)
      {
        if v < freq.Length {
          PendingNothing(remote, v);
        } else {
          AbsentNode(sets[..], v);
        }
        if y < freq.Length {
          PendingNothing(remote, y);
        }
      }
    }

    /** Picks the asked-for number of nodes, removing the sets of each pick before the next. */
    method GetInfluentialNodes(numNodes: nat) returns (picks: seq<nat>)
      requires Valid() && Agree(sets[..]) && NothingPending()
      modifies sets, freq, this`remote
      ensures |picks| == PickCount(numNodes) && Greedy(old(sets[..]), picks)
      ensures Valid() && Agree(sets[..]) && NothingPending()
      ensures sets[..] == Remaining(old(sets[..]), picks[..|picks| - 1])
    {
      ghost var sets0 := sets[..];
      var y := GetMostInfluentialNode();
      picks := [y];
      GreedyAppend(sets0, [], y);
      for i := 0 to PickCount(numNodes) - 1
        invariant |picks| == i + 1 && y == picks[i]
        invariant Valid() && Agree(sets[..]) && NothingPending()
        invariant Greedy(sets0, picks)
        invariant sets[..] == Remaining(sets0, picks[..i])
      {
        ghost var before := sets[..];
        for n := 0 to sets.Length
          invariant Valid() && Agree(sets[..])
          invariant forall k :: 0 <= k < sets.Length ==> sets[k] == if k < n && y in before[k] then {} else before[k]
        {
          RemoveReachableSetsWithInfluentialNode(n, y);
        }
        assert sets[..] == Without(before, y);
        assert picks == picks[..i] + [y];
        RemoveNodesFromRemotes();
        assert sets[..] == Remaining(sets0, picks);
        y := GetMostInfluentialNode();
        GreedyAppend(sets0, picks, y);
        picks := picks + [y];
        assert picks[..i + 1] == picks[..|picks| - 1];
      }
    }
  }
}
