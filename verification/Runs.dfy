/** Runs of the allocator: any sequence of `SetTargets` and `SetCollectors` calls, with any
    strategy and any map iteration order. */
module Runs {
  import opened GoMaps
  import opened Placement

  ghost predicate OwnersLive(m: Cluster) {
    forall h :: h in m.items ==> m.items[h].owner == "" || m.items[h].owner in m.nodes
  }

  /******* One step *******/

  lemma PlaceSettles(s: Strategy, m: Cluster, h: Hash)
    requires "" !in m.nodes && Synced(s, m.nodes) && OwnersLive(m) && h in m.items
    ensures var m' := Place(s, m, h);
      && m'.nodes == m.nodes && m'.items.Keys == m.items.Keys && OwnersLive(m')
      && m'.items[h] == m.items[h].(owner := m'.items[h].owner)
      && Settled(s, m.nodes, m'.items[h])
      && forall k :: k in m.items && k != h ==> m'.items[k] == m.items[k]
  {
    if m.nodes != map[] {
      ChooseIsSafe(s, m, m.items[h]);
    }
  }

  /** Same target, possibly another owner. */
  ghost predicate SameTarget(t: Target, t': Target) {
    t.(owner := "") == t'.(owner := "")
  }

  lemma {:induction false} PlaceAllSettles(s: Strategy, m: Cluster, order: seq<Hash>)
    requires "" !in m.nodes && Synced(s, m.nodes) && OwnersLive(m)
    requires forall h :: h in order ==> h in m.items
    ensures var m' := PlaceAll(s, m, order);
      && OwnersLive(m')
      && (forall h :: h in order ==> SameTarget(m.items[h], m'.items[h]) && Settled(s, m.nodes, m'.items[h]))
      && forall h :: h in m.items && h !in order ==> m'.items[h] == m.items[h]
  {
    if order != [] {
      var n := |order| - 1;
      PlaceAllSettles(s, m, order[..n]);
      PlaceSettles(s, PlaceAll(s, m, order[..n]), order[n]);
      SplitLast(order);
    }
  }

  lemma {:induction false} AddAllSettles(s: Strategy, m: Cluster, targets: map<Hash, Target>, order: seq<Hash>)
    requires Inv(s, m)
    requires forall h :: h in order ==> h in targets
    ensures var m' := AddAll(s, m, targets, order);
      && Inv(s, m') && m'.nodes == m.nodes
      && m'.items.Keys == m.items.Keys + (set h | h in order)
      && (forall h :: h in order ==> SameTarget(targets[h], m'.items[h]))
      && forall h :: h in m.items && h !in order ==> m'.items[h] == m.items[h]
  {
    hide Inv, Add;
    if order != [] {
      var n := |order| - 1;
      AddAllSettles(s, m, targets, order[..n]);
      AddSettles(s, AddAll(s, m, targets, order[..n]), order[n], targets[order[n]]);
      SplitLast(order);
    }
  }

  lemma AddSettles(s: Strategy, m: Cluster, h: Hash, t: Target)
    requires Inv(s, m)
    ensures var m' := Add(s, m, h, t);
      && Inv(s, m') && m'.nodes == m.nodes && m'.items.Keys == m.items.Keys + {h}
      && SameTarget(t, m'.items[h])
      && forall k :: k in m.items && k != h ==> m'.items[k] == m.items[k]
  {
    forall k | k in m.items ensures m.items[k].owner == "" || m.items[k].owner in m.nodes {
      SettledOwner(s, m.nodes, m.items[k]);
    }
    PlaceSettles(s, m.(items := m.items[h := t.(owner := "")]), h);
  }

  /** `SetTargets` keeps the invariant; afterwards exactly the given targets are tracked, and those
      that were tracked before are untouched. */
  lemma TargetsStepCorrect(s: Strategy, m: Cluster, targets: map<Hash, Target>, m': Cluster)
    requires Inv(s, m) && TargetsStep(s, m, targets, m')
    ensures Inv(s, m') && m'.nodes == m.nodes
    ensures m'.items.Keys == targets.Keys
    ensures forall h :: h in targets && h in m.items ==> m'.items[h] == m.items[h]
    ensures forall h :: h in targets && h !in m.items ==> SameTarget(targets[h], m'.items[h])
  {
    hide AddAll, Inv;
    var order :| TargetsStepBy(s, m, targets, m', order);
    ForgetKeepsInv(s, m, targets.Keys);
    AddAllSettles(s, Forget(m, targets.Keys), targets, order);
    assert (set h | h in order) == targets.Keys - m.items.Keys;
  }

  lemma ForgetKeepsInv(s: Strategy, m: Cluster, keep: set<Hash>)
    requires Inv(s, m)
    ensures Inv(s, Forget(m, keep))
  {
  }

  lemma ResyncSyncs(s: Strategy, s': Strategy, before: map<string, string>, after: map<string, string>)
    requires Synced(s, before) && Resync(s, s', after)
    ensures Synced(s', after)
  {
  }

  /** `SetCollectors` keeps the invariant; afterwards exactly the given names are live, no target
      is lost, and no target changes anything but its owner. */
  lemma CollectorsStepCorrect(s: Strategy, m: Cluster, nodes: map<string, string>, s': Strategy, m': Cluster)
    requires Inv(s, m) && "" !in nodes && CollectorsStep(s, m, nodes, s', m')
    ensures Inv(s', m')
    ensures m'.nodes.Keys == nodes.Keys && m'.items.Keys == m.items.Keys
    ensures forall c :: c in nodes ==> m'.nodes[c] == if c in m.nodes then m.nodes[c] else nodes[c]
    ensures forall h :: h in m.items ==> SameTarget(m.items[h], m'.items[h])
  {
    if nodes.Keys != m.nodes.Keys {
      ReplaceFacts(m, nodes);
      ResyncSyncs(s, s', m.nodes, Replace(m, nodes).nodes);
      ReplacementCorrect(s', m, nodes, Replace(m, nodes), m');
    }
  }

  lemma ReplaceFacts(m: Cluster, nodes: map<string, string>)
    ensures var m1 := Replace(m, nodes);
      && OwnersLive(m1)
      && m1.nodes.Keys == nodes.Keys && m1.items.Keys == m.items.Keys
      && (forall h :: h in m.items ==> SameTarget(m.items[h], m1.items[h]))
      && forall c :: c in nodes ==> m1.nodes[c] == if c in m.nodes then m.nodes[c] else nodes[c]
  {
  }

  lemma ReplacementCorrect(s: Strategy, m: Cluster, nodes: map<string, string>, m1: Cluster, m': Cluster)
    requires m1 == Replace(m, nodes)
    requires "" !in m1.nodes && Synced(s, m1.nodes) && OwnersLive(m1) && m1.items.Keys == m.items.Keys
    requires forall h :: h in m.items ==> SameTarget(m.items[h], m1.items[h])
    requires exists order :: CollectorsStepBy(s, m, nodes, m', order)
    ensures Inv(s, m') && m'.nodes == m1.nodes && m'.items.Keys == m.items.Keys
    ensures forall h :: h in m.items ==> SameTarget(m.items[h], m'.items[h])
  {
    var order :| CollectorsStepBy(s, m, nodes, m', order);
    PlaceAllSettles(s, m1, order);
    forall h | h in m.items ensures Settled(s, m'.nodes, m'.items[h]) && SameTarget(m.items[h], m'.items[h]) {
      assert h in order;
      assert SameTarget(m1.items[h], m'.items[h]);
    }
  }

  /******* Whole runs *******/

  datatype Call = SetTargets(targets: map<Hash, Target>) | SetCollectors(nodes: map<string, string>)

  datatype Snapshot = Snapshot(strategy: Strategy, cluster: Cluster)

  ghost predicate Step(from: Snapshot, call: Call, to: Snapshot) {
    match call
    case SetTargets(targets) =>
      to.strategy == from.strategy && TargetsStep(from.strategy, from.cluster, targets, to.cluster)
    case SetCollectors(nodes) =>
      "" !in nodes && CollectorsStep(from.strategy, from.cluster, nodes, to.strategy, to.cluster)
  }

  /** A strategy as its constructor leaves it. */
  ghost predicate Initial(s: Strategy) {
    Synced(s, map[])
  }

  /** `trace` starts with an empty allocator and each call leads to the next snapshot. */
  ghost predicate IsRun(trace: seq<Snapshot>, calls: seq<Call>) {
    && |trace| == |calls| + 1
    && Initial(trace[0].strategy) && trace[0].cluster == Cluster(map[], map[])
    && forall i :: 0 <= i < |calls| ==> Step(trace[i], calls[i], trace[i + 1])
  }

  ghost function Last(trace: seq<Snapshot>): Snapshot
    requires trace != []
  {
    trace[|trace| - 1]
  }

  /** What never changes during a run: the kind of strategy, its fallback and the hash function. */
  ghost predicate SameBasic(b: Basic, b': Basic) {
    match b
    case LeastWeighted => b'.LeastWeighted?
    case ConsistentHashing(locate, _) => b'.ConsistentHashing? && b'.locate == locate
  }

  ghost predicate SameKind(s: Strategy, s': Strategy) {
    match s
    case Direct(b) => s'.Direct? && SameBasic(b, s'.basic)
    case PerNode(_, fallback) =>
      && s'.PerNode?
      && (fallback.Fallback? <==> s'.fallback.Fallback?)
      && (fallback.Fallback? ==> SameBasic(fallback.basic, s'.fallback.basic))
  }

  lemma {:induction false} RunKeepsInvAt(trace: seq<Snapshot>, calls: seq<Call>, k: nat)
    requires IsRun(trace, calls) && k <= |calls|
    ensures Inv(trace[k].strategy, trace[k].cluster)
    ensures SameKind(trace[0].strategy, trace[k].strategy)
  {
    if k > 0 {
      RunKeepsInvAt(trace, calls, k - 1);
      StepKeepsInv(trace[k - 1], calls[k - 1], trace[k]);
    }
  }

  /** The invariant holds after any run, and the kind of strategy stays what it was. */
  lemma RunKeepsInv(trace: seq<Snapshot>, calls: seq<Call>)
    requires IsRun(trace, calls)
    ensures Inv(Last(trace).strategy, Last(trace).cluster)
    ensures SameKind(trace[0].strategy, Last(trace).strategy)
  {
    RunKeepsInvAt(trace, calls, |calls|);
  }

  lemma StepKeepsInv(from: Snapshot, call: Call, to: Snapshot)
    requires Inv(from.strategy, from.cluster) && Step(from, call, to)
    ensures Inv(to.strategy, to.cluster) && SameKind(from.strategy, to.strategy)
  {
    match call
    case SetTargets(targets) => TargetsStepCorrect(from.strategy, from.cluster, targets, to.cluster);
    case SetCollectors(nodes) => CollectorsStepCorrect(from.strategy, from.cluster, nodes, to.strategy, to.cluster);
  }

  /******* Consistent hashing: the past does not matter *******/

  /** Whether a strategy, as its constructor leaves it, asks the ring about a target: consistent hashing
      always does, per-node with it as the fallback for targets without a node. */
  ghost predicate AsksRing(s: Strategy, locate: Locate, node: string) {
    match s
    case Direct(b) => b == ConsistentHashing(locate, {})
    case PerNode(_, fallback) => node == "" && fallback == Fallback(ConsistentHashing(locate, {}))
  }

  /** After any run, the owner of such a target is the place of its URL on the ring of the live names. */
  lemma HashingOwner(trace: seq<Snapshot>, calls: seq<Call>, locate: Locate, h: Hash)
    requires IsRun(trace, calls) && h in Last(trace).cluster.items
    requires AsksRing(trace[0].strategy, locate, Last(trace).cluster.items[h].node)
    ensures var m := Last(trace).cluster;
      m.items[h].owner == if m.nodes == map[] then "" else locate(m.nodes.Keys, m.items[h].url)
  {
    RunKeepsInv(trace, calls);
  }

  ghost predicate BothAskRing(traceA: seq<Snapshot>, traceB: seq<Snapshot>, locate: Locate, node: string)
    requires traceA != [] && traceB != []
  {
    AsksRing(traceA[0].strategy, locate, node) && AsksRing(traceB[0].strategy, locate, node)
  }

  /** Two allocators that hold the same targets and the same collectors agree on the owner of every
      target that the ring is asked about, however they got there. */
  lemma HashingReplicasAgree(traceA: seq<Snapshot>, callsA: seq<Call>, traceB: seq<Snapshot>, callsB: seq<Call>,
                             locate: Locate)
    requires IsRun(traceA, callsA) && IsRun(traceB, callsB)
    requires Last(traceA).cluster.nodes.Keys == Last(traceB).cluster.nodes.Keys
    requires Last(traceA).cluster.items.Keys == Last(traceB).cluster.items.Keys
    requires forall h :: h in Last(traceA).cluster.items ==>
      SameTarget(Last(traceA).cluster.items[h], Last(traceB).cluster.items[h])
    ensures var a, b := Last(traceA).cluster, Last(traceB).cluster;
      forall h | h in a.items && BothAskRing(traceA, traceB, locate, a.items[h].node) :: a.items[h] == b.items[h]
  {
    var a, b := Last(traceA).cluster, Last(traceB).cluster;
    forall h | h in a.items && BothAskRing(traceA, traceB, locate, a.items[h].node) ensures a.items[h] == b.items[h] {
      assert SameTarget(a.items[h], b.items[h]);
      HashingOwner(traceA, callsA, locate, h);
      HashingOwner(traceB, callsB, locate, h);
      assert a.nodes == map[] <==> a.nodes.Keys == {};
      assert b.nodes == map[] <==> b.nodes.Keys == {};
    }
  }

  /** With consistent hashing for all targets, the replicas hold the same targets with the same owners. */
  lemma HashingReplicasEqual(traceA: seq<Snapshot>, callsA: seq<Call>, traceB: seq<Snapshot>, callsB: seq<Call>,
                             locate: Locate)
    requires IsRun(traceA, callsA) && traceA[0].strategy == Direct(ConsistentHashing(locate, {}))
    requires IsRun(traceB, callsB) && traceB[0].strategy == Direct(ConsistentHashing(locate, {}))
    requires Last(traceA).cluster.nodes.Keys == Last(traceB).cluster.nodes.Keys
    requires Last(traceA).cluster.items.Keys == Last(traceB).cluster.items.Keys
    requires forall h :: h in Last(traceA).cluster.items ==>
      SameTarget(Last(traceA).cluster.items[h], Last(traceB).cluster.items[h])
    ensures Last(traceA).cluster.items == Last(traceB).cluster.items
  {
    HashingReplicasAgree(traceA, callsA, traceB, callsB, locate);
  }

  /******* Per-node: targets stay local *******/

  /** After any run, a target with a node is assigned exactly when some live collector is recorded
      on that node, and then to one on that node. */
  lemma PerNodeLocality(trace: seq<Snapshot>, calls: seq<Call>, h: Hash)
    requires IsRun(trace, calls) && trace[0].strategy.PerNode?
    requires h in Last(trace).cluster.items && Last(trace).cluster.items[h].node != ""
    ensures var m := Last(trace).cluster; var t := m.items[h];
      && (t.owner != "" <==> exists c :: c in m.nodes && m.nodes[c] == t.node)
      && (t.owner != "" ==> t.owner in m.nodes && m.nodes[t.owner] == t.node)
  {
    RunKeepsInv(trace, calls);
  }

  /** With least-weighted or consistent hashing, also as the fallback of per-node, no target that
      they are asked about stays unassigned while a collector is live. */
  lemma NothingUnassigned(trace: seq<Snapshot>, calls: seq<Call>, h: Hash)
    requires IsRun(trace, calls) && h in Last(trace).cluster.items && Last(trace).cluster.nodes != map[]
    requires trace[0].strategy.Direct?
      || (trace[0].strategy.fallback.Fallback? && Last(trace).cluster.items[h].node == "")
    ensures Last(trace).cluster.items[h].owner in Last(trace).cluster.nodes
  {
    RunKeepsInv(trace, calls);
  }
}
