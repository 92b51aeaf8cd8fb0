/** What the HTTP server asks. The index and the cached counters give the same answers as the
    server's own scans over all targets. */
module Queries {
  import opened GoMaps
  import opened Placement
  import opened Strategies
  import opened Allocation
  import Balance

  ghost function Hashes(items: seq<Item>): seq<Hash> {
    seq(|items|, i requires 0 <= i < |items| => items[i].hash)
  }

  /** Through the index: exactly the tracked targets with that collector and job, each once. */
  method GetTargetsForCollectorAndJob(a: Allocator, collector: string, job: string) returns (items: seq<Item>)
    requires a.Valid()
    ensures forall i :: 0 <= i < |items| ==> items[i].hash in a.targetItems && a.targetItems[items[i].hash] == items[i]
    ensures Visits(Hashes(items), if collector == "" then {} else OwnedInJob(a.Model(), collector, job))
    ensures collector != "" ==> forall h :: h in a.targetItems ==>
      (a.targetItems[h] in items <==>
        a.targetItems[h].collectorName == collector && a.targetItems[h].jobName == job)
    ensures forall i, j :: 0 <= i < j < |items| ==> items[i] != items[j]
  {
    hide OwnedInJob, Hashes, Visits;
    a.StrategyAllocated();
    items := ReadIndex(a, collector, job);
    if collector != "" {
      ListedPlainly(a, collector, job, items);
    } else {
      NoneListed(items);
    }
  }

  lemma NoneListed(items: seq<Item>)
    requires Visits(Hashes(items), {})
    ensures items == []
  {
    var hashes := Hashes(items);
    FirstIsThere(hashes);
  }

  lemma FirstIsThere(s: seq<Hash>)
    ensures s != [] ==> s[0] in s
  {
  }

  method ReadIndex(a: Allocator, collector: string, job: string) returns (items: seq<Item>)
    requires a.Valid()
    ensures forall i :: 0 <= i < |items| ==> items[i].hash in a.targetItems && a.targetItems[items[i].hash] == items[i]
    ensures Visits(Hashes(items), if collector == "" then {} else OwnedInJob(a.Model(), collector, job))
  {
    hide Balance.TotalLoad, OwnedInJob, Hashes, Visits;
    items := [];
    NoTargets();
    IndexListsOwned(a, collector, job);
    assert IndexAt(a.targetItemsPerJobPerCollector, collector, job) <= a.targetItems.Keys && a.KeyedByHash();
    if collector !in a.targetItemsPerJobPerCollector {
      return;
    }
    if job !in a.targetItemsPerJobPerCollector[collector] {
      return;
    }
    items := CopyTargets(a.targetItems, a.targetItemsPerJobPerCollector[collector][job]);
  }

  /** Found through the index, in terms of the objects themselves. */
  lemma ListedPlainly(a: Allocator, collector: string, job: string, items: seq<Item>)
    requires a.Valid() && collector != ""
    requires forall i :: 0 <= i < |items| ==> items[i].hash in a.targetItems && a.targetItems[items[i].hash] == items[i]
    requires Visits(Hashes(items), OwnedInJob(a.Model(), collector, job))
    ensures forall h :: h in a.targetItems ==>
      (a.targetItems[h] in items <==>
        a.targetItems[h].collectorName == collector && a.targetItems[h].jobName == job)
    ensures forall i, j :: 0 <= i < j < |items| ==> items[i] != items[j]
  {
    var hashes := Hashes(items);
    assert a.KeyedByHash();
    forall h | h in a.targetItems
      ensures a.targetItems[h] in items <==>
        a.targetItems[h].collectorName == collector && a.targetItems[h].jobName == job
    {
      var item := a.targetItems[h];
      assert item.hash == h && a.Model().items[h] == item.View();
      assert h in OwnedInJob(a.Model(), collector, job) <==> item.collectorName == collector && item.jobName == job;
      if h in OwnedInJob(a.Model(), collector, job) {
        assert h in hashes;
        var i :| 0 <= i < |hashes| && hashes[i] == h;
        assert items[i] == item;
      }
      if item in items {
        var i :| 0 <= i < |items| && items[i] == item;
        assert hashes[i] == h && hashes[i] in hashes;
      }
    }
    forall i, j | 0 <= i < j < |items| ensures items[i] != items[j] {
      assert hashes[i] != hashes[j];
    }
  }

  /** The tracked targets of a collector, and those of a job. */
  ghost function TargetsOf(a: Allocator, c: string): set<Hash>
    reads a`targetItems, a.targetItems.Values`collectorName
  {
    set h | h in a.targetItems && a.targetItems[h].collectorName == c
  }

  ghost function TargetsOfJob(a: Allocator, c: string, job: string): set<Hash>
    reads a`targetItems, a.targetItems.Values`collectorName
  {
    set h | h in a.targetItems && a.targetItems[h].collectorName == c && a.targetItems[h].jobName == job
  }

  /** The three structures, spelled out in their own terms: a target's collector is live, counters count,
      and the index lists, exactly the targets that name the collector. */
  lemma StructuresAgree(a: Allocator)
    requires a.Valid()
    ensures forall h :: h in a.targetItems ==>
      && a.targetItems[h].hash == h
      && (a.targetItems[h].collectorName == "" || a.targetItems[h].collectorName in a.collectors)
    ensures forall c :: c in a.collectors ==>
      c != "" && a.collectors[c].name == c && a.collectors[c].numTargets == |TargetsOf(a, c)|
    ensures forall c, job :: c in a.collectors ==>
      PerJob(a.collectors[c].targetsPerJob, job) == |TargetsOfJob(a, c, job)|
      && (job in a.collectors[c].targetsPerJob <==> TargetsOfJob(a, c, job) != {})
    ensures forall c :: c in a.targetItemsPerJobPerCollector ==> c in a.collectors
    ensures forall c, job :: c in a.collectors ==>
      IndexAt(a.targetItemsPerJobPerCollector, c, job) == TargetsOfJob(a, c, job)
    ensures forall c, job :: c in a.targetItemsPerJobPerCollector && job in a.targetItemsPerJobPerCollector[c] ==>
      a.targetItemsPerJobPerCollector[c][job] == TargetsOfJob(a, c, job) != {}
  {
    var m := a.Model();
    Balance.InvOwnersLive(a.strategy.View(), m);
    assert m.items.Keys == a.targetItems.Keys && m.nodes == Nodes(a.collectors) && a.KeyedByHash();
    forall h | h in a.targetItems
      ensures a.targetItems[h].collectorName == "" || a.targetItems[h].collectorName in a.collectors
    {
      assert m.items[h] == a.targetItems[h].View();
    }
    forall c ensures Owned(m, c) == TargetsOf(a, c) {
      ScanPlainly(a, c, "");
    }
    forall c, job ensures OwnedInJob(m, c, job) == TargetsOfJob(a, c, job) {
      ScanPlainly(a, c, job);
    }
    forall c | c in a.collectors ensures a.collectors[c].numTargets == |TargetsOf(a, c)| {
      assert Tallies(a.collectors)[c].Agrees(c, m);
    }
    forall c, job | c in a.collectors
      ensures PerJob(a.collectors[c].targetsPerJob, job) == |TargetsOfJob(a, c, job)|
      ensures job in a.collectors[c].targetsPerJob <==> TargetsOfJob(a, c, job) != {}
    {
      CountersAgreeAt(a.collectors, m, c, job);
      assert Tallies(a.collectors)[c].Agrees(c, m);
    }
  }

  lemma ScanPlainly(a: Allocator, c: string, job: string)
    ensures Owned(a.Model(), c) == TargetsOf(a, c)
    ensures OwnedInJob(a.Model(), c, job) == TargetsOfJob(a, c, job)
  {
  }

  lemma NoTargets()
    ensures Visits(Hashes([]), {})
  {
  }

  /** The objects of some tracked hashes. */
  method CopyTargets(tracked: map<Hash, Item>, hashes: set<Hash>) returns (items: seq<Item>)
    requires hashes <= tracked.Keys && forall h :: h in tracked ==> tracked[h].hash == h
    ensures forall i :: 0 <= i < |items| ==> items[i].hash in tracked && tracked[items[i].hash] == items[i]
    ensures Visits(Hashes(items), hashes)
  {
    var order := AnyOrder(hashes);
    hide Hashes;
    items := [];
    for i := 0 to |order|
      invariant |items| == i
      invariant forall j :: 0 <= j < i ==> order[j] in tracked && items[j] == tracked[order[j]]
    {
      assert order[i] in hashes;
      items := items + [tracked[order[i]]];
    }
    HashesOf(tracked, items, order);
  }

  lemma HashesOf(tracked: map<Hash, Item>, items: seq<Item>, order: seq<Hash>)
    requires |items| == |order| && forall h :: h in tracked ==> tracked[h].hash == h
    requires forall j :: 0 <= j < |order| ==> order[j] in tracked && items[j] == tracked[order[j]]
    ensures Hashes(items) == order
  {
  }

  lemma IndexListsOwned(a: Allocator, c: string, job: string)
    requires a.Valid()
    ensures var m := a.Model();
      && IndexAt(a.targetItemsPerJobPerCollector, c, job) == (if c == "" then {} else OwnedInJob(m, c, job))
      && OwnedInJob(m, c, job) <= m.items.Keys && m.items.Keys == a.targetItems.Keys
  {
    var m := a.Model();
    if c !in m.nodes {
      Balance.InvOwnersLive(a.strategy.View(), m);
      assert c != "" ==> OwnedInJob(m, c, job) == {};
    }
  }

  /** The tracked targets are the objects `items`. */
  ghost predicate Holds(items: map<Hash, Item>, m: Cluster)
    reads items.Values`collectorName
  {
    items.Keys == m.items.Keys && forall h :: h in items ==> items[h].View() == m.items[h]
  }

  /** A scan over all targets: the number of targets of a collector. */
  method GetTargetCountForCollector(a: Allocator, collector: string) returns (count: nat)
    requires a.Valid()
    ensures count == Load(a.Model(), collector)
    ensures collector in a.collectors ==> count == a.collectors[collector].numTargets
  {
    CountersCached(a, collector);
    assert Holds(a.targetItems, a.Model());
    count := CountTargets(a.targetItems, collector, a.Model());
  }

  method CountTargets(items: map<Hash, Item>, collector: string, ghost m: Cluster) returns (count: nat)
    requires Holds(items, m)
    ensures count == Load(m, collector)
  {
    var order := AnyOrder(items.Keys);
    hide Owned, Seen, Visits;
    SeenAmong(order, 0, m.items.Keys, Owned(m, collector));
    count := 0;
    for i := 0 to |order|
      invariant count == |Owned(m, collector) * Seen(order, i)|
    {
      SeenStep(order, i, m.items.Keys);
      SeenAmong(order, i, m.items.Keys, Owned(m, collector));
      assert items[order[i]].View() == m.items[order[i]];
      InOwned(m, order[i], collector);
      if items[order[i]].collectorName == collector {
        assert order[i] !in Owned(m, collector) * Seen(order, i);
        count := count + 1;
      }
    }
    OwnedAmong(m, collector);
  }

  lemma InOwned(m: Cluster, h: Hash, c: string)
    requires h in m.items
    ensures h in Owned(m, c) <==> m.items[h].owner == c
  {
  }

  lemma OwnedAmong(m: Cluster, c: string)
    ensures Owned(m, c) * m.items.Keys == Owned(m, c)
  {
  }

  ghost function JobsIn(m: Cluster, hashes: set<Hash>): set<string> {
    set h | h in hashes && h in m.items :: m.items[h].job
  }

  ghost function JobsOwned(m: Cluster, c: string): set<string> {
    JobsIn(m, Owned(m, c))
  }

  /** A scan over all targets: the number of jobs of a collector. */
  method GetJobCountForCollector(a: Allocator, collector: string) returns (count: nat)
    requires a.Valid()
    ensures count == |JobsOwned(a.Model(), collector)|
    ensures collector in a.collectors ==> count == |a.collectors[collector].targetsPerJob|
  {
    CountersCached(a, collector);
    assert Holds(a.targetItems, a.Model());
    var jobs := CollectJobs(a.targetItems, collector, a.Model());
    count := |jobs|;
  }

  method CollectJobs(items: map<Hash, Item>, collector: string, ghost m: Cluster) returns (jobs: set<string>)
    requires Holds(items, m)
    ensures jobs == JobsOwned(m, collector)
  {
    var order := AnyOrder(items.Keys);
    jobs := {};
    for i := 0 to |order|
      invariant jobs == JobsIn(m, Owned(m, collector) * Seen(order, i))
    {
      SeenStep(order, i, m.items.Keys);
      SeenAmong(order, i, m.items.Keys, Owned(m, collector));
      assert items[order[i]].View() == m.items[order[i]];
      if items[order[i]].collectorName == collector {
        jobs := jobs + {items[order[i]].jobName};
      }
    }
    SeenAmong(order, 0, m.items.Keys, Owned(m, collector));
    assert Owned(m, collector) * m.items.Keys == Owned(m, collector);
  }

  /** The cached counters are what a scan counts. */
  lemma CountersCached(a: Allocator, c: string)
    requires a.Valid()
    ensures c in a.collectors ==> a.collectors[c].numTargets == Load(a.Model(), c)
    ensures c in a.collectors ==> a.collectors[c].targetsPerJob.Keys == JobsOwned(a.Model(), c)
    ensures c in a.collectors ==> |a.collectors[c].targetsPerJob| == |JobsOwned(a.Model(), c)|
  {
    if c in a.collectors {
      var m, tally := a.Model(), a.collectors[c].Counters();
      assert Tallies(a.collectors)[c].Agrees(c, m);
      JobsCounted(m, c, tally);
      assert |tally.perJob| == |tally.perJob.Keys|;
    }
  }

  lemma JobsCounted(m: Cluster, c: string, tally: Tally)
    requires tally.Agrees(c, m)
    ensures tally.perJob.Keys == JobsOwned(m, c)
  {
    forall job ensures job in tally.perJob <==> job in JobsOwned(m, c) {
      assert PerJob(tally.perJob, job) == |OwnedInJob(m, c, job)|;
      assert job in tally.perJob <==> OwnedInJob(m, c, job) != {};
      if job in JobsOwned(m, c) {
        var h :| h in Owned(m, c) && m.items[h].job == job;
        assert h in OwnedInJob(m, c, job);
      }
      if OwnedInJob(m, c, job) != {} {
        var h :| h in OwnedInJob(m, c, job);
        assert h in Owned(m, c);
      }
    }
  }
}
