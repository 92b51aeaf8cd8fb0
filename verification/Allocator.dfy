/** The allocator: tracked targets, collectors with load counters, and the index from collector
    and job to target hashes, all updated incrementally.

    `Model()` is the simple view of its state. `Valid()` says that the counters and the index are
    what a scan of that view yields. Every method is proved to keep `Valid()` and to change the
    view as the steps of module `Placement` say. */
module Allocation {
  import opened GoMaps
  import opened Placement
  import opened Strategies
  import Diff
  import Runs

  type Index = map<string, map<string, set<Hash>>>

  /** The hashes the index holds for a collector and a job. */
  function IndexAt(index: Index, c: string, job: string): set<Hash> {
    if c in index && job in index[c] then index[c][job] else {}
  }

  /** The index lists, for every live collector and job, exactly the targets a scan finds; it knows
      no other collector and keeps no empty job. */
  ghost predicate IndexAgrees(index: Index, m: Cluster) {
    && (forall c :: c in index ==> c in m.nodes)
    && (forall c, job :: c in m.nodes ==> IndexAt(index, c, job) == OwnedInJob(m, c, job))
    && NoEmptyJob(index)
  }

  /** `index'` is `index` without `h` under collector `c` and job `job`. */
  ghost predicate Removed(index: Index, c: string, job: string, h: Hash, index': Index) {
    && index'.Keys == index.Keys
    && IndexAt(index', c, job) == IndexAt(index, c, job) - {h}
    && (forall d, k :: d != c || k != job ==> IndexAt(index', d, k) == IndexAt(index, d, k))
    && (NoEmptyJob(index) ==> NoEmptyJob(index'))
  }

  /** `index'` is `index` with `h` under collector `c` and job `job`. */
  ghost predicate Inserted(index: Index, c: string, job: string, h: Hash, index': Index) {
    && index'.Keys == index.Keys + {c}
    && IndexAt(index', c, job) == IndexAt(index, c, job) + {h}
    && (forall d, k :: d != c || k != job ==> IndexAt(index', d, k) == IndexAt(index, d, k))
    && (NoEmptyJob(index) ==> NoEmptyJob(index'))
  }

  ghost predicate NoEmptyJob(index: Index) {
    forall c, job :: c in index && job in index[c] ==> index[c][job] != {}
  }

  /******* How scans change *******/

  lemma DropOwner(m: Cluster, h: Hash)
    requires h in m.items && m.items[h].owner != ""
    ensures var m' := WithOwner(m, h, ""); var c, j := m.items[h].owner, m.items[h].job;
      && Load(m', c) == Load(m, c) - 1
      && OwnedInJob(m', c, j) == OwnedInJob(m, c, j) - {h}
      && JobLoad(m', c, j) == JobLoad(m, c, j) - 1
      && (forall d :: d != c && d != "" ==> Owned(m', d) == Owned(m, d))
      && (forall d, k :: d != "" && (d != c || k != j) ==> OwnedInJob(m', d, k) == OwnedInJob(m, d, k))
  {
    var m', c, j := WithOwner(m, h, ""), m.items[h].owner, m.items[h].job;
    assert Owned(m', c) == Owned(m, c) - {h};
    assert OwnedInJob(m', c, j) == OwnedInJob(m, c, j) - {h};
  }

  lemma GiveOwner(m: Cluster, h: Hash, c: string)
    requires h in m.items && m.items[h].owner == "" && c != ""
    ensures var m' := WithOwner(m, h, c); var j := m.items[h].job;
      && Load(m', c) == Load(m, c) + 1
      && OwnedInJob(m', c, j) == OwnedInJob(m, c, j) + {h}
      && JobLoad(m', c, j) == JobLoad(m, c, j) + 1
      && (forall d :: d != c && d != "" ==> Owned(m', d) == Owned(m, d))
      && (forall d, k :: d != "" && (d != c || k != j) ==> OwnedInJob(m', d, k) == OwnedInJob(m, d, k))
  {
    var m', j := WithOwner(m, h, c), m.items[h].job;
    assert Owned(m', c) == Owned(m, c) + {h};
    assert OwnedInJob(m', c, j) == OwnedInJob(m, c, j) + {h};
  }

  lemma DropTallies(m: Cluster, h: Hash, tallies: map<string, Tally>)
    requires h in m.items && m.items[h].owner in m.nodes && "" !in m.nodes && TalliesAgree(tallies, m)
    ensures var t := m.items[h];
      TalliesAgree(tallies[t.owner := tallies[t.owner].Down(t.job)], WithOwner(m, h, ""))
  {
    DropOwner(m, h);
    var m', t := WithOwner(m, h, ""), m.items[h];
    forall k ensures PerJob(tallies[t.owner].Down(t.job).perJob, k) == JobLoad(m', t.owner, k) {
      assert k != t.job ==> OwnedInJob(m', t.owner, k) == OwnedInJob(m, t.owner, k);
      assert PerJob(tallies[t.owner].perJob, k) == JobLoad(m, t.owner, k);
    }
    forall c | c in tallies && c != t.owner ensures tallies[c].Agrees(c, m') {
      SameScansAgree(tallies[c], c, m, m');
    }
  }

  lemma GiveTallies(m: Cluster, h: Hash, c: string, tallies: map<string, Tally>)
    requires h in m.items && m.items[h].owner == "" && c in m.nodes && "" !in m.nodes && TalliesAgree(tallies, m)
    ensures TalliesAgree(tallies[c := tallies[c].Up(m.items[h].job)], WithOwner(m, h, c))
  {
    GiveOwner(m, h, c);
    GiveOneTally(m, h, c, tallies[c]);
    var m' := WithOwner(m, h, c);
    forall d | d in tallies && d != c ensures tallies[d].Agrees(d, m') {
      SameScansAgree(tallies[d], d, m, m');
    }
    hide Tally.Agrees, Owned, OwnedInJob;
  }

  lemma GiveOneTally(m: Cluster, h: Hash, c: string, tally: Tally)
    requires h in m.items && m.items[h].owner == "" && c in m.nodes && "" !in m.nodes && tally.Agrees(c, m)
    ensures tally.Up(m.items[h].job).Agrees(c, WithOwner(m, h, c))
  {
    GiveOwner(m, h, c);
    var m', j := WithOwner(m, h, c), m.items[h].job;
    forall k ensures PerJob(tally.Up(j).perJob, k) == JobLoad(m', c, k) {
      assert k != j ==> OwnedInJob(m', c, k) == OwnedInJob(m, c, k);
      assert PerJob(tally.perJob, k) == JobLoad(m, c, k);
    }
  }

  lemma SameScansAgree(tally: Tally, c: string, m: Cluster, m': Cluster)
    requires tally.Agrees(c, m)
    requires Owned(m', c) == Owned(m, c) && forall k :: OwnedInJob(m', c, k) == OwnedInJob(m, c, k)
    ensures tally.Agrees(c, m')
  {
  }

  lemma OwnedIsIndexed(m: Cluster, h: Hash, index: Index)
    requires h in m.items && m.items[h].owner in m.nodes && IndexAgrees(index, m)
    ensures m.items[h].owner in index && m.items[h].job in index[m.items[h].owner]
  {
    assert h in IndexAt(index, m.items[h].owner, m.items[h].job);
  }

  lemma DropIndex(m: Cluster, h: Hash, index: Index, index': Index)
    requires h in m.items && m.items[h].owner in m.nodes && "" !in m.nodes && IndexAgrees(index, m)
    requires Removed(index, m.items[h].owner, m.items[h].job, h, index')
    ensures IndexAgrees(index', WithOwner(m, h, ""))
  {
    DropOwner(m, h);
    var m', o, j := WithOwner(m, h, ""), m.items[h].owner, m.items[h].job;
    forall c, job | c in m'.nodes ensures IndexAt(index', c, job) == OwnedInJob(m', c, job) {
      if c != o || job != j {
        assert OwnedInJob(m', c, job) == OwnedInJob(m, c, job);
      }
    }
  }

  lemma GiveIndex(m: Cluster, h: Hash, c: string, index: Index, index': Index)
    requires h in m.items && m.items[h].owner == "" && c in m.nodes && "" !in m.nodes && IndexAgrees(index, m)
    requires Inserted(index, c, m.items[h].job, h, index')
    ensures IndexAgrees(index', WithOwner(m, h, c))
  {
    GiveOwner(m, h, c);
    var m', j := WithOwner(m, h, c), m.items[h].job;
    forall d, job | d in m'.nodes ensures IndexAt(index', d, job) == OwnedInJob(m', d, job) {
      if d != c || job != j {
        assert OwnedInJob(m', d, job) == OwnedInJob(m, d, job);
      }
    }
  }

  /** A change that no live collector's scan sees leaves counters and index correct. */
  lemma SameScansCoherent(m: Cluster, m': Cluster, tallies: map<string, Tally>, index: Index)
    requires m'.nodes == m.nodes && TalliesAgree(tallies, m) && IndexAgrees(index, m)
    requires forall c :: c in m.nodes ==> Owned(m', c) == Owned(m, c)
    requires forall c, k :: c in m.nodes ==> OwnedInJob(m', c, k) == OwnedInJob(m, c, k)
    ensures TalliesAgree(tallies, m') && IndexAgrees(index, m')
  {
    forall c | c in tallies ensures tallies[c].Agrees(c, m') {
      SameScansAgree(tallies[c], c, m, m');
    }
  }

  ghost function Untracked(m: Cluster, gone: set<Hash>): Cluster {
    m.(items := m.items - gone)
  }

  lemma UntrackedSteps(m: Cluster, gone: set<Hash>, h: Hash)
    ensures Untracked(m, {}) == m
    ensures Untracked(Untracked(m, gone), {h}) == Untracked(m, gone + {h})
  {
    assert m.items - {} == m.items;
    assert m.items - gone - {h} == m.items - (gone + {h});
  }

  lemma UntrackedByKeys(m: Cluster, gone: set<Hash>, removals: set<Hash>)
    requires gone == removals * m.items.Keys
    ensures Untracked(m, gone) == Untracked(m, removals)
  {
    assert m.items - gone == m.items - removals;
  }

  /** Without the target `h`, which has no owner. */
  lemma ForgetUnowned(m: Cluster, h: Hash, tallies: map<string, Tally>, index: Index)
    requires h in m.items && m.items[h].owner == "" && "" !in m.nodes
    requires TalliesAgree(tallies, m) && IndexAgrees(index, m)
    ensures TalliesAgree(tallies, Untracked(m, {h})) && IndexAgrees(index, Untracked(m, {h}))
  {
    SameScansCoherent(m, Untracked(m, {h}), tallies, index);
  }

  /** A target may be unassigned before it is forgotten. */
  lemma ForgetUnassigned(m: Cluster, m1: Cluster, h: Hash)
    requires h in m.items && (m1 == m || m1 == WithOwner(m, h, ""))
    ensures Untracked(m1, {h}) == Untracked(m, {h})
  {
    assert m1.items - {h} == m.items - {h};
  }

  lemma OwnerGone(m: Cluster, h: Hash)
    requires h in m.items
    ensures h in WithOwner(m, h, "").items && WithOwner(m, h, "").items[h].owner == ""
  {
  }

  /** With a new target `h`, which has no owner. */
  lemma TrackUnowned(m: Cluster, h: Hash, t: Target, tallies: map<string, Tally>, index: Index)
    requires h !in m.items && t.owner == "" && "" !in m.nodes
    requires TalliesAgree(tallies, m) && IndexAgrees(index, m)
    ensures TalliesAgree(tallies, m.(items := m.items[h := t])) && IndexAgrees(index, m.(items := m.items[h := t]))
  {
    SameScansCoherent(m, m.(items := m.items[h := t]), tallies, index);
  }

  /** Without collector `c`, whose targets lose their owner. */
  ghost function WithoutCollector(m: Cluster, c: string): Cluster {
    Cleared(m, c).(nodes := m.nodes - {c})
  }

  ghost function Cleared(m: Cluster, c: string): Cluster {
    ClearedAt(m, Owned(m, c))
  }

  ghost function ClearedAt(m: Cluster, hashes: set<Hash>): Cluster {
    m.(items := map h | h in m.items :: if h in hashes then m.items[h].(owner := "") else m.items[h])
  }

  lemma ClearedAtStep(m: Cluster, hashes: set<Hash>, h: Hash)
    ensures ClearedAt(m, {}) == m
    ensures h in m.items ==> WithOwner(ClearedAt(m, hashes), h, "") == ClearedAt(m, hashes + {h})
  {
  }

  ghost function OwnedInJobs(m: Cluster, c: string, jobs: set<string>): set<Hash> {
    set h | h in m.items && m.items[h].owner == c && m.items[h].job in jobs
  }

  lemma ClearAnotherJob(m: Cluster, c: string, jobs: set<string>, job: string)
    ensures OwnedInJob(m, c, job) <= m.items.Keys
    ensures ClearedAt(ClearedAt(m, OwnedInJobs(m, c, jobs)), OwnedInJob(m, c, job))
         == ClearedAt(m, OwnedInJobs(m, c, jobs + {job}))
  {
  }

  ghost predicate JobsOf(index: Index, c: string, m: Cluster) {
    forall job :: IndexAt(index, c, job) == OwnedInJob(m, c, job)
  }

  /** The jobs of collector `c` with their targets. */
  ghost predicate JobsListed(jobs: map<string, set<Hash>>, c: string, m: Cluster) {
    && (forall job :: job in jobs ==> jobs[job] == OwnedInJob(m, c, job))
    && (forall h :: h in Owned(m, c) ==> m.items[h].job in jobs)
  }

  lemma JobIsListed(jobs: map<string, set<Hash>>, c: string, m: Cluster, job: string)
    requires JobsListed(jobs, c, m) && job in jobs
    ensures jobs[job] == OwnedInJob(m, c, job) <= m.items.Keys
  {
  }

  lemma JobsAreOwned(jobs: map<string, set<Hash>>, c: string, m: Cluster)
    requires JobsListed(jobs, c, m)
    ensures OwnedInJobs(m, c, jobs.Keys) == Owned(m, c)
    ensures ClearedAt(m, OwnedInJobs(m, c, {})) == m
  {
  }

  lemma JobsCoverOwned(m: Cluster, c: string, index: Index, jobs: map<string, set<Hash>>)
    requires JobsOf(index, c, m) && jobs == if c in index then index[c] else map[]
    ensures JobsListed(jobs, c, m)
  {
    forall job | job in jobs ensures jobs[job] == OwnedInJob(m, c, job) {
      assert IndexAt(index, c, job) == OwnedInJob(m, c, job);
    }
    forall h | h in Owned(m, c) ensures m.items[h].job in jobs {
      assert IndexAt(index, c, m.items[h].job) == OwnedInJob(m, c, m.items[h].job);
      assert h in OwnedInJob(m, c, m.items[h].job);
    }
  }

  lemma OthersKeep(m: Cluster, c: string, d: string)
    requires d in m.nodes && d != c && "" !in m.nodes
    ensures var m' := WithoutCollector(m, c);
      Owned(m', d) == Owned(m, d) && forall k :: OwnedInJob(m', d, k) == OwnedInJob(m, d, k)
  {
    var m' := WithoutCollector(m, c);
    forall k ensures OwnedInJob(m', d, k) == OwnedInJob(m, d, k) {
    }
  }

  lemma WithoutCollectorTallies(m: Cluster, c: string, tallies: map<string, Tally>)
    requires "" !in m.nodes && TalliesAgree(tallies, m)
    ensures TalliesAgree(tallies - {c}, WithoutCollector(m, c))
  {
    var m' := WithoutCollector(m, c);
    hide Owned, OwnedInJob, WithoutCollector;
    WithoutCollectorNodes(m, c);
    forall d | d in tallies - {c} ensures (tallies - {c})[d].Agrees(d, m') {
      OthersKeep(m, c, d);
      SameScansAgree(tallies[d], d, m, m');
    }
  }

  lemma WithoutCollectorNodes(m: Cluster, c: string)
    ensures WithoutCollector(m, c).nodes == m.nodes - {c}
  {
  }

  lemma WithoutCollectorIndex(m: Cluster, c: string, index: Index)
    requires "" !in m.nodes && IndexAgrees(index, m)
    ensures IndexAgrees(index - {c}, WithoutCollector(m, c))
  {
    var m' := WithoutCollector(m, c);
    hide Owned, OwnedInJob, WithoutCollector;
    WithoutCollectorNodes(m, c);
    forall d, k | d in m'.nodes ensures IndexAt(index - {c}, d, k) == OwnedInJob(m', d, k) {
      OthersKeep(m, c, d);
      assert IndexAt(index, d, k) == OwnedInJob(m, d, k);
    }
  }

  lemma WithoutCollectorCoherent(m: Cluster, c: string, tallies: map<string, Tally>, index: Index)
    requires "" !in m.nodes && TalliesAgree(tallies, m) && IndexAgrees(index, m)
    ensures TalliesAgree(tallies - {c}, WithoutCollector(m, c)) && IndexAgrees(index - {c}, WithoutCollector(m, c))
  {
    hide *;
    WithoutCollectorTallies(m, c, tallies);
    WithoutCollectorIndex(m, c, index);
  }

  /** With a new collector, which has no targets yet. */
  lemma WithCollectorCoherent(m: Cluster, c: string, node: string, tallies: map<string, Tally>, index: Index)
    requires c !in m.nodes && c != "" && TalliesAgree(tallies, m) && IndexAgrees(index, m) && Runs.OwnersLive(m)
    ensures var m' := m.(nodes := m.nodes[c := node]);
      TalliesAgree(tallies[c := Tally(0, map[])], m') && IndexAgrees(index, m')
  {
    var m' := m.(nodes := m.nodes[c := node]);
    assert Owned(m', c) == {};
    forall k ensures OwnedInJob(m', c, k) == {} {
    }
    forall d | d in m.nodes ensures tallies[d].Agrees(d, m') {
      SameScansAgree(tallies[d], d, m, m');
    }
    forall d, k | d in m'.nodes ensures IndexAt(index, d, k) == OwnedInJob(m', d, k) {
      if d != c {
        assert IndexAt(index, d, k) == OwnedInJob(m, d, k);
      }
    }
  }

  /** What an answer `r` of the strategy means for the placement of `h`. */
  ghost predicate PlacesBy(s: Strategy, m: Cluster, h: Hash, r: Outcome, collectors: Collectors)
    requires h in m.items
  {
    match r
    case Failed => m.items[h].owner == "" && Place(s, m, h) == m
    case Found(c) => c != null && c.name in collectors && Place(s, m, h) == WithOwner(m, h, c.name)
  }

  /** Tracking a target that is tracked already changes nothing. */
  lemma SameItem(m: Cluster, h: Hash, t: Target)
    requires h in m.items && m.items[h] == t
    ensures m.(items := m.items[h := t]) == m
  {
    assert m.items[h := t] == m.items;
  }

  lemma AnswerCases(s: Strategy, m: Cluster, h: Hash, r: Outcome, collectors: Collectors)
    requires h in m.items && PlacesBy(s, m, h, r, collectors)
    ensures r.Failed? ==> m.items[h].owner == "" && Place(s, m, h) == m
    ensures r.Found? ==> r.collector != null && r.collector.name in collectors
    ensures r.Found? ==> Place(s, m, h) == WithOwner(m, h, r.collector.name)
  {
  }

  lemma PlaceNowhere(s: Strategy, m: Cluster, h: Hash)
    requires h in m.items && m.nodes == map[]
    ensures Place(s, m, h) == m
  {
  }

  lemma RootedOwner(s: Strategy, nodes: map<string, string>, t: Target)
    requires Rooted(s, nodes, t)
    ensures t.owner == "" || t.owner in nodes
  {
  }

  lemma AnswerPlaces(s: Strategy, m: Cluster, h: Hash, r: Outcome, collectors: Collectors)
    requires h in m.items && "" !in m.nodes && m.nodes != map[] && m.nodes.Keys == collectors.Keys
    requires KeyedByName(collectors)
    requires Synced(s, m.nodes) && Rooted(s, m.nodes, m.items[h]) && Answers(r, Choose(s, m, m.items[h]), collectors)
    ensures PlacesBy(s, m, h, r, collectors)
  {
    ChooseIsSafe(s, m, m.items[h]);
    OwnerTwice(m, h);
  }

  lemma OwnerTwice(m: Cluster, h: Hash)
    requires h in m.items
    ensures WithOwner(m, h, m.items[h].owner) == m
    ensures forall c, d :: WithOwner(WithOwner(m, h, c), h, d) == WithOwner(m, h, d)
  {
    var t := m.items[h];
    assert m.items[h := t.(owner := t.owner)] == m.items;
  }

  lemma AddKeepsInv(s: Strategy, m: Cluster, h: Hash, t: Target)
    requires Inv(s, m)
    ensures Synced(s, m.nodes) && Inv(s, Add(s, m, h, t))
  {
    Runs.AddSettles(s, m, h, t);
  }

  lemma UnownedIsRooted(s: Strategy, nodes: map<string, string>, t: Target)
    requires t.owner == ""
    ensures Rooted(s, nodes, t)
  {
  }

  lemma RemovableNow(s: Strategy, m: Cluster, h: Hash)
    requires Inv(s, m) && h in m.items
    ensures m.items[h].owner == "" || m.items[h].owner in m.nodes
    ensures Inv(s, Untracked(m, {h}))
  {
    SettledOwner(s, m.nodes, m.items[h]);
  }

  /** The tracked targets after additions: none of those `before` is lost or replaced by another
      object, and what is new comes from `additions`. */
  ghost predicate Keeps(before: map<Hash, Item>, additions: map<Hash, Item>, after: map<Hash, Item>) {
    && (forall h :: h in before && h in after ==> after[h] == before[h])
    && (forall h :: h in after && h !in before ==> h in additions && after[h] == additions[h])
  }

  /** After visiting `i` keys: `order` lists those visited that were not tracked, and exactly they
      were added. */
  ghost predicate AddProgress(tracked: map<Hash, Item>, additions: map<Hash, Item>, keys: seq<Hash>, i: nat,
                              order: seq<Hash>, now: map<Hash, Item>)
  {
    && i <= |keys|
    && Visits(order, Seen(keys, i) - tracked.Keys)
    && now.Keys == tracked.Keys + (Seen(keys, i) - tracked.Keys)
    && Keeps(tracked, additions, now)
  }

  lemma AddProgressSteps(tracked: map<Hash, Item>, additions: map<Hash, Item>, keys: seq<Hash>, i: nat,
                         order: seq<Hash>, now: map<Hash, Item>)
    requires Visits(keys, additions.Keys)
    ensures AddProgress(tracked, additions, keys, 0, [], tracked)
    ensures AddProgress(tracked, additions, keys, i, order, now) && i < |keys| ==>
      if keys[i] in now then AddProgress(tracked, additions, keys, i + 1, order, now)
      else AddProgress(tracked, additions, keys, i + 1, order + [keys[i]], now[keys[i] := additions[keys[i]]])
    ensures AddProgress(tracked, additions, keys, |keys|, order, now) ==>
      Visits(order, additions.Keys - tracked.Keys) && Keeps(tracked, additions, now)
  {
    SeenStep(keys, i, additions.Keys);
    SeenStep(keys, 0, additions.Keys);
    if AddProgress(tracked, additions, keys, i, order, now) && i < |keys| && keys[i] !in now {
      assert keys[i] !in order;
    }
  }

  ghost function Bare(items: map<Hash, Item>): map<Hash, Target> {
    map h | h in items :: items[h].Bare()
  }

  /** Targets by hash; a later one replaces an earlier one. */
  ghost function Latest(targets: seq<Item>): map<Hash, Item> {
    if targets == [] then map[]
    else
      var n := |targets| - 1;
      Latest(targets[..n])[targets[n].hash := targets[n]]
  }

  /** `targets[i]` is the last target of its hash. */
  ghost predicate IsLast(targets: seq<Item>, i: nat) {
    i < |targets| && forall j :: i < j < |targets| ==> targets[j].hash != targets[i].hash
  }

  /** The hashes that are there, and the last target of each of them. */
  lemma {:induction false} LatestExactly(targets: seq<Item>)
    ensures forall i :: 0 <= i < |targets| ==> targets[i].hash in Latest(targets)
    ensures forall h :: h in Latest(targets) ==>
      exists i: nat :: IsLast(targets, i) && targets[i].hash == h && Latest(targets)[h] == targets[i]
  {
    if targets != [] {
      var n := |targets| - 1;
      var front := targets[..n];
      LatestExactly(front);
      forall i | 0 <= i < |targets| ensures targets[i].hash in Latest(targets) {
        assert i < n ==> front[i].hash in Latest(front);
      }
      forall h | h in Latest(targets)
        ensures exists i: nat :: IsLast(targets, i) && targets[i].hash == h && Latest(targets)[h] == targets[i]
      {
        if h == targets[n].hash {
          assert IsLast(targets, n);
        } else {
          var i: nat :| IsLast(front, i) && front[i].hash == h && Latest(front)[h] == front[i];
          LastOfFront(targets, i);
        }
      }
    }
  }

  lemma LastOfFront(targets: seq<Item>, i: nat)
    requires targets != [] && IsLast(targets[..|targets| - 1], i) && targets[i].hash != targets[|targets| - 1].hash
    ensures IsLast(targets, i) && targets[i] == targets[..|targets| - 1][i]
  {
    forall j | i < j < |targets| ensures targets[j].hash != targets[i].hash {
      assert j < |targets| - 1 ==> targets[..|targets| - 1][j] == targets[j];
    }
  }

  /** The same for a map that is kept for its new hashes only. */
  lemma LatestTracked(targets: seq<Item>, before: map<Hash, Item>, after: map<Hash, Item>)
    requires after.Keys == Latest(targets).Keys && Keeps(before, Latest(targets), after)
    ensures after.Keys == set t | t in targets :: t.hash
    ensures forall h :: h in after && h in before ==> after[h] == before[h]
    ensures forall h :: h in after && h !in before ==> exists i: nat :: IsLast(targets, i) && after[h] == targets[i]
  {
    LatestExactly(targets);
    forall t | t in targets ensures t.hash in after {
      var i :| 0 <= i < |targets| && targets[i] == t;
    }
    forall h | h in after ensures exists t :: t in targets && t.hash == h {
      var i: nat :| IsLast(targets, i) && targets[i].hash == h && Latest(targets)[h] == targets[i];
      assert targets[i] in targets;
    }
  }

  lemma LatestKeyed(targets: seq<Item>)
    ensures forall h :: h in Latest(targets) ==> Latest(targets)[h].hash == h && Latest(targets)[h] in targets
  {
    LatestExactly(targets);
  }

  /** The difference between the tracked and the wanted targets. */
  ghost predicate IsTargetsDiff(tracked: map<Hash, Item>, targets: map<Hash, Item>,
                                additions: map<Hash, Item>, removals: map<Hash, Item>) {
    && additions.Keys == targets.Keys - tracked.Keys
    && removals.Keys == tracked.Keys - targets.Keys
    && (forall h :: h in additions ==> additions[h] == targets[h] && targets[h].hash == h)
  }

  lemma DiffKeyed(tracked: map<Hash, Item>, targets: map<Hash, Item>, additions: map<Hash, Item>,
                  removals: map<Hash, Item>)
    requires IsTargetsDiff(tracked, targets, additions, removals)
    ensures forall h :: h in additions ==> additions[h].hash == h
  {
  }

  /** Adding the difference to what is kept is one `SetTargets` step. */
  lemma DiffStep(s: Strategy, m: Cluster, tracked: map<Hash, Item>, targets: map<Hash, Item>,
                 additions: map<Hash, Item>, removals: map<Hash, Item>, order: seq<Hash>, m': Cluster)
    requires m.items.Keys == tracked.Keys && IsTargetsDiff(tracked, targets, additions, removals)
    requires Inv(s, m) && Visits(order, additions.Keys - (m.items.Keys - removals.Keys))
    requires m' == AddAll(s, Untracked(m, removals.Keys), Bare(additions), order)
    ensures TargetsStep(s, m, Bare(targets), m') && m'.items.Keys == targets.Keys
  {
    assert Bare(targets).Keys == targets.Keys && Bare(additions).Keys == additions.Keys;
    UntrackedIsForget(m, targets.Keys, removals.Keys);
    assert additions.Keys - (m.items.Keys - removals.Keys) == additions.Keys == Bare(targets).Keys - m.items.Keys;
    AddAllDependsOn(s, Forget(m, targets.Keys), Bare(additions), Bare(targets), order);
    assert TargetsStepBy(s, m, Bare(targets), m', order);
    Runs.TargetsStepCorrect(s, m, Bare(targets), m');
  }

  lemma UntrackedIsForget(m: Cluster, keep: set<Hash>, removals: set<Hash>)
    requires removals == m.items.Keys - keep
    ensures Untracked(m, removals) == Forget(m, keep)
  {
  }

  /** Without a difference nothing needs to be done. */
  lemma NoDiffStep(s: Strategy, m: Cluster, tracked: map<Hash, Item>, targets: map<Hash, Item>,
                   additions: map<Hash, Item>, removals: map<Hash, Item>)
    requires m.items.Keys == tracked.Keys && IsTargetsDiff(tracked, targets, additions, removals)
    requires |additions| == 0 && |removals| == 0
    ensures TargetsStep(s, m, Bare(targets), m) && m.items.Keys == targets.Keys && Keeps(tracked, targets, tracked)
  {
    assert additions.Keys == {} && removals.Keys == {};
    assert Forget(m, targets.Keys) == m;
    assert AddAll(s, m, Bare(targets), []) == m;
    assert TargetsStepBy(s, m, Bare(targets), m, []);
  }

  lemma KeepsAll(before: map<Hash, Item>, targets: map<Hash, Item>, additions: map<Hash, Item>,
                 removals: map<Hash, Item>,
                 after: map<Hash, Item>)
    requires Keeps(before - removals.Keys, additions, after) && after.Keys == targets.Keys
    requires IsTargetsDiff(before, targets, additions, removals)
    ensures Keeps(before, targets, after)
  {
    forall h | h in after && h in before ensures after[h] == before[h] {
      assert h in before - removals.Keys;
    }
  }

  lemma {:induction false} AddAllDependsOn(s: Strategy, m: Cluster, a: map<Hash, Target>, b: map<Hash, Target>,
                                           order: seq<Hash>)
    requires forall h :: h in order ==> h in a && h in b && a[h] == b[h]
    ensures AddAll(s, m, a, order) == AddAll(s, m, b, order)
  {
    if order != [] {
      AddAllDependsOn(s, m, a, b, order[..|order| - 1]);
    }
  }

  lemma AddAllSnoc(s: Strategy, m: Cluster, targets: map<Hash, Target>, order: seq<Hash>, h: Hash)
    requires h in targets && forall k :: k in order ==> k in targets
    ensures AddAll(s, m, targets, order + [h]) == Add(s, AddAll(s, m, targets, order), h, targets[h])
  {
    assert (order + [h])[..|order|] == order;
  }

  /** Without the collectors `gone`, whose targets lose their owner. */
  ghost function RemovedAll(m: Cluster, gone: set<string>): Cluster {
    Cluster(m.nodes - gone,
            map h | h in m.items :: if m.items[h].owner in gone then m.items[h].(owner := "") else m.items[h])
  }

  lemma RemovedAllStep(m: Cluster, gone: set<string>, c: string)
    ensures RemovedAll(m, {}) == m
    ensures WithoutCollector(RemovedAll(m, gone), c) == RemovedAll(m, gone + {c})
  {
    MinusStep(m.nodes, gone, c);
  }

  /** With the nodes of the collectors `some`. */
  ghost function WithNodes(m: Cluster, nodes: map<string, string>, some: set<string>): Cluster {
    m.(nodes := m.nodes + map c | c in some && c in nodes :: nodes[c])
  }

  lemma WithNodesStep(m: Cluster, nodes: map<string, string>, some: set<string>, c: string)
    ensures WithNodes(m, nodes, {}) == m
    ensures var m1 := WithNodes(m, nodes, some);
      c in nodes ==> WithNodes(m, nodes, some + {c}) == m1.(nodes := m1.nodes[c := nodes[c]])
    ensures Runs.OwnersLive(m) ==> Runs.OwnersLive(WithNodes(m, nodes, some))
  {
  }

  lemma NewNode(m: Cluster, additions: Collectors, some: set<string>, c: string)
    requires c in additions && additions[c].name == c
    ensures var m1 := WithNodes(m, Nodes(additions), some);
      WithNodes(m, Nodes(additions), some + {c}) == m1.(nodes := m1.nodes[c := additions[c].nodeName])
    ensures Runs.OwnersLive(m) ==> Runs.OwnersLive(WithNodes(m, Nodes(additions), some + {c}))
  {
    WithNodesStep(m, Nodes(additions), some, c);
    WithNodesStep(m, Nodes(additions), some + {c}, c);
  }

  ghost predicate AllRooted(s: Strategy, m: Cluster) {
    forall h :: h in m.items ==> Rooted(s, m.nodes, m.items[h])
  }

  /** A target that was not visited yet is as it was before. */
  lemma UnvisitedRooted(s: Strategy, m: Cluster, keys: seq<Hash>, i: nat)
    requires AllRooted(s, m) && "" !in m.nodes && Synced(s, m.nodes) && Visits(keys, m.items.Keys) && i < |keys|
    ensures var m1 := PlaceAll(s, m, keys[..i]);
      m1.nodes == m.nodes && keys[i] in m1.items && Rooted(s, m.nodes, m1.items[keys[i]])
  {
    forall h | h in m.items ensures m.items[h].owner == "" || m.items[h].owner in m.nodes {
      assert Rooted(s, m.nodes, m.items[h]);
    }
    Runs.PlaceAllSettles(s, m, keys[..i]);
  }

  lemma PlaceAllSnoc(s: Strategy, m: Cluster, keys: seq<Hash>, i: nat)
    requires i < |keys| && forall h :: h in keys ==> h in m.items
    ensures PlaceAll(s, m, keys[..i + 1]) == Place(s, PlaceAll(s, m, keys[..i]), keys[i])
  {
    assert keys[..i + 1][..i] == keys[..i];
  }

  lemma RemovedAllOwners(m: Cluster, gone: set<string>)
    requires Runs.OwnersLive(m)
    ensures Runs.OwnersLive(RemovedAll(m, gone))
  {
  }

  /** The difference between the live and the wanted collectors. */
  ghost predicate IsCollectorsDiff(live: map<string, string>, nodes: map<string, string>,
                                   additions: map<string, string>, removals: set<string>) {
    && additions.Keys == nodes.Keys - live.Keys
    && removals == live.Keys - nodes.Keys
    && (forall c :: c in additions ==> additions[c] == nodes[c])
  }

  lemma CollectorsDiffFacts(live: map<string, string>, nodes: map<string, string>, additions: Collectors,
                            removals: set<string>)
    requires IsCollectorsDiff(live, nodes, Nodes(additions), removals) && "" !in nodes
    ensures additions.Keys == Nodes(additions).Keys && "" !in additions
    ensures removals <= live.Keys && additions.Keys !! live.Keys
  {
  }

  lemma AllOwnersLive(s: Strategy, m: Cluster)
    requires Inv(s, m)
    ensures Runs.OwnersLive(m)
  {
    forall h | h in m.items ensures m.items[h].owner == "" || m.items[h].owner in m.nodes {
      SettledOwner(s, m.nodes, m.items[h]);
    }
  }

  /** The same targets lose their owner. */
  lemma DiffItem(m: Cluster, nodes: map<string, string>, removals: set<string>, h: Hash)
    requires Runs.OwnersLive(m) && removals == m.nodes.Keys - nodes.Keys && h in m.items
    ensures RemovedAll(m, removals).items[h] == Replace(m, nodes).items[h]
  {
    var t := m.items[h];
    assert t.owner == "" ==> t.(owner := "") == t;
  }

  lemma DiffNodes(m: Cluster, nodes: map<string, string>, additions: map<string, string>, removals: set<string>)
    requires IsCollectorsDiff(m.nodes, nodes, additions, removals)
    ensures WithNodes(RemovedAll(m, removals), additions, additions.Keys).nodes == Replace(m, nodes).nodes
  {
  }

  lemma DiffIsReplace(s: Strategy, m: Cluster, nodes: map<string, string>, additions: map<string, string>,
                      removals: set<string>)
    requires Inv(s, m) && "" !in nodes && IsCollectorsDiff(m.nodes, nodes, additions, removals)
    ensures Runs.OwnersLive(m)
    ensures WithNodes(RemovedAll(m, removals), additions, additions.Keys) == Replace(m, nodes)
  {
    hide Inv, Runs.OwnersLive;
    AllOwnersLive(s, m);
    DiffNodes(m, nodes, additions, removals);
    forall h | h in m.items ensures RemovedAll(m, removals).items[h] == Replace(m, nodes).items[h] {
      DiffItem(m, nodes, removals, h);
    }
    assert RemovedAll(m, removals).items == Replace(m, nodes).items;
  }

  lemma ReplacedIsRooted(s: Strategy, m: Cluster, nodes: map<string, string>, s': Strategy)
    requires Inv(s, m) && "" !in nodes && Resync(s, s', Replace(m, nodes).nodes)
    ensures Synced(s', Replace(m, nodes).nodes) && AllRooted(s', Replace(m, nodes))
    ensures Replace(m, nodes).items.Keys == m.items.Keys
  {
    Runs.ResyncSyncs(s, s', m.nodes, Replace(m, nodes).nodes);
    forall h | h in m.items ensures Rooted(s', Replace(m, nodes).nodes, Replace(m, nodes).items[h]) {
      SettledIsRooted(s, m.nodes, m.items[h]);
    }
  }

  lemma ReplacedStep(s: Strategy, m: Cluster, nodes: map<string, string>, s': Strategy, order: seq<Hash>, m': Cluster)
    requires Inv(s, m) && "" !in nodes && nodes.Keys != m.nodes.Keys && Resync(s, s', Replace(m, nodes).nodes)
    requires Visits(order, m.items.Keys) && m' == PlaceAll(s', Replace(m, nodes), order)
    ensures CollectorsStep(s, m, nodes, s', m') && Inv(s', m')
  {
    assert CollectorsStepBy(s', m, nodes, m', order);
    Runs.CollectorsStepCorrect(s, m, nodes, s', m');
  }

  /** There is a difference exactly when the names differ. */
  lemma SameNamesStep(s: Strategy, m: Cluster, nodes: map<string, string>, additions: Collectors, removals: Collectors)
    requires IsCollectorsDiff(m.nodes, nodes, Nodes(additions), removals.Keys)
    ensures |additions| != 0 || |removals| != 0 <==> nodes.Keys != m.nodes.Keys
    ensures nodes.Keys == m.nodes.Keys ==> CollectorsStep(s, m, nodes, s, m)
  {
    assert Nodes(additions).Keys == additions.Keys;
    assert |additions| == |additions.Keys| && |removals| == |removals.Keys|;
  }

  /** Collectors that are not removed are still the same objects. */
  ghost predicate KeptCollectors(before: Collectors, after: Collectors, removed: set<string>) {
    forall c :: c in before && c !in removed ==> c in after && after[c] == before[c]
  }

  lemma OneMoreCollector(before: Collectors, c: Collector)
    requires KeyedByName(before) && c.name !in before
    ensures KeyedByName(before[c.name := c])
    ensures Nodes(before[c.name := c]) == Nodes(before)[c.name := c.nodeName]
    ensures Tallies(before[c.name := c]) == Tallies(before)[c.name := c.Counters()]
  {
  }

  /** Every collector is one from before or one of `news`. */
  ghost predicate KeptOrNew(before: Collectors, after: Collectors, news: set<Collector>) {
    forall c :: c in after ==> (c in before && after[c] == before[c]) || after[c] in news
  }

  lemma KeptOrNewStep(before: Collectors, between: Collectors, after: Collectors, news: set<Collector>, name: string)
    requires KeptOrNew(before, between, news) && KeptCollectors(before, between, {}) && name !in between
    requires after.Keys == between.Keys + {name} && forall c :: c in between ==> after[c] == between[c]
    ensures KeptOrNew(before, after, news + {after[name]}) && KeptCollectors(before, after, {})
  {
  }

  lemma NothingNew(before: Collectors)
    ensures KeptOrNew(before, before, {}) && KeptCollectors(before, before, {})
  {
  }

  lemma NewsAreNew(before: Collectors, after: Collectors, news: set<Collector>)
    requires KeptOrNew(before, after, news)
    ensures forall c :: c in after ==> (c in before && after[c] == before[c]) || after[c] in news
  {
  }

  lemma KeptThrough(before: Collectors, between: Collectors, after: Collectors, removed: set<string>)
    ensures KeptCollectors(before, before, removed)
    ensures between == before - removed && KeptCollectors(between, after, {}) ==> KeptCollectors(before, after, removed)
  {
  }

  class Allocator {
    const strategy: AnyStrategy
    var collectors: Collectors
    var targetItems: map<Hash, Item>
    var targetItemsPerJobPerCollector: Index

    constructor (strategy: AnyStrategy)
      requires Synced(strategy.View(), map[])
      ensures this.strategy == strategy && Valid() && Model() == Cluster(map[], map[])
      ensures strategy.View() == old(strategy.View())
    {
      this.strategy := strategy;
      collectors, targetItems, targetItemsPerJobPerCollector := map[], map[], map[];
      new;
      assert Model() == Cluster(map[], map[]);
    }

    ghost function Model(): Cluster
      reads this`collectors, this`targetItems, targetItems.Values`collectorName
    {
      Cluster(Nodes(collectors), map h | h in targetItems :: targetItems[h].View())
    }

    ghost predicate KeyedByHash()
      reads this`targetItems
    {
      forall h :: h in targetItems ==> targetItems[h].hash == h
    }

    /** The three structures agree. */
    ghost predicate Coherent()
      reads this, targetItems.Values`collectorName, collectors.Values`numTargets, collectors.Values`targetsPerJob
    {
      && "" !in collectors
      && KeyedByHash()
      && CountersAgree(collectors, Model())
      && IndexAgrees(targetItemsPerJobPerCollector, Model())
    }

    /** They agree, the strategy knows the live collectors, and every target is where it belongs. */
    ghost predicate Valid()
      reads this, targetItems.Values`collectorName, collectors.Values`numTargets, collectors.Values`targetsPerJob
      reads strategy.Tables()`collectorByNode, strategy.Rings()`ring
    {
      Coherent() && Inv(strategy.View(), Model())
    }

    /** A hint: the objects of the strategy are allocated, so calls that modify nothing leave its view as
        it is. */
    lemma StrategyAllocated()
      ensures forall o :: o in strategy.Rings() ==> allocated(o)
      ensures forall o :: o in strategy.Tables() ==> allocated(o)
    {
    }

    /******* Assigning and unassigning one target *******/

    method RemoveFromIndex(collectorName: string, job: string, hash: Hash)
      requires collectorName in targetItemsPerJobPerCollector && job in targetItemsPerJobPerCollector[collectorName]
      modifies this`targetItemsPerJobPerCollector
      ensures Removed(old(targetItemsPerJobPerCollector), collectorName, job, hash, targetItemsPerJobPerCollector)
      ensures Model() == old(Model()) && Tallies(collectors) == old(Tallies(collectors))
      ensures strategy.View() == old(strategy.View())
    {
      hide Model, Tallies, AnyStrategy.View;
      StrategyAllocated();
      var jobs := targetItemsPerJobPerCollector[collectorName];
      jobs := jobs[job := jobs[job] - {hash}];
      if jobs[job] == {} {
        jobs := jobs - {job};
      }
      targetItemsPerJobPerCollector := targetItemsPerJobPerCollector[collectorName := jobs];
    }

    method AddCollectorTargetItemMapping(tg: Item)
      modifies this`targetItemsPerJobPerCollector
      ensures Inserted(old(targetItemsPerJobPerCollector), tg.collectorName, tg.jobName, tg.hash,
                       targetItemsPerJobPerCollector)
      ensures Model() == old(Model()) && Tallies(collectors) == old(Tallies(collectors))
      ensures strategy.View() == old(strategy.View())
    {
      hide Model, Tallies, AnyStrategy.View;
      StrategyAllocated();
      var jobs := if tg.collectorName in targetItemsPerJobPerCollector
        then targetItemsPerJobPerCollector[tg.collectorName] else map[];
      var hashes := if tg.jobName in jobs then jobs[tg.jobName] else {};
      jobs := jobs[tg.jobName := hashes + {tg.hash}];
      targetItemsPerJobPerCollector := targetItemsPerJobPerCollector[tg.collectorName := jobs];
    }

    /** Overwriting the owner of a tracked target changes only that in the simple view. */
    method SetOwner(item: Item, name: string)
      requires KeyedByHash() && item.hash in targetItems && targetItems[item.hash] == item
      modifies item`collectorName
      ensures Model() == WithOwner(old(Model()), item.hash, name)
      ensures Tallies(collectors) == old(Tallies(collectors))
      ensures strategy.View() == old(strategy.View())
    {
      item.collectorName := name;
    }

    method CountDown(c: string, job: string)
      requires KeyedByName(collectors) && c in collectors
      modifies collectors.Values`numTargets, collectors.Values`targetsPerJob
      ensures Tallies(collectors) == old(Tallies(collectors))[c := old(Tallies(collectors))[c].Down(job)]
      ensures Model() == old(Model())
      ensures strategy.View() == old(strategy.View())
    {
      hide Model, AnyStrategy.View, Tallies, KeyedByName;
      StrategyAllocated();
      TallyDown(collectors, c, job);
    }

    method CountUp(c: string, job: string)
      requires KeyedByName(collectors) && c in collectors
      modifies collectors.Values`numTargets, collectors.Values`targetsPerJob
      ensures Tallies(collectors) == old(Tallies(collectors))[c := old(Tallies(collectors))[c].Up(job)]
      ensures Model() == old(Model())
      ensures strategy.View() == old(strategy.View())
    {
      hide Model, AnyStrategy.View, Tallies, KeyedByName;
      StrategyAllocated();
      TallyUp(collectors, c, job);
    }

    /** Take the target out of the index of its live collector. */
    method Unlist(item: Item)
      requires Coherent() && item.hash in targetItems && targetItems[item.hash] == item
      requires item.collectorName in collectors
      modifies this`targetItemsPerJobPerCollector
      ensures IndexAgrees(targetItemsPerJobPerCollector, WithOwner(old(Model()), item.hash, ""))
      ensures Model() == old(Model()) && Tallies(collectors) == old(Tallies(collectors))
      ensures strategy.View() == old(strategy.View())
    {
      hide TalliesAgree, IndexAgrees, Owned, OwnedInJob;
      ghost var m, h, index := Model(), item.hash, targetItemsPerJobPerCollector;
      OwnedIsIndexed(m, h, index);
      RemoveFromIndex(item.collectorName, item.jobName, item.hash);
      DropIndex(m, h, index, targetItemsPerJobPerCollector);
    }

    /** Take the target from its live collector. */
    method TakeBack(item: Item)
      requires Coherent() && item.hash in targetItems && targetItems[item.hash] == item
      requires item.collectorName in collectors
      modifies this`targetItemsPerJobPerCollector, item`collectorName
      modifies collectors.Values`numTargets, collectors.Values`targetsPerJob
      ensures Coherent() && Model() == WithOwner(old(Model()), item.hash, "")
      ensures strategy.View() == old(strategy.View())
    {
      hide TalliesAgree, IndexAgrees, Owned, OwnedInJob;
      DropTallies(Model(), item.hash, Tallies(collectors));
      var collectorName := item.collectorName;
      Unlist(item);
      CountDown(collectorName, item.jobName);
      SetOwner(item, "");
    }

    method UnassignTargetItem(item: Item)
      requires Coherent() && item.hash in targetItems && targetItems[item.hash] == item
      modifies this`targetItemsPerJobPerCollector, item`collectorName
      modifies collectors.Values`numTargets, collectors.Values`targetsPerJob
      ensures Coherent()
      ensures Model() == if old(item.collectorName) in collectors
                         then WithOwner(old(Model()), item.hash, "") else old(Model())
      ensures strategy.View() == old(strategy.View())
    {
      CoherentFacts(item);
      hide Coherent;
      if item.collectorName == "" {
        return;
      }
      if item.collectorName !in collectors {
        return;
      }
      TakeBack(item);
    }

    method RemoveTargetItem(item: Item)
      requires Coherent() && item.hash in targetItems && targetItems[item.hash] == item
      requires item.collectorName == "" || item.collectorName in collectors
      modifies this`targetItems, this`targetItemsPerJobPerCollector, item`collectorName
      modifies collectors.Values`numTargets, collectors.Values`targetsPerJob
      ensures Coherent()
      ensures Model() == Untracked(old(Model()), {item.hash})
      ensures targetItems == old(targetItems) - {item.hash}
      ensures strategy.View() == old(strategy.View())
    {
      hide Coherent, AnyStrategy.View, Model, Untracked;
      CoherentFacts(item);
      ghost var m := Model();
      UnassignTargetItem(item);
      CoherentFacts(item);
      ForgetUnassigned(m, Model(), item.hash);
      OwnerGone(m, item.hash);
      UntrackUnowned(item);
    }

    method UntrackUnowned(item: Item)
      requires Coherent() && item.hash in targetItems && targetItems[item.hash] == item && item.collectorName == ""
      modifies this`targetItems
      ensures Coherent()
      ensures Model() == Untracked(old(Model()), {item.hash})
      ensures targetItems == old(targetItems) - {item.hash}
      ensures strategy.View() == old(strategy.View())
    {
      hide AnyStrategy.View, TalliesAgree, IndexAgrees, Tallies;
      CoherentFacts(item);
      ForgetUnowned(Model(), item.hash, Tallies(collectors), targetItemsPerJobPerCollector);
      Untrack(item.hash);
    }

    method Untrack(hash: Hash)
      modifies this`targetItems
      ensures targetItems == old(targetItems) - {hash}
      ensures Model() == Untracked(old(Model()), {hash})
      ensures strategy.View() == old(strategy.View())
    {
      targetItems := targetItems - {hash};
    }

    method ClearOwnersOf(hashes: set<Hash>)
      requires KeyedByHash() && hashes <= targetItems.Keys
      modifies targetItems.Values`collectorName
      ensures Model() == ClearedAt(old(Model()), hashes)
      ensures Tallies(collectors) == old(Tallies(collectors))
      ensures strategy.View() == old(strategy.View())
    {
      var order := AnyOrder(hashes);
      SeenStep(order, 0, hashes);
      ghost var m, s := Model(), strategy.View();
      assert s == old(strategy.View()) && m == old(Model()) && m.items.Keys == targetItems.Keys;
      assert Tallies(collectors) == old(Tallies(collectors));
      hide AnyStrategy.View, ClearedAt, Model, Tallies;
      ClearedAtStep(m, {}, 0);
      for i := 0 to |order|
        invariant Model() == ClearedAt(m, Seen(order, i))
        invariant strategy.View() == s && Tallies(collectors) == old(Tallies(collectors))
      {
        SeenStep(order, i, hashes);
        ClearedAtStep(m, Seen(order, i), order[i]);
        SetOwner(targetItems[order[i]], "");
      }
    }

    /** Clear the owner of every target the index lists under the collector `name`. */
    method ClearOwners(name: string)
      requires KeyedByHash()
      requires JobsOf(targetItemsPerJobPerCollector, name, Model())
      modifies targetItems.Values`collectorName
      ensures Model() == Cleared(old(Model()), name)
      ensures Tallies(collectors) == old(Tallies(collectors))
      ensures strategy.View() == old(strategy.View())
    {
      hide AnyStrategy.View, ClearedAt, Tallies, OwnedInJobs, Owned, JobsListed;
      ghost var m := Model();
      var jobs := if name in targetItemsPerJobPerCollector then targetItemsPerJobPerCollector[name] else map[];
      JobsCoverOwned(m, name, targetItemsPerJobPerCollector, jobs);
      assert m.items.Keys == targetItems.Keys;
      StrategyAllocated();
      var order := AnyOrder(jobs.Keys);
      ClearJobs(name, jobs, order, m);
    }

    /** The loop over the jobs of a collector that goes away. */
    method ClearJobs(name: string, jobs: map<string, set<Hash>>, order: seq<string>, ghost m: Cluster)
      requires KeyedByHash() && m == Model() && m.items.Keys == targetItems.Keys && Visits(order, jobs.Keys)
      requires JobsListed(jobs, name, m)
      modifies targetItems.Values`collectorName
      ensures Model() == Cleared(m, name)
      ensures Tallies(collectors) == old(Tallies(collectors))
      ensures strategy.View() == old(strategy.View())
    {
      hide AnyStrategy.View, ClearedAt, Model, Tallies, Visits, OwnedInJobs, Owned, JobsListed;
      SeenStep(order, 0, jobs.Keys);
      JobsAreOwned(jobs, name, m);
      for i := 0 to |order|
        invariant Model() == ClearedAt(m, OwnedInJobs(m, name, Seen(order, i)))
        invariant strategy.View() == old(strategy.View()) && Tallies(collectors) == old(Tallies(collectors))
      {
        SeenStep(order, i, jobs.Keys);
        ClearAnotherJob(m, name, Seen(order, i), order[i]);
        JobIsListed(jobs, name, m, order[i]);
        ClearOwnersOf(jobs[order[i]]);
      }
    }

    method DropCollector(name: string)
      modifies this`collectors, this`targetItemsPerJobPerCollector
      ensures collectors == old(collectors) - {name}
      ensures targetItemsPerJobPerCollector == old(targetItemsPerJobPerCollector) - {name}
      ensures Model() == old(Model()).(nodes := old(Model()).nodes - {name})
      ensures Tallies(collectors) == old(Tallies(collectors)) - {name}
      ensures strategy.View() == old(strategy.View())
    {
      collectors := collectors - {name};
      targetItemsPerJobPerCollector := targetItemsPerJobPerCollector - {name};
    }

    method RemoveCollector(name: string)
      requires Coherent() && name in collectors
      modifies this`collectors, this`targetItemsPerJobPerCollector, targetItems.Values`collectorName
      ensures Coherent()
      ensures collectors == old(collectors) - {name}
      ensures Model() == WithoutCollector(old(Model()), name)
      ensures strategy.View() == old(strategy.View())
    {
      WithoutCollectorCoherent(Model(), name, Tallies(collectors), targetItemsPerJobPerCollector);
      ClearOwners(name);
      DropCollector(name);
    }

    /******* Placing a target *******/

    /** The tracked target of this hash is now `tg`, which either is tracked already or has no owner. */
    method Track(tg: Item)
      requires Coherent()
      requires tg.hash in targetItems ==> targetItems[tg.hash] == tg
      requires tg.hash !in targetItems ==> tg.collectorName == ""
      modifies this`targetItems
      ensures Coherent() && targetItems == old(targetItems)[tg.hash := tg]
      ensures Model() == old(Model()).(items := old(Model()).items[tg.hash := tg.View()])
      ensures strategy.View() == old(strategy.View())
    {
      hide TalliesAgree, IndexAgrees, Owned, OwnedInJob, Tallies, AnyStrategy.View, KeyedByName;
      ghost var m := Model();
      if tg.hash !in targetItems {
        TrackUnowned(m, tg.hash, tg.View(), Tallies(collectors), targetItemsPerJobPerCollector);
      }
      targetItems := targetItems[tg.hash := tg];
      assert Model() == m.(items := m.items[tg.hash := tg.View()]);
      assert tg.hash in m.items ==> Model() == m;
    }

    /** Put the target, which has got its owner, into the index; `m` is the state before. */
    method Enlist(tg: Item, ghost m: Cluster)
      requires IndexAgrees(targetItemsPerJobPerCollector, m)
      requires tg.hash in m.items && m.items[tg.hash].owner == "" && m.items[tg.hash].job == tg.jobName
      requires tg.collectorName in m.nodes && "" !in m.nodes
      modifies this`targetItemsPerJobPerCollector
      ensures IndexAgrees(targetItemsPerJobPerCollector, WithOwner(m, tg.hash, tg.collectorName))
      ensures Model() == old(Model()) && Tallies(collectors) == old(Tallies(collectors))
      ensures strategy.View() == old(strategy.View())
    {
      hide IndexAgrees, Owned, OwnedInJob;
      ghost var index := targetItemsPerJobPerCollector;
      AddCollectorTargetItemMapping(tg);
      GiveIndex(m, tg.hash, tg.collectorName, index, targetItemsPerJobPerCollector);
    }

    /** Hand the unowned target `tg` to the live collector `name`. */
    method Assign(tg: Item, name: string)
      requires Coherent() && tg.hash in targetItems && targetItems[tg.hash] == tg
      requires tg.collectorName == "" && name in collectors
      modifies this`targetItemsPerJobPerCollector, tg`collectorName
      modifies collectors.Values`numTargets, collectors.Values`targetsPerJob
      ensures Coherent() && Model() == WithOwner(old(Model()), tg.hash, name)
      ensures strategy.View() == old(strategy.View())
    {
      hide TalliesAgree, IndexAgrees, Owned, OwnedInJob;
      ghost var m := Model();
      GiveTallies(m, tg.hash, name, Tallies(collectors));
      SetOwner(tg, name);
      Enlist(tg, m);
      CountUp(name, tg.jobName);
    }

    method Reassign(tg: Item, name: string)
      requires Coherent() && tg.hash in targetItems && targetItems[tg.hash] == tg && name in collectors
      requires tg.collectorName == "" || tg.collectorName in collectors
      modifies this`targetItemsPerJobPerCollector, tg`collectorName
      modifies collectors.Values`numTargets, collectors.Values`targetsPerJob
      ensures Coherent() && Model() == WithOwner(old(Model()), tg.hash, name)
      ensures strategy.View() == old(strategy.View())
    {
      hide Coherent;
      OwnerTwice(Model(), tg.hash);
      UnassignTargetItem(tg);
      Assign(tg, name);
    }

    lemma CoherentTracking()
      requires Coherent()
      ensures Model().items.Keys == targetItems.Keys
      ensures forall h :: h in targetItems ==> targetItems[h].hash == h && Model().items[h] == targetItems[h].View()
      ensures forall h :: h in targetItems ==> targetItems[h].View().owner == targetItems[h].collectorName
      ensures forall c :: c in Model().nodes <==> c in collectors
    {
      assert Nodes(collectors).Keys == collectors.Keys;
    }

    lemma CoherentNames()
      requires Coherent()
      ensures Model().nodes.Keys == collectors.Keys
    {
      assert Nodes(collectors).Keys == collectors.Keys;
    }

    lemma ValidTracking()
      requires Valid()
      ensures Model().items.Keys == targetItems.Keys
      ensures forall h :: h in targetItems ==> targetItems[h].hash == h
      ensures Inv(strategy.View(), Model())
    {
    }

    lemma CoherentFacts(tg: Item)
      requires Coherent() && tg.hash in targetItems && targetItems[tg.hash] == tg
      ensures var m := Model();
        && CountersAgree(collectors, m) && KeyedByName(collectors)
        && m.nodes.Keys == collectors.Keys && "" !in m.nodes && (collectors == map[] <==> m.nodes == map[])
        && tg.hash in m.items && m.items[tg.hash] == tg.View() && tg.View().owner == tg.collectorName
    {
      assert Nodes(collectors).Keys == collectors.Keys;
    }

    /** Ask the strategy. The answer is never nil, and an error only concerns an unowned target. */
    method AskStrategy(tg: Item, ghost s: Strategy, ghost m: Cluster) returns (outcome: Outcome)
      requires Coherent() && tg.hash in targetItems && targetItems[tg.hash] == tg && collectors != map[]
      requires s == strategy.View() && m == Model()
      requires Synced(s, m.nodes) && Rooted(s, m.nodes, tg.View())
      ensures tg.hash in m.items && PlacesBy(s, m, tg.hash, outcome, collectors)
      ensures strategy.View() == s
    {
      hide Coherent, Synced, Rooted, Choose, Place, PlacesBy, Answers, Model, CountersAgree, KeyedByName, Item.View;
      CoherentFacts(tg);
      outcome := strategy.GetCollectorForTarget(collectors, tg, s, m, m.items[tg.hash]);
      AnswerPlaces(s, m, tg.hash, outcome, collectors);
    }

    /** Give the tracked target `tg` the owner the strategy chooses. The new owner is asked for
        before the old one is given up, since the strategy may look at the old one. */
    method PlaceTarget(tg: Item) returns (failed: bool)
      requires Coherent() && tg.hash in targetItems && targetItems[tg.hash] == tg
      requires Synced(strategy.View(), Model().nodes) && Rooted(strategy.View(), Model().nodes, tg.View())
      modifies this`targetItemsPerJobPerCollector, tg`collectorName
      modifies collectors.Values`numTargets, collectors.Values`targetsPerJob
      ensures Coherent()
      ensures failed ==> tg.collectorName == ""
      ensures tg.hash in old(Model()).items && Model() == Place(old(strategy.View()), old(Model()), tg.hash)
      ensures strategy.View() == old(strategy.View())
    {
      hide *;
      CoherentFacts(tg);
      ghost var s, m := strategy.View(), Model();
      RootedOwner(s, m.nodes, tg.View());
      if collectors == map[] {
        PlaceNowhere(s, m, tg.hash);
        return false;
      }
      var outcome := AskStrategy(tg, s, m);
      AnswerCases(s, m, tg.hash, outcome, collectors);
      if outcome.Failed? {
        return true;
      }
      Reassign(tg, outcome.collector.name);
      return false;
    }

    method AddTargetToTargetItems(tg: Item) returns (failed: bool)
      requires Coherent() && Synced(strategy.View(), Model().nodes)
      requires tg.hash in targetItems ==> targetItems[tg.hash] == tg
      requires tg.hash !in targetItems ==> tg.collectorName == ""
      requires Rooted(strategy.View(), Model().nodes, tg.View())
      modifies this`targetItems, this`targetItemsPerJobPerCollector, tg`collectorName
      modifies collectors.Values`numTargets, collectors.Values`targetsPerJob
      ensures Coherent()
      ensures targetItems == old(targetItems)[tg.hash := tg]
      ensures failed ==> tg.collectorName == ""
      ensures Model() == Place(old(strategy.View()),
                               old(Model()).(items := old(Model()).items[tg.hash := old(tg.View())]), tg.hash)
      ensures strategy.View() == old(strategy.View())
    {
      hide Coherent, Synced, Rooted, Place;
      Track(tg);
      failed := PlaceTarget(tg);
    }

    /******* Handling differences *******/

    method ResetOwner(item: Item)
      requires Coherent() && item.hash !in targetItems
      modifies item`collectorName
      ensures Coherent() && Model() == old(Model())
      ensures item.collectorName == "" && item.View() == item.Bare()
      ensures strategy.View() == old(strategy.View())
    {
      item.collectorName := "";
      assert Model() == old(Model());
    }

    /** Add a target that is not tracked yet. */
    method AddNewTarget(item: Item) returns (failed: bool)
      requires Valid() && item.hash !in targetItems
      modifies this`targetItems, this`targetItemsPerJobPerCollector, item`collectorName
      modifies collectors.Values`numTargets, collectors.Values`targetsPerJob
      ensures Valid() && targetItems == old(targetItems)[item.hash := item]
      ensures Model() == Add(old(strategy.View()), old(Model()), item.hash, item.Bare())
      ensures strategy.View() == old(strategy.View())
    {
      hide Coherent, Inv, Model, Place, Rooted, Synced, Item.View, AnyStrategy.View;
      ghost var s, m := strategy.View(), Model();
      AddKeepsInv(s, m, item.hash, item.Bare());
      ResetOwner(item);
      UnownedIsRooted(s, m.nodes, item.View());
      failed := AddTargetToTargetItems(item);
    }

    method RemoveOne(item: Item)
      requires Valid() && item.hash in targetItems && targetItems[item.hash] == item
      modifies this`targetItems, this`targetItemsPerJobPerCollector, item`collectorName
      modifies collectors.Values`numTargets, collectors.Values`targetsPerJob
      ensures Valid()
      ensures targetItems == old(targetItems) - {item.hash}
      ensures Model() == Untracked(old(Model()), {item.hash})
      ensures strategy.View() == old(strategy.View())
    {
      hide Coherent, Inv, Model, Item.View, AnyStrategy.View;
      CoherentTracking();
      RemovableNow(strategy.View(), Model(), item.hash);
      RemoveTargetItem(item);
    }

    /** Visit the tracked targets in the order `keys` and remove those that are in `removals`. */
    method RemoveTargets(removals: map<Hash, Item>, keys: seq<Hash>)
      requires Valid() && Visits(keys, targetItems.Keys)
      modifies this`targetItems, this`targetItemsPerJobPerCollector, targetItems.Values`collectorName
      modifies collectors.Values`numTargets, collectors.Values`targetsPerJob
      ensures Valid()
      ensures targetItems == old(targetItems) - removals.Keys
      ensures Model() == Untracked(old(Model()), removals.Keys)
      ensures strategy.View() == old(strategy.View())
    {
      hide Valid, Coherent, Model, Untracked, Item.View, AnyStrategy.View, Visits, Inv, Seen;
      ghost var s, m, tracked := strategy.View(), Model(), targetItems;
      ghost var gone: set<Hash> := {};
      ValidTracking();
      UntrackedSteps(m, gone, 0);
      MinusStep(tracked, gone, 0);
      SeenStep(keys, 0, tracked.Keys);
      SeenAmong(keys, 0, tracked.Keys, removals.Keys);
      for i := 0 to |keys|
        invariant gone == removals.Keys * Seen(keys, i)
        invariant targetItems == tracked - gone
        invariant Valid() && strategy.View() == s
        invariant Model() == Untracked(m, gone)
      {
        SeenStep(keys, i, tracked.Keys);
        SeenAmong(keys, i, tracked.Keys, removals.Keys);
        var k := keys[i];
        if k in removals {
          UntrackedSteps(m, gone, k);
          ValidTracking();
          MinusStep(tracked, gone, k);
          assert targetItems[k] == tracked[k] && tracked[k] in tracked.Values;
          RemoveOne(targetItems[k]);
          gone := gone + {k};
        }
      }
      UntrackedByKeys(m, gone, removals.Keys);
      assert tracked - gone == tracked - removals.Keys;
    }

    /** Visit `additions` in the order `keys` and add the targets that are not tracked yet; `order`
        lists those. */
    method AddTargets(additions: map<Hash, Item>, keys: seq<Hash>) returns (ghost order: seq<Hash>)
      requires Valid() && Visits(keys, additions.Keys) && forall h :: h in additions ==> additions[h].hash == h
      modifies this`targetItems, this`targetItemsPerJobPerCollector, additions.Values`collectorName
      modifies collectors.Values`numTargets, collectors.Values`targetsPerJob
      ensures Valid()
      ensures Visits(order, additions.Keys - old(targetItems.Keys))
      ensures Model() == AddAll(old(strategy.View()), old(Model()), Bare(additions), order)
      ensures Keeps(old(targetItems), additions, targetItems)
      ensures strategy.View() == old(strategy.View())
    {
      hide Valid, Model, Add, Item.Bare, Item.View, AnyStrategy.View, AddProgress, Keeps, Visits;
      ghost var s, m, tracked := strategy.View(), Model(), targetItems;
      order := [];
      SeenStep(keys, 0, additions.Keys);
      AddProgressSteps(tracked, additions, keys, 0, order, tracked);
      for i := 0 to |keys|
        invariant AddProgress(tracked, additions, keys, i, order, targetItems)
        invariant Valid() && strategy.View() == s && collectors == old(collectors)
        invariant forall h :: h in order ==> h in Bare(additions)
        invariant Model() == AddAll(s, m, Bare(additions), order)
      {
        SeenStep(keys, i, additions.Keys);
        AddProgressSteps(tracked, additions, keys, i, order, targetItems);
        var k := keys[i];
        if k in targetItems {
          continue;
        }
        AddAllSnoc(s, m, Bare(additions), order, k);
        assert additions[k] in additions.Values;
        var failed := AddNewTarget(additions[k]);
        order := order + [k];
      }
      AddProgressSteps(tracked, additions, keys, |keys|, order, targetItems);
    }

    /** Reconcile with the removed and the new targets. */
    method HandleTargets(additions: map<Hash, Item>, removals: map<Hash, Item>) returns (ghost order: seq<Hash>)
      requires Valid() && forall h :: h in additions ==> additions[h].hash == h
      modifies this`targetItems, this`targetItemsPerJobPerCollector
      modifies additions.Values`collectorName, targetItems.Values`collectorName
      modifies collectors.Values`numTargets, collectors.Values`targetsPerJob
      ensures Valid()
      ensures Visits(order, additions.Keys - (old(targetItems.Keys) - removals.Keys))
      ensures Model() == AddAll(old(strategy.View()), Untracked(old(Model()), removals.Keys), Bare(additions), order)
      ensures Keeps(old(targetItems) - removals.Keys, additions, targetItems)
      ensures collectors == old(collectors)
      ensures strategy.View() == old(strategy.View())
    {
      StrategyAllocated();
      var keys := AnyOrder(targetItems.Keys);
      var newKeys := AnyOrder(additions.Keys);
      assert Valid() && Model() == old(Model()) && strategy.View() == old(strategy.View());
      hide Valid, Model, Untracked, AddAll, Item.Bare, Item.View, AnyStrategy.View;
      assert (targetItems - removals.Keys).Keys == targetItems.Keys - removals.Keys;
      RemoveTargets(removals, keys);
      order := AddTargets(additions, newKeys);
    }

    static method BuildTargetMap(targets: seq<Item>) returns (result: map<Hash, Item>)
      ensures result == Latest(targets)
      ensures result.Keys == set t | t in targets :: t.hash
      ensures forall h :: h in result ==>
        exists i: nat :: IsLast(targets, i) && targets[i].hash == h && result[h] == targets[i]
    {
      result := map[];
      for i := 0 to |targets|
        invariant result == Latest(targets[..i])
      {
        result := result[targets[i].hash := targets[i]];
        assert targets[..i + 1][..i] == targets[..i];
      }
      assert targets[..|targets|] == targets;
      LatestExactly(targets);
      LatestTracked(targets, map[], result);
    }

    method TargetsDiff(targets: seq<Item>) returns (additions: map<Hash, Item>, removals: map<Hash, Item>)
      requires KeyedByHash()
      ensures IsTargetsDiff(targetItems, Latest(targets), additions, removals)
      ensures additions.Values <= set item | item in targets
    {
      var targetMap := BuildTargetMap(targets);
      additions, removals := Diff.Maps(targetItems, targetMap, (item: Item) => item.hash);
      LatestKeyed(targets);
      Diff.KeyedByHash(targetItems, targetMap, (item: Item) => item.hash, additions, removals);
    }

    /** Bring the allocator from the tracked to the `wanted` targets; without a difference nothing
        is done. */
    method Reconcile(ghost wanted: map<Hash, Item>, additions: map<Hash, Item>, removals: map<Hash, Item>)
      requires Valid() && IsTargetsDiff(targetItems, wanted, additions, removals)
      modifies this`targetItems, this`targetItemsPerJobPerCollector
      modifies additions.Values`collectorName, targetItems.Values`collectorName
      modifies collectors.Values`numTargets, collectors.Values`targetsPerJob
      ensures Valid()
      ensures TargetsStep(old(strategy.View()), old(Model()), Bare(wanted), Model())
      ensures targetItems.Keys == wanted.Keys
      ensures Keeps(old(targetItems), wanted, targetItems)
      ensures strategy.View() == old(strategy.View())
    {
      hide Valid, Model, AddAll, Untracked, Item.View;
      hide Item.Bare, AnyStrategy.View, TargetsStep, Keeps, Bare, IsTargetsDiff;
      ghost var s, m, tracked := strategy.View(), Model(), targetItems;
      ValidTracking();
      if |additions| != 0 || |removals| != 0 {
        DiffKeyed(tracked, wanted, additions, removals);
        ghost var order := HandleTargets(additions, removals);
        ValidTracking();
        DiffStep(s, m, tracked, wanted, additions, removals, order, Model());
        KeepsAll(tracked, wanted, additions, removals, targetItems);
      } else {
        NoDiffStep(s, m, tracked, wanted, additions, removals);
      }
    }

    /** The list of all discovered targets. Targets that are tracked already keep their object and
        owner; of several with the same hash, the last one counts. */
    method SetTargets(targets: seq<Item>)
      requires Valid()
      modifies this`targetItems, this`targetItemsPerJobPerCollector
      modifies (set item | item in targets)`collectorName, targetItems.Values`collectorName
      modifies collectors.Values`numTargets, collectors.Values`targetsPerJob
      ensures Valid()
      ensures TargetsStep(old(strategy.View()), old(Model()), Bare(Latest(targets)), Model())
      ensures targetItems.Keys == set t | t in targets :: t.hash
      ensures forall h :: h in targetItems && h in old(targetItems) ==> targetItems[h] == old(targetItems)[h]
      ensures forall h :: h in targetItems && h !in old(targetItems) ==>
        exists i: nat :: IsLast(targets, i) && targetItems[h] == targets[i] && targets[i].hash == h
      ensures targetItems.Keys == Latest(targets).Keys
      ensures Keeps(old(targetItems), Latest(targets), targetItems)
      ensures strategy.View() == old(strategy.View())
    {
      StrategyAllocated();
      ValidTracking();
      var additions, removals := TargetsDiff(targets);
      assert Valid() && Model() == old(Model()) && strategy.View() == old(strategy.View());
      hide Valid, Model, AnyStrategy.View, TargetsStep, Keeps, Bare, IsTargetsDiff, Latest;
      Reconcile(Latest(targets), additions, removals);
      LatestTracked(targets, old(targetItems), targetItems);
      ValidTracking();
    }

    /******* Handling a change of collectors *******/

    method RemoveCollectors(removals: Collectors, keys: seq<string>)
      requires Coherent() && removals.Keys <= collectors.Keys && Visits(keys, removals.Keys)
      modifies this`collectors, this`targetItemsPerJobPerCollector, targetItems.Values`collectorName
      ensures Coherent()
      ensures collectors == old(collectors) - removals.Keys
      ensures Model() == RemovedAll(old(Model()), removals.Keys)
      ensures strategy.View() == old(strategy.View())
    {
      hide Coherent, Model, RemovedAll, WithoutCollector, AnyStrategy.View;
      ghost var s, m, live := strategy.View(), Model(), collectors;
      SeenStep(keys, 0, removals.Keys);
      RemovedAllStep(m, {}, "");
      MinusStep(live, {}, "");
      for i := 0 to |keys|
        invariant Coherent() && strategy.View() == s
        invariant Seen(keys, i) <= removals.Keys
        invariant collectors == live - Seen(keys, i)
        invariant Model() == RemovedAll(m, Seen(keys, i))
      {
        SeenStep(keys, i, removals.Keys);
        RemovedAllStep(m, Seen(keys, i), keys[i]);
        MinusStep(live, Seen(keys, i), keys[i]);
        RemoveCollector(keys[i]);
      }
    }

    /** Take in the collector `c`, which has no targets. */
    method InsertCollector(c: Collector)
      requires KeyedByName(collectors) && c.name !in collectors && c.Counters() == Tally(0, map[])
      modifies this`collectors
      ensures collectors == old(collectors)[c.name := c] && KeyedByName(collectors)
      ensures Tallies(collectors) == old(Tallies(collectors))[c.name := Tally(0, map[])]
      ensures Model() == old(Model()).(nodes := old(Model()).nodes[c.name := c.nodeName])
      ensures strategy.View() == old(strategy.View())
    {
      hide AnyStrategy.View, Tallies, Nodes, KeyedByName, Collector.Counters;
      StrategyAllocated();
      OneMoreCollector(collectors, c);
      collectors := collectors[c.name := c];
    }

    method AddCollector(name: string, node: string)
      requires Coherent() && name != "" && name !in collectors && Runs.OwnersLive(Model())
      modifies this`collectors
      ensures Coherent() && Model() == old(Model()).(nodes := old(Model()).nodes[name := node])
      ensures collectors.Keys == old(collectors.Keys) + {name} && fresh(collectors[name])
      ensures forall c :: c in old(collectors) ==> collectors[c] == old(collectors)[c]
      ensures strategy.View() == old(strategy.View())
    {
      hide TalliesAgree, IndexAgrees, Tallies, AnyStrategy.View, Runs.OwnersLive;
      StrategyAllocated();
      CoherentNames();
      WithCollectorCoherent(Model(), name, node, Tallies(collectors), targetItemsPerJobPerCollector);
      var c := new Collector(name, node);
      InsertCollector(c);
    }

    method AddCollectors(additions: Collectors, keys: seq<string>)
      requires Coherent() && Runs.OwnersLive(Model()) && KeyedByName(additions) && Visits(keys, additions.Keys)
      requires "" !in additions && additions.Keys !! collectors.Keys
      modifies this`collectors
      ensures Coherent()
      ensures collectors.Keys == old(collectors.Keys) + additions.Keys
      ensures KeptCollectors(old(collectors), collectors, {})
      ensures forall c :: c in collectors ==>
        (c in old(collectors) && collectors[c] == old(collectors)[c]) || fresh(collectors[c])
      ensures Model() == WithNodes(old(Model()), Nodes(additions), additions.Keys)
      ensures strategy.View() == old(strategy.View())
    {
      hide Coherent, Model, WithNodes, Runs.OwnersLive, AnyStrategy.View, KeptOrNew, KeptCollectors, Visits, Nodes;
      ghost var m, live := Model(), collectors;
      ghost var news: set<Collector> := {};
      SeenStep(keys, 0, additions.Keys);
      WithNodesStep(m, Nodes(additions), {}, "");
      NothingNew(live);
      for i := 0 to |keys|
        invariant Coherent() && strategy.View() == old(strategy.View()) && Runs.OwnersLive(Model())
        invariant Seen(keys, i) <= additions.Keys && fresh(news)
        invariant collectors.Keys == live.Keys + Seen(keys, i)
        invariant KeptCollectors(live, collectors, {}) && KeptOrNew(live, collectors, news)
        invariant Model() == WithNodes(m, Nodes(additions), Seen(keys, i))
      {
        ghost var between := collectors;
        SeenStep(keys, i, additions.Keys);
        var k := keys[i];
        NewNode(m, additions, Seen(keys, i), k);
        AddCollector(additions[k].name, additions[k].nodeName);
        KeptOrNewStep(live, between, collectors, news, k);
        news := news + {collectors[k]};
      }
      NewsAreNew(live, collectors, news);
    }

    /** After a failed placement the owner is overwritten with "", which it already is. */
    method ClearFailed(item: Item)
      requires Coherent() && item.collectorName == ""
      modifies item`collectorName
      ensures Coherent() && Model() == old(Model()) && strategy.View() == old(strategy.View())
    {
      item.collectorName := "";
    }

    /** Place the tracked target `item` again. */
    method PlaceAgain(item: Item)
      requires Coherent() && item.hash in targetItems && targetItems[item.hash] == item
      requires Synced(strategy.View(), Model().nodes) && Rooted(strategy.View(), Model().nodes, item.View())
      modifies this`targetItems, this`targetItemsPerJobPerCollector, item`collectorName
      modifies collectors.Values`numTargets, collectors.Values`targetsPerJob
      ensures Coherent() && targetItems == old(targetItems)
      ensures item.hash in old(Model()).items && Model() == Place(old(strategy.View()), old(Model()), item.hash)
      ensures strategy.View() == old(strategy.View())
    {
      hide Coherent, Model, Place, Synced, Rooted, Item.View, AnyStrategy.View;
      CoherentFacts(item);
      SameItem(Model(), item.hash, item.View());
      var failed := AddTargetToTargetItems(item);
      if failed {
        ClearFailed(item);
      }
    }

    /** Visit the tracked targets in the order `keys` and place each again. */
    method PlaceTargets(keys: seq<Hash>)
      requires Coherent() && Visits(keys, targetItems.Keys) && Synced(strategy.View(), Model().nodes)
      requires AllRooted(strategy.View(), Model())
      modifies this`targetItems, this`targetItemsPerJobPerCollector, targetItems.Values`collectorName
      modifies collectors.Values`numTargets, collectors.Values`targetsPerJob
      ensures Coherent() && targetItems == old(targetItems)
      ensures (forall h :: h in keys ==> h in old(Model()).items)
        && Model() == PlaceAll(old(strategy.View()), old(Model()), keys)
      ensures strategy.View() == old(strategy.View())
    {
      CoherentNames();
      hide Coherent, Model, Place, Synced, Rooted, AllRooted, Item.View, AnyStrategy.View;
      ghost var s, m, tracked := strategy.View(), Model(), targetItems;
      CoherentTracking();
      assert keys[..0] == [];
      for i := 0 to |keys|
        invariant Coherent() && strategy.View() == s && targetItems == tracked
        invariant forall h :: h in keys ==> h in m.items
        invariant Model() == PlaceAll(s, m, keys[..i])
      {
        UnvisitedRooted(s, m, keys, i);
        CoherentTracking();
        assert tracked[keys[i]] in tracked.Values;
        PlaceAgain(targetItems[keys[i]]);
        PlaceAllSnoc(s, m, keys, i);
      }
      assert keys[..|keys|] == keys;
    }

    /** Tell the strategy about the live collectors. */
    method InformStrategy()
      requires Coherent()
      modifies strategy.Tables()`collectorByNode, strategy.Rings()`ring
      ensures Coherent() && Model() == old(Model())
      ensures Resync(old(strategy.View()), strategy.View(), Model().nodes)
    {
      hide AnyStrategy.View, TalliesAgree, IndexAgrees, Tallies;
      StrategyAllocated();
      strategy.SetCollectors(collectors, Model().nodes);
    }

    method ChangeInOrder(additions: Collectors, removals: Collectors, additionKeys: seq<string>,
                         removalKeys: seq<string>)
      requires Coherent() && Runs.OwnersLive(Model()) && KeyedByName(additions) && "" !in additions
      requires removals.Keys <= collectors.Keys && additions.Keys !! collectors.Keys
      requires Visits(additionKeys, additions.Keys) && Visits(removalKeys, removals.Keys)
      modifies this`collectors, this`targetItemsPerJobPerCollector, targetItems.Values`collectorName
      ensures Coherent()
      ensures KeptCollectors(old(collectors), collectors, removals.Keys)
      ensures forall c :: c in collectors ==>
        (c in old(collectors) && collectors[c] == old(collectors)[c]) || fresh(collectors[c])
      ensures Model() == WithNodes(RemovedAll(old(Model()), removals.Keys), Nodes(additions), additions.Keys)
      ensures strategy.View() == old(strategy.View())
    {
      hide Coherent, Model, RemovedAll, WithNodes, Runs.OwnersLive, AnyStrategy.View, KeptCollectors, Visits, Nodes;
      ghost var live := collectors;
      RemovedAllOwners(Model(), removals.Keys);
      RemoveCollectors(removals, removalKeys);
      ghost var between := collectors;
      AddCollectors(additions, additionKeys);
      KeptThrough(live, between, collectors, removals.Keys);
    }

    method ChangeCollectors(additions: Collectors, removals: Collectors)
      requires Coherent() && Runs.OwnersLive(Model()) && KeyedByName(additions) && "" !in additions
      requires removals.Keys <= collectors.Keys && additions.Keys !! collectors.Keys
      modifies this`collectors, this`targetItemsPerJobPerCollector, targetItems.Values`collectorName
      ensures Coherent()
      ensures KeptCollectors(old(collectors), collectors, removals.Keys)
      ensures forall c :: c in collectors ==>
        (c in old(collectors) && collectors[c] == old(collectors)[c]) || fresh(collectors[c])
      ensures Model() == WithNodes(RemovedAll(old(Model()), removals.Keys), Nodes(additions), additions.Keys)
      ensures strategy.View() == old(strategy.View())
    {
      StrategyAllocated();
      var removalKeys := AnyOrder(removals.Keys);
      var additionKeys := AnyOrder(additions.Keys);
      assert Coherent() && Model() == old(Model()) && strategy.View() == old(strategy.View());
      hide Coherent, Model, RemovedAll, WithNodes, Runs.OwnersLive, AnyStrategy.View, KeptCollectors, Visits;
      ChangeInOrder(additions, removals, additionKeys, removalKeys);
    }

    /** Take over the new set of collectors; no target is placed yet. */
    method ReplaceCollectors(additions: Collectors, removals: Collectors, ghost nodes: map<string, string>)
      requires Valid() && KeyedByName(additions) && "" !in nodes
      requires IsCollectorsDiff(Model().nodes, nodes, Nodes(additions), removals.Keys)
      modifies this`collectors, this`targetItemsPerJobPerCollector, targetItems.Values`collectorName
      modifies strategy.Tables()`collectorByNode, strategy.Rings()`ring
      ensures Coherent() && Model() == Replace(old(Model()), nodes)
      ensures Resync(old(strategy.View()), strategy.View(), Model().nodes)
      ensures KeptCollectors(old(collectors), collectors, removals.Keys)
      ensures forall c :: c in collectors ==>
        (c in old(collectors) && collectors[c] == old(collectors)[c]) || fresh(collectors[c])
    {
      ghost var s, m := strategy.View(), Model();
      CoherentNames();
      hide Coherent, Model, AnyStrategy.View, Inv, IsCollectorsDiff, Nodes, Replace, WithNodes, RemovedAll, Resync;
      CollectorsDiffFacts(m.nodes, nodes, additions, removals.Keys);
      DiffIsReplace(s, m, nodes, Nodes(additions), removals.Keys);
      ChangeCollectors(additions, removals);
      InformStrategy();
    }

    /** Reconcile with the removed and the new collectors, then place every target again. */
    method HandleCollectors(additions: Collectors, removals: Collectors, order: seq<Hash>,
                            ghost nodes: map<string, string>)
      requires Valid() && KeyedByName(additions) && "" !in nodes && nodes.Keys != Model().nodes.Keys
      requires IsCollectorsDiff(Model().nodes, nodes, Nodes(additions), removals.Keys)
      requires Visits(order, targetItems.Keys)
      modifies this`collectors, this`targetItems, this`targetItemsPerJobPerCollector, targetItems.Values`collectorName
      modifies collectors.Values`numTargets, collectors.Values`targetsPerJob
      modifies strategy.Tables()`collectorByNode, strategy.Rings()`ring
      ensures KeptCollectors(old(collectors), collectors, removals.Keys)
      ensures Valid() && targetItems == old(targetItems)
      ensures CollectorsStep(old(strategy.View()), old(Model()), nodes, strategy.View(), Model())
    {
      hide Coherent, Model, AnyStrategy.View, Inv, IsCollectorsDiff;
      hide Nodes, Replace, AllRooted, CollectorsStep, Resync, Synced;
      ghost var s, m := strategy.View(), Model();
      CoherentTracking();
      ReplaceCollectors(additions, removals, nodes);
      ReplacedIsRooted(s, m, nodes, strategy.View());
      CoherentTracking();
      PlaceTargets(order);
      ReplacedStep(s, m, nodes, strategy.View(), order, Model());
    }

    method CollectorsDiff(given: Collectors) returns (additions: Collectors, removals: Collectors)
      requires KeyedByName(collectors) && KeyedByName(given)
      ensures KeyedByName(additions)
      ensures IsCollectorsDiff(Nodes(collectors), Nodes(given), Nodes(additions), removals.Keys)
    {
      additions, removals := Diff.Maps(collectors, given, (c: Collector) => c.name);
      Diff.KeyedByHash(collectors, given, (c: Collector) => c.name, additions, removals);
      assert Nodes(collectors).Keys == collectors.Keys && Nodes(given).Keys == given.Keys;
      assert Nodes(additions).Keys == additions.Keys;
    }

    /** Bring the allocator from the live collectors to `nodes`; with the same names as before
        nothing is done. `order` is the order the targets are visited in. */
    method ReconcileCollectors(additions: Collectors, removals: Collectors, order: seq<Hash>,
                               ghost nodes: map<string, string>)
      requires Valid() && KeyedByName(additions) && "" !in nodes && Visits(order, targetItems.Keys)
      requires IsCollectorsDiff(Model().nodes, nodes, Nodes(additions), removals.Keys)
      modifies this`collectors, this`targetItems, this`targetItemsPerJobPerCollector, targetItems.Values`collectorName
      modifies collectors.Values`numTargets, collectors.Values`targetsPerJob
      modifies strategy.Tables()`collectorByNode, strategy.Rings()`ring
      ensures KeptCollectors(old(collectors), collectors, removals.Keys)
      ensures Valid() && targetItems == old(targetItems)
      ensures CollectorsStep(old(strategy.View()), old(Model()), nodes, strategy.View(), Model())
    {
      hide *;
      KeptThrough(collectors, collectors, collectors, removals.Keys);
      SameNamesStep(strategy.View(), Model(), nodes, additions, removals);
      if |additions| != 0 || |removals| != 0 {
        HandleCollectors(additions, removals, order, nodes);
      }
    }

    /** The map of all discovered collectors, keyed by their names. Collectors that are live already
        keep their object. */
    method SetCollectors(given: Collectors)
      requires Valid() && KeyedByName(given) && "" !in given
      modifies this`collectors, this`targetItems, this`targetItemsPerJobPerCollector, targetItems.Values`collectorName
      modifies collectors.Values`numTargets, collectors.Values`targetsPerJob
      modifies strategy.Tables()`collectorByNode, strategy.Rings()`ring
      ensures Valid() && targetItems == old(targetItems)
      ensures collectors.Keys == given.Keys
      ensures forall c :: c in old(collectors) && c in given ==> collectors[c] == old(collectors)[c]
      ensures forall c :: c in given && c !in old(collectors) ==>
        collectors[c].name == c && collectors[c].nodeName == given[c].nodeName
      ensures CollectorsStep(old(strategy.View()), old(Model()), Nodes(given), strategy.View(), Model())
    {
      StrategyAllocated();
      assert Model().nodes == Nodes(collectors) && Nodes(given).Keys == given.Keys;
      var additions, removals := CollectorsDiff(given);
      var order := AnyOrder(targetItems.Keys);
      assert Valid() && Model() == old(Model()) && strategy.View() == old(strategy.View());
      hide Valid, Coherent, Model, AnyStrategy.View, IsCollectorsDiff, CollectorsStep, Nodes, Visits;
      ghost var m := Model();
      ReconcileCollectors(additions, removals, order, Nodes(given));
      NewNodes(old(strategy.View()), m, given, strategy.View());
    }

    /** What the simple view says about the names and nodes of the collectors. */
    lemma NewNodes(s: Strategy, m: Cluster, given: Collectors, s': Strategy)
      requires Valid() && KeyedByName(given) && "" !in given && CollectorsStep(s, m, Nodes(given), s', Model())
      ensures collectors.Keys == given.Keys
      ensures forall c :: c in given ==> c in collectors && collectors[c].name == c
      ensures forall c :: c in given && c !in m.nodes ==> collectors[c].nodeName == given[c].nodeName
    {
      hide CollectorsStep;
      StepNodes(s, m, Nodes(given), s', Model());
      assert Model().nodes == Nodes(collectors) && Nodes(collectors).Keys == collectors.Keys;
      assert Nodes(given).Keys == given.Keys;
    }
  }

  lemma StepNodes(s: Strategy, m: Cluster, nodes: map<string, string>, s': Strategy, m': Cluster)
    requires CollectorsStep(s, m, nodes, s', m')
    ensures m'.nodes.Keys == nodes.Keys
    ensures forall c :: c in nodes && c !in m.nodes ==> m'.nodes[c] == nodes[c]
  {
    if nodes.Keys != m.nodes.Keys {
      Runs.ReplaceFacts(m, nodes);
    }
  }
}
