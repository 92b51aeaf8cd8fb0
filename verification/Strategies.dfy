/** Targets, collectors and the three placement strategies as the allocator holds them: objects
    whose fields change, proved against `Placement.Choose`. */
module Strategies {
  import opened Options
  import opened GoStrings
  import opened Placement

  /** A scrape target. Its hash, job, URL and node never change; its owner does. */
  class Item {
    const hash: Hash
    const jobName: string
    const targetURL: string
    const nodeName: string
    var collectorName: string

    constructor (hash: Hash, jobName: string, targetURL: string, nodeName: string, collectorName: string)
      ensures this.hash == hash
      ensures View() == Target(jobName, targetURL, nodeName, collectorName)
    {
      this.hash, this.jobName, this.targetURL := hash, jobName, targetURL;
      this.nodeName, this.collectorName := nodeName, collectorName;
    }

    /** The target without its owner: what never changes. */
    ghost function Bare(): Target {
      Target(jobName, targetURL, nodeName, "")
    }

    ghost function View(): Target
      reads this`collectorName
    {
      Target(jobName, targetURL, nodeName, collectorName)
    }
  }

  /** A collector with its load counters. */
  class Collector {
    const name: string
    const nodeName: string
    var numTargets: int
    var targetsPerJob: map<string, int>

    constructor (name: string, nodeName: string)
      ensures this.name == name && this.nodeName == nodeName
      ensures numTargets == 0 && targetsPerJob == map[]
    {
      this.name, this.nodeName, numTargets, targetsPerJob := name, nodeName, 0, map[];
    }

    ghost function Counters(): Tally
      reads this`numTargets, this`targetsPerJob
    {
      Tally(numTargets, targetsPerJob)
    }

    /** The counters after taking one target of `job`. */
    method CountUp(job: string)
      modifies this`numTargets, this`targetsPerJob
      ensures Counters() == old(Counters()).Up(job)
    {
      numTargets := numTargets + 1;
      targetsPerJob := targetsPerJob[job := PerJob(targetsPerJob, job) + 1];
    }

    /** The counters after giving up one target of `job`; a count of zero is deleted. */
    method CountDown(job: string)
      modifies this`numTargets, this`targetsPerJob
      ensures Counters() == old(Counters()).Down(job)
    {
      numTargets := numTargets - 1;
      targetsPerJob := targetsPerJob[job := PerJob(targetsPerJob, job) - 1];
      if targetsPerJob[job] == 0 {
        targetsPerJob := targetsPerJob - {job};
      }
    }
  }

  /** The value of a collector's counters. */
  datatype Tally = Tally(total: int, perJob: map<string, int>) {
    ghost function Up(job: string): Tally {
      Tally(total + 1, perJob[job := PerJob(perJob, job) + 1])
    }

    ghost function Down(job: string): Tally {
      Tally(total - 1, if PerJob(perJob, job) == 1 then perJob - {job} else perJob[job := PerJob(perJob, job) - 1])
    }

    /** The counters say what a scan would count for collector `c`, and no zero is kept. */
    ghost predicate Agrees(c: string, m: Cluster) {
      && total == Load(m, c)
      && (forall job :: PerJob(perJob, job) == JobLoad(m, c, job))
      && (forall job :: job in perJob ==> perJob[job] != 0)
    }
  }

  /** The counter for a job; a Go map answers zero for a missing key. */
  function PerJob(targetsPerJob: map<string, int>, job: string): int {
    if job in targetsPerJob then targetsPerJob[job] else 0
  }

  type Collectors = map<string, Collector>

  predicate KeyedByName(collectors: Collectors) {
    forall c :: c in collectors ==> collectors[c].name == c
  }

  ghost function Nodes(collectors: Collectors): map<string, string> {
    map c | c in collectors :: collectors[c].nodeName
  }

  ghost function Tallies(collectors: Collectors): map<string, Tally>
    reads collectors.Values`numTargets, collectors.Values`targetsPerJob
  {
    map c | c in collectors :: collectors[c].Counters()
  }

  /** Counting one collector up or down leaves the counters of the others as they are. */
  method TallyUp(collectors: Collectors, c: string, job: string)
    requires KeyedByName(collectors) && c in collectors
    modifies collectors.Values`numTargets, collectors.Values`targetsPerJob
    ensures Tallies(collectors) == old(Tallies(collectors))[c := old(Tallies(collectors))[c].Up(job)]
  {
    hide Tally.Up, Collector.Counters;
    collectors[c].CountUp(job);
  }

  method TallyDown(collectors: Collectors, c: string, job: string)
    requires KeyedByName(collectors) && c in collectors
    modifies collectors.Values`numTargets, collectors.Values`targetsPerJob
    ensures Tallies(collectors) == old(Tallies(collectors))[c := old(Tallies(collectors))[c].Down(job)]
  {
    hide Tally.Down, Collector.Counters;
    collectors[c].CountDown(job);
  }

  ghost predicate TalliesAgree(tallies: map<string, Tally>, m: Cluster) {
    tallies.Keys == m.nodes.Keys && forall c :: c in tallies ==> tallies[c].Agrees(c, m)
  }

  /** The collectors are those of the cluster and their counters agree with its targets. */
  ghost predicate CountersAgree(collectors: Collectors, m: Cluster)
    reads collectors.Values`numTargets, collectors.Values`targetsPerJob
  {
    KeyedByName(collectors) && Nodes(collectors) == m.nodes && TalliesAgree(Tallies(collectors), m)
  }

  /** `CountersAgree`, collector by collector. */
  lemma CountersAgreeAt(collectors: Collectors, m: Cluster, c: string, job: string)
    requires CountersAgree(collectors, m) && c in collectors
    ensures c in m.nodes && collectors[c].name == c && collectors[c].nodeName == m.nodes[c]
    ensures collectors[c].numTargets == Load(m, c)
    ensures PerJob(collectors[c].targetsPerJob, job) == JobLoad(m, c, job)
  {
    assert c in Nodes(collectors) && Tallies(collectors)[c].Agrees(c, m);
  }

  lemma CountersAgreeNames(collectors: Collectors, m: Cluster)
    requires CountersAgree(collectors, m)
    ensures m.nodes.Keys == collectors.Keys
  {
    assert Nodes(collectors).Keys == collectors.Keys;
  }

  /** What `GetCollectorForTarget` returns: a pointer that may be nil, or an error. */
  datatype Outcome = Found(collector: Collector?) | Failed

  ghost predicate Answers(r: Outcome, choice: Choice, collectors: Collectors) {
    match choice
    case Chosen(name) => name in collectors && r == Found(collectors[name])
    case Refused => r == Failed
    case NilCollector => r == Found(null)
  }

  /******* Least weighted *******/

  ghost predicate LeastAmong(collectors: Collectors, names: set<string>, job: string, col: Collector)
    reads collectors.Values`numTargets, collectors.Values`targetsPerJob
  {
    && col.name in names && names <= collectors.Keys && collectors[col.name] == col
    && forall d :: d in names && d != col.name ==>
      Preferred(col.name, Weight(col.numTargets, PerJob(col.targetsPerJob, job)),
                d, Weight(collectors[d].numTargets, PerJob(collectors[d].targetsPerJob, job)))
  }

  /** Spelled out. */
  lemma LeastAmongPlainly(collectors: Collectors, job: string, col: Collector)
    requires KeyedByName(collectors) && LeastAmong(collectors, collectors.Keys, job, col)
    ensures col.name in collectors && collectors[col.name] == col
    ensures forall d :: d in collectors ==>
      && col.numTargets <= collectors[d].numTargets
      && (col.numTargets == collectors[d].numTargets ==>
            PerJob(col.targetsPerJob, job) <= PerJob(collectors[d].targetsPerJob, job))
      && (col.numTargets == collectors[d].numTargets
          && PerJob(col.targetsPerJob, job) == PerJob(collectors[d].targetsPerJob, job) ==>
            col.name == d || Less(col.name, d))
  {
  }

  /** The least of all by its counters is the least of the cluster. */
  lemma LeastFound(collectors: Collectors, m: Cluster, job: string, col: Collector)
    requires CountersAgree(collectors, m) && LeastAmong(collectors, collectors.Keys, job, col)
    ensures m.nodes != map[] && Weights(m, job) != map[] && col.name == Least(Weights(m, job))
  {
    CountersAgreeNames(collectors, m);
    hide CountersAgree;
    var w := Weights(m, job);
    assert w.Keys == m.nodes.Keys && col.name in w;
    forall d | d in collectors
      ensures w[d] == Weight(collectors[d].numTargets, PerJob(collectors[d].targetsPerJob, job))
    {
      CountersAgreeAt(collectors, m, d, job);
    }
    assert IsLeast(w, col.name);
    LeastUnique(w, col.name, Least(w));
  }

  lemma FirstLeast(collectors: Collectors, job: string, v: Collector)
    requires v.name in collectors && collectors[v.name] == v
    ensures LeastAmong(collectors, {v.name}, job, v)
  {
  }

  method LeastWeightedGet(collectors: Collectors, item: Item, ghost m: Cluster, ghost t: Target) returns (r: Outcome)
    requires CountersAgree(collectors, m) && t == item.View()
    ensures Answers(r, ChooseBasic(LeastWeighted, m, t), collectors)
    ensures item.collectorName != "" && item.collectorName in collectors ==> r == Found(collectors[item.collectorName])
    ensures item.collectorName == "" || item.collectorName !in collectors ==>
      r.Found? && (r.collector == null <==> collectors == map[])
    ensures (item.collectorName == "" || item.collectorName !in collectors) && collectors != map[] ==>
      forall d :: d in collectors ==>
        var col: Collector := r.collector;
        && col.numTargets <= collectors[d].numTargets
        && (col.numTargets == collectors[d].numTargets ==>
              PerJob(col.targetsPerJob, item.jobName) <= PerJob(collectors[d].targetsPerJob, item.jobName))
        && (col.numTargets == collectors[d].numTargets
            && PerJob(col.targetsPerJob, item.jobName) == PerJob(collectors[d].targetsPerJob, item.jobName) ==>
              col.name == d || Less(col.name, d))
  {
    CountersAgreeNames(collectors, m);
    assert KeyedByName(collectors);
    if item.collectorName != "" {
      if item.collectorName in collectors {
        return Found(collectors[item.collectorName]);
      }
    }
    var col := LeastOf(collectors, item.jobName);
    if col != null {
      LeastFound(collectors, m, item.jobName, col);
    } else {
      assert m.nodes == map[];
    }
    return Found(col);
  }

  /** The loop over the collectors, which keeps the best one so far. */
  method LeastOf(collectors: Collectors, jobName: string) returns (col: Collector?)
    requires KeyedByName(collectors)
    ensures col == null <==> collectors == map[]
    ensures col != null ==> LeastAmong(collectors, collectors.Keys, jobName, col)
    ensures col != null ==> col.name in collectors && collectors[col.name] == col
    ensures col != null ==> forall d :: d in collectors ==>
      && col.numTargets <= collectors[d].numTargets
      && (col.numTargets == collectors[d].numTargets ==>
            PerJob(col.targetsPerJob, jobName) <= PerJob(collectors[d].targetsPerJob, jobName))
      && (col.numTargets == collectors[d].numTargets
          && PerJob(col.targetsPerJob, jobName) == PerJob(collectors[d].targetsPerJob, jobName) ==>
            col.name == d || Less(col.name, d))
  {
    hide LeastAmong, PerJob, Less;
    col := null;
    var pending := collectors.Keys;
    while pending != {}
      invariant pending <= collectors.Keys
      invariant col == null <==> pending == collectors.Keys
      invariant col != null ==> LeastAmong(collectors, collectors.Keys - pending, jobName, col)
      decreases pending
    {
      var key :| key in pending;
      var v := collectors[key];
      ghost var seen := collectors.Keys - pending;
      assert collectors.Keys - (pending - {key}) == seen + {key};
      if col == null || v.numTargets < col.numTargets {
        if col != null {
          NewLeast(collectors, seen, jobName, col, v);
        } else {
          FirstLeast(collectors, jobName, v);
          assert seen + {key} == {key};
        }
        col := v;
      } else if v.numTargets == col.numTargets {
        var vPerJob := PerJob(v.targetsPerJob, jobName);
        var colPerJob := PerJob(col.targetsPerJob, jobName);
        if vPerJob < colPerJob || (vPerJob == colPerJob && Less(v.name, col.name)) {
          NewLeast(collectors, seen, jobName, col, v);
          col := v;
        } else {
          StillLeast(collectors, seen, jobName, col, v);
        }
      } else {
        StillLeast(collectors, seen, jobName, col, v);
      }
      pending := pending - {key};
    }
    assert collectors.Keys - pending == collectors.Keys;
    if col != null {
      LeastAmongPlainly(collectors, jobName, col);
    }
  }

  lemma StillLeast(collectors: Collectors, seen: set<string>, job: string, col: Collector, v: Collector)
    requires LeastAmong(collectors, seen, job, col)
    requires v.name in collectors && collectors[v.name] == v && v.name !in seen
    requires !Preferred(v.name, Weight(v.numTargets, PerJob(v.targetsPerJob, job)),
                        col.name, Weight(col.numTargets, PerJob(col.targetsPerJob, job)))
    ensures LeastAmong(collectors, seen + {v.name}, job, col)
  {
    LessTrichotomy(v.name, col.name);
  }

  lemma NewLeast(collectors: Collectors, seen: set<string>, job: string, col: Collector, v: Collector)
    requires KeyedByName(collectors) && LeastAmong(collectors, seen, job, col)
    requires v.name in collectors && collectors[v.name] == v
    requires Preferred(v.name, Weight(v.numTargets, PerJob(v.targetsPerJob, job)),
                       col.name, Weight(col.numTargets, PerJob(col.targetsPerJob, job)))
    ensures LeastAmong(collectors, seen + {v.name}, job, v)
  {
    var w := map d | d in collectors :: Weight(collectors[d].numTargets, PerJob(collectors[d].targetsPerJob, job));
    forall d | d in seen && d != v.name ensures Preferred(v.name, w[v.name], d, w[d]) {
      if d != col.name {
        PreferredTransitive(v.name, w[v.name], col.name, w[col.name], d, w[d]);
      }
    }
  }

  /******* Consistent hashing *******/

  class ConsistentHashingStrategy {
    const locate: Locate
    var ring: set<string>

    constructor (locate: Locate)
      ensures this.locate == locate && ring == {}
    {
      this.locate, ring := locate, {};
    }

    ghost function View(): Basic
      reads this`ring
    {
      ConsistentHashing(locate, ring)
    }

    /** Asking an empty ring crashes: the library answers a nil member. */
    method GetCollectorForTarget(collectors: Collectors, item: Item, ghost b: Basic, ghost m: Cluster, ghost t: Target)
      returns (r: Outcome)
      requires b == View() && t == item.View()
      requires CountersAgree(collectors, m) && ring != {}
      ensures Answers(r, ChooseBasic(b, m, t), collectors)
      ensures r == if locate(ring, item.targetURL) in collectors then Found(collectors[locate(ring, item.targetURL)])
                   else Failed
    {
      CountersAgreeNames(collectors, m);
      var collectorName := locate(ring, item.targetURL);
      if collectorName !in collectors {
        return Failed;
      }
      return Found(collectors[collectorName]);
    }

    /** A new ring is built from all collectors, of which the library only sees the names. */
    method SetCollectors(collectors: Collectors)
      requires KeyedByName(collectors)
      modifies this`ring
      ensures ring == collectors.Keys
    {
      var members: seq<string> := [];
      var pending := collectors.Keys;
      while pending != {}
        invariant pending <= collectors.Keys
        invariant forall c :: c in members <==> c in collectors.Keys - pending
        decreases pending
      {
        var key :| key in pending;
        pending := pending - {key};
        members := members + [collectors[key].name];
      }
      ring := set c | c in members;
    }
  }

  /******* Strategies that may serve as a fallback *******/

  datatype BasicStrategy = LeastWeightedStrategy | Hashing(hashing: ConsistentHashingStrategy) {

    ghost function View(): Basic
      reads Rings()`ring
    {
      match this
      case LeastWeightedStrategy => LeastWeighted
      case Hashing(h) => h.View()
    }

    ghost function Rings(): set<ConsistentHashingStrategy> {
      if Hashing? then {hashing} else {}
    }

    method GetCollectorForTarget(collectors: Collectors, item: Item, ghost b: Basic, ghost m: Cluster, ghost t: Target)
      returns (r: Outcome)
      requires b == View() && t == item.View()
      requires CountersAgree(collectors, m) && BasicSynced(b, m.nodes) && collectors != map[]
      ensures Answers(r, ChooseBasic(b, m, t), collectors)
    {
      CountersAgreeNames(collectors, m);
      hide CountersAgree, ChooseBasic, Answers;
      match this
      case LeastWeightedStrategy => r := LeastWeightedGet(collectors, item, m, t);
      case Hashing(h) => r := h.GetCollectorForTarget(collectors, item, b, m, t);
    }

    method SetCollectors(collectors: Collectors, ghost nodes: map<string, string>)
      requires KeyedByName(collectors) && nodes.Keys == collectors.Keys
      modifies Rings()`ring
      ensures BasicResync(old(View()), View(), nodes)
      ensures Hashing? ==> hashing.ring == collectors.Keys
    {
      match this
      case LeastWeightedStrategy =>
      case Hashing(h) => h.SetCollectors(collectors);
    }
  }

  /******* Per node *******/

  /** For each node of the collectors `seen` one collector on it. */
  ghost predicate AnyTable(table: map<string, Collector>, collectors: Collectors, seen: set<string>)
    requires seen <= collectors.Keys
  {
    && (forall n :: n in table ==>
          n != "" && table[n].nodeName == n && table[n].name in collectors && collectors[table[n].name] == table[n])
    && (forall c :: c in seen && collectors[c].nodeName != "" ==> collectors[c].nodeName in table)
  }

  lemma TableIsNodeTable(table: map<string, Collector>, collectors: Collectors)
    requires AnyTable(table, collectors, collectors.Keys)
    ensures IsNodeTable(map n | n in table :: table[n].name, Nodes(collectors))
    ensures forall n :: n in table ==>
      n != "" && table[n].nodeName == n && table[n].name in collectors && collectors[table[n].name] == table[n]
    ensures forall c :: c in collectors && collectors[c].nodeName != "" ==> collectors[c].nodeName in table
  {
  }

  class PerNodeStrategy {
    var collectorByNode: map<string, Collector>
    const fallback: Option<BasicStrategy>

    constructor (fallback: Option<BasicStrategy>)
      ensures this.fallback == fallback && collectorByNode == map[]
    {
      this.fallback, collectorByNode := fallback, map[];
    }

    ghost function Rings(): set<ConsistentHashingStrategy> {
      if fallback.Some? then fallback.value.Rings() else {}
    }

    ghost function View(): Strategy
      reads this`collectorByNode, Rings()`ring
    {
      PerNode(map n | n in collectorByNode :: collectorByNode[n].name,
              if fallback.Some? then Fallback(fallback.value.View()) else NoFallback)
    }

    method GetCollectorForTarget(collectors: Collectors, item: Item, ghost s: Strategy, ghost m: Cluster,
                                 ghost t: Target)
      returns (r: Outcome)
      requires s == View() && t == item.View()
      requires CountersAgree(collectors, m) && Synced(s, m.nodes) && collectors != map[]
      ensures Answers(r, Choose(s, m, t), collectors)
      ensures item.nodeName != "" || fallback.None? ==>
        r == if item.nodeName !in collectorByNode then Failed
             else if collectorByNode[item.nodeName].name in collectors
             then Found(collectors[collectorByNode[item.nodeName].name]) else Found(null)
    {
      CountersAgreeNames(collectors, m);
      hide CountersAgree, ChooseBasic, IsNodeTable, BasicSynced;
      var targetNodeName := item.nodeName;
      if targetNodeName == "" && fallback.Some? {
        r := fallback.value.GetCollectorForTarget(collectors, item, s.fallback.basic, m, t);
        return;
      }
      if targetNodeName !in collectorByNode {
        return Failed;
      }
      var collector := collectorByNode[targetNodeName];
      if collector.name in collectors {
        return Found(collectors[collector.name]);
      }
      return Found(null);
    }

    method SetCollectors(collectors: Collectors, ghost nodes: map<string, string>)
      requires KeyedByName(collectors) && Nodes(collectors) == nodes
      modifies this`collectorByNode, Rings()`ring
      ensures Resync(old(View()), View(), nodes)
      ensures forall n :: n in collectorByNode ==>
        && n != "" && collectorByNode[n].nodeName == n && collectorByNode[n].name in collectors
        && collectors[collectorByNode[n].name] == collectorByNode[n]
      ensures forall c :: c in collectors && collectors[c].nodeName != "" ==> collectors[c].nodeName in collectorByNode
      ensures fallback.Some? && fallback.value.Hashing? ==> fallback.value.hashing.ring == collectors.Keys
    {
      hide AnyTable;
      RefillTable(collectors);
      if fallback.Some? {
        fallback.value.SetCollectors(collectors, nodes);
      }
      TableIsNodeTable(collectorByNode, collectors);
    }

    /** Clear the table and fill it again, in any order of the collectors. */
    method RefillTable(collectors: Collectors)
      requires KeyedByName(collectors)
      modifies this`collectorByNode
      ensures AnyTable(collectorByNode, collectors, collectors.Keys)
    {
      collectorByNode := map[];
      var pending := collectors.Keys;
      while pending != {}
        invariant pending <= collectors.Keys
        invariant AnyTable(collectorByNode, collectors, collectors.Keys - pending)
        decreases pending
      {
        var key :| key in pending;
        assert collectors.Keys - (pending - {key}) == collectors.Keys - pending + {key};
        pending := pending - {key};
        if collectors[key].nodeName != "" {
          collectorByNode := collectorByNode[collectors[key].nodeName := collectors[key]];
        }
      }
      assert collectors.Keys - pending == collectors.Keys;
    }
  }

  /******* Any strategy *******/

  datatype AnyStrategy = DirectStrategy(basic: BasicStrategy) | ByNode(perNode: PerNodeStrategy) {

    ghost function Rings(): set<ConsistentHashingStrategy> {
      match this
      case DirectStrategy(b) => b.Rings()
      case ByNode(p) => p.Rings()
    }

    ghost function Tables(): set<PerNodeStrategy> {
      if ByNode? then {perNode} else {}
    }

    ghost function View(): Strategy
      reads Tables()`collectorByNode, Rings()`ring
    {
      match this
      case DirectStrategy(b) => Direct(b.View())
      case ByNode(p) => p.View()
    }

    method GetCollectorForTarget(collectors: Collectors, item: Item, ghost s: Strategy, ghost m: Cluster,
                                 ghost t: Target)
      returns (r: Outcome)
      requires s == View() && t == item.View()
      requires CountersAgree(collectors, m) && Synced(s, m.nodes) && collectors != map[]
      ensures Answers(r, Choose(s, m, t), collectors)
    {
      hide CountersAgree, ChooseBasic, Answers, IsNodeTable, BasicSynced;
      match this
      case DirectStrategy(b) => r := b.GetCollectorForTarget(collectors, item, s.basic, m, t);
      case ByNode(p) => r := p.GetCollectorForTarget(collectors, item, s, m, t);
    }

    method SetCollectors(collectors: Collectors, ghost nodes: map<string, string>)
      requires KeyedByName(collectors) && Nodes(collectors) == nodes
      modifies Tables()`collectorByNode, Rings()`ring
      ensures Resync(old(View()), View(), nodes)
    {
      match this
      case DirectStrategy(b) => b.SetCollectors(collectors, nodes);
      case ByNode(p) => p.SetCollectors(collectors, nodes);
    }
  }
}
