/** The simple model of target allocation that the incremental allocator is proved against.

    A `Cluster` is only the live collectors (name to recorded node) and the tracked targets, each
    with the name of its owner. Loads are what a scan over all targets counts; there are no
    counters and no index here. */
module Placement {
  import opened GoStrings
  import opened GoMaps

  type Hash = nat

  /** A tracked scrape target; `owner` is "" when no collector scrapes it. */
  datatype Target = Target(job: string, url: string, node: string, owner: string)

  datatype Cluster = Cluster(nodes: map<string, string>, items: map<Hash, Target>)

  /******* Scans *******/

  ghost function Owned(m: Cluster, c: string): set<Hash> {
    set h | h in m.items && m.items[h].owner == c
  }

  ghost function OwnedInJob(m: Cluster, c: string, job: string): set<Hash> {
    set h | h in m.items && m.items[h].owner == c && m.items[h].job == job
  }

  ghost function Load(m: Cluster, c: string): nat {
    |Owned(m, c)|
  }

  ghost function JobLoad(m: Cluster, c: string, job: string): nat {
    |OwnedInJob(m, c, job)|
  }

  /******* The least loaded collector *******/

  /** What the least-weighted rule compares: total load and load of the target's own job. */
  datatype Weight = Weight(total: int, perJob: int)

  /** Collector `a` with weight `wa` is preferred to collector `b` with weight `wb`. */
  predicate Preferred(a: string, wa: Weight, b: string, wb: Weight) {
    || wa.total < wb.total
    || (wa.total == wb.total && wa.perJob < wb.perJob)
    || (wa.total == wb.total && wa.perJob == wb.perJob && Less(a, b))
  }

  /** `c` is preferred to every other collector. */
  ghost predicate IsLeast(w: map<string, Weight>, c: string) {
    c in w && forall d :: d in w && d != c ==> Preferred(c, w[c], d, w[d])
  }

  lemma LeastUnique(w: map<string, Weight>, a: string, b: string)
    requires IsLeast(w, a) && IsLeast(w, b)
    ensures a == b
  {
    LessTrichotomy(a, b);
  }

  lemma PreferredTransitive(a: string, wa: Weight, b: string, wb: Weight, c: string, wc: Weight)
    requires Preferred(a, wa, b, wb) && Preferred(b, wb, c, wc)
    ensures Preferred(a, wa, c, wc)
  {
    if Less(a, b) && Less(b, c) {
      LessTransitive(a, b, c);
    }
  }

  lemma {:induction false} LeastExists(w: map<string, Weight>)
    requires w != map[]
    ensures exists c :: IsLeast(w, c)
    decreases |w|
  {
    var c :| c in w;
    var rest := w - {c};
    if rest == map[] {
      forall d | d in w ensures d == c {
        assert d != c ==> d in rest;
      }
      assert IsLeast(w, c);
    } else {
      assert rest.Keys == w.Keys - {c};
      LeastExists(rest);
      var d :| IsLeast(rest, d);
      LessTrichotomy(c, d);
      if Preferred(c, w[c], d, w[d]) {
        forall e | e in w && e != c ensures Preferred(c, w[c], e, w[e]) {
          if e != d {
            assert e in rest;
            PreferredTransitive(c, w[c], d, w[d], e, w[e]);
          }
        }
        assert IsLeast(w, c);
      } else {
        forall e | e in w && e != d ensures Preferred(d, w[d], e, w[e]) {
          if e != c {
            assert e in rest;
          }
        }
        assert IsLeast(w, d);
      }
    }
  }

  ghost function Weights(m: Cluster, job: string): map<string, Weight> {
    map c | c in m.nodes :: Weight(Load(m, c), JobLoad(m, c, job))
  }

  ghost function Least(w: map<string, Weight>): (c: string)
    requires w != map[]
    ensures IsLeast(w, c)
  {
    LeastExists(w);
    var c :| IsLeast(w, c);
    c
  }

  /** Spelled out: no collector has fewer targets; of those with as few, none has fewer of the job; and of
      those with as few of both, none has a smaller name. */
  lemma LeastPlainly(m: Cluster, job: string, c: string)
    requires m.nodes != map[] && Weights(m, job) != map[] && c == Least(Weights(m, job))
    ensures c in m.nodes && forall d :: d in m.nodes ==>
      && Load(m, c) <= Load(m, d)
      && (Load(m, c) == Load(m, d) ==> JobLoad(m, c, job) <= JobLoad(m, d, job))
      && (Load(m, c) == Load(m, d) && JobLoad(m, c, job) == JobLoad(m, d, job) ==> c == d || Less(c, d))
  {
    var w := Weights(m, job);
    hide Load, JobLoad, Less;
    assert c in w;
    forall d | d in m.nodes
      ensures Load(m, c) <= Load(m, d)
      ensures Load(m, c) == Load(m, d) ==> JobLoad(m, c, job) <= JobLoad(m, d, job)
      ensures Load(m, c) == Load(m, d) && JobLoad(m, c, job) == JobLoad(m, d, job) ==> c == d || Less(c, d)
    {
      assert w[d] == Weight(Load(m, d), JobLoad(m, d, job)) && w[c] == Weight(Load(m, c), JobLoad(m, c, job));
    }
  }

  /******* Strategies *******/

  /** The consistent-hashing library: from a member set and a key to a member. */
  type Locate = (set<string>, string) -> string

  ghost predicate IsLocate(f: Locate) {
    forall members: set<string>, key: string :: members != {} ==> f(members, key) in members
  }

  datatype Basic =
    | LeastWeighted
    | ConsistentHashing(locate: Locate, ring: set<string>)

  datatype Fallback = NoFallback | Fallback(basic: Basic)

  /** A strategy with its own state: the hash ring, or the node table and an optional fallback. */
  datatype Strategy =
    | Direct(basic: Basic)
    | PerNode(byNode: map<string, string>, fallback: Fallback)

  /** What a strategy answers. `NilCollector` is a nil collector returned without an error, on
      which the allocator would crash. */
  datatype Choice = Chosen(name: string) | Refused | NilCollector

  ghost function ChooseBasic(b: Basic, m: Cluster, t: Target): Choice {
    match b
    case LeastWeighted =>
      if t.owner != "" && t.owner in m.nodes then Chosen(t.owner)
      else if m.nodes == map[] then NilCollector
      else
        assert m.nodes.Keys == Weights(m, t.job).Keys;
        Chosen(Least(Weights(m, t.job)))
    case ConsistentHashing(locate, ring) =>
      if ring == {} then NilCollector
      else if locate(ring, t.url) in m.nodes then Chosen(locate(ring, t.url))
      else Refused
  }

  ghost function Choose(s: Strategy, m: Cluster, t: Target): Choice {
    match s
    case Direct(b) => ChooseBasic(b, m, t)
    case PerNode(byNode, fallback) =>
      if t.node == "" && fallback.Fallback? then ChooseBasic(fallback.basic, m, t)
      else if t.node !in byNode then Refused
      else if byNode[t.node] in m.nodes then Chosen(byNode[t.node])
      else NilCollector
  }

  /** The least-weighted rule, spelled out: a live owner stays; an orphan goes to a collector with the fewest
      targets, of those to one with the fewest of the job, of those to the one with the smallest name. */
  lemma ChoicePlainly(m: Cluster, t: Target)
    requires m.nodes != map[] && "" !in m.nodes
    ensures var choice := ChooseBasic(LeastWeighted, m, t);
      && choice.Chosen? && choice.name in m.nodes
      && (t.owner in m.nodes ==> choice.name == t.owner)
      && (t.owner !in m.nodes ==> forall d :: d in m.nodes ==>
            var c := choice.name;
            && Load(m, c) <= Load(m, d)
            && (Load(m, c) == Load(m, d) ==> JobLoad(m, c, t.job) <= JobLoad(m, d, t.job))
            && (Load(m, c) == Load(m, d) && JobLoad(m, c, t.job) == JobLoad(m, d, t.job) ==> c == d || Less(c, d)))
  {
    hide Load, JobLoad, Less;
    assert m.nodes.Keys == Weights(m, t.job).Keys;
    if t.owner !in m.nodes {
      LeastPlainly(m, t.job, Least(Weights(m, t.job)));
    }
  }

  /** The strategy's `SetCollectors`: least-weighted keeps nothing, consistent hashing rebuilds its
      ring from the names, per-node keeps for each node one collector recorded there. Which one is
      left open, since it depends on Go's map order. */
  ghost predicate BasicResync(b: Basic, b': Basic, nodes: map<string, string>) {
    match b
    case LeastWeighted => b' == b
    case ConsistentHashing(locate, _) => b' == ConsistentHashing(locate, nodes.Keys)
  }

  ghost predicate IsNodeTable(byNode: map<string, string>, nodes: map<string, string>) {
    && (forall n :: n in byNode ==> n != "" && byNode[n] in nodes && nodes[byNode[n]] == n)
    && (forall c :: c in nodes && nodes[c] != "" ==> nodes[c] in byNode)
  }

  ghost predicate Resync(s: Strategy, s': Strategy, nodes: map<string, string>) {
    match s
    case Direct(b) => s'.Direct? && BasicResync(b, s'.basic, nodes)
    case PerNode(_, fallback) =>
      && s'.PerNode?
      && IsNodeTable(s'.byNode, nodes)
      && (fallback.NoFallback? ==> s'.fallback.NoFallback?)
      && (fallback.Fallback? ==> s'.fallback.Fallback? && BasicResync(fallback.basic, s'.fallback.basic, nodes))
  }

  /** The strategy's state matches the live collectors. */
  ghost predicate Synced(s: Strategy, nodes: map<string, string>) {
    match s
    case Direct(b) => BasicSynced(b, nodes)
    case PerNode(byNode, fallback) =>
      && IsNodeTable(byNode, nodes)
      && (fallback.Fallback? ==> BasicSynced(fallback.basic, nodes))
  }

  ghost predicate BasicSynced(b: Basic, nodes: map<string, string>) {
    b.ConsistentHashing? ==> IsLocate(b.locate) && b.ring == nodes.Keys
  }

  /******* Steps *******/

  ghost function WithOwner(m: Cluster, h: Hash, c: string): Cluster
    requires h in m.items
  {
    m.(items := m.items[h := m.items[h].(owner := c)])
  }

  /** Ask the strategy for an owner of the tracked target `h`; a refusal leaves it unassigned, and
      without collectors nothing is asked. */
  ghost function Place(s: Strategy, m: Cluster, h: Hash): Cluster
    requires h in m.items
  {
    if m.nodes == map[] then m
    else
      var choice := Choose(s, m, m.items[h]);
      WithOwner(m, h, if choice.Chosen? then choice.name else "")
  }

  /** Track a new target, without an owner, and place it. */
  ghost function Add(s: Strategy, m: Cluster, h: Hash, t: Target): Cluster {
    Place(s, m.(items := m.items[h := t.(owner := "")]), h)
  }

  /** Visit `order` from left to right, adding each target. */
  ghost function AddAll(s: Strategy, m: Cluster, targets: map<Hash, Target>, order: seq<Hash>): (m': Cluster)
    requires forall h :: h in order ==> h in targets
  {
    if order == [] then m
    else
      var n := |order| - 1;
      Add(s, AddAll(s, m, targets, order[..n]), order[n], targets[order[n]])
  }

  /** Visit `order` from left to right, placing each target again. */
  ghost function PlaceAll(s: Strategy, m: Cluster, order: seq<Hash>): (m': Cluster)
    requires forall h :: h in order ==> h in m.items
    ensures m'.nodes == m.nodes && m'.items.Keys == m.items.Keys
  {
    if order == [] then m
    else
      var n := |order| - 1;
      Place(s, PlaceAll(s, m, order[..n]), order[n])
  }

  /** Forget the targets that are not in `keep`. */
  ghost function Forget(m: Cluster, keep: set<Hash>): Cluster {
    m.(items := map h | h in m.items && h in keep :: m.items[h])
  }

  /** Take over the collectors `nodes`: a name already live keeps its recorded node, and the
      targets of a collector that is gone lose their owner. */
  ghost function Replace(m: Cluster, nodes: map<string, string>): Cluster {
    Cluster(
      map c | c in nodes :: if c in m.nodes then m.nodes[c] else nodes[c],
      map h | h in m.items :: if m.items[h].owner in nodes then m.items[h] else m.items[h].(owner := ""))
  }

  /** One call of `SetTargets`. */
  ghost predicate TargetsStep(s: Strategy, m: Cluster, targets: map<Hash, Target>, m': Cluster) {
    exists order :: TargetsStepBy(s, m, targets, m', order)
  }

  ghost predicate TargetsStepBy(s: Strategy, m: Cluster, targets: map<Hash, Target>, m': Cluster, order: seq<Hash>) {
    && Visits(order, targets.Keys - m.items.Keys)
    && m' == AddAll(s, Forget(m, targets.Keys), targets, order)
  }

  /** One call of `SetCollectors`. With the same names as before nothing happens at all, not even
      to the recorded nodes. */
  ghost predicate CollectorsStep(s: Strategy, m: Cluster, nodes: map<string, string>, s': Strategy, m': Cluster) {
    if nodes.Keys == m.nodes.Keys then s' == s && m' == m
    else Resync(s, s', Replace(m, nodes).nodes) && exists order :: CollectorsStepBy(s', m, nodes, m', order)
  }

  ghost predicate CollectorsStepBy(s': Strategy, m: Cluster, nodes: map<string, string>, m': Cluster,
                                   order: seq<Hash>) {
    && Visits(order, m.items.Keys)
    && m' == PlaceAll(s', Replace(m, nodes), order)
  }

  /******* What every step keeps *******/

  /** Where a target must be, given the live collectors. */
  ghost predicate SettledBasic(b: Basic, nodes: map<string, string>, t: Target) {
    if nodes == map[] then t.owner == ""
    else match b
      case LeastWeighted => t.owner in nodes
      case ConsistentHashing(locate, _) => t.owner == locate(nodes.Keys, t.url)
  }

  ghost predicate HasCollectorOn(nodes: map<string, string>, node: string) {
    exists c :: c in nodes && nodes[c] == node
  }

  ghost predicate Settled(s: Strategy, nodes: map<string, string>, t: Target) {
    match s
    case Direct(b) => SettledBasic(b, nodes, t)
    case PerNode(_, fallback) =>
      if t.node == "" then
        if fallback.Fallback? then SettledBasic(fallback.basic, nodes, t) else t.owner == ""
      else if HasCollectorOn(nodes, t.node) then t.owner in nodes && nodes[t.owner] == t.node
      else t.owner == ""
  }

  /** The invariant of the simple model. */
  ghost predicate Inv(s: Strategy, m: Cluster) {
    && "" !in m.nodes
    && Synced(s, m.nodes)
    && (forall h :: h in m.items ==> Settled(s, m.nodes, m.items[h]))
  }

  /** A settled target has no owner or a live one. */
  lemma SettledOwner(s: Strategy, nodes: map<string, string>, t: Target)
    requires "" !in nodes && Synced(s, nodes) && Settled(s, nodes, t)
    ensures t.owner == "" || t.owner in nodes
  {
  }

  /** The owner, if any, is live and one the strategy could have chosen. Weaker than `Settled`: it
      survives a change of collectors, before targets are placed again. */
  ghost predicate Rooted(s: Strategy, nodes: map<string, string>, t: Target) {
    t.owner == "" || (
      && t.owner in nodes
      && (s.PerNode? ==> if t.node == "" then s.fallback.Fallback? else nodes[t.owner] == t.node))
  }

  lemma SettledIsRooted(s: Strategy, nodes: map<string, string>, t: Target)
    requires "" !in nodes && Synced(s, nodes) && Settled(s, nodes, t)
    ensures Rooted(s, nodes, t)
  {
  }

  /** The strategies never answer nil, and refuse only targets without an owner: the allocator's
      error path never strands a counter or an index entry. */
  lemma ChooseIsSafe(s: Strategy, m: Cluster, t: Target)
    requires Synced(s, m.nodes) && m.nodes != map[]
    ensures !Choose(s, m, t).NilCollector?
    ensures Choose(s, m, t).Chosen? ==> Choose(s, m, t).name in m.nodes
    ensures "" !in m.nodes && Rooted(s, m.nodes, t) && Choose(s, m, t).Refused? ==> t.owner == ""
  {
    assert m.nodes.Keys == Weights(m, t.job).Keys;
  }
}
