/** Conservation of targets under any strategy, and what the least-weighted strategy guarantees
    about loads: balance, independence of the visiting order, and stability. */
module Balance {
  import opened GoMaps
  import opened Placement
  import opened Runs

  /******* Conservation *******/

  ghost function Held(m: Cluster, cs: set<string>): set<Hash> {
    set h | h in m.items && m.items[h].owner in cs
  }

  /** The sum of the loads of the collectors `cs`. */
  ghost function TotalLoad(m: Cluster, cs: set<string>): nat {
    if cs == {} then 0
    else
      var c :| c in cs;
      Load(m, c) + TotalLoad(m, cs - {c})
  }

  lemma {:induction false} TotalLoadCounts(m: Cluster, cs: set<string>)
    ensures TotalLoad(m, cs) == |Held(m, cs)|
  {
    if cs == {} {
      assert Held(m, cs) == {};
    } else {
      var c :| c in cs && TotalLoad(m, cs) == Load(m, c) + TotalLoad(m, cs - {c});
      TotalLoadCounts(m, cs - {c});
      HeldSplit(m, cs, c);
    }
  }

  lemma HeldSplit(m: Cluster, cs: set<string>, c: string)
    requires c in cs
    ensures |Held(m, cs)| == Load(m, c) + |Held(m, cs - {c})|
  {
    assert Held(m, cs) == Owned(m, c) + Held(m, cs - {c});
    assert Owned(m, c) !! Held(m, cs - {c});
  }

  /** No target is counted twice or lost: the loads of the live collectors and the unassigned
      targets add up to the number of tracked targets. */
  lemma Conservation(s: Strategy, m: Cluster)
    requires Inv(s, m)
    ensures TotalLoad(m, m.nodes.Keys) + |Owned(m, "")| == |m.items|
  {
    InvOwnersLive(s, m);
    OwnersLiveConserve(m);
  }

  lemma InvOwnersLive(s: Strategy, m: Cluster)
    requires Inv(s, m)
    ensures OwnersLive(m)
  {
    forall h | h in m.items ensures m.items[h].owner == "" || m.items[h].owner in m.nodes {
      SettledOwner(s, m.nodes, m.items[h]);
    }
  }

  lemma OwnersLiveConserve(m: Cluster)
    requires OwnersLive(m) && "" !in m.nodes
    ensures TotalLoad(m, m.nodes.Keys) + |Owned(m, "")| == |m.items|
  {
    TotalLoadCounts(m, m.nodes.Keys);
    assert m.items.Keys == Held(m, m.nodes.Keys) + Owned(m, "");
    assert Held(m, m.nodes.Keys) !! Owned(m, "");
    assert |m.items| == |m.items.Keys|;
  }

  /******* One least-weighted placement *******/

  const LEAST_WEIGHTED: Strategy := Direct(LeastWeighted)

  /** Handing an orphan to `c` changes no other load. */
  lemma LoadsAfter(m: Cluster, h: Hash, c: string)
    requires h in m.items && m.items[h].owner !in m.nodes && c in m.nodes
    ensures Load(WithOwner(m, h, c), c) == Load(m, c) + 1
    ensures forall d :: d in m.nodes && d != c ==> Load(WithOwner(m, h, c), d) == Load(m, d)
  {
    var m' := WithOwner(m, h, c);
    assert Owned(m', c) == Owned(m, c) + {h};
    forall d | d in m.nodes && d != c ensures Load(m', d) == Load(m, d) {
      assert Owned(m', d) == Owned(m, d);
    }
  }

  lemma LeastIsLowest(m: Cluster, job: string, c: string)
    requires m.nodes != map[] && Weights(m, job) != map[] && c == Least(Weights(m, job))
    ensures c in m.nodes && forall d :: d in m.nodes ==> Load(m, c) <= Load(m, d)
  {
    var w := Weights(m, job);
    assert w.Keys == m.nodes.Keys;
    hide Load, JobLoad;
    forall d | d in m.nodes ensures Load(m, c) <= Load(m, d) {
      assert w[d] == Weight(Load(m, d), JobLoad(m, d, job)) && w[c] == Weight(Load(m, c), JobLoad(m, c, job));
    }
  }

  /** A target with a live owner stays; any other goes to a collector with the smallest load, whose
      load grows by one while all others keep theirs. */
  lemma PlaceLeast(m: Cluster, h: Hash) returns (c: string)
    requires h in m.items && m.nodes != map[] && "" !in m.nodes && m.items[h].owner !in m.nodes
    ensures c in m.nodes && forall d :: d in m.nodes ==> Load(m, c) <= Load(m, d)
    ensures Place(LEAST_WEIGHTED, m, h) == WithOwner(m, h, c)
    ensures Load(WithOwner(m, h, c), c) == Load(m, c) + 1
    ensures forall d :: d in m.nodes && d != c ==> Load(WithOwner(m, h, c), d) == Load(m, d)
  {
    hide Load, JobLoad, WithOwner;
    var w := Weights(m, m.items[h].job);
    assert w.Keys == m.nodes.Keys;
    c := Least(w);
    LeastIsLowest(m, m.items[h].job, c);
    LoadsAfter(m, h, c);
  }

  /** Whether a strategy asks least-weighted about a target: itself always, per-node as its fallback for
      targets without a node. */
  ghost predicate AsksLeastWeighted(s: Strategy, node: string) {
    match s
    case Direct(b) => b == LeastWeighted
    case PerNode(_, fallback) => node == "" && fallback == Fallback(LeastWeighted)
  }

  lemma PlaceSticky(s: Strategy, m: Cluster, h: Hash)
    requires h in m.items && "" !in m.nodes && m.items[h].owner in m.nodes && AsksLeastWeighted(s, m.items[h].node)
    ensures Place(s, m, h) == m
  {
    var t := m.items[h];
    assert t.(owner := t.owner) == t;
    assert m.items[h := t] == m.items;
  }

  /******* Balance *******/

  /** Among the collectors `cs` the largest load exceeds the smallest by at most `d`. */
  ghost predicate Balanced(m: Cluster, cs: set<string>, d: int) {
    forall a, b :: a in cs && b in cs ==> Load(m, a) <= Load(m, b) + d
  }

  ghost function AtLeastOne(d: nat): nat {
    if d < 1 then 1 else d
  }

  lemma PlaceKeepsBalance(m: Cluster, h: Hash, d: nat)
    requires h in m.items && "" !in m.nodes && d >= 1 && Balanced(m, m.nodes.Keys, d)
    ensures Balanced(Place(LEAST_WEIGHTED, m, h), m.nodes.Keys, d)
  {
    if m.nodes != map[] {
      if m.items[h].owner in m.nodes {
        PlaceSticky(LEAST_WEIGHTED, m, h);
      } else {
        var c := PlaceLeast(m, h);
      }
    }
  }

  lemma UnownedLoads(m: Cluster, h: Hash, t: Target)
    requires h !in m.items && t.owner == ""
    ensures forall c :: c != "" ==> Load(m.(items := m.items[h := t]), c) == Load(m, c)
  {
    forall c | c != "" ensures Load(m.(items := m.items[h := t]), c) == Load(m, c) {
      assert Owned(m.(items := m.items[h := t]), c) == Owned(m, c);
    }
  }

  lemma AddKeepsBalance(m: Cluster, h: Hash, t: Target, d: nat)
    requires h !in m.items && "" !in m.nodes && d >= 1 && Balanced(m, m.nodes.Keys, d)
    ensures Balanced(Add(LEAST_WEIGHTED, m, h, t), m.nodes.Keys, d)
  {
    UnownedLoads(m, h, t.(owner := ""));
    PlaceKeepsBalance(m.(items := m.items[h := t.(owner := "")]), h, d);
  }

  /** `order` lists new targets, each once. */
  ghost predicate Fresh(m: Cluster, targets: map<Hash, Target>, order: seq<Hash>) {
    && (forall h :: h in order ==> h in targets && h !in m.items)
    && (forall i, j :: 0 <= i < j < |order| ==> order[i] != order[j])
  }

  lemma {:induction false} AddAllShape(s: Strategy, m: Cluster, targets: map<Hash, Target>, order: seq<Hash>)
    requires forall h :: h in order ==> h in targets
    ensures AddAll(s, m, targets, order).nodes == m.nodes
    ensures AddAll(s, m, targets, order).items.Keys == m.items.Keys + (set h | h in order)
  {
    if order != [] {
      var n := |order| - 1;
      AddAllShape(s, m, targets, order[..n]);
      SplitLast(order);
    }
  }

  lemma {:induction false} AddAllKeepsBalance(m: Cluster, targets: map<Hash, Target>, order: seq<Hash>, d: nat)
    requires "" !in m.nodes && d >= 1 && Fresh(m, targets, order) && Balanced(m, m.nodes.Keys, d)
    ensures Balanced(AddAll(LEAST_WEIGHTED, m, targets, order), m.nodes.Keys, d)
  {
    if order != [] {
      var n, h := |order| - 1, order[|order| - 1];
      AddAllKeepsBalance(m, targets, order[..n], d);
      var m1 := AddAll(LEAST_WEIGHTED, m, targets, order[..n]);
      AddAllShape(LEAST_WEIGHTED, m, targets, order[..n]);
      assert h !in m1.items;
      AddKeepsBalance(m1, h, targets[h], d);
    }
  }

  lemma {:induction false} PlaceAllKeepsBalance(m: Cluster, order: seq<Hash>, d: nat)
    requires "" !in m.nodes && d >= 1 && Balanced(m, m.nodes.Keys, d)
    requires forall h :: h in order ==> h in m.items
    ensures Balanced(PlaceAll(LEAST_WEIGHTED, m, order), m.nodes.Keys, d)
  {
    if order != [] {
      var n := |order| - 1;
      PlaceAllKeepsBalance(m, order[..n], d);
      PlaceKeepsBalance(PlaceAll(LEAST_WEIGHTED, m, order[..n]), order[n], d);
    }
  }

  /** A `SetTargets` that only adds leaves a spread of at most the previous one, or one. */
  lemma AdditionsBalance(m: Cluster, targets: map<Hash, Target>, m': Cluster, d: nat)
    requires Inv(LEAST_WEIGHTED, m) && TargetsStep(LEAST_WEIGHTED, m, targets, m')
    requires m.items.Keys <= targets.Keys && Balanced(m, m.nodes.Keys, d)
    ensures Balanced(m', m'.nodes.Keys, AtLeastOne(d))
  {
    var order :| TargetsStepBy(LEAST_WEIGHTED, m, targets, m', order);
    assert Forget(m, targets.Keys) == m;
    AddAllKeepsBalance(m, targets, order, AtLeastOne(d));
    AddAllShape(LEAST_WEIGHTED, m, targets, order);
  }

  /** A `SetCollectors` that only removes leaves a spread of at most that among the survivors, or
      one. The same holds when there were no collectors before. */
  lemma RemovalsBalance(m: Cluster, nodes: map<string, string>, m': Cluster, d: nat)
    requires Inv(LEAST_WEIGHTED, m) && "" !in nodes && CollectorsStep(LEAST_WEIGHTED, m, nodes, LEAST_WEIGHTED, m')
    requires nodes.Keys <= m.nodes.Keys || m.nodes == map[]
    requires Balanced(m, m.nodes.Keys * nodes.Keys, d)
    ensures Balanced(m', nodes.Keys, AtLeastOne(d))
  {
    if nodes.Keys == m.nodes.Keys {
      assert m.nodes.Keys * nodes.Keys == nodes.Keys;
    } else {
      var order :| CollectorsStepBy(LEAST_WEIGHTED, m, nodes, m', order);
      InvOwnersLive(LEAST_WEIGHTED, m);
      ReplaceKeepsBalance(m, nodes, d);
      PlaceAllKeepsBalance(Replace(m, nodes), order, AtLeastOne(d));
    }
  }

  lemma ReplaceKeepsBalance(m: Cluster, nodes: map<string, string>, d: nat)
    requires OwnersLive(m) && "" !in nodes
    requires nodes.Keys <= m.nodes.Keys || m.nodes == map[]
    requires Balanced(m, m.nodes.Keys * nodes.Keys, d)
    ensures Balanced(Replace(m, nodes), Replace(m, nodes).nodes.Keys, d)
  {
    var m1 := Replace(m, nodes);
    assert m1.nodes.Keys == nodes.Keys;
    forall c | c in nodes ensures Owned(m1, c) == Owned(m, c) {
      assert forall h :: h in m.items && m.items[h].owner == c ==> m1.items[h] == m.items[h];
    }
    if m.nodes == map[] {
      forall c | c in nodes ensures Owned(m, c) == {} {
      }
    } else {
      assert m.nodes.Keys * nodes.Keys == nodes.Keys;
    }
  }

  /** A call that cannot unbalance: targets are only added; collectors are only removed, or are the
      first ones. */
  ghost predicate Gentle(m: Cluster, call: Call) {
    match call
    case SetTargets(targets) => m.items.Keys <= targets.Keys
    case SetCollectors(nodes) => nodes.Keys <= m.nodes.Keys || m.nodes == map[]
  }

  ghost predicate GentleRun(trace: seq<Snapshot>, calls: seq<Call>) {
    && IsRun(trace, calls)
    && trace[0].strategy == LEAST_WEIGHTED
    && forall i :: 0 <= i < |calls| ==> Gentle(trace[i].cluster, calls[i])
  }

  lemma {:induction false} GentleRunBalanced(trace: seq<Snapshot>, calls: seq<Call>, k: nat)
    requires GentleRun(trace, calls) && k <= |calls|
    ensures trace[k].strategy == LEAST_WEIGHTED
    ensures Balanced(trace[k].cluster, trace[k].cluster.nodes.Keys, 1)
  {
    if k > 0 {
      GentleRunBalanced(trace, calls, k - 1);
      RunKeepsInvAt(trace, calls, k - 1);
      GentleStepBalanced(trace[k - 1], calls[k - 1], trace[k]);
    }
  }

  lemma GentleStepBalanced(from: Snapshot, call: Call, to: Snapshot)
    requires from.strategy == LEAST_WEIGHTED && Inv(LEAST_WEIGHTED, from.cluster)
    requires Balanced(from.cluster, from.cluster.nodes.Keys, 1)
    requires Step(from, call, to) && Gentle(from.cluster, call)
    ensures to.strategy == LEAST_WEIGHTED && Balanced(to.cluster, to.cluster.nodes.Keys, 1)
  {
    var m, m' := from.cluster, to.cluster;
    match call
    case SetTargets(targets) => AdditionsBalance(m, targets, m', 1);
    case SetCollectors(nodes) =>
      RemovalsBalance(m, nodes, m', 1);
      CollectorsStepCorrect(LEAST_WEIGHTED, m, nodes, LEAST_WEIGHTED, m');
  }

  lemma {:induction false} TotalLoadBounds(m: Cluster, cs: set<string>, lo: nat, hi: nat)
    requires forall c :: c in cs ==> lo <= Load(m, c) <= hi
    ensures |cs| * lo <= TotalLoad(m, cs) <= |cs| * hi
  {
    if cs != {} {
      var c :| c in cs && TotalLoad(m, cs) == Load(m, c) + TotalLoad(m, cs - {c});
      TotalLoadBounds(m, cs - {c}, lo, hi);
      OneMore(|cs - {c}|, |cs|, lo);
      OneMore(|cs - {c}|, |cs|, hi);
    }
  }

  lemma OneMore(k: nat, n: nat, x: nat)
    requires n == k + 1
    ensures n * x == k * x + x
  {
  }

  /** With a spread of at most one, each of k collectors holds the floor or the ceiling of n/k. */
  lemma BalancedMeansFloorOrCeiling(m: Cluster, c: string)
    requires Inv(LEAST_WEIGHTED, m) && c in m.nodes && Balanced(m, m.nodes.Keys, 1)
    ensures var n, k := |m.items|, |m.nodes|;
      Load(m, c) == n / k || (n % k != 0 && Load(m, c) == n / k + 1)
  {
    InvOwnersLive(LEAST_WEIGHTED, m);
    assert m.nodes != map[];
    assert Owned(m, "") == {};
    OwnersLiveConserve(m);
    var cs := m.nodes.Keys;
    assert |cs| == |m.nodes|;
    if exists d :: d in cs && Load(m, d) < Load(m, c) {
      var d :| d in cs && Load(m, d) < Load(m, c);
      FairShare(m, cs, d, c);
    } else {
      FairShare(m, cs, c, c);
    }
  }

  /** The total, seen from one collector. */
  lemma TotalAround(m: Cluster, cs: set<string>, c: string, k: nat, q: nat)
    requires c in cs && k == |cs| - 1 && forall d :: d in cs ==> q <= Load(m, d) <= q + 1
    ensures k * q + Load(m, c) <= TotalLoad(m, cs) <= k * (q + 1) + Load(m, c)
  {
    hide Load, TotalLoad;
    TotalLoadSplit(m, cs, c);
    TotalLoadBounds(m, cs - {c}, q, q + 1);
    assert |cs - {c}| == k;
  }

  /** `least` has the smallest load, so it holds the floor and everyone else that or one more. */
  lemma FairShare(m: Cluster, cs: set<string>, least: string, c: string)
    requires least in cs && c in cs
    requires forall d :: d in cs ==> Load(m, least) <= Load(m, d) <= Load(m, least) + 1
    ensures var n, k := TotalLoad(m, cs), |cs|;
      Load(m, c) == n / k || (n % k != 0 && Load(m, c) == n / k + 1)
  {
    hide Load, TotalLoad;
    var q, k, n := Load(m, least), |cs|, TotalLoad(m, cs);
    TotalAround(m, cs, least, k - 1, q);
    TotalAround(m, cs, c, k - 1, q);
    FloorOrCeiling(n, k, q, Load(m, c));
  }

  lemma FloorOrCeiling(n: nat, k: nat, q: nat, x: nat)
    requires k > 0 && q <= x <= q + 1
    requires (k - 1) * q + x <= n <= (k - 1) * (q + 1) + q
    ensures x == n / k || (n % k != 0 && x == n / k + 1)
  {
    assert (k - 1) * q == k * q - q;
    assert (k - 1) * (q + 1) == k * (q + 1) - (q + 1);
    DivideBetween(n, k, q);
  }

  lemma TotalLoadSplit(m: Cluster, cs: set<string>, c: string)
    requires c in cs
    ensures TotalLoad(m, cs) == Load(m, c) + TotalLoad(m, cs - {c})
  {
    TotalLoadCounts(m, cs);
    TotalLoadCounts(m, cs - {c});
    HeldSplit(m, cs, c);
  }

  lemma DivideBetween(n: nat, k: nat, q: nat)
    requires k > 0 && k * q <= n < k * (q + 1)
    ensures n / k == q && n % k == n - k * q
  {
    assert k * (q + 1) == k * q + k;
    var r := n - k * q;
    assert n == q * k + r;
    assert n / k == q by { DivisionUnique(n, k, n / k, n % k, q, r); }
  }

  lemma DivisionUnique(n: int, k: int, a: int, r: int, b: int, t: int)
    requires k > 0 && n == k * a + r && n == k * b + t && 0 <= r < k && 0 <= t < k
    ensures a == b && r == t
  {
    var e := a - b;
    assert k * a == k * b + k * e;
    assert k * e == t - r;
    assert e >= 1 ==> k * e >= k;
    assert e <= -1 ==> k * e <= -k;
  }

  /** From an empty start, over any run of calls that only add targets and only remove collectors,
      each of the k live collectors holds the floor or the ceiling of n/k of the n targets. */
  lemma GentleRunFair(trace: seq<Snapshot>, calls: seq<Call>, c: string)
    requires GentleRun(trace, calls)
    requires c in Last(trace).cluster.nodes
    ensures var m := Last(trace).cluster; var n, k := |m.items|, |m.nodes|;
      Load(m, c) == n / k || (n % k != 0 && Load(m, c) == n / k + 1)
  {
    GentleRunBalanced(trace, calls, |calls|);
    RunKeepsInv(trace, calls);
    BalancedMeansFloorOrCeiling(Last(trace).cluster, c);
  }

  /******* Independence of the visiting order *******/

  /** The number of collectors with exactly `k` targets. */
  ghost function HowMany(m: Cluster, k: int): nat {
    |WithLoad(m, k)|
  }

  ghost function WithLoad(m: Cluster, k: int): set<string> {
    set c | c in m.nodes && Load(m, c) == k
  }

  /** The loads form the same multiset. */
  ghost predicate SameLoads(a: Cluster, b: Cluster) {
    forall k: int :: HowMany(a, k) == HowMany(b, k)
  }

  ghost function Indicator(b: bool): int {
    if b then 1 else 0
  }

  lemma NodesStay(m: Cluster, h: Hash, c: string)
    requires h in m.items
    ensures WithOwner(m, h, c).nodes == m.nodes
  {
  }

  /** A placement takes one collector with the smallest load `low` and gives it `low + 1`. */
  lemma PlaceHowMany(m: Cluster, h: Hash, c: string, k: int)
    requires h in m.items && c in m.nodes
    requires Load(WithOwner(m, h, c), c) == Load(m, c) + 1
    requires forall d :: d in m.nodes && d != c ==> Load(WithOwner(m, h, c), d) == Load(m, d)
    ensures HowMany(WithOwner(m, h, c), k)
         == HowMany(m, k) - Indicator(k == Load(m, c)) + Indicator(k == Load(m, c) + 1)
  {
    hide Load, WithOwner;
    var m' := WithOwner(m, h, c);
    NodesStay(m, h, c);
    var before, after := WithLoad(m, k), WithLoad(m', k);
    if k == Load(m, c) {
      assert before == after + {c} && c !in after;
    } else if k == Load(m, c) + 1 {
      assert after == before + {c} && c !in before;
    } else {
      assert before == after;
    }
  }

  /** The smallest load is a function of the multiset of loads. */
  lemma SmallestLoadDetermined(a: Cluster, c: string, b: Cluster, d: string)
    requires SameLoads(a, b)
    requires c in a.nodes && forall x :: x in a.nodes ==> Load(a, c) <= Load(a, x)
    requires d in b.nodes && forall x :: x in b.nodes ==> Load(b, d) <= Load(b, x)
    ensures Load(a, c) == Load(b, d)
  {
    SomeWithLoad(a, c, b);
    SomeWithLoad(b, d, a);
  }

  lemma SomeWithLoad(a: Cluster, c: string, b: Cluster)
    requires SameLoads(a, b) && c in a.nodes
    ensures exists x :: x in b.nodes && Load(b, x) == Load(a, c)
  {
    assert c in WithLoad(a, Load(a, c));
    assert HowMany(b, Load(a, c)) == HowMany(a, Load(a, c)) > 0;
    var x :| x in WithLoad(b, Load(a, c));
  }

  /** Two clusters with the same loads keep them when each gives an orphan to someone. */
  lemma PlaceKeepsSameLoads(a: Cluster, g: Hash, b: Cluster, h: Hash)
    requires "" !in a.nodes && "" !in b.nodes && g in a.items && h in b.items
    requires a.items[g].owner !in a.nodes && b.items[h].owner !in b.nodes
    requires a.nodes != map[] && b.nodes != map[] && SameLoads(a, b)
    ensures SameLoads(Place(LEAST_WEIGHTED, a, g), Place(LEAST_WEIGHTED, b, h))
  {
    var c := PlaceLeast(a, g);
    var d := PlaceLeast(b, h);
    SmallestLoadDetermined(a, c, b, d);
    forall k: int ensures HowMany(WithOwner(a, g, c), k) == HowMany(WithOwner(b, h, d), k) {
      PlaceHowMany(a, g, c, k);
      PlaceHowMany(b, h, d, k);
    }
  }

  lemma AddKeepsSameLoads(a: Cluster, g: Hash, t: Target, b: Cluster, h: Hash, u: Target)
    requires "" !in a.nodes && "" !in b.nodes && g !in a.items && h !in b.items
    requires a.nodes != map[] && b.nodes != map[] && SameLoads(a, b)
    ensures SameLoads(Add(LEAST_WEIGHTED, a, g, t), Add(LEAST_WEIGHTED, b, h, u))
  {
    UnownedSameLoads(a, g, t.(owner := ""));
    UnownedSameLoads(b, h, u.(owner := ""));
    PlaceKeepsSameLoads(a.(items := a.items[g := t.(owner := "")]), g, b.(items := b.items[h := u.(owner := "")]), h);
  }

  lemma UnownedSameLoads(m: Cluster, h: Hash, t: Target)
    requires h !in m.items && t.owner == "" && "" !in m.nodes
    ensures SameLoads(m.(items := m.items[h := t]), m)
  {
    UnownedLoads(m, h, t);
    SameLoadsPointwise(m.(items := m.items[h := t]), m);
  }

  lemma SameLoadsPointwise(a: Cluster, b: Cluster)
    requires a.nodes == b.nodes && forall c :: c in a.nodes ==> Load(a, c) == Load(b, c)
    ensures SameLoads(a, b)
  {
    forall k: int ensures HowMany(a, k) == HowMany(b, k) {
      assert WithLoad(a, k) == WithLoad(b, k);
    }
  }

  /** The loads after a batch of additions depend on the loads before and on the number of
      additions only: not on which targets they are nor on the order they are visited in. */
  lemma {:induction false} AdditionsConfluent(a: Cluster, targetsA: map<Hash, Target>, orderA: seq<Hash>,
                                              b: Cluster, targetsB: map<Hash, Target>, orderB: seq<Hash>)
    requires "" !in a.nodes && "" !in b.nodes && a.nodes != map[] && b.nodes != map[] && SameLoads(a, b)
    requires Fresh(a, targetsA, orderA) && Fresh(b, targetsB, orderB) && |orderA| == |orderB|
    ensures SameLoads(AddAll(LEAST_WEIGHTED, a, targetsA, orderA), AddAll(LEAST_WEIGHTED, b, targetsB, orderB))
    decreases |orderA|
  {
    if orderA != [] {
      var n := |orderA| - 1;
      AdditionsConfluent(a, targetsA, orderA[..n], b, targetsB, orderB[..n]);
      AddAllShape(LEAST_WEIGHTED, a, targetsA, orderA[..n]);
      AddAllShape(LEAST_WEIGHTED, b, targetsB, orderB[..n]);
      assert orderA[n] !in orderA[..n] && orderB[n] !in orderB[..n];
      AddKeepsSameLoads(AddAll(LEAST_WEIGHTED, a, targetsA, orderA[..n]), orderA[n], targetsA[orderA[n]],
                        AddAll(LEAST_WEIGHTED, b, targetsB, orderB[..n]), orderB[n], targetsB[orderB[n]]);
    }
  }

  lemma {:induction false} VisitsLength(order: seq<Hash>, hashes: set<Hash>)
    requires Visits(order, hashes)
    ensures |order| == |hashes|
  {
    if order == [] {
      assert hashes == {};
    } else {
      var n := |order| - 1;
      SplitLast(order);
      VisitsLength(order[..n], hashes - {order[n]});
    }
  }

  /** Whatever order a `SetTargets` call visits the additions in, the loads come out the same. */
  lemma TargetsStepConfluent(m: Cluster, targets: map<Hash, Target>, m1: Cluster, m2: Cluster)
    requires Inv(LEAST_WEIGHTED, m)
    requires TargetsStep(LEAST_WEIGHTED, m, targets, m1) && TargetsStep(LEAST_WEIGHTED, m, targets, m2)
    ensures SameLoads(m1, m2)
  {
    var order1 :| TargetsStepBy(LEAST_WEIGHTED, m, targets, m1, order1);
    var order2 :| TargetsStepBy(LEAST_WEIGHTED, m, targets, m2, order2);
    var kept := Forget(m, targets.Keys);
    if m.nodes == map[] {
      AddAllShape(LEAST_WEIGHTED, kept, targets, order1);
      AddAllShape(LEAST_WEIGHTED, kept, targets, order2);
      SameLoadsPointwise(m1, m2);
    } else {
      VisitsLength(order1, targets.Keys - m.items.Keys);
      VisitsLength(order2, targets.Keys - m.items.Keys);
      SameLoadsPointwise(kept, kept);
      AdditionsConfluent(kept, targets, order1, kept, targets, order2);
    }
  }

  /******* Stability *******/

  /** Placing targets again keeps what a placement neither moves nor is about. */
  lemma {:induction false} PlaceAllSticky(s: Strategy, m: Cluster, order: seq<Hash>, h: Hash)
    requires "" !in m.nodes && h in m.items && m.items[h].owner in m.nodes && AsksLeastWeighted(s, m.items[h].node)
    requires forall g :: g in order ==> g in m.items
    ensures PlaceAll(s, m, order).items[h] == m.items[h]
  {
    if order != [] {
      var n := |order| - 1;
      PlaceAllSticky(s, m, order[..n], h);
      if order[n] == h {
        PlaceSticky(s, PlaceAll(s, m, order[..n]), h);
      }
    }
  }

  /** Across a `SetCollectors`, a target whose collector survives keeps it; every other target ends
      on a live collector if there is one; and a surviving collector loses nothing and gains only
      targets that had lost theirs. */
  lemma CollectorsStepStable(m: Cluster, nodes: map<string, string>, m': Cluster)
    requires Inv(LEAST_WEIGHTED, m) && "" !in nodes && CollectorsStep(LEAST_WEIGHTED, m, nodes, LEAST_WEIGHTED, m')
    ensures m'.items.Keys == m.items.Keys
    ensures forall h :: h in m.items && m.items[h].owner in nodes ==> m'.items[h] == m.items[h]
    ensures nodes != map[] ==> forall h :: h in m.items ==> m'.items[h].owner in nodes
    ensures forall c, h :: c in nodes && h in Owned(m', c) - Owned(m, c) ==> m.items[h].owner !in nodes
    ensures forall c :: c in nodes ==>
      Owned(m, c) <= Owned(m', c) && Load(m', c) == Load(m, c) + |Owned(m', c) - Owned(m, c)|
  {
    hide Inv, CollectorsStep, Owned;
    CollectorsStepCorrect(LEAST_WEIGHTED, m, nodes, LEAST_WEIGHTED, m');
    AskedTargetsStable(LEAST_WEIGHTED, m, nodes, LEAST_WEIGHTED, m');
    forall c | c in nodes
      ensures Owned(m, c) <= Owned(m', c) && Load(m', c) == Load(m, c) + |Owned(m', c) - Owned(m, c)|
      ensures forall h :: h in Owned(m', c) - Owned(m, c) ==> h in m.items && m.items[h].owner !in nodes
    {
      GrownByOrphans(m, nodes, m', c);
    }
  }

  lemma GrownByOrphans(m: Cluster, nodes: map<string, string>, m': Cluster, c: string)
    requires c in nodes && m'.items.Keys == m.items.Keys
    requires forall h :: h in m.items && m.items[h].owner in nodes ==> m'.items[h] == m.items[h]
    ensures Owned(m, c) <= Owned(m', c) && Load(m', c) == Load(m, c) + |Owned(m', c) - Owned(m, c)|
    ensures forall h :: h in Owned(m', c) - Owned(m, c) ==> h in m.items && m.items[h].owner !in nodes
  {
    assert Owned(m', c) == Owned(m, c) + (Owned(m', c) - Owned(m, c));
  }

  /** Whatever the strategy, across a `SetCollectors` a target that least-weighted is asked about keeps its
      collector if that survives, and otherwise ends on a live one if there is one. */
  lemma AskedTargetsStable(s: Strategy, m: Cluster, nodes: map<string, string>, s': Strategy, m': Cluster)
    requires Inv(s, m) && "" !in nodes && CollectorsStep(s, m, nodes, s', m')
    ensures m'.items.Keys == m.items.Keys
    ensures forall h :: h in m.items && AsksLeastWeighted(s, m.items[h].node) ==>
      && (m.items[h].owner in nodes ==> m'.items[h] == m.items[h])
      && (nodes != map[] ==> m'.items[h].owner in nodes)
  {
    CollectorsStepCorrect(s, m, nodes, s', m');
    forall h | h in m.items && AsksLeastWeighted(s, m.items[h].node)
      ensures m.items[h].owner in nodes ==> m'.items[h] == m.items[h]
      ensures nodes != map[] ==> m'.items[h].owner in nodes
    {
      assert SameTarget(m.items[h], m'.items[h]);
      if nodes != map[] {
        AskedIsOwned(s, m, nodes, s', m', h);
      }
      if m.items[h].owner in nodes && nodes.Keys != m.nodes.Keys {
        var order :| CollectorsStepBy(s', m, nodes, m', order);
        assert Replace(m, nodes).items[h] == m.items[h] && AsksLeastWeighted(s', m.items[h].node);
        PlaceAllSticky(s', Replace(m, nodes), order, h);
      }
    }
  }

  lemma AskedIsOwned(s: Strategy, m: Cluster, nodes: map<string, string>, s': Strategy, m': Cluster, h: Hash)
    requires CollectorsStep(s, m, nodes, s', m') && Inv(s', m') && m'.nodes.Keys == nodes.Keys && nodes != map[]
    requires h in m'.items && AsksLeastWeighted(s, m'.items[h].node)
    ensures m'.items[h].owner in nodes
  {
    assert AsksLeastWeighted(s', m'.items[h].node);
    var c :| c in nodes;
    assert c in m'.nodes;
  }

  lemma SurvivorsStay(m: Cluster, nodes: map<string, string>, m': Cluster)
    requires Inv(LEAST_WEIGHTED, m) && "" !in nodes && CollectorsStep(LEAST_WEIGHTED, m, nodes, LEAST_WEIGHTED, m')
    requires m'.items.Keys == m.items.Keys
    ensures forall h :: h in m.items && m.items[h].owner in nodes ==> m'.items[h] == m.items[h]
  {
    AskedTargetsStable(LEAST_WEIGHTED, m, nodes, LEAST_WEIGHTED, m');
  }

  /******* Independence of the visiting order, with targets placed again *******/

  predicate IsOrphan(m: Cluster, h: Hash) {
    h in m.items && m.items[h].owner !in m.nodes
  }

  function Orphans(m: Cluster, order: seq<Hash>): nat {
    if order == [] then 0
    else Orphans(m, order[..|order| - 1]) + if IsOrphan(m, order[|order| - 1]) then 1 else 0
  }

  ghost predicate Repeatless(m: Cluster, order: seq<Hash>) {
    && (forall h :: h in order ==> h in m.items)
    && (forall i, j :: 0 <= i < j < |order| ==> order[i] != order[j])
  }

  lemma {:induction false} PlaceAllOthers(s: Strategy, m: Cluster, order: seq<Hash>, h: Hash)
    requires (forall g :: g in order ==> g in m.items) && h in m.items && h !in order
    ensures PlaceAll(s, m, order).items[h] == m.items[h]
  {
    if order != [] {
      SplitLast(order);
      PlaceAllOthers(s, m, order[..|order| - 1], h);
    }
  }

  /** The last target of an order is an orphan when its turn comes exactly if it was one before. */
  lemma LastPlaced(m: Cluster, order: seq<Hash>)
    requires "" !in m.nodes && Repeatless(m, order) && order != []
    ensures var n := |order| - 1;
      var m1 := PlaceAll(LEAST_WEIGHTED, m, order[..n]);
      && Repeatless(m, order[..n])
      && (IsOrphan(m1, order[n]) <==> IsOrphan(m, order[n]))
      && PlaceAll(LEAST_WEIGHTED, m, order)
         == if IsOrphan(m, order[n]) then Place(LEAST_WEIGHTED, m1, order[n]) else m1
  {
    var n := |order| - 1;
    assert order[n] !in order[..n];
    PlaceAllOthers(LEAST_WEIGHTED, m, order[..n], order[n]);
    var m1 := PlaceAll(LEAST_WEIGHTED, m, order[..n]);
    if !IsOrphan(m, order[n]) {
      PlaceSticky(LEAST_WEIGHTED, m1, order[n]);
    }
  }

  /** The loads after targets were placed again depend on the loads before and the number of orphans
      only. */
  lemma {:induction false} PlacementsConfluent(a: Cluster, p: seq<Hash>, b: Cluster, q: seq<Hash>)
    requires "" !in a.nodes && "" !in b.nodes && a.nodes != map[] && b.nodes != map[] && SameLoads(a, b)
    requires Repeatless(a, p) && Repeatless(b, q) && Orphans(a, p) == Orphans(b, q)
    ensures SameLoads(PlaceAll(LEAST_WEIGHTED, a, p), PlaceAll(LEAST_WEIGHTED, b, q))
    decreases |p| + |q|
  {
    hide SameLoads, Place, IsOrphan, Repeatless;
    if p != [] {
      LastPlaced(a, p);
    }
    if q != [] {
      LastPlaced(b, q);
    }
    if p != [] && !IsOrphan(a, p[|p| - 1]) {
      PlacementsConfluent(a, p[..|p| - 1], b, q);
    } else if q != [] && !IsOrphan(b, q[|q| - 1]) {
      PlacementsConfluent(a, p, b, q[..|q| - 1]);
    } else if p != [] && q != [] {
      PlacementsConfluent(a, p[..|p| - 1], b, q[..|q| - 1]);
      OrphansPlaced(PlaceAll(LEAST_WEIGHTED, a, p[..|p| - 1]), p[|p| - 1],
                    PlaceAll(LEAST_WEIGHTED, b, q[..|q| - 1]), q[|q| - 1]);
    }
  }

  lemma OrphansPlaced(a: Cluster, g: Hash, b: Cluster, h: Hash)
    requires "" !in a.nodes && "" !in b.nodes && a.nodes != map[] && b.nodes != map[] && SameLoads(a, b)
    requires IsOrphan(a, g) && IsOrphan(b, h)
    ensures SameLoads(Place(LEAST_WEIGHTED, a, g), Place(LEAST_WEIGHTED, b, h))
  {
    PlaceKeepsSameLoads(a, g, b, h);
  }

  ghost function OrphanSet(m: Cluster, order: seq<Hash>): set<Hash> {
    set h | h in order && IsOrphan(m, h)
  }

  lemma OrphanSetMore(m: Cluster, order: seq<Hash>)
    requires Repeatless(m, order) && order != []
    ensures var n := |order| - 1;
      && OrphanSet(m, order) == OrphanSet(m, order[..n]) + (if IsOrphan(m, order[n]) then {order[n]} else {})
      && order[n] !in OrphanSet(m, order[..n]) && Repeatless(m, order[..n])
  {
    hide IsOrphan;
    SplitLast(order);
  }

  lemma {:induction false} OrphansCounted(m: Cluster, order: seq<Hash>)
    requires Repeatless(m, order)
    ensures Orphans(m, order) == |OrphanSet(m, order)|
  {
    if order != [] {
      OrphanSetMore(m, order);
      OrphansCounted(m, order[..|order| - 1]);
    } else {
      assert OrphanSet(m, order) == {};
    }
  }

  lemma SameOrphans(m: Cluster, p: seq<Hash>, q: seq<Hash>)
    requires Visits(p, m.items.Keys) && Visits(q, m.items.Keys)
    ensures Repeatless(m, p) && Repeatless(m, q) && Orphans(m, p) == Orphans(m, q)
  {
    OrphansCounted(m, p);
    OrphansCounted(m, q);
    assert OrphanSet(m, p) == OrphanSet(m, q);
  }

  /** Whatever order the targets are visited in. */
  lemma PlacementConfluent(m: Cluster, p: seq<Hash>, q: seq<Hash>)
    requires "" !in m.nodes && Visits(p, m.items.Keys) && Visits(q, m.items.Keys)
    ensures SameLoads(PlaceAll(LEAST_WEIGHTED, m, p), PlaceAll(LEAST_WEIGHTED, m, q))
  {
    SameOrphans(m, p, q);
    SameLoadsPointwise(m, m);
    if m.nodes == map[] {
      SameLoadsPointwise(PlaceAll(LEAST_WEIGHTED, m, p), PlaceAll(LEAST_WEIGHTED, m, q));
    } else {
      PlacementsConfluent(m, p, m, q);
    }
  }

  /** Whatever order a `SetCollectors` call visits the targets in, the loads come out the same. */
  lemma CollectorsStepConfluent(m: Cluster, nodes: map<string, string>, m1: Cluster, m2: Cluster)
    requires "" !in nodes && CollectorsStep(LEAST_WEIGHTED, m, nodes, LEAST_WEIGHTED, m1)
    requires CollectorsStep(LEAST_WEIGHTED, m, nodes, LEAST_WEIGHTED, m2)
    ensures SameLoads(m1, m2)
  {
    hide SameLoads, Visits, PlaceAll, Resync;
    ReplaceFacts(m, nodes);
    if nodes.Keys == m.nodes.Keys {
      SameLoadsPointwise(m1, m2);
    } else {
      var order1 :| CollectorsStepBy(LEAST_WEIGHTED, m, nodes, m1, order1);
      var order2 :| CollectorsStepBy(LEAST_WEIGHTED, m, nodes, m2, order2);
      PlacementConfluent(Replace(m, nodes), order1, order2);
    }
  }
}
