/** How the samples of a scrape find their metric family. */
module Transactions {
  import opened GoStrings
  import opened MetricNames
  import opened MetricFamilies
  import opened SampleLabels
  import opened Options
  import opened Histograms
  import opened NativePoints

  /** Families are kept by resource, scope, kind of histogram and name. */
  datatype FamilyKey = FamilyKey(resource: string, scope: string, isExponential: bool, name: string)

  type Families = map<FamilyKey, MetricFamily>

  /** A lookup: which sample, and what the scrape knows about metrics at that moment. */
  datatype Request = Request(resource: string, scope: string, metricName: string, native: bool, nhcb: bool, mc: Store)

  function KeyOf(q: Request, name: string): FamilyKey {
    FamilyKey(q.resource, q.scope, q.native, name)
  }

  /** Where a family may be found that is not filed under the metric's own name. */
  ghost function FallbackName(q: Request): string {
    if q.metricName in q.mc then q.metricName
    else
      var normalized := Normalized(q.metricName);
      if IsCounterCreatedLine(q.metricName, normalized, q.mc) then normalized + TOTAL else normalized
  }

  datatype Decision = Found(key: FamilyKey) | Created(id: Identity)

  ghost function Decide(families: Families, q: Request): Decision {
    var fallback := KeyOf(q, FallbackName(q));
    if KeyOf(q, q.metricName) in families then Found(KeyOf(q, q.metricName))
    else if fallback in families && Includes(families[fallback].id, q.metricName) then Found(fallback)
    else Created(IdentityOf(q.metricName, q.mc, q.native, q.nhcb))
  }

  /** One lookup: the family is found and nothing changes, or a new one is filed under its own name. */
  ghost predicate Resolves(families: Families, q: Request, families': Families, mf: MetricFamily) {
    match Decide(families, q)
    case Found(key) => key in families && mf == families[key] && families' == families
    case Created(id) => mf !in families.Values && mf.id == id && families' == families[KeyOf(q, id.name) := mf]
  }

  /** No family is filed twice. */
  ghost predicate Injective(families: Families) {
    forall j, k :: j in families && k in families && j != k ==> families[j] != families[k]
  }

  lemma ResolvesInjective(families: Families, q: Request, families': Families, mf: MetricFamily)
    requires Injective(families) && Resolves(families, q, families', mf)
    ensures Injective(families')
  {
    hide IdentityOf, FallbackName, Includes;
  }

  lemma ResolvesValues(families: Families, q: Request, families': Families, mf: MetricFamily)
    requires Resolves(families, q, families', mf)
    ensures mf in families'.Values && families'.Values <= families.Values + {mf}
    ensures Decide(families, q).Created? <==> mf !in families.Values
  {
    hide IdentityOf, FallbackName, Includes;
    match Decide(families, q)
    case Found(key) => assert families[key] == mf;
    case Created(id) => assert families'[KeyOf(q, id.name)] == mf;
  }

  /** Samples that become attributes of the resource or the scope instead. */
  const TARGET_INFO := "target_info"
  const SCOPE_INFO := "otel_scope_info"

  /** The staleness marker of a native histogram, which Prometheus sends as a plain sample. */
  predicate IsNativeStaleness(s: Sample, mc: Store) {
    s.v == StaleNaN && s.name in mc && mc[s.name].mtype == HistogramType && mc[s.name].family == s.name
  }

  const STALE_HISTOGRAM :=
    IntHistogram(0, 0, StaleNaN, 0.0, 0, Sparse([], []), Sparse([], []), [])

  ghost function ReceiveStaleness(t: MetricNames.OtlpType, groups: Groups, s: Sample): Groups {
    groups[SeriesKey(t, s.ls) := CollectExponential(GroupOf(t, groups, s.ls, s.ts), s.ts, Some(STALE_HISTOGRAM), None)]
  }

  /** A series of a native histogram that had no float histograms shows that it went away. */
  lemma StalenessShows(groups: Groups, s: Sample, cast: Cast, d: Option<DataPoint>)
    requires var key := SeriesKey(ExponentialHistogram, s.ls);
      && (key in groups ==>
            groups[key].mtype.ExponentialHistogram? && groups[key].ts == s.ts && groups[key].native.fh.None?)
      && Yields(cast, ReceiveStaleness(ExponentialHistogram, groups, s)[key], d)
    ensures d.Some? && d.value.ExponentialPoint? && d.value.ts == s.ts && d.value.noRecordedValue
    ensures d.value.sum == None && d.value.count == 0
  {
    hide SeriesKey, Yields, CollectExponential;
    ExponentialShows(cast, GroupOf(ExponentialHistogram, groups, s.ls, s.ts), STALE_HISTOGRAM, d);
  }

  class Transaction {
    const ignoreScopeInfoMetric: bool
    var families: Families
    var addingNativeHistogram: bool
    var addingNHCB: bool

    constructor (ignoreScopeInfoMetric: bool)
      ensures families == map[] && Valid() && this.ignoreScopeInfoMetric == ignoreScopeInfoMetric
    {
      this.ignoreScopeInfoMetric := ignoreScopeInfoMetric;
      families, addingNativeHistogram, addingNHCB := map[], false, false;
    }

    ghost function AllGroups(): set<MetricGroup>
      reads this`families, families.Values`groups
    {
      set f, g | f in families.Values && g in f.groups.Values :: g
    }

    /** No two families share a group. */
    ghost predicate Valid()
      reads this`families, families.Values, AllGroups()
    {
      && (forall f :: f in families.Values ==> f.Valid())
      && (forall f, g :: f in families.Values && g in families.Values && f != g ==> f.groups.Values !! g.groups.Values)
      && Injective(families)
    }

    method GetOrCreateMetricFamily(resource: string, scope: string, mn: string, mc: Store) returns (mf: MetricFamily)
      modifies this`families
      ensures var q := Request(resource, scope, mn, addingNativeHistogram, addingNHCB, mc);
        && Resolves(old(families), q, families, mf)
        && (Decide(old(families), q).Created? <==> fresh(mf))
      ensures fresh(mf) ==> mf.Valid() && mf.groups == map[]
    {
      hide FallbackName, Includes, IdentityOf;
      var mfKey := FamilyKey(resource, scope, addingNativeHistogram, mn);
      if mfKey in families {
        return families[mfKey];
      }
      var fn := FallbackFor(mn, mc, Request(resource, scope, mn, addingNativeHistogram, addingNHCB, mc));
      var fnKey := mfKey.(name := fn);
      if fnKey in families {
        var included := families[fnKey].IncludesMetric(mn);
        if included {
          return families[fnKey];
        }
      }
      mf := new MetricFamily(mn, mc, addingNativeHistogram, addingNHCB);
      families := families[mfKey.(name := mf.id.name) := mf];
    }

    static method FallbackFor(mn: string, mc: Store, ghost q: Request) returns (fn: string)
      requires q.metricName == mn && q.mc == mc
      ensures fn == FallbackName(q)
    {
      fn := mn;
      if mn !in mc {
        fn := NormalizeMetricName(mn);
        if IsCounterCreatedLine(mn, fn, mc) {
          fn := fn + TOTAL;
        }
      }
    }

    /** The lookup leaves what the families hold as it is. */
    method FindFamily(resource: string, scope: string, mn: string, mc: Store) returns (mf: MetricFamily)
      requires Valid()
      modifies this`families
      ensures Valid() && mf in families.Values
      ensures Resolves(old(families), Request(resource, scope, mn, addingNativeHistogram, addingNHCB, mc), families, mf)
      ensures mf !in old(families.Values) ==> fresh(mf) && mf.groups == map[] && mf.Views() == map[]
      ensures families.Values <= old(families.Values) + {mf}
    {
      hide Resolves, Decide, Injective;
      ghost var before := families;
      ghost var q := Request(resource, scope, mn, addingNativeHistogram, addingNHCB, mc);
      mf := GetOrCreateMetricFamily(resource, scope, mn, mc);
      ResolvesInjective(before, q, families, mf);
      ResolvesValues(before, q, families, mf);
    }

    /** A sample changes nothing but its family. */
    method AddTo(mf: MetricFamily, s: Sample, parse: ParseBound) returns (ok: bool)
      requires Valid() && mf in families.Values && SortedLabels(s.ls)
      modifies mf, mf.groups.Values
      ensures Valid()
      ensures mf.Views() == Receive(Reading(mf.id.mtype, mf.id.metadata.family, parse), old(mf.Views()), s)
      ensures forall f :: f in families.Values && f != mf ==> f.Views() == old(f.Views())
    {
      hide Injective, Receive, SortedLabels, Ordered, SeriesKey, MetricGroup.View, MetricGroup.Valid;
      ok := mf.AddSample(parse, s);
    }

    /** The staleness marker as a native histogram; it is not added to a family of another type. */
    method AddStaleness(mf: MetricFamily, s: Sample)
      requires Valid() && mf in families.Values && SortedLabels(s.ls)
      modifies mf, mf.groups.Values
      ensures Valid()
      ensures mf.Views() == ReceiveStaleness(mf.id.mtype, old(mf.Views()), s)
      ensures forall f :: f in families.Values && f != mf ==> f.Views() == old(f.Views())
    {
      hide Injective, SortedLabels, Ordered, SeriesKey, CollectExponential, EmptySeries, GroupOf, MetricGroup.View;
      hide MetricGroup.Valid;
      assert STALE_HISTOGRAM.Sound();
      var ok := mf.AddExponentialHistogramSeries(s.ls, s.ts, Some(STALE_HISTOGRAM), None);
    }

    /** One sample: its family takes it in, all others stay as they are. */
    method AddSampleDatapoint(resource: string, scope: string, s: Sample, mc: Store, parse: ParseBound)
      returns (mf: MetricFamily?, ok: bool)
      requires Valid() && SortedLabels(s.ls)
      modifies this, families.Values, AllGroups()
      ensures Valid()
      ensures mf == null <==> s.name == "target_info" || (s.name == "otel_scope_info" && !ignoreScopeInfoMetric)
      ensures mf == null ==> families == old(families)
      ensures mf != null ==>
        var native := s.v == StaleNaN && s.name in mc && mc[s.name] == Metadata(s.name, HistogramType);
        var had := if mf in old(families.Values) then old(mf.Views()) else map[];
        && Resolves(old(families), Request(resource, scope, s.name, native, false, mc), families, mf)
        && mf.Views() == if native then ReceiveStaleness(mf.id.mtype, had, s)
                         else Receive(Reading(mf.id.mtype, mf.id.metadata.family, parse), had, s)
      ensures forall f :: f in old(families.Values) && f != mf ==> f.Views() == old(f.Views())
    {
      hide Resolves, Injective, Receive, ReceiveStaleness, SortedLabels, MetricFamily.Valid, MetricFamily.Views;
      if s.name == TARGET_INFO || (s.name == SCOPE_INFO && !ignoreScopeInfoMetric) {
        return null, false;
      }
      addingNativeHistogram, addingNHCB := IsNativeStaleness(s, mc), false;
      mf := FindFamily(resource, scope, s.name, mc);
      if addingNativeHistogram {
        AddStaleness(mf, s);
        return mf, false;
      }
      ok := AddTo(mf, s, parse);
    }
  }

  /******* What is known about a base name *******/

  /** A base name and its suffixed names; no other metric's name is `base` plus a suffix. */
  predicate About(base: string, name: string) {
    name == base || exists s :: s in SUFFIXES && name == base + s
  }

  /** The store describes `base` and leaves its suffixed names alone; they are no built-in metrics, and
      no counter shares their names. */
  ghost predicate Describes(mc: Store, base: string) {
    && base != ""
    && base in mc && mc[base].family == base
    && (forall s :: s in SUFFIXES ==> base + s !in mc)
    && (forall name :: About(base, name) ==> name !in INTERNAL_METRICS)
    && (forall y :: y in mc && mc[y].mtype == CounterType ==> y + TOTAL != base)
  }

  /** The types whose suffixed samples belong to one family. Native histograms are histograms also when
      the metadata say gauge or unknown. */
  predicate Merged(native: bool, t: PromType) {
    t != CounterType && (native || (t != GaugeType && t != UnknownType))
  }

  /** Families of a place, that is a resource, a scope and a kind of histogram. */
  datatype Place = Place(resource: string, scope: string, native: bool)

  predicate At(q: Request, p: Place) {
    q.resource == p.resource && q.scope == p.scope && q.native == p.native
  }

  function PlaceKey(p: Place, name: string): FamilyKey {
    FamilyKey(p.resource, p.scope, p.native, name)
  }

  /** Whatever is filed under the base name is its merged family, and nothing is filed under its
      suffixed names. */
  ghost predicate Rooted(families: Families, p: Place, base: string) {
    && (PlaceKey(p, base) in families ==>
          var id := families[PlaceKey(p, base)].id;
          id.name == base && id.metadata.family == base && id.mtype != Gauge)
    && (forall s :: s in SUFFIXES ==> PlaceKey(p, base + s) !in families)
  }

  /** Which metrics get a family with a given name. */
  lemma NameOfFamily(q: Request)
    ensures var name := IdentityOf(q.metricName, q.mc, q.native, q.nhcb).name;
      var n := Normalized(q.metricName);
      || name == q.metricName
      || (name == n && n in q.mc && q.mc[n].mtype != CounterType && q.metricName !in q.mc)
      || (name == n + TOTAL && n in q.mc && q.mc[n].mtype == CounterType && q.metricName !in q.mc
          && HasSuffix(q.metricName, CREATED))
  {
  }

  lemma TotalIsSuffix(base: string, s: string, y: string)
    requires s in SUFFIXES && base + s == y + TOTAL
    ensures s == TOTAL && base == y
  {
    assert HasSuffix(base + s, TOTAL);
    SuffixUnique(base, s, TOTAL);
    assert y == (y + TOTAL)[..|y|] && base == (base + s)[..|base|];
  }

  /** A metric whose family would be called `base`, or `base` with a suffix, is about `base`. */
  lemma FamilyNamesAbout(q: Request, base: string)
    requires Describes(q.mc, base)
    requires About(base, IdentityOf(q.metricName, q.mc, q.native, q.nhcb).name)
    ensures About(base, q.metricName)
  {
    var name := IdentityOf(q.metricName, q.mc, q.native, q.nhcb).name;
    var n := Normalized(q.metricName);
    NameOfFamily(q);
    NormalizedIsBase(q.metricName);
    hide IdentityOf, Normalized;
    if name == n + TOTAL && name != q.metricName {
      assert n == base by {
        if name != base {
          var s :| s in SUFFIXES && name == base + s;
          TotalIsSuffix(base, s, n);
        }
      }
    }
  }

  lemma SuffixedNames(base: string, s: string)
    requires base != "" && s in SUFFIXES
    ensures base + s != base && Normalized(base + s) == base && About(base, base + s)
    ensures HasSuffix(base + s, CREATED) <==> s == CREATED
    ensures forall t :: t in SUFFIXES && base + t == base + s ==> t == s
  {
    NormalizedSuffixed(base, s);
    SuffixUnique(base, s, CREATED);
    forall t | t in SUFFIXES && base + t == base + s ensures t == s {
      assert t == (base + t)[|base|..] && s == (base + s)[|base|..];
    }
  }

  /******* Merged families *******/

  lemma BaseIdentity(q: Request, base: string)
    requires Describes(q.mc, base) && About(base, q.metricName)
    ensures var id := IdentityOf(q.metricName, q.mc, q.native, q.nhcb);
      && id.metadata.family == base
      && (Merged(q.native, q.mc[base].mtype) ==> id.name == base && id.mtype != Gauge && FallbackName(q) == base)
  {
    assert q.metricName !in INTERNAL_METRICS;
    if q.metricName != base {
      var s :| s in SUFFIXES && q.metricName == base + s;
      SuffixedNames(base, s);
    }
  }

  /** The family that a metric about a described base name gets: its type by the metadata, or for native
      histograms by their kind of buckets. */
  lemma TypeOfBase(q: Request, base: string)
    requires Describes(q.mc, base) && About(base, q.metricName)
    ensures var id := IdentityOf(q.metricName, q.mc, q.native, q.nhcb);
      var t := q.mc[base].mtype;
      && (q.native ==> id.mtype == (if q.nhcb then Histogram else ExponentialHistogram) && id.isMonotonic)
      && (!q.native && t == HistogramType ==> id.mtype == Histogram)
      && (!q.native && t == SummaryType ==> id.mtype == Summary)
      && (!q.native && t == CounterType ==> id.mtype == Sum && id.isMonotonic)
      && (!q.native && (t == InfoType || t == StatesetType) ==> id.mtype == Sum && !id.isMonotonic)
      && (!q.native && t == GaugeHistogramType ==> id.mtype == Empty)
      && (!q.native && (t == GaugeType || t == UnknownType) ==> id.mtype == Gauge)
  {
    assert q.metricName !in INTERNAL_METRICS;
    if q.metricName != base {
      var s :| s in SUFFIXES && q.metricName == base + s;
      SuffixedNames(base, s);
    }
    hide Normalized;
  }

  /** A built-in metric of the scrape is a gauge under its own name, whatever the store says; so is one
      that the store knows nothing about. */
  lemma TypeOfOthers(q: Request)
    requires !q.native
    requires q.metricName in {"up", "scrape_duration_seconds", "scrape_samples_scraped", "scrape_series_added",
                              "scrape_samples_post_metric_relabeling"}
             || (q.metricName !in q.mc && Normalized(q.metricName) !in q.mc)
    ensures var id := IdentityOf(q.metricName, q.mc, false, q.nhcb);
      id.mtype == Gauge && id.name == q.metricName && id.metadata.family == q.metricName
  {
  }

  lemma RootedIncludes(families: Families, p: Place, base: string, name: string)
    requires Rooted(families, p, base) && PlaceKey(p, base) in families && base != ""
    requires About(base, name) && name != base
    ensures Includes(families[PlaceKey(p, base)].id, name)
  {
    var s :| s in SUFFIXES && name == base + s;
    SuffixedNames(base, s);
  }

  /** Any sample about a merged base name gets the family filed under the base name. */
  lemma AboutResolves(families: Families, q: Request, families': Families, mf: MetricFamily, p: Place, base: string)
    requires Rooted(families, p, base) && Resolves(families, q, families', mf)
    requires At(q, p) && About(base, q.metricName) && Describes(q.mc, base) && Merged(q.native, q.mc[base].mtype)
    ensures Rooted(families', p, base) && PlaceKey(p, base) in families' && families'[PlaceKey(p, base)] == mf
    ensures PlaceKey(p, base) in families ==> families' == families
  {
    BaseIdentity(q, base);
    if q.metricName != base {
      var s :| s in SUFFIXES && q.metricName == base + s;
      if PlaceKey(p, base) in families {
        RootedIncludes(families, p, base, q.metricName);
      }
    }
    NoSuffixIsBase(base);
    hide IdentityOf, FallbackName, Includes, Describes;
  }

  lemma NoSuffixIsBase(base: string)
    ensures forall s :: s in SUFFIXES ==> base + s != base
  {
    forall s | s in SUFFIXES ensures base + s != base {
      assert |base + s| > |base|;
    }
  }

  /** No other sample touches what is filed under the base name. */
  lemma OtherResolves(families: Families, q: Request, families': Families, mf: MetricFamily, p: Place, base: string)
    requires Resolves(families, q, families', mf) && !(At(q, p) && About(base, q.metricName))
    requires At(q, p) ==> Describes(q.mc, base)
    ensures forall name :: About(base, name) ==> (PlaceKey(p, name) in families' <==> PlaceKey(p, name) in families)
    ensures forall name :: About(base, name) && PlaceKey(p, name) in families ==>
      families'[PlaceKey(p, name)] == families[PlaceKey(p, name)]
  {
    if At(q, p) && About(base, IdentityOf(q.metricName, q.mc, q.native, q.nhcb).name) {
      FamilyNamesAbout(q, base);
    }
    hide IdentityOf, FallbackName, Includes, Describes, About;
  }

  /** One lookup of a run, with its result and the families afterwards. */
  datatype Step = Step(q: Request, mf: MetricFamily, after: Families)

  ghost function Before(start: Families, steps: seq<Step>, i: nat): Families
    requires i <= |steps|
  {
    if i == 0 then start else steps[i - 1].after
  }

  ghost predicate IsRun(start: Families, steps: seq<Step>) {
    forall i :: 0 <= i < |steps| ==> Resolves(Before(start, steps, i), steps[i].q, steps[i].after, steps[i].mf)
  }

  /** Whenever a sample of the place is looked up, the store describes `base` as a merged one. */
  ghost predicate DescribedMerged(steps: seq<Step>, p: Place, base: string) {
    forall i :: 0 <= i < |steps| && At(steps[i].q, p) ==>
      Describes(steps[i].q.mc, base) && Merged(p.native, steps[i].q.mc[base].mtype)
  }

  ghost predicate Asks(step: Step, p: Place, base: string) {
    At(step.q, p) && About(base, step.q.metricName)
  }

  lemma StepKeepsRooted(families: Families, step: Step, p: Place, base: string)
    requires Rooted(families, p, base) && Resolves(families, step.q, step.after, step.mf)
    requires At(step.q, p) ==> Describes(step.q.mc, base) && Merged(p.native, step.q.mc[base].mtype)
    ensures Rooted(step.after, p, base)
    ensures PlaceKey(p, base) in families ==>
      PlaceKey(p, base) in step.after && step.after[PlaceKey(p, base)] == families[PlaceKey(p, base)]
    ensures Asks(step, p, base) ==> PlaceKey(p, base) in step.after && step.after[PlaceKey(p, base)] == step.mf
  {
    if Asks(step, p, base) {
      AboutResolves(families, step.q, step.after, step.mf, p, base);
    } else {
      OtherResolves(families, step.q, step.after, step.mf, p, base);
      assert forall s :: s in SUFFIXES ==> About(base, base + s);
    }
  }

  /** One step of a run. */
  lemma RunStep(start: Families, steps: seq<Step>, p: Place, base: string, i: nat)
    requires IsRun(start, steps) && DescribedMerged(steps, p, base) && i < |steps|
    requires Rooted(Before(start, steps, i), p, base)
    ensures var families, families' := Before(start, steps, i), Before(start, steps, i + 1);
      var key := PlaceKey(p, base);
      && Rooted(families', p, base)
      && (key in families ==> key in families' && families'[key] == families[key])
      && (Asks(steps[i], p, base) ==> key in families' && families'[key] == steps[i].mf)
  {
    hide Describes, Resolves, Rooted, About, Merged;
    assert Before(start, steps, i + 1) == steps[i].after;
    StepKeepsRooted(Before(start, steps, i), steps[i], p, base);
  }

  lemma {:induction false} RunKeepsRooted(start: Families, steps: seq<Step>, p: Place, base: string, i: nat)
    requires IsRun(start, steps) && Rooted(start, p, base) && i <= |steps|
    requires DescribedMerged(steps, p, base)
    ensures Rooted(Before(start, steps, i), p, base)
  {
    hide IsRun, DescribedMerged, Rooted, Asks;
    if i > 0 {
      RunKeepsRooted(start, steps, p, base, i - 1);
      RunStep(start, steps, p, base, i - 1);
    }
  }

  /** A family filed under the base name stays there. */
  lemma {:induction false} FamilyStays(start: Families, steps: seq<Step>, p: Place, base: string, i: nat, j: nat)
    requires IsRun(start, steps) && Rooted(start, p, base) && i <= j <= |steps|
    requires DescribedMerged(steps, p, base) && PlaceKey(p, base) in Before(start, steps, i)
    ensures PlaceKey(p, base) in Before(start, steps, j)
    ensures Before(start, steps, j)[PlaceKey(p, base)] == Before(start, steps, i)[PlaceKey(p, base)]
  {
    hide IsRun, DescribedMerged, Rooted, Asks;
    if i < j {
      FamilyStays(start, steps, p, base, i, j - 1);
      RunKeepsRooted(start, steps, p, base, j - 1);
      RunStep(start, steps, p, base, j - 1);
    }
  }

  lemma SameFamily(start: Families, steps: seq<Step>, p: Place, base: string, i: nat, j: nat)
    requires IsRun(start, steps) && Rooted(start, p, base) && DescribedMerged(steps, p, base)
    requires i <= j < |steps| && Asks(steps[i], p, base) && Asks(steps[j], p, base)
    ensures steps[i].mf == steps[j].mf && steps[i].mf.id.name == base
  {
    hide IsRun, DescribedMerged, Asks;
    RunKeepsRooted(start, steps, p, base, i);
    RunStep(start, steps, p, base, i);
    FamilyStays(start, steps, p, base, i + 1, j + 1);
    RunKeepsRooted(start, steps, p, base, j);
    RunStep(start, steps, p, base, j);
  }

  /** In any run of lookups, in any order and among any others, all samples about one merged base name
      get one family, and its name is the base name. */
  lemma OneFamily(start: Families, steps: seq<Step>, p: Place, base: string)
    requires IsRun(start, steps) && Rooted(start, p, base) && DescribedMerged(steps, p, base)
    ensures forall i, j :: 0 <= i <= j < |steps| && Asks(steps[i], p, base) && Asks(steps[j], p, base) ==>
      steps[i].mf == steps[j].mf && steps[i].mf.id.name == base
  {
    hide IsRun, DescribedMerged, Rooted, Asks;
    forall i, j | 0 <= i <= j < |steps| && Asks(steps[i], p, base) && Asks(steps[j], p, base)
      ensures steps[i].mf == steps[j].mf && steps[i].mf.id.name == base
    {
      SameFamily(start, steps, p, base, i, j);
    }
  }

  lemma FallbackOfSuffixed(q: Request, base: string, s: string)
    requires s in SUFFIXES && q.metricName == base + s && Describes(q.mc, base)
    ensures FallbackName(q) == if q.mc[base].mtype == CounterType && s == "_created" then base + "_total" else base
  {
    SuffixedNames(base, s);
    hide Normalized;
  }

  lemma IdentityOfBase(q: Request, base: string)
    requires Describes(q.mc, base)
    ensures var id := IdentityOf(base, q.mc, q.native, q.nhcb);
      var t := q.mc[base].mtype;
      && id.name == base && id.metadata.family == base
      && (id.mtype == Gauge <==> !q.native && (t == GaugeType || t == UnknownType))
  {
    assert base !in INTERNAL_METRICS by {
      assert About(base, base);
    }
    hide Normalized;
  }

  /** With the family of the base name in place, a suffixed sample finds it exactly if the metadata do
      not make it a gauge and the sample is no creation time of a counter. */
  lemma SuffixedJoins(families: Families, q: Request, base: string, s: string)
    requires s in SUFFIXES && q.metricName == base + s && Describes(q.mc, base)
    requires KeyOf(q, base) in families && families[KeyOf(q, base)].id == IdentityOf(base, q.mc, q.native, q.nhcb)
    requires forall t :: t in SUFFIXES ==> KeyOf(q, base + t) !in families
    ensures var t := q.mc[base].mtype;
      Decide(families, q) == Found(KeyOf(q, base)) <==>
        (q.native || (t != GaugeType && t != UnknownType)) && !(t == CounterType && s == CREATED)
  {
    hide IdentityOf, FallbackName, Normalized, About, HasSuffix;
    SuffixedNames(base, s);
    FallbackOfSuffixed(q, base, s);
    IdentityOfBase(q, base);
    NoSuffixIsBase(base);
  }

  /** The suffixed sample of a gauge gets a new family, which takes the place of the one under the base
      name. */
  lemma GaugeReplaced(families: Families, q: Request, base: string, s: string, families': Families, mf: MetricFamily)
    requires s in SUFFIXES && q.metricName == base + s && Describes(q.mc, base) && !q.native
    requires q.mc[base].mtype == GaugeType || q.mc[base].mtype == UnknownType
    requires KeyOf(q, base) in families && families[KeyOf(q, base)].id == IdentityOf(base, q.mc, q.native, q.nhcb)
    requires forall t :: t in SUFFIXES ==> KeyOf(q, base + t) !in families
    requires Resolves(families, q, families', mf)
    ensures families' == families[KeyOf(q, base) := mf]
    ensures families'[KeyOf(q, base)] != families[KeyOf(q, base)]
  {
    SuffixedNames(base, s);
    assert q.metricName !in INTERNAL_METRICS by {
      assert About(base, base + s);
    }
    assert base !in INTERNAL_METRICS by {
      assert About(base, base);
    }
    hide Normalized;
  }
}
