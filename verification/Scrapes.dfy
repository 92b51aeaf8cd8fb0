/** A whole scrape: every sample first finds its family and then its series. All arrival orders of the
    samples of a metric, among any other samples, end in one family and give each series one point. */
module Scrapes {
  import opened GoMaps
  import opened Options
  import opened SampleLabels
  import opened Histograms
  import opened MetricNames
  import opened MetricFamilies
  import opened Arrivals
  import opened GoStrings
  import opened RecordedPoints
  import opened Transactions

  /** One sample, its lookup and the family that it found. */
  datatype Entry = Entry(q: Request, mf: MetricFamily, s: Sample)

  /** What the families have collected. */
  type Contents = map<MetricFamily, Groups>

  datatype Scrape = Scrape(families: Families, contents: Contents)

  const EMPTY := Scrape(map[], map[])

  function ReadingOf(mf: MetricFamily, parse: ParseBound): Reading {
    Reading(mf.id.mtype, mf.id.metadata.family, parse)
  }

  function Had(contents: Contents, mf: MetricFamily): Groups {
    if mf in contents then contents[mf] else map[]
  }

  /** The family that was found takes the sample in, all others stay as they are. What a native histogram
      adds to its family is left open. */
  ghost predicate Fills(contents: Contents, e: Entry, contents': Contents, parse: ParseBound) {
    && e.mf in contents'
    && (!e.q.native ==> contents'[e.mf] == Receive(ReadingOf(e.mf, parse), Had(contents, e.mf), e.s))
    && (forall f :: f in contents && f != e.mf ==> f in contents' && contents'[f] == contents[f])
  }

  /** One sample. A new family has not been there before. */
  ghost predicate Takes(sc: Scrape, e: Entry, sc': Scrape, parse: ParseBound) {
    && e.q.metricName == e.s.name
    && Resolves(sc.families, e.q, sc'.families, e.mf)
    && (Decide(sc.families, e.q).Created? ==> e.mf !in sc.contents)
    && Fills(sc.contents, e, sc'.contents, parse)
  }

  ghost predicate IsScrape(states: seq<Scrape>, entries: seq<Entry>, parse: ParseBound) {
    && |states| == |entries| + 1 && states[0] == EMPTY
    && forall i :: 0 <= i < |entries| ==> Takes(states[i], entries[i], states[i + 1], parse)
  }

  /** A sample about `base` in this place. */
  ghost predicate IsAbout(e: Entry, p: Place, base: string) {
    At(e.q, p) && About(base, e.q.metricName)
  }

  /** The samples about `base`, in the order they came. */
  ghost function Asked(entries: seq<Entry>, p: Place, base: string): seq<Sample> {
    if entries == [] then []
    else
      var e := entries[|entries| - 1];
      Asked(entries[..|entries| - 1], p, base) + if IsAbout(e, p, base) then [e.s] else []
  }

  /** Whenever a sample of the place comes, the store describes `base` with the type `t`. */
  ghost predicate DescribedAs(entries: seq<Entry>, p: Place, base: string, t: PromType) {
    forall i :: 0 <= i < |entries| && At(entries[i].q, p) ==>
      Describes(entries[i].q.mc, base) && entries[i].q.mc[base].mtype == t
  }

  /******* No family has two places *******/

  /** A sample about something else gets another family. */
  lemma OtherFamily(families: Families, q: Request, families': Families, mf: MetricFamily, p: Place, base: string)
    requires Injective(families) && Resolves(families, q, families', mf) && !(At(q, p) && About(base, q.metricName))
    requires At(q, p) ==> Describes(q.mc, base)
    ensures PlaceKey(p, base) in families' ==> families'[PlaceKey(p, base)] != mf
  {
    ResolvesInjective(families, q, families', mf);
    assert About(base, base);
    if At(q, p) {
      FallbackAbout(q, base);
      if About(base, IdentityOf(q.metricName, q.mc, q.native, q.nhcb).name) {
        FamilyNamesAbout(q, base);
      }
    }
    hide IdentityOf, FallbackName, Includes, Describes, About;
  }

  lemma FallbackAbout(q: Request, base: string)
    requires Describes(q.mc, base)
    ensures FallbackName(q) == base ==> About(base, q.metricName)
  {
    NormalizedIsBase(q.metricName);
    hide Normalized;
  }

  /******* One family *******/

  /** The type of a merged family. */
  ghost predicate HasType(id: Identity, t: PromType) {
    && (t == HistogramType ==> id.mtype == Histogram)
    && (t == SummaryType ==> id.mtype == Summary)
    && (t == InfoType || t == StatesetType ==> id.mtype == Sum && !id.isMonotonic)
    && (t == GaugeHistogramType ==> id.mtype == Empty)
  }

  /** The samples about `base` so far are in the family filed under it, and nothing else is. */
  ghost predicate Holds(sc: Scrape, p: Place, base: string, t: PromType, parse: ParseBound, asked: seq<Sample>) {
    var key := PlaceKey(p, base);
    && Rooted(sc.families, p, base) && Injective(sc.families)
    && (key in sc.families <==> asked != [])
    && (key in sc.families ==>
          var f := sc.families[key];
          && HasType(f.id, t) && f.id.metadata.family == base
          && f in sc.contents && sc.contents[f] == ReceiveAll(ReadingOf(f, parse), asked))
  }

  /** The family of a sample about `base`: the one that is filed, or a new one of the right type. */
  lemma AboutFamily(families: Families, q: Request, families': Families, mf: MetricFamily, p: Place, base: string)
    requires Rooted(families, p, base) && Resolves(families, q, families', mf) && !p.native
    requires At(q, p) && About(base, q.metricName) && Describes(q.mc, base) && Merged(false, q.mc[base].mtype)
    ensures PlaceKey(p, base) in families' && families'[PlaceKey(p, base)] == mf && Rooted(families', p, base)
    ensures PlaceKey(p, base) in families ==> families[PlaceKey(p, base)] == mf
    ensures PlaceKey(p, base) !in families ==>
      && Decide(families, q).Created?
      && HasType(mf.id, q.mc[base].mtype) && mf.id.metadata.family == base
  {
    AboutResolves(families, q, families', mf, p, base);
    BaseIdentity(q, base);
    TypeOfBase(q, base);
    hide IdentityOf, FallbackName, Includes, Describes, About, Rooted;
  }

  lemma AboutStep(sc: Scrape, e: Entry, sc': Scrape, parse: ParseBound, p: Place, base: string, t: PromType,
                  asked: seq<Sample>)
    requires Holds(sc, p, base, t, parse, asked) && Takes(sc, e, sc', parse) && IsAbout(e, p, base) && !p.native
    requires Describes(e.q.mc, base) && e.q.mc[base].mtype == t && Merged(false, t)
    ensures Holds(sc', p, base, t, parse, asked + [e.s]) && sc'.families[PlaceKey(p, base)] == e.mf
  {
    AboutFamily(sc.families, e.q, sc'.families, e.mf, p, base);
    ResolvesInjective(sc.families, e.q, sc'.families, e.mf);
    hide Resolves, Decide, Describes, Rooted, Injective, About, Receive, HasType;
    assert (asked + [e.s])[..|asked|] == asked;
    assert ReceiveAll(ReadingOf(e.mf, parse), []) == map[];
  }

  lemma OtherStep(sc: Scrape, e: Entry, sc': Scrape, parse: ParseBound, p: Place, base: string, t: PromType,
                  asked: seq<Sample>)
    requires Holds(sc, p, base, t, parse, asked) && Takes(sc, e, sc', parse) && !IsAbout(e, p, base)
    requires At(e.q, p) ==> Describes(e.q.mc, base)
    ensures Holds(sc', p, base, t, parse, asked)
  {
    OtherResolves(sc.families, e.q, sc'.families, e.mf, p, base);
    OtherFamily(sc.families, e.q, sc'.families, e.mf, p, base);
    ResolvesInjective(sc.families, e.q, sc'.families, e.mf);
    assert About(base, base) && forall s :: s in SUFFIXES ==> About(base, base + s);
    hide Resolves, Decide, Describes, Injective, About, Receive, ReceiveAll, HasType;
  }

  lemma {:induction false} ScrapeHolds(states: seq<Scrape>, entries: seq<Entry>, parse: ParseBound,
                                       p: Place, base: string, t: PromType, i: nat)
    requires IsScrape(states, entries, parse) && DescribedAs(entries, p, base, t) && Merged(false, t) && !p.native
    requires i <= |entries|
    ensures Holds(states[i], p, base, t, parse, Asked(entries[..i], p, base))
  {
    hide Holds, Takes, Describes, Merged, IsAbout;
    if i == 0 {
      HoldsAtStart(p, base, t, parse);
    } else {
      var n := i - 1;
      ScrapeHolds(states, entries, parse, p, base, t, n);
      assert entries[..i][..n] == entries[..n] && Takes(states[n], entries[n], states[i], parse);
      if IsAbout(entries[n], p, base) {
        AboutIsAt(entries[n], p, base);
        AboutStep(states[n], entries[n], states[i], parse, p, base, t, Asked(entries[..n], p, base));
      } else {
        assert Asked(entries[..i], p, base) == Asked(entries[..n], p, base);
        OtherStep(states[n], entries[n], states[i], parse, p, base, t, Asked(entries[..n], p, base));
      }
    }
  }

  lemma AboutIsAt(e: Entry, p: Place, base: string)
    requires IsAbout(e, p, base)
    ensures At(e.q, p)
  {
  }

  lemma HoldsAtStart(p: Place, base: string, t: PromType, parse: ParseBound)
    ensures Holds(EMPTY, p, base, t, parse, [])
  {
  }

  /** After a scrape: the data points of a series of the metric `base`. */
  ghost predicate Shows(cast: Cast, sc: Scrape, p: Place, base: string, key: Labels, d: Option<DataPoint>) {
    && PlaceKey(p, base) in sc.families
    && var f := sc.families[PlaceKey(p, base)];
      f in sc.contents && key in sc.contents[f] && Yields(cast, sc.contents[f][key], d)
  }

  /** All samples about a merged base name end in one family, which is named after the base. */
  lemma OneFamilyHoldsAll(states: seq<Scrape>, entries: seq<Entry>, parse: ParseBound, p: Place, base: string,
                          t: PromType)
    requires IsScrape(states, entries, parse) && DescribedAs(entries, p, base, t) && Merged(false, t) && !p.native
    ensures var sc, asked := states[|entries|], Asked(entries, p, base);
      && (PlaceKey(p, base) in sc.families <==> asked != [])
      && (asked != [] ==>
            var f := sc.families[PlaceKey(p, base)];
            && f.id.name == base && f in sc.contents
            && sc.contents[f] == ReceiveAll(Reading(f.id.mtype, base, parse), asked)
            && (t == HistogramType ==> f.id.mtype == Histogram)
            && (t == SummaryType ==> f.id.mtype == Summary)
            && (t == InfoType || t == StatesetType ==> f.id.mtype == Sum && !f.id.isMonotonic)
            && (t == GaugeHistogramType ==> f.id.mtype == Empty))
  {
    ScrapeHolds(states, entries, parse, p, base, t, |entries|);
    assert entries[..|entries|] == entries;
    hide IsScrape, DescribedAs, Merged, Injective, ReceiveAll;
  }

  /** A series shows what its samples make of it, in the order they came. */
  lemma ShowsReceived(cast: Cast, states: seq<Scrape>, entries: seq<Entry>, parse: ParseBound, p: Place, base: string,
                      t: PromType, mtype: OtlpType, key: Labels, d: Option<DataPoint>)
    requires mtype == if t == HistogramType then Histogram else if t == SummaryType then Summary
                      else if t == GaugeHistogramType then Empty else Sum
    requires IsScrape(states, entries, parse) && DescribedAs(entries, p, base, t) && Merged(false, t) && !p.native
    requires Shows(cast, states[|entries|], p, base, key, d)
    ensures var groups := ReceiveAll(Reading(mtype, base, parse), Asked(entries, p, base));
      key in groups && Yields(cast, groups[key], d)
  {
    hide IsScrape, DescribedAs, ReceiveAll, Yields;
    OneFamilyHoldsAll(states, entries, parse, p, base, t);
  }

  /** Two scrapes with the same samples about a merged base name, in any order, among any other samples: a
      series whose samples do not clash shows one data point. */
  lemma ScrapesShowTheSame(statesA: seq<Scrape>, entriesA: seq<Entry>, statesB: seq<Scrape>, entriesB: seq<Entry>,
                           parse: ParseBound, p: Place, base: string, t: PromType, mtype: OtlpType,
                           samples: set<Sample>, cast: Cast, key: Labels, d: Option<DataPoint>, e: Option<DataPoint>)
    requires mtype == if t == HistogramType then Histogram else if t == SummaryType then Summary
                      else if t == GaugeHistogramType then Empty else Sum
    requires IsScrape(statesA, entriesA, parse) && DescribedAs(entriesA, p, base, t)
    requires IsScrape(statesB, entriesB, parse) && DescribedAs(entriesB, p, base, t)
    requires Merged(false, t) && !p.native
    ensures
      && Visits(Asked(entriesA, p, base), samples) && Visits(Asked(entriesB, p, base), samples)
      && NoClash(Reading(mtype, base, parse), samples, key)
      && Shows(cast, statesA[|entriesA|], p, base, key, d) && Shows(cast, statesB[|entriesB|], p, base, key, e)
      ==> d == e
  {
    hide *;
    ScrapeLengths(statesA, entriesA, parse);
    ScrapeLengths(statesB, entriesB, parse);
    var r := Reading(mtype, base, parse);
    if Visits(Asked(entriesA, p, base), samples) && Visits(Asked(entriesB, p, base), samples)
       && NoClash(r, samples, key)
       && Shows(cast, statesA[|entriesA|], p, base, key, d) && Shows(cast, statesB[|entriesB|], p, base, key, e) {
      ShowsReceived(cast, statesA, entriesA, parse, p, base, t, mtype, key, d);
      ShowsReceived(cast, statesB, entriesB, parse, p, base, t, mtype, key, e);
      OneSeriesOnePoint(cast, r, samples, key, Asked(entriesA, p, base), Asked(entriesB, p, base));
    }
  }

  /** From the scraped text to the data point: when the store says that `base` is a histogram, its series
      shows the sum, count and creation time that its own samples have, wherever in the scrape they come. */
  lemma ScrapedHistogram(states: seq<Scrape>, entries: seq<Entry>, parse: ParseBound, p: Place, base: string,
                         samples: set<Sample>, cast: Cast, key: Labels, d: DataPoint)
    requires IsScrape(states, entries, parse) && DescribedAs(entries, p, base, HistogramType) && !p.native
    requires Visits(Asked(entries, p, base), samples) && Sorted(samples)
    requires NoClash(Reading(Histogram, base, parse), samples, key)
    requires |states| == |entries| + 1 && Shows(cast, states[|entries|], p, base, key, Some(d))
    ensures d.HistogramPoint?
    ensures forall s :: s in samples && SeriesKey(Histogram, s.ls) == key ==>
      && d.ts == s.ts
      && (HasSuffix(s.name, "_sum") && !d.noRecordedValue ==> d.sum == Some(s.v))
      && (HasSuffix(s.name, "_count") && !d.noRecordedValue ==> d.count == cast(s.v))
      && (s.name == base + "_created" ==> d.start == if s.v == Number(0) then None else Some(s.v))
    ensures var r := Reading(Histogram, base, parse);
      forall b :: b in d.bounds <==>
        b != PosInf && exists s :: s in samples && Key(r, s) == key && HasBound(r, "le", s, b)
  {
    var r := Reading(Histogram, base, parse);
    ShowsReceived(cast, states, entries, parse, p, base, HistogramType, Histogram, key, Some(d));
    hide IsScrape, DescribedAs, Visits, NoClash, Shows, ReceiveAll, Yields, Sorted, HasBound, SeriesKey;
    SamplesShow(cast, r, samples, key, Asked(entries, p, base), d);
    BoundsFromSamples(cast, r, samples, key, Asked(entries, p, base), d);
    assert forall s: Sample :: Key(r, s) == SeriesKey(Histogram, s.ls);
  }

  lemma ScrapeLengths(states: seq<Scrape>, entries: seq<Entry>, parse: ParseBound)
    requires IsScrape(states, entries, parse)
    ensures |states| == |entries| + 1
  {
  }
}
