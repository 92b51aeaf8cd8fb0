/** What the samples and the native histograms of a series say is what its data point shows. */
module RecordedPoints {
  import opened GoStrings
  import opened GoMaps
  import opened Options
  import opened SampleLabels
  import opened Histograms
  import opened HistogramPoints
  import opened MetricFamilies
  import opened Arrivals
  import MetricNames
  import Buckets
  import CustomBuckets

  /******* What a sample says *******/

  /** No metric name ends with two of these. */
  lemma EndsOnce(base: string, name: string)
    ensures !(HasSuffix(name, "_sum") && HasSuffix(name, "_count"))
    ensures name == base + "_created" ==> !HasSuffix(name, "_sum") && !HasSuffix(name, "_count")
  {
    if HasSuffix(name, "_sum") {
      var front := name[..|name| - 4];
      assert name == front + "_sum";
      MetricNames.SuffixUnique(front, "_sum", "_count");
    }
    MetricNames.SuffixUnique(base, "_created", "_sum");
    MetricNames.SuffixUnique(base, "_created", "_count");
  }

  /** A sample of a histogram or a summary is a sum, a count, a creation time, or the value of the bound
      or quantile that its label names; anything else is rejected. */
  lemma DistributionSays(t: OtlpType, family: string, parse: ParseBound, s: Sample)
    requires (t.Histogram? || t.Summary?) && SortedLabels(s.ls)
    ensures var kind := KindOf(t, family, parse, s);
      var tag := if t.Histogram? then "le" else "quantile";
      var plain := !HasSuffix(s.name, "_sum") && !HasSuffix(s.name, "_count") && s.name != family + "_created";
      && (kind == SumKind <==> HasSuffix(s.name, "_sum"))
      && (kind == CountKind <==> HasSuffix(s.name, "_count"))
      && (kind == CreatedKind <==> s.name == family + "_created")
      && (forall b :: kind == BucketKind(b) <==>
            plain && exists text :: text != "" && Label(tag, text) in s.ls && parse(text) == Some(b))
      && (kind == Malformed <==>
            plain && forall text :: text != "" && Label(tag, text) in s.ls ==> parse(text) == None)
  {
    EndsOnce(family, s.name);
    var tag := if t.Histogram? then "le" else "quantile";
    LookupExactly(s.ls, tag);
    hide HasSuffix, SortedLabels, Lookup;
    var text := Lookup(s.ls, tag);
    if exists v :: Label(tag, v) in s.ls {
      assert Label(tag, text) in s.ls;
    } else {
      forall l | l in s.ls ensures l.name != tag {
        assert Label(l.name, l.value) in s.ls;
      }
    }
  }

  /** Other types have a value, sums and exponential histograms also a creation time. */
  lemma NumberSays(t: OtlpType, family: string, parse: ParseBound, s: Sample)
    requires !t.Histogram? && !t.Summary?
    ensures var kind := KindOf(t, family, parse, s);
      && (kind == CreatedKind <==> (t.Sum? || t.ExponentialHistogram?) && s.name == family + "_created")
      && (kind == ValueKind <==> t.Gauge? || t.Empty? || (t.Sum? && s.name != family + "_created"))
      && (kind == Ignored <==> t.ExponentialHistogram? && s.name != family + "_created")
  {
  }

  /******* What a point shows *******/

  /** Both kinds of histogram: one that did not go away shows its sum and count. */
  lemma HistogramShows(cast: Cast, st: Series, d: DataPoint)
    requires st.mtype.Histogram? && Yields(cast, st, Some(d))
    ensures d.HistogramPoint? && st.count.Some?
    ensures d.noRecordedValue <==> st.sum == Some(StaleNaN) || st.count == Some(StaleNaN)
    ensures !d.noRecordedValue ==> d.sum == st.sum && d.count == cast(st.count.value)
    ensures d.noRecordedValue ==> d.sum == None && d.count == 0
    ensures d.ts == st.ts && d.start == if st.created == Number(0) then None else Some(st.created)
    ensures d.attributes == Attributes(MetricNames.Histogram, st.ls)
  {
    hide Attributes, IsSorting, Kept, Bounds, Levels, Rises, IntCounts, FloatCounts;
  }

  lemma SummaryShows(cast: Cast, st: Series, d: DataPoint)
    requires st.mtype.Summary? && Yields(cast, st, Some(d))
    ensures d.SummaryPoint? && st.count.Some?
    ensures d.noRecordedValue <==> st.sum == Some(StaleNaN) || st.count == Some(StaleNaN)
    ensures !d.noRecordedValue ==> d.sum == st.sum && d.count == cast(st.count.value)
    ensures d.noRecordedValue ==> d.sum == None && d.count == 0
    ensures d.ts == st.ts && d.start == if st.created == Number(0) then None else Some(st.created)
    ensures d.attributes == Attributes(MetricNames.Summary, st.ls)
  {
    hide Attributes, IsSorting, Quantiles;
  }

  lemma NumberShows(cast: Cast, st: Series, d: DataPoint)
    requires (st.mtype.Sum? || st.mtype.Gauge? || st.mtype.Empty?) && Yields(cast, st, Some(d))
    ensures d.NumberPoint? && st.value.Some?
    ensures d.noRecordedValue <==> st.value == Some(StaleNaN)
    ensures d.value == if d.noRecordedValue then None else st.value
    ensures d.ts == st.ts
    ensures d.start == if st.mtype.Sum? && st.created != Number(0) then Some(st.created) else None
    ensures d.attributes == Attributes(MetricNames.Gauge, st.ls)
  {
    hide Attributes;
  }

  /** The quantiles of a summary: those of the samples, in increasing order. */
  lemma QuantilesShown(cast: Cast, st: Series, d: DataPoint)
    requires st.mtype.Summary? && Yields(cast, st, Some(d)) && d.SummaryPoint? && DistinctBounds(st.points)
    ensures forall i, j :: 0 <= i < j < |d.quantiles| ==> Below(d.quantiles[i].bound, d.quantiles[j].bound)
    ensures !d.noRecordedValue ==> forall p :: p in d.quantiles <==> p in st.points
    ensures d.noRecordedValue ==> forall q :: q in d.quantiles ==> q.value == Number(0)
    ensures d.noRecordedValue ==> forall p :: p in st.points ==> Point(Number(0), p.bound) in d.quantiles
  {
    var sorted :| IsSorting(st.points, sorted) && d == SummaryOf(cast, st.(points := sorted));
    SortingIncreases(st.points, sorted);
    IncreasingDistinct(sorted);
    SummaryShape(cast, st.(points := sorted));
    hide Attributes, IsSorting, Quantiles, SortedPoints, DistinctBounds, Below;
    if d.noRecordedValue {
      forall p | p in st.points ensures Point(Number(0), p.bound) in d.quantiles {
        assert p in sorted && Point(Number(0), p.bound) == Quantile(true, p);
      }
    } else {
      forall p ensures p in d.quantiles <==> p in st.points {
        assert p == Quantile(false, p);
      }
    }
  }

  lemma IncreasingDistinct(ps: seq<Point>)
    requires Increasing(ps)
    ensures DistinctBounds(ps)
  {
    forall i, j | 0 <= i < j < |ps| ensures ps[i].bound != ps[j].bound {
      assert Below(ps[i].bound, ps[j].bound);
    }
  }

  /******* Classic buckets *******/

  /** The sorted buckets behind the point of a classic histogram. */
  lemma SortedBehind(cast: Cast, st: Series, d: DataPoint) returns (sorted: seq<Point>)
    requires st.mtype.Histogram? && !st.native.isNHCB && DistinctBounds(st.points) && Yields(cast, st, Some(d))
    ensures st.count.Some? && d == PointOf(cast, st.(points := sorted))
    ensures Increasing(sorted) && SortedPoints(sorted) && DistinctBounds(sorted)
    ensures forall p :: p in sorted <==> p in st.points
  {
    sorted :| IsSorting(st.points, sorted) && d == PointOf(cast, st.(points := sorted));
    SortingIncreases(st.points, sorted);
    IncreasingDistinct(sorted);
  }

  /** One bound for each sample of a bucket but that of +Inf, in increasing order, and one more count. */
  lemma ClassicShape(cast: Cast, st: Series, d: DataPoint)
    requires st.mtype.Histogram? && !st.native.isNHCB && DistinctBounds(st.points) && Yields(cast, st, Some(d))
    ensures d.HistogramPoint? && |d.counts| == |d.bounds| + 1
    ensures forall i, j :: 0 <= i < j < |d.bounds| ==> Below(d.bounds[i], d.bounds[j])
    ensures forall b :: b in d.bounds <==> b != PosInf && exists v :: Point(v, b) in st.points
    ensures d.noRecordedValue ==> forall i :: 0 <= i < |d.counts| ==> d.counts[i] == 0
  {
    hide Yields, Increasing, SortedPoints, DistinctBounds, Below, Kept, Levels, Rises;
    var sorted := SortedBehind(cast, st, d);
    PointShape(cast, st.(points := sorted));
    forall b ensures b in d.bounds <==> b != PosInf && exists v :: Point(v, b) in st.points {
      if v :| Point(v, b) in st.points {
        assert Point(v, b) in sorted;
      }
      if p :| p in sorted && p.bound == b {
        assert Point(p.value, b) in st.points;
      }
    }
  }

  /** The cumulative values are counts: not negative, within the count of all, and never falling. */
  ghost predicate Cumulative(points: seq<Point>, count: int)
    requires forall p :: p in points && p.bound != PosInf ==> p.value.Number?
  {
    && 0 <= count
    && (forall p :: p in points && p.bound != PosInf ==> 0 <= p.value.n <= count)
    && (forall p, q :: p in points && q in points && q.bound != PosInf && Below(p.bound, q.bound) ==>
          p.value.n <= q.value.n)
  }

  lemma {:induction false} NeverFalls(levels: seq<Float>, i: nat, j: nat)
    requires Numbers(levels) && Monotone(levels) && i <= j < |levels|
    ensures levels[i].n <= levels[j].n
  {
    if i < j {
      NeverFalls(levels, i, j - 1);
      assert Before(levels, j) <= levels[j].n;
    }
  }

  lemma LevelAt(kept: seq<Point>, count: Float, i: nat)
    requires i <= |kept|
    ensures |Levels(kept, count)| == |kept| + 1
    ensures Levels(kept, count)[i] == if i < |kept| then kept[i].value else count
  {
  }

  ghost predicate FiniteOnes(points: seq<Point>, kept: seq<Point>) {
    Increasing(kept) && forall p :: p in kept <==> p in points && p.bound != PosInf
  }

  lemma MonotoneIsCumulative(points: seq<Point>, kept: seq<Point>, count: Float)
    requires FiniteOnes(points, kept) && count.Number?
    requires forall p :: p in points && p.bound != PosInf ==> p.value.Number?
    ensures Numbers(Levels(kept, count)) && (Monotone(Levels(kept, count)) <==> Cumulative(points, count.n))
  {
    var levels := Levels(kept, count);
    forall i | 0 <= i <= |kept| ensures |levels| == |kept| + 1 && levels[i].Number? {
      LevelAt(kept, count, i);
      assert i < |kept| ==> kept[i] in kept;
    }
    LevelAt(kept, count, |kept|);
    if Monotone(levels) {
      MonotoneCumulates(points, kept, count);
    }
    if Cumulative(points, count.n) {
      CumulativeRises(points, kept, count);
    }
  }

  lemma MonotoneCumulates(points: seq<Point>, kept: seq<Point>, count: Float)
    requires FiniteOnes(points, kept) && count.Number?
    requires forall p :: p in points && p.bound != PosInf ==> p.value.Number?
    requires Numbers(Levels(kept, count)) && Monotone(Levels(kept, count))
    ensures Cumulative(points, count.n)
  {
    var levels := Levels(kept, count);
    hide Levels, Below, Monotone;
    LevelAt(kept, count, |kept|);
    LevelsWithin(levels, |kept|);
    forall p | p in points && p.bound != PosInf ensures 0 <= p.value.n <= count.n {
      var i :| 0 <= i < |kept| && kept[i] == p;
      LevelAt(kept, count, i);
      LevelsWithin(levels, i);
    }
    forall p, q | p in points && q in points && q.bound != PosInf && Below(p.bound, q.bound)
      ensures p.bound != PosInf && p.value.n <= q.value.n
    {
      BelowOrders(p.bound, q.bound, q.bound);
      assert p.bound != PosInf by { NothingAboveInfinity(q.bound); }
      var i :| 0 <= i < |kept| && kept[i] == p;
      var j :| 0 <= j < |kept| && kept[j] == q;
      LevelAt(kept, count, i);
      LevelAt(kept, count, j);
      NeverFalls(levels, i, j);
    }
  }

  lemma NothingAboveInfinity(b: Bound)
    ensures !Below(PosInf, b)
  {
  }

  lemma CumulativeRises(points: seq<Point>, kept: seq<Point>, count: Float)
    requires FiniteOnes(points, kept) && count.Number?
    requires forall p :: p in points && p.bound != PosInf ==> p.value.Number?
    requires Numbers(Levels(kept, count)) && Cumulative(points, count.n)
    ensures Monotone(Levels(kept, count))
  {
    var levels := Levels(kept, count);
    hide Levels, Below;
    LevelAt(kept, count, |kept|);
    forall i | 0 <= i < |levels| ensures Before(levels, i) <= levels[i].n {
      LevelAt(kept, count, i);
      assert i < |kept| ==> kept[i] in kept;
      if i > 0 {
        LevelAt(kept, count, i - 1);
        assert kept[i - 1] in kept;
        assert i < |kept| ==> Below(kept[i - 1].bound, kept[i].bound);
      }
    }
  }

  lemma KeptFiniteOnes(points: seq<Point>, sorted: seq<Point>)
    requires Increasing(sorted) && forall p :: p in sorted <==> p in points
    ensures FiniteOnes(points, Kept(sorted))
  {
    IncreasingDistinct(sorted);
    assert SortedPoints(sorted) by {
      forall i, j | 0 <= i < j < |sorted| ensures !Below(sorted[j].bound, sorted[i].bound) {
        BelowOrders(sorted[i].bound, sorted[j].bound, sorted[i].bound);
      }
    }
    var kept := Kept(sorted);
    hide Below;
    forall p ensures p in kept <==> p in points && p.bound != PosInf {
      KeptAll(sorted, p);
      if p in kept {
        var i :| 0 <= i < |kept| && kept[i] == p;
        KeptFinite(sorted, i);
      }
    }
  }

  /** The buckets up to each bound add up to its cumulative value, and all of them to the count, exactly if
      the cumulative values can be told apart into counts at all. */
  lemma ClassicCountsExactly(cast: Cast, st: Series, d: DataPoint)
    requires st.mtype.Histogram? && !st.native.isNHCB && DistinctBounds(st.points) && Yields(cast, st, Some(d))
    requires IsCast(cast) && d.HistogramPoint? && !d.noRecordedValue && |d.counts| == |d.bounds| + 1
    requires st.count.Some? && st.count.value.Number? && st.count.value.n < 0x1_0000_0000_0000_0000
    requires forall p :: p in st.points && p.bound != PosInf ==> p.value.Number?
    ensures
      && Buckets.Total(d.counts) == st.count.value.n
      && (forall i, p :: 0 <= i < |d.bounds| && p in st.points && p.bound == d.bounds[i] ==>
            p.bound != PosInf && Buckets.Total(d.counts[..i + 1]) == p.value.n)
      <==> Cumulative(st.points, st.count.value.n)
  {
    var count := st.count.value;
    hide Yields, Increasing, SortedPoints, Below, Kept, Levels, Cumulative, Numbers, Monotone, Buckets.Total;
    var sorted := SortedBehind(cast, st, d);
    KeptFiniteOnes(st.points, sorted);
    var kept := Kept(sorted);
    MonotoneIsCumulative(st.points, kept, count);
    PerBucketExact(cast, st.(points := sorted));
    PointParts(cast, st.(points := sorted));
    ReproducesPlainly(st.points, kept, count, d.counts);
  }

  lemma ReproducesPlainly(points: seq<Point>, kept: seq<Point>, count: Float, counts: seq<int>)
    requires FiniteOnes(points, kept) && DistinctBounds(points) && |counts| == |kept| + 1 && count.Number?
    requires forall p :: p in points && p.bound != PosInf ==> p.value.Number?
    requires Numbers(Levels(kept, count)) && |Levels(kept, count)| == |counts|
    ensures Reproduces(counts, Levels(kept, count)) <==>
      && Buckets.Total(counts) == count.n
      && (forall i, p :: 0 <= i < |Bounds(kept)| && p in points && p.bound == Bounds(kept)[i] ==>
            p.bound != PosInf && Buckets.Total(counts[..i + 1]) == p.value.n)
  {
    hide Levels, Increasing, Numbers, Buckets.Total;
    var levels := Levels(kept, count);
    LevelAt(kept, count, |kept|);
    assert counts[..|kept| + 1] == counts;
    forall i | 0 <= i < |kept|
      ensures levels[i] == kept[i].value && kept[i] in points && kept[i].bound != PosInf
      ensures forall p :: p in points && p.bound == kept[i].bound ==> p == kept[i]
    {
      LevelAt(kept, count, i);
      assert kept[i] in kept;
      forall p | p in points && p.bound == kept[i].bound ensures p == kept[i] {
        if p != kept[i] {
          OwnBounds(points, p, kept[i]);
        }
      }
    }
    if Reproduces(counts, levels) {
      forall i, p | 0 <= i < |Bounds(kept)| && p in points && p.bound == Bounds(kept)[i]
        ensures p.bound != PosInf && Buckets.Total(counts[..i + 1]) == p.value.n
      {
        assert Buckets.Total(counts[..i + 1]) == levels[i].n;
      }
      assert Buckets.Total(counts[..|kept| + 1]) == levels[|kept|].n;
    } else {
      var i :| 0 <= i < |levels| && Buckets.Total(counts[..i + 1]) != levels[i].n;
      assert i < |kept| ==> Bounds(kept)[i] == kept[i].bound;
    }
  }

  /******* From the samples to the point *******/

  ghost predicate Sorted(samples: set<Sample>) {
    forall s :: s in samples ==> SortedLabels(s.ls)
  }

  /** The group that a series ends with, whatever the order of arrival. */
  lemma ArrivedTells(r: Reading, samples: set<Sample>, key: Labels, order: seq<Sample>)
    requires Visits(order, samples) && NoClash(r, samples, key) && key in ReceiveAll(r, order)
    ensures Tells(r, samples, key, ReceiveAll(r, order)[key]) && HasSeries(r, samples, key)
  {
    ToldAll(r, samples, key, order);
    hide Tells, HasSeries, ReceiveAll;
  }

  lemma HeardFrom(r: Reading, samples: set<Sample>, key: Labels, s: Sample)
    requires s in samples && Key(r, s) == key
    ensures Heard(r, samples, key, Says(r, s), s.v)
  {
  }

  /** The sum, count and creation time of the group are those of the samples that are named so. */
  lemma GroupHolds(r: Reading, samples: set<Sample>, key: Labels, st: Series)
    requires (r.mtype.Histogram? || r.mtype.Summary?) && Sorted(samples) && Tells(r, samples, key, st)
    ensures forall s :: s in samples && Key(r, s) == key ==>
      && st.ts == s.ts
      && (HasSuffix(s.name, "_sum") ==> st.sum == Some(s.v))
      && (HasSuffix(s.name, "_count") ==> st.count == Some(s.v))
      && (s.name == r.family + "_created" ==> st.created == s.v)
    ensures st.sum.Some? ==> exists s :: s in samples && Key(r, s) == key && HasSuffix(s.name, "_sum")
    ensures st.count.Some? ==> exists s :: s in samples && Key(r, s) == key && HasSuffix(s.name, "_count")
    ensures st.created != Number(0) ==> exists s :: s in samples && Key(r, s) == key && s.name == r.family + "_created"
  {
    hide Key, HasSuffix, DistinctBounds, SortedLabels, KindOf;
    forall s | s in samples
      ensures Says(r, s) == SumKind <==> HasSuffix(s.name, "_sum")
      ensures Says(r, s) == CountKind <==> HasSuffix(s.name, "_count")
      ensures Says(r, s) == CreatedKind <==> s.name == r.family + "_created"
    {
      DistributionSays(r.mtype, r.family, r.parse, s);
    }
    forall s | s in samples && Key(r, s) == key ensures Heard(r, samples, key, Says(r, s), s.v) {
      HeardFrom(r, samples, key, s);
    }
    hide Says;
    if st.sum.Some? {
      assert Heard(r, samples, key, SumKind, st.sum.value);
    }
    if st.count.Some? {
      assert Heard(r, samples, key, CountKind, st.count.value);
    }
  }

  /** Whatever the order of arrival: the sum, the count, the start and the timestamp of the point of a
      histogram or a summary are what the samples with these names say. */
  lemma SamplesShow(cast: Cast, r: Reading, samples: set<Sample>, key: Labels, order: seq<Sample>, d: DataPoint)
    requires (r.mtype.Histogram? || r.mtype.Summary?) && Sorted(samples)
    requires Visits(order, samples) && NoClash(r, samples, key) && key in ReceiveAll(r, order)
    requires Yields(cast, ReceiveAll(r, order)[key], Some(d))
    ensures if r.mtype.Histogram? then d.HistogramPoint? else d.SummaryPoint?
    ensures forall s :: s in samples && Key(r, s) == key ==>
      && d.ts == s.ts
      && (HasSuffix(s.name, "_sum") && !d.noRecordedValue ==> d.sum == Some(s.v))
      && (HasSuffix(s.name, "_count") && !d.noRecordedValue ==> d.count == cast(s.v))
      && (s.name == r.family + "_created" ==> d.start == if s.v == Number(0) then None else Some(s.v))
    ensures d.sum.Some? ==> exists s :: s in samples && Key(r, s) == key && HasSuffix(s.name, "_sum")
    ensures exists s :: s in samples && Key(r, s) == key && HasSuffix(s.name, "_count")
    ensures d.start.Some? ==> exists s :: s in samples && Key(r, s) == key && s.name == r.family + "_created"
    ensures d.noRecordedValue <==>
      exists s :: s in samples && Key(r, s) == key && s.v == StaleNaN
        && (HasSuffix(s.name, "_sum") || HasSuffix(s.name, "_count"))
  {
    hide Key, HasSuffix, Yields, ReceiveAll, Visits, NoClash, Sorted;
    ArrivedTells(r, samples, key, order);
    var st := ReceiveAll(r, order)[key];
    GroupHolds(r, samples, key, st);
    assert st.mtype == r.mtype;
    hide Tells;
    if r.mtype.Histogram? {
      HistogramShows(cast, st, d);
    } else {
      SummaryShows(cast, st, d);
    }
  }

  /** A sample of a bucket or a quantile: no sum, count or creation time, and its label is a bound. */
  ghost predicate HasBound(r: Reading, tag: string, s: Sample, b: Bound) {
    && !HasSuffix(s.name, "_sum") && !HasSuffix(s.name, "_count") && s.name != r.family + "_created"
    && exists text :: text != "" && Label(tag, text) in s.ls && r.parse(text) == Some(b)
  }

  lemma PointsHeld(r: Reading, samples: set<Sample>, key: Labels, st: Series, tag: string)
    requires Sorted(samples) && Tells(r, samples, key, st)
    requires (r.mtype.Histogram? && tag == "le") || (r.mtype.Summary? && tag == "quantile")
    ensures forall s, b :: s in samples && Key(r, s) == key && HasBound(r, tag, s, b) ==> Point(s.v, b) in st.points
    ensures forall v, b :: Point(v, b) in st.points ==>
      exists s :: s in samples && Key(r, s) == key && HasBound(r, tag, s, b) && s.v == v
  {
    hide Key, HasSuffix, DistinctBounds, SortedLabels, KindOf;
    forall s, b | s in samples ensures Says(r, s) == BucketKind(b) <==> HasBound(r, tag, s, b) {
      DistributionSays(r.mtype, r.family, r.parse, s);
    }
    hide Says, HasBound;
    forall s, b | s in samples && Key(r, s) == key && HasBound(r, tag, s, b) ensures Point(s.v, b) in st.points {
      assert Heard(r, samples, key, BucketKind(b), s.v);
    }
    forall v, b | Point(v, b) in st.points
      ensures exists s :: s in samples && Key(r, s) == key && HasBound(r, tag, s, b) && s.v == v
    {
      assert Heard(r, samples, key, BucketKind(b), v);
      var s :| s in samples && Key(r, s) == key && Says(r, s) == BucketKind(b) && s.v == v;
      assert HasBound(r, tag, s, b);
    }
  }

  /** The bounds of a histogram are those its samples name with "le", but +Inf, in increasing order. */
  lemma BoundsFromSamples(cast: Cast, r: Reading, samples: set<Sample>, key: Labels, order: seq<Sample>, d: DataPoint)
    requires r.mtype.Histogram? && Sorted(samples)
    requires Visits(order, samples) && NoClash(r, samples, key) && key in ReceiveAll(r, order)
    requires Yields(cast, ReceiveAll(r, order)[key], Some(d))
    ensures d.HistogramPoint? && |d.counts| == |d.bounds| + 1
    ensures IncreasingReals(d.bounds)
    ensures forall b :: b in d.bounds <==>
      b != PosInf && exists s :: s in samples && Key(r, s) == key && HasBound(r, "le", s, b)
  {
    hide Key, HasSuffix, Yields, ReceiveAll, Visits, NoClash, Sorted, Below;
    ArrivedTells(r, samples, key, order);
    var st := ReceiveAll(r, order)[key];
    PointsHeld(r, samples, key, st, "le");
    assert st.mtype == r.mtype && !st.native.isNHCB && DistinctBounds(st.points);
    hide Tells, DistinctBounds, HasBound;
    ClassicShape(cast, st, d);
    AreIncreasingReals(d.bounds);
    forall b
      ensures b in d.bounds <==>
        b != PosInf && exists s :: s in samples && Key(r, s) == key && HasBound(r, "le", s, b)
    {
      if s :| s in samples && Key(r, s) == key && HasBound(r, "le", s, b) {
        assert Point(s.v, b) in st.points;
      }
    }
  }

  /** Numbers that increase, between infinities if at all. */
  ghost predicate IncreasingReals(bounds: seq<Bound>) {
    forall i, j :: 0 <= i < j < |bounds| ==> RealsRise(bounds[i], bounds[j])
  }

  ghost predicate RealsRise(a: Bound, b: Bound) {
    a != PosInf && b != NegInf && (a.Finite? && b.Finite? ==> a.x < b.x)
  }

  lemma BelowMeans(a: Bound, b: Bound)
    ensures Below(a, b) ==> RealsRise(a, b)
  {
  }

  lemma AreIncreasingReals(bounds: seq<Bound>)
    requires forall i, j :: 0 <= i < j < |bounds| ==> Below(bounds[i], bounds[j])
    ensures IncreasingReals(bounds)
  {
    forall i, j | 0 <= i < j < |bounds| ensures RealsRise(bounds[i], bounds[j]) {
      BelowMeans(bounds[i], bounds[j]);
    }
  }

  /** The samples of the series count: never negative, within `count`, and not falling with the bounds. */
  ghost predicate SamplesCount(r: Reading, samples: set<Sample>, key: Labels, count: int) {
    && 0 <= count
    && (forall s, b :: s in samples && Key(r, s) == key && HasBound(r, "le", s, b) && b != PosInf ==>
          s.v.Number? && 0 <= s.v.n <= count)
    && (forall s, t, a, b ::
          && s in samples && Key(r, s) == key && HasBound(r, "le", s, a)
          && t in samples && Key(r, t) == key && HasBound(r, "le", t, b) && b != PosInf && Below(a, b) ==>
          s.v.Number? && t.v.Number? && s.v.n <= t.v.n)
  }

  /** If they do, the buckets of the point up to each bound add up to what the sample with this "le" says,
      and all of them to what the sample "_count" says. */
  lemma CountsFromSamples(cast: Cast, r: Reading, samples: set<Sample>, key: Labels, order: seq<Sample>, d: DataPoint,
                          all: Sample)
    requires r.mtype.Histogram? && Sorted(samples) && IsCast(cast)
    requires Visits(order, samples) && NoClash(r, samples, key) && key in ReceiveAll(r, order)
    requires Yields(cast, ReceiveAll(r, order)[key], Some(d)) && !d.noRecordedValue
    requires all in samples && Key(r, all) == key && HasSuffix(all.name, "_count")
    requires all.v.Number? && all.v.n < 0x1_0000_0000_0000_0000 && SamplesCount(r, samples, key, all.v.n)
    ensures d.HistogramPoint? && Buckets.Total(d.counts) == d.count == all.v.n && |d.counts| == |d.bounds| + 1
    ensures forall i, s ::
      0 <= i < |d.bounds| && s in samples && Key(r, s) == key && HasBound(r, "le", s, d.bounds[i]) ==>
        s.v == Number(Buckets.Total(d.counts[..i + 1]))
  {
    hide Key, HasSuffix, Yields, ReceiveAll, Visits, NoClash, Sorted, Below, Buckets.Total;
    BoundsFromSamples(cast, r, samples, key, order, d);
    ArrivedTells(r, samples, key, order);
    var st := ReceiveAll(r, order)[key];
    GroupHolds(r, samples, key, st);
    PointsHeld(r, samples, key, st, "le");
    assert st.mtype == r.mtype && !st.native.isNHCB && DistinctBounds(st.points);
    hide Tells, DistinctBounds, HasBound;
    HistogramShows(cast, st, d);
    SamplesCumulate(r, samples, key, st, all.v.n);
    ClassicCountsExactly(cast, st, d);
    forall i, s | 0 <= i < |d.bounds| && s in samples && Key(r, s) == key && HasBound(r, "le", s, d.bounds[i])
      ensures s.v == Number(Buckets.Total(d.counts[..i + 1]))
    {
      assert Point(s.v, d.bounds[i]) in st.points;
    }
  }

  lemma SamplesCumulate(r: Reading, samples: set<Sample>, key: Labels, st: Series, count: int)
    requires SamplesCount(r, samples, key, count)
    requires forall v, b :: Point(v, b) in st.points ==>
      exists s :: s in samples && Key(r, s) == key && HasBound(r, "le", s, b) && s.v == v
    ensures forall p :: p in st.points && p.bound != PosInf ==> p.value.Number?
    ensures Cumulative(st.points, count)
  {
    hide Key, HasBound, Below;
    forall p | p in st.points && p.bound != PosInf ensures p.value.Number? && 0 <= p.value.n <= count {
      assert Point(p.value, p.bound) in st.points;
    }
    forall p, q | p in st.points && q in st.points && q.bound != PosInf && Below(p.bound, q.bound)
      ensures p.bound != PosInf ==> p.value.n <= q.value.n
    {
      assert Point(p.value, p.bound) in st.points && Point(q.value, q.bound) in st.points;
    }
    forall b ensures !Below(PosInf, b) {
      NothingAboveInfinity(b);
    }
  }

  /** The quantiles of a summary are those its samples name with "quantile", with their values. */
  lemma QuantilesFromSamples(cast: Cast, r: Reading, samples: set<Sample>, key: Labels, order: seq<Sample>,
                             d: DataPoint)
    requires r.mtype.Summary? && Sorted(samples)
    requires Visits(order, samples) && NoClash(r, samples, key) && key in ReceiveAll(r, order)
    requires Yields(cast, ReceiveAll(r, order)[key], Some(d)) && !d.noRecordedValue
    ensures d.SummaryPoint?
    ensures IncreasingReals(Bounds(d.quantiles))
    ensures forall v, b :: Point(v, b) in d.quantiles <==>
      exists s :: s in samples && Key(r, s) == key && HasBound(r, "quantile", s, b) && s.v == v
  {
    hide Key, HasSuffix, Yields, ReceiveAll, Visits, NoClash, Sorted, Below;
    ArrivedTells(r, samples, key, order);
    var st := ReceiveAll(r, order)[key];
    PointsHeld(r, samples, key, st, "quantile");
    assert st.mtype == r.mtype && DistinctBounds(st.points);
    hide Tells, DistinctBounds, HasBound;
    SummaryShows(cast, st, d);
    QuantilesShown(cast, st, d);
    var bounds := Bounds(d.quantiles);
    forall i, j | 0 <= i < j < |bounds| ensures Below(bounds[i], bounds[j]) {
      assert bounds[i] == d.quantiles[i].bound && bounds[j] == d.quantiles[j].bound;
    }
    AreIncreasingReals(bounds);
  }

  /** The point of a counter or a gauge shows the value of its sample, a counter also its creation time. */
  lemma ValueFromSamples(cast: Cast, r: Reading, samples: set<Sample>, key: Labels, order: seq<Sample>, d: DataPoint)
    requires r.mtype.Sum? || r.mtype.Gauge? || r.mtype.Empty?
    requires Visits(order, samples) && NoClash(r, samples, key) && key in ReceiveAll(r, order)
    requires Yields(cast, ReceiveAll(r, order)[key], Some(d))
    ensures d.NumberPoint?
    ensures forall s :: s in samples && Key(r, s) == key ==>
      && d.ts == s.ts
      && (r.mtype.Sum? && s.name == r.family + "_created" ==>
            d.start == if s.v == Number(0) then None else Some(s.v))
      && (!(r.mtype.Sum? && s.name == r.family + "_created") ==>
            (d.noRecordedValue <==> s.v == StaleNaN) && (!d.noRecordedValue ==> d.value == Some(s.v)))
    ensures d.start.Some? ==>
      r.mtype.Sum? && exists s :: s in samples && Key(r, s) == key && s.name == r.family + "_created"
  {
    hide Key, Yields, ReceiveAll, Visits, NoClash, KindOf;
    ArrivedTells(r, samples, key, order);
    var st := ReceiveAll(r, order)[key];
    hide DistinctBounds;
    NumberShows(cast, st, d);
    forall s | s in samples
      ensures Says(r, s) == CreatedKind <==> r.mtype.Sum? && s.name == r.family + "_created"
      ensures Says(r, s) == ValueKind <==> !(r.mtype.Sum? && s.name == r.family + "_created")
    {
      NumberSays(r.mtype, r.family, r.parse, s);
    }
    forall s | s in samples && Key(r, s) == key ensures Heard(r, samples, key, Says(r, s), s.v) {
      HeardFrom(r, samples, key, s);
    }
    hide Says;
  }
}
