/** The samples of a family may arrive in any order: each series gets the same data point. */
module Arrivals {
  import opened GoMaps
  import opened Options
  import opened SampleLabels
  import opened Histograms
  import opened HistogramPoints
  import opened MetricFamilies
  import MetricNames

  function Key(r: Reading, s: Sample): Labels {
    SeriesKey(r.mtype, s.ls)
  }

  function Says(r: Reading, s: Sample): Kind {
    KindOf(r.mtype, r.family, r.parse, s)
  }

  /** A sample that is not taken, or taken and not used. */
  predicate Silent(kind: Kind) {
    kind == Malformed || kind == Ignored
  }

  ghost predicate SayDifferent(r: Reading, key: Labels, s: Sample, t: Sample) {
    Key(r, s) == key && Key(r, t) == key && Says(r, s) == Says(r, t) ==> s == t || Silent(Says(r, s))
  }

  /** The samples of a series say different things: one sum, one count, one creation time and buckets
      with distinct bounds, or one value. */
  ghost predicate DistinctKinds(r: Reading, samples: set<Sample>, key: Labels) {
    forall s, t :: s in samples && t in samples ==> SayDifferent(r, key, s, t)
  }

  ghost predicate SameTimestamps(r: Reading, samples: set<Sample>, key: Labels) {
    forall s, t :: s in samples && t in samples && Key(r, s) == key && Key(r, t) == key ==> s.ts == t.ts
  }

  ghost predicate NoClash(r: Reading, samples: set<Sample>, key: Labels) {
    DistinctKinds(r, samples, key) && SameTimestamps(r, samples, key)
  }

  /** Some sample of the series says `kind` with value `v`. */
  ghost predicate Heard(r: Reading, samples: set<Sample>, key: Labels, kind: Kind, v: Float) {
    exists s :: s in samples && Key(r, s) == key && Says(r, s) == kind && s.v == v
  }

  ghost predicate HasSeries(r: Reading, samples: set<Sample>, key: Labels) {
    exists s :: s in samples && Key(r, s) == key
  }

  /** The group holds what the samples of its series say, and nothing else. */
  ghost predicate Tells(r: Reading, samples: set<Sample>, key: Labels, st: Series) {
    && SeriesKey(r.mtype, st.ls) == key && st.mtype == r.mtype && st.native == NO_NATIVE
    && (forall s :: s in samples && Key(r, s) == key ==> s.ts == st.ts)
    && (forall v :: Heard(r, samples, key, SumKind, v) <==> st.sum == Some(v))
    && (forall v :: Heard(r, samples, key, CountKind, v) <==> st.count == Some(v))
    && (forall v :: Heard(r, samples, key, ValueKind, v) <==> st.value == Some(v))
    && (forall v :: Heard(r, samples, key, CreatedKind, v) ==> st.created == v)
    && (st.created == Number(0) || Heard(r, samples, key, CreatedKind, st.created))
    && (forall v, b :: Heard(r, samples, key, BucketKind(b), v) <==> Point(v, b) in st.points)
    && DistinctBounds(st.points)
  }

  lemma HeardStep(r: Reading, samples: set<Sample>, s: Sample, key: Labels, kind: Kind, v: Float)
    ensures Heard(r, samples + {s}, key, kind, v) <==>
      Heard(r, samples, key, kind, v) || (Key(r, s) == key && Says(r, s) == kind && s.v == v)
  {
    hide Says, Key;
    if Heard(r, samples, key, kind, v) {
      var t :| t in samples && Key(r, t) == key && Says(r, t) == kind && t.v == v;
      assert t in samples + {s};
    }
    if Key(r, s) == key && Says(r, s) == kind && s.v == v {
      assert s in samples + {s};
    }
  }

  /** What a new sample says has not been said before. */
  lemma NewsIsNew(r: Reading, samples: set<Sample>, s: Sample, v: Float)
    requires DistinctKinds(r, samples + {s}, Key(r, s)) && s !in samples && !Silent(Says(r, s))
    ensures !Heard(r, samples, Key(r, s), Says(r, s), v)
  {
    hide Says, Key;
    forall t | t in samples ensures !(Key(r, t) == Key(r, s) && Says(r, t) == Says(r, s)) {
      assert SayDifferent(r, Key(r, s), s, t);
    }
  }

  lemma TellsStep(r: Reading, samples: set<Sample>, s: Sample, st: Series)
    requires Tells(r, samples, Key(r, s), st) && s.ts == st.ts
    requires DistinctKinds(r, samples + {s}, Key(r, s)) && s !in samples
    ensures Tells(r, samples + {s}, Key(r, s), Collect(r.family, r.parse, st, s))
  {
    hide Tells, Says, Key, Collect, Heard, DistinctKinds;
    var key := Key(r, s);
    forall kind, v
      ensures Heard(r, samples + {s}, key, kind, v) <==>
        Heard(r, samples, key, kind, v) || (Says(r, s) == kind && s.v == v)
    {
      HeardStep(r, samples, s, key, kind, v);
    }
    if !Silent(Says(r, s)) {
      forall v ensures !Heard(r, samples, key, Says(r, s), v) {
        NewsIsNew(r, samples, s, v);
      }
    }
    TellsMore(r, samples, s, st);
  }

  lemma TellsMore(r: Reading, samples: set<Sample>, s: Sample, st: Series)
    requires Tells(r, samples, Key(r, s), st) && s.ts == st.ts
    requires forall kind, v ::
      Heard(r, samples + {s}, Key(r, s), kind, v) <==>
      Heard(r, samples, Key(r, s), kind, v) || (Says(r, s) == kind && s.v == v)
    requires !Silent(Says(r, s)) ==> forall v :: !Heard(r, samples, Key(r, s), Says(r, s), v)
    ensures Tells(r, samples + {s}, Key(r, s), Collect(r.family, r.parse, st, s))
  {
    hide Heard, KindOf, SeriesKey, DistinctBounds;
    assert Says(r, s) == KindOf(st.mtype, r.family, r.parse, s);
    if Says(r, s).BucketKind? {
      NewBound(r, samples, s, st);
    }
  }

  lemma NewBound(r: Reading, samples: set<Sample>, s: Sample, st: Series)
    requires Tells(r, samples, Key(r, s), st) && Says(r, s).BucketKind?
    requires forall v :: !Heard(r, samples, Key(r, s), Says(r, s), v)
    ensures var news := Point(s.v, Says(r, s).bound);
      && DistinctBounds(st.points + [news])
      && forall p :: p in st.points + [news] <==> p in st.points || p == news
  {
    hide Heard, Says, Key, SeriesKey;
    var b := Says(r, s).bound;
    forall i | 0 <= i < |st.points| ensures st.points[i].bound != b {
      var p := st.points[i];
      assert Point(p.value, p.bound) in st.points;
      assert Heard(r, samples, Key(r, s), BucketKind(p.bound), p.value);
    }
  }

  lemma TellsNothing(r: Reading, samples: set<Sample>, s: Sample)
    requires !HasSeries(r, samples, Key(r, s))
    ensures Tells(r, samples, Key(r, s), EmptySeries(r.mtype, s.ls, s.ts))
  {
    hide Says;
  }

  /** A sample of another series. */
  lemma TellsOther(r: Reading, samples: set<Sample>, s: Sample, key: Labels, st: Series)
    requires Tells(r, samples, key, st) && Key(r, s) != key
    ensures Tells(r, samples + {s}, key, st)
  {
    forall kind, v ensures Heard(r, samples + {s}, key, kind, v) <==> Heard(r, samples, key, kind, v) {
      HeardStep(r, samples, s, key, kind, v);
    }
    hide Heard, Says, Key, SeriesKey;
  }

  ghost predicate Told(r: Reading, samples: set<Sample>, key: Labels, groups: Groups) {
    && (key in groups <==> HasSeries(r, samples, key))
    && (key in groups ==> Tells(r, samples, key, groups[key]))
  }

  lemma ToldStep(r: Reading, samples: set<Sample>, s: Sample, key: Labels, groups: Groups)
    requires Told(r, samples, key, groups) && NoClash(r, samples + {s}, key) && s !in samples
    ensures Told(r, samples + {s}, key, Receive(r, groups, s))
  {
    SeriesStep(r, samples, s, key);
    if key == Key(r, s) {
      if key in groups {
        SameTimestamp(r, samples, s, groups[key]);
        TellsStep(r, samples, s, groups[key]);
      } else {
        TellsNothing(r, samples, s);
        TellsStep(r, samples, s, EmptySeries(r.mtype, s.ls, s.ts));
      }
    } else if key in groups {
      TellsOther(r, samples, s, key, groups[key]);
    }
  }

  lemma SeriesStep(r: Reading, samples: set<Sample>, s: Sample, key: Labels)
    ensures HasSeries(r, samples + {s}, key) <==> HasSeries(r, samples, key) || Key(r, s) == key
  {
    hide Key;
    if HasSeries(r, samples, key) {
      var t :| t in samples && Key(r, t) == key;
      assert t in samples + {s};
    }
    if Key(r, s) == key {
      assert s in samples + {s};
    }
  }

  lemma SameTimestamp(r: Reading, samples: set<Sample>, s: Sample, st: Series)
    requires HasSeries(r, samples, Key(r, s)) && Tells(r, samples, Key(r, s), st)
    requires SameTimestamps(r, samples + {s}, Key(r, s))
    ensures s.ts == st.ts
  {
    hide Key, Says, Heard;
    var t :| t in samples && Key(r, t) == Key(r, s);
    assert t in samples + {s} && s in samples + {s};
  }

  lemma {:induction false} ToldSoFar(r: Reading, samples: set<Sample>, key: Labels, order: seq<Sample>, i: nat)
    requires Visits(order, samples) && NoClash(r, samples, key) && i <= |order|
    ensures Told(r, Seen(order, i), key, ReceiveAll(r, order[..i]))
  {
    hide Key, Says, Tells, Collect;
    if i > 0 {
      var n := i - 1;
      ToldSoFar(r, samples, key, order, n);
      SeenStep(order, n, samples);
      assert Seen(order, i) <= samples by {
        assert forall s :: s in order ==> s in samples;
      }
      assert order[..i][..n] == order[..n];
      ToldStep(r, Seen(order, n), order[n], key, ReceiveAll(r, order[..n]));
    }
  }

  /** The group of a series holds what its samples say, in whatever order all samples came. */
  lemma ToldAll(r: Reading, samples: set<Sample>, key: Labels, order: seq<Sample>)
    requires Visits(order, samples) && NoClash(r, samples, key)
    ensures Told(r, samples, key, ReceiveAll(r, order))
  {
    ToldSoFar(r, samples, key, order, |order|);
    SeenStep(order, 0, samples);
    assert order[..|order|] == order;
  }

  /******* One sorted list *******/

  predicate Increasing(ps: seq<Point>) {
    forall i, j :: 0 <= i < j < |ps| ==> Below(ps[i].bound, ps[j].bound)
  }

  lemma SortingIncreases(ps: seq<Point>, sorted: seq<Point>)
    requires DistinctBounds(ps) && IsSorting(ps, sorted)
    ensures Increasing(sorted) && forall p :: p in sorted <==> p in ps
  {
    assert Distinct(ps);
    Rearranged(ps, sorted);
    forall i, j | 0 <= i < j < |sorted| ensures Below(sorted[i].bound, sorted[j].bound) {
      assert sorted[i] in ps && sorted[j] in ps && sorted[i] != sorted[j];
      OwnBounds(ps, sorted[i], sorted[j]);
      BoundsDifferOrBelow(sorted[i].bound, sorted[j].bound);
    }
  }

  lemma OwnBounds(ps: seq<Point>, p: Point, q: Point)
    requires DistinctBounds(ps) && p in ps && q in ps && p != q
    ensures p.bound != q.bound
  {
  }

  lemma {:induction false} IncreasingUnique(ps: seq<Point>, qs: seq<Point>)
    requires Increasing(ps) && Increasing(qs)
    requires forall p :: p in ps <==> p in qs
    ensures ps == qs
  {
    assert qs != [] ==> qs[0] in qs;
    if ps != [] {
      assert ps[0] in qs;
      var m, n := |ps| - 1, |qs| - 1;
      LastIsLast(ps, qs);
      forall p ensures p in ps[..m] <==> p in qs[..n] {
        NotInRest(ps, p);
        NotInRest(qs, p);
      }
      IncreasingUnique(ps[..m], qs[..n]);
      assert ps == ps[..m] + [ps[m]] && qs == qs[..n] + [qs[n]];
    }
  }

  lemma NotInRest(ps: seq<Point>, p: Point)
    requires Increasing(ps) && ps != []
    ensures p in ps[..|ps| - 1] <==> p in ps && p != ps[|ps| - 1]
  {
    var n := |ps| - 1;
    if p in ps[..n] {
      var i :| 0 <= i < n && ps[i] == p;
      assert Below(ps[i].bound, ps[n].bound);
    }
  }

  lemma LastIsLast(ps: seq<Point>, qs: seq<Point>)
    requires Increasing(ps) && Increasing(qs) && ps != [] && qs != []
    requires forall p :: p in ps <==> p in qs
    ensures ps[|ps| - 1] == qs[|qs| - 1]
  {
    var p, q := ps[|ps| - 1], qs[|qs| - 1];
    assert p in qs && q in ps;
    var i :| 0 <= i < |qs| && qs[i] == p;
    var j :| 0 <= j < |ps| && ps[j] == q;
    assert i < |qs| - 1 ==> Below(p.bound, q.bound);
    assert j < |ps| - 1 ==> Below(q.bound, p.bound);
    BelowOrders(p.bound, q.bound, p.bound);
  }

  /******* One series, one point *******/

  /** The same in everything that a data point shows, up to the order of the buckets. */
  ghost predicate Alike(a: Series, b: Series) {
    && a.mtype == b.mtype && a.ts == b.ts && a.sum == b.sum && a.count == b.count && a.created == b.created
    && a.value == b.value && a.native == NO_NATIVE && b.native == NO_NATIVE
    && DistinctBounds(a.points) && DistinctBounds(b.points) && forall p :: p in a.points <==> p in b.points
  }

  lemma TellSame(r: Reading, samples: set<Sample>, key: Labels, a: Series, b: Series)
    requires Tells(r, samples, key, a) && Tells(r, samples, key, b) && HasSeries(r, samples, key)
    ensures Alike(a, b)
  {
    hide Heard, Says, SeriesKey;
    if a.sum.Some? {
      assert Heard(r, samples, key, SumKind, a.sum.value);
    }
    if b.sum.Some? {
      assert Heard(r, samples, key, SumKind, b.sum.value);
    }
    if a.count.Some? {
      assert Heard(r, samples, key, CountKind, a.count.value);
    }
    if b.count.Some? {
      assert Heard(r, samples, key, CountKind, b.count.value);
    }
    if a.value.Some? {
      assert Heard(r, samples, key, ValueKind, a.value.value);
    }
    if b.value.Some? {
      assert Heard(r, samples, key, ValueKind, b.value.value);
    }
    forall p ensures p in a.points <==> p in b.points {
      assert p == Point(p.value, p.bound);
      assert Heard(r, samples, key, BucketKind(p.bound), p.value) <==> p in a.points;
    }
  }

  /** Whichever type of point is made, its attributes are those of the series. */
  lemma SameAttributes(t: OtlpType, ls: Labels, ls': Labels)
    requires SeriesKey(t, ls) == SeriesKey(t, ls')
    ensures Attributes(t, ls) == Attributes(t, ls')
    ensures !t.Histogram? && !t.Summary? ==> Attributes(MetricNames.Gauge, ls) == Attributes(MetricNames.Gauge, ls')
  {
    AttributesFromKey(t, ls);
    AttributesFromKey(t, ls');
    assert !t.Histogram? && !t.Summary? ==> NotUseful(t) == NotUseful(MetricNames.Gauge);
    hide UsefulLabels, DropEmpty;
  }

  lemma SameHistogram(cast: Cast, a: Series, b: Series, d: Option<DataPoint>, e: Option<DataPoint>)
    requires Alike(a, b) && a.mtype.Histogram?
    requires Attributes(MetricNames.Histogram, a.ls) == Attributes(MetricNames.Histogram, b.ls)
    requires Yields(cast, a, d) && Yields(cast, b, e)
    ensures d == e
  {
    hide Attributes, IsSorting, Kept, Bounds, Levels, Rises, DistinctBounds, YieldsNHCB;
    hide SummaryOf, NumberOf, ExponentialOf;
    if a.count.Some? {
      var ps :| IsSorting(a.points, ps) && d == Some(PointOf(cast, a.(points := ps)));
      var qs :| IsSorting(b.points, qs) && e == Some(PointOf(cast, b.(points := qs)));
      SameSorting(a.points, b.points, ps, qs);
    }
  }

  lemma SameSummary(cast: Cast, a: Series, b: Series, d: Option<DataPoint>, e: Option<DataPoint>)
    requires Alike(a, b) && a.mtype.Summary?
    requires Attributes(MetricNames.Summary, a.ls) == Attributes(MetricNames.Summary, b.ls)
    requires Yields(cast, a, d) && Yields(cast, b, e)
    ensures d == e
  {
    hide Attributes, IsSorting, Quantiles, DistinctBounds, YieldsNHCB, PointOf, NumberOf, ExponentialOf;
    if a.count.Some? {
      var ps :| IsSorting(a.points, ps) && d == Some(SummaryOf(cast, a.(points := ps)));
      var qs :| IsSorting(b.points, qs) && e == Some(SummaryOf(cast, b.(points := qs)));
      SameSorting(a.points, b.points, ps, qs);
    }
  }

  lemma SamePoint(cast: Cast, a: Series, b: Series, d: Option<DataPoint>, e: Option<DataPoint>)
    requires Alike(a, b) && SeriesKey(a.mtype, a.ls) == SeriesKey(a.mtype, b.ls)
    requires Yields(cast, a, d) && Yields(cast, b, e)
    ensures d == e
  {
    hide Attributes, SeriesKey, DistinctBounds, YieldsNHCB, PointOf, SummaryOf, IsSorting;
    SameAttributes(a.mtype, a.ls, b.ls);
    if a.mtype.Histogram? {
      SameHistogram(cast, a, b, d, e);
    } else if a.mtype.Summary? {
      SameSummary(cast, a, b, d, e);
    }
  }

  lemma SameSorting(ps: seq<Point>, qs: seq<Point>, sorted: seq<Point>, sorted': seq<Point>)
    requires DistinctBounds(ps) && DistinctBounds(qs) && forall p :: p in ps <==> p in qs
    requires IsSorting(ps, sorted) && IsSorting(qs, sorted')
    ensures sorted == sorted'
  {
    SortingIncreases(ps, sorted);
    SortingIncreases(qs, sorted');
    IncreasingUnique(sorted, sorted');
  }

  /** Two arrival orders of the same samples have the same series; and a series whose samples do not
      clash gets the same data point, attributes included, although its group keeps the labels of
      whichever sample came first. Other series may clash as they like. */
  lemma OneSeriesOnePoint(cast: Cast, r: Reading, samples: set<Sample>, key: Labels, p: seq<Sample>, q: seq<Sample>)
    requires Visits(p, samples) && Visits(q, samples) && NoClash(r, samples, key)
    ensures var gp, gq := ReceiveAll(r, p), ReceiveAll(r, q);
      && (key in gp <==> HasSeries(r, samples, key)) && (key in gq <==> HasSeries(r, samples, key))
      && (key in gp ==> forall d, e :: Yields(cast, gp[key], d) && Yields(cast, gq[key], e) ==> d == e)
  {
    var gp, gq := ReceiveAll(r, p), ReceiveAll(r, q);
    ToldAll(r, samples, key, p);
    ToldAll(r, samples, key, q);
    if key in gp {
      TellSame(r, samples, key, gp[key], gq[key]);
      assert SeriesKey(r.mtype, gp[key].ls) == SeriesKey(r.mtype, gq[key].ls) && gp[key].mtype == r.mtype;
      hide Tells, HasSeries, Yields, Alike, SeriesKey;
      forall d, e | Yields(cast, gp[key], d) && Yields(cast, gq[key], e) ensures d == e {
        SamePoint(cast, gp[key], gq[key], d, e);
      }
    }
  }
}
