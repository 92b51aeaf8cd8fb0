/** What the data point of a histogram says about the cumulative samples. */
module HistogramPoints {
  import opened Options
  import opened Histograms
  import Buckets
  import CustomBuckets

  /** No two buckets have the same bound. */
  predicate DistinctBounds(ps: seq<Point>) {
    forall i, j :: 0 <= i < j < |ps| ==> ps[i].bound != ps[j].bound
  }

  lemma BoundsDifferOrBelow(a: Bound, b: Bound)
    ensures a != b && !Below(b, a) ==> Below(a, b)
    ensures !Below(PosInf, a)
  {
  }

  /** The kept buckets are sorted by their bounds, none of which is +Inf. */
  lemma KeptBelow(ps: seq<Point>, i: nat, j: nat)
    requires SortedPoints(ps) && DistinctBounds(ps) && i < j < |Kept(ps)|
    ensures Below(Kept(ps)[i].bound, Kept(ps)[j].bound)
  {
    assert !Below(ps[j].bound, ps[i].bound) && ps[i].bound != ps[j].bound;
    BoundsDifferOrBelow(ps[i].bound, ps[j].bound);
  }

  lemma KeptFinite(ps: seq<Point>, i: nat)
    requires SortedPoints(ps) && DistinctBounds(ps) && i < |Kept(ps)|
    ensures Kept(ps)[i].bound != PosInf
  {
    var n := |ps| - 1;
    if i < n {
      assert !Below(ps[n].bound, ps[i].bound) && ps[i].bound != ps[n].bound;
      BoundsDifferOrBelow(ps[i].bound, ps[n].bound);
    }
  }

  /** All others are kept. */
  lemma KeptAll(ps: seq<Point>, p: Point)
    ensures p in Kept(ps) ==> p in ps
    ensures p in ps && p.bound != PosInf ==> p in Kept(ps)
  {
    if p in ps && p.bound != PosInf {
      var k :| 0 <= k < |ps| && ps[k] == p;
      assert Kept(ps)[k] == p;
    }
  }

  lemma BoundsOf(ps: seq<Point>, b: Bound)
    ensures b in Bounds(ps) <==> exists p :: p in ps && p.bound == b
  {
    if p :| p in ps && p.bound == b {
      var k :| 0 <= k < |ps| && ps[k] == p;
      assert Bounds(ps)[k] == b;
    }
    if b in Bounds(ps) {
      var k :| 0 <= k < |ps| && Bounds(ps)[k] == b;
      assert ps[k] in ps;
    }
  }

  /** One more bucket than bounds, and strictly increasing bounds: those of the samples except +Inf. */
  lemma PointShape(cast: Cast, st: Series)
    requires st.count.Some? && SortedPoints(st.points) && DistinctBounds(st.points)
    ensures var d := PointOf(cast, st);
      && |d.counts| == |d.bounds| + 1
      && (forall i, j :: 0 <= i < j < |d.bounds| ==> Below(d.bounds[i], d.bounds[j]))
      && (forall b :: b in d.bounds <==> b != PosInf && exists p :: p in st.points && p.bound == b)
  {
    var ps, kept := st.points, Kept(st.points);
    var bounds := Bounds(kept);
    PointParts(cast, st);
    hide SortedPoints, DistinctBounds, Kept, PointOf, Below;
    forall i, j | 0 <= i < j < |bounds| ensures Below(bounds[i], bounds[j]) {
      KeptBelow(ps, i, j);
    }
    forall b ensures b in bounds <==> b != PosInf && exists p :: p in ps && p.bound == b {
      BoundIsKept(ps, b);
    }
  }

  lemma PointParts(cast: Cast, st: Series)
    requires st.count.Some?
    ensures var d := PointOf(cast, st);
      d.bounds == Bounds(Kept(st.points)) && |d.counts| == |d.bounds| + 1
  {
  }

  lemma BoundIsKept(ps: seq<Point>, b: Bound)
    requires SortedPoints(ps) && DistinctBounds(ps)
    ensures b in Bounds(Kept(ps)) <==> b != PosInf && exists p :: p in ps && p.bound == b
  {
    hide SortedPoints, DistinctBounds, Kept, Bounds;
    BoundsOf(Kept(ps), b);
    if p :| p in Kept(ps) && p.bound == b {
      var i :| 0 <= i < |Kept(ps)| && Kept(ps)[i] == p;
      KeptFinite(ps, i);
      KeptAll(ps, p);
    }
    if b != PosInf {
      if p :| p in ps && p.bound == b {
        KeptAll(ps, p);
      }
    }
  }

  predicate Numbers(levels: seq<Float>) {
    forall i :: 0 <= i < |levels| ==> levels[i].Number?
  }

  function Before(levels: seq<Float>, i: nat): int
    requires Numbers(levels) && i < |levels|
  {
    if i == 0 then 0 else levels[i - 1].n
  }

  /** Cumulative values never fall, and start at 0 or above. */
  predicate Monotone(levels: seq<Float>)
    requires Numbers(levels)
  {
    forall i :: 0 <= i < |levels| ==> Before(levels, i) <= levels[i].n
  }

  ghost predicate Reproduces(counts: seq<int>, levels: seq<Float>)
    requires Numbers(levels) && |counts| == |levels|
  {
    forall i :: 0 <= i < |levels| ==> Buckets.Total(counts[..i + 1]) == levels[i].n
  }

  lemma {:induction false} LevelsWithin(levels: seq<Float>, i: nat)
    requires Numbers(levels) && i < |levels| && Monotone(levels)
    ensures 0 <= levels[i].n <= levels[|levels| - 1].n
    decreases |levels| - i
  {
    if i < |levels| - 1 {
      LevelsWithin(levels, i + 1);
      assert Before(levels, i + 1) <= levels[i + 1].n;
    }
    LevelsAboveZero(levels, i);
  }

  lemma {:induction false} LevelsAboveZero(levels: seq<Float>, i: nat)
    requires Numbers(levels) && i < |levels| && Monotone(levels)
    ensures 0 <= levels[i].n
  {
    assert Before(levels, i) <= levels[i].n;
    if i > 0 {
      LevelsAboveZero(levels, i - 1);
    }
  }

  lemma RiseIsDifference(cast: Cast, levels: seq<Float>, i: nat)
    requires IsCast(cast) && Numbers(levels) && i < |levels| && Monotone(levels)
    requires levels[|levels| - 1].n < 0x1_0000_0000_0000_0000
    ensures Rise(cast, levels, i) == levels[i].n - Before(levels, i)
  {
    LevelsWithin(levels, i);
    if i > 0 {
      LevelsAboveZero(levels, i - 1);
    }
    assert Before(levels, i) <= levels[i].n;
  }

  lemma {:induction false} RisesAddUp(cast: Cast, levels: seq<Float>, i: nat)
    requires IsCast(cast) && Numbers(levels) && i < |levels| && Monotone(levels)
    requires levels[|levels| - 1].n < 0x1_0000_0000_0000_0000
    ensures Buckets.Total(Rises(cast, levels)[..i + 1]) == levels[i].n
  {
    hide Monotone, Rise;
    var counts := Rises(cast, levels);
    assert counts[..i + 1][..i] == counts[..i];
    RiseIsDifference(cast, levels, i);
    if i > 0 {
      RisesAddUp(cast, levels, i - 1);
      assert counts[..i - 1 + 1] == counts[..i];
    } else {
      assert counts[..i] == [];
    }
    assert counts[i] == Rise(cast, levels, i);
  }

  lemma TotalStep(counts: seq<int>, i: nat)
    requires i < |counts|
    ensures Buckets.Total(counts[..i + 1]) == Buckets.Total(counts[..i]) + counts[i]
  {
    assert counts[..i + 1][..i] == counts[..i];
  }

  /** Sums of counts, which are never negative, cannot fall. */
  lemma SumsRise(counts: seq<int>, levels: seq<Float>)
    requires Numbers(levels) && |counts| == |levels| && Reproduces(counts, levels)
    requires forall i :: 0 <= i < |counts| ==> counts[i] >= 0
    ensures Monotone(levels)
  {
    forall i | 0 <= i < |levels| ensures Before(levels, i) <= levels[i].n {
      TotalStep(counts, i);
      assert Buckets.Total(counts[..i]) == Before(levels, i) by {
        if i > 0 {
          var k := i - 1;
          assert Buckets.Total(counts[..k + 1]) == levels[k].n && counts[..k + 1] == counts[..i];
        } else {
          assert counts[..i] == [];
        }
      }
      assert Buckets.Total(counts[..i + 1]) == levels[i].n;
    }
  }

  /** The counts per bucket add up to the cumulative values, and in the end to the count of all
      observations, exactly if the cumulative values never fall and stay within that count. */
  lemma PerBucketExact(cast: Cast, st: Series)
    requires IsCast(cast) && st.count.Some? && !IsStale(st)
    requires Numbers(Levels(Kept(st.points), st.count.value))
    requires st.count.value.n < 0x1_0000_0000_0000_0000
    ensures var levels := Levels(Kept(st.points), st.count.value);
      |PointOf(cast, st).counts| == |levels| && (Reproduces(PointOf(cast, st).counts, levels) <==> Monotone(levels))
  {
    var levels := Levels(Kept(st.points), st.count.value);
    var counts := PointOf(cast, st).counts;
    if Monotone(levels) {
      forall i | 0 <= i < |levels| ensures Buckets.Total(counts[..i + 1]) == levels[i].n {
        RisesAddUp(cast, levels, i);
      }
    } else if Reproduces(counts, levels) {
      SumsRise(counts, levels);
    }
  }

  /** Then no observation is lost or counted twice: the buckets add up to the count of the point. */
  lemma BucketsAddUpToCount(cast: Cast, st: Series)
    requires IsCast(cast) && st.count.Some? && !IsStale(st)
    requires Numbers(Levels(Kept(st.points), st.count.value)) && Monotone(Levels(Kept(st.points), st.count.value))
    requires st.count.value.n < 0x1_0000_0000_0000_0000
    ensures Buckets.Total(PointOf(cast, st).counts) == PointOf(cast, st).count == st.count.value.n
  {
    var levels := Levels(Kept(st.points), st.count.value);
    var n := |levels| - 1;
    RisesAddUp(cast, levels, n);
    LevelsWithin(levels, n);
    var counts := PointOf(cast, st).counts;
    assert counts[..n + 1] == counts;
  }

  /** A bucket with bound +Inf says nothing that the count does not say. */
  lemma InfinityIgnored(cast: Cast, st: Series, v: Float)
    requires st.count.Some? && PosInf !in Bounds(st.points)
    ensures PointOf(cast, st.(points := st.points + [Point(v, PosInf)])) == PointOf(cast, st)
  {
    var more := st.points + [Point(v, PosInf)];
    assert more[..|more| - 1] == st.points;
    if st.points != [] {
      assert Bounds(st.points)[|st.points| - 1] == st.points[|st.points| - 1].bound;
    }
  }

  /** A series that went away keeps its buckets, all of them empty, and has no count and no sum. */
  lemma StalePointKeepsShape(cast: Cast, st: Series)
    requires st.count.Some? && IsStale(st)
    ensures var d := PointOf(cast, st);
      var recorded := PointOf(cast, st.(sum := Some(Number(0)), count := Some(Number(0))));
      && d.bounds == recorded.bounds && |d.counts| == |recorded.counts| && d.attributes == recorded.attributes
      && d.noRecordedValue && !recorded.noRecordedValue
      && Buckets.Total(d.counts) == 0 && d.count == 0 && d.sum == None
  {
    Buckets.TotalZeros(|Kept(st.points)| + 1);
  }

  /** A histogram with custom buckets whose spans fit: the buckets add up to its running sums, one more
      than its bounds, whatever classic buckets came before. */
  lemma CustomBucketsAddUp(cast: Cast, st: Series, h: IntHistogram, d: DataPoint)
    requires st.mtype.Histogram? && st.count.Some? && st.native.isNHCB && st.native.h == Some(h)
    requires Yields(cast, st, Some(d)) && d.HistogramPoint?
    requires CustomBuckets.Fits(h.positive.spans, |h.positive.values|, |h.customValues| + 1)
    requires Buckets.Taken(h.positive.spans) == |h.positive.values|
    ensures d.bounds == h.customValues && |d.counts| == |d.bounds| + 1
    ensures Buckets.Total(d.counts) == Buckets.Total(Buckets.RunningSums(h.positive.values))
  {
    hide CustomBuckets.Fits, CustomBuckets.Filled, Buckets.Total, Buckets.Dense, Buckets.End, Buckets.Taken;
    var values := Buckets.RunningSums(h.positive.values);
    assert |values| == |h.positive.values|;
    CustomBuckets.FilledTotal(h.positive.spans, values, |h.customValues| + 1);
  }

  lemma IntBucketsAre(b: Sparse<int>)
    requires b.Sound() && b.spans != []
    ensures Buckets.Taken(Buckets.Inner(b.spans)) == Buckets.Taken(b.spans) <= |Buckets.RunningSums(b.values)|
    ensures IntBuckets(b)
         == OtlpBuckets(b.spans[0].offset - 1, Buckets.Dense(Buckets.Inner(b.spans), Buckets.RunningSums(b.values)))
  {
    Buckets.TakenInner(b.spans);
    hide Buckets.Taken, Buckets.Dense, Buckets.Inner;
  }

  /** A point of an exponential histogram has every Prometheus bucket of it under its OTLP index, one lower. */
  lemma ExponentialBucketAt(b: Sparse<int>, index: int, i: nat, j: nat)
    requires b.Sound() && Buckets.NoNegativeInnerGap(b.spans) && Buckets.IsPrometheusBucket(b.spans, index, i, j)
    ensures var otlp, values := IntBuckets(b), Buckets.RunningSums(b.values);
      && Buckets.Taken(b.spans[..i]) + j < |values|
      && Buckets.OtlpCount(otlp.offset, otlp.counts, index - 1) == values[Buckets.Taken(b.spans[..i]) + j]
  {
    hide Buckets.RunningSums, Buckets.Dense, Buckets.OtlpCount, Buckets.Taken, Buckets.Inner;
    hide Buckets.NoNegativeInnerGap;
    IntBucketsAre(b);
    Buckets.SparseInDense(b.spans, Buckets.RunningSums(b.values), index, i, j);
  }

  /** And no other one. */
  lemma ExponentialBucketsElse(b: Sparse<int>, index: int)
    requires b.Sound() && b.spans != [] && Buckets.NoNegativeInnerGap(b.spans)
    requires forall i, j :: !Buckets.IsPrometheusBucket(b.spans, index, i, j)
    ensures Buckets.OtlpCount(IntBuckets(b).offset, IntBuckets(b).counts, index - 1) == 0
  {
    hide Buckets.RunningSums, Buckets.Dense, Buckets.OtlpCount, Buckets.Taken, Buckets.Inner;
    hide Buckets.IsPrometheusBucket;
    IntBucketsAre(b);
    Buckets.NothingElseInDense(b.spans, Buckets.RunningSums(b.values), index);
  }

  /** The quantiles of a summary: sorted, those of the samples, without values when stale. */
  lemma SummaryShape(cast: Cast, st: Series)
    requires st.count.Some? && SortedPoints(st.points) && DistinctBounds(st.points)
    ensures var d := SummaryOf(cast, st);
      && (forall i, j :: 0 <= i < j < |d.quantiles| ==> Below(d.quantiles[i].bound, d.quantiles[j].bound))
      && (forall q :: q in d.quantiles <==> exists p :: p in st.points && q == Quantile(IsStale(st), p))
  {
    var d := SummaryOf(cast, st);
    forall i, j | 0 <= i < j < |d.quantiles| ensures Below(d.quantiles[i].bound, d.quantiles[j].bound) {
      assert !Below(st.points[j].bound, st.points[i].bound) && st.points[i].bound != st.points[j].bound;
      BoundsDifferOrBelow(st.points[i].bound, st.points[j].bound);
    }
    forall q ensures q in d.quantiles <==> exists p :: p in st.points && q == Quantile(IsStale(st), p) {
      if q in d.quantiles {
        var i :| 0 <= i < |d.quantiles| && d.quantiles[i] == q;
        assert st.points[i] in st.points;
      }
      if p :| p in st.points && q == Quantile(IsStale(st), p) {
        var i :| 0 <= i < |st.points| && st.points[i] == p;
        assert d.quantiles[i] == q;
      }
    }
  }
}
