/** What a native histogram says is what its data point shows. */
module NativePoints {
  import opened Options
  import opened SampleLabels
  import opened Histograms
  import opened HistogramPoints
  import opened RecordedPoints
  import MetricNames
  import opened Buckets
  import CustomBuckets

  /******* Custom buckets *******/

  /** A group without a native histogram takes one in: the integer form, else the float form. */
  lemma TakesCustom(st: Series, ts: int, h: Option<IntHistogram>, fh: Option<FloatHistogram>)
    requires st.mtype.Histogram? && ts == st.ts && st.native == NO_NATIVE && (h.Some? || fh.Some?)
    ensures var st' := CollectNHCB(st, ts, h, fh);
      && st'.native == Native(true, h, if h.Some? then None else fh)
      && st'.count == Some(if h.Some? then Number(h.value.count) else fh.value.count)
      && st'.sum == Some(if h.Some? then h.value.sum else fh.value.sum)
      && st' == st.(native := st'.native, count := st'.count, sum := st'.sum)
  {
  }

  /** Its point shows its sum, its count and its bounds, whatever classic buckets came before; none is made
      without bounds. */
  lemma CustomShows(cast: Cast, st: Series, h: IntHistogram, fh: Option<FloatHistogram>, d: Option<DataPoint>)
    requires st.mtype.Histogram? && st.native == NO_NATIVE
    requires Yields(cast, CollectNHCB(st, st.ts, Some(h), fh), d)
    ensures d.Some? <==> h.customValues != []
    ensures d.Some? ==> d.value.HistogramPoint? && d.value.bounds == h.customValues && d.value.ts == st.ts
    ensures d.Some? && h.sum != StaleNaN ==>
      !d.value.noRecordedValue && d.value.sum == Some(h.sum) && d.value.count == cast(Number(h.count))
    ensures d.Some? && h.sum == StaleNaN ==> d.value.noRecordedValue
    ensures d.Some? ==> d.value.counts == IntCounts(h)
  {
    TakesCustom(st, st.ts, Some(h), fh);
    hide Attributes, IntCounts, FloatCounts, IsSorting, PointOf;
  }

  lemma FloatCustomShows(cast: Cast, st: Series, fh: FloatHistogram, d: Option<DataPoint>)
    requires st.mtype.Histogram? && st.native == NO_NATIVE
    requires Yields(cast, CollectNHCB(st, st.ts, None, Some(fh)), d)
    ensures d.Some? <==> fh.customValues != []
    ensures d.Some? ==> d.value.HistogramPoint? && d.value.bounds == fh.customValues && d.value.ts == st.ts
    ensures d.Some? && fh.sum != StaleNaN && fh.count != StaleNaN ==>
      !d.value.noRecordedValue && d.value.sum == Some(fh.sum) && d.value.count == cast(fh.count)
    ensures d.Some? && (fh.sum == StaleNaN || fh.count == StaleNaN) ==> d.value.noRecordedValue
    ensures d.Some? ==> d.value.counts == FloatCounts(fh)
  {
    TakesCustom(st, st.ts, None, Some(fh));
    hide Attributes, IntCounts, FloatCounts, IsSorting, PointOf;
  }

  /** Marked as having custom buckets without being given any, it shows none, whatever classic ones came. */
  lemma NoCustomShows(cast: Cast, st: Series, d: Option<DataPoint>)
    requires st.mtype.Histogram? && st.native == NO_NATIVE
    requires Yields(cast, CollectNHCB(st, st.ts, None, None), d)
    ensures d.Some? <==> st.count.Some?
    ensures d.Some? ==> d.value.HistogramPoint? && d.value.bounds == [] && d.value.counts == []
  {
    hide Attributes, IntCounts, FloatCounts, IsSorting, PointOf;
  }

  lemma PaddedAt(d: seq<int>, size: nat, k: nat)
    requires k < |d| <= size
    ensures |CustomBuckets.Padded(d, size)| == size && CustomBuckets.Padded(d, size)[k] == d[k]
  {
  }

  /** On spans that fit, a filled bucket is the one of the dense form. */
  lemma FilledAt(spans: seq<Span>, values: seq<int>, size: nat, restart: bool, i: nat, j: nat)
    requires CustomBuckets.Fits(spans, |values|, size) && i < |spans| && j < spans[i].length
    ensures var k, filled := Begin(spans, i) + j, CustomBuckets.Filled(spans, values, size, restart);
      && |filled| == size && 0 <= k < size && Taken(spans[..i]) + j < |values| && j < |values|
      && filled[k] == values[if restart then j else Taken(spans[..i]) + j]
  {
    CustomBuckets.FitsParts(spans, |values|, size);
    TakenMonotone(spans, i);
    var sources := if restart then CustomBuckets.Restarted(spans, values) else values;
    assert |sources| >= Taken(spans);
    hide CustomBuckets.Filled, CustomBuckets.Fits, Dense, Taken, End, Begin, CustomBuckets.Padded;
    hide CustomBuckets.Restarted, NoNegativeGap;
    CustomBuckets.FilledDense(spans, values, size);
    DenseLength(spans, sources);
    DenseAt(spans, sources, i, j);
    PaddedAt(Dense(spans, sources), size, Begin(spans, i) + j);
    if restart {
      CustomBuckets.RestartedAt(spans, values, i, j);
    }
  }

  /** So bucket `j` of span `i` has the running sum of the deltas up to it. */
  lemma CustomBucketAt(h: IntHistogram, i: nat, j: nat)
    requires CustomBuckets.Fits(h.positive.spans, |h.positive.values|, |h.customValues| + 1)
    requires i < |h.positive.spans| && j < h.positive.spans[i].length
    ensures var k, m := Begin(h.positive.spans, i) + j, Taken(h.positive.spans[..i]) + j;
      && |IntCounts(h)| == |h.customValues| + 1 && 0 <= k < |IntCounts(h)| && m < |h.positive.values|
      && IntCounts(h)[k] == Total(h.positive.values[..m + 1]) % 0x1_0000_0000_0000_0000
  {
    hide CustomBuckets.Filled, CustomBuckets.Fits, Taken, Begin, Total;
    FilledAt(h.positive.spans, RunningSums(h.positive.values), |h.customValues| + 1, false, i, j);
  }

  /** With floats, bucket `j` of any span has the count number `j`, its fraction dropped. */
  lemma FloatCustomBucketAt(fh: FloatHistogram, i: nat, j: nat)
    requires CustomBuckets.Fits(fh.positive.spans, |fh.positive.values|, |fh.customValues| + 1)
    requires i < |fh.positive.spans| && j < fh.positive.spans[i].length
    ensures var k := Begin(fh.positive.spans, i) + j;
      && |FloatCounts(fh)| == |fh.customValues| + 1 && 0 <= k < |FloatCounts(fh)| && j < |fh.positive.values|
      && FloatCounts(fh)[k] == Truncate(fh.positive.values[j])
  {
    hide CustomBuckets.Filled, CustomBuckets.Fits, Taken, Begin, Truncate;
    FilledAt(fh.positive.spans, Truncated(fh.positive.values), |fh.customValues| + 1, true, i, j);
  }

  /******* Exponential buckets *******/

  /** A group that has only integer histograms takes one more in, and its point shows the last one. */
  lemma ExponentialShows(cast: Cast, st: Series, h: IntHistogram, d: Option<DataPoint>)
    requires st.mtype.ExponentialHistogram? && st.native.fh.None?
    requires Yields(cast, CollectExponential(st, st.ts, Some(h), None), d)
    ensures d.Some? && d.value.ExponentialPoint? && d.value.ts == st.ts
    ensures d.value.noRecordedValue <==> h.sum == StaleNaN
    ensures h.sum != StaleNaN ==>
      && d.value.sum == Some(h.sum) && d.value.count == h.count && d.value.scale == h.schema
      && d.value.zeroCount == h.zeroCount && d.value.zeroThreshold == h.zeroThreshold
      && d.value.positive == IntBuckets(h.positive) && d.value.negative == IntBuckets(h.negative)
    ensures h.sum == StaleNaN ==>
      && d.value.sum == None && d.value.count == 0 && d.value.zeroCount == 0
      && d.value.positive.counts == [] && d.value.negative.counts == []
    ensures d.value.start == if st.created == Number(0) then None else Some(st.created)
    ensures d.value.attributes == Attributes(MetricNames.Histogram, st.ls)
  {
    hide Attributes, IntBuckets, FloatBuckets;
  }

  lemma FloatExponentialShows(cast: Cast, st: Series, fh: FloatHistogram, h: Option<IntHistogram>,
                              d: Option<DataPoint>)
    requires st.mtype.ExponentialHistogram? && st.native.h.None?
    requires Yields(cast, CollectExponential(st, st.ts, h, Some(fh)), d)
    ensures d.Some? && d.value.ExponentialPoint? && d.value.ts == st.ts
    ensures d.value.noRecordedValue <==> fh.sum == StaleNaN
    ensures fh.sum != StaleNaN ==>
      && d.value.sum == Some(fh.sum) && d.value.count == cast(fh.count) && d.value.scale == fh.schema
      && d.value.zeroCount == cast(fh.zeroCount) && d.value.zeroThreshold == fh.zeroThreshold
      && d.value.positive == FloatBuckets(fh.positive) && d.value.negative == FloatBuckets(fh.negative)
    ensures fh.sum == StaleNaN ==>
      && d.value.sum == None && d.value.count == 0 && d.value.zeroCount == 0
      && d.value.positive.counts == [] && d.value.negative.counts == []
    ensures d.value.start == if st.created == Number(0) then None else Some(st.created)
    ensures d.value.attributes == Attributes(MetricNames.Histogram, st.ls)
  {
    hide Attributes, IntBuckets, FloatBuckets;
  }

  /** One of the other form, or with another timestamp, changes nothing. */
  lemma OtherFormRejected(st: Series, ts: int, h: Option<IntHistogram>, fh: Option<FloatHistogram>)
    requires st.mtype.ExponentialHistogram?
    ensures CollectExponential(st, ts, h, fh) == st <==>
      || ts != st.ts || (h.None? && fh.None?)
      || (fh.Some? && (st.native.h.Some?
                       || (st.native.fh == fh && st.count == Some(fh.value.count) && st.sum == Some(fh.value.sum))))
      || (fh.None? && h.Some? && (st.native.fh.Some?
                       || (st.native.h == h && st.count == Some(Number(h.value.count)) && st.sum == Some(h.value.sum))))
  {
  }

  /** Every Prometheus bucket is shown one index lower, as the running sum of the deltas. */
  lemma IntBucketAt(b: Sparse<int>, index: int, i: nat, j: nat)
    requires b.Sound() && NoNegativeInnerGap(b.spans) && IsPrometheusBucket(b.spans, index, i, j)
    ensures var otlp := IntBuckets(b);
      var k := index - 1 - otlp.offset;
      && Taken(b.spans[..i]) + j < |b.values| && 0 <= k < |otlp.counts|
      && otlp.counts[k] == Total(b.values[..Taken(b.spans[..i]) + j + 1]) % 0x1_0000_0000_0000_0000
  {
    hide Dense, Taken, Inner, NoNegativeInnerGap, Total;
    IntBucketsAre(b);
    InsideDense(b.spans, RunningSums(b.values), index, i, j);
  }

  /** And of floats, as the count itself without its fraction. */
  lemma FloatBucketAt(b: Sparse<real>, index: int, i: nat, j: nat)
    requires b.Sound() && NoNegativeInnerGap(b.spans) && IsPrometheusBucket(b.spans, index, i, j)
    ensures var otlp := FloatBuckets(b);
      var k := index - 1 - otlp.offset;
      && Taken(b.spans[..i]) + j < |b.values| && 0 <= k < |otlp.counts|
      && otlp.counts[k] == Truncate(b.values[Taken(b.spans[..i]) + j])
  {
    TakenInner(b.spans);
    hide Dense, Taken, Inner, NoNegativeInnerGap, Truncate;
    InsideDense(b.spans, Truncated(b.values), index, i, j);
  }

  lemma InsideDense(spans: seq<Span>, values: seq<int>, index: int, i: nat, j: nat)
    requires NoNegativeInnerGap(spans) && Taken(spans) <= |values| && IsPrometheusBucket(spans, index, i, j)
    ensures Taken(Inner(spans)) <= |values| && Taken(spans[..i]) + j < |values|
    ensures 0 <= index - spans[0].offset < |Dense(Inner(spans), values)|
    ensures Dense(Inner(spans), values)[index - spans[0].offset] == values[Taken(spans[..i]) + j]
  {
    SparseInDense(spans, values, index, i, j);
    TakenInner(spans);
    PositionExact(spans, i);
    hide Dense, Taken, End;
    DenseAt(Inner(spans), values, i, j);
  }
}
