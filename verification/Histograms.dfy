/** The groups of Prometheus series: the samples of one series arrive one by one, are collected in a
    group and become one OTLP data point, for a histogram with a count per bucket. */
module Histograms {
  import opened Options
  import opened GoStrings
  import opened SampleLabels
  import MetricNames
  import Buckets
  import CustomBuckets

  type OtlpType = MetricNames.OtlpType

  /** A sample value; a series that went away has a staleness marker instead of a number, and what
      is computed from one is no number either. */
  datatype Float = StaleNaN | Number(n: int)

  function Minus(a: Float, b: Float): Float {
    if a.Number? && b.Number? then Number(a.n - b.n) else StaleNaN
  }

  /** The conversion to `uint64`. Go leaves it to the platform when the value does not fit. */
  type Cast = Float -> nat

  ghost predicate IsCast(cast: Cast) {
    forall n :: 0 <= n < 0x1_0000_0000_0000_0000 ==> cast(Number(n)) == n
  }

  /** The upper bound of a bucket. */
  datatype Bound = NegInf | Finite(x: real) | PosInf

  predicate Below(a: Bound, b: Bound) {
    match (a, b)
    case (Finite(x), Finite(y)) => x < y
    case (NegInf, _) => b != NegInf
    case (_, PosInf) => a != PosInf
    case _ => false
  }

  /** The parser of bounds, which is part of the Go library. */
  type ParseBound = string -> Option<Bound>

  /******* Samples *******/

  /** One sample: its metric name, labels, timestamp and value. */
  datatype Sample = Sample(name: string, ls: Labels, ts: int, v: Float)

  datatype Kind = SumKind | CountKind | CreatedKind | BucketKind(bound: Bound) | ValueKind | Ignored | Malformed

  /** The label with the upper bound of a bucket, or with the quantile of a summary. */
  function BoundLabel(t: OtlpType): string {
    if t.Summary? then "quantile" else "le"
  }

  /** What a sample of the family `family` says. */
  function KindOf(t: OtlpType, family: string, parse: ParseBound, s: Sample): Kind {
    match t
    case ExponentialHistogram => if s.name == family + "_created" then CreatedKind else Ignored
    case Sum => if s.name == family + "_created" then CreatedKind else ValueKind
    case Gauge => ValueKind
    case Empty => ValueKind
    case _ => DistributionKind(t, family, parse, s)
  }

  function DistributionKind(t: OtlpType, family: string, parse: ParseBound, s: Sample): Kind {
    if HasSuffix(s.name, "_sum") then SumKind
    else if HasSuffix(s.name, "_count") then CountKind
    else if s.name == family + "_created" then CreatedKind
    else if Lookup(s.ls, BoundLabel(t)) == "" then Malformed
    else
      match parse(Lookup(s.ls, BoundLabel(t)))
      case None => Malformed
      case Some(bound) => BucketKind(bound)
  }

  /** A bucket with its bound, or a quantile with its value. */
  datatype Point = Point(value: Float, bound: Bound)

  /** Buckets as spans with one value for each bucket of a span. */
  datatype Sparse<T> = Sparse(spans: seq<Buckets.Span>, values: seq<T>) {
    /** There is a value for each bucket. */
    predicate Sound() {
      Buckets.Taken(spans) <= |values|
    }
  }

  /** Native histograms, with deltas or with float counts. Custom buckets have bounds of their own. */
  datatype IntHistogram = IntHistogram(schema: int, count: nat, sum: Float, zeroThreshold: real, zeroCount: nat,
                                       positive: Sparse<int>, negative: Sparse<int>, customValues: seq<Bound>) {
    predicate Sound() {
      positive.Sound() && negative.Sound()
    }
  }

  datatype FloatHistogram = FloatHistogram(schema: int, count: Float, sum: Float, zeroThreshold: real, zeroCount: Float,
                                           positive: Sparse<real>, negative: Sparse<real>, customValues: seq<Bound>) {
    predicate Sound() {
      positive.Sound() && negative.Sound()
    }
  }

  /** The native histograms of a group, if it was given any. */
  datatype Native = Native(isNHCB: bool, h: Option<IntHistogram>, fh: Option<FloatHistogram>)

  const NO_NATIVE := Native(false, None, None)

  /** What a group has collected for its series. */
  datatype Series = Series(mtype: OtlpType, ls: Labels, ts: int, count: Option<Float>, sum: Option<Float>,
                           created: Float, points: seq<Point>, value: Option<Float>, native: Native)

  function EmptySeries(t: OtlpType, ls: Labels, ts: int): Series {
    Series(t, ls, ts, None, None, Number(0), [], None, NO_NATIVE)
  }

  /** One more sample. A sample with another timestamp than the first one is rejected. */
  function Collect(family: string, parse: ParseBound, st: Series, s: Sample): Series {
    if s.ts != st.ts then st
    else
      match KindOf(st.mtype, family, parse, s)
      case SumKind => st.(sum := Some(s.v))
      case CountKind => st.(count := Some(s.v))
      case CreatedKind => st.(created := s.v)
      case BucketKind(bound) => st.(points := st.points + [Point(s.v, bound)])
      case ValueKind => st.(value := Some(s.v))
      case _ => st
  }

  /** A histogram with custom buckets; the first of the two that is given counts. */
  function CollectNHCB(st: Series, ts: int, h: Option<IntHistogram>, fh: Option<FloatHistogram>): Series {
    if ts != st.ts || !st.mtype.Histogram? then st
    else
      match (h, fh)
      case (Some(x), _) =>
        st.(native := st.native.(isNHCB := true, h := h), count := Some(Number(x.count)), sum := Some(x.sum))
      case (None, Some(x)) =>
        st.(native := st.native.(isNHCB := true, fh := fh), count := Some(x.count), sum := Some(x.sum))
      case (None, None) => st.(native := st.native.(isNHCB := true))
  }

  /** A native histogram with exponential buckets; one of the other kind than before is rejected. */
  function CollectExponential(st: Series, ts: int, h: Option<IntHistogram>, fh: Option<FloatHistogram>): Series {
    if ts != st.ts || !st.mtype.ExponentialHistogram? then st
    else
      match (h, fh)
      case (_, Some(x)) =>
        if st.native.h.Some? then st
        else st.(native := st.native.(fh := fh), count := Some(x.count), sum := Some(x.sum))
      case (Some(x), None) =>
        if st.native.fh.Some? then st
        else st.(native := st.native.(h := h), count := Some(Number(x.count)), sum := Some(x.sum))
      case (None, None) => st
  }

  /******* Data points *******/

  /** Dense buckets with the index of the first one. */
  datatype OtlpBuckets = OtlpBuckets(offset: int, counts: seq<int>)

  const NO_BUCKETS := OtlpBuckets(0, [])

  datatype DataPoint =
    | HistogramPoint(noRecordedValue: bool, count: nat, sum: Option<Float>, bounds: seq<Bound>, counts: seq<int>,
                     start: Option<Float>, ts: int, attributes: Labels)
    | SummaryPoint(noRecordedValue: bool, count: nat, sum: Option<Float>, quantiles: seq<Point>,
                   start: Option<Float>, ts: int, attributes: Labels)
    | ExponentialPoint(noRecordedValue: bool, scale: int, count: nat, sum: Option<Float>, zeroThreshold: real,
                       zeroCount: nat, positive: OtlpBuckets, negative: OtlpBuckets,
                       start: Option<Float>, ts: int, attributes: Labels)
    | NumberPoint(noRecordedValue: bool, value: Option<Float>, start: Option<Float>, ts: int, attributes: Labels)

  predicate SortedPoints(ps: seq<Point>) {
    forall i, j :: 0 <= i < j < |ps| ==> !Below(ps[j].bound, ps[i].bound)
  }

  ghost predicate IsSorting(ps: seq<Point>, sorted: seq<Point>) {
    SortedPoints(sorted) && multiset(sorted) == multiset(ps)
  }

  /** The buckets that OTLP has a bound for: all but a last one with bound +Inf. */
  function Kept(ps: seq<Point>): seq<Point> {
    if ps != [] && ps[|ps| - 1].bound == PosInf then ps[..|ps| - 1] else ps
  }

  ghost function Bounds(ps: seq<Point>): seq<Bound> {
    seq(|ps|, i requires 0 <= i < |ps| => ps[i].bound)
  }

  /** The cumulative values, ending with the count of all observations. */
  ghost function Levels(ps: seq<Point>, count: Float): seq<Float> {
    seq(|ps|, i requires 0 <= i < |ps| => ps[i].value) + [count]
  }

  ghost function Rise(cast: Cast, levels: seq<Float>, i: nat): nat
    requires i < |levels|
  {
    cast(if i == 0 then levels[0] else Minus(levels[i], levels[i - 1]))
  }

  ghost function Rises(cast: Cast, levels: seq<Float>): seq<int> {
    seq(|levels|, i requires 0 <= i < |levels| => Rise(cast, levels, i))
  }

  lemma RiseOf(cast: Cast, ps: seq<Point>, count: Float, i: nat)
    requires i <= |ps|
    ensures |Rises(cast, Levels(ps, count))| == |ps| + 1
    ensures var level := if i < |ps| then ps[i].value else count;
      Rises(cast, Levels(ps, count))[i] == cast(if i == 0 then level else Minus(level, ps[i - 1].value))
  {
  }

  predicate IsStale(st: Series) {
    st.sum == Some(StaleNaN) || st.count == Some(StaleNaN)
  }

  function Start(st: Series): Option<Float> {
    if st.created == Number(0) then None else Some(st.created)
  }

  /** A histogram point with the given buckets. */
  function WithBuckets(cast: Cast, st: Series, bounds: seq<Bound>, counts: seq<int>): DataPoint
    requires st.count.Some?
  {
    var stale := IsStale(st);
    HistogramPoint(stale, if stale then 0 else cast(st.count.value), if stale then None else st.sum, bounds, counts,
                   Start(st), st.ts, Attributes(MetricNames.Histogram, st.ls))
  }

  /** The point of a classic histogram whose buckets are sorted. */
  ghost function PointOf(cast: Cast, st: Series): (d: DataPoint)
    requires st.count.Some?
    ensures d.HistogramPoint?
  {
    var kept := Kept(st.points);
    WithBuckets(cast, st, Bounds(kept),
                if IsStale(st) then Buckets.Zeros(|kept| + 1) else Rises(cast, Levels(kept, st.count.value)))
  }

  /** A quantile, whose value is 0 when the series went away. */
  function Quantile(stale: bool, p: Point): Point {
    if stale then Point(Number(0), p.bound) else p
  }

  ghost function Quantiles(stale: bool, ps: seq<Point>): seq<Point> {
    seq(|ps|, i requires 0 <= i < |ps| => Quantile(stale, ps[i]))
  }

  /** The point of a summary whose quantiles are sorted. */
  ghost function SummaryOf(cast: Cast, st: Series): (d: DataPoint)
    requires st.count.Some?
    ensures d.SummaryPoint?
  {
    var stale := IsStale(st);
    SummaryPoint(stale, if stale then 0 else cast(st.count.value), if stale then None else st.sum,
                 Quantiles(stale, st.points), Start(st), st.ts, Attributes(MetricNames.Summary, st.ls))
  }

  /** The point of a counter or a gauge; only sums have a start time. */
  function NumberOf(st: Series): DataPoint
    requires st.value.Some?
  {
    var stale := st.value.value == StaleNaN;
    NumberPoint(stale, if stale then None else st.value, if st.mtype.Sum? then Start(st) else None, st.ts,
                Attributes(MetricNames.Gauge, st.ls))
  }

  /** The counts of a histogram with custom buckets, of deltas or of floats. */
  ghost function IntCounts(h: IntHistogram): seq<int> {
    CustomBuckets.Filled(h.positive.spans, Buckets.RunningSums(h.positive.values), |h.customValues| + 1, false)
  }

  ghost function FloatCounts(h: FloatHistogram): seq<int> {
    CustomBuckets.Filled(h.positive.spans, Buckets.Truncated(h.positive.values), |h.customValues| + 1, true)
  }

  /** The data point of a group with custom buckets: none if the bounds are missing. */
  ghost predicate YieldsNHCB(cast: Cast, st: Series, d: Option<DataPoint>)
    requires st.count.Some?
  {
    match (st.native.h, st.native.fh)
    case (Some(h), _) =>
      if h.customValues == [] then d == None
      else d == Some(WithBuckets(cast, st, h.customValues, IntCounts(h)))
    case (None, Some(fh)) =>
      if fh.customValues == [] then d == None
      else d == Some(WithBuckets(cast, st, fh.customValues, FloatCounts(fh)))
    case (None, None) => d == Some(WithBuckets(cast, st, [], []))
  }

  /** The dense form of the buckets, which OTLP numbers by their lower bounds. */
  ghost function IntBuckets(b: Sparse<int>): OtlpBuckets {
    if b.spans == [] || Buckets.Taken(Buckets.Inner(b.spans)) > |b.values| then NO_BUCKETS
    else OtlpBuckets(b.spans[0].offset - 1, Buckets.Dense(Buckets.Inner(b.spans), Buckets.RunningSums(b.values)))
  }

  ghost function FloatBuckets(b: Sparse<real>): OtlpBuckets {
    if b.spans == [] || Buckets.Taken(Buckets.Inner(b.spans)) > |b.values| then NO_BUCKETS
    else OtlpBuckets(b.spans[0].offset - 1, Buckets.Dense(Buckets.Inner(b.spans), Buckets.Truncated(b.values)))
  }

  /** A point without a value: the series went away. */
  function StaleExponential(st: Series): DataPoint {
    ExponentialPoint(true, 0, 0, None, 0.0, 0, NO_BUCKETS, NO_BUCKETS, Start(st), st.ts,
                     Attributes(MetricNames.Histogram, st.ls))
  }

  ghost function IntExponential(st: Series, h: IntHistogram): DataPoint {
    if h.sum == StaleNaN then StaleExponential(st)
    else
      ExponentialPoint(false, h.schema, h.count, Some(h.sum), h.zeroThreshold, h.zeroCount, IntBuckets(h.positive),
                       IntBuckets(h.negative), Start(st), st.ts, Attributes(MetricNames.Histogram, st.ls))
  }

  ghost function FloatExponential(cast: Cast, st: Series, fh: FloatHistogram): DataPoint {
    if fh.sum == StaleNaN then StaleExponential(st)
    else
      ExponentialPoint(false, fh.schema, cast(fh.count), Some(fh.sum), fh.zeroThreshold, cast(fh.zeroCount),
                       FloatBuckets(fh.positive), FloatBuckets(fh.negative), Start(st), st.ts,
                       Attributes(MetricNames.Histogram, st.ls))
  }

  /** A point with nothing but a timestamp, which no group should get. */
  function BareExponential(st: Series): DataPoint {
    ExponentialPoint(false, 0, 0, None, 0.0, 0, NO_BUCKETS, NO_BUCKETS, None, st.ts, [])
  }

  /** The data point of a group of an exponential histogram: of the float form, else of the integer form. */
  ghost function ExponentialOf(cast: Cast, st: Series): DataPoint {
    match (st.native.fh, st.native.h)
    case (Some(fh), _) => FloatExponential(cast, st, fh)
    case (None, Some(h)) => IntExponential(st, h)
    case (None, None) => BareExponential(st)
  }

  /** The data point of a group, if it gets one. Points with equal bounds may be sorted either way. */
  ghost predicate Yields(cast: Cast, st: Series, d: Option<DataPoint>) {
    match st.mtype
    case Histogram =>
      if st.count.None? then d == None
      else if st.native.isNHCB then YieldsNHCB(cast, st, d)
      else exists sorted :: IsSorting(st.points, sorted) && d == Some(PointOf(cast, st.(points := sorted)))
    case Summary =>
      if st.count.None? then d == None
      else exists sorted :: IsSorting(st.points, sorted) && d == Some(SummaryOf(cast, st.(points := sorted)))
    case ExponentialHistogram => d == if st.count.None? then None else Some(ExponentialOf(cast, st))
    case _ => d == if st.value.None? then None else Some(NumberOf(st))
  }

  /** Groups in their order of creation and the data points of those that have one. */
  ghost predicate Emitted(cast: Cast, views: seq<Series>, out: seq<DataPoint>) {
    if views == [] then out == []
    else
      var last, n := views[|views| - 1], |views| - 1;
      || (Yields(cast, last, None) && Emitted(cast, views[..n], out))
      || (out != [] && Yields(cast, last, Some(out[|out| - 1])) && Emitted(cast, views[..n], out[..|out| - 1]))
  }

  /******* The sort *******/

  function Insert(ps: seq<Point>, p: Point): seq<Point> {
    if ps == [] || !Below(p.bound, ps[|ps| - 1].bound) then ps + [p]
    else Insert(ps[..|ps| - 1], p) + [ps[|ps| - 1]]
  }

  lemma BelowOrders(a: Bound, b: Bound, c: Bound)
    ensures !Below(b, a) && !Below(c, b) ==> !Below(c, a)
    ensures Below(a, b) ==> !Below(b, a)
  {
  }

  /** A last point that is not below the one before it. */
  lemma AppendSorted(ps: seq<Point>, p: Point)
    requires SortedPoints(ps)
    requires forall q :: q in ps ==> !Below(p.bound, q.bound)
    ensures SortedPoints(ps + [p])
  {
  }

  lemma {:induction false} InsertKeeps(ps: seq<Point>, p: Point)
    ensures multiset(Insert(ps, p)) == multiset(ps) + multiset{p}
    ensures forall q :: q in Insert(ps, p) ==> q in ps || q == p
  {
    if ps != [] && Below(p.bound, ps[|ps| - 1].bound) {
      InsertKeeps(ps[..|ps| - 1], p);
      assert ps == ps[..|ps| - 1] + [ps[|ps| - 1]];
    }
  }

  lemma {:induction false} InsertSorts(ps: seq<Point>, p: Point)
    requires SortedPoints(ps)
    ensures SortedPoints(Insert(ps, p))
  {
    if ps != [] {
      var n := |ps| - 1;
      if Below(p.bound, ps[n].bound) {
        InsertSorts(ps[..n], p);
        InsertKeeps(ps[..n], p);
        BelowOrders(p.bound, ps[n].bound, ps[n].bound);
        AppendSorted(Insert(ps[..n], p), ps[n]);
      } else {
        forall q | q in ps ensures !Below(p.bound, q.bound) {
          BelowOrders(q.bound, ps[n].bound, p.bound);
        }
        AppendSorted(ps, p);
      }
    }
  }

  /******* Groups *******/

  method FillBuckets(points: seq<Point>, count: Float, cast: Cast, pointIsStale: bool)
    returns (bounds: array<Bound>, bucketCounts: array<int>)
    requires IsCast(cast)
    ensures bounds[..] == Bounds(points)
    ensures bucketCounts[..] == if pointIsStale then Buckets.Zeros(|points| + 1) else Rises(cast, Levels(points, count))
  {
    hide Rises, Levels;
    var n := |points|;
    ghost var wanted := if pointIsStale then Buckets.Zeros(n + 1) else Rises(cast, Levels(points, count));
    RiseOf(cast, points, count, 0);
    assert cast(Number(0)) == 0 && |wanted| == n + 1;
    bounds := new Bound[n](_ => PosInf);
    bucketCounts := new int[n + 1];
    var adjustedCount: Float;
    for i := 0 to n
      invariant bounds[..i] == Bounds(points)[..i]
      invariant bucketCounts[..i] == wanted[..i]
    {
      RiseOf(cast, points, count, i);
      bounds[i] := points[i].bound;
      adjustedCount := points[i].value;
      if pointIsStale {
        adjustedCount := Number(0);
      } else if i != 0 {
        adjustedCount := Minus(adjustedCount, points[i - 1].value);
      }
      bucketCounts[i] := cast(adjustedCount);
    }
    RiseOf(cast, points, count, n);
    adjustedCount := count;
    if pointIsStale {
      adjustedCount := Number(0);
    } else if n > 0 {
      adjustedCount := Minus(adjustedCount, points[n - 1].value);
    }
    bucketCounts[n] := cast(adjustedCount);
  }

  /** The group of one series, whose fields are filled sample by sample. */
  class MetricGroup {
    const mtype: OtlpType
    const ls: Labels
    var ts: int
    var count: Float
    var hasCount: bool
    var sum: Float
    var hasSum: bool
    var createdSeconds: Float
    var value: Float
    var hasValue: bool
    var hValue: Option<IntHistogram>
    var fhValue: Option<FloatHistogram>
    var complexValue: seq<Point>
    var isNHCB: bool

    constructor (mtype: OtlpType, ls: Labels, ts: int)
      requires SortedLabels(ls)
      ensures Valid() && View() == EmptySeries(mtype, ls, ts)
    {
      this.mtype, this.ls, this.ts := mtype, ls, ts;
      count, hasCount, sum, hasSum, createdSeconds := Number(0), false, Number(0), false, Number(0);
      value, hasValue, hValue, fhValue, complexValue, isNHCB := Number(0), false, None, None, [], false;
    }

    ghost predicate Valid()
      reads this
    {
      && SortedLabels(ls)
      && (hasSum || sum == Number(0))
      && (mtype.ExponentialHistogram? && hValue.Some? ==> hValue.value.Sound())
      && (mtype.ExponentialHistogram? && fhValue.Some? ==> fhValue.value.Sound())
    }

    ghost function View(): Series
      reads this
    {
      Series(mtype, ls, ts, if hasCount then Some(count) else None, if hasSum then Some(sum) else None, createdSeconds,
             complexValue, if hasValue then Some(value) else None, Native(isNHCB, hValue, fhValue))
    }

    method AddSeries(family: string, parse: ParseBound, s: Sample) returns (ok: bool)
      requires Valid()
      modifies this
      ensures Valid() && View() == Collect(family, parse, old(View()), s)
      ensures ok <==> s.ts == old(ts) && !KindOf(mtype, family, parse, s).Malformed?
    {
      if ts != s.ts {
        return false;
      }
      match mtype {
        case ExponentialHistogram =>
          if s.name == family + "_created" {
            createdSeconds := s.v;
          }
        case Sum =>
          if s.name == family + "_created" {
            createdSeconds := s.v;
          } else {
            value, hasValue := s.v, true;
          }
        case Gauge =>
          value, hasValue := s.v, true;
        case Empty =>
          value, hasValue := s.v, true;
        case _ =>
          ok := AddToDistribution(family, parse, s);
          return;
      }
      return true;
    }

    /** A sample of a histogram or a summary. */
    method AddToDistribution(family: string, parse: ParseBound, s: Sample) returns (ok: bool)
      requires Valid() && (mtype.Histogram? || mtype.Summary?) && s.ts == ts
      modifies this
      ensures Valid() && View() == Collect(family, parse, old(View()), s)
      ensures ok <==> !KindOf(mtype, family, parse, s).Malformed?
    {
      hide HasSuffix, Lookup, BoundLabel, SortedLabels;
      if HasSuffix(s.name, "_sum") {
        sum, hasSum := s.v, true;
      } else if HasSuffix(s.name, "_count") {
        ts, count, hasCount := s.ts, s.v, true;
      } else if s.name == family + "_created" {
        createdSeconds := s.v;
      } else {
        var val := Lookup(s.ls, BoundLabel(mtype));
        if val == "" {
          return false;
        }
        var boundary := parse(val);
        if boundary.None? {
          return false;
        }
        complexValue := complexValue + [Point(s.v, boundary.value)];
      }
      return true;
    }

    method AddNHCBSeries(t: int, h: Option<IntHistogram>, fh: Option<FloatHistogram>) returns (ok: bool)
      requires Valid()
      modifies this
      ensures Valid() && View() == CollectNHCB(old(View()), t, h, fh)
      ensures ok <==> t == old(ts) && mtype.Histogram? && (h.Some? || fh.Some?)
    {
      if ts != t || !mtype.Histogram? {
        return false;
      }
      isNHCB := true;
      if h.Some? {
        hValue, count, hasCount, sum, hasSum := h, Number(h.value.count), true, h.value.sum, true;
      } else if fh.Some? {
        fhValue, count, hasCount, sum, hasSum := fh, fh.value.count, true, fh.value.sum, true;
      } else {
        return false;
      }
      return true;
    }

    /** A histogram with fewer values than buckets would crash the conversion later on. */
    method AddExponentialHistogramSeries(t: int, h: Option<IntHistogram>, fh: Option<FloatHistogram>)
      returns (ok: bool)
      requires Valid()
      requires h.Some? ==> h.value.Sound()
      requires fh.Some? ==> fh.value.Sound()
      modifies this
      ensures Valid() && View() == CollectExponential(old(View()), t, h, fh)
      ensures ok <==>
        t == old(ts) && mtype.ExponentialHistogram? && !(fh.Some? && old(hValue).Some?)
        && !(fh.None? && h.Some? && old(fhValue).Some?)
    {
      if ts != t || !mtype.ExponentialHistogram? {
        return false;
      }
      if fh.Some? {
        if hValue.Some? {
          return false;
        }
        count, sum, hasCount, hasSum, fhValue := fh.value.count, fh.value.sum, true, true, fh;
      } else if h.Some? {
        if fhValue.Some? {
          return false;
        }
        count, sum, hasCount, hasSum, hValue := Number(h.value.count), h.value.sum, true, true, h;
      }
      return true;
    }

    method SortPoints()
      modifies this`complexValue
      ensures IsSorting(old(complexValue), complexValue)
    {
      var points, sorted := complexValue, [];
      for i := 0 to |points|
        invariant SortedPoints(sorted) && multiset(sorted) == multiset(points[..i])
      {
        InsertSorts(sorted, points[i]);
        InsertKeeps(sorted, points[i]);
        assert points[..i + 1] == points[..i] + [points[i]];
        sorted := Insert(sorted, points[i]);
      }
      assert points[..|points|] == points;
      complexValue := sorted;
    }

    /** Bounds and counts of the sorted buckets; if the final bucket is +Inf, it is ignored. */
    method ClassicBuckets(cast: Cast, pointIsStale: bool) returns (bounds: array<Bound>, bucketCounts: array<int>)
      requires IsCast(cast)
      ensures bounds[..] == Bounds(Kept(complexValue))
      ensures bucketCounts[..] == if pointIsStale then Buckets.Zeros(|Kept(complexValue)| + 1)
                                  else Rises(cast, Levels(Kept(complexValue), count))
    {
      var bucketCount := |complexValue| + 1;
      if bucketCount > 1 && complexValue[bucketCount - 2].bound == PosInf {
        bucketCount := bucketCount - 1;
      }
      assert complexValue[..bucketCount - 1] == Kept(complexValue);
      bounds, bucketCounts := FillBuckets(complexValue[..bucketCount - 1], count, cast, pointIsStale);
    }

    /** The point with the given buckets. */
    method MakePoint(cast: Cast, bounds: seq<Bound>, bucketCounts: seq<int>) returns (point: DataPoint)
      requires Valid() && hasCount
      ensures point == WithBuckets(cast, View(), bounds, bucketCounts)
    {
      var pointIsStale := sum == StaleNaN || count == StaleNaN;
      SortedNotUseful(MetricNames.Histogram);
      var attributes := PopulateAttributes(ls, NotUseful(MetricNames.Histogram));
      var pointCount: nat := 0;
      var pointSum: Option<Float>, start: Option<Float> := None, None;
      if !pointIsStale {
        pointCount := cast(count);
        if hasSum {
          pointSum := Some(sum);
        }
      }
      if createdSeconds != Number(0) {
        start := Some(createdSeconds);
      }
      point := HistogramPoint(pointIsStale, pointCount, pointSum, bounds, bucketCounts, start, ts, attributes);
    }

    method ToNHCBPoint(cast: Cast) returns (d: Option<DataPoint>)
      requires Valid() && hasCount
      ensures YieldsNHCB(cast, View(), d)
    {
      var bounds: seq<Bound>, bucketCounts: seq<int> := [], [];
      if hValue.Some? {
        var h := hValue.value;
        if |h.customValues| == 0 {
          return None;
        }
        var converted := CustomBuckets.ConvertNHCBDeltaBuckets(|h.customValues|, h.positive.spans, h.positive.values);
        bounds, bucketCounts := h.customValues, converted[..];
        assert bucketCounts == IntCounts(h);
      } else if fhValue.Some? {
        var fh := fhValue.value;
        if |fh.customValues| == 0 {
          return None;
        }
        var sparse := fh.positive;
        var converted := CustomBuckets.ConvertNHCBAbsoluteBuckets(|fh.customValues|, sparse.spans, sparse.values);
        bounds, bucketCounts := fh.customValues, converted[..];
        assert bucketCounts == FloatCounts(fh);
      }
      var point := MakePoint(cast, bounds, bucketCounts);
      return Some(point);
    }

    method ToDistributionPoint(cast: Cast) returns (d: Option<DataPoint>)
      requires IsCast(cast) && Valid() && mtype.Histogram?
      modifies this`complexValue
      ensures Valid() && Yields(cast, old(View()), d)
    {
      if !hasCount {
        return None;
      }
      SortPoints();
      if isNHCB {
        d := ToNHCBPoint(cast);
        NativeIgnoresPoints(cast, old(View()), complexValue, d);
        return;
      }
      var pointIsStale := sum == StaleNaN || count == StaleNaN;
      var bounds, bucketCounts := ClassicBuckets(cast, pointIsStale);
      var point := MakePoint(cast, bounds[..], bucketCounts[..]);
      assert point == PointOf(cast, View());
      return Some(point);
    }

    method ToSummaryPoint(cast: Cast) returns (d: Option<DataPoint>)
      requires Valid() && mtype.Summary?
      modifies this`complexValue
      ensures Valid() && Yields(cast, old(View()), d)
    {
      if !hasCount {
        return None;
      }
      SortPoints();
      var pointIsStale := sum == StaleNaN || count == StaleNaN;
      var quantiles := CopyQuantiles(complexValue, pointIsStale);
      SortedNotUseful(MetricNames.Summary);
      var attributes := PopulateAttributes(ls, NotUseful(MetricNames.Summary));
      var pointCount: nat := 0;
      var pointSum: Option<Float>, start: Option<Float> := None, None;
      if !pointIsStale {
        if hasSum {
          pointSum := Some(sum);
        }
        pointCount := cast(count);
      }
      if createdSeconds != Number(0) {
        start := Some(createdSeconds);
      }
      var point := SummaryPoint(pointIsStale, pointCount, pointSum, quantiles, start, ts, attributes);
      assert point == SummaryOf(cast, View());
      return Some(point);
    }

    method ToNumberDataPoint(cast: Cast) returns (d: Option<DataPoint>)
      requires Valid() && (mtype.Sum? || mtype.Gauge? || mtype.Empty?)
      ensures Yields(cast, View(), d)
    {
      if !hasValue {
        return None;
      }
      SortedNotUseful(MetricNames.Gauge);
      var attributes := PopulateAttributes(ls, NotUseful(MetricNames.Gauge));
      var noRecordedValue := false;
      var pointValue: Option<Float>, start: Option<Float> := None, None;
      if mtype.Sum? {
        if createdSeconds != Number(0) {
          start := Some(createdSeconds);
        }
      }
      if value == StaleNaN {
        noRecordedValue := true;
      } else {
        pointValue := Some(value);
      }
      return Some(NumberPoint(noRecordedValue, pointValue, start, ts, attributes));
    }

    /** The parts that all points of exponential histograms have. */
    method StartAndAttributes() returns (start: Option<Float>, attributes: Labels)
      requires Valid()
      ensures start == Start(View()) && attributes == Attributes(MetricNames.Histogram, ls)
    {
      start := None;
      if createdSeconds != Number(0) {
        start := Some(createdSeconds);
      }
      SortedNotUseful(MetricNames.Histogram);
      attributes := PopulateAttributes(ls, NotUseful(MetricNames.Histogram));
    }

    method ToExponentialHistogramDataPoint(cast: Cast) returns (d: Option<DataPoint>)
      requires Valid() && mtype.ExponentialHistogram?
      ensures Yields(cast, View(), d)
    {
      if !hasCount {
        return None;
      }
      if fhValue.None? && hValue.None? {
        return Some(ExponentialPoint(false, 0, 0, None, 0.0, 0, NO_BUCKETS, NO_BUCKETS, None, ts, []));
      }
      var start, attributes := StartAndAttributes();
      if fhValue.Some? {
        var fh := fhValue.value;
        if fh.sum == StaleNaN {
          return Some(ExponentialPoint(true, 0, 0, None, 0.0, 0, NO_BUCKETS, NO_BUCKETS, start, ts, attributes));
        }
        var positive := ConvertFloats(fh.positive);
        var negative := ConvertFloats(fh.negative);
        return Some(ExponentialPoint(false, fh.schema, cast(fh.count), Some(fh.sum), fh.zeroThreshold,
                                     cast(fh.zeroCount), positive, negative, start, ts, attributes));
      }
      var h := hValue.value;
      if h.sum == StaleNaN {
        return Some(ExponentialPoint(true, 0, 0, None, 0.0, 0, NO_BUCKETS, NO_BUCKETS, start, ts, attributes));
      }
      var positive := ConvertDeltas(h.positive);
      var negative := ConvertDeltas(h.negative);
      return Some(ExponentialPoint(false, h.schema, h.count, Some(h.sum), h.zeroThreshold, h.zeroCount,
                                   positive, negative, start, ts, attributes));
    }

    /** The data point that the family's type calls for. */
    method ToDataPoint(cast: Cast) returns (d: Option<DataPoint>)
      requires IsCast(cast) && Valid()
      modifies this`complexValue
      ensures Valid() && Yields(cast, old(View()), d)
    {
      match mtype
      case Histogram => d := ToDistributionPoint(cast);
      case Summary => d := ToSummaryPoint(cast);
      case ExponentialHistogram => d := ToExponentialHistogramDataPoint(cast);
      case _ => d := ToNumberDataPoint(cast);
    }
  }

  method ConvertDeltas(b: Sparse<int>) returns (converted: OtlpBuckets)
    requires b.Sound()
    ensures converted == IntBuckets(b)
  {
    converted := NO_BUCKETS;
    if |b.spans| > 0 {
      var counts := Buckets.ConvertDeltaBuckets(b.spans, b.values);
      converted := OtlpBuckets(b.spans[0].offset - 1, counts);
    }
  }

  method ConvertFloats(b: Sparse<real>) returns (converted: OtlpBuckets)
    requires b.Sound()
    ensures converted == FloatBuckets(b)
  {
    converted := NO_BUCKETS;
    if |b.spans| > 0 {
      var counts := Buckets.ConvertAbsoluteBuckets(b.spans, b.values);
      converted := OtlpBuckets(b.spans[0].offset - 1, counts);
    }
  }

  method CopyQuantiles(points: seq<Point>, pointIsStale: bool) returns (quantiles: seq<Point>)
    ensures quantiles == Quantiles(pointIsStale, points)
  {
    quantiles := [];
    for i := 0 to |points|
      invariant quantiles == Quantiles(pointIsStale, points)[..i]
    {
      var p := points[i];
      var quantile := Point(Number(0), p.bound);
      if !pointIsStale {
        quantile := quantile.(value := p.value);
      }
      quantiles := quantiles + [quantile];
    }
  }

  /** With custom buckets the sorted points are not looked at. */
  lemma NativeIgnoresPoints(cast: Cast, st: Series, sorted: seq<Point>, d: Option<DataPoint>)
    requires st.count.Some?
    ensures YieldsNHCB(cast, st.(points := sorted), d) <==> YieldsNHCB(cast, st, d)
  {
    var st' := st.(points := sorted);
    forall bounds, counts ensures WithBuckets(cast, st', bounds, counts) == WithBuckets(cast, st, bounds, counts) {
    }
    hide WithBuckets, IntCounts, FloatCounts;
  }
}
