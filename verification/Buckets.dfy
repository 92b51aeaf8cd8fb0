/** The sparse buckets of native Prometheus histograms and their dense OTLP form.

    A sparse histogram lists spans of consecutive buckets. Each span says how many empty buckets lie
    before it and how many buckets it has; the values of all spans are one sequence. */
module Buckets {

  /** `offset` is the gap to the previous span, for the first span the index of its first bucket. */
  datatype Span = Span(offset: int, length: nat)

  const TWO_TO_THE_64: int := 0x1_0000_0000_0000_0000

  function Zeros(n: nat): seq<int> {
    seq(n, _ => 0)
  }

  /** The number of values that the spans take. */
  function Taken(spans: seq<Span>): nat {
    if spans == [] then 0 else Taken(spans[..|spans| - 1]) + spans[|spans| - 1].length
  }

  /** The position right behind the last bucket, counting gaps. */
  function End(spans: seq<Span>): int {
    if spans == [] then 0 else End(spans[..|spans| - 1]) + spans[|spans| - 1].offset + spans[|spans| - 1].length
  }

  /** The position of the first bucket of span `i`. */
  function Begin(spans: seq<Span>, i: nat): int
    requires i < |spans|
  {
    End(spans[..i]) + spans[i].offset
  }

  predicate NoNegativeGap(spans: seq<Span>) {
    forall i :: 0 <= i < |spans| ==> spans[i].offset >= 0
  }

  /** The dense form: for each span its gap as zeros, then its values. */
  ghost function Dense(spans: seq<Span>, values: seq<int>): seq<int>
    requires NoNegativeGap(spans) && Taken(spans) <= |values|
  {
    if spans == [] then []
    else
      var front, last := spans[..|spans| - 1], spans[|spans| - 1];
      Dense(front, values) + Zeros(last.offset) + values[Taken(front)..Taken(spans)]
  }

  /** The conversion of a signed integer wraps around. */
  function Uint64(x: int): int {
    x % TWO_TO_THE_64
  }

  /** The running sums of the deltas, as `uint64` holds them. */
  ghost function RunningSums(deltas: seq<int>): seq<int> {
    seq(|deltas|, i requires 0 <= i < |deltas| => Uint64(Total(deltas[..i + 1])))
  }

  function Total(s: seq<int>): int {
    if s == [] then 0 else Total(s[..|s| - 1]) + s[|s| - 1]
  }

  /** The conversion of a non-negative float drops the fraction. */
  function Truncate(x: real): int {
    if x >= 0.0 then x.Floor else -((-x).Floor)
  }

  ghost function Truncated(counts: seq<real>): seq<int> {
    seq(|counts|, i requires 0 <= i < |counts| => Truncate(counts[i]))
  }

  /******* Where values and gaps are *******/

  lemma {:induction false} TakenMonotone(spans: seq<Span>, i: nat)
    requires i <= |spans|
    ensures Taken(spans[..i]) <= Taken(spans)
    ensures i < |spans| ==> Taken(spans[..i]) + spans[i].length <= Taken(spans)
  {
    if i < |spans| {
      var n := |spans| - 1;
      if i < n {
        TakenMonotone(spans[..n], i);
        assert spans[..n][..i] == spans[..i];
      }
    } else {
      assert spans[..i] == spans;
    }
  }

  lemma {:induction false} DenseLength(spans: seq<Span>, values: seq<int>)
    requires NoNegativeGap(spans) && Taken(spans) <= |values|
    ensures |Dense(spans, values)| == End(spans)
  {
    if spans != [] {
      DenseLength(spans[..|spans| - 1], values);
    }
  }

  lemma ThreeParts(a: seq<int>, n: nat, c: seq<int>, j: nat)
    ensures j < |c| ==> (a + Zeros(n) + c)[|a| + n + j] == c[j]
    ensures j < |a| ==> (a + Zeros(n) + c)[j] == a[j]
  {
  }

  /** The dense form of all spans is that of all but the last, a gap, and the last values. */
  lemma DenseParts(spans: seq<Span>, values: seq<int>)
    requires NoNegativeGap(spans) && Taken(spans) <= |values| && spans != []
    ensures var n := |spans| - 1; var front := spans[..n];
      && Taken(spans) == Taken(front) + spans[n].length
      && |Dense(front, values)| == End(front) && Begin(spans, n) == End(front) + spans[n].offset
      && |Dense(spans, values)| == End(front) + spans[n].offset + spans[n].length
      && Dense(spans, values) == Dense(front, values) + Zeros(spans[n].offset) + values[Taken(front)..Taken(spans)]
  {
    DenseLength(spans[..|spans| - 1], values);
  }

  /** Bucket `j` of span `i` holds the value that the spans before it left over. */
  lemma {:induction false} DenseAt(spans: seq<Span>, values: seq<int>, i: nat, j: nat)
    requires NoNegativeGap(spans) && Taken(spans) <= |values| && i < |spans| && j < spans[i].length
    ensures 0 <= Begin(spans, i) + j < |Dense(spans, values)|
    ensures Taken(spans[..i]) + j < |values|
    ensures Dense(spans, values)[Begin(spans, i) + j] == values[Taken(spans[..i]) + j]
  {
    hide Dense, Zeros, Taken, End, Begin;
    var n := |spans| - 1;
    var front := spans[..n];
    DenseParts(spans, values);
    var a, c := Dense(front, values), values[Taken(front)..Taken(spans)];
    if i < n {
      DenseAt(front, values, i, j);
      BeginFront(spans, i);
      ThreeParts(a, spans[n].offset, c, Begin(spans, i) + j);
    } else {
      ThreeParts(a, spans[n].offset, c, j);
    }
  }

  lemma BeginFront(spans: seq<Span>, i: nat)
    requires i < |spans| - 1
    ensures spans[..|spans| - 1][..i] == spans[..i] && Begin(spans[..|spans| - 1], i) == Begin(spans, i)
  {
    assert spans[..|spans| - 1][..i] == spans[..i];
  }

  /** A position that no span covers holds zero. */
  lemma {:induction false} DenseGap(spans: seq<Span>, values: seq<int>, k: nat)
    requires NoNegativeGap(spans) && Taken(spans) <= |values| && k < |Dense(spans, values)|
    requires forall i :: 0 <= i < |spans| ==> !(Begin(spans, i) <= k < Begin(spans, i) + spans[i].length)
    ensures Dense(spans, values)[k] == 0
  {
    var n := |spans| - 1;
    var front := spans[..n];
    DenseLength(front, values);
    DenseLength(spans, values);
    assert spans[..n] == front && Begin(spans, n) == End(front) + spans[n].offset;
    if k < |Dense(front, values)| {
      forall i | 0 <= i < n ensures Begin(front, i) == Begin(spans, i) {
        assert front[..i] == spans[..i];
      }
      DenseGap(front, values, k);
    }
  }

  /******* Conservation *******/

  lemma {:induction false} TotalConcat(a: seq<int>, b: seq<int>)
    ensures Total(a + b) == Total(a) + Total(b)
  {
    if b == [] {
      assert a + b == a;
    } else {
      var n := |b| - 1;
      assert (a + b)[..|a + b| - 1] == a + b[..n];
      TotalConcat(a, b[..n]);
    }
  }

  lemma {:induction false} TotalZeros(n: nat)
    ensures Total(Zeros(n)) == 0
  {
    if n > 0 {
      assert Zeros(n)[..n - 1] == Zeros(n - 1);
      TotalZeros(n - 1);
    }
  }

  /** The dense form holds each value once. */
  lemma {:induction false} DenseTotal(spans: seq<Span>, values: seq<int>)
    requires NoNegativeGap(spans) && Taken(spans) <= |values|
    ensures Total(Dense(spans, values)) == Total(values[..Taken(spans)])
  {
    if spans != [] {
      var front, last := spans[..|spans| - 1], spans[|spans| - 1];
      DenseTotal(front, values);
      var mine := values[Taken(front)..Taken(spans)];
      TotalConcat(Dense(front, values) + Zeros(last.offset), mine);
      TotalConcat(Dense(front, values), Zeros(last.offset));
      TotalZeros(last.offset);
      TotalConcat(values[..Taken(front)], mine);
      assert values[..Taken(front)] + mine == values[..Taken(spans)];
    } else {
      assert values[..0] == [];
    }
  }

  /******* Exponential histograms *******/

  /** The gaps as the converters see them: none before the first span, which the OTLP offset covers,
      and none where an offset is negative. */
  function InnerGap(i: nat, span: Span): nat {
    if i > 0 && span.offset > 0 then span.offset else 0
  }

  function Inner(spans: seq<Span>): (r: seq<Span>)
    ensures |r| == |spans| && NoNegativeGap(r)
    ensures forall i :: 0 <= i < |spans| ==> r[i] == Span(InnerGap(i, spans[i]), spans[i].length)
  {
    seq(|spans|, i requires 0 <= i < |spans| => Span(InnerGap(i, spans[i]), spans[i].length))
  }

  lemma {:induction false} TakenInner(spans: seq<Span>)
    ensures Taken(Inner(spans)) == Taken(spans)
  {
    if spans != [] {
      var n := |spans| - 1;
      assert Inner(spans)[..n] == Inner(spans[..n]);
      TakenInner(spans[..n]);
    }
  }

  /** The next span of the dense form, after `j` of its values. */
  lemma InnerPrefix(spans: seq<Span>, values: seq<int>, i: nat)
    requires i < |spans| && Taken(spans) <= |values|
    ensures Inner(spans)[..i + 1] == Inner(spans[..i + 1]) && Inner(spans)[..i] == Inner(spans[..i])
    ensures Taken(Inner(spans[..i])) == Taken(spans[..i])
    ensures Taken(spans[..i + 1]) == Taken(spans[..i]) + spans[i].length <= |values|
    ensures Taken(Inner(spans[..i + 1])) == Taken(spans[..i + 1])
    ensures Dense(Inner(spans[..i + 1]), values)
         == Dense(Inner(spans[..i]), values) + Zeros(InnerGap(i, spans[i]))
            + values[Taken(spans[..i])..Taken(spans[..i + 1])]
  {
    TakenMonotone(spans, i);
    TakenMonotone(spans, i + 1);
    TakenInner(spans[..i]);
    TakenInner(spans[..i + 1]);
    assert spans[..i + 1][..i] == spans[..i];
    assert Inner(spans[..i + 1])[..i] == Inner(spans[..i]);
  }

  method AppendZeros(buckets: seq<int>, n: int) returns (r: seq<int>)
    ensures r == buckets + Zeros(if n > 0 then n else 0)
  {
    r := buckets;
    var i := 0;
    while i < n
      invariant 0 <= i <= (if n > 0 then n else 0)
      invariant r == buckets + Zeros(i)
    {
      r := r + [0];
      i := i + 1;
    }
  }

  lemma RunningStep(deltas: seq<int>, start: nat, k: nat)
    requires start <= k < |deltas|
    ensures Total(deltas[..k + 1]) == Total(deltas[..k]) + deltas[k]
    ensures |RunningSums(deltas)| == |deltas| && RunningSums(deltas)[k] == Uint64(Total(deltas[..k + 1]))
    ensures RunningSums(deltas)[start..k + 1] == RunningSums(deltas)[start..k] + [RunningSums(deltas)[k]]
  {
    assert deltas[..k + 1][..k] == deltas[..k];
  }

  /** `buckets` is the dense form of the first `i` spans. */
  ghost predicate Appended(buckets: seq<int>, spans: seq<Span>, values: seq<int>, i: nat, taken: int) {
    && i <= |spans| && taken == Taken(spans[..i]) == Taken(Inner(spans[..i])) <= |values|
    && buckets == Dense(Inner(spans[..i]), values)
  }

  /** The same, followed by the gap and `j` values of span `i`. */
  ghost predicate Appending(buckets: seq<int>, spans: seq<Span>, values: seq<int>, i: nat, j: nat, taken: int) {
    && i < |spans| && j <= spans[i].length && Taken(spans) <= |values|
    && Taken(spans[..i]) == Taken(Inner(spans[..i])) && taken == Taken(spans[..i]) + j <= |values|
    && buckets == Dense(Inner(spans[..i]), values) + Zeros(InnerGap(i, spans[i])) + values[Taken(spans[..i])..taken]
  }

  lemma NothingAppended(spans: seq<Span>, values: seq<int>)
    ensures Appended([], spans, values, 0, 0)
  {
    assert spans[..0] == [];
  }

  lemma AppendGap(buckets: seq<int>, spans: seq<Span>, values: seq<int>, i: nat, taken: int)
    requires Taken(spans) <= |values| && i < |spans| && Appended(buckets, spans, values, i, taken)
    ensures Appending(buckets + Zeros(InnerGap(i, spans[i])), spans, values, i, 0, taken)
  {
    assert values[taken..taken] == [];
  }

  lemma AppendOne(buckets: seq<int>, spans: seq<Span>, values: seq<int>, i: nat, j: nat, taken: int)
    requires Appending(buckets, spans, values, i, j, taken) && j < spans[i].length
    ensures 0 <= taken < |values| && Appending(buckets + [values[taken]], spans, values, i, j + 1, taken + 1)
  {
    hide Dense, Taken, Inner, InnerGap, Zeros;
    TakenMonotone(spans, i);
    ExtendSlice(Dense(Inner(spans[..i]), values) + Zeros(InnerGap(i, spans[i])), values, Taken(spans[..i]), taken);
  }

  lemma ExtendSlice(head: seq<int>, values: seq<int>, a: nat, b: nat)
    requires a <= b < |values|
    ensures head + values[a..b] + [values[b]] == head + values[a..b + 1]
  {
    assert values[a..b] + [values[b]] == values[a..b + 1];
  }

  lemma AppendDone(buckets: seq<int>, spans: seq<Span>, values: seq<int>, i: nat, taken: int)
    requires i < |spans| && Appending(buckets, spans, values, i, spans[i].length, taken)
    ensures Appended(buckets, spans, values, i + 1, taken)
  {
    InnerPrefix(spans, values, i);
  }

  lemma AllAppended(buckets: seq<int>, spans: seq<Span>, values: seq<int>, taken: int)
    requires Appended(buckets, spans, values, |spans|, taken)
    ensures Taken(Inner(spans)) <= |values| && buckets == Dense(Inner(spans), values)
  {
    assert spans[..|spans|] == spans;
  }

  /** Integer histograms, whose values are differences to the previous bucket. */
  method ConvertDeltaBuckets(spans: seq<Span>, deltas: seq<int>) returns (buckets: seq<int>)
    requires Taken(spans) <= |deltas|
    ensures Taken(Inner(spans)) <= |deltas|
    ensures buckets == Dense(Inner(spans), RunningSums(deltas))
  {
    buckets := [];
    var bucketIdx, bucketCount := 0, 0;
    ghost var values := RunningSums(deltas);
    NothingAppended(spans, values);
    assert |values| == |deltas| && deltas[..0] == [];
    hide Appended, Appending, Dense, Inner, InnerGap, Taken, Total, RunningSums, Uint64, Zeros;
    for spanIdx := 0 to |spans|
      invariant 0 <= bucketIdx <= |deltas| && bucketCount == Total(deltas[..bucketIdx])
      invariant Appended(buckets, spans, values, spanIdx, bucketIdx)
    {
      AppendGap(buckets, spans, values, spanIdx, bucketIdx);
      if spanIdx > 0 {
        buckets := AppendZeros(buckets, spans[spanIdx].offset);
      } else {
        NoGap(buckets, spans[spanIdx]);
      }
      GapSize(spanIdx, spans[spanIdx]);
      for i := 0 to spans[spanIdx].length
        invariant 0 <= bucketIdx <= |deltas| && bucketCount == Total(deltas[..bucketIdx])
        invariant Appending(buckets, spans, values, spanIdx, i, bucketIdx)
      {
        AppendOne(buckets, spans, values, spanIdx, i, bucketIdx);
        RunningStep(deltas, bucketIdx, bucketIdx);
        bucketCount := bucketCount + deltas[bucketIdx];
        bucketIdx := bucketIdx + 1;
        buckets := buckets + [Uint64(bucketCount)];
      }
      AppendDone(buckets, spans, values, spanIdx, bucketIdx);
    }
    AllAppended(buckets, spans, values, bucketIdx);
  }

  lemma NoGap(buckets: seq<int>, span: Span)
    ensures buckets == buckets + Zeros(InnerGap(0, span))
  {
  }

  lemma GapSize(i: nat, span: Span)
    ensures i > 0 ==> InnerGap(i, span) == if span.offset > 0 then span.offset else 0
  {
  }

  /** Float histograms, whose values are the counts themselves. */
  method ConvertAbsoluteBuckets(spans: seq<Span>, counts: seq<real>) returns (buckets: seq<int>)
    requires Taken(spans) <= |counts|
    ensures Taken(Inner(spans)) <= |counts|
    ensures buckets == Dense(Inner(spans), Truncated(counts))
  {
    buckets := [];
    var bucketIdx := 0;
    ghost var values := Truncated(counts);
    NothingAppended(spans, values);
    assert |values| == |counts| && forall i :: 0 <= i < |counts| ==> values[i] == Truncate(counts[i]);
    hide Appended, Appending, Dense, Inner, InnerGap, Taken, Truncated, Truncate, Zeros;
    for spanIdx := 0 to |spans|
      invariant 0 <= bucketIdx <= |counts|
      invariant Appended(buckets, spans, values, spanIdx, bucketIdx)
    {
      AppendGap(buckets, spans, values, spanIdx, bucketIdx);
      if spanIdx > 0 {
        buckets := AppendZeros(buckets, spans[spanIdx].offset);
      } else {
        NoGap(buckets, spans[spanIdx]);
      }
      GapSize(spanIdx, spans[spanIdx]);
      for i := 0 to spans[spanIdx].length
        invariant 0 <= bucketIdx <= |counts|
        invariant Appending(buckets, spans, values, spanIdx, i, bucketIdx)
      {
        AppendOne(buckets, spans, values, spanIdx, i, bucketIdx);
        buckets := buckets + [Truncate(counts[bucketIdx])];
        bucketIdx := bucketIdx + 1;
      }
      AppendDone(buckets, spans, values, spanIdx, bucketIdx);
    }
    AllAppended(buckets, spans, values, bucketIdx);
  }

  /******* Sparse and dense mean the same *******/

  /** The OTLP data model: bucket `index` of a dense list that starts at bucket `offset`. */
  ghost function OtlpCount(offset: int, buckets: seq<int>, index: int): int {
    if 0 <= index - offset < |buckets| then buckets[index - offset] else 0
  }

  /** The Prometheus data model: bucket `index` is bucket `j` of span `i`. */
  ghost predicate IsPrometheusBucket(spans: seq<Span>, index: int, i: nat, j: nat) {
    i < |spans| && j < spans[i].length && index == Begin(spans, i) + j
  }

  predicate NoNegativeInnerGap(spans: seq<Span>) {
    forall i :: 1 <= i < |spans| ==> spans[i].offset >= 0
  }

  /** A negative inner gap is treated as none, so from there on the dense form runs ahead. */
  lemma {:induction false} InnerEnd(spans: seq<Span>)
    requires spans != []
    ensures End(Inner(spans)) >= End(spans) - spans[0].offset
    ensures End(Inner(spans)) == End(spans) - spans[0].offset <==> NoNegativeInnerGap(spans)
  {
    var n := |spans| - 1;
    assert Inner(spans)[..n] == Inner(spans[..n]);
    if n > 0 {
      InnerEnd(spans[..n]);
      assert NoNegativeInnerGap(spans) <==> NoNegativeInnerGap(spans[..n]) && spans[n].offset >= 0;
    } else {
      assert spans[..0] == [] && Inner(spans)[..0] == [];
    }
  }

  /** The position of span `i` in the dense form is its Prometheus index less the first one, exactly
      when no inner gap up to it is negative. */
  lemma PositionExact(spans: seq<Span>, i: nat)
    requires i < |spans|
    ensures Begin(Inner(spans), i) == Begin(spans, i) - spans[0].offset <==> NoNegativeInnerGap(spans[..i + 1])
  {
    InnerEnd(spans[..i + 1]);
    assert spans[..i + 1][..i] == spans[..i];
    assert Inner(spans[..i + 1])[..i] == Inner(spans[..i]) == Inner(spans)[..i];
  }

  /** With the OTLP offset one less than the first span's, every Prometheus bucket has its value one
      index lower, because OTLP numbers buckets by their lower bounds. */
  lemma SparseInDense(spans: seq<Span>, values: seq<int>, index: int, i: nat, j: nat)
    requires NoNegativeInnerGap(spans) && Taken(spans) <= |values| && IsPrometheusBucket(spans, index, i, j)
    ensures Taken(Inner(spans)) <= |values| && Taken(spans[..i]) + j < |values|
    ensures OtlpCount(spans[0].offset - 1, Dense(Inner(spans), values), index - 1) == values[Taken(spans[..i]) + j]
  {
    hide Dense, Taken, End;
    TakenInner(spans);
    PositionExact(spans, i);
    DenseAt(Inner(spans), values, i, j);
    assert Inner(spans)[..i] == Inner(spans[..i]);
    TakenInner(spans[..i]);
  }

  /** All other buckets are empty. */
  lemma NothingElseInDense(spans: seq<Span>, values: seq<int>, index: int)
    requires spans != [] && NoNegativeInnerGap(spans) && Taken(spans) <= |values|
    requires forall i, j :: !IsPrometheusBucket(spans, index, i, j)
    ensures Taken(Inner(spans)) <= |values|
    ensures OtlpCount(spans[0].offset - 1, Dense(Inner(spans), values), index - 1) == 0
  {
    hide Dense, Taken, End, Inner;
    TakenInner(spans);
    var k := index - spans[0].offset;
    if 0 <= k < |Dense(Inner(spans), values)| {
      forall a | 0 <= a < |spans| ensures !(Begin(Inner(spans), a) <= k < Begin(Inner(spans), a) + spans[a].length) {
        PositionExact(spans, a);
        var j := index - Begin(spans, a);
        assert 0 <= j ==> !IsPrometheusBucket(spans, index, a, j);
      }
      DenseGap(Inner(spans), values, k);
    }
  }

  /** The dense form is as long as the spans and the gaps between them, and keeps the total. */
  lemma DenseFacts(spans: seq<Span>, values: seq<int>)
    requires spans != [] && NoNegativeInnerGap(spans) && Taken(spans) == |values|
    ensures Taken(Inner(spans)) <= |values|
    ensures |Dense(Inner(spans), values)| == End(spans) - spans[0].offset
    ensures Total(Dense(Inner(spans), values)) == Total(values)
  {
    TakenInner(spans);
    DenseLength(Inner(spans), values);
    InnerEnd(spans);
    DenseTotal(Inner(spans), values);
    assert values[..|values|] == values;
  }

  /** The dense form depends on the values taken only. */
  lemma {:induction false} DenseTakes(spans: seq<Span>, a: seq<int>, b: seq<int>)
    requires NoNegativeGap(spans) && Taken(spans) <= |a| && Taken(spans) <= |b|
    requires a[..Taken(spans)] == b[..Taken(spans)]
    ensures Dense(spans, a) == Dense(spans, b)
  {
    if spans != [] {
      var t, front := Taken(spans), spans[..|spans| - 1];
      assert a[..Taken(front)] == a[..t][..Taken(front)] == b[..t][..Taken(front)] == b[..Taken(front)];
      assert a[Taken(front)..t] == a[..t][Taken(front)..] == b[..t][Taken(front)..] == b[Taken(front)..t];
      DenseTakes(front, a, b);
    }
  }

  /** And it shows each of them. */
  lemma {:induction false} DenseShows(spans: seq<Span>, a: seq<int>, b: seq<int>)
    requires NoNegativeGap(spans) && Taken(spans) <= |a| && Taken(spans) <= |b| && Dense(spans, a) == Dense(spans, b)
    ensures a[..Taken(spans)] == b[..Taken(spans)]
  {
    if spans != [] {
      var front, last := spans[..|spans| - 1], spans[|spans| - 1];
      DenseLength(front, a);
      DenseLength(front, b);
      var n, t := |Dense(front, a)|, Taken(spans);
      assert Dense(spans, a)[..n] == Dense(front, a) && Dense(spans, b)[..n] == Dense(front, b);
      assert Dense(spans, a)[n + last.offset..] == a[Taken(front)..t];
      assert Dense(spans, b)[n + last.offset..] == b[Taken(front)..t];
      DenseShows(front, a, b);
      assert a[..t] == a[..Taken(front)] + a[Taken(front)..t];
      assert b[..t] == b[..Taken(front)] + b[Taken(front)..t];
    }
  }

  /** The delta and the absolute converter have the same result exactly if the truncated counts are the
      running sums of the deltas, as far as the spans take them. */
  lemma ConvertersAgreeExactly(spans: seq<Span>, deltas: seq<int>, counts: seq<real>)
    requires Taken(spans) <= |deltas| && Taken(spans) <= |counts|
    ensures Taken(Inner(spans)) == Taken(spans)
    ensures Dense(Inner(spans), RunningSums(deltas)) == Dense(Inner(spans), Truncated(counts)) <==>
      RunningSums(deltas)[..Taken(spans)] == Truncated(counts)[..Taken(spans)]
  {
    hide Dense, Taken, Inner, RunningSums, Truncated;
    TakenInner(spans);
    var a, b := RunningSums(deltas), Truncated(counts);
    Lengths(deltas, counts);
    if Dense(Inner(spans), a) == Dense(Inner(spans), b) {
      DenseShows(Inner(spans), a, b);
    }
    if a[..Taken(spans)] == b[..Taken(spans)] {
      DenseTakes(Inner(spans), a, b);
    }
  }

  lemma Lengths(deltas: seq<int>, counts: seq<real>)
    ensures |RunningSums(deltas)| == |deltas| && |Truncated(counts)| == |counts|
  {
  }

  /** The running sums, one from the other: each delta is added, modulo 2 to the 64th. */
  lemma RunningSumsExactly(deltas: seq<int>, i: nat)
    requires i < |deltas|
    ensures |RunningSums(deltas)| == |deltas|
    ensures var before := if i == 0 then 0 else RunningSums(deltas)[i - 1];
      RunningSums(deltas)[i] == (before + deltas[i]) % 0x1_0000_0000_0000_0000
  {
    RunningStep(deltas, i, i);
    assert deltas[..0] == [];
    hide Total;
    if i > 0 {
      WrapsOnce(Total(deltas[..i]), deltas[i]);
    } else {
      WrapsOnce(0, deltas[i]);
    }
  }

  lemma WrapsOnce(a: int, b: int)
    ensures (a % 0x1_0000_0000_0000_0000 + b) % 0x1_0000_0000_0000_0000 == (a + b) % 0x1_0000_0000_0000_0000
  {
  }

  /** The fraction is dropped, toward zero. */
  lemma TruncateExactly(x: real)
    ensures x >= 0.0 ==> Truncate(x) as real <= x < Truncate(x) as real + 1.0
    ensures x <= 0.0 ==> Truncate(x) as real - 1.0 < x <= Truncate(x) as real
  {
  }
}
