/** Histograms with custom buckets: the number of buckets is fixed, and the converters cut off what does
    not fit. */
module CustomBuckets {
  import opened Buckets

  /** The spans fit: gaps are not negative, the buckets fit in `size`, there is a value for each. */
  predicate Fits(spans: seq<Span>, count: nat, size: nat) {
    NoNegativeGap(spans) && End(spans) <= size && Taken(spans) <= count
  }

  /******* What is written where *******/

  /** The value number `source` goes to the bucket `place`, if there is such a bucket. */
  datatype Write = Write(place: int, source: nat)

  /** Where the converter stands, and what it has written on its way. */
  datatype Walked = Walked(stop: int, writes: seq<Write>)

  /** How many buckets of a span are visited: its length, unless the buckets or the values run out. */
  function Visited(length: nat, start: int, size: nat, left: nat): nat {
    var room := if start >= size then 0 else size - start;
    if length <= room && length <= left then length
    else if room <= left then room
    else left
  }

  function Run(start: int, source: nat, n: nat): (r: seq<Write>)
    ensures |r| == n
  {
    seq(n, j requires 0 <= j < n => Write(start + j, source + j))
  }

  /** The first value of a span: the next one, or for the float converter the very first one again. */
  function Source(w: Walked, restart: bool): nat {
    if restart then 0 else |w.writes|
  }

  function Left(w: Walked, count: nat, restart: bool): nat {
    if restart then count else if |w.writes| <= count then count - |w.writes| else 0
  }

  function Walk(spans: seq<Span>, count: nat, size: nat, restart: bool): Walked {
    if spans == [] then Walked(0, [])
    else
      var w, last := Walk(spans[..|spans| - 1], count, size, restart), spans[|spans| - 1];
      var start := w.stop + last.offset;
      var n := Visited(last.length, start, size, Left(w, count, restart));
      Walked(start + n, w.writes + Run(start, Source(w, restart), n))
  }

  /** The walk, span by span: behind the gap, one value after the other goes to one bucket after the other,
      until the span ends, the buckets end or no value is left. Values that went anywhere count as taken. */
  lemma WalkExactly(spans: seq<Span>, count: nat, size: nat, restart: bool, i: nat)
    requires i < |spans|
    ensures Walk(spans[..0], count, size, restart) == Walked(0, [])
    ensures var w, next := Walk(spans[..i], count, size, restart), Walk(spans[..i + 1], count, size, restart);
      var start, source := w.stop + spans[i].offset, if restart then 0 else |w.writes|;
      var n := next.stop - start;
      && 0 <= n <= spans[i].length
      && (n > 0 ==> start + n <= size && source + n <= count)
      && (n < spans[i].length ==> start + n >= size || source + n >= count)
      && |next.writes| == |w.writes| + n && next.writes[..|w.writes|] == w.writes
      && next.writes[|w.writes|..] == seq(n, j requires 0 <= j < n => Write(start + j, source + j))
  {
    WalkMore(spans, i, count, size, restart);
    WalkNothing(spans, count, size, restart);
    SourcesAreThere(spans[..i], count, size, restart);
    hide Walk, Visited, Run;
    var w := Walk(spans[..i], count, size, restart);
    var start := w.stop + spans[i].offset;
    VisitedMost(spans[i].length, start, size, Left(w, count, restart));
    var n := Visited(spans[i].length, start, size, Left(w, count, restart));
    RunIs(start, Source(w, restart), n);
    assert (w.writes + Run(start, Source(w, restart), n))[|w.writes|..] == Run(start, Source(w, restart), n);
  }

  lemma VisitedMost(length: nat, start: int, size: nat, left: nat)
    ensures var n := Visited(length, start, size, left);
      && n <= length && (n > 0 ==> start + n <= size && n <= left)
      && (n < length ==> start + n >= size || n >= left)
  {
  }

  lemma RunIs(start: int, source: nat, n: nat)
    ensures Run(start, source, n) == seq(n, j requires 0 <= j < n => Write(start + j, source + j))
  {
  }

  lemma WalkNothing(spans: seq<Span>, count: nat, size: nat, restart: bool)
    ensures Walk(spans[..0], count, size, restart) == Walked(0, [])
  {
  }

  /** `s` after the writes, one after the other. Those without a bucket are dropped. */
  ghost function Applied(s: seq<int>, writes: seq<Write>, values: seq<int>): (r: seq<int>)
    ensures |r| == |s|
  {
    if writes == [] then s
    else
      var before, w := Applied(s, writes[..|writes| - 1], values), writes[|writes| - 1];
      if 0 <= w.place < |s| && w.source < |values| then before[w.place := values[w.source]] else before
  }

  /** The buckets that the converter fills. */
  ghost function Filled(spans: seq<Span>, values: seq<int>, size: nat, restart: bool): seq<int> {
    Applied(Zeros(size), Walk(spans, |values|, size, restart).writes, values)
  }

  ghost predicate LastWrite(writes: seq<Write>, j: nat, place: int) {
    j < |writes| && writes[j].place == place && forall i :: j < i < |writes| ==> writes[i].place != place
  }

  lemma AppliedMore(s: seq<int>, writes: seq<Write>, w: Write, values: seq<int>)
    ensures Applied(s, [], values) == s
    ensures var before := Applied(s, writes, values);
      Applied(s, writes + [w], values)
      == if 0 <= w.place < |s| && w.source < |values| then before[w.place := values[w.source]] else before
  {
    assert (writes + [w])[..|writes|] == writes;
  }

  lemma {:induction false} AppliedLast(s: seq<int>, writes: seq<Write>, values: seq<int>, k: nat, j: nat)
    requires k < |s| && LastWrite(writes, j, k) && writes[j].source < |values|
    ensures Applied(s, writes, values)[k] == values[writes[j].source]
  {
    hide Applied;
    var n := |writes| - 1;
    assert writes == writes[..n] + [writes[n]];
    AppliedMore(s, writes[..n], writes[n], values);
    if j < n {
      AppliedLast(s, writes[..n], values, k, j);
    }
  }

  lemma {:induction false} AppliedNowhere(s: seq<int>, writes: seq<Write>, values: seq<int>, k: nat)
    requires k < |s| && forall w :: w in writes ==> w.place != k
    ensures Applied(s, writes, values)[k] == s[k]
  {
    hide Applied;
    if writes == [] {
      AppliedMore(s, writes, Write(0, 0), values);
    } else {
      var n := |writes| - 1;
      assert writes == writes[..n] + [writes[n]];
      assert writes[n] in writes;
      AppliedMore(s, writes[..n], writes[n], values);
      AppliedNowhere(s, writes[..n], values, k);
    }
  }

  lemma {:induction false} SourcesAreThere(spans: seq<Span>, count: nat, size: nat, restart: bool)
    ensures var writes := Walk(spans, count, size, restart).writes;
      && (!restart ==> |writes| <= count)
      && forall w :: w in writes ==> w.source < count && w.place < size
  {
    if spans != [] {
      var n := |spans| - 1;
      SourcesAreThere(spans[..n], count, size, restart);
      var w, last := Walk(spans[..n], count, size, restart), spans[n];
      var start := w.stop + last.offset;
      var k := Visited(last.length, start, size, Left(w, count, restart));
      forall x | x in Run(start, Source(w, restart), k) ensures x.source < count && x.place < size {
        var j :| 0 <= j < k && Run(start, Source(w, restart), k)[j] == x;
      }
    }
  }

  /** For any spans, also with negative gaps, overlaps and too few values: a bucket has the value of the
      last write to it, and 0 if there is none. */
  lemma LastWriteWins(spans: seq<Span>, values: seq<int>, size: nat, restart: bool, k: nat)
    requires k < size
    ensures var writes := Walk(spans, |values|, size, restart).writes;
      && (forall j: nat :: LastWrite(writes, j, k) ==>
            writes[j].source < |values| && Filled(spans, values, size, restart)[k] == values[writes[j].source])
      && ((forall w :: w in writes ==> w.place != k) ==> Filled(spans, values, size, restart)[k] == 0)
  {
    SourcesAreThere(spans, |values|, size, restart);
    var writes := Walk(spans, |values|, size, restart).writes;
    hide Walk, Applied;
    forall j: nat | LastWrite(writes, j, k)
      ensures writes[j].source < |values| && Filled(spans, values, size, restart)[k] == values[writes[j].source]
    {
      assert writes[j] in writes;
      AppliedLast(Zeros(size), writes, values, k, j);
    }
    if forall w :: w in writes ==> w.place != k {
      AppliedNowhere(Zeros(size), writes, values, k);
    }
  }

  /******* Spans that fit *******/

  /** A run of writes in the middle. */
  lemma {:induction false} AppliedRun(s: seq<int>, writes: seq<Write>, values: seq<int>, start: nat, source: nat,
                                      n: nat)
    requires start + n <= |s| && source + n <= |values|
    ensures var before := Applied(s, writes, values);
      Applied(s, writes + Run(start, source, n), values)
      == before[..start] + values[source..source + n] + before[start + n..]
  {
    hide Applied;
    if n == 0 {
      NoWrite(s, writes, values, start, source);
    } else {
      AppliedRun(s, writes, values, start, source, n - 1);
      OneMoreWrite(s, writes, values, start, source, n - 1);
    }
  }

  lemma FitsFront(spans: seq<Span>, count: nat, size: nat)
    requires Fits(spans, count, size) && spans != []
    ensures Fits(spans[..|spans| - 1], count, size)
  {
  }

  lemma {:induction false} WalkOfFitting(spans: seq<Span>, count: nat, size: nat, restart: bool)
    requires Fits(spans, count, size)
    ensures var w := Walk(spans, count, size, restart); w.stop == End(spans) && |w.writes| == Taken(spans)
  {
    if spans != [] {
      FitsFront(spans, count, size);
      WalkOfFitting(spans[..|spans| - 1], count, size, restart);
    }
  }

  /** The first `n` values. */
  ghost function First(values: seq<int>, n: nat): (r: seq<int>)
    ensures |r| == n
  {
    if n <= |values| then values[..n] else values + Zeros(n - |values|)
  }

  /** The values that the float converter takes: for each span from the beginning again. */
  ghost function Restarted(spans: seq<Span>, values: seq<int>): (r: seq<int>)
    ensures |r| == Taken(spans)
  {
    if spans == [] then []
    else Restarted(spans[..|spans| - 1], values) + First(values, spans[|spans| - 1].length)
  }

  /** The values that a converter takes. */
  ghost function Sources(spans: seq<Span>, values: seq<int>, restart: bool): (r: seq<int>)
    ensures |r| == Taken(spans)
  {
    if restart then Restarted(spans, values) else First(values, Taken(spans))
  }

  lemma SourcesMore(spans: seq<Span>, values: seq<int>, restart: bool, taken: seq<int>)
    requires Taken(spans) <= |values| && spans != [] && TakenLast(spans, values, restart, taken)
    ensures Sources(spans, values, restart) == Sources(spans[..|spans| - 1], values, restart) + taken
  {
    hide Restarted, First;
    var n := |spans| - 1;
    if restart {
      RestartedMore(spans, values);
    } else {
      FirstMore(values, Taken(spans[..n]), spans[n].length);
    }
  }

  /** The values of the last span. */
  ghost predicate TakenLast(spans: seq<Span>, values: seq<int>, restart: bool, taken: seq<int>)
    requires spans != []
  {
    var n := |spans| - 1;
    var source := if restart then 0 else Taken(spans[..n]);
    source + spans[n].length <= |values| && taken == values[source..source + spans[n].length]
  }

  lemma RestartedMore(spans: seq<Span>, values: seq<int>)
    requires spans != [] && spans[|spans| - 1].length <= |values|
    ensures var n := |spans| - 1;
      Restarted(spans, values) == Restarted(spans[..n], values) + values[0..spans[n].length]
  {
  }

  lemma FirstMore(values: seq<int>, t: nat, n: nat)
    requires t + n <= |values|
    ensures First(values, t + n) == First(values, t) + values[t..t + n]
  {
  }

  lemma {:induction false} EndNotNegative(spans: seq<Span>)
    requires NoNegativeGap(spans)
    ensures 0 <= End(spans)
  {
    if spans != [] {
      EndNotNegative(spans[..|spans| - 1]);
    }
  }

  /** The last span of those that fit. */
  lemma LastFits(spans: seq<Span>, count: nat, size: nat)
    requires Fits(spans, count, size) && spans != []
    ensures var n := |spans| - 1;
      && Fits(spans[..n], count, size) && 0 <= End(spans[..n]) && spans[n].offset >= 0
      && End(spans) == End(spans[..n]) + spans[n].offset + spans[n].length <= size
      && Taken(spans) == Taken(spans[..n]) + spans[n].length <= count
  {
    FitsFront(spans, count, size);
    EndNotNegative(spans[..|spans| - 1]);
  }

  lemma WalkLast(spans: seq<Span>, count: nat, size: nat, restart: bool)
    requires Fits(spans, count, size) && spans != []
    ensures var n := |spans| - 1;
      Walk(spans, count, size, restart).writes
      == Walk(spans[..n], count, size, restart).writes
         + Run(End(spans[..n]) + spans[n].offset, if restart then 0 else Taken(spans[..n]), spans[n].length)
  {
    hide End, Taken, Run, NoNegativeGap;
    LastFits(spans, count, size);
    WalkOfFitting(spans[..|spans| - 1], count, size, restart);
  }

  /** `s` with `middle` from `start` to `end`. */
  ghost function Spliced(s: seq<int>, start: nat, middle: seq<int>, end: nat): seq<int>
    requires start <= end <= |s|
  {
    s[..start] + middle + s[end..]
  }

  /** `d` and zeros behind. */
  ghost function Padded(d: seq<int>, size: nat): seq<int> {
    d + Zeros(if |d| <= size then size - |d| else 0)
  }

  lemma ZerosLength(n: nat)
    ensures |Zeros(n)| == n
  {
  }

  /** A span that fits fills its buckets with its values. */
  lemma FilledMore(spans: seq<Span>, values: seq<int>, size: nat, restart: bool, taken: seq<int>)
    requires Fits(spans, |values|, size) && spans != [] && TakenLast(spans, values, restart, taken)
    ensures var n := |spans| - 1;
      var start := End(spans[..n]) + spans[n].offset;
      var before := Filled(spans[..n], values, size, restart);
      && 0 <= start <= End(spans) <= size && |before| == size
      && Filled(spans, values, size, restart) == Spliced(before, start, taken, End(spans))
  {
    hide Applied, Zeros, Run, Walk, End, Taken, NoNegativeGap;
    LastFits(spans, |values|, size);
    WalkLast(spans, |values|, size, restart);
    ZerosLength(size);
    var n := |spans| - 1;
    var source := if restart then 0 else Taken(spans[..n]);
    AppliedRun(Zeros(size), Walk(spans[..n], |values|, size, restart).writes, values, End(spans[..n]) + spans[n].offset,
               source, spans[n].length);
  }

  /** On spans that fit, the buckets are the dense form, and zeros behind. */
  lemma {:induction false} FilledFits(spans: seq<Span>, values: seq<int>, size: nat, restart: bool)
    requires Fits(spans, |values|, size)
    ensures |Dense(spans, Sources(spans, values, restart))| == End(spans)
    ensures Filled(spans, values, size, restart) == Padded(Dense(spans, Sources(spans, values, restart)), size)
  {
    hide Dense, Sources, Fits;
    DenseLength(spans, Sources(spans, values, restart)) by { FitsParts(spans, |values|, size); }
    if spans == [] {
      NoWrite(Zeros(size), [], values, 0, 0);
      NothingDense(Sources(spans, values, restart));
    } else {
      FitsFront(spans, |values|, size);
      FilledFits(spans[..|spans| - 1], values, size, restart);
      FilledFitsMore(spans, values, size, restart);
    }
  }

  lemma FitsParts(spans: seq<Span>, count: nat, size: nat)
    requires Fits(spans, count, size)
    ensures NoNegativeGap(spans) && End(spans) <= size && Taken(spans) <= count
  {
  }

  lemma NothingDense(values: seq<int>)
    ensures Dense([], values) == []
  {
  }

  lemma FilledFitsMore(spans: seq<Span>, values: seq<int>, size: nat, restart: bool)
    requires Fits(spans, |values|, size) && spans != [] && Fits(spans[..|spans| - 1], |values|, size)
    requires var front := spans[..|spans| - 1];
      var d := Dense(front, Sources(front, values, restart));
      |d| == End(front) && Filled(front, values, size, restart) == Padded(d, size)
    ensures Filled(spans, values, size, restart) == Padded(Dense(spans, Sources(spans, values, restart)), size)
  {
    hide Filled, Dense, Sources, Zeros, End, Taken, NoNegativeGap, Spliced, Padded, Joined;
    var n := |spans| - 1;
    var source := if restart then 0 else Taken(spans[..n]);
    LastFits(spans, |values|, size);
    var taken := values[source..source + spans[n].length];
    SourcesMore(spans, values, restart, taken);
    FilledMore(spans, values, size, restart, taken);
    var a := Sources(spans[..n], values, restart);
    DenseMore(spans, a, taken);
    FilledSpan(Filled(spans[..n], values, size, restart), Dense(spans[..n], a), spans[n].offset,
               End(spans[..n]) + spans[n].offset, taken, End(spans), size);
  }

  ghost function Joined(d: seq<int>, gap: nat, taken: seq<int>): seq<int> {
    d + Zeros(gap) + taken
  }

  lemma DenseMore(spans: seq<Span>, a: seq<int>, taken: seq<int>)
    requires NoNegativeGap(spans) && spans != []
    requires |a| == Taken(spans[..|spans| - 1]) && |taken| == spans[|spans| - 1].length
    ensures var n := |spans| - 1;
      Dense(spans, a + taken) == Joined(Dense(spans[..n], a), spans[n].offset, taken)
  {
    var n := |spans| - 1;
    var front, both := spans[..n], a + taken;
    assert both[..|a|] == a[..|a|] && both[|a|..|both|] == taken && |both| == Taken(spans);
    DenseTakes(front, both, a);
    DenseIs(spans, both);
  }

  lemma DenseIs(spans: seq<Span>, values: seq<int>)
    requires NoNegativeGap(spans) && spans != [] && Taken(spans) <= |values|
    ensures var n := |spans| - 1;
      Dense(spans, values)
      == Joined(Dense(spans[..n], values), spans[n].offset, values[Taken(spans[..n])..Taken(spans)])
  {
  }

  /** One more span: its gap is zeros already. */
  lemma FilledSpan(before: seq<int>, d: seq<int>, gap: nat, start: nat, taken: seq<int>, end: nat, size: nat)
    requires start == |d| + gap && end == start + |taken| <= size
    requires before == Padded(d, size) && |before| == size
    ensures Spliced(before, start, taken, end) == Padded(Joined(d, gap, taken), size)
  {
    assert before[..start] == d + Zeros(gap);
    assert before[end..] == Zeros(size - end);
  }

  /******* The converters *******/

  /** One more bucket of a span. */
  lemma OneMoreWrite(s: seq<int>, writes: seq<Write>, values: seq<int>, start: int, source: nat, i: nat)
    ensures var before, w := Applied(s, writes + Run(start, source, i), values), Write(start + i, source + i);
      Applied(s, writes + Run(start, source, i + 1), values)
      == if 0 <= w.place < |s| && w.source < |values| then before[w.place := values[w.source]] else before
  {
    hide Applied;
    var w := Write(start + i, source + i);
    assert writes + Run(start, source, i + 1) == writes + Run(start, source, i) + [w];
    AppliedMore(s, writes + Run(start, source, i), w, values);
  }

  /** One more running sum. */
  lemma OneMoreDelta(s: seq<int>, writes: seq<Write>, deltas: seq<int>, start: int, source: nat, i: nat, k: nat)
    requires k == source + i < |deltas|
    ensures Total(deltas[..k + 1]) == Total(deltas[..k]) + deltas[k]
    ensures var before := Applied(s, writes + Run(start, source, i), RunningSums(deltas));
      Applied(s, writes + Run(start, source, i + 1), RunningSums(deltas))
      == if 0 <= start + i < |s| then before[start + i := Uint64(Total(deltas[..k + 1]))] else before
  {
    hide Applied, Run, RunningSums, Total, Uint64;
    RunningStep(deltas, k, k);
    OneMoreWrite(s, writes, RunningSums(deltas), start, source, i);
  }

  lemma NoWrite(s: seq<int>, writes: seq<Write>, values: seq<int>, start: int, source: nat)
    ensures writes + Run(start, source, 0) == writes && Applied(s, [], values) == s
  {
  }

  lemma WalkMore(spans: seq<Span>, i: nat, count: nat, size: nat, restart: bool)
    requires i < |spans|
    ensures var w := Walk(spans[..i], count, size, restart);
      var start := w.stop + spans[i].offset;
      var n := Visited(spans[i].length, start, size, Left(w, count, restart));
      Walk(spans[..i + 1], count, size, restart) == Walked(start + n, w.writes + Run(start, Source(w, restart), n))
  {
    assert spans[..i + 1][..i] == spans[..i];
  }

  /** Fresh buckets, before the first span. */
  lemma NothingFilled(s: seq<int>, values: seq<int>, count: nat, size: nat, restart: bool)
    requires |s| == size && forall k :: 0 <= k < |s| ==> s[k] == 0
    ensures Walk([], count, size, restart) == Walked(0, []) && s == Applied(Zeros(size), [], values)
  {
  }

  /** Integer histograms with custom buckets. The result has `customValues + 1` buckets. */
  method ConvertNHCBDeltaBuckets(customValues: nat, spans: seq<Span>, deltas: seq<int>)
    returns (bucketCounts: array<int>)
    ensures fresh(bucketCounts) && bucketCounts.Length == customValues + 1
    ensures bucketCounts[..] == Filled(spans, RunningSums(deltas), customValues + 1, false)
  {
    hide Applied, RunningSums, Total, Uint64, Zeros, Run, Walk;
    ghost var values, size, zeros := RunningSums(deltas), customValues + 1, Zeros(customValues + 1);
    assert |values| == |deltas| && Total(deltas[..0]) == 0 by {
      Nothing(deltas);
    }
    bucketCounts := new int[customValues + 1](_ => 0);
    NothingFilled(bucketCounts[..], values, |values|, size, false);
    assert spans[..0] == [];
    if |spans| == 0 {
      return;
    }
    var bucketIdx, bucketCount, deltaIdx := 0, 0, 0;
    ghost var w := Walked(0, []);
    for spanIdx := 0 to |spans|
      invariant 0 <= deltaIdx <= |deltas| && bucketCount == Total(deltas[..deltaIdx])
      invariant w == Walk(spans[..spanIdx], |values|, size, false) && w.stop == bucketIdx && |w.writes| == deltaIdx
      invariant bucketCounts[..] == Applied(zeros, w.writes, values)
    {
      WalkMore(spans, spanIdx, |values|, size, false);
      var span := spans[spanIdx];
      bucketIdx := bucketIdx + span.offset;
      ghost var start, source := bucketIdx, deltaIdx;
      NoWrite(zeros, w.writes, values, start, source);
      var i := 0;
      while i < span.length && bucketIdx < bucketCounts.Length && deltaIdx < |deltas|
        invariant 0 <= i <= Visited(span.length, start, size, |deltas| - source)
        invariant bucketIdx == start + i && deltaIdx == source + i <= |deltas|
        invariant bucketCount == Total(deltas[..deltaIdx])
        invariant bucketCounts[..] == Applied(zeros, w.writes + Run(start, source, i), values)
      {
        OneMoreDelta(zeros, w.writes, deltas, start, source, i, deltaIdx);
        bucketCount := bucketCount + deltas[deltaIdx];
        deltaIdx := deltaIdx + 1;
        ghost var before := bucketCounts[..];
        if bucketIdx >= 0 && bucketIdx < bucketCounts.Length {
          bucketCounts[bucketIdx] := Uint64(bucketCount);
          assert bucketCounts[..] == before[bucketIdx := Uint64(bucketCount)];
        }
        bucketIdx := bucketIdx + 1;
        i := i + 1;
      }
      w := Walk(spans[..spanIdx + 1], |values|, size, false);
    }
    assert spans[..|spans|] == spans;
  }

  lemma Nothing(deltas: seq<int>)
    ensures |RunningSums(deltas)| == |deltas| && Total(deltas[..0]) == 0
  {
  }

  /** Float histograms with custom buckets. The value is looked up by the index within the span. */
  method ConvertNHCBAbsoluteBuckets(customValues: nat, spans: seq<Span>, counts: seq<real>)
    returns (bucketCounts: array<int>)
    ensures fresh(bucketCounts) && bucketCounts.Length == customValues + 1
    ensures bucketCounts[..] == Filled(spans, Truncated(counts), customValues + 1, true)
  {
    hide Applied, Truncate, Zeros, Run, Walk;
    ghost var values, size, zeros := Truncated(counts), customValues + 1, Zeros(customValues + 1);
    bucketCounts := new int[customValues + 1](_ => 0);
    NothingFilled(bucketCounts[..], values, |values|, size, true);
    assert spans[..0] == [];
    if |spans| == 0 {
      return;
    }
    var bucketIdx := 0;
    ghost var w := Walked(0, []);
    for spanIdx := 0 to |spans|
      invariant w == Walk(spans[..spanIdx], |values|, size, true) && w.stop == bucketIdx
      invariant bucketCounts[..] == Applied(zeros, w.writes, values)
    {
      WalkMore(spans, spanIdx, |values|, size, true);
      var span := spans[spanIdx];
      bucketIdx := bucketIdx + span.offset;
      ghost var start := bucketIdx;
      NoWrite(zeros, w.writes, values, start, 0);
      var i := 0;
      while i < span.length && bucketIdx < bucketCounts.Length && i < |counts|
        invariant 0 <= i <= Visited(span.length, start, size, |counts|)
        invariant bucketIdx == start + i
        invariant bucketCounts[..] == Applied(zeros, w.writes + Run(start, 0, i), values)
      {
        OneMoreWrite(zeros, w.writes, values, start, 0, i);
        ghost var before := bucketCounts[..];
        if bucketIdx >= 0 && bucketIdx < bucketCounts.Length {
          bucketCounts[bucketIdx] := Truncate(counts[i]);
          assert bucketCounts[..] == before[bucketIdx := values[i]];
        }
        bucketIdx := bucketIdx + 1;
        i := i + 1;
      }
      w := Walk(spans[..spanIdx + 1], |values|, size, true);
    }
    assert spans[..|spans|] == spans;
  }

  /** On spans that fit, the total is kept. */
  lemma NHCBTotal(spans: seq<Span>, values: seq<int>, size: nat)
    requires Fits(spans, |values|, size) && Taken(spans) == |values|
    ensures 0 <= End(spans) && Total(Dense(spans, values) + Zeros(size - End(spans))) == Total(values)
  {
    hide Total, Dense, Zeros, Taken, End, NoNegativeGap;
    DenseLength(spans, values);
    TotalConcat(Dense(spans, values), Zeros(size - End(spans)));
    TotalZeros(size - End(spans));
    DenseTotal(spans, values);
    assert values[..|values|] == values;
  }

  /** What comes out for spans that fit. */
  lemma FilledDense(spans: seq<Span>, values: seq<int>, size: nat)
    requires Fits(spans, |values|, size)
    ensures Filled(spans, values, size, false) == Padded(Dense(spans, values), size)
    ensures Filled(spans, values, size, true) == Padded(Dense(spans, Restarted(spans, values)), size)
  {
    FilledFits(spans, values, size, false);
    FilledFits(spans, values, size, true);
    DenseTakes(spans, First(values, Taken(spans)), values);
    hide Filled, Dense, Padded;
  }

  lemma FilledTotal(spans: seq<Span>, values: seq<int>, size: nat)
    requires Fits(spans, |values|, size) && Taken(spans) == |values|
    ensures |Filled(spans, values, size, false)| == size && Total(Filled(spans, values, size, false)) == Total(values)
  {
    hide Total, Dense, End, Taken, NoNegativeGap;
    FilledDense(spans, values, size);
    DenseLength(spans, values);
    NHCBTotal(spans, values, size);
  }

  lemma {:induction false} RestartedAt(spans: seq<Span>, values: seq<int>, i: nat, j: nat)
    requires i < |spans| && j < spans[i].length <= |values|
    ensures Taken(spans[..i]) + j < Taken(spans) && Restarted(spans, values)[Taken(spans[..i]) + j] == values[j]
  {
    hide First;
    var n := |spans| - 1;
    RestartedIs(spans, values);
    if i < n {
      RestartedAt(spans[..n], values, i, j);
      assert spans[..n][..i] == spans[..i];
    } else {
      FirstIs(values, spans[n].length);
    }
  }

  lemma RestartedIs(spans: seq<Span>, values: seq<int>)
    requires spans != []
    ensures var n := |spans| - 1;
      && Restarted(spans, values) == Restarted(spans[..n], values) + First(values, spans[n].length)
      && Taken(spans) == Taken(spans[..n]) + spans[n].length
  {
  }

  lemma FirstIs(values: seq<int>, n: nat)
    requires n <= |values|
    ensures First(values, n) == values[..n]
  {
  }

  /** The two converters agree exactly when every span repeats the beginning of the values. */
  lemma FloatAgreesExactly(spans: seq<Span>, values: seq<int>)
    requires NoNegativeGap(spans) && Taken(spans) <= |values|
    ensures Dense(spans, Restarted(spans, values)) == Dense(spans, values) <==> Repeats(spans, values)
  {
    hide Dense, Restarted, Taken, RepeatsAt;
    if Dense(spans, Restarted(spans, values)) == Dense(spans, values) {
      forall i: nat, j: nat ensures RepeatsAt(spans, values, i, j) {
        SameDenseRepeats(spans, values, i, j);
      }
    }
    if Repeats(spans, values) {
      RestartedSame(spans, values);
      DenseTakes(spans, Restarted(spans, values), values);
    }
  }

  /** Value `j` of span `i` is value `j` of the whole. */
  ghost predicate RepeatsAt(spans: seq<Span>, values: seq<int>, i: nat, j: nat) {
    i < |spans| && j < spans[i].length ==>
      Taken(spans[..i]) + j < |values| && values[Taken(spans[..i]) + j] == values[j]
  }

  ghost predicate Repeats(spans: seq<Span>, values: seq<int>) {
    forall i: nat, j: nat :: RepeatsAt(spans, values, i, j)
  }

  lemma SameDenseRepeats(spans: seq<Span>, values: seq<int>, i: nat, j: nat)
    requires NoNegativeGap(spans) && Taken(spans) <= |values|
    requires Dense(spans, Restarted(spans, values)) == Dense(spans, values)
    ensures RepeatsAt(spans, values, i, j)
  {
    if i < |spans| && j < spans[i].length {
      SameDenseAt(spans, values, Restarted(spans, values), i, j);
      TakenMonotone(spans, i);
      RestartedAt(spans, values, i, j);
    }
  }

  lemma SameDenseAt(spans: seq<Span>, a: seq<int>, b: seq<int>, i: nat, j: nat)
    requires NoNegativeGap(spans) && Taken(spans) <= |a| && Taken(spans) <= |b| && Dense(spans, a) == Dense(spans, b)
    requires i < |spans| && j < spans[i].length
    ensures Taken(spans[..i]) + j < Taken(spans) && a[Taken(spans[..i]) + j] == b[Taken(spans[..i]) + j]
  {
    hide Dense, Taken, Begin, NoNegativeGap;
    TakenMonotone(spans, i);
    DenseShows(spans, a, b);
    var k := Taken(spans[..i]) + j;
    assert a[k] == a[..Taken(spans)][k] && b[k] == b[..Taken(spans)][k];
  }

  lemma {:induction false} RestartedSame(spans: seq<Span>, values: seq<int>)
    requires Taken(spans) <= |values| && Repeats(spans, values)
    ensures Restarted(spans, values) == values[..Taken(spans)]
  {
    if spans != [] {
      var n := |spans| - 1;
      var front := spans[..n];
      FrontRepeats(spans, values);
      RestartedSame(front, values);
      var t := Taken(front);
      forall j: nat | j < spans[n].length ensures values[..spans[n].length][j] == values[t..Taken(spans)][j] {
        assert RepeatsAt(spans, values, n, j);
      }
      assert values[..spans[n].length] == values[t..Taken(spans)];
      assert values[..t] + values[t..Taken(spans)] == values[..Taken(spans)];
    }
  }

  lemma FrontRepeats(spans: seq<Span>, values: seq<int>)
    requires spans != [] && Repeats(spans, values)
    ensures Repeats(spans[..|spans| - 1], values)
  {
    var front := spans[..|spans| - 1];
    forall i: nat, j: nat ensures RepeatsAt(front, values, i, j) {
      if i < |front| {
        assert front[..i] == spans[..i];
        assert RepeatsAt(spans, values, i, j);
      }
    }
  }

  /** So for spans that fit, the buckets come out the same exactly then. */
  lemma FilledAgreesExactly(spans: seq<Span>, values: seq<int>, size: nat)
    requires Fits(spans, |values|, size)
    ensures Filled(spans, values, size, true) == Filled(spans, values, size, false) <==> Repeats(spans, values)
  {
    hide Filled, Dense, Restarted, Repeats, End, Taken, Zeros;
    FilledDense(spans, values, size);
    FloatAgreesExactly(spans, values);
    DenseLength(spans, values);
    DenseLength(spans, Restarted(spans, values));
    if Filled(spans, values, size, true) == Filled(spans, values, size, false) {
      PaddedShows(Dense(spans, values), Dense(spans, Restarted(spans, values)), size);
    }
  }

  lemma PaddedShows(a: seq<int>, b: seq<int>, size: nat)
    requires |a| == |b| && Padded(a, size) == Padded(b, size)
    ensures a == b
  {
    assert Padded(a, size)[..|a|] == a && Padded(b, size)[..|b|] == b;
  }

  /** With a single span they always agree; with two they need not. */
  lemma FloatAgreesOnOneSpan(span: Span, values: seq<int>)
    requires span.offset >= 0 && span.length <= |values|
    ensures Taken([span]) <= |values| && Dense([span], Restarted([span], values)) == Dense([span], values)
  {
    var spans := [span];
    assert spans[..0] == [];
    forall i: nat, j: nat ensures RepeatsAt(spans, values, i, j) {
    }
    hide Dense, Restarted;
    FloatAgreesExactly(spans, values);
  }

  lemma FloatDisagreesOnTwoSpans()
    ensures var spans, values := [Span(0, 1), Span(1, 1)], [3, 5];
      Taken(spans) <= |values| && Dense(spans, Restarted(spans, values)) != Dense(spans, values)
  {
    var spans, values := [Span(0, 1), Span(1, 1)], [3, 5];
    assert spans[..1] == [Span(0, 1)] && spans[..1][..0] == [];
    assert Taken(spans[..1]) == 1;
    assert !RepeatsAt(spans, values, 1, 0);
    hide Dense, Restarted;
    FloatAgreesExactly(spans, values);
  }
}
