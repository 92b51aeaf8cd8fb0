/** When the order of arrival matters: the first sample of a series fixes the timestamp of its group,
    and samples with another one are lost. */
module Timestamps {
  import opened GoMaps
  import opened Options
  import opened SampleLabels
  import opened Histograms
  import opened MetricFamilies
  import MetricNames
  import opened Arrivals

  /** The samples without which a series gets no data point. */
  predicate Decides(t: OtlpType, kind: Kind) {
    match t
    case Sum => kind == ValueKind
    case Gauge => kind == ValueKind
    case Empty => kind == ValueKind
    case _ => kind == CountKind
  }

  /** What a group has collected from such a sample. */
  function Decisive(st: Series): Option<Float> {
    match st.mtype
    case Sum => st.value
    case Gauge => st.value
    case Empty => st.value
    case _ => st.count
  }

  ghost predicate IsDecisive(r: Reading, key: Labels, s: Sample) {
    Key(r, s) == key && Decides(r.mtype, Says(r, s))
  }

  ghost predicate HasDecisive(r: Reading, samples: set<Sample>, key: Labels) {
    exists s :: s in samples && IsDecisive(r, key, s)
  }

  /******* Every group has a result *******/

  lemma {:induction false} SortingExists(ps: seq<Point>) returns (sorted: seq<Point>)
    ensures IsSorting(ps, sorted)
  {
    if ps == [] {
      sorted := [];
    } else {
      var n := |ps| - 1;
      var rest := SortingExists(ps[..n]);
      InsertSorts(rest, ps[n]);
      InsertKeeps(rest, ps[n]);
      assert ps == ps[..n] + [ps[n]];
      sorted := Insert(rest, ps[n]);
    }
  }

  lemma PointNeedsDecisive(cast: Cast, st: Series, d: Option<DataPoint>)
    requires st.native == NO_NATIVE && Yields(cast, st, d)
    ensures d.Some? <==> Decisive(st).Some?
  {
    hide IsSorting, PointOf, SummaryOf;
  }

  lemma ResultExists(cast: Cast, st: Series) returns (d: Option<DataPoint>)
    requires st.native == NO_NATIVE
    ensures Yields(cast, st, d)
  {
    var sorted := SortingExists(st.points);
    hide IsSorting, PointOf, SummaryOf, NumberOf;
    if Decisive(st).None? {
      d := None;
    } else if st.mtype.Histogram? {
      d := Some(PointOf(cast, st.(points := sorted)));
    } else if st.mtype.Summary? {
      d := Some(SummaryOf(cast, st.(points := sorted)));
    } else if st.mtype.ExponentialHistogram? {
      d := Some(ExponentialOf(cast, st));
    } else {
      d := Some(NumberOf(st));
    }
  }

  /******* What a group remembers *******/

  lemma CollectKeeps(family: string, parse: ParseBound, st: Series, s: Sample)
    ensures var st' := Collect(family, parse, st, s);
      && st'.ts == st.ts && st'.mtype == st.mtype && st'.native == st.native
      && (Decisive(st').Some? <==>
            Decisive(st).Some? || (s.ts == st.ts && Decides(st.mtype, KindOf(st.mtype, family, parse, s))))
  {
    KindsOfType(st.mtype, family, parse, s);
    hide KindOf;
  }

  /** Numbers have no counts, histograms and summaries no values. */
  lemma KindsOfType(t: OtlpType, family: string, parse: ParseBound, s: Sample)
    ensures var kind := KindOf(t, family, parse, s);
      && (kind == CountKind ==> t.Histogram? || t.Summary?)
      && (kind == ValueKind ==> t.Sum? || t.Gauge? || t.Empty?)
  {
    hide Lookup, BoundLabel;
  }

  ghost predicate DecidedBy(r: Reading, key: Labels, order: seq<Sample>, ts: int) {
    exists j :: 0 <= j < |order| && IsDecisive(r, key, order[j]) && order[j].ts == ts
  }

  ghost predicate Occurs(r: Reading, key: Labels, order: seq<Sample>) {
    exists j :: 0 <= j < |order| && Key(r, order[j]) == key
  }

  ghost predicate Remembers(r: Reading, key: Labels, order: seq<Sample>, groups: Groups) {
    && (key in groups <==> Occurs(r, key, order))
    && (key in groups ==>
          && groups[key].mtype == r.mtype && groups[key].native == NO_NATIVE
          && (Key(r, order[0]) == key ==> groups[key].ts == order[0].ts)
          && (Decisive(groups[key]).Some? <==> DecidedBy(r, key, order, groups[key].ts)))
  }

  lemma MoreOccur(r: Reading, key: Labels, order: seq<Sample>, s: Sample, ts: int)
    ensures Occurs(r, key, order + [s]) <==> Occurs(r, key, order) || Key(r, s) == key
    ensures DecidedBy(r, key, order + [s], ts) <==>
      DecidedBy(r, key, order, ts) || (IsDecisive(r, key, s) && s.ts == ts)
    ensures DecidedBy(r, key, order, ts) ==> Occurs(r, key, order)
  {
    hide Key, Says, Decides;
    var more := order + [s];
    assert more[|order|] == s;
    if Occurs(r, key, order) {
      var j :| 0 <= j < |order| && Key(r, order[j]) == key;
      assert more[j] == order[j];
    }
    if DecidedBy(r, key, order, ts) {
      var j :| 0 <= j < |order| && IsDecisive(r, key, order[j]) && order[j].ts == ts;
      assert more[j] == order[j];
    }
  }

  lemma RemembersStep(r: Reading, key: Labels, order: seq<Sample>, groups: Groups, s: Sample)
    requires Remembers(r, key, order, groups)
    ensures Remembers(r, key, order + [s], Receive(r, groups, s))
  {
    hide Collect, KindOf, SeriesKey, Decides, Decisive, Occurs, DecidedBy;
    var groups' := Receive(r, groups, s);
    var st := GroupOf(r.mtype, groups, s.ls, s.ts);
    CollectKeeps(r.family, r.parse, st, s);
    FreshUndecided(r.mtype, s.ls, s.ts);
    if key in groups' {
      MoreOccur(r, key, order, s, groups'[key].ts);
    } else {
      MoreOccur(r, key, order, s, 0);
    }
    FirstOccurs(r, key, order);
    assert order != [] ==> (order + [s])[0] == order[0];
    assert order == [] ==> (order + [s])[0] == s;
  }

  lemma FreshUndecided(t: OtlpType, ls: Labels, ts: int)
    ensures Decisive(EmptySeries(t, ls, ts)).None?
  {
  }

  lemma FirstOccurs(r: Reading, key: Labels, order: seq<Sample>)
    ensures order == [] ==> !Occurs(r, key, order)
    ensures order != [] && Key(r, order[0]) == key ==> Occurs(r, key, order)
  {
    hide Key;
  }

  lemma {:induction false} RemembersAll(r: Reading, key: Labels, order: seq<Sample>)
    ensures Remembers(r, key, order, ReceiveAll(r, order))
  {
    if order == [] {
      FirstOccurs(r, key, order);
    } else {
      var n := |order| - 1;
      RemembersAll(r, key, order[..n]);
      assert order == order[..n] + [order[n]];
      RemembersStep(r, key, order[..n], ReceiveAll(r, order[..n]), order[n]);
    }
  }

  /******* When the order matters *******/

  ghost predicate Results(cast: Cast, r: Reading, order: seq<Sample>, key: Labels, d: Option<DataPoint>) {
    var groups := ReceiveAll(r, order);
    key in groups && Yields(cast, groups[key], d)
  }

  ghost predicate SameResult(cast: Cast, r: Reading, key: Labels, p: seq<Sample>, q: seq<Sample>,
                             d: Option<DataPoint>, e: Option<DataPoint>) {
    Results(cast, r, p, key, d) && Results(cast, r, q, key, e) ==> d == e
  }

  /** All arrival orders have the same result for the series. */
  ghost predicate OneResult(cast: Cast, r: Reading, samples: set<Sample>, key: Labels) {
    forall p, q, d, e | Visits(p, samples) && Visits(q, samples) :: SameResult(cast, r, key, p, q, d, e)
  }

  lemma {:induction false} SomeOrder(samples: set<Sample>) returns (order: seq<Sample>)
    ensures Visits(order, samples)
    decreases samples
  {
    if samples == {} {
      order := [];
    } else {
      var s :| s in samples;
      var rest := SomeOrder(samples - {s});
      order := [s] + rest;
      OneMoreVisited(samples, s, rest);
    }
  }

  lemma OneMoreVisited(samples: set<Sample>, s: Sample, rest: seq<Sample>)
    requires s in samples && Visits(rest, samples - {s})
    ensures Visits([s] + rest, samples)
  {
    assert s !in rest;
    forall i, j | 0 <= i < j < |rest| + 1 ensures ([s] + rest)[i] != ([s] + rest)[j] {
      assert ([s] + rest)[j] == rest[j - 1] && rest[j - 1] in rest;
    }
  }

  /** A decisive sample and one with another timestamp: whoever comes first decides whether there is a
      data point at all. */
  lemma FirstDecides(cast: Cast, r: Reading, samples: set<Sample>, key: Labels, u: Sample, t: Sample)
    requires DistinctKinds(r, samples, key) && u in samples && t in samples
    requires IsDecisive(r, key, u) && Key(r, t) == key && t.ts != u.ts
    ensures !OneResult(cast, r, samples, key)
  {
    hide Key, Says, Yields, DistinctKinds, Decides, Decisive, ReceiveAll;
    var restU := SomeOrder(samples - {u});
    var restT := SomeOrder(samples - {t});
    OneMoreVisited(samples, u, restU);
    OneMoreVisited(samples, t, restT);
    var p, q := [u] + restU, [t] + restT;
    RemembersAll(r, key, p);
    RemembersAll(r, key, q);
    assert p[0] == u && q[0] == t;
    FirstOccurs(r, key, p);
    FirstOccurs(r, key, q);
    var gp, gq := ReceiveAll(r, p), ReceiveAll(r, q);
    assert DecidedBy(r, key, p, u.ts);
    OnlyDecisive(r, samples, key, u, q, t.ts);
    var d := ResultExists(cast, gp[key]);
    var e := ResultExists(cast, gq[key]);
    PointNeedsDecisive(cast, gp[key], d);
    PointNeedsDecisive(cast, gq[key], e);
    assert Results(cast, r, p, key, d) && Results(cast, r, q, key, e) && !SameResult(cast, r, key, p, q, d, e);
  }

  lemma OnlyDecisive(r: Reading, samples: set<Sample>, key: Labels, u: Sample, order: seq<Sample>, ts: int)
    requires DistinctKinds(r, samples, key) && Visits(order, samples)
    requires u in samples && IsDecisive(r, key, u) && u.ts != ts
    ensures !DecidedBy(r, key, order, ts)
  {
    hide Key, Says;
    forall j | 0 <= j < |order| && IsDecisive(r, key, order[j]) ensures order[j] == u {
      assert order[j] in samples;
      assert SayDifferent(r, key, u, order[j]);
    }
  }

  lemma NeverDecided(cast: Cast, r: Reading, samples: set<Sample>, key: Labels, order: seq<Sample>,
                     d: Option<DataPoint>)
    requires !HasDecisive(r, samples, key) && Visits(order, samples) && Results(cast, r, order, key, d)
    ensures d == None
  {
    RemembersAll(r, key, order);
    hide Key, Says, Yields, Decisive;
    var groups := ReceiveAll(r, order);
    forall j | 0 <= j < |order| ensures !IsDecisive(r, key, order[j]) {
      assert order[j] in samples;
    }
    PointNeedsDecisive(cast, groups[key], d);
  }

  /** For a series whose samples say different things, all arrival orders have the same result exactly
      if the samples have one timestamp or none of them could give a data point. */
  lemma OrderMattersExactly(cast: Cast, r: Reading, samples: set<Sample>, key: Labels)
    requires DistinctKinds(r, samples, key)
    ensures OneResult(cast, r, samples, key) <==>
      SameTimestamps(r, samples, key) || !HasDecisive(r, samples, key)
  {
    hide Key, Says, Yields, IsDecisive, DistinctKinds;
    if SameTimestamps(r, samples, key) {
      forall p, q, d, e | Visits(p, samples) && Visits(q, samples) ensures SameResult(cast, r, key, p, q, d, e) {
        OneSeriesOnePoint(cast, r, samples, key, p, q);
      }
    } else if !HasDecisive(r, samples, key) {
      forall p, q, d, e | Visits(p, samples) && Visits(q, samples) ensures SameResult(cast, r, key, p, q, d, e) {
        if Results(cast, r, p, key, d) && Results(cast, r, q, key, e) {
          NeverDecided(cast, r, samples, key, p, d);
          NeverDecided(cast, r, samples, key, q, e);
        }
      }
    } else {
      var u :| u in samples && IsDecisive(r, key, u);
      var a, b :| a in samples && b in samples && Key(r, a) == key && Key(r, b) == key && a.ts != b.ts;
      FirstDecides(cast, r, samples, key, u, if a.ts != u.ts then a else b);
    }
  }

  /** Two such samples: in one order the sum is lost, in the other one the count and with it the point. */
  lemma TimestampsMatter(parse: ParseBound)
    ensures var s, t := Sample("x_count", [], 1, Number(5)), Sample("x_sum", [], 2, Number(7));
      var r, st := Reading(MetricNames.Histogram, "x", parse), EmptySeries(MetricNames.Histogram, [], 1);
      && ReceiveAll(r, [s, t]) == map[[] := st.(count := Some(Number(5)))]
      && ReceiveAll(r, [t, s]) == map[[] := st.(ts := 2, sum := Some(Number(7)))]
  {
    var s, t := Sample("x_count", [], 1, Number(5)), Sample("x_sum", [], 2, Number(7));
    var r := Reading(MetricNames.Histogram, "x", parse);
    KindsOfNames(parse);
    hide KindOf;
    assert SeriesKey(MetricNames.Histogram, []) == [];
    ReceiveTwo(r, s, t);
    ReceiveTwo(r, t, s);
  }

  lemma KindsOfNames(parse: ParseBound)
    ensures KindOf(MetricNames.Histogram, "x", parse, Sample("x_count", [], 1, Number(5))) == CountKind
    ensures KindOf(MetricNames.Histogram, "x", parse, Sample("x_sum", [], 2, Number(7))) == SumKind
  {
    assert "x_count"[3..] == "ount";
    assert "x_count"[1..] == "_count";
    assert "x_sum"[1..] == "_sum";
  }

  lemma ReceiveTwo(r: Reading, s: Sample, t: Sample)
    ensures ReceiveAll(r, [s, t]) == Receive(r, Receive(r, map[], s), t)
  {
    assert [s, t][..1] == [s] && [s][..0] == [];
    assert ReceiveAll(r, [s]) == Receive(r, map[], s);
  }
}
