/** A metric family and the groups of its series. */
module MetricFamilies {
  import opened Options
  import opened SampleLabels
  import opened Histograms
  import MetricNames

  type OtlpType = MetricNames.OtlpType

  /** The groups of a family by series. */
  type Groups = map<Labels, Series>

  /** How a family reads its samples: by its type, the name in its metadata and the parser of bounds. */
  datatype Reading = Reading(mtype: OtlpType, family: string, parse: ParseBound)

  ghost function GroupOf(t: OtlpType, groups: Groups, ls: Labels, ts: int): Series {
    var key := SeriesKey(t, ls);
    if key in groups then groups[key] else EmptySeries(t, ls, ts)
  }

  ghost function Receive(r: Reading, groups: Groups, s: Sample): Groups {
    groups[SeriesKey(r.mtype, s.ls) := Collect(r.family, r.parse, GroupOf(r.mtype, groups, s.ls, s.ts), s)]
  }

  ghost function ReceiveAll(r: Reading, samples: seq<Sample>): Groups {
    if samples == [] then map[]
    else Receive(r, ReceiveAll(r, samples[..|samples| - 1]), samples[|samples| - 1])
  }

  /** The family that a metric name gets: its name, metadata and type. */
  datatype Identity = Identity(name: string, metadata: MetricNames.Metadata, mtype: OtlpType, isMonotonic: bool)

  /** Native histograms are histograms whatever the metadata says. */
  ghost function IdentityOf(metricName: string, mc: MetricNames.Store, isNative: bool, isNHCB: bool): Identity {
    var (found, name) := MetricNames.MetadataForMetric(metricName, MetricNames.Normalized(metricName), mc);
    var metadata := if isNative then found.(mtype := MetricNames.HistogramType) else found;
    var (mtype, isMonotonic) := MetricNames.ConvToMetricType(metadata.mtype, isNative && !isNHCB);
    Identity(name, metadata, mtype, isMonotonic)
  }

  /** Whether a metric belongs to a family. */
  ghost predicate Includes(id: Identity, metricName: string) {
    match id.mtype
    case Sum => MetricNames.Normalized(metricName) == id.metadata.family
    case Gauge => metricName == id.name
    case _ => MetricNames.Normalized(metricName) == id.name
  }

  /** The order lists each group once. */
  ghost predicate Ordered(groups: map<Labels, MetricGroup>, order: seq<MetricGroup>) {
    && (forall key :: key in groups ==> groups[key] in order)
    && (forall i :: 0 <= i < |order| ==> order[i] in groups.Values)
    && (forall i, j :: 0 <= i < j < |order| ==> order[i] != order[j])
  }

  lemma OrderedStep(groups: map<Labels, MetricGroup>, order: seq<MetricGroup>, key: Labels, mg: MetricGroup)
    requires Ordered(groups, order) && key !in groups && mg !in groups.Values
    ensures Ordered(groups[key := mg], order + [mg])
  {
    var more := groups[key := mg];
    assert more[key] == mg;
    forall i | 0 <= i <= |order| ensures (order + [mg])[i] in more.Values {
      if i < |order| {
        assert order[i] in groups.Values;
        var k :| k in groups && groups[k] == order[i];
        assert more[k] == order[i];
      }
    }
  }

  lemma EmittedNone(cast: Cast)
    ensures Emitted(cast, [], [])
  {
  }

  lemma EmittedStep(cast: Cast, views: seq<Series>, i: nat, d: Option<DataPoint>, points: seq<DataPoint>)
    requires i < |views| && Emitted(cast, views[..i], points) && Yields(cast, views[i], d)
    ensures Emitted(cast, views[..i + 1], if d.Some? then points + [d.value] else points)
  {
    hide IsSorting, PointOf;
    assert views[..i + 1][..i] == views[..i];
    if d.Some? {
      assert (points + [d.value])[..|points|] == points;
    }
  }

  /** The groups at these places have the given points, one after the other, and all others have none. */
  ghost predicate IsSelection(cast: Cast, views: seq<Series>, out: seq<DataPoint>, at: seq<nat>) {
    && |at| == |out|
    && (forall i, j :: 0 <= i < j < |at| ==> at[i] < at[j])
    && (forall k :: 0 <= k < |at| ==> at[k] < |views| && Yields(cast, views[at[k]], Some(out[k])))
    && (forall i :: 0 <= i < |views| && i !in at ==> Yields(cast, views[i], None))
  }

  lemma {:induction false} EmittedInOrder(cast: Cast, views: seq<Series>, out: seq<DataPoint>) returns (at: seq<nat>)
    requires Emitted(cast, views, out)
    ensures IsSelection(cast, views, out, at)
  {
    hide Yields;
    at := [];
    if views != [] {
      var n := |views| - 1;
      if Yields(cast, views[n], None) && Emitted(cast, views[..n], out) {
        at := EmittedInOrder(cast, views[..n], out);
      } else {
        var before := EmittedInOrder(cast, views[..n], out[..|out| - 1]);
        at := before + [n];
        assert forall i :: 0 <= i < n && i !in at ==> i !in before;
      }
    }
  }

  class MetricFamily {
    const id: Identity
    var groups: map<Labels, MetricGroup>
    var groupOrders: seq<MetricGroup>

    constructor (metricName: string, mc: MetricNames.Store, isNative: bool, isNHCB: bool)
      ensures id == IdentityOf(metricName, mc, isNative, isNHCB)
      ensures Valid() && Views() == map[] && groups == map[]
    {
      var normalized := MetricNames.NormalizeMetricName(metricName);
      var (metadata, familyName) := MetricNames.MetadataForMetric(metricName, normalized, mc);
      if isNative {
        metadata := metadata.(mtype := MetricNames.HistogramType);
      }
      var (mtype, isMonotonic) := MetricNames.ConvToMetricType(metadata.mtype, isNative && !isNHCB);
      id := Identity(familyName, metadata, mtype, isMonotonic);
      groups, groupOrders := map[], [];
    }

    method IncludesMetric(metricName: string) returns (included: bool)
      ensures included == Includes(id, metricName)
    {
      var normalized := MetricNames.NormalizeMetricName(metricName);
      if id.mtype == MetricNames.Sum {
        return normalized == id.metadata.family;
      }
      if id.mtype != MetricNames.Gauge {
        return normalized == id.name;
      }
      return metricName == id.name;
    }

    /** Every group is filed under the series of its own labels, so no two series share one, and has
        its place in the order of creation. */
    ghost predicate Valid()
      reads this, groups.Values
    {
      && (forall key :: key in groups ==>
            groups[key].Valid() && groups[key].mtype == id.mtype && SeriesKey(id.mtype, groups[key].ls) == key)
      && Ordered(groups, groupOrders)
    }

    ghost function Views(): Groups
      reads this, groups.Values
    {
      map key | key in groups :: groups[key].View()
    }

    method LoadMetricGroupOrCreate(ls: Labels, ts: int) returns (mg: MetricGroup)
      requires Valid() && SortedLabels(ls)
      modifies this
      ensures Valid() && SeriesKey(id.mtype, ls) in groups && groups[SeriesKey(id.mtype, ls)] == mg
      ensures SeriesKey(id.mtype, ls) in old(groups) ==> groups == old(groups)
      ensures SeriesKey(id.mtype, ls) !in old(groups) ==>
        && fresh(mg) && mg.View() == EmptySeries(id.mtype, ls, ts)
        && groups == old(groups)[SeriesKey(id.mtype, ls) := mg]
      ensures Views() == old(Views())[SeriesKey(id.mtype, ls) := GroupOf(id.mtype, old(Views()), ls, ts)]
      ensures mg.View() == GroupOf(id.mtype, old(Views()), ls, ts)
    {
      hide SeriesKey, UsefulLabels, Ordered, SortedLabels;
      var key := SeriesKey(id.mtype, ls);
      if key !in groups {
        mg := new MetricGroup(id.mtype, ls, ts);
        OrderedStep(groups, groupOrders, key, mg);
        groups := groups[key := mg];
        groupOrders := groupOrders + [mg];
      } else {
        mg := groups[key];
      }
    }

    /** A change of one group is a change of its view. */
    twostate lemma OneViewChanged(key: Labels)
      requires groups == old(groups) && key in groups
      requires forall k :: k in groups && k != key ==> unchanged(groups[k]) && groups[k] != groups[key]
      ensures Views() == old(Views())[key := groups[key].View()]
    {
    }

    method AddSample(parse: ParseBound, s: Sample) returns (ok: bool)
      requires Valid() && SortedLabels(s.ls)
      modifies this, groups.Values
      ensures Valid() && Views() == Receive(Reading(id.mtype, id.metadata.family, parse), old(Views()), s)
      ensures forall key :: key in old(groups) ==> key in groups && groups[key] == old(groups)[key]
      ensures forall key :: key in groups && key !in old(groups) ==> fresh(groups[key])
    {
      hide SeriesKey, UsefulLabels, Ordered, SortedLabels, KindOf, Collect, EmptySeries, GroupOf;
      hide MetricGroup.View, Views;
      var mg := LoadMetricGroupOrCreate(s.ls, s.ts);
      label loaded:
      ok := mg.AddSeries(id.metadata.family, parse, s);
      OneViewChanged@loaded(SeriesKey(id.mtype, s.ls));
    }

    method AddNHCBSeries(ls: Labels, t: int, h: Option<IntHistogram>, fh: Option<FloatHistogram>) returns (ok: bool)
      requires Valid() && SortedLabels(ls)
      modifies this, groups.Values
      ensures Valid()
      ensures Views() ==
        old(Views())[SeriesKey(id.mtype, ls) := CollectNHCB(GroupOf(id.mtype, old(Views()), ls, t), t, h, fh)]
      ensures forall key :: key in old(groups) ==> key in groups && groups[key] == old(groups)[key]
    {
      hide SeriesKey, UsefulLabels, Ordered, SortedLabels, CollectNHCB, EmptySeries, GroupOf, MetricGroup.View, Views;
      var mg := LoadMetricGroupOrCreate(ls, t);
      label loaded:
      ok := mg.AddNHCBSeries(t, h, fh);
      OneViewChanged@loaded(SeriesKey(id.mtype, ls));
    }

    method AddExponentialHistogramSeries(ls: Labels, t: int, h: Option<IntHistogram>, fh: Option<FloatHistogram>)
      returns (ok: bool)
      requires Valid() && SortedLabels(ls)
      requires h.Some? ==> h.value.Sound()
      requires fh.Some? ==> fh.value.Sound()
      modifies this, groups.Values
      ensures Valid()
      ensures Views() ==
        old(Views())[SeriesKey(id.mtype, ls) := CollectExponential(GroupOf(id.mtype, old(Views()), ls, t), t, h, fh)]
      ensures forall key :: key in old(groups) ==> key in groups && groups[key] == old(groups)[key]
      ensures forall key :: key in groups && key !in old(groups) ==> fresh(groups[key])
    {
      hide SeriesKey, UsefulLabels, Ordered, SortedLabels, CollectExponential, EmptySeries, GroupOf, MetricGroup.View;
      hide Views;
      var mg := LoadMetricGroupOrCreate(ls, t);
      label loaded:
      ok := mg.AddExponentialHistogramSeries(t, h, fh);
      OneViewChanged@loaded(SeriesKey(id.mtype, ls));
    }

    ghost function OrderedViews(): seq<Series>
      reads this, groupOrders
    {
      seq(|groupOrders|, i requires 0 <= i < |groupOrders| reads this, groupOrders => groupOrders[i].View())
    }

    /** The data points of the family, group by group. */
    method AppendMetric(cast: Cast) returns (points: seq<DataPoint>)
      requires IsCast(cast) && Valid()
      modifies groups.Values
      ensures Valid() && Emitted(cast, old(OrderedViews()), points)
    {
      hide SeriesKey, UsefulLabels, SortedLabels, Yields, Emitted;
      ghost var views := OrderedViews();
      points := [];
      EmittedNone(cast);
      for i := 0 to |groupOrders|
        invariant Valid()
        invariant forall k :: i <= k < |groupOrders| ==> groupOrders[k].View() == views[k]
        invariant Emitted(cast, views[..i], points)
      {
        var d := groupOrders[i].ToDataPoint(cast);
        EmittedStep(cast, views, i, d, points);
        if d.Some? {
          points := points + [d.value];
        }
      }
      assert views[..|groupOrders|] == views;
    }
  }
}
