/** The labels of a sample and the attributes of the data point they end up in. */
module SampleLabels {
  import opened GoStrings
  import opened MetricNames

  datatype Label = Label(name: string, value: string)

  type Labels = seq<Label>

  /** Prometheus keeps labels sorted by name, each name once. */
  predicate SortedLabels(ls: Labels) {
    forall i, j :: 0 <= i < j < |ls| ==> Less(ls[i].name, ls[j].name)
  }

  predicate SortedNames(names: seq<string>) {
    forall i, j :: 0 <= i < j < |names| ==> Less(names[i], names[j])
  }

  const SCOPE_PREFIX := "otel_scope_"

  /** Labels of the scrape, which are no attributes of any data point. */
  const NOT_USEFUL_OTHER: seq<string> := ["__metrics_path__", "__name__", "__scheme__", "instance", "job"]

  /** For histograms and summaries the label with the bound is none either. */
  function NotUseful(t: OtlpType): seq<string> {
    if t.Histogram? then NOT_USEFUL_OTHER + ["le"]
    else if t.Summary? then NOT_USEFUL_OTHER + ["quantile"]
    else NOT_USEFUL_OTHER
  }

  /** A label that is neither in `names` nor about the scope. */
  predicate Useful(l: Label, names: seq<string>) {
    l.name !in names && !HasPrefix(l.name, SCOPE_PREFIX)
  }

  /** The useful labels, in order; empty ones only if `withEmpty`. */
  function UsefulLabels(ls: Labels, names: seq<string>, withEmpty: bool): Labels {
    if ls == [] then []
    else
      var l := ls[|ls| - 1];
      UsefulLabels(ls[..|ls| - 1], names, withEmpty)
      + if Useful(l, names) && (withEmpty || l.value != "") then [l] else []
  }

  /** What identifies a series: all useful labels. The receiver hashes them. */
  function SeriesKey(t: OtlpType, ls: Labels): Labels {
    UsefulLabels(ls, NotUseful(t), true)
  }

  /** The attributes of a data point: all useful labels that are not empty. */
  function Attributes(t: OtlpType, ls: Labels): Labels {
    UsefulLabels(ls, NotUseful(t), false)
  }

  function DropEmpty(ls: Labels): Labels {
    if ls == [] then []
    else DropEmpty(ls[..|ls| - 1]) + if ls[|ls| - 1].value != "" then [ls[|ls| - 1]] else []
  }

  /** The attributes are a function of the series, whichever of its samples they are taken from. */
  lemma {:induction false} AttributesFromKey(t: OtlpType, ls: Labels)
    ensures Attributes(t, ls) == DropEmpty(SeriesKey(t, ls))
  {
    hide NotUseful;
    if ls != [] {
      var n := |ls| - 1;
      AttributesFromKey(t, ls[..n]);
      var key := SeriesKey(t, ls[..n]);
      assert (key + [ls[n]])[..|key|] == key;
      assert key + [] == key;
    }
  }

  lemma {:induction false} UsefulExactly(ls: Labels, names: seq<string>, withEmpty: bool, l: Label)
    ensures l in UsefulLabels(ls, names, withEmpty) <==> l in ls && Useful(l, names) && (withEmpty || l.value != "")
  {
    hide Useful;
    if ls != [] {
      UsefulExactly(ls[..|ls| - 1], names, withEmpty, l);
      assert ls == ls[..|ls| - 1] + [ls[|ls| - 1]];
    }
  }

  /** The attributes are exactly the labels that are not left out and not empty. */
  lemma AttributesExactly(t: OtlpType, ls: Labels, l: Label)
    ensures l in Attributes(t, ls) <==>
      && l in ls && l.value != "" && !HasPrefix(l.name, "otel_scope_")
      && l.name !in {"__metrics_path__", "__name__", "__scheme__", "instance", "job"}
      && !(t.Histogram? && l.name == "le") && !(t.Summary? && l.name == "quantile")
  {
    UsefulExactly(ls, NotUseful(t), false, l);
    hide UsefulLabels, HasPrefix;
  }

  /** A series is identified by exactly these labels. */
  lemma SeriesKeyExactly(t: OtlpType, ls: Labels, l: Label)
    ensures l in SeriesKey(t, ls) <==>
      && l in ls && !HasPrefix(l.name, "otel_scope_")
      && l.name !in {"__metrics_path__", "__name__", "__scheme__", "instance", "job"}
      && !(t.Histogram? && l.name == "le") && !(t.Summary? && l.name == "quantile")
  {
    UsefulExactly(ls, NotUseful(t), true, l);
    hide UsefulLabels, HasPrefix;
  }

  lemma {:induction false} UsefulSorted(ls: Labels, names: seq<string>, withEmpty: bool)
    requires SortedLabels(ls)
    ensures SortedLabels(UsefulLabels(ls, names, withEmpty))
  {
    hide Useful, Less;
    if ls != [] {
      var n := |ls| - 1;
      UsefulSorted(ls[..n], names, withEmpty);
      var front := UsefulLabels(ls[..n], names, withEmpty);
      forall i | 0 <= i < |front| ensures Less(front[i].name, ls[n].name) {
        UsefulExactly(ls[..n], names, withEmpty, front[i]);
        assert front[i] in front;
        var k :| 0 <= k < n && ls[..n][k] == front[i];
        assert ls[k] == front[i];
      }
    }
  }

  lemma {:induction false} SortedUnique(a: Labels, b: Labels)
    requires SortedLabels(a) && SortedLabels(b) && forall l :: l in a <==> l in b
    ensures a == b
  {
    assert b != [] ==> b[0] in b;
    if a != [] {
      assert a[0] in a;
      var m, n := |a| - 1, |b| - 1;
      LastIsLast(a, b);
      forall l ensures l in a[..m] <==> l in b[..n] {
        NotInFront(a, l);
        NotInFront(b, l);
      }
      hide Less;
      SortedUnique(a[..m], b[..n]);
      assert a == a[..m] + [a[m]] && b == b[..n] + [b[n]];
    }
  }

  lemma NotInFront(a: Labels, l: Label)
    requires SortedLabels(a) && a != []
    ensures l in a[..|a| - 1] <==> l in a && l != a[|a| - 1]
  {
    var n := |a| - 1;
    LessTrichotomy(a[n].name, a[n].name);
    hide Less;
    if l in a[..n] {
      var i :| 0 <= i < n && a[i] == l;
      assert Less(a[i].name, a[n].name);
    }
  }

  lemma LastIsLast(a: Labels, b: Labels)
    requires SortedLabels(a) && SortedLabels(b) && a != [] && b != [] && forall l :: l in a <==> l in b
    ensures a[|a| - 1] == b[|b| - 1]
  {
    var l, k := a[|a| - 1], b[|b| - 1];
    LessTrichotomy(l.name, k.name);
    hide Less;
    assert l in b && k in a;
    var i :| 0 <= i < |b| && b[i] == l;
    var j :| 0 <= j < |a| && a[j] == k;
    assert i < |b| - 1 ==> Less(l.name, k.name);
    assert j < |a| - 1 ==> Less(k.name, l.name);
  }

  /** Two label lists belong to one series exactly if they agree in all labels but those of the scrape and
      the scope, the bucket of a histogram and the quantile of a summary. */
  lemma SameSeriesExactly(t: OtlpType, a: Labels, b: Labels)
    requires SortedLabels(a) && SortedLabels(b)
    ensures SeriesKey(t, a) == SeriesKey(t, b) <==>
      forall l: Label ::
        && !HasPrefix(l.name, "otel_scope_")
        && l.name !in {"__metrics_path__", "__name__", "__scheme__", "instance", "job"}
        && !(t.Histogram? && l.name == "le") && !(t.Summary? && l.name == "quantile")
        ==> (l in a <==> l in b)
  {
    forall l: Label
      ensures l in SeriesKey(t, a) <==>
        && l in a && !HasPrefix(l.name, "otel_scope_")
        && l.name !in {"__metrics_path__", "__name__", "__scheme__", "instance", "job"}
        && !(t.Histogram? && l.name == "le") && !(t.Summary? && l.name == "quantile")
      ensures l in SeriesKey(t, b) <==>
        && l in b && !HasPrefix(l.name, "otel_scope_")
        && l.name !in {"__metrics_path__", "__name__", "__scheme__", "instance", "job"}
        && !(t.Histogram? && l.name == "le") && !(t.Summary? && l.name == "quantile")
    {
      SeriesKeyExactly(t, a, l);
      SeriesKeyExactly(t, b, l);
    }
    UsefulSorted(a, NotUseful(t), true);
    UsefulSorted(b, NotUseful(t), true);
    hide SortedLabels, UsefulLabels, HasPrefix, NotUseful;
    if forall l :: l in SeriesKey(t, a) <==> l in SeriesKey(t, b) {
      SortedUnique(SeriesKey(t, a), SeriesKey(t, b));
    }
  }

  /** So all buckets of a histogram are one series, and all quantiles of a summary. */
  lemma OneSeries(a: Labels, b: Labels)
    requires SortedLabels(a) && SortedLabels(b)
    ensures (forall l: Label :: l.name != "le" && l.name != "__name__" ==> (l in a <==> l in b)) ==>
      SeriesKey(Histogram, a) == SeriesKey(Histogram, b)
    ensures (forall l: Label :: l.name != "quantile" && l.name != "__name__" ==> (l in a <==> l in b)) ==>
      SeriesKey(Summary, a) == SeriesKey(Summary, b)
  {
    SameSeriesExactly(Histogram, a, b);
    SameSeriesExactly(Summary, a, b);
    hide SortedLabels, SeriesKey, HasPrefix;
  }

  lemma {:induction false} SortedNotUseful(t: OtlpType)
    ensures SortedNames(NotUseful(t))
  {
    assert Less("__metrics_path__", "__name__") by { LessAt("__metrics_path__", "__name__", 2); }
    assert Less("__name__", "__scheme__") by { LessAt("__name__", "__scheme__", 2); }
    assert Less("__scheme__", "instance") by { LessAt("__scheme__", "instance", 0); }
    assert Less("instance", "job") by { LessAt("instance", "job", 0); }
    assert Less("job", "le") by { LessAt("job", "le", 0); }
    assert Less("job", "quantile") by { LessAt("job", "quantile", 0); }
    hide Less;
    AdjacentLess(NotUseful(t));
  }

  lemma {:induction false} LessAt(a: string, b: string, k: nat)
    requires k < |a| && k < |b| && a[..k] == b[..k] && a[k] < b[k]
    ensures Less(a, b)
  {
    if k > 0 {
      assert a[0] == a[..k][0] == b[..k][0] == b[0];
      assert a[1..][..k - 1] == a[..k][1..] == b[..k][1..] == b[1..][..k - 1];
      LessAt(a[1..], b[1..], k - 1);
    }
  }

  lemma {:induction false} AdjacentLess(names: seq<string>)
    requires forall i :: 0 <= i < |names| - 1 ==> Less(names[i], names[i + 1])
    ensures SortedNames(names)
  {
    if names != [] {
      var n := |names| - 1;
      AdjacentLess(names[..n]);
      forall i | 0 <= i < n ensures Less(names[i], names[n]) {
        if i < n - 1 {
          assert Less(names[..n][i], names[..n][n - 1]);
          LessTransitive(names[i], names[n - 1], names[n]);
        }
      }
    }
  }

  /** One walk over two sorted lists. */
  method PopulateAttributes(ls: Labels, names: seq<string>) returns (dest: Labels)
    requires SortedLabels(ls) && SortedNames(names)
    ensures dest == UsefulLabels(ls, names, false)
  {
    dest := [];
    var j := 0;
    for i := 0 to |ls|
      invariant 0 <= j <= |names|
      invariant forall k :: 0 <= k < j && i < |ls| ==> Less(names[k], ls[i].name)
      invariant dest == UsefulLabels(ls[..i], names, false)
    {
      var l := ls[i];
      assert ls[..i + 1][..i] == ls[..i];
      while j < |names| && Less(names[j], l.name)
        invariant 0 <= j <= |names|
        invariant forall k :: 0 <= k < j ==> Less(names[k], l.name)
      {
        j := j + 1;
      }
      StopsAtName(names, j, l.name);
      forall k | 0 <= k < j && i + 1 < |ls| ensures Less(names[k], ls[i + 1].name) {
        LessTransitive(names[k], l.name, ls[i + 1].name);
      }
      if j < |names| && l.name == names[j] {
        continue;
      }
      if HasPrefix(l.name, SCOPE_PREFIX) {
        continue;
      }
      if l.value == "" {
        continue;
      }
      dest := dest + [l];
    }
    assert ls[..|ls|] == ls;
  }

  /** The pointer stands at the name if it is there at all. */
  lemma StopsAtName(names: seq<string>, j: nat, name: string)
    requires SortedNames(names) && j <= |names|
    requires forall k :: 0 <= k < j ==> Less(names[k], name)
    requires j < |names| ==> !Less(names[j], name)
    ensures name in names <==> j < |names| && names[j] == name
  {
    if name in names {
      var k :| 0 <= k < |names| && names[k] == name;
      LessTrichotomy(name, name);
    }
  }

  /** The value of a label, empty if there is none. */
  function Lookup(ls: Labels, name: string): string {
    if ls == [] then ""
    else if ls[|ls| - 1].name == name then ls[|ls| - 1].value
    else Lookup(ls[..|ls| - 1], name)
  }

  /** It is the value that the name has in the list. */
  lemma {:induction false} LookupExactly(ls: Labels, name: string)
    requires SortedLabels(ls)
    ensures forall v :: Label(name, v) in ls ==> Lookup(ls, name) == v
    ensures (forall l :: l in ls ==> l.name != name) ==> Lookup(ls, name) == ""
  {
    hide Less;
    if ls != [] {
      var n := |ls| - 1;
      LookupExactly(ls[..n], name);
      assert ls == ls[..n] + [ls[n]];
      forall v | Label(name, v) in ls ensures Lookup(ls, name) == v {
        NotInFront(ls, Label(name, v));
        NameOnce(ls, Label(name, v));
      }
    }
  }

  lemma NameOnce(ls: Labels, l: Label)
    requires SortedLabels(ls) && l in ls
    ensures l.name == ls[|ls| - 1].name ==> l == ls[|ls| - 1]
  {
    LessTrichotomy(l.name, l.name);
    hide Less;
    var i :| 0 <= i < |ls| && ls[i] == l;
    assert i < |ls| - 1 ==> Less(ls[i].name, ls[|ls| - 1].name);
  }
}
