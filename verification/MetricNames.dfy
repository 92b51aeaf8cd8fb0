/** Metric names, their suffixes, and the metadata of a metric. */
module MetricNames {
  import opened GoStrings

  /** The metric types of Prometheus. */
  datatype PromType = CounterType | GaugeType | UnknownType | HistogramType | SummaryType | InfoType | StatesetType
    | GaugeHistogramType

  /** The metric types of OTLP. */
  datatype OtlpType = Empty | Gauge | Sum | Histogram | ExponentialHistogram | Summary

  datatype Metadata = Metadata(family: string, mtype: PromType)

  /** The metadata a scrape has collected so far, by name. */
  type Store = map<string, Metadata>

  const BUCKET := "_bucket"
  const COUNT := "_count"
  const SUM := "_sum"
  const TOTAL := "_total"
  const INFO := "_info"
  const CREATED := "_created"

  const SUFFIXES: seq<string> := [BUCKET, COUNT, SUM, TOTAL, INFO, CREATED]

  const INTERNAL_METRICS: set<string> :=
    {"up", "scrape_duration_seconds", "scrape_samples_scraped", "scrape_series_added",
     "scrape_samples_post_metric_relabeling"}

  predicate Trims(name: string, suffix: string) {
    HasSuffix(name, suffix) && name != suffix
  }

  /** The name without the suffix that it ends with, if there is one; there is at most one. */
  ghost function Normalized(name: string): string {
    if exists s :: s in SUFFIXES && Trims(name, s) then
      var s :| s in SUFFIXES && Trims(name, s);
      name[..|name| - |s|]
    else name
  }

  /** The suffixes are tried one after the other. */
  method NormalizeMetricName(name: string) returns (normalized: string)
    ensures normalized == Normalized(name)
  {
    for i := 0 to |SUFFIXES|
      invariant forall j :: 0 <= j < i ==> !Trims(name, SUFFIXES[j])
    {
      var s := SUFFIXES[i];
      if HasSuffix(name, s) && name != s {
        NormalizedWithout(name, s);
        return name[..|name| - |s|];
      }
    }
    return name;
  }

  /** No suffix ends with another one: already the last two letters differ. */
  lemma SuffixUnique(base: string, suffix: string, other: string)
    requires suffix in SUFFIXES && other in SUFFIXES
    ensures HasSuffix(base + suffix, other) <==> suffix == other
  {
    var name := base + suffix;
    assert |suffix| >= 2 && name[|name| - 1] == suffix[|suffix| - 1] && name[|name| - 2] == suffix[|suffix| - 2];
    if HasSuffix(name, other) {
      assert name[|name| - |other|..][|other| - 1] == other[|other| - 1];
      assert name[|name| - |other|..][|other| - 2] == other[|other| - 2];
      LastLetters(suffix, other);
    }
  }

  lemma LastLetters(suffix: string, other: string)
    requires suffix in SUFFIXES && other in SUFFIXES
    requires suffix[|suffix| - 1] == other[|other| - 1] && suffix[|suffix| - 2] == other[|other| - 2]
    ensures suffix == other
  {
  }

  lemma NormalizedWithout(name: string, suffix: string)
    requires suffix in SUFFIXES && Trims(name, suffix)
    ensures Normalized(name) == name[..|name| - |suffix|]
  {
    assert name == name[..|name| - |suffix|] + suffix;
    forall s | s in SUFFIXES && Trims(name, s) ensures s == suffix {
      SuffixUnique(name[..|name| - |suffix|], suffix, s);
    }
  }

  /** Whatever the base name, itself suffixed or not, exactly the suffix is trimmed. */
  lemma NormalizedSuffixed(base: string, suffix: string)
    requires base != "" && suffix in {"_bucket", "_count", "_sum", "_total", "_info", "_created"}
    ensures Normalized(base + suffix) == base
  {
    assert (base + suffix)[|base|..] == suffix && base + suffix != suffix;
    NormalizedWithout(base + suffix, suffix);
  }

  lemma NormalizedAlone(name: string)
    requires forall s :: s in SUFFIXES ==> !Trims(name, s)
    ensures Normalized(name) == name
  {
  }

  /** Normalizing leaves a name alone or takes one suffix off. */
  lemma NormalizedIsBase(name: string)
    ensures Normalized(name) == name
      || exists s :: s in {"_bucket", "_count", "_sum", "_total", "_info", "_created"}
           && name == Normalized(name) + s && Normalized(name) != ""
  {
    hide Normalized;
    if s :| s in SUFFIXES && Trims(name, s) {
      NormalizedWithout(name, s);
      assert name == name[..|name| - |s|] + s;
    } else {
      NormalizedAlone(name);
    }
  }

  /** The metadata and the family name of a metric. */
  function MetadataForMetric(name: string, normalized: string, mc: Store): (Metadata, string) {
    if name in INTERNAL_METRICS then (Metadata(name, GaugeType), name)
    else if name in mc then (mc[name], name)
    else if normalized in mc then
      if mc[normalized].mtype == CounterType then
        (mc[normalized], if HasSuffix(name, CREATED) then normalized + TOTAL else name)
      else (mc[normalized], normalized)
    else (Metadata(name, UnknownType), name)
  }

  predicate IsCounterCreatedLine(name: string, normalized: string, mc: Store) {
    HasSuffix(name, CREATED) && normalized in mc && mc[normalized].mtype == CounterType
  }

  /** The OTLP type, and whether a sum is monotonic. */
  function ConvToMetricType(t: PromType, exponentialHistogram: bool): (OtlpType, bool) {
    match t
    case CounterType => (Sum, true)
    case GaugeType => (Gauge, false)
    case UnknownType => (Gauge, false)
    case HistogramType => if exponentialHistogram then (ExponentialHistogram, true) else (Histogram, true)
    case SummaryType => (Summary, true)
    case InfoType => (Sum, false)
    case StatesetType => (Sum, false)
    case GaugeHistogramType => (Empty, false)
  }
}
