/** The families of counters: the total and the creation time of a counter belong together. */
module Counters {
  import opened MetricNames
  import opened MetricFamilies
  import opened Transactions

  predicate IsCounterSample(base: string, name: string) {
    name == base + TOTAL || name == base + CREATED
  }

  ghost predicate AsksCounter(step: Step, p: Place, base: string) {
    At(step.q, p) && IsCounterSample(base, step.q.metricName)
  }

  ghost predicate AsksPlain(step: Step, p: Place, base: string) {
    At(step.q, p) && step.q.metricName == base
  }

  ghost predicate IsFamily(id: Identity, name: string, family: string) {
    id.name == name && id.metadata.family == family && id.mtype == Sum
  }

  /** Under the plain name and the name with `_total` only families of the counter are filed, and
      nothing is filed under the name with `_created`. */
  ghost predicate CounterFiled(families: Families, p: Place, base: string) {
    && PlaceKey(p, base + CREATED) !in families
    && (PlaceKey(p, base) in families ==> IsFamily(families[PlaceKey(p, base)].id, base, base))
    && (PlaceKey(p, base + TOTAL) in families ==> IsFamily(families[PlaceKey(p, base + TOTAL)].id, base + TOTAL, base))
  }

  /** A total that is looked up while only the family under the plain name is filed. */
  ghost predicate Captures(families: Families, step: Step, p: Place, base: string) {
    && At(step.q, p) && step.q.metricName == base + TOTAL
    && PlaceKey(p, base) in families && PlaceKey(p, base + TOTAL) !in families
  }

  /** Whenever a sample of the place is looked up, the store describes `base` as a counter. */
  ghost predicate DescribesCounter(mc: Store, base: string) {
    Describes(mc, base) && mc[base].mtype == CounterType
  }

  lemma CounterIdentity(q: Request, base: string)
    requires DescribesCounter(q.mc, base) && !q.native && IsCounterSample(base, q.metricName)
    ensures IsFamily(IdentityOf(q.metricName, q.mc, q.native, q.nhcb), base + TOTAL, base)
    ensures FallbackName(q) == if q.metricName == base + CREATED then base + TOTAL else base
    ensures Normalized(q.metricName) == base
  {
    SuffixedNames(base, TOTAL);
    SuffixedNames(base, CREATED);
    assert About(base, base + TOTAL) && About(base, base + CREATED);
    hide Normalized;
  }

  lemma PlainIdentity(q: Request, base: string)
    requires DescribesCounter(q.mc, base) && !q.native && q.metricName == base
    ensures IsFamily(IdentityOf(q.metricName, q.mc, q.native, q.nhcb), base, base) && FallbackName(q) == base
  {
    assert About(base, base);
    hide Normalized;
  }

  /** The other suffixed samples of a counter are families of their own. */
  lemma CounterOthers(q: Request, base: string)
    requires DescribesCounter(q.mc, base) && !IsCounterSample(base, q.metricName)
    requires q.metricName != base && About(base, q.metricName)
    ensures IdentityOf(q.metricName, q.mc, q.native, q.nhcb).name == q.metricName
  {
    var s :| s in SUFFIXES && q.metricName == base + s;
    SuffixedNames(base, s);
    hide Normalized;
  }

  lemma DistinctNames(base: string)
    requires base != ""
    ensures base + TOTAL != base && base + CREATED != base && base + TOTAL != base + CREATED
  {
    SuffixedNames(base, TOTAL);
    SuffixedNames(base, CREATED);
  }

  lemma CounterDecides(families: Families, q: Request, p: Place, base: string)
    requires CounterFiled(families, p, base) && At(q, p) && !p.native
    requires DescribesCounter(q.mc, base) && IsCounterSample(base, q.metricName)
    ensures Decide(families, q) ==
      if PlaceKey(p, base + TOTAL) in families then Found(PlaceKey(p, base + TOTAL))
      else if q.metricName == base + TOTAL && PlaceKey(p, base) in families then Found(PlaceKey(p, base))
      else Created(IdentityOf(q.metricName, q.mc, q.native, q.nhcb))
  {
    hide IdentityOf, FallbackName, DescribesCounter, Normalized;
    CounterIdentity(q, base);
    NotEmpty(q.mc, base);
    DistinctNames(base);
  }

  lemma NotEmpty(mc: Store, base: string)
    requires DescribesCounter(mc, base)
    ensures base != ""
  {
  }

  /** A total or a creation time: it gets the family filed with `_total`, unless a total is captured by
      the family under the plain name. */
  lemma CounterResolves(families: Families, step: Step, p: Place, base: string)
    requires CounterFiled(families, p, base) && Resolves(families, step.q, step.after, step.mf) && !p.native
    requires AsksCounter(step, p, base) && DescribesCounter(step.q.mc, base)
    ensures Captures(families, step, p, base) ==> step.after == families && step.mf.id.name == base
    ensures var key := PlaceKey(p, base + TOTAL);
      && (key in families ==> step.after == families && step.mf == families[key])
      && (key !in families && !Captures(families, step, p, base) ==>
            step.after == families[key := step.mf] && IsFamily(step.mf.id, base + TOTAL, base))
  {
    hide IdentityOf, DescribesCounter, Decide;
    CounterIdentity(step.q, base);
    CounterDecides(families, step.q, p, base);
  }

  /** What happens to the total of a counter before it has a family: it joins the family under the plain
      name if there is one, so only without one its family gets the name with `_total`. */
  lemma PlainCounterCapturesTotal(families: Families, q: Request, base: string)
    requires DescribesCounter(q.mc, base) && !q.native && q.metricName == base + TOTAL
    requires KeyOf(q, base + TOTAL) !in families
    requires KeyOf(q, base) in families ==> families[KeyOf(q, base)].id == IdentityOf(base, q.mc, false, q.nhcb)
    ensures KeyOf(q, base) in families ==>
      Decide(families, q) == Found(KeyOf(q, base)) && families[KeyOf(q, base)].id.name == base
    ensures KeyOf(q, base) !in families ==> exists id :: Decide(families, q) == Created(id) && id.name == base + TOTAL
  {
    CounterIdentity(q, base);
    assert base !in INTERNAL_METRICS by {
      assert About(base, base);
    }
    if KeyOf(q, base) !in families {
      assert Decide(families, q) == Created(IdentityOf(q.metricName, q.mc, q.native, q.nhcb));
    }
  }

  lemma PlainResolves(families: Families, step: Step, p: Place, base: string)
    requires CounterFiled(families, p, base) && Resolves(families, step.q, step.after, step.mf) && !p.native
    requires AsksPlain(step, p, base) && DescribesCounter(step.q.mc, base)
    ensures step.after == families[PlaceKey(p, base) := step.mf] && IsFamily(step.mf.id, base, base)
  {
    PlainIdentity(step.q, base);
    hide IdentityOf, FallbackName, DescribesCounter, Includes;
  }

  /** Nothing about the counter is filed or taken away by any other lookup. */
  lemma OthersResolve(families: Families, step: Step, p: Place, base: string)
    requires Resolves(families, step.q, step.after, step.mf)
    requires At(step.q, p) ==> DescribesCounter(step.q.mc, base)
    requires !AsksCounter(step, p, base) && !AsksPlain(step, p, base)
    ensures forall name :: name == base || IsCounterSample(base, name) ==>
      && (PlaceKey(p, name) in step.after <==> PlaceKey(p, name) in families)
      && (PlaceKey(p, name) in families ==> step.after[PlaceKey(p, name)] == families[PlaceKey(p, name)])
  {
    hide IdentityOf, FallbackName, Includes, Describes;
    assert About(base, base) && About(base, base + TOTAL) && About(base, base + CREATED);
    if Asks(step, p, base) {
      CounterOthers(step.q, base);
    } else {
      OtherResolves(families, step.q, step.after, step.mf, p, base);
    }
  }

  /** One lookup of any kind, plain ones included. */
  lemma CounterStep(families: Families, step: Step, p: Place, base: string)
    requires CounterFiled(families, p, base) && Resolves(families, step.q, step.after, step.mf) && !p.native
    requires At(step.q, p) ==> DescribesCounter(step.q.mc, base)
    ensures CounterFiled(step.after, p, base)
    ensures PlaceKey(p, base) in step.after <==> PlaceKey(p, base) in families || AsksPlain(step, p, base)
    ensures Captures(families, step, p, base) ==> step.mf.id.name == base
    ensures var key := PlaceKey(p, base + TOTAL);
      && (key in step.after <==>
            key in families || (AsksCounter(step, p, base) && !Captures(families, step, p, base)))
      && (key in families ==> step.after[key] == families[key])
      && (AsksCounter(step, p, base) && !Captures(families, step, p, base) ==> step.after[key] == step.mf)
  {
    if AsksCounter(step, p, base) || AsksPlain(step, p, base) {
      DistinctNames(base);
    }
    hide Resolves, DescribesCounter, IsFamily;
    if AsksCounter(step, p, base) {
      CounterResolves(families, step, p, base);
    } else if AsksPlain(step, p, base) {
      PlainResolves(families, step, p, base);
    } else {
      OthersResolve(families, step, p, base);
      assert IsCounterSample(base, base + TOTAL) && IsCounterSample(base, base + CREATED);
    }
  }

  ghost predicate DescribedCounter(steps: seq<Step>, p: Place, base: string) {
    forall i :: 0 <= i < |steps| && At(steps[i].q, p) ==> DescribesCounter(steps[i].q.mc, base)
  }

  /** A run in which the store describes the counter. */
  ghost predicate CounterRun(start: Families, steps: seq<Step>, p: Place, base: string) {
    IsRun(start, steps) && CounterFiled(start, p, base) && DescribedCounter(steps, p, base) && !p.native
  }

  lemma CounterRunStep(start: Families, steps: seq<Step>, p: Place, base: string, i: nat)
    requires CounterRun(start, steps, p, base) && i < |steps|
    requires CounterFiled(Before(start, steps, i), p, base)
    ensures var families, families', step := Before(start, steps, i), Before(start, steps, i + 1), steps[i];
      var key := PlaceKey(p, base + TOTAL);
      && CounterFiled(families', p, base)
      && (PlaceKey(p, base) in families' <==> PlaceKey(p, base) in families || AsksPlain(step, p, base))
      && (Captures(families, step, p, base) ==> step.mf.id.name == base)
      && (key in families' <==>
            key in families || (AsksCounter(step, p, base) && !Captures(families, step, p, base)))
      && (key in families ==> families'[key] == families[key])
      && (AsksCounter(step, p, base) && !Captures(families, step, p, base) ==> families'[key] == step.mf)
  {
    hide Describes, Resolves, CounterFiled, AsksPlain, AsksCounter, Captures;
    assert Before(start, steps, i + 1) == steps[i].after;
    CounterStep(Before(start, steps, i), steps[i], p, base);
  }

  lemma {:induction false} RunKeepsFiled(start: Families, steps: seq<Step>, p: Place, base: string, i: nat)
    requires CounterRun(start, steps, p, base) && i <= |steps|
    ensures CounterFiled(Before(start, steps, i), p, base)
  {
    hide IsRun, DescribedCounter, CounterFiled, AsksCounter, AsksPlain, Captures;
    if i > 0 {
      RunKeepsFiled(start, steps, p, base, i - 1);
      CounterRunStep(start, steps, p, base, i - 1);
    }
  }

  /** Once filed, the family with `_total` stays, whatever is looked up. */
  lemma {:induction false} TotalStays(start: Families, steps: seq<Step>, p: Place, base: string, i: nat, j: nat)
    requires CounterRun(start, steps, p, base) && i <= j <= |steps|
    requires PlaceKey(p, base + TOTAL) in Before(start, steps, i)
    ensures PlaceKey(p, base + TOTAL) in Before(start, steps, j)
    ensures Before(start, steps, j)[PlaceKey(p, base + TOTAL)] == Before(start, steps, i)[PlaceKey(p, base + TOTAL)]
  {
    hide CounterRun, CounterFiled, AsksCounter, AsksPlain, Captures;
    if i < j {
      TotalStays(start, steps, p, base, i, j - 1);
      RunKeepsFiled(start, steps, p, base, j - 1);
      CounterRunStep(start, steps, p, base, j - 1);
    }
  }

  ghost predicate Captured(start: Families, steps: seq<Step>, p: Place, base: string, i: int) {
    0 <= i < |steps| && Captures(Before(start, steps, i), steps[i], p, base)
  }

  ghost predicate SameFamilyAt(steps: seq<Step>, base: string, i: int, j: int) {
    0 <= i < |steps| && 0 <= j < |steps| && steps[i].mf == steps[j].mf && steps[i].mf.id.name == base + TOTAL
  }

  /** All totals and creation times get one family, and its name ends with `_total`. */
  ghost predicate OneFamilyOnly(steps: seq<Step>, p: Place, base: string) {
    forall i, j | 0 <= i <= j < |steps| && AsksCounter(steps[i], p, base) && AsksCounter(steps[j], p, base) ::
      SameFamilyAt(steps, base, i, j)
  }

  lemma SameCounterFamily(start: Families, steps: seq<Step>, p: Place, base: string, i: nat, j: nat)
    requires CounterRun(start, steps, p, base)
    requires i <= j < |steps| && AsksCounter(steps[i], p, base) && AsksCounter(steps[j], p, base)
    requires !Captured(start, steps, p, base, i) && !Captured(start, steps, p, base, j)
    ensures SameFamilyAt(steps, base, i, j)
  {
    hide CounterRun, AsksCounter, AsksPlain, Captures;
    RunKeepsFiled(start, steps, p, base, i);
    CounterRunStep(start, steps, p, base, i);
    TotalStays(start, steps, p, base, i + 1, j + 1);
    RunKeepsFiled(start, steps, p, base, j);
    CounterRunStep(start, steps, p, base, j);
  }

  /** In any run, plain samples included, all totals and creation times of a counter get one family named
      with `_total` exactly if no total is looked up while only the plain family is filed. */
  lemma OneCounterFamily(start: Families, steps: seq<Step>, p: Place, base: string)
    requires CounterRun(start, steps, p, base)
    ensures OneFamilyOnly(steps, p, base) <==> forall i :: !Captured(start, steps, p, base, i)
  {
    hide CounterRun, AsksPlain, CounterFiled;
    if i :| Captured(start, steps, p, base, i) {
      RunKeepsFiled(start, steps, p, base, i);
      CounterRunStep(start, steps, p, base, i);
      assert AsksCounter(steps[i], p, base) && |base + TOTAL| > |base|;
      assert !SameFamilyAt(steps, base, i, i);
    } else {
      hide AsksCounter, Captures, SameFamilyAt;
      forall i, j | 0 <= i <= j < |steps| && AsksCounter(steps[i], p, base) && AsksCounter(steps[j], p, base)
        ensures SameFamilyAt(steps, base, i, j)
      {
        SameCounterFamily(start, steps, p, base, i, j);
      }
    }
  }

  /******* The condition on the samples alone *******/

  ghost predicate NothingFiled(families: Families, p: Place, base: string) {
    && PlaceKey(p, base) !in families
    && PlaceKey(p, base + TOTAL) !in families && PlaceKey(p, base + CREATED) !in families
  }

  ghost predicate PlainBefore(steps: seq<Step>, p: Place, base: string, i: nat) {
    exists k :: 0 <= k < i <= |steps| && AsksPlain(steps[k], p, base)
  }

  ghost predicate CounterBefore(steps: seq<Step>, p: Place, base: string, i: nat) {
    exists k :: 0 <= k < i <= |steps| && AsksCounter(steps[k], p, base)
  }

  /** The first sample of the counter with a suffix is a total, and a plain one came before it. */
  ghost predicate PlainComesFirst(steps: seq<Step>, p: Place, base: string, i: int) {
    && 0 <= i < |steps| && At(steps[i].q, p) && steps[i].q.metricName == base + TOTAL
    && PlainBefore(steps, p, base, i) && !CounterBefore(steps, p, base, i)
  }

  lemma OneMore(steps: seq<Step>, p: Place, base: string, i: nat)
    requires i < |steps|
    ensures PlainBefore(steps, p, base, i + 1) <==> PlainBefore(steps, p, base, i) || AsksPlain(steps[i], p, base)
    ensures CounterBefore(steps, p, base, i + 1) <==> CounterBefore(steps, p, base, i) || AsksCounter(steps[i], p, base)
  {
    hide AsksPlain, AsksCounter;
  }

  /** As long as no total was captured, the plain family is filed after a plain sample, and the one with
      `_total` after the first sample with a suffix. */
  lemma {:induction false} FiledSoFar(start: Families, steps: seq<Step>, p: Place, base: string, i: nat)
    requires CounterRun(start, steps, p, base) && NothingFiled(start, p, base) && i <= |steps|
    ensures PlaceKey(p, base) in Before(start, steps, i) <==> PlainBefore(steps, p, base, i)
    ensures PlaceKey(p, base + TOTAL) in Before(start, steps, i) ==> CounterBefore(steps, p, base, i)
    ensures CounterBefore(steps, p, base, i) ==>
      PlaceKey(p, base + TOTAL) in Before(start, steps, i) || exists k :: PlainComesFirst(steps, p, base, k)
  {
    hide CounterRun, CounterFiled, AsksPlain, AsksCounter, PlainBefore, CounterBefore;
    if i > 0 {
      var n := i - 1;
      FiledSoFar(start, steps, p, base, n);
      RunKeepsFiled(start, steps, p, base, n);
      CounterRunStep(start, steps, p, base, n);
      OneMore(steps, p, base, n);
      assert Captured(start, steps, p, base, n) && !CounterBefore(steps, p, base, n) ==>
          PlainComesFirst(steps, p, base, n);
    } else {
      NoneBefore(steps, p, base);
    }
  }

  lemma NoneBefore(steps: seq<Step>, p: Place, base: string)
    ensures !PlainBefore(steps, p, base, 0) && !CounterBefore(steps, p, base, 0)
  {
  }

  /** From the beginning of a scrape: the total and the creation time of a counter get one family, whose
      name ends with `_total`, exactly unless a plain sample comes before all of them and a total is the
      first of them. */
  lemma OneCounterFamilyBySamples(start: Families, steps: seq<Step>, p: Place, base: string)
    requires CounterRun(start, steps, p, base) && NothingFiled(start, p, base)
    ensures OneFamilyOnly(steps, p, base) <==> forall i :: !PlainComesFirst(steps, p, base, i)
  {
    OneCounterFamily(start, steps, p, base);
    hide CounterRun, OneFamilyOnly, AsksPlain, AsksCounter, PlainBefore, CounterBefore;
    if i :| PlainComesFirst(steps, p, base, i) {
      FiledSoFar(start, steps, p, base, i);
      assert Captured(start, steps, p, base, i);
    } else if i :| Captured(start, steps, p, base, i) {
      FiledSoFar(start, steps, p, base, i);
      assert CounterBefore(steps, p, base, i) || PlainComesFirst(steps, p, base, i);
    }
  }
}
