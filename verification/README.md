# Verified model of the metrics add-on's allocation and translation logic

This project models the parts of the Azure Monitor metrics add-on whose correctness is hard to see
from the code, and proves what they are for. `dafny verify dfyconfig.toml` checks all of it.

**The target allocator** (`Diff`, `Placement`, `Strategies`, `Allocator`, `Queries`, `Runs`,
`Balance`). The allocator keeps tracked targets, collectors with load counters, and an index from
collector and job to targets. The class `Allocator` and the strategy classes update these structures
in place, as the program does; Go's map iteration is an arbitrary order. `Allocator.Model()` is a
simple view without counters or index: the live collectors and the targets with their owners.
`Valid()` says that counters and index equal what a scan over that view finds, and that every target
is where its strategy wants it. Each public method is proved to do one step of the simple view
(`TargetsStep`, `CollectorsStep` in `Placement`) and to keep `Valid()`. `Runs` and `Balance` prove
what holds over all runs of such steps: replicas with consistent hashing agree whatever their past,
per-node targets stay on their node, least-weighted placement is balanced, stable and, as to the
loads, independent of the visiting order, and nothing is lost or counted twice.

**Dollar escaping** (`Escaping`, `Dollars`). The configuration validator halves doubled dollars,
doubles all dollars and inserts references to two environment variables; the configuration reader
halves `$$` for the target allocator. For every string without two dollars in a row the two together
change nothing but the references, and for no other one. Both loops over relabel rules are proved.

**Prometheus samples to OTLP** (`Buckets`, `CustomBuckets`, `SampleLabels`, `SeriesRefs`, `Histograms`,
`HistogramPoints`, `MetricFamilies`, `Arrivals`, `Timestamps`, `RecordedPoints`, `NativePoints`).
Sparse spans become dense buckets with their values at the right indices; cumulative samples become
counts per bucket that reproduce them; and all arrival orders of the samples of a series give the same
data point, for histograms, summaries, counters and gauges. `RecordedPoints` and `NativePoints` say,
label by label and suffix by suffix, what a point shows of the samples and native histograms that
went in.

**Metric families** (`MetricNames`, `Transactions`, `Counters`, `Scrapes`). How a sample finds the
family it belongs to, when all suffixed samples of one histogram, summary or counter find the same
object, and that a whole scrape shows the same data points in whatever order its samples come.

**Two notification protocols** (`CollectorWatch`, `EventSending`, `EventDelivery`). Informer, handlers
and rate-limited loops as state machines whose steps interleave in any way: no change is lost, unless
its configuration cannot be loaded or applied.

**Merging YAML** (`DeepMerge`). The merge of default scrape configurations: independent of the order
of keys, associative exactly under a stated condition, concatenating the files' lists in order.

Where the code does less than one would expect, the model follows the code, and a lemma says exactly
when it meets the expectation:

- the float converter of custom-bucket histograms restarts its index in every span
  (`FloatAgreesExactly`, `FloatDisagreesOnTwoSpans`);
- a doubled dollar of the user's own is taken for an escaped one and comes out single
  (`OnlyReferencesInserted`, `DoubledDollarIsLost`);
- validating a configuration twice escapes the inserted references (`ValidateIdempotent`,
  `ValidateTwice`, `ValidateTwiceDiffers`);
- the suffixed sample of a gauge replaces the gauge's family (`SuffixedJoins`, `GaugeReplaced`), and
  a counter sampled under its plain name first captures its total (`OneCounterFamily`,
  `OneCounterFamilyBySamples`);
- samples of a series with different timestamps depend on their order unless they give no point at all
  (`OrderMattersExactly`, `TimestampsMatter`);
- an event whose configuration cannot be loaded or applied is used up, and nothing brings it back; a
  change to something new is applied exactly if a load after it was followed by its application
  without a failure (`AppliedExactly`, `FailureLosesChange`, `QuietStays`);
- merging is not associative for values of different types (`JoinAssociates`, `GroupingMatters`), and
  a value that is no list breaks the concatenation (`ScrapeConfigsConcatenated`).

Assumptions that the program leaves to its environment: a map of collectors is keyed by their names,
none of them empty; a target's hash, job, URL and node never change; the fallback of the per-node
strategy is not per-node itself. The metadata store is assumed, for the theorems about a base name,
to hold an entry for it whose family is the name itself and none for its suffixed names; base and
suffixed names are no built-in scrape metrics, and no counter `y` has `y_total` equal to the base.

## Model

| member | source | states |
|---|---|---|
| Diff.Maps | otelcollector/otel-allocator/internal/diff/diff.go:32-52 | whatever the visiting order, additions are the entries whose key is new or whose hash changed, removals the entries whose key is gone or whose hash changed, each with the right value |
| Diff.KeyedByHash | otelcollector/otel-allocator/internal/diff/diff.go:32-52 | when both maps are keyed by hash, additions and removals are plain key differences |
| Placement.LeastUnique | otelcollector/otel-allocator/internal/allocation/least_weighted.go:33-49 | the order by (total load, load of the job, name) has one least collector |
| Placement.LeastExists | otelcollector/otel-allocator/internal/allocation/least_weighted.go:33-49 | a non-empty collector set has a least collector |
| Placement.Least | otelcollector/otel-allocator/internal/allocation/least_weighted.go:33-49 | the collector that the order by (total load, load of the job, name) puts before every other one |
| Placement.LeastPlainly | otelcollector/otel-allocator/internal/allocation/least_weighted.go:33-49 | for every live d it has at most the targets of d; with as many, at most the targets of the job; with as many of both, the smaller name |
| Placement.ChoicePlainly | otelcollector/otel-allocator/internal/allocation/least_weighted.go:24-50 | a live owner stays; an orphan gets a collector with the fewest targets, of those one with the fewest of the job, of those the one with the smallest name |
| Placement.SettledOwner | otelcollector/otel-allocator/internal/allocation/allocator.go:337-345 | a settled target is owned by a live collector or by nobody |
| Placement.ChooseIsSafe | otelcollector/otel-allocator/internal/allocation/per_node.go:36-47 | on a settled target the strategy never returns a nil collector, and it fails only if the target has no owner, so that clearing the owner on error strands no counter and no index entry |
| Strategies.NewLeast | otelcollector/otel-allocator/internal/allocation/least_weighted.go:37-47 | a collector preferred to the best so far is the best of all seen so far |
| Strategies.LeastWeightedGet | otelcollector/otel-allocator/internal/allocation/least_weighted.go:24-50 | the live owner if there is one; else no live collector has a smaller numTargets, with the same one none a smaller count of the job, and with both the same none a smaller name; nil only without collectors |
| Strategies.LeastOf | otelcollector/otel-allocator/internal/allocation/least_weighted.go:33-49 | the loop over the collector map finds, in any visiting order, the collector that comes first by numTargets, then by targetsPerJob of the job, then by name |
| Strategies.ConsistentHashingStrategy.GetCollectorForTarget | otelcollector/otel-allocator/internal/allocation/consistent_hashing.go:49-58 | answers with the collector at the place of the URL on the present ring, or fails when that name is not in the map |
| Strategies.ConsistentHashingStrategy.SetCollectors | otelcollector/otel-allocator/internal/allocation/consistent_hashing.go:60-73 | afterwards the ring holds exactly the given names |
| Strategies.BasicStrategy.GetCollectorForTarget | otelcollector/otel-allocator/internal/allocation/strategy.go:70-76 | either basic strategy answers as the choice on the simple view says |
| Strategies.PerNodeStrategy.GetCollectorForTarget | otelcollector/otel-allocator/internal/allocation/per_node.go:36-47 | asks the fallback for a target without a node, else answers with the collector recorded on the node, fails without one, and returns nil only for a recorded collector that is gone |
| Strategies.PerNodeStrategy.SetCollectors | otelcollector/otel-allocator/internal/allocation/per_node.go:49-60 | afterwards the table maps exactly the nodes of the live collectors, each to one of those on it; the fallback is informed too |
| Strategies.AnyStrategy.SetCollectors | otelcollector/otel-allocator/internal/allocation/strategy.go:72-75 | every strategy is resynchronised with the given collectors |
| Allocation.Allocator.constructor | otelcollector/otel-allocator/internal/allocation/allocator.go:44-75 | an empty allocator whose three structures agree |
| Allocation.Allocator.UnassignTargetItem | otelcollector/otel-allocator/internal/allocation/allocator.go:266-287 | a target with a live owner loses it, in the counters and the index too; otherwise nothing happens |
| Allocation.Allocator.RemoveTargetItem | otelcollector/otel-allocator/internal/allocation/allocator.go:289-293 | exactly this target is no longer tracked, and the structures still agree |
| Allocation.Allocator.RemoveCollector | otelcollector/otel-allocator/internal/allocation/allocator.go:295-306 | the collector is gone, exactly its targets lost their owner, and the structures still agree |
| Allocation.Allocator.AddTargetToTargetItems | otelcollector/otel-allocator/internal/allocation/allocator.go:240-264 | the target is tracked and handed to the collector the strategy chose, after being taken back from a previous one; an error leaves a target without owner unassigned |
| Allocation.Allocator.RemoveTargets | otelcollector/otel-allocator/internal/allocation/allocator.go:206-212 | in any order exactly the removed targets are untracked |
| Allocation.Allocator.AddTargets | otelcollector/otel-allocator/internal/allocation/allocator.go:214-229 | in some order every addition that is not tracked yet is placed by the strategy on the state left by the ones before |
| Allocation.Allocator.HandleTargets | otelcollector/otel-allocator/internal/allocation/allocator.go:205-238 | removals first, then additions, and the structures agree again |
| Allocation.Allocator.BuildTargetMap | otelcollector/otel-allocator/internal/allocation/allocator.go:360-380 | exactly the hashes of the given targets are keys, and each has the last target given with it |
| Allocation.LatestExactly | otelcollector/otel-allocator/internal/allocation/allocator.go:360-380 | the map has exactly the hashes of the given targets, and under each the last target given with it |
| Allocation.Allocator.SetTargets | otelcollector/otel-allocator/internal/allocation/allocator.go:117-140 | one step of the simple model: the tracked hashes are exactly those of the given targets; a hash that was tracked keeps its object, a new one has the last object given with it; the structures agree again |
| Allocation.Allocator.AddCollector | otelcollector/otel-allocator/internal/allocation/allocator.go:329-332 | a new collector with empty counters; nothing else changes |
| Allocation.Allocator.InformStrategy | otelcollector/otel-allocator/internal/allocation/allocator.go:334-335 | the strategy knows exactly the live collectors |
| Allocation.Allocator.PlaceTargets | otelcollector/otel-allocator/internal/allocation/allocator.go:337-345 | every tracked target is placed again, in some order; a failure leaves it unassigned and the structures intact |
| Allocation.Allocator.HandleCollectors | otelcollector/otel-allocator/internal/allocation/allocator.go:324-353 | the diff is applied, the strategy informed and every target placed again; the structures agree afterwards |
| Allocation.Allocator.SetCollectors | otelcollector/otel-allocator/internal/allocation/allocator.go:144-163 | one step of the simple model: exactly the given names are live, collectors that stay keep their object, no target is lost or replaced, and the structures agree again |
| Allocation.DropTallies | otelcollector/otel-allocator/internal/allocation/allocator.go:276-280 | counting one target down, with its zero entry dropped, is what a scan finds after the target lost its owner |
| Allocation.GiveTallies | otelcollector/otel-allocator/internal/allocation/allocator.go:258-261 | counting one target up is what a scan finds after the target got its owner |
| Allocation.DropIndex | otelcollector/otel-allocator/internal/allocation/allocator.go:282-285 | removing one hash, and its job when empty, keeps the index equal to the scan after the target lost its owner |
| Allocation.GiveIndex | otelcollector/otel-allocator/internal/allocation/allocator.go:311-319 | inserting one hash keeps the index equal to the scan after the target got its owner |
| Allocation.WithoutCollectorCoherent | otelcollector/otel-allocator/internal/allocation/allocator.go:296-306 | a collector without targets can be taken out of all structures |
| Allocation.WithCollectorCoherent | otelcollector/otel-allocator/internal/allocation/allocator.go:329-332 | a new collector can be put into all structures with empty counters |
| Allocation.AnswerPlaces | otelcollector/otel-allocator/internal/allocation/allocator.go:246-262 | handing a target to the strategy's answer is the placement of the simple model |
| Allocation.DiffStep | otelcollector/otel-allocator/internal/allocation/allocator.go:134-139 | removing the removals and adding the additions in any order brings the tracked targets to the wanted ones |
| Allocation.NoDiffStep | otelcollector/otel-allocator/internal/allocation/allocator.go:134-139 | an empty difference means that nothing has to be done |
| Allocation.DiffIsReplace | otelcollector/otel-allocator/internal/allocation/allocator.go:324-332 | removing the removals and inserting the additions gives exactly the new collector set, where collectors that stay keep their node and their targets |
| Allocation.SameNamesStep | otelcollector/otel-allocator/internal/allocation/allocator.go:158-162 | the collectors are left alone exactly if the names are the same as before |
| Queries.GetTargetsForCollectorAndJob | otelcollector/otel-allocator/internal/allocation/allocator.go:165-181 | through the index: exactly the tracked objects with that collector and job, each once, none nil |
| Queries.IndexListsOwned | otelcollector/otel-allocator/internal/allocation/allocator.go:165-181 | the index entry is the set a scan over all targets finds, and empty for a collector that is not live |
| Queries.GetTargetCountForCollector | otelcollector/otel-allocator/internal/server/server.go:726-734 | the scan counts what the cached NumTargets says |
| Queries.GetJobCountForCollector | otelcollector/otel-allocator/internal/server/server.go:716-724 | the scan counts as many jobs as the cached per-job counters have keys |
| Queries.CountersCached | otelcollector/otel-allocator/internal/allocation/strategy.go:86-91 | the cached counters are what a scan counts, and have an entry exactly for the jobs with a target |
| Queries.StructuresAgree | otelcollector/otel-allocator/internal/allocation/allocator.go:240-322 | in terms of the objects: every owner is live, numTargets and targetsPerJob count exactly the targets that name the collector, with no entry for 0, and the index lists exactly those |
| Runs.PlaceSettles | otelcollector/otel-allocator/internal/allocation/allocator.go:240-264 | placing a target settles it and unsettles no other |
| Runs.AddAllSettles | otelcollector/otel-allocator/internal/allocation/allocator.go:216-229 | a batch of additions, in any order, keeps every target settled |
| Runs.PlaceAllSettles | otelcollector/otel-allocator/internal/allocation/allocator.go:337-345 | placing all targets again, in any order, settles every one of them |
| Runs.TargetsStepCorrect | otelcollector/otel-allocator/internal/allocation/allocator.go:117-140 | SetTargets keeps the invariant; the tracked hashes are exactly the given ones, tracked targets stay as they are, new ones differ from the given ones at most in their owner |
| Runs.CollectorsStepCorrect | otelcollector/otel-allocator/internal/allocation/allocator.go:144-163 | SetCollectors keeps the invariant; exactly the given names are live, surviving collectors keep their node, no target changes anything but its owner |
| Runs.RunKeepsInvAt | otelcollector/otel-allocator/internal/allocation/allocator.go:114-163 | the invariant holds at every point of every run of SetTargets and SetCollectors from an empty allocator, with every strategy |
| Runs.StepKeepsInv | otelcollector/otel-allocator/internal/allocation/allocator.go:114-163 | each single call keeps the invariant and the kind of strategy |
| Runs.HashingOwner | otelcollector/otel-allocator/internal/allocation/consistent_hashing.go:49-73 | after any run the owner of every target the ring is asked about, directly or as the fallback of per-node, is the place of its URL on the ring of the live names, or nobody without collectors |
| Runs.HashingReplicasAgree | otelcollector/otel-allocator/internal/allocation/consistent_hashing.go:49-73 | two allocators with the same targets and collectors agree on the owner of every target the ring is asked about, however they got there |
| Runs.HashingReplicasEqual | otelcollector/otel-allocator/internal/allocation/consistent_hashing.go:49-73 | with consistent hashing for all targets they hold the same targets with the same owners |
| Runs.PerNodeLocality | otelcollector/otel-allocator/internal/allocation/per_node.go:36-60 | after any run a target with a node is assigned exactly if some live collector is recorded on that node, and then to one on that node |
| Runs.NothingUnassigned | otelcollector/otel-allocator/internal/allocation/allocator.go:324-345 | with least-weighted or consistent hashing, also as fallback for targets without a node, no target is unassigned while a collector is live |
| Balance.TotalLoadCounts | otelcollector/otel-allocator/internal/allocation/strategy.go:86-91 | the loads of a set of collectors add up to the number of targets they own |
| Balance.Conservation | otelcollector/otel-allocator/internal/allocation/allocator.go:266-287 | the loads of the live collectors and the unassigned targets add up to the tracked targets |
| Balance.PlaceLeast | otelcollector/otel-allocator/internal/allocation/least_weighted.go:33-49 | an orphan goes to a collector with the smallest load, which grows by one while all others stay |
| Balance.PlaceSticky | otelcollector/otel-allocator/internal/allocation/least_weighted.go:25-31 | a target that least-weighted is asked about and whose owner is live stays |
| Balance.AdditionsBalance | otelcollector/otel-allocator/internal/allocation/allocator.go:214-229 | a SetTargets that only adds leaves a spread of at most the previous one, or one |
| Balance.RemovalsBalance | otelcollector/otel-allocator/internal/allocation/allocator.go:324-345 | a SetCollectors that only removes leaves a spread of at most the previous one among the survivors, or one |
| Balance.GentleRunBalanced | otelcollector/otel-allocator/internal/allocation/least_weighted.go:24-50 | over any run that only adds targets and only removes collectors the spread stays within one |
| Balance.BalancedMeansFloorOrCeiling | otelcollector/otel-allocator/internal/allocation/least_weighted.go:24-50 | a spread within one means that each of k collectors holds the floor or the ceiling of n/k |
| Balance.GentleRunFair | otelcollector/otel-allocator/internal/allocation/least_weighted.go:24-50 | from an empty start with additions of targets and removals of collectors only, each of k collectors holds the floor or the ceiling of n/k of the n targets |
| Balance.PlaceHowMany | otelcollector/otel-allocator/internal/allocation/least_weighted.go:33-49 | when one load grows by one and the others stay, one collector moves from its load to the next in the count of collectors per load |
| Balance.SmallestLoadDetermined | otelcollector/otel-allocator/internal/allocation/least_weighted.go:33-49 | the smallest load depends only on the multiset of loads |
| Balance.AdditionsConfluent | otelcollector/otel-allocator/internal/allocation/allocator.go:216-229 | two orders of the same additions end with the same multiset of loads |
| Balance.TargetsStepConfluent | otelcollector/otel-allocator/internal/allocation/allocator.go:117-140 | so do two outcomes of the same SetTargets |
| Balance.PlacementsConfluent | otelcollector/otel-allocator/internal/allocation/allocator.go:337-345 | the loads after targets were placed again depend on the loads before and the number of orphans only |
| Balance.CollectorsStepConfluent | otelcollector/otel-allocator/internal/allocation/allocator.go:324-345 | two outcomes of the same SetCollectors have the same multiset of loads |
| Balance.CollectorsStepStable | otelcollector/otel-allocator/internal/allocation/allocator.go:324-345 | across any SetCollectors a target whose collector survives keeps it, every orphan ends on a live collector if there is one, and no load falls except by collectors leaving |
| Balance.SurvivorsStay | otelcollector/otel-allocator/internal/allocation/least_weighted.go:25-31 | a target whose collector survives keeps it and changes in nothing |
| Balance.AskedTargetsStable | otelcollector/otel-allocator/internal/allocation/allocator.go:324-345 | whatever the strategy, also with least-weighted as the fallback of per-node: a target it is asked about keeps a surviving collector, and otherwise ends on a live one if there is one |
| Escaping.SubstDoubleIsEscaped | otelcollector/prom-config-validator-builder/main.go:99-102 | the chain of three replacements is one pass that escapes every dollar except those of the two node variables |
| Escaping.EscapingSquare | otelcollector/prom-config-validator-builder/main.go:98-102 | for every string, with all replacements written out: doubled, substituted and halved again it is the string with its two node variables replaced by ${env:NODE_NAME} and ${env:NODE_IP} |
| Escaping.WhatTheAllocatorReads | otelcollector/configuration-reader-builder/main.go:88-101 | what the target allocator reads for any string of the user's configuration: its doubled dollars halved, and references inserted |
| Dollars.OnlyReferencesInserted | otelcollector/prom-config-validator-builder/main.go:98-102 | what is read is the user's string with only the references inserted, exactly if the string has no two dollars in a row |
| Dollars.DoubledDollarIsLost | otelcollector/prom-config-validator-builder/main.go:98 | a string that comes out with one dollar less |
| Dollars.ReferencesKeepDollars | otelcollector/prom-config-validator-builder/main.go:101-102 | inserting references keeps the number of dollars |
| Dollars.HalvingDropsDollars | otelcollector/prom-config-validator-builder/main.go:98 | halving takes a dollar away exactly from the strings with two in a row, and leaves all others as they are |
| Escaping.HalveDouble | otelcollector/configuration-reader-builder/main.go:92-99 | without the substitution the reader undoes the validator, for every string |
| Escaping.HalveEscaped | otelcollector/configuration-reader-builder/main.go:92-99 | halving the escaped form gives the form with environment references, nothing else changed |
| Escaping.ValidateIdempotent | otelcollector/prom-config-validator-builder/main.go:96-103 | validating twice is validating once exactly for strings that mention neither variable once halved |
| Escaping.ValidateTwice | otelcollector/prom-config-validator-builder/main.go:96-103 | what validating twice makes of any string |
| Escaping.ValidateTwiceDiffers | otelcollector/prom-config-validator-builder/main.go:96-103 | one string that validating twice changes once more |
| Escaping.NothingToRefer | otelcollector/prom-config-validator-builder/main.go:101-102 | a string that mentions neither variable has no reference inserted |
| Escaping.EscapedAgain | otelcollector/prom-config-validator-builder/main.go:99-102 | escaping an outcome once more doubles the dollars of the references themselves too, and changes nothing else |
| Escaping.EscapedAgainGrows | otelcollector/prom-config-validator-builder/main.go:99-102 | the outcome never gets shorter by that, and longer when there is a reference |
| Escaping.EnvFormReplaces | otelcollector/prom-config-validator-builder/main.go:101-102 | the one pass is what two replacements in the user's own string would do |
| Escaping.ValidateRules | otelcollector/prom-config-validator-builder/main.go:91-115 | in place, every regex and every replacement that is a string is rewritten; other values stay |
| Escaping.ReadRules | otelcollector/configuration-reader-builder/main.go:85-102 | in place, every regex and every replacement that is a string is halved; other values stay |
| Escaping.ValidateThenRead | otelcollector/configuration-reader-builder/main.go:85-102 | both programs one after the other leave every rule with its doubled dollars halved and the environment references inserted, nothing else changed |
| Buckets.ConvertDeltaBuckets | otelcollector/prometheusreceiver/internal/metricfamily.go:266-282 | appends the dense form of the running sums of the deltas, for any spans that the deltas cover |
| Buckets.ConvertAbsoluteBuckets | otelcollector/prometheusreceiver/internal/metricfamily.go:284-298 | appends the dense form of the truncated counts |
| Buckets.RunningSumsExactly | otelcollector/prometheusreceiver/internal/metricfamily.go:276-279 | each running sum is the one before plus its delta, modulo 2 to the 64th |
| Buckets.TruncateExactly | otelcollector/prometheusreceiver/internal/metricfamily.go:293-296 | a float count loses its fraction, toward zero |
| Buckets.DenseAt | otelcollector/prometheusreceiver/internal/metricfamily.go:266-298 | a bucket of a span has its value at the index that the spans before it determine |
| Buckets.DenseGap | otelcollector/prometheusreceiver/internal/metricfamily.go:270-274 | every index outside of all spans holds 0 |
| Buckets.DenseLength | otelcollector/prometheusreceiver/internal/metricfamily.go:266-298 | the dense form ends where the last span ends |
| Buckets.PositionExact | otelcollector/prometheusreceiver/internal/metricfamily.go:269-274 | the position of a span is the absolute Prometheus index less the first offset exactly if no inner gap so far is negative |
| Buckets.SparseInDense | otelcollector/prometheusreceiver/internal/metricfamily.go:220-226 | under the OTLP offset of the first span less one, every Prometheus bucket has its value one index lower |
| Buckets.NothingElseInDense | otelcollector/prometheusreceiver/internal/metricfamily.go:220-226 | and every other OTLP bucket is empty |
| Buckets.DenseFacts | otelcollector/prometheusreceiver/internal/metricfamily.go:266-298 | the length is that of the spans and the inner gaps, and the total of the values is kept |
| Buckets.DenseShows | otelcollector/prometheusreceiver/internal/metricfamily.go:266-298 | the dense form determines every value that was taken |
| Buckets.ConvertersAgreeExactly | otelcollector/prometheusreceiver/internal/metricfamily.go:266-298 | the delta and the absolute converter have one result exactly if the truncated counts are the running sums of the deltas, as far as the spans take them |
| CustomBuckets.ConvertNHCBDeltaBuckets | otelcollector/prometheusreceiver/internal/metricfamily.go:301-324 | for any spans, also with negative gaps, overlaps and too few values: the buckets are what the walk over the spans writes, one running sum after the other |
| CustomBuckets.WalkExactly | otelcollector/prometheusreceiver/internal/metricfamily.go:301-345 | behind its gap a span writes one value after the other to one bucket after the other, as many as its length unless the buckets or the values run out; integers go on with the next value, floats begin with the first |
| CustomBuckets.LastWriteWins | otelcollector/prometheusreceiver/internal/metricfamily.go:301-345 | every bucket has the value of the last write to it, and 0 if there is none |
| CustomBuckets.SourcesAreThere | otelcollector/prometheusreceiver/internal/metricfamily.go:314-316 | no write looks for a value that is not there or goes behind the last bucket |
| CustomBuckets.FilledDense | otelcollector/prometheusreceiver/internal/metricfamily.go:301-345 | on spans that fit the buckets are the dense form of the values, for the float converter of each span's share from the beginning, and zeros behind |
| CustomBuckets.FilledTotal | otelcollector/prometheusreceiver/internal/metricfamily.go:301-324 | on spans that take all values and fit, the total is kept |
| CustomBuckets.NHCBTotal | otelcollector/prometheusreceiver/internal/metricfamily.go:301-324 | on spans that fit, the total is kept |
| CustomBuckets.ConvertNHCBAbsoluteBuckets | otelcollector/prometheusreceiver/internal/metricfamily.go:327-345 | the same for float counts, but in each span the counts are taken from the beginning again |
| CustomBuckets.FloatAgreesExactly | otelcollector/prometheusreceiver/internal/metricfamily.go:334-341 | the two converters agree exactly if every span repeats the beginning of the counts |
| CustomBuckets.FilledAgreesExactly | otelcollector/prometheusreceiver/internal/metricfamily.go:334-341 | so on spans that fit, the two converters fill the same buckets exactly then |
| CustomBuckets.FloatAgreesOnOneSpan | otelcollector/prometheusreceiver/internal/metricfamily.go:334-341 | they agree on a single span |
| CustomBuckets.FloatDisagreesOnTwoSpans | otelcollector/prometheusreceiver/internal/metricfamily.go:334-341 | two spans on which they disagree |
| SampleLabels.PopulateAttributes | otelcollector/prometheusreceiver/internal/metricfamily.go:424-444 | the merge walk over two sorted lists drops exactly the labels that are named, of the scope or empty |
| SampleLabels.StopsAtName | otelcollector/prometheusreceiver/internal/metricfamily.go:428-433 | the walk stands at a name if the name is in the list at all |
| SampleLabels.SortedNotUseful | otelcollector/prometheusreceiver/internal/util.go:43-66 | the names for each metric type are sorted, as the walk needs them |
| SampleLabels.AttributesFromKey | otelcollector/prometheusreceiver/internal/metricfamily.go:424-444 | the attributes are a function of what identifies the series, whichever of its samples they are taken from |
| SeriesRefs.SortedNotUsefulLabelsForSeries | otelcollector/prometheusreceiver/internal/util.go:57-94 | the names to leave out are sorted: the five of the scrape, le for histograms, quantile for summaries, and those of the scope labels; what is left identifies the series |
| SeriesRefs.SortStrings | otelcollector/prometheusreceiver/internal/util.go:52-55 | sorted, with the same elements as often as before |
| SeriesRefs.ExcludedIsKey | otelcollector/prometheusreceiver/internal/transaction.go:653-655 | leaving out the scope labels by name is the same as not regarding them at all |
| SampleLabels.AttributesExactly | otelcollector/prometheusreceiver/internal/metricfamily.go:424-444 | a label becomes an attribute exactly if it is not empty, not of the scope, none of the five of the scrape, and not le of a histogram or quantile of a summary |
| SampleLabels.SeriesKeyExactly | otelcollector/prometheusreceiver/internal/util.go:44-94 | a label identifies the series exactly if it is not of the scope, none of the five of the scrape, and not le of a histogram or quantile of a summary |
| SampleLabels.SameSeriesExactly | otelcollector/prometheusreceiver/internal/transaction.go:653-655 | two label sets are one series exactly if they agree in all those labels |
| SampleLabels.OneSeries | otelcollector/prometheusreceiver/internal/util.go:44-51 | so histogram samples that differ only in le and __name__ are one series, and summary samples that differ only in quantile and __name__ |
| SampleLabels.LookupExactly | otelcollector/prometheusreceiver/internal/util.go:106-125 | the looked-up value is the one the list has for the name, and empty without one |
| Histograms.InsertSorts | otelcollector/prometheusreceiver/internal/metricfamily.go:96-100 | a point inserted at its place leaves the points sorted by bound |
| Histograms.InsertKeeps | otelcollector/prometheusreceiver/internal/metricfamily.go:96-100 | no other point is added or lost |
| Histograms.MetricGroup.SortPoints | otelcollector/prometheusreceiver/internal/metricfamily.go:96-100 | sorted by bound, with the same points |
| Histograms.MetricGroup.AddSeries | otelcollector/prometheusreceiver/internal/metricfamily.go:462-504 | for every metric type one more sample is collected according to its kind; exactly those with another timestamp or without a readable bound or quantile are rejected |
| Histograms.MetricGroup.AddNHCBSeries | otelcollector/prometheusreceiver/internal/metricfamily.go:546-574 | count, sum and buckets of a native histogram with custom buckets; rejected for another timestamp, another type, or without data |
| Histograms.MetricGroup.AddExponentialHistogramSeries | otelcollector/prometheusreceiver/internal/metricfamily.go:514-543 | count, sum and buckets of a native histogram with exponential buckets; rejected for another timestamp, another type, or after one of the other kind |
| Histograms.FillBuckets | otelcollector/prometheusreceiver/internal/metricfamily.go:145-169 | the loop gives each bucket the rise of the cumulative value over the one before it, and the last one what is left of the count; all 0 when stale |
| Histograms.MetricGroup.ClassicBuckets | otelcollector/prometheusreceiver/internal/metricfamily.go:137-169 | bounds and counts of the sorted buckets, a last one with bound +Inf left out, all counts 0 when stale |
| Histograms.MetricGroup.ToNHCBPoint | otelcollector/prometheusreceiver/internal/metricfamily.go:115-136 | exactly the converted custom buckets of the integer histogram, else of the float one, with sum and count of the group; no point without bounds |
| Histograms.MetricGroup.ToExponentialHistogramDataPoint | otelcollector/prometheusreceiver/internal/metricfamily.go:193-264 | no point without a count; the float form first, else the integer form; only the flag when stale; the dense buckets under the offset less one |
| Histograms.MetricGroup.ToDistributionPoint | otelcollector/prometheusreceiver/internal/metricfamily.go:102-189 | no point without a count; with custom buckets their point; else the point of some sorting of the collected buckets |
| Histograms.MetricGroup.ToSummaryPoint | otelcollector/prometheusreceiver/internal/metricfamily.go:356-400 | no point without a count, else the point of some sorting of the collected quantiles |
| Histograms.MetricGroup.ToNumberDataPoint | otelcollector/prometheusreceiver/internal/metricfamily.go:402-422 | no point without a value, else its value or the flag; a start time only for sums |
| Histograms.NativeIgnoresPoints | otelcollector/prometheusreceiver/internal/metricfamily.go:113-136 | with custom buckets the sort of the classic ones changes nothing |
| HistogramPoints.PointShape | otelcollector/prometheusreceiver/internal/metricfamily.go:137-148 | one more count than bounds, and strictly increasing bounds: exactly those of the samples except +Inf |
| HistogramPoints.PerBucketExact | otelcollector/prometheusreceiver/internal/metricfamily.go:150-169 | prefix sums of the counts reproduce the cumulative values, ending with the count, exactly if those never fall and stay within the count |
| HistogramPoints.BucketsAddUpToCount | otelcollector/prometheusreceiver/internal/metricfamily.go:163-169 | then the buckets add up to the count of the point |
| HistogramPoints.SumsRise | otelcollector/prometheusreceiver/internal/metricfamily.go:150-169 | no other cumulative values can be reproduced by counts |
| HistogramPoints.InfinityIgnored | otelcollector/prometheusreceiver/internal/metricfamily.go:138-142 | a +Inf sample changes nothing in the point |
| HistogramPoints.StalePointKeepsShape | otelcollector/prometheusreceiver/internal/metricfamily.go:110-177 | a stale point has the bounds of a recorded one, all counts 0, no count and no sum, and the flag |
| HistogramPoints.CustomBucketsAddUp | otelcollector/prometheusreceiver/internal/metricfamily.go:113-124 | a point with custom buckets has its bounds, one more count than bounds, and on spans that fit the total of its running sums |
| HistogramPoints.ExponentialBucketAt | otelcollector/prometheusreceiver/internal/metricfamily.go:241-248 | in the point of an exponential histogram every Prometheus bucket has its value under its OTLP index, one lower |
| HistogramPoints.ExponentialBucketsElse | otelcollector/prometheusreceiver/internal/metricfamily.go:241-248 | and every other OTLP bucket is empty |
| HistogramPoints.SummaryShape | otelcollector/prometheusreceiver/internal/metricfamily.go:376-386 | the quantiles are those of the samples, strictly increasing, with value 0 when stale |
| RecordedPoints.DistributionSays | otelcollector/prometheusreceiver/internal/metricfamily.go:468-485 | a sample of a histogram or summary is a sum exactly if its name ends with _sum, a count with _count, a creation time if it is the family name with _created; else le or quantile must be a bound |
| RecordedPoints.NumberSays | otelcollector/prometheusreceiver/internal/metricfamily.go:486-501 | for other types: a creation time by its name, else a value; exponential histograms ignore the rest |
| RecordedPoints.HistogramShows | otelcollector/prometheusreceiver/internal/metricfamily.go:102-189 | every histogram point, classic or with custom buckets: sum, count, timestamp, start and attributes are those of the group; the flag exactly if sum or count is a staleness marker, and then no sum and no count |
| RecordedPoints.SummaryShows | otelcollector/prometheusreceiver/internal/metricfamily.go:356-400 | the same for summaries |
| RecordedPoints.NumberShows | otelcollector/prometheusreceiver/internal/metricfamily.go:402-422 | the value of the group, or the flag if it is a staleness marker; a start only for sums |
| RecordedPoints.QuantilesShown | otelcollector/prometheusreceiver/internal/metricfamily.go:376-386 | the quantiles are exactly those collected, in increasing order; values 0 when stale |
| RecordedPoints.ClassicShape | otelcollector/prometheusreceiver/internal/metricfamily.go:137-148 | the bounds are exactly those collected other than +Inf, in increasing order; one more count than bounds; all counts 0 when stale |
| RecordedPoints.ClassicCountsExactly | otelcollector/prometheusreceiver/internal/metricfamily.go:150-169 | the counts up to each bound add up to its collected value, and all of them to the count, exactly if the collected values are cumulative: not negative, within the count, not falling with the bounds |
| RecordedPoints.SamplesShow | otelcollector/prometheusreceiver/internal/metricfamily.go:446-492 | after any order of arrival: the point shows the sum of the sample ending with _sum, the count of the one with _count, the start of the one with _created; none of them without such a sample |
| RecordedPoints.BoundsFromSamples | otelcollector/prometheusreceiver/internal/metricfamily.go:446-492 | and as bounds exactly what its other samples have as le, but +Inf, increasing as numbers |
| RecordedPoints.CountsFromSamples | otelcollector/prometheusreceiver/internal/metricfamily.go:137-169 | and if these samples are cumulative, counts that add up to each of them and to the _count sample |
| RecordedPoints.QuantilesFromSamples | otelcollector/prometheusreceiver/internal/metricfamily.go:376-386 | a summary shows exactly the quantiles and values of its samples, increasing as numbers |
| RecordedPoints.ValueFromSamples | otelcollector/prometheusreceiver/internal/metricfamily.go:402-422 | a counter or gauge shows the value of its sample; only a counter shows a creation time |
| NativePoints.TakesCustom | otelcollector/prometheusreceiver/internal/metricfamily.go:546-574 | a native histogram with custom buckets gives the group its count and its sum; the integer form goes before the float form |
| NativePoints.CustomShows | otelcollector/prometheusreceiver/internal/metricfamily.go:113-189 | its point shows its own sum, count and bounds, whatever classic buckets came before; no point without bounds |
| NativePoints.FloatCustomShows | otelcollector/prometheusreceiver/internal/metricfamily.go:125-136 | the same for the float form |
| NativePoints.NoCustomShows | otelcollector/prometheusreceiver/internal/metricfamily.go:113-136 | without data, a point without buckets if there is a count |
| NativePoints.CustomBucketAt | otelcollector/prometheusreceiver/internal/metricfamily.go:301-324 | on spans that fit, bucket j of span i has the sum of all deltas up to it, modulo 2 to the 64th |
| NativePoints.FloatCustomBucketAt | otelcollector/prometheusreceiver/internal/metricfamily.go:327-345 | with floats, bucket j of any span has the count number j, its fraction dropped |
| NativePoints.ExponentialShows | otelcollector/prometheusreceiver/internal/metricfamily.go:193-264 | the point of an integer exponential histogram shows its own schema, count, sum, zero count and threshold, the positive buckets from the positive ones and the negative from the negative; only the flag if its sum is a staleness marker |
| NativePoints.FloatExponentialShows | otelcollector/prometheusreceiver/internal/metricfamily.go:193-264 | the same for the float form |
| NativePoints.OtherFormRejected | otelcollector/prometheusreceiver/internal/metricfamily.go:514-543 | a group stays as it is exactly if the timestamp differs, nothing is given, the histogram is of the other form than one before, or says nothing new |
| NativePoints.IntBucketAt | otelcollector/prometheusreceiver/internal/metricfamily.go:266-282 | every Prometheus bucket is found under its index less one, as the sum of all deltas up to it, modulo 2 to the 64th |
| NativePoints.FloatBucketAt | otelcollector/prometheusreceiver/internal/metricfamily.go:284-298 | and of floats, as its count without the fraction |
| MetricFamilies.MetricFamily.constructor | otelcollector/prometheusreceiver/internal/metricfamily.go:60-80 | an empty family with the name, metadata and type of the metric, which TypeOfBase and IdentityOfBase write out |
| MetricFamilies.MetricFamily.LoadMetricGroupOrCreate | otelcollector/prometheusreceiver/internal/metricfamily.go:446-460 | the group of the series, that is of the labels that SeriesKeyExactly writes out: the same object as before if there was one, else a fresh and empty one |
| MetricFamilies.MetricFamily.AddSample | otelcollector/prometheusreceiver/internal/metricfamily.go:446-504 | for every metric type exactly the group of the sample's series changes, and no group is replaced |
| MetricFamilies.MetricFamily.AddNHCBSeries | otelcollector/prometheusreceiver/internal/metricfamily.go:546-574 | the same for a native histogram with custom buckets |
| MetricFamilies.MetricFamily.AddExponentialHistogramSeries | otelcollector/prometheusreceiver/internal/metricfamily.go:514-543 | the same for a native histogram with exponential buckets |
| MetricFamilies.MetricFamily.AppendMetric | otelcollector/prometheusreceiver/internal/metricfamily.go:590-633 | for every metric type: one point per series that has one, in the order of creation |
| MetricFamilies.EmittedInOrder | otelcollector/prometheusreceiver/internal/metricfamily.go:590-633 | the points are those of the groups that have one, in the order of the groups, and no other group has one |
| MetricFamilies.OrderedStep | otelcollector/prometheusreceiver/internal/metricfamily.go:446-460 | a new group is appended, so that each series has one place in the order |
| Arrivals.TellsStep | otelcollector/prometheusreceiver/internal/metricfamily.go:462-492 | a group keeps holding exactly what the samples of its series say |
| Arrivals.NewsIsNew | otelcollector/prometheusreceiver/internal/metricfamily.go:462-492 | without clashes no sample overwrites what another one said |
| Arrivals.ToldAll | otelcollector/prometheusreceiver/internal/metricfamily.go:446-492 | after any arrival order the groups hold exactly what the samples of their series say, and there is a group for each series |
| Arrivals.SortingIncreases | otelcollector/prometheusreceiver/internal/metricfamily.go:96-100 | with distinct bounds a sorting is strictly increasing |
| Arrivals.IncreasingUnique | otelcollector/prometheusreceiver/internal/metricfamily.go:96-100 | so the sorting is unique |
| Arrivals.SamePoint | otelcollector/prometheusreceiver/internal/metricfamily.go:102-189 | groups that differ only in the order of their buckets and in labels that do not identify the series get the same point |
| Arrivals.OneSeriesOnePoint | otelcollector/prometheusreceiver/internal/metricfamily.go:96-189 | for every metric type: two arrival orders of the same samples give a series without clashes the same data point, attributes included, whatever other series do |
| Timestamps.PointNeedsDecisive | otelcollector/prometheusreceiver/internal/metricfamily.go:103-105 | a group has a point exactly if it has collected a count, or a value for numbers |
| Timestamps.RemembersAll | otelcollector/prometheusreceiver/internal/metricfamily.go:446-466 | the first sample fixes the timestamp, and a group has a count or value exactly if such a sample with that timestamp came |
| Timestamps.FirstDecides | otelcollector/prometheusreceiver/internal/metricfamily.go:464-466 | a count or value and a sample with another timestamp: which of them comes first decides whether there is a point |
| Timestamps.OrderMattersExactly | otelcollector/prometheusreceiver/internal/metricfamily.go:464-466 | for every sample set whose samples of the series say different things, all arrival orders have one result exactly if the timestamps are the same or there is no count and no value |
| Timestamps.TimestampsMatter | otelcollector/prometheusreceiver/internal/metricfamily.go:464-466 | two samples with different timestamps whose order decides which of them is lost |
| MetricNames.NormalizeMetricName | otelcollector/prometheusreceiver/internal/util.go:154-161 | the name without the suffix of the list that it ends with; the first one found is the only one |
| MetricNames.SuffixUnique | otelcollector/prometheusreceiver/internal/util.go:35 | a name that ends with one of the suffixes ends with no other |
| MetricNames.NormalizedSuffixed | otelcollector/prometheusreceiver/internal/util.go:154-161 | normalizing base plus suffix gives the base, whatever the base is |
| MetricNames.NormalizedIsBase | otelcollector/prometheusreceiver/internal/util.go:154-161 | normalizing leaves a name alone or takes off exactly one suffix |
| Transactions.Transaction.GetOrCreateMetricFamily | otelcollector/prometheusreceiver/internal/transaction.go:213-245 | the family filed under the name or under its fallback name if that includes the metric; otherwise, and only then, a fresh object of the type that TypeOfBase writes out, filed under its own name |
| Transactions.Transaction.AddSampleDatapoint | otelcollector/prometheusreceiver/internal/transaction.go:121-176 | the sample finds its family, which takes it in, and all other families stay as they are; the staleness marker of a native histogram goes to the native family; target and scope information find none |
| Transactions.NameOfFamily | otelcollector/prometheusreceiver/internal/metadata.go:48-75 | a new family is called like the metric, its normalized name, or that with _total |
| Transactions.FamilyNamesAbout | otelcollector/prometheusreceiver/internal/metadata.go:48-75 | under the store's assumptions only metrics about a base name have families called like it or like it with a suffix |
| Transactions.RootedIncludes | otelcollector/prometheusreceiver/internal/metricfamily.go:83-94 | a merged family filed under a base name includes every suffixed name of the base |
| Transactions.AboutResolves | otelcollector/prometheusreceiver/internal/transaction.go:213-245 | any sample about a merged base name gets the family filed under the base name |
| Transactions.OtherResolves | otelcollector/prometheusreceiver/internal/transaction.go:213-245 | no other sample touches what is filed there |
| Transactions.RunKeepsRooted | otelcollector/prometheusreceiver/internal/transaction.go:213-245 | over any run the base name is filed with its merged family only, and its suffixed names with none |
| Transactions.OneFamily | otelcollector/prometheusreceiver/internal/transaction.go:213-245 | in any run, in any order and among any other samples, all samples about a merged base name get one object, whose name is the base name; at a native place also when the metadata say gauge or unknown |
| Transactions.FallbackOfSuffixed | otelcollector/prometheusreceiver/internal/transaction.go:226-234 | a suffixed name falls back to its base, the creation time of a counter to the base with _total |
| Transactions.IdentityOfBase | otelcollector/prometheusreceiver/internal/metricfamily.go:60-80 | the family of a described base is called like it, and is a gauge exactly if it is no native histogram and the metadata say gauge or unknown |
| Transactions.TypeOfBase | otelcollector/prometheusreceiver/internal/util.go:127-152 | with the types written out: the family of a described metric is a histogram, a summary, a monotonic or non-monotonic sum, empty or a gauge by the metadata; a native histogram is exponential, or a histogram with custom buckets |
| Transactions.TypeOfOthers | otelcollector/prometheusreceiver/internal/metadata.go:48-75 | a built-in scrape metric, or one the store knows nothing about, is a gauge under its own name |
| Transactions.StalenessShows | otelcollector/prometheusreceiver/internal/transaction.go:153-157 | after the staleness marker of a native histogram its point has the flag, and no sum and no count |
| Transactions.SuffixedJoins | otelcollector/prometheusreceiver/internal/transaction.go:225-243 | a suffixed sample finds the family of its base exactly if that is no gauge and the sample is no creation time of a counter |
| Transactions.GaugeReplaced | otelcollector/prometheusreceiver/internal/transaction.go:236-241 | for a gauge it replaces the family under the base name by another object |
| Scrapes.AboutFamily | otelcollector/prometheusreceiver/internal/transaction.go:213-245 | a sample about a merged base name gets the filed family, or a new one whose type, written out, is what the metadata say |
| Scrapes.OtherFamily | otelcollector/prometheusreceiver/internal/transaction.go:213-245 | a sample about something else gets another object |
| Scrapes.OneFamilyHoldsAll | otelcollector/prometheusreceiver/internal/transaction.go:121-176 | after a scrape, all samples about a merged base name, among any others, are in one family named after the base, of the type, written out, that the metadata say, as if they alone had come, in their order |
| Scrapes.ScrapesShowTheSame | otelcollector/prometheusreceiver/internal/transaction.go:121-176 | two scrapes with the same samples about a merged base name, in any order and among any other samples, give a series whose samples do not clash the same data point |
| Scrapes.ScrapedHistogram | otelcollector/prometheusreceiver/internal/transaction.go:121-176 | after any scrape in which the store says that the base is a histogram: a series whose samples do not clash shows the sum, count and creation time of its own samples, and as bounds what they have as le |
| Counters.CounterDecides | otelcollector/prometheusreceiver/internal/transaction.go:225-243 | a total or creation time finds the family with _total, a total else the plain one, and otherwise a new one is made |
| Counters.PlainCounterCapturesTotal | otelcollector/prometheusreceiver/internal/transaction.go:224-243 | with a plain sample before, the total joins the family with the plain name; exactly then its own is not created |
| Counters.CounterStep | otelcollector/prometheusreceiver/internal/transaction.go:213-245 | whatever is looked up, the family with _total stays once it is filed, and only a captured total misses it |
| Counters.TotalStays | otelcollector/prometheusreceiver/internal/transaction.go:213-245 | over any run the family with _total stays the same object once it is filed |
| Counters.OneCounterFamily | otelcollector/prometheusreceiver/internal/transaction.go:228-234 | in any run, plain samples included, all totals and creation times of a counter get one object named with _total exactly if no total is looked up while only the plain family is filed |
| Counters.OneCounterFamilyBySamples | otelcollector/prometheusreceiver/internal/transaction.go:228-234 | from the beginning of a scrape that is so exactly unless a plain sample comes before all of them and a total is the first of them |
| CollectorWatch.RunOnCollectors | otelcollector/otel-allocator/internal/collector/collector.go:116-134 | in any order of the pods: exactly those with a node, each with its node |
| CollectorWatch.StepLosesNothing | otelcollector/otel-allocator/internal/collector/collector.go:71-113 | no step of informer, handlers and loop loses a change |
| CollectorWatch.RunLosesNothing | otelcollector/otel-allocator/internal/collector/collector.go:71-113 | over every interleaving a change that is not passed on has its handler pending, the slot full, or the loop holding it |
| CollectorWatch.IdleMeansApplied | otelcollector/otel-allocator/internal/collector/collector.go:97-113 | an idle loop with an empty slot and no pending handler means that the allocator was told exactly the scheduled pods |
| CollectorWatch.OncePerTick | otelcollector/otel-allocator/internal/collector/collector.go:104-110 | at most one call per tick, in any stretch of a run |
| CollectorWatch.CatchesUp | otelcollector/otel-allocator/internal/collector/collector.go:97-113 | once pods stop changing and handlers have run, two rounds of the loop suffice |
| EventSending.RunLosesNothing | otelcollector/otel-allocator/internal/watcher/promOperator.go:553-581 | over every interleaving with events refused at any time, a configuration that is not applied is on its way, loaded, or was dropped by a failure |
| EventSending.QuietMeansApplied | otelcollector/otel-allocator/internal/watcher/promOperator.go:553-581 | at rest without such a failure the applied configuration is the present one |
| EventDelivery.AppliedExactly | otelcollector/otel-allocator/main.go:263-283 | in a run whose changes each bring something new, the present configuration is the applied one exactly if nothing changed, or some load after the last change was followed by its application without a failure in between |
| EventSending.LostByFailure | otelcollector/otel-allocator/main.go:267-280 | also when changes repeat an earlier configuration: at rest, one that is not applied implies a failure with no load after it |
| EventDelivery.DeliveredIsApplied | otelcollector/otel-allocator/main.go:263-283 | for all runs: what was loaded after the last change and applied is the present configuration |
| EventSending.FailureLosesChange | otelcollector/otel-allocator/main.go:267-280 | a run in which a failure uses up the event of a change, which is not applied at rest |
| EventSending.QuietStays | otelcollector/otel-allocator/internal/watcher/promOperator.go:565-580 | without a change nothing happens any more once everything has come to rest, so a lost change stays lost |
| EventSending.RefusedIsKept | otelcollector/otel-allocator/internal/watcher/promOperator.go:568-576 | however often the event is refused, the notification stays until it is sent |
| EventSending.OncePerTick | otelcollector/otel-allocator/internal/watcher/promOperator.go:565-580 | at most one event is sent or refused per tick |
| EventSending.SecondIsCurrent | otelcollector/otel-allocator/main.go:263-283 | in a stretch without changes at most the first applied configuration is an old one |
| EventSending.Notifications.RateLimitedEventSender | otelcollector/otel-allocator/internal/watcher/promOperator.go:553-581 | at a tick an event is sent exactly if the main loop is ready and a notification came since it was ready last; one is left exactly if it still waits |
| EventSending.RoundIsSteps | otelcollector/otel-allocator/internal/watcher/promOperator.go:565-580 | a round without interference is a sequence of the protocol's steps |
| DeepMerge.DeepMerge | otelcollector/shared/configmap/ccp/prometheus-ccp-config-merger.go:252-280 | for every order of the source's keys the result is the key-wise merge; the recursion ends |
| DeepMerge.MergeExactly | otelcollector/shared/configmap/ccp/prometheus-ccp-config-merger.go:252-280 | under a key of one tree only its value; two maps merged in turn, two lists one after the other, of two scalars of one type the first, otherwise the value of the source |
| DeepMerge.JoinIsSecond | otelcollector/shared/configmap/ccp/prometheus-ccp-config-merger.go:265-276 | the second value remains as it is exactly if the first one adds nothing to it, level by level |
| DeepMerge.JoinAssociates | otelcollector/shared/configmap/ccp/prometheus-ccp-config-merger.go:252-280 | grouping does not matter exactly if, under each common path, no value of one type stands between two of another of which the first adds something |
| DeepMerge.MergeAssociative | otelcollector/shared/configmap/ccp/prometheus-ccp-config-merger.go:252-280 | merging trees that agree in type under their common paths is associative |
| DeepMerge.GroupingMatters | otelcollector/shared/configmap/ccp/prometheus-ccp-config-merger.go:273-276 | three trees for which the grouping matters |
| DeepMerge.MergeDefaultScrapeConfigs | otelcollector/shared/configmap/ccp/prometheus-ccp-config-merger.go:213-233 | the fold over the files that could be read, in order, beginning with an empty list; nothing at all without files |
| DeepMerge.MergedConfigs | otelcollector/shared/configmap/ccp/prometheus-ccp-config-merger.go:213-233 | the merged entry is a list exactly if the last present one is, and then holds those since the last value of another type |
| DeepMerge.ScrapeConfigsConcatenated | otelcollector/shared/configmap/ccp/prometheus-ccp-config-merger.go:213-233 | the merged scrape configurations are those of all loaded files in file order, exactly if every value of another type overwrites nothing and is followed by a list |

## Left out

- The lock, the goroutines of `buildTargetMap` and the readers between two calls: every call is one atomic step, so the order of two updates inside a call is not kept where nothing can observe it (a removed collector's targets lose their owners before its entry goes, an unassigned target leaves the index before its counters fall).
- The relabel filter: `SetTargets` is given the targets that it let through.
- Metrics, logging and the assembled error values of the allocator; an error is a failed placement.
- `SetFallbackStrategy` after construction: the fallback is fixed when the strategy is made. The registry of shared strategy objects is not modelled.
- The consistent-hashing library: an arbitrary function from member set and URL to a member; its partitions and load bound are not visible here.
- Collisions of the 64-bit hashes of targets and series: hashes are the identities themselves.
- A collector that moves to another node under its old name: the program compares names only, so the theorems speak of the recorded node.
- Pods counted as unhealthy after a non-zero grace period, which depends on the wall clock; `RunOnCollectors` is the code with grace period 0.
- Closing of channels and shutdown of the loops; which informer events cause a notification is taken as given.
- Walking nested scrape configurations to the relabel rules; the rules themselves are an array that is rewritten in place. A replacement that is no string crashes both programs, and is excluded by `Wellformed`. The rewriting of `static_configs` is not modelled.
- Strings are sequences of code units, without regard to UTF-8.
- Floating point: sample values are integers or a staleness marker, float bucket counts are reals. The conversion to `uint64` of what does not fit is left to the platform (`Cast`); bounds that are NaN are not modelled.
- Points with equal bounds: Go's sort is not stable, and `SortPoints` promises only a sorting.
- Timestamps in nanoseconds, exemplars, start times that come with a sample, names with trimmed suffixes, and metadata of the emitted metric.
- Native histograms whose spans have more buckets than there are values: their conversion crashes the program, and `Sound` excludes them.
- Resource and scope attributes, `target_info` and `otel_scope_info`; resource and scope are parts of a key. The prefix `otel_scope_` is a constant of a library that is not part of this model.
- Duplicate label names: `prepareLabels` rejects them, which `SortedLabels` expresses together with the library's sorting.
- A built-in scrape metric that comes as a native histogram: the program then overwrites the type in a shared table.
- DeepMerge.DeepMerge: is on values, so it does not model that the target map is updated in place, that subtrees of the source become shared with it, and that `append` may reuse a slice's memory.
- Reading, writing and unmarshalling the files of default scrape configurations; a file that cannot be loaded is `None`. Keys of YAML maps are strings.
- Kubernetes clients, HTTP servers, TLS, the reload of receiver configurations, rule conversion, and all other programs of the repository: input and output, without a property of the kind proved here.
