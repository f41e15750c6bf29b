/**
 The sparse `metrics` patch of overlay synthesis, and exactly when it leads back
 to the desired section.
 */
module MetricsSynthesis {
  import opened Wrappers
  import opened ConfigModel
  import opened MetricsMerge

  function Changed<T(==)>(file: Option<T>, desired: Option<T>): Option<T> {
    if desired != file then desired else None
  }

  function ChangedText(file: string, desired: string): string {
    if desired != file then desired else ""
  }

  function CollectionDelta(file: map<string, CollectEmit>, desired: map<string, CollectEmit>)
    : map<string, CollectEmit>
  {
    map k | k in desired && !(k in file && file[k] == desired[k]) :: desired[k]
  }

  function UserMetricsDelta(file: seq<UserMetric>, desired: seq<UserMetric>): seq<UserMetric> {
    if desired == [] then []
    else
      var i := IndexOfMetric(file, desired[0].name);
      (if i < |file| && file[i] == desired[0] then [] else [desired[0]])
      + UserMetricsDelta(file, desired[1..])
  }

  function Delta(file: Metrics, desired: Metrics): Metrics {
    Metrics(
      Changed(file.enabled, desired.enabled),
      ChangedText(file.profile, desired.profile),
      ChangedText(file.base, desired.base),
      Changed(file.prometheus, desired.prometheus),
      Changed(file.otel, desired.otel),
      Changed(file.eventExport, desired.eventExport),
      Changed(file.categories, desired.categories),
      Changed(file.granularity, desired.granularity),
      CollectionDelta(file.collection, desired.collection),
      UserMetricsDelta(file.userMetrics, desired.userMetrics))
  }

  method CollectionDeltaOf(file: map<string, CollectEmit>, desired: map<string, CollectEmit>)
    returns (delta: map<string, CollectEmit>)
    ensures delta == CollectionDelta(file, desired)
  {
    delta := map[];
    var keys := desired.Keys;
    while keys != {}
      invariant keys <= desired.Keys
      invariant delta == map k | k in CollectionDelta(file, desired) && k !in keys :: desired[k]
    {
      var k :| k in keys;
      if !(k in file && file[k] == desired[k]) {
        delta := delta[k := desired[k]];
      }
      keys := keys - {k};
    }
  }

  method UserMetricsDeltaOf(file: seq<UserMetric>, desired: seq<UserMetric>) returns (out: seq<UserMetric>)
    ensures out == UserMetricsDelta(file, desired)
  {
    out := [];
    for n := 0 to |desired|
      invariant UserMetricsDelta(file, desired) == out + UserMetricsDelta(file, desired[n..])
    {
      var d := desired[n];
      assert desired[n..][0] == d && desired[n..][1..] == desired[n + 1..];
      var i := IndexOfMetric(file, d.name);
      if !(i < |file| && file[i] == d) {
        out := out + [d];
      }
    }
  }

  method ScalarsDelta(file: Metrics, desired: Metrics, start: Metrics) returns (delta: Metrics)
    requires start.enabled.None? && start.profile == "" && start.base == ""
    ensures delta == start.(enabled := Changed(file.enabled, desired.enabled),
                            profile := ChangedText(file.profile, desired.profile),
                            base := ChangedText(file.base, desired.base))
  {
    delta := start;
    if desired.enabled != file.enabled { delta := delta.(enabled := desired.enabled); }
    if desired.profile != file.profile { delta := delta.(profile := desired.profile); }
    if desired.base != file.base { delta := delta.(base := desired.base); }
  }

  method ExportsDelta(file: Metrics, desired: Metrics, start: Metrics) returns (delta: Metrics)
    requires start.prometheus.None? && start.otel.None? && start.eventExport.None?
    ensures delta == start.(prometheus := Changed(file.prometheus, desired.prometheus),
                            otel := Changed(file.otel, desired.otel),
                            eventExport := Changed(file.eventExport, desired.eventExport))
  {
    delta := start;
    if desired.prometheus != file.prometheus { delta := delta.(prometheus := desired.prometheus); }
    if desired.otel != file.otel { delta := delta.(otel := desired.otel); }
    if desired.eventExport != file.eventExport { delta := delta.(eventExport := desired.eventExport); }
  }

  method FamiliesDelta(file: Metrics, desired: Metrics, start: Metrics) returns (delta: Metrics)
    requires start.categories.None? && start.granularity.None?
    ensures delta == start.(categories := Changed(file.categories, desired.categories),
                            granularity := Changed(file.granularity, desired.granularity))
  {
    delta := start;
    if desired.categories != file.categories { delta := delta.(categories := desired.categories); }
    if desired.granularity != file.granularity { delta := delta.(granularity := desired.granularity); }
  }

  method MetricsDelta(file: Metrics, desired: Metrics) returns (delta: Metrics)
    ensures delta == Delta(file, desired)
  {
    delta := ScalarsDelta(file, desired, DEFAULT_METRICS);
    delta := ExportsDelta(file, desired, delta);
    delta := FamiliesDelta(file, desired, delta);
    var collection := CollectionDeltaOf(file.collection, desired.collection);
    delta := delta.(collection := collection);
    var users := UserMetricsDeltaOf(file.userMetrics, desired.userMetrics);
    delta := delta.(userMetrics := users);
  }

  function SynthesizeMetrics(file: Option<Metrics>, desired: Option<Metrics>): Option<Metrics> {
    if desired.None? then None
    else if file.None? then desired
    else if file == desired then None
    else Some(Delta(file.value, desired.value))
  }

  function MergeMetricsSection(base: Option<Metrics>, overlay: Option<Metrics>): Option<Metrics> {
    if overlay.None? then base else Some(DeepMerge(base.UnwrapOr(DEFAULT_METRICS), overlay.value))
  }

  // ----- The round trip -----

  // Part of the desired list is in place; the rest of the baseline still follows it.
  function Progress(file: seq<UserMetric>, desired: seq<UserMetric>, n: nat): seq<UserMetric>
    requires n <= |desired|
  {
    desired[..n] + if n < |file| then file[n..] else []
  }

  lemma UpdateMetricReaches(from: UserMetric, to: UserMetric)
    requires ExtendsMetric(from, to)
    ensures UpdateMetric(from, to) == to
  {
  }

  lemma NamesAgree(file: seq<UserMetric>, desired: seq<UserMetric>, n: nat)
    requires ExtendsUserMetrics(file, desired) && DistinctMetricNames(desired) && n < |desired|
    ensures IndexOfMetric(file, desired[n].name) == if n < |file| then n else |file|
  {
    forall k | 0 <= k < |file| ensures file[k].name == desired[k].name {
      assert ExtendsMetric(file[k], desired[k]);
    }
  }

  lemma UserMetricStep(file: seq<UserMetric>, desired: seq<UserMetric>, n: nat)
    requires ExtendsUserMetrics(file, desired) && DistinctMetricNames(desired) && n < |desired|
    ensures MergeUserMetric(Progress(file, desired, n), desired[n]) == Progress(file, desired, n + 1)
    ensures n < |file| && file[n] == desired[n] ==>
              Progress(file, desired, n) == Progress(file, desired, n + 1)
  {
    var p, d, q := Progress(file, desired, n), desired[n], Progress(file, desired, n + 1);
    assert forall k :: 0 <= k < n ==> p[k].name != d.name;
    if n < |file| {
      assert p[n] == file[n] && ExtendsMetric(file[n], d);
      UpdateMetricReaches(p[n], d);
      assert p[n := d] == q;
    } else {
      assert p + [d] == q;
    }
  }

  lemma {:induction false} UserMetricsDeltaReaches(file: seq<UserMetric>, desired: seq<UserMetric>, n: nat)
    requires ExtendsUserMetrics(file, desired) && DistinctMetricNames(desired) && n <= |desired|
    ensures MergeUserMetrics(Progress(file, desired, n), UserMetricsDelta(file, desired[n..])) == desired
    decreases |desired| - n
  {
    if n == |desired| {
      assert Progress(file, desired, n) == desired;
    } else {
      UserMetricStep(file, desired, n);
      NamesAgree(file, desired, n);
      assert desired[n..][1..] == desired[n + 1..];
      UserMetricsDeltaReaches(file, desired, n + 1);
      var rest := UserMetricsDelta(file, desired[n + 1..]);
      assert ([desired[n]] + rest)[1..] == rest;
      assert [] + rest == rest;
    }
  }

  lemma CollectionDeltaReaches(file: map<string, CollectEmit>, desired: map<string, CollectEmit>)
    requires file.Keys <= desired.Keys
    requires forall k :: k in file ==> ExtendsCollectEmit(file[k], desired[k])
    ensures MergeCollection(file, CollectionDelta(file, desired)) == desired
  {
  }

  lemma MapMergeReaches<K, V>(from: map<K, V>, to: map<K, V>)
    requires from.Keys <= to.Keys
    ensures from + to == to
  {
  }

  lemma NestedDeltaReaches(file: Metrics, desired: Metrics)
    requires Extends(file, desired)
    ensures MergeOtel(file.otel, Changed(file.otel, desired.otel)) == desired.otel
    ensures MergeGranularity(file.granularity, Changed(file.granularity, desired.granularity)) == desired.granularity
    ensures MergePrometheus(file.prometheus, Changed(file.prometheus, desired.prometheus)) == desired.prometheus
    ensures MergeEventExport(file.eventExport, Changed(file.eventExport, desired.eventExport)) == desired.eventExport
    ensures MergeCategories(file.categories, Changed(file.categories, desired.categories)) == desired.categories
  {
    if desired.otel.Some? {
      var f := file.otel.UnwrapOr(Otel("", 0, map[], None, map[]));
      MapMergeReaches(f.resourceAttributes, desired.otel.value.resourceAttributes);
      MapMergeReaches(f.headers, desired.otel.value.headers);
    }
    if desired.granularity.Some? {
      MapMergeReaches(file.granularity.UnwrapOr(Granularity("", map[])).overrides, desired.granularity.value.overrides);
    }
  }

  lemma UserDeltaReaches(file: seq<UserMetric>, desired: seq<UserMetric>)
    requires ExtendsUserMetrics(file, desired) && DistinctMetricNames(desired)
    ensures MergeUserMetrics(file, UserMetricsDelta(file, desired)) == desired
  {
    UserMetricsDeltaReaches(file, desired, 0);
    assert Progress(file, desired, 0) == file;
    assert desired[0..] == desired;
  }

  lemma PlainDeltaReaches(file: Metrics, desired: Metrics)
    requires Extends(file, desired)
    ensures Pick(file.enabled, Changed(file.enabled, desired.enabled)) == desired.enabled
    ensures PickText(file.profile, ChangedText(file.profile, desired.profile)) == desired.profile
    ensures PickText(file.base, ChangedText(file.base, desired.base)) == desired.base
    ensures MergeCollection(file.collection, CollectionDelta(file.collection, desired.collection)) == desired.collection
  {
    CollectionDeltaReaches(file.collection, desired.collection);
  }

  lemma DeltaReaches(file: Metrics, desired: Metrics)
    requires Extends(file, desired) && DistinctMetricNames(desired.userMetrics)
    ensures DeepMerge(file, Delta(file, desired)) == desired
  {
    PlainDeltaReaches(file, desired);
    NestedDeltaReaches(file, desired);
    UserDeltaReaches(file.userMetrics, desired.userMetrics);
  }

  lemma {:induction false} UserMetricsDeltaFromNothing(desired: seq<UserMetric>)
    ensures UserMetricsDelta([], desired) == desired
  {
    if desired != [] {
      UserMetricsDeltaFromNothing(desired[1..]);
      assert [desired[0]] + desired[1..] == desired;
    }
  }

  // The desired section is reached exactly when it never unsets, drops or reorders
  // anything of the file's section; no other overlay could reach it either.
  predicate MetricsExpressible(file: Option<Metrics>, desired: Option<Metrics>) {
    if desired.None? then file.None?
    else Extends(file.UnwrapOr(DEFAULT_METRICS), desired.value)
  }

  lemma MetricsRoundTrip(file: Option<Metrics>, desired: Option<Metrics>)
    requires desired.Some? ==> DistinctMetricNames(desired.value.userMetrics)
    ensures MergeMetricsSection(file, SynthesizeMetrics(file, desired)) == desired
       <==> MetricsExpressible(file, desired)
  {
    if desired.Some? {
      var base, patch := file.UnwrapOr(DEFAULT_METRICS), SynthesizeMetrics(file, desired);
      if file.None? {
        UserMetricsDeltaFromNothing(desired.value.userMetrics);
        assert Delta(DEFAULT_METRICS, desired.value) == desired.value;
      }
      if patch.Some? {
        MergeExtends(base, patch.value);
      } else {
        MergeExtends(base, DEFAULT_METRICS);
        assert DeepMerge(base, DEFAULT_METRICS) == base by {
          assert MergeCollection(base.collection, map[]) == base.collection;
        }
      }
      if Extends(base, desired.value) {
        DeltaReaches(base, desired.value);
      }
    }
  }

  // What some overlay reaches from the file's section is exactly what extends it.
  lemma MetricsImageIsExtensions(file: Option<Metrics>, d: Option<Metrics>)
    requires d.Some? ==> DistinctMetricNames(d.value.userMetrics)
    ensures (exists o :: MergeMetricsSection(file, o) == d) <==> MetricsExpressible(file, d)
  {
    if o :| MergeMetricsSection(file, o) == d {
      if o.Some? { MergeExtends(file.UnwrapOr(DEFAULT_METRICS), o.value); }
    }
    if MetricsExpressible(file, d) {
      MetricsRoundTrip(file, d);
      assert MergeMetricsSection(file, SynthesizeMetrics(file, d)) == d;
    }
  }
}
