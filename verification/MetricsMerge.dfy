/**
 Deep merge of the `metrics` section and the sparse patch that synthesis emits for it.

 `DeepMerge` is the meaning of the merge loops; `Extends` describes, without
 mentioning the merge, which configurations a baseline can be merged into.
 */
module MetricsMerge {
  import opened Wrappers
  import opened ConfigModel
  import KeyedList

  // ----- Scalars -----

  function Pick<T>(base: Option<T>, overlay: Option<T>): Option<T> {
    if overlay.Some? then overlay else base
  }

  function PickText(base: string, overlay: string): string {
    if overlay != "" then overlay else base
  }

  function MergeCollectEmit(base: CollectEmit, overlay: CollectEmit): CollectEmit {
    CollectEmit(Pick(base.collect, overlay.collect), Pick(base.emit, overlay.emit))
  }

  function MergePrometheus(base: Option<Prometheus>, overlay: Option<Prometheus>): Option<Prometheus> {
    if overlay.None? then base
    else
      var b, o := base.UnwrapOr(Prometheus("", "")), overlay.value;
      Some(Prometheus(PickText(b.listenAddress, o.listenAddress), PickText(b.path, o.path)))
  }

  function MergeOtel(base: Option<Otel>, overlay: Option<Otel>): Option<Otel> {
    if overlay.None? then base
    else
      var b, o := base.UnwrapOr(Otel("", 0, map[], None, map[])), overlay.value;
      Some(Otel(PickText(b.endpoint, o.endpoint),
                if o.pushIntervalMs != 0 then o.pushIntervalMs else b.pushIntervalMs,
                b.resourceAttributes + o.resourceAttributes,
                Pick(b.allowInvalidCerts, o.allowInvalidCerts),
                b.headers + o.headers))
  }

  function MergeEventExport(base: Option<CollectEmit>, overlay: Option<CollectEmit>): Option<CollectEmit> {
    if overlay.None? then base
    else Some(MergeCollectEmit(base.UnwrapOr(CollectEmit(None, None)), overlay.value))
  }

  function MergeCategories(base: Option<Categories>, overlay: Option<Categories>): Option<Categories> {
    if overlay.None? then base
    else
      var b, o := base.UnwrapOr(Categories([], [], false, false)), overlay.value;
      Some(Categories(if o.includeSet then o.included else b.included,
                      if o.excludeSet then o.excluded else b.excluded,
                      b.includeSet || o.includeSet,
                      b.excludeSet || o.excludeSet))
  }

  function MergeGranularity(base: Option<Granularity>, overlay: Option<Granularity>): Option<Granularity> {
    if overlay.None? then base
    else
      var b, o := base.UnwrapOr(Granularity("", map[])), overlay.value;
      Some(Granularity(PickText(b.default, o.default), b.overrides + o.overrides))
  }

  function MergeCollection(base: map<string, CollectEmit>, overlay: map<string, CollectEmit>)
    : map<string, CollectEmit>
  {
    map k | k in base.Keys + overlay.Keys ::
      if k !in overlay then base[k]
      else if k in base then MergeCollectEmit(base[k], overlay[k])
      else overlay[k]
  }

  // ----- User metrics: matched by name, appended when new -----

  function IndexOfMetric(l: seq<UserMetric>, name: string): (i: nat)
    ensures i <= |l|
    ensures i < |l| ==> l[i].name == name
    ensures forall k :: 0 <= k < i ==> l[k].name != name
  {
    if l == [] || l[0].name == name then 0 else 1 + IndexOfMetric(l[1..], name)
  }

  function UpdateMetric(base: UserMetric, overlay: UserMetric): UserMetric {
    UserMetric(base.name, PickText(base.export_, overlay.export_), Pick(base.collect, overlay.collect),
               Pick(base.emit, overlay.emit), PickText(base.help, overlay.help))
  }

  function MergeUserMetric(base: seq<UserMetric>, entry: UserMetric): seq<UserMetric> {
    var i := IndexOfMetric(base, entry.name);
    if i < |base| then base[i := UpdateMetric(base[i], entry)] else base + [entry]
  }

  function MergeUserMetrics(base: seq<UserMetric>, overlay: seq<UserMetric>): seq<UserMetric>
    decreases |overlay|
  {
    if overlay == [] then base
    else MergeUserMetrics(MergeUserMetric(base, overlay[0]), overlay[1..])
  }

  ghost predicate DistinctMetricNames(l: seq<UserMetric>) {
    forall i, j :: 0 <= i < j < |l| ==> l[i].name != l[j].name
  }

  function DeepMerge(base: Metrics, overlay: Metrics): Metrics {
    Metrics(
      Pick(base.enabled, overlay.enabled),
      PickText(base.profile, overlay.profile),
      PickText(base.base, overlay.base),
      MergePrometheus(base.prometheus, overlay.prometheus),
      MergeOtel(base.otel, overlay.otel),
      MergeEventExport(base.eventExport, overlay.eventExport),
      MergeCategories(base.categories, overlay.categories),
      MergeGranularity(base.granularity, overlay.granularity),
      MergeCollection(base.collection, overlay.collection),
      MergeUserMetrics(base.userMetrics, overlay.userMetrics))
  }

  // ----- The merge as the code runs it -----

  method InsertAll<K, V>(base: map<K, V>, entries: map<K, V>) returns (all: map<K, V>)
    ensures all == base + entries
  {
    all := base;
    var keys := entries.Keys;
    while keys != {}
      invariant keys <= entries.Keys
      invariant all == base + (map k | k in entries && k !in keys :: entries[k])
    {
      var k :| k in keys;
      all := all[k := entries[k]];
      keys := keys - {k};
    }
    assert (map k | k in entries && k !in {} :: entries[k]) == entries;
  }

  method MergeCollectEmitInto(base: CollectEmit, overlay: CollectEmit) returns (merged: CollectEmit)
    ensures merged == MergeCollectEmit(base, overlay)
  {
    merged := base;
    if overlay.collect.Some? { merged := merged.(collect := overlay.collect); }
    if overlay.emit.Some? { merged := merged.(emit := overlay.emit); }
  }

  method MergePrometheusInto(base: Option<Prometheus>, overlay: Prometheus) returns (merged: Prometheus)
    ensures Some(merged) == MergePrometheus(base, Some(overlay))
  {
    merged := base.UnwrapOr(Prometheus("", ""));
    if overlay.listenAddress != "" { merged := merged.(listenAddress := overlay.listenAddress); }
    if overlay.path != "" { merged := merged.(path := overlay.path); }
  }

  method MergeOtelInto(base: Option<Otel>, overlay: Otel) returns (merged: Otel)
    ensures Some(merged) == MergeOtel(base, Some(overlay))
  {
    merged := base.UnwrapOr(Otel("", 0, map[], None, map[]));
    if overlay.endpoint != "" { merged := merged.(endpoint := overlay.endpoint); }
    if overlay.pushIntervalMs != 0 { merged := merged.(pushIntervalMs := overlay.pushIntervalMs); }
    if overlay.allowInvalidCerts.Some? { merged := merged.(allowInvalidCerts := overlay.allowInvalidCerts); }
    var attributes := InsertAll(merged.resourceAttributes, overlay.resourceAttributes);
    merged := merged.(resourceAttributes := attributes);
    var headers := InsertAll(merged.headers, overlay.headers);
    merged := merged.(headers := headers);
  }

  method MergeGranularityInto(base: Option<Granularity>, overlay: Granularity) returns (merged: Granularity)
    ensures Some(merged) == MergeGranularity(base, Some(overlay))
  {
    merged := base.UnwrapOr(Granularity("", map[]));
    if overlay.default != "" { merged := merged.(default := overlay.default); }
    var overrides := InsertAll(merged.overrides, overlay.overrides);
    merged := merged.(overrides := overrides);
  }

  method MergeCategoriesInto(base: Option<Categories>, overlay: Categories) returns (merged: Categories)
    ensures Some(merged) == MergeCategories(base, Some(overlay))
  {
    merged := base.UnwrapOr(Categories([], [], false, false));
    if overlay.includeSet { merged := merged.(included := overlay.included, includeSet := true); }
    if overlay.excludeSet { merged := merged.(excluded := overlay.excluded, excludeSet := true); }
  }

  method MergeCollectionInto(base: map<string, CollectEmit>, overlay: map<string, CollectEmit>)
    returns (collection: map<string, CollectEmit>)
    ensures collection == MergeCollection(base, overlay)
  {
    collection := base;
    var keys := overlay.Keys;
    while keys != {}
      invariant keys <= overlay.Keys
      invariant collection.Keys == base.Keys + (overlay.Keys - keys)
      invariant forall k :: k in collection.Keys ==>
                  collection[k] == if k in keys then base[k] else MergeCollection(base, overlay)[k]
    {
      var k :| k in keys;
      if k in collection {
        var ce := MergeCollectEmitInto(collection[k], overlay[k]);
        collection := collection[k := ce];
      } else {
        collection := collection[k := overlay[k]];
      }
      keys := keys - {k};
    }
  }

  method UpdateMetricInto(base: UserMetric, overlay: UserMetric) returns (entry: UserMetric)
    ensures entry == UpdateMetric(base, overlay)
  {
    entry := base;
    if overlay.export_ != "" { entry := entry.(export_ := overlay.export_); }
    if overlay.collect.Some? { entry := entry.(collect := overlay.collect); }
    if overlay.emit.Some? { entry := entry.(emit := overlay.emit); }
    if overlay.help != "" { entry := entry.(help := overlay.help); }
  }

  method MergeUserMetricsInto(base: seq<UserMetric>, overlay: seq<UserMetric>) returns (users: seq<UserMetric>)
    ensures users == MergeUserMetrics(base, overlay)
  {
    users := base;
    for n := 0 to |overlay|
      invariant MergeUserMetrics(base, overlay) == MergeUserMetrics(users, overlay[n..])
    {
      var entry := overlay[n];
      assert overlay[n..][1..] == overlay[n + 1..];
      var i := IndexOfMetric(users, entry.name);
      if i < |users| {
        var updated := UpdateMetricInto(users[i], entry);
        users := users[i := updated];
      } else {
        users := users + [entry];
      }
    }
  }

  method MergeScalarsInto(base: Metrics, overlay: Metrics) returns (merged: Metrics)
    ensures merged == base.(enabled := Pick(base.enabled, overlay.enabled),
                            profile := PickText(base.profile, overlay.profile),
                            base := PickText(base.base, overlay.base))
  {
    merged := base;
    if overlay.enabled.Some? { merged := merged.(enabled := overlay.enabled); }
    if overlay.profile != "" { merged := merged.(profile := overlay.profile); }
    if overlay.base != "" { merged := merged.(base := overlay.base); }
  }

  method MergeFamiliesInto(base: Metrics, overlay: Metrics) returns (merged: Metrics)
    ensures merged == base.(granularity := MergeGranularity(base.granularity, overlay.granularity),
                            categories := MergeCategories(base.categories, overlay.categories))
  {
    merged := base;
    if overlay.granularity.Some? {
      var g := MergeGranularityInto(merged.granularity, overlay.granularity.value);
      merged := merged.(granularity := Some(g));
    }
    if overlay.categories.Some? {
      var cats := MergeCategoriesInto(merged.categories, overlay.categories.value);
      merged := merged.(categories := Some(cats));
    }
  }

  method MergeExportsInto(base: Metrics, overlay: Metrics) returns (merged: Metrics)
    ensures merged == base.(eventExport := MergeEventExport(base.eventExport, overlay.eventExport),
                            prometheus := MergePrometheus(base.prometheus, overlay.prometheus),
                            otel := MergeOtel(base.otel, overlay.otel))
  {
    merged := base;
    if overlay.eventExport.Some? {
      var ee := MergeCollectEmitInto(merged.eventExport.UnwrapOr(CollectEmit(None, None)), overlay.eventExport.value);
      merged := merged.(eventExport := Some(ee));
    }
    if overlay.prometheus.Some? {
      var prom := MergePrometheusInto(merged.prometheus, overlay.prometheus.value);
      merged := merged.(prometheus := Some(prom));
    }
    if overlay.otel.Some? {
      var otel := MergeOtelInto(merged.otel, overlay.otel.value);
      merged := merged.(otel := Some(otel));
    }
  }

  method MergeMetrics(base: Option<Metrics>, overlay: Metrics) returns (merged: Metrics)
    ensures merged == DeepMerge(base.UnwrapOr(DEFAULT_METRICS), overlay)
  {
    merged := MergeScalarsInto(base.UnwrapOr(DEFAULT_METRICS), overlay);
    var collection := MergeCollectionInto(merged.collection, overlay.collection);
    merged := MergeFamiliesInto(merged.(collection := collection), overlay);
    merged := MergeExportsInto(merged, overlay);
    var users := MergeUserMetricsInto(merged.userMetrics, overlay.userMetrics);
    merged := merged.(userMetrics := users);
  }

  // ----- What a merge can reach -----

  predicate KeepsSet<T>(from: Option<T>, to: Option<T>) {
    from.Some? ==> to.Some?
  }

  predicate KeepsText(from: string, to: string) {
    from != "" ==> to != ""
  }

  predicate ExtendsCollectEmit(from: CollectEmit, to: CollectEmit) {
    KeepsSet(from.collect, to.collect) && KeepsSet(from.emit, to.emit)
  }

  predicate ExtendsPrometheus(from: Prometheus, to: Prometheus) {
    KeepsText(from.listenAddress, to.listenAddress) && KeepsText(from.path, to.path)
  }

  predicate ExtendsOtel(from: Otel, to: Otel) {
    && KeepsText(from.endpoint, to.endpoint)
    && (from.pushIntervalMs != 0 ==> to.pushIntervalMs != 0)
    && from.resourceAttributes.Keys <= to.resourceAttributes.Keys
    && KeepsSet(from.allowInvalidCerts, to.allowInvalidCerts)
    && from.headers.Keys <= to.headers.Keys
  }

  // A list that is not marked as set cannot differ from the baseline's.
  predicate ExtendsCategories(from: Categories, to: Categories) {
    && (!to.includeSet ==> !from.includeSet && to.included == from.included)
    && (!to.excludeSet ==> !from.excludeSet && to.excluded == from.excluded)
  }

  predicate ExtendsGranularity(from: Granularity, to: Granularity) {
    KeepsText(from.default, to.default) && from.overrides.Keys <= to.overrides.Keys
  }

  predicate ExtendsMetric(from: UserMetric, to: UserMetric) {
    && from.name == to.name
    && KeepsText(from.export_, to.export_)
    && KeepsSet(from.collect, to.collect)
    && KeepsSet(from.emit, to.emit)
    && KeepsText(from.help, to.help)
  }

  // The baseline's user metrics stay first and in order.
  predicate ExtendsUserMetrics(from: seq<UserMetric>, to: seq<UserMetric>) {
    |from| <= |to| && forall i :: 0 <= i < |from| ==> ExtendsMetric(from[i], to[i])
  }

  predicate ExtendsPlain(from: Metrics, to: Metrics) {
    && KeepsSet(from.enabled, to.enabled)
    && KeepsText(from.profile, to.profile)
    && KeepsText(from.base, to.base)
    && from.collection.Keys <= to.collection.Keys
    && (forall k :: k in from.collection ==> ExtendsCollectEmit(from.collection[k], to.collection[k]))
  }

  predicate ExtendsSections(from: Metrics, to: Metrics) {
    && KeepsSet(from.prometheus, to.prometheus)
    && (to.prometheus.Some? ==>
          ExtendsPrometheus(from.prometheus.UnwrapOr(Prometheus("", "")), to.prometheus.value))
    && KeepsSet(from.otel, to.otel)
    && (to.otel.Some? ==> ExtendsOtel(from.otel.UnwrapOr(Otel("", 0, map[], None, map[])), to.otel.value))
    && KeepsSet(from.eventExport, to.eventExport)
    && (to.eventExport.Some? ==>
          ExtendsCollectEmit(from.eventExport.UnwrapOr(CollectEmit(None, None)), to.eventExport.value))
    && KeepsSet(from.categories, to.categories)
    && (to.categories.Some? ==>
          ExtendsCategories(from.categories.UnwrapOr(Categories([], [], false, false)), to.categories.value))
    && KeepsSet(from.granularity, to.granularity)
    && (to.granularity.Some? ==>
          ExtendsGranularity(from.granularity.UnwrapOr(Granularity("", map[])), to.granularity.value))
  }

  // `to` unsets no field of `from`, drops no key and keeps its user metrics in place.
  predicate Extends(from: Metrics, to: Metrics) {
    ExtendsPlain(from, to) && ExtendsSections(from, to) && ExtendsUserMetrics(from.userMetrics, to.userMetrics)
  }

  lemma {:induction false} UserMetricsMergeExtends(base: seq<UserMetric>, overlay: seq<UserMetric>)
    ensures ExtendsUserMetrics(base, MergeUserMetrics(base, overlay))
    decreases |overlay|
  {
    if overlay != [] {
      UserMetricsMergeExtends(MergeUserMetric(base, overlay[0]), overlay[1..]);
    }
  }

  lemma PlainMergeExtends(base: Metrics, overlay: Metrics)
    ensures ExtendsPlain(base, DeepMerge(base, overlay))
  {
  }

  lemma SectionsMergeExtend(base: Metrics, overlay: Metrics)
    ensures ExtendsSections(base, DeepMerge(base, overlay))
  {
  }

  // No overlay can take a baseline outside its extensions.
  lemma MergeExtends(base: Metrics, overlay: Metrics)
    ensures Extends(base, DeepMerge(base, overlay))
  {
    PlainMergeExtends(base, overlay);
    SectionsMergeExtend(base, overlay);
    UserMetricsMergeExtends(base.userMetrics, overlay.userMetrics);
  }

  lemma ExtendsItself(m: Metrics)
    ensures Extends(m, m)
  {
  }

  lemma ExtendsTransitive(a: Metrics, b: Metrics, c: Metrics)
    requires Extends(a, b) && Extends(b, c)
    ensures Extends(a, c)
  {
    forall i | 0 <= i < |a.userMetrics| ensures ExtendsMetric(a.userMetrics[i], c.userMetrics[i]) {
      assert ExtendsMetric(a.userMetrics[i], b.userMetrics[i]) && ExtendsMetric(b.userMetrics[i], c.userMetrics[i]);
    }
    forall k | k in a.collection ensures ExtendsCollectEmit(a.collection[k], c.collection[k]) {
      assert ExtendsCollectEmit(a.collection[k], b.collection[k]);
      assert ExtendsCollectEmit(b.collection[k], c.collection[k]);
    }
  }

  // ----- Associativity -----

  function MetricKey(m: UserMetric): Option<string> { Some(m.name) }

  function MetricEdit(o: UserMetric): KeyedList.Edit<UserMetric> {
    KeyedList.Edit(o.name, (m: UserMetric) => KeyedList.Keep(UpdateMetric(m, o)), Some(o))
  }

  function MetricEdits(os: seq<UserMetric>): seq<KeyedList.Edit<UserMetric>> {
    seq(|os|, i requires 0 <= i < |os| => MetricEdit(os[i]))
  }

  lemma MergeUserMetricIsEdit(base: seq<UserMetric>, o: UserMetric)
    ensures KeyedList.Apply(MetricKey, base, MetricEdit(o)) == Some(MergeUserMetric(base, o))
  {
    var i := IndexOfMetric(base, o.name);
    if i < |base| {
      KeyedList.ApplyFirst(MetricKey, base, i, MetricEdit(o));
    } else {
      KeyedList.ApplyMissing(MetricKey, base, MetricEdit(o));
    }
  }

  lemma {:induction false} MergeUserMetricsIsRun(base: seq<UserMetric>, os: seq<UserMetric>)
    ensures KeyedList.Run(MetricKey, base, MetricEdits(os)) == Some(MergeUserMetrics(base, os))
    decreases |os|
  {
    if os != [] {
      MergeUserMetricIsEdit(base, os[0]);
      assert MetricEdits(os)[1..] == MetricEdits(os[1..]);
      MergeUserMetricsIsRun(MergeUserMetric(base, os[0]), os[1..]);
    }
  }

  lemma MetricEditsFuse(at: Option<UserMetric>, x: UserMetric, e: UserMetric)
    requires x.name == e.name
    ensures KeyedList.Fuses(at, MetricEdit(x), MetricEdit(e), MetricEdit(UpdateMetric(x, e)))
  {
  }

  lemma UserMetricStepAssociates(a: seq<UserMetric>, b: seq<UserMetric>, e: UserMetric)
    requires DistinctMetricNames(b)
    ensures MergeUserMetrics(a, MergeUserMetric(b, e)) == MergeUserMetric(MergeUserMetrics(a, b), e)
  {
    var b' := MergeUserMetric(b, e);
    var i := IndexOfMetric(b, e.name);
    var es, edit := MetricEdits(b), MetricEdit(e);
    assert KeyedList.Run(MetricKey, a, MetricEdits(b'))
        == KeyedList.Then(MetricKey, KeyedList.Run(MetricKey, a, es), edit) by {
      if i < |b| {
        var f := MetricEdit(UpdateMetric(b[i], e));
        assert MetricEdits(b') == es[i := f];
        MetricEditsFuse(KeyedList.At(MetricKey, a, e.name), b[i], e);
        KeyedList.FuseInto(MetricKey, a, es, i, edit, f);
      } else {
        assert MetricEdits(b') == es + [edit];
        KeyedList.RunAppend(MetricKey, a, es, edit);
      }
    }
    MergeUserMetricsIsRun(a, b);
    MergeUserMetricsIsRun(a, b');
    MergeUserMetricIsEdit(MergeUserMetrics(a, b), e);
  }

  lemma {:induction false} UserMetricsAssociate(a: seq<UserMetric>, b: seq<UserMetric>, c: seq<UserMetric>)
    requires DistinctMetricNames(b)
    ensures MergeUserMetrics(MergeUserMetrics(a, b), c) == MergeUserMetrics(a, MergeUserMetrics(b, c))
    ensures DistinctMetricNames(MergeUserMetrics(b, c))
    decreases |c|
  {
    if c != [] {
      UserMetricStepAssociates(a, b, c[0]);
      UserMetricsAssociate(a, MergeUserMetric(b, c[0]), c[1..]);
    }
  }

  lemma MapMergeAssociates<K, V>(a: map<K, V>, b: map<K, V>, c: map<K, V>)
    ensures (a + b) + c == a + (b + c)
    ensures map[] + c == c
  {
  }

  lemma OtelAssociates(a: Option<Otel>, b: Option<Otel>, c: Option<Otel>)
    ensures MergeOtel(MergeOtel(a, b), c) == MergeOtel(a, MergeOtel(b, c))
  {
    var none := Otel("", 0, map[], None, map[]);
    var x, y, z := a.UnwrapOr(none), b.UnwrapOr(none), c.UnwrapOr(none);
    MapMergeAssociates(x.resourceAttributes, y.resourceAttributes, z.resourceAttributes);
    MapMergeAssociates(x.headers, y.headers, z.headers);
  }

  lemma GranularityAssociates(a: Option<Granularity>, b: Option<Granularity>, c: Option<Granularity>)
    ensures MergeGranularity(MergeGranularity(a, b), c) == MergeGranularity(a, MergeGranularity(b, c))
  {
    var none := Granularity("", map[]);
    MapMergeAssociates(a.UnwrapOr(none).overrides, b.UnwrapOr(none).overrides, c.UnwrapOr(none).overrides);
  }

  lemma CollectionAssociates(a: map<string, CollectEmit>, b: map<string, CollectEmit>, c: map<string, CollectEmit>)
    ensures MergeCollection(MergeCollection(a, b), c) == MergeCollection(a, MergeCollection(b, c))
  {
  }

  lemma FlatSectionsAssociate(a: Metrics, b: Metrics, c: Metrics)
    ensures MergePrometheus(MergePrometheus(a.prometheus, b.prometheus), c.prometheus)
         == MergePrometheus(a.prometheus, MergePrometheus(b.prometheus, c.prometheus))
    ensures MergeEventExport(MergeEventExport(a.eventExport, b.eventExport), c.eventExport)
         == MergeEventExport(a.eventExport, MergeEventExport(b.eventExport, c.eventExport))
    ensures MergeCategories(MergeCategories(a.categories, b.categories), c.categories)
         == MergeCategories(a.categories, MergeCategories(b.categories, c.categories))
  {
  }

  // Accumulating two metric patches first, or applying them one after the other, is the same.
  lemma DeepMergeAssociates(a: Metrics, b: Metrics, c: Metrics)
    requires DistinctMetricNames(b.userMetrics)
    ensures DeepMerge(DeepMerge(a, b), c) == DeepMerge(a, DeepMerge(b, c))
  {
    UserMetricsAssociate(a.userMetrics, b.userMetrics, c.userMetrics);
    CollectionAssociates(a.collection, b.collection, c.collection);
    OtelAssociates(a.otel, b.otel, c.otel);
    GranularityAssociates(a.granularity, b.granularity, c.granularity);
    FlatSectionsAssociate(a, b, c);
  }
}
