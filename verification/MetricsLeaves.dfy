/**
 What deep merging the metrics section computes, leaf by leaf: what the overlay sets is
 taken from it, and what it leaves unset is exactly what the baseline has.
 */
module MetricsLeaves {
  import opened Wrappers
  import opened ConfigModel
  import opened MetricsMerge

  predicate Leaf<T(==)>(set_: bool, base: T, overlay: T, merged: T) {
    if set_ then merged == overlay else merged == base
  }

  ghost predicate KeyLeaves<V>(base: map<string, V>, overlay: map<string, V>, merged: map<string, V>) {
    && merged.Keys == base.Keys + overlay.Keys
    && forall k :: k in merged ==> merged[k] == if k in overlay then overlay[k] else base[k]
  }

  predicate CollectEmitLeaves(b: CollectEmit, o: CollectEmit, m: CollectEmit) {
    Leaf(o.collect.Some?, b.collect, o.collect, m.collect) && Leaf(o.emit.Some?, b.emit, o.emit, m.emit)
  }

  predicate PrometheusLeaves(b: Prometheus, o: Prometheus, m: Prometheus) {
    && Leaf(o.listenAddress != "", b.listenAddress, o.listenAddress, m.listenAddress)
    && Leaf(o.path != "", b.path, o.path, m.path)
  }

  ghost predicate OtelLeaves(b: Otel, o: Otel, m: Otel) {
    && Leaf(o.endpoint != "", b.endpoint, o.endpoint, m.endpoint)
    && Leaf(o.pushIntervalMs != 0, b.pushIntervalMs, o.pushIntervalMs, m.pushIntervalMs)
    && Leaf(o.allowInvalidCerts.Some?, b.allowInvalidCerts, o.allowInvalidCerts, m.allowInvalidCerts)
    && KeyLeaves(b.resourceAttributes, o.resourceAttributes, m.resourceAttributes)
    && KeyLeaves(b.headers, o.headers, m.headers)
  }

  predicate CategoriesLeaves(b: Categories, o: Categories, m: Categories) {
    && Leaf(o.includeSet, b.included, o.included, m.included) && Leaf(o.includeSet, b.includeSet, true, m.includeSet)
    && Leaf(o.excludeSet, b.excluded, o.excluded, m.excluded) && Leaf(o.excludeSet, b.excludeSet, true, m.excludeSet)
  }

  ghost predicate GranularityLeaves(b: Granularity, o: Granularity, m: Granularity) {
    && Leaf(o.default != "", b.default, o.default, m.default)
    && KeyLeaves(b.overrides, o.overrides, m.overrides)
  }

  ghost predicate CollectionLeaves(b: map<string, CollectEmit>, o: map<string, CollectEmit>,
                                   m: map<string, CollectEmit>)
  {
    && m.Keys == b.Keys + o.Keys
    && forall k :: k in m ==>
         if k !in o then m[k] == b[k] else if k !in b then m[k] == o[k] else CollectEmitLeaves(b[k], o[k], m[k])
  }

  // A section that the overlay does not have is the baseline's; one that the baseline does
  // not have is merged onto an empty one.
  ghost predicate SectionLeaves(b: Metrics, o: Metrics, m: Metrics) {
    && (if o.prometheus.None? then m.prometheus == b.prometheus
        else && m.prometheus.Some?
             && PrometheusLeaves(b.prometheus.UnwrapOr(Prometheus("", "")), o.prometheus.value, m.prometheus.value))
    && (if o.otel.None? then m.otel == b.otel
        else m.otel.Some? && OtelLeaves(b.otel.UnwrapOr(Otel("", 0, map[], None, map[])), o.otel.value, m.otel.value))
    && (if o.eventExport.None? then m.eventExport == b.eventExport
        else && m.eventExport.Some?
             && CollectEmitLeaves(b.eventExport.UnwrapOr(CollectEmit(None, None)), o.eventExport.value,
                                  m.eventExport.value))
    && (if o.categories.None? then m.categories == b.categories
        else && m.categories.Some?
             && CategoriesLeaves(b.categories.UnwrapOr(Categories([], [], false, false)), o.categories.value,
                                 m.categories.value))
    && (if o.granularity.None? then m.granularity == b.granularity
        else && m.granularity.Some?
             && GranularityLeaves(b.granularity.UnwrapOr(Granularity("", map[])), o.granularity.value,
                                  m.granularity.value))
  }

  ghost predicate MergedLeaves(b: Metrics, o: Metrics, m: Metrics) {
    && Leaf(o.enabled.Some?, b.enabled, o.enabled, m.enabled)
    && Leaf(o.profile != "", b.profile, o.profile, m.profile)
    && Leaf(o.base != "", b.base, o.base, m.base)
    && SectionLeaves(b, o, m)
    && CollectionLeaves(b.collection, o.collection, m.collection)
    && UserLeaves(b.userMetrics, o.userMetrics, m.userMetrics)
  }

  // ----- User metrics -----

  // Entry `k` is the last under this name to set the field.
  ghost predicate IsLast<T(!new)>(o: seq<UserMetric>, name: string, field: UserMetric -> T, unset: T, k: nat) {
    && k < |o| && o[k].name == name && field(o[k]) != unset
    && forall l :: k < l < |o| && o[l].name == name ==> field(o[l]) == unset
  }

  ghost predicate NeverSet<T(!new)>(o: seq<UserMetric>, name: string, field: UserMetric -> T, unset: T) {
    forall k :: 0 <= k < |o| && o[k].name == name ==> field(o[k]) == unset
  }

  // The value is the last that the overlay sets under this name, or what was there.
  ghost predicate LastSet<T(!new)>(o: seq<UserMetric>, name: string, field: UserMetric -> T, unset: T, start: T,
                                   value: T)
  {
    || (exists k: nat :: IsLast(o, name, field, unset, k) && value == field(o[k]))
    || (NeverSet(o, name, field, unset) && value == start)
  }

  lemma LastSetNext<T(!new)>(o: seq<UserMetric>, e: UserMetric, name: string, field: UserMetric -> T, unset: T,
                             start: T, value: T)
    requires LastSet(o, name, field, unset, start, value)
    ensures LastSet(o + [e], name, field, unset, start, if e.name == name && field(e) != unset then field(e) else value)
  {
    var o' := o + [e];
    if e.name == name && field(e) != unset {
      assert IsLast(o', name, field, unset, |o|);
    } else if k: nat :| IsLast(o, name, field, unset, k) && value == field(o[k]) {
      assert IsLast(o', name, field, unset, k) && field(o'[k]) == value;
    }
  }

  function ExportOf(u: UserMetric): string { u.export_ }
  function CollectOf(u: UserMetric): Option<bool> { u.collect }
  function EmitOf(u: UserMetric): Option<bool> { u.emit }
  function HelpOf(u: UserMetric): string { u.help }

  ghost predicate FieldsAre(start: UserMetric, o: seq<UserMetric>, x: UserMetric) {
    && LastSet(o, x.name, ExportOf, "", start.export_, x.export_)
    && LastSet(o, x.name, CollectOf, None, start.collect, x.collect)
    && LastSet(o, x.name, EmitOf, None, start.emit, x.emit)
    && LastSet(o, x.name, HelpOf, "", start.help, x.help)
  }

  function StartOf(b: seq<UserMetric>, i: nat, name: string): UserMetric {
    if i < |b| then b[i] else UserMetric(name, "", None, None, "")
  }

  // The first metric of each name carries what the overlay says under that name; any
  // other is as it was.
  ghost predicate MetricIs(b: seq<UserMetric>, o: seq<UserMetric>, m: seq<UserMetric>, i: nat)
    requires i < |m|
  {
    if IndexOfMetric(m, m[i].name) == i then FieldsAre(StartOf(b, i, m[i].name), o, m[i])
    else i < |b| && m[i] == b[i]
  }

  // The baseline's metrics stay in place, and the overlay's new ones follow, in the order
  // in which it first names them.
  ghost predicate NamesAre(b: seq<UserMetric>, o: seq<UserMetric>, m: seq<UserMetric>) {
    && |b| <= |m| && (forall i :: 0 <= i < |b| ==> m[i].name == b[i].name)
    && (forall j :: |b| <= j < |m| ==> !Among(b, m[j].name) && Among(o, m[j].name))
    && (forall j, k :: |b| <= j < k < |m| ==> FirstNamed(o, m[j].name, m[k].name))
    && (forall k :: 0 <= k < |o| ==> Among(m, o[k].name))
  }

  predicate Among(l: seq<UserMetric>, name: string) {
    IndexOfMetric(l, name) < |l|
  }

  predicate FirstNamed(l: seq<UserMetric>, name: string, other: string) {
    IndexOfMetric(l, name) < IndexOfMetric(l, other)
  }

  ghost predicate UserLeaves(b: seq<UserMetric>, o: seq<UserMetric>, m: seq<UserMetric>) {
    NamesAre(b, o, m) && forall i :: 0 <= i < |m| ==> MetricIs(b, o, m, i)
  }

  lemma {:induction false} IndexAppend(l: seq<UserMetric>, e: UserMetric, name: string)
    ensures IndexOfMetric(l + [e], name) ==
            if IndexOfMetric(l, name) < |l| then IndexOfMetric(l, name) else if e.name == name then |l| else |l| + 1
  {
    if l != [] {
      assert (l + [e])[0] == l[0] && (l + [e])[1..] == l[1..] + [e];
      IndexAppend(l[1..], e, name);
    }
  }

  lemma {:induction false} SameNames(l: seq<UserMetric>, l': seq<UserMetric>, name: string)
    requires |l| == |l'| && forall i :: 0 <= i < |l| ==> l[i].name == l'[i].name
    ensures IndexOfMetric(l, name) == IndexOfMetric(l', name)
  {
    if l != [] { SameNames(l[1..], l'[1..], name); }
  }

  lemma FieldsNext(start: UserMetric, o: seq<UserMetric>, x: UserMetric, e: UserMetric)
    requires FieldsAre(start, o, x)
    ensures FieldsAre(start, o + [e], if e.name == x.name then UpdateMetric(x, e) else x)
  {
    LastSetNext(o, e, x.name, ExportOf, "", start.export_, x.export_);
    LastSetNext(o, e, x.name, CollectOf, None, start.collect, x.collect);
    LastSetNext(o, e, x.name, EmitOf, None, start.emit, x.emit);
    LastSetNext(o, e, x.name, HelpOf, "", start.help, x.help);
  }

  lemma NamesWithMore(b: seq<UserMetric>, o: seq<UserMetric>, m: seq<UserMetric>, e: UserMetric, j: nat)
    requires NamesAre(b, o, m) && |b| <= j < |m|
    ensures IndexOfMetric(o + [e], m[j].name) == IndexOfMetric(o, m[j].name) < |o|
    ensures Among(o + [e], m[j].name) && !Among(b, m[j].name)
  {
    assert Among(o, m[j].name);
    IndexAppend(o, e, m[j].name);
  }

  lemma SameNamesAre(b: seq<UserMetric>, o: seq<UserMetric>, m: seq<UserMetric>, e: UserMetric, m': seq<UserMetric>)
    requires NamesAre(b, o, m) && Among(m, e.name)
    requires |m'| == |m| && forall i :: 0 <= i < |m| ==> m'[i].name == m[i].name
    ensures NamesAre(b, o + [e], m')
  {
    var o' := o + [e];
    forall j | |b| <= j < |m'| ensures !Among(b, m'[j].name) && Among(o', m'[j].name) { NamesWithMore(b, o, m, e, j); }
    forall j, k | |b| <= j < k < |m'| ensures FirstNamed(o', m'[j].name, m'[k].name) {
      assert FirstNamed(o, m[j].name, m[k].name);
      NamesWithMore(b, o, m, e, j);
      NamesWithMore(b, o, m, e, k);
    }
    forall k | 0 <= k < |o'| ensures Among(m', o'[k].name) {
      SameNames(m, m', o'[k].name);
      if k < |o| { assert Among(m, o[k].name); }
    }
  }

  lemma UpdateLeaves(b: seq<UserMetric>, o: seq<UserMetric>, m: seq<UserMetric>, e: UserMetric, q: nat)
    requires UserLeaves(b, o, m) && q == IndexOfMetric(m, e.name) < |m|
    ensures UserLeaves(b, o + [e], m[q := UpdateMetric(m[q], e)])
  {
    var o', m' := o + [e], m[q := UpdateMetric(m[q], e)];
    SameNamesAre(b, o, m, e, m');
    forall i | 0 <= i < |m'| ensures MetricIs(b, o', m', i) {
      assert MetricIs(b, o, m, i);
      SameNames(m, m', m[i].name);
      if IndexOfMetric(m, m[i].name) == i { FieldsNext(StartOf(b, i, m[i].name), o, m[i], e); }
    }
  }

  lemma NewIsNowhere(b: seq<UserMetric>, o: seq<UserMetric>, m: seq<UserMetric>, name: string)
    requires NamesAre(b, o, m) && !Among(m, name)
    ensures NotNamed(o, name) && !Among(o, name) && !Among(b, name)
  {
    forall k | 0 <= k < |o| ensures o[k].name != name { assert Among(m, o[k].name); }
    forall i | 0 <= i < |b| ensures b[i].name != name { assert m[i].name == b[i].name; }
  }

  lemma AppendNames(b: seq<UserMetric>, o: seq<UserMetric>, m: seq<UserMetric>, e: UserMetric)
    requires NamesAre(b, o, m) && !Among(m, e.name)
    ensures NamesAre(b, o + [e], m + [e])
  {
    var o', m' := o + [e], m + [e];
    NewIsNowhere(b, o, m, e.name);
    IndexAppend(o, e, e.name);
    forall j | |b| <= j < |m'| ensures !Among(b, m'[j].name) && Among(o', m'[j].name) {
      if j < |m| { NamesWithMore(b, o, m, e, j); }
    }
    forall j, k | |b| <= j < k < |m'| ensures FirstNamed(o', m'[j].name, m'[k].name) {
      NamesWithMore(b, o, m, e, j);
      if k < |m| {
        assert FirstNamed(o, m[j].name, m[k].name);
        NamesWithMore(b, o, m, e, k);
      }
    }
    forall k | 0 <= k < |o'| ensures Among(m', o'[k].name) {
      IndexAppend(m, e, o'[k].name);
      if k < |o| { assert Among(m, o[k].name); }
    }
  }

  ghost predicate NotNamed(o: seq<UserMetric>, name: string) {
    forall k :: 0 <= k < |o| ==> o[k].name != name
  }

  lemma NewFields(o: seq<UserMetric>, e: UserMetric)
    requires NotNamed(o, e.name)
    ensures FieldsAre(UserMetric(e.name, "", None, None, ""), o + [e], e)
  {
    var start := UserMetric(e.name, "", None, None, "");
    assert FieldsAre(start, o, start);
    FieldsNext(start, o, start, e);
  }

  lemma AppendLeaves(b: seq<UserMetric>, o: seq<UserMetric>, m: seq<UserMetric>, e: UserMetric)
    requires UserLeaves(b, o, m) && IndexOfMetric(m, e.name) == |m|
    ensures UserLeaves(b, o + [e], m + [e])
  {
    var o', m' := o + [e], m + [e];
    AppendNames(b, o, m, e);
    NewIsNowhere(b, o, m, e.name);
    forall i | 0 <= i < |m'| ensures MetricIs(b, o', m', i) {
      IndexAppend(m, e, m'[i].name);
      if i < |m| {
        assert MetricIs(b, o, m, i) && m[i].name != e.name;
        if IndexOfMetric(m, m[i].name) == i { FieldsNext(StartOf(b, i, m[i].name), o, m[i], e); }
      } else {
        NewFields(o, e);
      }
    }
  }

  lemma {:induction false} MergeOneMore(b: seq<UserMetric>, o: seq<UserMetric>, e: UserMetric)
    ensures MergeUserMetrics(b, o + [e]) == MergeUserMetric(MergeUserMetrics(b, o), e)
    decreases |o|
  {
    if o == [] {
      assert o + [e] == [e] && [e][1..] == [];
    } else {
      assert (o + [e])[0] == o[0] && (o + [e])[1..] == o[1..] + [e];
      MergeOneMore(MergeUserMetric(b, o[0]), o[1..], e);
    }
  }

  lemma {:induction false} UserMetricsLeaves(b: seq<UserMetric>, o: seq<UserMetric>)
    ensures UserLeaves(b, o, MergeUserMetrics(b, o))
    decreases |o|
  {
    if o == [] {
      forall i | 0 <= i < |b| ensures MetricIs(b, o, b, i) {}
    } else {
      var p, e := o[..|o| - 1], o[|o| - 1];
      assert o == p + [e];
      var m := MergeUserMetrics(b, p);
      UserMetricsLeaves(b, p);
      MergeOneMore(b, p, e);
      var q := IndexOfMetric(m, e.name);
      if q < |m| { UpdateLeaves(b, p, m, e, q); } else { AppendLeaves(b, p, m, e); }
    }
  }

  lemma SectionsAreLeaves(b: Metrics, o: Metrics)
    ensures SectionLeaves(b, o, DeepMerge(b, o))
  {
  }

  // For every leaf of every section, every key and every user metric: the merged value is
  // the overlay's where the overlay sets it, and the baseline's where it does not.
  lemma DeepMergeLeaves(b: Metrics, o: Metrics)
    ensures MergedLeaves(b, o, DeepMerge(b, o))
  {
    var m := DeepMerge(b, o);
    SectionsAreLeaves(b, o);
    UserMetricsLeaves(b.userMetrics, o.userMetrics);
    CollectionIsLeaves(b.collection, o.collection);
    assert m.collection == MergeCollection(b.collection, o.collection);
    assert m.userMetrics == MergeUserMetrics(b.userMetrics, o.userMetrics);
  }

  lemma CollectionIsLeaves(b: map<string, CollectEmit>, o: map<string, CollectEmit>)
    ensures CollectionLeaves(b, o, MergeCollection(b, o))
  {
  }
}
