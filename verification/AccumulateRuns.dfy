/** Whole runs of merge-mode applies: one accumulated overlay against patch-by-patch application. */
module AccumulateRuns {
  import opened Wrappers
  import opened ConfigModel
  import opened Merge
  import opened MetricsSynthesis
  import opened AccumulateBackends
  import opened AccumulatePools
  import ConfigRoundTrip
  import MetricsMerge

  type Configs = Result<Config, ConfigError>

  function ApplyAll(c: Config, patches: seq<Config>): Configs
    decreases |patches|
  {
    if patches == [] then Ok(c)
    else
      match MergeConfigs(c, patches[0], ApplyToBaseline)
      case Ok(next) => ApplyAll(next, patches[1..])
      case Err(e) => Err(e)
  }

  function AccumulateAll(acc: Config, patches: seq<Config>): Configs
    decreases |patches|
  {
    if patches == [] then Ok(acc)
    else
      match MergeConfigs(acc, patches[0], AccumulateOverlay)
      case Ok(next) => AccumulateAll(next, patches[1..])
      case Err(e) => Err(e)
  }

  ghost predicate DistinctUserMetrics(c: Config) {
    c.metrics.Some? ==> MetricsMerge.DistinctMetricNames(c.metrics.value.userMetrics)
  }

  // Name-keyed, each identity once, removals only of file members.
  ghost predicate PatchFitsFile(kinds: Kinds, file: Config, patch: Config) {
    PoolsPatchFits(kinds, file.pools, patch.pools) && DistinctUserMetrics(patch)
  }

  // What an earlier patch removes, a later one does not mention.
  ghost predicate RemovedStaysRemoved(kinds: Kinds, patches: seq<Config>) {
    forall i, j :: 0 <= i < j < |patches| ==> AllUndisturbed(kinds, patches[i].pools, patches[j].pools)
  }

  ghost predicate ConfigsMatch(kinds: Kinds, file: Config, acc: Config, eff: Config) {
    && PoolsMatch(kinds, file.pools, acc.pools, eff.pools)
    && DistinctUserMetrics(acc)
    && MergeConfigs(file, acc, ApplyToBaseline) == Ok(eff)
  }

  lemma MetricsNeutral(base: Metrics)
    ensures MetricsMerge.DeepMerge(base, DEFAULT_METRICS) == base
  {
    assert MetricsMerge.MergeCollection(base.collection, map[]) == base.collection;
  }

  lemma MetricsSectionAssociates(a: Option<Metrics>, b: Option<Metrics>, c: Option<Metrics>)
    requires b.Some? ==> MetricsMerge.DistinctMetricNames(b.value.userMetrics)
    ensures MergeMetricsSection(MergeMetricsSection(a, b), c) == MergeMetricsSection(a, MergeMetricsSection(b, c))
  {
    if c.Some? {
      var x, y := a.UnwrapOr(DEFAULT_METRICS), b.UnwrapOr(DEFAULT_METRICS);
      MetricsMerge.DeepMergeAssociates(x, y, c.value);
      MetricsNeutral(x);
    }
  }

  lemma MergedUserMetricsDistinct(b: Option<Metrics>, c: Option<Metrics>)
    requires b.Some? ==> MetricsMerge.DistinctMetricNames(b.value.userMetrics)
    ensures var m := MergeMetricsSection(b, c); m.Some? ==> MetricsMerge.DistinctMetricNames(m.value.userMetrics)
  {
    if c.Some? {
      MetricsMerge.UserMetricsAssociate([], b.UnwrapOr(DEFAULT_METRICS).userMetrics, c.value.userMetrics);
    }
  }

  lemma AccumulateStep(kinds: Kinds, file: Config, acc: Config, eff: Config, patch: Config, acc': Config, eff': Config)
    requires ConfigsMatch(kinds, file, acc, eff)
    requires PatchFitsFile(kinds, file, patch) && AllUndisturbed(kinds, acc.pools, patch.pools)
    requires MergeConfigs(eff, patch, ApplyToBaseline) == Ok(eff')
    requires MergeConfigs(acc, patch, AccumulateOverlay) == Ok(acc')
    ensures ConfigsMatch(kinds, file, acc', eff')
  {
    AccumulatePoolsPatch(kinds, file.pools, acc.pools, eff.pools, patch.pools, acc'.pools, eff'.pools);
    MetricsSectionAssociates(file.metrics, acc.metrics, patch.metrics);
    MergedUserMetricsDistinct(acc.metrics, patch.metrics);
    MetricsMerge.MapMergeAssociates(file.sections, acc.sections, patch.sections);
  }

  // A patch that the server accepts applies to the effective configuration.
  lemma AcceptedStepApplies(kinds: Kinds, file: Config, acc: Config, eff: Config, patch: Config, acc': Config)
    requires DistinctPoolNames(file.pools) && ConfigsMatch(kinds, file, acc, eff)
    requires PatchFitsFile(kinds, file, patch) && AllUndisturbed(kinds, acc.pools, patch.pools)
    requires MergeConfigs(acc, patch, AccumulateOverlay) == Ok(acc') && MergeConfigs(file, acc', ApplyToBaseline).Ok?
    ensures MergeConfigs(eff, patch, ApplyToBaseline).Ok?
  {
    AcceptedPatchApplies(kinds, file.pools, acc.pools, eff.pools, patch.pools, acc'.pools);
  }

  // Later patches are still undisturbed once the first one is folded in.
  lemma LaterUndisturbed(kinds: Kinds, file: Config, acc: Config, patches: seq<Config>, acc': Config)
    requires patches != [] && AccOk(kinds, file.pools, acc.pools)
    requires forall j :: 0 <= j < |patches| ==> PatchFitsFile(kinds, file, patches[j])
    requires forall j :: 0 <= j < |patches| ==> AllUndisturbed(kinds, acc.pools, patches[j].pools)
    requires RemovedStaysRemoved(kinds, patches) && MergeConfigs(acc, patches[0], AccumulateOverlay) == Ok(acc')
    ensures forall j :: 1 <= j < |patches| ==> AllUndisturbed(kinds, acc'.pools, patches[j].pools)
  {
    var p := patches[0];
    assert PatchFitsFile(kinds, file, p) && AllUndisturbed(kinds, acc.pools, p.pools);
    forall j | 1 <= j < |patches| ensures AllUndisturbed(kinds, acc'.pools, patches[j].pools) {
      var q := patches[j].pools;
      assert AllUndisturbed(kinds, acc.pools, q) && AllUndisturbed(kinds, p.pools, q);
      forall k | 0 <= k < |q| ensures Undisturbed(kinds, acc'.pools, q[k]) {
        UndisturbedAfterPatch(kinds, file.pools, acc.pools, p.pools, acc'.pools, q[k]);
      }
    }
  }

  lemma {:induction false} AccumulateFrom(kinds: Kinds, file: Config, acc: Config, eff: Config, patches: seq<Config>,
                                          acc': Config, eff': Config)
    requires ConfigsMatch(kinds, file, acc, eff)
    requires forall j :: 0 <= j < |patches| ==> PatchFitsFile(kinds, file, patches[j])
    requires forall j :: 0 <= j < |patches| ==> AllUndisturbed(kinds, acc.pools, patches[j].pools)
    requires RemovedStaysRemoved(kinds, patches)
    requires ApplyAll(eff, patches) == Ok(eff') && AccumulateAll(acc, patches) == Ok(acc')
    ensures ConfigsMatch(kinds, file, acc', eff')
    decreases |patches|
  {
    if patches != [] {
      var p, t := patches[0], patches[1..];
      var acc1, eff1 := MergeConfigs(acc, p, AccumulateOverlay).value, MergeConfigs(eff, p, ApplyToBaseline).value;
      assert PatchFitsFile(kinds, file, p) && AllUndisturbed(kinds, acc.pools, p.pools);
      AccumulateStep(kinds, file, acc, eff, p, acc1, eff1);
      LaterUndisturbed(kinds, file, acc, patches, acc1);
      assert forall j :: 0 <= j < |t| ==> t[j] == patches[j + 1];
      AccumulateFrom(kinds, file, acc1, eff1, t, acc', eff');
    }
  }

  // For every run of merge-mode applies: the effective configuration computed from the
  // accumulated overlay is the one that applying every patch in turn would give.
  lemma AccumulationAgrees(kinds: Kinds, file: Config, patches: seq<Config>, acc: Config, eff: Config)
    requires patches != []
    requires forall j :: 0 <= j < |patches| ==> PatchFitsFile(kinds, file, patches[j])
    requires RemovedStaysRemoved(kinds, patches)
    requires AccumulateAll(patches[0], patches[1..]) == Ok(acc)
    requires ApplyAll(file, patches) == Ok(eff)
    ensures MergeConfigs(file, acc, ApplyToBaseline) == Ok(eff)
  {
    var p, t := patches[0], patches[1..];
    var eff0 := MergeConfigs(file, p, ApplyToBaseline).value;
    assert PatchFitsFile(kinds, file, p);
    assert forall j :: 0 <= j < |t| ==> t[j] == patches[j + 1];
    assert ConfigsMatch(kinds, file, p, eff0);
    AccumulateFrom(kinds, file, p, eff0, t, acc, eff);
  }

  // ----- Where accumulation is not defined -----

  function PoolPatch(version: nat, pool: string, b: Backend): Config {
    EmptyConfig(version).(pools := [DEFAULT_POOL.(name := pool, backends := [b])])
  }

  lemma PoolPatchApplies(c: Config, i: nat, version: nat, b: Backend)
    requires i < |c.pools| && IndexOfPool(c.pools, c.pools[i].name) == i
    ensures var bs := MergeBackend(c.pools[i].name, c.pools[i].backends, b, ApplyToBaseline);
            var r := MergeConfigs(c, PoolPatch(version, c.pools[i].name, b), ApplyToBaseline);
            && (r.Ok? <==> bs.Ok?)
            && (r.Ok? ==> r.value.pools == c.pools[i := c.pools[i].(backends := bs.value, remove := None)])
  {
    MergeOne(c.pools[i].name, c.pools[i].backends, b, ApplyToBaseline);
    ConfigRoundTrip.MergeOnePool(c.pools, PoolPatch(version, c.pools[i].name, b).pools[0], ApplyToBaseline);
  }

  lemma PoolPatchAccumulates(version: nat, pool: string, a: Backend, b: Backend)
    ensures MergeConfigs(PoolPatch(version, pool, a), PoolPatch(version, pool, b), AccumulateOverlay).Ok?
            <==> MergeBackends(pool, [a], [b], AccumulateOverlay).Ok?
  {
    var p, q := PoolPatch(version, pool, a).pools, PoolPatch(version, pool, b).pools;
    assert IndexOfPool(p, pool) == 0;
    ConfigRoundTrip.MergeOnePool(p, q[0], AccumulateOverlay);
  }

  lemma ApplyTwo(c: Config, p: Config, next: Config, q: Config)
    requires MergeConfigs(c, p, ApplyToBaseline) == Ok(next)
    ensures ApplyAll(c, [p, q]) == MergeConfigs(next, q, ApplyToBaseline)
  {
    assert [p, q][1..] == [q] && [q][1..] == [];
    assert ApplyAll(c, [p, q]) == ApplyAll(next, [q]);
    var r := MergeConfigs(next, q, ApplyToBaseline);
    if r.Ok? { assert ApplyAll(r.value, []) == r; }
  }

  // Two patches, each an update by name alone of one of two backends of a file pool:
  // applying them in turn succeeds, accumulating the second onto the first is refused.
  lemma NameOnlyPatchesDiverge(file: Config, i: nat, version: nat, a: Backend, b: Backend)
    requires i < |file.pools| && IndexOfPool(file.pools, file.pools[i].name) == i
    requires HasName(a) && HasName(b) && a.name != b.name && a.address == b.address == ""
    requires !IsRemoval(a) && !IsRemoval(b)
    requires Holds(ByName, file.pools[i].backends, a.name.value) && Holds(ByName, file.pools[i].backends, b.name.value)
    ensures var name := file.pools[i].name;
            var p, q := PoolPatch(version, name, a), PoolPatch(version, name, b);
            ApplyAll(file, [p, q]).Ok? && MergeConfigs(p, q, AccumulateOverlay).Err?
  {
    var name, bs := file.pools[i].name, file.pools[i].backends;
    var p, q := PoolPatch(version, name, a), PoolPatch(version, name, b);
    NameOnlyUpdatesDiverge(name, bs, a, b);
    MergeBackendsSplit(name, bs, [a], [b], ApplyToBaseline);
    MergeOne(name, bs, a, ApplyToBaseline);
    PoolPatchApplies(file, i, version, a);
    var next := MergeConfigs(file, p, ApplyToBaseline).value;
    PoolIndexStays(file.pools, i, next.pools[i]);
    MergeOne(name, next.pools[i].backends, b, ApplyToBaseline);
    PoolPatchApplies(next, i, version, b);
    ApplyTwo(file, p, next, q);
    PoolPatchAccumulates(version, name, a, b);
  }

  lemma {:induction false} PoolIndexStays(l: seq<Pool>, i: nat, p: Pool)
    requires i < |l| && IndexOfPool(l, l[i].name) == i && p.name == l[i].name
    ensures IndexOfPool(l[i := p], p.name) == i
  {
    if i > 0 {
      assert l[i := p][1..] == l[1..][i - 1 := p];
      PoolIndexStays(l[1..], i - 1, p);
    }
  }
}
