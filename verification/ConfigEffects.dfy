/**
 What one overlay pool does to a list of pools, in both modes, and what a whole overlay
 does to a configuration, field by field.
 */
module ConfigEffects {
  import opened Wrappers
  import opened ConfigModel
  import opened Merge
  import opened MergeEffects
  import opened Thinning
  import ConfigRoundTrip
  import MetricsLeaves

  // ----- Kept removals -----

  // A backend marker: the identity, and nothing but the mark.
  predicate IsMarker(m: Backend, name: Option<string>, address: string) {
    && m.name == name && m.address == address && m.remove == Some(true) && m.weight.None?
    && m.probeQname.None? && m.probeQtype.None? && m.probeSource.None? && m.transport.None?
  }

  // A removal that is kept for later: the entries it removes go, and a marker is appended.
  // It never fails for want of a target.
  lemma KeptRemovalEffect(pool: string, base: seq<Backend>, o: Backend)
    requires o.remove == Some(true) && (HasName(o) || o.address != "")
    ensures var r := MergeBackends(pool, base, [o], AccumulateOverlay);
            && r.Ok? && r.value != []
            && var rest, m := r.value[..|r.value| - 1], r.value[|r.value| - 1];
               if HasName(o) then
                 IsMarker(m, o.name, "") && Thinned(base, (b: Backend) => b.name == Some(o.name.value), rest)
               else
                 IsMarker(m, None, o.address) && Thinned(base, (b: Backend) => b.address == o.address, rest)
  {
    MergeOne(pool, base, o, AccumulateOverlay);
    var key := if HasName(o) then o.name.value else o.address;
    WithoutIsThinned(base, key);
    var r := MergeBackends(pool, base, [o], AccumulateOverlay).value;
    assert r[..|r| - 1] == if HasName(o) then WithoutName(base, key) else WithoutAddress(base, key);
  }

  // ----- Pools -----

  ghost predicate FirstPool(l: seq<Pool>, i: nat, name: string) {
    i < |l| && l[i].name == name && forall k :: 0 <= k < i ==> l[k].name != name
  }

  lemma {:induction false} WithoutPoolIsKept(l: seq<Pool>, name: string)
    ensures WithoutPool(l, name) == Kept(l, (p: Pool) => p.name == name)
  {
    if l != [] { WithoutPoolIsKept(l[1..], name); }
  }

  lemma WithoutPoolIsThinned(l: seq<Pool>, name: string)
    ensures Thinned(l, (p: Pool) => p.name == name, WithoutPool(l, name))
    ensures |WithoutPool(l, name)| == |l| <==> NoPool(l, name)
  {
    WithoutPoolIsKept(l, name);
    KeptIsThinned(l, (p: Pool) => p.name == name);
    NoneGone(l, (p: Pool) => p.name == name);
  }

  // A pool that is to go: every pool of that name goes. Applied, there must be one; kept
  // for later, a marker is appended.
  lemma PoolRemovalEffect(base: seq<Pool>, o: Pool, mode: Mode)
    requires o.remove == Some(true)
    ensures var r := MergePools(base, [o], mode);
            if o.name == "" then r == Err(PoolRemoveNeedsName)
            else if mode.ApplyToBaseline? then
              if NoPool(base, o.name) then r == Err(RemoveUnknownPool(o.name))
              else r.Ok? && Thinned(base, (p: Pool) => p.name == o.name, r.value)
            else
              && r.Ok? && r.value != [] && r.value[|r.value| - 1] == Pool(o.name, [], [], [], None, None, Some(true))
              && Thinned(base, (p: Pool) => p.name == o.name, r.value[..|r.value| - 1])
  {
    ConfigRoundTrip.MergeOnePool(base, o, mode);
    WithoutPoolIsThinned(base, o.name);
    var r := MergePools(base, [o], mode);
    if o.name != "" && mode.AccumulateOverlay? { assert r.value[..|r.value| - 1] == WithoutPool(base, o.name); }
  }

  // The same pool with other backends, and not marked.
  predicate OtherBackends(p: Pool, bs: seq<Backend>, r: Pool) {
    && r.name == p.name && r.backends == bs && r.sourcesV4 == p.sourcesV4 && r.sourcesV6 == p.sourcesV6
    && r.maxInflight == p.maxInflight && r.health == p.health && r.remove.None?
  }

  // A pool that exists takes the overlay's backends, under its own name, and nothing else
  // of it; what they are refused for, the overlay is.
  lemma KnownPoolEffect(base: seq<Pool>, o: Pool, mode: Mode, i: nat)
    requires o.remove != Some(true) && FirstPool(base, i, o.name)
    ensures var r, bs := MergePools(base, [o], mode), MergeBackends(o.name, base[i].backends, o.backends, mode);
            && (bs.Err? ==> r == Err(bs.error))
            && (bs.Ok? ==>
                  && r.Ok? && |r.value| == |base| && OtherBackends(base[i], bs.value, r.value[i])
                  && forall k :: 0 <= k < |base| && k != i ==> r.value[k] == base[k])
  {
    ConfigRoundTrip.MergeOnePool(base, o, mode);
  }

  // A new pool is appended as it is; applied, its backends lose their marks.
  lemma NewPoolEffect(base: seq<Pool>, o: Pool, mode: Mode)
    requires o.remove != Some(true) && NoPool(base, o.name)
    ensures var r := MergePools(base, [o], mode);
            && r.Ok? && |r.value| == |base| + 1 && r.value[..|base|] == base
            && OtherBackends(o, r.value[|base|].backends, r.value[|base|])
            && var bs := r.value[|base|].backends;
               if mode.ApplyToBaseline? then
                 |bs| == |o.backends| && forall k :: 0 <= k < |bs| ==> Unmarked(o.backends[k], bs[k])
               else bs == o.backends
  {
    ConfigRoundTrip.MergeOnePool(base, o, mode);
  }

  // ----- Whole configurations -----

  ghost predicate SectionsMerged(b: map<Section, string>, o: map<Section, string>, m: map<Section, string>) {
    && m.Keys == b.Keys + o.Keys
    && forall s :: s in m ==> m[s] == if s in o then o[s] else b[s]
  }

  // An overlay is refused for its pools only. Otherwise its schema version is taken, its
  // sections and its lists replace, its metrics are merged leaf by leaf, and what only a
  // file can have stays.
  lemma OverlayEffect(base: Config, o: Config, mode: Mode)
    ensures var r, pools := MergeConfigs(base, o, mode), MergePools(base.pools, o.pools, mode);
            && (pools.Err? ==> r == Err(pools.error))
            && (pools.Ok? ==>
                  && r.Ok? && r.value.pools == pools.value
                  && r.value.schemaVersion == o.schemaVersion
                  && r.value.rules == base.rules && r.value.tracing == base.tracing
                  && SectionsMerged(base.sections, o.sections, r.value.sections)
                  && r.value.dataSources == (if o.dataSources == [] then base.dataSources else o.dataSources)
                  && r.value.caches == (if o.caches == [] then base.caches else o.caches)
                  && (o.metrics.None? ==> r.value.metrics == base.metrics)
                  && (o.metrics.Some? ==>
                        && r.value.metrics.Some?
                        && MetricsLeaves.MergedLeaves(
                             if base.metrics.Some? then base.metrics.value else DEFAULT_METRICS, o.metrics.value,
                             r.value.metrics.value)))
  {
    if o.metrics.Some? {
      MetricsLeaves.DeepMergeLeaves(base.metrics.UnwrapOr(DEFAULT_METRICS), o.metrics.value);
    }
  }
}
