/**
 What synthesis puts into a patch: exactly what differs from the file, in the file's order
 and then what is new.
 */
module SparsePatches {
  import opened Wrappers
  import opened ConfigModel
  import opened Merge
  import opened MergeEffects
  import opened ConfigEffects
  import opened MetricsMerge
  import opened MetricsSynthesis
  import opened Synthesize
  import opened Thinning

  // A setting is in the patch exactly when it differs from the file's, and then as desired.
  predicate Sparse<T(==)>(file: T, desired: T, unset: T, patch: T) {
    if desired == file then patch == unset else patch == desired
  }

  ghost predicate SparseMap<K(!new), V>(file: map<K, V>, desired: map<K, V>, patch: map<K, V>) {
    && (forall k :: k in patch <==> k in desired && !(k in file && file[k] == desired[k]))
    && (forall k :: k in patch ==> patch[k] == desired[k])
  }

  // ----- Metrics -----

  // The file's first metric of that name is the same.
  predicate SameMetric(file: seq<UserMetric>, m: UserMetric) {
    exists i :: 0 <= i < |file| && file[i] == m && forall k :: 0 <= k < i ==> file[k].name != m.name
  }

  lemma {:induction false} UserDeltaIsKept(file: seq<UserMetric>, desired: seq<UserMetric>)
    ensures UserMetricsDelta(file, desired) == Kept(desired, (m: UserMetric) => SameMetric(file, m))
  {
    if desired != [] {
      UserDeltaIsKept(file, desired[1..]);
      var i := IndexOfMetric(file, desired[0].name);
      if SameMetric(file, desired[0]) {
        var k :| 0 <= k < |file| && file[k] == desired[0] && forall j :: 0 <= j < k ==> file[j].name != desired[0].name;
        assert i == k;
      }
    }
  }

  ghost predicate SparseMetrics(file: Metrics, desired: Metrics, patch: Metrics) {
    && Sparse(file.enabled, desired.enabled, None, patch.enabled)
    && Sparse(file.profile, desired.profile, "", patch.profile)
    && Sparse(file.base, desired.base, "", patch.base)
    && Sparse(file.prometheus, desired.prometheus, None, patch.prometheus)
    && Sparse(file.otel, desired.otel, None, patch.otel)
    && Sparse(file.eventExport, desired.eventExport, None, patch.eventExport)
    && Sparse(file.categories, desired.categories, None, patch.categories)
    && Sparse(file.granularity, desired.granularity, None, patch.granularity)
    && SparseMap(file.collection, desired.collection, patch.collection)
    && Thinned(desired.userMetrics, (m: UserMetric) => SameMetric(file.userMetrics, m), patch.userMetrics)
  }

  // The metrics patch holds exactly what differs, family by family.
  lemma MetricsPatchIsSparse(file: Option<Metrics>, desired: Option<Metrics>)
    ensures var patch := SynthesizeMetrics(file, desired);
            && (patch.None? <==> desired.None? || desired == file)
            && (patch.Some? && file.None? ==> patch == desired)
            && (patch.Some? && file.Some? ==> SparseMetrics(file.value, desired.value, patch.value))
  {
    if file.Some? && desired.Some? {
      UserDeltaIsKept(file.value.userMetrics, desired.value.userMetrics);
      KeptIsThinned(desired.value.userMetrics, (m: UserMetric) => SameMetric(file.value.userMetrics, m));
    }
  }

  // ----- Matching backends -----

  // Backend `i` stands for `b`: the first of its name, or if there is none the first at
  // its address.
  ghost predicate Match(l: seq<Backend>, b: Backend, i: nat) {
    if HasName(b) && !NoName(l, b.name.value) then FirstNamed(l, i, b.name.value)
    else b.address != "" && FirstAt(l, i, b.address)
  }

  ghost predicate Unmatched(l: seq<Backend>, b: Backend) {
    (HasName(b) ==> NoName(l, b.name.value)) && (b.address != "" ==> NoAddress(l, b.address))
  }

  lemma FindMatches(l: seq<Backend>, b: Backend)
    ensures var i := FindBackend(l, b); if i < |l| then Match(l, b, i) else Unmatched(l, b)
  {
  }

  // ----- One file backend -----

  // The entry's identity: the desired name or the desired address, or where there is
  // neither the file's.
  predicate SparseBackend(f: Backend, d: Backend, patch: Backend) {
    && Sparse(f.weight, d.weight, None, patch.weight)
    && Sparse(f.probeQname, d.probeQname, None, patch.probeQname)
    && Sparse(f.probeQtype, d.probeQtype, None, patch.probeQtype)
    && Sparse(f.probeSource, d.probeSource, None, patch.probeSource)
    && Sparse(f.transport, d.transport, None, patch.transport)
    && patch.remove.None?
    && patch.name == (if d.name != f.name || HasName(d) then d.name
                      else if d.address == "" && HasName(f) then f.name else None)
    && patch.address == (if d.address != "" then if d.address != f.address || !HasName(d) then d.address else ""
                         else if HasName(d) || HasName(f) then "" else f.address)
  }

  // Nothing differs that a patch could say.
  predicate SameBackend(f: Backend, d: Backend) {
    && (d.address == f.address || d.address == "") && d.name == f.name && d.weight == f.weight
    && d.probeQname == f.probeQname && d.probeQtype == f.probeQtype && d.probeSource == f.probeSource
    && d.transport == f.transport
  }

  lemma DeltaIsSparse(f: Backend, d: Backend)
    ensures BackendDelta(f, d).None? <==> SameBackend(f, d)
    ensures BackendDelta(f, d).Some? ==> SparseBackend(f, d, BackendDelta(f, d).value)
  {
  }

  // What one file backend contributes.
  ghost predicate Contributes(f: Backend, desired: seq<Backend>, es: seq<Backend>) {
    if Unmatched(desired, f) then
      |es| == 1 && IsMarker(es[0], if HasName(f) then f.name else None, if HasName(f) then "" else f.address)
    else
      exists i: nat :: Match(desired, f, i) && i < |desired| &&
        if SameBackend(f, desired[i]) then es == [] else |es| == 1 && SparseBackend(f, desired[i], es[0])
  }

  lemma EntryContributes(f: Backend, desired: seq<Backend>)
    ensures Contributes(f, desired, FileEntry(f, desired))
  {
    FindMatches(desired, f);
    var i := FindBackend(desired, f);
    if i < |desired| {
      DeltaIsSparse(f, desired[i]);
      assert !Unmatched(desired, f);
    }
  }

  function Flat<T>(parts: seq<seq<T>>): seq<T> {
    if parts == [] then [] else parts[0] + Flat(parts[1..])
  }

  lemma {:induction false} EntriesContribute(file: seq<Backend>, desired: seq<Backend>)
    returns (parts: seq<seq<Backend>>)
    ensures |parts| == |file| && Flat(parts) == FileEntries(file, desired)
    ensures forall i :: 0 <= i < |file| ==> Contributes(file[i], desired, parts[i])
  {
    if file == [] { return []; }
    var rest := EntriesContribute(file[1..], desired);
    EntryContributes(file[0], desired);
    parts := [FileEntry(file[0], desired)] + rest;
    assert parts[1..] == rest;
  }

  // ----- New backends -----

  ghost predicate AllUnmarked(l: seq<Backend>, r: seq<Backend>) {
    |r| == |l| && forall i :: 0 <= i < |l| ==> Unmarked(l[i], r[i])
  }

  lemma UnmarkedMore(l: seq<Backend>, r: seq<Backend>, b: Backend, c: Backend)
    requires AllUnmarked(l, r) && Unmarked(b, c)
    ensures AllUnmarked([b] + l, [c] + r)
  {
  }

  lemma {:induction false} AdditionsAre(file: seq<Backend>, desired: seq<Backend>, matched: Backend -> bool)
    requires forall b :: matched(b) <==> FindBackend(file, b) < |file|
    ensures AllUnmarked(Kept(desired, matched), Additions(file, desired))
  {
    if desired != [] {
      var b, rest := desired[0], desired[1..];
      AdditionsAre(file, rest, matched);
      if matched(b) {
        assert Kept(desired, matched) == Kept(rest, matched);
      } else {
        UnmarkedMore(Kept(rest, matched), Additions(file, rest), b, b.(remove := None));
      }
    }
  }

  // A pool's patch: what each file backend contributes, in the file's order, and then the
  // desired backends that no file backend stands for, in theirs.
  lemma BackendPatchIsSparse(file: seq<Backend>, desired: seq<Backend>)
    returns (parts: seq<seq<Backend>>, added: seq<Backend>, patch: seq<Backend>)
    ensures |parts| == |file| && forall i :: 0 <= i < |file| ==> Contributes(file[i], desired, parts[i])
    ensures Thinned(desired, (b: Backend) => FindBackend(file, b) < |file|, added) && AllUnmarked(added, patch)
    ensures SynthesizeBackends(file, desired) == Flat(parts) + patch
  {
    parts := EntriesContribute(file, desired);
    var matched := (b: Backend) => FindBackend(file, b) < |file|;
    added, patch := Kept(desired, matched), Additions(file, desired);
    KeptIsThinned(desired, matched);
    AdditionsAre(file, desired, matched);
  }

  // ----- Pools -----

  // What one file pool contributes: a marker if it is to go, and otherwise its name with
  // what its backends need, if they need anything.
  ghost predicate PoolContributes(f: Pool, desired: seq<Pool>, es: seq<Pool>) {
    if NoPool(desired, f.name) then es == [Pool(f.name, [], [], [], None, None, Some(true))]
    else
      exists i: nat :: FirstPool(desired, i, f.name) && i < |desired| &&
        var bs := SynthesizeBackends(f.backends, desired[i].backends);
        if bs == [] then es == [] else es == [Pool(f.name, bs, [], [], None, None, None)]
  }

  lemma PoolEntryContributes(f: Pool, desired: seq<Pool>)
    ensures PoolContributes(f, desired, FilePool(f, desired))
  {
    var i := IndexOfPool(desired, f.name);
    if i < |desired| { assert FirstPool(desired, i, f.name); }
  }

  lemma {:induction false} PoolsContribute(file: seq<Pool>, desired: seq<Pool>) returns (parts: seq<seq<Pool>>)
    ensures |parts| == |file| && Flat(parts) == FilePools(file, desired)
    ensures forall i :: 0 <= i < |file| ==> PoolContributes(file[i], desired, parts[i])
  {
    if file == [] { return []; }
    var rest := PoolsContribute(file[1..], desired);
    PoolEntryContributes(file[0], desired);
    parts := [FilePool(file[0], desired)] + rest;
    assert parts[1..] == rest;
  }

  ghost predicate AllCleared(l: seq<Pool>, r: seq<Pool>) {
    |r| == |l| && forall i :: 0 <= i < |l| ==>
      OtherBackends(l[i], r[i].backends, r[i]) && AllUnmarked(l[i].backends, r[i].backends)
  }

  predicate Named(l: seq<Pool>, name: string) {
    exists i :: 0 <= i < |l| && l[i].name == name
  }

  lemma ClearedMore(l: seq<Pool>, r: seq<Pool>, p: Pool)
    requires AllCleared(l, r)
    ensures AllCleared([p] + l, [p.(remove := None, backends := ClearMarkers(p.backends))] + r)
  {
  }

  lemma {:induction false} NewPoolsAre(file: seq<Pool>, desired: seq<Pool>, known: Pool -> bool)
    requires forall p :: known(p) <==> Named(file, p.name)
    ensures AllCleared(Kept(desired, known), NewPools(file, desired))
  {
    if desired != [] {
      var p, rest := desired[0], desired[1..];
      NewPoolsAre(file, rest, known);
      assert known(p) <==> IndexOfPool(file, p.name) < |file|;
      if known(p) {
        assert Kept(desired, known) == Kept(rest, known);
      } else {
        ClearedMore(Kept(rest, known), NewPools(file, rest), p);
      }
    }
  }

  lemma PoolPatchIsSparse(file: seq<Pool>, desired: seq<Pool>)
    returns (parts: seq<seq<Pool>>, added: seq<Pool>, patch: seq<Pool>)
    ensures |parts| == |file| && forall i :: 0 <= i < |file| ==> PoolContributes(file[i], desired, parts[i])
    ensures Thinned(desired, (p: Pool) => Named(file, p.name), added) && AllCleared(added, patch)
    ensures SynthesizePools(file, desired) == Flat(parts) + patch
  {
    parts := PoolsContribute(file, desired);
    var known := (p: Pool) => Named(file, p.name);
    added, patch := Kept(desired, known), NewPools(file, desired);
    KeptIsThinned(desired, known);
    NewPoolsAre(file, desired, known);
  }

  // ----- Whole configurations -----

  // Synthesis fails exactly when a list is to be emptied, the data sources being looked at
  // first. Otherwise the patch holds what differs, and nothing that only a file can have.
  lemma OverlayIsSparse(file: Config, desired: Config)
    ensures var r := SynthesizeOverlay(file, desired);
            if file.dataSources != [] && desired.dataSources == [] then r == Err(CannotClearDataSources)
            else if file.caches != [] && desired.caches == [] then r == Err(CannotClearCaches)
            else
              && r.Ok? && r.value.schemaVersion == desired.schemaVersion
              && r.value.rules.None? && r.value.tracing.None?
              && SparseMap(file.sections, desired.sections, r.value.sections)
              && Sparse(file.dataSources, desired.dataSources, [], r.value.dataSources)
              && Sparse(file.caches, desired.caches, [], r.value.caches)
              && r.value.metrics == SynthesizeMetrics(file.metrics, desired.metrics)
              && r.value.pools == SynthesizePools(file.pools, desired.pools)
  {
  }
}
