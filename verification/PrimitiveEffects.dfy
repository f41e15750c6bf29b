/**
 What each proposal does to the effective configuration, said without the functions that
 compute it: the typed mutations, a reload, and the three ways to apply an overlay.
 */
module PrimitiveEffects {
  import opened Wrappers
  import opened ConfigModel
  import opened Merge
  import opened Thinning
  import opened ConfigRoundTrip
  import opened Configurator
  import opened Faithfulness
  import MergeEffects
  import MetricsLeaves

  // ----- Data sources and caches -----

  ghost predicate NoNamed(l: seq<Named>, name: string) {
    forall i :: 0 <= i < |l| ==> l[i].name != name
  }

  ghost predicate FirstAt(l: seq<Named>, i: nat, name: string) {
    i < |l| && l[i].name == name && forall k :: 0 <= k < i ==> l[k].name != name
  }

  // Exactly the first entry of that name is replaced.
  ghost predicate Replaced(l: seq<Named>, x: Named, r: seq<Named>) {
    exists i: nat :: FirstAt(l, i, x.name) && ReplacedAt(l, i, x, r)
  }

  ghost predicate ReplacedAt(l: seq<Named>, i: nat, x: Named, r: seq<Named>) {
    i < |l| && |r| == |l| && r[i] == x && forall k :: 0 <= k < |l| && k != i ==> r[k] == l[k]
  }

  ghost predicate Appended(l: seq<Named>, x: Named, r: seq<Named>) {
    |r| == |l| + 1 && r[|l|] == x && forall k :: 0 <= k < |l| ==> r[k] == l[k]
  }

  // ----- Pools and backends -----

  ghost predicate PoolAt(c: Config, i: nat, name: string) {
    i < |c.pools| && c.pools[i].name == name && forall k :: 0 <= k < i ==> c.pools[k].name != name
  }

  // The backend of that name, or else the one at that address; the first if there are more.
  ghost predicate BackendAt(bs: seq<Backend>, k: nat, id: string) {
    || MergeEffects.FirstNamed(bs, k, id)
    || (NoName(bs, id) && MergeEffects.FirstAt(bs, k, id))
  }

  // Nothing but the backends of pool `i` has changed.
  ghost predicate OnlyBackends(before: Config, after: Config, i: nat) {
    && i < |before.pools| && |after.pools| == |before.pools| && after == before.(pools := after.pools)
    && after.pools[i] == before.pools[i].(backends := after.pools[i].backends)
    && forall k :: 0 <= k < |before.pools| && k != i ==> after.pools[k] == before.pools[k]
  }

  ghost predicate Reweighed(bs: seq<Backend>, k: nat, weight: nat, r: seq<Backend>) {
    && k < |bs| && |r| == |bs| && r[k] == bs[k].(weight := Some(weight))
    && forall j :: 0 <= j < |bs| && j != k ==> r[j] == bs[j]
  }

  ghost predicate TakenOut(bs: seq<Backend>, k: nat, r: seq<Backend>) {
    && k < |bs| && |r| == |bs| - 1
    && forall j :: 0 <= j < |r| ==> r[j] == if j < k then bs[j] else bs[j + 1]
  }

  // Another backend of the pool has the same name or the same address.
  ghost predicate Clashes(bs: seq<Backend>, b: Backend) {
    exists k :: 0 <= k < |bs| &&
      ((HasName(b) && bs[k].name == b.name) || (b.address != "" && bs[k].address == b.address))
  }

  // ----- The effect of each primitive -----

  ghost predicate WeightEffect(before: Config, pool: string, id: string, weight: nat, after: Config) {
    exists i: nat, k: nat ::
      && PoolAt(before, i, pool) && OnlyBackends(before, after, i) && BackendAt(before.pools[i].backends, k, id)
      && Reweighed(before.pools[i].backends, k, weight, after.pools[i].backends)
  }

  ghost predicate DeletionEffect(before: Config, pool: string, id: string, after: Config) {
    exists i: nat, k: nat ::
      && PoolAt(before, i, pool) && OnlyBackends(before, after, i) && BackendAt(before.pools[i].backends, k, id)
      && TakenOut(before.pools[i].backends, k, after.pools[i].backends)
  }

  ghost predicate AdditionEffect(before: Config, pool: string, b: Backend, after: Config) {
    exists i: nat ::
      && PoolAt(before, i, pool) && OnlyBackends(before, after, i)
      && MergeEffects.AppendedTo(before.pools[i].backends, b, after.pools[i].backends)
  }

  ghost predicate SectionEffect(before: Config, section: Section, contents: string, after: Config) {
    && after == before.(sections := after.sections)
    && after.sections.Keys == before.sections.Keys + {section} && after.sections[section] == contents
    && forall s :: s in before.sections && s != section ==> after.sections[s] == before.sections[s]
  }

  ghost predicate Effect(before: Config, p: Primitive, after: Config) {
    match p
    case SetBackendWeight(pool, id, weight) => WeightEffect(before, pool, id, weight, after)
    case DeleteBackend(pool, id) => DeletionEffect(before, pool, id, after)
    case AddBackend(pool, b) => AdditionEffect(before, pool, b, after)
    case SetSection(section, contents) => SectionEffect(before, section, contents, after)
    case UpsertDataSource(source) =>
      && after == before.(dataSources := after.dataSources)
      && (if NoNamed(before.dataSources, source.name) then Appended(before.dataSources, source, after.dataSources)
          else Replaced(before.dataSources, source, after.dataSources))
    case RemoveDataSource(name) =>
      && after == before.(dataSources := after.dataSources)
      && Thinned(before.dataSources, (s: Named) => s.name == name, after.dataSources)
    case PatchMetrics(m) =>
      && after == before.(metrics := after.metrics) && after.metrics.Some?
      && MetricsLeaves.MergedLeaves(before.metrics.UnwrapOr(DEFAULT_METRICS), m, after.metrics.value)
    case UpdateCache(cache) =>
      after == before.(caches := after.caches) && Replaced(before.caches, cache, after.caches)
  }

  // ----- Refusals -----

  ghost predicate BackendRefused(bs: seq<Backend>, p: Primitive, e: Rejection) {
    match p
    case SetBackendWeight(_, id, _) => e == UnknownBackend && NoName(bs, id) && NoAddress(bs, id)
    case DeleteBackend(_, id) => e == UnknownBackend && NoName(bs, id) && NoAddress(bs, id)
    case AddBackend(_, b) =>
      if Clashes(bs, b) then e == BackendExists else e == AddressRequired && b.address == ""
    case _ => false
  }

  // A primitive is refused for this reason before anything is synthesized.
  ghost predicate Refused(before: Config, p: Primitive, e: Rejection) {
    match p
    case SetSection(_, _) => false
    case PatchMetrics(_) => false
    case UpsertDataSource(source) => e == NameRequired && source.name == ""
    case RemoveDataSource(name) =>
      if name == "" then e == NameRequired else e == UnknownDataSource && NoNamed(before.dataSources, name)
    case UpdateCache(cache) =>
      if cache.name == "" then e == NameRequired else e == UnknownCache && NoNamed(before.caches, cache.name)
    case _ =>
      || (e == UnknownPool && NoPool(before.pools, p.pool))
      || (exists i: nat :: PoolAt(before, i, p.pool) && BackendRefused(before.pools[i].backends, p, e))
  }

  // ----- What the mutations compute -----

  lemma {:induction false} NamedFound(l: seq<Named>, name: string)
    ensures var i := IndexOfNamed(l, name); if i < |l| then FirstAt(l, i, name) else NoNamed(l, name)
  {
    if l != [] && l[0].name != name {
      NamedFound(l[1..], name);
      assert forall k :: 1 <= k < |l| ==> l[k] == l[1..][k - 1];
    }
  }

  lemma {:induction false} WithoutNamedIsKept(l: seq<Named>, name: string)
    ensures WithoutNamed(l, name) == Kept(l, (s: Named) => s.name == name)
  {
    if l != [] { WithoutNamedIsKept(l[1..], name); }
  }

  lemma WithoutNamedIs(l: seq<Named>, name: string)
    ensures Thinned(l, (s: Named) => s.name == name, WithoutNamed(l, name))
    ensures |WithoutNamed(l, name)| == |l| <==> NoNamed(l, name)
  {
    WithoutNamedIsKept(l, name);
    KeptIsThinned(l, (s: Named) => s.name == name);
    NoneGone(l, (s: Named) => s.name == name);
  }

  lemma BackendFound(bs: seq<Backend>, id: string)
    ensures var k := FindBackendIndex(bs, id);
            k <= |bs| && if k < |bs| then BackendAt(bs, k, id) else NoName(bs, id) && NoAddress(bs, id)
  {
  }

  lemma BackendsMutated(bs: seq<Backend>, p: Primitive)
    requires OnBackends(p)
    ensures var r := MutateBackends(bs, p);
            && (forall e :: r == Err(e) <==> BackendRefused(bs, p, e))
            && (r.Ok? ==>
                  match p
                  case SetBackendWeight(_, id, weight) =>
                    exists k: nat :: BackendAt(bs, k, id) && Reweighed(bs, k, weight, r.value)
                  case DeleteBackend(_, id) => exists k: nat :: BackendAt(bs, k, id) && TakenOut(bs, k, r.value)
                  case AddBackend(_, b) => MergeEffects.AppendedTo(bs, b, r.value))
  {
    match p
    case SetBackendWeight(_, id, weight) =>
      BackendFound(bs, id);
      var k := FindBackendIndex(bs, id);
      if k < |bs| { assert BackendAt(bs, k, id) && Reweighed(bs, k, weight, MutateBackends(bs, p).value); }
    case DeleteBackend(_, id) =>
      BackendFound(bs, id);
      var k := FindBackendIndex(bs, id);
      if k < |bs| { assert BackendAt(bs, k, id) && TakenOut(bs, k, MutateBackends(bs, p).value); }
    case AddBackend(_, b) =>
      ClashIs(bs, b);
  }

  lemma ClashIs(bs: seq<Backend>, b: Backend)
    ensures IdentityExists(bs, b) <==> Clashes(bs, b)
  {
    if HasName(b) && IndexOfName(bs, b.name.value) < |bs| {
      assert bs[IndexOfName(bs, b.name.value)].name == b.name;
    } else if b.address != "" && IndexOfAddress(bs, b.address) < |bs| {
      assert bs[IndexOfAddress(bs, b.address)].address == b.address;
    }
  }

  lemma PoolFound(c: Config, name: string)
    ensures var i := IndexOfPool(c.pools, name); if i < |c.pools| then PoolAt(c, i, name) else NoPool(c.pools, name)
  {
  }

  lemma BackendMutationMeans(c: Config, p: Primitive)
    requires OnBackends(p)
    ensures forall e :: MutateDesired(c, p) == Err(e) <==> Refused(c, p, e)
    ensures MutateDesired(c, p).Ok? ==> Effect(c, p, MutateDesired(c, p).value)
  {
    var i := IndexOfPool(c.pools, p.pool);
    PoolFound(c, p.pool);
    if i < |c.pools| {
      var bs := c.pools[i].backends;
      assert PoolAt(c, i, p.pool) && (forall k: nat :: PoolAt(c, k, p.pool) ==> k == i);
      BackendsMutated(bs, p);
      var r := MutateBackends(bs, p);
      if r.Ok? {
        var after := SetBackends(c, i, r.value);
        assert OnlyBackends(c, after, i) && after.pools[i].backends == r.value;
      }
    }
  }

  lemma SourceMutationMeans(c: Config, p: Primitive)
    requires p.UpsertDataSource? || p.RemoveDataSource? || p.UpdateCache?
    ensures forall e :: MutateDesired(c, p) == Err(e) <==> Refused(c, p, e)
    ensures MutateDesired(c, p).Ok? ==> Effect(c, p, MutateDesired(c, p).value)
  {
    match p
    case UpsertDataSource(source) =>
      NamedFound(c.dataSources, source.name);
      var i := IndexOfNamed(c.dataSources, source.name);
      if i < |c.dataSources| { assert ReplacedAt(c.dataSources, i, source, c.dataSources[i := source]); }
    case RemoveDataSource(name) =>
      WithoutNamedIs(c.dataSources, name);
    case UpdateCache(cache) =>
      NamedFound(c.caches, cache.name);
      var i := IndexOfNamed(c.caches, cache.name);
      if i < |c.caches| { assert ReplacedAt(c.caches, i, cache, c.caches[i := cache]); }
  }

  lemma MetricsMutationMeans(c: Config, m: Metrics)
    ensures MutateDesired(c, PatchMetrics(m)).Ok? && Effect(c, PatchMetrics(m), MutateDesired(c, PatchMetrics(m)).value)
  {
    MetricsLeaves.DeepMergeLeaves(c.metrics.UnwrapOr(DEFAULT_METRICS), m);
    assert c.sections + map[] == c.sections;
  }

  // Each primitive is refused for exactly the reasons stated, and otherwise asks for
  // exactly the effect stated.
  lemma MutationMeans(c: Config, p: Primitive)
    ensures forall e :: MutateDesired(c, p) == Err(e) <==> Refused(c, p, e)
    ensures MutateDesired(c, p).Ok? ==> Effect(c, p, MutateDesired(c, p).value)
  {
    if OnBackends(p) {
      BackendMutationMeans(c, p);
    } else if p.UpsertDataSource? || p.RemoveDataSource? || p.UpdateCache? {
      SourceMutationMeans(c, p);
    } else if p.PatchMetrics? {
      MetricsMutationMeans(c, p.metrics);
    }
  }

  // ----- What an accepted primitive leaves effective -----

  // The server refuses for the same reasons.
  lemma RefusalIsKept(s: State, p: Primitive, valid: Config -> bool, e: Rejection)
    requires Sound(s) && Refused(Effective(s).value, p, e)
    ensures Next(s, Only(Mutate(p)), valid) == Err(e)
  {
    MutationMeans(Effective(s).value, p);
  }

  // On any file and overlay, an accepted primitive that is faithful has its effect.
  lemma FaithfulHasEffect(s: State, p: Primitive, valid: Config -> bool, n: State)
    requires Sound(s) && FaithfulStep(s, p) && Next(s, Only(Mutate(p)), valid) == Ok(n)
    ensures n.file == s.file && Effect(Effective(s).value, p, Effective(n).value)
  {
    MutationMeans(Effective(s).value, p);
    var m := MutateDesired(Effective(s).value, p);
    if m.Ok? && KeepsSources(s.file, m.value) {
      ReachedIsNext(s, p, valid, m.value);
    } else {
      ClearingSourcesIsRefused(s, p, valid);
    }
  }

  // After every run of primitives from a clear file, each accepted one has exactly its
  // effect on what is effective, unless it adds a backend that the file's pool has.
  lemma AcceptedHasEffect(s: State, p: Primitive, valid: Config -> bool, n: State)
    requires FileClear(s.file) && Sound(s) && Reached(s.file, Effective(s).value) && FreshForFile(s.file, p)
    requires Next(s, Only(Mutate(p)), valid) == Ok(n)
    ensures n.file == s.file && Effect(Effective(s).value, p, Effective(n).value)
    ensures Reached(s.file, Effective(n).value)
  {
    MutationMeans(Effective(s).value, p);
    var m := MutateDesired(Effective(s).value, p);
    if m.Ok? && KeepsSources(s.file, m.value) {
      PrimitiveIsFaithful(s, p, valid, m.value);
    } else {
      ClearingSourcesIsRefused(s, p, valid);
    }
  }

  // ----- Reloads and overlays -----

  // A reload leaves the new file alone in effect; a change with it starts from there.
  lemma ReloadEffect(s: State, file: Config, change: Change, valid: Config -> bool)
    requires Sound(s)
    ensures Next(s, Proposal(Some(file), change), valid) == Next(State(file, None), Only(change), valid)
    ensures var n := Next(s, Proposal(Some(file), Unchanged), valid);
            if valid(file) then n.Ok? && n.value.overlay.None? && Effective(n.value) == Ok(file) else n == Err(Invalid)
  {
  }

  // Clearing leaves the file alone in effect.
  lemma ClearEffect(s: State, patch: Option<Config>, valid: Config -> bool)
    requires Sound(s)
    ensures var n := Next(s, Only(ApplyOverlay(ClearOverlay, patch)), valid);
            if valid(s.file) then n.Ok? && n.value.file == s.file && Effective(n.value) == Ok(s.file)
            else n == Err(Invalid)
  {
  }

  predicate Forbidden(patch: Config) {
    patch.rules.Some? || patch.tracing.Some?
  }

  // Replacing leaves the file with the patch applied in effect, whatever was stored.
  lemma ReplaceEffect(s: State, patch: Config, valid: Config -> bool, other: Option<Config>)
    requires Sound(s) && Sound(State(s.file, other))
    ensures var n, merged := Next(s, Only(ApplyOverlay(ReplaceOverlay, Some(patch))), valid),
                             MergeConfigs(s.file, patch, ApplyToBaseline);
            if Forbidden(patch) then n == Err(ForbiddenSection)
            else if patch == EmptyConfig(patch.schemaVersion) then
              if valid(s.file) then n.Ok? && n.value.overlay.None? && Effective(n.value) == Ok(s.file)
              else n == Err(Invalid)
            else if merged.Err? then n == Err(MergeFailed(merged.error))
            else if valid(merged.value) then n.Ok? && n.value.file == s.file && Effective(n.value) == merged
            else n == Err(Invalid)
    ensures Next(s, Only(ApplyOverlay(ReplaceOverlay, Some(patch))), valid)
         == Next(State(s.file, other), Only(ApplyOverlay(ReplaceOverlay, Some(patch))), valid)
  {
  }

  // Merging onto a server without an overlay is replacing; an empty patch changes nothing.
  lemma MergeEffect(s: State, patch: Config, valid: Config -> bool)
    requires Sound(s) && valid(Effective(s).value)
    ensures patch == EmptyConfig(patch.schemaVersion) ==>
              Next(s, Only(ApplyOverlay(MergeOverlay, Some(patch))), valid) == Ok(s)
    ensures s.overlay.None? && patch != EmptyConfig(patch.schemaVersion) ==>
              Next(s, Only(ApplyOverlay(MergeOverlay, Some(patch))), valid)
              == Next(s, Only(ApplyOverlay(ReplaceOverlay, Some(patch))), valid)
    ensures Forbidden(patch) ==>
              Next(s, Only(ApplyOverlay(MergeOverlay, Some(patch))), valid) == Err(ForbiddenSection)
  {
  }

  // Onto an overlay, the patch is accumulated, and the file with the result in effect. It
  // is refused if either merge is.
  lemma MergeOntoEffect(s: State, patch: Config, valid: Config -> bool)
    requires Sound(s) && s.overlay.Some? && !Forbidden(patch) && patch != EmptyConfig(patch.schemaVersion)
    ensures var n, acc := Next(s, Only(ApplyOverlay(MergeOverlay, Some(patch))), valid),
                          MergeConfigs(s.overlay.value, patch, AccumulateOverlay);
            if acc.Err? then n == Err(MergeFailed(acc.error))
            else
              var merged := MergeConfigs(s.file, acc.value, ApplyToBaseline);
              if merged.Err? then n == Err(MergeFailed(merged.error))
              else if valid(merged.value) then
                n.Ok? && n.value.file == s.file && n.value.overlay == Some(acc.value) && Effective(n.value) == merged
              else n == Err(Invalid)
  {
  }

  // Over every run, refused proposals might as well not have been made.
  lemma {:induction false} RefusalsLeaveNoTrace(s: State, ps: seq<Proposal>, valid: Config -> bool, k: nat)
    requires Sound(s) && k < |ps| && Next(Run(s, ps[..k], valid), ps[k], valid).Err?
    ensures Run(s, ps, valid) == Run(s, ps[..k] + ps[k + 1..], valid)
    decreases k
  {
    if k == 0 {
      assert ps[..0] == [] && ps[..0] + ps[1..] == ps[1..];
    } else {
      var rest := ps[1..];
      assert ps[..k][0] == ps[0] && ps[..k][1..] == rest[..k - 1] && rest[k - 1] == ps[k];
      RefusalsLeaveNoTrace(After(s, ps[0], valid), rest, valid, k - 1);
      var fewer := ps[..k] + ps[k + 1..];
      assert fewer[0] == ps[0] && fewer[1..] == rest[..k - 1] + rest[k..];
    }
  }

  // To merge or replace there must be a patch; a proposal without a change is accepted when
  // what is in effect is still valid.
  lemma OtherEffects(s: State, valid: Config -> bool)
    requires Sound(s)
    ensures Next(s, Only(ApplyOverlay(MergeOverlay, None)), valid) == Err(OverlayRequired)
    ensures Next(s, Only(ApplyOverlay(ReplaceOverlay, None)), valid) == Err(OverlayRequired)
    ensures Next(s, Only(Unchanged), valid) == if valid(Effective(s).value) then Ok(s) else Err(Invalid)
  {
  }
}
