/**
 The configuration apply path: the file layer, the stored overlay, and the proposals
 that change them.

 `Next` is the meaning of one proposal. `EffectiveConfig` is the object the server
 holds; its method is proved against `Next`. The validator is a parameter.
 */
module Configurator {
  import opened Wrappers
  import opened ConfigModel
  import opened Merge
  import opened Synthesize
  import opened MetricsSynthesis
  import opened ConfigRoundTrip
  import BackendRoundTrip
  import GrownBackends
  import MetricsMerge

  // Typed mutations. Section, cache and data-source messages are carried whole, so a
  // mutation of one of their fields is given by the resulting message.
  datatype Primitive =
    | SetBackendWeight(pool: string, backendId: string, weight: nat)
    | DeleteBackend(pool: string, backendId: string)
    | AddBackend(pool: string, backend: Backend)
    | SetSection(section: Section, contents: string)
    | UpsertDataSource(source: Named)
    | RemoveDataSource(name: string)
    | PatchMetrics(metrics: Metrics)
    | UpdateCache(cache: Named)

  datatype OverlayMode = MergeOverlay | ReplaceOverlay | ClearOverlay

  datatype Change =
    | Mutate(primitive: Primitive)
    | ApplyOverlay(mode: OverlayMode, patch: Option<Config>)
    | Unchanged

  // A new file, if any, takes its place before the change is made.
  datatype Proposal = Proposal(reload: Option<Config>, change: Change)

  function Only(change: Change): Proposal {
    Proposal(None, change)
  }

  datatype Rejection =
    | MergeFailed(error: ConfigError)
    | UnknownPool | UnknownBackend | BackendExists | AddressRequired
    | NameRequired | UnknownDataSource | UnknownCache
    | ForbiddenSection | OverlayRequired | Invalid

  type Desired = Result<Config, Rejection>

  // ----- Typed mutations -----

  function FindBackendIndex(l: seq<Backend>, id: string): nat {
    if IndexOfName(l, id) < |l| then IndexOfName(l, id) else IndexOfAddress(l, id)
  }

  predicate IdentityExists(l: seq<Backend>, b: Backend) {
    || (HasName(b) && IndexOfName(l, b.name.value) < |l|)
    || (b.address != "" && IndexOfAddress(l, b.address) < |l|)
  }

  function IndexOfNamed(l: seq<Named>, name: string): (i: nat)
    ensures i <= |l| && (i < |l| ==> l[i].name == name)
  {
    if l == [] || l[0].name == name then 0 else 1 + IndexOfNamed(l[1..], name)
  }

  function WithoutNamed(l: seq<Named>, name: string): seq<Named> {
    if l == [] then []
    else if l[0].name != name then [l[0]] + WithoutNamed(l[1..], name)
    else WithoutNamed(l[1..], name)
  }

  function SetBackends(c: Config, i: nat, bs: seq<Backend>): Config
    requires i < |c.pools|
  {
    c.(pools := c.pools[i := c.pools[i].(backends := bs)])
  }

  function MutateBackends(bs: seq<Backend>, p: Primitive): Result<seq<Backend>, Rejection>
    requires p.SetBackendWeight? || p.DeleteBackend? || p.AddBackend?
  {
    match p
    case SetBackendWeight(_, id, weight) =>
      var i := FindBackendIndex(bs, id);
      if i < |bs| then Ok(bs[i := bs[i].(weight := Some(weight))]) else Err(UnknownBackend)
    case DeleteBackend(_, id) =>
      var i := FindBackendIndex(bs, id);
      if i < |bs| then Ok(bs[..i] + bs[i + 1..]) else Err(UnknownBackend)
    case AddBackend(_, b) =>
      if IdentityExists(bs, b) then Err(BackendExists)
      else if b.address == "" then Err(AddressRequired)
      else Ok(bs + [b.(remove := None)])
  }

  function MutateDesired(c: Config, p: Primitive): Desired {
    match p
    case SetSection(section, contents) => Ok(c.(sections := c.sections[section := contents]))
    case UpsertDataSource(source) =>
      if source.name == "" then Err(NameRequired)
      else
        var i := IndexOfNamed(c.dataSources, source.name);
        if i < |c.dataSources| then Ok(c.(dataSources := c.dataSources[i := source]))
        else Ok(c.(dataSources := c.dataSources + [source]))
    case RemoveDataSource(name) =>
      if name == "" then Err(NameRequired)
      else
        var kept := WithoutNamed(c.dataSources, name);
        if |kept| == |c.dataSources| then Err(UnknownDataSource) else Ok(c.(dataSources := kept))
    case PatchMetrics(m) =>
      var r := MergeConfigs(c, EmptyConfig(c.schemaVersion).(metrics := Some(m)), ApplyToBaseline);
      if r.Ok? then Ok(r.value) else Err(MergeFailed(r.error))
    case UpdateCache(cache) =>
      if cache.name == "" then Err(NameRequired)
      else
        var i := IndexOfNamed(c.caches, cache.name);
        if i < |c.caches| then Ok(c.(caches := c.caches[i := cache])) else Err(UnknownCache)
    case _ =>
      var i := IndexOfPool(c.pools, p.pool);
      if i == |c.pools| then Err(UnknownPool)
      else
        match MutateBackends(c.pools[i].backends, p)
        case Ok(bs) => Ok(SetBackends(c, i, bs))
        case Err(e) => Err(e)
  }

  // ----- States and proposals -----

  datatype State = State(file: Config, overlay: Option<Config>)

  function Effective(s: State): Result<Config, ConfigError> {
    if s.overlay.None? then Ok(s.file) else MergeConfigs(s.file, s.overlay.value, ApplyToBaseline)
  }

  // The stored overlay merges onto the file, so computing the effective
  // configuration cannot fail.
  predicate Sound(s: State) {
    Effective(s).Ok?
  }

  // Replace the overlay: an empty patch clears it, any other must merge onto the file.
  function Install(file: Config, overlay: Config): Result<State, Rejection> {
    if overlay.rules.Some? || overlay.tracing.Some? then Err(ForbiddenSection)
    else if PatchIsEmpty(overlay) then Ok(State(file, None))
    else
      var merged := MergeConfigs(file, overlay, ApplyToBaseline);
      if merged.Ok? then Ok(State(file, Some(overlay))) else Err(MergeFailed(merged.error))
  }

  function ProposePrimitive(s: State, p: Primitive): Result<State, Rejection>
    requires Sound(s)
  {
    match MutateDesired(Effective(s).value, p)
    case Err(e) => Err(e)
    case Ok(desired) =>
      match SynthesizeOverlay(s.file, desired)
      case Err(e) => Err(MergeFailed(e))
      case Ok(overlay) => Install(s.file, overlay)
  }

  function ProposeMerge(s: State, patch: Config): Result<State, Rejection> {
    if patch.rules.Some? || patch.tracing.Some? then Err(ForbiddenSection)
    else if PatchIsEmpty(patch) then Ok(s)
    else
      var overlay := if s.overlay.Some? then MergeConfigs(s.overlay.value, patch, AccumulateOverlay) else Ok(patch);
      if overlay.Err? then Err(MergeFailed(overlay.error))
      else
        var merged := MergeConfigs(s.file, overlay.value, ApplyToBaseline);
        if merged.Ok? then Ok(State(s.file, Some(overlay.value))) else Err(MergeFailed(merged.error))
  }

  // A reload drops the overlay.
  function Start(s: State, reload: Option<Config>): (r: State)
    requires Sound(s)
    ensures Sound(r)
  {
    if reload.Some? then State(reload.value, None) else s
  }

  function Working(s: State, change: Change): Result<State, Rejection>
    requires Sound(s)
  {
    match change
    case Mutate(primitive) => ProposePrimitive(s, primitive)
    case ApplyOverlay(ClearOverlay, _) => Ok(State(s.file, None))
    case ApplyOverlay(_, None) => Err(OverlayRequired)
    case ApplyOverlay(ReplaceOverlay, Some(patch)) => Install(s.file, patch)
    case ApplyOverlay(MergeOverlay, Some(patch)) => ProposeMerge(s, patch)
    case Unchanged => Ok(s)
  }

  // The working copy is committed only when its effective configuration is valid.
  function Next(s: State, p: Proposal, valid: Config -> bool): (r: Result<State, Rejection>)
    requires Sound(s)
    ensures r.Ok? ==> Sound(r.value) && valid(Effective(r.value).value)
  {
    var w := Working(Start(s, p.reload), p.change);
    if w.Err? then w
    else if valid(Effective(w.value).value) then w
    else Err(Invalid)
  }

  // A refused proposal changes nothing.
  function After(s: State, p: Proposal, valid: Config -> bool): (r: State)
    requires Sound(s)
    ensures Sound(r)
  {
    var n := Next(s, p, valid);
    if n.Ok? then n.value else s
  }

  function Run(s: State, ps: seq<Proposal>, valid: Config -> bool): (r: State)
    requires Sound(s)
    ensures Sound(r)
    decreases |ps|
  {
    if ps == [] then s else Run(After(s, ps[0], valid), ps[1..], valid)
  }

  // Over every run of proposals, accepted or rejected: the stored overlay always merges
  // onto the file, and the effective configuration is always one the validator accepted.
  lemma {:induction false} RunStaysSound(s: State, ps: seq<Proposal>, valid: Config -> bool)
    requires Sound(s) && valid(Effective(s).value)
    ensures Sound(Run(s, ps, valid)) && valid(Effective(Run(s, ps, valid)).value)
    decreases |ps|
  {
    if ps != [] { RunStaysSound(After(s, ps[0], valid), ps[1..], valid); }
  }

  // ----- The object the server holds -----

  class EffectiveConfig {
    var file: Config
    var overlay: Option<Config>

    function Abs(): State
      reads this
    {
      State(file, overlay)
    }

    constructor (file: Config)
      ensures Abs() == State(file, None) && Sound(Abs())
    {
      this.file := file;
      this.overlay := None;
    }

    method Current() returns (c: Config)
      requires Sound(Abs())
      ensures Effective(Abs()) == Ok(c)
    {
      if overlay.None? { return file; }
      var merged := MergeConfigsInto(file, overlay.value, ApplyToBaseline);
      return merged.value;
    }

    // Apply one proposal to a working copy and commit it if the result is valid.
    method Propose(p: Proposal, valid: Config -> bool) returns (r: Result<Config, Rejection>)
      requires Sound(Abs())
      modifies this
      ensures var n := Next(old(Abs()), p, valid);
              && (n.Ok? ==> Abs() == n.value && r == Ok(Effective(n.value).value))
              && (n.Err? ==> Abs() == old(Abs()) && r == Err(n.error))
      ensures Sound(Abs())
    {
      var copy := new EffectiveConfig(file);
      copy.overlay := overlay;
      if p.reload.Some? { copy.file, copy.overlay := p.reload.value, None; }
      var working: Result<State, Rejection>;
      if p.change.Mutate? {
        working := copy.ApplyPrimitive(p.change.primitive);
      } else {
        working := Working(copy.Abs(), p.change);
      }
      if working.Err? { return Err(working.error); }
      copy.file, copy.overlay := working.value.file, working.value.overlay;
      var merged := copy.Current();
      if !valid(merged) { return Err(Invalid); }
      file, overlay := copy.file, copy.overlay;
      return Ok(merged);
    }

    // Mutate what is effective, and find the overlay that leads there.
    method ApplyPrimitive(p: Primitive) returns (r: Result<State, Rejection>)
      requires Sound(Abs())
      ensures r == Working(Abs(), Mutate(p))
    {
      var desired := Current();
      var mutated := MutateDesired(desired, p);
      if mutated.Err? { return Err(mutated.error); }
      var synthesized := SynthesizeOverlayOf(file, mutated.value);
      if synthesized.Err? { return Err(MergeFailed(synthesized.error)); }
      return Install(file, synthesized.value);
    }
  }

  // ----- Primitives refine direct mutation -----

  ghost predicate PoolGrown(file: Pool, eff: Pool) {
    eff == file.(backends := eff.backends) && GrownBackends.Grown(file.backends, eff.backends)
  }

  ghost predicate PoolsGrown(file: seq<Pool>, eff: seq<Pool>) {
    |eff| == |file| && forall i :: 0 <= i < |file| ==> PoolGrown(file[i], eff[i])
  }

  // Every pool's backends have their own identity and their own address.
  ghost predicate FileClear(file: Config) {
    && ConfigIdentified(file)
    && forall i :: 0 <= i < |file.pools| ==> GrownBackends.DistinctAddresses(file.pools[i].backends)
  }

  // Where primitives take a clear file: nothing is unset, no pool is reordered, file
  // backends keep their order and new ones follow.
  ghost predicate Reached(file: Config, eff: Config) {
    && eff.schemaVersion == file.schemaVersion
    && eff.rules == file.rules && eff.tracing == file.tracing
    && file.sections.Keys <= eff.sections.Keys
    && (file.dataSources != [] ==> eff.dataSources != [])
    && (file.caches != [] ==> eff.caches != [])
    && MetricsExpressible(file.metrics, eff.metrics)
    && (eff.metrics.Some? ==> MetricsMerge.DistinctMetricNames(eff.metrics.value.userMetrics))
    && PoolsGrown(file.pools, eff.pools)
  }

  // A backend to add must be unknown to the file's pool, not only to the effective one.
  predicate FreshForFile(file: Config, p: Primitive) {
    p.AddBackend? ==>
      var i := IndexOfPool(file.pools, p.pool);
      i < |file.pools| ==> GrownBackends.Fresh(file.pools[i].backends, p.backend)
  }

  // The last data source of the file cannot be removed through an overlay.
  predicate KeepsSources(file: Config, desired: Config) {
    file.dataSources != [] ==> desired.dataSources != []
  }

  lemma FileIsReached(file: Config)
    requires FileClear(file)
    ensures Reached(file, file)
  {
    forall i | 0 <= i < |file.pools| ensures PoolGrown(file.pools[i], file.pools[i]) {
      GrownBackends.FileIsGrown(file.pools[i].backends);
    }
    if file.metrics.Some? { MetricsMerge.ExtendsItself(file.metrics.value); }
  }

  lemma GrownPoolIsUpdatable(file: Config, eff: Config, i: nat)
    requires FileClear(file) && PoolsGrown(file.pools, eff.pools) && i < |file.pools|
    ensures PoolUpdatable(file.pools[i], eff.pools[i])
    ensures eff.pools[i].name == file.pools[i].name && eff.pools[i].remove.None?
    ensures BackendRoundTrip.Identified(eff.pools[i].backends)
  {
    assert PoolGrown(file.pools[i], eff.pools[i]);
    GrownBackends.GrownIsExpressible(file.pools[i].backends, eff.pools[i].backends);
  }

  lemma GrownPools(file: Config, eff: Config)
    requires FileClear(file) && PoolsGrown(file.pools, eff.pools)
    ensures PoolsIdentified(eff.pools) && PoolsExpressible(file.pools, eff.pools)
  {
    forall i | 0 <= i < |file.pools|
      ensures PoolUpdatable(file.pools[i], eff.pools[i])
      ensures eff.pools[i].name == file.pools[i].name && eff.pools[i].remove.None?
      ensures BackendRoundTrip.Identified(eff.pools[i].backends)
    {
      GrownPoolIsUpdatable(file, eff, i);
    }
    AllPoolsKept(file.pools, eff.pools);
  }

  lemma ReachedRoundTrips(file: Config, eff: Config)
    requires FileClear(file) && Reached(file, eff)
    ensures RoundTrips(file, eff)
  {
    GrownPools(file, eff);
    SynthesisRoundTrip(file, eff);
  }

  lemma BackendMutationKeepsGrown(file: seq<Backend>, eff: seq<Backend>, p: Primitive)
    requires GrownBackends.Grown(file, eff)
    requires p.SetBackendWeight? || p.DeleteBackend? || p.AddBackend?
    requires p.AddBackend? ==> GrownBackends.Fresh(file, p.backend)
    requires MutateBackends(eff, p).Ok?
    ensures GrownBackends.Grown(file, MutateBackends(eff, p).value)
  {
    match p
    case SetBackendWeight(_, id, weight) =>
      GrownBackends.ReweighedIsGrown(file, eff, FindBackendIndex(eff, id), weight);
    case DeleteBackend(_, id) =>
      GrownBackends.ShrunkIsGrown(file, eff, FindBackendIndex(eff, id));
    case AddBackend(_, b) =>
      GrownBackends.ExtendedIsGrown(file, eff, b.(remove := None));
  }

  lemma SetBackendsKeepsGrown(file: seq<Pool>, eff: seq<Pool>, i: nat, bs: seq<Backend>)
    requires PoolsGrown(file, eff) && i < |eff| && GrownBackends.Grown(file[i].backends, bs)
    ensures PoolsGrown(file, eff[i := eff[i].(backends := bs)])
  {
    var eff' := eff[i := eff[i].(backends := bs)];
    forall k | 0 <= k < |file| ensures PoolGrown(file[k], eff'[k]) {
      assert PoolGrown(file[k], eff[k]);
    }
  }

  lemma SamePoolIndex(file: seq<Pool>, eff: seq<Pool>, name: string)
    requires PoolsGrown(file, eff)
    ensures IndexOfPool(eff, name) == IndexOfPool(file, name)
  {
    forall k | 0 <= k < |file| ensures eff[k].name == file[k].name {
      assert PoolGrown(file[k], eff[k]);
    }
  }

  lemma PatchMetricsStaysReached(file: Config, eff: Config, m: Metrics)
    requires Reached(file, eff)
    ensures MutateDesired(eff, PatchMetrics(m)).Ok?
    ensures Reached(file, MutateDesired(eff, PatchMetrics(m)).value)
  {
    var base, e := file.metrics.UnwrapOr(DEFAULT_METRICS), eff.metrics.UnwrapOr(DEFAULT_METRICS);
    assert eff.sections + map[] == eff.sections;
    if eff.metrics.None? { MetricsMerge.ExtendsItself(DEFAULT_METRICS); }
    MetricsMerge.MergeExtends(e, m);
    MetricsMerge.ExtendsTransitive(base, e, MetricsMerge.DeepMerge(e, m));
    MetricsMerge.UserMetricsAssociate([], e.userMetrics, m.userMetrics);
  }

  lemma MutationStaysReached(file: Config, eff: Config, p: Primitive)
    requires Reached(file, eff) && FreshForFile(file, p) && MutateDesired(eff, p).Ok?
    requires KeepsSources(file, MutateDesired(eff, p).value)
    ensures Reached(file, MutateDesired(eff, p).value)
  {
    if p.PatchMetrics? {
      PatchMetricsStaysReached(file, eff, p.metrics);
    } else if p.SetBackendWeight? || p.DeleteBackend? || p.AddBackend? {
      var i := IndexOfPool(eff.pools, p.pool);
      SamePoolIndex(file.pools, eff.pools, p.pool);
      assert PoolGrown(file.pools[i], eff.pools[i]);
      BackendMutationKeepsGrown(file.pools[i].backends, eff.pools[i].backends, p);
      SetBackendsKeepsGrown(file.pools, eff.pools, i, MutateBackends(eff.pools[i].backends, p).value);
    }
  }

  lemma InstallReaches(file: Config, desired: Config)
    requires RoundTrips(file, desired) && desired.schemaVersion == file.schemaVersion
    ensures var r := Install(file, SynthesizeOverlay(file, desired).value);
            r.Ok? && r.value.file == file && Effective(r.value) == Ok(desired)
  {
    var overlay := SynthesizeOverlay(file, desired).value;
    if PatchIsEmpty(overlay) { EmptyPatchIsNeutral(file, overlay, ApplyToBaseline); }
  }

  // An accepted primitive makes the desired configuration effective, exactly.
  lemma PrimitiveIsFaithful(s: State, p: Primitive, valid: Config -> bool, desired: Config)
    requires FileClear(s.file) && Sound(s) && Reached(s.file, Effective(s).value)
    requires FreshForFile(s.file, p)
    requires MutateDesired(Effective(s).value, p) == Ok(desired) && KeepsSources(s.file, desired)
    ensures Reached(s.file, desired)
    ensures var n := Next(s, Only(Mutate(p)), valid);
            if valid(desired) then n.Ok? && n.value.file == s.file && Effective(n.value) == Ok(desired)
            else n == Err(Invalid)
  {
    MutationStaysReached(s.file, Effective(s).value, p);
    ReachedRoundTrips(s.file, desired);
    InstallReaches(s.file, desired);
    assert Working(s, Mutate(p)) == Install(s.file, SynthesizeOverlay(s.file, desired).value);
  }

  // ----- Whole runs -----

  // Mutating the configuration itself, unless that is refused.
  function DirectStep(file: Config, c: Config, p: Primitive, valid: Config -> bool): Config {
    var m := MutateDesired(c, p);
    if m.Ok? && KeepsSources(file, m.value) && valid(m.value) then m.value else c
  }

  function Direct(file: Config, c: Config, ps: seq<Primitive>, valid: Config -> bool): Config
    decreases |ps|
  {
    if ps == [] then c else Direct(file, DirectStep(file, c, ps[0], valid), ps[1..], valid)
  }

  function Mutations(ps: seq<Primitive>): seq<Proposal> {
    seq(|ps|, i requires 0 <= i < |ps| => Only(Mutate(ps[i])))
  }

  lemma ClearingSourcesIsRefused(s: State, p: Primitive, valid: Config -> bool)
    requires Sound(s)
    requires var m := MutateDesired(Effective(s).value, p); m.Ok? ==> !KeepsSources(s.file, m.value)
    ensures Next(s, Only(Mutate(p)), valid).Err?
  {
  }

  // Over every run of primitives whose added backends are unknown to the file, the
  // server's effective configuration is what mutating the configuration directly gives.
  lemma {:induction false} PrimitivesRefineMutation(s: State, ps: seq<Primitive>, valid: Config -> bool)
    requires FileClear(s.file) && Sound(s) && Reached(s.file, Effective(s).value)
    requires forall i :: 0 <= i < |ps| ==> FreshForFile(s.file, ps[i])
    ensures var r := Run(s, Mutations(ps), valid);
            r.file == s.file && Effective(r) == Ok(Direct(s.file, Effective(s).value, ps, valid))
    decreases |ps|
  {
    if ps != [] {
      var p, m := ps[0], MutateDesired(Effective(s).value, ps[0]);
      assert FreshForFile(s.file, p);
      assert Mutations(ps)[0] == Only(Mutate(p)) && Mutations(ps)[1..] == Mutations(ps[1..]);
      assert forall i :: 0 <= i < |ps[1..]| ==> ps[1..][i] == ps[i + 1];
      if m.Ok? && KeepsSources(s.file, m.value) {
        PrimitiveIsFaithful(s, p, valid, m.value);
      } else {
        ClearingSourcesIsRefused(s, p, valid);
      }
      PrimitivesRefineMutation(After(s, Only(Mutate(p)), valid), ps[1..], valid);
    }
  }
}
