/** When an accepted primitive has exactly the effect it asked for. */
module Faithfulness {
  import opened Wrappers
  import opened ConfigModel
  import opened Merge
  import opened Synthesize
  import opened ConfigRoundTrip
  import opened Configurator
  import BackendRoundTrip
  import FileSynthesis
  import GrownBackends
  import MetricsMerge

  // The proposal is not refused and makes `desired` effective.
  ghost predicate Reaches(s: State, p: Primitive, desired: Config)
    requires Sound(s)
  {
    var w := Working(s, Mutate(p));
    w.Ok? && Effective(w.value) == Ok(desired)
  }

  // ----- What typed mutations undo -----

  function IdOf(b: Backend): string {
    if HasName(b) then b.name.value else b.address
  }

  lemma {:induction false} LastName(l: seq<Backend>, b: Backend, name: string)
    requires NoName(l, name) && b.name == Some(name)
    ensures IndexOfName(l + [b], name) == |l|
  {
    if l != [] {
      assert (l + [b])[0] == l[0] && (l + [b])[1..] == l[1..] + [b];
      LastName(l[1..], b, name);
    }
  }

  lemma {:induction false} LastAddress(l: seq<Backend>, b: Backend)
    requires NoAddress(l, b.address)
    ensures IndexOfAddress(l + [b], b.address) == |l|
  {
    if l != [] {
      assert (l + [b])[0] == l[0] && (l + [b])[1..] == l[1..] + [b];
      LastAddress(l[1..], b);
    }
  }

  lemma AddedIsFoundLast(bs: seq<Backend>, last: Backend)
    requires HasName(last) ==> NoName(bs, last.name.value)
    requires NoAddress(bs, last.address) && (!HasName(last) ==> last.address != "" && NoName(bs, last.address))
    ensures FindBackendIndex(bs + [last], IdOf(last)) == |bs|
  {
    var added, id := bs + [last], IdOf(last);
    if HasName(last) {
      LastName(bs, last, id);
    } else {
      assert NoName(added, id) && IndexOfName(added, id) == |added|;
      LastAddress(bs, last);
    }
  }

  // Adding a backend and deleting it by its identity restores the pool, unless it has no
  // name and another backend is named like its address: then that one is deleted.
  lemma AddThenDeleteIff(bs: seq<Backend>, pool: string, b: Backend, added: seq<Backend>)
    requires MutateBackends(bs, AddBackend(pool, b)) == Ok(added)
    ensures MutateBackends(added, DeleteBackend(pool, IdOf(b))) == Ok(bs) <==> HasName(b) || NoName(bs, b.address)
  {
    var last := b.(remove := None);
    var k := FindBackendIndex(added, IdOf(b));
    assert added == bs + [last] && NoAddress(bs, b.address);
    if HasName(b) || NoName(bs, b.address) {
      AddedIsFoundLast(bs, last);
      assert added[..k] + added[k + 1..] == bs;
    } else {
      NamedBefore(bs, last, IdOf(b), k);
      assert (added[..k] + added[k + 1..])[|bs| - 1] == last;
    }
  }

  lemma NamedBefore(bs: seq<Backend>, last: Backend, id: string, k: nat)
    requires !NoName(bs, id) && k == FindBackendIndex(bs + [last], id)
    ensures k < |bs|
  {
    var i :| 0 <= i < |bs| && bs[i].name == Some(id);
    assert (bs + [last])[i].name == Some(id);
  }

  // The later of two weights counts, and nothing else changes.
  lemma WeightLastWins(bs: seq<Backend>, pool: string, id: string, v: nat, w: nat, once: seq<Backend>)
    requires MutateBackends(bs, SetBackendWeight(pool, id, v)) == Ok(once)
    ensures MutateBackends(once, SetBackendWeight(pool, id, w)) == MutateBackends(bs, SetBackendWeight(pool, id, w))
  {
    var i := FindBackendIndex(bs, id);
    FileSynthesis.SameKeys(bs, once, id);
    assert once[i := once[i].(weight := Some(w))] == bs[i := bs[i].(weight := Some(w))];
  }

  // ----- Every primitive -----

  // The desired configuration can be expressed over the file, and differs from it in more
  // than the schema version unless it is the file.
  ghost predicate Attainable(file: Config, desired: Config) {
    && ConfigExpressible(file, desired)
    && (desired == file.(schemaVersion := desired.schemaVersion) ==> desired == file)
  }

  ghost predicate Installs(file: Config, desired: Config) {
    var overlay := SynthesizeOverlay(file, desired);
    && overlay.Ok?
    && var w := Install(file, overlay.value);
       w.Ok? && Effective(w.value) == Ok(desired)
  }

  lemma ReachesIsInstalls(s: State, p: Primitive, desired: Config)
    requires Sound(s) && MutateDesired(Effective(s).value, p) == Ok(desired)
    ensures Reaches(s, p, desired) <==> Installs(s.file, desired)
  {
    assert Working(s, Mutate(p)) == ProposePrimitive(s, p);
  }

  lemma InstallsIsRoundTrip(file: Config, desired: Config)
    ensures Installs(file, desired) <==>
            RoundTrips(file, desired) && (PatchIsEmpty(SynthesizeOverlay(file, desired).value) ==> desired == file)
  {
    var synthesized := SynthesizeOverlay(file, desired);
    if synthesized.Ok? && PatchIsEmpty(synthesized.value) {
      EmptyPatchIsNeutral(file, synthesized.value, ApplyToBaseline);
    }
  }

  // An empty patch that leads to `desired` leads to the file, up to its schema version.
  lemma EmptyPatchIff(file: Config, desired: Config)
    requires ConfigIdentified(file) && RoundTrips(file, desired)
    ensures PatchIsEmpty(SynthesizeOverlay(file, desired).value)
            <==> desired == file.(schemaVersion := desired.schemaVersion)
  {
    var overlay := SynthesizeOverlay(file, desired).value;
    if PatchIsEmpty(overlay) {
      EmptyPatchIsNeutral(file, overlay, ApplyToBaseline);
    }
    if desired == file.(schemaVersion := desired.schemaVersion) {
      FileSynthesis.IdentifiedIsValid(file);
      FileSynthesis.SynthesisOfFileIsEmptyIff(file, desired.schemaVersion);
    }
  }

  lemma InstallsIff(file: Config, desired: Config)
    requires ConfigIdentified(file) && ConfigIdentified(desired)
    ensures Installs(file, desired) <==> Attainable(file, desired)
  {
    SynthesisRoundTrip(file, desired);
    InstallsIsRoundTrip(file, desired);
    if RoundTrips(file, desired) { EmptyPatchIff(file, desired); }
  }

  // A primitive has exactly its effect if and only if what it asks for is attainable.
  lemma PrimitiveReachesIff(s: State, p: Primitive, desired: Config)
    requires Sound(s) && ConfigIdentified(s.file) && ConfigIdentified(desired)
    requires MutateDesired(Effective(s).value, p) == Ok(desired)
    ensures Reaches(s, p, desired) <==> Attainable(s.file, desired)
  {
    ReachesIsInstalls(s, p, desired);
    InstallsIff(s.file, desired);
  }

  // ----- Any valid file, without an overlay -----

  predicate OnBackends(p: Primitive) {
    p.SetBackendWeight? || p.DeleteBackend? || p.AddBackend?
  }

  lemma ChangesOnePool(file: Config, p: Primitive, desired: Config)
    requires OnBackends(p) && MutateDesired(file, p) == Ok(desired)
    ensures var i := IndexOfPool(file.pools, p.pool);
            && i < |file.pools| && MutateBackends(file.pools[i].backends, p).Ok?
            && desired == FileSynthesis.WithBackends(file, i, MutateBackends(file.pools[i].backends, p).value)
  {
  }

  // With the same schema version, reaching is coming back.
  lemma ReachesIsRoundTrip(file: Config, p: Primitive, desired: Config)
    requires MutateDesired(file, p) == Ok(desired) && desired.schemaVersion == file.schemaVersion
    ensures Reaches(State(file, None), p, desired) <==> RoundTrips(file, desired)
  {
    ReachesIsInstalls(State(file, None), p, desired);
    InstallsIsRoundTrip(file, desired);
    var overlay := SynthesizeOverlay(file, desired);
    if overlay.Ok? && PatchIsEmpty(overlay.value) { EmptyPatchIsNeutral(file, overlay.value, ApplyToBaseline); }
  }

  // A weight goes to a backend that has a name, is the first at its address, or has that
  // weight already. A deletion is of a backend that shares its address with no other.
  ghost predicate Takes(bs: seq<Backend>, p: Primitive)
    requires OnBackends(p) && MutateBackends(bs, p).Ok?
  {
    match p
    case SetBackendWeight(_, id, weight) =>
      var k := FindBackendIndex(bs, id);
      HasName(bs[k]) || FileSynthesis.FirstAt(bs, k) == k || bs[k].weight == Some(weight)
    case DeleteBackend(_, id) =>
      var k := FindBackendIndex(bs, id);
      NoAddress(FileSynthesis.Without(bs, k), bs[k].address)
    case AddBackend(_, _) => true
  }

  lemma UnknownIsNotFound(bs: seq<Backend>, b: Backend)
    requires !IdentityExists(bs, b) && b.address != ""
    ensures FindBackend(bs, b.(remove := None)) == |bs|
  {
  }

  lemma AdditionReturns(pool: string, bs: seq<Backend>, p: Primitive)
    requires FileSynthesis.ValidBackends(bs) && p.AddBackend? && MutateBackends(bs, p).Ok?
    ensures Returns(pool, bs, MutateBackends(bs, p).value)
  {
    UnknownIsNotFound(bs, p.backend);
    FileSynthesis.AdditionReturns(pool, bs, p.backend.(remove := None));
  }

  lemma BackendsReturnIff(pool: string, bs: seq<Backend>, p: Primitive)
    requires FileSynthesis.ValidBackends(bs) && OnBackends(p) && MutateBackends(bs, p).Ok?
    ensures Returns(pool, bs, MutateBackends(bs, p).value) <==> Takes(bs, p)
  {
    match p
    case SetBackendWeight(_, id, weight) =>
      FileSynthesis.WeightReturnsIff(pool, bs, FindBackendIndex(bs, id), weight);
    case DeleteBackend(_, id) =>
      FileSynthesis.DeletionReturnsIff(pool, bs, FindBackendIndex(bs, id));
    case AddBackend(_, _) =>
      AdditionReturns(pool, bs, p);
  }

  // On any valid file without an overlay: when a primitive on a backend takes effect.
  lemma BackendPrimitiveReachesIff(file: Config, p: Primitive, desired: Config)
    requires FileSynthesis.ConfigValid(file) && OnBackends(p) && MutateDesired(file, p) == Ok(desired)
    ensures var i := IndexOfPool(file.pools, p.pool);
            && i < |file.pools| && MutateBackends(file.pools[i].backends, p).Ok?
            && (Reaches(State(file, None), p, desired) <==> Takes(file.pools[i].backends, p))
  {
    ChangesOnePool(file, p, desired);
    var i := IndexOfPool(file.pools, p.pool);
    var bs := file.pools[i].backends;
    ReachesIsRoundTrip(file, p, desired);
    FileSynthesis.OnePoolReturnsIff(file, i, MutateBackends(bs, p).value);
    BackendsReturnIff(file.pools[i].name, bs, p);
  }

  // ----- Whole runs -----

  lemma AddedIsIdentified(bs: seq<Backend>, b: Backend)
    requires BackendRoundTrip.Identified(bs) && !IdentityExists(bs, b) && b.address != ""
    ensures BackendRoundTrip.Identified(bs + [b.(remove := None)])
  {
    var l, last := bs + [b.(remove := None)], b.(remove := None);
    forall i | 0 <= i < |bs| ensures BackendRoundTrip.Apart(bs[i], last) && BackendRoundTrip.Apart(last, bs[i]) {
      assert bs[i].address != b.address && (HasName(b) ==> bs[i].name != b.name);
    }
    forall i, j | 0 <= i < |l| && 0 <= j < |l| && i != j ensures BackendRoundTrip.Apart(l[i], l[j]) {
      if i < |bs| && j < |bs| { assert BackendRoundTrip.Apart(bs[i], bs[j]); }
    }
  }

  lemma BackendsStayIdentified(bs: seq<Backend>, p: Primitive)
    requires BackendRoundTrip.Identified(bs) && (p.SetBackendWeight? || p.DeleteBackend? || p.AddBackend?)
    requires MutateBackends(bs, p).Ok?
    ensures BackendRoundTrip.Identified(MutateBackends(bs, p).value)
  {
    match p
    case SetBackendWeight(_, id, weight) =>
      var l := MutateBackends(bs, p).value;
      forall i, j | 0 <= i < |l| && 0 <= j < |l| && i != j ensures BackendRoundTrip.Apart(l[i], l[j]) {
        assert BackendRoundTrip.Apart(bs[i], bs[j]);
      }
    case DeleteBackend(_, id) =>
      GrownBackends.FewerIdentities(bs, MutateBackends(bs, p).value, FindBackendIndex(bs, id));
    case AddBackend(_, b) =>
      AddedIsIdentified(bs, b);
  }

  // No primitive gives two backends of a pool one identity.
  lemma MutationStaysIdentified(c: Config, p: Primitive)
    requires ConfigIdentified(c) && MutateDesired(c, p).Ok?
    ensures ConfigIdentified(MutateDesired(c, p).value)
  {
    if p.PatchMetrics? {
      MetricsMerge.UserMetricsAssociate([], c.metrics.UnwrapOr(DEFAULT_METRICS).userMetrics, p.metrics.userMetrics);
    } else if p.SetBackendWeight? || p.DeleteBackend? || p.AddBackend? {
      var i := IndexOfPool(c.pools, p.pool);
      BackendsStayIdentified(c.pools[i].backends, p);
    }
  }

  // The primitive is refused outright, or has exactly its effect.
  ghost predicate FaithfulStep(s: State, p: Primitive)
    requires Sound(s)
  {
    var m := MutateDesired(Effective(s).value, p);
    m.Ok? && KeepsSources(s.file, m.value) ==> Reaches(s, p, m.value)
  }

  ghost predicate FaithfulRun(s: State, ps: seq<Primitive>, valid: Config -> bool)
    requires Sound(s)
    decreases |ps|
  {
    ps == [] || (FaithfulStep(s, ps[0]) && FaithfulRun(After(s, Only(Mutate(ps[0])), valid), ps[1..], valid))
  }

  // Everything the primitives ask for in turn is attainable.
  ghost predicate AttainableStep(file: Config, c: Config, p: Primitive) {
    var m := MutateDesired(c, p);
    m.Ok? && KeepsSources(file, m.value) ==> Attainable(file, m.value)
  }

  ghost predicate AttainableRun(file: Config, c: Config, ps: seq<Primitive>, valid: Config -> bool)
    decreases |ps|
  {
    ps == [] ||
    (AttainableStep(file, c, ps[0]) && AttainableRun(file, DirectStep(file, c, ps[0], valid), ps[1..], valid))
  }

  lemma StepIsFaithfulIff(s: State, p: Primitive)
    requires Sound(s) && ConfigIdentified(s.file) && ConfigIdentified(Effective(s).value)
    ensures FaithfulStep(s, p) <==> AttainableStep(s.file, Effective(s).value, p)
  {
    var m := MutateDesired(Effective(s).value, p);
    if m.Ok? {
      MutationStaysIdentified(Effective(s).value, p);
      PrimitiveReachesIff(s, p, m.value);
    }
  }

  lemma ReachedIsNext(s: State, p: Primitive, valid: Config -> bool, desired: Config)
    requires Sound(s) && MutateDesired(Effective(s).value, p) == Ok(desired) && Reaches(s, p, desired)
    ensures var n := After(s, Only(Mutate(p)), valid);
            n.file == s.file && Effective(n) == if valid(desired) then Ok(desired) else Effective(s)
  {
    assert Working(s, Mutate(p)) == ProposePrimitive(s, p);
  }

  lemma FaithfulIsDirect(s: State, p: Primitive, valid: Config -> bool)
    requires Sound(s) && FaithfulStep(s, p)
    ensures var n := After(s, Only(Mutate(p)), valid);
            n.file == s.file && Effective(n) == Ok(DirectStep(s.file, Effective(s).value, p, valid))
  {
    var m := MutateDesired(Effective(s).value, p);
    if m.Ok? && KeepsSources(s.file, m.value) {
      ReachedIsNext(s, p, valid, m.value);
    } else {
      ClearingSourcesIsRefused(s, p, valid);
    }
  }

  lemma DirectStaysIdentified(file: Config, c: Config, p: Primitive, valid: Config -> bool)
    requires ConfigIdentified(c)
    ensures ConfigIdentified(DirectStep(file, c, p, valid))
  {
    if MutateDesired(c, p).Ok? { MutationStaysIdentified(c, p); }
  }

  lemma MutationsTail(ps: seq<Primitive>)
    requires ps != []
    ensures Mutations(ps)[0] == Only(Mutate(ps[0])) && Mutations(ps)[1..] == Mutations(ps[1..])
  {
  }

  // Over every run of primitives: each has exactly its effect if and only if everything
  // asked for in turn is attainable, and then the server's effective configuration is what
  // mutating the configuration directly gives.
  lemma {:induction false} RunIsFaithfulIff(s: State, ps: seq<Primitive>, valid: Config -> bool)
    requires Sound(s) && ConfigIdentified(s.file) && ConfigIdentified(Effective(s).value)
    ensures FaithfulRun(s, ps, valid) <==> AttainableRun(s.file, Effective(s).value, ps, valid)
    ensures FaithfulRun(s, ps, valid) ==>
            var r := Run(s, Mutations(ps), valid);
            r.file == s.file && Effective(r) == Ok(Direct(s.file, Effective(s).value, ps, valid))
    decreases |ps|
  {
    if ps != [] {
      MutationsTail(ps);
      StepIsFaithfulIff(s, ps[0]);
      if FaithfulStep(s, ps[0]) {
        FaithfulIsDirect(s, ps[0], valid);
        DirectStaysIdentified(s.file, Effective(s).value, ps[0], valid);
        RunIsFaithfulIff(After(s, Only(Mutate(ps[0])), valid), ps[1..], valid);
      }
    }
  }
}
