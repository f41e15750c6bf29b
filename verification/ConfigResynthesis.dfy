/** Synthesizing again from what a whole overlay produced. */
module ConfigResynthesis {
  import opened Wrappers
  import opened ConfigModel
  import opened Merge
  import opened Synthesize
  import opened MetricsSynthesis
  import opened ConfigRoundTrip
  import opened PointwisePools
  import MetricsMerge
  import PointwiseMerge
  import Reproduction
  import Resynthesis

  // Every pool is named once, and so is every backend in an entry that updates a file pool.
  ghost predicate NameKeyedPools(file: seq<Pool>, os: seq<Pool>) {
    && OwnPoolNames(os)
    && forall k :: 0 <= k < |os| && Mentioned(file, os[k].name) && !os[k].remove.UnwrapOr(false) ==>
         PointwiseMerge.OwnNames(os[k].backends)
  }

  // No pool of both sides uses, under a name found on one side only, an address of the
  // other side.
  ghost predicate NoAliasing(file: seq<Pool>, d: seq<Pool>) {
    forall i, j :: 0 <= i < |file| && 0 <= j < |d| ==> NoPoolAliasing(file[i], d[j])
  }

  ghost predicate NoPoolAliasing(f: Pool, d: Pool) {
    f.name == d.name ==> Resynthesis.NoAliasing(f.backends, d.backends)
  }

  // ----- One pool -----

  predicate Reproduced(f: Pool, d: Pool) {
    MergeBackends(f.name, f.backends, SynthesizeBackends(f.backends, d.backends), ApplyToBaseline) == Ok(d.backends)
  }

  // The outcome for a file pool: only its backends change, and synthesis reproduces them
  // exactly when no address is aliased.
  ghost predicate Outcome(f: Pool, d: Pool) {
    && d == f.(backends := d.backends)
    && (Reproduced(f, d) <==> NoPoolAliasing(f, d))
  }

  lemma MergedOutcome(file: seq<Pool>, i: nat, os: seq<Backend>, bs: seq<Backend>)
    requires PoolsIdentified(file) && i < |file| && PointwiseMerge.OwnNames(os)
    requires MergeBackends(file[i].name, file[i].backends, os, ApplyToBaseline) == Ok(bs)
    ensures Outcome(file[i], file[i].(backends := bs, remove := None))
  {
    Reproduction.SynthesisReproduces(file[i].name, file[i].backends, os, bs);
  }

  lemma OwnPoolOutcome(file: seq<Pool>, i: nat, os: seq<Pool>)
    requires PoolsIdentified(file) && NameKeyedPools(file, os) && AllPoolsFit(file, os) && i < |file|
    ensures var own := OwnPool(file[i], os); own != [] ==> |own| == 1 && Outcome(file[i], own[0])
  {
    var f := file[i];
    if !Mentioned(os, f.name) {
      MergedOutcome(file, i, [], f.backends);
    } else {
      var o := os[IndexOfPool(os, f.name)];
      assert IndexOfPool(file, o.name) == i;
      assert PoolFits(file, o);
      if !o.remove.UnwrapOr(false) { MergedOutcome(file, i, o.backends, MergedBackends(f, o).value); }
    }
  }

  // ----- All pools -----

  ghost predicate Related<T(!new)>(related: (T, T) -> bool, x: seq<T>, l: seq<T>) {
    |l| == |x| && forall r :: 0 <= r < |x| ==> related(x[r], l[r])
  }

  lemma RelatedCons<T(!new)>(related: (T, T) -> bool, a: T, b: T, x: seq<T>, l: seq<T>)
    requires related(a, b) && Related(related, x, l)
    ensures Related(related, [a] + x, [b] + l)
  {
  }

  ghost predicate Outcomes(x: seq<Pool>, l: seq<Pool>) {
    Related((f, d) => Outcome(f, d), x, l)
  }

  lemma OutcomesCons(f: Pool, d: Pool, x: seq<Pool>, l: seq<Pool>)
    requires Outcome(f, d) && Outcomes(x, l)
    ensures Outcomes([f] + x, [d] + l)
  {
    RelatedCons((f, d) => Outcome(f, d), f, d, x, l);
  }

  function RemainingPools(file: seq<Pool>, os: seq<Pool>): (r: seq<Pool>)
    ensures forall p :: p in r ==> p in file
  {
    if file == [] then []
    else if OwnPool(file[0], os) == [] then RemainingPools(file[1..], os)
    else [file[0]] + RemainingPools(file[1..], os)
  }

  lemma RemainingCons(f: Pool, rest: seq<Pool>, os: seq<Pool>)
    ensures RemainingPools([f] + rest, os) ==
            if OwnPool(f, os) == [] then RemainingPools(rest, os) else [f] + RemainingPools(rest, os)
  {
    assert ([f] + rest)[0] == f && ([f] + rest)[1..] == rest;
  }

  lemma OutcomesStep(f: Pool, rest: seq<Pool>, os: seq<Pool>, own: seq<Pool>, x: seq<Pool>, u: seq<Pool>)
    requires x == RemainingPools(rest, os) && u == UpdatedPools(rest, os) && Outcomes(x, u)
    requires own == OwnPool(f, os) && (own != [] ==> |own| == 1 && Outcome(f, own[0]))
    ensures Outcomes(RemainingPools([f] + rest, os), UpdatedPools([f] + rest, os))
  {
    RemainingCons(f, rest, os);
    UpdatedPoolsCons(f, rest, os);
    if own == [] {
      assert own + u == u;
    } else {
      assert own + u == [own[0]] + u;
      OutcomesCons(f, own[0], x, u);
    }
  }

  lemma {:induction false} UpdatedOutcomes(file: seq<Pool>, i: nat, os: seq<Pool>)
    requires PoolsIdentified(file) && NameKeyedPools(file, os) && AllPoolsFit(file, os) && i <= |file|
    ensures Outcomes(RemainingPools(file[i..], os), UpdatedPools(file[i..], os))
    decreases |file| - i
  {
    if i < |file| {
      var f, rest := file[i], file[i + 1..];
      UpdatedOutcomes(file, i + 1, os);
      OwnPoolOutcome(file, i, os);
      OutcomesStep(f, rest, os, OwnPool(f, os), RemainingPools(rest, os), UpdatedPools(rest, os));
      assert file[i..] == [f] + rest;
    }
  }

  lemma {:induction false} RemainingPoolNames(file: seq<Pool>, os: seq<Pool>)
    requires OwnPoolNames(file)
    ensures OwnPoolNames(RemainingPools(file, os))
  {
    if file != [] {
      var rest := RemainingPools(file[1..], os);
      RemainingPoolNames(file[1..], os);
      forall r | 0 <= r < |rest| ensures rest[r].name != file[0].name {
        assert rest[r] in file[1..];
      }
    }
  }

  ghost predicate NewPoolsOf(file: seq<Pool>, l: seq<Pool>) {
    OwnPoolNames(l) && forall j :: 0 <= j < |l| ==> !Mentioned(file, l[j].name) && Unmarked(l[j])
  }

  lemma {:induction false} AddedAreNew(file: seq<Pool>, os: seq<Pool>)
    requires OwnPoolNames(os)
    ensures NewPoolsOf(file, AddedPools(file, os))
  {
    if os != [] {
      var o := os[0];
      assert forall k :: 0 <= k < |os[1..]| ==> os[1..][k] == os[k + 1];
      AddedAreNew(file, os[1..]);
      if !Mentioned(file, o.name) {
        OwnPoolNamesParts(os, 0);
        AddedPoolNames(file, os[1..], o.name);
        assert ClearMarkers(ClearMarkers(o.backends)) == ClearMarkers(o.backends);
      }
    }
  }

  lemma {:induction false} RemainingPoolMember(file: seq<Pool>, os: seq<Pool>, f: Pool)
    requires f in file && OwnPool(f, os) != []
    ensures f in RemainingPools(file, os)
  {
    if f != file[0] { RemainingPoolMember(file[1..], os, f); }
  }

  lemma {:induction false} RemovedPoolName(file: seq<Pool>, os: seq<Pool>, k: nat)
    requires OwnPoolNames(file) && k < |file| && OwnPool(file[k], os) == []
    ensures NoPool(RemainingPools(file, os), file[k].name)
  {
    if k == 0 {
      var rest := RemainingPools(file[1..], os);
      forall r | 0 <= r < |rest| ensures rest[r].name != file[0].name {
        assert rest[r] in file[1..];
      }
    } else {
      RemovedPoolName(file[1..], os, k - 1);
    }
  }

  // The result: remaining file pools with their outcomes, then new ones.
  ghost predicate Composed(file: seq<Pool>, x: seq<Pool>, d: seq<Pool>) {
    && |x| <= |d| && OwnPoolNames(x) && (forall p :: p in x ==> p in file)
    && Outcomes(x, d[..|x|]) && NewPoolsOf(file, d[|x|..])
  }

  lemma MergeResult(file: seq<Pool>, os: seq<Pool>, d: seq<Pool>)
    requires PoolsIdentified(file) && NameKeyedPools(file, os)
    requires MergePools(file, os, ApplyToBaseline) == Ok(d)
    ensures Composed(file, RemainingPools(file, os), d)
  {
    PoolsArePointwise(file, os);
    var x, u, v := RemainingPools(file, os), UpdatedPools(file, os), AddedPools(file, os);
    assert file[0..] == file;
    UpdatedOutcomes(file, 0, os);
    RemainingPoolNames(file, os);
    AddedAreNew(file, os);
    assert d[..|x|] == u && d[|x|..] == v;
  }

  lemma ComposedAt(file: seq<Pool>, x: seq<Pool>, d: seq<Pool>, r: nat)
    requires Composed(file, x, d) && r < |d|
    ensures if r < |x| then Outcome(x[r], d[r]) && d[r].name == x[r].name && Mentioned(file, d[r].name)
            else IndexOfPool(file, d[r].name) == |file| && Unmarked(d[r])
  {
    if r < |x| {
      assert Outcome(x[r], d[..|x|][r]);
      assert x[r] in file;
    } else {
      assert d[r] == d[|x|..][r - |x|];
    }
  }

  lemma ComposedNames(file: seq<Pool>, x: seq<Pool>, d: seq<Pool>)
    requires Composed(file, x, d)
    ensures OwnPoolNames(d)
  {
    forall i, j | 0 <= i < j < |d| ensures d[i].name != d[j].name {
      ComposedAt(file, x, d, i);
      ComposedAt(file, x, d, j);
      if i >= |x| { assert d[i] == d[|x|..][i - |x|] && d[j] == d[|x|..][j - |x|]; }
    }
  }

  lemma KeptNames(file: seq<Pool>, os: seq<Pool>, d: seq<Pool>, k: nat)
    requires OwnPoolNames(file) && Composed(file, RemainingPools(file, os), d) && k < |file|
    ensures IndexOfPool(d, file[k].name) < |d| <==> OwnPool(file[k], os) != []
  {
    var f, x := file[k], RemainingPools(file, os);
    if OwnPool(f, os) != [] {
      RemainingPoolMember(file, os, f);
      var r :| 0 <= r < |x| && x[r] == f;
      ComposedAt(file, x, d, r);
    } else {
      RemovedPoolName(file, os, k);
      forall r | 0 <= r < |d| ensures d[r].name != f.name { ComposedAt(file, x, d, r); }
    }
  }

  lemma {:induction false} KeptAreRemaining(file: seq<Pool>, os: seq<Pool>, d: seq<Pool>)
    requires forall k :: 0 <= k < |file| ==> (IndexOfPool(d, file[k].name) < |d| <==> OwnPool(file[k], os) != [])
    ensures KeptPools(file, d) == RemainingPools(file, os)
  {
    if file != [] {
      assert IndexOfPool(d, file[0].name) < |d| <==> OwnPool(file[0], os) != [];
      KeptAreRemaining(file[1..], os, d);
    }
  }

  lemma ComposedIsKept(file: seq<Pool>, os: seq<Pool>, d: seq<Pool>)
    requires OwnPoolNames(file) && Composed(file, RemainingPools(file, os), d)
    ensures KeptPools(file, d) == RemainingPools(file, os)
  {
    forall k | 0 <= k < |file| ensures IndexOfPool(d, file[k].name) < |d| <==> OwnPool(file[k], os) != [] {
      KeptNames(file, os, d, k);
    }
    KeptAreRemaining(file, os, d);
  }

  // ----- Synthesizing from the result -----

  lemma SurvivesIff(file: seq<Pool>, x: seq<Pool>, d: seq<Pool>, r: nat)
    requires Composed(file, x, d) && OwnPoolNames(d) && r < |x|
    ensures SurvivesAs(x[r], d, d[r]) <==> NoPoolAliasing(x[r], d[r])
  {
    ComposedAt(file, x, d, r);
    assert IndexOfPool(d, x[r].name) == r;
  }

  ghost predicate AllUnaliased(x: seq<Pool>, d: seq<Pool>) {
    |x| <= |d| && forall r :: 0 <= r < |x| ==> NoPoolAliasing(x[r], d[r])
  }

  lemma SurvivorsIff(file: seq<Pool>, x: seq<Pool>, d: seq<Pool>)
    requires Composed(file, x, d) && OwnPoolNames(d) && x == KeptPools(file, d)
    ensures Survivors(file, d) == Ok(d[..|x|]) <==> AllUnaliased(x, d)
  {
    var s := d[..|x|];
    SurvivorsShape(file, d, s);
    forall r | 0 <= r < |x| ensures SurvivesAs(x[r], d, s[r]) <==> NoPoolAliasing(x[r], d[r]) {
      SurvivesIff(file, x, d, r);
    }
  }

  lemma NewcomersAreTheRest(file: seq<Pool>, x: seq<Pool>, d: seq<Pool>)
    requires Composed(file, x, d)
    ensures NewPools(file, d) == d[|x|..]
  {
    forall r | 0 <= r < |d|
      ensures if r < |x| then IndexOfPool(file, d[r].name) < |file|
              else IndexOfPool(file, d[r].name) == |file| && Unmarked(d[r])
    {
      ComposedAt(file, x, d, r);
    }
    NewPoolsAreTheRest(file, d, |x|);
  }

  lemma PoolsReturnIff(file: seq<Pool>, x: seq<Pool>, d: seq<Pool>)
    requires PoolsIdentified(file) && Composed(file, x, d) && x == KeptPools(file, d)
    ensures MergePools(file, SynthesizePools(file, d), ApplyToBaseline) == Ok(d) <==> AllUnaliased(x, d)
  {
    ComposedNames(file, x, d);
    SurvivorsIff(file, x, d);
    if AllUnaliased(x, d) {
      NewcomersAreTheRest(file, x, d);
      TakeThenDrop(d, |x|);
      MergedPoolsAre(file, d, d[..|x|], d[|x|..], d);
    } else if MergePools(file, SynthesizePools(file, d), ApplyToBaseline) == Ok(d) {
      ReachedSplit(file, d, |x|);
    }
  }

  // The pools both sides have are the kept ones and their outcomes.
  lemma AliasingIsPairwise(file: seq<Pool>, os: seq<Pool>, d: seq<Pool>)
    requires OwnPoolNames(file) && Composed(file, RemainingPools(file, os), d)
    ensures NoAliasing(file, d) <==> AllUnaliased(RemainingPools(file, os), d)
  {
    var x := RemainingPools(file, os);
    if NoAliasing(file, d) {
      forall r | 0 <= r < |x| ensures NoPoolAliasing(x[r], d[r]) {
        assert x[r] in file;
        var i :| 0 <= i < |file| && file[i] == x[r];
      }
    }
    if AllUnaliased(x, d) {
      forall i, j | 0 <= i < |file| && 0 <= j < |d| ensures NoPoolAliasing(file[i], d[j]) {
        if file[i].name == d[j].name { CounterpartIsOutcome(file, x, d, i, j); }
      }
    }
  }

  lemma CounterpartIsOutcome(file: seq<Pool>, x: seq<Pool>, d: seq<Pool>, i: nat, j: nat)
    requires OwnPoolNames(file) && Composed(file, x, d) && i < |file| && j < |d| && file[i].name == d[j].name
    ensures j < |x| && x[j] == file[i]
  {
    ComposedAt(file, x, d, j);
    if j < |x| { assert x[j] in file; }
  }

  lemma PoolsReproduced(file: seq<Pool>, os: seq<Pool>, d: seq<Pool>)
    requires PoolsIdentified(file) && NameKeyedPools(file, os)
    requires MergePools(file, os, ApplyToBaseline) == Ok(d)
    ensures MergePools(file, SynthesizePools(file, d), ApplyToBaseline) == Ok(d) <==> NoAliasing(file, d)
  {
    MergeResult(file, os, d);
    ComposedIsKept(file, os, d);
    PoolsReturnIff(file, RemainingPools(file, os), d);
    AliasingIsPairwise(file, os, d);
  }

  // ----- Whole configurations -----

  lemma MergedMetrics(file: Option<Metrics>, o: Option<Metrics>, d: Option<Metrics>)
    requires d == MergeMetricsSection(file, o)
    requires file.Some? ==> MetricsMerge.DistinctMetricNames(file.value.userMetrics)
    ensures MetricsExpressible(file, d)
    ensures d.Some? ==> MetricsMerge.DistinctMetricNames(d.value.userMetrics)
  {
    var base := file.UnwrapOr(DEFAULT_METRICS);
    if o.Some? {
      MetricsMerge.MergeExtends(base, o.value);
      MetricsMerge.UserMetricsAssociate([], base.userMetrics, o.value.userMetrics);
    } else if file.Some? {
      MetricsMerge.ExtendsItself(file.value);
    }
  }

  // Whatever a name-keyed overlay made of the file, synthesis reproduces it if and only
  // if no pool that file and result share aliases an address.
  lemma OverlayIsReproduced(file: Config, o: Config, d: Config)
    requires ConfigIdentified(file) && NameKeyedPools(file.pools, o.pools)
    requires MergeConfigs(file, o, ApplyToBaseline) == Ok(d)
    ensures RoundTrips(file, d) <==> NoAliasing(file.pools, d.pools)
  {
    PoolsReproduced(file.pools, o.pools, d.pools);
    MergedMetrics(file.metrics, o.metrics, d.metrics);
    MetricsRoundTrip(file.metrics, d.metrics);
    SectionsRoundTrip(file.sections, d.sections);
    RoundTripsByParts(file, d);
  }
}
