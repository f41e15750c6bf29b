/**
 The round trip of overlay synthesis for pools and for whole configurations:
 merging the synthesized overlay onto the file yields the desired configuration
 exactly when `ConfigExpressible` holds.
 */
module ConfigRoundTrip {
  import opened Wrappers
  import opened ConfigModel
  import opened Merge
  import opened Synthesize
  import opened MetricsSynthesis
  import BackendRoundTrip
  import MetricsMerge
  import PointwisePools

  ghost predicate PoolsNamed(l: seq<Pool>) {
    && PointwisePools.OwnPoolNames(l)
    && forall i :: 0 <= i < |l| ==> l[i].name != "" && l[i].remove.None?
  }

  ghost predicate PoolsIdentified(l: seq<Pool>) {
    PoolsNamed(l) && forall i :: 0 <= i < |l| ==> BackendRoundTrip.Identified(l[i].backends)
  }

  function KeptPools(file: seq<Pool>, desired: seq<Pool>): (r: seq<Pool>)
    ensures forall i :: 0 <= i < |r| ==> r[i] in file && IndexOfPool(desired, r[i].name) < |desired|
  {
    if file == [] then []
    else if IndexOfPool(desired, file[0].name) < |desired| then [file[0]] + KeptPools(file[1..], desired)
    else KeptPools(file[1..], desired)
  }

  // Synthesis only emits backend entries for a surviving pool.
  ghost predicate PoolUpdatable(file: Pool, desired: Pool) {
    && desired == file.(backends := desired.backends)
    && BackendRoundTrip.Expressible(file.backends, desired.backends)
  }

  ghost predicate PoolsExpressible(file: seq<Pool>, desired: seq<Pool>) {
    var kept := KeptPools(file, desired);
    && |kept| <= |desired|
    && (forall r :: 0 <= r < |kept| ==> PoolUpdatable(kept[r], desired[r]))
    && (forall j :: |kept| <= j < |desired| ==> IndexOfPool(file, desired[j].name) == |file|)
  }

  ghost predicate ConfigExpressible(file: Config, desired: Config) {
    && desired.rules == file.rules
    && desired.tracing == file.tracing
    && file.sections.Keys <= desired.sections.Keys
    && (file.dataSources != [] ==> desired.dataSources != [])
    && (file.caches != [] ==> desired.caches != [])
    && MetricsExpressible(file.metrics, desired.metrics)
    && PoolsExpressible(file.pools, desired.pools)
  }

  ghost predicate ConfigIdentified(c: Config) {
    && PoolsIdentified(c.pools)
    && (c.metrics.Some? ==> MetricsMerge.DistinctMetricNames(c.metrics.value.userMetrics))
  }

  ghost predicate RoundTrips(file: Config, desired: Config) {
    var overlay := SynthesizeOverlay(file, desired);
    overlay.Ok? && MergeConfigs(file, overlay.value, ApplyToBaseline) == Ok(desired)
  }

  // ----- What the merge of the synthesized pools computes -----

  function Survive(file: Pool, desired: seq<Pool>): Backends
    requires IndexOfPool(desired, file.name) < |desired|
  {
    var d := desired[IndexOfPool(desired, file.name)];
    MergeBackends(file.name, file.backends, SynthesizeBackends(file.backends, d.backends), ApplyToBaseline)
  }

  function Survivors(file: seq<Pool>, desired: seq<Pool>): Pools {
    if file == [] then Ok([])
    else if IndexOfPool(desired, file[0].name) == |desired| then Survivors(file[1..], desired)
    else
      match Survive(file[0], desired)
      case Err(e) => Err(e)
      case Ok(bs) =>
        match Survivors(file[1..], desired)
        case Err(e) => Err(e)
        case Ok(rest) => Ok([file[0].(backends := bs)] + rest)
  }

  lemma MergeOnePool(base: seq<Pool>, o: Pool, mode: Mode)
    ensures MergePools(base, [o], mode) == MergePool(base, o, mode)
  {
  }

  // One file pool, with the pools before it already worked off.
  lemma FilePoolStep(p: seq<Pool>, f: Pool, t: seq<Pool>, desired: seq<Pool>)
    requires f.name != "" && f.remove.None? && NoPool(p, f.name) && NoPool(t, f.name)
    ensures IndexOfPool(desired, f.name) == |desired| ==>
              MergePools(p + [f] + t, FilePool(f, desired), ApplyToBaseline) == Ok(p + t)
    ensures IndexOfPool(desired, f.name) < |desired| ==>
              MergePools(p + [f] + t, FilePool(f, desired), ApplyToBaseline) ==
              var bs := Survive(f, desired);
              if bs.Ok? then Ok(p + [f.(backends := bs.value)] + t) else Err(bs.error)
  {
    var entry := FilePool(f, desired);
    if entry != [] {
      PointwisePools.OnePool(p, f, t, entry[0]);
      MergeOnePool(p + [f] + t, entry[0], ApplyToBaseline);
      assert p + [] + t == p + t;
    } else {
      assert f.(backends := f.backends) == f;
    }
  }

  lemma MergePoolsChain(base: seq<Pool>, x: seq<Pool>, next: seq<Pool>, y: seq<Pool>, r: Pools, mode: Mode)
    requires MergePools(base, x, mode) == Ok(next)
    requires MergePools(next, y, mode) == r
    ensures MergePools(base, x + y, mode) == r
  {
    MergePoolsSplit(base, x, y, mode);
  }

  ghost predicate Separate(p: seq<Pool>, file: seq<Pool>) {
    && PointwisePools.OwnPoolNames(file)
    && forall i :: 0 <= i < |file| ==> file[i].name != "" && file[i].remove.None? && NoPool(p, file[i].name)
  }

  lemma SeparateTail(p: seq<Pool>, file: seq<Pool>, bs: seq<Backend>)
    requires Separate(p, file) && file != []
    ensures NoPool(p, file[0].name) && NoPool(file[1..], file[0].name)
    ensures Separate(p, file[1..]) && Separate(p + [file[0].(backends := bs)], file[1..])
  {
  }

  // The pools before, then what `Survivors` leaves, if it succeeds.
  function Onto(p: seq<Pool>, s: Pools): Pools {
    if s.Ok? then Ok(p + s.value) else s
  }

  // Working off the first file pool, then the others.
  lemma JoinPools(base: seq<Pool>, file: seq<Pool>, desired: seq<Pool>, next: seq<Pool>, r: Pools)
    requires file != [] && MergePools(base, FilePool(file[0], desired), ApplyToBaseline) == Ok(next)
    requires MergePools(next, FilePools(file[1..], desired), ApplyToBaseline) == r
    ensures MergePools(base, FilePools(file, desired), ApplyToBaseline) == r
  {
    MergePoolsChain(base, FilePool(file[0], desired), next, FilePools(file[1..], desired), r, ApplyToBaseline);
  }

  lemma JoinFails(base: seq<Pool>, file: seq<Pool>, desired: seq<Pool>, e: ConfigError)
    requires file != [] && MergePools(base, FilePool(file[0], desired), ApplyToBaseline) == Err(e)
    ensures MergePools(base, FilePools(file, desired), ApplyToBaseline) == Err(e)
  {
    MergePoolsSplit(base, FilePool(file[0], desired), FilePools(file[1..], desired), ApplyToBaseline);
  }

  lemma OntoOneMore(p: seq<Pool>, f: Pool, s: Pools)
    ensures Onto(p + [f], s) == Onto(p, Onto([f], s))
  {
    if s.Ok? { assert (p + [f]) + s.value == p + ([f] + s.value); }
  }

  lemma {:induction false} FilePoolsSurvive(p: seq<Pool>, file: seq<Pool>, desired: seq<Pool>, base: seq<Pool>)
    requires Separate(p, file) && base == p + file
    ensures MergePools(base, FilePools(file, desired), ApplyToBaseline) == Onto(p, Survivors(file, desired))
    decreases |file|
  {
    if file == [] {
      assert base == p;
    } else {
      var f, t := file[0], file[1..];
      assert base == p + [f] + t;
      SeparateTail(p, file, []);
      FilePoolStep(p, f, t, desired);
      if IndexOfPool(desired, f.name) == |desired| {
        FilePoolsSurvive(p, t, desired, p + t);
        JoinPools(base, file, desired, p + t, Onto(p, Survivors(t, desired)));
      } else if Survive(f, desired).Ok? {
        var f' := f.(backends := Survive(f, desired).value);
        SeparateTail(p, file, f'.backends);
        FilePoolsSurvive(p + [f'], t, desired, p + [f'] + t);
        JoinPools(base, file, desired, p + [f'] + t, Onto(p + [f'], Survivors(t, desired)));
        OntoOneMore(p, f', Survivors(t, desired));
      } else {
        JoinFails(base, file, desired, Survive(f, desired).error);
      }
    }
  }

  lemma {:induction false} NewPoolsAppend(file: seq<Pool>, desired: seq<Pool>, l: seq<Pool>, j: nat)
    requires PointwisePools.OwnPoolNames(desired) && j <= |desired|
    requires forall i :: j <= i < |desired| && IndexOfPool(file, desired[i].name) == |file| ==>
               NoPool(l, desired[i].name)
    ensures MergePools(l, NewPools(file, desired[j..]), ApplyToBaseline) == Ok(l + NewPools(file, desired[j..]))
    decreases |desired| - j
  {
    if j == |desired| {
      assert l + [] == l;
    } else {
      var d := desired[j];
      assert desired[j..][0] == d && desired[j..][1..] == desired[j + 1..];
      var rest := NewPools(file, desired[j + 1..]);
      if IndexOfPool(file, d.name) == |file| {
        var o := d.(remove := None, backends := ClearMarkers(d.backends));
        assert ClearMarkers(o.backends) == o.backends;
        NewPoolsAppend(file, desired, l + [o], j + 1);
        MergeOnePool(l, o, ApplyToBaseline);
        assert (l + [o]) + rest == l + ([o] + rest);
        MergePoolsChain(l, [o], l + [o], rest, Ok(l + ([o] + rest)), ApplyToBaseline);
      } else {
        NewPoolsAppend(file, desired, l, j + 1);
      }
    }
  }

  // `to` is what is left of surviving pool `from`.
  predicate SurvivesAs(from: Pool, desired: seq<Pool>, to: Pool) {
    && IndexOfPool(desired, from.name) < |desired|
    && Survive(from, desired) == Ok(to.backends)
    && to == from.(backends := to.backends)
  }

  ghost predicate AllSurviveAs(from: seq<Pool>, desired: seq<Pool>, to: seq<Pool>) {
    |from| == |to| && forall r :: 0 <= r < |to| ==> SurvivesAs(from[r], desired, to[r])
  }

  lemma {:induction false} SurvivorsShape(file: seq<Pool>, desired: seq<Pool>, s: seq<Pool>)
    ensures Survivors(file, desired) == Ok(s) <==> AllSurviveAs(KeptPools(file, desired), desired, s)
    decreases |file|
  {
    var kept := KeptPools(file, desired);
    if file == [] {
    } else if IndexOfPool(desired, file[0].name) == |desired| {
      SurvivorsShape(file[1..], desired, s);
    } else if s != [] {
      SurvivorsShape(file[1..], desired, s[1..]);
      assert kept[1..] == KeptPools(file[1..], desired) && s == [s[0]] + s[1..];
      if AllSurviveAs(kept, desired, s) {
        assert SurvivesAs(kept[0], desired, s[0]);
        assert AllSurviveAs(kept[1..], desired, s[1..]);
      }
      if Survivors(file, desired) == Ok(s) {
        assert AllSurviveAs(kept[1..], desired, s[1..]) && SurvivesAs(kept[0], desired, s[0]);
        forall r | 0 <= r < |s| ensures SurvivesAs(kept[r], desired, s[r]) {
          if r > 0 { assert SurvivesAs(kept[1..][r - 1], desired, s[1..][r - 1]); }
        }
      }
    }
  }

  lemma SurvivorNames(file: seq<Pool>, desired: seq<Pool>, s: seq<Pool>)
    requires Survivors(file, desired) == Ok(s)
    ensures forall i :: 0 <= i < |desired| && IndexOfPool(file, desired[i].name) == |file| ==>
              NoPool(s, desired[i].name)
  {
    SurvivorsShape(file, desired, s);
    forall r | 0 <= r < |s| ensures exists k :: 0 <= k < |file| && file[k].name == s[r].name {
      assert SurvivesAs(KeptPools(file, desired)[r], desired, s[r]);
    }
  }

  // Merging the synthesized pools yields the surviving pools in file order, then the new ones.
  lemma MergedPools(file: seq<Pool>, desired: seq<Pool>)
    requires PoolsNamed(file) && PointwisePools.OwnPoolNames(desired)
    ensures MergePools(file, SynthesizePools(file, desired), ApplyToBaseline) ==
            var s := Survivors(file, desired); if s.Ok? then Ok(s.value + NewPools(file, desired)) else s
  {
    assert [] + file == file && Separate([], file);
    FilePoolsSurvive([], file, desired, file);
    MergePoolsSplit(file, FilePools(file, desired), NewPools(file, desired), ApplyToBaseline);
    var s := Survivors(file, desired);
    if s.Ok? {
      assert [] + s.value == s.value && desired[0..] == desired;
      SurvivorNames(file, desired, s.value);
      NewPoolsAppend(file, desired, s.value, 0);
    }
  }

  // ----- Pools: both directions -----

  lemma SurvivesExactly(file: Pool, desired: seq<Pool>, r: nat)
    requires PointwisePools.OwnPoolNames(desired) && r < |desired|
    requires BackendRoundTrip.Identified(file.backends) && BackendRoundTrip.Identified(desired[r].backends)
    ensures SurvivesAs(file, desired, desired[r]) <==> PoolUpdatable(file, desired[r])
  {
    BackendRoundTrip.BackendsRoundTrip(file.name, file.backends, desired[r].backends);
    if file.name == desired[r].name {
      assert IndexOfPool(desired, file.name) == r;
    }
  }

  lemma KeptSurviveExactly(file: seq<Pool>, desired: seq<Pool>, r: nat)
    requires PoolsIdentified(file) && PoolsIdentified(desired) && r < |desired| && r < |KeptPools(file, desired)|
    ensures SurvivesAs(KeptPools(file, desired)[r], desired, desired[r])
       <==> PoolUpdatable(KeptPools(file, desired)[r], desired[r])
  {
    var f := KeptPools(file, desired)[r];
    var i :| 0 <= i < |file| && file[i] == f;
    SurvivesExactly(f, desired, r);
  }

  // The survivors are the first desired pools exactly when each can become its counterpart.
  lemma SurvivorsReachExactly(file: seq<Pool>, desired: seq<Pool>, k: nat)
    requires PoolsIdentified(file) && PoolsIdentified(desired)
    requires k == |KeptPools(file, desired)| <= |desired|
    ensures Survivors(file, desired) == Ok(desired[..k])
       <==> forall r :: 0 <= r < k ==> PoolUpdatable(KeptPools(file, desired)[r], desired[r])
  {
    var kept := KeptPools(file, desired);
    SurvivorsShape(file, desired, desired[..k]);
    forall r | 0 <= r < k
      ensures SurvivesAs(kept[r], desired, desired[..k][r]) <==> PoolUpdatable(kept[r], desired[r])
    {
      KeptSurviveExactly(file, desired, r);
    }
  }

  predicate Unmarked(p: Pool) {
    p.remove.None? && ClearMarkers(p.backends) == p.backends
  }

  lemma {:induction false} NewPoolsAreTheRest(file: seq<Pool>, desired: seq<Pool>, k: nat)
    requires k <= |desired|
    requires forall r :: 0 <= r < k ==> IndexOfPool(file, desired[r].name) < |file|
    requires forall r :: k <= r < |desired| ==> IndexOfPool(file, desired[r].name) == |file| && Unmarked(desired[r])
    ensures NewPools(file, desired) == desired[k..]
    decreases |desired|
  {
    if desired != [] {
      var d, t := desired[0], desired[1..];
      assert forall r :: 0 <= r < |t| ==> t[r] == desired[r + 1];
      NewPoolsAreTheRest(file, t, if k > 0 then k - 1 else 0);
      if k == 0 {
        assert d.(remove := None, backends := d.backends) == d;
        assert [d] + t == desired[k..] && t[0..] == t;
      } else {
        assert t[k - 1..] == desired[k..];
      }
    }
  }

  lemma CounterpartIsKnown(file: seq<Pool>, desired: seq<Pool>)
    requires PoolsExpressible(file, desired)
    ensures forall r :: 0 <= r < |KeptPools(file, desired)| ==> IndexOfPool(file, desired[r].name) < |file|
  {
    var kept := KeptPools(file, desired);
    forall r | 0 <= r < |kept| ensures IndexOfPool(file, desired[r].name) < |file| {
      assert PoolUpdatable(kept[r], desired[r]) && kept[r] in file;
    }
  }

  lemma ExpressibleSurvivors(file: seq<Pool>, desired: seq<Pool>, k: nat)
    requires PoolsIdentified(file) && PoolsIdentified(desired) && PoolsExpressible(file, desired)
    requires k == |KeptPools(file, desired)|
    ensures k <= |desired| && Survivors(file, desired) == Ok(desired[..k])
  {
    SurvivorsReachExactly(file, desired, k);
  }

  lemma ExpressibleRest(file: seq<Pool>, desired: seq<Pool>, k: nat)
    requires PoolsIdentified(desired) && PoolsExpressible(file, desired) && k == |KeptPools(file, desired)|
    ensures NewPools(file, desired) == desired[k..]
  {
    CounterpartIsKnown(file, desired);
    forall r | k <= r < |desired| ensures Unmarked(desired[r]) {
      assert BackendRoundTrip.Identified(desired[r].backends);
    }
    NewPoolsAreTheRest(file, desired, k);
  }

  lemma MergedPoolsAre(file: seq<Pool>, desired: seq<Pool>, s: seq<Pool>, added: seq<Pool>, r: seq<Pool>)
    requires PoolsNamed(file) && PointwisePools.OwnPoolNames(desired)
    requires Survivors(file, desired) == Ok(s) && NewPools(file, desired) == added && r == s + added
    ensures MergePools(file, SynthesizePools(file, desired), ApplyToBaseline) == Ok(r)
  {
    MergedPools(file, desired);
  }

  lemma TakeThenDrop<T>(s: seq<T>, k: nat)
    requires k <= |s|
    ensures s == s[..k] + s[k..]
  {
  }

  lemma ExpressiblePoolsRoundTrip(file: seq<Pool>, desired: seq<Pool>)
    requires PoolsIdentified(file) && PoolsIdentified(desired) && PoolsExpressible(file, desired)
    ensures MergePools(file, SynthesizePools(file, desired), ApplyToBaseline) == Ok(desired)
  {
    var k := |KeptPools(file, desired)|;
    ExpressibleSurvivors(file, desired, k);
    ExpressibleRest(file, desired, k);
    TakeThenDrop(desired, k);
    MergedPoolsAre(file, desired, desired[..k], desired[k..], desired);
  }

  lemma {:induction false} NewPoolsAreNew(file: seq<Pool>, desired: seq<Pool>, i: nat)
    requires i < |NewPools(file, desired)|
    ensures IndexOfPool(file, NewPools(file, desired)[i].name) == |file|
  {
    if IndexOfPool(file, desired[0].name) == |file| {
      if i > 0 { NewPoolsAreNew(file, desired[1..], i - 1); }
    } else {
      NewPoolsAreNew(file, desired[1..], i);
    }
  }

  // A result that equals the desired pools splits as the merge lays it out.
  lemma ReachedSplit(file: seq<Pool>, desired: seq<Pool>, k: nat)
    requires PoolsNamed(file) && PointwisePools.OwnPoolNames(desired) && k == |KeptPools(file, desired)|
    requires MergePools(file, SynthesizePools(file, desired), ApplyToBaseline) == Ok(desired)
    ensures k <= |desired| && Survivors(file, desired) == Ok(desired[..k]) && NewPools(file, desired) == desired[k..]
  {
    MergedPools(file, desired);
    var s := Survivors(file, desired).value;
    SurvivorsShape(file, desired, s);
    assert desired == s + NewPools(file, desired);
  }

  lemma ReachedPrefix(file: seq<Pool>, desired: seq<Pool>, k: nat)
    requires PoolsIdentified(file) && PoolsIdentified(desired) && k == |KeptPools(file, desired)| <= |desired|
    requires Survivors(file, desired) == Ok(desired[..k])
    ensures forall r :: 0 <= r < k ==> PoolUpdatable(KeptPools(file, desired)[r], desired[r])
  {
    SurvivorsReachExactly(file, desired, k);
  }

  lemma ReachedRest(file: seq<Pool>, desired: seq<Pool>, k: nat, j: nat)
    requires k <= j < |desired| && NewPools(file, desired) == desired[k..]
    ensures IndexOfPool(file, desired[j].name) == |file|
  {
    NewPoolsAreNew(file, desired, j - k);
    assert desired[j] == desired[k..][j - k];
  }

  lemma ReachedIsExpressible(file: seq<Pool>, desired: seq<Pool>, k: nat)
    requires PoolsIdentified(file) && PoolsIdentified(desired) && k == |KeptPools(file, desired)| <= |desired|
    requires Survivors(file, desired) == Ok(desired[..k]) && NewPools(file, desired) == desired[k..]
    ensures PoolsExpressible(file, desired)
  {
    ReachedPrefix(file, desired, k);
    forall j | k <= j < |desired| ensures IndexOfPool(file, desired[j].name) == |file| {
      ReachedRest(file, desired, k, j);
    }
  }

  lemma PoolsRoundTrip(file: seq<Pool>, desired: seq<Pool>)
    requires PoolsIdentified(file) && PoolsIdentified(desired)
    ensures MergePools(file, SynthesizePools(file, desired), ApplyToBaseline) == Ok(desired)
            <==> PoolsExpressible(file, desired)
  {
    if PoolsExpressible(file, desired) {
      ExpressiblePoolsRoundTrip(file, desired);
    }
    if MergePools(file, SynthesizePools(file, desired), ApplyToBaseline) == Ok(desired) {
      var k := |KeptPools(file, desired)|;
      ReachedSplit(file, desired, k);
      ReachedIsExpressible(file, desired, k);
    }
  }

  // ----- The same pools with other backends -----

  // Merging what is synthesized for one pool leads to the desired backends.
  predicate Returns(pool: string, file: seq<Backend>, desired: seq<Backend>) {
    MergeBackends(pool, file, SynthesizeBackends(file, desired), ApplyToBaseline) == Ok(desired)
  }

  ghost predicate SamePools(file: seq<Pool>, desired: seq<Pool>) {
    |desired| == |file| && forall i :: 0 <= i < |file| ==> desired[i] == file[i].(backends := desired[i].backends)
  }

  lemma {:induction false} AllPoolsKept(file: seq<Pool>, desired: seq<Pool>)
    requires forall i :: 0 <= i < |file| ==> IndexOfPool(desired, file[i].name) < |desired|
    ensures KeptPools(file, desired) == file
  {
    if file != [] {
      assert IndexOfPool(desired, file[0].name) < |desired|;
      AllPoolsKept(file[1..], desired);
      assert [file[0]] + file[1..] == file;
    }
  }

  lemma SamePoolsFound(file: seq<Pool>, desired: seq<Pool>)
    requires PoolsNamed(file) && SamePools(file, desired)
    ensures PointwisePools.OwnPoolNames(desired) && KeptPools(file, desired) == file && NewPools(file, desired) == []
    ensures forall i :: 0 <= i < |file| ==>
              IndexOfPool(desired, file[i].name) == i && IndexOfPool(file, desired[i].name) == i
  {
    forall i | 0 <= i < |file| ensures desired[i].name == file[i].name {}
    AllPoolsKept(file, desired);
    NewPoolsAreTheRest(file, desired, |desired|);
  }

  ghost predicate AllReturn(file: seq<Pool>, desired: seq<Pool>)
    requires |desired| == |file|
  {
    forall i :: 0 <= i < |file| ==> Returns(file[i].name, file[i].backends, desired[i].backends)
  }

  lemma SurviveIffReturn(file: seq<Pool>, desired: seq<Pool>)
    requires SamePools(file, desired)
    requires forall i :: 0 <= i < |file| ==> IndexOfPool(desired, file[i].name) == i
    ensures AllSurviveAs(file, desired, desired) <==> AllReturn(file, desired)
  {
    forall i | 0 <= i < |file|
      ensures SurvivesAs(file[i], desired, desired[i]) <==> Returns(file[i].name, file[i].backends, desired[i].backends)
    {
      assert IndexOfPool(desired, file[i].name) == i;
    }
  }

  lemma MergedWithoutNew(file: seq<Pool>, desired: seq<Pool>)
    requires PoolsNamed(file) && PointwisePools.OwnPoolNames(desired) && NewPools(file, desired) == []
    ensures MergePools(file, SynthesizePools(file, desired), ApplyToBaseline) == Survivors(file, desired)
  {
    MergedPools(file, desired);
    var s := Survivors(file, desired);
    if s.Ok? { assert s.value + [] == s.value; }
  }

  // Between configurations with the same pools, each pool is on its own.
  lemma SamePoolsReturn(file: seq<Pool>, desired: seq<Pool>)
    requires PoolsNamed(file) && SamePools(file, desired)
    ensures MergePools(file, SynthesizePools(file, desired), ApplyToBaseline) == Ok(desired)
            <==> AllReturn(file, desired)
  {
    SamePoolsFound(file, desired);
    MergedWithoutNew(file, desired);
    SurvivorsShape(file, desired, desired);
    SurviveIffReturn(file, desired);
  }

  // ----- Whole configurations -----

  lemma SectionsRoundTrip(file: map<Section, string>, desired: map<Section, string>)
    ensures file + ChangedSections(file, desired) == desired <==> file.Keys <= desired.Keys
  {
    var merged := file + ChangedSections(file, desired);
    if file.Keys <= desired.Keys {
      assert merged.Keys == desired.Keys;
    }
    if merged == desired {
      assert file.Keys <= merged.Keys;
    }
  }

  lemma ListRoundTrip(file: seq<Named>, desired: seq<Named>, error: ConfigError)
    ensures var l := SynthesizeList(file, desired, error);
            && (l.Ok? <==> (file != [] ==> desired != []))
            && (l.Ok? ==> (if l.value != [] then l.value else file) == desired)
  {
  }

  // What has to come back, part by part.
  ghost predicate PartsReturn(file: Config, desired: Config) {
    && desired.rules == file.rules && desired.tracing == file.tracing
    && file.sections + ChangedSections(file.sections, desired.sections) == desired.sections
    && (file.dataSources != [] ==> desired.dataSources != [])
    && (file.caches != [] ==> desired.caches != [])
    && MergeMetricsSection(file.metrics, SynthesizeMetrics(file.metrics, desired.metrics)) == desired.metrics
    && MergePools(file.pools, SynthesizePools(file.pools, desired.pools), ApplyToBaseline) == Ok(desired.pools)
  }

  lemma RoundTripsByParts(file: Config, desired: Config)
    ensures RoundTrips(file, desired) <==> PartsReturn(file, desired)
  {
    ListRoundTrip(file.dataSources, desired.dataSources, CannotClearDataSources);
    ListRoundTrip(file.caches, desired.caches, CannotClearCaches);
  }

  // The invariant stated for synthesis, with its exact domain.
  lemma SynthesisRoundTrip(file: Config, desired: Config)
    requires ConfigIdentified(file) && ConfigIdentified(desired)
    ensures RoundTrips(file, desired) <==> ConfigExpressible(file, desired)
  {
    RoundTripsByParts(file, desired);
    SectionsRoundTrip(file.sections, desired.sections);
    MetricsRoundTrip(file.metrics, desired.metrics);
    PoolsRoundTrip(file.pools, desired.pools);
  }

  // An empty patch changes nothing but the schema version.
  lemma EmptyPatchIsNeutral(file: Config, patch: Config, mode: Mode)
    requires PatchIsEmpty(patch)
    ensures MergeConfigs(file, patch, mode) == Ok(file.(schemaVersion := patch.schemaVersion))
  {
    assert file.sections + patch.sections == file.sections;
  }
}
