/**
 Merging the synthesized backend entries back onto the file's backends.

 The code states the round trip without a condition. `Expressible` is the exact
 condition, in terms of the lookup that synthesis itself uses, and
 `BackendsRoundTrip` proves both directions.
 */
module BackendRoundTrip {
  import opened Wrappers
  import opened ConfigModel
  import opened Merge
  import opened Synthesize

  // Every backend has its own identity: names are not repeated, and a backend
  // without a name is alone on its address. No remove markers, no empty addresses.
  ghost predicate Identified(l: seq<Backend>) {
    && (forall i :: 0 <= i < |l| ==> l[i].address != "" && l[i].remove.None?)
    && (forall i, j :: 0 <= i < |l| && 0 <= j < |l| && i != j ==> Apart(l[i], l[j]))
  }

  // Two entries that an overlay entry for the first cannot confuse.
  predicate Apart(b: Backend, c: Backend) {
    if HasName(b) then b.name != c.name else b.address != c.address
  }

  // The file backends that have a counterpart in the desired list.
  function Kept(file: seq<Backend>, desired: seq<Backend>): (r: seq<Backend>)
    ensures |r| <= |file|
  {
    if file == [] then []
    else if FindBackend(desired, file[0]) < |desired| then [file[0]] + Kept(file[1..], desired)
    else Kept(file[1..], desired)
  }

  lemma {:induction false} KeptIsFound(file: seq<Backend>, desired: seq<Backend>, i: nat)
    requires i < |Kept(file, desired)|
    ensures FindBackend(desired, Kept(file, desired)[i]) < |desired| && Kept(file, desired)[i] in file
  {
    if FindBackend(desired, file[0]) == |desired| {
      KeptIsFound(file[1..], desired, i);
    } else if i > 0 {
      KeptIsFound(file[1..], desired, i - 1);
    }
  }

  // An overlay entry can turn the file backend into the desired one: the identity
  // stays, a weight is never unset, and only address and weight change.
  predicate Updatable(file: Backend, desired: Backend) {
    && (if HasName(desired) then desired.name == file.name
        else desired.address == file.address && (desired.name == file.name || desired.name == Some("")))
    && (file.weight.Some? ==> desired.weight.Some?)
    && desired.probeQname == file.probeQname
    && desired.probeQtype == file.probeQtype
    && desired.probeSource == file.probeSource
    && desired.transport == file.transport
  }

  // The r-th survivor is the counterpart of desired backend `k + r`, and can become it.
  ghost predicate LineUp(kept: seq<Backend>, desired: seq<Backend>, k: nat) {
    && k + |kept| <= |desired|
    && forall r :: 0 <= r < |kept| ==>
         FindBackend(desired, kept[r]) == k + r && Updatable(kept[r], desired[k + r])
  }

  // Survivors come first, in file order, each updatable; what follows is unknown to the file.
  ghost predicate Expressible(file: seq<Backend>, desired: seq<Backend>) {
    var kept := Kept(file, desired);
    && LineUp(kept, desired, 0)
    && (forall j :: |kept| <= j < |desired| ==> FindBackend(file, desired[j]) == |file|)
  }

  // ----- Expressible lists round-trip -----

  lemma RemovalStep(pool: string, p: seq<Backend>, f: Backend, t: seq<Backend>)
    requires f.address != ""
    requires HasName(f) ==> NoName(p, f.name.value) && NoName(t, f.name.value)
    requires !HasName(f) ==> NoAddress(p, f.address) && NoAddress(t, f.address)
    ensures MergeBackends(pool, p + [f] + t, [RemoveMarkerFor(f)], ApplyToBaseline) == Ok(p + t)
  {
    var o := RemoveMarkerFor(f);
    MergeOne(pool, p + [f] + t, o, ApplyToBaseline);
    if HasName(f) { DropByName(p, f, t, f.name.value); } else { DropByAddress(p, f, t); }
  }

  lemma DeltaReaches(file: Backend, desired: Backend)
    requires Updatable(file, desired) && file.address != "" && desired.address != ""
    requires file.remove.None? && desired.remove.None?
    ensures BackendDelta(file, desired).None? ==> file == desired
    ensures BackendDelta(file, desired).Some? ==>
              var o := BackendDelta(file, desired).value;
              && o.remove.None?
              && UpdateBackend(file, o) == desired
              && (HasName(desired) ==> o.name == desired.name)
              && (!HasName(desired) ==> !HasName(o) && o.address == desired.address)
  {
  }

  lemma UpdateStep(pool: string, p: seq<Backend>, f: Backend, t: seq<Backend>, d: Backend)
    requires Updatable(f, d) && f.address != "" && d.address != "" && f.remove.None? && d.remove.None?
    requires HasName(d) ==> NoName(p, d.name.value)
    requires !HasName(d) ==> NoAddress(p, d.address)
    ensures var o := BackendDelta(f, d);
            MergeBackends(pool, p + [f] + t, if o.Some? then [o.value] else [], ApplyToBaseline) == Ok(p + [d] + t)
  {
    DeltaReaches(f, d);
    var delta := BackendDelta(f, d);
    if delta.Some? {
      var o, l := delta.value, p + [f] + t;
      MergeOne(pool, l, o, ApplyToBaseline);
      assert l[|p|] == f;
      assert forall k :: 0 <= k < |p| ==> l[k] == p[k];
      if HasName(d) {
        assert IndexOfName(l, d.name.value) == |p|;
      } else {
        assert IndexOfAddress(l, d.address) == |p|;
      }
      assert l[|p| := d] == p + [d] + t;
    }
  }

  // A backend shares its identity with no other entry of its list.
  lemma AloneInList(l: seq<Backend>, i: nat)
    requires Identified(l) && i < |l|
    ensures HasName(l[i]) ==> NoName(l[..i], l[i].name.value) && NoName(l[i + 1..], l[i].name.value)
    ensures !HasName(l[i]) ==> NoAddress(l[..i], l[i].address) && NoAddress(l[i + 1..], l[i].address)
  {
  }

  lemma UnmatchedIsAbsent(l: seq<Backend>, b: Backend)
    requires FindBackend(l, b) == |l| && b.address != ""
    ensures NoAddress(l, b.address) && (HasName(b) ==> NoName(l, b.name.value))
  {
  }

  lemma IdentifiedTail(l: seq<Backend>)
    requires Identified(l) && l != []
    ensures Identified(l[1..])
  {
  }

  // One file backend, with the survivors before it already in their desired form.
  lemma FileStepReaches(pool: string, file: seq<Backend>, desired: seq<Backend>, k: nat, k': nat)
    requires Identified(file) && Identified(desired) && file != [] && k <= k' <= |desired|
    requires FindBackend(desired, file[0]) == |desired| ==> k' == k
    requires FindBackend(desired, file[0]) < |desired| ==>
               k' == k + 1 && FindBackend(desired, file[0]) == k && Updatable(file[0], desired[k])
    ensures MergeBackends(pool, desired[..k] + file, FileEntry(file[0], desired), ApplyToBaseline)
            == Ok(desired[..k'] + file[1..])
  {
    var f, t, p := file[0], file[1..], desired[..k];
    assert p + file == p + [f] + t;
    AloneInList(file, 0);
    if FindBackend(desired, f) == |desired| {
      UnmatchedIsAbsent(desired, f);
      RemovalStep(pool, p, f, t);
    } else {
      AloneInList(desired, k);
      UpdateStep(pool, p, f, t, desired[k]);
      assert p + [desired[k]] + t == desired[..k + 1] + t;
    }
  }

  lemma LineUpTail(f: Backend, rest: seq<Backend>, desired: seq<Backend>, k: nat)
    requires LineUp([f] + rest, desired, k)
    ensures k < |desired| && FindBackend(desired, f) == k && Updatable(f, desired[k])
    ensures LineUp(rest, desired, k + 1)
  {
    var all := [f] + rest;
    assert all[0] == f;
    forall r | 0 <= r < |rest|
      ensures FindBackend(desired, rest[r]) == k + 1 + r && Updatable(rest[r], desired[k + 1 + r])
    {
      assert all[r + 1] == rest[r];
    }
  }

  function NextK(f: Backend, desired: seq<Backend>, k: nat): nat {
    if FindBackend(desired, f) < |desired| then k + 1 else k
  }

  ghost predicate StepsTo(pool: string, base: seq<Backend>, f: Backend, desired: seq<Backend>, next: seq<Backend>) {
    MergeBackends(pool, base, FileEntry(f, desired), ApplyToBaseline) == Ok(next)
  }

  // The lists that the file's entries go through, one after the other.
  ghost predicate Chain(pool: string, file: seq<Backend>, desired: seq<Backend>, bases: seq<seq<Backend>>) {
    |bases| == |file| + 1 && forall j :: 0 <= j < |file| ==> StepsTo(pool, bases[j], file[j], desired, bases[j + 1])
  }

  lemma {:induction false} FoldChain(pool: string, file: seq<Backend>, desired: seq<Backend>, bases: seq<seq<Backend>>)
    requires Chain(pool, file, desired, bases)
    ensures MergeBackends(pool, bases[0], FileEntries(file, desired), ApplyToBaseline) == Ok(bases[|file|])
  {
    if file != [] {
      assert StepsTo(pool, bases[0], file[0], desired, bases[0 + 1]);
      ChainTail(pool, file, desired, bases);
      FoldChain(pool, file[1..], desired, bases[1..]);
      PhaseJoin(pool, bases[0], file, desired, bases[1], bases[|file|]);
    }
  }

  lemma ChainTail(pool: string, file: seq<Backend>, desired: seq<Backend>, bases: seq<seq<Backend>>)
    requires Chain(pool, file, desired, bases) && file != []
    ensures Chain(pool, file[1..], desired, bases[1..])
  {
    forall j | 0 <= j < |file[1..]| ensures StepsTo(pool, bases[1..][j], file[1..][j], desired, bases[1..][j + 1]) {
      assert StepsTo(pool, bases[j + 1], file[j + 1], desired, bases[j + 1 + 1]);
    }
  }

  lemma ChainCons(pool: string, file: seq<Backend>, desired: seq<Backend>, base: seq<Backend>, rest: seq<seq<Backend>>)
    requires file != [] && Chain(pool, file[1..], desired, rest) && StepsTo(pool, base, file[0], desired, rest[0])
    ensures Chain(pool, file, desired, [base] + rest)
  {
    var bases := [base] + rest;
    forall j | 0 <= j < |file| ensures StepsTo(pool, bases[j], file[j], desired, bases[j + 1]) {
      if j > 0 { assert StepsTo(pool, rest[j - 1], file[1..][j - 1], desired, rest[j - 1 + 1]); }
    }
  }

  // While the file's backends are worked off, the survivors become the first desired backends.
  lemma {:induction false} BuildChain(pool: string, file: seq<Backend>, desired: seq<Backend>, k: nat)
    returns (bases: seq<seq<Backend>>)
    requires Identified(file) && Identified(desired) && LineUp(Kept(file, desired), desired, k)
    ensures Chain(pool, file, desired, bases)
    ensures bases[0] == desired[..k] + file && bases[|file|] == desired[..k + |Kept(file, desired)|]
    decreases |file|
  {
    if file == [] {
      bases := [desired[..k] + file];
    } else {
      var k' := NextK(file[0], desired, k);
      KeptTail(file, desired, k, k');
      var rest := BuildChain(pool, file[1..], desired, k');
      assert StepsTo(pool, desired[..k] + file, file[0], desired, rest[0]) by {
        FileStepReaches(pool, file, desired, k, k');
      }
      ChainCons(pool, file, desired, desired[..k] + file, rest);
      bases := [desired[..k] + file] + rest;
    }
  }

  lemma PhaseJoin(pool: string, base: seq<Backend>, file: seq<Backend>, desired: seq<Backend>, next: seq<Backend>,
                  done: seq<Backend>)
    requires file != [] && MergeBackends(pool, base, FileEntry(file[0], desired), ApplyToBaseline) == Ok(next)
    requires MergeBackends(pool, next, FileEntries(file[1..], desired), ApplyToBaseline) == Ok(done)
    ensures MergeBackends(pool, base, FileEntries(file, desired), ApplyToBaseline) == Ok(done)
  {
    MergeBackendsChain(pool, base, FileEntry(file[0], desired), next, FileEntries(file[1..], desired), Ok(done),
                       ApplyToBaseline);
  }

  lemma KeptTail(file: seq<Backend>, desired: seq<Backend>, k: nat, k': nat)
    requires Identified(file) && file != [] && LineUp(Kept(file, desired), desired, k)
    requires k' == NextK(file[0], desired, k)
    ensures Identified(file[1..]) && LineUp(Kept(file[1..], desired), desired, k')
    ensures k' + |Kept(file[1..], desired)| == k + |Kept(file, desired)| && k' <= |desired|
    ensures k' > k ==> FindBackend(desired, file[0]) == k && Updatable(file[0], desired[k])
  {
    IdentifiedTail(file);
    if k' > k { LineUpTail(file[0], Kept(file[1..], desired), desired, k); }
  }

  lemma AddStep(pool: string, p: seq<Backend>, d: Backend)
    requires d.address != "" && d.remove.None?
    requires HasName(d) ==> NoName(p, d.name.value)
    requires !HasName(d) ==> NoAddress(p, d.address)
    ensures MergeBackends(pool, p, [d], ApplyToBaseline) == Ok(p + [d])
  {
    MergeOne(pool, p, d, ApplyToBaseline);
    assert d.(remove := None) == d;
    if HasName(d) {
      assert IndexOfName(p, d.name.value) == |p|;
    } else {
      assert IndexOfAddress(p, d.address) == |p|;
    }
  }

  lemma {:induction false} AddPhaseReaches(pool: string, file: seq<Backend>, desired: seq<Backend>, j: nat)
    requires Identified(desired) && j <= |desired|
    requires forall i :: j <= i < |desired| ==> FindBackend(file, desired[i]) == |file|
    ensures MergeBackends(pool, desired[..j], Additions(file, desired[j..]), ApplyToBaseline) == Ok(desired)
    decreases |desired| - j
  {
    if j == |desired| {
      assert desired[..j] == desired;
    } else {
      var d, p := desired[j], desired[..j];
      assert desired[j..][0] == d && desired[j..][1..] == desired[j + 1..];
      assert d.(remove := None) == d;
      AddPhaseReaches(pool, file, desired, j + 1);
      AloneInList(desired, j);
      AddStep(pool, p, d);
      assert p + [d] == desired[..j + 1];
      MergeBackendsChain(pool, p, [d], desired[..j + 1], Additions(file, desired[j + 1..]), Ok(desired),
                         ApplyToBaseline);
    }
  }

  lemma UpdatedIsKnown(file: seq<Backend>, f: Backend, d: Backend)
    requires f in file && Updatable(f, d) && d.address != ""
    ensures FindBackend(file, d) < |file|
  {
    var i :| 0 <= i < |file| && file[i] == f;
    if HasName(d) {
      assert IndexOfName(file, d.name.value) <= i;
    } else {
      assert IndexOfAddress(file, d.address) <= i;
    }
  }

  lemma {:induction false} SurvivorsAreNotAdded(file: seq<Backend>, desired: seq<Backend>, k: nat)
    requires k <= |desired|
    requires forall r :: 0 <= r < k ==> FindBackend(file, desired[r]) < |file|
    ensures Additions(file, desired) == Additions(file, desired[k..])
  {
    if k == 0 {
      assert desired[k..] == desired;
    } else {
      assert desired[1..][k - 1..] == desired[k..];
      assert FindBackend(file, desired[0]) < |file|;
      SurvivorsAreNotAdded(file, desired[1..], k - 1);
    }
  }

  lemma AdditionsAreTheRest(file: seq<Backend>, desired: seq<Backend>)
    requires Identified(desired) && Expressible(file, desired)
    ensures Additions(file, desired) == Additions(file, desired[|Kept(file, desired)|..])
  {
    var kept := Kept(file, desired);
    forall r | 0 <= r < |kept| ensures FindBackend(file, desired[r]) < |file| {
      KeptIsFound(file, desired, r);
      UpdatedIsKnown(file, kept[r], desired[r]);
    }
    SurvivorsAreNotAdded(file, desired, |kept|);
  }

  lemma FilePhaseReaches(pool: string, file: seq<Backend>, desired: seq<Backend>, k: nat)
    requires Identified(file) && Identified(desired) && Expressible(file, desired) && k == |Kept(file, desired)|
    ensures MergeBackends(pool, file, FileEntries(file, desired), ApplyToBaseline) == Ok(desired[..k])
  {
    var bases := BuildChain(pool, file, desired, 0);
    NothingBefore(desired, file);
    FoldFrom(pool, file, desired, bases, file, desired[..k]);
  }

  lemma NothingBefore(desired: seq<Backend>, file: seq<Backend>)
    ensures desired[..0] + file == file
  {
  }

  lemma FoldFrom(pool: string, file: seq<Backend>, desired: seq<Backend>, bases: seq<seq<Backend>>,
                 first: seq<Backend>, last: seq<Backend>)
    requires Chain(pool, file, desired, bases) && bases[0] == first && bases[|file|] == last
    ensures MergeBackends(pool, first, FileEntries(file, desired), ApplyToBaseline) == Ok(last)
  {
    FoldChain(pool, file, desired, bases);
  }

  lemma RestIsAdded(pool: string, file: seq<Backend>, desired: seq<Backend>, k: nat)
    requires Identified(desired) && Expressible(file, desired) && k == |Kept(file, desired)|
    ensures MergeBackends(pool, desired[..k], Additions(file, desired), ApplyToBaseline) == Ok(desired)
  {
    AddPhaseReaches(pool, file, desired, k);
    AdditionsAreTheRest(file, desired);
  }

  lemma ExpressibleRoundTrips(pool: string, file: seq<Backend>, desired: seq<Backend>)
    requires Identified(file) && Identified(desired) && Expressible(file, desired)
    ensures MergeBackends(pool, file, SynthesizeBackends(file, desired), ApplyToBaseline) == Ok(desired)
  {
    var k := |Kept(file, desired)|;
    FilePhaseReaches(pool, file, desired, k);
    RestIsAdded(pool, file, desired, k);
    MergeBackendsChain(pool, file, FileEntries(file, desired), desired[..k], Additions(file, desired), Ok(desired),
                       ApplyToBaseline);
  }

  // ----- Lists that round-trip are expressible -----

  predicate KeepsName(desired: seq<Backend>, f: Backend) {
    HasName(f) && IndexOfName(desired, f.name.value) < |desired|
  }

  // What a list entry that started as file backend `f` may have become, whatever
  // other entries of the synthesized overlay were applied to it.
  ghost predicate Descends(desired: seq<Backend>, f: Backend, z: Backend) {
    && z.probeQname == f.probeQname && z.probeQtype == f.probeQtype
    && z.probeSource == f.probeSource && z.transport == f.transport
    && z.remove.None?
    && (f.weight.Some? ==> z.weight.Some?)
    && (z.address == f.address
        || (KeepsName(desired, f) && z.address == desired[IndexOfName(desired, f.name.value)].address))
    && (z.name == f.name || (z.name == Some("") && !KeepsName(desired, f)))
  }

  ghost predicate Settled(desired: seq<Backend>, f: Backend, z: Backend) {
    KeepsName(desired, f) ==> z.address == desired[IndexOfName(desired, f.name.value)].address
  }

  // `l` descends entry by entry from `x`, whose first `k` entries have been worked off.
  ghost predicate Tracks(desired: seq<Backend>, x: seq<Backend>, l: seq<Backend>, k: nat) {
    && |l| == |x| && k <= |x|
    && (forall r :: 0 <= r < |x| ==> Descends(desired, x[r], l[r]))
    && (forall r :: 0 <= r < k ==> Settled(desired, x[r], l[r]))
    && (forall r :: k <= r < |x| ==> l[r].name == x[r].name)
  }

  ghost predicate AllMatched(desired: seq<Backend>, x: seq<Backend>, k: nat)
    requires k <= |x|
  {
    forall r :: 0 <= r < k ==> FindBackend(desired, x[r]) < |desired|
  }

  lemma NameBelongs(desired: seq<Backend>, x: seq<Backend>, l: seq<Backend>, k: nat, r: nat, q: nat)
    requires Identified(x) && Tracks(desired, x, l, k) && r < |x| && q < |x|
    requires HasName(x[q]) && l[r].name == x[q].name
    ensures r == q
  {
    assert Descends(desired, x[r], l[r]);
  }

  lemma IndexOfOwnName(l: seq<Backend>, i: nat)
    requires Identified(l) && i < |l| && HasName(l[i])
    ensures IndexOfName(l, l[i].name.value) == i
  {
  }

  lemma IndexOfOwnAddress(l: seq<Backend>, i: nat)
    requires Identified(l) && i < |l| && !HasName(l[i])
    ensures IndexOfAddress(l, l[i].address) == i
  {
  }

  lemma DeletionTracks(desired: seq<Backend>, x: seq<Backend>, l: seq<Backend>, k: nat)
    requires Identified(x) && Tracks(desired, x, l, k) && k < |x| && AllMatched(desired, x, k)
    ensures var x', l' := x[..k] + x[k + 1..], l[..k] + l[k + 1..];
            Identified(x') && Tracks(desired, x', l', k) && AllMatched(desired, x', k)
  {
    var x', l' := x[..k] + x[k + 1..], l[..k] + l[k + 1..];
    assert forall r :: 0 <= r < |x'| ==> x'[r] == x[if r < k then r else r + 1];
    assert forall r :: 0 <= r < |l'| ==> l'[r] == l[if r < k then r else r + 1];
  }

  lemma RemovalTracks(pool: string, desired: seq<Backend>, x: seq<Backend>, l: seq<Backend>, k: nat)
    requires Identified(x) && Tracks(desired, x, l, k) && k < |x|
    requires FindBackend(desired, x[k]) == |desired|
    ensures MergeBackends(pool, l, FileEntry(x[k], desired), ApplyToBaseline) == Ok(l[..k] + l[k + 1..])
  {
    var f, p, t := x[k], l[..k], l[k + 1..];
    UnmatchedIsAbsent(desired, f);
    assert Descends(desired, f, l[k]) && l[k].name == f.name && l[k].address == f.address;
    assert l == p + [l[k]] + t;
    assert forall r :: 0 <= r < |p| ==> p[r] == l[r];
    assert forall r :: 0 <= r < |t| ==> t[r] == l[r + k + 1];
    if HasName(f) {
      forall r | 0 <= r < |l| && r != k ensures l[r].name != f.name {
        if l[r].name == f.name { NameBelongs(desired, x, l, k, r, k); }
      }
    } else {
      forall r | 0 <= r < |l| && r != k ensures l[r].address != f.address {
        assert Descends(desired, x[r], l[r]);
      }
    }
    assert RemoveMarkerFor(f) == RemoveMarkerFor(l[k]);
    RemovalStep(pool, p, l[k], t);
  }

  lemma NamedUpdateTracks(desired: seq<Backend>, x: seq<Backend>, l: seq<Backend>, k: nat, o: Backend, q: nat)
    requires Identified(x) && Identified(desired) && Tracks(desired, x, l, k) && k < |x|
    requires HasName(o) && IndexOfName(desired, o.name.value) < |desired|
    requires o.address == "" || o.address == desired[IndexOfName(desired, o.name.value)].address
    requires KeepsName(desired, x[k]) ==>
               && o.name == x[k].name
               && (o.address != "" || x[k].address == desired[IndexOfName(desired, o.name.value)].address)
    requires q < |l| && l[q].name == o.name
    ensures Tracks(desired, x, l[q := UpdateBackend(l[q], o)], k + 1)
  {
    assert Descends(desired, x[q], l[q]) && x[q].name == o.name;
    var l' := l[q := UpdateBackend(l[q], o)];
    forall r | 0 <= r < |x| ensures Descends(desired, x[r], l'[r]) {
      assert Descends(desired, x[r], l[r]);
    }
    forall r | 0 <= r < k + 1 ensures Settled(desired, x[r], l'[r]) {
      if r < k {
        assert Settled(desired, x[r], l[r]);
      } else if KeepsName(desired, x[k]) {
        NameBelongs(desired, x, l, k, q, k);
        assert Descends(desired, x[k], l[k]);
      }
    }
  }

  lemma AddressUpdateTracks(desired: seq<Backend>, x: seq<Backend>, l: seq<Backend>, k: nat, o: Backend, q: nat, j: nat)
    requires Identified(x) && Identified(desired) && Tracks(desired, x, l, k) && k < |x|
    requires !HasName(o) && j < |desired| && !HasName(desired[j]) && o.address == desired[j].address
    requires !KeepsName(desired, x[k])
    requires q <= k && l[q].address == o.address
    ensures Tracks(desired, x, l[q := UpdateBackend(l[q], o)], k + 1)
  {
    assert Descends(desired, x[q], l[q]);
    assert q < k ==> Settled(desired, x[q], l[q]);
    assert !KeepsName(desired, x[q]);
    var l' := l[q := UpdateBackend(l[q], o)];
    assert Descends(desired, x[q], l'[q]);
    forall r | 0 <= r < k + 1 ensures Settled(desired, x[r], l'[r]) {
      assert r < k ==> Settled(desired, x[r], l[r]);
    }
  }

  lemma UpdateTracks(pool: string, desired: seq<Backend>, x: seq<Backend>, l: seq<Backend>, k: nat)
    requires Identified(x) && Identified(desired) && Tracks(desired, x, l, k) && k < |x|
    requires FindBackend(desired, x[k]) < |desired|
    requires MergeBackends(pool, l, FileEntry(x[k], desired), ApplyToBaseline).Ok?
    ensures Tracks(desired, x, MergeBackends(pool, l, FileEntry(x[k], desired), ApplyToBaseline).value, k + 1)
  {
    var f, j := x[k], FindBackend(desired, x[k]);
    var d := desired[j];
    var delta := BackendDelta(f, d);
    assert Descends(desired, f, l[k]) && l[k].name == f.name;
    if delta.None? {
      assert KeepsName(desired, f) ==> d.address == f.address;
    } else {
      var o := delta.value;
      MergeOne(pool, l, o, ApplyToBaseline);
      if HasName(d) {
        IndexOfOwnName(desired, j);
        var q := IndexOfName(l, d.name.value);
        assert KeepsName(desired, f) ==> f.name == d.name && q <= k;
        assert !KeepsName(desired, f) ==> o.address == "";
        NamedUpdateTracks(desired, x, l, k, o, q);
      } else {
        var q := IndexOfAddress(l, d.address);
        assert !KeepsName(desired, f) && f.address == d.address == l[k].address;
        AddressUpdateTracks(desired, x, l, k, o, q, j);
      }
    }
  }

  // The survivors of the whole file, once entries from `k` on are worked off as well.
  function Finish(desired: seq<Backend>, x: seq<Backend>, k: nat): seq<Backend>
    requires k <= |x|
  {
    x[..k] + Kept(x[k..], desired)
  }

  ghost predicate Working(desired: seq<Backend>, x: seq<Backend>, l: seq<Backend>, k: nat) {
    Identified(x) && Tracks(desired, x, l, k) && AllMatched(desired, x, k)
  }

  lemma FileStepTracks(pool: string, desired: seq<Backend>, x: seq<Backend>, l: seq<Backend>, k: nat)
    returns (x': seq<Backend>, l': seq<Backend>, k': nat)
    requires Identified(desired) && Working(desired, x, l, k) && k < |x|
    requires MergeBackends(pool, l, FileEntry(x[k], desired), ApplyToBaseline).Ok?
    ensures MergeBackends(pool, l, FileEntry(x[k], desired), ApplyToBaseline) == Ok(l')
    ensures Working(desired, x', l', k') && k' <= |x'| && x'[k'..] == x[k + 1..]
    ensures Finish(desired, x', k') == Finish(desired, x, k)
  {
    l' := MergeBackends(pool, l, FileEntry(x[k], desired), ApplyToBaseline).value;
    if FindBackend(desired, x[k]) == |desired| {
      RemovalTracks(pool, desired, x, l, k);
      DeletionTracks(desired, x, l, k);
      FinishWithout(desired, x, k);
      x', k' := x[..k] + x[k + 1..], k;
    } else {
      UpdateTracks(pool, desired, x, l, k);
      FinishWith(desired, x, k);
      x', k' := x, k + 1;
    }
  }

  lemma FinishWithout(desired: seq<Backend>, x: seq<Backend>, k: nat)
    requires k < |x| && FindBackend(desired, x[k]) == |desired|
    ensures (x[..k] + x[k + 1..])[k..] == x[k + 1..]
    ensures Finish(desired, x[..k] + x[k + 1..], k) == Finish(desired, x, k)
  {
    var x' := x[..k] + x[k + 1..];
    assert x'[k..] == x[k + 1..] && x'[..k] == x[..k];
    assert x[k..][0] == x[k] && x[k..][1..] == x[k + 1..];
  }

  lemma FinishWith(desired: seq<Backend>, x: seq<Backend>, k: nat)
    requires k < |x| && FindBackend(desired, x[k]) < |desired|
    ensures Finish(desired, x, k + 1) == Finish(desired, x, k)
  {
    assert x[k..][0] == x[k] && x[k..][1..] == x[k + 1..];
    assert x[..k + 1] == x[..k] + [x[k]];
  }

  lemma {:induction false} FilePhaseTracks(pool: string, desired: seq<Backend>, x: seq<Backend>, l: seq<Backend>,
                                           k: nat,
                                           r: seq<Backend>)
    requires Identified(desired) && Working(desired, x, l, k)
    requires MergeBackends(pool, l, FileEntries(x[k..], desired), ApplyToBaseline) == Ok(r)
    ensures Tracks(desired, Finish(desired, x, k), r, |Finish(desired, x, k)|)
    decreases |x| - k
  {
    if k == |x| {
      assert x[k..] == [] && Finish(desired, x, k) == x;
    } else {
      assert x[k..][0] == x[k] && x[k..][1..] == x[k + 1..];
      MergeBackendsSplit(pool, l, FileEntry(x[k], desired), FileEntries(x[k + 1..], desired), ApplyToBaseline);
      var x', l', k' := FileStepTracks(pool, desired, x, l, k);
      FilePhaseTracks(pool, desired, x', l', k', r);
    }
  }

  // Entries for new backends can only be appended: no survivor and no other
  // addition has their identity.
  ghost predicate Foreign(file: seq<Backend>, desired: seq<Backend>, l: seq<Backend>, j: nat) {
    forall r, i :: 0 <= r < |l| && j <= i < |desired| && FindBackend(file, desired[i]) == |file| ==>
                     if HasName(desired[i]) then l[r].name != desired[i].name else l[r].address != desired[i].address
  }

  lemma SurvivorsAreForeign(file: seq<Backend>, desired: seq<Backend>, x: seq<Backend>, l: seq<Backend>)
    requires Identified(file) && Identified(desired) && Tracks(desired, x, l, |x|)
    requires forall r :: 0 <= r < |x| ==> x[r] in file
    ensures Foreign(file, desired, l, 0)
  {
    forall r, i | 0 <= r < |l| && 0 <= i < |desired| && FindBackend(file, desired[i]) == |file|
      ensures if HasName(desired[i]) then l[r].name != desired[i].name else l[r].address != desired[i].address
    {
      UnmatchedIsAbsent(file, desired[i]);
      assert Descends(desired, x[r], l[r]) && x[r] in file;
    }
  }

  lemma ForeignOneMore(file: seq<Backend>, desired: seq<Backend>, l: seq<Backend>, j: nat)
    requires Identified(desired) && j < |desired| && Foreign(file, desired, l, j)
    ensures Foreign(file, desired, l + [desired[j]], j + 1)
    ensures FindBackend(file, desired[j]) == |file| ==>
              if HasName(desired[j]) then NoName(l, desired[j].name.value) else NoAddress(l, desired[j].address)
  {
    forall i | j + 1 <= i < |desired| ensures Apart(desired[i], desired[j]) {
    }
  }

  lemma AppendChain(pool: string, l: seq<Backend>, d: Backend, rest: seq<Backend>)
    requires MergeBackends(pool, l, [d], ApplyToBaseline) == Ok(l + [d])
    requires MergeBackends(pool, l + [d], rest, ApplyToBaseline) == Ok((l + [d]) + rest)
    ensures MergeBackends(pool, l, [d] + rest, ApplyToBaseline) == Ok(l + ([d] + rest))
  {
    MergeBackendsChain(pool, l, [d], l + [d], rest, Ok((l + [d]) + rest), ApplyToBaseline);
    assert (l + [d]) + rest == l + ([d] + rest);
  }

  lemma {:induction false} AddPhaseAppends(pool: string, file: seq<Backend>, desired: seq<Backend>, l: seq<Backend>,
                                           j: nat)
    requires Identified(desired) && j <= |desired| && Foreign(file, desired, l, j)
    ensures MergeBackends(pool, l, Additions(file, desired[j..]), ApplyToBaseline)
         == Ok(l + Additions(file, desired[j..]))
    decreases |desired| - j
  {
    if j == |desired| {
      assert l + [] == l;
    } else {
      var d := desired[j];
      assert desired[j..][0] == d && desired[j..][1..] == desired[j + 1..];
      var rest := Additions(file, desired[j + 1..]);
      if FindBackend(file, d) == |file| {
        assert d.(remove := None) == d;
        ForeignOneMore(file, desired, l, j);
        AddPhaseAppends(pool, file, desired, l + [d], j + 1);
        AddStep(pool, l, d);
        AppendChain(pool, l, d, rest);
      } else {
        AddPhaseAppends(pool, file, desired, l, j + 1);
      }
    }
  }

  lemma {:induction false} AdditionsAreNew(file: seq<Backend>, desired: seq<Backend>, i: nat)
    requires i < |Additions(file, desired)|
    ensures exists d :: d in desired && FindBackend(file, d) == |file|
                        && Additions(file, desired)[i] == d.(remove := None)
  {
    if FindBackend(file, desired[0]) == |file| {
      if i == 0 {
        assert desired[0] in desired;
      } else {
        AdditionsAreNew(file, desired[1..], i - 1);
      }
    } else {
      AdditionsAreNew(file, desired[1..], i);
    }
  }

  lemma DescendantLinesUp(desired: seq<Backend>, f: Backend, r: nat)
    requires Identified(desired) && r < |desired| && f.address != ""
    requires Descends(desired, f, desired[r]) && FindBackend(desired, f) < |desired|
    ensures FindBackend(desired, f) == r && Updatable(f, desired[r])
  {
    if KeepsName(desired, f) {
      IndexOfOwnName(desired, r);
    } else {
      IndexOfOwnAddress(desired, r);
    }
  }

  lemma StartTracks(desired: seq<Backend>, file: seq<Backend>)
    requires Identified(file)
    ensures Tracks(desired, file, file, 0)
  {
  }

  // Whatever the two lists are, a successful merge yields the survivors, then the additions.
  lemma SurvivorsThenAdditions(pool: string, file: seq<Backend>, desired: seq<Backend>, r: seq<Backend>)
    returns (l: seq<Backend>)
    requires Identified(file) && Identified(desired)
    requires MergeBackends(pool, file, SynthesizeBackends(file, desired), ApplyToBaseline) == Ok(r)
    ensures Tracks(desired, Kept(file, desired), l, |Kept(file, desired)|)
    ensures r == l + Additions(file, desired)
  {
    MergeBackendsSplit(pool, file, FileEntries(file, desired), Additions(file, desired), ApplyToBaseline);
    l := MergeBackends(pool, file, FileEntries(file, desired), ApplyToBaseline).value;
    SurvivorsTrack(pool, file, desired, l);
    forall i | 0 <= i < |Kept(file, desired)| ensures Kept(file, desired)[i] in file { KeptIsFound(file, desired, i); }
    SurvivorsAreForeign(file, desired, Kept(file, desired), l);
    assert desired[0..] == desired;
    AddPhaseAppends(pool, file, desired, l, 0);
  }

  lemma SurvivorsTrack(pool: string, file: seq<Backend>, desired: seq<Backend>, l: seq<Backend>)
    requires Identified(file) && Identified(desired)
    requires MergeBackends(pool, file, FileEntries(file, desired), ApplyToBaseline) == Ok(l)
    ensures Tracks(desired, Kept(file, desired), l, |Kept(file, desired)|)
  {
    StartTracks(desired, file);
    FinishAll(desired, file);
    FilePhaseTracks(pool, desired, file, file, 0, l);
  }

  lemma FinishAll(desired: seq<Backend>, file: seq<Backend>)
    ensures file[0..] == file && Finish(desired, file, 0) == Kept(file, desired)
  {
  }

  lemma TrackedLinesUp(desired: seq<Backend>, kept: seq<Backend>, l: seq<Backend>)
    requires Identified(desired) && Tracks(desired, kept, l, |kept|) && AllMatched(desired, kept, |kept|)
    requires l <= desired && forall r :: 0 <= r < |kept| ==> kept[r].address != ""
    ensures LineUp(kept, desired, 0)
  {
    forall r | 0 <= r < |kept| ensures FindBackend(desired, kept[r]) == r && Updatable(kept[r], desired[r]) {
      assert desired[r] == l[r] && Descends(desired, kept[r], l[r]);
      DescendantLinesUp(desired, kept[r], r);
    }
  }

  lemma TailIsNew(file: seq<Backend>, desired: seq<Backend>, l: seq<Backend>, j: nat)
    requires desired == l + Additions(file, desired) && |l| <= j < |desired|
    requires forall i :: 0 <= i < |desired| ==> desired[i].remove.None?
    ensures FindBackend(file, desired[j]) == |file|
  {
    AdditionsAreNew(file, desired, j - |l|);
    assert desired[j] == Additions(file, desired)[j - |l|];
  }

  lemma RoundTripIsExpressible(pool: string, file: seq<Backend>, desired: seq<Backend>)
    requires Identified(file) && Identified(desired)
    requires MergeBackends(pool, file, SynthesizeBackends(file, desired), ApplyToBaseline) == Ok(desired)
    ensures Expressible(file, desired)
  {
    var kept := Kept(file, desired);
    var l := SurvivorsThenAdditions(pool, file, desired, desired);
    forall i | 0 <= i < |kept| ensures FindBackend(desired, kept[i]) < |desired| && kept[i].address != "" {
      KeptIsFound(file, desired, i);
    }
    TrackedLinesUp(desired, kept, l);
    forall j | |kept| <= j < |desired| ensures FindBackend(file, desired[j]) == |file| {
      TailIsNew(file, desired, l, j);
    }
  }

  // The round trip that synthesis promises, with its exact domain.
  lemma BackendsRoundTrip(pool: string, file: seq<Backend>, desired: seq<Backend>)
    requires Identified(file) && Identified(desired)
    ensures MergeBackends(pool, file, SynthesizeBackends(file, desired), ApplyToBaseline) == Ok(desired)
       <==> Expressible(file, desired)
  {
    if Expressible(file, desired) {
      ExpressibleRoundTrips(pool, file, desired);
    }
    if MergeBackends(pool, file, SynthesizeBackends(file, desired), ApplyToBaseline) == Ok(desired) {
      RoundTripIsExpressible(pool, file, desired);
    }
  }
}
