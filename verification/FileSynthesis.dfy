/**
 Synthesis over any file that the validator accepts: each backend has an address, and each
 name is carried once, but backends without a name may share an address.
 */
module FileSynthesis {
  import opened Wrappers
  import opened ConfigModel
  import opened Merge
  import opened Synthesize
  import opened ConfigRoundTrip
  import opened PointwiseMerge
  import opened NameTracking
  import BackendRoundTrip

  ghost predicate ValidBackends(l: seq<Backend>) {
    Placed(l) && NamesOnce(l)
  }

  // The first backend at the address of backend `i`.
  function FirstAt(l: seq<Backend>, i: nat): (k: nat)
    requires i < |l|
    ensures k <= i && l[k].address == l[i].address
  {
    AddressFound(l, i);
    IndexOfAddress(l, l[i].address)
  }

  lemma {:induction false} AddressFound(l: seq<Backend>, i: nat)
    requires i < |l|
    ensures IndexOfAddress(l, l[i].address) <= i
  {
  }

  // A backend without a name is what a lookup by its address finds.
  ghost predicate Unambiguous(l: seq<Backend>) {
    forall i :: 0 <= i < |l| && !HasName(l[i]) ==> l[i] == l[FirstAt(l, i)]
  }

  // ----- Entries that change nothing -----

  predicate Present(base: seq<Backend>, d: Backend) {
    var k := FindBackend(base, d);
    k < |base| && base[k] == d
  }

  lemma NamedIsPresent(l: seq<Backend>, i: nat)
    requires NamesOnce(l) && i < |l| && HasName(l[i])
    ensures IndexOfName(l, l[i].name.value) == i
  {
    assert forall k :: 0 <= k < |l| && k != i ==> NameApart(l[i], l[k]);
  }

  lemma FirstIsPresent(l: seq<Backend>, i: nat)
    requires ValidBackends(l) && i < |l|
    ensures Present(l, l[FirstAt(l, i)])
  {
    var k := FirstAt(l, i);
    if HasName(l[k]) { NamedIsPresent(l, k); }
  }

  // What a file backend contributes does not change `base`.
  predicate Idle(pool: string, base: seq<Backend>, f: Backend, desired: seq<Backend>) {
    MergeBackends(pool, base, FileEntry(f, desired), ApplyToBaseline) == Ok(base)
  }

  lemma SameIsIdle(pool: string, base: seq<Backend>, f: Backend, desired: seq<Backend>)
    requires FindBackend(desired, f) < |desired| && desired[FindBackend(desired, f)] == f
    ensures Idle(pool, base, f, desired)
  {
  }

  // A backend without a name that finds another at its address: the entry repeats what
  // that one already has.
  lemma TwinIsIdle(pool: string, base: seq<Backend>, f: Backend, desired: seq<Backend>, d: Backend)
    requires FindBackend(desired, f) < |desired| && desired[FindBackend(desired, f)] == d
    requires !HasName(f) && f.address == d.address != "" && d.remove.None? && Present(base, d)
    ensures Idle(pool, base, f, desired)
  {
    var e := BackendDelta(f, d);
    if e.Some? {
      var k := FindBackend(base, d);
      assert UpdateBackend(d, e.value) == d && base[k := d] == base;
      MergeOne(pool, base, e.value, ApplyToBaseline);
    }
  }

  lemma {:induction false} IdleAll(pool: string, base: seq<Backend>, l: seq<Backend>, desired: seq<Backend>)
    requires forall i :: 0 <= i < |l| ==> Idle(pool, base, l[i], desired)
    ensures MergeBackends(pool, base, FileEntries(l, desired), ApplyToBaseline) == Ok(base)
  {
    if l != [] {
      assert Idle(pool, base, l[0], desired);
      IdleAll(pool, base, l[1..], desired);
      MergeBackendsChain(pool, base, FileEntry(l[0], desired), base, FileEntries(l[1..], desired), Ok(base),
                         ApplyToBaseline);
    }
  }

  lemma {:induction false} FileEntriesSplit(a: seq<Backend>, b: seq<Backend>, desired: seq<Backend>)
    ensures FileEntries(a + b, desired) == FileEntries(a, desired) + FileEntries(b, desired)
  {
    if a == [] {
      assert a + b == b;
    } else {
      assert (a + b)[0] == a[0] && (a + b)[1..] == a[1..] + b;
      FileEntriesSplit(a[1..], b, desired);
      Regroup(FileEntry(a[0], desired), FileEntries(a[1..], desired), FileEntries(b, desired));
    }
  }

  // All entries but those of backend `k` are idle.
  lemma OneChanges(pool: string, file: seq<Backend>, k: nat, desired: seq<Backend>, next: seq<Backend>)
    requires k < |file| && MergeBackends(pool, file, FileEntry(file[k], desired), ApplyToBaseline) == Ok(next)
    requires forall i :: 0 <= i < k ==> Idle(pool, file, file[i], desired)
    requires forall i :: k < i < |file| ==> Idle(pool, next, file[i], desired)
    ensures MergeBackends(pool, file, FileEntries(file, desired), ApplyToBaseline) == Ok(next)
  {
    var p, t := file[..k], file[k + 1..];
    var mid := [file[k]] + t;
    assert file == p + mid && mid[0] == file[k] && mid[1..] == t;
    IdleAll(pool, file, p, desired);
    IdleAll(pool, next, t, desired);
    MergeBackendsChain(pool, file, FileEntry(file[k], desired), next, FileEntries(t, desired), Ok(next),
                       ApplyToBaseline);
    FileEntriesSplit(p, mid, desired);
    MergeBackendsChain(pool, file, FileEntries(p, desired), file, FileEntries(mid, desired), Ok(next), ApplyToBaseline);
  }

  lemma {:induction false} NothingAdded(file: seq<Backend>, desired: seq<Backend>)
    requires forall i :: 0 <= i < |desired| ==> FindBackend(file, desired[i]) < |file|
    ensures Additions(file, desired) == []
  {
    if desired != [] {
      assert FindBackend(file, desired[0]) < |file|;
      NothingAdded(file, desired[1..]);
    }
  }

  lemma MemberIsFound(l: seq<Backend>, i: nat)
    requires Placed(l) && i < |l|
    ensures FindBackend(l, l[i]) < |l|
  {
    AddressFound(l, i);
  }

  // ----- The file itself -----

  lemma FindsItself(l: seq<Backend>, i: nat)
    requires ValidBackends(l) && i < |l|
    ensures FindBackend(l, l[i]) == if HasName(l[i]) then i else FirstAt(l, i)
  {
    if HasName(l[i]) { NamedIsPresent(l, i); }
  }

  // Whatever the twins, synthesizing the file from itself leads back to it.
  lemma FileReturns(pool: string, file: seq<Backend>)
    requires ValidBackends(file)
    ensures Returns(pool, file, file)
  {
    forall i | 0 <= i < |file| ensures Idle(pool, file, file[i], file) && FindBackend(file, file[i]) < |file| {
      FindsItself(file, i);
      if HasName(file[i]) {
        SameIsIdle(pool, file, file[i], file);
      } else {
        FirstIsPresent(file, i);
        TwinIsIdle(pool, file, file[i], file, file[FirstAt(file, i)]);
      }
    }
    IdleAll(pool, file, file, file);
    NothingAdded(file, file);
    assert FileEntries(file, file) + [] == FileEntries(file, file);
  }

  lemma {:induction false} NoEntriesIff(l: seq<Backend>, desired: seq<Backend>)
    ensures FileEntries(l, desired) == [] <==> forall i :: 0 <= i < |l| ==> FileEntry(l[i], desired) == []
  {
    if l != [] {
      NoEntriesIff(l[1..], desired);
      assert forall i :: 1 <= i < |l| ==> l[i] == l[1..][i - 1];
    }
  }

  // It emits nothing if and only if every backend without a name is the first at its address.
  lemma FileIsSilentIff(file: seq<Backend>)
    requires ValidBackends(file)
    ensures SynthesizeBackends(file, file) == [] <==> Unambiguous(file)
  {
    forall i | 0 <= i < |file|
      ensures FindBackend(file, file[i]) < |file|
      ensures FileEntry(file[i], file) == [] <==> HasName(file[i]) || file[i] == file[FirstAt(file, i)]
    {
      FindsItself(file, i);
    }
    NothingAdded(file, file);
    NoEntriesIff(file, file);
  }

  // Two different backends without a name at one address: the file synthesizes a patch
  // from itself.
  lemma TwinsArePatched(a: Backend, b: Backend)
    requires a.address == b.address != "" && !HasName(a) && !HasName(b) && a.remove.None? && b.remove.None? && a != b
    ensures ValidBackends([a, b]) && SynthesizeBackends([a, b], [a, b]) != []
  {
    assert [a, b][FirstAt([a, b], 1)] == a;
    FileIsSilentIff([a, b]);
  }

  // ----- One backend less -----

  function Without(l: seq<Backend>, k: nat): seq<Backend>
    requires k < |l|
  {
    l[..k] + l[k + 1..]
  }

  lemma WithoutIs(l: seq<Backend>, k: nat)
    requires k < |l| && ValidBackends(l)
    ensures ValidBackends(Without(l, k))
    ensures forall i :: 0 <= i < |l| && i != k ==> Without(l, k)[if i < k then i else i - 1] == l[i]
  {
    var rest := Without(l, k);
    assert forall i :: 0 <= i < |rest| ==> rest[i] == l[if i < k then i else i + 1];
    forall i, j | 0 <= i < |rest| && 0 <= j < |rest| && i != j ensures NameApart(rest[i], rest[j]) {
      assert NameApart(l[if i < k then i else i + 1], l[if j < k then j else j + 1]);
    }
  }

  // The first at another address is the same backend with and without `k`.
  lemma FirstElsewhere(l: seq<Backend>, k: nat, i: nat)
    requires k < |l| && i < |l| && l[i].address != l[k].address
    ensures var rest := Without(l, k);
            var m := IndexOfAddress(rest, l[i].address);
            m < |rest| && rest[m] == l[FirstAt(l, i)]
  {
    var rest, m := Without(l, k), FirstAt(l, i);
    assert rest[if m < k then m else m - 1] == l[m];
    assert forall j :: 0 <= j < |rest| ==> rest[j] == l[if j < k then j else j + 1];
  }

  lemma OtherIsIdle(pool: string, file: seq<Backend>, k: nat, i: nat)
    requires ValidBackends(file) && k < |file| && i < |file| && i != k && NoAddress(Without(file, k), file[k].address)
    ensures Idle(pool, file, file[i], Without(file, k)) && Idle(pool, Without(file, k), file[i], Without(file, k))
  {
    var rest, f, r := Without(file, k), file[i], if i < k then i else i - 1;
    WithoutIs(file, k);
    assert rest[r] == f && f.address != file[k].address;
    if HasName(f) {
      NamedIsPresent(rest, r);
      SameIsIdle(pool, file, f, rest);
      SameIsIdle(pool, rest, f, rest);
    } else {
      FirstElsewhere(file, k, i);
      FirstIsPresent(file, i);
      FirstIsPresent(rest, r);
      var d := file[FirstAt(file, i)];
      TwinIsIdle(pool, file, f, rest, d);
      TwinIsIdle(pool, rest, f, rest, d);
    }
  }

  lemma MissingIsRemoved(pool: string, file: seq<Backend>, k: nat)
    requires ValidBackends(file) && k < |file| && NoAddress(Without(file, k), file[k].address)
    ensures MergeBackends(pool, file, FileEntry(file[k], Without(file, k)), ApplyToBaseline) == Ok(Without(file, k))
  {
    var p, f, t, rest := file[..k], file[k], file[k + 1..], Without(file, k);
    assert file == p + [f] + t;
    forall i | 0 <= i < |file| && i != k
      ensures file[i].address != f.address && (HasName(f) ==> file[i].name != f.name)
    {
      WithoutIs(file, k);
      assert rest[if i < k then i else i - 1].address != f.address && NameApart(f, file[i]);
    }
    assert IndexOfAddress(rest, f.address) == |rest|;
    if HasName(f) {
      assert NoName(p, f.name.value) && NoName(t, f.name.value) && IndexOfName(rest, f.name.value) == |rest|;
      DropByName(p, f, t, f.name.value);
    } else {
      assert NoAddress(p, f.address) && NoAddress(t, f.address);
      DropByAddress(p, f, t);
    }
    MergeOne(pool, file, RemoveMarkerFor(f), ApplyToBaseline);
  }

  lemma DeletionReturns(pool: string, file: seq<Backend>, k: nat)
    requires ValidBackends(file) && k < |file| && NoAddress(Without(file, k), file[k].address)
    ensures Returns(pool, file, Without(file, k))
  {
    var rest := Without(file, k);
    MissingIsRemoved(pool, file, k);
    forall i | 0 <= i < |file| && i != k ensures Idle(pool, file, file[i], rest) && Idle(pool, rest, file[i], rest) {
      OtherIsIdle(pool, file, k, i);
    }
    OneChanges(pool, file, k, rest, rest);
    forall r | 0 <= r < |rest| ensures FindBackend(file, rest[r]) < |file| {
      MemberIsFound(file, if r < k then r else r + 1);
    }
    NothingAdded(file, rest);
    assert FileEntries(file, rest) + [] == FileEntries(file, rest);
  }

  // Without remove markers a list never gets shorter.
  lemma {:induction false} UpdatesNeverShrink(pool: string, base: seq<Backend>, es: seq<Backend>, r: seq<Backend>)
    requires (forall e :: e in es ==> !IsRemoval(e)) && MergeBackends(pool, base, es, ApplyToBaseline) == Ok(r)
    ensures |r| >= |base|
    decreases |es|
  {
    if es != [] {
      UpdatesNeverShrink(pool, MergeBackend(pool, base, es[0], ApplyToBaseline).value, es[1..], r);
    }
  }

  lemma {:induction false} FoundIsNotRemoved(l: seq<Backend>, desired: seq<Backend>)
    requires forall i :: 0 <= i < |l| ==> FindBackend(desired, l[i]) < |desired|
    ensures forall e :: e in FileEntries(l, desired) ==> !IsRemoval(e)
  {
    if l != [] {
      assert FindBackend(desired, l[0]) < |desired|;
      FoundIsNotRemoved(l[1..], desired);
    }
  }

  lemma {:induction false} AddedIsNotRemoved(file: seq<Backend>, desired: seq<Backend>)
    ensures forall e :: e in Additions(file, desired) ==> !IsRemoval(e)
  {
    if desired != [] { AddedIsNotRemoved(file, desired[1..]); }
  }

  lemma SharedDeletionIsLost(pool: string, file: seq<Backend>, k: nat, r: seq<Backend>)
    requires ValidBackends(file) && k < |file| && !NoAddress(Without(file, k), file[k].address)
    requires MergeBackends(pool, file, SynthesizeBackends(file, Without(file, k)), ApplyToBaseline) == Ok(r)
    ensures |r| >= |file|
  {
    var rest := Without(file, k);
    WithoutIs(file, k);
    forall i | 0 <= i < |file| ensures FindBackend(rest, file[i]) < |rest| {
      if i == k {
        var j :| 0 <= j < |rest| && rest[j].address == file[k].address;
        AddressFound(rest, j);
      } else {
        MemberIsFound(rest, if i < k then i else i - 1);
      }
    }
    FoundIsNotRemoved(file, rest);
    AddedIsNotRemoved(file, rest);
    UpdatesNeverShrink(pool, file, SynthesizeBackends(file, rest), r);
  }

  // Deleting a backend leads to the shorter list if and only if no other has its address.
  lemma DeletionReturnsIff(pool: string, file: seq<Backend>, k: nat)
    requires ValidBackends(file) && k < |file|
    ensures Returns(pool, file, Without(file, k)) <==> NoAddress(Without(file, k), file[k].address)
  {
    if NoAddress(Without(file, k), file[k].address) {
      DeletionReturns(pool, file, k);
    } else if Returns(pool, file, Without(file, k)) {
      SharedDeletionIsLost(pool, file, k, Without(file, k));
    }
  }

  // ----- Another weight -----

  lemma {:induction false} SameKeys(l: seq<Backend>, l': seq<Backend>, id: string)
    requires |l| == |l'| && forall i :: 0 <= i < |l| ==> l[i].name == l'[i].name && l[i].address == l'[i].address
    ensures IndexOfName(l, id) == IndexOfName(l', id) && IndexOfAddress(l, id) == IndexOfAddress(l', id)
  {
    if l != [] { SameKeys(l[1..], l'[1..], id); }
  }

  function Reweighed(l: seq<Backend>, i: nat, weight: nat): seq<Backend>
    requires i < |l|
  {
    l[i := l[i].(weight := Some(weight))]
  }

  lemma ReweighedIs(l: seq<Backend>, i: nat, weight: nat)
    requires ValidBackends(l) && i < |l|
    ensures ValidBackends(Reweighed(l, i, weight))
    ensures forall j :: 0 <= j < |l| ==> FirstAt(Reweighed(l, i, weight), j) == FirstAt(l, j)
  {
    var l' := Reweighed(l, i, weight);
    forall j, k | 0 <= j < |l| && 0 <= k < |l| && j != k ensures NameApart(l'[j], l'[k]) {
      assert NameApart(l[j], l[k]);
    }
    forall j | 0 <= j < |l| ensures FirstAt(l', j) == FirstAt(l, j) { SameKeys(l, l', l[j].address); }
  }

  lemma ReweighedOthersIdle(pool: string, file: seq<Backend>, i: nat, weight: nat, j: nat)
    requires ValidBackends(file) && i < |file| && j < |file| && j != i
    ensures var desired := Reweighed(file, i, weight);
            Idle(pool, desired, file[j], desired) && (j < i ==> Idle(pool, file, file[j], desired))
  {
    var desired, f := Reweighed(file, i, weight), file[j];
    ReweighedIs(file, i, weight);
    FindsItself(desired, j);
    if HasName(f) {
      SameIsIdle(pool, desired, f, desired);
      SameIsIdle(pool, file, f, desired);
    } else {
      FirstIsPresent(desired, j);
      TwinIsIdle(pool, desired, f, desired, desired[FirstAt(desired, j)]);
      if j < i {
        FirstIsPresent(file, j);
        TwinIsIdle(pool, file, f, desired, desired[FirstAt(desired, j)]);
      }
    }
  }

  lemma WeightIsSet(pool: string, file: seq<Backend>, i: nat, weight: nat)
    requires ValidBackends(file) && i < |file| && (HasName(file[i]) || FirstAt(file, i) == i)
    ensures var desired := Reweighed(file, i, weight);
            MergeBackends(pool, file, FileEntry(file[i], desired), ApplyToBaseline) == Ok(desired)
  {
    var desired, f := Reweighed(file, i, weight), file[i];
    var d := desired[i];
    ReweighedIs(file, i, weight);
    FindsItself(desired, i);
    FindsItself(file, i);
    if f.weight == Some(weight) {
      assert d == f && desired == file;
    } else {
      var e := BackendDelta(f, d).value;
      assert file[i := UpdateBackend(f, e)] == desired;
      MergeOne(pool, file, e, ApplyToBaseline);
    }
  }

  lemma WeightReturns(pool: string, file: seq<Backend>, i: nat, weight: nat)
    requires ValidBackends(file) && i < |file| && (HasName(file[i]) || FirstAt(file, i) == i)
    ensures Returns(pool, file, Reweighed(file, i, weight))
  {
    var desired := Reweighed(file, i, weight);
    WeightIsSet(pool, file, i, weight);
    forall j | 0 <= j < |file| && j != i
      ensures Idle(pool, desired, file[j], desired) && (j < i ==> Idle(pool, file, file[j], desired))
    {
      ReweighedOthersIdle(pool, file, i, weight, j);
    }
    OneChanges(pool, file, i, desired, desired);
    forall j | 0 <= j < |desired| ensures FindBackend(file, desired[j]) < |file| { AddressFound(file, j); }
    NothingAdded(file, desired);
    assert FileEntries(file, desired) + [] == FileEntries(file, desired);
  }

  // A weight for a backend without a name goes to the first at its address.
  lemma OtherWeightIsLost(pool: string, file: seq<Backend>, i: nat, weight: nat)
    requires ValidBackends(file) && i < |file| && !HasName(file[i]) && FirstAt(file, i) != i
    ensures MergeBackends(pool, file, SynthesizeBackends(file, Reweighed(file, i, weight)), ApplyToBaseline) == Ok(file)
  {
    var desired := Reweighed(file, i, weight);
    ReweighedIs(file, i, weight);
    forall j | 0 <= j < |file| ensures Idle(pool, file, file[j], desired) && FindBackend(file, desired[j]) < |file| {
      AddressFound(file, j);
      FindsItself(desired, j);
      if HasName(file[j]) {
        SameIsIdle(pool, file, file[j], desired);
      } else {
        FirstIsPresent(file, j);
        TwinIsIdle(pool, file, file[j], desired, file[FirstAt(file, j)]);
      }
    }
    IdleAll(pool, file, file, desired);
    NothingAdded(file, desired);
    assert FileEntries(file, desired) + [] == FileEntries(file, desired);
  }

  // Setting a weight leads to the reweighed list if and only if the backend has a name or
  // is the first at its address, or has that weight already.
  lemma WeightReturnsIff(pool: string, file: seq<Backend>, i: nat, weight: nat)
    requires ValidBackends(file) && i < |file|
    ensures Returns(pool, file, Reweighed(file, i, weight))
            <==> HasName(file[i]) || FirstAt(file, i) == i || file[i].weight == Some(weight)
  {
    if HasName(file[i]) || FirstAt(file, i) == i {
      WeightReturns(pool, file, i, weight);
    } else {
      OtherWeightIsLost(pool, file, i, weight);
      assert Reweighed(file, i, weight) == file <==> file[i].weight == Some(weight);
    }
  }

  // ----- One backend more -----

  lemma {:induction false} AdditionsSplit(file: seq<Backend>, a: seq<Backend>, b: seq<Backend>)
    ensures Additions(file, a + b) == Additions(file, a) + Additions(file, b)
  {
    if a == [] {
      assert a + b == b;
    } else {
      assert (a + b)[0] == a[0] && (a + b)[1..] == a[1..] + b;
      AdditionsSplit(file, a[1..], b);
      Regroup([a[0].(remove := None)], Additions(file, a[1..]), Additions(file, b));
    }
  }

  lemma {:induction false} FoundBefore(l: seq<Backend>, b: Backend, id: string)
    ensures IndexOfName(l, id) < |l| ==> IndexOfName(l + [b], id) == IndexOfName(l, id)
    ensures IndexOfAddress(l, id) < |l| ==> IndexOfAddress(l + [b], id) == IndexOfAddress(l, id)
  {
    if l != [] {
      assert (l + [b])[0] == l[0] && (l + [b])[1..] == l[1..] + [b];
      FoundBefore(l[1..], b, id);
    }
  }

  lemma GrownOthersIdle(pool: string, file: seq<Backend>, b: Backend, j: nat)
    requires ValidBackends(file) && j < |file|
    ensures Idle(pool, file, file[j], file + [b])
  {
    var desired, f := file + [b], file[j];
    FindsItself(file, j);
    if HasName(f) {
      FoundBefore(file, b, f.name.value);
      SameIsIdle(pool, file, f, desired);
    } else {
      FoundBefore(file, b, f.address);
      FirstIsPresent(file, j);
      TwinIsIdle(pool, file, f, desired, file[FirstAt(file, j)]);
    }
  }

  lemma AdditionReturns(pool: string, file: seq<Backend>, b: Backend)
    requires ValidBackends(file) && FindBackend(file, b) == |file| && b.address != "" && b.remove.None?
    ensures Returns(pool, file, file + [b])
  {
    var desired := file + [b];
    forall j | 0 <= j < |file| ensures Idle(pool, file, file[j], desired) { GrownOthersIdle(pool, file, b, j); }
    IdleAll(pool, file, file, desired);
    forall j | 0 <= j < |file| ensures FindBackend(file, file[j]) < |file| { MemberIsFound(file, j); }
    NothingAdded(file, file);
    AdditionsSplit(file, file, [b]);
    assert [b][1..] == [] && Additions(file, [b]) == [b] && Additions(file, desired) == [b];
    MergeOne(pool, file, b, ApplyToBaseline);
    MergeBackendsChain(pool, file, FileEntries(file, desired), file, [b], Ok(desired), ApplyToBaseline);
  }

  // ----- Pools and configurations -----

  // As the validator accepts it.
  ghost predicate ConfigValid(c: Config) {
    PoolsNamed(c.pools) && forall i :: 0 <= i < |c.pools| ==> ValidBackends(c.pools[i].backends)
  }

  ghost predicate PoolsUnambiguous(l: seq<Pool>) {
    forall i :: 0 <= i < |l| ==> Unambiguous(l[i].backends)
  }

  lemma {:induction false} NoPoolEntriesIff(l: seq<Pool>, desired: seq<Pool>)
    ensures FilePools(l, desired) == [] <==> AllSilent(l, desired)
  {
    if l != [] {
      NoPoolEntriesIff(l[1..], desired);
      SilentCons(l, desired);
    }
  }

  ghost predicate AllSilent(l: seq<Pool>, desired: seq<Pool>) {
    forall i :: 0 <= i < |l| ==> Silent(l[i], desired)
  }

  predicate Silent(f: Pool, desired: seq<Pool>) {
    FilePool(f, desired) == []
  }

  lemma SilentCons(l: seq<Pool>, desired: seq<Pool>)
    requires l != []
    ensures AllSilent(l, desired) <==> Silent(l[0], desired) && AllSilent(l[1..], desired)
  {
    if Silent(l[0], desired) && AllSilent(l[1..], desired) {
      forall i | 0 <= i < |l| ensures Silent(l[i], desired) {
        if i > 0 { assert l[i] == l[1..][i - 1]; }
      }
    }
  }

  lemma PoolsAreSilentIff(file: seq<Pool>)
    requires PoolsNamed(file) && forall i :: 0 <= i < |file| ==> ValidBackends(file[i].backends)
    ensures SynthesizePools(file, file) == [] <==> PoolsUnambiguous(file)
  {
    SamePoolsFound(file, file);
    forall i | 0 <= i < |file| ensures Silent(file[i], file) <==> Unambiguous(file[i].backends) {
      FileIsSilentIff(file[i].backends);
    }
    NoPoolEntriesIff(file, file);
  }

  // Synthesizing the file itself, up to its schema version, gives an empty patch if and
  // only if no pool holds two different backends without a name at one address, or one
  // behind a named backend at its address.
  lemma SynthesisOfFileIsEmptyIff(file: Config, version: nat)
    requires ConfigValid(file)
    ensures var overlay := SynthesizeOverlay(file, file.(schemaVersion := version));
            overlay.Ok? && (PatchIsEmpty(overlay.value) <==> PoolsUnambiguous(file.pools))
  {
    PoolsAreSilentIff(file.pools);
    assert ChangedSections(file.sections, file.sections) == map[];
  }

  function WithBackends(file: Config, i: nat, bs: seq<Backend>): Config
    requires i < |file.pools|
  {
    file.(pools := file.pools[i := file.pools[i].(backends := bs)])
  }

  // When only the backends of one pool change, only that pool has to come back.
  lemma OnePoolReturnsIff(file: Config, i: nat, bs: seq<Backend>)
    requires ConfigValid(file) && i < |file.pools|
    ensures RoundTrips(file, WithBackends(file, i, bs))
            <==> Returns(file.pools[i].name, file.pools[i].backends, bs)
  {
    var desired := WithBackends(file, i, bs);
    RoundTripsByParts(file, desired);
    SectionsRoundTrip(file.sections, file.sections);
    SamePoolsReturn(file.pools, desired.pools);
    forall k | 0 <= k < |file.pools| && k != i
      ensures Returns(file.pools[k].name, file.pools[k].backends, desired.pools[k].backends)
    {
      FileReturns(file.pools[k].name, file.pools[k].backends);
    }
    assert Returns(file.pools[i].name, file.pools[i].backends, bs) <==> AllReturn(file.pools, desired.pools);
  }

  // ----- Files with distinct identities -----

  lemma IdentifiedIsUnambiguous(l: seq<Backend>)
    requires BackendRoundTrip.Identified(l)
    ensures ValidBackends(l) && Unambiguous(l)
  {
    forall i, j | 0 <= i < |l| && 0 <= j < |l| && i != j
      ensures NameApart(l[i], l[j]) && (!HasName(l[i]) ==> l[i].address != l[j].address)
    {
      assert BackendRoundTrip.Apart(l[i], l[j]);
    }
  }

  lemma IdentifiedIsValid(file: Config)
    requires ConfigIdentified(file)
    ensures ConfigValid(file) && PoolsUnambiguous(file.pools)
  {
    forall i | 0 <= i < |file.pools|
      ensures ValidBackends(file.pools[i].backends) && Unambiguous(file.pools[i].backends)
    {
      IdentifiedIsUnambiguous(file.pools[i].backends);
    }
  }
}
