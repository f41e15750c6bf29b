/**
 The domain of synthesis for named backends, said without the lookup of the code.
 */
module Resynthesis {
  import opened Wrappers
  import opened ConfigModel
  import opened Merge
  import opened Synthesize
  import opened BackendRoundTrip
  import opened PointwiseMerge
  import opened NameTracking

  // Named backends as a validated pool holds them.
  ghost predicate NamedList(l: seq<Backend>) {
    OwnNames(l) && Placed(l)
  }

  // The file backends whose name is still wanted.
  function Shared(file: seq<Backend>, desired: seq<Backend>): (r: seq<Backend>)
    requires OwnNames(file)
  {
    if file == [] then []
    else if Mentions(desired, file[0]) then [file[0]] + Shared(file[1..], desired)
    else Shared(file[1..], desired)
  }

  // The shared backends come first and in file order, and each can be updated.
  ghost predicate InFileOrder(file: seq<Backend>, desired: seq<Backend>)
    requires OwnNames(file)
  {
    var shared := Shared(file, desired);
    && |shared| <= |desired|
    && forall r :: 0 <= r < |shared| ==> desired[r].name == shared[r].name && Updatable(shared[r], desired[r])
  }

  // A name found on only one side does not sit at an address of the other side.
  ghost predicate Unaliased(l: seq<Backend>, other: seq<Backend>) {
    forall i :: 0 <= i < |l| && HasName(l[i]) && !Mentions(other, l[i]) ==> NoAddress(other, l[i].address)
  }

  ghost predicate NoAliasing(file: seq<Backend>, desired: seq<Backend>) {
    Unaliased(file, desired) && Unaliased(desired, file)
  }

  // ----- Lookup by name is all there is, without aliasing -----

  lemma {:induction false} SharedMembers(file: seq<Backend>, desired: seq<Backend>, f: Backend)
    requires OwnNames(file) && f in file && Mentions(desired, f)
    ensures f in Shared(file, desired)
  {
    if f != file[0] { SharedMembers(file[1..], desired, f); }
  }

  lemma {:induction false} KeptIsShared(file: seq<Backend>, desired: seq<Backend>)
    requires OwnNames(file)
    requires forall i :: 0 <= i < |file| ==> (FindBackend(desired, file[i]) < |desired| <==> Mentions(desired, file[i]))
    ensures Kept(file, desired) == Shared(file, desired)
  {
    if file != [] {
      assert FindBackend(desired, file[0]) < |desired| <==> Mentions(desired, file[0]);
      KeptIsShared(file[1..], desired);
    }
  }

  lemma UnaliasedIsKept(file: seq<Backend>, desired: seq<Backend>)
    requires OwnNames(file) && Unaliased(file, desired)
    ensures Kept(file, desired) == Shared(file, desired)
  {
    forall i | 0 <= i < |file|
      ensures FindBackend(desired, file[i]) < |desired| <==> Mentions(desired, file[i])
    {
      if !Mentions(desired, file[i]) { assert NoAddress(desired, file[i].address); }
    }
    KeptIsShared(file, desired);
  }

  lemma NamedIsIdentified(l: seq<Backend>)
    requires NamedList(l)
    ensures Identified(l)
  {
  }

  // ----- Expressible lists have no aliasing -----

  // A file backend that is only found by its address could not be updated.
  lemma FoundByName(file: seq<Backend>, desired: seq<Backend>, f: Backend)
    requires NamedList(file) && NamedList(desired) && Expressible(file, desired)
    requires f in file && FindBackend(desired, f) < |desired|
    ensures Mentions(desired, f)
  {
    SurvivorIn(file, desired, f);
    var kept := Kept(file, desired);
    var r :| 0 <= r < |kept| && kept[r] == f;
    assert FindBackend(desired, kept[r]) == 0 + r && Updatable(kept[r], desired[0 + r]);
    assert desired[r].name == Some(f.name.value);
  }

  lemma {:induction false} SurvivorIn(file: seq<Backend>, desired: seq<Backend>, f: Backend)
    requires f in file && FindBackend(desired, f) < |desired|
    ensures f in Kept(file, desired)
  {
    if f != file[0] { SurvivorIn(file[1..], desired, f); }
  }

  // A desired backend that the file knows only by address is never emitted.
  lemma SurvivorIsMentioned(file: seq<Backend>, desired: seq<Backend>, j: nat)
    requires NamedList(file) && NamedList(desired) && Expressible(file, desired)
    requires j < |Kept(file, desired)|
    ensures j < |desired| && Mentions(file, desired[j])
  {
    var kept := Kept(file, desired);
    assert FindBackend(desired, kept[j]) == 0 + j && Updatable(kept[j], desired[0 + j]);
    KeptIsFound(file, desired, j);
    var i :| 0 <= i < |file| && file[i] == kept[j];
    assert file[i].name == Some(desired[j].name.value);
  }

  lemma ExpressibleIsPlain(file: seq<Backend>, desired: seq<Backend>)
    requires NamedList(file) && NamedList(desired) && Expressible(file, desired)
    ensures NoAliasing(file, desired) && InFileOrder(file, desired)
  {
    forall i | 0 <= i < |file| && !Mentions(desired, file[i]) ensures NoAddress(desired, file[i].address) {
      if FindBackend(desired, file[i]) < |desired| { FoundByName(file, desired, file[i]); }
    }
    forall j | 0 <= j < |desired| && !Mentions(file, desired[j]) ensures NoAddress(file, desired[j].address) {
      if j < |Kept(file, desired)| { SurvivorIsMentioned(file, desired, j); }
      assert FindBackend(file, desired[j]) == |file|;
    }
    UnaliasedIsKept(file, desired);
    var shared := Shared(file, desired);
    forall r | 0 <= r < |shared| ensures desired[r].name == shared[r].name && Updatable(shared[r], desired[r]) {
      assert FindBackend(desired, shared[r]) == 0 + r && Updatable(shared[r], desired[0 + r]);
    }
  }

  // ----- And the other way round -----

  // The names that both sides have are used up by the shared backends.
  lemma RestIsUnmentioned(file: seq<Backend>, desired: seq<Backend>, i: nat, j: nat)
    requires NamedList(file) && NamedList(desired) && InFileOrder(file, desired)
    requires i < |file| && |Shared(file, desired)| <= j < |desired|
    ensures file[i].name != desired[j].name
  {
    var shared := Shared(file, desired);
    if Mentions(desired, file[i]) {
      SharedMembers(file, desired, file[i]);
      var r :| 0 <= r < |shared| && shared[r] == file[i];
      assert desired[r].name == file[i].name;
    }
  }

  lemma RestIsUnknown(file: seq<Backend>, desired: seq<Backend>, j: nat)
    requires NamedList(file) && NamedList(desired) && NoAliasing(file, desired) && InFileOrder(file, desired)
    requires |Shared(file, desired)| <= j < |desired|
    ensures FindBackend(file, desired[j]) == |file|
  {
    forall i | 0 <= i < |file| ensures file[i].name != desired[j].name {
      RestIsUnmentioned(file, desired, i, j);
    }
    assert NoAddress(file, desired[j].address);
  }

  lemma PlainIsExpressible(file: seq<Backend>, desired: seq<Backend>)
    requires NamedList(file) && NamedList(desired) && NoAliasing(file, desired) && InFileOrder(file, desired)
    ensures Expressible(file, desired)
  {
    UnaliasedIsKept(file, desired);
    NamedIsIdentified(desired);
    var shared := Shared(file, desired);
    forall r | 0 <= r < |shared|
      ensures FindBackend(desired, shared[r]) == 0 + r && Updatable(shared[r], desired[0 + r])
    {
      IndexOfOwnName(desired, r);
    }
    assert LineUp(shared, desired, 0);
    forall j | |shared| <= j < |desired| ensures FindBackend(file, desired[j]) == |file| {
      RestIsUnknown(file, desired, j);
    }
  }

  // The exact domain of synthesis on named backends.
  lemma NamedRoundTrip(pool: string, file: seq<Backend>, desired: seq<Backend>)
    requires NamedList(file) && NamedList(desired)
    ensures MergeBackends(pool, file, SynthesizeBackends(file, desired), ApplyToBaseline) == Ok(desired)
            <==> NoAliasing(file, desired) && InFileOrder(file, desired)
  {
    NamedIsIdentified(file);
    NamedIsIdentified(desired);
    BackendsRoundTrip(pool, file, desired);
    if Expressible(file, desired) { ExpressibleIsPlain(file, desired); }
    if NoAliasing(file, desired) && InFileOrder(file, desired) { PlainIsExpressible(file, desired); }
  }

  // ----- Outside the domain -----

  lemma NamedAreTraceable(file: seq<Backend>, desired: seq<Backend>)
    requires NamedList(file) && NamedList(desired)
    ensures Traceable(file, desired)
  {
    NamedIsIdentified(file);
    forall i, j | 0 <= i < |desired| && 0 <= j < |desired| && i != j ensures NameApart(desired[i], desired[j]) {
      assert if i < j then desired[i].name != desired[j].name else desired[j].name != desired[i].name;
    }
  }

  // The file's name is not desired, and the first desired backend at its address has a
  // name that the file lacks.
  predicate Renamed(file: seq<Backend>, desired: seq<Backend>, f: Backend)
    requires HasName(f)
  {
    var k := IndexOfAddress(desired, f.address);
    !Mentions(desired, f) && k < |desired| && HasName(desired[k]) && !Mentions(file, desired[k])
  }

  // Between named lists, a target is refused if and only if some backend was renamed in
  // place. Every other target outside the domain is silently missed.
  lemma NamedRefusedIff(pool: string, file: seq<Backend>, desired: seq<Backend>)
    requires NamedList(file) && NamedList(desired)
    ensures MergeBackends(pool, file, SynthesizeBackends(file, desired), ApplyToBaseline).Err?
            <==> exists i :: 0 <= i < |file| && Renamed(file, desired, file[i])
  {
    NamedAreTraceable(file, desired);
    RefusedIff(pool, file, desired);
    forall i | 0 <= i < |file| ensures Renamed(file, desired, file[i]) <==> Stuck(file, desired, file[i]) {
      if Mentions(desired, file[i]) {
        var k := IndexOfName(desired, file[i].name.value);
        assert desired[k].name == Some(desired[k].name.value);
        HasIf(file, i, desired[k].name.value);
      }
    }
  }

  // A new name at an address of the file is silently not added, unless the target is
  // refused: the merge succeeds without it.
  lemma NewcomerIsMissed(pool: string, file: seq<Backend>, desired: seq<Backend>, j: nat)
    requires NamedList(file) && NamedList(desired) && j < |desired|
    requires !Mentions(file, desired[j]) && !NoAddress(file, desired[j].address)
    requires forall i :: 0 <= i < |file| ==> !Renamed(file, desired, file[i])
    ensures var r := MergeBackends(pool, file, SynthesizeBackends(file, desired), ApplyToBaseline);
            r.Ok? && NoName(r.value, desired[j].name.value)
  {
    NamedAreTraceable(file, desired);
    NamedRefusedIff(pool, file, desired);
    AliasedIsNeverAdded(pool, file, desired, j);
  }

  // The smallest cases: a backend renamed in place, and one that makes room for another.
  lemma RenameIsRefused(pool: string, a: Backend, b: Backend)
    requires NamedList([a]) && NamedList([b]) && a.name != b.name && a.address == b.address
    ensures MergeBackends(pool, [a], SynthesizeBackends([a], [b]), ApplyToBaseline).Err?
  {
    assert IndexOfName([b], a.name.value) == 1 && IndexOfName([a], b.name.value) == 1;
    assert Renamed([a], [b], [a][0]);
    NamedRefusedIff(pool, [a], [b]);
  }

  lemma RoomIsNotTaken(pool: string, a: Backend, address: string, b: Backend)
    requires NamedList([a]) && address != "" && address != a.address
    requires HasName(b) && b.name != a.name && b.address == a.address && b.remove.None?
    ensures var r := MergeBackends(pool, [a], SynthesizeBackends([a], [a.(address := address), b]), ApplyToBaseline);
            r.Ok? && NoName(r.value, b.name.value)
  {
    var desired := [a.(address := address), b];
    assert IndexOfName([a], b.name.value) == 1 && IndexOfName(desired, a.name.value) == 0;
    assert desired[1] == b && [a][0].address == b.address;
    assert Mentions(desired, [a][0]);
    NewcomerIsMissed(pool, [a], desired, 1);
  }
}
