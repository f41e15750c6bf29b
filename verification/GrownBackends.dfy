/**
 Backend lists that typed primitives can reach from a file pool, and why synthesis
 can express them.
 */
module GrownBackends {
  import opened Wrappers
  import opened ConfigModel
  import opened Merge
  import opened Synthesize
  import opened BackendRoundTrip

  // `x` keeps some entries of `l`, in order.
  predicate Sub(x: seq<Backend>, l: seq<Backend>) {
    x == [] || (l != [] && ((x[0] == l[0] && Sub(x[1..], l[1..])) || Sub(x, l[1..])))
  }

  ghost predicate DistinctAddresses(l: seq<Backend>) {
    forall i, j :: 0 <= i < j < |l| ==> l[i].address != l[j].address
  }

  // Unknown to the file's pool, by name and by address.
  predicate Fresh(file: seq<Backend>, b: Backend) {
    && (HasName(b) ==> IndexOfName(file, b.name.value) == |file|)
    && IndexOfAddress(file, b.address) == |file|
  }

  // Only the weight may have been set.
  predicate Persists(f: Backend, e: Backend) {
    e == f.(weight := e.weight) && (f.weight.Some? ==> e.weight.Some?)
  }

  // Some file backends, in order and reweighted, followed by fresh ones.
  ghost predicate Grows(file: seq<Backend>, eff: seq<Backend>, x: seq<Backend>) {
    && |x| <= |eff| && Sub(x, file)
    && (forall r :: 0 <= r < |x| ==> Persists(x[r], eff[r]))
    && (forall j :: |x| <= j < |eff| ==> Fresh(file, eff[j]))
  }

  ghost predicate Grown(file: seq<Backend>, eff: seq<Backend>) {
    && Identified(eff) && DistinctAddresses(eff)
    && exists x :: Grows(file, eff, x)
  }

  lemma {:induction false} SubMembers(x: seq<Backend>, l: seq<Backend>)
    requires Sub(x, l)
    ensures forall b :: b in x ==> b in l
    decreases |l|
  {
    if x != [] {
      if x[0] == l[0] && Sub(x[1..], l[1..]) {
        SubMembers(x[1..], l[1..]);
        assert x == [x[0]] + x[1..];
      } else {
        SubMembers(x, l[1..]);
      }
    }
  }

  lemma {:induction false} SubSelf(l: seq<Backend>)
    ensures Sub(l, l)
  {
    if l != [] { SubSelf(l[1..]); }
  }

  lemma {:induction false} SubDrop(x: seq<Backend>, l: seq<Backend>, i: nat)
    requires Sub(x, l) && i < |x|
    ensures Sub(x[..i] + x[i + 1..], l)
    decreases |l|
  {
    var y := x[..i] + x[i + 1..];
    if x[0] == l[0] && Sub(x[1..], l[1..]) {
      if i == 0 {
        assert y == x[1..];
        SubSkip(y, l);
      } else {
        SubDrop(x[1..], l[1..], i - 1);
        assert y[0] == x[0] && y[1..] == x[1..][..i - 1] + x[1..][i..];
      }
    } else {
      SubDrop(x, l[1..], i);
      SubSkip(y, l);
    }
  }

  lemma SubSkip(x: seq<Backend>, l: seq<Backend>)
    requires l != [] && Sub(x, l[1..])
    ensures Sub(x, l)
  {
  }

  ghost predicate DistinctEntries(l: seq<Backend>) {
    forall i, j :: 0 <= i < j < |l| ==> l[i] != l[j]
  }

  // Exactly the entries of `x` have a counterpart, so they are the survivors.
  lemma {:induction false} KeptIs(file: seq<Backend>, desired: seq<Backend>, x: seq<Backend>)
    requires Sub(x, file) && DistinctEntries(file)
    requires forall b :: b in file ==> (b in x <==> FindBackend(desired, b) < |desired|)
    ensures Kept(file, desired) == x
    decreases |file|
  {
    if file != [] {
      var f, t := file[0], file[1..];
      assert f !in t by {
        assert forall k :: 0 <= k < |t| ==> t[k] == file[k + 1];
      }
      assert f in file && forall b :: b in t ==> b in file;
      if x != [] && x[0] == f && Sub(x[1..], t) {
        assert x == [f] + x[1..];
        SubMembers(x[1..], t);
        KeptIs(t, desired, x[1..]);
      } else {
        SubMembers(x, t);
        KeptIs(t, desired, x);
      }
    }
  }

  lemma PersistentIsFound(file: seq<Backend>, eff: seq<Backend>, x: seq<Backend>, r: nat)
    requires Identified(eff) && Grows(file, eff, x) && r < |x|
    ensures FindBackend(eff, x[r]) == r
  {
    assert Persists(x[r], eff[r]);
    if HasName(x[r]) { IndexOfOwnName(eff, r); } else { IndexOfOwnAddress(eff, r); }
  }

  lemma RemovedIsNotFound(file: seq<Backend>, eff: seq<Backend>, x: seq<Backend>, f: Backend)
    requires Identified(file) && DistinctAddresses(file) && Grows(file, eff, x)
    requires f in file && f !in x
    ensures FindBackend(eff, f) == |eff|
  {
    SubMembers(x, file);
    var i :| 0 <= i < |file| && file[i] == f;
    forall r | 0 <= r < |eff|
      ensures eff[r].address != f.address && (HasName(f) ==> eff[r].name != f.name)
    {
      if r < |x| {
        assert Persists(x[r], eff[r]) && x[r] in file;
        var k :| 0 <= k < |file| && file[k] == x[r];
        assert k != i;
      } else {
        assert Fresh(file, eff[r]);
      }
    }
  }

  lemma GrownKeeps(file: seq<Backend>, eff: seq<Backend>, x: seq<Backend>)
    requires Identified(file) && DistinctAddresses(file) && Identified(eff) && Grows(file, eff, x)
    ensures Kept(file, eff) == x
  {
    forall b | b in file ensures b in x <==> FindBackend(eff, b) < |eff| {
      if b in x {
        var r :| 0 <= r < |x| && x[r] == b;
        PersistentIsFound(file, eff, x, r);
      } else {
        RemovedIsNotFound(file, eff, x, b);
      }
    }
    KeptIs(file, eff, x);
  }

  lemma GrownIsExpressible(file: seq<Backend>, eff: seq<Backend>)
    requires Identified(file) && DistinctAddresses(file) && Grown(file, eff)
    ensures Expressible(file, eff)
  {
    var x :| Grows(file, eff, x);
    GrownKeeps(file, eff, x);
    forall r | 0 <= r < |x| ensures FindBackend(eff, x[r]) == 0 + r && Updatable(x[r], eff[0 + r]) {
      PersistentIsFound(file, eff, x, r);
      assert Persists(x[r], eff[r]);
    }
    assert LineUp(x, eff, 0);
  }

  // ----- Single changes -----

  lemma FileIsGrown(file: seq<Backend>)
    requires Identified(file) && DistinctAddresses(file)
    ensures Grown(file, file)
  {
    SubSelf(file);
    assert Grows(file, file, file);
  }

  // Identities survive a change that keeps names, addresses and clear markers.
  lemma SameIdentities(l: seq<Backend>, l': seq<Backend>)
    requires Identified(l) && DistinctAddresses(l) && |l| == |l'|
    requires forall i :: 0 <= i < |l| ==> l'[i] == l[i].(weight := l'[i].weight)
    ensures Identified(l') && DistinctAddresses(l')
  {
  }

  lemma FewerIdentities(l: seq<Backend>, l': seq<Backend>, i: nat)
    requires Identified(l) && i < |l|
    requires l' == l[..i] + l[i + 1..]
    ensures Identified(l') && (DistinctAddresses(l) ==> DistinctAddresses(l'))
  {
    assert forall r :: 0 <= r < |l'| ==> l'[r] == l[if r < i then r else r + 1];
  }

  lemma MoreIdentities(l: seq<Backend>, b: Backend)
    requires Identified(l) && DistinctAddresses(l) && Fresh(l, b) && b.address != "" && b.remove.None?
    ensures Identified(l + [b]) && DistinctAddresses(l + [b])
  {
  }

  lemma ReweighedGrows(file: seq<Backend>, eff: seq<Backend>, x: seq<Backend>, i: nat, weight: nat)
    requires Grows(file, eff, x) && i < |eff|
    ensures Grows(file, eff[i := eff[i].(weight := Some(weight))], x)
  {
    var eff' := eff[i := eff[i].(weight := Some(weight))];
    forall r | 0 <= r < |x| ensures Persists(x[r], eff'[r]) { assert Persists(x[r], eff[r]); }
    forall j | |x| <= j < |eff'| ensures Fresh(file, eff'[j]) { assert Fresh(file, eff[j]); }
  }

  lemma ReweighedIsGrown(file: seq<Backend>, eff: seq<Backend>, i: nat, weight: nat)
    requires Grown(file, eff) && i < |eff|
    ensures Grown(file, eff[i := eff[i].(weight := Some(weight))])
  {
    var x :| Grows(file, eff, x);
    ReweighedGrows(file, eff, x, i, weight);
    SameIdentities(eff, eff[i := eff[i].(weight := Some(weight))]);
  }

  lemma ShrunkGrows(file: seq<Backend>, eff: seq<Backend>, x: seq<Backend>, i: nat)
    requires Grows(file, eff, x) && i < |eff|
    ensures Grows(file, eff[..i] + eff[i + 1..], if i < |x| then x[..i] + x[i + 1..] else x)
  {
    var eff' := eff[..i] + eff[i + 1..];
    var x' := if i < |x| then x[..i] + x[i + 1..] else x;
    if i < |x| { SubDrop(x, file, i); }
    assert forall r :: 0 <= r < |eff'| ==> eff'[r] == eff[if r < i then r else r + 1];
    forall r | 0 <= r < |x'| ensures Persists(x'[r], eff'[r]) {
      var k := if r < i then r else r + 1;
      assert x'[r] == x[k] && Persists(x[k], eff[k]);
    }
    forall j | |x'| <= j < |eff'| ensures Fresh(file, eff'[j]) {
      assert Fresh(file, eff[if j < i then j else j + 1]);
    }
  }

  lemma ShrunkIsGrown(file: seq<Backend>, eff: seq<Backend>, i: nat)
    requires Grown(file, eff) && i < |eff|
    ensures Grown(file, eff[..i] + eff[i + 1..])
  {
    var x :| Grows(file, eff, x);
    ShrunkGrows(file, eff, x, i);
    FewerIdentities(eff, eff[..i] + eff[i + 1..], i);
  }

  lemma ExtendedIsGrown(file: seq<Backend>, eff: seq<Backend>, b: Backend)
    requires Grown(file, eff) && Fresh(file, b) && Fresh(eff, b)
    requires b.address != "" && b.remove.None?
    ensures Grown(file, eff + [b])
  {
    var x :| Grows(file, eff, x);
    assert Grows(file, eff + [b], x);
    MoreIdentities(eff, b);
  }

  // ----- Where single primitives stop being expressible -----

  lemma IdentifiedIsDistinct(l: seq<Backend>)
    requires Identified(l)
    ensures DistinctEntries(l)
  {
  }

  lemma FindsItself(l: seq<Backend>, i: nat)
    requires Identified(l) && i < |l|
    ensures FindBackend(l, l[i]) == i
  {
    if HasName(l[i]) { IndexOfOwnName(l, i); } else { IndexOfOwnAddress(l, i); }
  }

  lemma {:induction false} FoundIsKept(file: seq<Backend>, desired: seq<Backend>, f: Backend)
    requires f in file && FindBackend(desired, f) < |desired|
    ensures f in Kept(file, desired)
  {
    if file[0] != f { FoundIsKept(file[1..], desired, f); }
  }

  lemma AllKept(file: seq<Backend>, desired: seq<Backend>)
    requires Identified(file)
    requires forall i :: 0 <= i < |file| ==> FindBackend(desired, file[i]) < |desired|
    ensures Kept(file, desired) == file
  {
    SubSelf(file);
    IdentifiedIsDistinct(file);
    KeptIs(file, desired, file);
  }

  lemma DeletedEntry(l: seq<Backend>, i: nat, r: nat)
    requires Identified(l) && i < |l| && r < |l| - 1
    ensures var d := l[..i] + l[i + 1..];
            && d[r] == l[if r < i then r else r + 1]
            && FindBackend(d, d[r]) == r
            && Identified(d)
  {
    var d := l[..i] + l[i + 1..];
    assert forall k :: 0 <= k < |d| ==> d[k] == l[if k < i then k else k + 1];
    assert Identified(d);
    FindsItself(d, r);
  }

  lemma DeletionKeepsRest(file: seq<Backend>, i: nat)
    requires Identified(file) && i < |file|
    requires var d := file[..i] + file[i + 1..]; FindBackend(d, file[i]) == |d|
    ensures Kept(file, file[..i] + file[i + 1..]) == file[..i] + file[i + 1..]
  {
    var d := file[..i] + file[i + 1..];
    SubSelf(file);
    SubDrop(file, file, i);
    IdentifiedIsDistinct(file);
    forall k | 0 <= k < |file| && k != i ensures file[k] in d {
      assert d[if k < i then k else k - 1] == file[k];
    }
    forall b | b in file ensures b in d <==> FindBackend(d, b) < |d| {
      if b in d {
        var r :| 0 <= r < |d| && d[r] == b;
        DeletedEntry(file, i, r);
      }
    }
    KeptIs(file, d, d);
  }

  // Deleting a backend can be expressed exactly when no other backend of the pool
  // shares its address.
  lemma DeleteExpressibleIff(file: seq<Backend>, i: nat)
    requires Identified(file) && i < |file|
    ensures var d := file[..i] + file[i + 1..];
            Expressible(file, d) <==> NoAddress(d, file[i].address)
  {
    var f, d := file[i], file[..i] + file[i + 1..];
    assert forall k :: 0 <= k < |d| ==> d[k] == file[if k < i then k else k + 1];
    if NoAddress(d, f.address) {
      assert FindBackend(d, f) == |d| by {
        if HasName(f) { assert IndexOfName(d, f.name.value) == |d|; }
        assert IndexOfAddress(d, f.address) == |d|;
      }
      DeletionKeepsRest(file, i);
      forall r | 0 <= r < |d| ensures FindBackend(d, d[r]) == 0 + r && Updatable(d[r], d[0 + r]) {
        DeletedEntry(file, i, r);
      }
      assert LineUp(d, d, 0);
    } else if Expressible(file, d) {
      SharedDeletionFails(file, i);
    }
  }

  lemma SharedDeletionFails(file: seq<Backend>, i: nat)
    requires Identified(file) && i < |file|
    requires var d := file[..i] + file[i + 1..]; !NoAddress(d, file[i].address)
    ensures !Expressible(file, file[..i] + file[i + 1..])
  {
    var f, d := file[i], file[..i] + file[i + 1..];
    assert forall k :: 0 <= k < |d| ==> d[k] == file[if k < i then k else k + 1];
    var m := FindBackend(d, f);
    assert m < |d|;
    FoundIsKept(file, d, f);
    var r :| 0 <= r < |Kept(file, d)| && Kept(file, d)[r] == f;
    assert !Updatable(f, d[m]);
  }

  // Two named backends at one address: deleting the first is accepted and lost.
  lemma TwinDeletionIsLost(pool: string, a: Backend, b: Backend)
    requires HasName(a) && HasName(b) && a.name != b.name && a.address == b.address != ""
    requires a.remove.None? && b.remove.None?
    ensures MergeBackends(pool, [a, b], SynthesizeBackends([a, b], [b]), ApplyToBaseline) == Ok([a, b])
  {
    var delta := BackendDelta(a, b).value;
    assert [a, b][1..] == [b] && [b][1..] == [];
    assert FindBackend([b], a) == 0 && FindBackend([b], b) == 0;
    assert FileEntries([b], [b]) == [];
    assert Additions([a, b], [b]) == [];
    assert SynthesizeBackends([a, b], [b]) == [delta];
    assert IndexOfName([a, b], b.name.value) == 1;
    assert [a, b][1 := UpdateBackend(b, delta)] == [a, b];
    MergeOne(pool, [a, b], delta, ApplyToBaseline);
  }

  // Deleting backend `i` and then adding `b` can be expressed exactly when `b` is unknown
  // to the file's pool, or takes over the last file backend's own identity.
  lemma ReplaceExpressibleIff(file: seq<Backend>, i: nat, b: Backend)
    requires Identified(file) && DistinctAddresses(file) && i < |file|
    requires b.address != "" && b.remove.None? && Fresh(file[..i] + file[i + 1..], b)
    ensures var d := file[..i] + file[i + 1..] + [b];
            Expressible(file, d) <==> Fresh(file, b) || (i == |file| - 1 && Updatable(file[i], b))
  {
    var rest := file[..i] + file[i + 1..];
    var d := rest + [b];
    if Fresh(file, b) {
      FileIsGrown(file);
      ShrunkIsGrown(file, file, i);
      ExtendedIsGrown(file, rest, b);
      GrownIsExpressible(file, d);
    } else {
      ReplacedLineUp(file, i, b);
    }
  }

  lemma OthersStayFound(file: seq<Backend>, i: nat, b: Backend, k: nat)
    requires Identified(file) && DistinctAddresses(file) && i < |file| && k < |file| && k != i
    requires b.address != "" && b.remove.None? && Fresh(file[..i] + file[i + 1..], b)
    ensures var d, r := file[..i] + file[i + 1..] + [b], if k < i then k else k - 1;
            d[r] == file[k] && FindBackend(d, file[k]) == r
  {
    var rest, r := file[..i] + file[i + 1..], if k < i then k else k - 1;
    FewerIdentities(file, rest, i);
    MoreIdentities(rest, b);
    assert (rest + [b])[r] == file[k];
    FindsItself(rest + [b], r);
  }

  // Where the file's backends are found once entry `i` has been replaced at the end.
  ghost predicate ReplacedPositions(file: seq<Backend>, d: seq<Backend>, i: nat) {
    && |d| == |file| && i < |file|
    && forall k :: 0 <= k < |file| ==>
         && FindBackend(d, file[k]) == (if k < i then k else if k == i then |d| - 1 else k - 1)
         && (k < i ==> d[k] == file[k])
  }

  lemma LineUpByPositions(file: seq<Backend>, d: seq<Backend>, i: nat)
    requires ReplacedPositions(file, d, i)
    ensures LineUp(file, d, 0) <==> i == |file| - 1 && Updatable(file[i], d[i])
  {
    if LineUp(file, d, 0) {
      assert FindBackend(d, file[i]) == 0 + i && Updatable(file[i], d[0 + i]);
    }
  }

  lemma ReplacedLineUp(file: seq<Backend>, i: nat, b: Backend)
    requires Identified(file) && DistinctAddresses(file) && i < |file|
    requires b.address != "" && b.remove.None? && Fresh(file[..i] + file[i + 1..], b) && !Fresh(file, b)
    ensures var d := file[..i] + file[i + 1..] + [b];
            Expressible(file, d) <==> i == |file| - 1 && Updatable(file[i], b)
  {
    var d := file[..i] + file[i + 1..] + [b];
    assert ReplacedPositions(file, d, i) by {
      ReplacedIsFound(file, i, b);
      forall k | 0 <= k < |file| && k != i
        ensures FindBackend(d, file[k]) == (if k < i then k else k - 1) && (k < i ==> d[k] == file[k])
      {
        OthersStayFound(file, i, b, k);
      }
    }
    AllKept(file, d);
    LineUpByPositions(file, d, i);
  }

  lemma RestLacks(file: seq<Backend>, i: nat)
    requires Identified(file) && DistinctAddresses(file) && i < |file|
    ensures var rest := file[..i] + file[i + 1..];
            NoAddress(rest, file[i].address) && (HasName(file[i]) ==> NoName(rest, file[i].name.value))
  {
    var rest := file[..i] + file[i + 1..];
    forall k | 0 <= k < |rest|
      ensures rest[k].address != file[i].address && (HasName(file[i]) ==> rest[k].name != file[i].name)
    {
      assert rest[k] == file[if k < i then k else k + 1];
    }
  }

  lemma SharedIsFound(rest: seq<Backend>, f: Backend, b: Backend)
    requires NoAddress(rest, f.address) && (HasName(f) ==> NoName(rest, f.name.value)) && f.address != ""
    requires (HasName(b) && f.name == b.name) || f.address == b.address
    ensures FindBackend(rest + [b], f) == |rest|
  {
    var d := rest + [b];
    assert d[|rest|] == b && forall k :: 0 <= k < |rest| ==> d[k] == rest[k];
    if HasName(f) { assert IndexOfName(d, f.name.value) >= |rest|; }
    assert IndexOfAddress(d, f.address) >= |rest|;
  }

  lemma ReplacedIsFound(file: seq<Backend>, i: nat, b: Backend)
    requires Identified(file) && DistinctAddresses(file) && i < |file|
    requires Fresh(file[..i] + file[i + 1..], b) && !Fresh(file, b)
    ensures var d := file[..i] + file[i + 1..] + [b]; FindBackend(d, file[i]) == |d| - 1
  {
    RestLacks(file, i);
    FreshOrShared(file, i, b);
    SharedIsFound(file[..i] + file[i + 1..], file[i], b);
  }

  // A backend known to the file, but not to the rest of it, shares something with entry `i`.
  lemma FreshOrShared(file: seq<Backend>, i: nat, b: Backend)
    requires i < |file| && Fresh(file[..i] + file[i + 1..], b) && !Fresh(file, b)
    ensures (HasName(b) && file[i].name == b.name) || file[i].address == b.address
  {
    var rest := file[..i] + file[i + 1..];
    forall k | 0 <= k < |file| && k != i
      ensures file[k].address != b.address && (HasName(b) ==> file[k].name != b.name)
    {
      assert rest[if k < i then k else k - 1] == file[k];
    }
  }
}
