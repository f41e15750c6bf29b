/**
 Synthesizing again from what a name-keyed overlay made of a pool. The file's backends
 need no name: those without one pass through the overlay untouched.
 */
module Reproduction {
  import opened Wrappers
  import opened ConfigModel
  import opened Merge
  import opened Synthesize
  import opened BackendRoundTrip
  import opened PointwiseMerge
  import opened NameTracking
  import Resynthesis

  // ----- The outcome of an overlay -----

  // Both sides hold the same backends without a name.
  ghost predicate SameUnnamed(file: seq<Backend>, desired: seq<Backend>) {
    forall b :: !HasName(b) ==> (b in file <==> b in desired)
  }

  // A file and a target that differ in named backends only.
  ghost predicate Comparable(file: seq<Backend>, desired: seq<Backend>) {
    Identified(file) && NamesOnce(desired) && Placed(desired) && SameUnnamed(file, desired)
  }

  lemma ComparableIsTraceable(file: seq<Backend>, desired: seq<Backend>)
    requires Comparable(file, desired)
    ensures Traceable(file, desired)
  {
    forall j | 0 <= j < |desired| && desired[j].name == Some("") ensures desired[j] in file {
      assert desired[j] in desired;
    }
  }

  // What a file backend finds in the target: a named backend, or itself.
  lemma FoundIsNamed(file: seq<Backend>, desired: seq<Backend>, i: nat)
    requires Comparable(file, desired) && i < |file|
    ensures var k := FindBackend(desired, file[i]);
            && (!HasName(file[i]) ==> k < |desired|)
            && (k < |desired| ==> HasName(desired[k]) || desired[k] == file[i])
  {
    var f, k := file[i], FindBackend(desired, file[i]);
    if !HasName(f) {
      assert f in file && f in desired;
      var j :| 0 <= j < |desired| && desired[j] == f;
      assert IndexOfAddress(desired, f.address) <= j;
    }
    if k < |desired| && !HasName(desired[k]) {
      assert desired[k] in desired && desired[k] in file;
      var j :| 0 <= j < |file| && file[j] == desired[k];
      if j != i { LoneAddress(file, j, i); }
    }
  }

  lemma UnnamedIsFound(file: seq<Backend>, desired: seq<Backend>, j: nat)
    requires Comparable(file, desired) && j < |desired| && !HasName(desired[j])
    ensures FindBackend(file, desired[j]) < |file|
  {
    assert desired[j] in desired && desired[j] in file;
    var i :| 0 <= i < |file| && file[i] == desired[j];
    assert IndexOfAddress(file, desired[j].address) <= i;
  }

  lemma IdentifiedIsOnce(l: seq<Backend>)
    requires Identified(l)
    ensures NamesOnce(l) && Placed(l)
  {
    forall i, j | 0 <= i < |l| && 0 <= j < |l| && i != j ensures NameApart(l[i], l[j]) {
      assert BackendRoundTrip.Apart(l[i], l[j]);
    }
  }

  lemma OnceCons(b: Backend, l: seq<Backend>)
    requires NamesOnce(l) && (HasName(b) ==> NoName(l, b.name.value))
    ensures NamesOnce([b] + l)
  {
    var m := [b] + l;
    forall i, j | 0 <= i < |m| && 0 <= j < |m| && i != j ensures NameApart(m[i], m[j]) {
      if i > 0 && j > 0 { assert NameApart(l[i - 1], l[j - 1]); }
    }
  }

  lemma OnceTail(l: seq<Backend>)
    requires NamesOnce(l) && l != []
    ensures NamesOnce(l[1..]) && (HasName(l[0]) ==> NoName(l[1..], l[0].name.value))
  {
    forall i, j | 0 <= i < |l[1..]| && 0 <= j < |l[1..]| && i != j ensures NameApart(l[1..][i], l[1..][j]) {
      assert NameApart(l[i + 1], l[j + 1]);
    }
    forall j | 0 <= j < |l[1..]| ensures HasName(l[0]) ==> l[1..][j].name != l[0].name {
      assert NameApart(l[0], l[j + 1]);
    }
  }

  lemma OnceJoin(u: seq<Backend>, v: seq<Backend>)
    requires NamesOnce(u) && NamesOnce(v)
    requires forall i :: 0 <= i < |u| && HasName(u[i]) ==> NoName(v, u[i].name.value)
    ensures NamesOnce(u + v)
  {
    var l := u + v;
    forall i, j | 0 <= i < |l| && 0 <= j < |l| && i != j ensures NameApart(l[i], l[j]) {
      if i < |u| && j < |u| {
        assert NameApart(u[i], u[j]);
      } else if i >= |u| && j >= |u| {
        assert NameApart(v[i - |u|], v[j - |u|]);
      }
    }
  }

  lemma {:induction false} UpdatedOnce(file: seq<Backend>, os: seq<Backend>)
    requires NamesOnce(file) && Placed(file)
    ensures NamesOnce(Updated(file, os)) && Placed(Updated(file, os))
  {
    if file != [] {
      OnceTail(file);
      UpdatedOnce(file[1..], os);
      if HasName(file[0]) { UpdatedNames(file[1..], os, file[0].name.value); }
      var rest := Updated(file[1..], os);
      if Own(file[0], os) != [] { OnceCons(Own(file[0], os)[0], rest); } else { assert [] + rest == rest; }
    }
  }

  lemma {:induction false} AddedOnce(file: seq<Backend>, os: seq<Backend>)
    requires OwnNames(os) && AllFit(file, os)
    ensures NamesOnce(Added(file, os)) && Placed(Added(file, os))
    ensures forall b :: b in Added(file, os) ==> HasName(b)
  {
    if os != [] {
      assert Fits(file, os[0]);
      assert forall k :: 0 <= k < |os[1..]| ==> os[1..][k] == os[k + 1];
      AddedOnce(file, os[1..]);
      OwnNamesParts(os, 0);
      AddedNames(file, os[1..], os[0].name.value);
      if !Mentions(file, os[0]) { OnceCons(os[0].(remove := None), Added(file, os[1..])); }
    }
  }

  lemma {:induction false} UnnamedPass(file: seq<Backend>, os: seq<Backend>, b: Backend)
    requires !HasName(b)
    ensures b in Updated(file, os) <==> b in file
  {
    if file != [] {
      UnnamedPass(file[1..], os, b);
      assert b in file <==> b == file[0] || b in file[1..];
      assert b in Own(file[0], os) <==> b == file[0];
    }
  }

  // The outcome differs from the file in named backends only.
  lemma OutcomeIsComparable(file: seq<Backend>, os: seq<Backend>)
    requires Identified(file) && OwnNames(os) && AllFit(file, os)
    ensures Comparable(file, Updated(file, os) + Added(file, os))
  {
    var u, v := Updated(file, os), Added(file, os);
    IdentifiedIsOnce(file);
    UpdatedOnce(file, os);
    AddedOnce(file, os);
    forall i | 0 <= i < |u| && HasName(u[i]) ensures NoName(v, u[i].name.value) {
      if NoName(file, u[i].name.value) { UpdatedNames(file, os, u[i].name.value); }
      AddedNames(file, os, u[i].name.value);
    }
    OnceJoin(u, v);
    forall b | !HasName(b) ensures b in file <==> b in u + v { UnnamedPass(file, os, b); }
  }

  // ----- Working off the file, without aliasing -----

  lemma NameAt(d: seq<Backend>, k: nat)
    requires NamesOnce(d) && k < |d| && HasName(d[k])
    ensures IndexOfName(d, d[k].name.value) == k
  {
    forall i | 0 <= i < k ensures d[i].name != d[k].name { assert NameApart(d[k], d[i]); }
  }

  lemma RemovedStep(pool: string, p: seq<Backend>, f: Backend, t: seq<Backend>, d: seq<Backend>)
    requires HasName(f) && f.address != "" && FindBackend(d, f) == |d|
    requires NoName(p, f.name.value) && NoName(t, f.name.value)
    ensures StepsTo(pool, p + [f] + t, f, d, p + t)
  {
    RemovalStep(pool, p, f, t);
  }

  lemma UpdatedStep(pool: string, p: seq<Backend>, f: Backend, t: seq<Backend>, d: seq<Backend>, k: nat)
    requires HasName(f) && f.address != "" && f.remove.None? && k < |d| && FindBackend(d, f) == k
    requires Updatable(f, d[k]) && d[k].name == f.name && d[k].address != "" && d[k].remove.None?
    requires NoName(p, f.name.value)
    ensures StepsTo(pool, p + [f] + t, f, d, p + [d[k]] + t)
  {
    UpdateStep(pool, p, f, t, d[k]);
  }

  // A backend without a name finds itself, or a named one at its address that is already
  // in its final form: its entry changes nothing.
  lemma UnnamedStep(pool: string, base: seq<Backend>, f: Backend, d: seq<Backend>, k: nat)
    requires !HasName(f) && k < |d| && FindBackend(d, f) == k
    requires d[k] == f || (HasName(d[k]) && d[k].address == f.address && d[k].remove.None? &&
                           Has(base, d[k].name.value) && base[IndexOfName(base, d[k].name.value)] == d[k])
    ensures StepsTo(pool, base, f, d, base)
  {
    if d[k] == f {
      DeltaOfItself(f);
    } else {
      var e := BackendDelta(f, d[k]).value;
      var q := IndexOfName(base, d[k].name.value);
      assert e.name == d[k].name && e.address == "" && UpdateBackend(d[k], e) == d[k];
      assert base[q := d[k]] == base;
      MergeOne(pool, base, e, ApplyToBaseline);
    }
  }

  // The file up to `i` in its final form, the rest as it was.
  function Halfway(file: seq<Backend>, os: seq<Backend>, i: nat): seq<Backend>
    requires i <= |file|
  {
    Updated(file[..i], os) + file[i..]
  }

  lemma UpdatedAt(file: seq<Backend>, os: seq<Backend>, i: nat)
    requires i < |file|
    ensures Updated(file[..i + 1], os) == Updated(file[..i], os) + Own(file[i], os)
    ensures Updated(file, os) == Updated(file[..i], os) + Own(file[i], os) + Updated(file[i + 1..], os)
  {
    assert file == file[..i] + [file[i]] + file[i + 1..];
    UpdatedAround(file[..i], file[i], file[i + 1..], os);
    assert file[..i + 1] == file[..i] + [file[i]] + [];
    UpdatedAround(file[..i], file[i], [], os);
  }

  lemma HalfwayParts(file: seq<Backend>, os: seq<Backend>, i: nat)
    requires i < |file|
    ensures Halfway(file, os, i) == Updated(file[..i], os) + [file[i]] + file[i + 1..]
    ensures Halfway(file, os, i + 1) == Updated(file[..i], os) + Own(file[i], os) + file[i + 1..]
  {
    UpdatedAt(file, os, i);
    assert file[i..] == [file[i]] + file[i + 1..];
    Associate(Updated(file[..i], os), [file[i]], file[i + 1..]);
  }

  // What surrounds the file's backend `i`, in the file and in the outcome.
  lemma Surroundings(file: seq<Backend>, os: seq<Backend>, i: nat)
    requires NamesOnce(file) && i < |file| && HasName(file[i])
    ensures NoName(Updated(file[..i], os), file[i].name.value) && NoName(file[i + 1..], file[i].name.value)
  {
    assert file == file[..i] + [file[i]] + file[i + 1..];
    NamedOnceAround(file[..i], file[i], file[i + 1..]);
    UpdatedNames(file[..i], os, file[i].name.value);
  }

  lemma OwnIsUpdatable(f: Backend, os: seq<Backend>)
    requires HasName(f) && f.address != "" && f.remove.None? && Own(f, os) != []
    ensures var u := Own(f, os)[0];
            Own(f, os) == [u] && Updatable(f, u) && u.name == f.name && u.address != "" && u.remove.None?
  {
  }

  lemma OutcomeAt(file: seq<Backend>, os: seq<Backend>, i: nat, d: seq<Backend>, u: Backend)
    requires OwnNames(os) && d == Updated(file, os) + Added(file, os) && i < |file| && Own(file[i], os) == [u]
    ensures |Updated(file[..i], os)| < |d| && d[|Updated(file[..i], os)|] == u
  {
    UpdatedAt(file, os, i);
  }

  lemma KeptStep(pool: string, file: seq<Backend>, os: seq<Backend>, i: nat, d: seq<Backend>)
    requires Comparable(file, d) && OwnNames(os) && d == Updated(file, os) + Added(file, os)
    requires i < |file| && HasName(file[i]) && Own(file[i], os) != []
    ensures StepsTo(pool, Halfway(file, os, i), file[i], d, Halfway(file, os, i + 1))
  {
    var f, p, t := file[i], Updated(file[..i], os), file[i + 1..];
    OwnIsUpdatable(f, os);
    OutcomeAt(file, os, i, d, Own(f, os)[0]);
    NameAt(d, |p|);
    IdentifiedIsOnce(file);
    Surroundings(file, os, i);
    UpdatedStep(pool, p, f, t, d, |p|);
    HalfwayParts(file, os, i);
  }

  lemma DroppedStep(pool: string, file: seq<Backend>, os: seq<Backend>, i: nat, d: seq<Backend>)
    requires Comparable(file, d) && OwnNames(os) && d == Updated(file, os) + Added(file, os)
    requires Resynthesis.Unaliased(file, d) && i < |file| && HasName(file[i]) && Own(file[i], os) == []
    ensures StepsTo(pool, Halfway(file, os, i), file[i], d, Halfway(file, os, i + 1))
  {
    var f, p, t := file[i], Updated(file[..i], os), file[i + 1..];
    IdentifiedIsOnce(file);
    RemovedIsUnfound(file, os, i, d);
    Surroundings(file, os, i);
    RemovedStep(pool, p, f, t, d);
    HalfwayParts(file, os, i);
    assert p + [] == p;
  }

  lemma RemovedNameGone(file: seq<Backend>, os: seq<Backend>, i: nat)
    requires NamesOnce(file) && i < |file| && HasName(file[i]) && Own(file[i], os) == []
    ensures NoName(Updated(file, os), file[i].name.value)
  {
    Surroundings(file, os, i);
    UpdatedAt(file, os, i);
    UpdatedNames(file[i + 1..], os, file[i].name.value);
  }

  lemma RemovedIsUnfound(file: seq<Backend>, os: seq<Backend>, i: nat, d: seq<Backend>)
    requires NamesOnce(file) && OwnNames(os) && d == Updated(file, os) + Added(file, os)
    requires Resynthesis.Unaliased(file, d) && i < |file| && HasName(file[i]) && Own(file[i], os) == []
    ensures FindBackend(d, file[i]) == |d|
  {
    var f, name := file[i], file[i].name.value;
    RemovedNameGone(file, os, i);
    HasIf(file, i, name);
    AddedNames(file, os, name);
    assert NoName(d, name);
    assert !Mentions(d, f);
    assert NoAddress(d, f.address);
  }

  lemma SamePrefix(file: seq<Backend>, os: seq<Backend>, i: nat, d: seq<Backend>, k: nat)
    requires OwnNames(os) && d == Updated(file, os) + Added(file, os) && i < |file| && k < |Updated(file[..i], os)|
    ensures k < |d| && k < |Halfway(file, os, i)| && Halfway(file, os, i)[k] == d[k]
  {
    UpdatedAt(file, os, i);
  }

  lemma UnnamedIsStill(file: seq<Backend>, os: seq<Backend>, i: nat)
    requires i < |file| && !HasName(file[i])
    ensures Halfway(file, os, i + 1) == Halfway(file, os, i)
  {
    HalfwayParts(file, os, i);
  }

  // What a backend without a name finds is itself, or stands already in the list.
  lemma UnnamedFinds(file: seq<Backend>, os: seq<Backend>, i: nat, d: seq<Backend>, k: nat)
    requires Comparable(file, d) && OwnNames(os) && d == Updated(file, os) + Added(file, os)
    requires i < |file| && !HasName(file[i]) && k == FindBackend(d, file[i])
    ensures k < |d| && (d[k] != file[i] ==>
              && HasName(d[k]) && d[k].address == file[i].address
              && k < |Halfway(file, os, i)| && Halfway(file, os, i)[k] == d[k])
  {
    OutcomeAt(file, os, i, d, file[i]);
    FoundIsNamed(file, d, i);
    if d[k] != file[i] { SamePrefix(file, os, i, d, k); }
  }

  lemma UnnamedFileStep(pool: string, file: seq<Backend>, os: seq<Backend>, i: nat, d: seq<Backend>)
    requires Comparable(file, d) && OwnNames(os) && d == Updated(file, os) + Added(file, os)
    requires i < |file| && !HasName(file[i])
    ensures StepsTo(pool, Halfway(file, os, i), file[i], d, Halfway(file, os, i + 1))
  {
    var base, k := Halfway(file, os, i), FindBackend(d, file[i]);
    UnnamedFinds(file, os, i, d, k);
    if d[k] != file[i] {
      IdentifiedIsOnce(file);
      HalfwayOnce(file, os, i);
      NameAt(base, k);
    }
    UnnamedStep(pool, base, file[i], d, k);
    UnnamedIsStill(file, os, i);
  }

  lemma HalfwayOnce(file: seq<Backend>, os: seq<Backend>, i: nat)
    requires NamesOnce(file) && Placed(file) && i <= |file|
    ensures NamesOnce(Halfway(file, os, i))
  {
    var p, t := file[..i], file[i..];
    forall a, b | 0 <= a < |p| && 0 <= b < |p| && a != b ensures NameApart(p[a], p[b]) {
      assert NameApart(file[a], file[b]);
    }
    forall a, b | 0 <= a < |t| && 0 <= b < |t| && a != b ensures NameApart(t[a], t[b]) {
      assert NameApart(file[i + a], file[i + b]);
    }
    UpdatedOnce(p, os);
    var u := Updated(p, os);
    forall r | 0 <= r < |u| && HasName(u[r]) ensures NoName(t, u[r].name.value) {
      NameOfUpdated(file, os, i, r);
    }
    OnceJoin(u, t);
  }

  lemma NameOfUpdated(file: seq<Backend>, os: seq<Backend>, i: nat, r: nat)
    requires NamesOnce(file) && i <= |file| && r < |Updated(file[..i], os)| && HasName(Updated(file[..i], os)[r])
    ensures NoName(file[i..], Updated(file[..i], os)[r].name.value)
  {
    var name := Updated(file[..i], os)[r].name.value;
    if NoName(file[..i], name) { UpdatedNames(file[..i], os, name); }
    var j :| 0 <= j < i && file[..i][j].name == Some(name);
    forall k | 0 <= k < |file[i..]| ensures file[i..][k].name != Some(name) {
      assert NameApart(file[j], file[i + k]);
    }
  }

  lemma FileStep(pool: string, file: seq<Backend>, os: seq<Backend>, i: nat, d: seq<Backend>)
    requires Comparable(file, d) && OwnNames(os) && d == Updated(file, os) + Added(file, os)
    requires Resynthesis.Unaliased(file, d) && i < |file|
    ensures StepsTo(pool, Halfway(file, os, i), file[i], d, Halfway(file, os, i + 1))
  {
    if !HasName(file[i]) {
      UnnamedFileStep(pool, file, os, i, d);
    } else if Own(file[i], os) != [] {
      KeptStep(pool, file, os, i, d);
    } else {
      DroppedStep(pool, file, os, i, d);
    }
  }

  lemma FilePhase(pool: string, file: seq<Backend>, os: seq<Backend>, d: seq<Backend>)
    requires Comparable(file, d) && OwnNames(os) && d == Updated(file, os) + Added(file, os)
    requires Resynthesis.Unaliased(file, d)
    ensures MergeBackends(pool, file, FileEntries(file, d), ApplyToBaseline) == Ok(Updated(file, os))
  {
    var bases := Bases(file, os);
    forall i | 0 <= i < |file| ensures StepsTo(pool, bases[i], file[i], d, bases[i + 1]) {
      FileStep(pool, file, os, i, d);
    }
    HalfwayEnds(file, os);
    FoldFrom(pool, file, d, bases, file, Updated(file, os));
  }

  function Bases(file: seq<Backend>, os: seq<Backend>): (r: seq<seq<Backend>>)
    ensures |r| == |file| + 1 && forall i :: 0 <= i <= |file| ==> r[i] == Halfway(file, os, i)
  {
    seq(|file| + 1, i requires 0 <= i <= |file| => Halfway(file, os, i))
  }

  lemma HalfwayEnds(file: seq<Backend>, os: seq<Backend>)
    ensures Halfway(file, os, 0) == file && Halfway(file, os, |file|) == Updated(file, os)
  {
    assert file[..0] == [] && file[..|file|] == file;
  }

  // ----- Adding the rest -----

  lemma {:induction false} KnownAreNotAdded(file: seq<Backend>, x: seq<Backend>, y: seq<Backend>)
    requires forall i :: 0 <= i < |x| ==> FindBackend(file, x[i]) < |file|
    ensures Additions(file, x + y) == Additions(file, y)
  {
    if x == [] {
      assert x + y == y;
    } else {
      assert (x + y)[0] == x[0] && (x + y)[1..] == x[1..] + y;
      KnownAreNotAdded(file, x[1..], y);
    }
  }

  lemma {:induction false} UnknownAreAdded(file: seq<Backend>, y: seq<Backend>)
    requires forall i :: 0 <= i < |y| ==> FindBackend(file, y[i]) == |file| && y[i].remove.None?
    ensures Additions(file, y) == y
  {
    if y != [] {
      UnknownAreAdded(file, y[1..]);
      assert [y[0]] + y[1..] == y;
    }
  }

  lemma AdditionsAre(file: seq<Backend>, os: seq<Backend>, d: seq<Backend>)
    requires Identified(file) && OwnNames(os) && AllFit(file, os) && d == Updated(file, os) + Added(file, os)
    requires Comparable(file, d) && Resynthesis.Unaliased(d, file)
    ensures Additions(file, d) == Added(file, os)
  {
    var u, v := Updated(file, os), Added(file, os);
    AddedOnce(file, os);
    forall i | 0 <= i < |u| ensures FindBackend(file, u[i]) < |file| {
      assert d[i] == u[i];
      if !HasName(u[i]) {
        UnnamedIsFound(file, d, i);
      } else if NoName(file, u[i].name.value) {
        UpdatedNames(file, os, u[i].name.value);
      }
    }
    forall i | 0 <= i < |v| ensures FindBackend(file, v[i]) == |file| && v[i].remove.None? {
      assert v[i] in v && d[|u| + i] == v[i];
      AddedUnknown(file, os, v[i].name.value);
      assert !Mentions(file, d[|u| + i]);
      assert NoAddress(file, d[|u| + i].address);
    }
    KnownAreNotAdded(file, u, v);
    UnknownAreAdded(file, v);
  }

  // A name that was added is not the file's.
  lemma AddedUnknown(file: seq<Backend>, os: seq<Backend>, name: string)
    requires OwnNames(os) && !NoName(Added(file, os), name)
    ensures IndexOfName(file, name) == |file|
  {
    if IndexOfName(file, name) < |file| { AddedNames(file, os, name); }
  }

  lemma {:induction false} AppendNew(pool: string, l: seq<Backend>, v: seq<Backend>)
    requires NamesOnce(v) && Placed(v)
    requires forall i :: 0 <= i < |v| ==> HasName(v[i]) && NoName(l, v[i].name.value)
    ensures MergeBackends(pool, l, v, ApplyToBaseline) == Ok(l + v)
    decreases |v|
  {
    if v == [] {
      assert l + v == l;
    } else {
      AddStep(pool, l, v[0]);
      OnceTail(v);
      forall i | 0 <= i < |v[1..]| ensures HasName(v[1..][i]) && NoName(l + [v[0]], v[1..][i].name.value) {
        assert v[1..][i] == v[i + 1] && NameApart(v[0], v[i + 1]);
      }
      AppendNew(pool, l + [v[0]], v[1..]);
      AppendChain(pool, l, v[0], v[1..]);
      assert [v[0]] + v[1..] == v;
    }
  }

  lemma AddPhase(pool: string, file: seq<Backend>, os: seq<Backend>)
    requires OwnNames(os) && AllFit(file, os)
    ensures MergeBackends(pool, Updated(file, os), Added(file, os), ApplyToBaseline)
            == Ok(Updated(file, os) + Added(file, os))
  {
    var u, v := Updated(file, os), Added(file, os);
    AddedOnce(file, os);
    forall i | 0 <= i < |v| ensures HasName(v[i]) && NoName(u, v[i].name.value) {
      assert v[i] in v;
      AddedUnknown(file, os, v[i].name.value);
      UpdatedNames(file, os, v[i].name.value);
    }
    AppendNew(pool, u, v);
  }

  // ----- Both directions -----

  lemma UnaliasedReproduces(pool: string, file: seq<Backend>, os: seq<Backend>, d: seq<Backend>)
    requires Identified(file) && OwnNames(os) && AllFit(file, os) && d == Updated(file, os) + Added(file, os)
    requires Resynthesis.NoAliasing(file, d)
    ensures MergeBackends(pool, file, SynthesizeBackends(file, d), ApplyToBaseline) == Ok(d)
  {
    OutcomeIsComparable(file, os);
    FilePhase(pool, file, os, d);
    AdditionsAre(file, os, d);
    AddPhase(pool, file, os);
    MergeBackendsChain(pool, file, FileEntries(file, d), Updated(file, os), Added(file, os), Ok(d), ApplyToBaseline);
  }

  // An aliased target is not reached, whatever happens: a name is left or missing.
  lemma AliasedIsMissed(pool: string, file: seq<Backend>, d: seq<Backend>)
    requires Comparable(file, d) && !Resynthesis.NoAliasing(file, d)
    ensures MergeBackends(pool, file, SynthesizeBackends(file, d), ApplyToBaseline) != Ok(d)
  {
    ComparableIsTraceable(file, d);
    if !Resynthesis.Unaliased(file, d) {
      var i :| 0 <= i < |file| && HasName(file[i]) && !Mentions(d, file[i]) && !NoAddress(d, file[i].address);
      assert FindBackend(d, file[i]) < |d|;
      AliasedIsNeverRemoved(pool, file, d, i);
    } else {
      var j :| 0 <= j < |d| && HasName(d[j]) && !Mentions(file, d[j]) && !NoAddress(file, d[j].address);
      AliasedIsNeverAdded(pool, file, d, j);
    }
  }

  // Synthesizing again from the outcome of a name-keyed overlay reproduces that outcome
  // if and only if no named backend of one side only sits at an address of the other.
  lemma SynthesisReproduces(pool: string, file: seq<Backend>, os: seq<Backend>, d: seq<Backend>)
    requires Identified(file) && OwnNames(os)
    requires MergeBackends(pool, file, os, ApplyToBaseline) == Ok(d)
    ensures MergeBackends(pool, file, SynthesizeBackends(file, d), ApplyToBaseline) == Ok(d)
            <==> Resynthesis.NoAliasing(file, d)
  {
    IdentifiedIsOnce(file);
    ApplyIsPointwise(pool, file, os);
    OutcomeIsComparable(file, os);
    if Resynthesis.NoAliasing(file, d) {
      UnaliasedReproduces(pool, file, os, d);
    } else {
      AliasedIsMissed(pool, file, d);
    }
  }
}
