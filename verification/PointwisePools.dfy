/**
 Applying an overlay's pools, without the loop: each file pool meets the one entry that
 names it, and the pools the file does not know follow in overlay order.
 */
module PointwisePools {
  import opened Wrappers
  import opened ConfigModel
  import opened Merge

  ghost predicate OwnPoolNames(l: seq<Pool>) {
    forall i, j :: 0 <= i < j < |l| ==> l[i].name != l[j].name
  }

  predicate Mentioned(l: seq<Pool>, name: string) {
    IndexOfPool(l, name) < |l|
  }

  function MergedBackends(f: Pool, o: Pool): Backends {
    MergeBackends(f.name, f.backends, o.backends, ApplyToBaseline)
  }

  // What a file pool becomes, when the merge succeeds.
  function OwnPool(f: Pool, os: seq<Pool>): seq<Pool> {
    if !Mentioned(os, f.name) then [f]
    else
      var o := os[IndexOfPool(os, f.name)];
      if o.remove.UnwrapOr(false) then []
      else if MergedBackends(f, o).Err? then [f]
      else [f.(backends := MergedBackends(f, o).value, remove := None)]
  }

  function UpdatedPools(file: seq<Pool>, os: seq<Pool>): seq<Pool> {
    if file == [] then [] else OwnPool(file[0], os) + UpdatedPools(file[1..], os)
  }

  function AddedPools(file: seq<Pool>, os: seq<Pool>): seq<Pool> {
    if os == [] then []
    else if Mentioned(file, os[0].name) then AddedPools(file, os[1..])
    else [os[0].(remove := None, backends := ClearMarkers(os[0].backends))] + AddedPools(file, os[1..])
  }

  // ----- One more entry -----

  lemma OwnPoolNamesParts(l: seq<Pool>, i: nat)
    requires OwnPoolNames(l) && i <= |l|
    ensures OwnPoolNames(l[..i]) && OwnPoolNames(l[i..])
    ensures i < |l| ==> NoPool(l[..i], l[i].name) && NoPool(l[i + 1..], l[i].name)
  {
  }

  lemma {:induction false} UpdatedPoolsSplit(p: seq<Pool>, t: seq<Pool>, os: seq<Pool>)
    ensures UpdatedPools(p + t, os) == UpdatedPools(p, os) + UpdatedPools(t, os)
  {
    if p == [] {
      assert p + t == t;
    } else {
      assert (p + t)[0] == p[0] && (p + t)[1..] == p[1..] + t;
      UpdatedPoolsSplit(p[1..], t, os);
      Associate(OwnPool(p[0], os), UpdatedPools(p[1..], os), UpdatedPools(t, os));
    }
  }

  lemma Regroup(p: seq<Pool>, f: Pool, t: seq<Pool>)
    ensures p + [f] + t == p + ([f] + t)
  {
  }

  lemma Associate(a: seq<Pool>, b: seq<Pool>, c: seq<Pool>)
    ensures a + b + c == a + (b + c)
  {
  }

  lemma UpdatedPoolsCons(f: Pool, t: seq<Pool>, os: seq<Pool>)
    ensures UpdatedPools([f] + t, os) == OwnPool(f, os) + UpdatedPools(t, os)
  {
    assert ([f] + t)[0] == f && ([f] + t)[1..] == t;
  }

  lemma UpdatedPoolsAround(p: seq<Pool>, f: Pool, t: seq<Pool>, os: seq<Pool>)
    ensures UpdatedPools(p + [f] + t, os) == UpdatedPools(p, os) + OwnPool(f, os) + UpdatedPools(t, os)
  {
    Regroup(p, f, t);
    UpdatedPoolsSplit(p, [f] + t, os);
    UpdatedPoolsCons(f, t, os);
    Associate(UpdatedPools(p, os), OwnPool(f, os), UpdatedPools(t, os));
  }

  lemma {:induction false} PoolIndexAppend(l: seq<Pool>, o: Pool, name: string)
    ensures IndexOfPool(l + [o], name) ==
            if IndexOfPool(l, name) < |l| then IndexOfPool(l, name)
            else if o.name == name then |l| else |l| + 1
  {
    if l != [] {
      assert (l + [o])[0] == l[0] && (l + [o])[1..] == l[1..] + [o];
      PoolIndexAppend(l[1..], o, name);
    }
  }

  lemma OwnPoolForeign(f: Pool, os: seq<Pool>, o: Pool)
    requires f.name != o.name
    ensures OwnPool(f, os + [o]) == OwnPool(f, os)
  {
    PoolIndexAppend(os, o, f.name);
  }

  lemma {:induction false} UpdatedPoolsForeign(file: seq<Pool>, os: seq<Pool>, o: Pool)
    requires NoPool(file, o.name)
    ensures UpdatedPools(file, os + [o]) == UpdatedPools(file, os)
  {
    if file != [] {
      OwnPoolForeign(file[0], os, o);
      UpdatedPoolsForeign(file[1..], os, o);
    }
  }

  lemma {:induction false} AddedPoolsAppend(file: seq<Pool>, os: seq<Pool>, o: Pool)
    ensures AddedPools(file, os + [o]) == AddedPools(file, os) +
            (if Mentioned(file, o.name) then [] else [o.(remove := None, backends := ClearMarkers(o.backends))])
  {
    if os == [] {
      assert os + [o] == [o];
      assert [o][1..] == [];
    } else {
      assert (os + [o])[0] == os[0] && (os + [o])[1..] == os[1..] + [o];
      AddedPoolsAppend(file, os[1..], o);
    }
  }

  lemma {:induction false} UpdatedPoolNames(file: seq<Pool>, os: seq<Pool>, name: string)
    requires NoPool(file, name)
    ensures NoPool(UpdatedPools(file, os), name)
  {
    if file != [] { UpdatedPoolNames(file[1..], os, name); }
  }

  lemma {:induction false} AddedPoolNames(file: seq<Pool>, os: seq<Pool>, name: string)
    requires NoPool(os, name) || Mentioned(file, name)
    ensures NoPool(AddedPools(file, os), name)
  {
    if os != [] { AddedPoolNames(file, os[1..], name); }
  }

  // What `o` makes of the one pool that it names.
  function After(f: Pool, o: Pool): Pools {
    if o.remove.UnwrapOr(false) then if o.name == "" then Err(PoolRemoveNeedsName) else Ok([])
    else
      match MergedBackends(f, o)
      case Err(e) => Err(e)
      case Ok(bs) => Ok([f.(backends := bs, remove := None)])
  }

  lemma OwnPoolAfter(f: Pool, done: seq<Pool>, o: Pool)
    requires o.name == f.name && NoPool(done, o.name)
    ensures OwnPool(f, done) == [f]
    ensures After(f, o).Ok? ==> OwnPool(f, done + [o]) == After(f, o).value
  {
    PoolIndexAppend(done, o, o.name);
  }

  lemma OnePool(x: seq<Pool>, f: Pool, y: seq<Pool>, o: Pool)
    requires o.name == f.name && NoPool(x, o.name) && NoPool(y, o.name)
    ensures MergePool(x + [f] + y, o, ApplyToBaseline) ==
            var own := After(f, o); if own.Ok? then Ok(x + own.value + y) else Err(own.error)
  {
    var l := x + [f] + y;
    DropPool(x, f, y);
    assert l[|x|] == f;
    assert IndexOfPool(l, o.name) == |x| by {
      assert forall k :: 0 <= k < |x| ==> l[k] == x[k];
    }
    assert x + [] + y == x + y;
    if After(f, o).Ok? && !o.remove.UnwrapOr(false) {
      var f' := f.(backends := MergedBackends(f, o).value, remove := None);
      assert l[|x| := f'] == x + [f'] + y;
    }
  }

  lemma KnownPool(p: seq<Pool>, f: Pool, t: seq<Pool>, done: seq<Pool>, o: Pool)
    requires o.name == f.name && NoPool(p, f.name) && NoPool(t, f.name) && NoPool(done, f.name)
    requires Mentioned(p + [f] + t, f.name)
    ensures var file := p + [f] + t;
            var m := MergePool(UpdatedPools(file, done) + AddedPools(file, done), o, ApplyToBaseline);
            if After(f, o).Ok? then m == Ok(UpdatedPools(file, done + [o]) + AddedPools(file, done + [o])) else m.Err?
  {
    var file := p + [f] + t;
    var x, u, v := UpdatedPools(p, done), UpdatedPools(t, done), AddedPools(file, done);
    OwnPoolAfter(f, done, o);
    UpdatedPoolsAround(p, f, t, done);
    UpdatedPoolsAround(p, f, t, done + [o]);
    UpdatedPoolsForeign(p, done, o);
    UpdatedPoolsForeign(t, done, o);
    AddedPoolsAppend(file, done, o);
    UpdatedPoolNames(p, done, o.name);
    UpdatedPoolNames(t, done, o.name);
    AddedPoolNames(file, done, o.name);
    KnownPoolOne(x, f, u, v, o);
  }

  lemma KnownPoolOne(x: seq<Pool>, f: Pool, u: seq<Pool>, v: seq<Pool>, o: Pool)
    requires o.name == f.name && NoPool(x, o.name) && NoPool(u, o.name) && NoPool(v, o.name)
    ensures MergePool((x + [f] + u) + v, o, ApplyToBaseline) ==
            var own := After(f, o); if own.Ok? then Ok((x + own.value + u) + (v + [])) else Err(own.error)
  {
    assert (x + [f] + u) + v == x + [f] + (u + v);
    OnePool(x, f, u + v, o);
    var own := After(f, o);
    if own.Ok? { assert (x + own.value + u) + (v + []) == x + own.value + (u + v); }
  }

  lemma UnknownPool(file: seq<Pool>, done: seq<Pool>, o: Pool)
    requires NoPool(done, o.name) && !Mentioned(file, o.name)
    ensures var m := MergePool(UpdatedPools(file, done) + AddedPools(file, done), o, ApplyToBaseline);
            if !o.remove.UnwrapOr(false) then m == Ok(UpdatedPools(file, done + [o]) + AddedPools(file, done + [o]))
            else m.Err?
  {
    assert NoPool(file, o.name);
    UpdatedPoolsForeign(file, done, o);
    AddedPoolsAppend(file, done, o);
    UpdatedPoolNames(file, done, o.name);
    AddedPoolNames(file, done, o.name);
    UnknownPoolOne(UpdatedPools(file, done), AddedPools(file, done), o);
  }

  lemma UnknownPoolOne(u: seq<Pool>, v: seq<Pool>, o: Pool)
    requires NoPool(u, o.name) && NoPool(v, o.name)
    ensures var m := MergePool(u + v, o, ApplyToBaseline);
            if !o.remove.UnwrapOr(false)
            then m == Ok(u + (v + [o.(remove := None, backends := ClearMarkers(o.backends))])) else m.Err?
  {
    var l := u + v;
    var o' := o.(remove := None, backends := ClearMarkers(o.backends));
    assert NoPool(l, o.name) && IndexOfPool(l, o.name) == |l| && WithoutPool(l, o.name) == l;
    assert l + [o'] == u + (v + [o']);
  }

  // ----- The whole overlay -----

  // A removal names a pool of the file; the backends for a pool of the file merge.
  predicate PoolFits(file: seq<Pool>, o: Pool) {
    if o.remove.UnwrapOr(false) then o.name != "" && Mentioned(file, o.name)
    else Mentioned(file, o.name) ==> MergedBackends(file[IndexOfPool(file, o.name)], o).Ok?
  }

  ghost predicate AllPoolsFit(file: seq<Pool>, os: seq<Pool>) {
    forall k :: 0 <= k < |os| ==> PoolFits(file, os[k])
  }

  lemma PoolStep(file: seq<Pool>, done: seq<Pool>, o: Pool)
    requires OwnPoolNames(file) && OwnPoolNames(done + [o])
    ensures var m := MergePool(UpdatedPools(file, done) + AddedPools(file, done), o, ApplyToBaseline);
            if PoolFits(file, o) then m == Ok(UpdatedPools(file, done + [o]) + AddedPools(file, done + [o]))
            else m.Err?
  {
    assert NoPool(done, o.name) by {
      assert (done + [o])[|done|] == o && (done + [o])[..|done|] == done;
      OwnPoolNamesParts(done + [o], |done|);
    }
    var i := IndexOfPool(file, o.name);
    if i < |file| {
      OwnPoolNamesParts(file, i);
      assert file == file[..i] + [file[i]] + file[i + 1..];
      KnownPool(file[..i], file[i], file[i + 1..], done, o);
    } else {
      UnknownPool(file, done, o);
    }
  }

  lemma {:induction false} ApplyPoolsFrom(file: seq<Pool>, done: seq<Pool>, rest: seq<Pool>, base: seq<Pool>,
                                          os: seq<Pool>)
    requires OwnPoolNames(file) && OwnPoolNames(os)
    requires os == done + rest && base == UpdatedPools(file, done) + AddedPools(file, done)
    ensures var m := MergePools(base, rest, ApplyToBaseline);
            if AllPoolsFit(file, rest) then m == Ok(UpdatedPools(file, os) + AddedPools(file, os)) else m.Err?
    decreases |rest|
  {
    if rest == [] {
      assert done == os;
    } else {
      var o, next := rest[0], done + [rest[0]];
      assert os == next + rest[1..] && os[..|next|] == next;
      OwnPoolNamesParts(os, |next|);
      PoolStep(file, done, o);
      if PoolFits(file, o) {
        ApplyPoolsFrom(file, next, rest[1..], UpdatedPools(file, next) + AddedPools(file, next), os);
        FitCons(file, rest);
      }
    }
  }

  lemma FitCons(file: seq<Pool>, os: seq<Pool>)
    requires os != [] && PoolFits(file, os[0])
    ensures AllPoolsFit(file, os) <==> AllPoolsFit(file, os[1..])
  {
    assert forall k :: 1 <= k < |os| ==> os[k] == os[1..][k - 1];
  }

  lemma {:induction false} UpdatedByNoPool(file: seq<Pool>)
    ensures UpdatedPools(file, []) == file
  {
    if file != [] { UpdatedByNoPool(file[1..]); }
  }

  // Applying an overlay with pool names of its own fails if and only if some entry does
  // not fit; otherwise it gives the updated file pools in file order, then the added ones.
  lemma PoolsArePointwise(file: seq<Pool>, os: seq<Pool>)
    requires OwnPoolNames(file) && OwnPoolNames(os)
    ensures var m := MergePools(file, os, ApplyToBaseline);
            if AllPoolsFit(file, os) then m == Ok(UpdatedPools(file, os) + AddedPools(file, os)) else m.Err?
  {
    UpdatedByNoPool(file);
    assert [] + os == os && file + [] == file;
    ApplyPoolsFrom(file, [], os, file, os);
  }
}
