/**
 What applying a name-keyed overlay computes, without the loop: each file backend
 meets the one entry that names it, and the entries the file does not know follow
 in overlay order.
 */
module PointwiseMerge {
  import opened Wrappers
  import opened ConfigModel
  import opened Merge

  // Every entry has a name of its own.
  ghost predicate OwnNames(l: seq<Backend>) {
    && (forall i :: 0 <= i < |l| ==> HasName(l[i]))
    && (forall i, j :: 0 <= i < j < |l| ==> l[i].name != l[j].name)
  }

  // No name is carried twice; backends without a name may stand anywhere.
  ghost predicate NamesOnce(l: seq<Backend>) {
    forall i, j :: 0 <= i < |l| && 0 <= j < |l| && i != j ==> NameApart(l[i], l[j])
  }

  predicate NameApart(b: Backend, c: Backend) {
    HasName(b) ==> b.name != c.name
  }

  predicate Mentions(l: seq<Backend>, b: Backend)
    requires HasName(b)
  {
    IndexOfName(l, b.name.value) < |l|
  }

  function Mention(l: seq<Backend>, b: Backend): Backend
    requires HasName(b) && Mentions(l, b)
  {
    l[IndexOfName(l, b.name.value)]
  }

  // What a file backend becomes; one without a name passes through.
  function Own(f: Backend, os: seq<Backend>): seq<Backend> {
    if !HasName(f) || !Mentions(os, f) then [f]
    else if IsRemoval(Mention(os, f)) then []
    else [UpdateBackend(f, Mention(os, f))]
  }

  function Updated(file: seq<Backend>, os: seq<Backend>): seq<Backend> {
    if file == [] then [] else Own(file[0], os) + Updated(file[1..], os)
  }

  function Added(file: seq<Backend>, os: seq<Backend>): seq<Backend>
    requires OwnNames(os)
  {
    if os == [] then []
    else if Mentions(file, os[0]) then Added(file, os[1..])
    else [os[0].(remove := None)] + Added(file, os[1..])
  }

  // Only known backends are removed, and unknown ones come with an address.
  predicate Fits(file: seq<Backend>, o: Backend)
    requires HasName(o)
  {
    Mentions(file, o) || (!IsRemoval(o) && o.address != "")
  }

  ghost predicate AllFit(file: seq<Backend>, os: seq<Backend>)
    requires OwnNames(os)
  {
    forall i :: 0 <= i < |os| ==> Fits(file, os[i])
  }

  // ----- One more entry -----

  lemma OwnNamesParts(l: seq<Backend>, i: nat)
    requires OwnNames(l) && i <= |l|
    ensures OwnNames(l[..i]) && OwnNames(l[i..])
    ensures i < |l| ==> NoName(l[..i], l[i].name.value) && NoName(l[i + 1..], l[i].name.value)
  {
  }

  lemma Associate(a: seq<Backend>, b: seq<Backend>, c: seq<Backend>)
    ensures a + b + c == a + (b + c)
  {
  }

  lemma UpdatedCons(f: Backend, t: seq<Backend>, os: seq<Backend>)
    ensures Updated([f] + t, os) == Own(f, os) + Updated(t, os)
  {
    assert ([f] + t)[0] == f && ([f] + t)[1..] == t;
  }

  lemma {:induction false} UpdatedSplit(p: seq<Backend>, t: seq<Backend>, os: seq<Backend>)
    ensures Updated(p + t, os) == Updated(p, os) + Updated(t, os)
  {
    if p == [] {
      assert p + t == t;
    } else {
      var rest := p[1..] + t;
      assert p + t == [p[0]] + rest;
      UpdatedCons(p[0], rest, os);
      UpdatedSplit(p[1..], t, os);
      Associate(Own(p[0], os), Updated(p[1..], os), Updated(t, os));
    }
  }

  lemma {:induction false} IndexAppend(l: seq<Backend>, o: Backend, name: string)
    ensures IndexOfName(l + [o], name) ==
            if IndexOfName(l, name) < |l| then IndexOfName(l, name)
            else if o.name == Some(name) then |l| else |l| + 1
  {
    if l != [] {
      assert (l + [o])[0] == l[0] && (l + [o])[1..] == l[1..] + [o];
      IndexAppend(l[1..], o, name);
    }
  }

  // An entry for a name that `file` does not have leaves its update alone.
  lemma {:induction false} UpdatedForeign(file: seq<Backend>, os: seq<Backend>, o: Backend)
    requires HasName(o) && NoName(file, o.name.value)
    ensures Updated(file, os + [o]) == Updated(file, os)
  {
    if file != [] {
      if HasName(file[0]) { IndexAppend(os, o, file[0].name.value); }
      UpdatedForeign(file[1..], os, o);
    }
  }

  lemma {:induction false} AddedAppend(file: seq<Backend>, os: seq<Backend>, o: Backend)
    requires OwnNames(os) && OwnNames(os + [o]) && HasName(o)
    ensures Added(file, os + [o]) == Added(file, os) + (if Mentions(file, o) then [] else [o.(remove := None)])
  {
    if os == [] {
      assert os + [o] == [o];
      assert [o][1..] == [];
    } else {
      assert (os + [o])[0] == os[0] && (os + [o])[1..] == os[1..] + [o];
      AddedAppend(file, os[1..], o);
    }
  }

  lemma {:induction false} UpdatedNames(file: seq<Backend>, os: seq<Backend>, name: string)
    requires NoName(file, name)
    ensures NoName(Updated(file, os), name)
  {
    if file != [] { UpdatedNames(file[1..], os, name); }
  }

  lemma {:induction false} AddedNames(file: seq<Backend>, os: seq<Backend>, name: string)
    requires OwnNames(os) && (NoName(os, name) || IndexOfName(file, name) < |file|)
    ensures NoName(Added(file, os), name)
  {
    if os != [] { AddedNames(file, os[1..], name); }
  }

  lemma UpdatedAround(p: seq<Backend>, f: Backend, t: seq<Backend>, os: seq<Backend>)
    ensures Updated(p + [f] + t, os) == Updated(p, os) + Own(f, os) + Updated(t, os)
  {
    Associate(p, [f], t);
    UpdatedSplit(p, [f] + t, os);
    UpdatedCons(f, t, os);
    Associate(Updated(p, os), Own(f, os), Updated(t, os));
  }

  lemma NamedOnceAround(p: seq<Backend>, f: Backend, t: seq<Backend>)
    requires HasName(f) && NamesOnce(p + [f] + t)
    ensures NoName(p, f.name.value) && NoName(t, f.name.value)
  {
    var l := p + [f] + t;
    assert l[|p|] == f;
    forall k | 0 <= k < |p| ensures p[k].name != f.name { assert l[k] == p[k] && NameApart(l[|p|], l[k]); }
    forall k | 0 <= k < |t| ensures t[k].name != f.name {
      assert l[|p| + 1 + k] == t[k] && NameApart(l[|p|], l[|p| + 1 + k]);
    }
  }

  lemma OwnAfter(f: Backend, done: seq<Backend>, o: Backend)
    requires HasName(f) && o.name == f.name && NoName(done, o.name.value)
    ensures Own(f, done) == [f]
    ensures Own(f, done + [o]) == if IsRemoval(o) then [] else [UpdateBackend(f, o)]
  {
    IndexAppend(done, o, o.name.value);
  }

  // An entry for the file's backend `f`, once `done` has been applied.
  lemma KnownStep(pool: string, p: seq<Backend>, f: Backend, t: seq<Backend>, done: seq<Backend>, o: Backend)
    requires NamesOnce(p + [f] + t) && OwnNames(done) && OwnNames(done + [o]) && o.name == f.name && HasName(f)
    requires NoName(done, o.name.value) && IndexOfName(p + [f] + t, o.name.value) < |p + [f] + t|
    ensures var file := p + [f] + t;
            MergeBackend(pool, Updated(file, done) + Added(file, done), o, ApplyToBaseline)
            == Ok(Updated(file, done + [o]) + Added(file, done + [o]))
  {
    var file := p + [f] + t;
    NamedOnceAround(p, f, t);
    var x, u, v := Updated(p, done), Updated(t, done), Added(file, done);
    OwnAfter(f, done, o);
    UpdatedAround(p, f, t, done);
    UpdatedAround(p, f, t, done + [o]);
    UpdatedForeign(p, done, o);
    UpdatedForeign(t, done, o);
    AddedAppend(file, done, o);
    UpdatedNames(p, done, o.name.value);
    UpdatedNames(t, done, o.name.value);
    AddedNames(file, done, o.name.value);
    KnownOne(pool, x, f, u, v, o);
  }

  lemma KnownOne(pool: string, x: seq<Backend>, f: Backend, u: seq<Backend>, v: seq<Backend>, o: Backend)
    requires HasName(o) && f.name == o.name
    requires NoName(x, o.name.value) && NoName(u, o.name.value) && NoName(v, o.name.value)
    ensures MergeBackend(pool, (x + [f] + u) + v, o, ApplyToBaseline)
         == Ok((x + (if IsRemoval(o) then [] else [UpdateBackend(f, o)]) + u) + (v + []))
  {
    var own := if IsRemoval(o) then [] else [UpdateBackend(f, o)];
    assert (x + [f] + u) + v == x + [f] + (u + v);
    assert (x + own + u) + (v + []) == x + own + (u + v);
    OneNamed(pool, x, f, u + v, o);
  }

  lemma OneNamed(pool: string, x: seq<Backend>, f: Backend, y: seq<Backend>, o: Backend)
    requires HasName(o) && f.name == o.name && NoName(x, o.name.value) && NoName(y, o.name.value)
    ensures MergeBackend(pool, x + [f] + y, o, ApplyToBaseline)
         == Ok(x + (if IsRemoval(o) then [] else [UpdateBackend(f, o)]) + y)
  {
    var l := x + [f] + y;
    DropByName(x, f, y, o.name.value);
    assert l[|x|] == f;
    assert IndexOfName(l, o.name.value) == |x| by {
      assert forall k :: 0 <= k < |x| ==> l[k] == x[k];
    }
    assert x + [] + y == x + y;
    assert l[|x| := UpdateBackend(f, o)] == x + [UpdateBackend(f, o)] + y;
  }

  lemma KnownEntry(pool: string, file: seq<Backend>, i: nat, done: seq<Backend>, o: Backend)
    requires NamesOnce(file) && i < |file| && OwnNames(done) && OwnNames(done + [o])
    requires HasName(o) && o.name == file[i].name
    ensures MergeBackend(pool, Updated(file, done) + Added(file, done), o, ApplyToBaseline)
         == Ok(Updated(file, done + [o]) + Added(file, done + [o]))
  {
    assert file == file[..i] + [file[i]] + file[i + 1..];
    LastIsNew(done, o);
    KnownStep(pool, file[..i], file[i], file[i + 1..], done, o);
  }

  lemma UnknownOne(pool: string, u: seq<Backend>, v: seq<Backend>, file: seq<Backend>, o: Backend)
    requires HasName(o) && !Mentions(file, o) && NoName(u, o.name.value) && NoName(v, o.name.value)
    ensures var m := MergeBackend(pool, u + v, o, ApplyToBaseline);
            if Fits(file, o) then m == Ok(u + (v + [o.(remove := None)])) else m.Err?
  {
    var l := u + v;
    assert NoName(l, o.name.value) && IndexOfName(l, o.name.value) == |l|;
    assert WithoutName(l, o.name.value) == l;
    assert l + [o.(remove := None)] == u + (v + [o.(remove := None)]);
  }

  lemma LastIsNew(done: seq<Backend>, o: Backend)
    requires HasName(o) && OwnNames(done + [o])
    ensures NoName(done, o.name.value)
  {
    assert (done + [o])[|done|] == o && (done + [o])[..|done|] == done;
    OwnNamesParts(done + [o], |done|);
  }

  lemma UnknownStep(pool: string, file: seq<Backend>, done: seq<Backend>, o: Backend)
    requires OwnNames(done) && OwnNames(done + [o]) && HasName(o) && !Mentions(file, o)
    ensures var l, r := Updated(file, done) + Added(file, done), Updated(file, done + [o]) + Added(file, done + [o]);
            var m := MergeBackend(pool, l, o, ApplyToBaseline);
            if Fits(file, o) then m == Ok(r) else m.Err?
  {
    LastIsNew(done, o);
    UpdatedForeign(file, done, o);
    AddedAppend(file, done, o);
    UpdatedNames(file, done, o.name.value);
    AddedNames(file, done, o.name.value);
    UnknownOne(pool, Updated(file, done), Added(file, done), file, o);
  }

  // ----- The whole overlay -----

  lemma {:induction false} ApplyFrom(pool: string, file: seq<Backend>, done: seq<Backend>, rest: seq<Backend>)
    requires NamesOnce(file) && OwnNames(done) && OwnNames(rest) && OwnNames(done + rest)
    ensures var m := MergeBackends(pool, Updated(file, done) + Added(file, done), rest, ApplyToBaseline);
            if AllFit(file, rest) then m == Ok(Updated(file, done + rest) + Added(file, done + rest)) else m.Err?
    decreases |rest|
  {
    if rest == [] {
      assert done + rest == done;
    } else {
      var o := rest[0];
      OwnNamesParts(rest, 1);
      assert done + rest == done + [o] + rest[1..];
      assert (done + rest)[..|done| + 1] == done + [o];
      OwnNamesParts(done + rest, |done| + 1);
      var i := IndexOfName(file, o.name.value);
      if i < |file| { KnownEntry(pool, file, i, done, o); } else { UnknownStep(pool, file, done, o); }
      if Fits(file, o) {
        ApplyFrom(pool, file, done + [o], rest[1..]);
        assert AllFit(file, rest) <==> AllFit(file, rest[1..]) by {
          assert forall k :: 1 <= k < |rest| ==> rest[k] == rest[1..][k - 1];
        }
      }
    }
  }

  lemma {:induction false} UpdatedByNothing(file: seq<Backend>)
    ensures Updated(file, []) == file
  {
    if file != [] {
      UpdatedByNothing(file[1..]);
    }
  }

  // Applying a name-keyed overlay fails exactly when some entry does not fit, and
  // otherwise gives the updated file backends in file order, then the added ones.
  lemma ApplyIsPointwise(pool: string, file: seq<Backend>, os: seq<Backend>)
    requires NamesOnce(file) && OwnNames(os)
    ensures var m := MergeBackends(pool, file, os, ApplyToBaseline);
            if AllFit(file, os) then m == Ok(Updated(file, os) + Added(file, os)) else m.Err?
  {
    UpdatedByNothing(file);
    assert file + [] == file && [] + os == os;
    ApplyFrom(pool, file, [], os);
  }
}
