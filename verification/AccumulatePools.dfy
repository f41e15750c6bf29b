/**
 Accumulating overlay patches over whole runs: folding the patches into one overlay
 and applying it once gives what applying them one after the other gives.
 */
module AccumulatePools {
  import opened Wrappers
  import opened ConfigModel
  import opened Merge
  import opened AccumulateBackends
  import KeyedList
  import PointwisePools

  // ----- Pool patches as keyed edits -----

  predicate IsPoolRemoval(p: Pool) {
    p.remove.UnwrapOr(false)
  }

  function PoolKey(p: Pool): Option<string> { Some(p.name) }

  function RemovePoolEdit(name: string): KeyedList.Edit<Pool> {
    KeyedList.Edit(name, (p: Pool) => KeyedList.Drop, None)
  }

  function MergeInto(p: Pool, backends: seq<Backend>): KeyedList.Touch<Pool> {
    match MergeBackends(p.name, p.backends, backends, ApplyToBaseline)
    case Ok(bs) => KeyedList.Keep(p.(backends := bs, remove := None))
    case Err(_) => KeyedList.Fail
  }

  function UpdatePoolEdit(o: Pool): KeyedList.Edit<Pool> {
    KeyedList.Edit(o.name, (p: Pool) => MergeInto(p, o.backends), Some(o.(backends := ClearMarkers(o.backends))))
  }

  function PoolEdit(o: Pool): KeyedList.Edit<Pool> {
    if IsPoolRemoval(o) then RemovePoolEdit(o.name) else UpdatePoolEdit(o.(remove := None))
  }

  function PoolEdits(l: seq<Pool>): (r: seq<KeyedList.Edit<Pool>>)
    ensures |r| == |l| && forall i :: 0 <= i < |l| ==> r[i] == PoolEdit(l[i])
  {
    seq(|l|, i requires 0 <= i < |l| => PoolEdit(l[i]))
  }

  ghost predicate DistinctPoolNames(l: seq<Pool>) {
    KeyedList.DistinctKeys(PoolKey, l)
  }

  lemma PoolEditKeepsKey(o: Pool)
    ensures KeyedList.KeepsKey(PoolKey, PoolEdit(o)) && PoolEdit(o).key == o.name
  {
  }

  lemma PoolEditsKeepKeys(l: seq<Pool>)
    ensures KeyedList.AllKeepKeys(PoolKey, PoolEdits(l))
  {
    forall i | 0 <= i < |l| ensures KeyedList.KeepsKey(PoolKey, PoolEdits(l)[i]) {
      PoolEditKeepsKey(l[i]);
    }
  }

  lemma AloneByName(l: seq<Pool>, i: nat)
    requires DistinctPoolNames(l) && i < |l|
    ensures forall k :: 0 <= k < |l| && k != i ==> l[k].name != l[i].name
  {
    forall k | 0 <= k < |l| && k != i ensures l[k].name != l[i].name {
      assert PoolKey(l[k]) != PoolKey(l[i]);
    }
  }

  lemma Around(l: seq<Pool>, i: nat)
    requires i < |l|
    ensures l[..i] + [l[i]] + l[i + 1..] == l
  {
  }

  lemma DropOwnPool(l: seq<Pool>, i: nat)
    requires DistinctPoolNames(l) && i < |l|
    ensures WithoutPool(l, l[i].name) == l[..i] + l[i + 1..]
  {
    AloneByName(l, i);
    assert NoPool(l[..i], l[i].name) && NoPool(l[i + 1..], l[i].name);
    DropPool(l[..i], l[i], l[i + 1..]);
    Around(l, i);
  }

  lemma {:induction false} WithoutPoolIs(l: seq<Pool>, name: string)
    ensures WithoutPool(l, name) == KeyedList.Without(PoolKey, l, name)
    ensures IndexOfPool(l, name) < |l| <==> |WithoutPool(l, name)| < |l|
  {
    if l != [] { WithoutPoolIs(l[1..], name); }
  }

  lemma MergePoolIsEdit(base: seq<Pool>, o: Pool)
    requires IsPoolRemoval(o) ==> o.name != ""
    ensures Agrees(MergePool(base, o, ApplyToBaseline), KeyedList.Apply(PoolKey, base, PoolEdit(o)))
  {
    var i := IndexOfPool(base, o.name);
    WithoutPoolIs(base, o.name);
    if i < |base| {
      KeyedList.ApplyFirst(PoolKey, base, i, PoolEdit(o));
    } else {
      KeyedList.ApplyMissing(PoolKey, base, PoolEdit(o));
    }
  }

  ghost predicate RemovalsNamed(l: seq<Pool>) {
    forall i :: 0 <= i < |l| && IsPoolRemoval(l[i]) ==> l[i].name != ""
  }

  lemma {:induction false} MergePoolsIsRun(base: seq<Pool>, os: seq<Pool>)
    requires RemovalsNamed(os)
    ensures Agrees(MergePools(base, os, ApplyToBaseline), KeyedList.Run(PoolKey, base, PoolEdits(os)))
    decreases |os|
  {
    if os != [] {
      MergePoolIsEdit(base, os[0]);
      var next := KeyedList.Apply(PoolKey, base, PoolEdit(os[0]));
      assert PoolEdits(os)[1..] == PoolEdits(os[1..]);
      if next.Some? { MergePoolsIsRun(next.value, os[1..]); }
    }
  }

  // ----- One more pool patch -----

  // How the patches for each pool are keyed: all of them by name, or all by address.
  type Kinds = string -> Kind

  // The file's backends of a pool; a pool the file does not have has none.
  function FileBackends(file: seq<Pool>, name: string): seq<Backend> {
    var i := IndexOfPool(file, name);
    if i < |file| then file[i].backends else []
  }

  // One pool entry of a patch: removals name members of the file.
  ghost predicate PoolPatchFits(kinds: Kinds, file: seq<Pool>, o: Pool) {
    if IsPoolRemoval(o) then o.name != "" && IndexOfPool(file, o.name) < |file|
    else PatchFits(kinds(o.name), FileBackends(file, o.name), o.backends)
  }

  // What a patch entry mentions is not marked for removal in `acc`.
  ghost predicate Undisturbed(kinds: Kinds, acc: seq<Pool>, o: Pool) {
    forall i :: 0 <= i < |acc| && acc[i].name == o.name ==>
                  && !IsPoolRemoval(acc[i])
                  && (!IsPoolRemoval(o) ==> Keeps(kinds(o.name), acc[i].backends, o.backends))
  }

  // Nothing that the first list removes is mentioned by the second.
  ghost predicate Keeps(kind: Kind, acc: seq<Backend>, patch: seq<Backend>) {
    RemovedBy(kind, acc) !! KeysOf(kind, patch)
  }

  // The accumulated overlay: every pool once, in a form that fits the file.
  ghost predicate AccOk(kinds: Kinds, file: seq<Pool>, acc: seq<Pool>) {
    && DistinctPoolNames(acc)
    && forall i :: 0 <= i < |acc| ==> PoolPatchFits(kinds, file, acc[i])
  }

  ghost predicate PoolsMatch(kinds: Kinds, file: seq<Pool>, acc: seq<Pool>, eff: seq<Pool>) {
    AccOk(kinds, file, acc) && MergePools(file, acc, ApplyToBaseline) == Ok(eff)
  }

  lemma AccRemovalsNamed(kinds: Kinds, file: seq<Pool>, acc: seq<Pool>)
    requires AccOk(kinds, file, acc)
    ensures RemovalsNamed(acc)
  {
    forall i | 0 <= i < |acc| && IsPoolRemoval(acc[i]) ensures acc[i].name != "" {
      assert PoolPatchFits(kinds, file, acc[i]);
    }
  }

  lemma FindFilePool(file: seq<Pool>, name: string)
    ensures var at := KeyedList.At(PoolKey, file, name);
            var i := IndexOfPool(file, name);
            at == if i < |file| then Some(file[i]) else None
    decreases |file|
  {
    if file != [] && file[0].name != name {
      FindFilePool(file[1..], name);
    }
  }

  ghost predicate NoRemovals(l: seq<Backend>) {
    forall i :: 0 <= i < |l| ==> !IsRemoval(l[i])
  }

  lemma SamePosition(kind: Kind, acc: seq<Backend>, key: string)
    ensures Position(kind, ClearMarkers(acc), key) == Position(kind, acc, key)
  {
    var l := ClearMarkers(acc);
    assert forall k :: 0 <= k < |acc| ==> l[k].name == acc[k].name && l[k].address == acc[k].address;
    if kind.ByName? {
      assert IndexOfName(l, key) == IndexOfName(acc, key);
    } else {
      assert IndexOfAddress(l, key) == IndexOfAddress(acc, key);
    }
  }

  lemma UpdateIgnoresMode(kind: Kind, pool: string, acc: seq<Backend>, e: Backend)
    requires Keyed(kind, e) && !IsRemoval(e) && MergeBackend(pool, acc, e, AccumulateOverlay).Ok?
    ensures MergeBackend(pool, ClearMarkers(acc), e, ApplyToBaseline)
         == Ok(ClearMarkers(MergeBackend(pool, acc, e, AccumulateOverlay).value))
  {
    var acc', i := MergeBackend(pool, acc, e, AccumulateOverlay).value, Position(kind, acc, KeyIn(kind, e));
    SamePosition(kind, acc, KeyIn(kind, e));
    if i < |acc| {
      assert ClearMarkers(acc)[i := UpdateBackend(acc[i], e)] == ClearMarkers(acc');
    } else {
      assert ClearMarkers(acc) + [e.(remove := None)] == ClearMarkers(acc');
    }
  }

  // Without removals the two modes differ only in clearing markers.
  lemma {:induction false} UpdatesIgnoreMode(kind: Kind, pool: string, acc: seq<Backend>, patch: seq<Backend>)
    requires AllKeyed(kind, patch) && NoRemovals(patch)
    requires MergeBackends(pool, acc, patch, AccumulateOverlay).Ok?
    ensures MergeBackends(pool, ClearMarkers(acc), patch, ApplyToBaseline)
         == Ok(ClearMarkers(MergeBackends(pool, acc, patch, AccumulateOverlay).value))
    decreases |patch|
  {
    if patch != [] {
      UpdateIgnoresMode(kind, pool, acc, patch[0]);
      UpdatesIgnoreMode(kind, pool, MergeBackend(pool, acc, patch[0], AccumulateOverlay).value, patch[1..]);
    }
  }

  lemma AccEdits(kinds: Kinds, file: seq<Pool>, acc: seq<Pool>, eff: seq<Pool>)
    requires PoolsMatch(kinds, file, acc, eff)
    ensures KeyedList.AllKeepKeys(PoolKey, PoolEdits(acc))
    ensures KeyedList.Run(PoolKey, file, PoolEdits(acc)) == Some(eff)
  {
    PoolEditsKeepKeys(acc);
    AccRemovalsNamed(kinds, file, acc);
    MergePoolsIsRun(file, acc);
  }

  lemma MatchFromRun(kinds: Kinds, file: seq<Pool>, acc: seq<Pool>, eff: seq<Pool>, o: Pool)
    requires AccOk(kinds, file, acc) && PoolPatchFits(kinds, file, o)
    requires KeyedList.Run(PoolKey, file, PoolEdits(acc)) == KeyedList.Apply(PoolKey, eff, PoolEdit(o))
    requires MergePool(eff, o, ApplyToBaseline).Ok?
    ensures PoolsMatch(kinds, file, acc, MergePool(eff, o, ApplyToBaseline).value)
  {
    MergePoolIsEdit(eff, o);
    AccRemovalsNamed(kinds, file, acc);
    MergePoolsIsRun(file, acc);
  }

  lemma RemovalsListed(kind: Kind, l: seq<Backend>)
    requires AllKeyed(kind, l)
    ensures forall k :: 0 <= k < |l| && IsRemoval(l[k]) ==> KeyIn(kind, l[k]) in RemovedBy(kind, l)
  {
  }

  // The pool both patches touch, in the file or new.
  lemma PoolUpdatesFuse(kinds: Kinds, file: seq<Pool>, x: Pool, o: Pool, bs: seq<Backend>)
    requires PoolPatchFits(kinds, file, x) && PoolPatchFits(kinds, file, o)
    requires x.name == o.name && !IsPoolRemoval(x) && !IsPoolRemoval(o)
    requires Keeps(kinds(o.name), x.backends, o.backends)
    requires MergeBackends(x.name, x.backends, o.backends, AccumulateOverlay) == Ok(bs)
    requires var i := IndexOfPool(file, x.name);
             i < |file| ==> var y := PoolEdit(x).present(file[i]); y.Keep? && PoolEdit(o).present(y.value).Keep?
    ensures KeyedList.Fuses(KeyedList.At(PoolKey, file, x.name), PoolEdit(x), PoolEdit(o),
                            PoolEdit(x.(backends := bs, remove := None)))
  {
    var i := IndexOfPool(file, x.name);
    FindFilePool(file, x.name);
    if i < |file| {
      var f := file[i];
      var b1 := MergeBackends(f.name, f.backends, x.backends, ApplyToBaseline).value;
      var b2 := MergeBackends(f.name, b1, o.backends, ApplyToBaseline).value;
      AccumulatePatch(kinds(o.name), x.name, f.backends, x.backends, b1, o.backends, bs, b2);
    } else {
      assert RemovedBy(kinds(o.name), o.backends) == {};
      RemovalsListed(kinds(o.name), o.backends);
      UpdatesIgnoreMode(kinds(o.name), x.name, x.backends, o.backends);
    }
  }

  lemma SetPool(kinds: Kinds, file: seq<Pool>, acc: seq<Pool>, i: nat, y: Pool)
    requires AccOk(kinds, file, acc) && i < |acc| && y.name == acc[i].name && PoolPatchFits(kinds, file, y)
    ensures AccOk(kinds, file, acc[i := y])
  {
    var acc' := acc[i := y];
    assert forall k :: 0 <= k < |acc| ==> PoolKey(acc'[k]) == PoolKey(acc[k]);
  }

  lemma AccumulatedPoolFits(kinds: Kinds, file: seq<Pool>, x: Pool, o: Pool, bs: seq<Backend>)
    requires PoolPatchFits(kinds, file, x) && PoolPatchFits(kinds, file, o)
    requires x.name == o.name && !IsPoolRemoval(x) && !IsPoolRemoval(o)
    requires MergeBackends(x.name, x.backends, o.backends, AccumulateOverlay) == Ok(bs)
    ensures PoolPatchFits(kinds, file, x.(backends := bs, remove := None))
    ensures RemovedBy(kinds(o.name), bs) <= RemovedBy(kinds(o.name), x.backends) + RemovedBy(kinds(o.name), o.backends)
  {
    AccumulateKeepsShape(kinds(o.name), x.name, x.backends, o.backends);
  }

  lemma UpdateRun(kinds: Kinds, file: seq<Pool>, acc: seq<Pool>, eff: seq<Pool>, o: Pool, i: nat, bs: seq<Backend>,
                  y: Pool)
    requires PoolsMatch(kinds, file, acc, eff) && PoolPatchFits(kinds, file, o) && Undisturbed(kinds, acc, o)
    requires i == IndexOfPool(acc, o.name) < |acc| && !IsPoolRemoval(o) && !IsPoolRemoval(acc[i])
    requires MergePool(eff, o, ApplyToBaseline).Ok?
    requires MergeBackends(acc[i].name, acc[i].backends, o.backends, AccumulateOverlay) == Ok(bs)
    requires y == acc[i].(backends := bs, remove := None)
    ensures KeyedList.Run(PoolKey, file, PoolEdits(acc)[i := PoolEdit(y)]) == KeyedList.Apply(PoolKey, eff, PoolEdit(o))
  {
    var es, e := PoolEdits(acc), PoolEdit(o);
    AccEdits(kinds, file, acc, eff);
    AloneByName(acc, i);
    FindFilePool(file, o.name);
    assert PoolPatchFits(kinds, file, acc[i]);
    KeyedList.RunLeaves(PoolKey, file, es, i);
    MergePoolIsEdit(eff, o);
    KeyedList.ApplyTouches(PoolKey, eff, e);
    PoolUpdatesFuse(kinds, file, acc[i], o, bs);
    PoolEditKeepsKey(o);
    KeyedList.FuseInto(PoolKey, file, es, i, e, PoolEdit(y));
  }

  lemma AccumulatePoolUpdate(kinds: Kinds, file: seq<Pool>, acc: seq<Pool>, eff: seq<Pool>, o: Pool, i: nat)
    requires PoolsMatch(kinds, file, acc, eff) && PoolPatchFits(kinds, file, o) && Undisturbed(kinds, acc, o)
    requires i == IndexOfPool(acc, o.name) < |acc| && !IsPoolRemoval(o)
    requires MergePool(eff, o, ApplyToBaseline).Ok? && MergePool(acc, o, AccumulateOverlay).Ok?
    ensures PoolsMatch(kinds, file, MergePool(acc, o, AccumulateOverlay).value,
                       MergePool(eff, o, ApplyToBaseline).value)
  {
    var x := acc[i];
    var bs := MergeBackends(x.name, x.backends, o.backends, AccumulateOverlay).value;
    var y := x.(backends := bs, remove := None);
    assert PoolPatchFits(kinds, file, x) && !IsPoolRemoval(x);
    UpdateRun(kinds, file, acc, eff, o, i, bs, y);
    AccumulatedPoolFits(kinds, file, x, o, bs);
    SetPool(kinds, file, acc, i, y);
    assert PoolEdits(acc[i := y]) == PoolEdits(acc)[i := PoolEdit(y)];
    MatchFromRun(kinds, file, acc[i := y], eff, o);
  }

  lemma ExtendAcc(kinds: Kinds, file: seq<Pool>, acc: seq<Pool>, y: Pool)
    requires AccOk(kinds, file, acc) && PoolPatchFits(kinds, file, y) && IndexOfPool(acc, y.name) == |acc|
    ensures AccOk(kinds, file, acc + [y])
  {
    var l := acc + [y];
    forall a, b | 0 <= a < b < |l| && PoolKey(l[a]).Some? ensures PoolKey(l[a]) != PoolKey(l[b]) {
      if b < |acc| { assert PoolKey(acc[a]) != PoolKey(acc[b]); }
    }
  }

  lemma AccumulatePoolAppend(kinds: Kinds, file: seq<Pool>, acc: seq<Pool>, eff: seq<Pool>, o: Pool, y: Pool)
    requires PoolsMatch(kinds, file, acc, eff) && PoolPatchFits(kinds, file, o) && PoolPatchFits(kinds, file, y)
    requires IndexOfPool(acc, o.name) == |acc| && y.name == o.name && PoolEdit(y) == PoolEdit(o)
    requires MergePool(eff, o, ApplyToBaseline).Ok?
    ensures PoolsMatch(kinds, file, acc + [y], MergePool(eff, o, ApplyToBaseline).value)
  {
    AccEdits(kinds, file, acc, eff);
    ExtendAcc(kinds, file, acc, y);
    KeyedList.RunAppend(PoolKey, file, PoolEdits(acc), PoolEdit(o));
    assert PoolEdits(acc + [y]) == PoolEdits(acc) + [PoolEdit(o)];
    MatchFromRun(kinds, file, acc + [y], eff, o);
  }

  lemma AccWithout(kinds: Kinds, file: seq<Pool>, acc: seq<Pool>, i: nat)
    requires AccOk(kinds, file, acc) && i < |acc|
    ensures AccOk(kinds, file, acc[..i] + acc[i + 1..])
    ensures IndexOfPool(acc[..i] + acc[i + 1..], acc[i].name) == |acc| - 1
  {
    var l := acc[..i] + acc[i + 1..];
    AloneByName(acc, i);
    assert forall k :: 0 <= k < |l| ==> l[k] == acc[if k < i then k else k + 1];
    forall a, b | 0 <= a < b < |l| && PoolKey(l[a]).Some? ensures PoolKey(l[a]) != PoolKey(l[b]) {
      assert PoolKey(acc[if a < i then a else a + 1]) != PoolKey(acc[if b < i then b else b + 1]);
    }
  }

  lemma RemovalRun(kinds: Kinds, file: seq<Pool>, acc: seq<Pool>, eff: seq<Pool>, o: Pool, i: nat)
    requires PoolsMatch(kinds, file, acc, eff) && PoolPatchFits(kinds, file, o) && Undisturbed(kinds, acc, o)
    requires i == IndexOfPool(acc, o.name) < |acc| && IsPoolRemoval(o)
    ensures var es := PoolEdits(acc);
            KeyedList.Run(PoolKey, file, (es[..i] + es[i + 1..]) + [PoolEdit(o)])
            == KeyedList.Apply(PoolKey, eff, PoolEdit(o))
  {
    var es, e := PoolEdits(acc), PoolEdit(o);
    AccEdits(kinds, file, acc, eff);
    AloneByName(acc, i);
    FindFilePool(file, o.name);
    PoolEditKeepsKey(o);
    KeyedList.RunLeaves(PoolKey, file, es, i);
    KeyedList.RemoveSupersedes(PoolKey, file, es, i, e);
    KeyedList.RunAppend(PoolKey, file, es[..i] + es[i + 1..], e);
  }

  lemma EditsWithout(acc: seq<Pool>, i: nat, y: Pool, next: seq<Pool>)
    requires i < |acc| && next == acc[..i] + acc[i + 1..] + [y]
    ensures PoolEdits(next) == (PoolEdits(acc)[..i] + PoolEdits(acc)[i + 1..]) + [PoolEdit(y)]
  {
  }

  lemma AccumulatePoolRemoval(kinds: Kinds, file: seq<Pool>, acc: seq<Pool>, eff: seq<Pool>, o: Pool, i: nat)
    requires PoolsMatch(kinds, file, acc, eff) && PoolPatchFits(kinds, file, o) && Undisturbed(kinds, acc, o)
    requires i == IndexOfPool(acc, o.name) < |acc| && IsPoolRemoval(o)
    requires MergePool(eff, o, ApplyToBaseline).Ok?
    ensures PoolsMatch(kinds, file, acc[..i] + acc[i + 1..] + [DEFAULT_POOL.(name := o.name, remove := Some(true))],
                       MergePool(eff, o, ApplyToBaseline).value)
  {
    var y := DEFAULT_POOL.(name := o.name, remove := Some(true));
    var next := acc[..i] + acc[i + 1..] + [y];
    RemovalRun(kinds, file, acc, eff, o, i);
    AccWithout(kinds, file, acc, i);
    ExtendAcc(kinds, file, acc[..i] + acc[i + 1..], y);
    EditsWithout(acc, i, y, next);
    assert PoolEdit(y) == PoolEdit(o);
    MatchFromRun(kinds, file, next, eff, o);
  }

  lemma AccumulateOnePool(kinds: Kinds, file: seq<Pool>, acc: seq<Pool>, eff: seq<Pool>, o: Pool)
    requires PoolsMatch(kinds, file, acc, eff) && PoolPatchFits(kinds, file, o) && Undisturbed(kinds, acc, o)
    requires MergePool(eff, o, ApplyToBaseline).Ok? && MergePool(acc, o, AccumulateOverlay).Ok?
    ensures PoolsMatch(kinds, file, MergePool(acc, o, AccumulateOverlay).value,
                       MergePool(eff, o, ApplyToBaseline).value)
  {
    var i := IndexOfPool(acc, o.name);
    if i < |acc| {
      if IsPoolRemoval(o) {
        DropOwnPool(acc, i);
        AccumulatePoolRemoval(kinds, file, acc, eff, o, i);
      } else {
        AccumulatePoolUpdate(kinds, file, acc, eff, o, i);
      }
    } else if IsPoolRemoval(o) {
      AccumulatePoolAppend(kinds, file, acc, eff, o, DEFAULT_POOL.(name := o.name, remove := Some(true)));
    } else {
      AccumulatePoolAppend(kinds, file, acc, eff, o, o.(remove := None));
    }
  }

  // ----- Whole patches -----

  ghost predicate PoolsPatchFits(kinds: Kinds, file: seq<Pool>, patch: seq<Pool>) {
    AccOk(kinds, file, patch)
  }

  ghost predicate AllUndisturbed(kinds: Kinds, acc: seq<Pool>, patch: seq<Pool>) {
    forall j :: 0 <= j < |patch| ==> Undisturbed(kinds, acc, patch[j])
  }

  lemma {:induction false} WithoutPoolIsSubset(l: seq<Pool>, name: string)
    ensures forall p :: p in WithoutPool(l, name) ==> p in l && p.name != name
  {
    if l != [] { WithoutPoolIsSubset(l[1..], name); }
  }

  lemma UndisturbedIn(kinds: Kinds, acc: seq<Pool>, o: Pool, x: Pool)
    requires Undisturbed(kinds, acc, o) && x in acc && x.name == o.name
    ensures !IsPoolRemoval(x) && (!IsPoolRemoval(o) ==> Keeps(kinds(o.name), x.backends, o.backends))
  {
    var i :| 0 <= i < |acc| && acc[i] == x;
  }

  // A later patch `q` that neither the overlay nor the new entry disturbs stays undisturbed.
  lemma UndisturbedAfter(kinds: Kinds, file: seq<Pool>, acc: seq<Pool>, o: Pool, q: Pool)
    requires AccOk(kinds, file, acc) && PoolPatchFits(kinds, file, o) && Undisturbed(kinds, acc, o)
    requires MergePool(acc, o, AccumulateOverlay).Ok?
    requires Undisturbed(kinds, acc, q) && Undisturbed(kinds, [o], q)
    ensures Undisturbed(kinds, MergePool(acc, o, AccumulateOverlay).value, q)
  {
    var acc', i := MergePool(acc, o, AccumulateOverlay).value, IndexOfPool(acc, o.name);
    assert o.name == q.name ==> !IsPoolRemoval([o][0]);
    forall k | 0 <= k < |acc'| && acc'[k].name == q.name
      ensures !IsPoolRemoval(acc'[k])
      ensures !IsPoolRemoval(q) ==> Keeps(kinds(q.name), acc'[k].backends, q.backends)
    {
      if IsPoolRemoval(o) {
        WithoutPoolIsSubset(acc, o.name);
        assert acc'[k] in acc;
        UndisturbedIn(kinds, acc, q, acc'[k]);
      } else if i < |acc| && k == i {
        assert PoolPatchFits(kinds, file, acc[i]) && !IsPoolRemoval(acc[i]);
        AccumulatedPoolFits(kinds, file, acc[i], o, acc'[i].backends);
        UndisturbedIn(kinds, [o], q, o);
      } else if k < |acc| {
        UndisturbedIn(kinds, acc, q, acc[k]);
      } else {
        UndisturbedIn(kinds, [o], q, o);
      }
    }
  }

  lemma OtherPoolsUndisturbed(kinds: Kinds, o: Pool, q: Pool)
    requires o.name != q.name
    ensures Undisturbed(kinds, [o], q)
  {
  }

  lemma TailFits(kinds: Kinds, file: seq<Pool>, patch: seq<Pool>)
    requires PoolsPatchFits(kinds, file, patch) && patch != []
    ensures PoolsPatchFits(kinds, file, patch[1..])
    ensures forall j :: 0 <= j < |patch[1..]| ==> patch[1..][j].name != patch[0].name
  {
    var t := patch[1..];
    assert forall j :: 0 <= j < |t| ==> t[j] == patch[j + 1];
    forall j | 0 <= j < |t| ensures t[j].name != patch[0].name {
      assert PoolKey(patch[0]) != PoolKey(patch[j + 1]);
    }
    forall a, b | 0 <= a < b < |t| && PoolKey(t[a]).Some? ensures PoolKey(t[a]) != PoolKey(t[b]) {
      assert PoolKey(patch[a + 1]) != PoolKey(patch[b + 1]);
    }
  }

  lemma TailUndisturbed(kinds: Kinds, file: seq<Pool>, acc: seq<Pool>, patch: seq<Pool>)
    requires AccOk(kinds, file, acc) && PoolsPatchFits(kinds, file, patch) && AllUndisturbed(kinds, acc, patch)
    requires patch != [] && MergePool(acc, patch[0], AccumulateOverlay).Ok?
    ensures PoolsPatchFits(kinds, file, patch[1..])
    ensures AllUndisturbed(kinds, MergePool(acc, patch[0], AccumulateOverlay).value, patch[1..])
  {
    var o, t := patch[0], patch[1..];
    assert Undisturbed(kinds, acc, o) && PoolPatchFits(kinds, file, o);
    TailFits(kinds, file, patch);
    forall j | 0 <= j < |t| ensures Undisturbed(kinds, MergePool(acc, o, AccumulateOverlay).value, t[j]) {
      assert t[j] == patch[j + 1];
      OtherPoolsUndisturbed(kinds, o, t[j]);
      UndisturbedAfter(kinds, file, acc, o, t[j]);
    }
  }

  lemma {:induction false} AccumulatePoolsPatch(kinds: Kinds, file: seq<Pool>, acc: seq<Pool>, eff: seq<Pool>,
                                                patch: seq<Pool>,
                                                acc': seq<Pool>, eff': seq<Pool>)
    requires PoolsMatch(kinds, file, acc, eff)
    requires PoolsPatchFits(kinds, file, patch) && AllUndisturbed(kinds, acc, patch)
    requires MergePools(eff, patch, ApplyToBaseline) == Ok(eff')
    requires MergePools(acc, patch, AccumulateOverlay) == Ok(acc')
    ensures PoolsMatch(kinds, file, acc', eff')
    decreases |patch|
  {
    if patch != [] {
      var o, t := patch[0], patch[1..];
      assert Undisturbed(kinds, acc, o) && PoolPatchFits(kinds, file, o);
      AccumulateOnePool(kinds, file, acc, eff, o);
      TailUndisturbed(kinds, file, acc, patch);
      AccumulatePoolsPatch(kinds, file, MergePool(acc, o, AccumulateOverlay).value,
                           MergePool(eff, o, ApplyToBaseline).value, t, acc', eff');
    }
  }

  lemma {:induction false} UndisturbedAfterPatch(kinds: Kinds, file: seq<Pool>, acc: seq<Pool>, patch: seq<Pool>,
                                                 acc': seq<Pool>,
                                                 q: Pool)
    requires AccOk(kinds, file, acc) && PoolsPatchFits(kinds, file, patch) && AllUndisturbed(kinds, acc, patch)
    requires MergePools(acc, patch, AccumulateOverlay) == Ok(acc')
    requires Undisturbed(kinds, acc, q) && Undisturbed(kinds, patch, q)
    ensures Undisturbed(kinds, acc', q)
    decreases |patch|
  {
    if patch != [] {
      var o, t := patch[0], patch[1..];
      var next := MergePool(acc, o, AccumulateOverlay).value;
      assert Undisturbed(kinds, acc, o) && PoolPatchFits(kinds, file, o);
      AccumulateOneFits(kinds, file, acc, o);
      TailUndisturbed(kinds, file, acc, patch);
      assert Undisturbed(kinds, [o], q) && Undisturbed(kinds, t, q) by {
        assert patch[0] == o && forall j :: 0 <= j < |t| ==> t[j] == patch[j + 1];
      }
      UndisturbedAfter(kinds, file, acc, o, q);
      UndisturbedAfterPatch(kinds, file, next, t, acc', q);
    }
  }

  lemma AccumulateOneFits(kinds: Kinds, file: seq<Pool>, acc: seq<Pool>, o: Pool)
    requires AccOk(kinds, file, acc) && PoolPatchFits(kinds, file, o) && Undisturbed(kinds, acc, o)
    requires MergePool(acc, o, AccumulateOverlay).Ok?
    ensures AccOk(kinds, file, MergePool(acc, o, AccumulateOverlay).value)
  {
    var i := IndexOfPool(acc, o.name);
    if IsPoolRemoval(o) {
      var y := DEFAULT_POOL.(name := o.name, remove := Some(true));
      if i < |acc| {
        DropOwnPool(acc, i);
        AccWithout(kinds, file, acc, i);
        ExtendAcc(kinds, file, acc[..i] + acc[i + 1..], y);
      } else {
        ExtendAcc(kinds, file, acc, y);
      }
    } else if i < |acc| {
      var bs := MergeBackends(acc[i].name, acc[i].backends, o.backends, AccumulateOverlay).value;
      assert PoolPatchFits(kinds, file, acc[i]) && !IsPoolRemoval(acc[i]);
      AccumulatedPoolFits(kinds, file, acc[i], o, bs);
      SetPool(kinds, file, acc, i, acc[i].(backends := bs, remove := None));
    } else {
      ExtendAcc(kinds, file, acc, o.(remove := None));
    }
  }

  // ----- Applying follows from accumulating -----

  lemma {:induction false} AccumulatedIsOk(kinds: Kinds, file: seq<Pool>, acc: seq<Pool>, patch: seq<Pool>,
                                           acc': seq<Pool>)
    requires AccOk(kinds, file, acc) && PoolsPatchFits(kinds, file, patch) && AllUndisturbed(kinds, acc, patch)
    requires MergePools(acc, patch, AccumulateOverlay) == Ok(acc')
    ensures AccOk(kinds, file, acc')
    decreases |patch|
  {
    if patch != [] {
      var o, t := patch[0], patch[1..];
      assert Undisturbed(kinds, acc, o) && PoolPatchFits(kinds, file, o);
      AccumulateOneFits(kinds, file, acc, o);
      TailUndisturbed(kinds, file, acc, patch);
      AccumulatedIsOk(kinds, file, MergePool(acc, o, AccumulateOverlay).value, t, acc');
    }
  }

  lemma {:induction false} WithoutPoolKeeps(l: seq<Pool>, name: string, y: Pool)
    requires y in l && y.name != name
    ensures y in WithoutPool(l, name)
  {
    if y != l[0] { WithoutPoolKeeps(l[1..], name, y); }
  }

  lemma OtherEntryStays(acc: seq<Pool>, o: Pool, y: Pool)
    requires y in acc && y.name != o.name && MergePool(acc, o, AccumulateOverlay).Ok?
    ensures y in MergePool(acc, o, AccumulateOverlay).value
  {
    if IsPoolRemoval(o) {
      WithoutPoolKeeps(acc, o.name, y);
    } else {
      var i, k := IndexOfPool(acc, o.name), IndexIn(acc, y);
      assert MergePool(acc, o, AccumulateOverlay).value[k] == y;
    }
  }

  ghost function IndexIn(l: seq<Pool>, y: Pool): (k: nat)
    requires y in l
    ensures k < |l| && l[k] == y
  {
    var k :| 0 <= k < |l| && l[k] == y;
    k
  }

  lemma {:induction false} EntryStays(acc: seq<Pool>, patch: seq<Pool>, acc': seq<Pool>, y: Pool)
    requires y in acc && (forall j :: 0 <= j < |patch| ==> patch[j].name != y.name)
    requires MergePools(acc, patch, AccumulateOverlay) == Ok(acc')
    ensures y in acc'
    decreases |patch|
  {
    if patch != [] {
      OtherEntryStays(acc, patch[0], y);
      EntryStays(MergePool(acc, patch[0], AccumulateOverlay).value, patch[1..], acc', y);
    }
  }

  // The overlay leaves a file pool it does not mention as it is, and one it updates with
  // the merged backends.
  lemma PoolIsLeft(kinds: Kinds, file: seq<Pool>, acc: seq<Pool>, eff: seq<Pool>, name: string)
    requires PoolsMatch(kinds, file, acc, eff)
    ensures var i, at := IndexOfPool(acc, name), KeyedList.At(PoolKey, file, name);
            if i == |acc| then KeyedList.At(PoolKey, eff, name) == at
            else !IsPoolRemoval(acc[i]) ==>
                   KeyedList.At(PoolKey, eff, name) ==
                   if at.Some? && PoolEdit(acc[i]).present(at.value).Keep?
                   then Some(PoolEdit(acc[i]).present(at.value).value)
                   else PoolEdit(acc[i]).absent
    ensures var i, at := IndexOfPool(acc, name), KeyedList.At(PoolKey, file, name);
            i < |acc| && !IsPoolRemoval(acc[i]) && at.Some? ==> PoolEdit(acc[i]).present(at.value).Keep?
  {
    var es, i := PoolEdits(acc), IndexOfPool(acc, name);
    AccEdits(kinds, file, acc, eff);
    if i < |acc| {
      AloneByName(acc, i);
      if !IsPoolRemoval(acc[i]) { KeyedList.RunLeaves(PoolKey, file, es, i); }
    } else {
      KeyedList.RunKeepsOthers(PoolKey, file, es, name);
    }
  }

  lemma RemovalApplies(kinds: Kinds, file: seq<Pool>, acc: seq<Pool>, eff: seq<Pool>, o: Pool)
    requires PoolsMatch(kinds, file, acc, eff) && PoolPatchFits(kinds, file, o) && Undisturbed(kinds, acc, o)
    requires IsPoolRemoval(o)
    ensures MergePool(eff, o, ApplyToBaseline).Ok?
  {
    PoolIsLeft(kinds, file, acc, eff, o.name);
    FindFilePool(file, o.name);
    FindFilePool(eff, o.name);
    WithoutPoolIs(eff, o.name);
  }

  lemma FirstUpdateApplies(kinds: Kinds, file: seq<Pool>, acc: seq<Pool>, eff: seq<Pool>, o: Pool)
    requires PoolsMatch(kinds, file, acc, eff) && IndexOfPool(acc, o.name) == |acc|
    requires !IsPoolRemoval(o) && PointwisePools.PoolFits(file, o)
    ensures MergePool(eff, o, ApplyToBaseline).Ok?
  {
    PoolIsLeft(kinds, file, acc, eff, o.name);
    FindFilePool(file, o.name);
    FindFilePool(eff, o.name);
  }

  lemma NextUpdateApplies(kinds: Kinds, file: seq<Pool>, acc: seq<Pool>, eff: seq<Pool>, o: Pool, i: nat)
    requires PoolsMatch(kinds, file, acc, eff) && PoolPatchFits(kinds, file, o) && Undisturbed(kinds, acc, o)
    requires i == IndexOfPool(acc, o.name) < |acc| && !IsPoolRemoval(o) && MergePool(acc, o, AccumulateOverlay).Ok?
    ensures MergePool(eff, o, ApplyToBaseline).Ok?
  {
    var x, k := acc[i], IndexOfPool(file, o.name);
    PoolIsLeft(kinds, file, acc, eff, o.name);
    FindFilePool(file, o.name);
    FindFilePool(eff, o.name);
    assert PoolPatchFits(kinds, file, x) && !IsPoolRemoval(x);
    if k < |file| {
      var f := file[k];
      PatchApplies(kinds(o.name), o.name, f.backends, x.backends,
                   MergeBackends(f.name, f.backends, x.backends, ApplyToBaseline).value, o.backends);
    } else {
      assert RemovedBy(kinds(o.name), o.backends) == {};
      RemovalsListed(kinds(o.name), o.backends);
      UpdatesIgnoreMode(kinds(o.name), x.name, x.backends, o.backends);
    }
  }

  lemma PoolPatchApplies(kinds: Kinds, file: seq<Pool>, acc: seq<Pool>, eff: seq<Pool>, o: Pool)
    requires PoolsMatch(kinds, file, acc, eff) && PoolPatchFits(kinds, file, o) && Undisturbed(kinds, acc, o)
    requires MergePool(acc, o, AccumulateOverlay).Ok?
    requires IndexOfPool(acc, o.name) == |acc| && !IsPoolRemoval(o) ==> PointwisePools.PoolFits(file, o)
    ensures MergePool(eff, o, ApplyToBaseline).Ok?
  {
    var i := IndexOfPool(acc, o.name);
    if IsPoolRemoval(o) {
      RemovalApplies(kinds, file, acc, eff, o);
    } else if i < |acc| {
      NextUpdateApplies(kinds, file, acc, eff, o, i);
    } else {
      FirstUpdateApplies(kinds, file, acc, eff, o);
    }
  }

  // A pool the overlay did not mention ends up in it as the patch gives it.
  lemma NewEntryFits(kinds: Kinds, file: seq<Pool>, acc: seq<Pool>, patch: seq<Pool>, acc': seq<Pool>)
    requires PoolsPatchFits(kinds, file, patch) && patch != [] && MergePools(acc, patch, AccumulateOverlay) == Ok(acc')
    requires PointwisePools.AllPoolsFit(file, acc')
    requires IndexOfPool(acc, patch[0].name) == |acc| && !IsPoolRemoval(patch[0])
    ensures PointwisePools.PoolFits(file, patch[0])
  {
    var o := patch[0].(remove := None);
    var next := MergePool(acc, patch[0], AccumulateOverlay).value;
    TailFits(kinds, file, patch);
    assert next[|acc|] == o;
    EntryStays(next, patch[1..], acc', o);
    var k :| 0 <= k < |acc'| && acc'[k] == o;
    assert PointwisePools.PoolFits(file, acc'[k]);
  }

  // A patch that accumulates to an overlay the file accepts also applies to the
  // effective pools.
  lemma {:induction false} PoolsPatchApplies(kinds: Kinds, file: seq<Pool>, acc: seq<Pool>, eff: seq<Pool>,
                                             patch: seq<Pool>,
                                             acc': seq<Pool>)
    requires PoolsMatch(kinds, file, acc, eff)
    requires PoolsPatchFits(kinds, file, patch) && AllUndisturbed(kinds, acc, patch)
    requires MergePools(acc, patch, AccumulateOverlay) == Ok(acc') && PointwisePools.AllPoolsFit(file, acc')
    ensures MergePools(eff, patch, ApplyToBaseline).Ok?
    decreases |patch|
  {
    if patch != [] {
      var o, t := patch[0], patch[1..];
      assert Undisturbed(kinds, acc, o) && PoolPatchFits(kinds, file, o);
      if IndexOfPool(acc, o.name) == |acc| && !IsPoolRemoval(o) { NewEntryFits(kinds, file, acc, patch, acc'); }
      PoolPatchApplies(kinds, file, acc, eff, o);
      AccumulateOnePool(kinds, file, acc, eff, o);
      TailUndisturbed(kinds, file, acc, patch);
      PoolsPatchApplies(kinds, file, MergePool(acc, o, AccumulateOverlay).value,
                        MergePool(eff, o, ApplyToBaseline).value, t, acc');
    }
  }

  lemma DistinctIsOwn(l: seq<Pool>)
    requires DistinctPoolNames(l)
    ensures PointwisePools.OwnPoolNames(l)
  {
    forall i, j | 0 <= i < j < |l| ensures l[i].name != l[j].name {
      assert PoolKey(l[i]) != PoolKey(l[j]);
    }
  }

  lemma AcceptedPatchApplies(kinds: Kinds, file: seq<Pool>, acc: seq<Pool>, eff: seq<Pool>, patch: seq<Pool>,
                             acc': seq<Pool>)
    requires DistinctPoolNames(file) && PoolsMatch(kinds, file, acc, eff)
    requires PoolsPatchFits(kinds, file, patch) && AllUndisturbed(kinds, acc, patch)
    requires MergePools(acc, patch, AccumulateOverlay) == Ok(acc') && MergePools(file, acc', ApplyToBaseline).Ok?
    ensures MergePools(eff, patch, ApplyToBaseline).Ok?
  {
    AccumulatedIsOk(kinds, file, acc, patch, acc');
    DistinctIsOwn(file);
    DistinctIsOwn(acc');
    PointwisePools.PoolsArePointwise(file, acc');
    PoolsPatchApplies(kinds, file, acc, eff, patch, acc');
  }
}
