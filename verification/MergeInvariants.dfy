/** What applying an overlay keeps, whatever the overlay says. */
module MergeInvariants {
  import opened Wrappers
  import opened ConfigModel
  import opened Merge

  // No remove marker is left, and no two backends carry the same name.
  ghost predicate Tidy(l: seq<Backend>) {
    && (forall i :: 0 <= i < |l| ==> l[i].remove.None?)
    && NamesApart(l)
  }

  ghost predicate NamesApart(l: seq<Backend>) {
    forall i, j :: 0 <= i < |l| && 0 <= j < |l| && i != j && HasName(l[i]) ==> l[i].name != l[j].name
  }

  lemma TidyTail(l: seq<Backend>)
    requires Tidy(l) && l != []
    ensures Tidy(l[1..])
  {
  }

  lemma TidyCons(b: Backend, l: seq<Backend>)
    requires Tidy(l) && b.remove.None?
    requires forall i :: 0 <= i < |l| ==> (HasName(b) || HasName(l[i])) ==> b.name != l[i].name
    ensures Tidy([b] + l)
  {
  }

  lemma {:induction false} WithoutNameTidy(l: seq<Backend>, name: string)
    requires Tidy(l)
    ensures Tidy(WithoutName(l, name)) && forall b :: b in WithoutName(l, name) ==> b in l
  {
    if l != [] {
      TidyTail(l);
      WithoutNameTidy(l[1..], name);
      if l[0].name != Some(name) { TidyConsPart(l, WithoutName(l[1..], name)); }
    }
  }

  lemma {:induction false} WithoutAddressTidy(l: seq<Backend>, address: string)
    requires Tidy(l)
    ensures Tidy(WithoutAddress(l, address)) && forall b :: b in WithoutAddress(l, address) ==> b in l
  {
    if l != [] {
      TidyTail(l);
      WithoutAddressTidy(l[1..], address);
      if l[0].address != address { TidyConsPart(l, WithoutAddress(l[1..], address)); }
    }
  }

  lemma TidyConsPart(l: seq<Backend>, rest: seq<Backend>)
    requires Tidy(l) && l != [] && Tidy(rest) && forall b :: b in rest ==> b in l[1..]
    ensures Tidy([l[0]] + rest)
  {
    forall i | 0 <= i < |rest| ensures HasName(l[0]) || HasName(rest[i]) ==> l[0].name != rest[i].name {
      assert rest[i] in l[1..];
      var k :| 0 <= k < |l[1..]| && l[1..][k] == rest[i];
      assert rest[i] == l[k + 1];
    }
    TidyCons(l[0], rest);
  }

  lemma UpdateTidy(l: seq<Backend>, i: nat, b: Backend)
    requires Tidy(l) && i < |l| && b.remove.None? && (b.name == l[i].name || !HasName(b))
    ensures Tidy(l[i := b])
  {
  }

  lemma AppendTidy(l: seq<Backend>, b: Backend)
    requires Tidy(l) && b.remove.None? && (HasName(b) ==> NoName(l, b.name.value))
    ensures Tidy(l + [b])
  {
  }

  lemma EntryKeepsTidy(pool: string, base: seq<Backend>, o: Backend)
    requires Tidy(base) && MergeBackend(pool, base, o, ApplyToBaseline).Ok?
    ensures Tidy(MergeBackend(pool, base, o, ApplyToBaseline).value)
  {
    if IsRemoval(o) {
      if HasName(o) { WithoutNameTidy(base, o.name.value); } else { WithoutAddressTidy(base, o.address); }
    } else {
      var i := if HasName(o) then IndexOfName(base, o.name.value) else IndexOfAddress(base, o.address);
      if i < |base| { UpdateTidy(base, i, UpdateBackend(base[i], o)); } else { AppendTidy(base, o.(remove := None)); }
    }
  }

  // Applying any overlay entries to a tidy pool leaves it tidy.
  lemma {:induction false} BackendsStayTidy(pool: string, base: seq<Backend>, os: seq<Backend>)
    requires Tidy(base) && MergeBackends(pool, base, os, ApplyToBaseline).Ok?
    ensures Tidy(MergeBackends(pool, base, os, ApplyToBaseline).value)
    decreases |os|
  {
    if os != [] {
      EntryKeepsTidy(pool, base, os[0]);
      BackendsStayTidy(pool, MergeBackend(pool, base, os[0], ApplyToBaseline).value, os[1..]);
    }
  }

  // ----- What is not mentioned is not touched -----

  predicate Names(o: Backend, b: Backend) {
    if HasName(o) then b.name == o.name else o.address != "" && b.address == o.address
  }

  ghost predicate Touched(os: seq<Backend>, b: Backend) {
    exists k :: 0 <= k < |os| && Names(os[k], b)
  }

  ghost function Untouched(os: seq<Backend>, l: seq<Backend>): seq<Backend> {
    if l == [] then []
    else if Touched(os, l[0]) then Untouched(os, l[1..])
    else [l[0]] + Untouched(os, l[1..])
  }

  lemma {:induction false} UntouchedSplit(os: seq<Backend>, a: seq<Backend>, b: seq<Backend>)
    ensures Untouched(os, a + b) == Untouched(os, a) + Untouched(os, b)
  {
    if a == [] {
      assert a + b == b;
    } else {
      assert (a + b)[0] == a[0] && (a + b)[1..] == a[1..] + b;
      UntouchedSplit(os, a[1..], b);
    }
  }

  lemma {:induction false} NameRemovalTouches(os: seq<Backend>, l: seq<Backend>, name: string)
    requires forall b: Backend :: b.name == Some(name) ==> Touched(os, b)
    ensures Untouched(os, WithoutName(l, name)) == Untouched(os, l)
  {
    if l != [] { NameRemovalTouches(os, l[1..], name); }
  }

  lemma {:induction false} AddressRemovalTouches(os: seq<Backend>, l: seq<Backend>, address: string)
    requires forall b: Backend :: b.address == address ==> Touched(os, b)
    ensures Untouched(os, WithoutAddress(l, address)) == Untouched(os, l)
  {
    if l != [] { AddressRemovalTouches(os, l[1..], address); }
  }

  lemma UpdateTouches(os: seq<Backend>, l: seq<Backend>, i: nat, b: Backend)
    requires i < |l| && Touched(os, l[i]) && Touched(os, b)
    ensures Untouched(os, l[i := b]) == Untouched(os, l)
  {
    var p, t := l[..i], l[i + 1..];
    assert l == p + ([l[i]] + t) && l[i := b] == p + ([b] + t);
    UntouchedSplit(os, p, [l[i]] + t);
    UntouchedSplit(os, p, [b] + t);
    assert ([b] + t)[1..] == t && ([l[i]] + t)[1..] == t;
  }

  lemma AppendTouches(os: seq<Backend>, l: seq<Backend>, b: Backend)
    requires Touched(os, b)
    ensures Untouched(os, l + [b]) == Untouched(os, l)
  {
    UntouchedSplit(os, l, [b]);
    assert Untouched(os, [b]) == [];
  }

  function Marker(o: Backend): Backend {
    if HasName(o) then DEFAULT_BACKEND.(name := o.name, remove := Some(true))
    else DEFAULT_BACKEND.(address := o.address, remove := Some(true))
  }

  lemma RemovalTouches(pool: string, base: seq<Backend>, os: seq<Backend>, k: nat, mode: Mode)
    requires k < |os| && IsRemoval(os[k]) && MergeBackend(pool, base, os[k], mode).Ok?
    ensures Untouched(os, MergeBackend(pool, base, os[k], mode).value) == Untouched(os, base)
  {
    var o := os[k];
    assert forall b :: Names(o, b) ==> Touched(os, b);
    var kept := if HasName(o) then WithoutName(base, o.name.value) else WithoutAddress(base, o.address);
    if HasName(o) {
      NameRemovalTouches(os, base, o.name.value);
    } else {
      AddressRemovalTouches(os, base, o.address);
    }
    if mode.AccumulateOverlay? {
      assert Names(o, Marker(o));
      AppendTouches(os, kept, Marker(o));
    }
  }

  lemma EntryTouches(pool: string, base: seq<Backend>, os: seq<Backend>, k: nat, mode: Mode)
    requires k < |os| && MergeBackend(pool, base, os[k], mode).Ok?
    ensures Untouched(os, MergeBackend(pool, base, os[k], mode).value) == Untouched(os, base)
  {
    var o := os[k];
    if IsRemoval(o) {
      RemovalTouches(pool, base, os, k, mode);
    } else {
      assert forall b :: Names(o, b) ==> Touched(os, b);
      var i := if HasName(o) then IndexOfName(base, o.name.value) else IndexOfAddress(base, o.address);
      if i < |base| {
        assert Names(o, base[i]) && Names(o, UpdateBackend(base[i], o));
        UpdateTouches(os, base, i, UpdateBackend(base[i], o));
      } else {
        assert Names(o, o.(remove := None));
        AppendTouches(os, base, o.(remove := None));
      }
    }
  }

  lemma {:induction false} UntouchedFrom(pool: string, base: seq<Backend>, os: seq<Backend>, k: nat, mode: Mode)
    requires k <= |os| && MergeBackends(pool, base, os[k..], mode).Ok?
    ensures Untouched(os, MergeBackends(pool, base, os[k..], mode).value) == Untouched(os, base)
    decreases |os| - k
  {
    if k < |os| {
      assert os[k..][0] == os[k] && os[k..][1..] == os[k + 1..];
      EntryTouches(pool, base, os, k, mode);
      UntouchedFrom(pool, MergeBackend(pool, base, os[k], mode).value, os, k + 1, mode);
    }
  }

  // In both modes: the entries that no overlay entry identifies are all still there,
  // unchanged, in the same order, and nothing else looks like one of them.
  lemma UntouchedStay(pool: string, base: seq<Backend>, os: seq<Backend>, mode: Mode)
    requires MergeBackends(pool, base, os, mode).Ok?
    ensures Untouched(os, MergeBackends(pool, base, os, mode).value) == Untouched(os, base)
  {
    assert os[0..] == os;
    UntouchedFrom(pool, base, os, 0, mode);
  }

  // ----- Accumulated removals -----

  lemma {:induction false} NoneNamed(l: seq<Backend>, name: string)
    ensures NoName(WithoutName(l, name), name)
  {
    if l != [] { NoneNamed(l[1..], name); }
  }

  lemma {:induction false} NoneAt(l: seq<Backend>, address: string)
    ensures NoAddress(WithoutAddress(l, address), address)
  {
    if l != [] { NoneAt(l[1..], address); }
  }

  // Accumulating a removal, by name or by address, leaves exactly one entry for that
  // identity: the marker, at the end.
  lemma RemovalIsRemembered(pool: string, base: seq<Backend>, o: Backend)
    requires IsRemoval(o)
    ensures var r := MergeBackend(pool, base, o, AccumulateOverlay);
            && (r.Ok? <==> HasName(o) || o.address != "")
            && (r.Ok? ==>
                  var n := |r.value| - 1;
                  n >= 0 && r.value[n] == Marker(o) && forall i :: 0 <= i < n ==> !Names(o, r.value[i]))
  {
    if HasName(o) { NoneNamed(base, o.name.value); } else { NoneAt(base, o.address); }
  }

  // ----- Pools -----

  ghost predicate TidyPools(l: seq<Pool>) {
    && (forall i, j :: 0 <= i < j < |l| ==> l[i].name != l[j].name)
    && (forall i :: 0 <= i < |l| ==> l[i].remove.None? && Tidy(l[i].backends))
  }

  lemma TidyPoolsCons(p: Pool, l: seq<Pool>)
    requires TidyPools(l) && NoPool(l, p.name) && p.remove.None? && Tidy(p.backends)
    ensures TidyPools([p] + l)
  {
  }

  lemma {:induction false} WithoutPoolLacks(l: seq<Pool>, name: string, other: string)
    requires NoPool(l, other)
    ensures NoPool(WithoutPool(l, name), other)
  {
    if l != [] { WithoutPoolLacks(l[1..], name, other); }
  }

  lemma {:induction false} WithoutPoolTidy(l: seq<Pool>, name: string)
    requires TidyPools(l)
    ensures TidyPools(WithoutPool(l, name))
  {
    if l != [] {
      assert NoPool(l[1..], l[0].name);
      WithoutPoolTidy(l[1..], name);
      WithoutPoolLacks(l[1..], name, l[0].name);
      if l[0].name != name { TidyPoolsCons(l[0], WithoutPool(l[1..], name)); }
    }
  }

  // Remove markers inside a pool that the file does not have are only cleared: what
  // they were to remove becomes part of the new pool.
  lemma NewPoolMarkersVanish(base: seq<Pool>, o: Pool, i: nat)
    requires NoPool(base, o.name) && !o.remove.UnwrapOr(false) && i < |o.backends| && IsRemoval(o.backends[i])
    ensures var r := MergePool(base, o, ApplyToBaseline);
            && r.Ok? && |r.value| == |base| + 1 && r.value[..|base|] == base
            && r.value[|base|].backends[i] == o.backends[i].(remove := None)
  {
    assert IndexOfPool(base, o.name) == |base|;
  }

  lemma PoolKeepsTidy(base: seq<Pool>, o: Pool)
    requires TidyPools(base) && NamesApart(o.backends) && MergePool(base, o, ApplyToBaseline).Ok?
    ensures TidyPools(MergePool(base, o, ApplyToBaseline).value)
  {
    var i := IndexOfPool(base, o.name);
    if o.remove.UnwrapOr(false) {
      WithoutPoolTidy(base, o.name);
    } else if i < |base| {
      BackendsStayTidy(base[i].name, base[i].backends, o.backends);
    } else {
      assert Tidy(ClearMarkers(o.backends));
    }
  }

  // Applying any overlay to tidy pools leaves them tidy, as long as no pool of the
  // overlay names a backend twice.
  lemma {:induction false} PoolsStayTidy(base: seq<Pool>, os: seq<Pool>)
    requires TidyPools(base) && (forall k :: 0 <= k < |os| ==> NamesApart(os[k].backends))
    requires MergePools(base, os, ApplyToBaseline).Ok?
    ensures TidyPools(MergePools(base, os, ApplyToBaseline).value)
    decreases |os|
  {
    if os != [] {
      PoolKeepsTidy(base, os[0]);
      PoolsStayTidy(MergePool(base, os[0], ApplyToBaseline).value, os[1..]);
    }
  }
}
