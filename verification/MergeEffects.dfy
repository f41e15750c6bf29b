/**
 What one overlay entry does to a list of backends, in both modes, field by field: the
 entry is found by its name if it has one, and by its address otherwise.
 */
module MergeEffects {
  import opened Wrappers
  import opened ConfigModel
  import opened Merge
  import opened Thinning

  // The overlay's address, name and weight where it gives them; all else is as it was.
  predicate Carries(b: Backend, o: Backend, r: Backend) {
    && r.address == (if o.address != "" then o.address else b.address)
    && r.name == (if o.name.Some? then o.name else b.name)
    && r.weight == (if o.weight.Some? then o.weight else b.weight)
    && r.probeQname == b.probeQname && r.probeQtype == b.probeQtype && r.probeSource == b.probeSource
    && r.transport == b.transport && r.remove.None?
  }

  // Exactly position `i` has changed, and carries the overlay.
  ghost predicate ChangedAt(base: seq<Backend>, i: nat, o: Backend, r: seq<Backend>) {
    && i < |base| && |r| == |base| && Carries(base[i], o, r[i])
    && forall k :: 0 <= k < |base| && k != i ==> r[k] == base[k]
  }

  ghost predicate FirstAt(base: seq<Backend>, i: nat, address: string) {
    i < |base| && base[i].address == address && forall k :: 0 <= k < i ==> base[k].address != address
  }

  ghost predicate FirstNamed(base: seq<Backend>, i: nat, name: string) {
    i < |base| && base[i].name == Some(name) && forall k :: 0 <= k < i ==> base[k].name != Some(name)
  }

  predicate Unmarked(o: Backend, r: Backend) {
    && r.address == o.address && r.name == o.name && r.weight == o.weight
    && r.probeQname == o.probeQname && r.probeQtype == o.probeQtype && r.probeSource == o.probeSource
    && r.transport == o.transport && r.remove.None?
  }

  ghost predicate AppendedTo(base: seq<Backend>, o: Backend, r: seq<Backend>) {
    |r| == |base| + 1 && r[..|base|] == base && Unmarked(o, r[|base|])
  }

  // An entry with an address and no name: the first backend at that address carries it, or
  // it is appended. It never fails.
  lemma AddressEntryEffect(pool: string, base: seq<Backend>, o: Backend, mode: Mode)
    requires (o.name == None || o.name == Some("")) && o.address != "" && o.remove != Some(true)
    ensures var r := MergeBackends(pool, base, [o], mode);
            && r.Ok?
            && (NoAddress(base, o.address) ==> AppendedTo(base, o, r.value))
            && (!NoAddress(base, o.address) ==>
                  exists i :: FirstAt(base, i, o.address) && ChangedAt(base, i, o, r.value))
  {
    MergeOne(pool, base, o, mode);
    var i := IndexOfAddress(base, o.address);
    if i < |base| { assert FirstAt(base, i, o.address); }
  }

  // An entry with a name: the first backend of that name carries it, or it is appended if
  // it has an address, or it is refused.
  lemma NameEntryEffect(pool: string, base: seq<Backend>, o: Backend, mode: Mode)
    requires o.name.Some? && o.name.value != "" && o.remove != Some(true)
    ensures var r, name := MergeBackends(pool, base, [o], mode), o.name.value;
            && (!NoName(base, name) ==>
                  r.Ok? && exists i :: FirstNamed(base, i, name) && ChangedAt(base, i, o, r.value))
            && (NoName(base, name) && o.address != "" ==> r.Ok? && AppendedTo(base, o, r.value))
            && (NoName(base, name) && o.address == "" ==> r == Err(UnknownBackendName(pool, name)))
  {
    MergeOne(pool, base, o, mode);
    var i := IndexOfName(base, o.name.value);
    if i < |base| { assert FirstNamed(base, i, o.name.value); }
  }

  lemma {:induction false} WithoutIsKept(l: seq<Backend>, key: string)
    ensures WithoutName(l, key) == Kept(l, (b: Backend) => b.name == Some(key))
    ensures WithoutAddress(l, key) == Kept(l, (b: Backend) => b.address == key)
  {
    if l != [] { WithoutIsKept(l[1..], key); }
  }

  lemma WithoutIsThinned(l: seq<Backend>, key: string)
    ensures Thinned(l, (b: Backend) => b.name == Some(key), WithoutName(l, key))
    ensures Thinned(l, (b: Backend) => b.address == key, WithoutAddress(l, key))
    ensures |WithoutName(l, key)| == |l| <==> NoName(l, key)
    ensures |WithoutAddress(l, key)| == |l| <==> NoAddress(l, key)
  {
    WithoutIsKept(l, key);
    KeptIsThinned(l, (b: Backend) => b.name == Some(key));
    KeptIsThinned(l, (b: Backend) => b.address == key);
    NoneGone(l, (b: Backend) => b.name == Some(key));
    NoneGone(l, (b: Backend) => b.address == key);
  }

  // A removal that is applied: every backend of that name goes, or without a name every
  // backend at that address, and nothing else; if there is none it is refused.
  lemma RemovalEffect(pool: string, base: seq<Backend>, o: Backend)
    requires o.remove == Some(true)
    ensures var r := MergeBackends(pool, base, [o], ApplyToBaseline);
            if o.name.Some? && o.name.value != "" then
              if NoName(base, o.name.value) then r == Err(RemoveUnknownBackendName(pool, o.name.value))
              else r.Ok? && Thinned(base, (b: Backend) => b.name == Some(o.name.value), r.value)
            else if o.address != "" then
              if NoAddress(base, o.address) then r == Err(RemoveUnknownBackendAddress(pool, o.address))
              else r.Ok? && Thinned(base, (b: Backend) => b.address == o.address, r.value)
            else r == Err(BackendRemoveNeedsIdentity(pool))
  {
    MergeOne(pool, base, o, ApplyToBaseline);
    var key := if HasName(o) then o.name.value else o.address;
    WithoutIsThinned(base, key);
  }

  // An entry with neither name nor address is refused in both modes.
  lemma NamelessEntryFails(pool: string, base: seq<Backend>, o: Backend, mode: Mode)
    requires (o.name == None || o.name == Some("")) && o.address == ""
    ensures MergeBackends(pool, base, [o], mode)
            == Err(if o.remove == Some(true) then BackendRemoveNeedsIdentity(pool) else BackendNeedsIdentity(pool))
  {
    MergeOne(pool, base, o, mode);
  }
}
