/**
 Which names the synthesized entries can bring into a list, and which they leave: why
 a target outside the domain of synthesis is refused, or silently missed.
 */
module NameTracking {
  import opened Wrappers
  import opened ConfigModel
  import opened Merge
  import opened Synthesize
  import opened BackendRoundTrip
  import opened PointwiseMerge

  ghost predicate Placed(l: seq<Backend>) {
    forall i :: 0 <= i < |l| ==> l[i].address != "" && l[i].remove.None?
  }

  // A file whose backends have their own identities, and any target that carries each
  // name once. A name that is present but empty counts as none; a backend that has one is
  // in the file.
  ghost predicate Traceable(file: seq<Backend>, desired: seq<Backend>) {
    && Identified(file) && NamesOnce(desired) && Placed(desired)
    && forall j :: 0 <= j < |desired| && desired[j].name == Some("") ==> desired[j] in file
  }

  predicate Has(l: seq<Backend>, name: string) {
    IndexOfName(l, name) < |l|
  }

  lemma HasIf(l: seq<Backend>, i: nat, name: string)
    requires i < |l| && l[i].name == Some(name)
    ensures Has(l, name)
  {
  }

  // ----- What synthesis emits -----

  // Where an entry of the overlay comes from.
  ghost predicate FromFile(file: seq<Backend>, desired: seq<Backend>, e: Backend) {
    exists i :: 0 <= i < |file| && e in FileEntry(file[i], desired)
  }

  ghost predicate FromDesired(file: seq<Backend>, desired: seq<Backend>, e: Backend) {
    exists j :: 0 <= j < |desired| && FindBackend(file, desired[j]) == |file| && e == desired[j].(remove := None)
  }

  lemma {:induction false} FileEntriesFrom(file: seq<Backend>, i: nat, desired: seq<Backend>, e: Backend)
    requires i <= |file| && e in FileEntries(file[i..], desired)
    ensures FromFile(file, desired, e)
    decreases |file| - i
  {
    assert file[i..][0] == file[i] && file[i..][1..] == file[i + 1..];
    if e !in FileEntry(file[i], desired) { FileEntriesFrom(file, i + 1, desired, e); }
  }

  lemma {:induction false} AdditionsFrom(file: seq<Backend>, desired: seq<Backend>, j: nat, e: Backend)
    requires j <= |desired| && e in Additions(file, desired[j..])
    ensures FromDesired(file, desired, e)
    decreases |desired| - j
  {
    assert desired[j..][0] == desired[j] && desired[j..][1..] == desired[j + 1..];
    if !(FindBackend(file, desired[j]) == |file| && e == desired[j].(remove := None)) {
      AdditionsFrom(file, desired, j + 1, e);
    }
  }

  lemma EntriesFrom(file: seq<Backend>, desired: seq<Backend>, e: Backend)
    requires e in SynthesizeBackends(file, desired)
    ensures FromFile(file, desired, e) || FromDesired(file, desired, e)
  {
    assert file[0..] == file && desired[0..] == desired;
    if e in FileEntries(file, desired) {
      FileEntriesFrom(file, 0, desired, e);
    } else {
      AdditionsFrom(file, desired, 0, e);
    }
  }

  lemma LoneAddress(file: seq<Backend>, i: nat, j: nat)
    requires Identified(file) && i < |file| && j < |file| && i != j && !HasName(file[i])
    ensures file[i].address != file[j].address
  {
    assert BackendRoundTrip.Apart(file[i], file[j]);
  }

  lemma DeltaOfItself(b: Backend)
    ensures BackendDelta(b, b).None?
  {
  }

  // A file backend's entry: a marker for it, or an entry for the desired backend that it
  // found, with a new address only if it found that by name.
  lemma FileEntryIs(file: seq<Backend>, desired: seq<Backend>, i: nat, e: Backend)
    requires Traceable(file, desired) && i < |file| && e in FileEntry(file[i], desired)
    ensures var f, k := file[i], FindBackend(desired, file[i]);
            if k == |desired| then e == RemoveMarkerFor(f) && NoAddress(desired, f.address)
            else
              && !IsRemoval(e)
              && (if HasName(desired[k]) then e.name == desired[k].name else e.name.None? && e.address != "")
              && (e.address != "" ==> e.address == desired[k].address)
              && (e.address != "" && HasName(e) ==> desired[k].address != f.address)
  {
    var f, k := file[i], FindBackend(desired, file[i]);
    if k < |desired| && desired[k].name == Some("") { BlankIsItself(file, desired, i); }
    DeltaOfItself(f);
  }

  lemma BlankIsItself(file: seq<Backend>, desired: seq<Backend>, i: nat)
    requires Traceable(file, desired) && i < |file|
    requires var k := FindBackend(desired, file[i]); k < |desired| && desired[k].name == Some("")
    ensures desired[FindBackend(desired, file[i])] == file[i]
  {
    var k := FindBackend(desired, file[i]);
    assert desired[k] in file;
    var j :| 0 <= j < |file| && file[j] == desired[k];
    if j != i { LoneAddress(file, j, i); }
  }

  lemma AdditionIs(file: seq<Backend>, desired: seq<Backend>, j: nat)
    requires Traceable(file, desired) && j < |desired| && FindBackend(file, desired[j]) == |file|
    ensures HasName(desired[j]) || desired[j].name.None?
  {
    if desired[j].name == Some("") {
      assert desired[j] in file;
      var i :| 0 <= i < |file| && file[i] == desired[j];
      assert IndexOfAddress(file, desired[j].address) <= i;
    }
  }

  // ----- A name that stays -----

  // Where a backend named like file backend `i` may stand: at its old address, or at one
  // that is desired.
  ghost predicate MayStandAt(file: seq<Backend>, desired: seq<Backend>, i: nat, address: string)
    requires i < |file|
  {
    address == file[i].address || !NoAddress(desired, address)
  }

  ghost predicate Anchored(file: seq<Backend>, desired: seq<Backend>, i: nat, l: seq<Backend>)
    requires i < |file| && HasName(file[i])
  {
    && Has(l, file[i].name.value)
    && forall q :: 0 <= q < |l| && l[q].name == file[i].name ==> MayStandAt(file, desired, i, l[q].address)
  }

  // An entry that leaves the name of file backend `i` in the list.
  ghost predicate Harmless(file: seq<Backend>, desired: seq<Backend>, i: nat, e: Backend)
    requires i < |file|
  {
    if IsRemoval(e) then if HasName(e) then e.name != file[i].name else !MayStandAt(file, desired, i, e.address)
    else
      && (HasName(e) || e.name.None?)
      && (e.address != "" ==> !NoAddress(desired, e.address))
  }

  lemma {:induction false} OtherNameStays(l: seq<Backend>, name: string, other: string)
    requires Has(l, name) && other != name
    ensures Has(WithoutName(l, other), name)
  {
    if l[0].name != Some(name) { OtherNameStays(l[1..], name, other); }
  }

  lemma {:induction false} OtherAddressStays(l: seq<Backend>, b: Backend, address: string)
    requires b in l && b.address != address
    ensures b in WithoutAddress(l, address)
  {
    if b != l[0] { OtherAddressStays(l[1..], b, address); }
  }

  lemma {:induction false} WithoutIsSubset(l: seq<Backend>, key: string)
    ensures forall b :: b in WithoutName(l, key) ==> b in l && b.name != Some(key)
    ensures forall b :: b in WithoutAddress(l, key) ==> b in l && b.address != key
  {
    if l != [] { WithoutIsSubset(l[1..], key); }
  }

  lemma RemovalKeepsAnchor(pool: string, file: seq<Backend>, desired: seq<Backend>, i: nat, l: seq<Backend>, e: Backend)
    requires i < |file| && HasName(file[i]) && Anchored(file, desired, i, l) && Harmless(file, desired, i, e)
    requires IsRemoval(e) && MergeBackend(pool, l, e, ApplyToBaseline).Ok?
    ensures Anchored(file, desired, i, MergeBackend(pool, l, e, ApplyToBaseline).value)
  {
    var next, name := MergeBackend(pool, l, e, ApplyToBaseline).value, file[i].name.value;
    if HasName(e) {
      WithoutIsSubset(l, e.name.value);
      OtherNameStays(l, name, e.name.value);
    } else {
      WithoutIsSubset(l, e.address);
      var b := l[IndexOfName(l, name)];
      OtherAddressStays(l, b, e.address);
      var q :| 0 <= q < |next| && next[q] == b;
      HasIf(next, q, name);
    }
    forall q | 0 <= q < |next| && next[q].name == file[i].name ensures MayStandAt(file, desired, i, next[q].address) {
      assert next[q] in l;
    }
  }

  lemma UpdateKeepsAnchor(pool: string, file: seq<Backend>, desired: seq<Backend>, i: nat, l: seq<Backend>, e: Backend)
    requires i < |file| && HasName(file[i]) && Anchored(file, desired, i, l) && Harmless(file, desired, i, e)
    requires !IsRemoval(e) && MergeBackend(pool, l, e, ApplyToBaseline).Ok?
    ensures Anchored(file, desired, i, MergeBackend(pool, l, e, ApplyToBaseline).value)
  {
    var next, name := MergeBackend(pool, l, e, ApplyToBaseline).value, file[i].name.value;
    var q := IndexOfName(l, name);
    assert next[q].name == Some(name);
    HasIf(next, q, name);
  }

  lemma {:induction false} AnchorStays(pool: string, file: seq<Backend>, desired: seq<Backend>, i: nat, l: seq<Backend>,
                                       es: seq<Backend>)
    requires i < |file| && HasName(file[i]) && Anchored(file, desired, i, l)
    requires (forall e :: e in es ==> Harmless(file, desired, i, e)) && MergeBackends(pool, l, es, ApplyToBaseline).Ok?
    ensures Anchored(file, desired, i, MergeBackends(pool, l, es, ApplyToBaseline).value)
    decreases |es|
  {
    if es != [] {
      assert es[0] in es;
      if IsRemoval(es[0]) {
        RemovalKeepsAnchor(pool, file, desired, i, l, es[0]);
      } else {
        UpdateKeepsAnchor(pool, file, desired, i, l, es[0]);
      }
      AnchorStays(pool, file, desired, i, MergeBackend(pool, l, es[0], ApplyToBaseline).value, es[1..]);
    }
  }

  // What file backend `k` contributes leaves every other name, and its own if it is found.
  lemma FileEntryIsHarmless(file: seq<Backend>, desired: seq<Backend>, i: nat, k: nat, e: Backend)
    requires Traceable(file, desired) && i < |file| && HasName(file[i]) && k < |file|
    requires e in FileEntry(file[k], desired)
    requires k == i ==> FindBackend(desired, file[i]) < |desired|
    ensures Harmless(file, desired, i, e)
  {
    FileEntryIs(file, desired, k, e);
    if k != i {
      assert BackendRoundTrip.Apart(file[i], file[k]);
      if !HasName(file[k]) { LoneAddress(file, k, i); }
    }
  }

  lemma EntryIsHarmless(file: seq<Backend>, desired: seq<Backend>, i: nat, e: Backend)
    requires Traceable(file, desired) && i < |file| && HasName(file[i]) && FindBackend(desired, file[i]) < |desired|
    requires e in SynthesizeBackends(file, desired)
    ensures Harmless(file, desired, i, e)
  {
    EntriesFrom(file, desired, e);
    if FromFile(file, desired, e) {
      var k :| 0 <= k < |file| && e in FileEntry(file[k], desired);
      FileEntryIsHarmless(file, desired, i, k, e);
    } else {
      var j :| 0 <= j < |desired| && FindBackend(file, desired[j]) == |file| && e == desired[j].(remove := None);
      AdditionIs(file, desired, j);
    }
  }

  lemma FileIsAnchored(file: seq<Backend>, desired: seq<Backend>, i: nat)
    requires Identified(file) && i < |file| && HasName(file[i])
    ensures Anchored(file, desired, i, file)
  {
    HasIf(file, i, file[i].name.value);
    forall q | 0 <= q < |file| && q != i ensures file[q].name != file[i].name {
      assert BackendRoundTrip.Apart(file[i], file[q]);
    }
  }

  // A file backend whose name or address is desired stays, whatever else happens.
  lemma AliasedIsNeverRemoved(pool: string, file: seq<Backend>, desired: seq<Backend>, i: nat)
    requires Traceable(file, desired) && i < |file| && HasName(file[i])
    requires FindBackend(desired, file[i]) < |desired|
    ensures var r := MergeBackends(pool, file, SynthesizeBackends(file, desired), ApplyToBaseline);
            r.Ok? ==> Has(r.value, file[i].name.value)
  {
    var es := SynthesizeBackends(file, desired);
    forall e | e in es ensures Harmless(file, desired, i, e) { EntryIsHarmless(file, desired, i, e); }
    FileIsAnchored(file, desired, i);
    if MergeBackends(pool, file, es, ApplyToBaseline).Ok? { AnchorStays(pool, file, desired, i, file, es); }
  }

  // ----- A name that never comes -----

  lemma EntryKeepsLack(pool: string, base: seq<Backend>, e: Backend, name: string)
    requires name != "" && MergeBackend(pool, base, e, ApplyToBaseline).Ok?
    requires NoName(base, name) && (e.name == Some(name) ==> e.address == "")
    ensures e.name != Some(name) && NoName(MergeBackend(pool, base, e, ApplyToBaseline).value, name)
  {
    if IsRemoval(e) {
      assert IndexOfName(base, name) == |base|;
      WithoutIsSubset(base, if HasName(e) then e.name.value else e.address);
      var next := MergeBackend(pool, base, e, ApplyToBaseline).value;
      forall q | 0 <= q < |next| ensures next[q].name != Some(name) { assert next[q] in base; }
    }
  }

  // Entries under a name that the list lacks, none of them with an address: the merge
  // fails if there is one, and brings no such name otherwise.
  lemma {:induction false} NameNeverComes(pool: string, base: seq<Backend>, es: seq<Backend>, name: string)
    requires name != "" && NoName(base, name)
    requires forall e :: e in es && e.name == Some(name) ==> e.address == ""
    ensures var r := MergeBackends(pool, base, es, ApplyToBaseline);
            && (r.Ok? ==> NoName(r.value, name))
            && ((exists e :: e in es && e.name == Some(name)) ==> r.Err?)
    decreases |es|
  {
    if es != [] {
      assert es[0] in es;
      var next := MergeBackend(pool, base, es[0], ApplyToBaseline);
      if next.Ok? {
        EntryKeepsLack(pool, base, es[0], name);
        NameNeverComes(pool, next.value, es[1..], name);
        assert forall e :: e in es ==> e == es[0] || e in es[1..];
      }
    }
  }

  // A desired name that the file lacks, at an address that the file has: every entry
  // under that name comes without an address.
  lemma NoAddressFor(file: seq<Backend>, desired: seq<Backend>, j: nat, e: Backend)
    requires Traceable(file, desired) && j < |desired| && HasName(desired[j]) && NoName(file, desired[j].name.value)
    requires FindBackend(file, desired[j]) < |file|
    requires e in SynthesizeBackends(file, desired) && e.name == desired[j].name
    ensures e.address == ""
  {
    EntriesFrom(file, desired, e);
    if FromFile(file, desired, e) {
      var i :| 0 <= i < |file| && e in FileEntry(file[i], desired);
      FileEntryIs(file, desired, i, e);
      var k := FindBackend(desired, file[i]);
      if k < |desired| && k != j { assert NameApart(desired[j], desired[k]); }
    } else {
      var k :| 0 <= k < |desired| && FindBackend(file, desired[k]) == |file| && e == desired[k].(remove := None);
      AddedIsAnother(file, desired, j, k);
    }
  }

  lemma AddedIsAnother(file: seq<Backend>, desired: seq<Backend>, j: nat, k: nat)
    requires NamesOnce(desired) && j < |desired| && k < |desired| && HasName(desired[j])
    requires FindBackend(file, desired[j]) < |file| && FindBackend(file, desired[k]) == |file|
    ensures desired[k].name != desired[j].name
  {
    assert k != j && NameApart(desired[j], desired[k]);
  }

  // It is never added: the merge fails, or silently goes on without it.
  lemma AliasedIsNeverAdded(pool: string, file: seq<Backend>, desired: seq<Backend>, j: nat)
    requires Traceable(file, desired) && j < |desired| && HasName(desired[j]) && NoName(file, desired[j].name.value)
    requires !NoAddress(file, desired[j].address)
    ensures var r := MergeBackends(pool, file, SynthesizeBackends(file, desired), ApplyToBaseline);
            r.Ok? ==> NoName(r.value, desired[j].name.value)
  {
    var es, name := SynthesizeBackends(file, desired), desired[j].name.value;
    assert FindBackend(file, desired[j]) < |file|;
    forall e | e in es && e.name == Some(name) ensures e.address == "" { NoAddressFor(file, desired, j, e); }
    NameNeverComes(pool, file, es, name);
  }

  // ----- What is refused -----

  // The file backend finds, by its address, a desired backend whose name the file lacks.
  // Synthesis then emits an entry under that name and without an address.
  predicate Stuck(file: seq<Backend>, desired: seq<Backend>, f: Backend) {
    var k := FindBackend(desired, f);
    k < |desired| && HasName(desired[k]) && !Mentions(file, desired[k])
  }

  lemma {:induction false} EntryIsEmitted(file: seq<Backend>, i: nat, desired: seq<Backend>, e: Backend)
    requires i < |file| && e in FileEntry(file[i], desired)
    ensures e in FileEntries(file, desired)
  {
    if i > 0 { EntryIsEmitted(file[1..], i - 1, desired, e); }
  }

  lemma StuckFindsByAddress(file: seq<Backend>, desired: seq<Backend>, i: nat)
    requires Traceable(file, desired) && i < |file| && Stuck(file, desired, file[i])
    ensures var k := FindBackend(desired, file[i]);
            && BackendDelta(file[i], desired[k]).Some?
            && BackendDelta(file[i], desired[k]).value.name == desired[k].name
            && FindBackend(file, desired[k]) < |file| && NoName(file, desired[k].name.value)
  {
    var k := FindBackend(desired, file[i]);
    assert NoName(file, desired[k].name.value);
    assert desired[k].address == file[i].address;
    assert IndexOfAddress(file, file[i].address) <= i;
  }

  lemma StuckIsRefused(pool: string, file: seq<Backend>, desired: seq<Backend>, i: nat)
    requires Traceable(file, desired) && i < |file| && Stuck(file, desired, file[i])
    ensures MergeBackends(pool, file, SynthesizeBackends(file, desired), ApplyToBaseline).Err?
  {
    var es, k := SynthesizeBackends(file, desired), FindBackend(desired, file[i]);
    StuckFindsByAddress(file, desired, i);
    var e := BackendDelta(file[i], desired[k]).value;
    EntryIsEmitted(file, i, desired, e);
    assert e in es;
    forall x | x in es && x.name == Some(desired[k].name.value) ensures x.address == "" {
      NoAddressFor(file, desired, k, x);
    }
    NameNeverComes(pool, file, es, desired[k].name.value);
  }

  // While entry `i` is worked on: the names from there on are all in the list, and so
  // are the file's names that are desired; a backend without a name whose address is not
  // desired is there until its turn comes.
  ghost predicate Ready(file: seq<Backend>, desired: seq<Backend>, i: nat, l: seq<Backend>) {
    forall j :: 0 <= j < |file| ==> ReadyAt(file, desired, i, l, j)
  }

  ghost predicate ReadyAt(file: seq<Backend>, desired: seq<Backend>, i: nat, l: seq<Backend>, j: nat)
    requires j < |file|
  {
    if HasName(file[j]) then j >= i || Mentions(desired, file[j]) ==> Anchored(file, desired, j, l)
    else j >= i && NoAddress(desired, file[j].address) ==> file[j] in l
  }

  lemma {:induction false} ShorterWithout(l: seq<Backend>, name: string)
    requires Has(l, name)
    ensures |WithoutName(l, name)| < |l|
  {
    if l[0].name != Some(name) { ShorterWithout(l[1..], name); }
  }

  lemma {:induction false} ShorterAt(l: seq<Backend>, address: string)
    requires !NoAddress(l, address)
    ensures |WithoutAddress(l, address)| < |l|
  {
    if l[0].address != address {
      var i :| 0 <= i < |l| && l[i].address == address;
      assert l[1..][i - 1] == l[i];
      ShorterAt(l[1..], address);
    }
  }

  // The entry of a file backend that is not stuck succeeds.
  lemma EntrySucceeds(pool: string, file: seq<Backend>, desired: seq<Backend>, i: nat, l: seq<Backend>, e: Backend)
    requires Traceable(file, desired) && i < |file| && Ready(file, desired, i, l)
    requires !Stuck(file, desired, file[i]) && e in FileEntry(file[i], desired)
    ensures MergeBackend(pool, l, e, ApplyToBaseline).Ok?
  {
    var f, k := file[i], FindBackend(desired, file[i]);
    FileEntryIs(file, desired, i, e);
    assert ReadyAt(file, desired, i, l, i);
    if k == |desired| {
      if HasName(f) { ShorterWithout(l, f.name.value); } else { ShorterAt(l, f.address); }
    } else if HasName(desired[k]) {
      var j := IndexOfName(file, desired[k].name.value);
      assert HasName(file[j]) && desired[k].name == Some(file[j].name.value);
      HasIf(desired, k, file[j].name.value);
      assert ReadyAt(file, desired, i, l, j) && Has(l, e.name.value);
    }
  }

  // A backend without a name and at an address that is not desired: only its own marker
  // touches it.
  lemma UnnamedStays(pool: string, file: seq<Backend>, desired: seq<Backend>, i: nat, l: seq<Backend>, e: Backend,
                     j: nat)
    requires Traceable(file, desired) && i < |file| && j < |file| && j != i && e in FileEntry(file[i], desired)
    requires !HasName(file[j]) && NoAddress(desired, file[j].address) && file[j] in l
    requires MergeBackend(pool, l, e, ApplyToBaseline).Ok?
    ensures file[j] in MergeBackend(pool, l, e, ApplyToBaseline).value
  {
    FileEntryIs(file, desired, i, e);
    LoneAddress(file, j, i);
    var next := MergeBackend(pool, l, e, ApplyToBaseline).value;
    var q :| 0 <= q < |l| && l[q] == file[j];
    if IsRemoval(e) {
      if HasName(e) { UnnamedOutlives(l, file[j], e.name.value); } else { OtherAddressStays(l, file[j], e.address); }
    } else {
      assert next[q] == file[j];
    }
  }

  lemma {:induction false} UnnamedOutlives(l: seq<Backend>, b: Backend, name: string)
    requires b in l && b.name != Some(name)
    ensures b in WithoutName(l, name)
  {
    if b != l[0] { UnnamedOutlives(l[1..], b, name); }
  }

  lemma ReadyNextAt(pool: string, file: seq<Backend>, desired: seq<Backend>, i: nat, l: seq<Backend>, e: Backend,
                    j: nat)
    requires Traceable(file, desired) && i < |file| && j < |file| && e in FileEntry(file[i], desired)
    requires ReadyAt(file, desired, i, l, j) && MergeBackend(pool, l, e, ApplyToBaseline).Ok?
    ensures ReadyAt(file, desired, i + 1, MergeBackend(pool, l, e, ApplyToBaseline).value, j)
  {
    if !HasName(file[j]) {
      if j > i && NoAddress(desired, file[j].address) { UnnamedStays(pool, file, desired, i, l, e, j); }
    } else if j > i || Mentions(desired, file[j]) {
      FileEntryIsHarmless(file, desired, j, i, e);
      if IsRemoval(e) {
        RemovalKeepsAnchor(pool, file, desired, j, l, e);
      } else {
        UpdateKeepsAnchor(pool, file, desired, j, l, e);
      }
    }
  }

  lemma ReadyNext(pool: string, file: seq<Backend>, desired: seq<Backend>, i: nat, l: seq<Backend>, e: Backend)
    requires Traceable(file, desired) && i < |file| && Ready(file, desired, i, l) && e in FileEntry(file[i], desired)
    requires MergeBackend(pool, l, e, ApplyToBaseline).Ok?
    ensures Ready(file, desired, i + 1, MergeBackend(pool, l, e, ApplyToBaseline).value)
  {
    var next, l' := i + 1, MergeBackend(pool, l, e, ApplyToBaseline).value;
    forall j | 0 <= j < |file| ensures ReadyAt(file, desired, next, l', j) {
      assert ReadyAt(file, desired, i, l, j);
      ReadyNextAt(pool, file, desired, i, l, e, j);
    }
  }

  lemma ReadyWithout(file: seq<Backend>, desired: seq<Backend>, i: nat, l: seq<Backend>)
    requires Ready(file, desired, i, l)
    ensures Ready(file, desired, i + 1, l)
  {
    var next := i + 1;
    forall j | 0 <= j < |file| ensures ReadyAt(file, desired, next, l, j) { assert ReadyAt(file, desired, i, l, j); }
  }

  lemma EntryAlone(f: Backend, desired: seq<Backend>)
    ensures var entry := FileEntry(f, desired); entry == [] || (|entry| == 1 && entry[0] in entry)
  {
  }

  lemma {:induction false} FilePhaseSucceeds(pool: string, file: seq<Backend>, desired: seq<Backend>, i: nat,
                                             l: seq<Backend>)
    requires Traceable(file, desired) && i <= |file| && Ready(file, desired, i, l)
    requires forall j :: 0 <= j < |file| ==> !Stuck(file, desired, file[j])
    ensures MergeBackends(pool, l, FileEntries(file[i..], desired), ApplyToBaseline).Ok?
    decreases |file| - i
  {
    if i < |file| {
      var entry := FileEntry(file[i], desired);
      assert file[i..][0] == file[i] && file[i..][1..] == file[i + 1..];
      EntryAlone(file[i], desired);
      MergeBackendsSplit(pool, l, entry, FileEntries(file[i + 1..], desired), ApplyToBaseline);
      if entry == [] {
        ReadyWithout(file, desired, i, l);
        FilePhaseSucceeds(pool, file, desired, i + 1, l);
      } else {
        EntrySucceeds(pool, file, desired, i, l, entry[0]);
        ReadyNext(pool, file, desired, i, l, entry[0]);
        assert entry == [entry[0]];
        MergeOne(pool, l, entry[0], ApplyToBaseline);
        FilePhaseSucceeds(pool, file, desired, i + 1, MergeBackend(pool, l, entry[0], ApplyToBaseline).value);
      }
    }
  }

  // Entries with an address never fail.
  lemma {:induction false} AddressedSucceed(pool: string, l: seq<Backend>, es: seq<Backend>)
    requires forall e :: e in es ==> e.address != "" && !IsRemoval(e)
    ensures MergeBackends(pool, l, es, ApplyToBaseline).Ok?
    decreases |es|
  {
    if es != [] {
      assert es[0] in es;
      AddressedSucceed(pool, MergeBackend(pool, l, es[0], ApplyToBaseline).value, es[1..]);
    }
  }

  lemma AdditionsSucceed(pool: string, file: seq<Backend>, desired: seq<Backend>, l: seq<Backend>)
    requires Placed(desired)
    ensures MergeBackends(pool, l, Additions(file, desired), ApplyToBaseline).Ok?
  {
    forall e | e in Additions(file, desired) ensures e.address != "" && !IsRemoval(e) {
      assert desired[0..] == desired;
      AdditionsFrom(file, desired, 0, e);
    }
    AddressedSucceed(pool, l, Additions(file, desired));
  }

  // Merging the synthesized entries fails if and only if some file backend is stuck.
  lemma RefusedIff(pool: string, file: seq<Backend>, desired: seq<Backend>)
    requires Traceable(file, desired)
    ensures MergeBackends(pool, file, SynthesizeBackends(file, desired), ApplyToBaseline).Err?
            <==> exists i :: 0 <= i < |file| && Stuck(file, desired, file[i])
  {
    if i :| 0 <= i < |file| && Stuck(file, desired, file[i]) {
      StuckIsRefused(pool, file, desired, i);
    } else {
      forall j | 0 <= j < |file| ensures ReadyAt(file, desired, 0, file, j) {
        if HasName(file[j]) { FileIsAnchored(file, desired, j); }
      }
      FilePhaseSucceeds(pool, file, desired, 0, file);
      assert file[0..] == file;
      MergeBackendsSplit(pool, file, FileEntries(file, desired), Additions(file, desired), ApplyToBaseline);
      AdditionsSucceed(pool, file, desired,
                       MergeBackends(pool, file, FileEntries(file, desired), ApplyToBaseline).value);
    }
  }

  lemma SingleSynthesis(a: Backend, b: Backend)
    ensures FileEntries([a], [b]) == FileEntry(a, [b])
    ensures Additions([a], [b]) == if FindBackend([a], b) == 1 then [b.(remove := None)] else []
  {
    assert [a][1..] == [] && [b][1..] == [];
    assert FileEntries([], [b]) == [] && Additions([a], []) == [];
  }

  // Why empty names are set apart: to ask for one takes a backend's name away.
  lemma BlankTakesTheName(pool: string, a: Backend)
    requires HasName(a) && a.address != "" && a.remove.None?
    ensures var b := a.(name := Some(""));
            MergeBackends(pool, [a], SynthesizeBackends([a], [b]), ApplyToBaseline) == Ok([b])
  {
    var b := a.(name := Some(""));
    var e := BackendDelta(a, b).value;
    assert FindBackend([b], a) == 0 && FindBackend([a], b) == 0;
    SingleSynthesis(a, b);
    assert SynthesizeBackends([a], [b]) == [e];
    assert [a][0 := UpdateBackend(a, e)] == [b];
    MergeOne(pool, [a], e, ApplyToBaseline);
  }
}
