/**
 Accumulating backend patches and applying the result once, against applying the
 patches one after the other. The patches for a pool are keyed by name or by address.
 */
module AccumulateBackends {
  import opened Wrappers
  import opened ConfigModel
  import opened Merge
  import KeyedList

  // ----- Keyed entries as edits -----

  datatype Kind = ByName | ByAddress

  function Key(kind: Kind, b: Backend): Option<string> {
    match kind
    case ByName => if HasName(b) then b.name else None
    case ByAddress => Some(b.address)
  }

  function Keys(kind: Kind): Backend -> Option<string> {
    (b: Backend) => Key(kind, b)
  }

  // An overlay entry that is looked up by this kind of key. One with a name and an address
  // is looked up by its name.
  predicate Keyed(kind: Kind, e: Backend) {
    match kind
    case ByName => HasName(e)
    case ByAddress => !HasName(e) && e.address != ""
  }

  function KeyIn(kind: Kind, e: Backend): (key: string)
    requires Keyed(kind, e)
    ensures key != "" && Key(kind, e) == Some(key)
  {
    if kind.ByName? then e.name.value else e.address
  }

  function BackendEdit(kind: Kind, o: Backend): KeyedList.Edit<Backend>
    requires Keyed(kind, o)
  {
    var e := o.(remove := None);
    if IsRemoval(o) then KeyedList.Edit(KeyIn(kind, o), (b: Backend) => KeyedList.Drop, None)
    else KeyedList.Edit(KeyIn(kind, o), (b: Backend) => KeyedList.Keep(UpdateBackend(b, e)),
                        if e.address != "" then Some(e) else None)
  }

  ghost predicate AllKeyed(kind: Kind, l: seq<Backend>) {
    forall i :: 0 <= i < |l| ==> Keyed(kind, l[i])
  }

  function BackendEdits(kind: Kind, l: seq<Backend>): (r: seq<KeyedList.Edit<Backend>>)
    requires AllKeyed(kind, l)
    ensures |r| == |l| && forall i :: 0 <= i < |l| ==> r[i] == BackendEdit(kind, l[i])
  {
    seq(|l|, i requires 0 <= i < |l| => BackendEdit(kind, l[i]))
  }

  // Every entry is keyed in the same way, and each key is mentioned once.
  ghost predicate WellKeyed(kind: Kind, l: seq<Backend>) {
    AllKeyed(kind, l) && KeyedList.DistinctKeys(Keys(kind), l)
  }

  lemma BackendEditKeepsKey(kind: Kind, o: Backend)
    requires Keyed(kind, o)
    ensures KeyedList.KeepsKey(Keys(kind), BackendEdit(kind, o)) && BackendEdit(kind, o).key == KeyIn(kind, o)
  {
  }

  lemma BackendEditsKeepKeys(kind: Kind, l: seq<Backend>)
    requires AllKeyed(kind, l)
    ensures KeyedList.AllKeepKeys(Keys(kind), BackendEdits(kind, l))
  {
    forall i | 0 <= i < |l| ensures KeyedList.KeepsKey(Keys(kind), BackendEdits(kind, l)[i]) {
      BackendEditKeepsKey(kind, l[i]);
    }
  }

  ghost predicate Agrees<T(!new)>(r: Result<T, ConfigError>, o: Option<T>) {
    if o.Some? then r == Ok(o.value) else r.Err?
  }

  // The first entry with a key, as the code looks it up.
  function Position(kind: Kind, l: seq<Backend>, key: string): (i: nat)
    ensures i <= |l|
  {
    if kind.ByName? then IndexOfName(l, key) else IndexOfAddress(l, key)
  }

  lemma PositionIs(kind: Kind, l: seq<Backend>, key: string)
    requires key != ""
    ensures var i := Position(kind, l, key);
            && (i < |l| ==> Keys(kind)(l[i]) == Some(key))
            && (forall k :: 0 <= k < i ==> Keys(kind)(l[k]) != Some(key))
            && (i < |l| <==> KeyedList.At(Keys(kind), l, key).Some?)
  {
  }

  function Dropped(kind: Kind, l: seq<Backend>, key: string): seq<Backend> {
    if kind.ByName? then WithoutName(l, key) else WithoutAddress(l, key)
  }

  lemma {:induction false} DroppedIs(kind: Kind, l: seq<Backend>, key: string)
    requires key != ""
    ensures Dropped(kind, l, key) == KeyedList.Without(Keys(kind), l, key)
    ensures Position(kind, l, key) < |l| <==> |Dropped(kind, l, key)| < |l|
  {
    if l != [] { DroppedIs(kind, l[1..], key); }
  }

  lemma MergeBackendIsEdit(kind: Kind, pool: string, base: seq<Backend>, o: Backend)
    requires Keyed(kind, o)
    ensures Agrees(MergeBackend(pool, base, o, ApplyToBaseline),
                   KeyedList.Apply(Keys(kind), base, BackendEdit(kind, o)))
  {
    var key := KeyIn(kind, o);
    var i := Position(kind, base, key);
    PositionIs(kind, base, key);
    DroppedIs(kind, base, key);
    if i < |base| {
      KeyedList.ApplyFirst(Keys(kind), base, i, BackendEdit(kind, o));
    } else {
      KeyedList.ApplyMissing(Keys(kind), base, BackendEdit(kind, o));
    }
  }

  lemma {:induction false} MergeBackendsIsRun(kind: Kind, pool: string, base: seq<Backend>, os: seq<Backend>)
    requires AllKeyed(kind, os)
    ensures Agrees(MergeBackends(pool, base, os, ApplyToBaseline),
                   KeyedList.Run(Keys(kind), base, BackendEdits(kind, os)))
    decreases |os|
  {
    if os != [] {
      MergeBackendIsEdit(kind, pool, base, os[0]);
      var next := KeyedList.Apply(Keys(kind), base, BackendEdit(kind, os[0]));
      assert BackendEdits(kind, os)[1..] == BackendEdits(kind, os[1..]);
      if next.Some? { MergeBackendsIsRun(kind, pool, next.value, os[1..]); }
    }
  }

  // ----- One more entry -----

  predicate Holds(kind: Kind, l: seq<Backend>, key: string) {
    Position(kind, l, key) < |l|
  }

  predicate Tombstoned(kind: Kind, l: seq<Backend>, key: string) {
    Holds(kind, l, key) && IsRemoval(l[Position(kind, l, key)])
  }

  // What a patch entry may say without upsetting the accumulated overlay: removals
  // name members of the file, and a key already removed is not mentioned again.
  ghost predicate Admissible(kind: Kind, file: seq<Backend>, acc: seq<Backend>, e: Backend) {
    && Keyed(kind, e)
    && !Tombstoned(kind, acc, KeyIn(kind, e))
    && (IsRemoval(e) ==> Holds(kind, file, KeyIn(kind, e)))
  }

  lemma OthersDiffer(kind: Kind, acc: seq<Backend>, i: nat)
    requires WellKeyed(kind, acc) && i < |acc|
    ensures forall k :: 0 <= k < |acc| && k != i ==> KeyIn(kind, acc[k]) != KeyIn(kind, acc[i])
    ensures Position(kind, acc, KeyIn(kind, acc[i])) == i
  {
    forall k | 0 <= k < |acc| && k != i ensures KeyIn(kind, acc[k]) != KeyIn(kind, acc[i]) {
      assert Keys(kind)(acc[k]) == Some(KeyIn(kind, acc[k])) && Keys(kind)(acc[i]) == Some(KeyIn(kind, acc[i]));
      if k < i {
        assert Keys(kind)(acc[k]) != Keys(kind)(acc[i]);
      } else {
        assert Keys(kind)(acc[i]) != Keys(kind)(acc[k]);
      }
    }
    PositionIs(kind, acc, KeyIn(kind, acc[i]));
  }

  lemma UpdatesFuse(kind: Kind, at: Option<Backend>, x: Backend, e: Backend)
    requires Keyed(kind, x) && Keyed(kind, e) && KeyIn(kind, x) == KeyIn(kind, e) && !IsRemoval(x) && !IsRemoval(e)
    requires at.None? ==> x.address != ""
    ensures Keyed(kind, UpdateBackend(x, e)) && KeyIn(kind, UpdateBackend(x, e)) == KeyIn(kind, x)
    ensures KeyedList.Fuses(at, BackendEdit(kind, x), BackendEdit(kind, e), BackendEdit(kind, UpdateBackend(x, e)))
  {
    if at.Some? {
      assert UpdateBackend(UpdateBackend(at.value, x.(remove := None)), e.(remove := None))
          == UpdateBackend(at.value, UpdateBackend(x, e).(remove := None));
    }
  }

  ghost predicate Matches(kind: Kind, pool: string, file: seq<Backend>, acc: seq<Backend>, eff: seq<Backend>) {
    WellKeyed(kind, acc) && MergeBackends(pool, file, acc, ApplyToBaseline) == Ok(eff)
  }

  lemma SetKeepsKeyed(kind: Kind, acc: seq<Backend>, i: nat, y: Backend)
    requires WellKeyed(kind, acc) && i < |acc| && Keyed(kind, y) && KeyIn(kind, y) == KeyIn(kind, acc[i])
    ensures WellKeyed(kind, acc[i := y])
    ensures BackendEdits(kind, acc[i := y]) == BackendEdits(kind, acc)[i := BackendEdit(kind, y)]
  {
    var acc' := acc[i := y];
    assert forall k :: 0 <= k < |acc| ==> Keys(kind)(acc'[k]) == Keys(kind)(acc[k]);
  }

  lemma AccumulateUpdate(kind: Kind, pool: string, file: seq<Backend>, acc: seq<Backend>, eff: seq<Backend>, e: Backend,
                         i: nat)
    requires Matches(kind, pool, file, acc, eff) && Keyed(kind, e) && !IsRemoval(e)
    requires i < |acc| && KeyIn(kind, acc[i]) == KeyIn(kind, e) && !IsRemoval(acc[i])
    requires MergeBackend(pool, eff, e, ApplyToBaseline).Ok?
    ensures Matches(kind, pool, file, acc[i := UpdateBackend(acc[i], e)],
                    MergeBackend(pool, eff, e, ApplyToBaseline).value)
  {
    var y, es := UpdateBackend(acc[i], e), BackendEdits(kind, acc);
    BackendEditsKeepKeys(kind, acc);
    BackendEditKeepsKey(kind, e);
    OthersDiffer(kind, acc, i);
    MergeBackendsIsRun(kind, pool, file, acc);
    KeyedList.RunTouches(Keys(kind), file, es, i);
    UpdatesFuse(kind, KeyedList.At(Keys(kind), file, KeyIn(kind, e)), acc[i], e);
    KeyedList.FuseInto(Keys(kind), file, es, i, BackendEdit(kind, e), BackendEdit(kind, y));
    SetKeepsKeyed(kind, acc, i, y);
    MergeBackendsIsRun(kind, pool, file, acc[i := y]);
    MergeBackendIsEdit(kind, pool, eff, e);
  }

  lemma ExtendKeyed(kind: Kind, acc: seq<Backend>, e: Backend)
    requires WellKeyed(kind, acc) && Keyed(kind, e) && !Holds(kind, acc, KeyIn(kind, e))
    ensures WellKeyed(kind, acc + [e])
  {
    var l := acc + [e];
    PositionIs(kind, acc, KeyIn(kind, e));
    forall a, b | 0 <= a < b < |l| && Keys(kind)(l[a]).Some? ensures Keys(kind)(l[a]) != Keys(kind)(l[b]) {
      if b < |acc| { assert Keys(kind)(acc[a]) != Keys(kind)(acc[b]); }
    }
  }

  lemma AccumulateAppend(kind: Kind, pool: string, file: seq<Backend>, acc: seq<Backend>, eff: seq<Backend>, e: Backend,
                         entry: Backend)
    requires Matches(kind, pool, file, acc, eff) && Keyed(kind, e) && !Holds(kind, acc, KeyIn(kind, e))
    requires Keyed(kind, entry) && KeyIn(kind, entry) == KeyIn(kind, e)
    requires BackendEdit(kind, entry) == BackendEdit(kind, e)
    requires MergeBackend(pool, eff, e, ApplyToBaseline).Ok?
    ensures Matches(kind, pool, file, acc + [entry], MergeBackend(pool, eff, e, ApplyToBaseline).value)
  {
    ExtendKeyed(kind, acc, entry);
    MergeBackendsIsRun(kind, pool, file, acc);
    MergeBackendIsEdit(kind, pool, eff, e);
    KeyedList.RunAppend(Keys(kind), file, BackendEdits(kind, acc), BackendEdit(kind, e));
    assert BackendEdits(kind, acc + [entry]) == BackendEdits(kind, acc) + [BackendEdit(kind, e)];
    MergeBackendsIsRun(kind, pool, file, acc + [entry]);
  }

  lemma KeyedWithout(kind: Kind, acc: seq<Backend>, i: nat)
    requires WellKeyed(kind, acc) && i < |acc|
    ensures var rest := acc[..i] + acc[i + 1..];
            && WellKeyed(kind, rest) && !Holds(kind, rest, KeyIn(kind, acc[i]))
            && Dropped(kind, acc, KeyIn(kind, acc[i])) == rest
  {
    var l, key := acc[..i] + acc[i + 1..], KeyIn(kind, acc[i]);
    OthersDiffer(kind, acc, i);
    assert forall k :: 0 <= k < |l| ==> l[k] == acc[if k < i then k else k + 1];
    forall a, b | 0 <= a < b < |l| && Keys(kind)(l[a]).Some? ensures Keys(kind)(l[a]) != Keys(kind)(l[b]) {
      assert Keys(kind)(acc[if a < i then a else a + 1]) != Keys(kind)(acc[if b < i then b else b + 1]);
    }
    PositionIs(kind, l, key);
    forall k | 0 <= k < |l| ensures Keys(kind)(l[k]) != Some(key) {
      assert KeyIn(kind, acc[if k < i then k else k + 1]) != key;
    }
    DropOne(kind, acc, i, key);
  }

  lemma DropOne(kind: Kind, acc: seq<Backend>, i: nat, key: string)
    requires i < |acc| && key != "" && Key(kind, acc[i]) == Some(key)
    requires forall k :: 0 <= k < |acc| && k != i ==> Key(kind, acc[k]) != Some(key)
    ensures Dropped(kind, acc, key) == acc[..i] + acc[i + 1..]
  {
    var p, x, t := acc[..i], acc[i], acc[i + 1..];
    assert acc == p + [x] + t;
    if kind.ByName? { DropByName(p, x, t, key); } else { DropByAddress(p, x, t); }
  }

  function Marker(kind: Kind, key: string): Backend {
    if kind.ByName? then DEFAULT_BACKEND.(name := Some(key), remove := Some(true))
    else DEFAULT_BACKEND.(address := key, remove := Some(true))
  }

  lemma MarkerIs(kind: Kind, e: Backend)
    requires Keyed(kind, e) && IsRemoval(e)
    ensures var m := Marker(kind, KeyIn(kind, e));
            Keyed(kind, m) && KeyIn(kind, m) == KeyIn(kind, e) && BackendEdit(kind, m) == BackendEdit(kind, e)
  {
  }

  lemma RemovalRun(kind: Kind, pool: string, file: seq<Backend>, acc: seq<Backend>, eff: seq<Backend>, e: Backend,
                   i: nat)
    requires Matches(kind, pool, file, acc, eff) && Keyed(kind, e) && IsRemoval(e)
    requires i < |acc| && KeyIn(kind, acc[i]) == KeyIn(kind, e) && !IsRemoval(acc[i])
    requires Holds(kind, file, KeyIn(kind, e))
    ensures var es := BackendEdits(kind, acc);
            KeyedList.Run(Keys(kind), file, (es[..i] + es[i + 1..]) + [BackendEdit(kind, e)])
            == KeyedList.Apply(Keys(kind), eff, BackendEdit(kind, e))
  {
    var es := BackendEdits(kind, acc);
    BackendEditsKeepKeys(kind, acc);
    BackendEditKeepsKey(kind, e);
    OthersDiffer(kind, acc, i);
    PositionIs(kind, file, KeyIn(kind, e));
    MergeBackendsIsRun(kind, pool, file, acc);
    KeyedList.RemoveSupersedes(Keys(kind), file, es, i, BackendEdit(kind, e));
    KeyedList.RunAppend(Keys(kind), file, es[..i] + es[i + 1..], BackendEdit(kind, e));
  }

  lemma EditsWithout(kind: Kind, acc: seq<Backend>, i: nat, marker: Backend, next: seq<Backend>)
    requires AllKeyed(kind, acc) && i < |acc| && Keyed(kind, marker) && next == acc[..i] + acc[i + 1..] + [marker]
    ensures AllKeyed(kind, next)
    ensures BackendEdits(kind, next)
            == (BackendEdits(kind, acc)[..i] + BackendEdits(kind, acc)[i + 1..]) + [BackendEdit(kind, marker)]
  {
  }

  lemma AccumulateRemoval(kind: Kind, pool: string, file: seq<Backend>, acc: seq<Backend>, eff: seq<Backend>,
                          e: Backend,
                          i: nat)
    requires Matches(kind, pool, file, acc, eff) && Keyed(kind, e) && IsRemoval(e)
    requires i < |acc| && KeyIn(kind, acc[i]) == KeyIn(kind, e) && !IsRemoval(acc[i])
    requires Holds(kind, file, KeyIn(kind, e))
    requires MergeBackend(pool, eff, e, ApplyToBaseline).Ok?
    ensures Matches(kind, pool, file, acc[..i] + acc[i + 1..] + [Marker(kind, KeyIn(kind, e))],
                    MergeBackend(pool, eff, e, ApplyToBaseline).value)
  {
    var marker := Marker(kind, KeyIn(kind, e));
    var next := acc[..i] + acc[i + 1..] + [marker];
    MarkerIs(kind, e);
    RemovalRun(kind, pool, file, acc, eff, e, i);
    MergeBackendIsEdit(kind, pool, eff, e);
    KeyedWithout(kind, acc, i);
    ExtendKeyed(kind, acc[..i] + acc[i + 1..], marker);
    EditsWithout(kind, acc, i, marker, next);
    MergeBackendsIsRun(kind, pool, file, next);
  }

  // What accumulating one entry does.
  lemma AccumulateIs(kind: Kind, pool: string, acc: seq<Backend>, e: Backend)
    requires Keyed(kind, e)
    ensures var i, r := Position(kind, acc, KeyIn(kind, e)), MergeBackend(pool, acc, e, AccumulateOverlay);
            r == if IsRemoval(e) then Ok(Dropped(kind, acc, KeyIn(kind, e)) + [Marker(kind, KeyIn(kind, e))])
                 else if i < |acc| then Ok(acc[i := UpdateBackend(acc[i], e)])
                 else if e.address != "" then Ok(acc + [e.(remove := None)])
                 else Err(UnknownBackendName(pool, KeyIn(kind, e)))
  {
  }

  lemma AccumulateOne(kind: Kind, pool: string, file: seq<Backend>, acc: seq<Backend>, eff: seq<Backend>, e: Backend)
    requires Matches(kind, pool, file, acc, eff) && Admissible(kind, file, acc, e)
    requires MergeBackend(pool, eff, e, ApplyToBaseline).Ok?
    requires MergeBackend(pool, acc, e, AccumulateOverlay).Ok?
    ensures Matches(kind, pool, file, MergeBackend(pool, acc, e, AccumulateOverlay).value,
                    MergeBackend(pool, eff, e, ApplyToBaseline).value)
  {
    var key := KeyIn(kind, e);
    var i := Position(kind, acc, key);
    AccumulateIs(kind, pool, acc, e);
    PositionIs(kind, acc, key);
    DroppedIs(kind, acc, key);
    if i < |acc| {
      if IsRemoval(e) {
        KeyedWithout(kind, acc, i);
        AccumulateRemoval(kind, pool, file, acc, eff, e, i);
      } else {
        AccumulateUpdate(kind, pool, file, acc, eff, e, i);
      }
    } else if IsRemoval(e) {
      MarkerIs(kind, e);
      NothingDropped(kind, acc, key);
      AccumulateAppend(kind, pool, file, acc, eff, e, Marker(kind, key));
    } else {
      AccumulateAppend(kind, pool, file, acc, eff, e, e.(remove := None));
    }
  }

  lemma NothingDropped(kind: Kind, l: seq<Backend>, key: string)
    requires !Holds(kind, l, key)
    ensures Dropped(kind, l, key) == l
  {
  }

  // ----- Whole patches -----

  function KeysOf(kind: Kind, l: seq<Backend>): set<string> {
    set i | 0 <= i < |l| && Key(kind, l[i]).Some? :: Key(kind, l[i]).value
  }

  function RemovedBy(kind: Kind, l: seq<Backend>): set<string> {
    set i | 0 <= i < |l| && IsRemoval(l[i]) && Key(kind, l[i]).Some? :: Key(kind, l[i]).value
  }

  // Removals of the patch name members of the file.
  ghost predicate PatchFits(kind: Kind, file: seq<Backend>, patch: seq<Backend>) {
    WellKeyed(kind, patch) && RemovedBy(kind, patch) <= KeysOf(kind, file)
  }

  lemma {:induction false} DroppedIsSubset(kind: Kind, l: seq<Backend>, key: string)
    ensures forall b :: b in Dropped(kind, l, key) ==> b in l
  {
    if l != [] {
      DroppedIsSubset(kind, l[1..], key);
      assert Dropped(kind, l, key) == Dropped(kind, l[1..], key)
          || Dropped(kind, l, key) == [l[0]] + Dropped(kind, l[1..], key);
    }
  }

  lemma RemovedGrows(kind: Kind, pool: string, acc: seq<Backend>, e: Backend)
    requires WellKeyed(kind, acc) && Keyed(kind, e) && MergeBackend(pool, acc, e, AccumulateOverlay).Ok?
    ensures var acc' := MergeBackend(pool, acc, e, AccumulateOverlay).value;
            RemovedBy(kind, acc') <= RemovedBy(kind, acc) + (if IsRemoval(e) then {KeyIn(kind, e)} else {})
  {
    var acc', key := MergeBackend(pool, acc, e, AccumulateOverlay).value, KeyIn(kind, e);
    AccumulateIs(kind, pool, acc, e);
    DroppedIsSubset(kind, acc, key);
    forall n | n in RemovedBy(kind, acc') && !(IsRemoval(e) && n == key) ensures n in RemovedBy(kind, acc) {
      var k :| 0 <= k < |acc'| && IsRemoval(acc'[k]) && Key(kind, acc'[k]) == Some(n);
      assert acc'[k] in acc;
    }
  }

  lemma TailKeys(kind: Kind, patch: seq<Backend>)
    requires WellKeyed(kind, patch) && patch != []
    ensures WellKeyed(kind, patch[1..])
    ensures KeysOf(kind, patch) == {KeyIn(kind, patch[0])} + KeysOf(kind, patch[1..])
    ensures KeyIn(kind, patch[0]) !in KeysOf(kind, patch[1..])
    ensures RemovedBy(kind, patch)
            == (if IsRemoval(patch[0]) then {KeyIn(kind, patch[0])} else {}) + RemovedBy(kind, patch[1..])
  {
    var t := patch[1..];
    assert forall k :: 0 <= k < |t| ==> t[k] == patch[k + 1];
    forall a, b | 0 <= a < b < |t| && Keys(kind)(t[a]).Some? ensures Keys(kind)(t[a]) != Keys(kind)(t[b]) {
      assert Keys(kind)(patch[a + 1]) != Keys(kind)(patch[b + 1]);
    }
    forall k | 0 <= k < |t| ensures Key(kind, t[k]) != Key(kind, patch[0]) {
      assert Keys(kind)(patch[0]) != Keys(kind)(patch[k + 1]);
    }
    forall n | n in KeysOf(kind, patch) ensures n == KeyIn(kind, patch[0]) || n in KeysOf(kind, t) {
      var k :| 0 <= k < |patch| && Key(kind, patch[k]) == Some(n);
      if k > 0 { assert t[k - 1] == patch[k]; }
    }
    forall n | n in RemovedBy(kind, patch)
      ensures (IsRemoval(patch[0]) && n == KeyIn(kind, patch[0])) || n in RemovedBy(kind, t)
    {
      var k :| 0 <= k < |patch| && IsRemoval(patch[k]) && Key(kind, patch[k]) == Some(n);
      if k > 0 { assert t[k - 1] == patch[k]; }
    }
    forall n | n in KeysOf(kind, t) ensures n in KeysOf(kind, patch) {
      var k :| 0 <= k < |t| && Key(kind, t[k]) == Some(n);
      assert patch[k + 1] == t[k];
    }
    forall n | n in RemovedBy(kind, t) ensures n in RemovedBy(kind, patch) {
      var k :| 0 <= k < |t| && IsRemoval(t[k]) && Key(kind, t[k]) == Some(n);
      assert patch[k + 1] == t[k];
    }
  }

  lemma TombstonedIsRemoved(kind: Kind, l: seq<Backend>, key: string)
    requires key != "" && Tombstoned(kind, l, key)
    ensures key in RemovedBy(kind, l)
  {
    PositionIs(kind, l, key);
    assert Key(kind, l[Position(kind, l, key)]) == Some(key);
  }

  lemma HeadIsAdmissible(kind: Kind, file: seq<Backend>, acc: seq<Backend>, patch: seq<Backend>)
    requires PatchFits(kind, file, patch) && RemovedBy(kind, acc) !! KeysOf(kind, patch) && patch != []
    ensures Admissible(kind, file, acc, patch[0])
  {
    var n := KeyIn(kind, patch[0]);
    assert n in KeysOf(kind, patch);
    if Tombstoned(kind, acc, n) { TombstonedIsRemoved(kind, acc, n); }
    if IsRemoval(patch[0]) {
      assert n in RemovedBy(kind, patch);
      var k :| 0 <= k < |file| && Key(kind, file[k]) == Some(n);
      PositionIs(kind, file, n);
      assert Keys(kind)(file[k]) == Some(n);
    }
  }

  lemma AccumulateOneKeepsShape(kind: Kind, pool: string, acc: seq<Backend>, e: Backend)
    requires WellKeyed(kind, acc) && Keyed(kind, e) && MergeBackend(pool, acc, e, AccumulateOverlay).Ok?
    ensures WellKeyed(kind, MergeBackend(pool, acc, e, AccumulateOverlay).value)
  {
    var key := KeyIn(kind, e);
    var i := Position(kind, acc, key);
    AccumulateIs(kind, pool, acc, e);
    PositionIs(kind, acc, key);
    if i < |acc| {
      assert KeyIn(kind, acc[i]) == key;
      if IsRemoval(e) {
        KeyedWithout(kind, acc, i);
        MarkerIs(kind, e);
        ExtendKeyed(kind, acc[..i] + acc[i + 1..], Marker(kind, key));
      } else {
        SetKeepsKeyed(kind, acc, i, UpdateBackend(acc[i], e));
      }
    } else if IsRemoval(e) {
      NothingDropped(kind, acc, key);
      MarkerIs(kind, e);
      ExtendKeyed(kind, acc, Marker(kind, key));
    } else {
      ExtendKeyed(kind, acc, e.(remove := None));
    }
  }

  lemma {:induction false} AccumulateKeepsShape(kind: Kind, pool: string, acc: seq<Backend>, patch: seq<Backend>)
    requires WellKeyed(kind, acc) && WellKeyed(kind, patch) && MergeBackends(pool, acc, patch, AccumulateOverlay).Ok?
    ensures var acc' := MergeBackends(pool, acc, patch, AccumulateOverlay).value;
            WellKeyed(kind, acc') && RemovedBy(kind, acc') <= RemovedBy(kind, acc) + RemovedBy(kind, patch)
    decreases |patch|
  {
    if patch != [] {
      AccumulateOneKeepsShape(kind, pool, acc, patch[0]);
      RemovedGrows(kind, pool, acc, patch[0]);
      TailKeys(kind, patch);
      AccumulateKeepsShape(kind, pool, MergeBackend(pool, acc, patch[0], AccumulateOverlay).value, patch[1..]);
    }
  }

  // Accumulating a patch commutes with applying it, whenever both succeed.
  lemma {:induction false} AccumulatePatch(kind: Kind, pool: string, file: seq<Backend>, acc: seq<Backend>,
                                           eff: seq<Backend>, patch: seq<Backend>, acc': seq<Backend>,
                                           eff': seq<Backend>)
    requires Matches(kind, pool, file, acc, eff)
    requires PatchFits(kind, file, patch) && RemovedBy(kind, acc) !! KeysOf(kind, patch)
    requires MergeBackends(pool, eff, patch, ApplyToBaseline) == Ok(eff')
    requires MergeBackends(pool, acc, patch, AccumulateOverlay) == Ok(acc')
    ensures Matches(kind, pool, file, acc', eff')
    decreases |patch|
  {
    if patch != [] {
      HeadIsAdmissible(kind, file, acc, patch);
      AccumulateOne(kind, pool, file, acc, eff, patch[0]);
      var acc1 := MergeBackend(pool, acc, patch[0], AccumulateOverlay).value;
      var eff1 := MergeBackend(pool, eff, patch[0], ApplyToBaseline).value;
      RemovedGrows(kind, pool, acc, patch[0]);
      TailKeys(kind, patch);
      AccumulatePatch(kind, pool, file, acc1, eff1, patch[1..], acc', eff');
    }
  }

  // ----- Applying follows from accumulating -----

  // What the overlay leaves under a key it mentions but does not remove.
  lemma MentionedIsLeft(kind: Kind, pool: string, file: seq<Backend>, acc: seq<Backend>, eff: seq<Backend>, key: string)
    requires Matches(kind, pool, file, acc, eff) && key != "" && !Tombstoned(kind, acc, key)
    requires Holds(kind, acc, key) || Holds(kind, file, key)
    ensures Holds(kind, eff, key)
  {
    var es, i := BackendEdits(kind, acc), Position(kind, acc, key);
    BackendEditsKeepKeys(kind, acc);
    MergeBackendsIsRun(kind, pool, file, acc);
    PositionIs(kind, eff, key);
    PositionIs(kind, acc, key);
    if i < |acc| {
      assert KeyIn(kind, acc[i]) == key;
      OthersDiffer(kind, acc, i);
      KeyedList.RunLeaves(Keys(kind), file, es, i);
    } else {
      PositionIs(kind, file, key);
      AllAvoid(kind, acc, key);
      KeyedList.RunKeepsOthers(Keys(kind), file, es, key);
    }
  }

  lemma AllAvoid(kind: Kind, acc: seq<Backend>, key: string)
    requires AllKeyed(kind, acc) && key != "" && !Holds(kind, acc, key)
    ensures KeyedList.Avoids(BackendEdits(kind, acc), key)
  {
    PositionIs(kind, acc, key);
    forall i | 0 <= i < |acc| ensures BackendEdits(kind, acc)[i].key != key {
      assert Keys(kind)(acc[i]) != Some(key);
    }
  }

  lemma OneApplies(kind: Kind, pool: string, file: seq<Backend>, acc: seq<Backend>, eff: seq<Backend>, e: Backend)
    requires Matches(kind, pool, file, acc, eff) && Admissible(kind, file, acc, e)
    requires MergeBackend(pool, acc, e, AccumulateOverlay).Ok?
    ensures MergeBackend(pool, eff, e, ApplyToBaseline).Ok?
  {
    var key := KeyIn(kind, e);
    AccumulateIs(kind, pool, acc, e);
    if IsRemoval(e) {
      MentionedIsLeft(kind, pool, file, acc, eff, key);
      DroppedIs(kind, eff, key);
    } else if e.address == "" {
      MentionedIsLeft(kind, pool, file, acc, eff, key);
    }
  }

  // A patch that accumulates also applies to the effective list.
  lemma {:induction false} PatchApplies(kind: Kind, pool: string, file: seq<Backend>, acc: seq<Backend>,
                                        eff: seq<Backend>,
                                        patch: seq<Backend>)
    requires Matches(kind, pool, file, acc, eff)
    requires PatchFits(kind, file, patch) && RemovedBy(kind, acc) !! KeysOf(kind, patch)
    requires MergeBackends(pool, acc, patch, AccumulateOverlay).Ok?
    ensures MergeBackends(pool, eff, patch, ApplyToBaseline).Ok?
    decreases |patch|
  {
    if patch != [] {
      HeadIsAdmissible(kind, file, acc, patch);
      OneApplies(kind, pool, file, acc, eff, patch[0]);
      AccumulateOne(kind, pool, file, acc, eff, patch[0]);
      RemovedGrows(kind, pool, acc, patch[0]);
      TailKeys(kind, patch);
      PatchApplies(kind, pool, file, MergeBackend(pool, acc, patch[0], AccumulateOverlay).value,
                   MergeBackend(pool, eff, patch[0], ApplyToBaseline).value, patch[1..]);
    }
  }

  // ----- When accumulation is defined at all -----

  // Accumulation accepts a patch exactly when every update either brings an address
  // or names a backend the accumulated overlay already mentions.
  lemma {:induction false} AccumulationDefined(kind: Kind, pool: string, acc: seq<Backend>, patch: seq<Backend>)
    requires WellKeyed(kind, patch)
    ensures MergeBackends(pool, acc, patch, AccumulateOverlay).Ok?
       <==> forall e :: e in patch && !IsRemoval(e) ==>
              e.address != "" || (HasName(e) && Holds(kind, acc, e.name.value))
    decreases |patch|
  {
    if patch != [] {
      var e := patch[0];
      TailKeys(kind, patch);
      AccumulateIs(kind, pool, acc, e);
      var next := MergeBackend(pool, acc, e, AccumulateOverlay);
      assert patch == [e] + patch[1..];
      if next.Ok? {
        AccumulationDefined(kind, pool, next.value, patch[1..]);
        forall x | x in patch[1..] && kind.ByName?
          ensures Holds(kind, next.value, x.name.value) <==> Holds(kind, acc, x.name.value)
        {
          var k :| 0 <= k < |patch[1..]| && patch[1..][k] == x;
          assert Key(kind, patch[1..][k]) == Some(x.name.value) && x.name.value in KeysOf(kind, patch[1..]);
          HoldsOthers(pool, acc, e, x.name.value);
        }
      }
    }
  }

  // Two updates by name alone, of two backends of the file: each applies, also after the
  // other, but the second does not accumulate onto the first.
  lemma NameOnlyUpdatesDiverge(pool: string, file: seq<Backend>, a: Backend, b: Backend)
    requires HasName(a) && HasName(b) && a.name != b.name && a.address == b.address == ""
    requires !IsRemoval(a) && !IsRemoval(b) && Holds(ByName, file, a.name.value) && Holds(ByName, file, b.name.value)
    ensures MergeBackends(pool, file, [a] + [b], ApplyToBaseline).Ok?
    ensures MergeBackends(pool, [a], [b], AccumulateOverlay).Err?
  {
    var i, k := IndexOfName(file, a.name.value), IndexOfName(file, b.name.value);
    var once := file[i := UpdateBackend(file[i], a)];
    assert once[k].name == b.name;
    MergeOne(pool, file, a, ApplyToBaseline);
    MergeOne(pool, once, b, ApplyToBaseline);
    MergeBackendsSplit(pool, file, [a], [b], ApplyToBaseline);
    MergeOne(pool, [a], b, AccumulateOverlay);
    assert IndexOfName([a], b.name.value) == 1;
  }

  lemma HoldsOthers(pool: string, acc: seq<Backend>, e: Backend, name: string)
    requires HasName(e) && e.name != Some(name) && MergeBackend(pool, acc, e, AccumulateOverlay).Ok?
    ensures Holds(ByName, MergeBackend(pool, acc, e, AccumulateOverlay).value, name) <==> Holds(ByName, acc, name)
  {
    var acc' := MergeBackend(pool, acc, e, AccumulateOverlay).value;
    if IsRemoval(e) {
      WithoutOther(acc, e.name.value, name);
      assert Holds(ByName, acc', name) <==> Holds(ByName, WithoutName(acc, e.name.value), name) by {
        var w := WithoutName(acc, e.name.value);
        if Holds(ByName, w, name) { assert acc'[IndexOfName(w, name)].name == Some(name); }
        if Holds(ByName, acc', name) { assert w[IndexOfName(acc', name)].name == Some(name); }
      }
    } else {
      if Holds(ByName, acc, name) { assert acc'[IndexOfName(acc, name)].name == Some(name); }
      if Holds(ByName, acc', name) { assert acc[IndexOfName(acc', name)].name == Some(name); }
    }
  }

  lemma {:induction false} WithoutOther(l: seq<Backend>, name: string, other: string)
    requires name != other
    ensures Holds(ByName, WithoutName(l, name), other) <==> Holds(ByName, l, other)
  {
    if l != [] {
      WithoutOther(l[1..], name, other);
      if l[0].name != Some(name) { assert WithoutName(l, name)[1..] == WithoutName(l[1..], name); }
    }
  }

  // Removing a backend and adding it again. One after the other, the new entry goes
  // to the end as given; accumulated, the file's backend is updated in place and the
  // probe settings of the new entry are lost. The two agree only in the case stated.
  lemma RemoveThenAdd(kind: Kind, pool: string, file: seq<Backend>, i: nat, e: Backend)
    requires i < |file| && Keyed(kind, e) && Key(kind, file[i]) == Key(kind, e)
    requires forall k :: 0 <= k < |file| && k != i ==> Key(kind, file[k]) != Key(kind, e)
    requires e.address != "" && e.remove.None?
    ensures var marker := Marker(kind, KeyIn(kind, e));
            var accumulated := MergeBackends(pool, [marker], [e], AccumulateOverlay);
            && MergeBackends(pool, file, [marker] + [e], ApplyToBaseline) == Ok(file[..i] + file[i + 1..] + [e])
            && accumulated.Ok?
            && MergeBackends(pool, file, accumulated.value, ApplyToBaseline)
               == Ok(file[i := file[i].(address := e.address, remove := None,
                                        name := if e.name.Some? then e.name else file[i].name,
                                        weight := if e.weight.Some? then e.weight else file[i].weight)])
            && (MergeBackends(pool, file, accumulated.value, ApplyToBaseline)
                == MergeBackends(pool, file, [marker] + [e], ApplyToBaseline)
                <==> i == |file| - 1 && (file[i].weight.Some? ==> e.weight.Some?)
                     && (file[i].name.Some? ==> e.name.Some?)
                     && e.probeQname == file[i].probeQname && e.probeQtype == file[i].probeQtype
                     && e.probeSource == file[i].probeSource && e.transport == file[i].transport)
  {
    var key, rest := KeyIn(kind, e), file[..i] + file[i + 1..];
    var marker, both := Marker(kind, key), UpdateBackend(Marker(kind, key), e);
    AgainInTurn(kind, pool, file, i, e);
    AgainAccumulated(kind, pool, file, i, e);
    var inTurn, inPlace := rest + [e], file[i := UpdateBackend(file[i], both)];
    if i == |file| - 1 {
      assert inTurn == file[i := e];
      assert inTurn[i] == e && inPlace[i] == UpdateBackend(file[i], both);
    } else {
      LastIsNotFirst(kind, file, i, e, inPlace);
    }
  }

  lemma LastIsNotFirst(kind: Kind, file: seq<Backend>, i: nat, e: Backend, inPlace: seq<Backend>)
    requires i < |file| - 1 && Key(kind, file[|file| - 1]) != Key(kind, e)
    requires |inPlace| == |file| && inPlace[|file| - 1] == file[|file| - 1]
    ensures inPlace != file[..i] + file[i + 1..] + [e]
  {
    assert (file[..i] + file[i + 1..] + [e])[|file| - 1] == e;
  }

  lemma AgainInTurn(kind: Kind, pool: string, file: seq<Backend>, i: nat, e: Backend)
    requires i < |file| && Keyed(kind, e) && Key(kind, file[i]) == Key(kind, e) && e.address != "" && e.remove.None?
    requires forall k :: 0 <= k < |file| && k != i ==> Key(kind, file[k]) != Key(kind, e)
    ensures MergeBackends(pool, file, [Marker(kind, KeyIn(kind, e))] + [e], ApplyToBaseline)
            == Ok(file[..i] + file[i + 1..] + [e])
  {
    var key, rest := KeyIn(kind, e), file[..i] + file[i + 1..];
    var marker := Marker(kind, key);
    DropOne(kind, file, i, key);
    assert forall k :: 0 <= k < |rest| ==> rest[k] == file[if k < i then k else k + 1];
    PositionIs(kind, rest, key);
    assert !Holds(kind, rest, key);
    MergeOne(pool, file, marker, ApplyToBaseline);
    MergeOne(pool, rest, e, ApplyToBaseline);
    MergeBackendsSplit(pool, file, [marker], [e], ApplyToBaseline);
  }

  lemma AgainAccumulated(kind: Kind, pool: string, file: seq<Backend>, i: nat, e: Backend)
    requires i < |file| && Keyed(kind, e) && Key(kind, file[i]) == Key(kind, e) && e.address != "" && e.remove.None?
    requires forall k :: 0 <= k < |file| && k != i ==> Key(kind, file[k]) != Key(kind, e)
    ensures var both := UpdateBackend(Marker(kind, KeyIn(kind, e)), e);
            && MergeBackends(pool, [Marker(kind, KeyIn(kind, e))], [e], AccumulateOverlay) == Ok([both])
            && MergeBackends(pool, file, [both], ApplyToBaseline) == Ok(file[i := UpdateBackend(file[i], both)])
  {
    var key := KeyIn(kind, e);
    var marker := Marker(kind, key);
    var both := UpdateBackend(marker, e);
    assert Position(kind, [marker], key) == 0 && [marker][0 := both] == [both];
    MergeOne(pool, [marker], e, AccumulateOverlay);
    PositionIs(kind, file, key);
    assert Position(kind, file, key) == i;
    MergeOne(pool, file, both, ApplyToBaseline);
  }
}
