/**
 What merged rounds hold, kind by kind: where the merge raises, what becomes of numbers,
 of other values and of missing ones, and the order of the keys.
 */
module RoundLeaves {
  import opened Wrappers
  import opened Median
  import opened RoundMerge
  import opened FirstSeen
  import opened Thinning

  // ----- Which values count -----

  // Position of the first value that is there.
  ghost predicate Leads(vs: seq<Value>, i: nat) {
    i < |vs| && vs[i] != Null && forall k :: 0 <= k < i ==> vs[k] == Null
  }

  ghost predicate Trails(vs: seq<Value>, i: nat) {
    i < |vs| && vs[i] != Null && forall k :: i < k < |vs| ==> vs[k] == Null
  }

  lemma {:induction false} PresentLeads(vs: seq<Value>, i: nat)
    requires Leads(vs, i)
    ensures Present(vs) != [] && Present(vs)[0] == vs[i]
  {
    if i > 0 {
      assert vs[0] == Null && forall k :: 0 <= k < i - 1 ==> vs[1..][k] == vs[k + 1];
      PresentLeads(vs[1..], i - 1);
    }
  }

  lemma {:induction false} NonePresent(vs: seq<Value>)
    requires forall k :: 0 <= k < |vs| ==> vs[k] == Null
    ensures Present(vs) == []
  {
    if vs != [] { NonePresent(vs[1..]); }
  }

  lemma {:induction false} PresentTrails(vs: seq<Value>, i: nat)
    requires Trails(vs, i)
    ensures Present(vs) != [] && Present(vs)[|Present(vs)| - 1] == vs[i]
  {
    if i > 0 {
      assert vs[1..][i - 1] == vs[i] && forall k :: i - 1 < k < |vs[1..]| ==> vs[1..][k] == vs[k + 1];
      PresentTrails(vs[1..], i - 1);
    } else {
      NonePresent(vs[1..]);
    }
  }

  lemma {:induction false} PresentIsKept(vs: seq<Value>)
    ensures Present(vs) == Kept(vs, (v: Value) => v == Null)
  {
    if vs != [] { PresentIsKept(vs[1..]); }
  }

  // The values that are there, in order.
  lemma PresentStands(vs: seq<Value>)
    ensures Thinned(vs, (v: Value) => v == Null, Present(vs))
  {
    PresentIsKept(vs);
    KeptIsThinned(vs, (v: Value) => v == Null);
  }

  lemma {:induction false} SomeLeads(vs: seq<Value>) returns (i: nat)
    requires exists k :: 0 <= k < |vs| && vs[k] != Null
    ensures Leads(vs, i)
  {
    if vs[0] != Null { return 0; }
    var k :| 0 <= k < |vs| && vs[k] != Null;
    assert vs[1..][k - 1] != Null;
    var j := SomeLeads(vs[1..]);
    assert forall m :: 1 <= m < j + 1 ==> vs[m] == vs[1..][m - 1];
    return j + 1;
  }

  // ----- Where the merge raises -----

  // A dictionary comes first, and something else among the rest.
  ghost predicate Clash(vs: seq<Value>) {
    exists i: nat, j: nat :: Leads(vs, i) && vs[i].Dict? && j < |vs| && vs[j] != Null && !vs[j].Dict?
  }

  lemma ClashIff(vs: seq<Value>)
    ensures Clash(vs) <==> var present := Present(vs); present != [] && present[0].Dict? && !AllDicts(present)
  {
    var present := Present(vs);
    if Clash(vs) {
      var i: nat, j: nat :| Leads(vs, i) && vs[i].Dict? && j < |vs| && vs[j] != Null && !vs[j].Dict?;
      PresentLeads(vs, i);
      assert vs[j] in present;
    }
    if present != [] && present[0].Dict? && !AllDicts(present) {
      var m :| 0 <= m < |present| && !present[m].Dict?;
      assert present[m] in present;
      var j: nat :| j < |vs| && vs[j] == present[m];
      var i := SomeLeads(vs);
      PresentLeads(vs, i);
      assert Leads(vs, i) && vs[i].Dict? && j < |vs| && vs[j] != Null && !vs[j].Dict?;
    }
  }

  lemma {:induction false} ColumnDescends(vs: seq<Value>, key: string)
    requires forall i :: 0 <= i < |vs| ==> vs[i] == Null || vs[i].Dict?
    ensures DepthAll(Column(vs, key)) <= DepthAll(vs)
    ensures DepthAll(vs) > 0 ==> DepthAll(Column(vs, key)) < DepthAll(vs)
  {
    if vs != [] {
      if vs[0].Dict? { FindIsShallower(vs[0].fields, key); }
      ColumnDescends(vs[1..], key);
      assert Column(vs, key)[1..] == Column(vs[1..], key);
    }
  }

  lemma {:induction false} DictIsDeep(vs: seq<Value>)
    requires Present(vs) != [] && AllDicts(Present(vs))
    ensures DepthAll(vs) > 0
  {
    if vs[0] == Null { DictIsDeep(vs[1..]); }
  }

  lemma {:induction false} FieldRaises(vs: seq<Value>, keys: seq<string>) returns (key: string)
    requires vs != [] && AllDicts(vs) && MergeFields(vs, keys).None?
    ensures MergeValues(Column(vs, key)).None?
    decreases |keys|
  {
    if MergeValues(Column(vs, keys[0])).None? { return keys[0]; }
    key := FieldRaises(vs, keys[1..]);
  }

  lemma {:induction false} RaisesSomewhere(vs: seq<Value>) returns (path: seq<string>)
    requires MergeValues(vs).None?
    ensures SameShape(vs, path) && Clash(Along(vs, path))
    decreases DepthAll(vs)
  {
    var present := Present(vs);
    ClashIff(vs);
    if Clash(vs) {
      assert Along(vs, []) == vs;
      return [];
    }
    var key := FieldRaises(present, KeysFrom([], present));
    PresentOfColumn(vs, key);
    SamePresent(Column(present, key), Column(vs, key));
    forall i | 0 <= i < |vs| ensures vs[i] == Null || vs[i].Dict? {
      if vs[i] != Null { assert vs[i] in present; }
    }
    ColumnDescends(vs, key);
    DictIsDeep(vs);
    var rest := RaisesSomewhere(Column(vs, key));
    path := [key] + rest;
    assert path[0] == key && path[1..] == rest;
    assert Along(vs, path) == Along(Column(vs, key), rest);
  }

  // The merge raises exactly when at some path that the rounds share a dictionary comes
  // first and something else among the rest.
  lemma RaisesIff(vs: seq<Value>)
    ensures MergeValues(vs).None? <==> exists path :: SameShape(vs, path) && Clash(Along(vs, path))
  {
    if MergeValues(vs).None? { var path := RaisesSomewhere(vs); }
    if path :| SameShape(vs, path) && Clash(Along(vs, path)) {
      ClashIff(Along(vs, path));
      if MergeValues(vs).Some? { MergeAtPath(vs, path); }
    }
  }

  // ----- What is published at a path -----

  // What the merge makes of some values.
  ghost predicate Made(vs: seq<Value>, m: Value) {
    && ((forall k :: 0 <= k < |vs| ==> vs[k] == Null) ==> m == Null)
    && (forall i: nat :: Leads(vs, i) && vs[i].Dict? ==> m.Dict?)
    && (Present(vs) != [] && AllNumeric(Present(vs)) ==> MadeNumber(Present(vs), m))
    && (forall i: nat, k: nat :: Leads(vs, i) && !vs[i].Dict? && !AllNumeric(Present(vs)) && Trails(vs, k) ==>
          m == vs[k])
  }

  // The median; of integers, the nearest integer, and of two as near the even one.
  ghost predicate MadeNumber(xs: seq<Value>, m: Value)
    requires xs != [] && AllNumeric(xs)
  {
    var median := MedianOf(Amounts(xs));
    && (AllWhole(xs) ==>
          && m.Whole? && -0.5 <= m.n as real - median <= 0.5
          && (m.n as real - median == 0.5 || m.n as real - median == -0.5 ==> m.n % 2 == 0))
    && (!AllWhole(xs) ==> m == Fraction(median))
  }

  lemma MergeMakes(vs: seq<Value>)
    requires MergeValues(vs).Some?
    ensures Made(vs, MergeValues(vs).value)
  {
    var m, present := MergeValues(vs).value, Present(vs);
    if forall k :: 0 <= k < |vs| ==> vs[k] == Null { NonePresent(vs); }
    forall i: nat | Leads(vs, i) ensures present != [] && present[0] == vs[i] { PresentLeads(vs, i); }
    if present != [] && AllNumeric(present) { RoundIsNearest(MedianOf(Amounts(present))); }
    forall k: nat | Trails(vs, k) ensures present != [] && present[|present| - 1] == vs[k] { PresentTrails(vs, k); }
  }

  // At every path that the rounds share.
  lemma PathMakes(vs: seq<Value>, path: seq<string>)
    requires SameShape(vs, path) && MergeValues(vs).Some?
    ensures Made(Along(vs, path), Lookup(MergeValues(vs).value, path))
  {
    MergeAtPath(vs, path);
    MergeMakes(Along(vs, path));
  }

  // ----- The keys of a merged dictionary -----

  function FieldKeys(fields: seq<Field>): (r: seq<string>)
    ensures |r| == |fields| && forall i :: 0 <= i < |fields| ==> r[i] == fields[i].key
  {
    seq(|fields|, i requires 0 <= i < |fields| => fields[i].key)
  }

  // The keys of some dictionaries as they come, with repetitions.
  function KeysSeen(vs: seq<Value>): seq<string>
    requires AllDicts(vs)
  {
    if vs == [] then [] else FieldKeys(vs[0].fields) + KeysSeen(vs[1..])
  }

  lemma {:induction false} AddKeysInOrder(seen: seq<string>, keys: seq<string>, fields: seq<Field>)
    requires InFirstOrder(seen, keys)
    ensures InFirstOrder(seen + FieldKeys(fields), AddKeys(keys, fields))
    decreases |fields|
  {
    FirstField(seen, fields);
    if fields != [] {
      var k := fields[0].key;
      OneMore(seen, keys, k);
      AddKeysInOrder(seen + [k], if k in keys then keys else keys + [k], fields[1..]);
    }
  }

  lemma FirstField(seen: seq<string>, fields: seq<Field>)
    ensures seen + FieldKeys(fields) ==
            if fields == [] then seen else (seen + [fields[0].key]) + FieldKeys(fields[1..])
  {
  }

  lemma {:induction false} KeysInOrder(seen: seq<string>, keys: seq<string>, vs: seq<Value>)
    requires AllDicts(vs) && InFirstOrder(seen, keys)
    ensures InFirstOrder(seen + KeysSeen(vs), KeysFrom(keys, vs))
    decreases |vs|
  {
    FirstValue(seen, vs);
    if vs != [] {
      AddKeysInOrder(seen, keys, vs[0].fields);
      KeysInOrder(seen + FieldKeys(vs[0].fields), AddKeys(keys, vs[0].fields), vs[1..]);
    }
  }

  lemma FirstValue(seen: seq<string>, vs: seq<Value>)
    requires AllDicts(vs)
    ensures seen + KeysSeen(vs) == if vs == [] then seen else (seen + FieldKeys(vs[0].fields)) + KeysSeen(vs[1..])
  {
  }

  lemma {:induction false} FieldsHaveKeys(vs: seq<Value>, keys: seq<string>)
    requires vs != [] && AllDicts(vs) && MergeFields(vs, keys).Some?
    ensures FieldKeys(MergeFields(vs, keys).value.fields) == keys
    decreases |keys|
  {
    if keys != [] {
      FieldsHaveKeys(vs, keys[1..]);
      assert keys == [keys[0]] + keys[1..];
    }
  }

  // A merged dictionary has every key of the rounds once, in the order in which they are
  // first seen.
  lemma MergedKeys(vs: seq<Value>)
    requires Present(vs) != [] && AllDicts(Present(vs)) && MergeValues(vs).Some?
    ensures MergeValues(vs).value.Dict?
    ensures InFirstOrder(KeysSeen(Present(vs)), FieldKeys(MergeValues(vs).value.fields))
  {
    var present := Present(vs);
    FieldsHaveKeys(present, KeysFrom([], present));
    KeysInOrder([], [], present);
    assert [] + KeysSeen(present) == KeysSeen(present);
  }
}
