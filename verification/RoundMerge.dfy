/**
 Median-of-N merging of round documents: field by field through nested dictionaries,
 and scenario by scenario with the promotion gate.
 */
module RoundMerge {
  import opened Wrappers
  import opened Median

  datatype Field = Field(key: string, value: Value)

  // Booleans and text are `Other`. A dictionary keeps its keys in insertion order.
  datatype Value =
    | Null
    | Whole(n: int)
    | Fraction(x: real)
    | Other(text: string)
    | Dict(fields: seq<Field>)

  function Find(fields: seq<Field>, key: string): Value {
    if fields == [] then Null
    else if fields[0].key == key then fields[0].value
    else Find(fields[1..], key)
  }

  function Get(v: Value, key: string): Value {
    if v.Dict? then Find(v.fields, key) else Null
  }

  // ----- Nesting depth, for termination -----

  function Max(a: nat, b: nat): nat { if a >= b then a else b }

  function Depth(v: Value): nat {
    if v.Dict? then 1 + FieldsDepth(v.fields) else 0
  }

  function FieldsDepth(fields: seq<Field>): nat {
    if fields == [] then 0 else Max(Depth(fields[0].value), FieldsDepth(fields[1..]))
  }

  function DepthAll(vs: seq<Value>): nat {
    if vs == [] then 0 else Max(Depth(vs[0]), DepthAll(vs[1..]))
  }

  lemma {:induction false} FindIsShallower(fields: seq<Field>, key: string)
    ensures Depth(Find(fields, key)) <= FieldsDepth(fields)
  {
    if fields != [] { FindIsShallower(fields[1..], key); }
  }

  // ----- Merging values -----

  function Present(vs: seq<Value>): (r: seq<Value>)
    ensures DepthAll(r) <= DepthAll(vs)
    ensures forall v :: v in r <==> v in vs && v != Null
  {
    if vs == [] then []
    else if vs[0] != Null then [vs[0]] + Present(vs[1..])
    else Present(vs[1..])
  }

  predicate AllDicts(vs: seq<Value>) {
    forall i :: 0 <= i < |vs| ==> vs[i].Dict?
  }

  predicate AllWhole(vs: seq<Value>) {
    forall i :: 0 <= i < |vs| ==> vs[i].Whole?
  }

  predicate Numeric(v: Value) {
    v.Whole? || v.Fraction?
  }

  predicate AllNumeric(vs: seq<Value>) {
    forall i :: 0 <= i < |vs| ==> Numeric(vs[i])
  }

  function Amount(v: Value): real
    requires Numeric(v)
  {
    if v.Whole? then v.n as real else v.x
  }

  function Amounts(vs: seq<Value>): (r: seq<real>)
    requires AllNumeric(vs)
    ensures |r| == |vs| && forall i :: 0 <= i < |vs| ==> r[i] == Amount(vs[i])
  {
    seq(|vs|, i requires 0 <= i < |vs| => Amount(vs[i]))
  }

  function Column(vs: seq<Value>, key: string): (r: seq<Value>)
    ensures |r| == |vs| && forall i :: 0 <= i < |vs| ==> r[i] == Get(vs[i], key)
  {
    seq(|vs|, i requires 0 <= i < |vs| => Get(vs[i], key))
  }

  lemma {:induction false} ColumnIsShallower(vs: seq<Value>, key: string)
    requires AllDicts(vs)
    ensures vs != [] ==> DepthAll(Column(vs, key)) < DepthAll(vs)
    ensures DepthAll(Column(vs, key)) <= DepthAll(vs)
  {
    if vs != [] {
      FindIsShallower(vs[0].fields, key);
      ColumnIsShallower(vs[1..], key);
      assert Column(vs, key)[1..] == Column(vs[1..], key);
    }
  }

  // The keys of some dictionaries, in the order in which they are first seen.
  function AddKeys(keys: seq<string>, fields: seq<Field>): (r: seq<string>)
    ensures forall k :: k in r <==> k in keys || exists i :: 0 <= i < |fields| && fields[i].key == k
    decreases |fields|
  {
    if fields == [] then keys
    else AddKeys(if fields[0].key in keys then keys else keys + [fields[0].key], fields[1..])
  }

  function KeysFrom(keys: seq<string>, vs: seq<Value>): (r: seq<string>)
    requires AllDicts(vs)
    ensures forall k :: k in r <==>
              k in keys || exists i, j :: 0 <= i < |vs| && 0 <= j < |vs[i].fields| && vs[i].fields[j].key == k
    decreases |vs|
  {
    if vs == [] then keys else KeysFrom(AddKeys(keys, vs[0].fields), vs[1..])
  }

  // No result where the code raises: a dictionary first, and then something else.
  function MergeValues(vs: seq<Value>): Option<Value>
    decreases DepthAll(vs), 1, 0
  {
    var present := Present(vs);
    if present == [] then Some(Null)
    else if present[0].Dict? then
      if AllDicts(present) then MergeFields(present, KeysFrom([], present)) else None
    else if AllNumeric(present) then
      var median := MedianOf(Amounts(present));
      Some(if AllWhole(present) then Whole(Round(median)) else Fraction(median))
    else Some(present[|present| - 1])
  }

  function MergeFields(vs: seq<Value>, keys: seq<string>): Option<Value>
    requires vs != [] && AllDicts(vs)
    ensures MergeFields(vs, keys).Some? ==> MergeFields(vs, keys).value.Dict?
    decreases DepthAll(vs), 0, |keys|
  {
    if keys == [] then Some(Dict([]))
    else
      ColumnIsShallower(vs, keys[0]);
      var first, rest := MergeValues(Column(vs, keys[0])), MergeFields(vs, keys[1..]);
      if first.None? || rest.None? then None
      else Some(Dict([Field(keys[0], first.value)] + rest.value.fields))
  }

  method KeysOf(vs: seq<Value>) returns (keys: seq<string>)
    requires AllDicts(vs)
    ensures keys == KeysFrom([], vs)
  {
    keys := [];
    for i := 0 to |vs|
      invariant KeysFrom(keys, vs[i..]) == KeysFrom([], vs)
    {
      var fields := vs[i].fields;
      assert vs[i..][0] == vs[i] && vs[i..][1..] == vs[i + 1..];
      ghost var whole := AddKeys(keys, fields);
      for j := 0 to |fields|
        invariant AddKeys(keys, fields[j..]) == whole
      {
        assert fields[j..][0] == fields[j] && fields[j..][1..] == fields[j + 1..];
        if fields[j].key !in keys { keys := keys + [fields[j].key]; }
      }
    }
  }

  // ----- Merging commutes with looking up -----

  lemma {:induction false} PresentOfColumn(vs: seq<Value>, key: string)
    ensures Present(Column(Present(vs), key)) == Present(Column(vs, key))
  {
    if vs != [] {
      PresentOfColumn(vs[1..], key);
      assert Column(vs, key)[1..] == Column(vs[1..], key);
      if vs[0] != Null {
        var rest := Present(vs[1..]);
        assert Column([vs[0]] + rest, key)[1..] == Column(rest, key);
      }
    }
  }

  lemma SamePresent(us: seq<Value>, vs: seq<Value>)
    requires Present(us) == Present(vs)
    ensures MergeValues(us) == MergeValues(vs)
  {
  }

  lemma {:induction false} AbsentKey(vs: seq<Value>, key: string)
    requires AllDicts(vs)
    requires forall i, j :: 0 <= i < |vs| && 0 <= j < |vs[i].fields| ==> vs[i].fields[j].key != key
    ensures Present(Column(vs, key)) == []
  {
    if vs != [] {
      NotFound(vs[0].fields, key);
      AbsentKey(vs[1..], key);
      assert Column(vs, key)[1..] == Column(vs[1..], key);
    }
  }

  lemma {:induction false} NotFound(fields: seq<Field>, key: string)
    requires forall j :: 0 <= j < |fields| ==> fields[j].key != key
    ensures Find(fields, key) == Null
  {
    if fields != [] { NotFound(fields[1..], key); }
  }

  lemma {:induction false} FieldOfMerge(vs: seq<Value>, keys: seq<string>, key: string)
    requires vs != [] && AllDicts(vs) && MergeFields(vs, keys).Some?
    ensures key in keys ==> MergeValues(Column(vs, key)) == Some(Get(MergeFields(vs, keys).value, key))
    ensures key !in keys ==> Get(MergeFields(vs, keys).value, key) == Null
    decreases |keys|
  {
    if keys != [] {
      FieldOfMerge(vs, keys[1..], key);
      var rest := MergeFields(vs, keys[1..]).value;
      var first := MergeValues(Column(vs, keys[0])).value;
      var fields := [Field(keys[0], first)] + rest.fields;
      assert fields[0] == Field(keys[0], first) && fields[1..] == rest.fields;
      assert key in keys <==> key == keys[0] || key in keys[1..];
    }
  }

  // One level down: the merged dictionary holds, at every key, the merge of what the
  // rounds hold there.
  lemma MergeAtKey(vs: seq<Value>, key: string)
    requires AllDicts(Present(vs)) && MergeValues(vs).Some?
    ensures MergeValues(Column(vs, key)) == Some(Get(MergeValues(vs).value, key))
  {
    var present := Present(vs);
    PresentOfColumn(vs, key);
    SamePresent(Column(present, key), Column(vs, key));
    if present != [] {
      var keys := KeysFrom([], present);
      FieldOfMerge(present, keys, key);
      if key !in keys { AbsentKey(present, key); }
    } else {
      AbsentKey(present, key);
    }
  }

  function Lookup(v: Value, path: seq<string>): Value
    decreases |path|
  {
    if path == [] then v else Lookup(Get(v, path[0]), path[1..])
  }

  function Along(vs: seq<Value>, path: seq<string>): (r: seq<Value>)
    ensures |r| == |vs| && forall i :: 0 <= i < |vs| ==> r[i] == Lookup(vs[i], path)
  {
    seq(|vs|, i requires 0 <= i < |vs| => Lookup(vs[i], path))
  }

  // The rounds have the same shape on the way: dictionaries, or nothing.
  predicate SameShape(vs: seq<Value>, path: seq<string>)
    decreases |path|
  {
    path == [] || (AllDicts(Present(vs)) && SameShape(Column(vs, path[0]), path[1..]))
  }

  // At every path, the merged document holds the merge of what the rounds hold there.
  lemma {:induction false} MergeAtPath(vs: seq<Value>, path: seq<string>)
    requires SameShape(vs, path) && MergeValues(vs).Some?
    ensures MergeValues(Along(vs, path)) == Some(Lookup(MergeValues(vs).value, path))
    decreases |path|
  {
    if path == [] {
      assert Along(vs, path) == vs;
    } else {
      MergeAtKey(vs, path[0]);
      MergeAtPath(Column(vs, path[0]), path[1..]);
      assert Along(vs, path) == Along(Column(vs, path[0]), path[1..]);
    }
  }

  lemma {:induction false} NumericIsPresent(vs: seq<Value>)
    requires AllNumeric(vs)
    ensures Present(vs) == vs
  {
    if vs != [] {
      NumericIsPresent(vs[1..]);
      assert [vs[0]] + vs[1..] == vs;
    }
  }

  lemma NumbersMerge(xs: seq<Value>, k: nat, a: nat, b: nat)
    requires AllNumeric(xs) && |xs| >= 3 && k < |xs| && a < |xs| && b < |xs| && a != k && b != k
    requires forall i :: 0 <= i < |xs| && i != k ==> Amount(xs[a]) <= Amount(xs[i]) <= Amount(xs[b])
    ensures MergeValues(xs).Some? && Numeric(MergeValues(xs).value)
    ensures Amount(xs[a]) <= Amount(MergeValues(xs).value) <= Amount(xs[b])
  {
    NumericIsPresent(xs);
    var amounts := Amounts(xs);
    OutlierIsBounded(amounts, k, amounts[k], Amount(xs[a]), Amount(xs[b]));
    assert amounts[k := amounts[k]] == amounts;
    if AllWhole(xs) { RoundStaysBetween(MedianOf(amounts), xs[a].n, xs[b].n); }
  }

  // With three or more rounds, at every numeric path: whatever round `k` reports, the
  // published number stays between the least and the greatest of the other rounds.
  lemma OutlierRoundIsBounded(vs: seq<Value>, path: seq<string>, k: nat, a: nat, b: nat)
    requires SameShape(vs, path) && MergeValues(vs).Some? && AllNumeric(Along(vs, path))
    requires |vs| >= 3 && k < |vs| && a < |vs| && b < |vs| && a != k && b != k
    requires var xs := Along(vs, path);
             forall i :: 0 <= i < |xs| && i != k ==> Amount(xs[a]) <= Amount(xs[i]) <= Amount(xs[b])
    ensures var m := Lookup(MergeValues(vs).value, path);
            Numeric(m) && Amount(Lookup(vs[a], path)) <= Amount(m) <= Amount(Lookup(vs[b], path))
  {
    MergeAtPath(vs, path);
    NumbersMerge(Along(vs, path), k, a, b);
  }

  // ----- The order of rounds does not matter -----

  function Mapped<T, U>(s: seq<T>, f: T -> U): (r: seq<U>)
    ensures |r| == |s| && forall i :: 0 <= i < |s| ==> r[i] == f(s[i])
  {
    seq(|s|, i requires 0 <= i < |s| => f(s[i]))
  }

  function Without<T>(s: seq<T>, i: nat): seq<T>
    requires i < |s|
  {
    s[..i] + s[i + 1..]
  }

  lemma WithoutCounts<T>(s: seq<T>, i: nat)
    requires i < |s|
    ensures multiset(s) == multiset(Without(s, i)) + multiset{s[i]}
  {
    assert s == s[..i] + [s[i]] + s[i + 1..];
  }

  // A reordering that starts with `a[0]` once the right entry is taken out of `b`.
  lemma Reordered<T>(a: seq<T>, b: seq<T>) returns (i: nat)
    requires a != [] && multiset(a) == multiset(b)
    ensures i < |b| && b[i] == a[0] && multiset(a[1..]) == multiset(Without(b, i))
  {
    assert a[0] in multiset(b);
    i :| 0 <= i < |b| && b[i] == a[0];
    WithoutCounts(b, i);
    WithoutCounts(a, 0);
    assert Without(a, 0) == a[1..];
    Cancel(multiset(a[1..]), multiset(Without(b, i)), a[0]);
  }

  lemma Cancel<T>(x: multiset<T>, y: multiset<T>, e: T)
    requires x + multiset{e} == y + multiset{e}
    ensures x == y
  {
    assert x == x + multiset{e} - multiset{e} && y == y + multiset{e} - multiset{e};
  }

  lemma {:induction false} MappedReorders<T, U>(a: seq<T>, b: seq<T>, f: T -> U)
    requires multiset(a) == multiset(b)
    ensures multiset(Mapped(a, f)) == multiset(Mapped(b, f))
    decreases |a|
  {
    if a == [] {
      assert |multiset(b)| == |b|;
    } else {
      var i := Reordered(a, b);
      MappedReorders(a[1..], Without(b, i), f);
      assert Mapped(Without(b, i), f) == Without(Mapped(b, f), i);
      assert Mapped(a[1..], f) == Without(Mapped(a, f), 0);
      WithoutCounts(Mapped(b, f), i);
      WithoutCounts(Mapped(a, f), 0);
    }
  }

  function Counted(v: Value): multiset<Value> {
    if v != Null then multiset{v} else multiset{}
  }

  lemma PresentHead(vs: seq<Value>)
    requires vs != []
    ensures multiset(Present(vs)) == Counted(vs[0]) + multiset(Present(vs[1..]))
  {
    var rest := Present(vs[1..]);
    assert multiset([vs[0]] + rest) == multiset{vs[0]} + multiset(rest);
  }

  lemma {:induction false} PresentCounts(vs: seq<Value>, i: nat)
    requires i < |vs|
    ensures multiset(Present(vs)) == multiset(Present(Without(vs, i))) + Counted(vs[i])
  {
    PresentHead(vs);
    if i == 0 {
      assert Without(vs, 0) == vs[1..];
    } else {
      PresentCounts(vs[1..], i - 1);
      WithoutTail(vs, i);
      PresentHead(Without(vs, i));
      Associate(Counted(vs[0]), multiset(Present(Without(vs[1..], i - 1))), Counted(vs[i]));
    }
  }

  lemma WithoutTail<T>(s: seq<T>, i: nat)
    requires 0 < i < |s|
    ensures Without(s, i) != [] && Without(s, i)[0] == s[0] && Without(s, i)[1..] == Without(s[1..], i - 1)
  {
  }

  lemma Associate<T>(x: multiset<T>, y: multiset<T>, z: multiset<T>)
    ensures x + (y + z) == (x + y) + z
  {
  }

  lemma {:induction false} PresentReorders(a: seq<Value>, b: seq<Value>)
    requires multiset(a) == multiset(b)
    ensures multiset(Present(a)) == multiset(Present(b))
    decreases |a|
  {
    if a == [] {
      assert |multiset(b)| == |b|;
    } else {
      var i := Reordered(a, b);
      PresentReorders(a[1..], Without(b, i));
      PresentCounts(b, i);
      PresentCounts(a, 0);
      assert Without(a, 0) == a[1..];
    }
  }

  ghost predicate Each<T>(s: seq<T>, p: T -> bool) {
    forall i :: 0 <= i < |s| ==> p(s[i])
  }

  lemma AllReorders<T>(a: seq<T>, b: seq<T>, p: T -> bool)
    requires multiset(a) == multiset(b) && Each(a, p)
    ensures Each(b, p)
  {
    forall i | 0 <= i < |b| ensures p(b[i]) {
      assert b[i] in multiset(a);
    }
  }

  lemma WholeReorders(a: seq<Value>, b: seq<Value>)
    requires multiset(a) == multiset(b) && AllWhole(a)
    ensures AllWhole(b)
  {
    AllReorders(a, b, (v: Value) => v.Whole?);
  }

  lemma AmountsReorder(a: seq<Value>, b: seq<Value>)
    requires multiset(a) == multiset(b) && AllNumeric(a)
    ensures AllNumeric(b) && multiset(Amounts(a)) == multiset(Amounts(b))
  {
    AllReorders(a, b, Numeric);
    var amount := (v: Value) => if Numeric(v) then Amount(v) else 0.0;
    MappedReorders(a, b, amount);
    assert Mapped(a, amount) == Amounts(a) && Mapped(b, amount) == Amounts(b);
  }

  lemma NumbersReorder(a: seq<Value>, b: seq<Value>)
    requires multiset(a) == multiset(b) && AllNumeric(Present(a))
    ensures MergeValues(a) == MergeValues(b)
  {
    var p, q := Present(a), Present(b);
    PresentReorders(a, b);
    AmountsReorder(p, q);
    if p == [] {
      assert |multiset(q)| == |q|;
    } else {
      MedianIgnoresOrder(Amounts(p), Amounts(q));
      if AllWhole(p) { WholeReorders(p, q); }
      if AllWhole(q) { WholeReorders(q, p); }
    }
  }

  lemma ColumnReorders(a: seq<Value>, b: seq<Value>, key: string)
    requires multiset(a) == multiset(b)
    ensures multiset(Column(a, key)) == multiset(Column(b, key))
  {
    var get := (v: Value) => Get(v, key);
    MappedReorders(a, b, get);
    assert Mapped(a, get) == Column(a, key) && Mapped(b, get) == Column(b, key);
  }

  lemma {:induction false} ShapeReorders(a: seq<Value>, b: seq<Value>, path: seq<string>)
    requires multiset(a) == multiset(b) && SameShape(a, path)
    ensures SameShape(b, path)
    decreases |path|
  {
    if path != [] {
      PresentReorders(a, b);
      AllReorders(Present(a), Present(b), (v: Value) => v.Dict?);
      ColumnReorders(a, b, path[0]);
      ShapeReorders(Column(a, path[0]), Column(b, path[0]), path[1..]);
    }
  }

  // At every path where the rounds report numbers or nothing, the published value does
  // not depend on the order of the rounds.
  lemma RoundOrderIsIrrelevant(us: seq<Value>, vs: seq<Value>, path: seq<string>)
    requires multiset(us) == multiset(vs) && MergeValues(us).Some? && MergeValues(vs).Some?
    requires SameShape(us, path) && AllNumeric(Present(Along(us, path)))
    ensures Lookup(MergeValues(us).value, path) == Lookup(MergeValues(vs).value, path)
  {
    ShapeReorders(us, vs, path);
    MergeAtPath(us, path);
    MergeAtPath(vs, path);
    var look := (v: Value) => Lookup(v, path);
    MappedReorders(us, vs, look);
    assert Mapped(us, look) == Along(us, path) && Mapped(vs, look) == Along(vs, path);
    NumbersReorder(Along(us, path), Along(vs, path));
  }
}
