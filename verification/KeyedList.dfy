/**
 Sequential edits of a list whose entries may carry a key.

 Merging pools, named backends and user metrics are all instances: each overlay
 entry finds the first list entry with its key and updates or drops it, or is
 appended when the key is absent. Either branch may fail.
 */
module KeyedList {
  import opened Wrappers

  datatype Touch<+T> = Fail | Drop | Keep(value: T)

  datatype Edit<!T> = Edit(key: string, present: T -> Touch<T>, absent: Option<T>)

  function Without<T(!new)>(keyOf: T -> Option<string>, l: seq<T>, key: string): seq<T> {
    if l == [] then []
    else if keyOf(l[0]) == Some(key) then Without(keyOf, l[1..], key)
    else [l[0]] + Without(keyOf, l[1..], key)
  }

  // The first entry with the key is touched; dropping it drops every entry with the key.
  function Apply<T(!new)>(keyOf: T -> Option<string>, l: seq<T>, e: Edit<T>): Option<seq<T>> {
    if l == [] then
      if e.absent.Some? then Some([e.absent.value]) else None
    else if keyOf(l[0]) == Some(e.key) then
      match e.present(l[0])
      case Fail => None
      case Drop => Some(Without(keyOf, l[1..], e.key))
      case Keep(x) => Some([x] + l[1..])
    else
      var rest := Apply(keyOf, l[1..], e);
      if rest.Some? then Some([l[0]] + rest.value) else None
  }

  function Run<T(!new)>(keyOf: T -> Option<string>, l: seq<T>, es: seq<Edit<T>>): Option<seq<T>>
    decreases |es|
  {
    if es == [] then Some(l)
    else
      var r := Apply(keyOf, l, es[0]);
      if r.Some? then Run(keyOf, r.value, es[1..]) else None
  }

  function Then<T(!new)>(keyOf: T -> Option<string>, l: Option<seq<T>>, e: Edit<T>): Option<seq<T>> {
    if l.Some? then Apply(keyOf, l.value, e) else None
  }

  ghost predicate HasKey<T(!new)>(keyOf: T -> Option<string>, l: seq<T>, key: string) {
    exists i :: 0 <= i < |l| && keyOf(l[i]) == Some(key)
  }

  // An edit never changes the key of the entry it touches.
  ghost predicate KeepsKey<T(!new)>(keyOf: T -> Option<string>, e: Edit<T>) {
    && (e.absent.Some? ==> keyOf(e.absent.value) == Some(e.key))
    && (forall x :: keyOf(x) == Some(e.key) && e.present(x).Keep? ==> keyOf(e.present(x).value) == Some(e.key))
  }

  lemma {:induction false} ApplyAt<T(!new)>(keyOf: T -> Option<string>, p: seq<T>, x: T, s: seq<T>, e: Edit<T>)
    requires keyOf(x) == Some(e.key)
    requires !HasKey(keyOf, p, e.key)
    ensures Apply(keyOf, p + [x] + s, e) ==
            match e.present(x) {
              case Fail => None
              case Drop => Some(p + Without(keyOf, s, e.key))
              case Keep(y) => Some(p + [y] + s)
            }
  {
    var l := p + [x] + s;
    if p == [] {
      assert l[0] == x && l[1..] == s;
      assert p + Without(keyOf, s, e.key) == Without(keyOf, s, e.key);
      assert forall y :: p + [y] + s == [y] + s;
    } else {
      assert l[0] == p[0] && l[1..] == p[1..] + [x] + s;
      assert keyOf(p[0]) != Some(e.key);
      assert forall i :: 0 <= i < |p[1..]| ==> p[1..][i] == p[i + 1];
      ApplyAt(keyOf, p[1..], x, s, e);
      var t := Without(keyOf, s, e.key);
      assert [p[0]] + (p[1..] + t) == p + t;
      assert forall y :: [p[0]] + (p[1..] + [y] + s) == p + [y] + s;
    }
  }

  // The edit of the first entry with the key, by position.
  lemma ApplyFirst<T(!new)>(keyOf: T -> Option<string>, l: seq<T>, i: nat, e: Edit<T>)
    requires i < |l| && keyOf(l[i]) == Some(e.key)
    requires forall k :: 0 <= k < i ==> keyOf(l[k]) != Some(e.key)
    ensures Apply(keyOf, l, e) ==
            var y := e.present(l[i]);
            if y.Fail? then None
            else if y.Drop? then Some(Without(keyOf, l, e.key))
            else Some(l[i := y.value])
  {
    var p, t, y := l[..i], l[i + 1..], e.present(l[i]);
    assert l == p + [l[i]] + t;
    ApplyAt(keyOf, p, l[i], t, e);
    if y.Keep? { assert l[i := y.value] == p + [y.value] + t; }
    WithoutAround(keyOf, p, l[i], t, e.key);
  }

  lemma {:induction false} WithoutAround<T(!new)>(keyOf: T -> Option<string>, p: seq<T>, x: T, t: seq<T>, key: string)
    requires keyOf(x) == Some(key) && !HasKey(keyOf, p, key)
    ensures Without(keyOf, p + [x] + t, key) == p + Without(keyOf, t, key)
  {
    var l := p + [x] + t;
    if p == [] {
      assert l[0] == x && l[1..] == t;
    } else {
      assert l[0] == p[0] && l[1..] == p[1..] + [x] + t;
      assert keyOf(p[0]) != Some(key);
      assert forall i :: 0 <= i < |p[1..]| ==> p[1..][i] == p[i + 1];
      WithoutAround(keyOf, p[1..], x, t, key);
    }
  }

  lemma {:induction false} ApplyMissing<T(!new)>(keyOf: T -> Option<string>, l: seq<T>, e: Edit<T>)
    requires !HasKey(keyOf, l, e.key)
    ensures Apply(keyOf, l, e) == if e.absent.Some? then Some(l + [e.absent.value]) else None
  {
    if l == [] {
      assert forall y :: l + [y] == [y];
    } else {
      assert keyOf(l[0]) != Some(e.key);
      assert forall i :: 0 <= i < |l[1..]| ==> l[1..][i] == l[i + 1];
      ApplyMissing(keyOf, l[1..], e);
      assert forall y :: [l[0]] + (l[1..] + [y]) == l + [y];
    }
  }

  lemma {:induction false} RunAppend<T(!new)>(keyOf: T -> Option<string>, l: seq<T>, es: seq<Edit<T>>, e: Edit<T>)
    ensures Run(keyOf, l, es + [e]) == Then(keyOf, Run(keyOf, l, es), e)
    decreases |es|
  {
    if es == [] {
      assert ([] + [e])[1..] == [];
    } else {
      assert (es + [e])[0] == es[0] && (es + [e])[1..] == es[1..] + [e];
      var r := Apply(keyOf, l, es[0]);
      if r.Some? { RunAppend(keyOf, r.value, es[1..], e); }
    }
  }

  // ----- Reordering and fusing edits -----

  // The first entry with a key.
  function At<T(!new)>(keyOf: T -> Option<string>, l: seq<T>, key: string): (r: Option<T>)
    ensures r.Some? <==> HasKey(keyOf, l, key)
    ensures r.Some? ==> r.value in l && keyOf(r.value) == Some(key)
  {
    if l == [] then None
    else if keyOf(l[0]) == Some(key) then Some(l[0])
    else
      assert HasKey(keyOf, l[1..], key) ==> HasKey(keyOf, l, key) by {
        assert forall i :: 0 <= i < |l[1..]| ==> l[1..][i] == l[i + 1];
      }
      assert HasKey(keyOf, l, key) ==> HasKey(keyOf, l[1..], key) by {
        assert forall i :: 1 <= i < |l| ==> l[1..][i - 1] == l[i];
      }
      At(keyOf, l[1..], key)
  }

  // ----- Dropping a key -----

  lemma {:induction false} WithoutKeepsOthers<T(!new)>(keyOf: T -> Option<string>, l: seq<T>, key: string,
                                                               other: string)
    requires key != other
    ensures At(keyOf, Without(keyOf, l, key), other) == At(keyOf, l, other)
  {
    if l != [] {
      WithoutKeepsOthers(keyOf, l[1..], key, other);
      var rest := Without(keyOf, l[1..], key);
      if keyOf(l[0]) != Some(key) { assert ([l[0]] + rest)[1..] == rest; }
    }
  }

  lemma {:induction false} WithoutSwap<T(!new)>(keyOf: T -> Option<string>, l: seq<T>, a: string, b: string)
    ensures Without(keyOf, Without(keyOf, l, a), b) == Without(keyOf, Without(keyOf, l, b), a)
  {
    if l != [] {
      WithoutSwap(keyOf, l[1..], a, b);
      var x, y := Without(keyOf, l[1..], a), Without(keyOf, l[1..], b);
      assert ([l[0]] + x)[1..] == x && ([l[0]] + y)[1..] == y;
    }
  }

  function WithoutFrom<T(!new)>(keyOf: T -> Option<string>, l: Option<seq<T>>, key: string): Option<seq<T>> {
    if l.Some? then Some(Without(keyOf, l.value, key)) else None
  }

  // Dropping another key before an edit or after it.
  lemma {:induction false} WithoutThenApply<T(!new)>(keyOf: T -> Option<string>, l: seq<T>, key: string, e: Edit<T>)
    requires e.key != key && KeepsKey(keyOf, e)
    ensures Apply(keyOf, Without(keyOf, l, key), e) == WithoutFrom(keyOf, Apply(keyOf, l, e), key)
  {
    if l == [] {
      if e.absent.Some? {
        var x := e.absent.value;
        assert [x][0] == x && [x][1..] == [] && [x] + [] == [x];
        assert Without(keyOf, [x], key) == [x] + Without(keyOf, [], key);
      }
    } else {
      var l0, l1 := l[0], l[1..];
      var rest := Without(keyOf, l1, key);
      WithoutThenApply(keyOf, l1, key, e);
      var after := Apply(keyOf, l1, e);
      if keyOf(l0) == Some(e.key) {
        assert ([l0] + rest)[0] == l0 && ([l0] + rest)[1..] == rest;
        WithoutSwap(keyOf, l1, key, e.key);
        if e.present(l0).Keep? { assert ([e.present(l0).value] + l1)[1..] == l1; }
      } else {
        assert ([l0] + rest)[0] == l0 && ([l0] + rest)[1..] == rest;
        if after.Some? { assert ([l0] + after.value)[0] == l0 && ([l0] + after.value)[1..] == after.value; }
      }
    }
  }

  // Editing one key leaves the entries of every other key alone.
  lemma {:induction false} ApplyKeepsOthers<T(!new)>(keyOf: T -> Option<string>, l: seq<T>, e: Edit<T>, key: string)
    requires e.key != key && KeepsKey(keyOf, e)
    requires Apply(keyOf, l, e).Some?
    ensures At(keyOf, Apply(keyOf, l, e).value, key) == At(keyOf, l, key)
  {
    var r := Apply(keyOf, l, e).value;
    if l == [] {
      assert r[1..] == [];
    } else if keyOf(l[0]) == Some(e.key) {
      if e.present(l[0]).Keep? { assert r[1..] == l[1..]; }
      WithoutKeepsOthers(keyOf, l[1..], e.key, key);
    } else {
      ApplyKeepsOthers(keyOf, l[1..], e, key);
      assert r[1..] == Apply(keyOf, l[1..], e).value;
    }
  }

  // Edits of different keys commute once the later key is in the list.
  lemma {:induction false} Commute<T(!new)>(keyOf: T -> Option<string>, l: seq<T>, x: Edit<T>, e: Edit<T>)
    requires x.key != e.key && KeepsKey(keyOf, x) && KeepsKey(keyOf, e)
    requires At(keyOf, l, e.key).Some?
    ensures Then(keyOf, Apply(keyOf, l, x), e) == Then(keyOf, Apply(keyOf, l, e), x)
  {
    var l0, l1 := l[0], l[1..];
    if keyOf(l0) == Some(x.key) {
      if x.present(l0).Keep? { assert ([x.present(l0).value] + l1)[1..] == l1; }
      if x.present(l0).Drop? { WithoutThenApply(keyOf, l1, x.key, e); }
      var r := Apply(keyOf, l1, e);
      if r.Some? { assert ([l0] + r.value)[1..] == r.value; }
    } else if keyOf(l0) == Some(e.key) {
      if e.present(l0).Keep? { assert ([e.present(l0).value] + l1)[1..] == l1; }
      if e.present(l0).Drop? { WithoutThenApply(keyOf, l1, e.key, x); }
      var r := Apply(keyOf, l1, x);
      if r.Some? { assert ([l0] + r.value)[1..] == r.value; }
    } else {
      Commute(keyOf, l1, x, e);
      var rx, re := Apply(keyOf, l1, x), Apply(keyOf, l1, e);
      if rx.Some? { assert ([l0] + rx.value)[1..] == rx.value; }
      if re.Some? { assert ([l0] + re.value)[1..] == re.value; }
    }
  }

  ghost predicate Avoids<T(!new)>(es: seq<Edit<T>>, key: string) {
    forall i :: 0 <= i < |es| ==> es[i].key != key
  }

  ghost predicate AllKeepKeys<T(!new)>(keyOf: T -> Option<string>, es: seq<Edit<T>>) {
    forall i :: 0 <= i < |es| ==> KeepsKey(keyOf, es[i])
  }

  lemma {:induction false} CommuteRun<T(!new)>(keyOf: T -> Option<string>, l: seq<T>, es: seq<Edit<T>>, e: Edit<T>)
    requires Avoids(es, e.key) && AllKeepKeys(keyOf, es) && KeepsKey(keyOf, e)
    requires At(keyOf, l, e.key).Some?
    ensures Then(keyOf, Run(keyOf, l, es), e) == Run(keyOf, l, [e] + es)
    decreases |es|
  {
    assert ([e] + es)[1..] == es;
    if es != [] {
      var x := es[0];
      Commute(keyOf, l, x, e);
      var r := Apply(keyOf, l, x);
      if r.Some? {
        ApplyKeepsOthers(keyOf, l, x, e.key);
        CommuteRun(keyOf, r.value, es[1..], e);
        assert ([e] + es[1..])[1..] == es[1..];
      }
    }
  }

  // On the list entry `at` (or its absence), `f` does in one edit what `x` and then `e` do.
  ghost predicate Fuses<T(!new)>(at: Option<T>, x: Edit<T>, e: Edit<T>, f: Edit<T>) {
    && x.key == e.key == f.key
    && (at.Some? ==>
          && x.present(at.value).Keep?
          && f.present(at.value) == e.present(x.present(at.value).value))
    && (at.None? ==>
          && x.absent.Some?
          && !e.present(x.absent.value).Drop?
          && f.absent == if e.present(x.absent.value).Keep? then Some(e.present(x.absent.value).value) else None)
  }

  lemma {:induction false} FuseOne<T(!new)>(keyOf: T -> Option<string>, l: seq<T>, x: Edit<T>, e: Edit<T>, f: Edit<T>)
    requires Fuses(At(keyOf, l, x.key), x, e, f) && KeepsKey(keyOf, x)
    ensures Apply(keyOf, l, x).Some?
    ensures At(keyOf, Apply(keyOf, l, x).value, e.key).Some?
    ensures Apply(keyOf, Apply(keyOf, l, x).value, e) == Apply(keyOf, l, f)
  {
    if l == [] {
      var r := Apply(keyOf, l, x).value;
      assert forall y :: [y] + r[1..] == [y];
    } else if keyOf(l[0]) == Some(x.key) {
      assert Apply(keyOf, l, x).value[1..] == l[1..];
    } else {
      FuseOne(keyOf, l[1..], x, e, f);
      assert Apply(keyOf, l, x).value[1..] == Apply(keyOf, l[1..], x).value;
    }
  }

  // A later edit of an already edited key can be folded into the earlier one.
  lemma {:induction false} FuseInto<T(!new)>(keyOf: T -> Option<string>, l: seq<T>, es: seq<Edit<T>>, q: nat,
                                             e: Edit<T>, f: Edit<T>)
    requires q < |es| && AllKeepKeys(keyOf, es) && KeepsKey(keyOf, e)
    requires Fuses(At(keyOf, l, e.key), es[q], e, f)
    requires forall i :: 0 <= i < |es| && i != q ==> es[i].key != e.key
    ensures Run(keyOf, l, es[q := f]) == Then(keyOf, Run(keyOf, l, es), e)
    decreases |es|
  {
    var r := Apply(keyOf, l, es[0]);
    if q == 0 {
      assert es[0 := f][1..] == es[1..];
      FuseOne(keyOf, l, es[0], e, f);
      CommuteRun(keyOf, r.value, es[1..], e);
      assert ([e] + es[1..])[1..] == es[1..];
    } else {
      assert es[q := f][0] == es[0] && es[q := f][1..] == es[1..][q - 1 := f];
      if r.Some? {
        ApplyKeepsOthers(keyOf, l, es[0], e.key);
        FuseInto(keyOf, r.value, es[1..], q - 1, e, f);
      }
    }
  }

  ghost predicate Removes<T(!new)>(e: Edit<T>) {
    e.absent.None? && forall t :: e.present(t) == Drop
  }

  lemma {:induction false} RemoveAfter<T(!new)>(keyOf: T -> Option<string>, l: seq<T>, x: Edit<T>, e: Edit<T>)
    requires x.key == e.key && Removes(e) && KeepsKey(keyOf, x)
    requires At(keyOf, l, e.key).Some? && x.present(At(keyOf, l, e.key).value).Keep?
    ensures Apply(keyOf, l, x).Some?
    ensures At(keyOf, Apply(keyOf, l, x).value, e.key).Some?
    ensures Apply(keyOf, Apply(keyOf, l, x).value, e) == Apply(keyOf, l, e)
  {
    if keyOf(l[0]) == Some(x.key) {
      assert Apply(keyOf, l, x).value[1..] == l[1..];
    } else {
      RemoveAfter(keyOf, l[1..], x, e);
      assert Apply(keyOf, l, x).value[1..] == Apply(keyOf, l[1..], x).value;
    }
  }

  // Removing a key makes the earlier edit of that key irrelevant.
  lemma {:induction false} RemoveSupersedes<T(!new)>(keyOf: T -> Option<string>, l: seq<T>, es: seq<Edit<T>>, q: nat,
                                                     e: Edit<T>)
    requires q < |es| && AllKeepKeys(keyOf, es) && KeepsKey(keyOf, e)
    requires es[q].key == e.key && Removes(e)
    requires forall i :: 0 <= i < |es| && i != q ==> es[i].key != e.key
    requires At(keyOf, l, e.key).Some? && es[q].present(At(keyOf, l, e.key).value).Keep?
    requires Run(keyOf, l, es).Some?
    ensures Then(keyOf, Run(keyOf, l, es[..q] + es[q + 1..]), e) == Then(keyOf, Run(keyOf, l, es), e)
    decreases |es|
  {
    var r := Apply(keyOf, l, es[0]);
    var rest := es[..q] + es[q + 1..];
    if q == 0 {
      assert rest == es[1..];
      RemoveAfter(keyOf, l, es[0], e);
      CommuteRun(keyOf, r.value, es[1..], e);
      CommuteRun(keyOf, l, es[1..], e);
      assert ([e] + es[1..])[1..] == es[1..];
    } else {
      assert rest[0] == es[0] && rest[1..] == es[1..][..q - 1] + es[1..][q..];
      ApplyKeepsOthers(keyOf, l, es[0], e.key);
      RemoveSupersedes(keyOf, r.value, es[1..], q - 1, e);
    }
  }

  // An edit that succeeded in a run, on an entry present from the start.
  lemma {:induction false} RunTouches<T(!new)>(keyOf: T -> Option<string>, l: seq<T>, es: seq<Edit<T>>, q: nat)
    requires q < |es| && AllKeepKeys(keyOf, es) && Run(keyOf, l, es).Some?
    requires forall i :: 0 <= i < |es| && i != q ==> es[i].key != es[q].key
    ensures var at := At(keyOf, l, es[q].key);
            if at.Some? then !es[q].present(at.value).Fail? else es[q].absent.Some?
    decreases |es|
  {
    if q == 0 {
      ApplyTouches(keyOf, l, es[0]);
    } else {
      ApplyKeepsOthers(keyOf, l, es[0], es[q].key);
      RunTouches(keyOf, Apply(keyOf, l, es[0]).value, es[1..], q - 1);
    }
  }

  lemma {:induction false} ApplyTouches<T(!new)>(keyOf: T -> Option<string>, l: seq<T>, e: Edit<T>)
    requires Apply(keyOf, l, e).Some?
    ensures var at := At(keyOf, l, e.key);
            if at.Some? then !e.present(at.value).Fail? else e.absent.Some?
  {
    if l != [] && keyOf(l[0]) != Some(e.key) { ApplyTouches(keyOf, l[1..], e); }
  }

  lemma {:induction false} RunKeepsOthers<T(!new)>(keyOf: T -> Option<string>, l: seq<T>, es: seq<Edit<T>>, key: string)
    requires Avoids(es, key) && AllKeepKeys(keyOf, es) && Run(keyOf, l, es).Some?
    ensures At(keyOf, Run(keyOf, l, es).value, key) == At(keyOf, l, key)
    decreases |es|
  {
    if es != [] {
      ApplyKeepsOthers(keyOf, l, es[0], key);
      RunKeepsOthers(keyOf, Apply(keyOf, l, es[0]).value, es[1..], key);
    }
  }

  lemma {:induction false} ApplyLeaves<T(!new)>(keyOf: T -> Option<string>, l: seq<T>, e: Edit<T>)
    requires Apply(keyOf, l, e).Some? && KeepsKey(keyOf, e)
    requires var at := At(keyOf, l, e.key); at.Some? ==> !e.present(at.value).Drop?
    ensures var at := At(keyOf, l, e.key);
            if at.Some?
            then
              && e.present(at.value).Keep?
              && At(keyOf, Apply(keyOf, l, e).value, e.key) == Some(e.present(at.value).value)
            else e.absent.Some? && At(keyOf, Apply(keyOf, l, e).value, e.key) == e.absent
  {
    if l != [] && keyOf(l[0]) != Some(e.key) {
      ApplyLeaves(keyOf, l[1..], e);
      assert Apply(keyOf, l, e).value[1..] == Apply(keyOf, l[1..], e).value;
    }
  }

  // What a run leaves under a key that only edit `q` touches.
  lemma {:induction false} RunLeaves<T(!new)>(keyOf: T -> Option<string>, l: seq<T>, es: seq<Edit<T>>, q: nat)
    requires q < |es| && AllKeepKeys(keyOf, es) && Run(keyOf, l, es).Some?
    requires forall i :: 0 <= i < |es| && i != q ==> es[i].key != es[q].key
    requires var at := At(keyOf, l, es[q].key); at.Some? ==> !es[q].present(at.value).Drop?
    ensures var at, r := At(keyOf, l, es[q].key), At(keyOf, Run(keyOf, l, es).value, es[q].key);
            if at.Some? then es[q].present(at.value).Keep? && r == Some(es[q].present(at.value).value)
            else es[q].absent.Some? && r == es[q].absent
    decreases |es|
  {
    var next := Apply(keyOf, l, es[0]).value;
    if q == 0 {
      ApplyLeaves(keyOf, l, es[0]);
      RunKeepsOthers(keyOf, next, es[1..], es[0].key);
    } else {
      ApplyKeepsOthers(keyOf, l, es[0], es[q].key);
      RunLeaves(keyOf, next, es[1..], q - 1);
    }
  }

  // ----- Distinct keys -----

  ghost predicate DistinctKeys<T(!new)>(keyOf: T -> Option<string>, l: seq<T>) {
    forall i, j :: 0 <= i < j < |l| && keyOf(l[i]).Some? ==> keyOf(l[i]) != keyOf(l[j])
  }
}
