/** Lists without repetition, in the order in which another list first mentions their entries. */
module FirstSeen {

  function First<T(==)>(s: seq<T>, x: T): (i: nat)
    ensures i <= |s| && (i < |s| ==> s[i] == x)
    ensures forall k :: 0 <= k < i ==> s[k] != x
    ensures x in s ==> i < |s|
  {
    if s == [] || s[0] == x then 0 else 1 + First(s[1..], x)
  }

  ghost predicate InFirstOrder<T>(s: seq<T>, r: seq<T>) {
    && (forall i :: 0 <= i < |r| ==> r[i] in s) && (forall i :: 0 <= i < |s| ==> s[i] in r)
    && (forall i, j :: 0 <= i < j < |r| ==> First(s, r[i]) < First(s, r[j]))
  }

  lemma FirstInMore<T>(s: seq<T>, t: seq<T>, x: T)
    requires x in s
    ensures First(s + t, x) == First(s, x)
  {
    var i := First(s, x);
    assert (s + t)[i] == x;
  }

  lemma FirstAtEnd<T>(s: seq<T>, x: T)
    requires x !in s
    ensures First(s + [x], x) == |s|
  {
    assert (s + [x])[|s|] == x;
  }

  // One more entry is mentioned.
  lemma OneMore<T>(s: seq<T>, r: seq<T>, x: T)
    requires InFirstOrder(s, r)
    ensures InFirstOrder(s + [x], if x in r then r else r + [x])
  {
    var more := if x in r then r else r + [x];
    forall k | 0 <= k < |r| ensures First(s + [x], r[k]) == First(s, r[k]) {
      assert r[k] in r;
      FirstInMore(s, [x], r[k]);
    }
    if x !in r { FirstAtEnd(s, x); }
    forall i, j | 0 <= i < j < |more| ensures First(s + [x], more[i]) < First(s + [x], more[j]) {
      assert more[i] == r[i] && r[i] in r;
    }
  }
}
