/** Taking some entries out of a list: which are left, and where they stand. */
module Thinning {

  // How many of the first `n` entries are to go.
  function GoneBefore<T>(l: seq<T>, gone: T -> bool, n: nat): (r: nat)
    requires n <= |l|
    ensures r <= n
  {
    if n == 0 then 0 else GoneBefore(l, gone, n - 1) + if gone(l[n - 1]) then 1 else 0
  }

  // Entry `i` stands as many places further up as entries before it are gone.
  ghost predicate StandsAt<T>(l: seq<T>, gone: T -> bool, r: seq<T>, i: nat)
    requires i < |l|
  {
    var k := i - GoneBefore(l, gone, i);
    k < |r| && r[k] == l[i]
  }

  // Exactly the entries to go are gone, and the others stand in the same order.
  ghost predicate Thinned<T>(l: seq<T>, gone: T -> bool, r: seq<T>) {
    && |r| == |l| - GoneBefore(l, gone, |l|)
    && forall i :: 0 <= i < |l| && !gone(l[i]) ==> StandsAt(l, gone, r, i)
  }

  lemma {:induction false} GoneInPrefix<T>(l: seq<T>, gone: T -> bool, m: nat, n: nat)
    requires n <= m <= |l|
    ensures GoneBefore(l[..m], gone, n) == GoneBefore(l, gone, n)
    decreases n
  {
    if n > 0 { GoneInPrefix(l, gone, m, n - 1); }
  }

  function Kept<T>(l: seq<T>, gone: T -> bool): seq<T> {
    if l == [] then [] else (if gone(l[0]) then [] else [l[0]]) + Kept(l[1..], gone)
  }

  lemma {:induction false} KeptSplit<T>(a: seq<T>, b: seq<T>, gone: T -> bool)
    ensures Kept(a + b, gone) == Kept(a, gone) + Kept(b, gone)
  {
    if a == [] {
      assert a + b == b;
    } else {
      assert (a + b)[0] == a[0] && (a + b)[1..] == a[1..] + b;
      KeptSplit(a[1..], b, gone);
    }
  }

  lemma StandsInMore<T>(l: seq<T>, gone: T -> bool, r: seq<T>, more: seq<T>, m: nat, i: nat)
    requires i < m <= |l| && StandsAt(l[..m], gone, r, i)
    ensures StandsAt(l, gone, r + more, i)
  {
    GoneInPrefix(l, gone, m, i);
  }

  lemma {:induction false} KeptIsThinned<T>(l: seq<T>, gone: T -> bool)
    ensures Thinned(l, gone, Kept(l, gone))
    decreases |l|
  {
    if l != [] {
      var m := |l| - 1;
      var p, x := l[..m], l[m];
      assert l == p + [x] && [x][1..] == [];
      KeptIsThinned(p, gone);
      KeptSplit(p, [x], gone);
      GoneInPrefix(l, gone, m, m);
      forall i | 0 <= i < |l| && !gone(l[i]) ensures StandsAt(l, gone, Kept(l, gone), i) {
        if i < m {
          assert p[i] == l[i] && StandsAt(p, gone, Kept(p, gone), i);
          StandsInMore(l, gone, Kept(p, gone), Kept([x], gone), m, i);
        }
      }
    }
  }

  lemma {:induction false} NoneGone<T>(l: seq<T>, gone: T -> bool)
    ensures |Kept(l, gone)| <= |l|
    ensures |Kept(l, gone)| == |l| <==> forall i :: 0 <= i < |l| ==> !gone(l[i])
  {
    if l != [] {
      NoneGone(l[1..], gone);
      assert forall i :: 1 <= i < |l| ==> l[i] == l[1..][i - 1];
    }
  }
}
