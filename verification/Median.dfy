/** The median of measured values, and what a minority of rounds can do to it. */
module Median {

  // ----- Sorting -----

  function Insert(x: real, s: seq<real>): (r: seq<real>)
    ensures |r| == |s| + 1
  {
    if s == [] || x <= s[0] then [x] + s else [s[0]] + Insert(x, s[1..])
  }

  function Sort(s: seq<real>): (r: seq<real>)
    ensures |r| == |s|
  {
    if s == [] then [] else Insert(s[0], Sort(s[1..]))
  }

  ghost predicate Ascending(s: seq<real>) {
    forall i, j :: 0 <= i < j < |s| ==> s[i] <= s[j]
  }

  lemma {:induction false} InsertKeeps(x: real, s: seq<real>)
    ensures multiset(Insert(x, s)) == multiset(s) + multiset{x}
  {
    if s == [] || x <= s[0] {
      assert multiset([x] + s) == multiset(s) + multiset{x};
    } else {
      InsertKeeps(x, s[1..]);
      assert s == [s[0]] + s[1..];
    }
  }

  lemma InsertBound(x: real, s: seq<real>, bound: real)
    requires bound <= x && forall i :: 0 <= i < |s| ==> bound <= s[i]
    ensures forall j :: 0 <= j < |Insert(x, s)| ==> bound <= Insert(x, s)[j]
  {
  }

  lemma {:induction false} InsertAscends(x: real, s: seq<real>)
    requires Ascending(s)
    ensures Ascending(Insert(x, s))
  {
    if s != [] && x > s[0] {
      InsertAscends(x, s[1..]);
      InsertBound(x, s[1..], s[0]);
    }
  }

  lemma {:induction false} SortAscends(s: seq<real>)
    ensures Ascending(Sort(s)) && multiset(Sort(s)) == multiset(s)
  {
    if s != [] {
      SortAscends(s[1..]);
      InsertAscends(s[0], Sort(s[1..]));
      InsertKeeps(s[0], Sort(s[1..]));
      assert s == [s[0]] + s[1..];
    }
  }

  // ----- Median -----

  function Middle(s: seq<real>): real
    requires s != []
  {
    var n := |s|;
    if n % 2 == 1 then s[n / 2] else (s[n / 2 - 1] + s[n / 2]) / 2.0
  }

  function MedianOf(values: seq<real>): real
    requires values != []
  {
    Middle(Sort(values))
  }

  // Round to the nearest integer, a half to the even one.
  function Round(x: real): int {
    var down := x.Floor;
    var part := x - down as real;
    if part < 0.5 || (part == 0.5 && down % 2 == 0) then down else down + 1
  }

  // ----- The order of rounds does not matter -----

  lemma TailMultiset(a: seq<real>)
    requires a != []
    ensures multiset(a[1..]) == multiset(a) - multiset{a[0]}
  {
    assert a == [a[0]] + a[1..];
  }

  lemma SameLength(a: seq<real>, b: seq<real>)
    requires multiset(a) == multiset(b)
    ensures |a| == |b|
  {
    assert |multiset(a)| == |a| && |multiset(b)| == |b|;
  }

  lemma HeadsAgree(a: seq<real>, b: seq<real>)
    requires a != [] && b != [] && Ascending(a) && Ascending(b) && multiset(a) == multiset(b)
    ensures a[0] == b[0]
  {
    assert a[0] in multiset(b) && b[0] in multiset(a);
  }

  lemma {:induction false} SortedIsUnique(a: seq<real>, b: seq<real>)
    requires Ascending(a) && Ascending(b) && multiset(a) == multiset(b)
    ensures a == b
  {
    SameLength(a, b);
    if a != [] {
      HeadsAgree(a, b);
      TailMultiset(a);
      TailMultiset(b);
      SortedIsUnique(a[1..], b[1..]);
      assert a == [a[0]] + a[1..] && b == [b[0]] + b[1..];
    }
  }

  lemma MedianIgnoresOrder(xs: seq<real>, ys: seq<real>)
    requires xs != [] && multiset(xs) == multiset(ys)
    ensures ys != [] && MedianOf(xs) == MedianOf(ys)
  {
    SameLength(xs, ys);
    SortAscends(xs);
    SortAscends(ys);
    SortedIsUnique(Sort(xs), Sort(ys));
  }

  // However the values are put in order: the middle one, or half the sum of the two in
  // the middle.
  lemma MedianIsMiddle(values: seq<real>, s: seq<real>)
    requires values != [] && Ascending(s) && multiset(s) == multiset(values)
    ensures |s| == |values|
    ensures |s| % 2 == 1 ==> MedianOf(values) == s[|s| / 2]
    ensures |s| % 2 == 0 ==> 2.0 * MedianOf(values) == s[|s| / 2 - 1] + s[|s| / 2]
  {
    SameLength(s, values);
    SortAscends(values);
    SortedIsUnique(s, Sort(values));
  }

  // ----- A minority cannot move it -----

  function CountAbove(s: seq<real>, bound: real): nat {
    if s == [] then 0 else (if s[0] > bound then 1 else 0) + CountAbove(s[1..], bound)
  }

  function CountBelow(s: seq<real>, bound: real): nat {
    if s == [] then 0 else (if s[0] < bound then 1 else 0) + CountBelow(s[1..], bound)
  }

  lemma {:induction false} InsertCounts(x: real, s: seq<real>, bound: real)
    ensures CountAbove(Insert(x, s), bound) == (if x > bound then 1 else 0) + CountAbove(s, bound)
    ensures CountBelow(Insert(x, s), bound) == (if x < bound then 1 else 0) + CountBelow(s, bound)
  {
    if s == [] || x <= s[0] {
      assert ([x] + s)[1..] == s;
    } else {
      InsertCounts(x, s[1..], bound);
      assert ([s[0]] + Insert(x, s[1..]))[1..] == Insert(x, s[1..]);
    }
  }

  lemma {:induction false} SortCounts(s: seq<real>, bound: real)
    ensures CountAbove(Sort(s), bound) == CountAbove(s, bound)
    ensures CountBelow(Sort(s), bound) == CountBelow(s, bound)
  {
    if s != [] {
      SortCounts(s[1..], bound);
      InsertCounts(s[0], Sort(s[1..]), bound);
    }
  }

  // If a sorted entry is above the bound, so is everything from there on.
  lemma {:induction false} AboveFrom(s: seq<real>, i: nat, bound: real)
    requires Ascending(s) && i < |s| && s[i] > bound
    ensures CountAbove(s, bound) >= |s| - i
  {
    if i > 0 {
      AboveFrom(s[1..], i - 1, bound);
    } else if |s| > 1 {
      assert s[0] <= s[1];
      AboveFrom(s[1..], 0, bound);
    }
  }

  lemma {:induction false} BelowUpTo(s: seq<real>, i: nat, bound: real)
    requires Ascending(s) && i < |s| && s[i] < bound
    ensures CountBelow(s, bound) >= i + 1
  {
    if i > 0 {
      assert s[0] <= s[i];
      BelowUpTo(s[1..], i - 1, bound);
    }
  }

  // If fewer than half of the values lie above `hi`, and fewer than half below `lo`,
  // the median lies between them.
  lemma MinorityCannotMove(values: seq<real>, lo: real, hi: real)
    requires values != []
    requires 2 * CountAbove(values, hi) < |values| && 2 * CountBelow(values, lo) < |values|
    ensures lo <= MedianOf(values) <= hi
  {
    var s, n := Sort(values), |values|;
    SortAscends(values);
    SortCounts(values, hi);
    SortCounts(values, lo);
    var upper := n / 2;
    var lower := if n % 2 == 1 then n / 2 else n / 2 - 1;
    if s[upper] > hi { AboveFrom(s, upper, hi); }
    if s[lower] > hi { AboveFrom(s, lower, hi); }
    if s[upper] < lo { BelowUpTo(s, upper, lo); }
    if s[lower] < lo { BelowUpTo(s, lower, lo); }
  }

  lemma RoundStaysBetween(x: real, lo: int, hi: int)
    requires lo as real <= x <= hi as real
    ensures lo <= Round(x) <= hi
  {
  }

  // ----- One outlier -----

  lemma {:induction false} OneCounts(values: seq<real>, k: nat, lo: real, hi: real)
    requires forall i :: 0 <= i < |values| && i != k ==> lo <= values[i] <= hi
    ensures CountAbove(values, hi) <= 1 && CountBelow(values, lo) <= 1
    ensures k >= |values| ==> CountAbove(values, hi) == 0 && CountBelow(values, lo) == 0
  {
    if values != [] {
      assert forall i :: 0 <= i < |values[1..]| ==> values[1..][i] == values[i + 1];
      OneCounts(values[1..], if k == 0 then |values| else k - 1, lo, hi);
    }
  }

  // With three or more rounds, whatever one round reports, the median stays between
  // the least and the greatest of the others.
  lemma OutlierIsBounded(values: seq<real>, k: nat, outlier: real, lo: real, hi: real)
    requires |values| >= 3 && k < |values|
    requires forall i :: 0 <= i < |values| && i != k ==> lo <= values[i] <= hi
    ensures lo <= MedianOf(values[k := outlier]) <= hi
  {
    OneCounts(values[k := outlier], k, lo, hi);
    MinorityCannotMove(values[k := outlier], lo, hi);
  }

  // ----- Rounding and symmetry -----

  // The nearest integer, and of two nearest ones the even one.
  lemma RoundIsNearest(x: real)
    ensures -0.5 <= Round(x) as real - x <= 0.5
    ensures x - x.Floor as real == 0.5 ==> Round(x) % 2 == 0
  {
  }

  function Negated(s: seq<real>): (r: seq<real>)
    ensures |r| == |s| && forall i :: 0 <= i < |s| ==> r[i] == -s[i]
  {
    seq(|s|, i requires 0 <= i < |s| => -s[i])
  }

  function Reversed(s: seq<real>): (r: seq<real>)
    ensures |r| == |s| && forall i :: 0 <= i < |s| ==> r[i] == s[|s| - 1 - i]
  {
    seq(|s|, i requires 0 <= i < |s| => s[|s| - 1 - i])
  }

  lemma {:induction false} ReversedKeeps(s: seq<real>)
    ensures multiset(Reversed(s)) == multiset(s)
  {
    if s == [] {
      assert Reversed(s) == s;
    } else {
      ReversedKeeps(s[1..]);
      assert Reversed(s) == Reversed(s[1..]) + [s[0]];
      assert s == [s[0]] + s[1..];
    }
  }

  lemma HeadCount(s: seq<real>, x: real)
    requires s != []
    ensures multiset(s)[x] == (if s[0] == x then 1 else 0) + multiset(s[1..])[x]
  {
    TailMultiset(s);
    assert s[0] in multiset(s);
  }

  lemma NegatedTail(s: seq<real>)
    requires s != []
    ensures Negated(s)[1..] == Negated(s[1..])
  {
  }

  lemma {:induction false} NegatedCount(s: seq<real>, x: real)
    ensures multiset(Negated(s))[x] == multiset(s)[-x]
  {
    if s != [] {
      NegatedCount(s[1..], x);
      NegatedTail(s);
      HeadCount(Negated(s), x);
      HeadCount(s, -x);
    }
  }

  lemma NegatedKeeps(a: seq<real>, b: seq<real>)
    requires multiset(a) == multiset(b)
    ensures multiset(Negated(a)) == multiset(Negated(b))
  {
    forall x ensures multiset(Negated(a))[x] == multiset(Negated(b))[x] {
      NegatedCount(a, x);
      NegatedCount(b, x);
    }
  }

  lemma MirrorMiddle(s: seq<real>)
    requires s != [] && Ascending(s)
    ensures Ascending(Reversed(Negated(s))) && Middle(Reversed(Negated(s))) == -Middle(s)
  {
  }

  // Mirrored values have the mirrored median: neither side is favoured.
  lemma MedianMirrors(values: seq<real>)
    requires values != []
    ensures MedianOf(Negated(values)) == -MedianOf(values)
  {
    var s := Sort(values);
    SortAscends(values);
    MirrorMiddle(s);
    assert Sort(Negated(values)) == Reversed(Negated(s)) by {
      SortAscends(Negated(values));
      NegatedKeeps(s, values);
      ReversedKeeps(Negated(s));
      SortedIsUnique(Sort(Negated(values)), Reversed(Negated(s)));
    }
  }
}
