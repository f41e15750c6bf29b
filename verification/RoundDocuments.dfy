/** Combining round documents scenario by scenario, and the gate before promotion. */
module RoundDocuments {
  import opened Wrappers
  import opened RoundMerge
  import opened Thinning

  datatype Status = Good | Invalid | Failed(reason: string)

  datatype Scenario = Scenario(id: string, status: Status, metrics: Value, secondary: Value, details: string)

  type Document = seq<Scenario>

  datatype MergeError = TooFewRounds | MixedShapes

  // ----- One scenario -----

  function WithStatus(rounds: seq<Scenario>, status: Status): (r: seq<Scenario>)
    ensures forall x :: x in r <==> x in rounds && x.status == status
  {
    if rounds == [] then []
    else if rounds[0].status == status then [rounds[0]] + WithStatus(rounds[1..], status)
    else WithStatus(rounds[1..], status)
  }

  function Last(rounds: seq<Scenario>): (r: Scenario)
    requires rounds != []
    ensures r in rounds
  {
    rounds[|rounds| - 1]
  }

  function Metrics(rounds: seq<Scenario>): seq<Value> {
    seq(|rounds|, i requires 0 <= i < |rounds| => rounds[i].metrics)
  }

  predicate Truthy(v: Value) {
    v != Null && v != Dict([]) && v != Other("") && v != Whole(0) && v != Fraction(0.0)
  }

  function Secondary(rounds: seq<Scenario>): seq<Value> {
    if rounds == [] then []
    else if Truthy(rounds[0].secondary) then [rounds[0].secondary] + Secondary(rounds[1..])
    else Secondary(rounds[1..])
  }

  function MergeScenario(rounds: seq<Scenario>): Option<Scenario> {
    var good, invalid := WithStatus(rounds, Good), WithStatus(rounds, Invalid);
    if rounds == [] then None
    else if good == [] then Some(Last(rounds))
    else if invalid != [] then Some(Last(invalid))
    else
      var metrics := MergeValues(Metrics(good));
      var secondary := if Secondary(good) == [] then Some(Last(good).secondary) else MergeValues(Secondary(good));
      if metrics.None? || secondary.None? then None
      else Some(Last(good).(metrics := metrics.value, secondary := secondary.value))
  }

  // ----- All scenarios -----

  function All(docs: seq<Document>): Document {
    if docs == [] then [] else docs[0] + All(docs[1..])
  }

  // The ids in the order in which they are first seen.
  function Ids(all: Document): (r: seq<string>) {
    if all == [] then []
    else
      var before, id := Ids(all[..|all| - 1]), Last(all).id;
      if id in before then before else before + [id]
  }

  function Rounds(all: Document, id: string): seq<Scenario> {
    if all == [] then []
    else
      var before := Rounds(all[..|all| - 1], id);
      if Last(all).id == id then before + [Last(all)] else before
  }

  lemma {:induction false} RoundsAre(all: Document, id: string)
    ensures forall x :: x in Rounds(all, id) <==> x in all && x.id == id
  {
    if all != [] {
      RoundsAre(all[..|all| - 1], id);
      assert all == all[..|all| - 1] + [Last(all)];
    }
  }

  function MergeEach(all: Document, ids: seq<string>): Option<Document> {
    if ids == [] then Some([])
    else
      var first, rest := MergeScenario(Rounds(all, ids[0])), MergeEach(all, ids[1..]);
      if first.None? || rest.None? then None else Some([first.value] + rest.value)
  }

  lemma {:induction false} IdsAreSeen(all: Document, id: string)
    ensures id in Ids(all) <==> Rounds(all, id) != []
  {
    if all != [] { IdsAreSeen(all[..|all| - 1], id); }
  }

  function Combine(docs: seq<Document>): Result<Document, MergeError> {
    if |docs| < 2 then Err(TooFewRounds)
    else
      match MergeEach(All(docs), Ids(All(docs)))
      case None => Err(MixedShapes)
      case Some(merged) => Ok(merged)
  }

  // ----- The loops of the code -----

  // The grouping built so far: the ids in order, and the rounds of each.
  ghost predicate Groups(all: Document, order: seq<string>, byId: map<string, seq<Scenario>>) {
    && order == Ids(all)
    && (forall id :: id in byId <==> id in order)
    && (forall id :: id in byId ==> byId[id] == Rounds(all, id))
  }

  function WithRound(byId: map<string, seq<Scenario>>, sc: Scenario): map<string, seq<Scenario>> {
    byId[sc.id := (if sc.id in byId then byId[sc.id] else []) + [sc]]
  }

  lemma RoundsOneMore(all: Document, sc: Scenario, id: string)
    ensures Rounds(all + [sc], id) == Rounds(all, id) + if sc.id == id then [sc] else []
    ensures Ids(all + [sc]) == if sc.id in Ids(all) then Ids(all) else Ids(all) + [sc.id]
  {
    var more := all + [sc];
    assert more[..|more| - 1] == all && Last(more) == sc;
  }

  lemma GroupsOneMore(all: Document, sc: Scenario, order: seq<string>, byId: map<string, seq<Scenario>>)
    requires Groups(all, order, byId)
    ensures Groups(all + [sc], if sc.id in byId then order else order + [sc.id], WithRound(byId, sc))
  {
    RoundsOneMore(all, sc, sc.id);
    IdsAreSeen(all, sc.id);
    forall id | id in byId && id != sc.id ensures byId[id] == Rounds(all + [sc], id) {
      RoundsOneMore(all, sc, id);
    }
  }

  type Grouping = (seq<string>, map<string, seq<Scenario>>)

  function AddRound(g: Grouping, sc: Scenario): Grouping {
    (if sc.id in g.1 then g.0 else g.0 + [sc.id], WithRound(g.1, sc))
  }

  function AddRounds(g: Grouping, all: Document): Grouping
    decreases |all|
  {
    if all == [] then g else AddRounds(AddRound(g, all[0]), all[1..])
  }

  lemma AddRoundAt(all: Document, k: nat, g: Grouping, next: Grouping)
    requires k < |all| && Groups(all[..k], g.0, g.1) && next == AddRound(g, all[k])
    ensures Groups(all[..k + 1], next.0, next.1)
    ensures AddRounds(g, all[k..]) == AddRounds(next, all[k + 1..])
  {
    assert all[..k + 1] == all[..k] + [all[k]];
    GroupsOneMore(all[..k], all[k], g.0, g.1);
    assert all[k..][0] == all[k] && all[k..][1..] == all[k + 1..];
  }

  lemma {:induction false} AddRoundsGroups(all: Document, k: nat, g: Grouping, last: Grouping)
    requires k <= |all| && Groups(all[..k], g.0, g.1) && last == AddRounds(g, all[k..])
    ensures Groups(all, last.0, last.1)
    decreases |all| - k
  {
    if k == |all| {
      assert all[..k] == all;
    } else {
      var next := AddRound(g, all[k]);
      AddRoundAt(all, k, g, next);
      AddRoundsGroups(all, k + 1, next, last);
    }
  }

  lemma {:induction false} AddRoundsSplit(g: Grouping, a: Document, b: Document)
    ensures AddRounds(g, a + b) == AddRounds(AddRounds(g, a), b)
    decreases |a|
  {
    if a == [] {
      assert a + b == b;
    } else {
      assert (a + b)[0] == a[0] && (a + b)[1..] == a[1..] + b;
      AddRoundsSplit(AddRound(g, a[0]), a[1..], b);
    }
  }

  method GroupById(docs: seq<Document>) returns (order: seq<string>, byId: map<string, seq<Scenario>>)
    ensures (order, byId) == AddRounds(([], map[]), All(docs))
  {
    order, byId := [], map[];
    ghost var whole: Grouping := AddRounds((order, byId), All(docs));
    assert docs[0..] == docs;
    for d := 0 to |docs|
      invariant AddRounds((order, byId), All(docs[d..])) == whole
    {
      assert docs[d..][0] == docs[d] && docs[d..][1..] == docs[d + 1..];
      var doc := docs[d];
      AddRoundsSplit((order, byId), doc, All(docs[d + 1..]));
      ghost var one: Grouping := AddRounds((order, byId), doc);
      assert doc[0..] == doc;
      for s := 0 to |doc|
        invariant AddRounds((order, byId), doc[s..]) == one
      {
        assert doc[s..][0] == doc[s] && doc[s..][1..] == doc[s + 1..];
        order, byId := AddOne(order, byId, doc[s]);
      }
    }
  }

  method AddOne(order0: seq<string>, byId0: map<string, seq<Scenario>>, sc: Scenario)
    returns (order: seq<string>, byId: map<string, seq<Scenario>>)
    ensures (order, byId) == AddRound((order0, byId0), sc)
  {
    order, byId := order0, byId0;
    if sc.id !in byId {
      byId := byId[sc.id := []];
      order := order + [sc.id];
    }
    byId := byId[sc.id := byId[sc.id] + [sc]];
    assert byId == WithRound(byId0, sc);
  }

  function MergeGroups(byId: map<string, seq<Scenario>>, ids: seq<string>): Option<Document>
    requires forall id :: id in ids ==> id in byId
  {
    if ids == [] then Some([])
    else
      var first, rest := MergeScenario(byId[ids[0]]), MergeGroups(byId, ids[1..]);
      if first.None? || rest.None? then None else Some([first.value] + rest.value)
  }

  lemma {:induction false} MergeGroupsIs(all: Document, byId: map<string, seq<Scenario>>, ids: seq<string>)
    requires forall id :: id in ids ==> id in byId && byId[id] == Rounds(all, id)
    ensures MergeGroups(byId, ids) == MergeEach(all, ids)
  {
    if ids != [] { MergeGroupsIs(all, byId, ids[1..]); }
  }

  method MergeMedianDocuments(docs: seq<Document>) returns (r: Result<Document, MergeError>)
    ensures r == Combine(docs)
  {
    if |docs| < 2 { return Err(TooFewRounds); }
    var order, byId := GroupById(docs);
    CombineGroups(docs, order, byId);
    var merged: Document := [];
    assert order[0..] == order;
    assert forall rest: Document :: [] + rest == rest;
    for i := 0 to |order|
      invariant MergeGroups(byId, order) == Joined(merged, MergeGroups(byId, order[i..]))
    {
      assert order[i..][0] == order[i] && order[i..][1..] == order[i + 1..];
      var scenario := MergeScenario(byId[order[i]]);
      if scenario.None? { return Err(MixedShapes); }
      JoinedStep(merged, scenario.value, MergeGroups(byId, order[i + 1..]));
      merged := merged + [scenario.value];
    }
    assert merged + [] == merged;
    return Ok(merged);
  }

  lemma CombineGroups(docs: seq<Document>, order: seq<string>, byId: map<string, seq<Scenario>>)
    requires |docs| >= 2 && (order, byId) == AddRounds(([], map[]), All(docs))
    ensures forall id :: id in order ==> id in byId
    ensures Combine(docs) == var m := MergeGroups(byId, order); if m.None? then Err(MixedShapes) else Ok(m.value)
  {
    var all := All(docs);
    assert all[0..] == all;
    AddRoundsGroups(all, 0, ([], map[]), (order, byId));
    MergeGroupsIs(all, byId, order);
  }

  lemma JoinedStep(merged: Document, sc: Scenario, rest: Option<Document>)
    ensures Joined(merged + [sc], rest) == Joined(merged, Joined([sc], rest))
  {
    if rest.Some? { assert merged + ([sc] + rest.value) == merged + [sc] + rest.value; }
  }

  function Joined(merged: Document, rest: Option<Document>): Option<Document> {
    if rest.None? then None else Some(merged + rest.value)
  }

  // ----- What is combined -----

  lemma StatusIff(rounds: seq<Scenario>)
    requires rounds != [] && MergeScenario(rounds).Some?
    ensures var m := MergeScenario(rounds).value;
            && (m.status == Good <==>
                (exists x :: x in rounds && x.status == Good) && (forall x :: x in rounds ==> x.status != Invalid))
            && (m.status == Invalid <==>
                if exists x :: x in rounds && x.status == Good then exists x :: x in rounds && x.status == Invalid
                else Last(rounds).status == Invalid)
            && exists x :: x in rounds && m.id == x.id
  {
    var good, invalid := WithStatus(rounds, Good), WithStatus(rounds, Invalid);
    if good != [] { assert Last(good) in rounds; }
    if invalid != [] { assert Last(invalid) in rounds; }
    if x :| x in rounds && x.status == Good { assert x in good; }
    if x :| x in rounds && x.status == Invalid { assert x in invalid; }
  }

  lemma {:induction false} MergeEachIs(all: Document, ids: seq<string>)
    requires MergeEach(all, ids).Some?
    ensures var merged := MergeEach(all, ids).value;
            && |merged| == |ids|
            && forall i :: 0 <= i < |ids| ==>
                 MergeScenario(Rounds(all, ids[i])) == Some(merged[i]) && merged[i].id == ids[i]
  {
    if ids != [] {
      RoundsAre(all, ids[0]);
      StatusIff(Rounds(all, ids[0]));
      MergeEachIs(all, ids[1..]);
      var merged := MergeEach(all, ids).value;
      assert merged[1..] == MergeEach(all, ids[1..]).value;
      forall i | 0 <= i < |ids|
        ensures MergeScenario(Rounds(all, ids[i])) == Some(merged[i]) && merged[i].id == ids[i]
      {
        if i > 0 { assert merged[i] == merged[1..][i - 1] && ids[i] == ids[1..][i - 1]; }
      }
    }
  }

  lemma {:induction false} IdsAreDistinct(all: Document)
    ensures forall i, j :: 0 <= i < j < |Ids(all)| ==> Ids(all)[i] != Ids(all)[j]
    ensures forall i :: 0 <= i < |all| ==> all[i].id in Ids(all)
  {
    if all != [] {
      IdsAreDistinct(all[..|all| - 1]);
    }
  }

  // Every scenario of any round appears exactly once, in the order first seen, and is
  // good exactly when some round of it was good and none was invalid.
  lemma CombineConserves(docs: seq<Document>)
    requires Combine(docs).Ok?
    ensures var all, merged := All(docs), Combine(docs).value;
            && |merged| == |Ids(all)|
            && (forall i :: 0 <= i < |merged| ==>
                  merged[i].id == Ids(all)[i] && MergeScenario(Rounds(all, merged[i].id)) == Some(merged[i]))
            && (forall i, j :: 0 <= i < j < |merged| ==> merged[i].id != merged[j].id)
            && (forall x :: x in all ==> exists i :: 0 <= i < |merged| && merged[i].id == x.id)
  {
    var all, merged := All(docs), Combine(docs).value;
    var ids := Ids(all);
    MergeEachIs(all, ids);
    IdsAreDistinct(all);
    forall x | x in all ensures exists i :: 0 <= i < |merged| && merged[i].id == x.id {
      assert x.id in ids;
      var i :| 0 <= i < |ids| && ids[i] == x.id;
      assert merged[i].id == x.id;
    }
  }

  // ----- The gate -----

  predicate Promotable(doc: Document)
    ensures Promotable(doc) <==> forall m :: m in doc ==> m.status != Invalid
  {
    var offenders := WithStatus(doc, Invalid);
    assert offenders != [] ==> offenders[0] in offenders;
    offenders == []
  }

  // The scenario was good in no round and did not end invalid: its last round is published
  // as it is, whatever the rounds before it were.
  ghost predicate Overlooked(rounds: seq<Scenario>)
    requires rounds != []
  {
    (forall x :: x in rounds ==> x.status != Good) && Last(rounds).status != Invalid
  }

  ghost predicate InvalidIsOverlooked(all: Document, x: Scenario)
    requires x in all
  {
    RoundsAre(all, x.id);
    x.status == Invalid ==> Overlooked(Rounds(all, x.id))
  }

  // The combined document passes if and only if every invalid round is overlooked.
  lemma PromotableIff(docs: seq<Document>)
    requires Combine(docs).Ok?
    ensures Promotable(Combine(docs).value) <==> forall x :: x in All(docs) ==> InvalidIsOverlooked(All(docs), x)
  {
    var all, merged := All(docs), Combine(docs).value;
    CombineConserves(docs);
    if Promotable(merged) {
      forall x | x in all ensures InvalidIsOverlooked(all, x) {
        RoundsAre(all, x.id);
        var i :| 0 <= i < |merged| && merged[i].id == x.id;
        assert merged[i] in merged;
        StatusIff(Rounds(all, x.id));
      }
    } else {
      var m :| m in merged && m.status == Invalid;
      var i :| 0 <= i < |merged| && merged[i] == m;
      InvalidIsNotOverlooked(all, m);
    }
  }

  lemma InvalidIsNotOverlooked(all: Document, m: Scenario)
    requires MergeScenario(Rounds(all, m.id)) == Some(m) && m.status == Invalid
    ensures exists x :: x in all && !InvalidIsOverlooked(all, x)
  {
    var rounds := Rounds(all, m.id);
    StatusIff(rounds);
    RoundsAre(all, m.id);
    var x :| x in rounds && x.status == Invalid;
    assert x in all && x.id == m.id;
    assert !InvalidIsOverlooked(all, x);
  }

  // A round that failed the answer gate is promoted when the last round failed otherwise.
  lemma InvalidRoundPasses(x: Scenario, y: Scenario)
    requires x.id == y.id && x.status == Invalid && y.status.Failed?
    ensures Combine([[x], [y]]) == Ok([y]) && Promotable([y])
  {
    var all := [x, y];
    assert All([[y]]) == [y] && All([[x], [y]]) == all;
    assert all[..1] == [x] && [x][..0] == [];
    assert Rounds([x], x.id) == [x] && Rounds(all, x.id) == all;
    assert Ids([x]) == [x.id] && Ids(all) == [x.id];
    assert all[1..] == [y] && [y][1..] == [] && WithStatus([y], Good) == [] && WithStatus(all, Good) == [];
    assert MergeScenario(all) == Some(y);
    assert MergeEach(all, [x.id]) == Some([y]);
  }

  // ----- The published numbers -----

  // With three or more good rounds and no invalid one, whatever good round `k` reports, a
  // published number stays between the least and the greatest of the other good rounds.
  lemma PublishedOutlierIsBounded(rounds: seq<Scenario>, path: seq<string>, k: nat, a: nat, b: nat)
    requires MergeScenario(rounds).Some? && WithStatus(rounds, Invalid) == []
    requires var vs := Metrics(WithStatus(rounds, Good));
             && |vs| >= 3 && k < |vs| && a < |vs| && b < |vs| && a != k && b != k
             && SameShape(vs, path) && AllNumeric(Along(vs, path))
             && var xs := Along(vs, path);
                forall i :: 0 <= i < |xs| && i != k ==> Amount(xs[a]) <= Amount(xs[i]) <= Amount(xs[b])
    ensures var xs := Along(Metrics(WithStatus(rounds, Good)), path);
            var published := Lookup(MergeScenario(rounds).value.metrics, path);
            Numeric(published) && Amount(xs[a]) <= Amount(published) <= Amount(xs[b])
  {
    OutlierRoundIsBounded(Metrics(WithStatus(rounds, Good)), path, k, a, b);
  }

  lemma CountCons(x: Scenario, s: seq<Scenario>, y: Scenario)
    ensures multiset([x] + s)[y] == (if x == y then 1 else 0) + multiset(s)[y]
    ensures multiset(s + [x])[y] == (if x == y then 1 else 0) + multiset(s)[y]
  {
  }

  lemma {:induction false} StatusCounts(rounds: seq<Scenario>, status: Status, x: Scenario)
    ensures multiset(WithStatus(rounds, status))[x] == if x.status == status then multiset(rounds)[x] else 0
  {
    if rounds != [] {
      StatusCounts(rounds[1..], status, x);
      assert rounds == [rounds[0]] + rounds[1..];
      CountCons(rounds[0], rounds[1..], x);
      CountCons(rounds[0], WithStatus(rounds[1..], status), x);
    }
  }

  lemma {:induction false} RoundCounts(all: Document, id: string, x: Scenario)
    ensures multiset(Rounds(all, id))[x] == if x.id == id then multiset(all)[x] else 0
  {
    if all != [] {
      var before := all[..|all| - 1];
      RoundCounts(before, id, x);
      assert all == before + [Last(all)];
      CountCons(Last(all), before, x);
      CountCons(Last(all), Rounds(before, id), x);
    }
  }

  lemma {:induction false} AllWithout(docs: seq<Document>, i: nat)
    requires i < |docs|
    ensures multiset(All(docs)) == multiset(All(Without(docs, i))) + multiset(docs[i])
  {
    if i == 0 {
      assert Without(docs, 0) == docs[1..];
    } else {
      AllWithout(docs[1..], i - 1);
      WithoutTail(docs, i);
      Associate(multiset(docs[0]), multiset(All(Without(docs[1..], i - 1))), multiset(docs[i]));
    }
  }

  lemma {:induction false} AllReordered(a: seq<Document>, b: seq<Document>)
    requires multiset(a) == multiset(b)
    ensures multiset(All(a)) == multiset(All(b))
    decreases |a|
  {
    if a == [] {
      assert |multiset(b)| == |b|;
    } else {
      var i := Reordered(a, b);
      AllReordered(a[1..], Without(b, i));
      AllWithout(b, i);
      AllWithout(a, 0);
      assert Without(a, 0) == a[1..];
    }
  }

  lemma GoodReordered(a: Document, b: Document, id: string)
    requires multiset(a) == multiset(b)
    ensures multiset(Rounds(a, id)) == multiset(Rounds(b, id))
    ensures multiset(WithStatus(Rounds(a, id), Good)) == multiset(WithStatus(Rounds(b, id), Good))
    ensures multiset(Metrics(WithStatus(Rounds(a, id), Good))) == multiset(Metrics(WithStatus(Rounds(b, id), Good)))
  {
    var x, y := Rounds(a, id), Rounds(b, id);
    forall s ensures multiset(x)[s] == multiset(y)[s] {
      RoundCounts(a, id, s);
      RoundCounts(b, id, s);
    }
    var good, good' := WithStatus(x, Good), WithStatus(y, Good);
    forall s ensures multiset(good)[s] == multiset(good')[s] {
      StatusCounts(x, Good, s);
      StatusCounts(y, Good, s);
    }
    var metrics := (s: Scenario) => s.metrics;
    MappedReorders(good, good', metrics);
    assert Mapped(good, metrics) == Metrics(good) && Mapped(good', metrics) == Metrics(good');
  }

  // What is published good for a scenario: the merged metrics of its good rounds.
  lemma GoodIsMerged(rounds: seq<Scenario>)
    requires MergeScenario(rounds).Some? && MergeScenario(rounds).value.status == Good
    ensures MergeValues(Metrics(WithStatus(rounds, Good))) == Some(MergeScenario(rounds).value.metrics)
  {
    StatusIff(rounds);
    var x :| x in rounds && x.status == Good;
    assert x in WithStatus(rounds, Good);
    NoneWithStatus(rounds, Invalid);
  }

  lemma {:induction false} NoneWithStatus(rounds: seq<Scenario>, status: Status)
    requires forall x :: x in rounds ==> x.status != status
    ensures WithStatus(rounds, status) == []
  {
    if rounds != [] { NoneWithStatus(rounds[1..], status); }
  }

  lemma GoodEitherWay(x: seq<Scenario>, y: seq<Scenario>)
    requires multiset(x) == multiset(y) && MergeScenario(x).Some? && MergeScenario(y).Some?
    ensures MergeScenario(x).value.status == Good <==> MergeScenario(y).value.status == Good
  {
    StatusIff(x);
    StatusIff(y);
    assert forall s :: s in x <==> s in multiset(x);
    assert forall s :: s in y <==> s in multiset(y);
  }

  // In whatever order the documents of the rounds are combined, the same scenarios are
  // published good, with the same number at every path where the rounds hold numbers or
  // nothing.
  lemma DocumentOrderIsIrrelevant(docs: seq<Document>, docs': seq<Document>, m: Scenario, m': Scenario,
                                  path: seq<string>)
    requires multiset(docs) == multiset(docs') && Combine(docs).Ok? && Combine(docs').Ok?
    requires m in Combine(docs).value && m' in Combine(docs').value && m.id == m'.id
    requires var vs := Metrics(WithStatus(Rounds(All(docs), m.id), Good));
             SameShape(vs, path) && AllNumeric(Present(Along(vs, path)))
    ensures m.status == Good <==> m'.status == Good
    ensures m.status == Good ==> Lookup(m.metrics, path) == Lookup(m'.metrics, path)
  {
    var x, y := Rounds(All(docs), m.id), Rounds(All(docs'), m.id);
    CombineConserves(docs);
    CombineConserves(docs');
    assert MergeScenario(x) == Some(m) && MergeScenario(y) == Some(m');
    AllReordered(docs, docs');
    GoodReordered(All(docs), All(docs'), m.id);
    GoodEitherWay(x, y);
    if m.status == Good {
      GoodIsMerged(x);
      GoodIsMerged(y);
      RoundOrderIsIrrelevant(Metrics(WithStatus(x, Good)), Metrics(WithStatus(y, Good)), path);
    }
  }

  // ----- What else is published -----

  // A scenario that is published good is its last good round in all but the two measured
  // parts.
  lemma PublishedIsLastGood(rounds: seq<Scenario>)
    requires MergeScenario(rounds).Some? && MergeScenario(rounds).value.status == Good
    ensures var good, m := WithStatus(rounds, Good), MergeScenario(rounds).value;
            && good != [] && m.id == Last(good).id && m.details == Last(good).details
            && MergeValues(Metrics(good)) == Some(m.metrics)
            && (Secondary(good) == [] ==> m.secondary == Last(good).secondary)
            && (Secondary(good) != [] ==> MergeValues(Secondary(good)) == Some(m.secondary))
  {
    GoodIsMerged(rounds);
    GoodIsThere(rounds);
    NoneWithStatus(rounds, Invalid);
  }

  lemma GoodIsThere(rounds: seq<Scenario>)
    requires MergeScenario(rounds).Some? && MergeScenario(rounds).value.status == Good
    ensures WithStatus(rounds, Good) != [] && forall x :: x in rounds ==> x.status != Invalid
  {
    StatusIff(rounds);
    var x :| x in rounds && x.status == Good;
    assert x in WithStatus(rounds, Good);
  }

  // A scenario that is not published good is one of its rounds, unchanged: the last invalid
  // one if there are good ones too, and the last of all if there are none.
  lemma PublishedIsLastRound(rounds: seq<Scenario>)
    requires rounds != [] && MergeScenario(rounds).Some? && MergeScenario(rounds).value.status != Good
    ensures var m := MergeScenario(rounds).value;
            if exists x :: x in rounds && x.status == Good then
              WithStatus(rounds, Invalid) != [] && m == Last(WithStatus(rounds, Invalid))
            else m == Last(rounds)
  {
    var good := WithStatus(rounds, Good);
    if x :| x in rounds && x.status == Good { assert x in good; }
    if good != [] { assert good[0] in good; }
  }

  // The secondary measurements of the rounds that have some, in order.
  lemma {:induction false} SecondaryIs(rounds: seq<Scenario>)
    ensures Secondary(rounds) == Kept(Mapped(rounds, (s: Scenario) => s.secondary), (v: Value) => !Truthy(v))
  {
    if rounds != [] {
      SecondaryIs(rounds[1..]);
      var all := Mapped(rounds, (s: Scenario) => s.secondary);
      assert all[0] == rounds[0].secondary && all[1..] == Mapped(rounds[1..], (s: Scenario) => s.secondary);
    }
  }

  lemma SecondaryStands(rounds: seq<Scenario>)
    ensures Thinned(Mapped(rounds, (s: Scenario) => s.secondary), (v: Value) => !Truthy(v), Secondary(rounds))
  {
    SecondaryIs(rounds);
    KeptIsThinned(Mapped(rounds, (s: Scenario) => s.secondary), (v: Value) => !Truthy(v));
  }

  // With three or more good rounds that have a secondary measurement, one of them moves no
  // published number of it beyond the least and the greatest of the others.
  lemma SecondaryOutlierIsBounded(rounds: seq<Scenario>, path: seq<string>, k: nat, a: nat, b: nat)
    requires MergeScenario(rounds).Some? && MergeScenario(rounds).value.status == Good
    requires var vs := Secondary(WithStatus(rounds, Good));
             && |vs| >= 3 && k < |vs| && a < |vs| && b < |vs| && a != k && b != k
             && SameShape(vs, path) && AllNumeric(Along(vs, path))
             && var xs := Along(vs, path);
                forall i :: 0 <= i < |xs| && i != k ==> Amount(xs[a]) <= Amount(xs[i]) <= Amount(xs[b])
    ensures var xs := Along(Secondary(WithStatus(rounds, Good)), path);
            var published := Lookup(MergeScenario(rounds).value.secondary, path);
            Numeric(published) && Amount(xs[a]) <= Amount(published) <= Amount(xs[b])
  {
    PublishedIsLastGood(rounds);
    OutlierRoundIsBounded(Secondary(WithStatus(rounds, Good)), path, k, a, b);
  }

  function SecondaryOf(x: Scenario): multiset<Value> {
    if Truthy(x.secondary) then multiset{x.secondary} else multiset{}
  }

  lemma SecondaryHead(rounds: seq<Scenario>)
    requires rounds != []
    ensures multiset(Secondary(rounds)) == SecondaryOf(rounds[0]) + multiset(Secondary(rounds[1..]))
  {
    var x, rest := rounds[0].secondary, Secondary(rounds[1..]);
    assert multiset([x] + rest) == multiset{x} + multiset(rest);
  }

  lemma {:induction false} SecondaryCounts(rounds: seq<Scenario>, i: nat)
    requires i < |rounds|
    ensures multiset(Secondary(rounds)) == multiset(Secondary(Without(rounds, i))) + SecondaryOf(rounds[i])
  {
    SecondaryHead(rounds);
    if i == 0 {
      assert Without(rounds, 0) == rounds[1..];
    } else {
      SecondaryCounts(rounds[1..], i - 1);
      WithoutTail(rounds, i);
      SecondaryHead(Without(rounds, i));
      Associate(SecondaryOf(rounds[0]), multiset(Secondary(Without(rounds[1..], i - 1))), SecondaryOf(rounds[i]));
    }
  }

  lemma {:induction false} SecondaryReorders(a: seq<Scenario>, b: seq<Scenario>)
    requires multiset(a) == multiset(b)
    ensures multiset(Secondary(a)) == multiset(Secondary(b))
    decreases |a|
  {
    if a == [] {
      assert |multiset(b)| == |b|;
    } else {
      var i := Reordered(a, b);
      SecondaryReorders(a[1..], Without(b, i));
      SecondaryCounts(b, i);
      SecondaryCounts(a, 0);
      assert Without(a, 0) == a[1..];
    }
  }

  // In whatever order the documents are combined, a scenario that is published good has
  // the same number at every numeric path of its secondary measurement, if any round of it
  // has one.
  lemma SecondaryIgnoresOrder(docs: seq<Document>, docs': seq<Document>, m: Scenario, m': Scenario, path: seq<string>)
    requires multiset(docs) == multiset(docs') && Combine(docs).Ok? && Combine(docs').Ok?
    requires m in Combine(docs).value && m' in Combine(docs').value && m.id == m'.id && m.status == Good
    requires var vs := Secondary(WithStatus(Rounds(All(docs), m.id), Good));
             vs != [] && SameShape(vs, path) && AllNumeric(Present(Along(vs, path)))
    ensures Lookup(m.secondary, path) == Lookup(m'.secondary, path)
  {
    var x, y := Rounds(All(docs), m.id), Rounds(All(docs'), m.id);
    CombineConserves(docs);
    CombineConserves(docs');
    assert MergeScenario(x) == Some(m) && MergeScenario(y) == Some(m');
    AllReordered(docs, docs');
    GoodReordered(All(docs), All(docs'), m.id);
    GoodEitherWay(x, y);
    PublishedIsLastGood(x);
    PublishedIsLastGood(y);
    var us, vs := Secondary(WithStatus(x, Good)), Secondary(WithStatus(y, Good));
    SecondaryReorders(WithStatus(x, Good), WithStatus(y, Good));
    assert |multiset(us)| == |us| && |multiset(vs)| == |vs|;
    RoundOrderIsIrrelevant(us, vs, path);
  }
}
