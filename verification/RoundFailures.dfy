/** When rounds cannot be combined, and which rounds the rest of a scenario comes from. */
module RoundFailures {
  import opened Wrappers
  import opened RoundMerge
  import opened RoundLeaves
  import opened RoundDocuments
  import opened FirstSeen
  import opened Thinning

  // ----- The rounds that count -----

  lemma {:induction false} StatusIsKept(rounds: seq<Scenario>, status: Status)
    ensures WithStatus(rounds, status) == Kept(rounds, (x: Scenario) => x.status != status)
  {
    if rounds != [] { StatusIsKept(rounds[1..], status); }
  }

  // The rounds with a status, in order.
  lemma StatusStands(rounds: seq<Scenario>, status: Status)
    ensures Thinned(rounds, (x: Scenario) => x.status != status, WithStatus(rounds, status))
  {
    StatusIsKept(rounds, status);
    KeptIsThinned(rounds, (x: Scenario) => x.status != status);
  }

  lemma {:induction false} RoundsAreKept(all: Document, id: string)
    ensures Rounds(all, id) == Kept(all, (x: Scenario) => x.id != id)
    decreases |all|
  {
    if all != [] {
      var before, x := all[..|all| - 1], Last(all);
      RoundsAreKept(before, id);
      KeptSplit(before, [x], (y: Scenario) => y.id != id);
      assert all == before + [x] && [x][1..] == [];
    }
  }

  // The rounds of a scenario, in order.
  lemma RoundsStand(all: Document, id: string)
    ensures Thinned(all, (x: Scenario) => x.id != id, Rounds(all, id))
  {
    RoundsAreKept(all, id);
    KeptIsThinned(all, (x: Scenario) => x.id != id);
  }

  // No round has a secondary measurement: each is null, empty or zero.
  lemma {:induction false} NoSecondaryIff(rounds: seq<Scenario>)
    ensures Secondary(rounds) == [] <==>
            forall i :: 0 <= i < |rounds| ==>
              var v := rounds[i].secondary;
              v.Null? || (v.Dict? && v.fields == []) || (v.Other? && v.text == "")
              || (Numeric(v) && Amount(v) == 0.0)
  {
    if rounds != [] {
      NoSecondaryIff(rounds[1..]);
      assert forall i :: 1 <= i < |rounds| ==> rounds[i] == rounds[1..][i - 1];
    }
  }

  // ----- The order of scenarios -----

  function IdsSeen(all: Document): (r: seq<string>)
    ensures |r| == |all| && forall i :: 0 <= i < |all| ==> r[i] == all[i].id
  {
    seq(|all|, i requires 0 <= i < |all| => all[i].id)
  }

  // Every scenario once, in the order in which the documents first mention it.
  lemma {:induction false} IdsInOrder(all: Document)
    ensures InFirstOrder(IdsSeen(all), Ids(all))
    decreases |all|
  {
    if all != [] {
      var before, id := all[..|all| - 1], Last(all).id;
      IdsInOrder(before);
      OneMore(IdsSeen(before), Ids(before), id);
      LastSeen(all, before, id);
    }
  }

  lemma LastSeen(all: Document, before: Document, id: string)
    requires all != [] && before == all[..|all| - 1] && id == Last(all).id
    ensures IdsSeen(all) == IdsSeen(before) + [id]
    ensures Ids(all) == if id in Ids(before) then Ids(before) else Ids(before) + [id]
  {
  }

  // ----- When combining fails -----

  ghost predicate Clashes(vs: seq<Value>) {
    exists path :: SameShape(vs, path) && Clash(Along(vs, path))
  }

  // The good rounds are to be merged, and cannot be.
  ghost predicate Conflict(rounds: seq<Scenario>) {
    var good := WithStatus(rounds, Good);
    && (exists x :: x in rounds && x.status == Good) && (forall x :: x in rounds ==> x.status != Invalid)
    && (Clashes(Metrics(good)) || Clashes(Secondary(good)))
  }

  lemma ScenarioFailsIff(rounds: seq<Scenario>)
    requires rounds != []
    ensures MergeScenario(rounds).None? <==> Conflict(rounds)
  {
    var good, invalid := WithStatus(rounds, Good), WithStatus(rounds, Invalid);
    RaisesIff(Metrics(good));
    RaisesIff(Secondary(good));
    if x :| x in rounds && x.status == Good { assert x in good; }
    if good != [] { assert good[0] in good; }
    if invalid != [] { assert invalid[0] in invalid; }
    if x :| x in rounds && x.status == Invalid { assert x in invalid; }
    assert MergeValues([]) == Some(Null);
  }

  lemma {:induction false} EachFailsIff(all: Document, ids: seq<string>)
    ensures MergeEach(all, ids).None? <==>
            exists i :: 0 <= i < |ids| && MergeScenario(Rounds(all, ids[i])).None?
  {
    if ids != [] {
      EachFailsIff(all, ids[1..]);
      assert forall i :: 1 <= i < |ids| ==> ids[i] == ids[1..][i - 1];
      if MergeEach(all, ids[1..]).None? {
        var i :| 0 <= i < |ids[1..]| && MergeScenario(Rounds(all, ids[1..][i])).None?;
        assert ids[i + 1] == ids[1..][i];
      }
    }
  }

  lemma SomeFailsIff(all: Document)
    ensures MergeEach(all, Ids(all)).None? <==> exists x :: x in all && Conflict(Rounds(all, x.id))
  {
    var ids := Ids(all);
    EachFailsIff(all, ids);
    if MergeEach(all, ids).None? {
      var i :| 0 <= i < |ids| && MergeScenario(Rounds(all, ids[i])).None?;
      IdsAreSeen(all, ids[i]);
      ScenarioFailsIff(Rounds(all, ids[i]));
      RoundsAre(all, ids[i]);
      var x := Rounds(all, ids[i])[0];
      assert x in all && Conflict(Rounds(all, x.id));
    }
    if x :| x in all && Conflict(Rounds(all, x.id)) {
      RoundsAre(all, x.id);
      IdsAreSeen(all, x.id);
      ScenarioFailsIff(Rounds(all, x.id));
      var i :| 0 <= i < |ids| && ids[i] == x.id;
    }
  }

  // Combining fails exactly when there are fewer than two documents, or when the good
  // rounds of some scenario without an invalid one disagree on where a dictionary is.
  lemma CombineFailsIff(docs: seq<Document>)
    ensures Combine(docs) == Err(TooFewRounds) <==> |docs| < 2
    ensures Combine(docs) == Err(MixedShapes) <==>
            |docs| >= 2 && exists x :: x in All(docs) && Conflict(Rounds(All(docs), x.id))
  {
    SomeFailsIff(All(docs));
  }
}
