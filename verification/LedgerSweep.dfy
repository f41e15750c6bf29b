/**
 A sweep as a run of steps. When nothing comes between them, the steps of a sweep do
 what the code's loops do as a whole.
 */
module LedgerSweep {
  import opened Wrappers
  import opened Ledger
  import opened LedgerRuns
  import opened LedgerCompleteness
  import opened LedgerExit

  // World `w` with other ledger files, runner `r` being elsewhere.
  function At(w: World, files: Files, r: int, phase: Phase): World
    requires r in w.runners
  {
    w.(files := files, runners := w.runners[r := w.runners[r].(phase := phase)])
  }

  lemma AtAgain(w: World, files: Files, r: int, phase: Phase, files': Files, phase': Phase)
    requires r in w.runners
    ensures At(At(w, files, r, phase), files', r, phase') == At(w, files', r, phase')
  {
    var next := At(w, files, r, phase);
    assert next.runners[r := next.runners[r].(phase := phase')] == w.runners[r := w.runners[r].(phase := phase')];
  }

  // ----- Looking for orphans -----

  lemma CheckStep(w: World, r: int, todo: seq<int>, orphans: Entries)
    requires r in w.runners && w.runners[r].phase == Checking(todo, orphans) && todo != []
    requires !Abandoned(r, w.procs, todo[0])
    ensures Enabled(w, Continue(r)) && Next(w, Continue(r)) == At(w, w.files, r, Checking(todo[1..], orphans))
  {
  }

  // An abandoned ledger takes three steps.
  lemma ReadSteps(w: World, r: int, todo: seq<int>, orphans: Entries)
    requires r in w.runners && w.runners[r].phase == Checking(todo, orphans) && todo != []
    requires Abandoned(r, w.procs, todo[0])
    ensures Possible(w, Continues(r, 3))
    ensures RunAll(w, Continues(r, 3)) ==
            var p := todo[0];
            At(w, PruneOne(r, w.procs, w.files, p), r,
               Checking(todo[1..], orphans + if p in w.files then Living(r, w.procs, w.files[p]) else []))
  {
    var p, rest := todo[0], todo[1..];
    var found := orphans + if p in w.files then Living(r, w.procs, w.files[p]) else [];
    var a, b := At(w, w.files, r, Reading(p, rest, orphans)), At(w, w.files, r, Pruning(p, rest, found));
    assert Next(w, Continue(r)) == a;
    AtAgain(w, w.files, r, Reading(p, rest, orphans), w.files, Pruning(p, rest, found));
    assert Next(a, Continue(r)) == b;
    var files := PruneOne(r, w.procs, w.files, p);
    AtAgain(w, w.files, r, Pruning(p, rest, found), files, Checking(rest, found));
    assert Next(b, Continue(r)) == At(w, files, r, Checking(rest, found));
    ContinueThen(b, r, 0);
    ContinueThen(a, r, 1);
    ContinueThen(w, r, 2);
  }

  lemma {:induction false} ContinuesAdd(r: int, n: nat, m: nat)
    ensures Continues(r, n) + Continues(r, m) == Continues(r, n + m)
  {
    if n > 0 { ContinuesAdd(r, n - 1, m); }
  }

  lemma ContinueMore(w: World, r: int, n: nat, m: nat)
    requires Possible(w, Continues(r, n)) && Possible(RunAll(w, Continues(r, n)), Continues(r, m))
    ensures Possible(w, Continues(r, n + m))
    ensures RunAll(w, Continues(r, n + m)) == RunAll(RunAll(w, Continues(r, n)), Continues(r, m))
  {
    ContinuesAdd(r, n, m);
    RunThen(w, Continues(r, n), Continues(r, m));
  }

  // What the first of the listed ledgers adds to a sweep, and the files after it.
  function FirstFound(self: int, procs: Processes, files: Files, p: int): (Entries, Files) {
    if p in files && Abandoned(self, procs, p) then (Living(self, procs, files[p]), PruneOne(self, procs, files, p))
    else ([], files)
  }

  lemma SweepFirst(self: int, procs: Processes, files: Files, todo: seq<int>)
    requires todo != []
    ensures var (more, next) := FirstFound(self, procs, files, todo[0]);
            var (found, left) := Sweep(self, procs, next, todo[1..]);
            Sweep(self, procs, files, todo) == (more + found, left)
  {
    var found := Sweep(self, procs, files, todo[1..]).0;
    assert [] + found == found;
  }

  // The steps taken for the first of the listed ledgers.
  lemma FirstSteps(w: World, r: int, todo: seq<int>, orphans: Entries) returns (n: nat)
    requires r in w.runners && w.runners[r].phase == Checking(todo, orphans) && todo != []
    ensures Possible(w, Continues(r, n))
    ensures var (more, next) := FirstFound(r, w.procs, w.files, todo[0]);
            RunAll(w, Continues(r, n)) == At(w, next, r, Checking(todo[1..], orphans + more))
  {
    assert orphans + [] == orphans;
    if Abandoned(r, w.procs, todo[0]) {
      ReadSteps(w, r, todo, orphans);
      return 3;
    }
    CheckStep(w, r, todo, orphans);
    ContinueThen(w, r, 0);
    return 1;
  }

  lemma FoundMore(w: World, r: int, files: Files, phase: Phase, left: Files, orphans: Entries, more: Entries,
                  found: Entries, all: Entries)
    requires r in w.runners && all == more + found
    ensures At(At(w, files, r, phase), left, r, Killing(orphans + more + found))
            == At(w, left, r, Killing(orphans + all))
  {
    AtAgain(w, files, r, phase, left, Killing(orphans + more + found));
    assert orphans + (more + found) == orphans + more + found;
  }

  lemma CheckedAll(w: World, r: int, orphans: Entries)
    requires r in w.runners && w.runners[r].phase == Checking([], orphans)
    ensures Possible(w, Continues(r, 1))
    ensures RunAll(w, Continues(r, 1)) == At(w, w.files, r, Killing(orphans + []))
  {
    assert orphans + [] == orphans;
    ContinueThen(w, r, 0);
  }

  lemma {:induction false} CheckingRun(w: World, r: int, todo: seq<int>, orphans: Entries) returns (n: nat)
    requires r in w.runners && w.runners[r].phase == Checking(todo, orphans)
    ensures Possible(w, Continues(r, n))
    ensures var (found, left) := Sweep(r, w.procs, w.files, todo);
            RunAll(w, Continues(r, n)) == At(w, left, r, Killing(orphans + found))
    decreases |todo|
  {
    if todo == [] {
      CheckedAll(w, r, orphans);
      return 1;
    }
    var rest := todo[1..];
    var (more, files) := FirstFound(r, w.procs, w.files, todo[0]);
    var steps := FirstSteps(w, r, todo, orphans);
    var m := CheckingRun(At(w, files, r, Checking(rest, orphans + more)), r, rest, orphans + more);
    ContinueMore(w, r, steps, m);
    var (found, left) := Sweep(r, w.procs, files, rest);
    SweepFirst(r, w.procs, w.files, todo);
    FoundMore(w, r, files, Checking(rest, orphans + more), left, orphans, more, found, more + found);
    return steps + m;
  }

  // ----- Killing them -----

  // Runner `r` has changed the machine to `v` and is elsewhere.
  ghost predicate Became(w: World, r: int, v: View, phase: Phase, last: World)
    requires r in w.runners
  {
    && last == w.(procs := v.procs, files := v.files, signals := last.signals,
                  runners := w.runners[r := w.runners[r].(entries := v.entries, phase := phase)])
    && Signalled(w.signals, v.signals, last.signals)
  }

  lemma BecameAfter(w: World, r: int, first: View, phase: Phase, rest: View, phase': Phase, last: World)
    requires r in w.runners && Became(Commit(w, r, first, phase), r, rest, phase', last)
    ensures Became(w, r, rest.(signals := first.signals + rest.signals), phase', last)
  {
    var next := Commit(w, r, first, phase);
    var s := next.runners[r].(entries := rest.entries, phase := phase');
    assert next.runners[r := s] == w.runners[r := s];
    SignalledThen(w.signals, first.signals, next.signals, rest.signals, last.signals);
  }

  lemma {:induction false} KillingRun(w: World, r: int, orphans: Entries)
    requires r in w.runners && w.runners[r].phase == Killing(orphans)
    ensures Possible(w, Continues(r, |orphans|))
    ensures Became(w, r, KillEach(r, ViewOf(w, r), orphans).0, Killing([]), RunAll(w, Continues(r, |orphans|)))
    decreases |orphans|
  {
    if orphans == [] {
      assert w.runners[r := w.runners[r]] == w.runners;
    } else {
      var rest, next := orphans[1..], Next(w, Continue(r));
      KillsNext(w, r, orphans);
      KillingRun(next, r, rest);
      ContinueThen(w, r, |rest|);
      KillThen(w, r, orphans, RunAll(next, Continues(r, |rest|)));
    }
  }

  lemma KillThen(w: World, r: int, orphans: Entries, last: World)
    requires r in w.runners && w.runners[r].phase == Killing(orphans) && orphans != []
    requires var next := Commit(w, r, Kill(r, ViewOf(w, r), orphans[0]).0, Killing(orphans[1..]));
             Became(next, r, KillEach(r, ViewOf(next, r), orphans[1..]).0, Killing([]), last)
    ensures Became(w, r, KillEach(r, ViewOf(w, r), orphans).0, Killing([]), last)
  {
    var first, rest := Kill(r, ViewOf(w, r), orphans[0]).0, orphans[1..];
    var next := Commit(w, r, first, Killing(rest));
    assert ViewOf(next, r) == first.(signals := []);
    KillFromEmpty(r, ViewOf(w, r), orphans);
    BecameAfter(w, r, first, Killing(rest), KillEach(r, ViewOf(next, r), rest).0, Killing([]), last);
  }

  lemma KillsNext(w: World, r: int, orphans: Entries)
    requires r in w.runners && w.runners[r].phase == Killing(orphans) && orphans != []
    ensures Enabled(w, Continue(r))
    ensures var first, next := Kill(r, ViewOf(w, r), orphans[0]).0, Next(w, Continue(r));
            && next == Commit(w, r, first, Killing(orphans[1..]))
            && r in next.runners && next.runners[r].phase == Killing(orphans[1..])
            && ViewOf(next, r) == first.(signals := [])
  {
  }

  // ----- Clearing their ledgers -----

  lemma ClearStep(w: World, r: int, todo: seq<int>) returns (n: nat)
    requires r in w.runners && w.runners[r].phase == Clearing(todo) && todo != []
    ensures Possible(w, Continues(r, n))
    ensures RunAll(w, Continues(r, n)) == At(w, PruneOne(r, w.procs, w.files, todo[0]), r, Clearing(todo[1..]))
  {
    var p, rest := todo[0], todo[1..];
    if PidAlive(w.procs, p) {
      assert Next(w, Continue(r)) == At(w, w.files, r, Clearing(rest));
      ContinueThen(w, r, 0);
      return 1;
    }
    var a, files := At(w, w.files, r, Dropping(p, rest)), PruneOne(r, w.procs, w.files, p);
    assert Next(w, Continue(r)) == a;
    AtAgain(w, w.files, r, Dropping(p, rest), files, Clearing(rest));
    assert Next(a, Continue(r)) == At(w, files, r, Clearing(rest));
    ContinueThen(a, r, 0);
    ContinueThen(w, r, 1);
    return 2;
  }

  lemma {:induction false} ClearingRun(w: World, r: int, todo: seq<int>) returns (n: nat)
    requires r in w.runners && w.runners[r].phase == Clearing(todo)
    ensures Possible(w, Continues(r, n))
    ensures RunAll(w, Continues(r, n)) == At(w, Prune(r, w.procs, w.files, todo), r, Idle)
    decreases |todo|
  {
    if todo == [] {
      ContinueThen(w, r, 0);
      return 1;
    }
    var rest, files := todo[1..], PruneOne(r, w.procs, w.files, todo[0]);
    var steps := ClearStep(w, r, todo);
    var m := ClearingRun(At(w, files, r, Clearing(rest)), r, rest);
    ContinueMore(w, r, steps, m);
    AtAgain(w, files, r, Clearing(rest), Prune(r, w.procs, files, rest), Idle);
    return steps + m;
  }

  // ----- The whole sweep -----

  // The view after the kills, before ledgers are cleared.
  function Killed(r: int, v: View, listing: seq<int>): View {
    var (orphans, left) := Sweep(r, v.procs, v.files, listing);
    KillEach(r, v.(files := left), orphans).0
  }

  lemma FindRun(w: World, r: int, listing: seq<int>) returns (actions: seq<Action>)
    requires r in w.runners && w.runners[r].phase == Idle && Listed(listing, w.files)
    ensures Possible(w, actions)
    ensures var (orphans, left) := Sweep(r, w.procs, w.files, listing);
            RunAll(w, actions) == At(w, left, r, Killing(orphans))
  {
    var (orphans, left) := Sweep(r, w.procs, w.files, listing);
    var begun := At(w, w.files, r, Checking(listing, []));
    assert Next(w, BeginSweep(r, listing)) == begun;
    var n := CheckingRun(begun, r, listing, []);
    assert [] + orphans == orphans;
    AtAgain(w, w.files, r, Checking(listing, []), left, Killing(orphans));
    actions := [BeginSweep(r, listing)] + Continues(r, n);
    assert actions[0] == BeginSweep(r, listing) && actions[1..] == Continues(r, n);
  }

  lemma BecameFrom(w: World, files: Files, r: int, phase: Phase, v: View, phase': Phase, last: World)
    requires r in w.runners && Became(At(w, files, r, phase), r, v, phase', last)
    ensures Became(w, r, v, phase', last)
  {
    var next := At(w, files, r, phase);
    var s := next.runners[r].(entries := v.entries, phase := phase');
    assert next.runners[r := s] == w.runners[r := s];
  }

  lemma FindAndKillRun(w: World, r: int, listing: seq<int>) returns (actions: seq<Action>)
    requires r in w.runners && w.runners[r].phase == Idle && Listed(listing, w.files)
    ensures Possible(w, actions)
    ensures Became(w, r, Killed(r, ViewOf(w, r), listing), Killing([]), RunAll(w, actions))
  {
    var (orphans, left) := Sweep(r, w.procs, w.files, listing);
    var first := FindRun(w, r, listing);
    var found := At(w, left, r, Killing(orphans));
    KillingRun(found, r, orphans);
    assert ViewOf(found, r) == ViewOf(w, r).(files := left);
    RunThen(w, first, Continues(r, |orphans|));
    BecameFrom(w, left, r, Killing(orphans), Killed(r, ViewOf(w, r), listing), Killing([]),
               RunAll(found, Continues(r, |orphans|)));
    return first + Continues(r, |orphans|);
  }

  // From every state: an idle runner that sweeps and is not interrupted leaves the
  // machine as the code's loops do, and is idle again.
  lemma SweepRun(w: World, r: int, listing: seq<int>, again: seq<int>) returns (actions: seq<Action>)
    requires r in w.runners && w.runners[r].phase == Idle && Listed(listing, w.files)
    requires Listed(again, Killed(r, ViewOf(w, r), listing).files)
    ensures Possible(w, actions)
    ensures Became(w, r, SweepAndKill(r, ViewOf(w, r), listing, again), Idle, RunAll(w, actions))
  {
    var v := Killed(r, ViewOf(w, r), listing);
    var first := FindAndKillRun(w, r, listing);
    var mid := RunAll(w, first);
    var begun := Next(mid, BeginClear(r, again));
    var n := ClearingRun(begun, r, again);
    var second := [BeginClear(r, again)] + Continues(r, n);
    assert second[0] == BeginClear(r, again) && second[1..] == Continues(r, n);
    var left := Prune(r, v.procs, v.files, again);
    AtAgain(mid, mid.files, r, Clearing(again), left, Idle);
    var s := mid.runners[r].(phase := Idle);
    assert mid.runners[r := s] == w.runners[r := s];
    RunThen(w, first, second);
    return first + second;
  }

  // So the run goes on: after every run, an idle runner can sweep, and then a process is
  // gone if and only if the runner that registered it left it behind and it can be killed.
  lemma SweepRunIsComplete(w: World, actions: seq<Action>, s: int, listing: seq<int>, again: seq<int>, pid: int)
    returns (more: seq<Action>)
    requires Boot(w) && Possible(w, actions) && s in RunAll(w, actions).runners
    requires var now := RunAll(w, actions);
             && now.runners[s].phase == Idle && pid in now.procs
             && Lists(listing, now.files) && Listed(listing, now.files)
             && Listed(again, Killed(s, ViewOf(now, s), listing).files)
    requires var now := RunAll(w, actions);
             var id := Identity(pid, now.procs[pid].starttime);
             id in now.owner ==> FairFor(w, actions, now.owner[id].pid)
    ensures Possible(w, actions + more)
    ensures var now, last := RunAll(w, actions), RunAll(w, actions + more);
            pid !in last.procs <==> LeftBehind(now, Identity(pid, now.procs[pid].starttime)) && !Guarded(now.procs, pid)
  {
    var now := RunAll(w, actions);
    more := SweepRun(now, s, listing, again);
    RunThen(w, actions, more);
    SweepIsComplete(w, actions, s, listing, again, pid);
  }

  // ----- Single calls -----

  // Registering, unregistering and killing one child are one step each, and do what the
  // calls do.
  lemma CallSteps(w: World, r: int, pid: int, kind: string, i: nat)
    requires Active(w, r)
    ensures var v, phase := Unregister(r, ViewOf(w, r), pid), w.runners[r].phase;
            Became(w, r, v, phase, Next(w, UnregisterBy(r, pid)))
    ensures i < |w.runners[r].entries| ==>
              var v, phase := Kill(r, ViewOf(w, r), w.runners[r].entries[i]).0, w.runners[r].phase;
              Became(w, r, v, phase, Next(w, KillOwn(r, i)))
    ensures Enabled(w, RegisterBy(r, pid, kind)) ==>
              var (v, c) := Register(r, ViewOf(w, r), pid, kind);
              var next := Next(w, RegisterBy(r, pid, kind));
              && Became(w, r, v, w.runners[r].phase, next.(owner := w.owner))
              && next.owner == (if c.Some? then w.owner[Id(c.value) := Instance(w, r)] else w.owner)
  {
  }
}
