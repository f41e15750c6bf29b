/**
 What a reused runner PID breaks: the conditions under which kill safety and crash
 completeness are stated cannot be dropped, and the states in which they fail are reached.
 */
module LedgerReuse {
  import opened Wrappers
  import opened Ledger
  import opened LedgerRuns
  import opened LedgerCompleteness

  // ----- A runner starts under a PID again -----

  predicate CanRestart(w: World, p: int, runner: Process, pid: int, child: Process) {
    && p > 1 && FreshProcess(w, p, runner) && runner.parent.None?
    && pid > 1 && p != pid && FreshProcess(w, pid, child) && child.parent == Some(Identity(p, runner.starttime))
  }

  // It starts as `p`, starts a child `pid` and registers it.
  function Restart(p: int, runner: Process, pid: int, child: Process, kind: string): seq<Action> {
    [Start(p, runner), Spawn(pid, child), RegisterBy(p, pid, kind)]
  }

  function Child(pid: int, child: Process, kind: string): TrackedChild {
    TrackedChild(pid, child.starttime, kind, Truncated(child.cmdline))
  }

  // What is on the machine then.
  function Restarted(w: World, p: int, runner: Process, pid: int, child: Process, kind: string): World {
    var c := Child(pid, child, kind);
    w.(procs := w.procs[p := runner][pid := child],
       files := w.files[p := [c]],
       runners := w.runners[p := RunnerState(runner.starttime, [c], Idle)],
       born := w.born + {Identity(p, runner.starttime)} + {Identity(pid, child.starttime)},
       owner := w.owner[Id(c) := Identity(p, runner.starttime)])
  }

  lemma Registers(w: World, p: int, pid: int, kind: string)
    requires p in w.runners && w.runners[p].entries == [] && pid > 1 && pid != p && pid in w.procs
    ensures var c := Child(pid, w.procs[pid], kind);
            Register(p, ViewOf(w, p), pid, kind) == (View(w.procs, w.files[p := [c]], [c], []), Some(c))
  {
    var c := Child(pid, w.procs[pid], kind);
    assert Put([], c) == [c];
  }

  lemma Prepend(w: World, a: Action, next: World, rest: seq<Action>)
    requires Enabled(w, a) && next == Next(w, a) && Possible(next, rest)
    ensures Possible(w, [a] + rest) && RunAll(w, [a] + rest) == RunAll(next, rest)
  {
    assert ([a] + rest)[0] == a && ([a] + rest)[1..] == rest;
  }

  lemma RegisterStep(w: World, p: int, pid: int, kind: string)
    requires p in w.runners && w.runners[p].entries == [] && w.runners[p].phase == Idle
    requires pid > 1 && pid != p && pid in w.procs && w.procs[pid].parent == Some(Instance(w, p))
    ensures Enabled(w, RegisterBy(p, pid, kind))
    ensures var c := Child(pid, w.procs[pid], kind);
            Next(w, RegisterBy(p, pid, kind)) ==
            w.(files := w.files[p := [c]], runners := w.runners[p := w.runners[p].(entries := [c])],
               owner := w.owner[Id(c) := Instance(w, p)])
  {
    Registers(w, p, pid, kind);
  }

  function Started(w: World, p: int, runner: Process, pid: int, child: Process): World {
    w.(procs := w.procs[p := runner][pid := child],
       runners := w.runners[p := RunnerState(runner.starttime, [], Idle)],
       born := w.born + {Identity(p, runner.starttime)} + {Identity(pid, child.starttime)})
  }

  lemma StartAndSpawn(w: World, p: int, runner: Process, pid: int, child: Process)
    requires CanRestart(w, p, runner, pid, child)
    ensures Enabled(w, Start(p, runner)) && Enabled(Next(w, Start(p, runner)), Spawn(pid, child))
    ensures Next(Next(w, Start(p, runner)), Spawn(pid, child)) == Started(w, p, runner, pid, child)
  {
  }

  lemma Restarts(w: World, p: int, runner: Process, pid: int, child: Process, kind: string)
    requires CanRestart(w, p, runner, pid, child)
    ensures var actions := Restart(p, runner, pid, child, kind);
            Possible(w, actions) && RunAll(w, actions) == Restarted(w, p, runner, pid, child, kind)
  {
    var a, b, c := Start(p, runner), Spawn(pid, child), RegisterBy(p, pid, kind);
    var w1, w2 := Next(w, a), Started(w, p, runner, pid, child);
    StartAndSpawn(w, p, runner, pid, child);
    RegisterStep(w2, p, pid, kind);
    OneStep(w2, c, p);
    Prepend(w1, b, w2, [c]);
    Prepend(w, a, w1, [b] + [c]);
    assert [a] + ([b] + [c]) == Restart(p, runner, pid, child, kind);
  }

  // ----- Forgetting what the dead runner left -----

  ghost predicate OnRecord(files: Files, id: Identity) {
    exists q :: q in files && RecordedBy(files[q], id)
  }

  // A runner that starts as a dead one, before any sweep, overwrites its ledger with the
  // first child it registers: what the dead one left running is then on no record.
  lemma ReuseForgets(w: World, p: int, runner: Process, pid: int, child: Process, kind: string, id: Identity)
    requires Inv(w) && CanRestart(w, p, runner, pid, child)
    requires p in w.files && RecordedBy(w.files[p], id) && Runs(w.procs, id)
    ensures var actions := Restart(p, runner, pid, child, kind);
            && Possible(w, actions) && OnRecord(w.files, id)
            && Runs(RunAll(w, actions).procs, id) && !OnRecord(RunAll(w, actions).files, id)
  {
    Restarts(w, p, runner, pid, child, kind);
    RecordIsOwned(w, p, id);
    var w' := Restarted(w, p, runner, pid, child, kind);
    forall q | q in w'.files ensures !RecordedBy(w'.files[q], id) {
      if q != p && RecordedBy(w.files[q], id) { RecordIsOwned(w, q, id); }
    }
  }

  // ----- Killing the child of a live runner -----

  // Runner `p` lives, and its child `c` is there for runner `s` to kill.
  ghost predicate Exposed(w: World, s: int, p: Identity, c: TrackedChild) {
    && s in w.runners && s != p.pid && IsLive(w, p)
    && Killable(s, w.procs, c) && w.procs[c.pid].parent == Some(p)
  }

  predicate OnlyContinues(actions: seq<Action>, s: int) {
    forall i :: 0 <= i < |actions| ==> actions[i] == Continue(s)
  }

  // Some further steps of runner `s` alone break kill safety.
  ghost predicate Breaks(w: World, s: int, actions: seq<Action>) {
    OnlyContinues(actions, s) && Possible(w, actions) && !SparesOthers(RunAll(w, actions))
  }

  lemma BreaksAfter(w: World, s: int, next: World, actions: seq<Action>)
    requires Enabled(w, Continue(s)) && next == Next(w, Continue(s)) && Breaks(next, s, actions)
    ensures Breaks(w, s, [Continue(s)] + actions)
  {
    var more := [Continue(s)] + actions;
    assert more[0] == Continue(s) && more[1..] == actions;
  }

  lemma KillBreaks(w: World, s: int, p: Identity, c: TrackedChild, orphans: Entries)
    requires Exposed(w, s, p, c) && w.runners[s].phase == Killing(orphans) && orphans != [] && Id(orphans[0]) == Id(c)
    ensures Breaks(w, s, [Continue(s)])
  {
    var next := Next(w, Continue(s));
    assert Log(w, s, [Id(c)]) == [Sent(w, s, Id(c))];
    assert next.signals[|w.signals|] == Sent(w, s, Id(c));
    assert !Spares(Sent(w, s, Id(c)));
    OneStep(w, Continue(s), s);
  }

  lemma OtherKillExposes(w: World, s: int, p: Identity, c: TrackedChild, orphans: Entries)
    requires Exposed(w, s, p, c) && w.runners[s].phase == Killing(orphans) && orphans != [] && Id(orphans[0]) != Id(c)
    ensures var next := Next(w, Continue(s));
            Exposed(next, s, p, c) && next.runners[s].phase == Killing(orphans[1..])
  {
  }

  lemma {:induction false} KillingBreaks(w: World, s: int, p: Identity, c: TrackedChild, orphans: Entries)
    returns (actions: seq<Action>)
    requires Exposed(w, s, p, c) && w.runners[s].phase == Killing(orphans) && c in orphans
    ensures Breaks(w, s, actions)
    decreases |orphans|
  {
    if Id(orphans[0]) == Id(c) {
      KillBreaks(w, s, p, c, orphans);
      return [Continue(s)];
    }
    OtherKillExposes(w, s, p, c, orphans);
    var next := Next(w, Continue(s));
    var rest := KillingBreaks(next, s, p, c, orphans[1..]);
    BreaksAfter(w, s, next, rest);
    return [Continue(s)] + rest;
  }

  // The rest of the walk only looks, and unlinks ledgers.
  lemma WalkExposes(w: World, s: int, p: Identity, c: TrackedChild, todo: seq<int>, orphans: Entries)
    requires Exposed(w, s, p, c) && w.runners[s].phase == Checking(todo, orphans)
    ensures var next := Next(w, Continue(s));
            && Exposed(next, s, p, c)
            && next.runners[s].phase ==
               if todo == [] then Killing(orphans)
               else if Abandoned(s, w.procs, todo[0]) then Reading(todo[0], todo[1..], orphans)
               else Checking(todo[1..], orphans)
  {
  }

  lemma ReadExposes(w: World, s: int, p: Identity, c: TrackedChild, path: int, todo: seq<int>, orphans: Entries)
    requires Exposed(w, s, p, c) && w.runners[s].phase == Reading(path, todo, orphans)
    ensures var living := if path in w.files then Living(s, w.procs, w.files[path]) else [];
            var next := Next(w, Continue(s));
            && Exposed(next, s, p, c) && next.runners[s].phase == Pruning(path, todo, orphans + living)
            && Enabled(next, Continue(s))
            && var after := Next(next, Continue(s));
               Exposed(after, s, p, c) && after.runners[s].phase == Checking(todo, orphans + living)
  {
  }

  lemma {:induction false} ReadingBreaks(w: World, s: int, p: Identity, c: TrackedChild, path: int, todo: seq<int>,
                                         orphans: Entries) returns (actions: seq<Action>)
    requires Exposed(w, s, p, c) && w.runners[s].phase == Reading(path, todo, orphans)
    requires c in orphans || (path in w.files && c in Living(s, w.procs, w.files[path]))
    ensures Breaks(w, s, actions)
    decreases |todo|, 1
  {
    ReadExposes(w, s, p, c, path, todo, orphans);
    var found := orphans + if path in w.files then Living(s, w.procs, w.files[path]) else [];
    var next := Next(w, Continue(s));
    var after := Next(next, Continue(s));
    var rest := CheckingBreaks(after, s, p, c, todo, found);
    BreaksAfter(next, s, after, rest);
    BreaksAfter(w, s, next, [Continue(s)] + rest);
    return [Continue(s)] + ([Continue(s)] + rest);
  }

  lemma {:induction false} CheckingBreaks(w: World, s: int, p: Identity, c: TrackedChild, todo: seq<int>,
                                          orphans: Entries)
    returns (actions: seq<Action>)
    requires Exposed(w, s, p, c) && w.runners[s].phase == Checking(todo, orphans) && c in orphans
    ensures Breaks(w, s, actions)
    decreases |todo|, 0
  {
    WalkExposes(w, s, p, c, todo, orphans);
    var next := Next(w, Continue(s));
    var rest;
    if todo == [] {
      rest := KillingBreaks(next, s, p, c, orphans);
    } else if Abandoned(s, w.procs, todo[0]) {
      rest := ReadingBreaks(next, s, p, c, todo[0], todo[1..], orphans);
    } else {
      rest := CheckingBreaks(next, s, p, c, todo[1..], orphans);
    }
    BreaksAfter(w, s, next, rest);
    return [Continue(s)] + rest;
  }

  lemma OneLiving(self: int, procs: Processes, c: TrackedChild)
    requires Verify(self, procs, c) && c.kind != ""
    ensures Living(self, procs, [c]) == [c]
  {
    assert Load([c]) == [c] && [c][1..] == [];
    assert Verified(self, procs, [c]) == [c] + Verified(self, procs, []);
  }

  // From every state in which a sweep has found `p` dead and not yet read its ledger,
  // whatever it has found so far and has still to visit: if a runner starts as `p` now and
  // registers a child, the sweep goes on to kill the child of that live runner.
  lemma ReuseBreaksSafety(w: World, s: int, p: int, runner: Process, pid: int, child: Process, kind: string)
    returns (actions: seq<Action>)
    requires Inv(w) && s in w.runners && w.runners[s].phase.Reading? && w.runners[s].phase.path == p
    requires CanRestart(w, p, runner, pid, child) && !child.guarded && kind != ""
    ensures EntersWindow(w, Start(p, runner))
    ensures var restart := Restart(p, runner, pid, child, kind);
            Possible(w, restart) && Breaks(RunAll(w, restart), s, actions)
  {
    Restarts(w, p, runner, pid, child, kind);
    var w', c := Restarted(w, p, runner, pid, child, kind), Child(pid, child, kind);
    var phase := w.runners[s].phase;
    assert w'.runners[s] == w.runners[s] && s in w.procs;
    OneLiving(s, w'.procs, c);
    assert Exposed(w', s, Identity(p, runner.starttime), c);
    actions := ReadingBreaks(w', s, Identity(p, runner.starttime), c, p, phase.todo, phase.orphans);
  }

  // ----- Runs from an empty machine -----

  const EMPTY := World(map[], map[], map[], {}, map[], map[], [])

  function RunnerAt(starttime: int): Process {
    Process(starttime, "", None, false)
  }

  function ChildOf(p: int, started: int, starttime: int): Process {
    Process(starttime, "", Some(Identity(p, started)), false)
  }

  // Runner 10 has crashed and left its child 20 running.
  function Crashed(): World {
    var c := Child(20, ChildOf(10, 1, 2), "stub");
    EMPTY.(procs := map[20 := ChildOf(10, 1, 2)], files := map[10 := [c]],
           born := {Identity(10, 1), Identity(20, 2)}, owner := map[Id(c) := Identity(10, 1)],
           lost := map[10 := [c]])
  }

  lemma CrashHappens() returns (actions: seq<Action>)
    ensures Possible(EMPTY, actions) && RunAll(EMPTY, actions) == Crashed()
  {
    var opening := Restart(10, RunnerAt(1), 20, ChildOf(10, 1, 2), "stub");
    Restarts(EMPTY, 10, RunnerAt(1), 20, ChildOf(10, 1, 2), "stub");
    var w1 := Restarted(EMPTY, 10, RunnerAt(1), 20, ChildOf(10, 1, 2), "stub");
    var w2 := Next(w1, Crash(10));
    assert w2.procs == Crashed().procs && w2.files == Crashed().files && w2.runners == Crashed().runners;
    assert w2.born == Crashed().born && w2.owner == Crashed().owner && w2.lost == Crashed().lost;
    OneStep(w1, Crash(10), 10);
    RunThen(EMPTY, opening, [Crash(10)]);
    actions := opening + [Crash(10)];
  }

  // A run after which a child is left behind on record, and three steps that take it off
  // every record while it runs on.
  lemma ReuseForgetsHappens() returns (actions: seq<Action>, more: seq<Action>, id: Identity)
    ensures Boot(EMPTY) && Possible(EMPTY, actions) && Possible(RunAll(EMPTY, actions), more)
    ensures var before, after := RunAll(EMPTY, actions), RunAll(RunAll(EMPTY, actions), more);
            && LeftBehind(before, id) && OnRecord(before.files, id)
            && Runs(after.procs, id) && !OnRecord(after.files, id)
  {
    actions := CrashHappens();
    id := Identity(20, 2);
    RunKeeps(EMPTY, actions);
    assert Crashed().lost[10][0] == Child(20, ChildOf(10, 1, 2), "stub");
    assert RecordedBy(Crashed().lost[10], id);
    ReuseForgets(Crashed(), 10, RunnerAt(3), 30, ChildOf(10, 3, 4), "stub", id);
    more := Restart(10, RunnerAt(3), 30, ChildOf(10, 3, 4), "stub");
  }

  // Runner 11 has found runner 10 dead and is about to read its ledger.
  function InWindow(): World {
    var w := Crashed();
    w.(procs := w.procs[11 := RunnerAt(3)], born := w.born + {Identity(11, 3)},
       runners := map[11 := RunnerState(3, [], Reading(10, [], []))])
  }

  lemma SweepBegins() returns (actions: seq<Action>)
    ensures Possible(Crashed(), actions) && RunAll(Crashed(), actions) == InWindow()
  {
    var a, b, c := Start(11, RunnerAt(3)), BeginSweep(11, [10]), Continue(11);
    var w1 := Next(Crashed(), a);
    var w2 := Next(w1, b);
    assert w2.runners[11].phase == Checking([10], []) && [10][1..] == [];
    var w3 := Next(w2, c);
    assert w3.runners == InWindow().runners;
    OneStep(w2, c, 10);
    Prepend(w1, b, w2, [c]);
    Prepend(Crashed(), a, w1, [b] + [c]);
    actions := [a] + ([b] + [c]);
  }

  lemma WindowHappens() returns (actions: seq<Action>)
    ensures Possible(EMPTY, actions) && RunAll(EMPTY, actions) == InWindow() && Inv(InWindow())
  {
    var first := CrashHappens();
    var second := SweepBegins();
    RunThen(EMPTY, first, second);
    actions := first + second;
    RunKeeps(EMPTY, actions);
  }

  lemma Joined(w: World, first: seq<Action>, second: seq<Action>, third: seq<Action>) returns (actions: seq<Action>)
    requires Possible(w, first) && Possible(RunAll(w, first), second)
    requires Possible(RunAll(RunAll(w, first), second), third)
    ensures Possible(w, actions) && RunAll(w, actions) == RunAll(RunAll(RunAll(w, first), second), third)
  {
    RunThen(w, first, second);
    RunThen(w, first + second, third);
    actions := first + second + third;
  }

  // A run that kills the child of a live runner.
  lemma UnsafeRunHappens() returns (actions: seq<Action>)
    ensures Boot(EMPTY) && Possible(EMPTY, actions) && !SparesOthers(RunAll(EMPTY, actions))
  {
    var opening := WindowHappens();
    var last := ReuseBreaksSafety(InWindow(), 11, 10, RunnerAt(4), 30, ChildOf(10, 4, 5), "stub");
    actions := Joined(EMPTY, opening, Restart(10, RunnerAt(4), 30, ChildOf(10, 4, 5), "stub"), last);
  }

  // Runner 10 is in its exit handler, with two children that run.
  lemma ExitForgetsHappens() returns (w: World, actions: seq<Action>, r: int, c: TrackedChild)
    ensures Boot(w) && Possible(w, actions) && FairFor(w, actions, r)
    ensures var now := RunAll(w, actions);
            && r in now.runners && now.runners[r].phase.Exiting? && Runs(now.procs, Id(c))
            && var l := now.runners[r].phase.leftovers; l != [] && c in l[1..] && c.pid != l[0].pid
  {
    w, r, c := EMPTY, 10, Child(30, ChildOf(10, 1, 3), "client");
    var opening := Restart(10, RunnerAt(1), 20, ChildOf(10, 1, 2), "stub");
    Restarts(w, 10, RunnerAt(1), 20, ChildOf(10, 1, 2), "stub");
    var rest := SecondChildAndExit();
    RunThen(w, opening, rest);
    actions := opening + rest;
    NothingLostIsFair(w, actions, r);
  }

  lemma RegisterSecond(w: World, p: int, first: TrackedChild, pid: int, kind: string)
    requires p in w.runners && w.runners[p].entries == [first] && w.runners[p].phase == Idle && first.pid != pid
    requires pid > 1 && pid != p && pid in w.procs && w.procs[pid].parent == Some(Instance(w, p))
    ensures Enabled(w, RegisterBy(p, pid, kind))
    ensures var next := Next(w, RegisterBy(p, pid, kind));
            && p in next.runners && next.procs == w.procs && next.lost == w.lost
            && next.runners[p] == w.runners[p].(entries := [first, Child(pid, w.procs[pid], kind)])
  {
    var c := Child(pid, w.procs[pid], kind);
    assert IndexOfPid([first], pid) == 1 && Put([first], c) == [first, c];
  }

  lemma SecondChildAndExit() returns (actions: seq<Action>)
    ensures var w := Restarted(EMPTY, 10, RunnerAt(1), 20, ChildOf(10, 1, 2), "stub");
            var c, d := Child(20, ChildOf(10, 1, 2), "stub"), Child(30, ChildOf(10, 1, 3), "client");
            && Possible(w, actions)
            && var now := RunAll(w, actions);
               && 10 in now.runners && now.runners[10].phase == Exiting([c, d]) && [c, d][1..] == [d]
               && Runs(now.procs, Id(d)) && now.lost == map[]
  {
    var w := Restarted(EMPTY, 10, RunnerAt(1), 20, ChildOf(10, 1, 2), "stub");
    var a0, a1, a2 := Spawn(30, ChildOf(10, 1, 3)), RegisterBy(10, 30, "client"), BeginExit(10);
    var w1 := Next(w, a0);
    RegisterSecond(w1, 10, Child(20, ChildOf(10, 1, 2), "stub"), 30, "client");
    var w2 := Next(w1, a1);
    OneStep(w2, a2, 10);
    Prepend(w1, a1, w2, [a2]);
    Prepend(w, a0, w1, [a1] + [a2]);
    actions := [a0] + ([a1] + [a2]);
  }

  lemma {:induction false} LostStays(w: World, actions: seq<Action>)
    requires Possible(w, actions)
    ensures w.lost.Keys <= RunAll(w, actions).lost.Keys
    decreases |actions|
  {
    if actions != [] { LostStays(Next(w, actions[0]), actions[1..]); }
  }

  lemma {:induction false} NothingLostIsFair(w: World, actions: seq<Action>, p: int)
    requires Possible(w, actions) && p !in RunAll(w, actions).lost
    ensures FairFor(w, actions, p)
    decreases |actions|
  {
    if actions != [] {
      LostStays(w, actions);
      NothingLostIsFair(Next(w, actions[0]), actions[1..], p);
    }
  }
}
