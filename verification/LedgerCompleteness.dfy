/**
 What the ledger files say over every run. All of it is about the ledger under one PID:
 it equals a live runner's memory, and it keeps the children of a crashed runner until
 none of them runs, as long as no runner starts again under that PID. Runners under other
 PIDs come and go at will, their PIDs reused or not.
 */
module LedgerCompleteness {
  import opened Wrappers
  import opened Ledger
  import opened LedgerRuns

  // On disk as in memory; no file when there is nothing to record.
  predicate Saved(files: Files, r: int, entries: Entries) {
    if entries == [] then r !in files else r in files && files[r] == entries
  }

  ghost predicate NoneRuns(procs: Processes, l: Entries) {
    forall c :: c in l ==> !Runs(procs, Id(c))
  }

  // The ledger that runner `r` left is still there, or nothing in it runs any more.
  ghost predicate StillOnDisk(procs: Processes, files: Files, r: int, left: Entries) {
    if r in files then files[r] == left else NoneRuns(procs, left)
  }

  // A runner starts under the PID of one that ended, and so takes over its file.
  predicate Reuses(w: World, a: Action, p: int) {
    a.Start? && a.runner == p && p in w.lost
  }

  // No runner starts again under the PID `p`.
  predicate FairFor(w: World, actions: seq<Action>, p: int)
    requires Possible(w, actions)
    decreases |actions|
  {
    actions == [] || (!Reuses(w, actions[0], p) && FairFor(Next(w, actions[0]), actions[1..], p))
  }

  // ----- What every step keeps, for one PID -----

  // A runner that is not exiting has on disk what it has in memory. One that is has
  // nothing in memory, and on disk all its leftovers or nothing.
  predicate DiskOk(files: Files, r: int, s: RunnerState) {
    if s.phase.Exiting? then s.entries == [] && (r in files ==> files[r] == s.phase.leftovers)
    else Saved(files, r, s.entries)
  }

  predicate Known(w: World, p: int) {
    p in w.runners || p in w.lost
  }

  function TodoOf(phase: Phase): seq<int> {
    if phase.Idle? || phase.Killing? || phase.Exiting? then [] else phase.todo
  }

  predicate WorksOn(phase: Phase, p: int) {
    (phase.Reading? || phase.Pruning? || phase.Dropping?) && phase.path == p
  }

  // A sweep comes to a ledger of a known runner, and works on it when that one has ended.
  predicate WalkOk(w: World, phase: Phase, p: int) {
    (p in TodoOf(phase) ==> Known(w, p)) && (WorksOn(phase, p) ==> p in w.lost)
  }

  ghost predicate WalksOk(w: World, p: int) {
    forall s :: s in w.runners ==> WalkOk(w, w.runners[s].phase, p)
  }

  // The ledger under `p` is what its runner has in memory, or what it left.
  ghost predicate LedgerOk(w: World, p: int) {
    && (p in w.runners ==> p !in w.lost && DiskOk(w.files, p, w.runners[p]))
    && (p in w.lost ==> RegisteredUnder(w.owner, w.lost[p], p) && StillOnDisk(w.procs, w.files, p, w.lost[p]))
    && (p in w.files ==> Known(w, p))
  }

  ghost predicate Recorded(w: World, p: int) {
    LedgerOk(w, p) && WalksOk(w, p)
  }

  // No dead instance comes back.
  lemma NewcomerKeepsLost(w: World, pid: int, process: Process, l: Entries)
    requires Inv(w) && FreshProcess(w, pid, process) && AllRegistered(w.owner, l) && NoneRuns(w.procs, l)
    ensures NoneRuns(w.procs[pid := process], l)
  {
    forall c | c in l ensures !Runs(w.procs[pid := process], Id(c)) {
      assert Id(c) in w.owner && Id(c) in w.born;
    }
  }

  lemma SpawnKeepsRecorded(w: World, pid: int, process: Process, p: int)
    requires Inv(w) && Recorded(w, p) && Enabled(w, Spawn(pid, process))
    ensures Recorded(Next(w, Spawn(pid, process)), p)
  {
    if p in w.lost && p !in w.files { NewcomerKeepsLost(w, pid, process, w.lost[p]); }
  }

  lemma StartKeepsRecorded(w: World, r: int, process: Process, p: int)
    requires Inv(w) && Recorded(w, p) && Enabled(w, Start(r, process)) && !(r == p && p in w.lost)
    ensures Recorded(Next(w, Start(r, process)), p)
  {
    var w' := Next(w, Start(r, process));
    assert r !in w.runners;
    if p in w.lost && p !in w.files { NewcomerKeepsLost(w, r, process, w.lost[p]); }
    forall s | s in w'.runners ensures WalkOk(w', w'.runners[s].phase, p) {
      if s != r { assert WalkOk(w, w.runners[s].phase, p); }
    }
  }

  // Processes only go; every ledger but that of `r` is as it was.
  ghost predicate Shrinks(w: World, r: int, v: View) {
    && (forall pid :: pid in v.procs ==> pid in w.procs && v.procs[pid] == w.procs[pid])
    && (forall p :: p != r ==> (p in v.files <==> p in w.files) && (p in v.files ==> v.files[p] == w.files[p]))
  }

  lemma PhaseKeepsWalks(w: World, w': World, r: int, p: int)
    requires WalksOk(w, p) && r in w.runners && w'.lost == w.lost && w'.runners.Keys == w.runners.Keys
    requires forall s :: s in w.runners && s != r ==> w'.runners[s] == w.runners[s]
    requires WalkOk(w, w'.runners[r].phase, p)
    ensures WalksOk(w', p)
  {
    forall s | s in w'.runners ensures WalkOk(w', w'.runners[s].phase, p) {
      if s != r { assert WalkOk(w, w.runners[s].phase, p); }
    }
  }

  lemma CommitKeepsRecorded(w: World, r: int, v: View, phase: Phase, owner: map<Identity, Identity>, p: int)
    requires Inv(w) && Recorded(w, p) && r in w.runners && Shrinks(w, r, v) && Grows(w.owner, owner)
    requires r == p ==> DiskOk(v.files, r, w.runners[r].(entries := v.entries, phase := phase))
    requires WalkOk(w, phase, p)
    ensures Recorded(Commit(w, r, v, phase).(owner := owner), p)
  {
    PhaseKeepsWalks(w, Commit(w, r, v, phase).(owner := owner), r, p);
  }

  lemma PhaseKeepsRecorded(w: World, r: int, phase: Phase, p: int)
    requires Recorded(w, p) && r in w.runners && WalkOk(w, phase, p)
    requires r == p ==> DiskOk(w.files, r, w.runners[r].(phase := phase))
    ensures Recorded(SetPhase(w, r, phase), p)
  {
    PhaseKeepsWalks(w, SetPhase(w, r, phase), r, p);
  }

  // A runner ends, its file left as it is or removed.
  lemma RetireKeepsRecorded(w: World, r: int, files: Files, p: int)
    requires Inv(w) && Recorded(w, p) && r in w.runners && (files == w.files || files == w.files - {r})
    ensures Recorded(Retire(w.(files := files), r), p)
  {
    var w' := Retire(w.(files := files), r);
    if r == p && p in w.files { assert RegisteredUnder(w.owner, w.files[p], p); }
    forall s | s in w'.runners ensures WalkOk(w', w'.runners[s].phase, p) { assert WalkOk(w, w.runners[s].phase, p); }
  }

  lemma NothingLiving(w: World, s: int, p: int)
    requires Inv(w) && s in w.runners && p in w.files && Living(s, w.procs, w.files[p]) == []
    ensures NoneRuns(w.procs, w.files[p])
  {
    var file := w.files[p];
    assert RegisteredUnder(w.owner, file, p);
    forall c | c in file ensures !Runs(w.procs, Id(c)) {
      if Runs(w.procs, Id(c)) {
        RegisteredIsNoRunner(w, Id(c));
        assert RecordedBy(file, Id(c));
        LivingIffRecorded(s, w.procs, file, Id(c));
      }
    }
  }

  lemma UnlinkKeepsRecorded(w: World, s: int, q: int, p: int)
    requires Inv(w) && Recorded(w, p) && s in w.runners && (q == p ==> p in w.lost)
    ensures Recorded(Unlink(w, s, q), p)
  {
    if q == p && p in w.files && Living(s, w.procs, w.files[p]) == [] { NothingLiving(w, s, p); }
  }

  lemma KillSaves(w: World, r: int, c: TrackedChild, phase: Phase)
    requires r in w.runners && DiskOk(w.files, r, w.runners[r]) && (phase.Exiting? <==> w.runners[r].phase.Exiting?)
    ensures var v := Kill(r, ViewOf(w, r), c).0;
            DiskOk(v.files, r, w.runners[r].(entries := v.entries, phase := phase))
  {
  }

  lemma KillShrinks(w: World, r: int, c: TrackedChild)
    requires r in w.runners
    ensures Shrinks(w, r, Kill(r, ViewOf(w, r), c).0)
  {
  }

  lemma KillKeepsRecorded(w: World, r: int, c: TrackedChild, phase: Phase, p: int)
    requires Inv(w) && Recorded(w, p) && r in w.runners && WalkOk(w, phase, p)
    requires phase.Exiting? <==> w.runners[r].phase.Exiting?
    ensures Recorded(Commit(w, r, Kill(r, ViewOf(w, r), c).0, phase), p)
  {
    KillShrinks(w, r, c);
    if r == p { KillSaves(w, r, c, phase); }
    CommitKeepsRecorded(w, r, Kill(r, ViewOf(w, r), c).0, phase, w.owner, p);
  }

  lemma PruningKeepsRecorded(w: World, r: int, q: int, phase: Phase, p: int)
    requires Inv(w) && Recorded(w, p) && r in w.runners && (q == p ==> p in w.lost) && WalkOk(w, phase, p)
    requires !w.runners[r].phase.Exiting? && !phase.Exiting?
    ensures Recorded(SetPhase(Unlink(w, r, q), r, phase), p)
  {
    UnlinkKeepsRecorded(w, r, q, p);
    PhaseKeepsRecorded(Unlink(w, r, q), r, phase, p);
  }

  // A known runner whose PID is not alive has ended.
  lemma AbandonedIsLost(w: World, p: int)
    requires Inv(w) && Known(w, p) && !PidAlive(w.procs, p)
    ensures p in w.lost
  {
  }

  lemma WalkKeepsRecorded(w: World, r: int, p: int)
    requires Inv(w) && Recorded(w, p) && r in w.runners && Walks(w.runners[r].phase)
    ensures Recorded(SetPhase(w, r, Walk(w, r)), p)
  {
    var phase := w.runners[r].phase;
    assert WalkOk(w, phase, p);
    if !phase.Reading? && phase.todo != [] && phase.todo[0] == p && !PidAlive(w.procs, p) { AbandonedIsLost(w, p); }
    PhaseKeepsRecorded(w, r, Walk(w, r), p);
  }

  lemma AdvanceKeepsRecorded(w: World, r: int, p: int)
    requires Inv(w) && Recorded(w, p) && Enabled(w, Continue(r))
    ensures Recorded(Advance(w, r), p)
  {
    var phase := w.runners[r].phase;
    assert WalkOk(w, phase, p);
    if Walks(phase) {
      WalkKeepsRecorded(w, r, p);
    } else if phase.Pruning? {
      PruningKeepsRecorded(w, r, phase.path, Checking(phase.todo, phase.orphans), p);
    } else if phase.Dropping? {
      PruningKeepsRecorded(w, r, phase.path, Clearing(phase.todo), p);
    } else if phase.Killing? {
      KillKeepsRecorded(w, r, phase.orphans[0], Killing(phase.orphans[1..]), p);
    } else if phase.leftovers == [] {
      RetireKeepsRecorded(w, r, w.files - {r}, p);
    } else {
      KillKeepsRecorded(w, r, phase.leftovers[0], Exiting(phase.leftovers[1..]), p);
    }
  }

  lemma RegisterKeepsRecorded(w: World, r: int, pid: int, kind: string, p: int)
    requires Inv(w) && Recorded(w, p) && Enabled(w, RegisterBy(r, pid, kind))
    ensures Recorded(Next(w, RegisterBy(r, pid, kind)), p)
  {
    var (v, c) := Register(r, ViewOf(w, r), pid, kind);
    var owner := if c.Some? then w.owner[Id(c.value) := Instance(w, r)] else w.owner;
    if c.Some? { OwnerGrows(w, r, Id(c.value)); }
    assert WalkOk(w, w.runners[r].phase, p);
    CommitKeepsRecorded(w, r, v, w.runners[r].phase, owner, p);
  }

  lemma StepKeepsRecorded(w: World, a: Action, p: int)
    requires Inv(w) && Recorded(w, p) && Enabled(w, a) && !Reuses(w, a, p)
    ensures Recorded(Next(w, a), p)
  {
    match a
    case Spawn(pid, process) => SpawnKeepsRecorded(w, pid, process, p);
    case Die(pid) =>
    case Start(r, process) => StartKeepsRecorded(w, r, process, p);
    case Crash(r) => RetireKeepsRecorded(w, r, w.files, p);
    case RegisterBy(r, pid, kind) => RegisterKeepsRecorded(w, r, pid, kind, p);
    case UnregisterBy(r, pid) =>
      assert WalkOk(w, w.runners[r].phase, p);
      CommitKeepsRecorded(w, r, Unregister(r, ViewOf(w, r), pid), w.runners[r].phase, w.owner, p);
    case KillOwn(r, i) =>
      assert WalkOk(w, w.runners[r].phase, p);
      KillKeepsRecorded(w, r, w.runners[r].entries[i], w.runners[r].phase, p);
    case BeginSweep(r, listing) => PhaseKeepsRecorded(w, r, Checking(listing, []), p);
    case BeginClear(r, listing) => PhaseKeepsRecorded(w, r, Clearing(listing), p);
    case BeginExit(r) =>
      CommitKeepsRecorded(w, r, ViewOf(w, r).(entries := []), Exiting(w.runners[r].entries), w.owner, p);
    case Continue(r) => AdvanceKeepsRecorded(w, r, p);
  }

  lemma {:induction false} RunKeepsRecorded(w: World, actions: seq<Action>, p: int)
    requires Inv(w) && Recorded(w, p) && Possible(w, actions) && FairFor(w, actions, p)
    ensures Inv(RunAll(w, actions)) && Recorded(RunAll(w, actions), p)
    decreases |actions|
  {
    if actions != [] {
      StepKeeps(w, actions[0]);
      StepKeepsRecorded(w, actions[0], p);
      RunKeepsRecorded(Next(w, actions[0]), actions[1..], p);
    }
  }

  // ----- Every run -----

  // After every run in which no runner before it had the PID `r`, the ledger file of `r`,
  // unless it is exiting, equals its memory: a crash at that point leaves exactly the
  // registered children behind.
  lemma CrashLeavesEntries(w: World, actions: seq<Action>, r: int)
    requires Boot(w) && Possible(w, actions) && FairFor(w, actions, r) && Active(RunAll(w, actions), r)
    ensures var now := RunAll(w, actions);
            && Saved(now.files, r, now.runners[r].entries)
            && Next(now, Crash(r)).lost[r] == now.runners[r].entries
  {
    RunKeepsRecorded(w, actions, r);
  }

  // Registered by a runner that ended with it on record, and whose PID nobody holds now.
  ghost predicate LeftBehind(w: World, id: Identity) {
    && id in w.owner
    && var r := w.owner[id].pid;
       r in w.lost && !PidAlive(w.procs, r) && RecordedBy(w.lost[r], id)
  }

  // A ledger only holds children of runners under its own PID.
  lemma RecordIsOwned(w: World, p: int, id: Identity)
    requires Inv(w) && p in w.files && RecordedBy(w.files[p], id)
    ensures id in w.owner && w.owner[id].pid == p
  {
    assert RegisteredUnder(w.owner, w.files[p], p);
  }

  lemma OrphanIffLeftBehind(w: World, s: int, id: Identity)
    requires Inv(w) && s in w.runners && Runs(w.procs, id)
    requires id in w.owner ==> Recorded(w, w.owner[id].pid)
    ensures Orphan(s, ViewOf(w, s), id) <==> LeftBehind(w, id)
  {
    if Orphan(s, ViewOf(w, s), id) {
      var p :| p in w.files && Abandoned(s, w.procs, p) && RecordedBy(w.files[p], id);
      RecordIsOwned(w, p, id);
      AbandonedIsLost(w, p);
    }
    if LeftBehind(w, id) {
      var r := w.owner[id].pid;
      var i :| 0 <= i < |w.lost[r]| && Id(w.lost[r][i]) == id;
      assert w.lost[r][i] in w.lost[r];
      assert r in w.files && w.files[r] == w.lost[r];
      RegisteredIsNoRunner(w, id);
      assert Abandoned(s, w.procs, r);
    }
  }

  // After every run, for every process: unless the PID of the runner that registered it
  // was used again, a sweep that nothing interrupts ends it if and only if that runner
  // left it behind and it can be killed.
  lemma SweepIsComplete(w: World, actions: seq<Action>, s: int, listing: seq<int>, again: seq<int>, pid: int)
    requires Boot(w) && Possible(w, actions) && s in RunAll(w, actions).runners
    requires Lists(listing, RunAll(w, actions).files) && pid in RunAll(w, actions).procs
    requires var now := RunAll(w, actions);
             var id := Identity(pid, now.procs[pid].starttime);
             id in now.owner ==> FairFor(w, actions, now.owner[id].pid)
    ensures var now := RunAll(w, actions);
            var last := SweepAndKill(s, ViewOf(now, s), listing, again);
            && (pid !in last.procs <==>
                LeftBehind(now, Identity(pid, now.procs[pid].starttime)) && !Guarded(now.procs, pid))
            && (pid in last.procs ==> last.procs[pid] == now.procs[pid])
  {
    var now := RunAll(w, actions);
    var id := Identity(pid, now.procs[pid].starttime);
    RunKeeps(w, actions);
    if id in now.owner { RunKeepsRecorded(w, actions, now.owner[id].pid); }
    OrphanIffLeftBehind(now, s, id);
    SweepKillsOrphans(s, ViewOf(now, s), listing, again, pid);
  }

  lemma LostAreLeftBehind(w: World, r: int, c: TrackedChild)
    requires Recorded(w, r) && r in w.lost && !PidAlive(w.procs, r) && c in w.lost[r]
    ensures LeftBehind(w, Id(c)) && w.owner[Id(c)].pid == r
  {
    assert RecordedBy(w.lost[r], Id(c));
  }

  // So, whatever happened to other runners and their PIDs: such a sweep ends everything
  // that a dead runner left on record.
  lemma SweepEndsLost(w: World, actions: seq<Action>, s: int, listing: seq<int>, again: seq<int>, r: int,
                      c: TrackedChild)
    requires Boot(w) && Possible(w, actions) && FairFor(w, actions, r) && s in RunAll(w, actions).runners
    requires Lists(listing, RunAll(w, actions).files)
    requires var now := RunAll(w, actions); r in now.lost && !PidAlive(now.procs, r) && c in now.lost[r]
    requires !Guarded(RunAll(w, actions).procs, c.pid)
    ensures !Runs(SweepAndKill(s, ViewOf(RunAll(w, actions), s), listing, again).procs, Id(c))
  {
    var now := RunAll(w, actions);
    RunKeepsRecorded(w, actions, r);
    LostAreLeftBehind(now, r, c);
    if c.pid in now.procs && now.procs[c.pid].starttime == c.starttime {
      SweepIsComplete(w, actions, s, listing, again, c.pid);
    } else {
      SweepKillsOrphans(s, ViewOf(now, s), listing, again, c.pid);
    }
  }

  // ----- Crashes inside the exit handler -----

  // The crashed runner's ledger still has every one of these that runs.
  ghost predicate Remembered(w: World, r: int, l: Entries)
    requires r in w.lost
  {
    forall c :: c in l && Runs(w.procs, Id(c)) ==> c in w.lost[r]
  }

  lemma CrashWhileExiting(now: World, r: int, leftovers: Entries)
    requires Inv(now) && Recorded(now, r) && r in now.runners && now.runners[r].phase == Exiting(leftovers)
    ensures Remembered(Next(now, Crash(r)), r, leftovers) <==> r in now.files || NoneRuns(now.procs, leftovers)
  {
    assert StateOk(now.owner, r, now.runners[r]);
    forall c | c in leftovers && Runs(now.procs, Id(c)) ensures c.pid != r { RegisteredIsNoRunner(now, Id(c)); }
  }

  // After every run, inside the exit handler of a runner that is the first under its PID:
  // a crash leaves the leftovers that run on record if and only if the ledger file is
  // still there, or none of them runs.
  lemma ExitCrashIff(w: World, actions: seq<Action>, r: int)
    requires Boot(w) && Possible(w, actions) && FairFor(w, actions, r)
    requires var now := RunAll(w, actions); r in now.runners && now.runners[r].phase.Exiting?
    ensures var now := RunAll(w, actions);
            var leftovers := now.runners[r].phase.leftovers;
            Remembered(Next(now, Crash(r)), r, leftovers) <==> r in now.files || NoneRuns(now.procs, leftovers)
  {
    RunKeepsRecorded(w, actions, r);
    CrashWhileExiting(RunAll(w, actions), r, RunAll(w, actions).runners[r].phase.leftovers);
  }

  lemma {:induction false} RunThen(w: World, actions: seq<Action>, more: seq<Action>)
    requires Possible(w, actions) && Possible(RunAll(w, actions), more)
    ensures Possible(w, actions + more) && RunAll(w, actions + more) == RunAll(RunAll(w, actions), more)
    decreases |actions|
  {
    if actions == [] {
      assert actions + more == more;
    } else {
      assert (actions + more)[0] == actions[0] && (actions + more)[1..] == actions[1..] + more;
      RunThen(Next(w, actions[0]), actions[1..], more);
    }
  }

  lemma {:induction false} FairThen(w: World, actions: seq<Action>, more: seq<Action>, p: int)
    requires Possible(w, actions) && Possible(RunAll(w, actions), more)
    requires FairFor(w, actions, p) && FairFor(RunAll(w, actions), more, p)
    ensures Possible(w, actions + more) && FairFor(w, actions + more, p)
    decreases |actions|
  {
    RunThen(w, actions, more);
    if actions == [] {
      assert actions + more == more;
    } else {
      assert (actions + more)[0] == actions[0] && (actions + more)[1..] == actions[1..] + more;
      FairThen(Next(w, actions[0]), actions[1..], more, p);
    }
  }

  lemma OneStep(w: World, a: Action, p: int)
    requires Enabled(w, a)
    ensures Possible(w, [a]) && RunAll(w, [a]) == Next(w, a)
    ensures !Reuses(w, a, p) ==> FairFor(w, [a], p)
  {
    assert [a][1..] == [];
  }

  lemma ExitStep(now: World, r: int, c: TrackedChild)
    requires Inv(now) && Recorded(now, r) && r in now.runners && now.runners[r].phase.Exiting?
    requires var l := now.runners[r].phase.leftovers; l != [] && c in l[1..] && c.pid != l[0].pid
    requires Runs(now.procs, Id(c))
    ensures var next := Next(now, Continue(r));
            && r in next.runners && next.runners[r].phase == Exiting(now.runners[r].phase.leftovers[1..])
            && r !in next.files && Runs(next.procs, Id(c))
  {
  }

  // The handler's first kill removes the whole file: from then on, over every run, a
  // crash forgets each child that it has not come to.
  lemma ExitForgets(w: World, actions: seq<Action>, r: int, c: TrackedChild)
    requires Boot(w) && Possible(w, actions) && FairFor(w, actions, r)
    requires var now := RunAll(w, actions);
             && r in now.runners && now.runners[r].phase.Exiting? && Runs(now.procs, Id(c))
             && var l := now.runners[r].phase.leftovers; l != [] && c in l[1..] && c.pid != l[0].pid
    ensures Possible(w, actions + [Continue(r)]) && FairFor(w, actions + [Continue(r)], r)
    ensures var next := RunAll(w, actions + [Continue(r)]);
            && r in next.runners && next.runners[r].phase.Exiting? && c in next.runners[r].phase.leftovers
            && Runs(next.procs, Id(c)) && !Remembered(Next(next, Crash(r)), r, next.runners[r].phase.leftovers)
  {
    RunKeepsRecorded(w, actions, r);
    var now := RunAll(w, actions);
    ExitStep(now, r, c);
    OneStep(now, Continue(r), r);
    RunThen(w, actions, [Continue(r)]);
    FairThen(w, actions, [Continue(r)], r);
    ExitCrashIff(w, actions + [Continue(r)], r);
  }

  // Killing a stale orphan also drops an entry of the killer's own under that PID, and
  // killing one that is guarded drops it all the same: so is a running child forgotten,
  // and not otherwise.
  lemma KillForgetsIff(self: int, v: View, c: TrackedChild, e: TrackedChild)
    requires e in v.entries && e.pid > 1 && e.pid != self && Runs(v.procs, Id(e))
    ensures var after := Kill(self, v, c).0;
            Runs(after.procs, Id(e)) && e !in after.entries
            <==> e.pid == c.pid && (e.starttime != c.starttime || Guarded(v.procs, e.pid))
  {
  }
}
