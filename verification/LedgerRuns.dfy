/**
 Runs of several measurement runners on one machine: processes start and end, PIDs are
 reused, runners register children, crash, exit and sweep, in any interleaving. A
 sweep is cut into the steps between which another runner may act.
 */
module LedgerRuns {
  import opened Wrappers
  import opened Ledger

  // Where a runner is in a sweep or in its exit handler.
  datatype Phase =
    | Idle
    | Checking(todo: seq<int>, orphans: Entries)
    | Reading(path: int, todo: seq<int>, orphans: Entries)
    | Pruning(path: int, todo: seq<int>, orphans: Entries)
    | Killing(orphans: Entries)
    | Clearing(todo: seq<int>)
    | Dropping(path: int, todo: seq<int>)
    | Exiting(leftovers: Entries)

  datatype RunnerState = RunnerState(starttime: int, entries: Entries, phase: Phase)

  // A signal: the killed process, the runner instance that started it, and whether that
  // runner was alive at that moment.
  datatype Signal = Signal(sender: Identity, target: Identity, parent: Option<Identity>, parentLive: bool)

  datatype World = World(
    procs: Processes,
    files: Files,
    runners: map<int, RunnerState>,
    // History: instances ever started, which runner instance registered what, what a
    // runner left on disk when it ended, signals sent.
    born: set<Identity>,
    owner: map<Identity, Identity>,
    lost: Files,
    signals: seq<Signal>)

  datatype Action =
    | Spawn(pid: int, process: Process)
    | Die(pid: int)
    | Start(runner: int, process: Process)
    | Crash(runner: int)
    | RegisterBy(runner: int, pid: int, kind: string)
    | UnregisterBy(runner: int, pid: int)
    | KillOwn(runner: int, index: nat)
    | BeginSweep(runner: int, listing: seq<int>)
    | BeginClear(runner: int, listing: seq<int>)
    | BeginExit(runner: int)
    | Continue(runner: int)

  // The runner under a PID, as opposed to earlier ones under the same PID.
  function Instance(w: World, r: int): Identity
    requires r in w.runners
  {
    Identity(r, w.runners[r].starttime)
  }

  predicate IsLive(w: World, id: Identity) {
    id.pid in w.runners && w.runners[id.pid].starttime == id.starttime
  }

  predicate FreshProcess(w: World, pid: int, p: Process) {
    pid !in w.procs && Identity(pid, p.starttime) !in w.born
  }

  predicate Active(w: World, r: int) {
    r in w.runners && !w.runners[r].phase.Exiting?
  }

  predicate Listed(listing: seq<int>, files: Files) {
    forall i :: 0 <= i < |listing| ==> listing[i] in files
  }

  // A runner registers its own children only.
  predicate Enabled(w: World, a: Action) {
    match a
    case Spawn(pid, p) => FreshProcess(w, pid, p) && (p.parent.Some? ==> IsLive(w, p.parent.value))
    case Die(pid) => pid in w.procs && pid !in w.runners
    case Start(r, p) => r > 1 && FreshProcess(w, r, p) && p.parent.None?
    case Crash(r) => r in w.runners
    case RegisterBy(r, pid, _) =>
      Active(w, r) && (pid in w.procs && pid != r ==> w.procs[pid].parent == Some(Instance(w, r)))
    case UnregisterBy(r, _) => Active(w, r)
    case KillOwn(r, i) => Active(w, r) && i < |w.runners[r].entries|
    case BeginSweep(r, listing) => r in w.runners && w.runners[r].phase.Idle? && Listed(listing, w.files)
    case BeginClear(r, listing) => r in w.runners && w.runners[r].phase == Killing([]) && Listed(listing, w.files)
    case BeginExit(r) => Active(w, r)
    case Continue(r) => r in w.runners && !w.runners[r].phase.Idle? && w.runners[r].phase != Killing([])
  }

  function ViewOf(w: World, r: int): View
    requires r in w.runners
  {
    View(w.procs, w.files, w.runners[r].entries, [])
  }

  function Sent(w: World, r: int, id: Identity): Signal
    requires r in w.runners
  {
    var parent := if id.pid in w.procs then w.procs[id.pid].parent else None;
    Signal(Instance(w, r), id, parent, parent.Some? && IsLive(w, parent.value))
  }

  function Log(w: World, r: int, ids: seq<Identity>): seq<Signal>
    requires r in w.runners
  {
    seq(|ids|, i requires 0 <= i < |ids| => Sent(w, r, ids[i]))
  }

  function Commit(w: World, r: int, v: View, phase: Phase): World
    requires r in w.runners
  {
    w.(procs := v.procs, files := v.files,
       runners := w.runners[r := w.runners[r].(entries := v.entries, phase := phase)],
       signals := w.signals + Log(w, r, v.signals))
  }

  function SetPhase(w: World, r: int, phase: Phase): World
    requires r in w.runners
  {
    w.(runners := w.runners[r := w.runners[r].(phase := phase)])
  }

  function Retire(w: World, r: int): World {
    w.(procs := w.procs - {r}, runners := w.runners - {r},
       lost := w.lost[r := if r in w.files then w.files[r] else []])
  }

  function Unlink(w: World, r: int, p: int): World {
    w.(files := if p in w.files && Living(r, w.procs, w.files[p]) == [] then w.files - {p} else w.files)
  }

  predicate Walks(phase: Phase) {
    phase.Checking? || phase.Reading? || phase.Clearing?
  }

  // The steps of a sweep that only look.
  function Walk(w: World, r: int): Phase
    requires r in w.runners && Walks(w.runners[r].phase)
  {
    match w.runners[r].phase
    case Checking(todo, orphans) =>
      if todo == [] then Killing(orphans)
      else if Abandoned(r, w.procs, todo[0]) then Reading(todo[0], todo[1..], orphans)
      else Checking(todo[1..], orphans)
    case Reading(p, todo, orphans) =>
      Pruning(p, todo, orphans + if p in w.files then Living(r, w.procs, w.files[p]) else [])
    case Clearing(todo) =>
      if todo == [] then Idle
      else if !PidAlive(w.procs, todo[0]) then Dropping(todo[0], todo[1..])
      else Clearing(todo[1..])
  }

  // One step of the sweep or of the exit handler of runner `r`.
  function Advance(w: World, r: int): World
    requires Enabled(w, Continue(r))
  {
    if Walks(w.runners[r].phase) then SetPhase(w, r, Walk(w, r))
    else
      match w.runners[r].phase
      case Pruning(p, todo, orphans) => SetPhase(Unlink(w, r, p), r, Checking(todo, orphans))
      case Killing(orphans) => Commit(w, r, Kill(r, ViewOf(w, r), orphans[0]).0, Killing(orphans[1..]))
      case Dropping(p, todo) => SetPhase(Unlink(w, r, p), r, Clearing(todo))
      case Exiting(leftovers) =>
        if leftovers == [] then Retire(w.(files := w.files - {r}), r)
        else Commit(w, r, Kill(r, ViewOf(w, r), leftovers[0]).0, Exiting(leftovers[1..]))
  }

  function Next(w: World, a: Action): World
    requires Enabled(w, a)
  {
    match a
    case Spawn(pid, p) => w.(procs := w.procs[pid := p], born := w.born + {Identity(pid, p.starttime)})
    case Die(pid) => w.(procs := w.procs - {pid})
    case Start(r, p) =>
      w.(procs := w.procs[r := p], born := w.born + {Identity(r, p.starttime)},
         runners := w.runners[r := RunnerState(p.starttime, [], Idle)])
    case Crash(r) => Retire(w, r)
    case RegisterBy(r, pid, kind) =>
      var (v, c) := Register(r, ViewOf(w, r), pid, kind);
      Commit(w, r, v, w.runners[r].phase).(
        owner := if c.Some? then w.owner[Id(c.value) := Instance(w, r)] else w.owner)
    case UnregisterBy(r, pid) => Commit(w, r, Unregister(r, ViewOf(w, r), pid), w.runners[r].phase)
    case KillOwn(r, i) => Commit(w, r, Kill(r, ViewOf(w, r), w.runners[r].entries[i]).0, w.runners[r].phase)
    case BeginSweep(r, listing) => SetPhase(w, r, Checking(listing, []))
    case BeginClear(r, listing) => SetPhase(w, r, Clearing(listing))
    case BeginExit(r) => Commit(w, r, ViewOf(w, r).(entries := []), Exiting(w.runners[r].entries))
    case Continue(r) => Advance(w, r)
  }

  // ----- Runs -----

  // Every action is enabled in turn; nothing else is assumed.
  predicate Possible(w: World, actions: seq<Action>)
    decreases |actions|
  {
    actions == [] || (Enabled(w, actions[0]) && Possible(Next(w, actions[0]), actions[1..]))
  }

  function RunAll(w: World, actions: seq<Action>): World
    requires Possible(w, actions)
    decreases |actions|
  {
    if actions == [] then w else RunAll(Next(w, actions[0]), actions[1..])
  }

  // A runner starts under a PID whose ledger some sweep has found abandoned and is
  // about to read.
  ghost predicate EntersWindow(w: World, a: Action) {
    a.Start? && exists s :: s in w.runners && w.runners[s].phase.Reading? && w.runners[s].phase.path == a.runner
  }

  ghost predicate Careful(w: World, actions: seq<Action>)
    requires Possible(w, actions)
    decreases |actions|
  {
    actions == [] || (!EntersWindow(w, actions[0]) && Careful(Next(w, actions[0]), actions[1..]))
  }

  // A machine with any processes and no runner yet.
  ghost predicate Boot(w: World) {
    && (forall pid :: pid in w.procs ==> Identity(pid, w.procs[pid].starttime) in w.born)
    && w.files == map[] && w.runners == map[] && w.owner == map[] && w.lost == map[] && w.signals == []
  }

  // ----- What every enabled step keeps -----

  predicate OwnedBy(owner: map<Identity, Identity>, c: TrackedChild, r: Identity) {
    Id(c) in owner && owner[Id(c)] == r
  }

  ghost predicate AllOwned(owner: map<Identity, Identity>, l: Entries, r: Identity) {
    forall c :: c in l ==> OwnedBy(owner, c, r)
  }

  ghost predicate AllRegistered(owner: map<Identity, Identity>, l: Entries) {
    forall c :: c in l ==> Id(c) in owner
  }

  // Registered by runners under the PID `p`, whichever instances these were.
  ghost predicate RegisteredUnder(owner: map<Identity, Identity>, l: Entries, p: int) {
    forall c :: c in l ==> Id(c) in owner && owner[Id(c)].pid == p
  }

  function OrphansOf(phase: Phase): Entries {
    if phase.Checking? || phase.Reading? || phase.Pruning? || phase.Killing? then phase.orphans else []
  }

  // Process instances: who is born, and whose child a registered process is.
  ghost predicate Lineage(procs: Processes, born: set<Identity>, owner: map<Identity, Identity>) {
    && (forall pid :: pid in procs ==> Identity(pid, procs[pid].starttime) in born)
    && (forall id :: id in owner ==> id in born && id.pid > 1 && owner[id] in born)
    && (forall id :: id in owner && Runs(procs, id) ==> procs[id.pid].parent == Some(owner[id]))
  }

  // Runners are running processes that no runner started.
  ghost predicate RunnersRun(procs: Processes, runners: map<int, RunnerState>) {
    forall r :: r in runners ==>
      r > 1 && r in procs && procs[r].starttime == runners[r].starttime && procs[r].parent.None?
  }

  ghost predicate FilesOwned(owner: map<Identity, Identity>, files: Files) {
    forall p :: p in files ==> RegisteredUnder(owner, files[p], p)
  }

  ghost predicate StateOk(owner: map<Identity, Identity>, r: int, s: RunnerState) {
    && AllOwned(owner, s.entries, Identity(r, s.starttime))
    && AllRegistered(owner, OrphansOf(s.phase))
    && (s.phase.Exiting? ==> AllOwned(owner, s.phase.leftovers, Identity(r, s.starttime)))
  }

  predicate Reached(owner: map<Identity, Identity>, s: Signal) {
    s.target in owner && s.parent == Some(owner[s.target])
  }

  // Every signal reached a process that its own parent runner had registered.
  ghost predicate OnlyRegistered(w: World) {
    forall i :: 0 <= i < |w.signals| ==> Reached(w.owner, w.signals[i])
  }

  ghost predicate Inv(w: World) {
    && Lineage(w.procs, w.born, w.owner)
    && RunnersRun(w.procs, w.runners)
    && FilesOwned(w.owner, w.files)
    && (forall r :: r in w.runners ==> StateOk(w.owner, r, w.runners[r]))
    && OnlyRegistered(w)
  }

  ghost predicate Grows(owner: map<Identity, Identity>, owner': map<Identity, Identity>) {
    forall id :: id in owner ==> id in owner' && owner'[id] == owner[id]
  }

  lemma SpawnKeeps(w: World, pid: int, p: Process)
    requires Inv(w) && Enabled(w, Spawn(pid, p))
    ensures Inv(Next(w, Spawn(pid, p)))
  {
  }

  lemma DieKeeps(w: World, pid: int)
    requires Inv(w) && Enabled(w, Die(pid))
    ensures Inv(Next(w, Die(pid)))
  {
  }

  lemma StartKeeps(w: World, r: int, p: Process)
    requires Inv(w) && Enabled(w, Start(r, p))
    ensures Inv(Next(w, Start(r, p)))
  {
  }

  lemma RetireKeeps(w: World, r: int, files: Files)
    requires Inv(w) && r in w.runners
    requires forall p :: p in files ==> p in w.files && files[p] == w.files[p]
    ensures Inv(Retire(w.(files := files), r))
  {
  }

  // The view of runner `r` only loses processes, no runner among them, and changes no
  // ledger but its own.
  ghost predicate Contained(w: World, r: int, v: View) {
    && (forall pid :: pid in v.procs ==> pid in w.procs && v.procs[pid] == w.procs[pid])
    && (forall s :: s in w.runners ==> s in v.procs)
    && (forall p :: p in v.files && p != r ==> p in w.files && v.files[p] == w.files[p])
  }

  lemma CommitKeeps(w: World, r: int, v: View, phase: Phase)
    requires Inv(w) && r in w.runners && Contained(w, r, v)
    requires StateOk(w.owner, r, w.runners[r].(entries := v.entries, phase := phase))
    requires r in v.files ==> RegisteredUnder(w.owner, v.files[r], r)
    requires forall i :: 0 <= i < |v.signals| ==> Reached(w.owner, Log(w, r, v.signals)[i])
    ensures Inv(Commit(w, r, v, phase))
  {
  }

  lemma PhaseKeeps(w: World, r: int, phase: Phase)
    requires Inv(w) && r in w.runners && StateOk(w.owner, r, w.runners[r].(phase := phase))
    ensures Inv(SetPhase(w, r, phase))
  {
  }

  lemma UnlinkKeeps(w: World, r: int, p: int)
    requires Inv(w)
    ensures Inv(Unlink(w, r, p))
  {
  }

  // A registered process is nobody's runner.
  lemma RegisteredIsNoRunner(w: World, id: Identity)
    requires Inv(w) && id in w.owner && Runs(w.procs, id)
    ensures id.pid !in w.runners
  {
  }

  lemma KillView(w: World, r: int, c: TrackedChild)
    requires Inv(w) && r in w.runners && Id(c) in w.owner
    ensures var v := Kill(r, ViewOf(w, r), c).0;
            && Contained(w, r, v) && AllOwned(w.owner, v.entries, Instance(w, r))
            && (r in v.files ==> RegisteredUnder(w.owner, v.files[r], r))
            && (forall i :: 0 <= i < |v.signals| ==> Reached(w.owner, Log(w, r, v.signals)[i]))
  {
    var v := Kill(r, ViewOf(w, r), c).0;
    assert StateOk(w.owner, r, w.runners[r]);
    if Killable(r, w.procs, c) {
      RegisteredIsNoRunner(w, Id(c));
      assert v.signals == [Id(c)];
    }
  }

  lemma KillKeeps(w: World, r: int, c: TrackedChild, phase: Phase)
    requires Inv(w) && r in w.runners && Id(c) in w.owner && StateOk(w.owner, r, w.runners[r].(phase := phase))
    ensures Inv(Commit(w, r, Kill(r, ViewOf(w, r), c).0, phase))
  {
    KillView(w, r, c);
    CommitKeeps(w, r, Kill(r, ViewOf(w, r), c).0, phase);
  }

  // Recording the owner of a running child of `r`.
  lemma OwnerGrows(w: World, r: int, id: Identity)
    requires Inv(w) && r in w.runners && Runs(w.procs, id) && w.procs[id.pid].parent == Some(Instance(w, r))
    ensures Grows(w.owner, w.owner[id := Instance(w, r)])
  {
  }

  lemma OwnerKeeps(w: World, r: int, id: Identity)
    requires Inv(w) && r in w.runners && id.pid > 1 && Runs(w.procs, id)
    requires w.procs[id.pid].parent == Some(Instance(w, r))
    ensures Inv(w.(owner := w.owner[id := Instance(w, r)]))
  {
    var owner := w.owner[id := Instance(w, r)];
    OwnerGrows(w, r, id);
    assert Lineage(w.procs, w.born, owner) by {
      assert Identity(id.pid, w.procs[id.pid].starttime) == id;
      assert Identity(r, w.procs[r].starttime) == Instance(w, r);
    }
    forall s | s in w.runners ensures StateOk(owner, s, w.runners[s]) {
      assert StateOk(w.owner, s, w.runners[s]);
    }
  }

  lemma RegisterKeeps(w: World, r: int, pid: int, kind: string)
    requires Inv(w) && Enabled(w, RegisterBy(r, pid, kind))
    ensures Inv(Next(w, RegisterBy(r, pid, kind)))
  {
    var (v, c) := Register(r, ViewOf(w, r), pid, kind);
    assert StateOk(w.owner, r, w.runners[r]);
    if c.Some? {
      OwnerKeeps(w, r, Id(c.value));
      var w1 := w.(owner := w.owner[Id(c.value) := Instance(w, r)]);
      assert StateOk(w1.owner, r, w1.runners[r]);
      CommitKeeps(w1, r, v, w.runners[r].phase);
      assert Next(w, RegisterBy(r, pid, kind)) == Commit(w1, r, v, w.runners[r].phase);
    } else {
      CommitKeeps(w, r, v, w.runners[r].phase);
    }
  }

  // What is read from the ledger under `p` was registered under `p`.
  lemma LivingIsRegistered(owner: map<Identity, Identity>, r: int, procs: Processes, file: Entries, p: int)
    requires RegisteredUnder(owner, file, p)
    ensures RegisteredUnder(owner, Living(r, procs, file), p)
  {
    forall c | c in Living(r, procs, file) ensures Id(c) in owner && owner[Id(c)].pid == p {
      var i :| 0 <= i < |Load(file)| && Load(file)[i] == c;
      assert file[i] in file && Id(file[i]) == Id(c);
    }
  }

  lemma WalkKeeps(w: World, r: int)
    requires Inv(w) && r in w.runners && Walks(w.runners[r].phase)
    ensures AllRegistered(w.owner, OrphansOf(Walk(w, r))) && !Walk(w, r).Exiting?
    ensures Inv(SetPhase(w, r, Walk(w, r)))
  {
    var phase := w.runners[r].phase;
    assert StateOk(w.owner, r, w.runners[r]);
    if phase.Reading? && phase.path in w.files {
      LivingIsRegistered(w.owner, r, w.procs, w.files[phase.path], phase.path);
    }
    PhaseKeeps(w, r, Walk(w, r));
  }

  lemma DropKeeps(w: World, r: int, p: int, phase: Phase)
    requires Inv(w) && r in w.runners && StateOk(w.owner, r, w.runners[r].(phase := phase))
    ensures Inv(SetPhase(Unlink(w, r, p), r, phase))
  {
    UnlinkKeeps(w, r, p);
    PhaseKeeps(Unlink(w, r, p), r, phase);
  }

  lemma AdvanceKeeps(w: World, r: int)
    requires Inv(w) && Enabled(w, Continue(r))
    ensures Inv(Advance(w, r))
  {
    var phase := w.runners[r].phase;
    assert StateOk(w.owner, r, w.runners[r]);
    if Walks(phase) {
      WalkKeeps(w, r);
    } else if phase.Pruning? {
      DropKeeps(w, r, phase.path, Checking(phase.todo, phase.orphans));
    } else if phase.Killing? {
      assert phase.orphans[0] in phase.orphans;
      KillKeeps(w, r, phase.orphans[0], Killing(phase.orphans[1..]));
    } else if phase.Dropping? {
      DropKeeps(w, r, phase.path, Clearing(phase.todo));
    } else if phase.leftovers == [] {
      RetireKeeps(w, r, w.files - {r});
    } else {
      assert phase.leftovers[0] in phase.leftovers;
      KillKeeps(w, r, phase.leftovers[0], Exiting(phase.leftovers[1..]));
    }
  }

  lemma StepKeeps(w: World, a: Action)
    requires Inv(w) && Enabled(w, a)
    ensures Inv(Next(w, a))
  {
    match a
    case Spawn(pid, p) => SpawnKeeps(w, pid, p);
    case Die(pid) => DieKeeps(w, pid);
    case Start(r, p) => StartKeeps(w, r, p);
    case Crash(r) => RetireKeeps(w, r, w.files);
    case RegisterBy(r, pid, kind) => RegisterKeeps(w, r, pid, kind);
    case UnregisterBy(r, pid) =>
      assert StateOk(w.owner, r, w.runners[r]);
      CommitKeeps(w, r, Unregister(r, ViewOf(w, r), pid), w.runners[r].phase);
    case KillOwn(r, i) =>
      assert StateOk(w.owner, r, w.runners[r]) && w.runners[r].entries[i] in w.runners[r].entries;
      KillKeeps(w, r, w.runners[r].entries[i], w.runners[r].phase);
    case BeginSweep(r, listing) =>
      assert StateOk(w.owner, r, w.runners[r]);
      PhaseKeeps(w, r, Checking(listing, []));
    case BeginClear(r, listing) =>
      assert StateOk(w.owner, r, w.runners[r]);
      PhaseKeeps(w, r, Clearing(listing));
    case BeginExit(r) =>
      assert StateOk(w.owner, r, w.runners[r]);
      CommitKeeps(w, r, ViewOf(w, r).(entries := []), Exiting(w.runners[r].entries));
    case Continue(r) => AdvanceKeeps(w, r);
  }

  lemma {:induction false} RunKeeps(w: World, actions: seq<Action>)
    requires Inv(w) && Possible(w, actions)
    ensures Inv(RunAll(w, actions))
    decreases |actions|
  {
    if actions != [] {
      StepKeeps(w, actions[0]);
      RunKeeps(Next(w, actions[0]), actions[1..]);
    }
  }

  // Over every run whatsoever, PIDs of processes and of runners reused at will: every
  // signal reached a process that the runner which started it had registered.
  lemma KillsOnlyRegistered(w: World, actions: seq<Action>)
    requires Boot(w) && Possible(w, actions)
    ensures OnlyRegistered(RunAll(w, actions))
  {
    RunKeeps(w, actions);
  }

  // ----- Children of live runners -----

  ghost predicate NoneLive(w: World, l: Entries) {
    forall c :: c in l && Id(c) in w.owner ==> !IsLive(w, w.owner[Id(c)])
  }

  predicate Spares(s: Signal) {
    s.parent == Some(s.sender) || !s.parentLive
  }

  // Each signal went to a child of the sender, or of a runner that was not alive.
  ghost predicate SparesOthers(w: World) {
    forall i :: 0 <= i < |w.signals| ==> Spares(w.signals[i])
  }

  // What sweeps have collected belongs to no live runner, and neither does the ledger
  // that one of them reads next.
  ghost predicate Settled(w: World, phase: Phase) {
    NoneLive(w, OrphansOf(phase)) && (phase.Reading? ==> phase.path !in w.runners)
  }

  ghost predicate Apart(w: World) {
    SparesOthers(w) && forall r :: r in w.runners ==> Settled(w, w.runners[r].phase)
  }

  // No more runners are alive, and owners are as they were.
  ghost predicate Quiet(w: World, w': World) {
    && (forall r :: r in w'.runners ==> r in w.runners && w'.runners[r].starttime == w.runners[r].starttime)
    && Grows(w.owner, w'.owner)
  }

  lemma SettledStays(w: World, w': World, phase: Phase)
    requires Quiet(w, w') && Settled(w, phase) && AllRegistered(w.owner, OrphansOf(phase))
    ensures Settled(w', phase)
  {
  }

  lemma OthersSettled(w: World, w': World, r: int)
    requires Inv(w) && Apart(w) && Quiet(w, w')
    requires forall s :: s in w'.runners && s != r ==> w'.runners[s].phase == w.runners[s].phase
    ensures forall s :: s in w'.runners && s != r ==> Settled(w', w'.runners[s].phase)
  {
    forall s | s in w'.runners && s != r ensures Settled(w', w'.runners[s].phase) {
      assert StateOk(w.owner, s, w.runners[s]);
      SettledStays(w, w', w.runners[s].phase);
    }
  }

  lemma StartApart(w: World, r: int, p: Process)
    requires Inv(w) && Apart(w) && Enabled(w, Start(r, p)) && !EntersWindow(w, Start(r, p))
    ensures Apart(Next(w, Start(r, p)))
  {
    var w' := Next(w, Start(r, p));
    forall s | s in w'.runners ensures Settled(w', w'.runners[s].phase) {
      if s != r {
        assert StateOk(w.owner, s, w.runners[s]) && Settled(w, w.runners[s].phase);
      }
    }
  }

  // One runner changes its phase; signals may be added.
  lemma StepApart(w: World, w': World, r: int)
    requires Inv(w) && Apart(w) && Quiet(w, w') && SparesOthers(w')
    requires forall s :: s in w'.runners && s != r ==> w'.runners[s].phase == w.runners[s].phase
    requires r in w'.runners ==> Settled(w', w'.runners[r].phase)
    ensures Apart(w')
  {
    OthersSettled(w, w', r);
  }

  lemma KillSpares(w: World, r: int, c: TrackedChild, phase: Phase)
    requires Inv(w) && Apart(w) && r in w.runners && Id(c) in w.owner
    requires w.owner[Id(c)] == Instance(w, r) || !IsLive(w, w.owner[Id(c)])
    ensures SparesOthers(Commit(w, r, Kill(r, ViewOf(w, r), c).0, phase))
  {
    var v := Kill(r, ViewOf(w, r), c).0;
    if Killable(r, w.procs, c) {
      assert v.signals == [Id(c)];
      assert Log(w, r, v.signals) == [Sent(w, r, Id(c))];
    } else {
      assert Log(w, r, v.signals) == [];
    }
  }

  lemma KillApart(w: World, r: int, c: TrackedChild, phase: Phase)
    requires Inv(w) && Apart(w) && r in w.runners && Id(c) in w.owner
    requires w.owner[Id(c)] == Instance(w, r) || !IsLive(w, w.owner[Id(c)])
    requires Settled(w, phase) && AllRegistered(w.owner, OrphansOf(phase))
    ensures Apart(Commit(w, r, Kill(r, ViewOf(w, r), c).0, phase))
  {
    var w' := Commit(w, r, Kill(r, ViewOf(w, r), c).0, phase);
    KillSpares(w, r, c, phase);
    SettledStays(w, w', phase);
    StepApart(w, w', r);
  }

  lemma PhaseApart(w: World, r: int, phase: Phase)
    requires Inv(w) && Apart(w) && r in w.runners && Settled(w, phase) && AllRegistered(w.owner, OrphansOf(phase))
    ensures Apart(SetPhase(w, r, phase))
  {
    SettledStays(w, SetPhase(w, r, phase), phase);
    StepApart(w, SetPhase(w, r, phase), r);
  }

  // The ledger under a PID that no runner holds belongs to no live runner.
  lemma ReadApart(w: World, r: int, p: int)
    requires Inv(w) && p in w.files && p !in w.runners
    ensures var l := Living(r, w.procs, w.files[p]); NoneLive(w, l) && AllRegistered(w.owner, l)
  {
    LivingIsRegistered(w.owner, r, w.procs, w.files[p], p);
  }

  lemma UnlinkApart(w: World, r: int, p: int, phase: Phase)
    requires Inv(w) && Apart(w) && r in w.runners && Settled(w, phase) && AllRegistered(w.owner, OrphansOf(phase))
    ensures Apart(SetPhase(Unlink(w, r, p), r, phase))
  {
    var w' := SetPhase(Unlink(w, r, p), r, phase);
    SettledStays(w, w', phase);
    StepApart(w, w', r);
  }

  lemma WalkApart(w: World, r: int)
    requires Inv(w) && Apart(w) && r in w.runners && Walks(w.runners[r].phase)
    ensures Apart(SetPhase(w, r, Walk(w, r)))
  {
    var phase := w.runners[r].phase;
    assert Settled(w, phase);
    if phase.Reading? && phase.path in w.files { ReadApart(w, r, phase.path); }
    WalkKeeps(w, r);
    PhaseApart(w, r, Walk(w, r));
  }

  lemma AdvanceApart(w: World, r: int)
    requires Inv(w) && Apart(w) && Enabled(w, Continue(r))
    ensures Apart(Advance(w, r))
  {
    var phase := w.runners[r].phase;
    assert StateOk(w.owner, r, w.runners[r]) && Settled(w, phase);
    if Walks(phase) {
      WalkApart(w, r);
    } else if phase.Pruning? {
      UnlinkApart(w, r, phase.path, Checking(phase.todo, phase.orphans));
    } else if phase.Killing? {
      assert phase.orphans[0] in phase.orphans;
      KillApart(w, r, phase.orphans[0], Killing(phase.orphans[1..]));
    } else if phase.Dropping? {
      UnlinkApart(w, r, phase.path, Clearing(phase.todo));
    } else if phase.leftovers == [] {
      StepApart(w, Advance(w, r), r);
    } else {
      assert phase.leftovers[0] in phase.leftovers;
      KillApart(w, r, phase.leftovers[0], Exiting(phase.leftovers[1..]));
    }
  }

  lemma RegisterApart(w: World, r: int, pid: int, kind: string)
    requires Inv(w) && Apart(w) && Enabled(w, RegisterBy(r, pid, kind))
    ensures Apart(Next(w, RegisterBy(r, pid, kind)))
  {
    var (v, c) := Register(r, ViewOf(w, r), pid, kind);
    var w' := Next(w, RegisterBy(r, pid, kind));
    if c.Some? { OwnerGrows(w, r, Id(c.value)); }
    assert StateOk(w.owner, r, w.runners[r]) && Settled(w, w.runners[r].phase);
    assert w'.signals == w.signals;
    SettledStays(w, w', w.runners[r].phase);
    StepApart(w, w', r);
  }

  lemma UnregisterApart(w: World, r: int, pid: int)
    requires Inv(w) && Apart(w) && Enabled(w, UnregisterBy(r, pid))
    ensures Apart(Next(w, UnregisterBy(r, pid)))
  {
    var w' := Next(w, UnregisterBy(r, pid));
    assert StateOk(w.owner, r, w.runners[r]) && Settled(w, w.runners[r].phase);
    assert w'.signals == w.signals;
    SettledStays(w, w', w.runners[r].phase);
    StepApart(w, w', r);
  }

  lemma ActionApart(w: World, a: Action)
    requires Inv(w) && Apart(w) && Enabled(w, a) && !EntersWindow(w, a)
    ensures Apart(Next(w, a))
  {
    match a
    case Spawn(pid, p) =>
    case Die(pid) =>
    case Start(r, p) => StartApart(w, r, p);
    case Crash(r) => StepApart(w, Next(w, a), r);
    case RegisterBy(r, pid, kind) => RegisterApart(w, r, pid, kind);
    case UnregisterBy(r, pid) => UnregisterApart(w, r, pid);
    case KillOwn(r, i) =>
      assert StateOk(w.owner, r, w.runners[r]) && w.runners[r].entries[i] in w.runners[r].entries;
      KillApart(w, r, w.runners[r].entries[i], w.runners[r].phase);
    case BeginSweep(r, listing) => PhaseApart(w, r, Checking(listing, []));
    case BeginClear(r, listing) => PhaseApart(w, r, Clearing(listing));
    case BeginExit(r) =>
      assert Next(w, a).signals == w.signals;
      StepApart(w, Next(w, a), r);
    case Continue(r) => AdvanceApart(w, r);
  }

  lemma {:induction false} RunApart(w: World, actions: seq<Action>)
    requires Inv(w) && Apart(w) && Possible(w, actions) && Careful(w, actions)
    ensures Apart(RunAll(w, actions))
    decreases |actions|
  {
    if actions != [] {
      StepKeeps(w, actions[0]);
      ActionApart(w, actions[0]);
      RunApart(Next(w, actions[0]), actions[1..]);
    }
  }

  // Over every run in which no runner starts inside the window of a sweep between
  // finding its PID dead and reading the ledger under it: no signal ever went to a
  // child of another live runner. Runner PIDs may be reused outside that window.
  lemma KillSafety(w: World, actions: seq<Action>)
    requires Boot(w) && Possible(w, actions) && Careful(w, actions)
    ensures OnlyRegistered(RunAll(w, actions)) && SparesOthers(RunAll(w, actions))
  {
    RunKeeps(w, actions);
    RunApart(w, actions);
  }
}
