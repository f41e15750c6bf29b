/**
 The PID ledger of the measurement runner: which children it may kill.

 The functions give each operation's effect on a runner's view of the machine. The
 class `Runner` runs the code's own steps and is proved against them.
 */
module Ledger {
  import opened Wrappers
  import opened Thinning

  // One process instance. A PID may be reused, a PID with its start time may not.
  datatype Identity = Identity(pid: int, starttime: int)

  datatype TrackedChild = TrackedChild(pid: int, starttime: int, kind: string, cmdline: string)

  // `parent` is the runner instance that started the process, if one did. A signal to a
  // `guarded` process fails.
  datatype Process = Process(starttime: int, cmdline: string, parent: Option<Identity>, guarded: bool)

  type Processes = map<int, Process>    // live processes by PID
  type Entries = seq<TrackedChild>      // a dictionary by PID, in insertion order
  type Files = map<int, Entries>        // ledger files by runner PID

  // What one runner sees and changes.
  datatype View = View(procs: Processes, files: Files, entries: Entries, signals: seq<Identity>)

  const MAX_CMDLINE := 500

  function Id(c: TrackedChild): Identity {
    Identity(c.pid, c.starttime)
  }

  // ----- The entries dictionary -----

  function IndexOfPid(l: Entries, pid: int): (i: nat)
    ensures i <= |l| && (i < |l| ==> l[i].pid == pid)
    ensures forall k :: 0 <= k < i ==> l[k].pid != pid
  {
    if l == [] || l[0].pid == pid then 0 else 1 + IndexOfPid(l[1..], pid)
  }

  function Put(l: Entries, c: TrackedChild): (r: Entries)
    ensures r != [] && c in r
    ensures forall e :: e in r ==> e == c || e in l
    ensures forall e :: e in l && e.pid != c.pid ==> e in r
  {
    var i := IndexOfPid(l, c.pid);
    if i < |l| then
      assert forall k :: 0 <= k < |l| && k != i ==> l[i := c][k] == l[k];
      assert l[i := c][i] == c;
      l[i := c]
    else l + [c]
  }

  function Pop(l: Entries, pid: int): (r: Entries)
    ensures forall e :: e in r <==> e in l && e.pid != pid
  {
    if l == [] then []
    else if l[0].pid == pid then Pop(l[1..], pid)
    else [l[0]] + Pop(l[1..], pid)
  }

  // ----- Process checks -----

  predicate PidAlive(procs: Processes, pid: int) {
    pid > 1 && pid in procs
  }

  predicate Runs(procs: Processes, id: Identity) {
    id.pid in procs && procs[id.pid].starttime == id.starttime
  }

  predicate Verify(self: int, procs: Processes, c: TrackedChild) {
    c.pid > 1 && c.pid != self && Runs(procs, Id(c))
  }

  // The process is the one recorded, and a signal to it succeeds.
  predicate Killable(self: int, procs: Processes, c: TrackedChild) {
    Verify(self, procs, c) && !procs[c.pid].guarded
  }

  // ----- Register, unregister, kill -----

  function Truncated(s: string): string {
    if |s| <= MAX_CMDLINE then s else s[..MAX_CMDLINE]
  }

  function Register(self: int, v: View, pid: int, kind: string): (r: (View, Option<TrackedChild>)) {
    if pid <= 1 || pid == self || pid !in v.procs then (v, None)
    else
      var c := TrackedChild(pid, v.procs[pid].starttime, kind, Truncated(v.procs[pid].cmdline));
      var entries := Put(v.entries, c);
      (v.(entries := entries, files := v.files[self := entries]), Some(c))
  }

  // The ledger file is absent when there is nothing to record.
  function Save(files: Files, self: int, entries: Entries): Files {
    if entries != [] then files[self := entries] else files - {self}
  }

  function Unregister(self: int, v: View, pid: int): View {
    var entries := Pop(v.entries, pid);
    v.(entries := entries, files := Save(v.files, self, entries))
  }

  function Kill(self: int, v: View, c: TrackedChild): (View, bool) {
    if Killable(self, v.procs, c) then
      (Unregister(self, v.(procs := v.procs - {c.pid}, signals := v.signals + [Id(c)]), c.pid), true)
    else
      (Unregister(self, v, c.pid), false)
  }

  function KillEach(self: int, v: View, cs: Entries): (View, nat)
    decreases |cs|
  {
    if cs == [] then (v, 0)
    else
      var (next, hit) := Kill(self, v, cs[0]);
      var (last, n) := KillEach(self, next, cs[1..]);
      (last, (if hit then 1 else 0) + n)
  }

  function Exit(self: int, v: View): View {
    var last := KillEach(self, v.(entries := []), v.entries).0;
    last.(files := last.files - {self})
  }

  // ----- Sweeping the ledgers of dead runners -----

  // Reading a ledger file back: an empty kind becomes "unknown".
  function Load(l: Entries): (r: Entries)
    ensures |r| == |l| && forall i :: 0 <= i < |l| ==> Id(r[i]) == Id(l[i])
  {
    seq(|l|, i requires 0 <= i < |l| => l[i].(kind := if l[i].kind == "" then "unknown" else l[i].kind))
  }

  function Verified(self: int, procs: Processes, l: Entries): (r: Entries)
    ensures forall c :: c in r <==> c in l && Verify(self, procs, c)
  {
    if l == [] then []
    else if Verify(self, procs, l[0]) then [l[0]] + Verified(self, procs, l[1..])
    else Verified(self, procs, l[1..])
  }

  function Living(self: int, procs: Processes, file: Entries): Entries {
    Verified(self, procs, Load(file))
  }

  predicate Abandoned(self: int, procs: Processes, runner: int) {
    runner != self && !PidAlive(procs, runner)
  }

  function PruneOne(self: int, procs: Processes, files: Files, p: int): Files {
    if p in files && !PidAlive(procs, p) && Living(self, procs, files[p]) == [] then files - {p} else files
  }

  // The orphans found by walking the listed ledger files, and the files left.
  function Sweep(self: int, procs: Processes, files: Files, listing: seq<int>): (r: (Entries, Files))
    decreases |listing|
  {
    if listing == [] then ([], files)
    else
      var p := listing[0];
      if p !in files || !Abandoned(self, procs, p) then Sweep(self, procs, files, listing[1..])
      else
        var (orphans, left) := Sweep(self, procs, PruneOne(self, procs, files, p), listing[1..]);
        (Living(self, procs, files[p]) + orphans, left)
  }

  function Prune(self: int, procs: Processes, files: Files, listing: seq<int>): Files
    decreases |listing|
  {
    if listing == [] then files
    else Prune(self, procs, PruneOne(self, procs, files, listing[0]), listing[1..])
  }

  function KillOrphans(self: int, v: View, orphans: Entries, listing: seq<int>): (View, nat) {
    var (last, n) := KillEach(self, v, orphans);
    (last.(files := Prune(self, last.procs, last.files, listing)), n)
  }

  // A walk has collected `done.0` and left `done.1`; `rest` is what follows from there.
  ghost predicate FindsOn(done: (Entries, Files), rest: (Entries, Files), whole: (Entries, Files)) {
    whole == (done.0 + rest.0, rest.1)
  }

  ghost predicate KillsOn(killed: nat, rest: (View, nat), whole: (View, nat)) {
    whole == (rest.0, killed + rest.1)
  }

  // ----- The runner's own code -----

  class Machine {
    var procs: Processes
    var files: Files
    var signals: seq<Identity>
  }

  class Runner {
    const pid: int
    const os: Machine
    var entries: Entries

    constructor (pid: int, os: Machine)
      ensures this.pid == pid && this.os == os && entries == []
    {
      this.pid := pid;
      this.os := os;
      this.entries := [];
    }

    function Abs(): View
      reads this, os
    {
      View(os.procs, os.files, entries, os.signals)
    }

    method RegisterChild(child: int, kind: string) returns (r: Option<TrackedChild>)
      modifies this`entries, os`files
      ensures (Abs(), r) == Register(pid, old(Abs()), child, kind)
    {
      if child <= 1 || child == pid { return None; }
      if child !in os.procs { return None; }
      var p := os.procs[child];
      var c := TrackedChild(child, p.starttime, kind, Truncated(p.cmdline));
      entries := Put(entries, c);
      os.files := os.files[pid := entries];
      return Some(c);
    }

    method UnregisterChild(child: int)
      modifies this`entries, os`files
      ensures Abs() == Unregister(pid, old(Abs()), child)
    {
      entries := Pop(entries, child);
      if entries != [] {
        os.files := os.files[pid := entries];
      } else {
        os.files := os.files - {pid};
      }
    }

    method KillTracked(c: TrackedChild) returns (signalled: bool)
      modifies this`entries, os
      ensures (Abs(), signalled) == Kill(pid, old(Abs()), c)
    {
      if !Verify(pid, os.procs, c) {
        UnregisterChild(c.pid);
        return false;
      }
      if os.procs[c.pid].guarded {
        UnregisterChild(c.pid);
        return false;
      }
      os.signals := os.signals + [Id(c)];
      os.procs := os.procs - {c.pid};
      UnregisterChild(c.pid);
      return true;
    }

    method KillAllOf(cs: Entries) returns (killed: nat)
      modifies this`entries, os
      ensures (Abs(), killed) == KillEach(pid, old(Abs()), cs)
    {
      killed := 0;
      ghost var whole := KillEach(pid, Abs(), cs);
      assert cs[0..] == cs;
      for i := 0 to |cs|
        invariant KillsOn(killed, KillEach(pid, Abs(), cs[i..]), whole)
      {
        assert cs[i..][0] == cs[i] && cs[i..][1..] == cs[i + 1..];
        var hit := KillTracked(cs[i]);
        if hit { killed := killed + 1; }
      }
    }

    method AtexitCleanup()
      modifies this`entries, os
      ensures Abs() == Exit(pid, old(Abs()))
    {
      var leftovers := entries;
      entries := [];
      var _ := KillAllOf(leftovers);
      os.files := os.files - {pid};
    }

    // Children recorded by dead runners that still run. `listing` is the directory listing.
    method FindOrphanedTracked(listing: seq<int>) returns (orphans: Entries)
      modifies os`files
      ensures (orphans, os.files) == Sweep(pid, os.procs, old(os.files), listing)
    {
      orphans := [];
      ghost var whole := Sweep(pid, os.procs, os.files, listing);
      assert listing[0..] == listing && [] + whole.0 == whole.0;
      for i := 0 to |listing|
        invariant FindsOn((orphans, os.files), Sweep(pid, os.procs, os.files, listing[i..]), whole)
      {
        var p := listing[i];
        assert listing[i..][0] == p && listing[i..][1..] == listing[i + 1..];
        if p !in os.files || p == pid || PidAlive(os.procs, p) { continue; }
        var found := VerifiedOf(Load(os.files[p]));
        assert forall more :: orphans + (found + more) == (orphans + found) + more;
        orphans := orphans + found;
        var living := VerifiedOf(Load(os.files[p]));
        if living == [] {
          os.files := os.files - {p};
        }
      }
      assert orphans + [] == orphans;
    }

    method VerifiedOf(l: Entries) returns (r: Entries)
      ensures r == Verified(pid, os.procs, l)
    {
      r := [];
      for i := 0 to |l|
        invariant Verified(pid, os.procs, l) == r + Verified(pid, os.procs, l[i..])
      {
        assert l[i..][0] == l[i] && l[i..][1..] == l[i + 1..];
        if Verify(pid, os.procs, l[i]) { r := r + [l[i]]; }
      }
    }

    method KillOrphanedTracked(orphans: Entries, listing: seq<int>) returns (killed: nat)
      modifies this`entries, os
      ensures (Abs(), killed) == KillOrphans(pid, old(Abs()), orphans, listing)
    {
      killed := KillAllOf(orphans);
      ghost var after := Abs();
      for i := 0 to |listing|
        invariant Abs() == after.(files := os.files)
        invariant Prune(pid, after.procs, os.files, listing[i..]) == Prune(pid, after.procs, after.files, listing)
      {
        var p := listing[i];
        assert listing[i..][0] == p && listing[i..][1..] == listing[i + 1..];
        if p !in os.files || PidAlive(os.procs, p) { continue; }
        var living := VerifiedOf(Load(os.files[p]));
        if living == [] {
          os.files := os.files - {p};
        }
      }
    }
  }

  // ----- What registering records -----

  // The entry takes the place of the first one with its PID, or goes to the end.
  ghost predicate Entered(l: Entries, c: TrackedChild, r: Entries) {
    && ((forall k :: 0 <= k < |l| ==> l[k].pid != c.pid) ==> r == l + [c])
    && forall i :: 0 <= i < |l| && l[i].pid == c.pid && (forall k :: 0 <= k < i ==> l[k].pid != c.pid) ==>
         r == l[i := c]
  }

  // What is kept of a command line.
  predicate Shortened(kept: string, cmdline: string) {
    kept <= cmdline && (if |cmdline| <= 500 then kept == cmdline else |kept| == 500)
  }

  // A live process that is neither `init` nor the runner is recorded as it is found, in
  // memory and on disk; nothing else is, and nothing else changes.
  lemma RegisterRecords(self: int, v: View, pid: int, kind: string)
    ensures var (last, c) := Register(self, v, pid, kind);
            && (c.None? <==> pid <= 1 || pid == self || pid !in v.procs)
            && (c.None? ==> last == v)
            && (c.Some? ==>
                  && Id(c.value) == Identity(pid, v.procs[pid].starttime) && c.value.kind == kind
                  && Shortened(c.value.cmdline, v.procs[pid].cmdline)
                  && Entered(v.entries, c.value, last.entries)
                  && last.files == v.files[self := last.entries]
                  && last.procs == v.procs && last.signals == v.signals)
  {
  }

  // The entries with the PID are gone, in memory and on disk; an empty ledger has no file.
  lemma UnregisterForgets(self: int, v: View, pid: int)
    ensures var last := Unregister(self, v, pid);
            && Thinned(v.entries, (c: TrackedChild) => c.pid == pid, last.entries)
            && (self in last.files <==> last.entries != [])
            && (self in last.files ==> last.files[self] == last.entries)
            && last.files - {self} == v.files - {self}
            && last.procs == v.procs && last.signals == v.signals
  {
    PopThins(v.entries, pid);
    SaveKeeps(v.files, self, Pop(v.entries, pid));
  }

  lemma SaveKeeps(files: Files, self: int, entries: Entries)
    ensures var saved := Save(files, self, entries);
            && (self in saved <==> entries != []) && (self in saved ==> saved[self] == entries)
            && saved - {self} == files - {self}
  {
  }

  lemma PopThins(l: Entries, pid: int)
    ensures Thinned(l, (c: TrackedChild) => c.pid == pid, Pop(l, pid))
  {
    PopIsKept(l, pid);
    KeptIsThinned(l, (c: TrackedChild) => c.pid == pid);
  }

  lemma {:induction false} PopIsKept(l: Entries, pid: int)
    ensures Pop(l, pid) == Kept(l, (c: TrackedChild) => c.pid == pid)
  {
    if l != [] { PopIsKept(l[1..], pid); }
  }

  // ----- What a sweep finds -----

  // A dead runner's ledger without living children.
  predicate Spent(self: int, procs: Processes, files: Files, p: int)
    requires p in files
  {
    !PidAlive(procs, p) && Living(self, procs, files[p]) == []
  }

  lemma {:induction false} SweepFinds(self: int, procs: Processes, files: Files, listing: seq<int>, c: TrackedChild)
    requires forall i, j :: 0 <= i < j < |listing| ==> listing[i] != listing[j]
    ensures c in Sweep(self, procs, files, listing).0 <==>
            exists p :: p in listing && p in files && Abandoned(self, procs, p) && c in Living(self, procs, files[p])
    decreases |listing|
  {
    if listing != [] {
      var p, rest := listing[0], listing[1..];
      assert forall q :: q in listing <==> q == p || q in rest;
      assert p !in rest;
      var files' := if p !in files || !Abandoned(self, procs, p) then files else PruneOne(self, procs, files, p);
      SweepFinds(self, procs, files', rest, c);
      assert forall q :: q in rest ==> (q in files' <==> q in files) && (q in files ==> files'[q] == files[q]);
    }
  }

  // The living children of the listed ledgers of dead runners, ledger by ledger.
  function Collected(self: int, procs: Processes, files: Files, listing: seq<int>): Entries {
    if listing == [] then []
    else
      var p := listing[0];
      (if p in files && Abandoned(self, procs, p) then Living(self, procs, files[p]) else [])
      + Collected(self, procs, files, listing[1..])
  }

  // Each orphan is returned once for every entry that records it, in the order of the
  // listing and of the ledgers, whatever is unlinked on the way.
  lemma {:induction false} SweepCollects(self: int, procs: Processes, files: Files, now: Files, listing: seq<int>)
    requires forall i, j :: 0 <= i < j < |listing| ==> listing[i] != listing[j]
    requires forall p :: p in listing ==> (p in now <==> p in files) && (p in files ==> now[p] == files[p])
    ensures Sweep(self, procs, now, listing).0 == Collected(self, procs, files, listing)
    decreases |listing|
  {
    if listing != [] {
      var p, rest := listing[0], listing[1..];
      assert p in listing && p !in rest && forall q :: q in rest ==> q in listing;
      var next := if p !in now || !Abandoned(self, procs, p) then now else PruneOne(self, procs, now, p);
      SweepCollects(self, procs, files, next, rest);
    }
  }

  // The living children of a ledger stand in its order, each as often as it is recorded.
  lemma LivingIs(self: int, procs: Processes, file: Entries)
    ensures Thinned(Load(file), (c: TrackedChild) => !Verify(self, procs, c), Living(self, procs, file))
  {
    VerifiedIsKept(self, procs, Load(file));
    KeptIsThinned(Load(file), (c: TrackedChild) => !Verify(self, procs, c));
  }

  lemma {:induction false} VerifiedIsKept(self: int, procs: Processes, l: Entries)
    ensures Verified(self, procs, l) == Kept(l, (c: TrackedChild) => !Verify(self, procs, c))
  {
    if l != [] { VerifiedIsKept(self, procs, l[1..]); }
  }

  // A ledger is read back as it was saved, but for kinds that are empty.
  lemma LoadReturns(l: Entries)
    ensures |Load(l)| == |l|
    ensures forall i :: 0 <= i < |l| && l[i].kind != "" ==> Load(l)[i] == l[i]
    ensures forall i :: 0 <= i < |l| && l[i].kind == "" ==> Load(l)[i] == l[i].(kind := "unknown")
  {
  }

  // A sweep deletes a ledger file exactly when it is listed, its runner is dead, and
  // none of its children live.
  lemma {:induction false} SweepKeeps(self: int, procs: Processes, files: Files, listing: seq<int>, p: int)
    ensures var left := Sweep(self, procs, files, listing).1;
            && (p in left <==> p in files && !(p in listing && p != self && Spent(self, procs, files, p)))
            && (p in left ==> left[p] == files[p])
    decreases |listing|
  {
    if listing != [] {
      var q, rest := listing[0], listing[1..];
      assert forall x :: x in listing <==> x == q || x in rest;
      var files' := if q !in files || !Abandoned(self, procs, q) then files else PruneOne(self, procs, files, q);
      SweepKeeps(self, procs, files', rest, p);
    }
  }

  lemma {:induction false} PruneKeeps(self: int, procs: Processes, files: Files, listing: seq<int>, p: int)
    ensures var left := Prune(self, procs, files, listing);
            && (p in left <==> p in files && !(p in listing && Spent(self, procs, files, p)))
            && (p in left ==> left[p] == files[p])
    decreases |listing|
  {
    if listing != [] {
      var q, rest := listing[0], listing[1..];
      assert forall x :: x in listing <==> x == q || x in rest;
      PruneKeeps(self, procs, PruneOne(self, procs, files, q), rest, p);
    }
  }

  // ----- What killing does -----

  predicate Targets(self: int, procs: Processes, cs: Entries, id: Identity) {
    exists c :: c in cs && Id(c) == id && Killable(self, procs, c)
  }

  // Exactly the targets that can be killed are gone; nothing else on the machine changes.
  lemma {:induction false} KillEachEffect(self: int, v: View, cs: Entries, pid: int)
    ensures var last := KillEach(self, v, cs).0;
            pid in last.procs <==> pid in v.procs && !Targets(self, v.procs, cs, Identity(pid, v.procs[pid].starttime))
    ensures var last := KillEach(self, v, cs).0;
            pid in last.procs ==> last.procs[pid] == v.procs[pid]
    ensures var last := KillEach(self, v, cs).0;
            pid != self ==>
              (pid in last.files <==> pid in v.files) && (pid in v.files ==> last.files[pid] == v.files[pid])
    decreases |cs|
  {
    if cs != [] {
      var next := Kill(self, v, cs[0]).0;
      assert forall c :: c in cs <==> c == cs[0] || c in cs[1..];
      KillEachEffect(self, next, cs[1..], pid);
      if pid in v.procs {
        var id := Identity(pid, v.procs[pid].starttime);
        assert Targets(self, v.procs, cs, id) <==>
               (Id(cs[0]) == id && Killable(self, v.procs, cs[0])) || Targets(self, v.procs, cs[1..], id);
        if pid in next.procs {
          assert Targets(self, next.procs, cs[1..], id) <==> Targets(self, v.procs, cs[1..], id);
        }
      }
    }
  }

  // ----- Find, then kill -----

  function SweepAndKill(self: int, v: View, listing: seq<int>, again: seq<int>): View {
    var (orphans, left) := Sweep(self, v.procs, v.files, listing);
    KillOrphans(self, v.(files := left), orphans, again).0
  }

  // The listing names every ledger file, once.
  ghost predicate Lists(listing: seq<int>, files: Files) {
    && (forall i, j :: 0 <= i < j < |listing| ==> listing[i] != listing[j])
    && (forall p :: p in files ==> p in listing)
  }

  // A dead runner recorded this process.
  ghost predicate RecordedBy(file: Entries, id: Identity) {
    exists i :: 0 <= i < |file| && Id(file[i]) == id
  }

  ghost predicate Orphan(self: int, v: View, id: Identity) {
    && id.pid > 1 && id.pid != self
    && exists p :: p in v.files && p != self && (p <= 1 || p !in v.procs) && RecordedBy(v.files[p], id)
  }

  lemma LivingIffRecorded(self: int, procs: Processes, file: Entries, id: Identity)
    requires Runs(procs, id)
    ensures (exists c :: c in Living(self, procs, file) && Id(c) == id)
            <==> id.pid > 1 && id.pid != self && RecordedBy(file, id)
  {
    if id.pid > 1 && id.pid != self && RecordedBy(file, id) {
      var i :| 0 <= i < |file| && Id(file[i]) == id;
      assert Load(file)[i] in Living(self, procs, file);
    }
    if c :| c in Living(self, procs, file) && Id(c) == id {
      var i :| 0 <= i < |Load(file)| && Load(file)[i] == c;
      assert Id(file[i]) == id;
    }
  }

  lemma TargetsAreOrphans(self: int, v: View, listing: seq<int>, id: Identity)
    requires Lists(listing, v.files) && Runs(v.procs, id)
    ensures Targets(self, v.procs, Sweep(self, v.procs, v.files, listing).0, id)
            <==> Orphan(self, v, id) && !v.procs[id.pid].guarded
  {
    var orphans := Sweep(self, v.procs, v.files, listing).0;
    if Targets(self, v.procs, orphans, id) {
      var c :| c in orphans && Id(c) == id && Killable(self, v.procs, c);
      SweepFinds(self, v.procs, v.files, listing, c);
      var p :| p in listing && p in v.files && Abandoned(self, v.procs, p) && c in Living(self, v.procs, v.files[p]);
      LivingIffRecorded(self, v.procs, v.files[p], id);
    }
    if Orphan(self, v, id) && !v.procs[id.pid].guarded {
      var p :| p in v.files && p != self && (p <= 1 || p !in v.procs) && RecordedBy(v.files[p], id);
      LivingIffRecorded(self, v.procs, v.files[p], id);
      var c :| c in Living(self, v.procs, v.files[p]) && Id(c) == id;
      SweepFinds(self, v.procs, v.files, listing, c);
    }
  }

  predicate Guarded(procs: Processes, pid: int) {
    pid in procs && procs[pid].guarded
  }

  // After a sweep that nothing interrupts, exactly the orphans that can be killed are gone.
  lemma SweepKillsOrphans(self: int, v: View, listing: seq<int>, again: seq<int>, pid: int)
    requires Lists(listing, v.files)
    ensures var last := SweepAndKill(self, v, listing, again);
            && (pid in last.procs <==>
                pid in v.procs && (Guarded(v.procs, pid) || !Orphan(self, v, Identity(pid, v.procs[pid].starttime))))
            && (pid in last.procs ==> last.procs[pid] == v.procs[pid])
  {
    var (orphans, left) := Sweep(self, v.procs, v.files, listing);
    KillEachEffect(self, v.(files := left), orphans, pid);
    if pid in v.procs {
      TargetsAreOrphans(self, v, listing, Identity(pid, v.procs[pid].starttime));
    }
  }

  lemma NoneLiving(self: int, procs: Processes, file: Entries)
    requires forall i :: 0 <= i < |file| && file[i].pid > 1 && file[i].pid != self ==> !Runs(procs, Id(file[i]))
    ensures Living(self, procs, file) == []
  {
    forall k | 0 <= k < |Load(file)| ensures !Verify(self, procs, Load(file)[k]) {
      assert Id(Load(file)[k]) == Id(file[k]);
    }
    NoneVerified(self, procs, Load(file));
  }

  lemma {:induction false} NoneVerified(self: int, procs: Processes, l: Entries)
    requires forall k :: 0 <= k < |l| ==> !Verify(self, procs, l[k])
    ensures Verified(self, procs, l) == []
  {
    if l != [] { NoneVerified(self, procs, l[1..]); }
  }

  // A guarded process that a ledger of somebody else records and that runs.
  ghost predicate Holdout(self: int, procs: Processes, file: Entries) {
    exists i :: 0 <= i < |file| && Verify(self, procs, file[i]) && Guarded(procs, file[i].pid)
  }

  lemma HoldoutLives(self: int, procs: Processes, file: Entries)
    requires Holdout(self, procs, file)
    ensures Living(self, procs, file) != []
  {
    var i :| 0 <= i < |file| && Verify(self, procs, file[i]) && Guarded(procs, file[i].pid);
    assert Load(file)[i] in Living(self, procs, file);
  }

  // And exactly the ledgers of runners that are dead and not our own are gone with them,
  // unless a child in one cannot be killed; the ledgers of live runners are as they were.
  lemma SweepClearsLedgers(self: int, v: View, listing: seq<int>, again: seq<int>, p: int)
    requires Lists(listing, v.files) && p in v.files && p != self && p in again
    ensures var last := SweepAndKill(self, v, listing, again);
            && (!PidAlive(v.procs, p) ==> (p in last.files <==> Holdout(self, v.procs, v.files[p])))
            && (PidAlive(last.procs, p) ==> p in last.files)
            && (p in last.files ==> last.files[p] == v.files[p])
  {
    var (orphans, left) := Sweep(self, v.procs, v.files, listing);
    var mid := KillEach(self, v.(files := left), orphans).0;
    SweepKeeps(self, v.procs, v.files, listing, p);
    KillEachEffect(self, v.(files := left), orphans, p);
    PruneKeeps(self, mid.procs, mid.files, again, p);
    if !PidAlive(v.procs, p) {
      if Holdout(self, v.procs, v.files[p]) { HoldoutLives(self, v.procs, v.files[p]); }
      DeadLedgerLeft(self, v, listing, again, p);
      assert mid.procs == SweepAndKill(self, v, listing, again).procs;
    }
  }

  // What still runs of a dead runner's ledger after the kills.
  lemma DeadLedgerLeft(self: int, v: View, listing: seq<int>, again: seq<int>, p: int)
    requires Lists(listing, v.files) && p in v.files && p != self && !PidAlive(v.procs, p)
    ensures var last := SweepAndKill(self, v, listing, again);
            Living(self, last.procs, v.files[p]) == [] <==> !Holdout(self, v.procs, v.files[p])
  {
    var last, file := SweepAndKill(self, v, listing, again), v.files[p];
    forall i | 0 <= i < |file|
      ensures Verify(self, last.procs, file[i]) <==> Verify(self, v.procs, file[i]) && Guarded(v.procs, file[i].pid)
      ensures file[i].pid in last.procs ==> file[i].pid in v.procs && last.procs[file[i].pid] == v.procs[file[i].pid]
    {
      SweepKillsOrphans(self, v, listing, again, file[i].pid);
      assert RecordedBy(file, Id(file[i]));
    }
    if Holdout(self, v.procs, file) {
      var i :| 0 <= i < |file| && Verify(self, v.procs, file[i]) && Guarded(v.procs, file[i].pid);
      assert Verify(self, last.procs, file[i]) && Guarded(last.procs, file[i].pid);
      HoldoutLives(self, last.procs, file);
    } else {
      NoneLiving(self, last.procs, file);
    }
  }
}
