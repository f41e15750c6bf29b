/**
 What a list of kills and the exit handler do, said without running them, and the exit
 handler as a run of steps.
 */
module LedgerExit {
  import opened Ledger
  import opened LedgerRuns

  // ----- The signals of a list of kills -----

  function FirstWith(cs: Entries, id: Identity): (i: nat)
    ensures i <= |cs| && (i < |cs| ==> Id(cs[i]) == id)
    ensures forall k :: 0 <= k < i ==> Id(cs[k]) != id
  {
    if cs == [] || Id(cs[0]) == id then 0 else 1 + FirstWith(cs[1..], id)
  }

  // Each target once, in the order in which the list names them, and nothing else.
  ghost predicate TargetsInOrder(self: int, procs: Processes, cs: Entries, sent: seq<Identity>) {
    && (forall id :: id in sent <==> Targets(self, procs, cs, id))
    && (forall i, j :: 0 <= i < j < |sent| ==> FirstWith(cs, sent[i]) < FirstWith(cs, sent[j]))
  }

  lemma TargetsTail(self: int, procs: Processes, cs: Entries, procs': Processes, id: Identity)
    requires cs != [] && procs' == (if Killable(self, procs, cs[0]) then procs - {cs[0].pid} else procs)
    ensures Targets(self, procs, cs, id) <==>
            (Killable(self, procs, cs[0]) && id == Id(cs[0])) || Targets(self, procs', cs[1..], id)
    ensures Killable(self, procs, cs[0]) ==> !Targets(self, procs', cs[1..], Id(cs[0]))
  {
    if Targets(self, procs, cs, id) {
      var c :| c in cs && Id(c) == id && Killable(self, procs, c);
      if c != cs[0] {
        assert c in cs[1..];
        if Killable(self, procs, cs[0]) && c.pid == cs[0].pid { assert Id(c) == Id(cs[0]); }
      }
    }
    if Targets(self, procs', cs[1..], id) {
      var c :| c in cs[1..] && Id(c) == id && Killable(self, procs', c);
      assert c in cs;
    }
  }

  lemma OrderTail(self: int, procs: Processes, cs: Entries, procs': Processes, rest: seq<Identity>)
    requires cs != [] && procs' == (if Killable(self, procs, cs[0]) then procs - {cs[0].pid} else procs)
    requires TargetsInOrder(self, procs', cs[1..], rest)
    ensures TargetsInOrder(self, procs, cs, (if Killable(self, procs, cs[0]) then [Id(cs[0])] else []) + rest)
  {
    var hit := Killable(self, procs, cs[0]);
    var sent := (if hit then [Id(cs[0])] else []) + rest;
    forall id ensures id in sent <==> Targets(self, procs, cs, id) { TargetsTail(self, procs, cs, procs', id); }
    forall k | 0 <= k < |rest| ensures FirstWith(cs, rest[k]) == 1 + FirstWith(cs[1..], rest[k]) {
      assert rest[k] in rest;
      TargetsTail(self, procs, cs, procs', rest[k]);
      if rest[k] == Id(cs[0]) { HeadWasKillable(self, procs, cs, procs'); }
    }
    forall i, j | 0 <= i < j < |sent| ensures FirstWith(cs, sent[i]) < FirstWith(cs, sent[j]) {
      if hit && i > 0 {
        assert sent[i] == rest[i - 1] && sent[j] == rest[j - 1];
      } else if hit {
        assert sent[j] == rest[j - 1];
      }
    }
  }

  // A process that is still a target of the rest could have been killed by the head.
  lemma HeadWasKillable(self: int, procs: Processes, cs: Entries, procs': Processes)
    requires cs != [] && procs' == (if Killable(self, procs, cs[0]) then procs - {cs[0].pid} else procs)
    ensures !Targets(self, procs', cs[1..], Id(cs[0]))
  {
  }

  // Killing a list signals exactly the targets, each once and in order; the number
  // returned is the number of signals.
  lemma {:induction false} KillEachSignals(self: int, v: View, cs: Entries)
    ensures var (last, n) := KillEach(self, v, cs);
            && |last.signals| == |v.signals| + n && last.signals[..|v.signals|] == v.signals
            && TargetsInOrder(self, v.procs, cs, last.signals[|v.signals|..])
    decreases |cs|
  {
    if cs == [] {
      assert forall id :: !Targets(self, v.procs, cs, id);
    } else {
      var (next, hit) := Kill(self, v, cs[0]);
      var (last, n) := KillEach(self, next, cs[1..]);
      KillEachSignals(self, next, cs[1..]);
      var rest := last.signals[|next.signals|..];
      OrderTail(self, v.procs, cs, next.procs, rest);
      SignalsSplit(v.signals, next.signals, last.signals, Id(cs[0]), hit);
    }
  }

  // The same holds of the kills after a sweep.
  lemma OrphansSignals(self: int, v: View, orphans: Entries, listing: seq<int>)
    ensures var (last, n) := KillOrphans(self, v, orphans, listing);
            && |last.signals| == |v.signals| + n && last.signals[..|v.signals|] == v.signals
            && TargetsInOrder(self, v.procs, orphans, last.signals[|v.signals|..])
  {
    KillEachSignals(self, v, orphans);
  }

  lemma SignalsSplit(a: seq<Identity>, b: seq<Identity>, c: seq<Identity>, id: Identity, hit: bool)
    requires b == a + (if hit then [id] else []) && |b| <= |c| && c[..|b|] == b
    ensures c[..|a|] == a && c[|a|..] == (if hit then [id] else []) + c[|b|..]
  {
    assert c == b + c[|b|..];
  }

  // The entries left are those whose PID the list does not name.
  lemma {:induction false} KillEachEntries(self: int, v: View, cs: Entries, e: TrackedChild)
    ensures e in KillEach(self, v, cs).0.entries <==>
            e in v.entries && forall c :: c in cs ==> c.pid != e.pid
    decreases |cs|
  {
    if cs != [] {
      var next := Kill(self, v, cs[0]).0;
      KillEachEntries(self, next, cs[1..], e);
      assert forall c :: c in cs <==> c == cs[0] || c in cs[1..];
    }
  }

  lemma {:induction false} KillEachForgets(self: int, v: View, cs: Entries)
    requires v.entries == []
    ensures KillEach(self, v, cs).0.entries == []
    decreases |cs|
  {
    if cs != [] { KillEachForgets(self, Kill(self, v, cs[0]).0, cs[1..]); }
  }

  // ----- The exit handler -----

  // Exactly the recorded children that still run and can be killed are gone, each
  // signalled once; the memory and the own ledger are empty, and nothing else changes.
  lemma ExitEffect(self: int, v: View, pid: int)
    ensures var last := Exit(self, v);
            && (pid in last.procs <==>
                pid in v.procs && !Targets(self, v.procs, v.entries, Identity(pid, v.procs[pid].starttime)))
            && (pid in last.procs ==> last.procs[pid] == v.procs[pid])
            && last.entries == [] && self !in last.files
            && (pid != self ==>
                  (pid in last.files <==> pid in v.files) && (pid in v.files ==> last.files[pid] == v.files[pid]))
            && |v.signals| <= |last.signals| && last.signals[..|v.signals|] == v.signals
            && TargetsInOrder(self, v.procs, v.entries, last.signals[|v.signals|..])
  {
    var start := v.(entries := []);
    KillEachEffect(self, start, v.entries, pid);
    KillEachSignals(self, start, v.entries);
    KillEachForgets(self, start, v.entries);
  }

  // ----- The exit handler as a run -----

  function Continues(r: int, n: nat): seq<Action> {
    if n == 0 then [] else [Continue(r)] + Continues(r, n - 1)
  }

  // Runner `r` has ended in world `last`, after what `v` says of the machine.
  ghost predicate Ended(w: World, r: int, v: View, last: World) {
    && last.procs == v.procs - {r} && last.files == v.files - {r}
    && last.runners == w.runners - {r} && last.lost == w.lost[r := []]
    && Signalled(w.signals, v.signals, last.signals)
  }

  ghost predicate Signalled(before: seq<Signal>, sent: seq<Identity>, after: seq<Signal>) {
    && |after| == |before| + |sent| && after[..|before|] == before
    && forall i :: 0 <= i < |sent| ==> after[|before| + i].target == sent[i]
  }

  lemma SignalledThen(a: seq<Signal>, first: seq<Identity>, b: seq<Signal>, second: seq<Identity>, c: seq<Signal>)
    requires Signalled(a, first, b) && Signalled(b, second, c)
    ensures Signalled(a, first + second, c)
  {
    forall i | 0 <= i < |first + second| ensures c[|a| + i].target == (first + second)[i] {
      if i < |first| {
        assert c[|a| + i] == b[|a| + i];
      } else {
        assert c[|b| + (i - |first|)].target == second[i - |first|];
      }
    }
    assert c[..|a|] == b[..|a|];
  }

  lemma EndedAfter(w: World, r: int, first: View, phase: Phase, rest: View, last: World)
    requires r in w.runners && Ended(Commit(w, r, first, phase), r, rest, last)
    ensures Ended(w, r, rest.(signals := first.signals + rest.signals), last)
  {
    var next := Commit(w, r, first, phase);
    assert next.runners - {r} == w.runners - {r};
    SignalledThen(w.signals, first.signals, next.signals, rest.signals, last.signals);
  }

  lemma LastStep(w: World, r: int)
    requires r in w.runners && w.runners[r].phase == Exiting([])
    ensures Ended(w, r, ViewOf(w, r), Next(w, Continue(r)))
  {
  }

  lemma KillStep(w: World, r: int, leftovers: Entries)
    requires r in w.runners && w.runners[r].phase == Exiting(leftovers) && leftovers != []
    ensures var first, next := Kill(r, ViewOf(w, r), leftovers[0]).0, Next(w, Continue(r));
            && next == Commit(w, r, first, Exiting(leftovers[1..]))
            && r in next.runners && next.runners[r].phase == Exiting(leftovers[1..])
            && ViewOf(next, r) == first.(signals := [])
  {
  }

  lemma ContinueThen(w: World, r: int, n: nat)
    requires Enabled(w, Continue(r)) && Possible(Next(w, Continue(r)), Continues(r, n))
    ensures Possible(w, Continues(r, n + 1))
    ensures RunAll(w, Continues(r, n + 1)) == RunAll(Next(w, Continue(r)), Continues(r, n))
  {
    var actions := Continues(r, n + 1);
    assert actions[0] == Continue(r) && actions[1..] == Continues(r, n);
  }

  // The rest of the handler, once it has come to `leftovers`.
  lemma {:induction false} ExitSteps(w: World, r: int, leftovers: Entries)
    requires r in w.runners && w.runners[r].phase == Exiting(leftovers)
    ensures var actions := Continues(r, |leftovers| + 1);
            && Possible(w, actions)
            && Ended(w, r, KillEach(r, ViewOf(w, r), leftovers).0, RunAll(w, actions))
    decreases |leftovers|
  {
    var next := Next(w, Continue(r));
    if leftovers == [] {
      LastStep(w, r);
    } else {
      var first, rest := Kill(r, ViewOf(w, r), leftovers[0]).0, leftovers[1..];
      KillStep(w, r, leftovers);
      ExitSteps(next, r, rest);
      KillFromEmpty(r, ViewOf(w, r), leftovers);
      EndedAfter(w, r, first, Exiting(rest), KillEach(r, ViewOf(next, r), rest).0,
                 RunAll(next, Continues(r, |rest| + 1)));
    }
    ContinueThen(w, r, |leftovers|);
  }

  // The signals of a list of kills do not depend on those sent before.
  lemma {:induction false} SignalsAside(self: int, v: View, cs: Entries, sent: seq<Identity>)
    ensures KillEach(self, v.(signals := sent + v.signals), cs).0
         == var last := KillEach(self, v, cs).0; last.(signals := sent + last.signals)
    decreases |cs|
  {
    if cs != [] {
      var next := Kill(self, v, cs[0]).0;
      SignalsAside(self, next, cs[1..], sent);
      assert sent + (v.signals + [Id(cs[0])]) == sent + v.signals + [Id(cs[0])];
    }
  }

  lemma KillFromEmpty(self: int, v: View, cs: Entries)
    requires cs != [] && v.signals == []
    ensures var next := Kill(self, v, cs[0]).0;
            var rest := KillEach(self, next.(signals := []), cs[1..]).0;
            KillEach(self, v, cs).0 == rest.(signals := next.signals + rest.signals)
  {
    var next := Kill(self, v, cs[0]).0;
    SignalsAside(self, next.(signals := []), cs[1..], next.signals);
    assert next.signals + [] == next.signals;
  }

  // From every state: a runner that begins to exit and is not interrupted ends, and
  // leaves the machine as the exit handler says.
  lemma ExitRun(w: World, r: int)
    requires Active(w, r)
    ensures var actions := [BeginExit(r)] + Continues(r, |w.runners[r].entries| + 1);
            && Possible(w, actions)
            && var last, v := RunAll(w, actions), Exit(r, ViewOf(w, r));
               Ended(w, r, v, last) && last.files == v.files
  {
    var entries := w.runners[r].entries;
    var next, rest := Next(w, BeginExit(r)), Continues(r, |entries| + 1);
    var actions := [BeginExit(r)] + rest;
    assert actions[0] == BeginExit(r) && actions[1..] == rest;
    assert next.signals == w.signals && ViewOf(next, r) == ViewOf(w, r).(entries := []);
    ExitSteps(next, r, entries);
    assert next.runners - {r} == w.runners - {r};
  }
}
