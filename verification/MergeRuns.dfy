/** Merge-mode applies as the server makes them: the stored overlay against patch-by-patch application. */
module MergeRuns {
  import opened Wrappers
  import opened ConfigModel
  import opened Merge
  import opened Configurator
  import opened AccumulateRuns
  import opened AccumulatePools

  function Merges(patches: seq<Config>): seq<Proposal> {
    seq(|patches|, i requires 0 <= i < |patches| => Only(ApplyOverlay(MergeOverlay, Some(patches[i]))))
  }

  // The server accepts every patch in turn, and none is empty.
  ghost predicate AllAccepted(s: State, patches: seq<Config>, valid: Config -> bool)
    requires Sound(s)
    decreases |patches|
  {
    patches == [] ||
    (!PatchIsEmpty(patches[0]) &&
     var n := Next(s, Only(ApplyOverlay(MergeOverlay, Some(patches[0]))), valid);
     n.Ok? && AllAccepted(n.value, patches[1..], valid))
  }

  lemma MergesTail(patches: seq<Config>)
    requires patches != []
    ensures Merges(patches)[0] == Only(ApplyOverlay(MergeOverlay, Some(patches[0])))
    ensures Merges(patches)[1..] == Merges(patches[1..])
  {
  }

  // One accepted merge-mode apply onto a stored overlay.
  lemma AcceptedStep(kinds: Kinds, s: State, p: Config, valid: Config -> bool, eff: Config)
    requires Sound(s) && s.overlay.Some? && DistinctPoolNames(s.file.pools)
    requires ConfigsMatch(kinds, s.file, s.overlay.value, eff)
    requires PatchFitsFile(kinds, s.file, p) && AllUndisturbed(kinds, s.overlay.value.pools, p.pools)
    requires !PatchIsEmpty(p)
    requires Next(s, Only(ApplyOverlay(MergeOverlay, Some(p))), valid).Ok?
    ensures var n := Next(s, Only(ApplyOverlay(MergeOverlay, Some(p))), valid).value;
            && Sound(n) && n.file == s.file && n.overlay.Some?
            && MergeConfigs(s.overlay.value, p, AccumulateOverlay) == Ok(n.overlay.value)
            && MergeConfigs(eff, p, ApplyToBaseline).Ok?
            && ConfigsMatch(kinds, s.file, n.overlay.value, MergeConfigs(eff, p, ApplyToBaseline).value)
  {
    var n := Next(s, Only(ApplyOverlay(MergeOverlay, Some(p))), valid).value;
    AcceptedStepApplies(kinds, s.file, s.overlay.value, eff, p, n.overlay.value);
    AccumulateStep(kinds, s.file, s.overlay.value, eff, p, n.overlay.value,
                   MergeConfigs(eff, p, ApplyToBaseline).value);
  }

  lemma {:induction false} AcceptedFrom(kinds: Kinds, s: State, patches: seq<Config>,
                                        valid: Config -> bool, eff: Config)
    requires Sound(s) && s.overlay.Some? && DistinctPoolNames(s.file.pools)
    requires ConfigsMatch(kinds, s.file, s.overlay.value, eff)
    requires forall j :: 0 <= j < |patches| ==> PatchFitsFile(kinds, s.file, patches[j])
    requires forall j :: 0 <= j < |patches| ==> AllUndisturbed(kinds, s.overlay.value.pools, patches[j].pools)
    requires RemovedStaysRemoved(kinds, patches) && AllAccepted(s, patches, valid)
    ensures ApplyAll(eff, patches).Ok?
    ensures Effective(Run(s, Merges(patches), valid)) == ApplyAll(eff, patches)
    decreases |patches|
  {
    if patches != [] {
      var p, t := patches[0], patches[1..];
      MergesTail(patches);
      assert PatchFitsFile(kinds, s.file, p) && AllUndisturbed(kinds, s.overlay.value.pools, p.pools);
      AcceptedStep(kinds, s, p, valid, eff);
      var n := Next(s, Only(ApplyOverlay(MergeOverlay, Some(p))), valid).value;
      LaterUndisturbed(kinds, s.file, s.overlay.value, patches, n.overlay.value);
      assert forall j :: 0 <= j < |t| ==> t[j] == patches[j + 1];
      AcceptedFrom(kinds, n, t, valid, MergeConfigs(eff, p, ApplyToBaseline).value);
    }
  }

  // Every run of accepted merge-mode applies to a server without an overlay: applying the
  // patches in turn to the file succeeds, and gives the effective configuration.
  lemma AcceptedMergesAgree(kinds: Kinds, file: Config, patches: seq<Config>, valid: Config -> bool)
    requires DistinctPoolNames(file.pools)
    requires forall j :: 0 <= j < |patches| ==> PatchFitsFile(kinds, file, patches[j])
    requires RemovedStaysRemoved(kinds, patches)
    requires AllAccepted(State(file, None), patches, valid)
    ensures ApplyAll(file, patches).Ok?
    ensures Effective(Run(State(file, None), Merges(patches), valid)) == ApplyAll(file, patches)
  {
    if patches != [] {
      var p, t := patches[0], patches[1..];
      MergesTail(patches);
      var first := State(file, Some(p));
      assert Next(State(file, None), Only(ApplyOverlay(MergeOverlay, Some(p))), valid) == Ok(first);
      var eff := MergeConfigs(file, p, ApplyToBaseline).value;
      assert PatchFitsFile(kinds, file, p) && ConfigsMatch(kinds, file, p, eff);
      assert forall j :: 0 <= j < |t| ==> t[j] == patches[j + 1];
      AcceptedFrom(kinds, first, t, valid, eff);
    }
  }
}
