# A Dafny model of DNSConduit's configuration overlay and measurement harness

This project models the parts of DNSConduit whose behaviour is hardest to see from the
code, and proves what they do for every input and every run.

**The configuration overlay** (`crates/conduit-config/src/merge.rs`,
`crates/conduit-config/src/synthesize.rs`, and the apply path of
`crates/conduit-core/src/configurator.rs`). A file configuration is combined with a sparse
overlay that arrives over the API. *Applying* an overlay consumes its remove markers;
*accumulating* one overlay onto another keeps them. *Synthesis* goes the other way: from the
file and a desired configuration to an overlay that should merge back to it.

**The measurement harness** (`perf/runner`). The PID ledger decides which processes a
runner may kill. The stub upstream answers DNS queries, at once or after a delay. The
publisher merges several rounds of a benchmark by median and gates their promotion.

| file | content |
|---|---|
| `ConfigModel`, `Wrappers` | configuration records, `Option` and `Result` |
| `KeyedList`, `Thinning`, `FirstSeen` | lists: keyed edits, entries taken out, entries in the order first seen |
| `MetricsMerge`, `MetricsSynthesis`, `MetricsLeaves` | deep merge of the metrics section, leaf by leaf; its delta, both laws |
| `Merge`, `Synthesize` | the two passes: one function per helper, the loops as methods |
| `MergeEffects`, `ConfigEffects` | what one overlay entry, pool or overlay does, field by field, in both modes |
| `SparsePatches` | what synthesis puts into a patch: exactly what differs |
| `MergeInvariants`, `PointwiseMerge`, `PointwisePools` | what applying keeps, and what it computes without its loop |
| `BackendRoundTrip`, `ConfigRoundTrip` | the exact domain of synthesis, for backends, pools, configurations |
| `NameTracking`, `Resynthesis` | what synthesis and merge do to each name: refused, missed, or reached |
| `Reproduction`, `ConfigResynthesis` | synthesis from what an overlay produced |
| `AccumulateBackends`, `AccumulatePools`, `AccumulateRuns`, `MergeRuns` | one accumulated overlay against patch by patch |
| `FileSynthesis` | synthesis over any valid file, backends without a name at one address included |
| `Configurator`, `GrownBackends`, `Faithfulness` | proposals as a state machine; when a typed mutation has exactly its effect |
| `PrimitiveEffects` | what is in effect after each kind of proposal, and what it is refused for |
| `Ledger`, `LedgerExit` | the ledger's operations, and what they do |
| `LedgerRuns`, `LedgerSweep`, `LedgerCompleteness`, `LedgerReuse` | every interleaving of several runners; sweep and exit as runs of steps; what a reused PID breaks |
| `Wire`, `DelayLine` | DNS query, parser and answer; the delayed replies |
| `Median`, `RoundMerge`, `RoundLeaves`, `RoundDocuments`, `RoundFailures` | median merging of rounds, when it fails, and the gate |

Code that changes things step by step is a method or a class here, proved against a
function; the laws are lemmas about that function. The configurator's `EffectiveConfig`, the
ledger's `Runner` over a shared `Machine` and the stub's delayed `Worker` are classes.

## Where the code does less than it says

Each is a lemma with the exact condition, or a family of inputs on which the promise fails.

- The header of `synthesize.rs` promises that merging the synthesized overlay gives the
  desired configuration for everything that primitives can reach. It does so exactly for
  `ConfigExpressible` targets (`ConfigRoundTrip.SynthesisRoundTrip`). Deleting a backend that
  shares its address with another one is accepted and lost (`GrownBackends.TwinDeletionIsLost`,
  `Faithfulness.BackendPrimitiveReachesIff`). Deleting a backend and adding another under its name or
  address works only in the case `GrownBackends.ReplaceExpressibleIff` states.
- Outside the domain of synthesis, a target with named backends is refused exactly when a backend is renamed in place
  (`Resynthesis.NamedRefusedIff`). Otherwise it is missed in silence: a new name at an address of
  the file is never added (`NameTracking.AliasedIsNeverAdded`), a file backend whose address is
  desired is never removed (`NameTracking.AliasedIsNeverRemoved`). A name that is present but empty
  is the exception: asking for one takes the name away (`NameTracking.BlankTakesTheName`).
- The validator accepts backends without a name that share an address. From a file where one of
  them differs from the first backend at its address, synthesis of the file itself gives a patch
  (`FileSynthesis.TwinsArePatched`; exactly then: `FileSynthesis.SynthesisOfFileIsEmptyIff`), though
  one that leads back to the file (`FileSynthesis.FileReturns`). Deleting one of them is lost
  (`FileSynthesis.DeletionReturnsIff`).
- Remove markers inside a pool that the file does not have turn into ordinary backends
  (`MergeInvariants.NewPoolMarkersVanish`).
- A backend without a name whose address is another backend's name cannot be deleted by its address
  (`Faithfulness.AddThenDeleteIff`).
- Accumulating a removal and a later addition updates the file's backend in place instead of
  replacing it (`AccumulateBackends.RemoveThenAdd`). Accumulating a patch that names a backend
  without its address fails unless the overlay already mentions it
  (`AccumulateBackends.AccumulationDefined`), although applying it would succeed
  (`AccumulateRuns.NameOnlyPatchesDiverge`).
- The operator documentation says that an unknown backend name in an overlay is rejected. The
  code appends the entry when it has an address; the model follows the code.
- The exit handler of a runner forgets all its children first, so that its first kill removes the
  whole ledger file. A crash inside the handler keeps the remaining children on record if and only
  if that file is still there or none of them runs (`LedgerCompleteness.ExitCrashIff`); reachable
  runs end otherwise (`LedgerCompleteness.ExitForgets`, `LedgerReuse.ExitForgetsHappens`).
- A runner that gets the PID of a dead one overwrites that one's ledger (`LedgerReuse.ReuseForgets`,
  `LedgerReuse.ReuseForgetsHappens`). What is said about the children of a runner is therefore said
  for runs in which its own PID is not used again, whatever happens to other PIDs.
- Killing an orphan also drops the killer's own entry under the same PID, even when that entry
  is a running child, and a signal that fails drops the entry as well
  (`LedgerCompleteness.KillForgetsIff`).
- A sweep checks that a runner is dead before it reads that runner's ledger. If another runner
  starts under the same PID in between, the sweep kills that live runner's child
  (`LedgerReuse.ReuseBreaksSafety`, `LedgerReuse.UnsafeRunHappens`). `LedgerRuns.KillSafety` is
  about every run without a start in that window; `LedgerRuns.KillsOnlyRegistered` about every run.
- The stub copies the counts of authority and additional records from the query without
  sending such records, so its answer to an EDNS query is not well formed
  (`Wire.AnswerDecodes`). The probe encodes labels and names that no DNS message can hold; the
  stub answers the name asked for exactly when it can (`Wire.ProbeIsAnsweredIff`).
- A scenario that was invalid in some round, good in none, and failed otherwise in the last
  round passes the promotion gate (`RoundDocuments.InvalidRoundPasses`, and exactly then:
  `RoundDocuments.PromotableIff`).

## Model

| member | source | states |
|---|---|---|
| Merge.MergeBackendsInto | crates/conduit-config/src/merge.rs:225-281 | The loop over overlay backends, in both modes and with every error, computes the fold `MergeBackends`; the effect of each entry is in `MergeEffects`. |
| Merge.MergePoolsInto | crates/conduit-config/src/merge.rs:158-223 | The loop over overlay pools computes the fold `MergePools`. |
| Merge.MergeConfigsInto | crates/conduit-config/src/merge.rs:71-128 | Merging whole configurations computes `MergeConfigs`: replaced sections, lists, metrics, pools. |
| Merge.MergeBackendsSplit | crates/conduit-config/src/merge.rs:231-280 | Merging two overlays' entries in one go is merging them one after the other, errors included. |
| Merge.MergePoolsSplit | crates/conduit-config/src/merge.rs:158-223 | The same for pools. |
| MergeEffects.NameEntryEffect | crates/conduit-config/src/merge.rs:243-261 | In both modes: an entry with a name changes the address, name and weight of the first backend of that name, or is appended if it has an address, or is refused; nothing else changes. |
| MergeEffects.AddressEntryEffect | crates/conduit-config/src/merge.rs:262-273 | In both modes: an entry with an address and no name does so to the first backend at that address, or is appended. It never fails. |
| MergeEffects.NamelessEntryFails | crates/conduit-config/src/merge.rs:274-278 | An entry with neither is refused. |
| MergeEffects.RemovalEffect | crates/conduit-config/src/merge.rs:313-342 | An applied removal takes out every backend of that name, or at that address, and leaves the others in order; without one it is refused. |
| ConfigEffects.KeptRemovalEffect | crates/conduit-config/src/merge.rs:284-311 | A kept removal takes the same entries out of the overlay and appends a bare marker. |
| ConfigEffects.PoolRemovalEffect | crates/conduit-config/src/merge.rs:160-194 | The same for pools, in both modes, with every error. |
| ConfigEffects.KnownPoolEffect | crates/conduit-config/src/merge.rs:195-203 | A known pool takes the merged backends and nothing else of the overlay pool. |
| ConfigEffects.NewPoolEffect | crates/conduit-config/src/merge.rs:204-220 | A new pool is appended as it is; applied, without any mark. |
| ConfigEffects.OverlayEffect | crates/conduit-config/src/merge.rs:71-128 | A whole overlay, field by field: what replaces, what is merged leaf by leaf, what stays, and that only its pools can be refused. |
| MergeInvariants.BackendsStayTidy | crates/conduit-config/src/merge.rs:225-281 | Whatever the overlay, applying it leaves no remove marker and no backend name twice. |
| MergeInvariants.UntouchedStay | crates/conduit-config/src/merge.rs:225-355 | In both modes, the backends that no overlay entry identifies are all still there, unchanged and in the same order. |
| MergeInvariants.RemovalIsRemembered | crates/conduit-config/src/merge.rs:284-311 | Accumulating a removal by name or address leaves exactly one entry for that identity, the marker. |
| MergeInvariants.NewPoolMarkersVanish | crates/conduit-config/src/merge.rs:207-213 | A remove marker inside a pool the base does not have becomes a backend of the new pool. |
| MergeInvariants.PoolsStayTidy | crates/conduit-config/src/merge.rs:158-223 | The same invariant for all pools, with distinct pool names. |
| PointwiseMerge.ApplyIsPointwise | crates/conduit-config/src/merge.rs:225-342 | On any list that carries each name once, with backends without a name anywhere: a name-keyed overlay is rejected exactly when an entry does not fit; otherwise the result is every file backend under its own entry, then the unknown entries in overlay order. |
| PointwisePools.PoolsArePointwise | crates/conduit-config/src/merge.rs:158-223 | For pools, each named once: rejected exactly when a removal is not of a file pool or the backends for a file pool do not merge; otherwise the updated file pools in order, then the new ones. |
| MetricsMerge.MergeMetrics | crates/conduit-config/src/merge.rs:358-425 | The sequence of conditional updates and map and list loops computes `DeepMerge`; what that is, leaf by leaf, is in `DeepMergeLeaves`. |
| MetricsMerge.MergeUserMetricsInto | crates/conduit-config/src/merge.rs:470-489 | The loop over user metrics computes the fold by name. |
| MetricsMerge.MergeCollectionInto | crates/conduit-config/src/merge.rs:371-377 | The loop over collection overrides computes the key-wise merge. |
| MetricsLeaves.DeepMergeLeaves | crates/conduit-config/src/merge.rs:358-489 | Leaf by leaf: what the overlay sets is its value, what it leaves unset is the baseline's, of several entries for one user metric the last that sets a field counts, and new ones follow in order. |
| MetricsMerge.DeepMergeAssociates | crates/conduit-config/src/merge.rs:358-489 | Deep merging is associative, given distinct user-metric names in the middle. |
| MetricsMerge.MergeExtends | crates/conduit-config/src/merge.rs:358-489 | A merge never unsets a field, drops a key or reorders the baseline's user metrics. |
| MetricsSynthesis.MetricsDelta | crates/conduit-config/src/synthesize.rs:91-128 | The sequence of conditional assignments to an empty section computes `Delta`. |
| MetricsSynthesis.UserMetricsDeltaOf | crates/conduit-config/src/synthesize.rs:130-142 | The loop over user metrics computes their delta. |
| MetricsSynthesis.MetricsRoundTrip | crates/conduit-config/src/synthesize.rs:70-89 | Merging the synthesized metrics gives the desired ones if and only if they extend the baseline. |
| MetricsSynthesis.MetricsImageIsExtensions | crates/conduit-config/src/merge.rs:358-425 | For sections with distinct user-metric names: some overlay reaches it if and only if it extends the baseline. |
| SparsePatches.MetricsPatchIsSparse | crates/conduit-config/src/synthesize.rs:70-142 | The metrics patch holds a family, key or user metric exactly when it differs from the file's, and then as desired. |
| Synthesize.BackendDeltaOf | crates/conduit-config/src/synthesize.rs:275-323 | The delta with its changed flag is `BackendDelta`. |
| Synthesize.SynthesizeBackendsOf | crates/conduit-config/src/synthesize.rs:217-242 | The two loops compute file entries, then additions. |
| Synthesize.SynthesizePoolsOf | crates/conduit-config/src/synthesize.rs:178-215 | The two loops compute entries for file pools, then new pools. |
| Synthesize.SynthesizeOverlayOf | crates/conduit-config/src/synthesize.rs:13-26 | The whole overlay, with the two lists that cannot be cleared. |
| SparsePatches.DeltaIsSparse | crates/conduit-config/src/synthesize.rs:275-323 | A backend gives an entry exactly when it differs; the entry sets exactly the fields that differ, and its identity. |
| SparsePatches.FindMatches | crates/conduit-config/src/synthesize.rs:244-257 | The desired backend that stands for a file backend: the first of its name, else the first at its address. |
| SparsePatches.BackendPatchIsSparse | crates/conduit-config/src/synthesize.rs:217-242 | A pool's patch is, in file order, a marker or such an entry for each file backend that needs one, then the backends that match none, in order. |
| SparsePatches.PoolPatchIsSparse | crates/conduit-config/src/synthesize.rs:178-215 | The same for pools: markers, names with what their backends need, new pools. |
| SparsePatches.OverlayIsSparse | crates/conduit-config/src/synthesize.rs:13-67 | The whole patch holds what differs, and synthesis fails exactly when a list is to be emptied. |
| BackendRoundTrip.BackendsRoundTrip | crates/conduit-config/src/synthesize.rs:217-323 | Merging the synthesized entries gives the desired backends if and only if survivors come first, in file order and updatable, and the rest is unknown to the file. |
| BackendRoundTrip.SurvivorsThenAdditions | crates/conduit-config/src/synthesize.rs:217-242 | Whatever is desired, the merged result is descendants of the survivors in file order, then the additions. |
| ConfigRoundTrip.MergedPools | crates/conduit-config/src/synthesize.rs:178-215 | What merging the synthesized pools computes, including where it fails. |
| ConfigRoundTrip.PoolsRoundTrip | crates/conduit-config/src/synthesize.rs:178-215 | The round trip for pools, if and only if. |
| ConfigRoundTrip.SectionsRoundTrip | crates/conduit-config/src/synthesize.rs:30-67 | Replaced sections come back if and only if none of the file's is unset. |
| ConfigRoundTrip.SynthesisRoundTrip | crates/conduit-config/src/synthesize.rs:3-5 | The invariant of the module, with its exact domain. |
| ConfigRoundTrip.EmptyPatchIsNeutral | crates/conduit-config/src/merge.rs:139-156 | An empty patch changes nothing but the schema version. |
| Resynthesis.NamedRoundTrip | crates/conduit-config/src/synthesize.rs:178-323 | For named backends, that domain without the code's lookup: shared names first and in file order, updatable, and no name of one side at an address of the other. |
| Resynthesis.NamedRefusedIff | crates/conduit-config/src/synthesize.rs:244-257 | For named backends, merging the synthesized entries fails if and only if a file backend's name is not desired and the first desired backend at its address has a name the file lacks. |
| Resynthesis.NewcomerIsMissed | crates/conduit-config/src/synthesize.rs:233-239 | Between named lists whose target is not refused: a new name at an address of the file is missed, and the merge succeeds without it. |
| Resynthesis.RenameIsRefused | crates/conduit-config/src/synthesize.rs:253-255 | For any two names at one address, renaming one backend to the other is refused. |
| Resynthesis.RoomIsNotTaken | crates/conduit-config/src/synthesize.rs:233-239 | A backend that moves to another address makes no room for a new one at its old address. |
| NameTracking.RefusedIff | crates/conduit-config/src/merge.rs:257-261 | For a file whose backends have their own identities and any target that carries each name once and no new empty name: the merge fails if and only if a file backend finds, by its address, a name the file lacks. |
| NameTracking.AliasedIsNeverAdded | crates/conduit-config/src/synthesize.rs:233-239 | For the same: a desired name the file lacks, at an address the file has, is in no successful result. |
| NameTracking.AliasedIsNeverRemoved | crates/conduit-config/src/synthesize.rs:221-231 | For the same: a file backend that finds a desired one by name or address is in every successful result. |
| NameTracking.BlankTakesTheName | crates/conduit-config/src/synthesize.rs:275-323 | Asking for an empty name at the address of any named backend takes its name away. |
| Reproduction.SynthesisReproduces | crates/conduit-config/src/synthesize.rs:217-257 | What a name-keyed overlay made of a pool, backends without a name included, is reproduced by synthesis if and only if no name found on one side only sits at an address of the other side. |
| ConfigResynthesis.OverlayIsReproduced | crates/conduit-config/src/synthesize.rs:13-26 | The same for whole overlays and configurations: reproduced if and only if no pool that both sides have aliases an address. |
| FileSynthesis.FileReturns | crates/conduit-config/src/synthesize.rs:217-323 | For any valid pool, merging what is synthesized from the file itself gives the file. |
| FileSynthesis.FileIsSilentIff | crates/conduit-config/src/synthesize.rs:217-257 | It is nothing if and only if every backend without a name equals the first at its address. |
| FileSynthesis.SynthesisOfFileIsEmptyIff | crates/conduit-config/src/synthesize.rs:13-67 | The same for whole configurations: when the patch is empty. |
| FileSynthesis.TwinsArePatched | crates/conduit-config/src/validate.rs:107-117 | Any two different backends without a name at one address are valid and give a patch. |
| FileSynthesis.DeletionReturnsIff | crates/conduit-config/src/synthesize.rs:244-257 | For any valid pool, deleting a backend comes back if and only if no other has its address. |
| FileSynthesis.WeightReturnsIff | crates/conduit-config/src/synthesize.rs:275-323 | For any valid pool, a weight comes back if and only if its backend has a name, is the first at its address, or had it already. |
| FileSynthesis.AdditionReturns | crates/conduit-config/src/synthesize.rs:233-239 | For any valid pool, an addition of a new identity comes back. |
| FileSynthesis.OnePoolReturnsIff | crates/conduit-config/src/synthesize.rs:178-215 | For any valid file, a change of one pool's backends comes back if and only if it does for that pool. |
| AccumulateBackends.AccumulatePatch | crates/conduit-config/src/merge.rs:59-61 | For patches of a pool that all go by name, or all by address, on any file: accumulating a patch and applying the whole gives what applying it after the others gives. |
| AccumulateBackends.AccumulationDefined | crates/conduit-config/src/merge.rs:243-261 | For both: accumulation accepts a patch if and only if every update has an address or is already mentioned. |
| AccumulateRuns.NameOnlyPatchesDiverge | crates/conduit-config/src/merge.rs:243-261 | Two patches that update two backends of a pool by name alone: applying them in turn succeeds, accumulating them fails. |
| AccumulateBackends.RemoveThenAdd | crates/conduit-config/src/merge.rs:243-311 | Removing and adding again, by name or by address: both outcomes, and exactly when they agree. |
| AccumulatePools.AccumulatePoolsPatch | crates/conduit-config/src/merge.rs:158-223 | Accumulation against application for all pools of a patch, each pool by name or by address. |
| AccumulatePools.AcceptedPatchApplies | crates/conduit-config/src/merge.rs:158-223 | A patch that accumulates to an overlay the file accepts also applies to the effective pools. |
| AccumulateRuns.AccumulationAgrees | crates/conduit-config/src/merge.rs:54-128 | For every run of patches, each pool by name or by address, whose removed identities are not mentioned again: the accumulated overlay, applied once, gives what applying every patch in turn gives. |
| GrownBackends.GrownIsExpressible | crates/conduit-config/src/synthesize.rs:217-323 | Backend lists that weights, deletions and fresh additions can reach are in the domain. |
| GrownBackends.DeleteExpressibleIff | crates/conduit-config/src/synthesize.rs:244-257 | Deleting a backend can be expressed if and only if no other one has its address. |
| GrownBackends.ReplaceExpressibleIff | crates/conduit-config/src/synthesize.rs:217-257 | Deleting one backend and adding another: the exact condition. |
| GrownBackends.TwinDeletionIsLost | crates/conduit-config/src/synthesize.rs:244-257 | For any two named backends at one address, deleting the first changes nothing. |
| Configurator.Next | crates/conduit-core/src/configurator.rs:426-471 | An accepted proposal leaves an overlay that merges onto the file, with a validated result. |
| Configurator.RunStaysSound | crates/conduit-config/src/merge.rs:45-51 | Over every run of proposals, computing the effective configuration never fails and the result is always one the validator accepted. |
| Configurator.EffectiveConfig.constructor | crates/conduit-config/src/merge.rs:37-42 | A fresh object holds the file and no overlay. |
| Configurator.EffectiveConfig.Current | crates/conduit-config/src/merge.rs:45-51 | The effective configuration of a sound state, without failing. |
| Configurator.EffectiveConfig.ApplyPrimitive | crates/conduit-core/src/configurator.rs:474-494 | Mutate what is effective, synthesize, install; what that leaves in effect is in `PrimitiveEffects`. |
| Configurator.EffectiveConfig.Propose | crates/conduit-core/src/configurator.rs:426-471 | For a reload, a change, or both: the working copy is committed exactly when `Next` accepts, and a refusal changes nothing. |
| PrimitiveEffects.MutationMeans | crates/conduit-core/src/configurator.rs:496-807 | Each typed mutation, said without the code: what changes, what stays, and exactly what it is refused for. |
| PrimitiveEffects.AcceptedHasEffect | crates/conduit-core/src/configurator.rs:426-494 | After every run of primitives from a file with distinct addresses, each accepted one that adds nothing the file has already has exactly that effect. |
| PrimitiveEffects.FaithfulHasEffect | crates/conduit-core/src/configurator.rs:426-494 | On any file and overlay: an accepted primitive whose target can be expressed has exactly that effect on what is in effect. |
| PrimitiveEffects.RefusalIsKept | crates/conduit-core/src/configurator.rs:474-494 | What a mutation is refused for, the proposal is refused for. |
| PrimitiveEffects.ReloadEffect | crates/conduit-core/src/configurator.rs:441-455 | After a reload the new file alone is in effect, and a change with it starts from there. |
| PrimitiveEffects.ClearEffect | crates/conduit-core/src/configurator.rs:814-817 | Clearing leaves the file in effect. |
| PrimitiveEffects.ReplaceEffect | crates/conduit-core/src/configurator.rs:818-831 | Replacing leaves the file with the patch in effect, whatever was stored, with every refusal. |
| PrimitiveEffects.MergeEffect | crates/conduit-core/src/configurator.rs:832-849 | Merging without an overlay is replacing; an empty patch changes nothing. |
| PrimitiveEffects.MergeOntoEffect | crates/conduit-core/src/configurator.rs:840-848 | Merging onto an overlay: accumulated, applied, with every refusal. |
| PrimitiveEffects.RefusalsLeaveNoTrace | crates/conduit-core/src/configurator.rs:435-470 | Over every run, leaving out a refused proposal changes nothing. |
| PrimitiveEffects.OtherEffects | crates/conduit-core/src/configurator.rs:809-835 | Without a patch there is nothing to merge or replace; without a change the state is kept. |
| Configurator.FileIsReached | crates/conduit-config/src/merge.rs:37-42 | The file itself is where such runs start: every file with distinct identities and addresses is reached. |
| Configurator.PrimitiveIsFaithful | crates/conduit-core/src/configurator.rs:474-494 | A primitive on a reached state makes the desired configuration effective, exactly, unless the validator refuses it. |
| Configurator.PrimitivesRefineMutation | crates/conduit-core/src/configurator.rs:496-715 | A condition on the inputs alone: over every run of primitives that add nothing the file already has, the effective configuration is what mutating the configuration directly gives. |
| MergeRuns.AcceptedMergesAgree | crates/conduit-core/src/configurator.rs:832-849 | After every run of accepted merge-mode applies, applying each patch in turn to the file succeeds and gives the effective configuration. |
| Faithfulness.AddThenDeleteIff | crates/conduit-core/src/configurator.rs:776-807 | Deleting what was just added restores the pool if and only if the identity cannot be taken for another backend's name. |
| Faithfulness.WeightLastWins | crates/conduit-core/src/configurator.rs:497-507 | Of two weights set for one backend the later counts, and nothing else changes. |
| Faithfulness.PrimitiveReachesIff | crates/conduit-core/src/configurator.rs:474-494 | For any overlay and primitive, on a file where no backend without a name shares its address: the effect is exact if and only if the target is expressible. |
| Faithfulness.MutationStaysIdentified | crates/conduit-core/src/configurator.rs:496-715 | No primitive gives two backends of a pool, or two user metrics, one identity. |
| Faithfulness.RunIsFaithfulIff | crates/conduit-core/src/configurator.rs:474-494 | Over every run of primitives, from any such file and overlay: each has exactly its effect if and only if everything asked for in turn is expressible, and then the effective configuration is what direct mutation gives. |
| Faithfulness.BackendPrimitiveReachesIff | crates/conduit-core/src/configurator.rs:497-528 | On any valid file without an overlay: when setting a weight, deleting or adding a backend takes effect. |
| Ledger.Runner.RegisterChild | perf/runner/procs.py:140-157 | Records the running process under its start time, in memory and on disk, or nothing. |
| Ledger.Runner.UnregisterChild | perf/runner/procs.py:160-166 | Drops the entry and rewrites or removes the file. |
| Ledger.Runner.KillTracked | perf/runner/procs.py:177-188 | Signals only a matching start time; drops the entry in any case, also when the signal fails. |
| Ledger.Runner.AtexitCleanup | perf/runner/procs.py:130-137 | Empties the memory, kills each leftover, removes the file: `Exit`, whose effect is `ExitEffect`. |
| Ledger.Runner.FindOrphanedTracked | perf/runner/procs.py:221-248 | The loops over ledger files and children compute `Sweep`. |
| Ledger.Runner.KillOrphanedTracked | perf/runner/procs.py:251-272 | The kills and the second pass over the files compute `KillOrphans`. |
| Ledger.RegisterRecords | perf/runner/procs.py:140-157 | What registering records, in memory and on disk: the process under its start time with at most 500 characters of its command line, in place of an entry with its PID. |
| Ledger.UnregisterForgets | perf/runner/procs.py:160-166 | Exactly the entries with the PID are gone; an empty ledger has no file. |
| Ledger.LoadReturns | perf/runner/procs.py:196-218 | A saved ledger is read back as it was, but for empty kinds. |
| Ledger.LivingIs | perf/runner/procs.py:238-242 | The living children of a ledger in its order, each as often as it is recorded. |
| Ledger.SweepCollects | perf/runner/procs.py:226-248 | A sweep returns them ledger by ledger, in the order of the listing, whatever it unlinks on the way. |
| LedgerExit.KillEachSignals | perf/runner/procs.py:251-256 | Killing a list signals each target once, in order, and nothing else; the number returned is the number of signals. |
| LedgerExit.OrphansSignals | perf/runner/procs.py:251-272 | So does killing what a sweep found. |
| LedgerExit.KillEachEntries | perf/runner/procs.py:177-188 | The killer keeps exactly its entries whose PID the list does not name. |
| LedgerExit.ExitEffect | perf/runner/procs.py:130-137 | The exit handler ends exactly the recorded children that run and can be killed, signals each once, empties memory and its own ledger, and changes nothing else. |
| Ledger.SweepFinds | perf/runner/procs.py:221-240 | A sweep returns a child if and only if a listed ledger of a dead runner other than itself records it and it lives. |
| Ledger.SweepKeeps | perf/runner/procs.py:241-247 | A sweep deletes a ledger if and only if its runner is dead and none of its children live. |
| Ledger.KillEachEffect | perf/runner/procs.py:251-256 | Killing a list ends exactly the verified ones that can be killed, and touches no other runner's ledger. |
| Ledger.SweepKillsOrphans | perf/runner/procs.py:221-272 | Find, then kill: exactly the orphans that can be killed are gone. |
| Ledger.SweepClearsLedgers | perf/runner/procs.py:257-271 | And the ledgers of dead runners with them, unless a child in one cannot be killed; those of live runners untouched. |
| LedgerRuns.StepKeeps | perf/runner/procs.py:140-272 | Every step of every runner keeps the ownership invariant, PIDs reused at will. |
| LedgerRuns.KillsOnlyRegistered | perf/runner/procs.py:14-17 | Over every interleaving, PIDs reused at will: each signal reaches a process that the runner which started it had registered. |
| LedgerRuns.KillSafety | perf/runner/procs.py:14-17 | Over every interleaving in which no runner starts between a sweep's check of its PID and the reading of that ledger: moreover, that runner is the sender or no longer alive. |
| LedgerExit.ExitRun | perf/runner/procs.py:130-137 | From every state: a runner that begins to exit and is not interrupted ends, leaving the machine as `ExitEffect` says. |
| LedgerSweep.SweepRun | perf/runner/procs.py:221-272 | From every state: the steps of a sweep that is not interrupted do what the loops of the code do, and the runner is idle again. |
| LedgerSweep.CallSteps | perf/runner/procs.py:140-188 | Registering, unregistering and killing are one step each and do what the calls do. |
| LedgerCompleteness.CrashLeavesEntries | perf/runner/procs.py:106-166 | Over every run in which its PID is not reused, disk equals memory for each runner that is not exiting, so a crash leaves exactly its registered children on record. |
| LedgerCompleteness.SweepIsComplete | perf/runner/procs.py:221-272 | After every run, for every process: an uninterrupted sweep ends it if and only if the runner that registered it ended with it on record, is dead, and it can be killed. Only the PID of that runner must not have been reused. |
| LedgerCompleteness.SweepEndsLost | perf/runner/procs.py:221-272 | So such a sweep ends everything that a dead runner left, whoever else is reused. |
| LedgerSweep.SweepRunIsComplete | perf/runner/procs.py:221-272 | The same as a run: every run can go on with a sweep of an idle runner, after which exactly those processes are gone. |
| LedgerCompleteness.ExitCrashIff | perf/runner/procs.py:130-137 | After every run, inside the exit handler of a runner whose PID was not reused: a crash keeps the running leftovers on record if and only if the ledger file is still there, or none runs. |
| LedgerCompleteness.ExitForgets | perf/runner/procs.py:130-137 | After every such run that ends inside the handler: one more step, and a crash forgets every child not yet come to. |
| LedgerCompleteness.KillForgetsIff | perf/runner/procs.py:177-188 | A running child of the killer is forgotten if and only if it holds the PID of the one named, as another process or as one that cannot be killed. |
| LedgerReuse.ExitForgetsHappens | perf/runner/procs.py:130-137 | A run from an empty machine into the exit handler with two running children. |
| LedgerReuse.ReuseForgets | perf/runner/procs.py:104-157 | From every state: a runner that starts as a dead one and registers a child takes what the dead one left running off every record. |
| LedgerReuse.ReuseForgetsHappens | perf/runner/procs.py:104-157 | A run from an empty machine that does so. |
| LedgerReuse.ReuseBreaksSafety | perf/runner/procs.py:232-240 | From every state in which a sweep has found a runner dead and not yet read its ledger, whatever it has collected and has still to visit: a new runner under that PID loses its child to that sweep. |
| LedgerReuse.UnsafeRunHappens | perf/runner/procs.py:232-240 | A run from an empty machine that kills the child of a live runner. |
| Wire.ParseQname | perf/runner/upstream.py:38-53 | The loop ends on every input and computes `ParseName`. |
| Wire.BuildAResponse | perf/runner/upstream.py:56-72 | The edited header, copied question and answer, and both errors. |
| Wire.ParseFollows | perf/runner/upstream.py:38-53 | On any bytes: the labels along the path of length bytes, up to the first that is zero or has a high bit, one or two bytes before the end; without one, truncated. |
| Wire.AnsweredIff | perf/runner/upstream.py:56-72 | Any query is refused exactly when it has no whole header or its name is truncated; otherwise its own question bytes stand between header and answer. |
| Wire.QueryDecodesIff | perf/runner/conduit.py:91-94 | By RFC 1035 the probe's query is one recursive question for the name, if and only if it is a name. |
| Wire.ParsesEncodedIff | perf/runner/conduit.py:91-92 | The parser returns the encoded labels and stops behind them if and only if each has between 1 and 63 bytes. |
| Wire.AnswerDecodes | perf/runner/upstream.py:56-72 | By RFC 1035 the answer holds the query's ID and question and one A record whose pointer resolves to the queried name, if and only if the query counts one question and nothing in the last two sections and the name has at most 255 octets. |
| Wire.ProbeIsAnsweredIff | perf/runner/conduit.py:91-94 | Whatever the probe can encode is so answered if and only if each label has between 1 and 63 bytes and the name at most 255 octets. |
| DelayLine.Worker.Push | perf/runner/upstream.py:134-139 | Queueing an answer appends it to the delay line. |
| DelayLine.Worker.Pop | perf/runner/upstream.py:141-142 | The least entry of the heap is the oldest of the line. |
| DelayLine.Worker.Serve | perf/runner/upstream.py:122-146 | One wakeup of the heap-based worker is one wakeup of the delay line. |
| DelayLine.RunConserves | perf/runner/upstream.py:117-146 | Over every run, what arrived is what was sent, in order, followed by what waits. |
| DelayLine.RunSchedules | perf/runner/upstream.py:134-142 | Over every run, what was sent and what waits is one reply for each good packet, in order, due one delay after it was read. |
| DelayLine.RunIsPunctual | perf/runner/upstream.py:140-142 | Over every run on a clock that never goes back, nothing is sent early and nothing due is left. |
| Median.MinorityCannotMove | perf/runner/publish.py:161-166 | If fewer than half of the values lie above or below the bounds, the median lies within. |
| Median.MedianIsMiddle | perf/runner/publish.py:161-166 | However the values are put in order: the middle one, or half the sum of the two in the middle. |
| Median.MedianMirrors | perf/runner/publish.py:161-166 | Mirrored values have the mirrored median, for odd and even counts. |
| Median.RoundIsNearest | perf/runner/publish.py:164-165 | Integer medians are rounded to the nearest integer, halves to even. |
| Median.MedianIgnoresOrder | perf/runner/publish.py:161-166 | The median of a list depends on its values only, not on their order. |
| RoundMerge.KeysOf | perf/runner/publish.py:155-159 | The keys in the order first seen. |
| RoundLeaves.MergedKeys | perf/runner/publish.py:154-160 | A merged dictionary has every key of the rounds once, in the order first seen. |
| RoundLeaves.PathMakes | perf/runner/publish.py:149-168 | At every shared path: null, a dictionary, the median, its nearest integer where all are integers, or else the last value. |
| RoundLeaves.PresentStands | perf/runner/publish.py:151 | The values that are there, in order. |
| RoundLeaves.RaisesIff | perf/runner/publish.py:154-160 | The merge raises exactly when at some shared path a dictionary comes first and something else among the rest. |
| RoundMerge.MergeAtPath | perf/runner/publish.py:149-168 | At every path of a nested document, the merge holds the merge of what the rounds hold there. |
| RoundMerge.OutlierRoundIsBounded | perf/runner/publish.py:178-180 | With three or more rounds, one round moves no number beyond the least and greatest of the others, integer rounding included. |
| RoundMerge.RoundOrderIsIrrelevant | perf/runner/publish.py:149-168 | At every path of a nested document where the rounds hold numbers or nothing, reordering the rounds changes nothing. |
| RoundDocuments.MergeMedianDocuments | perf/runner/publish.py:182-243 | The grouping and merging loops compute `Combine`. |
| RoundDocuments.StatusIff | perf/runner/publish.py:197-231 | A merged scenario is good if and only if some round was good and none invalid; when it is invalid. |
| RoundDocuments.CombineConserves | perf/runner/publish.py:187-231 | Every scenario of any round appears once, in the order first seen. |
| RoundDocuments.PublishedOutlierIsBounded | perf/runner/publish.py:205-215 | With three or more good rounds and no invalid one, one of them moves no published number of the scenario beyond the least and greatest of the others. |
| RoundDocuments.SecondaryOutlierIsBounded | perf/runner/publish.py:214-216 | The same for the secondary measurement, over the good rounds that have one. |
| RoundDocuments.SecondaryStands | perf/runner/publish.py:214 | Which secondary measurements count, and in which order. |
| RoundFailures.NoSecondaryIff | perf/runner/publish.py:214-215 | None counts exactly when each is null, empty or zero. |
| RoundDocuments.PublishedIsLastGood | perf/runner/publish.py:210-216 | A scenario published good is its last good round but for metrics and secondary; without a secondary measurement in any round, in that too. |
| RoundDocuments.PublishedIsLastRound | perf/runner/publish.py:202-209 | A scenario not published good is the last invalid round if a round was good, and the last round otherwise, unchanged. |
| RoundFailures.StatusStands | perf/runner/publish.py:200-201 | The rounds with a status, in order. |
| RoundFailures.RoundsStand | perf/runner/publish.py:189-195 | The rounds of a scenario, in order. |
| RoundFailures.IdsInOrder | perf/runner/publish.py:187-195 | Every scenario once, in the order first mentioned. |
| RoundFailures.CombineFailsIff | perf/runner/publish.py:182-231 | Combining fails exactly with fewer than two documents, or when good rounds to be merged raise. |
| RoundDocuments.DocumentOrderIsIrrelevant | perf/runner/publish.py:182-231 | In whatever order the round documents are combined, the same scenarios are published good, with the same numbers. |
| RoundDocuments.SecondaryIgnoresOrder | perf/runner/publish.py:182-231 | The same for the secondary measurement. |
| RoundDocuments.PromotableIff | perf/runner/publish.py:246-263 | The combined document passes the gate if and only if every invalid round belongs to a scenario that was good in no round and did not end invalid. |
| RoundDocuments.InvalidRoundPasses | perf/runner/publish.py:197-263 | For any scenario that is invalid in the first of two rounds and fails otherwise in the second, the document is promotable. |

## Left out

- Export and load of the YAML view (`file.rs`), and compilation of forwarding, health and lookup plans: field-by-field conversions that would only add easy members.
- Progress events (`api.py`, `run_status.py`), marked-section injection and `merge_run_documents` (`publish.py`): easy beside what is here.
- The validator is a parameter of the configurator; what it accepts is not modelled.
- Sections that an overlay replaces whole, data sources and caches are carried as messages; a primitive that edits a field of one is given by the resulting message.
- Locks, reading and parsing the file of a reload, generation counters and the runtime swap of the configurator.
- Ledger.Runner.FindOrphanedTracked: the directory listing is a parameter, and hand-damaged ledger files are not modelled; liveness of a runner does not model a process of another user.
- Ledger.Runner.KillTracked: whether a signal to a process fails is a fixed property of that process; a killed process is gone at once.
- LedgerRuns.KillsOnlyRegistered: assumes that a PID with its start time is unique, that check and kill are one step, and that a runner registers only its own children, before it reaps them.
- LedgerRuns.KillSafety: assumes the same; the start in a sweep's window is excluded because the claim is false with it (`ReuseBreaksSafety`).
- LedgerCompleteness.SweepIsComplete: the reuse of the PID of the runner in question is excluded because the claim is false with it (`ReuseForgets`).
- LedgerRuns.StepKeeps: a register or unregister with its file write is one step, so a crash between the two is not modelled.
- AccumulateRuns.AccumulationAgrees: states agreement where accumulating and applying both succeed; `AccumulationDefined` says when accumulating does, and `AcceptedMergesAgree` that acceptance implies both.
- AccumulateBackends.AccumulatePatch: patches for one pool that go by name in one entry and by address in another are outside it, because one backend then has two identities; `MergeEffects` covers each such entry by itself.
- Faithfulness.PrimitiveReachesIff: an effective configuration with an overlay, over a file in which a backend without a name shares its address, is outside it; without an overlay `BackendPrimitiveReachesIff` covers every valid file.
- Faithfulness.RunIsFaithfulIff: the same.
- Configurator.PrimitiveIsFaithful: requires distinct addresses in each file pool and an addition unknown to the file; `PrimitiveReachesIff` is the exact condition.
- Configurator.PrimitivesRefineMutation: requires the same of every addition; `RunIsFaithfulIff` is the exact condition.
- DelayLine.Worker.Pop: the heap is modelled by what push and pop promise, not by its array; times are real numbers.
- Wire.BuildAResponse: address parsing, ASCII decoding of labels and a TTL outside 32 bits are not modelled.
- RoundMerge.MergeAtPath: numbers are integers and reals, not floats; a dictionary in the first round and an empty non-dictionary in another is treated as an error.
- RoundDocuments.MergeMedianDocuments: the note with the range of rates, the time stamp and the annotation ids are not modelled, nor is a secondary measurement that is a bare boolean.
