# Work reconciler

A Dafny model of the work controller: a hub cluster holds `Work` objects (manifests, finalizers, status), a
member cluster holds `AppliedWork` objects and the real resources, and a reconciler keeps the two in step. Each
resource on the member cluster carries an owner list and a spec-hash annotation, several works may share one
resource, and any API call may fail. `dafny verify dfyconfig.toml` checks the project.

## How it is modelled

Every operation of the controller is a method in the source's own form (loops over lists, an object edited in
place, condition lists reused on the heap, two clusters and the reconciler as classes). Each method is proved equal
to a function of the old state and of the *answers* it receives: whether each API call fails, the fields a server
fills in, the clock, the room old slices have to grow, and the steps others take in between. A theorem for all answers is therefore a theorem for all
failures and interleavings. The theorems are then proved about those functions.

| module | models |
|---|---|
| `GroupVersions`, `OwnerReferences` | parsing of API versions; owner lists: search, insert, merge, and the removal loop of the clean-up |
| `Manifests`, `WorkApi` | objects, their spec hash and last-applied annotation; the API types |
| `Spoke` | the member cluster's API and the two atomic steps on one object: apply a manifest, clean up a stale resource |
| `SpokeRuns`, `Sharing` | any interleaving of such steps by any works; several works on one manifest |
| `Conditions` | `generateWorkCondition`, with old condition lists aliased and written in place |
| `Lifecycle` | the finalizer protocol as a state machine, one API call a step; `Leave` |
| `Clusters`, `Applying`, `Syncer`, `Reconciler` | the clients; `applyManifests`; `generateDiff` and `deleteStaleManifest`; `Reconcile`, `Join`, `Leave` |
| `Tracking`, `Fixpoint`, `Convergence`, `Sessions` | theorems about one pass, about two passes in a row, about when a pass ends well, and about passes around Join and Leave |
| `Interleaving`, `Histories` | both clusters and any number of reconciles as one step machine with a joint invariant; passes inside its histories |
| `StatusOutcomes`, `Outcomes` | for every operation all it can come to, on raw fields: contents, time stamps, refusals, returned errors |

Assumptions, all of them about code that is not the controller's:

* Not-found and already-exists are reported exactly when true. Any other error may come at any call and has no
  effect. JSON marshalling does not fail.
* One object's get-then-write is one atomic step: the delete of `applied_work_syncer.go:142-143` has no
  precondition, so finer interleavings would break sole ownership. All other API calls interleave one
  by one, with optimistic concurrency by resource version.
* One work is reconciled by one worker at a time, as controller-runtime guarantees; different works are not.
* JSON text and SHA-256 digests are free constructors: equal exactly when their contents are.
* The REST mapper is a map from kinds to resources; where `Injective` is required, two kinds of one group and
  version do not share a resource.
* A patch yields the manifest's annotations and merged owner list; the server chooses the other fields.
* Others may delete anything and change unowned objects freely. On an owned object they keep the owner list and the
  hash annotation, and they do not make an object AppliedWork-owned. Users do not touch the controller's finalizer.
* Manifests do not list one owner twice (where `WellFormed` or `NoDuplicates` is required).
* For no silent loss, other works' manifests do not name this work's AppliedWork as an owner;
  `SpokeRuns.WriteOwnsExactly` shows that such a manifest makes it one.
* Works live in one namespace, and an AppliedWork has its work's name.

Where the code and its comments disagree, the model follows the code:

* `applied_work_syncer.go:40-41` says that resources whose apply failed stay tracked. They land in neither list
  (`:64-65`): `Syncer.FateOfTracked` says exactly when.
* A failed lookup in `generateDiff` ends the pass with a nil error (`apply_controller.go:143-145`):
  `Tracking.FailedLookupIsSilent`.
* Un-owning keeps the hash annotation (`applied_work_syncer.go:149-151`), so a work that drops a shared manifest
  and adds it again may see it as up to date and not become an owner: `Sharing.ReAddedManifestIsNotOwned`;
  `SpokeRuns.SuccessfulApplyOwns` gives the exact condition.
* Two manifests with one identifier share a condition list, which reports only the last outcome:
  `Conditions.SharedListHidesFailure`; `Conditions.ConditionReportsLastWriter` is the exact statement for any input.
* A list call that reports not-found makes `Leave` succeed with nothing released (`apply_controller.go:449-452`).

## Model

| member | source | states |
|---|---|---|
| GroupVersions.WorkApiVersionIsUnique | pkg/controllers/owner_reference_util.go:59-69 | only the raw spelling of the work API version parses to its group and version |
| GroupVersions.ParsesExactly | pkg/controllers/owner_reference_util.go:59-69 | an API version parses unless it has two slashes; without a slash, as in the core group, it is the bare version, and otherwise the two sides of the slash |
| OwnerReferences.SameObjectIsPartialEquivalence | pkg/controllers/owner_reference_util.go:58-70 | "same object" is symmetric and transitive, and reflexive exactly on parseable API versions |
| OwnerReferences.SameObjectExactly | pkg/controllers/owner_reference_util.go:58-70 | on the raw fields: same kind, same name, and API versions with at most one slash that agree up to a leading slash; UID and flags do not count |
| OwnerReferences.SameAsControllerRef | pkg/controllers/owner_reference_util.go:58-70 | a reference is the controller's own one for a work exactly when API version, kind and name are its raw strings |
| OwnerReferences.OwnedImpliesManaged | pkg/controllers/apply_controller.go:513-521 | what the parsed comparison calls owned by a work, the raw-string test calls managed |
| OwnerReferences.IndexOwnerRef | pkg/controllers/owner_reference_util.go:48-55 | returns the first index referring to the same object, or -1 when there is none |
| OwnerReferences.MergeOwnerReference | pkg/controllers/owner_reference_util.go:36-45 | the loop computes the merge of the two lists |
| OwnerReferences.AddFacts | pkg/controllers/owner_reference_util.go:25-33 | adding an owner keeps positions, grows the list exactly when the owner was missing, and introduces no duplicates |
| OwnerReferences.AddRepresents | pkg/controllers/owner_reference_util.go:25-33 | the owners after adding are the old ones and the new one, no others |
| OwnerReferences.MergeFacts | pkg/controllers/owner_reference_util.go:36-45 | merge keeps positions, has length between old and old plus new, and keeps a list duplicate-free |
| OwnerReferences.MergeRepresents | pkg/controllers/owner_reference_util.go:36-45 | a merged list represents exactly the union of old and new owners |
| OwnerReferences.MergeSettles | pkg/controllers/owner_reference_util.go:36-45 | for each object, the last new reference to it ends up at its first position |
| OwnerReferences.MergeKeepsVerbatim | pkg/controllers/owner_reference_util.go:36-45 | a merge takes over every new reference that parses as it is, UID and flags included |
| OwnerReferences.MergeIdempotent | pkg/controllers/owner_reference_util.go:36-45 | merging the same parseable references again changes nothing |
| OwnerReferences.SpliceOwner | pkg/controllers/applied_work_syncer.go:126-139 | the removal loop, as a loop; it reports found exactly when the owner is represented |
| OwnerReferences.SpliceMeaning | pkg/controllers/applied_work_syncer.go:126-139 | with n owners of which k match the loop yields k*(n-1) entries; it is true removal exactly when k is 1, and with k of 2 or more the owner is still there |
| OwnerReferences.SpliceWithoutDuplicates | pkg/controllers/applied_work_syncer.go:126-139 | on a duplicate-free list the loop removes exactly the one owner and is empty exactly for a sole owner |
| Manifests.Unstructured.AddOwnerRef | pkg/controllers/owner_reference_util.go:25-33 | the object keeps everything but its owner list, which gains or replaces the reference |
| Manifests.Unstructured.ComputeManifestHash | pkg/controllers/apply_controller.go:482-510 | the stripping steps, on a copy, digest the object without its own annotations, live fields and status |
| Manifests.Unstructured.SetManifestHashAnnotation | pkg/controllers/apply_controller.go:550-563 | sets the hash annotation and nothing else |
| Manifests.Unstructured.SetModifiedConfigurationAnnotation | pkg/controllers/patch_util.go:81-109 | records the object without its previous recording, and changes nothing else |
| Manifests.LastAppliedRoundTrip | pkg/controllers/patch_util.go:81-126 | reading the recording back gives the object without the annotation; recording twice changes nothing |
| Manifests.RecordingIsComplete | pkg/controllers/patch_util.go:81-109 | what is recorded is the whole object with all annotations but the recording |
| Manifests.HashStable | pkg/controllers/apply_controller.go:482-510 | neither annotation setter, nor status, nor any server-set field moves the hash |
| Manifests.HashCovers | pkg/controllers/apply_controller.go:482-510 | two hashes agree exactly when identity, owners, body and all other annotations do |
| Manifests.PreparedHash | pkg/controllers/apply_controller.go:266-267 | the hash compared and stored is the one taken after the owner was added; recording the configuration keeps it |
| Spoke.ApplyFrame | pkg/controllers/apply_controller.go:306-359 | an apply changes at most the object it reports as updated, which for a named manifest is its own target |
| Spoke.ApplyWrites | pkg/controllers/apply_controller.go:362-399 | a written object has the manifest's hash, the merged owners and the matching recording, and was managed if it existed |
| Spoke.ApplyDecision | pkg/controllers/apply_controller.go:306-359 | exactly when a named apply succeeds, when it writes, and that foreign objects are refused |
| SpokeRuns.ForeignUntouchedByStep | pkg/controllers/apply_controller.go:346-358 | no reconciler step changes or deletes an object without an AppliedWork owner |
| SpokeRuns.ForeignUntouched | pkg/controllers/applied_work_syncer.go:129-139 | the same over every run of any works' steps with any API answers |
| SpokeRuns.SoundInEveryRun | pkg/controllers/apply_controller.go:353-358 | in every reachable state each parseable reference an object's hash covers is in its owner list as covered, UID included, except that an AppliedWork stripped since the last write is not represented at all; and owner lists have no duplicates |
| SpokeRuns.WriteOwnsExactly | pkg/controllers/apply_controller.go:372-374 | after a create or patch a work is an owner exactly if it was one before, is the applying work, or is named by the manifest |
| SpokeRuns.MatchingHashOwns | pkg/controllers/apply_controller.go:353-358 | on a managed object with the manifest's hash the work's current reference, UID included, is an owner exactly unless it was stripped |
| SpokeRuns.SuccessfulApplyOwns | pkg/controllers/apply_controller.go:306-359 | a successful apply leaves the work an owner exactly unless it met its own hash on an object it had been stripped from, and then under the UID applied with, so the UID of a recreated AppliedWork replaces an old one |
| SpokeRuns.SuccessfulApplyOwnsUnlessReAdded | pkg/controllers/apply_controller.go:266-267 | in every run in which the work has not cleaned the object up before, a successful apply makes it an owner |
| SpokeRuns.CleanEffect | pkg/controllers/applied_work_syncer.go:140-156 | the exact effect of one clean-up step: delete for a sole owner, otherwise remove that owner, otherwise nothing |
| SpokeRuns.SharedObjectLifetime | pkg/controllers/applied_work_syncer.go:126-156 | over all interleavings, owner lists stay duplicate-free, a clean-up deletes only a sole owner's object and otherwise removes exactly that owner, the rest in order |
| SpokeRuns.RunKeepsTidy | pkg/controllers/owner_reference_util.go:36-45 | no run makes a managed object list an owner twice |
| SpokeRuns.CleanedIsNotOwned | pkg/controllers/applied_work_syncer.go:126-156 | a clean-up that reports no error leaves the work without ownership of the target |
| SpokeRuns.ForeignRunDoesNotOwn | pkg/controllers/apply_controller.go:117-123 | other works' steps never make a work an owner |
| Sharing.SamePreparation | pkg/controllers/apply_controller.go:266-267 | two owners prepare a manifest identically only if they are equal or it lists both already |
| Sharing.ApplyNeverShrinks | pkg/controllers/apply_controller.go:372-374 | an apply by anyone never drops or moves an owner |
| Sharing.SharingConverges | pkg/controllers/apply_controller.go:353-374 | any sequence of applies of one manifest by any works, with any failures, on a target that is absent, foreign or in agreement with its hash: failed applies change nothing, the owners become the duplicate-free union of the old ones, the manifest's and the successful writers', and an apply reports an update exactly when it succeeds and does not find its own hash |
| Sharing.SoundIsUnstripped | pkg/controllers/apply_controller.go:353-358 | every target of a sound history from which nobody was stripped is such a start |
| Sharing.ReAddedManifestIsNotOwned | pkg/controllers/applied_work_syncer.go:149-151 | the run in which a dropped and re-added shared manifest is reported applied without ownership, for every manifest without owners and all server answers |
| Conditions.FindManifestConditionByIdentifier | pkg/controllers/apply_controller.go:527-546 | finds the exact identifier first, then nothing for an ordinal-only one, then the first match up to ordinal |
| Conditions.SetStatusCondition | pkg/controllers/apply_controller.go:418 | writes through to the old list when it has the type; otherwise appends, in place if the slice has room and into a new array if not |
| Conditions.SetConditionFacts | pkg/controllers/apply_controller.go:418 | after a set the condition is the new one, its time stamp moved exactly when the status did; all other conditions stay where and as they are |
| Conditions.PlaceResult | pkg/controllers/apply_controller.go:406-421 | one result changes at most the one old list it is matched to; all other lists on the heap are framed |
| Conditions.PlaceResults | pkg/controllers/apply_controller.go:403-421 | what the aliased lists hold after all writes is the last-writer specification, and all failures are returned in order |
| Conditions.GenerateWorkAppliedCondition | pkg/controllers/apply_controller.go:612-634 | False exactly when some manifest's Applied is False, read from the heap |
| Conditions.GenerateWorkCondition | pkg/controllers/apply_controller.go:402-427 | for any results, any old status and any spare capacity of its lists, the status read back at the end is the specified one, in spite of in-place writes and appends to reused lists |
| Conditions.ConditionReportsLastWriter | pkg/controllers/apply_controller.go:406-421 | condition i has result i's identifier and reports in full the last result written to the same list, for any input |
| Conditions.WorkConditionExact | pkg/controllers/apply_controller.go:423-425 | the work's Applied is False exactly when some condition's last writer failed, and True otherwise, for the work's generation |
| Conditions.DistinctConditions | pkg/controllers/apply_controller.go:411-420 | with distinct results each list is the old one of the same resource with the outcome set |
| Conditions.StatusTruth | pkg/controllers/apply_controller.go:402-427 | with distinct results Applied of condition i is False exactly when result i failed, and the work's is True exactly when none did |
| Conditions.SharedListHidesFailure | pkg/controllers/apply_controller.go:415-419 | with one resource listed twice and an old list written in place, a failure followed by a success is published as complete success |
| StatusOutcomes.FoundExactly | pkg/controllers/apply_controller.go:527-546 | a condition list is found under f exactly when f is the first with the very identifier, or, if there is none and more than the ordinal is known, the first that agrees in all but the ordinal |
| StatusOutcomes.ConditionContent | pkg/controllers/apply_controller.go:578-608 | identifier, status, reason, message and observed generation of every condition, for any results, from the last result written to the same list |
| StatusOutcomes.WorkConditionContent | pkg/controllers/apply_controller.go:612-634 | the work has one condition, given in full: failed exactly when some list was last written by a failure |
| StatusOutcomes.StampExactly | pkg/controllers/apply_controller.go:418 | for any results and any old status, when each condition is stamped: at the last result that changed its status, or as before if none did; and for new or appended lists at their own or last write |
| StatusOutcomes.DistinctStamps | pkg/controllers/apply_controller.go:418 | with distinct results a condition is stamped now unless its matched list has an Applied condition of the same status, and then it keeps the old stamp |
| StatusOutcomes.OtherConditionsStay | pkg/controllers/apply_controller.go:411-420 | conditions of other types in a reused list stay where and as they are, whatever is written |
| StatusOutcomes.ErrorsInOrder | pkg/controllers/apply_controller.go:403-409 | the errors returned are those of the failed results, one each, in the order of the manifests |
| Lifecycle.StepKeepsSafe | pkg/controllers/apply_controller.go:201-241 | every API call, user edit and Leave update keeps: a finalized, non-deleting work has its AppliedWork, and a release is only attempted after the delete |
| Lifecycle.StepKeepsHeld | pkg/controllers/apply_controller.go:177-199 | without Leave, a reconcile that has seen or set the finalizer still finds it on the hub |
| Lifecycle.StoredIsCurrent | pkg/controllers/apply_controller.go:454-458 | a copy listed by Leave stays current, however long ago it was stored: if its version still matches, it is the stored work |
| Lifecycle.FinalizerMeansApplied | pkg/controllers/apply_controller.go:202-241 | over every interleaved run with any failures, and Leave at any moment working from copies stored at any earlier moment, a finalized non-deleting work has its AppliedWork |
| Lifecycle.ApplyingOnlyWhenPersisted | pkg/controllers/apply_controller.go:112-126 | in every run without Leave, manifests are applied only while finalizer and AppliedWork are both stored |
| Lifecycle.AppliesOnlyAfterBothStored | pkg/controllers/apply_controller.go:112-126 | in every run, Leave at any moment included, a reconcile that applies manifests has had, at one earlier moment of its own, finalizer and AppliedWork both stored |
| Lifecycle.ReleasedOnlyAfterDeletion | pkg/controllers/apply_controller.go:177-199 | in every run without Leave, only the reconciler's release takes the finalizer off, of a deleting work whose AppliedWork is gone |
| Lifecycle.EnsureIsRun | pkg/controllers/apply_controller.go:202-241 | ensureAppliedWork, run alone, is a run of that machine and succeeds exactly when it ends in the applying phase |
| Lifecycle.CollectIsRun | pkg/controllers/apply_controller.go:177-199 | garbageCollectAppliedWork, run alone, is a run of that machine |
| Lifecycle.LeaveCleansPrefix | pkg/controllers/apply_controller.go:454-464 | Leave releases exactly a prefix of the listed works, all of them exactly on success, stops only at a failed update whose error it returns, and touches no other work |
| Applying.IsManifestManagedByWork | pkg/controllers/apply_controller.go:513-521 | true exactly when some owner has the AppliedWork API version and kind |
| Applying.CreateManifest | pkg/controllers/apply_controller.go:317-329 | the create closure: record, then create |
| Applying.PatchCurrentResource | pkg/controllers/apply_controller.go:362-399 | merge owners, record, refuse without a recorded original, patch |
| Applying.ApplyUnstructured | pkg/controllers/apply_controller.go:306-359 | the branching of one apply, and how many write requests it issues |
| Applying.ApplyNext | pkg/controllers/apply_controller.go:249-284 | one manifest: identifier, generation, updated flag and error of its result |
| Applying.ApplyManifests | pkg/controllers/apply_controller.go:244-287 | the loop yields one result per manifest with arbitrary steps of others in between |
| Applying.TargetsAreIndependent | pkg/controllers/apply_controller.go:248-285 | after the first k manifests each target is as its own manifest alone leaves it, or untouched |
| Applying.OutcomesAreIndependent | pkg/controllers/apply_controller.go:248-285 | each result is the one the manifest would have alone from the starting state |
| Applying.ManifestsAreIndependent | pkg/controllers/apply_controller.go:244-287 | both together, with result i under ordinal i: one failure affects no other manifest |
| Applying.OrderDoesNotMatter | pkg/controllers/apply_controller.go:244-287 | the final cluster state is the same for every order of the manifests |
| Syncer.GenerateDiff | pkg/controllers/applied_work_syncer.go:37-103 | the nested loops compute the stale entries and the new list, or the first failed lookup |
| Syncer.AddEntry | pkg/controllers/applied_work_syncer.go:57-101 | one condition's entry: carried UID when tracked, looked-up UID when not, nothing when the object is gone |
| Syncer.CleanNext | pkg/controllers/applied_work_syncer.go:108-157 | one stale resource is gone, un-owned, left alone, or reported as an error |
| Syncer.DeleteStaleManifest | pkg/controllers/applied_work_syncer.go:105-159 | the loop goes on after errors and collects them all |
| Syncer.StaleExactly | pkg/controllers/applied_work_syncer.go:42-55 | stale is exactly the tracked entries that match no condition |
| Syncer.NewExactly | pkg/controllers/applied_work_syncer.go:57-101 | new is exactly the applied conditions that are tracked or exist, tracked UIDs carried |
| Syncer.DiffOnSnapshot | pkg/controllers/applied_work_syncer.go:57-102 | on one snapshot a successful diff is the declarative one, and it succeeds unless a lookup fails |
| Syncer.NewAndStaleAreDisjoint | pkg/controllers/applied_work_syncer.go:42-102 | a kept and a stale entry never name the same resource |
| Syncer.DiffIsIdempotent | pkg/controllers/applied_work_syncer.go:37-103 | with the new list as the tracked one the entries stay the same and nothing is stale |
| Syncer.DiffAgain | pkg/controllers/applied_work_syncer.go:37-103 | a second call on its own list, without faults, succeeds with the same list and nothing stale |
| Syncer.DiffCollects | pkg/controllers/applied_work_syncer.go:57-101 | with any interference, what a successful diff keeps is every tracked resource reported applied and only resources reported applied, each named or tracked before |
| Syncer.FateOfTracked | pkg/controllers/applied_work_syncer.go:40-65 | with any interference a tracked resource is kept exactly when reported applied and stale exactly when not reported at all |
| Syncer.CleanedAreNotOwned | pkg/controllers/applied_work_syncer.go:105-159 | after a clean-up without errors none of the stale targets is owned by the work, whatever other works did meanwhile |
| Syncer.CleanTouchesOnlyStale | pkg/controllers/applied_work_syncer.go:105-159 | clean-up changes only targets of stale entries |
| Reconciler.ApplyWorkReconciler.EnsureAppliedWork | pkg/controllers/apply_controller.go:202-241 | create before finalizer, with the unread local copy after an already-exists |
| Reconciler.ApplyWorkReconciler.GarbageCollectAppliedWork | pkg/controllers/apply_controller.go:177-199 | delete before release; no release after a failed delete |
| Reconciler.ApplyWorkReconciler.SyncWork | pkg/controllers/apply_controller.go:117-173 | apply, publish, diff, clean up, commit, with every early return |
| Reconciler.ApplyWorkReconciler.Reconcile | pkg/controllers/apply_controller.go:86-174 | the whole pass on both clusters, with requeue time and errors, as the function the theorems are about |
| Reconciler.ApplyWorkReconciler.Join | pkg/controllers/apply_controller.go:430-436 | the reconciler is joined afterwards |
| Reconciler.ApplyWorkReconciler.Leave | pkg/controllers/apply_controller.go:439-468 | not joined afterwards whatever fails; the hub is as after releasing the listed works, the member cluster is not touched |
| Tracking.PassIsRun | pkg/controllers/apply_controller.go:86-174 | whatever the API answers, a pass is a run of its own work's applies and clean-ups and the others' steps in between |
| Tracking.PassLeavesForeignAlone | pkg/controllers/apply_controller.go:346-351 | a pass, interleaved with any others, changes no object without an AppliedWork owner |
| Tracking.WritesOnlyWhenPersisted | pkg/controllers/apply_controller.go:107-126 | whatever others do in between, a pass issues a write on a manifest object or takes any step on one only if AppliedWork and finalizer are stored and the work is not being deleted |
| Tracking.PublishedStatusIsTrue | pkg/controllers/apply_controller.go:126-135 | once the status update is accepted the hub says of each manifest whether it applies alone, whatever fails later; if it is refused nothing is cleaned up or committed |
| Tracking.NoSilentLoss | pkg/controllers/apply_controller.go:142-163 | a committing pass accounts for every formerly tracked resource: tracked exactly if reported applied, un-owned if not reported; any other pass leaves the list unchanged |
| Tracking.FailedRemovalKeepsTracking | pkg/controllers/apply_controller.go:148-151 | a commit implies that no stale removal failed; failed removals are exactly what the pass returns, without the periodic requeue, and no AppliedWork changes |
| Tracking.FailedLookupIsSilent | pkg/controllers/apply_controller.go:142-146 | once the status is published, a pass ends uncommitted, without requeue and without an error, exactly when a lookup failed |
| Tracking.GeneratedNameNeverCommits | pkg/controllers/applied_work_syncer.go:79-94 | a work with a generated-name manifest that its status reports applied cleans nothing up, commits nothing, asks for no requeue and reports no error, in every pass |
| Sessions.JoinedUntilLeave | pkg/controllers/apply_controller.go:430-444 | after any turns the reconciler is joined exactly if a Join has no Leave after it, or it was joined and there was no Leave |
| Sessions.NothingHappensAfterLeave | pkg/controllers/apply_controller.go:86-90 | after a Leave, successful or not, and before the next Join, a reconcile returns the five-second requeue and changes neither cluster |
| Tracking.StaleTargetsAreNotApplied | pkg/controllers/applied_work_syncer.go:162-165 | with an injective mapper no stale entry names the target of a manifest of this pass |
| Tracking.CleanupNeverUndoesApply | pkg/controllers/apply_controller.go:126-148 | what a pass applied is not touched by the same pass's clean-up |
| Tracking.PublishedIsDetermined | pkg/controllers/apply_controller.go:566-576 | every status a pass publishes meets the condition under which diffs are idempotent |
| Tracking.PassKeepsWellTracked | pkg/controllers/applied_work_syncer.go:57-102 | tracked entries carry the resource name the mapper gives their kind, through any pass, for every work |
| Fixpoint.GoodPassSettles | pkg/controllers/apply_controller.go:86-174 | a pass with the periodic requeue and no error leaves objects, status and tracking in agreement, from any previous state |
| Fixpoint.SettledDiff | pkg/controllers/applied_work_syncer.go:42-78 | on a settled work the diff after any reordering permutes the entries with their UIDs and finds nothing stale |
| Fixpoint.HistoryFollowsResource | pkg/controllers/apply_controller.go:534-544 | a condition's time stamp follows its resource to its new ordinal |
| Fixpoint.SettledPassOnlyRenumbers | pkg/controllers/apply_controller.go:353-358 | on a settled work a calm pass after any reordering writes no object and only renumbers |
| Fixpoint.PassReachesFixpoint | pkg/controllers/apply_controller.go:86-174 | after a good pass a calm one issues no write on manifest objects, finds nothing stale, and keeps tracking and time stamps |
| Fixpoint.ReorderingIsHarmless | pkg/controllers/applied_work_syncer_integration_test.go:279-321 | permuting the manifests after a good pass triggers no operation on the member cluster, and resources, UIDs and time stamps appear in the new order |
| Convergence.ApplyPhaseExactly | pkg/controllers/apply_controller.go:244-287 | without faults the apply phase reports no error exactly when, before it, every manifest decodes, is mapped and named, and has a target that is absent, or managed with its own hash or a recorded original |
| Convergence.GoodPassExactly | pkg/controllers/apply_controller.go:86-174 | a pass in which no call fails ends with the periodic requeue and no error exactly when that holds and the work has the finalizer or no AppliedWork yet |
| Convergence.SecondPassIsGood | pkg/controllers/apply_controller.go:220-240 | two faultless passes are enough: an interruption between creating the AppliedWork and setting the finalizer, after which the local copy has no UID, heals with the second |
| Tracking.PassKeepsManifests | pkg/controllers/apply_controller.go:86-174 | a pass never changes what any work asks for |
| Interleaving.StartFits | pkg/controllers/apply_controller.go:64-75 | a hub without finalizers and a cluster without owned objects or AppliedWorks meet the joint invariant |
| Interleaving.MoveRefines | pkg/controllers/apply_controller.go:86-174 | each move of the joint machine is at most one step of the finalizer protocol together with at most one atomic step on one object |
| Interleaving.InvInEveryRun | pkg/controllers/apply_controller.go:471-478 | in every interleaved run of any works' reconciles, users, outsiders, Join and Leave: the protocol is safe, hash and ownership agree, local copies are current or outdated but never wrong, and what each reconcile has collected and released so far is right |
| Interleaving.WritesOnlyWhenBothStored | pkg/controllers/apply_controller.go:112-126 | in every interleaved run without Leave, AppliedWork and finalizer are stored at the moment a manifest is applied or a resource cleaned up |
| Interleaving.WritesOnlyAfterBothStored | pkg/controllers/apply_controller.go:112-126 | in every interleaved run, Leave at any moment included: when a manifest is applied or a resource cleaned up the AppliedWork is stored, and at one earlier moment since this reconcile began to rely on them AppliedWork and finalizer were stored together |
| Interleaving.WriterHasAppliedWork | pkg/controllers/apply_controller.go:112-126 | in any state with the joint invariant, a reconcile that takes a step on an object has its AppliedWork stored |
| Interleaving.DeletesOnlySolelyOwned | pkg/controllers/applied_work_syncer.go:140-147 | in every interleaved run a reconcile deletes an object only when its work is the sole owner |
| Interleaving.OnlyCommitsTrack | pkg/controllers/apply_controller.go:160-161 | only the last stage of its own reconcile changes what an AppliedWork tracks, and only the collection of its deleted work removes it |
| Interleaving.ReportedIsPublished | pkg/controllers/apply_controller.go:131-135 | the copy of the work a reconcile goes by after publishing is one the hub has held |
| Interleaving.NoSilentLossInEveryRun | pkg/controllers/apply_controller.go:142-163 | in every interleaved run, a commit accounts for everything formerly tracked by a status the hub has held: kept exactly if reported applied there, un-owned at that moment if not reported |
| Interleaving.RunningReconcilesOnlyEnd | pkg/controllers/apply_controller.go:86-90 | across a Leave, until the next Join, a work whose reconcile has ended at the Leave or after it gets no other one, and no step of one does anything |
| Histories.PassIsMoves | pkg/controllers/apply_controller.go:86-174 | a pass that nobody disturbs is a run of the joint machine, whatever the API answers |
| Histories.LeaveIsMoves | pkg/controllers/apply_controller.go:439-468 | a Leave that nobody disturbs is a run of the joint machine, after each of its updates, with the rest of its list still to do unless an update failed |
| Histories.ListedExactly | pkg/controllers/apply_controller.go:449-453 | what Leave lists is every work once, as it is stored, when it gets every name once |
| Histories.GoodPassOwns | pkg/controllers/apply_controller.go:266-267 | after a good pass from a sound history the work owns the target of each of its manifests exactly unless it had been stripped from it without a write since |
| Histories.FixpointInEveryRun | pkg/controllers/apply_controller.go:86-174 | after any interleaved run, a good pass leaves nothing for the next calm one to do and leaves the work owning every target it had not dropped before |
| Histories.ConvergesFromEveryRun | pkg/controllers/apply_controller.go:86-174 | from every reachable state of the joint machine, with manifests that can be applied, two faultless passes settle the work and a third changes nothing |
| Outcomes.ForeignSurvivesRun | pkg/controllers/apply_controller.go:346-351 | an object none of whose owners has both the work API version and the AppliedWork kind is the same after every run of steps by any works |
| Outcomes.ForeignSurvivesPass | pkg/controllers/apply_controller.go:513-521 | the same for any pass, interleaved with other reconciles |
| Outcomes.DecodesExactly | pkg/controllers/apply_controller.go:290-303 | what a manifest decodes to, from the text of its API version and the mapper, including the errors |
| Outcomes.CoreKindDecodes | pkg/controllers/apply_controller.go:290-303 | a core-group manifest decodes to the resource its bare version and kind are mapped to |
| Outcomes.IdentifiedExactly | pkg/controllers/apply_controller.go:252-268 | each result is reported under the manifest's ordinal and whatever is known: all of it, all but the resource, or nothing else |
| Outcomes.NamedApplyOutcome | pkg/controllers/apply_controller.go:306-359 | for every case of a named apply the result, the error, whether anything is written and that nothing else is: an object without an AppliedWork owner is refused, and one such owner is enough not to be |
| Outcomes.NamelessApplyOutcome | pkg/controllers/apply_controller.go:331-335 | a manifest with a generated name creates an object under the name the server chose, and one with no name at all is refused |
| Outcomes.WrittenFields | pkg/controllers/apply_controller.go:362-399 | a written object has every annotation of the manifest, and a patched one keeps its identity |
| Outcomes.ResultFields | pkg/controllers/apply_controller.go:249-284 | the error, the generation and the update flag recorded for a manifest, decoded or not |
| Outcomes.WriteListsReference | pkg/controllers/apply_controller.go:117-123 | whatever object a work's apply changed lists a reference with its API version, kind, name and UID that does not block deletion |
| Outcomes.GoodPassListsReference | pkg/controllers/apply_controller.go:117-123 | after a good pass so does the target of each manifest the work had not been stripped from, with the UID of the stored AppliedWork |
| Outcomes.CleanOutcomes | pkg/controllers/applied_work_syncer.go:108-157 | for every case of one clean-up the error and the objects afterwards, from the raw owner list: deleted for a sole owner, otherwise exactly that entry taken out |
| Outcomes.StaleOfOne | pkg/controllers/applied_work_syncer.go:42-55 | a tracked entry is stale exactly when no condition has its group, version, kind, namespace and name; ordinal and resource do not count |
| Outcomes.StaleInOrder | pkg/controllers/applied_work_syncer.go:42-55 | stale entries come in the order in which they are tracked |
| Outcomes.EntryOutcome | pkg/controllers/applied_work_syncer.go:57-101 | for every condition the entry it yields, with the UID of the first tracked entry or of the live object, or the lookup's error |
| Outcomes.EnsureOutcome | pkg/controllers/apply_controller.go:202-241 | for every case of ensureAppliedWork the result and both clusters afterwards; the finalizer goes behind the other ones, which are kept |
| Outcomes.CollectOutcome | pkg/controllers/apply_controller.go:177-199 | a failed delete or update is returned with the work left as it was; otherwise the AppliedWork is gone and the finalizer, and only it, is off |
| Outcomes.LeaveOutcome | pkg/controllers/apply_controller.go:454-464 | a work that Leave got to is as listed without this finalizer, or gone if that was the last one of a deleted work |
| Outcomes.EarlyPass | pkg/controllers/apply_controller.go:86-102 | when not joined, when the work cannot be fetched and when it is gone, a pass does nothing and returns what it should |
| Outcomes.DeletedPass | pkg/controllers/apply_controller.go:107-110 | on a deleted, finalized work a joined pass reports no error exactly when the finalizer is off afterwards, and otherwise the error of the call that failed |
| Outcomes.ReleasedPass | pkg/controllers/apply_controller.go:179-181 | a pass on a deleted work without the finalizer changes nothing |
| Outcomes.UnensuredPass | pkg/controllers/apply_controller.go:112-116 | a pass whose ensureAppliedWork fails returns the failed call's error and touches no object |
| Outcomes.PassReports | pkg/controllers/apply_controller.go:131-173 | what a pass on a work with both records returns, for any failures: the status update's refusal, nothing after a failed lookup, the clean-up's errors, the commit's refusal, or the manifests' errors with the five-minute requeue |
| Outcomes.SyncReports | pkg/controllers/apply_controller.go:131-173 | the same after any ensureAppliedWork, with the conflict and not-found answers, and what is tracked afterwards |
| Outcomes.CleanErrorsInOrder | pkg/controllers/applied_work_syncer.go:105-159 | each clean-up step adds its error behind those before it and goes on |
| Outcomes.PublishedHeader | pkg/controllers/apply_controller.go:423-425 | an accepted status has one condition for the work's generation, and one list per manifest under its identifier |
| Outcomes.RefusalIsPublished | pkg/controllers/apply_controller.go:126-135 | end to end: a manifest aimed at an object without an AppliedWork owner ends in a False condition on the hub that says why, and fails the work |

## Left out

Statements that are narrower than the sentence a reader might expect:

- Applying.ManifestsAreIndependent: for manifests with distinct targets and no generated names, with nobody else acting during the loop; with a generated name every pass creates a fresh object (the branch is modelled, `apply_controller.go:332-335`) and never commits (Tracking.GeneratedNameNeverCommits).
- Conditions.StatusTruth: needs results that are distinct up to ordinal; what holds for all inputs is Conditions.ConditionReportsLastWriter and Conditions.WorkConditionExact.
- OwnerReferences.MergeOwnerReference: owner lists are sequence values; the getters of unstructured objects return fresh slices, so the in-place element writes of the source are not visible elsewhere.
- OwnerReferences.MergeIdempotent: for parseable references; an unparseable one is appended every time.
- SpokeRuns.SuccessfulApplyOwnsUnlessReAdded: excludes runs in which the work has cleaned the same object up before, because of Sharing.ReAddedManifestIsNotOwned.
- SpokeRuns.SharedObjectLifetime: relies on the atomic get-then-write of one object; interleaving between the two calls is not modelled.
- Lifecycle.FinalizerMeansApplied: nobody outside the controller deletes AppliedWorks.
- Tracking.NoSilentLoss: within one pass the hub changes only through that pass; Interleaving.NoSilentLossInEveryRun has no such limit. Both exclude other works' manifests that name this work's AppliedWork as an owner.
- Interleaving.WritesOnlyWhenBothStored: runs without Leave, which takes finalizers off works that are being reconciled; what holds with Leave is Interleaving.WritesOnlyAfterBothStored.
- Lifecycle.ApplyingOnlyWhenPersisted: the same, with Lifecycle.AppliesOnlyAfterBothStored.
- Sessions.NothingHappensAfterLeave: whole passes; for reconciles running across the Leave see Interleaving.RunningReconcilesOnlyEnd.
- Convergence.GoodPassExactly: manifests with the same target are excluded, as the second one then meets what the first one wrote.
- Histories.PassIsMoves: a pass disturbed between its steps is a run of the machine only as far as the disturbances are moves of it; the statement is for undisturbed passes.
- Outcomes.CleanOutcomes: owner lists in which the work is at most once, as SpokeRuns.RunKeepsTidy keeps them; for others see OwnerReferences.SpliceMeaning.
- Outcomes.GoodPassListsReference: passes that nobody disturbs, as in Histories.GoodPassOwns.
- Outcomes.RefusalIsPublished: manifests with distinct targets and identifiers, nobody else acting during the apply phase.
- Fixpoint.PassReachesFixpoint: for manifests with distinct targets and no generated names, nobody else acting during either pass, and a second pass in which no call fails; that pass still issues its two status updates.

What the model does not have:

- The merge algorithms behind `threeWayMergePatch` (`patch_util.go:28-76`); only the contract above, the missing-original error, and an arbitrary failure.
- Kubernetes' garbage collector, and finalizers of the manifest objects: a delete removes an object at once.
- The distinction between request failures before and after the server has acted; a failed call has no effect.
- Stale informer caches, and one stored object visible under two API versions.
- Events, logging, real time, requeue scheduling and retries, manager wiring, flags, and Helm and YAML files.
- JSON syntax, SHA-256 internals and REST discovery.
- Generated deep copy and registration code.
