/**
 A pass that ends well settles its work: the next one, on the undisturbed clusters, writes
 nothing, even when the manifests have been reordered in between.
 */
module Fixpoint {
  import opened Wrappers
  import opened OwnerReferences
  import opened Manifests
  import opened WorkApi
  import opened Spoke
  import opened SpokeRuns
  import opened Conditions
  import opened Lifecycle
  import opened Applying
  import opened Syncer
  import opened Reconciler
  import opened Tracking

  /** The live object is managed and carries the hash this manifest would be applied with. */
  predicate UpToDate(objs: Objects, mapper: RestMapper, m: Manifest, owner: OwnerRef) {
    match Decode(mapper, m)
    case Bad(_, _) => false
    case Good(gvr, o) =>
      var t := TargetOf(gvr, o);
      && !HasGeneratedName(o) && o.name != ""
      && Managed(objs, t)
      && Annotation(objs[t], MANIFEST_HASH) == Some(ManifestHash(WithOwner(o, owner)))
  }

  // ---------------------------------------------------------------------------------
  // After a pass without errors.
  // ---------------------------------------------------------------------------------

  /** A successful apply of a named manifest leaves it up to date. */
  lemma SuccessIsUpToDate(objs: Objects, mapper: RestMapper, index: nat, m: Manifest, name: string, uid: string,
      answer: ApplyAnswer)
    requires Named(mapper, m)
    requires !Failed(ApplyOne(objs, mapper, index, m, ControllerRef(name, uid), answer).result)
    ensures UpToDate(ApplyOne(objs, mapper, index, m, ControllerRef(name, uid), answer).objs, mapper, m,
            ControllerRef(name, uid))
  {
    hide ApplyPrepared, Prepared, ManifestHash;
    match Decode(mapper, m)
    case Bad(_, _) =>
    case Good(gvr, o) =>
      var owner := ControllerRef(name, uid);
      var out := ApplyManifest(objs, gvr, o, owner, answer);
      ApplyFrame(objs, gvr, o, owner, answer);
      ApplyDecision(objs, gvr, o, owner, answer);
      SuccessIsNamed(objs, gvr, o, owner, answer);
      if out.updated {
        ApplyWrites(objs, gvr, o, owner, answer);
        WriteOwnsExactly(objs, Apply(gvr, o, name, uid, answer), name);
        OwnsImpliesManaged(out.objs, TargetOf(gvr, o), name, "");
      }
  }

  lemma SuccessIsNamed(objs: Objects, gvr: Gvr, o: Obj, owner: OwnerRef, answer: ApplyAnswer)
    requires !HasGeneratedName(o) && ApplyManifest(objs, gvr, o, owner, answer).result.Ok?
    ensures o.name != ""
  {
  }

  lemma UpToDateIsLocal(a: Objects, b: Objects, mapper: RestMapper, m: Manifest, owner: OwnerRef)
    requires UpToDate(a, mapper, m, owner)
    requires ManifestTarget(mapper, m).Some? && SameAt(a, b, ManifestTarget(mapper, m).value)
    ensures UpToDate(b, mapper, m, owner)
  {
    hide GvkOf, ManifestHash;
  }

  lemma {:induction false} NoErrorsNoFailures(results: seq<ApplyResult>, i: nat)
    requires Errors(results) == [] && i < |results|
    ensures !Failed(results[i])
    decreases |results|
  {
    var n := |results| - 1;
    if i < n {
      NoErrorsNoFailures(results[..n], i);
    }
  }

  lemma {:induction false} NoFailuresNoErrors(results: seq<ApplyResult>)
    requires forall i :: 0 <= i < |results| ==> !Failed(results[i])
    ensures Errors(results) == []
    decreases |results|
  {
    if results != [] {
      NoFailuresNoErrors(results[..|results| - 1]);
    }
  }

  /** After a successful apply phase every manifest is up to date. */
  lemma AllUpToDate(objs: Objects, mapper: RestMapper, ms: seq<Manifest>, name: string, uid: string,
      answers: ApplyAnswers, i: nat)
    requires DistinctTargets(mapper, ms) && Undisturbed(answers.before) && i < |ms|
    requires Errors(ApplyAll(objs, mapper, ms, ControllerRef(name, uid), answers).results) == []
    ensures UpToDate(ApplyAll(objs, mapper, ms, ControllerRef(name, uid), answers).objs, mapper, ms[i],
            ControllerRef(name, uid))
  {
    hide ApplyOne, ApplyUpTo, UpToDate, IdentifierOf, Named, ManifestTarget, Decode;
    var owner := ControllerRef(name, uid);
    var out := ApplyAll(objs, mapper, ms, owner, answers);
    NoErrorsNoFailures(out.results, i);
    OutcomesAreIndependent(objs, mapper, ms, owner, answers, |ms|, i);
    var alone := ApplyOne(objs, mapper, i, ms[i], owner, answers.answer(i));
    SuccessIsUpToDate(objs, mapper, i, ms[i], name, uid, answers.answer(i));
    UpToDateHasTarget(alone.objs, mapper, ms[i], owner);
    var t := ManifestTarget(mapper, ms[i]).value;
    TargetsAreIndependent(objs, mapper, ms, owner, answers, |ms|, t);
    assert SameAt(out.objs, alone.objs, t);
    UpToDateIsLocal(alone.objs, out.objs, mapper, ms[i], owner);
  }

  lemma UpToDateHasTarget(objs: Objects, mapper: RestMapper, m: Manifest, owner: OwnerRef)
    requires UpToDate(objs, mapper, m, owner)
    ensures ManifestTarget(mapper, m).Some? && ManifestTarget(mapper, m).value in objs
            && ManifestTarget(mapper, m).value.name != ""
    ensures Decode(mapper, m).Good?
  {
    hide GvkOf, ManifestHash;
  }

  // ---------------------------------------------------------------------------------
  // Identifiers of manifests with distinct targets.
  // ---------------------------------------------------------------------------------

  /** Identifiers of decoded manifests tell them apart, with or without the resource name. */
  lemma IdentifiersAreDistinct(mapper: RestMapper, ms: seq<Manifest>, i: nat, j: nat, a: nat, b: nat)
    requires DistinctTargets(mapper, ms) && i < |ms| && j < |ms|
    requires Decode(mapper, ms[i]).Good? && Decode(mapper, ms[j]).Good?
    ensures SameResource(IdentifierOf(mapper, a, ms[i]), IdentifierOf(mapper, b, ms[j])) <==> i == j
    ensures Unordered(IdentifierOf(mapper, a, ms[i])) == Unordered(IdentifierOf(mapper, b, ms[j])) <==> i == j
  {
    hide GvkOf, Named;
    var x, y := IdentifierOf(mapper, a, ms[i]), IdentifierOf(mapper, b, ms[j]);
    IdentifierIsMapped(mapper, a, ms[i]);
    IdentifierIsMapped(mapper, b, ms[j]);
    if SameResource(x, y) {
      assert TargetOfId(x) == TargetOfId(y);
    }
  }

  /** The results of such manifests are distinct in the sense the status needs. */
  lemma ResultsAreDistinct(objs: Objects, mapper: RestMapper, ms: seq<Manifest>, owner: OwnerRef, answers: ApplyAnswers)
    requires DistinctTargets(mapper, ms)
    requires forall i :: 0 <= i < |ms| ==> Decode(mapper, ms[i]).Good?
    ensures DistinctResults(ApplyAll(objs, mapper, ms, owner, answers).results)
  {
    hide ApplyUpTo, IdentifierOf, Named, ManifestTarget, Decode;
    var results := ApplyAll(objs, mapper, ms, owner, answers).results;
    forall i, j | 0 <= i < j < |results|
      ensures results[i].identifier != results[j].identifier
      ensures Unordered(results[i].identifier) != Unordered(results[j].identifier)
    {
      SuccessIsMapped(objs, mapper, ms, owner, answers, |ms|, i);
      SuccessIsMapped(objs, mapper, ms, owner, answers, |ms|, j);
      IdentifiersAreDistinct(mapper, ms, i, j, i, j);
    }
  }

  // ---------------------------------------------------------------------------------
  // What a settled work looks like.
  // ---------------------------------------------------------------------------------

  predicate SettledTracking(mapper: RestMapper, ms: seq<Manifest>, tracked: seq<AppliedResource>) {
    |tracked| == |ms| && forall i :: 0 <= i < |ms| ==> tracked[i].identifier == IdentifierOf(mapper, i, ms[i])
  }

  predicate SettledConditions(mapper: RestMapper, ms: seq<Manifest>, conds: seq<ManifestCondition>) {
    && |conds| == |ms|
    && forall i :: 0 <= i < |ms| ==>
         conds[i].identifier == IdentifierOf(mapper, i, ms[i]) && AppliedIs(conds[i].conditions, True)
  }

  predicate SettledObjects(objs: Objects, mapper: RestMapper, ms: seq<Manifest>, owner: OwnerRef) {
    forall i :: 0 <= i < |ms| ==> UpToDate(objs, mapper, ms[i], owner)
  }

  /** Tracking, conditions, objects and versions agree on a work that is not going away. */
  predicate Settled(w: World, mapper: RestMapper, name: string) {
    && name in w.hub.works && name in w.registry.applied
    && var work, applied := w.hub.works[name], w.registry.applied[name];
       && HasFinalizer(work) && !work.deleting
       && applied.resourceVersion != 0
       && DistinctTargets(mapper, work.manifests)
       && SettledTracking(mapper, work.manifests, applied.tracked)
       && SettledConditions(mapper, work.manifests, work.status.manifestConditions)
       && SettledObjects(w.objs, mapper, work.manifests, ControllerRef(name, applied.uid))
  }

  lemma StatusIsSettled(w: World, mapper: RestMapper, name: string, work: Work, local: AppliedWork,
      answers: PassAnswers)
    requires DistinctTargets(mapper, work.manifests)
    requires var results := ApplyAll(w.objs, mapper, work.manifests, ControllerRef(name, local.uid),
             answers.apply).results;
             forall i :: 0 <= i < |results| ==> !Failed(results[i])
    ensures SettledConditions(mapper, work.manifests,
            StatusAfter(w, mapper, name, work, local, answers).manifestConditions)
    ensures forall i :: 0 <= i < |work.manifests| ==> Decode(mapper, work.manifests[i]).Good?
  {
    hide ApplyUpTo, IdentifierOf, Decode, FinalConditions, AppliedIs, ManifestTarget, Named;
    var owner := ControllerRef(name, local.uid);
    var ms := work.manifests;
    var results := ApplyAll(w.objs, mapper, ms, owner, answers.apply).results;
    forall i | 0 <= i < |ms|
      ensures Decode(mapper, ms[i]).Good? && results[i].identifier == IdentifierOf(mapper, i, ms[i])
    {
      SuccessIsMapped(w.objs, mapper, ms, owner, answers.apply, |ms|, i);
    }
    ResultsAreDistinct(w.objs, mapper, ms, owner, answers.apply);
    StatusTruth(results, work.status, work.generation, answers.env);
  }

  lemma SnapshotEntryExists(objs: Objects, c: ManifestCondition, tracked: seq<AppliedResource>)
    requires AppliedIs(c.conditions, True) && TargetOfId(c.identifier) in objs
    ensures SnapshotEntry(objs, c, tracked).Some? && SnapshotEntry(objs, c, tracked).value.identifier == c.identifier
  {
    hide AppliedIs, TrackedAt;
  }

  /** The new list has an entry for every applied condition whose object is there. */
  lemma {:induction false} FullSnapshot(objs: Objects, conds: seq<ManifestCondition>, tracked: seq<AppliedResource>,
      k: nat)
    requires k <= |conds|
    requires forall i :: 0 <= i < |conds| ==>
               AppliedIs(conds[i].conditions, True) && TargetOfId(conds[i].identifier) in objs
    ensures var new' := SnapshotNew(objs, conds, tracked, k);
            |new'| == k && forall i :: 0 <= i < k ==> Some(new'[i]) == SnapshotEntry(objs, conds[i], tracked)
  {
    hide AppliedIs, TrackedAt, SnapshotEntry;
    if k > 0 {
      SnapshotEntryExists(objs, conds[k - 1], tracked);
      FullSnapshot(objs, conds, tracked, k - 1);
    }
  }

  /** After a sync without errors, clean-up included, every manifest is still up to date. */
  lemma SyncLeavesUpToDate(w: World, mapper: RestMapper, name: string, work: Work, local: AppliedWork,
      answers: PassAnswers, diffed: Objects, i: nat)
    requires Injective(mapper) && WellTracked(mapper, local.tracked) && DistinctTargets(mapper, work.manifests)
    requires Undisturbed(answers.apply.before) && Undisturbed(answers.clean.before)
    requires i < |work.manifests|
    requires var applied := ApplyAll(w.objs, mapper, work.manifests, ControllerRef(name, local.uid), answers.apply);
             Errors(applied.results) == [] && diffed == applied.objs
    ensures var conds := StatusAfter(w, mapper, name, work, local, answers).manifestConditions;
            && TargetOfId(IdentifierOf(mapper, i, work.manifests[i])) in diffed
            && UpToDate(CleanAll(diffed, StaleOf(local.tracked, conds), ControllerRef(name, local.uid),
              answers.clean).objs,
                        mapper, work.manifests[i], ControllerRef(name, local.uid))
  {
    hide ApplyUpTo, CleanUpTo, StatusAfter, StaleOf, UpToDate, IdentifierOf, Decode, ManifestTarget, DistinctTargets,
      Injective, WellTracked, Undisturbed, Errors;
    var ms, owner := work.manifests, ControllerRef(name, local.uid);
    var conds := StatusAfter(w, mapper, name, work, local, answers).manifestConditions;
    AllUpToDate(w.objs, mapper, ms, name, local.uid, answers.apply, i);
    UpToDateHasTarget(diffed, mapper, ms[i], owner);
    IdentifierIsMapped(mapper, i, ms[i]);
    CleanupNeverUndoesApply(w, mapper, name, work, local, answers, i);
    var after := CleanAll(diffed, StaleOf(local.tracked, conds), owner, answers.clean).objs;
    assert SameAt(after, diffed, ManifestTarget(mapper, ms[i]).value);
    UpToDateIsLocal(diffed, after, mapper, ms[i], owner);
  }

  /** When every condition says applied and its object is there, the new list has them all, in order. */
  lemma DiffSettlesTracking(objs: Objects, mapper: RestMapper, ms: seq<Manifest>, conds: seq<ManifestCondition>,
      tracked: seq<AppliedResource>, answers: DiffAnswers)
    requires SettledConditions(mapper, ms, conds) && Undisturbed(answers.before)
    requires forall i :: 0 <= i < |ms| ==> TargetOfId(IdentifierOf(mapper, i, ms[i])) in objs
    requires Diff(objs, conds, tracked, answers).result.Ok?
    ensures Diff(objs, conds, tracked, answers).objs == objs
    ensures SettledTracking(mapper, ms, Diff(objs, conds, tracked, answers).result.value)
  {
    hide NewUpTo, IdentifierOf, AppliedIs, SnapshotEntry, SnapshotNew, Undisturbed;
    DiffOnSnapshot(objs, conds, tracked, answers, |conds|);
    FullSnapshot(objs, conds, tracked, |conds|);
    var new' := SnapshotNew(objs, conds, tracked, |conds|);
    forall i | 0 <= i < |ms| ensures new'[i].identifier == IdentifierOf(mapper, i, ms[i]) {
      SnapshotEntryExists(objs, conds[i], tracked);
      assert Some(new'[i]) == SnapshotEntry(objs, conds[i], tracked);
    }
  }

  /** A sync that commits and reports no error settles the work, from any previous status. */
  lemma SyncSettles(w: World, mapper: RestMapper, name: string, work: Work, local: AppliedWork, answers: PassAnswers)
    requires Injective(mapper) && WellTracked(mapper, local.tracked) && DistinctTargets(mapper, work.manifests)
    requires Undisturbed(answers.apply.before) && Undisturbed(answers.diff.before) && Undisturbed(answers.clean.before)
    requires name in w.hub.works && w.hub.works[name] == work && HasFinalizer(work) && !work.deleting
    requires name in w.registry.applied && (local == w.registry.applied[name] || local == UNREAD)
    requires var out := Sync(w, mapper, name, work, local, answers); out.committed && out.errors == []
    ensures Settled(Sync(w, mapper, name, work, local, answers).world, mapper, name)
  {
    hide ApplyUpTo, NewUpTo, CleanUpTo, StatusAfter, StaleOf, UpToDate, IdentifierOf, DistinctTargets, Injective,
      WellTracked, Undisturbed, Errors,
      SettledTracking, SettledConditions;
    SyncCommitsStored(w, mapper, name, work, local, answers);
    var ms, owner := work.manifests, ControllerRef(name, local.uid);
    var applied := ApplyAll(w.objs, mapper, ms, owner, answers.apply);
    var conds := StatusAfter(w, mapper, name, work, local, answers).manifestConditions;
    forall i | 0 <= i < |ms| ensures !Failed(applied.results[i]) { NoErrorsNoFailures(applied.results, i); }
    StatusIsSettled(w, mapper, name, work, local, answers);
    forall i | 0 <= i < |ms|
      ensures TargetOfId(IdentifierOf(mapper, i, ms[i])) in applied.objs
      ensures UpToDate(CleanAll(applied.objs, StaleOf(local.tracked, conds), owner, answers.clean).objs, mapper, ms[i],
              owner)
    {
      SyncLeavesUpToDate(w, mapper, name, work, local, answers, applied.objs, i);
    }
    DiffSettlesTracking(applied.objs, mapper, ms, conds, local.tracked, answers.diff);
  }

  /** A pass that asks for the periodic requeue and reports no error settles its work. */
  lemma GoodPassSettles(w: World, mapper: RestMapper, name: string, answers: PassAnswers)
    requires Injective(mapper) && WellTracked(mapper, TrackedBy(w, name))
    requires name in w.hub.works ==> DistinctTargets(mapper, w.hub.works[name].manifests)
    requires Undisturbed(answers.apply.before) && Undisturbed(answers.diff.before) && Undisturbed(answers.clean.before)
    requires var out := Pass(true, w, mapper, name, answers); out.requeueAfter == PERIODIC_REQUEUE && out.errors == []
    ensures Settled(Pass(true, w, mapper, name, answers).world, mapper, name)
  {
    hide Sync, Settled, DistinctTargets, Injective, WellTracked, Undisturbed;
    var ensured := Ensure(w.hub, w.registry, name, w.hub.works[name], answers.ensure);
    var w' := World(ensured.hub, ensured.registry, w.objs);
    RequeueMeansCommitted(w', mapper, name, ensured.work, ensured.result.value, answers);
    NothingIsWellTracked(mapper);
    SyncSettles(w', mapper, name, ensured.work, ensured.result.value, answers);
  }

  lemma RequeueMeansCommitted(w: World, mapper: RestMapper, name: string, work: Work, local: AppliedWork,
      answers: PassAnswers)
    ensures Sync(w, mapper, name, work, local, answers).requeueAfter == PERIODIC_REQUEUE <==>
            Sync(w, mapper, name, work, local, answers).committed
  {
    hide ApplyUpTo, NewUpTo, CleanUpTo, StatusAfter, StaleOf, Errors;
  }

  // ---------------------------------------------------------------------------------
  // The next pass.
  // ---------------------------------------------------------------------------------

  /** Nothing fails and nobody else acts. */
  ghost predicate Calm(answers: PassAnswers) {
    && answers.getFault.None? && answers.ensure.getFault.None? && answers.statusFault.None? && answers.commitFault.None?
    && Undisturbed(answers.apply.before) && Undisturbed(answers.diff.before) && Undisturbed(answers.clean.before)
    && (forall k :: answers.apply.answer(k).getFault.None?)
    && (forall k :: answers.diff.fault(k).None?)
  }

  /** Applying an up-to-date manifest succeeds without a write. */
  lemma UpToDateIsNotWritten(objs: Objects, mapper: RestMapper, index: nat, m: Manifest, owner: OwnerRef,
      answer: ApplyAnswer)
    requires UpToDate(objs, mapper, m, owner) && answer.getFault.None?
    ensures var out := ApplyOne(objs, mapper, index, m, owner, answer);
            out.objs == objs && out.writes == 0 && !Failed(out.result) && !out.result.updated
  {
    hide GvkOf, ManifestHash, IdentifierOf, IsManagedByWork;
    var d := Decode(mapper, m);
    PreparedHash(d.obj, owner);
  }

  lemma {:induction false} SettledApplyWritesNothing(objs: Objects, mapper: RestMapper, ms: seq<Manifest>,
      owner: OwnerRef, answers: ApplyAnswers, k: nat)
    requires k <= |ms| && SettledObjects(objs, mapper, ms, owner)
    requires Undisturbed(answers.before) && forall i :: answers.answer(i).getFault.None?
    ensures var out := ApplyUpTo(objs, mapper, ms, owner, answers, k);
            && out.objs == objs && out.writes == 0
            && forall i :: 0 <= i < k ==> !Failed(out.results[i])
  {
    hide ApplyOne, UpToDate;
    if k > 0 {
      SettledApplyWritesNothing(objs, mapper, ms, owner, answers, k - 1);
      assert answers.before(k - 1) == [] && Run(objs, []) == objs;
      UpToDateIsNotWritten(objs, mapper, k - 1, ms[k - 1], owner, answers.answer(k - 1));
    }
  }

  /** The time stamp of the Applied condition. */
  function AppliedTime(conds: seq<Condition>): int {
    match FindCondition(conds, CONDITION_APPLIED)
    case Some(i) => conds[i].lastTransitionTime
    case None => 0
  }

  /** Condition k of the next status is the old condition of the same resource, set again. */
  lemma HistoryFollowsResource(results: seq<ApplyResult>, olds: seq<ManifestCondition>, env: Env, mapper: RestMapper,
      ms: seq<Manifest>, p: seq<nat>, k: nat)
    requires |p| == |ms| && IsPermutation(p) && DistinctTargets(mapper, ms)
    requires forall i :: 0 <= i < |ms| ==> Decode(mapper, ms[i]).Good? && ManifestTarget(mapper, ms[i]).value.name != ""
    requires SettledConditions(mapper, ms, olds)
    requires |results| == |ms| && k < |ms| && DistinctResults(results) && !Failed(results[k])
    requires results[k].identifier == IdentifierOf(mapper, k, ms[p[k]])
    ensures AppliedTime(FinalConditions(results, olds, env, k)) == AppliedTime(olds[p[k]].conditions)
  {
    hide IdentifierOf, FinalConditions, FindCondition, SetCondition, ManifestTarget, Named, Decode;
    var id := results[k].identifier;
    var ids := Identifiers(olds);
    DistinctConditions(results, olds, env, k);
    IdentifiersAreDistinct(mapper, ms, p[k], p[k], k, p[k]);
    IdentifierIsMapped(mapper, k, ms[p[k]]);
    assert !OrdinalOnly(id);
    var f := FoundAt(id, ids);
    assert Unordered(ids[p[k]]) == Unordered(id);
    assert f.Some?;
    IdentifiersAreDistinct(mapper, ms, f.value, p[k], f.value, k);
    SetConditionFacts(olds[p[k]].conditions, AppliedCondition(results[k], env.times(k)));
  }

  /** Looking up a resource in a settled list finds its own entry. */
  lemma TrackedAtOwn(mapper: RestMapper, ms: seq<Manifest>, tracked: seq<AppliedResource>, i: nat, ordinal: nat)
    requires DistinctTargets(mapper, ms) && SettledTracking(mapper, ms, tracked) && i < |ms|
    requires forall j :: 0 <= j < |ms| ==> Decode(mapper, ms[j]).Good?
    ensures TrackedAt(tracked, IdentifierOf(mapper, ordinal, ms[i])) == Some(i)
  {
    hide IdentifierOf, Named, ManifestTarget, Decode, SameResource;
    var id := IdentifierOf(mapper, ordinal, ms[i]);
    IdentifiersAreDistinct(mapper, ms, i, i, i, ordinal);
    assert SameResource(tracked[i].identifier, id);
    var at := TrackedAt(tracked, id);
    IdentifiersAreDistinct(mapper, ms, at.value, i, at.value, ordinal);
  }

  /** On a settled list, a diff against the reordered conditions permutes the entries and finds nothing stale. */
  lemma SettledDiff(objs: Objects, mapper: RestMapper, ms: seq<Manifest>, p: seq<nat>, conds: seq<ManifestCondition>,
      tracked: seq<AppliedResource>, answers: DiffAnswers)
    requires |p| == |ms| && IsPermutation(p) && DistinctTargets(mapper, ms)
    requires forall i :: 0 <= i < |ms| ==> Decode(mapper, ms[i]).Good?
    requires SettledTracking(mapper, ms, tracked) && SettledConditions(mapper, Permuted(ms, p), conds)
    requires Undisturbed(answers.before) && forall k :: answers.fault(k).None?
    ensures StaleOf(tracked, conds) == []
    ensures var out := Diff(objs, conds, tracked, answers);
            && out.objs == objs && out.result.Ok? && |out.result.value| == |ms|
            && forall k :: 0 <= k < |ms| ==>
                             out.result.value[k] == tracked[p[k]].(identifier := IdentifierOf(mapper, k, ms[p[k]]))
  {
    hide IdentifierOf, Named, ManifestTarget, Decode, AppliedIs, NewUpTo, DistinctTargets, TrackedAt, SameResource;
    forall k | 0 <= k < |ms| ensures conds[k].identifier == IdentifierOf(mapper, k, ms[p[k]]) {
      assert Permuted(ms, p)[k] == ms[p[k]];
    }
    forall k | 0 <= k < |ms| ensures TrackedAt(tracked, conds[k].identifier) == Some(p[k]) {
      TrackedAtOwn(mapper, ms, tracked, p[k], k);
    }
    DiffOnSnapshot(objs, conds, tracked, answers, |conds|);
    TrackedSnapshot(objs, conds, tracked, |conds|);
    forall e | e in tracked ensures HasCondition(conds, e.identifier) {
      var i :| 0 <= i < |tracked| && tracked[i] == e;
      assert i in p;
      var k :| 0 <= k < |p| && p[k] == i;
      IdentifiersAreDistinct(mapper, ms, i, i, i, k);
      assert SameResource(e.identifier, conds[k].identifier);
    }
    AllMatchedNoneStale(tracked, conds);
  }

  lemma {:induction false} TrackedSnapshot(objs: Objects, conds: seq<ManifestCondition>, tracked: seq<AppliedResource>,
      k: nat)
    requires k <= |conds|
    requires forall i :: 0 <= i < |conds| ==>
               AppliedIs(conds[i].conditions, True) && TrackedAt(tracked, conds[i].identifier).Some?
    ensures var new' := SnapshotNew(objs, conds, tracked, k);
            |new'| == k && forall i :: 0 <= i < k ==>
                                         new'[i] == AppliedResource(conds[i].identifier,
                                           tracked[TrackedAt(tracked, conds[i].identifier).value].uid)
  {
    hide AppliedIs, TrackedAt;
    if k > 0 {
      TrackedSnapshot(objs, conds, tracked, k - 1);
    }
  }

  /** The same work with its manifests in another order, as a user may leave it. */
  predicate Reordered(before: World, after: World, name: string, p: seq<nat>) {
    && name in before.hub.works && name in after.hub.works
    && after.registry == before.registry && after.objs == before.objs
    && var u, v := before.hub.works[name], after.hub.works[name];
       && |p| == |u.manifests| && IsPermutation(p)
       && v == u.(manifests := Permuted(u.manifests, p), generation := v.generation,
         resourceVersion := v.resourceVersion)
  }

  /** What the pass after a reordering does: nothing to the objects, and the bookkeeping follows the resources. */
  ghost predicate FollowsOrder(before: World, out: PassOut, mapper: RestMapper, name: string, p: seq<nat>)
    requires name in before.hub.works && name in before.registry.applied
  {
    var ms := before.hub.works[name].manifests;
    var tracked, tracked' := before.registry.applied[name].tracked, TrackedBy(out.world, name);
    var conds, conds' := before.hub.works[name].status.manifestConditions, ConditionsOf(out.world, name);
    && out.requeueAfter == PERIODIC_REQUEUE && out.errors == [] && out.committed
    && out.writes == 0 && out.world.objs == before.objs
    && StaleOf(tracked, conds') == []
    && |p| == |ms| == |tracked| == |tracked'| == |conds| == |conds'|
    && IsPermutation(p)
    && (forall k :: 0 <= k < |p| ==>
      tracked'[k] == tracked[p[k]].(identifier := tracked[p[k]].identifier.(ordinal := k)))
    && (forall k :: 0 <= k < |p| ==>
                      && conds'[k].identifier == conds[p[k]].identifier.(ordinal := k)
                      && AppliedIs(conds'[k].conditions, True)
                      && AppliedTime(conds'[k].conditions) == AppliedTime(conds[p[k]].conditions))
  }

  lemma SettledGood(objs: Objects, mapper: RestMapper, ms: seq<Manifest>, owner: OwnerRef)
    requires SettledObjects(objs, mapper, ms, owner)
    ensures forall i :: 0 <= i < |ms| ==>
                          Decode(mapper, ms[i]).Good? && ManifestTarget(mapper, ms[i]).Some?
                            && ManifestTarget(mapper, ms[i]).value.name != ""
  {
    hide UpToDate, Decode, ManifestTarget;
    forall i | 0 <= i < |ms|
      ensures Decode(mapper, ms[i]).Good? && ManifestTarget(mapper, ms[i]).Some?
              && ManifestTarget(mapper, ms[i]).value.name != ""
    {
      UpToDateHasTarget(objs, mapper, ms[i], owner);
    }
  }

  lemma ReorderedIdentifier(mapper: RestMapper, m: Manifest, i: nat, k: nat)
    ensures IdentifierOf(mapper, k, m) == IdentifierOf(mapper, i, m).(ordinal := k)
  {
  }

  /** The status of the pass after a reordering. */
  lemma ReorderedStatus(w: World, mapper: RestMapper, name: string, ms: seq<Manifest>, p: seq<nat>, work: Work,
      local: AppliedWork, answers: PassAnswers)
    requires |p| == |ms| && IsPermutation(p) && DistinctTargets(mapper, ms) && work.manifests == Permuted(ms, p)
    requires SettledObjects(w.objs, mapper, ms, ControllerRef(name, local.uid))
    requires SettledConditions(mapper, ms, work.status.manifestConditions)
    requires Calm(answers)
    ensures var applied := ApplyAll(w.objs, mapper, work.manifests, ControllerRef(name, local.uid), answers.apply);
            applied.objs == w.objs && applied.writes == 0 && Errors(applied.results) == []
    ensures var conds := StatusAfter(w, mapper, name, work, local, answers).manifestConditions;
            && SettledConditions(mapper, Permuted(ms, p), conds)
            && forall k :: 0 <= k < |ms| ==>
              AppliedTime(conds[k].conditions) == AppliedTime(work.status.manifestConditions[p[k]].conditions)
  {
    hide UpToDate, Decode, ManifestTarget, Named, IdentifierOf, ApplyUpTo, FinalConditions, AppliedIs, AppliedTime,
      DistinctTargets;
    var owner := ControllerRef(name, local.uid);
    var ms', olds := work.manifests, work.status.manifestConditions;
    assert SettledObjects(w.objs, mapper, ms', owner) by {
      forall k | 0 <= k < |ms'| ensures UpToDate(w.objs, mapper, ms'[k], owner) { assert ms'[k] == ms[p[k]]; }
    }
    SettledApplyWritesNothing(w.objs, mapper, ms', owner, answers.apply, |ms'|);
    var results := ApplyAll(w.objs, mapper, ms', owner, answers.apply).results;
    NoFailuresNoErrors(results);
    PermutedTargets(mapper, ms, p);
    StatusIsSettled(w, mapper, name, work, local, answers);
    SettledGood(w.objs, mapper, ms, owner);
    ResultsAreDistinct(w.objs, mapper, ms', owner, answers.apply);
    var conds := StatusAfter(w, mapper, name, work, local, answers).manifestConditions;
    forall k | 0 <= k < |ms| ensures AppliedTime(conds[k].conditions) == AppliedTime(olds[p[k]].conditions) {
      assert ms'[k] == ms[p[k]];
      SuccessIsMapped(w.objs, mapper, ms', owner, answers.apply, |ms'|, k);
      HistoryFollowsResource(results, olds, answers.env, mapper, ms, p, k);
    }
  }

  /** On a settled work, a calm pass after any reordering of its manifests only renumbers. */
  lemma SettledPassOnlyRenumbers(before: World, after: World, mapper: RestMapper, name: string, p: seq<nat>,
      answers: PassAnswers)
    requires Settled(before, mapper, name) && Reordered(before, after, name, p) && Calm(answers)
    ensures FollowsOrder(before, Pass(true, after, mapper, name, answers), mapper, name, p)
  {
    hide UpToDate, Decode, ManifestTarget, Named, IdentifierOf, ApplyUpTo, FinalConditions, AppliedIs, AppliedTime,
      DistinctTargets, NewUpTo, StaleOf, CleanUpTo, StatusAfter, SettledObjects;
    var work, local := after.hub.works[name], after.registry.applied[name];
    var ms := before.hub.works[name].manifests;
    assert Ensure(after.hub, after.registry, name, work, answers.ensure).result == Ok(local);
    var out := Sync(after, mapper, name, work, local, answers);
    assert Pass(true, after, mapper, name, answers) == out;
    ReorderedStatus(after, mapper, name, ms, p, work, local, answers);
    SettledGood(after.objs, mapper, ms, ControllerRef(name, local.uid));
    var conds := StatusAfter(after, mapper, name, work, local, answers).manifestConditions;
    SettledDiff(after.objs, mapper, ms, p, conds, local.tracked, answers.diff);
    CleanNothing(after.objs, ControllerRef(name, local.uid), answers.clean);
    forall k | 0 <= k < |p|
      ensures IdentifierOf(mapper, k, ms[p[k]]) == local.tracked[p[k]].identifier.(ordinal := k)
      ensures conds[k].identifier == IdentifierOf(mapper, k, ms[p[k]])
    {
      ReorderedIdentifier(mapper, ms[p[k]], p[k], k);
      assert Permuted(ms, p)[k] == ms[p[k]];
    }
  }

  lemma CleanNothing(objs: Objects, owner: OwnerRef, answers: CleanAnswers)
    ensures CleanAll(objs, [], owner, answers) == CleanAllOut(objs, [], 0)
  {
  }

  /**
   Reordering is harmless: after a pass that ended with the periodic requeue and no error,
   put the manifests in any other order; the next pass writes no object, finds nothing stale,
   and keeps UIDs and time stamps with their resources.
   */
  lemma ReorderingIsHarmless(w: World, mapper: RestMapper, name: string, first: PassAnswers, after: World, p: seq<nat>,
      second: PassAnswers)
    requires Injective(mapper) && WellTracked(mapper, TrackedBy(w, name))
    requires name in w.hub.works ==> DistinctTargets(mapper, w.hub.works[name].manifests)
    requires Undisturbed(first.apply.before) && Undisturbed(first.diff.before) && Undisturbed(first.clean.before)
    requires var out := Pass(true, w, mapper, name, first); out.requeueAfter == PERIODIC_REQUEUE && out.errors == []
    requires Reordered(Pass(true, w, mapper, name, first).world, after, name, p) && Calm(second)
    ensures Settled(Pass(true, w, mapper, name, first).world, mapper, name)
    ensures FollowsOrder(Pass(true, w, mapper, name, first).world, Pass(true, after, mapper, name, second), mapper,
            name, p)
  {
    hide Pass, Settled, Reordered, FollowsOrder, Calm, DistinctTargets, Injective, WellTracked, Undisturbed;
    GoodPassSettles(w, mapper, name, first);
    SettledPassOnlyRenumbers(Pass(true, w, mapper, name, first).world, after, mapper, name, p, second);
  }

  /** A pass that ends well, writes no object, and leaves tracking, identifiers and time stamps as they were. */
  ghost predicate ChangesNothing(before: World, out: PassOut, name: string) {
    var conds, conds' := ConditionsOf(before, name), ConditionsOf(out.world, name);
    && out.requeueAfter == PERIODIC_REQUEUE && out.errors == []
    && out.writes == 0 && out.world.objs == before.objs
    && TrackedBy(out.world, name) == TrackedBy(before, name)
    && StaleOf(TrackedBy(before, name), conds') == []
    && |conds'| == |conds|
    && forall k :: 0 <= k < |conds| ==>
                     && conds'[k].identifier == conds[k].identifier
                     && AppliedTime(conds'[k].conditions) == AppliedTime(conds[k].conditions)
  }

  function Identity(n: nat): (p: seq<nat>)
    ensures |p| == n && forall k :: 0 <= k < n ==> p[k] == k
  {
    seq(n, k requires 0 <= k < n => k)
  }

  lemma IdentityPermutes<T>(s: seq<T>)
    ensures IsPermutation(Identity(|s|)) && Permuted(s, Identity(|s|)) == s
  {
    var p := Identity(|s|);
    forall i | 0 <= i < |p| ensures i in p { assert p[i] == i; }
  }

  lemma SettledOrdinals(w: World, mapper: RestMapper, name: string, k: nat)
    requires Settled(w, mapper, name) && k < |w.hub.works[name].manifests|
    ensures w.registry.applied[name].tracked[k].identifier.ordinal == k
    ensures w.hub.works[name].status.manifestConditions[k].identifier.ordinal == k
  {
    hide UpToDate, Decode, DistinctTargets, AppliedIs;
    ReorderedIdentifier(mapper, w.hub.works[name].manifests[k], k, k);
  }

  /** Renumbering by the identity changes nothing. */
  lemma RenumberingByIdentity(before: World, out: PassOut, mapper: RestMapper, name: string)
    requires Settled(before, mapper, name)
    requires FollowsOrder(before, out, mapper, name, Identity(|before.hub.works[name].manifests|))
    ensures ChangesNothing(before, out, name)
  {
    hide SettledObjects, DistinctTargets, AppliedIs, AppliedTime, IdentifierOf, HasFinalizer, StaleOf, IsPermutation;
    var n := |before.hub.works[name].manifests|;
    forall k | 0 <= k < n
      ensures before.registry.applied[name].tracked[k].identifier.ordinal == k
      ensures before.hub.works[name].status.manifestConditions[k].identifier.ordinal == k
    {
      SettledOrdinals(before, mapper, name, k);
    }
  }

  /**
   Reconcile reaches a fixpoint: after a pass that ended with the periodic requeue and no
   error, a calm pass on the same clusters issues no write on any manifest object, finds
   nothing stale, commits the same tracked resources, and keeps every time stamp.
   */
  lemma PassReachesFixpoint(w: World, mapper: RestMapper, name: string, first: PassAnswers, second: PassAnswers)
    requires Injective(mapper) && WellTracked(mapper, TrackedBy(w, name))
    requires name in w.hub.works ==> DistinctTargets(mapper, w.hub.works[name].manifests)
    requires Undisturbed(first.apply.before) && Undisturbed(first.diff.before) && Undisturbed(first.clean.before)
    requires var out := Pass(true, w, mapper, name, first); out.requeueAfter == PERIODIC_REQUEUE && out.errors == []
    requires Calm(second)
    ensures var settled := Pass(true, w, mapper, name, first).world;
            ChangesNothing(settled, Pass(true, settled, mapper, name, second), name)
  {
    hide Pass, Calm, DistinctTargets, Injective, WellTracked, Undisturbed, IsPermutation, Permuted, FollowsOrder,
      ChangesNothing,
      SettledTracking, SettledConditions, SettledObjects;
    var settled := Pass(true, w, mapper, name, first).world;
    GoodPassSettles(w, mapper, name, first);
    var ms := settled.hub.works[name].manifests;
    IdentityPermutes(ms);
    SettledPassOnlyRenumbers(settled, settled, mapper, name, Identity(|ms|), second);
    RenumberingByIdentity(settled, Pass(true, settled, mapper, name, second), mapper, name);
  }
}
