/**
 When a pass ends well, stated on the clusters before it; and that two undisturbed passes are
 always enough, whatever earlier ones left behind.
 */
module Convergence {
  import opened Wrappers
  import opened OwnerReferences
  import opened Manifests
  import opened WorkApi
  import opened Spoke
  import opened SpokeRuns
  import opened Conditions
  import opened Lifecycle
  import opened Applying
  import opened Syncer
  import opened Reconciler
  import opened Tracking
  import opened Fixpoint

  /** Nobody else acts and no call fails. */
  ghost predicate Faultless(answers: PassAnswers) {
    && Calm(answers)
    && answers.ensure.createFault.None? && answers.ensure.updateFault.None?
    && (forall k :: answers.apply.answer(k).writeFault.None?)
    && (forall k :: answers.clean.answer(k).getFault.None? && answers.clean.answer(k).writeFault.None?)
  }

  /**
   The manifest decodes, has a mapping and a name, and its target is absent, or managed and
   carrying either this manifest's hash or a recorded original to patch from.
   */
  predicate Applicable(objs: Objects, mapper: RestMapper, m: Manifest, owner: OwnerRef) {
    match Decode(mapper, m)
    case Bad(_, _) => false
    case Good(gvr, o) =>
      var t := TargetOf(gvr, o);
      && o.name != ""
      && (t in objs ==>
            && IsManagedByWork(objs[t].owners)
            && (Annotation(objs[t], MANIFEST_HASH) == Some(ManifestHash(WithOwner(o, owner)))
                || OriginalConfiguration(objs[t]).Ok?))
  }

  predicate AllApplicable(objs: Objects, mapper: RestMapper, ms: seq<Manifest>, owner: OwnerRef) {
    forall i :: 0 <= i < |ms| ==> Applicable(objs, mapper, ms[i], owner)
  }

  /** A pass that asks for the periodic requeue and reports no error. */
  predicate Good(out: PassOut) {
    out.requeueAfter == PERIODIC_REQUEUE && out.errors == []
  }

  lemma ApplicableSucceeds(objs: Objects, mapper: RestMapper, index: nat, m: Manifest, owner: OwnerRef,
      answer: ApplyAnswer)
    requires Named(mapper, m) && answer.getFault.None? && answer.writeFault.None?
    ensures !Failed(ApplyOne(objs, mapper, index, m, owner, answer).result) <==> Applicable(objs, mapper, m, owner)
  {
    hide ApplyManifest, IdentifierOf, GvkOf, ManifestHash, IsManagedByWork;
    match Decode(mapper, m)
    case Bad(_, _) =>
    case Good(gvr, o) => ApplyDecision(objs, gvr, o, owner, answer);
  }

  /** Without faults the apply phase reports no error exactly when every manifest is applicable at its start. */
  lemma ApplyPhaseExactly(objs: Objects, mapper: RestMapper, ms: seq<Manifest>, owner: OwnerRef, answers: ApplyAnswers)
    requires DistinctTargets(mapper, ms) && Undisturbed(answers.before)
    requires forall k :: answers.answer(k).getFault.None? && answers.answer(k).writeFault.None?
    ensures Errors(ApplyAll(objs, mapper, ms, owner, answers).results) == [] <==> AllApplicable(objs, mapper, ms, owner)
  {
    hide ApplyUpTo, ApplyOne, Applicable, Named, ManifestTarget, Errors;
    var results := ApplyAll(objs, mapper, ms, owner, answers).results;
    forall i | 0 <= i < |ms| ensures !Failed(results[i]) <==> Applicable(objs, mapper, ms[i], owner) {
      OutcomesAreIndependent(objs, mapper, ms, owner, answers, |ms|, i);
      ApplicableSucceeds(objs, mapper, i, ms[i], owner, answers.answer(i));
    }
    if Errors(results) == [] {
      forall i | 0 <= i < |ms| ensures !Failed(results[i]) { NoErrorsNoFailures(results, i); }
    }
    if AllApplicable(objs, mapper, ms, owner) {
      NoFailuresNoErrors(results);
    }
  }

  /** Without faults the clean-up of named resources reports no error. */
  lemma {:induction false} CleanSucceeds(objs: Objects, stale: seq<AppliedResource>, owner: OwnerRef,
      answers: CleanAnswers, k: nat)
    requires k <= |stale| && forall e :: e in stale ==> e.identifier.name != ""
    requires forall i :: answers.answer(i).getFault.None? && answers.answer(i).writeFault.None?
    ensures CleanUpTo(objs, stale, owner, answers, k).errors == []
  {
    hide Splice, Represents, Run;
    if k > 0 {
      CleanSucceeds(objs, stale, owner, answers, k - 1);
    }
  }

  /** A sync ends well exactly when it gets through every stage and applied everything. */
  lemma GoodSync(w: World, mapper: RestMapper, name: string, work: Work, local: AppliedWork, answers: PassAnswers)
    ensures var applied := ApplyAll(w.objs, mapper, work.manifests, ControllerRef(name, local.uid), answers.apply);
            var conds := StatusAfter(w, mapper, name, work, local, answers).manifestConditions;
            var diff := Diff(applied.objs, conds, local.tracked, answers.diff);
            var stale := StaleOf(local.tracked, conds);
            Good(Sync(w, mapper, name, work, local, answers)) <==>
            && HubRefusal(w.hub, name, work, answers.statusFault).None?
            && diff.result.Ok?
            && CleanAll(diff.objs, stale, ControllerRef(name, local.uid), answers.clean).errors == []
            && UpdateAppliedStatus(w.registry, name, local.(tracked := diff.result.value),
                                   answers.commitFault).result.Ok?
            && Errors(applied.results) == []
  {
    hide ApplyUpTo, NewUpTo, CleanUpTo, StatusAfter, StaleOf, Errors;
  }

  lemma StaleIsNamed(mapper: RestMapper, tracked: seq<AppliedResource>, conds: seq<ManifestCondition>)
    requires WellTracked(mapper, tracked)
    ensures forall e :: e in StaleOf(tracked, conds) ==> e.identifier.name != ""
  {
    forall e | e in StaleOf(tracked, conds) ensures e.identifier.name != "" { StaleExactly(tracked, conds, e); }
  }

  lemma ApplicableIsNamed(objs: Objects, mapper: RestMapper, index: nat, m: Manifest, owner: OwnerRef)
    requires Applicable(objs, mapper, m, owner)
    ensures Named(mapper, m) && IdentifierOf(mapper, index, m).name != ""
  {
    hide GvkOf, ManifestHash, IsManagedByWork;
  }

  /** With everything applicable and nothing failing, a sync with the stored AppliedWork gets through. */
  lemma ApplicableSyncIsGood(w: World, mapper: RestMapper, name: string, work: Work, local: AppliedWork,
      answers: PassAnswers)
    requires Faultless(answers) && WellTracked(mapper, local.tracked) && DistinctTargets(mapper, work.manifests)
    requires name in w.hub.works && w.hub.works[name] == work
    requires name in w.registry.applied && w.registry.applied[name] == local && local.resourceVersion != 0
    requires AllApplicable(w.objs, mapper, work.manifests, ControllerRef(name, local.uid))
    ensures Good(Sync(w, mapper, name, work, local, answers))
  {
    hide ApplyUpTo, NewUpTo, CleanUpTo, StatusAfter, StaleOf, Errors, WellTracked, DistinctTargets, Applicable,
      IdentifierOf, AppliedIs, TrackedAt, Sync, Undisturbed;
    var ms, owner := work.manifests, ControllerRef(name, local.uid);
    var applied := ApplyAll(w.objs, mapper, ms, owner, answers.apply);
    var conds := StatusAfter(w, mapper, name, work, local, answers).manifestConditions;
    ApplyPhaseExactly(w.objs, mapper, ms, owner, answers.apply);
    forall i | 0 <= i < |ms| ensures !Failed(applied.results[i]) { NoErrorsNoFailures(applied.results, i); }
    StatusIsSettled(w, mapper, name, work, local, answers);
    forall i | 0 <= i < |conds| ensures conds[i].identifier.name != "" {
      ApplicableIsNamed(w.objs, mapper, i, ms[i], owner);
    }
    DiffOnSnapshot(applied.objs, conds, local.tracked, answers.diff, |conds|);
    StaleIsNamed(mapper, local.tracked, conds);
    var diff := Diff(applied.objs, conds, local.tracked, answers.diff);
    CleanSucceeds(diff.objs, StaleOf(local.tracked, conds), owner, answers.clean, |StaleOf(local.tracked, conds)|);
    GoodSync(w, mapper, name, work, local, answers);
  }

  /** A sync of a work with a generated name in it never ends well. */
  lemma GeneratedSyncIsNotGood(w: World, mapper: RestMapper, name: string, work: Work, local: AppliedWork,
      answers: PassAnswers, i: nat)
    requires WellTracked(mapper, local.tracked) && i < |work.manifests| && !Named(mapper, work.manifests[i])
    ensures !Good(Sync(w, mapper, name, work, local, answers))
  {
    hide ApplyUpTo, NewUpTo, CleanUpTo, FinalConditions, StaleOf, Errors, WellTracked, AppliedIs, Sync,
      Decode, LastWriter;
    GoodSync(w, mapper, name, work, local, answers);
    if Good(Sync(w, mapper, name, work, local, answers)) {
      var results := ApplyAll(w.objs, mapper, work.manifests, ControllerRef(name, local.uid), answers.apply).results;
      var olds := work.status.manifestConditions;
      forall j | 0 <= j < |results| ensures !Failed(results[j]) { NoErrorsNoFailures(results, j); }
      ConditionReportsLastWriter(results, olds, answers.env, i);
      GeneratedNameNeverCommits(w, mapper, name, work, local, answers, i);
    }
  }

  /** Targets are distinct as far as they are known before the apply. */
  predicate DistinctIfNamed(mapper: RestMapper, ms: seq<Manifest>) {
    (forall i :: 0 <= i < |ms| ==> Named(mapper, ms[i])) ==> DistinctTargets(mapper, ms)
  }

  lemma SyncGoodExactly(w: World, mapper: RestMapper, name: string, work: Work, local: AppliedWork,
      answers: PassAnswers)
    requires Faultless(answers) && WellTracked(mapper, local.tracked) && DistinctIfNamed(mapper, work.manifests)
    requires name in w.hub.works && w.hub.works[name] == work
    requires name in w.registry.applied && w.registry.applied[name] == local && local.resourceVersion != 0
    ensures Good(Sync(w, mapper, name, work, local, answers)) <==>
            AllApplicable(w.objs, mapper, work.manifests, ControllerRef(name, local.uid))
  {
    hide Sync, WellTracked, DistinctTargets, Applicable, Named, Good, ApplyUpTo, Errors;
    var ms, owner := work.manifests, ControllerRef(name, local.uid);
    if i :| 0 <= i < |ms| && !Named(mapper, ms[i]) {
      GeneratedSyncIsNotGood(w, mapper, name, work, local, answers, i);
      if Applicable(w.objs, mapper, ms[i], owner) {
        ApplicableIsNamed(w.objs, mapper, i, ms[i], owner);
      }
    } else {
      ApplyPhaseExactly(w.objs, mapper, ms, owner, answers.apply);
      GoodSync(w, mapper, name, work, local, answers);
      if AllApplicable(w.objs, mapper, ms, owner) {
        ApplicableSyncIsGood(w, mapper, name, work, local, answers);
      }
    }
  }

  /** What a faultless ensureAppliedWork comes to: the stored AppliedWork, except when it lost the race to create it. */
  lemma EnsureExactly(w: World, name: string, answers: PassAnswers)
    requires Faultless(answers) && name in w.hub.works && !w.hub.works[name].deleting
    ensures var work := w.hub.works[name];
            var e := Ensure(w.hub, w.registry, name, work, answers.ensure);
            && e.result.Ok?
            && name in e.hub.works && e.hub.works[name] == e.work && HasFinalizer(e.work) && !e.work.deleting
            && e.work.manifests == work.manifests
            && name in e.registry.applied
            && if HasFinalizer(work) || name !in w.registry.applied then
                 && e.registry.applied[name] == e.result.value
                 && (name in w.registry.applied ==> e.registry == w.registry)
                 && (name !in w.registry.applied ==>
                       e.result.value == AppliedWork(answers.ensure.uid, w.registry.clock + 1, []))
               else e.result.value == UNREAD && e.registry == w.registry
  {
  }

  /**
   Exactly when a pass ends well, on the clusters before it: no call fails and nobody interferes;
   then it does if and only if the AppliedWork is not one the controller has lost track of, and
   every manifest is applicable for it.
   */
  lemma GoodPassExactly(w: World, mapper: RestMapper, name: string, answers: PassAnswers)
    requires Faultless(answers) && name in w.hub.works && !w.hub.works[name].deleting
    requires WellTracked(mapper, TrackedBy(w, name)) && RegistryVersions(w.registry, name)
    requires DistinctIfNamed(mapper, w.hub.works[name].manifests)
    ensures var work := w.hub.works[name];
            var e := Ensure(w.hub, w.registry, name, work, answers.ensure);
            && e.result.Ok?
            && (Good(Pass(true, w, mapper, name, answers)) <==>
                  && (HasFinalizer(work) || name !in w.registry.applied)
                  && AllApplicable(w.objs, mapper, work.manifests, ControllerRef(name, e.result.value.uid)))
  {
    hide Sync, Ensure, WellTracked, AllApplicable, DistinctIfNamed, HasFinalizer;
    EnsureExactly(w, name, answers);
    NothingIsWellTracked(mapper);
    var work := w.hub.works[name];
    var e := Ensure(w.hub, w.registry, name, work, answers.ensure);
    var w' := World(e.hub, e.registry, w.objs);
    assert Pass(true, w, mapper, name, answers) == Sync(w', mapper, name, e.work, e.result.value, answers);
    if HasFinalizer(work) || name !in w.registry.applied {
      SyncGoodExactly(w', mapper, name, e.work, e.result.value, answers);
    } else {
      RequeueMeansCommitted(w', mapper, name, e.work, e.result.value, answers);
      SyncCommitsStored(w', mapper, name, e.work, e.result.value, answers);
    }
  }

  // ---------------------------------------------------------------------------------
  // Two faultless passes are enough.
  // ---------------------------------------------------------------------------------

  /** Applicable whatever hash the target carries: it is absent, or managed with a recorded original. */
  predicate Patchable(objs: Objects, mapper: RestMapper, m: Manifest) {
    match Decode(mapper, m)
    case Bad(_, _) => false
    case Good(gvr, o) =>
      var t := TargetOf(gvr, o);
      o.name != "" && (t in objs ==> IsManagedByWork(objs[t].owners) && OriginalConfiguration(objs[t]).Ok?)
  }

  predicate AllPatchable(objs: Objects, mapper: RestMapper, ms: seq<Manifest>) {
    forall i :: 0 <= i < |ms| ==> Patchable(objs, mapper, ms[i])
  }

  lemma PatchableIsApplicable(objs: Objects, mapper: RestMapper, m: Manifest, owner: OwnerRef)
    requires Patchable(objs, mapper, m)
    ensures Applicable(objs, mapper, m, owner) && ManifestTarget(mapper, m).Some?
  {
    hide GvkOf, ManifestHash, IsManagedByWork;
  }

  lemma PatchableIsLocal(a: Objects, b: Objects, mapper: RestMapper, m: Manifest)
    requires Patchable(a, mapper, m)
    requires ManifestTarget(mapper, m).Some? && SameAt(a, b, ManifestTarget(mapper, m).value)
    ensures Patchable(b, mapper, m)
  {
    hide GvkOf;
  }

  /** A successful apply leaves its target as patchable as it was. */
  lemma ApplyKeepsPatchable(objs: Objects, mapper: RestMapper, index: nat, m: Manifest, name: string, uid: string,
      answer: ApplyAnswer)
    requires Patchable(objs, mapper, m)
    requires !Failed(ApplyOne(objs, mapper, index, m, ControllerRef(name, uid), answer).result)
    ensures Patchable(ApplyOne(objs, mapper, index, m, ControllerRef(name, uid), answer).objs, mapper, m)
  {
    hide ApplyManifest, IdentifierOf, GvkOf, ManifestHash, Represents, SameObject;
    var d, owner := Decode(mapper, m), ControllerRef(name, uid);
    var t := TargetOf(d.gvr, d.obj);
    var out := ApplyManifest(objs, d.gvr, d.obj, owner, answer);
    ApplyFrame(objs, d.gvr, d.obj, owner, answer);
    if out.updated {
      ApplyWrites(objs, d.gvr, d.obj, owner, answer);
      WriteOwnsExactly(objs, Apply(d.gvr, d.obj, name, uid, answer), name);
      OwnerIsManaged(out.objs, t, name);
    }
  }

  /** Without faults the apply phase keeps every target patchable. */
  lemma ApplyPhaseKeepsPatchable(objs: Objects, mapper: RestMapper, ms: seq<Manifest>, name: string, uid: string,
      answers: ApplyAnswers)
    requires DistinctTargets(mapper, ms) && Undisturbed(answers.before) && AllPatchable(objs, mapper, ms)
    requires forall k :: answers.answer(k).getFault.None? && answers.answer(k).writeFault.None?
    ensures AllPatchable(ApplyAll(objs, mapper, ms, ControllerRef(name, uid), answers).objs, mapper, ms)
  {
    hide ApplyUpTo, ApplyOne, Applicable, Patchable, Named, ManifestTarget;
    var owner := ControllerRef(name, uid);
    var after := ApplyAll(objs, mapper, ms, owner, answers).objs;
    forall i | 0 <= i < |ms| ensures Patchable(after, mapper, ms[i]) {
      PatchableIsApplicable(objs, mapper, ms[i], owner);
      ApplicableSucceeds(objs, mapper, i, ms[i], owner, answers.answer(i));
      ApplyKeepsPatchable(objs, mapper, i, ms[i], name, uid, answers.answer(i));
      var t := ManifestTarget(mapper, ms[i]).value;
      TargetsAreIndependent(objs, mapper, ms, owner, answers, |ms|, t);
      var alone := ApplyOne(objs, mapper, i, ms[i], owner, answers.answer(i)).objs;
      assert SameAt(after, alone, t);
      PatchableIsLocal(alone, after, mapper, ms[i]);
    }
  }

  /** A sync with the unread AppliedWork applies, publishes, and commits nothing. */
  lemma UnreadSync(w: World, mapper: RestMapper, name: string, work: Work, answers: PassAnswers)
    requires Faultless(answers) && RegistryVersions(w.registry, name)
    requires name in w.hub.works && w.hub.works[name] == work
    ensures var out := Sync(w, mapper, name, work, UNREAD, answers).world;
            && out.objs == ApplyAll(w.objs, mapper, work.manifests, ControllerRef(name, UNREAD.uid), answers.apply).objs
            && out.registry == w.registry
            && name in out.hub.works
            && out.hub.works[name].finalizers == work.finalizers
            && out.hub.works[name].manifests == work.manifests
            && out.hub.works[name].deleting == work.deleting
  {
    hide ApplyUpTo, NewUpTo, StatusAfter, Errors;
    var conds := StatusAfter(w, mapper, name, work, UNREAD, answers).manifestConditions;
    var applied := ApplyAll(w.objs, mapper, work.manifests, ControllerRef(name, UNREAD.uid), answers.apply);
    DiffOnSnapshot(applied.objs, conds, [], answers.diff, |conds|);
    CleanNothing(applied.objs, ControllerRef(name, UNREAD.uid), answers.clean);
  }

  /** What the next pass needs, whatever the last one was interrupted in. */
  ghost predicate Ready(w: World, mapper: RestMapper, name: string) {
    && name in w.hub.works && !w.hub.works[name].deleting
    && WellTracked(mapper, TrackedBy(w, name)) && RegistryVersions(w.registry, name)
    && DistinctTargets(mapper, w.hub.works[name].manifests)
    && AllPatchable(w.objs, mapper, w.hub.works[name].manifests)
  }

  lemma ReadyIsApplicable(w: World, mapper: RestMapper, name: string, uid: string)
    requires Ready(w, mapper, name)
    ensures AllApplicable(w.objs, mapper, w.hub.works[name].manifests, ControllerRef(name, uid))
  {
    hide Applicable, Patchable, DistinctTargets;
    var ms := w.hub.works[name].manifests;
    forall i | 0 <= i < |ms| ensures Applicable(w.objs, mapper, ms[i], ControllerRef(name, uid)) {
      PatchableIsApplicable(w.objs, mapper, ms[i], ControllerRef(name, uid));
    }
  }

  /** On a ready world a faultless pass ends well, or sets the finalizer and leaves the world ready. */
  lemma FirstPassHeals(w: World, mapper: RestMapper, name: string, answers: PassAnswers)
    requires Ready(w, mapper, name) && Faultless(answers)
    ensures var out := Pass(true, w, mapper, name, answers);
            || Good(out)
            || (Ready(out.world, mapper, name) && HasFinalizer(out.world.hub.works[name]))
  {
    hide Sync, Ensure, WellTracked, AllApplicable, AllPatchable, DistinctTargets, Good;
    var work := w.hub.works[name];
    var e := Ensure(w.hub, w.registry, name, work, answers.ensure);
    EnsureExactly(w, name, answers);
    GoodPassExactly(w, mapper, name, answers);
    ReadyIsApplicable(w, mapper, name, e.result.value.uid);
    if !Good(Pass(true, w, mapper, name, answers)) {
      var w' := World(e.hub, e.registry, w.objs);
      assert Pass(true, w, mapper, name, answers) == Sync(w', mapper, name, e.work, UNREAD, answers);
      UnreadSync(w', mapper, name, e.work, answers);
      ApplyPhaseKeepsPatchable(w.objs, mapper, work.manifests, name, UNREAD.uid, answers.apply);
    }
  }

  /**
   Two faultless passes are enough: whatever interruption a ready world is left from, between
   creating the AppliedWork and setting the finalizer included, the second one ends well.
   */
  lemma SecondPassIsGood(w: World, mapper: RestMapper, name: string, first: PassAnswers, second: PassAnswers)
    requires Ready(w, mapper, name) && Injective(mapper) && Faultless(first) && Faultless(second)
    ensures var w' := Pass(true, w, mapper, name, first).world;
            Good(Pass(true, w', mapper, name, second))
  {
    hide Pass, WellTracked, AllApplicable, AllPatchable, DistinctTargets, Injective, ChangesNothing;
    var out := Pass(true, w, mapper, name, first);
    FirstPassHeals(w, mapper, name, first);
    if Good(out) {
      PassReachesFixpoint(w, mapper, name, first, second);
      NothingChangedIsGood(out.world, Pass(true, out.world, mapper, name, second), name);
    } else {
      GoodPassExactly(out.world, mapper, name, second);
      var e := Ensure(out.world.hub, out.world.registry, name, out.world.hub.works[name], second.ensure);
      ReadyIsApplicable(out.world, mapper, name, e.result.value.uid);
    }
  }

  lemma NothingChangedIsGood(before: World, out: PassOut, name: string)
    requires ChangesNothing(before, out, name)
    ensures Good(out)
  {
    hide StaleOf;
  }
}
