/**
 A pass as a run of atomic steps, and what it does to the tracking list: nothing is lost
 silently, and clean-up never undoes what the same pass applied.
 */
module Tracking {
  import opened Wrappers
  import opened OwnerReferences
  import opened Manifests
  import opened WorkApi
  import opened Spoke
  import opened SpokeRuns
  import opened Conditions
  import opened Lifecycle
  import opened Applying
  import opened Syncer
  import opened Reconciler

  // ---------------------------------------------------------------------------------
  // A pass is a run of the member cluster.
  // ---------------------------------------------------------------------------------

  function ManifestActions(mapper: RestMapper, m: Manifest, name: string, uid: string,
      answer: ApplyAnswer): seq<Action> {
    match Decode(mapper, m)
    case Bad(_, _) => []
    case Good(gvr, o) => [Apply(gvr, o, name, uid, answer)]
  }

  function ApplyActions(mapper: RestMapper, ms: seq<Manifest>, name: string, uid: string, answers: ApplyAnswers,
      k: nat): seq<Action>
    requires k <= |ms|
  {
    if k == 0 then []
    else
      ApplyActions(mapper, ms, name, uid, answers, k - 1)
      + (answers.before(k - 1) + ManifestActions(mapper, ms[k - 1], name, uid, answers.answer(k - 1)))
  }

  function DiffActions(objs: Objects, conds: seq<ManifestCondition>, tracked: seq<AppliedResource>,
      answers: DiffAnswers, k: nat): seq<Action>
    requires k <= |conds|
  {
    if k == 0 then []
    else if NewUpTo(objs, conds, tracked, answers, k - 1).result.Err?
      then DiffActions(objs, conds, tracked, answers, k - 1)
    else DiffActions(objs, conds, tracked, answers, k - 1) + answers.before(k - 1)
  }

  function CleanActions(stale: seq<AppliedResource>, name: string, uid: string, answers: CleanAnswers,
      k: nat): seq<Action>
    requires k <= |stale|
  {
    if k == 0 then []
    else
      CleanActions(stale, name, uid, answers, k - 1)
      + (answers.before(k - 1) + [Clean(TargetOfId(stale[k - 1].identifier), name, uid, answers.answer(k - 1))])
  }

  /** A step of this work's own, or one of those that were said to happen in between. */
  ghost predicate OwnOrBetween(a: Action, name: string, between: nat -> seq<Action>) {
    || ((a.Apply? || a.Clean?) && a.work == name)
    || exists k :: a in between(k)
  }

  lemma RunOne(objs: Objects, a: Action)
    ensures Run(objs, [a]) == Do(objs, a)
  {
    hide Do;
    assert [a][..0] == [];
    assert Run(objs, []) == objs;
  }

  lemma {:induction false} ApplyIsRun(objs: Objects, mapper: RestMapper, ms: seq<Manifest>, name: string, uid: string,
      answers: ApplyAnswers, k: nat)
    requires k <= |ms|
    ensures ApplyUpTo(objs, mapper, ms, ControllerRef(name, uid), answers, k).objs ==
            Run(objs, ApplyActions(mapper, ms, name, uid, answers, k))
    ensures forall a :: a in ApplyActions(mapper, ms, name, uid, answers, k) ==> OwnOrBetween(a, name, answers.before)
  {
    hide ApplyManifest, Run, Decode;
    if k > 0 {
      ApplyIsRun(objs, mapper, ms, name, uid, answers, k - 1);
      var done := ApplyUpTo(objs, mapper, ms, ControllerRef(name, uid), answers, k - 1).objs;
      var before, own := answers.before(k - 1), ManifestActions(mapper, ms[k - 1], name, uid, answers.answer(k - 1));
      RunConcat(objs, ApplyActions(mapper, ms, name, uid, answers, k - 1), before + own);
      RunConcat(done, before, own);
      ManifestIsRun(Run(done, before), mapper, k - 1, ms[k - 1], name, uid, answers.answer(k - 1));
    } else {
      RunNone(objs);
    }
  }

  lemma RunNone(objs: Objects)
    ensures Run(objs, []) == objs
  {
  }

  lemma ManifestIsRun(objs: Objects, mapper: RestMapper, index: nat, m: Manifest, name: string, uid: string,
      answer: ApplyAnswer)
    ensures ApplyOne(objs, mapper, index, m, ControllerRef(name, uid), answer).objs ==
            Run(objs, ManifestActions(mapper, m, name, uid, answer))
  {
    hide ApplyManifest, Decode, Run;
    RunNone(objs);
    match Decode(mapper, m)
    case Bad(_, _) =>
    case Good(gvr, o) => RunOne(objs, Apply(gvr, o, name, uid, answer));
  }

  lemma {:induction false} DiffIsRun(objs: Objects, conds: seq<ManifestCondition>, tracked: seq<AppliedResource>,
      answers: DiffAnswers, k: nat)
    requires k <= |conds|
    ensures NewUpTo(objs, conds, tracked, answers, k).objs == Run(objs, DiffActions(objs, conds, tracked, answers, k))
    ensures forall a :: a in DiffActions(objs, conds, tracked, answers, k) ==> exists j :: a in answers.before(j)
  {
    hide EntryOf, Run;
    if k > 0 {
      DiffIsRun(objs, conds, tracked, answers, k - 1);
      RunConcat(objs, DiffActions(objs, conds, tracked, answers, k - 1), answers.before(k - 1));
    } else {
      RunNone(objs);
    }
  }

  lemma {:induction false} CleanIsRun(objs: Objects, stale: seq<AppliedResource>, name: string, uid: string,
      answers: CleanAnswers, k: nat)
    requires k <= |stale|
    ensures CleanUpTo(objs, stale, ControllerRef(name, uid), answers, k).objs ==
            Run(objs, CleanActions(stale, name, uid, answers, k))
    ensures forall a :: a in CleanActions(stale, name, uid, answers, k) ==> OwnOrBetween(a, name, answers.before)
  {
    hide CleanStale, Run;
    if k > 0 {
      CleanIsRun(objs, stale, name, uid, answers, k - 1);
      var done := CleanUpTo(objs, stale, ControllerRef(name, uid), answers, k - 1).objs;
      var clean := Clean(TargetOfId(stale[k - 1].identifier), name, uid, answers.answer(k - 1));
      RunConcat(objs, CleanActions(stale, name, uid, answers, k - 1), answers.before(k - 1) + [clean]);
      RunConcat(done, answers.before(k - 1), [clean]);
      RunOne(Run(done, answers.before(k - 1)), clean);
    } else {
      RunNone(objs);
    }
  }

  /** The atomic steps of a pass after ensureAppliedWork, with the others' steps in between. */
  function SyncActions(w: World, mapper: RestMapper, name: string, work: Work, local: AppliedWork,
      answers: PassAnswers): seq<Action> {
    var applied := ApplyAll(w.objs, mapper, work.manifests, ControllerRef(name, local.uid), answers.apply);
    var conds := StatusAfter(w, mapper, name, work, local, answers).manifestConditions;
    var u := HubUpdateStatus(w.hub, name, work.(status := StatusAfter(w, mapper, name, work, local, answers)),
      answers.statusFault);
    var diff := Diff(applied.objs, conds, local.tracked, answers.diff);
    var stale := StaleOf(local.tracked, conds);
    ApplyActions(mapper, work.manifests, name, local.uid, answers.apply, |work.manifests|)
    + (if u.result.Err? then [] else DiffActions(applied.objs, conds, local.tracked, answers.diff, |conds|))
    + (if u.result.Err? || diff.result.Err? then [] else CleanActions(stale, name, local.uid, answers.clean, |stale|))
  }

  ghost predicate Between(a: Action, answers: PassAnswers) {
    exists k :: a in answers.apply.before(k) || a in answers.diff.before(k) || a in answers.clean.before(k)
  }

  lemma SyncIsRun(w: World, mapper: RestMapper, name: string, work: Work, local: AppliedWork, answers: PassAnswers)
    ensures Sync(w, mapper, name, work, local, answers).world.objs ==
            Run(w.objs, SyncActions(w, mapper, name, work, local, answers))
    ensures forall a :: a in SyncActions(w, mapper, name, work, local, answers) ==>
                          ((a.Apply? || a.Clean?) && a.work == name) || Between(a, answers)
  {
    hide ApplyUpTo, NewUpTo, CleanUpTo, Run, StatusAfter, ApplyActions, DiffActions, CleanActions, StaleOf;
    var applied := ApplyAll(w.objs, mapper, work.manifests, ControllerRef(name, local.uid), answers.apply);
    var conds := StatusAfter(w, mapper, name, work, local, answers).manifestConditions;
    var diff := Diff(applied.objs, conds, local.tracked, answers.diff);
    var stale := StaleOf(local.tracked, conds);
    var a := ApplyActions(mapper, work.manifests, name, local.uid, answers.apply, |work.manifests|);
    var d := DiffActions(applied.objs, conds, local.tracked, answers.diff, |conds|);
    var c := CleanActions(stale, name, local.uid, answers.clean, |stale|);
    ApplyIsRun(w.objs, mapper, work.manifests, name, local.uid, answers.apply, |work.manifests|);
    DiffIsRun(applied.objs, conds, local.tracked, answers.diff, |conds|);
    CleanIsRun(diff.objs, stale, name, local.uid, answers.clean, |stale|);
    RunConcat(w.objs, a, d);
    RunConcat(w.objs, a + d, c);
    assert a + [] == a && a + [] + [] == a && a + d + [] == a + d;
  }

  function PassActions(joined: bool, w: World, mapper: RestMapper, name: string, answers: PassAnswers): seq<Action> {
    if !joined || HubGet(w.hub, name, answers.getFault).Err? || w.hub.works[name].deleting then []
    else
      var ensured := Ensure(w.hub, w.registry, name, w.hub.works[name], answers.ensure);
      if ensured.result.Err? then []
      else SyncActions(World(ensured.hub, ensured.registry, w.objs), mapper, name, ensured.work, ensured.result.value,
        answers)
  }

  /**
   Whatever the API answers, the objects after a pass are those of a run whose steps are this
   work's own applies and clean-ups and the steps others took in between.
   */
  lemma PassIsRun(joined: bool, w: World, mapper: RestMapper, name: string, answers: PassAnswers)
    ensures Pass(joined, w, mapper, name, answers).world.objs ==
            Run(w.objs, PassActions(joined, w, mapper, name, answers))
    ensures forall a :: a in PassActions(joined, w, mapper, name, answers) ==>
                          ((a.Apply? || a.Clean?) && a.work == name) || Between(a, answers)
  {
    hide Sync, Ensure, Collect, SyncActions, Run;
    RunNone(w.objs);
    if joined && HubGet(w.hub, name, answers.getFault).Ok? && !w.hub.works[name].deleting {
      var ensured := Ensure(w.hub, w.registry, name, w.hub.works[name], answers.ensure);
      if ensured.result.Ok? {
        var w' := World(ensured.hub, ensured.registry, w.objs);
        SyncIsRun(w', mapper, name, ensured.work, ensured.result.value, answers);
      }
    }
  }

  /** A pass never changes or deletes an object no AppliedWork owns, however it interleaves with other passes. */
  lemma PassLeavesForeignAlone(joined: bool, w: World, mapper: RestMapper, name: string, answers: PassAnswers,
      t: Target)
    requires forall a :: Between(a, answers) ==> !a.Outside?
    requires t in w.objs && !Managed(w.objs, t)
    ensures var after := Pass(joined, w, mapper, name, answers).world.objs; t in after && after[t] == w.objs[t]
  {
    hide Pass, Run, Managed, PassActions;
    PassIsRun(joined, w, mapper, name, answers);
    ForeignUntouched(w.objs, PassActions(joined, w, mapper, name, answers), t);
  }

  /** What ensureAppliedWork has made sure of: both records are stored, and the work is not going away. */
  predicate BothStored(joined: bool, w: World, name: string, answers: PassAnswers) {
    && joined && name in w.hub.works && !w.hub.works[name].deleting
    && var e := Ensure(w.hub, w.registry, name, w.hub.works[name], answers.ensure);
       e.result.Ok? && name in e.registry.applied && name in e.hub.works && HasFinalizer(e.hub.works[name])
  }

  /**
   Whatever others do in between: a pass issues a write on a manifest object, or takes any
   apply or clean-up step, only when the AppliedWork and the finalizer are stored.
   */
  lemma WritesOnlyWhenPersisted(joined: bool, w: World, mapper: RestMapper, name: string, answers: PassAnswers)
    ensures var out := Pass(joined, w, mapper, name, answers);
            out.writes > 0 || PassActions(joined, w, mapper, name, answers) != [] || out.world.objs != w.objs ==>
              BothStored(joined, w, name, answers)
  {
    hide Sync, SyncActions;
  }

  // ---------------------------------------------------------------------------------
  // Nothing tracked is lost silently.
  // ---------------------------------------------------------------------------------

  predicate ManifestsWellFormed(ms: seq<Manifest>) {
    forall i :: 0 <= i < |ms| && ms[i].Decoded? ==> NoDuplicates(ms[i].obj.owners)
  }

  ghost predicate PeacefulPass(answers: PassAnswers, name: string) {
    Peaceful(answers.apply.before, name) && Peaceful(answers.diff.before, name) && Peaceful(answers.clean.before, name)
  }

  /** The tracked list of a work, empty when there is no AppliedWork. */
  function TrackedBy(w: World, name: string): seq<AppliedResource> {
    if name in w.registry.applied then w.registry.applied[name].tracked else []
  }

  /** The conditions the hub holds for a work. */
  function ConditionsOf(w: World, name: string): seq<ManifestCondition> {
    if name in w.hub.works then w.hub.works[name].status.manifestConditions else []
  }

  /**
   A formerly tracked resource is still tracked exactly when the published status reports it
   applied; if the status does not speak of it, it is no longer owned by the work; what is
   left is a resource the status reports as failed.
   */
  ghost predicate Accounted(e: AppliedResource, conds: seq<ManifestCondition>, tracked: seq<AppliedResource>,
      objs: Objects, name: string) {
    && ((exists n :: n in tracked && SameResource(n.identifier, e.identifier)) <==>
      HasAppliedCondition(conds, e.identifier))
    && (!HasCondition(conds, e.identifier) ==> !Owns(objs, TargetOfId(e.identifier), name))
  }

  ghost predicate AccountedFor(e: AppliedResource, after: World, name: string) {
    Accounted(e, ConditionsOf(after, name), TrackedBy(after, name), after.objs, name)
  }

  lemma {:induction false} ApplyActionsAreWellFormed(mapper: RestMapper, ms: seq<Manifest>, name: string, uid: string,
      answers: ApplyAnswers, k: nat)
    requires k <= |ms| && ManifestsWellFormed(ms)
    requires forall j, a :: a in answers.before(j) ==> WellFormed(a)
    ensures forall a :: a in ApplyActions(mapper, ms, name, uid, answers, k) ==> WellFormed(a)
  {
    if k > 0 {
      ApplyActionsAreWellFormed(mapper, ms, name, uid, answers, k - 1);
    }
  }

  lemma {:induction false} DiffActionsAreWellFormed(objs: Objects, conds: seq<ManifestCondition>,
      tracked: seq<AppliedResource>, answers: DiffAnswers, k: nat)
    requires k <= |conds|
    requires forall j, a :: a in answers.before(j) ==> WellFormed(a)
    ensures forall a :: a in DiffActions(objs, conds, tracked, answers, k) ==> WellFormed(a)
  {
    hide NewUpTo;
    if k > 0 {
      DiffActionsAreWellFormed(objs, conds, tracked, answers, k - 1);
    }
  }

  lemma {:induction false} CleanActionsAreWellFormed(stale: seq<AppliedResource>, name: string, uid: string,
      answers: CleanAnswers, k: nat)
    requires k <= |stale|
    requires forall j, a :: a in answers.before(j) ==> WellFormed(a)
    ensures forall a :: a in CleanActions(stale, name, uid, answers, k) ==> WellFormed(a)
  {
    if k > 0 {
      CleanActionsAreWellFormed(stale, name, uid, answers, k - 1);
    }
  }

  /** A committed sync accounts for everything its local copy tracked. */
  lemma SyncAccountsForTracked(w: World, mapper: RestMapper, name: string, work: Work, local: AppliedWork,
      answers: PassAnswers)
    requires Tidy(w.objs) && ManifestsWellFormed(work.manifests) && PeacefulPass(answers, name)
    requires Sync(w, mapper, name, work, local, answers).committed
    ensures forall e :: e in local.tracked ==> AccountedFor(e, Sync(w, mapper, name, work, local, answers).world, name)
  {
    hide ApplyUpTo, NewUpTo, CleanUpTo, Run, StatusAfter, ApplyActions, DiffActions, StaleOf, Tidy, Owns,
      HasAppliedCondition, HasCondition, SameResource;
    var applied := ApplyAll(w.objs, mapper, work.manifests, ControllerRef(name, local.uid), answers.apply);
    var conds := StatusAfter(w, mapper, name, work, local, answers).manifestConditions;
    var diff := Diff(applied.objs, conds, local.tracked, answers.diff);
    var stale := StaleOf(local.tracked, conds);
    ApplyIsRun(w.objs, mapper, work.manifests, name, local.uid, answers.apply, |work.manifests|);
    ApplyActionsAreWellFormed(mapper, work.manifests, name, local.uid, answers.apply, |work.manifests|);
    RunKeepsTidy(w.objs, ApplyActions(mapper, work.manifests, name, local.uid, answers.apply, |work.manifests|));
    DiffIsRun(applied.objs, conds, local.tracked, answers.diff, |conds|);
    DiffActionsAreWellFormed(applied.objs, conds, local.tracked, answers.diff, |conds|);
    RunKeepsTidy(applied.objs, DiffActions(applied.objs, conds, local.tracked, answers.diff, |conds|));
    CleanedAreNotOwned(diff.objs, stale, name, local.uid, answers.clean, |stale|);
    var after := Sync(w, mapper, name, work, local, answers).world;
    assert ConditionsOf(after, name) == conds && TrackedBy(after, name) == diff.result.value;
    forall e | e in local.tracked ensures AccountedFor(e, after, name) {
      FateOfTracked(applied.objs, conds, local.tracked, answers.diff, e);
      if e in stale {
        var i :| 0 <= i < |stale| && stale[i] == e;
        assert !Owns(after.objs, TargetOfId(stale[i].identifier), name);
      }
    }
  }

  /** A sync that does not commit leaves every AppliedWork as it was; one that does had the stored copy. */
  lemma SyncCommitsStored(w: World, mapper: RestMapper, name: string, work: Work, local: AppliedWork,
      answers: PassAnswers)
    ensures var out := Sync(w, mapper, name, work, local, answers);
            && (!out.committed ==> out.world.registry == w.registry)
            && (out.committed ==> name in w.registry.applied && local.resourceVersion != 0
                                  && w.registry.applied[name].resourceVersion == local.resourceVersion)
  {
    hide ApplyUpTo, NewUpTo, CleanUpTo, StatusAfter, StaleOf;
  }

  /**
   Over any pass with any failures, interleaved with anything outsiders do and with other works'
   steps, whose manifests may not name this work's AppliedWork as an owner: if it commits, every
   formerly tracked resource is accounted for; if it does not, and the work is not being
   deleted, the tracked list is unchanged.
   */
  lemma NoSilentLoss(w: World, mapper: RestMapper, name: string, answers: PassAnswers)
    requires Tidy(w.objs) && PeacefulPass(answers, name)
    requires name in w.hub.works ==> ManifestsWellFormed(w.hub.works[name].manifests) && !w.hub.works[name].deleting
    ensures var out := Pass(true, w, mapper, name, answers);
            if out.committed then forall e :: e in TrackedBy(w, name) ==> AccountedFor(e, out.world, name)
            else TrackedBy(out.world, name) == TrackedBy(w, name)
  {
    hide Sync, AccountedFor, Tidy;
    if HubGet(w.hub, name, answers.getFault).Ok? {
      var ensured := Ensure(w.hub, w.registry, name, w.hub.works[name], answers.ensure);
      if ensured.result.Ok? {
        var w' := World(ensured.hub, ensured.registry, w.objs);
        var out := Sync(w', mapper, name, ensured.work, ensured.result.value, answers);
        SyncCommitsStored(w', mapper, name, ensured.work, ensured.result.value, answers);
        if out.committed {
          SyncAccountsForTracked(w', mapper, name, ensured.work, ensured.result.value, answers);
        }
      }
    }
  }

  /**
   A commit implies that no stale removal failed; and once clean-up is reached, failed removals
   are exactly what the pass returns, without requeue and with every tracked list unchanged.
   */
  lemma FailedRemovalKeepsTracking(w: World, mapper: RestMapper, name: string, work: Work, local: AppliedWork,
      answers: PassAnswers)
    ensures var applied := ApplyAll(w.objs, mapper, work.manifests, ControllerRef(name, local.uid), answers.apply);
            var conds := StatusAfter(w, mapper, name, work, local, answers).manifestConditions;
            var diff := Diff(applied.objs, conds, local.tracked, answers.diff);
            var clean := CleanAll(diff.objs, StaleOf(local.tracked, conds), ControllerRef(name, local.uid),
              answers.clean);
            var out := Sync(w, mapper, name, work, local, answers);
            && (out.committed ==> diff.result.Ok? && clean.errors == [])
            && (HubRefusal(w.hub, name, work, answers.statusFault).None? && diff.result.Ok? && clean.errors != [] ==>
                  out.errors == clean.errors && out.requeueAfter == 0 && out.world.registry == w.registry)
  {
    hide ApplyUpTo, NewUpTo, CleanUpTo, StatusAfter, StaleOf;
  }

  /**
   Once the status is out, a pass ends without commit, without requeue and without an error exactly
   when a lookup failed.
   */
  lemma FailedLookupIsSilent(w: World, mapper: RestMapper, name: string, work: Work, local: AppliedWork,
      answers: PassAnswers)
    ensures var status := StatusAfter(w, mapper, name, work, local, answers);
            var applied := ApplyAll(w.objs, mapper, work.manifests, ControllerRef(name, local.uid), answers.apply);
            var out := Sync(w, mapper, name, work, local, answers);
            HubRefusal(w.hub, name, work, answers.statusFault).None? ==>
              (Diff(applied.objs, status.manifestConditions, local.tracked, answers.diff).result.Err? <==>
                !out.committed && out.requeueAfter == 0 && out.errors == [])
  {
    hide ApplyUpTo, NewUpTo, CleanUpTo, StatusAfter, StaleOf;
  }

  // ---------------------------------------------------------------------------------
  // What a pass publishes.
  // ---------------------------------------------------------------------------------

  /** No two manifests are reported under one identifier; those that do not decode have only their ordinals. */
  predicate DistinctlyIdentified(mapper: RestMapper, ms: seq<Manifest>) {
    forall i, j :: 0 <= i < j < |ms| ==>
                     || Unordered(IdentifierOf(mapper, i, ms[i])) != Unordered(IdentifierOf(mapper, j, ms[j]))
                     || OrdinalOnly(IdentifierOf(mapper, i, ms[i]))
  }

  lemma IdentifiedResultsAreDistinct(objs: Objects, mapper: RestMapper, ms: seq<Manifest>, owner: OwnerRef,
      answers: ApplyAnswers)
    requires DistinctlyIdentified(mapper, ms)
    ensures DistinctResults(ApplyAll(objs, mapper, ms, owner, answers).results)
  {
    hide ApplyUpTo, IdentifierOf, Decode, OrdinalOnly;
    var results := ApplyAll(objs, mapper, ms, owner, answers).results;
    forall i | 0 <= i < |ms|
      ensures results[i].identifier == IdentifierOf(mapper, i, ms[i]) && results[i].identifier.ordinal == i {
      SuccessIsMapped(objs, mapper, ms, owner, answers, |ms|, i);
      OrdinalIsIndex(mapper, i, ms[i]);
    }
  }

  lemma OrdinalIsIndex(mapper: RestMapper, index: nat, m: Manifest)
    ensures IdentifierOf(mapper, index, m).ordinal == index
  {
  }

  /** Applying manifest i alone to these objects fails. */
  predicate FailsAlone(objs: Objects, mapper: RestMapper, ms: seq<Manifest>, owner: OwnerRef, answers: ApplyAnswers,
      i: nat)
    requires i < |ms|
  {
    Failed(ApplyOne(objs, mapper, i, ms[i], owner, answers.answer(i)).result)
  }

  /** A status says of each manifest whether it applies alone, and of the work whether all do. */
  predicate TellsTruth(s: WorkStatus, objs: Objects, mapper: RestMapper, ms: seq<Manifest>, owner: OwnerRef,
      answers: ApplyAnswers) {
    && |s.manifestConditions| == |ms|
    && (forall i :: 0 <= i < |ms| ==>
                      && s.manifestConditions[i].identifier == IdentifierOf(mapper, i, ms[i])
                      && (AppliedIs(s.manifestConditions[i].conditions, False) <==>
                        FailsAlone(objs, mapper, ms, owner, answers, i))
                      && (AppliedIs(s.manifestConditions[i].conditions, True) <==>
                        !FailsAlone(objs, mapper, ms, owner, answers, i)))
    && (AppliedIs(s.conditions, True) <==> forall i :: 0 <= i < |ms| ==>
      !FailsAlone(objs, mapper, ms, owner, answers, i))
  }

  lemma StatusTellsTruth(w: World, mapper: RestMapper, name: string, work: Work, local: AppliedWork,
      answers: PassAnswers)
    requires DistinctTargets(mapper, work.manifests) && DistinctlyIdentified(mapper, work.manifests)
             && Undisturbed(answers.apply.before)
    ensures TellsTruth(StatusAfter(w, mapper, name, work, local, answers), w.objs, mapper, work.manifests,
            ControllerRef(name, local.uid), answers.apply)
  {
    hide ApplyUpTo, ApplyOne, IdentifierOf, AppliedIs, NewStatus, AloneAt, DistinctTargets, DistinctlyIdentified,
      DistinctResults;
    var ms, owner := work.manifests, ControllerRef(name, local.uid);
    var results := ApplyAll(w.objs, mapper, ms, owner, answers.apply).results;
    ManifestsAreIndependent(w.objs, mapper, ms, owner, answers.apply);
    IdentifiedResultsAreDistinct(w.objs, mapper, ms, owner, answers.apply);
    StatusTruth(results, work.status, work.generation, answers.env);
    forall i | 0 <= i < |ms| ensures Failed(results[i]) <==> FailsAlone(w.objs, mapper, ms, owner, answers.apply, i) {}
  }

  /**
   From manifests to the hub: once the status update is accepted, and whatever becomes of diff,
   clean-up and commit, the hub says of each manifest whether applying it alone to the starting
   cluster succeeds, and of the work whether all do. If it is refused nothing is cleaned up.
   */
  lemma PublishedStatusIsTrue(w: World, mapper: RestMapper, name: string, work: Work, local: AppliedWork,
      answers: PassAnswers)
    requires DistinctTargets(mapper, work.manifests) && DistinctlyIdentified(mapper, work.manifests)
             && Undisturbed(answers.apply.before)
    ensures var ms, owner := work.manifests, ControllerRef(name, local.uid);
            var refused := HubRefusal(w.hub, name, work, answers.statusFault);
            var out := Sync(w, mapper, name, work, local, answers);
            if refused.Some? then
              out.errors == [refused.value] && !out.committed
                && out.world == w.(objs := ApplyAll(w.objs, mapper, ms, owner, answers.apply).objs)
            else
              name in out.world.hub.works
                && TellsTruth(out.world.hub.works[name].status, w.objs, mapper, ms, owner, answers.apply)
  {
    hide TellsTruth, StatusAfter, ApplyUpTo, NewUpTo, CleanUpTo, StaleOf, DistinctTargets, DistinctlyIdentified;
    StatusTellsTruth(w, mapper, name, work, local, answers);
  }

  // ---------------------------------------------------------------------------------
  // Clean-up never undoes the same pass's apply.
  // ---------------------------------------------------------------------------------

  /** The identifier's resource name is the one its kind is served by. */
  predicate Mapped(mapper: RestMapper, id: ResourceIdentifier) {
    var gvk := Gvk(id.group, id.version, id.kind);
    gvk in mapper && mapper[gvk] == id.resource
  }

  /** Tracked entries are of kinds the mapper knows, and have names. */
  predicate WellTracked(mapper: RestMapper, tracked: seq<AppliedResource>) {
    forall e :: e in tracked ==> Mapped(mapper, e.identifier) && e.identifier.name != ""
  }

  lemma IdentifierIsMapped(mapper: RestMapper, index: nat, m: Manifest)
    ensures Decode(mapper, m).Good? ==>
              && Mapped(mapper, IdentifierOf(mapper, index, m))
              && ManifestTarget(mapper, m) == Some(TargetOfId(IdentifierOf(mapper, index, m)))
  {
    hide GvkOf;
  }

  /** A successful result has a mapped identifier. */
  lemma {:induction false} SuccessIsMapped(objs: Objects, mapper: RestMapper, ms: seq<Manifest>, owner: OwnerRef,
      answers: ApplyAnswers, k: nat, i: nat)
    requires i < k <= |ms|
    ensures var r := ApplyUpTo(objs, mapper, ms, owner, answers, k).results[i];
            && r.identifier == IdentifierOf(mapper, i, ms[i])
            && (!Failed(r) ==> Decode(mapper, ms[i]).Good? && Mapped(mapper, r.identifier))
  {
    hide ApplyManifest, IdentifierOf, Decode, Run;
    if i < k - 1 {
      SuccessIsMapped(objs, mapper, ms, owner, answers, k - 1, i);
    } else {
      IdentifierIsMapped(mapper, i, ms[i]);
    }
  }

  /** Results that succeeded have mapped identifiers. */
  predicate SuccessesMapped(mapper: RestMapper, results: seq<ApplyResult>) {
    forall i :: 0 <= i < |results| && !Failed(results[i]) ==> Mapped(mapper, results[i].identifier)
  }

  /** Conditions that say applied have mapped identifiers. */
  predicate AppliedMapped(mapper: RestMapper, conds: seq<ManifestCondition>) {
    forall i :: 0 <= i < |conds| && AppliedIs(conds[i].conditions, True) ==> Mapped(mapper, conds[i].identifier)
  }

  /** So a status has, even when condition lists are shared. */
  lemma StatusIsMapped(mapper: RestMapper, results: seq<ApplyResult>, status: WorkStatus, generation: int, env: Env)
    requires SuccessesMapped(mapper, results)
    ensures AppliedMapped(mapper, NewStatus(results, status, generation, env).manifestConditions)
  {
    hide FinalConditions, AppliedIs;
    var olds := status.manifestConditions;
    var conds := NewConditions(results, olds, env);
    forall i | 0 <= i < |conds| && AppliedIs(conds[i].conditions, True) ensures Mapped(mapper, conds[i].identifier) {
      ConditionReportsLastWriter(results, olds, env, i);
      NotBoth(conds[i].conditions);
      assert Mapped(mapper, results[LastWriter(results, olds, env, i)].identifier);
    }
  }

  lemma PublishedIsMapped(w: World, mapper: RestMapper, name: string, work: Work, local: AppliedWork,
      answers: PassAnswers)
    ensures AppliedMapped(mapper, StatusAfter(w, mapper, name, work, local, answers).manifestConditions)
  {
    hide ApplyUpTo, NewStatus, AppliedMapped, IdentifierOf, Mapped;
    var owner := ControllerRef(name, local.uid);
    var results := ApplyAll(w.objs, mapper, work.manifests, owner, answers.apply).results;
    forall i | 0 <= i < |results| && !Failed(results[i]) ensures Mapped(mapper, results[i].identifier) {
      SuccessIsMapped(w.objs, mapper, work.manifests, owner, answers.apply, |work.manifests|, i);
    }
    StatusIsMapped(mapper, results, work.status, work.generation, answers.env);
  }

  /** So any status a pass publishes meets the condition under which diffs are idempotent. */
  lemma PublishedIsDetermined(w: World, mapper: RestMapper, name: string, work: Work, local: AppliedWork,
      answers: PassAnswers)
    ensures ResourceDetermined(StatusAfter(w, mapper, name, work, local, answers).manifestConditions)
  {
    hide StatusAfter, AppliedIs;
    PublishedIsMapped(w, mapper, name, work, local, answers);
  }

  lemma NotBoth(conds: seq<Condition>)
    ensures !(AppliedIs(conds, True) && AppliedIs(conds, False))
  {
  }

  /** Mapped identifiers that name one object name one resource, because the mapper is injective. */
  lemma SameTargetSameResource(mapper: RestMapper, a: ResourceIdentifier, b: ResourceIdentifier)
    requires Injective(mapper) && Mapped(mapper, a) && Mapped(mapper, b) && TargetOfId(a) == TargetOfId(b)
    ensures SameResource(a, b)
  {
    var k, l := Gvk(a.group, a.version, a.kind), Gvk(b.group, b.version, b.kind);
    assert mapper[k] == mapper[l];
  }

  /** The targets of stale entries are none of the targets the pass applied to. */
  lemma StaleTargetsAreNotApplied(mapper: RestMapper, tracked: seq<AppliedResource>, conds: seq<ManifestCondition>,
      ms: seq<Manifest>, s: AppliedResource, i: nat)
    requires Injective(mapper) && WellTracked(mapper, tracked)
    requires |conds| == |ms| && forall j :: 0 <= j < |ms| ==> conds[j].identifier == IdentifierOf(mapper, j, ms[j])
    requires s in StaleOf(tracked, conds) && i < |ms|
    ensures ManifestTarget(mapper, ms[i]) != Some(TargetOfId(s.identifier))
  {
    hide IdentifierOf, ManifestTarget;
    StaleExactly(tracked, conds, s);
    IdentifierIsMapped(mapper, i, ms[i]);
    assert !SameResource(s.identifier, conds[i].identifier);
    if ManifestTarget(mapper, ms[i]) == Some(TargetOfId(s.identifier)) {
      ManifestTargetIsGood(mapper, ms[i]);
      SameTargetSameResource(mapper, s.identifier, conds[i].identifier);
      assert false;
    }
  }

  lemma ManifestTargetIsGood(mapper: RestMapper, m: Manifest)
    ensures ManifestTarget(mapper, m).Some? <==> Decode(mapper, m).Good?
  {
    hide Decode;
  }

  /** What a pass applied is still as applied, or as others left it, when its clean-up has run. */
  lemma CleanupNeverUndoesApply(w: World, mapper: RestMapper, name: string, work: Work, local: AppliedWork,
      answers: PassAnswers, i: nat)
    requires Injective(mapper) && WellTracked(mapper, local.tracked)
    requires i < |work.manifests| && ManifestTarget(mapper, work.manifests[i]).Some?
    ensures var conds := StatusAfter(w, mapper, name, work, local, answers).manifestConditions;
            var t := ManifestTarget(mapper, work.manifests[i]).value;
            && (forall s :: s in StaleOf(local.tracked, conds) ==> TargetOfId(s.identifier) != t)
            && (Undisturbed(answers.clean.before) ==>
                  forall objs :: SameAt(CleanAll(objs, StaleOf(local.tracked, conds), ControllerRef(name, local.uid),
                    answers.clean).objs, objs, t))
  {
    hide ApplyUpTo, FinalConditions, IdentifierOf, ManifestTarget, StaleOf, CleanUpTo;
    var owner := ControllerRef(name, local.uid);
    var results := ApplyAll(w.objs, mapper, work.manifests, owner, answers.apply).results;
    var conds := StatusAfter(w, mapper, name, work, local, answers).manifestConditions;
    var t := ManifestTarget(mapper, work.manifests[i]).value;
    var stale := StaleOf(local.tracked, conds);
    forall j | 0 <= j < |work.manifests| ensures conds[j].identifier == IdentifierOf(mapper, j, work.manifests[j]) {
      SuccessIsMapped(w.objs, mapper, work.manifests, owner, answers.apply, |work.manifests|, j);
    }
    forall s | s in stale ensures TargetOfId(s.identifier) != t {
      StaleTargetsAreNotApplied(mapper, local.tracked, conds, work.manifests, s, i);
    }
    if Undisturbed(answers.clean.before) {
      forall objs ensures SameAt(CleanAll(objs, stale, owner, answers.clean).objs, objs, t) {
        CleanTouchesOnlyStale(objs, stale, owner, answers.clean, |stale|, t);
      }
    }
  }

  /** Every AppliedWork's list stays well tracked through any pass. */
  lemma PassKeepsWellTracked(joined: bool, w: World, mapper: RestMapper, name: string, answers: PassAnswers, n: string)
    requires WellTracked(mapper, TrackedBy(w, n))
    ensures WellTracked(mapper, TrackedBy(Pass(joined, w, mapper, name, answers).world, n))
  {
    hide Sync, WellTracked;
    assert WellTracked(mapper, []) by { NothingIsWellTracked(mapper); }
    if joined && HubGet(w.hub, name, answers.getFault).Ok? && !w.hub.works[name].deleting {
      var ensured := Ensure(w.hub, w.registry, name, w.hub.works[name], answers.ensure);
      if ensured.result.Ok? {
        SyncKeepsWellTracked(World(ensured.hub, ensured.registry, w.objs), mapper, name, ensured.work,
          ensured.result.value, answers, n);
      }
    }
  }

  /**
   A work with a generated name in it never gets past the lookup: once the status published for
   that manifest says applied, the pass cleans nothing up, commits nothing, asks for no requeue
   and reports no error. As tracked entries keep their names, this repeats with every pass.
   */
  lemma GeneratedNameNeverCommits(w: World, mapper: RestMapper, name: string, work: Work, local: AppliedWork,
      answers: PassAnswers, i: nat)
    requires WellTracked(mapper, local.tracked) && i < |work.manifests|
    requires var d := Decode(mapper, work.manifests[i]); d.Good? && HasGeneratedName(d.obj)
    ensures var applied := ApplyAll(w.objs, mapper, work.manifests, ControllerRef(name, local.uid), answers.apply);
            var conds := StatusAfter(w, mapper, name, work, local, answers).manifestConditions;
            var out := Sync(w, mapper, name, work, local, answers);
            && |conds| == |work.manifests|
            && (AppliedIs(conds[i].conditions, True) && HubRefusal(w.hub, name, work, answers.statusFault).None? ==>
                  && !out.committed && out.requeueAfter == 0 && out.errors == []
                  && out.writes == applied.writes && out.world.registry == w.registry)
  {
    hide ApplyUpTo, NewUpTo, CleanUpTo, FinalConditions, StaleOf, AppliedIs;
    var owner := ControllerRef(name, local.uid);
    var applied := ApplyAll(w.objs, mapper, work.manifests, owner, answers.apply);
    var conds := StatusAfter(w, mapper, name, work, local, answers).manifestConditions;
    SuccessIsMapped(w.objs, mapper, work.manifests, owner, answers.apply, |work.manifests|, i);
    if AppliedIs(conds[i].conditions, True) && Diff(applied.objs, conds, local.tracked, answers.diff).result.Ok? {
      SuccessfulLookupsNamed(applied.objs, conds, local.tracked, answers.diff, |conds|, i);
    }
  }

  lemma NothingIsWellTracked(mapper: RestMapper)
    ensures WellTracked(mapper, [])
  {
  }

  lemma SyncKeepsWellTracked(w: World, mapper: RestMapper, name: string, work: Work, local: AppliedWork,
      answers: PassAnswers, n: string)
    requires WellTracked(mapper, TrackedBy(w, n)) && (n == name ==> WellTracked(mapper, local.tracked))
    ensures WellTracked(mapper, TrackedBy(Sync(w, mapper, name, work, local, answers).world, n))
  {
    hide ApplyUpTo, NewUpTo, CleanUpTo, StatusAfter, StaleOf;
    if Sync(w, mapper, name, work, local, answers).committed && n == name {
      var applied := ApplyAll(w.objs, mapper, work.manifests, ControllerRef(name, local.uid), answers.apply);
      var conds := StatusAfter(w, mapper, name, work, local, answers).manifestConditions;
      DiffCollects(applied.objs, conds, local.tracked, answers.diff, |conds|);
      PublishedIsMapped(w, mapper, name, work, local, answers);
      CollectedIsWellTracked(mapper, conds, local.tracked,
        NewUpTo(applied.objs, conds, local.tracked, answers.diff, |conds|).result.value);
    }
  }

  /** What is collected from mapped conditions is well tracked again. */
  lemma CollectedIsWellTracked(mapper: RestMapper, conds: seq<ManifestCondition>, tracked: seq<AppliedResource>,
      added: seq<AppliedResource>)
    requires AppliedMapped(mapper, conds) && WellTracked(mapper, tracked) && Collected(conds, tracked, added, |conds|)
    ensures WellTracked(mapper, added)
  {
    hide AppliedIs, Mapped;
    forall e | e in added ensures Mapped(mapper, e.identifier) && e.identifier.name != "" {
      assert FromCondition(conds, |conds|, e.identifier);
      var i :| 0 <= i < |conds| && conds[i].identifier == e.identifier && AppliedIs(conds[i].conditions, True);
      assert TrackedAt(tracked, e.identifier).Some? ==>
        SameResource(tracked[TrackedAt(tracked, e.identifier).value].identifier, e.identifier);
    }
  }

  // ---------------------------------------------------------------------------------
  // What a pass leaves of the manifests, and the steps it takes.
  // ---------------------------------------------------------------------------------

  predicate SameManifests(before: HubState, after: HubState, n: string) {
    n in after.works ==> n in before.works && after.works[n].manifests == before.works[n].manifests
  }

  lemma SyncKeepsManifests(w: World, mapper: RestMapper, name: string, work: Work, local: AppliedWork,
      answers: PassAnswers, n: string)
    ensures SameManifests(w.hub, Sync(w, mapper, name, work, local, answers).world.hub, n)
  {
    hide ApplyUpTo, NewUpTo, CleanUpTo, StatusAfter, StaleOf, UpdateAppliedStatus;
  }

  lemma EnsureKeepsManifests(hub: HubState, reg: Registry, name: string, work: Work, answer: EnsureAnswer, n: string)
    requires name in hub.works && hub.works[name] == work
    ensures SameManifests(hub, Ensure(hub, reg, name, work, answer).hub, n)
    ensures Ensure(hub, reg, name, work, answer).work.manifests == work.manifests
  {
    hide HasFinalizer, CreateApplied, GetApplied;
  }

  lemma CollectKeepsManifests(hub: HubState, reg: Registry, name: string, work: Work, deleteFault: Option<string>,
      updateFault: Option<string>, n: string)
    requires name in hub.works && hub.works[name] == work
    ensures SameManifests(hub, Collect(hub, reg, name, work, deleteFault, updateFault).hub, n)
  {
    hide HasFinalizer, DeleteApplied, WithoutFinalizer;
  }

  /** A pass never changes what a work asks for. */
  lemma PassKeepsManifests(joined: bool, w: World, mapper: RestMapper, name: string, answers: PassAnswers, n: string)
    ensures SameManifests(w.hub, Pass(joined, w, mapper, name, answers).world.hub, n)
  {
    hide Sync, Ensure, Collect;
    if name in w.hub.works {
      var work := w.hub.works[name];
      CollectKeepsManifests(w.hub, w.registry, name, work, answers.deleteFault, answers.releaseFault, n);
      EnsureKeepsManifests(w.hub, w.registry, name, work, answers.ensure, n);
      var ensured := Ensure(w.hub, w.registry, name, work, answers.ensure);
      if ensured.result.Ok? {
        SyncKeepsManifests(World(ensured.hub, ensured.registry, w.objs), mapper, name, ensured.work,
          ensured.result.value, answers, n);
      }
    }
  }

  lemma SyncStepsAreWellFormed(w: World, mapper: RestMapper, name: string, work: Work, local: AppliedWork,
      answers: PassAnswers)
    requires ManifestsWellFormed(work.manifests)
    requires forall a :: Between(a, answers) ==> WellFormed(a)
    ensures forall a :: a in SyncActions(w, mapper, name, work, local, answers) ==> WellFormed(a)
  {
    hide ApplyUpTo, NewUpTo, CleanUpTo, StatusAfter, StaleOf, ApplyActions, DiffActions, CleanActions, WellFormed,
      ManifestsWellFormed;
    var applied := ApplyAll(w.objs, mapper, work.manifests, ControllerRef(name, local.uid), answers.apply);
    var conds := StatusAfter(w, mapper, name, work, local, answers).manifestConditions;
    var stale := StaleOf(local.tracked, conds);
    ApplyActionsAreWellFormed(mapper, work.manifests, name, local.uid, answers.apply, |work.manifests|);
    DiffActionsAreWellFormed(applied.objs, conds, local.tracked, answers.diff, |conds|);
    CleanActionsAreWellFormed(stale, name, local.uid, answers.clean, |stale|);
  }

  lemma PassStepsAreWellFormed(joined: bool, w: World, mapper: RestMapper, name: string, answers: PassAnswers)
    requires name in w.hub.works ==> ManifestsWellFormed(w.hub.works[name].manifests)
    requires forall a :: Between(a, answers) ==> WellFormed(a)
    ensures forall a :: a in PassActions(joined, w, mapper, name, answers) ==> WellFormed(a)
  {
    hide SyncActions, WellFormed, ManifestsWellFormed, Ensure;
    if joined && HubGet(w.hub, name, answers.getFault).Ok? {
      EnsureKeepsManifests(w.hub, w.registry, name, w.hub.works[name], answers.ensure, name);
      var ensured := Ensure(w.hub, w.registry, name, w.hub.works[name], answers.ensure);
      if ensured.result.Ok? {
        SyncStepsAreWellFormed(World(ensured.hub, ensured.registry, w.objs), mapper, name, ensured.work,
          ensured.result.value, answers);
      }
    }
  }
}
