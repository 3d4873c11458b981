/**
 Passes inside histories: a pass run alone is a run of the interleaving machine, and from any
 reachable state a good pass leaves the work owning what it applied, with nothing left to do.
 */
module Histories {
  import opened Wrappers
  import opened OwnerReferences
  import opened Manifests
  import opened WorkApi
  import opened Spoke
  import opened SpokeRuns
  import opened Conditions
  import opened Lifecycle
  import opened Applying
  import opened Syncer
  import opened Reconciler
  import opened Tracking
  import opened Interleaving
  import Fixpoint
  import Convergence

  // ---------------------------------------------------------------------------------
  // Ownership after a good pass.
  // ---------------------------------------------------------------------------------

  /** An up-to-date object of a sound history lists the work's current reference unless it was stripped. */
  lemma UpToDateIsOwned(h: History, mapper: RestMapper, m: Manifest, name: string, uid: string)
    requires Sound(h) && Fixpoint.UpToDate(h.objs, mapper, m, ControllerRef(name, uid))
    ensures ManifestTarget(mapper, m).Some?
    ensures var t := ManifestTarget(mapper, m).value;
            && t in h.objs
            && (Owns(h.objs, t, name) <==> (t, name) !in h.stripped)
            && (Owns(h.objs, t, name) <==> ControllerRef(name, uid) in h.objs[t].owners)
  {
    hide GvkOf, Sound, Owns, ManifestHash, IsManagedByWork;
    var d := Decode(mapper, m);
    var answer := ApplyAnswer(None, None, ServerFields("", "", "", NO_LIVE, map[]));
    MatchingHashOwns(h, Apply(d.gvr, d.obj, name, uid, answer));
  }

  lemma {:induction false} ApplyActionsApply(mapper: RestMapper, ms: seq<Manifest>, name: string, uid: string,
      answers: ApplyAnswers, k: nat)
    requires k <= |ms| && Undisturbed(answers.before)
    ensures forall a :: a in ApplyActions(mapper, ms, name, uid, answers, k) ==> a.Apply?
  {
    hide Decode;
    if k > 0 {
      ApplyActionsApply(mapper, ms, name, uid, answers, k - 1);
    }
  }

  lemma {:induction false} NoDiffActions(objs: Objects, conds: seq<ManifestCondition>, tracked: seq<AppliedResource>,
      answers: DiffAnswers, k: nat)
    requires k <= |conds| && Undisturbed(answers.before)
    ensures DiffActions(objs, conds, tracked, answers, k) == []
  {
    hide NewUpTo;
    if k > 0 {
      NoDiffActions(objs, conds, tracked, answers, k - 1);
    }
  }

  lemma {:induction false} CleanActionsCleanStale(stale: seq<AppliedResource>, name: string, uid: string,
      answers: CleanAnswers, k: nat, t: Target)
    requires k <= |stale| && Undisturbed(answers.before)
    requires forall e :: e in stale ==> TargetOfId(e.identifier) != t
    ensures forall a :: a in CleanActions(stale, name, uid, answers, k) ==> a.Clean? && a.target != t
  {
    if k > 0 {
      CleanActionsCleanStale(stale, name, uid, answers, k - 1, t);
    }
  }

  /** None of a pass's own clean-ups aims at the target of one of its manifests. */
  lemma SyncCleansNoTarget(w: World, mapper: RestMapper, name: string, work: Work, local: AppliedWork,
      answers: PassAnswers, i: nat)
    requires Injective(mapper) && WellTracked(mapper, local.tracked)
    requires Undisturbed(answers.apply.before) && Undisturbed(answers.diff.before) && Undisturbed(answers.clean.before)
    requires i < |work.manifests| && ManifestTarget(mapper, work.manifests[i]).Some?
    ensures forall a :: a in SyncActions(w, mapper, name, work, local, answers) && a.Clean? ==>
                          a.target != ManifestTarget(mapper, work.manifests[i]).value
  {
    hide ApplyUpTo, NewUpTo, CleanUpTo, StatusAfter, StaleOf, ApplyActions, DiffActions, CleanActions, WellTracked,
      Injective, ManifestTarget, Undisturbed;
    var applied := ApplyAll(w.objs, mapper, work.manifests, ControllerRef(name, local.uid), answers.apply);
    var conds := StatusAfter(w, mapper, name, work, local, answers).manifestConditions;
    var stale := StaleOf(local.tracked, conds);
    CleanupNeverUndoesApply(w, mapper, name, work, local, answers, i);
    ApplyActionsApply(mapper, work.manifests, name, local.uid, answers.apply, |work.manifests|);
    NoDiffActions(applied.objs, conds, local.tracked, answers.diff, |conds|);
    CleanActionsCleanStale(stale, name, local.uid, answers.clean, |stale|,
      ManifestTarget(mapper, work.manifests[i]).value);
  }

  lemma PassCleansNoTarget(w: World, mapper: RestMapper, name: string, answers: PassAnswers, i: nat)
    requires Injective(mapper) && WellTracked(mapper, TrackedBy(w, name)) && name in w.hub.works
    requires Undisturbed(answers.apply.before) && Undisturbed(answers.diff.before) && Undisturbed(answers.clean.before)
    requires i < |w.hub.works[name].manifests| && ManifestTarget(mapper, w.hub.works[name].manifests[i]).Some?
    ensures forall a :: a in PassActions(true, w, mapper, name, answers) && a.Clean? ==>
                          a.target != ManifestTarget(mapper, w.hub.works[name].manifests[i]).value
  {
    hide SyncActions, WellTracked, Injective, ManifestTarget, Undisturbed;
    NothingIsWellTracked(mapper);
    var work := w.hub.works[name];
    var ensured := Ensure(w.hub, w.registry, name, work, answers.ensure);
    EnsureKeepsManifests(w.hub, w.registry, name, work, answers.ensure, name);
    if HubGet(w.hub, name, answers.getFault).Ok? && ensured.result.Ok? {
      SyncCleansNoTarget(World(ensured.hub, ensured.registry, w.objs), mapper, name, ensured.work,
        ensured.result.value, answers, i);
    }
  }

  /**
   After a pass from a sound history that ends with the periodic requeue and no error, the work
   owns the target of each of its manifests, under the UID of its stored AppliedWork, exactly
   unless it has been stripped from it before without a write since; in particular if it had not
   been stripped before the pass.
   */
  lemma GoodPassOwns(h: History, w: World, mapper: RestMapper, name: string, answers: PassAnswers, i: nat)
    requires Sound(h) && h.objs == w.objs
    requires Injective(mapper) && WellTracked(mapper, TrackedBy(w, name))
    requires name in w.hub.works && ManifestsWellFormed(w.hub.works[name].manifests)
    requires DistinctTargets(mapper, w.hub.works[name].manifests)
    requires Undisturbed(answers.apply.before) && Undisturbed(answers.diff.before) && Undisturbed(answers.clean.before)
    requires i < |w.hub.works[name].manifests|
    ensures var t := ManifestTarget(mapper, w.hub.works[name].manifests[i]);
            var out := Pass(true, w, mapper, name, answers);
            var after := RunH(h, PassActions(true, w, mapper, name, answers));
            && after.objs == out.world.objs
            && (out.requeueAfter == PERIODIC_REQUEUE && out.errors == [] ==>
                  && t.Some?
                  && (Owns(after.objs, t.value, name) <==> (t.value, name) !in after.stripped)
                  && ((t.value, name) !in h.stripped ==> Owns(after.objs, t.value, name))
                  && name in out.world.registry.applied && t.value in after.objs
                  && (Owns(after.objs, t.value, name) ==>
                        ControllerRef(name, out.world.registry.applied[name].uid) in after.objs[t.value].owners))
  {
    hide Pass, PassActions, Sound, Injective, WellTracked, DistinctTargets, Owns, Undisturbed, ManifestTarget,
      Fixpoint.UpToDate;
    var out := Pass(true, w, mapper, name, answers);
    var acts := PassActions(true, w, mapper, name, answers);
    RunHObjects(h, acts);
    PassIsRun(true, w, mapper, name, answers);
    if out.requeueAfter == PERIODIC_REQUEUE && out.errors == [] {
      assert Fixpoint.Settled(out.world, mapper, name) by { Fixpoint.GoodPassSettles(w, mapper, name, answers); }
      PassKeepsManifests(true, w, mapper, name, answers, name);
      assert forall a :: Between(a, answers) ==> WellFormed(a) by { NothingBetween(answers); }
      PassStepsAreWellFormed(true, w, mapper, name, answers);
      SoundInEveryRun(h, acts);
      var uid := out.world.registry.applied[name].uid;
      UpToDateIsOwned(RunH(h, acts), mapper, w.hub.works[name].manifests[i], name, uid);
      PassCleansNoTarget(w, mapper, name, answers, i);
      var t := ManifestTarget(mapper, w.hub.works[name].manifests[i]).value;
      if (t, name) !in h.stripped {
        NotStripped(h, acts, t, name);
      }
    }
  }

  lemma NothingBetween(answers: PassAnswers)
    requires Undisturbed(answers.apply.before) && Undisturbed(answers.diff.before) && Undisturbed(answers.clean.before)
    ensures forall a :: !Between(a, answers)
  {
  }

  // ---------------------------------------------------------------------------------
  // A pass run alone is a run of the machine.
  // ---------------------------------------------------------------------------------

  /** The answers a pass gets to the k-th step of each of its loops. */
  function LoopAnswer(answers: PassAnswers, k: nat): Answer {
    Answer(answers.apply.answer(k), answers.clean.answer(k), answers.diff.fault(k), answers.env)
  }

  function Nexts(n: string, answers: PassAnswers, k: nat): seq<Move> {
    seq(k, i requires 0 <= i < k => Next(n, LoopAnswer(answers, i)))
  }

  function NextWith(n: string, answers: PassAnswers, fault: Option<string>): Move {
    Next(n, LoopAnswer(answers, 0).(fault := fault))
  }

  lemma {:induction false} TakeConcat(s: Joint, mapper: RestMapper, first: seq<Move>, second: seq<Move>)
    ensures TakeAll(s, mapper, first + second) == TakeAll(TakeAll(s, mapper, first), mapper, second)
    decreases |second|
  {
    hide Take;
    if second == [] {
      assert first + second == first;
    } else {
      var k := |second| - 1;
      TakeConcat(s, mapper, first, second[..k]);
      assert (first + second)[..|first + second| - 1] == first + second[..k];
    }
  }

  lemma TakeOne(s: Joint, mapper: RestMapper, m: Move)
    ensures TakeAll(s, mapper, [m]) == Take(s, mapper, m) && TakeAll(s, mapper, []) == s
  {
    hide Take;
    assert [m][..0] == [];
  }

  lemma NextsStep(s: Joint, mapper: RestMapper, n: string, answers: PassAnswers, k: nat)
    requires k > 0
    ensures TakeAll(s, mapper, Nexts(n, answers, k)) ==
            MoveNext(TakeAll(s, mapper, Nexts(n, answers, k - 1)), mapper, n, LoopAnswer(answers, k - 1))
  {
    hide MoveNext;
    assert Nexts(n, answers, k)[..k - 1] == Nexts(n, answers, k - 1);
  }

  /** A reconcile of n in a given stage, in a given world. */
  predicate At(s: Joint, n: string, work: Work, local: AppliedWork, job: Job, w: World) {
    PhaseOf(s.sys, n) == Phase.Applying(work, local) && JobOf(s, n) == job && WorldOf(s) == w
  }

  predicate Ended(s: Joint, n: string, w: World) {
    PhaseOf(s.sys, n) == Idle && WorldOf(s) == w
  }

  lemma {:induction false} IdleStays(s: Joint, mapper: RestMapper, n: string, answers: PassAnswers, k: nat, w: World)
    requires Ended(s, n, w)
    ensures Ended(TakeAll(s, mapper, Nexts(n, answers, k)), n, w)
  {
    hide LoopAnswer, Nexts;
    if k > 0 {
      IdleStays(s, mapper, n, answers, k - 1, w);
      NextsStep(s, mapper, n, answers, k);
    } else {
      NoNexts(s, mapper, n, answers);
    }
  }

  lemma NoNexts(s: Joint, mapper: RestMapper, n: string, answers: PassAnswers)
    ensures TakeAll(s, mapper, Nexts(n, answers, 0)) == s
  {
  }

  lemma UpsertStep(s: Joint, mapper: RestMapper, n: string, work: Work, local: AppliedWork, results: seq<ApplyResult>,
      w: World, a: Answer)
    requires At(s, n, work, local, Upserting(results), w) && |results| < |work.manifests|
    ensures var step := ApplyOne(w.objs, mapper, |results|, work.manifests[|results|], ControllerRef(n, local.uid),
            a.apply);
            At(MoveNext(s, mapper, n, a), n, work, local, Upserting(results + [step.result]), w.(objs := step.objs))
  {
    hide ApplyOne, RunH, Run, ManifestActions;
    var m := work.manifests[|results|];
    RunHObjects(s.h, ManifestActions(mapper, m, n, local.uid, a.apply));
    ManifestIsRun(w.objs, mapper, |results|, m, n, local.uid, a.apply);
  }

  lemma {:induction false} UpsertRun(s: Joint, mapper: RestMapper, n: string, work: Work, local: AppliedWork, w: World,
      answers: PassAnswers, k: nat)
    requires At(s, n, work, local, Upserting([]), w) && k <= |work.manifests| && Undisturbed(answers.apply.before)
    ensures var out := ApplyUpTo(w.objs, mapper, work.manifests, ControllerRef(n, local.uid), answers.apply, k);
            At(TakeAll(s, mapper, Nexts(n, answers, k)), n, work, local, Upserting(out.results), w.(objs := out.objs))
  {
    hide ApplyOne, At, Nexts, MoveNext;
    if k > 0 {
      UpsertRun(s, mapper, n, work, local, w, answers, k - 1);
      NextsStep(s, mapper, n, answers, k);
      var done := ApplyUpTo(w.objs, mapper, work.manifests, ControllerRef(n, local.uid), answers.apply, k - 1);
      assert answers.apply.before(k - 1) == [] && Run(done.objs, []) == done.objs;
      UpsertStep(TakeAll(s, mapper, Nexts(n, answers, k - 1)), mapper, n, work, local, done.results,
        w.(objs := done.objs), LoopAnswer(answers, k - 1));
    } else {
      NoNexts(s, mapper, n, answers);
    }
  }

  lemma PublishStep(s: Joint, mapper: RestMapper, n: string, work: Work, local: AppliedWork, results: seq<ApplyResult>,
      w: World, a: Answer)
    requires At(s, n, work, local, Upserting(results), w) && |results| == |work.manifests|
    ensures var status := NewStatus(results, work.status, work.generation, a.env);
            var u := HubUpdateStatus(w.hub, n, work.(status := status), a.fault);
            var t := MoveNext(s, mapper, n, a);
            match u.result
            case Ok(stored) => stored.status == status && At(t, n, stored, local, Looking([], 0), w.(hub := u.hub))
            case Err(_) => u.hub == w.hub && Ended(t, n, w)
  {
    hide NewStatus;
  }

  lemma LookStep(s: Joint, mapper: RestMapper, n: string, work: Work, local: AppliedWork, added: seq<AppliedResource>,
      k: nat, w: World, a: Answer)
    requires At(s, n, work, local, Looking(added, k), w) && k < |work.status.manifestConditions|
    ensures var t := MoveNext(s, mapper, n, a);
            match EntryOf(w.objs, work.status.manifestConditions[k], local.tracked, a.fault)
            case Ok(entry) => At(t, n, work, local, Looking(added + OptionalEntry(entry), k + 1), w)
            case Err(_) => Ended(t, n, w)
  {
    hide EntryOf;
  }

  lemma {:induction false} LookRun(s: Joint, mapper: RestMapper, n: string, work: Work, local: AppliedWork, w: World,
      answers: PassAnswers, k: nat)
    requires At(s, n, work, local, Looking([], 0), w) && k <= |work.status.manifestConditions|
             && Undisturbed(answers.diff.before)
    ensures var out := NewUpTo(w.objs, work.status.manifestConditions, local.tracked, answers.diff, k);
            var t := TakeAll(s, mapper, Nexts(n, answers, k));
            && out.objs == w.objs
            && match out.result
               case Ok(added) => At(t, n, work, local, Looking(added, k), w)
               case Err(_) => Ended(t, n, w)
  {
    hide EntryOf, At, Nexts, MoveNext;
    if k > 0 {
      LookRun(s, mapper, n, work, local, w, answers, k - 1);
      NextsStep(s, mapper, n, answers, k);
      assert answers.diff.before(k - 1) == [] && Run(w.objs, []) == w.objs;
      var done := NewUpTo(w.objs, work.status.manifestConditions, local.tracked, answers.diff, k - 1);
      var before := TakeAll(s, mapper, Nexts(n, answers, k - 1));
      match done.result
      case Ok(added) =>
        LookStep(before, mapper, n, work, local, added, k - 1, w, LoopAnswer(answers, k - 1));
        assert added + [] == added;
      case Err(_) => EndedStays(before, mapper, n, w, LoopAnswer(answers, k - 1));
    } else {
      NoNexts(s, mapper, n, answers);
    }
  }

  lemma EndedStays(s: Joint, mapper: RestMapper, n: string, w: World, a: Answer)
    requires Ended(s, n, w)
    ensures MoveNext(s, mapper, n, a) == s
  {
  }

  lemma TurnStep(s: Joint, mapper: RestMapper, n: string, work: Work, local: AppliedWork, added: seq<AppliedResource>,
      w: World, a: Answer)
    requires At(s, n, work, local, Looking(added, |work.status.manifestConditions|), w)
    ensures At(MoveNext(s, mapper, n, a), n, work, local, Removing(added, [], 0), w)
  {
  }

  lemma RemoveStep(s: Joint, mapper: RestMapper, n: string, work: Work, local: AppliedWork, job: Job, w: World,
      a: Answer)
    requires job.Removing? && At(s, n, work, local, job, w)
    requires job.removed < |StaleOf(local.tracked, work.status.manifestConditions)|
    ensures var t := TargetOfId(StaleOf(local.tracked, work.status.manifestConditions)[job.removed].identifier);
            var out := CleanStale(w.objs, t, ControllerRef(n, local.uid), a.clean);
            At(MoveNext(s, mapper, n, a), n, work, local,
               Removing(job.added, job.errors + (match out.error case Some(e) => [e] case None => []),
                 job.removed + 1), w.(objs := out.objs))
  {
    hide StaleOf, CleanStale;
  }

  lemma {:induction false} RemoveRun(s: Joint, mapper: RestMapper, n: string, work: Work, local: AppliedWork,
      added: seq<AppliedResource>, w: World, answers: PassAnswers, k: nat)
    requires At(s, n, work, local, Removing(added, [], 0), w) && Undisturbed(answers.clean.before)
    requires k <= |StaleOf(local.tracked, work.status.manifestConditions)|
    ensures var out := CleanUpTo(w.objs, StaleOf(local.tracked, work.status.manifestConditions),
            ControllerRef(n, local.uid), answers.clean, k);
            At(TakeAll(s, mapper, Nexts(n, answers, k)), n, work, local, Removing(added, out.errors, k),
              w.(objs := out.objs))
  {
    hide CleanStale, At, Nexts, MoveNext, StaleOf;
    if k > 0 {
      RemoveRun(s, mapper, n, work, local, added, w, answers, k - 1);
      NextsStep(s, mapper, n, answers, k);
      var stale := StaleOf(local.tracked, work.status.manifestConditions);
      var done := CleanUpTo(w.objs, stale, ControllerRef(n, local.uid), answers.clean, k - 1);
      assert answers.clean.before(k - 1) == [] && Run(done.objs, []) == done.objs;
      RemoveStep(TakeAll(s, mapper, Nexts(n, answers, k - 1)), mapper, n, work, local,
        Removing(added, done.errors, k - 1),
                 w.(objs := done.objs), LoopAnswer(answers, k - 1));
    } else {
      NoNexts(s, mapper, n, answers);
    }
  }

  lemma LastStep(s: Joint, mapper: RestMapper, n: string, work: Work, local: AppliedWork, job: Job, w: World, a: Answer)
    requires job.Removing? && At(s, n, work, local, job, w)
    requires job.removed == |StaleOf(local.tracked, work.status.manifestConditions)|
    ensures var c := UpdateAppliedStatus(w.registry, n, local.(tracked := job.added), a.fault);
            Ended(MoveNext(s, mapper, n, a), n, if job.errors != [] then w else w.(registry := c.registry))
  {
    hide StaleOf;
  }

  /** The moves of a pass after ensureAppliedWork: each loop, and the step between it and the next. */
  function SyncMoves(w: World, mapper: RestMapper, n: string, work: Work, local: AppliedWork,
      answers: PassAnswers): seq<Move> {
    var conds := StatusAfter(w, mapper, n, work, local, answers).manifestConditions;
    (Nexts(n, answers, |work.manifests|) + [NextWith(n, answers, answers.statusFault)])
    + ((Nexts(n, answers, |conds|) + [NextWith(n, answers, None)])
       + (Nexts(n, answers, |StaleOf(local.tracked, conds)|) + [NextWith(n, answers, answers.commitFault)]))
  }

  lemma StageRun(s: Joint, mapper: RestMapper, n: string, answers: PassAnswers, k: nat, fault: Option<string>)
    ensures TakeAll(s, mapper, Nexts(n, answers, k) + [NextWith(n, answers, fault)]) ==
            MoveNext(TakeAll(s, mapper, Nexts(n, answers, k)), mapper, n, LoopAnswer(answers, 0).(fault := fault))
  {
    hide MoveNext, Nexts;
    TakeConcat(s, mapper, Nexts(n, answers, k), [NextWith(n, answers, fault)]);
    TakeOne(TakeAll(s, mapper, Nexts(n, answers, k)), mapper, NextWith(n, answers, fault));
  }

  lemma StageEnded(s: Joint, mapper: RestMapper, n: string, answers: PassAnswers, k: nat, fault: Option<string>,
      w: World)
    requires Ended(s, n, w)
    ensures Ended(TakeAll(s, mapper, Nexts(n, answers, k) + [NextWith(n, answers, fault)]), n, w)
  {
    hide MoveNext, Nexts, Ended;
    StageRun(s, mapper, n, answers, k, fault);
    IdleStays(s, mapper, n, answers, k, w);
    EndedStays(TakeAll(s, mapper, Nexts(n, answers, k)), mapper, n, w, LoopAnswer(answers, 0).(fault := fault));
  }

  /** The removing stage and the commit. */
  lemma CleanAndCommitRun(s: Joint, mapper: RestMapper, n: string, work: Work, local: AppliedWork,
      added: seq<AppliedResource>, w: World, answers: PassAnswers)
    requires At(s, n, work, local, Removing(added, [], 0), w) && Undisturbed(answers.clean.before)
    ensures var stale := StaleOf(local.tracked, work.status.manifestConditions);
            var clean := CleanAll(w.objs, stale, ControllerRef(n, local.uid), answers.clean);
            var c := UpdateAppliedStatus(w.registry, n, local.(tracked := added), answers.commitFault);
            var t := TakeAll(s, mapper, Nexts(n, answers, |stale|) + [NextWith(n, answers, answers.commitFault)]);
            Ended(t, n, World(w.hub, if clean.errors != [] then w.registry else c.registry, clean.objs))
  {
    hide MoveNext, Nexts, At, Ended, CleanUpTo, StaleOf, UpdateAppliedStatus;
    var stale := StaleOf(local.tracked, work.status.manifestConditions);
    var clean := CleanAll(w.objs, stale, ControllerRef(n, local.uid), answers.clean);
    StageRun(s, mapper, n, answers, |stale|, answers.commitFault);
    RemoveRun(s, mapper, n, work, local, added, w, answers, |stale|);
    LastStep(TakeAll(s, mapper, Nexts(n, answers, |stale|)), mapper, n, work, local,
      Removing(added, clean.errors, |stale|),
             w.(objs := clean.objs), LoopAnswer(answers, 0).(fault := answers.commitFault));
  }

  /** The looking stage, and what follows it when no lookup fails. */
  lemma LookRunThrough(s: Joint, mapper: RestMapper, n: string, work: Work, local: AppliedWork, w: World,
      answers: PassAnswers)
    requires At(s, n, work, local, Looking([], 0), w) && Undisturbed(answers.diff.before)
    ensures var diff := Diff(w.objs, work.status.manifestConditions, local.tracked, answers.diff);
            var t := TakeAll(s, mapper,
              Nexts(n, answers, |work.status.manifestConditions|) + [NextWith(n, answers, None)]);
            && diff.objs == w.objs
            && match diff.result
               case Ok(added) => At(t, n, work, local, Removing(added, [], 0), w)
               case Err(_) => Ended(t, n, w)
  {
    hide MoveNext, Nexts, At, Ended, NewUpTo;
    var k := |work.status.manifestConditions|;
    var a := LoopAnswer(answers, 0).(fault := None);
    StageRun(s, mapper, n, answers, k, None);
    LookRun(s, mapper, n, work, local, w, answers, k);
    match Diff(w.objs, work.status.manifestConditions, local.tracked, answers.diff).result
    case Ok(added) => TurnStep(TakeAll(s, mapper, Nexts(n, answers, k)), mapper, n, work, local, added, w, a);
    case Err(_) => EndedStays(TakeAll(s, mapper, Nexts(n, answers, k)), mapper, n, w, a);
  }

  lemma PublishRun(s: Joint, mapper: RestMapper, n: string, work: Work, local: AppliedWork, w: World,
      answers: PassAnswers)
    requires At(s, n, work, local, Upserting([]), w) && Undisturbed(answers.apply.before)
    ensures var out := ApplyAll(w.objs, mapper, work.manifests, ControllerRef(n, local.uid), answers.apply);
            var status := StatusAfter(w, mapper, n, work, local, answers);
            var u := HubUpdateStatus(w.hub, n, work.(status := status), answers.statusFault);
            var t := TakeAll(s, mapper,
              Nexts(n, answers, |work.manifests|) + [NextWith(n, answers, answers.statusFault)]);
            match u.result
            case Ok(stored) => stored.status == status
              && At(t, n, stored, local, Looking([], 0), World(u.hub, w.registry, out.objs))
            case Err(_) => u.hub == w.hub && Ended(t, n, World(w.hub, w.registry, out.objs))
  {
    hide MoveNext, Nexts, At, Ended, ApplyUpTo, NewStatus;
    var out := ApplyAll(w.objs, mapper, work.manifests, ControllerRef(n, local.uid), answers.apply);
    var k := |work.manifests|;
    StageRun(s, mapper, n, answers, k, answers.statusFault);
    UpsertRun(s, mapper, n, work, local, w, answers, k);
    PublishStep(TakeAll(s, mapper, Nexts(n, answers, k)), mapper, n, work, local, out.results, w.(objs := out.objs),
                LoopAnswer(answers, 0).(fault := answers.statusFault));
  }

  lemma SyncIsMoves(s: Joint, mapper: RestMapper, n: string, work: Work, local: AppliedWork, w: World,
      answers: PassAnswers)
    requires At(s, n, work, local, Upserting([]), w)
    requires Undisturbed(answers.apply.before) && Undisturbed(answers.diff.before) && Undisturbed(answers.clean.before)
    ensures Ended(TakeAll(s, mapper, SyncMoves(w, mapper, n, work, local, answers)), n,
            Sync(w, mapper, n, work, local, answers).world)
  {
    hide MoveNext, Nexts, At, Ended, ApplyUpTo, NewUpTo, CleanUpTo, StatusAfter, StaleOf, HubUpdateStatus,
      UpdateAppliedStatus, Undisturbed, TakeAll;
    var conds := StatusAfter(w, mapper, n, work, local, answers).manifestConditions;
    var stale := StaleOf(local.tracked, conds);
    var publish := Nexts(n, answers, |work.manifests|) + [NextWith(n, answers, answers.statusFault)];
    var look := Nexts(n, answers, |conds|) + [NextWith(n, answers, None)];
    var clean := Nexts(n, answers, |stale|) + [NextWith(n, answers, answers.commitFault)];
    TakeConcat(s, mapper, publish, look + clean);
    var s1 := TakeAll(s, mapper, publish);
    TakeConcat(s1, mapper, look, clean);
    var s2 := TakeAll(s1, mapper, look);
    var objs := ApplyAll(w.objs, mapper, work.manifests, ControllerRef(n, local.uid), answers.apply).objs;
    var u := HubUpdateStatus(w.hub, n, work.(status := StatusAfter(w, mapper, n, work, local, answers)),
      answers.statusFault);
    PublishRun(s, mapper, n, work, local, w, answers);
    match u.result
    case Err(_) =>
      StageEnded(s1, mapper, n, answers, |conds|, None, World(w.hub, w.registry, objs));
      StageEnded(s2, mapper, n, answers, |stale|, answers.commitFault, World(w.hub, w.registry, objs));
    case Ok(stored) =>
      var w1 := World(u.hub, w.registry, objs);
      LookRunThrough(s1, mapper, n, stored, local, w1, answers);
      match Diff(objs, conds, local.tracked, answers.diff).result
      case Err(_) => StageEnded(s2, mapper, n, answers, |stale|, answers.commitFault, w1);
      case Ok(added) => CleanAndCommitRun(s2, mapper, n, stored, local, added, w1, answers);
  }

  function Requests(events: seq<Event>): seq<Move> {
    seq(|events|, i requires 0 <= i < |events| => Request(events[i]))
  }

  /** A reconcile in the applying phase that has not applied anything yet. */
  predicate Unstarted(s: Joint, n: string) {
    PhaseOf(s.sys, n).Applying? ==> JobOf(s, n) == Upserting([])
  }

  lemma CallStep(s: Joint, e: Event)
    requires e.Call? && Unstarted(s, e.name)
    ensures MoveRequest(s, e).sys == Step(s.sys, e) && MoveRequest(s, e).h == s.h
            && Unstarted(MoveRequest(s, e), e.name)
  {
    hide HubUpdate, CreateApplied, DeleteApplied, HasFinalizer;
  }

  /** API calls as moves of the machine are the same calls as events of the protocol. */
  lemma {:induction false} RequestsRun(s: Joint, mapper: RestMapper, n: string, events: seq<Event>)
    requires forall e :: e in events ==> e.Call? && e.name == n
    requires Unstarted(s, n)
    ensures var t := TakeAll(s, mapper, Requests(events));
            t.sys == Steps(s.sys, events) && t.h == s.h && Unstarted(t, n)
    decreases |events|
  {
    hide MoveRequest, Step, Unstarted;
    if events != [] {
      var k := |events| - 1;
      RequestsRun(s, mapper, n, events[..k]);
      assert Requests(events)[..k] == Requests(events[..k]);
      CallStep(TakeAll(s, mapper, Requests(events[..k])), events[k]);
    }
  }

  /** The moves of a whole pass. */
  function PassMoves(s: Joint, mapper: RestMapper, n: string, answers: PassAnswers): seq<Move> {
    var w := WorldOf(s);
    var fetch := [Request(Fetch(n, answers.getFault))];
    if HubGet(w.hub, n, answers.getFault).Err? then fetch
    else
      var work := w.hub.works[n];
      if work.deleting then
        if !HasFinalizer(work) then fetch
        else
          var delete := Event.Call(n, answers.deleteFault, "");
          fetch + Requests(if answers.deleteFault.Some? then [delete]
            else [delete] + [Event.Call(n, answers.releaseFault, "")])
      else
        var ensured := Ensure(w.hub, w.registry, n, work, answers.ensure);
        var requests := Requests(EnsureEvents(w.registry, n, work, answers.ensure));
        if ensured.result.Err? then fetch + requests
        else
          fetch + (requests
                   + SyncMoves(World(ensured.hub, ensured.registry, w.objs), mapper, n, ensured.work,
                     ensured.result.value, answers))
  }

  lemma FetchStep(s: Joint, mapper: RestMapper, n: string, fault: Option<string>)
    requires s.joined && PhaseOf(s.sys, n) == Idle
    ensures var t := TakeAll(s, mapper, [Request(Fetch(n, fault))]);
            && WorldOf(t) == WorldOf(s) && Unstarted(t, n)
            && PhaseOf(t.sys, n) == match HubGet(s.sys.hub, n, fault)
                                    case Err(_) => Idle
                                    case Ok(w) =>
                                      if w.deleting then (if HasFinalizer(w) then Deleting(w) else Idle)
                                      else if HasFinalizer(w) then Checking(w) else Creating(w)
  {
    hide HasFinalizer;
    TakeOne(s, mapper, Request(Fetch(n, fault)));
  }

  /**
   A pass that nobody disturbs is a run of the machine: the same hub, the same AppliedWorks and
   the same objects at the end, with the reconcile over, whatever the API answers.
   */
  lemma PassIsMoves(s: Joint, mapper: RestMapper, n: string, answers: PassAnswers)
    requires s.joined && PhaseOf(s.sys, n) == Idle
    requires Undisturbed(answers.apply.before) && Undisturbed(answers.diff.before) && Undisturbed(answers.clean.before)
    ensures Ended(TakeAll(s, mapper, PassMoves(s, mapper, n, answers)), n,
            Pass(true, WorldOf(s), mapper, n, answers).world)
  {
    hide TakeAll, Sync, SyncMoves, Ensure, Collect, HasFinalizer, Requests, EnsureEvents, Undisturbed, Steps, Unstarted;
    var w := WorldOf(s);
    var fetch := [Request(Fetch(n, answers.getFault))];
    var fetched := TakeAll(s, mapper, fetch);
    FetchStep(s, mapper, n, answers.getFault);
    if HubGet(w.hub, n, answers.getFault).Ok? {
      var work := w.hub.works[n];
      if work.deleting {
        CollectRun(s, fetched, mapper, n, work, answers);
      } else {
        EnsureRun(s, fetched, mapper, n, work, answers);
      }
    }
  }

  lemma CollectRun(s: Joint, fetched: Joint, mapper: RestMapper, n: string, work: Work, answers: PassAnswers)
    requires HubGet(WorldOf(s).hub, n, answers.getFault) == Ok(work) && work.deleting
    requires fetched == TakeAll(s, mapper, [Request(Fetch(n, answers.getFault))]) && WorldOf(fetched) == WorldOf(s)
    requires PhaseOf(fetched.sys, n) == (if HasFinalizer(work) then Deleting(work) else Idle) && Unstarted(fetched, n)
    ensures Ended(TakeAll(s, mapper, PassMoves(s, mapper, n, answers)), n,
            Pass(true, WorldOf(s), mapper, n, answers).world)
  {
    hide TakeAll, Requests, Steps, HubUpdate, DeleteApplied;
    if HasFinalizer(work) {
      var delete := Event.Call(n, answers.deleteFault, "");
      var events := if answers.deleteFault.Some? then [delete]
        else [delete] + [Event.Call(n, answers.releaseFault, "")];
      TakeConcat(s, mapper, [Request(Fetch(n, answers.getFault))], Requests(events));
      RequestsRun(fetched, mapper, n, events);
      CollectIsRun(fetched.sys, n, work, answers.deleteFault, answers.releaseFault);
    } else {
      assert Collect(WorldOf(s).hub, WorldOf(s).registry, n, work, answers.deleteFault, answers.releaseFault)
          == CollectOut(WorldOf(s).hub, WorldOf(s).registry, None);
    }
  }

  lemma EnsureEventsAreCalls(reg: Registry, n: string, work: Work, answer: EnsureAnswer)
    ensures forall e :: e in EnsureEvents(reg, n, work, answer) ==> e.Call? && e.name == n
  {
  }

  lemma EnsureRun(s: Joint, fetched: Joint, mapper: RestMapper, n: string, work: Work, answers: PassAnswers)
    requires HubGet(WorldOf(s).hub, n, answers.getFault) == Ok(work) && !work.deleting
    requires fetched == TakeAll(s, mapper, [Request(Fetch(n, answers.getFault))]) && WorldOf(fetched) == WorldOf(s)
    requires PhaseOf(fetched.sys, n) == (if HasFinalizer(work) then Checking(work) else Creating(work))
             && Unstarted(fetched, n)
    requires Undisturbed(answers.apply.before) && Undisturbed(answers.diff.before) && Undisturbed(answers.clean.before)
    ensures Ended(TakeAll(s, mapper, PassMoves(s, mapper, n, answers)), n,
            Pass(true, WorldOf(s), mapper, n, answers).world)
  {
    hide TakeAll, Requests, Steps, Ensure, EnsureEvents, Sync, SyncMoves, Undisturbed, HasFinalizer;
    var w := WorldOf(s);
    var fetch := [Request(Fetch(n, answers.getFault))];
    var events := EnsureEvents(w.registry, n, work, answers.ensure);
    var ensured := Ensure(w.hub, w.registry, n, work, answers.ensure);
    EnsureEventsAreCalls(w.registry, n, work, answers.ensure);
    RequestsRun(fetched, mapper, n, events);
    EnsureIsRun(fetched.sys, n, work, answers.ensure);
    TakeConcat(s, mapper, fetch, Requests(events));
    if ensured.result.Ok? {
      var w' := World(ensured.hub, ensured.registry, w.objs);
      var sync := SyncMoves(w', mapper, n, ensured.work, ensured.result.value, answers);
      TakeConcat(s, mapper, fetch, Requests(events) + sync);
      TakeConcat(fetched, mapper, Requests(events), sync);
      SyncIsMoves(TakeAll(fetched, mapper, Requests(events)), mapper, n, ensured.work, ensured.result.value, w',
        answers);
    }
  }

  // ---------------------------------------------------------------------------------
  // The fixpoint, from every reachable state.
  // ---------------------------------------------------------------------------------

  lemma ReachableIsWellTracked(s: Joint, mapper: RestMapper, subject: string, n: string)
    requires Inv(s, mapper, subject)
    ensures Sound(s.h) && WellTracked(mapper, TrackedBy(WorldOf(s), n)) && RegistryVersions(s.sys.registry, n)
    ensures n in s.sys.hub.works ==> ManifestsWellFormed(s.sys.hub.works[n].manifests)
  {
    hide Safe, Sound, SubjectReleased, Current, WellTracked, ManifestsWellFormed;
    assert NameFits(s, mapper, subject, n);
    NothingIsWellTracked(mapper);
  }

  /**
   After any interleaved run, a pass that ends with the periodic requeue and no error leaves
   nothing for a calm next one to do, and leaves the work owning each of its manifests' targets
   unless it had dropped that target before and nobody has written it since.
   */
  lemma FixpointInEveryRun(s: Joint, mapper: RestMapper, ms: seq<Move>, n: string, first: PassAnswers,
      second: PassAnswers)
    requires Inv(s, mapper, n) && (forall m :: m in ms ==> Admissible(m, n))
    requires Injective(mapper) && Fixpoint.Calm(second)
    requires Undisturbed(first.apply.before) && Undisturbed(first.diff.before) && Undisturbed(first.clean.before)
    requires var w := WorldOf(TakeAll(s, mapper, ms));
             n in w.hub.works && DistinctTargets(mapper, w.hub.works[n].manifests)
    requires var out := Pass(true, WorldOf(TakeAll(s, mapper, ms)), mapper, n, first);
             out.requeueAfter == PERIODIC_REQUEUE && out.errors == []
    ensures var now := TakeAll(s, mapper, ms);
            var settled := Pass(true, WorldOf(now), mapper, n, first).world;
            && Fixpoint.ChangesNothing(settled, Pass(true, settled, mapper, n, second), n)
            && forall i :: 0 <= i < |now.sys.hub.works[n].manifests| ==>
                 var t := ManifestTarget(mapper, now.sys.hub.works[n].manifests[i]);
                 t.Some? && ((t.value, n) !in now.h.stripped ==> Owns(settled.objs, t.value, n))
  {
    hide Inv, Pass, TakeAll, Admissible, Injective, Undisturbed, DistinctTargets, Sound, Owns, WellTracked,
      ManifestTarget,
      Fixpoint.Calm, Fixpoint.ChangesNothing, PassActions;
    var now := TakeAll(s, mapper, ms);
    InvInEveryRun(s, mapper, ms, n);
    ReachableIsWellTracked(now, mapper, n, n);
    Fixpoint.PassReachesFixpoint(WorldOf(now), mapper, n, first, second);
    forall i | 0 <= i < |now.sys.hub.works[n].manifests|
      ensures var t := ManifestTarget(mapper, now.sys.hub.works[n].manifests[i]);
              t.Some? && ((t.value, n) !in now.h.stripped ==>
                Owns(Pass(true, WorldOf(now), mapper, n, first).world.objs, t.value, n))
    {
      GoodPassOwns(now.h, WorldOf(now), mapper, n, first, i);
    }
  }

  /**
   From every reachable state, whatever was interrupted in it: if the work is not being deleted
   and its manifests can be applied, two faultless passes settle it and a third changes nothing.
   */
  lemma ConvergesFromEveryRun(s: Joint, mapper: RestMapper, ms: seq<Move>, n: string, first: PassAnswers,
      second: PassAnswers, third: PassAnswers)
    requires Inv(s, mapper, n) && (forall m :: m in ms ==> Admissible(m, n))
    requires Injective(mapper)
    requires Convergence.Faultless(first) && Convergence.Faultless(second) && Fixpoint.Calm(third)
    requires var w := WorldOf(TakeAll(s, mapper, ms));
             && n in w.hub.works && !w.hub.works[n].deleting
             && DistinctTargets(mapper, w.hub.works[n].manifests)
             && Convergence.AllPatchable(w.objs, mapper, w.hub.works[n].manifests)
    ensures var once := Pass(true, WorldOf(TakeAll(s, mapper, ms)), mapper, n, first).world;
            var twice := Pass(true, once, mapper, n, second);
            && Convergence.Good(twice)
            && Fixpoint.ChangesNothing(twice.world, Pass(true, twice.world, mapper, n, third), n)
  {
    hide Inv, Pass, TakeAll, Admissible, Injective, Undisturbed, DistinctTargets, Sound, WellTracked,
      Fixpoint.ChangesNothing, Convergence.AllPatchable, RegistryVersions;
    var now := TakeAll(s, mapper, ms);
    var w := WorldOf(now);
    InvInEveryRun(s, mapper, ms, n);
    ReachableIsWellTracked(now, mapper, n, n);
    Convergence.SecondPassIsGood(w, mapper, n, first, second);
    var once := Pass(true, w, mapper, n, first).world;
    PassKeepsWellTracked(true, w, mapper, n, first, n);
    PassKeepsManifests(true, w, mapper, n, first, n);
    Fixpoint.PassReachesFixpoint(once, mapper, n, second, third);
  }

  // ---------------------------------------------------------------------------------
  // A Leave that nobody disturbs is a run of the joint machine.
  // ---------------------------------------------------------------------------------

  /** Leave and its first k updates. */
  function LeaveMoves(order: seq<string>, faults: nat -> Option<string>, k: nat): seq<Move> {
    if k == 0 then [Move.Leave(Some(order))] else LeaveMoves(order, faults, k - 1) + [Release(faults(k - 1))]
  }

  lemma ReleaseStep(s: Joint, mapper: RestMapper, listed: seq<(string, Work)>, k: nat, fault: Option<string>)
    requires k < |listed| && s.leaving == listed[k..]
    ensures var n, w := listed[k].0, listed[k].1;
            var u := HubUpdate(s.sys.hub, n, Released(w), fault);
            Take(s, mapper, Release(fault)) ==
            if !HasFinalizer(w) then s.(leaving := listed[k + 1..])
            else s.(sys := s.sys.(hub := u.hub), leaving := if u.result.Err? then [] else listed[k + 1..])
  {
    hide HubUpdate, HasFinalizer, Released;
    assert s.leaving[1..] == listed[k + 1..];
  }

  /** A Leave that is over. */
  lemma NothingToRelease(s: Joint, mapper: RestMapper, fault: Option<string>)
    requires s.leaving == []
    ensures Take(s, mapper, Release(fault)) == s
  {
  }

  /**
   After each update of Leave the machine has the hub that the loop has, AppliedWorks and objects
   as they were, and the rest of the list still to do unless an update failed.
   */
  lemma {:induction false} LeaveIsMoves(s: Joint, mapper: RestMapper, order: seq<string>, faults: nat -> Option<string>,
      k: nat)
    requires k <= |Listed(s.sys.hub, order)|
    ensures var listed := Listed(s.sys.hub, order);
            var out := LeaveUpTo(s.sys.hub, listed, faults, k);
            TakeAll(s, mapper, LeaveMoves(order, faults, k)) ==
            s.(sys := s.sys.(hub := out.hub), joined := false,
               leaving := if out.error.None? then listed[k..] else [])
  {
    hide HubUpdate, HasFinalizer, Released, Listed, MoveRequest, MoveNext, MoveRelease, DoH;
    var listed := Listed(s.sys.hub, order);
    var moves := LeaveMoves(order, faults, k);
    if k == 0 {
      assert moves[..0] == [] && listed[0..] == listed;
    } else {
      hide Take;
      LeaveIsMoves(s, mapper, order, faults, k - 1);
      assert moves[..|moves| - 1] == LeaveMoves(order, faults, k - 1);
      var before := TakeAll(s, mapper, LeaveMoves(order, faults, k - 1));
      if before.leaving == [] {
        NothingToRelease(before, mapper, faults(k - 1));
      } else {
        ReleaseStep(before, mapper, listed, k - 1, faults(k - 1));
      }
    }
  }

  /** What Leave lists when it gets every name once: every work, as it is stored, once. */
  lemma {:induction false} ListedExactly(hub: HubState, order: seq<string>)
    requires forall i, j :: 0 <= i < j < |order| ==> order[i] != order[j]
    ensures ListsHub(hub, Listed(hub, order))
    ensures forall n :: n in order && n in hub.works ==> (n, hub.works[n]) in Listed(hub, order)
    ensures forall item :: item in Listed(hub, order) ==> item.0 in order
  {
    if order != [] {
      ListedExactly(hub, order[1..]);
    }
  }
}
