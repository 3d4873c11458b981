/** Reconcile, ensureAppliedWork, garbageCollectAppliedWork, Join and Leave. */
module Reconciler {
  import opened Wrappers
  import opened OwnerReferences
  import opened WorkApi
  import opened Spoke
  import opened Conditions
  import opened Lifecycle
  import opened Clusters
  import opened Applying
  import opened Syncer

  const NOT_JOINED_REQUEUE := 5
  const PERIODIC_REQUEUE := 300

  /** Both clusters, between two passes. */
  datatype World = World(hub: HubState, registry: Registry, objs: Objects)

  /** Everything the API servers, the clock and the other reconcilers contribute to one pass. */
  datatype PassAnswers = PassAnswers(
    getFault: Option<string>, ensure: EnsureAnswer, deleteFault: Option<string>, releaseFault: Option<string>,
    apply: ApplyAnswers, env: Env, statusFault: Option<string>,
    diff: DiffAnswers, clean: CleanAnswers, commitFault: Option<string>)

  /**
   `requeueAfter` is in seconds, 0 for none; no errors is a nil error. `writes` counts write
   requests on manifest objects.
   */
  datatype PassOut = PassOut(world: World, requeueAfter: nat, errors: seq<ApiError>, committed: bool, writes: nat)

  // ---------------------------------------------------------------------------------
  // Specification.
  // ---------------------------------------------------------------------------------

  function StatusAfter(w: World, mapper: RestMapper, name: string, work: Work, local: AppliedWork,
      answers: PassAnswers): WorkStatus {
    NewStatus(ApplyAll(w.objs, mapper, work.manifests, ControllerRef(name, local.uid), answers.apply).results,
              work.status, work.generation, answers.env)
  }

  /** The part of Reconcile that follows a successful ensureAppliedWork. */
  function Sync(w: World, mapper: RestMapper, name: string, work: Work, local: AppliedWork,
      answers: PassAnswers): PassOut {
    var owner := ControllerRef(name, local.uid);
    var applied := ApplyAll(w.objs, mapper, work.manifests, owner, answers.apply);
    var status := StatusAfter(w, mapper, name, work, local, answers);
    var u := HubUpdateStatus(w.hub, name, work.(status := status), answers.statusFault);
    if u.result.Err? then PassOut(World(u.hub, w.registry, applied.objs), 0, [u.result.error], false, applied.writes)
    else
      var diff := Diff(applied.objs, status.manifestConditions, local.tracked, answers.diff);
      if diff.result.Err? then PassOut(World(u.hub, w.registry, diff.objs), 0, [], false, applied.writes)
      else
        var clean := CleanAll(diff.objs, StaleOf(local.tracked, status.manifestConditions), owner, answers.clean);
        var writes := applied.writes + clean.writes;
        if clean.errors != [] then PassOut(World(u.hub, w.registry, clean.objs), 0, clean.errors, false, writes)
        else
          var c := UpdateAppliedStatus(w.registry, name, local.(tracked := diff.result.value), answers.commitFault);
          match c.result
          case Err(e) => PassOut(World(u.hub, c.registry, clean.objs), 0, [e], false, writes)
          case Ok(_) => PassOut(World(u.hub, c.registry, clean.objs), PERIODIC_REQUEUE, Errors(applied.results), true,
            writes)
  }

  function Pass(joined: bool, w: World, mapper: RestMapper, name: string, answers: PassAnswers): PassOut {
    if !joined then PassOut(w, NOT_JOINED_REQUEUE, [], false, 0)
    else
      match HubGet(w.hub, name, answers.getFault)
      case Err(NotFound) => PassOut(w, 0, [], false, 0)
      case Err(e) => PassOut(w, 0, [e], false, 0)
      case Ok(work) =>
        if work.deleting then
          var gc := Collect(w.hub, w.registry, name, work, answers.deleteFault, answers.releaseFault);
          PassOut(World(gc.hub, gc.registry, w.objs), 0, match gc.error case None => [] case Some(e) => [e], false, 0)
        else
          var ensured := Ensure(w.hub, w.registry, name, work, answers.ensure);
          var w' := World(ensured.hub, ensured.registry, w.objs);
          match ensured.result
          case Err(e) => PassOut(w', 0, [e], false, 0)
          case Ok(local) => Sync(w', mapper, name, ensured.work, local, answers)
  }

  // ---------------------------------------------------------------------------------
  // The reconciler.
  // ---------------------------------------------------------------------------------

  class ApplyWorkReconciler {
    const hub: HubCluster
    const spoke: SpokeCluster
    const mapper: RestMapper
    var joined: bool

    constructor (hub: HubCluster, spoke: SpokeCluster, mapper: RestMapper)
      ensures this.hub == hub && this.spoke == spoke && this.mapper == mapper && !joined
    {
      this.hub, this.spoke, this.mapper := hub, spoke, mapper;
      joined := false;
    }

    function State(): World
      reads hub, spoke
    {
      World(hub.State(), spoke.Registered(), spoke.objs)
    }

    method EnsureAppliedWork(name: string, fetched: Work, answer: EnsureAnswer) returns (work: Work,
        r: Result<AppliedWork, ApiError>)
      modifies hub, spoke`applied, spoke`clock
      ensures EnsureOut(hub.State(), spoke.Registered(), work, r) ==
              Ensure(old(hub.State()), old(spoke.Registered()), name, fetched, answer)
    {
      work := fetched;
      var hasFinalizer := false;
      if WORK_FINALIZER in work.finalizers {
        hasFinalizer := true;
        var got := spoke.GetAppliedWork(name, answer.getFault);
        match got {
          case Err(NotFound) =>
          case Err(e) => return work, Err(e);
          case Ok(applied) => return work, Ok(applied);
        }
      }
      var created := spoke.CreateAppliedWork(name, answer.createFault, answer.uid);
      var local := UNREAD;
      match created {
        case Ok(stored) => local := stored;
        case Err(AlreadyExists) =>
        case Err(e) => return work, Err(e);
      }
      if !hasFinalizer {
        work := work.(finalizers := work.finalizers + [WORK_FINALIZER]);
        var updated := hub.UpdateWork(name, work, answer.updateFault);
        match updated {
          case Err(e) => return work, Err(e);
          case Ok(stored) => return stored, Ok(local);
        }
      }
      return work, Ok(local);
    }

    method GarbageCollectAppliedWork(name: string, work: Work, deleteFault: Option<string>,
        releaseFault: Option<string>)
      returns (error: Option<ApiError>)
      modifies hub, spoke`applied, spoke`clock
      ensures CollectOut(hub.State(), spoke.Registered(), error)
              == Collect(old(hub.State()), old(spoke.Registered()), name, work, deleteFault, releaseFault)
    {
      if WORK_FINALIZER !in work.finalizers {
        return None;
      }
      error := spoke.DeleteAppliedWork(name, deleteFault);
      if error.Some? && error != Some(NotFound) {
        return error;
      }
      var released := work.(finalizers := WithoutFinalizer(work.finalizers));
      var updated := hub.UpdateWork(name, released, releaseFault);
      match updated {
        case Err(e) => error := Some(e);
        case Ok(_) => error := None;
      }
    }

    /** From the manifests to the tracked list, once the AppliedWork and the finalizer are there. */
    method SyncWork(name: string, work: Work, applied: AppliedWork, answers: PassAnswers)
      returns (requeueAfter: nat, errors: seq<ApiError>, ghost committed: bool, ghost writes: nat)
      modifies hub, spoke
      ensures PassOut(State(), requeueAfter, errors, committed, writes) ==
              Sync(old(State()), mapper, name, work, applied, answers)
    {
      hide ApplyUpTo, NewStatus, NewUpTo, StaleOf, CleanUpTo, HubUpdateStatus, UpdateAppliedStatus, Errors;
      requeueAfter, committed := 0, false;
      var owner := ControllerRef(name, applied.uid);
      var results;
      results, writes := ApplyManifests(spoke, mapper, work.manifests, owner, answers.apply);
      var localWork := new LocalWork(work.generation, work.status, answers.env.room);
      var errs := GenerateWorkCondition(results, localWork, answers.env);
      var status := localWork.Status();
      var updated := hub.UpdateWorkStatus(name, work.(status := status), answers.statusFault);
      if updated.Err? {
        return 0, [updated.error], false, writes;
      }
      var newRes, staleRes := GenerateDiff(spoke, status.manifestConditions, applied.tracked, answers.diff);
      if newRes.Err? {
        return 0, [], false, writes;
      }
      var cleanErrs;
      ghost var w;
      cleanErrs, w := DeleteStaleManifest(spoke, staleRes, owner, answers.clean);
      writes := writes + w;
      if cleanErrs != [] {
        return 0, cleanErrs, false, writes;
      }
      var committing := spoke.UpdateAppliedWorkStatus(name, applied.(tracked := newRes.value), answers.commitFault);
      if committing.Err? {
        return 0, [committing.error], false, writes;
      }
      return PERIODIC_REQUEUE, errs, true, writes;
    }

    method Reconcile(name: string, answers: PassAnswers)
      returns (requeueAfter: nat, errors: seq<ApiError>, ghost committed: bool, ghost writes: nat)
      modifies hub, spoke
      ensures PassOut(State(), requeueAfter, errors, committed, writes) ==
              Pass(joined, old(State()), mapper, name, answers)
    {
      hide Sync, Ensure, Collect;
      committed, writes := false, 0;
      if !joined {
        return NOT_JOINED_REQUEUE, [], false, 0;
      }
      var got := hub.GetWork(name, answers.getFault);
      match got {
        case Err(NotFound) =>
          return 0, [], false, 0;
        case Err(e) =>
          return 0, [e], false, 0;
        case Ok(work) =>
          if work.deleting {
            var error := GarbageCollectAppliedWork(name, work, answers.deleteFault, answers.releaseFault);
            return 0, (match error case None => [] case Some(e) => [e]), false, 0;
          }
          var local, ensured := EnsureAppliedWork(name, work, answers.ensure);
          match ensured {
            case Err(e) =>
              return 0, [e], false, 0;
            case Ok(applied) =>
              requeueAfter, errors, committed, writes := SyncWork(name, local, applied, answers);
          }
      }
    }

    method Join()
      modifies this
      ensures joined
    {
      joined := true;
    }

    /** The list call may fail; a list that is not found counts as success. Manifest objects and AppliedWorks stay. */
    method Leave(listError: Option<ApiError>, listed: seq<(string, Work)>,
        faults: nat -> Option<string>) returns (error: Option<ApiError>)
      modifies this, hub
      ensures !joined
      ensures listError.Some? ==> hub.State() == old(hub.State()) && error == if listError == Some(NotFound) then None
              else listError
      ensures listError.None? ==>
                var out := LeaveUpTo(old(hub.State()), listed, faults, |listed|);
                hub.State() == out.hub && error == out.error
    {
      joined := false;
      if listError.Some? {
        return if listError == Some(NotFound) then None else listError;
      }
      for k := 0 to |listed|
        invariant !joined
        invariant var out := LeaveUpTo(old(hub.State()), listed, faults, k); hub.State() == out.hub && out.error.None?
      {
        var staleWork := listed[k].1;
        if WORK_FINALIZER in staleWork.finalizers {
          staleWork := staleWork.(finalizers := WithoutFinalizer(staleWork.finalizers));
          var updated := hub.UpdateWork(listed[k].0, staleWork, faults(k));
          if updated.Err? {
            LeaveStops(old(hub.State()), listed, faults, k + 1, |listed|);
            return Some(updated.error);
          }
        }
      }
      return None;
    }
  }

  lemma {:induction false} LeaveStops(hub: HubState, listed: seq<(string, Work)>, faults: nat -> Option<string>,
      j: nat, k: nat)
    requires j <= k <= |listed| && LeaveUpTo(hub, listed, faults, j).error.Some?
    ensures LeaveUpTo(hub, listed, faults, k) == LeaveUpTo(hub, listed, faults, j)
    decreases k
  {
    if j < k {
      LeaveStops(hub, listed, faults, j, k - 1);
    }
  }
}
