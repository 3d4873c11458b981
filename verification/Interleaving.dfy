/**
 Both clusters and any number of reconciles of any works as one step machine: every API call
 on the hub and on AppliedWorks, and every get-then-write of one object, is a step of its own.
 Steps of different works, of users, of outsiders, of Join and of Leave interleave freely.
 */
module Interleaving {
  import opened Wrappers
  import opened OwnerReferences
  import opened Manifests
  import opened WorkApi
  import opened Spoke
  import opened SpokeRuns
  import opened Conditions
  import opened Lifecycle
  import opened Applying
  import opened Syncer
  import opened Reconciler
  import opened Tracking

  // ---------------------------------------------------------------------------------
  // The machine.
  // ---------------------------------------------------------------------------------

  /** How far a reconcile has got between ensureAppliedWork and its end. */
  datatype Job =
    | Upserting(results: seq<ApplyResult>)
    | Looking(added: seq<AppliedResource>, looked: nat)
    | Removing(added: seq<AppliedResource>, errors: seq<ApiError>, removed: nat)

  /** `leaving` are the copies a running Leave has still to release. */
  datatype Joint = Joint(sys: System, h: History, jobs: map<string, Job>, joined: bool, leaving: seq<(string, Work)>)

  /** What the servers and the clock contribute to one step. */
  datatype Answer = Answer(apply: ApplyAnswer, clean: CleanAnswer, fault: Option<string>, env: Env)

  /**
   Request is a user's edit, or a reconcile's next step up to ensureAppliedWork or in the
   collection of a deleted work; Next is its next step after that. Leave lists the works in
   some order, or fails to; Release is its next update.
   */
  datatype Move =
    | Request(event: Event)
    | Next(name: string, answer: Answer)
    | Others(target: Target, change: Option<Obj>)
    | Join
    | Leave(order: Option<seq<string>>)
    | Release(fault: Option<string>)

  function WorldOf(s: Joint): World {
    World(s.sys.hub, s.sys.registry, s.h.objs)
  }

  function JobOf(s: Joint, n: string): Job {
    if n in s.jobs then s.jobs[n] else Upserting([])
  }

  function With(s: Joint, n: string, job: Job): Joint {
    s.(jobs := s.jobs[n := job])
  }

  predicate IsRequest(e: Event) {
    e.UserCreate? || e.UserEdit? || e.UserDelete? || e.Fetch? || e.Call?
  }

  function MoveRequest(s: Joint, e: Event): Joint {
    if !IsRequest(e) || (e.Fetch? && !s.joined) then s
    else
      var t := s.(sys := Step(s.sys, e));
      if PhaseOf(t.sys, e.name).Applying? && !PhaseOf(s.sys, e.name).Applying? then With(t, e.name, Upserting([]))
        else t
  }

  /** Apply the next manifest, or publish the status. */
  function MoveUpserting(s: Joint, mapper: RestMapper, n: string, work: Work, local: AppliedWork,
      results: seq<ApplyResult>, a: Answer): Joint {
    var k := |results|;
    if k < |work.manifests| then
      var step := ApplyOne(s.h.objs, mapper, k, work.manifests[k], ControllerRef(n, local.uid), a.apply);
      With(s.(h := RunH(s.h, ManifestActions(mapper, work.manifests[k], n, local.uid, a.apply))), n,
        Upserting(results + [step.result]))
    else
      var status := NewStatus(results, work.status, work.generation, a.env);
      With(s.(sys := Step(s.sys, Publish(n, status, a.fault))), n, Looking([], 0))
  }

  /** Look at the next condition, or turn to the stale resources. */
  function MoveLooking(s: Joint, n: string, work: Work, local: AppliedWork, job: Job, a: Answer): Joint
    requires job.Looking?
  {
    var conds := work.status.manifestConditions;
    if job.looked < |conds| then
      match EntryOf(s.h.objs, conds[job.looked], local.tracked, a.fault)
      case Err(_) => s.(sys := Step(s.sys, Finish(n)))
      case Ok(entry) => With(s, n, Looking(job.added + OptionalEntry(entry), job.looked + 1))
    else With(s, n, Removing(job.added, [], 0))
  }

  /** Clean up the next stale resource, or commit if all went well. */
  function MoveRemoving(s: Joint, n: string, work: Work, local: AppliedWork, job: Job, a: Answer): Joint
    requires job.Removing?
  {
    var stale := StaleOf(local.tracked, work.status.manifestConditions);
    if job.removed < |stale| then
      var t := TargetOfId(stale[job.removed].identifier);
      var out := CleanStale(s.h.objs, t, ControllerRef(n, local.uid), a.clean);
      var errors := job.errors + (match out.error case Some(e) => [e] case None => []);
      With(s.(h := DoH(s.h, Clean(t, n, local.uid, a.clean))), n, Removing(job.added, errors, job.removed + 1))
    else if job.errors != [] then s.(sys := Step(s.sys, Finish(n)))
    else s.(sys := Step(s.sys, Commit(n, job.added, a.fault)))
  }

  function MoveNext(s: Joint, mapper: RestMapper, n: string, a: Answer): Joint {
    var phase := PhaseOf(s.sys, n);
    if !phase.Applying? then s
    else
      match JobOf(s, n)
      case Upserting(results) => MoveUpserting(s, mapper, n, phase.work, phase.local, results, a)
      case Looking(_, _) => MoveLooking(s, n, phase.work, phase.local, JobOf(s, n), a)
      case Removing(_, _, _) => MoveRemoving(s, n, phase.work, phase.local, JobOf(s, n), a)
  }

  /** The stored works of the given names. */
  function Listed(hub: HubState, order: seq<string>): (listed: seq<(string, Work)>)
    ensures forall i :: 0 <= i < |listed| ==> listed[i].0 in hub.works && hub.works[listed[i].0] == listed[i].1
  {
    if order == [] then []
    else if order[0] in hub.works then [(order[0], hub.works[order[0]])] + Listed(hub, order[1..])
    else Listed(hub, order[1..])
  }

  /** One update of Leave; it gives up at the first that fails. */
  function MoveRelease(s: Joint, fault: Option<string>): Joint {
    if s.leaving == [] then s
    else
      var n, w := s.leaving[0].0, s.leaving[0].1;
      var failed := HasFinalizer(w) && HubUpdate(s.sys.hub, n, Released(w), fault).result.Err?;
      s.(sys := Step(s.sys, Strip(n, w, fault)), leaving := if failed then [] else s.leaving[1..])
  }

  function Take(s: Joint, mapper: RestMapper, m: Move): Joint {
    match m
    case Request(e) => MoveRequest(s, e)
    case Next(n, a) => MoveNext(s, mapper, n, a)
    case Others(t, change) => s.(h := DoH(s.h, Outside(t, change)))
    case Join => s.(joined := true)
    case Leave(order) => s.(joined := false,
      leaving := match order case Some(names) => Listed(s.sys.hub, names) case None => [])
    case Release(fault) => MoveRelease(s, fault)
  }

  function TakeAll(s: Joint, mapper: RestMapper, ms: seq<Move>): Joint
    decreases |ms|
  {
    if ms == [] then s else Take(TakeAll(s, mapper, ms[..|ms| - 1]), mapper, ms[|ms| - 1])
  }

  // ---------------------------------------------------------------------------------
  // The machine refines the finalizer protocol and the runs of the member cluster.
  // ---------------------------------------------------------------------------------

  function EventOf(s: Joint, mapper: RestMapper, m: Move): seq<Event> {
    match m
    case Request(e) => if IsRequest(e) && (e.Fetch? ==> s.joined) then [e] else []
    case Next(n, a) =>
      (match PhaseOf(s.sys, n)
       case Applying(work, local) =>
         (match JobOf(s, n)
          case Upserting(results) =>
            if |results| < |work.manifests| then []
            else [Publish(n, NewStatus(results, work.status, work.generation, a.env), a.fault)]
          case Looking(_, looked) =>
            var conds := work.status.manifestConditions;
            if looked < |conds| && EntryOf(s.h.objs, conds[looked], local.tracked, a.fault).Err? then [Finish(n)]
              else []
          case Removing(added, errors, removed) =>
            if removed < |StaleOf(local.tracked, work.status.manifestConditions)| then []
            else if errors != [] then [Finish(n)] else [Commit(n, added, a.fault)])
       case _ => [])
    case Release(fault) => if s.leaving == [] then [] else [Strip(s.leaving[0].0, s.leaving[0].1, fault)]
    case Others(_, _) => []
    case Join => []
    case Leave(_) => []
  }

  function ActionOf(s: Joint, mapper: RestMapper, m: Move): seq<Action> {
    match m
    case Others(t, change) => [Outside(t, change)]
    case Next(n, a) =>
      (match PhaseOf(s.sys, n)
       case Applying(work, local) =>
         (match JobOf(s, n)
          case Upserting(results) =>
            if |results| < |work.manifests|
              then ManifestActions(mapper, work.manifests[|results|], n, local.uid, a.apply) else []
          case Looking(_, _) => []
          case Removing(_, _, removed) =>
            var stale := StaleOf(local.tracked, work.status.manifestConditions);
            if removed < |stale| then [Clean(TargetOfId(stale[removed].identifier), n, local.uid, a.clean)] else [])
       case _ => [])
    case _ => []
  }

  lemma RunHOne(h: History, a: Action)
    ensures RunH(h, [a]) == DoH(h, a) && RunH(h, []) == h
  {
    hide DoH;
    assert [a][..0] == [];
  }

  /** Each move is at most one protocol step together with at most one step on one object. */
  lemma MoveRefines(s: Joint, mapper: RestMapper, m: Move)
    ensures |EventOf(s, mapper, m)| <= 1 && Take(s, mapper, m).sys == Steps(s.sys, EventOf(s, mapper, m))
    ensures |ActionOf(s, mapper, m)| <= 1 && Take(s, mapper, m).h == RunH(s.h, ActionOf(s, mapper, m))
  {
    hide Step, DoH, ApplyOne, EntryOf, CleanStale, NewStatus, StaleOf, RunH, Steps, HubUpdate, Decode;
    forall e: Event ensures Steps(s.sys, [e]) == Step(s.sys, e) { StepsOfOne(s.sys, e); }
    assert Steps(s.sys, []) == s.sys by { NoSteps(s.sys); }
    forall a: Action ensures RunH(s.h, [a]) == DoH(s.h, a) { RunHOne(s.h, a); }
    assert RunH(s.h, []) == s.h by { RunHNone(s.h); }
  }

  lemma NoSteps(s: System)
    ensures Steps(s, []) == s
  {
  }

  lemma RunHNone(h: History)
    ensures RunH(h, []) == h
  {
  }

  // ---------------------------------------------------------------------------------
  // The joint invariant.
  // ---------------------------------------------------------------------------------

  /** A manifest lists no owner twice, and only the subject's own manifests may name the subject's AppliedWork. */
  predicate ManifestsFit(ms: seq<Manifest>, n: string, subject: string) {
    && ManifestsWellFormed(ms)
    && (n != subject ==>
          forall i :: 0 <= i < |ms| && ms[i].Decoded? ==> !Represents(ms[i].obj.owners, ControllerRef(subject, "")))
  }

  function CopyOf(phase: Phase): Option<Work> {
    match phase
    case Idle => None
    case Checking(w) => Some(w)
    case Creating(w) => Some(w)
    case Finalizing(w, _) => Some(w)
    case Applying(w, _) => Some(w)
    case Deleting(w) => Some(w)
    case Releasing(w) => Some(w)
  }

  predicate WorkFits(sys: System, n: string, subject: string) {
    && (n in sys.hub.works ==> ManifestsFit(sys.hub.works[n].manifests, n, subject))
    && (CopyOf(PhaseOf(sys, n)).Some? ==> ManifestsFit(CopyOf(PhaseOf(sys, n)).value.manifests, n, subject))
  }

  predicate EntryFits(reg: Registry, mapper: RestMapper, n: string) {
    RegistryVersions(reg, n) && (n in reg.applied ==> WellTracked(mapper, reg.applied[n].tracked))
  }

  predicate LocalFits(reg: Registry, mapper: RestMapper, n: string, local: AppliedWork) {
    LocalCurrent(reg, n, local) && WellTracked(mapper, local.tracked)
  }

  /** What a reconcile has got together so far. */
  ghost predicate JobFits(mapper: RestMapper, work: Work, local: AppliedWork, job: Job) {
    var conds := work.status.manifestConditions;
    match job
    case Upserting(results) => |results| <= |work.manifests| && SuccessesMapped(mapper, results)
    case Looking(added, looked) =>
      AppliedMapped(mapper, conds) && looked <= |conds| && Collected(conds, local.tracked, added, looked)
    case Removing(added, _, removed) =>
      && AppliedMapped(mapper, conds) && Collected(conds, local.tracked, added, |conds|)
      && removed <= |StaleOf(local.tracked, conds)|
  }

  ghost predicate ReconcileFits(s: Joint, mapper: RestMapper, n: string) {
    match PhaseOf(s.sys, n)
    case Finalizing(_, local) => LocalFits(s.sys.registry, mapper, n, local)
    case Applying(work, local) => LocalFits(s.sys.registry, mapper, n, local)
      && JobFits(mapper, work, local, JobOf(s, n))
    case _ => true
  }

  ghost predicate NameFits(s: Joint, mapper: RestMapper, subject: string, n: string) {
    WorkFits(s.sys, n, subject) && EntryFits(s.sys.registry, mapper, n) && ReconcileFits(s, mapper, n)
  }

  /** As long as no removal has failed, none of the stale targets dealt with so far is owned by the subject. */
  ghost predicate SubjectReleased(s: Joint, subject: string) {
    var phase, job := PhaseOf(s.sys, subject), JobOf(s, subject);
    phase.Applying? && job.Removing? && job.errors == [] ==>
      var stale := StaleOf(phase.local.tracked, phase.work.status.manifestConditions);
      forall i :: 0 <= i < job.removed && i < |stale| ==> !Owns(s.h.objs, TargetOfId(stale[i].identifier), subject)
  }

  /** The protocol is safe, hash and ownership agree, and every reconcile, whichever work's, is in order. */
  ghost predicate Inv(s: Joint, mapper: RestMapper, subject: string) {
    && Safe(s.sys)
    && Sound(s.h)
    && (forall i :: 0 <= i < |s.leaving| ==> Current(s.sys, s.leaving[i].0, s.leaving[i].1))
    && (forall n: string :: NameFits(s, mapper, subject, n))
    && SubjectReleased(s, subject)
  }

  /** Users create and edit works with fitting manifests. */
  predicate Admissible(m: Move, subject: string) {
    match m
    case Request(UserCreate(n, manifests)) => ManifestsFit(manifests, n, subject)
    case Request(UserEdit(n, manifests)) => ManifestsFit(manifests, n, subject)
    case _ => true
  }

  /** A fresh start: nothing owned by an AppliedWork, no finalizers, no reconcile running. */
  lemma StartFits(s: Joint, mapper: RestMapper, subject: string)
    requires s.sys.phases == map[] && s.sys.registry.applied == map[] && s.leaving == [] && s.h.stripped == {}
    requires forall t :: t in s.h.objs ==> !Managed(s.h.objs, t)
    requires forall n :: n in s.sys.hub.works ==>
                           && s.sys.hub.works[n].resourceVersion <= s.sys.hub.clock
                           && !HasFinalizer(s.sys.hub.works[n])
                           && ManifestsFit(s.sys.hub.works[n].manifests, n, subject)
    ensures Inv(s, mapper, subject)
  {
    StartIsSafe(s.sys);
    StartIsSound(s.h.objs);
    hide Safe, Sound, ManifestsFit;
  }

  // ---------------------------------------------------------------------------------
  // The two halves that the refinement brings along.
  // ---------------------------------------------------------------------------------

  lemma ListedIsCurrent(sys: System, order: seq<string>)
    requires Safe(sys)
    ensures var listed := Listed(sys.hub, order);
            forall i :: 0 <= i < |listed| ==> Current(sys, listed[i].0, listed[i].1)
  {
    var listed := Listed(sys.hub, order);
    forall i | 0 <= i < |listed| ensures Current(sys, listed[i].0, listed[i].1) {
      assert WorkSafe(sys, listed[i].0);
    }
  }

  /** The protocol stays safe, and what Leave has listed stays current. */
  lemma ProtocolKept(s: Joint, mapper: RestMapper, m: Move, subject: string)
    requires Inv(s, mapper, subject)
    ensures var t := Take(s, mapper, m);
            && Safe(t.sys)
            && forall i :: 0 <= i < |t.leaving| ==> Current(t.sys, t.leaving[i].0, t.leaving[i].1)
  {
    hide Safe, Sound, NameFits, SubjectReleased, Step, NewStatus, EntryOf, StaleOf, Current, ActionOf, Take;
    var t := Take(s, mapper, m);
    MoveRefines(s, mapper, m);
    var events := EventOf(s, mapper, m);
    if events == [] {
      NoSteps(s.sys);
    } else {
      assert events == [events[0]];
      StepsOfOne(s.sys, events[0]);
      StepKeepsSafe(s.sys, events[0]);
      forall i | 0 <= i < |s.leaving| ensures Current(t.sys, s.leaving[i].0, s.leaving[i].1) {
        StepKeepsCurrent(s.sys, events[0], s.leaving[i].0, s.leaving[i].1);
      }
    }
    LeavingShrinks(s, mapper, m);
    if m.Leave? && m.order.Some? {
      ListedIsCurrent(s.sys, m.order.value);
    }
  }

  lemma LeavingShrinks(s: Joint, mapper: RestMapper, m: Move)
    ensures var t := Take(s, mapper, m);
            if m.Leave? then t.sys == s.sys
              && t.leaving == (match m.order case Some(names) => Listed(s.sys.hub, names) case None => [])
            else t.leaving == s.leaving || t.leaving == [] || (s.leaving != [] && t.leaving == s.leaving[1..])
  {
    hide Step, ApplyOne, EntryOf, CleanStale, NewStatus, StaleOf, RunH, DoH, HubUpdate;
  }

  /** Every step on an object is well formed, and none but the subject's own makes it an owner. */
  lemma ActionFits(s: Joint, mapper: RestMapper, m: Move, subject: string)
    requires Inv(s, mapper, subject)
    ensures forall a :: a in ActionOf(s, mapper, m) ==>
                          WellFormed(a) && (ForeignTo(a, subject) || (m.Next? && m.name == subject))
  {
    hide Safe, Sound, SubjectReleased, ReconcileFits, EntryFits, StaleOf, Represents, NoDuplicates;
    if m.Next? {
      assert NameFits(s, mapper, subject, m.name);
    }
  }

  lemma OwnershipKept(s: Joint, mapper: RestMapper, m: Move, subject: string)
    requires Inv(s, mapper, subject)
    ensures Sound(Take(s, mapper, m).h)
  {
    hide Inv, Take, ActionOf, Sound, WellFormed, ForeignTo;
    assert Sound(s.h) by { InvIsSound(s, mapper, subject); }
    MoveRefines(s, mapper, m);
    ActionFits(s, mapper, m, subject);
    SoundInEveryRun(s.h, ActionOf(s, mapper, m));
  }

  lemma InvIsSound(s: Joint, mapper: RestMapper, subject: string)
    requires Inv(s, mapper, subject)
    ensures Sound(s.h) && Safe(s.sys)
  {
  }

  // ---------------------------------------------------------------------------------
  // Every reconcile stays in order.
  // ---------------------------------------------------------------------------------

  /** The work a move is about, if it is about one. */
  function Mover(s: Joint, m: Move): Option<string> {
    match m
    case Request(e) => Some(e.name)
    case Next(n, _) => Some(n)
    case Release(_) => if s.leaving == [] then None else Some(s.leaving[0].0)
    case _ => None
  }

  lemma OtherJobsStay(s: Joint, mapper: RestMapper, m: Move, n: string)
    requires Mover(s, m) != Some(n)
    ensures JobOf(Take(s, mapper, m), n) == JobOf(s, n)
  {
    hide Step, PhaseOf, ApplyOne, EntryOf, CleanStale, NewStatus, StaleOf, RunH, DoH, HubUpdate, ManifestActions,
      HasFinalizer, Listed;
  }

  lemma OthersStayPut(s: Joint, mapper: RestMapper, m: Move, n: string)
    requires Mover(s, m) != Some(n)
    ensures Elsewhere(s.sys, Take(s, mapper, m).sys, n) && JobOf(Take(s, mapper, m), n) == JobOf(s, n)
  {
    hide Step, Steps, Take, EventOf, ActionOf, JobOf;
    OtherJobsStay(s, mapper, m, n);
    EventIsMovers(s, mapper, m);
    MoveRefines(s, mapper, m);
    if EventOf(s, mapper, m) == [] {
      NoSteps(s.sys);
    } else {
      var e := EventOf(s, mapper, m)[0];
      assert EventOf(s, mapper, m) == [e];
      StepsOfOne(s.sys, e);
      StepFrame(s.sys, e, n);
    }
  }

  lemma EventIsMovers(s: Joint, mapper: RestMapper, m: Move)
    ensures forall e :: e in EventOf(s, mapper, m) ==> Mover(s, m) == Some(e.name)
  {
    hide NewStatus, EntryOf, StaleOf;
  }

  lemma ElsewhereFits(s: Joint, t: Joint, mapper: RestMapper, subject: string, n: string)
    requires NameFits(s, mapper, subject, n) && Elsewhere(s.sys, t.sys, n) && JobOf(t, n) == JobOf(s, n)
    ensures NameFits(t, mapper, subject, n)
  {
    hide ManifestsFit, WellTracked, JobFits;
  }

  /** Registry entries and local copies under a protocol step; a commit must bring a well-tracked list. */
  lemma EntryKept(sys: System, e: Event, mapper: RestMapper, n: string)
    requires EntryFits(sys.registry, mapper, n) && e.name == n
    requires e.Commit? ==> WellTracked(mapper, e.tracked)
    ensures EntryFits(Step(sys, e).registry, mapper, n)
  {
    hide HasFinalizer, Finalized, Released, HubUpdate, HubUpdateStatus, WellTracked;
    StepKeepsLocal(sys, e, n, UNREAD);
    NothingIsWellTracked(mapper);
    if e.Fetch? {
      FetchOnlyReads(sys, n, e.fault);
    }
  }

  lemma WorkKept(sys: System, e: Event, n: string, subject: string)
    requires WorkFits(sys, n, subject) && e.name == n && !e.Strip?
    requires e.UserCreate? ==> ManifestsFit(e.manifests, n, subject)
    requires e.UserEdit? ==> ManifestsFit(e.manifests, n, subject)
    ensures WorkFits(Step(sys, e), n, subject)
  {
    hide HasFinalizer, ManifestsFit, CreateApplied, DeleteApplied, GetApplied, UpdateAppliedStatus;
  }

  /** A release writes back the copy that is stored, so the manifests are the stored ones. */
  lemma StrippedWorkFits(sys: System, n: string, listed: Work, fault: Option<string>, subject: string)
    requires WorkFits(sys, n, subject) && Current(sys, n, listed)
    ensures WorkFits(Step(sys, Strip(n, listed, fault)), n, subject)
  {
    hide ManifestsFit, WithoutFinalizer, StepUser, StepFetch, StepCall, StepStatus;
  }

  /** A request that ends in the applying phase brings a fitting local copy. */
  lemma RequestKeepsLocal(sys: System, e: Event, mapper: RestMapper, n: string)
    requires EntryFits(sys.registry, mapper, n) && e.name == n && IsRequest(e)
    requires var p := PhaseOf(sys, n); p.Finalizing? || p.Applying? ==> LocalFits(sys.registry, mapper, n, p.local)
    ensures var p := PhaseOf(Step(sys, e), n); p.Finalizing? || p.Applying? ==>
            LocalFits(Step(sys, e).registry, mapper, n, p.local)
  {
    hide HasFinalizer, Finalized, Released, HubUpdate, WellTracked;
    NothingIsWellTracked(mapper);
    if PhaseOf(sys, n).Finalizing? || PhaseOf(sys, n).Applying? {
      StepKeepsLocal(sys, e, n, PhaseOf(sys, n).local);
    }
  }

  lemma RequestFits(s: Joint, mapper: RestMapper, subject: string, e: Event)
    requires NameFits(s, mapper, subject, e.name) && Admissible(Request(e), subject)
    ensures NameFits(MoveRequest(s, e), mapper, subject, e.name)
  {
    hide Step, WorkFits, EntryFits, LocalFits, ManifestsFit;
    if IsRequest(e) {
      EntryKept(s.sys, e, mapper, e.name);
      WorkKept(s.sys, e, e.name, subject);
      RequestKeepsLocal(s.sys, e, mapper, e.name);
      if PhaseOf(s.sys, e.name).Applying? {
        RequestKeepsApplying(s.sys, e);
      }
    }
  }

  lemma RequestKeepsApplying(sys: System, e: Event)
    requires IsRequest(e) && PhaseOf(sys, e.name).Applying?
    ensures PhaseOf(Step(sys, e), e.name) == PhaseOf(sys, e.name)
  {
    hide HubUpdate, CreateApplied, DeleteApplied;
  }

  /** The status a reconcile publishes takes the place of the one in its copy. */
  lemma PublishFits(sys: System, n: string, status: WorkStatus, fault: Option<string>)
    requires PhaseOf(sys, n).Applying?
    ensures var p := PhaseOf(Step(sys, Publish(n, status, fault)), n);
            p.Idle? || (p.Applying? && p.local == PhaseOf(sys, n).local && p.work.status == status)
    ensures Step(sys, Publish(n, status, fault)).registry == sys.registry
  {
    hide HasFinalizer;
  }

  lemma UpsertingFits(s: Joint, mapper: RestMapper, subject: string, n: string, work: Work, local: AppliedWork,
      results: seq<ApplyResult>, a: Answer)
    requires NameFits(s, mapper, subject, n)
    requires PhaseOf(s.sys, n) == Phase.Applying(work, local) && JobOf(s, n) == Upserting(results)
    ensures NameFits(MoveUpserting(s, mapper, n, work, local, results, a), mapper, subject, n)
  {
    hide Step, WorkFits, EntryFits, LocalFits, NewStatus, SuccessesMapped, AppliedMapped, ApplyOne, RunH, Collected;
    if |results| < |work.manifests| {
      ResultIsMapped(s.h.objs, mapper, |results|, work.manifests[|results|], ControllerRef(n, local.uid), a.apply,
        results);
    } else {
      var status := NewStatus(results, work.status, work.generation, a.env);
      EntryKept(s.sys, Publish(n, status, a.fault), mapper, n);
      WorkKept(s.sys, Publish(n, status, a.fault), n, subject);
      PublishFits(s.sys, n, status, a.fault);
      StatusIsMapped(mapper, results, work.status, work.generation, a.env);
      NothingCollected(status.manifestConditions, local.tracked);
    }
  }

  lemma ResultIsMapped(objs: Objects, mapper: RestMapper, index: nat, m: Manifest, owner: OwnerRef,
      answer: ApplyAnswer, results: seq<ApplyResult>)
    requires SuccessesMapped(mapper, results)
    ensures SuccessesMapped(mapper, results + [ApplyOne(objs, mapper, index, m, owner, answer).result])
  {
    hide ApplyManifest, IdentifierOf, Decode, Mapped;
    IdentifierIsMapped(mapper, index, m);
  }

  lemma FinishFits(s: Joint, mapper: RestMapper, subject: string, n: string)
    requires NameFits(s, mapper, subject, n) && PhaseOf(s.sys, n).Applying?
    ensures NameFits(s.(sys := Step(s.sys, Finish(n))), mapper, subject, n)
  {
    hide WorkFits, EntryFits;
    EntryKept(s.sys, Finish(n), mapper, n);
    WorkKept(s.sys, Finish(n), n, subject);
  }

  lemma LookingFits(s: Joint, mapper: RestMapper, subject: string, n: string, work: Work, local: AppliedWork, a: Answer)
    requires NameFits(s, mapper, subject, n)
    requires PhaseOf(s.sys, n) == Phase.Applying(work, local) && JobOf(s, n).Looking?
    ensures NameFits(MoveLooking(s, n, work, local, JobOf(s, n), a), mapper, subject, n)
  {
    hide Step, WorkFits, EntryFits, LocalFits, AppliedMapped, EntryOf, StaleOf, Collected;
    var job, conds := JobOf(s, n), work.status.manifestConditions;
    if job.looked < |conds| {
      if EntryOf(s.h.objs, conds[job.looked], local.tracked, a.fault).Ok? {
        CollectedStep(s.h.objs, conds, local.tracked, job.added, job.looked, a.fault);
      } else {
        FinishFits(s, mapper, subject, n);
      }
    }
  }

  lemma RemovingFits(s: Joint, mapper: RestMapper, subject: string, n: string, work: Work, local: AppliedWork,
      a: Answer)
    requires NameFits(s, mapper, subject, n)
    requires PhaseOf(s.sys, n) == Phase.Applying(work, local) && JobOf(s, n).Removing?
    ensures NameFits(MoveRemoving(s, n, work, local, JobOf(s, n), a), mapper, subject, n)
  {
    hide Step, WorkFits, EntryFits, LocalCurrent, AppliedMapped, StaleOf, Collected, CleanStale, DoH, WellTracked;
    var job, conds := JobOf(s, n), work.status.manifestConditions;
    if job.removed >= |StaleOf(local.tracked, conds)| {
      if job.errors != [] {
        FinishFits(s, mapper, subject, n);
      } else {
        CollectedIsWellTracked(mapper, conds, local.tracked, job.added);
        EntryKept(s.sys, Commit(n, job.added, a.fault), mapper, n);
        WorkKept(s.sys, Commit(n, job.added, a.fault), n, subject);
        CommitEnds(s.sys, n, job.added, a.fault);
      }
    }
  }

  lemma CommitEnds(sys: System, n: string, tracked: seq<AppliedResource>, fault: Option<string>)
    requires PhaseOf(sys, n).Applying?
    ensures PhaseOf(Step(sys, Commit(n, tracked, fault)), n) == Idle
  {
  }

  lemma NextFits(s: Joint, mapper: RestMapper, subject: string, n: string, a: Answer)
    requires NameFits(s, mapper, subject, n)
    ensures NameFits(MoveNext(s, mapper, n, a), mapper, subject, n)
  {
    hide NameFits, MoveUpserting, MoveLooking, MoveRemoving;
    if PhaseOf(s.sys, n).Applying? {
      var work, local := PhaseOf(s.sys, n).work, PhaseOf(s.sys, n).local;
      match JobOf(s, n)
      case Upserting(results) => UpsertingFits(s, mapper, subject, n, work, local, results, a);
      case Looking(_, _) => LookingFits(s, mapper, subject, n, work, local, a);
      case Removing(_, _, _) => RemovingFits(s, mapper, subject, n, work, local, a);
    }
  }

  lemma ReleaseFits(s: Joint, mapper: RestMapper, subject: string, fault: Option<string>)
    requires s.leaving != [] && NameFits(s, mapper, subject, s.leaving[0].0)
    requires Current(s.sys, s.leaving[0].0, s.leaving[0].1)
    ensures NameFits(MoveRelease(s, fault), mapper, subject, s.leaving[0].0)
  {
    hide WorkFits, EntryFits, LocalFits, JobFits, HubUpdate, Current;
    var n, w := s.leaving[0].0, s.leaving[0].1;
    StrippedWorkFits(s.sys, n, w, fault, subject);
    EntryKept(s.sys, Strip(n, w, fault), mapper, n);
  }

  lemma NamesKept(s: Joint, mapper: RestMapper, m: Move, subject: string, n: string)
    requires Inv(s, mapper, subject) && Admissible(m, subject)
    ensures NameFits(Take(s, mapper, m), mapper, subject, n)
  {
    hide Safe, Sound, SubjectReleased, NameFits, MoveRequest, MoveNext, MoveRelease, Current, Admissible;
    assert NameFits(s, mapper, subject, n);
    if Mover(s, m) == Some(n) {
      match m
      case Request(e) => RequestFits(s, mapper, subject, e);
      case Next(_, a) => NextFits(s, mapper, subject, n, a);
      case Release(fault) => ReleaseFits(s, mapper, subject, fault);
    } else {
      OthersStayPut(s, mapper, m, n);
      ElsewhereFits(s, Take(s, mapper, m), mapper, subject, n);
    }
  }

  // ---------------------------------------------------------------------------------
  // What the subject has released stays released.
  // ---------------------------------------------------------------------------------

  lemma ActionKeepsReleased(s: Joint, mapper: RestMapper, m: Move, subject: string, u: Target)
    requires Inv(s, mapper, subject) && !(m.Next? && m.name == subject)
    requires !Owns(s.h.objs, u, subject)
    ensures !Owns(Take(s, mapper, m).h.objs, u, subject)
  {
    hide Inv, Take, ActionOf, Owns, ForeignTo, WellFormed;
    MoveRefines(s, mapper, m);
    ActionFits(s, mapper, m, subject);
    RunHObjects(s.h, ActionOf(s, mapper, m));
    ForeignRunDoesNotOwn(s.h.objs, ActionOf(s, mapper, m), u, subject);
  }

  /** One removal of the subject's own: its target is released, the earlier ones stay so. */
  lemma RemovalReleases(objs: Objects, t: Target, subject: string, uid: string, answer: CleanAnswer, u: Target)
    requires Tidy(objs)
    requires u == t || !Owns(objs, u, subject)
    requires CleanStale(objs, t, ControllerRef(subject, uid), answer).error.None?
    ensures !Owns(CleanStale(objs, t, ControllerRef(subject, uid), answer).objs, u, subject)
  {
    hide Tidy, Owns, CleanStale;
    if u == t {
      CleanedIsNotOwned(objs, t, subject, uid, answer);
    } else {
      CleanDoesNotOwn(objs, t, subject, uid, answer, u, subject);
    }
  }

  lemma SoundIsTidy(h: History)
    requires Sound(h)
    ensures Tidy(h.objs)
  {
    forall t | t in h.objs && Managed(h.objs, t) ensures NoDuplicates(h.objs[t].owners) {
      assert Agrees(h.objs[t], t, h.stripped);
    }
  }

  lemma FinishEnds(sys: System, n: string)
    requires PhaseOf(sys, n).Applying?
    ensures PhaseOf(Step(sys, Finish(n)), n) == Idle
  {
  }

  lemma OwnNextReleases(s: Joint, mapper: RestMapper, n: string, a: Answer)
    requires SubjectReleased(s, n) && Tidy(s.h.objs) && ReconcileFits(s, mapper, n)
    ensures SubjectReleased(MoveNext(s, mapper, n, a), n)
  {
    hide Tidy, Owns, CleanStale, StaleOf, EntryOf, ApplyOne, RunH, NewStatus, Step, LocalFits, Collected, AppliedMapped;
    var phase, job := PhaseOf(s.sys, n), JobOf(s, n);
    if phase.Applying? {
      FinishEnds(s.sys, n);
      if job.Removing? {
        var stale := StaleOf(phase.local.tracked, phase.work.status.manifestConditions);
        CommitEnds(s.sys, n, job.added, a.fault);
        if job.removed < |stale| {
          var t := TargetOfId(stale[job.removed].identifier);
          var after := MoveNext(s, mapper, n, a);
          assert after.h.objs == CleanStale(s.h.objs, t, ControllerRef(n, phase.local.uid), a.clean).objs;
          if JobOf(after, n).errors == [] {
            forall i | 0 <= i < job.removed + 1 ensures !Owns(after.h.objs, TargetOfId(stale[i].identifier), n) {
              RemovalReleases(s.h.objs, t, n, phase.local.uid, a.clean, TargetOfId(stale[i].identifier));
            }
          }
        }
      }
    }
  }

  /** A move that is not its own next step does not put a reconcile into its removing stage, nor move it there. */
  lemma SamePlace(s: Joint, mapper: RestMapper, m: Move, n: string)
    requires !(m.Next? && m.name == n)
    ensures var t := Take(s, mapper, m);
            PhaseOf(t.sys, n).Applying? && JobOf(t, n).Removing? ==>
              PhaseOf(s.sys, n) == PhaseOf(t.sys, n) && JobOf(s, n) == JobOf(t, n)
  {
    hide MoveNext, HubUpdate, StepUser, StepFetch, StepCall, StepStatus, DoH, HasFinalizer;
    if Mover(s, m) != Some(n) {
      OthersStayPut(s, mapper, m, n);
    } else if m.Request? && IsRequest(m.event) && PhaseOf(s.sys, n).Applying? {
      RequestKeepsApplying(s.sys, m.event);
    }
  }

  lemma SubjectKept(s: Joint, mapper: RestMapper, m: Move, subject: string)
    requires Inv(s, mapper, subject)
    ensures SubjectReleased(Take(s, mapper, m), subject)
  {
    hide Safe, Sound, Owns, StaleOf, Current, Take, WorkFits, EntryFits, ReconcileFits;
    if m.Next? && m.name == subject {
      assert NameFits(s, mapper, subject, subject);
      SoundIsTidy(s.h);
      OwnNextReleases(s, mapper, subject, m.answer);
      assert Take(s, mapper, m) == MoveNext(s, mapper, subject, m.answer) by { TakeNext(s, mapper, m); }
    } else {
      SamePlace(s, mapper, m, subject);
      var phase, job := PhaseOf(s.sys, subject), JobOf(s, subject);
      if phase.Applying? && job.Removing? && job.errors == [] {
        var stale := StaleOf(phase.local.tracked, phase.work.status.manifestConditions);
        forall i | 0 <= i < job.removed && i < |stale|
          ensures !Owns(Take(s, mapper, m).h.objs, TargetOfId(stale[i].identifier), subject)
        {
          ActionKeepsReleased(s, mapper, m, subject, TargetOfId(stale[i].identifier));
        }
      }
    }
  }

  lemma TakeNext(s: Joint, mapper: RestMapper, m: Move)
    requires m.Next?
    ensures Take(s, mapper, m) == MoveNext(s, mapper, m.name, m.answer)
  {
  }

  lemma MoveKeepsInv(s: Joint, mapper: RestMapper, m: Move, subject: string)
    requires Inv(s, mapper, subject) && Admissible(m, subject)
    ensures Inv(Take(s, mapper, m), mapper, subject)
  {
    hide Safe, Sound, NameFits, SubjectReleased, Current, Take, Admissible;
    ProtocolKept(s, mapper, m, subject);
    OwnershipKept(s, mapper, m, subject);
    forall n: string ensures NameFits(Take(s, mapper, m), mapper, subject, n) { NamesKept(s, mapper, m, subject, n); }
    SubjectKept(s, mapper, m, subject);
  }

  /** All of it, in every run of any works' reconciles, users, outsiders, Join and Leave. */
  lemma {:induction false} InvInEveryRun(s: Joint, mapper: RestMapper, ms: seq<Move>, subject: string)
    requires Inv(s, mapper, subject) && forall m :: m in ms ==> Admissible(m, subject)
    ensures Inv(TakeAll(s, mapper, ms), mapper, subject)
    decreases |ms|
  {
    hide Inv, Take, Admissible;
    if ms != [] {
      var k := |ms| - 1;
      InvInEveryRun(s, mapper, ms[..k], subject);
      MoveKeepsInv(TakeAll(s, mapper, ms[..k]), mapper, ms[k], subject);
    }
  }

  // ---------------------------------------------------------------------------------
  // What holds of every move of every run.
  // ---------------------------------------------------------------------------------

  /** A reconcile that takes a step on an object has its AppliedWork stored, whatever Leave has done meanwhile. */
  lemma WriterHasAppliedWork(s: Joint, mapper: RestMapper, m: Move, subject: string)
    requires Inv(s, mapper, subject) && m.Next? && ActionOf(s, mapper, m) != []
    ensures PhaseOf(s.sys, m.name).Applying? && m.name in s.sys.registry.applied
  {
    hide Sound, NameFits, SubjectReleased, StaleOf, Current;
    assert PhaseSafe(s.sys, m.name);
  }

  lemma MoveKeepsHeld(s: Joint, mapper: RestMapper, m: Move, subject: string)
    requires Inv(s, mapper, subject) && Held(s.sys) && s.leaving == [] && !m.Leave?
    ensures Held(Take(s, mapper, m).sys) && Take(s, mapper, m).leaving == []
  {
    hide Inv, Held, Step, NewStatus, EntryOf, StaleOf, ActionOf, Take;
    MoveRefines(s, mapper, m);
    LeavingShrinks(s, mapper, m);
    InvIsSound(s, mapper, subject);
    if EventOf(s, mapper, m) == [] {
      NoSteps(s.sys);
    } else {
      var e := EventOf(s, mapper, m)[0];
      assert EventOf(s, mapper, m) == [e];
      StepsOfOne(s.sys, e);
      StepKeepsHeld(s.sys, e);
    }
  }

  lemma {:induction false} HeldInEveryRun(s: Joint, mapper: RestMapper, ms: seq<Move>, subject: string)
    requires Inv(s, mapper, subject) && Held(s.sys) && s.leaving == []
    requires forall m :: m in ms ==> Admissible(m, subject) && !m.Leave?
    ensures Held(TakeAll(s, mapper, ms).sys) && TakeAll(s, mapper, ms).leaving == []
    decreases |ms|
  {
    hide Inv, Held, Take, Admissible;
    if ms != [] {
      var k := |ms| - 1;
      HeldInEveryRun(s, mapper, ms[..k], subject);
      InvInEveryRun(s, mapper, ms[..k], subject);
      MoveKeepsHeld(TakeAll(s, mapper, ms[..k]), mapper, ms[k], subject);
    }
  }

  lemma MoveBacks(s: Joint, mapper: RestMapper, m: Move, subject: string, n: string)
    requires Inv(s, mapper, subject) && Relies(Take(s, mapper, m).sys, n)
    ensures Relies(s.sys, n) || Backed(Take(s, mapper, m).sys, n)
  {
    hide Inv, Step, Safe, EventOf, ActionOf, Take, Relies, Backed;
    MoveRefines(s, mapper, m);
    InvIsSound(s, mapper, subject);
    SafeOf(s.sys, n);
    if EventOf(s, mapper, m) == [] {
      NoSteps(s.sys);
    } else {
      var e := EventOf(s, mapper, m)[0];
      assert EventOf(s, mapper, m) == [e];
      StepsOfOne(s.sys, e);
      StepBacks(s.sys, e, n);
    }
  }

  /** After the first j moves both records of n were stored, and its reconcile has relied on that ever since. */
  ghost predicate BackedSinceMove(s: Joint, mapper: RestMapper, ms: seq<Move>, j: nat, n: string) {
    && j <= |ms| && Backed(TakeAll(s, mapper, ms[..j]).sys, n)
    && forall i :: j <= i <= |ms| ==> Relies(TakeAll(s, mapper, ms[..i]).sys, n)
  }

  lemma {:induction false} ReliesAfterBacked(s: Joint, mapper: RestMapper, ms: seq<Move>, subject: string, n: string)
    returns (j: nat)
    requires Inv(s, mapper, subject) && (Relies(s.sys, n) ==> Backed(s.sys, n))
    requires forall m :: m in ms ==> Admissible(m, subject)
    requires Relies(TakeAll(s, mapper, ms).sys, n)
    ensures BackedSinceMove(s, mapper, ms, j, n)
    decreases |ms|
  {
    hide Inv, Take, Relies, Backed, Admissible;
    assert ms[..|ms|] == ms;
    if ms == [] {
      j := 0;
    } else {
      var k := |ms| - 1;
      InvInEveryRun(s, mapper, ms[..k], subject);
      MoveBacks(TakeAll(s, mapper, ms[..k]), mapper, ms[k], subject, n);
      if Backed(TakeAll(s, mapper, ms).sys, n) {
        j := |ms|;
      } else {
        j := ReliesAfterBacked(s, mapper, ms[..k], subject, n);
        assert ms[..k][..j] == ms[..j];
        forall i | j <= i <= |ms| ensures Relies(TakeAll(s, mapper, ms[..i]).sys, n) {
          if i < |ms| { assert ms[..k][..i] == ms[..i]; }
        }
      }
    }
  }

  /**
   In every interleaved run, Leave at any moment included: when a reconcile applies a manifest or
   cleans up a resource, its AppliedWork is stored, and at one earlier moment since this reconcile
   began to rely on them its AppliedWork and its finalizer were stored together.
   */
  lemma WritesOnlyAfterBothStored(s: Joint, mapper: RestMapper, ms: seq<Move>, m: Move, subject: string)
    requires Inv(s, mapper, subject) && forall l :: l in ms ==> Admissible(l, subject)
    requires m.Next? && (Relies(s.sys, m.name) ==> Backed(s.sys, m.name))
    ensures var now := TakeAll(s, mapper, ms);
            ActionOf(now, mapper, m) != [] ==>
              && m.name in now.sys.registry.applied
              && exists j: nat :: BackedSinceMove(s, mapper, ms, j, m.name)
  {
    hide Inv, Admissible, TakeAll, ActionOf, BackedSinceMove, Backed;
    var now := TakeAll(s, mapper, ms);
    InvInEveryRun(s, mapper, ms, subject);
    if ActionOf(now, mapper, m) != [] {
      WriterHasAppliedWork(now, mapper, m, subject);
      var j := ReliesAfterBacked(s, mapper, ms, subject, m.name);
    }
  }

  /**
   In every interleaved run without Leave: at the moment a reconcile applies a manifest or
   cleans up a resource, both its AppliedWork and its finalizer are stored.
   */
  lemma WritesOnlyWhenBothStored(s: Joint, mapper: RestMapper, ms: seq<Move>, m: Move, subject: string)
    requires Inv(s, mapper, subject) && Held(s.sys) && s.leaving == []
    requires forall l :: l in ms ==> Admissible(l, subject) && !l.Leave?
    requires m.Next?
    ensures var now := TakeAll(s, mapper, ms);
            ActionOf(now, mapper, m) != [] ==> m.name in now.sys.registry.applied && Persisted(now.sys, m.name)
  {
    hide Inv, Admissible, TakeAll, ActionOf;
    var now := TakeAll(s, mapper, ms);
    InvInEveryRun(s, mapper, ms, subject);
    HeldInEveryRun(s, mapper, ms, subject);
    if ActionOf(now, mapper, m) != [] {
      WriterHasAppliedWork(now, mapper, m, subject);
      assert PhaseHeld(now.sys, m.name);
    }
  }

  /** In every interleaved run a reconcile deletes an object only when its work is the sole owner. */
  lemma DeletesOnlySolelyOwned(s: Joint, mapper: RestMapper, ms: seq<Move>, n: string, a: Answer, subject: string,
      t: Target)
    requires Inv(s, mapper, subject) && forall l :: l in ms ==> Admissible(l, subject)
    ensures var before := TakeAll(s, mapper, ms);
            var after := Take(before, mapper, Next(n, a));
            t in before.h.objs && t !in after.h.objs ==>
              && PhaseOf(before.sys, n).Applying?
              && |before.h.objs[t].owners| == 1
              && SameObject(before.h.objs[t].owners[0], ControllerRef(n, PhaseOf(before.sys, n).local.uid))
  {
    hide Inv, Admissible, TakeAll, Take, Step, StaleOf, ApplyManifest, CleanStale, Decode, Sound, SameObject, Tidy;
    var before := TakeAll(s, mapper, ms);
    var m := Next(n, a);
    InvInEveryRun(s, mapper, ms, subject);
    InvIsSound(before, mapper, subject);
    SoundIsTidy(before.h);
    MoveRefines(before, mapper, m);
    RunHNone(before.h);
    if ActionOf(before, mapper, m) != [] {
      var act := ActionOf(before, mapper, m)[0];
      assert ActionOf(before, mapper, m) == [act];
      RunHOne(before.h, act);
      if act.Apply? {
        ApplyFrame(before.h.objs, act.gvr, act.manifest, ControllerRef(act.work, act.uid), act.answer);
        AppliedStays(before.h.objs, act);
      } else {
        TidyTarget(before.h.objs, act.target);
        CleanOnlyReleases(before.h.objs, act);
      }
    }
  }

  lemma TidyTarget(objs: Objects, t: Target)
    requires Tidy(objs)
    ensures Managed(objs, t) ==> NoDuplicates(objs[t].owners)
  {
  }

  /** An apply deletes nothing. */
  lemma AppliedStays(objs: Objects, a: Action)
    requires a.Apply?
    ensures objs.Keys <= Do(objs, a).Keys
  {
    hide ApplyManifest;
    ApplyFrame(objs, a.gvr, a.manifest, ControllerRef(a.work, a.uid), a.answer);
    if ApplyManifest(objs, a.gvr, a.manifest, ControllerRef(a.work, a.uid), a.answer).written.Some? {
      ApplyWrites(objs, a.gvr, a.manifest, ControllerRef(a.work, a.uid), a.answer);
    }
  }

  // ---------------------------------------------------------------------------------
  // After Leave.
  // ---------------------------------------------------------------------------------

  /** Move l is a Leave with no Join after it. */
  predicate LeftAt(ms: seq<Move>, l: nat) {
    && l < |ms| && ms[l].Leave?
    && forall k :: l < k < |ms| ==> !ms[k].Join?
  }

  lemma {:induction false} NotJoinedSince(s: Joint, mapper: RestMapper, ms: seq<Move>, l: nat)
    requires LeftAt(ms, l)
    ensures !TakeAll(s, mapper, ms).joined
    decreases |ms|
  {
    hide Step, ApplyOne, EntryOf, CleanStale, NewStatus, StaleOf, RunH, DoH, HubUpdate, Listed;
    if l < |ms| - 1 {
      NotJoinedSince(s, mapper, ms[..|ms| - 1], l);
    }
  }

  /** While not joined, a work without a running reconcile gets none, and steps of one do nothing. */
  lemma NothingStarts(s: Joint, mapper: RestMapper, m: Move, n: string)
    requires !s.joined && PhaseOf(s.sys, n) == Idle
    ensures PhaseOf(Take(s, mapper, m).sys, n) == Idle
    ensures forall a: Answer :: Take(s, mapper, Next(n, a)) == s
    ensures forall fault :: Take(s, mapper, Request(Fetch(n, fault))) == s
    ensures forall fault, uid :: WorldOf(Take(s, mapper, Request(Event.Call(n, fault, uid)))) == WorldOf(s)
  {
    hide MoveUpserting, MoveLooking, MoveRemoving, HubUpdate, StepStatus, StepFetch, Listed, DoH;
    if Mover(s, m) != Some(n) {
      OthersStayPut(s, mapper, m, n);
    }
  }

  /**
   Across a Leave: from then on and until the next Join, a work whose reconcile has ended, at the
   Leave or after it, has no reconcile, and no step of one does anything. So the reconciles that
   were running go on to their own end and no further.
   */
  lemma {:induction false} RunningReconcilesOnlyEnd(s: Joint, mapper: RestMapper, ms: seq<Move>, l: nat, i: nat,
      n: string)
    requires LeftAt(ms, l) && l < i <= |ms|
    requires PhaseOf(TakeAll(s, mapper, ms[..i]).sys, n) == Idle
    ensures var now := TakeAll(s, mapper, ms);
            && PhaseOf(now.sys, n) == Idle
            && (forall a: Answer :: Take(now, mapper, Next(n, a)) == now)
            && (forall fault :: Take(now, mapper, Request(Fetch(n, fault))) == now)
            && (forall fault, uid :: WorldOf(Take(now, mapper, Request(Event.Call(n, fault, uid)))) == WorldOf(now))
    decreases |ms|
  {
    hide Take, PhaseOf;
    assert ms[..|ms|] == ms;
    if i < |ms| {
      var k := |ms| - 1;
      assert ms[..k][..i] == ms[..i];
      RunningReconcilesOnlyEnd(s, mapper, ms[..k], l, i, n);
      NotJoinedSince(s, mapper, ms[..k], l);
      NothingStarts(TakeAll(s, mapper, ms[..k]), mapper, ms[k], n);
    }
    NotJoinedSince(s, mapper, ms, l);
    NothingStarts(TakeAll(s, mapper, ms), mapper, Join, n);
  }

  // ---------------------------------------------------------------------------------
  // No silent loss of tracking.
  // ---------------------------------------------------------------------------------

  /** When a reconcile of the subject commits, everything its AppliedWork tracked is accounted for. */
  lemma CommitAccounts(s: Joint, mapper: RestMapper, n: string, a: Answer)
    requires NameFits(s, mapper, n, n) && SubjectReleased(s, n)
    requires PhaseOf(s.sys, n).Applying? && JobOf(s, n).Removing?
    requires TrackedBy(WorldOf(MoveNext(s, mapper, n, a)), n) != TrackedBy(WorldOf(s), n)
    ensures var conds := PhaseOf(s.sys, n).work.status.manifestConditions;
            var t := MoveNext(s, mapper, n, a);
            forall e :: e in TrackedBy(WorldOf(s), n) ==> Accounted(e, conds, TrackedBy(WorldOf(t), n), t.h.objs, n)
  {
    hide WorkFits, WellTracked, AppliedMapped, StaleOf, Collected, CleanStale, DoH, Owns, HasCondition,
      HasAppliedCondition, SameResource;
    var local, job := PhaseOf(s.sys, n).local, JobOf(s, n);
    var conds := PhaseOf(s.sys, n).work.status.manifestConditions;
    var stale := StaleOf(local.tracked, conds);
    var t := MoveNext(s, mapper, n, a);
    assert TrackedBy(WorldOf(s), n) == local.tracked && TrackedBy(WorldOf(t), n) == job.added && t.h == s.h;
    forall e | e in local.tracked ensures Accounted(e, conds, job.added, s.h.objs, n) {
      CollectedFate(conds, local.tracked, job.added, e);
      StaleExactly(local.tracked, conds, e);
      if e in stale {
        var i :| 0 <= i < |stale| && stale[i] == e;
        assert !Owns(s.h.objs, TargetOfId(stale[i].identifier), n);
      }
    }
  }

  /** Only the removing stage of its own reconcile changes what an AppliedWork tracks. */
  lemma OnlyCommitsTrack(s: Joint, mapper: RestMapper, m: Move, n: string)
    requires n in s.sys.registry.applied
    ensures var t := Take(s, mapper, m);
            if n !in t.sys.registry.applied then m.Request? && m.event.Call? && m.event.name == n
              && PhaseOf(s.sys, n).Deleting?
            else TrackedBy(WorldOf(t), n) == TrackedBy(WorldOf(s), n)
                 || (m.Next? && m.name == n && PhaseOf(s.sys, n).Applying? && JobOf(s, n).Removing?)
  {
    hide MoveNext, MoveRequest, MoveRelease, Elsewhere, Step;
    if Mover(s, m) != Some(n) {
      OthersStayPut(s, mapper, m, n);
      ElsewhereTracks(s, Take(s, mapper, m), n);
    } else {
      match m
      case Request(e) => RequestTracks(s, e);
      case Next(_, a) => NextTracks(s, mapper, n, a);
      case Release(fault) => ReleaseTracks(s, fault);
    }
  }

  lemma ElsewhereTracks(s: Joint, t: Joint, n: string)
    requires Elsewhere(s.sys, t.sys, n)
    ensures n in s.sys.registry.applied <==> n in t.sys.registry.applied
    ensures TrackedBy(WorldOf(t), n) == TrackedBy(WorldOf(s), n)
  {
  }

  lemma RequestTracks(s: Joint, e: Event)
    requires e.name in s.sys.registry.applied
    ensures var t := MoveRequest(s, e);
            if e.name !in t.sys.registry.applied then e.Call? && PhaseOf(s.sys, e.name).Deleting?
            else TrackedBy(WorldOf(t), e.name) == TrackedBy(WorldOf(s), e.name)
  {
    hide HubUpdate, HasFinalizer, Finalized, Released, StepStatus;
  }

  lemma NextTracks(s: Joint, mapper: RestMapper, n: string, a: Answer)
    requires n in s.sys.registry.applied
    ensures var t := MoveNext(s, mapper, n, a);
            && n in t.sys.registry.applied
            && (TrackedBy(WorldOf(t), n) != TrackedBy(WorldOf(s), n) ==>
                  PhaseOf(s.sys, n).Applying? && JobOf(s, n).Removing?)
  {
    hide HubUpdateStatus, NewStatus, EntryOf, StaleOf, ApplyOne, CleanStale, RunH, DoH, StepUser, StepFetch, StepCall;
  }

  lemma ReleaseTracks(s: Joint, fault: Option<string>)
    ensures MoveRelease(s, fault).sys.registry == s.sys.registry
  {
    hide HubUpdate, HasFinalizer;
  }

  /** A reconcile that has published its status and not ended yet. */
  predicate Reporting(s: Joint, n: string) {
    PhaseOf(s.sys, n).Applying? && !JobOf(s, n).Upserting?
  }

  /** The hub holds exactly this reconcile's copy of its work. */
  predicate CopyStored(s: Joint, n: string) {
    && PhaseOf(s.sys, n).Applying?
    && n in s.sys.hub.works && s.sys.hub.works[n] == PhaseOf(s.sys, n).work
  }

  lemma NextReports(s: Joint, mapper: RestMapper, n: string, a: Answer)
    requires Reporting(MoveNext(s, mapper, n, a), n)
    ensures var t := MoveNext(s, mapper, n, a);
            (Reporting(s, n) && PhaseOf(s.sys, n) == PhaseOf(t.sys, n)) || CopyStored(t, n)
  {
    hide NewStatus, EntryOf, StaleOf, ApplyOne, CleanStale, RunH, DoH, HasFinalizer, UpdateAppliedStatus;
  }

  /** A reconcile starts to report with a copy that is stored at that moment, and keeps that copy. */
  lemma MoveReports(s: Joint, mapper: RestMapper, m: Move, n: string)
    requires Reporting(Take(s, mapper, m), n)
    ensures var t := Take(s, mapper, m);
            (Reporting(s, n) && PhaseOf(s.sys, n) == PhaseOf(t.sys, n)) || CopyStored(t, n)
  {
    hide MoveNext, HubUpdate, StepUser, StepFetch, StepCall, StepStatus, DoH, HasFinalizer;
    if Mover(s, m) != Some(n) {
      OthersStayPut(s, mapper, m, n);
    } else if m.Next? {
      NextReports(s, mapper, n, m.answer);
    } else if m.Request? && IsRequest(m.event) && PhaseOf(s.sys, n).Applying? {
      RequestKeepsApplying(s.sys, m.event);
    }
  }

  /** After the first j moves the hub held this very copy of the work. */
  predicate HeldAt(s: Joint, mapper: RestMapper, ms: seq<Move>, j: nat, n: string, w: Work) {
    && j <= |ms|
    && var hub := TakeAll(s, mapper, ms[..j]).sys.hub;
       n in hub.works && hub.works[n] == w
  }

  lemma {:induction false} ReportedIsPublished(s: Joint, mapper: RestMapper, ms: seq<Move>, n: string) returns (j: nat)
    requires Reporting(s, n) ==> CopyStored(s, n)
    requires Reporting(TakeAll(s, mapper, ms), n)
    ensures HeldAt(s, mapper, ms, j, n, PhaseOf(TakeAll(s, mapper, ms).sys, n).work)
    decreases |ms|
  {
    hide Take, Reporting;
    assert ms[..|ms|] == ms;
    if ms == [] {
      j := 0;
    } else {
      var k := |ms| - 1;
      MoveReports(TakeAll(s, mapper, ms[..k]), mapper, ms[k], n);
      if CopyStored(TakeAll(s, mapper, ms), n) {
        j := |ms|;
      } else {
        j := ReportedIsPublished(s, mapper, ms[..k], n);
        assert ms[..k][..j] == ms[..j];
      }
    }
  }

  /** A commit of n's reconcile that accounts for everything tracked, by a status the hub has held. */
  ghost predicate CommitsHonestly(s: Joint, mapper: RestMapper, ms: seq<Move>, m: Move, n: string) {
    var before := TakeAll(s, mapper, ms);
    var after := Take(before, mapper, m);
    && m.Next? && m.name == n && PhaseOf(before.sys, n).Applying?
    && var work := PhaseOf(before.sys, n).work;
       && (exists j: nat :: HeldAt(s, mapper, ms, j, n, work))
       && forall e :: e in TrackedBy(WorldOf(before), n) ==>
            Accounted(e, work.status.manifestConditions, TrackedBy(WorldOf(after), n), after.h.objs, n)
  }

  /**
   Over every interleaved run of any works, users, outsiders, Join and Leave, with any failures:
   a move that leaves an AppliedWork in place leaves its tracked list unchanged, unless it is the
   commit of that work's own reconcile, and then everything formerly tracked is accounted for by
   conditions that the hub has held; and only the collection of a deleted work removes it.
   */
  lemma NoSilentLossInEveryRun(s: Joint, mapper: RestMapper, ms: seq<Move>, m: Move, n: string)
    requires Inv(s, mapper, n) && (forall l :: l in ms ==> Admissible(l, n))
    requires Reporting(s, n) ==> CopyStored(s, n)
    requires n in TakeAll(s, mapper, ms).sys.registry.applied
    ensures var before := TakeAll(s, mapper, ms);
            var after := Take(before, mapper, m);
            if n !in after.sys.registry.applied then
              m.Request? && m.event.name == n && PhaseOf(before.sys, n).Deleting?
            else
              || TrackedBy(WorldOf(after), n) == TrackedBy(WorldOf(before), n)
              || CommitsHonestly(s, mapper, ms, m, n)
  {
    hide Safe, Sound, NameFits, SubjectReleased, Current, Take, TakeAll, Admissible, Accounted, HeldAt;
    var before := TakeAll(s, mapper, ms);
    InvInEveryRun(s, mapper, ms, n);
    assert NameFits(before, mapper, n, n);
    OnlyCommitsTrack(before, mapper, m, n);
    if m.Next? && m.name == n {
      TakeNext(before, mapper, m);
      if PhaseOf(before.sys, n).Applying? && JobOf(before, n).Removing?
         && TrackedBy(WorldOf(Take(before, mapper, m)), n) != TrackedBy(WorldOf(before), n) {
        CommitAccounts(before, mapper, n, m.answer);
        var j := ReportedIsPublished(s, mapper, ms, n);
      }
    }
  }
}
