/**
 The finalizer protocol between the hub's Work and the member cluster's AppliedWork:
 create before finalizer, delete before release. Every API call is a step of its own, may
 fail, and may interleave with other reconciles, with users, and with Leave.
 */
module Lifecycle {
  import opened Wrappers
  import opened WorkApi

  // ---------------------------------------------------------------------------------
  // The two API servers. A write needs the current resource version.
  // ---------------------------------------------------------------------------------

  datatype HubState = HubState(works: map<string, Work>, clock: nat)

  /** The AppliedWorks on the member cluster; they are named after their works. */
  datatype Registry = Registry(applied: map<string, AppliedWork>, clock: nat)

  datatype HubOut = HubOut(hub: HubState, result: Result<Work, ApiError>)

  datatype RegistryOut = RegistryOut(registry: Registry, result: Result<AppliedWork, ApiError>)

  function HubGet(hub: HubState, name: string, fault: Option<string>): Result<Work, ApiError> {
    if fault.Some? then Err(Unavailable(fault.value))
    else if name !in hub.works then Err(NotFound)
    else Ok(hub.works[name])
  }

  /** What a write with this local copy would be refused with. */
  function HubRefusal(hub: HubState, name: string, local: Work, fault: Option<string>): Option<ApiError> {
    if fault.Some? then Some(Unavailable(fault.value))
    else if name !in hub.works then Some(NotFound)
    else if hub.works[name].resourceVersion != local.resourceVersion then Some(Conflict)
    else None
  }

  /** Update of the spec and the metadata. A deleting work without finalizers disappears. */
  function HubUpdate(hub: HubState, name: string, local: Work, fault: Option<string>): HubOut {
    match HubRefusal(hub, name, local, fault)
    case Some(e) => HubOut(hub, Err(e))
    case None =>
      var stored := hub.works[name].(finalizers := local.finalizers, manifests := local.manifests,
        resourceVersion := hub.clock + 1);
      HubOut(HubState(if stored.deleting && stored.finalizers == [] then hub.works - {name}
        else hub.works[name := stored], hub.clock + 1),
             Ok(stored))
  }

  function HubUpdateStatus(hub: HubState, name: string, local: Work, fault: Option<string>): HubOut {
    match HubRefusal(hub, name, local, fault)
    case Some(e) => HubOut(hub, Err(e))
    case None =>
      var stored := hub.works[name].(status := local.status, resourceVersion := hub.clock + 1);
      HubOut(HubState(hub.works[name := stored], hub.clock + 1), Ok(stored))
  }

  function GetApplied(reg: Registry, name: string, fault: Option<string>): Result<AppliedWork, ApiError> {
    if fault.Some? then Err(Unavailable(fault.value))
    else if name !in reg.applied then Err(NotFound)
    else Ok(reg.applied[name])
  }

  function CreateApplied(reg: Registry, name: string, fault: Option<string>, uid: string): RegistryOut {
    if fault.Some? then RegistryOut(reg, Err(Unavailable(fault.value)))
    else if name in reg.applied then RegistryOut(reg, Err(AlreadyExists))
    else
      var stored := AppliedWork(uid, reg.clock + 1, []);
      RegistryOut(Registry(reg.applied[name := stored], reg.clock + 1), Ok(stored))
  }

  function DeleteApplied(reg: Registry, name: string, fault: Option<string>): (r: (Registry, Option<ApiError>)) {
    if fault.Some? then (reg, Some(Unavailable(fault.value)))
    else if name !in reg.applied then (reg, Some(NotFound))
    else (reg.(applied := reg.applied - {name}), None)
  }

  /** A local copy without a resource version is refused. */
  function UpdateAppliedStatus(reg: Registry, name: string, local: AppliedWork, fault: Option<string>): RegistryOut {
    if fault.Some? then RegistryOut(reg, Err(Unavailable(fault.value)))
    else if name !in reg.applied then RegistryOut(reg, Err(NotFound))
    else if local.resourceVersion == 0 || reg.applied[name].resourceVersion != local.resourceVersion
      then RegistryOut(reg, Err(Conflict))
    else
      var stored := reg.applied[name].(tracked := local.tracked, resourceVersion := reg.clock + 1);
      RegistryOut(Registry(reg.applied[name := stored], reg.clock + 1), Ok(stored))
  }

  // ---------------------------------------------------------------------------------
  // Finalizers.
  // ---------------------------------------------------------------------------------

  predicate HasFinalizer(w: Work) {
    WORK_FINALIZER in w.finalizers
  }

  function WithoutFinalizer(finalizers: seq<string>): (r: seq<string>)
    ensures WORK_FINALIZER !in r
    ensures forall f :: f != WORK_FINALIZER ==> (f in r <==> f in finalizers)
    ensures WORK_FINALIZER !in finalizers ==> r == finalizers
  {
    if finalizers == [] then []
    else if finalizers[0] == WORK_FINALIZER then WithoutFinalizer(finalizers[1..])
    else [finalizers[0]] + WithoutFinalizer(finalizers[1..])
  }

  function Finalized(w: Work): Work {
    w.(finalizers := w.finalizers + [WORK_FINALIZER])
  }

  function Released(w: Work): Work {
    w.(finalizers := WithoutFinalizer(w.finalizers))
  }

  // ---------------------------------------------------------------------------------
  // ensureAppliedWork and garbageCollectAppliedWork.
  // ---------------------------------------------------------------------------------

  datatype EnsureAnswer = EnsureAnswer(getFault: Option<string>, createFault: Option<string>, uid: string,
    updateFault: Option<string>)

  datatype EnsureOut = EnsureOut(hub: HubState, registry: Registry, work: Work, result: Result<AppliedWork, ApiError>)

  /** The local AppliedWork when the create found one already there: no UID, no version, no status. */
  const UNREAD := AppliedWork("", 0, [])

  function CreateAndFinalize(hub: HubState, reg: Registry, name: string, work: Work, answer: EnsureAnswer): EnsureOut {
    var c := CreateApplied(reg, name, answer.createFault, answer.uid);
    if c.result.Err? && c.result.error != AlreadyExists then EnsureOut(hub, c.registry, work, Err(c.result.error))
    else
      var local := if c.result.Ok? then c.result.value else UNREAD;
      if HasFinalizer(work) then EnsureOut(hub, c.registry, work, Ok(local))
      else
        var u := HubUpdate(hub, name, Finalized(work), answer.updateFault);
        match u.result
        case Err(e) => EnsureOut(u.hub, c.registry, Finalized(work), Err(e))
        case Ok(stored) => EnsureOut(u.hub, c.registry, stored, Ok(local))
  }

  function Ensure(hub: HubState, reg: Registry, name: string, work: Work, answer: EnsureAnswer): EnsureOut {
    if HasFinalizer(work) then
      match GetApplied(reg, name, answer.getFault)
      case Ok(local) => EnsureOut(hub, reg, work, Ok(local))
      case Err(NotFound) => CreateAndFinalize(hub, reg, name, work, answer)
      case Err(e) => EnsureOut(hub, reg, work, Err(e))
    else CreateAndFinalize(hub, reg, name, work, answer)
  }

  datatype CollectOut = CollectOut(hub: HubState, registry: Registry, error: Option<ApiError>)

  function Collect(hub: HubState, reg: Registry, name: string, work: Work, deleteFault: Option<string>,
      updateFault: Option<string>): CollectOut {
    if !HasFinalizer(work) then CollectOut(hub, reg, None)
    else
      var d := DeleteApplied(reg, name, deleteFault);
      if d.1.Some? && d.1 != Some(NotFound) then CollectOut(hub, d.0, d.1)
      else
        var u := HubUpdate(hub, name, Released(work), updateFault);
        CollectOut(u.hub, d.0, if u.result.Err? then Some(u.result.error) else None)
  }

  // ---------------------------------------------------------------------------------
  // The protocol as a state machine, one API call a step.
  // ---------------------------------------------------------------------------------

  /** Where the reconcile of a work is, with its local copies. One work is reconciled by one worker at a time. */
  datatype Phase =
    | Idle
    | Checking(work: Work)
    | Creating(work: Work)
    | Finalizing(work: Work, local: AppliedWork)
    | Applying(work: Work, local: AppliedWork)
    | Deleting(work: Work)
    | Releasing(work: Work)

  datatype System = System(hub: HubState, registry: Registry, phases: map<string, Phase>)

  /**
   Users create, edit and delete works (without touching this finalizer). Fetch starts a
   reconcile and Call is its next API call. While applying, Publish and Commit update the
   two statuses and Finish ends the reconcile. Strip is one update of Leave, with the copy
   of the work it had listed.
   */
  datatype Event =
    | UserCreate(name: string, manifests: seq<Manifest>)
    | UserEdit(name: string, manifests: seq<Manifest>)
    | UserDelete(name: string)
    | Fetch(name: string, fault: Option<string>)
    | Call(name: string, fault: Option<string>, uid: string)
    | Publish(name: string, status: WorkStatus, fault: Option<string>)
    | Commit(name: string, tracked: seq<AppliedResource>, fault: Option<string>)
    | Finish(name: string)
    | Strip(name: string, listed: Work, fault: Option<string>)

  function PhaseOf(s: System, name: string): Phase {
    if name in s.phases then s.phases[name] else Idle
  }

  function In(s: System, name: string, phase: Phase): System {
    s.(phases := s.phases[name := phase])
  }

  function StepUser(s: System, e: Event): System
    requires e.UserCreate? || e.UserEdit? || e.UserDelete?
  {
    var rv := s.hub.clock + 1;
    match e
    case UserCreate(n, manifests) =>
      if n in s.hub.works then s
      else s.(hub := HubState(s.hub.works[n := Work(rv, 1, false, [], manifests, WorkStatus([], []))], rv))
    case UserEdit(n, manifests) =>
      if n !in s.hub.works then s
      else
        var w := s.hub.works[n];
        s.(hub := HubState(s.hub.works[n := w.(manifests := manifests, generation := w.generation + 1,
          resourceVersion := rv)], rv))
    case UserDelete(n) =>
      if n !in s.hub.works then s
      else if s.hub.works[n].finalizers == [] then s.(hub := HubState(s.hub.works - {n}, rv))
      else s.(hub := HubState(s.hub.works[n := s.hub.works[n].(deleting := true, resourceVersion := rv)], rv))
  }

  function StepFetch(s: System, n: string, fault: Option<string>): System {
    if !PhaseOf(s, n).Idle? then s
    else
      match HubGet(s.hub, n, fault)
      case Err(_) => s
      case Ok(w) =>
        if w.deleting then (if HasFinalizer(w) then In(s, n, Deleting(w)) else s)
        else if HasFinalizer(w) then In(s, n, Checking(w))
        else In(s, n, Creating(w))
  }

  function StepCall(s: System, n: string, fault: Option<string>, uid: string): System {
    match PhaseOf(s, n)
    case Idle => s
    case Applying(_, _) => s
    case Checking(w) =>
      (match GetApplied(s.registry, n, fault)
       case Ok(local) => In(s, n, Applying(w, local))
       case Err(NotFound) => In(s, n, Creating(w))
       case Err(_) => In(s, n, Idle))
    case Creating(w) =>
      var c := CreateApplied(s.registry, n, fault, uid);
      if c.result.Err? && c.result.error != AlreadyExists then In(s, n, Idle)
      else
        var local := if c.result.Ok? then c.result.value else UNREAD;
        In(s.(registry := c.registry), n, if HasFinalizer(w) then Applying(w, local) else Finalizing(w, local))
    case Finalizing(w, local) =>
      var u := HubUpdate(s.hub, n, Finalized(w), fault);
      In(s.(hub := u.hub), n, match u.result case Ok(stored) => Applying(stored, local) case Err(_) => Idle)
    case Deleting(w) =>
      var d := DeleteApplied(s.registry, n, fault);
      In(s.(registry := d.0), n, if d.1.None? || d.1 == Some(NotFound) then Releasing(w) else Idle)
    case Releasing(w) =>
      var u := HubUpdate(s.hub, n, Released(w), fault);
      In(s.(hub := u.hub), n, Idle)
  }

  function StepStatus(s: System, e: Event): System
    requires e.Publish? || e.Commit? || e.Finish?
  {
    match PhaseOf(s, e.name)
    case Applying(w, local) =>
      (match e
       case Publish(n, status, fault) =>
         var u := HubUpdateStatus(s.hub, n, w.(status := status), fault);
         In(s.(hub := u.hub), n, match u.result case Ok(stored) => Applying(stored, local) case Err(_) => Idle)
       case Commit(n, tracked, fault) =>
         In(s.(registry := UpdateAppliedStatus(s.registry, n, local.(tracked := tracked), fault).registry), n, Idle)
       case Finish(n) => In(s, n, Idle))
    case _ => s
  }

  function Step(s: System, e: Event): System {
    match e
    case UserCreate(_, _) => StepUser(s, e)
    case UserEdit(_, _) => StepUser(s, e)
    case UserDelete(_) => StepUser(s, e)
    case Fetch(n, fault) => StepFetch(s, n, fault)
    case Call(n, fault, uid) => StepCall(s, n, fault, uid)
    case Publish(_, _, _) => StepStatus(s, e)
    case Commit(_, _, _) => StepStatus(s, e)
    case Finish(_) => StepStatus(s, e)
    case Strip(n, listed, fault) =>
      if HasFinalizer(listed) then s.(hub := HubUpdate(s.hub, n, Released(listed), fault).hub) else s
  }

  function Steps(s: System, events: seq<Event>): System
    decreases |events|
  {
    if events == [] then s else Step(Steps(s, events[..|events| - 1]), events[|events| - 1])
  }

  // ---------------------------------------------------------------------------------
  // Invariants.
  // ---------------------------------------------------------------------------------

  /** A local copy whose version is the stored one is the stored one. */
  predicate Current(s: System, n: string, w: Work) {
    && w.resourceVersion <= s.hub.clock
    && (n in s.hub.works && s.hub.works[n].resourceVersion == w.resourceVersion ==> s.hub.works[n] == w)
  }

  /** What each point of a reconcile knows about its own work. */
  predicate PhaseSafe(s: System, n: string) {
    match PhaseOf(s, n)
    case Idle => true
    case Checking(w) => Current(s, n, w) && HasFinalizer(w) && !w.deleting
    case Creating(w) => Current(s, n, w) && !w.deleting
    case Finalizing(w, _) => Current(s, n, w) && !w.deleting && n in s.registry.applied
    case Applying(w, _) => Current(s, n, w) && HasFinalizer(w) && n in s.registry.applied
    case Deleting(w) => Current(s, n, w) && HasFinalizer(w) && w.deleting && Going(s, n)
    case Releasing(w) => Current(s, n, w) && HasFinalizer(w) && w.deleting && Going(s, n) && n !in s.registry.applied
  }

  /** The work is gone, being deleted, or a fresh one of the same name without the finalizer. */
  predicate Going(s: System, n: string) {
    n in s.hub.works ==> s.hub.works[n].deleting || !HasFinalizer(s.hub.works[n])
  }

  predicate WorkSafe(s: System, n: string) {
    n in s.hub.works ==>
      && s.hub.works[n].resourceVersion <= s.hub.clock
      && (HasFinalizer(s.hub.works[n]) && !s.hub.works[n].deleting ==> n in s.registry.applied)
  }

  ghost predicate Safe(s: System) {
    forall n: string :: WorkSafe(s, n) && PhaseSafe(s, n)
  }

  /** In runs without Leave, a reconcile that has seen or set the finalizer still finds it on the hub. */
  predicate PhaseHeld(s: System, n: string) {
    match PhaseOf(s, n)
    case Idle => true
    case Checking(w) => Persisted(s, n)
    case Creating(w) => HasFinalizer(w) ==> Persisted(s, n)
    case Finalizing(w, _) => true
    case Applying(w, _) => Persisted(s, n)
    case Deleting(w) => Persisted(s, n) && s.hub.works[n].deleting
    case Releasing(w) => Persisted(s, n) && s.hub.works[n].deleting
  }

  predicate Persisted(s: System, n: string) {
    n in s.hub.works && HasFinalizer(s.hub.works[n])
  }

  ghost predicate Held(s: System) {
    forall n: string :: PhaseHeld(s, n)
  }

  /** The protocol starts safe: no reconcile running and no work with the finalizer yet, whatever AppliedWorks exist. */
  lemma StartIsSafe(s: System)
    requires s.phases == map[]
    requires forall n :: n in s.hub.works ==>
               s.hub.works[n].resourceVersion <= s.hub.clock && !HasFinalizer(s.hub.works[n])
    ensures Safe(s) && Held(s)
  {
  }

  /** What a step on another work leaves alone: this work, its AppliedWork and its reconcile. */
  predicate Elsewhere(s: System, t: System, n: string) {
    && PhaseOf(t, n) == PhaseOf(s, n)
    && (n in t.hub.works <==> n in s.hub.works) && (n in s.hub.works ==> t.hub.works[n] == s.hub.works[n])
    && (n in t.registry.applied <==> n in s.registry.applied)
    && (n in s.registry.applied ==> t.registry.applied[n] == s.registry.applied[n])
    && s.hub.clock <= t.hub.clock
    && s.registry.clock <= t.registry.clock
  }

  lemma CallFrame(s: System, m: string, fault: Option<string>, uid: string, n: string)
    requires n != m
    ensures Elsewhere(s, StepCall(s, m, fault, uid), n)
  {
    hide HasFinalizer, Finalized, Released;
  }

  lemma StatusFrame(s: System, e: Event, n: string)
    requires (e.Publish? || e.Commit? || e.Finish?) && n != e.name
    ensures Elsewhere(s, StepStatus(s, e), n)
  {
    hide HasFinalizer;
  }

  lemma StepFrame(s: System, e: Event, n: string)
    requires n != e.name
    ensures Elsewhere(s, Step(s, e), n)
  {
    hide StepCall, StepStatus;
    match e
    case UserCreate(_, _) =>
    case UserEdit(_, _) =>
    case UserDelete(_) =>
    case Fetch(_, _) =>
    case Call(m, fault, uid) => CallFrame(s, m, fault, uid, n);
    case Publish(_, _, _) => StatusFrame(s, e, n);
    case Commit(_, _, _) => StatusFrame(s, e, n);
    case Finish(_) => StatusFrame(s, e, n);
    case Strip(_, _, _) =>
  }

  lemma UserKeepsSafe(s: System, e: Event)
    requires e.UserCreate? || e.UserEdit? || e.UserDelete?
    requires WorkSafe(s, e.name) && PhaseSafe(s, e.name)
    ensures WorkSafe(StepUser(s, e), e.name) && PhaseSafe(StepUser(s, e), e.name)
  {
  }

  lemma FetchKeepsSafe(s: System, n: string, fault: Option<string>)
    requires WorkSafe(s, n) && PhaseSafe(s, n)
    ensures WorkSafe(StepFetch(s, n, fault), n) && PhaseSafe(StepFetch(s, n, fault), n)
  {
  }

  lemma FinalizingKeepsSafe(s: System, n: string, fault: Option<string>, uid: string)
    requires WorkSafe(s, n) && PhaseSafe(s, n) && PhaseOf(s, n).Finalizing?
    ensures WorkSafe(StepCall(s, n, fault, uid), n) && PhaseSafe(StepCall(s, n, fault, uid), n)
  {
  }

  lemma ReleasingKeepsSafe(s: System, n: string, fault: Option<string>, uid: string)
    requires WorkSafe(s, n) && PhaseSafe(s, n) && PhaseOf(s, n).Releasing?
    ensures WorkSafe(StepCall(s, n, fault, uid), n) && PhaseSafe(StepCall(s, n, fault, uid), n)
  {
  }

  /** The calls that only concern the AppliedWork: look it up, create it, delete it. */
  lemma RegistryCallKeepsSafe(s: System, n: string, fault: Option<string>, uid: string)
    requires WorkSafe(s, n) && PhaseSafe(s, n) && !PhaseOf(s, n).Finalizing? && !PhaseOf(s, n).Releasing?
    ensures WorkSafe(StepCall(s, n, fault, uid), n) && PhaseSafe(StepCall(s, n, fault, uid), n)
  {
    hide HasFinalizer, HubUpdate, Finalized, Released;
  }

  lemma StatusKeepsSafe(s: System, e: Event)
    requires e.Publish? || e.Commit? || e.Finish?
    requires WorkSafe(s, e.name) && PhaseSafe(s, e.name)
    ensures WorkSafe(StepStatus(s, e), e.name) && PhaseSafe(StepStatus(s, e), e.name)
  {
  }

  lemma StripKeepsSafe(s: System, n: string, listed: Work, fault: Option<string>)
    requires WorkSafe(s, n) && PhaseSafe(s, n) && Current(s, n, listed)
    ensures var t := Step(s, Strip(n, listed, fault)); WorkSafe(t, n) && PhaseSafe(t, n)
  {
    hide StepUser, StepFetch, StepCall, StepStatus;
  }

  lemma StepSafeOwn(s: System, e: Event)
    requires WorkSafe(s, e.name) && PhaseSafe(s, e.name)
    requires e.Strip? ==> Current(s, e.name, e.listed)
    ensures WorkSafe(Step(s, e), e.name) && PhaseSafe(Step(s, e), e.name)
  {
    hide StepUser, StepFetch, StepCall, StepStatus, WorkSafe, PhaseSafe;
    match e
    case UserCreate(_, _) => UserKeepsSafe(s, e);
    case UserEdit(_, _) => UserKeepsSafe(s, e);
    case UserDelete(_) => UserKeepsSafe(s, e);
    case Fetch(n, fault) => FetchKeepsSafe(s, n, fault);
    case Call(n, fault, uid) =>
      if PhaseOf(s, n).Finalizing? {
        FinalizingKeepsSafe(s, n, fault, uid);
      } else if PhaseOf(s, n).Releasing? {
        ReleasingKeepsSafe(s, n, fault, uid);
      } else {
        RegistryCallKeepsSafe(s, n, fault, uid);
      }
    case Publish(_, _, _) => StatusKeepsSafe(s, e);
    case Commit(_, _, _) => StatusKeepsSafe(s, e);
    case Finish(_) => StatusKeepsSafe(s, e);
    case Strip(n, listed, fault) => StripKeepsSafe(s, n, listed, fault);
  }

  lemma StepKeepsSafe(s: System, e: Event)
    requires Safe(s)
    requires e.Strip? ==> Current(s, e.name, e.listed)
    ensures Safe(Step(s, e))
  {
    forall n: string ensures WorkSafe(Step(s, e), n) && PhaseSafe(Step(s, e), n) {
      assert WorkSafe(s, n) && PhaseSafe(s, n);
      if n == e.name {
        StepSafeOwn(s, e);
      } else {
        StepFrame(s, e, n);
      }
    }
  }

  lemma StepHeldOwn(s: System, e: Event)
    requires WorkSafe(s, e.name) && PhaseSafe(s, e.name) && PhaseHeld(s, e.name) && !e.Strip?
    ensures PhaseHeld(Step(s, e), e.name)
  {
  }

  lemma StepKeepsHeld(s: System, e: Event)
    requires Safe(s) && Held(s) && !e.Strip?
    ensures Held(Step(s, e))
  {
    forall n: string ensures PhaseHeld(Step(s, e), n) {
      assert WorkSafe(s, n) && PhaseSafe(s, n) && PhaseHeld(s, n);
      if n == e.name {
        StepHeldOwn(s, e);
      } else {
        StepFrame(s, e, n);
      }
    }
  }

  /** A copy of a work stays current: a version once passed by never comes back. */
  lemma StepKeepsCurrent(s: System, e: Event, n: string, w: Work)
    requires Current(s, n, w)
    ensures Current(Step(s, e), n, w)
  {
    hide HasFinalizer, Finalized, Released, StepStatus, StepFetch;
    if e.name != n {
      StepFrame(s, e, n);
    } else if e.Publish? || e.Commit? || e.Finish? {
      StatusKeepsCurrent(s, e, w);
    } else if e.Fetch? {
      assert StepFetch(s, n, e.fault).hub == s.hub by { FetchOnlyReads(s, n, e.fault); }
    }
  }

  lemma StatusKeepsCurrent(s: System, e: Event, w: Work)
    requires (e.Publish? || e.Commit? || e.Finish?) && Current(s, e.name, w)
    ensures Current(StepStatus(s, e), e.name, w)
  {
  }

  lemma FetchOnlyReads(s: System, n: string, fault: Option<string>)
    ensures StepFetch(s, n, fault).hub == s.hub && StepFetch(s, n, fault).registry == s.registry
  {
  }

  /** The same of a local AppliedWork; the unread one has a version no stored one has. */
  predicate LocalCurrent(reg: Registry, n: string, local: AppliedWork) {
    && local.resourceVersion <= reg.clock
    && (n in reg.applied && reg.applied[n].resourceVersion == local.resourceVersion ==> reg.applied[n] == local)
  }

  predicate RegistryVersions(reg: Registry, n: string) {
    n in reg.applied ==> 0 < reg.applied[n].resourceVersion <= reg.clock
  }

  lemma StepKeepsLocal(s: System, e: Event, n: string, local: AppliedWork)
    requires LocalCurrent(s.registry, n, local) && RegistryVersions(s.registry, n)
    ensures LocalCurrent(Step(s, e).registry, n, local) && RegistryVersions(Step(s, e).registry, n)
  {
    hide HasFinalizer, Finalized, Released, HubUpdate, HubUpdateStatus;
    if e.name != n {
      StepFrame(s, e, n);
    } else if e.Fetch? {
      FetchOnlyReads(s, n, e.fault);
    }
  }

  /** The work was on the hub, as this copy, after the first j events. */
  predicate StoredAt(s: System, events: seq<Event>, j: nat, n: string, w: Work) {
    && j <= |events|
    && var hub := Steps(s, events[..j]).hub;
       n in hub.works && hub.works[n] == w
  }

  /** Leave works from copies the hub held when, at some earlier moment, it listed them. */
  ghost predicate ListsAreStored(s: System, events: seq<Event>) {
    forall k :: 0 <= k < |events| && events[k].Strip? ==>
                  exists j :: 0 <= j <= k && StoredAt(s, events, j, events[k].name, events[k].listed)
  }

  lemma ListsOfPrefix(s: System, events: seq<Event>, m: nat)
    requires m <= |events| && ListsAreStored(s, events)
    ensures ListsAreStored(s, events[..m])
  {
    hide Steps;
    var init := events[..m];
    forall k | 0 <= k < |init| && init[k].Strip?
      ensures exists j :: 0 <= j <= k && StoredAt(s, init, j, init[k].name, init[k].listed)
    {
      assert init[k] == events[k];
      var j :| 0 <= j <= k && StoredAt(s, events, j, events[k].name, events[k].listed);
      assert init[..j] == events[..j];
      assert StoredAt(s, init, j, init[k].name, init[k].listed);
    }
  }

  /** Between being listed and being used a copy stays current. */
  lemma {:induction false} StoredIsCurrent(s: System, events: seq<Event>, j: nat, n: string, w: Work)
    requires StoredAt(s, events, j, n, w) && w.resourceVersion <= Steps(s, events[..j]).hub.clock
    ensures Current(Steps(s, events), n, w)
    decreases |events|
  {
    hide Step;
    if j == |events| {
      assert events[..j] == events;
    } else {
      var k := |events| - 1;
      assert events[..k][..j] == events[..j];
      StoredIsCurrent(s, events[..k], j, n, w);
      StepKeepsCurrent(Steps(s, events[..k]), events[k], n, w);
    }
  }

  lemma {:induction false} SafeInEveryRun(s: System, events: seq<Event>)
    requires Safe(s) && ListsAreStored(s, events)
    ensures Safe(Steps(s, events))
    decreases |events|
  {
    hide Step, Safe, ListsAreStored;
    if events != [] {
      var k := |events| - 1;
      ListsOfPrefix(s, events, k);
      SafeInEveryRun(s, events[..k]);
      if events[k].Strip? {
        var j := ListedWhen(s, events);
        ListsOfPrefix(s, events, j);
        SafeInEveryRun(s, events[..j]);
        SafeVersion(Steps(s, events[..j]), events[k].name);
        assert events[..k][..j] == events[..j];
        StoredIsCurrent(s, events[..k], j, events[k].name, events[k].listed);
      }
      StepKeepsSafe(Steps(s, events[..k]), events[k]);
    }
  }

  lemma ListedWhen(s: System, events: seq<Event>) returns (j: nat)
    requires events != [] && ListsAreStored(s, events) && events[|events| - 1].Strip?
    ensures j < |events| && StoredAt(s, events, j, events[|events| - 1].name, events[|events| - 1].listed)
  {
    j :| 0 <= j < |events| && StoredAt(s, events, j, events[|events| - 1].name, events[|events| - 1].listed);
  }

  lemma SafeVersion(s: System, n: string)
    requires Safe(s)
    ensures n in s.hub.works ==> s.hub.works[n].resourceVersion <= s.hub.clock
  {
    assert WorkSafe(s, n);
  }

  /**
   Over every run, with any failures, any interleaving and Leave at any moment: a work with
   the finalizer that is not being deleted has its AppliedWork.
   */
  lemma FinalizerMeansApplied(s: System, events: seq<Event>)
    requires Safe(s) && ListsAreStored(s, events)
    ensures var t := Steps(s, events);
            forall n :: n in t.hub.works && HasFinalizer(t.hub.works[n]) && !t.hub.works[n].deleting ==>
              n in t.registry.applied
  {
    SafeInEveryRun(s, events);
    forall n | n in Steps(s, events).hub.works ensures WorkSafe(Steps(s, events), n) {
    }
  }

  /** In every run without Leave, manifests are applied only while both the finalizer and the AppliedWork are stored. */
  lemma {:induction false} ApplyingOnlyWhenPersisted(s: System, events: seq<Event>)
    requires Safe(s) && Held(s)
    requires forall e :: e in events ==> !e.Strip?
    ensures Safe(Steps(s, events)) && Held(Steps(s, events))
    ensures forall n :: PhaseOf(Steps(s, events), n).Applying? ==>
                          Persisted(Steps(s, events), n) && n in Steps(s, events).registry.applied
    decreases |events|
  {
    if events != [] {
      var k := |events| - 1;
      ApplyingOnlyWhenPersisted(s, events[..k]);
      StepKeepsSafe(Steps(s, events[..k]), events[k]);
      StepKeepsHeld(Steps(s, events[..k]), events[k]);
    }
    forall n | PhaseOf(Steps(s, events), n).Applying?
      ensures Persisted(Steps(s, events), n) && n in Steps(s, events).registry.applied
    {
      assert PhaseSafe(Steps(s, events), n) && PhaseHeld(Steps(s, events), n);
    }
  }

  /** Both records of a work are stored at this moment. */
  predicate Backed(s: System, n: string) {
    Persisted(s, n) && n in s.registry.applied
  }

  /** A reconcile that goes by a finalizer it has seen or set. */
  predicate Relies(s: System, n: string) {
    match PhaseOf(s, n)
    case Checking(_) => true
    case Creating(w) => HasFinalizer(w)
    case Applying(_, _) => true
    case _ => false
  }

  lemma FetchBacks(s: System, n: string, fault: Option<string>)
    requires WorkSafe(s, n) && Relies(StepFetch(s, n, fault), n)
    ensures Relies(s, n) || Backed(StepFetch(s, n, fault), n)
  {
  }

  lemma CallBacks(s: System, n: string, fault: Option<string>, uid: string)
    requires PhaseSafe(s, n) && Relies(StepCall(s, n, fault, uid), n)
    ensures Relies(s, n) || Backed(StepCall(s, n, fault, uid), n)
  {
  }

  /** A reconcile comes to rely on the finalizer only at a moment at which both records are stored. */
  lemma StepBacks(s: System, e: Event, n: string)
    requires WorkSafe(s, n) && PhaseSafe(s, n) && Relies(Step(s, e), n)
    ensures Relies(s, n) || Backed(Step(s, e), n)
  {
    hide StepFetch, StepCall, HubUpdate, HubUpdateStatus, UpdateAppliedStatus, WorkSafe, PhaseSafe;
    if e.name != n {
      hide Step;
      StepFrame(s, e, n);
    } else if e.Fetch? {
      FetchBacks(s, n, e.fault);
    } else if e.Call? {
      CallBacks(s, n, e.fault, e.uid);
    }
  }

  /** The reconcile that is relying now was backed after some earlier event, and has relied ever since. */
  ghost predicate BackedSince(s: System, events: seq<Event>, n: string) {
    exists j: nat :: BackedAt(s, events, j, n)
  }

  ghost predicate BackedAt(s: System, events: seq<Event>, j: nat, n: string) {
    && j <= |events| && Backed(Steps(s, events[..j]), n)
    && forall i :: j <= i <= |events| ==> Relies(Steps(s, events[..i]), n)
  }

  /**
   Over every run, with any failures, any interleaving and Leave at any moment: a reconcile that
   applies manifests was, at one earlier moment of its own, looking at a finalizer and an
   AppliedWork that were both stored.
   */
  lemma {:induction false} AppliesOnlyAfterBothStored(s: System, events: seq<Event>, n: string)
    requires Safe(s) && ListsAreStored(s, events) && (Relies(s, n) ==> Backed(s, n))
    requires Relies(Steps(s, events), n)
    ensures BackedSince(s, events, n)
    decreases |events|
  {
    hide Safe, ListsAreStored, Step, Relies, Backed;
    assert events[..|events|] == events;
    if events == [] {
      assert BackedAt(s, events, 0, n);
    } else {
      var k := |events| - 1;
      var init := events[..k];
      ListsOfPrefix(s, events, k);
      SafeInEveryRun(s, init);
      assert WorkSafe(Steps(s, init), n) && PhaseSafe(Steps(s, init), n) by { SafeOf(Steps(s, init), n); }
      StepBacks(Steps(s, init), events[k], n);
      if Backed(Steps(s, events), n) {
        assert BackedAt(s, events, |events|, n);
      } else {
        AppliesOnlyAfterBothStored(s, init, n);
        var j: nat :| BackedAt(s, init, j, n);
        assert init[..j] == events[..j];
        forall i | j <= i <= |events| ensures Relies(Steps(s, events[..i]), n) {
          if i < |events| { assert init[..i] == events[..i]; }
        }
        assert BackedAt(s, events, j, n);
      }
    }
  }

  lemma SafeOf(s: System, n: string)
    requires Safe(s)
    ensures WorkSafe(s, n) && PhaseSafe(s, n)
  {
  }

  /**
   In every run without Leave the only step that takes the finalizer off a work is the
   reconciler's release, of a work that is being deleted, when its AppliedWork is gone.
   */
  lemma ReleasedOnlyAfterDeletion(s: System, events: seq<Event>, e: Event, n: string)
    requires Safe(s) && Held(s)
    requires forall f :: f in events + [e] ==> !f.Strip?
    ensures var before := Steps(s, events);
            var after := Steps(s, events + [e]);
            Persisted(before, n) && !Persisted(after, n) ==>
              && e.Call? && e.name == n && PhaseOf(before, n).Releasing?
              && before.hub.works[n].deleting
              && n !in before.registry.applied && n !in after.registry.applied
  {
    forall f | f in events ensures !f.Strip? { assert f in events + [e]; }
    assert e in events + [e];
    ApplyingOnlyWhenPersisted(s, events);
    var before := Steps(s, events);
    assert (events + [e])[..|events|] == events;
    if n == e.name {
      assert WorkSafe(before, n) && PhaseSafe(before, n) && PhaseHeld(before, n);
    } else {
      StepFrame(before, e, n);
    }
  }

  // ---------------------------------------------------------------------------------
  // The controller's two procedures are runs of the machine.
  // ---------------------------------------------------------------------------------

  /** The API calls ensureAppliedWork makes. */
  function EnsureEvents(reg: Registry, name: string, work: Work, answer: EnsureAnswer): seq<Event> {
    var check := if HasFinalizer(work) then [Call(name, answer.getFault, answer.uid)] else [];
    var create := [Call(name, answer.createFault, answer.uid)];
    var update := [Call(name, answer.updateFault, answer.uid)];
    if HasFinalizer(work) then
      if GetApplied(reg, name, answer.getFault) == Err(NotFound) then check + create else check
    else if answer.createFault.Some? then create
    else create + update
  }

  lemma StepsOfOne(s: System, a: Event)
    ensures Steps(s, [a]) == Step(s, a)
  {
    assert [a][..0] == [];
  }

  lemma StepsOfTwo(s: System, a: Event, b: Event)
    ensures Steps(s, [a] + [b]) == Step(Step(s, a), b)
  {
    StepsOfOne(s, a);
    assert ([a] + [b])[..1] == [a];
  }

  lemma CreateIsRun(s: System, name: string, work: Work, answer: EnsureAnswer)
    requires PhaseOf(s, name) == Creating(work)
    ensures var out := CreateAndFinalize(s.hub, s.registry, name, work, answer);
            var create := Step(s, Call(name, answer.createFault, answer.uid));
            var end := if HasFinalizer(work) || answer.createFault.Some? then create
                       else Step(create, Call(name, answer.updateFault, answer.uid));
            && end.hub == out.hub
            && end.registry == out.registry
            && PhaseOf(end, name) == (match out.result case Ok(local) => Applying(out.work, local) case Err(_) => Idle)
  {
    hide HubUpdate, HasFinalizer, Finalized;
  }

  /** ensureAppliedWork, run alone, is these calls, and succeeds exactly when they end in the applying phase. */
  lemma EnsureIsRun(s: System, name: string, work: Work, answer: EnsureAnswer)
    requires PhaseOf(s, name) == if HasFinalizer(work) then Checking(work) else Creating(work)
    ensures var out := Ensure(s.hub, s.registry, name, work, answer);
            var end := Steps(s, EnsureEvents(s.registry, name, work, answer));
            && end.hub == out.hub
            && end.registry == out.registry
            && PhaseOf(end, name) == (match out.result case Ok(local) => Applying(out.work, local) case Err(_) => Idle)
  {
    hide HasFinalizer, CreateAndFinalize, Steps;
    var check := Call(name, answer.getFault, answer.uid);
    var create := Call(name, answer.createFault, answer.uid);
    var update := Call(name, answer.updateFault, answer.uid);
    StepsOfOne(s, check);
    StepsOfOne(s, create);
    StepsOfTwo(s, check, create);
    StepsOfTwo(s, create, update);
    if !HasFinalizer(work) {
      CreateIsRun(s, name, work, answer);
    } else if GetApplied(s.registry, name, answer.getFault) == Err(NotFound) {
      CreateIsRun(Step(s, check), name, work, answer);
    }
  }

  /** garbageCollectAppliedWork, run alone: delete, then release if the delete went through. */
  lemma CollectIsRun(s: System, name: string, work: Work, deleteFault: Option<string>, updateFault: Option<string>)
    requires HasFinalizer(work) && PhaseOf(s, name) == Deleting(work)
    ensures var out := Collect(s.hub, s.registry, name, work, deleteFault, updateFault);
            var delete := Call(name, deleteFault, "");
            var end := Steps(s, if deleteFault.Some? then [delete] else [delete] + [Call(name, updateFault, "")]);
            && end.hub == out.hub
            && end.registry == out.registry
            && PhaseOf(end, name) == Idle
  {
    StepsOfOne(s, Call(name, deleteFault, ""));
    StepsOfTwo(s, Call(name, deleteFault, ""), Call(name, updateFault, ""));
  }

  // ---------------------------------------------------------------------------------
  // Leave.
  // ---------------------------------------------------------------------------------

  datatype LeaveOut = LeaveOut(hub: HubState, error: Option<ApiError>, cleaned: nat)

  /** The loop of Leave over the first k listed works, with the copies it listed. */
  function LeaveUpTo(hub: HubState, listed: seq<(string, Work)>, faults: nat -> Option<string>, k: nat): LeaveOut
    requires k <= |listed|
  {
    if k == 0 then LeaveOut(hub, None, 0)
    else
      var before := LeaveUpTo(hub, listed, faults, k - 1);
      var item := listed[k - 1];
      if before.error.Some? then before
      else if !HasFinalizer(item.1) then LeaveOut(before.hub, None, k)
      else
        var u := HubUpdate(before.hub, item.0, Released(item.1), faults(k - 1));
        if u.result.Err? then LeaveOut(u.hub, Some(u.result.error), k - 1) else LeaveOut(u.hub, None, k)
  }

  /** The list is what the hub holds, each work once. */
  predicate ListsHub(hub: HubState, listed: seq<(string, Work)>) {
    && (forall i :: 0 <= i < |listed| ==> listed[i].0 in hub.works && hub.works[listed[i].0] == listed[i].1)
    && (forall i, j :: 0 <= i < j < |listed| ==> listed[i].0 != listed[j].0)
  }

  /** What Leave makes of a stored work: released, and gone if that was all that held it back. */
  predicate IsReleased(hub: HubState, n: string, w: Work) {
    if n in hub.works then
      && !HasFinalizer(hub.works[n])
      && hub.works[n] == Released(w).(resourceVersion := hub.works[n].resourceVersion)
    else w.deleting && HasFinalizer(w) && Released(w).finalizers == []
  }

  predicate Untouched(before: HubState, after: HubState, n: string) {
    (n in after.works <==> n in before.works) && (n in before.works ==> after.works[n] == before.works[n])
  }

  predicate NotAmong(listed: seq<(string, Work)>, k: nat, n: string)
    requires k <= |listed|
  {
    forall i :: 0 <= i < k ==> listed[i].0 != n
  }

  /** One release: the work it names is released, all others stay. */
  lemma ReleaseOne(hub: HubState, n: string, w: Work, fault: Option<string>)
    requires n in hub.works && hub.works[n] == w && HasFinalizer(w)
    ensures var u := HubUpdate(hub, n, Released(w), fault);
            && (fault.Some? ==> u.result == Err(Unavailable(fault.value)) && u.hub == hub)
            && (fault.None? ==> u.result.Ok? && IsReleased(u.hub, n, w))
            && forall m :: m != n ==> Untouched(hub, u.hub, m)
  {
  }

  lemma {:induction false} LeaveLeavesRest(hub: HubState, listed: seq<(string, Work)>, faults: nat -> Option<string>,
      k: nat)
    requires k <= |listed| && ListsHub(hub, listed)
    ensures var out := LeaveUpTo(hub, listed, faults, k);
            && out.cleaned <= k
            && (out.error.None? <==> out.cleaned == k)
            && (out.error.Some? ==>
                  && faults(out.cleaned).Some? && HasFinalizer(listed[out.cleaned].1)
                  && out.error.value == Unavailable(faults(out.cleaned).value))
            && (forall n :: NotAmong(listed, out.cleaned, n) ==> Untouched(hub, out.hub, n))
  {
    hide HubUpdate, HasFinalizer;
    if k > 0 {
      LeaveLeavesRest(hub, listed, faults, k - 1);
      var before := LeaveUpTo(hub, listed, faults, k - 1);
      var n, w := listed[k - 1].0, listed[k - 1].1;
      if before.error.None? && HasFinalizer(w) {
        assert NotAmong(listed, k - 1, n);
        assert Untouched(hub, before.hub, n);
        ReleaseOne(before.hub, n, w, faults(k - 1));
      }
      forall m | NotAmong(listed, LeaveUpTo(hub, listed, faults, k).cleaned, m)
        ensures Untouched(hub, LeaveUpTo(hub, listed, faults, k).hub, m)
      {
        if before.error.None? {
          assert NotAmong(listed, k - 1, m) && Untouched(hub, before.hub, m);
          assert LeaveUpTo(hub, listed, faults, k).cleaned == k ==> n != m;
          assert Untouched(before.hub, LeaveUpTo(hub, listed, faults, k).hub, m);
        }
      }
    }
  }

  lemma {:induction false} LeaveReleases(hub: HubState, listed: seq<(string, Work)>, faults: nat -> Option<string>,
      k: nat, i: nat)
    requires k <= |listed| && ListsHub(hub, listed)
    requires i < LeaveUpTo(hub, listed, faults, k).cleaned
    ensures i < |listed| && IsReleased(LeaveUpTo(hub, listed, faults, k).hub, listed[i].0, listed[i].1)
  {
    hide HubUpdate, IsReleased;
    LeaveLeavesRest(hub, listed, faults, k);
    if k > 0 {
      LeaveLeavesRest(hub, listed, faults, k - 1);
      var before := LeaveUpTo(hub, listed, faults, k - 1);
      var n, w := listed[k - 1].0, listed[k - 1].1;
      if before.error.None? {
        assert NotAmong(listed, k - 1, n);
        assert Untouched(hub, before.hub, n);
        if HasFinalizer(w) {
          ReleaseOne(before.hub, n, w, faults(k - 1));
        } else {
          AlreadyReleased(before.hub, n, w);
        }
      }
      if i < before.cleaned {
        LeaveReleases(hub, listed, faults, k - 1, i);
        if before.error.None? && HasFinalizer(w) {
          assert Untouched(before.hub, LeaveUpTo(hub, listed, faults, k).hub, listed[i].0);
          ReleasedStays(before.hub, LeaveUpTo(hub, listed, faults, k).hub, listed[i].0, listed[i].1);
        }
      }
    }
  }

  lemma AlreadyReleased(hub: HubState, n: string, w: Work)
    requires n in hub.works && hub.works[n] == w && !HasFinalizer(w)
    ensures IsReleased(hub, n, w)
  {
  }

  lemma ReleasedStays(before: HubState, after: HubState, n: string, w: Work)
    requires Untouched(before, after, n) && IsReleased(before, n, w)
    ensures IsReleased(after, n, w)
  {
  }

  /**
   Leave over any list, with no reconcile in flight: the released works are exactly a prefix of
   the list, all of it on success, it stops only at an update that failed, and every other
   work is untouched.
   */
  lemma LeaveCleansPrefix(hub: HubState, listed: seq<(string, Work)>, faults: nat -> Option<string>)
    requires ListsHub(hub, listed)
    ensures var out := LeaveUpTo(hub, listed, faults, |listed|);
            && out.cleaned <= |listed|
            && (out.error.None? <==> out.cleaned == |listed|)
            && (out.error.Some? ==>
                  && faults(out.cleaned).Some? && HasFinalizer(listed[out.cleaned].1)
                  && out.error.value == Unavailable(faults(out.cleaned).value))
            && (forall i :: 0 <= i < out.cleaned ==> IsReleased(out.hub, listed[i].0, listed[i].1))
            && (forall n :: NotAmong(listed, out.cleaned, n) ==> Untouched(hub, out.hub, n))
  {
    hide HubUpdate, IsReleased;
    var out := LeaveUpTo(hub, listed, faults, |listed|);
    LeaveLeavesRest(hub, listed, faults, |listed|);
    forall i | 0 <= i < out.cleaned ensures IsReleased(out.hub, listed[i].0, listed[i].1) {
      LeaveReleases(hub, listed, faults, |listed|, i);
    }
  }
}
