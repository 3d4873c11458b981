/**
 applied_work_syncer.go: what a pass keeps tracking, what has become stale, and the removal of
 what is stale.
 */
module Syncer {
  import opened Wrappers
  import opened OwnerReferences
  import opened WorkApi
  import opened Spoke
  import opened SpokeRuns
  import opened Conditions
  import opened Clusters

  /** isSameResourceIdentifier ignores the ordinal and the resource name. */
  predicate SameResource(a: ResourceIdentifier, b: ResourceIdentifier) {
    a.group == b.group && a.version == b.version && a.kind == b.kind && a.namespace == b.namespace && a.name == b.name
  }

  function TargetOfId(id: ResourceIdentifier): Target {
    Target(Gvr(id.group, id.version, id.resource), id.namespace, id.name)
  }

  // ---------------------------------------------------------------------------------
  // generateDiff.
  // ---------------------------------------------------------------------------------

  predicate HasCondition(conds: seq<ManifestCondition>, id: ResourceIdentifier) {
    exists i :: 0 <= i < |conds| && SameResource(id, conds[i].identifier)
  }

  /** The tracked resources no condition speaks of, in order. */
  function StaleOf(tracked: seq<AppliedResource>, conds: seq<ManifestCondition>): seq<AppliedResource>
  {
    if tracked == [] then []
    else
      var n := |tracked| - 1;
      StaleOf(tracked[..n], conds) + (if HasCondition(conds, tracked[n].identifier) then [] else [tracked[n]])
  }

  /** The first tracked entry of a resource. */
  function TrackedAt(tracked: seq<AppliedResource>, id: ResourceIdentifier): (i: Option<nat>)
    ensures i.Some? ==> i.value < |tracked| && SameResource(tracked[i.value].identifier, id)
    ensures i.Some? ==> forall j :: 0 <= j < i.value ==> !SameResource(tracked[j].identifier, id)
    ensures i.None? <==> forall j :: 0 <= j < |tracked| ==> !SameResource(tracked[j].identifier, id)
  {
    if tracked == [] then None
    else if SameResource(tracked[0].identifier, id) then Some(0)
    else
      assert forall j :: 0 < j < |tracked| ==> tracked[j] == tracked[1..][j - 1];
      match TrackedAt(tracked[1..], id)
      case Some(i) => Some(i + 1)
      case None => None
  }

  datatype DiffAnswers = DiffAnswers(before: nat -> seq<Action>, fault: nat -> Option<string>)

  datatype DiffOut = DiffOut(objs: Objects, result: Result<seq<AppliedResource>, ApiError>)

  /** The entry one condition contributes, looking the object up when it is not tracked yet. */
  function EntryOf(objs: Objects, c: ManifestCondition, tracked: seq<AppliedResource>,
      fault: Option<string>): Result<Option<AppliedResource>, ApiError> {
    if !AppliedIs(c.conditions, True) then Ok(None)
    else
      match TrackedAt(tracked, c.identifier)
      case Some(i) => Ok(Some(AppliedResource(c.identifier, tracked[i].uid)))
      case None =>
        match Get(objs, TargetOfId(c.identifier), fault)
        case Ok(o) => Ok(Some(AppliedResource(c.identifier, o.live.uid)))
        case Err(NotFound) => Ok(None)
        case Err(e) => Err(e)
  }

  function NewUpTo(objs: Objects, conds: seq<ManifestCondition>, tracked: seq<AppliedResource>, answers: DiffAnswers,
      k: nat): DiffOut
    requires k <= |conds|
  {
    if k == 0 then DiffOut(objs, Ok([]))
    else
      var done := NewUpTo(objs, conds, tracked, answers, k - 1);
      if done.result.Err? then done
      else
        var now := Run(done.objs, answers.before(k - 1));
        match EntryOf(now, conds[k - 1], tracked, answers.fault(k - 1))
        case Err(e) => DiffOut(now, Err(e))
        case Ok(None) => DiffOut(now, done.result)
        case Ok(Some(entry)) => DiffOut(now, Ok(done.result.value + [entry]))
  }

  function Diff(objs: Objects, conds: seq<ManifestCondition>, tracked: seq<AppliedResource>,
      answers: DiffAnswers): DiffOut {
    NewUpTo(objs, conds, tracked, answers, |conds|)
  }

  method GenerateDiff(spoke: SpokeCluster, conds: seq<ManifestCondition>, tracked: seq<AppliedResource>,
      answers: DiffAnswers)
    returns (newRes: Result<seq<AppliedResource>, ApiError>, staleRes: seq<AppliedResource>)
    modifies spoke`objs
    ensures DiffOut(spoke.objs, newRes) == Diff(old(spoke.objs), conds, tracked, answers)
    ensures newRes.Ok? ==> staleRes == StaleOf(tracked, conds)
  {
    hide EntryOf, Run, SameResource;
    staleRes := [];
    for t := 0 to |tracked|
      invariant staleRes == StaleOf(tracked[..t], conds)
    {
      var resStillExist := false;
      for i := 0 to |conds|
        invariant !resStillExist
        invariant forall j :: 0 <= j < i ==> !SameResource(tracked[t].identifier, conds[j].identifier)
      {
        if SameResource(tracked[t].identifier, conds[i].identifier) {
          resStillExist := true;
          break;
        }
      }
      assert tracked[..t + 1][..t] == tracked[..t];
      if !resStillExist {
        staleRes := staleRes + [tracked[t]];
      }
    }
    assert tracked[..|tracked|] == tracked;
    var added: seq<AppliedResource> := [];
    for k := 0 to |conds|
      invariant DiffOut(spoke.objs, Ok(added)) == NewUpTo(old(spoke.objs), conds, tracked, answers, k)
    {
      var entry := AddEntry(spoke, conds[k], tracked, answers.before(k), answers.fault(k));
      match entry {
        case Err(e) =>
          DiffStops(old(spoke.objs), conds, tracked, answers, k + 1, |conds|);
          return Err(e), [];
        case Ok(None) =>
        case Ok(Some(r)) => added := added + [r];
      }
    }
    newRes := Ok(added);
  }

  /** One iteration of the second loop of generateDiff. */
  method AddEntry(spoke: SpokeCluster, c: ManifestCondition, tracked: seq<AppliedResource>, before: seq<Action>,
      fault: Option<string>)
    returns (entry: Result<Option<AppliedResource>, ApiError>)
    modifies spoke`objs
    ensures spoke.objs == Run(old(spoke.objs), before)
    ensures entry == EntryOf(spoke.objs, c, tracked, fault)
  {
    hide Run, Get, FindCondition, SameResource, TrackedAt;
    spoke.Interfere(before);
    var ac := FindCondition(c.conditions, CONDITION_APPLIED);
    if ac.None? || c.conditions[ac.value].status != True {
      return Ok(None);
    }
    for j := 0 to |tracked|
      invariant forall i :: 0 <= i < j ==> !SameResource(tracked[i].identifier, c.identifier)
    {
      if SameResource(tracked[j].identifier, c.identifier) {
        return Ok(Some(AppliedResource(c.identifier, tracked[j].uid)));
      }
    }
    var got := spoke.GetObject(TargetOfId(c.identifier), fault);
    match got {
      case Err(NotFound) => entry := Ok(None);
      case Err(e) => entry := Err(e);
      case Ok(o) => entry := Ok(Some(AppliedResource(c.identifier, o.live.uid)));
    }
  }

  lemma {:induction false} DiffStops(objs: Objects, conds: seq<ManifestCondition>, tracked: seq<AppliedResource>,
      answers: DiffAnswers, j: nat, k: nat)
    requires j <= k <= |conds|
    requires NewUpTo(objs, conds, tracked, answers, j).result.Err?
    ensures NewUpTo(objs, conds, tracked, answers, k) == NewUpTo(objs, conds, tracked, answers, j)
    decreases k
  {
    hide EntryOf, Run;
    if j < k {
      DiffStops(objs, conds, tracked, answers, j, k - 1);
    }
  }

  // ---------------------------------------------------------------------------------
  // deleteStaleManifest.
  // ---------------------------------------------------------------------------------

  datatype CleanAnswers = CleanAnswers(before: nat -> seq<Action>, answer: nat -> CleanAnswer)

  datatype CleanAllOut = CleanAllOut(objs: Objects, errors: seq<ApiError>, writes: nat)

  function CleanUpTo(objs: Objects, stale: seq<AppliedResource>, owner: OwnerRef, answers: CleanAnswers,
      k: nat): CleanAllOut
    requires k <= |stale|
  {
    if k == 0 then CleanAllOut(objs, [], 0)
    else
      var done := CleanUpTo(objs, stale, owner, answers, k - 1);
      var step := CleanStale(Run(done.objs, answers.before(k - 1)), TargetOfId(stale[k - 1].identifier), owner,
        answers.answer(k - 1));
      CleanAllOut(step.objs, done.errors + (match step.error case Some(e) => [e] case None => []),
        done.writes + step.writes)
  }

  function CleanAll(objs: Objects, stale: seq<AppliedResource>, owner: OwnerRef, answers: CleanAnswers): CleanAllOut {
    CleanUpTo(objs, stale, owner, answers, |stale|)
  }

  /** One iteration of deleteStaleManifest. */
  method CleanNext(spoke: SpokeCluster, t: Target, owner: OwnerRef, answer: CleanAnswer)
    returns (error: Option<ApiError>, ghost writes: nat)
    modifies spoke`objs
    ensures CleanOut(spoke.objs, error, writes) == CleanStale(old(spoke.objs), t, owner, answer)
  {
    writes := 0;
    var got := spoke.GetObject(t, answer.getFault);
    match got {
      case Err(NotFound) =>
        return None, 0;
      case Err(e) =>
        return Some(e), 0;
      case Ok(uObj) =>
        var found, newOwners := SpliceOwner(uObj.owners, owner);
        if !found {
          return None, 0;
        }
        writes := 1;
        if |newOwners| == 0 {
          error := spoke.DeleteObject(t, answer.writeFault);
          if error == Some(NotFound) {
            error := None;
          }
        } else {
          error := spoke.UpdateObject(t, uObj.(owners := newOwners), answer.writeFault, answer.live);
        }
    }
  }

  method DeleteStaleManifest(spoke: SpokeCluster, stale: seq<AppliedResource>, owner: OwnerRef, answers: CleanAnswers)
    returns (errs: seq<ApiError>, ghost writes: nat)
    modifies spoke`objs
    ensures CleanAllOut(spoke.objs, errs, writes) == CleanAll(old(spoke.objs), stale, owner, answers)
  {
    hide CleanStale, Run;
    errs, writes := [], 0;
    for k := 0 to |stale|
      invariant CleanAllOut(spoke.objs, errs, writes) == CleanUpTo(old(spoke.objs), stale, owner, answers, k)
    {
      spoke.Interfere(answers.before(k));
      var error, w := CleanNext(spoke, TargetOfId(stale[k].identifier), owner, answers.answer(k));
      writes := writes + w;
      if error.Some? {
        errs := errs + [error.value];
      }
    }
  }

  // ---------------------------------------------------------------------------------
  // The declarative reading of generateDiff.
  // ---------------------------------------------------------------------------------

  /** Stale is exactly the tracked entries that match no condition. */
  lemma {:induction false} StaleExactly(tracked: seq<AppliedResource>, conds: seq<ManifestCondition>,
      e: AppliedResource)
    ensures e in StaleOf(tracked, conds) <==> e in tracked && !HasCondition(conds, e.identifier)
    decreases |tracked|
  {
    hide HasCondition;
    if tracked != [] {
      var n := |tracked| - 1;
      StaleExactly(tracked[..n], conds, e);
      assert tracked == tracked[..n] + [tracked[n]];
    }
  }

  /** What a condition contributes on one snapshot of the cluster. */
  function SnapshotEntry(objs: Objects, c: ManifestCondition, tracked: seq<AppliedResource>): Option<AppliedResource> {
    if !AppliedIs(c.conditions, True) then None
    else
      match TrackedAt(tracked, c.identifier)
      case Some(i) => Some(AppliedResource(c.identifier, tracked[i].uid))
      case None =>
        var t := TargetOfId(c.identifier);
        if t in objs then Some(AppliedResource(c.identifier, objs[t].live.uid)) else None
  }

  /** The entries of all conditions, in order. */
  function SnapshotNew(objs: Objects, conds: seq<ManifestCondition>, tracked: seq<AppliedResource>,
      k: nat): seq<AppliedResource>
    requires k <= |conds|
  {
    if k == 0 then []
    else
      SnapshotNew(objs, conds, tracked,
        k - 1) + (match SnapshotEntry(objs, conds[k - 1], tracked) case Some(e) => [e] case None => [])
  }

  /** Every condition that has to be looked up names an object. */
  predicate LookupsNamed(conds: seq<ManifestCondition>, tracked: seq<AppliedResource>) {
    forall i | 0 <= i < |conds| ::
      AppliedIs(conds[i].conditions, True) && TrackedAt(tracked, conds[i].identifier).None? ==>
        conds[i].identifier.name != ""
  }

  lemma EntryOnSnapshot(objs: Objects, c: ManifestCondition, tracked: seq<AppliedResource>, fault: Option<string>)
    ensures var entry := EntryOf(objs, c, tracked, fault);
            && (entry.Ok? ==> entry.value == SnapshotEntry(objs, c, tracked))
            && (fault.None? && (AppliedIs(c.conditions, True) && TrackedAt(tracked, c.identifier).None? ==>
              c.identifier.name != "") ==>
                  entry.Ok?)
  {
    hide AppliedIs, TrackedAt;
  }

  /** On a snapshot, a diff that succeeds is the declarative one, and it succeeds unless a lookup fails. */
  lemma {:induction false} DiffOnSnapshot(objs: Objects, conds: seq<ManifestCondition>, tracked: seq<AppliedResource>,
      answers: DiffAnswers, k: nat)
    requires k <= |conds| && Undisturbed(answers.before)
    ensures var out := NewUpTo(objs, conds, tracked, answers, k);
            && out.objs == objs
            && (out.result.Ok? ==> out.result.value == SnapshotNew(objs, conds, tracked, k))
            && ((forall i :: 0 <= i < k ==> answers.fault(i).None?) && LookupsNamed(conds, tracked) ==> out.result.Ok?)
  {
    hide AppliedIs, TrackedAt, EntryOf, SnapshotEntry;
    if k > 0 {
      DiffOnSnapshot(objs, conds, tracked, answers, k - 1);
      assert answers.before(k - 1) == [] && Run(objs, []) == objs;
      EntryOnSnapshot(objs, conds[k - 1], tracked, answers.fault(k - 1));
    }
  }

  /** New is exactly the entries of the applied conditions that are tracked or exist. */
  lemma {:induction false} NewExactly(objs: Objects, conds: seq<ManifestCondition>, tracked: seq<AppliedResource>,
      k: nat, e: AppliedResource)
    requires k <= |conds|
    ensures e in SnapshotNew(objs, conds, tracked, k) <==>
            exists i :: 0 <= i < k && SnapshotEntry(objs, conds[i], tracked) == Some(e)
  {
    hide SnapshotEntry;
    if k > 0 {
      NewExactly(objs, conds, tracked, k - 1, e);
    }
  }

  /** A kept entry and a stale entry never name the same resource. */
  lemma NewAndStaleAreDisjoint(objs: Objects, conds: seq<ManifestCondition>, tracked: seq<AppliedResource>,
      kept: AppliedResource, stale: AppliedResource)
    requires kept in SnapshotNew(objs, conds, tracked, |conds|) && stale in StaleOf(tracked, conds)
    ensures !SameResource(kept.identifier, stale.identifier)
  {
    NewExactly(objs, conds, tracked, |conds|, kept);
    StaleExactly(tracked, conds, stale);
  }

  /** Conditions of applied resources agree on the resource name of one kind and object. */
  predicate ResourceDetermined(conds: seq<ManifestCondition>) {
    forall i, j | 0 <= i < |conds| && 0 <= j < |conds| ::
      && AppliedIs(conds[i].conditions, True) && AppliedIs(conds[j].conditions, True)
      && SameResource(conds[i].identifier, conds[j].identifier) ==>
        conds[i].identifier.resource == conds[j].identifier.resource
  }

  /** Tracking the new list instead of the old one changes no entry. */
  lemma EntryIsStable(objs: Objects, conds: seq<ManifestCondition>, tracked: seq<AppliedResource>, i: nat)
    requires i < |conds| && ResourceDetermined(conds)
    ensures SnapshotEntry(objs, conds[i], SnapshotNew(objs, conds, tracked, |conds|)) ==
            SnapshotEntry(objs, conds[i], tracked)
  {
    hide AppliedIs;
    var c := conds[i];
    var new' := SnapshotNew(objs, conds, tracked, |conds|);
    if AppliedIs(c.conditions, True) {
      var entry := SnapshotEntry(objs, c, tracked);
      if entry.Some? {
        NewExactly(objs, conds, tracked, |conds|, entry.value);
      }
      var at := TrackedAt(new', c.identifier);
      if at.Some? {
        NewExactly(objs, conds, tracked, |conds|, new'[at.value]);
        var j :| 0 <= j < |conds| && SnapshotEntry(objs, conds[j], tracked) == Some(new'[at.value]);
        assert SameResource(conds[i].identifier, conds[j].identifier);
        SameTracking(tracked, conds[i].identifier, conds[j].identifier);
      }
    }
  }

  lemma SameTracking(tracked: seq<AppliedResource>, a: ResourceIdentifier, b: ResourceIdentifier)
    requires SameResource(a, b)
    ensures TrackedAt(tracked, a) == TrackedAt(tracked, b)
  {
  }

  /** Running the diff again with its own new list gives the same list and nothing stale. */
  lemma {:induction false} DiffIsIdempotent(objs: Objects, conds: seq<ManifestCondition>,
      tracked: seq<AppliedResource>, k: nat)
    requires k <= |conds| && ResourceDetermined(conds)
    ensures var new' := SnapshotNew(objs, conds, tracked, |conds|);
            && SnapshotNew(objs, conds, new', k) == SnapshotNew(objs, conds, tracked, k)
            && StaleOf(new', conds) == []
  {
    hide SnapshotEntry, AppliedIs;
    var new' := SnapshotNew(objs, conds, tracked, |conds|);
    if k > 0 {
      DiffIsIdempotent(objs, conds, tracked, k - 1);
      EntryIsStable(objs, conds, tracked, k - 1);
    } else {
      NothingStale(objs, conds, tracked);
    }
  }

  /** A diff that succeeds has looked up no nameless object. */
  lemma {:induction false} SuccessfulLookupsNamed(objs: Objects, conds: seq<ManifestCondition>,
      tracked: seq<AppliedResource>, answers: DiffAnswers, k: nat, i: nat)
    requires i < k <= |conds| && NewUpTo(objs, conds, tracked, answers, k).result.Ok?
    requires AppliedIs(conds[i].conditions, True) && TrackedAt(tracked, conds[i].identifier).None?
    ensures conds[i].identifier.name != ""
  {
    hide AppliedIs, TrackedAt, Run;
    if i < k - 1 {
      SuccessfulLookupsNamed(objs, conds, tracked, answers, k - 1, i);
    }
  }

  /**
   The same of the call: on one snapshot, repeating a successful diff on its own list succeeds,
   keeps the list and finds nothing stale.
   */
  lemma DiffAgain(objs: Objects, conds: seq<ManifestCondition>, tracked: seq<AppliedResource>, first: DiffAnswers,
      second: DiffAnswers)
    requires ResourceDetermined(conds) && Undisturbed(first.before) && Undisturbed(second.before)
    requires Diff(objs, conds, tracked, first).result.Ok? && forall k :: second.fault(k).None?
    ensures var new' := Diff(objs, conds, tracked, first).result.value;
            Diff(objs, conds, new', second) == DiffOut(objs, Ok(new')) && StaleOf(new', conds) == []
  {
    hide AppliedIs, ResourceDetermined, NewUpTo, SnapshotNew, TrackedAt;
    var new' := SnapshotNew(objs, conds, tracked, |conds|);
    DiffOnSnapshot(objs, conds, tracked, first, |conds|);
    forall i | 0 <= i < |conds| && AppliedIs(conds[i].conditions, True) && TrackedAt(new', conds[i].identifier).None?
      ensures conds[i].identifier.name != ""
    {
      var entry := SnapshotEntry(objs, conds[i], tracked);
      if entry.Some? {
        NewExactly(objs, conds, tracked, |conds|, entry.value);
      }
      SuccessfulLookupsNamed(objs, conds, tracked, first, |conds|, i);
    }
    DiffOnSnapshot(objs, conds, new', second, |conds|);
    DiffIsIdempotent(objs, conds, tracked, |conds|);
  }

  lemma NothingStale(objs: Objects, conds: seq<ManifestCondition>, tracked: seq<AppliedResource>)
    ensures StaleOf(SnapshotNew(objs, conds, tracked, |conds|), conds) == []
  {
    hide AppliedIs;
    var new' := SnapshotNew(objs, conds, tracked, |conds|);
    forall e | e in new' ensures HasCondition(conds, e.identifier) {
      NewExactly(objs, conds, tracked, |conds|, e);
      var i :| 0 <= i < |conds| && SnapshotEntry(objs, conds[i], tracked) == Some(e);
      assert SameResource(e.identifier, conds[i].identifier);
    }
    AllMatchedNoneStale(new', conds);
  }

  lemma {:induction false} AllMatchedNoneStale(tracked: seq<AppliedResource>, conds: seq<ManifestCondition>)
    requires forall e :: e in tracked ==> HasCondition(conds, e.identifier)
    ensures StaleOf(tracked, conds) == []
    decreases |tracked|
  {
    hide HasCondition;
    if tracked != [] {
      AllMatchedNoneStale(tracked[..|tracked| - 1], conds);
    }
  }

  // ---------------------------------------------------------------------------------
  // Nothing tracked is lost silently.
  // ---------------------------------------------------------------------------------

  /** The resource is reported applied by one of the first k conditions, under this very identifier. */
  predicate FromCondition(conds: seq<ManifestCondition>, k: nat, id: ResourceIdentifier)
    requires k <= |conds|
  {
    exists i :: 0 <= i < k && conds[i].identifier == id && AppliedIs(conds[i].conditions, True)
  }

  /**
   What the second loop has collected after k conditions: every tracked resource they report
   applied, and only resources they report applied, each with a name or tracked before.
   */
  ghost predicate Collected(conds: seq<ManifestCondition>, tracked: seq<AppliedResource>, added: seq<AppliedResource>,
      k: nat)
    requires k <= |conds|
  {
    && (forall i | 0 <= i < k ::
          AppliedIs(conds[i].conditions, True) && TrackedAt(tracked, conds[i].identifier).Some? ==>
            exists e :: e in added && e.identifier == conds[i].identifier)
    && (forall e :: e in added ==>
                      && FromCondition(conds, k, e.identifier)
                      && (e.identifier.name != "" || TrackedAt(tracked, e.identifier).Some?))
  }

  function OptionalEntry(entry: Option<AppliedResource>): seq<AppliedResource> {
    match entry
    case Some(e) => [e]
    case None => []
  }

  lemma CollectedStep(objs: Objects, conds: seq<ManifestCondition>, tracked: seq<AppliedResource>,
      added: seq<AppliedResource>, k: nat, fault: Option<string>)
    requires k < |conds| && Collected(conds, tracked, added, k)
    requires EntryOf(objs, conds[k], tracked, fault).Ok?
    ensures Collected(conds, tracked, added + OptionalEntry(EntryOf(objs, conds[k], tracked, fault).value), k + 1)
  {
    hide AppliedIs, TrackedAt;
    var entry := EntryOf(objs, conds[k], tracked, fault).value;
    var after := added + OptionalEntry(entry);
    forall i | 0 <= i < k + 1 && AppliedIs(conds[i].conditions, True) && TrackedAt(tracked, conds[i].identifier).Some?
      ensures exists e :: e in after && e.identifier == conds[i].identifier
    {
      if i < k {
        var e :| e in added && e.identifier == conds[i].identifier;
        assert e in after;
      } else {
        assert entry.value in after;
      }
    }
    forall e | e in after ensures FromCondition(conds, k + 1, e.identifier) {
      if e in added {
        assert FromCondition(conds, k, e.identifier);
      }
    }
  }

  /** So a successful diff has collected all conditions, with any interference. */
  lemma {:induction false} DiffCollects(objs: Objects, conds: seq<ManifestCondition>, tracked: seq<AppliedResource>,
      answers: DiffAnswers, k: nat)
    requires k <= |conds| && NewUpTo(objs, conds, tracked, answers, k).result.Ok?
    ensures Collected(conds, tracked, NewUpTo(objs, conds, tracked, answers, k).result.value, k)
  {
    hide AppliedIs, TrackedAt, EntryOf, Run, Collected;
    if k > 0 {
      var done := NewUpTo(objs, conds, tracked, answers, k - 1);
      DiffCollects(objs, conds, tracked, answers, k - 1);
      CollectedStep(Run(done.objs, answers.before(k - 1)), conds, tracked, done.result.value, k - 1,
        answers.fault(k - 1));
      assert done.result.value + [] == done.result.value;
    } else {
      NothingCollected(conds, tracked);
    }
  }

  lemma NothingCollected(conds: seq<ManifestCondition>, tracked: seq<AppliedResource>)
    ensures Collected(conds, tracked, [], 0)
  {
  }

  predicate HasAppliedCondition(conds: seq<ManifestCondition>, id: ResourceIdentifier) {
    exists i :: 0 <= i < |conds| && SameResource(id, conds[i].identifier) && AppliedIs(conds[i].conditions, True)
  }

  /** A tracked resource is collected exactly when some condition reports it applied. */
  lemma CollectedFate(conds: seq<ManifestCondition>, tracked: seq<AppliedResource>, added: seq<AppliedResource>,
      e: AppliedResource)
    requires e in tracked && Collected(conds, tracked, added, |conds|)
    ensures (exists n :: n in added && SameResource(n.identifier, e.identifier)) <==>
            HasAppliedCondition(conds, e.identifier)
  {
    hide AppliedIs;
    if HasAppliedCondition(conds, e.identifier) {
      var i :| 0 <= i < |conds| && SameResource(e.identifier, conds[i].identifier)
        && AppliedIs(conds[i].conditions, True);
      var j :| 0 <= j < |tracked| && tracked[j] == e;
      assert TrackedAt(tracked, conds[i].identifier).Some?;
      var n :| n in added && n.identifier == conds[i].identifier;
      assert SameResource(n.identifier, e.identifier);
    }
    if n :| n in added && SameResource(n.identifier, e.identifier) {
      var i :| 0 <= i < |conds| && conds[i].identifier == n.identifier && AppliedIs(conds[i].conditions, True);
      assert SameResource(e.identifier, conds[i].identifier);
    }
  }

  /**
   The fate of a tracked resource, with any interference: it is kept exactly when a condition
   reports it applied, stale exactly when no condition speaks of it, and so it drops out of
   both lists exactly when all its conditions report a failure.
   */
  lemma FateOfTracked(objs: Objects, conds: seq<ManifestCondition>, tracked: seq<AppliedResource>,
      answers: DiffAnswers, e: AppliedResource)
    requires e in tracked && Diff(objs, conds, tracked, answers).result.Ok?
    ensures var new' := Diff(objs, conds, tracked, answers).result.value;
            && ((exists n :: n in new' && SameResource(n.identifier, e.identifier)) <==>
              HasAppliedCondition(conds, e.identifier))
            && (e in StaleOf(tracked, conds) <==> !HasCondition(conds, e.identifier))
  {
    hide AppliedIs, NewUpTo, Collected, HasCondition, HasAppliedCondition, SameResource;
    StaleExactly(tracked, conds, e);
    DiffCollects(objs, conds, tracked, answers, |conds|);
    CollectedFate(conds, tracked, Diff(objs, conds, tracked, answers).result.value, e);
  }

  /**
   What others do in between is the works' own steps and outside changes, and none of it names this
   work as an owner.
   */
  ghost predicate Peaceful(before: nat -> seq<Action>, work: string) {
    forall k, a :: a in before(k) ==> WellFormed(a) && ForeignTo(a, work)
  }

  /**
   Clean-up without errors leaves none of the first k stale targets owned by the work, whatever
   others do in between.
   */
  lemma {:induction false} CleanedAreNotOwned(objs: Objects, stale: seq<AppliedResource>, work: string, uid: string,
      answers: CleanAnswers, k: nat)
    requires k <= |stale| && Tidy(objs) && Peaceful(answers.before, work)
    ensures var out := CleanUpTo(objs, stale, ControllerRef(work, uid), answers, k);
            && Tidy(out.objs)
            && (out.errors == [] ==> forall i :: 0 <= i < k ==> !Owns(out.objs, TargetOfId(stale[i].identifier), work))
  {
    hide CleanStale, Run, Tidy, Owns, Do;
    if k > 0 {
      var owner := ControllerRef(work, uid);
      CleanedAreNotOwned(objs, stale, work, uid, answers, k - 1);
      var done := CleanUpTo(objs, stale, owner, answers, k - 1);
      var acts := answers.before(k - 1);
      var now := Run(done.objs, acts);
      var t, answer := TargetOfId(stale[k - 1].identifier), answers.answer(k - 1);
      RunKeepsTidy(done.objs, acts);
      CleanKeepsTidy(now, t, work, uid, answer);
      if CleanStale(now, t, owner, answer).error.None? && done.errors == [] {
        CleanedIsNotOwned(now, t, work, uid, answer);
        forall i | 0 <= i < k - 1
          ensures !Owns(CleanStale(now, t, owner, answer).objs, TargetOfId(stale[i].identifier), work)
        {
          ForeignRunDoesNotOwn(done.objs, acts, TargetOfId(stale[i].identifier), work);
          CleanDoesNotOwn(now, t, work, uid, answer, TargetOfId(stale[i].identifier), work);
        }
      }
    }
  }

  /** Undisturbed, clean-up changes only objects that are targets of stale entries. */
  lemma {:induction false} CleanTouchesOnlyStale(objs: Objects, stale: seq<AppliedResource>, owner: OwnerRef,
      answers: CleanAnswers, k: nat, t: Target)
    requires k <= |stale| && Undisturbed(answers.before)
    requires forall i :: 0 <= i < k ==> TargetOfId(stale[i].identifier) != t
    ensures var after := CleanUpTo(objs, stale, owner, answers, k).objs;
            (t in after <==> t in objs) && (t in objs ==> after[t] == objs[t])
  {
    hide Splice, Represents;
    if k > 0 {
      CleanTouchesOnlyStale(objs, stale, owner, answers, k - 1, t);
      assert answers.before(k - 1) == [];
    }
  }
}
