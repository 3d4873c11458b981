/**
 What a pass publishes, field by field: which condition list a result is matched to, what its
 Applied condition says, when it is stamped, and which errors are reported in which order.
 */
module StatusOutcomes {
  import opened Wrappers
  import opened WorkApi
  import opened Conditions

  // ---------------------------------------------------------------------------------
  // Which old list a result is matched to.
  // ---------------------------------------------------------------------------------

  /**
   The exact identifier first; failing that nothing for an identifier with only an ordinal, as
   of a manifest that does not decode; otherwise the first that agrees in all but the ordinal.
   */
  lemma FoundExactly(id: ResourceIdentifier, ids: seq<ResourceIdentifier>, f: nat)
    ensures FoundAt(id, ids) == Some(f) <==>
            && f < |ids|
            && if id in ids then ids[f] == id && id !in ids[..f]
               else
                 && !(id.group == "" && id.version == "" && id.kind == "" && id.resource == ""
                      && id.namespace == "" && id.name == "")
                 && ids[f].(ordinal := id.ordinal) == id
                 && forall j :: 0 <= j < f ==> ids[j].(ordinal := id.ordinal) != id
  {
    var exact := FirstMatch(id, ids, true);
    if id in ids {
      var k :| 0 <= k < |ids| && ids[k] == id;
      assert IsMatch(id, ids[k], true);
    } else {
      forall j | 0 <= j < |ids| ensures !IsMatch(id, ids[j], true) { assert ids[j] in ids; }
      forall j | 0 <= j < |ids| ensures IsMatch(id, ids[j], false) <==> ids[j].(ordinal := id.ordinal) == id {
        UnorderedMatch(id, ids[j]);
      }
    }
    if f < |ids| {
      assert id in ids[..f] <==> exists j :: 0 <= j < f && ids[j] == id;
    }
  }

  lemma UnorderedMatch(a: ResourceIdentifier, b: ResourceIdentifier)
    ensures Unordered(a) == Unordered(b) <==> b.(ordinal := a.ordinal) == a
  {
  }

  // ---------------------------------------------------------------------------------
  // What the conditions say.
  // ---------------------------------------------------------------------------------

  /** Condition i in full, save for its time stamp: it speaks of the last result written to the same list. */
  lemma ConditionContent(results: seq<ApplyResult>, olds: seq<ManifestCondition>, env: Env, i: nat)
    requires i < |results|
    ensures var c := NewConditions(results, olds, env)[i];
            var r := results[LastWriter(results, olds, env, i)];
            var at := FindCondition(c.conditions, "Applied");
            && c.identifier == results[i].identifier
            && at.Some?
            && var applied := c.conditions[at.value];
               && applied.ctype == "Applied" && applied.observedGeneration == r.generation
               && match r.error
                  case Some(e) =>
                    && applied.status == False && applied.reason == "appliedManifestFailed"
                    && applied.message == "Failed to apply manifest: " + e.Text()
                  case None =>
                    && applied.status == True
                    && (r.updated ==> applied.reason == "appliedManifestUpdated"
                                      && applied.message == "appliedManifest updated")
                    && (!r.updated ==> applied.reason == "appliedManifestComplete"
                                       && applied.message == "Apply manifest complete")
  {
    hide FinalConditions, FindCondition, LastWriter;
    ConditionReportsLastWriter(results, olds, env, i);
  }

  /** The work's conditions are one, stamped now, for the work's generation. */
  lemma WorkConditionContent(results: seq<ApplyResult>, status: WorkStatus, generation: int, env: Env)
    ensures NewStatus(results, status, generation, env).conditions ==
            if exists i :: 0 <= i < |results|
                           && results[LastWriter(results, status.manifestConditions, env, i)].error.Some? then
              [Condition("Applied", False, generation, env.workTime, "appliedWorkFailed", "Failed to apply work")]
            else
              [Condition("Applied", True, generation, env.workTime, "appliedWorkComplete", "Apply work complete")]
  {
    hide FinalConditions, LastWriter;
    WorkConditionExact(results, status, generation, env);
    FindConditionIs(NewStatus(results, status, generation, env).conditions, "Applied", 0);
  }

  // ---------------------------------------------------------------------------------
  // When they are stamped.
  // ---------------------------------------------------------------------------------

  function Outcome(r: ApplyResult): Status {
    if r.error.Some? then False else True
  }

  function AppliedOf(conds: seq<Condition>): Option<Condition> {
    match FindCondition(conds, CONDITION_APPLIED)
    case Some(i) => Some(conds[i])
    case None => None
  }

  /** The status list f has before result k is written to it: that of the last result matched to it, or the old one. */
  function PriorStatus(results: seq<ApplyResult>, olds: seq<ManifestCondition>, f: nat, k: nat): Option<Status>
    requires k <= |results| && f < |olds|
  {
    match LastHit(results, Identifiers(olds), f, k)
    case Some(p) => Some(Outcome(results[p]))
    case None => if AppliedOf(olds[f].conditions).Some? then Some(AppliedOf(olds[f].conditions).value.status) else None
  }

  /** Result k is matched to list f and changes its status. */
  predicate Changes(results: seq<ApplyResult>, olds: seq<ManifestCondition>, f: nat, k: nat)
    requires k < |results| && f < |olds|
  {
    && FoundAt(results[k].identifier, Identifiers(olds)) == Some(f)
    && PriorStatus(results, olds, f, k) != Some(Outcome(results[k]))
  }

  /** The time of the last of the first n results that changed the status of list f, or the old stamp if none did. */
  ghost predicate StampedBy(results: seq<ApplyResult>, olds: seq<ManifestCondition>, env: Env, f: nat, n: nat,
      stamp: int)
    requires n <= |results| && f < |olds|
  {
    || (exists k :: 0 <= k < n && Changes(results, olds, f, k) && stamp == env.times(k)
                    && forall l :: k < l < n ==> !Changes(results, olds, f, l))
    || ((forall l :: 0 <= l < n ==> !Changes(results, olds, f, l))
        && AppliedOf(olds[f].conditions).Some? && stamp == AppliedOf(olds[f].conditions).value.lastTransitionTime)
  }

  lemma PriorStep(results: seq<ApplyResult>, olds: seq<ManifestCondition>, f: nat, k: nat)
    requires k < |results| && f < |olds|
    ensures PriorStatus(results, olds, f, k + 1) ==
            if FoundAt(results[k].identifier, Identifiers(olds)) == Some(f) then Some(Outcome(results[k]))
            else PriorStatus(results, olds, f, k)
  {
    hide FoundAt, FindCondition;
  }

  lemma StampStep(results: seq<ApplyResult>, olds: seq<ManifestCondition>, env: Env, f: nat, k: nat, stamp: int)
    requires k < |results| && f < |olds| && StampedBy(results, olds, env, f, k, stamp)
    ensures StampedBy(results, olds, env, f, k + 1, if Changes(results, olds, f, k) then env.times(k) else stamp)
  {
    hide Changes;
  }

  /** Setting the outcome of a result moves the stamp exactly when the status changes. */
  lemma SetOutcome(conds: seq<Condition>, r: ApplyResult, now: int)
    requires AppliedOf(conds).Some?
    ensures var before, after := AppliedOf(conds).value, AppliedOf(SetCondition(conds, AppliedCondition(r, now)));
            && after.Some? && after.value.status == Outcome(r)
            && after.value.lastTransitionTime == if before.status == Outcome(r) then before.lastTransitionTime else now
  {
    hide FindCondition, SetCondition;
    SetConditionFacts(conds, AppliedCondition(r, now));
  }

  lemma {:induction false} MemoryStamp(results: seq<ApplyResult>, olds: seq<ManifestCondition>, env: Env,
      n: nat, f: nat)
    requires n <= |results| && f < |olds| && HasApplied(olds[f].conditions)
    ensures var now := AppliedOf(Memory(results, olds, env, n)[f]);
            && now.Some?
            && PriorStatus(results, olds, f, n) == Some(now.value.status)
            && StampedBy(results, olds, env, f, n, now.value.lastTransitionTime)
  {
    hide FoundAt, FindCondition, SetCondition, Memory, AppliedCondition, AppliedOf, Outcome, StampedBy, PriorStatus;
    if n == 0 {
      StampAtStart(results, olds, env, f);
    } else {
      MemoryStamp(results, olds, env, n - 1, f);
      MemoryStep(results, olds, env, n - 1, f);
      PriorStep(results, olds, f, n - 1);
      var before := Memory(results, olds, env, n - 1)[f];
      StampStep(results, olds, env, f, n - 1, AppliedOf(before).value.lastTransitionTime);
      SetOutcome(before, results[n - 1], env.times(n - 1));
    }
  }

  lemma StampAtStart(results: seq<ApplyResult>, olds: seq<ManifestCondition>, env: Env, f: nat)
    requires f < |olds| && HasApplied(olds[f].conditions)
    ensures var now := AppliedOf(Memory(results, olds, env, 0)[f]);
            && now.Some?
            && PriorStatus(results, olds, f, 0) == Some(now.value.status)
            && StampedBy(results, olds, env, f, 0, now.value.lastTransitionTime)
  {
    hide FoundAt, FindCondition;
    InitialMemory(results, olds, env, f);
  }

  lemma AppliedConditionOutcome(r: ApplyResult, now: int)
    ensures AppliedCondition(r, now).status == Outcome(r) && AppliedCondition(r, now).lastTransitionTime == now
  {
  }

  /**
   For any results and any old status, the stamp of condition i: now, if its list is a new one;
   otherwise, if the matched list has an Applied condition, the time of the last result that
   changed its status, or the old stamp if none did; and the last writer's time if it has none
   and is appended to in place.
   */
  lemma StampExactly(results: seq<ApplyResult>, olds: seq<ManifestCondition>, env: Env, i: nat)
    requires i < |results|
    ensures var now := AppliedOf(NewConditions(results, olds, env)[i].conditions);
            && now.Some?
            && match FoundAt(results[i].identifier, Identifiers(olds))
               case None => now.value.lastTransitionTime == env.times(i)
               case Some(f) =>
                 if AppliedOf(olds[f].conditions).Some? then
                   StampedBy(results, olds, env, f, |results|, now.value.lastTransitionTime)
                 else now.value.lastTransitionTime == env.times(LastWriter(results, olds, env, i))
  {
    hide FoundAt, FindCondition, Memory, AppliedCondition, StampedBy;
    var applied := AppliedCondition(results[i], env.times(i));
    AppliedConditionType(results[i], env.times(i));
    AppliedConditionOutcome(results[i], env.times(i));
    match FoundAt(results[i].identifier, Identifiers(olds))
    case None => FindConditionIs([applied], CONDITION_APPLIED, 0);
    case Some(f) =>
      if HasApplied(olds[f].conditions) {
        MemoryStamp(results, olds, env, |results|, f);
      } else if env.room(f) {
        AppendedInPlace(results, olds, env, |results|, f);
        var j := LastHit(results, Identifiers(olds), f, |results|).value;
        AppliedConditionType(results[j], env.times(j));
        AppliedConditionOutcome(results[j], env.times(j));
        SetConditionFacts(olds[f].conditions, AppliedCondition(results[j], env.times(j)));
      } else {
        SetConditionFacts(olds[f].conditions, applied);
      }
  }

  /** A list without an Applied condition that is appended to in place ends in the last result's. */
  lemma {:induction false} AppendedInPlace(results: seq<ApplyResult>, olds: seq<ManifestCondition>, env: Env,
      n: nat, f: nat)
    requires n <= |results| && f < |olds| && !HasApplied(olds[f].conditions) && env.room(f)
    ensures Memory(results, olds, env, n)[f] ==
            match LastHit(results, Identifiers(olds), f, n)
            case None => olds[f].conditions
            case Some(j) => olds[f].conditions + [AppliedCondition(results[j], env.times(j))]
  {
    hide FoundAt, FindCondition, SetCondition, Memory, AppliedCondition, Identifiers, HasApplied;
    if n == 0 {
      InitialMemory(results, olds, env, f);
    } else {
      AppendedInPlace(results, olds, env, n - 1, f);
      MemoryStep(results, olds, env, n - 1, f);
    }
  }

  /**
   With distinct results: the stamp moves to now exactly when there is no matching old list, or it
   has no Applied condition, or one of the other status; otherwise it is the old one.
   */
  lemma DistinctStamps(results: seq<ApplyResult>, olds: seq<ManifestCondition>, env: Env, i: nat)
    requires i < |results| && DistinctResults(results)
    ensures var now := AppliedOf(NewConditions(results, olds, env)[i].conditions);
            var f := FoundAt(results[i].identifier, Identifiers(olds));
            var stored := if f.Some? then AppliedOf(olds[f.value].conditions) else None;
            && now.Some?
            && now.value.lastTransitionTime ==
               if stored.Some? && stored.value.status == (if results[i].error.Some? then False else True)
               then stored.value.lastTransitionTime else env.times(i)
  {
    hide FoundAt, FindCondition, AppliedCondition, FinalConditions;
    DistinctConditions(results, olds, env, i);
    AppliedConditionType(results[i], env.times(i));
    AppliedConditionOutcome(results[i], env.times(i));
    match FoundAt(results[i].identifier, Identifiers(olds))
    case None => FindConditionIs([AppliedCondition(results[i], env.times(i))], CONDITION_APPLIED, 0);
    case Some(f) => SetConditionFacts(olds[f].conditions, AppliedCondition(results[i], env.times(i)));
  }

  /** Conditions of other types in a matched list stay where and as they are. */
  lemma OtherConditionsStay(results: seq<ApplyResult>, olds: seq<ManifestCondition>, env: Env, i: nat, f: nat, j: nat)
    requires i < |results| && FoundAt(results[i].identifier, Identifiers(olds)) == Some(f) && f < |olds|
    requires j < |olds[f].conditions| && olds[f].conditions[j].ctype != "Applied"
    ensures var conds := NewConditions(results, olds, env)[i].conditions;
            j < |conds| && conds[j] == olds[f].conditions[j]
  {
    hide FoundAt, FindCondition, Memory, Identifiers;
    MemoryKeepsOthers(results, olds, env, |results|, f, j);
  }

  lemma {:induction false} MemoryKeepsOthers(results: seq<ApplyResult>, olds: seq<ManifestCondition>, env: Env,
      n: nat, f: nat, j: nat)
    requires n <= |results| && f < |olds| && j < |olds[f].conditions| && olds[f].conditions[j].ctype != "Applied"
    ensures var m := Memory(results, olds, env, n)[f]; j < |m| && m[j] == olds[f].conditions[j]
  {
    hide FoundAt, FindCondition, SetCondition, Memory, AppliedCondition, Identifiers, HasApplied;
    if n == 0 {
      InitialMemory(results, olds, env, f);
    } else {
      MemoryKeepsOthers(results, olds, env, n - 1, f, j);
      MemoryStep(results, olds, env, n - 1, f);
      AppliedConditionType(results[n - 1], env.times(n - 1));
      SetConditionFacts(Memory(results, olds, env, n - 1)[f], AppliedCondition(results[n - 1], env.times(n - 1)));
    }
  }

  // ---------------------------------------------------------------------------------
  // Which errors are reported.
  // ---------------------------------------------------------------------------------

  /** How many of the first k results failed. */
  function Failures(results: seq<ApplyResult>, k: nat): nat
    requires k <= |results|
  {
    if k == 0 then 0 else Failures(results, k - 1) + (if results[k - 1].error.Some? then 1 else 0)
  }

  /** The errors are those of the failed results, one each, in order. */
  lemma {:induction false} ErrorsInOrder(results: seq<ApplyResult>, i: nat)
    requires i < |results|
    ensures |Errors(results)| == Failures(results, |results|)
    ensures results[i].error.Some? ==>
              && Failures(results, i) < |Errors(results)|
              && Errors(results)[Failures(results, i)] == results[i].error.value
    decreases |results|
  {
    var n := |results| - 1;
    FailuresOfPrefix(results, n, n);
    if i < n {
      ErrorsInOrder(results[..n], i);
      FailuresOfPrefix(results, n, i);
    } else if n > 0 {
      ErrorsInOrder(results[..n], 0);
    }
  }

  lemma {:induction false} FailuresOfPrefix(results: seq<ApplyResult>, n: nat, k: nat)
    requires k <= n <= |results|
    ensures Failures(results[..n], k) == Failures(results, k)
  {
    if k > 0 {
      FailuresOfPrefix(results, n, k - 1);
    }
  }
}
