/**
 The status of a work after a pass: one condition list per apply result, carried over from
 the old status by identifier. The old lists are reused and written in place.
 */
module Conditions {
  import opened Wrappers
  import opened WorkApi

  /** What applying one manifest came to. */
  datatype ApplyResult = ApplyResult(identifier: ResourceIdentifier, generation: int, updated: bool,
    error: Option<ApiError>)

  /**
   What a pass takes from its surroundings when it builds the status: the clock, and which of the
   old condition lists happen to have room to grow in place (slices of a decoded response may).
   */
  datatype Env = Env(times: nat -> int, workTime: int, room: nat -> bool)

  predicate Failed(r: ApplyResult) {
    r.error.Some?
  }

  /** buildManifestAppliedCondition */
  function AppliedCondition(r: ApplyResult, now: int): Condition {
    match r.error
    case Some(e) =>
      Condition(CONDITION_APPLIED, False, r.generation, now, "appliedManifestFailed",
        "Failed to apply manifest: " + e.Text())
    case None =>
      if r.updated then Condition(CONDITION_APPLIED, True, r.generation, now, "appliedManifestUpdated",
        "appliedManifest updated")
      else Condition(CONDITION_APPLIED, True, r.generation, now, "appliedManifestComplete", "Apply manifest complete")
  }

  // ---------------------------------------------------------------------------------
  // The condition helpers of apimachinery.
  // ---------------------------------------------------------------------------------

  /** FindStatusCondition: the first condition of a type. */
  function FindCondition(conds: seq<Condition>, ctype: string): (i: Option<nat>)
    ensures i.Some? ==> i.value < |conds| && conds[i.value].ctype == ctype
    ensures i.Some? ==> forall j :: 0 <= j < i.value ==> conds[j].ctype != ctype
    ensures i.None? <==> forall j :: 0 <= j < |conds| ==> conds[j].ctype != ctype
  {
    if conds == [] then None
    else if conds[0].ctype == ctype then Some(0)
    else
      assert forall j :: 0 < j < |conds| ==> conds[j] == conds[1..][j - 1];
      match FindCondition(conds[1..], ctype)
      case Some(i) => Some(i + 1)
      case None => None
  }

  lemma FindConditionIs(conds: seq<Condition>, ctype: string, i: nat)
    requires i < |conds| && conds[i].ctype == ctype
    requires forall j :: 0 <= j < i ==> conds[j].ctype != ctype
    ensures FindCondition(conds, ctype) == Some(i)
  {
  }

  predicate HasApplied(conds: seq<Condition>) {
    FindCondition(conds, CONDITION_APPLIED).Some?
  }

  predicate AppliedIs(conds: seq<Condition>, status: Status) {
    var i := FindCondition(conds, CONDITION_APPLIED);
    i.Some? && conds[i.value].status == status
  }

  /** The Applied condition is the one built for this result, save for an older time stamp. */
  predicate Reports(conds: seq<Condition>, r: ApplyResult) {
    var i := FindCondition(conds, CONDITION_APPLIED);
    i.Some? && conds[i.value].(lastTransitionTime := 0) == AppliedCondition(r, 0)
  }

  /** The time stamp moves only when the status does. */
  function Updated(stored: Condition, c: Condition): Condition {
    stored.(status := c.status,
    lastTransitionTime := if stored.status != c.status then c.lastTransitionTime else stored.lastTransitionTime,
    reason := c.reason, message := c.message, observedGeneration := c.observedGeneration)
  }

  /** SetStatusCondition on a value. */
  function SetCondition(conds: seq<Condition>, c: Condition): seq<Condition> {
    match FindCondition(conds, c.ctype)
    case Some(i) => conds[i := Updated(conds[i], c)]
    case None => conds + [c]
  }

  lemma SetConditionFacts(conds: seq<Condition>, c: Condition)
    ensures var i := FindCondition(SetCondition(conds, c), c.ctype);
            && i.Some?
            && SetCondition(conds, c)[i.value].(lastTransitionTime := c.lastTransitionTime) == c
            && (FindCondition(conds, c.ctype).Some? ==> i == FindCondition(conds, c.ctype))
            && (FindCondition(conds, c.ctype).Some? && conds[i.value].status == c.status ==>
                  SetCondition(conds, c)[i.value].lastTransitionTime == conds[i.value].lastTransitionTime)
            && (FindCondition(conds, c.ctype).None? || conds[i.value].status != c.status ==>
                  SetCondition(conds, c)[i.value] == c)
            && |conds| <= |SetCondition(conds, c)|
            && (forall j :: 0 <= j < |conds| && (j != i.value || conds[j].ctype != c.ctype) ==>
                              SetCondition(conds, c)[j] == conds[j])
  {
    var after := SetCondition(conds, c);
    match FindCondition(conds, c.ctype)
    case Some(i) => FindConditionIs(after, c.ctype, i);
    case None =>
      assert forall j :: 0 <= j < |conds| ==> after[j] == conds[j];
      FindConditionIs(after, c.ctype, |conds|);
  }

  // ---------------------------------------------------------------------------------
  // Matching results to old conditions.
  // ---------------------------------------------------------------------------------

  /** The identifier without its ordinal. */
  function Unordered(id: ResourceIdentifier): ResourceIdentifier {
    id.(ordinal := 0)
  }

  predicate OrdinalOnly(id: ResourceIdentifier) {
    id == ResourceIdentifier(id.ordinal, "", "", "", "", "", "")
  }

  predicate IsMatch(id: ResourceIdentifier, other: ResourceIdentifier, exact: bool) {
    if exact then other == id else Unordered(other) == Unordered(id)
  }

  /** The first identifier of a list that equals id, or that does so up to the ordinal. */
  function FirstMatch(id: ResourceIdentifier, ids: seq<ResourceIdentifier>, exact: bool): (i: Option<nat>)
    ensures i.Some? ==> i.value < |ids| && IsMatch(id, ids[i.value], exact)
    ensures i.Some? ==> forall j :: 0 <= j < i.value ==> !IsMatch(id, ids[j], exact)
    ensures i.None? <==> forall j :: 0 <= j < |ids| ==> !IsMatch(id, ids[j], exact)
  {
    if ids == [] then None
    else if IsMatch(id, ids[0], exact) then Some(0)
    else
      assert forall j :: 0 < j < |ids| ==> ids[j] == ids[1..][j - 1];
      match FirstMatch(id, ids[1..], exact)
      case Some(i) => Some(i + 1)
      case None => None
  }

  /** findManifestConditionByIdentifier, as an index. */
  function FoundAt(id: ResourceIdentifier, ids: seq<ResourceIdentifier>): (i: Option<nat>)
    ensures i.Some? ==> i.value < |ids| && Unordered(ids[i.value]) == Unordered(id)
    ensures i.Some? && OrdinalOnly(id) ==> ids[i.value] == id
    ensures i.None? && !OrdinalOnly(id) ==> forall j :: 0 <= j < |ids| ==> Unordered(ids[j]) != Unordered(id)
  {
    var exact := FirstMatch(id, ids, true);
    if exact.Some? then exact
    else if OrdinalOnly(id) then None
    else FirstMatch(id, ids, false)
  }

  method FindManifestConditionByIdentifier(id: ResourceIdentifier,
      ids: seq<ResourceIdentifier>) returns (found: Option<nat>)
    ensures found == FoundAt(id, ids)
  {
    for i := 0 to |ids|
      invariant forall j :: 0 <= j < i ==> ids[j] != id
    {
      if id == ids[i] {
        return Some(i);
      }
    }
    if id == ResourceIdentifier(id.ordinal, "", "", "", "", "", "") {
      return None;
    }
    var copy := id;
    for i := 0 to |ids|
      invariant copy == id.(ordinal := copy.ordinal)
      invariant forall j :: 0 <= j < i ==> Unordered(ids[j]) != Unordered(id)
    {
      copy := copy.(ordinal := ids[i].ordinal);
      if copy == ids[i] {
        return Some(i);
      }
    }
    return None;
  }

  function Identifiers(conds: seq<ManifestCondition>): seq<ResourceIdentifier> {
    seq(|conds|, i requires 0 <= i < |conds| => conds[i].identifier)
  }

  // ---------------------------------------------------------------------------------
  // Specification: the reused lists as a memory the results are written to in order.
  // ---------------------------------------------------------------------------------

  /** Setting a condition through old list f changes memory that other results may share. */
  predicate Shared(olds: seq<ManifestCondition>, env: Env, f: nat)
    requires f < |olds|
  {
    HasApplied(olds[f].conditions) || env.room(f)
  }

  /**
   One write through old list f: an Applied condition is overwritten; without one, the
   condition goes right behind the old list if there is room, over what was there.
   */
  function Written(olds: seq<ManifestCondition>, env: Env, f: nat, before: seq<Condition>, c: Condition): seq<Condition>
    requires f < |olds|
  {
    if HasApplied(olds[f].conditions) then SetCondition(before, c)
    else if env.room(f) then olds[f].conditions + [c]
    else before
  }

  /** Contents of the old lists, and of what was appended in place, after the first k results. */
  function Memory(results: seq<ApplyResult>, olds: seq<ManifestCondition>, env: Env, k: nat): (m: seq<seq<Condition>>)
    requires k <= |results|
    ensures |m| == |olds|
  {
    if k == 0 then seq(|olds|, i requires 0 <= i < |olds| => olds[i].conditions)
    else
      var before := Memory(results, olds, env, k - 1);
      match FoundAt(results[k - 1].identifier, Identifiers(olds))
      case Some(f) => before[f := Written(olds, env, f, before[f], AppliedCondition(results[k - 1], env.times(k - 1)))]
      case None => before
  }

  lemma InitialMemory(results: seq<ApplyResult>, olds: seq<ManifestCondition>, env: Env, f: nat)
    requires f < |olds|
    ensures Memory(results, olds, env, 0)[f] == olds[f].conditions
  {
  }

  /** Writing one result changes the list it is matched to. */
  lemma MemoryStep(results: seq<ApplyResult>, olds: seq<ManifestCondition>, env: Env, k: nat, f: nat)
    requires k < |results| && f < |olds|
    ensures var before := Memory(results, olds, env, k)[f];
            Memory(results, olds, env, k + 1)[f] ==
            if FoundAt(results[k].identifier, Identifiers(olds)) == Some(f)
            then Written(olds, env, f, before, AppliedCondition(results[k], env.times(k))) else before
  {
    hide AppliedCondition, FindCondition, SetCondition, Written;
  }

  /** What memory f looks like: the old list with its Applied condition set, or one appended, or as it was. */
  ghost predicate Shaped(olds: seq<ManifestCondition>, env: Env, f: nat, conds: seq<Condition>)
    requires f < |olds|
  {
    if HasApplied(olds[f].conditions) then HasApplied(conds) && |conds| == |olds[f].conditions|
    else
      || conds == olds[f].conditions
      || (env.room(f) && |conds| == |olds[f].conditions| + 1 && olds[f].conditions <= conds)
  }

  lemma WrittenIsShaped(olds: seq<ManifestCondition>, env: Env, f: nat, before: seq<Condition>, c: Condition)
    requires f < |olds| && Shaped(olds, env, f, before) && c.ctype == CONDITION_APPLIED
    ensures Shaped(olds, env, f, Written(olds, env, f, before, c))
  {
    SetConditionFacts(before, c);
  }

  lemma AppliedConditionType(r: ApplyResult, now: int)
    ensures AppliedCondition(r, now).ctype == CONDITION_APPLIED
  {
  }

  lemma {:induction false} MemoryKeepsShape(results: seq<ApplyResult>, olds: seq<ManifestCondition>, env: Env, k: nat,
      f: nat)
    requires k <= |results| && f < |olds|
    ensures Shaped(olds, env, f, Memory(results, olds, env, k)[f])
  {
    hide FoundAt, FindCondition, SetCondition, Memory, Written, AppliedCondition;
    if k == 0 {
      InitialMemory(results, olds, env, f);
    } else {
      MemoryStep(results, olds, env, k - 1, f);
      MemoryKeepsShape(results, olds, env, k - 1, f);
      AppliedConditionType(results[k - 1], env.times(k - 1));
      WrittenIsShaped(olds, env, f, Memory(results, olds, env, k - 1)[f],
        AppliedCondition(results[k - 1], env.times(k - 1)));
    }
  }

  lemma MemorySteps(results: seq<ApplyResult>, olds: seq<ManifestCondition>, env: Env, k: nat)
    requires k < |results|
    ensures forall f :: 0 <= f < |olds| ==>
                          var before := Memory(results, olds, env, k)[f];
                          && Memory(results, olds, env, k + 1)[f] ==
                             (if FoundAt(results[k].identifier, Identifiers(olds)) == Some(f)
                             then Written(olds, env, f, before, AppliedCondition(results[k], env.times(k))) else before)
                          && Shaped(olds, env, f, before) && Shaped(olds, env, f, Memory(results, olds, env, k + 1)[f])
  {
    hide *;
    forall f | 0 <= f < |olds|
      ensures var before := Memory(results, olds, env, k)[f];
              && Memory(results, olds, env, k + 1)[f] ==
                 (if FoundAt(results[k].identifier, Identifiers(olds)) == Some(f)
                 then Written(olds, env, f, before, AppliedCondition(results[k], env.times(k))) else before)
              && Shaped(olds, env, f, before) && Shaped(olds, env, f, Memory(results, olds, env, k + 1)[f])
    {
      MemoryKeepsShape(results, olds, env, k, f);
      MemoryKeepsShape(results, olds, env, k + 1, f);
      MemoryStep(results, olds, env, k, f);
    }
  }

  /** The condition list of result i once every result has been written. */
  function FinalConditions(results: seq<ApplyResult>, olds: seq<ManifestCondition>, env: Env, i: nat): seq<Condition>
    requires i < |results|
  {
    var applied := AppliedCondition(results[i], env.times(i));
    match FoundAt(results[i].identifier, Identifiers(olds))
    case None => [applied]
    case Some(f) =>
      if Shared(olds, env, f) then Memory(results, olds, env, |results|)[f]
      else olds[f].conditions + [applied]
  }

  function NewConditions(results: seq<ApplyResult>, olds: seq<ManifestCondition>, env: Env): seq<ManifestCondition> {
    seq(|results|, i requires 0 <= i < |results| => ManifestCondition(results[i].identifier,
      FinalConditions(results, olds, env, i)))
  }

  /** generateWorkAppliedCondition */
  function WorkCondition(conds: seq<ManifestCondition>, generation: int, now: int): Condition {
    if exists i :: 0 <= i < |conds| && AppliedIs(conds[i].conditions, False) then
      Condition(CONDITION_APPLIED, False, generation, now, "appliedWorkFailed", "Failed to apply work")
    else
      Condition(CONDITION_APPLIED, True, generation, now, "appliedWorkComplete", "Apply work complete")
  }

  function NewStatus(results: seq<ApplyResult>, status: WorkStatus, generation: int, env: Env): WorkStatus {
    var conds := NewConditions(results, status.manifestConditions, env);
    WorkStatus([WorkCondition(conds, generation, env.workTime)], conds)
  }

  function Errors(results: seq<ApplyResult>): seq<ApiError>
  {
    if results == [] then []
    else
      var n := |results| - 1;
      Errors(results[..n]) + (match results[n].error case Some(e) => [e] case None => [])
  }

  // ---------------------------------------------------------------------------------
  // The work object in memory, with its condition lists on the heap.
  // ---------------------------------------------------------------------------------

  /** A slice: the first `len` elements of an array, with the rest of the array as room to grow. */
  datatype Slice = Slice(data: array<Condition>, len: nat) {
    predicate Valid() {
      len <= data.Length
    }

    function Contents(): seq<Condition>
      requires Valid()
      reads data
    {
      data[..len]
    }
  }

  datatype Slot = Slot(identifier: ResourceIdentifier, conditions: Slice)

  predicate InBounds(slots: seq<Slot>) {
    forall i :: 0 <= i < |slots| ==> slots[i].conditions.Valid()
  }

  ghost function Arrays(slots: seq<Slot>): set<array<Condition>> {
    set i | 0 <= i < |slots| :: slots[i].conditions.data
  }

  /** No two lists share an array. */
  ghost predicate Separate(slots: seq<Slot>) {
    forall i, j :: 0 <= i < j < |slots| ==> slots[i].conditions.data != slots[j].conditions.data
  }

  /** Which lists have room to grow in place. */
  predicate HasRoom(slots: seq<Slot>, room: nat -> bool) {
    && InBounds(slots)
    && forall f :: 0 <= f < |slots| ==> (room(f) <==> slots[f].conditions.len < slots[f].conditions.data.Length)
  }

  function View(slots: seq<Slot>): seq<ManifestCondition>
    requires InBounds(slots)
    reads Arrays(slots)
  {
    seq(|slots|, i requires 0 <= i < |slots| reads Arrays(slots) =>
      ManifestCondition(slots[i].identifier, slots[i].conditions.Contents()))
  }

  function SlotIdentifiers(slots: seq<Slot>): seq<ResourceIdentifier> {
    seq(|slots|, i requires 0 <= i < |slots| => slots[i].identifier)
  }

  class LocalWork {
    var generation: int
    var conditions: seq<Condition>
    var slots: seq<Slot>

    /** A copy of a stored status: every list has an array of its own, some with room to grow. */
    constructor (generation: int, status: WorkStatus, room: nat -> bool)
      ensures this.generation == generation
      ensures HasRoom(slots, room) && Separate(slots) && fresh(Arrays(slots))
      ensures Status() == status
    {
      this.generation := generation;
      conditions := status.conditions;
      slots := [];
      new;
      for k := 0 to |status.manifestConditions|
        invariant this.generation == generation && conditions == status.conditions
        invariant |slots| == k && HasRoom(slots, room) && Separate(slots) && fresh(Arrays(slots))
        invariant forall i :: 0 <= i < k ==>
                                slots[i].identifier == status.manifestConditions[i].identifier
                                && slots[i].conditions.Contents() == status.manifestConditions[i].conditions
      {
        var src := status.manifestConditions[k];
        var n := |src.conditions|;
        var unused := Condition("", Unknown, 0, 0, "", "");
        var copy := new Condition[if room(k) then n + 1 else n](i => if 0 <= i < n then src.conditions[i] else unused);
        assert copy[..n] == src.conditions;
        ghost var before := Arrays(slots);
        slots := slots + [Slot(src.identifier, Slice(copy, n))];
        assert Arrays(slots) <= before + {copy};
      }
      assert View(slots) == status.manifestConditions;
    }

    /** The status as it would be sent to the API server. */
    function Status(): WorkStatus
      requires InBounds(slots)
      reads this, Arrays(slots)
    {
      WorkStatus(conditions, View(slots))
    }
  }

  /** SetStatusCondition: writes through, or appends, in place if there is room and into a new array otherwise. */
  method SetStatusCondition(conds: Slice, c: Condition) returns (r: Slice)
    requires conds.Valid()
    modifies conds.data
    ensures r.Valid() && r.Contents() == SetCondition(old(conds.Contents()), c)
    ensures if FindCondition(old(conds.Contents()), c.ctype).Some? then r == conds
            else
              && conds.Contents() == old(conds.Contents())
              && if conds.len < conds.data.Length then r == Slice(conds.data, conds.len + 1) else fresh(r.data)
  {
    var at := FindCondition(conds.Contents(), c.ctype);
    match at {
      case Some(i) =>
        conds.data[i] := Updated(conds.data[i], c);
        r := conds;
      case None =>
        var n := conds.len;
        if n < conds.data.Length {
          conds.data[n] := c;
          r := Slice(conds.data, n + 1);
        } else {
          var data := conds.data;
          var longer := new Condition[n + 1](i requires 0 <= i <= n reads data => if i < n then data[i] else c);
          r := Slice(longer, n + 1);
        }
        assert r.Contents() == old(conds.Contents()) + [c];
    }
  }

  /** generateWorkAppliedCondition, over the lists on the heap. */
  method GenerateWorkAppliedCondition(slots: seq<Slot>, generation: int, now: int) returns (c: Condition)
    requires InBounds(slots)
    ensures c == WorkCondition(View(slots), generation, now)
  {
    for i := 0 to |slots|
      invariant forall j :: 0 <= j < i ==> !AppliedIs(View(slots)[j].conditions, False)
    {
      var conds := slots[i].conditions.Contents();
      assert View(slots)[i].conditions == conds;
      var at := FindCondition(conds, CONDITION_APPLIED);
      if at.Some? && conds[at.value].status == False {
        assert AppliedIs(View(slots)[i].conditions, False);
        return Condition(CONDITION_APPLIED, False, generation, now, "appliedWorkFailed", "Failed to apply work");
      }
    }
    return Condition(CONDITION_APPLIED, True, generation, now, "appliedWorkComplete", "Apply work complete");
  }

  /** Where the list of a result lives once it has been processed. */
  ghost predicate Placed(slot: Slot, r: ApplyResult, oldSlots: seq<Slot>, olds: seq<ManifestCondition>, env: Env)
    requires |oldSlots| == |olds|
  {
    && slot.identifier == r.identifier && slot.conditions.Valid()
    && match FoundAt(r.identifier, Identifiers(olds))
       case None => IsOwn(slot, oldSlots)
       case Some(f) =>
         var list := oldSlots[f].conditions;
         if HasApplied(olds[f].conditions) then slot.conditions == list
         else if env.room(f) then slot.conditions == Slice(list.data, list.len + 1)
         else IsOwn(slot, oldSlots)
  }

  ghost predicate IsOwn(slot: Slot, oldSlots: seq<Slot>) {
    slot.conditions.data !in Arrays(oldSlots)
  }

  /** What it holds if it is in an array of its own. */
  predicate OwnHolds(slot: Slot, r: ApplyResult, now: int, olds: seq<ManifestCondition>)
    reads slot.conditions.data
  {
    && slot.conditions.Valid()
    && slot.conditions.Contents() ==
       match FoundAt(r.identifier, Identifiers(olds))
       case None => [AppliedCondition(r, now)]
       case Some(f) => olds[f].conditions + [AppliedCondition(r, now)]
  }

  /** The array behind old list f holds memory f, from its start. */
  predicate Holds(slot: Slot, memory: seq<Condition>)
    reads slot.conditions.data
  {
    |memory| <= slot.conditions.data.Length && slot.conditions.data[..|memory|] == memory
  }

  /** A list appended to in place has a result matched to it. */
  lemma {:induction false} MatchedIsWritten(results: seq<ApplyResult>, olds: seq<ManifestCondition>, env: Env, k: nat,
      f: nat, i: nat)
    requires i < k <= |results| && f < |olds| && env.room(f) && !HasApplied(olds[f].conditions)
    requires FoundAt(results[i].identifier, Identifiers(olds)) == Some(f)
    ensures |Memory(results, olds, env, k)[f]| == |olds[f].conditions| + 1
  {
    hide FoundAt, FindCondition, SetCondition, Memory, AppliedCondition, HasApplied;
    MemoryStep(results, olds, env, k - 1, f);
    if i < k - 1 {
      MatchedIsWritten(results, olds, env, k - 1, f, i);
    }
  }

  lemma PlacedIsFinal(results: seq<ApplyResult>, slots: seq<Slot>, olds: seq<ManifestCondition>, env: Env,
      conditions: seq<Slot>)
    requires |slots| == |olds| && |conditions| == |results| && HasRoom(slots, env.room)
    requires forall f :: 0 <= f < |slots| ==>
                           slots[f].conditions.len == |olds[f].conditions|
                             && Holds(slots[f], Memory(results, olds, env, |results|)[f])
    requires forall i :: 0 <= i < |results| ==>
                           && Placed(conditions[i], results[i], slots, olds, env)
                           && (IsOwn(conditions[i], slots) ==> OwnHolds(conditions[i], results[i], env.times(i), olds))
    ensures InBounds(conditions) && View(conditions) == NewConditions(results, olds, env)
  {
    hide AppliedCondition, FindCondition, SetCondition, Memory, FoundAt, HasApplied;
    forall i | 0 <= i < |results|
      ensures conditions[i].conditions.Valid()
              && conditions[i].conditions.Contents() == FinalConditions(results, olds, env, i)
    {
      assert Placed(conditions[i], results[i], slots, olds, env);
      match FoundAt(results[i].identifier, Identifiers(olds))
      case None =>
      case Some(f) =>
        MemoryKeepsShape(results, olds, env, |results|, f);
        if env.room(f) && !HasApplied(olds[f].conditions) {
          MatchedIsWritten(results, olds, env, |results|, f, i);
        }
    }
  }

  predicate Reuses(r: ApplyResult, olds: seq<ManifestCondition>, env: Env) {
    var f := FoundAt(r.identifier, Identifiers(olds));
    f.Some? && Shared(olds, env, f.value)
  }

  /** One iteration of generateWorkCondition: the list of one result, found and set or made anew. */
  method PlaceResult(r: ApplyResult, now: int, slots: seq<Slot>) returns (slot: Slot)
    requires InBounds(slots) && Separate(slots)
    modifies Arrays(slots)
    ensures slot.identifier == r.identifier && slot.conditions.Valid()
    ensures forall f :: 0 <= f < |slots| && FoundAt(r.identifier, SlotIdentifiers(slots)) != Some(f) ==>
                          slots[f].conditions.data[..] == old(slots[f].conditions.data[..])
    ensures match FoundAt(r.identifier, SlotIdentifiers(slots))
            case None => fresh(slot.conditions.data) && slot.conditions.Contents() == [AppliedCondition(r, now)]
            case Some(f) =>
              var list, before := slots[f].conditions, old(slots[f].conditions.Contents());
              && slot.conditions.Contents() == SetCondition(before, AppliedCondition(r, now))
              && if HasApplied(before) then slot.conditions == list
                 else
                   && list.Contents() == before
                   && if list.len < list.data.Length then slot.conditions == Slice(list.data, list.len + 1)
                      else fresh(slot.conditions.data)
  {
    hide FindCondition;
    var applied := AppliedCondition(r, now);
    var own := new Condition[1](_ => applied);
    assert own[..1] == [applied];
    var list := Slice(own, 1);
    var found := FindManifestConditionByIdentifier(r.identifier, SlotIdentifiers(slots));
    if found.Some? {
      list := SetStatusCondition(slots[found.value].conditions, applied);
    }
    slot := Slot(r.identifier, list);
  }

  lemma SameIdentifiers(slots: seq<Slot>)
    requires InBounds(slots)
    ensures SlotIdentifiers(slots) == Identifiers(View(slots))
    ensures |SlotIdentifiers(slots)| == |slots|
  {
  }

  /** The same iteration seen from the specification: memory moves on by one result. */
  method PlaceNext(results: seq<ApplyResult>, k: nat, slots: seq<Slot>, ghost olds: seq<ManifestCondition>,
      env: Env) returns (slot: Slot)
    requires k < |results| && HasRoom(slots, env.room) && Separate(slots)
    requires |slots| == |olds| && SlotIdentifiers(slots) == Identifiers(olds)
    requires forall f :: 0 <= f < |slots| ==>
                           slots[f].conditions.len == |olds[f].conditions|
                             && Holds(slots[f], Memory(results, olds, env, k)[f])
    modifies Arrays(slots)
    ensures forall f :: 0 <= f < |slots| ==> Holds(slots[f], Memory(results, olds, env, k + 1)[f])
    ensures Placed(slot, results[k], slots, olds, env)
    ensures IsOwn(slot, slots) ==> fresh(slot.conditions.data) && OwnHolds(slot, results[k], env.times(k), olds)
  {
    hide AppliedCondition, FindCondition, FoundAt, Memory, SlotIdentifiers;
    MemorySteps(results, olds, env, k);
    AppliedConditionType(results[k], env.times(k));
    ghost var applied := AppliedCondition(results[k], env.times(k));
    ghost var memory := Memory(results, olds, env, k);
    ghost var found := FoundAt(results[k].identifier, Identifiers(olds));
    forall f | 0 <= f < |slots|
      ensures slots[f].conditions.Contents() == if HasApplied(olds[f].conditions) then memory[f]
              else olds[f].conditions {
      assert Shaped(olds, env, f, memory[f]);
    }
    slot := PlaceResult(results[k], env.times(k), slots);
    forall f | 0 <= f < |slots|
      ensures Holds(slots[f], if found == Some(f) then Written(olds, env, f, memory[f], applied) else memory[f]) {
      if found == Some(f) {
        WrittenIsShaped(olds, env, f, memory[f], applied);
      }
    }
    match found {
      case None =>
      case Some(f) =>
        assert slots[f].conditions.data in Arrays(slots);
        assert Shaped(olds, env, f, memory[f]);
    }
  }

  /** The loop of generateWorkCondition over all results. */
  method PlaceResults(results: seq<ApplyResult>, slots: seq<Slot>, env: Env) returns (conditions: seq<Slot>,
      errs: seq<ApiError>)
    requires HasRoom(slots, env.room) && Separate(slots)
    modifies Arrays(slots)
    ensures InBounds(conditions) && View(conditions) == NewConditions(results, old(View(slots)), env)
    ensures errs == Errors(results)
  {
    hide AppliedCondition, FindCondition, SetCondition, FoundAt, Memory, HasApplied, NewConditions, FinalConditions,
      SlotIdentifiers, Identifiers, Shaped,
      Placed, OwnHolds, Arrays;
    conditions, errs := [], [];
    ghost var olds := View(slots);
    forall f | 0 <= f < |slots| ensures Holds(slots[f], Memory(results, olds, env, 0)[f]) {
      InitialMemory(results, olds, env, f);
    }
    SameIdentifiers(slots);
    for k := 0 to |results|
      invariant errs == Errors(results[..k])
      invariant forall f :: 0 <= f < |slots| ==> Holds(slots[f], Memory(results, olds, env, k)[f])
      invariant |conditions| == k
      invariant forall i :: 0 <= i < k ==> Placed(conditions[i], results[i], slots, olds, env)
      invariant forall i :: 0 <= i < k && IsOwn(conditions[i], slots) ==>
                OwnHolds(conditions[i], results[i], env.times(i), olds)
    {
      assert results[..k + 1][..k] == results[..k];
      if results[k].error.Some? {
        errs := errs + [results[k].error.value];
      }
      var slot := PlaceNext(results, k, slots, olds, env);
      conditions := conditions + [slot];
    }
    assert results[..|results|] == results;
    PlacedIsFinal(results, slots, olds, env, conditions);
  }

  /**
   generateWorkCondition. The new lists alias the old ones and each other, also where an append
   found room in place; what is read back at the end is the specification, for any results and
   any old status.
   */
  method GenerateWorkCondition(results: seq<ApplyResult>, work: LocalWork, env: Env) returns (errs: seq<ApiError>)
    requires HasRoom(work.slots, env.room) && Separate(work.slots)
    modifies work, Arrays(work.slots)
    ensures InBounds(work.slots) && work.Status() == NewStatus(results, old(work.Status()), old(work.generation), env)
    ensures work.generation == old(work.generation)
    ensures errs == Errors(results)
  {
    hide NewConditions, FindCondition;
    var conditions;
    conditions, errs := PlaceResults(results, work.slots, env);
    ghost var view := View(conditions);
    work.slots := conditions;
    assert View(conditions) == view;
    var workCond := GenerateWorkAppliedCondition(conditions, work.generation, env.workTime);
    assert View(conditions) == view;
    work.conditions := [workCond];
    assert View(work.slots) == view;
  }

  // ---------------------------------------------------------------------------------
  // What the new status says about the results.
  // ---------------------------------------------------------------------------------

  /** The last of the first k results that is matched to old condition f. */
  function LastHit(results: seq<ApplyResult>, ids: seq<ResourceIdentifier>, f: nat, k: nat): (j: Option<nat>)
    requires k <= |results|
    ensures j.Some? ==> j.value < k && FoundAt(results[j.value].identifier, ids) == Some(f)
    ensures j.Some? ==> forall i :: j.value < i < k ==> FoundAt(results[i].identifier, ids) != Some(f)
    ensures j.None? ==> forall i :: 0 <= i < k ==> FoundAt(results[i].identifier, ids) != Some(f)
  {
    hide FoundAt;
    if k == 0 then None
    else if FoundAt(results[k - 1].identifier, ids) == Some(f) then Some(k - 1)
    else LastHit(results, ids, f, k - 1)
  }

  /** The result whose outcome condition i ends up reporting: the last one written to the same list. */
  function LastWriter(results: seq<ApplyResult>, olds: seq<ManifestCondition>, env: Env, i: nat): (j: nat)
    requires i < |results|
    ensures i <= j < |results| && Unordered(results[j].identifier) == Unordered(results[i].identifier)
    ensures OrdinalOnly(results[i].identifier) ==> results[j].identifier == results[i].identifier
  {
    if Reuses(results[i], olds, env) then
      var f := FoundAt(results[i].identifier, Identifiers(olds)).value;
      LastHit(results, Identifiers(olds), f, |results|).value
    else i
  }

  /** A write through a shared list leaves it reporting the result just written. */
  lemma WrittenReports(olds: seq<ManifestCondition>, env: Env, f: nat, before: seq<Condition>, r: ApplyResult, now: int)
    requires f < |olds| && Shared(olds, env, f)
    ensures Reports(Written(olds, env, f, before, AppliedCondition(r, now)), r)
  {
    hide FindCondition;
    SetConditionFacts(before, AppliedCondition(r, now));
    SetConditionFacts(olds[f].conditions, AppliedCondition(r, now));
  }

  lemma {:induction false} MemoryReportsLastHit(results: seq<ApplyResult>, olds: seq<ManifestCondition>, env: Env,
      k: nat, f: nat)
    requires k <= |results| && f < |olds| && Shared(olds, env, f)
    ensures match LastHit(results, Identifiers(olds), f, k)
            case None => Memory(results, olds, env, k)[f] == olds[f].conditions
            case Some(j) => Reports(Memory(results, olds, env, k)[f], results[j])
  {
    hide FoundAt, Memory, Written, Reports, Shared;
    if k == 0 {
      InitialMemory(results, olds, env, f);
    } else {
      MemoryReportsLastHit(results, olds, env, k - 1, f);
      MemoryStep(results, olds, env, k - 1, f);
      WrittenReports(olds, env, f, Memory(results, olds, env, k - 1)[f], results[k - 1], env.times(k - 1));
    }
  }

  /** A list only one result is matched to holds the old conditions with that outcome set. */
  lemma {:induction false} MemoryOfSoleHit(results: seq<ApplyResult>, olds: seq<ManifestCondition>, env: Env, k: nat,
      f: nat, i: nat)
    requires k <= |results| && f < |olds| && Shared(olds, env, f)
    requires i < |results|
    requires forall j :: 0 <= j < |results| ==>
             (FoundAt(results[j].identifier, Identifiers(olds)) == Some(f) <==> j == i)
    ensures Memory(results, olds, env, k)[f] ==
            if i < k then SetCondition(olds[f].conditions, AppliedCondition(results[i], env.times(i)))
              else olds[f].conditions
  {
    hide FoundAt, FindCondition, Memory, AppliedCondition;
    if k == 0 {
      InitialMemory(results, olds, env, f);
    } else {
      MemoryOfSoleHit(results, olds, env, k - 1, f, i);
      MemoryStep(results, olds, env, k - 1, f);
      AppliedConditionType(results[k - 1], env.times(k - 1));
    }
  }

  /** For any results and any old status: condition i is result i's, and reports the last writer's whole outcome. */
  lemma ConditionReportsLastWriter(results: seq<ApplyResult>, olds: seq<ManifestCondition>, env: Env, i: nat)
    requires i < |results|
    ensures var c := NewConditions(results, olds, env)[i];
            var failed := Failed(results[LastWriter(results, olds, env, i)]);
            && c.identifier == results[i].identifier
            && Reports(c.conditions, results[LastWriter(results, olds, env, i)])
            && (AppliedIs(c.conditions, False) <==> failed)
            && (AppliedIs(c.conditions, True) <==> !failed)
  {
    var applied := AppliedCondition(results[i], env.times(i));
    if Reuses(results[i], olds, env) {
      MemoryReportsLastHit(results, olds, env, |results|, FoundAt(results[i].identifier, Identifiers(olds)).value);
    } else {
      match FoundAt(results[i].identifier, Identifiers(olds))
      case None => FindConditionIs([applied], CONDITION_APPLIED, 0);
      case Some(f) => SetConditionFacts(olds[f].conditions, applied);
    }
  }

  /** The exact meaning of the work's own condition. */
  lemma WorkConditionExact(results: seq<ApplyResult>, status: WorkStatus, generation: int, env: Env)
    ensures var s := NewStatus(results, status, generation, env);
            && (AppliedIs(s.conditions, False) <==>
                  exists i :: 0 <= i < |results|
                    && Failed(results[LastWriter(results, status.manifestConditions, env, i)]))
            && (AppliedIs(s.conditions, True) <==> !AppliedIs(s.conditions, False))
            && |s.conditions| == 1 && s.conditions[0].observedGeneration == generation
  {
    var olds := status.manifestConditions;
    var conds := NewConditions(results, olds, env);
    FindConditionIs([WorkCondition(conds, generation, env.workTime)], CONDITION_APPLIED, 0);
    forall i | 0 <= i < |results|
      ensures AppliedIs(conds[i].conditions, False) <==> Failed(results[LastWriter(results, olds, env, i)])
    {
      ConditionReportsLastWriter(results, olds, env, i);
    }
  }

  /** Results name different resources; those that could not even be decoded differ by ordinal. */
  predicate DistinctResults(results: seq<ApplyResult>) {
    forall i, j :: 0 <= i < j < |results| ==>
      && results[i].identifier != results[j].identifier
      && (Unordered(results[i].identifier) != Unordered(results[j].identifier) || OrdinalOnly(results[i].identifier))
  }

  lemma DistinctResultsWriteAlone(results: seq<ApplyResult>, olds: seq<ManifestCondition>, env: Env, i: nat)
    requires i < |results| && DistinctResults(results)
    ensures LastWriter(results, olds, env, i) == i
    ensures var f := FoundAt(results[i].identifier, Identifiers(olds));
            f.Some? ==>
              forall j :: 0 <= j < |results| && j != i ==> FoundAt(results[j].identifier, Identifiers(olds)) != f
  {
  }

  /** Without sharing, each condition list is the old one of the same resource with the outcome set. */
  lemma DistinctConditions(results: seq<ApplyResult>, olds: seq<ManifestCondition>, env: Env, i: nat)
    requires i < |results| && DistinctResults(results)
    ensures FinalConditions(results, olds, env, i) ==
            match FoundAt(results[i].identifier, Identifiers(olds))
            case None => [AppliedCondition(results[i], env.times(i))]
            case Some(f) => SetCondition(olds[f].conditions, AppliedCondition(results[i], env.times(i)))
  {
    DistinctResultsWriteAlone(results, olds, env, i);
    if Reuses(results[i], olds, env) {
      var f := FoundAt(results[i].identifier, Identifiers(olds)).value;
      MemoryOfSoleHit(results, olds, env, |results|, f, i);
    }
  }

  /**
   Status truth: with distinct results, condition i has result i's identifier and its Applied
   is False exactly when result i failed, and the work's Applied is True exactly when none did.
   */
  lemma StatusTruth(results: seq<ApplyResult>, status: WorkStatus, generation: int, env: Env)
    requires DistinctResults(results)
    ensures var s := NewStatus(results, status, generation, env);
            && |s.manifestConditions| == |results|
            && (forall i :: 0 <= i < |results| ==>
                              && s.manifestConditions[i].identifier == results[i].identifier
                              && (AppliedIs(s.manifestConditions[i].conditions, False) <==> Failed(results[i]))
                              && (AppliedIs(s.manifestConditions[i].conditions, True) <==> !Failed(results[i])))
            && (AppliedIs(s.conditions, True) <==> forall i :: 0 <= i < |results| ==> !Failed(results[i]))
  {
    var olds := status.manifestConditions;
    forall i | 0 <= i < |results|
      ensures LastWriter(results, olds, env, i) == i
    {
      DistinctResultsWriteAlone(results, olds, env, i);
      ConditionReportsLastWriter(results, olds, env, i);
    }
    WorkConditionExact(results, status, generation, env);
    forall i | 0 <= i < |results|
      ensures AppliedIs(NewConditions(results, olds, env)[i].conditions, False) <==> Failed(results[i])
      ensures AppliedIs(NewConditions(results, olds, env)[i].conditions, True) <==> !Failed(results[i])
    {
      ConditionReportsLastWriter(results, olds, env, i);
    }
  }

  /**
   Why distinctness is needed: a work that lists a resource twice, with an old condition list
   that is written in place, where the first apply now fails and the second one succeeds, reports
   complete success.
   */
  lemma SharedListHidesFailure(first: ApplyResult, second: ApplyResult, status: WorkStatus, generation: int, env: Env)
    requires |status.manifestConditions| == 1 && Shared(status.manifestConditions, env, 0)
    requires Failed(first) && !Failed(second) && !OrdinalOnly(first.identifier) && !OrdinalOnly(second.identifier)
    requires Unordered(first.identifier) == Unordered(second.identifier) ==
             Unordered(status.manifestConditions[0].identifier)
    ensures var s := NewStatus([first, second], status, generation, env);
            AppliedIs(s.conditions, True) && AppliedIs(s.manifestConditions[0].conditions, True)
  {
    var results, olds := [first, second], status.manifestConditions;
    assert Identifiers(olds)[0] == olds[0].identifier;
    assert FoundAt(first.identifier, Identifiers(olds)) == Some(0);
    assert FoundAt(second.identifier, Identifiers(olds)) == Some(0);
    assert LastWriter(results, olds, env, 0) == 1 && LastWriter(results, olds, env, 1) == 1;
    WorkConditionExact(results, status, generation, env);
    ConditionReportsLastWriter(results, olds, env, 0);
  }
}
