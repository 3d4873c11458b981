/**
 What can be observed of each operation, on raw fields: which objects are refused and which
 accepted, what is written, what is removed, and what a pass returns for every call that fails.
 */
module Outcomes {
  import opened Wrappers
  import opened GroupVersions
  import opened OwnerReferences
  import opened Manifests
  import opened WorkApi
  import opened Spoke
  import opened SpokeRuns
  import opened Conditions
  import opened Lifecycle
  import opened Applying
  import opened Syncer
  import opened Reconciler
  import opened Tracking
  import opened Histories
  import opened StatusOutcomes

  // ---------------------------------------------------------------------------------
  // Foreign objects.
  // ---------------------------------------------------------------------------------

  lemma ForeignIsNotManaged(owners: seq<OwnerRef>)
    requires forall r :: r in owners ==> r.apiVersion != WORK_API_VERSION || r.kind != APPLIED_WORK_KIND
    ensures !IsManagedByWork(owners)
  {
  }

  lemma OwnedIsManaged(owners: seq<OwnerRef>, r: OwnerRef)
    requires r in owners && r.apiVersion == WORK_API_VERSION && r.kind == APPLIED_WORK_KIND
    ensures IsManagedByWork(owners)
  {
  }

  /** No run of reconciler steps touches an object none of whose owners is of the AppliedWork kind. */
  lemma ForeignSurvivesRun(objs: Objects, acts: seq<Action>, t: Target)
    requires forall a :: a in acts ==> !a.Outside?
    requires t in objs
    requires forall r :: r in objs[t].owners ==> r.apiVersion != WORK_API_VERSION || r.kind != APPLIED_WORK_KIND
    ensures t in Run(objs, acts) && Run(objs, acts)[t] == objs[t]
  {
    hide IsManagedByWork, Run;
    ForeignIsNotManaged(objs[t].owners);
    ForeignUntouched(objs, acts, t);
  }

  /** Nor does any pass, interleaved with any other reconciles. */
  lemma ForeignSurvivesPass(joined: bool, w: World, mapper: RestMapper, name: string, answers: PassAnswers, t: Target)
    requires forall a :: Between(a, answers) ==> !a.Outside?
    requires t in w.objs
    requires forall r :: r in w.objs[t].owners ==> r.apiVersion != WORK_API_VERSION || r.kind != APPLIED_WORK_KIND
    ensures var after := Pass(joined, w, mapper, name, answers).world.objs; t in after && after[t] == w.objs[t]
  {
    hide IsManagedByWork, Pass;
    ForeignIsNotManaged(w.objs[t].owners);
    PassLeavesForeignAlone(joined, w, mapper, name, answers, t);
  }

  // ---------------------------------------------------------------------------------
  // Decoding and identifiers.
  // ---------------------------------------------------------------------------------

  /** What a manifest decodes to, from the text of its API version. */
  lemma DecodesExactly(mapper: RestMapper, manifest: Manifest)
    ensures manifest.Undecodable? ==> Decode(mapper, manifest) == Bad(DecodeFailed(manifest.text), None)
    ensures manifest.Decoded? ==>
              var o := manifest.obj;
              && (TwoSlashes(o.apiVersion) ==> KindDecodes(mapper, o, Gvk("", "", "")))
              && ('/' !in o.apiVersion ==> KindDecodes(mapper, o, Gvk("", o.apiVersion, o.kind)))
              && (forall i :: 0 <= i < |o.apiVersion| && o.apiVersion[i] == '/' && !TwoSlashes(o.apiVersion) ==>
                                KindDecodes(mapper, o, Gvk(o.apiVersion[..i], o.apiVersion[i + 1..], o.kind)))
  {
    hide ParseGroupVersion, TwoSlashes;
    if manifest.Decoded? {
      ParsesExactly(manifest.obj.apiVersion);
    }
  }

  /** An object of a kind decodes to the kind's resource, and is reported as unmapped if it has none. */
  predicate KindDecodes(mapper: RestMapper, o: Obj, gvk: Gvk) {
    Decode(mapper, Decoded(o)) ==
    if gvk in mapper then Good(Gvr(gvk.group, gvk.version, mapper[gvk]), o) else Bad(NoMapping, Some(o))
  }

  /** A core-group object, whose API version is a bare version, decodes when its kind is mapped. */
  lemma CoreKindDecodes(mapper: RestMapper, o: Obj)
    requires '/' !in o.apiVersion && Gvk("", o.apiVersion, o.kind) in mapper
    ensures Decode(mapper, Decoded(o)) == Good(Gvr("", o.apiVersion, mapper[Gvk("", o.apiVersion, o.kind)]), o)
  {
    hide ParseGroupVersion, TwoSlashes;
    DecodesExactly(mapper, Decoded(o));
  }

  /** The identifier a manifest is reported under: its ordinal, and whatever of it is known. */
  lemma IdentifiedExactly(mapper: RestMapper, index: nat, manifest: Manifest)
    ensures var id := IdentifierOf(mapper, index, manifest);
            && id.ordinal == index
            && match Decode(mapper, manifest)
               case Good(gvr, o) =>
                 && id.group == gvr.group && id.version == gvr.version && id.resource == gvr.resource
                 && id.namespace == o.namespace && id.name == o.name
                 && (!TwoSlashes(o.apiVersion) ==> id.kind == o.kind)
               case Bad(_, Some(o)) =>
                 && id.resource == "" && id.namespace == o.namespace && id.name == o.name
                 && (!TwoSlashes(o.apiVersion) ==>
                       && id.kind == o.kind
                       && (|| o.apiVersion == id.group + "/" + id.version
                           || (id.group == "" && o.apiVersion == id.version)))
               case Bad(_, None) => id == ResourceIdentifier(index, "", "", "", "", "", "")
  {
    hide ParseGroupVersion, TwoSlashes;
    if manifest.Decoded? {
      ParsesExactly(manifest.obj.apiVersion);
      if ParseGroupVersion(manifest.obj.apiVersion).Some? {
        ParsedFrom(manifest.obj.apiVersion, ParseGroupVersion(manifest.obj.apiVersion).value);
      }
    }
  }

  // ---------------------------------------------------------------------------------
  // Applying one manifest.
  // ---------------------------------------------------------------------------------

  predicate Unchanged(objs: Objects, out: ApplyOut) {
    out.objs == objs && !out.updated
  }

  /**
   Everything a named apply can come to. In particular an object without an owner of the
   AppliedWork kind is refused, and one such owner is enough not to be.
   */
  lemma NamedApplyOutcome(objs: Objects, gvr: Gvr, m: Obj, owner: OwnerRef, answer: ApplyAnswer)
    requires m.name != ""
    ensures var t := Target(gvr, m.namespace, m.name);
            var out := ApplyManifest(objs, gvr, m, owner, answer);
            var hash := ManifestHash(WithOwner(m, owner));
            if answer.getFault.Some? then
              out.result == Err(Unavailable(answer.getFault.value)) && Unchanged(objs, out) && out.writes == 0
            else if t !in objs then
              && out.writes == 1
              && if answer.writeFault.Some? then
                   out.result == Err(Unavailable(answer.writeFault.value)) && Unchanged(objs, out)
                 else out.updated && t in out.objs && out.result == Ok(out.objs[t])
            else if forall r :: r in objs[t].owners ==>
                      r.apiVersion != WORK_API_VERSION || r.kind != APPLIED_WORK_KIND then
              out.result == Err(NotManaged) && Unchanged(objs, out) && out.writes == 0
            else if objs[t].annotations.Some? && MANIFEST_HASH in objs[t].annotations.value
                    && objs[t].annotations.value[MANIFEST_HASH] == hash then
              out.result == Ok(objs[t]) && Unchanged(objs, out) && out.writes == 0
            else if !(objs[t].annotations.Some? && LAST_APPLIED in objs[t].annotations.value) then
              out.result == Err(NoOriginal) && Unchanged(objs, out) && out.writes == 0
            else
              && out.writes == 1
              && if answer.writeFault.Some? then
                   out.result == Err(Unavailable(answer.writeFault.value)) && Unchanged(objs, out)
                 else out.updated && t in out.objs && out.result == Ok(out.objs[t])
  {
    hide ParseGroupVersion, ManifestHash, Merge, Add, IsManagedByWork, Represents, SameObject;
    PreparedHash(m, owner);
    var t := Target(gvr, m.namespace, m.name);
    if t in objs {
      if forall r :: r in objs[t].owners ==> r.apiVersion != WORK_API_VERSION || r.kind != APPLIED_WORK_KIND {
        ForeignIsNotManaged(objs[t].owners);
      } else {
        var r :| r in objs[t].owners && r.apiVersion == WORK_API_VERSION && r.kind == APPLIED_WORK_KIND;
        OwnedIsManaged(objs[t].owners, r);
      }
    }
  }

  /** A manifest with a generated name creates a fresh object each time; one with no name at all is refused. */
  lemma NamelessApplyOutcome(objs: Objects, gvr: Gvr, m: Obj, owner: OwnerRef, answer: ApplyAnswer)
    requires m.name == ""
    ensures var t := Target(gvr, m.namespace, answer.server.name);
            var out := ApplyManifest(objs, gvr, m, owner, answer);
            if m.generateName == "" || answer.server.name == "" then
              out.result == Err(NameRequired) && Unchanged(objs, out)
            else if answer.writeFault.Some? then
              out.result == Err(Unavailable(answer.writeFault.value)) && Unchanged(objs, out)
            else if t in objs then out.result == Err(AlreadyExists) && Unchanged(objs, out)
            else
              && out.updated && t in out.objs && out.result == Ok(out.objs[t])
              && out.objs == objs[t := out.objs[t]] && out.objs[t].name == answer.server.name
  {
    hide ParseGroupVersion, ManifestHash, Merge, Add, IsManagedByWork;
  }

  /** A created or patched object has the manifest's annotations, and is the object the manifest names. */
  lemma WrittenFields(objs: Objects, gvr: Gvr, m: Obj, owner: OwnerRef, answer: ApplyAnswer, key: string)
    requires ApplyManifest(objs, gvr, m, owner, answer).updated
    requires m.annotations.Some? && key in m.annotations.value && key != MANIFEST_HASH && key != LAST_APPLIED
    ensures var out := ApplyManifest(objs, gvr, m, owner, answer);
            out.written.Some? && out.written.value in out.objs
            && var o := out.objs[out.written.value];
               && o.annotations.Some? && key in o.annotations.value
               && o.annotations.value[key] == m.annotations.value[key]
               && (out.written.value in objs ==>
                     var before := objs[out.written.value];
                     && o.apiVersion == before.apiVersion && o.kind == before.kind
                     && o.namespace == before.namespace && o.name == before.name)
               && (out.written.value !in objs ==>
                     o.apiVersion == m.apiVersion && o.kind == m.kind && o.namespace == m.namespace)
  {
    hide ParseGroupVersion, ManifestHash, Merge, Add, IsManagedByWork;
  }

  /** What is recorded about one manifest of a work. */
  lemma ResultFields(objs: Objects, mapper: RestMapper, index: nat, manifest: Manifest, owner: OwnerRef,
      answer: ApplyAnswer)
    ensures var step := ApplyOne(objs, mapper, index, manifest, owner, answer);
            match Decode(mapper, manifest)
            case Bad(e, _) =>
              && step.result.error == Some(e) && step.result.generation == 0 && !step.result.updated
              && step.objs == objs && step.writes == 0
            case Good(gvr, o) =>
              var out := ApplyManifest(objs, gvr, o, owner, answer);
              && step.objs == out.objs && step.writes == out.writes && step.result.updated == out.updated
              && match out.result
                 case Ok(live) => step.result.error == None && step.result.generation == live.live.generation
                 case Err(e) => step.result.error == Some(e) && step.result.generation == 0
  {
    hide ApplyManifest, Decode, IdentifierOf;
  }

  // ---------------------------------------------------------------------------------
  // The reference a work leaves.
  // ---------------------------------------------------------------------------------

  /** Some owner is this AppliedWork, under this UID, and does not block its deletion. */
  predicate Lists(owners: seq<OwnerRef>, work: string, uid: string) {
    exists r :: r in owners
                && r.apiVersion == WORK_API_VERSION && r.kind == APPLIED_WORK_KIND
                && r.name == work && r.uid == uid && r.blockOwnerDeletion == Some(false)
  }

  /** An object a work's apply has changed lists the work's AppliedWork by name and UID. */
  lemma WriteListsReference(objs: Objects, a: Action, t: Target)
    requires a.Apply? && WellFormed(a)
    requires t in Do(objs, a) && (t in objs ==> Do(objs, a)[t] != objs[t])
    ensures Lists(Do(objs, a)[t].owners, a.work, a.uid)
  {
    hide ApplyManifest, Represents, SameObject, NoDuplicates;
    ApplyFrame(objs, a.gvr, a.manifest, ControllerRef(a.work, a.uid), a.answer);
    WriteListsWriter(objs, a);
    assert ControllerRef(a.work, a.uid) in Do(objs, a)[t].owners;
  }

  /** So does, after a good pass, the target of every manifest the work had not been stripped from. */
  lemma GoodPassListsReference(h: History, w: World, mapper: RestMapper, name: string, answers: PassAnswers, i: nat)
    requires Sound(h) && h.objs == w.objs
    requires Injective(mapper) && WellTracked(mapper, TrackedBy(w, name))
    requires name in w.hub.works && ManifestsWellFormed(w.hub.works[name].manifests)
    requires DistinctTargets(mapper, w.hub.works[name].manifests)
    requires Undisturbed(answers.apply.before) && Undisturbed(answers.diff.before) && Undisturbed(answers.clean.before)
    requires i < |w.hub.works[name].manifests|
    ensures var t := ManifestTarget(mapper, w.hub.works[name].manifests[i]);
            var out := Pass(true, w, mapper, name, answers);
            out.requeueAfter == PERIODIC_REQUEUE && out.errors == [] ==>
              && t.Some? && t.value in out.world.objs && name in out.world.registry.applied
              && ((t.value, name) !in h.stripped ==>
                    Lists(out.world.objs[t.value].owners, name, out.world.registry.applied[name].uid))
  {
    hide Pass, PassActions, Sound, Injective, WellTracked, DistinctTargets, Undisturbed, ManifestTarget,
      ManifestsWellFormed, Owns;
    GoodPassOwns(h, w, mapper, name, answers, i);
    var out := Pass(true, w, mapper, name, answers);
    if out.requeueAfter == PERIODIC_REQUEUE && out.errors == [] {
      var t := ManifestTarget(mapper, w.hub.works[name].manifests[i]).value;
      var me := ControllerRef(name, out.world.registry.applied[name].uid);
      assert (t, name) !in h.stripped ==> me in out.world.objs[t].owners;
    }
  }

  // ---------------------------------------------------------------------------------
  // Cleaning up one stale resource.
  // ---------------------------------------------------------------------------------

  /** The reference is this work's AppliedWork, by its raw strings. */
  predicate IsOf(r: OwnerRef, work: string) {
    r.apiVersion == WORK_API_VERSION && r.kind == APPLIED_WORK_KIND && r.name == work
  }

  /** Everything the clean-up of one resource can come to, when at most one of its owners is the work. */
  lemma CleanOutcomes(objs: Objects, t: Target, work: string, uid: string, answer: CleanAnswer, i: nat)
    requires t in objs && i < |objs[t].owners| ==>
               forall j :: 0 <= j < |objs[t].owners| && j != i ==> !IsOf(objs[t].owners[j], work)
    requires t in objs && i >= |objs[t].owners| ==> forall r :: r in objs[t].owners ==> !IsOf(r, work)
    ensures var out := CleanStale(objs, t, ControllerRef(work, uid), answer);
            if t.name == "" then out == CleanOut(objs, Some(NameRequired), 0)
            else if answer.getFault.Some? then out == CleanOut(objs, Some(Unavailable(answer.getFault.value)), 0)
            else if t !in objs then out == CleanOut(objs, None, 0)
            else
              var owners := objs[t].owners;
              if i >= |owners| || !IsOf(owners[i], work) then out == CleanOut(objs, None, 0)
              else if answer.writeFault.Some? then out == CleanOut(objs, Some(Unavailable(answer.writeFault.value)), 1)
              else if |owners| == 1 then out == CleanOut(objs - {t}, None, 1)
              else
                out == CleanOut(objs[t := objs[t].(owners := owners[..i] + owners[i + 1..], live := answer.live)],
                                None, 1)
  {
    hide ParseGroupVersion, SameObject, Splice;
    var owner := ControllerRef(work, uid);
    if t in objs {
      var owners := objs[t].owners;
      forall j | 0 <= j < |owners| ensures SameObject(owners[j], owner) <==> IsOf(owners[j], work) {
        SameAsControllerRef(owners[j], work, uid);
      }
      if i < |owners| && IsOf(owners[i], work) {
        OneMatch(owners, owner, i, |owners|);
        var k := SpliceOfOne(owners, owner, |owners|);
        assert k == i;
        SpliceIs(owners, owner, i);
      }
    }
  }

  lemma {:induction false} OneMatch(owners: seq<OwnerRef>, r: OwnerRef, i: nat, k: nat)
    requires k <= |owners| && i < |owners| && SameObject(owners[i], r)
    requires forall j :: 0 <= j < |owners| && j != i ==> !SameObject(owners[j], r)
    ensures Matches(owners, r, k) == if i < k then 1 else 0
  {
    hide SameObject;
    if k > 0 {
      OneMatch(owners, r, i, k - 1);
    }
  }

  lemma SpliceIs(owners: seq<OwnerRef>, r: OwnerRef, i: nat)
    requires i < |owners| && SpliceUpTo(owners, r, |owners|) == RemoveAt(owners, i)
    ensures Splice(owners, r) == owners[..i] + owners[i + 1..]
    ensures Splice(owners, r) == [] <==> |owners| == 1
  {
    hide SameObject, SpliceUpTo;
  }

  // ---------------------------------------------------------------------------------
  // What is stale and what is kept.
  // ---------------------------------------------------------------------------------

  /** Group, version, kind, namespace and name agree; the ordinal and the resource name do not count. */
  predicate SameKindAndName(a: ResourceIdentifier, b: ResourceIdentifier) {
    a.(ordinal := 0, resource := "") == b.(ordinal := 0, resource := "")
  }

  lemma SameKindAndNameIsSame(a: ResourceIdentifier, b: ResourceIdentifier)
    ensures SameResource(a, b) <==> SameKindAndName(a, b)
  {
  }

  /** Staleness is decided entry by entry: no condition has its group, version, kind, namespace and name. */
  lemma StaleOfOne(e: AppliedResource, conds: seq<ManifestCondition>)
    ensures StaleOf([e], conds) ==
            if exists c :: c in conds && SameKindAndName(e.identifier, c.identifier) then [] else [e]
  {
    hide SameKindAndName, SameResource;
    assert [e][..0] == [] && StaleOf([], conds) == [];
    if HasCondition(conds, e.identifier) {
      var i :| 0 <= i < |conds| && SameResource(e.identifier, conds[i].identifier);
      SameKindAndNameIsSame(e.identifier, conds[i].identifier);
      assert conds[i] in conds;
    } else if c :| c in conds && SameKindAndName(e.identifier, c.identifier) {
      var i :| 0 <= i < |conds| && conds[i] == c;
      SameKindAndNameIsSame(e.identifier, conds[i].identifier);
      assert false;
    }
  }

  /** And the stale entries come in the order in which they are tracked. */
  lemma {:induction false} StaleInOrder(first: seq<AppliedResource>, second: seq<AppliedResource>,
      conds: seq<ManifestCondition>)
    ensures StaleOf(first + second, conds) == StaleOf(first, conds) + StaleOf(second, conds)
    decreases |second|
  {
    hide HasCondition;
    if second == [] {
      assert first + second == first;
    } else {
      var n := |second| - 1;
      var all := first + second;
      assert all[..|all| - 1] == first + second[..n] && all[|all| - 1] == second[n];
      StaleInOrder(first, second[..n], conds);
    }
  }

  /** The first condition of type Applied says True. */
  predicate SaysApplied(conds: seq<Condition>) {
    exists i :: 0 <= i < |conds| && conds[i].ctype == "Applied" && conds[i].status == True
                && forall j :: 0 <= j < i ==> conds[j].ctype != "Applied"
  }

  lemma SaysAppliedIs(conds: seq<Condition>)
    ensures AppliedIs(conds, True) <==> SaysApplied(conds)
  {
    if SaysApplied(conds) {
      var i :| 0 <= i < |conds| && conds[i].ctype == "Applied" && conds[i].status == True
               && forall j :: 0 <= j < i ==> conds[j].ctype != "Applied";
      FindConditionIs(conds, "Applied", i);
    }
  }

  /** What one condition contributes to the new list: the UID tracked for its first entry, or the live one. */
  lemma EntryOutcome(objs: Objects, c: ManifestCondition, tracked: seq<AppliedResource>, fault: Option<string>, i: nat)
    requires i < |tracked| ==> SameKindAndName(tracked[i].identifier, c.identifier)
    requires forall j :: 0 <= j < i && j < |tracked| ==> !SameKindAndName(tracked[j].identifier, c.identifier)
    ensures var id := c.identifier;
            var t := Target(Gvr(id.group, id.version, id.resource), id.namespace, id.name);
            EntryOf(objs, c, tracked, fault) ==
            if !SaysApplied(c.conditions) then Ok(None)
            else if i < |tracked| then Ok(Some(AppliedResource(id, tracked[i].uid)))
            else if id.name == "" then Err(NameRequired)
            else if fault.Some? then Err(Unavailable(fault.value))
            else if t !in objs then Ok(None)
            else Ok(Some(AppliedResource(id, objs[t].live.uid)))
  {
    hide SaysApplied, AppliedIs, SameKindAndName, SameResource;
    SaysAppliedIs(c.conditions);
    forall j | 0 <= j < |tracked|
      ensures SameResource(tracked[j].identifier, c.identifier) <==>
              SameKindAndName(tracked[j].identifier, c.identifier)
    {
      SameKindAndNameIsSame(tracked[j].identifier, c.identifier);
    }
    assert TrackedAt(tracked, c.identifier) == if i < |tracked| then Some(i) else None;
  }

  // ---------------------------------------------------------------------------------
  // ensureAppliedWork, garbageCollectAppliedWork and Leave.
  // ---------------------------------------------------------------------------------

  /** The work is stored with this finalizer list, and is otherwise as it was. */
  predicate StoredWith(before: HubState, after: HubState, name: string, finalizers: seq<string>) {
    && name in before.works && name in after.works
    && after.works[name] ==
       before.works[name].(finalizers := finalizers, resourceVersion := after.works[name].resourceVersion)
    && after.works[name].resourceVersion == after.clock > before.clock
    && after.works == before.works[name := after.works[name]]
  }

  /** A fresh AppliedWork with nothing tracked is stored under this UID; the others are as they were. */
  predicate CreatedWith(before: Registry, after: Registry, name: string, uid: string) {
    && name in after.applied && after.applied[name].uid == uid && after.applied[name].tracked == []
    && after.applied[name].resourceVersion == after.clock > before.clock
    && after.applied == before.applied[name := after.applied[name]]
  }

  /**
   Everything ensureAppliedWork can come to for a work as just fetched. The finalizer goes behind
   the work's other ones, and only after the AppliedWork is there.
   */
  lemma EnsureOutcome(hub: HubState, reg: Registry, name: string, answer: EnsureAnswer)
    requires name in hub.works
    ensures var work := hub.works[name];
            var out := Ensure(hub, reg, name, work, answer);
            var checks := "fleet.azure.com/work-cleanup" in work.finalizers;
            if checks && answer.getFault.Some? then
              out.result == Err(Unavailable(answer.getFault.value)) && out.hub == hub && out.registry == reg
            else if checks && name in reg.applied then
              out.result == Ok(reg.applied[name]) && out.work == work && out.hub == hub && out.registry == reg
            else if answer.createFault.Some? then
              out.result == Err(Unavailable(answer.createFault.value)) && out.hub == hub && out.registry == reg
            else
              && (if name in reg.applied then out.registry == reg else CreatedWith(reg, out.registry, name, answer.uid))
              && if !checks && answer.updateFault.Some? then
                   out.result == Err(Unavailable(answer.updateFault.value)) && out.hub == hub
                 else
                   && out.result ==
                      Ok(if name in reg.applied then AppliedWork("", 0, []) else out.registry.applied[name])
                   && name in out.hub.works && out.work == out.hub.works[name]
                   && if checks then out.hub == hub
                      else StoredWith(hub, out.hub, name, work.finalizers + ["fleet.azure.com/work-cleanup"])
  {
  }

  /** What the first finalizer of a list contributes. */
  function KeptFinalizer(f: string): seq<string> {
    if f == WORK_FINALIZER then [] else [f]
  }

  lemma WithoutStep(finalizers: seq<string>)
    requires finalizers != []
    ensures WithoutFinalizer(finalizers) == KeptFinalizer(finalizers[0]) + WithoutFinalizer(finalizers[1..])
  {
    assert [] + WithoutFinalizer(finalizers[1..]) == WithoutFinalizer(finalizers[1..]);
  }

  lemma Reassociate<T>(a: seq<T>, b: seq<T>, c: seq<T>)
    ensures (a + b) + c == a + (b + c)
  {
  }

  lemma {:induction false} WithoutInParts(first: seq<string>, second: seq<string>)
    ensures WithoutFinalizer(first + second) == WithoutFinalizer(first) + WithoutFinalizer(second)
    decreases |first|
  {
    if first == [] {
      assert first + second == second;
      assert WithoutFinalizer(first) + WithoutFinalizer(second) == WithoutFinalizer(second);
    } else {
      hide WithoutFinalizer, KeptFinalizer;
      var all := first + second;
      assert all[0] == first[0] && all[1..] == first[1..] + second;
      WithoutInParts(first[1..], second);
      WithoutStep(first);
      WithoutStep(all);
      Reassociate(KeptFinalizer(first[0]), WithoutFinalizer(first[1..]), WithoutFinalizer(second));
    }
  }

  /** The finalizer is taken out of the list from where it is; the others stay in order. */
  lemma FinalizerRemoved(before: seq<string>, after: seq<string>)
    requires WORK_FINALIZER !in before && WORK_FINALIZER !in after
    ensures WithoutFinalizer(before + [WORK_FINALIZER] + after) == before + after
  {
    WithoutInParts(before + [WORK_FINALIZER], after);
    WithoutInParts(before, [WORK_FINALIZER]);
    assert WithoutFinalizer([WORK_FINALIZER]) == [] && before + [] == before;
  }

  /** The work has been released: gone if that was its last finalizer, and otherwise stored without it. */
  predicate ReleasedFrom(before: HubState, after: HubState, name: string, first: seq<string>, rest: seq<string>) {
    if first + rest == [] then after.works == before.works - {name} else StoredWith(before, after, name, first + rest)
  }

  /**
   Everything the collection of a deleted work can come to: every failure is returned, and nothing
   is released before the delete.
   */
  lemma CollectOutcome(hub: HubState, reg: Registry, name: string, deleteFault: Option<string>,
      releaseFault: Option<string>, first: seq<string>, rest: seq<string>)
    requires name in hub.works && hub.works[name].deleting
    requires hub.works[name].finalizers == first + [WORK_FINALIZER] + rest
    requires WORK_FINALIZER !in first && WORK_FINALIZER !in rest
    ensures var out := Collect(hub, reg, name, hub.works[name], deleteFault, releaseFault);
            if deleteFault.Some? then
              out.error == Some(Unavailable(deleteFault.value)) && out.hub == hub && out.registry == reg
            else
              && out.registry.applied == reg.applied - {name}
              && if releaseFault.Some? then out.error == Some(Unavailable(releaseFault.value)) && out.hub == hub
                 else out.error == None && ReleasedFrom(hub, out.hub, name, first, rest)
  {
    FinalizerRemoved(first, rest);
  }

  /** What Leave makes of a listed work it got to: the work without this finalizer, or nothing if that let it go. */
  lemma LeaveOutcome(hub: HubState, listed: seq<(string, Work)>, faults: nat -> Option<string>, i: nat,
      first: seq<string>, rest: seq<string>)
    requires ListsHub(hub, listed)
    requires i < LeaveUpTo(hub, listed, faults, |listed|).cleaned <= |listed|
    requires listed[i].1.finalizers == first + [WORK_FINALIZER] + rest
    requires WORK_FINALIZER !in first && WORK_FINALIZER !in rest
    ensures var name, w := listed[i].0, listed[i].1;
            var after := LeaveUpTo(hub, listed, faults, |listed|).hub.works;
            if name in after then
              after[name] == w.(finalizers := first + rest, resourceVersion := after[name].resourceVersion)
            else w.deleting && first + rest == []
  {
    hide LeaveUpTo, WithoutFinalizer, ListsHub;
    LeaveCleansPrefix(hub, listed, faults);
    FinalizerRemoved(first, rest);
  }

  // ---------------------------------------------------------------------------------
  // What a pass returns.
  // ---------------------------------------------------------------------------------

  /** A pass that stops before it does anything. */
  predicate Stops(w: World, out: PassOut, requeueAfter: nat, errors: seq<ApiError>) {
    out == PassOut(w, requeueAfter, errors, false, 0)
  }

  /** The beginnings of a pass: not joined, a failed lookup, a work that is gone. */
  lemma EarlyPass(joined: bool, w: World, mapper: RestMapper, name: string, answers: PassAnswers)
    ensures var out := Pass(joined, w, mapper, name, answers);
            && (!joined ==> Stops(w, out, 5, []))
            && (joined && answers.getFault.Some? ==> Stops(w, out, 0, [Unavailable(answers.getFault.value)]))
            && (joined && answers.getFault.None? && name !in w.hub.works ==> Stops(w, out, 0, []))
  {
    hide Sync, Ensure, Collect;
  }

  /**
   A pass on a deleted work that carries the finalizer reports no error exactly when the finalizer
   is off that work afterwards, and otherwise the one call that failed.
   */
  lemma DeletedPass(w: World, mapper: RestMapper, name: string, answers: PassAnswers)
    requires name in w.hub.works && w.hub.works[name].deleting && WORK_FINALIZER in w.hub.works[name].finalizers
    ensures var out := Pass(true, w, mapper, name, answers);
            var after := out.world.hub.works;
            && out.requeueAfter == 0 && out.world.objs == w.objs
            && (out.errors == [] <==> name !in after || WORK_FINALIZER !in after[name].finalizers)
            && (out.errors == [] ==> name !in out.world.registry.applied)
            && out.errors ==
               if answers.getFault.Some? then [Unavailable(answers.getFault.value)]
               else if answers.deleteFault.Some? then [Unavailable(answers.deleteFault.value)]
               else if answers.releaseFault.Some? then [Unavailable(answers.releaseFault.value)]
               else []
  {
  }

  /** A pass on a deleted work without the finalizer has nothing to do. */
  lemma ReleasedPass(w: World, mapper: RestMapper, name: string, answers: PassAnswers)
    requires name in w.hub.works && w.hub.works[name].deleting && WORK_FINALIZER !in w.hub.works[name].finalizers
    requires answers.getFault.None?
    ensures Stops(w, Pass(true, w, mapper, name, answers), 0, [])
  {
  }

  /** A pass whose ensureAppliedWork fails returns that call's error and applies nothing. */
  lemma UnensuredPass(w: World, mapper: RestMapper, name: string, answers: PassAnswers)
    requires name in w.hub.works && !w.hub.works[name].deleting && answers.getFault.None?
    ensures var work := w.hub.works[name];
            var out := Pass(true, w, mapper, name, answers);
            var checks := WORK_FINALIZER in work.finalizers;
            var stored := name in w.registry.applied;
            var failed := if checks && answers.ensure.getFault.Some? then answers.ensure.getFault
                          else if checks && stored then None
                          else if answers.ensure.createFault.Some? then answers.ensure.createFault
                          else if !checks then answers.ensure.updateFault else None;
            failed.Some? ==>
              && out.errors == [Unavailable(failed.value)] && out.requeueAfter == 0
              && !out.committed && out.writes == 0 && out.world.objs == w.objs
  {
    hide Sync, CreatedWith, StoredWith;
    EnsureOutcome(w.hub, w.registry, name, answers.ensure);
  }

  /**
   The end of a pass: a refused status update or commit is what is returned, and otherwise the
   errors of the manifests that failed, in order, with the periodic requeue of five minutes.
   */
  lemma SyncReports(w: World, mapper: RestMapper, name: string, work: Work, local: AppliedWork, answers: PassAnswers)
    ensures var applied := ApplyAll(w.objs, mapper, work.manifests, ControllerRef(name, local.uid), answers.apply);
            var conds := StatusAfter(w, mapper, name, work, local, answers).manifestConditions;
            var diff := Diff(applied.objs, conds, local.tracked, answers.diff);
            var owner := ControllerRef(name, local.uid);
            var clean := CleanAll(diff.objs, StaleOf(local.tracked, conds), owner, answers.clean);
            var out := Sync(w, mapper, name, work, local, answers);
            var reg := w.registry.applied;
            && (answers.statusFault.Some? ==>
                  out.errors == [Unavailable(answers.statusFault.value)] && out.requeueAfter == 0)
            && (answers.statusFault.None? && name !in w.hub.works ==> out.errors == [NotFound] && out.requeueAfter == 0)
            && (answers.statusFault.None? && name in w.hub.works
                && w.hub.works[name].resourceVersion != work.resourceVersion ==>
                  out.errors == [Conflict] && out.requeueAfter == 0)
            && (answers.statusFault.None? && name in w.hub.works
                && w.hub.works[name].resourceVersion == work.resourceVersion
                && diff.result.Ok? && clean.errors == [] ==>
                  if answers.commitFault.Some? then
                    out.errors == [Unavailable(answers.commitFault.value)] && out.requeueAfter == 0
                  else if name !in reg then out.errors == [NotFound] && out.requeueAfter == 0
                  else if local.resourceVersion == 0 || reg[name].resourceVersion != local.resourceVersion then
                    out.errors == [Conflict] && out.requeueAfter == 0
                  else
                    && out.errors == Errors(applied.results) && out.requeueAfter == 300
                    && name in out.world.registry.applied
                    && out.world.registry.applied[name].tracked == diff.result.value
                    && out.world.registry.applied[name].uid == reg[name].uid)
  {
    hide ApplyUpTo, NewUpTo, CleanUpTo, StatusAfter, StaleOf, Errors;
  }

  /**
   A whole pass on a work that has both its records: it returns the refusal of the status update;
   otherwise nothing at all after a failed lookup, the errors of the clean-up, the refusal of the
   commit, or, with the periodic requeue, the errors of the manifests.
   */
  lemma PassReports(w: World, mapper: RestMapper, name: string, answers: PassAnswers)
    requires name in w.hub.works && !w.hub.works[name].deleting && WORK_FINALIZER in w.hub.works[name].finalizers
    requires name in w.registry.applied
    requires answers.getFault.None? && answers.ensure.getFault.None?
    ensures var work, local := w.hub.works[name], w.registry.applied[name];
            var owner := ControllerRef(name, local.uid);
            var applied := ApplyAll(w.objs, mapper, work.manifests, owner, answers.apply);
            var conds := StatusAfter(w, mapper, name, work, local, answers).manifestConditions;
            var diff := Diff(applied.objs, conds, local.tracked, answers.diff);
            var clean := CleanAll(diff.objs, StaleOf(local.tracked, conds), owner, answers.clean);
            var out := Pass(true, w, mapper, name, answers);
            var (requeueAfter, errors) :=
              if answers.statusFault.Some? then (0, [Unavailable(answers.statusFault.value)])
              else if diff.result.Err? then (0, [])
              else if clean.errors != [] then (0, clean.errors)
              else if answers.commitFault.Some? then (0, [Unavailable(answers.commitFault.value)])
              else if local.resourceVersion == 0 then (0, [Conflict])
              else (300, Errors(applied.results));
            out.requeueAfter == requeueAfter && out.errors == errors && out.committed == (requeueAfter == 300)
  {
    hide ApplyUpTo, NewUpTo, CleanUpTo, StatusAfter, StaleOf, Errors;
  }

  /** The error of a step of the clean-up is collected, behind those of the steps before it. */
  lemma CleanErrorsInOrder(objs: Objects, stale: seq<AppliedResource>, owner: OwnerRef, answers: CleanAnswers, k: nat)
    requires k < |stale| && Undisturbed(answers.before)
    ensures var before := CleanUpTo(objs, stale, owner, answers, k);
            var after := CleanUpTo(objs, stale, owner, answers, k + 1);
            var id := stale[k].identifier;
            var t := Target(Gvr(id.group, id.version, id.resource), id.namespace, id.name);
            var step := CleanStale(before.objs, t, owner, answers.answer(k));
            && after.objs == step.objs
            && after.errors == before.errors + (if step.error.Some? then [step.error.value] else [])
            && after.writes == before.writes + step.writes
  {
    hide CleanStale;
    assert answers.before(k) == [] && Run(CleanUpTo(objs, stale, owner, answers, k).objs, []) ==
           CleanUpTo(objs, stale, owner, answers, k).objs;
  }

  // ---------------------------------------------------------------------------------
  // What a pass publishes.
  // ---------------------------------------------------------------------------------

  /** The status the hub holds after an accepted update is for the work's generation, and one condition per manifest. */
  lemma PublishedHeader(w: World, mapper: RestMapper, name: string, work: Work, local: AppliedWork,
      answers: PassAnswers)
    requires name in w.hub.works && w.hub.works[name].resourceVersion == work.resourceVersion
    requires answers.statusFault.None?
    ensures var out := Sync(w, mapper, name, work, local, answers);
            && name in out.world.hub.works
            && var status := out.world.hub.works[name].status;
               && |status.conditions| == 1 && status.conditions[0].ctype == "Applied"
               && status.conditions[0].observedGeneration == work.generation
               && status.conditions[0].lastTransitionTime == answers.env.workTime
               && |status.manifestConditions| == |work.manifests|
               && forall i :: 0 <= i < |work.manifests| ==>
                    status.manifestConditions[i].identifier == IdentifierOf(mapper, i, work.manifests[i])
  {
    hide Sync, ApplyUpTo, FinalConditions, IdentifierOf, LastWriter;
    SyncPublishes(w, mapper, name, work, local, answers);
    var owner := ControllerRef(name, local.uid);
    WorkConditionContent(ApplyAll(w.objs, mapper, work.manifests, owner, answers.apply).results,
                         work.status, work.generation, answers.env);
    forall i | 0 <= i < |work.manifests|
      ensures ApplyAll(w.objs, mapper, work.manifests, owner, answers.apply).results[i].identifier ==
              IdentifierOf(mapper, i, work.manifests[i])
    {
      SuccessIsMapped(w.objs, mapper, work.manifests, owner, answers.apply, |work.manifests|, i);
    }
  }

  const NOT_MANAGED_TEXT := "resource is not managed by the work controller"

  /**
   End to end: a work that asks for an object which exists with no owner of the AppliedWork kind.
   The object stays as it is, and the hub says so of that manifest and fails the work.
   */
  lemma RefusalIsPublished(w: World, mapper: RestMapper, name: string, work: Work, local: AppliedWork,
      answers: PassAnswers, i: nat, gvr: Gvr, m: Obj)
    requires name in w.hub.works && w.hub.works[name].resourceVersion == work.resourceVersion
    requires answers.statusFault.None?
    requires DistinctTargets(mapper, work.manifests) && DistinctlyIdentified(mapper, work.manifests)
    requires Undisturbed(answers.apply.before)
    requires i < |work.manifests| && Decode(mapper, work.manifests[i]) == Good(gvr, m) && m.name != ""
    requires answers.apply.answer(i).getFault.None?
    requires var t := Target(gvr, m.namespace, m.name);
             t in w.objs && forall r :: r in w.objs[t].owners ==>
               r.apiVersion != WORK_API_VERSION || r.kind != APPLIED_WORK_KIND
    ensures var out := Sync(w, mapper, name, work, local, answers);
            && name in out.world.hub.works
            && var status := out.world.hub.works[name].status;
               && |status.conditions| == 1 && status.conditions[0].status == False
               && i < |status.manifestConditions|
               && exists c :: c in status.manifestConditions[i].conditions && c.ctype == "Applied" && c.status == False
                              && c.message == "Failed to apply manifest: " + NOT_MANAGED_TEXT
  {
    hide Sync, ApplyAll, NewStatus, Decode, DistinctTargets, DistinctlyIdentified, DistinctResults, Undisturbed;
    var owner := ControllerRef(name, local.uid);
    var results := ApplyAll(w.objs, mapper, work.manifests, owner, answers.apply).results;
    RefusedResult(w.objs, mapper, work.manifests, owner, answers.apply, i, gvr, m);
    SyncPublishes(w, mapper, name, work, local, answers);
    IdentifiedResultsAreDistinct(w.objs, mapper, work.manifests, owner, answers.apply);
    RefusalReaches(results, work.status, work.generation, answers.env, i);
  }

  /** A refused result, written alone, reaches its manifest's condition and the work's. */
  lemma RefusalReaches(results: seq<ApplyResult>, status: WorkStatus, generation: int, env: Env, i: nat)
    requires DistinctResults(results) && i < |results| && results[i].error == Some(NotManaged)
    ensures var after := NewStatus(results, status, generation, env);
            && |after.conditions| == 1 && after.conditions[0].status == False
            && i < |after.manifestConditions|
            && exists c :: c in after.manifestConditions[i].conditions && c.ctype == "Applied" && c.status == False
                           && c.message == "Failed to apply manifest: " + NOT_MANAGED_TEXT
  {
    hide NewStatus, NewConditions, DistinctResults, LastWriter, FindCondition;
    DistinctResultsWriteAlone(results, status.manifestConditions, env, i);
    StatusParts(results, status, generation, env);
    assert NewStatus(results, status, generation, env).conditions[0].status == False by {
      WorkConditionContent(results, status, generation, env);
    }
    WorkConditionContent(results, status, generation, env);
    RefusalInCondition(results, status.manifestConditions, env, i);
  }

  lemma RefusalInCondition(results: seq<ApplyResult>, olds: seq<ManifestCondition>, env: Env, i: nat)
    requires i < |results| && LastWriter(results, olds, env, i) == i && results[i].error == Some(NotManaged)
    ensures var conds := NewConditions(results, olds, env)[i].conditions;
            exists c :: c in conds && c.ctype == "Applied" && c.status == False
                        && c.message == "Failed to apply manifest: " + NOT_MANAGED_TEXT
  {
    hide FinalConditions, LastWriter, FindCondition;
    ConditionContent(results, olds, env, i);
    var conds := NewConditions(results, olds, env)[i].conditions;
    assert conds[FindCondition(conds, "Applied").value] in conds;
  }

  lemma StatusParts(results: seq<ApplyResult>, status: WorkStatus, generation: int, env: Env)
    ensures NewStatus(results, status, generation, env).manifestConditions ==
            NewConditions(results, status.manifestConditions, env)
    ensures |NewConditions(results, status.manifestConditions, env)| == |results|
  {
    hide FinalConditions;
  }

  lemma SyncPublishes(w: World, mapper: RestMapper, name: string, work: Work, local: AppliedWork, answers: PassAnswers)
    requires name in w.hub.works && w.hub.works[name].resourceVersion == work.resourceVersion
    requires answers.statusFault.None?
    ensures var out := Sync(w, mapper, name, work, local, answers).world.hub.works;
            name in out && out[name].status == StatusAfter(w, mapper, name, work, local, answers)
  {
    hide ApplyUpTo, NewUpTo, CleanUpTo, StaleOf, StatusAfter, Errors;
  }

  lemma RefusedResult(objs: Objects, mapper: RestMapper, ms: seq<Manifest>, owner: OwnerRef, answers: ApplyAnswers,
      i: nat, gvr: Gvr, m: Obj)
    requires DistinctTargets(mapper, ms) && Undisturbed(answers.before) && answers.answer(i).getFault.None?
    requires i < |ms| && Decode(mapper, ms[i]) == Good(gvr, m) && m.name != ""
    requires var t := Target(gvr, m.namespace, m.name);
             t in objs && forall r :: r in objs[t].owners ==>
               r.apiVersion != WORK_API_VERSION || r.kind != APPLIED_WORK_KIND
    ensures ApplyAll(objs, mapper, ms, owner, answers).results[i].error == Some(NotManaged)
  {
    hide ApplyUpTo, ApplyOne, ApplyManifest, Decode, DistinctTargets, ManifestHash, Undisturbed;
    OutcomesAreIndependent(objs, mapper, ms, owner, answers, |ms|, i);
    ResultFields(objs, mapper, i, ms[i], owner, answers.answer(i));
    NamedApplyOutcome(objs, gvr, m, owner, answers.answer(i));
  }
}
