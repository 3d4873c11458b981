/**
 The member cluster's objects and the two atomic steps the controller takes on one of them:
 applying a manifest, and deleting or un-owning a stale resource.

 The API server's answers are parameters: a fault makes a call fail without effect, and the
 fields a server fills in are arbitrary. Not-found and already-exists are reported exactly
 when they are true; every other error may come at any call.
 */
module Spoke {
  import opened Wrappers
  import opened GroupVersions
  import opened OwnerReferences
  import opened Manifests
  import opened WorkApi

  datatype Gvr = Gvr(group: string, version: string, resource: string)

  datatype Target = Target(gvr: Gvr, namespace: string, name: string)

  type Objects = map<Target, Obj>

  /** What the server decides about an object it creates or patches. */
  datatype ServerFields = ServerFields(name: string, body: string, status: string, live: Live, extra: Annotations)

  datatype ApplyAnswer = ApplyAnswer(getFault: Option<string>, writeFault: Option<string>, server: ServerFields)

  datatype CleanAnswer = CleanAnswer(getFault: Option<string>, writeFault: Option<string>, live: Live)

  // ---------------------------------------------------------------------------------
  // The API server.
  // ---------------------------------------------------------------------------------

  function Get(objs: Objects, t: Target, fault: Option<string>): Result<Obj, ApiError> {
    if t.name == "" then Err(NameRequired)
    else if fault.Some? then Err(Unavailable(fault.value))
    else if t !in objs then Err(NotFound)
    else Ok(objs[t])
  }

  /** The object a create stores: the manifest's metadata, and what the server adds or defaults. */
  function Created(o: Obj, name: string, server: ServerFields): Obj {
    o.(name := name, body := server.body, status := server.status, live := server.live,
    annotations := Some(server.extra + AnnotationsOf(o)))
  }

  /** The contract of the three-way merge: the manifest's annotations and its merged owner list win. */
  function Patched(current: Obj, manifest: Obj, server: ServerFields): Obj {
    current.(owners := manifest.owners, body := server.body, status := server.status, live := server.live,
    annotations := Some(server.extra + AnnotationsOf(manifest)))
  }

  predicate HasGeneratedName(o: Obj) {
    o.name == "" && o.generateName != ""
  }

  /** The name a create would store the object under. */
  function CreateTarget(gvr: Gvr, o: Obj, server: ServerFields): Target {
    Target(gvr, o.namespace, if HasGeneratedName(o) then server.name else o.name)
  }

  function TargetOf(gvr: Gvr, o: Obj): Target {
    Target(gvr, o.namespace, o.name)
  }

  function Create(objs: Objects, gvr: Gvr, o: Obj, fault: Option<string>, server: ServerFields): Result<Obj, ApiError> {
    var t := CreateTarget(gvr, o, server);
    if t.name == "" then Err(NameRequired)
    else if fault.Some? then Err(Unavailable(fault.value))
    else if t in objs then Err(AlreadyExists)
    else Ok(Created(o, t.name, server))
  }

  // ---------------------------------------------------------------------------------
  // applyUnstructured and patchCurrentResource.
  // ---------------------------------------------------------------------------------

  /** `written` is the object that was created or patched; `writes` counts the requests issued. */
  datatype ApplyOut = ApplyOut(objs: Objects, result: Result<Obj, ApiError>, updated: bool, written: Option<Target>,
    writes: nat)

  function CreateStep(objs: Objects, gvr: Gvr, m: Obj, answer: ApplyAnswer): ApplyOut {
    var o := WithLastApplied(m);
    var t := CreateTarget(gvr, o, answer.server);
    match Create(objs, gvr, o, answer.writeFault, answer.server)
    case Ok(actual) => ApplyOut(objs[t := actual], Ok(actual), true, Some(t), 1)
    case Err(e) => ApplyOut(objs, Err(e), false, None, 1)
  }

  function PatchStep(objs: Objects, gvr: Gvr, m: Obj, answer: ApplyAnswer): ApplyOut
    requires TargetOf(gvr, m) in objs
  {
    var t := TargetOf(gvr, m);
    var o := WithLastApplied(m.(owners := Merge(objs[t].owners, m.owners)));
    var actual := Patched(objs[t], o, answer.server);
    if OriginalConfiguration(objs[t]).Err? then ApplyOut(objs, Err(NoOriginal), false, None, 0)
    else if answer.writeFault.Some? then ApplyOut(objs, Err(Unavailable(answer.writeFault.value)), false, None, 1)
    else ApplyOut(objs[t := actual], Ok(actual), true, Some(t), 1)
  }

  /** m carries the owner and the hash annotation already. */
  function ApplyPrepared(objs: Objects, gvr: Gvr, m: Obj, answer: ApplyAnswer): ApplyOut {
    if HasGeneratedName(m) then CreateStep(objs, gvr, m, answer)
    else
      match Get(objs, TargetOf(gvr, m), answer.getFault)
      case Err(NotFound) => CreateStep(objs, gvr, m, answer)
      case Err(e) => ApplyOut(objs, Err(e), false, None, 0)
      case Ok(current) =>
        if !IsManagedByWork(current.owners) then ApplyOut(objs, Err(NotManaged), false, None, 0)
        else if Annotation(m, MANIFEST_HASH) != Annotation(current, MANIFEST_HASH) then PatchStep(objs, gvr, m, answer)
        else ApplyOut(objs, Ok(current), false, None, 0)
  }

  /** One manifest of a work applied on behalf of its owner. */
  function ApplyManifest(objs: Objects, gvr: Gvr, manifest: Obj, owner: OwnerRef, answer: ApplyAnswer): ApplyOut {
    ApplyPrepared(objs, gvr, Prepared(manifest, owner), answer)
  }

  // ---------------------------------------------------------------------------------
  // One iteration of deleteStaleManifest.
  // ---------------------------------------------------------------------------------

  datatype CleanOut = CleanOut(objs: Objects, error: Option<ApiError>, writes: nat)

  function CleanStale(objs: Objects, t: Target, owner: OwnerRef, answer: CleanAnswer): CleanOut {
    match Get(objs, t, answer.getFault)
    case Err(NotFound) => CleanOut(objs, None, 0)
    case Err(e) => CleanOut(objs, Some(e), 0)
    case Ok(o) =>
      if !Represents(o.owners, owner) then CleanOut(objs, None, 0)
      else if answer.writeFault.Some? then CleanOut(objs, Some(Unavailable(answer.writeFault.value)), 1)
      else
        var rest := Splice(o.owners, owner);
        CleanOut(if rest == [] then objs - {t} else objs[t := o.(owners := rest, live := answer.live)], None, 1)
  }

  // ---------------------------------------------------------------------------------
  // What one step does to the object it names and to all others.
  // ---------------------------------------------------------------------------------

  /** An apply touches at most the object it wrote, and says so. */
  lemma ApplyFrame(objs: Objects, gvr: Gvr, manifest: Obj, owner: OwnerRef, answer: ApplyAnswer)
    ensures var out := ApplyManifest(objs, gvr, manifest, owner, answer);
            && (out.written.None? ==> out.objs == objs)
            && (out.written.Some? <==> out.updated)
            && (out.updated ==> out.result.Ok? && out.writes == 1)
            && (out.written.Some? && !HasGeneratedName(manifest) ==> out.written.value == TargetOf(gvr, manifest))
            && forall t :: out.written != Some(t) ==>
                 (t in out.objs <==> t in objs) && (t in objs ==> out.objs[t] == objs[t])
  {
    hide ParseGroupVersion, ManifestHash, Merge, Add, IsManagedByWork, Annotation;
  }

  /**
   A written object carries the manifest's hash and records the manifest as last applied; its
   owners are the manifest's, merged into any it had.
   */
  lemma ApplyWrites(objs: Objects, gvr: Gvr, manifest: Obj, owner: OwnerRef, answer: ApplyAnswer)
    requires ApplyManifest(objs, gvr, manifest, owner, answer).written.Some?
    ensures var out := ApplyManifest(objs, gvr, manifest, owner, answer);
            var t := out.written.value;
            && t in out.objs
            && out.result == Ok(out.objs[t])
            && Annotation(out.objs[t], MANIFEST_HASH) == Some(ManifestHash(WithOwner(manifest, owner)))
            && out.objs[t].owners ==
               (if t in objs then Merge(objs[t].owners, Add(manifest.owners, owner)) else Add(manifest.owners, owner))
            && OriginalConfiguration(out.objs[t]) ==
               Ok(Json(WithoutLastApplied(Prepared(manifest, owner).(owners := out.objs[t].owners))))
            && (t in objs ==> IsManagedByWork(objs[t].owners))
  {
    hide ParseGroupVersion, ManifestHash, Merge, Add, IsManagedByWork, Represents, SameObject;
    PreparedHash(manifest, owner);
  }

  /**
   Exactly when a named apply succeeds, and what it then does: create what is missing, refuse
   what is not managed, patch when the hashes differ and there is a recorded original to patch
   from, and otherwise issue no write.
   */
  lemma ApplyDecision(objs: Objects, gvr: Gvr, manifest: Obj, owner: OwnerRef, answer: ApplyAnswer)
    requires !HasGeneratedName(manifest)
    ensures var t := TargetOf(gvr, manifest);
            var out := ApplyManifest(objs, gvr, manifest, owner, answer);
            var same := t in objs
              && Annotation(objs[t], MANIFEST_HASH) == Some(ManifestHash(WithOwner(manifest, owner)));
            && (out.result.Ok? <==>
                  && t.name != "" && answer.getFault.None? && (same || answer.writeFault.None?)
                  && (t in objs ==> IsManagedByWork(objs[t].owners) && (same || OriginalConfiguration(objs[t]).Ok?)))
            && (out.result.Ok? ==> (out.updated <==> !same))
            && (out.result.Ok? && same ==> out.writes == 0 && out.objs == objs && out.result == Ok(objs[t]))
            && (out.result.Err? ==> out.objs == objs && !out.updated)
            && (t.name != "" && answer.getFault.None? && t in objs && !IsManagedByWork(objs[t].owners) ==>
                  out.result == Err(NotManaged) && out.writes == 0)
  {
    hide ParseGroupVersion, ManifestHash, Merge, Add, IsManagedByWork, Represents, SameObject;
    PreparedHash(manifest, owner);
  }
}
