/** applyManifests: all manifests of a work, one after another, each with its own outcome. */
module Applying {
  import opened Wrappers
  import opened GroupVersions
  import opened OwnerReferences
  import opened Manifests
  import opened WorkApi
  import opened Spoke
  import opened SpokeRuns
  import opened Conditions
  import opened Clusters

  /** The REST mapper: the resource name of each known kind. */
  type RestMapper = map<Gvk, string>

  /** Two kinds of one group and version are served by different resources. */
  predicate Injective(mapper: RestMapper) {
    forall k, l | k in mapper && l in mapper ::
      k.group == l.group && k.version == l.version && mapper[k] == mapper[l] ==> k == l
  }

  datatype Decoding = Bad(error: ApiError, partial: Option<Obj>) | Good(gvr: Gvr, obj: Obj)

  /** decodeManifest */
  function Decode(mapper: RestMapper, manifest: Manifest): Decoding {
    match manifest
    case Undecodable(text) => Bad(DecodeFailed(text), None)
    case Decoded(o) =>
      var gvk := GvkOf(o);
      if gvk !in mapper then Bad(NoMapping, Some(o)) else Good(Gvr(gvk.group, gvk.version, mapper[gvk]), o)
  }

  function BuildResourceIdentifier(index: nat, o: Obj, gvr: Gvr): ResourceIdentifier {
    ResourceIdentifier(index, GvkOf(o).group, GvkOf(o).version, GvkOf(o).kind, gvr.resource, o.namespace, o.name)
  }

  /**
   The identifier a manifest is reported under; partial when it has no mapping, only an ordinal
   when it does not decode.
   */
  function IdentifierOf(mapper: RestMapper, index: nat, manifest: Manifest): ResourceIdentifier {
    match Decode(mapper, manifest)
    case Bad(_, None) => ResourceIdentifier(index, "", "", "", "", "", "")
    case Bad(_, Some(o)) =>
      ResourceIdentifier(index, GvkOf(o).group, GvkOf(o).version, GvkOf(o).kind, "", o.namespace, o.name)
    case Good(gvr, o) => BuildResourceIdentifier(index, o, gvr)
  }

  datatype StepOut = StepOut(objs: Objects, result: ApplyResult, writes: nat)

  /** One iteration of applyManifests. */
  function ApplyOne(objs: Objects, mapper: RestMapper, index: nat, manifest: Manifest, owner: OwnerRef,
      answer: ApplyAnswer): StepOut {
    var id := IdentifierOf(mapper, index, manifest);
    match Decode(mapper, manifest)
    case Bad(e, _) => StepOut(objs, ApplyResult(id, 0, false, Some(e)), 0)
    case Good(gvr, o) =>
      var out := ApplyManifest(objs, gvr, o, owner, answer);
      match out.result
      case Ok(applied) => StepOut(out.objs, ApplyResult(id, applied.live.generation, out.updated, None), out.writes)
      case Err(e) => StepOut(out.objs, ApplyResult(id, 0, out.updated, Some(e)), out.writes)
  }

  /** What others do before each manifest, and the server's answers to it. */
  datatype ApplyAnswers = ApplyAnswers(before: nat -> seq<Action>, answer: nat -> ApplyAnswer)

  datatype AllOut = AllOut(objs: Objects, results: seq<ApplyResult>, writes: nat)

  function ApplyUpTo(objs: Objects, mapper: RestMapper, ms: seq<Manifest>, owner: OwnerRef, answers: ApplyAnswers,
      k: nat): (out: AllOut)
    requires k <= |ms|
    ensures |out.results| == k
  {
    if k == 0 then AllOut(objs, [], 0)
    else
      var done := ApplyUpTo(objs, mapper, ms, owner, answers, k - 1);
      var step := ApplyOne(Run(done.objs, answers.before(k - 1)), mapper, k - 1, ms[k - 1], owner,
        answers.answer(k - 1));
      AllOut(step.objs, done.results + [step.result], done.writes + step.writes)
  }

  function ApplyAll(objs: Objects, mapper: RestMapper, ms: seq<Manifest>, owner: OwnerRef,
      answers: ApplyAnswers): (out: AllOut)
    ensures |out.results| == |ms|
  {
    ApplyUpTo(objs, mapper, ms, owner, answers, |ms|)
  }

  // ---------------------------------------------------------------------------------
  // The methods of apply_controller.go.
  // ---------------------------------------------------------------------------------

  method IsManifestManagedByWork(owners: seq<OwnerRef>) returns (managed: bool)
    ensures managed == IsManagedByWork(owners)
  {
    for i := 0 to |owners|
      invariant forall j :: 0 <= j < i ==>
                !(owners[j].apiVersion == WORK_API_VERSION && owners[j].kind == APPLIED_WORK_KIND)
    {
      if owners[i].apiVersion == WORK_API_VERSION && owners[i].kind == APPLIED_WORK_KIND {
        return true;
      }
    }
    return false;
  }

  method CreateManifest(spoke: SpokeCluster, gvr: Gvr, m: Unstructured, answer: ApplyAnswer)
    returns (result: Result<Obj, ApiError>, updated: bool, ghost writes: nat)
    modifies spoke`objs, m
    ensures var out := CreateStep(old(spoke.objs), gvr, old(m.obj), answer);
            spoke.objs == out.objs && result == out.result && updated == out.updated && writes == out.writes
  {
    m.SetModifiedConfigurationAnnotation();
    writes := 1;
    result := spoke.CreateObject(gvr, m.obj, answer.writeFault, answer.server);
    updated := result.Ok?;
  }

  method PatchCurrentResource(spoke: SpokeCluster, gvr: Gvr, m: Unstructured, current: Obj, answer: ApplyAnswer)
    returns (result: Result<Obj, ApiError>, updated: bool, ghost writes: nat)
    requires TargetOf(gvr, m.obj) in spoke.objs && spoke.objs[TargetOf(gvr, m.obj)] == current
    modifies spoke`objs, m
    ensures var out := PatchStep(old(spoke.objs), gvr, old(m.obj), answer);
            spoke.objs == out.objs && result == out.result && updated == out.updated && writes == out.writes
  {
    var owners := MergeOwnerReference(current.owners, m.obj.owners);
    m.SetOwnerReferences(owners);
    m.SetModifiedConfigurationAnnotation();
    var original := OriginalConfiguration(current);
    if original.Err? {
      return Err(NoOriginal), false, 0;
    }
    writes := 1;
    result := spoke.PatchObject(TargetOf(gvr, m.obj), m.obj, answer.writeFault, answer.server);
    updated := result.Ok?;
  }

  method ApplyUnstructured(spoke: SpokeCluster, gvr: Gvr, m: Unstructured, answer: ApplyAnswer)
    returns (result: Result<Obj, ApiError>, updated: bool, ghost writes: nat)
    modifies spoke`objs, m
    ensures var out := ApplyPrepared(old(spoke.objs), gvr, WithHash(old(m.obj)), answer);
            spoke.objs == out.objs && result == out.result && updated == out.updated && writes == out.writes
  {
    m.SetManifestHashAnnotation();
    if m.obj.name == "" && m.obj.generateName != "" {
      result, updated, writes := CreateManifest(spoke, gvr, m, answer);
      return;
    }
    var got := spoke.GetObject(TargetOf(gvr, m.obj), answer.getFault);
    match got {
      case Err(NotFound) =>
        result, updated, writes := CreateManifest(spoke, gvr, m, answer);
      case Err(e) =>
        result, updated, writes := Err(e), false, 0;
      case Ok(current) =>
        var managed := IsManifestManagedByWork(current.owners);
        if !managed {
          return Err(NotManaged), false, 0;
        }
        if Annotation(m.obj, MANIFEST_HASH) != Annotation(current, MANIFEST_HASH) {
          result, updated, writes := PatchCurrentResource(spoke, gvr, m, current, answer);
        } else {
          result, updated, writes := Ok(current), false, 0;
        }
    }
  }

  /** One iteration of applyManifests: decode, add the owner, apply, and record the outcome. */
  method ApplyNext(spoke: SpokeCluster, mapper: RestMapper, index: nat, manifest: Manifest, owner: OwnerRef,
      answer: ApplyAnswer)
    returns (result: ApplyResult, ghost writes: nat)
    modifies spoke`objs
    ensures StepOut(spoke.objs, result, writes) == ApplyOne(old(spoke.objs), mapper, index, manifest, owner, answer)
  {
    hide ParseGroupVersion, ApplyPrepared;
    var identifier := ResourceIdentifier(index, "", "", "", "", "", "");
    result, writes := ApplyResult(identifier, 0, false, None), 0;
    match Decode(mapper, manifest) {
      case Bad(e, rawObj) =>
        if rawObj.Some? {
          var o := rawObj.value;
          identifier := identifier.(group := GvkOf(o).group, version := GvkOf(o).version, kind := GvkOf(o).kind);
          identifier := identifier.(namespace := o.namespace, name := o.name);
        }
        result := result.(identifier := identifier, error := Some(e));
      case Good(gvr, o) =>
        var rawObj := new Unstructured(o);
        rawObj.AddOwnerRef(owner);
        var applied, updated;
        applied, updated, writes := ApplyUnstructured(spoke, gvr, rawObj, answer);
        result := result.(identifier := BuildResourceIdentifier(index, o, gvr), updated := updated);
        match applied {
          case Ok(actual) => result := result.(generation := actual.live.generation);
          case Err(e) => result := result.(error := Some(e));
        }
    }
  }

  method ApplyManifests(spoke: SpokeCluster, mapper: RestMapper, manifests: seq<Manifest>, owner: OwnerRef,
      answers: ApplyAnswers)
    returns (results: seq<ApplyResult>, ghost writes: nat)
    modifies spoke`objs
    ensures AllOut(spoke.objs, results, writes) == ApplyAll(old(spoke.objs), mapper, manifests, owner, answers)
  {
    hide ApplyOne, Run;
    results, writes := [], 0;
    for index := 0 to |manifests|
      invariant AllOut(spoke.objs, results, writes) ==
                ApplyUpTo(old(spoke.objs), mapper, manifests, owner, answers, index)
    {
      spoke.Interfere(answers.before(index));
      var result, w := ApplyNext(spoke, mapper, index, manifests[index], owner, answers.answer(index));
      results := results + [result];
      writes := writes + w;
    }
  }

  // ---------------------------------------------------------------------------------
  // Independence of the manifests of one work.
  // ---------------------------------------------------------------------------------

  predicate SameAt(a: Objects, b: Objects, t: Target) {
    (t in a <==> t in b) && (t in a ==> a[t] == b[t])
  }

  /** Where a manifest is applied, if it decodes and has a mapping. */
  function ManifestTarget(mapper: RestMapper, m: Manifest): Option<Target> {
    match Decode(mapper, m)
    case Bad(_, _) => None
    case Good(gvr, o) => Some(TargetOf(gvr, o))
  }

  predicate Named(mapper: RestMapper, m: Manifest) {
    var d := Decode(mapper, m);
    d.Good? ==> !HasGeneratedName(d.obj)
  }

  predicate DistinctTargets(mapper: RestMapper, ms: seq<Manifest>) {
    && (forall i :: 0 <= i < |ms| ==> Named(mapper, ms[i]))
    && forall i, j :: 0 <= i < j < |ms| && ManifestTarget(mapper, ms[i]).Some? ==>
                        ManifestTarget(mapper, ms[i]) != ManifestTarget(mapper, ms[j])
  }

  /** Two steps on one target: the same outcome, the same object there, and nothing else touched. */
  predicate SameStep(x: ApplyOut, y: ApplyOut, t: Target) {
    && x.result == y.result && x.updated == y.updated && x.writes == y.writes
    && SameAt(x.objs, y.objs, t)
  }

  lemma CreateIsLocal(a: Objects, b: Objects, gvr: Gvr, m: Obj, answer: ApplyAnswer)
    requires !HasGeneratedName(m) && SameAt(a, b, TargetOf(gvr, m))
    ensures SameStep(CreateStep(a, gvr, m, answer), CreateStep(b, gvr, m, answer), TargetOf(gvr, m))
  {
  }

  lemma PatchIsLocal(a: Objects, b: Objects, gvr: Gvr, m: Obj, answer: ApplyAnswer)
    requires TargetOf(gvr, m) in a && SameAt(a, b, TargetOf(gvr, m))
    ensures SameStep(PatchStep(a, gvr, m, answer), PatchStep(b, gvr, m, answer), TargetOf(gvr, m))
  {
    hide Merge, WithLastApplied;
  }

  lemma PreparedIsLocal(a: Objects, b: Objects, gvr: Gvr, m: Obj, answer: ApplyAnswer)
    requires !HasGeneratedName(m) && SameAt(a, b, TargetOf(gvr, m))
    ensures SameStep(ApplyPrepared(a, gvr, m, answer), ApplyPrepared(b, gvr, m, answer), TargetOf(gvr, m))
  {
    hide CreateStep, PatchStep, IsManagedByWork, Annotation;
    CreateIsLocal(a, b, gvr, m, answer);
    if TargetOf(gvr, m) in a {
      PatchIsLocal(a, b, gvr, m, answer);
    }
  }

  /** A named apply looks at and writes its own target only. */
  lemma ApplyIsLocal(a: Objects, b: Objects, gvr: Gvr, o: Obj, owner: OwnerRef, answer: ApplyAnswer)
    requires !HasGeneratedName(o) && SameAt(a, b, TargetOf(gvr, o))
    ensures var x, y := ApplyManifest(a, gvr, o, owner, answer), ApplyManifest(b, gvr, o, owner, answer);
            && SameStep(x, y, TargetOf(gvr, o))
            && forall t :: t != TargetOf(gvr, o) ==> SameAt(x.objs, a, t)
  {
    hide ApplyPrepared, ManifestHash, Add;
    PreparedIsLocal(a, b, gvr, Prepared(o, owner), answer);
    ApplyFrame(a, gvr, o, owner, answer);
  }

  lemma ApplyOneIsLocal(a: Objects, b: Objects, mapper: RestMapper, index: nat, m: Manifest, owner: OwnerRef,
      answer: ApplyAnswer)
    requires Named(mapper, m)
    requires ManifestTarget(mapper, m).Some? ==> SameAt(a, b, ManifestTarget(mapper, m).value)
    ensures var x, y := ApplyOne(a, mapper, index, m, owner, answer), ApplyOne(b, mapper, index, m, owner, answer);
            && x.result == y.result && x.writes == y.writes
            && (ManifestTarget(mapper, m).Some? ==> SameAt(x.objs, y.objs, ManifestTarget(mapper, m).value))
            && forall t :: ManifestTarget(mapper, m) != Some(t) ==> SameAt(x.objs, a, t)
  {
    hide ParseGroupVersion, ApplyManifest;
    match Decode(mapper, m)
    case Bad(_, _) =>
    case Good(gvr, o) => ApplyIsLocal(a, b, gvr, o, owner, answer);
  }

  /** After the first k manifests, the object at t is as the manifest aiming at it leaves it alone, or as it was. */
  ghost predicate AloneAt(objs: Objects, mapper: RestMapper, ms: seq<Manifest>, owner: OwnerRef, answers: ApplyAnswers,
      k: nat, t: Target)
    requires k <= |ms|
  {
    var after := ApplyUpTo(objs, mapper, ms, owner, answers, k).objs;
    && (forall i :: 0 <= i < k && ManifestTarget(mapper, ms[i]) == Some(t) ==>
                      SameAt(after, ApplyOne(objs, mapper, i, ms[i], owner, answers.answer(i)).objs, t))
    && ((forall i :: 0 <= i < k ==> ManifestTarget(mapper, ms[i]) != Some(t)) ==> SameAt(after, objs, t))
  }

  lemma {:induction false} TargetsAreIndependent(objs: Objects, mapper: RestMapper, ms: seq<Manifest>, owner: OwnerRef,
      answers: ApplyAnswers, k: nat, t: Target)
    requires k <= |ms| && DistinctTargets(mapper, ms) && Undisturbed(answers.before)
    ensures AloneAt(objs, mapper, ms, owner, answers, k, t)
  {
    hide ApplyOne, ManifestTarget, Named;
    if k > 0 {
      TargetsAreIndependent(objs, mapper, ms, owner, answers, k - 1, t);
      var done := ApplyUpTo(objs, mapper, ms, owner, answers, k - 1).objs;
      assert answers.before(k - 1) == [] && Run(done, []) == done;
      ApplyOneIsLocal(done, if ManifestTarget(mapper, ms[k - 1]) == Some(t) then objs else done, mapper, k - 1,
        ms[k - 1], owner, answers.answer(k - 1));
    }
  }

  lemma {:induction false} OutcomesAreIndependent(objs: Objects, mapper: RestMapper, ms: seq<Manifest>,
      owner: OwnerRef, answers: ApplyAnswers, k: nat, i: nat)
    requires i < k <= |ms| && DistinctTargets(mapper, ms) && Undisturbed(answers.before)
    ensures ApplyUpTo(objs, mapper, ms, owner, answers, k).results[i] ==
            ApplyOne(objs, mapper, i, ms[i], owner, answers.answer(i)).result
  {
    hide ApplyOne, ManifestTarget, Named;
    if i < k - 1 {
      OutcomesAreIndependent(objs, mapper, ms, owner, answers, k - 1, i);
    } else {
      var done := ApplyUpTo(objs, mapper, ms, owner, answers, i).objs;
      var t := ManifestTarget(mapper, ms[i]);
      assert answers.before(i) == [] && Run(done, []) == done;
      if t.Some? {
        TargetsAreIndependent(objs, mapper, ms, owner, answers, i, t.value);
      }
      ApplyOneIsLocal(done, objs, mapper, i, ms[i], owner, answers.answer(i));
    }
  }

  /**
   Each manifest has the outcome it would have alone, result i has its identifier and ordinal,
   and the objects are those of the starting state with each target as its own apply leaves it.
   */
  lemma ManifestsAreIndependent(objs: Objects, mapper: RestMapper, ms: seq<Manifest>, owner: OwnerRef,
      answers: ApplyAnswers)
    requires DistinctTargets(mapper, ms) && Undisturbed(answers.before)
    ensures var out := ApplyAll(objs, mapper, ms, owner, answers);
            && (forall i :: 0 <= i < |ms| ==>
                              && out.results[i] == ApplyOne(objs, mapper, i, ms[i], owner, answers.answer(i)).result
                              && out.results[i].identifier == IdentifierOf(mapper, i, ms[i])
                              && out.results[i].identifier.ordinal == i)
            && (forall t :: AloneAt(objs, mapper, ms, owner, answers, |ms|, t))
  {
    hide ApplyOne, IdentifierOf, ApplyUpTo, AloneAt, ManifestTarget, Named;
    var out := ApplyAll(objs, mapper, ms, owner, answers);
    forall i | 0 <= i < |ms|
      ensures out.results[i] == ApplyOne(objs, mapper, i, ms[i], owner, answers.answer(i)).result
      ensures out.results[i].identifier == IdentifierOf(mapper, i, ms[i])
      ensures out.results[i].identifier.ordinal == i
    {
      OutcomesAreIndependent(objs, mapper, ms, owner, answers, |ms|, i);
      IdentifierOfResult(objs, mapper, i, ms[i], owner, answers.answer(i));
    }
    forall t ensures AloneAt(objs, mapper, ms, owner, answers, |ms|, t) {
      TargetsAreIndependent(objs, mapper, ms, owner, answers, |ms|, t);
    }
  }

  lemma IdentifierOfResult(objs: Objects, mapper: RestMapper, index: nat, m: Manifest, owner: OwnerRef,
      answer: ApplyAnswer)
    ensures ApplyOne(objs, mapper, index, m, owner, answer).result.identifier == IdentifierOf(mapper, index, m)
    ensures IdentifierOf(mapper, index, m).ordinal == index
  {
    hide ParseGroupVersion, ApplyManifest;
  }

  lemma ObjectsIgnoreIndex(objs: Objects, mapper: RestMapper, i: nat, j: nat, m: Manifest, owner: OwnerRef,
      answer: ApplyAnswer)
    ensures ApplyOne(objs, mapper, i, m, owner, answer).objs == ApplyOne(objs, mapper, j, m, owner, answer).objs
  {
    hide ParseGroupVersion, ApplyManifest;
  }

  predicate IsPermutation(p: seq<nat>) {
    && (forall k :: 0 <= k < |p| ==> p[k] < |p|)
    && (forall i, j :: 0 <= i < j < |p| ==> p[i] != p[j])
    && (forall i :: 0 <= i < |p| ==> i in p)
  }

  function Permuted<T>(s: seq<T>, p: seq<nat>): seq<T>
    requires |p| == |s| && IsPermutation(p)
  {
    seq(|p|, k requires 0 <= k < |p| => s[p[k]])
  }

  /** The final objects do not depend on the order of the manifests. */
  lemma OrderDoesNotMatter(objs: Objects, mapper: RestMapper, ms: seq<Manifest>, p: seq<nat>, owner: OwnerRef,
      answers: ApplyAnswers, answers': ApplyAnswers)
    requires |p| == |ms| && IsPermutation(p) && DistinctTargets(mapper, ms)
    requires Undisturbed(answers.before) && Undisturbed(answers'.before)
    requires forall k :: 0 <= k < |p| ==> answers'.answer(k) == answers.answer(p[k])
    ensures ApplyAll(objs, mapper, ms, owner, answers).objs ==
            ApplyAll(objs, mapper, Permuted(ms, p), owner, answers').objs
  {
    hide ApplyOne, ParseGroupVersion, IdentifierOf, ApplyUpTo, ManifestTarget, Named;
    var ms' := Permuted(ms, p);
    PermutedTargets(mapper, ms, p);
    var a, b := ApplyAll(objs, mapper, ms, owner, answers).objs, ApplyAll(objs, mapper, ms', owner, answers').objs;
    forall t ensures SameAt(a, b, t) {
      TargetsAreIndependent(objs, mapper, ms, owner, answers, |ms|, t);
      TargetsAreIndependent(objs, mapper, ms', owner, answers', |ms'|, t);
      if i :| 0 <= i < |ms| && ManifestTarget(mapper, ms[i]) == Some(t) {
        assert i in p;
        var k :| 0 <= k < |p| && p[k] == i;
        assert ms'[k] == ms[i];
        ObjectsIgnoreIndex(objs, mapper, i, k, ms[i], owner, answers.answer(i));
      } else {
        assert forall k :: 0 <= k < |ms'| ==> ms'[k] == ms[p[k]];
        assert SameAt(a, objs, t) && SameAt(b, objs, t);
      }
    }
    assert a.Keys == b.Keys by {
      forall t ensures t in a <==> t in b { assert SameAt(a, b, t); }
    }
    forall t | t in a ensures a[t] == b[t] { assert SameAt(a, b, t); }
  }

  lemma PermutedTargets(mapper: RestMapper, ms: seq<Manifest>, p: seq<nat>)
    requires |p| == |ms| && IsPermutation(p) && DistinctTargets(mapper, ms)
    ensures DistinctTargets(mapper, Permuted(ms, p))
  {
    hide ManifestTarget, Named;
    var ms' := Permuted(ms, p);
    forall i, j | 0 <= i < j < |ms'| && ManifestTarget(mapper, ms'[i]).Some?
      ensures ManifestTarget(mapper, ms'[i]) != ManifestTarget(mapper, ms'[j])
    {
      assert ms'[i] == ms[p[i]] && ms'[j] == ms[p[j]];
    }
  }
}
