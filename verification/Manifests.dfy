/**
 Manifests and live objects, their spec hash and their last-applied annotation.

 JSON text and SHA-256 digests are free constructors of annotation values: two digests are
 equal exactly when they digest the same content.
 */
module Manifests {
  import opened Wrappers
  import opened GroupVersions
  import opened OwnerReferences

  const MANIFEST_HASH := "fleet.azure.com/spec-hash"
  const LAST_APPLIED := "fleet.azure.com/last-applied-configuration"

  datatype Value = Text(text: string) | Digest(content: Obj) | Json(content: Obj)

  type Annotations = map<string, Value>

  /** The fields the API server fills in. */
  datatype Live = Live(
    uid: string, resourceVersion: string, generation: int, selfLink: string,
    deletionTimestamp: Option<int>, creationTimestamp: Option<int>, managedFields: string)

  const NO_LIVE := Live("", "", 0, "", None, None, "")

  /** An unstructured object; `body` is everything the controller does not look into (labels, spec, data). */
  datatype Obj = Obj(
    apiVersion: string, kind: string, namespace: string, name: string, generateName: string,
    owners: seq<OwnerRef>, annotations: Option<Annotations>, body: string, status: string, live: Live)

  datatype Gvk = Gvk(group: string, version: string, kind: string)

  /** GroupVersionKind() of an object whose API version does not parse is empty. */
  function GvkOf(o: Obj): Gvk {
    match ParseGroupVersion(o.apiVersion)
    case Some(gv) => Gvk(gv.group, gv.version, o.kind)
    case None => Gvk("", "", "")
  }

  /** GetAnnotations returns an empty map for an absent field when only read. */
  function AnnotationsOf(o: Obj): Annotations {
    match o.annotations
    case Some(a) => a
    case None => map[]
  }

  /** The annotation under a key, absent when the key is. */
  function Annotation(o: Obj, key: string): Option<Value> {
    if key in AnnotationsOf(o) then Some(AnnotationsOf(o)[key]) else None
  }

  /** SetAnnotations with nil for an empty map: the field disappears. */
  function OrAbsent(a: Annotations): Option<Annotations> {
    if a == map[] then None else Some(a)
  }

  // ---------------------------------------------------------------------------------
  // Specification of the setters.
  // ---------------------------------------------------------------------------------

  /** The content the hash covers. */
  function HashedContent(o: Obj): Obj {
    o.(annotations := OrAbsent(AnnotationsOf(o) - {MANIFEST_HASH, LAST_APPLIED}), live := NO_LIVE, status := "")
  }

  function ManifestHash(o: Obj): Value {
    Digest(HashedContent(o))
  }

  function WithHash(o: Obj): Obj {
    o.(annotations := Some(AnnotationsOf(o)[MANIFEST_HASH := ManifestHash(o)]))
  }

  function WithoutLastApplied(o: Obj): Obj {
    o.(annotations := OrAbsent(AnnotationsOf(o) - {LAST_APPLIED}))
  }

  function WithLastApplied(o: Obj): Obj {
    o.(annotations := Some(AnnotationsOf(o)[LAST_APPLIED := Json(WithoutLastApplied(o))]))
  }

  function WithOwner(o: Obj, r: OwnerRef): Obj {
    o.(owners := Add(o.owners, r))
  }

  /** A manifest as it is hashed and compared: the owner added, then the hash annotated. */
  function Prepared(manifest: Obj, owner: OwnerRef): Obj {
    WithHash(WithOwner(manifest, owner))
  }

  /** getOriginalConfiguration: the recorded text, or an error when there is none. */
  function OriginalConfiguration(o: Obj): Result<Value, string> {
    match Annotation(o, LAST_APPLIED)
    case Some(v) => Ok(v)
    case None => Err("object does not have lastAppliedConfigAnnotation")
  }

  // ---------------------------------------------------------------------------------
  // The object the controller edits in place.
  // ---------------------------------------------------------------------------------

  class Unstructured {
    var obj: Obj

    constructor (o: Obj)
      ensures obj == o
    {
      obj := o;
    }

    /** addOwnerRef */
    method AddOwnerRef(r: OwnerRef)
      modifies this
      ensures obj == WithOwner(old(obj), r)
    {
      var owners := obj.owners;
      var idx := IndexOwnerRef(owners, r);
      if idx == -1 {
        owners := owners + [r];
      } else {
        owners := owners[idx := r];
      }
      obj := obj.(owners := owners);
    }

    method SetOwnerReferences(owners: seq<OwnerRef>)
      modifies this
      ensures obj == old(obj).(owners := owners)
    {
      obj := obj.(owners := owners);
    }

    /** computeManifestHash works on a deep copy and leaves the object alone. */
    method ComputeManifestHash() returns (hash: Value)
      ensures hash == ManifestHash(obj)
    {
      var manifest := obj;
      if manifest.annotations.Some? {
        var annotation := manifest.annotations.value - {MANIFEST_HASH} - {LAST_APPLIED};
        assert annotation == AnnotationsOf(obj) - {MANIFEST_HASH, LAST_APPLIED};
        if |annotation| == 0 {
          manifest := manifest.(annotations := None);
        } else {
          manifest := manifest.(annotations := Some(annotation));
        }
      }
      manifest := manifest.(live := NO_LIVE);
      manifest := manifest.(status := "");
      assert AnnotationsOf(obj) - {MANIFEST_HASH, LAST_APPLIED} == map[] || obj.annotations.Some?;
      hash := Digest(manifest);
    }

    /** setManifestHashAnnotation */
    method SetManifestHashAnnotation()
      modifies this
      ensures obj == WithHash(old(obj))
    {
      var hash := ComputeManifestHash();
      var annotation := AnnotationsOf(obj);
      annotation := annotation[MANIFEST_HASH := hash];
      obj := obj.(annotations := Some(annotation));
    }

    /** setModifiedConfigurationAnnotation */
    method SetModifiedConfigurationAnnotation()
      modifies this
      ensures obj == WithLastApplied(old(obj))
    {
      var annotations := AnnotationsOf(obj) - {LAST_APPLIED};
      if |annotations| == 0 {
        obj := obj.(annotations := None);
      } else {
        obj := obj.(annotations := Some(annotations));
      }
      var modified := Json(obj);
      annotations := annotations[LAST_APPLIED := modified];
      assert annotations == AnnotationsOf(old(obj))[LAST_APPLIED := modified];
      obj := obj.(annotations := Some(annotations));
    }
  }

  // ---------------------------------------------------------------------------------
  // Round trip and hash stability.
  // ---------------------------------------------------------------------------------

  /** Reading back what was recorded gives the object without the recording, and recording is idempotent. */
  lemma LastAppliedRoundTrip(o: Obj)
    ensures OriginalConfiguration(WithLastApplied(o)) == Ok(Json(WithoutLastApplied(o)))
    ensures WithoutLastApplied(WithLastApplied(o)) == WithoutLastApplied(o)
    ensures WithLastApplied(WithLastApplied(o)) == WithLastApplied(o)
  {
    var a := AnnotationsOf(o);
    var v := Json(WithoutLastApplied(o));
    assert a[LAST_APPLIED := v] - {LAST_APPLIED} == a - {LAST_APPLIED};
    assert a[LAST_APPLIED := v][LAST_APPLIED := v] == a[LAST_APPLIED := v];
  }

  /** What is recorded is the whole object, with all its other annotations. */
  lemma RecordingIsComplete(o: Obj)
    ensures var a := WithLastApplied(o).annotations;
            && a.Some? && LAST_APPLIED in a.value && a.value[LAST_APPLIED].Json?
            && var c := a.value[LAST_APPLIED].content;
               && c.(annotations := None) == o.(annotations := None)
               && forall key :: Annotation(c, key) == if key == LAST_APPLIED then None else Annotation(o, key)
  {
  }

  /** Neither annotation setter, nor the status, nor any server-set field moves the hash. */
  lemma HashStable(o: Obj, live: Live, status: string)
    ensures ManifestHash(WithHash(o)) == ManifestHash(o)
    ensures ManifestHash(WithLastApplied(o)) == ManifestHash(o)
    ensures ManifestHash(o.(live := live, status := status)) == ManifestHash(o)
  {
    var a := AnnotationsOf(o);
    var own := {MANIFEST_HASH, LAST_APPLIED};
    assert a[MANIFEST_HASH := ManifestHash(o)] - own == a - own;
    assert a[LAST_APPLIED := Json(WithoutLastApplied(o))] - own == a - own;
  }

  /** Everything else is covered: equal hashes mean equal identity, owners, body and user annotations. */
  lemma HashCovers(o: Obj, p: Obj)
    ensures ManifestHash(o) == ManifestHash(p) <==>
            && o.apiVersion == p.apiVersion && o.kind == p.kind && o.namespace == p.namespace
            && o.name == p.name && o.generateName == p.generateName && o.owners == p.owners && o.body == p.body
            && forall key :: key != MANIFEST_HASH && key != LAST_APPLIED ==> Annotation(o, key) == Annotation(p, key)
  {
    var own := {MANIFEST_HASH, LAST_APPLIED};
    var a, b := AnnotationsOf(o) - own, AnnotationsOf(p) - own;
    forall key | key != MANIFEST_HASH && key != LAST_APPLIED
      ensures Annotation(o, key) == if key in a then Some(a[key]) else None
      ensures Annotation(p, key) == if key in b then Some(b[key]) else None
    {
    }
    assert OrAbsent(a) == OrAbsent(b) <==> a == b;
    if forall key :: key != MANIFEST_HASH && key != LAST_APPLIED ==> Annotation(o, key) == Annotation(p, key) {
      forall key ensures key in a <==> key in b
                 ensures key in a && key in b ==> a[key] == b[key]
      {
        assert key != MANIFEST_HASH && key != LAST_APPLIED ==> Annotation(o, key) == Annotation(p, key);
      }
      assert a == b;
    }
  }

  /** The hash annotation of a prepared manifest, which later annotation edits leave in place. */
  lemma PreparedHash(manifest: Obj, owner: OwnerRef)
    ensures var m := Prepared(manifest, owner);
            && Annotation(m, MANIFEST_HASH) == Some(ManifestHash(WithOwner(manifest, owner)))
            && Annotation(WithLastApplied(m), MANIFEST_HASH) == Annotation(m, MANIFEST_HASH)
            && m.owners == Add(manifest.owners, owner)
            && HashedContent(WithOwner(manifest, owner)).owners == m.owners
            && GvkOf(m) == GvkOf(manifest)
  {
  }
}
