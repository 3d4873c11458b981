/** The Work and AppliedWork resources (pkg/apis/v1alpha1) as stored by the API servers. */
module WorkApi {
  import opened Manifests

  const WORK_FINALIZER := "fleet.azure.com/work-cleanup"
  const CONDITION_APPLIED := "Applied"

  datatype ResourceIdentifier = ResourceIdentifier(
    ordinal: int, group: string, version: string, kind: string, resource: string, namespace: string, name: string)

  datatype Status = True | False | Unknown

  datatype Condition = Condition(
    ctype: string, status: Status, observedGeneration: int, lastTransitionTime: int, reason: string, message: string)

  datatype ManifestCondition = ManifestCondition(identifier: ResourceIdentifier, conditions: seq<Condition>)

  datatype AppliedResource = AppliedResource(identifier: ResourceIdentifier, uid: string)

  /** A resource version of 0 is the unset one. */
  datatype AppliedWork = AppliedWork(uid: string, resourceVersion: nat, tracked: seq<AppliedResource>)

  /** A manifest in a work's spec: text that does not decode, or an object. */
  datatype Manifest = Undecodable(text: string) | Decoded(obj: Obj)

  datatype WorkStatus = WorkStatus(conditions: seq<Condition>, manifestConditions: seq<ManifestCondition>)

  datatype Work = Work(
    resourceVersion: nat, generation: int, deleting: bool, finalizers: seq<string>,
    manifests: seq<Manifest>, status: WorkStatus)

  /** Every error the API servers or the controller report. */
  datatype ApiError =
    | NotFound
    | AlreadyExists
    | Conflict
    | NameRequired
    | NotManaged
    | DecodeFailed(text: string)
    | NoMapping
    | NoOriginal
    | Unavailable(reason: string)
  {
    function Text(): string {
      match this
      case NotFound => "not found"
      case AlreadyExists => "already exists"
      case Conflict => "the object has been modified"
      case NameRequired => "name is required"
      case NotManaged => "resource is not managed by the work controller"
      case DecodeFailed(t) => "failed to decode object: " + t
      case NoMapping => "failed to find group/version/resource from restmapping"
      case NoOriginal => "object does not have lastAppliedConfigAnnotation"
      case Unavailable(r) => r
    }
  }
}
