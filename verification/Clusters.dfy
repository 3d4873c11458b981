/** The two clusters as the controller's clients see them. Every call takes the server's answer as a parameter. */
module Clusters {
  import opened Wrappers
  import opened Manifests
  import opened WorkApi
  import opened Spoke
  import opened SpokeRuns
  import opened Lifecycle

  class HubCluster {
    var works: map<string, Work>
    var clock: nat

    constructor ()
      ensures State() == HubState(map[], 0)
    {
      works, clock := map[], 0;
    }

    function State(): HubState
      reads this
    {
      HubState(works, clock)
    }

    method GetWork(name: string, fault: Option<string>) returns (r: Result<Work, ApiError>)
      ensures r == HubGet(State(), name, fault)
    {
      r := HubGet(State(), name, fault);
    }

    method UpdateWork(name: string, local: Work, fault: Option<string>) returns (r: Result<Work, ApiError>)
      modifies this
      ensures HubOut(State(), r) == HubUpdate(old(State()), name, local, fault)
    {
      var out := HubUpdate(State(), name, local, fault);
      works, clock, r := out.hub.works, out.hub.clock, out.result;
    }

    method UpdateWorkStatus(name: string, local: Work, fault: Option<string>) returns (r: Result<Work, ApiError>)
      modifies this
      ensures HubOut(State(), r) == HubUpdateStatus(old(State()), name, local, fault)
    {
      var out := HubUpdateStatus(State(), name, local, fault);
      works, clock, r := out.hub.works, out.hub.clock, out.result;
    }
  }

  class SpokeCluster {
    var objs: Objects
    var applied: map<string, AppliedWork>
    var clock: nat

    constructor ()
      ensures objs == map[] && Registered() == Registry(map[], 0)
    {
      objs, applied, clock := map[], map[], 0;
    }

    function Registered(): Registry
      reads this
    {
      Registry(applied, clock)
    }

    /** What others do to the cluster's objects in between two steps of this controller. */
    method Interfere(acts: seq<Action>)
      modifies this`objs
      ensures objs == Run(old(objs), acts)
    {
      objs := Run(objs, acts);
    }

    method GetObject(t: Target, fault: Option<string>) returns (r: Result<Obj, ApiError>)
      ensures r == Get(objs, t, fault)
    {
      r := Get(objs, t, fault);
    }

    method CreateObject(gvr: Gvr, o: Obj, fault: Option<string>, server: ServerFields) returns (r: Result<Obj,
        ApiError>)
      modifies this`objs
      ensures r == Create(old(objs), gvr, o, fault, server)
      ensures objs == if r.Ok? then old(objs)[CreateTarget(gvr, o, server) := r.value] else old(objs)
    {
      r := Create(objs, gvr, o, fault, server);
      if r.Ok? {
        objs := objs[CreateTarget(gvr, o, server) := r.value];
      }
    }

    method PatchObject(t: Target, manifest: Obj, fault: Option<string>, server: ServerFields) returns (r: Result<Obj,
        ApiError>)
      requires t in objs
      modifies this`objs
      ensures r == if fault.Some? then Err(Unavailable(fault.value)) else Ok(Patched(old(objs)[t], manifest, server))
      ensures objs == if r.Ok? then old(objs)[t := r.value] else old(objs)
    {
      if fault.Some? {
        return Err(Unavailable(fault.value));
      }
      objs := objs[t := Patched(objs[t], manifest, server)];
      return Ok(objs[t]);
    }

    method UpdateObject(t: Target, o: Obj, fault: Option<string>, live: Live) returns (error: Option<ApiError>)
      requires t in objs
      modifies this`objs
      ensures error == if fault.Some? then Some(Unavailable(fault.value)) else None
      ensures objs == if error.None? then old(objs)[t := o.(live := live)] else old(objs)
    {
      if fault.Some? {
        return Some(Unavailable(fault.value));
      }
      objs := objs[t := o.(live := live)];
      return None;
    }

    method DeleteObject(t: Target, fault: Option<string>) returns (error: Option<ApiError>)
      modifies this`objs
      ensures error == if fault.Some? then Some(Unavailable(fault.value)) else if t !in old(objs) then Some(NotFound)
              else None
      ensures objs == if error.None? then old(objs) - {t} else old(objs)
    {
      if fault.Some? {
        return Some(Unavailable(fault.value));
      }
      if t !in objs {
        return Some(NotFound);
      }
      objs := objs - {t};
      return None;
    }

    method GetAppliedWork(name: string, fault: Option<string>) returns (r: Result<AppliedWork, ApiError>)
      ensures r == GetApplied(Registered(), name, fault)
    {
      r := GetApplied(Registered(), name, fault);
    }

    method CreateAppliedWork(name: string, fault: Option<string>, uid: string) returns (r: Result<AppliedWork,
        ApiError>)
      modifies this`applied, this`clock
      ensures RegistryOut(Registered(), r) == CreateApplied(old(Registered()), name, fault, uid)
    {
      var out := CreateApplied(Registered(), name, fault, uid);
      applied, clock, r := out.registry.applied, out.registry.clock, out.result;
    }

    method DeleteAppliedWork(name: string, fault: Option<string>) returns (error: Option<ApiError>)
      modifies this`applied, this`clock
      ensures (Registered(), error) == DeleteApplied(old(Registered()), name, fault)
    {
      var out := DeleteApplied(Registered(), name, fault);
      applied, clock, error := out.0.applied, out.0.clock, out.1;
    }

    method UpdateAppliedWorkStatus(name: string, local: AppliedWork,
        fault: Option<string>) returns (r: Result<AppliedWork, ApiError>)
      modifies this`applied, this`clock
      ensures RegistryOut(Registered(), r) == UpdateAppliedStatus(old(Registered()), name, local, fault)
    {
      var out := UpdateAppliedStatus(Registered(), name, local, fault);
      applied, clock, r := out.registry.applied, out.registry.clock, out.result;
    }
  }
}
