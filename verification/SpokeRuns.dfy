/**
 Runs of the member cluster: any interleaving of atomic apply and clean-up steps of any
 number of works, and of outside changes, with any API answers.
 */
module SpokeRuns {
  import opened Wrappers
  import opened GroupVersions
  import opened OwnerReferences
  import opened Manifests
  import opened Spoke

  /**
   Apply and Clean are steps of the reconcilers, on behalf of the named work. An outside
   change may delete anything and do what it likes to objects no AppliedWork owns; on an
   owned object it keeps the owner list and the hash annotation.
   */
  datatype Action =
    | Apply(gvr: Gvr, manifest: Obj, work: string, uid: string, answer: ApplyAnswer)
    | Clean(target: Target, work: string, uid: string, cleanAnswer: CleanAnswer)
    | Outside(target: Target, change: Option<Obj>)

  predicate Managed(objs: Objects, t: Target) {
    t in objs && IsManagedByWork(objs[t].owners)
  }

  predicate Owns(objs: Objects, t: Target, work: string) {
    t in objs && Represents(objs[t].owners, ControllerRef(work, ""))
  }

  predicate Permitted(objs: Objects, t: Target, change: Option<Obj>) {
    match change
    case None => true
    case Some(o) =>
      if Managed(objs, t) then
        o.owners == objs[t].owners && Annotation(o, MANIFEST_HASH) == Annotation(objs[t], MANIFEST_HASH)
      else !IsManagedByWork(o.owners)
  }

  function Do(objs: Objects, a: Action): Objects {
    match a
    case Apply(gvr, manifest, work, uid, answer) => ApplyManifest(objs, gvr, manifest, ControllerRef(work, uid),
      answer).objs
    case Clean(t, work, uid, answer) => CleanStale(objs, t, ControllerRef(work, uid), answer).objs
    case Outside(t, change) =>
      if !Permitted(objs, t, change) then objs
      else match change
        case None => objs - {t}
        case Some(o) => objs[t := o]
  }

  function Run(objs: Objects, acts: seq<Action>): Objects
    decreases |acts|
  {
    if acts == [] then objs else Do(Run(objs, acts[..|acts| - 1]), acts[|acts| - 1])
  }

  lemma {:induction false} RunConcat(objs: Objects, first: seq<Action>, second: seq<Action>)
    ensures Run(objs, first + second) == Run(Run(objs, first), second)
    decreases |second|
  {
    if second == [] {
      assert first + second == first;
    } else {
      var n := |second| - 1;
      RunConcat(objs, first, second[..n]);
      assert (first + second)[..|first + second| - 1] == first + second[..n];
    }
  }

  /** Nothing happens in between the steps of a pass. */
  ghost predicate Undisturbed(before: nat -> seq<Action>) {
    forall k :: before(k) == []
  }

  /** The controller's input assumption: a manifest does not list the same owner twice. */
  predicate WellFormed(a: Action) {
    a.Apply? ==> NoDuplicates(a.manifest.owners)
  }

  // ---------------------------------------------------------------------------------
  // Foreign objects.
  // ---------------------------------------------------------------------------------

  lemma OwnsImpliesManaged(objs: Objects, t: Target, work: string, uid: string)
    requires t in objs && Represents(objs[t].owners, ControllerRef(work, uid))
    ensures Managed(objs, t)
  {
    OwnedImpliesManaged(objs[t].owners, work, uid);
  }

  /** No step of a reconciler changes or deletes an object without an AppliedWork owner. */
  lemma ForeignUntouchedByStep(objs: Objects, a: Action, t: Target)
    requires !a.Outside?
    requires t in objs && !Managed(objs, t)
    ensures t in Do(objs, a) && Do(objs, a)[t] == objs[t]
  {
    match a
    case Apply(gvr, manifest, work, uid, answer) =>
      var out := ApplyManifest(objs, gvr, manifest, ControllerRef(work, uid), answer);
      ApplyFrame(objs, gvr, manifest, ControllerRef(work, uid), answer);
      if out.written == Some(t) {
        ApplyWrites(objs, gvr, manifest, ControllerRef(work, uid), answer);
        assert false;
      }
    case Clean(u, work, uid, answer) =>
      if u == t && Represents(objs[t].owners, ControllerRef(work, uid)) {
        OwnsImpliesManaged(objs, t, work, uid);
        assert false;
      }
  }

  /** The same over every run of any works' steps, whatever the API answers. */
  lemma {:induction false} ForeignUntouched(objs: Objects, acts: seq<Action>, t: Target)
    requires forall a :: a in acts ==> !a.Outside?
    requires t in objs && !Managed(objs, t)
    ensures t in Run(objs, acts) && Run(objs, acts)[t] == objs[t]
    decreases |acts|
  {
    if acts != [] {
      var n := |acts| - 1;
      ForeignUntouched(objs, acts[..n], t);
      ForeignUntouchedByStep(Run(objs, acts[..n]), acts[n], t);
    }
  }

  // ---------------------------------------------------------------------------------
  // Histories: a run together with the owners stripped since the last create or patch.
  // ---------------------------------------------------------------------------------

  datatype History = History(objs: Objects, stripped: set<(Target, string)>)

  function Forget(stripped: set<(Target, string)>, t: Target): set<(Target, string)> {
    set p | p in stripped && p.0 != t
  }

  function DoH(h: History, a: Action): History {
    var objs := Do(h.objs, a);
    match a
    case Apply(gvr, manifest, work, uid, answer) =>
      var out := ApplyManifest(h.objs, gvr, manifest, ControllerRef(work, uid), answer);
      History(objs, if out.written.Some? then Forget(h.stripped, out.written.value) else h.stripped)
    case Clean(t, work, uid, answer) =>
      History(objs, if objs == h.objs then h.stripped else h.stripped + {(t, work)})
    case Outside(_, _) => History(objs, h.stripped)
  }

  function RunH(h: History, acts: seq<Action>): History
    decreases |acts|
  {
    if acts == [] then h else DoH(RunH(h, acts[..|acts| - 1]), acts[|acts| - 1])
  }

  lemma {:induction false} RunHObjects(h: History, acts: seq<Action>)
    ensures RunH(h, acts).objs == Run(h.objs, acts)
    decreases |acts|
  {
    if acts != [] {
      RunHObjects(h, acts[..|acts| - 1]);
    }
  }

  predicate IsControllerRef(r: OwnerRef) {
    r.apiVersion == WORK_API_VERSION && r.kind == APPLIED_WORK_KIND
  }

  /**
   The hash annotation and the owner list tell the same story: of the references the hash
   covers, one of an AppliedWork that has been stripped since the hash was written is gone,
   and any other one that parses is in the list as covered, UID included.
   */
  ghost predicate Agrees(o: Obj, t: Target, stripped: set<(Target, string)>) {
    && NoDuplicates(o.owners)
    && match Annotation(o, MANIFEST_HASH)
       case Some(Digest(c)) =>
         forall r :: r in c.owners && Parseable(r) ==>
                       if IsControllerRef(r) && (t, r.name) in stripped then !Represents(o.owners, r) else r in o.owners
       case _ => true
  }

  /** Agreement on every object some AppliedWork owns; foreign objects may say anything. */
  ghost predicate Sound(h: History) {
    forall t :: t in h.objs && Managed(h.objs, t) ==> Agrees(h.objs[t], t, h.stripped)
  }

  /** A cluster no AppliedWork owns anything of is a sound start. */
  lemma StartIsSound(objs: Objects)
    requires forall t :: t in objs ==> !Managed(objs, t)
    ensures Sound(History(objs, {}))
  {
  }

  lemma ControllerRefSame(r: OwnerRef, work: string, uid: string)
    requires IsControllerRef(r)
    ensures SameObject(ControllerRef(work, uid), r) <==> r.name == work
  {
    hide ParseGroupVersion;
    SameAsControllerRef(r, work, uid);
    SameObjectIsPartialEquivalence(r, ControllerRef(work, uid), r);
    SameObjectIsPartialEquivalence(ControllerRef(work, uid), r, r);
  }

  lemma ControllerRefIsParseable(r: OwnerRef)
    requires IsControllerRef(r)
    ensures Parseable(r)
  {
    ControllerRefParses(r.name, r.uid);
  }

  lemma ListedIsRepresented(owners: seq<OwnerRef>, r: OwnerRef)
    requires r in owners && Parseable(r)
    ensures Represents(owners, r)
  {
    hide ParseGroupVersion;
    var i :| 0 <= i < |owners| && owners[i] == r;
    assert SameObject(owners[i], r);
  }

  /** A write puts every reference of the prepared manifest into the owner list, as it is. */
  lemma WrittenVerbatim(objs: Objects, a: Action, r: OwnerRef)
    requires a.Apply? && WellFormed(a) && Parseable(r)
    requires r in Add(a.manifest.owners, ControllerRef(a.work, a.uid))
    requires ApplyManifest(objs, a.gvr, a.manifest, ControllerRef(a.work, a.uid), a.answer).written.Some?
    ensures var out := ApplyManifest(objs, a.gvr, a.manifest, ControllerRef(a.work, a.uid), a.answer);
            out.written.value in out.objs && r in out.objs[out.written.value].owners
  {
    hide ParseGroupVersion, ApplyManifest, SameObject, ManifestHash;
    var owner := ControllerRef(a.work, a.uid);
    var t := ApplyManifest(objs, a.gvr, a.manifest, owner, a.answer).written.value;
    ApplyWrites(objs, a.gvr, a.manifest, owner, a.answer);
    AddFacts(a.manifest.owners, owner);
    if t in objs {
      MergeKeepsVerbatim(objs[t].owners, Add(a.manifest.owners, owner), r);
    }
  }

  /** The owners of a written object: no duplicates, and every owner the new hash covers is there. */
  lemma WrittenAgrees(objs: Objects, a: Action, stripped: set<(Target, string)>)
    requires a.Apply? && WellFormed(a)
    requires var out := ApplyManifest(objs, a.gvr, a.manifest, ControllerRef(a.work, a.uid), a.answer);
             && out.written.Some?
             && (out.written.value in objs ==> NoDuplicates(objs[out.written.value].owners))
             && forall name :: (out.written.value, name) !in stripped
    ensures var out := ApplyManifest(objs, a.gvr, a.manifest, ControllerRef(a.work, a.uid), a.answer);
            && out.written.value in out.objs
            && Agrees(out.objs[out.written.value], out.written.value, stripped)
  {
    hide ParseGroupVersion, ApplyManifest, SameObject, Represents, NoDuplicates;
    var owner := ControllerRef(a.work, a.uid);
    var out := ApplyManifest(objs, a.gvr, a.manifest, owner, a.answer);
    var t := out.written.value;
    ApplyWrites(objs, a.gvr, a.manifest, owner, a.answer);
    AddFacts(a.manifest.owners, owner);
    var news := Add(a.manifest.owners, owner);
    if t in objs {
      MergeFacts(objs[t].owners, news);
    }
    forall r | r in news && Parseable(r) ensures r in out.objs[t].owners {
      WrittenVerbatim(objs, a, r);
    }
  }

  lemma ApplyKeepsSound(h: History, a: Action)
    requires a.Apply? && WellFormed(a) && Sound(h)
    ensures Sound(DoH(h, a))
  {
    hide ParseGroupVersion, ApplyManifest, NoDuplicates, Represents, SameObject;
    var owner := ControllerRef(a.work, a.uid);
    var out := ApplyManifest(h.objs, a.gvr, a.manifest, owner, a.answer);
    ApplyFrame(h.objs, a.gvr, a.manifest, owner, a.answer);
    var after := DoH(h, a);
    if out.written.Some? {
      ApplyWrites(h.objs, a.gvr, a.manifest, owner, a.answer);
      WrittenAgrees(h.objs, a, after.stripped);
      forall t | t in after.objs && Managed(after.objs, t) ensures Agrees(after.objs[t], t, after.stripped) {
        if t != out.written.value {
          assert Agrees(h.objs[t], t, h.stripped);
          forall name ensures (t, name) in after.stripped <==> (t, name) in h.stripped {}
        }
      }
    }
  }

  /** What a clean-up step does to an object without duplicate owners. */
  lemma CleanEffect(objs: Objects, t: Target, work: string, uid: string, answer: CleanAnswer)
    requires t in objs ==> (Managed(objs, t) ==> NoDuplicates(objs[t].owners))
    ensures var owner := ControllerRef(work, uid);
            var out := CleanStale(objs, t, owner, answer);
            if out.error.None? && t in objs && Represents(objs[t].owners, owner) then
              if |objs[t].owners| == 1 then out.objs == objs - {t}
              else
                && Others(objs[t].owners, owner) != []
                && out.objs == objs[t := objs[t].(owners := Others(objs[t].owners, owner), live := answer.live)]
            else out.objs == objs
  {
    hide ParseGroupVersion;
    var owner := ControllerRef(work, uid);
    if t in objs && Represents(objs[t].owners, owner) {
      OwnsImpliesManaged(objs, t, work, uid);
      SpliceWithoutDuplicates(objs[t].owners, owner);
    }
  }

  lemma CleanKeepsSound(h: History, a: Action)
    requires a.Clean? && Sound(h)
    ensures Sound(DoH(h, a))
  {
    hide ParseGroupVersion, CleanStale;
    var t, owner := a.target, ControllerRef(a.work, a.uid);
    var after := DoH(h, a);
    CleanEffect(h.objs, t, a.work, a.uid, a.cleanAnswer);
    if after.objs != h.objs {
      OwnsImpliesManaged(h.objs, t, a.work, a.uid);
      assert Agrees(h.objs[t], t, h.stripped);
      forall u | u in after.objs && Managed(after.objs, u) ensures Agrees(after.objs[u], u, after.stripped) {
        assert u in h.objs;
        if u != t {
          assert Agrees(h.objs[u], u, h.stripped);
        } else {
          CleanedAgrees(h.objs[t], t, h.stripped, a.work, a.uid, a.cleanAnswer.live);
        }
      }
    }
  }

  /** Removing one owner and recording it as stripped keeps the agreement. */
  lemma CleanedAgrees(o: Obj, t: Target, stripped: set<(Target, string)>, work: string, uid: string, live: Live)
    requires Agrees(o, t, stripped)
    ensures Agrees(o.(owners := Others(o.owners, ControllerRef(work, uid)), live := live), t, stripped + {(t, work)})
  {
    hide ParseGroupVersion, SameObject, Represents, NoDuplicates;
    var owner := ControllerRef(work, uid);
    OthersRepresents(o.owners, owner, owner);
    forall r
      ensures Represents(Others(o.owners, owner), r) <==>
              Represents(o.owners, r) && !(IsControllerRef(r) && r.name == work)
      ensures r in Others(o.owners, owner) <==> r in o.owners && !(IsControllerRef(r) && r.name == work)
    {
      OthersRepresents(o.owners, owner, r);
      OthersMembers(o.owners, owner, r);
      SameAsControllerRef(r, work, uid);
      SameObjectIsPartialEquivalence(r, owner, r);
      SameObjectIsPartialEquivalence(owner, r, owner);
    }
  }

  lemma OutsideKeepsSound(h: History, a: Action)
    requires a.Outside? && Sound(h)
    ensures Sound(DoH(h, a))
  {
    hide ParseGroupVersion;
    var after := DoH(h, a);
    forall t | t in after.objs && Managed(after.objs, t) ensures Agrees(after.objs[t], t, after.stripped) {
      if t in h.objs && Managed(h.objs, t) {
        assert Agrees(h.objs[t], t, h.stripped);
      }
    }
  }

  /** Hash and ownership agree, and owner lists stay free of duplicates, in every reachable state. */
  lemma {:induction false} SoundInEveryRun(h: History, acts: seq<Action>)
    requires Sound(h)
    requires forall a :: a in acts ==> WellFormed(a)
    ensures Sound(RunH(h, acts))
    decreases |acts|
  {
    if acts != [] {
      var n := |acts| - 1;
      SoundInEveryRun(h, acts[..n]);
      var before := RunH(h, acts[..n]);
      match acts[n]
      case Apply(_, _, _, _, _) => ApplyKeepsSound(before, acts[n]);
      case Clean(_, _, _, _) => CleanKeepsSound(before, acts[n]);
      case Outside(_, _) => OutsideKeepsSound(before, acts[n]);
    }
  }

  // ---------------------------------------------------------------------------------
  // What a successful apply means for ownership.
  // ---------------------------------------------------------------------------------

  lemma OwnsAny(objs: Objects, t: Target, work: string, uid: string)
    requires t in objs
    ensures Owns(objs, t, work) <==> Represents(objs[t].owners, ControllerRef(work, uid))
  {
    hide ParseGroupVersion;
    forall i | 0 <= i < |objs[t].owners|
      ensures SameObject(objs[t].owners[i], ControllerRef(work, uid)) <==>
              SameObject(objs[t].owners[i], ControllerRef(work, ""))
    {
      SameAsControllerRef(objs[t].owners[i], work, uid);
      SameAsControllerRef(objs[t].owners[i], work, "");
    }
  }

  /** The annotation of the live object equals the hash this manifest would be applied with. */
  predicate HashMatches(objs: Objects, a: Action)
    requires a.Apply?
  {
    var t := TargetOf(a.gvr, a.manifest);
    && t in objs
    && Annotation(objs[t], MANIFEST_HASH) == Some(ManifestHash(WithOwner(a.manifest, ControllerRef(a.work, a.uid))))
  }

  /** After a write the owners are those from before, the applying work, and the works its manifest names; no others. */
  lemma WriteOwnsExactly(objs: Objects, a: Action, work: string)
    requires a.Apply?
    requires ApplyManifest(objs, a.gvr, a.manifest, ControllerRef(a.work, a.uid), a.answer).written.Some?
    ensures var out := ApplyManifest(objs, a.gvr, a.manifest, ControllerRef(a.work, a.uid), a.answer);
            Owns(out.objs, out.written.value, work) <==>
            || a.work == work
            || Represents(a.manifest.owners, ControllerRef(work, ""))
            || Owns(objs, out.written.value, work)
  {
    hide ParseGroupVersion, ApplyPrepared, SameObject;
    var owner, me := ControllerRef(a.work, a.uid), ControllerRef(work, "");
    var out := ApplyManifest(objs, a.gvr, a.manifest, owner, a.answer);
    var t := out.written.value;
    ApplyWrites(objs, a.gvr, a.manifest, owner, a.answer);
    ControllerRefSame(me, a.work, a.uid);
    AddRepresents(a.manifest.owners, owner, me);
    if t in objs {
      MergeRepresents(objs[t].owners, Add(a.manifest.owners, owner), me);
    }
  }

  /**
   On a managed object of a sound history that carries the hash this manifest would be applied
   with: the work's current reference, UID included, is an owner exactly unless it was stripped.
   */
  lemma MatchingHashOwns(h: History, a: Action)
    requires Sound(h) && a.Apply? && HashMatches(h.objs, a) && Managed(h.objs, TargetOf(a.gvr, a.manifest))
    ensures var t, me := TargetOf(a.gvr, a.manifest), ControllerRef(a.work, a.uid);
            && (Owns(h.objs, t, a.work) <==> (t, a.work) !in h.stripped)
            && (Owns(h.objs, t, a.work) <==> me in h.objs[t].owners)
  {
    hide ParseGroupVersion, SameObject, Represents, NoDuplicates, Add, IsManagedByWork;
    var t, me := TargetOf(a.gvr, a.manifest), ControllerRef(a.work, a.uid);
    assert Agrees(h.objs[t], t, h.stripped);
    AddFacts(a.manifest.owners, me);
    assert me in HashedContent(WithOwner(a.manifest, me)).owners;
    ControllerRefIsParseable(me);
    OwnsAny(h.objs, t, a.work, a.uid);
    if me in h.objs[t].owners {
      ListedIsRepresented(h.objs[t].owners, me);
    }
  }

  /** A write leaves the applying work's current reference in the list. */
  lemma WriteListsWriter(objs: Objects, a: Action)
    requires a.Apply?
    requires ApplyManifest(objs, a.gvr, a.manifest, ControllerRef(a.work, a.uid), a.answer).written.Some?
    ensures var out := ApplyManifest(objs, a.gvr, a.manifest, ControllerRef(a.work, a.uid), a.answer);
            && Owns(out.objs, out.written.value, a.work)
            && (WellFormed(a) ==> ControllerRef(a.work, a.uid) in out.objs[out.written.value].owners)
  {
    hide ParseGroupVersion, ApplyManifest, SameObject, Represents, NoDuplicates;
    WriteOwnsExactly(objs, a, a.work);
    AddFacts(a.manifest.owners, ControllerRef(a.work, a.uid));
    ControllerRefIsParseable(ControllerRef(a.work, a.uid));
    if WellFormed(a) {
      WrittenVerbatim(objs, a, ControllerRef(a.work, a.uid));
    }
  }

  /**
   In every sound state a successful apply of a named manifest leaves the work as an owner,
   except exactly when it finds its own hash on an object it has been stripped from; and the
   reference it leaves is the one applied with, so the UID of a recreated AppliedWork takes
   the place of an old one.
   */
  lemma SuccessfulApplyOwns(h: History, a: Action)
    requires Sound(h) && a.Apply? && !HasGeneratedName(a.manifest)
    requires ApplyManifest(h.objs, a.gvr, a.manifest, ControllerRef(a.work, a.uid), a.answer).result.Ok?
    ensures var t, me := TargetOf(a.gvr, a.manifest), ControllerRef(a.work, a.uid);
            && t in Do(h.objs, a)
            && Managed(Do(h.objs, a), t)
            && (Owns(Do(h.objs, a), t, a.work) <==> !(HashMatches(h.objs, a) && (t, a.work) in h.stripped))
            && (WellFormed(a) ==> (Owns(Do(h.objs, a), t, a.work) <==> me in Do(h.objs, a)[t].owners))
  {
    hide ParseGroupVersion, ApplyManifest, SameObject, Represents, IsManagedByWork, ManifestHash, Add,
      NoDuplicates, Sound;
    var owner := ControllerRef(a.work, a.uid);
    var out := ApplyManifest(h.objs, a.gvr, a.manifest, owner, a.answer);
    var t := TargetOf(a.gvr, a.manifest);
    ApplyFrame(h.objs, a.gvr, a.manifest, owner, a.answer);
    ApplyDecision(h.objs, a.gvr, a.manifest, owner, a.answer);
    if out.updated {
      WriteListsWriter(h.objs, a);
      assert Managed(out.objs, t) by { OwnerIsManaged(out.objs, t, a.work); }
    } else {
      MatchingHashOwns(h, a);
    }
  }

  lemma OwnerIsManaged(objs: Objects, t: Target, work: string)
    requires Owns(objs, t, work)
    ensures Managed(objs, t)
  {
    OwnsImpliesManaged(objs, t, work, "");
  }

  lemma {:induction false} NotStripped(h: History, acts: seq<Action>, t: Target, work: string)
    requires (t, work) !in h.stripped
    requires forall a :: a in acts && a.Clean? ==> a.target != t || a.work != work
    ensures (t, work) !in RunH(h, acts).stripped
    decreases |acts|
  {
    if acts != [] {
      NotStripped(h, acts[..|acts| - 1], t, work);
    }
  }

  /** In every run in which the work has not cleaned this object up before, a successful apply makes it an owner. */
  lemma SuccessfulApplyOwnsUnlessReAdded(h: History, acts: seq<Action>, a: Action)
    requires Sound(h) && h.stripped == {}
    requires forall b :: b in acts ==> WellFormed(b)
    requires a.Apply? && !HasGeneratedName(a.manifest)
    requires forall b :: b in acts && b.Clean? ==> b.target != TargetOf(a.gvr, a.manifest) || b.work != a.work
    ensures ApplyManifest(Run(h.objs, acts), a.gvr, a.manifest, ControllerRef(a.work, a.uid), a.answer).result.Ok? ==>
              var t, after := TargetOf(a.gvr, a.manifest), Run(h.objs, acts + [a]);
              Owns(after, t, a.work) && (WellFormed(a) ==> ControllerRef(a.work, a.uid) in after[t].owners)
  {
    hide ApplyManifest, Sound, HashMatches, Represents, Managed;
    SoundInEveryRun(h, acts);
    RunHObjects(h, acts);
    NotStripped(h, acts, TargetOf(a.gvr, a.manifest), a.work);
    assert (acts + [a])[..|acts|] == acts;
    if ApplyManifest(Run(h.objs, acts), a.gvr, a.manifest, ControllerRef(a.work, a.uid), a.answer).result.Ok? {
      SuccessfulApplyOwns(RunH(h, acts), a);
    }
  }

  // ---------------------------------------------------------------------------------
  // Lifetime of shared objects.
  // ---------------------------------------------------------------------------------

  /** What a clean-up step may do: remove exactly the one owner, and delete only a sole owner's object. */
  ghost predicate OnlyReleases(before: Objects, a: Action, out: CleanOut)
    requires a.Clean?
  {
    var t, owner := a.target, ControllerRef(a.work, a.uid);
    && (forall u :: u != t ==> (u in before <==> u in out.objs) && (u in before ==> out.objs[u] == before[u]))
    && (t !in before ==> t !in out.objs)
    && (t in before && t !in out.objs ==> |before[t].owners| == 1 && SameObject(before[t].owners[0], owner))
    && (t in before && t in out.objs ==>
          && out.objs[t] == before[t].(owners := out.objs[t].owners, live := out.objs[t].live)
          && out.objs[t].owners == (if out.error.None? then Others(before[t].owners, owner) else before[t].owners))
  }

  lemma CleanOnlyReleases(objs: Objects, a: Action)
    requires a.Clean?
    requires Managed(objs, a.target) ==> NoDuplicates(objs[a.target].owners)
    ensures OnlyReleases(objs, a, CleanStale(objs, a.target, ControllerRef(a.work, a.uid), a.cleanAnswer))
  {
    hide ParseGroupVersion, CleanStale, SameObject, NoDuplicates, IsManagedByWork, Others;
    var t, owner := a.target, ControllerRef(a.work, a.uid);
    CleanEffect(objs, t, a.work, a.uid, a.cleanAnswer);
    if t in objs && !Represents(objs[t].owners, owner) {
      OthersOfUnmatched(objs[t].owners, owner);
    }
  }

  /**
   In every reachable state owner lists of managed objects have no duplicates, and a clean-up
   step deletes an object only when the cleaning work is its sole owner; otherwise a
   successful one removes exactly that owner and keeps the others in order.
   */
  lemma SharedObjectLifetime(h: History, acts: seq<Action>, a: Action)
    requires Sound(h)
    requires forall b :: b in acts ==> WellFormed(b)
    requires a.Clean?
    ensures var before := Run(h.objs, acts);
            && (forall t :: t in before && Managed(before, t) ==> NoDuplicates(before[t].owners))
            && Run(h.objs, acts + [a]) == CleanStale(before, a.target, ControllerRef(a.work, a.uid), a.cleanAnswer).objs
            && OnlyReleases(before, a, CleanStale(before, a.target, ControllerRef(a.work, a.uid), a.cleanAnswer))
  {
    hide ParseGroupVersion, CleanStale, OnlyReleases;
    SoundInEveryRun(h, acts);
    RunHObjects(h, acts);
    var before := Run(h.objs, acts);
    assert (acts + [a])[..|acts|] == acts;
    forall t | t in before && Managed(before, t) ensures NoDuplicates(before[t].owners) {
      assert Agrees(before[t], t, RunH(h, acts).stripped);
    }
    CleanOnlyReleases(before, a);
  }

  // ---------------------------------------------------------------------------------
  // Other works' steps never make a work an owner.
  // ---------------------------------------------------------------------------------

  /** A step that is not the named work's, and whose manifest does not name it as an owner. */
  predicate ForeignTo(a: Action, work: string) {
    match a
    case Apply(_, manifest, w, _, _) => w != work && !Represents(manifest.owners, ControllerRef(work, ""))
    case Clean(_, w, _, _) => w != work
    case Outside(_, _) => true
  }

  lemma ForeignStepDoesNotOwn(objs: Objects, a: Action, t: Target, work: string)
    requires ForeignTo(a, work) && !Owns(objs, t, work)
    ensures !Owns(Do(objs, a), t, work)
  {
    hide ParseGroupVersion, ApplyPrepared;
    var me := ControllerRef(work, "");
    match a
    case Apply(gvr, manifest, w, uid, answer) =>
      var owner := ControllerRef(w, uid);
      var out := ApplyManifest(objs, gvr, manifest, owner, answer);
      ApplyFrame(objs, gvr, manifest, owner, answer);
      if out.written == Some(t) {
        WriteOwnsExactly(objs, a, work);
      }
    case Clean(u, w, uid, answer) =>
      if u == t && t in objs {
        SpliceIntroducesNothing(objs[t].owners, ControllerRef(w, uid), me, |objs[t].owners|);
      }
    case Outside(u, change) =>
      if u == t && Owns(Do(objs, a), t, work) {
        OwnsImpliesManaged(Do(objs, a), t, work, "");
      }
  }

  lemma {:induction false} SpliceIntroducesNothing(owners: seq<OwnerRef>, r: OwnerRef, x: OwnerRef, k: nat)
    requires k <= |owners| && !Represents(owners, x)
    ensures !Represents(SpliceUpTo(owners, r, k), x)
  {
    hide ParseGroupVersion;
    if k > 0 {
      SpliceIntroducesNothing(owners, r, x, k - 1);
    }
  }

  lemma {:induction false} ForeignRunDoesNotOwn(objs: Objects, acts: seq<Action>, t: Target, work: string)
    requires forall a :: a in acts ==> ForeignTo(a, work)
    requires !Owns(objs, t, work)
    ensures !Owns(Run(objs, acts), t, work)
    decreases |acts|
  {
    if acts != [] {
      var n := |acts| - 1;
      ForeignRunDoesNotOwn(objs, acts[..n], t, work);
      ForeignStepDoesNotOwn(Run(objs, acts[..n]), acts[n], t, work);
    }
  }

  // ---------------------------------------------------------------------------------
  // Owner lists without duplicates, as an invariant of its own.
  // ---------------------------------------------------------------------------------

  /** No managed object lists an owner twice. */
  ghost predicate Tidy(objs: Objects) {
    forall t :: t in objs && Managed(objs, t) ==> NoDuplicates(objs[t].owners)
  }

  lemma ApplyKeepsTidy(objs: Objects, a: Action)
    requires a.Apply? && Tidy(objs) && WellFormed(a)
    ensures Tidy(Do(objs, a))
  {
    hide ParseGroupVersion, SameObject, ApplyPrepared, NoDuplicates, IsManagedByWork;
    var owner := ControllerRef(a.work, a.uid);
    var out := ApplyManifest(objs, a.gvr, a.manifest, owner, a.answer);
    ApplyFrame(objs, a.gvr, a.manifest, owner, a.answer);
    if out.written.Some? {
      var t := out.written.value;
      ApplyWrites(objs, a.gvr, a.manifest, owner, a.answer);
      AddFacts(a.manifest.owners, owner);
      if t in objs {
        assert Managed(objs, t);
        MergeFacts(objs[t].owners, Add(a.manifest.owners, owner));
      }
    }
  }

  lemma CleanKeepsTidy(objs: Objects, t: Target, work: string, uid: string, answer: CleanAnswer)
    requires Tidy(objs)
    ensures Tidy(CleanStale(objs, t, ControllerRef(work, uid), answer).objs)
  {
    hide ParseGroupVersion, SameObject, CleanStale, NoDuplicates, IsManagedByWork;
    var owner := ControllerRef(work, uid);
    CleanEffect(objs, t, work, uid, answer);
    if t in objs && Represents(objs[t].owners, owner) {
      OwnsImpliesManaged(objs, t, work, uid);
      OthersRepresents(objs[t].owners, owner, owner);
    }
  }

  lemma StepKeepsTidy(objs: Objects, a: Action)
    requires Tidy(objs) && WellFormed(a)
    ensures Tidy(Do(objs, a))
  {
    hide ParseGroupVersion, ApplyPrepared, CleanStale, NoDuplicates, IsManagedByWork;
    match a
    case Apply(_, _, _, _, _) => ApplyKeepsTidy(objs, a);
    case Clean(t, work, uid, answer) => CleanKeepsTidy(objs, t, work, uid, answer);
    case Outside(_, _) =>
  }

  lemma {:induction false} RunKeepsTidy(objs: Objects, acts: seq<Action>)
    requires Tidy(objs)
    requires forall a :: a in acts ==> WellFormed(a)
    ensures Tidy(Run(objs, acts))
    decreases |acts|
  {
    if acts != [] {
      var n := |acts| - 1;
      RunKeepsTidy(objs, acts[..n]);
      StepKeepsTidy(Run(objs, acts[..n]), acts[n]);
    }
  }

  /** A successful clean-up of a tidy state leaves the work without ownership of the target. */
  lemma CleanedIsNotOwned(objs: Objects, t: Target, work: string, uid: string, answer: CleanAnswer)
    requires Tidy(objs)
    requires CleanStale(objs, t, ControllerRef(work, uid), answer).error.None?
    ensures !Owns(CleanStale(objs, t, ControllerRef(work, uid), answer).objs, t, work)
  {
    hide ParseGroupVersion, CleanStale;
    var owner := ControllerRef(work, uid);
    var after := CleanStale(objs, t, owner, answer).objs;
    CleanEffect(objs, t, work, uid, answer);
    if t in objs {
      OwnsAny(objs, t, work, uid);
      OthersRepresents(objs[t].owners, owner, owner);
      ControllerRefSame(owner, work, uid);
    }
    if t in after {
      OwnsAny(after, t, work, uid);
    }
  }

  /** Clean-up steps, whoever takes them, make nobody an owner. */
  lemma CleanDoesNotOwn(objs: Objects, u: Target, w: string, uid: string, answer: CleanAnswer, t: Target, work: string)
    requires !Owns(objs, t, work)
    ensures !Owns(CleanStale(objs, u, ControllerRef(w, uid), answer).objs, t, work)
  {
    hide ParseGroupVersion;
    if u == t && t in objs {
      SpliceIntroducesNothing(objs[t].owners, ControllerRef(w, uid), ControllerRef(work, ""), |objs[t].owners|);
    }
  }
}
