/** Several works applying one manifest: convergence to the union of owners, and the run that breaks it. */
module Sharing {
  import opened Wrappers
  import opened GroupVersions
  import opened OwnerReferences
  import opened Manifests
  import opened Spoke
  import opened SpokeRuns

  /** One apply of the shared manifest, by a work, with the API's answers. */
  datatype Writer = Writer(work: string, uid: string, answer: ApplyAnswer)

  function RefOf(w: Writer): OwnerRef {
    ControllerRef(w.work, w.uid)
  }

  /** The outcome of the last apply of a non-empty sequence. */
  function LastOut(objs: Objects, gvr: Gvr, m: Obj, ws: seq<Writer>): ApplyOut
    requires ws != []
    decreases |ws|, 0
  {
    var n := |ws| - 1;
    ApplyManifest(ApplyBy(objs, gvr, m, ws[..n]), gvr, m, RefOf(ws[n]), ws[n].answer)
  }

  function ApplyBy(objs: Objects, gvr: Gvr, m: Obj, ws: seq<Writer>): Objects
    decreases |ws|, 1
  {
    if ws == [] then objs else LastOut(objs, gvr, m, ws).objs
  }

  /** The writers whose apply succeeded, in order. */
  function Successes(objs: Objects, gvr: Gvr, m: Obj, ws: seq<Writer>): seq<Writer>
    decreases |ws|
  {
    if ws == [] then []
    else
      var n := |ws| - 1;
      Successes(objs, gvr, m, ws[..n]) + (if LastOut(objs, gvr, m, ws).result.Ok? then [ws[n]] else [])
  }

  function OwnersAt(objs: Objects, t: Target): seq<OwnerRef> {
    if t in objs then objs[t].owners else []
  }

  /** An owner from before, one the manifest carries itself, or some writer's reference refers to x's object. */
  ghost predicate Wanted(olds: seq<OwnerRef>, m: Obj, ws: seq<Writer>, x: OwnerRef) {
    || Represents(olds, x)
    || Represents(m.owners, x)
    || exists k :: 0 <= k < |ws| && SameObject(RefOf(ws[k]), x)
  }

  lemma AppendInjective<T>(s: seq<T>, a: T, b: T)
    ensures s + [a] == s + [b] ==> a == b
  {
    assert (s + [a])[|s|] == a;
    assert (s + [b])[|s|] == b;
  }

  /** Two owners prepare a manifest identically only if they are equal or it lists both already, verbatim. */
  lemma SamePreparation(owners: seq<OwnerRef>, a: OwnerRef, b: OwnerRef)
    ensures Add(owners, a) == Add(owners, b) <==>
            || a == b
            || (Represents(owners, a) && owners[IndexOf(owners, a)] == a && Represents(owners, b)
              && owners[IndexOf(owners, b)] == b)
  {
    hide ParseGroupVersion;
    var x, y := Add(owners, a), Add(owners, b);
    var i, j := IndexOf(owners, a), IndexOf(owners, b);
    AppendInjective(owners, a, b);
    if i >= 0 && j >= 0 {
      assert x[i] == a && y[i] == (if i == j then b else owners[i]);
      assert y[j] == b && x[j] == (if i == j then a else owners[j]);
    }
    if Represents(owners, a) && owners[IndexOf(owners, a)] == a && Represents(owners, b)
      && owners[IndexOf(owners, b)] == b {
      assert Add(owners, a) == owners;
      assert Add(owners, b) == owners;
    }
  }

  /** An apply never drops an owner of an object it finds, nor moves one. */
  lemma ApplyNeverShrinks(objs: Objects, gvr: Gvr, m: Obj, owner: OwnerRef, answer: ApplyAnswer, t: Target)
    requires t in objs
    ensures var after := ApplyManifest(objs, gvr, m, owner, answer).objs;
            && t in after
            && |objs[t].owners| <= |after[t].owners|
            && forall i :: 0 <= i < |objs[t].owners| ==>
                             after[t].owners[i] == objs[t].owners[i]
                               || SameObject(after[t].owners[i], objs[t].owners[i])
  {
    hide ParseGroupVersion, ApplyPrepared;
    var out := ApplyManifest(objs, gvr, m, owner, answer);
    ApplyFrame(objs, gvr, m, owner, answer);
    if out.written == Some(t) {
      ApplyWrites(objs, gvr, m, owner, answer);
      MergeFacts(objs[t].owners, Add(m.owners, owner));
    }
  }

  /** What holds of the shared object after a non-empty sequence of successful applies. */
  ghost predicate Converged(objs: Objects, t: Target, olds: seq<OwnerRef>, m: Obj, ws: seq<Writer>)
    requires ws != []
  {
    && t in objs
    && NoDuplicates(objs[t].owners)
    && (forall x :: Represents(objs[t].owners, x) <==> Wanted(olds, m, ws, x))
    && Annotation(objs[t], MANIFEST_HASH) == Some(ManifestHash(WithOwner(m, RefOf(ws[|ws| - 1]))))
  }

  lemma WantedStep(olds: seq<OwnerRef>, m: Obj, ws: seq<Writer>, w: Writer, x: OwnerRef)
    ensures Wanted(olds, m, ws + [w], x) <==> Wanted(olds, m, ws, x) || SameObject(RefOf(w), x)
  {
    hide ParseGroupVersion;
    var all := ws + [w];
    if exists k :: 0 <= k < |ws| && SameObject(RefOf(ws[k]), x) {
      var k :| 0 <= k < |ws| && SameObject(RefOf(ws[k]), x);
      assert SameObject(RefOf(all[k]), x);
    }
    assert RefOf(all[|ws|]) == RefOf(w);
  }

  /** Merging the prepared owners of one more writer extends the union by that writer. */
  lemma MergedOwnersAreWanted(owners: seq<OwnerRef>, olds: seq<OwnerRef>, m: Obj, ws: seq<Writer>, w: Writer,
      x: OwnerRef)
    requires Represents(owners, x) || Represents(m.owners, x) <==> Wanted(olds, m, ws, x)
    ensures Represents(Merge(owners, Add(m.owners, RefOf(w))), x) <==> Wanted(olds, m, ws + [w], x)
  {
    hide ParseGroupVersion, SameObject, Represents;
    WantedStep(olds, m, ws, w, x);
    AddRepresents(m.owners, RefOf(w), x);
    MergeRepresents(owners, Add(m.owners, RefOf(w)), x);
  }

  /** A writer whose preparation is the previous one's is already in the union. */
  lemma SameWriterIsWanted(olds: seq<OwnerRef>, m: Obj, ws: seq<Writer>, w: Writer, x: OwnerRef)
    requires ws != [] && Add(m.owners, RefOf(w)) == Add(m.owners, RefOf(ws[|ws| - 1]))
    ensures Wanted(olds, m, ws + [w], x) <==> Wanted(olds, m, ws, x)
  {
    hide ParseGroupVersion, SameObject, Represents;
    var n := |ws| - 1;
    assert ws[..n] + [ws[n]] == ws;
    WantedStep(olds, m, ws, w, x);
    WantedStep(olds, m, ws[..n], ws[n], x);
    AddRepresents(m.owners, RefOf(w), x);
    AddRepresents(m.owners, RefOf(ws[n]), x);
  }

  /** The hash is written with the current owners covered, and nothing has been stripped since. */
  ghost predicate Unstripped(objs: Objects, t: Target) {
    t in objs && Managed(objs, t) ==> Agrees(objs[t], t, {})
  }

  /** Everything the live hash covers is an owner. */
  lemma CoveredIsRepresented(o: Obj, t: Target, m: Obj, w: Writer, x: OwnerRef)
    requires Agrees(o, t, {}) && Annotation(o, MANIFEST_HASH) == Some(ManifestHash(WithOwner(m, RefOf(w))))
    requires Represents(Add(m.owners, RefOf(w)), x)
    ensures Represents(o.owners, x)
  {
    hide ParseGroupVersion;
    var news := Add(m.owners, RefOf(w));
    var i :| 0 <= i < |news| && SameObject(news[i], x);
    assert HashedContent(WithOwner(m, RefOf(w))).owners == news;
    SameObjectIsPartialEquivalence(news[i], x, news[i]);
    assert news[i] in news && Parseable(news[i]);
    var j :| 0 <= j < |o.owners| && SameObject(o.owners[j], news[i]);
    SameObjectIsPartialEquivalence(o.owners[j], news[i], x);
  }

  /** The first success, on a target that is absent or in agreement with its hash. */
  lemma FirstApplyConverges(objs: Objects, gvr: Gvr, m: Obj, w: Writer)
    requires !HasGeneratedName(m) && NoDuplicates(m.owners) && Unstripped(objs, TargetOf(gvr, m))
    requires ApplyManifest(objs, gvr, m, RefOf(w), w.answer).result.Ok?
    ensures var t := TargetOf(gvr, m);
            var out := ApplyManifest(objs, gvr, m, RefOf(w), w.answer);
            && Converged(out.objs, t, OwnersAt(objs, t), m, [w])
            && (out.updated <==>
                  t !in objs || Annotation(objs[t], MANIFEST_HASH) != Some(ManifestHash(WithOwner(m, RefOf(w)))))
  {
    hide ParseGroupVersion, SameObject, Represents, ApplyManifest, Wanted, Unstripped, NoDuplicates, ManifestHash;
    var t, olds := TargetOf(gvr, m), OwnersAt(objs, TargetOf(gvr, m));
    var out := ApplyManifest(objs, gvr, m, RefOf(w), w.answer);
    FirstIsTidy(objs, gvr, m, w);
    forall x ensures Represents(out.objs[t].owners, x) <==> Wanted(olds, m, [w], x) {
      FirstOwners(objs, gvr, m, w, x);
    }
  }

  lemma FirstIsTidy(objs: Objects, gvr: Gvr, m: Obj, w: Writer)
    requires !HasGeneratedName(m) && NoDuplicates(m.owners) && Unstripped(objs, TargetOf(gvr, m))
    requires ApplyManifest(objs, gvr, m, RefOf(w), w.answer).result.Ok?
    ensures var t, hash := TargetOf(gvr, m), ManifestHash(WithOwner(m, RefOf(w)));
            var out := ApplyManifest(objs, gvr, m, RefOf(w), w.answer);
            && t in out.objs && NoDuplicates(out.objs[t].owners) && Annotation(out.objs[t], MANIFEST_HASH) == Some(hash)
            && (out.updated <==> t !in objs || Annotation(objs[t], MANIFEST_HASH) != Some(hash))
  {
    hide ParseGroupVersion, SameObject, Represents, ApplyManifest, NoDuplicates, ManifestHash, IsManagedByWork;
    ApplyFrame(objs, gvr, m, RefOf(w), w.answer);
    ApplyDecision(objs, gvr, m, RefOf(w), w.answer);
    if ApplyManifest(objs, gvr, m, RefOf(w), w.answer).updated {
      ApplyWrites(objs, gvr, m, RefOf(w), w.answer);
      AddFacts(m.owners, RefOf(w));
      if TargetOf(gvr, m) in objs {
        MergeFacts(objs[TargetOf(gvr, m)].owners, Add(m.owners, RefOf(w)));
      }
    }
  }

  lemma FirstOwners(objs: Objects, gvr: Gvr, m: Obj, w: Writer, x: OwnerRef)
    requires !HasGeneratedName(m) && NoDuplicates(m.owners) && Unstripped(objs, TargetOf(gvr, m))
    requires ApplyManifest(objs, gvr, m, RefOf(w), w.answer).result.Ok?
    ensures var t := TargetOf(gvr, m);
            var after := ApplyManifest(objs, gvr, m, RefOf(w), w.answer).objs;
            t in after && (Represents(after[t].owners, x) <==> Wanted(OwnersAt(objs, t), m, [w], x))
  {
    hide ParseGroupVersion, SameObject, Represents, ApplyPrepared, NoDuplicates;
    var t, olds := TargetOf(gvr, m), OwnersAt(objs, TargetOf(gvr, m));
    var out := ApplyManifest(objs, gvr, m, RefOf(w), w.answer);
    ApplyFrame(objs, gvr, m, RefOf(w), w.answer);
    ApplyDecision(objs, gvr, m, RefOf(w), w.answer);
    assert [] + [w] == [w];
    WantedStep(olds, m, [], w, x);
    AddRepresents(m.owners, RefOf(w), x);
    NobodyRepresented(x);
    if out.updated {
      ApplyWrites(objs, gvr, m, RefOf(w), w.answer);
      MergeRepresents(olds, Add(m.owners, RefOf(w)), x);
    } else if Represents(Add(m.owners, RefOf(w)), x) {
      CoveredIsRepresented(objs[t], t, m, w, x);
    }
  }

  lemma NobodyRepresented(x: OwnerRef)
    ensures !Represents([], x)
  {
  }

  lemma NextApplyConverges(objs: Objects, gvr: Gvr, olds: seq<OwnerRef>, m: Obj, ws: seq<Writer>, w: Writer)
    requires !HasGeneratedName(m) && ws != []
    requires Converged(objs, TargetOf(gvr, m), olds, m, ws)
    requires ApplyManifest(objs, gvr, m, RefOf(w), w.answer).result.Ok?
    ensures Converged(ApplyManifest(objs, gvr, m, RefOf(w), w.answer).objs, TargetOf(gvr, m), olds, m, ws + [w])
    ensures ApplyManifest(objs, gvr, m, RefOf(w), w.answer).updated <==>
            Add(m.owners, RefOf(w)) != Add(m.owners, RefOf(ws[|ws| - 1]))
  {
    hide ParseGroupVersion, SameObject, Represents, ApplyPrepared, Wanted;
    var out := ApplyManifest(objs, gvr, m, RefOf(w), w.answer);
    var t, last := TargetOf(gvr, m), ws[|ws| - 1];
    ApplyFrame(objs, gvr, m, RefOf(w), w.answer);
    ApplyDecision(objs, gvr, m, RefOf(w), w.answer);
    HashCovers(WithOwner(m, RefOf(w)), WithOwner(m, RefOf(last)));
    if out.updated {
      ApplyWrites(objs, gvr, m, RefOf(w), w.answer);
      MergeFacts(objs[t].owners, Add(m.owners, RefOf(w)));
      forall x ensures Represents(out.objs[t].owners, x) <==> Wanted(olds, m, ws + [w], x) {
        ManifestOwnersAreWanted(olds, m, ws, x);
        MergedOwnersAreWanted(objs[t].owners, olds, m, ws, w, x);
      }
    } else {
      forall x ensures Represents(out.objs[t].owners, x) <==> Wanted(olds, m, ws + [w], x) {
        SameWriterIsWanted(olds, m, ws, w, x);
      }
    }
  }

  lemma ManifestOwnersAreWanted(olds: seq<OwnerRef>, m: Obj, ws: seq<Writer>, x: OwnerRef)
    ensures Represents(m.owners, x) ==> Wanted(olds, m, ws, x)
  {
  }

  /** Whether the last of a sequence of applies finds its own hash on the target. */
  predicate FindsOwnHash(objs: Objects, gvr: Gvr, m: Obj, ws: seq<Writer>)
    requires ws != []
  {
    var n := |ws| - 1;
    var before := Successes(objs, gvr, m, ws[..n]);
    if before != [] then Add(m.owners, RefOf(ws[n])) == Add(m.owners, RefOf(before[|before| - 1]))
    else
      var t := TargetOf(gvr, m);
      t in objs && Annotation(objs[t], MANIFEST_HASH) == Some(ManifestHash(WithOwner(m, RefOf(ws[n]))))
  }

  /**
   Any number of works applying one manifest, in any order and any number of times, with any
   failures, on a target that is absent, foreign, or agrees with its hash: failed applies change
   nothing, after the first success the owners are the duplicate-free union of the ones that
   were there, the manifest's own and the successful writers', and an apply is reported as an
   update exactly when it succeeds and its writer prepares the manifest differently from the
   last successful one.
   */
  lemma {:induction false} SharingConverges(objs: Objects, gvr: Gvr, m: Obj, ws: seq<Writer>)
    requires !HasGeneratedName(m) && NoDuplicates(m.owners) && Unstripped(objs, TargetOf(gvr, m))
    ensures var t, after, done := TargetOf(gvr, m), ApplyBy(objs, gvr, m, ws), Successes(objs, gvr, m, ws);
            if done == [] then after == objs else Converged(after, t, OwnersAt(objs, t), m, done)
    ensures ws != [] ==>
              var out := LastOut(objs, gvr, m, ws); out.updated <==> out.result.Ok? && !FindsOwnHash(objs, gvr, m, ws)
    decreases |ws|
  {
    hide ParseGroupVersion, SameObject, Represents, ApplyManifest, Prepared, Converged, Add, NoDuplicates, Unstripped;
    if ws != [] {
      var n := |ws| - 1;
      var w, before := ws[n], ApplyBy(objs, gvr, m, ws[..n]);
      SharingConverges(objs, gvr, m, ws[..n]);
      ApplyFrame(before, gvr, m, RefOf(w), w.answer);
      if LastOut(objs, gvr, m, ws).result.Ok? {
        assert Successes(objs, gvr, m, ws) == Successes(objs, gvr, m, ws[..n]) + [w];
        if Successes(objs, gvr, m, ws[..n]) == [] {
          assert Successes(objs, gvr, m, ws) == [w];
          FirstApplyConverges(objs, gvr, m, w);
        } else {
          NextApplyConverges(before, gvr, OwnersAt(objs, TargetOf(gvr, m)), m, Successes(objs, gvr, m, ws[..n]), w);
        }
      } else {
        assert Successes(objs, gvr, m, ws) == Successes(objs, gvr, m, ws[..n]);
      }
    }
  }

  /** A sound history in which nothing was stripped from the target is such a start. */
  lemma SoundIsUnstripped(h: History, t: Target)
    requires Sound(h) && forall name :: (t, name) !in h.stripped
    ensures Unstripped(h.objs, t)
  {
  }

  /**
   Why re-adding is excluded: two works share a manifest, the first one writes last, drops it,
   and adds it again. The apply succeeds as up to date, and the first work is not an owner.
   This holds for every manifest without owners of its own and whatever the server fills in.
   */
  lemma ReAddedManifestIsNotOwned(objs: Objects, gvr: Gvr, m: Obj, a: Writer, b: Writer, clean: CleanAnswer)
    requires m.name != "" && m.owners == [] && TargetOf(gvr, m) !in objs
    requires a.work != b.work
    requires a.answer.getFault.None? && a.answer.writeFault.None?
    requires b.answer.getFault.None? && b.answer.writeFault.None?
    requires clean.getFault.None? && clean.writeFault.None?
    ensures var t := TargetOf(gvr, m);
            var apply := Apply(gvr, m, a.work, a.uid, a.answer);
            var objs' := Run(objs,
              [apply, Apply(gvr, m, b.work, b.uid, b.answer), apply, Clean(t, a.work, a.uid, clean)]);
            var out := ApplyManifest(objs', gvr, m, RefOf(a), a.answer);
            out.result.Ok? && !out.updated && !Owns(out.objs, t, a.work)
  {
    hide ParseGroupVersion, SameObject, ApplyManifest, CleanStale, Owns;
    var t := TargetOf(gvr, m);
    var act1, act2 := Apply(gvr, m, a.work, a.uid, a.answer), Apply(gvr, m, b.work, b.uid, b.answer);
    var act4 := Clean(t, a.work, a.uid, clean);
    var o1 := Do(objs, act1);
    var o2 := Do(o1, act2);
    var o3 := Do(o2, act1);
    RunFour(objs, act1, act2, act1, act4);
    FirstWriteSucceeds(objs, gvr, m, a);
    FirstApplyConverges(objs, gvr, m, a);
    SuccessKeepsOriginal(objs, gvr, m, a);
    SharedWriteSucceeds(o1, gvr, m, [a], b);
    NextApplyConverges(o1, gvr, [], m, [a], b);
    SuccessKeepsOriginal(o1, gvr, m, b);
    SharedWriteSucceeds(o2, gvr, m, [a] + [b], a);
    NextApplyConverges(o2, gvr, [], m, [a] + [b], a);
    DroppedAndReAdded(o3, gvr, m, [a] + [b] + [a], a, b, clean);
  }

  /** A successful apply leaves a recorded original where there was one, or nothing at all. */
  lemma SuccessKeepsOriginal(objs: Objects, gvr: Gvr, m: Obj, w: Writer)
    requires !HasGeneratedName(m) && ApplyManifest(objs, gvr, m, RefOf(w), w.answer).result.Ok?
    ensures var t := TargetOf(gvr, m);
            var after := ApplyManifest(objs, gvr, m, RefOf(w), w.answer).objs;
            t in after && (t !in objs || OriginalConfiguration(objs[t]).Ok? ==> OriginalConfiguration(after[t]).Ok?)
  {
    hide ParseGroupVersion, ApplyManifest;
    ApplyFrame(objs, gvr, m, RefOf(w), w.answer);
    ApplyDecision(objs, gvr, m, RefOf(w), w.answer);
    if ApplyManifest(objs, gvr, m, RefOf(w), w.answer).updated {
      ApplyWrites(objs, gvr, m, RefOf(w), w.answer);
    }
  }

  lemma RunFour(objs: Objects, a: Action, b: Action, c: Action, d: Action)
    ensures Run(objs, [a, b, c, d]) == Do(Do(Do(Do(objs, a), b), c), d)
  {
    hide Do;
    assert [a, b, c, d][..3] == [a, b, c];
    assert [a, b, c][..2] == [a, b];
    assert [a, b][..1] == [a];
    assert [a][..0] == [];
    assert Run(objs, [a]) == Do(objs, a);
    assert Run(objs, [a, b]) == Do(Do(objs, a), b);
    assert Run(objs, [a, b, c]) == Do(Do(Do(objs, a), b), c);
  }

  /** Dropping a shared manifest last written by the dropping work, and applying it again. */
  lemma DroppedAndReAdded(objs: Objects, gvr: Gvr, m: Obj, ws: seq<Writer>, a: Writer, b: Writer, clean: CleanAnswer)
    requires m.name != "" && a.work != b.work
    requires ws != [] && a in ws && b in ws && ws[|ws| - 1] == a
    requires Converged(objs, TargetOf(gvr, m), [], m, ws)
    requires a.answer.getFault.None? && a.answer.writeFault.None?
    requires clean.getFault.None? && clean.writeFault.None?
    ensures var t := TargetOf(gvr, m);
            var out := ApplyManifest(Do(objs, Clean(t, a.work, a.uid, clean)), gvr, m, RefOf(a), a.answer);
            out.result.Ok? && !out.updated && !Owns(out.objs, t, a.work)
  {
    hide ParseGroupVersion, SameObject, ApplyPrepared;
    var t := TargetOf(gvr, m);
    var x, y := RefOf(a), RefOf(b);
    var after := Do(objs, Clean(t, a.work, a.uid, clean));
    ControllerRefSame(x, b.work, b.uid);
    ControllerRefSame(y, a.work, a.uid);
    ControllerRefSame(x, a.work, a.uid);
    ControllerRefSame(y, b.work, b.uid);
    var i :| 0 <= i < |ws| && ws[i] == a;
    var j :| 0 <= j < |ws| && ws[j] == b;
    assert Wanted([], m, ws, x) && Wanted([], m, ws, y);
    CleanEffect(objs, t, a.work, a.uid, clean);
    SoleOwner(objs[t].owners, x, y);
    OthersRepresents(objs[t].owners, x, y);
    OthersRepresents(objs[t].owners, x, x);
    OwnsImpliesManaged(after, t, b.work, b.uid);
    OwnsAny(after, t, a.work, a.uid);
    ApplyDecision(after, gvr, m, x, a.answer);
    ApplyFrame(after, gvr, m, x, a.answer);
  }

  lemma FirstWriteSucceeds(objs: Objects, gvr: Gvr, m: Obj, w: Writer)
    requires m.name != "" && TargetOf(gvr, m) !in objs
    requires w.answer.getFault.None? && w.answer.writeFault.None?
    ensures ApplyManifest(objs, gvr, m, RefOf(w), w.answer).result.Ok?
  {
    hide ParseGroupVersion;
  }

  lemma SoleOwner(owners: seq<OwnerRef>, x: OwnerRef, y: OwnerRef)
    requires Represents(owners, x) && Represents(owners, y) && !SameObject(x, y)
    ensures |owners| != 1
  {
    hide ParseGroupVersion;
  }

  /** An apply on a converged object fails only if a call does. */
  lemma SharedWriteSucceeds(objs: Objects, gvr: Gvr, m: Obj, ws: seq<Writer>, w: Writer)
    requires m.name != "" && ws != [] && Converged(objs, TargetOf(gvr, m), [], m, ws)
    requires OriginalConfiguration(objs[TargetOf(gvr, m)]).Ok?
    requires w.answer.getFault.None? && w.answer.writeFault.None?
    ensures ApplyManifest(objs, gvr, m, RefOf(w), w.answer).result.Ok?
  {
    hide ParseGroupVersion;
    var first := RefOf(ws[0]);
    ControllerRefSame(first, ws[0].work, ws[0].uid);
    assert Wanted([], m, ws, first);
    OwnsImpliesManaged(objs, TargetOf(gvr, m), ws[0].work, ws[0].uid);
  }
}
