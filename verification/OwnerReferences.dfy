/** Owner reference lists: search, insert, merge, and the removal loop of the stale clean-up. */
module OwnerReferences {
  import opened Wrappers
  import opened GroupVersions

  datatype OwnerRef = OwnerRef(apiVersion: string, kind: string, name: string, uid: string,
    blockOwnerDeletion: Option<bool>)

  predicate Parseable(r: OwnerRef) {
    ParseGroupVersion(r.apiVersion).Some?
  }

  /** isReferSameObject: the UID and the flags do not count. */
  predicate SameObject(a: OwnerRef, b: OwnerRef) {
    var agv, bgv := ParseGroupVersion(a.apiVersion), ParseGroupVersion(b.apiVersion);
    && agv.Some?
    && bgv.Some?
    && agv.value.group == bgv.value.group
    && agv.value.version == bgv.value.version
    && a.kind == b.kind
    && a.name == b.name
  }

  /** The reference the controller writes for a work's AppliedWork. */
  function ControllerRef(name: string, uid: string): OwnerRef {
    OwnerRef(WORK_API_VERSION, APPLIED_WORK_KIND, name, uid, Some(false))
  }

  /** isManifestManagedByWork compares the raw strings and does not parse. */
  predicate IsManagedByWork(owners: seq<OwnerRef>) {
    exists i :: 0 <= i < |owners| && owners[i].apiVersion == WORK_API_VERSION && owners[i].kind == APPLIED_WORK_KIND
  }

  /** Some entry of the list refers to the same object as r. */
  predicate Represents(owners: seq<OwnerRef>, r: OwnerRef) {
    exists i :: 0 <= i < |owners| && SameObject(owners[i], r)
  }

  predicate NoDuplicates(owners: seq<OwnerRef>) {
    forall i, j :: 0 <= i < j < |owners| ==> !SameObject(owners[i], owners[j])
  }

  /** The first index that refers to the same object, or -1. */
  function IndexOf(owners: seq<OwnerRef>, r: OwnerRef): (i: int)
    ensures -1 <= i < |owners|
    ensures i == -1 <==> !Represents(owners, r)
    ensures i >= 0 ==> SameObject(owners[i], r) && forall j :: 0 <= j < i ==> !SameObject(owners[j], r)
  {
    if owners == [] then -1
    else if SameObject(owners[0], r) then 0
    else
      var k := IndexOf(owners[1..], r);
      assert owners[1..] == owners[1..|owners|];
      assert forall j :: 0 < j < |owners| ==> owners[j] == owners[1..][j - 1];
      if k == -1 then -1 else k + 1
  }

  lemma IndexOfIs(owners: seq<OwnerRef>, r: OwnerRef, i: nat)
    requires i < |owners| && SameObject(owners[i], r)
    requires forall j :: 0 <= j < i ==> !SameObject(owners[j], r)
    ensures IndexOf(owners, r) == i
  {
  }

  function Add(owners: seq<OwnerRef>, r: OwnerRef): seq<OwnerRef> {
    var i := IndexOf(owners, r);
    if i == -1 then owners + [r] else owners[i := r]
  }

  function Merge(owners: seq<OwnerRef>, news: seq<OwnerRef>): seq<OwnerRef>
    decreases |news|
  {
    if news == [] then owners
    else Add(Merge(owners, news[..|news| - 1]), news[|news| - 1])
  }

  // ---------------------------------------------------------------------------------
  // The methods of owner_reference_util.go.
  // ---------------------------------------------------------------------------------

  method IndexOwnerRef(owners: seq<OwnerRef>, r: OwnerRef) returns (index: int)
    ensures index == IndexOf(owners, r)
  {
    hide ParseGroupVersion;
    for i := 0 to |owners|
      invariant forall j :: 0 <= j < i ==> !SameObject(owners[j], r)
    {
      if SameObject(owners[i], r) {
        IndexOfIs(owners, r, i);
        return i;
      }
    }
    return -1;
  }

  method MergeOwnerReference(current: seq<OwnerRef>, news: seq<OwnerRef>) returns (owners: seq<OwnerRef>)
    ensures owners == Merge(current, news)
  {
    hide ParseGroupVersion;
    owners := current;
    for k := 0 to |news|
      invariant owners == Merge(current, news[..k])
    {
      var idx := IndexOwnerRef(owners, news[k]);
      assert news[..k + 1][..k] == news[..k];
      if idx == -1 {
        owners := owners + [news[k]];
      } else {
        owners := owners[idx := news[k]];
      }
    }
    assert news[..|news|] == news;
  }

  // ---------------------------------------------------------------------------------
  // Algebra of the "same object" relation.
  // ---------------------------------------------------------------------------------

  /** A partial equivalence, reflexive exactly on parseable references. */
  lemma SameObjectIsPartialEquivalence(a: OwnerRef, b: OwnerRef, c: OwnerRef)
    ensures SameObject(a, a) <==> Parseable(a)
    ensures SameObject(a, b) ==> SameObject(b, a)
    ensures SameObject(a, b) && SameObject(b, c) ==> SameObject(a, c)
  {
  }

  /** The same on the raw fields: kind and name agree, and API versions that parse agree up to a leading slash. */
  lemma SameObjectExactly(a: OwnerRef, b: OwnerRef)
    ensures SameObject(a, b) <==>
            && !TwoSlashes(a.apiVersion) && !TwoSlashes(b.apiVersion)
            && a.kind == b.kind && a.name == b.name
            && (|| a.apiVersion == b.apiVersion
                || a.apiVersion == "/" + b.apiVersion
                || b.apiVersion == "/" + a.apiVersion)
  {
    hide ParseGroupVersion, TwoSlashes;
    ParsesExactly(a.apiVersion);
    ParsesExactly(b.apiVersion);
    if !TwoSlashes(a.apiVersion) && !TwoSlashes(b.apiVersion) {
      SameParse(a.apiVersion, b.apiVersion);
    }
  }

  lemma ControllerRefParses(name: string, uid: string)
    ensures ParseGroupVersion(ControllerRef(name, uid).apiVersion) == Some(GroupVersion(WORK_GROUP, WORK_VERSION))
  {
    WorkApiVersionIsUnique(WORK_API_VERSION);
  }

  /** Being the same object as the controller's own reference is decided by the raw strings. */
  lemma SameAsControllerRef(r: OwnerRef, name: string, uid: string)
    ensures SameObject(r, ControllerRef(name, uid)) <==>
            r.apiVersion == WORK_API_VERSION && r.kind == APPLIED_WORK_KIND && r.name == name
  {
    ControllerRefParses(name, uid);
    WorkApiVersionIsUnique(r.apiVersion);
  }

  /** The parsed comparison implies the raw-string test of isManifestManagedByWork. */
  lemma OwnedImpliesManaged(owners: seq<OwnerRef>, name: string, uid: string)
    requires Represents(owners, ControllerRef(name, uid))
    ensures IsManagedByWork(owners)
  {
    var i :| 0 <= i < |owners| && SameObject(owners[i], ControllerRef(name, uid));
    SameAsControllerRef(owners[i], name, uid);
  }

  // ---------------------------------------------------------------------------------
  // Algebra of insertion and merge.
  // ---------------------------------------------------------------------------------

  /** Insertion touches one position, which keeps referring to the same object. */
  lemma AddFacts(owners: seq<OwnerRef>, r: OwnerRef)
    ensures |owners| <= |Add(owners, r)| <= |owners| + 1
    ensures |Add(owners, r)| == |owners| <==> Represents(owners, r)
    ensures forall i :: 0 <= i < |owners| ==> Add(owners, r)[i] == owners[i] || SameObject(Add(owners, r)[i], owners[i])
    ensures r in Add(owners, r)
    ensures Parseable(r) ==> Represents(Add(owners, r), r)
    ensures NoDuplicates(owners) ==> NoDuplicates(Add(owners, r))
  {
    hide ParseGroupVersion;
    var after := Add(owners, r);
    var i := IndexOf(owners, r);
    assert after[if i == -1 then |owners| else i] == r;
    if NoDuplicates(owners) && i == -1 {
      forall j | 0 <= j < |owners| ensures !SameObject(owners[j], r) {}
    }
  }

  /** The objects represented after an insertion are the old ones and the new one. */
  lemma AddRepresents(owners: seq<OwnerRef>, r: OwnerRef, x: OwnerRef)
    ensures Represents(Add(owners, r), x) <==> Represents(owners, x) || SameObject(r, x)
  {
    hide ParseGroupVersion;
    var after := Add(owners, r);
    var i := IndexOf(owners, r);
    if Represents(owners, x) {
      var j :| 0 <= j < |owners| && SameObject(owners[j], x);
      assert SameObject(after[j], x);
    }
    if SameObject(r, x) {
      assert SameObject(after[if i == -1 then |owners| else i], x);
    }
    if Represents(after, x) {
      var j :| 0 <= j < |after| && SameObject(after[j], x);
      if j < |owners| && after[j] == owners[j] {
        assert SameObject(owners[j], x);
      }
    }
  }

  lemma InitRepresents(news: seq<OwnerRef>, x: OwnerRef)
    requires news != []
    ensures Represents(news, x) <==> Represents(news[..|news| - 1], x) || SameObject(news[|news| - 1], x)
  {
    hide ParseGroupVersion;
    var init := news[..|news| - 1];
    if Represents(init, x) {
      var j :| 0 <= j < |init| && SameObject(init[j], x);
      assert SameObject(news[j], x);
    }
    if Represents(news, x) && !SameObject(news[|news| - 1], x) {
      var j :| 0 <= j < |news| && SameObject(news[j], x);
      assert SameObject(init[j], x);
    }
  }

  /** Positions survive, the length is bounded, and duplicates are not introduced. */
  lemma {:induction false} MergeFacts(owners: seq<OwnerRef>, news: seq<OwnerRef>)
    ensures |owners| <= |Merge(owners, news)| <= |owners| + |news|
    ensures forall i :: 0 <= i < |owners| ==>
                          Merge(owners, news)[i] == owners[i] || SameObject(Merge(owners, news)[i], owners[i])
    ensures NoDuplicates(owners) ==> NoDuplicates(Merge(owners, news))
    decreases |news|
  {
    hide ParseGroupVersion;
    if news != [] {
      var init, last := news[..|news| - 1], news[|news| - 1];
      MergeFacts(owners, init);
      AddFacts(Merge(owners, init), last);
    }
  }

  /** A merged list represents exactly the old and the new owners. */
  lemma {:induction false} MergeRepresents(owners: seq<OwnerRef>, news: seq<OwnerRef>, x: OwnerRef)
    ensures Represents(Merge(owners, news), x) <==> Represents(owners, x) || Represents(news, x)
    decreases |news|
  {
    hide ParseGroupVersion;
    if news != [] {
      var init, last := news[..|news| - 1], news[|news| - 1];
      MergeRepresents(owners, init, x);
      AddRepresents(Merge(owners, init), last, x);
      InitRepresents(news, x);
    }
  }

  /** The last new owner that refers to the same object as x wins its position. */
  function LastSame(news: seq<OwnerRef>, x: OwnerRef): (r: OwnerRef)
    requires Represents(news, x)
    ensures SameObject(r, x) && r in news
    decreases |news|
  {
    var last := news[|news| - 1];
    if SameObject(last, x) then last
    else
      assert Represents(news[..|news| - 1], x) by {
        var j :| 0 <= j < |news| && SameObject(news[j], x);
        assert SameObject(news[..|news| - 1][j], x);
      }
      LastSame(news[..|news| - 1], x)
  }

  /** Replacing entries by ones for the same object does not move any object's first index. */
  lemma SameKeysSameIndex(a: seq<OwnerRef>, b: seq<OwnerRef>, x: OwnerRef)
    requires |a| <= |b|
    requires forall i :: 0 <= i < |a| ==> b[i] == a[i] || SameObject(b[i], a[i])
    requires IndexOf(a, x) >= 0
    ensures IndexOf(b, x) == IndexOf(a, x)
  {
    var i := IndexOf(a, x);
    IndexOfIs(b, x, i);
  }

  /** Each object of the new list sits, at its first index, with the last new entry for it. */
  ghost predicate LastWins(owners: seq<OwnerRef>, news: seq<OwnerRef>) {
    forall x {:trigger IndexOf(owners, x)} :: Represents(news, x) ==>
      IndexOf(owners, x) >= 0 && owners[IndexOf(owners, x)] == LastSame(news, x)
  }

  /** Adding a reference puts it at its object's first index and moves no other object's. */
  lemma AddSettles(before: seq<OwnerRef>, last: OwnerRef, x: OwnerRef)
    ensures var after := Add(before, last);
            if SameObject(last, x) then IndexOf(after, x) >= 0 && after[IndexOf(after, x)] == last
            else
              IndexOf(before, x) >= 0 ==>
                IndexOf(after, x) == IndexOf(before, x) && after[IndexOf(after, x)] == before[IndexOf(before, x)]
  {
    hide ParseGroupVersion, Represents;
    var after := Add(before, last);
    if SameObject(last, x) {
      var i := IndexOf(before, last);
      if i == -1 {
        assert !Represents(before, last);
        NotRepresentedFirst(before, last, x);
        IndexOfIs(after, x, |before|);
      } else {
        forall j | 0 <= j < i ensures !SameObject(after[j], x) {
          SameObjectIsPartialEquivalence(before[j], x, last);
          SameObjectIsPartialEquivalence(last, x, last);
        }
        IndexOfIs(after, x, i);
      }
    } else if IndexOf(before, x) >= 0 {
      AddKeepsObjects(before, last);
      SameKeysSameIndex(before, after, x);
      SameObjectIsPartialEquivalence(last, before[IndexOf(before, x)], x);
      SameObjectIsPartialEquivalence(before[IndexOf(before, x)], last, x);
    }
  }

  lemma NotRepresentedFirst(before: seq<OwnerRef>, last: OwnerRef, x: OwnerRef)
    requires !Represents(before, last) && SameObject(last, x)
    ensures forall j :: 0 <= j < |before| ==> !SameObject(before[j], x)
  {
    hide ParseGroupVersion;
  }

  lemma AddKeepsObjects(before: seq<OwnerRef>, last: OwnerRef)
    ensures var after := Add(before, last);
            && |before| <= |after|
            && forall i :: 0 <= i < |before| ==> after[i] == before[i] || SameObject(after[i], before[i])
  {
    hide ParseGroupVersion, SameObject;
    AddFacts(before, last);
  }

  lemma {:induction false} MergeSettles(owners: seq<OwnerRef>, news: seq<OwnerRef>)
    ensures LastWins(Merge(owners, news), news)
    decreases |news|
  {
    hide ParseGroupVersion, SameObject, Represents, Add;
    if news != [] {
      var init, last := news[..|news| - 1], news[|news| - 1];
      MergeSettles(owners, init);
      forall x | Represents(news, x)
        ensures var after := Merge(owners, news);
                IndexOf(after, x) >= 0 && after[IndexOf(after, x)] == LastSame(news, x)
      {
        InitRepresents(news, x);
        AddSettles(Merge(owners, init), last, x);
      }
    } else {
      NobodyIsRepresented(Merge(owners, news));
    }
  }

  lemma NobodyIsRepresented(owners: seq<OwnerRef>)
    ensures LastWins(owners, [])
  {
  }

  /** A merge takes over the new references as they are, UID and flags included. */
  lemma MergeKeepsVerbatim(owners: seq<OwnerRef>, news: seq<OwnerRef>, r: OwnerRef)
    requires NoDuplicates(news) && r in news && Parseable(r)
    ensures r in Merge(owners, news)
  {
    hide ParseGroupVersion;
    MergeSettles(owners, news);
    var i :| 0 <= i < |news| && news[i] == r;
    assert SameObject(news[i], r);
    var last := LastSame(news, r);
    var j :| 0 <= j < |news| && news[j] == last;
    SameObjectIsPartialEquivalence(last, r, last);
    assert i == j;
    assert IndexOf(Merge(owners, news), r) >= 0;
  }

  /** The entry of a settled list at position i after merging some of the new references. */
  function MergedEntry(owners: seq<OwnerRef>, done: seq<OwnerRef>, i: nat): OwnerRef
    requires i < |owners|
  {
    if Represents(done, owners[i]) && IndexOf(owners, owners[i]) == i then LastSame(done, owners[i]) else owners[i]
  }

  lemma MergedEntryStep(owners: seq<OwnerRef>, done: seq<OwnerRef>, i: nat)
    requires done != [] && i < |owners|
    requires var last := done[|done| - 1]; Represents(owners, last)
    ensures var last := done[|done| - 1];
            MergedEntry(owners, done, i) ==
            if i == IndexOf(owners, last) then last else MergedEntry(owners, done[..|done| - 1], i)
  {
    hide ParseGroupVersion;
    var last := done[|done| - 1];
    InitRepresents(done, owners[i]);
    if i == IndexOf(owners, last) {
      IndexOfIs(owners, owners[i], i);
    } else if SameObject(last, owners[i]) {
      IndexOfIs(owners, owners[i], IndexOf(owners, last));
    }
  }

  lemma MergedEntryIsSame(owners: seq<OwnerRef>, done: seq<OwnerRef>, i: nat)
    requires i < |owners|
    ensures MergedEntry(owners, done, i) == owners[i] || SameObject(MergedEntry(owners, done, i), owners[i])
  {
    hide ParseGroupVersion;
  }

  /** One more reference merged into a list that is settled for it. */
  lemma MergedEntriesStep(owners: seq<OwnerRef>, before: seq<OwnerRef>, done: seq<OwnerRef>)
    requires done != [] && |before| == |owners| && Represents(owners, done[|done| - 1])
    requires forall i :: 0 <= i < |owners| ==> before[i] == MergedEntry(owners, done[..|done| - 1], i)
    ensures var after := Add(before, done[|done| - 1]);
            && |after| == |owners|
            && forall i :: 0 <= i < |owners| ==> after[i] == MergedEntry(owners, done, i)
  {
    hide ParseGroupVersion, SameObject, Represents, MergedEntry;
    var init, last := done[..|done| - 1], done[|done| - 1];
    forall i | 0 <= i < |owners| ensures before[i] == owners[i] || SameObject(before[i], owners[i]) {
      MergedEntryIsSame(owners, init, i);
    }
    assert IndexOf(owners, last) >= 0;
    SameKeysSameIndex(owners, before, last);
    var after := Add(before, last);
    forall i | 0 <= i < |owners| ensures after[i] == MergedEntry(owners, done, i) {
      MergedEntryStep(owners, done, i);
    }
  }

  /** Merging a prefix into a settled list changes only entries of objects of that prefix. */
  lemma {:induction false} MergeIntoSettled(owners: seq<OwnerRef>, news: seq<OwnerRef>, k: nat)
    requires k <= |news|
    requires LastWins(owners, news)
    requires forall j :: 0 <= j < |news| ==> Parseable(news[j])
    ensures |Merge(owners, news[..k])| == |owners|
    ensures forall i :: 0 <= i < |owners| ==> Merge(owners, news[..k])[i] == MergedEntry(owners, news[..k], i)
  {
    hide ParseGroupVersion, SameObject, Represents, MergedEntry, LastSame;
    if k > 0 {
      assert news[..k][..k - 1] == news[..k - 1] && news[..k][k - 1] == news[k - 1];
      MergeIntoSettled(owners, news, k - 1);
      assert Represents(news, news[k - 1]) by { MemberIsRepresented(news, k - 1); }
      assert IndexOf(owners, news[k - 1]) >= 0;
      MergedEntriesStep(owners, Merge(owners, news[..k - 1]), news[..k]);
    } else {
      forall i | 0 <= i < |owners| ensures MergedEntry(owners, [], i) == owners[i] { NothingMerged(owners, i); }
    }
  }

  lemma MemberIsRepresented(news: seq<OwnerRef>, k: nat)
    requires k < |news| && Parseable(news[k])
    ensures Represents(news, news[k])
  {
    hide ParseGroupVersion;
    SameObjectIsPartialEquivalence(news[k], news[k], news[k]);
  }

  lemma NothingMerged(owners: seq<OwnerRef>, i: nat)
    requires i < |owners|
    ensures MergedEntry(owners, [], i) == owners[i]
  {
  }

  /** Merging the same parseable references a second time changes nothing. */
  lemma MergeIdempotent(owners: seq<OwnerRef>, news: seq<OwnerRef>)
    requires forall j :: 0 <= j < |news| ==> Parseable(news[j])
    ensures Merge(Merge(owners, news), news) == Merge(owners, news)
  {
    hide ParseGroupVersion;
    var once := Merge(owners, news);
    MergeSettles(owners, news);
    MergeIntoSettled(once, news, |news|);
    assert news[..|news|] == news;
    forall i | 0 <= i < |once| ensures Merge(once, news)[i] == once[i] {
      if Represents(news, once[i]) && IndexOf(once, once[i]) == i {
        assert once[IndexOf(once, once[i])] == LastSame(news, once[i]);
      }
    }
  }

  // ---------------------------------------------------------------------------------
  // The removal loop of deleteStaleManifest (applied_work_syncer.go).
  // ---------------------------------------------------------------------------------

  function RemoveAt<T>(s: seq<T>, i: nat): seq<T>
    requires i < |s|
  {
    s[..i] + s[i + 1..]
  }

  /** What the loop has appended after looking at the first k owners. */
  function SpliceUpTo(owners: seq<OwnerRef>, r: OwnerRef, k: nat): seq<OwnerRef>
    requires k <= |owners|
  {
    if k == 0 then []
    else
      SpliceUpTo(owners, r, k - 1) + (if SameObject(owners[k - 1], r) then RemoveAt(owners, k - 1) else [])
  }

  function Splice(owners: seq<OwnerRef>, r: OwnerRef): seq<OwnerRef> {
    SpliceUpTo(owners, r, |owners|)
  }

  /** How many of the first k owners refer to the same object as r. */
  function Matches(owners: seq<OwnerRef>, r: OwnerRef, k: nat): nat
    requires k <= |owners|
  {
    if k == 0 then 0 else Matches(owners, r, k - 1) + (if SameObject(owners[k - 1], r) then 1 else 0)
  }

  /** True removal: the owners other than r, in order. */
  function Others(owners: seq<OwnerRef>, r: OwnerRef): seq<OwnerRef>
  {
    if owners == [] then []
    else
      var n := |owners| - 1;
      Others(owners[..n], r) + (if SameObject(owners[n], r) then [] else [owners[n]])
  }

  method SpliceOwner(owners: seq<OwnerRef>, r: OwnerRef) returns (found: bool, rest: seq<OwnerRef>)
    ensures found <==> Represents(owners, r)
    ensures rest == Splice(owners, r)
  {
    hide ParseGroupVersion;
    found, rest := false, [];
    for index := 0 to |owners|
      invariant found <==> exists j :: 0 <= j < index && SameObject(owners[j], r)
      invariant rest == SpliceUpTo(owners, r, index)
    {
      if SameObject(owners[index], r) {
        found := true;
        rest := rest + owners[..index];
        rest := rest + owners[index + 1..];
      }
    }
  }

  lemma OneMoreProduct(m: nat, n: nat)
    ensures (m + 1) * (n - 1) == m * (n - 1) + (n - 1)
  {
  }

  lemma {:induction false} SpliceLength(owners: seq<OwnerRef>, r: OwnerRef, k: nat)
    requires k <= |owners|
    ensures |SpliceUpTo(owners, r, k)| == Matches(owners, r, k) * (|owners| - 1)
  {
    hide SameObject;
    if k > 0 {
      SpliceLength(owners, r, k - 1);
      OneMoreProduct(Matches(owners, r, k - 1), |owners|);
      assert |RemoveAt(owners, k - 1)| == |owners| - 1;
    }
  }

  lemma {:induction false} MatchesFacts(owners: seq<OwnerRef>, r: OwnerRef, k: nat)
    requires k <= |owners|
    ensures Matches(owners, r, k) <= k
    ensures Matches(owners, r, k) == 0 <==> forall j :: 0 <= j < k ==> !SameObject(owners[j], r)
  {
    hide SameObject;
    if k > 0 {
      MatchesFacts(owners, r, k - 1);
    }
  }

  lemma {:induction false} OthersFacts(owners: seq<OwnerRef>, r: OwnerRef)
    ensures |Others(owners, r)| == |owners| - Matches(owners, r, |owners|)
    ensures forall i :: 0 <= i < |Others(owners, r)| ==> Others(owners, r)[i] in owners
    ensures !Represents(Others(owners, r), r)
    decreases |owners|
  {
    hide ParseGroupVersion;
    if owners != [] {
      var n := |owners| - 1;
      OthersFacts(owners[..n], r);
      MatchesOfPrefix(owners, r, n);
    }
  }

  lemma {:induction false} MatchesOfPrefix(owners: seq<OwnerRef>, r: OwnerRef, k: nat)
    requires k <= |owners|
    ensures Matches(owners[..k], r, k) == Matches(owners, r, k)
    decreases k
  {
    hide ParseGroupVersion;
    if k > 0 {
      MatchesOfPrefix(owners, r, k - 1);
      MatchesOfPrefix(owners[..k], r, k - 1);
      assert owners[..k][..k - 1] == owners[..k - 1];
    }
  }

  /** Other objects stay represented by the true removal, and it has no further entries. */
  lemma {:induction false} OthersRepresents(owners: seq<OwnerRef>, r: OwnerRef, x: OwnerRef)
    ensures Represents(Others(owners, r), x) <==> Represents(owners, x) && !SameObject(r, x)
    ensures NoDuplicates(owners) ==> NoDuplicates(Others(owners, r))
  {
    hide ParseGroupVersion, SameObject, NoDuplicates, Represents;
    if Represents(Others(owners, r), x) {
      var i := RepresentedBy(Others(owners, r), x);
      OthersMembers(owners, r, Others(owners, r)[i]);
      RepresentedByMember(owners, Others(owners, r)[i], x);
      SameObjectIsPartialEquivalence(Others(owners, r)[i], x, r);
      SameObjectIsPartialEquivalence(r, x, r);
    }
    if Represents(owners, x) && !SameObject(r, x) {
      var i := RepresentedBy(owners, x);
      OthersMembers(owners, r, owners[i]);
      SameObjectIsPartialEquivalence(owners[i], r, x);
      SameObjectIsPartialEquivalence(r, owners[i], x);
      RepresentedByMember(Others(owners, r), owners[i], x);
    }
    if NoDuplicates(owners) {
      OthersKeepUnique(owners, r);
    }
  }

  lemma RepresentedBy(owners: seq<OwnerRef>, x: OwnerRef) returns (i: nat)
    requires Represents(owners, x)
    ensures i < |owners| && SameObject(owners[i], x)
  {
    hide ParseGroupVersion, SameObject;
    i :| 0 <= i < |owners| && SameObject(owners[i], x);
  }

  lemma RepresentedByMember(owners: seq<OwnerRef>, r: OwnerRef, x: OwnerRef)
    requires r in owners && SameObject(r, x)
    ensures Represents(owners, x)
  {
    hide ParseGroupVersion, SameObject;
    var i :| 0 <= i < |owners| && owners[i] == r;
    assert SameObject(owners[i], x);
  }

  lemma {:induction false} OthersKeepUnique(owners: seq<OwnerRef>, r: OwnerRef)
    requires NoDuplicates(owners)
    ensures NoDuplicates(Others(owners, r))
    decreases |owners|
  {
    hide ParseGroupVersion, SameObject;
    if owners != [] {
      var n := |owners| - 1;
      OthersKeepUnique(owners[..n], r);
      var rest := Others(owners[..n], r);
      forall i | 0 <= i < |rest| ensures !SameObject(rest[i], owners[n]) {
        OthersMembers(owners[..n], r, rest[i]);
        var j :| 0 <= j < n && owners[j] == rest[i];
      }
    }
  }

  /** True removal drops the entries for that object and keeps the others as they are. */
  lemma {:induction false} OthersMembers(owners: seq<OwnerRef>, r: OwnerRef, x: OwnerRef)
    ensures x in Others(owners, r) <==> x in owners && !SameObject(x, r)
    decreases |owners|
  {
    hide SameObject;
    if owners != [] {
      var n := |owners| - 1;
      OthersMembers(owners[..n], r, x);
      assert owners == owners[..n] + [owners[n]];
    }
  }

  /** When nothing of the list matches, true removal is the list itself. */
  lemma {:induction false} OthersOfUnmatched(owners: seq<OwnerRef>, r: OwnerRef)
    requires !Represents(owners, r)
    ensures Others(owners, r) == owners
    decreases |owners|
  {
    hide ParseGroupVersion;
    if owners != [] {
      InitRepresents(owners, r);
      assert SameObject(owners[|owners| - 1], r) ==> Represents(owners, r);
      OthersOfUnmatched(owners[..|owners| - 1], r);
    }
  }

  lemma SpliceStep(owners: seq<OwnerRef>, r: OwnerRef, k: nat)
    requires 0 < k <= |owners|
    ensures SameObject(owners[k - 1], r) ==>
              SpliceUpTo(owners, r, k) == SpliceUpTo(owners, r, k - 1) + RemoveAt(owners, k - 1)
    ensures !SameObject(owners[k - 1], r) ==> SpliceUpTo(owners, r, k) == SpliceUpTo(owners, r, k - 1)
  {
    hide SameObject, RemoveAt;
  }

  lemma {:induction false} NoMatchNoSplice(owners: seq<OwnerRef>, r: OwnerRef, k: nat)
    requires k <= |owners| && forall j :: 0 <= j < k ==> !SameObject(owners[j], r)
    ensures SpliceUpTo(owners, r, k) == []
  {
    hide SameObject, RemoveAt, SpliceUpTo;
    if k > 0 {
      NoMatchNoSplice(owners, r, k - 1);
      SpliceStep(owners, r, k);
    } else {
      NothingSpliced(owners, r);
    }
  }

  lemma NothingSpliced(owners: seq<OwnerRef>, r: OwnerRef)
    ensures SpliceUpTo(owners, r, 0) == []
  {
  }

  lemma {:induction false} SpliceOfOne(owners: seq<OwnerRef>, r: OwnerRef, k: nat) returns (i: nat)
    requires k <= |owners|
    requires Matches(owners, r, k) == 1
    ensures i < k && SameObject(owners[i], r) && SpliceUpTo(owners, r, k) == RemoveAt(owners, i)
    ensures forall j :: 0 <= j < k && j != i ==> !SameObject(owners[j], r)
  {
    hide SameObject, RemoveAt, SpliceUpTo;
    MatchesFacts(owners, r, k - 1);
    SpliceStep(owners, r, k);
    if !SameObject(owners[k - 1], r) {
      i := SpliceOfOne(owners, r, k - 1);
    } else {
      i := k - 1;
      NoMatchNoSplice(owners, r, k - 1);
      assert [] + RemoveAt(owners, k - 1) == RemoveAt(owners, k - 1);
    }
  }

  lemma RemoveFromInit<T>(s: seq<T>, i: nat)
    requires i < |s| - 1
    ensures RemoveAt(s, i) == RemoveAt(s[..|s| - 1], i) + [s[|s| - 1]]
  {
    var n := |s| - 1;
    assert s[i + 1..] == s[i + 1..n] + [s[n]];
    assert s[..n][i + 1..] == s[i + 1..n];
    assert s[..n][..i] == s[..i];
  }

  lemma {:induction false} OthersOfOne(owners: seq<OwnerRef>, r: OwnerRef, i: nat)
    requires i < |owners| && SameObject(owners[i], r)
    requires forall j :: 0 <= j < |owners| && j != i ==> !SameObject(owners[j], r)
    ensures Others(owners, r) == RemoveAt(owners, i)
    decreases |owners|
  {
    hide SameObject;
    var n := |owners| - 1;
    if i == n {
      assert !Represents(owners[..n], r);
      OthersOfUnmatched(owners[..n], r);
      assert owners[n + 1..] == [];
    } else {
      OthersOfOne(owners[..n], r, i);
      RemoveFromInit(owners, i);
    }
  }

  lemma {:induction false} SpliceKeepsFirstMatch(owners: seq<OwnerRef>, r: OwnerRef, k: nat)
    requires k <= |owners|
    requires Matches(owners, r, k) >= 2
    ensures Represents(SpliceUpTo(owners, r, k), r)
  {
    hide ParseGroupVersion;
    var before := SpliceUpTo(owners, r, k - 1);
    if SameObject(owners[k - 1], r) {
      MatchesFacts(owners, r, k - 1);
      var j :| 0 <= j < k - 1 && SameObject(owners[j], r);
      assert SpliceUpTo(owners, r, k)[|before| + j] == owners[j];
    } else {
      SpliceKeepsFirstMatch(owners, r, k - 1);
      assert SpliceUpTo(owners, r, k) == before;
    }
  }

  lemma Products(k: nat, n: nat)
    requires k <= n
    ensures k * (n - 1) == 0 <==> k == 0 || n == 1
    ensures k >= 2 ==> k * (n - 1) > n - k
  {
    if k >= 2 { assert k * (n - 1) >= 2 * (n - 1); }
  }

  /**
   The exact meaning of the removal loop. With n owners of which k match, it yields k*(n-1)
   entries; it is true removal exactly when k is 1, it is empty exactly when nothing matched
   or the single owner did, and with two or more matches the owner is still there.
   */
  lemma SpliceMeaning(owners: seq<OwnerRef>, r: OwnerRef)
    ensures var k, n := Matches(owners, r, |owners|), |owners|;
            && |Splice(owners, r)| == k * (n - 1)
            && (Represents(owners, r) <==> k >= 1)
            && (Represents(owners, r) ==> (Splice(owners, r) == Others(owners, r) <==> k == 1))
            && (k >= 2 ==> Represents(Splice(owners, r), r))
            && (Splice(owners, r) == [] <==> k == 0 || n == 1)
  {
    hide ParseGroupVersion;
    var k, n := Matches(owners, r, |owners|), |owners|;
    SpliceLength(owners, r, n);
    MatchesFacts(owners, r, n);
    OthersFacts(owners, r);
    if k == 1 {
      var i := SpliceOfOne(owners, r, n);
      OthersOfOne(owners, r, i);
    }
    if k >= 2 {
      SpliceKeepsFirstMatch(owners, r, n);
    }
    Products(k, n);
  }

  /** Without duplicates at most one owner matches, so the loop is true removal. */
  lemma SpliceWithoutDuplicates(owners: seq<OwnerRef>, r: OwnerRef)
    requires NoDuplicates(owners) && Represents(owners, r)
    ensures Matches(owners, r, |owners|) == 1
    ensures Splice(owners, r) == Others(owners, r)
    ensures Splice(owners, r) == [] <==> |owners| == 1
  {
    hide ParseGroupVersion;
    MatchesAtMostOne(owners, r, |owners|);
    SpliceMeaning(owners, r);
  }

  lemma {:induction false} MatchesAtMostOne(owners: seq<OwnerRef>, r: OwnerRef, k: nat)
    requires k <= |owners| && NoDuplicates(owners)
    ensures Matches(owners, r, k) <= 1
  {
    hide ParseGroupVersion;
    if k > 0 {
      MatchesAtMostOne(owners, r, k - 1);
      MatchesFacts(owners, r, k - 1);
    }
  }
}
