/** API versions as strings, and how the apimachinery library parses them. */
module GroupVersions {
  import opened Wrappers

  datatype GroupVersion = GroupVersion(group: string, version: string)

  const WORK_GROUP := "multicluster.x-k8s.io"
  const WORK_VERSION := "v1alpha1"
  const WORK_API_VERSION := WORK_GROUP + "/" + WORK_VERSION
  const APPLIED_WORK_KIND := "AppliedWork"

  /** The first index from `from` on that holds a slash, or the length when there is none. */
  function SlashFrom(s: string, from: nat): (i: nat)
    requires from <= |s|
    ensures from <= i <= |s|
    decreases |s| - from
  {
    if from == |s| || s[from] == '/' then from else SlashFrom(s, from + 1)
  }

  /**
   schema.ParseGroupVersion: the empty string and a lone slash give the empty pair, no
   slash a bare version, one slash both parts, and more slashes an error.
   */
  function ParseGroupVersion(s: string): Option<GroupVersion>
  {
    if s == "" || s == "/" then Some(GroupVersion("", ""))
    else
      var i := SlashFrom(s, 0);
      if i == |s| then Some(GroupVersion("", s))
      else if SlashFrom(s, i + 1) < |s| then None
      else Some(GroupVersion(s[..i], s[i + 1..]))
  }

  lemma {:induction false} SlashFromIs(s: string, from: nat, i: nat)
    requires from <= i <= |s|
    ensures SlashFrom(s, from) == i <==>
            (forall k :: from <= k < i ==> s[k] != '/') && (i < |s| ==> s[i] == '/')
    decreases |s| - from
  {
    if from < |s| && s[from] != '/' && from < i {
      SlashFromIs(s, from + 1, i);
    }
  }

  /** The string has at least two slashes. */
  predicate TwoSlashes(s: string) {
    exists i, j :: 0 <= i < j < |s| && s[i] == '/' && s[j] == '/'
  }

  /**
   Exactly what a string parses to: nothing with two slashes, a bare version without one (so the
   core group's "v1" parses, and the empty string to the empty pair), and otherwise the two
   sides of the one slash.
   */
  lemma ParsesExactly(s: string)
    ensures ParseGroupVersion(s).None? <==> TwoSlashes(s)
    ensures '/' !in s ==> ParseGroupVersion(s) == Some(GroupVersion("", s))
    ensures forall i :: 0 <= i < |s| && s[i] == '/' && !TwoSlashes(s) ==>
              ParseGroupVersion(s) == Some(GroupVersion(s[..i], s[i + 1..]))
  {
    var i := SlashFrom(s, 0);
    SlashFromIs(s, 0, i);
    if i < |s| {
      var j := SlashFrom(s, i + 1);
      SlashFromIs(s, i + 1, j);
      if j < |s| {
        assert s[i] == '/' && s[j] == '/';
        assert TwoSlashes(s);
      } else {
        forall k | 0 <= k < |s| && s[k] == '/' ensures k == i {
          assert k < i || k == i || i + 1 <= k < j;
        }
        assert !TwoSlashes(s);
        assert s == "/" ==> s[..i] == "" && s[i + 1..] == "";
      }
    } else {
      assert forall k :: 0 <= k < |s| ==> s[k] != '/';
      assert s[..i] == s;
    }
  }

  /** The two sides of the only slash. */
  lemma SlashSides(s: string, i: nat)
    requires i < |s| && s[i] == '/' && !TwoSlashes(s)
    ensures '/' !in s[..i] && '/' !in s[i + 1..] && s == s[..i] + "/" + s[i + 1..]
  {
    var first, rest := s[..i], s[i + 1..];
    forall j | 0 <= j < |first| ensures first[j] != '/' { assert first[j] == s[j]; }
    forall j | 0 <= j < |rest| ensures rest[j] != '/' { assert rest[j] == s[i + 1 + j]; }
  }

  /** The converse: which strings parse to a given pair. */
  lemma ParsedFrom(s: string, gv: GroupVersion)
    requires ParseGroupVersion(s) == Some(gv)
    ensures '/' !in gv.group && '/' !in gv.version
    ensures s == gv.group + "/" + gv.version || (gv.group == "" && s == gv.version)
  {
    hide ParseGroupVersion, TwoSlashes;
    ParsesExactly(s);
    if '/' in s {
      var i :| 0 <= i < |s| && s[i] == '/';
      SlashSides(s, i);
    }
  }

  /** Two strings parse to the same pair exactly when they are equal up to a leading slash. */
  lemma SameParse(s: string, t: string)
    requires !TwoSlashes(s) && !TwoSlashes(t)
    ensures ParseGroupVersion(s) == ParseGroupVersion(t) <==> s == t || s == "/" + t || t == "/" + s
  {
    hide ParseGroupVersion, TwoSlashes;
    ParsesExactly(s);
    ParsesExactly(t);
    var x, y := ParseGroupVersion(s).value, ParseGroupVersion(t).value;
    ParsedFrom(s, x);
    ParsedFrom(t, y);
    if s == "/" + t {
      SlashedParse(s, t);
    }
    if t == "/" + s {
      SlashedParse(t, s);
    }
  }

  lemma SlashedParse(s: string, t: string)
    requires s == "/" + t && !TwoSlashes(s)
    ensures ParseGroupVersion(s) == ParseGroupVersion(t)
  {
    hide ParseGroupVersion;
    ParsesExactly(s);
    ParsesExactly(t);
    assert s[0] == '/' && s[..0] == "" && s[1..] == t;
    forall j | 0 <= j < |t| ensures t[j] != '/' { assert s[j + 1] == t[j]; }
  }

  /** Parsing undoes rendering, and a parsed non-empty group pins the string down. */
  lemma ParseGroupVersionInverse(s: string, gv: GroupVersion)
    requires gv.group != "" && '/' !in gv.group && '/' !in gv.version
    ensures ParseGroupVersion(s) == Some(gv) <==> s == gv.group + "/" + gv.version
  {
    var r := gv.group + "/" + gv.version;
    var n := |gv.group|;
    assert r[..n] == gv.group && r[n + 1..] == gv.version;
    SlashFromIs(r, 0, n);
    SlashFromIs(r, n + 1, |r|);
    if ParseGroupVersion(s) == Some(gv) {
      var i := SlashFrom(s, 0);
      SlashFromIs(s, 0, i);
      assert s == s[..i] + [s[i]] + s[i + 1..];
    }
  }

  /** The only string that parses to the work API's group and version is its raw spelling. */
  lemma WorkApiVersionIsUnique(s: string)
    ensures ParseGroupVersion(s) == Some(GroupVersion(WORK_GROUP, WORK_VERSION)) <==> s == WORK_API_VERSION
  {
    hide ParseGroupVersion;
    ParseGroupVersionInverse(s, GroupVersion(WORK_GROUP, WORK_VERSION));
  }
}
