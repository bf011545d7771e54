/** The "production without approvers" compliance filter of the explorer:
    keep each release that has at least one production-named environment
    with no pre-deployment approvals. */
module ReleaseFilter {
  import opened Wrappers
  import opened AzureTypes
  import Text

  const ProductionMarker: string := "production"

  /** The environment's name, lower-cased, contains "production". */
  predicate IsProductionName(name: string) {
    Text.Includes(Text.ToLower(name), ProductionMarker)
  }

  /** The approval list is missing or has length zero. */
  predicate HasNoApprovers(env: ReleaseEnvironment) {
    env.preDeployApprovals.None? || |env.preDeployApprovals.value| == 0
  }

  predicate IsUnguardedProduction(env: ReleaseEnvironment) {
    IsProductionName(env.name) && HasNoApprovers(env)
  }

  /** `environments.some(...)`, scanned from the front. */
  predicate AnyUnguarded(envs: seq<ReleaseEnvironment>) {
    |envs| > 0 && (IsUnguardedProduction(envs[0]) || AnyUnguarded(envs[1..]))
  }

  /** A release the filter keeps. */
  predicate IsFlagged(r: Release) {
    AnyUnguarded(r.environments)
  }

  /** The environment scan is an existence check over all environments. */
  lemma {:induction false} AnyUnguardedIff(envs: seq<ReleaseEnvironment>)
    ensures AnyUnguarded(envs) <==> exists i :: 0 <= i < |envs| && IsUnguardedProduction(envs[i])
  {
    if |envs| > 0 {
      AnyUnguardedIff(envs[1..]);
      if !IsUnguardedProduction(envs[0]) && exists i :: 0 <= i < |envs| && IsUnguardedProduction(envs[i]) {
        var i :| 0 <= i < |envs| && IsUnguardedProduction(envs[i]);
        assert envs[1..][i - 1] == envs[i];
      }
    }
  }

  /** Name matching is case-insensitive and is a substring test. */
  lemma ProductionNameIff(name: string)
    ensures IsProductionName(name) <==> exists i :: Text.OccursAt(Text.ToLower(name), ProductionMarker, i)
  {
    Text.IncludesIff(Text.ToLower(name), ProductionMarker);
    assert IsProductionName(name) == Text.Includes(Text.ToLower(name), ProductionMarker);
  }

  /** `releases.filter(IsFlagged)`, building the result in input order. */
  function FilterSeq(rs: seq<Release>): (out: seq<Release>)
    ensures |out| <= |rs|
    ensures forall r :: r in out <==> r in rs && IsFlagged(r)
  {
    if |rs| == 0 then []
    else
      var last := rs[|rs| - 1];
      assert rs == rs[..|rs| - 1] + [last];
      FilterSeq(rs[..|rs| - 1]) + (if IsFlagged(last) then [last] else [])
  }

  /** `filterReleases()`: nothing when the releases have not been loaded. */
  function FilterReleases(releases: Option<seq<Release>>): (out: seq<Release>)
    ensures releases.None? ==> out == []
    ensures forall r :: r in out <==> releases.Some? && r in releases.value && IsFlagged(r)
  {
    if releases.None? then [] else FilterSeq(releases.value)
  }

  /** The positions of the releases the filter keeps, in increasing order. */
  function KeptIndices(rs: seq<Release>): (idx: seq<int>)
    ensures forall k :: 0 <= k < |idx| ==> 0 <= idx[k] < |rs|
    ensures forall k, l :: 0 <= k < l < |idx| ==> idx[k] < idx[l]
    ensures forall i :: 0 <= i < |rs| ==> (i in idx <==> IsFlagged(rs[i]))
  {
    if |rs| == 0 then []
    else
      var n := |rs| - 1;
      var prefix := rs[..n];
      assert forall i :: 0 <= i < n ==> prefix[i] == rs[i];
      KeptIndices(prefix) + (if IsFlagged(rs[n]) then [n] else [])
  }

  /** `out` is `rs` with some elements deleted: position k of `out` holds
      `rs[idx[k]]`, and the positions strictly increase. */
  ghost predicate SelectsAt(rs: seq<Release>, idx: seq<int>, out: seq<Release>) {
    && |idx| == |out|
    && (forall k :: 0 <= k < |idx| ==> 0 <= idx[k] < |rs| && out[k] == rs[idx[k]])
    && (forall k, l :: 0 <= k < l < |idx| ==> idx[k] < idx[l])
  }

  /** The filter's output is the subsequence of the input at exactly the
      flagged positions: nothing is added, reordered or modified. */
  lemma {:induction false} FilterIsSubsequence(rs: seq<Release>)
    ensures SelectsAt(rs, KeptIndices(rs), FilterSeq(rs))
  {
    if |rs| > 0 {
      var n := |rs| - 1;
      FilterIsSubsequence(rs[..n]);
      var idx := KeptIndices(rs);
      var out := FilterSeq(rs);
      var idx0 := KeptIndices(rs[..n]);
      var out0 := FilterSeq(rs[..n]);
      assert idx == idx0 + (if IsFlagged(rs[n]) then [n] else []);
      assert out == out0 + (if IsFlagged(rs[n]) then [rs[n]] else []);
      forall k | 0 <= k < |idx|
        ensures 0 <= idx[k] < |rs| && out[k] == rs[idx[k]]
      {
        if k < |idx0| {
          assert idx[k] == idx0[k] && out[k] == out0[k];
          assert rs[..n][idx0[k]] == rs[idx0[k]];
        }
      }
    }
  }

  /** A list whose releases are all flagged passes through unchanged. */
  lemma {:induction false} FilterKeepsAllFlagged(rs: seq<Release>)
    requires forall k :: 0 <= k < |rs| ==> IsFlagged(rs[k])
    ensures FilterSeq(rs) == rs
  {
    if |rs| > 0 {
      var n := |rs| - 1;
      FilterKeepsAllFlagged(rs[..n]);
      assert rs == rs[..n] + [rs[n]];
    }
  }

  /** Filtering twice is filtering once. */
  lemma FilterIdempotent(rs: seq<Release>)
    ensures FilterSeq(FilterSeq(rs)) == FilterSeq(rs)
  {
    var out := FilterSeq(rs);
    assert forall k :: 0 <= k < |out| ==> out[k] in out;
    FilterKeepsAllFlagged(out);
  }

  /** The same holds for `filterReleases` itself, loaded or not. */
  lemma FilterReleasesIdempotent(releases: Option<seq<Release>>)
    ensures FilterReleases(Some(FilterReleases(releases))) == FilterReleases(releases)
  {
    if releases.Some? {
      FilterIdempotent(releases.value);
    }
  }

  /** Filtering a concatenation filters each part. */
  lemma {:induction false} FilterAppend(a: seq<Release>, b: seq<Release>)
    ensures FilterSeq(a + b) == FilterSeq(a) + FilterSeq(b)
    decreases |b|
  {
    if |b| == 0 {
      assert a + b == a;
    } else {
      var n := |b| - 1;
      var tail := if IsFlagged(b[n]) then [b[n]] else [];
      assert (a + b)[|a + b| - 1] == b[n];
      assert (a + b)[..|a + b| - 1] == a + b[..n];
      assert FilterSeq(a + b) == FilterSeq(a + b[..n]) + tail;
      assert FilterSeq(b) == FilterSeq(b[..n]) + tail;
      FilterAppend(a, b[..n]);
    }
  }

  /** Order among kept releases is preserved: from [A, B, C] with A and C
      flagged and B not, the filter yields [A, C]. */
  lemma FilterKeepsOrder(a: Release, b: Release, c: Release)
    requires IsFlagged(a) && !IsFlagged(b) && IsFlagged(c)
    ensures FilterSeq([a, b, c]) == [a, c]
  {
    assert [a, b, c][..2] == [a, b];
    assert [a, b][..1] == [a];
    assert [a][..0] == [];
    assert FilterSeq([a]) == [a];
    assert FilterSeq([a, b]) == [a];
  }

  /** A name whose lower-cased form starts with "production" matches. */
  lemma LoweredPrefixMatches(name: string, lowered: string)
    requires Text.ToLower(name) == lowered
    requires Text.StartsWith(lowered, ProductionMarker)
    ensures IsProductionName(name)
  {
  }

  /** For a release whose one environment is production-named, the
      approvals alone decide: kept with none, dropped with any. */
  lemma ApprovalDecides(r: Release)
    requires |r.environments| == 1 && IsProductionName(r.environments[0].name)
    ensures IsFlagged(r) <==> HasNoApprovers(r.environments[0])
  {
    assert r.environments[1..] == [];
    assert !AnyUnguarded(r.environments[1..]);
  }

  /** An unapproved non-production environment does not flag a release
      whose production environment has an approver. */
  lemma UnapprovedStagingIsNotEnough(r: Release)
    requires |r.environments| == 2
    requires !IsProductionName(r.environments[0].name)
    requires !HasNoApprovers(r.environments[1])
    ensures !IsFlagged(r)
  {
    AnyUnguardedIff(r.environments);
  }

  /** One unapproved production environment flags a release, whatever the
      other production environments have. */
  lemma OneUnapprovedProductionSuffices(r: Release, i: int)
    requires 0 <= i < |r.environments| && IsUnguardedProduction(r.environments[i])
    ensures IsFlagged(r)
  {
    AnyUnguardedIff(r.environments);
  }
}
