/**
 The platform merge of a version refresh: package requests complete in any order, failures
 fall back to the cached platform, and the stored list follows the index.
 */
module Merge {
  import opened Common
  import opened Metadata

  datatype Fetch = Fetched(package: Package) | Failed(error: MetadataError)

  // ---------------------------------------------------------------- completion order

  /** `completed` lists every result once, each with the position of its request, in some
      order. */
  ghost predicate IsCompletion(completed: seq<(int, Fetch)>, fetched: seq<Fetch>) {
    && |completed| == |fetched|
    && (forall k :: 0 <= k < |completed| ==> Carries(completed[k], fetched))
    && (forall k, l :: 0 <= k < l < |completed| ==> completed[k].0 != completed[l].0)
  }

  predicate Carries(r: (int, Fetch), fetched: seq<Fetch>) {
    0 <= r.0 < |fetched| && r.1 == fetched[r.0]
  }

  predicate Ascending(s: seq<(int, Fetch)>) {
    forall i, j :: 0 <= i < j < |s| ==> s[i].0 < s[j].0
  }

  /** Insertion by position. */
  function Insert(x: (int, Fetch), s: seq<(int, Fetch)>): (r: seq<(int, Fetch)>)
    requires Ascending(s) && forall i :: 0 <= i < |s| ==> s[i].0 != x.0
    ensures Ascending(r) && |r| == |s| + 1
    ensures forall i :: 0 <= i < |r| ==> r[i] == x || r[i] in s
  {
    if s == [] || s[|s| - 1].0 < x.0 then s + [x]
    else Insert(x, s[..|s| - 1]) + [s[|s| - 1]]
  }

  function Sort(s: seq<(int, Fetch)>): (r: seq<(int, Fetch)>)
    requires forall k, l :: 0 <= k < l < |s| ==> s[k].0 != s[l].0
    ensures Ascending(r) && |r| == |s|
    ensures forall i :: 0 <= i < |r| ==> r[i] in s
  {
    if s == [] then [] else Insert(s[|s| - 1], Sort(s[..|s| - 1]))
  }

  lemma {:induction false} AscendingFills(s: seq<(int, Fetch)>, n: nat, i: nat)
    requires Ascending(s) && |s| == n && forall j :: 0 <= j < n ==> 0 <= s[j].0 < n
    requires i < n
    ensures i <= s[i].0
  {
    if i > 0 { AscendingFills(s, n, i - 1); }
  }

  lemma {:induction false} AscendingFillsDown(s: seq<(int, Fetch)>, n: nat, i: nat)
    requires Ascending(s) && |s| == n && forall j :: 0 <= j < n ==> 0 <= s[j].0 < n
    requires i < n
    ensures s[i].0 <= i
    decreases n - i
  {
    if i < n - 1 { AscendingFillsDown(s, n, i + 1); }
  }

  /** Sorting a completion gives the results in request order. */
  lemma SortRestoresOrder(completed: seq<(int, Fetch)>, fetched: seq<Fetch>, i: nat)
    requires IsCompletion(completed, fetched) && i < |fetched|
    ensures Sort(completed)[i].1 == fetched[i]
  {
    hide Sort;
    var r := Sort(completed);
    forall j | 0 <= j < |r| ensures Carries(r[j], fetched) {
      var k :| 0 <= k < |completed| && completed[k] == r[j];
    }
    AscendingFills(r, |fetched|, i);
    AscendingFillsDown(r, |fetched|, i);
  }

  // ---------------------------------------------------------------- the specification

  /** The first cached package of a platform. */
  function CachedFor(cached: seq<Package>, p: RegistryPlatform): Option<Package> {
    if cached == [] then None
    else if Platform(cached[0]) == p then Some(cached[0])
    else CachedFor(cached[1..], p)
  }

  /** The last successful fetch for a platform among the first `n` requests. */
  function LastFetched(fetched: seq<Fetch>, p: RegistryPlatform, n: nat): Option<Package>
    requires n <= |fetched|
  {
    if n == 0 then None
    else if fetched[n - 1].Fetched? && Platform(fetched[n - 1].package) == p then Some(fetched[n - 1].package)
    else LastFetched(fetched, p, n - 1)
  }

  /** What position `i` of the index contributes: the fetched package (once, should the index
      repeat a platform), else the cached one, else nothing. */
  function Contribution(summary: seq<RegistryPlatform>, cached: seq<Package>, fetched: seq<Fetch>, i: nat)
    : Option<Package>
    requires i < |summary| == |fetched|
  {
    var f := LastFetched(fetched, summary[i], |fetched|);
    if summary[i] !in summary[..i] && f.Some? then f else CachedFor(cached, summary[i])
  }

  function Merged(summary: seq<RegistryPlatform>, cached: seq<Package>, fetched: seq<Fetch>, n: nat): seq<Package>
    requires n <= |summary| == |fetched|
  {
    if n == 0 then []
    else
      var c := Contribution(summary, cached, fetched, n - 1);
      Merged(summary, cached, fetched, n - 1) + if c.Some? then [c.value] else []
  }

  function FirstError(fetched: seq<Fetch>, n: nat): Option<MetadataError>
    requires n <= |fetched|
  {
    if n == 0 then None
    else
      var before := FirstError(fetched, n - 1);
      if before.Some? then before
      else if fetched[n - 1].Failed? then Some(fetched[n - 1].error) else None
  }

  predicate AnswersRequests(summary: seq<RegistryPlatform>, fetched: seq<Fetch>) {
    |fetched| == |summary| &&
    forall i :: 0 <= i < |fetched| && fetched[i].Fetched? ==> Platform(fetched[i].package) == summary[i]
  }

  // ---------------------------------------------------------------- the code

  method Collect(results: seq<(int, Fetch)>, ghost fetched: seq<Fetch>)
    returns (refreshed: map<RegistryPlatform, Package>, firstError: Option<MetadataError>)
    requires |results| == |fetched| && forall i :: 0 <= i < |fetched| ==> results[i].1 == fetched[i]
    ensures forall p :: p in refreshed <==> LastFetched(fetched, p, |fetched|).Some?
    ensures forall p :: p in refreshed ==> LastFetched(fetched, p, |fetched|) == Some(refreshed[p])
    ensures firstError == FirstError(fetched, |fetched|)
  {
    refreshed := map[];
    firstError := None;
    for i := 0 to |results|
      invariant forall p :: p in refreshed <==> LastFetched(fetched, p, i).Some?
      invariant forall p :: p in refreshed ==> LastFetched(fetched, p, i) == Some(refreshed[p])
      invariant firstError == FirstError(fetched, i)
    {
      match results[i].1 {
        case Fetched(package) =>
          refreshed := refreshed[Platform(package) := package];
        case Failed(error) =>
          if firstError.None? { firstError := Some(error); }
      }
    }
  }

  method FindCached(cached: seq<Package>, p: RegistryPlatform, valid: set<RegistryPlatform>)
    returns (r: Option<Package>)
    requires p in valid
    ensures r == CachedFor(cached, p)
  {
    for i := 0 to |cached|
      invariant CachedFor(cached, p) == CachedFor(cached[i..], p)
    {
      if cached[i].os == p.os && cached[i].arch == p.arch && Platform(cached[i]) in valid {
        return Some(cached[i]);
      }
      assert cached[i..][1..] == cached[i + 1..];
    }
    return None;
  }

  method InRequestOrder(completed: seq<(int, Fetch)>, ghost fetched: seq<Fetch>) returns (results: seq<(int, Fetch)>)
    requires IsCompletion(completed, fetched)
    ensures |results| == |fetched| && forall i :: 0 <= i < |fetched| ==> results[i].1 == fetched[i]
  {
    hide Sort;
    results := Sort(completed);
    forall i | 0 <= i < |fetched| ensures results[i].1 == fetched[i] { SortRestoresOrder(completed, fetched, i); }
  }

  /** The merge as written, on the results in their order of completion.  Its outcome is a
      function of the results in request order, so it is the same for every completion
      order. */
  method MergePlatforms(summary: seq<RegistryPlatform>, cached: seq<Package>, completed: seq<(int, Fetch)>,
                        ghost fetched: seq<Fetch>)
    returns (platforms: seq<Package>, firstError: Option<MetadataError>)
    requires AnswersRequests(summary, fetched)
    requires IsCompletion(completed, fetched)
    ensures platforms == Merged(summary, cached, fetched, |summary|)
    ensures firstError == FirstError(fetched, |fetched|)
  {
    hide IsCompletion, LastFetched, CachedFor, FirstError;
    var valid := set p | p in summary;
    var results := InRequestOrder(completed, fetched);
    var refreshed;
    refreshed, firstError := Collect(results, fetched);
    platforms := [];
    for i := 0 to |summary|
      invariant platforms == Merged(summary, cached, fetched, i)
      invariant forall p :: p in refreshed <==> p !in summary[..i] && LastFetched(fetched, p, |fetched|).Some?
      invariant forall p :: p in refreshed ==> LastFetched(fetched, p, |fetched|) == Some(refreshed[p])
    {
      var p := summary[i];
      assert summary[..i + 1] == summary[..i] + [p];
      if p in refreshed {
        platforms := platforms + [refreshed[p]];
        refreshed := refreshed - {p};
      } else {
        var c := FindCached(cached, p, valid);
        if c.Some? { platforms := platforms + [c.value]; }
      }
    }
  }

  // ---------------------------------------------------------------- what the result means

  predicate Distinct(summary: seq<RegistryPlatform>) {
    forall i, j :: 0 <= i < j < |summary| ==> summary[i] != summary[j]
  }

  lemma {:induction false} OnlyOwnFetch(summary: seq<RegistryPlatform>, fetched: seq<Fetch>, i: nat, n: nat)
    requires Distinct(summary) && AnswersRequests(summary, fetched) && i < |summary| && n <= |summary|
    ensures LastFetched(fetched, summary[i], n) ==
            if i < n && fetched[i].Fetched? then Some(fetched[i].package) else None
  {
    if n > 0 {
      OnlyOwnFetch(summary, fetched, i, n - 1);
      if n - 1 != i { assert summary[i] != summary[n - 1]; }
    }
  }

  /** For an index that names each platform once, position `i` contributes the fetched package
      if the request succeeded, else the cached one, else nothing. */
  lemma ContributionDistinct(summary: seq<RegistryPlatform>, cached: seq<Package>, fetched: seq<Fetch>, i: nat)
    requires Distinct(summary) && AnswersRequests(summary, fetched) && i < |summary|
    ensures Contribution(summary, cached, fetched, i) ==
            if fetched[i].Fetched? then Some(fetched[i].package) else CachedFor(cached, summary[i])
  {
    OnlyOwnFetch(summary, fetched, i, |summary|);
    assert forall j :: 0 <= j < i ==> summary[..i][j] == summary[j];
  }

  lemma {:induction false} FirstErrorExactly(fetched: seq<Fetch>, n: nat)
    requires n <= |fetched|
    ensures FirstError(fetched, n).None? <==> forall i :: 0 <= i < n ==> fetched[i].Fetched?
    ensures FirstError(fetched, n).Some? ==>
              exists i :: 0 <= i < n && fetched[i] == Failed(FirstError(fetched, n).value) &&
                          forall j :: 0 <= j < i ==> fetched[j].Fetched?
  {
    if n > 0 { FirstErrorExactly(fetched, n - 1); }
  }

  /** `complete` is set iff no fetch failed, and then the stored list is the index, platform
      for platform. */
  lemma {:induction false} CompleteCoversIndex(summary: seq<RegistryPlatform>, cached: seq<Package>,
                                               fetched: seq<Fetch>, n: nat)
    requires Distinct(summary) && AnswersRequests(summary, fetched) && n <= |summary|
    requires FirstError(fetched, |fetched|).None?
    ensures |Merged(summary, cached, fetched, n)| == n
    ensures forall i :: 0 <= i < n ==> fetched[i] == Fetched(Merged(summary, cached, fetched, n)[i]) &&
                                       Platform(Merged(summary, cached, fetched, n)[i]) == summary[i]
  {
    FirstErrorExactly(fetched, |fetched|);
    if n > 0 {
      CompleteCoversIndex(summary, cached, fetched, n - 1);
      ContributionDistinct(summary, cached, fetched, n - 1);
    }
  }

  /** Nothing is lost: a platform still in the index that was fetched or cached is stored. */
  lemma {:induction false} NothingLost(summary: seq<RegistryPlatform>, cached: seq<Package>,
                                       fetched: seq<Fetch>, n: nat, i: nat)
    requires AnswersRequests(summary, fetched) && i < n <= |summary|
    requires Contribution(summary, cached, fetched, i).Some?
    ensures Contribution(summary, cached, fetched, i).value in Merged(summary, cached, fetched, n)
  {
    if i < n - 1 { NothingLost(summary, cached, fetched, n - 1, i); }
  }

  /** Of several cached packages of a platform the first one counts. */
  lemma {:induction false} CachedForFirst(cached: seq<Package>, p: RegistryPlatform, i: nat)
    requires i < |cached| && Platform(cached[i]) == p && forall j :: 0 <= j < i ==> Platform(cached[j]) != p
    ensures CachedFor(cached, p) == Some(cached[i])
  {
    if i > 0 { CachedForFirst(cached[1..], p, i - 1); }
  }

  lemma {:induction false} CachedForIs(cached: seq<Package>, p: RegistryPlatform)
    ensures CachedFor(cached, p).Some? <==> exists i :: 0 <= i < |cached| && Platform(cached[i]) == p
    ensures CachedFor(cached, p).Some? ==>
              CachedFor(cached, p).value in cached && Platform(CachedFor(cached, p).value) == p
  {
    if cached != [] {
      CachedForIs(cached[1..], p);
      if CachedFor(cached[1..], p).Some? {
        var i :| 0 <= i < |cached[1..]| && Platform(cached[1..][i]) == p;
        assert Platform(cached[i + 1]) == p;
      }
      if exists i :: 0 <= i < |cached| && Platform(cached[i]) == p {
        var i :| 0 <= i < |cached| && Platform(cached[i]) == p;
        if i > 0 { assert cached[1..][i - 1] == cached[i]; }
      }
    }
  }

  lemma {:induction false} LastFetchedIs(fetched: seq<Fetch>, p: RegistryPlatform, n: nat) returns (i: nat)
    requires n <= |fetched| && LastFetched(fetched, p, n).Some?
    ensures i < n && fetched[i] == Fetched(LastFetched(fetched, p, n).value) && Platform(fetched[i].package) == p
    ensures forall j :: i < j < n && fetched[j].Fetched? ==> Platform(fetched[j].package) != p
  {
    if fetched[n - 1].Fetched? && Platform(fetched[n - 1].package) == p {
      i := n - 1;
    } else {
      i := LastFetchedIs(fetched, p, n - 1);
    }
  }

  /** The stored platforms come from the index, in its order, and are no more than it has;
      with a distinct index they are distinct. */
  lemma {:induction false} MergedFollowsIndex(summary: seq<RegistryPlatform>, cached: seq<Package>,
                                              fetched: seq<Fetch>, n: nat)
    returns (from: seq<nat>)
    requires AnswersRequests(summary, fetched) && n <= |summary|
    ensures var m := Merged(summary, cached, fetched, n);
            && |m| == |from| <= n
            && (forall k :: 0 <= k < |from| ==> from[k] < n && Platform(m[k]) == summary[from[k]])
            && (forall k, l :: 0 <= k < l < |from| ==> from[k] < from[l])
  {
    from := [];
    if n > 0 {
      from := MergedFollowsIndex(summary, cached, fetched, n - 1);
      var c := Contribution(summary, cached, fetched, n - 1);
      if c.Some? {
        var f := LastFetched(fetched, summary[n - 1], |fetched|);
        if summary[n - 1] !in summary[..n - 1] && f.Some? {
          var i := LastFetchedIs(fetched, summary[n - 1], |fetched|);
        } else {
          CachedForIs(cached, summary[n - 1]);
        }
        from := from + [n - 1];
      }
    }
  }

  /** Validated fetches over a validated cache give a validated list. */
  lemma {:induction false} MergedIsValid(syn: Syntax, key: VersionKey, summary: seq<RegistryPlatform>,
                                         cached: seq<Package>, fetched: seq<Fetch>, n: nat)
    requires AnswersRequests(summary, fetched) && n <= |summary|
    requires ValidatePackages(syn, key, cached)
    requires forall i :: 0 <= i < |fetched| && fetched[i].Fetched? ==>
               ValidatePackage(syn, key, summary[i], fetched[i].package)
    ensures ValidatePackages(syn, key, Merged(summary, cached, fetched, n))
  {
    hide ValidatePackage;
    if n > 0 {
      MergedIsValid(syn, key, summary, cached, fetched, n - 1);
      var p := summary[n - 1];
      var f := LastFetched(fetched, p, |fetched|);
      if f.Some? { var i := LastFetchedIs(fetched, p, |fetched|); }
      CachedForIs(cached, p);
    }
  }
}
