/** Dependency paths: every chain from an independent claim down to a given claim. */
module DependencyPaths {
  import opened Basics
  import opened ClaimTree

  const MAX_DEPENDENCY_PATHS := 256

  /** What one branch of the search meets: a finished path, or a number no claim has. */
  datatype Visit = Reached(path: seq<int>) | Missing(number: int)

  datatype PathList = PathList(paths: seq<seq<int>>, truncated: bool)

  /** Everything the unlimited depth-first search meets, in order. */
  function Walk(cs: ClaimSet, n: int, suffix: seq<int>): seq<Visit>
    decreases Numbers(cs) - Elements(suffix), 0
  {
    if n in suffix then []
    else match cs.Find(n)
      case None => [Missing(n)]
      case Some(claim) =>
        if claim.dependsOn == [] then [Reached([n] + suffix)]
        else
          assert n in Numbers(cs) - Elements(suffix) && n !in Numbers(cs) - Elements([n] + suffix);
          WalkAll(cs, claim.dependsOn, [n] + suffix)
  }

  function WalkAll(cs: ClaimSet, parents: seq<int>, suffix: seq<int>): seq<Visit>
    decreases Numbers(cs) - Elements(suffix), |parents|
  {
    if parents == [] then [] else Walk(cs, parents[0], suffix) + WalkAll(cs, parents[1..], suffix)
  }

  function Found(visits: seq<Visit>): (paths: seq<seq<int>>)
    ensures forall p :: p in paths <==> Reached(p) in visits
    ensures |paths| <= |visits|
  {
    if visits == [] then []
    else (if visits[0].Reached? then [visits[0].path] else []) + Found(visits[1..])
  }

  /** The complete list of dependency paths of claim `n`, in search order. */
  function AllPaths(cs: ClaimSet, n: int): seq<seq<int>> {
    Found(Walk(cs, n, []))
  }

  /** Reference definition: a cycle-free chain from an independent claim to claim `n`, root first. */
  ghost predicate IsDependencyPath(cs: ClaimSet, path: seq<int>, n: int) {
    && |path| > 0 && path[|path| - 1] == n
    && Distinct(path)
    && Independent(cs, path[0])
    && IsChain(cs, path)
  }

  // ----- the search finds exactly the dependency paths

  lemma {:induction false} WalkAllOrigin(cs: ClaimSet, parents: seq<int>, suffix: seq<int>, v: Visit)
      returns (p: int)
    requires v in WalkAll(cs, parents, suffix)
    ensures p in parents && v in Walk(cs, p, suffix)
    decreases |parents|
  {
    if v in Walk(cs, parents[0], suffix) {
      p := parents[0];
    } else {
      p := WalkAllOrigin(cs, parents[1..], suffix, v);
    }
  }

  lemma {:induction false} WalkAllContains(cs: ClaimSet, parents: seq<int>, suffix: seq<int>, p: int, v: Visit)
    requires p in parents && v in Walk(cs, p, suffix)
    ensures v in WalkAll(cs, parents, suffix)
    decreases |parents|
  {
    if p != parents[0] {
      WalkAllContains(cs, parents[1..], suffix, p, v);
    }
  }

  ghost predicate Above(cs: ClaimSet, path: seq<int>, n: int, suffix: seq<int>) {
    IsDependencyPath(cs, path, n) && forall m :: m in path ==> m !in suffix
  }

  lemma {:induction false} WalkSound(cs: ClaimSet, n: int, suffix: seq<int>, q: seq<int>) returns (path: seq<int>)
    requires Reached(q) in Walk(cs, n, suffix)
    ensures q == path + suffix && Above(cs, path, n, suffix)
    decreases Numbers(cs) - Elements(suffix)
  {
    var claim := cs.Find(n).value;
    if claim.dependsOn == [] {
      path := [n];
    } else {
      assert n in Numbers(cs) - Elements(suffix) && n !in Numbers(cs) - Elements([n] + suffix);
      var p := WalkAllOrigin(cs, claim.dependsOn, [n] + suffix, Reached(q));
      var head := WalkSound(cs, p, [n] + suffix, q);
      path := head + [n];
      assert n !in head;
    }
  }

  lemma {:induction false} WalkComplete(cs: ClaimSet, n: int, suffix: seq<int>, path: seq<int>)
    requires Above(cs, path, n, suffix)
    ensures Reached(path + suffix) in Walk(cs, n, suffix)
    decreases |path|
  {
    if |path| == 1 {
      assert path == [n];
    } else {
      var head, last := path[..|path| - 1], |path| - 1;
      assert path == head + [n];
      assert path[last - 1] in References(cs, n);
      WalkComplete(cs, path[last - 1], [n] + suffix, head);
      assert head + ([n] + suffix) == path + suffix;
      WalkAllContains(cs, References(cs, n), [n] + suffix, path[last - 1], Reached(path + suffix));
    }
  }

  /** On any reference graph the search lists the cycle-free root-first chains, all of them and no others. */
  lemma AllPathsAreTheDependencyPaths(cs: ClaimSet, n: int)
    ensures forall path :: path in AllPaths(cs, n) <==> IsDependencyPath(cs, path, n)
  {
    forall path
      ensures path in AllPaths(cs, n) <==> IsDependencyPath(cs, path, n)
    {
      if path in AllPaths(cs, n) {
        var same := WalkSound(cs, n, [], path);
        assert path == same;
      }
      if IsDependencyPath(cs, path, n) {
        WalkComplete(cs, n, [], path);
        assert path + [] == path;
      }
    }
  }

  // ----- no path is listed twice

  ghost predicate ReferencesDistinct(cs: ClaimSet) {
    forall n :: n in Numbers(cs) ==> Distinct(References(cs, n))
  }

  lemma {:induction false} FoundConcat(a: seq<Visit>, b: seq<Visit>)
    ensures Found(a + b) == Found(a) + Found(b)
  {
    if a == [] {
      assert a + b == b;
    } else {
      FoundConcat(a[1..], b);
      FoundAfterFirst(a + b, a[0], a[1..] + b);
      FoundAfterFirst(a, a[0], a[1..]);
    }
  }

  lemma FoundAfterFirst(visits: seq<Visit>, first: Visit, rest: seq<Visit>)
    requires visits == [first] + rest
    ensures Found(visits) == (if first.Reached? then [first.path] else []) + Found(rest)
  {
    assert visits[1..] == rest;
  }

  lemma {:induction false} WalkDistinct(cs: ClaimSet, n: int, suffix: seq<int>)
    requires ReferencesDistinct(cs)
    ensures Distinct(Found(Walk(cs, n, suffix)))
    decreases Numbers(cs) - Elements(suffix), 0
  {
    if n !in suffix && cs.Find(n).Some? && cs.Find(n).value.dependsOn != [] {
      assert n in Numbers(cs) - Elements(suffix) && n !in Numbers(cs) - Elements([n] + suffix);
      assert Distinct(References(cs, n));
      WalkAllDistinct(cs, References(cs, n), [n] + suffix);
    }
  }

  lemma {:induction false} WalkAllDistinct(cs: ClaimSet, parents: seq<int>, suffix: seq<int>)
    requires ReferencesDistinct(cs) && Distinct(parents)
    ensures Distinct(Found(WalkAll(cs, parents, suffix)))
    decreases Numbers(cs) - Elements(suffix), |parents|
  {
    if parents != [] {
      var first, rest := Walk(cs, parents[0], suffix), WalkAll(cs, parents[1..], suffix);
      WalkDistinct(cs, parents[0], suffix);
      WalkAllDistinct(cs, parents[1..], suffix);
      FoundConcat(first, rest);
      forall q | q in Found(first)
        ensures |q| > |suffix| && q[|q| - |suffix| - 1] == parents[0]
      {
        var path := WalkSound(cs, parents[0], suffix, q);
      }
      forall q | q in Found(rest)
        ensures |q| > |suffix| && q[|q| - |suffix| - 1] in parents[1..]
      {
        var p := WalkAllOrigin(cs, parents[1..], suffix, Reached(q));
        var path := WalkSound(cs, p, suffix, q);
      }
      DistinctConcat(Found(first), Found(rest));
    }
  }

  // ----- what the limited search collects

  /** The search in progress: paths kept, whether the limit was passed, whether a KeyError was raised. */
  datatype Progress = Progress(paths: seq<seq<int>>, truncated: bool, failed: bool)

  function Collect(state: Progress, visits: seq<Visit>, limit: int): Progress
    decreases visits
  {
    if visits == [] || state.truncated || state.failed then state
    else
      match visits[0]
      case Missing(_) => state.(failed := true)
      case Reached(path) =>
        if |state.paths| >= limit then state.(truncated := true)
        else Collect(state.(paths := state.paths + [path]), visits[1..], limit)
  }

  lemma {:induction false} CollectConcat(state: Progress, a: seq<Visit>, b: seq<Visit>, limit: int)
    ensures Collect(state, a + b, limit) == Collect(Collect(state, a, limit), b, limit)
    decreases a
  {
    if a == [] {
      assert a + b == b;
    } else {
      assert (a + b)[1..] == a[1..] + b;
      if !state.truncated && !state.failed && a[0].Reached? && |state.paths| < limit {
        CollectConcat(state.(paths := state.paths + [a[0].path]), a[1..], b, limit);
      }
    }
  }

  /** The result of `dependency_paths`; None where the original raises KeyError. */
  function PathsUpTo(cs: ClaimSet, n: int, limit: int): Option<PathList> {
    var end := Collect(Progress([], false, false), Walk(cs, n, []), limit);
    if end.failed then None else Some(PathList(end.paths, end.truncated))
  }

  class PathSearch {
    const claimSet: ClaimSet
    const limit: int
    var paths: seq<seq<int>>
    var truncated: bool

    constructor (claimSet: ClaimSet, limit: int)
      ensures this.claimSet == claimSet && this.limit == limit
      ensures paths == [] && !truncated
    {
      this.claimSet, this.limit := claimSet, limit;
      paths, truncated := [], false;
    }

    method Visit(n: int, suffix: seq<int>) returns (ok: bool)
      modifies this
      ensures Progress(paths, truncated, !ok) ==
              Collect(old(Progress(paths, truncated, false)), Walk(claimSet, n, suffix), limit)
      decreases Numbers(claimSet) - Elements(suffix)
    {
      if truncated {
        return true;
      }
      if n in suffix {
        return true;
      }
      var claim := claimSet.Find(n);
      if claim.None? {
        return false;
      }
      if claim.value.dependsOn == [] {
        if |paths| >= limit {
          truncated := true;
          return true;
        }
        paths := paths + [[n] + suffix];
        return true;
      }
      assert n in Numbers(claimSet) - Elements(suffix) && n !in Numbers(claimSet) - Elements([n] + suffix);
      ghost var before := Progress(paths, truncated, false);
      var parents := claim.value.dependsOn;
      for i := 0 to |parents|
        invariant Collect(before, WalkAll(claimSet, parents, [n] + suffix), limit) ==
                  Collect(Progress(paths, truncated, false), WalkAll(claimSet, parents[i..], [n] + suffix), limit)
      {
        ghost var now := Progress(paths, truncated, false);
        ghost var next := Walk(claimSet, parents[i], [n] + suffix);
        ghost var rest := WalkAll(claimSet, parents[i + 1..], [n] + suffix);
        assert parents[i..][1..] == parents[i + 1..];
        CollectConcat(now, next, rest, limit);
        ok := Visit(parents[i], [n] + suffix);
        if !ok {
          return false;
        }
      }
      return true;
    }
  }

  method FindDependencyPaths(cs: ClaimSet, number: int, limit: int) returns (r: Option<PathList>)
    ensures r == PathsUpTo(cs, number, limit)
  {
    var search := new PathSearch(cs, limit);
    var ok := search.Visit(number, []);
    r := if ok then Some(PathList(search.paths, search.truncated)) else None;
  }

  lemma TakeOfConcat<T>(a: seq<T>, x: T, b: seq<T>, room: nat)
    requires room > 0
    ensures a + ([x] + b)[..Min(room, 1 + |b|)] == a + [x] + b[..Min(room - 1, |b|)]
  {
    assert ([x] + b)[..Min(room, 1 + |b|)] == [x] + b[..Min(room - 1, |b|)];
  }

  /** As long as no missing claim comes up, the search keeps what it finds until there is no room. */
  lemma {:induction false} CollectReached(state: Progress, visits: seq<Visit>, limit: int)
    requires !state.truncated && !state.failed && |state.paths| <= Max(limit, 0)
    ensures
      var end, room := Collect(state, visits, limit), Max(limit, 0) - |state.paths|;
      !end.failed ==>
        && end.truncated == (|Found(visits)| > room)
        && end.paths == state.paths + Found(visits)[..Min(room, |Found(visits)|)]
    decreases visits
  {
    if visits != [] && visits[0].Reached? && |state.paths| < limit {
      var path, rest := visits[0].path, Found(visits[1..]);
      CollectReached(state.(paths := state.paths + [path]), visits[1..], limit);
      TakeOfConcat(state.paths, path, rest, Max(limit, 0) - |state.paths|);
    }
  }

  lemma {:induction false} CompleteNeverMisses(cs: ClaimSet, n: int, suffix: seq<int>, v: Visit)
    requires CompleteAbove(cs, n) && v in Walk(cs, n, suffix)
    ensures v.Reached?
    decreases Numbers(cs) - Elements(suffix)
  {
    assert AtOrAbove(cs, n, n);
    if References(cs, n) != [] {
      assert n !in suffix;
      assert n in Numbers(cs) - Elements(suffix) && n !in Numbers(cs) - Elements([n] + suffix);
      var p := WalkAllOrigin(cs, References(cs, n), [n] + suffix, v);
      ParentIsComplete(cs, n, p);
      CompleteNeverMisses(cs, p, [n] + suffix, v);
    }
  }

  lemma {:induction false} CollectKeepsFound(state: Progress, visits: seq<Visit>, limit: int)
    ensures forall p :: p in Collect(state, visits, limit).paths ==> p in state.paths || p in Found(visits)
    decreases visits
  {
    if visits != [] && !state.truncated && !state.failed && visits[0].Reached? && |state.paths| < limit {
      CollectKeepsFound(state.(paths := state.paths + [visits[0].path]), visits[1..], limit);
    }
  }

  /** Whether the search meets a missing claim before it has found one path too many. */
  ghost predicate MissesWithin(visits: seq<Visit>, room: int) {
    exists i :: 0 <= i < |visits| && visits[i].Missing? && |Found(visits[..i])| <= room
  }

  lemma {:induction false} CollectFails(state: Progress, visits: seq<Visit>, limit: int)
    requires !state.truncated && !state.failed && |state.paths| <= Max(limit, 0)
    ensures Collect(state, visits, limit).failed <==> MissesWithin(visits, Max(limit, 0) - |state.paths|)
    decreases visits
  {
    var room := Max(limit, 0) - |state.paths|;
    if visits == [] {
    } else if visits[0].Missing? {
      assert visits[..0] == [];
    } else {
      forall i | 1 <= i < |visits|
        ensures |Found(visits[..i])| == 1 + |Found(visits[1..][..i - 1])|
      {
        assert visits[..i][1..] == visits[1..][..i - 1];
      }
      if |state.paths| < limit {
        CollectFails(state.(paths := state.paths + [visits[0].path]), visits[1..], limit);
        if MissesWithin(visits[1..], room - 1) {
          var i :| 0 <= i < |visits[1..]| && visits[1..][i].Missing? && |Found(visits[1..][..i])| <= room - 1;
          assert visits[i + 1].Missing?;
        }
        if MissesWithin(visits, room) {
          var i :| 0 <= i < |visits| && visits[i].Missing? && |Found(visits[..i])| <= room;
          assert visits[1..][i - 1].Missing?;
        }
      }
    }
  }

  /** On any set: KeyError exactly when a missing claim comes up before the limit is passed. */
  lemma LimitedSearchFailsExactly(cs: ClaimSet, n: int, limit: int)
    ensures PathsUpTo(cs, n, limit) == None <==> MissesWithin(Walk(cs, n, []), Max(limit, 0))
  {
    CollectFails(Progress([], false, false), Walk(cs, n, []), limit);
  }

  /** The list as far as it fits, and whether there is more. */
  function Prefix(all: seq<seq<int>>, room: nat): PathList {
    PathList(all[..Min(room, |all|)], |all| > room)
  }

  /**
   * On any set and for any limit: KeyError when a missing claim comes up before the limit is passed, and
   * otherwise the first min(limit, |P|) entries of the full list P, with truncation reported exactly when P
   * has an entry beyond the limit.
   */
  lemma LimitedSearchIsPrefix(cs: ClaimSet, n: int, limit: int)
    ensures var room := Max(limit, 0);
            PathsUpTo(cs, n, limit)
            == if MissesWithin(Walk(cs, n, []), room) then None else Some(Prefix(AllPaths(cs, n), room))
  {
    LimitedSearchFailsExactly(cs, n, limit);
    CollectReached(Progress([], false, false), Walk(cs, n, []), limit);
    var kept := AllPaths(cs, n)[..Min(Max(limit, 0), |AllPaths(cs, n)|)];
    assert [] + kept == kept;
  }

  /** When every claim the search can reach exists, the list is always produced. */
  lemma CompleteSearchIsPrefix(cs: ClaimSet, n: int, limit: int)
    requires CompleteAbove(cs, n)
    ensures PathsUpTo(cs, n, limit) == Some(Prefix(AllPaths(cs, n), Max(limit, 0)))
  {
    var visits := Walk(cs, n, []);
    forall i | 0 <= i < |visits|
      ensures visits[i].Reached?
    {
      CompleteNeverMisses(cs, n, [], visits[i]);
    }
    LimitedSearchIsPrefix(cs, n, limit);
  }

  // ----- how fast the list grows

  /** Claims 1..count, each referring to every earlier claim ("any preceding claim"). */
  ghost predicate RefersToAllPreceding(cs: ClaimSet, count: nat) {
    && Numbers(cs) == Elements(Range(1, count + 1))
    && forall k :: 1 <= k <= count ==> References(cs, k) == Range(1, k)
  }

  /** Paths ending at a claim below `k`: none for k = 1, then doubling. */
  function PathsBelow(k: int): nat {
    if k <= 1 then 0 else Pow2(k - 2)
  }

  lemma {:induction false} CountPaths(cs: ClaimSet, count: nat, n: int, suffix: seq<int>)
    requires RefersToAllPreceding(cs, count) && 1 <= n <= count
    requires forall m :: m in suffix ==> m > n
    ensures |Found(Walk(cs, n, suffix))| == PathsBelow(n + 1) - PathsBelow(n)
    decreases n, n
  {
    WalkOfPreceding(cs, count, n, suffix);
    if n > 1 {
      CountPathsOfAll(cs, count, 1, n, [n] + suffix);
    }
  }

  lemma WalkOfPreceding(cs: ClaimSet, count: nat, n: int, suffix: seq<int>)
    requires RefersToAllPreceding(cs, count) && 1 <= n <= count && n !in suffix
    ensures n > 1 ==> Walk(cs, n, suffix) == WalkAll(cs, Range(1, n), [n] + suffix)
    ensures n == 1 ==> |Found(Walk(cs, n, suffix))| == 1
  {
    assert n in Numbers(cs) && cs.Find(n).Some?;
    assert n > 1 ==> 1 in References(cs, n);
    if n == 1 {
      assert References(cs, 1) == [];
      var reached := [Reached([n] + suffix)];
      assert Walk(cs, n, suffix) == reached && reached[1..] == [];
    }
  }

  lemma {:induction false} CountPathsOfAll(cs: ClaimSet, count: nat, a: int, b: int, suffix: seq<int>)
    requires RefersToAllPreceding(cs, count) && 1 <= a <= b <= count
    requires forall m :: m in suffix ==> m >= b
    ensures |Found(WalkAll(cs, Range(a, b), suffix))| == PathsBelow(b) - PathsBelow(a)
    decreases b, b - a
  {
    if a < b {
      CountPaths(cs, count, a, suffix);
      CountPathsOfAll(cs, count, a + 1, b, suffix);
      FoundOfRange(cs, a, b, suffix);
    }
  }

  lemma FoundOfRange(cs: ClaimSet, a: int, b: int, suffix: seq<int>)
    requires a < b
    ensures |Found(WalkAll(cs, Range(a, b), suffix))|
            == |Found(Walk(cs, a, suffix))| + |Found(WalkAll(cs, Range(a + 1, b), suffix))|
  {
    assert Range(a, b)[1..] == Range(a + 1, b);
    FoundConcat(Walk(cs, a, suffix), WalkAll(cs, Range(a + 1, b), suffix));
  }

  lemma Pow2Grows(a: nat, b: nat)
    requires a <= b
    ensures Pow2(a) <= Pow2(b)
  {
  }

  lemma LimitPassedFromEleven(n: int)
    requires 2 <= n
    ensures Pow2(n - 2) > MAX_DEPENDENCY_PATHS <==> n >= 11
  {
    assert Pow2(8) == 256;
    if n >= 11 {
      Pow2Grows(9, n - 2);
    } else {
      Pow2Grows(n - 2, 8);
    }
  }

  lemma PrecedingIsClosed(cs: ClaimSet, count: nat)
    requires RefersToAllPreceding(cs, count)
    ensures Closed(cs)
  {
  }

  /** "Any preceding claim" throughout: claim n has 2^(n-2) paths, so the default limit bites exactly from claim 11. */
  lemma PrecedingClaimsDouble(cs: ClaimSet, count: nat, n: int)
    requires RefersToAllPreceding(cs, count) && 2 <= n <= count
    ensures |AllPaths(cs, n)| == Pow2(n - 2)
    ensures PathsUpTo(cs, n, MAX_DEPENDENCY_PATHS).Some?
    ensures PathsUpTo(cs, n, MAX_DEPENDENCY_PATHS).value.truncated <==> n >= 11
  {
    CountPaths(cs, count, n, []);
    PrecedingIsClosed(cs, count);
    ClosedIsComplete(cs, n);
    CompleteSearchIsPrefix(cs, n, MAX_DEPENDENCY_PATHS);
    LimitPassedFromEleven(n);
  }
}
