/** What the memoised claim conclusion means in terms of dependency paths. */
module ClaimTheorems {
  import opened Basics
  import opened ClaimTree
  import opened DependencyPaths
  import opened ClaimCharts

  // ----- paths and their last step

  lemma PathMembersAreClaims(cs: ClaimSet, path: seq<int>, n: int)
    requires IsDependencyPath(cs, path, n)
    ensures forall m :: m in path ==> m in Numbers(cs)
  {
    forall i | 0 <= i < |path|
      ensures path[i] in Numbers(cs)
    {
      if i > 0 {
        assert path[i - 1] in References(cs, path[i]);
      }
    }
  }

  /** A path to a dependent claim is a path to one of its references, with the claim added. */
  lemma PathLosesLast(cs: ClaimSet, path: seq<int>, n: int) returns (p: int, front: seq<int>)
    requires IsDependencyPath(cs, path, n) && (|path| > 1 || References(cs, n) != [])
    ensures p in References(cs, n) && path == front + [n] && IsDependencyPath(cs, front, p)
  {
    var last := |path| - 1;
    assert last > 0;
    front, p := path[..last], path[last - 1];
    assert p in References(cs, path[last]);
  }

  lemma PathGainsLast(cs: ClaimSet, front: seq<int>, p: int, n: int)
    requires IsDependencyPath(cs, front, p) && p in References(cs, n) && n !in front
    ensures IsDependencyPath(cs, front + [n], n)
  {
  }

  lemma ReadsAtNeedsOwn(cs: ClaimSet, a: Assessments, n: int, r: nat)
    requires 1 <= r <= 3 && ReadsAt(cs, a, n, r)
    ensures OwnRank(cs, a, n) >= r
  {
    var path :| IsDependencyPath(cs, path, n) && PathRank(cs, a, path) >= r;
    PathRankAtLeast(cs, a, path, r);
    assert path[|path| - 1] == n;
  }

  lemma ReadsAtNeedsParent(cs: ClaimSet, a: Assessments, n: int, r: nat) returns (p: int)
    requires 1 <= r <= 3 && ReadsAt(cs, a, n, r) && References(cs, n) != []
    ensures p in References(cs, n) && ReadsAt(cs, a, p, r)
  {
    var path :| IsDependencyPath(cs, path, n) && PathRank(cs, a, path) >= r;
    var front;
    p, front := PathLosesLast(cs, path, n);
    PathRankAtLeast(cs, a, path, r);
    PathRankAtLeast(cs, a, front, r);
  }

  lemma IndependentReadsAtOwn(cs: ClaimSet, a: Assessments, n: int, r: nat)
    requires 1 <= r <= 3 && Independent(cs, n)
    ensures ReadsAt(cs, a, n, r) <==> OwnRank(cs, a, n) >= r
  {
    assert IsDependencyPath(cs, [n], n);
    PathRankAtLeast(cs, a, [n], r);
    if ReadsAt(cs, a, n, r) {
      ReadsAtNeedsOwn(cs, a, n, r);
    }
  }

  // ----- soundness on every closed set, cycles included

  /** `path` witnesses the reading recorded for `k`; it uses only claims recorded as reading. */
  ghost predicate Supports(cs: ClaimSet, a: Assessments, memo: Memo, k: int, path: seq<int>) {
    && k in memo
    && IsDependencyPath(cs, path, k)
    && forall m :: m in path ==>
         m in memo && Rank(memo[m]) >= 2 && OwnRank(cs, a, m) >= Rank(memo[k])
  }

  ghost predicate SoundEntry(cs: ClaimSet, a: Assessments, memo: Memo, k: int)
    requires k in memo
  {
    && (Rank(memo[k]) >= 2 ==> exists path :: Supports(cs, a, memo, k, path))
    && (memo[k] == DoesNotRead ==> !ReadsAt(cs, a, k, 1))
  }

  ghost predicate SoundMemo(cs: ClaimSet, a: Assessments, memo: Memo) {
    forall k :: k in memo ==> SoundEntry(cs, a, memo, k)
  }

  /** Overwriting an entry that did not read spoils no other entry. */
  lemma SoundUpdate(cs: ClaimSet, a: Assessments, memo: Memo, n: int, c: Conclusion)
    requires SoundMemo(cs, a, memo)
    requires n in memo ==> Rank(memo[n]) < 2
    requires SoundEntry(cs, a, memo[n := c], n)
    ensures SoundMemo(cs, a, memo[n := c])
  {
    var updated := memo[n := c];
    forall k | k in updated
      ensures SoundEntry(cs, a, updated, k)
    {
      if k != n {
        assert SoundEntry(cs, a, memo, k);
        if Rank(memo[k]) >= 2 {
          var path :| Supports(cs, a, memo, k, path);
          assert Supports(cs, a, updated, k, path);
        }
      }
    }
  }

  /** The references of `n` have been concluded, and `n` itself is still guarded. */
  ghost predicate Concluded(cs: ClaimSet, n: int, memo: Memo, conclusions: seq<Conclusion>) {
    References(cs, n) != [] && Recorded(References(cs, n), memo, conclusions) && n in memo && memo[n] == Undetermined
  }

  ghost predicate Recorded(refs: seq<int>, memo: Memo, conclusions: seq<Conclusion>) {
    |conclusions| == |refs| && forall i :: 0 <= i < |refs| ==> refs[i] in memo && memo[refs[i]] == conclusions[i]
  }

  lemma CombinedReadingIsSupported(
      cs: ClaimSet, a: Assessments, n: int, memo: Memo, conclusions: seq<Conclusion>, c: Conclusion)
    requires n in Numbers(cs) && SoundMemo(cs, a, memo) && Concluded(cs, n, memo, conclusions)
    requires 2 <= Rank(c) <= OwnRank(cs, a, n) && Rank(c) <= Rank(BestOf(conclusions))
    ensures var updated := memo[n := c];
            exists path :: Supports(cs, a, updated, n, path)
  {
    var refs := References(cs, n);
    var i :| 0 <= i < |refs| && conclusions[i] == BestOf(conclusions);
    assert SoundEntry(cs, a, memo, refs[i]);
    var front :| Supports(cs, a, memo, refs[i], front);
    SupportGainsLast(cs, a, memo, front, refs[i], n, c);
  }

  lemma SupportGainsLast(cs: ClaimSet, a: Assessments, memo: Memo, front: seq<int>, p: int, n: int, c: Conclusion)
    requires Supports(cs, a, memo, p, front)
    requires n in Numbers(cs) && p in References(cs, n) && n in memo && memo[n] == Undetermined
    requires 2 <= Rank(c) <= OwnRank(cs, a, n) && Rank(c) <= Rank(memo[p])
    ensures Supports(cs, a, memo[n := c], n, front + [n])
  {
    PathGainsLast(cs, front, p, n);
  }

  lemma CombinedRefusalIsSound(cs: ClaimSet, a: Assessments, n: int, memo: Memo, conclusions: seq<Conclusion>)
    requires n in Numbers(cs) && SoundMemo(cs, a, memo) && Concluded(cs, n, memo, conclusions)
    requires Rank(BestOf(conclusions)) == 0
    ensures !ReadsAt(cs, a, n, 1)
  {
    var refs := References(cs, n);
    forall p | p in refs
      ensures !ReadsAt(cs, a, p, 1)
    {
      var j :| 0 <= j < |refs| && refs[j] == p;
      assert conclusions[j] in conclusions && SoundEntry(cs, a, memo, refs[j]);
    }
    if ReadsAt(cs, a, n, 1) {
      var p := ReadsAtNeedsParent(cs, a, n, 1);
    }
  }

  /** The entry written once the references of `n` are concluded is sound. */
  lemma CombinedEntryIsSound(cs: ClaimSet, a: Assessments, n: int, memo: Memo, conclusions: seq<Conclusion>)
    requires n in Numbers(cs) && SoundMemo(cs, a, memo) && Concluded(cs, n, memo, conclusions)
    requires OwnRank(cs, a, n) != 0
    ensures SoundEntry(cs, a, memo[n := Combine(OfRank(OwnRank(cs, a, n)), conclusions)], n)
  {
    var c := Combine(OfRank(OwnRank(cs, a, n)), conclusions);
    CombineIsMinOfBest(OfRank(OwnRank(cs, a, n)), conclusions);
    if Rank(c) >= 2 {
      CombinedReadingIsSupported(cs, a, n, memo, conclusions, c);
    }
    if c == DoesNotRead {
      CombinedRefusalIsSound(cs, a, n, memo, conclusions);
    }
  }

  lemma {:induction false} EvaluateSound(cs: ClaimSet, a: Assessments, n: int, memo: Memo)
    requires SoundMemo(cs, a, memo)
    ensures SoundMemo(cs, a, Evaluate(cs, a, n, memo).memo)
    decreases Numbers(cs) - memo.Keys, 0
  {
    if n !in memo {
      SoundUpdate(cs, a, memo, n, Undetermined);
    }
    if n !in memo && cs.Find(n).Some? {
      var guarded, claim := memo[n := Undetermined], cs.Find(n).value;
      var own := OfRank(FeaturesRank(a, claim.features));
      if own == DoesNotRead || claim.dependsOn == [] {
        assert SoundEntry(cs, a, guarded[n := own], n) by {
          if own == DoesNotRead && ReadsAt(cs, a, n, 1) {
            ReadsAtNeedsOwn(cs, a, n, 1);
          }
          if Rank(own) >= 2 {
            assert Supports(cs, a, guarded[n := own], n, [n]);
          }
        }
        SoundUpdate(cs, a, guarded, n, own);
      } else {
        assert n in Numbers(cs) - memo.Keys && n !in Numbers(cs) - guarded.Keys;
        EvaluateAllSound(cs, a, claim.dependsOn, guarded);
        var parents := EvaluateAll(cs, a, claim.dependsOn, guarded);
        if parents.result.Some? {
          CombinedEntryIsSound(cs, a, n, parents.memo, parents.result.value);
          SoundUpdate(cs, a, parents.memo, n, Combine(own, parents.result.value));
        }
      }
    }
  }

  lemma {:induction false} EvaluateAllSound(cs: ClaimSet, a: Assessments, ns: seq<int>, memo: Memo)
    requires SoundMemo(cs, a, memo)
    ensures SoundMemo(cs, a, EvaluateAll(cs, a, ns, memo).memo)
    decreases Numbers(cs) - memo.Keys, |ns|
  {
    if ns != [] {
      EvaluateSound(cs, a, ns[0], memo);
      if Evaluate(cs, a, ns[0], memo).result.Some? {
        EvaluateAllSound(cs, a, ns[1..], Evaluate(cs, a, ns[0], memo).memo);
      }
    }
  }

  ghost predicate HasAbsentFeature(cs: ClaimSet, a: Assessments, n: int) {
    cs.Find(n).Some? && exists f :: f in cs.Find(n).value.features && FindingOf(a, f) == Absent
  }

  lemma AbsentMeansRankZero(cs: ClaimSet, a: Assessments, n: int)
    requires n in Numbers(cs)
    ensures OwnRank(cs, a, n) == 0 <==> HasAbsentFeature(cs, a, n)
  {
    var features := cs.Find(n).value.features;
    FeaturesRankAtLeast(a, features, 1);
  }

  /** What a conclusion says about the dependency paths. */
  ghost predicate SoundConclusion(cs: ClaimSet, a: Assessments, n: int, c: Conclusion) {
    && (Rank(c) >= 2 ==> exists path ::
          IsDependencyPath(cs, path, n) && forall m :: m in path ==> OwnRank(cs, a, m) >= Rank(c))
    && (c == DoesNotRead ==> forall path ::
          IsDependencyPath(cs, path, n) ==> exists m :: m in path && HasAbsentFeature(cs, a, m))
    && ((forall path :: !IsDependencyPath(cs, path, n)) ==> Rank(c) <= 1)
  }

  /**
   * Any set, circular references and references to missing claims included: a reading has a cycle-free path
   * every claim of which is at least that good; "does not read" means an absent feature on every path; a claim
   * no path leads to never reads.
   */
  lemma ConclusionIsSound(cs: ClaimSet, a: Assessments, n: int)
    ensures ConclusionOf(cs, a, n).Some? ==> SoundConclusion(cs, a, n, ConclusionOf(cs, a, n).value)
  {
    EvaluateSound(cs, a, n, map[]);
    if ConclusionOf(cs, a, n).Some? {
      var memo := Evaluate(cs, a, n, map[]).memo;
      assert SoundEntry(cs, a, memo, n);
      if Rank(memo[n]) >= 2 {
        var path :| Supports(cs, a, memo, n, path);
        assert IsDependencyPath(cs, path, n);
      }
      if memo[n] == DoesNotRead {
        RefusedPathsHaveAbsentFeature(cs, a, n);
      }
    }
  }

  lemma RefusedPathsHaveAbsentFeature(cs: ClaimSet, a: Assessments, n: int)
    requires !ReadsAt(cs, a, n, 1)
    ensures forall path ::
              IsDependencyPath(cs, path, n) ==> exists m :: m in path && HasAbsentFeature(cs, a, m)
  {
    forall path | IsDependencyPath(cs, path, n)
      ensures exists m :: m in path && HasAbsentFeature(cs, a, m)
    {
      PathRankAtLeast(cs, a, path, 1);
      PathMembersAreClaims(cs, path, n);
      var m :| m in path && OwnRank(cs, a, m) < 1;
      AbsentMeansRankZero(cs, a, m);
    }
  }

  /** On a closed set there always is a conclusion. */
  lemma ClosedSetsConclude(cs: ClaimSet, a: Assessments, n: int)
    requires Closed(cs) && n in Numbers(cs)
    ensures ConclusionOf(cs, a, n).Some?
  {
    ClosedIsComplete(cs, n);
    CompleteSetsConclude(cs, a, n);
  }

  lemma CompleteSetsConclude(cs: ClaimSet, a: Assessments, n: int)
    requires CompleteAbove(cs, n)
    ensures ConclusionOf(cs, a, n).Some?
  {
    RaisesExactlyOnMissingChain(cs, a, n);
    if ConclusionOf(cs, a, n).None? {
      var chain :| MissingChain(cs, a, chain, n);
      assert AtOrAbove(cs, chain[0], n);
    }
  }

  // ----- exactness without circular references above the claim

  ghost predicate ExactEntry(cs: ClaimSet, a: Assessments, n: int, c: Conclusion) {
    forall r :: 1 <= r <= 3 ==> (Rank(c) >= r <==> ReadsAt(cs, a, n, r))
  }

  /** Every entry is exact except those of the claims still being concluded. */
  ghost predicate ExactMemo(cs: ClaimSet, a: Assessments, memo: Memo, active: set<int>) {
    forall k :: k in memo && k !in active ==> ExactEntry(cs, a, k, memo[k])
  }

  lemma {:induction false} LevelsAlongPath(cs: ClaimSet, level: map<int, nat>, path: seq<int>, n: int)
    requires Levelled(cs, level) && n in level && IsDependencyPath(cs, path, n)
    ensures forall m :: m in path ==> m in level && level[m] <= level[n]
    decreases |path|
  {
    if |path| > 1 {
      var p, front := PathLosesLast(cs, path, n);
      LevelsAlongPath(cs, level, front, p);
    } else {
      assert path == [n];
    }
  }

  lemma ParentReadingExtends(cs: ClaimSet, a: Assessments, level: map<int, nat>, n: int, p: int, r: nat)
    requires Levelled(cs, level) && n in level && p in References(cs, n) && 1 <= r <= 3
    requires OwnRank(cs, a, n) >= r && ReadsAt(cs, a, p, r)
    ensures ReadsAt(cs, a, n, r)
  {
    var front :| IsDependencyPath(cs, front, p) && PathRank(cs, a, front) >= r;
    LevelsAlongPath(cs, level, front, p);
    PathGainsLast(cs, front, p, n);
    PathRankAtLeast(cs, a, front, r);
    PathRankAtLeast(cs, a, front + [n], r);
  }

  lemma CombinedEntryIsExact(cs: ClaimSet, a: Assessments, level: map<int, nat>, n: int, conclusions: seq<Conclusion>)
    requires Levelled(cs, level) && n in level && OwnRank(cs, a, n) != 0
    requires var refs := References(cs, n);
             && refs != [] && |conclusions| == |refs|
             && forall i :: 0 <= i < |refs| ==> ExactEntry(cs, a, refs[i], conclusions[i])
    ensures ExactEntry(cs, a, n, Combine(OfRank(OwnRank(cs, a, n)), conclusions))
  {
    var refs, own, best := References(cs, n), OfRank(OwnRank(cs, a, n)), BestOf(conclusions);
    CombineIsMinOfBest(own, conclusions);
    forall r | 1 <= r <= 3
      ensures Min(Rank(own), Rank(best)) >= r <==> ReadsAt(cs, a, n, r)
    {
      if Min(Rank(own), Rank(best)) >= r {
        var i :| 0 <= i < |refs| && conclusions[i] == best;
        ParentReadingExtends(cs, a, level, n, refs[i], r);
      }
      if ReadsAt(cs, a, n, r) {
        ReadsAtNeedsOwn(cs, a, n, r);
        var p := ReadsAtNeedsParent(cs, a, n, r);
        var i :| 0 <= i < |refs| && refs[i] == p;
        assert Rank(conclusions[i]) >= r && conclusions[i] in conclusions;
      }
    }
  }

  lemma ShortCutEntryIsExact(cs: ClaimSet, a: Assessments, n: int)
    requires n in Numbers(cs) && (OwnRank(cs, a, n) == 0 || References(cs, n) == [])
    ensures ExactEntry(cs, a, n, OfRank(OwnRank(cs, a, n)))
  {
    forall r | 1 <= r <= 3
      ensures OwnRank(cs, a, n) >= r <==> ReadsAt(cs, a, n, r)
    {
      if References(cs, n) == [] {
        IndependentReadsAtOwn(cs, a, n, r);
      } else if ReadsAt(cs, a, n, r) {
        ReadsAtNeedsOwn(cs, a, n, r);
      }
    }
  }

  /** The claims still being concluded all lie above `n`. */
  ghost predicate AllAbove(level: map<int, nat>, active: set<int>, n: int) {
    n in level && forall k :: k in active ==> k in level && level[k] > level[n]
  }

  lemma ParentsAreBelow(cs: ClaimSet, level: map<int, nat>, active: set<int>, n: int)
    requires Levelled(cs, level) && AllAbove(level, active, n)
    ensures forall p :: p in References(cs, n) ==> AllAbove(level, active + {n}, p)
  {
  }

  lemma GuardKeepsExactness(cs: ClaimSet, a: Assessments, memo: Memo, n: int, active: set<int>)
    requires ExactMemo(cs, a, memo, active)
    ensures ExactMemo(cs, a, memo[n := Undetermined], active + {n})
  {
  }

  lemma EntryKeepsExactness(cs: ClaimSet, a: Assessments, memo: Memo, n: int, c: Conclusion, active: set<int>)
    requires ExactMemo(cs, a, memo, active + {n}) && ExactEntry(cs, a, n, c)
    ensures ExactMemo(cs, a, memo[n := c], active)
  {
  }

  lemma {:induction false} EvaluateExact(
      cs: ClaimSet, a: Assessments, level: map<int, nat>, n: int, memo: Memo, active: set<int>)
    requires Levelled(cs, level)
    requires ExactMemo(cs, a, memo, active) && AllAbove(level, active, n)
    ensures Evaluate(cs, a, n, memo).result.Some?
    ensures ExactMemo(cs, a, Evaluate(cs, a, n, memo).memo, active)
    ensures ExactEntry(cs, a, n, Evaluate(cs, a, n, memo).result.value)
    decreases Numbers(cs) - memo.Keys, 0
  {
    if n !in memo {
      var guarded, claim := memo[n := Undetermined], cs.Find(n).value;
      if OwnRank(cs, a, n) == 0 || claim.dependsOn == [] {
        ShortCutEntryIsExact(cs, a, n);
      } else {
        assert n in Numbers(cs) - memo.Keys && n !in Numbers(cs) - guarded.Keys;
        ParentsAreBelow(cs, level, active, n);
        GuardKeepsExactness(cs, a, memo, n, active);
        EvaluateAllExact(cs, a, level, claim.dependsOn, guarded, active + {n});
        var parents := EvaluateAll(cs, a, claim.dependsOn, guarded);
        CombinedEntryIsExact(cs, a, level, n, parents.result.value);
        EntryKeepsExactness(
          cs, a, parents.memo, n, Combine(OfRank(OwnRank(cs, a, n)), parents.result.value), active);
      }
    }
  }

  lemma {:induction false} EvaluateAllExact(
      cs: ClaimSet, a: Assessments, level: map<int, nat>, ns: seq<int>, memo: Memo, active: set<int>)
    requires Levelled(cs, level) && ExactMemo(cs, a, memo, active)
    requires forall n :: n in ns ==> AllAbove(level, active, n)
    ensures EvaluateAll(cs, a, ns, memo).result.Some?
    ensures ExactMemo(cs, a, EvaluateAll(cs, a, ns, memo).memo, active)
    ensures var conclusions := EvaluateAll(cs, a, ns, memo).result.value;
            forall i :: 0 <= i < |ns| ==> ExactEntry(cs, a, ns[i], conclusions[i])
    decreases Numbers(cs) - memo.Keys, |ns|
  {
    if ns != [] {
      EvaluateExact(cs, a, level, ns[0], memo, active);
      EvaluateAllExact(cs, a, level, ns[1..], Evaluate(cs, a, ns[0], memo).memo, active);
    }
  }

  /** The fast form gives what the slow one does: the best over all paths of the worst along the path. */
  ghost predicate IsExact(cs: ClaimSet, a: Assessments, n: int) {
    ConclusionOf(cs, a, n) == Some(OfRank(BestRank(cs, a, AllPaths(cs, n))))
  }

  /**
   * The fast form equals the slow one: when the references above a claim lead neither round a circle nor to a
   * missing claim, the memoised recursion gives the best, over all dependency paths, of the all-elements
   * conclusion on the path's features.
   */
  lemma ConclusionIsExact(cs: ClaimSet, a: Assessments, n: int)
    requires CompleteAbove(cs, n) && !CircleAbove(cs, n)
    ensures IsExact(cs, a, n)
  {
    var level := CircleFreeHasLevels(cs, n);
    EvaluateExact(cs, a, level, n, map[], {});
    var c, best := ConclusionOf(cs, a, n).value, BestRank(cs, a, AllPaths(cs, n));
    BestOverAllPaths(cs, a, n, 1);
    BestOverAllPaths(cs, a, n, 2);
    BestOverAllPaths(cs, a, n, 3);
    SameRank(cs, a, n, c, best);
  }

  lemma SameRank(cs: ClaimSet, a: Assessments, n: int, c: Conclusion, best: nat)
    requires ExactEntry(cs, a, n, c) && best <= 3
    requires best >= 1 <==> ReadsAt(cs, a, n, 1)
    requires best >= 2 <==> ReadsAt(cs, a, n, 2)
    requires best >= 3 <==> ReadsAt(cs, a, n, 3)
    ensures c == OfRank(best)
  {
  }

  /** Every claim of a dependency path exists, so its features can be listed. */
  lemma {:induction false} PathFeaturesExist(cs: ClaimSet, path: seq<int>)
    requires forall m :: m in path ==> m in Numbers(cs)
    ensures PathFeatures(cs, path).Some?
  {
    if path != [] {
      var last := path[|path| - 1];
      assert last in Numbers(cs) && cs.Find(last).Some?;
      PathFeaturesExist(cs, path[..|path| - 1]);
    }
  }

  lemma ListedPathHasFeatures(cs: ClaimSet, n: int, limit: int, path: seq<int>)
    requires PathsUpTo(cs, n, limit).Some? && path in PathsUpTo(cs, n, limit).value.paths
    ensures PathFeatures(cs, path).Some?
  {
    CollectKeepsFound(Progress([], false, false), Walk(cs, n, []), limit);
    AllPathsAreTheDependencyPaths(cs, n);
    PathMembersAreClaims(cs, path, n);
    PathFeaturesExist(cs, path);
  }

  /** One entry per path, in order, each carrying the path's own all-elements conclusion. */
  ghost predicate Details(cs: ClaimSet, a: Assessments, results: seq<PathConclusion>, paths: seq<seq<int>>) {
    && |results| == |paths|
    && forall i :: 0 <= i < |paths| ==>
         && results[i].path == paths[i]
         && PathFeatures(cs, paths[i]).Some?
         && IsConclusionOn(results[i], a, PathFeatures(cs, paths[i]).value)
  }

  method ConcludePaths(cs: ClaimSet, a: Assessments, paths: seq<seq<int>>) returns (results: seq<PathConclusion>)
    requires forall path :: path in paths ==> PathFeatures(cs, path).Some?
    ensures Details(cs, a, results, paths)
  {
    results := [];
    for i := 0 to |paths|
      invariant Details(cs, a, results, paths[..i])
    {
      assert paths[i] in paths;
      var result := ConcludeFeatures(a, PathFeatures(cs, paths[i]).value, paths[i]);
      results := results + [result];
    }
    assert paths[..|paths|] == paths;
  }

  /** What `conclude_claim` reports on any set; None where it raises KeyError. */
  ghost predicate Reports(cs: ClaimSet, a: Assessments, number: int, r: Option<ClaimResult>) {
    match (PathsUpTo(cs, number, MAX_DEPENDENCY_PATHS), ConclusionOf(cs, a, number))
    case (Some(listed), Some(conclusion)) =>
      && r.Some?
      && r.value.claimNumber == number
      && r.value.conclusion == conclusion
      && r.value.truncated == listed.truncated
      && Details(cs, a, r.value.paths, listed.paths)
    case _ => r.None?
  }

  method ConcludeClaim(chart: ClaimChart, number: int) returns (r: Option<ClaimResult>)
    ensures Reports(chart.claimSet, chart.assessments, number, r)
  {
    var cs, a := chart.claimSet, chart.assessments;
    var listed := FindDependencyPaths(cs, number, MAX_DEPENDENCY_PATHS);
    if listed.None? {
      return None;
    }
    forall path | path in listed.value.paths
      ensures PathFeatures(cs, path).Some?
    {
      ListedPathHasFeatures(cs, number, MAX_DEPENDENCY_PATHS, path);
    }
    var results := ConcludePaths(cs, a, listed.value.paths);
    var memo := new MemoTable();
    var conclusion := ClaimConclusion(cs, a, number, memo);
    r := if conclusion.None? then None
         else Some(ClaimResult(number, conclusion.value, results, listed.value.truncated));
  }

  /** The reported conclusion is over all paths, also when only the first MAX_DEPENDENCY_PATHS are shown. */
  lemma ReportIsExact(cs: ClaimSet, a: Assessments, number: int, r: Option<ClaimResult>)
    requires CompleteAbove(cs, number) && !CircleAbove(cs, number) && Reports(cs, a, number, r)
    ensures r.Some?
    ensures var all := AllPaths(cs, number);
            && r.value.conclusion == OfRank(BestRank(cs, a, all))
            && r.value.truncated == (|all| > MAX_DEPENDENCY_PATHS)
            && Details(cs, a, r.value.paths, all[..Min(MAX_DEPENDENCY_PATHS, |all|)])
  {
    ConclusionIsExact(cs, a, number);
    CompleteSearchIsPrefix(cs, number, MAX_DEPENDENCY_PATHS);
  }

  // ----- each claim's own features are concluded at most once

  ghost predicate FreshlyEvaluated(evaluated: seq<int>, before: Memo, after: Memo) {
    && Distinct(evaluated)
    && forall m :: m in evaluated ==> m !in before && m in after
  }

  lemma {:induction false} EvaluatedOnce(cs: ClaimSet, a: Assessments, n: int, memo: Memo)
    ensures FreshlyEvaluated(Evaluate(cs, a, n, memo).evaluated, memo, Evaluate(cs, a, n, memo).memo)
    decreases Numbers(cs) - memo.Keys, 0
  {
    if n !in memo && cs.Find(n).Some? {
      var guarded, claim := memo[n := Undetermined], cs.Find(n).value;
      assert n in Numbers(cs) - memo.Keys && n !in Numbers(cs) - guarded.Keys;
      EvaluatedAllOnce(cs, a, claim.dependsOn, guarded);
    }
  }

  lemma {:induction false} EvaluatedAllOnce(cs: ClaimSet, a: Assessments, ns: seq<int>, memo: Memo)
    ensures FreshlyEvaluated(EvaluateAll(cs, a, ns, memo).evaluated, memo, EvaluateAll(cs, a, ns, memo).memo)
    decreases Numbers(cs) - memo.Keys, |ns|
  {
    if ns != [] {
      var first := Evaluate(cs, a, ns[0], memo);
      EvaluatedOnce(cs, a, ns[0], memo);
      if first.result.Some? {
        var rest := EvaluateAll(cs, a, ns[1..], first.memo);
        EvaluatedAllOnce(cs, a, ns[1..], first.memo);
        assert forall m :: m in first.evaluated ==> m in first.memo && m !in rest.evaluated;
        DistinctConcat(first.evaluated, rest.evaluated);
      }
    }
  }

  // ----- when the evaluation raises KeyError

  /** A chain from a missing claim down to `n` whose claims, the missing one aside, all get past their own features. */
  ghost predicate MissingChain(cs: ClaimSet, a: Assessments, chain: seq<int>, n: int) {
    && chain != [] && chain[|chain| - 1] == n && chain[0] !in Numbers(cs)
    && IsChain(cs, chain)
    && forall i :: 1 <= i < |chain| ==> OwnRank(cs, a, chain[i]) != 0
  }

  lemma {:induction false} RaisedMeansMissing(cs: ClaimSet, a: Assessments, n: int, memo: Memo)
    returns (chain: seq<int>)
    requires Evaluate(cs, a, n, memo).result.None?
    ensures MissingChain(cs, a, chain, n)
    decreases Numbers(cs) - memo.Keys, 0
  {
    if cs.Find(n).None? {
      chain := [n];
    } else {
      var guarded := memo[n := Undetermined];
      assert n in Numbers(cs) - memo.Keys && n !in Numbers(cs) - guarded.Keys;
      var p, above := RaisedAmongAll(cs, a, References(cs, n), guarded);
      chain := above + [n];
    }
  }

  lemma {:induction false} RaisedAmongAll(cs: ClaimSet, a: Assessments, ns: seq<int>, memo: Memo)
      returns (p: int, chain: seq<int>)
    requires EvaluateAll(cs, a, ns, memo).result.None?
    ensures p in ns && MissingChain(cs, a, chain, p)
    decreases Numbers(cs) - memo.Keys, |ns|
  {
    var first := Evaluate(cs, a, ns[0], memo);
    if first.result.None? {
      p := ns[0];
      chain := RaisedMeansMissing(cs, a, p, memo);
    } else {
      p, chain := RaisedAmongAll(cs, a, ns[1..], first.memo);
    }
  }

  /** Finished claims that got past their own features have had every reference concluded. */
  ghost predicate Explored(cs: ClaimSet, a: Assessments, memo: Memo, active: set<int>) {
    forall k :: k in memo ==>
      k in Numbers(cs) && (k !in active && OwnRank(cs, a, k) != 0 ==> forall p :: p in References(cs, k) ==> p in memo)
  }

  lemma {:induction false} EvaluateExplores(cs: ClaimSet, a: Assessments, n: int, memo: Memo, active: set<int>)
    requires Evaluate(cs, a, n, memo).result.Some? && Explored(cs, a, memo, active)
    ensures Explored(cs, a, Evaluate(cs, a, n, memo).memo, active)
    decreases Numbers(cs) - memo.Keys, 0
  {
    if n !in memo {
      var guarded, claim := memo[n := Undetermined], cs.Find(n).value;
      if OwnRank(cs, a, n) != 0 && claim.dependsOn != [] {
        assert n in Numbers(cs) - memo.Keys && n !in Numbers(cs) - guarded.Keys;
        EvaluateAllExplores(cs, a, claim.dependsOn, guarded, active + {n});
      }
    }
  }

  lemma {:induction false} EvaluateAllExplores(cs: ClaimSet, a: Assessments, ns: seq<int>, memo: Memo, active: set<int>)
    requires EvaluateAll(cs, a, ns, memo).result.Some? && Explored(cs, a, memo, active)
    ensures Explored(cs, a, EvaluateAll(cs, a, ns, memo).memo, active)
    decreases Numbers(cs) - memo.Keys, |ns|
  {
    if ns != [] {
      EvaluateExplores(cs, a, ns[0], memo, active);
      EvaluateAllExplores(cs, a, ns[1..], Evaluate(cs, a, ns[0], memo).memo, active);
    }
  }

  lemma {:induction false} ExploredCoversChain(cs: ClaimSet, a: Assessments, memo: Memo, chain: seq<int>, n: int)
    requires Explored(cs, a, memo, {}) && n in memo
    requires chain != [] && chain[|chain| - 1] == n && IsChain(cs, chain)
    requires forall i :: 1 <= i < |chain| ==> OwnRank(cs, a, chain[i]) != 0
    ensures chain[0] in Numbers(cs)
    decreases |chain|
  {
    if |chain| > 1 {
      var last := |chain| - 1;
      assert chain[last - 1] in References(cs, chain[last]) && OwnRank(cs, a, chain[last]) != 0;
      var above := chain[..last];
      assert above[|above| - 1] == chain[last - 1] && above[0] == chain[0];
      ExploredCoversChain(cs, a, memo, above, chain[last - 1]);
    }
  }

  /** On any set, closed or not: KeyError exactly when such a chain to a missing claim exists. */
  lemma RaisesExactlyOnMissingChain(cs: ClaimSet, a: Assessments, n: int)
    ensures ConclusionOf(cs, a, n) == None <==> exists chain :: MissingChain(cs, a, chain, n)
  {
    if ConclusionOf(cs, a, n) == None {
      var chain := RaisedMeansMissing(cs, a, n, map[]);
    } else {
      EvaluateExplores(cs, a, n, map[], {});
      forall chain
        ensures !MissingChain(cs, a, chain, n)
      {
        if MissingChain(cs, a, chain, n) {
          ExploredCoversChain(cs, a, Evaluate(cs, a, n, map[]).memo, chain, n);
        }
      }
    }
  }

  // ----- the recurrence between standalone conclusions, and monotonicity

  lemma StandaloneExact(cs: ClaimSet, a: Assessments, level: map<int, nat>, n: int)
    requires Levelled(cs, level) && n in level
    ensures ConclusionOf(cs, a, n).Some? && ExactEntry(cs, a, n, ConclusionOf(cs, a, n).value)
  {
    EvaluateExact(cs, a, level, n, map[], {});
  }

  /** A dependent claim is worth at most its own features and at most its best reference ... */
  lemma DependentAtMostOwnAndBestParent(cs: ClaimSet, a: Assessments, n: int) returns (best: int)
    requires CompleteAbove(cs, n) && !CircleAbove(cs, n) && References(cs, n) != []
    ensures best in References(cs, n)
    ensures ConclusionOf(cs, a, n).Some? && ConclusionOf(cs, a, best).Some?
    ensures Rank(ConclusionOf(cs, a, n).value) <= OwnRank(cs, a, n)
    ensures Rank(ConclusionOf(cs, a, n).value) <= Rank(ConclusionOf(cs, a, best).value)
  {
    var level := CircleFreeHasLevels(cs, n);
    StandaloneExact(cs, a, level, n);
    var rank := Rank(ConclusionOf(cs, a, n).value);
    if rank >= 1 {
      ReadsAtNeedsOwn(cs, a, n, rank);
      best := ReadsAtNeedsParent(cs, a, n, rank);
    } else {
      best := References(cs, n)[0];
    }
    StandaloneExact(cs, a, level, best);
  }

  /** ... and at least the lesser of its own features and any one reference. */
  lemma DependentAtLeastOwnWithAnyParent(cs: ClaimSet, a: Assessments, n: int, p: int)
    requires CompleteAbove(cs, n) && !CircleAbove(cs, n) && p in References(cs, n)
    ensures ConclusionOf(cs, a, n).Some? && ConclusionOf(cs, a, p).Some?
    ensures Min(OwnRank(cs, a, n), Rank(ConclusionOf(cs, a, p).value)) <= Rank(ConclusionOf(cs, a, n).value)
  {
    var level := CircleFreeHasLevels(cs, n);
    StandaloneExact(cs, a, level, n);
    StandaloneExact(cs, a, level, p);
    var r := Min(OwnRank(cs, a, n), Rank(ConclusionOf(cs, a, p).value));
    if r >= 1 {
      ParentReadingExtends(cs, a, level, n, p, r);
    }
  }

  /** The same claims with the same references; their features may differ. */
  ghost predicate SameShape(cs: ClaimSet, cs': ClaimSet) {
    && |cs.claims| == |cs'.claims|
    && forall i :: 0 <= i < |cs.claims| ==>
         cs.claims[i].number == cs'.claims[i].number && cs.claims[i].dependsOn == cs'.claims[i].dependsOn
  }

  /** Two stages of one review: features possibly re-assessed or confirmed. */
  ghost predicate SameTree(cs: ClaimSet, cs': ClaimSet) {
    && SameShape(cs, cs')
    && forall i :: 0 <= i < |cs.claims| ==> |cs.claims[i].features| == |cs'.claims[i].features|
  }

  /** No feature is worth less in the second stage. */
  ghost predicate NoFeatureLowered(cs: ClaimSet, a: Assessments, cs': ClaimSet, a': Assessments)
    requires SameTree(cs, cs')
  {
    forall i, j :: 0 <= i < |cs.claims| && 0 <= j < |cs.claims[i].features| ==>
      FeatureRank(a, cs.claims[i].features[j]) <= FeatureRank(a', cs'.claims[i].features[j])
  }

  lemma {:induction false} FindAgrees(claims: seq<Claim>, claims': seq<Claim>, n: int) returns (i: nat)
    requires |claims| == |claims'|
    requires forall i :: 0 <= i < |claims| ==> claims[i].number == claims'[i].number
    requires FindIn(claims, n).Some?
    ensures i < |claims| && FindIn(claims, n) == Some(claims[i]) && FindIn(claims', n) == Some(claims'[i])
  {
    if claims[0].number == n {
      i := 0;
    } else {
      var k := FindAgrees(claims[1..], claims'[1..], n);
      i := k + 1;
    }
  }

  lemma SameShapeSameClaim(cs: ClaimSet, cs': ClaimSet, n: int)
    requires SameShape(cs, cs') && n in Numbers(cs)
    ensures n in Numbers(cs') && References(cs, n) == References(cs', n)
  {
    var i := FindAgrees(cs.claims, cs'.claims, n);
    assert cs'.claims[i] in cs'.claims;
  }

  lemma SameShapeSameReferences(cs: ClaimSet, cs': ClaimSet, n: int)
    requires SameShape(cs, cs')
    ensures n in Numbers(cs) <==> n in Numbers(cs')
    ensures References(cs, n) == References(cs', n)
  {
    if n in Numbers(cs) {
      SameShapeSameClaim(cs, cs', n);
    } else if n in Numbers(cs') {
      SameShapeSameClaim(cs', cs, n);
    }
  }

  lemma SameShapeSameLevels(cs: ClaimSet, cs': ClaimSet, level: map<int, nat>)
    requires SameShape(cs, cs') && Levelled(cs, level)
    ensures Levelled(cs', level)
  {
    forall n | n in level
      ensures n in Numbers(cs') && References(cs, n) == References(cs', n)
    {
      SameShapeSameReferences(cs, cs', n);
    }
  }

  lemma RaisedOwnRank(cs: ClaimSet, a: Assessments, cs': ClaimSet, a': Assessments, n: int)
    requires SameTree(cs, cs') && NoFeatureLowered(cs, a, cs', a') && n in Numbers(cs)
    ensures OwnRank(cs, a, n) <= OwnRank(cs', a', n)
  {
    var i := FindAgrees(cs.claims, cs'.claims, n);
    var r := OwnRank(cs, a, n);
    var features, features' := cs.claims[i].features, cs'.claims[i].features;
    FeaturesRankAtLeast(a, features, r);
    FeaturesRankAtLeast(a', features', r);
    forall f' | f' in features'
      ensures FeatureRank(a', f') >= r
    {
      var j :| 0 <= j < |features'| && features'[j] == f';
      assert features[j] in features;
    }
  }

  lemma RaisedReading(cs: ClaimSet, a: Assessments, cs': ClaimSet, a': Assessments, n: int, r: nat)
    requires SameTree(cs, cs') && NoFeatureLowered(cs, a, cs', a') && 1 <= r <= 3
    requires ReadsAt(cs, a, n, r)
    ensures ReadsAt(cs', a', n, r)
  {
    var path :| IsDependencyPath(cs, path, n) && PathRank(cs, a, path) >= r;
    PathMembersAreClaims(cs, path, n);
    PathRankAtLeast(cs, a, path, r);
    forall m | m in path
      ensures m in Numbers(cs') && References(cs, m) == References(cs', m) && OwnRank(cs', a', m) >= r
    {
      SameShapeSameReferences(cs, cs', m);
      RaisedOwnRank(cs, a, cs', a', m);
    }
    assert IsDependencyPath(cs', path, n);
    PathRankAtLeast(cs', a', path, r);
  }

  /** Raising features never lowers the conclusion of any claim. */
  lemma RaisingFeaturesNeverLowers(cs: ClaimSet, a: Assessments, cs': ClaimSet, a': Assessments, n: int)
    requires CompleteAbove(cs, n) && !CircleAbove(cs, n)
    requires SameTree(cs, cs') && NoFeatureLowered(cs, a, cs', a')
    ensures ConclusionOf(cs, a, n).Some? && ConclusionOf(cs', a', n).Some?
    ensures Rank(ConclusionOf(cs, a, n).value) <= Rank(ConclusionOf(cs', a', n).value)
  {
    var level := CircleFreeHasLevels(cs, n);
    SameShapeSameLevels(cs, cs', level);
    StandaloneExact(cs, a, level, n);
    StandaloneExact(cs', a', level, n);
    var rank := Rank(ConclusionOf(cs, a, n).value);
    if rank >= 1 {
      RaisedReading(cs, a, cs', a', n, rank);
    }
  }
}
