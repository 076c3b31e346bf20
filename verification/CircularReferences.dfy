/**
 * What circular references do to the memoised claim conclusion: on which claim sets it stays exact whatever the
 * findings are, and sets on which it does not.
 */
module CircularReferences {
  import opened Basics
  import opened ClaimTree
  import opened DependencyPaths
  import opened ClaimCharts
  import opened ClaimTheorems

  // ----- exact for all features, exactly without a circle

  lemma SameShapeSameChains(cs: ClaimSet, cs': ClaimSet, m: int, n: int)
    requires SameShape(cs, cs')
    ensures ChainBetween(cs, m, n) <==> ChainBetween(cs', m, n)
  {
    forall k: int
      ensures References(cs, k) == References(cs', k)
    {
      SameShapeSameReferences(cs, cs', k);
    }
    forall chain: seq<int>
      ensures IsChain(cs, chain) <==> IsChain(cs', chain)
    {
    }
  }

  lemma SameShapeSameCondition(cs: ClaimSet, cs': ClaimSet, n: int)
    requires SameShape(cs, cs') && CompleteAbove(cs, n) && !CircleAbove(cs, n)
    ensures CompleteAbove(cs', n) && !CircleAbove(cs', n)
  {
    forall m: int
      ensures AtOrAbove(cs, m, n) <==> AtOrAbove(cs', m, n)
      ensures ChainBetween(cs, m, m) <==> ChainBetween(cs', m, m)
      ensures m in Numbers(cs) <==> m in Numbers(cs')
    {
      SameShapeSameChains(cs, cs', m, n);
      SameShapeSameChains(cs, cs', m, m);
      SameShapeSameReferences(cs, cs', m);
    }
  }

  const BLOCKER := ClaimFeature("blocker", 0, "", [], Confirmed)
  const BLOCKED: Assessments := map["blocker" := FeatureAssessment("blocker", Absent, "", [], "")]

  /** The claim without features, or with one that will be found absent. */
  function Stage(claim: Claim, free: set<int>): Claim {
    claim.(features := if claim.number in free then [] else [BLOCKER])
  }

  /** The same claims and references, with an absent feature in every claim that is not `free`. */
  function Staged(cs: ClaimSet, free: set<int>): ClaimSet {
    ClaimSet(seq(|cs.claims|, i requires 0 <= i < |cs.claims| => Stage(cs.claims[i], free)))
  }

  lemma StagedRank(cs: ClaimSet, free: set<int>, n: int)
    requires n in Numbers(cs)
    ensures SameShape(cs, Staged(cs, free))
    ensures OwnRank(Staged(cs, free), BLOCKED, n) == if n in free then 3 else 0
  {
    var i := FindAgrees(cs.claims, Staged(cs, free).claims, n);
    assert [BLOCKER][..0] == [];
    assert cs.claims[i].number == n;
  }

  /** Some reference of `k` is among these claims. */
  ghost predicate StaysIn(cs: ClaimSet, ring: set<int>, k: int) {
    exists p :: p in References(cs, k) && p in ring
  }

  /** The claims between a circle through `m` and `n`. */
  ghost function Ring(cs: ClaimSet, m: int, n: int): set<int> {
    set k | k in Numbers(cs) && AtOrAbove(cs, m, k) && AtOrAbove(cs, k, n)
  }

  lemma RingStaysIn(cs: ClaimSet, m: int, n: int, k: int)
    requires CompleteAbove(cs, n) && ChainBetween(cs, m, m) && k in Ring(cs, m, n)
    ensures StaysIn(cs, Ring(cs, m, n), k)
  {
    assert ChainBetween(cs, m, k);
    var p := ChainLosesLast(cs, m, k);
    AboveReference(cs, k, p, n);
    assert AtOrAbove(cs, p, n);
    assert p in Numbers(cs);
    assert p in Ring(cs, m, n);
  }

  /** The claim gets past its own features and has a reference inside the ring. */
  ghost predicate GoesOn(cs: ClaimSet, a: Assessments, ring: set<int>, k: int) {
    OwnRank(cs, a, k) != 0 && StaysIn(cs, ring, k)
  }

  ghost predicate KeepsGoing(cs: ClaimSet, a: Assessments, ring: set<int>) {
    forall k {:trigger GoesOn(cs, a, ring, k)} :: k in ring ==> GoesOn(cs, a, ring, k)
  }

  ghost predicate NotRefused(memo: Memo, ring: set<int>) {
    forall k :: k in memo && k in ring ==> memo[k] != DoesNotRead
  }

  lemma RingClaimIsNotRefused(
      cs: ClaimSet, a: Assessments, ring: set<int>, n: int, memo: Memo, conclusions: seq<Conclusion>)
    requires GoesOn(cs, a, ring, n) && NotRefused(memo, ring)
    requires Recorded(References(cs, n), memo, conclusions) && conclusions != []
    ensures Combine(OfRank(OwnRank(cs, a, n)), conclusions) != DoesNotRead
  {
    var p :| p in References(cs, n) && p in ring;
    var i :| 0 <= i < |conclusions| && References(cs, n)[i] == p;
    assert conclusions[i] in conclusions && conclusions[i] != DoesNotRead;
  }

  /** No claim of the ring is ever refused: each one waits for another one of them. */
  lemma {:induction false} RingIsNotRefused(cs: ClaimSet, a: Assessments, ring: set<int>, n: int, memo: Memo)
    requires KeepsGoing(cs, a, ring) && NotRefused(memo, ring)
    ensures NotRefused(Evaluate(cs, a, n, memo).memo, ring)
    decreases Numbers(cs) - memo.Keys, 0
  {
    if n !in memo && cs.Find(n).Some? {
      var guarded, refs := memo[n := Undetermined], References(cs, n);
      assert n in ring ==> GoesOn(cs, a, ring, n);
      if OwnRank(cs, a, n) != 0 && refs != [] {
        assert n in Numbers(cs) - memo.Keys && n !in Numbers(cs) - guarded.Keys;
        RingIsNotRefusedAmong(cs, a, ring, refs, guarded);
        var parents := EvaluateAll(cs, a, refs, guarded);
        if n in ring && parents.result.Some? {
          RingClaimIsNotRefused(cs, a, ring, n, parents.memo, parents.result.value);
        }
      }
    }
  }

  lemma {:induction false} RingIsNotRefusedAmong(
      cs: ClaimSet, a: Assessments, ring: set<int>, ns: seq<int>, memo: Memo)
    requires KeepsGoing(cs, a, ring) && NotRefused(memo, ring)
    ensures NotRefused(EvaluateAll(cs, a, ns, memo).memo, ring)
    decreases Numbers(cs) - memo.Keys, |ns|
  {
    if ns != [] {
      RingIsNotRefused(cs, a, ring, ns[0], memo);
      if Evaluate(cs, a, ns[0], memo).result.Some? {
        RingIsNotRefusedAmong(cs, a, ring, ns[1..], Evaluate(cs, a, ns[0], memo).memo);
      }
    }
  }

  /** When every claim off the ring has an absent feature, every path to the ring is refused. */
  lemma PathsAreRefused(cs: ClaimSet, a: Assessments, ring: set<int>, n: int)
    requires KeepsGoing(cs, a, ring)
    requires forall k :: k in Numbers(cs) && k !in ring ==> OwnRank(cs, a, k) == 0
    ensures BestRank(cs, a, AllPaths(cs, n)) == 0
  {
    BestOverAllPaths(cs, a, n, 1);
    forall path | IsDependencyPath(cs, path, n)
      ensures PathRank(cs, a, path) < 1
    {
      var root := path[0];
      assert root in ring ==> GoesOn(cs, a, ring, root);
      assert root in path && OwnRank(cs, a, root) == 0;
      PathRankAtLeast(cs, a, path, 1);
    }
  }

  /** Features absent exactly off the ring. */
  lemma StagedRing(cs: ClaimSet, m: int, n: int, k: int)
    requires CompleteAbove(cs, n) && ChainBetween(cs, m, m)
    ensures var ring := Ring(cs, m, n);
            var staged := Staged(cs, ring);
            && SameShape(cs, staged)
            && (k in ring ==> GoesOn(staged, BLOCKED, ring, k))
            && (k in Numbers(staged) && k !in ring ==> OwnRank(staged, BLOCKED, k) == 0)
  {
    var ring := Ring(cs, m, n);
    SameShapeSameReferences(cs, Staged(cs, ring), k);
    if k in Numbers(cs) {
      StagedRank(cs, ring, k);
    }
    if k in ring {
      RingStaysIn(cs, m, n, k);
    }
  }

  lemma CircleSpoilsExactness(cs: ClaimSet, m: int, n: int)
    requires CompleteAbove(cs, n) && AtOrAbove(cs, m, n) && ChainBetween(cs, m, m)
    ensures var staged := Staged(cs, Ring(cs, m, n));
            SameShape(cs, staged) && !IsExact(staged, BLOCKED, n)
  {
    var ring := Ring(cs, m, n);
    var staged := Staged(cs, ring);
    assert n in ring by {
      assert AtOrAbove(cs, n, n);
    }
    StagedRing(cs, m, n, n);
    forall k: int
      ensures k in ring ==> GoesOn(staged, BLOCKED, ring, k)
      ensures k in Numbers(staged) && k !in ring ==> OwnRank(staged, BLOCKED, k) == 0
    {
      StagedRing(cs, m, n, k);
    }
    CircleWins(staged, BLOCKED, ring, n);
  }

  lemma CircleWins(cs: ClaimSet, a: Assessments, ring: set<int>, n: int)
    requires KeepsGoing(cs, a, ring) && n in ring
    requires forall k :: k in Numbers(cs) && k !in ring ==> OwnRank(cs, a, k) == 0
    ensures !IsExact(cs, a, n)
  {
    PathsAreRefused(cs, a, ring, n);
    RingIsNotRefused(cs, a, ring, n, map[]);
  }

  /** With a missing claim above it, a claim none of whose references is ruled out raises KeyError. */
  lemma MissingClaimSpoilsExactness(cs: ClaimSet, m: int, n: int)
    requires AtOrAbove(cs, m, n) && m !in Numbers(cs)
    ensures var staged := Staged(cs, Numbers(cs));
            SameShape(cs, staged) && !IsExact(staged, BLOCKED, n)
  {
    var staged := Staged(cs, Numbers(cs));
    SameShapeSameReferences(cs, staged, m);
    if m == n {
      assert MissingChain(staged, BLOCKED, [n], n);
    } else {
      var chain :| |chain| >= 2 && IsChain(cs, chain) && chain[0] == m && chain[|chain| - 1] == n;
      forall i | 1 <= i < |chain|
        ensures chain[i - 1] in References(staged, chain[i]) && OwnRank(staged, BLOCKED, chain[i]) != 0
      {
        assert chain[i - 1] in References(cs, chain[i]);
        SameShapeSameReferences(cs, staged, chain[i]);
        StagedRank(cs, Numbers(cs), chain[i]);
      }
      assert MissingChain(staged, BLOCKED, chain, n);
    }
    RaisesExactlyOnMissingChain(staged, BLOCKED, n);
  }

  /** Whatever features the claims have and whatever is found, the conclusion of claim `n` is exact. */
  ghost predicate AlwaysExact(cs: ClaimSet, n: int) {
    forall cs', a :: SameShape(cs, cs') ==> IsExact(cs', a, n)
  }

  /**
   * The references alone decide: the conclusion of a claim is exact for all features and findings if and only
   * if following its references leads neither round a circle nor to a missing claim.
   */
  lemma ExactForAllFeaturesExactly(cs: ClaimSet, n: int)
    ensures AlwaysExact(cs, n) <==> CompleteAbove(cs, n) && !CircleAbove(cs, n)
  {
    if CompleteAbove(cs, n) && !CircleAbove(cs, n) {
      forall cs', a | SameShape(cs, cs')
        ensures IsExact(cs', a, n)
      {
        SameShapeSameCondition(cs, cs', n);
        ConclusionIsExact(cs', a, n);
      }
    } else if !CompleteAbove(cs, n) {
      var m :| AtOrAbove(cs, m, n) && m !in Numbers(cs);
      MissingClaimSpoilsExactness(cs, m, n);
    } else {
      var m :| AtOrAbove(cs, m, n) && ChainBetween(cs, m, m);
      CircleSpoilsExactness(cs, m, n);
    }
  }

  // ----- circular references can hide a reading

  /** Claims 1 and 2 refer to each other; claim 5 alone has a feature. */
  ghost predicate Circular(cs: ClaimSet, a: Assessments) {
    && Numbers(cs) == {1, 2, 4, 5, 6}
    && References(cs, 1) == [2, 4] && OwnRank(cs, a, 1) == 3
    && References(cs, 2) == [1] && OwnRank(cs, a, 2) == 3
    && References(cs, 4) == [] && OwnRank(cs, a, 4) == 3
    && References(cs, 5) == [1]
    && References(cs, 6) == [5, 2] && OwnRank(cs, a, 6) == 3
  }

  lemma {:induction false} FindAt(claims: seq<Claim>, i: nat)
    requires i < |claims| && forall j :: 0 <= j < i ==> claims[j].number != claims[i].number
    ensures FindIn(claims, claims[i].number) == Some(claims[i])
  {
    if i > 0 {
      FindAt(claims[1..], i - 1);
    }
  }

  const FEATURE := ClaimFeature("5.0", 5, "", [], Confirmed)

  function CircularClaims(): seq<Claim> {
    [Claim(1, "", [2, 4], []), Claim(2, "", [1], []), Claim(4, "", [], []),
     Claim(5, "", [1], [FEATURE]), Claim(6, "", [5, 2], [])]
  }

  lemma CircularFind(i: nat)
    requires i < 5
    ensures var claim := CircularClaims()[i];
            claim.number in Numbers(ClaimSet(CircularClaims()))
            && ClaimSet(CircularClaims()).Find(claim.number) == Some(claim)
  {
    var claims := CircularClaims();
    assert claims[i] in claims;
    FindAt(claims, i);
  }

  lemma CircularNumbers()
    ensures Numbers(ClaimSet(CircularClaims())) == {1, 2, 4, 5, 6}
  {
    var claims := CircularClaims();
    forall n | n in {1, 2, 4, 5, 6}
      ensures n in Numbers(ClaimSet(claims))
    {
      CircularFind(if n < 3 then n - 1 else n - 2);
    }
    forall n | n in Numbers(ClaimSet(claims))
      ensures n in {1, 2, 4, 5, 6}
    {
      var claim :| claim in claims && claim.number == n;
      var i :| 0 <= i < |claims| && claims[i] == claim;
      assert i == 0 || i == 1 || i == 2 || i == 3 || i == 4;
    }
  }

  lemma CircularEntry(i: nat, claim: Claim, a: Assessments)
    requires i < 5 && CircularClaims()[i] == claim
    ensures var cs := ClaimSet(CircularClaims());
            && References(cs, claim.number) == claim.dependsOn
            && OwnRank(cs, a, claim.number) == FeaturesRank(a, claim.features)
  {
    CircularFind(i);
  }

  lemma CircularRanks(a: Assessments)
    ensures FeaturesRank(a, []) == 3 && FeaturesRank(a, [FEATURE]) == FeatureRank(a, FEATURE)
  {
    assert [FEATURE][..0] == [];
  }

  lemma CircularSet(a: Assessments)
    ensures var cs := ClaimSet(CircularClaims());
            Circular(cs, a) && OwnRank(cs, a, 5) == FeatureRank(a, FEATURE)
  {
    CircularNumbers();
    CircularRanks(a);
    CircularEntry(0, Claim(1, "", [2, 4], []), a);
    CircularEntry(1, Claim(2, "", [1], []), a);
    CircularEntry(2, Claim(4, "", [], []), a);
    CircularEntry(3, Claim(5, "", [1], [FEATURE]), a);
    CircularEntry(4, Claim(6, "", [5, 2], []), a);
  }

  lemma Combined()
    ensures Combine(ReadsLiterally, [Undetermined]) == Undetermined
    ensures Combine(ReadsLiterally, [ReadsLiterally]) == ReadsLiterally
    ensures Combine(Undetermined, [ReadsLiterally]) == Undetermined
    ensures Combine(ReadsLiterally, [Undetermined, ReadsLiterally]) == ReadsLiterally
    ensures Combine(ReadsLiterally, [Undetermined, Undetermined]) == Undetermined
    ensures Combine(ReadsLiterally, [DoesNotRead, ReadsLiterally]) == ReadsLiterally
  {
    CombinedOne(ReadsLiterally, Undetermined);
    CombinedOne(ReadsLiterally, ReadsLiterally);
    CombinedOne(Undetermined, ReadsLiterally);
    CombinedTwo(Undetermined, ReadsLiterally);
    CombinedTwo(Undetermined, Undetermined);
    CombinedTwo(DoesNotRead, ReadsLiterally);
  }

  lemma CombinedOne(own: Conclusion, parent: Conclusion)
    requires own != DoesNotRead
    ensures Rank(Combine(own, [parent])) == Min(Rank(own), Rank(parent))
  {
    CombineIsMinOfBest(own, [parent]);
  }

  lemma CombinedTwo(first: Conclusion, second: Conclusion)
    ensures Rank(Combine(ReadsLiterally, [first, second])) == Max(Rank(first), Rank(second))
  {
    CombineIsMinOfBest(ReadsLiterally, [first, second]);
    assert first in [first, second] && second in [first, second];
  }

  lemma EvaluateCombines(cs: ClaimSet, a: Assessments, n: int, memo: Memo, conclusions: seq<Conclusion>)
    requires n !in memo && n in Numbers(cs) && OwnRank(cs, a, n) != 0 && conclusions != []
    requires EvaluateAll(cs, a, References(cs, n), memo[n := Undetermined]).result == Some(conclusions)
    ensures var combined := Combine(OfRank(OwnRank(cs, a, n)), conclusions);
            var parents := EvaluateAll(cs, a, References(cs, n), memo[n := Undetermined]);
            && Evaluate(cs, a, n, memo).result == Some(combined)
            && Evaluate(cs, a, n, memo).memo == parents.memo[n := combined]
  {
    assert cs.Find(n).Some?;
  }

  lemma EvaluateAllOne(cs: ClaimSet, a: Assessments, n: int, memo: Memo)
    requires Evaluate(cs, a, n, memo).result.Some?
    ensures EvaluateAll(cs, a, [n], memo).result == Some([Evaluate(cs, a, n, memo).result.value])
    ensures EvaluateAll(cs, a, [n], memo).memo == Evaluate(cs, a, n, memo).memo
  {
    var after := Evaluate(cs, a, n, memo).memo;
    var c := Evaluate(cs, a, n, memo).result.value;
    assert [n][1..] == [] && [c] + [] == [c];
    assert EvaluateAll(cs, a, [], after).result == Some([]);
  }

  lemma EvaluateAllTwo(cs: ClaimSet, a: Assessments, n: int, m: int, memo: Memo)
    requires Evaluate(cs, a, n, memo).result.Some?
    requires Evaluate(cs, a, m, Evaluate(cs, a, n, memo).memo).result.Some?
    ensures var first := Evaluate(cs, a, n, memo);
            var second := Evaluate(cs, a, m, first.memo);
            && EvaluateAll(cs, a, [n, m], memo).result == Some([first.result.value, second.result.value])
            && EvaluateAll(cs, a, [n, m], memo).memo == second.memo
  {
    EvaluateAllOne(cs, a, m, Evaluate(cs, a, n, memo).memo);
    assert [n, m][1..] == [m];
    var first := Evaluate(cs, a, n, memo);
    var c, d := first.result.value, Evaluate(cs, a, m, first.memo).result.value;
    assert [c] + [d] == [c, d];
  }

  /** Claim 2 follows claim 1, its only reference. */
  lemma Claim2Follows(cs: ClaimSet, a: Assessments, memo: Memo)
    requires Circular(cs, a) && 2 !in memo
    requires Evaluate(cs, a, 1, memo[2 := Undetermined]).result.Some?
    ensures var first := Evaluate(cs, a, 1, memo[2 := Undetermined]);
            var combined := Combine(ReadsLiterally, [first.result.value]);
            && Evaluate(cs, a, 2, memo).result == Some(combined)
            && Evaluate(cs, a, 2, memo).memo == first.memo[2 := combined]
  {
    var guarded := memo[2 := Undetermined];
    EvaluateAllOne(cs, a, 1, guarded);
    EvaluateCombines(cs, a, 2, memo, [Evaluate(cs, a, 1, guarded).result.value]);
  }

  lemma GuardedReferenceStaysUndetermined(cs: ClaimSet, a: Assessments, memo: Memo)
    requires Circular(cs, a) && 1 in memo && memo[1] == Undetermined && 2 !in memo
    ensures Evaluate(cs, a, 2, memo).result == Some(Undetermined)
    ensures Evaluate(cs, a, 2, memo).memo == memo[2 := Undetermined]
  {
    var guarded := memo[2 := Undetermined];
    KnownEntry(cs, a, 1, guarded);
    Claim2Follows(cs, a, memo);
    Combined();
    SetTwice(memo, 2, Undetermined);
  }

  lemma SetTwice(memo: Memo, n: int, c: Conclusion)
    ensures memo[n := c][n := c] == memo[n := c]
  {
  }

  lemma KnownEntry(cs: ClaimSet, a: Assessments, n: int, memo: Memo)
    requires n in memo
    ensures Evaluate(cs, a, n, memo).result == Some(memo[n]) && Evaluate(cs, a, n, memo).memo == memo
  {
  }

  lemma Claims2And4(cs: ClaimSet, a: Assessments, memo: Memo)
    requires Circular(cs, a) && 4 !in memo
    requires Evaluate(cs, a, 2, memo).result == Some(Undetermined)
    requires Evaluate(cs, a, 2, memo).memo == memo[2 := Undetermined]
    ensures var both := EvaluateAll(cs, a, [2, 4], memo);
            && both.result == Some([Undetermined, ReadsLiterally])
            && 2 in both.memo && both.memo[2] == Undetermined
  {
    Claim4Reads(cs, a, memo[2 := Undetermined]);
    EvaluateAllTwo(cs, a, 2, 4, memo);
  }

  /** Claim 1 reads through claim 4, even where claim 2 has nothing to offer. */
  lemma Claim1Reads(cs: ClaimSet, a: Assessments, memo: Memo)
    requires Circular(cs, a) && 1 !in memo && 4 !in memo
    requires Evaluate(cs, a, 2, memo[1 := Undetermined]).result == Some(Undetermined)
    requires Evaluate(cs, a, 2, memo[1 := Undetermined]).memo == memo[1 := Undetermined][2 := Undetermined]
    ensures Evaluate(cs, a, 1, memo).result == Some(ReadsLiterally)
    ensures 2 in Evaluate(cs, a, 1, memo).memo && Evaluate(cs, a, 1, memo).memo[2] == Undetermined
  {
    Claims2And4(cs, a, memo[1 := Undetermined]);
    EvaluateCombines(cs, a, 1, memo, [Undetermined, ReadsLiterally]);
    Combined();
  }

  lemma Claim4Reads(cs: ClaimSet, a: Assessments, memo: Memo)
    requires Circular(cs, a) && 4 !in memo
    ensures Evaluate(cs, a, 4, memo).result == Some(ReadsLiterally)
    ensures forall n :: n in memo ==> n in Evaluate(cs, a, 4, memo).memo && Evaluate(cs, a, 4, memo).memo[n] == memo[n]
  {
    assert 4 in Numbers(cs) && cs.Find(4).Some?;
  }

  lemma PoisonedByClaim1(cs: ClaimSet, a: Assessments, memo: Memo)
    requires Circular(cs, a) && 1 !in memo && 2 !in memo && 4 !in memo
    ensures Evaluate(cs, a, 1, memo).result == Some(ReadsLiterally)
    ensures 2 in Evaluate(cs, a, 1, memo).memo && Evaluate(cs, a, 1, memo).memo[2] == Undetermined
  {
    GuardedReferenceStaysUndetermined(cs, a, memo[1 := Undetermined]);
    Claim1Reads(cs, a, memo);
  }

  lemma PoisonedByClaim5(cs: ClaimSet, a: Assessments, memo: Memo)
    requires Circular(cs, a) && OwnRank(cs, a, 5) == 1
    requires 5 !in memo && 1 !in memo && 2 !in memo && 4 !in memo
    ensures Evaluate(cs, a, 5, memo).result == Some(Undetermined)
    ensures 2 in Evaluate(cs, a, 5, memo).memo && Evaluate(cs, a, 5, memo).memo[2] == Undetermined
  {
    var guarded := memo[5 := Undetermined];
    PoisonedByClaim1(cs, a, guarded);
    EvaluateAllOne(cs, a, 1, guarded);
    EvaluateCombines(cs, a, 5, memo, [ReadsLiterally]);
    Combined();
  }

  lemma HiddenPath(cs: ClaimSet, a: Assessments)
    requires Circular(cs, a)
    ensures [4, 1, 2, 6] in AllPaths(cs, 6) && PathRank(cs, a, [4, 1, 2, 6]) == 3
  {
    var path := [4, 1, 2, 6];
    assert IsDependencyPath(cs, path, 6);
    AllPathsAreTheDependencyPaths(cs, 6);
    PathRankAtLeast(cs, a, path, 3);
  }

  lemma PoisonedByClaim6(cs: ClaimSet, a: Assessments, memo: Memo)
    requires Circular(cs, a) && OwnRank(cs, a, 5) == 1
    requires 6 !in memo && 5 !in memo && 1 !in memo && 2 !in memo && 4 !in memo
    ensures Evaluate(cs, a, 6, memo).result == Some(Undetermined)
  {
    var guarded := memo[6 := Undetermined];
    PoisonedByClaim5(cs, a, guarded);
    EvaluateAllTwo(cs, a, 5, 2, guarded);
    EvaluateCombines(cs, a, 6, memo, [Undetermined, Undetermined]);
    Combined();
  }

  lemma CircularIsCircular(cs: ClaimSet, a: Assessments)
    requires Circular(cs, a)
    ensures Closed(cs) && !Acyclic(cs)
  {
    var circle := [1, 2, 1];
    assert circle[0] in References(cs, circle[1]) && circle[1] in References(cs, circle[2]);
    assert IsChain(cs, circle) && circle[0] == circle[|circle| - 1];
  }

  /**
   * One of those sets: claim 2 is first concluded while claim 1 is still guarded, its entry stays
   * "undetermined", and claim 6 reuses it although a path reads literally.
   */
  lemma CircularReferencesCanHideAReading() returns (cs: ClaimSet, a: Assessments)
    ensures Closed(cs) && !Acyclic(cs)
    ensures ConclusionOf(cs, a, 6) == Some(Undetermined)
    ensures [4, 1, 2, 6] in AllPaths(cs, 6) && PathRank(cs, a, [4, 1, 2, 6]) == 3
  {
    cs, a := ClaimSet(CircularClaims()), map[];
    CircularSet(a);
    CircularIsCircular(cs, a);
    HiddenPath(cs, a);
    PoisonedByClaim6(cs, a, map[]);
  }

  // ----- circular references can make raising a feature lower a conclusion

  lemma ReadThroughClaim2(cs: ClaimSet, a: Assessments, memo: Memo)
    requires Circular(cs, a) && 1 !in memo && 2 !in memo && 4 !in memo
    ensures Evaluate(cs, a, 2, memo).result == Some(ReadsLiterally)
  {
    var guarded := memo[2 := Undetermined];
    var within := guarded[1 := Undetermined];
    KnownEntry(cs, a, 2, within);
    assert within[2 := Undetermined] == within;
    Claim1Reads(cs, a, guarded);
    Claim2Follows(cs, a, memo);
    Combined();
  }

  lemma ReadPastRefusedClaim5(cs: ClaimSet, a: Assessments)
    requires Circular(cs, a) && OwnRank(cs, a, 5) == 0
    ensures ConclusionOf(cs, a, 6) == Some(ReadsLiterally)
  {
    var guarded: Memo := map[6 := Undetermined];
    var after := guarded[5 := Undetermined][5 := DoesNotRead];
    assert 5 in Numbers(cs) && cs.Find(5).Some?;
    assert Evaluate(cs, a, 5, guarded).result == Some(DoesNotRead) && Evaluate(cs, a, 5, guarded).memo == after;
    ReadThroughClaim2(cs, a, after);
    EvaluateAllTwo(cs, a, 5, 2, guarded);
    EvaluateCombines(cs, a, 6, map[], [DoesNotRead, ReadsLiterally]);
    Combined();
  }

  lemma RaisedFinding()
    ensures var a := map["5.0" := FeatureAssessment("5.0", Absent, "", [], "")];
            var a': Assessments := map[];
            && FeatureRank(a, FEATURE) == 0 && FeatureRank(a', FEATURE) == 1
            && NoFeatureLowered(ClaimSet(CircularClaims()), a, ClaimSet(CircularClaims()), a')
  {
  }

  /**
   * On the same claims, raising the feature of claim 5 from absent to undetermined lowers claim 6 from a
   * literal reading to "undetermined".
   */
  lemma RaisingCanLowerOnCircle() returns (cs: ClaimSet, a: Assessments, a': Assessments)
    ensures Closed(cs) && NoFeatureLowered(cs, a, cs, a')
    ensures ConclusionOf(cs, a, 6) == Some(ReadsLiterally)
    ensures ConclusionOf(cs, a', 6) == Some(Undetermined)
  {
    cs, a, a' := ClaimSet(CircularClaims()), map["5.0" := FeatureAssessment("5.0", Absent, "", [], "")], map[];
    RaisedFinding();
    CircularSet(a);
    CircularSet(a');
    CircularIsCircular(cs, a);
    ReadPastRefusedClaim5(cs, a);
    PoisonedByClaim6(cs, a', map[]);
  }
}
