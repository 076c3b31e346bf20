/** All-elements conclusions: per feature, per path, and per claim over all its paths. */
module ClaimCharts {
  import opened Basics
  import opened ClaimTree
  import opened DependencyPaths

  datatype FeatureAssessment = FeatureAssessment(
    featureId: string,
    finding: Finding,
    rationale: string,
    productEvidence: seq<string>,
    assessedBy: string)

  type Assessments = map<string, FeatureAssessment>

  datatype PathConclusion = PathConclusion(
    path: seq<int>,
    conclusion: Conclusion,
    absent: seq<string>,
    undetermined: seq<string>,
    unconfirmed: seq<string>)

  datatype ClaimResult = ClaimResult(
    claimNumber: int,
    conclusion: Conclusion,
    paths: seq<PathConclusion>,
    truncated: bool)

  function Rank(c: Conclusion): nat {
    match c
    case ReadsLiterally => 3
    case ReadsByEquivalentsOnly => 2
    case Undetermined => 1
    case DoesNotRead => 0
  }

  function OfRank(rank: nat): (c: Conclusion)
    ensures rank <= 3 ==> Rank(c) == rank
  {
    if rank == 0 then DoesNotRead
    else if rank == 1 then Undetermined
    else if rank == 2 then ReadsByEquivalentsOnly
    else ReadsLiterally
  }

  // ----- conclusions over a list of features

  function FindingOf(a: Assessments, feature: ClaimFeature): Finding {
    if feature.featureId in a then a[feature.featureId].finding else NotDetermined
  }

  /** absent < undetermined or unconfirmed < by equivalent < literal */
  function FeatureRank(a: Assessments, feature: ClaimFeature): (rank: nat)
    ensures rank <= 3
  {
    var finding := FindingOf(a, feature);
    if finding == Absent then 0
    else if finding == NotDetermined || feature.status != Confirmed then 1
    else if finding == PresentByEquivalent then 2
    else 3
  }

  /** All elements: a list of features is worth its weakest feature; the empty list reads literally. */
  function FeaturesRank(a: Assessments, features: seq<ClaimFeature>): (rank: nat)
    ensures rank <= 3
  {
    if features == [] then 3
    else Min(FeaturesRank(a, features[..|features| - 1]), FeatureRank(a, features[|features| - 1]))
  }

  lemma {:induction false} FeaturesRankAtLeast(a: Assessments, features: seq<ClaimFeature>, r: nat)
    requires r <= 3
    ensures FeaturesRank(a, features) >= r <==> forall f :: f in features ==> FeatureRank(a, f) >= r
  {
    if features != [] {
      var front, last := features[..|features| - 1], features[|features| - 1];
      FeaturesRankAtLeast(a, front, r);
      assert features == front + [last];
    }
  }

  function Ids(features: seq<ClaimFeature>, keep: ClaimFeature -> bool): seq<string> {
    if features == [] then []
    else
      var last := features[|features| - 1];
      Ids(features[..|features| - 1], keep) + (if keep(last) then [last.featureId] else [])
  }

  function Finds(a: Assessments, finding: Finding): ClaimFeature -> bool {
    (f: ClaimFeature) => FindingOf(a, f) == finding
  }

  function IsUnconfirmed(): ClaimFeature -> bool {
    (f: ClaimFeature) => f.status != Confirmed
  }

  /** The conclusion on these features: worth the weakest of them, with the ids of all that stand in the way. */
  ghost predicate IsConclusionOn(r: PathConclusion, a: Assessments, features: seq<ClaimFeature>) {
    && Rank(r.conclusion) == FeaturesRank(a, features)
    && r.absent == Ids(features, Finds(a, Absent))
    && r.undetermined == Ids(features, Finds(a, NotDetermined))
    && r.unconfirmed == Ids(features, IsUnconfirmed())
  }

  lemma IdsOneMore(features: seq<ClaimFeature>, f: ClaimFeature, keep: ClaimFeature -> bool)
    ensures Ids(features + [f], keep) == Ids(features, keep) + (if keep(f) then [f.featureId] else [])
  {
    assert (features + [f])[..|features|] == features;
  }

  lemma FeaturesRankOneMore(a: Assessments, features: seq<ClaimFeature>, f: ClaimFeature)
    ensures FeaturesRank(a, features + [f]) == Min(FeaturesRank(a, features), FeatureRank(a, f))
  {
    assert (features + [f])[..|features|] == features;
  }

  method ConcludeFeatures(a: Assessments, features: seq<ClaimFeature>, path: seq<int>) returns (r: PathConclusion)
    ensures r.path == path && IsConclusionOn(r, a, features)
  {
    var absent, undetermined, unconfirmed, equivalent := [], [], [], false;
    ghost var done: seq<ClaimFeature> := [];
    for i := 0 to |features|
      invariant done == features[..i]
      invariant absent == Ids(done, Finds(a, Absent))
      invariant undetermined == Ids(done, Finds(a, NotDetermined))
      invariant unconfirmed == Ids(done, IsUnconfirmed())
      invariant FeaturesRank(a, done) ==
                if absent != [] then 0
                else if undetermined != [] || unconfirmed != [] then 1
                else if equivalent then 2 else 3
    {
      var feature := features[i];
      TakeOneMore(features, i);
      IdsOneMore(done, feature, Finds(a, Absent));
      IdsOneMore(done, feature, Finds(a, NotDetermined));
      IdsOneMore(done, feature, IsUnconfirmed());
      FeaturesRankOneMore(a, done, feature);
      done := done + [feature];
      if feature.status != Confirmed {
        unconfirmed := unconfirmed + [feature.featureId];
      }
      var finding := FindingOf(a, feature);
      if finding == Absent {
        absent := absent + [feature.featureId];
      } else if finding == NotDetermined {
        undetermined := undetermined + [feature.featureId];
      } else if finding == PresentByEquivalent {
        equivalent := true;
      }
    }
    assert done == features;
    var conclusion;
    if absent != [] {
      conclusion := DoesNotRead;
    } else if undetermined != [] || unconfirmed != [] {
      conclusion := Undetermined;
    } else {
      conclusion := if equivalent then ReadsByEquivalentsOnly else ReadsLiterally;
    }
    r := PathConclusion(path, conclusion, absent, undetermined, unconfirmed);
  }

  // ----- the reference answer: the best over all paths of the worst along the path

  /** Features along a path, root first; None where the original raises KeyError. */
  function PathFeatures(cs: ClaimSet, path: seq<int>): Option<seq<ClaimFeature>> {
    if path == [] then Some([])
    else
      match (PathFeatures(cs, path[..|path| - 1]), cs.Find(path[|path| - 1]))
      case (Some(front), Some(claim)) => Some(front + claim.features)
      case _ => None
  }

  function PathRank(cs: ClaimSet, a: Assessments, path: seq<int>): (rank: nat)
    ensures rank <= 3
  {
    match PathFeatures(cs, path)
    case None => 0
    case Some(features) => FeaturesRank(a, features)
  }

  function BestRank(cs: ClaimSet, a: Assessments, paths: seq<seq<int>>): (rank: nat)
    ensures rank <= 3
  {
    if paths == [] then 0 else Max(PathRank(cs, a, paths[0]), BestRank(cs, a, paths[1..]))
  }

  function OwnRank(cs: ClaimSet, a: Assessments, n: int): (rank: nat)
    ensures rank <= 3
  {
    match cs.Find(n)
    case None => 0
    case Some(claim) => FeaturesRank(a, claim.features)
  }

  ghost predicate ReadsAt(cs: ClaimSet, a: Assessments, n: int, r: nat) {
    exists path :: IsDependencyPath(cs, path, n) && PathRank(cs, a, path) >= r
  }

  lemma {:induction false} PathRankAtLeast(cs: ClaimSet, a: Assessments, path: seq<int>, r: nat)
    requires 1 <= r <= 3
    ensures PathRank(cs, a, path) >= r <==>
            forall m :: m in path ==> m in Numbers(cs) && OwnRank(cs, a, m) >= r
  {
    if path != [] {
      var front, last := path[..|path| - 1], path[|path| - 1];
      PathRankAtLeast(cs, a, front, r);
      assert path == front + [last];
      assert cs.Find(last).Some? <==> last in Numbers(cs);
      if PathFeatures(cs, front).Some? && cs.Find(last).Some? {
        var before, own := PathFeatures(cs, front).value, cs.Find(last).value.features;
        FeaturesRankAtLeast(a, before, r);
        FeaturesRankAtLeast(a, own, r);
        FeaturesRankAtLeast(a, before + own, r);
        assert PathFeatures(cs, path) == Some(before + own);
        assert PathRank(cs, a, path) >= r <==> PathRank(cs, a, front) >= r && OwnRank(cs, a, last) >= r;
      }
    }
  }

  lemma {:induction false} BestRankAtLeast(cs: ClaimSet, a: Assessments, paths: seq<seq<int>>, r: nat)
    requires 1 <= r <= 3
    ensures BestRank(cs, a, paths) >= r <==> exists path :: path in paths && PathRank(cs, a, path) >= r
  {
    if paths != [] {
      BestRankAtLeast(cs, a, paths[1..], r);
      assert paths == [paths[0]] + paths[1..];
    }
  }

  lemma BestOverAllPaths(cs: ClaimSet, a: Assessments, n: int, r: nat)
    requires 1 <= r <= 3
    ensures BestRank(cs, a, AllPaths(cs, n)) >= r <==> ReadsAt(cs, a, n, r)
  {
    AllPathsAreTheDependencyPaths(cs, n);
    BestRankAtLeast(cs, a, AllPaths(cs, n), r);
  }

  // ----- the memoised recursion

  type Memo = map<int, Conclusion>

  /**
   * `result` is None where the original raises KeyError; `evaluated` lists the claims whose features were
   * concluded.
   */
  datatype Outcome<T> = Outcome(result: Option<T>, memo: Memo, evaluated: seq<int>)

  function BestOf(parents: seq<Conclusion>): (best: Conclusion)
    requires parents != []
    ensures best in parents
    ensures forall c :: c in parents ==> Rank(c) <= Rank(best)
  {
    if |parents| == 1 then parents[0]
    else
      var rest := BestOf(parents[1..]);
      assert parents == [parents[0]] + parents[1..];
      if Rank(parents[0]) >= Rank(rest) then parents[0] else rest
  }

  function Combine(own: Conclusion, parents: seq<Conclusion>): Conclusion
    requires parents != []
  {
    if forall c :: c in parents ==> c == DoesNotRead then DoesNotRead
    else if own == Undetermined then Undetermined
    else
      var best := BestOf(parents);
      if best == ReadsLiterally && own == ReadsLiterally then ReadsLiterally
      else if best == ReadsLiterally || best == ReadsByEquivalentsOnly then ReadsByEquivalentsOnly
      else Undetermined
  }

  lemma CombineIsMinOfBest(own: Conclusion, parents: seq<Conclusion>)
    requires parents != [] && own != DoesNotRead
    ensures Rank(Combine(own, parents)) == Min(Rank(own), Rank(BestOf(parents)))
  {
    assert BestOf(parents) in parents;
  }

  ghost predicate Grows(before: Memo, after: Memo) {
    forall k :: k in before ==> k in after && after[k] == before[k]
  }

  function Evaluate(cs: ClaimSet, a: Assessments, n: int, memo: Memo): (r: Outcome<Conclusion>)
    ensures Grows(memo, r.memo)
    ensures r.result.Some? ==> n in r.memo && r.memo[n] == r.result.value
    decreases Numbers(cs) - memo.Keys, 0
  {
    if n in memo then Outcome(Some(memo[n]), memo, [])
    else
      var guarded := memo[n := Undetermined];
      match cs.Find(n)
      case None => Outcome(None, guarded, [])
      case Some(claim) =>
        var own := OfRank(FeaturesRank(a, claim.features));
        if own == DoesNotRead || claim.dependsOn == [] then
          Outcome(Some(own), guarded[n := own], [n])
        else
          assert n in Numbers(cs) - memo.Keys && n !in Numbers(cs) - guarded.Keys;
          var parents := EvaluateAll(cs, a, claim.dependsOn, guarded);
          match parents.result
          case None => Outcome(None, parents.memo, [n] + parents.evaluated)
          case Some(conclusions) =>
            var result := Combine(own, conclusions);
            Outcome(Some(result), parents.memo[n := result], [n] + parents.evaluated)
  }

  function EvaluateAll(cs: ClaimSet, a: Assessments, ns: seq<int>, memo: Memo): (r: Outcome<seq<Conclusion>>)
    ensures Grows(memo, r.memo)
    ensures r.result.Some? ==> |r.result.value| == |ns|
    ensures r.result.Some? ==>
              forall i :: 0 <= i < |ns| ==> ns[i] in r.memo && r.memo[ns[i]] == r.result.value[i]
    decreases Numbers(cs) - memo.Keys, |ns|
  {
    if ns == [] then Outcome(Some([]), memo, [])
    else
      var first := Evaluate(cs, a, ns[0], memo);
      match first.result
      case None => Outcome(None, first.memo, first.evaluated)
      case Some(c) =>
        var rest := EvaluateAll(cs, a, ns[1..], first.memo);
        match rest.result
        case None => Outcome(None, rest.memo, first.evaluated + rest.evaluated)
        case Some(cs') => Outcome(Some([c] + cs'), rest.memo, first.evaluated + rest.evaluated)
  }

  /** The conclusion of one claim, computed with a fresh memo. */
  function ConclusionOf(cs: ClaimSet, a: Assessments, n: int): Option<Conclusion> {
    Evaluate(cs, a, n, map[]).result
  }

  class ClaimChart {
    const claimSet: ClaimSet
    var assessments: Assessments

    constructor (claimSet: ClaimSet)
      ensures this.claimSet == claimSet && assessments == map[]
    {
      this.claimSet := claimSet;
      assessments := map[];
    }

    /** Records a finding; refused, with nothing changed, when no claim has the feature. */
    method Assess(assessment: FeatureAssessment) returns (ok: bool)
      modifies this
      ensures ok <==> exists c, f :: c in claimSet.claims && f in c.features && f.featureId == assessment.featureId
      ensures assessments ==
              if ok then old(assessments)[assessment.featureId := assessment] else old(assessments)
    {
      ok := exists c :: c in claimSet.claims && exists f :: f in c.features && f.featureId == assessment.featureId;
      if ok {
        assessments := assessments[assessment.featureId := assessment];
      }
    }
  }

  class MemoTable {
    var table: Memo
    ghost var evaluated: seq<int>

    constructor ()
      ensures table == map[] && evaluated == []
    {
      table, evaluated := map[], [];
    }
  }

  method ClaimConclusion(cs: ClaimSet, a: Assessments, number: int, memo: MemoTable) returns (r: Option<Conclusion>)
    modifies memo
    ensures r == Evaluate(cs, a, number, old(memo.table)).result
    ensures memo.table == Evaluate(cs, a, number, old(memo.table)).memo
    ensures memo.evaluated == old(memo.evaluated) + Evaluate(cs, a, number, old(memo.table)).evaluated
    decreases Numbers(cs) - memo.table.Keys, 0
  {
    if number in memo.table {
      return Some(memo.table[number]);
    }
    memo.table := memo.table[number := Undetermined];
    var claim := cs.Find(number);
    if claim.None? {
      return None;
    }
    var ownResult := ConcludeFeatures(a, claim.value.features, [number]);
    var own := ownResult.conclusion;
    memo.evaluated := memo.evaluated + [number];
    if own == DoesNotRead || claim.value.dependsOn == [] {
      memo.table := memo.table[number := own];
      return Some(own);
    }
    assert number in Numbers(cs) - old(memo.table).Keys && number !in Numbers(cs) - memo.table.Keys;
    ghost var spec := EvaluateAll(cs, a, claim.value.dependsOn, memo.table);
    ConcatAssociates(old(memo.evaluated), [number], spec.evaluated);
    var parents := ConcludeAll(cs, a, claim.value.dependsOn, memo);
    if parents.None? {
      return None;
    }
    var result := Combine(own, parents.value);
    memo.table := memo.table[number := result];
    return Some(result);
  }

  /** The parents in order; stops at the first KeyError. */
  method ConcludeAll(cs: ClaimSet, a: Assessments, numbers: seq<int>, memo: MemoTable)
    returns (r: Option<seq<Conclusion>>)
    modifies memo
    ensures r == EvaluateAll(cs, a, numbers, old(memo.table)).result
    ensures memo.table == EvaluateAll(cs, a, numbers, old(memo.table)).memo
    ensures memo.evaluated == old(memo.evaluated) + EvaluateAll(cs, a, numbers, old(memo.table)).evaluated
    decreases Numbers(cs) - memo.table.Keys, |numbers|
  {
    if numbers == [] {
      return Some([]);
    }
    var first := ClaimConclusion(cs, a, numbers[0], memo);
    if first.None? {
      return None;
    }
    ghost var spec := Evaluate(cs, a, numbers[0], old(memo.table));
    ConcatAssociates(old(memo.evaluated), spec.evaluated, EvaluateAll(cs, a, numbers[1..], spec.memo).evaluated);
    var rest := ConcludeAll(cs, a, numbers[1..], memo);
    r := if rest.None? then None else Some([first.value] + rest.value);
  }
}
