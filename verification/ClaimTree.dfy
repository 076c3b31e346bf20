/** Claims, their references and their technical features. */
module ClaimTree {
  import opened Basics

  datatype Finding = LiterallyPresent | PresentByEquivalent | Absent | NotDetermined

  datatype FeatureStatus = Proposed | Confirmed

  datatype Conclusion = ReadsLiterally | ReadsByEquivalentsOnly | Undetermined | DoesNotRead

  datatype Span = Span(start: nat, end: nat)

  datatype ClaimFeature = ClaimFeature(
    featureId: string,
    claimNumber: int,
    text: string,
    spans: seq<Span>,
    status: FeatureStatus)

  datatype Claim = Claim(
    number: int,
    text: string,
    dependsOn: seq<int>,
    features: seq<ClaimFeature>)

  datatype ClaimSet = ClaimSet(claims: seq<Claim>) {

    /** The first claim with this number; None where the original raises KeyError. */
    function Find(number: int): Option<Claim> {
      FindIn(claims, number)
    }
  }

  function FindIn(claims: seq<Claim>, number: int): (r: Option<Claim>)
    ensures r.Some? <==> exists c :: c in claims && c.number == number
    ensures r.Some? ==> r.value in claims && r.value.number == number
  {
    if claims == [] then None
    else if claims[0].number == number then Some(claims[0])
    else FindIn(claims[1..], number)
  }

  function Numbers(cs: ClaimSet): set<int> {
    set c | c in cs.claims :: c.number
  }

  /** The references of claim `n`; a missing claim refers to nothing. */
  function References(cs: ClaimSet, n: int): seq<int> {
    match cs.Find(n)
    case None => []
    case Some(claim) => claim.dependsOn
  }

  /** Every reference names a claim of the set. */
  ghost predicate Closed(cs: ClaimSet) {
    forall n, p :: n in Numbers(cs) && p in References(cs, n) ==> p in Numbers(cs)
  }

  predicate Independent(cs: ClaimSet, n: int) {
    n in Numbers(cs) && References(cs, n) == []
  }

  /** A chain of references: each number refers to the one before it. */
  ghost predicate IsChain(cs: ClaimSet, chain: seq<int>) {
    forall i :: 0 <= i < |chain| - 1 ==> chain[i] in References(cs, chain[i + 1])
  }

  /** No chain of references returns to the claim it started from. */
  ghost predicate Acyclic(cs: ClaimSet) {
    forall chain :: |chain| >= 2 && IsChain(cs, chain) ==> chain[0] != chain[|chain| - 1]
  }

  ghost predicate ChainBetween(cs: ClaimSet, m: int, n: int) {
    exists chain :: |chain| >= 2 && IsChain(cs, chain) && chain[0] == m && chain[|chain| - 1] == n
  }

  /** `m` is `n` itself or a claim that `n` depends on, directly or through others. */
  ghost predicate AtOrAbove(cs: ClaimSet, m: int, n: int) {
    m == n || ChainBetween(cs, m, n)
  }

  /** Every claim that `n` depends on exists, and so does `n`. */
  ghost predicate CompleteAbove(cs: ClaimSet, n: int) {
    forall m :: AtOrAbove(cs, m, n) ==> m in Numbers(cs)
  }

  /** Following references from `n` can lead round a circle. */
  ghost predicate CircleAbove(cs: ClaimSet, n: int) {
    exists m :: AtOrAbove(cs, m, n) && ChainBetween(cs, m, m)
  }

  lemma DirectReference(cs: ClaimSet, p: int, n: int)
    requires p in References(cs, n)
    ensures ChainBetween(cs, p, n)
  {
    assert IsChain(cs, [p, n]);
  }

  lemma ChainGrows(cs: ClaimSet, m: int, p: int, n: int)
    requires AtOrAbove(cs, m, p) && p in References(cs, n)
    ensures ChainBetween(cs, m, n)
  {
    if m == p {
      DirectReference(cs, p, n);
    } else {
      var chain :| |chain| >= 2 && IsChain(cs, chain) && chain[0] == m && chain[|chain| - 1] == p;
      assert IsChain(cs, chain + [n]);
    }
  }

  lemma ParentIsComplete(cs: ClaimSet, n: int, p: int)
    requires CompleteAbove(cs, n) && p in References(cs, n)
    ensures CompleteAbove(cs, p)
  {
    forall m | AtOrAbove(cs, m, p)
      ensures m in Numbers(cs)
    {
      ChainGrows(cs, m, p, n);
    }
  }

  /** The last step of a chain comes from a claim at or below its start. */
  lemma ChainLosesLast(cs: ClaimSet, m: int, n: int) returns (p: int)
    requires ChainBetween(cs, m, n)
    ensures p in References(cs, n) && AtOrAbove(cs, m, p)
  {
    var chain :| |chain| >= 2 && IsChain(cs, chain) && chain[0] == m && chain[|chain| - 1] == n;
    var last := |chain| - 1;
    p := chain[last - 1];
    assert p in References(cs, chain[last]);
    if last > 1 {
      var front := chain[..last];
      assert IsChain(cs, front) && front[0] == m && front[|front| - 1] == p;
    }
  }

  lemma {:induction false} ClosedAlongChain(cs: ClaimSet, chain: seq<int>)
    requires Closed(cs) && |chain| >= 2 && IsChain(cs, chain)
    ensures chain[0] in Numbers(cs)
  {
    var p, n := chain[0], chain[1];
    assert p in References(cs, n);
    assert cs.Find(n).Some?;
    assert n in Numbers(cs);
  }

  lemma ClosedIsComplete(cs: ClaimSet, n: int)
    requires Closed(cs) && n in Numbers(cs)
    ensures CompleteAbove(cs, n)
  {
    forall m | ChainBetween(cs, m, n)
      ensures m in Numbers(cs)
    {
      var chain :| |chain| >= 2 && IsChain(cs, chain) && chain[0] == m && chain[|chain| - 1] == n;
      ClosedAlongChain(cs, chain);
    }
  }

  lemma AcyclicHasNoCircle(cs: ClaimSet, n: int)
    requires Acyclic(cs)
    ensures !CircleAbove(cs, n)
  {
    forall m: int
      ensures !ChainBetween(cs, m, m)
    {
      assert forall chain :: |chain| >= 2 && IsChain(cs, chain) ==> chain[0] != chain[|chain| - 1];
    }
  }

  /** A level for some claims, with every claim they refer to, that falls along every reference. */
  ghost predicate Levelled(cs: ClaimSet, level: map<int, nat>) {
    && level.Keys <= Numbers(cs)
    && forall n :: n in level ==> forall p :: p in References(cs, n) ==> p in level && level[p] < level[n]
  }

  /** The claims some chain leads from, down to `n`. */
  ghost function Ancestors(cs: ClaimSet, n: int): set<int> {
    set m | m in Numbers(cs) && ChainBetween(cs, m, n)
  }

  lemma AncestorsShrink(cs: ClaimSet, n: int, p: int)
    requires p in Numbers(cs) && p in References(cs, n) && !ChainBetween(cs, p, p)
    ensures Ancestors(cs, p) < Ancestors(cs, n)
  {
    DirectReference(cs, p, n);
    assert p in Ancestors(cs, n);
    forall m | m in Ancestors(cs, p)
      ensures m in Ancestors(cs, n)
    {
      ChainGrows(cs, m, p, n);
    }
  }

  lemma ProperSubsetIsSmaller<T>(a: set<T>, b: set<T>)
    requires a < b
    ensures |a| < |b|
  {
    assert |b| == |a| + |b - a| by { assert b == a + (b - a); }
  }

  lemma AboveReference(cs: ClaimSet, k: int, p: int, n: int)
    requires AtOrAbove(cs, k, n) && p in References(cs, k)
    ensures ChainBetween(cs, p, n)
  {
    if k == n {
      DirectReference(cs, p, n);
    } else {
      var chain :| |chain| >= 2 && IsChain(cs, chain) && chain[0] == k && chain[|chain| - 1] == n;
      assert IsChain(cs, [p] + chain);
    }
  }

  /** The claims `n` depends on, itself included. */
  ghost function ClaimsAbove(cs: ClaimSet, n: int): set<int> {
    set m | m in Numbers(cs) && AtOrAbove(cs, m, n)
  }

  /** The references of `k` stay among these claims and have fewer ancestors. */
  ghost predicate FewerAncestors(cs: ClaimSet, above: set<int>, k: int) {
    forall p :: p in References(cs, k) ==> p in above && |Ancestors(cs, p)| < |Ancestors(cs, k)|
  }

  lemma AncestorsFall(cs: ClaimSet, n: int, k: int)
    requires CompleteAbove(cs, n) && !CircleAbove(cs, n) && k in ClaimsAbove(cs, n)
    ensures FewerAncestors(cs, ClaimsAbove(cs, n), k)
  {
    forall p | p in References(cs, k)
      ensures p in ClaimsAbove(cs, n) && |Ancestors(cs, p)| < |Ancestors(cs, k)|
    {
      AboveReference(cs, k, p, n);
      AncestorsShrink(cs, k, p);
      ProperSubsetIsSmaller(Ancestors(cs, p), Ancestors(cs, k));
    }
  }

  lemma AncestorCountIsLevel(cs: ClaimSet, above: set<int>) returns (level: map<int, nat>)
    requires above <= Numbers(cs) && forall k :: k in above ==> FewerAncestors(cs, above, k)
    ensures Levelled(cs, level) && level.Keys == above
  {
    level := map m | m in above :: |Ancestors(cs, m)|;
    forall k | k in above
      ensures forall p :: p in References(cs, k) ==> p in level && level[p] < level[k]
    {
      assert FewerAncestors(cs, above, k);
    }
  }

  /** Without a circle above `n`, the claims it depends on have levels: the number of their ancestors. */
  lemma CircleFreeHasLevels(cs: ClaimSet, n: int) returns (level: map<int, nat>)
    requires CompleteAbove(cs, n) && !CircleAbove(cs, n)
    ensures Levelled(cs, level) && n in level
  {
    assert AtOrAbove(cs, n, n);
    forall k | k in ClaimsAbove(cs, n)
      ensures FewerAncestors(cs, ClaimsAbove(cs, n), k)
    {
      AncestorsFall(cs, n, k);
    }
    level := AncestorCountIsLevel(cs, ClaimsAbove(cs, n));
  }

  /** Levels fall along a chain. */
  lemma {:induction false} LevelsFallAlongChain(cs: ClaimSet, level: map<int, nat>, chain: seq<int>)
    requires Levelled(cs, level) && |chain| >= 2 && IsChain(cs, chain) && chain[|chain| - 1] in level
    ensures chain[0] in level && level[chain[0]] < level[chain[|chain| - 1]]
  {
    var last := |chain| - 1;
    var n, p := chain[last], chain[last - 1];
    assert p in References(cs, n);
    if last > 1 {
      var above := chain[..last];
      LevelsFallAlongChain(cs, level, above);
      assert above[0] == chain[0] && above[|above| - 1] == chain[last - 1];
    }
  }

  /** The converse: levels leave no room for a circle or for a reference to a missing claim. */
  lemma LevelsRuleOutCircles(cs: ClaimSet, level: map<int, nat>, n: int)
    requires Levelled(cs, level) && n in level
    ensures CompleteAbove(cs, n) && !CircleAbove(cs, n)
  {
    forall m | AtOrAbove(cs, m, n)
      ensures m in level && !ChainBetween(cs, m, m)
    {
      if m != n {
        var chain :| |chain| >= 2 && IsChain(cs, chain) && chain[0] == m && chain[|chain| - 1] == n;
        LevelsFallAlongChain(cs, level, chain);
      }
      if ChainBetween(cs, m, m) {
        var circle :| |circle| >= 2 && IsChain(cs, circle) && circle[0] == m && circle[|circle| - 1] == m;
        LevelsFallAlongChain(cs, level, circle);
      }
    }
  }

  lemma LevelsMakeAcyclic(cs: ClaimSet, level: map<int, nat>)
    requires Levelled(cs, level) && level.Keys == Numbers(cs)
    ensures Closed(cs) && Acyclic(cs)
  {
    forall chain | |chain| >= 2 && IsChain(cs, chain)
      ensures chain[0] != chain[|chain| - 1]
    {
      assert chain[|chain| - 2] in References(cs, chain[|chain| - 1]);
      LevelsFallAlongChain(cs, level, chain);
    }
  }
}
