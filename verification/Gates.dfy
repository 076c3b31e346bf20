/** The gates over the comparison matrix: single-reference novelty, document pairs, and the closest prior art. */
module Gates {
  import opened Basics
  import opened Priority

  datatype Judgment = Identical | Equivalent | Different | InsufficientEvidence | Other(name: string)

  /** One matrix cell: feature against document. */
  datatype Row = Row(feature: string, doc: string, judgment: Judgment)

  type Kinds = map<string, ReferenceKind>

  function Precedence(j: Judgment): int {
    match j
    case Identical => 3
    case Equivalent => 2
    case Different => 1
    case InsufficientEvidence => 0
    case Other(_) => -1
  }

  predicate Covering(j: Judgment) {
    j == Identical || j == Equivalent
  }

  // ----- text order

  /** `a` sorts before `b`. */
  predicate TextBefore(a: string, b: string) {
    b != "" && (a == "" || a[0] < b[0] || (a[0] == b[0] && TextBefore(a[1..], b[1..])))
  }

  lemma {:induction false} TextOrderIsTotal(a: string, b: string)
    ensures TextBefore(a, b) || TextBefore(b, a) || a == b
    ensures !(TextBefore(a, b) && TextBefore(b, a)) && !TextBefore(a, a)
  {
    if a != "" && b != "" {
      TextOrderIsTotal(a[1..], b[1..]);
      TextOrderIsTotal(a[1..], a[1..]);
      assert a == [a[0]] + a[1..] && b == [b[0]] + b[1..];
    } else if a != "" {
      TextOrderIsTotal(a[1..], a[1..]);
    }
  }

  lemma {:induction false} TextOrderIsTransitive(a: string, b: string, c: string)
    requires TextBefore(a, b) && TextBefore(b, c)
    ensures TextBefore(a, c)
  {
    if a != "" && a[0] == b[0] == c[0] {
      TextOrderIsTransitive(a[1..], b[1..], c[1..]);
    }
  }

  ghost predicate Ascending(texts: seq<string>) {
    forall i, j :: 0 <= i < j < |texts| ==> TextBefore(texts[i], texts[j])
  }

  lemma AscendingIsDistinct(texts: seq<string>)
    requires Ascending(texts)
    ensures Distinct(texts)
  {
    forall i, j | 0 <= i < j < |texts|
      ensures texts[i] != texts[j]
    {
      TextOrderIsTotal(texts[i], texts[j]);
    }
  }

  /** The texts up to `text` in an ascending list, `text` itself, and the later ones. */
  function Insert(texts: seq<string>, text: string): seq<string> {
    if texts == [] then [text]
    else if TextBefore(text, texts[0]) then [text] + texts
    else if text == texts[0] then texts
    else [texts[0]] + Insert(texts[1..], text)
  }

  lemma {:induction false} InsertKeepsAscending(texts: seq<string>, text: string)
    requires Ascending(texts)
    ensures Ascending(Insert(texts, text))
    ensures forall x :: x in Insert(texts, text) <==> x in texts || x == text
  {
    if texts != [] {
      TextOrderIsTotal(text, texts[0]);
      var rest := texts[1..];
      assert texts == [texts[0]] + rest;
      if TextBefore(text, texts[0]) {
        forall j | 0 <= j < |texts|
          ensures TextBefore(text, texts[j])
        {
          if j > 0 {
            TextOrderIsTransitive(text, texts[0], texts[j]);
          }
        }
      } else if text != texts[0] {
        InsertKeepsAscending(rest, text);
        var inserted := Insert(rest, text);
        forall j | 0 <= j < |inserted|
          ensures TextBefore(texts[0], inserted[j])
        {
          assert inserted[j] in inserted;
          if inserted[j] != text {
            var k :| 0 <= k < |rest| && rest[k] == inserted[j];
            assert TextBefore(texts[0], texts[k + 1]);
          }
        }
      }
    }
  }

  // ----- rows by document

  /** The documents of the matrix, sorted. */
  function Docs(rows: seq<Row>): seq<string> {
    if rows == [] then [] else Insert(Docs(rows[..|rows| - 1]), rows[|rows| - 1].doc)
  }

  lemma {:induction false} DocsAreSorted(rows: seq<Row>)
    ensures Ascending(Docs(rows))
    ensures forall doc :: doc in Docs(rows) <==> exists r :: r in rows && r.doc == doc
  {
    if rows != [] {
      var front, last := rows[..|rows| - 1], rows[|rows| - 1];
      DocsAreSorted(front);
      InsertKeepsAscending(Docs(front), last.doc);
      assert rows == front + [last];
    }
  }

  function RowsOf(rows: seq<Row>, doc: string): seq<Row> {
    if rows == [] then []
    else
      var before, last := RowsOf(rows[..|rows| - 1], doc), rows[|rows| - 1];
      if last.doc == doc then before + [last] else before
  }

  lemma {:induction false} RowsOfAre(rows: seq<Row>, doc: string)
    ensures forall r :: r in RowsOf(rows, doc) <==> r in rows && r.doc == doc
  {
    if rows != [] {
      RowsOfAre(rows[..|rows| - 1], doc);
      assert rows == rows[..|rows| - 1] + [rows[|rows| - 1]];
    }
  }

  function AllFeatures(rows: seq<Row>): set<string> {
    set r | r in rows :: r.feature
  }

  function IdenticalFeatures(rows: seq<Row>, doc: string): set<string> {
    set r | r in rows && r.doc == doc && r.judgment == Identical :: r.feature
  }

  function CoveredFeatures(rows: seq<Row>, doc: string): set<string> {
    set r | r in rows && r.doc == doc && Covering(r.judgment) :: r.feature
  }

  predicate IsPriorArt(kinds: Kinds, doc: string) {
    doc !in kinds || kinds[doc] == PriorArt
  }

  // ----- the novelty gate

  datatype Level = HighNoveltyRisk | NeedsConfirmation

  datatype NoveltyFinding = NoveltyFinding(doc: string, level: Level)

  predicate UsableForNovelty(kinds: Kinds, doc: string) {
    doc !in kinds || (kinds[doc] != NotUsable && kinds[doc] != UnknownDates)
  }

  function NoveltyLevel(rows: seq<Row>, total: int, kinds: Kinds, doc: string): Option<Level> {
    if !UsableForNovelty(kinds, doc) then None
    else if |IdenticalFeatures(rows, doc)| == total then Some(HighNoveltyRisk)
    else if |CoveredFeatures(rows, doc)| == total then Some(NeedsConfirmation)
    else None
  }

  /** One finding per flagged document, in document order. */
  method NoveltyFindings(rows: seq<Row>, total: int, kinds: Kinds) returns (findings: seq<NoveltyFinding>)
    ensures total <= 0 ==> findings == []
    ensures total > 0 ==> forall doc, level ::
              NoveltyFinding(doc, level) in findings <==>
              doc in Docs(rows) && NoveltyLevel(rows, total, kinds, doc) == Some(level)
    ensures forall i, j :: 0 <= i < j < |findings| ==> TextBefore(findings[i].doc, findings[j].doc)
  {
    findings := [];
    if total <= 0 {
      return;
    }
    var docs := Docs(rows);
    DocsAreSorted(rows);
    for i := 0 to |docs|
      invariant forall doc, level ::
                  NoveltyFinding(doc, level) in findings <==>
                  doc in docs[..i] && NoveltyLevel(rows, total, kinds, doc) == Some(level)
      invariant forall k :: 0 <= k < |findings| ==> findings[k].doc in docs[..i]
      invariant forall j, k :: 0 <= j < k < |findings| ==> TextBefore(findings[j].doc, findings[k].doc)
    {
      TakeOneMore(docs, i);
      assert docs[i] !in docs[..i] by {
        AscendingIsDistinct(docs);
      }
      var doc := docs[i];
      if UsableForNovelty(kinds, doc) {
        if |IdenticalFeatures(rows, doc)| == total {
          findings := findings + [NoveltyFinding(doc, HighNoveltyRisk)];
        } else if |CoveredFeatures(rows, doc)| == total {
          findings := findings + [NoveltyFinding(doc, NeedsConfirmation)];
        }
      }
    }
    assert docs[..|docs|] == docs;
  }

  predicate TriggersHighNovelty(rows: seq<Row>, total: int, kinds: Kinds, doc: string) {
    total > 0 && doc in Docs(rows) && NoveltyLevel(rows, total, kinds, doc) == Some(HighNoveltyRisk)
  }

  // ----- pairs of documents

  /** The best judgment of each feature over the rows. */
  ghost predicate BestCells(cells: map<string, Judgment>, rows: seq<Row>) {
    && (forall r :: r in rows ==> r.feature in cells && Precedence(r.judgment) <= Precedence(cells[r.feature]))
    && (forall code :: code in cells ==> exists r :: r in rows && r.feature == code && r.judgment == cells[code])
  }

  method BestJudgments(rows: seq<Row>) returns (cells: map<string, Judgment>)
    ensures BestCells(cells, rows)
  {
    cells := map[];
    for i := 0 to |rows|
      invariant BestCells(cells, rows[..i])
    {
      TakeOneMore(rows, i);
      var row := rows[i];
      assert row in rows[..i + 1];
      if row.feature !in cells || Precedence(row.judgment) > Precedence(cells[row.feature]) {
        cells := cells[row.feature := row.judgment];
      }
    }
    assert rows[..|rows|] == rows;
  }

  method CoveredTogether(rows: seq<Row>, first: string, second: string) returns (covered: set<string>)
    ensures covered == CoveredFeatures(rows, first) + CoveredFeatures(rows, second)
  {
    var both := RowsOf(rows, first) + RowsOf(rows, second);
    RowsOfAre(rows, first);
    RowsOfAre(rows, second);
    var cells := BestJudgments(both);
    covered := set code | code in cells && Covering(cells[code]);
    forall code | code in covered
      ensures code in CoveredFeatures(rows, first) + CoveredFeatures(rows, second)
    {
      var r :| r in both && r.feature == code && r.judgment == cells[code];
      assert r in rows;
    }
    forall r | r in rows && (r.doc == first || r.doc == second) && Covering(r.judgment)
      ensures r.feature in covered
    {
      assert r in both;
    }
  }

  function PriorArtDocs(docs: seq<string>, kinds: Kinds): seq<string> {
    if docs == [] then []
    else
      var before, last := PriorArtDocs(docs[..|docs| - 1], kinds), docs[|docs| - 1];
      if IsPriorArt(kinds, last) then before + [last] else before
  }

  lemma {:induction false} PriorArtDocsAre(docs: seq<string>, kinds: Kinds)
    requires Ascending(docs)
    ensures Ascending(PriorArtDocs(docs, kinds))
    ensures forall doc :: doc in PriorArtDocs(docs, kinds) <==> doc in docs && IsPriorArt(kinds, doc)
  {
    if docs != [] {
      var front, last := docs[..|docs| - 1], docs[|docs| - 1];
      PriorArtDocsAre(front, kinds);
      assert docs == front + [last];
      var before := PriorArtDocs(front, kinds);
      forall i | 0 <= i < |before|
        ensures TextBefore(before[i], last)
      {
        assert before[i] in front;
      }
    }
  }

  ghost predicate IsCombination(rows: seq<Row>, total: int, first: string, second: string) {
    |CoveredFeatures(rows, first) + CoveredFeatures(rows, second)| == total
  }

  /** The pairs with the given first member, second members among `others`. */
  method PairsWith(rows: seq<Row>, total: int, first: string, others: seq<string>)
    returns (pairs: seq<(string, string)>)
    requires Distinct(others)
    ensures forall p :: p in pairs <==> p.0 == first && p.1 in others && IsCombination(rows, total, p.0, p.1)
    ensures Distinct(pairs)
  {
    pairs := [];
    for j := 0 to |others|
      invariant forall p :: p in pairs <==> p.0 == first && p.1 in others[..j] && IsCombination(rows, total, p.0, p.1)
      invariant Distinct(pairs)
    {
      TakeOneMore(others, j);
      assert others[j] !in others[..j];
      var covered := CoveredTogether(rows, first, others[j]);
      if |covered| == total {
        pairs := pairs + [(first, others[j])];
      }
    }
    assert others[..|others|] == others;
  }

  /** `first` comes before `second` in the list. */
  ghost predicate InOrder(docs: seq<string>, first: string, second: string) {
    exists i, j :: 0 <= i < j < |docs| && docs[i] == first && docs[j] == second
  }

  method CombinationFindings(rows: seq<Row>, total: int, kinds: Kinds) returns (pairs: seq<(string, string)>)
    ensures total <= 0 ==> pairs == []
    ensures total > 0 ==> forall p :: p in pairs <==>
              InOrder(PriorArtDocs(Docs(rows), kinds), p.0, p.1) && IsCombination(rows, total, p.0, p.1)
    ensures Distinct(pairs)
  {
    pairs := [];
    if total <= 0 {
      return;
    }
    var docs := PriorArtDocs(Docs(rows), kinds);
    DocsAreSorted(rows);
    PriorArtDocsAre(Docs(rows), kinds);
    AscendingIsDistinct(docs);
    for i := 0 to |docs|
      invariant forall p :: p in pairs <==>
                  (exists k, j :: 0 <= k < i && k < j < |docs| && docs[k] == p.0 && docs[j] == p.1)
                  && IsCombination(rows, total, p.0, p.1)
      invariant Distinct(pairs)
    {
      var more := PairsWith(rows, total, docs[i], docs[i + 1..]);
      forall p | p in pairs
        ensures p !in more
      {
      }
      DistinctConcat(pairs, more);
      pairs := pairs + more;
    }
  }

  // ----- the closest prior art

  datatype Scaffold = Scaffold(closest: string, identicalCount: nat, distinguishing: seq<string>)

  /** How many rows of the document carry the judgment. */
  function CountJudged(rows: seq<Row>, doc: string, j: Judgment): nat {
    if rows == [] then 0
    else
      var last := rows[|rows| - 1];
      CountJudged(rows[..|rows| - 1], doc, j) + (if last.doc == doc && last.judgment == j then 1 else 0)
  }

  /** More identical rows first, then fewer rows without evidence, then by id. */
  predicate ScoresBefore(rows: seq<Row>, a: string, b: string) {
    var ia, ib := CountJudged(rows, a, Identical), CountJudged(rows, b, Identical);
    var na, nb := CountJudged(rows, a, InsufficientEvidence), CountJudged(rows, b, InsufficientEvidence);
    ia > ib || (ia == ib && (na < nb || (na == nb && TextBefore(a, b))))
  }

  lemma ScoresBeforeIsTransitive(rows: seq<Row>, a: string, b: string, c: string)
    requires ScoresBefore(rows, a, b) && ScoresBefore(rows, b, c)
    ensures ScoresBefore(rows, a, c)
  {
    if TextBefore(a, b) && TextBefore(b, c) {
      TextOrderIsTransitive(a, b, c);
    }
  }

  /** The features of the matrix in the order they first appear. */
  function FeatureCodes(rows: seq<Row>): seq<string> {
    if rows == [] then []
    else
      var before, code := FeatureCodes(rows[..|rows| - 1]), rows[|rows| - 1].feature;
      if code in before then before else before + [code]
  }

  function Without(codes: seq<string>, known: set<string>): seq<string> {
    if codes == [] then []
    else if codes[0] in known then Without(codes[1..], known)
    else [codes[0]] + Without(codes[1..], known)
  }

  ghost predicate Scaffolded(rows: seq<Row>, kinds: Kinds, s: Scaffold) {
    var docs := PriorArtDocs(Docs(rows), kinds);
    && s.closest in docs
    && (forall doc :: doc in docs ==> doc == s.closest || ScoresBefore(rows, s.closest, doc))
    && s.identicalCount == |IdenticalFeatures(rows, s.closest)|
    && s.distinguishing == Without(FeatureCodes(rows), IdenticalFeatures(rows, s.closest))
  }

  /** None when no document of the matrix is prior art. */
  method ThreeStepScaffold(rows: seq<Row>, kinds: Kinds) returns (r: Option<Scaffold>)
    ensures r.None? <==> PriorArtDocs(Docs(rows), kinds) == []
    ensures r.Some? ==> Scaffolded(rows, kinds, r.value)
  {
    var docs := PriorArtDocs(Docs(rows), kinds);
    if docs == [] {
      return None;
    }
    var closest := docs[0];
    for i := 1 to |docs|
      invariant closest in docs
      invariant forall k :: 0 <= k < i ==> docs[k] == closest || ScoresBefore(rows, closest, docs[k])
    {
      ghost var before := closest;
      TextOrderIsTotal(docs[i], closest);
      if ScoresBefore(rows, docs[i], closest) {
        closest := docs[i];
        forall k | 0 <= k < i && docs[k] != before
          ensures ScoresBefore(rows, closest, docs[k])
        {
          ScoresBeforeIsTransitive(rows, closest, before, docs[k]);
        }
      }
    }
    var identical := IdenticalFeatures(rows, closest);
    return Some(Scaffold(closest, |identical|, Without(FeatureCodes(rows), identical)));
  }

  // ----- how the gates relate

  /** At most one judgment per feature and document. */
  ghost predicate UniqueCells(rows: seq<Row>) {
    forall i, j :: 0 <= i < j < |rows| ==> rows[i].feature != rows[j].feature || rows[i].doc != rows[j].doc
  }

  lemma {:induction false} CountIsNumberOfFeatures(rows: seq<Row>, doc: string)
    requires UniqueCells(rows)
    ensures CountJudged(rows, doc, Identical) == |IdenticalFeatures(rows, doc)|
  {
    if rows != [] {
      var front, last := rows[..|rows| - 1], rows[|rows| - 1];
      CountIsNumberOfFeatures(front, doc);
      IdenticalOneMore(rows, front, last, doc);
      if last.doc == doc && last.judgment == Identical {
        CellIsNew(front, last, doc);
      }
    }
  }

  lemma IdenticalOneMore(rows: seq<Row>, front: seq<Row>, last: Row, doc: string)
    requires rows == front + [last]
    ensures IdenticalFeatures(rows, doc) == IdenticalFeatures(front, doc)
            + if last.doc == doc && last.judgment == Identical then {last.feature} else {}
  {
    assert forall r :: r in rows <==> r in front || r == last;
  }

  /** The feature of a new row is not among those the document was judged on before. */
  lemma CellIsNew(front: seq<Row>, last: Row, doc: string)
    requires UniqueCells(front + [last]) && last.doc == doc
    ensures last.feature !in IdenticalFeatures(front, doc)
  {
    var rows := front + [last];
    forall r | r in front && r.doc == doc
      ensures r.feature != last.feature
    {
      var i :| 0 <= i < |front| && front[i] == r;
      assert rows[i] == r && rows[|front|] == last;
    }
  }

  lemma {:induction false} FeatureCodesAre(rows: seq<Row>)
    ensures forall code :: code in FeatureCodes(rows) <==> code in AllFeatures(rows)
  {
    if rows != [] {
      var front, last := rows[..|rows| - 1], rows[|rows| - 1];
      FeatureCodesAre(front);
      assert forall r :: r in rows <==> r in front || r == last;
    }
  }

  lemma {:induction false} WithoutIsEmpty(codes: seq<string>, known: set<string>)
    ensures Without(codes, known) == [] <==> forall code :: code in codes ==> code in known
  {
    if codes != [] {
      WithoutIsEmpty(codes[1..], known);
      assert codes[0] in codes && forall code :: code in codes <==> code == codes[0] || code in codes[1..];
    }
  }

  lemma SubsetOfSameSize<T>(a: set<T>, b: set<T>)
    requires a <= b
    ensures |a| <= |b| && (|a| == |b| <==> a == b)
  {
    assert b == a + (b - a);
    assert |b| == |a| + |b - a|;
  }

  lemma IdenticalAreFeatures(rows: seq<Row>, doc: string)
    ensures IdenticalFeatures(rows, doc) <= CoveredFeatures(rows, doc) <= AllFeatures(rows)
  {
  }

  /** No distinguishing features remain exactly when the closest document discloses every feature identically. */
  lemma NothingDistinguishes(rows: seq<Row>, kinds: Kinds, s: Scaffold)
    requires Scaffolded(rows, kinds, s)
    ensures s.distinguishing == [] <==> IdenticalFeatures(rows, s.closest) == AllFeatures(rows)
  {
    FeatureCodesAre(rows);
    WithoutIsEmpty(FeatureCodes(rows), IdenticalFeatures(rows, s.closest));
    IdenticalAreFeatures(rows, s.closest);
  }

  /**
   * Two gates coded separately agree: the scaffold names no distinguishing feature exactly when some
   * prior-art document triggers the high novelty gate.
   */
  lemma ScaffoldAgreesWithNovelty(rows: seq<Row>, total: int, kinds: Kinds, s: Scaffold)
    requires UniqueCells(rows) && total == |AllFeatures(rows)| && Scaffolded(rows, kinds, s)
    ensures s.distinguishing == [] <==>
            exists doc :: IsPriorArt(kinds, doc) && TriggersHighNovelty(rows, total, kinds, doc)
  {
    var docs := PriorArtDocs(Docs(rows), kinds);
    DocsAreSorted(rows);
    PriorArtDocsAre(Docs(rows), kinds);
    NothingDistinguishes(rows, kinds, s);
    IdenticalAreFeatures(rows, s.closest);
    SubsetOfSameSize(IdenticalFeatures(rows, s.closest), AllFeatures(rows));
    if s.distinguishing == [] {
      var r :| r in rows && r.doc == s.closest;
      assert r.feature in AllFeatures(rows);
      assert IsPriorArt(kinds, s.closest) && TriggersHighNovelty(rows, total, kinds, s.closest);
    }
    forall doc | IsPriorArt(kinds, doc) && TriggersHighNovelty(rows, total, kinds, doc)
      ensures s.distinguishing == []
    {
      IdenticalAreFeatures(rows, doc);
      SubsetOfSameSize(IdenticalFeatures(rows, doc), AllFeatures(rows));
      CountIsNumberOfFeatures(rows, doc);
      CountIsNumberOfFeatures(rows, s.closest);
      assert doc in docs;
    }
  }

  /** A pair is a combination exactly when together the two documents disclose every feature. */
  lemma CombinationCoversEverything(rows: seq<Row>, total: int, first: string, second: string)
    requires total == |AllFeatures(rows)|
    ensures IsCombination(rows, total, first, second) <==>
            CoveredFeatures(rows, first) + CoveredFeatures(rows, second) == AllFeatures(rows)
  {
    IdenticalAreFeatures(rows, first);
    IdenticalAreFeatures(rows, second);
    SubsetOfSameSize(CoveredFeatures(rows, first) + CoveredFeatures(rows, second), AllFeatures(rows));
  }

  /** So every pair with a document that triggers the high novelty gate is one. */
  lemma NoveltyDocumentCombinesWithAll(rows: seq<Row>, total: int, kinds: Kinds, doc: string, other: string)
    requires total == |AllFeatures(rows)| && TriggersHighNovelty(rows, total, kinds, doc)
    ensures IsCombination(rows, total, doc, other) && IsCombination(rows, total, other, doc)
  {
    IdenticalAreFeatures(rows, doc);
    IdenticalAreFeatures(rows, other);
    SubsetOfSameSize(IdenticalFeatures(rows, doc), AllFeatures(rows));
    CombinationCoversEverything(rows, total, doc, other);
    CombinationCoversEverything(rows, total, other, doc);
  }
}
