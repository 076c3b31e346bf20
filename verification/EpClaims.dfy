/**
 * European claims from flat paragraphs: grouping, references and feature spans. Where the original runs
 * regular expressions, the model takes their findings as input: reference tokens, cut positions and so on.
 */
module EpClaims {
  import opened Basics
  import opened ClaimTree
  import opened Trimming
  import ClaimCharts
  import ClaimTheorems

  // ----- references

  datatype Separator = Comma | OrWord | AndWord | ToWord | Dash

  /** One "claims 1, 3 or 5 to 7": a first number, then separators with numbers. */
  datatype ReferenceMatch = ReferenceMatch(first: nat, rest: seq<(Separator, nat)>)

  /** What scanning the wording of one claim finds. */
  datatype Scan = Scan(matches: seq<ReferenceMatch>, allPreceding: bool, mentionsClaim: bool)

  datatype Warning =
    | RefersToAllPreceding
    | NothingParsed
    | LaterOrOwn(bad: seq<int>)

  function Listed(m: ReferenceMatch): set<int> {
    {m.first} + set pair | pair in m.rest :: pair.1
  }

  /** The "a to b" pairs, left to right; a number closing one pair does not open the next. */
  function RangePairs(first: nat, rest: seq<(Separator, nat)>): seq<(nat, nat)>
    decreases |rest|
  {
    if rest == [] then []
    else if rest[0].0 == ToWord || rest[0].0 == Dash then
      [(first, rest[0].1)] + (if |rest| == 1 then [] else RangePairs(rest[1].1, rest[2..]))
    else RangePairs(rest[0].1, rest[1..])
  }

  /** Claim `x` is named by the match, by number or inside a range. */
  ghost predicate Names(m: ReferenceMatch, x: int) {
    x in Listed(m) || exists pair :: pair in RangePairs(m.first, m.rest) && pair.0 <= x <= pair.1
  }

  ghost predicate NamedIn(scan: Scan, own: int, x: int) {
    || (exists m :: m in scan.matches && Names(m, x))
    || (scan.allPreceding && 1 <= x < own)
  }

  method CollectMatch(m: ReferenceMatch, before: set<int>) returns (refs: set<int>)
    ensures forall x :: x in refs <==> x in before || Names(m, x)
  {
    refs := before;
    var pairs := RangePairs(m.first, m.rest);
    for i := 0 to |pairs|
      invariant forall x :: x in refs <==> x in before || exists k :: 0 <= k < i && pairs[k].0 <= x <= pairs[k].1
    {
      refs := refs + Elements(Range(pairs[i].0, pairs[i].1 + 1));
    }
    refs := refs + Listed(m);
  }

  ghost predicate NamesAny(scan: Scan, own: int) {
    exists x :: NamedIn(scan, own, x)
  }

  method CollectReferences(scan: Scan, own: int) returns (named: set<int>)
    ensures forall x :: x in named <==> NamedIn(scan, own, x)
    ensures named != {} <==> NamesAny(scan, own)
  {
    named := {};
    for i := 0 to |scan.matches|
      invariant forall x :: x in named <==> exists m :: m in scan.matches[..i] && Names(m, x)
    {
      ghost var before := scan.matches[..i];
      named := CollectMatch(scan.matches[i], named);
      assert scan.matches[..i + 1] == before + [scan.matches[i]];
    }
    assert scan.matches[..|scan.matches|] == scan.matches;
    if scan.allPreceding {
      named := named + Elements(Range(1, own));
    }
    if named != {} {
      ghost var x := SomeElement(named);
    }
  }

  /** The claims above `own` among the references, which the parser keeps but warns about. */
  function Later(refs: seq<int>, own: int): seq<int> {
    Sorted(set x | x in refs && x > own)
  }

  function Warnings(allPreceding: bool, nothingParsed: bool, bad: seq<int>): seq<Warning> {
    (if allPreceding then [RefersToAllPreceding] else [])
    + (if nothingParsed then [NothingParsed] else [])
    + (if bad != [] then [LaterOrOwn(bad)] else [])
  }

  method FindReferences(scan: Scan, own: int) returns (refs: seq<int>, warnings: seq<Warning>)
    ensures StrictlySorted(refs)
    ensures forall x :: x in refs <==> x != own && NamedIn(scan, own, x)
    ensures warnings == Warnings(scan.allPreceding, scan.mentionsClaim && !NamesAny(scan, own), Later(refs, own))
  {
    var named := CollectReferences(scan, own);
    var nothingParsed := scan.mentionsClaim && named == {};
    named := named - {own};
    refs := Sorted(named);
    var late := set r | r in named && r >= own;
    assert late == set x | x in refs && x > own;
    warnings := Warnings(scan.allPreceding, nothingParsed, Sorted(late));
  }

  // ----- feature spans

  predicate IsConjunction(s: string) {
    || (|s| == 3 && LowerChar(s[0]) == 'a' && LowerChar(s[1]) == 'n' && LowerChar(s[2]) == 'd')
    || (|s| == 2 && LowerChar(s[0]) == 'o' && LowerChar(s[1]) == 'r')
  }

  predicate BareConjunction(text: string, span: Span) {
    span.start <= span.end <= |text| && IsConjunction(text[span.start..span.end])
  }

  /** Up to the cut at `c`, the span holds nothing but a bare conjunction. */
  ghost predicate ConjunctionBefore(text: string, start: nat, c: nat) {
    start < c <= |text| && Trim(text, start, c).Some? && BareConjunction(text, Trim(text, start, c).value)
  }

  /** A cut inside a span only ever separates a leading conjunction from the feature it introduces. */
  ghost predicate BridgesOnlyConjunctions(text: string, cuts: seq<int>, span: Span) {
    forall c :: c in cuts && span.start < c < span.end ==> ConjunctionBefore(text, span.start, c)
  }

  ghost predicate OpensWithConjunction(text: string, cuts: seq<int>, span: Span) {
    exists c :: c in cuts && c >= 0 && ConjunctionBefore(text, span.start, c)
  }

  /** How the spans relate to the cuts: which ones were folded, and which conjunctions stayed bare. */
  ghost predicate Honours(text: string, cuts: seq<int>, spans: seq<Span>) {
    && (forall k :: 0 <= k < |spans| ==> BridgesOnlyConjunctions(text, cuts, spans[k]))
    && (forall k :: 0 <= k < |spans| - 1 && BareConjunction(text, spans[k]) ==>
          OpensWithConjunction(text, cuts, spans[k + 1]))
  }

  /** `a` and `b` are neighbouring cuts. */
  ghost predicate Neighbours(cuts: seq<int>, a: nat, b: nat) {
    b in cuts && a < b && forall c :: c in cuts ==> c <= a || b <= c
  }

  /** Appending a piece that is not folded. */
  lemma HonoursAppend(text: string, cuts: seq<int>, a: nat, b: nat, spans: seq<Span>, piece: Span)
    requires b <= |text| && Neighbours(cuts, a, b) && Honours(text, cuts, spans)
    requires Trim(text, a, b) == Some(piece)
    requires spans == [] || !BareConjunction(text, spans[|spans| - 1]) || BareConjunction(text, piece)
    ensures Honours(text, cuts, spans + [piece])
  {
    if BareConjunction(text, piece) {
      BareOpens(text, cuts, a, b, piece);
    }
    assert BridgesOnlyConjunctions(text, cuts, piece);
    HonoursOneMore(text, cuts, spans, piece);
  }

  lemma HonoursOneMore(text: string, cuts: seq<int>, spans: seq<Span>, piece: Span)
    requires Honours(text, cuts, spans) && BridgesOnlyConjunctions(text, cuts, piece)
    requires spans == [] || !BareConjunction(text, spans[|spans| - 1]) || OpensWithConjunction(text, cuts, piece)
    ensures Honours(text, cuts, spans + [piece])
  {
  }

  lemma BareOpens(text: string, cuts: seq<int>, a: nat, b: nat, piece: Span)
    requires b <= |text| && Neighbours(cuts, a, b)
    requires Trim(text, a, b) == Some(piece) && BareConjunction(text, piece)
    ensures OpensWithConjunction(text, cuts, piece)
  {
    TrimIsUnique(text, piece.start, b, piece);
    assert ConjunctionBefore(text, piece.start, b);
  }

  lemma PrefixIsNoConjunction(text: string, span: Span, c: int)
    requires span.end <= |text| && Tight(text, span) && BareConjunction(text, span)
    requires span.start < c < span.end
    ensures !ConjunctionBefore(text, span.start, c)
  {
    var whole := text[span.start..span.end];
    if Trim(text, span.start, c).Some? {
      var inner := Trim(text, span.start, c).value;
      assert inner.start == span.start;
      var prefix := text[inner.start..inner.end];
      assert prefix == whole[..|prefix|] && |prefix| < |whole|;
    }
  }

  /** Folding the pending conjunction into the piece that follows it. */
  lemma HonoursFold(text: string, cuts: seq<int>, lo: nat, a: nat, b: nat, spans: seq<Span>, piece: Span)
    requires lo <= a && b <= |text| && Neighbours(cuts, a, b)
    requires Tiles(text, lo, a, spans) && Honours(text, cuts, spans)
    requires Trim(text, a, b) == Some(piece)
    requires spans != [] && BareConjunction(text, spans[|spans| - 1])
    ensures Honours(text, cuts, spans[..|spans| - 1] + [Span(spans[|spans| - 1].start, piece.end)])
  {
    var n := |spans| - 1;
    var last, folded := spans[n], Span(spans[n].start, piece.end);
    assert Tight(text, last) && BridgesOnlyConjunctions(text, cuts, last);
    forall c | c in cuts && folded.start < c < folded.end
      ensures ConjunctionBefore(text, folded.start, c)
    {
      if c < last.end {
        PrefixIsNoConjunction(text, last, c);
      }
      TrimIsUnique(text, last.start, c, last);
    }
    assert BridgesOnlyConjunctions(text, cuts, folded);
    if n > 0 && BareConjunction(text, spans[n - 1]) {
      assert OpensWithConjunction(text, cuts, spans[n]);
      assert OpensWithConjunction(text, cuts, folded);
    }
  }

  /** One piece: skipped when blank, kept apart as a conjunction, folded into a pending one, or appended. */
  method AddPiece(text: string, bodyStart: nat, bounds: seq<int>, start: nat, end: nat, earlier: seq<Span>)
    returns (spans: seq<Span>)
    requires bodyStart <= start && end <= |text| && Neighbours(bounds, start, end)
    requires Tiles(text, bodyStart, start, earlier) && Honours(text, bounds, earlier)
    ensures Tiles(text, bodyStart, end, spans) && Honours(text, bounds, spans)
  {
    spans := earlier;
    var piece := Trim(text, start, end);
    if piece.None? {
      TilesSkip(text, bodyStart, start, end, spans);
    } else if BareConjunction(text, piece.value) {
      TilesAppend(text, bodyStart, start, end, spans, piece.value);
      HonoursAppend(text, bounds, start, end, spans, piece.value);
      spans := spans + [piece.value];
    } else if spans != [] && BareConjunction(text, spans[|spans| - 1]) {
      TilesExtendLast(text, bodyStart, start, end, spans, piece.value);
      HonoursFold(text, bounds, bodyStart, start, end, spans, piece.value);
      spans := spans[..|spans| - 1] + [Span(spans[|spans| - 1].start, piece.value.end)];
    } else {
      TilesAppend(text, bodyStart, start, end, spans, piece.value);
      HonoursAppend(text, bounds, start, end, spans, piece.value);
      spans := spans + [piece.value];
    }
  }

  ghost predicate AreBounds(bounds: seq<int>, first: nat, last: nat) {
    && bounds != [] && bounds[0] == first && bounds[|bounds| - 1] == last
    && forall i :: 0 <= i < |bounds| - 1 ==> IsStep(bounds, first, i)
  }

  ghost predicate IsStep(bounds: seq<int>, first: nat, i: nat)
    requires i + 1 < |bounds|
  {
    first <= bounds[i] && 0 <= bounds[i + 1] && Neighbours(bounds, bounds[i], bounds[i + 1])
  }

  lemma SortedAreBounds(first: nat, last: nat, breaks: set<int>)
    requires first <= last && forall c :: c in breaks ==> first <= c <= last
    ensures AreBounds(Sorted({first, last} + breaks), first, last)
  {
    var bounds := Sorted({first, last} + breaks);
    assert first in bounds && last in bounds;
    assert bounds[0] in bounds && bounds[|bounds| - 1] in bounds;
    forall i | 0 <= i < |bounds| - 1
      ensures IsStep(bounds, first, i)
    {
      SortedStep(bounds, first, i);
    }
  }

  lemma SortedStep(bounds: seq<int>, first: nat, i: nat)
    requires StrictlySorted(bounds) && i + 1 < |bounds| && bounds[0] == first
    ensures IsStep(bounds, first, i)
  {
    forall c | c in bounds
      ensures c <= bounds[i] || bounds[i + 1] <= c
    {
      var k :| 0 <= k < |bounds| && bounds[k] == c;
    }
  }

  method SplitSpans(text: string, bodyStart: nat, breaks: set<int>) returns (spans: seq<Span>)
    requires bodyStart <= |text| && forall c :: c in breaks ==> bodyStart <= c <= |text|
    ensures Tiles(text, bodyStart, |text|, spans)
    ensures Honours(text, Sorted({bodyStart, |text|} + breaks), spans)
  {
    var bounds := Sorted({bodyStart, |text|} + breaks);
    SortedAreBounds(bodyStart, |text|, breaks);
    spans := SplitAtBounds(text, bodyStart, bounds);
  }

  method SplitAtBounds(text: string, bodyStart: nat, bounds: seq<int>) returns (spans: seq<Span>)
    requires bodyStart <= |text| && AreBounds(bounds, bodyStart, |text|)
    requires forall c :: c in bounds ==> c <= |text|
    ensures Tiles(text, bodyStart, |text|, spans)
    ensures Honours(text, bounds, spans)
  {
    spans := [];
    for i := 0 to |bounds| - 1
      invariant bodyStart <= bounds[i] <= |text|
      invariant Tiles(text, bodyStart, bounds[i], spans) && Honours(text, bounds, spans)
    {
      assert IsStep(bounds, bodyStart, i);
      spans := AddPiece(text, bodyStart, bounds, bounds[i], bounds[i + 1], spans);
    }
  }

  /** One proposed feature per span, numbered from 0, its text the slice the span marks. */
  ghost predicate FeaturesFrom(number: nat, text: string, spans: seq<Span>, features: seq<ClaimFeature>) {
    && |features| == |spans|
    && forall k :: 0 <= k < |features| ==>
         && spans[k].start <= spans[k].end <= |text|
         && features[k] == ClaimFeature(Decimal(number) + "." + Decimal(k), number,
                                        text[spans[k].start..spans[k].end], [spans[k]], Proposed)
  }

  ghost predicate Featured(number: nat, text: string, bodyStart: nat, breaks: set<int>, features: seq<ClaimFeature>)
    requires bodyStart <= |text|
  {
    exists spans ::
      && FeaturesFrom(number, text, spans, features)
      && Tiles(text, bodyStart, |text|, spans)
      && Honours(text, Sorted({bodyStart, |text|} + breaks), spans)
  }

  method BuildFeatures(number: nat, text: string, spans: seq<Span>) returns (features: seq<ClaimFeature>)
    requires forall k :: 0 <= k < |spans| ==> spans[k].start <= spans[k].end <= |text|
    ensures FeaturesFrom(number, text, spans, features)
  {
    features := [];
    for k := 0 to |spans|
      invariant FeaturesFrom(number, text, spans[..k], features)
    {
      var slice := text[spans[k].start..spans[k].end];
      features := features + [ClaimFeature(Decimal(number) + "." + Decimal(k), number, slice, [spans[k]], Proposed)];
    }
    assert spans[..|spans|] == spans;
  }

  method SplitFeatures(number: nat, text: string, bodyStart: nat, breaks: set<int>)
    returns (features: seq<ClaimFeature>)
    requires bodyStart <= |text| && forall c :: c in breaks ==> bodyStart <= c <= |text|
    ensures Featured(number, text, bodyStart, breaks, features)
  {
    var spans := SplitSpans(text, bodyStart, breaks);
    forall k | 0 <= k < |spans|
      ensures spans[k].start <= spans[k].end <= |text|
    {
      TileIsTight(text, bodyStart, |text|, spans, k);
    }
    features := BuildFeatures(number, text, spans);
  }

  // ----- paragraphs to claims

  /** What the regular expressions find, as functions of the text they are given. */
  datatype Lexer = Lexer(
    claimNumber: string -> Option<nat>,
    bodyStart: string -> nat,
    references: string -> Scan,
    breaks: (string, nat) -> set<int>)

  ghost predicate WellBehaved(lexer: Lexer) {
    && (forall text :: lexer.bodyStart(text) <= |text|)
    && (forall text, start: nat, c :: c in lexer.breaks(text, start) ==> start <= c <= |text|)
  }

  /** The paragraphs of one claim; the first one carries the number. */
  datatype Group = Group(number: nat, parts: seq<string>)

  function Flatten(groups: seq<Group>): seq<string> {
    if groups == [] then [] else Flatten(groups[..|groups| - 1]) + groups[|groups| - 1].parts
  }

  /** The first paragraph opens the claim, the others continue it. */
  ghost predicate OneClaim(lexer: Lexer, group: Group) {
    && group.parts != [] && lexer.claimNumber(group.parts[0]) == Some(group.number)
    && forall i :: 1 <= i < |group.parts| ==> lexer.claimNumber(group.parts[i]) == None
  }

  /** Every paragraph is either before the first claim or in exactly one group, in order. */
  ghost predicate Grouped(lexer: Lexer, paragraphs: seq<string>, orphans: nat, groups: seq<Group>) {
    && orphans <= |paragraphs|
    && (forall i :: 0 <= i < orphans ==> lexer.claimNumber(paragraphs[i]) == None)
    && Flatten(groups) == paragraphs[orphans..]
    && forall g :: g in groups ==> OneClaim(lexer, g)
  }

  lemma FlattenAppend(groups: seq<Group>, last: Group)
    ensures Flatten(groups + [last]) == Flatten(groups) + last.parts
  {
    assert (groups + [last])[..|groups|] == groups;
  }

  lemma GroupStarts(lexer: Lexer, done: seq<string>, orphans: nat, groups: seq<Group>, paragraph: string, number: nat)
    requires Grouped(lexer, done, orphans, groups) && lexer.claimNumber(paragraph) == Some(number)
    ensures Grouped(lexer, done + [paragraph], orphans, groups + [Group(number, [paragraph])])
  {
    FlattenAppend(groups, Group(number, [paragraph]));
    assert (done + [paragraph])[orphans..] == done[orphans..] + [paragraph];
  }

  lemma GroupContinues(lexer: Lexer, done: seq<string>, orphans: nat, groups: seq<Group>, paragraph: string)
    requires Grouped(lexer, done, orphans, groups) && groups != [] && lexer.claimNumber(paragraph) == None
    ensures var front, last := groups[..|groups| - 1], groups[|groups| - 1];
            Grouped(lexer, done + [paragraph], orphans, front + [last.(parts := last.parts + [paragraph])])
  {
    var front, last := groups[..|groups| - 1], groups[|groups| - 1];
    var extended := last.(parts := last.parts + [paragraph]);
    assert OneClaim(lexer, last);
    assert groups == front + [last];
    FlattenAppend(front, last);
    FlattenAppend(front, extended);
    ConcatAssociates(Flatten(front), last.parts, [paragraph]);
    assert (done + [paragraph])[orphans..] == done[orphans..] + [paragraph];
  }

  method GroupParagraphs(paragraphs: seq<string>, lexer: Lexer) returns (orphans: nat, groups: seq<Group>)
    ensures Grouped(lexer, paragraphs, orphans, groups)
  {
    orphans, groups := 0, [];
    ghost var done: seq<string> := [];
    for i := 0 to |paragraphs|
      invariant done == paragraphs[..i] && Grouped(lexer, done, orphans, groups)
      invariant groups == [] ==> orphans == i
    {
      TakeOneMore(paragraphs, i);
      var paragraph := paragraphs[i];
      var number := lexer.claimNumber(paragraph);
      if number.Some? {
        GroupStarts(lexer, done, orphans, groups, paragraph, number.value);
        groups := groups + [Group(number.value, [paragraph])];
      } else if groups != [] {
        GroupContinues(lexer, done, orphans, groups, paragraph);
        var last := groups[|groups| - 1];
        groups := groups[..|groups| - 1] + [last.(parts := last.parts + [paragraph])];
      } else {
        orphans := orphans + 1;
      }
      done := done + [paragraph];
    }
    assert done == paragraphs;
  }

  datatype ParsedClaim = ParsedClaim(claim: Claim, warnings: seq<Warning>)

  /** A claim as parsed from its group: joined text, references, warnings and features. */
  ghost predicate ParsedFrom(lexer: Lexer, group: Group, parsed: ParsedClaim)
    requires WellBehaved(lexer)
  {
    var text := Join(group.parts, "\n");
    var start := lexer.bodyStart(text);
    var scan, claim := lexer.references(text[start..]), parsed.claim;
    && claim.number == group.number && claim.text == text
    && StrictlySorted(claim.dependsOn)
    && (forall x :: x in claim.dependsOn <==> x != claim.number && NamedIn(scan, claim.number, x))
    && parsed.warnings == Warnings(scan.allPreceding, scan.mentionsClaim && !NamesAny(scan, claim.number),
                                   Later(claim.dependsOn, claim.number))
    && Featured(group.number, text, start, lexer.breaks(text, start), claim.features)
  }

  method ParseClaim(group: Group, lexer: Lexer) returns (parsed: ParsedClaim)
    requires WellBehaved(lexer)
    ensures ParsedFrom(lexer, group, parsed)
  {
    var text := Join(group.parts, "\n");
    var start := lexer.bodyStart(text);
    var refs, warnings := FindReferences(lexer.references(text[start..]), group.number);
    var features := SplitFeatures(group.number, text, start, lexer.breaks(text, start));
    parsed := ParsedClaim(Claim(group.number, text, refs, features), warnings);
  }

  datatype ParsedSet = ParsedSet(claims: seq<ParsedClaim>, orphans: nat, consecutive: bool)

  predicate NumberedFromOne(claims: seq<ParsedClaim>) {
    forall i :: 0 <= i < |claims| ==> claims[i].claim.number == i + 1
  }

  ghost predicate AllParsed(lexer: Lexer, groups: seq<Group>, claims: seq<ParsedClaim>)
    requires WellBehaved(lexer)
  {
    |claims| == |groups| && forall i :: 0 <= i < |groups| ==> ParsedFrom(lexer, groups[i], claims[i])
  }

  lemma ParsedOneMore(lexer: Lexer, groups: seq<Group>, claims: seq<ParsedClaim>, group: Group, parsed: ParsedClaim)
    requires WellBehaved(lexer) && AllParsed(lexer, groups, claims) && ParsedFrom(lexer, group, parsed)
    ensures AllParsed(lexer, groups + [group], claims + [parsed])
  {
    var groups', claims' := groups + [group], claims + [parsed];
    forall i | 0 <= i < |groups'|
      ensures ParsedFrom(lexer, groups'[i], claims'[i])
    {
      if i < |groups| {
        assert groups'[i] == groups[i] && claims'[i] == claims[i];
      }
    }
  }

  method ParseGroups(groups: seq<Group>, lexer: Lexer) returns (claims: seq<ParsedClaim>)
    requires WellBehaved(lexer)
    ensures AllParsed(lexer, groups, claims)
  {
    claims := [];
    ghost var done: seq<Group> := [];
    for i := 0 to |groups|
      invariant done == groups[..i] && AllParsed(lexer, done, claims)
    {
      var parsed := ParseClaim(groups[i], lexer);
      ParsedOneMore(lexer, done, claims, groups[i], parsed);
      TakeOneMore(groups, i);
      done, claims := done + [groups[i]], claims + [parsed];
    }
  }

  /** None where the original raises ValueError: there are no claim paragraphs at all. */
  method ParseEpClaims(paragraphs: seq<string>, lexer: Lexer) returns (r: Option<ParsedSet>)
    requires WellBehaved(lexer)
    ensures r.None? <==> paragraphs == []
    ensures r.Some? ==> r.value.consecutive == NumberedFromOne(r.value.claims)
    ensures r.Some? ==> exists groups ::
              Grouped(lexer, paragraphs, r.value.orphans, groups) && AllParsed(lexer, groups, r.value.claims)
  {
    if paragraphs == [] {
      return None;
    }
    var orphans, groups := GroupParagraphs(paragraphs, lexer);
    var claims := ParseGroups(groups, lexer);
    return Some(ParsedSet(claims, orphans, NumberedFromOne(claims)));
  }

  // ----- what a clean parse guarantees

  function ClaimsOf(parsed: seq<ParsedClaim>): ClaimSet {
    ClaimSet(seq(|parsed|, i requires 0 <= i < |parsed| => parsed[i].claim))
  }

  /** No "later or own" warning. */
  ghost predicate NoLaterWarning(parsed: ParsedClaim) {
    forall bad :: LaterOrOwn(bad) !in parsed.warnings
  }

  lemma LaterIsEmpty(refs: seq<int>, own: int)
    ensures Later(refs, own) == [] <==> forall x :: x in refs ==> x <= own
  {
    var later := Later(refs, own);
    if later != [] {
      assert later[0] in later;
    }
    assert forall x :: x in later <==> x in refs && x > own;
  }

  lemma LaterAreWarnedOf(allPreceding: bool, nothingParsed: bool, bad: seq<int>)
    ensures bad != [] <==> exists b :: LaterOrOwn(b) in Warnings(allPreceding, nothingParsed, bad)
  {
    if bad != [] {
      assert LaterOrOwn(bad) in Warnings(allPreceding, nothingParsed, bad);
    }
  }

  lemma WarnsExactlyOfLater(lexer: Lexer, group: Group, parsed: ParsedClaim)
    requires WellBehaved(lexer) && ParsedFrom(lexer, group, parsed)
    ensures NoLaterWarning(parsed) <==> forall x :: x in parsed.claim.dependsOn ==> x < parsed.claim.number
  {
    var text := Join(group.parts, "\n");
    var scan := lexer.references(text[lexer.bodyStart(text)..]);
    var refs, own := parsed.claim.dependsOn, parsed.claim.number;
    LaterIsEmpty(refs, own);
    LaterAreWarnedOf(scan.allPreceding, scan.mentionsClaim && !NamesAny(scan, own), Later(refs, own));
  }

  ghost predicate RefersToZero(parsed: ParsedClaim) {
    0 in parsed.claim.dependsOn
  }

  ghost predicate RefersToEarlierOnly(claim: Claim) {
    forall x :: x in claim.dependsOn ==> 1 <= x < claim.number
  }

  lemma NamedAreNatural(scan: Scan, own: int, x: int)
    requires NamedIn(scan, own, x)
    ensures x >= 0
  {
  }

  lemma ReferencesAreNatural(lexer: Lexer, group: Group, parsed: ParsedClaim)
    requires WellBehaved(lexer) && ParsedFrom(lexer, group, parsed)
    ensures forall x :: x in parsed.claim.dependsOn ==> x >= 0
  {
    var text := Join(group.parts, "\n");
    var scan := lexer.references(text[lexer.bodyStart(text)..]);
    forall x | x in parsed.claim.dependsOn
      ensures x >= 0
    {
      assert NamedIn(scan, parsed.claim.number, x);
      NamedAreNatural(scan, parsed.claim.number, x);
    }
  }

  lemma EarlierOnlyMeans(claim: Claim, unwarned: bool)
    requires forall x :: x in claim.dependsOn ==> x >= 0
    requires unwarned <==> forall x :: x in claim.dependsOn ==> x < claim.number
    ensures RefersToEarlierOnly(claim) <==> unwarned && 0 !in claim.dependsOn
  {
  }

  /** Without a "later or own" warning a claim refers to earlier claims only, unless it refers to a claim 0. */
  lemma NoWarningMeansEarlier(lexer: Lexer, group: Group, parsed: ParsedClaim)
    requires WellBehaved(lexer) && ParsedFrom(lexer, group, parsed)
    ensures RefersToEarlierOnly(parsed.claim) <==> NoLaterWarning(parsed) && !RefersToZero(parsed)
  {
    WarnsExactlyOfLater(lexer, group, parsed);
    ReferencesAreNatural(lexer, group, parsed);
    EarlierOnlyMeans(parsed.claim, NoLaterWarning(parsed));
  }

  lemma EarlierOnlyIsAcyclic(cs: ClaimSet)
    requires forall i :: 0 <= i < |cs.claims| ==> cs.claims[i].number == i + 1 && RefersToEarlierOnly(cs.claims[i])
    ensures Closed(cs) && Acyclic(cs)
  {
    var level: map<int, nat> := map n | n in Numbers(cs) :: if n >= 0 then n else 0;
    forall n | n in Numbers(cs)
      ensures forall p :: p in References(cs, n) ==> p in Numbers(cs) && 0 <= p < n
    {
      var claim := cs.Find(n).value;
      forall p | p in claim.dependsOn
        ensures p in Numbers(cs) && 0 <= p < n
      {
        assert cs.claims[p - 1] in cs.claims && cs.claims[p - 1].number == p;
      }
    }
    LevelsMakeAcyclic(cs, level);
  }

  lemma EarlierClaimsAreAcyclic(claims: seq<ParsedClaim>)
    requires NumberedFromOne(claims)
    requires forall i :: 0 <= i < |claims| ==> RefersToEarlierOnly(claims[i].claim)
    ensures Closed(ClaimsOf(claims)) && Acyclic(ClaimsOf(claims))
  {
    EarlierOnlyIsAcyclic(ClaimsOf(claims));
  }

  lemma {:induction false} FindConsecutive(claims: seq<Claim>, first: int, i: nat)
    requires i < |claims| && forall k :: 0 <= k < |claims| ==> claims[k].number == first + k
    ensures FindIn(claims, first + i) == Some(claims[i])
  {
    if i > 0 {
      FindConsecutive(claims[1..], first + 1, i - 1);
    }
  }

  lemma UnwarnedRefersToEarlier(lexer: Lexer, groups: seq<Group>, claims: seq<ParsedClaim>, i: nat)
    requires WellBehaved(lexer) && AllParsed(lexer, groups, claims) && i < |claims|
    ensures RefersToEarlierOnly(claims[i].claim) <==> NoLaterWarning(claims[i]) && !RefersToZero(claims[i])
  {
    NoWarningMeansEarlier(lexer, groups[i], claims[i]);
  }

  /** The number 0 is no claim, so a closed set does not refer to it. */
  lemma ClosedLacksZero(claims: seq<ParsedClaim>, i: nat)
    requires NumberedFromOne(claims) && Closed(ClaimsOf(claims)) && i < |claims|
    ensures !RefersToZero(claims[i])
  {
    var cs := ClaimsOf(claims);
    FindConsecutive(cs.claims, 1, i);
    assert cs.claims[i] in cs.claims;
    assert i + 1 in Numbers(cs) && References(cs, i + 1) == claims[i].claim.dependsOn;
    assert 0 !in Numbers(cs);
  }

  /**
   * With consecutive numbers and no "later or own" warning the claim set is closed and has no circular
   * references if and only if no claim refers to a claim 0.
   */
  lemma UnwarnedParseIsAcyclicExactly(lexer: Lexer, groups: seq<Group>, claims: seq<ParsedClaim>)
    requires WellBehaved(lexer) && AllParsed(lexer, groups, claims) && NumberedFromOne(claims)
    requires forall i :: 0 <= i < |claims| ==> NoLaterWarning(claims[i])
    ensures Closed(ClaimsOf(claims)) && Acyclic(ClaimsOf(claims)) <==>
            forall i :: 0 <= i < |claims| ==> !RefersToZero(claims[i])
  {
    if forall i :: 0 <= i < |claims| ==> !RefersToZero(claims[i]) {
      forall i | 0 <= i < |claims|
        ensures RefersToEarlierOnly(claims[i].claim)
      {
        UnwarnedRefersToEarlier(lexer, groups, claims, i);
      }
      EarlierClaimsAreAcyclic(claims);
    }
    if Closed(ClaimsOf(claims)) {
      forall i | 0 <= i < |claims|
        ensures !RefersToZero(claims[i])
      {
        ClosedLacksZero(claims, i);
      }
    }
  }

  /** So every conclusion drawn from such a claim set is exact. */
  lemma UnwarnedParseConcludesExactly(
      lexer: Lexer, groups: seq<Group>, claims: seq<ParsedClaim>, a: ClaimCharts.Assessments, n: int)
    requires WellBehaved(lexer) && AllParsed(lexer, groups, claims) && NumberedFromOne(claims)
    requires forall i :: 0 <= i < |claims| ==> NoLaterWarning(claims[i]) && !RefersToZero(claims[i])
    requires n in Numbers(ClaimsOf(claims))
    ensures ClaimTheorems.IsExact(ClaimsOf(claims), a, n)
  {
    UnwarnedParseIsAcyclicExactly(lexer, groups, claims);
    ClosedIsComplete(ClaimsOf(claims), n);
    AcyclicHasNoCircle(ClaimsOf(claims), n);
    ClaimTheorems.ConclusionIsExact(ClaimsOf(claims), a, n);
  }

  /** "Claim 0" is kept without a later-claim warning, so positivity has to be asked for separately. */
  lemma ClaimZeroIsKept(own: nat)
    requires own >= 1
    ensures var scan := Scan([ReferenceMatch(0, [])], false, true);
            && (forall x :: x != own && NamedIn(scan, own, x) <==> x == 0)
            && NamesAny(scan, own)
            && Warnings(scan.allPreceding, scan.mentionsClaim && !NamesAny(scan, own), Later([0], own)) == []
  {
    var m := ReferenceMatch(0, []);
    var scan := Scan([m], false, true);
    assert forall x :: Names(m, x) <==> x == 0;
    assert m in scan.matches;
    assert NamedIn(scan, own, 0);
    assert (set x | x in [0] && x > own) == {};
  }
}
