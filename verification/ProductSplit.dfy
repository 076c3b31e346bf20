/**
 * Splitting a product description into candidate features (modules/fto/product.py). The list-marker pattern and the
 * class of word characters are parameters; lines, clause ends and abbreviations are scanned here.
 */
module ProductSplit {
  import opened Basics
  import opened ClaimTree
  import opened Trimming

  datatype ProductFeature = ProductFeature(id: string, text: string, spans: seq<Span>)

  /** Where the content of the line [a, b) starts after its list marker, and which characters count as words. */
  datatype Lexer = Lexer(contentStart: (string, nat, nat) -> nat, isWord: char -> bool)

  ghost predicate WellBehaved(lexer: Lexer) {
    && (forall text, a: nat, b: nat :: a <= b <= |text| ==> a <= lexer.contentStart(text, a, b) <= b)
    && (forall c :: IsSpace(c) ==> !lexer.isWord(c))
  }

  // ----- Lines -----

  /** The characters at which `str.splitlines` ends a line. */
  predicate IsBreak(c: char) {
    '\n' <= c <= '\r' || '\U{1C}' <= c <= '\U{1E}' || c == '\U{85}' || c == '\U{2028}' || c == '\U{2029}'
  }

  /** A line ends before position `e`; a carriage return and its newline stay together. */
  predicate LineEndsAt(text: string, e: nat)
    requires 0 < e <= |text|
  {
    e == |text| || (IsBreak(text[e - 1]) && !(text[e - 1] == '\r' && text[e] == '\n'))
  }

  function LineEnd(text: string, p: nat): (e: nat)
    requires p < |text|
    ensures p < e <= |text| && LineEndsAt(text, e)
    ensures forall k :: p < k < e ==> !LineEndsAt(text, k)
    decreases |text| - p
  {
    if LineEndsAt(text, p + 1) then p + 1 else LineEnd(text, p + 1)
  }

  function LineStart(text: string, p: nat): (s: nat)
    requires p < |text|
    ensures s <= p
  {
    if p == 0 || LineEndsAt(text, p) then p else LineStart(text, p - 1)
  }

  lemma {:induction false} OneLineStart(text: string, start: nat, p: nat)
    requires start <= p < |text| && (start == 0 || LineEndsAt(text, start))
    requires p < LineEnd(text, start)
    ensures LineStart(text, p) == start
    decreases p
  {
    if start < p {
      OneLineStart(text, start, p - 1);
    }
  }

  /** Whether the position belongs to the list marker of its line. */
  predicate InMarker(text: string, lexer: Lexer, p: nat)
    requires p < |text|
  {
    var start := LineStart(text, p);
    p < lexer.contentStart(text, start, LineEnd(text, start))
  }

  // ----- Cuts -----

  predicate IsHardEnd(c: char) {
    c in ['。', '；', ';', '！', '？', '!', '?']
  }

  predicate OpensSentence(c: char) {
    'A' <= c <= 'Z' || '一' <= c <= '鿿'
  }

  predicate IsEnglishEnd(text: string, p: nat, end: nat)
    requires p < end <= |text|
  {
    var q := SkipBlanks(text, p + 1, end);
    text[p] == '.' && p + 1 < q < end && OpensSentence(text[q])
  }

  const ABBREVIATIONS := ["e.g.", "i.e.", "etc.", "fig.", "no.", "approx.", "vs.", "mr.", "dr."]

  predicate EndsWith(s: string, tail: string) {
    |tail| <= |s| && s[|s| - |tail|..] == tail
  }

  predicate IsAbbreviation(text: string, dot: nat)
    requires dot < |text|
  {
    var window := Lower(text[if dot < 7 then 0 else dot - 7..dot + 1]);
    exists i :: 0 <= i < |ABBREVIATIONS| && EndsWith(window, ABBREVIATIONS[i])
  }

  predicate IsSentenceEnd(text: string, p: nat, end: nat)
    requires p < end <= |text|
  {
    IsEnglishEnd(text, p, end) && !IsAbbreviation(text, p)
  }

  /** A clause or sentence ends with the character at `p`, as seen from a line that ends at `end`. */
  predicate IsCut(text: string, p: nat, end: nat)
    requires p < end <= |text|
  {
    IsHardEnd(text[p]) || IsSentenceEnd(text, p, end)
  }

  predicate HardEndBefore(text: string, c: int) {
    0 < c <= |text| && IsHardEnd(text[c - 1])
  }

  predicate SentenceEndBefore(text: string, c: int, end: nat) {
    0 < c <= end <= |text| && IsSentenceEnd(text, c - 1, end)
  }

  /** The positions right after the clause and sentence ends of [start, end). */
  function CutsIn(text: string, start: nat, end: nat): (cuts: set<int>)
    requires end <= |text|
    ensures forall p :: start <= p < end ==> (p + 1 in cuts <==> IsCut(text, p, end))
  {
    (set c: int | start < c <= end && HardEndBefore(text, c))
    + (set c: int | start < c <= end && SentenceEndBefore(text, c, end))
  }

  method CutPoints(text: string, start: nat, end: nat) returns (cuts: seq<int>)
    requires start <= end <= |text|
    ensures cuts == Sorted(CutsIn(text, start, end))
  {
    var hard: set<int> := {};
    for p := start to end
      invariant hard == set c: int | start < c <= p && HardEndBefore(text, c)
    {
      if IsHardEnd(text[p]) {
        assert HardEndBefore(text, p + 1);
        hard := hard + {p + 1};
      }
    }
    var soft: set<int> := {};
    for p := start to end
      invariant soft == set c: int | start < c <= p && SentenceEndBefore(text, c, end)
    {
      if IsEnglishEnd(text, p, end) && !IsAbbreviation(text, p) {
        assert SentenceEndBefore(text, p + 1, end);
        soft := soft + {p + 1};
      }
    }
    cuts := Sorted(hard + soft);
  }

  // ----- What the spans leave out -----

  /** No word character is here, apart from those of list markers. */
  ghost predicate Wordless(text: string, lexer: Lexer, a: nat, b: nat)
    requires b <= |text|
  {
    forall p :: a <= p < b && lexer.isWord(text[p]) ==> InMarker(text, lexer, p)
  }

  /** Up to `hi`, the spans are in order and leave only wordless stretches between them. */
  ghost predicate Covers(text: string, lexer: Lexer, hi: nat, spans: seq<Span>)
    requires hi <= |text|
    decreases |spans|
  {
    if spans == [] then Wordless(text, lexer, 0, hi)
    else
      var last := spans[|spans| - 1];
      && last.start < last.end <= hi && Wordless(text, lexer, last.end, hi)
      && Covers(text, lexer, last.start, spans[..|spans| - 1])
  }

  predicate HasWord(text: string, lexer: Lexer, span: Span)
    requires span.end <= |text|
  {
    exists p :: span.start <= p < span.end && lexer.isWord(text[p])
  }

  /** A span that is trimmed, holds a word, stays in its line and runs over no cut. */
  predicate Candidate(text: string, lexer: Lexer, span: Span) {
    && Tight(text, span) && HasWord(text, lexer, span)
    && var end := LineEnd(text, span.start);
       span.end <= end && forall p :: span.start <= p < span.end - 1 ==> !IsCut(text, p, end)
  }

  function SpanOf(feature: ProductFeature): Span {
    if feature.spans == [] then Span(0, 0) else feature.spans[0]
  }

  function SpanList(features: seq<ProductFeature>): (spans: seq<Span>)
    ensures |spans| == |features|
  {
    seq(|features|, i requires 0 <= i < |features| => SpanOf(features[i]))
  }

  /** Features are numbered P1, P2, ..., and each one shows its one span. */
  predicate WellFormed(text: string, lexer: Lexer, features: seq<ProductFeature>) {
    forall k :: 0 <= k < |features| ==>
      && Candidate(text, lexer, SpanOf(features[k]))
      && features[k] == ProductFeature("P" + Decimal(k + 1),
                                       text[SpanOf(features[k]).start..SpanOf(features[k]).end],
                                       [SpanOf(features[k])])
  }

  lemma CoversSkip(text: string, lexer: Lexer, a: nat, b: nat, spans: seq<Span>)
    requires a <= b <= |text| && Covers(text, lexer, a, spans) && Wordless(text, lexer, a, b)
    ensures Covers(text, lexer, b, spans)
  {
  }

  lemma CoversAppend(text: string, lexer: Lexer, a: nat, b: nat, spans: seq<Span>, piece: Span)
    requires WellBehaved(lexer)
    requires a <= b <= |text| && Covers(text, lexer, a, spans) && Trim(text, a, b) == Some(piece)
    ensures Covers(text, lexer, b, spans + [piece])
  {
    CoversSkip(text, lexer, a, piece.start, spans);
    assert (spans + [piece])[..|spans|] == spans;
  }

  /** No cut lies strictly between `a` and `b`. */
  ghost predicate NoCut(text: string, a: int, b: int, end: nat)
    requires end <= |text|
  {
    forall p: nat :: a <= p < b - 1 && p < end ==> !IsCut(text, p, end)
  }

  ghost predicate IsStep(text: string, content: nat, end: nat, bounds: seq<int>, i: nat)
    requires end <= |text| && i + 1 < |bounds|
  {
    content <= bounds[i] <= bounds[i + 1] <= end && NoCut(text, bounds[i], bounds[i + 1], end)
  }

  /** From the content of a line to its end, in steps that no cut interrupts. */
  ghost predicate AreBounds(text: string, content: nat, end: nat, bounds: seq<int>)
    requires end <= |text|
  {
    && |bounds| >= 2 && bounds[0] == content && bounds[|bounds| - 1] == end
    && forall i :: 0 <= i < |bounds| - 1 ==> IsStep(text, content, end, bounds, i)
  }

  lemma BoundsAscend(first: int, cuts: seq<int>, last: int, i: nat)
    requires StrictlySorted(cuts) && forall x :: x in cuts ==> first < x <= last
    requires i <= |cuts| && first <= last
    ensures var bounds := [first] + cuts + [last];
            first <= bounds[i] <= bounds[i + 1] <= last
  {
    var bounds := [first] + cuts + [last];
    assert i > 0 ==> bounds[i] == cuts[i - 1] && cuts[i - 1] in cuts;
    assert i < |cuts| ==> bounds[i + 1] == cuts[i] && cuts[i] in cuts;
  }

  /** Between two neighbouring bounds there is no cut. */
  lemma NoCutBetween(first: int, cuts: seq<int>, last: int, i: nat, c: int)
    requires StrictlySorted(cuts) && i <= |cuts| && c in cuts
    ensures var bounds := [first] + cuts + [last];
            (i > 0 && c <= bounds[i]) || (i < |cuts| && bounds[i + 1] <= c)
  {
    var bounds := [first] + cuts + [last];
    var k :| 0 <= k < |cuts| && cuts[k] == c;
    if k < i {
      assert bounds[i] == cuts[i - 1];
    } else {
      assert bounds[i + 1] == cuts[i];
    }
  }

  lemma CutsMakeBounds(text: string, content: nat, end: nat, cuts: seq<int>)
    requires content <= end <= |text| && StrictlySorted(cuts)
    requires forall c :: c in cuts <==> c in CutsIn(text, content, end)
    ensures AreBounds(text, content, end, [content as int] + cuts + [end])
  {
    var bounds := [content as int] + cuts + [end];
    forall i | 0 <= i < |bounds| - 1
      ensures IsStep(text, content, end, bounds, i)
    {
      BoundsAscend(content, cuts, end, i);
      forall p: nat | bounds[i] <= p < bounds[i + 1] - 1 && p < end
        ensures !IsCut(text, p, end)
      {
        if p + 1 in cuts {
          NoCutBetween(content, cuts, end, i, p + 1);
        }
      }
    }
  }

  method LineBounds(text: string, content: nat, end: nat) returns (bounds: seq<int>)
    requires content <= end <= |text|
    ensures AreBounds(text, content, end, bounds)
  {
    var cuts := CutPoints(text, content, end);
    CutsMakeBounds(text, content, end, cuts);
    bounds := [content as int] + cuts + [end];
  }

  function LineEndFrom(text: string, p: nat): (e: int)
    ensures 0 <= e <= |text|
  {
    if p < |text| then LineEnd(text, p) else |text|
  }

  lemma {:induction false} SameLineEnd(text: string, start: nat, p: nat)
    requires start <= p < LineEndFrom(text, start)
    ensures LineEnd(text, p) == LineEndFrom(text, start)
    decreases p - start
  {
    if start < p {
      SameLineEnd(text, start, p - 1);
    }
  }

  lemma MarkerIsWordless(text: string, lexer: Lexer, lineStart: nat)
    requires WellBehaved(lexer) && lineStart < |text| && (lineStart == 0 || LineEndsAt(text, lineStart))
    ensures var end := LineEnd(text, lineStart);
            Wordless(text, lexer, lineStart, lexer.contentStart(text, lineStart, end))
  {
    var end := LineEnd(text, lineStart);
    var content := lexer.contentStart(text, lineStart, end);
    assert content <= end;
    forall p | lineStart <= p < content
      ensures InMarker(text, lexer, p)
    {
      OneLineStart(text, lineStart, p);
    }
  }

  lemma AppendFeature(text: string, lexer: Lexer, features: seq<ProductFeature>, span: Span)
    requires WellFormed(text, lexer, features) && Candidate(text, lexer, span)
    ensures var more := features + [ProductFeature("P" + Decimal(|features| + 1), text[span.start..span.end], [span])];
            WellFormed(text, lexer, more) && SpanList(more) == SpanList(features) + [span]
  {
  }

  /** The piece between two bounds becomes a feature when it holds a word. */
  method AddPiece(text: string, lexer: Lexer, lineStart: nat, a: nat, b: nat, earlier: seq<ProductFeature>)
    returns (features: seq<ProductFeature>)
    requires WellBehaved(lexer) && lineStart <= a <= b <= LineEndFrom(text, lineStart)
    requires NoCut(text, a, b, LineEndFrom(text, lineStart))
    requires WellFormed(text, lexer, earlier) && Covers(text, lexer, a, SpanList(earlier))
    ensures WellFormed(text, lexer, features) && Covers(text, lexer, b, SpanList(features))
  {
    var piece := Trim(text, a, b);
    if piece.None? || !HasWord(text, lexer, piece.value) {
      CoversSkip(text, lexer, a, b, SpanList(earlier));
      return earlier;
    }
    var span := piece.value;
    SameLineEnd(text, lineStart, span.start);
    CoversAppend(text, lexer, a, b, SpanList(earlier), span);
    AppendFeature(text, lexer, earlier, span);
    features := earlier + [ProductFeature("P" + Decimal(|earlier| + 1), text[span.start..span.end], [span])];
  }

  lemma CoversMarker(text: string, lexer: Lexer, lineStart: nat, spans: seq<Span>)
    requires WellBehaved(lexer) && lineStart < |text| && (lineStart == 0 || LineEndsAt(text, lineStart))
    requires Covers(text, lexer, lineStart, spans)
    ensures var end := LineEnd(text, lineStart);
            var content := lexer.contentStart(text, lineStart, end);
            lineStart <= content <= end && Covers(text, lexer, content, spans)
  {
    var end := LineEnd(text, lineStart);
    var content := lexer.contentStart(text, lineStart, end);
    assert lineStart <= content <= end;
    MarkerIsWordless(text, lexer, lineStart);
    CoversSkip(text, lexer, lineStart, content, spans);
  }

  /** One line: the pieces between the marker, the cuts and the line end. */
  method SplitLine(text: string, lexer: Lexer, lineStart: nat, earlier: seq<ProductFeature>)
    returns (features: seq<ProductFeature>)
    requires WellBehaved(lexer) && lineStart < |text| && (lineStart == 0 || LineEndsAt(text, lineStart))
    requires WellFormed(text, lexer, earlier) && Covers(text, lexer, lineStart, SpanList(earlier))
    ensures WellFormed(text, lexer, features)
    ensures Covers(text, lexer, LineEnd(text, lineStart), SpanList(features))
  {
    var lineEnd := LineEnd(text, lineStart);
    var content := lexer.contentStart(text, lineStart, lineEnd);
    CoversMarker(text, lexer, lineStart, SpanList(earlier));
    var bounds := LineBounds(text, content, lineEnd);
    features := AddPieces(text, lexer, lineStart, content, bounds, earlier);
  }

  method AddPieces(
      text: string, lexer: Lexer, lineStart: nat, content: nat, bounds: seq<int>, earlier: seq<ProductFeature>)
    returns (features: seq<ProductFeature>)
    requires WellBehaved(lexer) && lineStart <= content <= LineEndFrom(text, lineStart)
    requires AreBounds(text, content, LineEndFrom(text, lineStart), bounds)
    requires WellFormed(text, lexer, earlier) && Covers(text, lexer, content, SpanList(earlier))
    ensures WellFormed(text, lexer, features)
    ensures Covers(text, lexer, LineEndFrom(text, lineStart), SpanList(features))
  {
    features := earlier;
    for i := 0 to |bounds| - 1
      invariant content <= bounds[i] <= LineEndFrom(text, lineStart)
      invariant WellFormed(text, lexer, features)
      invariant Covers(text, lexer, bounds[i], SpanList(features))
    {
      assert IsStep(text, content, LineEndFrom(text, lineStart), bounds, i);
      features := AddPiece(text, lexer, lineStart, bounds[i], bounds[i + 1], features);
    }
  }

  method SplitDescription(text: string, lexer: Lexer) returns (features: seq<ProductFeature>)
    requires WellBehaved(lexer)
    ensures WellFormed(text, lexer, features)
    ensures Covers(text, lexer, |text|, SpanList(features))
  {
    features := [];
    var position := 0;
    while position < |text|
      invariant position <= |text| && (position == 0 || LineEndsAt(text, position))
      invariant WellFormed(text, lexer, features)
      invariant Covers(text, lexer, position, SpanList(features))
    {
      features := SplitLine(text, lexer, position, features);
      position := LineEnd(text, position);
    }
  }

  /** What covering means: a word character outside the list markers is in a span ... */
  lemma {:induction false} WordIsInASpan(text: string, lexer: Lexer, hi: nat, spans: seq<Span>, p: nat) returns (k: nat)
    requires p < hi <= |text| && Covers(text, lexer, hi, spans)
    requires lexer.isWord(text[p]) && !InMarker(text, lexer, p)
    ensures k < |spans| && Inside(spans[k], p)
    decreases |spans|
  {
    assert !Wordless(text, lexer, 0, hi);
    k := |spans| - 1;
    if p < spans[k].start {
      k := WordIsInASpan(text, lexer, spans[k].start, spans[..k], p);
    }
  }

  lemma {:induction false} SpanBefore(text: string, lexer: Lexer, hi: nat, spans: seq<Span>, k: nat)
    requires hi <= |text| && Covers(text, lexer, hi, spans) && k < |spans|
    ensures spans[k].end <= hi
    decreases |spans|
  {
    var front, last := spans[..|spans| - 1], spans[|spans| - 1];
    if k < |front| {
      SpanBefore(text, lexer, last.start, front, k);
    }
  }

  /** ... and the spans follow one another without overlap. */
  lemma {:induction false} SpansFollow(text: string, lexer: Lexer, hi: nat, spans: seq<Span>, j: nat, k: nat)
    requires hi <= |text| && Covers(text, lexer, hi, spans) && j < k < |spans|
    ensures spans[j].end <= spans[k].start
    decreases |spans|
  {
    var front, last := spans[..|spans| - 1], spans[|spans| - 1];
    if k < |front| {
      SpansFollow(text, lexer, last.start, front, j, k);
    } else {
      SpanBefore(text, lexer, last.start, front, j);
    }
  }

  /** Every word character of the description is in exactly one feature, unless a list marker took it. */
  lemma EveryWordInOneFeature(text: string, lexer: Lexer, features: seq<ProductFeature>, p: nat) returns (k: nat)
    requires p < |text| && Covers(text, lexer, |text|, SpanList(features))
    requires lexer.isWord(text[p]) && !InMarker(text, lexer, p)
    ensures OnlyIn(SpanList(features), k, p)
  {
    var spans := SpanList(features);
    k := WordIsInASpan(text, lexer, |text|, spans, p);
    forall j | 0 <= j < |spans| && Inside(spans[j], p)
      ensures j == k
    {
      if j < k {
        SpansFollow(text, lexer, |text|, spans, j, k);
      } else if k < j {
        SpansFollow(text, lexer, |text|, spans, k, j);
      }
    }
  }
}
