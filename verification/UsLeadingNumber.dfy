/** When the claim number at the start of a US claim is dropped from its features, and inputs where it is not. */
module UsLeadingNumber {
  import opened Basics
  import opened ClaimTree
  import opened Trimming
  import opened UsClaims

  lemma {:induction false} FirstHoldsZero(spans: seq<Span>, hi: nat)
    requires Ascending(spans, hi)
    ensures Holds(spans, 0) <==> spans != [] && spans[0].start == 0
  {
    if |spans| > 1 {
      var last := spans[|spans| - 1];
      FirstHoldsZero(spans[..|spans| - 1], last.start);
    }
  }

  /** In the clause with these spans the number is looked for exactly when the first character is theirs. */
  lemma CutNeedsFirstCharacter(text: string, spans: seq<Span>)
    requires Ascending(spans, |text|)
    ensures NumberCut(text, 0, TrimAll(text, spans)) > 0 <==>
            text != "" && !IsSpace(text[0]) && Holds(spans, 0) && LeadingNumber(text).Some?
  {
    var trimmed := TrimAll(text, spans);
    TrimAllAscends(text, spans, |text|);
    FirstHoldsZero(trimmed, |text|);
    TrimAllIsTight(text, spans);
    if trimmed != [] {
      assert Tight(text, trimmed[0]);
    }
    if text != "" && !IsSpace(text[0]) {
      TrimAllHolds(text, spans, 0);
    }
  }

  /**
   * For every tree: the leading number is cut off if and only if there is one, the text does not start with a
   * blank, and its first character belongs to the first clause itself, not to a clause nested in it.
   */
  lemma NumberIsCutExactly(tops: seq<Node>)
    ensures var built := WalkTops(EMPTY_TRACE, tops);
            var text := TextOf(built.log);
            && Ascending(SpansOf(built.log, 0), |text|)
            && (NumberCut(text, 0, TrimAll(text, SpansOf(built.log, 0))) > 0 <==>
                  text != "" && !IsSpace(text[0]) && Owner(built.log, 0) == Some(0) && LeadingNumber(text).Some?)
  {
    var built := WalkTops(EMPTY_TRACE, tops);
    var text := TextOf(built.log);
    TopsAssign(EMPTY_TRACE, tops);
    SpansAscend(built.log, built.count, 0);
    CutNeedsFirstCharacter(text, SpansOf(built.log, 0));
    if text != "" {
      SpansPartitionText(built.log, built.count, 0, 0);
    }
  }

  const NUMBERED := "1. A device"
  const INDENTED := " 1. A device"

  lemma NumbersAreThere()
    ensures LeadingNumber(NUMBERED).Some? && LeadingNumber(INDENTED).Some?
  {
    assert SkipBlanks(NUMBERED, 0, |NUMBERED|) == 0 && SkipDigits(NUMBERED, 0) == 1;
    assert SkipBlanks(NUMBERED, 1, |NUMBERED|) == 1;
    assert SkipBlanks(INDENTED, 0, |INDENTED|) == 1 && SkipDigits(INDENTED, 1) == 2;
    assert SkipBlanks(INDENTED, 2, |INDENTED|) == 2;
  }

  lemma OneSpan(text: string, span: Span, tight: Span)
    requires span.start <= tight.start && tight.end <= span.end <= |text| && Tight(text, tight)
    requires Blank(text, span.start, tight.start) && Blank(text, tight.end, span.end)
    ensures Ascending([span], |text|) && TrimAll(text, [span]) == [tight]
  {
    assert [span][..0] == [];
    TrimIsUnique(text, span.start, span.end, tight);
  }

  /** `<claim-text> 1. A device</claim-text>`: the feature still starts with the number. */
  lemma IndentedNumberIsKept()
    ensures var built := WalkTops(EMPTY_TRACE, [Node(true, None, INDENTED, [], "")]);
            && TextOf(built.log) == INDENTED && SpansOf(built.log, 0) == [Span(0, 12)]
            && Ascending([Span(0, 12)], |INDENTED|)
            && ClauseSpans(INDENTED, 0, [Span(0, 12)]) == [Span(1, 12)]
  {
    var built := WalkTops(EMPTY_TRACE, [Node(true, None, INDENTED, [], "")]);
    OneTop(Node(true, None, INDENTED, [], ""));
    OneNode(INDENTED, Trace([], 1), Some(0));
    assert built.log == [Piece(Some(0), INDENTED)];
    OnePiece(INDENTED, 0);
    OneSpan(INDENTED, Span(0, 12), Span(1, 12));
  }

  /** `<claim-text><claim-text>1. A device</claim-text></claim-text>`: the first clause has no text to cut. */
  lemma NestedNumberIsKept()
    ensures var inner := Node(true, None, NUMBERED, [], "");
            var built := WalkTops(EMPTY_TRACE, [Node(true, None, "", [inner], "")]);
            && TextOf(built.log) == NUMBERED && LeadingNumber(NUMBERED).Some?
            && SpansOf(built.log, 0) == [] && SpansOf(built.log, 1) == [Span(0, 11)]
            && Ascending([Span(0, 11)], |NUMBERED|)
            && ClauseSpans(NUMBERED, 1, [Span(0, 11)]) == [Span(0, 11)]
  {
    var inner := Node(true, None, NUMBERED, [], "");
    var outer := Node(true, None, "", [inner], "");
    var built := WalkTops(EMPTY_TRACE, [outer]);
    OneTop(outer);
    OneNested(inner);
    OneNode(NUMBERED, Trace([], 2), Some(1));
    assert built.log == [Piece(Some(1), NUMBERED)];
    OnePiece(NUMBERED, 1);
    OneSpan(NUMBERED, Span(0, 11), Span(0, 11));
    NumbersAreThere();
  }

  lemma OneTop(node: Node)
    ensures WalkTops(EMPTY_TRACE, [node]) == Walk(Trace([], 1), node, Some(0))
  {
    assert [node][1..] == [];
  }

  lemma OneNested(inner: Node)
    requires inner.isClaimText && inner.tail == ""
    ensures Walk(Trace([], 1), Node(true, None, "", [inner], ""), Some(0)) == Walk(Trace([], 2), inner, Some(1))
  {
    assert [inner][1..] == [];
    var after := Add(WalkChild(Trace([], 1), inner, Some(0)), "", Some(0));
    assert WalkAll(Trace([], 1), [inner], Some(0)) == WalkAll(after, [], Some(0));
  }

  lemma OneNode(text: string, t: Trace, clause: Option<nat>)
    requires text != "" && t.log == []
    ensures Walk(t, Node(true, None, text, [], ""), clause) == Trace([Piece(clause, text)], t.count)
  {
    assert [] + [Piece(clause, text)] == [Piece(clause, text)];
  }

  lemma OnePiece(text: string, k: nat)
    ensures TextOf([Piece(Some(k), text)]) == text
    ensures SpansOf([Piece(Some(k), text)], k) == [Span(0, |text|)]
    ensures forall other :: other != k ==> SpansOf([Piece(Some(k), text)], other) == []
  {
    assert [Piece(Some(k), text)][..0] == [];
    assert "" + text == text;
  }
}
