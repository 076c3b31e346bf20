/**
 * US claims from office markup: walking the nested clauses of one claim, then trimming each clause's
 * spans into a proposed feature.
 */
module UsClaims {
  import opened Basics
  import opened ClaimTree
  import opened Trimming

  /**
   * An XML element: the claim it refers to if it is a claim reference with a claim id, its text, its children,
   * and the text that follows it. Absent text is "".
   */
  datatype Node = Node(isClaimText: bool, reference: Option<nat>, text: string, children: seq<Node>, tail: string)

  /** A non-empty run of text and the clause it was added to. */
  datatype Piece = Piece(clause: Option<nat>, text: string)

  // ----- reference definitions on the tree

  /** All the text inside an element, in document order. */
  function InOrderText(node: Node): string {
    node.text + InOrderTextOf(node.children)
  }

  function InOrderTextOf(nodes: seq<Node>): string {
    if nodes == [] then "" else InOrderText(nodes[0]) + nodes[0].tail + InOrderTextOf(nodes[1..])
  }

  /** The text of a clause without its nested clauses; inline markup belongs to the clause. */
  function OwnText(node: Node): string {
    node.text + OwnTextOf(node.children)
  }

  function OwnTextOf(nodes: seq<Node>): string {
    if nodes == [] then ""
    else (if nodes[0].isClaimText then "" else InOrderText(nodes[0])) + nodes[0].tail + OwnTextOf(nodes[1..])
  }

  /** The own text of a clause and of every clause nested in it, in document order. */
  function ClauseTexts(node: Node): seq<string> {
    [OwnText(node)] + NestedTexts(node.children)
  }

  function NestedTexts(nodes: seq<Node>): seq<string> {
    if nodes == [] then []
    else (if nodes[0].isClaimText then ClauseTexts(nodes[0]) else []) + NestedTexts(nodes[1..])
  }

  function TopTexts(tops: seq<Node>): seq<string> {
    if tops == [] then [] else ClauseTexts(tops[0]) + TopTexts(tops[1..])
  }

  function TopInOrderText(tops: seq<Node>): string {
    if tops == [] then "" else InOrderText(tops[0]) + TopInOrderText(tops[1..])
  }

  // ----- the walk, as a function of what has been built so far

  /** The pieces added so far, in order, and how many clauses have been opened. */
  datatype Trace = Trace(log: seq<Piece>, count: nat)

  function Add(t: Trace, text: string, clause: Option<nat>): Trace {
    if text == "" then t else t.(log := t.log + [Piece(clause, text)])
  }

  function Inline(t: Trace, node: Node, clause: Option<nat>): Trace
    decreases node
  {
    InlineAll(Add(t, node.text, clause), node.children, clause)
  }

  function InlineAll(t: Trace, nodes: seq<Node>, clause: Option<nat>): Trace
    decreases nodes
  {
    if nodes == [] then t
    else InlineAll(Add(Inline(t, nodes[0], clause), nodes[0].tail, clause), nodes[1..], clause)
  }

  function Walk(t: Trace, node: Node, clause: Option<nat>): Trace
    decreases node, 0
  {
    WalkAll(Add(t, node.text, clause), node.children, clause)
  }

  function WalkAll(t: Trace, nodes: seq<Node>, clause: Option<nat>): Trace
    decreases nodes
  {
    if nodes == [] then t
    else WalkAll(Add(WalkChild(t, nodes[0], clause), nodes[0].tail, clause), nodes[1..], clause)
  }

  /** A nested claim-text opens a new clause; inline markup stays in the enclosing one. */
  function WalkChild(t: Trace, child: Node, clause: Option<nat>): Trace
    decreases child, 1
  {
    if child.isClaimText then Walk(t.(count := t.count + 1), child, Some(t.count)) else Inline(t, child, clause)
  }

  /** The top-level claim-text elements of one claim; what stands between them is not read. */
  function WalkTops(t: Trace, tops: seq<Node>): Trace
    decreases tops
  {
    if tops == [] then t
    else WalkTops(Walk(t.(count := t.count + 1), tops[0], Some(t.count)), tops[1..])
  }

  const EMPTY_TRACE := Trace([], 0)

  // ----- what a list of pieces amounts to

  function TextOf(pieces: seq<Piece>): string {
    if pieces == [] then "" else TextOf(pieces[..|pieces| - 1]) + pieces[|pieces| - 1].text
  }

  /** The text added to clause `k`. */
  function OwnOf(pieces: seq<Piece>, k: nat): string {
    if pieces == [] then ""
    else
      var last := pieces[|pieces| - 1];
      var before := OwnOf(pieces[..|pieces| - 1], k);
      if last.clause == Some(k) then before + last.text else before
  }

  /** Where the pieces of clause `k` lie in the whole text. */
  function SpansOf(pieces: seq<Piece>, k: nat): seq<Span> {
    if pieces == [] then []
    else
      var front, last := pieces[..|pieces| - 1], pieces[|pieces| - 1];
      var spans, start := SpansOf(front, k), |TextOf(front)|;
      if last.clause == Some(k) then spans + [Span(start, start + |last.text|)] else spans
  }

  lemma AddMeaning(t: Trace, text: string, clause: Option<nat>, k: nat)
    ensures TextOf(Add(t, text, clause).log) == TextOf(t.log) + text
    ensures OwnOf(Add(t, text, clause).log, k) == OwnOf(t.log, k) + if clause == Some(k) then text else ""
    ensures Add(t, text, clause).count == t.count
  {
    assert (t.log + [Piece(clause, text)])[..|t.log|] == t.log;
  }

  function Concat(parts: seq<string>): string {
    if parts == [] then "" else Concat(parts[..|parts| - 1]) + parts[|parts| - 1]
  }

  // ----- the builder

  class Builder {
    var parts: seq<string>
    var position: nat
    var clauses: seq<seq<Span>>
    ghost var log: seq<Piece>

    ghost predicate Valid()
      reads this
    {
      && Concat(parts) == TextOf(log) && position == |TextOf(log)|
      && (forall k :: 0 <= k < |clauses| ==> clauses[k] == SpansOf(log, k))
      && forall p :: p in log && p.clause.Some? ==> p.clause.value < |clauses|
    }

    ghost function Built(): Trace
      reads this
    {
      Trace(log, |clauses|)
    }

    constructor ()
      ensures Valid() && Built() == EMPTY_TRACE
    {
      parts, position, clauses, log := [], 0, [], [];
    }

    method AddText(text: string, clause: Option<nat>)
      requires Valid() && (clause.Some? ==> clause.value < |clauses|)
      modifies this
      ensures Valid() && Built() == Add(old(Built()), text, clause)
    {
      if text == "" {
        return;
      }
      var start := position;
      assert (parts + [text])[..|parts|] == parts;
      assert (log + [Piece(clause, text)])[..|log|] == log;
      parts := parts + [text];
      position := position + |text|;
      if clause.Some? {
        clauses := clauses[clause.value := clauses[clause.value] + [Span(start, position)]];
      }
      log := log + [Piece(clause, text)];
    }

    method OpenClause()
      requires Valid()
      modifies this
      ensures Valid() && Built() == Trace(old(log), |old(clauses)| + 1)
    {
      UnusedClauseHasNoSpans(log, |clauses|);
      clauses := clauses + [[]];
    }

    method WalkNode(node: Node, clause: Option<nat>)
      requires Valid() && (clause.Some? ==> clause.value < |clauses|)
      modifies this
      ensures Valid() && Built() == Walk(old(Built()), node, clause) && |clauses| >= |old(clauses)|
      decreases node, 0
    {
      AddText(node.text, clause);
      for i := 0 to |node.children|
        invariant Valid() && |clauses| >= |old(clauses)|
        invariant Walk(old(Built()), node, clause) == WalkAll(Built(), node.children[i..], clause)
      {
        assert node.children[i..][1..] == node.children[i + 1..];
        VisitChild(node.children[i], clause);
        AddText(node.children[i].tail, clause);
      }
    }

    method VisitChild(child: Node, clause: Option<nat>)
      requires Valid() && (clause.Some? ==> clause.value < |clauses|)
      modifies this
      ensures Valid() && Built() == WalkChild(old(Built()), child, clause) && |clauses| >= |old(clauses)|
      decreases child, 1
    {
      if child.isClaimText {
        OpenClause();
        WalkNode(child, Some(|clauses| - 1));
      } else {
        WalkInline(child, clause);
      }
    }

    method WalkInline(node: Node, clause: Option<nat>)
      requires Valid() && (clause.Some? ==> clause.value < |clauses|)
      modifies this
      ensures Valid() && Built() == Inline(old(Built()), node, clause) && |clauses| == |old(clauses)|
      decreases node, 0
    {
      AddText(node.text, clause);
      for i := 0 to |node.children|
        invariant Valid() && |clauses| == |old(clauses)|
        invariant Inline(old(Built()), node, clause) == InlineAll(Built(), node.children[i..], clause)
      {
        assert node.children[i..][1..] == node.children[i + 1..];
        WalkInline(node.children[i], clause);
        AddText(node.children[i].tail, clause);
      }
    }
  }

  lemma UnusedClauseHasNoSpans(pieces: seq<Piece>, k: nat)
    requires forall p :: p in pieces && p.clause.Some? ==> p.clause.value < k
    ensures SpansOf(pieces, k) == []
  {
  }

  method WalkClaim(tops: seq<Node>) returns (text: string, clauses: seq<seq<Span>>)
    ensures var built := WalkTops(EMPTY_TRACE, tops);
            && text == TextOf(built.log) && |clauses| == built.count
            && forall k :: 0 <= k < |clauses| ==> clauses[k] == SpansOf(built.log, k)
  {
    var builder := new Builder();
    for i := 0 to |tops|
      invariant builder.Valid()
      invariant WalkTops(EMPTY_TRACE, tops) == WalkTops(builder.Built(), tops[i..])
    {
      assert tops[i..][1..] == tops[i + 1..];
      builder.OpenClause();
      builder.WalkNode(tops[i], Some(|builder.clauses| - 1));
    }
    text, clauses := Concat(builder.parts), builder.clauses;
  }

  // ----- the walk keeps every character, in document order

  lemma {:induction false} InlineKeepsText(t: Trace, node: Node, clause: Option<nat>)
    ensures TextOf(Inline(t, node, clause).log) == TextOf(t.log) + InOrderText(node)
    decreases node
  {
    var t1 := Add(t, node.text, clause);
    AddMeaning(t, node.text, clause, 0);
    InlineAllKeepsText(t1, node.children, clause);
    ConcatAssociates(TextOf(t.log), node.text, InOrderTextOf(node.children));
  }

  lemma {:induction false} InlineAllKeepsText(t: Trace, nodes: seq<Node>, clause: Option<nat>)
    ensures TextOf(InlineAll(t, nodes, clause).log) == TextOf(t.log) + InOrderTextOf(nodes)
    decreases nodes
  {
    if nodes != [] {
      var t1 := Inline(t, nodes[0], clause);
      InlineKeepsText(t, nodes[0], clause);
      AddMeaning(t1, nodes[0].tail, clause, 0);
      InlineAllKeepsText(Add(t1, nodes[0].tail, clause), nodes[1..], clause);
      FourTexts(TextOf(t.log), InOrderText(nodes[0]), nodes[0].tail, InOrderTextOf(nodes[1..]));
    }
  }

  lemma FourTexts(a: string, b: string, c: string, d: string)
    ensures a + b + c + d == a + (b + c + d)
  {
  }

  lemma {:induction false} WalkKeepsText(t: Trace, node: Node, clause: Option<nat>)
    ensures TextOf(Walk(t, node, clause).log) == TextOf(t.log) + InOrderText(node)
    decreases node
  {
    AddMeaning(t, node.text, clause, 0);
    WalkAllKeepsText(Add(t, node.text, clause), node.children, clause);
    ConcatAssociates(TextOf(t.log), node.text, InOrderTextOf(node.children));
  }

  lemma {:induction false} WalkAllKeepsText(t: Trace, nodes: seq<Node>, clause: Option<nat>)
    ensures TextOf(WalkAll(t, nodes, clause).log) == TextOf(t.log) + InOrderTextOf(nodes)
    decreases nodes
  {
    if nodes != [] {
      var t1 := WalkChild(t, nodes[0], clause);
      if nodes[0].isClaimText {
        WalkKeepsText(t.(count := t.count + 1), nodes[0], Some(t.count));
      } else {
        InlineKeepsText(t, nodes[0], clause);
      }
      AddMeaning(t1, nodes[0].tail, clause, 0);
      WalkAllKeepsText(Add(t1, nodes[0].tail, clause), nodes[1..], clause);
      FourTexts(TextOf(t.log), InOrderText(nodes[0]), nodes[0].tail, InOrderTextOf(nodes[1..]));
    }
  }

  /** The claim text is the in-order text of its clauses. */
  lemma {:induction false} TopsKeepText(t: Trace, tops: seq<Node>)
    ensures TextOf(WalkTops(t, tops).log) == TextOf(t.log) + TopInOrderText(tops)
    decreases tops
  {
    if tops != [] {
      var t1 := Walk(t.(count := t.count + 1), tops[0], Some(t.count));
      WalkKeepsText(t.(count := t.count + 1), tops[0], Some(t.count));
      TopsKeepText(t1, tops[1..]);
      ConcatAssociates(TextOf(t.log), InOrderText(tops[0]), TopInOrderText(tops[1..]));
    }
  }

  // ----- clauses are numbered in document order, and each gets exactly its own text

  /** What clause `k` receives when clause `clause` gets `own` and the clauses from `next` on get `nested`. */
  function Share(own: string, nested: seq<string>, clause: Option<nat>, next: nat, k: nat): string {
    if clause == Some(k) then own
    else if next <= k < next + |nested| then nested[k - next]
    else ""
  }

  /** After the step, `nested` clauses have been opened and every clause has received its share. */
  ghost predicate Gave(t: Trace, t': Trace, own: string, nested: seq<string>, clause: Option<nat>, k: nat) {
    && t'.count == t.count + |nested|
    && OwnOf(t'.log, k) == OwnOf(t.log, k) + Share(own, nested, clause, t.count, k)
  }

  lemma GaveBoth(t: Trace, t1: Trace, t2: Trace, own1: string, own2: string, nested1: seq<string>, nested2: seq<string>,
                 clause: Option<nat>, k: nat)
    requires Gave(t, t1, own1, nested1, clause, k) && Gave(t1, t2, own2, nested2, clause, k)
    requires clause.Some? ==> clause.value < t.count
    ensures Gave(t, t2, own1 + own2, nested1 + nested2, clause, k)
  {
    ConcatAssociates(
      OwnOf(t.log, k), Share(own1, nested1, clause, t.count, k), Share(own2, nested2, clause, t1.count, k));
  }

  lemma AddGives(t: Trace, text: string, clause: Option<nat>, k: nat)
    ensures Gave(t, Add(t, text, clause), text, [], clause, k)
  {
    AddMeaning(t, text, clause, k);
  }

  lemma {:induction false} InlineGives(t: Trace, node: Node, clause: Option<nat>, k: nat)
    requires clause.Some? ==> clause.value < t.count
    ensures Gave(t, Inline(t, node, clause), InOrderText(node), [], clause, k)
    decreases node
  {
    var t1 := Add(t, node.text, clause);
    AddGives(t, node.text, clause, k);
    InlineAllGives(t1, node.children, clause, k);
    GaveBoth(t, t1, Inline(t, node, clause), node.text, InOrderTextOf(node.children), [], [], clause, k);
  }

  lemma {:induction false} InlineAllGives(t: Trace, nodes: seq<Node>, clause: Option<nat>, k: nat)
    requires clause.Some? ==> clause.value < t.count
    ensures Gave(t, InlineAll(t, nodes, clause), InOrderTextOf(nodes), [], clause, k)
    decreases nodes
  {
    if nodes != [] {
      var t1 := Inline(t, nodes[0], clause);
      var t2 := Add(t1, nodes[0].tail, clause);
      InlineGives(t, nodes[0], clause, k);
      AddGives(t1, nodes[0].tail, clause, k);
      InlineAllGives(t2, nodes[1..], clause, k);
      GaveBoth(t, t1, t2, InOrderText(nodes[0]), nodes[0].tail, [], [], clause, k);
      GaveBoth(t, t2, InlineAll(t, nodes, clause), InOrderText(nodes[0]) + nodes[0].tail, InOrderTextOf(nodes[1..]),
               [], [], clause, k);
    }
  }

  lemma {:induction false} WalkGives(t: Trace, node: Node, clause: Option<nat>, k: nat)
    requires clause.Some? ==> clause.value < t.count
    ensures Gave(t, Walk(t, node, clause), OwnText(node), NestedTexts(node.children), clause, k)
    decreases node, 0
  {
    var t1, nested := Add(t, node.text, clause), NestedTexts(node.children);
    AddGives(t, node.text, clause, k);
    WalkAllGives(t1, node.children, clause, k);
    GaveBoth(t, t1, Walk(t, node, clause), node.text, OwnTextOf(node.children), [], nested, clause, k);
    assert [] + nested == nested;
  }

  /** Walking a node as a newly opened clause. */
  lemma {:induction false} OpenedGives(t: Trace, node: Node, clause: Option<nat>, k: nat)
    requires clause.Some? ==> clause.value < t.count
    ensures Gave(t, Walk(t.(count := t.count + 1), node, Some(t.count)), "", ClauseTexts(node), clause, k)
    decreases node, 1
  {
    WalkGives(t.(count := t.count + 1), node, Some(t.count), k);
  }

  lemma {:induction false} ChildGives(t: Trace, child: Node, clause: Option<nat>, k: nat)
    requires clause.Some? ==> clause.value < t.count
    ensures Gave(t, WalkChild(t, child, clause), if child.isClaimText then "" else InOrderText(child),
                 if child.isClaimText then ClauseTexts(child) else [], clause, k)
    decreases child, 2
  {
    if child.isClaimText {
      OpenedGives(t, child, clause, k);
    } else {
      InlineGives(t, child, clause, k);
    }
  }

  lemma {:induction false} WalkAllGives(t: Trace, nodes: seq<Node>, clause: Option<nat>, k: nat)
    requires clause.Some? ==> clause.value < t.count
    ensures Gave(t, WalkAll(t, nodes, clause), OwnTextOf(nodes), NestedTexts(nodes), clause, k)
    decreases nodes
  {
    if nodes != [] {
      var child := nodes[0];
      var own := if child.isClaimText then "" else InOrderText(child);
      var nested := if child.isClaimText then ClauseTexts(child) else [];
      var t1 := WalkChild(t, child, clause);
      var t2 := Add(t1, child.tail, clause);
      ChildGives(t, child, clause, k);
      AddGives(t1, child.tail, clause, k);
      GaveBoth(t, t1, t2, own, child.tail, nested, [], clause, k);
      assert nested + [] == nested;
      WalkAllGives(t2, nodes[1..], clause, k);
      GaveBoth(t, t2, WalkAll(t, nodes, clause), own + child.tail, OwnTextOf(nodes[1..]),
               nested, NestedTexts(nodes[1..]), clause, k);
    }
  }

  lemma {:induction false} TopsGive(t: Trace, tops: seq<Node>, k: nat)
    ensures Gave(t, WalkTops(t, tops), "", TopTexts(tops), None, k)
    decreases tops
  {
    if tops != [] {
      var t1 := Walk(t.(count := t.count + 1), tops[0], Some(t.count));
      OpenedGives(t, tops[0], None, k);
      TopsGive(t1, tops[1..], k);
      GaveBoth(t, t1, WalkTops(t, tops), "", "", ClauseTexts(tops[0]), TopTexts(tops[1..]), None, k);
    }
  }

  /** Clause `k` of the built text is the own text of the k-th clause in document order. */
  lemma ClausesSpellTheirOwnText(tops: seq<Node>, k: nat)
    requires k < |TopTexts(tops)|
    ensures var built := WalkTops(EMPTY_TRACE, tops);
            && TextOf(built.log) == TopInOrderText(tops)
            && built.count == |TopTexts(tops)|
            && Spell(TextOf(built.log), SpansOf(built.log, k)) == TopTexts(tops)[k]
  {
    var built := WalkTops(EMPTY_TRACE, tops);
    TopsKeepText(EMPTY_TRACE, tops);
    TopsGive(EMPTY_TRACE, tops, k);
    SpansSpellOwnText(TextOf(built.log), built.log, k);
  }

  /** The text under the spans, in order. */
  function Spell(text: string, spans: seq<Span>): string {
    if spans == [] then ""
    else
      var last := spans[|spans| - 1];
      Spell(text, spans[..|spans| - 1]) + (if last.start <= last.end <= |text| then text[last.start..last.end] else "")
  }

  lemma {:induction false} SpansSpellOwnText(text: string, pieces: seq<Piece>, k: nat)
    requires TextOf(pieces) <= text
    ensures Spell(text, SpansOf(pieces, k)) == OwnOf(pieces, k)
  {
    if pieces != [] {
      var front, last := pieces[..|pieces| - 1], pieces[|pieces| - 1];
      SpansSpellOwnText(text, front, k);
      var start := |TextOf(front)|;
      assert TextOf(pieces)[start..] == last.text;
      assert text[start..start + |last.text|] == last.text;
      var spans := SpansOf(front, k);
      assert (spans + [Span(start, start + |last.text|)])[..|spans|] == spans;
    }
  }

  // ----- the clause spans partition the text

  /** Some span of the list holds position `p`. */
  predicate Holds(spans: seq<Span>, p: nat) {
    spans != [] && (Inside(spans[|spans| - 1], p) || Holds(spans[..|spans| - 1], p))
  }

  /** Non-empty spans in increasing order without overlap, all below `hi`; so no two hold the same position. */
  predicate Ascending(spans: seq<Span>, hi: nat) {
    spans != [] ==>
      var last := spans[|spans| - 1];
      last.start < last.end <= hi && Ascending(spans[..|spans| - 1], last.start)
  }

  lemma {:induction false} HoldsBelow(spans: seq<Span>, hi: nat, p: nat)
    requires Ascending(spans, hi) && Holds(spans, p)
    ensures p < hi
  {
    var last := spans[|spans| - 1];
    if !Inside(last, p) {
      HoldsBelow(spans[..|spans| - 1], last.start, p);
    }
  }

  /** The clause whose piece contains position `p`. */
  function Owner(pieces: seq<Piece>, p: nat): Option<nat>
    requires p < |TextOf(pieces)|
  {
    var front := pieces[..|pieces| - 1];
    if p < |TextOf(front)| then Owner(front, p) else pieces[|pieces| - 1].clause
  }

  /** Every piece is non-empty and belongs to one of the first `count` clauses. */
  ghost predicate Assigned(pieces: seq<Piece>, count: nat) {
    forall i :: 0 <= i < |pieces| ==>
      pieces[i].text != "" && pieces[i].clause.Some? && pieces[i].clause.value < count
  }

  /** Position `p` lies in the spans of its owner and of no other clause. */
  lemma {:induction false} SpansPartitionText(pieces: seq<Piece>, count: nat, k: nat, p: nat)
    requires Assigned(pieces, count) && p < |TextOf(pieces)|
    ensures Holds(SpansOf(pieces, k), p) <==> Owner(pieces, p) == Some(k)
    ensures Owner(pieces, p).Some? && Owner(pieces, p).value < count
  {
    var front, last := pieces[..|pieces| - 1], pieces[|pieces| - 1];
    var spans, start := SpansOf(front, k), |TextOf(front)|;
    var added := spans + [Span(start, start + |last.text|)];
    assert added[..|spans|] == spans;
    if p < start {
      SpansPartitionText(front, count, k, p);
    } else {
      SpansAscend(front, count, k);
      if Holds(spans, p) {
        HoldsBelow(spans, start, p);
      }
    }
  }

  lemma {:induction false} SpansAscend(pieces: seq<Piece>, count: nat, k: nat)
    requires Assigned(pieces, count)
    ensures Ascending(SpansOf(pieces, k), |TextOf(pieces)|)
  {
    if pieces != [] {
      var front, last := pieces[..|pieces| - 1], pieces[|pieces| - 1];
      SpansAscend(front, count, k);
      var spans, start := SpansOf(front, k), |TextOf(front)|;
      assert (spans + [Span(start, start + |last.text|)])[..|spans|] == spans;
      AscendingHigher(spans, start, |TextOf(pieces)|);
    }
  }

  lemma AscendingHigher(spans: seq<Span>, hi: nat, hi': nat)
    requires Ascending(spans, hi) && hi <= hi'
    ensures Ascending(spans, hi')
  {
  }

  lemma {:induction false} InlineAssigns(t: Trace, node: Node, clause: Option<nat>)
    requires Assigned(t.log, t.count) && clause.Some? && clause.value < t.count
    ensures Assigned(Inline(t, node, clause).log, t.count) && Inline(t, node, clause).count == t.count
    decreases node
  {
    InlineAllAssigns(Add(t, node.text, clause), node.children, clause);
  }

  lemma {:induction false} InlineAllAssigns(t: Trace, nodes: seq<Node>, clause: Option<nat>)
    requires Assigned(t.log, t.count) && clause.Some? && clause.value < t.count
    ensures Assigned(InlineAll(t, nodes, clause).log, t.count) && InlineAll(t, nodes, clause).count == t.count
    decreases nodes
  {
    if nodes != [] {
      InlineAssigns(t, nodes[0], clause);
      InlineAllAssigns(Add(Inline(t, nodes[0], clause), nodes[0].tail, clause), nodes[1..], clause);
    }
  }

  lemma {:induction false} WalkAssigns(t: Trace, node: Node, clause: Option<nat>)
    requires Assigned(t.log, t.count) && clause.Some? && clause.value < t.count
    ensures Walk(t, node, clause).count >= t.count
    ensures Assigned(Walk(t, node, clause).log, Walk(t, node, clause).count)
    decreases node
  {
    WalkAllAssigns(Add(t, node.text, clause), node.children, clause);
  }

  lemma {:induction false} WalkAllAssigns(t: Trace, nodes: seq<Node>, clause: Option<nat>)
    requires Assigned(t.log, t.count) && clause.Some? && clause.value < t.count
    ensures WalkAll(t, nodes, clause).count >= t.count
    ensures Assigned(WalkAll(t, nodes, clause).log, WalkAll(t, nodes, clause).count)
    decreases nodes
  {
    if nodes != [] {
      if nodes[0].isClaimText {
        WalkAssigns(t.(count := t.count + 1), nodes[0], Some(t.count));
      } else {
        InlineAssigns(t, nodes[0], clause);
      }
      WalkAllAssigns(Add(WalkChild(t, nodes[0], clause), nodes[0].tail, clause), nodes[1..], clause);
    }
  }

  lemma {:induction false} TopsAssign(t: Trace, tops: seq<Node>)
    requires Assigned(t.log, t.count)
    ensures Assigned(WalkTops(t, tops).log, WalkTops(t, tops).count)
    decreases tops
  {
    if tops != [] {
      WalkAssigns(t.(count := t.count + 1), tops[0], Some(t.count));
      TopsAssign(Walk(t.(count := t.count + 1), tops[0], Some(t.count)), tops[1..]);
    }
  }

  // ----- trimming the spans into features

  /** Each span trimmed, blank ones dropped. */
  function TrimAll(text: string, spans: seq<Span>): seq<Span>
    requires Ascending(spans, |text|)
  {
    if spans == [] then []
    else
      var last := spans[|spans| - 1];
      AscendingHigher(spans[..|spans| - 1], last.start, |text|);
      var trimmed := Trim(text, last.start, last.end);
      var before := TrimAll(text, spans[..|spans| - 1]);
      if trimmed.Some? then before + [trimmed.value] else before
  }

  /** What is left of the spans from `cut` on. */
  function CutAt(spans: seq<Span>, cut: nat): seq<Span> {
    if spans == [] then []
    else
      var last := spans[|spans| - 1];
      var before := CutAt(spans[..|spans| - 1], cut);
      if last.end > cut then before + [Span(Max(last.start, cut), last.end)] else before
  }

  function SkipDigits(text: string, i: nat): (j: nat)
    requires i <= |text|
    ensures i <= j <= |text|
    decreases |text| - i
  {
    if i < |text| && '0' <= text[i] <= '9' then SkipDigits(text, i + 1) else i
  }

  /** The end of a claim number with its full stop and the blanks around them, at the very start of the text. */
  function LeadingNumber(text: string): (end: Option<nat>)
    ensures end.Some? ==> 0 < end.value <= |text| && (end.value < |text| ==> !IsSpace(text[end.value]))
  {
    var a := SkipBlanks(text, 0, |text|);
    var b := SkipDigits(text, a);
    var c := SkipBlanks(text, b, |text|);
    if a < b && c < |text| && text[c] == '.' then Some(SkipBlanks(text, c + 1, |text|)) else None
  }

  /** The number is looked for only in the first clause, and only when its first trimmed span starts the text. */
  function NumberCut(text: string, index: nat, trimmed: seq<Span>): nat {
    if index == 0 && trimmed != [] && trimmed[0].start == 0 && LeadingNumber(text).Some?
    then LeadingNumber(text).value else 0
  }

  /** The feature spans of the clause at `index`; none if nothing is left. */
  function ClauseSpans(text: string, index: nat, spans: seq<Span>): seq<Span>
    requires Ascending(spans, |text|)
  {
    var trimmed := TrimAll(text, spans);
    var cut := NumberCut(text, index, trimmed);
    if cut == 0 then trimmed else CutAt(trimmed, cut)
  }

  lemma {:induction false} TrimAllAscends(text: string, spans: seq<Span>, hi: nat)
    requires Ascending(spans, hi) && hi <= |text| && Ascending(spans, |text|)
    ensures Ascending(TrimAll(text, spans), hi)
  {
    if spans != [] {
      var front, last := spans[..|spans| - 1], spans[|spans| - 1];
      AscendingHigher(front, last.start, |text|);
      TrimAllAscends(text, front, last.start);
      var before, trimmed := TrimAll(text, front), Trim(text, last.start, last.end);
      if trimmed.Some? {
        assert (before + [trimmed.value])[..|before|] == before;
        AscendingHigher(before, last.start, trimmed.value.start);
      } else {
        AscendingHigher(before, last.start, hi);
      }
    }
  }

  lemma {:induction false} TrimAllHolds(text: string, spans: seq<Span>, p: nat)
    requires Ascending(spans, |text|) && p < |text| && !IsSpace(text[p])
    ensures Holds(TrimAll(text, spans), p) <==> Holds(spans, p)
  {
    if spans != [] {
      var front, last := spans[..|spans| - 1], spans[|spans| - 1];
      AscendingHigher(front, last.start, |text|);
      TrimAllHolds(text, front, p);
      var before, trimmed := TrimAll(text, front), Trim(text, last.start, last.end);
      if trimmed.Some? {
        assert (before + [trimmed.value])[..|before|] == before;
      }
    }
  }

  ghost predicate AllTight(text: string, spans: seq<Span>) {
    forall i :: 0 <= i < |spans| ==> Tight(text, spans[i])
  }

  lemma {:induction false} TrimAllIsTight(text: string, spans: seq<Span>)
    requires Ascending(spans, |text|)
    ensures AllTight(text, TrimAll(text, spans))
  {
    if spans != [] {
      AscendingHigher(spans[..|spans| - 1], spans[|spans| - 1].start, |text|);
      TrimAllIsTight(text, spans[..|spans| - 1]);
    }
  }

  lemma {:induction false} CutAtStaysTight(text: string, spans: seq<Span>, cut: nat)
    requires AllTight(text, spans) && cut <= |text| && (cut < |text| ==> !IsSpace(text[cut]))
    ensures AllTight(text, CutAt(spans, cut))
  {
    if spans != [] {
      assert Tight(text, spans[|spans| - 1]);
      CutAtStaysTight(text, spans[..|spans| - 1], cut);
    }
  }

  /** No feature span could be trimmed further, also where the claim number was cut off. */
  lemma ClauseSpansAreTight(text: string, index: nat, spans: seq<Span>)
    requires Ascending(spans, |text|)
    ensures AllTight(text, ClauseSpans(text, index, spans))
  {
    TrimAllIsTight(text, spans);
    var trimmed := TrimAll(text, spans);
    var cut := NumberCut(text, index, trimmed);
    if cut != 0 {
      CutAtStaysTight(text, trimmed, cut);
    }
  }

  lemma {:induction false} CutAtMeaning(spans: seq<Span>, cut: nat, hi: nat, p: nat)
    requires Ascending(spans, hi)
    ensures Ascending(CutAt(spans, cut), hi)
    ensures Holds(CutAt(spans, cut), p) <==> Holds(spans, p) && p >= cut
  {
    if spans != [] {
      var front, last := spans[..|spans| - 1], spans[|spans| - 1];
      CutAtMeaning(front, cut, last.start, p);
      var before := CutAt(front, cut);
      if last.end > cut {
        var kept := Span(Max(last.start, cut), last.end);
        assert (before + [kept])[..|before|] == before;
        AscendingHigher(before, last.start, kept.start);
      } else {
        AscendingHigher(before, last.start, hi);
      }
    }
  }

  /** The characters of the first clause that go with the claim number. */
  predicate Removed(text: string, index: nat, spans: seq<Span>, p: nat)
    requires Ascending(spans, |text|)
  {
    p < NumberCut(text, index, TrimAll(text, spans))
  }

  lemma ClauseSpansMeaning(text: string, index: nat, spans: seq<Span>, p: nat)
    requires Ascending(spans, |text|) && p < |text| && !IsSpace(text[p])
    ensures Ascending(ClauseSpans(text, index, spans), |text|)
    ensures Holds(ClauseSpans(text, index, spans), p) <==> Holds(spans, p) && !Removed(text, index, spans, p)
  {
    TrimAllAscends(text, spans, |text|);
    TrimAllHolds(text, spans, p);
    var trimmed := TrimAll(text, spans);
    CutAtMeaning(trimmed, NumberCut(text, index, trimmed), |text|, p);
  }

  ghost predicate AllAscending(text: string, clauses: seq<seq<Span>>) {
    forall k :: 0 <= k < |clauses| ==> Ascending(clauses[k], |text|)
  }

  /** The span lists of the features, clause by clause; clauses with nothing left give none. */
  function Kept(text: string, clauses: seq<seq<Span>>): seq<seq<Span>>
    requires AllAscending(text, clauses)
  {
    if clauses == [] then []
    else
      var n := |clauses| - 1;
      var spans := ClauseSpans(text, n, clauses[n]);
      if spans == [] then Kept(text, clauses[..n]) else Kept(text, clauses[..n]) + [spans]
  }

  /** In how many of the lists position `p` is held. */
  function Holders(lists: seq<seq<Span>>, p: nat): nat {
    if lists == [] then 0
    else Holders(lists[..|lists| - 1], p) + (if Holds(lists[|lists| - 1], p) then 1 else 0)
  }

  lemma HoldersAppend(lists: seq<seq<Span>>, last: seq<Span>, p: nat)
    ensures Holders(lists + [last], p) == Holders(lists, p) + (if Holds(last, p) then 1 else 0)
  {
    assert (lists + [last])[..|lists|] == lists;
  }

  lemma AllAscendingGrows(text: string, clauses: seq<seq<Span>>, last: seq<Span>)
    requires AllAscending(text, clauses) && Ascending(last, |text|)
    ensures AllAscending(text, clauses + [last])
  {
  }

  lemma KeptFromFront(text: string, all: seq<seq<Span>>, front: seq<seq<Span>>, last: seq<Span>)
    requires all != [] && all[..|all| - 1] == front && all[|all| - 1] == last && AllAscending(text, all)
    ensures var spans := ClauseSpans(text, |front|, last);
            && AllAscending(text, front)
            && (spans == [] ==> Kept(text, all) == Kept(text, front))
            && (spans != [] ==> Kept(text, all) == Kept(text, front) + [spans])
  {
  }

  lemma KeptGrows(text: string, clauses: seq<seq<Span>>, last: seq<Span>)
    requires AllAscending(text, clauses) && Ascending(last, |text|)
    ensures AllAscending(text, clauses + [last])
    ensures var spans := ClauseSpans(text, |clauses|, last);
            Kept(text, clauses + [last]) == Kept(text, clauses) + if spans == [] then [] else [spans]
  {
    AllAscendingGrows(text, clauses, last);
    KeptFromFront(text, clauses + [last], clauses, last);
  }

  lemma HoldersGrow(text: string, clauses: seq<seq<Span>>, last: seq<Span>, p: nat)
    requires AllAscending(text, clauses) && Ascending(last, |text|)
    ensures AllAscending(text, clauses + [last])
    ensures Holders(Kept(text, clauses + [last]), p)
            == Holders(Kept(text, clauses), p) + if Holds(ClauseSpans(text, |clauses|, last), p) then 1 else 0
  {
    KeptGrows(text, clauses, last);
    HoldersAppend(Kept(text, clauses), ClauseSpans(text, |clauses|, last), p);
  }

  /** Of these clauses only `owner` may still hold `p` after trimming, and it does if `held`. */
  ghost predicate HeldByOwner(text: string, clauses: seq<seq<Span>>, owner: nat, held: bool, p: nat)
    requires AllAscending(text, clauses)
  {
    forall k :: 0 <= k < |clauses| ==> (Holds(ClauseSpans(text, k, clauses[k]), p) <==> k == owner && held)
  }

  /** If at most the clause `owner` still holds `p` after trimming, at most one feature does. */
  lemma {:induction false} KeptHolders(text: string, clauses: seq<seq<Span>>, owner: nat, held: bool, p: nat)
    requires AllAscending(text, clauses) && HeldByOwner(text, clauses, owner, held, p)
    ensures Holders(Kept(text, clauses), p) == if owner < |clauses| && held then 1 else 0
  {
    if clauses != [] {
      var front, last := clauses[..|clauses| - 1], clauses[|clauses| - 1];
      assert clauses == front + [last];
      KeptHolders(text, front, owner, held, p);
      HoldersGrow(text, front, last, p);
    }
  }

  /**
   * For any tree: every character that is not blank lies in the spans of exactly one feature, except that
   * the characters of the first clause that belong to the leading claim number lie in none.
   */
  lemma EveryCharacterInOneFeature(tops: seq<Node>, clauses: seq<seq<Span>>, p: nat)
    requires var built := WalkTops(EMPTY_TRACE, tops);
             && |clauses| == built.count && p < |TextOf(built.log)| && !IsSpace(TextOf(built.log)[p])
             && forall k :: 0 <= k < |clauses| ==> clauses[k] == SpansOf(built.log, k)
    ensures var built := WalkTops(EMPTY_TRACE, tops);
            var text, owner := TextOf(built.log), Owner(built.log, p);
            && AllAscending(text, clauses)
            && owner.Some? && owner.value < |clauses|
            && Holders(Kept(text, clauses), p) == if Removed(text, owner.value, clauses[owner.value], p) then 0 else 1
  {
    var built := WalkTops(EMPTY_TRACE, tops);
    var text := TextOf(built.log);
    TopsAssign(EMPTY_TRACE, tops);
    forall k | 0 <= k < |clauses|
      ensures Ascending(clauses[k], |text|)
      ensures Holds(clauses[k], p) <==> Owner(built.log, p) == Some(k)
    {
      SpansAscend(built.log, built.count, k);
      SpansPartitionText(built.log, built.count, k, p);
    }
    SpansPartitionText(built.log, built.count, 0, p);
    var owner := Owner(built.log, p).value;
    var held := !Removed(text, owner, clauses[owner], p);
    forall k | 0 <= k < |clauses|
      ensures Holds(ClauseSpans(text, k, clauses[k]), p) <==> k == owner && held
    {
      ClauseSpansMeaning(text, k, clauses[k], p);
    }
    KeptHolders(text, clauses, owner, held, p);
  }

  // ----- building the features

  function Slices(text: string, spans: seq<Span>): (slices: seq<string>)
    requires AllTight(text, spans)
    ensures |slices| == |spans|
  {
    seq(|spans|, i requires 0 <= i < |spans| => assert Tight(text, spans[i]); text[spans[i].start..spans[i].end])
  }

  lemma JoinStartsWithFirst(parts: seq<string>, separator: string)
    requires parts != []
    ensures parts[0] <= Join(parts, separator)
  {
  }

  /** The joined text of a clause is blank exactly when no span is left. */
  lemma BlankOnlyWhenEmpty(text: string, spans: seq<Span>)
    requires AllTight(text, spans)
    ensures var joined := Join(Slices(text, spans), " ");
            Trim(joined, 0, |joined|).None? <==> spans == []
  {
    if spans != [] {
      var slices := Slices(text, spans);
      JoinStartsWithFirst(slices, " ");
      assert Tight(text, spans[0]);
      var joined := Join(slices, " ");
      assert slices[0][0] == text[spans[0].start] && joined[0] == slices[0][0];
    }
  }

  method TrimSpans(text: string, spans: seq<Span>) returns (trimmed: seq<Span>)
    requires Ascending(spans, |text|)
    ensures trimmed == TrimAll(text, spans)
  {
    trimmed := [];
    for i := 0 to |spans|
      invariant Ascending(spans[..i], |text|) && trimmed == TrimAll(text, spans[..i])
    {
      AscendingPrefix(spans, |text|, i + 1);
      assert spans[..i + 1][..i] == spans[..i];
      var piece := Trim(text, spans[i].start, spans[i].end);
      if piece.Some? {
        trimmed := trimmed + [piece.value];
      }
    }
    assert spans[..|spans|] == spans;
  }

  lemma {:induction false} AscendingPrefix(spans: seq<Span>, hi: nat, n: nat)
    requires Ascending(spans, hi) && n <= |spans|
    ensures Ascending(spans[..n], hi)
  {
    if n == |spans| {
      assert spans[..n] == spans;
    } else {
      var last := spans[|spans| - 1];
      assert spans[..|spans| - 1][..n] == spans[..n];
      AscendingPrefix(spans[..|spans| - 1], last.start, n);
      AscendingHigher(spans[..n], last.start, hi);
    }
  }

  /** One proposed feature per kept clause, numbered from 0, its text the trimmed pieces joined by single spaces. */
  ghost predicate FeaturesFrom(number: nat, text: string, kept: seq<seq<Span>>, features: seq<ClaimFeature>) {
    && |features| == |kept|
    && forall i :: 0 <= i < |features| ==>
         && AllTight(text, kept[i])
         && features[i] == ClaimFeature(Decimal(number) + "." + Decimal(i), number,
                                        Join(Slices(text, kept[i]), " "), kept[i], Proposed)
  }

  method TrimClause(text: string, index: nat, spans: seq<Span>) returns (trimmed: seq<Span>)
    requires Ascending(spans, |text|)
    ensures trimmed == ClauseSpans(text, index, spans)
  {
    trimmed := TrimSpans(text, spans);
    if index == 0 && trimmed != [] && trimmed[0].start == 0 {
      var end := LeadingNumber(text);
      if end.Some? {
        trimmed := CutAt(trimmed, end.value);
      }
    }
  }

  lemma FeaturesOneMore(number: nat, text: string, kept: seq<seq<Span>>, features: seq<ClaimFeature>,
                        spans: seq<Span>, feature: ClaimFeature)
    requires FeaturesFrom(number, text, kept, features) && AllTight(text, spans)
    requires feature == ClaimFeature(Decimal(number) + "." + Decimal(|features|), number,
                                     Join(Slices(text, spans), " "), spans, Proposed)
    ensures FeaturesFrom(number, text, kept + [spans], features + [feature])
  {
  }

  /** One clause becomes a feature unless nothing of it is left. */
  method AddFeature(number: nat, text: string, trimmed: seq<Span>, ghost kept: seq<seq<Span>>,
                    features: seq<ClaimFeature>)
    returns (more: seq<ClaimFeature>)
    requires AllTight(text, trimmed) && FeaturesFrom(number, text, kept, features)
    ensures FeaturesFrom(number, text, kept + if trimmed == [] then [] else [trimmed], more)
  {
    BlankOnlyWhenEmpty(text, trimmed);
    var joined := Join(Slices(text, trimmed), " ");
    if Trim(joined, 0, |joined|).None? {
      assert kept + [] == kept;
      return features;
    }
    var feature := ClaimFeature(Decimal(number) + "." + Decimal(|features|), number, joined, trimmed, Proposed);
    FeaturesOneMore(number, text, kept, features, trimmed, feature);
    more := features + [feature];
  }

  method BuildFeatures(number: nat, text: string, clauses: seq<seq<Span>>) returns (features: seq<ClaimFeature>)
    requires AllAscending(text, clauses)
    ensures FeaturesFrom(number, text, Kept(text, clauses), features)
  {
    features := [];
    ghost var done: seq<seq<Span>> := [];
    for index := 0 to |clauses|
      invariant done == clauses[..index] && AllAscending(text, done)
      invariant FeaturesFrom(number, text, Kept(text, done), features)
    {
      TakeOneMore(clauses, index);
      KeptGrows(text, done, clauses[index]);
      var trimmed := TrimClause(text, index, clauses[index]);
      ClauseSpansAreTight(text, index, clauses[index]);
      features := AddFeature(number, text, trimmed, Kept(text, done), features);
      done := done + [clauses[index]];
    }
    assert done == clauses;
  }

  /** All elements below these, in document order. */
  function Descendants(nodes: seq<Node>): seq<Node>
    decreases nodes
  {
    if nodes == [] then [] else [nodes[0]] + Descendants(nodes[0].children) + Descendants(nodes[1..])
  }

  /** Some element refers to claim `x`. */
  predicate RefersTo(nodes: seq<Node>, x: int) {
    exists node :: node in Descendants(nodes) && node.reference.Some? && node.reference.value == x
  }

  function ReferencesIn(nodes: seq<Node>): (refs: set<int>)
    ensures forall x :: x in refs <==> RefersTo(nodes, x)
  {
    set node | node in Descendants(nodes) && node.reference.Some? :: node.reference.value
  }

  /** The top-level clauses among the children of a claim element. */
  function Tops(children: seq<Node>): seq<Node> {
    FlatMap(children, (node: Node) => if node.isClaimText then [node] else [])
  }

  const LONG_FEATURE_CHARS := 400

  datatype Warning = LongFeature(featureId: string, length: nat) | RefersToItself

  function LongHint(feature: ClaimFeature): seq<Warning> {
    if |feature.text| > LONG_FEATURE_CHARS then [LongFeature(feature.featureId, |feature.text|)] else []
  }

  method CollectHints(features: seq<ClaimFeature>) returns (warnings: seq<Warning>)
    ensures warnings == FlatMap(features, LongHint)
  {
    warnings := [];
    ghost var done: seq<ClaimFeature> := [];
    for i := 0 to |features|
      invariant done == features[..i] && warnings == FlatMap(done, LongHint)
    {
      TakeOneMore(features, i);
      FlatMapOneMore(done, features[i], LongHint);
      done := done + [features[i]];
      if |features[i].text| > LONG_FEATURE_CHARS {
        warnings := warnings + [LongFeature(features[i].featureId, |features[i].text|)];
      }
    }
    assert done == features;
  }

  /** The features come from the clause spans of the walk. */
  ghost predicate FeaturesOf(number: nat, tops: seq<Node>, text: string, features: seq<ClaimFeature>) {
    exists clauses: seq<seq<Span>> ::
      && |clauses| == |TopTexts(tops)| && AllAscending(text, clauses)
      && (forall k :: 0 <= k < |clauses| ==> clauses[k] == SpansOf(WalkTops(EMPTY_TRACE, tops).log, k))
      && FeaturesFrom(number, text, Kept(text, clauses), features)
  }

  method ParseText(number: nat, tops: seq<Node>) returns (text: string, features: seq<ClaimFeature>)
    ensures text == TopInOrderText(tops) && FeaturesOf(number, tops, text, features)
  {
    var clauses;
    text, clauses := WalkClaim(tops);
    ghost var built := WalkTops(EMPTY_TRACE, tops);
    TopsKeepText(EMPTY_TRACE, tops);
    TopsGive(EMPTY_TRACE, tops, 0);
    TopsAssign(EMPTY_TRACE, tops);
    forall k | 0 <= k < |clauses|
      ensures Ascending(clauses[k], |text|)
    {
      SpansAscend(built.log, built.count, k);
    }
    features := BuildFeatures(number, text, clauses);
  }

  /** One claim element with all its children. */
  method ParseUsClaim(number: nat, children: seq<Node>) returns (claim: Claim, warnings: seq<Warning>)
    ensures claim.number == number && claim.text == TopInOrderText(Tops(children))
    ensures FeaturesOf(number, Tops(children), claim.text, claim.features)
    ensures StrictlySorted(claim.dependsOn)
    ensures forall x :: x in claim.dependsOn <==> x != number && RefersTo(children, x)
    ensures warnings == FlatMap(claim.features, LongHint) + if RefersTo(children, number) then [RefersToItself] else []
  {
    var text, features := ParseText(number, Tops(children));
    var refs := ReferencesIn(children);
    warnings := CollectHints(features);
    if number in refs {
      refs := refs - {number};
      warnings := warnings + [RefersToItself];
    }
    claim := Claim(number, text, Sorted(refs), features);
  }
}
