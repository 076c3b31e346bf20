/** Trimming a slice of a text at both ends, and what a list of trimmed spans covers. */
module Trimming {
  import opened Basics
  import opened ClaimTree

  /** The characters `str.strip` removes and `\s` matches. */
  predicate IsSpace(c: char) {
    || '\t' <= c <= '\r' || '\U{1C}' <= c <= ' '
    || c == '\U{85}' || c == '\U{A0}' || c == '\U{1680}' || '\U{2000}' <= c <= '\U{200A}'
    || c == '\U{2028}' || c == '\U{2029}' || c == '\U{202F}' || c == '\U{205F}' || c == '\U{3000}'
  }

  ghost predicate Blank(text: string, a: nat, b: nat)
    requires b <= |text|
  {
    forall p :: a <= p < b ==> IsSpace(text[p])
  }

  /** The first position from `p` on, before `end`, that is not blank; `end` when there is none. */
  function SkipBlanks(text: string, p: nat, end: nat): (q: nat)
    requires p <= end <= |text|
    ensures p <= q <= end && Blank(text, p, q) && (q < end ==> !IsSpace(text[q]))
    decreases end - p
  {
    if p == end || !IsSpace(text[p]) then p else SkipBlanks(text, p + 1, end)
  }

  /** How many characters `lstrip` removes. */
  function LeadingBlanks(s: string): (n: nat)
    ensures n <= |s| && Blank(s, 0, n) && (n < |s| ==> !IsSpace(s[n]))
  {
    if s == "" || !IsSpace(s[0]) then 0
    else
      var n := LeadingBlanks(s[1..]);
      assert forall p :: 1 <= p < |s| ==> s[p] == s[1..][p - 1];
      n + 1
  }

  /** How many characters `rstrip` leaves. */
  function TrimmedLength(s: string): (n: nat)
    ensures n <= |s| && Blank(s, n, |s|) && (n > 0 ==> !IsSpace(s[n - 1]))
  {
    if s == "" || !IsSpace(s[|s| - 1]) then |s| else TrimmedLength(s[..|s| - 1])
  }

  /** `s.strip()` */
  function Strip(s: string): string {
    var left, right := LeadingBlanks(s), TrimmedLength(s);
    if right <= left then "" else s[left..right]
  }

  /** A non-empty span that neither end could be trimmed from. */
  predicate Tight(text: string, span: Span) {
    span.start < span.end <= |text| && !IsSpace(text[span.start]) && !IsSpace(text[span.end - 1])
  }

  /** The slice [start, end) without the blanks at its edges; None when it is all blank. */
  function Trim(text: string, start: nat, end: nat): (r: Option<Span>)
    requires start <= end <= |text|
    ensures r.None? ==> Blank(text, start, end)
    ensures r.Some? ==>
              && start <= r.value.start && r.value.end <= end && Tight(text, r.value)
              && Blank(text, start, r.value.start) && Blank(text, r.value.end, end)
  {
    var piece := text[start..end];
    var left, right := LeadingBlanks(piece), TrimmedLength(piece);
    assert forall p :: start <= p < end ==> text[p] == piece[p - start];
    if right <= left then None else Some(Span(start + left, start + right))
  }

  /** `Trim` finds the one tight span that leaves only blanks out. */
  lemma TrimIsUnique(text: string, start: nat, end: nat, span: Span)
    requires start <= span.start && span.end <= end <= |text| && Tight(text, span)
    requires Blank(text, start, span.start) && Blank(text, span.end, end)
    ensures Trim(text, start, end) == Some(span)
  {
    assert !IsSpace(text[span.start]) && !IsSpace(text[span.end - 1]);
    var r := Trim(text, start, end).value;
    assert !IsSpace(text[r.start]) && !IsSpace(text[r.end - 1]);
  }

  /** [lo, hi) is blanks, a tight span, blanks, a tight span, and so on, ending with blanks. */
  ghost predicate Tiles(text: string, lo: nat, hi: nat, spans: seq<Span>)
    requires hi <= |text|
    decreases |spans|
  {
    if spans == [] then lo <= hi && Blank(text, lo, hi)
    else
      var last := spans[|spans| - 1];
      && last.end <= hi && Tight(text, last) && Blank(text, last.end, hi)
      && Tiles(text, lo, last.start, spans[..|spans| - 1])
  }

  lemma TilesSkip(text: string, lo: nat, a: nat, b: nat, spans: seq<Span>)
    requires a <= b <= |text| && Tiles(text, lo, a, spans) && Blank(text, a, b)
    ensures Tiles(text, lo, b, spans)
  {
  }

  lemma TilesAppend(text: string, lo: nat, a: nat, b: nat, spans: seq<Span>, piece: Span)
    requires a <= b <= |text| && Tiles(text, lo, a, spans) && Trim(text, a, b) == Some(piece)
    ensures Tiles(text, lo, b, spans + [piece])
  {
    TilesSkip(text, lo, a, piece.start, spans);
    assert (spans + [piece])[..|spans|] == spans;
  }

  /** Replacing the last span by one that also reaches over the next piece. */
  lemma TilesExtendLast(text: string, lo: nat, a: nat, b: nat, spans: seq<Span>, piece: Span)
    requires a <= b <= |text| && spans != [] && Tiles(text, lo, a, spans) && Trim(text, a, b) == Some(piece)
    ensures Tiles(text, lo, b, spans[..|spans| - 1] + [Span(spans[|spans| - 1].start, piece.end)])
  {
    var front, extended := spans[..|spans| - 1], Span(spans[|spans| - 1].start, piece.end);
    assert (front + [extended])[..|front|] == front;
  }

  predicate Inside(span: Span, p: nat) {
    span.start <= p < span.end
  }

  /** What tiling means: every span is tight and inside the range ... */
  lemma {:induction false} TileIsTight(text: string, lo: nat, hi: nat, spans: seq<Span>, k: nat)
    requires hi <= |text| && Tiles(text, lo, hi, spans) && k < |spans|
    ensures lo <= spans[k].start && spans[k].end <= hi && Tight(text, spans[k])
    decreases |spans|
  {
    var front, last := spans[..|spans| - 1], spans[|spans| - 1];
    if k < |front| {
      TileIsTight(text, lo, last.start, front, k);
    } else {
      TilesFitRange(text, lo, last.start, front);
    }
  }

  lemma {:induction false} TilesFitRange(text: string, lo: nat, hi: nat, spans: seq<Span>)
    requires hi <= |text| && Tiles(text, lo, hi, spans)
    ensures lo <= hi
    decreases |spans|
  {
    if spans != [] {
      TilesFitRange(text, lo, spans[|spans| - 1].start, spans[..|spans| - 1]);
    }
  }

  /** ... the spans are in order and disjoint ... */
  lemma {:induction false} TilesInOrder(text: string, lo: nat, hi: nat, spans: seq<Span>, j: nat, k: nat)
    requires hi <= |text| && Tiles(text, lo, hi, spans) && j < k < |spans|
    ensures spans[j].end <= spans[k].start
    decreases |spans|
  {
    var front, last := spans[..|spans| - 1], spans[|spans| - 1];
    if k < |front| {
      TilesInOrder(text, lo, last.start, front, j, k);
    } else {
      TileIsTight(text, lo, last.start, front, j);
    }
  }

  /** ... and every character that is not blank lies in one of them. */
  lemma {:induction false} TileOf(text: string, lo: nat, hi: nat, spans: seq<Span>, p: nat) returns (k: nat)
    requires lo <= p < hi <= |text| && Tiles(text, lo, hi, spans) && !IsSpace(text[p])
    ensures k < |spans| && Inside(spans[k], p)
    decreases |spans|
  {
    k := |spans| - 1;
    if p < spans[k].start {
      k := TileOf(text, lo, spans[k].start, spans[..k], p);
    }
  }

  lemma TilesAreDisjoint(text: string, lo: nat, hi: nat, spans: seq<Span>, j: nat, k: nat, p: nat)
    requires hi <= |text| && Tiles(text, lo, hi, spans) && j < |spans| && k < |spans|
    requires Inside(spans[j], p) && Inside(spans[k], p)
    ensures j == k
  {
    if j < k {
      TilesInOrder(text, lo, hi, spans, j, k);
    } else if k < j {
      TilesInOrder(text, lo, hi, spans, k, j);
    }
  }

  ghost predicate OnlyIn(spans: seq<Span>, k: nat, p: nat) {
    && k < |spans| && Inside(spans[k], p)
    && forall j :: 0 <= j < |spans| && Inside(spans[j], p) ==> j == k
  }

  /** Every character of [lo, hi) that is not blank lies in exactly one span. */
  lemma EveryCharacterInOneSpan(text: string, lo: nat, hi: nat, spans: seq<Span>, p: nat) returns (k: nat)
    requires lo <= p < hi <= |text| && !IsSpace(text[p]) && Tiles(text, lo, hi, spans)
    ensures OnlyIn(spans, k, p)
  {
    k := TileOf(text, lo, hi, spans, p);
    forall j | 0 <= j < |spans| && Inside(spans[j], p)
      ensures j == k
    {
      TilesAreDisjoint(text, lo, hi, spans, j, k, p);
    }
  }
}
