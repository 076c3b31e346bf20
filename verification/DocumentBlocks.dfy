/**
 * The paragraph blocks of modules/cases/parser.py: running offsets and numbers over paragraphs, tables and pages.
 * The libraries that open DOCX and PDF files are not part of this model; what they return is the input here.
 */
module DocumentBlocks {
  import opened Basics
  import opened Trimming

  datatype Block = Block(id: string, index: nat, section: string, text: string, offsetStart: nat, offsetEnd: nat)
  datatype Parsed = Parsed(text: string, blocks: seq<Block>, isScanned: bool)

  /** What one block shows and under which section. */
  datatype Piece = Piece(section: string, text: string)
  datatype Paragraph = Paragraph(text: string, style: Option<string>)
  type Table = seq<seq<string>>

  const BODY := "正文"

  // ----- Placing pieces one after the other -----

  function Texts(pieces: seq<Piece>): (texts: seq<string>)
    ensures |texts| == |pieces|
  {
    if pieces == [] then [] else Texts(pieces[..|pieces| - 1]) + [pieces[|pieces| - 1].text]
  }

  function NextOffset(pieces: seq<Piece>): nat {
    if pieces == [] then 0
    else NextOffset(pieces[..|pieces| - 1]) + |pieces[|pieces| - 1].text| + 1
  }

  function BlockAt(piece: Piece, index: nat, start: nat): Block {
    Block("p" + Decimal(index), index, piece.section, piece.text, start, start + |piece.text|)
  }

  function BlocksOf(pieces: seq<Piece>): (blocks: seq<Block>)
    ensures |blocks| == |pieces|
  {
    if pieces == [] then []
    else
      var front := pieces[..|pieces| - 1];
      BlocksOf(front) + [BlockAt(pieces[|pieces| - 1], |pieces|, NextOffset(front))]
  }

  /** The document with these pieces; it counts as scanned when fewer than `enough` characters are left. */
  function Document(pieces: seq<Piece>, enough: nat): Parsed {
    var text := Join(Texts(pieces), "\n");
    Parsed(text, BlocksOf(pieces), |Strip(text)| < enough)
  }

  lemma {:induction false} JoinAppend(parts: seq<string>, separator: string, last: string)
    requires parts != []
    ensures Join(parts + [last], separator) == Join(parts, separator) + separator + last
  {
    if |parts| == 1 {
      assert (parts + [last])[1..] == [last];
    } else {
      assert (parts + [last])[1..] == parts[1..] + [last];
      JoinAppend(parts[1..], separator, last);
      ConcatAssociates(parts[0] + separator, Join(parts[1..], separator) + separator, last);
      ConcatAssociates(parts[0] + separator, Join(parts[1..], separator), separator);
    }
  }

  lemma TextGrows(pieces: seq<Piece>, piece: Piece)
    ensures var before := Join(Texts(pieces), "\n");
            Join(Texts(pieces + [piece]), "\n") == if pieces == [] then piece.text else before + "\n" + piece.text
  {
    assert (pieces + [piece])[..|pieces|] == pieces;
    if pieces == [] {
      assert Texts([piece]) == [piece.text];
    } else {
      JoinAppend(Texts(pieces), "\n", piece.text);
    }
  }

  lemma {:induction false} NextOffsetIsPastText(pieces: seq<Piece>)
    requires pieces != []
    ensures NextOffset(pieces) == |Join(Texts(pieces), "\n")| + 1
  {
    var front, last := pieces[..|pieces| - 1], pieces[|pieces| - 1];
    assert pieces == front + [last];
    TextGrows(front, last);
    if front != [] {
      NextOffsetIsPastText(front);
    }
  }

  /** The block shows exactly its slice of the text. */
  predicate Shows(text: string, block: Block) {
    block.offsetStart <= block.offsetEnd <= |text| && text[block.offsetStart..block.offsetEnd] == block.text
  }

  /** The next block starts right after the one newline that ends this one. */
  predicate Adjacent(text: string, block: Block, next: Block) {
    block.offsetEnd < |text| && text[block.offsetEnd] == '\n' && next.offsetStart == block.offsetEnd + 1
  }

  lemma ShowsInLonger(text: string, more: string, block: Block)
    requires Shows(text, block) && text <= more
    ensures Shows(more, block)
  {
    assert more[..|text|] == text;
    assert more[block.offsetStart..block.offsetEnd] == text[block.offsetStart..block.offsetEnd];
  }

  lemma LastBlockShows(front: seq<Piece>, last: Piece)
    ensures var pieces := front + [last];
            var text, block := Join(Texts(pieces), "\n"), BlocksOf(pieces)[|front|];
            Shows(text, block) && block.offsetEnd == |text|
  {
    var pieces := front + [last];
    assert pieces[..|front|] == front;
    TextGrows(front, last);
    if front != [] {
      NextOffsetIsPastText(front);
    }
  }

  predicate AllShow(text: string, blocks: seq<Block>) {
    forall i :: 0 <= i < |blocks| ==> Shows(text, blocks[i])
  }

  predicate AllAdjacent(text: string, blocks: seq<Block>) {
    forall i :: 0 <= i < |blocks| - 1 ==> Adjacent(text, blocks[i], blocks[i + 1])
  }

  predicate IsBlockOf(block: Block, piece: Piece, index: nat) {
    && block.index == index && block.id == "p" + Decimal(index)
    && block.section == piece.section && block.text == piece.text
  }

  lemma {:induction false} BlocksAreNumbered(pieces: seq<Piece>)
    ensures forall i :: 0 <= i < |pieces| ==> IsBlockOf(BlocksOf(pieces)[i], pieces[i], i + 1)
  {
    if pieces != [] {
      BlocksAreNumbered(pieces[..|pieces| - 1]);
    }
  }

  lemma {:induction false} BlocksShowTheirText(pieces: seq<Piece>)
    ensures AllShow(Join(Texts(pieces), "\n"), BlocksOf(pieces))
  {
    if pieces != [] {
      var front, last := pieces[..|pieces| - 1], pieces[|pieces| - 1];
      assert pieces == front + [last];
      BlocksShowTheirText(front);
      TextGrows(front, last);
      LastBlockShows(front, last);
      var before, text := Join(Texts(front), "\n"), Join(Texts(pieces), "\n");
      forall i | 0 <= i < |front|
        ensures Shows(text, BlocksOf(pieces)[i])
      {
        assert Shows(before, BlocksOf(front)[i]);
        ShowsInLonger(before, text, BlocksOf(front)[i]);
      }
    }
  }

  lemma LastBlockStarts(front: seq<Piece>, last: Piece)
    ensures BlocksOf(front + [last]) == BlocksOf(front) + [BlockAt(last, |front| + 1, NextOffset(front))]
  {
    assert (front + [last])[..|front|] == front;
  }

  lemma {:induction false} BlocksEndAtTheEnd(pieces: seq<Piece>)
    requires pieces != []
    ensures BlocksOf(pieces)[0].offsetStart == 0
    ensures BlocksOf(pieces)[|pieces| - 1].offsetEnd == |Join(Texts(pieces), "\n")|
  {
    var front, last := pieces[..|pieces| - 1], pieces[|pieces| - 1];
    assert pieces == front + [last];
    LastBlockShows(front, last);
    if front != [] {
      BlocksEndAtTheEnd(front);
    }
  }

  lemma {:induction false} BlocksAreAdjacent(pieces: seq<Piece>)
    ensures AllAdjacent(Join(Texts(pieces), "\n"), BlocksOf(pieces))
  {
    if |pieces| > 1 {
      var front, last := pieces[..|pieces| - 1], pieces[|pieces| - 1];
      assert pieces == front + [last];
      var before, text := Join(Texts(front), "\n"), Join(Texts(pieces), "\n");
      BlocksAreAdjacent(front);
      BlocksEndAtTheEnd(front);
      TextGrows(front, last);
      NextOffsetIsPastText(front);
      LastBlockStarts(front, last);
      forall i | 0 <= i < |front|
        ensures Adjacent(text, BlocksOf(pieces)[i], BlocksOf(pieces)[i + 1])
      {
        if i < |front| - 1 {
          assert Adjacent(before, BlocksOf(front)[i], BlocksOf(front)[i + 1]);
          assert text[..|before|] == before;
        }
      }
    }
  }

  /**
   * The blocks are numbered p1, p2, ... without a gap, each one shows its own slice of the text, and together
   * they cover the text from its first to its last character with exactly one newline between two of them.
   */
  lemma BlocksCoverTheText(pieces: seq<Piece>)
    ensures var text, blocks := Join(Texts(pieces), "\n"), BlocksOf(pieces);
            && AllShow(text, blocks) && AllAdjacent(text, blocks)
            && (forall i :: 0 <= i < |blocks| ==> IsBlockOf(blocks[i], pieces[i], i + 1))
            && (blocks == [] ==> text == "")
            && (blocks != [] ==> blocks[0].offsetStart == 0 && blocks[|blocks| - 1].offsetEnd == |text|)
  {
    BlocksShowTheirText(pieces);
    BlocksAreAdjacent(pieces);
    BlocksAreNumbered(pieces);
    if pieces != [] {
      BlocksEndAtTheEnd(pieces);
    }
  }

  /** The list of blocks while a document is read. */
  class BlockList {
    var blocks: seq<Block>
    var chunks: seq<string>
    var currentOffset: nat
    var idx: nat
    ghost var pieces: seq<Piece>

    ghost predicate Valid()
      reads this
    {
      && blocks == BlocksOf(pieces) && chunks == Texts(pieces)
      && currentOffset == NextOffset(pieces) && idx == |pieces| + 1
    }

    constructor ()
      ensures Valid() && pieces == []
    {
      blocks, chunks, currentOffset, idx, pieces := [], [], 0, 1, [];
    }

    method Append(section: string, text: string)
      requires Valid()
      modifies this
      ensures Valid() && pieces == old(pieces) + [Piece(section, text)]
    {
      var offsetStart := currentOffset;
      var offsetEnd := offsetStart + |text|;
      LastBlockStarts(pieces, Piece(section, text));
      OneMoreText(pieces, Piece(section, text));
      blocks := blocks + [Block("p" + Decimal(idx), idx, section, text, offsetStart, offsetEnd)];
      chunks := chunks + [text];
      currentOffset := offsetEnd + 1;
      idx := idx + 1;
      pieces := pieces + [Piece(section, text)];
    }

    method Finish(enough: nat) returns (document: Parsed)
      requires Valid()
      ensures document == Document(pieces, enough)
    {
      var full := Join(chunks, "\n");
      document := Parsed(full, blocks, |Strip(full)| < enough);
    }
  }

  lemma OneMoreText(pieces: seq<Piece>, piece: Piece)
    ensures NextOffset(pieces + [piece]) == NextOffset(pieces) + |piece.text| + 1
    ensures Texts(pieces + [piece]) == Texts(pieces) + [piece.text]
  {
    assert (pieces + [piece])[..|pieces|] == pieces;
  }

  // ----- Lines -----

  /** The position of the first newline, or the length. */
  function FirstNewline(text: string): (n: nat)
    ensures n <= |text|
    ensures '\n' !in text[..n] && (n < |text| ==> text[n] == '\n')
  {
    if text == "" || text[0] == '\n' then 0
    else
      var n := FirstNewline(text[1..]);
      assert text[..n + 1] == [text[0]] + text[1..][..n];
      n + 1
  }

  /** `text.split("\n")` */
  function Lines(text: string): (lines: seq<string>)
    ensures lines != []
    ensures forall line :: line in lines ==> '\n' !in line
    decreases |text|
  {
    var n := FirstNewline(text);
    if n == |text| then
      assert text[..n] == text;
      [text]
    else [text[..n]] + Lines(text[n + 1..])
  }

  lemma {:induction false} FirstNewlineIs(text: string, n: nat)
    requires n <= |text| && '\n' !in text[..n] && (n < |text| ==> text[n] == '\n')
    ensures FirstNewline(text) == n
  {
    if n > 0 {
      assert text[0] == text[..n][0] && text[0] in text[..n];
      assert forall c :: c in text[1..][..n - 1] ==> c in text[..n];
      FirstNewlineIs(text[1..], n - 1);
    }
  }

  lemma {:induction false} LinesOfJoined(parts: seq<string>)
    requires parts != []
    requires forall part :: part in parts ==> '\n' !in part
    ensures Lines(Join(parts, "\n")) == parts
  {
    var text, n := Join(parts, "\n"), |parts[0]|;
    assert parts[0] in parts;
    assert text[..n] == parts[0];
    if |parts| == 1 {
      FirstNewlineIs(text, n);
    } else {
      var rest := Join(parts[1..], "\n");
      assert text == parts[0] + ("\n" + rest);
      FirstNewlineIs(text, n);
      assert text[n + 1..] == rest;
      assert forall part :: part in parts[1..] ==> part in parts;
      LinesOfJoined(parts[1..]);
    }
  }

  /** Not blank, and nothing to trim. */
  predicate Visible(line: string) {
    line != "" && Strip(line) == line && !IsSpace(line[0])
  }

  /** The lines that are not blank, trimmed. */
  function Kept(lines: seq<string>): (kept: seq<string>)
    ensures forall i :: 0 <= i < |kept| ==> Visible(kept[i])
    ensures (forall line :: line in lines ==> '\n' !in line) ==> forall line :: line in kept ==> '\n' !in line
  {
    if lines == [] then []
    else
      var front, line := Kept(lines[..|lines| - 1]), Strip(lines[|lines| - 1]);
      StripIsTight(lines[|lines| - 1]);
      assert lines[|lines| - 1] in lines;
      assert forall l :: l in lines[..|lines| - 1] ==> l in lines;
      if line == "" then front else front + [line]
  }

  lemma StripIsTight(s: string)
    ensures var t := Strip(s);
            && (t != "" ==> !IsSpace(t[0]) && !IsSpace(t[|t| - 1])) && Strip(t) == t
            && forall c :: c in t ==> c in s
  {
    var t := Strip(s);
    if t != "" {
      StripOfTight(t);
    }
  }

  lemma StripOfTight(t: string)
    requires t != "" && !IsSpace(t[0]) && !IsSpace(t[|t| - 1])
    ensures Strip(t) == t
  {
    assert LeadingBlanks(t) == 0 && TrimmedLength(t) == |t|;
  }

  lemma {:induction false} KeptAgain(kept: seq<string>)
    requires forall i :: 0 <= i < |kept| ==> Visible(kept[i])
    ensures Kept(kept) == kept
  {
    if kept != [] {
      assert Visible(kept[|kept| - 1]);
      KeptAgain(kept[..|kept| - 1]);
    }
  }

  /** Texts that start with a visible character. */
  predicate Solid(pieces: seq<Piece>) {
    forall i :: 0 <= i < |pieces| ==> pieces[i].text != "" && !IsSpace(pieces[i].text[0])
  }

  lemma {:induction false} TextsAt(pieces: seq<Piece>, i: nat)
    requires i < |pieces|
    ensures Texts(pieces)[i] == pieces[i].text
  {
    if i < |pieces| - 1 {
      TextsAt(pieces[..|pieces| - 1], i);
    }
  }

  /** A plain-text or DOCX document counts as scanned exactly when it has no block. */
  lemma ScannedMeansNoBlocks(pieces: seq<Piece>)
    requires Solid(pieces)
    ensures Document(pieces, 1).isScanned <==> Document(pieces, 1).blocks == []
  {
    if pieces != [] {
      TextsAt(pieces, 0);
      var text := Join(Texts(pieces), "\n");
      assert text != "" && text[0] == pieces[0].text[0];
      assert LeadingBlanks(text) == 0;
      assert TrimmedLength(text) > 0;
    } else {
      assert Strip("") == "";
    }
  }

  // ----- Plain text -----

  function PiecesOf(section: string, texts: seq<string>): (pieces: seq<Piece>)
    ensures |pieces| == |texts|
    ensures forall i :: 0 <= i < |texts| ==> pieces[i] == Piece(section, texts[i])
  {
    if texts == [] then []
    else PiecesOf(section, texts[..|texts| - 1]) + [Piece(section, texts[|texts| - 1])]
  }

  function PlainPieces(text: string): seq<Piece> {
    PiecesOf(BODY, Kept(Lines(text)))
  }

  method ParseText(text: string) returns (document: Parsed)
    ensures document == Document(PlainPieces(text), 1)
  {
    var lines := Kept(Lines(text));
    var paragraphs := new BlockList();
    for i := 0 to |lines|
      invariant paragraphs.Valid() && fresh(paragraphs)
      invariant paragraphs.pieces == PiecesOf(BODY, lines[..i])
    {
      PiecesOneMore(BODY, lines[..i], lines[i]);
      TakeOneMore(lines, i);
      paragraphs.Append(BODY, lines[i]);
    }
    assert lines[..|lines|] == lines;
    document := paragraphs.Finish(1);
  }

  lemma PiecesOneMore(section: string, texts: seq<string>, text: string)
    ensures PiecesOf(section, texts + [text]) == PiecesOf(section, texts) + [Piece(section, text)]
  {
    assert (texts + [text])[..|texts|] == texts;
  }

  lemma {:induction false} TextsOfPieces(section: string, texts: seq<string>)
    ensures Texts(PiecesOf(section, texts)) == texts
  {
    if texts != [] {
      var front := texts[..|texts| - 1];
      TextsOfPieces(section, front);
      OneMoreText(PiecesOf(section, front), Piece(section, texts[|texts| - 1]));
    }
  }

  lemma KeptLinesRejoined(kept: seq<string>)
    requires forall i :: 0 <= i < |kept| ==> Visible(kept[i])
    requires forall line :: line in kept ==> '\n' !in line
    ensures Kept(Lines(Join(kept, "\n"))) == kept
  {
    if kept == [] {
      assert Lines("") == [""];
      assert [""][..0] == [];
      assert Strip("") == "";
    } else {
      LinesOfJoined(kept);
      KeptAgain(kept);
    }
  }

  /** Parsing the parsed text once more gives the same blocks: the stored text is a normal form. */
  lemma TextParseIsIdempotent(text: string)
    ensures PlainPieces(Document(PlainPieces(text), 1).text) == PlainPieces(text)
  {
    var kept := Kept(Lines(text));
    TextsOfPieces(BODY, kept);
    KeptLinesRejoined(kept);
  }

  lemma TextScannedMeansNoBlocks(text: string)
    ensures Document(PlainPieces(text), 1).isScanned <==> Document(PlainPieces(text), 1).blocks == []
  {
    var kept := Kept(Lines(text));
    assert forall i :: 0 <= i < |kept| ==> Visible(kept[i]);
    ScannedMeansNoBlocks(PlainPieces(text));
  }

  // ----- PDF pages -----

  predicate EndsSentence(line: string) {
    line != "" && line[|line| - 1] in ['.', '。', '；', ';', '：', ':', '！', '!']
  }

  /** The groups that a line with an end mark has closed. */
  function Closed(lines: seq<string>): seq<seq<string>> {
    if lines == [] then []
    else
      var front, last := lines[..|lines| - 1], lines[|lines| - 1];
      if EndsSentence(last) then Closed(front) + [Pending(front) + [last]] else Closed(front)
  }

  /** The lines after the last end mark. */
  function Pending(lines: seq<string>): seq<string> {
    if lines == [] || EndsSentence(lines[|lines| - 1]) then []
    else Pending(lines[..|lines| - 1]) + [lines[|lines| - 1]]
  }

  function Grouped(lines: seq<string>): seq<seq<string>> {
    if Pending(lines) == [] then Closed(lines) else Closed(lines) + [Pending(lines)]
  }

  function Flatten(groups: seq<seq<string>>): seq<string> {
    if groups == [] then [] else Flatten(groups[..|groups| - 1]) + groups[|groups| - 1]
  }

  lemma FlattenAppend(groups: seq<seq<string>>, last: seq<string>)
    ensures Flatten(groups + [last]) == Flatten(groups) + last
  {
    assert (groups + [last])[..|groups|] == groups;
  }

  lemma {:induction false} NothingIsLost(lines: seq<string>)
    ensures Flatten(Closed(lines)) + Pending(lines) == lines
  {
    if lines != [] {
      var front, last := lines[..|lines| - 1], lines[|lines| - 1];
      NothingIsLost(front);
      ConcatAssociates(Flatten(Closed(front)), Pending(front), [last]);
      if EndsSentence(last) {
        FlattenAppend(Closed(front), Pending(front) + [last]);
        assert Closed(lines) == Closed(front) + [Pending(front) + [last]];
      }
    }
  }

  /** No line carries an end mark. */
  predicate Unmarked(lines: seq<string>) {
    forall k :: 0 <= k < |lines| ==> !EndsSentence(lines[k])
  }

  lemma {:induction false} PendingIsUnmarked(lines: seq<string>)
    ensures Unmarked(Pending(lines))
  {
    if lines != [] {
      PendingIsUnmarked(lines[..|lines| - 1]);
    }
  }

  /** Exactly the last line carries an end mark. */
  predicate Sentence(lines: seq<string>) {
    lines != [] && Unmarked(lines[..|lines| - 1]) && EndsSentence(lines[|lines| - 1])
  }

  lemma {:induction false} ClosedAreSentences(lines: seq<string>)
    ensures forall i :: 0 <= i < |Closed(lines)| ==> Sentence(Closed(lines)[i])
  {
    if lines != [] {
      var front, last := lines[..|lines| - 1], lines[|lines| - 1];
      ClosedAreSentences(front);
      if EndsSentence(last) {
        PendingIsUnmarked(front);
        var group := Pending(front) + [last];
        assert group[..|group| - 1] == Pending(front);
        assert Sentence(group);
      }
    }
  }

  /** Grouping keeps every line of the page once and in order and breaks exactly after the end marks. */
  lemma GroupingKeepsEveryLine(lines: seq<string>)
    ensures Flatten(Grouped(lines)) == lines
    ensures var groups := Grouped(lines);
            && (forall i :: 0 <= i < |groups| - 1 ==> Sentence(groups[i]))
            && (groups != [] ==>
                  var last := groups[|groups| - 1];
                  Sentence(last) || (last != [] && Unmarked(last)))
  {
    NothingIsLost(lines);
    ClosedAreSentences(lines);
    PendingIsUnmarked(lines);
    if Pending(lines) != [] {
      FlattenAppend(Closed(lines), Pending(lines));
    }
  }

  function PageSection(number: nat): string {
    "第 " + Decimal(number) + " 页"
  }

  function Spaced(groups: seq<seq<string>>): (texts: seq<string>)
    ensures |texts| == |groups|
    ensures forall i :: 0 <= i < |groups| ==> texts[i] == Join(groups[i], " ")
  {
    if groups == [] then [] else Spaced(groups[..|groups| - 1]) + [Join(groups[|groups| - 1], " ")]
  }

  /** The blocks of one page; no group reaches from one page into the next. */
  function PagePieces(page: string, number: nat): seq<Piece> {
    PiecesOf(PageSection(number), Spaced(Grouped(Kept(Lines(page)))))
  }

  function PdfPieces(pages: seq<string>): seq<Piece> {
    if pages == [] then []
    else PdfPieces(pages[..|pages| - 1]) + PagePieces(pages[|pages| - 1], |pages|)
  }

  /** The pieces of the groups that are closed once `lines` of a page have been read. */
  function ClosedPieces(lines: seq<string>, number: nat): seq<Piece> {
    PiecesOf(PageSection(number), Spaced(Closed(lines)))
  }

  lemma ClosedPiecesGrow(lines: seq<string>, number: nat)
    requires lines != []
    ensures var front, last := lines[..|lines| - 1], lines[|lines| - 1];
            ClosedPieces(lines, number)
            == if EndsSentence(last)
               then ClosedPieces(front, number) + [Piece(PageSection(number), Join(Pending(front) + [last], " "))]
               else ClosedPieces(front, number)
  {
    var front, last := lines[..|lines| - 1], lines[|lines| - 1];
    if EndsSentence(last) {
      PiecesAppend(PageSection(number), Closed(front), Pending(front) + [last]);
    }
  }

  lemma PiecesAppend(section: string, groups: seq<seq<string>>, last: seq<string>)
    ensures PiecesOf(section, Spaced(groups + [last]))
            == PiecesOf(section, Spaced(groups)) + [Piece(section, Join(last, " "))]
  {
    assert (groups + [last])[..|groups|] == groups;
    assert (Spaced(groups) + [Join(last, " ")])[..|groups|] == Spaced(groups);
  }

  lemma PiecesOfPage(page: string, number: nat)
    ensures var lines := Kept(Lines(page));
            PagePieces(page, number)
            == if Pending(lines) == [] then ClosedPieces(lines, number)
               else ClosedPieces(lines, number) + [Piece(PageSection(number), Join(Pending(lines), " "))]
  {
    var lines := Kept(Lines(page));
    if Pending(lines) != [] {
      PiecesAppend(PageSection(number), Closed(lines), Pending(lines));
    }
  }

  /** What the next line of a page adds to the pieces and to the lines that wait for an end mark. */
  lemma PageStep(earlier: seq<Piece>, lines: seq<string>, i: nat, number: nat)
    requires i < |lines|
    ensures var group := Pending(lines[..i]) + [lines[i]];
            var before := earlier + ClosedPieces(lines[..i], number);
            && Pending(lines[..i + 1]) == (if EndsSentence(lines[i]) then [] else group)
            && earlier + ClosedPieces(lines[..i + 1], number)
               == if EndsSentence(lines[i]) then before + [Piece(PageSection(number), Join(group, " "))] else before
  {
    assert lines[..i + 1][..i] == lines[..i];
    ClosedPiecesGrow(lines[..i + 1], number);
    var group := Pending(lines[..i]) + [lines[i]];
    ConcatAssociates(earlier, ClosedPieces(lines[..i], number), [Piece(PageSection(number), Join(group, " "))]);
  }

  lemma PageEnd(earlier: seq<Piece>, page: string, number: nat)
    ensures var lines := Kept(Lines(page));
            var closed := earlier + ClosedPieces(lines, number);
            earlier + PagePieces(page, number)
            == if Pending(lines) == [] then closed
               else closed + [Piece(PageSection(number), Join(Pending(lines), " "))]
  {
    var lines := Kept(Lines(page));
    PiecesOfPage(page, number);
    ConcatAssociates(
      earlier, ClosedPieces(lines, number), [Piece(PageSection(number), Join(Pending(lines), " "))]);
  }

  /** Reads one page and leaves no line of it pending. */
  method ParsePage(page: string, number: nat, paragraphs: BlockList)
    requires paragraphs.Valid()
    modifies paragraphs
    ensures paragraphs.Valid() && paragraphs.pieces == old(paragraphs.pieces) + PagePieces(page, number)
  {
    var lines := Kept(Lines(page));
    var current := GroupLines(lines, number, paragraphs);
    PageEnd(old(paragraphs.pieces), page, number);
    if current != [] {
      paragraphs.Append(PageSection(number), Join(current, " "));
    }
  }

  method GroupLines(lines: seq<string>, number: nat, paragraphs: BlockList) returns (current: seq<string>)
    requires paragraphs.Valid()
    modifies paragraphs
    ensures paragraphs.Valid() && paragraphs.pieces == old(paragraphs.pieces) + ClosedPieces(lines, number)
    ensures current == Pending(lines)
  {
    current := [];
    ghost var earlier := paragraphs.pieces;
    assert earlier + [] == earlier;
    for i := 0 to |lines|
      invariant paragraphs.Valid()
      invariant paragraphs.pieces == earlier + ClosedPieces(lines[..i], number)
      invariant current == Pending(lines[..i])
    {
      PageStep(earlier, lines, i, number);
      current := current + [lines[i]];
      if EndsSentence(lines[i]) {
        paragraphs.Append(PageSection(number), Join(current, " "));
        current := [];
      }
    }
    assert lines[..|lines|] == lines;
  }

  method ParsePdf(pages: seq<string>) returns (document: Parsed)
    ensures document == Document(PdfPieces(pages), 50)
  {
    var paragraphs := new BlockList();
    for p := 0 to |pages|
      invariant paragraphs.Valid() && fresh(paragraphs)
      invariant paragraphs.pieces == PdfPieces(pages[..p])
    {
      assert pages[..p + 1][..p] == pages[..p];
      ParsePage(pages[p], p + 1, paragraphs);
    }
    assert pages[..|pages|] == pages;
    document := paragraphs.Finish(50);
  }

  /** The groups of all pages, page by page. */
  function PageGroups(pages: seq<string>): seq<seq<string>> {
    if pages == [] then []
    else PageGroups(pages[..|pages| - 1]) + Grouped(Kept(Lines(pages[|pages| - 1])))
  }

  function PageLines(pages: seq<string>): seq<string> {
    if pages == [] then [] else PageLines(pages[..|pages| - 1]) + Kept(Lines(pages[|pages| - 1]))
  }

  lemma {:induction false} FlattenConcat(a: seq<seq<string>>, b: seq<seq<string>>)
    ensures Flatten(a + b) == Flatten(a) + Flatten(b)
  {
    if b == [] {
      assert a + b == a;
    } else {
      var front, last := b[..|b| - 1], b[|b| - 1];
      assert a + b == (a + front) + [last] && b == front + [last];
      FlattenConcat(a, front);
      FlattenAppend(a + front, last);
      FlattenAppend(front, last);
      ConcatAssociates(Flatten(a), Flatten(front), last);
    }
  }

  /** Every line of every page that is not blank is in one group, once and in order ... */
  lemma {:induction false} PdfKeepsEveryLine(pages: seq<string>)
    ensures Flatten(PageGroups(pages)) == PageLines(pages)
  {
    if pages != [] {
      var front, lines := pages[..|pages| - 1], Kept(Lines(pages[|pages| - 1]));
      PdfKeepsEveryLine(front);
      FlattenConcat(PageGroups(front), Grouped(lines));
      GroupingKeepsEveryLine(lines);
    }
  }

  /** ... and block `i` shows group `i`, its lines joined by blanks. */
  lemma {:induction false} PdfBlocksShowGroups(pages: seq<string>)
    ensures Texts(PdfPieces(pages)) == Spaced(PageGroups(pages))
  {
    if pages != [] {
      var front, last := pages[..|pages| - 1], pages[|pages| - 1];
      var groups := Grouped(Kept(Lines(last)));
      PdfBlocksShowGroups(front);
      TextsConcat(PdfPieces(front), PagePieces(last, |pages|));
      TextsOfPieces(PageSection(|pages|), Spaced(groups));
      SpacedConcat(PageGroups(front), groups);
    }
  }

  lemma {:induction false} TextsConcat(a: seq<Piece>, b: seq<Piece>)
    ensures Texts(a + b) == Texts(a) + Texts(b)
  {
    if b == [] {
      assert a + b == a;
    } else {
      var front, last := b[..|b| - 1], b[|b| - 1];
      assert a + b == (a + front) + [last] && b == front + [last];
      TextsConcat(a, front);
      OneMoreText(a + front, last);
      ConcatAssociates(Texts(a), Texts(front), [last.text]);
    }
  }

  lemma SpacedConcat(a: seq<seq<string>>, b: seq<seq<string>>)
    ensures Spaced(a + b) == Spaced(a) + Spaced(b)
  {
  }

  // ----- DOCX -----

  predicate IsHeading(paragraph: Paragraph) {
    paragraph.style.Some?
    && (Contains(Lower(paragraph.style.value), "heading") || Contains(Lower(paragraph.style.value), "title"))
  }

  function FirstCharacters(s: string, n: nat): string {
    if |s| <= n then s else s[..n]
  }

  /** The section in force after these paragraphs. */
  function SectionAfter(paragraphs: seq<Paragraph>): string {
    if paragraphs == [] then BODY
    else
      var last := paragraphs[|paragraphs| - 1];
      if Strip(last.text) != "" && IsHeading(last) then FirstCharacters(Strip(last.text), 64)
      else SectionAfter(paragraphs[..|paragraphs| - 1])
  }

  function ParagraphPieces(paragraphs: seq<Paragraph>): seq<Piece> {
    if paragraphs == [] then []
    else
      var front, text := ParagraphPieces(paragraphs[..|paragraphs| - 1]), Strip(paragraphs[|paragraphs| - 1].text);
      if text == "" then front else front + [Piece(SectionAfter(paragraphs), text)]
  }

  /** A paragraph stands under the nearest heading at or before it, or in the body when there is none. */
  lemma {:induction false} SectionIsNearestHeading(paragraphs: seq<Paragraph>, heading: nat)
    requires heading < |paragraphs|
    requires Strip(paragraphs[heading].text) != "" && IsHeading(paragraphs[heading])
    requires forall k :: heading < k < |paragraphs| ==> Strip(paragraphs[k].text) == "" || !IsHeading(paragraphs[k])
    ensures SectionAfter(paragraphs) == FirstCharacters(Strip(paragraphs[heading].text), 64)
  {
    if heading < |paragraphs| - 1 {
      assert Strip(paragraphs[|paragraphs| - 1].text) == "" || !IsHeading(paragraphs[|paragraphs| - 1]);
      SectionIsNearestHeading(paragraphs[..|paragraphs| - 1], heading);
    }
  }

  lemma {:induction false} NoHeadingMeansBody(paragraphs: seq<Paragraph>)
    requires forall k :: 0 <= k < |paragraphs| ==> Strip(paragraphs[k].text) == "" || !IsHeading(paragraphs[k])
    ensures SectionAfter(paragraphs) == BODY
  {
    if paragraphs != [] {
      assert Strip(paragraphs[|paragraphs| - 1].text) == "" || !IsHeading(paragraphs[|paragraphs| - 1]);
      NoHeadingMeansBody(paragraphs[..|paragraphs| - 1]);
    }
  }

  /** The cells of a row that are not blank, joined; rows without any are dropped. */
  function RowTexts(table: Table): seq<string> {
    if table == [] then []
    else
      var front, row := RowTexts(table[..|table| - 1]), Join(Kept(table[|table| - 1]), " | ");
      if row == "" then front else front + [row]
  }

  function TableText(number: nat, rows: seq<string>): string {
    "[表格 " + Decimal(number) + "]\n" + Join(rows, "\n")
  }

  function TableSection(number: nat): string {
    "表格 " + Decimal(number)
  }

  /** Tables count from one, those without text included. */
  function TablePieces(tables: seq<Table>): seq<Piece> {
    if tables == [] then []
    else
      var front, rows := TablePieces(tables[..|tables| - 1]), RowTexts(tables[|tables| - 1]);
      if rows == [] then front
      else front + [Piece(TableSection(|tables|), TableText(|tables|, rows))]
  }

  method AppendParagraphs(paragraphs: seq<Paragraph>, list: BlockList)
    requires list.Valid() && list.pieces == []
    modifies list
    ensures list.Valid() && list.pieces == ParagraphPieces(paragraphs)
  {
    var currentSection := BODY;
    for i := 0 to |paragraphs|
      invariant list.Valid()
      invariant list.pieces == ParagraphPieces(paragraphs[..i])
      invariant currentSection == SectionAfter(paragraphs[..i])
    {
      assert paragraphs[..i + 1][..i] == paragraphs[..i];
      var text := Strip(paragraphs[i].text);
      if text == "" { continue; }
      if IsHeading(paragraphs[i]) {
        currentSection := FirstCharacters(text, 64);
      }
      list.Append(currentSection, text);
    }
    assert paragraphs[..|paragraphs|] == paragraphs;
  }

  method AppendTables(tables: seq<Table>, list: BlockList)
    requires list.Valid()
    modifies list
    ensures list.Valid() && list.pieces == old(list.pieces) + TablePieces(tables)
  {
    ghost var earlier := list.pieces;
    assert earlier + [] == earlier;
    for t := 0 to |tables|
      invariant list.Valid()
      invariant list.pieces == earlier + TablePieces(tables[..t])
    {
      assert tables[..t + 1][..t] == tables[..t];
      var rows := CollectRows(tables[t]);
      if rows != [] {
        list.Append(TableSection(t + 1), TableText(t + 1, rows));
      }
    }
    assert tables[..|tables|] == tables;
  }

  method ParseDocx(paragraphs: seq<Paragraph>, tables: seq<Table>) returns (document: Parsed)
    ensures document == Document(ParagraphPieces(paragraphs) + TablePieces(tables), 1)
  {
    var list := new BlockList();
    AppendParagraphs(paragraphs, list);
    AppendTables(tables, list);
    document := list.Finish(1);
  }

  method CollectRows(table: Table) returns (rows: seq<string>)
    ensures rows == RowTexts(table)
  {
    rows := [];
    for r := 0 to |table|
      invariant rows == RowTexts(table[..r])
    {
      assert table[..r + 1][..r] == table[..r];
      var row := Join(Kept(table[r]), " | ");
      if row != "" {
        rows := rows + [row];
      }
    }
    assert table[..|table|] == table;
  }

  lemma {:induction false} DocxPiecesAreSolid(paragraphs: seq<Paragraph>, tables: seq<Table>)
    ensures Solid(ParagraphPieces(paragraphs)) && Solid(TablePieces(tables))
  {
    if paragraphs != [] {
      StripIsTight(paragraphs[|paragraphs| - 1].text);
      DocxPiecesAreSolid(paragraphs[..|paragraphs| - 1], tables);
    } else if tables != [] {
      DocxPiecesAreSolid(paragraphs, tables[..|tables| - 1]);
      assert TableText(|tables|, RowTexts(tables[|tables| - 1]))[0] == '[';
    }
  }

  /** A DOCX document counts as scanned exactly when neither a paragraph nor a table gave a block. */
  lemma DocxScannedMeansNoBlocks(paragraphs: seq<Paragraph>, tables: seq<Table>)
    ensures var document := Document(ParagraphPieces(paragraphs) + TablePieces(tables), 1);
            document.isScanned <==> document.blocks == []
  {
    DocxPiecesAreSolid(paragraphs, tables);
    ScannedMeansNoBlocks(ParagraphPieces(paragraphs) + TablePieces(tables));
  }
}
