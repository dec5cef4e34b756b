/**
 * Title resolution: a usable metadata title wins; otherwise the lines of the
 * first page's upper half whose first span has the largest span size there
 * are joined with spaces; otherwise the title is "Untitled Document".
 */
module Title {
  import opened Wrappers
  import opened Text
  import opened Layout

  const Fallback := "Untitled Document"

  /** The metadata title is present, non-empty, and once stripped longer than 5 and not an "untitled" placeholder. */
  predicate MetadataUsable(t: Option<string>) {
    && t.Some? && t.value != []
    && var s := Strip(t.value);
       s != [] && |s| > 5 && !StartsWith(ToLower(s), "untitled")
  }

  /** A text block whose box ends above half the page height. */
  predicate InUpperHalf(b: Block, height: real) {
    b.isText && b.bbox.y1 < height / 2.0
  }

  /** The lines of the upper-half text blocks, in order. */
  function UpperLines(blocks: seq<Block>, height: real): seq<RawLine> {
    if blocks == [] then []
    else
      var b := blocks[|blocks| - 1];
      UpperLines(blocks[..|blocks| - 1], height) + (if InUpperHalf(b, height) then b.lines else [])
  }

  /** The spans of the lines, in order. */
  function SpansOf(lines: seq<RawLine>): seq<RawSpan> {
    if lines == [] then [] else SpansOf(lines[..|lines| - 1]) + lines[|lines| - 1].spans
  }

  /** The running maximum of the span sizes, starting from 0. */
  function Largest(spans: seq<RawSpan>): int {
    if spans == [] then 0
    else
      var m := Largest(spans[..|spans| - 1]);
      var x := spans[|spans| - 1];
      if x.size > m then x.size else m
  }

  /** The running maximum is at least 0, no span exceeds it, and it is 0 or some span's size. */
  lemma {:induction false} LargestIsMax(spans: seq<RawSpan>)
    ensures Largest(spans) >= 0
    ensures forall k :: 0 <= k < |spans| ==> spans[k].size <= Largest(spans)
    ensures Largest(spans) == 0 || exists k :: 0 <= k < |spans| && spans[k].size == Largest(spans)
  {
    if spans != [] {
      var init := spans[..|spans| - 1];
      LargestIsMax(init);
      if Largest(spans) != 0 && Largest(spans) == Largest(init) {
        var k :| 0 <= k < |init| && init[k].size == Largest(init);
        assert spans[k] == init[k];
      }
    }
  }

  /** The concatenated span texts of a line, stripped. */
  function LineText(l: RawLine): string {
    Strip(Concat(seq(|l.spans|, k requires 0 <= k < |l.spans| => l.spans[k].text)))
  }

  /** The line's first span has size `size`. */
  predicate LeadsWith(l: RawLine, size: int) {
    l.spans != [] && l.spans[0].size == size
  }

  /** The texts of the lines that lead with `size`, in order. */
  function Candidates(lines: seq<RawLine>, size: int): (c: seq<string>)
    ensures |c| <= |lines|
  {
    if lines == [] then []
    else
      var l := lines[|lines| - 1];
      Candidates(lines[..|lines| - 1], size) + (if LeadsWith(l, size) then [LineText(l)] else [])
  }

  /** The title from the first page's layout, if any line qualifies. */
  function LayoutTitle(page: Page): Option<string> {
    var lines := UpperLines(page.blocks, page.height);
    var c := Candidates(lines, Largest(SpansOf(lines)));
    if c == [] then None else Some(JoinSpace(c))
  }

  function DocumentTitle(doc: Document): string {
    if MetadataUsable(doc.metadataTitle) then Strip(doc.metadataTitle.value)
    else if doc.pages == [] then Fallback
    else match LayoutTitle(doc.pages[0])
      case Some(t) => t
      case None => Fallback
  }

  lemma UpperLinesSnoc(blocks: seq<Block>, b: Block, height: real)
    ensures UpperLines(blocks + [b], height) == UpperLines(blocks, height) + (if InUpperHalf(b, height) then b.lines else [])
  {
    assert (blocks + [b])[..|blocks|] == blocks;
  }

  lemma SpansOfSnoc(lines: seq<RawLine>, l: RawLine)
    ensures SpansOf(lines + [l]) == SpansOf(lines) + l.spans
  {
    assert (lines + [l])[..|lines|] == lines;
  }

  lemma LargestSnoc(spans: seq<RawSpan>, x: RawSpan)
    ensures Largest(spans + [x]) == if x.size > Largest(spans) then x.size else Largest(spans)
  {
    assert (spans + [x])[..|spans|] == spans;
  }

  lemma CandidatesSnoc(lines: seq<RawLine>, l: RawLine, size: int)
    ensures Candidates(lines + [l], size) == Candidates(lines, size) + (if LeadsWith(l, size) then [LineText(l)] else [])
  {
    assert (lines + [l])[..|lines|] == lines;
  }

  // ---------------------------------------------------------------------------
  // `_get_document_title`.

  /** Raises `largest` to each span size that exceeds it. */
  method RaiseOverSpans(largest0: int, ghost before: seq<RawSpan>, spans: seq<RawSpan>) returns (largest: int)
    requires largest0 == Largest(before)
    ensures largest == Largest(before + spans)
  {
    largest := largest0;
    ghost var seen := before;
    for k := 0 to |spans|
      invariant seen == before + spans[..k]
      invariant largest == Largest(seen)
    {
      LargestSnoc(seen, spans[k]);
      if spans[k].size > largest {
        largest := spans[k].size;
      }
      seen := seen + [spans[k]];
    }
    assert spans[..|spans|] == spans;
  }

  method RaiseOverLines(largest0: int, ghost done: seq<RawLine>, lines: seq<RawLine>) returns (largest: int)
    requires largest0 == Largest(SpansOf(done))
    ensures largest == Largest(SpansOf(done + lines))
  {
    largest := largest0;
    ghost var seen := done;
    for j := 0 to |lines|
      invariant seen == done + lines[..j]
      invariant largest == Largest(SpansOf(seen))
    {
      var line := lines[j];
      SpansOfSnoc(seen, line);
      largest := RaiseOverSpans(largest, SpansOf(seen), line.spans);
      assert lines[..j + 1] == lines[..j] + [line];
      seen := seen + [line];
    }
    assert lines[..|lines|] == lines;
  }

  /** The largest span size in the upper half, starting from 0. */
  method LargestUpperSize(blocks: seq<Block>, height: real) returns (largest: int)
    ensures largest == Largest(SpansOf(UpperLines(blocks, height)))
  {
    largest := 0;
    ghost var seen: seq<Block> := [];
    for i := 0 to |blocks|
      invariant seen == blocks[..i]
      invariant largest == Largest(SpansOf(UpperLines(seen, height)))
    {
      var block := blocks[i];
      UpperLinesSnoc(seen, block, height);
      if InUpperHalf(block, height) {
        largest := RaiseOverLines(largest, UpperLines(seen, height), block.lines);
      } else {
        assert UpperLines(seen, height) + [] == UpperLines(seen, height);
      }
      seen := seen + [block];
    }
    assert blocks[..|blocks|] == blocks;
  }

  method CollectFromLines(candidates0: seq<string>, ghost done: seq<RawLine>, lines: seq<RawLine>, largest: int)
    returns (candidates: seq<string>)
    requires candidates0 == Candidates(done, largest)
    ensures candidates == Candidates(done + lines, largest)
  {
    candidates := candidates0;
    ghost var seen := done;
    for j := 0 to |lines|
      invariant seen == done + lines[..j]
      invariant candidates == Candidates(seen, largest)
    {
      var line := lines[j];
      CandidatesSnoc(seen, line, largest);
      if line.spans != [] && line.spans[0].size == largest {
        candidates := candidates + [LineText(line)];
      }
      seen := seen + [line];
    }
    assert lines[..|lines|] == lines;
  }

  /** The texts of the upper-half lines whose first span has size `largest`. */
  method CollectCandidates(blocks: seq<Block>, height: real, largest: int) returns (candidates: seq<string>)
    ensures candidates == Candidates(UpperLines(blocks, height), largest)
  {
    candidates := [];
    ghost var seen: seq<Block> := [];
    for i := 0 to |blocks|
      invariant seen == blocks[..i]
      invariant candidates == Candidates(UpperLines(seen, height), largest)
    {
      var block := blocks[i];
      UpperLinesSnoc(seen, block, height);
      if InUpperHalf(block, height) {
        candidates := CollectFromLines(candidates, UpperLines(seen, height), block.lines, largest);
      } else {
        assert UpperLines(seen, height) + [] == UpperLines(seen, height);
      }
      seen := seen + [block];
    }
    assert blocks[..|blocks|] == blocks;
  }

  method GetDocumentTitle(doc: Document) returns (title: string)
    ensures title == DocumentTitle(doc)
  {
    if doc.metadataTitle.Some? && doc.metadataTitle.value != [] {
      title := Strip(doc.metadataTitle.value);
      if title != [] && |title| > 5 && !StartsWith(ToLower(title), "untitled") {
        return title;
      }
    }
    if |doc.pages| > 0 {
      var page := doc.pages[0];
      var largest := LargestUpperSize(page.blocks, page.height);
      var candidates := CollectCandidates(page.blocks, page.height, largest);
      if candidates != [] {
        return JoinSpace(candidates);
      }
    }
    return Fallback;
  }

  // ---------------------------------------------------------------------------
  // What the title is.

  /** The lines of `lines` that lead with `size`, in order. */
  function Leading(lines: seq<RawLine>, size: int): (q: seq<RawLine>)
    ensures forall l :: l in q <==> l in lines && LeadsWith(l, size)
  {
    if lines == [] then []
    else
      var init := lines[..|lines| - 1];
      var l := lines[|lines| - 1];
      assert forall x :: x in lines <==> x in init || x == l;
      Leading(init, size) + (if LeadsWith(l, size) then [l] else [])
  }

  function Texts(lines: seq<RawLine>): (ts: seq<string>)
    ensures |ts| == |lines| && forall k :: 0 <= k < |lines| ==> ts[k] == LineText(lines[k])
  {
    seq(|lines|, k requires 0 <= k < |lines| => LineText(lines[k]))
  }

  lemma TextsSnoc(lines: seq<RawLine>, l: RawLine)
    ensures Texts(lines + [l]) == Texts(lines) + [LineText(l)]
  {
  }

  /** The candidates are the stripped texts of exactly the lines that lead with the size, in order. */
  lemma {:induction false} CandidatesAreLeadingLines(lines: seq<RawLine>, size: int)
    ensures Candidates(lines, size) == Texts(Leading(lines, size))
  {
    if lines != [] {
      var init := lines[..|lines| - 1];
      var l := lines[|lines| - 1];
      CandidatesAreLeadingLines(init, size);
      if LeadsWith(l, size) {
        TextsSnoc(Leading(init, size), l);
      } else {
        assert Leading(lines, size) == Leading(init, size);
      }
    }
  }

  /** A usable metadata title is returned stripped, whatever the pages hold. */
  lemma MetadataTitleWins(doc: Document)
    requires MetadataUsable(doc.metadataTitle)
    ensures DocumentTitle(doc) == Strip(doc.metadataTitle.value)
    ensures |DocumentTitle(doc)| > 5 && !StartsWith(ToLower(DocumentTitle(doc)), "untitled")
  {
  }

  /**
   * Without a usable metadata title the title is the fallback, or the
   * space-joined texts of the upper-half lines whose first span has a size no
   * upper-half span exceeds.
   */
  lemma LayoutTitleFacts(doc: Document)
    requires !MetadataUsable(doc.metadataTitle)
    ensures doc.pages == [] ==> DocumentTitle(doc) == Fallback
    ensures doc.pages != [] ==>
      var page := doc.pages[0];
      var lines := UpperLines(page.blocks, page.height);
      var largest := Largest(SpansOf(lines));
      && (forall k :: 0 <= k < |SpansOf(lines)| ==> SpansOf(lines)[k].size <= largest)
      && DocumentTitle(doc) == (if Leading(lines, largest) == [] then Fallback else JoinSpace(Texts(Leading(lines, largest))))
  {
    if doc.pages != [] {
      var page := doc.pages[0];
      var lines := UpperLines(page.blocks, page.height);
      LargestIsMax(SpansOf(lines));
      CandidatesAreLeadingLines(lines, Largest(SpansOf(lines)));
    }
  }

  /** A line made of one span. */
  function OneSpanLine(text: string, size: int, box: Rect): RawLine {
    RawLine([RawSpan(text, size, "f", 0, 0, box)])
  }

  lemma {:induction false} OneSpanLinesSpans(ls: seq<RawLine>)
    requires forall k :: 0 <= k < |ls| ==> |ls[k].spans| == 1
    ensures |SpansOf(ls)| == |ls| && forall k :: 0 <= k < |ls| ==> SpansOf(ls)[k] == ls[k].spans[0]
  {
    if ls != [] {
      OneSpanLinesSpans(ls[..|ls| - 1]);
    }
  }

  /** Lines of sizes 24, 24, 12, 12, 10, one span each. */
  function SampleLines(t1: string, t2: string, t3: string, t4: string, t5: string, box: Rect): seq<RawLine> {
    [OneSpanLine(t1, 24, box), OneSpanLine(t2, 24, box), OneSpanLine(t3, 12, box),
     OneSpanLine(t4, 12, box), OneSpanLine(t5, 10, box)]
  }

  lemma OneSpanLineText(t: string, size: int, box: Rect)
    ensures LineText(OneSpanLine(t, size, box)) == Strip(t)
  {
    var l := OneSpanLine(t, size, box);
    assert seq(|l.spans|, k requires 0 <= k < |l.spans| => l.spans[k].text) == [t];
    assert Concat([t]) == t;
  }

  /** When some span has a size no span exceeds, and that size is not negative, it is the largest size. */
  lemma LargestIsAttained(spans: seq<RawSpan>, j: nat)
    requires j < |spans| && spans[j].size >= 0
    requires forall k :: 0 <= k < |spans| ==> spans[k].size <= spans[j].size
    ensures Largest(spans) == spans[j].size
  {
    LargestIsMax(spans);
  }

  lemma SampleLargest(t1: string, t2: string, t3: string, t4: string, t5: string, box: Rect)
    ensures Largest(SpansOf(SampleLines(t1, t2, t3, t4, t5, box))) == 24
  {
    var ls := SampleLines(t1, t2, t3, t4, t5, box);
    assert |ls| == 5;
    assert forall k :: 0 <= k < |ls| ==> |ls[k].spans| == 1 && ls[k].spans[0].size <= 24;
    OneSpanLinesSpans(ls);
    var spans := SpansOf(ls);
    assert spans[0].size == 24;
    LargestIsAttained(spans, 0);
  }

  lemma SampleCandidates(t1: string, t2: string, t3: string, t4: string, t5: string, box: Rect)
    ensures var ls := SampleLines(t1, t2, t3, t4, t5, box);
            Candidates(ls, 24) == [LineText(ls[0]), LineText(ls[1])]
  {
    var ls := SampleLines(t1, t2, t3, t4, t5, box);
    assert ls[..4] + [ls[4]] == ls;
    assert ls[..3] + [ls[3]] == ls[..4];
    assert ls[..2] + [ls[2]] == ls[..3];
    assert ls[..1] + [ls[1]] == ls[..2];
    assert [] + [ls[0]] == ls[..1];
    CandidatesSnoc([], ls[0], 24);
    CandidatesSnoc(ls[..1], ls[1], 24);
    CandidatesSnoc(ls[..2], ls[2], 24);
    CandidatesSnoc(ls[..3], ls[3], 24);
    CandidatesSnoc(ls[..4], ls[4], 24);
  }

  /** On a page with one upper-half text block, the layout title is read from that block's lines. */
  lemma OneBlockLayoutTitle(page: Page, b: Block)
    requires page.blocks == [b] && InUpperHalf(b, page.height)
    ensures var c := Candidates(b.lines, Largest(SpansOf(b.lines)));
            LayoutTitle(page) == if c == [] then None else Some(JoinSpace(c))
  {
    UpperLinesSnoc([], b, page.height);
    assert [] + [b] == page.blocks;
    assert UpperLines(page.blocks, page.height) == b.lines by {
      assert [] + b.lines == b.lines;
    }
  }

  /** Without a usable metadata title, a document's title is its first page's layout title, if there is one. */
  lemma TitleFromLayout(doc: Document, t: string)
    requires !MetadataUsable(doc.metadataTitle) && doc.pages != [] && LayoutTitle(doc.pages[0]) == Some(t)
    ensures DocumentTitle(doc) == t
  {
  }

  /**
   * A first page whose upper half holds lines of sizes 24, 24, 12, 12, 10, one
   * span each, is titled with the two size-24 lines joined by a space.
   */
  lemma TwoLargestLinesMakeTheTitle(t1: string, t2: string, t3: string, t4: string, t5: string, box: Rect, spanBox: Rect)
    requires box.y1 < 400.0
    ensures var page := Page(800.0, 600.0, [Block(true, box, SampleLines(t1, t2, t3, t4, t5, spanBox))]);
            DocumentTitle(Document(None, [page])) == Strip(t1) + " " + Strip(t2)
  {
    var ls := SampleLines(t1, t2, t3, t4, t5, spanBox);
    var b := Block(true, box, ls);
    var page := Page(800.0, 600.0, [b]);
    SampleLargest(t1, t2, t3, t4, t5, spanBox);
    SampleCandidates(t1, t2, t3, t4, t5, spanBox);
    OneSpanLineText(t1, 24, spanBox);
    OneSpanLineText(t2, 24, spanBox);
    var c := [Strip(t1), Strip(t2)];
    assert Candidates(b.lines, Largest(SpansOf(b.lines))) == c;
    assert JoinSpace(c) == Strip(t1) + " " + Strip(t2) by {
      assert c[..1] == [Strip(t1)];
    }
    OneBlockLayoutTitle(page, b);
    TitleFromLayout(Document(None, [page]), Strip(t1) + " " + Strip(t2));
  }
}
