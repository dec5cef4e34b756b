/**
 * Line assembly: every span of every text block of a page is collected, the
 * spans are sorted by (page, top, left) and split greedily into groups of
 * vertically aligned, horizontally adjacent spans; each group whose text is
 * not blank becomes a Line.
 */
module Assembly {
  import opened Wrappers
  import opened Text
  import opened Layout

  // ---------------------------------------------------------------------------
  // Collecting the spans of a page.

  function ToSpan(r: RawSpan, pageNo: int): Span {
    Span(r.text, r.size, ToLower(r.font), r.flags, r.color, r.bbox, pageNo)
  }

  function LineSpans(raw: seq<RawSpan>, pageNo: int): (s: seq<Span>)
    ensures |s| == |raw|
    ensures forall k :: 0 <= k < |s| ==> s[k] == ToSpan(raw[k], pageNo)
  {
    if raw == [] then [] else LineSpans(raw[..|raw| - 1], pageNo) + [ToSpan(raw[|raw| - 1], pageNo)]
  }

  function BlockSpans(lines: seq<RawLine>, pageNo: int): (s: seq<Span>)
    ensures forall k :: 0 <= k < |s| ==> s[k].page == pageNo
  {
    if lines == [] then []
    else BlockSpans(lines[..|lines| - 1], pageNo) + LineSpans(lines[|lines| - 1].spans, pageNo)
  }

  /** The spans of the page's text blocks, in the library's block, line and span order. */
  function PageSpans(blocks: seq<Block>, pageNo: int): (s: seq<Span>)
    ensures forall k :: 0 <= k < |s| ==> s[k].page == pageNo
  {
    if blocks == [] then []
    else
      var b := blocks[|blocks| - 1];
      PageSpans(blocks[..|blocks| - 1], pageNo) + (if b.isText then BlockSpans(b.lines, pageNo) else [])
  }

  lemma LineSpansStep(raw: seq<RawSpan>, k: nat, pageNo: int)
    requires k < |raw|
    ensures LineSpans(raw[..k + 1], pageNo) == LineSpans(raw[..k], pageNo) + [ToSpan(raw[k], pageNo)]
  {
    assert raw[..k + 1][..k] == raw[..k];
  }

  lemma BlockSpansStep(lines: seq<RawLine>, j: nat, pageNo: int)
    requires j < |lines|
    ensures BlockSpans(lines[..j + 1], pageNo) == BlockSpans(lines[..j], pageNo) + LineSpans(lines[j].spans, pageNo)
  {
    assert lines[..j + 1][..j] == lines[..j];
  }

  lemma PageSpansStep(blocks: seq<Block>, i: nat, pageNo: int)
    requires i < |blocks|
    ensures PageSpans(blocks[..i + 1], pageNo)
         == PageSpans(blocks[..i], pageNo) + (if blocks[i].isText then BlockSpans(blocks[i].lines, pageNo) else [])
  {
    assert blocks[..i + 1][..i] == blocks[..i];
  }

  /** The innermost loop: appends the spans of one parser line. */
  method AppendLineSpans(spans: seq<Span>, raw: seq<RawSpan>, pageNo: int) returns (out: seq<Span>)
    ensures out == spans + LineSpans(raw, pageNo)
  {
    out := spans;
    for k := 0 to |raw|
      invariant out == spans + LineSpans(raw[..k], pageNo)
    {
      LineSpansStep(raw, k, pageNo);
      out := out + [ToSpan(raw[k], pageNo)];
    }
    assert raw[..|raw|] == raw;
  }

  /** The loop over the lines of one text block. */
  method AppendBlockSpans(spans: seq<Span>, lines: seq<RawLine>, pageNo: int) returns (out: seq<Span>)
    ensures out == spans + BlockSpans(lines, pageNo)
  {
    out := spans;
    for j := 0 to |lines|
      invariant out == spans + BlockSpans(lines[..j], pageNo)
    {
      BlockSpansStep(lines, j, pageNo);
      out := AppendLineSpans(out, lines[j].spans, pageNo);
    }
    assert lines[..|lines|] == lines;
  }

  /** The loop over blocks that fills the page's span list from its text blocks. */
  method CollectSpans(page: Page, pageNo: int) returns (spans: seq<Span>)
    ensures spans == PageSpans(page.blocks, pageNo)
  {
    spans := [];
    var blocks := page.blocks;
    for i := 0 to |blocks|
      invariant spans == PageSpans(blocks[..i], pageNo)
    {
      PageSpansStep(blocks, i, pageNo);
      if blocks[i].isText {
        spans := AppendBlockSpans(spans, blocks[i].lines, pageNo);
      }
    }
    assert blocks[..|blocks|] == blocks;
  }

  // ---------------------------------------------------------------------------
  // Sorting by (page, top, left).

  /** The sort key (page, bbox.y0, bbox.x0), compared lexicographically. */
  predicate KeyLe(a: Span, b: Span) {
    || a.page < b.page
    || (a.page == b.page && (a.bbox.y0 < b.bbox.y0 || (a.bbox.y0 == b.bbox.y0 && a.bbox.x0 <= b.bbox.x0)))
  }

  predicate Sorted(s: seq<Span>) {
    forall i, j :: 0 <= i < j < |s| ==> KeyLe(s[i], s[j])
  }

  lemma KeyLeTransitive(a: Span, b: Span, c: Span)
    requires KeyLe(a, b) && KeyLe(b, c)
    ensures KeyLe(a, c)
  {
  }

  /** A span whose key is not above the head of a sorted sequence can be put in front of it. */
  lemma {:induction false} ConsSorted(a: Span, rest: seq<Span>)
    requires Sorted(rest)
    requires rest != [] ==> KeyLe(a, rest[0])
    ensures Sorted([a] + rest)
  {
    var r := [a] + rest;
    forall i, j | 0 <= i < j < |r| ensures KeyLe(r[i], r[j]) {
      if i == 0 && j > 1 {
        KeyLeTransitive(a, rest[0], rest[j - 1]);
      } else if i > 0 {
        assert r[i] == rest[i - 1] && r[j] == rest[j - 1];
      }
    }
  }

  lemma SortedTail(s: seq<Span>)
    requires Sorted(s) && s != []
    ensures Sorted(s[1..])
  {
    forall i, j | 0 <= i < j < |s| - 1 ensures KeyLe(s[1..][i], s[1..][j]) {
      assert s[1..][i] == s[i + 1] && s[1..][j] == s[j + 1];
    }
  }

  /** Puts `x` in front of the first span whose key is not below it. */
  function Insert(x: Span, s: seq<Span>): (r: seq<Span>)
    requires Sorted(s)
    ensures |r| == |s| + 1 && (r[0] == x || (s != [] && r[0] == s[0]))
    ensures Sorted(r)
    ensures multiset(r) == multiset(s) + multiset{x}
  {
    if s == [] || KeyLe(x, s[0]) then
      ConsSorted(x, s);
      [x] + s
    else
      SortedTail(s);
      var rest := Insert(x, s[1..]);
      assert KeyLe(s[0], rest[0]) by {
        if rest[0] != x {
          assert rest[0] == s[1];
        }
      }
      ConsSorted(s[0], rest);
      assert s == [s[0]] + s[1..];
      [s[0]] + rest
  }

  /**
   * Insertion sort; like Python's list.sort it keeps spans with equal keys in
   * their original order.
   */
  function SortSpans(s: seq<Span>): (r: seq<Span>)
    ensures Sorted(r)
    ensures multiset(r) == multiset(s)
    ensures |r| == |s|
  {
    if s == [] then []
    else
      assert s == [s[0]] + s[1..];
      var r := Insert(s[0], SortSpans(s[1..]));
      assert |r| == |multiset(r)|;
      r
  }

  // ---------------------------------------------------------------------------
  // Greedy grouping.

  function Abs(x: real): real { if x < 0.0 then -x else x }

  /** `next` may continue the group that ends with `last`. */
  predicate Adjacent(last: Span, next: Span) {
    && Abs(next.bbox.y0 - last.bbox.y0) < 2.0
    && 0.0 <= next.bbox.x0 - last.bbox.x1 < 10.0
  }

  function LastSpan(g: seq<Span>): Span
    requires g != []
  {
    g[|g| - 1]
  }

  /**
   * The groups the single left-to-right pass forms: a span joins the open
   * group when it is Adjacent to that group's last span, else opens a new one.
   */
  function Groups(s: seq<Span>): (gs: seq<seq<Span>>)
    ensures |gs| <= |s|
    ensures gs == [] <==> s == []
    ensures forall k :: 0 <= k < |gs| ==> gs[k] != []
  {
    if s == [] then []
    else
      var gs := Groups(s[..|s| - 1]);
      var x := s[|s| - 1];
      if gs != [] && Adjacent(LastSpan(gs[|gs| - 1]), x) then gs[..|gs| - 1] + [gs[|gs| - 1] + [x]]
      else gs + [[x]]
  }

  function Flatten(gs: seq<seq<Span>>): seq<Span> {
    if gs == [] then [] else Flatten(gs[..|gs| - 1]) + gs[|gs| - 1]
  }

  /** The groups, concatenated in order, give back exactly the sorted spans. */
  lemma {:induction false} FlattenGroups(s: seq<Span>)
    ensures Flatten(Groups(s)) == s
  {
    if s != [] {
      var init := s[..|s| - 1];
      var gs := Groups(init);
      FlattenGroups(init);
      var x := s[|s| - 1];
      assert init + [x] == s;
      if gs != [] && Adjacent(LastSpan(gs[|gs| - 1]), x) {
        var front, last := gs[..|gs| - 1], gs[|gs| - 1];
        var gs' := front + [last + [x]];
        assert Groups(s) == gs';
        assert gs'[..|gs'| - 1] == front;
        assert Flatten(gs') == Flatten(front) + (last + [x]);
        assert gs[..|gs| - 1] == front;
        assert Flatten(gs) == Flatten(front) + last;
      } else {
        assert Groups(s) == gs + [[x]];
        assert (gs + [[x]])[..|gs|] == gs;
      }
    }
  }

  /** Inside a group every span is Adjacent to the one before it. */
  predicate Chained(g: seq<Span>) {
    forall k :: 0 < k < |g| ==> Adjacent(g[k - 1], g[k])
  }

  /**
   * Every group is a chain of Adjacent spans, and each group after the first
   * starts with a span that is not Adjacent to the end of the group before it.
   */
  lemma {:induction false} GroupsSplitWhereNotAdjacent(s: seq<Span>)
    ensures forall k :: 0 <= k < |Groups(s)| ==> Chained(Groups(s)[k])
    ensures forall i :: 0 < i < |Groups(s)| ==> !Adjacent(LastSpan(Groups(s)[i - 1]), Groups(s)[i][0])
  {
    if s != [] {
      var init := s[..|s| - 1];
      GroupsSplitWhereNotAdjacent(init);
      var gs := Groups(init);
      var x := s[|s| - 1];
      if gs != [] && Adjacent(LastSpan(gs[|gs| - 1]), x) {
        var g := gs[|gs| - 1];
        assert Chained(g + [x]);
      }
    }
  }

  // ---------------------------------------------------------------------------
  // From groups to lines.

  /** `"".join(s['text'] for s in g)`. */
  function ConcatTexts(g: seq<Span>): string {
    Concat(seq(|g|, k requires 0 <= k < |g| => g[k].text))
  }

  /** The min/max union of the members' boxes. */
  function BoxOf(g: seq<Span>): Rect
    requires g != []
  {
    if |g| == 1 then g[0].bbox
    else Union(BoxOf(g[..|g| - 1]), g[|g| - 1].bbox)
  }

  /** The group's box encloses each member's box, and each of its sides is some member's side. */
  lemma {:induction false} BoxOfFacts(g: seq<Span>)
    requires g != []
    ensures forall k :: 0 <= k < |g| ==> Encloses(BoxOf(g), g[k].bbox)
    ensures exists k :: 0 <= k < |g| && BoxOf(g).x0 == g[k].bbox.x0
    ensures exists k :: 0 <= k < |g| && BoxOf(g).y0 == g[k].bbox.y0
    ensures exists k :: 0 <= k < |g| && BoxOf(g).x1 == g[k].bbox.x1
    ensures exists k :: 0 <= k < |g| && BoxOf(g).y1 == g[k].bbox.y1
  {
    if |g| > 1 {
      var init := g[..|g| - 1];
      var n := |g| - 1;
      var b, r := BoxOf(init), BoxOf(g);
      BoxOfFacts(init);
      assert forall k :: 0 <= k < |init| ==> init[k] == g[k];
      forall k | 0 <= k < |g| ensures Encloses(r, g[k].bbox) {
        if k < n {
          assert Encloses(b, init[k].bbox);
        }
      }
      if r.x0 != g[n].bbox.x0 {
        var k :| 0 <= k < |init| && b.x0 == init[k].bbox.x0;
        assert r.x0 == g[k].bbox.x0;
      }
      if r.y0 != g[n].bbox.y0 {
        var k :| 0 <= k < |init| && b.y0 == init[k].bbox.y0;
        assert r.y0 == g[k].bbox.y0;
      }
      if r.x1 != g[n].bbox.x1 {
        var k :| 0 <= k < |init| && b.x1 == init[k].bbox.x1;
        assert r.x1 == g[k].bbox.x1;
      }
      if r.y1 != g[n].bbox.y1 {
        var k :| 0 <= k < |init| && b.y1 == init[k].bbox.y1;
        assert r.y1 == g[k].bbox.y1;
      }
    } else {
      assert BoxOf(g) == g[0].bbox;
    }
  }

  /**
   * The line a closed group yields: none when its joined text is blank;
   * otherwise the stripped text, the first span's style and page, and the
   * members' bounding box.
   */
  function MakeLine(g: seq<Span>, height: real, width: real): Option<Line>
    requires g != []
  {
    var text := Strip(ConcatTexts(g));
    if text == [] then None
    else
      var first := g[0];
      Some(Line(text, first.size, first.font, first.flags, first.color, BoxOf(g), first.page, height, width))
  }

  /** A group yields no line exactly when its joined text is blank; a line keeps the first span's style. */
  lemma MakeLineFacts(g: seq<Span>, height: real, width: real)
    requires g != []
    ensures var r := MakeLine(g, height, width);
      && (r.None? <==> AllSpace(ConcatTexts(g)))
      && (r.Some? ==> r.value.text != [] && r.value.text == Strip(ConcatTexts(g)))
      && (r.Some? ==> r.value.size == g[0].size && r.value.font == g[0].font && r.value.flags == g[0].flags)
      && (r.Some? ==> r.value.color == g[0].color && r.value.page == g[0].page)
      && (r.Some? ==> r.value.pageHeight == height && r.value.pageWidth == width)
  {
  }

  /** A group's line has a box enclosing every member's box. */
  lemma MakeLineEncloses(g: seq<Span>, height: real, width: real)
    requires g != []
    ensures var r := MakeLine(g, height, width);
      r.Some? ==> forall k :: 0 <= k < |g| ==> Encloses(r.value.bbox, g[k].bbox)
  {
    BoxOfFacts(g);
  }

  /** The lines of the groups, in order, skipping groups without one. */
  function LinesOf(gs: seq<seq<Span>>, height: real, width: real): (ls: seq<Line>)
    requires forall k :: 0 <= k < |gs| ==> gs[k] != []
    ensures |ls| <= |gs|
  {
    if gs == [] then []
    else
      var init := gs[..|gs| - 1];
      var g := gs[|gs| - 1];
      LinesOf(init, height, width) + (match MakeLine(g, height, width) case Some(l) => [l] case None => [])
  }

  /** Every line is the line of some group. */
  lemma {:induction false} LinesComeFromGroups(gs: seq<seq<Span>>, height: real, width: real)
    requires forall k :: 0 <= k < |gs| ==> gs[k] != []
    ensures forall l :: l in LinesOf(gs, height, width) ==>
      exists k :: 0 <= k < |gs| && MakeLine(gs[k], height, width) == Some(l)
  {
    if gs != [] {
      var init := gs[..|gs| - 1];
      LinesComeFromGroups(init, height, width);
      assert forall k :: 0 <= k < |init| ==> init[k] == gs[k];
    }
  }

  /** The lines of one page, numbered `pageNo`. */
  function PageLines(page: Page, pageNo: int): seq<Line> {
    LinesOf(Groups(SortSpans(PageSpans(page.blocks, pageNo))), page.height, page.width)
  }

  /** The lines of all pages, page 1 first. */
  function AllLines(pages: seq<Page>): seq<Line> {
    if pages == [] then []
    else AllLines(pages[..|pages| - 1]) + PageLines(pages[|pages| - 1], |pages|)
  }

  /** One step of the grouping pass, seen from its open group `current`. */
  lemma GroupsSnoc(s: seq<Span>, closed: seq<seq<Span>>, current: seq<Span>, x: Span)
    requires current != [] && Groups(s) == closed + [current]
    ensures Groups(s + [x]) == if Adjacent(LastSpan(current), x) then closed + [current + [x]]
                               else closed + [current] + [[x]]
  {
    assert (s + [x])[..|s|] == s;
    assert (closed + [current])[..|closed|] == closed;
  }

  /** Step `i` of the grouping pass over `s`. */
  lemma GroupsStep(s: seq<Span>, i: nat, closed: seq<seq<Span>>, current: seq<Span>)
    requires 0 < i < |s| && current != [] && Groups(s[..i]) == closed + [current]
    ensures Groups(s[..i + 1]) == if Adjacent(LastSpan(current), s[i]) then closed + [current + [s[i]]]
                                  else closed + [current] + [[s[i]]]
  {
    assert s[..i + 1] == s[..i] + [s[i]];
    GroupsSnoc(s[..i], closed, current, s[i]);
  }

  /** Closing one more group emits its line, if it has one. */
  lemma LinesOfSnoc(gs: seq<seq<Span>>, g: seq<Span>, height: real, width: real)
    requires forall k :: 0 <= k < |gs| ==> gs[k] != []
    requires g != []
    ensures LinesOf(gs + [g], height, width)
         == LinesOf(gs, height, width) + (match MakeLine(g, height, width) case Some(l) => [l] case None => [])
  {
    assert (gs + [g])[..|gs|] == gs;
  }

  /** Emits the line of the group `current` that has just been closed, if it has one. */
  method CloseGroup(lines0: seq<Line>, ghost closed: seq<seq<Span>>, current: seq<Span>, height: real, width: real)
    returns (lines: seq<Line>)
    requires current != [] && forall k :: 0 <= k < |closed| ==> closed[k] != []
    requires lines0 == LinesOf(closed, height, width)
    ensures lines == LinesOf(closed + [current], height, width)
  {
    lines := lines0;
    var line := MakeLine(current, height, width);
    if line.Some? {
      lines := lines + [line.value];
    }
    LinesOfSnoc(closed, current, height, width);
  }

  /** What the grouping loop knows after `i` spans: the groups closed so far, the open group, their lines. */
  predicate GroupingAt(spans: seq<Span>, i: nat, closed: seq<seq<Span>>, current: seq<Span>,
                       lines: seq<Line>, height: real, width: real)
    requires i <= |spans|
  {
    && current != []
    && (forall k :: 0 <= k < |closed| ==> closed[k] != [])
    && Groups(spans[..i]) == closed + [current]
    && lines == LinesOf(closed, height, width)
  }

  /** Span `i` joins the open group. */
  lemma GroupingExtend(spans: seq<Span>, i: nat, closed: seq<seq<Span>>, current: seq<Span>,
                       lines: seq<Line>, height: real, width: real)
    requires i < |spans| && GroupingAt(spans, i, closed, current, lines, height, width)
    requires Adjacent(LastSpan(current), spans[i])
    ensures GroupingAt(spans, i + 1, closed, current + [spans[i]], lines, height, width)
  {
    GroupsStep(spans, i, closed, current);
  }

  /** Span `i` closes the open group and opens a new one. */
  lemma GroupingCut(spans: seq<Span>, i: nat, closed: seq<seq<Span>>, current: seq<Span>,
                    lines: seq<Line>, height: real, width: real)
    requires i < |spans| && GroupingAt(spans, i, closed, current, lines, height, width)
    requires !Adjacent(LastSpan(current), spans[i])
    ensures GroupingAt(spans, i + 1, closed + [current], [spans[i]], LinesOf(closed + [current], height, width), height, width)
  {
    GroupsStep(spans, i, closed, current);
    assert closed + [current] + [[spans[i]]] == (closed + [current]) + [[spans[i]]];
  }

  /** The grouping loop of `_extract_all_lines`, run on the page's sorted spans. */
  method GroupLines(spans: seq<Span>, height: real, width: real) returns (lines: seq<Line>)
    ensures lines == LinesOf(Groups(spans), height, width)
  {
    lines := [];
    if spans == [] {
      return;
    }
    var current := [spans[0]];
    ghost var closed: seq<seq<Span>> := [];
    assert spans[..1] == [] + [spans[0]];
    for i := 1 to |spans|
      invariant GroupingAt(spans, i, closed, current, lines, height, width)
    {
      var span := spans[i];
      if Adjacent(current[|current| - 1], span) {
        GroupingExtend(spans, i, closed, current, lines, height, width);
        current := current + [span];
      } else {
        GroupingCut(spans, i, closed, current, lines, height, width);
        lines := CloseGroup(lines, closed, current, height, width);
        closed := closed + [current];
        current := [span];
      }
    }
    lines := CloseGroup(lines, closed, current, height, width);
    assert spans[..|spans|] == spans;
  }

  /** One page of `_extract_all_lines`: collect, sort, group. */
  method AssemblePage(page: Page, pageNo: int) returns (lines: seq<Line>)
    ensures lines == PageLines(page, pageNo)
  {
    var spans := CollectSpans(page, pageNo);
    spans := SortSpans(spans);
    lines := GroupLines(spans, page.height, page.width);
  }

  lemma AllLinesStep(pages: seq<Page>, i: nat)
    requires i < |pages|
    ensures AllLines(pages[..i + 1]) == AllLines(pages[..i]) + PageLines(pages[i], i + 1)
  {
    assert pages[..i + 1][..i] == pages[..i];
  }

  /** `_extract_all_lines`: the lines of every page in page order. */
  method ExtractAllLines(pages: seq<Page>) returns (lines: seq<Line>)
    ensures lines == AllLines(pages)
  {
    lines := [];
    for i := 0 to |pages|
      invariant lines == AllLines(pages[..i])
    {
      var pageLines := AssemblePage(pages[i], i + 1);
      AllLinesStep(pages, i);
      lines := lines + pageLines;
    }
    assert pages[..|pages|] == pages;
  }

  // ---------------------------------------------------------------------------
  // What the assembled lines satisfy.

  /** Each member of each group appears in the concatenation of the groups. */
  lemma {:induction false} FlattenMember(gs: seq<seq<Span>>, k: nat, m: nat)
    requires k < |gs| && m < |gs[k]|
    ensures gs[k][m] in Flatten(gs)
  {
    var init := gs[..|gs| - 1];
    if k < |gs| - 1 {
      assert init[k] == gs[k];
      FlattenMember(init, k, m);
    }
  }

  /** A line with non-empty stripped text on page `pageNo` of the given geometry. */
  predicate WellFormedLine(l: Line, pageNo: int, height: real, width: real) {
    Trimmed(l.text) && l.page == pageNo && l.pageHeight == height && l.pageWidth == width
  }

  /** Lines built from groups whose members all lie on page `pageNo`. */
  lemma {:induction false} LinesOfFacts(gs: seq<seq<Span>>, height: real, width: real, pageNo: int)
    requires forall k :: 0 <= k < |gs| ==> gs[k] != [] && gs[k][0].page == pageNo
    ensures forall l :: l in LinesOf(gs, height, width) ==> WellFormedLine(l, pageNo, height, width)
  {
    if gs != [] {
      LinesOfFacts(gs[..|gs| - 1], height, width, pageNo);
    }
  }

  /**
   * A page yields at most one line per span; every line has non-blank
   * stripped text and carries the page's number and geometry.
   */
  lemma {:induction false} PageLinesFacts(page: Page, pageNo: int)
    ensures |PageLines(page, pageNo)| <= |PageSpans(page.blocks, pageNo)|
    ensures forall l :: l in PageLines(page, pageNo) ==> WellFormedLine(l, pageNo, page.height, page.width)
  {
    var spans := PageSpans(page.blocks, pageNo);
    var sorted := SortSpans(spans);
    var gs: seq<seq<Span>> := Groups(sorted);
    FlattenGroups(sorted);
    forall k: int | 0 <= k < |gs| ensures gs[k][0].page == pageNo {
      FlattenMember(gs, k, 0);
      assert gs[k][0] in multiset(spans);
    }
    LinesOfFacts(gs, page.height, page.width, pageNo);
  }

  /** Page numbers of `ls` lie in 1..n and never decrease. */
  predicate InPageOrder(ls: seq<Line>, n: int) {
    && (forall k :: 0 <= k < |ls| ==> 1 <= ls[k].page <= n)
    && (forall i, j :: 0 <= i < j < |ls| ==> ls[i].page <= ls[j].page)
  }

  lemma AppendPage(before: seq<Line>, last: seq<Line>, n: int)
    requires InPageOrder(before, n - 1)
    requires forall l :: l in last ==> l.page == n
    requires n >= 1
    ensures InPageOrder(before + last, n)
  {
    var all := before + last;
    forall k | 0 <= k < |all| ensures 1 <= all[k].page <= n {
      if k >= |before| {
        assert all[k] == last[k - |before|];
      }
    }
    forall i, j | 0 <= i < j < |all| ensures all[i].page <= all[j].page {
      if j >= |before| {
        assert all[j] == last[j - |before|];
      }
    }
  }

  // ---------------------------------------------------------------------------
  // Within a page the lines come top to bottom.

  /** In a sorted concatenation each half is sorted and the first half's spans come first. */
  lemma SortedSplit(a: seq<Span>, b: seq<Span>)
    requires Sorted(a + b)
    ensures Sorted(a)
    ensures forall n :: 0 <= n < |b| ==> KeyLe(b[0], b[n])
    ensures forall m, n :: 0 <= m < |a| && 0 <= n < |b| ==> KeyLe(a[m], b[n])
  {
    forall i, j | 0 <= i < j < |a| ensures KeyLe(a[i], a[j]) {
      assert (a + b)[i] == a[i] && (a + b)[j] == a[j];
    }
    forall n | 0 <= n < |b| ensures KeyLe(b[0], b[n]) {
      if n > 0 {
        assert (a + b)[|a|] == b[0] && (a + b)[|a| + n] == b[n];
      }
    }
    forall m, n | 0 <= m < |a| && 0 <= n < |b| ensures KeyLe(a[m], b[n]) {
      assert (a + b)[m] == a[m] && (a + b)[|a| + n] == b[n];
    }
  }

  /** Each group's first span has the least key in its group, and the first spans come in key order. */
  predicate HeadsLead(gs: seq<seq<Span>>) {
    && (forall k :: 0 <= k < |gs| ==> gs[k] != [])
    && (forall k, m :: 0 <= k < |gs| && 0 <= m < |gs[k]| ==> KeyLe(gs[k][0], gs[k][m]))
    && (forall i, j :: 0 <= i < j < |gs| ==> KeyLe(gs[i][0], gs[j][0]))
  }

  lemma {:induction false} SortedGroupHeads(gs: seq<seq<Span>>)
    requires forall k :: 0 <= k < |gs| ==> gs[k] != []
    requires Sorted(Flatten(gs))
    ensures HeadsLead(gs)
  {
    if gs != [] {
      var init := gs[..|gs| - 1];
      var g := gs[|gs| - 1];
      var flat := Flatten(init);
      SortedSplit(flat, g);
      assert forall k :: 0 <= k < |init| ==> init[k] == gs[k];
      SortedGroupHeads(init);
      forall i | 0 <= i < |init| ensures KeyLe(gs[i][0], g[0]) {
        FlattenMember(init, i, 0);
        var m :| 0 <= m < |flat| && flat[m] == gs[i][0];
      }
    }
  }

  /** The lines of groups whose first spans have the least top in their group and come top first. */
  predicate TopsLead(gs: seq<seq<Span>>) {
    && (forall k :: 0 <= k < |gs| ==> gs[k] != [])
    && (forall k, m :: 0 <= k < |gs| && 0 <= m < |gs[k]| ==> gs[k][0].bbox.y0 <= gs[k][m].bbox.y0)
    && (forall i, j :: 0 <= i < j < |gs| ==> gs[i][0].bbox.y0 <= gs[j][0].bbox.y0)
  }

  /** On one page, key order puts tops in order. */
  lemma HeadsLeadTops(gs: seq<seq<Span>>, pageNo: int)
    requires HeadsLead(gs)
    requires forall k, m :: 0 <= k < |gs| && 0 <= m < |gs[k]| ==> gs[k][m].page == pageNo
    ensures TopsLead(gs)
  {
  }

  /** A group led by its topmost span yields a line whose top is that span's top. */
  lemma MakeLineTop(g: seq<Span>, height: real, width: real)
    requires g != []
    requires forall m :: 0 <= m < |g| ==> g[0].bbox.y0 <= g[m].bbox.y0
    ensures MakeLine(g, height, width).Some? ==> MakeLine(g, height, width).value.bbox.y0 == g[0].bbox.y0
  {
    BoxOfFacts(g);
  }

  /** The lines of groups led by their topmost spans, each led by a span with top at most `y`, have top at most `y`. */
  lemma {:induction false} LinesAbove(gs: seq<seq<Span>>, y: real, height: real, width: real)
    requires forall k :: 0 <= k < |gs| ==> gs[k] != [] && gs[k][0].bbox.y0 <= y
    requires forall k, m :: 0 <= k < |gs| && 0 <= m < |gs[k]| ==> gs[k][0].bbox.y0 <= gs[k][m].bbox.y0
    ensures forall l :: l in LinesOf(gs, height, width) ==> l.bbox.y0 <= y
  {
    if gs != [] {
      LinesAbove(gs[..|gs| - 1], y, height, width);
      MakeLineTop(gs[|gs| - 1], height, width);
    }
  }

  lemma {:induction false} LinesOfTopsIncrease(gs: seq<seq<Span>>, height: real, width: real)
    requires TopsLead(gs)
    ensures TopsIncrease(LinesOf(gs, height, width))
  {
    if gs != [] {
      var init := gs[..|gs| - 1];
      var g := gs[|gs| - 1];
      TopsLeadInit(gs);
      LinesOfTopsIncrease(init, height, width);
      forall k | 0 <= k < |init| ensures init[k] != [] && init[k][0].bbox.y0 <= g[0].bbox.y0 {
        assert init[k] == gs[k];
      }
      LinesAbove(init, g[0].bbox.y0, height, width);
      MakeLineTop(g, height, width);
      AppendBelow(LinesOf(init, height, width),
                  match MakeLine(g, height, width) case Some(l) => [l] case None => [],
                  g[0].bbox.y0);
    }
  }

  lemma TopsLeadInit(gs: seq<seq<Span>>)
    requires TopsLead(gs) && gs != []
    ensures TopsLead(gs[..|gs| - 1])
  {
    assert forall k :: 0 <= k < |gs| - 1 ==> gs[..|gs| - 1][k] == gs[k];
  }

  /** The lines' tops never decrease: they come top to bottom. */
  predicate TopsIncrease(ls: seq<Line>) {
    forall i, j :: 0 <= i < j < |ls| ==> ls[i].bbox.y0 <= ls[j].bbox.y0
  }

  /** Lines that come top to bottom, followed by lines all at a top no higher than theirs. */
  lemma AppendBelow(above: seq<Line>, below: seq<Line>, y: real)
    requires TopsIncrease(above)
    requires forall l :: l in above ==> l.bbox.y0 <= y
    requires forall l :: l in below ==> l.bbox.y0 == y
    ensures TopsIncrease(above + below)
  {
    var all := above + below;
    forall i, j | 0 <= i < j < |all| ensures all[i].bbox.y0 <= all[j].bbox.y0 {
      if j >= |above| {
        assert all[j] in below;
        if i < |above| {
          assert all[i] in above;
        } else {
          assert all[i] in below;
        }
      }
    }
  }

  /** Sorted spans of one page yield lines whose tops never decrease. */
  lemma SortedSpansTopsIncrease(spans: seq<Span>, pageNo: int, height: real, width: real)
    requires Sorted(spans)
    requires forall k :: 0 <= k < |spans| ==> spans[k].page == pageNo
    ensures TopsIncrease(LinesOf(Groups(spans), height, width))
  {
    var gs: seq<seq<Span>> := Groups(spans);
    FlattenGroups(spans);
    forall k: int, m: int | 0 <= k < |gs| && 0 <= m < |gs[k]| ensures gs[k][m].page == pageNo {
      FlattenMember(gs, k, m);
    }
    SortedGroupHeads(gs);
    HeadsLeadTops(gs, pageNo);
    LinesOfTopsIncrease(gs, height, width);
  }

  /** A page's lines come top to bottom: their tops never decrease. */
  lemma PageLinesTopToBottom(page: Page, pageNo: int)
    ensures TopsIncrease(PageLines(page, pageNo))
  {
    var spans := PageSpans(page.blocks, pageNo);
    var sorted := SortSpans(spans);
    forall k | 0 <= k < |sorted| ensures sorted[k].page == pageNo {
      assert sorted[k] in multiset(spans);
    }
    SortedSpansTopsIncrease(sorted, pageNo, page.height, page.width);
    assert PageLines(page, pageNo) == LinesOf(Groups(sorted), page.height, page.width);
  }

  /** Of two lines on the same page, the earlier one's top is not below the later one's. */
  predicate TopToBottom(ls: seq<Line>) {
    forall i, j :: 0 <= i < j < |ls| && ls[i].page == ls[j].page ==> ls[i].bbox.y0 <= ls[j].bbox.y0
  }

  lemma AppendPageTops(before: seq<Line>, last: seq<Line>, n: int)
    requires InPageOrder(before, n - 1) && TopToBottom(before)
    requires TopsIncrease(last)
    requires forall l :: l in last ==> l.page == n
    ensures TopToBottom(before + last)
  {
    var all := before + last;
    forall i, j | 0 <= i < j < |all| && all[i].page == all[j].page ensures all[i].bbox.y0 <= all[j].bbox.y0 {
      if j >= |before| {
        assert all[j] == last[j - |before|];
        if i >= |before| {
          assert all[i] == last[i - |before|];
        }
      }
    }
  }

  /**
   * The document's lines come in page order, every page number between 1 and
   * the page count, and within a page from top to bottom.
   */
  lemma {:induction false} AllLinesInPageOrder(pages: seq<Page>)
    ensures InPageOrder(AllLines(pages), |pages|)
    ensures TopToBottom(AllLines(pages))
  {
    if pages != [] {
      var init := pages[..|pages| - 1];
      var last := PageLines(pages[|pages| - 1], |pages|);
      AllLinesInPageOrder(init);
      PageLinesFacts(pages[|pages| - 1], |pages|);
      PageLinesTopToBottom(pages[|pages| - 1], |pages|);
      AppendPage(AllLines(init), last, |pages|);
      AppendPageTops(AllLines(init), last, |pages|);
    }
  }
}
