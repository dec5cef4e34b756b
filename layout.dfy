/**
 * The values the outline pipeline works on: what the PDF parsing library hands
 * over (pages of blocks of lines of spans), the spans and lines the pipeline
 * builds from them, and the headings it outputs.
 */
module Layout {
  import opened Wrappers

  /** A bounding box (x0, y0, x1, y1) in page coordinates; y grows downwards. */
  datatype Rect = Rect(x0: real, y0: real, x1: real, y1: real)

  /** `outer` reaches at least as far as `inner` on all four sides. */
  predicate Encloses(outer: Rect, inner: Rect) {
    outer.x0 <= inner.x0 && outer.y0 <= inner.y0 && inner.x1 <= outer.x1 && inner.y1 <= outer.y1
  }

  function Min(a: real, b: real): real { if a <= b then a else b }

  function Max(a: real, b: real): real { if a <= b then b else a }

  /** The smallest rectangle enclosing both: each side is one of the two given sides. */
  function Union(a: Rect, b: Rect): (r: Rect)
    ensures Encloses(r, a) && Encloses(r, b)
    ensures (r.x0 == a.x0 || r.x0 == b.x0) && (r.y0 == a.y0 || r.y0 == b.y0)
    ensures (r.x1 == a.x1 || r.x1 == b.x1) && (r.y1 == a.y1 || r.y1 == b.y1)
  {
    Rect(Min(a.x0, b.x0), Min(a.y0, b.y0), Max(a.x1, b.x1), Max(a.y1, b.y1))
  }

  // ---------------------------------------------------------------------------
  // What the parsing library provides. Sizes are already rounded to integers.

  datatype RawSpan = RawSpan(text: string, size: int, font: string, flags: nat, color: int, bbox: Rect)

  datatype RawLine = RawLine(spans: seq<RawSpan>)

  /** A block of the page's text dictionary; `isText` is the library's block type 0. */
  datatype Block = Block(isText: bool, bbox: Rect, lines: seq<RawLine>)

  datatype Page = Page(height: real, width: real, blocks: seq<Block>)

  /** A document: its metadata title, if any, and its pages in order. */
  datatype Document = Document(metadataTitle: Option<string>, pages: seq<Page>)

  // ---------------------------------------------------------------------------
  // What the pipeline builds.

  /** A span as the line assembler keeps it: font lower-cased, 1-based page number attached. */
  datatype Span = Span(text: string, size: int, font: string, flags: nat, color: int, bbox: Rect, page: int)

  /** A reconstructed line; style attributes are those of its first span. */
  datatype Line = Line(text: string, size: int, font: string, flags: nat, color: int, bbox: Rect,
                       page: int, pageHeight: real, pageWidth: real)

  datatype Level = H1 | H2 | H3

  datatype Heading = Heading(level: Level, text: string, page: int)

  /** The result of processing one document. */
  datatype Outline = Outline(title: string, outline: seq<Heading>)

  /** `idx` lists strictly increasing positions below `n`: where the items of a subsequence came from. */
  ghost predicate Increasing(idx: seq<nat>, n: nat) {
    && (forall k :: 0 <= k < |idx| ==> idx[k] < n)
    && (forall k :: 0 < k < |idx| ==> idx[k - 1] < idx[k])
  }

  /** Increasing positions spread at least one apart: the last is at least the first plus the count less one. */
  lemma {:induction false} IncreasingSpread(idx: seq<nat>, n: nat)
    requires Increasing(idx, n) && idx != []
    ensures idx[0] + |idx| - 1 <= idx[|idx| - 1]
  {
    if |idx| > 1 {
      var init := idx[..|idx| - 1];
      assert forall k :: 0 <= k < |init| ==> init[k] == idx[k];
      IncreasingSpread(init, n);
    }
  }

  lemma IncreasingWiden(idx: seq<nat>, n: nat, m: nat)
    requires Increasing(idx, n) && n <= m
    ensures Increasing(idx, m)
  {
  }

  /** The next position may follow increasing positions below it. */
  lemma IncreasingSnoc(idx: seq<nat>, n: nat)
    requires Increasing(idx, n)
    ensures Increasing(idx + [n], n + 1)
  {
    var idx' := idx + [n];
    forall k | 0 < k < |idx'| ensures idx'[k - 1] < idx'[k] {
      assert idx'[k - 1] == idx[k - 1];
    }
  }

  /** Positions that increase step by step increase across any distance. */
  lemma {:induction false} IncreasingIndices(idx: seq<nat>, n: nat, i: nat, j: nat)
    requires Increasing(idx, n)
    requires i < j < |idx|
    ensures idx[i] < idx[j]
    decreases j - i
  {
    if i + 1 < j {
      IncreasingIndices(idx, n, i + 1, j);
    }
  }
}
