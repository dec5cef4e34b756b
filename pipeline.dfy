/**
 * The whole run over one document: title, then line assembly, recombination,
 * style profiling, heading classification and the hierarchy.
 */
module Pipeline {
  import opened Text
  import opened Layout
  import Assembly
  import Recombine
  import Style
  import Classifier
  import Hierarchy
  import Title

  /** The lines the classifier sees: assembled, then recombined. */
  function CleanLines(doc: Document): seq<Line> {
    Recombine.Recombined(Assembly.AllLines(doc.pages))
  }

  /** The headings of the document, in document order. */
  function HeadingLines(doc: Document): seq<Line> {
    var lines := CleanLines(doc);
    Classifier.Headings(lines, Style.BodyFontSize(lines), Classifier.HeuristicsConfig)
  }

  /** What processing the document yields. */
  function OutlineOf(doc: Document): Outline {
    Outline(Title.DocumentTitle(doc), Hierarchy.Hierarchy(HeadingLines(doc)))
  }

  /** `process`. */
  method Process(doc: Document) returns (result: Outline)
    ensures result == OutlineOf(doc)
  {
    var title := Title.GetDocumentTitle(doc);
    var lines := Assembly.ExtractAllLines(doc.pages);
    lines := Recombine.RecombineLines(lines);
    var bodyFontSize := Style.BodyFontSize(lines);
    var headings := Classifier.ClassifyHeadings(lines, bodyFontSize, Classifier.HeuristicsConfig);
    var outline := Hierarchy.DetermineHierarchy(headings);
    return Outline(title, outline);
  }

  // ---------------------------------------------------------------------------
  // What survives every stage.

  predicate AllTrimmed(ls: seq<Line>) {
    forall k :: 0 <= k < |ls| ==> Trimmed(ls[k].text)
  }

  lemma AppendTrimmed(before: seq<Line>, last: seq<Line>)
    requires AllTrimmed(before)
    requires forall l :: l in last ==> Trimmed(l.text)
    ensures AllTrimmed(before + last)
  {
    var all := before + last;
    forall k | 0 <= k < |all| ensures Trimmed(all[k].text) {
      if k >= |before| {
        assert all[k] == last[k - |before|];
      }
    }
  }

  lemma {:induction false} AssembledLinesTrimmed(pages: seq<Page>)
    ensures AllTrimmed(Assembly.AllLines(pages))
  {
    if pages != [] {
      var init := pages[..|pages| - 1];
      AssembledLinesTrimmed(init);
      Assembly.PageLinesFacts(pages[|pages| - 1], |pages|);
      AppendTrimmed(Assembly.AllLines(init), Assembly.PageLines(pages[|pages| - 1], |pages|));
    }
  }

  /** Joining two trimmed texts with a space gives a trimmed text. */
  lemma MergeKeepsTrimmed(a: Line, b: Line)
    requires Trimmed(a.text) && Trimmed(b.text)
    ensures Trimmed(Recombine.Merge(a, b).text)
  {
    var t := Recombine.Merge(a, b).text;
    assert t[0] == a.text[0];
    assert t[|t| - 1] == b.text[|b.text| - 1];
  }

  lemma {:induction false} RecombinedTrimmed(ls: seq<Line>)
    requires AllTrimmed(ls)
    ensures AllTrimmed(Recombine.Recombined(ls))
  {
    if ls != [] {
      var init := ls[..|ls| - 1];
      var x := ls[|ls| - 1];
      assert AllTrimmed(init) by {
        forall k | 0 <= k < |init| ensures Trimmed(init[k].text) {
          assert init[k] == ls[k];
        }
      }
      RecombinedTrimmed(init);
      var r := Recombine.Recombined(init);
      if r != [] && Recombine.Mergeable(r[|r| - 1], x) {
        MergeKeepsTrimmed(r[|r| - 1], x);
      }
    }
  }

  /** Recombination keeps the page numbers in range and in order: each output line has its run's first page. */
  lemma RecombinedInPageOrder(ls: seq<Line>, n: int)
    requires Assembly.InPageOrder(ls, n)
    ensures Assembly.InPageOrder(Recombine.Recombined(ls), n)
  {
    var r := Recombine.Recombined(ls);
    var st := Recombine.RunStarts(ls);
    Recombine.RecombinedRuns(ls);
    forall i, j | 0 <= i < j < |r| ensures r[i].page <= r[j].page {
      assert Recombine.SameAttributes(r[i], ls[st[i]]) && Recombine.SameAttributes(r[j], ls[st[j]]);
      assert st[i] < st[j] by {
        IncreasingIndices(st, |ls|, i, j);
      }
    }
    forall k | 0 <= k < |r| ensures 1 <= r[k].page <= n {
      assert Recombine.SameAttributes(r[k], ls[st[k]]);
    }
  }

  /** The lines the classifier sees are trimmed and in page order. */
  lemma CleanLinesFacts(doc: Document)
    ensures AllTrimmed(CleanLines(doc))
    ensures Assembly.InPageOrder(CleanLines(doc), |doc.pages|)
  {
    AssembledLinesTrimmed(doc.pages);
    RecombinedTrimmed(Assembly.AllLines(doc.pages));
    Assembly.AllLinesInPageOrder(doc.pages);
    RecombinedInPageOrder(Assembly.AllLines(doc.pages), |doc.pages|);
  }

  /**
   * Every line the classifier sees has at least one word, so under the
   * shipped table the minimum-word filter never rejects one.
   */
  lemma NoCleanLineIsTooShort(doc: Document)
    ensures forall k :: 0 <= k < |CleanLines(doc)| ==>
      WordCount(CleanLines(doc)[k].text) >= Classifier.HeuristicsConfig.minWordCount
  {
    CleanLinesFacts(doc);
    var ls := CleanLines(doc);
    forall k | 0 <= k < |ls| ensures WordCount(ls[k].text) >= 1 {
      assert !IsSpace(ls[k].text[0]);
    }
  }

  /** Classification keeps trimmed text and page order: it only drops lines. */
  lemma HeadingsKeepOrder(ls: seq<Line>, body: real, cfg: Classifier.Config, n: int)
    requires AllTrimmed(ls) && Assembly.InPageOrder(ls, n)
    ensures var hs := Classifier.Headings(ls, body, cfg);
      AllTrimmed(hs) && Assembly.InPageOrder(hs, n)
  {
    var hs := Classifier.Headings(ls, body, cfg);
    Classifier.HeadingsAreSubsequence(ls, body, cfg);
    var idx := Classifier.HeadingIndices(ls, body, cfg);
    forall k | 0 <= k < |hs| ensures Trimmed(hs[k].text) && 1 <= hs[k].page <= n {
      assert hs[k] == ls[idx[k]];
    }
    forall i, j | 0 <= i < j < |hs| ensures hs[i].page <= hs[j].page {
      IncreasingIndices(idx, |ls|, i, j);
      assert hs[i] == ls[idx[i]] && hs[j] == ls[idx[j]];
    }
  }

  /** The hierarchy keeps each entry's text and page from its heading and drops headings only. */
  lemma HierarchyKeepsOrder(hs: seq<Line>, n: int)
    requires AllTrimmed(hs) && Assembly.InPageOrder(hs, n)
    ensures var out := Hierarchy.Hierarchy(hs);
      && (forall k :: 0 <= k < |out| ==> Trimmed(out[k].text) && 1 <= out[k].page <= n)
      && (forall i, j :: 0 <= i < j < |out| ==> out[i].page <= out[j].page)
  {
    if hs == [] {
      return;
    }
    var table := Hierarchy.LevelTable(Hierarchy.DistinctSizes(hs));
    var out := Hierarchy.Hierarchy(hs);
    assert out == Hierarchy.OutlineWith(hs, table);
    Hierarchy.OutlineEntries(hs, table);
    var idx := Hierarchy.OutlineIndices(hs, table);
    forall k | 0 <= k < |out| ensures Trimmed(out[k].text) && 1 <= out[k].page <= n {
      assert out[k].text == hs[idx[k]].text && out[k].page == hs[idx[k]].page;
    }
    forall i, j | 0 <= i < j < |out| ensures out[i].page <= out[j].page {
      IncreasingIndices(idx, |hs|, i, j);
      assert out[i].page == hs[idx[i]].page && out[j].page == hs[idx[j]].page;
    }
  }

  /**
   * Every outline entry has trimmed, non-empty text, a page number between 1
   * and the page count, and the entries' page numbers never decrease.
   */
  lemma OutlineFacts(doc: Document)
    ensures var out := OutlineOf(doc).outline;
      && (forall k :: 0 <= k < |out| ==> Trimmed(out[k].text) && 1 <= out[k].page <= |doc.pages|)
      && (forall i, j :: 0 <= i < j < |out| ==> out[i].page <= out[j].page)
  {
    var ls := CleanLines(doc);
    CleanLinesFacts(doc);
    HeadingsKeepOrder(ls, Style.BodyFontSize(ls), Classifier.HeuristicsConfig, |doc.pages|);
    HierarchyKeepsOrder(HeadingLines(doc), |doc.pages|);
  }

  /**
   * The lines the classifier sees are body text at size 12 with no positive
   * signal, except the line at `p`: a bold, size-18 "1. Introduction" on
   * page 1, outside the header and footer zones.
   */
  predicate IntroductionScenario(ls: seq<Line>, p: nat) {
    && p < |ls|
    && ls[p].text == "1. Introduction" && ls[p].size == 18 && ls[p].page == 1
    && Classifier.IsBold(ls[p].flags) && !Classifier.InMargins(ls[p], Classifier.HeuristicsConfig)
    && forall k :: 0 <= k < |ls| && k != p ==>
         && ls[k].size == 12 && !Classifier.IsBold(ls[k].flags)
         && !HasNumbering(ls[k].text) && !IsAllCaps(ls[k].text)
  }

  /** In that scenario "1. Introduction" is the only heading, and the outline is that line alone at H1. */
  lemma IntroductionScenarioOutline(ls: seq<Line>, p: nat)
    requires IntroductionScenario(ls, p)
    ensures Hierarchy.Hierarchy(Classifier.Headings(ls, Style.BodyFontSize(ls), Classifier.HeuristicsConfig))
         == [Heading(H1, "1. Introduction", 1)]
  {
    var body := Style.BodyFontSize(ls);
    var cfg := Classifier.HeuristicsConfig;
    Style.BodyFontSizeIsMode(ls);
    assert body >= 12.0;
    Classifier.IntroductionPassesFilters();
    Classifier.BoldLineIsHeading(ls[p], body);
    forall k | 0 <= k < |ls| && k != p ensures !Classifier.IsHeading(ls[k], body, cfg) {
      Classifier.UnsignalledIsNotHeading(ls[k], body, cfg);
    }
    Classifier.OnlyHeading(ls, body, cfg, p);
    Hierarchy.SingleHeading(ls[p]);
  }

  /**
   * A document whose lines, once assembled and recombined, are body text at
   * size 12 and one bold size-18 "1. Introduction" on page 1 outside the
   * margins has the outline [H1 "1. Introduction", page 1].
   */
  lemma IntroductionDocument(doc: Document, p: nat)
    requires IntroductionScenario(CleanLines(doc), p)
    ensures OutlineOf(doc).outline == [Heading(H1, "1. Introduction", 1)]
  {
    IntroductionScenarioOutline(CleanLines(doc), p);
  }

  /** A document without pages has an empty outline; its title is the metadata title or the fallback. */
  lemma EmptyDocument(doc: Document)
    requires doc.pages == []
    ensures OutlineOf(doc).outline == []
    ensures OutlineOf(doc).title == if Title.MetadataUsable(doc.metadataTitle) then Strip(doc.metadataTitle.value) else Title.Fallback
  {
  }
}
