/**
 * Heading classification: a line is a heading when no rejection filter fires
 * and at least one enabled positive signal holds. Lines are judged one at a
 * time; the headings keep document order.
 */
module Classifier {
  import opened Text
  import opened Layout

  /**
   * The heuristics table entries the classifier reads. The citation and
   * numbering patterns are fixed predicates of module Text.
   */
  datatype Config = Config(
    headerMarginPercent: real,
    footerMarginPercent: real,
    maxWordCount: int,
    minWordCount: int,
    minSizeMultiplier: real,
    mustBeBold: bool,
    mustBeAllCaps: bool)

  /** The shipped table: 10% margins, 1..20 words, 1.15 x body size, bold and all-caps signals on. */
  const HeuristicsConfig := Config(10.0, 10.0, 20, 1, 1.15, true, true)

  /** Bit value 16 of the style flags marks bold text. */
  predicate IsBold(flags: nat) {
    (flags / 16) % 2 == 1
  }

  /** `_is_heading`, check by check in the order `_is_heading` makes them. */
  function IsHeading(line: Line, bodyFontSize: real, cfg: Config): bool {
    var text := line.text;
    if Contains(text, "arXiv") then false
    else
      var headerMargin := line.pageHeight * (cfg.headerMarginPercent / 100.0);
      var footerMargin := line.pageHeight * (cfg.footerMarginPercent / 100.0);
      if line.bbox.y0 < headerMargin || line.bbox.y1 > line.pageHeight - footerMargin then false
      else if HasCitation(text) then false
      else
        var wordCount := WordCount(text);
        if wordCount > cfg.maxWordCount then false
        else if wordCount < cfg.minWordCount && !StartsWithDigit(text) then false
        else
          var isLargeEnough := line.size as real > bodyFontSize * cfg.minSizeMultiplier;
          var isBold := if cfg.mustBeBold then IsBold(line.flags) else false;
          var hasNumbering := HasNumbering(text);
          var isAllCaps := if cfg.mustBeAllCaps then IsAllCaps(text) else false;
          isLargeEnough || isBold || hasNumbering || isAllCaps
  }

  // ---------------------------------------------------------------------------
  // The same decision stated as filters and signals.

  /** The line reaches into the header zone or the footer zone of its page. */
  predicate InMargins(line: Line, cfg: Config) {
    || line.bbox.y0 < line.pageHeight * cfg.headerMarginPercent / 100.0
    || line.bbox.y1 > line.pageHeight * (1.0 - cfg.footerMarginPercent / 100.0)
  }

  /** Some rejection filter fires. */
  ghost predicate Rejected(line: Line, cfg: Config) {
    || Contains(line.text, "arXiv")
    || InMargins(line, cfg)
    || (exists i, j, k :: CitationSpan(line.text, i, j, k))
    || WordCount(line.text) > cfg.maxWordCount
    || (WordCount(line.text) < cfg.minWordCount && !StartsWithDigit(line.text))
  }

  /** Some enabled positive signal holds. */
  predicate Signalled(line: Line, bodyFontSize: real, cfg: Config) {
    || line.size as real > bodyFontSize * cfg.minSizeMultiplier
    || (cfg.mustBeBold && IsBold(line.flags))
    || HasNumbering(line.text)
    || (cfg.mustBeAllCaps && IsAllCaps(line.text))
  }

  /** A line is a heading exactly when no filter fires and some signal holds. */
  lemma IsHeadingIff(line: Line, bodyFontSize: real, cfg: Config)
    ensures IsHeading(line, bodyFontSize, cfg) <==> !Rejected(line, cfg) && Signalled(line, bodyFontSize, cfg)
  {
    HasCitationIff(line.text);
    var h := line.pageHeight;
    assert h * (cfg.headerMarginPercent / 100.0) == h * cfg.headerMarginPercent / 100.0;
    assert h - h * (cfg.footerMarginPercent / 100.0) == h * (1.0 - cfg.footerMarginPercent / 100.0);
  }

  /** A line in the header or footer zone is rejected whatever its size, flags and text. */
  lemma MarginLinesAreRejected(line: Line, bodyFontSize: real, cfg: Config)
    requires InMargins(line, cfg)
    ensures !IsHeading(line, bodyFontSize, cfg)
  {
    IsHeadingIff(line, bodyFontSize, cfg);
  }

  /**
   * Size-30 bold text whose top is at 2% of the page height is rejected
   * under the shipped table, though its size and flags qualify it.
   */
  lemma LargeBoldHeaderIsRejected(text: string)
    ensures var line := Line(text, 30, "times", 16, 0, Rect(100.0, 16.0, 300.0, 46.0), 1, 800.0, 600.0);
            Signalled(line, 12.0, HeuristicsConfig) && !IsHeading(line, 12.0, HeuristicsConfig)
  {
    var line := Line(text, 30, "times", 16, 0, Rect(100.0, 16.0, 300.0, 46.0), 1, 800.0, 600.0);
    assert IsBold(16);
    MarginLinesAreRejected(line, 12.0, HeuristicsConfig);
  }

  /**
   * The leading-digit exemption of the minimum-word filter never applies:
   * a text with no words is all whitespace and so cannot start with a digit.
   * Under the shipped table that filter therefore rejects exactly the blank
   * texts.
   */
  lemma DigitExemptionNeverApplies(text: string)
    ensures WordCount(text) == 0 ==> !StartsWithDigit(text)
    ensures (WordCount(text) < HeuristicsConfig.minWordCount && !StartsWithDigit(text)) <==> AllSpace(text)
  {
    if WordCount(text) == 0 && text != [] {
      assert IsSpace(text[0]);
    }
  }

  /** "2.1 Methods" and "A Note" carry numbering. */
  lemma NumberedExamples()
    ensures HasNumbering("2.1 Methods")
    ensures HasNumbering("A Note")
  {
    var s := "2.1 Methods";
    assert s[..3] == "2.1";
    assert IsDottedNumber(s[..3]) && IsSpace(s[3]);
  }

  /**
   * "1. Introduction" carries no numbering: after "1." the pattern needs a
   * digit, and the dot is not whitespace.
   */
  lemma DottedSectionNumberIsNotNumbering()
    ensures !HasNumbering("1. Introduction")
  {
    var s := "1. Introduction";
    forall k | 1 <= k < |s| ensures !(IsDottedNumber(s[..k]) && IsSpace(s[k])) {
      if k == 1 {
        assert s[1] == '.' && !IsSpace(s[1]);
      } else {
        var p := s[..k];
        assert p[1] == '.' && !IsDigit(p[1]);
        if k == 2 {
          assert |p| == 2;
        } else {
          assert p[2] == ' ' && !IsDigit(p[2]);
        }
      }
    }
  }

  /** Without a positive signal no line is a heading, whatever the filters say. */
  lemma UnsignalledIsNotHeading(line: Line, bodyFontSize: real, cfg: Config)
    requires !Signalled(line, bodyFontSize, cfg)
    ensures !IsHeading(line, bodyFontSize, cfg)
  {
    IsHeadingIff(line, bodyFontSize, cfg);
  }

  /**
   * So a body-size, regular-weight "1. Introduction" is not a heading,
   * wherever it stands on the page.
   */
  lemma PlainIntroductionIsNotHeading(box: Rect)
    ensures var line := Line("1. Introduction", 12, "times", 0, 0, box, 1, 800.0, 600.0);
            !IsHeading(line, 12.0, HeuristicsConfig)
  {
    var line := Line("1. Introduction", 12, "times", 0, 0, box, 1, 800.0, 600.0);
    DottedSectionNumberIsNotNumbering();
    assert !IsBold(0);
    assert !IsAllCaps(line.text) by {
      assert IsLower(line.text[4]);
    }
    UnsignalledIsNotHeading(line, 12.0, HeuristicsConfig);
  }

  /**
   * A bold line outside the margins, free of "arXiv" and of citations, with 1
   * to 20 words, is a heading under the shipped table whatever the body size.
   */
  lemma BoldLineIsHeading(line: Line, bodyFontSize: real)
    requires IsBold(line.flags) && !InMargins(line, HeuristicsConfig)
    requires !Contains(line.text, "arXiv") && !HasCitation(line.text)
    requires 1 <= WordCount(line.text) <= 20
    ensures IsHeading(line, bodyFontSize, HeuristicsConfig)
  {
    IsHeadingIff(line, bodyFontSize, HeuristicsConfig);
    HasCitationIff(line.text);
  }

  /** "1. Introduction" holds no "arXiv" and no citation, and has between 1 and 20 words. */
  lemma IntroductionPassesFilters()
    ensures !Contains("1. Introduction", "arXiv") && !HasCitation("1. Introduction")
    ensures 1 <= WordCount("1. Introduction") <= 20
  {
    var s := "1. Introduction";
    assert 'a' !in s && '[' !in s;
    forall i | 0 <= i <= |s| - 5 ensures !OccursAt(s, "arXiv", i) {
      assert s[i..i + 5][0] == s[i] && s[i] in s;
    }
    forall i | 0 <= i < |s| ensures !CitationAt(s, i) {
      assert s[i] in s;
    }
    assert !IsSpace(s[0]);
  }

  // ---------------------------------------------------------------------------
  // `_classify_headings`.

  /** The lines that are headings, in their original order. */
  function Headings(ls: seq<Line>, bodyFontSize: real, cfg: Config): (hs: seq<Line>)
    ensures |hs| <= |ls|
    ensures forall h :: h in hs ==> h in ls && IsHeading(h, bodyFontSize, cfg)
  {
    if ls == [] then []
    else
      var init := ls[..|ls| - 1];
      var x := ls[|ls| - 1];
      assert forall h :: h in init ==> h in ls;
      Headings(init, bodyFontSize, cfg) + (if IsHeading(x, bodyFontSize, cfg) then [x] else [])
  }

  method ClassifyHeadings(lines: seq<Line>, bodyFontSize: real, cfg: Config) returns (headings: seq<Line>)
    ensures headings == Headings(lines, bodyFontSize, cfg)
  {
    headings := [];
    for i := 0 to |lines|
      invariant headings == Headings(lines[..i], bodyFontSize, cfg)
    {
      assert lines[..i + 1][..i] == lines[..i];
      if IsHeading(lines[i], bodyFontSize, cfg) {
        headings := headings + [lines[i]];
      }
    }
    assert lines[..|lines|] == lines;
  }

  /** The positions of the heading lines, in increasing order. */
  ghost function HeadingIndices(ls: seq<Line>, bodyFontSize: real, cfg: Config): seq<nat> {
    if ls == [] then []
    else
      var x := ls[|ls| - 1];
      HeadingIndices(ls[..|ls| - 1], bodyFontSize, cfg) + (if IsHeading(x, bodyFontSize, cfg) then [|ls| - 1] else [])
  }

  /** One position per heading, increasing and inside `ls`. */
  lemma {:induction false} HeadingIndicesIncrease(ls: seq<Line>, bodyFontSize: real, cfg: Config)
    ensures |HeadingIndices(ls, bodyFontSize, cfg)| == |Headings(ls, bodyFontSize, cfg)|
    ensures Increasing(HeadingIndices(ls, bodyFontSize, cfg), |ls|)
  {
    if ls != [] {
      var init := ls[..|ls| - 1];
      HeadingIndicesIncrease(init, bodyFontSize, cfg);
      var idx0, idx := HeadingIndices(init, bodyFontSize, cfg), HeadingIndices(ls, bodyFontSize, cfg);
      if IsHeading(ls[|ls| - 1], bodyFontSize, cfg) {
        assert idx == idx0 + [|init|];
        forall k | 0 < k < |idx| ensures idx[k - 1] < idx[k] {
          if k < |idx0| {
            assert idx[k - 1] == idx0[k - 1] && idx[k] == idx0[k];
          }
        }
      } else {
        assert idx == idx0;
      }
    }
  }

  /** Picking one more line, or none, keeps each picked line at its listed position. */
  lemma PickedSnoc(ls: seq<Line>, hs0: seq<Line>, idx0: seq<nat>, keep: bool, hs: seq<Line>, idx: seq<nat>)
    requires ls != [] && |idx0| == |hs0| && Increasing(idx0, |ls| - 1)
    requires forall k :: 0 <= k < |hs0| ==> hs0[k] == ls[..|ls| - 1][idx0[k]]
    requires hs == hs0 + (if keep then [ls[|ls| - 1]] else [])
    requires idx == idx0 + (if keep then [|ls| - 1] else [])
    ensures forall k :: 0 <= k < |hs| ==> idx[k] < |ls| && hs[k] == ls[idx[k]]
  {
    forall k | 0 <= k < |hs| ensures idx[k] < |ls| && hs[k] == ls[idx[k]] {
      if k < |hs0| {
        assert hs[k] == hs0[k] && idx[k] == idx0[k];
      }
    }
  }

  /** The k-th heading is the line at the k-th position. */
  lemma {:induction false} HeadingsAtIndices(ls: seq<Line>, bodyFontSize: real, cfg: Config)
    ensures var hs, idx := Headings(ls, bodyFontSize, cfg), HeadingIndices(ls, bodyFontSize, cfg);
      && |idx| == |hs| && Increasing(idx, |ls|)
      && (forall k :: 0 <= k < |hs| ==> hs[k] == ls[idx[k]])
  {
    HeadingIndicesIncrease(ls, bodyFontSize, cfg);
    if ls != [] {
      var init := ls[..|ls| - 1];
      HeadingsAtIndices(init, bodyFontSize, cfg);
      HeadingIndicesIncrease(init, bodyFontSize, cfg);
      PickedSnoc(ls, Headings(init, bodyFontSize, cfg), HeadingIndices(init, bodyFontSize, cfg),
                 IsHeading(ls[|ls| - 1], bodyFontSize, cfg), Headings(ls, bodyFontSize, cfg), HeadingIndices(ls, bodyFontSize, cfg));
    }
  }

  /** A position is listed exactly when its line is a heading. */
  lemma {:induction false} HeadingIndicesCover(ls: seq<Line>, bodyFontSize: real, cfg: Config)
    ensures forall i :: 0 <= i < |ls| ==> (i in HeadingIndices(ls, bodyFontSize, cfg) <==> IsHeading(ls[i], bodyFontSize, cfg))
  {
    if ls != [] {
      var init := ls[..|ls| - 1];
      HeadingIndicesCover(init, bodyFontSize, cfg);
      HeadingIndicesIncrease(init, bodyFontSize, cfg);
      var idx0, idx := HeadingIndices(init, bodyFontSize, cfg), HeadingIndices(ls, bodyFontSize, cfg);
      assert idx == idx0 + (if IsHeading(ls[|ls| - 1], bodyFontSize, cfg) then [|init|] else []);
      forall i | 0 <= i < |ls| ensures i in idx <==> IsHeading(ls[i], bodyFontSize, cfg) {
        if i < |init| {
          assert ls[i] == init[i];
        } else {
          assert |init| !in idx0;
        }
      }
    }
  }

  /** When the line at `p` is the only heading, the headings are that line alone. */
  lemma OnlyHeading(ls: seq<Line>, bodyFontSize: real, cfg: Config, p: nat)
    requires p < |ls| && IsHeading(ls[p], bodyFontSize, cfg)
    requires forall k :: 0 <= k < |ls| && k != p ==> !IsHeading(ls[k], bodyFontSize, cfg)
    ensures Headings(ls, bodyFontSize, cfg) == [ls[p]]
  {
    HeadingsAtIndices(ls, bodyFontSize, cfg);
    HeadingIndicesCover(ls, bodyFontSize, cfg);
    var hs, idx := Headings(ls, bodyFontSize, cfg), HeadingIndices(ls, bodyFontSize, cfg);
    forall k | 0 <= k < |idx| ensures idx[k] == p {
      assert idx[k] in idx;
    }
    assert p in idx;
    IncreasingSpread(idx, |ls|);
  }

  /**
   * The headings are an order-preserving subsequence of the lines: the k-th
   * heading is the line at the k-th position of an increasing list, and a
   * position is on that list exactly when its line is a heading.
   */
  lemma HeadingsAreSubsequence(ls: seq<Line>, bodyFontSize: real, cfg: Config)
    ensures var hs, idx := Headings(ls, bodyFontSize, cfg), HeadingIndices(ls, bodyFontSize, cfg);
      && |idx| == |hs| && Increasing(idx, |ls|)
      && (forall k :: 0 <= k < |hs| ==> hs[k] == ls[idx[k]])
      && (forall i :: 0 <= i < |ls| ==> (i in idx <==> IsHeading(ls[i], bodyFontSize, cfg)))
  {
    HeadingsAtIndices(ls, bodyFontSize, cfg);
    HeadingIndicesCover(ls, bodyFontSize, cfg);
  }
}
