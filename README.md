# Outline extraction heuristics, modelled in Dafny

`DocumentProcessor` turns the styled, positioned text spans of a parsed PDF
into a title and an outline of H1/H2/H3 headings with page numbers. This
project models its layout heuristics and proves properties of them:

* **Line assembly** (`assembly.dfy`). The spans of every text block on a page
  are collected. They are sorted by (page, top, left) and cut greedily into
  groups: a span joins the open group when its top is within 2 of the
  group's last span and it starts 0 to 10 right of that span's right edge.
  Each group whose joined text is not blank becomes a line. The line carries
  the stripped text, the style of its first span and the union of the boxes.
* **Recombination** (`recombine.dfy`). One greedy pass. A line is folded
  into the open line when both share page, size and font, and the new line
  starts either 0 to 0.8 × size to the right of the open line or 0 to 5
  below it. The texts are joined with one space and the boxes united.
* **Style profiling** (`style.dfy`). The body font size and body colour are
  the most frequent line size and colour. A tie goes to the value met first,
  as `Counter(...).most_common(1)` picks it. With no lines the defaults are
  12 and 0.
* **Heading classification** (`classifier.dfy`). Five rejection filters run
  first:
  * the text contains "arXiv";
  * the line reaches into the 10% header zone or the 10% footer zone of its page;
  * the text holds a bracketed citation;
  * the text has more than 20 words;
  * the text has no word and does not start with a digit.

  A line that passes them is a heading when at least one of four signals
  holds: its size is above 1.15 × the body size, it is bold, it starts with
  a numbering prefix, or it is all capitals.
* **Hierarchy** (`hierarchy.dfy`). The largest, second and third distinct
  heading sizes become H1, H2 and H3. Headings of any other size are dropped.
  Document order is kept.
* **Title** (`title.dfy`). A metadata title is used when, once stripped, it
  is longer than 5 and does not start with "untitled" in any case. Otherwise
  the first page's upper-half text blocks are read, and the lines whose
  first span has the largest span size found there are joined with spaces.
  Otherwise the title is "Untitled Document".
* **The whole run** (`pipeline.dfy`) chains the stages. It proves what
  survives end to end: every outline entry has trimmed, non-empty text and a
  page number between 1 and the page count, and entries come in page order.
  It also proves one scenario: when the assembled and recombined lines are
  body text of size 12 plus one bold, size-18 "1. Introduction" on page 1
  clear of the margins, the outline is exactly one H1 entry,
  "1. Introduction" on page 1 (`Pipeline.IntroductionDocument`).

The PDF library's output is an input value: a `Document` holds an optional
metadata title and pages, each page holds its height, its width and its
blocks of lines of spans (`layout.dfy`).

Each loop of the source is a `method` whose `ensures` equates its result
with a specification function. The specification functions are defined
element by element from the end of the input, and the lemmas state their
properties. Character classes, case, stripping, word splitting and the two
regular expressions are written out by hand for ASCII (`text.dfy`).

Points where the code's behaviour is easy to misread:

* The most-frequent value. `Counter(...).most_common(1)` returns, among the
  values with the maximum count, the one met first. For sizes 12, 10, 10, 12
  it gives 12, although 10 is the first to reach a count of 2
  (`Style.ModeIsFirstMostFrequent`).
* A usable metadata title is returned stripped, not verbatim
  (`Title.MetadataTitleWins`).
* The upper-half test is on the bounding box of the text block, not of the
  span (`Title.LayoutTitleFacts`).
* If some upper-half line qualifies but all qualifying texts are blank, the
  title is that blank join, not the fallback.
* A second recombination pass can change the result: a vertical merge can
  move a line's left edge leftwards, bringing it within reach of the line
  before (`Recombine.RecombinationNotIdempotent`).

Also, as the code stands, "1. Introduction" carries no numbering prefix: the
pattern needs a digit after every dot. So a recombined "1." + "Introduction"
line of body size and regular weight is not a heading
(`Classifier.PlainIntroductionIsNotHeading`).

## Model

| member | source | states |
|---|---|---|
| Text.Strip | src/document_processor.py:130 | `strip()`: the result is a slice of the text with only whitespace cut off before and after it; it is empty exactly when the text is all whitespace, and otherwise neither of its ends is whitespace |
| Text.ToLower | src/document_processor.py:101 | `lower()`: same length, each upper-case letter replaced by its lower-case letter and every other character kept |
| Text.WordCount | src/document_processor.py:224 | `len(text.split())`: the number of positions where a run of non-whitespace begins, at most the text's length, and zero exactly when the text is all whitespace |
| Text.HasCitationIff | src/document_processor.py:16 | the citation scan succeeds exactly when some '[' is followed by one or more capitals, two or more digits and ']' |
| Layout.Union | src/document_processor.py:195-200 | the min/max box union encloses both boxes and each of its sides is a side of one of them |
| Assembly.LineSpans | src/document_processor.py:97-106 | one span per parser span, in order, with the font lower-cased and the page number attached |
| Assembly.PageSpans | src/document_processor.py:94-106 | every collected span carries the page's number |
| Assembly.CollectSpans | src/document_processor.py:93-106 | the nested collection loops yield exactly the spans of the text blocks, in block, line and span order |
| Assembly.SortSpans | src/document_processor.py:109 | the sort yields a permutation of the spans ordered by (page, top, left) |
| Assembly.Insert | src/document_processor.py:109 | inserting into a sorted list keeps it sorted and adds exactly the one span |
| Assembly.Groups | src/document_processor.py:111-127 | the greedy grouping has no more groups than spans, none exactly when there are no spans, and no empty group |
| Assembly.FlattenGroups | src/document_processor.py:115-127 | the groups, concatenated in order, give back exactly the sorted spans |
| Assembly.GroupsSplitWhereNotAdjacent | src/document_processor.py:118-127 | inside a group each span is aligned with and adjacent to the one before; each new group starts with a span that is not |
| Assembly.BoxOfFacts | src/document_processor.py:132-137 | a line's box encloses every member's box and each side is some member's side |
| Assembly.MakeLineFacts | src/document_processor.py:130-143 | a group yields no line exactly when its joined text is blank; otherwise the line's text is the stripped join, its size, font, flags, colour and page are the first span's, and its height and width are the page's |
| Assembly.MakeLineEncloses | src/document_processor.py:132-143 | a group's line has a box enclosing every member's box |
| Assembly.LinesOf | src/document_processor.py:129-161 | at most one line per group |
| Assembly.LinesComeFromGroups | src/document_processor.py:129-161 | every line is the line of some group |
| Assembly.CloseGroup | src/document_processor.py:129-143 | closing the open group appends its line, if it has one, to the lines of the groups closed before |
| Assembly.GroupLines | src/document_processor.py:115-161 | the grouping loop with its open group yields exactly the lines of the greedy groups |
| Assembly.AssemblePage | src/document_processor.py:89-161 | one page's loop body yields the lines of its sorted, grouped spans |
| Assembly.ExtractAllLines | src/document_processor.py:81-163 | the page loop yields the pages' lines in page order |
| Assembly.LinesOfFacts | src/document_processor.py:130-161 | every line of a page's groups has non-empty text with no whitespace at either end and carries the page's number, height and width |
| Assembly.PageLinesFacts | src/document_processor.py:93-161 | a page yields no more lines than spans; each line is trimmed and non-empty and carries the page's number, height and width |
| Assembly.SortedGroupHeads | src/document_processor.py:109-127 | cutting the sorted spans into groups leaves each group's first span ahead of its members in (page, top, left) order, and the first spans in that order |
| Assembly.MakeLineTop | src/document_processor.py:132-137 | when a group's first span is its topmost, the line's top is that span's top |
| Assembly.LinesOfTopsIncrease | src/document_processor.py:129-161 | when each group's first span is topmost in it and the first spans' tops never decrease, the lines' tops never decrease |
| Assembly.SortedSpansTopsIncrease | src/document_processor.py:109-161 | the lines of the groups of sorted spans of one page have tops that never decrease |
| Assembly.PageLinesTopToBottom | src/document_processor.py:93-161 | a page's lines come top to bottom: their tops never decrease |
| Assembly.AllLinesInPageOrder | src/document_processor.py:88-163 | all lines carry page numbers between 1 and the page count, never decreasing, and within a page their tops never decrease |
| Recombine.Merge | src/document_processor.py:194-200 | a merge joins the texts with one space, encloses both boxes and keeps every other attribute of the open line |
| Recombine.Recombined | src/document_processor.py:171-207 | the output is empty exactly when the input is, and no longer than it |
| Recombine.RecombinedSnoc | src/document_processor.py:186-204 | one more line either merges into the open line or closes it and becomes the new open line |
| Recombine.RecombineLines | src/document_processor.py:166-207 | the pass with its running current line yields exactly the recombined lines |
| Recombine.RecombinedKeepsText | src/document_processor.py:194 | joining the output texts with spaces gives the same string as joining the input texts: nothing lost or reordered |
| Recombine.RecombinedRuns | src/document_processor.py:177-207 | the output cuts the input into consecutive runs; each output line keeps the style of its run's first line, encloses the box of every line of the run and shares their page, size and font |
| Recombine.RecombinationNotIdempotent | src/document_processor.py:186-200 | three lines that one pass reduces to two and a second pass to one |
| Style.TallyOf | src/document_processor.py:301 | the tally lists each value once, in first-occurrence order, with its number of occurrences |
| Style.BestIndex | src/document_processor.py:301 | the chosen key has the largest count and every earlier key a strictly smaller one |
| Style.ModeIsFirstMostFrequent | src/document_processor.py:301 | the mode occurs in the values, no value occurs more often, and every value met before it occurs strictly less often |
| Style.BodyFontSizeIsMode | src/document_processor.py:300-301 | the body size is 12 without lines, else the size of some line, carried by as many lines as any size and by more than every size met earlier |
| Style.BodyColorIsMode | src/document_processor.py:303-304 | the body colour is 0 without lines, else chosen by the same rule |
| Classifier.IsHeadingIff | src/document_processor.py:211-239 | a line is a heading exactly when no rejection filter fires and at least one enabled signal holds |
| Classifier.MarginLinesAreRejected | src/document_processor.py:219-222 | a line reaching into the header or footer zone is never a heading |
| Classifier.LargeBoldHeaderIsRejected | src/document_processor.py:219-222 | size-30 bold text whose top is at 2% of the page qualifies by its signals yet is rejected |
| Classifier.DigitExemptionNeverApplies | src/document_processor.py:224-227 | a text without words cannot start with a digit, so the minimum-word filter rejects exactly the blank texts |
| Classifier.NumberedExamples | src/document_processor.py:232 | "2.1 Methods" and "A Note" carry a numbering prefix |
| Classifier.DottedSectionNumberIsNotNumbering | src/document_processor.py:232 | "1. Introduction" carries no numbering prefix |
| Classifier.UnsignalledIsNotHeading | src/document_processor.py:229-239 | without a positive signal no line is a heading |
| Classifier.BoldLineIsHeading | src/document_processor.py:218-236 | a bold line clear of the margins, without "arXiv" or a citation and with 1 to 20 words is a heading, whatever the body size |
| Classifier.IntroductionPassesFilters | src/document_processor.py:218-227 | "1. Introduction" holds neither "arXiv" nor a citation and has between 1 and 20 words, so no text filter rejects it |
| Classifier.PlainIntroductionIsNotHeading | src/document_processor.py:229-239 | a body-size, regular-weight "1. Introduction" is not a heading anywhere on the page |
| Classifier.Headings | src/document_processor.py:241-250 | every kept line is one of the lines and a heading |
| Classifier.ClassifyHeadings | src/document_processor.py:241-250 | the loop keeps exactly the heading lines, in order |
| Classifier.HeadingsAtIndices | src/document_processor.py:245-250 | the k-th heading is the line at the k-th of a list of increasing positions |
| Classifier.OnlyHeading | src/document_processor.py:241-250 | when exactly one line is a heading, the classification is that line alone |
| Classifier.HeadingsAreSubsequence | src/document_processor.py:245-250 | the headings sit at increasing positions of the lines, and a position is kept exactly when its line is a heading |
| Hierarchy.InsertDesc | src/document_processor.py:261 | adding a size to a strictly decreasing list keeps it strictly decreasing and adds exactly that size |
| Hierarchy.DistinctSizes | src/document_processor.py:261 | the distinct heading sizes, each once, strictly decreasing |
| Hierarchy.LevelTable | src/document_processor.py:264-270 | exactly the three largest sizes have levels: the i-th largest gets H1, H2, H3 in turn |
| Hierarchy.DetermineHierarchy | src/document_processor.py:253-282 | the table build and the outline loop yield exactly the hierarchy of the headings |
| Hierarchy.LargerSizesCount | src/document_processor.py:261 | exactly i distinct heading sizes exceed the i-th largest |
| Hierarchy.LevelIsRank | src/document_processor.py:261-276 | a size has a level exactly when fewer than three distinct sizes exceed it; the level's rank is that number |
| Hierarchy.LevelsFollowSizes | src/document_processor.py:264-270 | of two sizes with levels, the larger has the higher level, and equal sizes share one |
| Hierarchy.SingleHeading | src/document_processor.py:253-282 | a single heading becomes one H1 entry with its text and page |
| Hierarchy.OutlineEntries | src/document_processor.py:273-282 | the k-th outline entry comes from the heading at the k-th of a list of increasing positions and carries its text, page and level |
| Hierarchy.OutlineWithFacts | src/document_processor.py:273-282 | outline entries come from increasing heading positions and carry their text, page and level; a heading is listed exactly when its size has a level |
| Hierarchy.HierarchyFacts | src/document_processor.py:253-282 | no headings give no outline; the outline lists, in order, exactly the headings with fewer than three larger distinct sizes, with their text, their page and the level of that rank |
| Title.LargestIsMax | src/document_processor.py:58-63 | the running maximum from 0 is at least 0, no upper-half span exceeds it, and it is 0 or some span's size |
| Title.RaiseOverSpans | src/document_processor.py:62-63 | the innermost loop raises the running maximum over one line's spans |
| Title.RaiseOverLines | src/document_processor.py:61-63 | the line loop raises the running maximum over a block's spans |
| Title.LargestUpperSize | src/document_processor.py:58-63 | the block loop yields the running maximum of all upper-half span sizes |
| Title.CollectFromLines | src/document_processor.py:67-71 | the line loop appends the texts of the lines whose first span has the largest size |
| Title.CollectCandidates | src/document_processor.py:66-71 | the block loop collects exactly the candidate texts of the upper-half blocks |
| Title.Leading | src/document_processor.py:69-71 | the lines kept are exactly those whose first span has the given size |
| Title.CandidatesAreLeadingLines | src/document_processor.py:66-71 | the candidates are, in order, the stripped texts of exactly the lines that lead with the largest size |
| Title.GetDocumentTitle | src/document_processor.py:39-77 | the title method returns exactly the document's title as defined |
| Title.MetadataTitleWins | src/document_processor.py:45-48 | a usable metadata title is returned stripped, longer than 5 and not starting with "untitled" |
| Title.LayoutTitleFacts | src/document_processor.py:50-77 | otherwise the title is the fallback, or the space-joined texts of the upper-half lines whose first span has a size no upper-half span exceeds |
| Title.TwoLargestLinesMakeTheTitle | src/document_processor.py:50-74 | upper-half lines of sizes 24, 24, 12, 12, 10 give the two size-24 texts joined by a space |
| Pipeline.Process | src/document_processor.py:286-316 | processing yields the title and the hierarchy of the headings of the recombined lines |
| Pipeline.AssembledLinesTrimmed | src/document_processor.py:130-161 | every assembled line's text is non-empty with no whitespace at either end |
| Pipeline.MergeKeepsTrimmed | src/document_processor.py:194 | joining two trimmed texts with a space gives a trimmed text |
| Pipeline.RecombinedTrimmed | src/document_processor.py:177-207 | recombining trimmed lines gives trimmed lines |
| Pipeline.RecombinedInPageOrder | src/document_processor.py:181-207 | recombination keeps page numbers in range and never decreasing |
| Pipeline.CleanLinesFacts | src/document_processor.py:294-297 | the lines the classifier sees are trimmed and in page order |
| Pipeline.NoCleanLineIsTooShort | src/document_processor.py:224-227 | every line the classifier sees has at least one word, so the minimum-word filter never rejects one |
| Pipeline.HeadingsKeepOrder | src/document_processor.py:245-250 | classification keeps trimmed text and page order |
| Pipeline.HierarchyKeepsOrder | src/document_processor.py:273-282 | the hierarchy keeps trimmed text, page range and page order |
| Pipeline.OutlineFacts | src/document_processor.py:286-316 | every outline entry has trimmed, non-empty text and a page number between 1 and the page count, and page numbers never decrease |
| Pipeline.IntroductionScenarioOutline | src/document_processor.py:211-282 | among body lines of size 12 without signals, a bold size-18 "1. Introduction" on page 1 clear of the margins yields the outline of that one H1 entry |
| Pipeline.IntroductionDocument | src/document_processor.py:286-316 | a document whose assembled and recombined lines form that scenario has the outline [H1 "1. Introduction", page 1] |
| Pipeline.EmptyDocument | src/document_processor.py:286-316 | a document without pages has an empty outline and the metadata title or the fallback |

## Left out

- The command-line driver `main.py` is not part of this model: it scans directories, opens files, writes JSON and catches errors per file.
- The PDF library is not modelled. Its output, the metadata title and each page's height, width and blocks of lines of spans, is the input value `Document`.
- Font sizes are modelled as the integers `round` gives, so `round` is not modelled. In the title scan the source compares the rounded first-span size with the rounded raw maximum; since rounding keeps order, that equals comparing rounded sizes with the maximum of rounded sizes.
- Coordinates and the 0.8, 1.15 and percentage factors are exact reals. Floating-point rounding at the thresholds is not modelled.
- Whitespace, digits, case, stripping, `split` and `isupper` are modelled for ASCII only, and the two regular expressions are modelled by hand-written predicates. Unicode is not modelled.
- Assembly.SortSpans: states that the result is sorted and a permutation, not that spans with equal keys keep their order. The insertion sort puts a span before equal-keyed later ones, as Python's stable sort does, but this is not proved.
- Assembly.AllLinesInPageOrder: states page order and top-to-bottom order within a page, not left-to-right order among lines with equal tops, because a line's left edge is the leftmost of its group's spans rather than its first span's.
- Recombine.RecombineLines: the source updates the text and box of the input's line records in place. The model works on values. The caller drops the input list right away, so the aliasing is not observable there.
- The configuration keys the code never reads are not modelled: the colour and centering signals and their tolerance. The citation pattern is the fixed predicate `Text.HasCitation`, not a configurable string.
- The body colour is modelled (`Style.BodyColor`) and proved to follow the most-frequent rule. The classifier ignores it, so `Pipeline.Process` does not compute it and `Classifier.IsHeading` does not take it.
- Exceptions and error objects are not modelled. Every input document yields an outline.
