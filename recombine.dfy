/**
 * Line recombination: one greedy left-to-right pass that folds a line into the
 * line before it when both share page, size and font and the second starts
 * just right of, or just below, the first.
 */
module Recombine {
  import opened Text
  import opened Layout

  /**
   * `next` continues `current`: same page, size and font, and a horizontal gap
   * in [0, 0.8 * size) or a vertical gap in [0, 5).
   */
  predicate Mergeable(current: Line, next: Line) {
    && next.page == current.page && next.size == current.size && next.font == current.font
    && (|| 0.0 <= next.bbox.x0 - current.bbox.x1 < current.size as real * 0.8
        || 0.0 <= next.bbox.y0 - current.bbox.y1 < 5.0)
  }

  /** `current` absorbs `next`: the texts are joined with one space and the boxes united; the style stays. */
  function Merge(current: Line, next: Line): (m: Line)
    ensures m.text == current.text + " " + next.text
    ensures Encloses(m.bbox, current.bbox) && Encloses(m.bbox, next.bbox)
    ensures SameAttributes(m, current)
  {
    current.(text := current.text + " " + next.text, bbox := Union(current.bbox, next.bbox))
  }

  /**
   * The result of the pass over `ls`: the last output line is the open
   * `current` line, which each further line either merges into or replaces.
   */
  function Recombined(ls: seq<Line>): (r: seq<Line>)
    ensures |r| <= |ls|
    ensures r == [] <==> ls == []
  {
    if ls == [] then []
    else
      var r := Recombined(ls[..|ls| - 1]);
      var x := ls[|ls| - 1];
      if r != [] && Mergeable(r[|r| - 1], x) then r[..|r| - 1] + [Merge(r[|r| - 1], x)]
      else r + [x]
  }

  /** One step of the pass, seen from its open line `current`. */
  lemma RecombinedSnoc(ls: seq<Line>, done: seq<Line>, current: Line, next: Line)
    requires Recombined(ls) == done + [current]
    ensures Recombined(ls + [next]) == if Mergeable(current, next) then done + [Merge(current, next)]
                                       else done + [current] + [next]
  {
    assert (ls + [next])[..|ls|] == ls;
    assert (done + [current])[..|done|] == done;
  }

  /** Step `i` of the pass over `ls`, seen from its open line `current`. */
  lemma RecombinedStep(ls: seq<Line>, i: nat, done: seq<Line>, current: Line)
    requires 0 < i < |ls| && Recombined(ls[..i]) == done + [current]
    ensures Recombined(ls[..i + 1]) == if Mergeable(current, ls[i]) then done + [Merge(current, ls[i])]
                                       else done + [current] + [ls[i]]
  {
    assert ls[..i + 1] == ls[..i] + [ls[i]];
    RecombinedSnoc(ls[..i], done, current, ls[i]);
  }

  /** `_recombine_lines`. */
  method RecombineLines(lines: seq<Line>) returns (recombined: seq<Line>)
    ensures recombined == Recombined(lines)
  {
    if lines == [] {
      return [];
    }
    recombined := [];
    var current := lines[0];
    assert lines[..1] == [] + [lines[0]];
    for i := 1 to |lines|
      invariant Recombined(lines[..i]) == recombined + [current]
    {
      var next := lines[i];
      RecombinedStep(lines, i, recombined, current);
      if Mergeable(current, next) {
        current := Merge(current, next);
      } else {
        recombined := recombined + [current];
        current := next;
      }
    }
    recombined := recombined + [current];
    assert lines[..|lines|] == lines;
  }

  // ---------------------------------------------------------------------------
  // No text is lost or reordered.

  function Texts(ls: seq<Line>): (ts: seq<string>)
    ensures |ts| == |ls|
  {
    if ls == [] then [] else Texts(ls[..|ls| - 1]) + [ls[|ls| - 1].text]
  }

  lemma TextsSnoc(ls: seq<Line>, x: Line)
    ensures Texts(ls + [x]) == Texts(ls) + [x.text]
  {
    assert (ls + [x])[..|ls|] == ls;
  }

  lemma JoinSpaceSnoc(parts: seq<string>, p: string)
    requires parts != []
    ensures JoinSpace(parts + [p]) == JoinSpace(parts) + " " + p
  {
    assert (parts + [p])[..|parts|] == parts;
  }

  /** Merging into the last line adds the merged text to the joined text exactly as appending a line would. */
  lemma JoinAfterMerge(a: seq<Line>, c: Line, x: Line)
    ensures JoinSpace(Texts(a + [Merge(c, x)])) == JoinSpace(Texts(a + [c])) + " " + x.text
  {
    TextsSnoc(a, Merge(c, x));
    TextsSnoc(a, c);
    if a != [] {
      JoinSpaceSnoc(Texts(a), Merge(c, x).text);
      JoinSpaceSnoc(Texts(a), c.text);
    }
  }

  /** Joining the output texts with spaces gives the same string as joining the input texts. */
  lemma {:induction false} RecombinedKeepsText(ls: seq<Line>)
    ensures JoinSpace(Texts(Recombined(ls))) == JoinSpace(Texts(ls))
  {
    if ls != [] {
      var init := ls[..|ls| - 1];
      var x := ls[|ls| - 1];
      assert ls == init + [x];
      RecombinedKeepsText(init);
      TextsSnoc(init, x);
      var r := Recombined(init);
      if r == [] {
        assert init == [];
        assert Recombined(ls) == [x];
      } else {
        JoinSpaceSnoc(Texts(init), x.text);
        var a, c := r[..|r| - 1], r[|r| - 1];
        assert r == a + [c];
        RecombinedSnoc(init, a, c, x);
        if Mergeable(c, x) {
          JoinAfterMerge(a, c, x);
        } else {
          TextsSnoc(r, x);
          JoinSpaceSnoc(Texts(r), x.text);
        }
      }
    }
  }

  // ---------------------------------------------------------------------------
  // Where each input line ends up.

  /** Everything but the text and the box agrees. */
  predicate SameAttributes(a: Line, b: Line) {
    && a.size == b.size && a.font == b.font && a.flags == b.flags && a.color == b.color
    && a.page == b.page && a.pageHeight == b.pageHeight && a.pageWidth == b.pageWidth
  }

  /** Same page, size and font. */
  predicate SameStyle(a: Line, b: Line) {
    a.page == b.page && a.size == b.size && a.font == b.font
  }

  /**
   * Where each output line's run of input lines starts: output line k is
   * made of the input lines RunStarts(ls)[k] up to the next start.
   */
  ghost function RunStarts(ls: seq<Line>): (st: seq<nat>)
    ensures |st| == |Recombined(ls)|
  {
    if ls == [] then []
    else
      var init := ls[..|ls| - 1];
      var r := Recombined(init);
      if r != [] && Mergeable(r[|r| - 1], ls[|ls| - 1]) then RunStarts(init)
      else RunStarts(init) + [|ls| - 1]
  }

  /** Where run k ends (exclusive): the next run's start, or the end of the input. */
  function RunEnd(st: seq<nat>, k: nat, n: nat): nat {
    if k + 1 < |st| then st[k + 1] else n
  }

  /** The runs start at 0 when there are lines, and their starts increase and stay below |ls|. */
  ghost predicate StartsOk(ls: seq<Line>, st: seq<nat>) {
    (ls != [] ==> st != [] && st[0] == 0) && Increasing(st, |ls|)
  }

  /** Output line k keeps every attribute but text and box of the first line of its run. */
  ghost predicate HeadsOk(ls: seq<Line>, r: seq<Line>, st: seq<nat>)
    requires forall k :: 0 <= k < |st| ==> st[k] < |ls|
  {
    |st| == |r| && forall k :: 0 <= k < |st| ==> SameAttributes(r[k], ls[st[k]])
  }

  /** Output line k's box encloses, and its page, size and font equal, those of every line of its run. */
  ghost predicate CoverOk(ls: seq<Line>, r: seq<Line>, st: seq<nat>) {
    && |st| == |r|
    && (forall k, i :: 0 <= k < |st| && st[k] <= i < RunEnd(st, k, |ls|) && i < |ls| ==>
          Encloses(r[k].bbox, ls[i].bbox) && SameStyle(r[k], ls[i]))
  }

  /** `r` cuts `ls` into consecutive runs starting at `st`. */
  ghost predicate Runs(ls: seq<Line>, r: seq<Line>, st: seq<nat>) {
    StartsOk(ls, st) && HeadsOk(ls, r, st) && CoverOk(ls, r, st)
  }

  lemma {:induction false} RecombinedStarts(ls: seq<Line>)
    ensures StartsOk(ls, RunStarts(ls))
  {
    if ls != [] {
      var init := ls[..|ls| - 1];
      var r := Recombined(init);
      RecombinedStarts(init);
      var st0 := RunStarts(init);
      if r != [] && Mergeable(r[|r| - 1], ls[|ls| - 1]) {
        assert RunStarts(ls) == st0;
        IncreasingWiden(st0, |init|, |ls|);
      } else {
        assert RunStarts(ls) == st0 + [|init|];
        IncreasingSnoc(st0, |init|);
      }
    }
  }

  lemma {:induction false} RecombinedHeads(ls: seq<Line>)
    ensures StartsOk(ls, RunStarts(ls))
    ensures HeadsOk(ls, Recombined(ls), RunStarts(ls))
  {
    RecombinedStarts(ls);
    if ls != [] {
      var init := ls[..|ls| - 1];
      var x := ls[|ls| - 1];
      RecombinedHeads(init);
      var st0, r0 := RunStarts(init), Recombined(init);
      var st, r := RunStarts(ls), Recombined(ls);
      forall k | 0 <= k < |st| ensures SameAttributes(r[k], ls[st[k]]) {
        if k < |st0| {
          assert ls[st[k]] == init[st0[k]];
          if r0 != [] && Mergeable(r0[|r0| - 1], x) && k == |r0| - 1 {
            assert r[k] == Merge(r0[k], x);
          } else {
            assert r[k] == r0[k];
          }
        }
      }
    }
  }

  lemma MergeKeepsCover(ls: seq<Line>, r: seq<Line>, st: seq<nat>, x: Line, ls': seq<Line>, r': seq<Line>)
    requires CoverOk(ls, r, st) && StartsOk(ls, st) && r != [] && Mergeable(r[|r| - 1], x)
    requires |ls'| == |ls| + 1 && ls'[..|ls|] == ls && ls'[|ls|] == x
    requires r' == r[..|r| - 1] + [Merge(r[|r| - 1], x)]
    ensures CoverOk(ls', r', st)
  {
    var n := |r| - 1;
    forall k, i | 0 <= k < |st| && st[k] <= i < RunEnd(st, k, |ls'|) && i < |ls'|
      ensures Encloses(r'[k].bbox, ls'[i].bbox) && SameStyle(r'[k], ls'[i])
    {
      if i == |ls| {
        if k < n {
          assert false;
        } else {
          assert r'[k] == Merge(r[n], x);
        }
      } else {
        assert ls'[i] == ls[i];
        if k < n {
          assert r'[k] == r[k];
          assert RunEnd(st, k, |ls'|) == RunEnd(st, k, |ls|);
        } else {
          assert Encloses(r'[k].bbox, r[k].bbox);
        }
      }
    }
  }

  lemma AppendKeepsCover(ls: seq<Line>, r: seq<Line>, st: seq<nat>, x: Line, ls': seq<Line>, r': seq<Line>, st': seq<nat>)
    requires CoverOk(ls, r, st) && StartsOk(ls, st)
    requires |ls'| == |ls| + 1 && ls'[..|ls|] == ls && ls'[|ls|] == x
    requires r' == r + [x] && st' == st + [|ls|]
    ensures CoverOk(ls', r', st')
  {
    forall k, i | 0 <= k < |st'| && st'[k] <= i < RunEnd(st', k, |ls'|) && i < |ls'|
      ensures Encloses(r'[k].bbox, ls'[i].bbox) && SameStyle(r'[k], ls'[i])
    {
      if k < |st| {
        assert RunEnd(st', k, |ls'|) == RunEnd(st, k, |ls|);
        assert r'[k] == r[k] && ls'[i] == ls[i];
      }
    }
  }

  lemma {:induction false} RecombinedCover(ls: seq<Line>)
    ensures CoverOk(ls, Recombined(ls), RunStarts(ls))
  {
    if ls != [] {
      var init := ls[..|ls| - 1];
      var x := ls[|ls| - 1];
      var r0 := Recombined(init);
      RecombinedCover(init);
      RecombinedStarts(init);
      assert ls[..|init|] == init;
      if r0 != [] && Mergeable(r0[|r0| - 1], x) {
        assert RunStarts(ls) == RunStarts(init);
        MergeKeepsCover(init, r0, RunStarts(init), x, ls, Recombined(ls));
      } else {
        AppendKeepsCover(init, r0, RunStarts(init), x, ls, Recombined(ls), RunStarts(ls));
      }
    }
  }

  /** The pass cuts its input into runs, one per output line. */
  lemma RecombinedRuns(ls: seq<Line>)
    ensures Runs(ls, Recombined(ls), RunStarts(ls))
  {
    RecombinedHeads(ls);
    RecombinedCover(ls);
  }

  // ---------------------------------------------------------------------------
  // A second pass can merge more.

  function SampleLine(text: string, box: Rect): Line {
    Line(text, 10, "f", 0, 0, box, 1, 800.0, 600.0)
  }

  /**
   * The pass is not idempotent: "b" and "c" merge vertically, the union's
   * left edge moves to 55, and only then is the pair within 0.8 * 10 of "a".
   */
  lemma RecombinationNotIdempotent()
    ensures var ls := [SampleLine("a", Rect(0.0, 0.0, 50.0, 10.0)),
                       SampleLine("b", Rect(70.0, 100.0, 90.0, 110.0)),
                       SampleLine("c", Rect(55.0, 112.0, 90.0, 120.0))];
            |Recombined(ls)| == 2 && |Recombined(Recombined(ls))| == 1
  {
    var a := SampleLine("a", Rect(0.0, 0.0, 50.0, 10.0));
    var b := SampleLine("b", Rect(70.0, 100.0, 90.0, 110.0));
    var c := SampleLine("c", Rect(55.0, 112.0, 90.0, 120.0));
    var ls := [a, b, c];
    assert ls[..1] == [a] && ls[..2] == [a, b];
    assert Recombined([a]) == [a];
    assert !Mergeable(a, b);
    assert Recombined([a, b]) == [a, b];
    assert Mergeable(b, c);
    var bc := Merge(b, c);
    assert Recombined(ls) == [a, bc];
    assert [a, bc][..1] == [a];
    assert Mergeable(a, bc);
    assert Recombined([a, bc]) == [Merge(a, bc)];
  }
}
