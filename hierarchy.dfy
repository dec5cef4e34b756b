/**
 * Hierarchy: the distinct heading sizes, largest first, give the levels H1,
 * H2 and H3; headings of any smaller size are dropped, and the outline keeps
 * document order.
 */
module Hierarchy {
  import opened Layout
  import opened Style

  predicate StrictlyDecreasing(u: seq<int>) {
    forall i, j :: 0 <= i < j < |u| ==> u[i] > u[j]
  }

  /** Adds `x` to a strictly decreasing sequence, keeping it strictly decreasing. */
  function InsertDesc(x: int, u: seq<int>): (r: seq<int>)
    requires StrictlyDecreasing(u)
    ensures StrictlyDecreasing(r)
    ensures forall v :: v in r <==> v == x || v in u
  {
    if u == [] then [x]
    else if x > u[0] then [x] + u
    else if x == u[0] then u
    else
      var rest := InsertDesc(x, u[1..]);
      var r := [u[0]] + rest;
      assert u == [u[0]] + u[1..];
      assert StrictlyDecreasing(r) by {
        forall i, j | 0 <= i < j < |r| ensures r[i] > r[j] {
          if i == 0 {
            assert r[j] in rest;
          } else {
            assert r[i] == rest[i - 1] && r[j] == rest[j - 1];
          }
        }
      }
      r
  }

  /** `sorted(set(sizes), reverse=True)`: each size once, largest first. */
  function DistinctSizes(hs: seq<Line>): (u: seq<int>)
    ensures StrictlyDecreasing(u)
    ensures forall v :: v in u <==> v in Sizes(hs)
  {
    if hs == [] then []
    else
      var init := hs[..|hs| - 1];
      assert Sizes(hs) == Sizes(init) + [hs[|hs| - 1].size];
      InsertDesc(hs[|hs| - 1].size, DistinctSizes(init))
  }

  function LevelAt(i: nat): Level
    requires i < 3
  {
    if i == 0 then H1 else if i == 1 then H2 else H3
  }

  /** H1, H2, H3 as 0, 1, 2. */
  function Rank(l: Level): nat {
    match l
    case H1 => 0
    case H2 => 1
    case H3 => 2
  }

  /** How many of the first three sizes there are. */
  function Top(u: seq<int>): nat {
    if |u| < 3 then |u| else 3
  }

  /** The size-to-level table: the i-th largest size, for i below 3, gets the i-th level. */
  function LevelTable(u: seq<int>): (table: map<int, Level>)
    requires StrictlyDecreasing(u)
    ensures forall v :: v in table <==> v in u[..Top(u)]
    ensures forall i :: 0 <= i < Top(u) ==> u[i] in table && table[u[i]] == LevelAt(i)
  {
    var t1: map<int, Level> := if |u| > 0 then map[u[0] := H1] else map[];
    var t2 := if |u| > 1 then t1[u[1] := H2] else t1;
    if |u| > 2 then t2[u[2] := H3] else t2
  }

  /** One outline entry per heading whose size has a level, in order. */
  function OutlineWith(hs: seq<Line>, table: map<int, Level>): (out: seq<Heading>)
    ensures |out| <= |hs|
  {
    if hs == [] then []
    else
      var x := hs[|hs| - 1];
      OutlineWith(hs[..|hs| - 1], table)
        + (if x.size in table then [Heading(table[x.size], x.text, x.page)] else [])
  }

  function Hierarchy(hs: seq<Line>): seq<Heading> {
    if hs == [] then [] else OutlineWith(hs, LevelTable(DistinctSizes(hs)))
  }

  /** A single heading becomes an H1 entry. */
  lemma SingleHeading(h: Line)
    ensures Hierarchy([h]) == [Heading(H1, h.text, h.page)]
  {
    assert [h][..0] == [];
    assert DistinctSizes([h]) == [h.size];
  }

  lemma OutlineWithStep(hs: seq<Line>, i: nat, table: map<int, Level>)
    requires i < |hs|
    ensures OutlineWith(hs[..i + 1], table)
         == OutlineWith(hs[..i], table) + (if hs[i].size in table then [Heading(table[hs[i].size], hs[i].text, hs[i].page)] else [])
  {
    assert hs[..i + 1][..i] == hs[..i];
  }

  /** `_determine_hierarchy`. */
  method DetermineHierarchy(classified: seq<Line>) returns (outline: seq<Heading>)
    ensures outline == Hierarchy(classified)
  {
    if classified == [] {
      return [];
    }
    var unique := DistinctSizes(classified);
    var table: map<int, Level> := map[];
    if |unique| > 0 {
      table := table[unique[0] := H1];
    }
    if |unique| > 1 {
      table := table[unique[1] := H2];
    }
    if |unique| > 2 {
      table := table[unique[2] := H3];
    }
    assert table == LevelTable(unique);
    outline := [];
    for i := 0 to |classified|
      invariant outline == OutlineWith(classified[..i], table)
    {
      var heading := classified[i];
      OutlineWithStep(classified, i, table);
      if heading.size in table {
        outline := outline + [Heading(table[heading.size], heading.text, heading.page)];
      }
    }
    assert classified[..|classified|] == classified;
  }

  // ---------------------------------------------------------------------------
  // Levels are ranks among the distinct sizes.

  /** The distinct heading sizes larger than `v`. */
  function LargerSizes(hs: seq<Line>, v: int): set<int> {
    set w | w in Sizes(hs) && w > v
  }

  lemma {:induction false} DistinctCount(u: seq<int>)
    requires StrictlyDecreasing(u)
    ensures |set w | w in u| == |u|
  {
    if u != [] {
      var init := u[..|u| - 1];
      var x := u[|u| - 1];
      DistinctCount(init);
      assert (set w | w in u) == (set w | w in init) + {x};
      assert x !in (set w | w in init);
    }
  }

  /** The sizes larger than the i-th largest are the sizes before it. */
  lemma LargerSizesArePrefix(hs: seq<Line>, i: nat)
    requires i < |DistinctSizes(hs)|
    ensures LargerSizes(hs, DistinctSizes(hs)[i]) == set w | w in DistinctSizes(hs)[..i]
  {
    var u := DistinctSizes(hs);
    var prefix := u[..i];
    var larger := LargerSizes(hs, u[i]);
    forall w | w in larger ensures w in prefix {
      var j :| 0 <= j < |u| && u[j] == w;
      assert j < i;
      assert prefix[j] == w;
    }
    forall w | w in prefix ensures w in larger {
      var j :| 0 <= j < i && prefix[j] == w;
      assert u[j] == w && u[j] > u[i];
    }
  }

  lemma PrefixDecreasing(u: seq<int>, i: nat)
    requires StrictlyDecreasing(u) && i <= |u|
    ensures StrictlyDecreasing(u[..i])
  {
    forall a, b | 0 <= a < b < i ensures u[..i][a] > u[..i][b] {
      assert u[..i][a] == u[a] && u[..i][b] == u[b];
    }
  }

  /** Exactly i distinct heading sizes are larger than the i-th largest. */
  lemma LargerSizesCount(hs: seq<Line>, i: nat)
    requires i < |DistinctSizes(hs)|
    ensures |LargerSizes(hs, DistinctSizes(hs)[i])| == i
  {
    var u := DistinctSizes(hs);
    LargerSizesArePrefix(hs, i);
    PrefixDecreasing(u, i);
    DistinctCount(u[..i]);
  }

  /**
   * A heading size gets a level exactly when fewer than three distinct
   * heading sizes are larger, and then the level's rank is how many are.
   */
  lemma LevelIsRank(hs: seq<Line>, v: int)
    requires v in Sizes(hs)
    ensures var table := LevelTable(DistinctSizes(hs));
      && (v in table <==> |LargerSizes(hs, v)| < 3)
      && (v in table ==> Rank(table[v]) == |LargerSizes(hs, v)|)
  {
    var u := DistinctSizes(hs);
    var i :| 0 <= i < |u| && u[i] == v;
    LargerSizesCount(hs, i);
    if i < Top(u) {
      assert v in u[..Top(u)];
    } else {
      assert v !in u[..Top(u)];
    }
  }

  /** Of two sizes that have levels, the larger has the smaller rank; equal sizes share a level. */
  lemma LevelsFollowSizes(hs: seq<Line>, v: int, w: int)
    requires v in Sizes(hs) && w in Sizes(hs)
    ensures var table := LevelTable(DistinctSizes(hs));
      v in table && w in table ==> (v > w <==> Rank(table[v]) < Rank(table[w]))
  {
    var u := DistinctSizes(hs);
    var table := LevelTable(u);
    if v in table && w in table {
      var i :| 0 <= i < Top(u) && u[i] == v;
      var j :| 0 <= j < Top(u) && u[j] == w;
      assert table[v] == LevelAt(i) && table[w] == LevelAt(j);
    }
  }

  /** Where the outline entries came from. */
  ghost function OutlineIndices(hs: seq<Line>, table: map<int, Level>): seq<nat> {
    if hs == [] then []
    else
      OutlineIndices(hs[..|hs| - 1], table) + (if hs[|hs| - 1].size in table then [|hs| - 1] else [])
  }

  /** One position per entry, increasing and inside `hs`. */
  lemma {:induction false} OutlineIndicesIncrease(hs: seq<Line>, table: map<int, Level>)
    ensures |OutlineIndices(hs, table)| == |OutlineWith(hs, table)|
    ensures Increasing(OutlineIndices(hs, table), |hs|)
  {
    if hs != [] {
      var init := hs[..|hs| - 1];
      OutlineIndicesIncrease(init, table);
      var idx0, idx := OutlineIndices(init, table), OutlineIndices(hs, table);
      if hs[|hs| - 1].size in table {
        assert idx == idx0 + [|init|];
        forall k | 0 < k < |idx| ensures idx[k - 1] < idx[k] {
          if k < |idx0| {
            assert idx[k - 1] == idx0[k - 1] && idx[k] == idx0[k];
          }
        }
      } else {
        assert idx == idx0;
      }
    }
  }

  /** A position is listed exactly when its heading's size has a level. */
  lemma {:induction false} OutlineIndicesCover(hs: seq<Line>, table: map<int, Level>)
    ensures forall i :: 0 <= i < |hs| ==> (i in OutlineIndices(hs, table) <==> hs[i].size in table)
  {
    if hs != [] {
      var init := hs[..|hs| - 1];
      OutlineIndicesCover(init, table);
      OutlineIndicesIncrease(init, table);
      var idx0, idx := OutlineIndices(init, table), OutlineIndices(hs, table);
      assert idx == idx0 + (if hs[|hs| - 1].size in table then [|init|] else []);
      forall i | 0 <= i < |hs| ensures i in idx <==> hs[i].size in table {
        if i < |init| {
          assert hs[i] == init[i];
        } else {
          assert |init| !in idx0;
        }
      }
    }
  }

  /** The k-th entry carries the text, page and level of the heading at the k-th position. */
  lemma {:induction false} OutlineEntries(hs: seq<Line>, table: map<int, Level>)
    ensures var out, idx := OutlineWith(hs, table), OutlineIndices(hs, table);
      && |idx| == |out| && Increasing(idx, |hs|)
      && (forall k :: 0 <= k < |out| ==>
            && hs[idx[k]].size in table
            && out[k] == Heading(table[hs[idx[k]].size], hs[idx[k]].text, hs[idx[k]].page))
  {
    OutlineIndicesIncrease(hs, table);
    if hs != [] {
      var init := hs[..|hs| - 1];
      var x := hs[|hs| - 1];
      OutlineEntries(init, table);
      var out0, idx0 := OutlineWith(init, table), OutlineIndices(init, table);
      var out, idx := OutlineWith(hs, table), OutlineIndices(hs, table);
      assert out == out0 + (if x.size in table then [Heading(table[x.size], x.text, x.page)] else []);
      assert idx == idx0 + (if x.size in table then [|init|] else []);
      forall k | 0 <= k < |out|
        ensures hs[idx[k]].size in table && out[k] == Heading(table[hs[idx[k]].size], hs[idx[k]].text, hs[idx[k]].page)
      {
        if k < |out0| {
          assert out[k] == out0[k] && idx[k] == idx0[k] && hs[idx[k]] == init[idx0[k]];
        }
      }
    }
  }

  /**
   * The k-th entry comes from the heading at the k-th of a list of increasing
   * positions and carries its text, its page and its size's level; a heading
   * is listed exactly when its size has a level.
   */
  lemma OutlineWithFacts(hs: seq<Line>, table: map<int, Level>)
    ensures var out, idx := OutlineWith(hs, table), OutlineIndices(hs, table);
      && |idx| == |out| && Increasing(idx, |hs|)
      && (forall k :: 0 <= k < |out| ==>
            && hs[idx[k]].size in table
            && out[k] == Heading(table[hs[idx[k]].size], hs[idx[k]].text, hs[idx[k]].page))
      && (forall i :: 0 <= i < |hs| ==> (i in idx <==> hs[i].size in table))
  {
    OutlineEntries(hs, table);
    OutlineIndicesCover(hs, table);
  }

  /**
   * The outline lists, in document order, exactly the headings with fewer
   * than three distinct larger heading sizes, each with its text, its page
   * and the level whose rank is that number.
   */
  lemma HierarchyFacts(hs: seq<Line>)
    ensures hs == [] ==> Hierarchy(hs) == []
    ensures var out, idx := Hierarchy(hs), OutlineIndices(hs, LevelTable(DistinctSizes(hs)));
      && |idx| == |out| && Increasing(idx, |hs|)
      && (forall k :: 0 <= k < |out| ==>
            && out[k].text == hs[idx[k]].text && out[k].page == hs[idx[k]].page
            && Rank(out[k].level) == |LargerSizes(hs, hs[idx[k]].size)|)
      && (forall i :: 0 <= i < |hs| ==> (i in idx <==> |LargerSizes(hs, hs[i].size)| < 3))
  {
    var table := LevelTable(DistinctSizes(hs));
    OutlineWithFacts(hs, table);
    var out, idx := Hierarchy(hs), OutlineIndices(hs, table);
    forall i | 0 <= i < |hs| ensures hs[i].size in table <==> |LargerSizes(hs, hs[i].size)| < 3 {
      assert hs[i].size == Sizes(hs)[i];
      LevelIsRank(hs, hs[i].size);
    }
    forall k | 0 <= k < |out| ensures Rank(out[k].level) == |LargerSizes(hs, hs[idx[k]].size)| {
      assert hs[idx[k]].size == Sizes(hs)[idx[k]];
      LevelIsRank(hs, hs[idx[k]].size);
    }
  }
}
