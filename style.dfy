/**
 * Style profiling: the body font size and body colour are the most frequent
 * line size and colour, with ties going to the value met first, as
 * `Counter(values).most_common(1)` picks them.
 */
module Style {
  import opened Layout

  /** Where `v` first occurs in `xs`. */
  function FirstIndex(xs: seq<int>, v: int): (i: nat)
    requires v in xs
    ensures i < |xs| && xs[i] == v
    ensures forall j :: 0 <= j < i ==> xs[j] != v
  {
    var init := xs[..|xs| - 1];
    if v in init then FirstIndex(init, v) else |xs| - 1
  }

  /**
   * A counter as Python's Counter keeps it: the distinct values in the order
   * they were first met, and how often each occurs.
   */
  datatype Tally = Tally(keys: seq<int>, counts: map<int, nat>)

  function Count(xs: seq<int>, v: int): nat {
    multiset(xs)[v]
  }

  /**
   * `t` is the counter of `xs`: its keys are the values of `xs`, each once,
   * in first-occurrence order, and each is mapped to its number of occurrences.
   */
  ghost predicate Counts(xs: seq<int>, t: Tally) {
    && (forall v :: v in t.counts <==> v in xs)
    && (forall v :: v in xs ==> v in t.keys)
    && (forall k :: 0 <= k < |t.keys| ==> t.keys[k] in xs)
    && (forall v :: v in t.counts ==> t.counts[v] == Count(xs, v))
    && (forall i, j :: 0 <= i < j < |t.keys| ==> FirstIndex(xs, t.keys[i]) < FirstIndex(xs, t.keys[j]))
  }

  lemma FirstIndexSnoc(xs: seq<int>, x: int, v: int)
    requires v in xs
    ensures FirstIndex(xs + [x], v) == FirstIndex(xs, v)
  {
    assert (xs + [x])[..|xs|] == xs;
  }

  /** Counting one more value keeps the counter right. */
  lemma CountsSnoc(xs: seq<int>, t: Tally, x: int)
    requires Counts(xs, t)
    ensures Counts(xs + [x], if x in t.counts then Tally(t.keys, t.counts[x := t.counts[x] + 1])
                             else Tally(t.keys + [x], t.counts[x := 1]))
  {
    var xs' := xs + [x];
    assert (xs + [x])[..|xs|] == xs;
    assert multiset(xs') == multiset(xs) + multiset{x};
    forall v | v in xs ensures FirstIndex(xs', v) == FirstIndex(xs, v) {
      FirstIndexSnoc(xs, x, v);
    }
    if x !in t.counts {
      var keys' := t.keys + [x];
      assert FirstIndex(xs', x) == |xs|;
      forall i, j | 0 <= i < j < |keys'| ensures FirstIndex(xs', keys'[i]) < FirstIndex(xs', keys'[j]) {
        assert keys'[i] == t.keys[i];
        if j < |t.keys| {
          assert keys'[j] == t.keys[j];
        }
      }
    }
  }

  /** `Counter(xs)`, built one value at a time. */
  function TallyOf(xs: seq<int>): (t: Tally)
    ensures Counts(xs, t)
    ensures xs != [] ==> t.keys != []
    ensures forall k :: 0 <= k < |t.keys| ==> t.keys[k] in t.counts
  {
    if xs == [] then Tally([], map[])
    else
      var init := xs[..|xs| - 1];
      var x := xs[|xs| - 1];
      var t := TallyOf(init);
      assert xs == init + [x];
      CountsSnoc(init, t, x);
      if x in t.counts then Tally(t.keys, t.counts[x := t.counts[x] + 1])
      else Tally(t.keys + [x], t.counts[x := 1])
  }

  /** The position `max` would return: the first key whose count no other key exceeds. */
  function BestIndex(keys: seq<int>, counts: map<int, nat>): (b: nat)
    requires keys != []
    requires forall k :: 0 <= k < |keys| ==> keys[k] in counts
    ensures b < |keys|
    ensures forall j :: 0 <= j < |keys| ==> counts[keys[j]] <= counts[keys[b]]
    ensures forall j :: 0 <= j < b ==> counts[keys[j]] < counts[keys[b]]
  {
    if |keys| == 1 then 0
    else
      var b := BestIndex(keys[..|keys| - 1], counts);
      if counts[keys[|keys| - 1]] > counts[keys[b]] then |keys| - 1 else b
  }

  /** A key met earlier stands earlier among the keys. */
  lemma KeysInFirstOrder(xs: seq<int>, t: Tally, p: nat, b: nat)
    requires Counts(xs, t) && p < |t.keys| && b < |t.keys|
    requires FirstIndex(xs, t.keys[p]) < FirstIndex(xs, t.keys[b])
    ensures p < b
  {
  }

  /** `Counter(xs).most_common(1)[0][0] if xs else default`. */
  function Mode(xs: seq<int>, default: int): int {
    if xs == [] then default
    else
      var t := TallyOf(xs);
      t.keys[BestIndex(t.keys, t.counts)]
  }

  /**
   * The mode of a non-empty sequence occurs in it, no value occurs more
   * often, and every value met before its first occurrence occurs strictly
   * less often; the mode of the empty sequence is the default.
   */
  lemma ModeIsFirstMostFrequent(xs: seq<int>, default: int)
    ensures xs == [] ==> Mode(xs, default) == default
    ensures xs != [] ==> Mode(xs, default) in xs
    ensures xs != [] ==> forall v :: Count(xs, v) <= Count(xs, Mode(xs, default))
    ensures xs != [] ==> forall j :: 0 <= j < FirstIndex(xs, Mode(xs, default)) ==> Count(xs, xs[j]) < Count(xs, Mode(xs, default))
  {
    if xs != [] {
      var t := TallyOf(xs);
      var b := BestIndex(t.keys, t.counts);
      var m := t.keys[b];
      forall v ensures Count(xs, v) <= Count(xs, m) {
        if v in xs {
          var p :| 0 <= p < |t.keys| && t.keys[p] == v;
        }
      }
      forall j | 0 <= j < FirstIndex(xs, m) ensures Count(xs, xs[j]) < Count(xs, m) {
        var v := xs[j];
        assert v in xs;
        var p :| 0 <= p < |t.keys| && t.keys[p] == v;
        assert FirstIndex(xs, v) <= j;
        KeysInFirstOrder(xs, t, p, b);
      }
    }
  }

  /** The sizes of the lines, in order. */
  function Sizes(ls: seq<Line>): (s: seq<int>)
    ensures |s| == |ls| && forall k :: 0 <= k < |ls| ==> s[k] == ls[k].size
  {
    seq(|ls|, k requires 0 <= k < |ls| => ls[k].size)
  }

  function Colors(ls: seq<Line>): (s: seq<int>)
    ensures |s| == |ls| && forall k :: 0 <= k < |ls| ==> s[k] == ls[k].color
  {
    seq(|ls|, k requires 0 <= k < |ls| => ls[k].color)
  }

  /** The body font size: the most frequent line size, 12 when there are no lines. */
  function BodyFontSize(ls: seq<Line>): real {
    if ls == [] then 12.0 else Mode(Sizes(ls), 0) as real
  }

  /** The body colour: the most frequent line colour, 0 when there are no lines. */
  function BodyColor(ls: seq<Line>): int {
    Mode(Colors(ls), 0)
  }

  /**
   * The body size is 12 without lines; otherwise it is the size of some line,
   * no size is carried by more lines, and every line before the first line of
   * that size has a size carried by strictly fewer lines.
   */
  lemma BodyFontSizeIsMode(ls: seq<Line>)
    ensures ls == [] ==> BodyFontSize(ls) == 12.0
    ensures ls != [] ==> exists k :: 0 <= k < |ls| && BodyFontSize(ls) == ls[k].size as real
    ensures ls != [] ==> forall v :: Count(Sizes(ls), v) <= Count(Sizes(ls), BodyFontSize(ls).Floor)
    ensures ls != [] ==> forall j :: 0 <= j < FirstIndex(Sizes(ls), BodyFontSize(ls).Floor) ==>
      Count(Sizes(ls), ls[j].size) < Count(Sizes(ls), BodyFontSize(ls).Floor)
  {
    if ls != [] {
      var m := Mode(Sizes(ls), 0);
      ModeIsFirstMostFrequent(Sizes(ls), 0);
      var k := FirstIndex(Sizes(ls), m);
      assert BodyFontSize(ls) == ls[k].size as real;
      assert (m as real).Floor == m;
    }
  }

  /** The same for the body colour, whose default is 0. */
  lemma BodyColorIsMode(ls: seq<Line>)
    ensures ls == [] ==> BodyColor(ls) == 0
    ensures ls != [] ==> exists k :: 0 <= k < |ls| && BodyColor(ls) == ls[k].color
    ensures ls != [] ==> forall v :: Count(Colors(ls), v) <= Count(Colors(ls), BodyColor(ls))
    ensures ls != [] ==> forall j :: 0 <= j < FirstIndex(Colors(ls), BodyColor(ls)) ==>
      Count(Colors(ls), ls[j].color) < Count(Colors(ls), BodyColor(ls))
  {
    if ls != [] {
      ModeIsFirstMostFrequent(Colors(ls), 0);
      var k := FirstIndex(Colors(ls), BodyColor(ls));
      assert BodyColor(ls) == ls[k].color;
    }
  }
}
