/**
 The floor of the dynamic program: how far a text can be cut before the floor can spoil the
 result, exactly, and how a dictionary brings it about.
 */
module MaxProbFloor {
  import opened Utf8
  import opened Trie
  import opened MaxProb

  /** Weights of any sign, none below least. */
  ghost predicate AtLeast(dict: Dictionary, minWeight: real, least: real) {
    minWeight >= least && forall w :: w in dict ==> dict[w].weight >= least
  }

  /** The cut of a range that starts at rune begin is a segmentation, and no segmentation weighs more. */
  ghost predicate IsHeaviest(dict: Dictionary, t: seq<Rune>, begin: nat, maxLen: nat, minWeight: real)
    requires SpellsItself(dict)
  {
    var best := Back(BestWords(dict, t, begin, maxLen, minWeight), begin);
    && IsSegmentation(dict, t, maxLen, 0, best)
    && forall words :: IsSegmentation(dict, t, maxLen, 0, words) ==>
         WordsWeight(dict, t, minWeight, words) <= WordsWeight(dict, t, minWeight, best)
  }

  lemma EdgesAtLeast(dict: Dictionary, t: seq<Rune>, maxLen: nat, minWeight: real, least: real)
    requires SpellsItself(dict) && AtLeast(dict, minWeight, least)
    ensures NoLighterThan(Filled(dict, t, maxLen, minWeight), least, minWeight)
  {
    var dags := Filled(dict, t, maxLen, minWeight);
    forall j, k | 0 <= j < |dags| && 0 <= k < |dags[j].nexts|
      ensures EdgeWeight(dags[j].nexts[k].1, minWeight) >= least
    {
      FilledEdges(dict, t, maxLen, minWeight, j);
      EdgesAre(dict, t, j, maxLen, dags[j].nexts[k]);
    }
  }

  lemma {:induction false} SuffixAtLeast(dict: Dictionary, t: seq<Rune>, maxLen: nat, minWeight: real, least: real, i: nat)
    requires SpellsItself(dict) && AtLeast(dict, minWeight, least) && least <= 0.0 && i <= |t|
    ensures WeightAt(Filled(dict, t, maxLen, minWeight), i) >= Times(|t| - i, least)
  {
    FilledFits(dict, t, maxLen, minWeight);
    EdgesAtLeast(dict, t, maxLen, minWeight, least);
    LightSuffix(Filled(dict, t, maxLen, minWeight), i, least, minWeight);
  }

  /** Only the first position can be at the floor, so behind it the cut is clear. */
  lemma {:induction false} ClearBehindFirst(dict: Dictionary, t: seq<Rune>, maxLen: nat, minWeight: real, least: real, i: nat)
    requires SpellsItself(dict) && AtLeast(dict, minWeight, least) && least <= 0.0 && 1 <= i <= |t|
    requires Times(|t| - 1, least) > MIN_DOUBLE && Walkable(Filled(dict, t, maxLen, minWeight))
    ensures Clear(Filled(dict, t, maxLen, minWeight), i)
    decreases |t| - i
  {
    hide Filled, AtLeast;
    FilledFits(dict, t, maxLen, minWeight);
    if i < |t| {
      SuffixAtLeast(dict, t, maxLen, minWeight, least, i);
      FewerTimes(|t| - i, |t| - 1, least);
      ClearBehindFirst(dict, t, maxLen, minWeight, least, i + Step(Filled(dict, t, maxLen, minWeight)[i]));
    }
  }

  /** A word of two runes or more at the start lifts the first position above the floor. */
  lemma {:induction false} LongWordLifts(dict: Dictionary, t: seq<Rune>, maxLen: nat, minWeight: real, least: real,
                                         w: WordRange)
    requires SpellsItself(dict) && AtLeast(dict, minWeight, least) && least <= 0.0
    requires IsWord(dict, t, maxLen, w) && w.left == 0 < w.right && Times(|t| - 1, least) > MIN_DOUBLE
    ensures WeightAt(Filled(dict, t, maxLen, minWeight), 0) > MIN_DOUBLE
  {
    hide Filled;
    WordIsBounded(dict, t, maxLen, minWeight, w);
    SuffixAtLeast(dict, t, maxLen, minWeight, least, w.right + 1);
    FewerTimes(|t| - w.right, |t| - 1, least);
    assert Times(|t| - w.right, least) == least + Times(|t| - w.right - 1, least);
    assert EdgeWeight(Lookup(dict, t[w.left..w.right + 1]), minWeight) >= least;
  }

  /** A start at the floor costs nothing: every segmentation begins with the same single rune. */
  lemma {:induction false} FlooredStart(dict: Dictionary, t: seq<Rune>, maxLen: nat, minWeight: real, least: real,
                                        words: seq<WordRange>)
    requires SpellsItself(dict) && AtLeast(dict, minWeight, least) && least <= 0.0 && t != []
    requires Times(|t| - 1, least) > MIN_DOUBLE && IsSegmentation(dict, t, maxLen, 0, words)
    requires WeightAt(Filled(dict, t, maxLen, minWeight), 0) <= MIN_DOUBLE
    ensures WordsWeight(dict, t, minWeight, words)
         <= WordsWeight(dict, t, minWeight, BestWords(dict, t, 0, maxLen, minWeight))
  {
    var dags := Filled(dict, t, maxLen, minWeight);
    FilledFits(dict, t, maxLen, minWeight);
    CutFromIsSegmentation(dict, t, maxLen, minWeight, 0);
    var best := Words(dags, 0, 0);
    hide Filled, AtLeast, IsWord, WordsWeight;
    StartsSingle(dict, t, maxLen, minWeight, least, words[0]);
    StartsSingle(dict, t, maxLen, minWeight, least, best[0]);
    hide IsSegmentation;
    assert words[0] == best[0] == WordRange(0, 0) && best[1..] == Words(dags, 0, 1);
    ClearBehindFirst(dict, t, maxLen, minWeight, least, 1);
    CutAttains(dict, t, maxLen, minWeight, 1);
    SegmentationBound(dict, t, maxLen, minWeight, 1, words[1..]);
    SameStart(dict, t, minWeight, words, best);
  }

  lemma {:induction false} SameStart(dict: Dictionary, t: seq<Rune>, minWeight: real, a: seq<WordRange>, b: seq<WordRange>)
    requires a != [] && b != [] && a[0] == b[0]
    requires WordsWeight(dict, t, minWeight, a[1..]) <= WordsWeight(dict, t, minWeight, b[1..])
    ensures WordsWeight(dict, t, minWeight, a) <= WordsWeight(dict, t, minWeight, b)
  {}

  lemma {:induction false} StartsSingle(dict: Dictionary, t: seq<Rune>, maxLen: nat, minWeight: real, least: real,
                                        w: WordRange)
    requires SpellsItself(dict) && AtLeast(dict, minWeight, least) && least <= 0.0
    requires IsWord(dict, t, maxLen, w) && w.left == 0 && Times(|t| - 1, least) > MIN_DOUBLE
    requires WeightAt(Filled(dict, t, maxLen, minWeight), 0) <= MIN_DOUBLE
    ensures w.right == 0
  {
    hide Filled, AtLeast;
    if w.right > 0 {
      LongWordLifts(dict, t, maxLen, minWeight, least, w);
    }
  }

  lemma {:induction false} LightTextsAreCutBest(dict: Dictionary, t: seq<Rune>, begin: nat, maxLen: nat, minWeight: real, least: real)
    requires SpellsItself(dict) && AtLeast(dict, minWeight, least) && least <= 0.0
    requires t != [] && Times(|t| - 1, least) > MIN_DOUBLE
    ensures IsHeaviest(dict, t, begin, maxLen, minWeight)
  {
    var dags := Filled(dict, t, maxLen, minWeight);
    FilledFits(dict, t, maxLen, minWeight);
    CutIsSegmentation(dict, t, begin, maxLen, minWeight);
    BestWordsMove(dict, t, begin, maxLen, minWeight);
    hide Filled, AtLeast, IsSegmentation, WordsWeight;
    forall words | IsSegmentation(dict, t, maxLen, 0, words)
      ensures WordsWeight(dict, t, minWeight, words)
           <= WordsWeight(dict, t, minWeight, BestWords(dict, t, 0, maxLen, minWeight))
    {
      if WeightAt(dags, 0) > MIN_DOUBLE {
        ClearBehindFirst(dict, t, maxLen, minWeight, least, Step(dags[0]));
        BestWordsAreBest(dict, t, begin, maxLen, minWeight, words);
      } else {
        FlooredStart(dict, t, maxLen, minWeight, least, words);
      }
    }
  }

  /** Where no edge scores above the floor, the position is at it and chooses nothing. */
  lemma FallsToFloor(dict: Dictionary, t: seq<Rune>, maxLen: nat, minWeight: real, i: nat)
    requires SpellsItself(dict) && i < |t|
    requires forall e :: e in EdgesFrom(dict, t, i, maxLen) ==>
      EdgeWeight(e.1, minWeight) + WeightAt(Filled(dict, t, maxLen, minWeight), e.0 + 1) <= MIN_DOUBLE
    ensures var dags := Filled(dict, t, maxLen, minWeight);
      |dags| == |t| && dags[i].weight == MIN_DOUBLE && dags[i].info == None
  {
    hide Filled, EdgesFrom, EdgeWeight;
    FilledEdges(dict, t, maxLen, minWeight, i);
    var dags := Filled(dict, t, maxLen, minWeight);
    FlooredIsNone(dags, dags[i].nexts, |dags[i].nexts|, minWeight);
    if dags[i].weight > MIN_DOUBLE {
      var e := ChoiceIsEdge(dags, i, minWeight);
    }
  }

  // A dictionary of one word, and a text that starts with it.

  ghost function OneWord(least: real): Dictionary {
    map[[0, 1] := DictUnit([0, 1], least)]
  }

  ghost function WordAndMore(n: nat): (t: seq<Rune>)
    requires n >= 2
    ensures |t| == n && t[0] == 0 && t[1] == 1 && forall i :: 1 <= i < n ==> t[i] != 0
  {
    [0, 1] + seq(n - 2, _ => 2)
  }

  lemma OnlySingles(n: nat, least: real, maxLen: nat, i: nat, e: Edge)
    requires 1 <= i < n && e in EdgesFrom(OneWord(least), WordAndMore(n), i, maxLen)
    ensures e == (i, None)
  {
    var dict, t := OneWord(least), WordAndMore(n);
    EdgesAre(dict, t, i, maxLen, e);
    OtherStart(n, least, i, i);
    OtherStart(n, least, i, e.0);
  }

  lemma OtherStart(n: nat, least: real, i: nat, j: nat)
    requires 1 <= i <= j < n
    ensures WordAndMore(n)[i..j + 1] !in OneWord(least)
  {
    assert WordAndMore(n)[i..j + 1][0] == WordAndMore(n)[i];
  }

  /** Behind its start the text is all single runes, no heavier than their count or the floor. */
  lemma {:induction false} RestIsSingles(n: nat, least: real, maxLen: nat, i: nat)
    requires 1 <= i <= n && n >= 2 && least < 0.0
    ensures var dags := Filled(OneWord(least), WordAndMore(n), maxLen, least);
      && |dags| == n && (i < n ==> dags[i].info == None)
      && (WeightAt(dags, i) <= MIN_DOUBLE || WeightAt(dags, i) <= Times(n - i, least))
    decreases n - i
  {
    var dict, t := OneWord(least), WordAndMore(n);
    var dags := Filled(dict, t, maxLen, least);
    hide Filled, OneWord, WordAndMore;
    SpellsOneWord(least);
    FilledFits(dict, t, maxLen, least);
    if i < n {
      RestIsSingles(n, least, maxLen, i + 1);
      assert Settled(dags, i, least);
      FilledEdges(dict, t, maxLen, least, i);
      FlooredIsNone(dags, dags[i].nexts, |dags[i].nexts|, least);
      if dags[i].weight > MIN_DOUBLE {
        hide Times, EdgesFrom;
        var e := ChoiceIsEdge(dags, i, least);
        OnlySingles(n, least, maxLen, i, e);
        OneTimeMore(n - i, least);
      }
    }
  }

  lemma OneTimeMore(n: nat, least: real)
    requires n > 0
    ensures Times(n, least) == least + Times(n - 1, least)
  {}

  lemma SpellsOneWord(least: real)
    ensures SpellsItself(OneWord(least)) && AtLeast(OneWord(least), least, least)
  {}

  lemma {:induction false} StartIsFloored(n: nat, least: real, maxLen: nat)
    requires n >= 2 && least < 0.0 && Times(n - 1, least) <= MIN_DOUBLE
    ensures var dags := Filled(OneWord(least), WordAndMore(n), maxLen, least);
      |dags| == n && dags[0].info == None
  {
    var dict, t := OneWord(least), WordAndMore(n);
    SpellsOneWord(least);
    RestIsSingles(n, least, maxLen, 1);
    RestIsSingles(n, least, maxLen, 2);
    FewerTimes(n - 1, n, least);
    forall e | e in EdgesFrom(dict, t, 0, maxLen)
      ensures EdgeWeight(e.1, least) + WeightAt(Filled(dict, t, maxLen, least), e.0 + 1) <= MIN_DOUBLE
    {
      hide Filled, Times;
      EdgesAre(dict, t, 0, maxLen, e);
      if e.0 > 0 {
        assert |t[0..e.0 + 1]| == e.0 + 1 && t[0..e.0 + 1] == [0, 1];
      }
      StartEdge(n, least);
    }
    FallsToFloor(dict, t, maxLen, least, 0);
  }

  lemma StartEdge(n: nat, least: real)
    requires n >= 2
    ensures Times(n, least) == least + Times(n - 1, least) && Times(n - 1, least) == least + Times(n - 2, least)
  {}

  lemma {:induction false} AllSingles(n: nat, least: real, maxLen: nat, i: nat)
    requires i < n && n >= 2 && least < 0.0 && Times(n - 1, least) <= MIN_DOUBLE
    ensures var dags := Filled(OneWord(least), WordAndMore(n), maxLen, least);
      |dags| == n && dags[i].info == None
  {
    hide Filled, OneWord, WordAndMore, Times;
    if i == 0 {
      StartIsFloored(n, least, maxLen);
    } else {
      RestIsSingles(n, least, maxLen, i);
    }
  }

  lemma {:induction false} SinglesWeigh(n: nat, least: real, maxLen: nat, i: nat)
    requires i <= n && n >= 2 && least < 0.0 && Times(n - 1, least) <= MIN_DOUBLE
    requires Walkable(Filled(OneWord(least), WordAndMore(n), maxLen, least))
    ensures WordsWeight(OneWord(least), WordAndMore(n), least, Words(Filled(OneWord(least), WordAndMore(n), maxLen, least), 0, i))
         == Times(n - i, least)
    decreases n - i
  {
    hide Filled, WordAndMore, Walkable, WordsWeight;
    var dict, t := OneWord(least), WordAndMore(n);
    var dags := Filled(dict, t, maxLen, least);
    AllSingles(n, least, maxLen, 0);
    if i < n {
      AllSingles(n, least, maxLen, i);
      SinglesWeigh(n, least, maxLen, i + 1);
      SingleFirst(n, least, i, Words(dags, 0, i + 1));
      assert Words(dags, 0, i) == [WordRange(i, i)] + Words(dags, 0, i + 1);
    } else {
      NoWords(n, least);
    }
  }

  lemma {:induction false} NoWords(n: nat, least: real)
    requires n >= 2
    ensures WordsWeight(OneWord(least), WordAndMore(n), least, []) == 0.0
  {}

  lemma {:induction false} SingleFirst(n: nat, least: real, i: nat, rest: seq<WordRange>)
    requires i < n && n >= 2
    ensures WordsWeight(OneWord(least), WordAndMore(n), least, [WordRange(i, i)] + rest)
         == least + WordsWeight(OneWord(least), WordAndMore(n), least, rest)
  {
    var words, t := [WordRange(i, i)] + rest, WordAndMore(n);
    assert words[1..] == rest && |t[i..i + 1]| == 1;
  }

  /** From that length on, there is a dictionary whose only word the cut breaks up for the worse. */
  lemma {:induction false} BreaksUpWord(n: nat, least: real, begin: nat, maxLen: nat)
    requires n >= 2 && maxLen >= 2 && Times(n - 1, least) <= MIN_DOUBLE
    ensures SpellsItself(OneWord(least)) && AtLeast(OneWord(least), least, least)
    ensures !IsHeaviest(OneWord(least), WordAndMore(n), begin, maxLen, least)
  {
    hide Filled, WordAndMore, OneWord, WordsWeight, IsSegmentation, Words, Times;
    var dict, t := OneWord(least), WordAndMore(n);
    SpellsOneWord(least);
    TimesIsNegative(n - 1, least);
    FilledFits(dict, t, maxLen, least);
    var dags := Filled(dict, t, maxLen, least);
    BestWordsMove(dict, t, begin, maxLen, least);
    CutFromIsSegmentation(dict, t, maxLen, least, 2);
    SinglesWeigh(n, least, maxLen, 0);
    SinglesWeigh(n, least, maxLen, 2);
    StartEdge(n, least);
    WordKept(n, least, maxLen, Words(dags, 0, 2));
  }

  lemma {:induction false} WordKept(n: nat, least: real, maxLen: nat, rest: seq<WordRange>)
    requires n >= 2 && maxLen >= 2 && IsSegmentation(OneWord(least), WordAndMore(n), maxLen, 2, rest)
    ensures var better := [WordRange(0, 1)] + rest;
      && IsSegmentation(OneWord(least), WordAndMore(n), maxLen, 0, better)
      && WordsWeight(OneWord(least), WordAndMore(n), least, better)
      == least + WordsWeight(OneWord(least), WordAndMore(n), least, rest)
  {
    var dict, t, better := OneWord(least), WordAndMore(n), [WordRange(0, 1)] + rest;
    assert better[1..] == rest && t[0..2] == [0, 1];
  }

  lemma {:induction false} TimesIsNegative(n: nat, least: real)
    requires Times(n, least) < 0.0
    ensures least < 0.0
  {
    if n > 0 && least >= 0.0 {
      TimesIsNegative(n - 1, least);
    }
  }

  /**
   Whatever the dictionary, the text and the place of the range in it, weights not below
   least and n runes make the cut a heaviest one.
   */
  ghost predicate AlwaysHeaviest(n: nat, least: real, begin: nat, maxLen: nat) {
    forall dict, t, minWeight :: SpellsItself(dict) && |t| == n && AtLeast(dict, minWeight, least) ==>
      IsHeaviest(dict, t, begin, maxLen, minWeight)
  }

  /**
   The exact bound, for weights of any sign: every range of n runes, wherever it starts, is
   cut into a heaviest segmentation, under every dictionary with no weight below least, if
   and only if n - 1 times least is above the floor (or n is at most one).
   */
  lemma AlwaysHeaviestIff(n: nat, least: real, begin: nat, maxLen: nat)
    requires maxLen >= 2
    ensures AlwaysHeaviest(n, least, begin, maxLen) <==> n <= 1 || (n - 1) as real * least > MIN_DOUBLE
  {
    if n <= 1 || (n - 1) as real * least > MIN_DOUBLE {
      var bound := if least <= 0.0 then least else 0.0;
      if n > 0 {
        TimesIsProduct(n - 1, bound);
      }
      forall dict, t, minWeight | SpellsItself(dict) && |t| == n && AtLeast(dict, minWeight, least)
        ensures IsHeaviest(dict, t, begin, maxLen, minWeight)
      {
        if n == 0 {
          NothingToCut(dict, t, begin, maxLen, minWeight);
        } else {
          assert AtLeast(dict, minWeight, bound);
          LightTextsAreCutBest(dict, t, begin, maxLen, minWeight, bound);
        }
      }
    } else {
      TimesIsProduct(n - 1, least);
      BreaksUpWord(n, least, begin, maxLen);
    }
  }

  lemma NothingToCut(dict: Dictionary, t: seq<Rune>, begin: nat, maxLen: nat, minWeight: real)
    requires SpellsItself(dict) && t == []
    ensures IsHeaviest(dict, t, begin, maxLen, minWeight)
  {
    FilledFits(dict, t, maxLen, minWeight);
    BestWordsMove(dict, t, begin, maxLen, minWeight);
    CutIsSegmentation(dict, t, begin, maxLen, minWeight);
  }

  // A user word of frequency 0: its weight is the logarithm of 0, below every number.

  function Spoiled(x: Rune, y: Rune, a: Rune, w: real, low: real): Dictionary {
    map[[x, y] := DictUnit([x, y], w), [a] := DictUnit([a], low)]
  }

  lemma SpoiledLookups(x: Rune, y: Rune, a: Rune, w: real, low: real)
    requires x != a && y != a
    ensures var d := Spoiled(x, y, a, w, low);
      && SpellsItself(d) && Lookup(d, [x]) == Lookup(d, [y]) == Lookup(d, [y, a]) == Lookup(d, [x, y, a]) == None
      && Lookup(d, [x, y]) == Some(DictUnit([x, y], w)) && Lookup(d, [a]) == Some(DictUnit([a], low))
  {
    assert [x] != [x, y] && [y] != [x, y] && [x][0] != [a][0] && [y][0] != [a][0];
    assert [y, a] != [a] && [y, a][1] != [x, y][1] && |[x, y, a]| == 3;
  }

  lemma {:induction false} SpoiledFloors(x: Rune, y: Rune, a: Rune, w: real, m: real, low: real, maxLen: nat, i: nat)
    requires x != a && y != a && w <= 0.0 && m <= 0.0 && low <= MIN_DOUBLE && i < 3
    requires SpellsItself(Spoiled(x, y, a, w, low))
    ensures var dags := Filled(Spoiled(x, y, a, w, low), [x, y, a], maxLen, m);
      |dags| == 3 && dags[i].weight == MIN_DOUBLE && dags[i].info == None
    decreases 3 - i
  {
    var d, t := Spoiled(x, y, a, w, low), [x, y, a];
    SpoiledLookups(x, y, a, w, low);
    FilledFits(d, t, maxLen, m);
    var dags := Filled(d, t, maxLen, m);
    assert t[0..1] == [x] && t[1..2] == [y] && t[2..3] == [a];
    assert t[0..2] == [x, y] && t[1..3] == [y, a] && t[0..3] == [x, y, a];
    hide Filled, Spoiled, Lookup;
    if i < 2 {
      SpoiledFloors(x, y, a, w, m, low, maxLen, i + 1);
    }
    if i < 1 {
      SpoiledFloors(x, y, a, w, m, low, maxLen, i + 2);
    }
    forall e | e in EdgesFrom(d, t, i, maxLen)
      ensures EdgeWeight(e.1, m) + WeightAt(dags, e.0 + 1) <= MIN_DOUBLE
    {
      EdgesAre(d, t, i, maxLen, e);
    }
    FallsToFloor(d, t, maxLen, m, i);
  }

  /**
   The floor matters: one rune that the user dictionary lists with frequency 0 breaks up the
   known word in front of it, though keeping the word weighs more.
   */
  lemma {:induction false} FloorCanLose(x: Rune, y: Rune, a: Rune, w: real, m: real, low: real, maxLen: nat)
    requires x != a && y != a && m + m < w <= 0.0 && low <= MIN_DOUBLE && maxLen >= 2
    ensures var d, t := Spoiled(x, y, a, w, low), [x, y, a];
      var kept := [WordRange(0, 1), WordRange(2, 2)];
      && SpellsItself(d) && IsSegmentation(d, t, maxLen, 0, kept)
      && BestWords(d, t, 0, maxLen, m) == [WordRange(0, 0), WordRange(1, 1), WordRange(2, 2)]
      && WordsWeight(d, t, m, BestWords(d, t, 0, maxLen, m)) < WordsWeight(d, t, m, kept)
  {
    var d, t := Spoiled(x, y, a, w, low), [x, y, a];
    SpoiledLookups(x, y, a, w, low);
    FilledFits(d, t, maxLen, m);
    for i := 0 to 3
      invariant forall j :: 0 <= j < i ==> Filled(d, t, maxLen, m)[j].info == None
    {
      SpoiledFloors(x, y, a, w, m, low, maxLen, i);
    }
    var dags := Filled(d, t, maxLen, m);
    hide Filled, Spoiled, Lookup;
    ThreeSingles(dags);
    TwoCuts(d, t, w, m, low, maxLen);
  }

  lemma {:induction false} ThreeSingles(dags: seq<Dag>)
    requires |dags| == 3 && Walkable(dags) && forall j :: 0 <= j < 3 ==> dags[j].info == None
    ensures Words(dags, 0, 0) == [WordRange(0, 0), WordRange(1, 1), WordRange(2, 2)]
  {
    assert Words(dags, 0, 3) == [];
    assert Words(dags, 0, 2) == [WordRange(2, 2)];
    assert Words(dags, 0, 1) == [WordRange(1, 1), WordRange(2, 2)];
  }

  lemma {:induction false} TwoCuts(d: Dictionary, t: seq<Rune>, w: real, m: real, low: real, maxLen: nat)
    requires |t| == 3 && SpellsItself(d) && m + m < w && maxLen >= 2
    requires Lookup(d, [t[0]]) == Lookup(d, [t[1]]) == None
    requires Lookup(d, [t[0], t[1]]) == Some(DictUnit([t[0], t[1]], w)) && Lookup(d, [t[2]]) == Some(DictUnit([t[2]], low))
    ensures var cut, kept := [WordRange(0, 0), WordRange(1, 1), WordRange(2, 2)], [WordRange(0, 1), WordRange(2, 2)];
      && IsSegmentation(d, t, maxLen, 0, kept) && WordsWeight(d, t, m, cut) < WordsWeight(d, t, m, kept)
  {
    var cut, kept := [WordRange(0, 0), WordRange(1, 1), WordRange(2, 2)], [WordRange(0, 1), WordRange(2, 2)];
    assert t[0..1] == [t[0]] && t[1..2] == [t[1]] && t[2..3] == [t[2]] && t[0..2] == [t[0], t[1]];
    assert kept[1..] == [WordRange(2, 2)] && cut[1..] == [WordRange(1, 1), WordRange(2, 2)];
    assert cut[1..][1..] == [WordRange(2, 2)] && [WordRange(2, 2)][1..] == [];
    assert WordsWeight(d, t, m, [WordRange(2, 2)]) == low;
    assert WordsWeight(d, t, m, cut[1..]) == m + low;
  }
}
