/**
 Maximum-probability segmentation: the best weight of every suffix of a text along the
 edges of its word graph, and the cut that follows the choices made.
 */
module MaxProb {
  import opened Utf8
  import opened Trie

  /** Weights start here, and a position whose best value is no higher stays here. */
  const MIN_DOUBLE: real :=
    -31400000000000000000000000000000000000000000000000000000000000000000000000000000000000000000000000000.0

  /** A word of a cut: the positions of its first and last rune. */
  datatype WordRange = WordRange(left: nat, right: nat)

  /** What is recorded for a position. */
  datatype Choice = Choice(info: Option<DictUnit>, weight: real)

  /** Every position has an edge, and every edge leads forward inside the text. */
  ghost predicate Forward(dags: seq<Dag>) {
    forall i :: 0 <= i < |dags| ==>
      && dags[i].nexts != []
      && forall k :: 0 <= k < |dags[i].nexts| ==> i <= dags[i].nexts[k].0 < |dags|
  }

  function EdgeWeight(p: Option<DictUnit>, minWeight: real): real {
    if p.Some? then p.value.weight else minWeight
  }

  /** The value of an edge, given the weight recorded behind it. */
  function Value(dags: seq<Dag>, e: Edge, minWeight: real): real {
    (if e.0 + 1 < |dags| then dags[e.0 + 1].weight else 0.0) + EdgeWeight(e.1, minWeight)
  }

  /** The first k edges of a position tried in turn, a later one taken only if strictly better. */
  function Try(dags: seq<Dag>, nexts: seq<Edge>, k: nat, minWeight: real): Choice
    requires k <= |nexts|
  {
    if k == 0 then Choice(None, MIN_DOUBLE)
    else
      var best, e := Try(dags, nexts, k - 1, minWeight), nexts[k - 1];
      if Value(dags, e, minWeight) > best.weight then Choice(e.1, Value(dags, e, minWeight)) else best
  }

  /** Position i records the best of its edges, in view of what the positions behind it record. */
  ghost predicate Settled(dags: seq<Dag>, i: nat, minWeight: real)
    requires i < |dags|
  {
    Choice(dags[i].info, dags[i].weight) == Try(dags, dags[i].nexts, |dags[i].nexts|, minWeight)
  }

  ghost predicate AllSettled(dags: seq<Dag>, lo: nat, minWeight: real) {
    forall i :: lo <= i < |dags| ==> Settled(dags, i, minWeight)
  }

  ghost predicate SameGraph(a: seq<Dag>, b: seq<Dag>) {
    |a| == |b| && forall i :: 0 <= i < |a| ==> a[i].nexts == b[i].nexts && a[i].rune == b[i].rune
  }

  /** The graph with positions i to the last filled in, the last one first. */
  function Fill(g: seq<Dag>, i: nat, minWeight: real): (r: seq<Dag>)
    requires i <= |g|
    ensures |r| == |g| && SameGraph(r, g) && r[..i] == g[..i]
    decreases |g| - i
  {
    if i == |g| then g
    else
      var behind := Fill(g, i + 1, minWeight);
      var best := Try(behind, g[i].nexts, |g[i].nexts|, minWeight);
      behind[i := behind[i].(info := best.info, weight := best.weight)]
  }

  method CalcDP(dags: array<Dag>, minWeight: real)
    modifies dags
    ensures dags[..] == Fill(old(dags[..]), 0, minWeight)
  {
    hide Fill, SameGraph;
    FillNothing(dags[..], minWeight);
    var i := dags.Length;
    while i > 0
      invariant 0 <= i <= dags.Length
      invariant dags[..] == Fill(old(dags[..]), i, minWeight)
    {
      i := i - 1;
      ghost var behind := dags[..];
      FillOne(old(dags[..]), i, minWeight);
      var nexts := dags[i].nexts;
      var best := Choice(None, MIN_DOUBLE);
      var k := 0;
      while k < |nexts|
        invariant k <= |nexts| && dags[..] == behind
        invariant best == Try(behind, nexts, k, minWeight)
      {
        var nextPos, p := nexts[k].0, nexts[k].1;
        var val := 0.0;
        if nextPos + 1 < dags.Length {
          val := val + dags[nextPos + 1].weight;
        }
        if p.Some? {
          val := val + p.value.weight;
        } else {
          val := val + minWeight;
        }
        if val > best.weight {
          best := Choice(p, val);
        }
        k := k + 1;
      }
      dags[i] := dags[i].(info := best.info, weight := best.weight);
    }
  }

  lemma {:induction false} FillNothing(g: seq<Dag>, minWeight: real)
    ensures Fill(g, |g|, minWeight) == g
  {}

  lemma FillOne(g: seq<Dag>, i: nat, minWeight: real)
    requires i < |g|
    ensures var behind := Fill(g, i + 1, minWeight);
      var best := Try(behind, g[i].nexts, |g[i].nexts|, minWeight);
      && |behind| == |g| && behind[i].nexts == g[i].nexts
      && Fill(g, i, minWeight) == behind[i := behind[i].(info := best.info, weight := best.weight)]
  {}

  /** Filling settles every position. */
  lemma {:induction false} FillSettles(g: seq<Dag>, i: nat, minWeight: real)
    requires Forward(g) && i <= |g|
    ensures AllSettled(Fill(g, i, minWeight), i, minWeight)
    decreases |g| - i
  {
    if i < |g| {
      FillSettles(g, i + 1, minWeight);
      var behind, r := Fill(g, i + 1, minWeight), Fill(g, i, minWeight);
      forall j | i <= j < |r|
        ensures Settled(r, j, minWeight)
      {
        assert j > i ==> Settled(behind, j, minWeight);
        TryLooksBehind(behind, r, j, |behind[j].nexts|, minWeight);
      }
    }
  }

  /** What position j records depends only on the positions behind it. */
  lemma {:induction false} TryLooksBehind(a: seq<Dag>, b: seq<Dag>, j: nat, k: nat, minWeight: real)
    requires Forward(a) && |a| == |b| && j < |a| && k <= |a[j].nexts|
    requires forall m :: j < m < |a| ==> a[m].weight == b[m].weight
    ensures Try(a, a[j].nexts, k, minWeight) == Try(b, a[j].nexts, k, minWeight)
  {
    if k > 0 {
      TryLooksBehind(a, b, j, k - 1, minWeight);
    }
  }

  // Optimality.

  /** Edges one after the other from position i to the end of the text. */
  ghost predicate IsPath(dags: seq<Dag>, i: nat, path: seq<Edge>)
    decreases |path|
  {
    if path == [] then i == |dags|
    else i < |dags| && path[0] in dags[i].nexts && IsPath(dags, path[0].0 + 1, path[1..])
  }

  ghost function Score(path: seq<Edge>, minWeight: real): real {
    if path == [] then 0.0 else EdgeWeight(path[0].1, minWeight) + Score(path[1..], minWeight)
  }

  ghost function WeightAt(dags: seq<Dag>, i: nat): real {
    if i < |dags| then dags[i].weight else 0.0
  }

  lemma {:induction false} TryBounds(dags: seq<Dag>, nexts: seq<Edge>, k: nat, m: nat, minWeight: real)
    requires m < k <= |nexts|
    ensures Value(dags, nexts[m], minWeight) <= Try(dags, nexts, k, minWeight).weight
  {
    if m < k - 1 {
      TryBounds(dags, nexts, k - 1, m, minWeight);
    }
  }

  /** The record is the first best edge, unless nothing rises above the floor. */
  lemma {:induction false} TryAttains(dags: seq<Dag>, nexts: seq<Edge>, k: nat, minWeight: real) returns (m: nat)
    requires k <= |nexts| && Try(dags, nexts, k, minWeight).weight > MIN_DOUBLE
    ensures m < k && Try(dags, nexts, k, minWeight) == Choice(nexts[m].1, Value(dags, nexts[m], minWeight))
    ensures forall l :: 0 <= l < m ==> Value(dags, nexts[l], minWeight) < Value(dags, nexts[m], minWeight)
    ensures forall l :: m <= l < k ==> Value(dags, nexts[l], minWeight) <= Value(dags, nexts[m], minWeight)
  {
    var best, e := Try(dags, nexts, k - 1, minWeight), nexts[k - 1];
    if Value(dags, e, minWeight) > best.weight {
      m := k - 1;
      forall l | 0 <= l < m
        ensures Value(dags, nexts[l], minWeight) <= best.weight
      {
        TryBounds(dags, nexts, k - 1, l, minWeight);
      }
    } else {
      m := TryAttains(dags, nexts, k - 1, minWeight);
    }
  }

  /** No segmentation of a suffix scores more than the weight recorded at its start. */
  lemma {:induction false} WeightIsUpperBound(dags: seq<Dag>, i: nat, path: seq<Edge>, minWeight: real)
    requires AllSettled(dags, 0, minWeight) && IsPath(dags, i, path)
    ensures Score(path, minWeight) <= WeightAt(dags, i)
    decreases |path|
  {
    if path != [] {
      var nexts := dags[i].nexts;
      var m :| 0 <= m < |nexts| && nexts[m] == path[0];
      assert Settled(dags, i, minWeight);
      TryBounds(dags, nexts, |nexts|, m, minWeight);
      WeightIsUpperBound(dags, path[0].0 + 1, path[1..], minWeight);
    }
  }

  /** Edges carry either the dictionary word they span, or nothing and span one rune. */
  ghost predicate WordsFit(dags: seq<Dag>) {
    forall i, k :: 0 <= i < |dags| && 0 <= k < |dags[i].nexts| ==>
      var e := dags[i].nexts[k];
      if e.1.Some? then e.0 + 1 == i + |e.1.value.word| && |e.1.value.word| >= 1 else e.0 == i
  }

  /** How far the choice at a position reaches. */
  function Step(d: Dag): nat {
    if d.info.Some? then |d.info.value.word| else 1
  }

  /** Every choice reaches at least one rune on, and not past the end. */
  ghost predicate Walkable(dags: seq<Dag>) {
    forall i :: 0 <= i < |dags| ==> Step(dags[i]) >= 1 && i + Step(dags[i]) <= |dags|
  }

  lemma SettledIsWalkable(dags: seq<Dag>, minWeight: real)
    requires Forward(dags) && WordsFit(dags) && AllSettled(dags, 0, minWeight)
    ensures Walkable(dags)
  {
    forall i | 0 <= i < |dags|
      ensures Step(dags[i]) >= 1 && i + Step(dags[i]) <= |dags|
    {
      assert Settled(dags, i, minWeight);
      if dags[i].weight > MIN_DOUBLE {
        var m := TryAttains(dags, dags[i].nexts, |dags[i].nexts|, minWeight);
      } else {
        FlooredIsNone(dags, dags[i].nexts, |dags[i].nexts|, minWeight);
      }
    }
  }

  lemma {:induction false} FlooredIsNone(dags: seq<Dag>, nexts: seq<Edge>, k: nat, minWeight: real)
    requires k <= |nexts|
    ensures Try(dags, nexts, k, minWeight).weight >= MIN_DOUBLE
    ensures Try(dags, nexts, k, minWeight).weight == MIN_DOUBLE ==> Try(dags, nexts, k, minWeight).info == None
  {
    if k > 0 {
      FlooredIsNone(dags, nexts, k - 1, minWeight);
    }
  }

  /** The words the choices give from position i on. */
  ghost function Words(dags: seq<Dag>, begin: nat, i: nat): seq<WordRange>
    requires Walkable(dags)
    decreases |dags| - i
  {
    if i >= |dags| then []
    else [WordRange(begin + i, begin + i + Step(dags[i]) - 1)] + Words(dags, begin, i + Step(dags[i]))
  }

  /** Follows the choices and appends a word for each. */
  method CutByDag(begin: nat, dags: seq<Dag>, words0: seq<WordRange>) returns (words: seq<WordRange>)
    requires Walkable(dags)
    ensures words == words0 + Words(dags, begin, 0)
  {
    words := words0;
    var i := 0;
    while i < |dags|
      invariant i <= |dags|
      invariant words + Words(dags, begin, i) == words0 + Words(dags, begin, 0)
      decreases |dags| - i
    {
      var p := dags[i].info;
      assert Step(dags[i]) >= 1;
      if p.Some? {
        words := words + [WordRange(begin + i, begin + i + |p.value.word| - 1)];
        i := i + |p.value.word|;
      } else {
        words := words + [WordRange(begin + i, begin + i)];
        i := i + 1;
      }
    }
  }

  /** The edges the words from position i on stand for. */
  ghost function Chosen(dags: seq<Dag>, i: nat): seq<Edge>
    requires Walkable(dags)
    decreases |dags| - i
  {
    if i >= |dags| then []
    else [(i + Step(dags[i]) - 1, dags[i].info)] + Chosen(dags, i + Step(dags[i]))
  }

  /** No position has fallen to the floor. */
  ghost predicate AboveFloor(dags: seq<Dag>) {
    forall i :: 0 <= i < |dags| ==> dags[i].weight > MIN_DOUBLE
  }

  /** No position the cut stops at from i on has fallen to the floor. */
  ghost predicate Clear(dags: seq<Dag>, i: nat)
    requires Walkable(dags)
    decreases |dags| - i
  {
    i >= |dags| || (dags[i].weight > MIN_DOUBLE && Clear(dags, i + Step(dags[i])))
  }

  lemma {:induction false} AboveFloorIsClear(dags: seq<Dag>, i: nat)
    requires Walkable(dags) && AboveFloor(dags)
    ensures Clear(dags, i)
    decreases |dags| - i
  {
    if i < |dags| {
      AboveFloorIsClear(dags, i + Step(dags[i]));
    }
  }

  /** Above the floor the words are a segmentation whose score is the recorded weight. */
  lemma {:induction false} ChosenAttains(dags: seq<Dag>, i: nat, minWeight: real)
    requires Forward(dags) && WordsFit(dags) && AllSettled(dags, 0, minWeight) && Walkable(dags)
    requires i <= |dags| && Clear(dags, i)
    ensures IsPath(dags, i, Chosen(dags, i)) && Score(Chosen(dags, i), minWeight) == WeightAt(dags, i)
    decreases |dags| - i
  {
    if i < |dags| {
      hide Forward, WordsFit, AllSettled;
      var next := i + Step(dags[i]);
      ChosenEdge(dags, i, minWeight);
      ChosenAttains(dags, next, minWeight);
      assert Chosen(dags, i)[1..] == Chosen(dags, next);
    }
  }

  /** Above the floor the choice is an edge, and accounts for the weight. */
  lemma ChosenEdge(dags: seq<Dag>, i: nat, minWeight: real)
    requires i < |dags| && WordsFit(dags) && AllSettled(dags, 0, minWeight) && dags[i].weight > MIN_DOUBLE
    ensures var next := i + Step(dags[i]);
      && next > i && (next - 1, dags[i].info) in dags[i].nexts
      && dags[i].weight == EdgeWeight(dags[i].info, minWeight) + WeightAt(dags, next)
  {
    assert Settled(dags, i, minWeight);
    var e := ChoiceIsEdge(dags, i, minWeight);
    var k :| 0 <= k < |dags[i].nexts| && dags[i].nexts[k] == e;
  }

  /** The cut is a segmentation, and no segmentation scores more. */
  lemma {:induction false} CutIsOptimal(dags: seq<Dag>, path: seq<Edge>, minWeight: real)
    requires Forward(dags) && WordsFit(dags) && AllSettled(dags, 0, minWeight) && Walkable(dags) && Clear(dags, 0)
    requires IsPath(dags, 0, path)
    ensures IsPath(dags, 0, Chosen(dags, 0))
    ensures Score(path, minWeight) <= Score(Chosen(dags, 0), minWeight) == WeightAt(dags, 0)
  {
    ChosenAttains(dags, 0, minWeight);
    WeightIsUpperBound(dags, 0, path, minWeight);
  }

  /** No edge adds to a score, as with logarithms of probabilities. */
  ghost predicate NonPositive(dags: seq<Dag>, minWeight: real) {
    forall j, k :: 0 <= j < |dags| && 0 <= k < |dags[j].nexts| ==> EdgeWeight(dags[j].nexts[k].1, minWeight) <= 0.0
  }

  lemma {:induction false} HeavyIsClear(dags: seq<Dag>, i: nat, minWeight: real)
    requires Forward(dags) && WordsFit(dags) && AllSettled(dags, 0, minWeight) && Walkable(dags)
    requires NonPositive(dags, minWeight) && i <= |dags| && (i < |dags| ==> dags[i].weight > MIN_DOUBLE)
    ensures Clear(dags, i)
    decreases |dags| - i
  {
    if i < |dags| {
      hide Forward, WordsFit, AllSettled, EdgeWeight;
      var next := i + Step(dags[i]);
      ChosenEdge(dags, i, minWeight);
      var k :| 0 <= k < |dags[i].nexts| && dags[i].nexts[k] == (next - 1, dags[i].info);
      HeavyIsClear(dags, next, minWeight);
    }
  }

  /** Where no edge adds, the floor is out of play exactly when some segmentation scores more than it. */
  lemma {:induction false} ClearIff(dags: seq<Dag>, minWeight: real)
    requires Forward(dags) && WordsFit(dags) && AllSettled(dags, 0, minWeight) && Walkable(dags)
    requires NonPositive(dags, minWeight)
    ensures WeightAt(dags, 0) > MIN_DOUBLE <==> exists path :: IsPath(dags, 0, path) && Score(path, minWeight) > MIN_DOUBLE
  {
    if WeightAt(dags, 0) > MIN_DOUBLE {
      HeavyIsClear(dags, 0, minWeight);
      ChosenAttains(dags, 0, minWeight);
      assert IsPath(dags, 0, Chosen(dags, 0));
    }
    forall path | IsPath(dags, 0, path)
      ensures Score(path, minWeight) <= WeightAt(dags, 0)
    {
      WeightIsUpperBound(dags, 0, path, minWeight);
    }
  }

  /** n times a weight. */
  ghost function Times(n: nat, least: real): real {
    if n == 0 then 0.0 else least + Times(n - 1, least)
  }

  lemma {:induction false} TimesIsProduct(n: nat, least: real)
    ensures Times(n, least) == n as real * least
  {
    if n > 0 {
      TimesIsProduct(n - 1, least);
      assert n as real * least == (n - 1) as real * least + least;
    }
  }

  lemma {:induction false} FewerTimes(m: nat, n: nat, least: real)
    requires m <= n && least <= 0.0
    ensures Times(m, least) >= Times(n, least)
  {
    if m < n {
      FewerTimes(m, n - 1, least);
    }
  }

  ghost predicate NoLighterThan(dags: seq<Dag>, least: real, minWeight: real) {
    forall j, k :: 0 <= j < |dags| && 0 <= k < |dags[j].nexts| ==> EdgeWeight(dags[j].nexts[k].1, minWeight) >= least
  }

  lemma {:induction false} LightSuffix(dags: seq<Dag>, i: nat, least: real, minWeight: real)
    requires Forward(dags) && AllSettled(dags, 0, minWeight) && i <= |dags| && least <= 0.0
    requires NoLighterThan(dags, least, minWeight)
    ensures WeightAt(dags, i) >= Times(|dags| - i, least)
    decreases |dags| - i
  {
    if i < |dags| {
      assert Settled(dags, i, minWeight);
      var e := dags[i].nexts[0];
      LightSuffix(dags, e.0 + 1, least, minWeight);
      FewerTimes(|dags| - e.0 - 1, |dags| - i - 1, least);
      TryBounds(dags, dags[i].nexts, |dags[i].nexts|, 0, minWeight);
      assert Value(dags, e, minWeight) == WeightAt(dags, e.0 + 1) + EdgeWeight(e.1, minWeight);
    }
  }

  /** A text whose length times its lightest edge is above the floor stays above it throughout. */
  lemma LightTextsStayAboveFloor(dags: seq<Dag>, least: real, minWeight: real)
    requires Forward(dags) && AllSettled(dags, 0, minWeight) && least <= 0.0
    requires NoLighterThan(dags, least, minWeight) && |dags| as real * least > MIN_DOUBLE
    ensures AboveFloor(dags)
  {
    TimesIsProduct(|dags|, least);
    forall i | 0 <= i < |dags|
      ensures dags[i].weight > MIN_DOUBLE
    {
      LightSuffix(dags, i, least, minWeight);
      FewerTimes(|dags| - i, |dags|, least);
    }
  }

  /** In any graph, for weights of any sign: then the cut is a path, and no path scores more. */
  lemma {:induction false} LightCutIsOptimal(dags: seq<Dag>, path: seq<Edge>, least: real, minWeight: real)
    requires Forward(dags) && WordsFit(dags) && AllSettled(dags, 0, minWeight) && Walkable(dags) && least <= 0.0
    requires NoLighterThan(dags, least, minWeight) && |dags| as real * least > MIN_DOUBLE
    requires IsPath(dags, 0, path)
    ensures IsPath(dags, 0, Chosen(dags, 0)) && Score(path, minWeight) <= Score(Chosen(dags, 0), minWeight)
  {
    LightTextsStayAboveFloor(dags, least, minWeight);
    AboveFloorIsClear(dags, 0);
    CutIsOptimal(dags, path, minWeight);
  }

  // From the dictionary.

  /** Every unit of a dictionary spells its own key. */
  ghost predicate SpellsItself(dict: Dictionary) {
    forall key :: key in dict ==> key != [] && dict[key].word == key
  }

  lemma DagFits(dict: Dictionary, t: seq<Rune>, maxLen: nat)
    requires SpellsItself(dict)
    ensures Forward(DagOf(dict, t, maxLen)) && WordsFit(DagOf(dict, t, maxLen))
  {
    var g := DagOf(dict, t, maxLen);
    forall i, k | 0 <= i < |g| && 0 <= k < |g[i].nexts|
      ensures var e := g[i].nexts[k];
        && i <= e.0 < |g|
        && if e.1.Some? then e.0 + 1 == i + |e.1.value.word| && |e.1.value.word| >= 1 else e.0 == i
    {
      EdgesAre(dict, t, i, maxLen, g[i].nexts[k]);
    }
  }

  /** The filled graph of a text, and the words cut from it. */
  ghost function Filled(dict: Dictionary, t: seq<Rune>, maxLen: nat, minWeight: real): seq<Dag> {
    Fill(DagOf(dict, t, maxLen), 0, minWeight)
  }

  lemma FilledFits(dict: Dictionary, t: seq<Rune>, maxLen: nat, minWeight: real)
    requires SpellsItself(dict)
    ensures var dags := Filled(dict, t, maxLen, minWeight);
      && |dags| == |t| && Forward(dags) && WordsFit(dags) && AllSettled(dags, 0, minWeight) && Walkable(dags)
  {
    var g := DagOf(dict, t, maxLen);
    DagFits(dict, t, maxLen);
    FillSettles(g, 0, minWeight);
    var dags := Fill(g, 0, minWeight);
    assert forall i :: 0 <= i < |dags| ==> dags[i].nexts == g[i].nexts;
    SettledIsWalkable(dags, minWeight);
  }

  ghost function BestWords(dict: Dictionary, t: seq<Rune>, begin: nat, maxLen: nat, minWeight: real): seq<WordRange>
    requires SpellsItself(dict)
  {
    FilledFits(dict, t, maxLen, minWeight);
    Words(Filled(dict, t, maxLen, minWeight), begin, 0)
  }

  /** Cuts the runes from begin to end of a text and appends the words. */
  method CutRange(trie: Trie, text: seq<Rune>, begin: nat, end: nat, maxLen: nat, minWeight: real, words0: seq<WordRange>)
      returns (words: seq<WordRange>)
    requires begin <= end <= |text| && trie.Valid() && SpellsItself(trie.dict)
    ensures words == words0 + BestWords(trie.dict, text[begin..end], begin, maxLen, minWeight)
  {
    ghost var t := text[begin..end];
    FilledFits(trie.dict, t, maxLen, minWeight);
    var g := trie.FindDag(text[begin..end], maxLen);
    var dags := new Dag[|g|](i requires 0 <= i < |g| => g[i]);
    assert dags[..] == g;
    CalcDP(dags, minWeight);
    words := CutByDag(begin, dags[..], words0);
  }

  // Coverage.

  /** Words one after the other from rune b up to rune e. */
  ghost predicate Tiles(words: seq<WordRange>, b: nat, e: nat)
    decreases |words|
  {
    if words == [] then b == e
    else words[0].left == b && b <= words[0].right < e && Tiles(words[1..], words[0].right + 1, e)
  }

  lemma {:induction false} WordsTile(dags: seq<Dag>, begin: nat, i: nat)
    requires Walkable(dags) && i <= |dags|
    ensures Tiles(Words(dags, begin, i), begin + i, begin + |dags|)
    decreases |dags| - i
  {
    if i < |dags| {
      WordsTile(dags, begin, i + Step(dags[i]));
    }
  }

  /** The cut of a range covers it without gap or overlap, whatever the weights. */
  lemma {:induction false} BestWordsTile(dict: Dictionary, t: seq<Rune>, begin: nat, maxLen: nat, minWeight: real)
    requires SpellsItself(dict)
    ensures Tiles(BestWords(dict, t, begin, maxLen, minWeight), begin, begin + |t|)
  {
    FilledFits(dict, t, maxLen, minWeight);
    WordsTile(Filled(dict, t, maxLen, minWeight), begin, 0);
  }

  // Optimality in terms of the dictionary alone, for a range t whose runes are counted from 0;
  // the words of a range that starts at rune begin are moved back by begin.

  function Back(words: seq<WordRange>, begin: nat): (r: seq<WordRange>)
    ensures |r| == |words|
    ensures forall k :: 0 <= k < |words| && begin <= words[k].left && begin <= words[k].right ==>
      r[k] == WordRange(words[k].left - begin, words[k].right - begin)
  {
    seq(|words|, k requires 0 <= k < |words| =>
      if begin <= words[k].left && begin <= words[k].right then WordRange(words[k].left - begin, words[k].right - begin)
      else words[k])
  }

  lemma {:induction false} WordsMove(dags: seq<Dag>, begin: nat, i: nat)
    requires Walkable(dags)
    ensures var there, here := Words(dags, begin, i), Words(dags, 0, i);
      && |there| == |here|
      && forall k :: 0 <= k < |here| ==>
           && here[k].left <= here[k].right
           && there[k] == WordRange(begin + here[k].left, begin + here[k].right)
    decreases |dags| - i
  {
    if i < |dags| {
      WordsMove(dags, begin, i + Step(dags[i]));
    }
  }

  /** The words of a range are where the choices say, wherever the range starts. */
  lemma BestWordsMove(dict: Dictionary, t: seq<Rune>, begin: nat, maxLen: nat, minWeight: real)
    requires SpellsItself(dict)
    ensures Back(BestWords(dict, t, begin, maxLen, minWeight), begin) == BestWords(dict, t, 0, maxLen, minWeight)
    ensures forall w :: w in BestWords(dict, t, begin, maxLen, minWeight) ==> begin <= w.left <= w.right
  {
    FilledFits(dict, t, maxLen, minWeight);
    WordsMove(Filled(dict, t, maxLen, minWeight), begin, 0);
    hide Back, Words, Filled;
    var there, here := BestWords(dict, t, begin, maxLen, minWeight), BestWords(dict, t, 0, maxLen, minWeight);
    assert forall k :: 0 <= k < |here| ==> Back(there, begin)[k] == here[k];
  }

  /** A single rune, or a dictionary word of at most maxLen runes. */
  ghost predicate IsWord(dict: Dictionary, t: seq<Rune>, maxLen: nat, w: WordRange) {
    && w.left <= w.right < |t|
    && (w.left == w.right || (w.right - w.left + 1 <= maxLen && t[w.left..w.right + 1] in dict))
  }

  /** Words that cover the runes from i to the end. */
  ghost predicate IsSegmentation(dict: Dictionary, t: seq<Rune>, maxLen: nat, i: nat, words: seq<WordRange>)
    decreases |words|
  {
    if words == [] then i == |t|
    else
      && words[0].left == i && IsWord(dict, t, maxLen, words[0])
      && IsSegmentation(dict, t, maxLen, words[0].right + 1, words[1..])
  }

  /** What the dictionary says a word weighs; what it does not know weighs the least weight. */
  ghost function WordWeight(dict: Dictionary, t: seq<Rune>, minWeight: real, w: WordRange): (r: real)
    ensures w.left <= w.right < |t| ==>
      r == (if t[w.left..w.right + 1] in dict then dict[t[w.left..w.right + 1]].weight else minWeight)
  {
    if w.left <= w.right < |t| then EdgeWeight(Lookup(dict, t[w.left..w.right + 1]), minWeight) else 0.0
  }

  ghost function WordsWeight(dict: Dictionary, t: seq<Rune>, minWeight: real, words: seq<WordRange>): real {
    if words == [] then 0.0
    else
      WordWeight(dict, t, minWeight, words[0]) + WordsWeight(dict, t, minWeight, words[1..])
  }

  /** A segmentation weighs at most what is recorded where it starts. */
  lemma {:induction false} SegmentationBound(dict: Dictionary, t: seq<Rune>, maxLen: nat, minWeight: real,
                                             i: nat, words: seq<WordRange>)
    requires SpellsItself(dict) && i <= |t| && IsSegmentation(dict, t, maxLen, i, words)
    ensures WordsWeight(dict, t, minWeight, words) <= WeightAt(Filled(dict, t, maxLen, minWeight), i)
    decreases |words|
  {
    if words != [] {
      var dags, w := Filled(dict, t, maxLen, minWeight), words[0];
      SegmentationBound(dict, t, maxLen, minWeight, w.right + 1, words[1..]);
      WordIsBounded(dict, t, maxLen, minWeight, w);
    }
  }

  lemma FilledEdges(dict: Dictionary, t: seq<Rune>, maxLen: nat, minWeight: real, i: nat)
    requires SpellsItself(dict) && i < |t|
    ensures var dags := Filled(dict, t, maxLen, minWeight);
      |dags| == |t| && dags[i].nexts == EdgesFrom(dict, t, i, maxLen) && Settled(dags, i, minWeight)
  {
    FilledFits(dict, t, maxLen, minWeight);
  }

  lemma EdgeIsBounded(dags: seq<Dag>, i: nat, e: Edge, minWeight: real)
    requires i < |dags| && Settled(dags, i, minWeight) && e in dags[i].nexts
    ensures EdgeWeight(e.1, minWeight) + WeightAt(dags, e.0 + 1) <= dags[i].weight
  {
    var nexts := dags[i].nexts;
    var m :| 0 <= m < |nexts| && nexts[m] == e;
    TryBounds(dags, nexts, |nexts|, m, minWeight);
  }

  lemma WordIsBounded(dict: Dictionary, t: seq<Rune>, maxLen: nat, minWeight: real, w: WordRange)
    requires SpellsItself(dict) && IsWord(dict, t, maxLen, w)
    ensures var dags := Filled(dict, t, maxLen, minWeight);
      EdgeWeight(Lookup(dict, t[w.left..w.right + 1]), minWeight) + WeightAt(dags, w.right + 1) <= WeightAt(dags, w.left)
  {
    hide Filled, Settled, EdgesFrom, EdgeWeight;
    var e := (w.right, Lookup(dict, t[w.left..w.right + 1]));
    FilledEdges(dict, t, maxLen, minWeight, w.left);
    EdgesAre(dict, t, w.left, maxLen, e);
    EdgeIsBounded(Filled(dict, t, maxLen, minWeight), w.left, e, minWeight);
  }

  lemma {:induction false} ChoiceIsEdge(dags: seq<Dag>, i: nat, minWeight: real) returns (e: Edge)
    requires i < |dags| && Settled(dags, i, minWeight) && dags[i].weight > MIN_DOUBLE
    ensures e in dags[i].nexts && e.1 == dags[i].info
    ensures dags[i].weight == EdgeWeight(e.1, minWeight) + WeightAt(dags, e.0 + 1)
  {
    var m := TryAttains(dags, dags[i].nexts, |dags[i].nexts|, minWeight);
    e := dags[i].nexts[m];
  }

  lemma ChoiceIsWord(dict: Dictionary, t: seq<Rune>, maxLen: nat, minWeight: real, i: nat)
    requires SpellsItself(dict) && i < |t| && i < |Filled(dict, t, maxLen, minWeight)|
    requires Filled(dict, t, maxLen, minWeight)[i].weight > MIN_DOUBLE
    ensures var dags := Filled(dict, t, maxLen, minWeight);
      var next := i + Step(dags[i]);
      && i < next && IsWord(dict, t, maxLen, WordRange(i, next - 1))
      && WeightAt(dags, i) == EdgeWeight(Lookup(dict, t[i..next]), minWeight) + WeightAt(dags, next)
  {
    hide Filled, Settled, EdgesFrom, EdgeWeight;
    FilledEdges(dict, t, maxLen, minWeight, i);
    var e := ChoiceIsEdge(Filled(dict, t, maxLen, minWeight), i, minWeight);
    EdgesAre(dict, t, i, maxLen, e);
  }

  /** Above the floor the cut is a segmentation of exactly the recorded weight. */
  lemma {:induction false} CutAttains(dict: Dictionary, t: seq<Rune>, maxLen: nat, minWeight: real, i: nat)
    requires SpellsItself(dict) && i <= |t| && Walkable(Filled(dict, t, maxLen, minWeight))
    requires Clear(Filled(dict, t, maxLen, minWeight), i)
    ensures var dags := Filled(dict, t, maxLen, minWeight);
      && IsSegmentation(dict, t, maxLen, i, Words(dags, 0, i))
      && WordsWeight(dict, t, minWeight, Words(dags, 0, i)) == WeightAt(dags, i)
    decreases |t| - i
  {
    hide Filled, IsWord, EdgeWeight, Lookup;
    FilledFits(dict, t, maxLen, minWeight);
    if i < |t| {
      var dags := Filled(dict, t, maxLen, minWeight);
      var next := i + Step(dags[i]);
      CutAttains(dict, t, maxLen, minWeight, next);
      ChoiceIsWord(dict, t, maxLen, minWeight, i);
      var words := Words(dags, 0, i);
      assert words[0] == WordRange(i, next - 1) && words[1..] == Words(dags, 0, next);
    }
  }

  /**
   For any dictionary and any range, as long as no position the cut stops at falls to the
   floor: the words cut are a segmentation of the range, and no segmentation weighs more.
   */
  lemma {:induction false} BestWordsAreBest(dict: Dictionary, t: seq<Rune>, begin: nat, maxLen: nat, minWeight: real,
                         words: seq<WordRange>)
    requires SpellsItself(dict) && Walkable(Filled(dict, t, maxLen, minWeight))
    requires Clear(Filled(dict, t, maxLen, minWeight), 0)
    requires IsSegmentation(dict, t, maxLen, 0, words)
    ensures var best := Back(BestWords(dict, t, begin, maxLen, minWeight), begin);
      && IsSegmentation(dict, t, maxLen, 0, best)
      && WordsWeight(dict, t, minWeight, words) <= WordsWeight(dict, t, minWeight, best)
  {
    BestWordsMove(dict, t, begin, maxLen, minWeight);
    FilledFits(dict, t, maxLen, minWeight);
    SegmentationBound(dict, t, maxLen, minWeight, 0, words);
    CutAttains(dict, t, maxLen, minWeight, 0);
  }

  /** Weights that are logarithms of probabilities. */
  ghost predicate LogWeights(dict: Dictionary, minWeight: real) {
    minWeight <= 0.0 && forall w :: w in dict ==> dict[w].weight <= 0.0
  }

  lemma LogWeightsNeverAdd(dict: Dictionary, t: seq<Rune>, maxLen: nat, minWeight: real)
    requires SpellsItself(dict) && LogWeights(dict, minWeight)
    ensures NonPositive(Filled(dict, t, maxLen, minWeight), minWeight)
  {
    var dags := Filled(dict, t, maxLen, minWeight);
    forall j, k | 0 <= j < |dags| && 0 <= k < |dags[j].nexts|
      ensures EdgeWeight(dags[j].nexts[k].1, minWeight) <= 0.0
    {
      FilledEdges(dict, t, maxLen, minWeight, j);
      EdgesAre(dict, t, j, maxLen, dags[j].nexts[k]);
    }
  }

  /** Whatever the weights, the words cut are a segmentation. */
  lemma {:induction false} CutIsSegmentation(dict: Dictionary, t: seq<Rune>, begin: nat, maxLen: nat, minWeight: real)
    requires SpellsItself(dict)
    ensures IsSegmentation(dict, t, maxLen, 0, Back(BestWords(dict, t, begin, maxLen, minWeight), begin))
  {
    FilledFits(dict, t, maxLen, minWeight);
    BestWordsMove(dict, t, begin, maxLen, minWeight);
    CutFromIsSegmentation(dict, t, maxLen, minWeight, 0);
  }

  lemma {:induction false} CutFromIsSegmentation(dict: Dictionary, t: seq<Rune>, maxLen: nat, minWeight: real, i: nat)
    requires SpellsItself(dict) && i <= |t| && Walkable(Filled(dict, t, maxLen, minWeight))
    ensures IsSegmentation(dict, t, maxLen, i, Words(Filled(dict, t, maxLen, minWeight), 0, i))
    decreases |t| - i
  {
    hide Filled;
    FilledFits(dict, t, maxLen, minWeight);
    if i < |t| {
      var dags := Filled(dict, t, maxLen, minWeight);
      var next := i + Step(dags[i]);
      CutFromIsSegmentation(dict, t, maxLen, minWeight, next);
      if dags[i].weight > MIN_DOUBLE {
        ChoiceIsWord(dict, t, maxLen, minWeight, i);
      } else {
        assert Settled(dags, i, minWeight);
        FlooredIsNone(dags, dags[i].nexts, |dags[i].nexts|, minWeight);
      }
      var words := Words(dags, 0, i);
      assert words[0] == WordRange(i, next - 1) && words[1..] == Words(dags, 0, next);
    }
  }

  lemma {:induction false} HeavyCut(dict: Dictionary, t: seq<Rune>, maxLen: nat, minWeight: real, words: seq<WordRange>)
    requires SpellsItself(dict) && LogWeights(dict, minWeight)
    requires IsSegmentation(dict, t, maxLen, 0, words) && WordsWeight(dict, t, minWeight, words) > MIN_DOUBLE
    ensures WordsWeight(dict, t, minWeight, words) <= WordsWeight(dict, t, minWeight, BestWords(dict, t, 0, maxLen, minWeight))
  {
    FilledFits(dict, t, maxLen, minWeight);
    LogWeightsNeverAdd(dict, t, maxLen, minWeight);
    SegmentationBound(dict, t, maxLen, minWeight, 0, words);
    var dags := Filled(dict, t, maxLen, minWeight);
    hide Filled, NonPositive;
    HeavyIsClear(dags, 0, minWeight);
    BestWordsAreBest(dict, t, 0, maxLen, minWeight, words);
    BestWordsMove(dict, t, 0, maxLen, minWeight);
  }

  /**
   With logarithms of probabilities: the words cut are a segmentation that weighs more than
   the floor exactly when there is one, and then no segmentation weighs more than they do.
   */
  lemma {:induction false} CutIsHeaviestIff(dict: Dictionary, t: seq<Rune>, begin: nat, maxLen: nat, minWeight: real)
    requires SpellsItself(dict) && LogWeights(dict, minWeight)
    ensures var best := Back(BestWords(dict, t, begin, maxLen, minWeight), begin);
      && IsSegmentation(dict, t, maxLen, 0, best)
      && (WordsWeight(dict, t, minWeight, best) > MIN_DOUBLE <==>
          exists words :: IsSegmentation(dict, t, maxLen, 0, words) && WordsWeight(dict, t, minWeight, words) > MIN_DOUBLE)
      && (WordsWeight(dict, t, minWeight, best) > MIN_DOUBLE ==>
          forall words :: IsSegmentation(dict, t, maxLen, 0, words) ==>
            WordsWeight(dict, t, minWeight, words) <= WordsWeight(dict, t, minWeight, best))
  {
    CutIsSegmentation(dict, t, begin, maxLen, minWeight);
    BestWordsMove(dict, t, begin, maxLen, minWeight);
    hide IsSegmentation, WordsWeight, LogWeights, SpellsItself;
    forall words | IsSegmentation(dict, t, maxLen, 0, words) && WordsWeight(dict, t, minWeight, words) > MIN_DOUBLE
      ensures WordsWeight(dict, t, minWeight, words) <= WordsWeight(dict, t, minWeight, BestWords(dict, t, 0, maxLen, minWeight))
    {
      HeavyCut(dict, t, maxLen, minWeight, words);
    }
  }

  /** Every word ends where the choice recorded at its first rune says. */
  lemma {:induction false} WordsFollowChoices(dags: seq<Dag>, begin: nat, i: nat, w: WordRange)
    requires Walkable(dags) && w in Words(dags, begin, i)
    ensures begin + i <= w.left <= w.right < begin + |dags| && w.right == w.left + Step(dags[w.left - begin]) - 1
    decreases |dags| - i
  {
    if i < |dags| && w != WordRange(begin + i, begin + i + Step(dags[i]) - 1) {
      WordsFollowChoices(dags, begin, i + Step(dags[i]), w);
    }
  }
}
