/**
 The cut used for indexing and searching: every word of the mixed cut, preceded by the
 dictionary words of two and three runes inside it.
 */
module QuerySegment {
  import opened Utf8
  import opened Trie
  import opened MaxProb
  import opened Widths
  import MixSegment

  function Length(w: WordRange): nat
    requires w.left <= w.right
  {
    w.right - w.left + 1
  }

  /** The dictionary words of n runes that start inside w at its i-th rune or later. */
  function Grams(dict: Dictionary, text: seq<Rune>, w: WordRange, n: nat, i: nat): seq<WordRange>
    requires n >= 1 && w.left <= w.right < |text|
    decreases Length(w) - i
  {
    if i + n - 1 >= Length(w) then []
    else
      var l := w.left + i;
      (if text[l..l + n] in dict then [WordRange(l, l + n - 1)] else []) + Grams(dict, text, w, n, i + 1)
  }

  /** What one word of the mixed cut contributes. */
  function Expanded(dict: Dictionary, text: seq<Rune>, w: WordRange): seq<WordRange>
    requires w.left <= w.right < |text|
  {
    (if Length(w) > 2 then Grams(dict, text, w, 2, 0) else [])
    + (if Length(w) > 3 then Grams(dict, text, w, 3, 0) else [])
    + [w]
  }

  ghost function AllExpanded(dict: Dictionary, text: seq<Rune>, words: seq<WordRange>): seq<WordRange>
    requires MixSegment.Inside(text, words)
  {
    if words == [] then [] else Expanded(dict, text, words[0]) + AllExpanded(dict, text, words[1..])
  }

  method AddGrams(trie: Trie, text: seq<Rune>, w: WordRange, n: nat, res0: seq<WordRange>) returns (res: seq<WordRange>)
    requires n >= 1 && w.left <= w.right < |text| && trie.Valid()
    ensures res == res0 + Grams(trie.dict, text, w, n, 0)
  {
    res := res0;
    var i := 0;
    while i + n - 1 < Length(w)
      invariant trie.Valid() && res + Grams(trie.dict, text, w, n, i) == res0 + Grams(trie.dict, text, w, n, 0)
      decreases Length(w) - i
    {
      var wr := WordRange(w.left + i, w.left + i + n - 1);
      var unit := trie.Find(text[wr.left..wr.right + 1]);
      if unit.Some? {
        res := res + [wr];
      }
      i := i + 1;
    }
  }

  method AddExpanded(trie: Trie, text: seq<Rune>, w: WordRange, res0: seq<WordRange>) returns (res: seq<WordRange>)
    requires w.left <= w.right < |text| && trie.Valid()
    ensures res == res0 + Expanded(trie.dict, text, w)
  {
    hide Grams, Trie.Valid;
    res := res0;
    if Length(w) > 2 {
      res := AddGrams(trie, text, w, 2, res);
    }
    if Length(w) > 3 {
      res := AddGrams(trie, text, w, 3, res);
    }
    res := res + [w];
  }

  method ExpandAll(trie: Trie, text: seq<Rune>, mixRes: seq<WordRange>, res0: seq<WordRange>) returns (res: seq<WordRange>)
    requires MixSegment.Inside(text, mixRes) && trie.Valid()
    ensures res == res0 + AllExpanded(trie.dict, text, mixRes)
  {
    hide Expanded, Trie.Valid;
    res := res0;
    assert mixRes[0..] == mixRes;
    for i := 0 to |mixRes|
      invariant trie.Valid()
      invariant res + AllExpanded(trie.dict, text, mixRes[i..]) == res0 + AllExpanded(trie.dict, text, mixRes)
    {
      assert mixRes[i..][1..] == mixRes[i + 1..];
      res := AddExpanded(trie, text, mixRes[i], res);
    }
  }

  method CutRange(trie: Trie, tb: MixSegment.Tables, text: seq<Rune>, begin: nat, end: nat, hmm: bool, res0: seq<WordRange>)
      returns (res: seq<WordRange>)
    requires begin <= end <= |text| && MixSegment.Good(tb) && trie.Valid() && trie.dict == tb.dict
    ensures MixSegment.Inside(text, MixSegment.MixWords(tb, text, begin, end, hmm))
    ensures res == res0 + AllExpanded(tb.dict, text, MixSegment.MixWords(tb, text, begin, end, hmm))
  {
    hide MixSegment.MixWords, MixSegment.Good, MixSegment.Inside, AllExpanded, Trie.Valid;
    var mixRes := MixSegment.CutRange(trie, tb, text, begin, end, hmm, []);
    assert mixRes == MixSegment.MixWords(tb, text, begin, end, hmm);
    MixInside(tb, text, begin, end, hmm);
    res := ExpandAll(trie, text, mixRes, res0);
  }

  lemma MixInside(tb: MixSegment.Tables, text: seq<Rune>, begin: nat, end: nat, hmm: bool)
    requires begin <= end <= |text| && MixSegment.Good(tb)
    ensures MixSegment.Inside(text, MixSegment.MixWords(tb, text, begin, end, hmm))
  {
    MixSegment.MixWordsTile(tb, text, begin, end, hmm);
    MixSegment.TiledInside(text, MixSegment.MixWords(tb, text, begin, end, hmm), begin, end);
  }

  lemma {:induction false} GramsAre(dict: Dictionary, text: seq<Rune>, w: WordRange, n: nat, i: nat, g: WordRange)
    requires n >= 1 && w.left <= w.right < |text|
    ensures g in Grams(dict, text, w, n, i) <==>
      && w.left + i <= g.left && g.left + n - 1 == g.right <= w.right
      && text[g.left..g.right + 1] in dict
    decreases Length(w) - i
  {
    if i + n - 1 < Length(w) {
      GramsAre(dict, text, w, n, i + 1, g);
    }
  }

  /** A word contributes itself and exactly the shorter dictionary words of two or three runes inside it. */
  lemma ExpandedAre(dict: Dictionary, text: seq<Rune>, w: WordRange, g: WordRange)
    requires w.left <= w.right < |text|
    ensures g in Expanded(dict, text, w) <==>
      || g == w
      || (&& w.left <= g.left <= g.right <= w.right && 2 <= Length(g) <= 3 && Length(g) < Length(w)
          && text[g.left..g.right + 1] in dict)
  {
    GramsAre(dict, text, w, 2, 0, g);
    GramsAre(dict, text, w, 3, 0, g);
  }

  /** Shorter words first, and those of a length in the order of the text; so none comes twice. */
  ghost predicate Ascending(words: seq<WordRange>) {
    forall p, q :: 0 <= p < q < |words| ==> InFront(words[p], words[q])
  }

  ghost predicate InFront(g: WordRange, h: WordRange) {
    && g.left <= g.right && h.left <= h.right
    && (Length(g) < Length(h) || (Length(g) == Length(h) && g.left < h.left))
  }

  lemma {:induction false} GramsInOrder(dict: Dictionary, text: seq<Rune>, w: WordRange, n: nat, i: nat)
    requires n >= 1 && w.left <= w.right < |text|
    ensures Ascending(Grams(dict, text, w, n, i))
    decreases Length(w) - i
  {
    if i + n - 1 < Length(w) {
      hide *;
      GramsInOrder(dict, text, w, n, i + 1);
      OneGramMore(dict, text, w, n, i);
    }
  }

  lemma OneGramMore(dict: Dictionary, text: seq<Rune>, w: WordRange, n: nat, i: nat)
    requires n >= 1 && w.left <= w.right < |text| && i + n - 1 < Length(w)
    requires Ascending(Grams(dict, text, w, n, i + 1))
    ensures Ascending(Grams(dict, text, w, n, i))
  {
    hide Ascending, InFront;
    var first, rest := WordRange(w.left + i, w.left + i + n - 1), Grams(dict, text, w, n, i + 1);
    LaterGrams(dict, text, w, n, i);
    AscendingFront(first, rest);
    assert [] + rest == rest;
  }

  lemma LaterGram(dict: Dictionary, text: seq<Rune>, w: WordRange, n: nat, i: nat, h: WordRange)
    requires n >= 1 && w.left <= w.right < |text| && h in Grams(dict, text, w, n, i + 1)
    ensures InFront(WordRange(w.left + i, w.left + i + n - 1), h)
  {
    hide Grams;
    GramsAre(dict, text, w, n, i + 1, h);
  }

  lemma LaterGrams(dict: Dictionary, text: seq<Rune>, w: WordRange, n: nat, i: nat)
    requires n >= 1 && w.left <= w.right < |text|
    ensures var first := WordRange(w.left + i, w.left + i + n - 1);
      forall h :: h in Grams(dict, text, w, n, i + 1) ==> InFront(first, h)
  {
    hide *;
    var first := WordRange(w.left + i, w.left + i + n - 1);
    forall h | h in Grams(dict, text, w, n, i + 1)
      ensures InFront(first, h)
    {
      LaterGram(dict, text, w, n, i, h);
    }
  }

  lemma AscendingJoin(a: seq<WordRange>, b: seq<WordRange>)
    requires Ascending(a) && Ascending(b) && forall g, h :: g in a && h in b ==> InFront(g, h)
    ensures Ascending(a + b)
  {
    hide InFront;
    var c := a + b;
    forall p, q | 0 <= p < q < |c|
      ensures InFront(c[p], c[q])
    {
      assert p < |a| ==> c[p] in a;
      assert q >= |a| ==> c[q] in b;
    }
  }

  lemma AscendingFront(first: WordRange, rest: seq<WordRange>)
    requires Ascending(rest) && forall h :: h in rest ==> InFront(first, h)
    ensures Ascending([first] + rest)
  {
    hide InFront;
    Short([first]);
    AscendingJoin([first], rest);
  }

  /** What a word contributes comes in that order: the words of two runes, those of three, itself. */
  lemma ExpandedInOrder(dict: Dictionary, text: seq<Rune>, w: WordRange)
    requires w.left <= w.right < |text|
    ensures Ascending(Expanded(dict, text, w))
  {
    hide Grams, Ascending;
    var two := if Length(w) > 2 then Grams(dict, text, w, 2, 0) else [];
    var three := if Length(w) > 3 then Grams(dict, text, w, 3, 0) else [];
    GramsInOrder(dict, text, w, 2, 0);
    GramsInOrder(dict, text, w, 3, 0);
    Short([]);
    Short([w]);
    forall g, h | g in two && h in three
      ensures InFront(g, h)
    {
      GramsAre(dict, text, w, 2, 0, g);
      GramsAre(dict, text, w, 3, 0, h);
    }
    AscendingJoin(two, three);
    forall g, h | g in two + three && h in [w]
      ensures InFront(g, h)
    {
      GramsAre(dict, text, w, 2, 0, g);
      GramsAre(dict, text, w, 3, 0, g);
    }
    AscendingJoin(two + three, [w]);
  }

  lemma Short(words: seq<WordRange>)
    requires |words| <= 1
    ensures Ascending(words)
  {}

  // Sentences.

  /** How many words the words contribute together. */
  ghost function Sizes(dict: Dictionary, text: seq<Rune>, words: seq<WordRange>): nat
    requires MixSegment.Inside(text, words)
  {
    if words == [] then 0 else |Expanded(dict, text, words[0])| + Sizes(dict, text, words[1..])
  }

  /** Each word's contribution stands behind those of the words before it, and nothing else is there. */
  lemma {:induction false} BlocksStand(dict: Dictionary, text: seq<Rune>, words: seq<WordRange>, j: nat)
    requires MixSegment.Inside(text, words) && j < |words|
    ensures MixSegment.PartAt(AllExpanded(dict, text, words), Expanded(dict, text, words[j]), Sizes(dict, text, words[..j]))
    decreases |words|
  {
    if j == 0 {
      FirstBlock(dict, text, words);
    } else {
      BlocksStand(dict, text, words[1..], j - 1);
      NextBlock(dict, text, words, j);
    }
  }

  lemma {:induction false} FirstBlock(dict: Dictionary, text: seq<Rune>, words: seq<WordRange>)
    requires MixSegment.Inside(text, words) && words != []
    ensures MixSegment.PartAt(AllExpanded(dict, text, words), Expanded(dict, text, words[0]), Sizes(dict, text, words[..0]))
  {
    hide Expanded;
  }

  lemma {:induction false} NextBlock(dict: Dictionary, text: seq<Rune>, words: seq<WordRange>, j: nat)
    requires MixSegment.Inside(text, words) && 0 < j < |words|
    requires MixSegment.PartAt(AllExpanded(dict, text, words[1..]), Expanded(dict, text, words[j]),
                               Sizes(dict, text, words[1..][..j - 1]))
    ensures MixSegment.PartAt(AllExpanded(dict, text, words), Expanded(dict, text, words[j]), Sizes(dict, text, words[..j]))
  {
    assert words[..j][1..] == words[1..][..j - 1] && words[..j][0] == words[0];
    BlockAndRest(dict, text, words);
    BlockAndRest(dict, text, words[..j]);
    hide *;
    MixSegment.PartBehind(Expanded(dict, text, words[0]), AllExpanded(dict, text, words[1..]),
                          Expanded(dict, text, words[j]), Sizes(dict, text, words[1..][..j - 1]));
  }

  lemma {:induction false} AllBlocks(dict: Dictionary, text: seq<Rune>, words: seq<WordRange>)
    requires MixSegment.Inside(text, words)
    ensures |AllExpanded(dict, text, words)| == Sizes(dict, text, words)
  {
    hide Expanded;
    if words != [] {
      AllBlocks(dict, text, words[1..]);
    }
  }

  lemma {:induction false} BlockAndRest(dict: Dictionary, text: seq<Rune>, words: seq<WordRange>)
    requires words != [] && MixSegment.Inside(text, words)
    ensures AllExpanded(dict, text, words) == Expanded(dict, text, words[0]) + AllExpanded(dict, text, words[1..])
    ensures Sizes(dict, text, words) == |Expanded(dict, text, words[0])| + Sizes(dict, text, words[1..])
  {
    hide Expanded;
  }

  /** The query cut of a text is the mixed cut of its stretches with every word expanded in its place. */
  lemma {:induction false} TextQueryIs(tb: MixSegment.Tables, text: seq<Rune>, symbols: set<Rune>, hmm: bool, j: nat)
    requires MixSegment.Good(tb) && j < |MixSegment.TextWords(tb, text, symbols, 0, hmm)|
    ensures var words, query := MixSegment.TextWords(tb, text, symbols, 0, hmm), TextQuery(tb, text, symbols, 0, hmm);
      && MixSegment.Inside(text, words) && |query| == Sizes(tb.dict, text, words)
      && MixSegment.PartAt(query, Expanded(tb.dict, text, words[j]), Sizes(tb.dict, text, words[..j]))
  {
    TextInside(tb, text, symbols, 0, hmm);
    hide AllExpanded, MixSegment.TextWords, MixSegment.Good;
    AllBlocks(tb.dict, text, MixSegment.TextWords(tb, text, symbols, 0, hmm));
    BlocksStand(tb.dict, text, MixSegment.TextWords(tb, text, symbols, 0, hmm), j);
  }

  /** Stretch by stretch or all at once, the words are expanded the same. */
  lemma {:induction false} ExpandedConcat(dict: Dictionary, text: seq<Rune>, a: seq<WordRange>, b: seq<WordRange>)
    requires MixSegment.Inside(text, a) && MixSegment.Inside(text, b) && MixSegment.Inside(text, a + b)
    ensures AllExpanded(dict, text, a + b) == AllExpanded(dict, text, a) + AllExpanded(dict, text, b)
  {
    hide Expanded;
    if a == [] {
      assert a + b == b;
    } else {
      assert (a + b)[1..] == a[1..] + b;
      ExpandedConcat(dict, text, a[1..], b);
    }
  }

  lemma {:induction false} TextInside(tb: MixSegment.Tables, text: seq<Rune>, symbols: set<Rune>, c: nat, hmm: bool)
    requires MixSegment.Good(tb) && c <= |text|
    ensures MixSegment.Inside(text, MixSegment.TextWords(tb, text, symbols, c, hmm))
  {
    MixSegment.TextWordsTile(tb, text, symbols, c, hmm);
    MixSegment.TiledInside(text, MixSegment.TextWords(tb, text, symbols, c, hmm), c, |text|);
  }

  ghost function TextQuery(tb: MixSegment.Tables, text: seq<Rune>, symbols: set<Rune>, c: nat, hmm: bool): seq<WordRange>
    requires MixSegment.Good(tb) && c <= |text|
  {
    TextInside(tb, text, symbols, c, hmm);
    AllExpanded(tb.dict, text, MixSegment.TextWords(tb, text, symbols, c, hmm))
  }

  lemma {:induction false} NextStretch(tb: MixSegment.Tables, text: seq<Rune>, symbols: set<Rune>, c: nat, hmm: bool)
    requires MixSegment.Good(tb) && c < |text|
    ensures var stop := MixSegment.StretchEnd(text, symbols, c);
      && MixSegment.Inside(text, MixSegment.MixWords(tb, text, c, stop, hmm))
      && TextQuery(tb, text, symbols, c, hmm)
      == AllExpanded(tb.dict, text, MixSegment.MixWords(tb, text, c, stop, hmm)) + TextQuery(tb, text, symbols, stop, hmm)
  {
    hide MixSegment.MixWords, MixSegment.StretchEnd, MixSegment.Good, AllExpanded;
    var stop := MixSegment.StretchEnd(text, symbols, c);
    var first := MixSegment.MixWords(tb, text, c, stop, hmm);
    MixSegment.MixWordsTile(tb, text, c, stop, hmm);
    MixSegment.TiledInside(text, first, c, stop);
    TextInside(tb, text, symbols, c, hmm);
    TextInside(tb, text, symbols, stop, hmm);
    ExpandedConcat(tb.dict, text, first, MixSegment.TextWords(tb, text, symbols, stop, hmm));
  }

  method CutText(trie: Trie, tb: MixSegment.Tables, text: seq<Rune>, symbols: set<Rune>, hmm: bool)
      returns (wrs: seq<WordRange>)
    requires MixSegment.Good(tb) && trie.Valid() && trie.dict == tb.dict
    ensures wrs == TextQuery(tb, text, symbols, 0, hmm)
  {
    hide MixSegment.MixWords, MixSegment.StretchEnd, MixSegment.Good, MixSegment.TextWords, AllExpanded, Trie.Valid;
    var filter := new MixSegment.PreFilter(text, symbols);
    wrs := [];
    while filter.HasNext()
      invariant filter.sentence == text && filter.symbols == symbols && filter.cursor <= |text|
      invariant trie.Valid() && trie.dict == tb.dict
      invariant wrs + TextQuery(tb, text, symbols, filter.cursor, hmm) == TextQuery(tb, text, symbols, 0, hmm)
      decreases |text| - filter.cursor
    {
      NextStretch(tb, text, symbols, filter.cursor, hmm);
      var begin, end := filter.Next();
      wrs := CutRange(trie, tb, text, begin, end, hmm, wrs);
    }
    NothingBehind(tb, text, symbols, hmm);
  }

  lemma NothingBehind(tb: MixSegment.Tables, text: seq<Rune>, symbols: set<Rune>, hmm: bool)
    requires MixSegment.Good(tb)
    ensures TextQuery(tb, text, symbols, |text|, hmm) == []
  {}

  /** A word of the query cut is a word of the mixed cut, or a dictionary word of two or three runes inside one. */
  lemma {:induction false} AllExpandedAre(dict: Dictionary, text: seq<Rune>, words: seq<WordRange>, g: WordRange)
    requires MixSegment.Inside(text, words)
    ensures g in AllExpanded(dict, text, words) <==>
      exists w :: w in words && g in Expanded(dict, text, w)
  {
    hide Expanded;
    if words != [] {
      AllExpandedAre(dict, text, words[1..], g);
      assert words == [words[0]] + words[1..];
    }
  }

  /** The words of a sentence for a query; none when it does not decode. */
  ghost function SentenceWords(tb: MixSegment.Tables, s: seq<Byte>, symbols: set<Rune>, hmm: bool): seq<MixSegment.Word>
    requires MixSegment.Good(tb)
  {
    if RunesFrom(s, 0, 0).None? then []
    else
      var runes := RunesFrom(s, 0, 0).value;
      var text := MixSegment.RuneNumbers(runes);
      DecodedTiles(s);
      QueryInside(tb, text, symbols, hmm);
      MixSegment.WordsOf(s, runes, TextQuery(tb, text, symbols, 0, hmm))
  }

  lemma QueryInside(tb: MixSegment.Tables, text: seq<Rune>, symbols: set<Rune>, hmm: bool)
    requires MixSegment.Good(tb)
    ensures MixSegment.Inside(text, TextQuery(tb, text, symbols, 0, hmm))
  {
    TextInside(tb, text, symbols, 0, hmm);
    var words := MixSegment.TextWords(tb, text, symbols, 0, hmm);
    hide AllExpanded, Expanded, MixSegment.TextWords, MixSegment.Good;
    var query := TextQuery(tb, text, symbols, 0, hmm);
    forall k | 0 <= k < |query|
      ensures query[k].left <= query[k].right < |text|
    {
      AllExpandedAre(tb.dict, text, words, query[k]);
      var w :| w in words && query[k] in Expanded(tb.dict, text, w);
      ExpandedAre(tb.dict, text, w, query[k]);
    }
  }

  method Cut(trie: Trie, tb: MixSegment.Tables, s: seq<Byte>, symbols: set<Rune>, hmm: bool)
      returns (words: seq<MixSegment.Word>)
    requires |s| < TWO_32 && MixSegment.Good(tb) && trie.Valid() && trie.dict == tb.dict
    ensures words == SentenceWords(tb, s, symbols, hmm)
  {
    hide RunesFrom, TextQuery, MixSegment.WordsOf;
    var ok, runes := DecodeRunesInString(s);
    if !ok {
      return [];
    }
    DecodedTiles(s);
    var text := seq(|runes|, k requires 0 <= k < |runes| => runes[k].rune);
    assert text == MixSegment.RuneNumbers(runes);
    var wrs := CutText(trie, tb, text, symbols, hmm);
    QueryInside(tb, text, symbols, hmm);
    words := MixSegment.GetWordsFromWordRanges(s, runes, wrs);
  }

  /** The word at one place of the text lies within the word at another. */
  ghost predicate Within(q: MixSegment.Word, w: MixSegment.Word) {
    w.offset <= q.offset && q.offset + |q.word| <= w.offset + |w.word|
  }

  ghost predicate IsSlice(q: MixSegment.Word, s: seq<Byte>) {
    q.offset + |q.word| <= |s| && q.word == s[q.offset..q.offset + |q.word|]
  }

  lemma {:induction false} ExpandedWithin(dict: Dictionary, text: seq<Rune>, words: seq<WordRange>, g: WordRange)
      returns (j: nat)
    requires MixSegment.Inside(text, words) && g in AllExpanded(dict, text, words)
    ensures j < |words| && words[j].left <= g.left <= g.right <= words[j].right < |text|
  {
    hide AllExpanded, Expanded;
    AllExpandedAre(dict, text, words, g);
    var w :| w in words && g in Expanded(dict, text, w);
    ExpandedAre(dict, text, w, g);
    j :| j < |words| && words[j] == w;
  }

  lemma {:induction false} WithinByOffsets(s: seq<Byte>, runes: seq<RuneStr>, query: seq<WordRange>, words: seq<WordRange>,
                                           k: nat, j: nat)
    requires Tiled(runes, |s|) && k < |query| && j < |words|
    requires forall i :: 0 <= i < |query| ==> query[i].left <= query[i].right < |runes|
    requires forall i :: 0 <= i < |words| ==> words[i].left <= words[i].right < |runes|
    requires words[j].left <= query[k].left && query[k].right <= words[j].right
    ensures var q := MixSegment.WordsOf(s, runes, query)[k];
      IsSlice(q, s) && Within(q, MixSegment.WordsOf(s, runes, words)[j])
  {
    hide Tiled, MixSegment.OffsetOf, MixSegment.WordsOf;
    MixSegment.WordsAre(s, runes, query, k);
    MixSegment.WordsAre(s, runes, words, j);
    MixSegment.OffsetsGrow(runes, |s|, words[j].left, query[k].left);
    MixSegment.OffsetsGrow(runes, |s|, query[k].right + 1, words[j].right + 1);
  }

  /** Every word of a query cut is the text at its offset and lies within a word of the mixed cut of the sentence. */
  lemma {:induction false} QueryRefinesMix(tb: MixSegment.Tables, s: seq<Byte>, symbols: set<Rune>, hmm: bool, k: nat)
      returns (j: nat)
    requires MixSegment.Good(tb) && RunesFrom(s, 0, 0).Some? && k < |SentenceWords(tb, s, symbols, hmm)|
    ensures var q, mix := SentenceWords(tb, s, symbols, hmm)[k], MixSegment.SentenceWords(tb, s, symbols, hmm);
      IsSlice(q, s) && j < |mix| && Within(q, mix[j])
  {
    var runes := RunesFrom(s, 0, 0).value;
    DecodedTiles(s);
    QueryInside(tb, MixSegment.RuneNumbers(runes), symbols, hmm);
    TextInside(tb, MixSegment.RuneNumbers(runes), symbols, 0, hmm);
    hide RunesFrom, Tiled, TextQuery, MixSegment.TextWords, MixSegment.WordsOf, MixSegment.Good, MixSegment.Inside, Within, IsSlice;
    j := RangeRefines(tb, s, runes, symbols, hmm, k);
  }

  lemma {:induction false} RangeRefines(tb: MixSegment.Tables, s: seq<Byte>, runes: seq<RuneStr>, symbols: set<Rune>,
                                        hmm: bool, k: nat) returns (j: nat)
    requires MixSegment.Good(tb) && Tiled(runes, |s|)
    requires var text := MixSegment.RuneNumbers(runes);
      && MixSegment.Inside(text, TextQuery(tb, text, symbols, 0, hmm))
      && MixSegment.Inside(text, MixSegment.TextWords(tb, text, symbols, 0, hmm))
      && k < |TextQuery(tb, text, symbols, 0, hmm)|
    ensures var text := MixSegment.RuneNumbers(runes);
      var words, query := MixSegment.TextWords(tb, text, symbols, 0, hmm), TextQuery(tb, text, symbols, 0, hmm);
      && j < |words| && IsSlice(MixSegment.WordsOf(s, runes, query)[k], s)
      && Within(MixSegment.WordsOf(s, runes, query)[k], MixSegment.WordsOf(s, runes, words)[j])
  {
    var text := MixSegment.RuneNumbers(runes);
    var words, query := MixSegment.TextWords(tb, text, symbols, 0, hmm), TextQuery(tb, text, symbols, 0, hmm);
    hide Tiled, AllExpanded, MixSegment.TextWords, MixSegment.WordsOf, MixSegment.Good, Within, IsSlice;
    j := ExpandedWithin(tb.dict, text, words, query[k]);
    WithinByOffsets(s, runes, query, words, k, j);
  }

  lemma {:induction false} ExpandedKeeps(dict: Dictionary, text: seq<Rune>, words: seq<WordRange>, j: nat)
      returns (k: nat)
    requires MixSegment.Inside(text, words) && j < |words|
    ensures k < |AllExpanded(dict, text, words)| && AllExpanded(dict, text, words)[k] == words[j]
  {
    hide AllExpanded, Expanded;
    AllExpandedAre(dict, text, words, words[j]);
    ExpandedAre(dict, text, words[j], words[j]);
    assert words[j] in AllExpanded(dict, text, words);
    k :| k < |AllExpanded(dict, text, words)| && AllExpanded(dict, text, words)[k] == words[j];
  }

  lemma {:induction false} SameRangeSameWord(s: seq<Byte>, runes: seq<RuneStr>, query: seq<WordRange>, words: seq<WordRange>,
                                             k: nat, j: nat)
    requires Tiled(runes, |s|) && k < |query| && j < |words| && query[k] == words[j]
    requires forall i :: 0 <= i < |query| ==> query[i].left <= query[i].right < |runes|
    requires forall i :: 0 <= i < |words| ==> words[i].left <= words[i].right < |runes|
    ensures MixSegment.WordsOf(s, runes, query)[k].offset == MixSegment.WordsOf(s, runes, words)[j].offset
    ensures MixSegment.WordsOf(s, runes, query)[k].word == MixSegment.WordsOf(s, runes, words)[j].word
  {
    hide Tiled, MixSegment.OffsetOf, MixSegment.WordsOf;
    MixSegment.WordsAre(s, runes, query, k);
    MixSegment.WordsAre(s, runes, words, j);
  }

  /** And no word of the mixed cut is missing from the query cut. */
  lemma {:induction false} MixIsKept(tb: MixSegment.Tables, s: seq<Byte>, symbols: set<Rune>, hmm: bool, j: nat)
      returns (k: nat)
    requires MixSegment.Good(tb) && RunesFrom(s, 0, 0).Some? && j < |MixSegment.SentenceWords(tb, s, symbols, hmm)|
    ensures var query, w := SentenceWords(tb, s, symbols, hmm), MixSegment.SentenceWords(tb, s, symbols, hmm)[j];
      k < |query| && query[k].offset == w.offset && query[k].word == w.word
  {
    var runes := RunesFrom(s, 0, 0).value;
    var text := MixSegment.RuneNumbers(runes);
    DecodedTiles(s);
    QueryInside(tb, text, symbols, hmm);
    TextInside(tb, text, symbols, 0, hmm);
    var words, query := MixSegment.TextWords(tb, text, symbols, 0, hmm), TextQuery(tb, text, symbols, 0, hmm);
    hide RunesFrom, Tiled, AllExpanded, MixSegment.TextWords, MixSegment.WordsOf, MixSegment.Good;
    k := ExpandedKeeps(tb.dict, text, words, j);
    SameRangeSameWord(s, runes, query, words, k, j);
  }

  /** The words of a sentence for a query: none if it does not decode, else one for each range, in order. */
  lemma {:induction false} SentenceWordsAre(tb: MixSegment.Tables, s: seq<Byte>, symbols: set<Rune>, hmm: bool)
    requires MixSegment.Good(tb)
    ensures RunesFrom(s, 0, 0).None? ==> SentenceWords(tb, s, symbols, hmm) == []
    ensures RunesFrom(s, 0, 0).Some? ==>
      var runes, words := RunesFrom(s, 0, 0).value, SentenceWords(tb, s, symbols, hmm);
      var wrs := TextQuery(tb, MixSegment.RuneNumbers(runes), symbols, 0, hmm);
      |words| == |wrs| && forall k :: 0 <= k < |wrs| ==> MixSegment.IsWordOf(s, runes, wrs[k], words[k])
  {
    if RunesFrom(s, 0, 0).Some? {
      var runes := RunesFrom(s, 0, 0).value;
      var text := MixSegment.RuneNumbers(runes);
      DecodedTiles(s);
      QueryInside(tb, text, symbols, hmm);
      var wrs := TextQuery(tb, text, symbols, 0, hmm);
      hide RunesFrom, TextQuery, MixSegment.WordsOf, MixSegment.IsWordOf, Tiled;
      forall k | 0 <= k < |wrs|
        ensures MixSegment.IsWordOf(s, runes, wrs[k], MixSegment.WordsOf(s, runes, wrs)[k])
      {
        MixSegment.WordsAre(s, runes, wrs, k);
      }
    }
  }
}
