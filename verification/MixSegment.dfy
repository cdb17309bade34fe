/**
 The segmenter of the search engine: dictionary words first, what is left in single runes
 again by the hidden Markov model; and the texts it is applied to, decoded and split at
 separators.
 */
module MixSegment {
  import opened Utf8
  import opened Trie
  import opened MaxProb
  import opened Widths
  import Hmm

  /** Walks over a decoded text, one stretch between separators at a time. */
  class PreFilter {
    const sentence: seq<Rune>
    const symbols: set<Rune>
    var cursor: nat

    constructor (sentence: seq<Rune>, symbols: set<Rune>)
      ensures this.sentence == sentence && this.symbols == symbols && cursor == 0
    {
      this.sentence, this.symbols, cursor := sentence, symbols, 0;
    }

    predicate HasNext()
      reads this
    {
      cursor != |sentence|
    }

    /** A separator comes alone; anything else runs up to the next separator or the end. */
    method Next() returns (begin: nat, end: nat)
      requires cursor < |sentence|
      modifies this
      ensures begin == old(cursor) < end == cursor <= |sentence| && end == StretchEnd(sentence, symbols, begin)
      ensures sentence[begin] in symbols ==> end == begin + 1
      ensures sentence[begin] !in symbols ==>
        && (forall k :: begin <= k < end ==> sentence[k] !in symbols)
        && (end < |sentence| ==> sentence[end] in symbols)
    {
      begin := cursor;
      while cursor != |sentence|
        invariant begin <= cursor <= |sentence|
        invariant forall k :: begin <= k < cursor ==> sentence[k] !in symbols
      {
        if sentence[cursor] in symbols {
          if begin == cursor {
            cursor := cursor + 1;
          } else {
            StretchIs(sentence, symbols, begin, cursor);
          }
          end := cursor;
          return;
        }
        cursor := cursor + 1;
      }
      StretchIs(sentence, symbols, begin, cursor);
      end := |sentence|;
    }
  }

  /** The next separator from i on, or the end. */
  ghost function NextSeparator(text: seq<Rune>, symbols: set<Rune>, i: nat): (stop: nat)
    requires i <= |text|
    ensures i <= stop <= |text|
    ensures forall k :: i <= k < stop ==> text[k] !in symbols
    ensures stop < |text| ==> text[stop] in symbols
    decreases |text| - i
  {
    if i == |text| || text[i] in symbols then i else NextSeparator(text, symbols, i + 1)
  }

  ghost function StretchEnd(text: seq<Rune>, symbols: set<Rune>, begin: nat): (stop: nat)
    requires begin < |text|
    ensures begin < stop <= |text|
  {
    if text[begin] in symbols then begin + 1 else NextSeparator(text, symbols, begin)
  }

  lemma {:induction false} SeparatorIs(text: seq<Rune>, symbols: set<Rune>, i: nat, stop: nat)
    requires i <= stop <= |text| && forall k :: i <= k < stop ==> text[k] !in symbols
    requires stop < |text| ==> text[stop] in symbols
    ensures NextSeparator(text, symbols, i) == stop
    decreases stop - i
  {
    if i < stop {
      SeparatorIs(text, symbols, i + 1, stop);
    }
  }

  lemma StretchIs(text: seq<Rune>, symbols: set<Rune>, begin: nat, stop: nat)
    requires begin < stop <= |text| && forall k :: begin <= k < stop ==> text[k] !in symbols
    requires stop < |text| ==> text[stop] in symbols
    ensures StretchEnd(text, symbols, begin) == stop
  {
    SeparatorIs(text, symbols, begin, stop);
    assert text[begin] !in symbols;
  }

  /** What the segmenter is built from: a dictionary, its least weight, single-rune user words, a model. */
  datatype Tables = Tables(dict: Dictionary, minWeight: real, userSingles: set<Rune>, model: Hmm.Model)

  ghost predicate Good(tb: Tables) {
    SpellsItself(tb.dict)
  }

  // Re-cutting the single runes.

  /** A word the dictionary stands behind: longer than a rune, or a user word of one. */
  predicate Kept(text: seq<Rune>, userSingles: set<Rune>, w: WordRange)
    requires w.left < |text|
  {
    w.left != w.right || text[w.left] in userSingles
  }

  /** The words lie inside the text. */
  ghost predicate Inside(text: seq<Rune>, words: seq<WordRange>) {
    forall k :: 0 <= k < |words| ==> words[k].left <= words[k].right < |text|
  }

  ghost function RunEnd(text: seq<Rune>, userSingles: set<Rune>, words: seq<WordRange>, i: nat): (j: nat)
    requires i <= |words| && Inside(text, words)
    ensures i <= j <= |words|
    ensures forall k :: i <= k < j ==> !Kept(text, userSingles, words[k])
    ensures j < |words| ==> Kept(text, userSingles, words[j])
    decreases |words| - i
  {
    if i == |words| || Kept(text, userSingles, words[i]) then i else RunEnd(text, userSingles, words, i + 1)
  }

  /** Each word starts right behind the one before it. */
  ghost predicate InOrder(words: seq<WordRange>) {
    forall k :: 0 <= k < |words| - 1 ==> words[k].right + 1 == words[k + 1].left
  }

  lemma {:induction false} RunIsRange(words: seq<WordRange>, i: nat, k: nat)
    requires InOrder(words) && i <= k < |words| && forall m :: i <= m <= k ==> words[m].left == words[m].right
    ensures words[k].left == words[i].left + (k - i)
  {
    if i < k {
      RunIsRange(words, i, k - 1);
    }
  }

  /** From word i on: kept words as they are, each run of other words cut anew. */
  ghost function Recut(tb: Tables, text: seq<Rune>, words: seq<WordRange>, i: nat): seq<WordRange>
    requires Inside(text, words) && InOrder(words) && i <= |words|
    decreases |words| - i
  {
    if i == |words| then []
    else if Kept(text, tb.userSingles, words[i]) then [words[i]] + Recut(tb, text, words, i + 1)
    else
      var j := RunEnd(text, tb.userSingles, words, i);
      RunIsRange(words, i, j - 1);
      Hmm.CutWords(tb.model, text, words[i].left, words[j - 1].left + 1) + Recut(tb, text, words, j)
  }

  lemma {:induction false} TiledInside(text: seq<Rune>, words: seq<WordRange>, b: nat, e: nat)
    requires Tiles(words, b, e) && e <= |text|
    ensures Inside(text, words) && InOrder(words)
    ensures words != [] ==> words[0].left == b && words[|words| - 1].right + 1 == e
    decreases |words|
  {
    if words != [] {
      TiledInside(text, words[1..], words[0].right + 1, e);
      assert forall k :: 1 <= k < |words| ==> words[k] == words[1..][k - 1];
    }
  }

  /** What the dictionary alone makes of a range. */
  ghost function DictWords(tb: Tables, text: seq<Rune>, begin: nat, end: nat): (words: seq<WordRange>)
    requires Good(tb) && begin <= end <= |text|
    ensures Tiles(words, begin, end) && Inside(text, words) && InOrder(words)
  {
    var words := BestWords(tb.dict, text[begin..end], begin, MAX_WORD_LENGTH, tb.minWeight);
    BestWordsTile(tb.dict, text[begin..end], begin, MAX_WORD_LENGTH, tb.minWeight);
    assert begin + |text[begin..end]| == end;
    TiledInside(text, words, begin, end);
    words
  }

  /** What the cut of a range is. */
  ghost function MixWords(tb: Tables, text: seq<Rune>, begin: nat, end: nat, hmm: bool): seq<WordRange>
    requires Good(tb) && begin <= end <= |text|
  {
    var words := DictWords(tb, text, begin, end);
    if hmm then Recut(tb, text, words, 0) else words
  }

  method CutRange(trie: Trie, tb: Tables, text: seq<Rune>, begin: nat, end: nat, hmm: bool, res0: seq<WordRange>)
      returns (res: seq<WordRange>)
    requires begin <= end <= |text| && Good(tb) && trie.Valid() && trie.dict == tb.dict
    ensures res == res0 + MixWords(tb, text, begin, end, hmm)
  {
    hide BestWords, Recut, Inside, InOrder;
    if !hmm {
      res := MaxProb.CutRange(trie, text, begin, end, MAX_WORD_LENGTH, tb.minWeight, res0);
      return;
    }
    var words := MaxProb.CutRange(trie, text, begin, end, MAX_WORD_LENGTH, tb.minWeight, []);
    assert words == DictWords(tb, text, begin, end);
    res := RecutSingles(tb, text, words, res0);
  }

  method RecutSingles(tb: Tables, text: seq<Rune>, words: seq<WordRange>, res0: seq<WordRange>)
      returns (res: seq<WordRange>)
    requires Inside(text, words) && InOrder(words)
    ensures res == res0 + Recut(tb, text, words, 0)
  {
    hide Recut, Hmm.CutWords, RunEnd;
    res := res0;
    var i := 0;
    while i < |words|
      invariant i <= |words|
      invariant res + Recut(tb, text, words, i) == res0 + Recut(tb, text, words, 0)
    {
      if Kept(text, tb.userSingles, words[i]) {
        RecutKept(tb, text, words, i);
        res := res + [words[i]];
        i := i + 1;
      } else {
        var j := i;
        while j < |words| && !Kept(text, tb.userSingles, words[j])
          invariant i <= j <= |words|
          invariant forall k :: i <= k < j ==> !Kept(text, tb.userSingles, words[k])
        {
          j := j + 1;
        }
        RecutRun(tb, text, words, i, j);
        var hmmRes := Hmm.Cut(tb.model, text, words[i].left, words[j - 1].left + 1, []);
        res := res + hmmRes;
        i := j;
      }
    }
    RecutNothing(tb, text, words);
  }

  lemma {:induction false} RecutNothing(tb: Tables, text: seq<Rune>, words: seq<WordRange>)
    requires Inside(text, words) && InOrder(words)
    ensures Recut(tb, text, words, |words|) == []
  {}

  lemma RecutKept(tb: Tables, text: seq<Rune>, words: seq<WordRange>, i: nat)
    requires Inside(text, words) && InOrder(words) && i < |words| && Kept(text, tb.userSingles, words[i])
    ensures Recut(tb, text, words, i) == [words[i]] + Recut(tb, text, words, i + 1)
  {}

  lemma RecutRun(tb: Tables, text: seq<Rune>, words: seq<WordRange>, i: nat, j: nat)
    requires Inside(text, words) && InOrder(words) && i < j <= |words|
    requires forall k :: i <= k < j ==> !Kept(text, tb.userSingles, words[k])
    requires j < |words| ==> Kept(text, tb.userSingles, words[j])
    ensures words[j - 1].left == words[i].left + (j - 1 - i)
    ensures Recut(tb, text, words, i)
         == Hmm.CutWords(tb.model, text, words[i].left, words[j - 1].left + 1) + Recut(tb, text, words, j)
  {
    RunEndIs(text, tb.userSingles, words, i, j);
    RunIsRange(words, i, j - 1);
  }

  lemma {:induction false} RunEndIs(text: seq<Rune>, userSingles: set<Rune>, words: seq<WordRange>, i: nat, j: nat)
    requires i <= j <= |words| && Inside(text, words) && forall k :: i <= k < j ==> !Kept(text, userSingles, words[k])
    requires j < |words| ==> Kept(text, userSingles, words[j])
    ensures RunEnd(text, userSingles, words, i) == j
    decreases j - i
  {
    if i < j {
      RunEndIs(text, userSingles, words, i + 1, j);
    }
  }

  // Whole sentences.

  datatype Word = Word(word: seq<Byte>, offset: nat, unicodeOffset: nat, unicodeLength: nat)

  /** `s.substr(pos, n)` for a position inside the text. */
  function Substr(s: seq<Byte>, pos: nat, n: nat): seq<Byte>
    requires pos <= |s|
  {
    s[pos..if pos + n < |s| then pos + n else |s|]
  }

  /** The bytes of a word, from the start of its first rune to the end of its last. */
  function GetWordFromRunes(s: seq<Byte>, runes: seq<RuneStr>, w: WordRange): Word
    requires w.left <= w.right < |runes| && runes[w.left].offset <= runes[w.right].offset <= |s|
    requires runes[w.left].unicodeOffset <= runes[w.right].unicodeOffset
  {
    var left, right := runes[w.left], runes[w.right];
    Word(Substr(s, left.offset, right.offset - left.offset + right.len), left.offset, left.unicodeOffset,
         right.unicodeOffset - left.unicodeOffset + right.unicodeLength)
  }

  /** Where rune k starts; behind the last rune, where the text ends. */
  ghost function OffsetOf(runes: seq<RuneStr>, size: nat, k: nat): nat
    requires k <= |runes|
  {
    if k < |runes| then runes[k].offset else size
  }

  lemma OffsetStep(runes: seq<RuneStr>, size: nat, k: nat)
    requires Tiled(runes, size) && k < |runes|
    ensures OffsetOf(runes, size, k) < OffsetOf(runes, size, k + 1) == runes[k].offset + runes[k].len
  {}

  lemma {:induction false} OffsetsGrow(runes: seq<RuneStr>, size: nat, i: nat, j: nat)
    requires Tiled(runes, size) && i <= j <= |runes|
    ensures OffsetOf(runes, size, i) <= OffsetOf(runes, size, j) <= size
    decreases |runes| - i
  {
    if i < j {
      OffsetStep(runes, size, i);
      OffsetsGrow(runes, size, i + 1, j);
    } else if i < |runes| {
      OffsetStep(runes, size, i);
      OffsetsGrow(runes, size, i + 1, |runes|);
    }
  }

  /** A word of a tiled text: its bytes are those between the offsets on its two sides. */
  lemma WordBytes(s: seq<Byte>, runes: seq<RuneStr>, w: WordRange)
    requires Tiled(runes, |s|) && w.left <= w.right < |runes|
    ensures runes[w.left].offset <= runes[w.right].offset <= |s|
    ensures runes[w.left].unicodeOffset <= runes[w.right].unicodeOffset
    ensures var a, b := OffsetOf(runes, |s|, w.left), OffsetOf(runes, |s|, w.right + 1);
      a <= b <= |s| && GetWordFromRunes(s, runes, w) == Word(s[a..b], a, w.left, w.right - w.left + 1)
  {
    OffsetsGrow(runes, |s|, w.left, w.right);
    OffsetsGrow(runes, |s|, w.right, w.right + 1);
    OffsetStep(runes, |s|, w.right);
  }

  ghost function WordsOf(s: seq<Byte>, runes: seq<RuneStr>, wrs: seq<WordRange>): (r: seq<Word>)
    requires Tiled(runes, |s|) && forall k :: 0 <= k < |wrs| ==> wrs[k].left <= wrs[k].right < |runes|
    ensures |r| == |wrs|
  {
    if wrs == [] then []
    else
      WordBytes(s, runes, wrs[0]);
      [GetWordFromRunes(s, runes, wrs[0])] + WordsOf(s, runes, wrs[1..])
  }

  method GetWordsFromWordRanges(s: seq<Byte>, runes: seq<RuneStr>, wrs: seq<WordRange>) returns (words: seq<Word>)
    requires Tiled(runes, |s|) && forall k :: 0 <= k < |wrs| ==> wrs[k].left <= wrs[k].right < |runes|
    ensures words == WordsOf(s, runes, wrs)
  {
    hide Tiled, OffsetOf, GetWordFromRunes;
    words := [];
    assert wrs[0..] == wrs;
    for i := 0 to |wrs|
      invariant words + WordsOf(s, runes, wrs[i..]) == WordsOf(s, runes, wrs)
    {
      WordBytes(s, runes, wrs[i]);
      assert wrs[i..][1..] == wrs[i + 1..];
      words := words + [GetWordFromRunes(s, runes, wrs[i])];
    }
  }

  /** The words of a text from rune c on, stretch by stretch. */
  ghost function TextWords(tb: Tables, text: seq<Rune>, symbols: set<Rune>, c: nat, hmm: bool): seq<WordRange>
    requires Good(tb) && c <= |text|
    decreases |text| - c
  {
    if c == |text| then []
    else
      var stop := StretchEnd(text, symbols, c);
      MixWords(tb, text, c, stop, hmm) + TextWords(tb, text, symbols, stop, hmm)
  }

  ghost function RuneNumbers(runes: seq<RuneStr>): (r: seq<Rune>)
    ensures |r| == |runes| && forall k :: 0 <= k < |runes| ==> r[k] == runes[k].rune
  {
    seq(|runes|, k requires 0 <= k < |runes| => runes[k].rune)
  }

  /** The words of a sentence; none when it does not decode. */
  ghost function SentenceWords(tb: Tables, s: seq<Byte>, symbols: set<Rune>, hmm: bool): seq<Word>
    requires Good(tb)
  {
    if RunesFrom(s, 0, 0).None? then []
    else
      var runes := RunesFrom(s, 0, 0).value;
      DecodedTiles(s);
      TextWordsTile(tb, RuneNumbers(runes), symbols, 0, hmm);
      TiledInside(RuneNumbers(runes), TextWords(tb, RuneNumbers(runes), symbols, 0, hmm), 0, |runes|);
      WordsOf(s, runes, TextWords(tb, RuneNumbers(runes), symbols, 0, hmm))
  }

  method Cut(trie: Trie, tb: Tables, s: seq<Byte>, symbols: set<Rune>, hmm: bool) returns (words: seq<Word>)
    requires |s| < TWO_32 && Good(tb) && trie.Valid() && trie.dict == tb.dict
    ensures words == SentenceWords(tb, s, symbols, hmm)
  {
    hide RunesFrom, TextWords, MixWords, WordsOf;
    var ok, runes := DecodeRunesInString(s);
    if !ok {
      // The filter walks over no runes at all.
      return [];
    }
    DecodedTiles(s);
    var text := seq(|runes|, k requires 0 <= k < |runes| => runes[k].rune);
    assert text == RuneNumbers(runes);
    var wrs := CutText(trie, tb, text, symbols, hmm);
    TextWordsTile(tb, text, symbols, 0, hmm);
    TiledInside(text, wrs, 0, |text|);
    words := GetWordsFromWordRanges(s, runes, wrs);
  }

  method CutText(trie: Trie, tb: Tables, text: seq<Rune>, symbols: set<Rune>, hmm: bool) returns (wrs: seq<WordRange>)
    requires Good(tb) && trie.Valid() && trie.dict == tb.dict
    ensures wrs == TextWords(tb, text, symbols, 0, hmm)
  {
    hide MixWords, StretchEnd, TextWords, Good, Trie.Valid;
    var filter := new PreFilter(text, symbols);
    wrs := [];
    while filter.HasNext()
      invariant filter.cursor <= |text| && filter.sentence == text && filter.symbols == symbols
      invariant trie.Valid() && trie.dict == tb.dict
      invariant wrs + TextWords(tb, text, symbols, filter.cursor, hmm) == TextWords(tb, text, symbols, 0, hmm)
      decreases |text| - filter.cursor
    {
      NextStretch(tb, text, symbols, filter.cursor, hmm);
      var begin, end := filter.Next();
      wrs := CutRange(trie, tb, text, begin, end, hmm, wrs);
    }
    NothingBehind(tb, text, symbols, hmm);
  }

  lemma {:induction false} NextStretch(tb: Tables, text: seq<Rune>, symbols: set<Rune>, c: nat, hmm: bool)
    requires Good(tb) && c < |text|
    ensures var stop := StretchEnd(text, symbols, c);
      TextWords(tb, text, symbols, c, hmm) == MixWords(tb, text, c, stop, hmm) + TextWords(tb, text, symbols, stop, hmm)
  {}

  lemma {:induction false} NothingBehind(tb: Tables, text: seq<Rune>, symbols: set<Rune>, hmm: bool)
    requires Good(tb)
    ensures TextWords(tb, text, symbols, |text|, hmm) == []
  {}

  // Nothing is lost.

  /** Where word i starts, or the end of the range. */
  ghost function StartOf(words: seq<WordRange>, i: nat, e: nat): nat
    requires i <= |words|
  {
    if i < |words| then words[i].left else e
  }

  /** The words are single runes up to place j, so they end where the word at j starts. */
  lemma RunReaches(text: seq<Rune>, userSingles: set<Rune>, words: seq<WordRange>, i: nat, j: nat, e: nat)
    requires Inside(text, words) && InOrder(words) && i < j <= |words|
    requires forall k :: i <= k < j ==> !Kept(text, userSingles, words[k])
    requires words[|words| - 1].right + 1 == e
    ensures words[j - 1].left + 1 == StartOf(words, j, e)
  {
    assert !Kept(text, userSingles, words[j - 1]);
  }

  lemma WordReaches(text: seq<Rune>, words: seq<WordRange>, i: nat, e: nat)
    requires Inside(text, words) && InOrder(words) && i < |words| && words[|words| - 1].right + 1 == e
    ensures words[i].right + 1 == StartOf(words, i + 1, e)
  {}

  lemma {:induction false} RecutTiles(tb: Tables, text: seq<Rune>, words: seq<WordRange>, i: nat, e: nat)
    requires Inside(text, words) && InOrder(words) && i <= |words| && e <= |text|
    requires words != [] ==> words[|words| - 1].right + 1 == e
    ensures Tiles(Recut(tb, text, words, i), StartOf(words, i, e), e)
    decreases |words| - i
  {
    hide Recut, Kept, InOrder, Tiles;
    if i == |words| {
      RecutNothing(tb, text, words);
      NothingTiles(e);
    } else if Kept(text, tb.userSingles, words[i]) {
      RecutTiles(tb, text, words, i + 1, e);
      RecutKept(tb, text, words, i);
      WordReaches(text, words, i, e);
      OneWordMore(words[i], Recut(tb, text, words, i + 1), e);
    } else {
      var j := RunEnd(text, tb.userSingles, words, i);
      RecutRun(tb, text, words, i, j);
      RunReaches(text, tb.userSingles, words, i, j, e);
      var next := words[j - 1].left + 1;
      Hmm.CutWordsTile(tb.model, text, words[i].left, next);
      RecutTiles(tb, text, words, j, e);
      Hmm.TilesConcat(Hmm.CutWords(tb.model, text, words[i].left, next), Recut(tb, text, words, j),
                      words[i].left, next, e);
    }
  }

  lemma {:induction false} NothingTiles(e: nat)
    ensures Tiles([], e, e)
  {}

  lemma {:induction false} OneWordMore(w: WordRange, rest: seq<WordRange>, e: nat)
    requires w.left <= w.right && Tiles(rest, w.right + 1, e)
    ensures Tiles([w] + rest, w.left, e)
  {
    assert ([w] + rest)[1..] == rest;
  }

  /** The cut of a range covers it, with the model or without. */
  lemma {:induction false} MixWordsTile(tb: Tables, text: seq<Rune>, begin: nat, end: nat, hmm: bool)
    requires Good(tb) && begin <= end <= |text|
    ensures Tiles(MixWords(tb, text, begin, end, hmm), begin, end)
  {
    hide DictWords, Recut;
    var words := DictWords(tb, text, begin, end);
    TiledInside(text, words, begin, end);
    RecutTiles(tb, text, words, 0, end);
  }

  lemma {:induction false} TextWordsTile(tb: Tables, text: seq<Rune>, symbols: set<Rune>, c: nat, hmm: bool)
    requires Good(tb) && c <= |text|
    ensures Tiles(TextWords(tb, text, symbols, c, hmm), c, |text|)
    decreases |text| - c
  {
    hide MixWords;
    if c < |text| {
      var stop := StretchEnd(text, symbols, c);
      MixWordsTile(tb, text, c, stop, hmm);
      TextWordsTile(tb, text, symbols, stop, hmm);
      Hmm.TilesConcat(MixWords(tb, text, c, stop, hmm), TextWords(tb, text, symbols, stop, hmm), c, stop, |text|);
    }
  }

  ghost function Joined(words: seq<Word>): seq<Byte> {
    if words == [] then [] else words[0].word + Joined(words[1..])
  }

  /** Every word is non-empty and starts where the one before it ends. */
  ghost predicate Contiguous(words: seq<Word>, from: nat) {
    words == [] || (words[0].word != [] && words[0].offset == from && Contiguous(words[1..], from + |words[0].word|))
  }

  lemma {:induction false} TilesJoin(s: seq<Byte>, runes: seq<RuneStr>, wrs: seq<WordRange>, b: nat, e: nat)
    requires Tiled(runes, |s|) && Tiles(wrs, b, e) && b <= e <= |runes|
    requires forall k :: 0 <= k < |wrs| ==> wrs[k].left <= wrs[k].right < |runes|
    ensures OffsetOf(runes, |s|, b) <= OffsetOf(runes, |s|, e) <= |s|
    ensures Joined(WordsOf(s, runes, wrs)) == s[OffsetOf(runes, |s|, b)..OffsetOf(runes, |s|, e)]
    ensures Contiguous(WordsOf(s, runes, wrs), OffsetOf(runes, |s|, b))
    decreases |wrs|
  {
    hide GetWordFromRunes, Tiled, OffsetOf;
    OffsetsGrow(runes, |s|, b, e);
    if wrs != [] {
      var w := wrs[0];
      WordBytes(s, runes, w);
      OffsetStep(runes, |s|, w.left);
      OffsetsGrow(runes, |s|, w.left + 1, w.right + 1);
      Hmm.TilesGrow(wrs[1..], w.right + 1, e);
      TilesJoin(s, runes, wrs[1..], w.right + 1, e);
      var words := WordsOf(s, runes, wrs);
      assert words[1..] == WordsOf(s, runes, wrs[1..]);
      hide WordsOf;
      var i, j, k := OffsetOf(runes, |s|, b), OffsetOf(runes, |s|, w.right + 1), OffsetOf(runes, |s|, e);
      FirstJoins(s, words, i, j, k);
    }
  }

  lemma {:induction false} FirstJoins(s: seq<Byte>, words: seq<Word>, i: nat, j: nat, k: nat)
    requires i <= j <= k <= |s| && words != [] && i < j && words[0].word == s[i..j] && words[0].offset == i
    requires Joined(words[1..]) == s[j..k] && Contiguous(words[1..], j)
    ensures Joined(words) == s[i..k] && Contiguous(words, i)
  {
    assert s[i..j] + s[j..k] == s[i..k];
  }

  /**
   For every text that decodes, with any dictionary whose units spell their keys, any model
   and any separators: the words joined are the text, each at its own offset.
   */
  lemma {:induction false} NothingIsLost(tb: Tables, s: seq<Byte>, symbols: set<Rune>, hmm: bool)
    requires Good(tb) && RunesFrom(s, 0, 0).Some?
    ensures Joined(SentenceWords(tb, s, symbols, hmm)) == s
    ensures Contiguous(SentenceWords(tb, s, symbols, hmm), 0)
  {
    hide TextWords, MixWords;
    DecodedTiles(s);
    var runes := RunesFrom(s, 0, 0).value;
    var text := RuneNumbers(runes);
    var wrs := TextWords(tb, text, symbols, 0, hmm);
    TextWordsTile(tb, text, symbols, 0, hmm);
    TiledInside(text, wrs, 0, |runes|);
    TilesJoin(s, runes, wrs, 0, |runes|);
  }

  /** What the keyword extractor adds up to check its words against the sentence. */
  ghost function TotalSize(words: seq<Word>): nat {
    if words == [] then 0 else |words[0].word| + TotalSize(words[1..])
  }

  lemma {:induction false} TotalIsJoined(words: seq<Word>)
    ensures TotalSize(words) == |Joined(words)|
  {
    if words != [] {
      TotalIsJoined(words[1..]);
    }
  }

  /** The extractor finds its words legal exactly when the sentence decodes. */
  lemma {:induction false} WordsLegal(tb: Tables, s: seq<Byte>, symbols: set<Rune>, hmm: bool)
    requires Good(tb)
    ensures TotalSize(SentenceWords(tb, s, symbols, hmm)) == |s| <==> RunesFrom(s, 0, 0).Some?
  {
    TotalIsJoined(SentenceWords(tb, s, symbols, hmm));
    if RunesFrom(s, 0, 0).Some? {
      NothingIsLost(tb, s, symbols, hmm);
    }
  }

  // What the cut is, word by word.

  /** From place p on the words are these. */
  ghost predicate PartAt(words: seq<WordRange>, part: seq<WordRange>, p: nat) {
    p + |part| <= |words| && words[p..p + |part|] == part
  }

  ghost predicate Contains(words: seq<WordRange>, part: seq<WordRange>) {
    exists p: nat :: PartAt(words, part, p)
  }

  lemma ContainsFront(part: seq<WordRange>, rest: seq<WordRange>)
    ensures Contains(part + rest, part)
  {
    assert PartAt(part + rest, part, 0);
  }

  lemma PartBehind(front: seq<WordRange>, rest: seq<WordRange>, part: seq<WordRange>, p: nat)
    requires PartAt(rest, part, p)
    ensures PartAt(front + rest, part, |front| + p)
  {}

  lemma ContainsBehind(front: seq<WordRange>, rest: seq<WordRange>, part: seq<WordRange>)
    requires Contains(rest, part)
    ensures Contains(front + rest, part)
  {
    var p: nat :| PartAt(rest, part, p);
    PartBehind(front, rest, part, p);
  }

  /** A word longer than a rune, or a user word of one, is not cut anew. */
  lemma {:induction false} LongWordsStay(tb: Tables, text: seq<Rune>, words: seq<WordRange>, i: nat, k: nat)
    requires Inside(text, words) && InOrder(words) && i <= k < |words|
    requires words[k].left != words[k].right || text[words[k].left] in tb.userSingles
    ensures words[k] in Recut(tb, text, words, i)
    decreases |words| - i
  {
    hide Recut;
    if Kept(text, tb.userSingles, words[i]) {
      RecutKept(tb, text, words, i);
      if i < k {
        LongWordsStay(tb, text, words, i + 1, k);
      }
    } else {
      var j := RunEnd(text, tb.userSingles, words, i);
      assert j <= k;
      RecutRun(tb, text, words, i, j);
      LongWordsStay(tb, text, words, j, k);
    }
  }

  /**
   A maximal run of other words, single runes that are no user words, becomes exactly what
   the model makes of its runes.
   */
  lemma {:induction false} LeftoversAreRecut(tb: Tables, text: seq<Rune>, words: seq<WordRange>, i: nat, a: nat, b: nat)
    requires Inside(text, words) && InOrder(words) && i <= a < b <= |words|
    requires forall k :: a <= k < b ==> words[k].left == words[k].right && text[words[k].left] !in tb.userSingles
    requires a > i ==> words[a - 1].left != words[a - 1].right || text[words[a - 1].left] in tb.userSingles
    requires b < |words| ==> words[b].left != words[b].right || text[words[b].left] in tb.userSingles
    ensures words[a].left < words[b - 1].right + 1 <= |text|
    ensures Contains(Recut(tb, text, words, i), Hmm.CutWords(tb.model, text, words[a].left, words[b - 1].right + 1))
    decreases |words| - i
  {
    hide Recut, Hmm.CutWords, Contains;
    RunIsRange(words, a, b - 1);
    var part := Hmm.CutWords(tb.model, text, words[a].left, words[b - 1].right + 1);
    if i == a {
      RecutRun(tb, text, words, a, b);
      ContainsFront(part, Recut(tb, text, words, b));
    } else if Kept(text, tb.userSingles, words[i]) {
      RecutKept(tb, text, words, i);
      LeftoversAreRecut(tb, text, words, i + 1, a, b);
      ContainsBehind([words[i]], Recut(tb, text, words, i + 1), part);
    } else {
      var j := RunEnd(text, tb.userSingles, words, i);
      assert j <= a - 1;
      RecutRun(tb, text, words, i, j);
      LeftoversAreRecut(tb, text, words, j, a, b);
      ContainsBehind(Hmm.CutWords(tb.model, text, words[i].left, words[j - 1].left + 1), Recut(tb, text, words, j), part);
    }
  }

  /** Without the model the cut of a range is the dictionary's. */
  lemma WithoutModel(tb: Tables, text: seq<Rune>, begin: nat, end: nat)
    requires Good(tb) && begin <= end <= |text|
    ensures MixWords(tb, text, begin, end, false) == DictWords(tb, text, begin, end)
         == BestWords(tb.dict, text[begin..end], begin, MAX_WORD_LENGTH, tb.minWeight)
  {}

  /** With it, a dictionary word that is longer than a rune or a user word stays. */
  lemma DictWordsStay(tb: Tables, text: seq<Rune>, begin: nat, end: nat, k: nat)
    requires Good(tb) && begin <= end <= |text| && k < |DictWords(tb, text, begin, end)|
    requires var w := DictWords(tb, text, begin, end)[k]; w.left != w.right || text[w.left] in tb.userSingles
    ensures DictWords(tb, text, begin, end)[k] in MixWords(tb, text, begin, end, true)
  {
    LongWordsStay(tb, text, DictWords(tb, text, begin, end), 0, k);
  }

  /** And a maximal run a to b of the other words is cut by the model instead, as one range. */
  lemma {:induction false} LeftoversGoToModel(tb: Tables, text: seq<Rune>, begin: nat, end: nat, a: nat, b: nat)
    requires Good(tb) && begin <= end <= |text| && a < b <= |DictWords(tb, text, begin, end)|
    requires var words := DictWords(tb, text, begin, end);
      && (forall k :: a <= k < b ==> words[k].left == words[k].right && text[words[k].left] !in tb.userSingles)
      && (a > 0 ==> words[a - 1].left != words[a - 1].right || text[words[a - 1].left] in tb.userSingles)
      && (b < |words| ==> words[b].left != words[b].right || text[words[b].left] in tb.userSingles)
    ensures var words := DictWords(tb, text, begin, end);
      && words[a].left < words[b - 1].right + 1 <= |text|
      && Contains(MixWords(tb, text, begin, end, true),
                  Hmm.CutWords(tb.model, text, words[a].left, words[b - 1].right + 1))
  {
    hide DictWords;
    LeftoversAreRecut(tb, text, DictWords(tb, text, begin, end), 0, a, b);
  }

  /** A stretch of the filter: a separator alone, or everything between two separators. */
  ghost predicate IsStretch(text: seq<Rune>, symbols: set<Rune>, b: nat, e: nat) {
    && b < e <= |text|
    && (text[b] in symbols ==> e == b + 1)
    && (text[b] !in symbols ==>
          && (forall k :: b <= k < e ==> text[k] !in symbols)
          && (b > 0 ==> text[b - 1] in symbols) && (e < |text| ==> text[e] in symbols))
  }

  /** Every stretch of a text is cut as a range of its own. */
  lemma {:induction false} StretchesAreCut(tb: Tables, text: seq<Rune>, symbols: set<Rune>, c: nat, hmm: bool, b: nat, e: nat)
    requires Good(tb) && c <= b && IsStretch(text, symbols, b, e)
    requires c == 0 || text[c - 1] in symbols || (c < |text| && text[c] in symbols)
    ensures Contains(TextWords(tb, text, symbols, c, hmm), MixWords(tb, text, b, e, hmm))
    decreases |text| - c
  {
    hide MixWords, TextWords, Contains;
    var stop := StretchEnd(text, symbols, c);
    NextStretch(tb, text, symbols, c, hmm);
    if c == b {
      assert stop == e;
      ContainsFront(MixWords(tb, text, b, e, hmm), TextWords(tb, text, symbols, e, hmm));
    } else {
      assert stop <= b;
      StretchesAreCut(tb, text, symbols, stop, hmm, b, e);
      ContainsBehind(MixWords(tb, text, c, stop, hmm), TextWords(tb, text, symbols, stop, hmm), MixWords(tb, text, b, e, hmm));
    }
  }

  /** The word has exactly the bytes of the runes from left to right, at their place. */
  ghost predicate IsWordOf(s: seq<Byte>, runes: seq<RuneStr>, w: WordRange, word: Word) {
    && w.left <= w.right < |runes|
    && var a, b := OffsetOf(runes, |s|, w.left), OffsetOf(runes, |s|, w.right + 1);
    && a <= b <= |s| && word == Word(s[a..b], a, w.left, w.right - w.left + 1)
  }

  /** The words of a list of ranges, one by one. */
  lemma {:induction false} WordsAre(s: seq<Byte>, runes: seq<RuneStr>, wrs: seq<WordRange>, k: nat)
    requires Tiled(runes, |s|) && k < |wrs| && forall i :: 0 <= i < |wrs| ==> wrs[i].left <= wrs[i].right < |runes|
    ensures IsWordOf(s, runes, wrs[k], WordsOf(s, runes, wrs)[k])
  {
    hide Tiled, OffsetOf, GetWordFromRunes;
    WordBytes(s, runes, wrs[0]);
    if k > 0 {
      WordsAre(s, runes, wrs[1..], k - 1);
    }
  }

  /** The words of a sentence: none if it does not decode, else one for each range of its runes, in order. */
  lemma {:induction false} SentenceWordsAre(tb: Tables, s: seq<Byte>, symbols: set<Rune>, hmm: bool)
    requires Good(tb)
    ensures RunesFrom(s, 0, 0).None? ==> SentenceWords(tb, s, symbols, hmm) == []
    ensures RunesFrom(s, 0, 0).Some? ==>
      var runes, words := RunesFrom(s, 0, 0).value, SentenceWords(tb, s, symbols, hmm);
      var wrs := TextWords(tb, RuneNumbers(runes), symbols, 0, hmm);
      |words| == |wrs| && forall k :: 0 <= k < |wrs| ==> IsWordOf(s, runes, wrs[k], words[k])
  {
    if RunesFrom(s, 0, 0).Some? {
      var runes := RunesFrom(s, 0, 0).value;
      DecodedTiles(s);
      var wrs := TextWords(tb, RuneNumbers(runes), symbols, 0, hmm);
      TextWordsTile(tb, RuneNumbers(runes), symbols, 0, hmm);
      TiledInside(RuneNumbers(runes), wrs, 0, |runes|);
      hide RunesFrom, TextWords, WordsOf, IsWordOf, Tiled;
      forall k | 0 <= k < |wrs|
        ensures IsWordOf(s, runes, wrs[k], WordsOf(s, runes, wrs)[k])
      {
        WordsAre(s, runes, wrs, k);
      }
    }
  }
}
