/**
 A search from the posting rows of its words to the page of url numbers it answers with.
 */
module Search {
  import opened Lookup
  import opened PostingRow
  import opened Permutations
  import opened Ranking
  import opened ResultPages
  import opened SearchScore
  import opened Widths

  /**
   A ranking of a query: every url the rows mention, but "0", once; and no url behind one
   of a smaller sum.
   */
  ghost predicate IsRanking(postings: seq<Posting>, ranking: seq<string>) {
    && (forall url :: url in ranking <==> url != "0" && Mentions(postings, url))
    && (forall i, j :: 0 <= i < j < |ranking| ==> ranking[i] != ranking[j])
    && (forall i, j :: 0 <= i < j < |ranking| ==>
          Sum(postings, ranking[i]) % TWO_64 >= Sum(postings, ranking[j]) % TWO_64)
  }

  /** The keys of a table in whatever order the table is walked. */
  method Walk(scores: map<string, nat>) returns (order: seq<string>)
    ensures multiset(order) == multiset(scores.Keys) && |order| == |scores|
  {
    order := [];
    var left := scores.Keys;
    while left != {}
      invariant multiset(order) + multiset(left) == multiset(scores.Keys)
      invariant |order| + |left| == |scores.Keys|
      decreases left
    {
      var url :| url in left;
      order, left := order + [url], left - {url};
    }
  }

  lemma OnceEach(s: seq<string>, keys: set<string>)
    requires multiset(s) == multiset(keys)
    ensures forall url :: url in s <==> url in keys
    ensures forall i, j :: 0 <= i < j < |s| ==> s[i] != s[j]
  {
    forall url: string
      ensures url in s <==> url in keys
    {
      assert url in s <==> url in multiset(s);
    }
    forall i, j | 0 <= i < j < |s|
      ensures s[i] != s[j]
    {
      var rest := s[..i] + s[i + 1..];
      WithoutAt(s, i);
      assert rest[j - 1] == s[j] && s[j] in multiset(rest);
      assert multiset(keys)[s[i]] <= 1;
    }
  }

  lemma {:induction false} RankingOfScores(postings: seq<Posting>, ranking: seq<string>)
    requires var scores := AddPostings(map[], postings);
      multiset(ranking) == multiset(scores.Keys) && HeaviestFirst(ranking, scores)
    ensures IsRanking(postings, ranking)
  {
    hide AddPostings, Sum, Mentions;
    var scores := AddPostings(map[], postings);
    OnceEach(ranking, scores.Keys);
    ScoreIsSum(postings);
    forall i, j | 0 <= i < j < |ranking|
      ensures Sum(postings, ranking[i]) % TWO_64 >= Sum(postings, ranking[j]) % TWO_64
    {
      assert ranking[i] in scores && ranking[j] in scores;
      assert Get(scores, ranking[i]) >= Get(scores, ranking[j]);
    }
  }

  /**
   Answers a query: whatever order the table is walked in, there is one ranking by summed
   weight from which the page asked for is answered; a page below 1 is the first, and a
   page size that is not between 1 and 50 is 10.
   */
  method AnswerQuery(rows: seq<(string, int)>, startPage0: Short, perPage0: Short, ghost postings: seq<Posting>)
      returns (urls: seq<string>, startPage: int, totalPages: int)
    requires |rows| == |postings| && |AddPostings(map[], postings)| <= MAX_INT32
    requires forall i :: 0 <= i < |rows| ==>
      && WellFormed(postings[i].nodes) && postings[i].nodes != []
      && rows[i] == (RowText(postings[i].nodes), postings[i].times)
    ensures exists ranking ::
      && IsRanking(postings, ranking)
      && var p, per := if startPage0 < 1 then 1 else startPage0, if 1 <= perPage0 <= 50 then perPage0 else 10;
         var from, n := (p - 1) * per, |ranking|;
         if 0 <= from < n then
           && startPage == p && totalPages == ToShort(TotalPages(n, per))
           && |urls| == (if from + per < n then per else n - from)
           && forall k :: 0 <= k < |urls| ==> urls[k] == ranking[from + k]
         else
           startPage == -1 && totalPages == -1 && urls == []
  {
    hide AddPostings, WellFormed, Ordered, TotalPages, ToShort, IsRanking;
    var scores := ScoreQuery(rows, postings);
    var order := Walk(scores);
    urls, startPage, totalPages := RankedPage(order, scores, startPage0, perPage0);
    ghost var ranking := Ordered(order, scores);
    OrderedIsRanking(order, scores);
    SameLength(ranking, order);
    RankingOfScores(postings, ranking);
    assert IsRanking(postings, ranking);
  }
}
