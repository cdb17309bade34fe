/**
 Reading posting rows back for a search: every url's weight, times how often the word
 occurs in the query, added up over the words of the query.
 */
module SearchScore {
  import opened Decimal
  import opened Lookup
  import opened Scan
  import opened PostingRow
  import opened UpdateWeight
  import opened Permutations
  import opened Widths

  /** A row of the index and how often its word occurs in the query. */
  datatype Posting = Posting(nodes: seq<Node>, times: int)

  /** The product of an unsigned int and a short, as an unsigned int. */
  function Product(w: nat, times: int): nat {
    w * times % TWO_32
  }

  /** What one node contributes. */
  function Share(x: Node, times: int): nat {
    Product(x.weight, times)
  }

  function AddNode(scores: map<string, nat>, x: Node, times: int): map<string, nat> {
    if x.url == "0" then scores
    else scores[x.url := (Get(scores, x.url) + Share(x, times)) % TWO_64]
  }

  function AddNodes(scores: map<string, nat>, nodes: seq<Node>, times: int): map<string, nat>
    decreases |nodes|
  {
    if nodes == [] then scores
    else AddNodes(AddNode(scores, nodes[0], times), nodes[1..], times)
  }

  /** Reads the node behind the bar at i, and finds where it ends. */
  method ReadEntry(row: string, i0: nat, ghost before: string, ghost nodes: seq<Node>, ghost k: nat)
      returns (w: nat, url: string, i: nat)
    requires WellFormed(nodes) && k < |nodes| && row == before + Body(nodes) && i0 == BarAt(before, nodes, k)
    ensures w == nodes[k].weight && url == nodes[k].url
    ensures i == BarAt(before, nodes, k + 1) <= |row| && (i == |row| <==> k + 1 == |nodes|)
  {
    hide Print, Body, Read, BarAt, UnderAt, WellFormed;
    Landmarks(before, nodes, k);
    WeightText(before, nodes, k);
    UrlText(before, nodes, k);
    var j := i0 + 1;
    i := ScanRight(row, j, '_', UnderAt(before, nodes, k));
    w := Read(row[j..i], MAX_UINT32);
    j := i + 1;
    i := ScanRight(row, j, '|', BarAt(before, nodes, k + 1));
    url := row[j..i];
  }

  /** Adds one row, read from its text. */
  method ParseWeight(scores0: map<string, nat>, row: string, times: int, ghost nodes: seq<Node>)
      returns (scores: map<string, nat>)
    requires WellFormed(nodes) && nodes != [] && row == RowText(nodes)
    ensures scores == AddNodes(scores0, nodes, times)
  {
    hide Print, Body, WellFormed, Product;
    ghost var before := Print(|nodes|);
    PrintedHasNoSeparator(|nodes|);
    Landmarks(before, nodes, 0);
    scores := scores0;
    var i := ScanRight(row, 0, '|', |before|);
    ghost var k := 0;
    assert nodes[0..] == nodes;
    while i < |row|
      invariant k <= |nodes| && i == BarAt(before, nodes, k) <= |row| && (i == |row| <==> k == |nodes|)
      invariant AddNodes(scores, nodes[k..], times) == AddNodes(scores0, nodes, times)
      decreases |nodes| - k
    {
      var w, url;
      w, url, i := ReadEntry(row, i, before, nodes, k);
      if url != "0" {
        scores := scores[url := (Get(scores, url) + Product(w, times)) % TWO_64];
      }
      assert nodes[k..][1..] == nodes[k + 1..];
      k := k + 1;
    }
  }

  lemma {:induction false} UrlText(before: string, nodes: seq<Node>, k: nat)
    requires WellFormed(nodes) && k < |nodes|
    ensures UnderAt(before, nodes, k) < BarAt(before, nodes, k + 1) <= |before + Body(nodes)|
    ensures (before + Body(nodes))[UnderAt(before, nodes, k) + 1..BarAt(before, nodes, k + 1)] == nodes[k].url
  {
    hide Print, Body;
    NodeAt(before, nodes, k);
  }

  function AddPostings(scores: map<string, nat>, postings: seq<Posting>): map<string, nat>
    decreases |postings|
  {
    if postings == [] then scores
    else AddPostings(AddNodes(scores, postings[0].nodes, postings[0].times), postings[1..])
  }

  /** All rows of a query, in the order the table of rows happens to give. */
  method ScoreQuery(rows: seq<(string, int)>, ghost postings: seq<Posting>) returns (scores: map<string, nat>)
    requires |rows| == |postings|
    requires forall i :: 0 <= i < |rows| ==>
      && WellFormed(postings[i].nodes) && postings[i].nodes != []
      && rows[i] == (RowText(postings[i].nodes), postings[i].times)
    ensures scores == AddPostings(map[], postings)
  {
    scores := map[];
    assert postings[0..] == postings;
    for i := 0 to |rows|
      invariant AddPostings(scores, postings[i..]) == AddPostings(map[], postings)
    {
      assert postings[i..][1..] == postings[i + 1..];
      scores := ParseWeight(scores, rows[i].0, rows[i].1, postings[i].nodes);
    }
  }

  /** The one unsigned int that is the product modulo 2^32. */
  lemma ProductIs(w: nat, times: int)
    ensures Product(w, times) < TWO_32 && (w * times - Product(w, times)) % TWO_32 == 0
  {}

  // The sums themselves.

  ghost function NodeSum(nodes: seq<Node>, times: int, url: string): nat {
    if nodes == [] then 0
    else (if nodes[0].url == url then Share(nodes[0], times) else 0) + NodeSum(nodes[1..], times, url)
  }

  ghost function Sum(postings: seq<Posting>, url: string): nat {
    if postings == [] then 0
    else NodeSum(postings[0].nodes, postings[0].times, url) + Sum(postings[1..], url)
  }

  ghost predicate Mentions(postings: seq<Posting>, url: string) {
    exists p :: p in postings && exists x :: x in p.nodes && x.url == url
  }

  lemma OneShare(scores: map<string, nat>, x: Node, times: int, url: string)
    requires url != "0" && (url in scores ==> scores[url] < TWO_64)
    ensures var r := AddNode(scores, x, times);
      && Get(r, url) == (Get(scores, url) + (if x.url == url then Share(x, times) else 0)) % TWO_64
      && (url in r <==> url in scores || x.url == url) && (url in r ==> r[url] < TWO_64)
  {
    hide Share;
  }

  lemma {:induction false} AddNodesSum(scores: map<string, nat>, nodes: seq<Node>, times: int, url: string)
    requires url != "0" && (url in scores ==> scores[url] < TWO_64)
    ensures var r := AddNodes(scores, nodes, times);
      && Get(r, url) == (Get(scores, url) + NodeSum(nodes, times, url)) % TWO_64
      && (url in r <==> url in scores || exists x :: x in nodes && x.url == url)
    decreases |nodes|
  {
    if nodes != [] {
      var first := AddNode(scores, nodes[0], times);
      OneShare(scores, nodes[0], times, url);
      hide AddNode, Share, Get;
      AddNodesSum(first, nodes[1..], times, url);
      assert nodes == [nodes[0]] + nodes[1..];
      ModAdd(Get(scores, url) + (if nodes[0].url == url then Share(nodes[0], times) else 0),
             NodeSum(nodes[1..], times, url));
    }
  }

  lemma ModAdd(a: nat, b: nat)
    ensures (a % TWO_64 + b) % TWO_64 == (a + b) % TWO_64
  {}

  lemma {:induction false} AddPostingsSum(scores: map<string, nat>, postings: seq<Posting>, url: string)
    requires url != "0" && (url in scores ==> scores[url] < TWO_64)
    ensures var r := AddPostings(scores, postings);
      && Get(r, url) == (Get(scores, url) + Sum(postings, url)) % TWO_64
      && (url in r <==> url in scores || Mentions(postings, url))
    decreases |postings|
  {
    if postings != [] {
      var p, rest := postings[0], postings[1..];
      hide AddNodes, NodeSum, Mentions;
      AddNodesSum(scores, p.nodes, p.times, url);
      AddPostingsSum(AddNodes(scores, p.nodes, p.times), rest, url);
      hide Get;
      MentionsFirst(postings, url);
      ModAdd(Get(scores, url) + NodeSum(p.nodes, p.times, url), Sum(rest, url));
    }
  }

  lemma MentionsFirst(postings: seq<Posting>, url: string)
    requires postings != []
    ensures Mentions(postings, url) <==> (exists x :: x in postings[0].nodes && x.url == url) || Mentions(postings[1..], url)
  {
    assert postings == [postings[0]] + postings[1..];
  }

  lemma {:induction false} SentinelIgnored(scores: map<string, nat>, nodes: seq<Node>, times: int)
    requires "0" !in scores
    ensures "0" !in AddNodes(scores, nodes, times)
    decreases |nodes|
  {
    if nodes != [] {
      SentinelIgnored(AddNode(scores, nodes[0], times), nodes[1..], times);
    }
  }

  lemma {:induction false} SentinelIgnoredInAll(scores: map<string, nat>, postings: seq<Posting>)
    requires "0" !in scores
    ensures "0" !in AddPostings(scores, postings)
    decreases |postings|
  {
    if postings != [] {
      SentinelIgnored(scores, postings[0].nodes, postings[0].times);
      SentinelIgnoredInAll(AddNodes(scores, postings[0].nodes, postings[0].times), postings[1..]);
    }
  }

  /** A query scores exactly the urls its rows mention, url "0" apart, each with its sum. */
  lemma {:induction false} ScoreIsSum(postings: seq<Posting>)
    ensures var r := AddPostings(map[], postings);
      && "0" !in r
      && (forall url :: url != "0" ==> (url in r <==> Mentions(postings, url)))
      && (forall url :: url in r ==> r[url] == Sum(postings, url) % TWO_64)
  {
    SentinelIgnoredInAll(map[], postings);
    forall url: string | url != "0"
      ensures url in AddPostings(map[], postings) <==> Mentions(postings, url)
      ensures Get(AddPostings(map[], postings), url) == Sum(postings, url) % TWO_64
    {
      AddPostingsSum(map[], postings, url);
    }
  }

  lemma {:induction false} SumSplit(postings: seq<Posting>, k: nat, url: string)
    requires k < |postings|
    ensures Sum(postings, url) ==
      NodeSum(postings[k].nodes, postings[k].times, url) + Sum(postings[..k] + postings[k + 1..], url)
  {
    if k == 0 {
      assert postings[..0] + postings[1..] == postings[1..];
    } else {
      SumSplit(postings[1..], k - 1, url);
      var less := postings[..k] + postings[k + 1..];
      assert less[1..] == postings[1..][..k - 1] + postings[1..][k..];
    }
  }

  lemma {:induction false} SumOrder(p: seq<Posting>, q: seq<Posting>, url: string)
    requires multiset(p) == multiset(q)
    ensures Sum(p, url) == Sum(q, url)
  {
    SameLength(p, q);
    if p != [] {
      var k := TakeOut(p, q);
      SumSplit(q, k, url);
      SumOrder(p[1..], q[..k] + q[k + 1..], url);
    }
  }

  lemma MentionsOrder(p: seq<Posting>, q: seq<Posting>, url: string)
    requires multiset(p) == multiset(q)
    ensures Mentions(p, url) <==> Mentions(q, url)
  {
    SameLength(p, q);
  }

  /** The scores do not depend on the order the rows come in. */
  lemma {:induction false} ScoreOrder(p: seq<Posting>, q: seq<Posting>)
    requires multiset(p) == multiset(q)
    ensures AddPostings(map[], p) == AddPostings(map[], q)
  {
    hide Mentions, Sum, AddPostings;
    ScoreIsSum(p);
    ScoreIsSum(q);
    var a, b := AddPostings(map[], p), AddPostings(map[], q);
    forall url: string
      ensures url in a <==> url in b
      ensures url in a ==> a[url] == b[url]
    {
      MentionsOrder(p, q, url);
      SumOrder(p, q, url);
    }
  }

  // Without overflow the modular arithmetic is invisible.

  ghost function PlainNodeSum(nodes: seq<Node>, times: int, url: string): int {
    if nodes == [] then 0
    else (if nodes[0].url == url then nodes[0].weight * times else 0) + PlainNodeSum(nodes[1..], times, url)
  }

  ghost function PlainSum(postings: seq<Posting>, url: string): int {
    if postings == [] then 0
    else PlainNodeSum(postings[0].nodes, postings[0].times, url) + PlainSum(postings[1..], url)
  }

  /** Every product of a weight and a count fits in 32 bits. */
  ghost predicate SharesFit(postings: seq<Posting>) {
    forall p, x :: p in postings && x in p.nodes ==> 0 <= x.weight * p.times < TWO_32
  }

  lemma {:induction false} PlainNodes(nodes: seq<Node>, times: int, url: string)
    requires forall x :: x in nodes ==> 0 <= x.weight * times < TWO_32
    ensures NodeSum(nodes, times, url) == PlainNodeSum(nodes, times, url)
  {
    if nodes != [] {
      PlainNodes(nodes[1..], times, url);
    }
  }

  lemma {:induction false} PlainPostings(postings: seq<Posting>, url: string)
    requires SharesFit(postings)
    ensures Sum(postings, url) == PlainSum(postings, url)
  {
    if postings != [] {
      PlainNodes(postings[0].nodes, postings[0].times, url);
      PlainPostings(postings[1..], url);
    }
  }

  /** When nothing overflows, a url's score is the sum over the query of times * weight. */
  lemma {:induction false} ScoreIsPlainSum(postings: seq<Posting>, url: string)
    requires SharesFit(postings) && url != "0" && Mentions(postings, url) && PlainSum(postings, url) < TWO_64
    ensures url in AddPostings(map[], postings)
    ensures AddPostings(map[], postings)[url] == PlainSum(postings, url)
  {
    ScoreIsSum(postings);
    PlainPostings(postings, url);
  }
}
