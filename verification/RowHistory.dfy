/**
 What updates mean for the list itself: the order it keeps, the weights it records, and
 when cutting it at every update agrees with cutting the complete list once at the end.
 */
module RowHistory {
  import opened PostingRow

  ghost predicate Sorted(nodes: seq<Node>) {
    forall i, j :: 0 <= i < j < |nodes| ==> nodes[i].weight >= nodes[j].weight
  }

  ghost function Urls(nodes: seq<Node>): set<string> {
    set x | x in nodes :: x.url
  }

  ghost predicate Distinct(nodes: seq<Node>) {
    forall i, j :: 0 <= i < j < |nodes| ==> nodes[i].url != nodes[j].url
  }

  /** The weight recorded for each url; the first node of a url decides. */
  ghost function WeightOf(nodes: seq<Node>): map<string, nat> {
    if nodes == [] then map[] else WeightOf(nodes[1..])[nodes[0].url := nodes[0].weight]
  }

  ghost function Top(nodes: seq<Node>, max: nat): seq<Node> {
    if |nodes| <= max then nodes else nodes[..max]
  }

  // One update.

  /** Removal, by membership: either nothing goes, or exactly the first node of the url. */
  lemma {:induction false} RemoveCases(nodes: seq<Node>, u: string) returns (k: nat)
    ensures k <= |nodes| && (k < |nodes| <==> u in Urls(nodes)) && (k < |nodes| ==> nodes[k].url == u)
    ensures RemoveUrl(nodes, u) == if k < |nodes| then nodes[..k] + nodes[k + 1..] else nodes
  {
    k := 0;
    while k < |nodes| && nodes[k].url != u
      invariant k <= |nodes| && forall i :: 0 <= i < k ==> nodes[i].url != u
    {
      k := k + 1;
    }
    if k < |nodes| {
      RemoveAt(nodes, u, k);
    } else {
      RemoveAbsent(nodes, u);
    }
  }

  /** Insertion, by position: behind everything heavier, in front of everything else. */
  lemma {:induction false} InsertCases(nodes: seq<Node>, x: Node) returns (k: nat)
    ensures k <= |nodes| && InsertByWeight(nodes, x) == nodes[..k] + [x] + nodes[k..]
    ensures forall i :: 0 <= i < k ==> nodes[i].weight > x.weight
    ensures k < |nodes| ==> nodes[k].weight <= x.weight
  {
    k := 0;
    while k < |nodes| && nodes[k].weight > x.weight
      invariant k <= |nodes| && forall i :: 0 <= i < k ==> nodes[i].weight > x.weight
    {
      k := k + 1;
    }
    InsertAt(nodes, x, k);
  }

  lemma UrlsCons(nodes: seq<Node>)
    requires nodes != []
    ensures Urls(nodes) == {nodes[0].url} + Urls(nodes[1..])
    ensures Distinct(nodes) ==> nodes[0].url !in Urls(nodes[1..]) && Distinct(nodes[1..])
  {
    assert nodes == [nodes[0]] + nodes[1..];
  }

  /** Removal takes out exactly one url. */
  lemma {:induction false} RemoveUrls(nodes: seq<Node>, u: string)
    requires Distinct(nodes)
    ensures Urls(RemoveUrl(nodes, u)) == Urls(nodes) - {u}
  {
    hide RemoveUrl, Urls;
    var k := RemoveCases(nodes, u);
    if k < |nodes| {
      UrlsSplit(nodes, k);
    } else {
      assert Urls(nodes) - {u} == Urls(nodes);
    }
  }

  lemma UrlsSplit(nodes: seq<Node>, k: nat)
    requires Distinct(nodes) && k < |nodes|
    ensures Urls(nodes[..k] + nodes[k + 1..]) == Urls(nodes) - {nodes[k].url}
  {
    assert nodes == nodes[..k] + ([nodes[k]] + nodes[k + 1..]);
  }

  lemma {:induction false} RemoveKeepsOrder(nodes: seq<Node>, u: string)
    ensures Sorted(nodes) ==> Sorted(RemoveUrl(nodes, u))
    ensures Distinct(nodes) ==> Distinct(RemoveUrl(nodes, u))
  {
    hide RemoveUrl;
    var k := RemoveCases(nodes, u);
    if k < |nodes| {
      UnspliceKeepsOrder(nodes, k, nodes[..k] + nodes[k + 1..]);
    }
  }

  lemma UnspliceKeepsOrder(nodes: seq<Node>, k: nat, r: seq<Node>)
    requires k < |nodes| && |r| == |nodes| - 1
    requires forall i :: 0 <= i < |r| ==> r[i] == nodes[if i < k then i else i + 1]
    ensures Sorted(nodes) ==> Sorted(r)
    ensures Distinct(nodes) ==> Distinct(r)
  {}

  lemma {:induction false} InsertKeepsOrder(nodes: seq<Node>, x: Node)
    requires Sorted(nodes) && Distinct(nodes) && x.url !in Urls(nodes)
    ensures Sorted(InsertByWeight(nodes, x)) && Distinct(InsertByWeight(nodes, x))
  {
    hide InsertByWeight;
    var k := InsertCases(nodes, x);
    assert forall i :: 0 <= i < |nodes| ==> nodes[i].url in Urls(nodes);
    SpliceKeepsOrder(nodes, x, k, nodes[..k] + [x] + nodes[k..]);
  }

  lemma SpliceKeepsOrder(nodes: seq<Node>, x: Node, k: nat, all: seq<Node>)
    requires Sorted(nodes) && Distinct(nodes) && k <= |nodes| && |all| == |nodes| + 1 && all[k] == x
    requires forall i :: 0 <= i < |nodes| ==> nodes[i].url != x.url
    requires forall i :: 0 <= i < |nodes| ==> if i < k then nodes[i].weight > x.weight else nodes[i].weight <= x.weight
    requires forall i :: 0 <= i < |all| && i != k ==> all[i] == nodes[if i < k then i else i - 1]
    ensures Sorted(all) && Distinct(all)
  {}

  /** An update keeps the heaviest first and every url once. */
  lemma UpdateKeepsOrder(nodes: seq<Node>, x: Node, maxUrls: int)
    requires Sorted(nodes) && Distinct(nodes)
    ensures Sorted(Reweighted(nodes, x)) && Distinct(Reweighted(nodes, x))
    ensures Sorted(Updated(nodes, x, maxUrls)) && Distinct(Updated(nodes, x, maxUrls))
  {
    RemoveKeepsOrder(nodes, x.url);
    RemoveUrls(nodes, x.url);
    InsertKeepsOrder(RemoveUrl(nodes, x.url), x);
  }

  /** Before the cut, an update records exactly the new weight. */
  lemma {:induction false} UpdateRecords(nodes: seq<Node>, x: Node)
    requires Distinct(nodes)
    ensures WeightOf(Reweighted(nodes, x)) == WeightOf(nodes)[x.url := x.weight]
  {
    RemoveRecords(nodes, x.url);
    RemoveUrls(nodes, x.url);
    InsertRecords(RemoveUrl(nodes, x.url), x);
  }

  lemma {:induction false} RemoveRecords(nodes: seq<Node>, u: string)
    requires Distinct(nodes)
    ensures WeightOf(RemoveUrl(nodes, u)) == WeightOf(nodes) - {u}
  {
    if nodes != [] {
      UrlsCons(nodes);
      WeightKeys(nodes[1..]);
      var first, rest := nodes[0], nodes[1..];
      ForgetUrl(WeightOf(rest), first.url, first.weight, u);
      if first.url != u {
        RemoveRecords(rest, u);
        WeightCons(first, RemoveUrl(rest, u));
      }
    }
  }

  lemma ForgetUrl(m: map<string, nat>, v: string, w: nat, u: string)
    ensures v == u && u !in m ==> m[v := w] - {u} == m
    ensures v != u ==> m[v := w] - {u} == (m - {u})[v := w]
  {}

  lemma {:induction false} WeightCons(x: Node, rest: seq<Node>)
    ensures WeightOf([x] + rest) == WeightOf(rest)[x.url := x.weight]
  {
    assert ([x] + rest)[1..] == rest;
  }

  lemma {:induction false} WeightKeys(nodes: seq<Node>)
    ensures WeightOf(nodes).Keys == Urls(nodes)
  {
    if nodes != [] {
      UrlsCons(nodes);
      WeightKeys(nodes[1..]);
    }
  }

  lemma {:induction false} InsertRecords(nodes: seq<Node>, x: Node)
    requires x.url !in Urls(nodes)
    ensures WeightOf(InsertByWeight(nodes, x)) == WeightOf(nodes)[x.url := x.weight]
  {
    if nodes != [] && nodes[0].weight > x.weight {
      UrlsCons(nodes);
      InsertRecords(nodes[1..], x);
    }
  }

  // The cut at the cap.

  /** For a row no longer than the cap, an update is: reweight, then keep the first maxUrls. */
  lemma CutIsTop(nodes: seq<Node>, x: Node, maxUrls: nat)
    requires 1 <= maxUrls && |nodes| <= maxUrls
    ensures Updated(nodes, x, maxUrls) == Top(Reweighted(nodes, x), maxUrls)
  {
    var k := RemoveCases(nodes, x.url);
  }

  /**
   The cap test is an equality, so a row that is too long is never cut back: an update
   ends within the cap if and only if the row without the url was within it.
   */
  lemma StaysWithinCap(nodes: seq<Node>, x: Node, maxUrls: nat)
    requires 1 <= maxUrls
    ensures |Updated(nodes, x, maxUrls)| <= maxUrls <==>
              |nodes| <= maxUrls || (|nodes| == maxUrls + 1 && x.url in Urls(nodes))
  {
    var k := RemoveCases(nodes, x.url);
  }

  // Cutting at every update against cutting the complete list.

  /** The update would let a node back in that an earlier cut has already dropped. */
  ghost predicate NeedsDropped(full: seq<Node>, x: Node, max: nat) {
    |full| > max && x.url in Urls(Top(full, max)) && x.weight < full[max].weight
  }

  lemma {:induction false} InsertIgnoresTail(a: seq<Node>, b: seq<Node>, x: Node)
    ensures InsertByWeight(a + b, x)[..|a|] == InsertByWeight(a, x)[..|a|]
  {
    if a == [] || a[0].weight <= x.weight {
      assert ([x] + (a + b))[..|a|] == ([x] + a)[..|a|];
    } else {
      InsertIgnoresTail(a[1..], b, x);
      assert (a + b)[1..] == a[1..] + b;
      var p, q := InsertByWeight(a[1..] + b, x), InsertByWeight(a[1..], x);
      assert ([a[0]] + p)[..|a|] == [a[0]] + p[..|a| - 1];
      assert ([a[0]] + q)[..|a|] == [a[0]] + q[..|a| - 1];
    }
  }

  lemma {:induction false} RemoveInFront(a: seq<Node>, b: seq<Node>, u: string)
    requires u in Urls(a)
    ensures RemoveUrl(a + b, u) == RemoveUrl(a, u) + b
  {
    var rest := a[1..];
    UrlsCons(a);
    assert (a + b)[1..] == rest + b;
    if a[0].url != u {
      RemoveInFront(rest, b, u);
      assert [a[0]] + (RemoveUrl(rest, u) + b) == ([a[0]] + RemoveUrl(rest, u)) + b;
    }
  }

  lemma {:induction false} RemoveBehind(a: seq<Node>, b: seq<Node>, u: string)
    requires u !in Urls(a)
    ensures RemoveUrl(a + b, u) == a + RemoveUrl(b, u)
  {
    if a == [] {
      assert a + b == b;
    } else {
      UrlsCons(a);
      assert (a + b)[1..] == a[1..] + b;
      RemoveBehind(a[1..], b, u);
    }
  }

  lemma {:induction false} InsertBefore(a: seq<Node>, b: seq<Node>, x: Node)
    requires b != [] && b[0].weight <= x.weight
    ensures InsertByWeight(a + b, x) == InsertByWeight(a, x) + b
  {
    if a == [] {
      assert a + b == b;
    } else if a[0].weight > x.weight {
      assert (a + b)[1..] == a[1..] + b;
      InsertBefore(a[1..], b, x);
    }
  }

  /**
   One update of the cut row agrees with one update of the complete list, if and only if
   it does not need a node the cut has dropped.
   */
  lemma CutStep(full: seq<Node>, x: Node, max: nat)
    requires Sorted(full) && Distinct(full) && 1 <= max
    ensures Updated(Top(full, max), x, max) == Top(Reweighted(full, x), max)
       <==> !NeedsDropped(full, x, max)
  {
    if |full| <= max {
      CutIsTop(full, x, max);
    } else {
      var kept, dropped := full[..max], full[max..];
      assert full == kept + dropped;
      if x.url !in Urls(kept) {
        RemoveBehind(kept, dropped, x.url);
        NewInCut(kept, RemoveUrl(dropped, x.url), x);
      } else {
        RemoveInFront(kept, dropped, x.url);
        OldInCut(kept, dropped, x);
      }
    }
  }

  lemma {:induction false} NewInCut(kept: seq<Node>, tail: seq<Node>, x: Node)
    requires x.url !in Urls(kept) && kept != []
    ensures Updated(kept, x, |kept|) == Top(InsertByWeight(kept + tail, x), |kept|)
  {
    RemoveAbsent(kept, x.url);
    InsertIgnoresTail(kept, tail, x);
  }

  lemma {:induction false} OldInCut(kept: seq<Node>, dropped: seq<Node>, x: Node)
    requires x.url in Urls(kept) && dropped != []
    requires forall i :: 0 <= i < |kept| ==> kept[i].weight >= dropped[0].weight
    ensures Updated(kept, x, |kept|) == Top(InsertByWeight(RemoveUrl(kept, x.url) + dropped, x), |kept|)
       <==> x.weight >= dropped[0].weight
  {
    var k := RemoveCases(kept, x.url);
    var rest := RemoveUrl(kept, x.url);
    if x.weight < dropped[0].weight {
      LighterThanDropped(rest, dropped, x);
    } else {
      InsertBefore(rest, dropped, x);
    }
  }

  /** The dropped node comes back: the complete list keeps it ahead of the new one. */
  lemma {:induction false} LighterThanDropped(rest: seq<Node>, dropped: seq<Node>, x: Node)
    requires dropped != [] && x.weight < dropped[0].weight
    requires forall i :: 0 <= i < |rest| ==> rest[i].weight >= dropped[0].weight
    ensures InsertByWeight(rest, x) != Top(InsertByWeight(rest + dropped, x), |rest| + 1)
  {
    var i := InsertCases(rest, x);
    assert InsertByWeight(rest, x)[|rest|] == x;
    var all := rest + dropped;
    var j := InsertCases(all, x);
    assert all[|rest|] == dropped[0];
    assert j > |rest|;
    assert InsertByWeight(all, x)[|rest|] == dropped[0];
  }

  // Whole histories: xs are the updates, oldest first.

  ghost function FullAfter(start: seq<Node>, xs: seq<Node>): seq<Node> {
    if xs == [] then start
    else Reweighted(FullAfter(start, xs[..|xs| - 1]), xs[|xs| - 1])
  }

  ghost function RowAfter(start: seq<Node>, xs: seq<Node>, max: int): seq<Node> {
    if xs == [] then start
    else Updated(RowAfter(start, xs[..|xs| - 1], max), xs[|xs| - 1], max)
  }

  lemma {:induction false} FullAfterKeepsOrder(start: seq<Node>, xs: seq<Node>)
    requires Sorted(start) && Distinct(start)
    ensures Sorted(FullAfter(start, xs)) && Distinct(FullAfter(start, xs))
  {
    if xs != [] {
      FullAfterKeepsOrder(start, xs[..|xs| - 1]);
      UpdateKeepsOrder(FullAfter(start, xs[..|xs| - 1]), xs[|xs| - 1], 0);
    }
  }

  /** No update of the history needs a node that an earlier cut has dropped. */
  ghost predicate NothingMissed(start: seq<Node>, xs: seq<Node>, max: nat) {
    xs == [] ||
    var init := xs[..|xs| - 1];
    NothingMissed(start, init, max) && !NeedsDropped(FullAfter(start, init), xs[|xs| - 1], max)
  }

  /** After every update of the history the row is the complete list, cut. */
  ghost predicate CutsAgree(start: seq<Node>, xs: seq<Node>, max: nat) {
    && (xs == [] || CutsAgree(start, xs[..|xs| - 1], max))
    && RowAfter(start, xs, max) == Top(FullAfter(start, xs), max)
  }

  /**
   Along a whole history, cutting at every update agrees with cutting the complete list,
   if and only if no update needs a node the cut has dropped.
   */
  lemma {:induction false} CutHistory(start: seq<Node>, xs: seq<Node>, max: nat)
    requires Sorted(start) && Distinct(start) && 1 <= max && |start| <= max
    ensures CutsAgree(start, xs, max) <==> NothingMissed(start, xs, max)
  {
    if xs != [] {
      hide Updated, Reweighted, Top, NeedsDropped;
      var init := xs[..|xs| - 1];
      CutHistory(start, init, max);
      FullAfterKeepsOrder(start, init);
      CutStep(FullAfter(start, init), xs[|xs| - 1], max);
    }
  }

  /** Every update brings a url that neither the starting row nor an earlier update has. */
  ghost predicate FreshUrls(start: seq<Node>, xs: seq<Node>) {
    Distinct(start + xs)
  }

  lemma FreshInit(start: seq<Node>, xs: seq<Node>)
    requires FreshUrls(start, xs)
    ensures Distinct(start)
    ensures xs != [] ==> FreshUrls(start, xs[..|xs| - 1]) && xs[|xs| - 1].url !in Urls(start + xs[..|xs| - 1])
  {
    var all := start + xs;
    assert start == all[..|start|];
    if xs != [] {
      assert start + xs[..|xs| - 1] == all[..|all| - 1];
      assert xs[|xs| - 1] == all[|all| - 1];
    }
  }

  lemma {:induction false} InsertAdds(nodes: seq<Node>, x: Node)
    ensures multiset(InsertByWeight(nodes, x)) == multiset(nodes) + multiset{x}
  {
    var k := InsertCases(nodes, x);
    assert nodes == nodes[..k] + nodes[k..];
  }

  lemma {:induction false} FreshHistory(start: seq<Node>, xs: seq<Node>)
    requires FreshUrls(start, xs)
    ensures multiset(FullAfter(start, xs)) == multiset(start + xs)
    ensures Urls(FullAfter(start, xs)) == Urls(start + xs)
  {
    if xs == [] {
      assert start + xs == start;
    } else {
      hide FreshUrls, InsertByWeight, Urls, FullAfter;
      var init, x := xs[..|xs| - 1], xs[|xs| - 1];
      FreshInit(start, xs);
      FreshHistory(start, init);
      JustInserts(start, xs);
      InsertAdds(FullAfter(start, init), x);
      OneMoreNode(start, xs);
      SameUrls(FullAfter(start, xs), start + xs);
    }
  }

  lemma OneMoreNode(start: seq<Node>, xs: seq<Node>)
    requires xs != []
    ensures multiset(start + xs) == multiset(start + xs[..|xs| - 1]) + multiset{xs[|xs| - 1]}
  {
    assert start + xs == (start + xs[..|xs| - 1]) + [xs[|xs| - 1]];
  }

  lemma {:induction false} JustInserts(start: seq<Node>, xs: seq<Node>)
    requires xs != [] && xs[|xs| - 1].url !in Urls(FullAfter(start, xs[..|xs| - 1]))
    ensures FullAfter(start, xs) == InsertByWeight(FullAfter(start, xs[..|xs| - 1]), xs[|xs| - 1])
  {
    var k := RemoveCases(FullAfter(start, xs[..|xs| - 1]), xs[|xs| - 1].url);
  }

  lemma SameUrls(a: seq<Node>, b: seq<Node>)
    requires multiset(a) == multiset(b)
    ensures Urls(a) == Urls(b)
  {
    assert forall x :: x in a <==> x in multiset(a);
    assert forall x :: x in b <==> x in multiset(b);
  }

  lemma {:induction false} FreshMissesNothing(start: seq<Node>, xs: seq<Node>, max: nat)
    requires FreshUrls(start, xs)
    ensures NothingMissed(start, xs, max)
  {
    if xs != [] {
      var init := xs[..|xs| - 1];
      FreshInit(start, xs);
      FreshMissesNothing(start, init, max);
      FreshHistory(start, init);
      assert Urls(Top(FullAfter(start, init), max)) <= Urls(FullAfter(start, init));
    }
  }

  /**
   With fresh urls throughout, the row ends as the max heaviest of everything that was
   ever in it: the sorted list of the starting nodes and all updates, cut once.
   */
  lemma {:induction false} RowHoldsHeaviest(start: seq<Node>, xs: seq<Node>, max: nat)
    requires Sorted(start) && 1 <= max && |start| <= max && FreshUrls(start, xs)
    ensures RowAfter(start, xs, max) == Top(FullAfter(start, xs), max)
    ensures Sorted(FullAfter(start, xs)) && multiset(FullAfter(start, xs)) == multiset(start + xs)
  {
    FreshInit(start, xs);
    FullAfterKeepsOrder(start, xs);
    FreshHistory(start, xs);
    FreshMissesNothing(start, xs, max);
    CutHistory(start, xs, max);
  }

  /** No update of the history gives a url that is then in the row a smaller weight than the row has for it. */
  ghost predicate NeverLowered(start: seq<Node>, xs: seq<Node>, max: nat) {
    xs == [] ||
    var init, x := xs[..|xs| - 1], xs[|xs| - 1];
    && NeverLowered(start, init, max)
    && forall k :: 0 <= k < |RowAfter(start, init, max)| && RowAfter(start, init, max)[k].url == x.url ==>
         RowAfter(start, init, max)[k].weight <= x.weight
  }

  lemma NothingNeeded(full: seq<Node>, x: Node, max: nat)
    requires Sorted(full)
    requires forall k :: 0 <= k < |Top(full, max)| && Top(full, max)[k].url == x.url ==> Top(full, max)[k].weight <= x.weight
    ensures !NeedsDropped(full, x, max)
  {
    if |full| > max {
      assert forall k :: 0 <= k < max ==> full[k].weight >= full[max].weight;
    }
  }

  /** A condition on the row alone: as long as no weight in it is lowered, the row is the complete list, cut. */
  lemma {:induction false} UnloweredAgrees(start: seq<Node>, xs: seq<Node>, max: nat)
    requires Sorted(start) && Distinct(start) && 1 <= max && |start| <= max && NeverLowered(start, xs, max)
    ensures CutsAgree(start, xs, max)
  {
    if xs != [] {
      hide Updated, Reweighted;
      var init, x := xs[..|xs| - 1], xs[|xs| - 1];
      UnloweredAgrees(start, init, max);
      CutHistory(start, init, max);
      var full := FullAfter(start, init);
      FullAfterKeepsOrder(start, init);
      NothingNeeded(full, x, max);
      CutHistory(start, xs, max);
    }
  }

  ghost predicate Before(nodes: seq<Node>, a: Node, b: Node) {
    exists i, j :: 0 <= i < j < |nodes| && nodes[i] == a && nodes[j] == b
  }

  lemma {:induction false} InsertKeepsBefore(nodes: seq<Node>, x: Node, a: Node, b: Node)
    requires Before(nodes, a, b)
    ensures Before(InsertByWeight(nodes, x), a, b)
  {
    var k := InsertCases(nodes, x);
    var i, j :| 0 <= i < j < |nodes| && nodes[i] == a && nodes[j] == b;
    var i', j' := if i < k then i else i + 1, if j < k then j else j + 1;
    var all := nodes[..k] + [x] + nodes[k..];
    assert all[i'] == a && all[j'] == b;
  }

  lemma {:induction false} InsertGoesBefore(nodes: seq<Node>, x: Node, b: Node)
    requires b in nodes && b.weight <= x.weight
    ensures Before(InsertByWeight(nodes, x), x, b)
  {
    var k := InsertCases(nodes, x);
    var j :| 0 <= j < |nodes| && nodes[j] == b;
    var all := nodes[..k] + [x] + nodes[k..];
    assert all[k] == x && all[j + 1] == b;
  }

  /** Among fresh urls, of two of the same weight the newer one stands first. */
  lemma {:induction false} NewestFirst(start: seq<Node>, xs: seq<Node>, p: nat, q: nat)
    requires FreshUrls(start, xs) && p < q < |xs| && xs[p].weight <= xs[q].weight
    ensures Before(FullAfter(start, xs), xs[q], xs[p])
  {
    hide Before;
    var n := |xs| - 1;
    var init, x := xs[..n], xs[n];
    FreshInit(start, xs);
    FreshHistory(start, init);
    var f := FullAfter(start, init);
    var r := RemoveCases(f, x.url);
    if q < n {
      NewestFirst(start, init, p, q);
      InsertKeepsBefore(f, x, xs[q], xs[p]);
    } else {
      assert (start + init)[|start| + p] == xs[p];
      assert xs[p] in multiset(f);
      InsertGoesBefore(f, x, xs[p]);
    }
  }

  lemma {:induction false} TwoUpdates(start: seq<Node>, a: Node, b: Node, max: int)
    ensures FullAfter(start, [a, b]) == Reweighted(Reweighted(start, a), b)
    ensures RowAfter(start, [a, b], max) == Updated(Updated(start, a, max), b, max)
  {
    hide Reweighted, Updated;
    assert [a, b][..1] == [a] && [a][..0] == [];
    assert FullAfter(start, [a]) == Reweighted(start, a);
    assert RowAfter(start, [a], max) == Updated(start, a, max);
  }

  /**
   Fresh urls are needed: reweighting a url of the starting row downwards keeps it in a
   row that should have taken back the node dropped before.
   */
  lemma ReweightingCanMiss()
    ensures var start := [Node(5, "1"), Node(4, "2")];
      var xs := [Node(6, "3"), Node(1, "1")];
      && Sorted(start) && Distinct(start) && Distinct(xs)
      && RowAfter(start, xs, 2) == [Node(6, "3"), Node(1, "1")]
      && Top(FullAfter(start, xs), 2) == [Node(6, "3"), Node(4, "2")]
  {
    hide RemoveUrl, InsertByWeight, FullAfter, RowAfter;
    var p, q, a, b := Node(5, "1"), Node(4, "2"), Node(6, "3"), Node(1, "1");
    FirstOfTwo(p, q, a);
    SecondOfTwo(p, q, a, b);
    hide Reweighted, Updated;
    TwoUpdates([p, q], a, b, 2);
  }

  lemma FirstOfTwo(p: Node, q: Node, a: Node)
    requires p.url != a.url && q.url != a.url && p.weight <= a.weight
    ensures Reweighted([p, q], a) == [a, p, q] && Updated([p, q], a, 2) == [a, p]
  {
    RemoveAbsent([p, q], a.url);
    InsertAt([p, q], a, 0);
    assert [p, q][..0] + [a] + [p, q] == [a, p, q];
    assert [a, p, q][..2] == [a, p];
  }

  lemma SecondOfTwo(p: Node, q: Node, a: Node, b: Node)
    requires a.url != p.url == b.url && a.weight > b.weight && q.weight > b.weight
    ensures Reweighted([a, p, q], b) == [a, q, b] && Updated([a, p], b, 2) == [a, b]
  {
    hide RemoveUrl, InsertByWeight;
    BackToTheEnd(a, p, [q], b);
    assert [a, p] + [q] == [a, p, q] && [a] + [q] + [b] == [a, q, b];
    BackToTheEnd(a, p, [], b);
    assert [a, p] + [] == [a, p] && [a] + [] + [b] == [a, b];
  }

  /** The second node's url is given a weight below everything. */
  lemma {:induction false} BackToTheEnd(a: Node, p: Node, tail: seq<Node>, b: Node)
    requires a.url != p.url == b.url && |tail| <= 1
    requires forall x :: x in [a] + tail ==> x.weight > b.weight
    ensures RemoveUrl([a, p] + tail, b.url) == [a] + tail
    ensures InsertByWeight([a] + tail, b) == [a] + tail + [b]
  {
    var nodes := [a, p] + tail;
    RemoveAt(nodes, b.url, 1);
    assert nodes[..1] + nodes[2..] == [a] + tail;
    InsertAt([a] + tail, b, |[a] + tail|);
  }
}
