/**
 Result pages: which slice of the ranking a request gets, and when it gets none.
 */
module ResultPages {
  import opened Lookup
  import opened Permutations
  import opened IndexArithmetic
  import opened Ranking
  import opened Widths

  const MAX_RESULTS_PER_PAGE: int := 50
  const DEFAULT_RESULTS_PER_PAGE: int := 10

  function StartPage(startPage: int): (p: int)
    ensures p >= 1
  {
    if startPage < 1 then 1 else startPage
  }

  function PerPage(perPage: int): (n: int)
    ensures 1 <= n <= MAX_RESULTS_PER_PAGE
  {
    if perPage < 1 || perPage > MAX_RESULTS_PER_PAGE then DEFAULT_RESULTS_PER_PAGE else perPage
  }

  function TotalPages(n: nat, perPage: int): nat
    requires perPage >= 1
  {
    n / perPage + (if n % perPage != 0 then 1 else 0)
  }

  ghost function Reversed(s: seq<string>): (r: seq<string>)
    ensures |r| == |s| && forall i :: 0 <= i < |s| ==> r[i] == s[|s| - 1 - i]
  {
    if s == [] then [] else Reversed(s[1..]) + [s[0]]
  }

  /** All urls, heaviest first, as the heap leaves them for this array order. */
  ghost function Ordered(order: seq<string>, w: map<string, nat>): seq<string> {
    Reversed(SortDown(CreateHeap(order, w), w, 0))
  }

  /** Page p, counted from 1, of a list of n entries cut every perPage. */
  ghost function Page(all: seq<string>, p: nat, perPage: nat): seq<string>
    requires p >= 1 && perPage >= 1
  {
    var start, end := (p - 1) * perPage, p * perPage;
    if start >= |all| then [] else all[start..if end < |all| then end else |all|]
  }

  /** The ranks a page shows; none when the page does not exist. */
  method PageBounds(n: nat, startPage: int, perPage: int) returns (startSub: int, endSub: int)
    requires n > 0 && startPage >= 1 && perPage >= 1
    ensures startSub > endSub <==> startPage > TotalPages(n, perPage)
    ensures startSub == (startPage - 1) * perPage >= 0
    ensures endSub == if startSub + perPage - 1 < n - 1 then startSub + perPage - 1 else n - 1
  {
    LastPage(n, startPage, perPage);
    var end := n - 1;
    startSub := (startPage - 1) * perPage;
    endSub := startSub + perPage - 1;
    if endSub > end {
      endSub := end;
    }
  }

  /**
   Answers a request. order is the order in which the table of urls is copied to the array.
   A page below 1 is the first, and a page size that is not between 1 and 50 is 10. A page
   whose first place is in the ranking comes as those places, with the page count in a
   short; for any other both page numbers come back as -1.
   */
  method RankedPage(order: seq<string>, w: map<string, nat>, startPage0: Short, perPage0: Short)
      returns (urls: seq<string>, startPage: int, totalPages: int)
    requires |order| <= MAX_INT32
    ensures var p, per := if startPage0 < 1 then 1 else startPage0, if 1 <= perPage0 <= 50 then perPage0 else 10;
      var from, n := (p - 1) * per, |order|;
      if 0 <= from < n then
        && startPage == p && totalPages == ToShort(TotalPages(n, per))
        && |Ordered(order, w)| == n && |urls| == (if from + per < n then per else n - from)
        && (forall k :: 0 <= k < |urls| ==> urls[k] == Ordered(order, w)[from + k])
        && urls == Page(Ordered(order, w), p, per)
      else
        startPage == -1 && totalPages == -1 && urls == []
  {
    hide CreateHeap, SortDown, Ordered, TotalPages, ToShort, Page;
    startPage := StartPage(startPage0);
    var perPage := PerPage(perPage0);
    urls := [];
    LastPage(|order|, startPage, perPage);
    if order == [] {
      startPage, totalPages := -1, -1;
      return;
    }
    var startSub, endSub := PageBounds(|order|, startPage, perPage);
    if startSub > endSub {
      startPage, totalPages := -1, -1;
      return;
    }
    totalPages := ToShort(TotalPages(|order|, perPage));
    urls := RankSlice(order, w, startSub, endSub);
    SliceIsPage(Ordered(order, w), startPage, perPage, startSub, endSub);
  }

  lemma SliceIsPage(all: seq<string>, p: nat, perPage: nat, startSub: nat, endSub: nat)
    requires p >= 1 && perPage >= 1 && startSub == (p - 1) * perPage && startSub <= endSub < |all|
    requires endSub == if startSub + perPage - 1 < |all| - 1 then startSub + perPage - 1 else |all| - 1
    ensures Page(all, p, perPage) == all[startSub..endSub + 1]
  {
    LastPage(|all|, p, perPage);
  }

  /** Ranks startSub to endSub, by building the heap and sorting only as far as needed. */
  method RankSlice(order: seq<string>, w: map<string, nat>, startSub: nat, endSub: nat) returns (urls: seq<string>)
    requires startSub <= endSub < |order|
    ensures |Ordered(order, w)| == |order| && urls == Ordered(order, w)[startSub..endSub + 1]
  {
    hide CreateHeap, SortDown, Ordered;
    var a := new string[|order|](i requires 0 <= i < |order| => order[i]);
    assert a[..] == order;
    RankPrefix(a, w, endSub);
    OrderedPrefix(order, w, endSub, a[..]);
    urls := EmitPage(a, startSub, endSub);
  }

  /** Copies ranks startSub to endSub; rank j stands at the place end - j. */
  method EmitPage(a: array<string>, startSub: nat, endSub: nat) returns (urls: seq<string>)
    requires startSub <= endSub < a.Length
    ensures |urls| == endSub - startSub + 1
    ensures forall j :: 0 <= j < |urls| ==> urls[j] == a[a.Length - 1 - (startSub + j)]
  {
    urls := [];
    var i, j := a.Length - 1 - startSub, startSub;
    while j <= endSub
      invariant startSub <= j <= endSub + 1 && i == a.Length - 1 - j && |urls| == j - startSub
      invariant forall m :: 0 <= m < |urls| ==> urls[m] == a[a.Length - 1 - (startSub + m)]
    {
      urls := urls + [a[i]];
      i, j := i - 1, j + 1;
    }
  }

  /** Page p exists if and only if its first entry does. */
  lemma LastPage(n: nat, p: int, perPage: int)
    requires p >= 1 && perPage >= 1
    ensures p <= TotalPages(n, perPage) <==> (p - 1) * perPage < n
    ensures p * perPage == (p - 1) * perPage + perPage
  {
    CountPages(n, p, perPage, n / perPage, n % perPage);
  }

  /** The page count is the least number of pages that holds everything. */
  lemma PageCountIs(n: nat, perPage: int)
    requires perPage >= 1
    ensures var t := TotalPages(n, perPage); (t - 1) * perPage < n <= t * perPage
  {
    LastPage(n, TotalPages(n, perPage) + 1, perPage);
    if n > 0 {
      assert TotalPages(n, perPage) >= 1 by {
        LastPage(n, 1, perPage);
      }
      LastPage(n, TotalPages(n, perPage), perPage);
    }
  }

  lemma CountPages(n: nat, p: int, perPage: int, q: int, r: int)
    requires p >= 1 && perPage >= 1 && n == q * perPage + r && 0 <= r < perPage
    ensures p <= q + (if r != 0 then 1 else 0) <==> (p - 1) * perPage < n
    ensures p * perPage == (p - 1) * perPage + perPage
  {
    MulStep(p - 1, perPage);
    MulStep(q, perPage);
    MulStep(q - 1, perPage);
    if p - 1 < q {
      MulMonotone(p - 1, q - 1, perPage);
    } else if p - 1 > q {
      MulMonotone(q + 1, p - 1, perPage);
    }
  }

  /** A page needs only the heap sort steps down to its last entry. */
  lemma OrderedPrefix(order: seq<string>, w: map<string, nat>, endSub: nat, a: seq<string>)
    requires endSub < |order| && a == SortDown(CreateHeap(order, w), w, |order| - 1 - endSub)
    ensures |Ordered(order, w)| == |order|
    ensures forall j :: 0 <= j <= endSub ==> Ordered(order, w)[j] == a[|order| - 1 - j]
  {
    CreateHeapIsHeap(order, w);
    SortDownStable(CreateHeap(order, w), w, 0, |order| - 1 - endSub);
  }

  // What the ranking is.

  ghost predicate HeaviestFirst(s: seq<string>, w: map<string, nat>) {
    forall i, j :: 0 <= i < j < |s| ==> Get(w, s[i]) >= Get(w, s[j])
  }

  lemma {:induction false} ReversedPermutes(s: seq<string>)
    ensures multiset(Reversed(s)) == multiset(s)
  {
    if s != [] {
      ReversedPermutes(s[1..]);
      assert s == [s[0]] + s[1..];
    }
  }

  /** The ranking holds every url as often as the array does, heaviest first. */
  lemma OrderedIsRanking(order: seq<string>, w: map<string, nat>)
    ensures multiset(Ordered(order, w)) == multiset(order)
    ensures HeaviestFirst(Ordered(order, w), w)
  {
    var heap := CreateHeap(order, w);
    CreateHeapIsHeap(order, w);
    SortDownRanks(heap, w, 0);
    var s := SortDown(heap, w, 0);
    ReversedPermutes(s);
    forall i, j | 0 <= i < j < |s|
      ensures Get(w, Reversed(s)[i]) >= Get(w, Reversed(s)[j])
    {
      assert Get(w, s[|s| - 1 - j]) <= Get(w, s[|s| - 1 - i]);
    }
  }

  ghost function Weights(s: seq<string>, w: map<string, nat>): (r: seq<nat>)
    ensures |r| == |s| && forall i :: 0 <= i < |s| ==> r[i] == Get(w, s[i])
  {
    if s == [] then [] else [Get(w, s[0])] + Weights(s[1..], w)
  }

  ghost predicate Descending(x: seq<nat>) {
    forall i, j :: 0 <= i < j < |x| ==> x[i] >= x[j]
  }

  lemma {:induction false} DescendingUnique(x: seq<nat>, y: seq<nat>)
    requires multiset(x) == multiset(y) && Descending(x) && Descending(y)
    ensures x == y
  {
    SameLength(x, y);
    if x != [] {
      assert x[0] in y && y[0] in x;
      assert x[0] == y[0];
      TailsMatch(x, y);
      DescendingUnique(x[1..], y[1..]);
      assert x == [x[0]] + x[1..] && y == [y[0]] + y[1..];
    }
  }

  lemma {:induction false} WeightsSplit(t: seq<string>, k: nat, w: map<string, nat>)
    requires k < |t|
    ensures multiset(Weights(t, w)) == multiset{Get(w, t[k])} + multiset(Weights(t[..k] + t[k + 1..], w))
  {
    hide Weights;
    var x, y := Weights(t, w), Weights(t[..k] + t[k + 1..], w);
    SameWithout(x, y, k, x[..k] + x[k + 1..]);
    WithoutAt(x, k);
    assert x[k] in multiset(x);
    assert multiset(x) == multiset{x[k]} + (multiset(x) - multiset{x[k]});
  }

  lemma SameWithout(x: seq<nat>, y: seq<nat>, k: nat, z: seq<nat>)
    requires k < |x| == |y| + 1 == |z| + 1 && z == x[..k] + x[k + 1..]
    requires forall i :: 0 <= i < k ==> y[i] == x[i]
    requires forall i :: k <= i < |y| ==> y[i] == x[i + 1]
    ensures y == z
  {}

  lemma {:induction false} WeightsPermute(s: seq<string>, t: seq<string>, w: map<string, nat>)
    requires multiset(s) == multiset(t)
    ensures multiset(Weights(s, w)) == multiset(Weights(t, w))
  {
    SameLength(s, t);
    if s != [] {
      var k := TakeOut(s, t);
      WeightsPermute(s[1..], t[..k] + t[k + 1..], w);
      WeightsSplit(t, k, w);
      WeightsSplit(s, 0, w);
      assert s[..0] + s[1..] == s[1..];
    }
  }

  /** Any two orders that are heaviest first have the same weight at every rank. */
  lemma {:induction false} RankWeightsUnique(s: seq<string>, t: seq<string>, w: map<string, nat>)
    requires multiset(s) == multiset(t) && HeaviestFirst(s, w) && HeaviestFirst(t, w)
    ensures Weights(s, w) == Weights(t, w)
  {
    WeightsPermute(s, t, w);
    DescendingUnique(Weights(s, w), Weights(t, w));
  }

  /** Whatever the array order, rank i of the ranking weighs what rank i of any sorted list does. */
  lemma {:induction false} RankOfRanking(order: seq<string>, w: map<string, nat>, sorted: seq<string>)
    requires multiset(sorted) == multiset(order) && HeaviestFirst(sorted, w)
    ensures Weights(Ordered(order, w), w) == Weights(sorted, w)
  {
    OrderedIsRanking(order, w);
    RankWeightsUnique(Ordered(order, w), sorted, w);
  }

  // All pages together.

  ghost function Pages(all: seq<string>, p: nat, perPage: nat): seq<string>
    requires perPage >= 1
  {
    if p == 0 then [] else Pages(all, p - 1, perPage) + Page(all, p, perPage)
  }

  lemma {:induction false} PagesArePrefix(all: seq<string>, p: nat, perPage: nat)
    requires perPage >= 1
    ensures Pages(all, p, perPage) == Front(all, p * perPage)
  {
    hide Front, Page;
    if p > 0 {
      PagesArePrefix(all, p - 1, perPage);
      LastPage(|all|, p, perPage);
      PageFrom(all, p, perPage, (p - 1) * perPage);
    } else {
      NothingInFront(all);
    }
  }

  ghost function Front(all: seq<string>, n: nat): seq<string> {
    all[..if n < |all| then n else |all|]
  }

  lemma NothingInFront(all: seq<string>)
    ensures Front(all, 0) == []
  {}

  lemma PageFrom(all: seq<string>, p: nat, perPage: nat, a: nat)
    requires p >= 1 && perPage >= 1 && a == (p - 1) * perPage
    ensures Front(all, a) + Page(all, p, perPage) == Front(all, a + perPage)
  {
    LastPage(|all|, p, perPage);
  }

  /** Pages 1 to the last, one after the other, are the whole ranking: every url exactly once. */
  lemma {:induction false} PagesCoverRanking(order: seq<string>, w: map<string, nat>, perPage: nat)
    requires perPage >= 1
    ensures Pages(Ordered(order, w), TotalPages(|order|, perPage), perPage) == Ordered(order, w)
    ensures multiset(Pages(Ordered(order, w), TotalPages(|order|, perPage), perPage)) == multiset(order)
  {
    OrderedIsRanking(order, w);
    SameLength(Ordered(order, w), order);
    var total := TotalPages(|order|, perPage);
    PagesArePrefix(Ordered(order, w), total, perPage);
    LastPage(|order|, total + 1, perPage);
  }

  /** The page count survives its short if and only if it is below 2^15. */
  lemma PageCountFits(n: nat, perPage: int)
    requires 1 <= perPage <= MAX_RESULTS_PER_PAGE && n <= MAX_INT32
    ensures ToShort(TotalPages(n, perPage)) == TotalPages(n, perPage) <==> n <= (TWO_15 - 1) * perPage
  {
    LastPage(n, TWO_15, perPage);
  }
}
