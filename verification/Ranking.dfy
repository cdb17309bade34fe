/**
 The order of the search results: a heap over the url numbers, heaviest on top, and as
 many steps of heap sort as the requested page needs.
 */
module Ranking {
  import opened Lookup
  import opened Permutations

  function Swap(s: seq<string>, i: nat, j: nat): (r: seq<string>)
    requires i < |s| && j < |s|
    ensures |r| == |s|
  {
    s[i := s[j]][j := s[i]]
  }

  /** The heaviest of node q and its two children below n; the first of them on ties. */
  function Heaviest(s: seq<string>, w: map<string, nat>, q: nat, n: nat): (r: nat)
    requires q < n <= |s|
    ensures q <= r < n
    ensures r != q ==> r == 2 * q + 1 || r == 2 * q + 2
    ensures forall c :: (c == q || c == 2 * q + 1 || c == 2 * q + 2) && c < n ==>
      Get(w, s[c]) <= Get(w, s[r]) && (c < r ==> Get(w, s[c]) < Get(w, s[r]))
  {
    var left, right := 2 * q + 1, 2 * q + 2;
    var next := if left < n && Get(w, s[left]) > Get(w, s[q]) then left else q;
    if right < n && Get(w, s[right]) > Get(w, s[next]) then right else next
  }

  /** Node q sinks until none of its children below n is heavier. */
  function Sift(s: seq<string>, w: map<string, nat>, q: nat, n: nat): (r: seq<string>)
    requires n <= |s|
    ensures |r| == |s|
    decreases n - q
  {
    if q >= n then s
    else
      var next := Heaviest(s, w, q, n);
      if next == q then s else Sift(Swap(s, q, next), w, next, n)
  }

  function Heapify(s: seq<string>, w: map<string, nat>, p: int): (r: seq<string>)
    ensures |r| == |s|
    decreases p + 1
  {
    if p < 0 then s else Heapify(Sift(s, w, p, |s|), w, p - 1)
  }

  function CreateHeap(s: seq<string>, w: map<string, nat>): (r: seq<string>)
    ensures |r| == |s|
  {
    if s == [] then s else Heapify(s, w, (|s| - 1) / 2)
  }

  function SortStep(s: seq<string>, w: map<string, nat>, tail: nat): (r: seq<string>)
    requires tail < |s|
    ensures |r| == |s|
  {
    if tail == 0 then s else Sift(Swap(s, 0, tail), w, 0, tail)
  }

  /** Heap sort until the n lightest urls are left in the heap. */
  function SortDown(s: seq<string>, w: map<string, nat>, n: nat): (r: seq<string>)
    requires n <= |s|
    ensures |r| == |s|
    decreases |s| - n
  {
    if n == |s| then s else SortStep(SortDown(s, w, n + 1), w, n)
  }

  // The array code.

  method SiftDown(a: array<string>, w: map<string, nat>, q0: nat, n: nat)
    requires n <= a.Length
    modifies a
    ensures a[..] == Sift(old(a[..]), w, q0, n)
  {
    var q := q0;
    while q < n
      invariant Sift(a[..], w, q, n) == Sift(old(a[..]), w, q0, n)
      decreases n - q
    {
      var next, left, right := q, 2 * q + 1, 2 * q + 2;
      if left < n && Get(w, a[left]) > Get(w, a[next]) {
        next := left;
      }
      if right < n && Get(w, a[right]) > Get(w, a[next]) {
        next := right;
      }
      assert next == Heaviest(a[..], w, q, n);
      if q == next {
        return;
      }
      ghost var before := a[..];
      var tmp := a[q];
      a[q] := a[next];
      a[next] := tmp;
      assert a[..] == Swap(before, q, next);
      q := next;
    }
  }

  method BuildHeap(a: array<string>, w: map<string, nat>)
    requires a.Length > 0
    modifies a
    ensures a[..] == CreateHeap(old(a[..]), w)
  {
    var p := (a.Length - 1) / 2;
    while p >= 0
      invariant -1 <= p < a.Length
      invariant Heapify(a[..], w, p) == CreateHeap(old(a[..]), w)
    {
      SiftDown(a, w, p, a.Length);
      p := p - 1;
    }
  }

  method HeapSort1(a: array<string>, w: map<string, nat>, tail: nat)
    requires tail < a.Length
    modifies a
    ensures a[..] == SortStep(old(a[..]), w, tail)
  {
    if tail == 0 {
      return;
    }
    ghost var before := a[..];
    var tmp := a[tail];
    a[tail] := a[0];
    a[0] := tmp;
    assert a[..] == Swap(before, 0, tail);
    SiftDown(a, w, 0, tail);
  }

  /** Builds the heap and takes the endSub + 1 heaviest urls off it. */
  method RankPrefix(a: array<string>, w: map<string, nat>, endSub: nat)
    requires endSub < a.Length
    modifies a
    ensures a[..] == SortDown(CreateHeap(old(a[..]), w), w, a.Length - 1 - endSub)
  {
    BuildHeap(a, w);
    ghost var heap := a[..];
    for i := 0 to endSub + 1
      invariant a[..] == SortDown(heap, w, a.Length - i)
    {
      HeapSort1(a, w, a.Length - 1 - i);
    }
  }

  // What the heap code keeps.

  function Parent(c: nat): nat
    requires c > 0
  {
    (c - 1) / 2
  }

  /** Below n, every node from lo on is at least as heavy as its children. */
  ghost predicate HeapFrom(s: seq<string>, w: map<string, nat>, lo: nat, n: nat)
    requires n <= |s|
  {
    forall c :: 0 < c < n && Parent(c) >= lo ==> Get(w, s[Parent(c)]) >= Get(w, s[c])
  }

  /** The same but for node q, whose children are no heavier than its parent. */
  ghost predicate HeapBut(s: seq<string>, w: map<string, nat>, lo: nat, q: nat, n: nat)
    requires n <= |s|
  {
    && (forall c :: 0 < c < n && Parent(c) >= lo && Parent(c) != q ==> Get(w, s[Parent(c)]) >= Get(w, s[c]))
    && (forall c :: 0 < c < n && Parent(c) == q && 0 < q && Parent(q) >= lo ==> Get(w, s[Parent(q)]) >= Get(w, s[c]))
  }

  /** Sinking rearranges only the nodes from q on and below n, and restores the heap. */
  lemma {:induction false} SiftHeap(s: seq<string>, w: map<string, nat>, lo: nat, q: nat, n: nat)
    requires n <= |s| && lo <= q && HeapBut(s, w, lo, q, n)
    ensures HeapFrom(Sift(s, w, q, n), w, lo, n)
    decreases n - q
  {
    if q < n {
      var next := Heaviest(s, w, q, n);
      if next != q {
        SwapMovesHole(s, w, lo, q, n);
        hide HeapBut, HeapFrom;
        SiftHeap(Swap(s, q, next), w, lo, next, n);
      }
    }
  }

  /** Swapped with its heavier child, the node that may be too light has moved down. */
  lemma SwapMovesHole(s: seq<string>, w: map<string, nat>, lo: nat, q: nat, n: nat)
    requires q < n <= |s| && lo <= q && HeapBut(s, w, lo, q, n) && Heaviest(s, w, q, n) != q
    ensures HeapBut(Swap(s, q, Heaviest(s, w, q, n)), w, lo, Heaviest(s, w, q, n), n)
  {
    assert Parent(Heaviest(s, w, q, n)) == q;
  }

  ghost predicate SameFrom(a: seq<string>, b: seq<string>, lo: nat) {
    |a| == |b| && forall i :: lo <= i < |a| ==> a[i] == b[i]
  }

  lemma SameFromTransitive(a: seq<string>, b: seq<string>, c: seq<string>, lo: nat, lo': nat)
    requires SameFrom(a, b, lo) && SameFrom(b, c, lo') && lo <= lo'
    ensures SameFrom(a, c, lo')
  {}

  lemma SwapPermutes(s: seq<string>, i: nat, j: nat, n: nat)
    requires i < n && j < n && n <= |s|
    ensures multiset(Swap(s, i, j)[..n]) == multiset(s[..n])
    ensures SameFrom(Swap(s, i, j), s, n)
  {
    assert Swap(s, i, j)[..n] == Swap(s[..n], i, j);
  }

  lemma {:induction false} SiftPermutes(s: seq<string>, w: map<string, nat>, q: nat, n: nat)
    requires n <= |s|
    ensures multiset(Sift(s, w, q, n)[..n]) == multiset(s[..n])
    ensures SameFrom(Sift(s, w, q, n), s, n)
    decreases n - q
  {
    if q < n {
      var next := Heaviest(s, w, q, n);
      if next != q {
        SwapPermutes(s, q, next, n);
        SiftPermutes(Swap(s, q, next), w, next, n);
      }
    }
  }

  lemma {:induction false} HeapifyIsHeap(s: seq<string>, w: map<string, nat>, p: int)
    requires -1 <= p < |s| && HeapFrom(s, w, p + 1, |s|)
    ensures HeapFrom(Heapify(s, w, p), w, 0, |s|) && multiset(Heapify(s, w, p)) == multiset(s)
    decreases p + 1
  {
    hide Sift;
    if p >= 0 {
      SiftHeap(s, w, p, p, |s|);
      SiftPermutes(s, w, p, |s|);
      var t := Sift(s, w, p, |s|);
      assert t[..|s|] == t && s[..|s|] == s;
      HeapifyIsHeap(t, w, p - 1);
    }
  }

  /** Building the heap makes one, of the same urls. */
  lemma CreateHeapIsHeap(s: seq<string>, w: map<string, nat>)
    ensures HeapFrom(CreateHeap(s, w), w, 0, |s|) && multiset(CreateHeap(s, w)) == multiset(s)
  {
    if s != [] {
      HeapifyIsHeap(s, w, (|s| - 1) / 2);
    }
  }

  lemma {:induction false} RootIsHeaviest(s: seq<string>, w: map<string, nat>, n: nat, i: nat)
    requires i < n <= |s| && HeapFrom(s, w, 0, n)
    ensures Get(w, s[0]) >= Get(w, s[i])
  {
    if i > 0 {
      RootIsHeaviest(s, w, n, Parent(i));
    }
  }

  /** From lo on, every place holds a url at least as heavy as everything in front of it. */
  ghost predicate Ranked(s: seq<string>, w: map<string, nat>, lo: nat) {
    forall i, j :: lo <= i < |s| && 0 <= j < i ==> Get(w, s[j]) <= Get(w, s[i])
  }

  /** Heap sort has left n of the urls of s0 in the heap. */
  ghost predicate Sorting(s0: seq<string>, s: seq<string>, w: map<string, nat>, n: nat) {
    n <= |s| && multiset(s) == multiset(s0) && HeapFrom(s, w, 0, n) && Ranked(s, w, n)
  }

  lemma SortStepKeeps(s0: seq<string>, s: seq<string>, w: map<string, nat>, tail: nat)
    requires tail < |s| && Sorting(s0, s, w, tail + 1)
    ensures Sorting(s0, SortStep(s, w, tail), w, tail)
    ensures SameFrom(SortStep(s, w, tail), s, tail + 1)
  {
    hide Sift, HeapFrom, HeapBut, Ranked, SameFrom, Get, Swap;
    var t, r := Swap(s, 0, tail), SortStep(s, w, tail);
    forall j | 0 <= j <= tail
      ensures Get(w, s[0]) >= Get(w, s[j])
    {
      RootIsHeaviest(s, w, tail + 1, j);
    }
    SwapPermutes(s, 0, tail, tail + 1);
    PrefixPermutes(t, s, tail + 1);
    AfterSwap(s, w, tail);
    SiftPermutes(t, w, 0, tail);
    SiftHeap(t, w, 0, 0, tail);
    assert r == Sift(t, w, 0, tail) by {
      SinkNothing(t, w, s, tail);
    }
    PrefixPermutes(r, t, tail);
    RankOneMore(s, t, r, w, tail);
    SameFromTransitive(r, t, s, tail, tail + 1);
  }

  lemma {:induction false} SinkNothing(t: seq<string>, w: map<string, nat>, s: seq<string>, tail: nat)
    requires tail < |s| && t == Swap(s, 0, tail)
    ensures tail == 0 ==> t == s && Sift(t, w, 0, 0) == t
  {}

  /** Taking the root to the tail leaves a heap in front of it but for the new root. */
  lemma AfterSwap(s: seq<string>, w: map<string, nat>, tail: nat)
    requires tail < |s| && HeapFrom(s, w, 0, tail + 1)
    ensures HeapBut(Swap(s, 0, tail), w, 0, 0, tail)
  {}

  lemma PrefixPermutes(r: seq<string>, t: seq<string>, n: nat)
    requires n <= |r| == |t| && multiset(r[..n]) == multiset(t[..n]) && SameFrom(r, t, n)
    ensures multiset(r) == multiset(t)
  {
    assert r == r[..n] + r[n..] && t == t[..n] + t[n..] && r[n..] == t[n..];
  }

  lemma RankOneMore(s: seq<string>, t: seq<string>, r: seq<string>, w: map<string, nat>, tail: nat)
    requires tail < |s| && t == Swap(s, 0, tail) && |r| == |s|
    requires forall j :: 0 <= j <= tail ==> Get(w, s[0]) >= Get(w, s[j])
    requires multiset(r[..tail]) == multiset(t[..tail]) && SameFrom(r, t, tail)
    requires Ranked(s, w, tail + 1)
    ensures Ranked(r, w, tail)
  {
    SameLength(r[..tail], t[..tail]);
    forall i, j | tail <= i < |r| && 0 <= j < i
      ensures Get(w, r[j]) <= Get(w, r[i])
    {
      assert r[i] == t[i];
      if j < tail {
        assert r[j] == r[..tail][j] && r[j] in t[..tail];
        var m :| 0 <= m < tail && t[m] == r[j];
      }
    }
  }

  lemma SortDownStep(s: seq<string>, w: map<string, nat>, n: nat)
    requires n < |s|
    ensures SortDown(s, w, n) == SortStep(SortDown(s, w, n + 1), w, n)
  {}

  /** Heap sort down to n: the urls from place n on are the heaviest, in order. */
  lemma {:induction false} SortDownRanks(s: seq<string>, w: map<string, nat>, n: nat)
    requires n <= |s| && HeapFrom(s, w, 0, |s|)
    ensures Sorting(s, SortDown(s, w, n), w, n)
    decreases |s| - n
  {
    if n < |s| {
      hide SortStep, Sorting, HeapFrom;
      SortDownRanks(s, w, n + 1);
      hide SortDown;
      SortDownStep(s, w, n);
      SortStepKeeps(s, SortDown(s, w, n + 1), w, n);
    }
  }

  /** Sorting further leaves the places already filled alone. */
  lemma {:induction false} SortDownStable(s: seq<string>, w: map<string, nat>, n: nat, m: nat)
    requires n <= m <= |s| && HeapFrom(s, w, 0, |s|)
    ensures SameFrom(SortDown(s, w, n), SortDown(s, w, m), m)
    decreases m - n
  {
    if n < m {
      hide SortStep, HeapFrom, SameFrom, Ranked;
      SortDownStable(s, w, n + 1, m);
      SortDownRanks(s, w, n + 1);
      SortDownStep(s, w, n);
      hide SortDown, Sorting;
      var t := SortDown(s, w, n + 1);
      SortStepKeeps(s, t, w, n);
      SameFromTransitive(SortDown(s, w, n), t, SortDown(s, w, m), n + 1, m);
    }
  }
}
