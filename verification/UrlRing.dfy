/**
 The ring of urls in shared memory: crawlers and parsers take urls from the head and put
 new links at the tail, each under one lock; what does not fit goes to a file.
 */
module UrlRing {
  import opened IndexArithmetic

  const URL_NUMS: nat := 20000
  const URL_SIZE: nat := 2048

  const NUL: char := '\0'

  /** What a slot of URL_SIZE characters gives back of a url written to it. */
  function Stored(url: string): string {
    UpToNul(if |url| <= URL_SIZE then url else url[..URL_SIZE])
  }

  function UpToNul(s: string): string {
    if s == "" || s[0] == NUL then "" else [s[0]] + UpToNul(s[1..])
  }

  /** A url that fits its slot: no longer than it, and without a terminator inside. */
  predicate Fits(url: string) {
    |url| <= URL_SIZE && NUL !in url
  }

  lemma {:induction false} UpToNulIs(s: string, k: nat)
    requires k <= |s| && (forall i :: 0 <= i < k ==> s[i] != NUL) && (k < |s| ==> s[k] == NUL)
    ensures UpToNul(s) == s[..k]
  {
    if k > 0 {
      UpToNulIs(s[1..], k - 1);
      assert s[..k] == [s[0]] + s[1..][..k - 1];
    }
  }

  /** A slot gives a url back unchanged exactly when the url fits. */
  lemma StoredIff(url: string)
    ensures Stored(url) == url <==> Fits(url)
  {
    var cut := if |url| <= URL_SIZE then url else url[..URL_SIZE];
    UpToNulClean(cut);
    if Fits(url) {
      UpToNulIs(url, |url|);
      assert url[..|url|] == url;
    }
  }

  /** What a slot gives back is the longest front of the url that fits it and has no terminator. */
  lemma StoredIs(url: string)
    ensures var r := Stored(url);
      && |r| <= |url| && |r| <= URL_SIZE && r == url[..|r|] && NUL !in r
      && (|r| == |url| || |r| == URL_SIZE || url[|r|] == NUL)
  {
    var cut := if |url| <= URL_SIZE then url else url[..URL_SIZE];
    var k := 0;
    while k < |cut| && cut[k] != NUL
      invariant k <= |cut| && forall i :: 0 <= i < k ==> cut[i] != NUL
    {
      k := k + 1;
    }
    UpToNulIs(cut, k);
  }

  lemma {:induction false} UpToNulClean(s: string)
    ensures NUL !in UpToNul(s) && |UpToNul(s)| <= |s|
  {
    if s != "" && s[0] != NUL {
      UpToNulClean(s[1..]);
    }
  }

  /** The place k behind i in the ring. */
  function Behind(i: nat, k: nat): nat {
    Wrap(i + k, URL_NUMS)
  }

  /** How many places are left, one kept free, when n are taken from the head on. */
  lemma FreeSlots(head: nat, n: nat)
    requires head < URL_NUMS && n < URL_NUMS
    ensures var tail := Behind(head, n);
      (if head == tail then URL_NUMS - 1 else (head - tail + URL_NUMS) % URL_NUMS - 1) == URL_NUMS - 1 - n
  {}

  function StoredAll(urls: seq<string>): (r: seq<string>)
    ensures |r| == |urls| && forall k :: 0 <= k < |urls| ==> r[k] == Stored(urls[k])
  {
    seq(|urls|, k requires 0 <= k < |urls| => Stored(urls[k]))
  }

  lemma OneMoreStored(urls: seq<string>, i: nat)
    requires i < |urls|
    ensures StoredAll(urls[..i + 1]) == StoredAll(urls[..i]) + [Stored(urls[i])]
  {}

  /** How many of a batch of links the ring takes: one slot always stays free. */
  function Taken(queued: nat, links: nat): (n: nat)
    ensures n <= links
    ensures queued <= URL_NUMS - 1 ==> queued + n <= URL_NUMS - 1
  {
    if queued >= URL_NUMS - 1 then 0 else if links <= URL_NUMS - 1 - queued then links else URL_NUMS - 1 - queued
  }

  // What a batch leaves in the ring and what it leaves over.

  function Queued(queue: seq<string>, links: seq<string>): seq<string> {
    queue + StoredAll(links[..Taken(|queue|, |links|)])
  }

  function Rest(queued: nat, links: seq<string>): seq<string> {
    links[Taken(queued, |links|)..]
  }

  /** The characters of slot i. */
  ghost function Slot(q: array2<char>, i: nat): (s: string)
    requires q.Length0 == URL_NUMS && q.Length1 == URL_SIZE && i < URL_NUMS
    reads q
    ensures |s| == URL_SIZE && forall j :: 0 <= j < URL_SIZE ==> s[j] == q[i, j]
  {
    seq(URL_SIZE, j requires 0 <= j < URL_SIZE reads q => q[i, j])
  }

  class ShmCtrl {
    // One row of URL_SIZE characters a slot.
    const urlQueue: array2<char>
    var urlHead: nat
    var urlTail: nat

    // The urls in the ring, oldest first.
    ghost var Urls: seq<string>

    ghost predicate Shaped()
      reads this
    {
      && urlQueue.Length0 == URL_NUMS && urlQueue.Length1 == URL_SIZE
      && urlHead < URL_NUMS && urlTail < URL_NUMS
    }

    /** The live slots run from the head to just before the tail; at least one slot is free. */
    ghost predicate Valid()
      reads this, urlQueue
    {
      && Shaped() && |Urls| < URL_NUMS && urlTail == Behind(urlHead, |Urls|)
      && forall k :: 0 <= k < |Urls| ==> UpToNul(Slot(urlQueue, Behind(urlHead, k))) == Urls[k]
    }

    constructor ()
      ensures Valid() && fresh(urlQueue) && Urls == []
    {
      urlQueue := new char[URL_NUMS, URL_SIZE]((i, j) => NUL);
      urlHead, urlTail, Urls := 0, 0, [];
    }

    /** Copies a url into the slot at the tail, cut at its size. */
    method WriteSlot(url: string)
      requires Shaped()
      modifies urlQueue
      ensures UpToNul(Slot(urlQueue, urlTail)) == Stored(url)
      ensures forall i, j :: 0 <= i < URL_NUMS && 0 <= j < URL_SIZE && i != urlTail ==> urlQueue[i, j] == old(urlQueue[i, j])
    {
      var i := 0;
      while i < |url| && i < URL_SIZE
        invariant i <= |url| && i <= URL_SIZE
        invariant forall j :: 0 <= j < i ==> urlQueue[urlTail, j] == url[j]
        invariant forall r, j :: 0 <= r < URL_NUMS && 0 <= j < URL_SIZE && r != urlTail ==> urlQueue[r, j] == old(urlQueue[r, j])
      {
        urlQueue[urlTail, i] := url[i];
        i := i + 1;
      }
      if i < URL_SIZE {
        urlQueue[urlTail, i] := NUL;
      }
      SameUpToNul(Slot(urlQueue, urlTail), if |url| <= URL_SIZE then url else url[..URL_SIZE]);
    }

    /** Copies the url out of the slot at the head, up to its terminator. */
    method ReadSlot() returns (url: string)
      requires Shaped()
      ensures url == UpToNul(Slot(urlQueue, urlHead))
    {
      url := "";
      var i := 0;
      while i < URL_SIZE && urlQueue[urlHead, i] != NUL
        invariant i <= URL_SIZE && url == Slot(urlQueue, urlHead)[..i]
        invariant forall j :: 0 <= j < i ==> Slot(urlQueue, urlHead)[j] != NUL
      {
        url := url + [urlQueue[urlHead, i]];
        i := i + 1;
      }
      UpToNulIs(Slot(urlQueue, urlHead), i);
    }

    /** Takes the oldest url; fails exactly when there is none. */
    method Dequeue() returns (ok: bool, url: string)
      requires Valid()
      modifies this`urlHead, this`Urls
      ensures Valid() && (ok <==> old(Urls) != [])
      ensures if ok then old(Urls) == [url] + Urls else Urls == old(Urls)
    {
      if urlHead == urlTail {
        return false, "";
      }
      url := ReadSlot();
      assert Behind(urlHead, 0) == urlHead;
      ghost var head := urlHead;
      WrapIsMod(urlHead + 1, URL_NUMS);
      urlHead := (urlHead + 1) % URL_NUMS;
      Urls := Urls[1..];
      forall k | 0 <= k < |Urls|
        ensures UpToNul(Slot(urlQueue, Behind(urlHead, k))) == Urls[k]
      {
        assert Behind(urlHead, k) == Behind(head, k + 1);
      }
      ok := true;
    }

    method EnqueueOne(url: string)
      requires Valid() && |Urls| < URL_NUMS - 1
      modifies this`urlTail, this`Urls, urlQueue
      ensures Valid() && Urls == old(Urls) + [Stored(url)]
    {
      WriteSlot(url);
      forall k | 0 <= k < |Urls|
        ensures UpToNul(Slot(urlQueue, Behind(urlHead, k))) == Urls[k]
      {
        SameSlot(Behind(urlHead, k));
      }
      WrapIsMod(urlTail + 1, URL_NUMS);
      urlTail := (urlTail + 1) % URL_NUMS;
      Urls := Urls + [Stored(url)];
    }

    lemma WithinBounds()
      requires Valid()
      ensures urlHead < URL_NUMS && urlTail == Behind(urlHead, |Urls|) < URL_NUMS && |Urls| < URL_NUMS
    {}

    twostate lemma SameSlot(i: nat)
      requires Shaped() && old(Shaped()) && i < URL_NUMS
      requires forall j :: 0 <= j < URL_SIZE ==> urlQueue[i, j] == old(urlQueue[i, j])
      ensures Slot(urlQueue, i) == old(Slot(urlQueue, i))
    {}

    /** How many links can still go in. */
    method FreeRoom() returns (room: int)
      requires Valid()
      ensures room == URL_NUMS - 1 - |Urls| >= 0
    {
      WithinBounds();
      FreeSlots(urlHead, |Urls|);
      if urlHead == urlTail {
        room := URL_NUMS - 1;
      } else {
        room := (urlHead - urlTail + URL_NUMS) % URL_NUMS - 1;
      }
    }

    /** Puts as many links as fit at the tail and returns the others. */
    method EnqueueBatch(links0: seq<string>) returns (links: seq<string>)
      requires Valid()
      modifies this`urlTail, this`Urls, urlQueue
      ensures Valid()
      // What comes back is the end of the batch, the front went in, and nothing comes back while there is room.
      ensures |links| <= |links0| && links == links0[|links0| - |links|..]
      ensures Urls == old(Urls) + StoredAll(links0[..|links0| - |links|])
      ensures links != [] ==> |Urls| == URL_NUMS - 1
      ensures Urls == Queued(old(Urls), links0) && links == Rest(|old(Urls)|, links0)
    {
      hide Valid, StoredAll, Stored, Behind;
      links := links0;
      var urlInsertSize := FreeRoom();
      if urlInsertSize > |links| {
        urlInsertSize := |links|;
      }
      ghost var n, i := urlInsertSize, 0;
      ghost var before := Urls;
      while urlInsertSize > 0 && links != []
        invariant 0 <= urlInsertSize == n - i && i <= n <= |links0| && links == links0[i..]
        invariant Valid() && Urls == before + StoredAll(links0[..i])
      {
        EnqueueOne(links[0]);
        links := links[1..];
        urlInsertSize := urlInsertSize - 1;
        i := i + 1;
        OneMoreStored(links0, i - 1);
      }
    }

    /**
     What a crawler does with the links of a page it parsed itself: the first is its next
     work, the others go to the ring, and those that do not fit are for the file.
     */
    method KeepOneQueueRest(links: seq<string>) returns (workUrl: string, overflow: seq<string>)
      requires Valid() && links != []
      modifies this`urlTail, this`Urls, urlQueue
      ensures Valid() && workUrl == links[0]
      ensures |overflow| < |links| && overflow == links[|links| - |overflow|..]
      ensures Urls == old(Urls) + StoredAll(links[1..|links| - |overflow|])
      ensures overflow != [] ==> |Urls| == URL_NUMS - 1
      ensures Urls == Queued(old(Urls), links[1..]) && overflow == Rest(|old(Urls)|, links[1..])
    {
      workUrl := links[0];
      overflow := EnqueueBatch(links[1..]);
      ghost var n := |links| - |overflow|;
      assert links[1..][..n - 1] == links[1..n] && links[1..][n - 1..] == links[n..];
    }

    /** Writes out everything in the ring, oldest first, one url a line. */
    method Drain() returns (lines: seq<string>)
      requires Valid()
      modifies this`urlHead, this`Urls
      ensures Valid() && lines == old(Urls) && Urls == []
    {
      hide Valid;
      lines := [];
      EmptyIff();
      while urlHead != urlTail
        invariant Valid() && lines + Urls == old(Urls) && (urlHead == urlTail <==> Urls == [])
        decreases |Urls|
      {
        var ok, url := Dequeue();
        lines := lines + [url];
        EmptyIff();
      }
    }

    /** Head and tail meet exactly when the ring is empty. */
    lemma EmptyIff()
      requires Valid()
      ensures urlHead == urlTail <==> Urls == []
    {}
  }

  lemma {:induction false} SameUpToNul(slot: string, cut: string)
    requires |cut| <= |slot| && (forall j :: 0 <= j < |cut| ==> slot[j] == cut[j]) && (|cut| < |slot| ==> slot[|cut|] == NUL)
    ensures UpToNul(slot) == UpToNul(cut)
  {
    if cut != "" && cut[0] != NUL {
      SameUpToNul(slot[1..], cut[1..]);
    }
  }

  // Runs: workers take and offer urls in any order, also while and after the master drains the ring.

  datatype Exit = Exit(drained: bool, url: string)

  /**
   out and queue are what came out of the ring, drained by the master or taken by a worker,
   and what is in it; accepted the links that went in, kept those a worker goes on with,
   file those written out, pending those each worker has still to write out, and offered
   all links that survived the workers' filter. The drain ends when it finds the ring
   empty, at a time when since links had been accepted; nothing keeps workers from going on.
   */
  datatype Spider = Spider(queue: seq<string>, out: seq<Exit>, accepted: seq<string>, kept: seq<string>,
                           file: seq<string>, pending: seq<seq<string>>, offered: seq<string>,
                           since: nat, down: bool)

  ghost predicate Init(s: Spider) {
    && s.queue == s.accepted == s.kept == s.file == s.offered == [] && s.out == [] && !s.down
    && forall w :: 0 <= w < |s.pending| ==> s.pending[w] == []
  }

  ghost predicate Take(s: Spider, s': Spider) {
    s.queue != [] && s' == Left(s, false, s.queue[0])
  }

  function Left(s: Spider, drained: bool, url: string): Spider
    requires s.queue != []
  {
    s.(queue := s.queue[1..], out := s.out + [Exit(drained, url)])
  }

  ghost predicate Offer(s: Spider, s': Spider, w: nat, links: seq<string>, keep: bool) {
    && w < |s.pending| && s.pending[w] == [] && (keep ==> links != [])
    && s' == Offered(s, w, links, keep)
  }

  function Offered(s: Spider, w: nat, links: seq<string>, keep: bool): Spider
    requires w < |s.pending| && (keep ==> links != [])
  {
    var first := if keep then 1 else 0;
    var batch := links[first..];
    s.(queue := Queued(s.queue, batch), accepted := s.accepted + batch[..Taken(|s.queue|, |batch|)],
       kept := s.kept + links[..first], pending := s.pending[w := Rest(|s.queue|, batch)],
       offered := s.offered + links)
  }

  ghost predicate Spill(s: Spider, s': Spider, w: nat) {
    w < |s.pending| && s' == s.(file := s.file + s.pending[w], pending := s.pending[w := []])
  }

  /** One round of the drain. */
  ghost predicate Drain(s: Spider, s': Spider) {
    && !s.down
    && s' == if s.queue == [] then s.(down := true, since := |s.accepted|) else Left(s, true, s.queue[0])
  }

  ghost predicate Next(s: Spider, s': Spider) {
    || Take(s, s')
    || (exists w, links, keep :: Offer(s, s', w, links, keep))
    || (exists w :: Spill(s, s', w))
    || Drain(s, s')
    || s' == s
  }

  ghost function AllPending(pending: seq<seq<string>>): multiset<string> {
    if pending == [] then multiset{}
    else AllPending(pending[..|pending| - 1]) + multiset(pending[|pending| - 1])
  }

  ghost predicate Inv(s: Spider) {
    Fifo(s) && Conserved(s)
  }

  ghost function Urls(out: seq<Exit>): (r: seq<string>)
    ensures |r| == |out| && forall k :: 0 <= k < |out| ==> r[k] == out[k].url
  {
    seq(|out|, k requires 0 <= k < |out| => out[k].url)
  }

  /** What came out, then what is in, is what went in, cut to the size of a slot; and at the drain's end all was out. */
  ghost predicate Fifo(s: Spider) {
    && |s.queue| <= URL_NUMS - 1 && Urls(s.out) + s.queue == StoredAll(s.accepted)
    && (s.down ==> s.since <= |s.out|)
  }

  /** Every link offered is in exactly one of four places. */
  ghost predicate Conserved(s: Spider) {
    multiset(s.offered) == multiset(s.kept) + multiset(s.accepted) + multiset(s.file) + AllPending(s.pending)
  }

  lemma {:induction false} OnePending(pending: seq<seq<string>>, w: nat, v: seq<string>)
    requires w < |pending|
    ensures AllPending(pending[w := v]) + multiset(pending[w]) == AllPending(pending) + multiset(v)
  {
    var after, n := pending[w := v], |pending| - 1;
    if w == n {
      assert after[..n] == pending[..n];
    } else {
      OnePending(pending[..n], w, v);
      assert after[..n] == pending[..n][w := v] && after[n] == pending[n] && pending[..n][w] == pending[w];
      var a, b, last := AllPending(pending[..n]), AllPending(after[..n]), multiset(pending[n]);
      assert b + multiset(pending[w]) == a + multiset(v);
      assert AllPending(after) == b + last && AllPending(pending) == a + last;
      assert (b + last) + multiset(pending[w]) == (b + multiset(pending[w])) + last;
    }
  }

  lemma InitInv(s: Spider)
    requires Init(s)
    ensures Inv(s)
  {
    NothingPending(s.pending);
  }

  lemma {:induction false} NothingPending(pending: seq<seq<string>>)
    requires forall w :: 0 <= w < |pending| ==> pending[w] == []
    ensures AllPending(pending) == multiset{}
  {
    if pending != [] {
      NothingPending(pending[..|pending| - 1]);
    }
  }

  lemma OfferKeeps(s: Spider, s': Spider, w: nat, links: seq<string>, keep: bool)
    requires Inv(s) && Offer(s, s', w, links, keep)
    ensures Inv(s')
  {
    hide Offer, Fifo, Conserved;
    OfferIsFifo(s, s', w, links, keep);
    OfferConserves(s, s', w, links, keep);
  }

  lemma OfferIsFifo(s: Spider, s': Spider, w: nat, links: seq<string>, keep: bool)
    requires Fifo(s) && Offer(s, s', w, links, keep)
    ensures Fifo(s')
  {
    hide AllPending, Taken, StoredAll;
    var batch := links[if keep then 1 else 0..];
    var more := batch[..Taken(|s.queue|, |batch|)];
    StoredConcat(s.accepted, more);
    assert Urls(s'.out) + s'.queue == (Urls(s.out) + s.queue) + StoredAll(more);
  }

  lemma OfferConserves(s: Spider, s': Spider, w: nat, links: seq<string>, keep: bool)
    requires Conserved(s) && Offer(s, s', w, links, keep)
    ensures Conserved(s')
  {
    hide AllPending, Taken, StoredAll, Queued;
    var first := if keep then 1 else 0;
    var batch := links[first..];
    assert links == links[..first] + batch;
    SharedOut(s, w, links[..first], batch, Taken(|s.queue|, |batch|));
  }

  /** Sharing links out over the four places leaves their total what was offered. */
  lemma SharedOut(s: Spider, w: nat, front: seq<string>, batch: seq<string>, n: nat)
    requires Conserved(s) && w < |s.pending| && s.pending[w] == [] && n <= |batch|
    ensures multiset(s.offered + (front + batch))
         == multiset(s.kept + front) + multiset(s.accepted + batch[..n]) + multiset(s.file)
            + AllPending(s.pending[w := batch[n..]])
  {
    hide AllPending;
    OnePending(s.pending, w, batch[n..]);
    assert AllPending(s.pending[w := batch[n..]]) == AllPending(s.pending) + multiset(batch[n..]);
    assert batch == batch[..n] + batch[n..];
    FourPlaces(multiset(s.kept), multiset(s.accepted), multiset(s.file), AllPending(s.pending),
               multiset(front), multiset(batch[..n]), multiset(batch[n..]));
    assert multiset(front + batch) == multiset(front) + multiset(batch[..n]) + multiset(batch[n..]);
  }

  lemma StoredConcat(a: seq<string>, b: seq<string>)
    ensures StoredAll(a + b) == StoredAll(a) + StoredAll(b)
  {}

  lemma FourPlaces(k: multiset<string>, a: multiset<string>, f: multiset<string>, p: multiset<string>,
                                      k': multiset<string>, a': multiset<string>, p': multiset<string>)
    ensures (k + k') + (a + a') + f + (p + p') == (k + a + f + p) + (k' + a' + p')
  {}

  lemma SpillKeeps(s: Spider, s': Spider, w: nat)
    requires Inv(s) && Spill(s, s', w)
    ensures Inv(s')
  {
    hide AllPending;
    OnePending(s.pending, w, []);
    var a, b := AllPending(s.pending), AllPending(s'.pending);
    assert b + multiset(s.pending[w]) == a + multiset([]) == a;
  }

  lemma LeftKeeps(s: Spider, s': Spider, drained: bool)
    requires Inv(s) && s.queue != [] && s' == Left(s, drained, s.queue[0])
    ensures Inv(s')
  {
    hide StoredAll;
    assert Urls(s'.out) == Urls(s.out) + [s.queue[0]];
    assert Urls(s'.out) + s'.queue == Urls(s.out) + s.queue;
  }

  lemma DrainKeeps(s: Spider, s': Spider)
    requires Inv(s) && Drain(s, s')
    ensures Inv(s')
  {
    if s.queue != [] {
      LeftKeeps(s, s', true);
    } else {
      assert |Urls(s.out) + s.queue| == |s.out|;
    }
  }

  lemma NextInv(s: Spider, s': Spider)
    requires Inv(s) && Next(s, s')
    ensures Inv(s')
  {
    hide Inv;
    if Take(s, s') {
      LeftKeeps(s, s', false);
    } else if Drain(s, s') {
      DrainKeeps(s, s');
    } else if w: nat, links, keep :| Offer(s, s', w, links, keep) {
      OfferKeeps(s, s', w, links, keep);
    } else if w: nat :| Spill(s, s', w) {
      SpillKeeps(s, s', w);
    }
  }

  ghost predicate IsRun(run: seq<Spider>) {
    run != [] && Init(run[0]) && forall k :: 0 <= k < |run| - 1 ==> Next(run[k], run[k + 1])
  }

  lemma {:induction false} RunInv(run: seq<Spider>, k: nat)
    requires IsRun(run) && k < |run|
    ensures Inv(run[k])
  {
    if k == 0 {
      InitInv(run[0]);
    } else {
      RunInv(run, k - 1);
      NextInv(run[k - 1], run[k]);
    }
  }

  /**
   In every interleaving of the workers the ring is first in, first out and never full
   beyond its last slot, and every link offered is in exactly one place: kept by a worker,
   through the ring, in the file, or on its way there.
   */
  lemma NoUrlLost(run: seq<Spider>, k: nat)
    requires IsRun(run) && k < |run|
    ensures var s := run[k];
      && |s.queue| <= URL_NUMS - 1 && Urls(s.out) + s.queue == StoredAll(s.accepted)
      && multiset(s.offered) == multiset(s.kept) + multiset(s.accepted) + multiset(s.file) + AllPending(s.pending)
  {
    RunInv(run, k);
  }

  /** What the master has drained, or the workers have taken, in order. */
  ghost function Part(out: seq<Exit>, drained: bool): seq<string> {
    if out == [] then []
    else
      var n := |out| - 1;
      Part(out[..n], drained) + (if out[n].drained == drained then [out[n].url] else [])
  }

  lemma {:induction false} TwoParts(out: seq<Exit>)
    ensures multiset(Urls(out)) == multiset(Part(out, true)) + multiset(Part(out, false))
  {
    if out != [] {
      var n := |out| - 1;
      TwoParts(out[..n]);
      OneMoreExit(out[..n], out[n]);
      assert out == out[..n] + [out[n]];
    }
  }

  lemma {:induction false} OneMoreExit(out: seq<Exit>, last: Exit)
    ensures var all := out + [last];
      && multiset(Urls(all)) == multiset(Urls(out)) + multiset{last.url}
      && multiset(Part(all, last.drained)) == multiset(Part(out, last.drained)) + multiset{last.url}
      && Part(all, !last.drained) == Part(out, !last.drained)
  {
    var all := out + [last];
    assert all[..|out|] == out;
    assert Urls(all) == Urls(out) + [last.url];
  }

  /**
   What a drain leaves behind, with the workers running on all the time: when it ends,
   everything accepted by then has come out, in order. So nothing stays in the ring exactly
   when as many links have come out as were ever accepted, and certainly when none has been
   accepted since.
   */
  lemma DrainLosesNothingIff(run: seq<Spider>, k: nat)
    requires IsRun(run) && k < |run| && run[k].down
    ensures var s := run[k];
      && s.since <= |s.out| <= |s.accepted| && Urls(s.out) == StoredAll(s.accepted[..|s.out|])
      && s.queue == StoredAll(s.accepted[|s.out|..])
      && (s.queue == [] <==> |s.out| == |s.accepted|)
      && (s.since == |s.accepted| ==> s.queue == [])
  {
    RunInv(run, k);
    var s := run[k];
    hide Init, Next, AllPending;
    assert |Urls(s.out) + s.queue| == |s.accepted|;
    var early, late := s.accepted[..|s.out|], s.accepted[|s.out|..];
    assert s.accepted == early + late;
    StoredConcat(early, late);
    hide StoredAll, Urls;
    SameFront(Urls(s.out), s.queue, StoredAll(early), StoredAll(late));
  }

  lemma SameFront(a: seq<string>, b: seq<string>, c: seq<string>, d: seq<string>)
    requires a + b == c + d && |a| == |c|
    ensures a == c && b == d
  {
    assert a == (a + b)[..|a|] == (c + d)[..|c|] == c;
    assert b == (a + b)[|a|..] == (c + d)[|c|..] == d;
  }

  /**
   With nothing left in the ring or to write out, and urls that fit: what came out is what
   was accepted, in order, and every link is kept, taken, drained or in the file.
   */
  lemma DrainCompletes(run: seq<Spider>, k: nat)
    requires IsRun(run) && k < |run| && run[k].queue == []
    requires forall w :: 0 <= w < |run[k].pending| ==> run[k].pending[w] == []
    requires forall i :: 0 <= i < |run[k].accepted| ==> Fits(run[k].accepted[i])
    ensures var s := run[k];
      && Urls(s.out) == s.accepted
      && multiset(s.offered) == multiset(s.kept) + multiset(Part(s.out, false)) + multiset(Part(s.out, true)) + multiset(s.file)
  {
    RunInv(run, k);
    var s := run[k];
    NothingPending(s.pending);
    TwoParts(s.out);
    forall i | 0 <= i < |s.accepted|
      ensures Stored(s.accepted[i]) == s.accepted[i]
    {
      StoredIff(s.accepted[i]);
    }
    assert StoredAll(s.accepted) == s.accepted;
  }

  // What the overflow file is for.

  /**
   An offer in full: the first link is kept if the worker goes on with one, the next ones go
   into the ring in order, and only if they fill it is the rest left to write out.
   */
  lemma {:induction false} OfferIs(s: Spider, s': Spider, w: nat, links: seq<string>, keep: bool) returns (m: nat)
    requires Inv(s) && Offer(s, s', w, links, keep)
    ensures var first := if keep then 1 else 0;
      && first + m <= |links|
      && s'.kept == s.kept + links[..first] && s'.accepted == s.accepted + links[first..first + m]
      && s'.queue == s.queue + StoredAll(links[first..first + m])
      && s'.pending == s.pending[w := links[first + m..]]
      && (first + m < |links| ==> |s'.queue| == URL_NUMS - 1)
      && s'.out == s.out && s'.file == s.file && s'.offered == s.offered + links
      && s'.since == s.since && s'.down == s.down
  {
    hide AllPending, StoredAll;
    var first := if keep then 1 else 0;
    var batch := links[first..];
    m := Taken(|s.queue|, |batch|);
    assert batch[..m] == links[first..first + m] && batch[m..] == links[first + m..];
    assert Fifo(s);
  }

  ghost predicate NothingSpilled(s: Spider) {
    s.file == [] && forall w :: 0 <= w < |s.pending| ==> s.pending[w] == []
  }

  /** As long as the ring has never been full nothing has gone to the overflow file, nor is on its way there. */
  lemma {:induction false} FileOnlyWhenFull(run: seq<Spider>, k: nat)
    requires IsRun(run) && k < |run| && forall j :: 0 <= j <= k ==> |run[j].queue| < URL_NUMS - 1
    ensures NothingSpilled(run[k])
    ensures multiset(run[k].offered) == multiset(run[k].kept) + multiset(run[k].accepted)
  {
    RunInv(run, k);
    if k > 0 {
      FileOnlyWhenFull(run, k - 1);
      RunInv(run, k - 1);
      StepWithRoom(run[k - 1], run[k]);
    }
    NothingPending(run[k].pending);
  }

  lemma StepWithRoom(s: Spider, s': Spider)
    requires Inv(s) && Next(s, s') && NothingSpilled(s) && |s'.queue| < URL_NUMS - 1
    ensures NothingSpilled(s')
  {
    hide Inv;
    if w: nat, links, keep :| Offer(s, s', w, links, keep) {
      var m := OfferIs(s, s', w, links, keep);
    } else if w: nat :| Spill(s, s', w) {
    }
  }

  // The ring object under any schedule.

  datatype Action = TakeUrl | OfferLinks(w: nat, links: seq<string>, keep: bool) | WriteOut(w: nat) | DrainNext

  /** What an action does to the state: its step where it applies, nothing where it does not. */
  ghost predicate Does(s: Spider, a: Action, s': Spider) {
    match a
    case TakeUrl => if s.queue == [] then s' == s else Take(s, s')
    case OfferLinks(w, links, keep) =>
      if w >= |s.pending| || s.pending[w] != [] || links == [] then s' == s else Offer(s, s', w, links, keep)
    case WriteOut(w) => if w >= |s.pending| then s' == s else Spill(s, s', w)
    case DrainNext => if s.down then s' == s else Drain(s, s')
  }

  /** The other actions in full; what they do not mention stays as it is. */
  lemma ActionsAre(s: Spider, a: Action, s': Spider)
    requires Does(s, a, s')
    ensures a.TakeUrl? && s.queue != [] ==>
      s' == s.(queue := s.queue[1..], out := s.out + [Exit(false, s.queue[0])])
    ensures a.DrainNext? && !s.down && s.queue != [] ==>
      s' == s.(queue := s.queue[1..], out := s.out + [Exit(true, s.queue[0])])
    ensures a.DrainNext? && !s.down && s.queue == [] ==> s' == s.(down := true, since := |s.accepted|)
    ensures a.WriteOut? && a.w < |s.pending| ==>
      s' == s.(file := s.file + s.pending[a.w], pending := s.pending[a.w := []])
    ensures (a.TakeUrl? && s.queue == []) || (a.DrainNext? && s.down) || (a.WriteOut? && a.w >= |s.pending|) ==> s' == s
  {}

  lemma DoesAStep(s: Spider, a: Action, s': Spider)
    requires Does(s, a, s')
    ensures Next(s, s') && |s'.pending| == |s.pending|
  {
    match a
    case OfferLinks(w, links, keep) =>
      assert s' == s || Offer(s, s', w, links, keep);
    case WriteOut(w) =>
      assert s' == s || Spill(s, s', w);
    case _ =>
  }

  /** One locked section on the ring object. */
  method Perform(ring: ShmCtrl, s: Spider, a: Action) returns (s': Spider)
    requires ring.Valid() && ring.Urls == s.queue
    modifies ring`urlHead, ring`urlTail, ring`Urls, ring.urlQueue
    ensures ring.Valid() && ring.Urls == s'.queue && Does(s, a, s')
  {
    s' := s;
    match a
    case TakeUrl =>
      var ok, url := ring.Dequeue();
      if ok {
        s' := Left(s, false, url);
      }
    case OfferLinks(w, links, keep) =>
      if w < |s.pending| && s.pending[w] == [] && links != [] {
        var rest;
        s' := Offered(s, w, links, keep);
        if keep {
          var workUrl;
          workUrl, rest := ring.KeepOneQueueRest(links);
          s' := s'.(kept := s.kept + [workUrl], pending := s.pending[w := rest]);
        } else {
          rest := ring.EnqueueBatch(links);
          s' := s'.(pending := s.pending[w := rest]);
        }
        assert links[0..] == links;
      }
    case WriteOut(w) =>
      if w < |s.pending| {
        s' := s.(file := s.file + s.pending[w], pending := s.pending[w := []]);
      }
    case DrainNext =>
      if !s.down {
        var ok, url := ring.Dequeue();
        s' := if ok then Left(s, true, url) else s.(down := true, since := |s.accepted|);
      }
  }

  /**
   Any schedule of locked sections on a new ring is a run, state by state; so the two
   results above hold of the ring object, whatever the workers do.
   */
  method Execute(workers: nat, schedule: seq<Action>) returns (ring: ShmCtrl, s: Spider, ghost run: seq<Spider>)
    ensures ring.Valid() && ring.Urls == s.queue && |s.pending| == workers
    ensures IsRun(run) && |run| == |schedule| + 1 && run[|schedule|] == s
    ensures forall i :: 0 <= i < |schedule| ==> Does(run[i], schedule[i], run[i + 1])
  {
    hide Init, Next, Does;
    ring := new ShmCtrl();
    s := Empty(workers);
    EmptyIsInit(workers);
    run := [s];
    for i := 0 to |schedule|
      invariant ring.Valid() && ring.Urls == s.queue && fresh(ring) && fresh(ring.urlQueue) && |s.pending| == workers
      invariant IsRun(run) && |run| == i + 1 && run[i] == s
      invariant forall j :: 0 <= j < i ==> Does(run[j], schedule[j], run[j + 1])
    {
      var s' := Perform(ring, s, schedule[i]);
      DoesAStep(s, schedule[i], s');
      s, run := s', run + [s'];
    }
  }

  function Empty(workers: nat): Spider {
    Spider([], [], [], [], [], seq(workers, _ => []), [], 0, false)
  }

  lemma EmptyIsInit(workers: nat)
    ensures Init(Empty(workers)) && |Empty(workers).pending| == workers
  {}
}
