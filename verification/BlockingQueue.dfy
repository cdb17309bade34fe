/**
 The bounded blocking queue: a circular buffer, and the monitor around it with one mutex
 and two conditions.
 */
module BlockingQueue {
  import opened IndexArithmetic

  /** The circular buffer. */
  class BoundedQueue<T(0)> {
    const capacity: nat
    const buffer: array<T>
    var head: nat
    var tail: nat
    var size: nat

    ghost predicate Valid()
      reads this
    {
      && 0 < capacity == buffer.Length
      && head < capacity && size <= capacity
      && tail == Wrap(head + size, capacity)
    }

    /** What is in the queue, oldest first. */
    ghost function Contents(): (s: seq<T>)
      requires Valid()
      reads this, buffer
      ensures |s| == size
      ensures forall i :: 0 <= i < size ==> s[i] == buffer[Wrap(head + i, capacity)]
    {
      seq(size, i requires 0 <= i < size && Valid() reads this, buffer => buffer[Wrap(head + i, capacity)])
    }

    constructor (capacity: nat)
      requires capacity > 0
      ensures Valid() && fresh(buffer) && this.capacity == capacity && Contents() == []
    {
      this.capacity := capacity;
      buffer := new T[capacity];
      head, tail, size := 0, 0, 0;
    }

    predicate Empty()
      reads this
    {
      size == 0
    }

    predicate Full()
      reads this
    {
      capacity == size
    }

    method Push(t: T)
      requires Valid() && !Full()
      modifies this, buffer
      ensures Valid() && Contents() == old(Contents()) + [t]
    {
      ghost var before := Contents();
      WrapIsMod(tail + 1, capacity);
      buffer[tail] := t;
      tail := (tail + 1) % capacity;
      size := size + 1;
      forall i | 0 <= i < size - 1
        ensures Contents()[i] == before[i]
      {
      }
      assert Contents() == before + [t];
    }

    method Pop() returns (t: T)
      requires Valid() && !Empty()
      modifies this
      ensures Valid() && [t] + Contents() == old(Contents())
    {
      ghost var before := Contents();
      var oldPos := head;
      WrapIsMod(head + 1, capacity);
      head := (head + 1) % capacity;
      size := size - 1;
      t := buffer[oldPos];
      forall i | 0 <= i < size
        ensures Contents()[i] == before[i + 1]
      {
      }
      assert before == [t] + Contents();
    }
  }

  // The monitor. Every section under the mutex is one step.

  datatype Call<T> = PushCall(x: T) | PopCall

  /** A thread is outside, waits on the condition of its call, or was woken and has not got the mutex yet. */
  datatype Thread<T> = Outside | Waiting(call: Call<T>) | Woken(call: Call<T>)

  /** pushed and popped are the values that went in and came out so far. */
  datatype Monitor<T> = Monitor(capacity: nat, queue: seq<T>, threads: map<nat, Thread<T>>, pushed: seq<T>, popped: seq<T>)

  ghost function PopWaiting<T(!new)>(threads: map<nat, Thread<T>>): set<nat> {
    set t | t in threads && threads[t].Waiting? && threads[t].call.PopCall?
  }

  ghost function PopWoken<T(!new)>(threads: map<nat, Thread<T>>): set<nat> {
    set t | t in threads && threads[t].Woken? && threads[t].call.PopCall?
  }

  ghost function PushWaiting<T(!new)>(threads: map<nat, Thread<T>>): set<nat> {
    set t | t in threads && threads[t].Waiting? && threads[t].call.PushCall?
  }

  ghost function PushWoken<T(!new)>(threads: map<nat, Thread<T>>): set<nat> {
    set t | t in threads && threads[t].Woken? && threads[t].call.PushCall?
  }

  ghost predicate Init<T(!new)>(s: Monitor<T>) {
    && s.capacity > 0 && s.queue == [] && s.pushed == [] && s.popped == []
    && forall t :: t in s.threads ==> s.threads[t] == Outside
  }

  /** Signalling a condition wakes one of its waiters, if there is one. */
  ghost predicate Notified<T(!new)>(waiting: set<nat>, threads: map<nat, Thread<T>>, threads': map<nat, Thread<T>>) {
    if waiting == {} then threads' == threads
    else exists t :: t in waiting && t in threads && threads[t].Waiting? && threads' == threads[t := Woken(threads[t].call)]
  }

  /** What a thread does once it has the mutex: the loop around its condition, once. */
  ghost predicate Attempt<T(!new)>(s: Monitor<T>, s': Monitor<T>, t: nat, call: Call<T>) {
    var out := s.threads[t := Outside];
    match call
    case PushCall(x) =>
      if |s.queue| == s.capacity then s' == s.(threads := s.threads[t := Waiting(call)])
      else
        && s' == s.(queue := s.queue + [x], pushed := s.pushed + [x], threads := s'.threads)
        && Notified(PopWaiting(out), out, s'.threads)
    case PopCall =>
      if s.queue == [] then s' == s.(threads := s.threads[t := Waiting(call)])
      else
        && s' == s.(queue := s.queue[1..], popped := s.popped + [s.queue[0]], threads := s'.threads)
        && Notified(PushWaiting(out), out, s'.threads)
  }

  /** A thread calls, a woken thread gets the mutex, or a waiter wakes for no reason. */
  ghost predicate Next<T(!new)>(s: Monitor<T>, s': Monitor<T>) {
    || (exists t, call :: t in s.threads && s.threads[t] == Outside && Attempt(s, s', t, call))
    || (exists t :: t in s.threads && s.threads[t].Woken? && Attempt(s, s', t, s.threads[t].call))
    || (exists t :: t in s.threads && s.threads[t].Waiting? && s' == s.(threads := s.threads[t := Woken(s.threads[t].call)]))
  }

  /**
   Nothing is lost or reordered, and no wake-up is lost: while consumers wait, the queue
   holds no more values than woken consumers will come for; and while producers wait, no
   more slots are free than woken producers will fill.
   */
  ghost predicate Inv<T(!new)>(s: Monitor<T>) {
    && 0 < s.capacity && |s.queue| <= s.capacity
    && s.pushed == s.popped + s.queue
    && (PopWaiting(s.threads) != {} ==> |s.queue| <= |PopWoken(s.threads)|)
    && (PushWaiting(s.threads) != {} ==> s.capacity - |s.queue| <= |PushWoken(s.threads)|)
  }

  lemma InitInv<T(!new)>(s: Monitor<T>)
    requires Init(s)
    ensures Inv(s)
  {
    assert PopWaiting(s.threads) == {} && PushWaiting(s.threads) == {};
  }

  lemma TakeAway(group: set<nat>, t: nat)
    ensures group - {t} + {} == group - {t}
    ensures if t in group then |group - {t}| == |group| - 1 else group - {t} == group
  {}

  /** How the four groups change when one thread changes. */
  lemma OneThread<T(!new)>(threads: map<nat, Thread<T>>, t: nat, v: Thread<T>)
    requires t in threads
    ensures var threads' := threads[t := v];
      && PopWaiting(threads') == PopWaiting(threads) - {t} + (if v.Waiting? && v.call.PopCall? then {t} else {})
      && PopWoken(threads') == PopWoken(threads) - {t} + (if v.Woken? && v.call.PopCall? then {t} else {})
      && PushWaiting(threads') == PushWaiting(threads) - {t} + (if v.Waiting? && v.call.PushCall? then {t} else {})
      && PushWoken(threads') == PushWoken(threads) - {t} + (if v.Woken? && v.call.PushCall? then {t} else {})
  {}

  /** A thread that leaves, from outside or from the woken ones. */
  lemma Leave<T(!new)>(threads: map<nat, Thread<T>>, t: nat)
    requires t in threads && !threads[t].Waiting?
    ensures var out := threads[t := Outside];
      && PopWaiting(out) == PopWaiting(threads) && PushWaiting(out) == PushWaiting(threads)
      && |PopWoken(out)| == |PopWoken(threads)| - (if threads[t].Woken? && threads[t].call.PopCall? then 1 else 0)
      && |PushWoken(out)| == |PushWoken(threads)| - (if threads[t].Woken? && threads[t].call.PushCall? then 1 else 0)
  {
    hide PopWaiting, PopWoken, PushWaiting, PushWoken;
    OneThread(threads, t, Outside);
    GroupOf(threads, t);
    TakeAway(PopWoken(threads), t);
    TakeAway(PushWoken(threads), t);
    TakeAway(PopWaiting(threads), t);
    TakeAway(PushWaiting(threads), t);
  }

  /** A waiter that is woken. */
  lemma Wake<T(!new)>(threads: map<nat, Thread<T>>, t: nat)
    requires t in threads && threads[t].Waiting?
    ensures var after, pop := threads[t := Woken(threads[t].call)], threads[t].call.PopCall?;
      && PopWaiting(after) == PopWaiting(threads) - {t} && PushWaiting(after) == PushWaiting(threads) - {t}
      && |PopWoken(after)| == |PopWoken(threads)| + (if pop then 1 else 0)
      && |PushWoken(after)| == |PushWoken(threads)| + (if pop then 0 else 1)
  {
    hide PopWaiting, PopWoken, PushWaiting, PushWoken;
    OneThread(threads, t, Woken(threads[t].call));
    GroupOf(threads, t);
  }

  /** A thread that goes (back) to wait. */
  lemma Wait<T(!new)>(threads: map<nat, Thread<T>>, t: nat, call: Call<T>)
    requires t in threads && !threads[t].Waiting? && (threads[t].Woken? ==> threads[t].call == call)
    ensures var after := threads[t := Waiting(call)];
      if call.PopCall? then
        PushWaiting(after) == PushWaiting(threads) && PushWoken(after) == PushWoken(threads)
      else
        PopWaiting(after) == PopWaiting(threads) && PopWoken(after) == PopWoken(threads)
  {
    hide PopWaiting, PopWoken, PushWaiting, PushWoken;
    OneThread(threads, t, Waiting(call));
    GroupOf(threads, t);
  }

  lemma AttemptKeeps<T(!new)>(s: Monitor<T>, s': Monitor<T>, t: nat, call: Call<T>)
    requires Inv(s) && t in s.threads && Attempt(s, s', t, call)
    requires s.threads[t] == Outside || s.threads[t] == Woken(call)
    ensures Inv(s')
  {
    hide PopWaiting, PopWoken, PushWaiting, PushWoken;
    var out := s.threads[t := Outside];
    Leave(s.threads, t);
    Wait(s.threads, t, call);
    match call {
      case PushCall(x) =>
        if |s.queue| < s.capacity && PopWaiting(out) != {} {
          var w :| w in PopWaiting(out) && w in out && out[w].Waiting? && s'.threads == out[w := Woken(out[w].call)];
          GroupOf(out, w);
          Wake(out, w);
        }
      case PopCall =>
        if s.queue != [] {
          assert s.queue == [s.queue[0]] + s.queue[1..];
          if PushWaiting(out) != {} {
            var w :| w in PushWaiting(out) && w in out && out[w].Waiting? && s'.threads == out[w := Woken(out[w].call)];
            GroupOf(out, w);
            Wake(out, w);
          }
        }
    }
  }

  /** What a round leaves alone. */
  ghost predicate Untouched<T(!new)>(threads: map<nat, Thread<T>>, threads': map<nat, Thread<T>>, u: nat) {
    u in threads && u in threads' && threads'[u] == threads[u]
  }

  /**
   A round in full. A call that the queue does not let through waits and changes nothing
   else. One that gets through leaves, and wakes a waiter of the other kind if there is
   one, but never more than one.
   */
  lemma AttemptIs<T(!new)>(s: Monitor<T>, s': Monitor<T>, t: nat, call: Call<T>)
    requires t in s.threads && !s.threads[t].Waiting? && Attempt(s, s', t, call)
    ensures s'.threads.Keys == s.threads.Keys && s'.capacity == s.capacity
    ensures var blocked := if call.PushCall? then |s.queue| == s.capacity else s.queue == [];
      && s'.threads[t] == (if blocked then Waiting(call) else Outside)
      && s'.queue == (if blocked then s.queue else if call.PushCall? then s.queue + [call.x] else s.queue[1..])
      && (forall u, v :: u in s.threads && v in s.threads && u != t && v != t && u != v ==>
            Untouched(s.threads, s'.threads, u) || Untouched(s.threads, s'.threads, v))
      && (forall u :: u in s.threads && u != t && !Untouched(s.threads, s'.threads, u) ==>
            && !blocked && s.threads[u].Waiting? && s.threads[u].call.PushCall? != call.PushCall?
            && s'.threads[u] == Woken(s.threads[u].call))
      && (!blocked && (exists u :: u in s.threads && s.threads[u].Waiting? && s.threads[u].call.PushCall? != call.PushCall?) ==>
            exists u :: u in s.threads && u != t && !Untouched(s.threads, s'.threads, u))
  {
    hide PopWoken, PushWoken;
    var out := s.threads[t := Outside];
    var waiting := if call.PushCall? then PopWaiting(out) else PushWaiting(out);
    var blocked := if call.PushCall? then |s.queue| == s.capacity else s.queue == [];
    if !blocked && waiting != {} {
      var w :| w in waiting && w in out && out[w].Waiting? && s'.threads == out[w := Woken(out[w].call)];
      assert !Untouched(s.threads, s'.threads, w);
    } else if !blocked {
      assert s'.threads == out;
      forall u | u in s.threads && s.threads[u].Waiting?
        ensures s.threads[u].call.PushCall? == call.PushCall?
      {
        assert u in out && u !in waiting;
      }
    }
  }

  lemma GroupOf<T(!new)>(threads: map<nat, Thread<T>>, t: nat)
    requires t in threads
    ensures t in PopWaiting(threads) <==> threads[t].Waiting? && threads[t].call.PopCall?
    ensures t in PopWoken(threads) <==> threads[t].Woken? && threads[t].call.PopCall?
    ensures t in PushWaiting(threads) <==> threads[t].Waiting? && threads[t].call.PushCall?
    ensures t in PushWoken(threads) <==> threads[t].Woken? && threads[t].call.PushCall?
  {}

  lemma NextInv<T(!new)>(s: Monitor<T>, s': Monitor<T>)
    requires Inv(s) && Next(s, s')
    ensures Inv(s')
  {
    hide PopWaiting, PopWoken, PushWaiting, PushWoken;
    if t, call :| t in s.threads && s.threads[t] == Outside && Attempt(s, s', t, call) {
      AttemptKeeps(s, s', t, call);
    } else if t :| t in s.threads && s.threads[t].Woken? && Attempt(s, s', t, s.threads[t].call) {
      AttemptKeeps(s, s', t, s.threads[t].call);
    } else {
      var t :| t in s.threads && s.threads[t].Waiting? && s' == s.(threads := s.threads[t := Woken(s.threads[t].call)]);
      Wake(s.threads, t);
    }
  }

  ghost predicate IsRun<T(!new)>(run: seq<Monitor<T>>) {
    run != [] && Init(run[0]) && forall k :: 0 <= k < |run| - 1 ==> Next(run[k], run[k + 1])
  }

  lemma {:induction false} RunInv<T(!new)>(run: seq<Monitor<T>>, k: nat)
    requires IsRun(run) && k < |run|
    ensures Inv(run[k])
  {
    if k == 0 {
      InitInv(run[0]);
    } else {
      RunInv(run, k - 1);
      NextInv(run[k - 1], run[k]);
    }
  }

  /**
   In every state of every run, with barging and spurious wake-ups: a waiting thread that
   could go on is not alone, somebody of its kind has been woken; and producers and
   consumers never all wait for each other.
   */
  lemma NobodyStuck<T(!new)>(run: seq<Monitor<T>>, k: nat)
    requires IsRun(run) && k < |run|
    ensures var s := run[k];
      && (PopWaiting(s.threads) != {} && s.queue != [] ==> PopWoken(s.threads) != {})
      && (PushWaiting(s.threads) != {} && |s.queue| < s.capacity ==> PushWoken(s.threads) != {})
      && (PopWaiting(s.threads) != {} && PushWaiting(s.threads) != {} ==>
          PopWoken(s.threads) != {} || PushWoken(s.threads) != {})
  {
    RunInv(run, k);
  }

  /** In every run the queue is first in, first out. */
  lemma FirstInFirstOut<T(!new)>(run: seq<Monitor<T>>, k: nat)
    requires IsRun(run) && k < |run|
    ensures |run[k].queue| <= run[k].capacity && run[k].pushed == run[k].popped + run[k].queue
  {
    RunInv(run, k);
  }

  /** Seen from outside, a step leaves the queue alone, appends one value, or takes the oldest. */
  lemma StepOfQueue<T(!new)>(s: Monitor<T>, s': Monitor<T>)
    requires Inv(s) && Next(s, s')
    ensures s'.capacity == s.capacity
    ensures || s'.queue == s.queue
            || (|s.queue| < s.capacity && |s'.queue| > 0 && s'.queue == s.queue + [s'.queue[|s'.queue| - 1]])
            || (s.queue != [] && s'.queue == s.queue[1..])
  {}
}
