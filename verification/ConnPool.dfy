/**
 The database connection pool: two lists, the idle connections and those in use, each
 changed only under its lock.
 */
module ConnPool {
  import opened PoolList
  import opened Widths

  datatype Conf = Conf(maxConn: Int32, maxIdle: Int32, minIdle: Int32)

  /** The limits as they are put right after reading the configuration. */
  function Normalized(c: Conf): Conf {
    var minIdle := if c.minIdle < 1 then 1 else c.minIdle;
    Conf(if c.maxConn < 1 then 1 else c.maxConn, if c.maxIdle < minIdle then ToInt32(minIdle + 1) else c.maxIdle, minIdle)
  }

  ghost predicate Sane(c: Conf) {
    1 <= c.minIdle <= c.maxIdle && 1 <= c.maxConn
  }

  /** Limits come out consistent unless the one put above the largest int wraps around. */
  lemma NormalizedIsSane(c: Conf)
    ensures Sane(Normalized(c)) <==> c.minIdle < MAX_INT32 || c.maxIdle == MAX_INT32
    ensures Sane(c) ==> Normalized(c) == c
  {}

  /** Both lists, front first; nextNew is the number the next new connection gets. */
  datatype State = State(unused: seq<Connection>, used: seq<Connection>, nextNew: Connection)

  /** How long a list is, as the int that counts its nodes says. */
  function Count(s: seq<Connection>): Int32 {
    ToInt32(|s|)
  }

  // What each locked section does.

  function AddMany(s: State, k: nat): State {
    if k == 0 then s
    else
      var t := AddMany(s, k - 1);
      State([t.nextNew] + t.unused, t.used, t.nextNew + 1)
  }

  /** The numbers to add and to delete, corrected; all arithmetic is of ints and wraps around. */
  function ToAdd(c: Conf, s: State, n: Int32): Int32 {
    if ToInt32(Count(s.unused) + n) > c.maxIdle then ToInt32(c.maxIdle - Count(s.unused)) else n
  }

  function ToDelete(c: Conf, s: State, n: Int32): Int32 {
    if ToInt32(Count(s.unused) - n) < c.minIdle then ToInt32(Count(s.unused) - c.minIdle) else n
  }

  function AddConnections(c: Conf, s: State, n: Int32): State {
    var k := ToAdd(c, s, n);
    if k <= 0 then s else AddMany(s, k)
  }

  function DeleteConnections(c: Conf, s: State, n: Int32): State {
    var k := ToDelete(c, s, n);
    if k <= 0 then s else if k >= |s.unused| then s.(unused := []) else s.(unused := s.unused[k..])
  }

  datatype Answer = Busy | Refill(n: Int32) | Got(connection: Connection)

  /** One pass of get_connection. */
  function TryGet(c: Conf, s: State): (Answer, State) {
    if Count(s.used) == c.maxConn then (Busy, s)
    else if Count(s.unused) <= c.minIdle then (Refill(ToInt32(c.minIdle - Count(s.unused) + 1)), s)
    else if s.unused == [] || s.unused[0] == 0 || s.unused[0] in s.used then
      (Got(if s.unused == [] then 0 else s.unused[0]), s)
    else (Got(s.unused[0]), State(s.unused[1..], [s.unused[0]] + s.used, s.nextNew))
  }

  /** What happens between two passes. */
  function BetweenPasses(c: Conf, s: State, a: Answer): State {
    if a.Refill? then AddConnections(c, s, a.n) else s
  }

  /** Up to n passes, nobody else around. */
  function Passes(c: Conf, s: State, n: nat): (Answer, State)
    requires n > 0
    decreases n
  {
    var (a, t) := TryGet(c, s);
    if a.Got? || n == 1 then (a, t) else Passes(c, BetweenPasses(c, t, a), n - 1)
  }

  lemma MorePasses(c: Conf, s: State, n: nat)
    requires n > 0
    ensures var (a, t) := TryGet(c, s);
      && Passes(c, s, n) == (if a.Got? || n == 1 then (a, t) else Passes(c, BetweenPasses(c, t, a), n - 1))
      && (!a.Got? ==> t == s)
  {}

  function Recycle(c: Conf, s: State, connection: Connection): State {
    var k := IndexOf(s.used, connection);
    if connection == 0 || k == |s.used| then s
    else if Count(s.unused) == c.maxIdle then s.(used := Without(s.used, k))
    else if connection in s.unused then s
    else State([connection] + s.unused, Without(s.used, k), s.nextNew)
  }

  // The pool object.

  class SqlDBPool {
    const conf: Conf
    const unusedPool: DBPoolList
    const usedPool: DBPoolList
    var nextNew: Connection

    ghost predicate Valid()
      reads this, unusedPool, usedPool, unusedPool.nodes, usedPool.nodes
    {
      && unusedPool != usedPool && unusedPool.Valid() && usedPool.Valid() && Apart(unusedPool.nodes, usedPool.nodes)
      && WellFormed(Abs())
    }

    ghost function Abs(): State
      reads this, unusedPool, usedPool
    {
      State(unusedPool.Contents, usedPool.Contents, nextNew)
    }

    constructor (conf: Conf)
      requires Sane(conf)
      ensures Valid() && this.conf == conf && Abs() == AddConnections(conf, State([], [], 1), conf.minIdle)
      ensures fresh(unusedPool) && fresh(usedPool)
    {
      this.conf := conf;
      unusedPool := new DBPoolList();
      usedPool := new DBPoolList();
      nextNew := 1;
      new;
      AddConnection(conf.minIdle);
    }

    /** Opens one connection and puts it in front of the idle ones. */
    method OpenOne()
      requires Valid()
      modifies this, unusedPool
      ensures Valid() && unusedPool.nodeNumbers == old(unusedPool.nodeNumbers) + 1
      ensures Abs() == Opened(old(Abs()))
      ensures forall n :: n in unusedPool.nodes ==> n in old(unusedPool.nodes) || fresh(n)
    {
      var mysql := nextNew;
      nextNew := nextNew + 1;
      ghost var added := unusedPool.AddConnection(mysql);
      OpenedIsWellFormed(old(Abs()));
    }

    method AddConnection(addNumbers0: Int32)
      requires Valid()
      modifies this, unusedPool
      ensures Valid() && Abs() == AddConnections(conf, old(Abs()), addNumbers0)
      ensures forall n :: n in unusedPool.nodes ==> n in old(unusedPool.nodes) || fresh(n)
    {
      hide AddMany, WellFormed;
      var addNumbers: int := addNumbers0;
      var count: int := ToInt32(unusedPool.nodeNumbers);
      if ToInt32(count + addNumbers) > conf.maxIdle {
        addNumbers := ToInt32(conf.maxIdle - count);
      }
      ghost var before := Abs();
      AddStep(before, 0);
      var i: int := 0;
      while i < addNumbers
        invariant Valid() && 0 <= i && (addNumbers > 0 ==> i <= addNumbers) && (addNumbers <= 0 ==> i == 0)
        invariant Abs() == AddMany(before, i)
        invariant forall n :: n in unusedPool.nodes ==> n in old(unusedPool.nodes) || fresh(n)
      {
        AddStep(before, i);
        OpenOne();
        i := i + 1;
      }
    }

    method DeleteConnection(deleteNumbers0: Int32)
      requires Valid() && Sane(conf)
      modifies unusedPool, unusedPool.nodes
      ensures Valid() && Abs() == DeleteConnections(conf, old(Abs()), deleteNumbers0)
    {
      hide Valid;
      var deleteNumbers: int := deleteNumbers0;
      SameCount();
      DeleteWithin(conf, Abs(), deleteNumbers);
      var count: int := ToInt32(unusedPool.nodeNumbers);
      if ToInt32(count - deleteNumbers) < conf.minIdle {
        deleteNumbers := ToInt32(count - conf.minIdle);
      }
      DropHeads(deleteNumbers);
    }

    lemma SameCount()
      requires Valid()
      ensures unusedPool.nodeNumbers == |Abs().unused|
    {}

    /** Deletes that many nodes from the front; none for a number that is not positive. */
    method DropHeads(n: int)
      requires Valid() && n <= |Abs().unused|
      modifies unusedPool, unusedPool.nodes
      ensures Valid() && Abs() == old(Abs()).(unused := old(Abs()).unused[if n > 0 then n else 0..])
    {
      hide WellFormed;
      ghost var before := Abs();
      var i := 0;
      while i < n
        invariant Valid() && 0 <= i <= |before.unused| && (i <= n || i == 0)
        invariant unusedPool.nodes == old(unusedPool.nodes)[i..]
        invariant Abs() == before.(unused := before.unused[i..])
      {
        DropHead();
        i := i + 1;
      }
    }

    method DropHead()
      requires Valid() && unusedPool.nodes != []
      modifies unusedPool, unusedPool.nodes
      ensures Valid() && unusedPool.nodes == old(unusedPool.nodes)[1..]
      ensures Abs() == old(Abs()).(unused := old(Abs()).unused[1..])
    {
      var head := unusedPool.next;
      unusedPool.DeleteNode(head);
    }

    /** One pass of get_connection, up to its return or its next try. */
    method Try() returns (a: Answer)
      requires Valid() && Sane(conf)
      modifies unusedPool, usedPool, unusedPool.nodes
      ensures Valid() && (a, Abs()) == TryGet(conf, old(Abs()))
      ensures !a.Got? ==> unusedPool.nodes == old(unusedPool.nodes)
    {
      hide WellFormed, IndexOf;
      ghost var before := Abs();
      TryKeeps(conf, before);
      if ToInt32(usedPool.nodeNumbers) == conf.maxConn {
        return Busy;
      }
      var count: int := ToInt32(unusedPool.nodeNumbers);
      if count <= conf.minIdle {
        return Refill(ToInt32(conf.minIdle - count + 1));
      }
      var c := unusedPool.GetConnection();
      HeadIndex(before.unused);
      c := unusedPool.PopConnection2(usedPool, c);
      a := Got(c);
    }

    /**
     get_connection with nobody else around, given up after so many passes: between two of
     them it sleeps if all connections are in use, and adds what the idle list lacks.
     */
    method GetConnection(passes: nat) returns (a: Answer)
      requires Valid() && Sane(conf) && passes > 0
      modifies this, unusedPool, usedPool, unusedPool.nodes
      ensures Valid() && (a, Abs()) == Passes(conf, old(Abs()), passes)
    {
      hide WellFormed, TryGet, AddConnections, AddMany;
      a := Try();
      MorePasses(conf, old(Abs()), passes);
      var left := passes - 1;
      while !a.Got? && left > 0
        invariant Valid() && left < passes
        invariant !a.Got? ==> forall n :: n in unusedPool.nodes ==> n in old(unusedPool.nodes) || fresh(n)
        invariant !a.Got? ==> TryGet(conf, Abs()) == (a, Abs())
        invariant if a.Got? then (a, Abs()) == Passes(conf, old(Abs()), passes)
                  else Passes(conf, Abs(), left + 1) == Passes(conf, old(Abs()), passes)
      {
        ghost var s := Abs();
        if a.Refill? {
          AddConnection(a.n);
        }
        ghost var t := Abs();
        MorePasses(conf, s, left + 1);
        assert forall i :: 0 <= i < |unusedPool.nodes| ==>
          unusedPool.nodes[i] in old(unusedPool.nodes) || fresh(unusedPool.nodes[i]);
        a := Try();
        MorePasses(conf, t, left);
        left := left - 1;
      }
      MorePasses(conf, Abs(), 1);
    }

    method RecycleConnection(connection: Connection)
      requires Valid()
      modifies unusedPool, usedPool, usedPool.nodes
      ensures Valid() && Abs() == Recycle(conf, old(Abs()), connection)
    {
      hide WellFormed, IndexOf;
      RecycleKeeps(conf, Abs(), connection);
      var b := usedPool.IfExist(connection);
      if !b {
        return;
      }
      if ToInt32(unusedPool.nodeNumbers) == conf.maxIdle {
        usedPool.DeleteConnection(connection);
        return;
      }
      var c := usedPool.PopConnection2(unusedPool, connection);
    }
  }

  /** One more idle connection. */
  function Opened(s: State): State {
    State([s.nextNew] + s.unused, s.used, s.nextNew + 1)
  }

  lemma AddStep(s: State, i: nat)
    ensures AddMany(s, 0) == s && AddMany(s, i + 1) == Opened(AddMany(s, i))
  {}

  lemma OpenedIsWellFormed(s: State)
    requires WellFormed(s)
    ensures WellFormed(Opened(s))
  {}

  // The invariant.

  ghost predicate NoDuplicates(s: seq<Connection>) {
    forall i, j :: 0 <= i < j < |s| ==> s[i] != s[j]
  }

  ghost predicate Real(s: seq<Connection>, limit: Connection) {
    forall i :: 0 <= i < |s| ==> 0 < s[i] < limit
  }

  ghost predicate Disjoint(a: seq<Connection>, b: seq<Connection>) {
    forall i, j :: 0 <= i < |a| && 0 <= j < |b| ==> a[i] != b[j]
  }

  /** Every connection is real, older than the next one, and in one list once. */
  ghost predicate WellFormed(s: State) {
    && 0 < s.nextNew && Real(s.unused, s.nextNew) && Real(s.used, s.nextNew)
    && NoDuplicates(s.unused) && NoDuplicates(s.used) && Disjoint(s.unused, s.used)
  }

  lemma {:induction false} HeadIndex(s: seq<Connection>)
    ensures s != [] ==> IndexOf(s, s[0]) == 0 && Without(s, 0) == s[1..]
  {}

  lemma TryKeeps(c: Conf, s: State)
    requires WellFormed(s)
    ensures WellFormed(TryGet(c, s).1)
  {}

  lemma RecycleKeeps(c: Conf, s: State, connection: Connection)
    requires WellFormed(s)
    ensures WellFormed(Recycle(c, s, connection))
  {
    hide IndexOf;
    var k := IndexOf(s.used, connection);
    if k < |s.used| {
      UsedWithout(s, k, Without(s.used, k));
    }
  }

  lemma UsedWithout(s: State, k: nat, less: seq<Connection>)
    requires WellFormed(s) && k < |s.used| && |less| == |s.used| - 1
    requires forall i :: 0 <= i < k ==> less[i] == s.used[i]
    requires forall i :: k <= i < |less| ==> less[i] == s.used[i + 1]
    ensures Real(less, s.nextNew) && NoDuplicates(less) && Disjoint(s.unused, less) && Disjoint([s.used[k]], less)
  {}

  ghost predicate Bounded(c: Conf, s: State) {
    c.minIdle <= |s.unused| <= c.maxIdle && |s.used| <= c.maxConn
  }

  lemma {:induction false} AddManySizes(s: State, k: nat)
    ensures var t := AddMany(s, k);
      && t.used == s.used && |t.unused| == |s.unused| + k
      && (WellFormed(s) ==> WellFormed(t))
  {
    if k > 0 {
      AddManySizes(s, k - 1);
      AddStep(s, k - 1);
      if WellFormed(s) {
        OpenedIsWellFormed(AddMany(s, k - 1));
      }
    }
  }

  /**
   At the lower limit a refill helps exactly when the limits differ; with equal limits below
   the largest int it adds nothing.
   */
  lemma RefillHelps(c: Conf, s: State)
    requires Sane(c) && Bounded(c, s) && |s.unused| == c.minIdle && |s.used| < c.maxConn && WellFormed(s)
    ensures TryGet(c, s) == (Refill(1), s)
    ensures TryGet(c, AddConnections(c, s, 1)).0.Got? <==> c.minIdle < c.maxIdle
    ensures c.minIdle == c.maxIdle < MAX_INT32 ==> AddConnections(c, s, 1) == s
  {
    AddManySizes(s, 1);
  }

  /** What get never gets out of by itself: all in use, or equal limits and the idle list at them. */
  ghost predicate Stuck(c: Conf, s: State) {
    || |s.used| == c.maxConn
    || (c.minIdle == c.maxIdle && (|s.unused| == c.minIdle || |s.unused| == c.minIdle + 1 == TWO_31))
  }

  lemma StuckStays(c: Conf, s: State)
    requires Sane(c) && Stuck(c, s)
    ensures var (a, t) := TryGet(c, s); !a.Got? && Stuck(c, BetweenPasses(c, t, a))
  {
    AddManySizes(s, 1);
  }

  lemma {:induction false} StuckNeverGets(c: Conf, s: State, n: nat)
    requires Sane(c) && Stuck(c, s) && n > 0
    ensures !Passes(c, s, n).0.Got?
    decreases n
  {
    hide TryGet, BetweenPasses, Stuck;
    StuckStays(c, s);
    if n > 1 {
      StuckNeverGets(c, BetweenPasses(c, TryGet(c, s).1, TryGet(c, s).0), n - 1);
    }
  }

  /**
   Alone, get_connection comes back if and only if there is room and the idle list is above
   its lower limit or can be brought there; and then it does so after at most one refill.
   */
  lemma {:induction false} AloneReturnsIff(c: Conf, s: State)
    requires Sane(c) && Bounded(c, s) && WellFormed(s)
    ensures (exists n: nat :: n > 0 && Passes(c, s, n).0.Got?) <==> Passes(c, s, 2).0.Got?
    ensures Passes(c, s, 2).0.Got? <==>
      |s.used| < c.maxConn && (|s.unused| > c.minIdle || c.minIdle < c.maxIdle)
  {
    if |s.used| < c.maxConn && (|s.unused| > c.minIdle || c.minIdle < c.maxIdle) {
      FirstTry(c, s);
    } else {
      forall n: nat | n > 0
        ensures !Passes(c, s, n).0.Got?
      {
        StuckNeverGets(c, s, n);
      }
    }
  }

  lemma GetsAboveLimit(c: Conf, s: State)
    requires Sane(c) && Bounded(c, s) && |s.used| < c.maxConn && |s.unused| > c.minIdle
    ensures TryGet(c, s).0.Got?
  {}

  /** The first pass hands out a connection, or asks for one more, after which the second pass does. */
  lemma {:induction false} FirstTry(c: Conf, s: State)
    requires Sane(c) && Bounded(c, s) && |s.used| < c.maxConn && WellFormed(s)
    requires |s.unused| > c.minIdle || c.minIdle < c.maxIdle
    ensures Passes(c, s, 2) ==
      if |s.unused| == c.minIdle then TryGet(c, AddConnections(c, s, 1)) else TryGet(c, s)
    ensures Passes(c, s, 2).0.Got?
  {
    hide TryGet, AddConnections, Passes, WellFormed;
    MorePasses(c, s, 2);
    if |s.unused| == c.minIdle {
      RefillHelps(c, s);
      MorePasses(c, AddConnections(c, s, 1), 1);
    } else {
      GetsAboveLimit(c, s);
    }
  }

  /** The clamp keeps the idle limit exactly when the sum it tests fits in an int. */
  lemma ClampHoldsIff(c: Conf, s: State, n: Int32)
    requires Sane(c) && |s.unused| <= c.maxIdle
    ensures |AddConnections(c, s, n).unused| <= c.maxIdle <==> |s.unused| + n <= MAX_INT32
  {
    hide AddMany;
    var k := ToAdd(c, s, n);
    if k > 0 {
      AddManySizes(s, k);
    }
  }

  /** One idle connection and the largest int: the sum is negative, and every one of them is opened. */
  lemma ClampMissed(c: Conf, s: State)
    requires Sane(c) && |s.unused| == 1
    ensures |AddConnections(c, s, MAX_INT32).unused| == 0x8000_0000 > c.maxIdle
  {
    hide AddMany;
    AddManySizes(s, MAX_INT32);
  }

  /** A deletion never takes what the lower limit asks for, whatever wraps around. */
  lemma DeleteWithin(c: Conf, s: State, n: Int32)
    requires Sane(c)
    ensures ToDelete(c, s, n) <= 0 || ToDelete(c, s, n) <= |s.unused| - c.minIdle
  {}

  // What each section does, in plain terms.

  function Max(a: int, b: int): int {
    if a < b then b else a
  }

  function Min(a: int, b: int): int {
    if a < b then a else b
  }

  /** Each limit is as configured, or the least it may be; the upper idle limit, or one more than the lower. */
  lemma NormalizedIs(c: Conf)
    ensures Normalized(c).maxConn == Max(1, c.maxConn) && Normalized(c).minIdle == Max(1, c.minIdle)
    ensures var least := Max(1, c.minIdle);
      least < MAX_INT32 ==> Normalized(c).maxIdle == if c.maxIdle < least then least + 1 else c.maxIdle
  {}

  /** An addition whose sum fits opens so many new connections, no more than there is room for, in front. */
  lemma AddIs(c: Conf, s: State, n: Int32)
    requires Sane(c) && |s.unused| <= c.maxIdle && |s.unused| + n <= MAX_INT32
    ensures var t, k := AddConnections(c, s, n), Max(0, Min(n, c.maxIdle - |s.unused|));
      && t.used == s.used && t.nextNew == s.nextNew + k
      && |t.unused| == k + |s.unused| && t.unused[k..] == s.unused
      && forall i :: 0 <= i < k ==> t.unused[i] == s.nextNew + (k - 1 - i)
  {
    hide AddMany;
    var k, sum := ToAdd(c, s, n), |s.unused| + n;
    assert ToInt32(|s.unused|) == |s.unused| && ToInt32(sum) == sum;
    assert ToInt32(c.maxIdle - |s.unused|) == c.maxIdle - |s.unused|;
    hide ToInt32;
    if k > 0 {
      AddManyIs(s, k);
    }
  }

  lemma {:induction false} AddManyIs(s: State, k: nat)
    ensures var t := AddMany(s, k);
      && t.used == s.used && t.nextNew == s.nextNew + k
      && |t.unused| == k + |s.unused| && t.unused[k..] == s.unused
      && forall i :: 0 <= i < k ==> t.unused[i] == s.nextNew + (k - 1 - i)
  {
    if k > 0 {
      AddManyIs(s, k - 1);
      var u := AddMany(s, k - 1);
      assert ([u.nextNew] + u.unused)[k..] == u.unused[k - 1..];
    }
  }

  /**
   A deletion takes so many connections from the front, as far as the lower limit lets it.
   Asked for so negative a number that the difference wraps around, it takes all it can.
   */
  lemma DeleteIs(c: Conf, s: State, n: Int32)
    requires Sane(c) && c.minIdle <= |s.unused| <= MAX_INT32
    ensures var spare := |s.unused| - c.minIdle;
      var k := if n > 0 then Min(n, spare) else if |s.unused| - n > MAX_INT32 then spare else 0;
      DeleteConnections(c, s, n) == s.(unused := s.unused[k..])
  {
    var d, spare := |s.unused| - n, |s.unused| - c.minIdle;
    assert ToInt32(|s.unused|) == |s.unused| && ToInt32(spare) == spare;
    assert ToInt32(d) == if d > MAX_INT32 then d - TWO_32 else d;
    hide ToInt32;
  }

  /** A pass hands out the front of the idle list, unless all are in use or the list is at its lower limit. */
  lemma PassIs(c: Conf, s: State)
    requires Sane(c) && Inv(c, s) && |s.unused| <= MAX_INT32
    ensures TryGet(c, s) ==
      if |s.used| == c.maxConn then (Busy, s)
      else if |s.unused| == c.minIdle then (Refill(1), s)
      else (Got(s.unused[0]), State(s.unused[1..], [s.unused[0]] + s.used, s.nextNew))
  {}

  /** What comes back leaves the used list where it was in it, and goes to the front of the idle one if that is not full. */
  lemma RecycleIs(c: Conf, s: State, connection: Connection)
    requires WellFormed(s) && |s.unused| <= c.maxIdle
    ensures connection !in s.used ==> Recycle(c, s, connection) == s
    ensures forall k :: 0 <= k < |s.used| && s.used[k] == connection ==>
      Recycle(c, s, connection) ==
        State(if |s.unused| == c.maxIdle then s.unused else [connection] + s.unused,
              s.used[..k] + s.used[k + 1..], s.nextNew)
  {
    hide IndexOf;
    var i := IndexOf(s.used, connection);
    forall k | 0 <= k < |s.used| && s.used[k] == connection
      ensures k == i
    {
    }
  }

  // Runs: any number of clients, and maintenance with any ints whatever.

  /** holding says which clients have which connections, as far as they know. */
  datatype System = System(pool: State, holding: set<(nat, Connection)>)

  datatype Action = Add(n: Int32) | Delete(n: Int32) | Take(client: nat) | Return(client: nat, connection: Connection)

  ghost predicate Start(c: Conf, y: System) {
    y.pool == AddConnections(c, State([], [], 1), c.minIdle) && y.holding == {}
  }

  ghost predicate Get(c: Conf, y: System, y': System, client: nat) {
    var (a, pool) := TryGet(c, y.pool);
    y' == System(pool, if a.Got? then y.holding + {(client, a.connection)} else y.holding)
  }

  /** The pool cannot tell clients apart: anyone can give back anything. */
  ghost predicate GiveBack(c: Conf, y: System, y': System, client: nat, connection: Connection) {
    y' == System(Recycle(c, y.pool, connection), y.holding - {(client, connection)})
  }

  ghost predicate Next(c: Conf, y: System, a: Action, y': System) {
    match a
    case Add(n) => y' == y.(pool := AddConnections(c, y.pool, n))
    case Delete(n) => y' == y.(pool := DeleteConnections(c, y.pool, n))
    case Take(client) => Get(c, y, y', client)
    case Return(client, connection) => GiveBack(c, y, y', client, connection)
  }

  /** What holds whatever numbers maintenance is called with and whoever gives back what. */
  ghost predicate Inv(c: Conf, s: State) {
    WellFormed(s) && c.minIdle <= |s.unused| && |s.used| <= c.maxConn
  }

  ghost function Elements(s: seq<Connection>): set<Connection> {
    set x | x in s
  }

  ghost function Held(holding: set<(nat, Connection)>): set<Connection> {
    set p | p in holding :: p.1
  }

  ghost predicate OneHolder(holding: set<(nat, Connection)>) {
    forall p, q :: p in holding && q in holding && p.1 == q.1 ==> p == q
  }

  /** Every connection in use has exactly one holder, and nothing else has any. */
  ghost predicate Exclusive(y: System) {
    OneHolder(y.holding) && Elements(y.pool.used) == Held(y.holding)
  }

  /** The addition that an action asks for fits in an int. */
  ghost predicate Fits(y: System, a: Action) {
    a.Add? ==> |y.pool.unused| + a.n <= MAX_INT32
  }

  /** Nobody gives back a connection that is in use by somebody else. */
  ghost predicate Fair(y: System, a: Action) {
    a.Return? && a.connection in y.pool.used ==> (a.client, a.connection) in y.holding
  }

  lemma AddKeeps(c: Conf, s: State, n: Int32)
    requires Sane(c) && Inv(c, s)
    ensures Inv(c, AddConnections(c, s, n)) && AddConnections(c, s, n).used == s.used
  {
    hide WellFormed, AddMany;
    var k := ToAdd(c, s, n);
    if k > 0 {
      AddManySizes(s, k);
    }
  }

  /** Deletion never goes below the lower limit, even where the difference wraps around. */
  lemma DeleteKeeps(c: Conf, s: State, n: Int32)
    requires Sane(c) && Inv(c, s)
    ensures var t := DeleteConnections(c, s, n); Inv(c, t) && |t.unused| <= |s.unused| && t.used == s.used
  {
    hide WellFormed, ToDelete;
    var k := ToDelete(c, s, n);
    DeleteWithin(c, s, n);
    if k > 0 {
      DropKeeps(s, k);
    }
  }

  lemma DropKeeps(s: State, k: nat)
    requires WellFormed(s) && k <= |s.unused|
    ensures WellFormed(s.(unused := s.unused[k..]))
  {}

  lemma GetKeeps(c: Conf, s: State)
    requires Sane(c) && Inv(c, s)
    ensures var (a, t) := TryGet(c, s);
      && Inv(c, t) && |t.unused| <= |s.unused|
      && (a.Got? ==> a.connection !in s.used && Elements(t.used) == Elements(s.used) + {a.connection})
      && (!a.Got? ==> t == s)
  {
    TryKeeps(c, s);
    if s.unused != [] {
      assert Elements([s.unused[0]] + s.used) == Elements(s.used) + {s.unused[0]};
    }
  }

  /** Whatever happens to the idle list, a recycled connection is no longer in use. */
  lemma RecycleUsed(c: Conf, s: State, connection: Connection)
    requires WellFormed(s)
    ensures var t := Recycle(c, s, connection);
      && Elements(t.used) == Elements(s.used) - {connection}
      && |t.used| <= |s.used| && |s.unused| <= |t.unused| && (|s.unused| <= c.maxIdle ==> |t.unused| <= c.maxIdle)
  {
    hide IndexOf, Elements;
    var k := IndexOf(s.used, connection);
    assert connection in Elements(s.used) <==> k < |s.used| by {
      ElementsAre(s.used, connection);
    }
    if k < |s.used| {
      ElementsWithout(s.used, k);
    } else {
      assert Elements(s.used) - {connection} == Elements(s.used);
    }
  }

  lemma ElementsAre(s: seq<Connection>, x: Connection)
    ensures x in Elements(s) <==> x in s
  {}

  lemma ElementsWithout(s: seq<Connection>, k: nat)
    requires k < |s| && forall i, j :: 0 <= i < j < |s| ==> s[i] != s[j]
    ensures Elements(Without(s, k)) == Elements(s) - {s[k]}
  {
    assert s == s[..k] + [s[k]] + s[k + 1..];
  }

  ghost predicate IsRun(c: Conf, run: seq<System>, acts: seq<Action>) {
    && |run| == |acts| + 1 && Start(c, run[0])
    && forall k :: 0 <= k < |acts| ==> Next(c, run[k], acts[k], run[k + 1])
  }

  lemma StepKeeps(c: Conf, y: System, a: Action, y': System)
    requires Sane(c) && Inv(c, y.pool) && Next(c, y, a, y')
    ensures Inv(c, y'.pool)
    ensures |y.pool.unused| <= c.maxIdle ==> (|y'.pool.unused| <= c.maxIdle <==> Fits(y, a))
  {
    hide WellFormed, AddMany, Elements, AddConnections, DeleteConnections, Recycle, TryGet;
    match a
    case Add(n) =>
      AddKeeps(c, y.pool, n);
      if |y.pool.unused| <= c.maxIdle {
        ClampHoldsIff(c, y.pool, n);
      }
    case Delete(n) =>
      DeleteKeeps(c, y.pool, n);
    case Take(client) =>
      GetKeeps(c, y.pool);
    case Return(client, connection) =>
      RecycleKeeps(c, y.pool, connection);
      RecycleUsed(c, y.pool, connection);
  }

  lemma HeldBy(holding: set<(nat, Connection)>, x: Connection)
    ensures x in Held(holding) <==> exists p :: p in holding && p.1 == x
  {}

  lemma HoldOneMore(holding: set<(nat, Connection)>, p: (nat, Connection))
    requires OneHolder(holding) && p.1 !in Held(holding)
    ensures OneHolder(holding + {p}) && Held(holding + {p}) == Held(holding) + {p.1}
  {
    forall q | q in holding
      ensures q.1 != p.1
    {
      HeldBy(holding, p.1);
    }
  }

  lemma HoldOneLess(holding: set<(nat, Connection)>, p: (nat, Connection))
    requires OneHolder(holding)
    ensures OneHolder(holding - {p})
    ensures Held(holding - {p}) == if p in holding then Held(holding) - {p.1} else Held(holding)
  {
    if p !in holding {
      assert holding - {p} == holding;
    } else {
      forall x
        ensures x in Held(holding - {p}) <==> x in Held(holding) - {p.1}
      {
        HeldBy(holding - {p}, x);
        HeldBy(holding, x);
        if q :| q in holding && q.1 == x && x != p.1 {
          assert q in holding - {p};
        }
      }
    }
  }

  /** One step keeps a single holder for each connection in use exactly when it is fair. */
  lemma StepIsFairIff(c: Conf, y: System, a: Action, y': System)
    requires Sane(c) && Inv(c, y.pool) && Exclusive(y) && Next(c, y, a, y')
    ensures Exclusive(y') <==> Fair(y, a)
  {
    hide Inv, AddMany, Elements, Held, OneHolder, AddConnections, DeleteConnections, Recycle, TryGet;
    match a
    case Add(n) =>
      AddKeeps(c, y.pool, n);
    case Delete(n) =>
      DeleteKeeps(c, y.pool, n);
    case Take(client) =>
      GetKeeps(c, y.pool);
      var got := TryGet(c, y.pool).0;
      if got.Got? {
        ElementsAre(y.pool.used, got.connection);
        HoldOneMore(y.holding, (client, got.connection));
      }
    case Return(client, x) =>
      var p := (client, x);
      assert WellFormed(y.pool) by {
        InvIsWellFormed(c, y.pool);
      }
      RecycleUsed(c, y.pool, x);
      ElementsAre(y.pool.used, x);
      HoldOneLess(y.holding, p);
      HeldBy(y.holding, x);
      if x !in y.pool.used {
        assert p !in y.holding;
        assert Held(y.holding) - {x} == Held(y.holding);
      }
  }

  lemma InvIsWellFormed(c: Conf, s: State)
    requires Inv(c, s)
    ensures WellFormed(s)
  {}

  lemma {:induction false} RunInv(c: Conf, run: seq<System>, acts: seq<Action>, k: nat)
    requires Sane(c) && IsRun(c, run, acts) && k < |run|
    ensures Inv(c, run[k].pool)
  {
    if k == 0 {
      AddManySizes(State([], [], 1), c.minIdle);
    } else {
      RunInv(c, run, acts, k - 1);
      StepKeeps(c, run[k - 1], acts[k - 1], run[k]);
    }
  }

  lemma {:induction false} StaysWithin(c: Conf, run: seq<System>, acts: seq<Action>, k: nat)
    requires Sane(c) && IsRun(c, run, acts) && k < |run| && forall i :: 0 <= i < k ==> Fits(run[i], acts[i])
    ensures |run[k].pool.unused| <= c.maxIdle
  {
    if k == 0 {
      AddManySizes(State([], [], 1), c.minIdle);
    } else {
      StaysWithin(c, run, acts, k - 1);
      RunInv(c, run, acts, k - 1);
      StepKeeps(c, run[k - 1], acts[k - 1], run[k]);
    }
  }

  /** A run keeps the idle limit throughout exactly when every addition it is asked for fits in an int. */
  lemma IdleLimitIff(c: Conf, run: seq<System>, acts: seq<Action>)
    requires Sane(c) && IsRun(c, run, acts)
    ensures (forall k :: 0 <= k < |run| ==> |run[k].pool.unused| <= c.maxIdle)
       <==> (forall k :: 0 <= k < |acts| ==> Fits(run[k], acts[k]))
  {
    if forall k :: 0 <= k < |acts| ==> Fits(run[k], acts[k]) {
      forall k | 0 <= k < |run|
        ensures |run[k].pool.unused| <= c.maxIdle
      {
        StaysWithin(c, run, acts, k);
      }
    }
    if forall k :: 0 <= k < |run| ==> |run[k].pool.unused| <= c.maxIdle {
      forall k | 0 <= k < |acts|
        ensures Fits(run[k], acts[k])
      {
        RunInv(c, run, acts, k);
        StepKeeps(c, run[k], acts[k], run[k + 1]);
      }
    }
  }

  lemma {:induction false} StaysExclusive(c: Conf, run: seq<System>, acts: seq<Action>, k: nat)
    requires Sane(c) && IsRun(c, run, acts) && k < |run| && forall i :: 0 <= i < k ==> Fair(run[i], acts[i])
    ensures Exclusive(run[k])
  {
    hide Exclusive, Fair, Inv;
    if k == 0 {
      NobodyHolds(c, run[0]);
    } else {
      StaysExclusive(c, run, acts, k - 1);
      RunInv(c, run, acts, k - 1);
      StepIsFairIff(c, run[k - 1], acts[k - 1], run[k]);
    }
  }

  lemma NobodyHolds(c: Conf, y: System)
    requires Sane(c) && Start(c, y)
    ensures Exclusive(y)
  {
    AddManySizes(State([], [], 1), c.minIdle);
  }

  /**
   In a run every connection in use has exactly one holder throughout, and nothing else has
   any, exactly when nobody ever gives back what is in use by somebody else.
   */
  lemma ExclusiveIff(c: Conf, run: seq<System>, acts: seq<Action>)
    requires Sane(c) && IsRun(c, run, acts)
    ensures (forall k :: 0 <= k < |run| ==> Exclusive(run[k]))
       <==> (forall k :: 0 <= k < |acts| ==> Fair(run[k], acts[k]))
  {
    hide Exclusive, Fair, Inv;
    if forall k :: 0 <= k < |acts| ==> Fair(run[k], acts[k]) {
      forall k | 0 <= k < |run|
        ensures Exclusive(run[k])
      {
        StaysExclusive(c, run, acts, k);
      }
    }
    if forall k :: 0 <= k < |run| ==> Exclusive(run[k]) {
      forall k | 0 <= k < |acts|
        ensures Fair(run[k], acts[k])
      {
        RunInv(c, run, acts, k);
        StepIsFairIff(c, run[k], acts[k], run[k + 1]);
      }
    }
  }

  /**
   In every state of every run the two lists are disjoint and free of duplicates; as long as
   every addition so far fits in an int both stay within their limits, and as long as every
   return so far was fair the connections in use are exactly those that some client holds.
   */
  lemma PoolIsSafe(c: Conf, run: seq<System>, acts: seq<Action>, k: nat)
    requires Sane(c) && IsRun(c, run, acts) && k < |run|
    ensures WellFormed(run[k].pool)
    ensures (forall i :: 0 <= i < k ==> Fits(run[i], acts[i])) ==> Bounded(c, run[k].pool)
    ensures (forall i :: 0 <= i < k ==> Fair(run[i], acts[i])) ==> Exclusive(run[k])
  {
    RunInv(c, run, acts, k);
    if forall i :: 0 <= i < k ==> Fits(run[i], acts[i]) {
      StaysWithin(c, run, acts, k);
    }
    if forall i :: 0 <= i < k ==> Fair(run[i], acts[i]) {
      StaysExclusive(c, run, acts, k);
    }
  }

  /** With fair clients no connection is ever handed out while somebody still holds it. */
  lemma NoSecondHolder(c: Conf, run: seq<System>, acts: seq<Action>, k: nat)
    requires Sane(c) && IsRun(c, run, acts) && k < |acts| && acts[k].Take?
    requires forall i :: 0 <= i < k ==> Fair(run[i], acts[i])
    ensures TryGet(c, run[k].pool).0.Got? ==> TryGet(c, run[k].pool).0.connection !in Held(run[k].holding)
  {
    hide Held, TryGet;
    RunInv(c, run, acts, k);
    StaysExclusive(c, run, acts, k);
    GetKeeps(c, run[k].pool);
    if TryGet(c, run[k].pool).0.Got? {
      ElementsAre(run[k].pool.used, TryGet(c, run[k].pool).0.connection);
    }
  }

  /**
   Fairness is needed: whoever gives back a connection in use puts it in front, and unless
   the idle list was full the very next get hands it out again.
   */
  lemma GivenBackComesNext(c: Conf, s: State, connection: Connection)
    requires Sane(c) && WellFormed(s) && Bounded(c, s) && connection in s.used
    ensures TryGet(c, Recycle(c, s, connection)).0 == Got(connection) <==> |s.unused| < c.maxIdle
  {
    RecycleKeeps(c, s, connection);
    RecycleIs(c, s, connection);
    var k :| 0 <= k < |s.used| && s.used[k] == connection;
    hide Recycle, TryGet, ToInt32;
    PassIs(c, Recycle(c, s, connection));
  }
}
