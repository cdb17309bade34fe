/**
 The linked list of database connections. A connection is a number, 0 being the null
 pointer; a node belongs to at most one list.
 */
module PoolList {

  type Connection = nat

  class DBPoolNode {
    var connection: Connection
    var next: DBPoolNode?

    constructor (conn: Connection)
      ensures connection == conn && next == null
    {
      connection, next := conn, null;
    }
  }

  ghost predicate Apart(a: seq<DBPoolNode>, b: seq<DBPoolNode>) {
    forall i, j :: 0 <= i < |a| && 0 <= j < |b| ==> a[i] != b[j]
  }

  function Without<T>(s: seq<T>, k: nat): seq<T>
    requires k < |s|
  {
    s[..k] + s[k + 1..]
  }

  /** Exactly the element at k is gone, the others keep their order. */
  lemma WithoutIs<T>(s: seq<T>, k: nat)
    requires k < |s|
    ensures |Without(s, k)| == |s| - 1
    ensures forall i :: 0 <= i < |s| && i != k ==> Without(s, k)[if i < k then i else i - 1] == s[i]
  {}

  /** The first place of a connection, or the length. */
  function IndexOf(s: seq<Connection>, c: Connection): (k: nat)
    ensures k <= |s| && (k < |s| ==> s[k] == c) && (forall i :: 0 <= i < k ==> s[i] != c)
    ensures k < |s| <==> c in s
  {
    if s == [] then 0 else if s[0] == c then 0 else 1 + IndexOf(s[1..], c)
  }

  class DBPoolList {
    var nodeNumbers: int
    var next: DBPoolNode?
    ghost var nodes: seq<DBPoolNode>
    // The connections of the nodes, front first.
    ghost var Contents: seq<Connection>

    /** The links visit exactly the nodes, once each, in order. */
    ghost predicate Valid()
      reads this, nodes
    {
      && nodeNumbers == |nodes| == |Contents|
      && (forall i {:trigger nodes[i].connection} :: 0 <= i < |nodes| ==> nodes[i].connection == Contents[i])
      && next == (if nodes == [] then null else nodes[0])
      && (forall i {:trigger nodes[i].next} :: 0 <= i < |nodes| - 1 ==> nodes[i].next == nodes[i + 1])
      && (nodes != [] ==> nodes[|nodes| - 1].next == null)
      && (forall i, j :: 0 <= i < j < |nodes| ==> nodes[i] != nodes[j])
    }

    constructor ()
      ensures Valid() && nodes == [] && Contents == []
    {
      nodeNumbers, next, nodes, Contents := 0, null, [], [];
    }

    /** In an empty list nothing exists; in any other the null connection does. */
    method IfExist(connection: Connection) returns (b: bool)
      requires Valid()
      ensures b <==> nodes != [] && (connection == 0 || connection in Contents)
    {
      if nodeNumbers == 0 {
        return false;
      }
      if connection == 0 {
        return true;
      }
      var p, k := Find(connection);
      b := p != null;
    }

    /** The first node with the connection, its place, and the node in front of it. */
    method FindWithPrevious(connection: Connection) returns (p: DBPoolNode?, q: DBPoolNode?, ghost k: nat)
      requires Valid()
      ensures k == IndexOf(Contents, connection)
      ensures p == if k < |nodes| then nodes[k] else null
      ensures q == if k > 0 then nodes[k - 1] else null
    {
      p, q, k := next, null, 0;
      while p != null && p.connection != connection
        invariant k <= |nodes| && p == (if k < |nodes| then nodes[k] else null)
        invariant q == if k > 0 then nodes[k - 1] else null
        invariant forall i :: 0 <= i < k ==> Contents[i] != connection
        decreases |nodes| - k
      {
        assert nodes[k].connection == Contents[k];
        q, p, k := p, p.next, k + 1;
      }
      assert k < |nodes| ==> nodes[k].connection == Contents[k];
      FirstIndex(Contents, connection, k);
    }

    method Find(connection: Connection) returns (p: DBPoolNode?, ghost k: nat)
      requires Valid()
      ensures k == IndexOf(Contents, connection) && p == if k < |nodes| then nodes[k] else null
    {
      var q;
      p, q, k := FindWithPrevious(connection);
    }

    /** Whether a node counts as being in the list: by its connection, and null in any list but the empty one. */
    ghost predicate Holds(node: DBPoolNode?)
      reads this, node
    {
      nodes != [] && (node == null || node.connection == 0 || node.connection in Contents)
    }

    /** A node exists by its connection or by itself. */
    method IfNodeExists(node: DBPoolNode?) returns (b: bool)
      requires Valid()
      ensures b <==> nodes != [] && (node == null || node.connection == 0 || node.connection in Contents)
      ensures b <==> Holds(node)
    {
      if nodeNumbers == 0 {
        return false;
      }
      if node == null {
        return true;
      }
      b := IfExist(node.connection);
      if b {
        return;
      }
      var p := next;
      ghost var k := 0;
      while p != null && p != node
        invariant k <= |nodes| && p == (if k < |nodes| then nodes[k] else null)
        decreases |nodes| - k
      {
        p, k := p.next, k + 1;
      }
      NodeHasConnection(node);
      b := p != null;
    }

    /** Puts a node in front unless it exists; the empty list cannot take null. */
    method AddNode(node: DBPoolNode?)
      requires Valid() && (node == null ==> nodes != [])
      modifies this, node
      ensures Valid() && (node != null ==> node.connection == old(node.connection))
      ensures if old(Holds(node))
              then nodes == old(nodes) && Contents == old(Contents) && (node != null ==> node.next == old(node.next))
              else nodes == [node] + old(nodes) && Contents == [node.connection] + old(Contents)
    {
      var b := IfNodeExists(node);
      if b && nodeNumbers > 0 {
        return;
      }
      NodeHasConnection(node);
      node.next := next;
      next := node;
      nodeNumbers := nodeNumbers + 1;
      nodes, Contents := [node] + nodes, [node.connection] + Contents;
    }

    /** A new node for a connection that does not exist yet. */
    method AddConnection(connection: Connection) returns (ghost added: DBPoolNode?)
      requires Valid()
      modifies this
      ensures Valid()
      ensures added == null <==> old(nodes) != [] && (connection == 0 || connection in old(Contents))
      ensures added == null ==> nodes == old(nodes) && Contents == old(Contents)
      ensures added != null ==> fresh(added) && nodes == [added] + old(nodes)
                                && Contents == [connection] + old(Contents)
    {
      added := null;
      var b := IfExist(connection);
      if b {
        return;
      }
      var node := new DBPoolNode(connection);
      AddNode(node);
      added := node;
    }

    /** Takes the node at place k out; q is the node in front of it, if any. */
    method Unlink(p: DBPoolNode, q: DBPoolNode?, ghost k: nat)
      requires Valid() && k < |nodes| && p == nodes[k] && q == if k > 0 then nodes[k - 1] else null
      modifies this, nodes
      ensures Valid() && nodes == Without(old(nodes), k) && Contents == Without(old(Contents), k)
      ensures forall n :: n in old(nodes) ==> n.connection == old(n.connection)
    {
      if q == null {
        next := next.next;
      } else {
        q.next := p.next;
      }
      nodeNumbers := nodeNumbers - 1;
      nodes, Contents := Without(nodes, k), Without(Contents, k);
    }

    /** Hands the node of a connection over to another list. */
    method MoveNode(dest: DBPoolList, connection: Connection)
      requires Valid() && dest.Valid() && this != dest && Apart(nodes, dest.nodes)
      modifies this, dest, nodes
      ensures Valid() && dest.Valid() && Apart(nodes, dest.nodes)
      ensures var k := IndexOf(old(Contents), connection);
        if connection == 0 || connection in old(dest.Contents) || k == |old(nodes)| then
          && nodes == old(nodes) && dest.nodes == old(dest.nodes)
          && Contents == old(Contents) && dest.Contents == old(dest.Contents)
        else
          && nodes == Without(old(nodes), k) && dest.nodes == [old(nodes)[k]] + old(dest.nodes)
          && Contents == Without(old(Contents), k) && dest.Contents == [connection] + old(dest.Contents)
    {
      hide IndexOf;
      if connection == 0 {
        return;
      }
      var b := dest.IfExist(connection);
      if b {
        return;
      }
      b := IfExist(connection);
      if !b {
        return;
      }
      var p, q, k := FindWithPrevious(connection);
      Transfer(dest, p, q, k);
    }

    method Transfer(dest: DBPoolList, p: DBPoolNode, q: DBPoolNode?, ghost k: nat)
      requires Valid() && dest.Valid() && this != dest && Apart(nodes, dest.nodes)
      requires k < |nodes| && p == nodes[k] && q == if k > 0 then nodes[k - 1] else null
      requires p.connection != 0 && p.connection !in dest.Contents
      modifies this, dest, nodes
      ensures Valid() && dest.Valid() && Apart(nodes, dest.nodes)
      ensures nodes == Without(old(nodes), k) && dest.nodes == [old(nodes)[k]] + old(dest.nodes)
      ensures Contents == Without(old(Contents), k)
      ensures dest.Contents == [old(p.connection)] + old(dest.Contents)
    {
      Unlink(p, q, k);
      assert p !in nodes;
      dest.AddNode(p);
      assert Valid();
    }

    /** Deletes the node of a connection. */
    method DeleteConnection(connection: Connection)
      requires Valid()
      modifies this, nodes
      ensures Valid()
      ensures var k := IndexOf(old(Contents), connection);
        if connection == 0 || k == |old(nodes)| then nodes == old(nodes) && Contents == old(Contents)
        else nodes == Without(old(nodes), k) && Contents == Without(old(Contents), k)
    {
      var b := IfExist(connection);
      if !b || connection == 0 {
        return;
      }
      var p, q, k := FindWithPrevious(connection);
      if p == null {
        return;
      }
      Unlink(p, q, k);
    }

    /**
     Deletes a node, as the source does: the walk never remembers the node in front, so
     for any node of the list it is the head that goes.
     */
    method DeleteNode(node: DBPoolNode?)
      requires Valid()
      modifies this, nodes
      ensures Valid()
      ensures if node != null && node in old(nodes)
              then nodes == old(nodes)[1..] && Contents == old(Contents)[1..]
              else nodes == old(nodes) && Contents == old(Contents)
    {
      hide Holds;
      if nodeNumbers == 0 || node == null {
        return;
      }
      NodeHasConnection(node);
      var b := IfNodeExists(node);
      if !b {
        return;
      }
      DeleteFound(node);
    }

    method DeleteFound(node: DBPoolNode)
      requires Valid()
      modifies this, nodes
      ensures Valid()
      ensures if node in old(nodes)
              then nodes == old(nodes)[1..] && Contents == old(Contents)[1..]
              else nodes == old(nodes) && Contents == old(Contents)
    {
      var p := next;
      ghost var k := 0;
      while p != null && p != node
        invariant k <= |nodes| && p == (if k < |nodes| then nodes[k] else null)
        invariant forall i :: 0 <= i < k ==> nodes[i] != node
        decreases |nodes| - k
      {
        p, k := p.next, k + 1;
      }
      if p == null {
        return;
      }
      assert Without(nodes, 0) == nodes[1..] && Without(Contents, 0) == Contents[1..];
      Unlink(next, null, 0);
    }

    lemma NodeHasConnection(node: DBPoolNode)
      requires Valid()
      ensures node in nodes ==> node.connection in Contents && Holds(node)
    {
      if node in nodes {
        var i :| 0 <= i < |nodes| && nodes[i] == node;
        assert nodes[i].connection == Contents[i];
      }
    }

    method GetConnection() returns (c: Connection)
      requires Valid()
      ensures c == if nodes == [] then 0 else Contents[0]
    {
      c := if next == null then 0 else next.connection;
    }

    /** Returns the connection in any case; a destination that is null or the list itself gets nothing. */
    method PopConnection2(dest: DBPoolList?, connection: Connection) returns (c: Connection)
      requires Valid()
      requires dest != null && dest != this ==> dest.Valid() && Apart(nodes, dest.nodes)
      modifies this, dest, nodes
      ensures Valid() && c == connection
      ensures dest == null || dest == this ==> nodes == old(nodes) && Contents == old(Contents)
      ensures dest != null && dest != this ==>
        var k := IndexOf(old(Contents), connection);
        && dest.Valid() && Apart(nodes, dest.nodes)
        && if connection == 0 || connection in old(dest.Contents) || k == |old(nodes)| then
             && nodes == old(nodes) && dest.nodes == old(dest.nodes)
             && Contents == old(Contents) && dest.Contents == old(dest.Contents)
           else
             && nodes == Without(old(nodes), k) && dest.nodes == [old(nodes)[k]] + old(dest.nodes)
             && Contents == Without(old(Contents), k) && dest.Contents == [connection] + old(dest.Contents)
    {
      hide IndexOf;
      c := connection;
      if dest == null || dest == this {
        return;
      }
      MoveNode(dest, connection);
    }
  }

  lemma {:induction false} FirstIndex(s: seq<Connection>, c: Connection, k: nat)
    requires k <= |s| && (k < |s| ==> s[k] == c) && forall i :: 0 <= i < k ==> s[i] != c
    ensures k == IndexOf(s, c)
  {
    var j := IndexOf(s, c);
  }
}
