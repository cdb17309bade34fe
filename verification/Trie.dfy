/**
 The dictionary: a trie of words, grown in place, and the directed graph of all words that
 start at each position of a text.
 */
module Trie {
  import opened Utf8

  const MAX_WORD_LENGTH: nat := 512

  datatype DictUnit = DictUnit(word: seq<Rune>, weight: real)

  /** A node without children has the empty table; in the source, a null one. */
  class TrieNode {
    var next: map<Rune, TrieNode>
    var value: Option<DictUnit>

    constructor ()
      ensures next == map[] && value == None
    {
      next, value := map[], None;
    }
  }

  /** An edge: the position of the word's last rune, and its unit if it has one. */
  type Edge = (nat, Option<DictUnit>)

  /** A position of the graph; info and weight are filled in by the segmenter. */
  datatype Dag = Dag(rune: Rune, nexts: seq<Edge>, info: Option<DictUnit>, weight: real)

  type Dictionary = map<seq<Rune>, DictUnit>

  function Lookup(dict: Dictionary, word: seq<Rune>): (r: Option<DictUnit>)
    ensures r.Some? <==> word in dict
    ensures r.Some? ==> r.value == dict[word]
  {
    if word in dict then Some(dict[word]) else None
  }

  /** The dictionary words t[i..m + 1] for m from j on, no longer than maxLen. */
  function LongerWords(dict: Dictionary, t: seq<Rune>, i: nat, j: nat, maxLen: nat): seq<Edge>
    requires i <= j
    decreases |t| - j
  {
    if j >= |t| || j - i + 1 > maxLen then []
    else
      (if t[i..j + 1] in dict then [(j, Some(dict[t[i..j + 1]]))] else [])
      + LongerWords(dict, t, i, j + 1, maxLen)
  }

  lemma {:induction false} NoMoreWords(dict: Dictionary, t: seq<Rune>, i: nat, j: nat, maxLen: nat)
    requires i <= j && (j >= |t| || j - i + 1 > maxLen)
    ensures LongerWords(dict, t, i, j, maxLen) == []
  {}

  /** The edges from i: always the single rune, then the longer dictionary words. */
  function EdgesFrom(dict: Dictionary, t: seq<Rune>, i: nat, maxLen: nat): seq<Edge>
    requires i < |t|
  {
    [(i, Lookup(dict, [t[i]]))] + LongerWords(dict, t, i, i + 1, maxLen)
  }

  function DagOf(dict: Dictionary, t: seq<Rune>, maxLen: nat): (r: seq<Dag>)
    ensures |r| == |t|
    ensures forall i :: 0 <= i < |t| ==> r[i] == Dag(t[i], EdgesFrom(dict, t, i, maxLen), None, 0.0)
  {
    seq(|t|, i requires 0 <= i < |t| => Dag(t[i], EdgesFrom(dict, t, i, maxLen), None, 0.0))
  }

  // The shape of the trie, on values: at gives the node each path leads to, tables the
  // child table of that node.

  type Paths = map<seq<Rune>, TrieNode>
  type Tables = map<seq<Rune>, map<Rune, TrieNode>>

  ghost predicate HasChild(at: Paths, tables: Tables, p: seq<Rune>, r: Rune)
    requires p in tables && r in tables[p]
  {
    p + [r] in at && at[p + [r]] == tables[p][r]
  }

  ghost predicate HasParent(at: Paths, tables: Tables, p: seq<Rune>)
    requires p != []
  {
    var q := p[..|p| - 1];
    q in at && q in tables && p[|p| - 1] in tables[q]
  }

  /** Paths and nodes correspond one to one, and nodes point to their extensions. */
  ghost predicate Shape(root: TrieNode, at: Paths, tables: Tables) {
    && at.Keys == tables.Keys
    && [] in at && at[[]] == root
    && (forall p, q {:trigger at[p], at[q]} :: p in at && q in at && at[p] == at[q] ==> p == q)
    && (forall p, r {:trigger HasChild(at, tables, p, r)} :: p in at && r in tables[p] ==> HasChild(at, tables, p, r))
    && (forall p {:trigger HasParent(at, tables, p)} :: p in at && p != [] ==> HasParent(at, tables, p))
  }

  lemma NewPath(at: Paths, tables: Tables, path: seq<Rune>, r: Rune)
    requires path in tables && r !in tables[path]
    requires path + [r] in at ==> HasParent(at, tables, path + [r])
    ensures path + [r] !in at
  {
    var longer := path + [r];
    assert longer[..|longer| - 1] == path;
  }

  /** A fresh child keeps the shape. */
  lemma GrowKeepsShape(root: TrieNode, at: Paths, tables: Tables, path: seq<Rune>, r: Rune, node: TrieNode)
    requires Shape(root, at, tables) && path in at && r !in tables[path]
    requires forall p :: p in at ==> at[p] != node
    ensures path + [r] !in at
    ensures Shape(root, at[path + [r] := node], GrownTables(tables, path, r, node))
  {
    var longer := path + [r];
    assert longer in at ==> HasParent(at, tables, longer);
    NewPath(at, tables, path, r);
    hide GrownTables, HasChild, HasParent;
    var at', tables' := at[longer := node], GrownTables(tables, path, r, node);
    GrownKeys(tables, path, r, node);
    forall p, x {:trigger HasChild(at', tables', p, x)} | p in tables' && x in tables'[p]
      ensures HasChild(at', tables', p, x)
    {
      assert p in at && x in tables[p] ==> HasChild(at, tables, p, x);
      GrowChild(at, tables, path, r, node, p, x);
    }
    forall p {:trigger HasParent(at', tables', p)} | p in at' && p != []
      ensures HasParent(at', tables', p)
    {
      assert p in at ==> HasParent(at, tables, p);
      GrowParent(at, tables, path, r, node, p);
    }
  }

  lemma GrowTables(tables: Tables, path: seq<Rune>, r: Rune, node: TrieNode, tables': Tables)
    requires path in tables && path + [r] !in tables && tables'.Keys == tables.Keys + {path + [r]}
    requires forall p :: p in tables && p != path ==> tables'[p] == tables[p]
    requires tables'[path] == tables[path][r := node] && tables'[path + [r]] == map[]
    ensures tables' == GrownTables(tables, path, r, node)
  {}

  lemma GrownKeys(tables: Tables, path: seq<Rune>, r: Rune, node: TrieNode)
    requires path in tables
    ensures GrownTables(tables, path, r, node).Keys == tables.Keys + {path + [r]}
  {}

  ghost function GrownTables(tables: Tables, path: seq<Rune>, r: Rune, node: TrieNode): Tables
    requires path in tables
  {
    tables[path := tables[path][r := node]][path + [r] := map[]]
  }

  lemma GrowChild(at: Paths, tables: Tables, path: seq<Rune>, r: Rune, node: TrieNode,
                                     p: seq<Rune>, x: Rune)
    requires at.Keys == tables.Keys && path in at && path + [r] !in at
    requires p in GrownTables(tables, path, r, node) && x in GrownTables(tables, path, r, node)[p]
    requires p in at && x in tables[p] ==> HasChild(at, tables, p, x)
    ensures HasChild(at[path + [r] := node], GrownTables(tables, path, r, node), p, x)
  {
    assert path != path + [r];
    if p == path && x == r {
      assert p + [x] == path + [r];
    } else {
      assert p in at && x in tables[p];
      assert p + [x] != path + [r];
    }
  }

  lemma GrowParent(at: Paths, tables: Tables, path: seq<Rune>, r: Rune, node: TrieNode, p: seq<Rune>)
    requires at.Keys == tables.Keys && path in at && path + [r] !in at && p != []
    requires p in at[path + [r] := node]
    requires p in at ==> HasParent(at, tables, p)
    ensures HasParent(at[path + [r] := node], GrownTables(tables, path, r, node), p)
  {
    var longer := path + [r];
    assert longer[..|longer| - 1] == path && longer[|longer| - 1] == r && path != longer;
    if p != longer {
      assert p[..|p| - 1] in at && p[..|p| - 1] != longer;
    }
  }

  /** Every path of the trie has all its prefixes in the trie. */
  lemma {:induction false} PrefixInTrie(root: TrieNode, at: Paths, tables: Tables, key: seq<Rune>, i: nat)
    requires Shape(root, at, tables) && key in at && i <= |key|
    ensures key[..i] in at
  {
    if i < |key| {
      assert HasParent(at, tables, key);
      var shorter := key[..|key| - 1];
      assert shorter[..i] == key[..i];
      PrefixInTrie(root, at, tables, shorter, i);
    } else {
      assert key[..i] == key;
    }
  }

  /** One step down the trie. */
  lemma StepDown(root: TrieNode, at: Paths, tables: Tables, key: seq<Rune>, i: nat)
    requires Shape(root, at, tables) && i < |key| && key[..i] in at
    ensures key[..i + 1] in at <==> key[i] in tables[key[..i]]
    ensures key[..i + 1] in at ==> at[key[..i + 1]] == tables[key[..i]][key[i]]
  {
    var longer := key[..i + 1];
    assert longer == key[..i] + [key[i]] && longer[..i] == key[..i];
    assert longer in at ==> HasParent(at, tables, longer);
    assert key[i] in tables[key[..i]] ==> HasChild(at, tables, key[..i], key[i]);
  }

  class Trie {
    const root: TrieNode
    ghost var dict: Dictionary
    ghost var at: Paths

    ghost var Repr: set<TrieNode>

    ghost function ChildTables(): (r: Tables)
      requires forall p :: p in at ==> at[p] in Repr
      reads this, Repr
    {
      map p | p in at :: at[p].next
    }

    ghost predicate Valid()
      reads this, Repr
    {
      && (forall p :: p in at ==> at[p] in Repr)
      && Shape(root, at, ChildTables())
      && root.value == None
      && (forall p :: p in dict ==> p in at)
      && (forall p :: p in at ==> at[p].value == Lookup(dict, p))
    }

    constructor ()
      ensures Valid() && fresh(Repr) && dict == map[]
    {
      var node := new TrieNode();
      root := node;
      dict, at, Repr := map[], map[[] := node], {node};
      new;
      assert at[[]] == node;
    }

    /** The word ends where the path of its runes leads; the empty word is ignored. */
    method InsertNode(key: seq<Rune>, value: Option<DictUnit>)
      requires Valid()
      modifies this, Repr
      ensures Valid() && fresh(Repr - old(Repr))
      ensures dict == if key == [] then old(dict)
                      else if value.Some? then old(dict)[key := value.value] else old(dict) - {key}
    {
      hide Valid;
      if key == [] {
        return;
      }
      RootInTrie();
      var ptNode := root;
      var i := 0;
      assert key[..0] == [];
      while i < |key|
        invariant i <= |key| && Valid()
        invariant fresh(Repr - old(Repr)) && dict == old(dict)
        invariant key[..i] in at && ptNode == at[key[..i]] && ptNode in Repr
      {
        ptNode := Descend(key[..i], key[i], ptNode);
        assert key[..i] + [key[i]] == key[..i + 1];
        i := i + 1;
      }
      assert key[..i] == key;
      SetValue(key, ptNode, value);
    }

    /** The child of a node for one more rune, made if there is none. */
    method Descend(ghost path: seq<Rune>, r: Rune, ptNode: TrieNode) returns (child: TrieNode)
      requires Valid() && path in at && ptNode == at[path]
      modifies this, ptNode
      ensures Valid() && fresh(Repr - old(Repr)) && dict == old(dict)
      ensures path + [r] in at && child == at[path + [r]] && child in Repr
    {
      hide HasChild, HasParent;
      if r !in ptNode.next {
        Grow(path, r, ptNode);
      }
      var longer := path + [r];
      assert longer[..|path|] == path && longer[..|path| + 1] == longer;
      StepDown(root, at, ChildTables(), longer, |path|);
      child := ptNode.next[r];
    }

    method SetValue(ghost key: seq<Rune>, ptNode: TrieNode, value: Option<DictUnit>)
      requires Valid() && key in at && at[key] == ptNode && key != []
      modifies this`dict, ptNode`value
      ensures Valid()
      ensures dict == if value.Some? then old(dict)[key := value.value] else old(dict) - {key}
    {
      hide Shape;
      OneNode(key);
      RootInTrie();
      ghost var tables := ChildTables();
      ptNode.value := value;
      dict := if value.Some? then dict[key := value.value] else dict - {key};
      assert ChildTables() == tables;
    }

    lemma RootInTrie()
      requires Valid()
      ensures [] in at && at[[]] == root && root in Repr
    {
      assert at[[]] in Repr;
    }

    lemma OneNode(key: seq<Rune>)
      requires Valid() && key in at
      ensures forall p :: p in at && p != key ==> at[p] != at[key]
    {}

    method AddChild(ghost path: seq<Rune>, r: Rune, ptNode: TrieNode) returns (nextNode: TrieNode)
      requires forall p :: p in at ==> at[p] in Repr
      requires path in at && ptNode == at[path] && path + [r] !in at
      requires forall p :: p in at && p != path ==> at[p] != ptNode
      modifies this`at, this`Repr, ptNode`next
      ensures fresh(nextNode) && nextNode.value == None && Repr == old(Repr) + {nextNode}
      ensures forall p :: p in at ==> at[p] in Repr
      ensures at == old(at)[path + [r] := nextNode]
      ensures ptNode.next == old(ptNode.next)[r := nextNode]
      ensures ChildTables() == GrownTables(old(ChildTables()), path, r, nextNode)
    {
      hide GrownTables;
      ghost var tables := ChildTables();
      nextNode := new TrieNode();
      ptNode.next := ptNode.next[r := nextNode];
      at := at[path + [r] := nextNode];
      Repr := Repr + {nextNode};
      GrowTables(tables, path, r, nextNode, ChildTables());
    }

    /** Gives the node of a path its child for one more rune. */
    method Grow(ghost path: seq<Rune>, r: Rune, ptNode: TrieNode)
      requires Valid() && path in at && ptNode == at[path] && r !in ptNode.next
      modifies this, ptNode
      ensures Valid() && fresh(Repr - old(Repr)) && old(Repr) <= Repr && dict == old(dict)
      ensures path in at && at[path] == ptNode && r in ptNode.next
    {
      hide Shape, GrownTables;
      OneNode(path);
      RootInTrie();
      ghost var longer, tables := path + [r], ChildTables();
      NewPathInTrie(path, r);
      var nextNode := AddChild(path, r, ptNode);
      GrowKeepsShape(root, old(at), tables, path, r, nextNode);
      assert path != longer;
    }

    lemma NewPathInTrie(path: seq<Rune>, r: Rune)
      requires Valid() && path in at && r !in at[path].next
      ensures path + [r] !in at
    {
      assert path + [r] in at ==> HasParent(at, ChildTables(), path + [r]);
      NewPath(at, ChildTables(), path, r);
    }

    /** The value of a word, or NULL. */
    method Find(key: seq<Rune>) returns (r: Option<DictUnit>)
      requires Valid()
      ensures r == Lookup(dict, key)
    {
      RootInTrie();
      if key == [] {
        return None;
      }
      var ptNode := root;
      ghost var tables := ChildTables();
      assert key[..0] == [];
      for i := 0 to |key|
        invariant key[..i] in at && ptNode == at[key[..i]]
        invariant Shape(root, at, tables) && Valid()
      {
        StepDown(root, at, tables, key, i);
        if key[i] !in ptNode.next {
          NotInDict(key, i + 1);
          return None;
        }
        ptNode := ptNode.next[key[i]];
      }
      assert key[..|key|] == key;
      r := ptNode.value;
    }

    /** A word that leaves the trie at one of its runes is not in the dictionary. */
    lemma NotInDict(key: seq<Rune>, i: nat)
      requires Valid() && i <= |key| && key[..i] !in at
      ensures key !in dict
    {
      if key in at {
        PrefixInTrie(root, at, ChildTables(), key, i);
      }
    }

    /** Below a path that is not in the trie there are no words. */
    lemma {:induction false} NoLongerWords(t: seq<Rune>, i: nat, j: nat, k: nat, maxLen: nat)
      requires Valid() && i < j <= k + 1 && j <= |t| && t[i..j] !in at
      ensures LongerWords(dict, t, i, k, maxLen) == []
      decreases |t| - k
    {
      if k < |t| && k - i + 1 <= maxLen {
        assert t[i..k + 1][..j - i] == t[i..j];
        NotInDict(t[i..k + 1], j - i);
        NoLongerWords(t, i, j, k + 1, maxLen);
      }
    }

    /** node is the node a path leads to, null if the path leaves the trie. */
    ghost predicate LeadsTo(path: seq<Rune>, node: TrieNode?)
      reads this
    {
      if node == null then path !in at else path in at && at[path] == node
    }

    /** The single rune is looked up in the child table of the root. */
    lemma {:induction false} FirstEdge(t: seq<Rune>, i: nat, maxLen: nat)
      requires Valid() && i < |t|
      ensures var node := if t[i] in root.next then root.next[t[i]] else null;
        && LeadsTo(t[i..i + 1], node)
        && EdgesFrom(dict, t, i, maxLen)
        == [(i, if node != null then node.value else None)] + LongerWords(dict, t, i, i + 1, maxLen)
    {
      hide HasChild, HasParent, LongerWords;
      RootInTrie();
      StepDown(root, at, ChildTables(), [t[i]], 0);
      assert t[i..i + 1] == [t[i]] == [t[i]][..1] && [t[i]][..0] == [];
    }

    /** One step of the walk: where it leaves the trie there are no more words, else it may find one. */
    lemma NextEdge(t: seq<Rune>, i: nat, j: nat, maxLen: nat, node: TrieNode?)
      requires Valid() && i < j < |t| && j - i + 1 <= maxLen && LeadsTo(t[i..j], node)
      ensures node == null || t[j] !in node.next ==> LongerWords(dict, t, i, j, maxLen) == []
      ensures node != null && t[j] in node.next ==>
        var child := node.next[t[j]];
        && LeadsTo(t[i..j + 1], child)
        && LongerWords(dict, t, i, j, maxLen)
        == (if child.value.Some? then [(j, child.value)] else []) + LongerWords(dict, t, i, j + 1, maxLen)
    {
      hide HasChild, HasParent;
      StepAlong(ChildTables(), t, i, j);
      if node == null {
        NoLongerWords(t, i, j, j, maxLen);
      } else if t[j] !in node.next {
        NoLongerWords(t, i, j + 1, j, maxLen);
      }
    }

    /** The edges from one position, by one walk down the trie. */
    method FindEdges(t: seq<Rune>, i: nat, maxLen: nat) returns (nexts: seq<Edge>)
      requires Valid() && i < |t|
      ensures nexts == EdgesFrom(dict, t, i, maxLen)
    {
      hide Valid, LeadsTo, LongerWords, EdgesFrom;
      FirstEdge(t, i, maxLen);
      var ptNode: TrieNode? := if t[i] in root.next then root.next[t[i]] else null;
      nexts := [(i, if ptNode != null then ptNode.value else None)];
      var j := i + 1;
      while j < |t| && j - i + 1 <= maxLen
        invariant i < j <= |t| && LeadsTo(t[i..j], ptNode)
        invariant nexts + LongerWords(dict, t, i, j, maxLen) == EdgesFrom(dict, t, i, maxLen)
      {
        NextEdge(t, i, j, maxLen, ptNode);
        if ptNode == null || t[j] !in ptNode.next {
          return;
        }
        ptNode := ptNode.next[t[j]];
        if ptNode.value.Some? {
          nexts := nexts + [(j, ptNode.value)];
        }
        j := j + 1;
      }
      NoMoreWords(dict, t, i, j, maxLen);
    }

    lemma StepAlong(tables: Tables, t: seq<Rune>, i: nat, j: nat)
      requires Shape(root, at, tables) && i <= j < |t|
      ensures t[i..j] in at ==> (t[i..j + 1] in at <==> t[j] in tables[t[i..j]])
      ensures t[i..j + 1] in at ==> t[i..j] in at && at[t[i..j + 1]] == tables[t[i..j]][t[j]]
    {
      var key := t[i..j + 1];
      assert key[..j - i] == t[i..j] && key[j - i] == t[j] && key[..j - i + 1] == key;
      if key in at {
        PrefixInTrie(root, at, tables, key, j - i);
      }
      if t[i..j] in at {
        StepDown(root, at, tables, key, j - i);
      }
    }

    /** The graph of a text: for each position its rune and its edges. */
    method FindDag(t: seq<Rune>, maxLen: nat) returns (dags: seq<Dag>)
      requires Valid()
      ensures dags == DagOf(dict, t, maxLen)
    {
      dags := [];
      for i := 0 to |t|
        invariant Valid()
        invariant |dags| == i && forall k :: 0 <= k < i ==> dags[k] == DagOf(dict, t, maxLen)[k]
      {
        var nexts := FindEdges(t, i, maxLen);
        dags := dags + [Dag(t[i], nexts, None, 0.0)];
      }
    }
  }

  // What the graph contains.

  /** An edge from i leads to j exactly if j is i itself or t[i..j + 1] is a short enough word. */
  lemma {:induction false} LongerWordsAre(dict: Dictionary, t: seq<Rune>, i: nat, j: nat, maxLen: nat, e: Edge)
    requires i <= j
    ensures e in LongerWords(dict, t, i, j, maxLen) <==>
      j <= e.0 < |t| && e.0 - i + 1 <= maxLen && t[i..e.0 + 1] in dict && e.1 == Some(dict[t[i..e.0 + 1]])
    decreases |t| - j
  {
    if j < |t| && j - i + 1 <= maxLen {
      LongerWordsAre(dict, t, i, j + 1, maxLen, e);
    }
  }

  lemma EdgesAre(dict: Dictionary, t: seq<Rune>, i: nat, maxLen: nat, e: Edge)
    requires i < |t|
    ensures e in EdgesFrom(dict, t, i, maxLen) <==>
      || e == (i, Lookup(dict, t[i..i + 1]))
      || (i < e.0 < |t| && e.0 - i + 1 <= maxLen && e.1.Some? && e.1 == Lookup(dict, t[i..e.0 + 1]))
  {
    LongerWordsAre(dict, t, i, i + 1, maxLen, e);
    assert t[i..i + 1] == [t[i]];
  }

  /** Edges in the order of where they lead, each place once, none in front of lo. */
  ghost predicate Increasing(edges: seq<Edge>, lo: nat) {
    && (forall a :: 0 <= a < |edges| ==> lo <= edges[a].0)
    && (forall a, b :: 0 <= a < b < |edges| ==> edges[a].0 < edges[b].0)
  }

  lemma FrontIncreasing(first: Edge, rest: seq<Edge>)
    requires Increasing(rest, first.0 + 1)
    ensures Increasing([first] + rest, first.0)
  {}

  lemma IncreasingFrom(edges: seq<Edge>, lo: nat)
    requires Increasing(edges, lo + 1)
    ensures Increasing(edges, lo)
  {}

  lemma {:induction false} LongerInOrder(dict: Dictionary, t: seq<Rune>, i: nat, j: nat, maxLen: nat)
    requires i <= j
    ensures Increasing(LongerWords(dict, t, i, j, maxLen), j)
    decreases |t| - j
  {
    if j >= |t| || j - i + 1 > maxLen {
      NoMoreWords(dict, t, i, j, maxLen);
    } else {
      hide Increasing;
      LongerInOrder(dict, t, i, j + 1, maxLen);
      var rest := LongerWords(dict, t, i, j + 1, maxLen);
      if t[i..j + 1] in dict {
        FrontIncreasing((j, Some(dict[t[i..j + 1]])), rest);
      } else {
        IncreasingFrom(rest, j);
        assert [] + rest == rest;
      }
    }
  }

  /** The edges of a position start with the single rune and come in order, each place once. */
  lemma EdgesInOrder(dict: Dictionary, t: seq<Rune>, i: nat, maxLen: nat)
    requires i < |t|
    ensures EdgesFrom(dict, t, i, maxLen)[0].0 == i && Increasing(EdgesFrom(dict, t, i, maxLen), i)
  {
    hide LongerWords, Increasing;
    LongerInOrder(dict, t, i, i + 1, maxLen);
    FrontIncreasing((i, Lookup(dict, [t[i]])), LongerWords(dict, t, i, i + 1, maxLen));
  }

  /** Later insertions win: the dictionary after inserting words and units in order. */
  function Inserted(words: seq<(seq<Rune>, DictUnit)>): Dictionary {
    if words == [] then map[]
    else
      var rest, last := Inserted(words[..|words| - 1]), words[|words| - 1];
      if last.0 == [] then rest else rest[last.0 := last.1]
  }

  method CreateTrie(words: seq<(seq<Rune>, DictUnit)>) returns (trie: Trie)
    ensures fresh(trie) && trie.Valid() && trie.dict == Inserted(words)
  {
    trie := new Trie();
    assert words[..0] == [];
    for i := 0 to |words|
      invariant trie.Valid() && fresh(trie) && fresh(trie.Repr) && trie.dict == Inserted(words[..i])
    {
      assert words[..i + 1][..i] == words[..i];
      trie.InsertNode(words[i].0, Some(words[i].1));
    }
    assert words[..|words|] == words;
  }

  /** A word that is not empty is in the dictionary exactly if it was inserted, with the last unit it was given. */
  lemma {:induction false} LastInsertWins(words: seq<(seq<Rune>, DictUnit)>, key: seq<Rune>)
    ensures key in Inserted(words) <==> key != [] && exists k :: 0 <= k < |words| && words[k].0 == key
    ensures forall k :: 0 <= k < |words| && words[k].0 == key != [] && (forall l :: k < l < |words| ==> words[l].0 != key) ==>
      Inserted(words)[key] == words[k].1
  {
    if words != [] {
      var n := |words| - 1;
      LastInsertWins(words[..n], key);
      assert forall k :: 0 <= k < n ==> words[..n][k] == words[k];
    }
  }
}
