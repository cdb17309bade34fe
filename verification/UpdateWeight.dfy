/**
 The update of one posting row in place: take the url out, put it back where its new
 weight belongs, cut the list at the cap and rewrite the count in front.
 */
module UpdateWeight {
  import opened Decimal
  import opened Scan
  import opened PostingRow
  import opened Widths

  lemma {:induction false} PrintedHasNoSeparator(n: nat)
    ensures forall i :: 0 <= i < |Print(n)| ==> Print(n)[i] != '|' && Print(n)[i] != '_'
  {
    ReadPrint(n, 0);
  }

  /** `_u|` was not found: at most the last node has the url. */
  lemma {:induction false} NotFound(before: string, nodes: seq<Node>, u: string)
    requires WellFormed(nodes)
    requires forall i: nat :: !OccursAt(before + Body(nodes), "_" + u + "|", i)
    ensures forall j :: 0 <= j < |nodes| - 1 ==> nodes[j].url != u
  {
    forall j | 0 <= j < |nodes| - 1
      ensures nodes[j].url != u
    {
      NodeOccurs(before, nodes, j);
    }
  }

  /** `_u|` was found at pos: the first node of that url is there, and not the last node. */
  lemma {:induction false} Found(before: string, nodes: seq<Node>, u: string, pos: nat) returns (k: nat)
    requires WellFormed(nodes) && CleanUrl(u)
    requires forall i :: 0 <= i < |before| ==> before[i] != '_'
    requires OccursAt(before + Body(nodes), "_" + u + "|", pos)
    requires forall i: nat :: i < pos ==> !OccursAt(before + Body(nodes), "_" + u + "|", i)
    ensures k + 1 < |nodes| && nodes[k].url == u && pos == UnderAt(before, nodes, k)
    ensures forall j :: 0 <= j < k ==> nodes[j].url != u
  {
    hide Print, Body;
    var s, pat := before + Body(nodes), "_" + u + "|";
    assert s[pos] == s[pos..pos + |pat|][0] == '_';
    assert pos >= |before|;
    k := OccurrenceIsNode(before, nodes, u, pos);
    forall j | 0 <= j < k
      ensures nodes[j].url != u
    {
      NodeOccurs(before, nodes, j);
      UnderMonotone(before, nodes, j, k);
    }
  }

  /** The last node has the url: cut it off, unless it is the only one. */
  method RemoveLast(row0: string, firstNode: nat, under: nat, curNums: nat, ghost nodes: seq<Node>) returns (row: string)
    requires WellFormed(nodes) && |nodes| > 1 && curNums == |nodes|
    requires row0 == RowText(nodes) && firstNode == |Print(|nodes|)|
    requires under == UnderAt(Print(|nodes|), nodes, |nodes| - 1)
    ensures row == RowText(nodes[..|nodes| - 1])
  {
    hide Print, Body;
    ghost var before, k := Print(|nodes|), |nodes| - 1;
    Landmarks(before, nodes, k);
    CutAt(before, nodes, k);
    var i := ScanLeft(row0, under, '|', BarAt(before, nodes, k));
    row := Print(curNums - 1) + row0[firstNode..i];
  }

  /** The first node has the url. */
  method RemoveHead(row0: string, under: nat, curNums: nat, ghost nodes: seq<Node>) returns (row: string)
    requires WellFormed(nodes) && |nodes| > 1 && curNums == |nodes| && row0 == RowText(nodes)
    requires under == UnderAt(Print(|nodes|), nodes, 0)
    ensures row == RowText(nodes[1..])
  {
    hide Print, Body;
    ghost var before := Print(|nodes|);
    Landmarks(before, nodes, 0);
    CutAt(before, nodes, 1);
    var i := ScanRight(row0, under, '|', BarAt(before, nodes, 1));
    row := Print(curNums - 1) + row0[i..];
  }

  /** A node in between has the url. */
  method RemoveMiddle(row0: string, firstNode: nat, under: nat, curNums: nat, ghost nodes: seq<Node>, ghost k: nat)
      returns (row: string)
    requires WellFormed(nodes) && k + 1 < |nodes| && curNums == |nodes|
    requires row0 == RowText(nodes) && firstNode == |Print(|nodes|)|
    requires under == UnderAt(Print(|nodes|), nodes, k)
    ensures row == RowText(nodes[..k] + nodes[k + 1..])
  {
    hide Print, Body;
    ghost var before := Print(|nodes|);
    Landmarks(before, nodes, k);
    CutAt(before, nodes, k);
    CutAt(before, nodes, k + 1);
    var i := ScanLeft(row0, under, '|', BarAt(before, nodes, k));
    var j := ScanRight(row0, under, '|', BarAt(before, nodes, k + 1));
    row := Print(curNums - 1) + row0[firstNode..i] + row0[j..];
    BodyConcat(nodes[..k], nodes[k + 1..]);
  }

  /** Takes the url out of the row; only is true when that leaves nothing. */
  method RemoveExisting(row0: string, firstNode: nat, curNums: nat, curUrl: string, ghost nodes: seq<Node>)
      returns (row: string, nums: nat, only: bool)
    requires WellFormed(nodes) && nodes != [] && CleanUrl(curUrl)
    requires row0 == RowText(nodes) && firstNode == |Print(|nodes|)| && curNums == |nodes|
    ensures only <==> RemoveUrl(nodes, curUrl) == []
    ensures !only ==> nums == |RemoveUrl(nodes, curUrl)| && row == RowText(RemoveUrl(nodes, curUrl))
  {
    hide Print, Body;
    ghost var before, n := Print(|nodes|), |nodes|;
    row, nums, only := row0, curNums, false;
    var pos := Find(row0, "_" + curUrl + "|");
    if pos < 0 {
      NotFound(before, nodes, curUrl);
      Landmarks(before, nodes, n - 1);
      var i := ScanLeft(row0, |row0| - 1, '_', UnderAt(before, nodes, n - 1));
      LastUrl(before, nodes);
      if row0[i + 1..] == curUrl {
        RemoveAt(nodes, curUrl, n - 1);
        assert nodes[..n - 1] + nodes[n..] == nodes[..n - 1];
        if curNums == 1 {
          only := true;
          return;
        }
        nums := curNums - 1;
        row := RemoveLast(row0, firstNode, i, curNums, nodes);
      } else {
        RemoveAbsent(nodes, curUrl);
      }
    } else {
      PrintedHasNoSeparator(n);
      ghost var k := Found(before, nodes, curUrl, pos);
      RemoveAt(nodes, curUrl, k);
      Landmarks(before, nodes, 0);
      var i := ScanRight(row0, firstNode, '_', UnderAt(before, nodes, 0));
      nums := curNums - 1;
      if i == pos {
        HeadIsFirst(before, nodes, k);
        assert nodes[..k] + nodes[k + 1..] == nodes[1..];
        row := RemoveHead(row0, i, curNums, nodes);
      } else {
        row := RemoveMiddle(row0, firstNode, pos, curNums, nodes, k);
      }
    }
  }

  lemma {:induction false} LastUrl(before: string, nodes: seq<Node>)
    requires WellFormed(nodes) && nodes != []
    ensures UnderAt(before, nodes, |nodes| - 1) < |before + Body(nodes)|
    ensures (before + Body(nodes))[UnderAt(before, nodes, |nodes| - 1) + 1..] == nodes[|nodes| - 1].url
  {
    hide Print, Body;
    NodeAt(before, nodes, |nodes| - 1);
  }

  lemma HeadIsFirst(before: string, nodes: seq<Node>, k: nat)
    requires k < |nodes| && UnderAt(before, nodes, k) == UnderAt(before, nodes, 0)
    ensures k == 0
  {
    if k > 0 {
      UnderMonotone(before, nodes, 0, k);
    }
  }

  /** The weight text between a node's bar and its underscore. */
  lemma {:induction false} WeightText(before: string, nodes: seq<Node>, k: nat)
    requires WellFormed(nodes) && k < |nodes|
    ensures BarAt(before, nodes, k) < UnderAt(before, nodes, k) <= |before + Body(nodes)|
    ensures var digits := (before + Body(nodes))[BarAt(before, nodes, k) + 1..UnderAt(before, nodes, k)];
      Read(digits, MAX_UINT32) == nodes[k].weight
  {
    hide Print, Body, Read;
    NodeAt(before, nodes, k);
    ReadPrint(nodes[k].weight, MAX_UINT32);
  }

  /** Reads the weight of the node that starts at prev, and finds where the node ends. */
  method ReadNode(row: string, prev: nat, from: nat, ghost before: string, ghost nodes: seq<Node>, ghost k: nat)
      returns (w: nat, next: nat)
    requires WellFormed(nodes) && k < |nodes| && row == before + Body(nodes)
    requires prev == BarAt(before, nodes, k) + 1 && prev <= from <= prev + 2
    ensures w == nodes[k].weight
    ensures next == BarAt(before, nodes, k + 1) <= |row| && (next == |row| <==> k + 1 == |nodes|)
  {
    hide Print, Body, Read;
    Landmarks(before, nodes, k);
    var p := ScanRight(row, prev + 1, '_', UnderAt(before, nodes, k));
    WeightText(before, nodes, k);
    w := Read(row[prev..p], MAX_UINT32);
    next := ScanRight(row, from, '|', BarAt(before, nodes, k + 1));
  }

  /** Walks past the heavier nodes and puts the new one in front of the rest. */
  method InsertOrdered(row0: string, curWeight: nat, insertNode: string, ghost nodes: seq<Node>, ghost x: Node)
      returns (row: string)
    requires WellFormed(nodes) && nodes != [] && row0 == RowText(nodes)
    requires insertNode == NodeText(x) && x.weight == curWeight
    ensures row == Print(|nodes|) + Body(InsertByWeight(nodes, x))
  {
    hide Print, Body, Read;
    ghost var before := Print(|nodes|);
    PrintedHasNoSeparator(|nodes|);
    Landmarks(before, nodes, 0);
    var prev := ScanRight(row0, 0, '|', |before|);
    prev := prev + 1;
    var w, next := ReadNode(row0, prev, prev + 2, before, nodes, 0);
    ghost var k := 0;
    while w > curWeight
      invariant k < |nodes| && w == nodes[k].weight
      invariant prev == BarAt(before, nodes, k) + 1
      invariant next == BarAt(before, nodes, k + 1) <= |row0| && (next == |row0| <==> k + 1 == |nodes|)
      invariant forall j :: 0 <= j < k ==> nodes[j].weight > curWeight
      decreases |nodes| - k
    {
      if next == |row0| {
        row := row0 + insertNode;
        InsertAt(nodes, x, |nodes|);
        InsertText(before, nodes, x, |nodes|);
        return;
      }
      k := k + 1;
      next := next + 1;
      prev := next;
      w, next := ReadNode(row0, prev, next, before, nodes, k);
    }
    InsertAt(nodes, x, k);
    InsertText(before, nodes, x, k);
    row := row0[..prev - 1] + insertNode + row0[prev - 1..];
  }

  lemma {:induction false} InsertText(before: string, nodes: seq<Node>, x: Node, k: nat)
    requires k <= |nodes|
    ensures var s, bar := before + Body(nodes), BarAt(before, nodes, k);
      && bar <= |s| && (k == |nodes| ==> bar == |s|)
      && before + Body(nodes[..k] + [x] + nodes[k..]) == s[..bar] + NodeText(x) + s[bar..]
  {
    hide Print, Body;
    CutAt(before, nodes, k);
    assert k == |nodes| ==> nodes[..k] == nodes;
    BodyConcat(nodes[..k] + [x], nodes[k..]);
    BodyConcat(nodes[..k], [x]);
    assert Body([x]) == NodeText(x) by {
      BodyCons(x, []);
      BodyFirst([]);
      assert [x] + [] == [x];
    }
  }

  /** RemoveUrl and InsertByWeight keep rows well-formed. */
  lemma {:induction false} RemoveKeeps(nodes: seq<Node>, u: string)
    requires WellFormed(nodes)
    ensures WellFormed(RemoveUrl(nodes, u)) && |RemoveUrl(nodes, u)| <= |nodes|
  {
    if nodes != [] {
      RemoveKeeps(nodes[1..], u);
    }
  }

  lemma {:induction false} InsertKeeps(nodes: seq<Node>, x: Node)
    requires WellFormed(nodes) && WellFormed([x])
    ensures WellFormed(InsertByWeight(nodes, x))
  {
    assert [x][0] == x;
    if nodes != [] {
      InsertKeeps(nodes[1..], x);
    }
  }

  /** After the insertion: drop the last node at the cap, otherwise count the new one. */
  method FitToCap(row0: string, curNums: nat, maxUrls: int, ghost all: seq<Node>) returns (row: string)
    requires WellFormed(all) && |all| == curNums + 1 && row0 == Print(curNums) + Body(all)
    ensures row == RowText(if curNums == maxUrls then all[..curNums] else all)
  {
    hide Print, Body;
    ghost var before := Print(curNums);
    if curNums == maxUrls {
      Landmarks(before, all, curNums);
      CutAt(before, all, curNums);
      var i := ScanLeft(row0, |row0| - 1, '|', BarAt(before, all, curNums));
      row := row0[..i];
      return;
    }
    PrintedHasNoSeparator(curNums);
    Landmarks(before, all, 0);
    var i := ScanRight(row0, 0, '|', |before|);
    row := Print(curNums + 1) + row0[i..];
  }

  /** The count in front of the row. */
  method ReadCount(row: string, ghost nodes: seq<Node>) returns (firstNode: nat, curNums: nat)
    requires WellFormed(nodes) && nodes != [] && |nodes| <= MAX_INT32 && row == RowText(nodes)
    ensures firstNode == |Print(|nodes|)| && curNums == |nodes|
  {
    hide Print, Body, Read;
    ghost var before := Print(|nodes|);
    PrintedHasNoSeparator(|nodes|);
    Landmarks(before, nodes, 0);
    firstNode := ScanRight(row, 0, '|', |before|);
    assert row[..firstNode] == before;
    curNums := Read(row[..firstNode], MAX_INT32);
    ReadPrint(|nodes|, MAX_INT32);
  }

  /**
   The update of a row. curWeight is the word's new weight in the page whose url number is
   curUrl; a word the page does not have leaves the row alone.
   */
  method UpdateRow(row0: string, curWeight: nat, curUrl: string, maxUrls: int, ghost nodes: seq<Node>)
      returns (row: string)
    requires WellFormed(nodes) && nodes != [] && |nodes| < MAX_INT32 && row0 == RowText(nodes)
    requires curWeight <= MAX_UINT32 && CleanUrl(curUrl)
    ensures row == if curWeight == 0 then row0 else RowText(Updated(nodes, Node(curWeight, curUrl), maxUrls))
  {
    hide Print, Body, Read;
    row := row0;
    if curWeight == 0 {
      return;
    }
    // The guard against an empty text or a leading zero cannot fire: see ReadPrint.
    var insertNode := "|" + Print(curWeight) + "_" + curUrl;
    ghost var x, rest := Node(curWeight, curUrl), RemoveUrl(nodes, curUrl);
    var firstNode, curNums := ReadCount(row, nodes);
    var only;
    row, curNums, only := RemoveExisting(row, firstNode, curNums, curUrl, nodes);
    if only {
      row := "1" + insertNode;
      OneNode(x);
      return;
    }
    RemoveKeeps(nodes, curUrl);
    row := InsertOrdered(row, curWeight, insertNode, rest, x);
    assert WellFormed([x]);
    InsertKeeps(rest, x);
    row := FitToCap(row, curNums, maxUrls, InsertByWeight(rest, x));
  }

  lemma {:induction false} OneNode(x: Node)
    ensures RowText([x]) == "1" + NodeText(x)
    ensures InsertByWeight([], x) == [x]
  {
    BodyCons(x, []);
    assert [x] + [] == [x];
    assert Print(1) == "1";
  }
}
