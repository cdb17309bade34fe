/**
 The posting list of one dictionary word: which urls the word occurs in, heaviest first.
 The database keeps it as one text, `N|w1_u1|w2_u2|...`.
 */
module PostingRow {
  import opened Decimal
  import opened Scan
  import opened Widths

  datatype Node = Node(weight: nat, url: string)

  function NodeText(x: Node): string {
    "|" + Print(x.weight) + "_" + x.url
  }

  function Body(nodes: seq<Node>): string {
    if nodes == [] then "" else NodeText(nodes[0]) + Body(nodes[1..])
  }

  function RowText(nodes: seq<Node>): string {
    Print(|nodes|) + Body(nodes)
  }

  /** What such a row looks like: nodes 7 and 45 with weights 12 and 3. */
  lemma RowLooksLike()
    ensures RowText([Node(12, "7"), Node(3, "45")]) == "2|12_7|3_45"
  {
    var a, b := Node(12, "7"), Node(3, "45");
    assert Print(1) == "1" && Print(3) == "3" && Print(2) == "2";
    assert Print(12) == Print(1) + "2";
    hide Print, Body;
    assert NodeText(a) == "|12_7" && NodeText(b) == "|3_45";
    BodyFirst([]);
    BodyCons(b, []);
    BodyCons(a, [b]);
    assert [b] + [] == [b] && [a] + [b] == [a, b];
  }

  /** A url number contains neither separator. */
  ghost predicate CleanUrl(u: string) {
    forall i :: 0 <= i < |u| ==> u[i] != '|' && u[i] != '_'
  }

  ghost predicate WellFormed(nodes: seq<Node>) {
    forall i :: 0 <= i < |nodes| ==> CleanUrl(nodes[i].url) && nodes[i].weight <= MAX_UINT32
  }

  // What an update does to the list behind the text.

  function RemoveUrl(nodes: seq<Node>, url: string): seq<Node> {
    if nodes == [] then []
    else if nodes[0].url == url then nodes[1..]
    else [nodes[0]] + RemoveUrl(nodes[1..], url)
  }

  function InsertByWeight(nodes: seq<Node>, x: Node): (r: seq<Node>)
    ensures |r| == |nodes| + 1
  {
    if nodes == [] || nodes[0].weight <= x.weight then [x] + nodes
    else [nodes[0]] + InsertByWeight(nodes[1..], x)
  }

  function Reweighted(nodes: seq<Node>, x: Node): seq<Node> {
    InsertByWeight(RemoveUrl(nodes, x.url), x)
  }

  function Updated(nodes: seq<Node>, x: Node, maxUrls: int): (r: seq<Node>)
    ensures r != []
  {
    var rest := RemoveUrl(nodes, x.url);
    var all := InsertByWeight(rest, x);
    if rest != [] && |rest| == maxUrls then all[..|all| - 1] else all
  }

  // Finding one's way in the text.

  lemma {:induction false} BodyConcat(a: seq<Node>, b: seq<Node>)
    ensures Body(a + b) == Body(a) + Body(b)
  {
    if a == [] {
      assert a + b == b;
    } else {
      assert (a + b)[1..] == a[1..] + b;
      BodyConcat(a[1..], b);
    }
  }

  lemma {:induction false} BodyCons(x: Node, rest: seq<Node>)
    ensures Body([x] + rest) == NodeText(x) + Body(rest)
  {
    assert ([x] + rest)[1..] == rest;
  }

  lemma {:induction false} BodySplit(nodes: seq<Node>, k: nat)
    requires k <= |nodes|
    ensures Body(nodes) == Body(nodes[..k]) + Body(nodes[k..])
  {
    BodyConcat(nodes[..k], nodes[k..]);
    assert nodes == nodes[..k] + nodes[k..];
  }

  lemma BodyFrom(nodes: seq<Node>, k: nat)
    requires k < |nodes|
    ensures Body(nodes[k..]) == NodeText(nodes[k]) + Body(nodes[k + 1..])
  {
    BodyCons(nodes[k], nodes[k + 1..]);
    assert nodes[k..] == [nodes[k]] + nodes[k + 1..];
  }

  lemma BodySnoc(nodes: seq<Node>, k: nat)
    requires k < |nodes|
    ensures Body(nodes[..k + 1]) == Body(nodes[..k]) + NodeText(nodes[k])
  {
    BodyConcat(nodes[..k], [nodes[k]]);
    assert nodes[..k + 1] == nodes[..k] + [nodes[k]];
    BodyCons(nodes[k], []);
    assert [nodes[k]] + [] == [nodes[k]];
  }

  lemma {:induction false} BodyFirst(nodes: seq<Node>)
    ensures if nodes == [] then Body(nodes) == "" else Body(nodes) != "" && Body(nodes)[0] == '|'
  {}

  /** The characters of a text that is before + one node + after. */
  ghost predicate Shape(s: string, before: string, x: Node, after: string) {
    var bar, us, end := |before|, |before| + 1 + |Print(x.weight)|, |before| + |NodeText(x)|;
    && us + 1 + |x.url| == end <= |s| && bar + 1 < us
    && s[bar] == '|' && s[us] == '_' && (end < |s| ==> s[end] == '|')
    && (forall i :: bar < i < us ==> IsDigit(s[i]))
    && (forall i :: us < i < end ==> s[i] != '|' && s[i] != '_')
    && s[..bar] == before && s[bar + 1..us] == Print(x.weight)
    && s[us + 1..end] == x.url && s[end..] == after
  }

  lemma NodeInText(s: string, before: string, x: Node, after: string)
    requires s == before + NodeText(x) + after && CleanUrl(x.url)
    requires after != "" ==> after[0] == '|'
    ensures Shape(s, before, x, after)
  {
    hide Print, Shape;
    var p := Print(x.weight);
    var bar, us, end := |before|, |before| + 1 + |p|, |before| + |NodeText(x)|;
    assert forall i :: bar + 1 <= i < us ==> s[i] == p[i - (bar + 1)];
    assert forall i :: us + 1 <= i < end ==> s[i] == x.url[i - (us + 1)];
    assert s[..bar] == before && s[end..] == after;
    ShapeFromCharacters(s, before, x, after);
  }

  lemma ShapeFromCharacters(s: string, before: string, x: Node, after: string)
    requires CleanUrl(x.url) && |s| == |before| + |NodeText(x)| + |after|
    requires var bar, us, end := |before|, |before| + 1 + |Print(x.weight)|, |before| + |NodeText(x)|;
      && s[bar] == '|' && s[us] == '_' && s[..bar] == before && s[end..] == after
      && (forall i :: bar + 1 <= i < us ==> s[i] == Print(x.weight)[i - (bar + 1)])
      && (forall i :: us + 1 <= i < end ==> s[i] == x.url[i - (us + 1)])
    requires after != "" ==> after[0] == '|'
    ensures Shape(s, before, x, after)
  {
    hide Print;
    ReadPrint(x.weight, 0);
    var us := |before| + 1 + |Print(x.weight)|;
    SliceIs(s, |before| + 1, us, Print(x.weight));
    SliceIs(s, us + 1, |before| + |NodeText(x)|, x.url);
    assert after != "" ==> s[|before| + |NodeText(x)|] == after[0];
  }

  lemma SliceIs(s: string, lo: nat, hi: nat, p: string)
    requires lo <= hi <= |s| && hi - lo == |p| && forall i :: lo <= i < hi ==> s[i] == p[i - lo]
    ensures s[lo..hi] == p
  {}

  // Where node k of a list starts in a text, and where its underscore is.

  ghost function BarAt(before: string, nodes: seq<Node>, k: nat): nat
    requires k <= |nodes|
  {
    |before| + |Body(nodes[..k])|
  }

  ghost function UnderAt(before: string, nodes: seq<Node>, k: nat): nat
    requires k < |nodes|
  {
    BarAt(before, nodes, k) + 1 + |Print(nodes[k].weight)|
  }

  /** The characters of node k in the text of a whole list. */
  lemma {:induction false} NodeAt(before: string, nodes: seq<Node>, k: nat)
    requires WellFormed(nodes) && k < |nodes|
    ensures BarAt(before, nodes, k) < UnderAt(before, nodes, k) < BarAt(before, nodes, k + 1) <= |before + Body(nodes)|
    ensures BarAt(before, nodes, k + 1) < |before + Body(nodes)| <==> k + 1 < |nodes|
    ensures BarAt(before, nodes, k + 1) == BarAt(before, nodes, k) + |NodeText(nodes[k])|
    ensures Shape(before + Body(nodes), before + Body(nodes[..k]), nodes[k], Body(nodes[k + 1..]))
  {
    hide Print;
    var b, x, after := before + Body(nodes[..k]), nodes[k], Body(nodes[k + 1..]);
    assert before + Body(nodes) == b + NodeText(x) + after by {
      BodySplit(nodes, k);
      BodyFrom(nodes, k);
    }
    BodySnoc(nodes, k);
    BodyFirst(nodes[k + 1..]);
    NodeInText(before + Body(nodes), b, x, after);
  }

  /** The landmarks of node k that the scans look for. */
  lemma {:induction false} Landmarks(before: string, nodes: seq<Node>, k: nat)
    requires WellFormed(nodes) && k < |nodes|
    ensures var s := before + Body(nodes);
      var bar, us, end := BarAt(before, nodes, k), UnderAt(before, nodes, k), BarAt(before, nodes, k + 1);
      && (k == 0 ==> bar == |before|) && bar + 1 < us < end <= |s| && (end < |s| <==> k + 1 < |nodes|)
      && s[bar] == '|' && s[us] == '_' && (end < |s| ==> s[end] == '|')
      && (forall i :: bar < i < end ==> s[i] != '|')
      && (forall i :: bar <= i < us ==> s[i] != '_')
      && (forall i :: us < i < end ==> s[i] != '_')
  {
    hide Print;
    NodeAt(before, nodes, k);
  }

  /** Every node but the last shows as `_u|`. */
  lemma {:induction false} NodeOccurs(before: string, nodes: seq<Node>, k: nat)
    requires WellFormed(nodes) && k + 1 < |nodes|
    ensures OccursAt(before + Body(nodes), "_" + nodes[k].url + "|", UnderAt(before, nodes, k))
  {
    hide Print, Body, Shape, OccursAt;
    NodeAt(before, nodes, k);
    BodyFirst(nodes[k + 1..]);
    assert UnderAt(before, nodes, k) == |before + Body(nodes[..k])| + 1 + |Print(nodes[k].weight)|;
    UrlOccurs(before + Body(nodes), before + Body(nodes[..k]), nodes[k], Body(nodes[k + 1..]));
  }

  lemma UrlOccurs(s: string, before: string, x: Node, after: string)
    requires Shape(s, before, x, after) && after != ""
    ensures OccursAt(s, "_" + x.url + "|", |before| + 1 + |Print(x.weight)|)
  {
    hide Print;
    var us := |before| + 1 + |Print(x.weight)|;
    var end := us + 1 + |x.url|;
    var pat := "_" + x.url + "|";
    forall i | 0 <= i < |pat|
      ensures s[us + i] == pat[i]
    {
      assert 0 < i <= |x.url| ==> s[us + i] == s[us + 1..end][i - 1] == x.url[i - 1];
    }
  }

  /** A list's text cut at the bar of node k. */
  lemma {:induction false} CutAt(before: string, nodes: seq<Node>, k: nat)
    requires k <= |nodes|
    ensures BarAt(before, nodes, k) <= |before + Body(nodes)|
    ensures (before + Body(nodes))[..BarAt(before, nodes, k)] == before + Body(nodes[..k])
    ensures (before + Body(nodes))[BarAt(before, nodes, k)..] == Body(nodes[k..])
    ensures (before + Body(nodes))[|before|..BarAt(before, nodes, k)] == Body(nodes[..k])
  {
    hide Print, Body;
    BodySplit(nodes, k);
  }

  /** Nodes follow one another from left to right. */
  lemma UnderMonotone(before: string, nodes: seq<Node>, j: nat, k: nat)
    requires j < k < |nodes|
    ensures UnderAt(before, nodes, j) < UnderAt(before, nodes, k)
  {
    hide Print, Body;
    BodySplit(nodes[..k], j + 1);
    assert nodes[..k][..j + 1] == nodes[..j + 1];
    BodySnoc(nodes, j);
  }

  /** `_u|` occurs in the text only at a node of that url that is not the last one. */
  lemma {:induction false} OccurrenceIsNode(before: string, nodes: seq<Node>, u: string, pos: nat)
      returns (k: nat)
    requires WellFormed(nodes) && CleanUrl(u) && pos >= |before|
    requires OccursAt(before + Body(nodes), "_" + u + "|", pos)
    ensures k + 1 < |nodes| && nodes[k].url == u
    ensures pos == UnderAt(before, nodes, k)
    decreases |nodes|
  {
    hide Print;
    var s, pat := before + Body(nodes), "_" + u + "|";
    assert s[pos] == s[pos..pos + |pat|][0] == '_';
    var x, rest := nodes[0], nodes[1..];
    assert s == before + NodeText(x) + Body(rest);
    BodyFirst(rest);
    NodeInText(s, before, x, Body(rest));
    var us, end := |before| + 1 + |Print(x.weight)|, |before| + |NodeText(x)|;
    if pos == us {
      UrlAtUnder(s, before, x, u, Body(rest));
      k := 0;
    } else {
      assert pos >= end;
      assert s == (before + NodeText(x)) + Body(rest);
      var j := OccurrenceIsNode(before + NodeText(x), rest, u, pos);
      UnderAtRest(before, nodes, j);
      k := j + 1;
    }
  }

  lemma UnderAtRest(before: string, nodes: seq<Node>, j: nat)
    requires j + 1 < |nodes|
    ensures UnderAt(before, nodes, j + 1) == UnderAt(before + NodeText(nodes[0]), nodes[1..], j)
  {
    hide Print;
    BodyCons(nodes[0], nodes[1..][..j]);
    assert nodes[..j + 1] == [nodes[0]] + nodes[1..][..j];
  }

  lemma OccursThere(s: string, pat: string, pos: nat, k: nat)
    requires OccursAt(s, pat, pos) && k < |pat|
    ensures s[pos + k] == pat[k]
  {
    assert s[pos..pos + |pat|][k] == s[pos + k];
  }

  lemma UrlAtUnder(s: string, before: string, x: Node, u: string, after: string)
    requires Shape(s, before, x, after) && CleanUrl(x.url) && CleanUrl(u) && (after != "" ==> after[0] == '|')
    requires OccursAt(s, "_" + u + "|", |before| + 1 + |Print(x.weight)|)
    ensures x.url == u && after != ""
  {
    hide Print;
    var us := |before| + 1 + |Print(x.weight)|;
    var pat, end := "_" + u + "|", us + 1 + |x.url|;
    assert pat == "_" + (u + "|");
    assert s[us + 1..] == s[us + 1..end] + s[end..] == x.url + after;
    forall i | 0 <= i <= |u|
      ensures (x.url + after)[i] == (u + "|")[i]
    {
      OccursThere(s, pat, us, i + 1);
      assert s[us + 1..][i] == s[us + 1 + i];
    }
    assert (u + "|")[|u|] == '|';
    SameUrl(x.url, u, after);
  }

  /** Url text followed by the end or a bar, read as u followed by a bar. */
  lemma SameUrl(x: string, u: string, after: string)
    requires CleanUrl(x) && CleanUrl(u) && (after != "" ==> after[0] == '|')
    requires |u| < |x + after| && (x + after)[|u|] == '|'
    requires forall i :: 0 <= i < |u| ==> (x + after)[i] == u[i]
    ensures x == u && after != ""
  {
    assert forall i :: 0 <= i < |x| ==> (x + after)[i] == x[i] != '|';
    assert |u| >= |x|;
    assert after != "" ==> (x + after)[|x|] == after[0] == '|';
    assert |u| == |x|;
  }

  lemma {:induction false} RemoveAt(nodes: seq<Node>, u: string, k: nat)
    requires k < |nodes| && nodes[k].url == u
    requires forall i :: 0 <= i < k ==> nodes[i].url != u
    ensures RemoveUrl(nodes, u) == nodes[..k] + nodes[k + 1..]
  {
    if k > 0 {
      var rest := nodes[1..];
      RemoveAt(rest, u, k - 1);
      assert [nodes[0]] + rest[..k - 1] == nodes[..k];
      assert rest[k..] == nodes[k + 1..];
    }
  }

  lemma {:induction false} RemoveAbsent(nodes: seq<Node>, u: string)
    requires forall i :: 0 <= i < |nodes| ==> nodes[i].url != u
    ensures RemoveUrl(nodes, u) == nodes
  {
    if nodes != [] {
      RemoveAbsent(nodes[1..], u);
    }
  }

  lemma {:induction false} InsertAt(nodes: seq<Node>, x: Node, k: nat)
    requires k <= |nodes| && (k < |nodes| ==> nodes[k].weight <= x.weight)
    requires forall i :: 0 <= i < k ==> nodes[i].weight > x.weight
    ensures InsertByWeight(nodes, x) == nodes[..k] + [x] + nodes[k..]
  {
    if nodes != [] && k > 0 {
      var rest := nodes[1..];
      InsertAt(rest, x, k - 1);
      assert [nodes[0]] + rest[..k - 1] == nodes[..k];
      assert rest[k - 1..] == nodes[k..];
    }
  }

  // The text determines the list.

  lemma SameShape(s: string, x: Node, after: string, y: Node, after': string)
    requires Shape(s, "", x, after) && Shape(s, "", y, after')
    ensures Print(x.weight) == Print(y.weight) && x.url == y.url && after == after'
  {
    hide Print;
    assert |Print(x.weight)| == |Print(y.weight)|;
    assert |x.url| == |y.url|;
  }

  lemma {:induction false} BodyHead(nodes: seq<Node>)
    requires WellFormed(nodes) && nodes != []
    ensures Shape(Body(nodes), "", nodes[0], Body(nodes[1..]))
  {
    hide Print, Shape;
    BodyFirst(nodes[1..]);
    assert Body(nodes) == "" + NodeText(nodes[0]) + Body(nodes[1..]);
    NodeInText(Body(nodes), "", nodes[0], Body(nodes[1..]));
  }

  lemma {:induction false} BodyInjective(a: seq<Node>, b: seq<Node>)
    requires WellFormed(a) && WellFormed(b) && Body(a) == Body(b)
    ensures a == b
  {
    hide Print, Body, Shape;
    BodyFirst(a);
    BodyFirst(b);
    if a != [] {
      BodyHead(a);
      BodyHead(b);
      SameShape(Body(a), a[0], Body(a[1..]), b[0], Body(b[1..]));
      ReadPrint(a[0].weight, 0);
      ReadPrint(b[0].weight, 0);
      BodyInjective(a[1..], b[1..]);
      assert a == [a[0]] + a[1..] && b == [b[0]] + b[1..];
    }
  }

  /** Two lists with the same row text are the same list. */
  lemma RowTextInjective(a: seq<Node>, b: seq<Node>)
    requires WellFormed(a) && WellFormed(b) && a != [] && RowText(a) == RowText(b)
    ensures a == b
  {
    hide Print, Body;
    var s, p, q := RowText(a), Print(|a|), Print(|b|);
    ReadPrint(|a|, 0);
    ReadPrint(|b|, 0);
    BodyFirst(a);
    BodyFirst(b);
    assert s[|p|] == '|';
    assert |b| > 0 ==> s[|q|] == '|';
    assert forall i :: 0 <= i < |p| ==> s[i] == p[i] != '|';
    assert forall i :: 0 <= i < |q| ==> s[i] == q[i] != '|';
    assert |p| == |q|;
    assert p == s[..|p|] == q && Body(a) == s[|p|..] == Body(b);
    BodyInjective(a, b);
  }
}
