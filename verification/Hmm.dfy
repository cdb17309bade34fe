/**
 The hidden Markov segmenter: Viterbi over four states, and the cut of runs of runes that
 are not ASCII. Letters and numbers are taken out first by rule.
 */
module Hmm {
  import opened Utf8
  import opened Trie
  import opened MaxProb
  import opened IndexArithmetic

  // The states: begin, end, middle, single.
  const STATES: nat := 4
  const STATE_E: nat := 1
  const STATE_S: nat := 3

  datatype HmmModel = HmmModel(start: seq<real>, trans: seq<seq<real>>, emit: seq<map<Rune, real>>)

  ghost predicate WellSized(m: HmmModel) {
    |m.start| == |m.trans| == |m.emit| == STATES && forall y :: 0 <= y < STATES ==> |m.trans[y]| == STATES
  }

  type Model = m: HmmModel | WellSized(m)
    ghost witness HmmModel([0.0, 0.0, 0.0, 0.0],
      [[0.0, 0.0, 0.0, 0.0], [0.0, 0.0, 0.0, 0.0], [0.0, 0.0, 0.0, 0.0], [0.0, 0.0, 0.0, 0.0]],
      [map[], map[], map[], map[]])

  function Emit(m: Model, y: nat, r: Rune): real
    requires y < STATES
  {
    if r in m.emit[y] then m.emit[y][r] else MIN_DOUBLE
  }

  // The table, cell by cell: the best score of reaching state y at rune x, and from where.

  datatype Cell = Cell(weight: real, from: int)

  function CellAt(m: Model, t: seq<Rune>, x: nat, y: nat): Cell
    requires x < |t| && y < STATES
    decreases x, STATES + 1
  {
    if x == 0 then Cell(m.start[y] + Emit(m, y, t[0]), -1) else Relax(m, t, x, y, STATES)
  }

  /** The first k predecessor states tried in turn, a later one taken only if strictly better. */
  function Relax(m: Model, t: seq<Rune>, x: nat, y: nat, k: nat): Cell
    requires 0 < x < |t| && y < STATES && k <= STATES
    decreases x, k
  {
    if k == 0 then Cell(MIN_DOUBLE, STATE_E)
    else
      var best, tmp := Relax(m, t, x, y, k - 1), Via(m, t, x, y, k - 1);
      if tmp > best.weight then Cell(tmp, k - 1) else best
  }

  /** The score of reaching state y at rune x through state preY. */
  function Via(m: Model, t: seq<Rune>, x: nat, y: nat, preY: nat): real
    requires 0 < x < |t| && y < STATES && preY < STATES
    decreases x - 1, STATES + 2
  {
    CellAt(m, t, x - 1, preY).weight + m.trans[preY][y] + Emit(m, y, t[x])
  }

  lemma {:induction false} RelaxFrom(m: Model, t: seq<Rune>, x: nat, y: nat, k: nat)
    requires 0 < x < |t| && y < STATES && k <= STATES
    ensures 0 <= Relax(m, t, x, y, k).from < STATES
    ensures Relax(m, t, x, y, k).weight >= MIN_DOUBLE
    ensures forall preY: nat :: preY < k ==> Via(m, t, x, y, preY) <= Relax(m, t, x, y, k).weight
    ensures Relax(m, t, x, y, k).weight > MIN_DOUBLE ==>
      Relax(m, t, x, y, k).weight == Via(m, t, x, y, Relax(m, t, x, y, k).from)
  {
    if k > 0 {
      RelaxFrom(m, t, x, y, k - 1);
    }
  }

  /** Of the best predecessors a cell points back to the first, and at the floor to E. */
  lemma {:induction false} FirstPredecessorWins(m: Model, t: seq<Rune>, x: nat, y: nat, k: nat)
    requires 0 < x < |t| && y < STATES && k <= STATES
    ensures var c := Relax(m, t, x, y, k);
      && (c.weight == MIN_DOUBLE ==> c.from == STATE_E)
      && (c.weight > MIN_DOUBLE ==> c.from < k && forall preY: nat :: preY < c.from ==> Via(m, t, x, y, preY) < c.weight)
  {
    hide Via;
    if k > 0 {
      FirstPredecessorWins(m, t, x, y, k - 1);
      RelaxFrom(m, t, x, y, k - 1);
    }
  }

  /** The states traced back from state y at rune x. */
  function Trace(m: Model, t: seq<Rune>, x: nat, y: nat): seq<nat>
    requires x < |t| && y < STATES
  {
    if x == 0 then [y]
    else
      RelaxFrom(m, t, x, y, STATES);
      Trace(m, t, x - 1, CellAt(m, t, x, y).from) + [y]
  }

  /** The better of the two states a text may end in, E on a tie. */
  function FinalState(m: Model, t: seq<Rune>): (y: nat)
    requires t != []
    ensures y == STATE_E || y == STATE_S
    ensures y == STATE_S <==> CellAt(m, t, |t| - 1, STATE_S).weight > CellAt(m, t, |t| - 1, STATE_E).weight
  {
    if CellAt(m, t, |t| - 1, STATE_E).weight >= CellAt(m, t, |t| - 1, STATE_S).weight then STATE_E else STATE_S
  }

  function Statuses(m: Model, t: seq<Rune>): seq<nat>
    requires t != []
  {
    Trace(m, t, |t| - 1, FinalState(m, t))
  }

  // The arrays of the source: cell (x, y) of a text of size X is at x + y * X.

  function At(x: nat, y: nat, size: nat): nat {
    x + y * size
  }

  lemma AtBounds(x: nat, y: nat, size: nat)
    requires x < size && y < STATES
    ensures At(x, y, size) < size * STATES
  {}

  lemma AtInjective(x: nat, y: nat, x': nat, y': nat, size: nat)
    requires x < size && x' < size && y < STATES && y' < STATES && At(x, y, size) == At(x', y', size)
    ensures x == x' && y == y'
  {
    if y < y' {
      AtOrdered(x, y, x', y', size);
    } else if y' < y {
      AtOrdered(x', y', x, y, size);
    }
  }

  lemma AtOrdered(x: nat, y: nat, x': nat, y': nat, size: nat)
    requires x < size && y < y'
    ensures At(x, y, size) < At(x', y', size)
  {
    MulStep(y, size);
    MulMonotone(y + 1, y', size);
  }

  /** Cells up to column x, and of column x those up to row y, hold what the table says. */
  ghost predicate Filled(m: Model, t: seq<Rune>, weight: seq<real>, path: seq<int>, x: nat, y: nat) {
    |weight| == |path| == |t| * STATES &&
    forall x', y' {:trigger At(x', y', |t|)} :: 0 <= x' < |t| && 0 <= y' < STATES && (x' < x || (x' == x && y' < y)) ==>
      && At(x', y', |t|) < |t| * STATES
      && weight[At(x', y', |t|)] == CellAt(m, t, x', y').weight
      && path[At(x', y', |t|)] == CellAt(m, t, x', y').from
  }

  lemma {:induction false} FillOne(m: Model, t: seq<Rune>, weight: seq<real>, path: seq<int>, x: nat, y: nat)
    requires x < |t| && y < STATES && Filled(m, t, weight, path, x, y)
    ensures At(x, y, |t|) < |t| * STATES
    ensures var now, cell := At(x, y, |t|), CellAt(m, t, x, y);
      Filled(m, t, weight[now := cell.weight], path[now := cell.from], x, y + 1)
  {
    hide CellAt, At;
    AtBounds(x, y, |t|);
    var now, cell := At(x, y, |t|), CellAt(m, t, x, y);
    var weight', path' := weight[now := cell.weight], path[now := cell.from];
    forall x', y' {:trigger At(x', y', |t|)} | 0 <= x' < |t| && 0 <= y' < STATES && (x' < x || (x' == x && y' < y + 1))
      ensures At(x', y', |t|) < |t| * STATES
      ensures weight'[At(x', y', |t|)] == CellAt(m, t, x', y').weight
      ensures path'[At(x', y', |t|)] == CellAt(m, t, x', y').from
    {
      AtBounds(x', y', |t|);
      if At(x', y', |t|) == now {
        AtInjective(x, y, x', y', |t|);
      }
    }
  }

  lemma {:induction false} CellIsRelaxed(m: Model, t: seq<Rune>, x: nat, y: nat)
    requires 0 < x < |t| && y < STATES
    ensures CellAt(m, t, x, y) == Relax(m, t, x, y, STATES)
  {}

  /** One cell: the predecessors tried in turn, from the arrays. */
  method RelaxCell(m: Model, t: seq<Rune>, weight: array<real>, path: array<int>, x: nat, y: nat)
    requires weight != path as object && 0 < x < |t| && y < STATES && Filled(m, t, weight[..], path[..], x, y)
    modifies weight, path
    ensures Filled(m, t, weight[..], path[..], x, y + 1)
  {
    hide CellAt, At;
    FillOne(m, t, weight[..], path[..], x, y);
    CellIsRelaxed(m, t, x, y);
    var now := At(x, y, |t|);
    ghost var weight0, path0 := weight[..], path[..];
    weight[now], path[now] := MIN_DOUBLE, STATE_E;
    var emitProb := Emit(m, y, t[x]);
    for preY := 0 to STATES
      invariant weight[..] == weight0[now := Relax(m, t, x, y, preY).weight]
      invariant path[..] == path0[now := Relax(m, t, x, y, preY).from]
    {
      AtBounds(x - 1, preY, |t|);
      var old' := At(x - 1, preY, |t|);
      assert old' != now by {
        if old' == now {
          AtInjective(x - 1, preY, x, y, |t|);
        }
      }
      assert weight[old'] == weight0[old'] == CellAt(m, t, x - 1, preY).weight;
      var tmp := weight[old'] + m.trans[preY][y] + emitProb;
      if tmp > weight[now] {
        weight[now] := tmp;
        path[now] := preY;
      }
    }
  }

  lemma ColumnDone(m: Model, t: seq<Rune>, weight: seq<real>, path: seq<int>, x: nat)
    requires Filled(m, t, weight, path, x, STATES)
    ensures Filled(m, t, weight, path, x + 1, 0)
  {}

  /** Fills the table column by column, then walks it back from the better final state. */
  method Viterbi(m: Model, t: seq<Rune>) returns (status: seq<nat>)
    requires t != []
    ensures status == Statuses(m, t)
  {
    hide CellAt, At, Filled;
    var size := |t|;
    var path := new int[size * STATES](_ => 0);
    var weight := new real[size * STATES](_ => 0.0);
    NothingFilled(m, t, weight[..], path[..]);
    for y := 0 to STATES
      invariant Filled(m, t, weight[..], path[..], 0, y)
    {
      FillOne(m, t, weight[..], path[..], 0, y);
      FirstColumn(m, t, y);
      weight[At(0, y, size)] := m.start[y] + Emit(m, y, t[0]);
      path[At(0, y, size)] := -1;
    }
    ColumnDone(m, t, weight[..], path[..], 0);
    for x := 1 to size
      invariant Filled(m, t, weight[..], path[..], x, 0)
    {
      for y := 0 to STATES
        invariant Filled(m, t, weight[..], path[..], x, y)
      {
        RelaxCell(m, t, weight, path, x, y);
      }
      ColumnDone(m, t, weight[..], path[..], x);
    }
    FilledCell(m, t, weight[..], path[..], size - 1, STATE_E);
    FilledCell(m, t, weight[..], path[..], size - 1, STATE_S);
    var endE, endS := weight[At(size - 1, STATE_E, size)], weight[At(size - 1, STATE_S, size)];
    var stat: int := if endE >= endS then STATE_E else STATE_S;
    status := [];
    var x := size;
    while x > 0
      invariant 0 <= x <= size && Filled(m, t, weight[..], path[..], size, 0)
      invariant x > 0 ==> 0 <= stat < STATES && Trace(m, t, x - 1, stat) + status == Statuses(m, t)
      invariant x == 0 ==> status == Statuses(m, t)
    {
      x := x - 1;
      FilledCell(m, t, weight[..], path[..], x, stat);
      TraceStep(m, t, x, stat);
      status := [stat] + status;
      stat := path[At(x, stat, size)];
    }
  }

  lemma NothingFilled(m: Model, t: seq<Rune>, weight: seq<real>, path: seq<int>)
    requires |weight| == |path| == |t| * STATES
    ensures Filled(m, t, weight, path, 0, 0)
  {}

  lemma {:induction false} FirstColumn(m: Model, t: seq<Rune>, y: nat)
    requires t != [] && y < STATES
    ensures CellAt(m, t, 0, y) == Cell(m.start[y] + Emit(m, y, t[0]), -1)
  {}

  lemma {:induction false} FilledCell(m: Model, t: seq<Rune>, weight: seq<real>, path: seq<int>, x: nat, y: nat)
    requires x < |t| && y < STATES && Filled(m, t, weight, path, |t|, 0)
    ensures At(x, y, |t|) < |weight| == |path|
    ensures weight[At(x, y, |t|)] == CellAt(m, t, x, y).weight && path[At(x, y, |t|)] == CellAt(m, t, x, y).from
  {
    hide CellAt, At;
    var i := At(x, y, |t|);
  }

  lemma TraceStep(m: Model, t: seq<Rune>, x: nat, y: nat)
    requires x < |t| && y < STATES
    ensures x > 0 ==> 0 <= CellAt(m, t, x, y).from < STATES
    ensures Trace(m, t, x, y) == (if x == 0 then [] else Trace(m, t, x - 1, CellAt(m, t, x, y).from)) + [y]
  {
    if x > 0 {
      RelaxFrom(m, t, x, y, STATES);
    }
  }

  // Optimality.

  ghost predicate IsStates(s: seq<nat>) {
    forall k :: 0 <= k < |s| ==> s[k] < STATES
  }

  /** The score of a path of states through the first |s| runes. */
  ghost function PathScore(m: Model, t: seq<Rune>, s: seq<nat>): real
    requires 0 < |s| <= |t| && IsStates(s)
  {
    var x := |s| - 1;
    // What the tables say about the rune in that state; the floor for a rune they do not know.
    var known := m.emit[s[x]];
    var emit := if t[x] in known then known[t[x]] else MIN_DOUBLE;
    if x == 0 then m.start[s[0]] + emit
    else PathScore(m, t, s[..x]) + m.trans[s[x - 1]][s[x]] + emit
  }

  /** Every cell bounds the score of every path of states that ends there. */
  lemma {:induction false} CellBoundsPaths(m: Model, t: seq<Rune>, s: seq<nat>)
    requires 0 < |s| <= |t| && IsStates(s)
    ensures PathScore(m, t, s) <= CellAt(m, t, |s| - 1, s[|s| - 1]).weight
  {
    var x := |s| - 1;
    if x > 0 {
      var y, preY := s[x], s[x - 1];
      CellBoundsPaths(m, t, s[..x]);
      RelaxFrom(m, t, x, y, STATES);
      assert Via(m, t, x, y, preY) <= Relax(m, t, x, y, STATES).weight;
    }
  }

  /** No cell on the way back from state y at rune x has fallen to the floor. */
  ghost predicate TraceAboveFloor(m: Model, t: seq<Rune>, x: nat, y: nat)
    requires x < |t| && y < STATES
  {
    x == 0 ||
    (CellAt(m, t, x, y).weight > MIN_DOUBLE &&
     (TraceStep(m, t, x, y); TraceAboveFloor(m, t, x - 1, CellAt(m, t, x, y).from)))
  }

  /** Above the floor the states traced back score exactly what the cell says. */
  lemma {:induction false} TraceAttains(m: Model, t: seq<Rune>, x: nat, y: nat)
    requires x < |t| && y < STATES && TraceAboveFloor(m, t, x, y)
    ensures var s := Trace(m, t, x, y);
      && |s| == x + 1 && IsStates(s) && s[x] == y
      && PathScore(m, t, s) == CellAt(m, t, x, y).weight
  {
    if x > 0 {
      TraceStep(m, t, x, y);
      RelaxFrom(m, t, x, y, STATES);
      var preY := CellAt(m, t, x, y).from;
      TraceAttains(m, t, x - 1, preY);
      var s := Trace(m, t, x, y);
      assert s[..x] == Trace(m, t, x - 1, preY);
    }
  }

  /**
   For any tables and any text: above the floor, the statuses end in E or S, and no path of
   states that does scores more.
   */
  lemma {:induction false} StatusesAreOptimal(m: Model, t: seq<Rune>, s: seq<nat>)
    requires t != [] && TraceAboveFloor(m, t, |t| - 1, FinalState(m, t))
    requires |s| == |t| && IsStates(s) && (s[|t| - 1] == STATE_E || s[|t| - 1] == STATE_S)
    ensures var best := Statuses(m, t);
      && |best| == |t| && IsStates(best) && (best[|t| - 1] == STATE_E || best[|t| - 1] == STATE_S)
      && PathScore(m, t, s) <= PathScore(m, t, best)
  {
    TraceAttains(m, t, |t| - 1, FinalState(m, t));
    CellBoundsPaths(m, t, s);
  }

  /** No step adds to a score, as with logarithms of probabilities. */
  ghost predicate LogTables(m: Model) {
    && (forall y, z :: 0 <= y < STATES && 0 <= z < STATES ==> m.trans[y][z] <= 0.0)
    && (forall y, r :: 0 <= y < STATES && r in m.emit[y] ==> m.emit[y][r] <= 0.0)
  }

  lemma {:induction false} HeavyTraceIsAboveFloor(m: Model, t: seq<Rune>, x: nat, y: nat)
    requires x < |t| && y < STATES && LogTables(m) && CellAt(m, t, x, y).weight > MIN_DOUBLE
    ensures TraceAboveFloor(m, t, x, y)
  {
    if x > 0 {
      TraceStep(m, t, x, y);
      RelaxFrom(m, t, x, y, STATES);
      var preY := CellAt(m, t, x, y).from;
      assert CellAt(m, t, x, y).weight == Via(m, t, x, y, preY);
      assert m.trans[preY][y] <= 0.0 && Emit(m, y, t[x]) <= 0.0;
      HeavyTraceIsAboveFloor(m, t, x - 1, preY);
    }
  }

  ghost predicate EndsAWord(s: seq<nat>, n: nat) {
    |s| == n > 0 && IsStates(s) && (s[n - 1] == STATE_E || s[n - 1] == STATE_S)
  }

  /** Where no step adds, the final cell is above the floor exactly when some path that ends a word is. */
  lemma {:induction false} FinalIsClearIff(m: Model, t: seq<Rune>)
    requires t != [] && LogTables(m)
    ensures CellAt(m, t, |t| - 1, FinalState(m, t)).weight > MIN_DOUBLE
       <==> exists s :: EndsAWord(s, |t|) && PathScore(m, t, s) > MIN_DOUBLE
  {
    var last := CellAt(m, t, |t| - 1, FinalState(m, t));
    if last.weight > MIN_DOUBLE {
      HeavyTraceIsAboveFloor(m, t, |t| - 1, FinalState(m, t));
      TraceAttains(m, t, |t| - 1, FinalState(m, t));
      assert EndsAWord(Statuses(m, t), |t|);
    }
    forall s | EndsAWord(s, |t|)
      ensures PathScore(m, t, s) <= last.weight
    {
      CellBoundsPaths(m, t, s);
    }
  }

  lemma {:induction false} TraceEndsAWord(m: Model, t: seq<Rune>, x: nat, y: nat)
    requires x < |t| && y < STATES
    ensures |Trace(m, t, x, y)| == x + 1 && IsStates(Trace(m, t, x, y)) && Trace(m, t, x, y)[x] == y
  {
    TraceStep(m, t, x, y);
    if x > 0 {
      TraceEndsAWord(m, t, x - 1, CellAt(m, t, x, y).from);
    }
  }

  /** The statuses lead back from the final state, each cell to where it came from. */
  lemma {:induction false} TraceFollows(m: Model, t: seq<Rune>, x: nat, y: nat, k: nat)
    requires 0 < k <= x < |t| && y < STATES
    ensures |Trace(m, t, x, y)| == x + 1 && IsStates(Trace(m, t, x, y)) && Trace(m, t, x, y)[x] == y
    ensures Trace(m, t, x, y)[k - 1] == CellAt(m, t, k, Trace(m, t, x, y)[k]).from
  {
    TraceEndsAWord(m, t, x, y);
    TraceStep(m, t, x, y);
    var preY := CellAt(m, t, x, y).from;
    TraceEndsAWord(m, t, x - 1, preY);
    if k < x {
      TraceFollows(m, t, x - 1, preY, k);
    }
  }

  lemma {:induction false} HeavyStatuses(m: Model, t: seq<Rune>, s: seq<nat>)
    requires t != [] && LogTables(m) && EndsAWord(s, |t|) && PathScore(m, t, s) > MIN_DOUBLE
    ensures EndsAWord(Statuses(m, t), |t|) && PathScore(m, t, s) <= PathScore(m, t, Statuses(m, t))
  {
    CellBoundsPaths(m, t, s);
    HeavyTraceIsAboveFloor(m, t, |t| - 1, FinalState(m, t));
    StatusesAreOptimal(m, t, s);
  }

  /**
   Where no step adds: the statuses score more than the floor exactly when some path that
   ends a word does, and then no such path scores more than they do.
   */
  lemma {:induction false} StatusesAreBestIff(m: Model, t: seq<Rune>)
    requires t != [] && LogTables(m)
    ensures EndsAWord(Statuses(m, t), |t|)
    ensures PathScore(m, t, Statuses(m, t)) > MIN_DOUBLE
       <==> exists s :: EndsAWord(s, |t|) && PathScore(m, t, s) > MIN_DOUBLE
    ensures PathScore(m, t, Statuses(m, t)) > MIN_DOUBLE ==>
      forall s :: EndsAWord(s, |t|) ==> PathScore(m, t, s) <= PathScore(m, t, Statuses(m, t))
  {
    TraceEndsAWord(m, t, |t| - 1, FinalState(m, t));
    hide LogTables, PathScore;
    forall s | EndsAWord(s, |t|) && PathScore(m, t, s) > MIN_DOUBLE
      ensures PathScore(m, t, s) <= PathScore(m, t, Statuses(m, t))
    {
      HeavyStatuses(m, t, s);
    }
  }

  /** Four states without any emission entry, all steps free but E after E. */
  ghost function NothingKnown(): Model {
    HmmModel([0.0, 0.0, 0.0, 0.0],
      [[0.0, 0.0, 0.0, 0.0], [0.0, -1.0, 0.0, 0.0], [0.0, 0.0, 0.0, 0.0], [0.0, 0.0, 0.0, 0.0]],
      [map[], map[], map[], map[]])
  }

  lemma {:induction false} NothingKnownFloors(t: seq<Rune>, y: nat, k: nat)
    requires |t| == 2 && y < STATES && k <= STATES
    ensures Relax(NothingKnown(), t, 1, y, k) == Cell(MIN_DOUBLE, STATE_E)
  {
    if k > 0 {
      NothingKnownFloors(t, y, k - 1);
      assert CellAt(NothingKnown(), t, 0, k - 1).weight == MIN_DOUBLE;
    }
  }

  /**
   The floor matters here too: two runes the tables do not know drop every cell to it, and
   the path traced back scores less than another that ends in E.
   */
  lemma FloorMisleads(a: Rune, b: Rune)
    ensures var m, t := NothingKnown(), [a, b];
      && Statuses(m, t) == [STATE_E, STATE_E]
      && PathScore(m, t, [STATE_E, STATE_E]) < PathScore(m, t, [0, STATE_E])
  {
    var m, t := NothingKnown(), [a, b];
    NothingKnownFloors(t, STATE_E, STATES);
    NothingKnownFloors(t, STATE_S, STATES);
    assert CellAt(m, t, 1, STATE_E) == CellAt(m, t, 1, STATE_S) == Cell(MIN_DOUBLE, STATE_E);
    assert Trace(m, t, 0, STATE_E) == [STATE_E];
    assert Trace(m, t, 1, STATE_E) == [STATE_E] + [STATE_E];
    assert [STATE_E, STATE_E][..1] == [STATE_E] && [0, STATE_E][..1] == [0];
    assert PathScore(m, t, [STATE_E]) == PathScore(m, t, [0]) == MIN_DOUBLE;
  }

  // Cutting.

  /** The words that end wherever the status is odd, that is E or S. */
  ghost function StatusWords(status: seq<nat>, begin: nat, left: nat, i: nat): seq<WordRange>
    requires left <= i <= |status|
    decreases |status| - i
  {
    if i == |status| then []
    else if status[i] % 2 == 1 then [WordRange(begin + left, begin + i)] + StatusWords(status, begin, i + 1, i + 1)
    else StatusWords(status, begin, left, i + 1)
  }

  ghost function RunWords(m: Model, text: seq<Rune>, begin: nat, end: nat): seq<WordRange>
    requires begin < end <= |text|
  {
    StatusWords(Statuses(m, text[begin..end]), begin, 0, 0)
  }

  method InternalCut(m: Model, text: seq<Rune>, begin: nat, end: nat, res0: seq<WordRange>) returns (res: seq<WordRange>)
    requires begin < end <= |text|
    ensures res == res0 + RunWords(m, text, begin, end)
  {
    var status := Viterbi(m, text[begin..end]);
    res := res0;
    var left := begin;
    for i := 0 to |status|
      invariant begin <= left <= begin + i
      invariant res + StatusWords(status, begin, left - begin, i) == res0 + StatusWords(status, begin, 0, 0)
    {
      if status[i] % 2 == 1 {
        var right := begin + i + 1;
        res := res + [WordRange(left, right - 1)];
        left := right;
      }
    }
  }

  predicate IsLetter(r: Rune) {
    ('a' as int <= r <= 'z' as int) || ('A' as int <= r <= 'Z' as int)
  }

  predicate IsNumeral(r: Rune) {
    '0' as int <= r <= '9' as int
  }

  predicate IsAscii(r: Rune) {
    r < 0x80
  }

  /** All runes of a stretch fit, and the one behind it does not. */
  ghost predicate Longest(text: seq<Rune>, from: nat, stop: nat, end: nat, fits: Rune -> bool) {
    && from <= stop <= end <= |text|
    && (forall k :: from <= k < stop ==> fits(text[k]))
    && (stop < end ==> !fits(text[stop]))
  }

  predicate LetterTail(r: Rune) {
    IsLetter(r) || IsNumeral(r)
  }

  predicate NumberTail(r: Rune) {
    IsNumeral(r) || r == '.' as int
  }

  predicate NotAscii(r: Rune) {
    !IsAscii(r)
  }

  /** A letter, and the letters and digits that follow it. */
  method SequentialLetterRule(text: seq<Rune>, begin: nat, end: nat) returns (stop: nat)
    requires begin < end <= |text|
    ensures !IsLetter(text[begin]) ==> stop == begin
    ensures IsLetter(text[begin]) ==> begin < stop && Longest(text, begin + 1, stop, end, LetterTail)
  {
    if !IsLetter(text[begin]) {
      return begin;
    }
    stop := begin + 1;
    while stop != end && LetterTail(text[stop])
      invariant begin < stop <= end
      invariant forall k :: begin + 1 <= k < stop ==> LetterTail(text[k])
    {
      stop := stop + 1;
    }
  }

  /** A digit, and the digits and points that follow it. */
  method NumbersRule(text: seq<Rune>, begin: nat, end: nat) returns (stop: nat)
    requires begin < end <= |text|
    ensures !IsNumeral(text[begin]) ==> stop == begin
    ensures IsNumeral(text[begin]) ==> begin < stop && Longest(text, begin + 1, stop, end, NumberTail)
  {
    if !IsNumeral(text[begin]) {
      return begin;
    }
    stop := begin + 1;
    while stop != end && NumberTail(text[stop])
      invariant begin < stop <= end
      invariant forall k :: begin + 1 <= k < stop ==> NumberTail(text[k])
    {
      stop := stop + 1;
    }
  }

  /** The end of the stretch of fitting runes at i. */
  ghost function StretchEnd(text: seq<Rune>, i: nat, end: nat, fits: Rune -> bool): (stop: nat)
    requires i <= end <= |text|
    ensures Longest(text, i, stop, end, fits)
    decreases end - i
  {
    if i < end && fits(text[i]) then StretchEnd(text, i + 1, end, fits) else i
  }

  lemma {:induction false} StretchUnique(text: seq<Rune>, i: nat, stop: nat, end: nat, fits: Rune -> bool)
    requires Longest(text, i, stop, end, fits)
    ensures stop == StretchEnd(text, i, end, fits)
    decreases stop - i
  {
    if i < stop {
      StretchUnique(text, i + 1, stop, end, fits);
    }
  }

  /** Where the ASCII word at i ends: letters and digits, a number, or one character. */
  ghost function AsciiEnd(text: seq<Rune>, i: nat, end: nat): (stop: nat)
    requires i < end <= |text|
    ensures i < stop <= end
  {
    if IsLetter(text[i]) then StretchEnd(text, i + 1, end, LetterTail)
    else if IsNumeral(text[i]) then StretchEnd(text, i + 1, end, NumberTail)
    else i + 1
  }

  /** What the cut of a range is: ASCII words by rule, everything else by the model. */
  ghost function CutWords(m: Model, text: seq<Rune>, begin: nat, end: nat): seq<WordRange>
    requires begin <= end <= |text|
    decreases end - begin
  {
    if begin == end then []
    else if IsAscii(text[begin]) then
      var stop := AsciiEnd(text, begin, end);
      [WordRange(begin, stop - 1)] + CutWords(m, text, stop, end)
    else
      var stop := StretchEnd(text, begin, end, NotAscii);
      assert stop > begin;
      RunWords(m, text, begin, stop) + CutWords(m, text, stop, end)
  }

  /** One ASCII word. */
  method AsciiWord(text: seq<Rune>, left: nat, end: nat) returns (right: nat)
    requires left < end <= |text|
    ensures right == AsciiEnd(text, left, end)
  {
    right := SequentialLetterRule(text, left, end);
    if right != left {
      StretchUnique(text, left + 1, right, end, LetterTail);
      return;
    }
    right := NumbersRule(text, left, end);
    if right != left {
      StretchUnique(text, left + 1, right, end, NumberTail);
      return;
    }
    right := right + 1;
  }

  lemma {:induction false} EmptyCut(m: Model, text: seq<Rune>, end: nat)
    requires end <= |text|
    ensures CutWords(m, text, end, end) == []
  {}

  lemma {:induction false} CutWordsAscii(m: Model, text: seq<Rune>, left: nat, end: nat)
    requires left < end <= |text| && IsAscii(text[left])
    ensures var stop := AsciiEnd(text, left, end);
      CutWords(m, text, left, end) == [WordRange(left, stop - 1)] + CutWords(m, text, stop, end)
  {}

  lemma {:induction false} CutWordsRun(m: Model, text: seq<Rune>, left: nat, right: nat, end: nat)
    requires left < right && Longest(text, left, right, end, NotAscii)
    ensures CutWords(m, text, left, end) == RunWords(m, text, left, right) + CutWords(m, text, right, end)
  {
    StretchUnique(text, left, right, end, NotAscii);
    assert NotAscii(text[left]);
  }

  method Cut(m: Model, text: seq<Rune>, begin: nat, end: nat, res0: seq<WordRange>) returns (res: seq<WordRange>)
    requires begin <= end <= |text|
    ensures res == res0 + CutWords(m, text, begin, end)
  {
    hide CutWords, RunWords, AsciiEnd;
    res := res0;
    var left, right := begin, begin;
    while right != end
      invariant begin <= left <= right <= end
      invariant forall k :: left <= k < right ==> !IsAscii(text[k])
      invariant res + CutWords(m, text, left, end) == res0 + CutWords(m, text, begin, end)
      decreases end - right
    {
      if IsAscii(text[right]) {
        if left != right {
          CutWordsRun(m, text, left, right, end);
          res := InternalCut(m, text, left, right, res);
        }
        left := right;
        CutWordsAscii(m, text, left, end);
        right := AsciiWord(text, left, end);
        res := res + [WordRange(left, right - 1)];
        left := right;
      } else {
        right := right + 1;
      }
    }
    EmptyCut(m, text, end);
    if left != right {
      CutWordsRun(m, text, left, right, end);
      res := InternalCut(m, text, left, right, res);
    }
  }

  // Coverage.

  lemma {:induction false} TilesConcat(a: seq<WordRange>, b: seq<WordRange>, i: nat, j: nat, k: nat)
    requires Tiles(a, i, j) && Tiles(b, j, k)
    ensures Tiles(a + b, i, k)
    decreases |a|
  {
    if a == [] {
      assert a + b == b;
    } else {
      assert (a + b)[1..] == a[1..] + b;
      TilesGrow(b, j, k);
      TilesConcat(a[1..], b, a[0].right + 1, j, k);
    }
  }

  lemma {:induction false} TilesGrow(a: seq<WordRange>, i: nat, j: nat)
    requires Tiles(a, i, j)
    ensures i <= j
    decreases |a|
  {
    if a != [] {
      TilesGrow(a[1..], a[0].right + 1, j);
    }
  }

  lemma {:induction false} StatusWordsTile(status: seq<nat>, begin: nat, left: nat, i: nat)
    requires left <= i <= |status| && (i == |status| ==> left == i)
    requires i < |status| ==> status[|status| - 1] % 2 == 1
    ensures Tiles(StatusWords(status, begin, left, i), begin + left, begin + |status|)
    decreases |status| - i
  {
    if i < |status| {
      if status[i] % 2 == 1 {
        StatusWordsTile(status, begin, i + 1, i + 1);
      } else {
        StatusWordsTile(status, begin, left, i + 1);
      }
    }
  }

  lemma {:induction false} RunWordsTile(m: Model, text: seq<Rune>, begin: nat, end: nat)
    requires begin < end <= |text|
    ensures Tiles(RunWords(m, text, begin, end), begin, end)
  {
    var t := text[begin..end];
    TraceEndsAWord(m, t, |t| - 1, FinalState(m, t));
    StatusWordsTile(Statuses(m, t), begin, 0, 0);
  }

  /** The cut covers its range without gap or overlap, for any tables, floor or no floor. */
  lemma {:induction false} CutWordsTile(m: Model, text: seq<Rune>, begin: nat, end: nat)
    requires begin <= end <= |text|
    ensures Tiles(CutWords(m, text, begin, end), begin, end)
    decreases end - begin
  {
    if begin < end {
      if IsAscii(text[begin]) {
        CutWordsTile(m, text, AsciiEnd(text, begin, end), end);
      } else {
        var stop := StretchEnd(text, begin, end, NotAscii);
        assert stop > begin;
        RunWordsTile(m, text, begin, stop);
        CutWordsTile(m, text, stop, end);
        TilesConcat(RunWords(m, text, begin, stop), CutWords(m, text, stop, end), begin, stop, end);
      }
    }
  }

  // What the cut is, word by word.

  /** Some word ends at this rune. */
  ghost predicate EndsAt(words: seq<WordRange>, i: nat) {
    exists w :: w in words && w.right == i
  }

  lemma {:induction false} StatusWordsEnd(status: seq<nat>, begin: nat, left: nat, i: nat, k: nat)
    requires left <= i <= |status| && k < |status|
    ensures EndsAt(StatusWords(status, begin, left, i), begin + k) <==> i <= k && status[k] % 2 == 1
    decreases |status| - i
  {
    if i < |status| {
      if status[i] % 2 == 1 {
        var w, rest := WordRange(begin + left, begin + i), StatusWords(status, begin, i + 1, i + 1);
        StatusWordsEnd(status, begin, i + 1, i + 1, k);
        EndsMore(w, rest, begin + k);
      } else {
        StatusWordsEnd(status, begin, left, i + 1, k);
      }
    }
  }

  lemma EndsMore(w: WordRange, rest: seq<WordRange>, i: nat)
    ensures EndsAt([w] + rest, i) <==> w.right == i || EndsAt(rest, i)
  {
    if w.right == i {
      assert w in [w] + rest;
    }
  }

  /** In a run of runes that are not ASCII a word ends exactly where the statuses say E or S. */
  lemma RunEndsByStatus(m: Model, text: seq<Rune>, begin: nat, end: nat, i: nat)
    requires begin <= i < end <= |text|
    ensures |Statuses(m, text[begin..end])| == end - begin
    ensures EndsAt(RunWords(m, text, begin, end), i) <==>
      var status := Statuses(m, text[begin..end])[i - begin]; status == STATE_E || status == STATE_S
  {
    var t := text[begin..end];
    TraceEndsAWord(m, t, |t| - 1, FinalState(m, t));
    StatusWordsEnd(Statuses(m, t), begin, 0, 0, i - begin);
  }

  /** A word that starts with an ASCII rune: letters and digits, digits and points, or the rune alone. */
  lemma {:induction false} AsciiWordsAre(m: Model, text: seq<Rune>, begin: nat, end: nat, w: WordRange)
    requires begin <= end <= |text| && w in CutWords(m, text, begin, end)
    ensures begin <= w.left <= w.right < end
    ensures var r, stop := text[w.left], w.right + 1;
      && (IsLetter(r) ==> Longest(text, w.left + 1, stop, end, LetterTail))
      && (IsNumeral(r) ==> Longest(text, w.left + 1, stop, end, NumberTail))
      && (IsAscii(r) && !IsLetter(r) && !IsNumeral(r) ==> stop == w.left + 1)
    decreases end - begin
  {
    if IsAscii(text[begin]) {
      var stop := AsciiEnd(text, begin, end);
      if w != WordRange(begin, stop - 1) {
        AsciiWordsAre(m, text, stop, end, w);
      }
    } else {
      var stop := StretchEnd(text, begin, end, NotAscii);
      assert stop > begin;
      if w in RunWords(m, text, begin, stop) {
        RunWordsTile(m, text, begin, stop);
        TiledWord(RunWords(m, text, begin, stop), begin, stop, w);
        assert NotAscii(text[w.left]);
      } else {
        AsciiWordsAre(m, text, stop, end, w);
      }
    }
  }

  lemma {:induction false} TiledWord(words: seq<WordRange>, b: nat, e: nat, w: WordRange)
    requires Tiles(words, b, e) && w in words
    ensures b <= w.left <= w.right < e
    decreases |words|
  {
    if w != words[0] {
      TiledWord(words[1..], words[0].right + 1, e, w);
    }
    TilesGrow(words[1..], words[0].right + 1, e);
  }

  /** a to b is a maximal stretch of runes that are not ASCII in the range. */
  ghost predicate IsForeignRun(text: seq<Rune>, begin: nat, end: nat, a: nat, b: nat) {
    && begin <= a < b <= end <= |text|
    && (forall k :: a <= k < b ==> !IsAscii(text[k]))
    && (a > begin ==> IsAscii(text[a - 1])) && (b < end ==> IsAscii(text[b]))
  }

  /** Every such stretch is cut by the model, as a whole, and its words stand together. */
  lemma {:induction false} ForeignRunsAreCut(m: Model, text: seq<Rune>, begin: nat, end: nat, a: nat, b: nat) returns (p: nat)
    requires IsForeignRun(text, begin, end, a, b)
    ensures var words, run := CutWords(m, text, begin, end), RunWords(m, text, a, b);
      p + |run| <= |words| && words[p..p + |run|] == run
    decreases end - begin
  {
    hide RunWords;
    if IsAscii(text[begin]) {
      var stop := AsciiEnd(text, begin, end);
      AsciiStretch(text, begin, end, a);
      var q := ForeignRunsAreCut(m, text, stop, end, a, b);
      p := q + 1;
    } else {
      var stop := StretchEnd(text, begin, end, NotAscii);
      assert stop > begin;
      assert forall k :: begin <= k < stop ==> NotAscii(text[k]);
      if a == begin {
        StretchUnique(text, begin, b, end, NotAscii);
        p := 0;
      } else {
        assert stop < end ==> !NotAscii(text[stop]);
        assert a > stop;
        var q := ForeignRunsAreCut(m, text, stop, end, a, b);
        p := |RunWords(m, text, begin, stop)| + q;
      }
    }
  }

  /** An ASCII word does not reach into a stretch of other runes. */
  lemma AsciiStretch(text: seq<Rune>, begin: nat, end: nat, a: nat)
    requires begin < a < end <= |text| && IsAscii(text[begin]) && !IsAscii(text[a])
    ensures AsciiEnd(text, begin, end) <= a
  {
    assert !LetterTail(text[a]) && !NumberTail(text[a]);
  }

  /** The classes of characters by their codes. */
  lemma ClassesAre(r: Rune)
    ensures IsLetter(r) <==> 0x41 <= r <= 0x5a || 0x61 <= r <= 0x7a
    ensures IsNumeral(r) <==> 0x30 <= r <= 0x39
    ensures LetterTail(r) <==> IsLetter(r) || IsNumeral(r)
    ensures NumberTail(r) <==> 0x30 <= r <= 0x39 || r == 0x2e
  {}
}
