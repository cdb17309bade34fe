/**
 The floor of the Viterbi program: which tables keep every text of a given length clear of it.
 */
module HmmFloor {
  import opened Utf8
  import opened MaxProb
  import opened MaxProbFloor
  import opened Hmm

  /** The statuses end a word, and no path of states that does scores more. */
  ghost predicate IsBest(m: Model, t: seq<Rune>)
    requires t != []
  {
    && EndsAWord(Statuses(m, t), |t|)
    && forall s :: EndsAWord(s, |t|) ==> PathScore(m, t, s) <= PathScore(m, t, Statuses(m, t))
  }

  /** Staying in S, the state of single runes, costs at most least a step on these runes. */
  ghost predicate SinglesAtLeast(m: Model, t: seq<Rune>, least: real) {
    && m.start[STATE_S] >= least && m.trans[STATE_S][STATE_S] >= least
    && forall i :: 0 <= i < |t| ==> Emit(m, STATE_S, t[i]) >= least
  }

  ghost function AllSingles(n: nat): (s: seq<nat>)
    ensures |s| == n && forall i :: 0 <= i < n ==> s[i] == STATE_S
  {
    seq(n, _ => STATE_S)
  }

  lemma {:induction false} SinglesScore(m: Model, t: seq<Rune>, least: real, n: nat)
    requires 0 < n <= |t| && SinglesAtLeast(m, t, least)
    ensures IsStates(AllSingles(n)) && PathScore(m, t, AllSingles(n)) >= Times(2 * n, least)
  {
    var s := AllSingles(n);
    if n == 1 {
      assert Times(2, least) == least + Times(1, least) && Times(1, least) == least;
    } else {
      SinglesScore(m, t, least, n - 1);
      assert s[..n - 1] == AllSingles(n - 1);
      assert Times(2 * n, least) == least + Times(2 * n - 1, least);
      assert Times(2 * n - 1, least) == least + Times(2 * n - 2, least);
    }
  }

  lemma {:induction false} CheapSinglesAreBest(m: Model, t: seq<Rune>, least: real)
    requires t != [] && LogTables(m) && SinglesAtLeast(m, t, least) && Times(2 * |t|, least) > MIN_DOUBLE
    ensures IsBest(m, t)
  {
    hide LogTables, PathScore;
    SinglesScore(m, t, least, |t|);
    assert EndsAWord(AllSingles(|t|), |t|);
    StatusesAreBestIff(m, t);
  }

  /** A single rune is never at the floor, which is set from the second rune on. */
  lemma OneRuneIsBest(m: Model, t: seq<Rune>)
    requires |t| == 1
    ensures IsBest(m, t)
  {
    var y := FinalState(m, t);
    TraceEndsAWord(m, t, 0, y);
    assert TraceAboveFloor(m, t, 0, y);
    forall s | EndsAWord(s, 1)
      ensures PathScore(m, t, s) <= PathScore(m, t, Statuses(m, t))
    {
      StatusesAreOptimal(m, t, s);
    }
  }

  // Tables that allow nothing but staying in S, at least a step.

  ghost function StayInS(least: real, low: real): Model {
    HmmModel([low, low, low, least],
      [[low, low, low, low], [low, low, low, low], [low, low, low, low], [low, low, low, least]],
      [map[], map[], map[], map[0 := least]])
  }

  ghost function Zeros(n: nat): (t: seq<Rune>)
    ensures |t| == n && forall i :: 0 <= i < n ==> t[i] == 0
  {
    seq(n, _ => 0)
  }

  /** Every cell but those of S is far down, and those of S go down to the floor. */
  lemma {:induction false} CellsGoDown(least: real, low: real, n: nat, x: nat, y: nat)
    requires x < n && y < STATES && least < 0.0 && low < MIN_DOUBLE
    ensures var w := CellAt(StayInS(least, low), Zeros(n), x, y).weight;
      && (y == STATE_S ==> w <= MIN_DOUBLE || w <= Times(2 * x + 2, least))
      && (y != STATE_S ==> w <= MIN_DOUBLE)
    decreases x, 1
  {
    var m, t := StayInS(least, low), Zeros(n);
    if x == 0 {
      assert Times(2, least) == least + Times(1, least) && Times(1, least) == least;
    } else {
      RelaxGoesDown(least, low, n, x, y, STATES);
    }
  }

  lemma {:induction false} RelaxGoesDown(least: real, low: real, n: nat, x: nat, y: nat, k: nat)
    requires 0 < x < n && y < STATES && k <= STATES && least < 0.0 && low < MIN_DOUBLE
    ensures var c := Relax(StayInS(least, low), Zeros(n), x, y, k);
      && (y == STATE_S ==> c.weight <= MIN_DOUBLE || c.weight <= Times(2 * x + 2, least))
      && (y != STATE_S ==> c == Cell(MIN_DOUBLE, STATE_E))
    decreases x, 0, k
  {
    var m, t := StayInS(least, low), Zeros(n);
    if k > 0 {
      RelaxGoesDown(least, low, n, x, y, k - 1);
      CellsGoDown(least, low, n, x - 1, k - 1);
      TimesIsLow(2 * x, least);
      assert Times(2 * x + 2, least) == least + Times(2 * x + 1, least);
      assert Times(2 * x + 1, least) == least + Times(2 * x, least);
    }
  }

  lemma {:induction false} TimesIsLow(n: nat, least: real)
    requires least < 0.0
    ensures Times(n, least) <= 0.0
  {
    FewerTimes(0, n, least);
  }

  lemma {:induction false} StaysNonPositive(least: real, low: real, n: nat, s: seq<nat>)
    requires 0 < |s| <= n && IsStates(s) && least < 0.0 && low < MIN_DOUBLE
    ensures PathScore(StayInS(least, low), Zeros(n), s) <= 0.0
  {
    var x := |s| - 1;
    if x > 0 {
      StaysNonPositive(least, low, n, s[..x]);
    }
  }

  lemma {:induction false} FinalIsE(least: real, low: real, n: nat)
    requires n >= 2 && least < 0.0 && low < MIN_DOUBLE && Times(2 * n, least) <= MIN_DOUBLE
    ensures FinalState(StayInS(least, low), Zeros(n)) == STATE_E
  {
    hide StayInS, Zeros, Relax;
    var m, t := StayInS(least, low), Zeros(n);
    RelaxGoesDown(least, low, n, n - 1, STATE_E, STATES);
    RelaxGoesDown(least, low, n, n - 1, STATE_S, STATES);
    RelaxFrom(m, t, n - 1, STATE_S, STATES);
  }

  lemma {:induction false} EndingInE(least: real, low: real, n: nat, s: seq<nat>)
    requires |s| == n >= 2 && IsStates(s) && s[n - 1] == STATE_E && least < 0.0 && low < MIN_DOUBLE
    ensures PathScore(StayInS(least, low), Zeros(n), s) <= low
  {
    StaysNonPositive(least, low, n, s[..n - 1]);
  }

  lemma StayInSTables(least: real, low: real, n: nat)
    requires least < 0.0 && low < MIN_DOUBLE
    ensures LogTables(StayInS(least, low)) && SinglesAtLeast(StayInS(least, low), Zeros(n), least)
  {}

  /** The trace then ends in E, which is far down, while staying in S is not. */
  lemma {:induction false} TraceLeavesS(n: nat, least: real)
    requires n >= 2 && Times(2 * n, least) <= MIN_DOUBLE
    ensures var m, t := StayInS(least, Times(2 * n, least) - 1.0), Zeros(n);
      LogTables(m) && SinglesAtLeast(m, t, least) && !IsBest(m, t)
  {
    var low := Times(2 * n, least) - 1.0;
    var m, t := StayInS(least, low), Zeros(n);
    TimesIsNegative(2 * n, least);
    StayInSTables(least, low, n);
    FinalIsE(least, low, n);
    hide StayInS, LogTables, SinglesAtLeast, PathScore, FinalState, Times;
    TraceEndsAWord(m, t, n - 1, STATE_E);
    EndingInE(least, low, n, Statuses(m, t));
    SinglesScore(m, t, least, n);
    assert EndsAWord(AllSingles(n), n);
  }

  /** Whatever the tables and the text, steps that never add and cheap single runes make the statuses best. */
  ghost predicate AlwaysBest(n: nat, least: real)
    requires n > 0
  {
    forall m, t :: |t| == n && LogTables(m) && SinglesAtLeast(m, t, least) ==> IsBest(m, t)
  }

  /**
   The exact bound: every text of n runes gets the best path of states, under all tables in
   which no step adds and staying in S costs at most least a step, if and only if 2 * n
   times least is above the floor (or n is one).
   */
  lemma AlwaysBestIff(n: nat, least: real)
    requires n > 0
    ensures AlwaysBest(n, least) <==> n == 1 || (2 * n) as real * least > MIN_DOUBLE
  {
    hide LogTables, SinglesAtLeast, IsBest, StayInS, Times;
    TimesIsProduct(2 * n, least);
    if n == 1 || Times(2 * n, least) > MIN_DOUBLE {
      forall m, t | |t| == n && LogTables(m) && SinglesAtLeast(m, t, least)
        ensures IsBest(m, t)
      {
        if n == 1 {
          OneRuneIsBest(m, t);
        } else {
          CheapSinglesAreBest(m, t, least);
        }
      }
    } else {
      TraceLeavesS(n, least);
    }
  }

  // Tables of any sign.

  /** No start, no step and no rune of the text costs more than least, in any state. */
  ghost predicate AllAtLeast(m: Model, t: seq<Rune>, least: real) {
    && (forall y :: 0 <= y < STATES ==> m.start[y] >= least)
    && (forall y, z :: 0 <= y < STATES && 0 <= z < STATES ==> m.trans[y][z] >= least)
    && (forall y: nat, i :: y < STATES && 0 <= i < |t| ==> Emit(m, y, t[i]) >= least)
  }

  lemma {:induction false} TwoMore(x: nat, least: real)
    ensures Times(2 * x + 2, least) == Times(2 * x, least) + least + least
  {
    assert Times(2 * x + 2, least) == least + Times(2 * x + 1, least);
  }

  lemma {:induction false} CellsAtLeast(m: Model, t: seq<Rune>, least: real, x: nat, y: nat)
    requires x < |t| && y < STATES && AllAtLeast(m, t, least)
    ensures CellAt(m, t, x, y).weight >= Times(2 * x + 2, least)
  {
    TwoMore(x, least);
    assert Emit(m, y, t[x]) >= least;
    if x > 0 {
      CellsAtLeast(m, t, least, x - 1, 0);
      RelaxFrom(m, t, x, y, STATES);
      assert Via(m, t, x, y, 0) <= CellAt(m, t, x, y).weight;
    }
  }

  lemma {:induction false} PathsAtLeast(m: Model, t: seq<Rune>, least: real, s: seq<nat>)
    requires 0 < |s| <= |t| && IsStates(s) && AllAtLeast(m, t, least)
    ensures PathScore(m, t, s) >= Times(2 * |s|, least)
  {
    var x := |s| - 1;
    TwoMore(x, least);
    assert Emit(m, s[x], t[x]) >= least;
    if x > 0 {
      PathsAtLeast(m, t, least, s[..x]);
    }
  }

  /** In front of the last rune every cell is above the floor. */
  lemma {:induction false} ClearInFront(m: Model, t: seq<Rune>, least: real, x: nat, y: nat)
    requires x < |t| - 1 && y < STATES && AllAtLeast(m, t, least) && least < 0.0 && Times(2 * |t|, least) >= MIN_DOUBLE
    ensures TraceAboveFloor(m, t, x, y)
  {
    if x > 0 {
      CellsAtLeast(m, t, least, x, y);
      FewerTimes(2 * x + 2, 2 * |t|, least);
      FewerTimes(2 * x + 2, 2 * |t| - 1, least);
      TraceStep(m, t, x, y);
      ClearInFront(m, t, least, x - 1, CellAt(m, t, x, y).from);
    }
  }

  /** At the bound itself the final cells may be at the floor, but then all paths score the same. */
  lemma {:induction false} CostlyTextsAreBest(m: Model, t: seq<Rune>, least: real)
    requires |t| > 1 && AllAtLeast(m, t, least) && least < 0.0 && Times(2 * |t|, least) >= MIN_DOUBLE
    ensures IsBest(m, t)
  {
    hide AllAtLeast, PathScore, Times;
    var n, y := |t|, FinalState(m, t);
    TraceEndsAWord(m, t, n - 1, y);
    TraceStep(m, t, n - 1, y);
    ClearInFront(m, t, least, n - 2, CellAt(m, t, n - 1, y).from);
    PathsAtLeast(m, t, least, Statuses(m, t));
    CellsAtLeast(m, t, least, n - 1, y);
    forall s | EndsAWord(s, n)
      ensures PathScore(m, t, s) <= PathScore(m, t, Statuses(m, t))
    {
      if CellAt(m, t, n - 1, y).weight > MIN_DOUBLE {
        StatusesAreOptimal(m, t, s);
      } else {
        CellBoundsPaths(m, t, s);
      }
    }
  }

  // Tables in which everything costs the same, but for one rune in one state.

  ghost function AlmostEven(least: real, more: real): Model {
    HmmModel([least, least, least, least],
      [[least, least, least, least], [least, least, least, least], [least, least, least, least], [least, least, least, least]],
      [map[0 := least, 1 := least + more], map[0 := least, 1 := least], map[0 := least, 1 := least], map[0 := least, 1 := least]])
  }

  ghost function OneBeforeLast(n: nat): (t: seq<Rune>)
    requires n >= 2
    ensures |t| == n && forall i :: 0 <= i < n ==> t[i] == if i == n - 2 then 1 else 0
  {
    seq(n, i => if i == n - 2 then 1 else 0)
  }

  ghost function Extra(n: nat, x: nat, y: nat, more: real): real {
    if x + 2 == n && y == 0 then more else 0.0
  }

  lemma AlmostEvenTables(least: real, more: real, n: nat)
    requires n >= 2 && more > 0.0
    ensures AllAtLeast(AlmostEven(least, more), OneBeforeLast(n), least)
    ensures forall x: nat, y: nat :: x < n && y < STATES ==>
      Emit(AlmostEven(least, more), y, OneBeforeLast(n)[x]) == least + Extra(n, x, y, more)
  {}

  /** What makes the gain too small to lift the last column above the floor. */
  ghost predicate TooLittle(n: nat, least: real, more: real) {
    n >= 2 && 0.0 < more <= -least - least && Times(2 * n, least) + more <= MIN_DOUBLE
  }

  lemma {:induction false} FrontCells(least: real, more: real, n: nat, x: nat, y: nat)
    requires TooLittle(n, least, more) && x < n - 1 && y < STATES
    ensures var w := CellAt(AlmostEven(least, more), OneBeforeLast(n), x, y).weight;
      w <= MIN_DOUBLE || w <= Times(2 * x + 2, least) + Extra(n, x, y, more)
    decreases x, 1
  {
    hide AlmostEven, OneBeforeLast;
    AlmostEvenTables(least, more, n);
    if x == 0 {
      StartsEven(least, more, n, y);
    } else {
      FrontRelaxed(least, more, n, x, y, STATES);
    }
  }

  lemma {:induction false} StartsEven(least: real, more: real, n: nat, y: nat)
    requires n >= 2 && y < STATES && more > 0.0
    ensures CellAt(AlmostEven(least, more), OneBeforeLast(n), 0, y).weight == Times(2, least) + Extra(n, 0, y, more)
  {
    AlmostEvenTables(least, more, n);
    TwoMore(0, least);
  }

  lemma {:induction false} FrontRelaxed(least: real, more: real, n: nat, x: nat, y: nat, k: nat)
    requires TooLittle(n, least, more) && 0 < x < n - 1 && y < STATES && k <= STATES
    ensures var w := Relax(AlmostEven(least, more), OneBeforeLast(n), x, y, k).weight;
      w <= MIN_DOUBLE || w <= Times(2 * x + 2, least) + Extra(n, x, y, more)
    decreases x, 0, k
  {
    if k > 0 {
      FrontRelaxed(least, more, n, x, y, k - 1);
      FrontCells(least, more, n, x - 1, k - 1);
      OneStep(least, more, n, x, y, k - 1);
      TwoMore(x, least);
    }
  }

  lemma {:induction false} OneStep(least: real, more: real, n: nat, x: nat, y: nat, preY: nat)
    requires n >= 2 && more > 0.0 && 0 < x < n && y < STATES && preY < STATES
    ensures var m, t := AlmostEven(least, more), OneBeforeLast(n);
      Via(m, t, x, y, preY) == CellAt(m, t, x - 1, preY).weight + least + least + Extra(n, x, y, more)
  {
    AlmostEvenTables(least, more, n);
  }

  lemma {:induction false} LastRelaxed(least: real, more: real, n: nat, y: nat, k: nat)
    requires TooLittle(n, least, more) && y < STATES && k <= STATES
    ensures Relax(AlmostEven(least, more), OneBeforeLast(n), n - 1, y, k) == Cell(MIN_DOUBLE, STATE_E)
  {
    if k > 0 {
      LastRelaxed(least, more, n, y, k - 1);
      FrontCells(least, more, n, n - 2, k - 1);
      OneStep(least, more, n, n - 1, y, k - 1);
      TwoMore(n - 1, least);
    }
  }

  /** What a path gains over the same number of equal steps. */
  ghost function Gain(n: nat, s: seq<nat>, more: real): real
    requires n >= 2
  {
    if |s| >= n - 1 then Extra(n, n - 2, s[n - 2], more) else 0.0
  }

  lemma {:induction false} EvenScore(least: real, more: real, n: nat, s: seq<nat>)
    requires n >= 2 && more > 0.0 && 0 < |s| <= n && IsStates(s)
    ensures PathScore(AlmostEven(least, more), OneBeforeLast(n), s) == Times(2 * |s|, least) + Gain(n, s, more)
  {
    hide AlmostEven, OneBeforeLast, Times;
    var x := |s| - 1;
    TwoMore(x, least);
    NoTimes(least);
    AlmostEvenTables(least, more, n);
    assert Emit(AlmostEven(least, more), s[x], OneBeforeLast(n)[x]) == least + Extra(n, x, s[x], more);
    if x > 0 {
      EvenScore(least, more, n, s[..x]);
      EvenSteps(least, more, s[x - 1], s[x]);
      assert Gain(n, s, more) == Gain(n, s[..x], more) + Extra(n, x, s[x], more);
    } else {
      EvenSteps(least, more, s[0], s[0]);
    }
  }

  lemma EvenSteps(least: real, more: real, y: nat, z: nat)
    requires y < STATES && z < STATES
    ensures AlmostEven(least, more).start[y] == AlmostEven(least, more).trans[y][z] == least
  {}

  lemma {:induction false} NoTimes(least: real)
    ensures Times(0, least) == 0.0
  {}

  lemma TraceEndsInE(least: real, more: real, n: nat)
    requires TooLittle(n, least, more)
    ensures var best := Statuses(AlmostEven(least, more), OneBeforeLast(n));
      |best| == n && IsStates(best) && best[n - 2] == STATE_E
  {
    assert n >= 2;
    hide AlmostEven, OneBeforeLast, TooLittle, Relax, Trace;
    var m, t := AlmostEven(least, more), OneBeforeLast(n);
    LastRelaxed(least, more, n, STATE_E, STATES);
    LastRelaxed(least, more, n, STATE_S, STATES);
    CellIsRelaxed(m, t, n - 1, STATE_E);
    CellIsRelaxed(m, t, n - 1, STATE_S);
    hide CellAt;
    TraceStep(m, t, n - 1, STATE_E);
    TraceEndsAWord(m, t, n - 2, STATE_E);
  }

  /** The trace then comes to the last rune from E, where the rune before it gained nothing. */
  lemma TraceMissesGain(least: real, more: real, n: nat)
    requires TooLittle(n, least, more)
    ensures !IsBest(AlmostEven(least, more), OneBeforeLast(n))
  {
    assert n >= 2 && more > 0.0;
    hide AlmostEven, OneBeforeLast, PathScore, TooLittle, Times, Statuses;
    var best := Statuses(AlmostEven(least, more), OneBeforeLast(n));
    TraceEndsInE(least, more, n);
    EvenScore(least, more, n, best);
    var better := seq(n, i => if i == n - 2 then 0 else STATE_E);
    EvenScore(least, more, n, better);
    assert Gain(n, best, more) == 0.0 && Gain(n, better, more) == more;
    assert EndsAWord(better, n);
  }

  lemma FreeTextsAreBest(m: Model, t: seq<Rune>, least: real)
    requires |t| > 1 && AllAtLeast(m, t, least) && least >= 0.0
    ensures IsBest(m, t)
  {
    var below := MIN_DOUBLE / (2 * |t|) as real;
    TimesIsProduct(2 * |t|, below);
    CostlyTextsAreBest(m, t, below);
  }

  lemma {:induction false} LittleGain(n: nat, least: real) returns (more: real)
    requires n >= 2 && Times(2 * n, least) < MIN_DOUBLE
    ensures TooLittle(n, least, more)
  {
    TimesIsNegative(2 * n, least);
    var gap := MIN_DOUBLE - Times(2 * n, least);
    more := if gap <= -least - least then gap else -least - least;
  }

  /** Whatever the signs in the tables, as long as nothing costs more than least, the statuses are best. */
  ghost predicate AlwaysBestAbove(n: nat, least: real)
    requires n > 0
  {
    forall m, t :: |t| == n && AllAtLeast(m, t, least) ==> IsBest(m, t)
  }

  /** Over tables of any sign the bound is 2 * n times least again, and here it may be at the floor. */
  lemma AlwaysBestAboveIff(n: nat, least: real)
    requires n > 0
    ensures AlwaysBestAbove(n, least) <==> n == 1 || (2 * n) as real * least >= MIN_DOUBLE
  {
    hide AllAtLeast, IsBest, AlmostEven, Times;
    TimesIsProduct(2 * n, least);
    if n == 1 || Times(2 * n, least) >= MIN_DOUBLE {
      forall m, t | |t| == n && AllAtLeast(m, t, least)
        ensures IsBest(m, t)
      {
        if n == 1 {
          OneRuneIsBest(m, t);
        } else if least < 0.0 {
          CostlyTextsAreBest(m, t, least);
        } else {
          FreeTextsAreBest(m, t, least);
        }
      }
    } else {
      var more := LittleGain(n, least);
      AlmostEvenTables(least, more, n);
      TraceMissesGain(least, more, n);
    }
  }
}
