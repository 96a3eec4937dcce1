/** The derived columns of one row, computed from its player's rows in time
    order (the rows of one `groupby("player_id")` group). */
module Features {
  import opened Rows
  import opened Windows

  /** `touches = carries + targets`. */
  function TouchesOf(r: Row): int
  {
    r.carries + r.targets
  }

  /** `workload = carries + targets + routes`. */
  function WorkloadOf(r: Row): (w: int)
    ensures w == TouchesOf(r) + r.routes
    ensures r.routes >= 0 ==> w >= TouchesOf(r)
  {
    r.carries + r.targets + r.routes
  }

  /** The per-row values that the windowed and cumulative columns are taken of:
      touches, routes, `1 - injured` and `injured`. */
  datatype Column = Touches | Routes | Healthy | Injured

  function Value(c: Column, r: Row): int
  {
    match c
    case Touches => TouchesOf(r)
    case Routes => r.routes
    case Healthy => 1 - r.injured
    case Injured => r.injured
  }

  function ColumnOf(c: Column, g: seq<Row>): (xs: seq<int>)
    ensures |xs| == |g|
  {
    seq(|g|, j requires 0 <= j < |g| => Value(c, g[j]))
  }

  lemma ColumnOfSlice(c: Column, g: seq<Row>, a: nat, b: nat)
    requires a <= b <= |g|
    ensures ColumnOf(c, g[a..b]) == ColumnOf(c, g)[a..b]
  {
  }

  lemma ColumnOfPush(c: Column, g: seq<Row>, r: Row)
    ensures Sum(ColumnOf(c, g + [r])) == Sum(ColumnOf(c, g)) + Value(c, r)
  {
    assert ColumnOf(c, g + [r]) == ColumnOf(c, g) + [Value(c, r)];
    SumPush(ColumnOf(c, g), Value(c, r));
  }

  lemma ColumnOfDropFirst(c: Column, g: seq<Row>)
    requires g != []
    ensures Sum(ColumnOf(c, g[1..])) == Sum(ColumnOf(c, g)) - Value(c, g[0])
  {
    var xs := ColumnOf(c, g);
    assert ColumnOf(c, g[1..]) == xs[1..];
    assert xs[0] == Value(c, g[0]);
    SumDropFirst(xs);
  }

  /** The columns `engineer_features` adds to a row. */
  datatype Derived = Derived(
    touches: int,
    workload: int,
    rollingTouches: real,
    deltaTouches: int,
    rollingRoutes: real,
    gamesPlayedRecent: int,
    gamesMissedRecent: int,
    injuryHistoryScore: int)

  /** The derived columns of row i of one player's time-ordered rows g. */
  function DerivedAt(g: seq<Row>, i: nat): Derived
    requires i < |g|
  {
    Derived(
      TouchesOf(g[i]),
      WorkloadOf(g[i]),
      RollMean(ColumnOf(Touches, g), i),
      Delta(ColumnOf(Touches, g), i),
      RollMean(ColumnOf(Routes, g), i),
      RollSum(ColumnOf(Healthy, g), i),
      RollSum(ColumnOf(Injured, g), i),
      CumSum(ColumnOf(Injured, g), i))
  }

  /** Flag columns hold 0 or 1 (as the data source writes the injury flag). */
  predicate FlagsValid(g: seq<Row>)
  {
    forall j :: 0 <= j < |g| ==> g[j].injured == 0 || g[j].injured == 1
  }

  // ---------------------------------------------------------------------------
  // Properties of one player's derived columns.
  // ---------------------------------------------------------------------------

  /** The derived columns of row i depend only on rows 0 .. i: no statistic
      looks at a later row. */
  lemma DerivedIsCausal(g: seq<Row>, h: seq<Row>, i: nat)
    requires i < |g| && i < |h|
    requires g[..i + 1] == h[..i + 1]
    ensures DerivedAt(g, i) == DerivedAt(h, i)
  {
    assert g[i] == g[..i + 1][i] && h[i] == h[..i + 1][i];
    ColumnsAreCausal(g, h, i, Touches);
    ColumnsAreCausal(g, h, i, Routes);
    ColumnsAreCausal(g, h, i, Healthy);
    ColumnsAreCausal(g, h, i, Injured);
  }

  lemma ColumnsAreCausal(g: seq<Row>, h: seq<Row>, i: nat, c: Column)
    requires i < |g| && i < |h|
    requires g[..i + 1] == h[..i + 1]
    ensures RollMean(ColumnOf(c, g), i) == RollMean(ColumnOf(c, h), i)
    ensures RollSum(ColumnOf(c, g), i) == RollSum(ColumnOf(c, h), i)
    ensures Delta(ColumnOf(c, g), i) == Delta(ColumnOf(c, h), i)
    ensures CumSum(ColumnOf(c, g), i) == CumSum(ColumnOf(c, h), i)
  {
    var xs, ys := ColumnOf(c, g), ColumnOf(c, h);
    assert xs[..i + 1] == ys[..i + 1] by {
      forall j | 0 <= j <= i ensures xs[j] == ys[j] {
        assert g[j] == g[..i + 1][j] && h[j] == h[..i + 1][j];
      }
    }
    StatisticsAreCausal(xs, ys, i);
  }

  /** At a player's first row every window holds that row alone: the rolling
      means are the row's own values, the delta is the fill value 0 and the
      counters start from this row's flag. */
  lemma FirstRowOfPlayer(g: seq<Row>)
    requires g != []
    ensures DerivedAt(g, 0).rollingTouches == TouchesOf(g[0]) as real
    ensures DerivedAt(g, 0).rollingRoutes == g[0].routes as real
    ensures DerivedAt(g, 0).deltaTouches == 0
    ensures DerivedAt(g, 0).gamesPlayedRecent == 1 - g[0].injured
    ensures DerivedAt(g, 0).gamesMissedRecent == g[0].injured
    ensures DerivedAt(g, 0).injuryHistoryScore == g[0].injured
  {
    RollMeanFirst(ColumnOf(Touches, g));
    RollMeanFirst(ColumnOf(Routes, g));
    CumSumFirst(ColumnOf(Injured, g));
    forall c: Column ensures RollSum(ColumnOf(c, g), 0) == Value(c, g[0]) {
      assert Window(ColumnOf(c, g), 0) == [Value(c, g[0])];
      assert Sum([Value(c, g[0])]) == Sum([]) + Value(c, g[0]);
    }
  }

  /** From a player's third row on, the rolling means average exactly that row
      and the two before it. */
  lemma RollingMeansFullWindow(g: seq<Row>, i: nat)
    requires 2 <= i < |g|
    ensures DerivedAt(g, i).rollingTouches
         == (TouchesOf(g[i - 2]) + TouchesOf(g[i - 1]) + TouchesOf(g[i])) as real / 3.0
    ensures DerivedAt(g, i).rollingRoutes
         == (g[i - 2].routes + g[i - 1].routes + g[i].routes) as real / 3.0
  {
    RollMeanFull(ColumnOf(Touches, g), i);
    RollMeanFull(ColumnOf(Routes, g), i);
  }

  /** Each rolling mean lies between the smallest and the largest value of its
      window. */
  lemma RollingMeansWithinWindow(g: seq<Row>, i: nat)
    requires i < |g|
    ensures MinOf(Window(ColumnOf(Touches, g), i)) as real <= DerivedAt(g, i).rollingTouches
    ensures DerivedAt(g, i).rollingTouches <= MaxOf(Window(ColumnOf(Touches, g), i)) as real
    ensures MinOf(Window(ColumnOf(Routes, g), i)) as real <= DerivedAt(g, i).rollingRoutes
    ensures DerivedAt(g, i).rollingRoutes <= MaxOf(Window(ColumnOf(Routes, g), i)) as real
  {
    MeanWithinRange(Window(ColumnOf(Touches, g), i));
    MeanWithinRange(Window(ColumnOf(Routes, g), i));
  }

  /** A player's touch deltas add up to last touches minus first touches. */
  lemma DeltasSumToChange(g: seq<Row>)
    requires g != []
    ensures Sum(seq(|g|, j requires 0 <= j < |g| => DerivedAt(g, j).deltaTouches))
         == TouchesOf(g[|g| - 1]) - TouchesOf(g[0])
  {
    var xs := ColumnOf(Touches, g);
    assert seq(|g|, j requires 0 <= j < |g| => DerivedAt(g, j).deltaTouches) == Deltas(xs);
    DeltasTelescope(xs);
  }

  lemma FlagSums(w: seq<Row>)
    requires FlagsValid(w)
    ensures Sum(ColumnOf(Healthy, w)) + Sum(ColumnOf(Injured, w)) == |w|
    ensures 0 <= Sum(ColumnOf(Injured, w)) <= |w|
  {
    if w != [] {
      var init := w[..|w| - 1];
      assert w == init + [w[|w| - 1]];
      FlagSums(init);
      ColumnOfPush(Healthy, init, w[|w| - 1]);
      ColumnOfPush(Injured, init, w[|w| - 1]);
    }
  }

  /** With 0/1 flags, the rows played and missed in the window add up to the
      window's occupancy min(i + 1, 3), and each lies within it. */
  lemma WindowOccupancy(g: seq<Row>, i: nat)
    requires i < |g| && FlagsValid(g)
    ensures DerivedAt(g, i).gamesPlayedRecent + DerivedAt(g, i).gamesMissedRecent
         == if i + 1 < Width then i + 1 else Width
    ensures 0 <= DerivedAt(g, i).gamesPlayedRecent <= if i + 1 < Width then i + 1 else Width
    ensures 0 <= DerivedAt(g, i).gamesMissedRecent <= if i + 1 < Width then i + 1 else Width
  {
    WindowFlagSums(g, i);
  }

  lemma WindowFlagSums(g: seq<Row>, i: nat)
    requires i < |g| && FlagsValid(g)
    ensures RollSum(ColumnOf(Healthy, g), i) + RollSum(ColumnOf(Injured, g), i)
         == |Window(ColumnOf(Injured, g), i)|
    ensures 0 <= RollSum(ColumnOf(Injured, g), i) <= |Window(ColumnOf(Injured, g), i)|
  {
    var w := g[WindowStart(i)..i + 1];
    ColumnOfSlice(Healthy, g, WindowStart(i), i + 1);
    ColumnOfSlice(Injured, g, WindowStart(i), i + 1);
    assert FlagsValid(w) by {
      forall j | 0 <= j < |w| ensures w[j].injured == 0 || w[j].injured == 1 {
        assert w[j] == g[WindowStart(i) + j];
      }
    }
    FlagSums(w);
  }

  /** The injury score is the player's running injury count: its own flag at
      the first row and the previous score plus this row's flag afterwards. */
  lemma InjuryScoreCounts(g: seq<Row>, i: nat)
    requires i < |g|
    ensures i == 0 ==> DerivedAt(g, i).injuryHistoryScore == g[0].injured
    ensures i > 0 ==>
      DerivedAt(g, i).injuryHistoryScore == DerivedAt(g, i - 1).injuryHistoryScore + g[i].injured
    ensures DerivedAt(g, i).injuryHistoryScore == Sum(ColumnOf(Injured, g[..i + 1]))
  {
    if i == 0 {
      CumSumFirst(ColumnOf(Injured, g));
    } else {
      CumSumStep(ColumnOf(Injured, g), i);
    }
    ColumnOfSlice(Injured, g, 0, i + 1);
    assert g[0..i + 1] == g[..i + 1];
  }

  /** Extending a player's rows by one row: the new row's delta and injury
      score follow from the previous row's. */
  lemma DerivedStep(g: seq<Row>, i: nat)
    requires 0 < i < |g|
    ensures DerivedAt(g, i).deltaTouches == TouchesOf(g[i]) - TouchesOf(g[i - 1])
    ensures DerivedAt(g, i).injuryHistoryScore
         == DerivedAt(g[..i], i - 1).injuryHistoryScore + g[i].injured
  {
    InjuryScoreCounts(g, i);
    DerivedOfShorter(g, i);
  }

  /** Row i - 1 has the same derived columns whether or not row i follows it. */
  lemma DerivedOfShorter(g: seq<Row>, i: nat)
    requires 0 < i <= |g|
    ensures DerivedAt(g[..i], i - 1) == DerivedAt(g, i - 1)
  {
    var h := g[..i];
    var j := i - 1;
    assert g[..j + 1] == h[..j + 1];
    DerivedIsCausal(g, h, j);
  }

  /** With non-negative flags the injury score never decreases, and the last
      row's score is the player's total injury count. */
  lemma InjuryScoreMonotone(g: seq<Row>, i: nat, j: nat)
    requires i <= j < |g|
    requires forall k :: 0 <= k < |g| ==> g[k].injured >= 0
    ensures DerivedAt(g, i).injuryHistoryScore <= DerivedAt(g, j).injuryHistoryScore
  {
    CumSumMonotone(ColumnOf(Injured, g), i, j);
  }

  lemma InjuryScoreTotal(g: seq<Row>)
    requires g != []
    ensures DerivedAt(g, |g| - 1).injuryHistoryScore == Sum(ColumnOf(Injured, g))
  {
    CumSumLast(ColumnOf(Injured, g));
  }

  /** The streaming form: the last row's derived columns follow from its
      window (at most the last three rows), the row before it and the player's
      injury total, which is all the one-pass computation keeps. */
  lemma DerivedOfLastFromWindow(g: seq<Row>, w: seq<Row>)
    requires g != []
    requires w == g[WindowStart(|g| - 1)..]
    ensures DerivedAt(g, |g| - 1) == Derived(
      TouchesOf(g[|g| - 1]),
      WorkloadOf(g[|g| - 1]),
      Sum(ColumnOf(Touches, w)) as real / |w| as real,
      if |g| == 1 then 0 else TouchesOf(g[|g| - 1]) - TouchesOf(g[|g| - 2]),
      Sum(ColumnOf(Routes, w)) as real / |w| as real,
      Sum(ColumnOf(Healthy, w)),
      Sum(ColumnOf(Injured, w)),
      Sum(ColumnOf(Injured, g)))
  {
    var i := |g| - 1;
    assert g[WindowStart(i)..i + 1] == w;
    forall c: Column ensures Window(ColumnOf(c, g), i) == ColumnOf(c, w) {
      ColumnOfSlice(c, g, WindowStart(i), i + 1);
    }
    InjuryScoreTotal(g);
  }

  /** Five rows of one player flagged 0, 1, 0, 0, 1: the injury history score
      runs 0, 1, 1, 1, 2, the games missed within the last three rows
      0, 1, 1, 1, 1 and the games played within them 1, 1, 2, 2, 2. */
  lemma InjuryColumnsExample(g: seq<Row>)
    requires ColumnOf(Injured, g) == [0, 1, 0, 0, 1]
    ensures |g| == 5
    ensures forall i :: 0 <= i < |g| ==> DerivedAt(g, i).injuryHistoryScore == [0, 1, 1, 1, 2][i]
    ensures forall i :: 0 <= i < |g| ==> DerivedAt(g, i).gamesMissedRecent == [0, 1, 1, 1, 1][i]
    ensures forall i :: 0 <= i < |g| ==> DerivedAt(g, i).gamesPlayedRecent == [1, 1, 2, 2, 2][i]
  {
    var xs := ColumnOf(Injured, g);
    var hs := ColumnOf(Healthy, g);
    assert |g| == 5;
    assert forall j :: 0 <= j < 5 ==> hs[j] == 1 - xs[j];
    assert hs[0] == 1 && hs[1] == 0 && hs[2] == 1 && hs[3] == 1 && hs[4] == 0;
    CumSumFirst(xs);
    CumSumStep(xs, 1);
    CumSumStep(xs, 2);
    CumSumStep(xs, 3);
    CumSumStep(xs, 4);
    forall i | 0 <= i < 5
      ensures DerivedAt(g, i).injuryHistoryScore == [0, 1, 1, 1, 2][i]
      ensures DerivedAt(g, i).gamesMissedRecent == [0, 1, 1, 1, 1][i]
      ensures DerivedAt(g, i).gamesPlayedRecent == [1, 1, 2, 2, 2][i]
    {
      RollSumValues(xs, i);
      RollSumValues(hs, i);
      if i == 0 {
      } else if i == 1 {
      } else if i == 2 {
      } else if i == 3 {
      } else {
      }
    }
  }
}
