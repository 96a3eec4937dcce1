/** Trailing-window statistics over one column of one player's rows, in time
    order: `rolling(3, min_periods=1)` with `.mean()` or `.sum()`, `diff()`
    with its first value filled by 0, and `cumsum()`. */
module Windows {

  /** Width of every trailing window. */
  const Width: nat := 3

  function Sum(xs: seq<int>): int
  {
    if xs == [] then 0 else Sum(xs[..|xs| - 1]) + xs[|xs| - 1]
  }

  lemma {:induction false} SumConcat(a: seq<int>, b: seq<int>)
    ensures Sum(a + b) == Sum(a) + Sum(b)
  {
    if b == [] {
      assert a + b == a;
    } else {
      assert (a + b)[..|a + b| - 1] == a + b[..|b| - 1];
      SumConcat(a, b[..|b| - 1]);
    }
  }

  /** Dropping the oldest value of a window takes it out of the running sum. */
  lemma SumDropFirst(xs: seq<int>)
    requires xs != []
    ensures Sum(xs[1..]) == Sum(xs) - xs[0]
  {
    assert xs == [xs[0]] + xs[1..];
    SumConcat([xs[0]], xs[1..]);
  }

  lemma SumPush(xs: seq<int>, x: int)
    ensures Sum(xs + [x]) == Sum(xs) + x
  {
    assert (xs + [x])[..|xs|] == xs;
  }

  /** First index of the window ending at index i: max(0, i - 2). */
  function WindowStart(i: nat): nat
  {
    if i + 1 < Width then 0 else i + 1 - Width
  }

  /** The values at indices max(0, i - 2) .. i: never a later value, and fewer
      than three only at the start of the sequence. */
  function Window(xs: seq<int>, i: nat): (w: seq<int>)
    requires i < |xs|
    ensures |w| == if i + 1 < Width then i + 1 else Width
    ensures w[|w| - 1] == xs[i]
  {
    xs[WindowStart(i)..i + 1]
  }

  function Mean(xs: seq<int>): real
    requires |xs| > 0
  {
    Sum(xs) as real / |xs| as real
  }

  /** `rolling(3, min_periods=1).mean()` at index i, computed exactly. */
  function RollMean(xs: seq<int>, i: nat): real
    requires i < |xs|
  {
    Mean(Window(xs, i))
  }

  /** `rolling(3, min_periods=1).sum()` at index i. */
  function RollSum(xs: seq<int>, i: nat): int
    requires i < |xs|
  {
    Sum(Window(xs, i))
  }

  /** `diff().fillna(0)` at index i. */
  function Delta(xs: seq<int>, i: nat): int
    requires i < |xs|
  {
    if i == 0 then 0 else xs[i] - xs[i - 1]
  }

  function Deltas(xs: seq<int>): seq<int>
  {
    seq(|xs|, i requires 0 <= i < |xs| => Delta(xs, i))
  }

  /** `cumsum()` at index i: the running total of indices 0 .. i. */
  function CumSum(xs: seq<int>, i: nat): int
    requires i < |xs|
  {
    Sum(xs[..i + 1])
  }

  function MinOf(xs: seq<int>): (m: int)
    requires xs != []
    ensures m in xs
    ensures forall j :: 0 <= j < |xs| ==> m <= xs[j]
  {
    if |xs| == 1 then xs[0]
    else
      var rest := MinOf(xs[..|xs| - 1]);
      if xs[|xs| - 1] < rest then xs[|xs| - 1] else rest
  }

  function MaxOf(xs: seq<int>): (m: int)
    requires xs != []
    ensures m in xs
    ensures forall j :: 0 <= j < |xs| ==> xs[j] <= m
  {
    if |xs| == 1 then xs[0]
    else
      var rest := MaxOf(xs[..|xs| - 1]);
      if xs[|xs| - 1] > rest then xs[|xs| - 1] else rest
  }

  // ---------------------------------------------------------------------------
  // Properties of the statistics.
  // ---------------------------------------------------------------------------

  lemma {:induction false} SumBounds(xs: seq<int>, lo: int, hi: int)
    requires forall j :: 0 <= j < |xs| ==> lo <= xs[j] <= hi
    ensures |xs| * lo <= Sum(xs) <= |xs| * hi
  {
    if xs != [] {
      SumBounds(xs[..|xs| - 1], lo, hi);
    }
  }

  lemma DivideBounds(sum: int, n: nat, lo: int, hi: int)
    requires n > 0 && n * lo <= sum <= n * hi
    ensures lo as real <= sum as real / n as real <= hi as real
  {
    assert (n * lo) as real == n as real * lo as real;
    assert (n * hi) as real == n as real * hi as real;
  }

  /** A mean lies between the smallest and the largest value averaged. */
  lemma MeanWithinRange(xs: seq<int>)
    requires xs != []
    ensures MinOf(xs) as real <= Mean(xs) <= MaxOf(xs) as real
  {
    SumBounds(xs, MinOf(xs), MaxOf(xs));
    DivideBounds(Sum(xs), |xs|, MinOf(xs), MaxOf(xs));
  }

  /** With one value in the window, the mean is that value. */
  lemma RollMeanFirst(xs: seq<int>)
    requires xs != []
    ensures RollMean(xs, 0) == xs[0] as real
  {
    assert Window(xs, 0) == [xs[0]];
    assert Sum([xs[0]]) == Sum([]) + xs[0];
  }

  /** From the third value on, the mean is over exactly the last three values. */
  lemma RollMeanFull(xs: seq<int>, i: nat)
    requires 2 <= i < |xs|
    ensures RollMean(xs, i) == (xs[i - 2] + xs[i - 1] + xs[i]) as real / 3.0
  {
    var w := Window(xs, i);
    assert w == [xs[i - 2], xs[i - 1], xs[i]];
    assert w == [xs[i - 2]] + [xs[i - 1]] + [xs[i]];
    SumPush([xs[i - 2]], xs[i - 1]);
    SumPush([xs[i - 2]] + [xs[i - 1]], xs[i]);
    assert Sum([xs[i - 2]]) == Sum([]) + xs[i - 2];
  }

  /** The first differences add up to last value minus first value. */
  lemma {:induction false} DeltasTelescope(xs: seq<int>)
    requires xs != []
    ensures Sum(Deltas(xs)) == xs[|xs| - 1] - xs[0]
  {
    var n := |xs|;
    if n == 1 {
      assert Deltas(xs) == [0];
      assert Sum([0]) == Sum([]) + 0;
    } else {
      var init := xs[..n - 1];
      DeltasTelescope(init);
      assert Deltas(xs)[..n - 1] == Deltas(init);
    }
  }

  /** Every statistic at index i looks only at indices 0 .. i. */
  lemma StatisticsAreCausal(xs: seq<int>, ys: seq<int>, i: nat)
    requires i < |xs| && i < |ys|
    requires xs[..i + 1] == ys[..i + 1]
    ensures Window(xs, i) == Window(ys, i)
    ensures RollMean(xs, i) == RollMean(ys, i)
    ensures RollSum(xs, i) == RollSum(ys, i)
    ensures Delta(xs, i) == Delta(ys, i)
    ensures CumSum(xs, i) == CumSum(ys, i)
  {
    assert Window(xs, i) == xs[..i + 1][WindowStart(i)..];
    assert Window(ys, i) == ys[..i + 1][WindowStart(i)..];
    assert xs[i] == xs[..i + 1][i] && ys[i] == ys[..i + 1][i];
    if i > 0 {
      assert xs[i - 1] == xs[..i + 1][i - 1] && ys[i - 1] == ys[..i + 1][i - 1];
    }
  }

  lemma CumSumFirst(xs: seq<int>)
    requires xs != []
    ensures CumSum(xs, 0) == xs[0]
  {
    assert xs[..1] == [xs[0]];
    assert Sum([xs[0]]) == Sum([]) + xs[0];
  }

  lemma CumSumStep(xs: seq<int>, i: nat)
    requires 0 < i < |xs|
    ensures CumSum(xs, i) == CumSum(xs, i - 1) + xs[i]
  {
    assert xs[..i + 1][..i] == xs[..i];
  }

  /** Over non-negative values the running total never decreases. */
  lemma {:induction false} CumSumMonotone(xs: seq<int>, i: nat, j: nat)
    requires i <= j < |xs|
    requires forall k :: 0 <= k < |xs| ==> xs[k] >= 0
    ensures CumSum(xs, i) <= CumSum(xs, j)
  {
    if i < j {
      CumSumMonotone(xs, i, j - 1);
      CumSumStep(xs, j);
    }
  }

  lemma CumSumLast(xs: seq<int>)
    requires xs != []
    ensures CumSum(xs, |xs| - 1) == Sum(xs)
  {
    assert xs[..|xs|] == xs;
  }

  lemma SumOfFew(a: int, b: int, c: int)
    ensures Sum([a]) == a && Sum([a, b]) == a + b && Sum([a, b, c]) == a + b + c
  {
    assert [a][..0] == [] && [a, b][..1] == [a] && [a, b, c][..2] == [a, b];
  }

  /** The rolling sum written out: the value itself, then the last two, then
      the last three. */
  lemma RollSumValues(xs: seq<int>, i: nat)
    requires i < |xs|
    ensures RollSum(xs, i) == if i == 0 then xs[0]
                              else if i == 1 then xs[0] + xs[1]
                              else xs[i - 2] + xs[i - 1] + xs[i]
  {
    var w := Window(xs, i);
    if i == 0 {
      assert w == [xs[0]];
      SumOfFew(xs[0], 0, 0);
    } else if i == 1 {
      assert w == [xs[0], xs[1]];
      SumOfFew(xs[0], xs[1], 0);
    } else {
      assert w == [xs[i - 2], xs[i - 1], xs[i]];
      SumOfFew(xs[i - 2], xs[i - 1], xs[i]);
    }
  }
}
