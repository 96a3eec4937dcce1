/** The whole result of `engineer_features`: the input rows in canonical order,
    each carrying the derived columns computed within its player's group. */
module Table {
  import opened Rows
  import opened Grouping
  import opened Windows
  import opened Features

  /** One row of the augmented table. */
  datatype Augmented = Augmented(row: Row, derived: Derived)

  function RowsOf(out: seq<Augmented>): (rs: seq<Row>)
    ensures |rs| == |out|
  {
    seq(|out|, k requires 0 <= k < |out| => out[k].row)
  }

  /** The derived columns of row k of s, taken within its player's group. */
  function DerivedOfRow(s: seq<Row>, k: nat): Derived
    requires k < |s|
  {
    RankLocates(s, k);
    DerivedAt(Group(s, s[k].playerId), Rank(s, k))
  }

  /** Every row of s with the derived columns of `groupby("player_id")`. */
  function Augment(s: seq<Row>): (out: seq<Augmented>)
    ensures |out| == |s|
  {
    if s == [] then []
    else Augment(s[..|s| - 1]) + [Augmented(s[|s| - 1], DerivedOfRow(s, |s| - 1))]
  }

  lemma AugmentLast(s: seq<Row>)
    requires s != []
    ensures Augment(s)[|s| - 1] == Augmented(s[|s| - 1], DerivedOfRow(s, |s| - 1))
  {
  }

  lemma AugmentInit(s: seq<Row>, k: nat)
    requires k < |s| - 1
    ensures Augment(s)[k] == Augment(s[..|s| - 1])[k]
  {
  }

  /** Row k of the augmented table is row k of s with its derived columns. */
  lemma {:induction false} AugmentAt(s: seq<Row>, k: nat)
    requires k < |s|
    ensures Augment(s)[k] == Augmented(s[k], DerivedOfRow(s, k))
  {
    if k == |s| - 1 {
      AugmentLast(s);
    } else {
      var init := s[..|s| - 1];
      AugmentInit(s, k);
      AugmentAt(init, k);
      DerivedOfRowPrefix(s, |s| - 1, k);
    }
  }

  /** A table whose row k is row k of s with its derived columns, for every k,
      is the augmented table of s. */
  lemma AugmentOfRows(s: seq<Row>, out: seq<Augmented>)
    requires |out| == |s|
    requires forall k :: 0 <= k < |s| ==> out[k] == Augmented(s[k], DerivedOfRow(s, k))
    ensures out == Augment(s)
  {
    forall k | 0 <= k < |s| ensures out[k] == Augment(s)[k] {
      AugmentAt(s, k);
    }
  }

  /** The augmented table holds exactly the rows of s, in the same order. */
  lemma {:induction false} AugmentRows(s: seq<Row>)
    ensures RowsOf(Augment(s)) == s
  {
    forall k | 0 <= k < |s| ensures RowsOf(Augment(s))[k] == s[k] {
      AugmentAt(s, k);
    }
  }

  /** `engineer_features(df)`: sort, then add the derived columns. N rows in,
      the same N rows out, in ascending (player_id, season, week) order. */
  function EngineerSpec(df: seq<Row>): (out: seq<Augmented>)
    ensures |out| == |df|
    ensures multiset(RowsOf(out)) == multiset(df)
    ensures Sorted(RowsOf(out))
  {
    AugmentRows(SortByKey(df));
    Augment(SortByKey(df))
  }

  /** The augmented rows of player p, in output order. */
  function PlayerRows(out: seq<Augmented>, p: string): seq<Augmented>
  {
    if out == [] then []
    else PlayerRows(out[..|out| - 1], p)
         + (if out[|out| - 1].row.playerId == p then [out[|out| - 1]] else [])
  }

  /** One player's time-ordered rows, each with its derived columns. */
  function PlayerFeatures(g: seq<Row>): seq<Augmented>
  {
    seq(|g|, j requires 0 <= j < |g| => Augmented(g[j], DerivedAt(g, j)))
  }

  // ---------------------------------------------------------------------------
  // Properties of the table.
  // ---------------------------------------------------------------------------

  /** Row k's derived columns are those of the last position of its player's
      rows up to and including row k. */
  lemma DerivedOfGroupPrefix(s: seq<Row>, k: nat, b: seq<Row>)
    requires k < |s| && Group(s[..k + 1], s[k].playerId) == b
    ensures b != [] && DerivedOfRow(s, k) == DerivedAt(b, |b| - 1)
  {
    var g := Group(s, s[k].playerId);
    var i := Rank(s, k);
    RankLocates(s, k);
    assert b[..i + 1] == b;
    DerivedIsCausal(g, b, i);
    DerivedAtCongruent(b, b, i, |b| - 1);
  }

  /** In canonical order, row k's derived columns are those of its position
      k - start in its player's block start .. k: windows, deltas and
      counters see only that player's rows. */
  lemma DerivedInBlock(s: seq<Row>, start: nat, k: nat)
    requires Sorted(s) && InBlock(s, start, k)
    ensures DerivedOfRow(s, k) == DerivedAt(s[start..k + 1], k - start)
  {
    var b := s[start..k + 1];
    BlockIsGroupPrefix(s, start, k);
    DerivedOfGroupPrefix(s, k, b);
    DerivedAtCongruent(b, b, |b| - 1, k - start);
  }

  lemma DerivedAtCongruent(g: seq<Row>, h: seq<Row>, i: nat, j: nat)
    requires i < |g| && g == h && i == j
    ensures DerivedAt(g, i) == DerivedAt(h, j)
  {
  }

  /** At the first row of each player in the sorted table the windows and the
      injury counter start afresh. */
  lemma PlayerFirstRow(s: seq<Row>, k: nat)
    requires Sorted(s) && k < |s|
    requires k == 0 || s[k - 1].playerId != s[k].playerId
    ensures DerivedOfRow(s, k).rollingTouches == TouchesOf(s[k]) as real
    ensures DerivedOfRow(s, k).rollingRoutes == s[k].routes as real
    ensures DerivedOfRow(s, k).deltaTouches == 0
    ensures DerivedOfRow(s, k).gamesPlayedRecent == 1 - s[k].injured
    ensures DerivedOfRow(s, k).gamesMissedRecent == s[k].injured
    ensures DerivedOfRow(s, k).injuryHistoryScore == s[k].injured
  {
    assert InBlock(s, k, k);
    DerivedInBlock(s, k, k);
    var b := s[k..k + 1];
    assert b[0] == s[k];
    FirstRowOfPlayer(b);
  }

  /** At every later row of a player the delta and the injury counter continue
      from the row before. */
  lemma PlayerNextRow(s: seq<Row>, k: nat)
    requires Sorted(s) && 0 < k < |s|
    requires s[k - 1].playerId == s[k].playerId
    ensures DerivedOfRow(s, k).deltaTouches == TouchesOf(s[k]) - TouchesOf(s[k - 1])
    ensures DerivedOfRow(s, k).injuryHistoryScore
         == DerivedOfRow(s, k - 1).injuryHistoryScore + s[k].injured
  {
    var start := BlockStart(s, k - 1);
    BlockExtends(s, start, k);
    var b := s[start..k + 1];
    DerivedInBlock(s, start, k);
    DerivedInBlock(s, start, k - 1);
    SliceFacts(s, start, k);
    DerivedAtCongruent(s[start..k - 1 + 1], b[..k - start], k - 1 - start, k - start - 1);
    DerivedStep(b, k - start);
  }

  lemma SliceFacts(s: seq<Row>, start: nat, k: nat)
    requires start < k < |s|
    ensures s[start..k + 1][k - start] == s[k]
    ensures s[start..k + 1][k - start - 1] == s[k - 1]
    ensures s[start..k + 1][..k - start] == s[start..k - 1 + 1]
  {
  }

  lemma BlockExtends(s: seq<Row>, start: nat, k: nat)
    requires 0 < k < |s| && InBlock(s, start, k - 1)
    requires s[k - 1].playerId == s[k].playerId
    ensures InBlock(s, start, k)
  {
  }

  /** Where the block of row k's player begins. */
  function BlockStart(s: seq<Row>, k: nat): (start: nat)
    requires k < |s|
    ensures InBlock(s, start, k)
  {
    if k == 0 || s[k - 1].playerId != s[k].playerId then k
    else
      var start := BlockStart(s, k - 1);
      assert InBlock(s, start, k - 1);
      start
  }

  lemma DerivedOfRowPrefix(s: seq<Row>, n: nat, k: nat)
    requires k < n <= |s|
    ensures DerivedOfRow(s, k) == DerivedOfRow(s[..n], k)
  {
    var p := s[k].playerId;
    var t := s[..n];
    assert t[..k] == s[..k];
    assert Rank(t, k) == Rank(s, k);
    RankLocates(s, k);
    RankLocates(t, k);
    GroupOfPrefix(s, n, p);
    var g, h := Group(s, p), Group(t, p);
    assert h[..Rank(s, k) + 1] == g[..Rank(s, k) + 1];
    DerivedIsCausal(g, h, Rank(s, k));
  }

  /** The derived columns of earlier rows do not depend on later rows. */
  lemma {:induction false} AugmentPrefix(s: seq<Row>, n: nat)
    requires n <= |s|
    ensures Augment(s)[..n] == Augment(s[..n])
  {
    forall k | 0 <= k < n ensures Augment(s)[k] == Augment(s[..n])[k] {
      AugmentAt(s, k);
      AugmentAt(s[..n], k);
      DerivedOfRowPrefix(s, n, k);
    }
  }

  /** Extending the table by row k extends its augmented form by row k. */
  lemma AugmentStep(s: seq<Row>, k: nat)
    requires k < |s|
    ensures Augment(s[..k + 1]) == Augment(s[..k]) + [Augmented(s[k], DerivedOfRow(s, k))]
  {
    var t := s[..k + 1];
    assert t[..|t| - 1] == s[..k];
    assert t[|t| - 1] == s[k];
    DerivedOfRowPrefix(s, k + 1, k);
  }

  lemma PlayerFeaturesPush(g: seq<Row>, r: Row)
    ensures PlayerFeatures(g + [r]) == PlayerFeatures(g) + [Augmented(r, DerivedAt(g + [r], |g|))]
  {
    forall j | 0 <= j < |g| ensures DerivedAt(g + [r], j) == DerivedAt(g, j) {
      assert (g + [r])[..j + 1] == g[..j + 1];
      DerivedIsCausal(g + [r], g, j);
    }
  }

  lemma PlayerRowsPush(a: seq<Augmented>, x: Augmented, p: string)
    ensures PlayerRows(a + [x], p) == PlayerRows(a, p) + (if x.row.playerId == p then [x] else [])
  {
    assert (a + [x])[..|a|] == a;
  }

  /** The last row of a player's group gets the derived columns of the group's
      last position. */
  lemma DerivedOfLastRow(s: seq<Row>)
    requires s != []
    ensures Group(s, s[|s| - 1].playerId) == Group(s[..|s| - 1], s[|s| - 1].playerId) + [s[|s| - 1]]
    ensures DerivedOfRow(s, |s| - 1)
         == DerivedAt(Group(s, s[|s| - 1].playerId), |Group(s[..|s| - 1], s[|s| - 1].playerId)|)
  {
    GroupStep(s, |s| - 1, s[|s| - 1].playerId);
    assert s[..|s| - 1 + 1] == s;
  }

  /** The output rows of player p are exactly p's rows, each carrying the
      derived columns computed from p's rows alone. */
  lemma {:induction false} GroupwiseOutput(s: seq<Row>, p: string)
    ensures PlayerRows(Augment(s), p) == PlayerFeatures(Group(s, p))
  {
    if s != [] {
      GroupwiseOutput(s[..|s| - 1], p);
      OutputRowsStep(s, p);
      GroupFeaturesStep(s, p);
    }
  }

  /** The last row of s adds itself, with its derived columns, to the output
      rows of its player and of no other player. */
  lemma OutputRowsStep(s: seq<Row>, p: string)
    requires s != []
    ensures PlayerRows(Augment(s), p)
         == PlayerRows(Augment(s[..|s| - 1]), p)
            + (if s[|s| - 1].playerId == p then [Augmented(s[|s| - 1], DerivedOfRow(s, |s| - 1))] else [])
  {
    var x := Augmented(s[|s| - 1], DerivedOfRow(s, |s| - 1));
    assert Augment(s) == Augment(s[..|s| - 1]) + [x];
    PlayerRowsPush(Augment(s[..|s| - 1]), x, p);
  }

  /** The last row of s extends its player's rows and their derived columns by
      itself and the derived columns it gets in s. */
  lemma GroupFeaturesStep(s: seq<Row>, p: string)
    requires s != []
    ensures PlayerFeatures(Group(s, p))
         == PlayerFeatures(Group(s[..|s| - 1], p))
            + (if s[|s| - 1].playerId == p then [Augmented(s[|s| - 1], DerivedOfRow(s, |s| - 1))] else [])
  {
    var init, last := s[..|s| - 1], s[|s| - 1];
    if last.playerId == p {
      var g := Group(init, p);
      DerivedOfLastRow(s);
      PlayerFeaturesPush(g, last);
    } else {
      assert Group(s, p) == Group(init, p) + [];
      assert Group(s, p) == Group(init, p);
    }
  }

  /** A player's derived columns depend only on that player's rows: two tables
      in which p has the same rows (in any order, whatever the other players'
      rows are) give p the same output rows. */
  lemma PlayerIndependence(t: seq<Row>, u: seq<Row>, p: string)
    requires multiset(Group(t, p)) == multiset(Group(u, p))
    requires KeysUnique(multiset(Group(t, p)))
    ensures PlayerRows(EngineerSpec(t), p) == PlayerRows(EngineerSpec(u), p)
  {
    var s, s' := SortByKey(t), SortByKey(u);
    GroupOfPermutation(s, t, p);
    GroupOfPermutation(s', u, p);
    GroupSorted(s, p);
    GroupSorted(s', p);
    SortedPermutationUnique(Group(s, p), Group(s', p));
    GroupwiseOutput(s, p);
    GroupwiseOutput(s', p);
  }

  /** With unique keys the result does not depend on the input's row order. */
  lemma InputOrderIrrelevant(t: seq<Row>, u: seq<Row>)
    requires multiset(t) == multiset(u)
    requires KeysUnique(multiset(t))
    ensures EngineerSpec(t) == EngineerSpec(u)
  {
    SortedPermutationUnique(SortByKey(t), SortByKey(u));
  }

  /** Running the feature pass again on its own output's rows gives the same
      table: the result is a fixed point. */
  lemma RerunIsIdentical(t: seq<Row>)
    ensures EngineerSpec(RowsOf(EngineerSpec(t))) == EngineerSpec(t)
  {
    AugmentRows(SortByKey(t));
    SortByKeyOfSorted(SortByKey(t));
  }
}
