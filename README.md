# Feature engineering of the player injury risk system, in Dafny

The system scores the injury risk of football players. Its one piece of
deterministic logic is `engineer_features`. It takes a table of weekly
per-player records (carries, targets, routes, an `injured` flag, and columns it
only carries along). It returns the same rows, sorted by
`(player_id, season, week)`, with eight derived columns:

- `touches` and `workload`, computed from the row alone;
- `rolling_touches` and `rolling_routes`, means over the player's last three rows (weekly records), whatever weeks they
  fall in;
- `delta_touches`, the change in touches from the player's previous row, 0 at
  the player's first row;
- `games_played_recent` and `games_missed_recent`, counts over the player's last
  three rows of `1 - injured` and of `injured`;
- `injury_history_score`, the player's running injury count.

The project models this function twice and proves the two models equal.

- **The groupwise definition.** It follows the pandas code directly.
  - `Rows.SortByKey` is the sort.
  - `Grouping.Group` is `groupby("player_id")`.
  - `Windows` holds the window statistics on one column.
  - `Features.DerivedAt` gives the derived columns of position `i` in one player's rows.
  - `Table.Augment` and `Table.EngineerSpec` give the whole result table.
- **A one-pass computation** (`Engine.EngineerFeatures`). It walks the sorted
  table once. It keeps a record (`Engine.State`) with:
  - where the current player's block began;
  - the last three or fewer rows of the block, with running sums of their
    touches, routes and flags;
  - the previous row's touches;
  - the block's injury count.

  It resets the record where a new player begins, then emits each row with its
  derived columns. Its contract is `out == EngineerSpec(df)`. The loop keeps the
  invariant `st == StateAt(s, k)`: the record equals a ghost function of the
  rows seen so far.

Modules:

- `Rows`: the row record, Python's order on `str` ids, the key order, and an
  insertion sort with sortedness, permutation and uniqueness lemmas.
- `Grouping`: the rows of one player and where a row stands among them;
  contiguity of a player's rows in a sorted table.
- `Windows`: sums, the window `max(0, i - 2) .. i`, rolling mean and sum,
  difference and running total on `seq<int>`, with their lemmas.
- `Features`: the derived columns of one player's rows and their properties.
- `Table`: the result table, its row-by-row form, per-player independence and
  order independence.
- `Engine`: the one-pass method and its proof.

Modelling choices:

- Numbers are mathematical integers.
- Means are exact `real` quotients `sum / count`. This is the value pandas
  approximates in floating point.
- `player_id` is a string ordered as Python orders `str`: by code point, with a
  proper prefix first.
- Rows with equal keys may occur; the sort keeps them in input order, as
  pandas does. The statements that the output does not depend on the input's
  row order (`Table.InputOrderIrrelevant`, `Table.PlayerIndependence`) require
  unique keys (`Rows.KeysUnique`).

## Model

| member | source | states |
|---|---|---|
| Rows.StrLe | pirms_project/feature_engineering.py:4 | Python's `<=` on `str`: code point by code point, a proper prefix first (its order properties are the lemmas below) |
| Rows.KeyLe | pirms_project/feature_engineering.py:4 | the lexicographic order on (player_id, season, week) that `sort_values` sorts by |
| Rows.InsertWithKey | pirms_project/feature_engineering.py:4 | an inserted row lands in front of the rows that share its key, and their order is kept |
| Rows.SortByKeyStable | pirms_project/feature_engineering.py:4 | for every key, the rows of the sorted table with that key are the input's rows with that key, in input order: the sort is stable |
| Features.TouchesOf | pirms_project/feature_engineering.py:9 | a row's touches: carries plus targets (`Features.WorkloadOf` relates it to workload) |
| Windows.RollMean | pirms_project/feature_engineering.py:12-26 | the exact mean of the values at max(0, i-2) .. i, fewer than three only at the start (bounds in `Windows.MeanWithinRange`, `Windows.RollMeanFirst`, `Windows.RollMeanFull`) |
| Windows.Delta | pirms_project/feature_engineering.py:19 | the difference from the previous value, 0 at the first value (`Windows.DeltasTelescope`) |
| Windows.RollSum | pirms_project/feature_engineering.py:32-43 | the sum of the values at max(0, i-2) .. i (`Windows.RollSumValues`) |
| Windows.CumSum | pirms_project/feature_engineering.py:45-47 | the running total of the values at 0 .. i (`Windows.CumSumFirst`, `Windows.CumSumStep`) |
| Features.DerivedAt | pirms_project/feature_engineering.py:9-47 | the eight derived columns of position i in one player's time-ordered rows, each through the window statistic on its column |
| Table.DerivedOfRow | pirms_project/feature_engineering.py:12-47 | the derived columns of row k, taken at row k's position within its player's group |
| Table.Augment | pirms_project/feature_engineering.py:12-47 | every row of the table, in order, paired with its derived columns; as long as the table |
| Rows.SortByKey | pirms_project/feature_engineering.py:4 | the sorted table has the same length and the same rows (as a multiset) as the input, and is ascending by (player_id, season, week) |
| Rows.InsertSorted | pirms_project/feature_engineering.py:4 | inserting a row into a sorted table keeps it sorted |
| Rows.SortByKeyOfSorted | pirms_project/feature_engineering.py:4 | sorting a table already in key order leaves it unchanged |
| Rows.SortedPermutationUnique | pirms_project/feature_engineering.py:4 | two sorted arrangements of the same rows with unique keys are equal, so the sorted order does not depend on the sort algorithm |
| Rows.StrLeTotal | pirms_project/feature_engineering.py:4 | any two player ids are comparable in Python's string order |
| Rows.StrLeAntisymmetric | pirms_project/feature_engineering.py:4 | two ids each ordered before the other are equal |
| Rows.StrLeTransitive | pirms_project/feature_engineering.py:4 | the string order is transitive |
| Rows.KeyLeTotal | pirms_project/feature_engineering.py:4 | any two (player_id, season, week) keys are comparable |
| Rows.KeyLeAntisymmetric | pirms_project/feature_engineering.py:4 | keys ordered both ways are equal |
| Rows.KeyLeTransitive | pirms_project/feature_engineering.py:4 | the key order is transitive |
| Rows.RowLePlayerId | pirms_project/feature_engineering.py:4 | a row ordered before another has a player id ordered before or equal to the other's |
| Grouping.SortedContiguous | pirms_project/feature_engineering.py:4 | in the sorted table a player's rows form one contiguous block |
| Grouping.GroupSorted | pirms_project/feature_engineering.py:4 | in the sorted table each player's rows are in time order |
| Grouping.Group | pirms_project/feature_engineering.py:13 | a group holds only rows of its player and is no longer than the table |
| Grouping.GroupCount | pirms_project/feature_engineering.py:13 | a group holds each row of its player as often as the table does, and nothing else |
| Grouping.GroupOfPermutation | pirms_project/feature_engineering.py:13 | tables holding the same rows give each player the same rows |
| Grouping.RankLocates | pirms_project/feature_engineering.py:13 | row k is at position Rank(t, k) of its player's group, and the group up to row k ends there |
| Grouping.GroupOfPrefix | pirms_project/feature_engineering.py:13 | the group of a prefix of the table is a prefix of the group |
| Grouping.BeforeBlockAbsent | pirms_project/feature_engineering.py:4 | in the sorted table no row before a player's block belongs to that player |
| Grouping.BlockIsGroupPrefix | pirms_project/feature_engineering.py:4 | in the sorted table a player's rows up to row k are its block start .. k, and row k stands at position k - start in the group |
| Grouping.SortedBlocksFresh | pirms_project/feature_engineering.py:4 | in the sorted table no player's rows come before the row that opens that player's block |
| Features.WorkloadOf | pirms_project/feature_engineering.py:9-10 | workload is touches plus routes, and is at least touches when routes is non-negative |
| Windows.Window | pirms_project/feature_engineering.py:14 | the window at i ends with value i and holds min(i + 1, 3) values |
| Windows.RollMeanFirst | pirms_project/feature_engineering.py:12-17 | the rolling mean at the first position is the value itself |
| Windows.RollMeanFull | pirms_project/feature_engineering.py:12-17 | from the third position on the rolling mean is the mean of that value and the two before it |
| Windows.MeanWithinRange | pirms_project/feature_engineering.py:12-17 | a mean lies between the least and the greatest value averaged |
| Windows.RollSumValues | pirms_project/feature_engineering.py:38-43 | the rolling sum is the value itself, then the sum of the last two, then of the last three |
| Windows.DeltasTelescope | pirms_project/feature_engineering.py:19 | the differences with first value 0 add up to the last value minus the first |
| Windows.StatisticsAreCausal | pirms_project/feature_engineering.py:12-47 | rolling mean, rolling sum, difference and running total at i depend only on values 0 .. i |
| Windows.CumSumFirst | pirms_project/feature_engineering.py:45-47 | the running total at the first position is the first value |
| Windows.CumSumStep | pirms_project/feature_engineering.py:45-47 | the running total grows by each new value |
| Windows.CumSumMonotone | pirms_project/feature_engineering.py:45-47 | over non-negative values the running total never decreases |
| Windows.CumSumLast | pirms_project/feature_engineering.py:45-47 | the last running total is the sum of all values |
| Features.DerivedIsCausal | pirms_project/feature_engineering.py:12-47 | a row's derived columns depend only on its player's rows up to and including it |
| Features.FirstRowOfPlayer | pirms_project/feature_engineering.py:12-47 | at a player's first row the rolling means are the row's own touches and routes, the delta is 0, and played, missed and score come from the row's flag alone |
| Features.RollingMeansFullWindow | pirms_project/feature_engineering.py:12-26 | from a player's third row on, rolling touches and routes average exactly that row and the two before it |
| Features.RollingMeansWithinWindow | pirms_project/feature_engineering.py:12-26 | each rolling mean lies between the least and the greatest value of its window |
| Features.DeltasSumToChange | pirms_project/feature_engineering.py:19 | a player's touch deltas add up to last touches minus first touches |
| Features.DerivedStep | pirms_project/feature_engineering.py:19 | at a later row the delta is this row's touches minus the previous row's, and the score is the previous score plus this row's flag |
| Features.FlagSums | pirms_project/feature_engineering.py:32-43 | over 0/1 flags, healthy plus injured count the rows, and the injured sum lies within 0 and the row count |
| Features.WindowOccupancy | pirms_project/feature_engineering.py:32-43 | with 0/1 flags, games played plus games missed in the window equal min(i + 1, 3), and each lies within 0 and min(i + 1, 3) |
| Features.InjuryScoreCounts | pirms_project/feature_engineering.py:45-47 | the injury score is the row's flag at the first row, afterwards the previous score plus the flag, and in all cases the sum of the flags of rows 0 .. i |
| Features.InjuryScoreMonotone | pirms_project/feature_engineering.py:45-47 | with non-negative flags the score never decreases within a player |
| Features.InjuryScoreTotal | pirms_project/feature_engineering.py:45-47 | the score at a player's last row is the player's total injuries |
| Features.InjuryColumnsExample | pirms_project/feature_engineering.py:32-47 | flags 0, 1, 0, 0, 1 give score 0, 1, 1, 1, 2, games missed 0, 1, 1, 1, 1 and games played 1, 1, 2, 2, 2 |
| Features.DerivedOfLastFromWindow | pirms_project/feature_engineering.py:12-47 | the last row's derived columns follow from the last three or fewer rows, the previous row's touches and the player's injury total |
| Table.AugmentAt | pirms_project/feature_engineering.py:12-47 | row k of the augmented table is row k of the table with the derived columns of its position in its player's group |
| Table.AugmentOfRows | pirms_project/feature_engineering.py:12-47 | a table that holds, at every k, row k with its groupwise derived columns is the augmented table |
| Table.AugmentRows | pirms_project/feature_engineering.py:9-47 | adding columns keeps exactly the rows, in the same order |
| Table.AugmentPrefix | pirms_project/feature_engineering.py:12-47 | the derived columns of earlier rows do not depend on later rows |
| Table.AugmentStep | pirms_project/feature_engineering.py:12-47 | extending the table by one row extends the result by that row with its derived columns |
| Table.EngineerSpec | pirms_project/feature_engineering.py:3-49 | the result has the input's length, holds exactly the input's rows, and is ascending by (player_id, season, week) |
| Table.DerivedInBlock | pirms_project/feature_engineering.py:12-47 | in the sorted table a row's derived columns are those of its position in its player's contiguous block: no window or counter mixes players |
| Table.PlayerFirstRow | pirms_project/feature_engineering.py:12-47 | at each player's first row in the result the rolling means are its own values, the delta is 0 and missed and score start from its flag |
| Table.PlayerNextRow | pirms_project/feature_engineering.py:19 | at a player's later row in the result the delta is touches minus the previous row's touches, and the score continues the previous row's |
| Table.GroupwiseOutput | pirms_project/feature_engineering.py:12-47 | the result rows of player p are p's rows, each with the derived columns computed from p's rows alone |
| Table.OutputRowsStep | pirms_project/feature_engineering.py:12-47 | the last row of the table, with its derived columns, is appended to its own player's result rows and to no other player's |
| Table.GroupFeaturesStep | pirms_project/feature_engineering.py:12-47 | the last row of the table extends its player's group by itself, and the derived columns it gets within its group are the ones it gets in the whole table |
| Table.PlayerIndependence | pirms_project/feature_engineering.py:13 | two tables in which a player has the same rows give that player the same result rows, whatever the other players' rows are |
| Table.InputOrderIrrelevant | pirms_project/feature_engineering.py:4 | with unique keys the result does not depend on the input's row order |
| Table.RerunIsIdentical | pirms_project/feature_engineering.py:3-49 | running the function on its own result's rows gives the same result |
| Engine.Remove | pirms_project/feature_engineering.py:14 | taking a row out of the window's running sums undoes adding it |
| Engine.TallyPush | pirms_project/feature_engineering.py:14 | the running sums of a window extended by a row are the old sums plus that row |
| Engine.TallyDropFirst | pirms_project/feature_engineering.py:14 | the running sums of a window without its oldest row are the old sums minus that row |
| Engine.Trailing | pirms_project/feature_engineering.py:14 | the kept window holds at most three rows and ends with the block's last row |
| Engine.TrailingPush | pirms_project/feature_engineering.py:14 | pushing a row after dropping the oldest of a full window gives the window of the longer block |
| Engine.Slide | pirms_project/feature_engineering.py:12-47 | taking row k in turns the state after rows 0 .. k - 1 into the state after rows 0 .. k |
| Engine.SlideReset | pirms_project/feature_engineering.py:12-47 | at a new player the state restarts from that row alone |
| Engine.SlideExtend | pirms_project/feature_engineering.py:12-47 | within a player the state extends the block, the window and the injury count by the row |
| Engine.Emit | pirms_project/feature_engineering.py:12-47 | the row emitted from the state is row k with the derived columns of the groupwise definition |
| Engine.EmitCorrect | pirms_project/feature_engineering.py:12-47 | the derived columns computed from the running sums equal those of the groupwise definition |
| Engine.EmitMatchesSpec | pirms_project/feature_engineering.py:12-47 | means from the window sums, the delta from the previous row and the score from the block's flags are row k's groupwise derived columns |
| Engine.EngineerFeatures | pirms_project/feature_engineering.py:3-49 | the one-pass computation returns exactly the result of the groupwise definition |

## Left out

- The floating-point arithmetic of pandas: the rolling means are exact rational numbers. The float columns of pandas (`diff`, rolling sums) are integers here.
- The pass-through columns are modelled only to the extent of being carried along unchanged: name, position, pass attempts, yards, snaps and fantasy points. `fantasy_points` is a `real`.
- Missing values (NaN) in any column, and NaN player ids, are not modelled.
- pandas index alignment is not modelled. When the grouped results are assigned back, each value is assumed to land on its own row. This assumes pandas 2.0 or later and a unique row index. `games_played_recent` (`pirms_project/feature_engineering.py:32-36`) depends on it most: under pandas 1.x a like-indexed `groupby(...).apply` does not add the group key, so `reset_index(level=0, drop=True)` renumbers the single-level result 0 .. n-1, and after the sort has permuted the row labels the assignment puts the values on other rows.
- The code validates nothing: duplicate keys, an empty table and flags outside {0, 1} pass without error, and so does the model (the empty table gives the empty result). A missing column makes pandas raise `KeyError`, which the fixed `Row` record cannot express.
- Duplicate (player_id, season, week) keys are accepted without a check, as in the code. Only the order-independence statements (`Rows.SortedPermutationUnique`, `Table.InputOrderIrrelevant`, `Table.PlayerIndependence`) require unique keys. With duplicates, ties keep their input order, in pandas' multi-column sort and in `Rows.SortByKey` (`Rows.SortByKeyStable`, for tables of any length).
- `Features.WindowOccupancy`: requires flags in {0, 1}. The code computes with any integer, and `preprocess.py` only casts the flag to `int`.
- `Engine.EngineerFeatures` builds its output as a sequence extended row by row, not as preallocated arrays written in place. Nothing else in the model reads the output while it is being built.
- `data_loader.py`, `pipeline.py`, `preprocess.py`, `ml_models.py`, `visualizations.py`, `pirms_app.py` and `main.py` are not part of this model. They are random data generation, I/O, a pandas merge, model training, plotting and user interfaces.
