# Soccer event analysis, modelled in Dafny

This project models the analysis core of a small soccer-statistics program. The program reads a log of match events (one row per event, with columns such as `id_odsp`, `time`, `event_type`, `side`, `is_goal`, `bodypart`, `location`, `shot_outcome`) into pandas data frames. It tests three hypotheses:

- **Headed goals** (`src/head.py`): most headed goals come from set pieces. The program keeps every row matching some conditions together with the row before it. For each headed goal it then looks at the previous event of the same match, at most one minute earlier, and classifies the goal as a corner, a foul, an offside or something else. The result is the share of each origin.
- **Home advantage** (`src/matches.py`, `src/rabello_hypothesis.py`): home teams win more often. The program counts goals per match and side and gives every match a result (`1` home win, `0` home defeat, `-1` draw). It reports the shares of wins, defeats and draws, the win and loss shares with draws excluded or included, and a recount of level matches from the raw events.
- **Shots** (`src/shots.py`): shots from outside the box convert worse. The program labels each shot `inside` or `outside` by its location code and turns shot-outcome codes into names. It splits on-target shots into goals and saves, and reports goal shares by situation and the count and share of each outcome, inside and outside.

The shared helpers (`src/utils.py`) are modelled in module `Utils`: dropping columns, filtering rows on equalities or exclusions, and re-mapping a column's values.

A data frame is modelled as a `Table`: a list of column names and a sequence of `Row`s. Each row has a label (the pandas index) and a map from column to `Value`. `Value` is a number (`Num`, an exact real), a string (`Str`) or `Null`.

- `Null` stands for pandas' NaN, which compares unequal to everything. `Same` is equality that is never true for `Null`, and every count and filter uses it.
- Python integers and floats are both `Num`, so `1 == 1.0` holds as in Python.
- A missing column is a `KeyError` in a `Result`. So is a missing label under `.loc`.
- Operations that pandas performs in place (`df.drop(..., inplace=True)`, `df[c] = ...`) are methods on a `Frame` object. `Frame` holds `columns` and `rows` fields. The methods state the new contents relative to the old, via `WithColumn`, `DropEach` and `Project`.
- Everything else is a pure function.

The `group_goals_by_match` and `calculate_results` in `src/rabello_hypothesis.py` (lines 17-65) behave like their namesakes in `src/matches.py`.

- The rabello grouping filters with a boolean mask instead of `filter_df`. A missing column still raises `KeyError` through pandas, and the rename and reindex are the same.
- So module `Rabello` reuses `Matches.GroupGoalsByMatch` and `Matches.CalculateResults`. Only the rabello `calculate_results` lacks the explicit column check; see "Left out".

## Model

| member | source | states |
|---|---|---|
| DataFrame.ResetIndex | src/head.py:58 | `reset_index(drop=True)`: same cells in the same order, labels become 0..n-1 |
| DataFrame.Select | src/head.py:58 | `iloc` with a list of positions: the rows at exactly those positions, in that order |
| DataFrame.Position | src/head.py:77 | the first row carrying a label; none when no row carries it |
| DataFrame.RepeatedTwoRows | src/head.py:77 | a label is repeated iff two different rows carry it |
| DataFrame.Loc | src/head.py:77 | `.loc[key, c]`: `KeyError` iff the label or the column is absent; `ValueError` iff the column exists and several rows carry the label (the Series that a truth test rejects); otherwise the one labelled row's cell |
| DataFrame.DenseLoc | src/head.py:77 | on labels 0..n-1 (each carried once), `.loc[i, c]` is row i's cell, and a `KeyError` for an out-of-range label or a missing column |
| DataFrame.Column | src/matches.py:127-129 | a column is the row-by-row sequence of that column's cells (NaN where the row has none) |
| DataFrame.Distinct | src/matches.py:67 | the distinct values of a sequence: the same members, each exactly once |
| DataFrame.CountAppend | src/matches.py:127-129 | counting occurrences distributes over concatenation |
| DataFrame.Percent | src/matches.py:135-137 | `count / total * 100` lies in [0, 100], is 0 iff the count is 0 and is 100 iff the count is the total |
| DataFrame.PercentAdd | src/rabello_hypothesis.py:107-109 | shares over one total add up like their counts |
| DataFrame.Compare | src/matches.py:97-99 | definition of Python's `<`/`>` on two cells: numbers by value, strings by character code, NaN unordered against numbers, a string against a non-string a `TypeError` |
| DataFrame.WithColumn | src/matches.py:97-100 | assigning a column keeps the rows and labels and changes only that cell in each row |
| DataFrame.WithColumnColumn | src/shots.py:140-141 | after `df[c] = values`, column `c` reads back as the values and every other column as before |
| DataFrame.SetColumn | src/shots.py:140-141 | the frame's new state is the old table with the column assigned |
| Utils.Keep | src/utils.py:44-45 | the columns that remain are exactly the old ones not dropped |
| Utils.KeepKeep | src/utils.py:44-45 | dropping one more column after a list equals dropping the extended list |
| Utils.DropEachIsProject | src/utils.py:44-45 | dropping columns one by one equals one projection that keeps the rest |
| Utils.DropProjected | src/utils.py:44-45 | dropping one more column after a projection equals projecting the longer list |
| Utils.DropNext | src/utils.py:44-45 | one more drop removes the next listed column; the columns left are the original ones not yet listed |
| Utils.DropEach | src/utils.py:44-45 | definition: the columns of a list dropped one after the other, in order (`DropEachIsProject` gives its result) |
| Utils.Project | src/utils.py:44-45 | definition: the other columns in their order, the same rows and labels without the dropped cells |
| Utils.KeepNothing | src/utils.py:44-45 | dropping no column keeps the column list |
| Utils.FirstRepeat | src/utils.py:38-45 | the length of the longest repeat-free prefix of the drop list: where a duplicated name makes the second drop fail |
| Utils.RemoveColumns | src/utils.py:4-47 | `KeyError` and no change when a listed column is missing; otherwise the frame has the columns dropped in order, up to the first repeated name, which fails with `KeyError` after the earlier drops |
| Utils.Passes | src/utils.py:89-136 | definition of the row test: equal (never NaN-equal) to every condition, or, for `remove_lines_by_condition`, equal to none of the values |
| Utils.FilterRows | src/utils.py:89-91 | definition: the passing rows in their order, with their labels (`FilterRowsIsSelect` ties it to the passing positions) |
| Utils.Passing | src/utils.py:89-91 | the positions of the rows that pass a test, ascending |
| Utils.PassingComplete | src/utils.py:89-91 | every passing row's position is listed |
| Utils.FilterRowsAll | src/utils.py:89-91 | when every row passes, filtering keeps every row |
| Utils.FilterRowsIsSelect | src/utils.py:89-91 | filtering equals selecting the passing positions |
| Utils.FilterRowsIdempotent | src/utils.py:89-91 | filtering twice on the same test equals filtering once |
| Utils.FilterRowsConjunction | src/utils.py:89-91 | filtering on one condition map and then another equals filtering on their union |
| Utils.FilterDf | src/utils.py:50-92 | `KeyError` iff some condition names a missing column; otherwise the same columns and exactly the rows equal to every condition, in order |
| Utils.FilterDfNoConditions | src/utils.py:84-92 | no conditions keep the table unchanged |
| Utils.RemoveLinesByCondition | src/utils.py:95-137 | `KeyError` iff the column is missing; otherwise exactly the rows whose cell equals none of the values, in order |
| Utils.Remapped | src/utils.py:180 | one re-mapped value per row |
| Utils.Remap | src/utils.py:180 | definition of `Series.map(dict)` on one value: the mapped value, NaN when unmapped |
| Utils.MapColumnValues | src/utils.py:139-182 | `KeyError` and no change for a missing column; otherwise each row's cell becomes its mapped value (NaN when unmapped) and every other cell and label stays |
| Head.KeptPositions | src/head.py:51-57 | every position kept lies in the scanned range |
| Head.KeptPositionsSound | src/head.py:51-57 | the positions kept are ascending and each one matches or precedes a match |
| Head.Kept | src/head.py:51-57 | definition: a position survives when its row or the next row meets the conditions (`SavedAreKept` ties it to the saved set) |
| Head.Ascending | src/head.py:57 | `sorted(set(...))`: exactly the members of the set in range, ascending |
| Head.AscendingIsKept | src/head.py:51-57 | sorting the saved set gives the kept positions |
| Head.SavedAreKept | src/head.py:53-57 | a position is in the saved set iff it matches or precedes a match |
| Head.KeptComplete | src/head.py:51-57 | every position that matches or precedes a match is kept |
| Head.MatchAndPredecessorKept | src/head.py:53-56 | a matching row and the row before it (when there is one) are kept |
| Head.KeptBoundFrom | src/head.py:53-56 | kept positions from `lo` are at most the matches from `lo` plus those from `lo + 1` |
| Head.PassingShrinks | src/head.py:51 | fewer rows left means no more matches |
| Head.KeptAtMostTwicePassing | src/head.py:53-57 | at most twice as many rows come back as rows matched |
| Head.GetRowsWithPrevious | src/head.py:36-58 | `KeyError` iff a condition names a missing column; otherwise exactly the kept rows in order, relabelled 0..n-1 |
| Head.IsHeadedGoal | src/head.py:62-77 | `KeyError` for a missing label or column; `ValueError` when several rows carry the label; a goal row without a `bodypart` column is a `KeyError`, while a non-goal row never reads it; otherwise true iff that one row has `is_goal == 1` and `bodypart == 3` |
| Head.IsSameMatch | src/head.py:80-98 | `KeyError` iff a label or the match column is missing; otherwise `ValueError` iff a label is carried by several rows; otherwise true iff the two `id_odsp` cells are equal |
| Head.IsHeadedGoalOnDense | src/head.py:77 | on labels 0..n-1, a headed-goal test of label i is a test of row i |
| Head.Bucket | src/head.py:127-134 | corner iff the previous event type is 2, foul iff 3, offside iff 9, otherwise other |
| Head.WithinOneMinute | src/head.py:125 | a `TypeError` when a time is a string; otherwise true iff the goal is at most one minute after the previous event |
| Head.Classify | src/head.py:121-134 | counted only when the event is a headed goal and, after the first row, in the same match as the previous row; the first row's headed goal is "other" |
| Head.Tally | src/head.py:121-134 | definition of the loop over the first n rows: the four counters, or the first error a row raises |
| Head.Add | src/head.py:122-134 | each counted goal raises the total by one |
| Head.Summarize | src/head.py:136-146 | no headed goal gives the sentinel; otherwise, in order, corners, fouls, offsides, corners plus fouls plus offsides, and others, each over the total times 100; the four origin shares add to 100, each lies in [0, 100], and the set-piece share is the sum of the first three |
| Head.SharesAddUp | src/head.py:139-146 | the four origin shares of a non-empty tally add to 100, and the set-piece share is the sum of the first three |
| Head.TallyStopsAtError | src/head.py:121-134 | an error raised in the loop ends it |
| Head.TallyAfterError | src/head.py:121-134 | after a failed row, the next row leaves the error as it is |
| Head.TallyStep | src/head.py:121-134 | one loop iteration adds the row's origin or propagates its error |
| Head.NextOrigin | src/head.py:122-134 | the classification of one row advances the tally by that row's origin, or fails with its error |
| Head.OriginOfHeadedGoals | src/head.py:101-148 | the loop's result is the summary of the row-by-row tally |
| Head.OriginSummary | src/head.py:101-148 | definition: the summary of the tally of every row, or the loop's error (`OriginOfHeadedGoals` computes it) |
| Head.TallyAtMostHeadedGoals | src/head.py:121-136 | the goals counted never exceed the headed goals in the table |
| Head.TallyExcessFrom | src/head.py:121-136 | from any row on, the goals counted grow by no more than the headed goals, and the tally up to that row succeeded |
| Head.TallyTotalStep | src/head.py:121-134 | one row raises the total by at most one, and only when it is a headed goal |
| Head.NoHeadedGoalsSentinel | src/head.py:136-138 | with no headed goal, the result is the "no headed goals" table |
| Head.NoHeadedGoalsCounted | src/head.py:121-136 | with no headed goal among the first n rows, none is counted |
| Head.ClassifyOnDense | src/head.py:121-134 | on labels 0..n-1 with numeric times, classification is a plain function of the rows |
| Head.RowOrigin | src/head.py:121-134 | definition of the counting rule read off rows labelled 0..n-1 (`ClassifyOnDense` ties it to the loop's test) |
| Head.TallyOfPrefix | src/head.py:122-134 | tallying one more origin adds it to the tally of the ones before |
| Head.TallyByOrigins | src/head.py:121-134 | when each row classifies without error, the loop's tally is the tally of those origins |
| Head.TallyByRows | src/head.py:121-134 | a tally whose every step succeeds equals the row-by-row tally |
| Head.TallyOnDense | src/head.py:121-134 | on labels 0..n-1 with numeric times, the loop never fails |
| HeadExamples.EventCells | tests/test_head.py:11-18 | the cells of one event row of the test log |
| HeadExamples.EventLogCells | tests/test_head.py:11-18 | the test log has labels 0..9, every column, and numeric times |
| HeadExamples.RepeatedLabelExamples | src/head.py:77 | two rows under the label 0, the first a headed goal: `is_headed_goal` and `is_same_match` on label 0 give `ValueError`, not the first row's answer; a missing label 1 is still a `KeyError` |
| HeadExamples.IsHeadedGoalExamples | tests/test_head.py:68-85 | label 6 is a headed goal, label 7 is not, label 10 is a `KeyError` |
| HeadExamples.IsSameMatchExamples | tests/test_head.py:88-107 | rows 0 and 2 share a match, 0 and 5 do not, labels out of range are `KeyError`s |
| HeadExamples.OriginExample | tests/test_head.py:110-118 | the test log gives exactly 100/3, 100/3, 0, 200/3 and 100/3 for corner, foul, offside, set pieces and other; the test's 33.33 and 66.67 are these rounded |
| HeadExamples.EventLogCounts | tests/test_head.py:110-118 | the loop over the test log ends with one corner, one foul, no offside and one other |
| HeadExamples.SummarizeLog | src/head.py:140-146 | one corner, one foul and one other give shares of 100/3, 100/3, 0, 200/3 and 100/3 |
| HeadExamples.EventLogUncounted | tests/test_head.py:110-118 | seven rows of the test log are not counted |
| HeadExamples.EventLogCounted | tests/test_head.py:110-118 | row 0 is "other", row 6 a corner, row 9 a foul |
| HeadExamples.EventLogTally | tests/test_head.py:110-118 | the test log tallies one corner, one foul, no offside, one other |
| HeadExamples.TallyOfLog | tests/test_head.py:110-118 | the origins of the test log's ten rows tally to one corner, one foul and one other |
| HeadExamples.TallyOfLogTo4 | tests/test_head.py:110-118 | the first four origins tally one "other" goal |
| HeadExamples.TallyOfLogTo8 | tests/test_head.py:110-118 | the first eight origins add one corner |
| HeadExamples.TallyOfTwo | src/head.py:122-134 | tallying two more origins adds both |
| HeadExamples.KeptIn | src/head.py:53-57 | a position that matches or precedes a match heads the kept positions from it |
| HeadExamples.KeptOut | src/head.py:53-57 | any other position is skipped |
| HeadExamples.PassesOnlyHeadersLow | tests/test_head.py:40 | of rows 0-4 of the test log, rows 0 and 2 have `bodypart == 3` |
| HeadExamples.PassesOnlyHeadersHigh | tests/test_head.py:40 | of rows 5-9, rows 6 and 9 have `bodypart == 3` |
| HeadExamples.PassesGoalsWithRightFootLow | tests/test_head.py:50 | of rows 0-4, only row 1 is a goal with `bodypart == 2` |
| HeadExamples.PassesGoalsWithRightFootHigh | tests/test_head.py:50 | none of rows 5-9 is a goal with `bodypart == 2` |
| HeadExamples.KeptOnlyHeadersFlags | tests/test_head.py:32-41 | rows 0, 1, 2, 5, 6, 8, 9 match or precede a header; rows 3, 4, 7 do not |
| HeadExamples.KeptGoalsWithRightFootFlags | tests/test_head.py:43-51 | only rows 0 and 1 match or precede a right-foot goal |
| HeadExamples.KeptLikeHeaders | tests/test_head.py:32-41 | those flags give the kept positions 0, 1, 2, 5, 6, 8, 9 |
| HeadExamples.KeptLikeHeadersFrom7 | tests/test_head.py:32-41 | from position 7 on, 8 and 9 are kept |
| HeadExamples.KeptLikeHeadersFrom3 | tests/test_head.py:32-41 | from position 3 on, 5, 6, 8, 9 are kept |
| HeadExamples.KeptLikeHeadersFrom1 | tests/test_head.py:32-41 | from position 1 on, 1, 2, 5, 6, 8, 9 are kept |
| HeadExamples.KeptLikeHeadersFrom0 | tests/test_head.py:32-41 | from position 0 on, 0, 1, 2, 5, 6, 8, 9 are kept |
| HeadExamples.KeptLikeRightFoot | tests/test_head.py:43-51 | those flags give the kept positions 0 and 1 |
| HeadExamples.ExtractionExamples | tests/test_head.py:30-51 | both extractions of the test return exactly the expected rows |
| Matches.KeyedRows | src/matches.py:67 | `groupby` keeps exactly the rows with both keys non-NaN |
| Matches.GoalsFor | src/matches.py:67 | a side's goals in a match are among the match's goals |
| Matches.StrLessTotal | src/matches.py:67 | two different strings are ordered one way or the other |
| Matches.SortsBefore | src/matches.py:67-68 | definition of `groupby`'s key order: numbers by value, strings by character code, numbers before strings |
| Matches.FirstKey | src/matches.py:67-68 | definition: of the two side keys, the one that sorts first (`HomeSortsFirst` proves the order) |
| Matches.SecondKey | src/matches.py:67-68 | definition: the other side key |
| Matches.HomeSortsFirst | src/matches.py:67-68 | two distinct non-NaN keys, of one kind or a number and a string: the first key sorts before the second (numbers before strings), and together they are the two keys |
| Matches.GoalTable | src/matches.py:67-69 | one row per match id, labelled by it, holding each side's goal count under the positional name |
| Matches.ScoredAttempts | src/matches.py:66 | with the required columns, the filter keeps the scored attempts |
| Matches.GroupGoalsByMatch | src/matches.py:38-70 | `KeyError` without a required column; `ValueError` unless there are exactly two side keys; otherwise columns `away`, `home`, also when one key is a number and the other a string |
| Matches.GroupedTable | src/matches.py:66-69 | a successful grouping is the goal table of the counted goals, reordered |
| Matches.GroupedLabels | src/matches.py:67 | the labels are exactly the ids of matches with a counted goal, each once |
| Matches.GroupedCounts | src/matches.py:67-68 | `home` holds the goals of the key that sorts first, `away` those of the other |
| Matches.SidesAreKeys | src/matches.py:67 | a successful grouping has two distinct, non-NaN keys, and every counted goal carries one |
| Matches.SidesCover | src/matches.py:67 | every keyed goal's side is among the distinct sides, none NaN |
| Matches.GoalsInListed | src/matches.py:67 | a listed match has at least one goal |
| Matches.GoalsSplit | src/matches.py:67 | with two sides, a match's goals split into home plus away |
| Matches.GroupedSplit | src/matches.py:67-69 | each row's `home` plus `away` equals all counted goals of that match |
| Matches.GroupedHaveGoals | src/matches.py:67 | no grouped match is goalless |
| Matches.GoalsOfMatchesStep | src/matches.py:67 | one more goal adds one to each listing of its match |
| Matches.OccursOnce | src/matches.py:67 | a member of a repeat-free list occurs once |
| Matches.OccursNot | src/matches.py:67 | a non-member occurs zero times |
| Matches.GoalsOfAllMatches | src/matches.py:67 | over repeat-free ids covering every goal, the per-match counts add up to all goals |
| Matches.GoalsOfNoGoals | src/matches.py:67 | no goals give a zero total |
| Matches.SumOfSplits | src/matches.py:67-69 | column sums of rows that split each match's goals add up to the per-match totals |
| Matches.GroupedTotal | src/matches.py:66-69 | the `home` and `away` columns together sum to the number of counted goals: grouping loses and invents none |
| Matches.MatchResult | src/matches.py:97-100 | 1 iff home > away, 0 iff home < away, -1 iff equal; a `TypeError` when the values cannot be compared |
| Matches.ResultValues | src/matches.py:97-100 | succeeds iff every row's comparison does, then gives one result per row |
| Matches.CalculateResults | src/matches.py:73-101 | `KeyError` and no change without `home`/`away`; otherwise the frame gains `result` holding each row's result, and nothing else changes |
| Matches.ResultsKeepCounts | src/matches.py:97-100 | adding `result` keeps labels, columns and every other cell |
| Matches.Victories | src/matches.py:127 | definition: the number of `result` cells equal to 1 |
| Matches.Defeats | src/matches.py:128 | definition: the number of `result` cells equal to 0 |
| Matches.Draws | src/matches.py:129 | definition: the number of `result` cells equal to -1 |
| Matches.CountsAtMostRows | src/matches.py:127-129 | victories, defeats and draws together never exceed the rows |
| Matches.CountPartition | src/matches.py:127-130 | when every result is one of the three, the three counts add up to the rows |
| Matches.CreateSummary | src/matches.py:103-140 | `KeyError` without `result`; otherwise victories, defeats and draws each as a share of the three together, in [0, 100] and summing to 100, the victories share 100 iff no defeat or draw |
| Matches.GroupedResults | src/matches.py:186-188 | a successful grouping has rows, and every row gets a result |
| Matches.MatchesPipeline | src/matches.py:186-189 | grouping, results and summary succeed together, and the shares add to 100 |
| Rabello.CellsCons | src/rabello_hypothesis.py:84 | the column of a non-empty row list starts with the first row's cell |
| Rabello.CountCons | src/rabello_hypothesis.py:85 | counting over a list with one more value in front |
| Rabello.Decided | src/rabello_hypothesis.py:84 | definition: the rows whose `result` is not -1, NaN kept (`DecidedCounts` gives its counts) |
| Rabello.DecidedKeeps | src/rabello_hypothesis.py:84-85 | leaving draws out keeps every win and every defeat |
| Rabello.DecidedLength | src/rabello_hypothesis.py:84-86 | leaving draws out removes exactly the draws |
| Rabello.DecidedCounts | src/rabello_hypothesis.py:84-86 | after leaving draws out: the same wins and defeats, rows minus draws |
| Rabello.WinExcludingDraws | src/rabello_hypothesis.py:67-88 | `KeyError` without `result`; otherwise wins as a share of the non-drawn matches |
| Rabello.LossExcludingDraws | src/rabello_hypothesis.py:134-155 | `KeyError` without `result`; otherwise defeats as a share of the non-drawn matches |
| Rabello.WinIncludingDraws | src/rabello_hypothesis.py:90-110 | `KeyError` without `result`; otherwise wins plus draws as a share of all matches, in [0, 100], and 0 iff there is no win and no draw |
| Rabello.DrawPercentage | src/rabello_hypothesis.py:112-132 | `KeyError` without `result`; otherwise draws as a share of all matches |
| Rabello.LossIncludingDraws | src/rabello_hypothesis.py:157-177 | `KeyError` without `result`; otherwise defeats plus draws as a share of all matches, in [0, 100], and 0 iff there is no defeat and no draw |
| Rabello.ExcludingDrawsComplement | src/rabello_hypothesis.py:84-88 | with only the three results, win and loss shares excluding draws add to 100 |
| Rabello.IncludingDrawsOverlap | src/rabello_hypothesis.py:107-110 | win and loss shares including draws add to 100 plus the draw share |
| Rabello.ExcludingDrawsBound | src/rabello_hypothesis.py:84-88 | whatever the results, the two shares excluding draws add to at most 100 |
| Rabello.AllGoals | src/rabello_hypothesis.py:195-196 | definition: the rows with `is_goal == 1` and both grouping keys non-NaN |
| Rabello.GoalsPerSide | src/rabello_hypothesis.py:195-197 | `KeyError` without a needed column, `ValueError` unless there are exactly two side keys (numbers sort before strings); otherwise the goal table of all goal events over the distinct match ids, with columns `away`, `home` and the first-sorting key named `away` |
| Rabello.LevelCount | src/rabello_hypothesis.py:198 | the level rows are among the rows |
| Rabello.DrawsFromEvents | src/rabello_hypothesis.py:179-199 | fails exactly as the grouping does; otherwise the number of matches with a goal whose two sides scored equally, at most the number of matches with a goal |
| Rabello.LevelIds | src/rabello_hypothesis.py:196-198 | the level matches among a list of ids are at most the ids |
| Rabello.LevelCountIsLevelIds | src/rabello_hypothesis.py:196-198 | counting level rows of the goal table equals counting the ids whose two sides scored equally |
| Rabello.LevelIdsAppend | src/rabello_hypothesis.py:196-198 | counting level matches over two lists of ids adds up |
| Rabello.LevelIdsAround | src/rabello_hypothesis.py:196-198 | taking one id out of a list removes only its own count |
| Rabello.LevelIdsOne | src/rabello_hypothesis.py:198 | one id counts once exactly when its match is level |
| Rabello.RemoveOne | src/rabello_hypothesis.py:196 | taking one occurrence of an id out of two lists with the same members leaves lists with the same members |
| Rabello.LevelIdsReordered | src/rabello_hypothesis.py:196-198 | any reordering of the match ids, such as the sorted order of `groupby`, gives the same number of level matches |
| Rabello.LevelMatchesScored | src/rabello_hypothesis.py:195-198 | a match the recount finds level has a goal on each side, so 0-0 draws are never counted |
| Rabello.GoalsSplitAll | src/rabello_hypothesis.py:196 | with two sides, every match's goals split between them |
| Rabello.LevelRowsScored | src/rabello_hypothesis.py:196-198 | the same for any goal table over two distinct sides |
| Shots.ExcludedLocationsRemoved | src/shots.py:241 | with a `location` column the step succeeds, and the rows kept are exactly the input rows whose location is none of 1, 2, 7, 8, 19 (NaN kept) |
| Shots.Situation | src/shots.py:244-245 | `inside` iff the location is one of 3, 9-14, otherwise `outside` |
| Shots.Situations | src/shots.py:245 | one situation per row, from that row's location |
| Shots.MappedOutcomes | src/shots.py:249-250 | only code 1 maps to "No alvo"; no code maps to "Gol" or "Defendido"; an unmapped code becomes NaN |
| Shots.Adjusted | src/shots.py:172-176 | "Gol" iff on target with `is_goal == 1` (or already "Gol"); "Defendido" iff on target with `is_goal == 0` (or already); only on-target values change |
| Shots.AdjustedOutcomes | src/shots.py:172-176 | one adjusted outcome per row |
| Shots.AdjustShotOutcome | src/shots.py:148-178 | `KeyError` and no change without `shot_outcome`/`is_goal`; otherwise `shot_outcome` is replaced by the adjusted outcomes |
| Shots.GoalsAndSavesFromCodeOne | src/shots.py:249-252 | after mapping and adjusting, "Gol" iff code 1 with `is_goal == 1`, "Defendido" iff code 1 with `is_goal == 0` |
| Shots.FilterCount | src/shots.py:64-65 | the rows a one-column filter keeps are as many as that value occurs in the column |
| Shots.TwoCountsAtMost | src/shots.py:63-65 | counts of two different values never exceed the rows |
| Shots.TwoCountsAll | src/shots.py:63-65 | when every value is one of the two, their counts add up to the rows |
| Shots.CalculateGoals | src/shots.py:37-75 | `KeyError` without `situation`; `ZeroDivisionError` with no goal; otherwise inside and outside goals as shares of all goals |
| Shots.GoalSharesComplement | src/shots.py:63-68 | the two shares add to at most 100, and to 100 when every goal is inside or outside |
| Shots.NonNull | src/shots.py:106-107 | `value_counts` ignores NaN |
| Shots.Counted | src/shots.py:106-107 | one tally per distinct non-NaN value, holding its count |
| Shots.Insert | src/shots.py:106-107 | insertion adds exactly one tally |
| Shots.InsertByCount | src/shots.py:106-107 | insertion keeps the tallies ordered by descending count |
| Shots.InsertDistinct | src/shots.py:106-107 | insertion of a new tally keeps them distinct |
| Shots.SortByCount | src/shots.py:106-107 | the sort is a permutation of the tallies |
| Shots.SortByCountSpec | src/shots.py:106-107 | the sort orders by descending count and keeps tallies distinct |
| Shots.CountPositive | src/shots.py:106-107 | a present value occurs at least once |
| Shots.ValueCounts | src/shots.py:106-107 | definition of `value_counts`: the tallies of the distinct non-NaN values sorted by descending count (`ValueCountsSpec` states its properties) |
| Shots.ValueCountsSpec | src/shots.py:106-107 | `value_counts`: descending counts, one entry per distinct non-NaN value, each with its exact count |
| Shots.Lookup | src/shots.py:108 | finds an outcome's tally iff one is present |
| Shots.MergeJoins | src/shots.py:108 | every merged line pairs an inside tally and an outside tally of the same outcome |
| Shots.MergeComplete | src/shots.py:108 | an outcome with tallies on both sides appears in the merge |
| Shots.MergeOrder | src/shots.py:108 | the merge keeps the left side's order: descending inside counts, no repeated outcome |
| Shots.Merge | src/shots.py:108 | definition of the inner `merge` on the outcome, in the order of the inside tallies (`MergeJoins`, `MergeComplete`, `MergeOrder` state its properties) |
| Shots.OutcomesIn | src/shots.py:106-107 | definition: the outcomes of the shots in one situation, from `filter_df` on `situation` |
| Shots.OutcomeLines | src/shots.py:106-108 | definition: the merge of the inside and outside value counts |
| Shots.OutcomeTable | src/shots.py:108-110 | columns `Resultado`, `count_in`, `count_out`, labels 0..n-1, one row per merged line |
| Shots.ShotOutcomeCount | src/shots.py:78-112 | `KeyError` iff a required column is missing; otherwise the table of merged counts |
| Shots.ShotOutcomeCountLines | src/shots.py:106-110 | each line's outcome occurs both inside and outside, with its exact counts, each at least 1 |
| Shots.ShotOutcomeCountOrder | src/shots.py:106-110 | lines in descending inside count, no outcome repeated |
| Shots.ShotOutcomeCountComplete | src/shots.py:106-110 | every non-NaN outcome seen both inside and outside has a line |
| Shots.ShareColumn | src/shots.py:140-141 | each count divided by the column sum, times 100 |
| Shots.PercTable | src/shots.py:139-143 | definition: the two share columns added in order, then the two count columns dropped (`PercTableColumns` and `ShareSums` state its columns and sums) |
| Shots.Shares | src/shots.py:140-141 | each value as a share of a fixed total |
| Shots.SharesInit | src/shots.py:140-141 | shares of a prefix are the prefix of the shares |
| Shots.ShareAdd | src/shots.py:140-141 | shares of a fixed total add like their values |
| Shots.WholeShare | src/shots.py:140-141 | the total as a share of itself is 100 |
| Shots.SumShares | src/shots.py:140-141 | the shares sum to the values' sum over the total, times 100 |
| Shots.ShareColumnSum | src/shots.py:140-141 | a share column over a non-zero sum adds to 100 |
| Shots.CountColumnsDropped | src/shots.py:143 | the count columns exist and are distinct, so the drop succeeds and projects them away |
| Shots.PercShotOutcome | src/shots.py:115-145 | `KeyError` iff a required column is missing; otherwise the count table with share columns added and count columns dropped |
| Shots.SumOfCounts | src/shots.py:140-141 | counts of at least 1 sum to at least their number |
| Shots.PercTableColumns | src/shots.py:139-143 | the result has columns `Resultado`, `Porcentagem_in`, `Porcentagem_out`, and those columns are the outcomes and the two share columns |
| Shots.KeepCounts | src/shots.py:143 | dropping the count columns leaves `Resultado` and the two shares |
| Shots.KeepMiddleTwo | src/shots.py:143 | dropping the second and third of five distinct names leaves the other three, in order |
| Shots.CountColumns | src/shots.py:108-110 | every count is a number of at least 1 |
| Shots.ShareSums | src/shots.py:139-143 | over counts of at least 1, the share table has one row per count row and each share column adds to 100 |
| Shots.KeepLastFour | src/shots.py:143 | dropping the first two of four distinct names leaves the last two |
| Shots.PercShotOutcomeShares | src/shots.py:115-145 | one row per merged outcome, and when there is one, each share column adds to 100 |
| ShotsExamples.CountSnoc | src/shots.py:64-65 | counting over a list with one more value at the end |
| ShotsExamples.SampleColumn | tests/test_shots.py:24-31 | the sample's situations are inside, outside, inside, outside, inside |
| ShotsExamples.SampleCounts | tests/test_shots.py:24-31 | three of the sample's goals are inside and two outside |
| ShotsExamples.GoalSampleShares | tests/test_shots.py:24-41 | three inside goals of five give 60 and 40 |

## Left out

- Plotting is not modelled: `graph_view` (src/head.py:151-176, src/matches.py:142-183) and `graph_view_shot_outcome` (src/shots.py:181-229) only draw and save images.
- `print_dataframe`, `load_dataset`, CSV reading, and the `main`/`*_main` functions are not modelled. They are I/O and orchestration. The steps `shots_main` chains (src/shots.py:239-257) are each modelled on their own.
- Rounding to two decimals (`round(..., 2)`) is left out. Every share is an exact real, so shares that add to 100 do so exactly.
- The `isinstance` checks that raise `TypeError` for a non-frame or a non-list argument are left out. The types rule those inputs out.
- Head.GetRowsWithPrevious: requires labels 0..n-1. The source mixes `.index` labels with `iloc` positions, and those agree only then. The event log is read from CSV with default labels.
- Matches.GroupGoalsByMatch: lists matches in order of first appearance, where pandas sorts the ids. The set of rows and every cell are the same.
- Rabello.GoalsPerSide: lists matches in order of first appearance, where `groupby(...).unstack()` sorts the ids. The rows are the same up to order, and `DrawsFromEvents`' count does not depend on the order (`LevelIdsReordered`).
- IsSameMatch: on a label carried by several rows the source returns a boolean Series rather than raising; the model reports there the `ValueError` that the caller's `and` (src/head.py:124) raises on that Series.
- Matches.CreateSummary: requires at least one classified match. numpy division of zero by zero gives NaN plus a warning, not an exception, and NaN shares are not modelled.
- Rabello.WinExcludingDraws: requires at least one non-drawn match, for the same reason.
- Rabello.LossExcludingDraws: requires at least one non-drawn match, for the same reason.
- Rabello.WinIncludingDraws: requires at least one match, for the same reason.
- Rabello.DrawPercentage: requires at least one match, for the same reason.
- Rabello.LossIncludingDraws: requires at least one match, for the same reason.
- Shots.ShareColumn: gives NaN for a zero column sum. It does not model `x / 0 = inf` for a non-zero count over a zero sum; counts of at least 1 make that case impossible after `shot_outcome_count`.
- The `calculate_results` of src/rabello_hypothesis.py:42-65 lacks the explicit `KeyError` check. pandas raises the same error on the missing column, so `Matches.CalculateResults` stands for both, but the error comes from inside `apply`.
- `apply` on a frame with no rows is not distinguished: the model adds an empty `result` column.
- tests/help.py, the other test files, src/head_part.py, src/clean_data.py, src/main.py and docs/ are not part of this model.
