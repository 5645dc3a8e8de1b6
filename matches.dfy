/// Home advantage: goals per match and side, a result per match, and the
/// shares of home wins, defeats and draws.
module Matches {
  import opened DataFrame
  import opened Utils

  const HomeColumn: ColumnName := "home"
  const AwayColumn: ColumnName := "away"
  const ResultColumn: ColumnName := "result"

  const RequiredColumns: seq<ColumnName> := [MatchColumn, SideColumn, EventTypeColumn, IsGoalColumn]

  /** The events counted as goals: attempts (`event_type == 1`) that scored. */
  const ScoredAttempt: map<ColumnName, Value> := map[EventTypeColumn := Num(1.0), IsGoalColumn := Num(1.0)]

  /** The three results a match can get. */
  const HomeWin := Num(1.0)
  const HomeDefeat := Num(0.0)
  const Draw := Num(-1.0)

  // ---------------------------------------------------------------------------
  // group_goals_by_match

  /** `groupby` leaves out the rows whose match or side is NaN. */
  predicate Keyed(r: Row)
  {
    !Get(r, MatchColumn).Null? && !Get(r, SideColumn).Null?
  }

  /** The rows with both keys, in their order. */
  function KeyedRows(rows: seq<Row>): (ks: seq<Row>)
    ensures |ks| <= |rows|
    ensures forall r :: r in ks <==> r in rows && Keyed(r)
  {
    if rows == [] then []
    else KeyedRows(rows[..|rows| - 1]) + (if Keyed(rows[|rows| - 1]) then [rows[|rows| - 1]] else [])
  }

  /** The goals the grouping counts: scored attempts with both keys. */
  function CountedGoals(t: Table): seq<Row>
  {
    KeyedRows(FilterRows(t.rows, AllEqual(ScoredAttempt)))
  }

  /** How many of `goals` are from match `m`. */
  function GoalsIn(goals: seq<Row>, m: Value): (n: nat)
    ensures n <= |goals|
  {
    if goals == [] then 0
    else GoalsIn(goals[..|goals| - 1], m) + (if Get(goals[|goals| - 1], MatchColumn) == m then 1 else 0)
  }

  /** How many of `goals` are from match `m` and side `s` (`groupby(...).size()`). */
  function GoalsFor(goals: seq<Row>, m: Value, s: Value): (n: nat)
    ensures n <= GoalsIn(goals, m)
  {
    if goals == [] then 0
    else
      var g := goals[|goals| - 1];
      GoalsFor(goals[..|goals| - 1], m, s) + (if Get(g, MatchColumn) == m && Get(g, SideColumn) == s then 1 else 0)
  }

  /** The order in which `groupby` sorts two keys: numbers by value,
      strings lexicographically, and, where the keys mix the two kinds,
      every number before every string (pandas' fallback for keys that
      cannot be compared with each other). */
  predicate SortsBefore(a: Value, b: Value)
  {
    match (a, b)
    case (Num(x), Num(y)) => x < y
    case (Str(s), Str(u)) => StrLess(s, u)
    case (Num(_), Str(_)) => true
    case _ => false
  }

  /** The side key that sorts first: its column comes first after `unstack`. */
  function FirstKey(sides: seq<Value>): Value
    requires |sides| == 2
  {
    if SortsBefore(sides[1], sides[0]) then sides[1] else sides[0]
  }

  function SecondKey(sides: seq<Value>): Value
    requires |sides| == 2
  {
    if SortsBefore(sides[1], sides[0]) then sides[0] else sides[1]
  }

  lemma {:induction false} StrLessTotal(s: string, u: string)
    requires s != u
    ensures StrLess(s, u) || StrLess(u, s)
  {
    if s != [] && u != [] && s[0] == u[0] {
      assert s == [s[0]] + s[1..] && u == [u[0]] + u[1..];
      StrLessTotal(s[1..], u[1..]);
    }
  }

  /** Two distinct non-NaN keys, of one kind or mixed: `home` sorts before
      `away`, and together they are the two keys. */
  lemma HomeSortsFirst(sides: seq<Value>)
    requires |sides| == 2 && sides[0] != sides[1]
    requires !sides[0].Null? && !sides[1].Null?
    ensures SortsBefore(FirstKey(sides), SecondKey(sides))
    ensures {FirstKey(sides), SecondKey(sides)} == {sides[0], sides[1]}
  {
    if sides[0].Str? && sides[1].Str? {
      StrLessTotal(sides[0].s, sides[1].s);
    }
  }

  /** One row per match of `ids`, labelled by the match, with the goals of
      each side; `unstack` puts the side that sorts first in the first
      column, and the positional rename gives it the name `names[0]`. */
  function GoalTable(goals: seq<Row>, ids: seq<Value>, first: Value, second: Value, names: seq<ColumnName>): (g: Table)
    requires |names| == 2 && names[0] != names[1]
    ensures g.columns == names && |g.rows| == |ids|
    ensures forall k :: 0 <= k < |ids| ==>
              g.rows[k].index == ids[k]
              && Get(g.rows[k], names[0]) == Num(GoalsFor(goals, ids[k], first) as real)
              && Get(g.rows[k], names[1]) == Num(GoalsFor(goals, ids[k], second) as real)
  {
    Table(names,
          seq(|ids|, k requires 0 <= k < |ids| =>
            Row(ids[k], map[names[0] := Num(GoalsFor(goals, ids[k], first) as real),
                            names[1] := Num(GoalsFor(goals, ids[k], second) as real)])))
  }

  /** The names `group_goals_by_match` gives the two side columns, in order. */
  const GroupedNames: seq<ColumnName> := [HomeColumn, AwayColumn]

  /** The column order after the final `reindex`. */
  const GroupedOrder: seq<ColumnName> := [AwayColumn, HomeColumn]

  /** With the four columns present, `filter_df` keeps the scored attempts. */
  lemma ScoredAttempts(t: Table)
    requires HasColumns(t, RequiredColumns)
    ensures FilterDf(t, ScoredAttempt) == Ok(Table(t.columns, FilterRows(t.rows, AllEqual(ScoredAttempt))))
  {
    assert t.rows[0..] == t.rows;
    FilterRowsIsSelect(t.rows, AllEqual(ScoredAttempt), 0);
  }

  /** The side keys of the counted goals. */
  function Sides(t: Table): seq<Value>
  {
    Distinct(Cells(CountedGoals(t), SideColumn))
  }

  /** group_goals_by_match: a KeyError without one of the four columns; a
      ValueError unless there are exactly two side keys (two names
      for the columns). Otherwise one row per match with a counted goal, the
      side that sorts first named `home` and the other `away`, the columns
      then reordered to `away`, `home`. */
  function GroupGoalsByMatch(t: Table): (r: Result<Table>)
    ensures r.Err? <==> !HasColumns(t, RequiredColumns) || |Sides(t)| != 2
    ensures !HasColumns(t, RequiredColumns) ==> r == Err(KeyError)
    ensures HasColumns(t, RequiredColumns) && |Sides(t)| != 2 ==> r == Err(ValueError)
    ensures r.Ok? ==> r.value.columns == GroupedOrder
  {
    if !HasColumns(t, RequiredColumns) then Err(KeyError)
    else
      ScoredAttempts(t);
      var goals := KeyedRows(FilterDf(t, ScoredAttempt).value.rows);
      var sides := Distinct(Cells(goals, SideColumn));
      if |sides| != 2 then Err(ValueError)
      else
        var g := GoalTable(goals, Distinct(Cells(goals, MatchColumn)), FirstKey(sides), SecondKey(sides), GroupedNames);
        Ok(Table(GroupedOrder, g.rows))
  }

  /** A successful grouping is the goal table of the counted goals. */
  lemma GroupedTable(t: Table)
    requires GroupGoalsByMatch(t).Ok?
    ensures GroupGoalsByMatch(t)
              == Ok(Table(GroupedOrder, GoalTable(CountedGoals(t), Distinct(Cells(CountedGoals(t), MatchColumn)),
                                                  FirstKey(Sides(t)), SecondKey(Sides(t)), GroupedNames).rows))
  {
    ScoredAttempts(t);
  }

  /** Labels of the grouped table: the ids of the matches with a counted
      goal, each once, in order of first appearance. */
  lemma GroupedLabels(t: Table)
    requires GroupGoalsByMatch(t).Ok?
    ensures Labels(GroupGoalsByMatch(t).value) == Distinct(Cells(CountedGoals(t), MatchColumn))
    ensures forall m :: m in Labels(GroupGoalsByMatch(t).value) <==> m in Cells(CountedGoals(t), MatchColumn)
    ensures var ls := Labels(GroupGoalsByMatch(t).value);
      forall i, j :: 0 <= i < j < |ls| ==> ls[i] != ls[j]
  {
    GroupedTable(t);
  }

  /** Counts of the grouped table: in each row, the counted goals of that
      match from the side that sorts first (`home`) and from the other side
      (`away`). */
  lemma GroupedCounts(t: Table)
    requires GroupGoalsByMatch(t).Ok?
    ensures SortsBefore(FirstKey(Sides(t)), SecondKey(Sides(t)))
    ensures {FirstKey(Sides(t)), SecondKey(Sides(t))} == set v | v in Sides(t)
    ensures var g := GroupGoalsByMatch(t).value;
      forall i :: 0 <= i < |g.rows| ==>
        Get(g.rows[i], HomeColumn) == Num(GoalsFor(CountedGoals(t), g.rows[i].index, FirstKey(Sides(t))) as real)
        && Get(g.rows[i], AwayColumn) == Num(GoalsFor(CountedGoals(t), g.rows[i].index, SecondKey(Sides(t))) as real)
  {
    GroupedTable(t);
    SidesAreKeys(t);
    var sides := Sides(t);
    HomeSortsFirst(sides);
    assert (set v | v in sides) == {sides[0], sides[1]};
  }

  /** The side keys are two distinct non-NaN values, and every
      counted goal has one of them. */
  lemma SidesAreKeys(t: Table)
    requires GroupGoalsByMatch(t).Ok?
    ensures |Sides(t)| == 2 && Sides(t)[0] != Sides(t)[1]
    ensures forall v :: v in Sides(t) ==> !v.Null?
    ensures forall x :: x in CountedGoals(t) ==> Get(x, SideColumn) in Sides(t)
  {
    SidesCover(CountedGoals(t));
  }

  /** The distinct sides of keyed goals are never NaN, and every goal has
      one of them. */
  lemma SidesCover(goals: seq<Row>)
    requires forall x :: x in goals ==> Keyed(x)
    ensures forall v :: v in Distinct(Cells(goals, SideColumn)) ==> !v.Null?
    ensures forall x :: x in goals ==> Get(x, SideColumn) in Distinct(Cells(goals, SideColumn))
  {
    var cs := Cells(goals, SideColumn);
    forall v | v in Distinct(cs)
      ensures !v.Null?
    {
      var p :| 0 <= p < |goals| && cs[p] == v;
      assert goals[p] in goals;
    }
    forall x | x in goals
      ensures Get(x, SideColumn) in Distinct(cs)
    {
      var p :| 0 <= p < |goals| && goals[p] == x;
      assert cs[p] == Get(x, SideColumn);
    }
  }

  /** A match listed among the goals has at least one of them. */
  lemma {:induction false} GoalsInListed(goals: seq<Row>, m: Value)
    requires m in Cells(goals, MatchColumn)
    ensures GoalsIn(goals, m) >= 1
  {
    var init := goals[..|goals| - 1];
    if Get(goals[|goals| - 1], MatchColumn) != m {
      var p :| 0 <= p < |goals| && Cells(goals, MatchColumn)[p] == m;
      assert Cells(init, MatchColumn)[p] == m;
      GoalsInListed(init, m);
    }
  }

  // ---------------------------------------------------------------------------
  // Conservation: grouping neither loses nor invents goals

  /** With two distinct sides and every goal on one of them, a match's goals
      split into those of the first side and those of the second. */
  lemma {:induction false} GoalsSplit(goals: seq<Row>, m: Value, h: Value, a: Value)
    requires h != a
    requires forall x :: x in goals ==> Get(x, SideColumn) == h || Get(x, SideColumn) == a
    ensures GoalsFor(goals, m, h) + GoalsFor(goals, m, a) == GoalsIn(goals, m)
  {
    if goals != [] {
      var init := goals[..|goals| - 1];
      assert goals == init + [goals[|goals| - 1]];
      GoalsSplit(init, m, h, a);
      assert goals[|goals| - 1] in goals;
    }
  }

  /** Per match: the `home` and `away` cells of a row add up to all the
      counted goals of that match. */
  lemma GroupedSplit(t: Table)
    requires GroupGoalsByMatch(t).Ok?
    ensures var g := GroupGoalsByMatch(t).value;
      forall i :: 0 <= i < |g.rows| ==>
        Get(g.rows[i], HomeColumn).x + Get(g.rows[i], AwayColumn).x
          == GoalsIn(CountedGoals(t), g.rows[i].index) as real
  {
    GroupedCounts(t);
    SidesAreKeys(t);
    var g := GroupGoalsByMatch(t).value;
    var goals := CountedGoals(t);
    var sides := Sides(t);
    HomeSortsFirst(sides);
    assert forall x :: x in goals ==> Get(x, SideColumn) == FirstKey(sides) || Get(x, SideColumn) == SecondKey(sides) by {
      assert forall v :: v in sides ==> v == sides[0] || v == sides[1];
    }
    forall i | 0 <= i < |g.rows|
      ensures Get(g.rows[i], HomeColumn).x + Get(g.rows[i], AwayColumn).x
                == GoalsIn(goals, g.rows[i].index) as real
    {
      GoalsSplit(goals, g.rows[i].index, FirstKey(sides), SecondKey(sides));
    }
  }

  /** No match without a counted goal is in the grouped table. */
  lemma GroupedHaveGoals(t: Table)
    requires GroupGoalsByMatch(t).Ok?
    ensures var g := GroupGoalsByMatch(t).value;
      forall i :: 0 <= i < |g.rows| ==> Get(g.rows[i], HomeColumn).x + Get(g.rows[i], AwayColumn).x >= 1.0
  {
    var g := GroupGoalsByMatch(t).value;
    GroupedSplit(t);
    GroupedLabels(t);
    forall i | 0 <= i < |g.rows|
      ensures Get(g.rows[i], HomeColumn).x + Get(g.rows[i], AwayColumn).x >= 1.0
    {
      assert Labels(g)[i] == g.rows[i].index;
      GoalsInListed(CountedGoals(t), g.rows[i].index);
    }
  }

  /** The goals of the matches `ids`, added up match by match. */
  function GoalsOfMatches(goals: seq<Row>, ids: seq<Value>): nat
  {
    if ids == [] then 0
    else GoalsOfMatches(goals, ids[..|ids| - 1]) + GoalsIn(goals, ids[|ids| - 1])
  }

  /** How many times `v` is in `vs`. */
  function Occurrences(vs: seq<Value>, v: Value): nat
  {
    if vs == [] then 0
    else Occurrences(vs[..|vs| - 1], v) + (if vs[|vs| - 1] == v then 1 else 0)
  }

  lemma {:induction false} GoalsOfMatchesStep(goals: seq<Row>, x: Row, ids: seq<Value>)
    ensures GoalsOfMatches(goals + [x], ids) == GoalsOfMatches(goals, ids) + Occurrences(ids, Get(x, MatchColumn))
  {
    if ids != [] {
      GoalsOfMatchesStep(goals, x, ids[..|ids| - 1]);
      assert (goals + [x])[..|goals + [x]| - 1] == goals;
    }
  }

  /** A value listed once at most is listed once when it is there at all. */
  lemma {:induction false} OccursOnce(vs: seq<Value>, v: Value)
    requires forall i, j :: 0 <= i < j < |vs| ==> vs[i] != vs[j]
    requires v in vs
    ensures Occurrences(vs, v) == 1
  {
    var init := vs[..|vs| - 1];
    if vs[|vs| - 1] == v {
      assert v !in init;
      OccursNot(init, v);
    } else {
      assert v in init by {
        var i :| 0 <= i < |vs| && vs[i] == v;
        assert i < |vs| - 1;
        assert init[i] == v;
      }
      OccursOnce(init, v);
    }
  }

  lemma {:induction false} OccursNot(vs: seq<Value>, v: Value)
    requires v !in vs
    ensures Occurrences(vs, v) == 0
  {
    if vs != [] {
      assert forall w :: w in vs[..|vs| - 1] ==> w in vs;
      OccursNot(vs[..|vs| - 1], v);
    }
  }

  /** Listing every match of `goals` once, the per-match goals add up to all
      the goals. */
  lemma {:induction false} GoalsOfAllMatches(goals: seq<Row>, ids: seq<Value>)
    requires forall i, j :: 0 <= i < j < |ids| ==> ids[i] != ids[j]
    requires forall x :: x in goals ==> Get(x, MatchColumn) in ids
    ensures GoalsOfMatches(goals, ids) == |goals|
  {
    if goals == [] {
      GoalsOfNoGoals(ids);
    } else {
      var init := goals[..|goals| - 1];
      var x := goals[|goals| - 1];
      assert goals == init + [x];
      assert forall y :: y in init ==> y in goals;
      GoalsOfAllMatches(init, ids);
      GoalsOfMatchesStep(init, x, ids);
      OccursOnce(ids, Get(x, MatchColumn));
    }
  }

  lemma {:induction false} GoalsOfNoGoals(ids: seq<Value>)
    ensures GoalsOfMatches([], ids) == 0
  {
    if ids != [] {
      GoalsOfNoGoals(ids[..|ids| - 1]);
    }
  }

  /** Adding the `home` and `away` cells of rows that hold per-match counts
      gives the goals of their matches. */
  lemma {:induction false} SumOfSplits(rows: seq<Row>, goals: seq<Row>)
    requires forall i :: 0 <= i < |rows| ==>
      Get(rows[i], HomeColumn).Num? && Get(rows[i], AwayColumn).Num?
      && Get(rows[i], HomeColumn).x + Get(rows[i], AwayColumn).x == GoalsIn(goals, rows[i].index) as real
    ensures Sum(Cells(rows, HomeColumn)) + Sum(Cells(rows, AwayColumn))
              == GoalsOfMatches(goals, Labels(Table([], rows))) as real
  {
    if rows != [] {
      var init := rows[..|rows| - 1];
      SumOfSplits(init, goals);
      assert Cells(rows, HomeColumn)[..|rows| - 1] == Cells(init, HomeColumn);
      assert Cells(rows, AwayColumn)[..|rows| - 1] == Cells(init, AwayColumn);
      assert Labels(Table([], rows))[..|rows| - 1] == Labels(Table([], init));
    }
  }

  /** Over the whole table: the `home` column plus the `away` column is the
      number of counted goals, so every scored attempt with both keys is
      counted exactly once. */
  lemma GroupedTotal(t: Table)
    requires GroupGoalsByMatch(t).Ok?
    ensures var g := GroupGoalsByMatch(t).value;
      Sum(Column(g, HomeColumn)) + Sum(Column(g, AwayColumn)) == |CountedGoals(t)| as real
  {
    var g := GroupGoalsByMatch(t).value;
    GroupedSplit(t);
    GroupedCounts(t);
    GroupedLabels(t);
    SumOfSplits(g.rows, CountedGoals(t));
    assert Labels(Table([], g.rows)) == Labels(g);
    var goals := CountedGoals(t);
    forall x | x in goals
      ensures Get(x, MatchColumn) in Labels(g)
    {
      var p :| 0 <= p < |goals| && goals[p] == x;
      assert Cells(goals, MatchColumn)[p] == Get(x, MatchColumn);
    }
    GoalsOfAllMatches(goals, Labels(g));
  }

  // ---------------------------------------------------------------------------
  // calculate_results

  /** The result of one match from the home side's view: a win when `home`
      is greater, a defeat when it is smaller, a draw otherwise (equal, or
      not comparable as with NaN). Comparing a string with anything else is
      a TypeError. */
  function MatchResult(home: Value, away: Value): (r: Result<Value>)
    ensures r.Err? <==> Compare(home, away).Err?
    ensures r.Err? ==> r.error == TypeError
    ensures r.Ok? ==> r.value == HomeWin || r.value == HomeDefeat || r.value == Draw
    ensures home.Num? && away.Num? ==>
              r.Ok?
              && (r.value == HomeWin <==> home.x > away.x)
              && (r.value == HomeDefeat <==> home.x < away.x)
              && (r.value == Draw <==> home.x == away.x)
  {
    var o :- Compare(home, away);
    Ok(if o == Greater then HomeWin else if o == Less then HomeDefeat else Draw)
  }

  /** The `result` column: one match result per row, in row order; the first
      row whose counts cannot be compared makes the whole column fail. */
  function ResultValues(rows: seq<Row>): (r: Result<seq<Value>>)
    ensures r.Ok? <==> forall i :: 0 <= i < |rows| ==> MatchResult(Get(rows[i], HomeColumn), Get(rows[i], AwayColumn)).Ok?
    ensures r.Err? ==> r.error == TypeError
    ensures r.Ok? ==> |r.value| == |rows|
    ensures r.Ok? ==> forall i :: 0 <= i < |rows| ==>
              r.value[i] == MatchResult(Get(rows[i], HomeColumn), Get(rows[i], AwayColumn)).value
  {
    if rows == [] then Ok([])
    else
      var init :- ResultValues(rows[..|rows| - 1]);
      var last := rows[|rows| - 1];
      var v :- MatchResult(Get(last, HomeColumn), Get(last, AwayColumn));
      Ok(init + [v])
  }

  /** calculate_results: a KeyError, and the table untouched, without `home`
      or `away`; otherwise the `result` column is set in place (every other
      column, every label and the row order stay as they were), unless a row
      cannot be compared. */
  method CalculateResults(df: Frame) returns (r: Result<()>)
    modifies df
    ensures r.Err? <==> !HasColumns(old(df.Snapshot()), [HomeColumn, AwayColumn])
                        || ResultValues(old(df.rows)).Err?
    ensures !HasColumns(old(df.Snapshot()), [HomeColumn, AwayColumn]) ==> r == Err(KeyError)
    ensures r.Err? ==> df.Snapshot() == old(df.Snapshot())
    ensures r.Ok? ==> df.Snapshot() == WithColumn(old(df.Snapshot()), ResultColumn, ResultValues(old(df.rows)).value)
  {
    if HomeColumn !in df.columns || AwayColumn !in df.columns {
      return Err(KeyError);
    }
    var values := ResultValues(df.rows);
    if values.Err? {
      return Err(values.error);
    }
    SetColumn(df, ResultColumn, values.value);
    return Ok(());
  }

  /** calculate_results only adds (or overwrites) `result`: the labels and
      every other cell stay as they were, and each new cell is that row's
      match result. */
  lemma ResultsKeepCounts(t: Table, vs: seq<Value>)
    requires ResultValues(t.rows) == Ok(vs)
    ensures var u := WithColumn(t, ResultColumn, vs);
      |u.rows| == |t.rows|
      && (forall c :: c in t.columns ==> c in u.columns)
      && ResultColumn in u.columns
      && forall i :: 0 <= i < |u.rows| ==>
           u.rows[i].index == t.rows[i].index
           && Get(u.rows[i], ResultColumn) == MatchResult(Get(t.rows[i], HomeColumn), Get(t.rows[i], AwayColumn)).value
           && forall c :: c != ResultColumn ==> Get(u.rows[i], c) == Get(t.rows[i], c)
  {
  }

  // ---------------------------------------------------------------------------
  // create_summary_dataframe

  /** The summary table's `home_percentage` column: victories, defeats and
      draws of the home side, in that order. */
  datatype Summary = Summary(victories: real, defeats: real, draws: real)

  function Victories(t: Table): nat { Count(Column(t, ResultColumn), HomeWin) }
  function Defeats(t: Table): nat { Count(Column(t, ResultColumn), HomeDefeat) }
  function Draws(t: Table): nat { Count(Column(t, ResultColumn), Draw) }

  /** A `result` value is one of the three at most. */
  lemma {:induction false} CountsAtMostRows(vs: seq<Value>)
    ensures Count(vs, HomeWin) + Count(vs, HomeDefeat) + Count(vs, Draw) <= |vs|
  {
    if vs != [] {
      CountsAtMostRows(vs[..|vs| - 1]);
    }
  }

  /** When every `result` is one of the three values, victories, defeats and
      draws together are all the matches. */
  lemma {:induction false} CountPartition(vs: seq<Value>)
    requires forall i :: 0 <= i < |vs| ==> vs[i] == HomeWin || vs[i] == HomeDefeat || vs[i] == Draw
    ensures Count(vs, HomeWin) + Count(vs, HomeDefeat) + Count(vs, Draw) == |vs|
  {
    if vs != [] {
      CountPartition(vs[..|vs| - 1]);
    }
  }

  /** create_summary_dataframe: a KeyError without `result`; otherwise each
      share is its count over victories + defeats + draws, times 100, so the
      three add up to 100. */
  function CreateSummary(t: Table): (r: Result<Summary>)
    requires ResultColumn in t.columns ==> Victories(t) + Defeats(t) + Draws(t) > 0
    ensures r.Err? <==> ResultColumn !in t.columns
    ensures r.Err? ==> r.error == KeyError
    ensures r.Ok? ==> r.value.victories + r.value.defeats + r.value.draws == 100.0
    ensures r.Ok? ==> 0.0 <= r.value.victories <= 100.0 && 0.0 <= r.value.defeats <= 100.0 && 0.0 <= r.value.draws <= 100.0
    ensures r.Ok? ==> (r.value.victories == 100.0 <==> Defeats(t) + Draws(t) == 0)
    ensures r.Ok? ==>
              var total := Victories(t) + Defeats(t) + Draws(t);
              r.value == Summary(Percent(Victories(t), total), Percent(Defeats(t), total), Percent(Draws(t), total))
  {
    if ResultColumn !in t.columns then Err(KeyError)
    else
      var total := Victories(t) + Defeats(t) + Draws(t);
      PercentAdd(Victories(t), Defeats(t), total);
      PercentAdd(Victories(t) + Defeats(t), Draws(t), total);
      Ok(Summary(Percent(Victories(t), total), Percent(Defeats(t), total), Percent(Draws(t), total)))
  }

  // ---------------------------------------------------------------------------
  // matches_main, without the plot and the printout

  /** A successful grouping has at least one match, and its counts are
      numbers, so every match gets a result. */
  lemma GroupedResults(t: Table)
    requires GroupGoalsByMatch(t).Ok?
    ensures |GroupGoalsByMatch(t).value.rows| > 0
    ensures ResultValues(GroupGoalsByMatch(t).value.rows).Ok?
  {
    var g := GroupGoalsByMatch(t).value;
    GroupedCounts(t);
    GroupedLabels(t);
    SidesAreKeys(t);
    var goals := CountedGoals(t);
    assert |goals| > 0 by {
      assert Sides(t)[0] in Cells(goals, SideColumn);
    }
    assert Cells(goals, MatchColumn)[0] in Labels(g);
  }

  /** The pure steps of matches_main: grouping, then results, then the
      summary. Whenever the grouping succeeds, the results cover every match
      and the summary is defined: victories, defeats and draws are all the
      matches, and their shares add up to 100. */
  lemma MatchesPipeline(t: Table)
    requires GroupGoalsByMatch(t).Ok?
    ensures var g := GroupGoalsByMatch(t).value;
      ResultValues(g.rows).Ok?
      && var u := WithColumn(g, ResultColumn, ResultValues(g.rows).value);
         Victories(u) + Defeats(u) + Draws(u) == |g.rows| > 0
         && CreateSummary(u).Ok?
         && CreateSummary(u).value.victories + CreateSummary(u).value.defeats + CreateSummary(u).value.draws == 100.0
  {
    var g := GroupGoalsByMatch(t).value;
    GroupedResults(t);
    var vs := ResultValues(g.rows).value;
    var u := WithColumn(g, ResultColumn, vs);
    assert Column(u, ResultColumn) == vs;
    CountPartition(vs);
  }
}
