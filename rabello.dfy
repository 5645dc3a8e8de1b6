/// The home-advantage hypothesis: shares of home wins and defeats with draws
/// left out or folded in, the share of draws, and the level matches counted
/// again from the event log.
///
/// Grouping goals per match and giving each match a result are the same
/// steps as in `Matches` (`GroupGoalsByMatch`, `CalculateResults`).
module Rabello {
  import opened DataFrame
  import opened Utils
  import opened Matches

  /** The matches that did not end level (`result != -1`); a NaN result is
      kept, as pandas' `!=` keeps it. */
  function Decided(rows: seq<Row>): seq<Row>
  {
    FilterRows(rows, NoneOf(ResultColumn, [Draw]))
  }

  lemma CellsCons(rows: seq<Row>, c: ColumnName)
    requires rows != []
    ensures Cells(rows, c) == [Get(rows[0], c)] + Cells(rows[1..], c)
  {
  }

  lemma CountCons(x: Value, vs: seq<Value>, v: Value)
    ensures Count([x] + vs, v) == (if Same(x, v) then 1 else 0) + Count(vs, v)
  {
    CountAppend([x], vs, v);
    assert [x][..0] == [];
  }

  /** Leaving out the draws keeps every win and every defeat. */
  lemma {:induction false} DecidedKeeps(rows: seq<Row>, v: Value)
    requires v == HomeWin || v == HomeDefeat
    ensures Count(Cells(Decided(rows), ResultColumn), v) == Count(Cells(rows, ResultColumn), v)
  {
    if rows != [] {
      var r := rows[0];
      var rest := Decided(rows[1..]);
      DecidedKeeps(rows[1..], v);
      CellsCons(rows, ResultColumn);
      CountCons(Get(r, ResultColumn), Cells(rows[1..], ResultColumn), v);
      if Passes(r, NoneOf(ResultColumn, [Draw])) {
        assert Decided(rows) == [r] + rest;
        CellsCons([r] + rest, ResultColumn);
        assert ([r] + rest)[1..] == rest;
        CountCons(Get(r, ResultColumn), Cells(rest, ResultColumn), v);
      } else {
        assert Decided(rows) == rest;
        assert Same(Get(r, ResultColumn), Draw) by {
          assert Draw in [Draw];
        }
      }
    }
  }

  /** Leaving out the draws drops exactly the draws. */
  lemma {:induction false} DecidedLength(rows: seq<Row>)
    ensures |Decided(rows)| + Count(Cells(rows, ResultColumn), Draw) == |rows|
  {
    if rows != [] {
      var r := rows[0];
      DecidedLength(rows[1..]);
      CellsCons(rows, ResultColumn);
      CountCons(Get(r, ResultColumn), Cells(rows[1..], ResultColumn), Draw);
      assert Passes(r, NoneOf(ResultColumn, [Draw])) <==> !Same(Get(r, ResultColumn), Draw) by {
        assert forall w :: w in [Draw] <==> w == Draw;
      }
    }
  }

  /** The matches that did not end level are the wins, the defeats and
      whatever else the `result` column holds. */
  lemma DecidedCounts(t: Table)
    ensures Count(Cells(Decided(t.rows), ResultColumn), HomeWin) == Victories(t)
    ensures Count(Cells(Decided(t.rows), ResultColumn), HomeDefeat) == Defeats(t)
    ensures |Decided(t.rows)| == |t.rows| - Draws(t)
    ensures Victories(t) + Defeats(t) + Draws(t) <= |t.rows|
  {
    DecidedKeeps(t.rows, HomeWin);
    DecidedKeeps(t.rows, HomeDefeat);
    DecidedLength(t.rows);
    CountsAtMostRows(Column(t, ResultColumn));
  }

  /** calculate_home_win_percentage_excluding_draws: the home wins over the
      matches that did not end level. A KeyError without `result`. */
  function WinExcludingDraws(t: Table): (r: Result<real>)
    requires ResultColumn in t.columns ==> Draws(t) < |t.rows|
    ensures r.Err? <==> ResultColumn !in t.columns
    ensures r.Err? ==> r.error == KeyError
    ensures r.Ok? ==> Victories(t) <= |t.rows| - Draws(t) && r.value == Percent(Victories(t), |t.rows| - Draws(t))
  {
    if ResultColumn !in t.columns then Err(KeyError)
    else
      DecidedCounts(t);
      var decided := Decided(t.rows);
      Ok(Percent(Count(Cells(decided, ResultColumn), HomeWin), |decided|))
  }

  /** calculate_home_loss_percentage_excluding_draws: the home defeats over
      the matches that did not end level. A KeyError without `result`. */
  function LossExcludingDraws(t: Table): (r: Result<real>)
    requires ResultColumn in t.columns ==> Draws(t) < |t.rows|
    ensures r.Err? <==> ResultColumn !in t.columns
    ensures r.Err? ==> r.error == KeyError
    ensures r.Ok? ==> Defeats(t) <= |t.rows| - Draws(t) && r.value == Percent(Defeats(t), |t.rows| - Draws(t))
  {
    if ResultColumn !in t.columns then Err(KeyError)
    else
      DecidedCounts(t);
      var decided := Decided(t.rows);
      Ok(Percent(Count(Cells(decided, ResultColumn), HomeDefeat), |decided|))
  }

  /** calculate_home_win_percentage_including_draws: wins and draws over all
      matches. A KeyError without `result`. */
  function WinIncludingDraws(t: Table): (r: Result<real>)
    requires ResultColumn in t.columns ==> |t.rows| > 0
    ensures r.Err? <==> ResultColumn !in t.columns
    ensures r.Err? ==> r.error == KeyError
    ensures r.Ok? ==> 0.0 <= r.value <= 100.0
    ensures r.Ok? ==> (r.value == 0.0 <==> Victories(t) == 0 && Draws(t) == 0)
    ensures r.Ok? ==> Victories(t) + Draws(t) <= |t.rows| && r.value == Percent(Victories(t) + Draws(t), |t.rows|)
  {
    if ResultColumn !in t.columns then Err(KeyError)
    else
      CountsAtMostRows(Column(t, ResultColumn));
      Ok(Percent(Victories(t) + Draws(t), |t.rows|))
  }

  /** calculate_draw_percentage: draws over all matches. A KeyError without
      `result`. */
  function DrawPercentage(t: Table): (r: Result<real>)
    requires ResultColumn in t.columns ==> |t.rows| > 0
    ensures r.Err? <==> ResultColumn !in t.columns
    ensures r.Err? ==> r.error == KeyError
    ensures r.Ok? ==> r.value == Percent(Draws(t), |t.rows|)
  {
    if ResultColumn !in t.columns then Err(KeyError)
    else Ok(Percent(Draws(t), |t.rows|))
  }

  /** calculate_home_loss_percentage_including_draws: defeats and draws over
      all matches. A KeyError without `result`. */
  function LossIncludingDraws(t: Table): (r: Result<real>)
    requires ResultColumn in t.columns ==> |t.rows| > 0
    ensures r.Err? <==> ResultColumn !in t.columns
    ensures r.Err? ==> r.error == KeyError
    ensures r.Ok? ==> 0.0 <= r.value <= 100.0
    ensures r.Ok? ==> (r.value == 0.0 <==> Defeats(t) == 0 && Draws(t) == 0)
    ensures r.Ok? ==> Defeats(t) + Draws(t) <= |t.rows| && r.value == Percent(Defeats(t) + Draws(t), |t.rows|)
  {
    if ResultColumn !in t.columns then Err(KeyError)
    else
      CountsAtMostRows(Column(t, ResultColumn));
      Ok(Percent(Defeats(t) + Draws(t), |t.rows|))
  }

  /** Every `result` is a win, a defeat or a draw, as calculate_results
      leaves it. */
  predicate Results(t: Table)
  {
    forall i :: 0 <= i < |t.rows| ==> Get(t.rows[i], ResultColumn) in {HomeWin, HomeDefeat, Draw}
  }

  /** Among the matches that did not end level, the win and loss shares add
      up to 100. */
  lemma ExcludingDrawsComplement(t: Table)
    requires ResultColumn in t.columns && Draws(t) < |t.rows| && Results(t)
    ensures WinExcludingDraws(t).value + LossExcludingDraws(t).value == 100.0
  {
    CountPartition(Column(t, ResultColumn));
    PercentAdd(Victories(t), Defeats(t), |t.rows| - Draws(t));
  }

  /** Folding the draws into both sides counts them twice: the two shares
      add up to 100 plus the draw share. */
  lemma IncludingDrawsOverlap(t: Table)
    requires ResultColumn in t.columns && |t.rows| > 0 && Results(t)
    ensures WinIncludingDraws(t).value + LossIncludingDraws(t).value == 100.0 + DrawPercentage(t).value
  {
    var n := |t.rows|;
    CountPartition(Column(t, ResultColumn));
    PercentAdd(Victories(t), Draws(t), n);
    PercentAdd(Defeats(t), Draws(t), n);
    PercentAdd(Victories(t), Defeats(t), n);
    PercentAdd(Victories(t) + Defeats(t), Draws(t), n);
  }

  /** Wins and defeats without draws always leave a share at most 100
      between them, whatever else the `result` column holds. */
  lemma ExcludingDrawsBound(t: Table)
    requires ResultColumn in t.columns && Draws(t) < |t.rows|
    ensures WinExcludingDraws(t).value + LossExcludingDraws(t).value <= 100.0
  {
    CountsAtMostRows(Column(t, ResultColumn));
    PercentAdd(Victories(t), Defeats(t), |t.rows| - Draws(t));
  }

  // ---------------------------------------------------------------------------
  // calculate_draws_from_original_dataset

  /** Every goal, whatever its event type. */
  const Scored: map<ColumnName, Value> := map[IsGoalColumn := Num(1.0)]

  const DrawColumns: seq<ColumnName> := [IsGoalColumn, MatchColumn, SideColumn]

  /** The goals the recount groups: rows with `is_goal == 1` and both keys. */
  function AllGoals(t: Table): seq<Row>
  {
    KeyedRows(FilterRows(t.rows, AllEqual(Scored)))
  }

  function GoalSides(t: Table): seq<Value>
  {
    Distinct(Cells(AllGoals(t), SideColumn))
  }

  /** The names the recount gives the two side columns, in order: the side
      that sorts first is named `away` here. */
  const RecountNames: seq<ColumnName> := [AwayColumn, HomeColumn]

  /** Goals per match and side, the side that sorts first named `away` and
      the other `home`. Each goal adds its `is_goal`, which is 1, so a sum is
      a count. */
  function GoalsPerSide(t: Table): (r: Result<Table>)
    ensures r.Err? <==> !HasColumns(t, DrawColumns) || |GoalSides(t)| != 2
    ensures !HasColumns(t, DrawColumns) ==> r == Err(KeyError)
    ensures HasColumns(t, DrawColumns) && |GoalSides(t)| != 2 ==> r == Err(ValueError)
    ensures r.Ok? ==> r.value.columns == [AwayColumn, HomeColumn]
    ensures r.Ok? ==> |GoalSides(t)| == 2
                      && r.value == GoalTable(AllGoals(t), Distinct(Cells(AllGoals(t), MatchColumn)),
                                              FirstKey(GoalSides(t)), SecondKey(GoalSides(t)), RecountNames)
  {
    if !HasColumns(t, DrawColumns) then Err(KeyError)
    else
      var goals := AllGoals(t);
      var sides := Distinct(Cells(goals, SideColumn));
      if |sides| != 2 then Err(ValueError)
      else Ok(GoalTable(goals, Distinct(Cells(goals, MatchColumn)), FirstKey(sides), SecondKey(sides), RecountNames))
  }

  /** How many rows have as many `home` goals as `away` goals. */
  function LevelCount(rows: seq<Row>): (n: nat)
    ensures n <= |rows|
  {
    if rows == [] then 0
    else
      var r := rows[|rows| - 1];
      LevelCount(rows[..|rows| - 1]) + (if Same(Get(r, HomeColumn), Get(r, AwayColumn)) then 1 else 0)
  }

  /** calculate_draws_from_original_dataset: the matches whose two sides
      scored equally, among the matches with at least one goal. */
  function DrawsFromEvents(t: Table): (r: Result<nat>)
    ensures r.Err? <==> GoalsPerSide(t).Err?
    ensures r.Err? ==> r.error == GoalsPerSide(t).error
    ensures r.Ok? ==> r.value <= |Distinct(Cells(AllGoals(t), MatchColumn))|
    ensures r.Ok? ==> |GoalSides(t)| == 2
                      && r.value == LevelIds(AllGoals(t), Distinct(Cells(AllGoals(t), MatchColumn)),
                                             FirstKey(GoalSides(t)), SecondKey(GoalSides(t)))
  {
    var g :- GoalsPerSide(t);
    var ids := Distinct(Cells(AllGoals(t), MatchColumn));
    LevelCountIsLevelIds(AllGoals(t), ids, FirstKey(GoalSides(t)), SecondKey(GoalSides(t)), |ids|);
    assert g.rows[..|ids|] == g.rows && ids[..|ids|] == ids;
    Ok(LevelCount(g.rows))
  }

  /** How many of the matches `ids` have as many goals for `first` as for
      `second` among `goals`. */
  function LevelIds(goals: seq<Row>, ids: seq<Value>, first: Value, second: Value): (n: nat)
    ensures n <= |ids|
  {
    if ids == [] then 0
    else
      var m := ids[|ids| - 1];
      LevelIds(goals, ids[..|ids| - 1], first, second)
        + (if GoalsFor(goals, m, first) == GoalsFor(goals, m, second) then 1 else 0)
  }

  /** Counting the level rows of a goal table, a prefix at a time, counts the
      level matches among its ids. */
  /** Counting level matches over two lists of ids adds up. */
  lemma {:induction false} LevelIdsAppend(goals: seq<Row>, a: seq<Value>, b: seq<Value>, first: Value, second: Value)
    ensures LevelIds(goals, a + b, first, second) == LevelIds(goals, a, first, second) + LevelIds(goals, b, first, second)
    decreases |b|
  {
    if b != [] {
      var front := b[..|b| - 1];
      LevelIdsAppend(goals, a, front, first, second);
      assert (a + b)[..|a + b| - 1] == a + front;
      assert (a + b)[|a + b| - 1] == b[|b| - 1];
    } else {
      assert a + b == a;
    }
  }

  /** The recount does not depend on the order of the match ids: any
      reordering, such as the sorted order of a `groupby`, counts the same. */
  lemma {:induction false} LevelIdsReordered(goals: seq<Row>, ids: seq<Value>, other: seq<Value>, first: Value, second: Value)
    requires multiset(ids) == multiset(other)
    ensures LevelIds(goals, ids, first, second) == LevelIds(goals, other, first, second)
    decreases |ids|
  {
    if ids == [] {
      assert |multiset(other)| == 0;
    } else {
      var front, x := ids[..|ids| - 1], ids[|ids| - 1];
      assert x in multiset(ids);
      var k :| 0 <= k < |other| && other[k] == x;
      var left, right := other[..k], other[k + 1..];
      assert other == left + [x] + right;
      RemoveOne(ids, other, k);
      LevelIdsReordered(goals, front, left + right, first, second);
      LevelIdsAround(goals, left, x, right, first, second);
      LevelIdsOne(goals, x, first, second);
    }
  }

  /** Taking one id out of a list removes its own count and nothing else. */
  lemma LevelIdsAround(goals: seq<Row>, left: seq<Value>, x: Value, right: seq<Value>, first: Value, second: Value)
    ensures LevelIds(goals, left + [x] + right, first, second)
            == LevelIds(goals, left + right, first, second) + LevelIds(goals, [x], first, second)
  {
    LevelIdsAppend(goals, left, right, first, second);
    LevelIdsAppend(goals, left + [x], right, first, second);
    LevelIdsAppend(goals, left, [x], first, second);
  }

  /** One id counts once exactly when its match is level. */
  lemma LevelIdsOne(goals: seq<Row>, m: Value, first: Value, second: Value)
    ensures LevelIds(goals, [m], first, second) == if GoalsFor(goals, m, first) == GoalsFor(goals, m, second) then 1 else 0
  {
    assert [m][..0] == [];
  }

  /** Taking one occurrence of `x` out of two lists with the same members
      leaves lists with the same members. */
  lemma RemoveOne(ids: seq<Value>, other: seq<Value>, k: nat)
    requires ids != [] && multiset(ids) == multiset(other) && k < |other| && other[k] == ids[|ids| - 1]
    ensures multiset(ids[..|ids| - 1]) == multiset(other[..k] + other[k + 1..])
  {
    var front, x := ids[..|ids| - 1], ids[|ids| - 1];
    assert ids == front + [x];
    var left, right := other[..k], other[k + 1..];
    assert other == left + [x] + right;
    calc {
      multiset(front) + multiset{x};
      multiset(front + [x]);
      multiset(left + [x] + right);
      multiset(left) + multiset{x} + multiset(right);
      multiset(left + right) + multiset{x};
    }
    var a, b := multiset(front), multiset(left + right);
    forall y
      ensures a[y] == b[y]
    {
      assert (a + multiset{x})[y] == a[y] + multiset{x}[y];
      assert (b + multiset{x})[y] == b[y] + multiset{x}[y];
    }
  }

  lemma {:induction false} LevelCountIsLevelIds(goals: seq<Row>, ids: seq<Value>, first: Value, second: Value, n: nat)
    requires n <= |ids|
    ensures LevelCount(GoalTable(goals, ids, first, second, RecountNames).rows[..n])
            == LevelIds(goals, ids[..n], first, second)
  {
    if n > 0 {
      LevelCountIsLevelIds(goals, ids, first, second, n - 1);
      var rows := GoalTable(goals, ids, first, second, RecountNames).rows;
      assert rows[..n][..n - 1] == rows[..n - 1];
      assert ids[..n][..n - 1] == ids[..n - 1];
    }
  }

  /** A match the recount finds level has at least one goal on each side,
      so a goalless match is never counted as a draw. */
  lemma LevelMatchesScored(t: Table)
    requires GoalsPerSide(t).Ok?
    ensures var g := GoalsPerSide(t).value;
      forall i :: 0 <= i < |g.rows| && Same(Get(g.rows[i], HomeColumn), Get(g.rows[i], AwayColumn)) ==>
        Get(g.rows[i], HomeColumn).x >= 1.0 && Get(g.rows[i], AwayColumn).x >= 1.0
  {
    var goals := AllGoals(t);
    var sides := GoalSides(t);
    SidesCover(goals);
    assert forall x :: x in goals ==> Get(x, SideColumn) == FirstKey(sides) || Get(x, SideColumn) == SecondKey(sides) by {
      assert forall v :: v in sides ==> v == sides[0] || v == sides[1];
    }
    assert sides[0] != sides[1];
    assert GoalsPerSide(t).value == GoalTable(goals, Distinct(Cells(goals, MatchColumn)), FirstKey(sides), SecondKey(sides), RecountNames);
    LevelRowsScored(goals, FirstKey(sides), SecondKey(sides), RecountNames);
  }

  /** The same for any goal table over two distinct sides. */
  lemma LevelRowsScored(goals: seq<Row>, first: Value, second: Value, names: seq<ColumnName>)
    requires first != second && |names| == 2 && names[0] != names[1]
    requires forall x :: x in goals ==> Get(x, SideColumn) == first || Get(x, SideColumn) == second
    ensures var g := GoalTable(goals, Distinct(Cells(goals, MatchColumn)), first, second, names);
      forall i :: 0 <= i < |g.rows| && Same(Get(g.rows[i], names[0]), Get(g.rows[i], names[1])) ==>
        Get(g.rows[i], names[0]).x >= 1.0 && Get(g.rows[i], names[1]).x >= 1.0
  {
    var ids := Distinct(Cells(goals, MatchColumn));
    var g := GoalTable(goals, ids, first, second, names);
    GoalsSplitAll(goals, first, second);
    forall i | 0 <= i < |g.rows| && Same(Get(g.rows[i], names[0]), Get(g.rows[i], names[1]))
      ensures Get(g.rows[i], names[0]).x >= 1.0 && Get(g.rows[i], names[1]).x >= 1.0
    {
      assert ids[i] in ids;
      GoalsInListed(goals, ids[i]);
    }
  }

  /** Every match's goals split between the two sides. */
  lemma GoalsSplitAll(goals: seq<Row>, first: Value, second: Value)
    requires first != second
    requires forall x :: x in goals ==> Get(x, SideColumn) == first || Get(x, SideColumn) == second
    ensures forall m :: GoalsFor(goals, m, first) + GoalsFor(goals, m, second) == GoalsIn(goals, m)
  {
    forall m
      ensures GoalsFor(goals, m, first) + GoalsFor(goals, m, second) == GoalsIn(goals, m)
    {
      GoalsSplit(goals, m, first, second);
    }
  }
}
