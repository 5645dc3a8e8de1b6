/// Where headed goals come from: the event before each headed goal decides
/// whether it counts as a corner, a foul, an offside or something else.
module Head {
  import opened DataFrame
  import opened Utils

  /** The event-log codes the analysis looks for. */
  const HeaderCode := Num(3.0)
  const CornerCode := Num(2.0)
  const FoulCode := Num(3.0)
  const OffsideCode := Num(9.0)

  // ---------------------------------------------------------------------------
  // get_rows_with_previous

  /** Position `p` survives the extraction: its row satisfies the conditions,
      or the row right after it does. */
  predicate Kept(rows: seq<Row>, conditions: map<ColumnName, Value>, p: nat)
    requires p < |rows|
  {
    Passes(rows[p], AllEqual(conditions))
    || (p + 1 < |rows| && Passes(rows[p + 1], AllEqual(conditions)))
  }

  /** The positions at or after `lo` that survive, in ascending order. */
  function KeptPositions(rows: seq<Row>, conditions: map<ColumnName, Value>, lo: nat): (ps: seq<nat>)
    requires lo <= |rows|
    ensures forall k :: 0 <= k < |ps| ==> lo <= ps[k] < |rows|
    decreases |rows| - lo
  {
    if lo == |rows| then []
    else (if Kept(rows, conditions, lo) then [lo] else []) + KeptPositions(rows, conditions, lo + 1)
  }

  /** Every kept position survives, and they come in ascending order. */
  lemma {:induction false} KeptPositionsSound(rows: seq<Row>, conditions: map<ColumnName, Value>, lo: nat)
    requires lo <= |rows|
    ensures var ps := KeptPositions(rows, conditions, lo);
      Increasing(ps) && forall k :: 0 <= k < |ps| ==> Kept(rows, conditions, ps[k])
    decreases |rows| - lo
  {
    if lo < |rows| {
      KeptPositionsSound(rows, conditions, lo + 1);
    }
  }

  /** `sorted(set(s))` for a set of positions below `hi`, listed from `lo` on. */
  function Ascending(s: set<int>, lo: nat, hi: nat): (r: seq<nat>)
    requires lo <= hi
    ensures forall x :: x in r <==> x in s && lo <= x < hi
    ensures Increasing(r)
    ensures forall k :: 0 <= k < |r| ==> lo <= r[k] < hi
    decreases hi - lo
  {
    if lo == hi then []
    else (if lo in s then [lo] else []) + Ascending(s, lo + 1, hi)
  }

  lemma {:induction false} AscendingIsKept(rows: seq<Row>, conditions: map<ColumnName, Value>, s: set<int>, lo: nat)
    requires lo <= |rows|
    requires forall p :: lo <= p < |rows| ==> (p in s <==> Kept(rows, conditions, p))
    ensures Ascending(s, lo, |rows|) == KeptPositions(rows, conditions, lo)
    decreases |rows| - lo
  {
    if lo < |rows| {
      AscendingIsKept(rows, conditions, s, lo + 1);
    }
  }

  /** The extraction keeps every matching row and the row before it. */
  method GetRowsWithPrevious(t: Table, conditions: map<ColumnName, Value>) returns (r: Result<Table>)
    requires Dense(t.rows)
    ensures r.Err? <==> exists c :: c in conditions && c !in t.columns
    ensures r.Err? ==> r.error == KeyError
    ensures r.Ok? ==> r.value == Table(t.columns, ResetIndex(Select(t.rows, KeptPositions(t.rows, conditions, 0))))
  {
    var filtered := FilterDf(t, conditions);
    if filtered.Err? {
      return Err(filtered.error);
    }
    ghost var ps := Passing(t.rows, AllEqual(conditions), 0);
    var indices := filtered.value.rows;
    var saved: seq<int> := [];
    for k := 0 to |indices|
      invariant forall x :: x in saved ==> 0 <= x < |t.rows| && Kept(t.rows, conditions, x)
      invariant forall j :: 0 <= j < k ==> ps[j] in saved && (ps[j] > 0 ==> ps[j] - 1 in saved)
    {
      assert indices[k].index == Label(ps[k]);
      var index := indices[k].index.x.Floor;
      if index > 0 {
        saved := saved + [index - 1];
      }
      saved := saved + [index];
    }
    var unique := set x | x in saved;
    SavedAreKept(t.rows, conditions, saved, unique);
    AscendingIsKept(t.rows, conditions, unique, 0);
    var positions := Ascending(unique, 0, |t.rows|);
    return Ok(Table(t.columns, ResetIndex(Select(t.rows, positions))));
  }

  /** The positions collected by the loop of `GetRowsWithPrevious` are exactly
      the surviving ones. */
  lemma SavedAreKept(rows: seq<Row>, conditions: map<ColumnName, Value>, saved: seq<int>, unique: set<int>)
    requires unique == set x | x in saved
    requires forall x :: x in saved ==> 0 <= x < |rows| && Kept(rows, conditions, x)
    requires forall j :: 0 <= j < |Passing(rows, AllEqual(conditions), 0)| ==>
               var p := Passing(rows, AllEqual(conditions), 0)[j]; p in saved && (p > 0 ==> p - 1 in saved)
    ensures forall p :: 0 <= p < |rows| ==> (p in unique <==> Kept(rows, conditions, p))
  {
    var ps := Passing(rows, AllEqual(conditions), 0);
    forall p | 0 <= p < |rows| && Kept(rows, conditions, p)
      ensures p in unique
    {
      if Passes(rows[p], AllEqual(conditions)) {
        PassingComplete(rows, AllEqual(conditions), 0, p);
        var j :| 0 <= j < |ps| && ps[j] == p;
      } else {
        PassingComplete(rows, AllEqual(conditions), 0, p + 1);
        var j :| 0 <= j < |ps| && ps[j] == p + 1;
      }
    }
  }

  lemma {:induction false} KeptComplete(rows: seq<Row>, conditions: map<ColumnName, Value>, lo: nat, p: nat)
    requires lo <= p < |rows| && Kept(rows, conditions, p)
    ensures p in KeptPositions(rows, conditions, lo)
    decreases |rows| - lo
  {
    if lo < p {
      KeptComplete(rows, conditions, lo + 1, p);
    }
  }

  /** Every matching row is extracted, and so is the row before it (if any). */
  lemma MatchAndPredecessorKept(rows: seq<Row>, conditions: map<ColumnName, Value>, p: nat)
    requires p < |rows| && Passes(rows[p], AllEqual(conditions))
    ensures p in KeptPositions(rows, conditions, 0)
    ensures p > 0 ==> p - 1 in KeptPositions(rows, conditions, 0)
  {
    KeptComplete(rows, conditions, 0, p);
    if p > 0 {
      KeptComplete(rows, conditions, 0, p - 1);
    }
  }

  /** How many positions from `lo` on survive, against how many match. */
  lemma {:induction false} KeptBoundFrom(rows: seq<Row>, conditions: map<ColumnName, Value>, lo: nat)
    requires lo <= |rows|
    ensures |KeptPositions(rows, conditions, lo)|
            <= |Passing(rows, AllEqual(conditions), lo)|
               + (if lo < |rows| then |Passing(rows, AllEqual(conditions), lo + 1)| else 0)
    decreases |rows| - lo
  {
    if lo < |rows| {
      KeptBoundFrom(rows, conditions, lo + 1);
      if lo + 1 < |rows| {
        PassingShrinks(rows, AllEqual(conditions), lo + 1);
      }
    }
  }

  lemma PassingShrinks(rows: seq<Row>, test: RowTest, lo: nat)
    requires lo < |rows|
    ensures |Passing(rows, test, lo + 1)| <= |Passing(rows, test, lo)|
  {
  }

  /** The extraction returns at most two rows per matching row. */
  lemma KeptAtMostTwicePassing(rows: seq<Row>, conditions: map<ColumnName, Value>)
    ensures |KeptPositions(rows, conditions, 0)| <= 2 * |Passing(rows, AllEqual(conditions), 0)|
  {
    KeptBoundFrom(rows, conditions, 0);
    if 0 < |rows| {
      PassingShrinks(rows, AllEqual(conditions), 0);
    }
  }

  // ---------------------------------------------------------------------------
  // is_headed_goal and is_same_match

  /** A goal (`is_goal == 1`) scored with the head (`bodypart == 3`). */
  predicate HeadedRow(r: Row)
  {
    Same(Get(r, IsGoalColumn), Num(1.0)) && Same(Get(r, BodypartColumn), HeaderCode)
  }

  /** `is_headed_goal(df, i)`: reads `bodypart` only when the event is a goal,
      as Python's `and` does. A label carried by several rows is a
      ValueError: `and` cannot take the truth of the Series `.loc` returns. */
  function IsHeadedGoal(t: Table, i: int): (r: Result<bool>)
    ensures Position(t.rows, Label(i)).None? || IsGoalColumn !in t.columns ==> r == Err(KeyError)
    ensures IsGoalColumn in t.columns && Repeated(t.rows, Label(i)) ==> r == Err(ValueError)
    ensures IsGoalColumn in t.columns && BodypartColumn !in t.columns
            && Position(t.rows, Label(i)).Some? && !Repeated(t.rows, Label(i))
            && Same(Get(t.rows[Position(t.rows, Label(i)).value], IsGoalColumn), Num(1.0))
            ==> r == Err(KeyError)
    ensures r.Ok? ==> Position(t.rows, Label(i)).Some? && !Repeated(t.rows, Label(i))
    ensures r.Ok? ==> (r.value <==> HeadedRow(t.rows[Position(t.rows, Label(i)).value]))
    ensures r.Err? ==> r.error == KeyError || r.error == ValueError
  {
    var goal :- Loc(t, Label(i), IsGoalColumn);
    if !Same(goal, Num(1.0)) then Ok(false)
    else
      var part :- Loc(t, Label(i), BodypartColumn);
      Ok(Same(part, HeaderCode))
  }

  /** `is_same_match(df, a, b)`: both events belong to the same match. A
      missing label or column is a KeyError from either lookup. When a label
      is carried by several rows the comparison yields a Series rather than a
      bool, and the ValueError its caller's `and` raises is reported here. */
  function IsSameMatch(t: Table, a: int, b: int): (r: Result<bool>)
    ensures r == Err(KeyError) <==>
              Position(t.rows, Label(a)).None? || Position(t.rows, Label(b)).None? || MatchColumn !in t.columns
    ensures r == Err(ValueError) <==>
              Position(t.rows, Label(a)).Some? && Position(t.rows, Label(b)).Some? && MatchColumn in t.columns
              && (Repeated(t.rows, Label(a)) || Repeated(t.rows, Label(b)))
    ensures r.Ok? ==> (r.value <==> Same(Get(t.rows[Position(t.rows, Label(a)).value], MatchColumn),
                                        Get(t.rows[Position(t.rows, Label(b)).value], MatchColumn)))
    ensures r.Err? ==> r.error == KeyError || r.error == ValueError
  {
    var first := Loc(t, Label(a), MatchColumn);
    var second := Loc(t, Label(b), MatchColumn);
    if first == Err(KeyError) || second == Err(KeyError) then Err(KeyError)
    else
      var x :- first;
      var y :- second;
      Ok(Same(x, y))
  }

  /** On a table labelled 0..N-1 with the two columns, `is_headed_goal` is the
      headed-goal test of row `i`, and any other `i` is a KeyError. */
  lemma IsHeadedGoalOnDense(t: Table, i: int)
    requires Dense(t.rows) && HasColumns(t, [IsGoalColumn, BodypartColumn])
    ensures IsHeadedGoal(t, i) == if 0 <= i < |t.rows| then Ok(HeadedRow(t.rows[i])) else Err(KeyError)
  {
    DenseLoc(t, i, IsGoalColumn);
    DenseLoc(t, i, BodypartColumn);
  }

  // ---------------------------------------------------------------------------
  // origin_of_headed_goals

  datatype Origin = Corner | Foul | Offside | Other | Uncounted

  /** The bucket chosen by the event type of the preceding row. */
  function Bucket(previous: Value): (o: Origin)
    ensures o != Uncounted
    ensures o == Corner <==> Same(previous, CornerCode)
    ensures o == Foul <==> Same(previous, FoulCode)
    ensures o == Offside <==> Same(previous, OffsideCode)
  {
    if Same(previous, CornerCode) then Corner
    else if Same(previous, FoulCode) then Foul
    else if Same(previous, OffsideCode) then Offside
    else Other
  }

  /** `time[i] - time[i-1] <= 1`: NaN makes it false, a string makes the
      subtraction a TypeError. There is no lower bound on the difference. */
  function WithinOneMinute(now: Value, before: Value): (r: Result<bool>)
    ensures r.Err? <==> now.Str? || before.Str?
    ensures r == Ok(true) <==> now.Num? && before.Num? && now.x <= before.x + 1.0
  {
    match (now, before)
    case (Num(a), Num(b)) => Ok(a - b <= 1.0)
    case (Str(_), _) => Err(TypeError)
    case (_, Str(_)) => Err(TypeError)
    case _ => Ok(false)
  }

  /** What the loop body does with row `i`. At `i == 0` the first test reads
      `is_headed_goal` and, when it is false, the second test reads it again
      with the same outcome, so the row is not counted. */
  function Classify(t: Table, i: nat): (r: Result<Origin>)
    ensures r.Ok? && r.value != Uncounted ==> IsHeadedGoal(t, i) == Ok(true)
    ensures IsHeadedGoal(t, i) == Ok(false) ==> r == Ok(Uncounted)
    ensures i == 0 ==> (r == Ok(Other) <==> IsHeadedGoal(t, i) == Ok(true))
    ensures i > 0 && r.Ok? && r.value != Uncounted ==> IsSameMatch(t, i, i - 1) == Ok(true)
  {
    var headed :- IsHeadedGoal(t, i);
    if !headed then Ok(Uncounted)
    else if i == 0 then Ok(Other)
    else
      var same :- IsSameMatch(t, i, i - 1);
      if !same then Ok(Uncounted)
      else
        var now :- Loc(t, Label(i), TimeColumn);
        var before :- Loc(t, Label(i - 1), TimeColumn);
        var close :- WithinOneMinute(now, before);
        if !close then Ok(Uncounted)
        else
          var previous :- Loc(t, Label(i - 1), EventTypeColumn);
          Ok(Bucket(previous))
  }

  datatype Counts = Counts(corners: nat, fouls: nat, offsides: nat, others: nat)

  function Total(c: Counts): nat
  {
    c.corners + c.fouls + c.offsides + c.others
  }

  /** One counter goes up per counted headed goal. */
  function Add(c: Counts, o: Origin): (d: Counts)
    ensures Total(d) == Total(c) + (if o == Uncounted then 0 else 1)
  {
    match o
    case Corner => c.(corners := c.corners + 1)
    case Foul => c.(fouls := c.fouls + 1)
    case Offside => c.(offsides := c.offsides + 1)
    case Other => c.(others := c.others + 1)
    case Uncounted => c
  }

  /** The counters after the first `n` rows; the first error stops the walk. */
  function Tally(t: Table, n: nat): Result<Counts>
    requires n <= |t.rows|
  {
    if n == 0 then Ok(Counts(0, 0, 0, 0))
    else
      var c :- Tally(t, n - 1);
      var o :- Classify(t, n - 1);
      Ok(Add(c, o))
  }

  /** The result table: a sentinel when nothing was counted, else five shares
      (corners, fouls, offsides, all set pieces, others). */
  datatype Breakdown =
    | NoHeadedGoals
    | Shares(corners: real, fouls: real, offsides: real, setPieces: real, others: real)

  function Summarize(c: Counts): (r: Breakdown)
    ensures r.NoHeadedGoals? <==> Total(c) == 0
    ensures r.Shares? ==> r.corners + r.fouls + r.offsides + r.others == 100.0
    ensures r.Shares? ==> r.setPieces == r.corners + r.fouls + r.offsides
    ensures r.Shares? ==> 0.0 <= r.corners <= 100.0 && 0.0 <= r.fouls <= 100.0
                          && 0.0 <= r.offsides <= 100.0 && 0.0 <= r.others <= 100.0
    ensures Total(c) > 0 ==>
              r == Shares(Percent(c.corners, Total(c)), Percent(c.fouls, Total(c)), Percent(c.offsides, Total(c)),
                          Percent(c.corners + c.fouls + c.offsides, Total(c)), Percent(c.others, Total(c)))
  {
    var total := Total(c);
    if total == 0 then NoHeadedGoals
    else
      SharesAddUp(c);
      Shares(Percent(c.corners, total), Percent(c.fouls, total), Percent(c.offsides, total),
             Percent(c.corners + c.fouls + c.offsides, total), Percent(c.others, total))
  }
  /** The four origin shares add to 100, and the set-piece share is the sum
      of the first three. */
  lemma SharesAddUp(c: Counts)
    requires Total(c) > 0
    ensures var total := Total(c);
      Percent(c.corners, total) + Percent(c.fouls, total) + Percent(c.offsides, total) + Percent(c.others, total) == 100.0
      && Percent(c.corners + c.fouls + c.offsides, total) == Percent(c.corners, total) + Percent(c.fouls, total) + Percent(c.offsides, total)
  {
    var total := Total(c);
    PercentAdd(c.corners, c.fouls, total);
    PercentAdd(c.corners + c.fouls, c.offsides, total);
    PercentAdd(c.corners + c.fouls + c.offsides, c.others, total);
  }


  function OriginSummary(t: Table): Result<Breakdown>
  {
    var c :- Tally(t, |t.rows|);
    Ok(Summarize(c))
  }

  lemma {:induction false} TallyStopsAtError(t: Table, i: nat, n: nat, e: Error)
    requires i <= n <= |t.rows| && Tally(t, i) == Err(e)
    ensures Tally(t, n) == Err(e)
    decreases n - i
  {
    if i < n {
      TallyAfterError(t, i + 1, e);
      TallyStopsAtError(t, i + 1, n, e);
    }
  }

  /** Once the walk has failed, the next row does not change the outcome. */
  lemma TallyAfterError(t: Table, n: nat, e: Error)
    requires 0 < n <= |t.rows| && Tally(t, n - 1) == Err(e)
    ensures Tally(t, n) == Err(e)
  {
  }

  lemma TallyStep(t: Table, i: nat, c: Counts, o: Result<Origin>)
    requires i < |t.rows| && Tally(t, i) == Ok(c) && Classify(t, i) == o
    ensures o.Ok? ==> Tally(t, i + 1) == Ok(Add(c, o.value))
    ensures o.Err? ==> Tally(t, i + 1) == Err(o.error)
  {
  }

  /** The test of the loop body on row `i`: the walk goes one row further
      with its outcome. */
  method NextOrigin(t: Table, i: nat, ghost c: Counts) returns (origin: Result<Origin>)
    requires i < |t.rows| && Tally(t, i) == Ok(c)
    ensures origin.Ok? ==> Tally(t, i + 1) == Ok(Add(c, origin.value))
    ensures origin.Err? ==> Tally(t, i + 1) == Err(origin.error)
  {
    origin := Classify(t, i);
    TallyStep(t, i, c, origin);
  }

  /** `origin_of_headed_goals`: four counters over the rows, then the shares. */
  method OriginOfHeadedGoals(t: Table) returns (r: Result<Breakdown>)
    ensures r == OriginSummary(t)
  {
    var corners, fouls, offsides, others := 0, 0, 0, 0;
    for i := 0 to |t.rows|
      invariant Tally(t, i) == Ok(Counts(corners, fouls, offsides, others))
    {
      var origin := NextOrigin(t, i, Counts(corners, fouls, offsides, others));
      if origin.Err? {
        TallyStopsAtError(t, i + 1, |t.rows|, origin.error);
        return Err(origin.error);
      }
      ghost var next := Add(Counts(corners, fouls, offsides, others), origin.value);
      match origin.value {
        case Corner => corners := corners + 1;
        case Foul => fouls := fouls + 1;
        case Offside => offsides := offsides + 1;
        case Other => others := others + 1;
        case Uncounted =>
      }
      assert Counts(corners, fouls, offsides, others) == next;
    }
    return Ok(Summarize(Counts(corners, fouls, offsides, others)));
  }

  /** The number of rows among the first `n` labels that `is_headed_goal` accepts. */
  function HeadedGoals(t: Table, n: nat): nat
  {
    if n == 0 then 0
    else HeadedGoals(t, n - 1) + (if IsHeadedGoal(t, n - 1) == Ok(true) then 1 else 0)
  }

  /** Each row raises at most one counter, and only a headed goal raises one. */
  lemma {:induction false} TallyAtMostHeadedGoals(t: Table, n: nat)
    requires n <= |t.rows| && Tally(t, n).Ok?
    ensures Total(Tally(t, n).value) <= HeadedGoals(t, n)
  {
    TallyExcessFrom(t, 0, n);
  }

  /** From any row on, the goals counted grow no faster than the headed goals. */
  lemma {:induction false} TallyExcessFrom(t: Table, i: nat, n: nat)
    requires i <= n <= |t.rows| && Tally(t, n).Ok?
    ensures Tally(t, i).Ok?
    ensures Total(Tally(t, n).value) - HeadedGoals(t, n) <= Total(Tally(t, i).value) - HeadedGoals(t, i)
    decreases n - i
  {
    if i < n {
      TallyExcessFrom(t, i + 1, n);
      TallyTotalStep(t, i);
    }
  }

  /** One row raises the total by at most one, and only when it is a headed goal. */
  lemma TallyTotalStep(t: Table, i: nat)
    requires i < |t.rows| && Tally(t, i + 1).Ok?
    ensures Tally(t, i).Ok?
    ensures Total(Tally(t, i + 1).value) - HeadedGoals(t, i + 1) <= Total(Tally(t, i).value) - HeadedGoals(t, i)
  {
  }

  /** A table without headed goals yields the sentinel. */
  lemma NoHeadedGoalsSentinel(t: Table)
    requires forall i :: 0 <= i < |t.rows| ==> IsHeadedGoal(t, i) != Ok(true)
    requires OriginSummary(t).Ok?
    ensures OriginSummary(t) == Ok(NoHeadedGoals)
  {
    NoHeadedGoalsCounted(t, |t.rows|);
    TallyAtMostHeadedGoals(t, |t.rows|);
  }

  lemma {:induction false} NoHeadedGoalsCounted(t: Table, n: nat)
    requires n <= |t.rows|
    requires forall i :: 0 <= i < n ==> IsHeadedGoal(t, i) != Ok(true)
    ensures HeadedGoals(t, n) == 0
  {
    if n > 0 {
      NoHeadedGoalsCounted(t, n - 1);
    }
  }

  /** The counting rule read off the rows of a table labelled 0..N-1: a headed
      goal at row 0 is "other"; any other headed goal is counted by the event
      type of the row before it when that row is from the same match and at
      most one minute earlier (or later); everything else is not counted. */
  function RowOrigin(rows: seq<Row>, i: nat): Origin
    requires i < |rows|
  {
    if !HeadedRow(rows[i]) then Uncounted
    else if i == 0 then Other
    else
      var now := Get(rows[i], TimeColumn);
      var before := Get(rows[i - 1], TimeColumn);
      if Same(Get(rows[i], MatchColumn), Get(rows[i - 1], MatchColumn))
         && now.Num? && before.Num? && now.x <= before.x + 1.0
      then Bucket(Get(rows[i - 1], EventTypeColumn))
      else Uncounted
  }

  /** No `time` cell is a string, so time differences never raise. */
  predicate NoTextTimes(t: Table)
  {
    forall i :: 0 <= i < |t.rows| ==> !Get(t.rows[i], TimeColumn).Str?
  }

  const EventColumns: seq<ColumnName> := [MatchColumn, TimeColumn, EventTypeColumn, IsGoalColumn, BodypartColumn]

  /** The loop body agrees with the row rule on a well-formed event log. */
  lemma ClassifyOnDense(t: Table, i: nat)
    requires Dense(t.rows) && HasColumns(t, EventColumns)
    requires NoTextTimes(t)
    requires i < |t.rows|
    ensures Classify(t, i) == Ok(RowOrigin(t.rows, i))
  {
    IsHeadedGoalOnDense(t, i);
    DenseLoc(t, i, MatchColumn);
    DenseLoc(t, i, TimeColumn);
    if i > 0 {
      DenseLoc(t, i - 1, MatchColumn);
      DenseLoc(t, i - 1, TimeColumn);
      DenseLoc(t, i - 1, EventTypeColumn);
    }
  }

  /** The counters after a sequence of origins, one counter up per counted
      origin. */
  function TallyOf(os: seq<Origin>): Counts
  {
    if os == [] then Counts(0, 0, 0, 0) else Add(TallyOf(os[..|os| - 1]), os[|os| - 1])
  }

  /** One more origin raises its counter. */
  lemma TallyOfPrefix(os: seq<Origin>, k: nat)
    requires k < |os|
    ensures TallyOf(os[..k + 1]) == Add(TallyOf(os[..k]), os[k])
  {
    assert os[..k + 1][..k] == os[..k];
  }

  /** The counters over the first `n` rows, by the row rule. */
  function RowTally(rows: seq<Row>, n: nat): Counts
    requires n <= |rows|
  {
    TallyOf(RowOrigins(rows)[..n])
  }

  /** The row rule applied to every row. */
  function RowOrigins(rows: seq<Row>): (os: seq<Origin>)
    ensures |os| == |rows|
    ensures forall i :: 0 <= i < |rows| ==> os[i] == RowOrigin(rows, i)
  {
    seq(|rows|, i requires 0 <= i < |rows| => RowOrigin(rows, i))
  }

  /** A walk whose every step classifies its row as `os` says tallies `os`. */
  lemma {:induction false} TallyByOrigins(t: Table, os: seq<Origin>, n: nat)
    requires n <= |t.rows| && n <= |os|
    requires forall i :: 0 <= i < n ==> Classify(t, i) == Ok(os[i])
    ensures Tally(t, n) == Ok(TallyOf(os[..n]))
  {
    if n > 0 {
      TallyByOrigins(t, os, n - 1);
      TallyOfPrefix(os, n - 1);
      TallyStep(t, n - 1, TallyOf(os[..n - 1]), Ok(os[n - 1]));
    }
  }

  lemma TallyByRows(t: Table, n: nat)
    requires n <= |t.rows|
    requires forall i :: 0 <= i < n ==> Classify(t, i) == Ok(RowOrigin(t.rows, i))
    ensures Tally(t, n) == Ok(RowTally(t.rows, n))
  {
    TallyByOrigins(t, RowOrigins(t.rows), n);
  }

  /** On a well-formed event log the walk never fails and counts by the row rule. */
  lemma TallyOnDense(t: Table)
    requires Dense(t.rows) && HasColumns(t, EventColumns)
    requires NoTextTimes(t)
    ensures Tally(t, |t.rows|) == Ok(RowTally(t.rows, |t.rows|))
  {
    forall i | 0 <= i < |t.rows|
      ensures Classify(t, i) == Ok(RowOrigin(t.rows, i))
    {
      ClassifyOnDense(t, i);
    }
    TallyByRows(t, |t.rows|);
  }
}
