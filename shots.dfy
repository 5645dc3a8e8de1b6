/// Shots inside and outside the box: where goals are scored from, and how
/// the outcomes of shots compare between the two situations.
module Shots {
  import opened DataFrame
  import opened Utils

  const SituationColumn: ColumnName := "situation"

  const Inside := Str("inside")
  const Outside := Str("outside")

  const OnTarget := Str("No alvo")
  const OffTarget := Str("Fora")
  const Blocked := Str("Bloqueado")
  const HitBar := Str("Trave")
  const Goal := Str("Gol")
  const Saved := Str("Defendido")

  // ---------------------------------------------------------------------------
  // Location and outcome codes (shots_main)

  /** The location codes of shots taken inside the box. */
  const InsideLocations: seq<real> := [3.0, 9.0, 10.0, 11.0, 12.0, 13.0, 14.0]

  /** The location codes left out of the shot analysis. */
  const ExcludedLocations: seq<Value> := [Num(1.0), Num(2.0), Num(7.0), Num(8.0), Num(19.0)]

  /** The first step of `shots_main`: with a `location` column, the rows
      that stay are exactly those whose location is none of the excluded
      codes (a NaN location stays), each one a row of the input. */
  lemma ExcludedLocationsRemoved(t: Table)
    requires LocationColumn in t.columns
    ensures RemoveLinesByCondition(t, LocationColumn, ExcludedLocations).Ok?
    ensures var kept := RemoveLinesByCondition(t, LocationColumn, ExcludedLocations).value.rows;
      (forall x :: x in kept ==> x in t.rows && Get(x, LocationColumn) !in ExcludedLocations)
      && (forall k :: 0 <= k < |t.rows| && Get(t.rows[k], LocationColumn) !in ExcludedLocations ==> t.rows[k] in kept)
  {
    var test := NoneOf(LocationColumn, ExcludedLocations);
    var ps := Passing(t.rows, test, 0);
    var kept := RemoveLinesByCondition(t, LocationColumn, ExcludedLocations).value.rows;
    assert kept == Select(t.rows, ps);
    forall x | x in kept
      ensures x in t.rows && Get(x, LocationColumn) !in ExcludedLocations
    {
      var j :| 0 <= j < |kept| && kept[j] == x;
      assert Passes(t.rows[ps[j]], test);
    }
    forall k | 0 <= k < |t.rows| && Get(t.rows[k], LocationColumn) !in ExcludedLocations
      ensures t.rows[k] in kept
    {
      assert Passes(t.rows[k], test);
      PassingComplete(t.rows, test, 0, k);
      var j :| 0 <= j < |ps| && ps[j] == k;
      assert kept[j] == t.rows[k];
    }
  }

  /** `'inside' if x in locations_inside else 'outside'`: a NaN location is
      in no list, so it is outside. */
  function Situation(location: Value): (s: Value)
    ensures s == Inside || s == Outside
    ensures s == Inside <==> exists k :: 0 <= k < |InsideLocations| && Same(location, Num(InsideLocations[k]))
  {
    if location.Num? && location.x in InsideLocations then Inside else Outside
  }

  /** The `situation` column for every row. */
  function Situations(t: Table): (vs: seq<Value>)
    ensures |vs| == |t.rows|
    ensures forall i :: 0 <= i < |vs| ==> vs[i] == Situation(Get(t.rows[i], LocationColumn))
  {
    seq(|t.rows|, i requires 0 <= i < |t.rows| => Situation(Get(t.rows[i], LocationColumn)))
  }

  /** The shot outcome codes and their names; other codes become NaN. */
  const ShotsMapping: map<Value, Value> :=
    map[Num(1.0) := OnTarget, Num(2.0) := OffTarget, Num(3.0) := Blocked, Num(4.0) := HitBar]

  /** Only code 1 is named "on target"; no code is named a goal or a save. */
  lemma MappedOutcomes(code: Value)
    ensures Remap(code, ShotsMapping) == OnTarget <==> code == Num(1.0)
    ensures Remap(code, ShotsMapping) != Goal && Remap(code, ShotsMapping) != Saved
    ensures code !in ShotsMapping ==> Remap(code, ShotsMapping) == Null
  {
  }

  // ---------------------------------------------------------------------------
  // adjust_shot_outcome_df

  /** A shot on target becomes a goal when it scored (`is_goal == 1`) and a
      save when it did not (`is_goal == 0`); anything else keeps its outcome. */
  function Adjusted(outcome: Value, isGoal: Value): (r: Value)
    ensures r == Goal <==> (outcome == OnTarget && Same(isGoal, Num(1.0))) || outcome == Goal
    ensures r == Saved <==> (outcome == OnTarget && Same(isGoal, Num(0.0))) || outcome == Saved
    ensures r != outcome ==> outcome == OnTarget
  {
    if Same(outcome, OnTarget) && Same(isGoal, Num(1.0)) then Goal
    else if Same(outcome, OnTarget) && Same(isGoal, Num(0.0)) then Saved
    else outcome
  }

  /** The new `shot_outcome` column. */
  function AdjustedOutcomes(t: Table): (vs: seq<Value>)
    ensures |vs| == |t.rows|
    ensures forall i :: 0 <= i < |vs| ==>
              vs[i] == Adjusted(Get(t.rows[i], ShotOutcomeColumn), Get(t.rows[i], IsGoalColumn))
  {
    seq(|t.rows|, i requires 0 <= i < |t.rows| =>
      Adjusted(Get(t.rows[i], ShotOutcomeColumn), Get(t.rows[i], IsGoalColumn)))
  }

  /** adjust_shot_outcome_df: a KeyError, and no change, without
      `shot_outcome` or `is_goal`; otherwise `shot_outcome` is rewritten in
      place row by row and nothing else changes. */
  method AdjustShotOutcome(df: Frame) returns (r: Result<()>)
    modifies df
    ensures r.Err? <==> !HasColumns(old(df.Snapshot()), [ShotOutcomeColumn, IsGoalColumn])
    ensures r.Err? ==> r.error == KeyError && df.Snapshot() == old(df.Snapshot())
    ensures r.Ok? ==> df.Snapshot() == WithColumn(old(df.Snapshot()), ShotOutcomeColumn, AdjustedOutcomes(old(df.Snapshot())))
    ensures df.columns == old(df.columns) && |df.rows| == |old(df.rows)|
  {
    if ShotOutcomeColumn !in df.columns || IsGoalColumn !in df.columns {
      return Err(KeyError);
    }
    SetColumn(df, ShotOutcomeColumn, AdjustedOutcomes(df.Snapshot()));
    return Ok(());
  }

  /** After naming the codes and adjusting, a goal or a save comes only from
      code 1, and which one it is depends on `is_goal`. */
  lemma GoalsAndSavesFromCodeOne(code: Value, isGoal: Value)
    ensures Adjusted(Remap(code, ShotsMapping), isGoal) == Goal <==> code == Num(1.0) && Same(isGoal, Num(1.0))
    ensures Adjusted(Remap(code, ShotsMapping), isGoal) == Saved <==> code == Num(1.0) && Same(isGoal, Num(0.0))
  {
    MappedOutcomes(code);
  }

  // ---------------------------------------------------------------------------
  // calculate_goals

  /** The rows whose column `c` equals `v` are as many as the cells equal to `v`. */
  lemma {:induction false} FilterCount(rows: seq<Row>, c: ColumnName, v: Value)
    ensures |FilterRows(rows, AllEqual(map[c := v]))| == Count(Cells(rows, c), v)
  {
    if rows != [] {
      FilterCount(rows[1..], c, v);
      assert Cells(rows, c) == [Get(rows[0], c)] + Cells(rows[1..], c);
      CountAppend([Get(rows[0], c)], Cells(rows[1..], c), v);
      assert [Get(rows[0], c)][..0] == [];
      assert Passes(rows[0], AllEqual(map[c := v])) <==> Same(Get(rows[0], c), v) by {
        assert c in map[c := v];
      }
    }
  }

  /** The two shares of goals: from inside the box and from outside. */
  datatype GoalShares = GoalShares(inside: real, outside: real)

  function InsideCount(t: Table): nat { Count(Column(t, SituationColumn), Inside) }
  function OutsideCount(t: Table): nat { Count(Column(t, SituationColumn), Outside) }

  lemma {:induction false} TwoCountsAtMost(vs: seq<Value>, a: Value, b: Value)
    requires a != b
    ensures Count(vs, a) + Count(vs, b) <= |vs|
  {
    if vs != [] {
      TwoCountsAtMost(vs[..|vs| - 1], a, b);
    }
  }

  lemma {:induction false} TwoCountsAll(vs: seq<Value>, a: Value, b: Value)
    requires a != b && !a.Null? && !b.Null?
    requires forall i :: 0 <= i < |vs| ==> vs[i] == a || vs[i] == b
    ensures Count(vs, a) + Count(vs, b) == |vs|
  {
    if vs != [] {
      TwoCountsAll(vs[..|vs| - 1], a, b);
    }
  }

  /** calculate_goals: a KeyError without `situation`; a ZeroDivisionError
      for a table without rows (the counts are Python integers); otherwise
      the goals from inside and from outside, each over all the goals. */
  function CalculateGoals(goals: Table): (r: Result<GoalShares>)
    ensures r.Err? <==> SituationColumn !in goals.columns || |goals.rows| == 0
    ensures SituationColumn !in goals.columns ==> r == Err(KeyError)
    ensures SituationColumn in goals.columns && |goals.rows| == 0 ==> r == Err(ZeroDivisionError)
    ensures r.Ok? ==> (InsideCount(goals) + OutsideCount(goals) <= |goals.rows|
                       && r.value.inside == Percent(InsideCount(goals), |goals.rows|)
                       && r.value.outside == Percent(OutsideCount(goals), |goals.rows|))
  {
    if SituationColumn !in goals.columns then Err(KeyError)
    else
      var total := |goals.rows|;
      var inside := |FilterDf(goals, map[SituationColumn := Inside]).value.rows|;
      var outside := |FilterDf(goals, map[SituationColumn := Outside]).value.rows|;
      if total == 0 then Err(ZeroDivisionError)
      else
        FilterCount(goals.rows, SituationColumn, Inside);
        FilterCount(goals.rows, SituationColumn, Outside);
        TwoCountsAtMost(Column(goals, SituationColumn), Inside, Outside);
        Ok(GoalShares(Percent(inside, total), Percent(outside, total)))
  }

  /** When every goal is inside or outside, as shots_main labels them, the
      two shares add up to 100; in any case they add up to at most 100. */
  lemma GoalSharesComplement(goals: Table)
    requires CalculateGoals(goals).Ok?
    ensures CalculateGoals(goals).value.inside + CalculateGoals(goals).value.outside <= 100.0
    ensures (forall i :: 0 <= i < |goals.rows| ==> Get(goals.rows[i], SituationColumn) in {Inside, Outside}) ==>
              CalculateGoals(goals).value.inside + CalculateGoals(goals).value.outside == 100.0
  {
    var n := |goals.rows|;
    PercentAdd(InsideCount(goals), OutsideCount(goals), n);
    if forall i :: 0 <= i < n ==> Get(goals.rows[i], SituationColumn) in {Inside, Outside} {
      TwoCountsAll(Column(goals, SituationColumn), Inside, Outside);
    }
  }

  // ---------------------------------------------------------------------------
  // shot_outcome_count

  /** One line of `value_counts()`: an outcome and how many shots had it. */
  datatype Tally = Tally(outcome: Value, count: nat)

  /** The values of `vs` that are not NaN (`value_counts` drops NaN). */
  function NonNull(vs: seq<Value>): (r: seq<Value>)
    ensures forall v :: v in r <==> v in vs && !v.Null?
  {
    if vs == [] then []
    else NonNull(vs[..|vs| - 1]) + (if vs[|vs| - 1].Null? then [] else [vs[|vs| - 1]])
  }

  /** Every value of `vs` with its count, in order of first appearance. */
  function Counted(vs: seq<Value>): (ts: seq<Tally>)
    ensures |ts| == |Distinct(NonNull(vs))|
    ensures forall k :: 0 <= k < |ts| ==> ts[k] == Tally(Distinct(NonNull(vs))[k], Count(vs, Distinct(NonNull(vs))[k]))
  {
    var ds := Distinct(NonNull(vs));
    seq(|ds|, k requires 0 <= k < |ds| => Tally(ds[k], Count(vs, ds[k])))
  }

  /** Larger counts first. */
  predicate ByCount(ts: seq<Tally>)
  {
    forall i, j :: 0 <= i < j < |ts| ==> ts[i].count >= ts[j].count
  }

  predicate DistinctTallies(ts: seq<Tally>)
  {
    forall i, j :: 0 <= i < j < |ts| ==> ts[i] != ts[j]
  }

  /** `x` placed after every tally with at least its count. */
  function Insert(x: Tally, ts: seq<Tally>): (r: seq<Tally>)
    ensures multiset(r) == multiset(ts) + multiset{x}
  {
    if ts == [] then [x]
    else if ts[0].count >= x.count then
      assert ts == [ts[0]] + ts[1..];
      [ts[0]] + Insert(x, ts[1..])
    else
      [x] + ts
  }

  lemma {:induction false} InsertByCount(x: Tally, ts: seq<Tally>)
    requires ByCount(ts)
    ensures ByCount(Insert(x, ts))
  {
    if ts != [] && ts[0].count >= x.count {
      InsertByCount(x, ts[1..]);
      var rest := Insert(x, ts[1..]);
      forall y | y in rest
        ensures ts[0].count >= y.count
      {
        assert y in multiset(rest);
        if y != x {
          assert y in ts[1..];
        }
      }
    }
  }

  lemma {:induction false} InsertDistinct(x: Tally, ts: seq<Tally>)
    requires DistinctTallies(ts) && x !in ts
    ensures DistinctTallies(Insert(x, ts))
  {
    if ts != [] && ts[0].count >= x.count {
      InsertDistinct(x, ts[1..]);
      var rest := Insert(x, ts[1..]);
      assert ts[0] !in rest by {
        assert ts[0] !in ts[1..];
        assert ts[0] !in multiset(ts[1..]) + multiset{x};
      }
      assert forall i :: 0 <= i < |rest| ==> rest[i] != ts[0] by {
        forall i | 0 <= i < |rest| ensures rest[i] != ts[0] {
          assert rest[i] in rest;
        }
      }
    }
  }

  /** The tallies ordered by count, larger first, ties kept in their order
      (a stable sort). */
  function SortByCount(ts: seq<Tally>): (r: seq<Tally>)
    ensures multiset(r) == multiset(ts)
  {
    if ts == [] then []
    else
      var init := ts[..|ts| - 1];
      assert ts == init + [ts[|ts| - 1]];
      Insert(ts[|ts| - 1], SortByCount(init))
  }

  /** The sort orders by count and, on distinct tallies, keeps them distinct. */
  lemma {:induction false} SortByCountSpec(ts: seq<Tally>)
    ensures ByCount(SortByCount(ts))
    ensures DistinctTallies(ts) ==> DistinctTallies(SortByCount(ts))
  {
    if ts != [] {
      var init := ts[..|ts| - 1];
      var x := ts[|ts| - 1];
      SortByCountSpec(init);
      InsertByCount(x, SortByCount(init));
      if DistinctTallies(ts) {
        assert x !in init;
        assert x !in SortByCount(init) by {
          assert x !in multiset(init);
        }
        InsertDistinct(x, SortByCount(init));
      }
    }
  }

  /** `Series.value_counts()`. */
  function ValueCounts(vs: seq<Value>): seq<Tally>
  {
    SortByCount(Counted(vs))
  }

  lemma {:induction false} CountPositive(vs: seq<Value>, v: Value)
    requires v in vs && !v.Null?
    ensures Count(vs, v) >= 1
  {
    if vs[|vs| - 1] != v {
      CountPositive(vs[..|vs| - 1], v);
    }
  }

  /** value_counts lists each non-NaN value once with its count, larger
      counts first. */
  lemma ValueCountsSpec(vs: seq<Value>)
    ensures var r := ValueCounts(vs);
      ByCount(r)
      && (forall t :: t in r ==> !t.outcome.Null? && t.outcome in vs && t.count == Count(vs, t.outcome) && t.count >= 1)
      && (forall v :: v in vs && !v.Null? ==> exists t :: t in r && t.outcome == v)
      && (forall i, j :: 0 <= i < j < |r| ==> r[i].outcome != r[j].outcome)
  {
    var ds := Distinct(NonNull(vs));
    var cs := Counted(vs);
    var r := ValueCounts(vs);
    assert DistinctTallies(cs);
    SortByCountSpec(cs);
    assert forall t :: t in r <==> t in cs by {
      assert forall t :: t in r <==> t in multiset(r);
    }
    forall t | t in r
      ensures !t.outcome.Null? && t.outcome in vs && t.count == Count(vs, t.outcome) && t.count >= 1
    {
      var k :| 0 <= k < |cs| && cs[k] == t;
      assert ds[k] in ds;
      CountPositive(vs, t.outcome);
    }
    forall v | v in vs && !v.Null?
      ensures exists t :: t in r && t.outcome == v
    {
      assert v in ds;
      var k :| 0 <= k < |ds| && ds[k] == v;
      assert cs[k] in cs;
    }
    forall i, j | 0 <= i < j < |r|
      ensures r[i].outcome != r[j].outcome
    {
      assert r[i] in r && r[j] in r;
    }
  }

  /** One line of the merged table: an outcome with its count inside the box
      and its count outside. */
  datatype Merged = Merged(outcome: Value, countIn: nat, countOut: nat)

  /** The count of `v` in `ts`, if it is there. */
  function Lookup(ts: seq<Tally>, v: Value): (r: Option<nat>)
    ensures r.Some? <==> exists t :: t in ts && t.outcome == v
    ensures r.Some? ==> Tally(v, r.value) in ts
  {
    if ts == [] then None
    else if ts[0].outcome == v then Some(ts[0].count)
    else
      assert forall t :: t in ts <==> t == ts[0] || t in ts[1..];
      Lookup(ts[1..], v)
  }

  /** `ins.merge(outs, on='shot_outcome')`: an inner join that keeps the
      order of `ins`. */
  function Merge(ins: seq<Tally>, outs: seq<Tally>): seq<Merged>
  {
    if ins == [] then []
    else
      match Lookup(outs, ins[0].outcome)
      case None => Merge(ins[1..], outs)
      case Some(n) => [Merged(ins[0].outcome, ins[0].count, n)] + Merge(ins[1..], outs)
  }

  /** Every merged line joins a tally inside with a tally outside. */
  lemma {:induction false} MergeJoins(ins: seq<Tally>, outs: seq<Tally>)
    ensures forall m :: m in Merge(ins, outs) ==> Tally(m.outcome, m.countIn) in ins && Tally(m.outcome, m.countOut) in outs
  {
    if ins != [] {
      MergeJoins(ins[1..], outs);
      assert forall t :: t in ins[1..] ==> t in ins;
    }
  }

  /** Every outcome on both sides is joined. */
  lemma {:induction false} MergeComplete(ins: seq<Tally>, outs: seq<Tally>, t: Tally)
    requires t in ins && exists u :: u in outs && u.outcome == t.outcome
    ensures exists m :: m in Merge(ins, outs) && m.outcome == t.outcome
  {
    if ins[0] != t {
      assert t in ins[1..];
      MergeComplete(ins[1..], outs, t);
      var m :| m in Merge(ins[1..], outs) && m.outcome == t.outcome;
      assert m in Merge(ins, outs);
    } else {
      var n := Lookup(outs, t.outcome).value;
      assert Merge(ins, outs)[0] == Merged(t.outcome, t.count, n);
    }
  }

  /** The join keeps the order of `ins`, and an outcome listed once there is
      listed once in the join. */
  lemma {:induction false} MergeOrder(ins: seq<Tally>, outs: seq<Tally>)
    requires ByCount(ins)
    requires forall i, j :: 0 <= i < j < |ins| ==> ins[i].outcome != ins[j].outcome
    ensures forall i, j :: 0 <= i < j < |Merge(ins, outs)| ==>
              Merge(ins, outs)[i].countIn >= Merge(ins, outs)[j].countIn
              && Merge(ins, outs)[i].outcome != Merge(ins, outs)[j].outcome
  {
    if ins != [] {
      var rest := Merge(ins[1..], outs);
      MergeOrder(ins[1..], outs);
      MergeJoins(ins[1..], outs);
      forall m | m in rest
        ensures ins[0].count >= m.countIn && ins[0].outcome != m.outcome
      {
        var k :| 0 <= k < |ins[1..]| && ins[1..][k] == Tally(m.outcome, m.countIn);
        assert ins[k + 1] == Tally(m.outcome, m.countIn);
      }
      if Lookup(outs, ins[0].outcome).Some? {
        var r := Merge(ins, outs);
        var n := Lookup(outs, ins[0].outcome).value;
        assert r == [Merged(ins[0].outcome, ins[0].count, n)] + rest;
        forall i, j | 0 <= i < j < |r|
          ensures r[i].countIn >= r[j].countIn && r[i].outcome != r[j].outcome
        {
          if i > 0 {
            assert r[i] == rest[i - 1] && r[j] == rest[j - 1];
            assert rest[i - 1].countIn >= rest[j - 1].countIn;
          } else {
            assert r[j] == rest[j - 1] && r[j] in rest;
            assert r[0].countIn == ins[0].count;
          }
        }
      } else {
        assert Merge(ins, outs) == rest;
      }
    }
  }

  const ResultadoColumn: ColumnName := "Resultado"
  const CountInColumn: ColumnName := "count_in"
  const CountOutColumn: ColumnName := "count_out"

  /** The merged lines as a table labelled 0..N-1. */
  function OutcomeTable(ms: seq<Merged>): (t: Table)
    ensures t.columns == [ResultadoColumn, CountInColumn, CountOutColumn]
    ensures |t.rows| == |ms| && Dense(t.rows)
    ensures forall k :: 0 <= k < |ms| ==>
              Get(t.rows[k], ResultadoColumn) == ms[k].outcome
              && Get(t.rows[k], CountInColumn) == Num(ms[k].countIn as real)
              && Get(t.rows[k], CountOutColumn) == Num(ms[k].countOut as real)
  {
    Table([ResultadoColumn, CountInColumn, CountOutColumn],
          seq(|ms|, k requires 0 <= k < |ms| =>
            Row(Label(k), map[ResultadoColumn := ms[k].outcome,
                              CountInColumn := Num(ms[k].countIn as real),
                              CountOutColumn := Num(ms[k].countOut as real)])))
  }

  /** The outcomes of the shots in one situation. */
  function OutcomesIn(t: Table, situation: Value): seq<Value>
  {
    Cells(FilterRows(t.rows, AllEqual(map[SituationColumn := situation])), ShotOutcomeColumn)
  }

  /** shot_outcome_count: a KeyError without `shot_outcome` or `situation`;
      otherwise the outcome counts inside the box, larger first, joined with
      the counts outside. */
  function ShotOutcomeCount(t: Table): (r: Result<Table>)
    ensures r.Err? <==> !HasColumns(t, [ShotOutcomeColumn, SituationColumn])
    ensures r.Err? ==> r.error == KeyError
    ensures r.Ok? ==> r.value == OutcomeTable(OutcomeLines(t))
  {
    if !HasColumns(t, [ShotOutcomeColumn, SituationColumn]) then Err(KeyError)
    else
      var inside := FilterDf(t, map[SituationColumn := Inside]).value;
      var outside := FilterDf(t, map[SituationColumn := Outside]).value;
      assert t.rows[0..] == t.rows;
      FilterRowsIsSelect(t.rows, AllEqual(map[SituationColumn := Inside]), 0);
      FilterRowsIsSelect(t.rows, AllEqual(map[SituationColumn := Outside]), 0);
      var ins := ValueCounts(Cells(inside.rows, ShotOutcomeColumn));
      var outs := ValueCounts(Cells(outside.rows, ShotOutcomeColumn));
      Ok(OutcomeTable(Merge(ins, outs)))
  }

  /** The merged lines of shot_outcome_count, before they become a table. */
  function OutcomeLines(t: Table): seq<Merged>
  {
    Merge(ValueCounts(OutcomesIn(t, Inside)), ValueCounts(OutcomesIn(t, Outside)))
  }

  /** Each counted outcome is an outcome of shots both inside and outside
      the box, with its count in each situation. */
  lemma ShotOutcomeCountLines(t: Table)
    ensures forall m :: m in OutcomeLines(t) ==>
              !m.outcome.Null? && m.outcome in OutcomesIn(t, Inside) && m.outcome in OutcomesIn(t, Outside)
              && m.countIn == Count(OutcomesIn(t, Inside), m.outcome) >= 1
              && m.countOut == Count(OutcomesIn(t, Outside), m.outcome) >= 1
  {
    ValueCountsSpec(OutcomesIn(t, Inside));
    ValueCountsSpec(OutcomesIn(t, Outside));
    MergeJoins(ValueCounts(OutcomesIn(t, Inside)), ValueCounts(OutcomesIn(t, Outside)));
  }

  /** No outcome is counted twice, and the counts inside never increase down
      the table. */
  lemma ShotOutcomeCountOrder(t: Table)
    ensures forall i, j :: 0 <= i < j < |OutcomeLines(t)| ==>
              OutcomeLines(t)[i].countIn >= OutcomeLines(t)[j].countIn
              && OutcomeLines(t)[i].outcome != OutcomeLines(t)[j].outcome
  {
    ValueCountsSpec(OutcomesIn(t, Inside));
    MergeOrder(ValueCounts(OutcomesIn(t, Inside)), ValueCounts(OutcomesIn(t, Outside)));
  }

  /** The join is inner and nothing more: every outcome found both inside and
      outside the box is counted. */
  lemma ShotOutcomeCountComplete(t: Table, o: Value)
    requires o in OutcomesIn(t, Inside) && o in OutcomesIn(t, Outside) && !o.Null?
    ensures exists m :: m in OutcomeLines(t) && m.outcome == o
  {
    var ins := ValueCounts(OutcomesIn(t, Inside));
    var outs := ValueCounts(OutcomesIn(t, Outside));
    ValueCountsSpec(OutcomesIn(t, Inside));
    ValueCountsSpec(OutcomesIn(t, Outside));
    var x :| x in ins && x.outcome == o;
    var y :| y in outs && y.outcome == o;
    MergeComplete(ins, outs, x);
  }

  // ---------------------------------------------------------------------------
  // perc_shot_outcome

  const PercInColumn: ColumnName := "Porcentagem_in"
  const PercOutColumn: ColumnName := "Porcentagem_out"

  /** `v / total * 100` for one cell; NaN stays NaN. */
  function ShareOf(v: Value, total: real): Value
    requires total != 0.0
  {
    if v.Num? then Num(v.x / total * 100.0) else v
  }

  /** `column / column.sum() * 100`: each number as a share of the column's
      total; a total of 0 (no rows, or only zero counts) gives NaN. */
  function ShareColumn(vs: seq<Value>): (r: seq<Value>)
    ensures |r| == |vs|
    ensures Sum(vs) != 0.0 ==> forall i :: 0 <= i < |vs| ==> r[i] == ShareOf(vs[i], Sum(vs))
  {
    var total := Sum(vs);
    seq(|vs|, i requires 0 <= i < |vs| => if total == 0.0 then Null else ShareOf(vs[i], total))
  }

  function Shares(vs: seq<Value>, total: real): (r: seq<Value>)
    requires total != 0.0
    ensures |r| == |vs|
    ensures forall i :: 0 <= i < |vs| ==> r[i] == ShareOf(vs[i], total)
  {
    seq(|vs|, i requires 0 <= i < |vs| => ShareOf(vs[i], total))
  }

  lemma SharesInit(vs: seq<Value>, total: real)
    requires total != 0.0 && vs != []
    ensures Shares(vs, total)[..|vs| - 1] == Shares(vs[..|vs| - 1], total)
  {
  }

  lemma ShareAdd(a: real, b: real, total: real)
    requires total != 0.0
    ensures a / total * 100.0 + b / total * 100.0 == (a + b) / total * 100.0
  {
  }

  lemma WholeShare(total: real)
    requires total != 0.0
    ensures total / total * 100.0 == 100.0
  {
    assert total / total == 1.0;
  }

  lemma {:induction false} SumShares(vs: seq<Value>, total: real)
    requires total != 0.0
    ensures Sum(Shares(vs, total)) == Sum(vs) / total * 100.0
  {
    if vs != [] {
      var init := vs[..|vs| - 1];
      var last := vs[|vs| - 1];
      SumShares(init, total);
      SharesInit(vs, total);
      ShareAdd(Sum(init), if last.Num? then last.x else 0.0, total);
    }
  }

  /** A column of numbers with a non-zero total becomes shares adding up to 100. */
  lemma ShareColumnSum(vs: seq<Value>)
    requires Sum(vs) != 0.0
    ensures Sum(ShareColumn(vs)) == 100.0
  {
    var total := Sum(vs);
    SumShares(vs, total);
    assert ShareColumn(vs) == Shares(vs, total);
    WholeShare(total);
  }

  /** The table perc_shot_outcome returns: the two share columns added, in
      order, and then the two count columns dropped. */
  function PercTable(counted: Table): Table
  {
    var withIn := WithColumn(counted, PercInColumn, ShareColumn(Column(counted, CountInColumn)));
    var withOut := WithColumn(withIn, PercOutColumn, ShareColumn(Column(withIn, CountOutColumn)));
    Project(withOut, [CountInColumn, CountOutColumn])
  }

  /** Both count columns are there to drop, and dropping them one after the
      other removes them. */
  lemma CountColumnsDropped(shares: Table)
    requires CountInColumn in shares.columns && CountOutColumn in shares.columns
    ensures var gone := [CountInColumn, CountOutColumn];
      HasColumns(shares, gone) && FirstRepeat(gone) == |gone|
      && DropEach(shares, gone[..FirstRepeat(gone)]) == Project(shares, gone)
  {
    var gone := [CountInColumn, CountOutColumn];
    assert gone[1] !in gone[..1];
    assert gone[..2] == gone;
    DropEachIsProject(shares, gone);
  }

  /** perc_shot_outcome: the counts of shot_outcome_count (and its KeyError),
      with each count column replaced, in place on the counted table, by its
      shares. */
  method PercShotOutcome(t: Table) returns (r: Result<Table>)
    ensures r.Err? <==> !HasColumns(t, [ShotOutcomeColumn, SituationColumn])
    ensures r.Err? ==> r.error == KeyError
    ensures r.Ok? ==> r.value == PercTable(ShotOutcomeCount(t).value)
  {
    var counted := ShotOutcomeCount(t);
    if counted.Err? {
      return Err(counted.error);
    }
    var attempts := new Frame(counted.value);
    SetColumn(attempts, PercInColumn, ShareColumn(Column(attempts.Snapshot(), CountInColumn)));
    SetColumn(attempts, PercOutColumn, ShareColumn(Column(attempts.Snapshot(), CountOutColumn)));
    ghost var shares := attempts.Snapshot();
    CountColumnsDropped(shares);
    var _ := RemoveColumns(attempts, [CountInColumn, CountOutColumn]);
    return Ok(attempts.Snapshot());
  }

  /** A non-empty column of counts of at least 1 has a positive total. */
  lemma {:induction false} SumOfCounts(vs: seq<Value>)
    requires forall i :: 0 <= i < |vs| ==> vs[i].Num? && vs[i].x >= 1.0
    ensures Sum(vs) >= |vs| as real
  {
    if vs != [] {
      SumOfCounts(vs[..|vs| - 1]);
    }
  }

  /** On a counted table, the shares replace the counts column for column. */
  lemma PercTableColumns(c: Table)
    requires c.columns == [ResultadoColumn, CountInColumn, CountOutColumn]
    ensures var p := PercTable(c);
      p.columns == [ResultadoColumn, PercInColumn, PercOutColumn]
      && |p.rows| == |c.rows|
      && Column(p, ResultadoColumn) == Column(c, ResultadoColumn)
      && Column(p, PercInColumn) == ShareColumn(Column(c, CountInColumn))
      && Column(p, PercOutColumn) == ShareColumn(Column(c, CountOutColumn))
  {
    var withIn := WithColumn(c, PercInColumn, ShareColumn(Column(c, CountInColumn)));
    WithColumnColumn(c, PercInColumn, ShareColumn(Column(c, CountInColumn)), CountOutColumn);
    var withOut := WithColumn(withIn, PercOutColumn, ShareColumn(Column(c, CountOutColumn)));
    var gone := [CountInColumn, CountOutColumn];
    assert withOut.columns == [ResultadoColumn, CountInColumn, CountOutColumn, PercInColumn, PercOutColumn];
    KeepCounts();
    WithColumnColumn(c, PercInColumn, ShareColumn(Column(c, CountInColumn)), ResultadoColumn);
    WithColumnColumn(withIn, PercOutColumn, ShareColumn(Column(c, CountOutColumn)), ResultadoColumn);
    ProjectColumn(withOut, gone, ResultadoColumn);
    WithColumnColumn(c, PercInColumn, ShareColumn(Column(c, CountInColumn)), PercInColumn);
    WithColumnColumn(withIn, PercOutColumn, ShareColumn(Column(c, CountOutColumn)), PercInColumn);
    ProjectColumn(withOut, gone, PercInColumn);
    WithColumnColumn(withIn, PercOutColumn, ShareColumn(Column(c, CountOutColumn)), PercOutColumn);
    ProjectColumn(withOut, gone, PercOutColumn);
  }

  lemma KeepCounts()
    ensures Keep([ResultadoColumn, CountInColumn, CountOutColumn, PercInColumn, PercOutColumn], [CountInColumn, CountOutColumn])
              == [ResultadoColumn, PercInColumn, PercOutColumn]
  {
    KeepMiddleTwo(ResultadoColumn, CountInColumn, CountOutColumn, PercInColumn, PercOutColumn);
  }

  /** Dropping the second and third of five names leaves the other three. */
  lemma KeepMiddleTwo(a: ColumnName, b: ColumnName, c: ColumnName, d: ColumnName, e: ColumnName)
    requires a !in [b, c] && d !in [b, c] && e !in [b, c]
    ensures Keep([a, b, c, d, e], [b, c]) == [a, d, e]
  {
    assert [a] + [b, c, d, e] == [a, b, c, d, e];
    KeepLastFour(b, c, d, e);
    KeepCons(a, [b, c, d, e], [b, c]);
  }

  lemma KeepLastFour(b: ColumnName, c: ColumnName, d: ColumnName, e: ColumnName)
    requires d !in [b, c] && e !in [b, c]
    ensures Keep([b, c, d, e], [b, c]) == [d, e]
  {
    assert [b] + [c, d, e] == [b, c, d, e];
    KeepLastThree(b, c, d, e);
    KeepCons(b, [c, d, e], [b, c]);
  }

  lemma KeepLastThree(b: ColumnName, c: ColumnName, d: ColumnName, e: ColumnName)
    requires d !in [b, c] && e !in [b, c]
    ensures Keep([c, d, e], [b, c]) == [d, e]
  {
    assert [c] + [d, e] == [c, d, e];
    KeepLastTwo(d, e, [b, c]);
    KeepCons(c, [d, e], [b, c]);
  }

  lemma KeepLastTwo(d: ColumnName, e: ColumnName, gone: seq<ColumnName>)
    requires d !in gone && e !in gone
    ensures Keep([d, e], gone) == [d, e]
  {
    KeepCons(e, [], gone);
    assert [e] + [] == [e];
    KeepCons(d, [e], gone);
    assert [d] + [e] == [d, e];
  }

  /** The count columns of shot_outcome_count hold counts of at least 1. */
  lemma CountColumns(t: Table)
    requires ShotOutcomeCount(t).Ok?
    ensures var c := ShotOutcomeCount(t).value;
      (forall i :: 0 <= i < |c.rows| ==> Column(c, CountInColumn)[i].Num? && Column(c, CountInColumn)[i].x >= 1.0)
      && (forall i :: 0 <= i < |c.rows| ==> Column(c, CountOutColumn)[i].Num? && Column(c, CountOutColumn)[i].x >= 1.0)
  {
    var ms := OutcomeLines(t);
    ShotOutcomeCountLines(t);
    assert forall i :: 0 <= i < |ms| ==> ms[i] in ms;
  }

  /** perc_shot_outcome's table has the outcome and the two share columns,
      and each share column adds up to 100 whenever an outcome was counted. */
  lemma PercShotOutcomeShares(t: Table)
    requires ShotOutcomeCount(t).Ok?
    ensures var p := PercTable(ShotOutcomeCount(t).value);
      p.columns == [ResultadoColumn, PercInColumn, PercOutColumn]
      && |p.rows| == |OutcomeLines(t)|
      && (|p.rows| > 0 ==> Sum(Column(p, PercInColumn)) == 100.0 && Sum(Column(p, PercOutColumn)) == 100.0)
  {
    var c := ShotOutcomeCount(t).value;
    CountColumns(t);
    ShareSums(c);
  }

  /** On a table of positive counts, both share columns add to 100. */
  lemma ShareSums(c: Table)
    requires c.columns == [ResultadoColumn, CountInColumn, CountOutColumn]
    requires forall i :: 0 <= i < |c.rows| ==> Column(c, CountInColumn)[i].Num? && Column(c, CountInColumn)[i].x >= 1.0
    requires forall i :: 0 <= i < |c.rows| ==> Column(c, CountOutColumn)[i].Num? && Column(c, CountOutColumn)[i].x >= 1.0
    ensures var p := PercTable(c);
      p.columns == [ResultadoColumn, PercInColumn, PercOutColumn]
      && |p.rows| == |c.rows|
      && (|c.rows| > 0 ==> Sum(Column(p, PercInColumn)) == 100.0 && Sum(Column(p, PercOutColumn)) == 100.0)
  {
    PercTableColumns(c);
    if |c.rows| > 0 {
      SumOfCounts(Column(c, CountInColumn));
      SumOfCounts(Column(c, CountOutColumn));
      ShareColumnSum(Column(c, CountInColumn));
      ShareColumnSum(Column(c, CountOutColumn));
    }
  }
}
