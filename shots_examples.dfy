/// The samples used by the unit tests of the shot analysis, and what the
/// model computes on them.
module ShotsExamples {
  import opened DataFrame
  import opened Utils
  import opened Shots

  function GoalRow(i: nat, situation: Value): Row
  {
    Row(Label(i), map[SituationColumn := situation])
  }

  lemma CountSnoc(vs: seq<Value>, x: Value, v: Value)
    ensures Count(vs + [x], v) == Count(vs, v) + (if Same(x, v) then 1 else 0)
  {
    assert (vs + [x])[..|vs|] == vs;
  }

  /** Five goals: three from inside the box, two from outside. */
  predicate IsGoalSample(t: Table)
  {
    t.columns == [SituationColumn] && |t.rows| == 5
    && t.rows[0] == GoalRow(0, Inside)
    && t.rows[1] == GoalRow(1, Outside)
    && t.rows[2] == GoalRow(2, Inside)
    && t.rows[3] == GoalRow(3, Outside)
    && t.rows[4] == GoalRow(4, Inside)
  }

  /** Three goals of five from inside the box give 60 and 40. */
  lemma GoalSampleShares(t: Table)
    requires IsGoalSample(t)
    ensures CalculateGoals(t) == Ok(GoalShares(60.0, 40.0))
  {
    SampleColumn(t);
    SampleCounts();
    assert InsideCount(t) == 3 && OutsideCount(t) == 2;
    assert Percent(3, 5) == 60.0;
    assert Percent(2, 5) == 40.0;
  }

  const SampleSituations: seq<Value> := [Inside, Outside, Inside, Outside, Inside]

  lemma SampleColumn(t: Table)
    requires IsGoalSample(t)
    ensures Column(t, SituationColumn) == SampleSituations
  {
    var vs := Column(t, SituationColumn);
    assert vs[0] == Inside && vs[1] == Outside && vs[2] == Inside && vs[3] == Outside && vs[4] == Inside;
  }

  lemma SampleCounts()
    ensures Count(SampleSituations, Inside) == 3 && Count(SampleSituations, Outside) == 2
  {
    assert SampleSituations == [Inside] + [Outside] + [Inside] + [Outside] + [Inside];
    CountSnoc([], Inside, Inside);
    CountSnoc([Inside], Outside, Inside);
    CountSnoc([Inside] + [Outside], Inside, Inside);
    CountSnoc([Inside] + [Outside] + [Inside], Outside, Inside);
    CountSnoc([Inside] + [Outside] + [Inside] + [Outside], Inside, Inside);
    CountSnoc([], Inside, Outside);
    CountSnoc([Inside], Outside, Outside);
    CountSnoc([Inside] + [Outside], Inside, Outside);
    CountSnoc([Inside] + [Outside] + [Inside], Outside, Outside);
    CountSnoc([Inside] + [Outside] + [Inside] + [Outside], Inside, Outside);
  }
}
