/// The event log used by the unit tests of the headed-goal analysis, and what
/// the model computes on it.
module HeadExamples {
  import opened DataFrame
  import opened Utils
  import opened Head

  function Event(i: nat, game: string, time: real, eventType: real, isGoal: real, bodypart: real): Row
  {
    Row(Label(i), map[MatchColumn := Str(game), TimeColumn := Num(time), EventTypeColumn := Num(eventType),
                      IsGoalColumn := Num(isGoal), BodypartColumn := Num(bodypart)])
  }

  lemma EventCells(i: nat, game: string, time: real, eventType: real, isGoal: real, bodypart: real)
    ensures var r := Event(i, game, time, eventType, isGoal, bodypart);
      Get(r, MatchColumn) == Str(game) && Get(r, TimeColumn) == Num(time)
      && Get(r, EventTypeColumn) == Num(eventType) && Get(r, IsGoalColumn) == Num(isGoal)
      && Get(r, BodypartColumn) == Num(bodypart)
  {
  }

  /** The unit tests' event log: headed goals at rows 0, 6 and 9. Row 0 is
      "other", row 6 follows a corner and row 9 a foul, each one minute
      earlier in the same match. */
  predicate IsEventLog(t: Table)
  {
    t.columns == EventColumns && |t.rows| == 10
    && t.rows[0] == Event(0, "match1", 10.0, 1.0, 1.0, 3.0)
    && t.rows[1] == Event(1, "match1", 11.0, 1.0, 1.0, 2.0)
    && t.rows[2] == Event(2, "match1", 30.0, 1.0, 0.0, 3.0)
    && t.rows[3] == Event(3, "match1", 35.0, 9.0, 0.0, 1.0)
    && t.rows[4] == Event(4, "match2", 5.0, 9.0, 0.0, 2.0)
    && t.rows[5] == Event(5, "match2", 11.0, 2.0, 0.0, 1.0)
    && t.rows[6] == Event(6, "match2", 12.0, 1.0, 1.0, 3.0)
    && t.rows[7] == Event(7, "match3", 20.0, 2.0, 0.0, 1.0)
    && t.rows[8] == Event(8, "match3", 27.0, 3.0, 0.0, 1.0)
    && t.rows[9] == Event(9, "match3", 28.0, 1.0, 1.0, 3.0)
  }

  lemma EventLogCells(t: Table)
    requires IsEventLog(t)
    ensures Dense(t.rows) && HasColumns(t, EventColumns) && NoTextTimes(t)
  {
    EventLogLabels(t);
    EventLogTimes(t);
  }

  lemma EventLogLabels(t: Table)
    requires IsEventLog(t)
    ensures Dense(t.rows)
  {
    forall i | 0 <= i < |t.rows|
      ensures t.rows[i].index == Label(i)
    {
    }
  }

  lemma EventLogTimes(t: Table)
    requires IsEventLog(t)
    ensures NoTextTimes(t)
  {
    EventTime(0, "match1", 10.0, 1.0, 1.0, 3.0);
    EventTime(1, "match1", 11.0, 1.0, 1.0, 2.0);
    EventTime(2, "match1", 30.0, 1.0, 0.0, 3.0);
    EventTime(3, "match1", 35.0, 9.0, 0.0, 1.0);
    EventTime(4, "match2", 5.0, 9.0, 0.0, 2.0);
    EventTime(5, "match2", 11.0, 2.0, 0.0, 1.0);
    EventTime(6, "match2", 12.0, 1.0, 1.0, 3.0);
    EventTime(7, "match3", 20.0, 2.0, 0.0, 1.0);
    EventTime(8, "match3", 27.0, 3.0, 0.0, 1.0);
    EventTime(9, "match3", 28.0, 1.0, 1.0, 3.0);
  }

  lemma EventTime(i: nat, game: string, time: real, eventType: real, isGoal: real, bodypart: real)
    ensures Get(Event(i, game, time, eventType, isGoal, bodypart), TimeColumn) == Num(time)
  {
  }

  /** Two events under the label 0, the first a headed goal: `.loc[0, ...]`
      selects both rows, so both tests raise a ValueError instead of reading
      the first row. */
  lemma RepeatedLabelExamples(t: Table)
    requires t.columns == EventColumns && |t.rows| == 2
    requires t.rows[0] == Event(0, "match1", 10.0, 1.0, 1.0, 3.0)
    requires t.rows[1] == Event(0, "match1", 11.0, 1.0, 0.0, 1.0)
    ensures IsHeadedGoal(t, 0) == Err(ValueError)
    ensures IsSameMatch(t, 0, 0) == Err(ValueError)
    ensures IsSameMatch(t, 0, 1) == Err(KeyError)
  {
    assert t.rows[0].index == Label(0) && t.rows[1].index == Label(0);
    assert t.rows[0].index != Label(1) && t.rows[1].index != Label(1);
  }

  lemma IsHeadedGoalExamples(t: Table)
    requires IsEventLog(t)
    ensures IsHeadedGoal(t, 6) == Ok(true)
    ensures IsHeadedGoal(t, 7) == Ok(false)
    ensures IsHeadedGoal(t, 10) == Err(KeyError)
  {
    EventLogCells(t);
    IsHeadedGoalOnDense(t, 6);
    IsHeadedGoalOnDense(t, 7);
    IsHeadedGoalOnDense(t, 10);
  }

  lemma IsSameMatchExamples(t: Table)
    requires IsEventLog(t)
    ensures IsSameMatch(t, 0, 2) == Ok(true)
    ensures IsSameMatch(t, 0, 5) == Ok(false)
    ensures IsSameMatch(t, 10, 2) == Err(KeyError)
    ensures IsSameMatch(t, 0, 10) == Err(KeyError)
  {
    EventLogCells(t);
    SameMatchOnLog(t);
    SameMatchPastLog(t);
  }

  lemma SameMatchOnLog(t: Table)
    requires IsEventLog(t) && Dense(t.rows)
    ensures IsSameMatch(t, 0, 2) == Ok(true)
    ensures IsSameMatch(t, 0, 5) == Ok(false)
  {
    DenseLoc(t, 0, MatchColumn);
    DenseLoc(t, 2, MatchColumn);
    DenseLoc(t, 5, MatchColumn);
  }

  lemma SameMatchPastLog(t: Table)
    requires IsEventLog(t) && Dense(t.rows)
    ensures IsSameMatch(t, 10, 2) == Err(KeyError)
    ensures IsSameMatch(t, 0, 10) == Err(KeyError)
  {
    DenseLoc(t, 10, MatchColumn);
  }

  /** One corner, one foul and one "other": a third each, two thirds from set
      pieces. */
  lemma OriginExample(t: Table)
    requires IsEventLog(t)
    ensures OriginSummary(t) == Ok(Shares(100.0 / 3.0, 100.0 / 3.0, 0.0, 200.0 / 3.0, 100.0 / 3.0))
  {
    EventLogCounts(t);
    SummarizeLog();
  }

  lemma EventLogCounts(t: Table)
    requires IsEventLog(t)
    ensures Tally(t, |t.rows|) == Ok(Counts(1, 1, 0, 1))
  {
    EventLogCells(t);
    TallyOnDense(t);
    EventLogTally(t);
  }

  lemma SummarizeLog()
    ensures Summarize(Counts(1, 1, 0, 1)) == Shares(100.0 / 3.0, 100.0 / 3.0, 0.0, 200.0 / 3.0, 100.0 / 3.0)
  {
  }

  /** Rows that are not headed goals count for nothing. */
  lemma EventLogUncounted(t: Table)
    requires IsEventLog(t)
    ensures RowOrigin(t.rows, 1) == Uncounted
    ensures RowOrigin(t.rows, 2) == Uncounted
    ensures RowOrigin(t.rows, 3) == Uncounted
    ensures RowOrigin(t.rows, 4) == Uncounted
    ensures RowOrigin(t.rows, 5) == Uncounted
    ensures RowOrigin(t.rows, 7) == Uncounted
    ensures RowOrigin(t.rows, 8) == Uncounted
  {
    var rows := t.rows;
    assert RowOrigin(rows, 1) == Uncounted by {
      EventCells(1, "match1", 11.0, 1.0, 1.0, 2.0);
      EventCells(0, "match1", 10.0, 1.0, 1.0, 3.0);
    }
    assert RowOrigin(rows, 2) == Uncounted by {
      EventCells(2, "match1", 30.0, 1.0, 0.0, 3.0);
      EventCells(1, "match1", 11.0, 1.0, 1.0, 2.0);
    }
    assert RowOrigin(rows, 3) == Uncounted by {
      EventCells(3, "match1", 35.0, 9.0, 0.0, 1.0);
      EventCells(2, "match1", 30.0, 1.0, 0.0, 3.0);
    }
    assert RowOrigin(rows, 4) == Uncounted by {
      EventCells(4, "match2", 5.0, 9.0, 0.0, 2.0);
      EventCells(3, "match1", 35.0, 9.0, 0.0, 1.0);
    }
    assert RowOrigin(rows, 5) == Uncounted by {
      EventCells(5, "match2", 11.0, 2.0, 0.0, 1.0);
      EventCells(4, "match2", 5.0, 9.0, 0.0, 2.0);
    }
    assert RowOrigin(rows, 7) == Uncounted by {
      EventCells(7, "match3", 20.0, 2.0, 0.0, 1.0);
      EventCells(6, "match2", 12.0, 1.0, 1.0, 3.0);
    }
    assert RowOrigin(rows, 8) == Uncounted by {
      EventCells(8, "match3", 27.0, 3.0, 0.0, 1.0);
      EventCells(7, "match3", 20.0, 2.0, 0.0, 1.0);
    }
  }

  /** The three headed goals: row 0, after a corner, after a foul. */
  lemma EventLogCounted(t: Table)
    requires IsEventLog(t)
    ensures RowOrigin(t.rows, 0) == Other
    ensures RowOrigin(t.rows, 6) == Corner
    ensures RowOrigin(t.rows, 9) == Foul
  {
    var rows := t.rows;
    assert RowOrigin(rows, 0) == Other by {
      EventCells(0, "match1", 10.0, 1.0, 1.0, 3.0);
    }
    assert RowOrigin(rows, 6) == Corner by {
      EventCells(6, "match2", 12.0, 1.0, 1.0, 3.0);
      EventCells(5, "match2", 11.0, 2.0, 0.0, 1.0);
      assert HeadedRow(rows[6]);
      assert Same(Get(rows[6], MatchColumn), Get(rows[5], MatchColumn));
      assert Get(rows[5], EventTypeColumn) == CornerCode;
    }
    assert RowOrigin(rows, 9) == Foul by {
      EventCells(9, "match3", 28.0, 1.0, 1.0, 3.0);
      EventCells(8, "match3", 27.0, 3.0, 0.0, 1.0);
      assert HeadedRow(rows[9]);
      assert Same(Get(rows[9], MatchColumn), Get(rows[8], MatchColumn));
      assert Get(rows[8], EventTypeColumn) == FoulCode;
    }
  }

  lemma EventLogTally(t: Table)
    requires IsEventLog(t)
    ensures RowTally(t.rows, 10) == Counts(1, 1, 0, 1)
  {
    EventLogUncounted(t);
    EventLogCounted(t);
    TallyOfLog(RowOrigins(t.rows)[..10]);
  }

  /** Ten origins laid out as the log's: an "other" goal first, a corner at
      6, a foul at 9, nothing counted elsewhere. */
  lemma TallyOfLog(os: seq<Origin>)
    requires |os| == 10 && os[0] == Other && os[6] == Corner && os[9] == Foul
    requires os[1] == Uncounted && os[2] == Uncounted && os[3] == Uncounted && os[4] == Uncounted
    requires os[5] == Uncounted && os[7] == Uncounted && os[8] == Uncounted
    ensures TallyOf(os) == Counts(1, 1, 0, 1)
  {
    TallyOfLogTo4(os);
    TallyOfLogTo8(os);
    TallyOfTwo(os, 8, Counts(1, 0, 0, 1));
    assert os[..10] == os;
  }

  lemma TallyOfLogTo4(os: seq<Origin>)
    requires |os| >= 4 && os[0] == Other && os[1] == Uncounted && os[2] == Uncounted && os[3] == Uncounted
    ensures TallyOf(os[..4]) == Counts(0, 0, 0, 1)
  {
    assert os[..0] == [];
    TallyOfTwo(os, 0, Counts(0, 0, 0, 0));
    TallyOfTwo(os, 2, Counts(0, 0, 0, 1));
  }

  lemma TallyOfLogTo8(os: seq<Origin>)
    requires |os| >= 8 && TallyOf(os[..4]) == Counts(0, 0, 0, 1)
    requires os[4] == Uncounted && os[5] == Uncounted && os[6] == Corner && os[7] == Uncounted
    ensures TallyOf(os[..8]) == Counts(1, 0, 0, 1)
  {
    TallyOfTwo(os, 4, Counts(0, 0, 0, 1));
    TallyOfTwo(os, 6, Counts(0, 0, 0, 1));
  }

  /** Two more origins, one after the other. */
  lemma TallyOfTwo(os: seq<Origin>, k: nat, c: Counts)
    requires k + 2 <= |os| && TallyOf(os[..k]) == c
    ensures TallyOf(os[..k + 2]) == Add(Add(c, os[k]), os[k + 1])
  {
    TallyOfPrefix(os, k);
    TallyOfPrefix(os, k + 1);
  }

  /** A kept position goes in front of the later ones. */
  lemma KeptIn(rows: seq<Row>, conditions: map<ColumnName, Value>, lo: nat)
    requires lo < |rows| && Kept(rows, conditions, lo)
    ensures KeptPositions(rows, conditions, lo) == [lo] + KeptPositions(rows, conditions, lo + 1)
  {
  }

  /** A dropped position leaves the later ones as they are. */
  lemma KeptOut(rows: seq<Row>, conditions: map<ColumnName, Value>, lo: nat)
    requires lo < |rows| && !Kept(rows, conditions, lo)
    ensures KeptPositions(rows, conditions, lo) == KeptPositions(rows, conditions, lo + 1)
  {
  }

  /** The conditions of the two extraction tests. */
  const OnlyHeaders: map<ColumnName, Value> := map[BodypartColumn := HeaderCode]
  const GoalsWithRightFoot: map<ColumnName, Value> := map[IsGoalColumn := Num(1.0), BodypartColumn := Num(2.0)]

  /** Rows 0 to 4. */
  lemma PassesOnlyHeadersLow(t: Table)
    requires IsEventLog(t)
    ensures Passes(t.rows[0], AllEqual(OnlyHeaders))
    ensures !Passes(t.rows[1], AllEqual(OnlyHeaders))
    ensures Passes(t.rows[2], AllEqual(OnlyHeaders))
    ensures !Passes(t.rows[3], AllEqual(OnlyHeaders))
    ensures !Passes(t.rows[4], AllEqual(OnlyHeaders))
  {
    assert Passes(t.rows[0], AllEqual(OnlyHeaders)) by {
      EventCells(0, "match1", 10.0, 1.0, 1.0, 3.0);
    }
    assert !Passes(t.rows[1], AllEqual(OnlyHeaders)) by {
      EventCells(1, "match1", 11.0, 1.0, 1.0, 2.0);
    }
    assert Passes(t.rows[2], AllEqual(OnlyHeaders)) by {
      EventCells(2, "match1", 30.0, 1.0, 0.0, 3.0);
    }
    assert !Passes(t.rows[3], AllEqual(OnlyHeaders)) by {
      EventCells(3, "match1", 35.0, 9.0, 0.0, 1.0);
    }
    assert !Passes(t.rows[4], AllEqual(OnlyHeaders)) by {
      EventCells(4, "match2", 5.0, 9.0, 0.0, 2.0);
    }
  }

  /** Rows 5 to 9. */
  lemma PassesOnlyHeadersHigh(t: Table)
    requires IsEventLog(t)
    ensures !Passes(t.rows[5], AllEqual(OnlyHeaders))
    ensures Passes(t.rows[6], AllEqual(OnlyHeaders))
    ensures !Passes(t.rows[7], AllEqual(OnlyHeaders))
    ensures !Passes(t.rows[8], AllEqual(OnlyHeaders))
    ensures Passes(t.rows[9], AllEqual(OnlyHeaders))
  {
    assert !Passes(t.rows[5], AllEqual(OnlyHeaders)) by {
      EventCells(5, "match2", 11.0, 2.0, 0.0, 1.0);
    }
    assert Passes(t.rows[6], AllEqual(OnlyHeaders)) by {
      EventCells(6, "match2", 12.0, 1.0, 1.0, 3.0);
    }
    assert !Passes(t.rows[7], AllEqual(OnlyHeaders)) by {
      EventCells(7, "match3", 20.0, 2.0, 0.0, 1.0);
    }
    assert !Passes(t.rows[8], AllEqual(OnlyHeaders)) by {
      EventCells(8, "match3", 27.0, 3.0, 0.0, 1.0);
    }
    assert Passes(t.rows[9], AllEqual(OnlyHeaders)) by {
      EventCells(9, "match3", 28.0, 1.0, 1.0, 3.0);
    }
  }

  /** Rows 0 to 4. */
  lemma PassesGoalsWithRightFootLow(t: Table)
    requires IsEventLog(t)
    ensures !Passes(t.rows[0], AllEqual(GoalsWithRightFoot))
    ensures Passes(t.rows[1], AllEqual(GoalsWithRightFoot))
    ensures !Passes(t.rows[2], AllEqual(GoalsWithRightFoot))
    ensures !Passes(t.rows[3], AllEqual(GoalsWithRightFoot))
    ensures !Passes(t.rows[4], AllEqual(GoalsWithRightFoot))
  {
    assert !Passes(t.rows[0], AllEqual(GoalsWithRightFoot)) by {
      EventCells(0, "match1", 10.0, 1.0, 1.0, 3.0);
    }
    assert Passes(t.rows[1], AllEqual(GoalsWithRightFoot)) by {
      EventCells(1, "match1", 11.0, 1.0, 1.0, 2.0);
    }
    assert !Passes(t.rows[2], AllEqual(GoalsWithRightFoot)) by {
      EventCells(2, "match1", 30.0, 1.0, 0.0, 3.0);
    }
    assert !Passes(t.rows[3], AllEqual(GoalsWithRightFoot)) by {
      EventCells(3, "match1", 35.0, 9.0, 0.0, 1.0);
    }
    assert !Passes(t.rows[4], AllEqual(GoalsWithRightFoot)) by {
      EventCells(4, "match2", 5.0, 9.0, 0.0, 2.0);
    }
  }

  /** Rows 5 to 9. */
  lemma PassesGoalsWithRightFootHigh(t: Table)
    requires IsEventLog(t)
    ensures !Passes(t.rows[5], AllEqual(GoalsWithRightFoot))
    ensures !Passes(t.rows[6], AllEqual(GoalsWithRightFoot))
    ensures !Passes(t.rows[7], AllEqual(GoalsWithRightFoot))
    ensures !Passes(t.rows[8], AllEqual(GoalsWithRightFoot))
    ensures !Passes(t.rows[9], AllEqual(GoalsWithRightFoot))
  {
    assert !Passes(t.rows[5], AllEqual(GoalsWithRightFoot)) by {
      EventCells(5, "match2", 11.0, 2.0, 0.0, 1.0);
    }
    assert !Passes(t.rows[6], AllEqual(GoalsWithRightFoot)) by {
      EventCells(6, "match2", 12.0, 1.0, 1.0, 3.0);
    }
    assert !Passes(t.rows[7], AllEqual(GoalsWithRightFoot)) by {
      EventCells(7, "match3", 20.0, 2.0, 0.0, 1.0);
    }
    assert !Passes(t.rows[8], AllEqual(GoalsWithRightFoot)) by {
      EventCells(8, "match3", 27.0, 3.0, 0.0, 1.0);
    }
    assert !Passes(t.rows[9], AllEqual(GoalsWithRightFoot)) by {
      EventCells(9, "match3", 28.0, 1.0, 1.0, 3.0);
    }
  }

  /** Which rows of the log headers keep: all but rows 3, 4 and 7. */
  lemma KeptOnlyHeadersFlags(t: Table)
    requires IsEventLog(t)
    ensures Kept(t.rows, OnlyHeaders, 0) && Kept(t.rows, OnlyHeaders, 1) && Kept(t.rows, OnlyHeaders, 2)
    ensures !Kept(t.rows, OnlyHeaders, 3) && !Kept(t.rows, OnlyHeaders, 4)
    ensures Kept(t.rows, OnlyHeaders, 5) && Kept(t.rows, OnlyHeaders, 6) && !Kept(t.rows, OnlyHeaders, 7)
    ensures Kept(t.rows, OnlyHeaders, 8) && Kept(t.rows, OnlyHeaders, 9)
  {
    PassesOnlyHeadersLow(t);
    PassesOnlyHeadersHigh(t);
  }

  /** Which rows of the log right-foot goals keep: rows 0 and 1. */
  lemma KeptGoalsWithRightFootFlags(t: Table)
    requires IsEventLog(t)
    ensures Kept(t.rows, GoalsWithRightFoot, 0) && Kept(t.rows, GoalsWithRightFoot, 1)
    ensures !Kept(t.rows, GoalsWithRightFoot, 2) && !Kept(t.rows, GoalsWithRightFoot, 3)
    ensures !Kept(t.rows, GoalsWithRightFoot, 4) && !Kept(t.rows, GoalsWithRightFoot, 5)
    ensures !Kept(t.rows, GoalsWithRightFoot, 6) && !Kept(t.rows, GoalsWithRightFoot, 7)
    ensures !Kept(t.rows, GoalsWithRightFoot, 8) && !Kept(t.rows, GoalsWithRightFoot, 9)
  {
    PassesGoalsWithRightFootLow(t);
    PassesGoalsWithRightFootHigh(t);
  }

  /** Ten rows kept as the header test keeps them. */
  lemma KeptLikeHeaders(rows: seq<Row>, conditions: map<ColumnName, Value>)
    requires |rows| == 10
    requires Kept(rows, conditions, 0) && Kept(rows, conditions, 1) && Kept(rows, conditions, 2)
    requires !Kept(rows, conditions, 3) && !Kept(rows, conditions, 4)
    requires Kept(rows, conditions, 5) && Kept(rows, conditions, 6) && !Kept(rows, conditions, 7)
    requires Kept(rows, conditions, 8) && Kept(rows, conditions, 9)
    ensures KeptPositions(rows, conditions, 0) == [0, 1, 2, 5, 6, 8, 9]
  {
    KeptLikeHeadersFrom7(rows, conditions);
    KeptLikeHeadersFrom3(rows, conditions);
    KeptLikeHeadersFrom1(rows, conditions);
    KeptLikeHeadersFrom0(rows, conditions);
  }

  lemma KeptLikeHeadersFrom0(rows: seq<Row>, conditions: map<ColumnName, Value>)
    requires |rows| == 10 && KeptPositions(rows, conditions, 1) == [1, 2, 5, 6, 8, 9]
    requires Kept(rows, conditions, 0)
    ensures KeptPositions(rows, conditions, 0) == [0, 1, 2, 5, 6, 8, 9]
  {
    KeptIn(rows, conditions, 0);
  }

  lemma KeptLikeHeadersFrom1(rows: seq<Row>, conditions: map<ColumnName, Value>)
    requires |rows| == 10 && KeptPositions(rows, conditions, 3) == [5, 6, 8, 9]
    requires Kept(rows, conditions, 1) && Kept(rows, conditions, 2)
    ensures KeptPositions(rows, conditions, 1) == [1, 2, 5, 6, 8, 9]
  {
    KeptIn(rows, conditions, 2);
    KeptIn(rows, conditions, 1);
  }

  lemma KeptLikeHeadersFrom3(rows: seq<Row>, conditions: map<ColumnName, Value>)
    requires |rows| == 10 && KeptPositions(rows, conditions, 7) == [8, 9]
    requires !Kept(rows, conditions, 3) && !Kept(rows, conditions, 4)
    requires Kept(rows, conditions, 5) && Kept(rows, conditions, 6)
    ensures KeptPositions(rows, conditions, 3) == [5, 6, 8, 9]
  {
    KeptIn(rows, conditions, 6);
    KeptIn(rows, conditions, 5);
    KeptOut(rows, conditions, 4);
    KeptOut(rows, conditions, 3);
  }

  lemma KeptLikeHeadersFrom7(rows: seq<Row>, conditions: map<ColumnName, Value>)
    requires |rows| == 10
    requires !Kept(rows, conditions, 7) && Kept(rows, conditions, 8) && Kept(rows, conditions, 9)
    ensures KeptPositions(rows, conditions, 7) == [8, 9]
  {
    assert KeptPositions(rows, conditions, 10) == [];
    KeptIn(rows, conditions, 9);
    KeptIn(rows, conditions, 8);
    KeptOut(rows, conditions, 7);
  }

  /** Ten rows kept as the right-foot test keeps them. */
  lemma KeptLikeRightFoot(rows: seq<Row>, conditions: map<ColumnName, Value>)
    requires |rows| == 10
    requires Kept(rows, conditions, 0) && Kept(rows, conditions, 1)
    requires !Kept(rows, conditions, 2) && !Kept(rows, conditions, 3)
    requires !Kept(rows, conditions, 4) && !Kept(rows, conditions, 5)
    requires !Kept(rows, conditions, 6) && !Kept(rows, conditions, 7)
    requires !Kept(rows, conditions, 8) && !Kept(rows, conditions, 9)
    ensures KeptPositions(rows, conditions, 0) == [0, 1]
  {
    assert KeptPositions(rows, conditions, 10) == [];
    KeptOut(rows, conditions, 9);
    KeptOut(rows, conditions, 8);
    KeptOut(rows, conditions, 7);
    KeptOut(rows, conditions, 6);
    KeptOut(rows, conditions, 5);
    KeptOut(rows, conditions, 4);
    KeptOut(rows, conditions, 3);
    KeptOut(rows, conditions, 2);
    KeptIn(rows, conditions, 1);
    KeptIn(rows, conditions, 0);
  }

  /** Extraction on the unit tests' event log: headers keep rows 0, 1, 2, 5,
      6, 8 and 9; right-foot goals keep row 1 and the row before it. */
  lemma ExtractionExamples(t: Table)
    requires IsEventLog(t)
    ensures KeptPositions(t.rows, OnlyHeaders, 0) == [0, 1, 2, 5, 6, 8, 9]
    ensures KeptPositions(t.rows, GoalsWithRightFoot, 0) == [0, 1]
  {
    KeptOnlyHeadersFlags(t);
    KeptLikeHeaders(t.rows, OnlyHeaders);
    KeptGoalsWithRightFootFlags(t);
    KeptLikeRightFoot(t.rows, GoalsWithRightFoot);
  }
}
