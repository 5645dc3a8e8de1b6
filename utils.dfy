/// The table primitives shared by the three analyses: dropping columns in
/// place, keeping the rows that meet equality conditions, dropping the rows
/// whose value is in a list, and remapping a column in place.
module Utils {
  import opened DataFrame

  // ----- remove_columns ---------------------------------------------------

  /** The names of `cs` that are not in `gone`, in their order. */
  function Keep(cs: seq<ColumnName>, gone: seq<ColumnName>): (r: seq<ColumnName>)
    ensures forall d :: d in r <==> d in cs && d !in gone
  {
    if cs == [] then [] else (if cs[0] in gone then [] else [cs[0]]) + Keep(cs[1..], gone)
  }

  /** Keeping from a list with one more name in front. */
  lemma KeepCons(c: ColumnName, cs: seq<ColumnName>, gone: seq<ColumnName>)
    ensures Keep([c] + cs, gone) == (if c in gone then [] else [c]) + Keep(cs, gone)
  {
    assert ([c] + cs)[1..] == cs;
  }

  /** `df.drop(c, axis=1)`. */
  function DropColumn(t: Table, c: ColumnName): Table
  {
    Table(Keep(t.columns, [c]),
          seq(|t.rows|, i requires 0 <= i < |t.rows| => Row(t.rows[i].index, t.rows[i].cells - {c})))
  }

  /** The columns of `cs` dropped one after the other, in order. */
  function DropEach(t: Table, cs: seq<ColumnName>): Table
    decreases |cs|
  {
    if cs == [] then t else DropColumn(DropEach(t, cs[..|cs| - 1]), cs[|cs| - 1])
  }

  /** The table without the columns of `gone`: the other columns in their
      order, the same rows with the same labels and the other cells. */
  function Project(t: Table, gone: seq<ColumnName>): Table
  {
    Table(Keep(t.columns, gone),
          seq(|t.rows|, i requires 0 <= i < |t.rows| =>
            Row(t.rows[i].index, t.rows[i].cells - (set c | c in gone))))
  }

  /** A column that is not dropped reads the same after the projection. */
  lemma ProjectColumn(t: Table, gone: seq<ColumnName>, c: ColumnName)
    requires c !in gone
    ensures Column(Project(t, gone), c) == Column(t, c)
  {
  }

  lemma {:induction false} KeepKeep(cs: seq<ColumnName>, gone: seq<ColumnName>, c: ColumnName)
    ensures Keep(Keep(cs, gone), [c]) == Keep(cs, gone + [c])
  {
    if cs != [] {
      KeepKeep(cs[1..], gone, c);
      var rest := Keep(cs[1..], gone);
      if cs[0] in gone {
        assert Keep(cs, gone) == rest;
      } else {
        assert Keep(cs, gone) == [cs[0]] + rest;
        assert ([cs[0]] + rest)[1..] == rest;
      }
    }
  }

  /** Dropping the columns one by one is the projection that removes them all. */
  lemma {:induction false} DropEachIsProject(t: Table, cs: seq<ColumnName>)
    ensures DropEach(t, cs) == Project(t, cs)
    decreases |cs|
  {
    if cs == [] {
      ProjectNothing(t);
    } else {
      var front, last := cs[..|cs| - 1], cs[|cs| - 1];
      assert cs == front + [last];
      DropEachIsProject(t, front);
      DropProjected(t, front, last);
    }
  }

  /** Projecting nothing away keeps the table. */
  lemma ProjectNothing(t: Table)
    ensures Project(t, []) == t
  {
    assert (set c: ColumnName | c in []) == {};
    assert forall i :: 0 <= i < |t.rows| ==> t.rows[i].cells - {} == t.rows[i].cells;
    KeepNothing(t.columns);
  }

  /** Dropping one more column after a projection is the projection of the
      longer list. */
  lemma DropProjected(t: Table, front: seq<ColumnName>, last: ColumnName)
    ensures DropColumn(Project(t, front), last) == Project(t, front + [last])
  {
    KeepKeep(t.columns, front, last);
    var s := Project(t, front);
    var d := DropColumn(s, last);
    var p := Project(t, front + [last]);
    assert (set c | c in front + [last]) == (set c | c in front) + {last};
    forall i | 0 <= i < |t.rows|
      ensures d.rows[i] == p.rows[i]
    {
      assert s.rows[i].cells - {last} == t.rows[i].cells - (set c | c in front + [last]);
    }
  }

  lemma {:induction false} KeepNothing(cs: seq<ColumnName>)
    ensures Keep(cs, []) == cs
  {
    if cs != [] {
      KeepNothing(cs[1..]);
    }
  }

  /** The position of the first name that already occurs earlier in `cs`,
      or |cs| when the names are distinct. */
  function FirstRepeat(cs: seq<ColumnName>): (k: nat)
    ensures k <= |cs|
    ensures forall j :: 0 <= j < k ==> cs[j] !in cs[..j]
    ensures k < |cs| ==> cs[k] in cs[..k]
  {
    FirstRepeatFrom(cs, 0)
  }

  function FirstRepeatFrom(cs: seq<ColumnName>, j: nat): (k: nat)
    requires j <= |cs|
    requires forall m :: 0 <= m < j ==> cs[m] !in cs[..m]
    ensures j <= k <= |cs|
    ensures forall m :: 0 <= m < k ==> cs[m] !in cs[..m]
    ensures k < |cs| ==> cs[k] in cs[..k]
    decreases |cs| - j
  {
    if j == |cs| then j
    else if cs[j] in cs[..j] then j
    else FirstRepeatFrom(cs, j + 1)
  }

  /** remove_columns: if a listed column is absent, a KeyError before anything
      is dropped; otherwise the columns are dropped in place one by one, so
      a name listed twice is dropped once and its second drop raises a
      KeyError after the earlier columns are already gone. */
  method RemoveColumns(df: Frame, columns: seq<ColumnName>) returns (r: Result<()>)
    modifies df
    ensures r == Ok(()) || r == Err(KeyError)
    ensures !HasColumns(old(df.Snapshot()), columns) ==>
              r == Err(KeyError) && df.Snapshot() == old(df.Snapshot())
    ensures HasColumns(old(df.Snapshot()), columns) ==>
              df.Snapshot() == DropEach(old(df.Snapshot()), columns[..FirstRepeat(columns)])
              && (r.Ok? <==> FirstRepeat(columns) == |columns|)
  {
    if exists c :: c in columns && c !in df.columns {
      return Err(KeyError);
    }
    ghost var t0 := df.Snapshot();
    var i := 0;
    while i < |columns|
      invariant i <= FirstRepeat(columns)
      invariant df.Snapshot() == DropEach(t0, columns[..i])
      invariant forall c :: c in df.columns <==> c in t0.columns && c !in columns[..i]
    {
      if columns[i] !in df.columns {
        return Err(KeyError);
      }
      DropNext(t0, columns, i);
      var t := DropColumn(df.Snapshot(), columns[i]);
      df.columns, df.rows := t.columns, t.rows;
      i := i + 1;
    }
    assert columns[..i] == columns;
    return Ok(());
  }

  /** One more drop: the next column goes, and the columns left are the
      original ones not yet listed. */
  lemma DropNext(t: Table, cs: seq<ColumnName>, i: nat)
    requires i < |cs|
    requires forall c :: c in DropEach(t, cs[..i]).columns <==> c in t.columns && c !in cs[..i]
    ensures DropEach(t, cs[..i + 1]) == DropColumn(DropEach(t, cs[..i]), cs[i])
    ensures forall c :: c in DropEach(t, cs[..i + 1]).columns <==> c in t.columns && c !in cs[..i + 1]
  {
    assert cs[..i + 1][..i] == cs[..i];
    assert forall c :: c in cs[..i + 1] <==> c in cs[..i] || c == cs[i];
  }

  // ----- filter_df and remove_lines_by_condition --------------------------

  /** What a row must satisfy to be kept. */
  datatype RowTest =
    | AllEqual(conditions: map<ColumnName, Value>)   // filter_df
    | NoneOf(column: ColumnName, values: seq<Value>)  // remove_lines_by_condition

  predicate Passes(r: Row, test: RowTest)
  {
    match test
    case AllEqual(conditions) => forall c :: c in conditions ==> Same(Get(r, c), conditions[c])
    case NoneOf(column, values) => forall v :: v in values ==> !Same(Get(r, column), v)
  }

  /** The rows that pass `test`, in their order, with their labels. */
  function FilterRows(rows: seq<Row>, test: RowTest): seq<Row>
  {
    if rows == [] then []
    else (if Passes(rows[0], test) then [rows[0]] else []) + FilterRows(rows[1..], test)
  }

  /** The positions from `lo` on whose rows pass `test`, ascending. */
  function Passing(rows: seq<Row>, test: RowTest, lo: nat): (ps: seq<nat>)
    requires lo <= |rows|
    ensures |ps| <= |rows| - lo
    ensures forall k :: 0 <= k < |ps| ==> lo <= ps[k] < |rows| && Passes(rows[ps[k]], test)
    ensures Increasing(ps)
    decreases |rows| - lo
  {
    if lo == |rows| then []
    else (if Passes(rows[lo], test) then [lo] else []) + Passing(rows, test, lo + 1)
  }

  /** Every position from `lo` on whose row passes is among the passing ones. */
  lemma {:induction false} PassingComplete(rows: seq<Row>, test: RowTest, lo: nat, p: nat)
    requires lo <= p < |rows| && Passes(rows[p], test)
    ensures p in Passing(rows, test, lo)
    decreases |rows| - lo
  {
    if lo < p {
      PassingComplete(rows, test, lo + 1, p);
    }
  }

  lemma SelectAppend<T>(s: seq<T>, a: seq<nat>, b: seq<nat>)
    requires forall k :: 0 <= k < |a| ==> a[k] < |s|
    requires forall k :: 0 <= k < |b| ==> b[k] < |s|
    ensures Select(s, a + b) == Select(s, a) + Select(s, b)
  {
  }

  /** The filtered rows are exactly the rows at the passing positions: a
      subsequence of the input, in the input's order, labels kept. */
  lemma {:induction false} FilterRowsIsSelect(rows: seq<Row>, test: RowTest, lo: nat)
    requires lo <= |rows|
    ensures FilterRows(rows[lo..], test) == Select(rows, Passing(rows, test, lo))
    decreases |rows| - lo
  {
    if lo < |rows| {
      var rest := rows[lo..];
      assert rest[0] == rows[lo];
      assert rest[1..] == rows[lo + 1..];
      FilterRowsIsSelect(rows, test, lo + 1);
      var tail := Passing(rows, test, lo + 1);
      var head: seq<nat> := if Passes(rows[lo], test) then [lo] else [];
      assert Passing(rows, test, lo) == head + tail;
      SelectAppend(rows, head, tail);
      assert Select(rows, head) == if Passes(rows[lo], test) then [rows[lo]] else [];
    }
  }

  /** Filtering twice with the same test is filtering once. */
  lemma {:induction false} FilterRowsIdempotent(rows: seq<Row>, test: RowTest)
    ensures FilterRows(FilterRows(rows, test), test) == FilterRows(rows, test)
  {
    if rows != [] {
      FilterRowsIdempotent(rows[1..], test);
      var rest := FilterRows(rows[1..], test);
      if Passes(rows[0], test) {
        assert ([rows[0]] + rest)[1..] == rest;
      } else {
        assert [] + rest == rest;
      }
    }
  }

  /** Filtering by `a` and then by `b` is filtering by both at once; this is
      how filter_df's loop, one condition at a time, adds up. */
  lemma {:induction false} FilterRowsConjunction(rows: seq<Row>, a: map<ColumnName, Value>, b: map<ColumnName, Value>)
    requires a.Keys !! b.Keys
    ensures FilterRows(FilterRows(rows, AllEqual(a)), AllEqual(b)) == FilterRows(rows, AllEqual(a + b))
  {
    if rows != [] {
      FilterRowsConjunction(rows[1..], a, b);
      var r := rows[0];
      var rest := FilterRows(rows[1..], AllEqual(a));
      assert Passes(r, AllEqual(a + b)) <==> Passes(r, AllEqual(a)) && Passes(r, AllEqual(b)) by {
        if Passes(r, AllEqual(a)) && Passes(r, AllEqual(b)) {
          forall c | c in a + b ensures Same(Get(r, c), (a + b)[c]) {
            if c in b { assert Same(Get(r, c), b[c]); } else { assert Same(Get(r, c), a[c]); }
          }
        }
        if Passes(r, AllEqual(a + b)) {
          forall c | c in a ensures Same(Get(r, c), a[c]) {
            assert c !in b;
            assert Same(Get(r, c), (a + b)[c]);
          }
          forall c | c in b ensures Same(Get(r, c), b[c]) {
            assert Same(Get(r, c), (a + b)[c]);
          }
        }
      }
      if Passes(r, AllEqual(a)) {
        assert ([r] + rest)[1..] == rest;
      } else {
        assert [] + rest == rest;
      }
    }
  }

  /** filter_df: a KeyError when a condition names an absent column;
      otherwise the same columns and exactly the rows, in order and with
      their labels, whose every condition column equals its value. */
  function FilterDf(t: Table, conditions: map<ColumnName, Value>): (r: Result<Table>)
    ensures r.Err? <==> exists c :: c in conditions && c !in t.columns
    ensures r.Err? ==> r.error == KeyError
    ensures r.Ok? ==> r.value.columns == t.columns
    ensures r.Ok? ==> r.value.rows == Select(t.rows, Passing(t.rows, AllEqual(conditions), 0))
  {
    if exists c :: c in conditions && c !in t.columns then Err(KeyError)
    else
      assert t.rows[0..] == t.rows;
      FilterRowsIsSelect(t.rows, AllEqual(conditions), 0);
      Ok(Table(t.columns, FilterRows(t.rows, AllEqual(conditions))))
  }

  /** With no conditions, filter_df returns the table unchanged. */
  lemma FilterDfNoConditions(t: Table)
    ensures FilterDf(t, map[]) == Ok(t)
  {
    FilterRowsAll(t.rows, AllEqual(map[]));
    assert t.rows[0..] == t.rows;
    FilterRowsIsSelect(t.rows, AllEqual(map[]), 0);
  }

  /** When every row passes, filtering keeps them all. */
  lemma {:induction false} FilterRowsAll(rows: seq<Row>, test: RowTest)
    requires forall r :: r in rows ==> Passes(r, test)
    ensures FilterRows(rows, test) == rows
  {
    if rows != [] {
      assert rows[0] in rows;
      assert forall r :: r in rows[1..] ==> r in rows;
      FilterRowsAll(rows[1..], test);
      assert rows == [rows[0]] + rows[1..];
    }
  }

  /** remove_lines_by_condition: a KeyError when `column` is absent;
      otherwise the same columns and exactly the rows, in order and with
      their labels, whose value in `column` equals none of `values` (a NaN
      cell equals nothing, so it is kept). */
  function RemoveLinesByCondition(t: Table, column: ColumnName, values: seq<Value>): (r: Result<Table>)
    ensures r.Err? <==> column !in t.columns
    ensures r.Err? ==> r.error == KeyError
    ensures r.Ok? ==> r.value.columns == t.columns
    ensures r.Ok? ==> r.value.rows == Select(t.rows, Passing(t.rows, NoneOf(column, values), 0))
  {
    if column !in t.columns then Err(KeyError)
    else
      assert t.rows[0..] == t.rows;
      FilterRowsIsSelect(t.rows, NoneOf(column, values), 0);
      Ok(Table(t.columns, FilterRows(t.rows, NoneOf(column, values))))
  }

  // ----- map_column_values ------------------------------------------------

  /** `Series.map(dict)` on one value: unmapped values become NaN. */
  function Remap(v: Value, mapping: map<Value, Value>): Value
  {
    if v in mapping then mapping[v] else Null
  }

  function Remapped(t: Table, column: ColumnName, mapping: map<Value, Value>): (vs: seq<Value>)
    ensures |vs| == |t.rows|
  {
    seq(|t.rows|, i requires 0 <= i < |t.rows| => Remap(Get(t.rows[i], column), mapping))
  }

  /** map_column_values: a KeyError (and no change) when `column` is absent;
      otherwise, in place, every value v of the column becomes mapping[v], or
      NaN when v is not mapped, and nothing else changes. */
  method MapColumnValues(df: Frame, column: ColumnName, mapping: map<Value, Value>) returns (r: Result<()>)
    modifies df
    ensures column !in old(df.columns) ==> r == Err(KeyError) && df.Snapshot() == old(df.Snapshot())
    ensures column in old(df.columns) ==> r == Ok(())
    ensures column in old(df.columns) ==>
              df.Snapshot() == WithColumn(old(df.Snapshot()), column, Remapped(old(df.Snapshot()), column, mapping))
    ensures df.columns == old(df.columns) && |df.rows| == |old(df.rows)|
    ensures column in old(df.columns) ==> forall i :: 0 <= i < |df.rows| ==>
              df.rows[i].index == old(df.rows[i].index)
              && Get(df.rows[i], column) == Remap(Get(old(df.rows[i]), column), mapping)
              && forall d :: d != column ==> Get(df.rows[i], d) == Get(old(df.rows[i]), d)
  {
    if column !in df.columns {
      return Err(KeyError);
    }
    SetColumn(df, column, Remapped(df.Snapshot(), column, mapping));
    return Ok(());
  }
}
