/// The part of a pandas DataFrame that the analyses rely on: ordered column
/// names and ordered rows, each row carrying its index label and one cell per
/// column. Numbers (the integer and float codes of the event log alike) are
/// exact reals, so `1 == 1.0` holds as it does in Python; `Null` is NaN.
module DataFrame {

  datatype Value = Num(x: real) | Str(s: string) | Null

  type ColumnName = string

  datatype Row = Row(index: Value, cells: map<ColumnName, Value>)

  datatype Table = Table(columns: seq<ColumnName>, rows: seq<Row>)

  /** The columns of the event log that the analyses read. */
  const MatchColumn: ColumnName := "id_odsp"
  const TimeColumn: ColumnName := "time"
  const SideColumn: ColumnName := "side"
  const EventTypeColumn: ColumnName := "event_type"
  const IsGoalColumn: ColumnName := "is_goal"
  const BodypartColumn: ColumnName := "bodypart"
  const LocationColumn: ColumnName := "location"
  const ShotOutcomeColumn: ColumnName := "shot_outcome"

  /** The Python exceptions the analyses can raise. */
  datatype Error = KeyError | ValueError | TypeError | ZeroDivisionError

  datatype Result<T> = Ok(value: T) | Err(error: Error) {
    predicate IsFailure() {
      Err?
    }

    function PropagateFailure<U>(): Result<U>
      requires Err?
    {
      Err(error)
    }

    function Extract(): T
      requires Ok?
    {
      value
    }
  }

  datatype Option<T> = None | Some(value: T)

  /** The cell of row `r` in column `c` (NaN where the row has no such cell). */
  function Get(r: Row, c: ColumnName): Value
  {
    if c in r.cells then r.cells[c] else Null
  }

  predicate HasColumns(t: Table, cs: seq<ColumnName>)
  {
    forall c :: c in cs ==> c in t.columns
  }

  /** pandas `==` between two cells: NaN is equal to nothing, not even NaN. */
  predicate Same(a: Value, b: Value)
  {
    a == b && !a.Null?
  }

  /** The label that a default RangeIndex gives to position `i`. */
  function Label(i: int): Value
  {
    Num(i as real)
  }

  /** The row labels are 0..N-1, so label and position agree. */
  predicate Dense(rows: seq<Row>)
  {
    forall i :: 0 <= i < |rows| ==> rows[i].index == Label(i)
  }

  /** `reset_index(drop=True)`: same cells, labels 0..N-1. */
  function ResetIndex(rows: seq<Row>): (r: seq<Row>)
    ensures |r| == |rows| && Dense(r)
    ensures forall i :: 0 <= i < |r| ==> r[i].cells == rows[i].cells
  {
    seq(|rows|, i requires 0 <= i < |rows| => Row(Label(i), rows[i].cells))
  }

  /** The rows at the given positions, in the given order (`iloc`). */
  function Select<T>(s: seq<T>, ps: seq<nat>): (r: seq<T>)
    requires forall k :: 0 <= k < |ps| ==> ps[k] < |s|
    ensures |r| == |ps|
    ensures forall k :: 0 <= k < |ps| ==> r[k] == s[ps[k]]
  {
    seq(|ps|, k requires 0 <= k < |ps| => s[ps[k]])
  }

  predicate Increasing(ps: seq<nat>)
  {
    forall a, b :: 0 <= a < b < |ps| ==> ps[a] < ps[b]
  }

  /** The first position whose label is `key`. */
  function Position(rows: seq<Row>, key: Value): (p: Option<nat>)
    ensures p.Some? ==> p.value < |rows| && rows[p.value].index == key
    ensures p.Some? ==> forall q :: 0 <= q < p.value ==> rows[q].index != key
    ensures p.None? ==> forall q :: 0 <= q < |rows| ==> rows[q].index != key
  {
    if rows == [] then None
    else if rows[0].index == key then Some(0)
    else match Position(rows[1..], key)
      case None => None
      case Some(q) => Some(q + 1)
  }

  /** Two rows carry the label `key`: it occurs again after its first row. */
  predicate Repeated(rows: seq<Row>, key: Value)
  {
    match Position(rows, key)
    case None => false
    case Some(p) => Position(rows[p + 1..], key).Some?
  }

  /** Repeated means exactly that two different rows carry the label. */
  lemma RepeatedTwoRows(rows: seq<Row>, key: Value)
    ensures Repeated(rows, key) <==>
              exists p, q :: 0 <= p < q < |rows| && rows[p].index == key && rows[q].index == key
  {
    if p, q :| 0 <= p < q < |rows| && rows[p].index == key && rows[q].index == key {
      var f := Position(rows, key).value;
      assert f <= p < q;
      assert rows[f + 1..][q - f - 1].index == key;
    }
    if Repeated(rows, key) {
      var f := Position(rows, key).value;
      var g := Position(rows[f + 1..], key).value;
      assert rows[f + 1 + g].index == key;
    }
  }

  /** `df.loc[key, c]`: a KeyError when the label or the column is absent.
      When several rows carry the label, pandas returns all their cells as a
      Series, and every truth test the program puts it to (`and`, `if`, a
      comparison under `and`) raises a ValueError. */
  function Loc(t: Table, key: Value, c: ColumnName): (r: Result<Value>)
    ensures r == Err(KeyError) <==> Position(t.rows, key).None? || c !in t.columns
    ensures r == Err(ValueError) <==> c in t.columns && Repeated(t.rows, key)
    ensures r.Ok? ==> Position(t.rows, key).Some? && r.value == Get(t.rows[Position(t.rows, key).value], c)
  {
    match Position(t.rows, key)
    case None => Err(KeyError)
    case Some(p) =>
      if c !in t.columns then Err(KeyError)
      else if Repeated(t.rows, key) then Err(ValueError)
      else Ok(Get(t.rows[p], c))
  }

  /** On a table labelled 0..N-1, `loc` by label is access by position. */
  lemma DenseLoc(t: Table, i: int, c: ColumnName)
    requires Dense(t.rows)
    ensures Loc(t, Label(i), c)
            == if 0 <= i < |t.rows| && c in t.columns then Ok(Get(t.rows[i], c)) else Err(KeyError)
  {
    var p := Position(t.rows, Label(i));
    if 0 <= i < |t.rows| {
      assert t.rows[i].index == Label(i);
      assert p.Some?;
      assert t.rows[p.value].index == Label(p.value);
      assert !Repeated(t.rows, Label(i)) by {
        var rest := t.rows[i + 1..];
        forall q | 0 <= q < |rest|
          ensures rest[q].index != Label(i)
        {
          assert rest[q] == t.rows[i + 1 + q];
        }
      }
    } else {
      assert forall q :: 0 <= q < |t.rows| ==> t.rows[q].index != Label(i) by {
        forall q | 0 <= q < |t.rows| ensures t.rows[q].index != Label(i) {
          assert t.rows[q].index == Label(q);
        }
      }
    }
  }

  /** The cells of column `c` in `rows`, in order. */
  function Cells(rows: seq<Row>, c: ColumnName): (vs: seq<Value>)
    ensures |vs| == |rows|
    ensures forall i :: 0 <= i < |rows| ==> vs[i] == Get(rows[i], c)
  {
    seq(|rows|, i requires 0 <= i < |rows| => Get(rows[i], c))
  }

  /** The values of column `c`, row by row (`df[c]`). */
  function Column(t: Table, c: ColumnName): (vs: seq<Value>)
    ensures |vs| == |t.rows|
    ensures forall i :: 0 <= i < |vs| ==> vs[i] == Get(t.rows[i], c)
  {
    Cells(t.rows, c)
  }

  /** The row labels, in order (`df.index`). */
  function Labels(t: Table): (ls: seq<Value>)
    ensures |ls| == |t.rows|
    ensures forall i :: 0 <= i < |ls| ==> ls[i] == t.rows[i].index
  {
    seq(|t.rows|, i requires 0 <= i < |t.rows| => t.rows[i].index)
  }

  /** The distinct values of `vs`, in order of first appearance. */
  function Distinct(vs: seq<Value>): (ds: seq<Value>)
    ensures forall v :: v in ds <==> v in vs
    ensures forall i, j :: 0 <= i < j < |ds| ==> ds[i] != ds[j]
  {
    if vs == [] then []
    else
      var ds := Distinct(vs[..|vs| - 1]);
      var v := vs[|vs| - 1];
      assert forall w :: w in vs <==> w in vs[..|vs| - 1] || w == v;
      if v in ds then ds else ds + [v]
  }

  /** How many cells of `vs` are pandas-equal to `v` (`(series == v).sum()`). */
  function Count(vs: seq<Value>, v: Value): (n: nat)
    ensures n <= |vs|
  {
    if vs == [] then 0
    else Count(vs[..|vs| - 1], v) + (if Same(vs[|vs| - 1], v) then 1 else 0)
  }

  lemma {:induction false} CountAppend(a: seq<Value>, b: seq<Value>, v: Value)
    ensures Count(a + b, v) == Count(a, v) + Count(b, v)
    decreases |b|
  {
    if b == [] {
      assert a + b == a;
    } else {
      assert (a + b)[..|a + b| - 1] == a + b[..|b| - 1];
      CountAppend(a, b[..|b| - 1], v);
    }
  }

  /** `count / total * 100`, computed exactly (rounding is not modelled). */
  function Percent(count: nat, total: nat): (p: real)
    requires total > 0 && count <= total
    ensures 0.0 <= p <= 100.0
    ensures p == 0.0 <==> count == 0
    ensures p == 100.0 <==> count == total
  {
    (count as real / total as real) * 100.0
  }

  lemma PercentAdd(a: nat, b: nat, total: nat)
    requires total > 0 && a + b <= total
    ensures Percent(a, total) + Percent(b, total) == Percent(a + b, total)
  {
  }

  /** `Series.sum()`: the numbers of `vs` added up, NaN skipped. */
  function Sum(vs: seq<Value>): real
  {
    if vs == [] then 0.0
    else Sum(vs[..|vs| - 1]) + (if vs[|vs| - 1].Num? then vs[|vs| - 1].x else 0.0)
  }

  datatype Ordering = Less | Equal | Greater | Unordered

  /** Lexicographic order of strings by character code, as Python's `<`. */
  predicate StrLess(s: string, u: string)
  {
    if s == [] then u != []
    else if u == [] then false
    else if s[0] != u[0] then s[0] < u[0]
    else StrLess(s[1..], u[1..])
  }

  /** Python's `<`/`>` between two cells: numbers and strings compare within
      their kind, NaN compares false with every number, and a string against
      anything else is a TypeError. */
  function Compare(a: Value, b: Value): Result<Ordering>
  {
    match (a, b)
    case (Num(x), Num(y)) => Ok(if x < y then Less else if x == y then Equal else Greater)
    case (Str(s), Str(u)) => Ok(if s == u then Equal else if StrLess(s, u) then Less else Greater)
    case (Str(_), _) => Err(TypeError)
    case (_, Str(_)) => Err(TypeError)
    case _ => Ok(Unordered)
  }

  /** `df[c] = values`: replaces column `c`, or appends it when it is new. */
  function WithColumn(t: Table, c: ColumnName, values: seq<Value>): (r: Table)
    requires |values| == |t.rows|
    ensures |r.rows| == |t.rows|
    ensures forall i :: 0 <= i < |r.rows| ==>
              r.rows[i].index == t.rows[i].index && r.rows[i].cells == t.rows[i].cells[c := values[i]]
  {
    Table(if c in t.columns then t.columns else t.columns + [c],
          seq(|t.rows|, i requires 0 <= i < |t.rows| =>
            Row(t.rows[i].index, t.rows[i].cells[c := values[i]])))
  }

  /** Reading a column back after assigning one: the assigned values, or the
      column as it was. */
  lemma WithColumnColumn(t: Table, c: ColumnName, values: seq<Value>, d: ColumnName)
    requires |values| == |t.rows|
    ensures Column(WithColumn(t, c, values), d) == if d == c then values else Column(t, d)
  {
  }

  /** A DataFrame object that the analyses update in place. */
  class Frame {
    var columns: seq<ColumnName>
    var rows: seq<Row>

    function Snapshot(): Table
      reads this
    {
      Table(columns, rows)
    }

    constructor (t: Table)
      ensures Snapshot() == t
    {
      columns := t.columns;
      rows := t.rows;
    }
  }

  /** `df[c] = values` on a DataFrame object. */
  method SetColumn(df: Frame, c: ColumnName, values: seq<Value>)
    requires |values| == |df.rows|
    modifies df
    ensures df.Snapshot() == WithColumn(old(df.Snapshot()), c, values)
  {
    var t := WithColumn(df.Snapshot(), c, values);
    df.columns, df.rows := t.columns, t.rows;
  }
}
