/**
 * The per-day pivot the candle scripts build,
 * `df.pivot_table(index="fechamonitoreo", columns="clavesih",
 * values="almacenaactual", aggfunc="last")`, and the daily total
 * `df.sum(axis=1)`: one row per monitoring date, in date order, holding each
 * dam's last reading of that date, summed across dams.
 */
module Pivot {
  import opened Calendar
  import opened Readings

  /** One cell of a pivot row: a dam's column and the value in it. */
  datatype Cell = Cell(clavesih: string, value: real)

  /** One point of the daily series: a date and the value of that day. */
  datatype DayTotal = DayTotal(fecha: Date, total: real)

  predicate DistinctDams(row: seq<Cell>) {
    forall i, j :: 0 <= i < j < |row| ==> row[i].clavesih != row[j].clavesih
  }

  /** Writes `v` into the column of dam `k`, replacing an earlier value or adding the column. */
  function Put(row: seq<Cell>, k: string, v: real): (r: seq<Cell>)
    requires DistinctDams(row)
    ensures DistinctDams(r)
    ensures forall c :: c in r <==> (c in row && c.clavesih != k) || c == Cell(k, v)
  {
    if row == [] then [Cell(k, v)]
    else if row[0].clavesih == k then [Cell(k, v)] + row[1..]
    else [row[0]] + Put(row[1..], k, v)
  }

  /**
   * The pivot row of date `d`: the readings are taken in order and each one
   * overwrites its dam's column, so the row keeps each dam's last reading.
   */
  function PivotRow(rs: seq<Reading>, d: Date): (row: seq<Cell>)
    ensures DistinctDams(row)
  {
    if rs == [] then []
    else
      var x := rs[|rs| - 1];
      var row := PivotRow(rs[..|rs| - 1], d);
      if x.fechamonitoreo == d then Put(row, x.clavesih, x.almacenaactual) else row
  }

  /** `rs[i]` is the last reading of its dam on date `d`. */
  predicate IsLastOfDay(rs: seq<Reading>, d: Date, i: int) {
    0 <= i < |rs| && rs[i].fechamonitoreo == d
    && forall j :: i < j < |rs| ==> !(rs[j].fechamonitoreo == d && rs[j].clavesih == rs[i].clavesih)
  }

  /**
   * The pivot row of `d` has one column per dam read on `d`, and that
   * column holds the dam's last reading of the day.
   */
  lemma {:induction false} PivotRowIsLastReading(rs: seq<Reading>, d: Date)
    ensures forall c :: c in PivotRow(rs, d) ==>
      exists i :: IsLastOfDay(rs, d, i) && rs[i].clavesih == c.clavesih && rs[i].almacenaactual == c.value
    ensures forall i :: 0 <= i < |rs| && rs[i].fechamonitoreo == d ==>
      exists c :: c in PivotRow(rs, d) && c.clavesih == rs[i].clavesih
  {
    if rs != [] {
      var pre, x := rs[..|rs| - 1], rs[|rs| - 1];
      assert rs == pre + [x];
      PivotRowIsLastReading(pre, d);
      var row := PivotRow(pre, d);
      forall c | c in PivotRow(rs, d)
        ensures exists i :: IsLastOfDay(rs, d, i) && rs[i].clavesih == c.clavesih && rs[i].almacenaactual == c.value
      {
        if x.fechamonitoreo == d && c == Cell(x.clavesih, x.almacenaactual) {
          assert IsLastOfDay(rs, d, |rs| - 1);
        } else {
          assert c in row;
          var i :| IsLastOfDay(pre, d, i) && pre[i].clavesih == c.clavesih && pre[i].almacenaactual == c.value;
          assert IsLastOfDay(rs, d, i);
        }
      }
      forall i | 0 <= i < |rs| && rs[i].fechamonitoreo == d
        ensures exists c :: c in PivotRow(rs, d) && c.clavesih == rs[i].clavesih
      {
        if x.fechamonitoreo == d && rs[i].clavesih == x.clavesih {
          assert Cell(x.clavesih, x.almacenaactual) in PivotRow(rs, d);
        } else {
          assert i < |pre| && pre[i] == rs[i];
          var c :| c in row && c.clavesih == pre[i].clavesih;
          assert c in PivotRow(rs, d);
        }
      }
    }
  }

  /** Every column of the pivot row of `d` is a dam read on `d`. */
  lemma {:induction false} PivotRowDamsWereRead(rs: seq<Reading>, d: Date)
    ensures forall c :: c in PivotRow(rs, d) ==>
      exists i :: 0 <= i < |rs| && rs[i].fechamonitoreo == d && rs[i].clavesih == c.clavesih
  {
    PivotRowIsLastReading(rs, d);
  }

  /** `row.sum()`: the row's values added up (an absent dam contributes nothing). */
  function RowTotal(row: seq<Cell>): real {
    if row == [] then 0.0 else RowTotal(row[..|row| - 1]) + row[|row| - 1].value
  }

  /**
   * With a single dam, the daily total is that dam's last reading of the day:
   * the pivot row of a day on which only dam `k` was read is the one cell
   * holding the value of its last reading.
   */
  lemma SingleDamTotal(rs: seq<Reading>, d: Date, k: string, i: int)
    requires forall j :: 0 <= j < |rs| ==> rs[j].clavesih == k
    requires IsLastOfDay(rs, d, i)
    ensures PivotRow(rs, d) == [Cell(k, rs[i].almacenaactual)]
    ensures RowTotal(PivotRow(rs, d)) == rs[i].almacenaactual
  {
    PivotRowIsLastReading(rs, d);
    var row := PivotRow(rs, d);
    var c :| c in row && c.clavesih == rs[i].clavesih;
    var i' :| IsLastOfDay(rs, d, i') && rs[i'].clavesih == c.clavesih && rs[i'].almacenaactual == c.value;
    assert i' == i;
    PivotRowDamsWereRead(rs, d);
    OneDamOneColumn(row, k);
    assert row == [c];
  }

  lemma OneDamOneColumn(row: seq<Cell>, k: string)
    requires DistinctDams(row)
    requires forall c :: c in row ==> c.clavesih == k
    ensures |row| <= 1
  {
    FirstTwoColumns(row);
  }

  lemma FirstTwoColumns(row: seq<Cell>)
    requires DistinctDams(row)
    ensures |row| >= 2 ==> row[0] in row && row[1] in row && row[0].clavesih != row[1].clavesih
  {
  }

  lemma {:induction false} RowTotalCons(c: Cell, row: seq<Cell>)
    ensures RowTotal([c] + row) == c.value + RowTotal(row)
  {
    if row != [] {
      var pre := row[..|row| - 1];
      assert ([c] + row)[..|row|] == [c] + pre;
      RowTotalCons(c, pre);
    }
  }

  /**
   * Writing a value into a row of values that are not negative adds at
   * most that value to the row's sum: an overwritten value is dropped.
   */
  lemma {:induction false} RowTotalPut(row: seq<Cell>, k: string, v: real)
    requires DistinctDams(row)
    requires forall c :: c in row ==> c.value >= 0.0
    ensures RowTotal(Put(row, k, v)) <= RowTotal(row) + v
  {
    if row == [] {
      assert RowTotal([Cell(k, v)]) == RowTotal([]) + v;
    } else if row[0].clavesih == k {
      RowTotalCons(Cell(k, v), row[1..]);
      RowTotalCons(row[0], row[1..]);
      assert [row[0]] + row[1..] == row;
    } else {
      assert DistinctDams(row[1..]) by {
        forall i, j | 0 <= i < j < |row[1..]| ensures row[1..][i].clavesih != row[1..][j].clavesih {
          assert row[1..][i] == row[i + 1] && row[1..][j] == row[j + 1];
        }
      }
      RowTotalPut(row[1..], k, v);
      RowTotalCons(row[0], Put(row[1..], k, v));
      RowTotalCons(row[0], row[1..]);
      assert [row[0]] + row[1..] == row;
    }
  }

  /** The sum of `almacenaactual` over every reading of date `d`, repeated readings included. */
  function DayStored(rs: seq<Reading>, d: Date): real {
    if rs == [] then 0.0
    else
      var x := rs[|rs| - 1];
      DayStored(rs[..|rs| - 1], d) + (if x.fechamonitoreo == d then x.almacenaactual else 0.0)
  }

  /**
   * With volumes that are not negative, the pivot row of a day sums to at
   * most the day's stored volumes: the last reading of each dam is kept and
   * the earlier readings of the same dam are dropped.
   */
  lemma {:induction false} PivotRowAtMostDayStored(rs: seq<Reading>, d: Date)
    requires forall i :: 0 <= i < |rs| ==> rs[i].almacenaactual >= 0.0
    ensures forall c :: c in PivotRow(rs, d) ==> c.value >= 0.0
    ensures 0.0 <= RowTotal(PivotRow(rs, d)) <= DayStored(rs, d)
  {
    if rs == [] {
    } else {
      var pre, x := rs[..|rs| - 1], rs[|rs| - 1];
      PivotRowAtMostDayStored(pre, d);
      var row := PivotRow(pre, d);
      if x.fechamonitoreo == d {
        RowTotalPut(row, x.clavesih, x.almacenaactual);
      }
      RowTotalNonNegative(PivotRow(rs, d));
    }
  }

  lemma {:induction false} RowTotalNonNegative(row: seq<Cell>)
    requires forall c :: c in row ==> c.value >= 0.0
    ensures RowTotal(row) >= 0.0
  {
    if row != [] {
      assert forall c :: c in row[..|row| - 1] ==> c in row;
      RowTotalNonNegative(row[..|row| - 1]);
    }
  }

  predicate StrictlyIncreasing(ds: seq<Date>) {
    forall i, j :: 0 <= i < j < |ds| ==> Before(ds[i], ds[j])
  }

  /** Inserts `d` into an increasing list of dates, unless it is there already. */
  function InsertDate(ds: seq<Date>, d: Date): (r: seq<Date>)
    requires StrictlyIncreasing(ds)
    ensures StrictlyIncreasing(r)
    ensures forall x :: x in r <==> x in ds || x == d
  {
    if ds == [] then [d]
    else if d == ds[0] then ds
    else if Before(d, ds[0]) then [d] + ds
    else
      assert Before(ds[0], d);
      assert forall x :: x in ds[1..] ==> Before(ds[0], x);
      [ds[0]] + InsertDate(ds[1..], d)
  }

  /** Some reading of `rs` was taken on `d`. */
  predicate ReadOn(rs: seq<Reading>, d: Date) {
    exists j :: 0 <= j < |rs| && rs[j].fechamonitoreo == d
  }

  /** The pivot's index: the distinct monitoring dates of `rs`, sorted. */
  function IndexDates(rs: seq<Reading>): (ds: seq<Date>)
    ensures StrictlyIncreasing(ds)
    ensures forall x :: x in ds <==> ReadOn(rs, x)
  {
    if rs == [] then []
    else
      var r := InsertDate(IndexDates(rs[..|rs| - 1]), rs[|rs| - 1].fechamonitoreo);
      assert forall i :: 0 <= i < |rs| - 1 ==> rs[..|rs| - 1][i] == rs[i];
      r
  }

  predicate Chronological(s: seq<DayTotal>) {
    forall i, j :: 0 <= i < j < |s| ==> Before(s[i].fecha, s[j].fecha)
  }

  /** The series has a point on `d`. */
  predicate HasDay(s: seq<DayTotal>, d: Date) {
    exists i :: 0 <= i < |s| && s[i].fecha == d
  }

  /**
   * `df["total"] = df.sum(axis=1)` on the pivot: one point per monitoring
   * date, in increasing date order, valued at the sum of the pivot row.
   */
  function DailyTotals(rs: seq<Reading>): (s: seq<DayTotal>)
    ensures Chronological(s)
    ensures forall d :: HasDay(s, d) <==> ReadOn(rs, d)
    ensures forall i :: 0 <= i < |s| ==> s[i].total == RowTotal(PivotRow(rs, s[i].fecha))
  {
    var ds := IndexDates(rs);
    var s := seq(|ds|, i requires 0 <= i < |ds| => DayTotal(ds[i], RowTotal(PivotRow(rs, ds[i]))));
    forall d | d in ds
      ensures HasDay(s, d)
    {
      var i :| 0 <= i < |ds| && ds[i] == d;
      assert s[i].fecha == d;
    }
    s
  }
}
