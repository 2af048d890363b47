/**
 * The monthly open/high/low/close step shared by the two candle scripts for
 * chosen dams: for every year of `range(2010, 2025)` and every month
 * `1..12`, the month's daily totals give one candle dated the 1st of the
 * month; a month without readings makes `iloc[0]` raise, and the `except`
 * swallows it, so that month has no candle. The percentage chart divides
 * every price of every candle by the NAMO and multiplies by 100.
 */
module Candles {
  import opened Wrappers
  import opened Calendar
  import opened Pivot

  /** The candle loop covers the years `FirstYear <= year < EndYear`. */
  const FirstYear: int := 2010
  const EndYear: int := 2025

  /** One record of `data`: the month's date and its four prices. */
  datatype Candle = Candle(fecha: Date, open: real, close: real, high: real, low: real)

  predicate InMonth(d: Date, y: int, m: int) {
    d.year == y && d.month == m
  }

  /**
   * `temp_df["total"]`: the daily totals that fall in month `m` of year `y`,
   * in series order. Every value is the total of a point of that month, and
   * every point of that month contributes its total.
   */
  function MonthTotals(s: seq<DayTotal>, y: int, m: int): (vs: seq<real>)
    ensures |vs| <= |s|
    ensures forall v :: v in vs ==> exists i :: 0 <= i < |s| && InMonth(s[i].fecha, y, m) && s[i].total == v
    ensures forall i :: 0 <= i < |s| && InMonth(s[i].fecha, y, m) ==> s[i].total in vs
  {
    if s == [] then []
    else
      var rest := MonthTotals(s[1..], y, m);
      assert forall i :: 0 < i < |s| ==> s[i] == s[1..][i - 1];
      (if InMonth(s[0].fecha, y, m) then [s[0].total] else []) + rest
  }

  /** `series.max()` of a non-empty series. */
  function Max(vs: seq<real>): real
    requires vs != []
  {
    if |vs| == 1 then vs[0]
    else
      var m := Max(vs[1..]);
      if vs[0] >= m then vs[0] else m
  }

  /** `series.min()` of a non-empty series. */
  function Min(vs: seq<real>): real
    requires vs != []
  {
    if |vs| == 1 then vs[0]
    else
      var m := Min(vs[1..]);
      if vs[0] <= m then vs[0] else m
  }

  /** The maximum is one of the values and no value exceeds it. */
  lemma {:induction false} MaxIsGreatest(vs: seq<real>)
    requires vs != []
    ensures Max(vs) in vs
    ensures forall v :: v in vs ==> v <= Max(vs)
  {
    if |vs| > 1 {
      MaxIsGreatest(vs[1..]);
      assert forall v :: v in vs ==> v == vs[0] || v in vs[1..];
    }
  }

  /** The minimum is one of the values and no value is below it. */
  lemma {:induction false} MinIsLeast(vs: seq<real>)
    requires vs != []
    ensures Min(vs) in vs
    ensures forall v :: v in vs ==> Min(vs) <= v
  {
    if |vs| > 1 {
      MinIsLeast(vs[1..]);
      assert forall v :: v in vs ==> v == vs[0] || v in vs[1..];
    }
  }

  /** `series.iloc[0]`, which raises `IndexError` on an empty series. */
  function First(vs: seq<real>): (r: Result<real>)
    ensures r.Ok? <==> vs != []
    ensures r.Ok? ==> r.value == vs[0]
    ensures r.Err? ==> r.error == IndexError
  {
    if vs == [] then Err(IndexError) else Ok(vs[0])
  }

  /**
   * The body of the `try`: the candle of month `m` of year `y`, or the
   * `IndexError` that `iloc[0]` raises when the month has no readings.
   */
  function MonthCandle(s: seq<DayTotal>, y: int, m: int): (r: Result<Candle>)
    ensures r.Ok? <==> MonthTotals(s, y, m) != []
    ensures r.Err? ==> r.error == IndexError
    ensures r.Ok? ==> r.value.fecha == Date(y, m, 1)
    ensures r.Ok? ==> r.value.low <= r.value.open <= r.value.high
    ensures r.Ok? ==> r.value.low <= r.value.close <= r.value.high
  {
    var vs := MonthTotals(s, y, m);
    match First(vs)
    case Err(e) => Err(e)
    case Ok(open) =>
      assert vs[0] in vs && vs[|vs| - 1] in vs;
      MaxIsGreatest(vs);
      MinIsLeast(vs);
      Ok(Candle(Date(y, m, 1), open, vs[|vs| - 1], Max(vs), Min(vs)))
  }

  /** What one iteration appends to `data`: the candle, or nothing when the exception is swallowed. */
  function Emitted(r: Result<Candle>): seq<Candle> {
    if r.Ok? then [r.value] else []
  }

  /** Month `m1` of year `y1` comes before month `m2` of year `y2`. */
  predicate MonthBefore(y1: int, m1: int, y2: int, m2: int) {
    y1 < y2 || (y1 == y2 && m1 < m2)
  }

  /**
   * What `data` holds when the loop reaches month `m` of year `y`: the
   * candles of every earlier month the loop visited. Month 13 stands for the
   * end of the year's inner loop.
   */
  function CandlesUntil(s: seq<DayTotal>, y: int, m: int): seq<Candle>
    requires FirstYear <= y && 1 <= m <= 13
    decreases y - FirstYear, m
  {
    if m == 1 then (if y == FirstYear then [] else CandlesUntil(s, y - 1, 13))
    else CandlesUntil(s, y, m - 1) + Emitted(MonthCandle(s, y, m - 1))
  }

  /** The whole `data` list of the candle scripts. */
  function MonthlyCandlesOf(s: seq<DayTotal>): (cs: seq<Candle>)
    ensures |cs| <= 180
    ensures CandlesChronological(cs)
  {
    CandlesUntilSize(s, EndYear, 1);
    CandlesUntilChronological(s, EndYear, 1);
    CandlesUntil(s, EndYear, 1)
  }

  /** The nested `for year / for month` loop with its `try`/`except`. */
  method MonthlyCandles(s: seq<DayTotal>) returns (data: seq<Candle>)
    ensures data == MonthlyCandlesOf(s)
  {
    data := [];
    var year := FirstYear;
    while year < EndYear
      invariant FirstYear <= year <= EndYear
      invariant data == CandlesUntil(s, year, 1)
    {
      var month := 1;
      while month < 13
        invariant 1 <= month <= 13
        invariant data == CandlesUntil(s, year, month)
      {
        var attempt := MonthCandle(s, year, month);
        ghost var before := data;
        if attempt.Ok? {
          data := data + [attempt.value];
        } // otherwise the exception is swallowed: no record for this month
        CandlesUntilStep(s, year, month, before, data);
        month := month + 1;
      }
      year := year + 1;
    }
  }

  /** One iteration of the inner loop appends what the month's `try` produces. */
  lemma CandlesUntilStep(s: seq<DayTotal>, y: int, m: int, before: seq<Candle>, after: seq<Candle>)
    requires FirstYear <= y && 1 <= m <= 12
    requires before == CandlesUntil(s, y, m)
    requires after == (if MonthCandle(s, y, m).Ok? then before + [MonthCandle(s, y, m).value] else before)
    ensures after == CandlesUntil(s, y, m + 1)
  {
    var r := MonthCandle(s, y, m);
    if r.Ok? {
      assert Emitted(r) == [r.value];
    } else {
      assert Emitted(r) == [];
    }
  }

  /** After month `m` the loop holds one more candle, that month's, or the same ones. */
  lemma AppendedOrSkipped(s: seq<DayTotal>, y: int, m: int)
    requires FirstYear <= y && 1 <= m <= 12
    ensures forall c :: c in CandlesUntil(s, y, m + 1) <==>
      c in CandlesUntil(s, y, m) || MonthCandle(s, y, m) == Ok(c)
  {
    var r := MonthCandle(s, y, m);
    if r.Ok? {
      assert CandlesUntil(s, y, m + 1) == CandlesUntil(s, y, m) + [r.value];
    } else {
      assert CandlesUntil(s, y, m + 1) == CandlesUntil(s, y, m);
    }
  }

  predicate CandlesChronological(cs: seq<Candle>) {
    forall i, j :: 0 <= i < j < |cs| ==> Before(cs[i].fecha, cs[j].fecha)
  }

  /**
   * Every candle the loop has emitted before month `m` of year `y` is dated
   * the 1st of an earlier month of the covered years.
   */
  lemma {:induction false} CandlesUntilDates(s: seq<DayTotal>, y: int, m: int)
    requires FirstYear <= y && 1 <= m <= 13
    ensures forall c :: c in CandlesUntil(s, y, m) ==>
      FirstYear <= c.fecha.year && 1 <= c.fecha.month <= 12 && c.fecha.day == 1
      && MonthBefore(c.fecha.year, c.fecha.month, y, m)
    decreases y - FirstYear, m
  {
    if m == 1 && y > FirstYear {
      CandlesUntilDates(s, y - 1, 13);
    } else if m > 1 {
      CandlesUntilDates(s, y, m - 1);
      AppendedOrSkipped(s, y, m - 1);
    } else {
      assert CandlesUntil(s, y, m) == [];
    }
  }

  /** A candle the loop emitted, for the month it was emitted in. */
  predicate EmittedFor(s: seq<DayTotal>, c: Candle) {
    MonthCandle(s, c.fecha.year, c.fecha.month) == Ok(c)
  }

  /** Every candle the loop has emitted is the candle of its own month. */
  lemma {:induction false} CandlesUntilMembers(s: seq<DayTotal>, y: int, m: int)
    requires FirstYear <= y && 1 <= m <= 13
    ensures forall c {:trigger c in CandlesUntil(s, y, m)} :: c in CandlesUntil(s, y, m) ==> EmittedFor(s, c)
    decreases y - FirstYear, m
  {
    if m == 1 && y > FirstYear {
      CandlesUntilMembers(s, y - 1, 13);
    } else if m > 1 {
      CandlesUntilMembers(s, y, m - 1);
      MembersStep(s, y, m - 1);
    } else {
      assert CandlesUntil(s, y, m) == [];
    }
  }

  lemma MembersStep(s: seq<DayTotal>, y: int, m: int)
    requires FirstYear <= y && 1 <= m <= 12
    requires forall c {:trigger c in CandlesUntil(s, y, m)} :: c in CandlesUntil(s, y, m) ==> EmittedFor(s, c)
    ensures forall c {:trigger c in CandlesUntil(s, y, m + 1)} :: c in CandlesUntil(s, y, m + 1) ==> EmittedFor(s, c)
  {
    AppendedOrSkipped(s, y, m);
    var r := MonthCandle(s, y, m);
    if r.Ok? {
      assert EmittedFor(s, r.value);
    }
  }

  /** At most one candle per month the loop has visited. */
  lemma {:induction false} CandlesUntilSize(s: seq<DayTotal>, y: int, m: int)
    requires FirstYear <= y && 1 <= m <= 13
    ensures |CandlesUntil(s, y, m)| <= 12 * (y - FirstYear) + m - 1
    decreases y - FirstYear, m
  {
    if m == 1 && y > FirstYear {
      CandlesUntilSize(s, y - 1, 13);
    } else if m > 1 {
      CandlesUntilSize(s, y, m - 1);
    } else {
      assert CandlesUntil(s, y, m) == [];
    }
  }

  /** The candles emitted before month `m` of year `y` are in date order. */
  lemma {:induction false} CandlesUntilChronological(s: seq<DayTotal>, y: int, m: int)
    requires FirstYear <= y && 1 <= m <= 13
    ensures CandlesChronological(CandlesUntil(s, y, m))
    decreases y - FirstYear, m
  {
    if m == 1 && y > FirstYear {
      CandlesUntilChronological(s, y - 1, 13);
    } else if m > 1 {
      CandlesUntilChronological(s, y, m - 1);
      ChronologicalStep(s, y, m - 1);
    } else {
      assert CandlesUntil(s, y, m) == [];
    }
  }

  /** The candle of month `m` comes after every candle emitted before it. */
  lemma ChronologicalStep(s: seq<DayTotal>, y: int, m: int)
    requires FirstYear <= y && 1 <= m <= 12
    requires CandlesChronological(CandlesUntil(s, y, m))
    ensures CandlesChronological(CandlesUntil(s, y, m + 1))
  {
    CandlesUntilDates(s, y, m);
    var a, r := CandlesUntil(s, y, m), MonthCandle(s, y, m);
    if r.Ok? {
      assert CandlesUntil(s, y, m + 1) == a + [r.value];
      forall x | x in a
        ensures Before(x.fecha, r.value.fecha)
      {
        assert MonthBefore(x.fecha.year, x.fecha.month, y, m) && x.fecha.day == 1;
      }
      AppendChronological(a, r.value);
    } else {
      assert CandlesUntil(s, y, m + 1) == a;
    }
  }

  /** Appending a candle later than all others keeps a run chronological. */
  lemma AppendChronological(a: seq<Candle>, c: Candle)
    requires CandlesChronological(a)
    requires forall x :: x in a ==> Before(x.fecha, c.fecha)
    ensures CandlesChronological(a + [c])
  {
    forall i, j | 0 <= i < j < |a| + 1
      ensures Before((a + [c])[i].fecha, (a + [c])[j].fecha)
    {
      assert (a + [c])[i] == a[i] && a[i] in a;
      if j < |a| {
        assert (a + [c])[j] == a[j];
      }
    }
  }

  /**
   * Every emitted record is the candle of a month of 2010..2024, dated the
   * 1st of that month, and satisfies low <= open, close <= high; there are
   * at most 180 of them and they are in chronological order.
   */
  lemma CandlesWellFormed(s: seq<DayTotal>)
    ensures |MonthlyCandlesOf(s)| <= 180
    ensures CandlesChronological(MonthlyCandlesOf(s))
    ensures forall c :: c in MonthlyCandlesOf(s) ==>
      FirstYear <= c.fecha.year < EndYear && 1 <= c.fecha.month <= 12 && c.fecha.day == 1
      && c.low <= c.open <= c.high && c.low <= c.close <= c.high
  {
    CandlesUntilSize(s, EndYear, 1);
    CandlesUntilChronological(s, EndYear, 1);
    CandlesUntilDates(s, EndYear, 1);
    CandlesUntilMembers(s, EndYear, 1);
  }

  /** Later points of the loop only append: what `data` held earlier it still holds. */
  lemma CandlesUntilIncludes(s: seq<DayTotal>, y: int, m: int, z: int, n: int)
    requires FirstYear <= y <= z && 1 <= m <= 13 && 1 <= n <= 13
    requires y < z || m <= n
    ensures forall c {:trigger c in CandlesUntil(s, y, m)} :: c in CandlesUntil(s, y, m) ==> c in CandlesUntil(s, z, n)
  {
    var early, late := CandlesUntil(s, y, m), CandlesUntil(s, z, n);
    CandlesUntilPrefix(s, y, m, z, n);
    forall c | c in early
      ensures c in late
    {
      var i :| 0 <= i < |early| && early[i] == c;
      assert late[i] == c;
    }
  }

  /** What `data` holds at one point of the loop is a prefix of what it holds at any later point. */
  lemma {:induction false} CandlesUntilPrefix(s: seq<DayTotal>, y: int, m: int, z: int, n: int)
    requires FirstYear <= y <= z && 1 <= m <= 13 && 1 <= n <= 13
    requires y < z || m <= n
    ensures CandlesUntil(s, y, m) <= CandlesUntil(s, z, n)
    decreases z - FirstYear, n
  {
    if y == z && m == n {
    } else if n == 1 {
      CandlesUntilPrefix(s, y, m, z - 1, 13);
      assert CandlesUntil(s, z, n) == CandlesUntil(s, z - 1, 13);
    } else {
      CandlesUntilPrefix(s, y, m, z, n - 1);
      CandlesUntilKeeps(s, z, n);
    }
  }

  /** One more month of the loop keeps what `data` held. */
  lemma CandlesUntilKeeps(s: seq<DayTotal>, z: int, n: int)
    requires FirstYear <= z && 2 <= n <= 13
    ensures CandlesUntil(s, z, n - 1) <= CandlesUntil(s, z, n)
  {
    var e := Emitted(MonthCandle(s, z, n - 1));
    assert CandlesUntil(s, z, n) == CandlesUntil(s, z, n - 1) + e;
  }

  /** A month of the covered years with at least one reading has its candle in the output. */
  lemma NonEmptyMonthEmitted(s: seq<DayTotal>, y: int, m: int)
    requires FirstYear <= y < EndYear && 1 <= m <= 12
    requires MonthTotals(s, y, m) != []
    ensures MonthCandle(s, y, m).value in MonthlyCandlesOf(s)
  {
    MonthEmittedBy(s, y, m, EndYear, 1);
  }

  /** A month's candle stays in `data` at every later point of the loop. */
  lemma MonthEmittedBy(s: seq<DayTotal>, y: int, m: int, z: int, n: int)
    requires FirstYear <= y < z && 1 <= m <= 12 && 1 <= n <= 13
    requires MonthTotals(s, y, m) != []
    ensures MonthCandle(s, y, m).value in CandlesUntil(s, z, n)
  {
    var r := MonthCandle(s, y, m);
    assert CandlesUntil(s, y, m + 1) == CandlesUntil(s, y, m) + [r.value];
    assert r.value in CandlesUntil(s, y, m + 1);
    CandlesUntilIncludes(s, y, m + 1, z, n);
  }

  /** A month without readings has no record: the swallowed exception leaves `data` unchanged. */
  lemma EmptyMonthSkipped(s: seq<DayTotal>, y: int, m: int)
    requires MonthTotals(s, y, m) == []
    ensures forall c :: c in MonthlyCandlesOf(s) ==> c.fecha != Date(y, m, 1)
  {
    CandlesUntilMembers(s, EndYear, 1);
  }

  /** The month's totals are the totals of the series points dated in that month, in order. */
  lemma {:induction false} MonthTotalsFirst(s: seq<DayTotal>, y: int, m: int)
    requires MonthTotals(s, y, m) != []
    ensures exists i :: (0 <= i < |s| && InMonth(s[i].fecha, y, m)
      && MonthTotals(s, y, m)[0] == s[i].total
      && forall j :: 0 <= j < i ==> !InMonth(s[j].fecha, y, m))
  {
    if !InMonth(s[0].fecha, y, m) {
      MonthTotalsFirst(s[1..], y, m);
      var i :| 0 <= i < |s[1..]| && InMonth(s[1..][i].fecha, y, m)
        && MonthTotals(s[1..], y, m)[0] == s[1..][i].total
        && forall j :: 0 <= j < i ==> !InMonth(s[1..][j].fecha, y, m);
      assert forall j :: 0 <= j < i + 1 ==> !InMonth(s[j].fecha, y, m) by {
        forall j | 0 <= j < i + 1 ensures !InMonth(s[j].fecha, y, m) {
          if j > 0 { assert s[j] == s[1..][j - 1]; }
        }
      }
      assert InMonth(s[i + 1].fecha, y, m);
    } else {
      assert InMonth(s[0].fecha, y, m);
    }
  }

  lemma {:induction false} MonthTotalsLast(s: seq<DayTotal>, y: int, m: int)
    requires MonthTotals(s, y, m) != []
    ensures exists i :: (0 <= i < |s| && InMonth(s[i].fecha, y, m)
      && MonthTotals(s, y, m)[|MonthTotals(s, y, m)| - 1] == s[i].total
      && forall j :: i < j < |s| ==> !InMonth(s[j].fecha, y, m))
  {
    if MonthTotals(s[1..], y, m) == [] {
      LastIsHead(s, y, m);
    } else {
      MonthTotalsLast(s[1..], y, m);
      var i :| 0 <= i < |s[1..]| && InMonth(s[1..][i].fecha, y, m)
        && MonthTotals(s[1..], y, m)[|MonthTotals(s[1..], y, m)| - 1] == s[1..][i].total
        && forall j :: i < j < |s[1..]| ==> !InMonth(s[1..][j].fecha, y, m);
      LastIsInTail(s, y, m, i);
    }
  }

  /** The month's last total is the first point's when no later point is in the month. */
  lemma LastIsHead(s: seq<DayTotal>, y: int, m: int)
    requires MonthTotals(s, y, m) != [] && MonthTotals(s[1..], y, m) == []
    ensures InMonth(s[0].fecha, y, m)
      && MonthTotals(s, y, m)[|MonthTotals(s, y, m)| - 1] == s[0].total
      && forall j :: 0 < j < |s| ==> !InMonth(s[j].fecha, y, m)
  {
    MonthTotalsEmpty(s[1..], y, m);
    forall j | 0 < j < |s| ensures !InMonth(s[j].fecha, y, m) {
      assert s[j] == s[1..][j - 1];
    }
  }

  /** The month's last total found in the tail, at tail index `i`, is the last one of the whole series. */
  lemma LastIsInTail(s: seq<DayTotal>, y: int, m: int, i: int)
    requires s != [] && MonthTotals(s[1..], y, m) != []
    requires 0 <= i < |s[1..]| && InMonth(s[1..][i].fecha, y, m)
    requires MonthTotals(s[1..], y, m)[|MonthTotals(s[1..], y, m)| - 1] == s[1..][i].total
    requires forall j :: i < j < |s[1..]| ==> !InMonth(s[1..][j].fecha, y, m)
    ensures InMonth(s[i + 1].fecha, y, m)
      && MonthTotals(s, y, m)[|MonthTotals(s, y, m)| - 1] == s[i + 1].total
      && forall j :: i + 1 < j < |s| ==> !InMonth(s[j].fecha, y, m)
  {
    var vs, rest := MonthTotals(s, y, m), MonthTotals(s[1..], y, m);
    assert vs == (if InMonth(s[0].fecha, y, m) then [s[0].total] else []) + rest;
    assert vs[|vs| - 1] == rest[|rest| - 1];
    assert s[i + 1] == s[1..][i];
    forall j | i + 1 < j < |s| ensures !InMonth(s[j].fecha, y, m) {
      assert s[j] == s[1..][j - 1];
    }
  }

  /** A series without points in the month gives no totals for it, and conversely. */
  lemma {:induction false} MonthTotalsEmpty(s: seq<DayTotal>, y: int, m: int)
    ensures MonthTotals(s, y, m) == [] <==> forall j :: 0 <= j < |s| ==> !InMonth(s[j].fecha, y, m)
  {
    if s != [] {
      MonthTotalsEmpty(s[1..], y, m);
      assert forall j :: 0 < j < |s| ==> s[j] == s[1..][j - 1];
    }
  }

  /**
   * The record of a month is that month's open/high/low/close: over a
   * chronological series, open is the total of the earliest day of the
   * month, close that of the latest, high and low the largest and smallest
   * total of the month.
   */
  lemma CandleIsMonthOhlc(s: seq<DayTotal>, c: Candle)
    requires Chronological(s)
    requires c in MonthlyCandlesOf(s)
    ensures exists i :: (0 <= i < |s| && InMonth(s[i].fecha, c.fecha.year, c.fecha.month)
      && c.open == s[i].total
      && forall j :: 0 <= j < |s| && j != i && InMonth(s[j].fecha, c.fecha.year, c.fecha.month) ==> Before(s[i].fecha, s[j].fecha))
    ensures exists i :: (0 <= i < |s| && InMonth(s[i].fecha, c.fecha.year, c.fecha.month)
      && c.close == s[i].total
      && forall j :: 0 <= j < |s| && j != i && InMonth(s[j].fecha, c.fecha.year, c.fecha.month) ==> Before(s[j].fecha, s[i].fecha))
    ensures forall i :: 0 <= i < |s| && InMonth(s[i].fecha, c.fecha.year, c.fecha.month) ==>
      c.low <= s[i].total <= c.high
    ensures exists i :: 0 <= i < |s| && InMonth(s[i].fecha, c.fecha.year, c.fecha.month) && s[i].total == c.high
    ensures exists i :: 0 <= i < |s| && InMonth(s[i].fecha, c.fecha.year, c.fecha.month) && s[i].total == c.low
  {
    CandlesUntilMembers(s, EndYear, 1);
    var y, m := c.fecha.year, c.fecha.month;
    var vs := MonthTotals(s, y, m);
    assert c == Candle(Date(y, m, 1), vs[0], vs[|vs| - 1], Max(vs), Min(vs));
    MaxIsGreatest(vs);
    MinIsLeast(vs);
    MonthTotalsFirst(s, y, m);
    MonthTotalsLast(s, y, m);
  }

  /** The candle series restricted to the covered years. */
  function KeepCoveredYears(s: seq<DayTotal>): (r: seq<DayTotal>)
    ensures forall i :: 0 <= i < |r| ==> FirstYear <= r[i].fecha.year < EndYear
  {
    if s == [] then []
    else
      var rest := KeepCoveredYears(s[1..]);
      if FirstYear <= s[0].fecha.year < EndYear then [s[0]] + rest else rest
  }

  lemma {:induction false} KeepCoveredYearsMonth(s: seq<DayTotal>, y: int, m: int)
    requires FirstYear <= y < EndYear
    ensures MonthTotals(KeepCoveredYears(s), y, m) == MonthTotals(s, y, m)
  {
    if s != [] {
      KeepCoveredYearsMonth(s[1..], y, m);
      var rest := KeepCoveredYears(s[1..]);
      if FirstYear <= s[0].fecha.year < EndYear {
        assert ([s[0]] + rest)[1..] == rest;
      }
    }
  }

  /** Two series with the same totals in every month the loop visited give the same candles. */
  lemma {:induction false} SameMonthsSameCandles(s: seq<DayTotal>, t: seq<DayTotal>, y: int, m: int)
    requires FirstYear <= y && 1 <= m <= 13
    requires forall y', m' :: FirstYear <= y' && 1 <= m' <= 12 && MonthBefore(y', m', y, m) ==>
      MonthTotals(s, y', m') == MonthTotals(t, y', m')
    ensures CandlesUntil(s, y, m) == CandlesUntil(t, y, m)
    decreases y - FirstYear, m
  {
    if m == 1 && y > FirstYear {
      SameMonthsSameCandles(s, t, y - 1, 13);
    } else if m > 1 {
      SameMonthsSameCandles(s, t, y, m - 1);
      SameMonthSameStep(s, t, y, m - 1);
    } else {
      assert CandlesUntil(s, y, m) == [] && CandlesUntil(t, y, m) == [];
    }
  }

  lemma SameMonthSameStep(s: seq<DayTotal>, t: seq<DayTotal>, y: int, m: int)
    requires FirstYear <= y && 1 <= m <= 12
    requires CandlesUntil(s, y, m) == CandlesUntil(t, y, m)
    requires MonthTotals(s, y, m) == MonthTotals(t, y, m)
    ensures CandlesUntil(s, y, m + 1) == CandlesUntil(t, y, m + 1)
  {
    assert MonthCandle(s, y, m) == MonthCandle(t, y, m);
  }

  /** Points outside 2010..2024 never affect the output. */
  lemma OtherYearsIgnored(s: seq<DayTotal>)
    ensures MonthlyCandlesOf(KeepCoveredYears(s)) == MonthlyCandlesOf(s)
  {
    forall y, m | FirstYear <= y && 1 <= m <= 12 && MonthBefore(y, m, EndYear, 1)
      ensures MonthTotals(KeepCoveredYears(s), y, m) == MonthTotals(s, y, m)
    {
      KeepCoveredYearsMonth(s, y, m);
    }
    SameMonthsSameCandles(KeepCoveredYears(s), s, EndYear, 1);
  }

  /** `x / namo * 100`. */
  function Percent(x: real, namo: real): real
    requires namo != 0.0
  {
    x / namo * 100.0
  }

  lemma PercentMonotone(a: real, b: real, namo: real)
    requires namo > 0.0 && a <= b
    ensures Percent(a, namo) <= Percent(b, namo)
  {
    assert b / namo - a / namo == (b - a) / namo;
  }

  /** A part of a positive whole is between 0 and 100 percent of it. */
  lemma PercentOfPart(t: real, n: real)
    requires 0.0 <= t <= n && n != 0.0
    ensures 0.0 <= Percent(t, n) <= 100.0
  {
    assert t / n <= 1.0 by {
      assert t / n * n == t;
    }
  }

  /** Percent undoes itself: scaling back by NAMO / 100 gives the volume. */
  lemma PercentInverse(x: real, namo: real)
    requires namo != 0.0
    ensures Percent(x, namo) * namo / 100.0 == x
  {
  }

  function ScaleCandle(c: Candle, namo: real): Candle
    requires namo != 0.0
  {
    Candle(c.fecha, Percent(c.open, namo), Percent(c.close, namo), Percent(c.high, namo), Percent(c.low, namo))
  }

  /**
   * `final / namo * 100` on the whole frame of candles: every price divided
   * by the NAMO and multiplied by 100, the dates unchanged. A zero NAMO
   * (a float division giving inf or NaN) is reported as `ZeroNamo`.
   */
  function ScaleCandles(cs: seq<Candle>, namo: real): (r: Result<seq<Candle>>)
    ensures r.Err? <==> namo == 0.0
    ensures r.Ok? ==> |r.value| == |cs|
    ensures r.Ok? ==> forall i :: 0 <= i < |cs| ==> (r.value[i].fecha == cs[i].fecha
      && r.value[i].open * namo == cs[i].open * 100.0 && r.value[i].close * namo == cs[i].close * 100.0
      && r.value[i].high * namo == cs[i].high * 100.0 && r.value[i].low * namo == cs[i].low * 100.0)
  {
    if namo == 0.0 then Err(ZeroNamo)
    else Ok(seq(|cs|, i requires 0 <= i < |cs| => ScaleCandle(cs[i], namo)))
  }

  /** With a positive NAMO the percentage candles keep low <= open, close <= high. */
  lemma ScalePreservesOrder(cs: seq<Candle>, namo: real)
    requires namo > 0.0
    requires forall c :: c in cs ==> c.low <= c.open <= c.high && c.low <= c.close <= c.high
    ensures forall c :: c in ScaleCandles(cs, namo).value ==>
      c.low <= c.open <= c.high && c.low <= c.close <= c.high
  {
    var r := ScaleCandles(cs, namo).value;
    forall i | 0 <= i < |cs|
      ensures r[i].low <= r[i].open <= r[i].high && r[i].low <= r[i].close <= r[i].high
    {
      assert cs[i] in cs;
      PercentMonotone(cs[i].low, cs[i].open, namo);
      PercentMonotone(cs[i].open, cs[i].high, namo);
      PercentMonotone(cs[i].low, cs[i].close, namo);
      PercentMonotone(cs[i].close, cs[i].high, namo);
    }
  }
}
