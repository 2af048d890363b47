/**
 * `velas_individual.py`: the candle report for one dam. Its NAMO and common
 * name come from the first catalogue row with its id; its readings in the
 * yearly files become monthly candles, in hm3 and as a percentage of the NAMO.
 */
module VelasIndividual {
  import opened Wrappers
  import opened Calendar
  import opened Readings
  import opened Pivot
  import opened Candles

  /**
   * `catalogo[catalogo["clavesih"] == presa_id]` followed by `.iloc[0]`: the
   * first catalogue row of the dam, or the `IndexError` of an unknown id.
   */
  function FirstEntry(cat: seq<CatalogEntry>, presa: string): (r: Result<CatalogEntry>)
    ensures r.Ok? <==> exists e :: e in cat && e.clavesih == presa
    ensures r.Ok? ==> r.value in cat && r.value.clavesih == presa
    ensures r.Err? ==> r.error == IndexError
  {
    if cat == [] then Err(IndexError)
    else if cat[0].clavesih == presa then Ok(cat[0])
    else
      assert forall e :: e in cat ==> e == cat[0] || e in cat[1..];
      FirstEntry(cat[1..], presa)
  }

  /** The row found is the first one of the dam: no earlier row has its id. */
  lemma {:induction false} FirstEntryIsFirst(cat: seq<CatalogEntry>, presa: string)
    requires FirstEntry(cat, presa).Ok?
    ensures exists i :: (0 <= i < |cat| && cat[i] == FirstEntry(cat, presa).value
      && forall j :: 0 <= j < i ==> cat[j].clavesih != presa)
  {
    if cat[0].clavesih != presa {
      FirstEntryIsFirst(cat[1..], presa);
      var i :| 0 <= i < |cat[1..]| && cat[1..][i] == FirstEntry(cat, presa).value
        && forall j :: 0 <= j < i ==> cat[1..][j].clavesih != presa;
      assert cat[i + 1] == cat[1..][i];
      assert forall j :: 1 <= j < i + 1 ==> cat[j] == cat[1..][j - 1];
    } else {
      assert cat[0] == FirstEntry(cat, presa).value;
    }
  }

  /** `df["clavesih"] == presa_id`, as a row predicate. */
  function IsDam(presa: string): Reading -> bool {
    (x: Reading) => x.clavesih == presa
  }

  /**
   * The NAMO and common name of the title (`None` for a dam without one,
   * which the title shows as "nan"), and the two candle series. The
   * percentage series is `ScaleCandles` of the hm3 one: `Err(ZeroNamo)`
   * stands for the chart of infinite or NaN values a zero NAMO draws.
   */
  datatype Report = Report(namo: real, nombre: Option<string>, volumen: seq<Candle>, porcentaje: Result<seq<Candle>>)

  /**
   * `main(presa_id)` with `plot_candle` and `plot_candle_perc`. The
   * catalogue lookup comes first, so an unknown id fails before any file is
   * read; then an empty listing fails in `pd.concat`; then a dam without a
   * reading in any month of 2010..2024 leaves `data` empty, and
   * `pd.DataFrame.from_records(data, index="fecha")` finds no "fecha"
   * column. A zero NAMO does not stop the script: both charts are drawn.
   */
  method BuildReport(catalogo: seq<CatalogEntry>, files: seq<seq<Reading>>, presa: string)
    returns (r: Result<Report>)
    ensures FirstEntry(catalogo, presa).Err? ==> r == Err(IndexError)
    ensures FirstEntry(catalogo, presa).Ok? && files == [] ==> r == Err(ValueError("No objects to concatenate"))
    ensures FirstEntry(catalogo, presa).Ok? && files != [] ==>
      (r.Err? <==> MonthlyCandlesOf(DailyTotals(Filter(Concat(files), IsDam(presa)))) == [])
    ensures FirstEntry(catalogo, presa).Ok? && files != [] && r.Err? ==> r.error == KeyError("fecha")
    ensures r.Ok? ==> FirstEntry(catalogo, presa).Ok?
    ensures r.Ok? ==> r.value.namo == FirstEntry(catalogo, presa).value.namoalmac
    ensures r.Ok? ==> r.value.nombre == FirstEntry(catalogo, presa).value.nombrecomun
    ensures r.Ok? ==> r.value.volumen == MonthlyCandlesOf(DailyTotals(Filter(Concat(files), IsDam(presa))))
    ensures r.Ok? ==> r.value.porcentaje == ScaleCandles(r.value.volumen, r.value.namo)
  {
    var fila := FirstEntry(catalogo, presa);
    if fila.Err? {
      return Err(fila.error);
    }
    var namo := fila.value.namoalmac;
    var nombre := fila.value.nombrecomun;
    var completo := LoadSelected(files, IsDam(presa));
    if completo.Err? {
      return Err(completo.error);
    }
    var volumen := MonthlyCandles(DailyTotals(completo.value));
    if volumen == [] {
      return Err(KeyError("fecha"));
    }
    return Ok(Report(namo, nombre, volumen, ScaleCandles(volumen, namo)));
  }

  /**
   * With one dam, every point of the daily series is that dam's last
   * reading of the day: no other dam can add to the total.
   */
  lemma DailyTotalIsLastReading(rs: seq<Reading>, presa: string)
    requires forall j :: 0 <= j < |rs| ==> rs[j].clavesih == presa
    ensures forall k :: 0 <= k < |DailyTotals(rs)| ==>
      exists i :: IsLastOfDay(rs, DailyTotals(rs)[k].fecha, i) && DailyTotals(rs)[k].total == rs[i].almacenaactual
  {
    var s := DailyTotals(rs);
    forall k | 0 <= k < |s|
      ensures exists i :: IsLastOfDay(rs, s[k].fecha, i) && s[k].total == rs[i].almacenaactual
    {
      var d := s[k].fecha;
      assert HasDay(s, d);
      var j :| 0 <= j < |rs| && rs[j].fechamonitoreo == d;
      PivotRowIsLastReading(rs, d);
      var c :| c in PivotRow(rs, d) && c.clavesih == rs[j].clavesih;
      var i :| IsLastOfDay(rs, d, i) && rs[i].clavesih == c.clavesih && rs[i].almacenaactual == c.value;
      SingleDamTotal(rs, d, presa, i);
    }
  }

  /** The loaded rows are exactly the readings of the dam found in the files. */
  lemma LoadedRowsAreTheDam(files: seq<seq<Reading>>, presa: string)
    ensures forall x :: x in Filter(Concat(files), IsDam(presa)) <==>
      x.clavesih == presa && exists i :: 0 <= i < |files| && x in files[i]
    ensures forall j :: 0 <= j < |Filter(Concat(files), IsDam(presa))| ==>
      Filter(Concat(files), IsDam(presa))[j].clavesih == presa
  {
    ConcatMembers(files);
    var rs := Filter(Concat(files), IsDam(presa));
    assert forall j :: 0 <= j < |rs| ==> rs[j] in rs;
  }

  /**
   * The single-dam percentage candles are each price divided by the dam's
   * NAMO times 100; with a positive NAMO they keep low <= open, close <= high.
   */
  lemma PercentCandlesOrdered(files: seq<seq<Reading>>, namo: real, presa: string)
    requires namo > 0.0
    ensures ScaleCandles(MonthlyCandlesOf(DailyTotals(Filter(Concat(files), IsDam(presa)))), namo).Ok?
    ensures forall c :: c in ScaleCandles(MonthlyCandlesOf(DailyTotals(Filter(Concat(files), IsDam(presa)))), namo).value ==>
      c.low <= c.open <= c.high && c.low <= c.close <= c.high
  {
    var s := DailyTotals(Filter(Concat(files), IsDam(presa)));
    CandlesWellFormed(s);
    ScalePreservesOrder(MonthlyCandlesOf(s), namo);
  }
}
