/**
 * `velas_multiple.py`: the candle report for a group of dams. The catalogue
 * gives the summed NAMO and the list of common names; the yearly files give
 * the readings of the chosen dams, whose daily totals become monthly
 * candles, once in hm3 and once as a percentage of the summed NAMO.
 */
module VelasMultiple {
  import opened Wrappers
  import opened Text
  import opened Calendar
  import opened Readings
  import opened Pivot
  import opened Candles

  /** Every row has a common name. */
  predicate AllNamed(cat: seq<CatalogEntry>) {
    forall i :: 0 <= i < |cat| ==> cat[i].nombrecomun.Some?
  }

  /** `"• " + catalogo["nombrecomun"]`: one bullet line per catalogue row. */
  function Bullets(cat: seq<CatalogEntry>): seq<string>
    requires AllNamed(cat)
  {
    seq(|cat|, i requires 0 <= i < |cat| => "• " + cat[i].nombrecomun.value)
  }

  /**
   * `"<br>".join("• " + catalogo["nombrecomun"])`: it opens with the bullet
   * of the first chosen dam and closes with that of the last. A missing name
   * makes its bullet NaN, which `join` refuses with a `TypeError`.
   */
  function NamesLabel(cat: seq<CatalogEntry>): (r: Result<string>)
    ensures r.Ok? <==> AllNamed(cat)
    ensures r.Err? ==> r.error == TypeError
    ensures r.Ok? && cat != [] ==> "• " + cat[0].nombrecomun.value <= r.value
    ensures r.Ok? && cat != [] ==>
      var last := "• " + cat[|cat| - 1].nombrecomun.value;
      |last| <= |r.value| && r.value[|r.value| - |last|..] == last
  {
    if !AllNamed(cat) then Err(TypeError)
    else if cat != [] then
      JoinEnds("<br>", Bullets(cat));
      Ok(Join("<br>", Bullets(cat)))
    else Ok(Join("<br>", Bullets(cat)))
  }

  /**
   * The names label lists the dams in catalogue order: cut at its line
   * breaks it gives back, line by line, "• " and each common name, as long
   * as no name holds a '<'.
   */
  lemma NamesLabelLines(cat: seq<CatalogEntry>)
    requires cat != []
    requires forall e :: e in cat && e.nombrecomun.Some? ==> '<' !in e.nombrecomun.value
    ensures NamesLabel(cat).Ok? ==> |Split(NamesLabel(cat).value, "<br>")| == |cat|
    ensures NamesLabel(cat).Ok? ==> forall i :: 0 <= i < |cat| ==>
      Split(NamesLabel(cat).value, "<br>")[i] == "• " + cat[i].nombrecomun.value
  {
    if AllNamed(cat) {
      var b := Bullets(cat);
      forall k | 0 <= k < |b|
        ensures '<' !in b[k]
      {
        assert cat[k] in cat;
      }
      SplitJoin("<br>", b);
    }
  }

  /**
   * What the script draws: the NAMO and names of the title and note, and the
   * two candle series. The percentage series is `ScaleCandles` of the hm3
   * one: `Err(ZeroNamo)` stands for the chart of infinite or NaN values a
   * zero NAMO draws.
   */
  datatype Report = Report(namo: real, nombres: string, volumen: seq<Candle>, porcentaje: Result<seq<Candle>>)

  /**
   * `main(titulo, *presas)` with `plot_candle` and `plot_candle_perc`: the
   * catalogue rows of the chosen dams give the NAMO and the names (a dam
   * without a common name stops the script here, before any file is read); the
   * readings of those dams in every file become the candles. An empty file
   * listing fails in `pd.concat`; no reading in any month of 2010..2024
   * leaves `data` empty, and `pd.DataFrame.from_records(data, index="fecha")`
   * finds no "fecha" column. A zero NAMO does not stop the script.
   */
  method BuildReport(catalogo: seq<CatalogEntry>, files: seq<seq<Reading>>, presas: seq<string>)
    returns (r: Result<Report>)
    ensures !AllNamed(SelectCatalogue(catalogo, presas)) ==> r == Err(TypeError)
    ensures AllNamed(SelectCatalogue(catalogo, presas)) && files == [] ==> r == Err(ValueError("No objects to concatenate"))
    ensures AllNamed(SelectCatalogue(catalogo, presas)) && files != [] ==>
      (r.Err? <==> MonthlyCandlesOf(DailyTotals(SelectDams(Concat(files), presas))) == [])
    ensures AllNamed(SelectCatalogue(catalogo, presas)) && files != [] && r.Err? ==> r.error == KeyError("fecha")
    ensures r.Ok? ==> r.value.namo == CatalogueNamo(SelectCatalogue(catalogo, presas))
    ensures r.Ok? ==> NamesLabel(SelectCatalogue(catalogo, presas)) == Ok(r.value.nombres)
    ensures r.Ok? ==> r.value.volumen == MonthlyCandlesOf(DailyTotals(SelectDams(Concat(files), presas)))
    ensures r.Ok? ==> r.value.porcentaje == ScaleCandles(r.value.volumen, r.value.namo)
  {
    var seleccion := SelectCatalogue(catalogo, presas);
    var namo := CatalogueNamo(seleccion);
    var nombres := NamesLabel(seleccion);
    if nombres.Err? {
      return Err(nombres.error);
    }
    var completo := LoadSelected(files, InPresas(presas));
    if completo.Err? {
      return Err(completo.error);
    }
    var volumen := MonthlyCandles(DailyTotals(completo.value));
    if volumen == [] {
      return Err(KeyError("fecha"));
    }
    return Ok(Report(namo, nombres.value, volumen, ScaleCandles(volumen, namo)));
  }

  /**
   * Only the chosen dams enter the series: every column of every day's pivot
   * row is a requested dam that some file read on that day.
   */
  lemma OnlyChosenDams(files: seq<seq<Reading>>, presas: seq<string>, d: Date)
    ensures forall c :: c in PivotRow(SelectDams(Concat(files), presas), d) ==>
      c.clavesih in presas
      && exists i, x :: 0 <= i < |files| && x in files[i] && x.fechamonitoreo == d && x.clavesih == c.clavesih
  {
    var rs := SelectDams(Concat(files), presas);
    PivotRowDamsWereRead(rs, d);
    ConcatMembers(files);
    forall c | c in PivotRow(rs, d)
      ensures c.clavesih in presas
      ensures exists i, x :: 0 <= i < |files| && x in files[i] && x.fechamonitoreo == d && x.clavesih == c.clavesih
    {
      var j :| 0 <= j < |rs| && rs[j].fechamonitoreo == d && rs[j].clavesih == c.clavesih;
      assert rs[j] in rs;
      var i :| 0 <= i < |files| && rs[j] in files[i];
    }
  }

  /**
   * With NAMO values that are not negative and a positive sum, the
   * percentage chart exists and keeps low <= open, close <= high.
   */
  lemma PercentCandlesOrdered(catalogo: seq<CatalogEntry>, files: seq<seq<Reading>>, presas: seq<string>)
    requires forall e :: e in catalogo ==> e.namoalmac >= 0.0
    requires CatalogueNamo(SelectCatalogue(catalogo, presas)) != 0.0
    ensures ScaleCandles(MonthlyCandlesOf(DailyTotals(SelectDams(Concat(files), presas))),
                         CatalogueNamo(SelectCatalogue(catalogo, presas))).Ok?
    ensures forall c :: c in ScaleCandles(MonthlyCandlesOf(DailyTotals(SelectDams(Concat(files), presas))),
                                          CatalogueNamo(SelectCatalogue(catalogo, presas))).value ==>
      c.low <= c.open <= c.high && c.low <= c.close <= c.high
  {
    var seleccion := SelectCatalogue(catalogo, presas);
    CatalogueNamoNonNegative(seleccion);
    var cs := MonthlyCandlesOf(DailyTotals(SelectDams(Concat(files), presas)));
    CandlesWellFormed(DailyTotals(SelectDams(Concat(files), presas)));
    ScalePreservesOrder(cs, CatalogueNamo(seleccion));
  }
}
