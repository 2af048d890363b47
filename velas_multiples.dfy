/**
 * `velas_multiples.py`: the candle report for a group of dams or for all
 * the dams of a state, read from the last 15 yearly files. The dams' common
 * names "name, abbreviation" become bullet lines with the state's full name;
 * the series is the daily total of the dams and, for the percentage chart,
 * that total over the day's summed NAMO.
 */
module VelasMultiples {
  import opened Wrappers
  import opened Text
  import opened Calendar
  import opened Readings
  import opened Pivot
  import opened Candles

  /** The state abbreviations of the catalogue's common names and the names shown for them. */
  const Entidades: map<string, string> := map[
    "Ags." := "Aguascalientes",
    "B.C." := "Baja California",
    "Chih." := "Chihuahua",
    "Chis." := "Chiapas",
    "Coah." := "Coahuila",
    "Col." := "Colima",
    "Dgo." := "Durango",
    "Gro." := "Guerrero",
    "Gto." := "Guanajuato",
    "Hgo." := "Hidalgo",
    "Jal." := "Jalisco",
    "Mich." := "Michoacán",
    "Mor." := "Morelos",
    "Méx." := "Edo. de México",
    "N.L." := "Nuevo León",
    "Nay." := "Nayarit",
    "Oax." := "Oaxaca",
    "Pue." := "Puebla",
    "Qro." := "Querétaro",
    "S.L.P." := "San Luis Potosí",
    "Sin." := "Sinaloa",
    "Son." := "Sonora",
    "Tamps." := "Tamaulipas",
    "Tlax." := "Tlaxcala",
    "Ver." := "Veracruz",
    "Zac." := "Zacatecas"
  ]

  /**
   * One bullet line of the note: `nombre, estado = nombre.split(", ")`
   * (an `AttributeError` for a missing name, which is a float NaN; a
   * `ValueError` unless there are exactly two pieces), then
   * `f"• {nombre}, {ENTIDADES[estado.strip()]}"` (a `KeyError` for an
   * abbreviation missing from `entidades`).
   */
  function Label(nombrecomun: Option<string>, entidades: map<string, string>): (r: Result<string>)
    ensures nombrecomun.None? ==> r == Err(AttributeError)
    ensures r.Ok? <==> (nombrecomun.Some? && |Split(nombrecomun.value, ", ")| == 2
                        && Strip(Split(nombrecomun.value, ", ")[1]) in entidades)
    ensures r.Err? && nombrecomun.Some? && |Split(nombrecomun.value, ", ")| == 2 ==>
      r.error == KeyError(Strip(Split(nombrecomun.value, ", ")[1]))
    ensures r.Err? && nombrecomun.Some? && |Split(nombrecomun.value, ", ")| != 2 ==> r.error.ValueError?
  {
    if nombrecomun.None? then Err(AttributeError)
    else
      var parts := Split(nombrecomun.value, ", ");
      if |parts| < 2 then Err(ValueError("not enough values to unpack (expected 2)"))
      else if |parts| > 2 then Err(ValueError("too many values to unpack (expected 2)"))
      else
        var estado := Strip(parts[1]);
        if estado in entidades then Ok("• " + parts[0] + ", " + entidades[estado])
        else Err(KeyError(estado))
  }

  /**
   * A common name written "name, abbreviation", with a name without commas
   * and an abbreviation of the table (which, like every key of
   * `Entidades`, has no comma and no surrounding whitespace), is shown as
   * "• name, full state name".
   */
  lemma LabelOfCommonName(nombre: string, estado: string, entidades: map<string, string>)
    requires ',' !in nombre
    requires estado in entidades && ',' !in estado && IsStripped(estado)
    ensures Label(Some(nombre + ", " + estado), entidades) == Ok("• " + nombre + ", " + entidades[estado])
  {
    assert ", "[0] == ',';
    SplitAtSeparator(nombre, ", ", estado);
    SplitWithoutSeparatorHead(estado, ", ");
    var parts := Split(nombre + ", " + estado, ", ");
    assert parts == [nombre, estado];
    StrippedIsFixpoint(estado);
    assert Strip(parts[1]) == estado;
  }

  /** A name that is not two pieces around ", " stops the script with a `ValueError`. */
  lemma LabelNeedsOneSeparator(nombre: string, entidades: map<string, string>)
    requires ',' !in nombre
    ensures Label(Some(nombre), entidades).Err? && Label(Some(nombre), entidades).error.ValueError?
  {
    SplitWithoutSeparatorHead(nombre, ", ");
  }

  /** The line builder the loop applies to each common name. */
  function Labeler(entidades: map<string, string>): Option<string> -> Result<string> {
    (nombre: Option<string>) => Label(nombre, entidades)
  }

  /** The bullet lines of catalogue rows whose lines can all be built. */
  function LabelLines(cat: seq<CatalogEntry>, toLine: Option<string> -> Result<string>): seq<string>
    requires forall i :: 0 <= i < |cat| ==> toLine(cat[i].nombrecomun).Ok?
  {
    seq(|cat|, i requires 0 <= i < |cat| => toLine(cat[i].nombrecomun).value)
  }

  /** `err` is the error of the first catalogue row whose line cannot be built. */
  predicate FirstFailure(cat: seq<CatalogEntry>, toLine: Option<string> -> Result<string>, err: Error) {
    exists i :: 0 <= i < |cat| && toLine(cat[i].nombrecomun) == Err(err)
      && forall j :: 0 <= j < i ==> toLine(cat[j].nombrecomun).Ok?
  }

  /**
   * `nombres`: the bullet line of every selected catalogue row, in catalogue
   * order, joined with "<br>"; the first row whose line cannot be built
   * stops the script with that row's error.
   */
  method NamesNote(cat: seq<CatalogEntry>, toLine: Option<string> -> Result<string>) returns (r: Result<string>)
    ensures r.Ok? <==> forall i :: 0 <= i < |cat| ==> toLine(cat[i].nombrecomun).Ok?
    ensures r.Ok? ==> r.value == Join("<br>", LabelLines(cat, toLine))
    ensures r.Err? ==> FirstFailure(cat, toLine, r.error)
  {
    var nombres: seq<string> := [];
    for i := 0 to |cat|
      invariant |nombres| == i
      invariant forall j :: 0 <= j < i ==> toLine(cat[j].nombrecomun).Ok? && nombres[j] == toLine(cat[j].nombrecomun).value
    {
      var linea := toLine(cat[i].nombrecomun);
      if linea.Err? {
        return Err(linea.error);
      }
      nombres := nombres + [linea.value];
    }
    assert nombres == LabelLines(cat, toLine);
    r := Ok(Join("<br>", nombres));
  }

  /** `os.listdir("./data")[-15:]`: the last 15 entries of the listing, or all of them when there are fewer. */
  function Last15<T>(listing: seq<T>): (r: seq<T>)
    ensures |r| == if |listing| < 15 then |listing| else 15
    ensures r == listing[|listing| - |r|..]
  {
    if |listing| <= 15 then listing else listing[|listing| - 15..]
  }

  /**
   * `df.groupby(df["fechamonitoreo"]).sum()["namoalmac"]` on date `d`: the
   * NAMO of every reading of that date, repeated readings of a dam included.
   */
  function DayNamo(rs: seq<Reading>, d: Date): (r: real)
    ensures (forall i :: 0 <= i < |rs| ==> rs[i].namoalmac >= 0.0) ==> r >= 0.0
  {
    if rs == [] then 0.0
    else
      var x := rs[|rs| - 1];
      DayNamo(rs[..|rs| - 1], d) + (if x.fechamonitoreo == d then x.namoalmac else 0.0)
  }

  /** A day's stored volumes add up to at most its NAMO when no reading exceeds its NAMO. */
  lemma {:induction false} DayStoredAtMostDayNamo(rs: seq<Reading>, d: Date)
    requires forall i :: 0 <= i < |rs| ==> rs[i].almacenaactual <= rs[i].namoalmac
    ensures DayStored(rs, d) <= DayNamo(rs, d)
  {
    if rs != [] {
      DayStoredAtMostDayNamo(rs[..|rs| - 1], d);
    }
  }

  /** One point of the percentage series; `None` where the day's NAMO sum is zero (a float NaN or inf). */
  datatype DayPercent = DayPercent(fecha: Date, porcentaje: Option<real>)

  /** `total / namo * 100` for one day, with no value for a zero NAMO. */
  function PointPercent(total: real, namo: real): (p: Option<real>)
    ensures p.Some? <==> namo != 0.0
    ensures p.Some? ==> p.value * namo == total * 100.0
  {
    if namo == 0.0 then None else Some(Percent(total, namo))
  }

  /**
   * `df.sum(axis=1) / namo_diario * 100`: each day's pivot total over the
   * summed NAMO of the day's readings, aligned with the daily totals.
   */
  function DailyPercent(rs: seq<Reading>): (ps: seq<DayPercent>)
    ensures |ps| == |DailyTotals(rs)|
    ensures forall i :: 0 <= i < |ps| ==>
      ps[i] == DayPercent(DailyTotals(rs)[i].fecha, PointPercent(DailyTotals(rs)[i].total, DayNamo(rs, DailyTotals(rs)[i].fecha)))
  {
    var s := DailyTotals(rs);
    seq(|s|, i requires 0 <= i < |s| => DayPercent(s[i].fecha, PointPercent(s[i].total, DayNamo(rs, s[i].fecha))))
  }

  /**
   * The daily percentage is a ratio of sums, so it lies between 0 and 100
   * whenever every reading holds between nothing and its NAMO: a dam read
   * twice on a day counts once in the total and twice in the NAMO sum.
   */
  lemma DailyPercentBounded(rs: seq<Reading>)
    requires forall i :: 0 <= i < |rs| ==> 0.0 <= rs[i].almacenaactual <= rs[i].namoalmac
    ensures forall p :: p in DailyPercent(rs) && p.porcentaje.Some? ==> 0.0 <= p.porcentaje.value <= 100.0
  {
    var s, ps := DailyTotals(rs), DailyPercent(rs);
    forall i | 0 <= i < |ps| && ps[i].porcentaje.Some?
      ensures 0.0 <= ps[i].porcentaje.value <= 100.0
    {
      var d := s[i].fecha;
      PivotRowAtMostDayStored(rs, d);
      DayStoredAtMostDayNamo(rs, d);
      PercentOfPart(s[i].total, DayNamo(rs, d));
    }
  }

  const NotaEncabezado: string := "<b>Nota:</b><br>"

  /** `nota`: the generic note of a state chart, or the note that lists the dams' names. */
  function Note(nombres: Option<string>): (nota: string)
    ensures NotaEncabezado <= nota
    ensures nombres.Some? ==> |nota| >= |nombres.value| && nota[|nota| - |nombres.value|..] == nombres.value
    ensures nombres.None? ==> nota == NotaEncabezado + "Cada vela representa las cifras mensuales<br>de las principales presas del estado."
  {
    if nombres.None? then NotaEncabezado + "Cada vela representa las cifras mensuales<br>de las principales presas del estado."
    else NotaEncabezado + "Cada vela representa las cifras<br>mensuales de las presas:<br>" + nombres.value
  }

  /** `xanchor` and `x_pos` of the note: "left" at 0.02 for `lado == "left"`, otherwise "right" at 1.0. */
  function Anchor(lado: string): (r: (string, real))
    ensures r.0 == "left" <==> lado == "left"
    ensures r.0 == "left" || r.0 == "right"
    ensures r.1 == (if r.0 == "left" then 0.02 else 1.0)
  {
    if lado == "left" then ("left", 0.02) else ("right", 1.0)
  }

  /** What the two charts show: the NAMO of the title, the note and its place, and the two daily series. */
  datatype Report = Report(namo: real, nota: string, xanchor: string, x: real,
                           totales: seq<DayTotal>, porcentajes: seq<DayPercent>)

  /**
   * `main(titulo, lado, *presas)` with the data steps of `plot_candle` and
   * `plot_candle_perc`: the chosen dams' catalogue rows give the NAMO and
   * the note's lines (a malformed name or an unknown state stops the
   * script first); the last 15 yearly files give the dams' readings (none
   * at all fails in `pd.concat`).
   */
  method BuildReport(catalogo: seq<CatalogEntry>, listing: seq<seq<Reading>>, presas: seq<string>, lado: string)
    returns (r: Result<Report>)
    ensures r.Ok? ==> forall e :: e in SelectCatalogue(catalogo, presas) ==> Label(e.nombrecomun, Entidades).Ok?
    ensures !(forall e :: e in SelectCatalogue(catalogo, presas) ==> Label(e.nombrecomun, Entidades).Ok?) ==>
      r.Err? && FirstFailure(SelectCatalogue(catalogo, presas), Labeler(Entidades), r.error)
    ensures (forall e :: e in SelectCatalogue(catalogo, presas) ==> Label(e.nombrecomun, Entidades).Ok?) ==>
      (r.Err? <==> listing == []) && (r.Err? ==> r.error == ValueError("No objects to concatenate"))
    ensures r.Ok? ==> r.value.namo == CatalogueNamo(SelectCatalogue(catalogo, presas))
    ensures r.Ok? ==> r.value.nota == Note(Some(Join("<br>", LabelLines(SelectCatalogue(catalogo, presas), Labeler(Entidades)))))
    ensures r.Ok? ==> (r.value.xanchor, r.value.x) == Anchor(lado)
    ensures r.Ok? ==> r.value.totales == DailyTotals(SelectDams(Concat(Last15(listing)), presas))
    ensures r.Ok? ==> r.value.porcentajes == DailyPercent(SelectDams(Concat(Last15(listing)), presas))
  {
    var seleccion := SelectCatalogue(catalogo, presas);
    var namo := CatalogueNamo(seleccion);
    var nombres := NamesNote(seleccion, Labeler(Entidades));
    if nombres.Err? {
      return Err(nombres.error);
    }
    var completo := LoadSelected(Last15(listing), InPresas(presas));
    if completo.Err? {
      return Err(completo.error);
    }
    var (xanchor, x) := Anchor(lado);
    r := Ok(Report(namo, Note(Some(nombres.value)), xanchor, x, DailyTotals(completo.value), DailyPercent(completo.value)));
  }

  /** `catalogo["clavesih"].unique()`: the ids in order of first appearance, each once. */
  function Unique(ks: seq<string>): (r: seq<string>)
    ensures forall k :: k in r <==> k in ks
    ensures forall i, j :: 0 <= i < j < |r| ==> r[i] != r[j]
  {
    if ks == [] then []
    else
      var pre := Unique(ks[..|ks| - 1]);
      assert forall k :: k in ks <==> k in ks[..|ks| - 1] || k == ks[|ks| - 1];
      if ks[|ks| - 1] in pre then pre else pre + [ks[|ks| - 1]]
  }

  /** `catalogo[catalogo["estado"] == entidad]`. */
  function StateCatalogue(cat: seq<CatalogEntry>, entidad: string): (r: seq<CatalogEntry>)
    ensures forall e :: e in r <==> e in cat && e.estado == entidad
  {
    Filter(cat, (e: CatalogEntry) => e.estado == entidad)
  }

  function Claves(cat: seq<CatalogEntry>): seq<string> {
    seq(|cat|, i requires 0 <= i < |cat| => cat[i].clavesih)
  }

  /**
   * `main_estatal(titulo, entidad, lado)`: every catalogue dam of the state,
   * the state's summed NAMO and the generic note.
   */
  method BuildStateReport(catalogo: seq<CatalogEntry>, listing: seq<seq<Reading>>, entidad: string, lado: string)
    returns (r: Result<Report>)
    ensures r.Err? <==> listing == []
    ensures r.Err? ==> r.error == ValueError("No objects to concatenate")
    ensures r.Ok? ==> r.value.namo == CatalogueNamo(StateCatalogue(catalogo, entidad))
    ensures r.Ok? ==> r.value.nota == Note(None)
    ensures r.Ok? ==> (r.value.xanchor, r.value.x) == Anchor(lado)
    ensures r.Ok? ==> r.value.totales == DailyTotals(SelectDams(Concat(Last15(listing)), Unique(Claves(StateCatalogue(catalogo, entidad)))))
    ensures r.Ok? ==> r.value.porcentajes == DailyPercent(SelectDams(Concat(Last15(listing)), Unique(Claves(StateCatalogue(catalogo, entidad)))))
  {
    var seleccion := StateCatalogue(catalogo, entidad);
    var claves := Unique(Claves(seleccion));
    var namo := CatalogueNamo(seleccion);
    var completo := LoadSelected(Last15(listing), InPresas(claves));
    if completo.Err? {
      return Err(completo.error);
    }
    var (xanchor, x) := Anchor(lado);
    r := Ok(Report(namo, Note(None), xanchor, x, DailyTotals(completo.value), DailyPercent(completo.value)));
  }

  /** The state chart reads exactly the readings of the state's catalogue dams. */
  lemma StateReadingsAreTheStatesDams(rs: seq<Reading>, cat: seq<CatalogEntry>, entidad: string)
    ensures forall x: Reading :: x in SelectDams(rs, Unique(Claves(StateCatalogue(cat, entidad)))) <==>
      x in rs && exists e :: e in cat && e.estado == entidad && e.clavesih == x.clavesih
  {
    var sel := StateCatalogue(cat, entidad);
    forall x: Reading
      ensures x.clavesih in Claves(sel) <==> exists e :: e in cat && e.estado == entidad && e.clavesih == x.clavesih
    {
      if x.clavesih in Claves(sel) {
        var i :| 0 <= i < |sel| && Claves(sel)[i] == x.clavesih;
        assert sel[i] in sel;
      }
      if exists e :: e in cat && e.estado == entidad && e.clavesih == x.clavesih {
        var e: CatalogEntry :| e in cat && e.estado == entidad && e.clavesih == x.clavesih;
        assert e in sel;
        var i :| 0 <= i < |sel| && sel[i] == e;
        assert Claves(sel)[i] == x.clavesih;
      }
    }
  }
}
