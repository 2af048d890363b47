/**
 * `downloader.py`: plans the daily downloads of a year (one JSON report per
 * day whose file is not on disk yet), consolidates a year's reports into one
 * table, and cleans the common names of the dam catalogue.
 */
module Downloader {
  import opened Wrappers
  import opened Text
  import opened Calendar
  import opened Readings

  /** `URL_BASE`: the report address, whose `{}` placeholder is at the very end. */
  const UrlBase: string := "https://sinav30.conagua.gob.mx:8080/PresasPG/presas/reporte/"

  /** `f"{nueva_fecha_str}.json"`. */
  function FileName(d: Date): string {
    FormatDate(d) + ".json"
  }

  /** `URL_BASE.format(nueva_fecha_str)`. */
  function Url(d: Date): string {
    UrlBase + FormatDate(d)
  }

  /** The file name and the address both carry the date text, which reads back as the day. */
  lemma FileNameNamesTheDay(d: Date)
    requires Valid(d)
    ensures |FileName(d)| > 5 && FileName(d)[|FileName(d)| - 5..] == ".json"
    ensures ParseDate(FileName(d)[..|FileName(d)| - 5]) == Some(d)
    ensures Url(d)[..|UrlBase|] == UrlBase && ParseDate(Url(d)[|UrlBase|..]) == Some(d)
  {
    ParseFormatDate(d);
    assert FileName(d)[..|FileName(d)| - 5] == FormatDate(d);
    assert Url(d)[|UrlBase|..] == FormatDate(d);
  }

  /** Two days never share a file name. */
  lemma FileNameInjective(a: Date, b: Date)
    requires Valid(a) && Valid(b) && FileName(a) == FileName(b)
    ensures a == b
  {
    FileNameNamesTheDay(a);
    FileNameNamesTheDay(b);
  }

  /** `fecha_inicio + timedelta(days=i)`, with `fecha_inicio = datetime(anio, 1, 1)`. */
  function Day(anio: int, i: nat): (d: Date)
    requires anio >= 1
    ensures Valid(d)
  {
    AddDays(Date(anio, 1, 1), i)
  }

  /** One download: the address requested and the file its text is written to. */
  datatype Fetch = Fetch(url: string, archivo: string)

  function FetchOf(d: Date): Fetch {
    Fetch(Url(d), FileName(d))
  }

  function FetchesOf(ds: seq<Date>): (fs: seq<Fetch>)
    ensures |fs| == |ds|
  {
    seq(|ds|, k requires 0 <= k < |ds| => FetchOf(ds[k]))
  }

  /** The first `n` days of the loop, `i` in `range(dias)`. */
  function Days(anio: int, n: nat): (ds: seq<Date>)
    requires anio >= 1
    ensures |ds| == n
    ensures forall i :: 0 <= i < n ==> ds[i] == Day(anio, i)
  {
    seq(n, i requires 0 <= i < n => Day(anio, i))
  }

  /** `nombre_archivo not in archivos_guardados`. */
  function Missing(guardados: set<string>): Date -> bool {
    (d: Date) => FileName(d) !in guardados
  }

  /** The days among the first `n` whose file is not in the listing, in loop order. */
  function Plan(anio: int, n: nat, guardados: set<string>): (ps: seq<Date>)
    requires anio >= 1
    ensures |ps| <= n
    ensures forall d :: d in ps ==> FileName(d) !in guardados
  {
    Filter(Days(anio, n), Missing(guardados))
  }

  /**
   * `descargar(anio)`, with `dias = (datetime.today() - fecha_inicio).days`
   * given and the listing of `./archivos` taken once before the loop.
   * `datetime(anio, 1, 1)` and `datetime(anio + 1, 1, 1)` are built first:
   * a year beyond a C `int` raises `OverflowError`, and any other year
   * outside 1..9998 raises `ValueError`.
   */
  method Descargar(anio: int, dias: int, guardados: set<string>) returns (r: Result<seq<Fetch>>)
    ensures r.Err? <==> !(1 <= anio <= 9998)
    ensures r.Err? ==> (r.error == OverflowError <==> !IsCInt(anio))
    ensures r.Err? && r.error != OverflowError ==> r.error.ValueError?
    ensures r.Ok? ==> r.value == FetchesOf(Plan(anio, if dias < 0 then 0 else dias, guardados))
  {
    if !IsCInt(anio) {
      return Err(OverflowError);
    }
    if !(1 <= anio <= 9999) {
      return Err(ValueError("year " + IntToString(anio) + " is out of range"));
    }
    if !(1 <= anio + 1 <= 9999) {
      return Err(ValueError("year " + IntToString(anio + 1) + " is out of range"));
    }
    var descargas: seq<Fetch> := [];
    var i := 0;
    while i < dias
      invariant 0 <= i <= (if dias < 0 then 0 else dias)
      invariant descargas == FetchesOf(Plan(anio, i, guardados))
    {
      var fecha := Day(anio, i);
      var nombre := FileName(fecha);
      var url := Url(fecha);
      PlanStep(anio, i, guardados);
      if nombre !in guardados {
        descargas := descargas + [Fetch(url, nombre)];
        FetchesAppend(Plan(anio, i, guardados), fecha);
      }
      i := i + 1;
    }
    return Ok(descargas);
  }

  /** One more turn of the loop adds the day when its file is missing. */
  lemma PlanStep(anio: int, i: nat, guardados: set<string>)
    requires anio >= 1
    ensures Plan(anio, i + 1, guardados) == Plan(anio, i, guardados)
      + (if FileName(Day(anio, i)) in guardados then [] else [Day(anio, i)])
  {
    var x := Day(anio, i);
    assert Days(anio, i + 1) == Days(anio, i) + [x];
    FilterConcat(Days(anio, i), [x], Missing(guardados));
    assert [x][1..] == [];
    assert Filter([x], Missing(guardados)) == if Missing(guardados)(x) then [x] else [];
  }

  lemma FetchesAppend(ds: seq<Date>, d: Date)
    ensures FetchesOf(ds + [d]) == FetchesOf(ds) + [FetchOf(d)]
  {
    assert forall k :: 0 <= k < |ds| ==> (ds + [d])[k] == ds[k];
  }

  /** A day is downloaded exactly when it is one of the first `n` days and its file is not in the listing. */
  lemma PlanMembers(anio: int, n: nat, guardados: set<string>)
    requires anio >= 1
    ensures forall d :: d in Plan(anio, n, guardados) <==>
      (exists i :: 0 <= i < n && d == Day(anio, i)) && FileName(d) !in guardados
  {
    var ds := Days(anio, n);
    forall d
      ensures d in ds <==> exists i :: 0 <= i < n && d == Day(anio, i)
    {
      if d in ds {
        var i :| 0 <= i < n && ds[i] == d;
      }
    }
  }

  /** A selection keeps the calendar order of the days it selects from. */
  lemma {:induction false} FilterChronological(ds: seq<Date>, keep: Date -> bool)
    requires forall j, k :: 0 <= j < k < |ds| ==> Before(ds[j], ds[k])
    ensures forall j, k :: 0 <= j < k < |Filter(ds, keep)| ==> Before(Filter(ds, keep)[j], Filter(ds, keep)[k])
  {
    if ds != [] {
      var rest := Filter(ds[1..], keep);
      FilterChronological(ds[1..], keep);
      forall x | x in rest
        ensures Before(ds[0], x)
      {
        var k :| 0 <= k < |ds[1..]| && ds[1..][k] == x;
        assert ds[k + 1] == x;
      }
      assert Filter(ds, keep) == (if keep(ds[0]) then [ds[0]] else []) + rest;
      if keep(ds[0]) {
        forall j, k | 0 <= j < k < |Filter(ds, keep)|
          ensures Before(Filter(ds, keep)[j], Filter(ds, keep)[k])
        {
          assert Filter(ds, keep)[k] == rest[k - 1];
          assert rest[k - 1] in rest;
          if j > 0 {
            assert Filter(ds, keep)[j] == rest[j - 1];
          }
        }
      }
    }
  }

  /** The downloads follow the calendar: each one is a later day than the one before. */
  lemma PlanChronological(anio: int, n: nat, guardados: set<string>)
    requires anio >= 1
    ensures forall j, k :: 0 <= j < k < |Plan(anio, n, guardados)| ==>
      Before(Plan(anio, n, guardados)[j], Plan(anio, n, guardados)[k])
  {
    var ds := Days(anio, n);
    forall j, k | 0 <= j < k < |ds|
      ensures Before(ds[j], ds[k])
    {
      AddDaysIncreasing(Date(anio, 1, 1), j, k);
    }
    FilterChronological(ds, Missing(guardados));
  }

  /** No file is downloaded twice. */
  lemma PlanDistinctFiles(anio: int, n: nat, guardados: set<string>)
    requires anio >= 1
    ensures forall j, k :: 0 <= j < k < |Plan(anio, n, guardados)| ==>
      FileName(Plan(anio, n, guardados)[j]) != FileName(Plan(anio, n, guardados)[k])
  {
    var p := Plan(anio, n, guardados);
    PlanChronological(anio, n, guardados);
    PlanMembers(anio, n, guardados);
    forall j, k | 0 <= j < k < |p|
      ensures FileName(p[j]) != FileName(p[k])
    {
      assert p[j] in p && p[k] in p;
      if FileName(p[j]) == FileName(p[k]) {
        FileNameInjective(p[j], p[k]);
      }
    }
  }

  /** A selection that keeps nothing of a sequence is empty. */
  lemma {:induction false} FilterNone<T(!new)>(s: seq<T>, keep: T -> bool)
    requires forall i :: 0 <= i < |s| ==> !keep(s[i])
    ensures Filter(s, keep) == []
  {
    if s != [] {
      FilterNone(s[1..], keep);
    }
  }

  /** Running the download again, with the files the first run wrote now listed, downloads nothing. */
  lemma RerunDownloadsNothing(anio: int, n: nat, guardados: set<string>)
    requires anio >= 1
    ensures Plan(anio, n, guardados + set d | d in Plan(anio, n, guardados) :: FileName(d)) == []
  {
    var escritos := set d | d in Plan(anio, n, guardados) :: FileName(d);
    var ds := Days(anio, n);
    PlanMembers(anio, n, guardados);
    forall i | 0 <= i < n
      ensures !Missing(guardados + escritos)(ds[i])
    {
      if FileName(ds[i]) !in guardados {
        assert ds[i] in Plan(anio, n, guardados);
      }
    }
    FilterNone(ds, Missing(guardados + escritos));
  }

  /** One report row, with the columns the scripts read. */
  datatype Record = Record(
    idmonitoreodiario: int,
    fechamonitoreo: string,
    clavesih: string,
    nombreoficial: string,
    nombrecomun: Option<string>,
    estado: string,
    namoalmac: real,
    almacenaactual: real)

  /** `final[col].str.strip()` on every text column; a missing value stays missing. */
  function StripRecord(x: Record): (r: Record)
    ensures r.idmonitoreodiario == x.idmonitoreodiario
    ensures r.namoalmac == x.namoalmac && r.almacenaactual == x.almacenaactual
    ensures IsStripped(r.fechamonitoreo) && IsStripped(r.clavesih)
    ensures IsStripped(r.nombreoficial) && IsStripped(r.estado)
    ensures r.nombrecomun.Some? <==> x.nombrecomun.Some?
    ensures r.nombrecomun.Some? ==> IsStripped(r.nombrecomun.value)
  {
    x.(fechamonitoreo := Strip(x.fechamonitoreo),
       clavesih := Strip(x.clavesih),
       nombreoficial := Strip(x.nombreoficial),
       nombrecomun := if x.nombrecomun.Some? then Some(Strip(x.nombrecomun.value)) else None,
       estado := Strip(x.estado))
  }

  /** Stripping the text columns again changes nothing. */
  lemma StripRecordIdempotent(x: Record)
    ensures StripRecord(StripRecord(x)) == StripRecord(x)
  {
    StripIdempotent(x.fechamonitoreo);
    StripIdempotent(x.clavesih);
    StripIdempotent(x.nombreoficial);
    StripIdempotent(x.estado);
    if x.nombrecomun.Some? {
      StripIdempotent(x.nombrecomun.value);
    }
  }

  /** A downloaded report: its file name and its rows. */
  datatype JsonFile = JsonFile(nombre: string, filas: seq<Record>)

  /** `str(anio) in archivo`: the files of the year. */
  function IsOfYear(anio: int): JsonFile -> bool {
    (f: JsonFile) => Contains(f.nombre, IntToString(anio))
  }

  /** The rows of the files, one file after the other. */
  function Rows(fs: seq<JsonFile>): seq<Record> {
    if fs == [] then [] else Rows(fs[..|fs| - 1]) + fs[|fs| - 1].filas
  }

  function StripAll(rs: seq<Record>): (r: seq<Record>)
    ensures |r| == |rs|
  {
    seq(|rs|, k requires 0 <= k < |rs| => StripRecord(rs[k]))
  }

  predicate SortedById(rs: seq<Record>) {
    forall j, k :: 0 <= j < k < |rs| ==> rs[j].idmonitoreodiario <= rs[k].idmonitoreodiario
  }

  /**
   * `combinar(anio)` on the listing of `./archivos`: the reports whose name
   * contains the year are concatenated (`ValueError` when there is none),
   * their text columns stripped and the rows sorted by id. When every such
   * report is empty, the concatenation has no columns at all, and
   * `sort_values("idmonitoreodiario")` raises `KeyError`.
   */
  method Combinar(archivos: seq<JsonFile>, anio: int) returns (r: Result<seq<Record>>)
    ensures r.Err? <==> Filter(archivos, IsOfYear(anio)) == [] || Rows(Filter(archivos, IsOfYear(anio))) == []
    ensures Filter(archivos, IsOfYear(anio)) == [] ==> r == Err(ValueError("No objects to concatenate"))
    ensures Filter(archivos, IsOfYear(anio)) != [] && Rows(Filter(archivos, IsOfYear(anio))) == [] ==>
      r == Err(KeyError("idmonitoreodiario"))
    ensures r.Ok? ==> multiset(r.value) == multiset(StripAll(Rows(Filter(archivos, IsOfYear(anio)))))
    ensures r.Ok? ==> SortedById(r.value)
  {
    var dfs := SelectFiles(archivos, IsOfYear(anio));
    if dfs == [] {
      return Err(ValueError("No objects to concatenate"));
    }
    if Rows(dfs) == [] {
      return Err(KeyError("idmonitoreodiario"));
    }
    var final := SortedRecords(StripAll(Rows(dfs)));
    return Ok(final);
  }

  /** The loop over the listing that collects the files to read. */
  method SelectFiles(archivos: seq<JsonFile>, keep: JsonFile -> bool) returns (dfs: seq<JsonFile>)
    ensures dfs == Filter(archivos, keep)
  {
    dfs := [];
    for i := 0 to |archivos|
      invariant dfs == Filter(archivos[..i], keep)
    {
      FilterConcat(archivos[..i], [archivos[i]], keep);
      assert archivos[..i + 1] == archivos[..i] + [archivos[i]];
      if keep(archivos[i]) {
        dfs := dfs + [archivos[i]];
      }
    }
    assert archivos[..|archivos|] == archivos;
  }

  /** The rows, sorted by id. */
  method SortedRecords(rows: seq<Record>) returns (out: seq<Record>)
    ensures multiset(out) == multiset(rows)
    ensures SortedById(out)
  {
    var filas := new Record[|rows|](k requires 0 <= k < |rows| => rows[k]);
    assert filas[..] == rows;
    SortById(filas);
    out := filas[..];
  }

  /** `final.sort_values("idmonitoreodiario", inplace=True)`, as an insertion sort. */
  method SortById(a: array<Record>)
    modifies a
    ensures SortedById(a[..])
    ensures multiset(a[..]) == old(multiset(a[..]))
  {
    for i := 0 to a.Length
      invariant forall j, k :: 0 <= j < k < i ==> a[j].idmonitoreodiario <= a[k].idmonitoreodiario
      invariant multiset(a[..]) == old(multiset(a[..]))
    {
      SinkById(a, i);
    }
  }

  /** Moves `a[i]` left past every larger id, so that `a[..i + 1]` is sorted. */
  method SinkById(a: array<Record>, i: int)
    requires 0 <= i < a.Length
    requires forall j, k :: 0 <= j < k < i ==> a[j].idmonitoreodiario <= a[k].idmonitoreodiario
    modifies a
    ensures forall j, k :: 0 <= j < k <= i ==> a[j].idmonitoreodiario <= a[k].idmonitoreodiario
    ensures multiset(a[..]) == old(multiset(a[..]))
  {
    var m := i;
    while m > 0 && a[m - 1].idmonitoreodiario > a[m].idmonitoreodiario
      invariant 0 <= m <= i
      invariant forall j, k :: 0 <= j < k <= i && k != m ==> a[j].idmonitoreodiario <= a[k].idmonitoreodiario
      invariant multiset(a[..]) == old(multiset(a[..]))
    {
      SwapRecords(a, m);
      m := m - 1;
    }
  }

  /** Exchanges `a[m - 1]` and `a[m]`. */
  method SwapRecords(a: array<Record>, m: int)
    requires 0 < m < a.Length
    modifies a
    ensures a[m - 1] == old(a[m]) && a[m] == old(a[m - 1])
    ensures forall k :: 0 <= k < a.Length && k != m - 1 && k != m ==> a[k] == old(a[k])
    ensures multiset(a[..]) == old(multiset(a[..]))
  {
    a[m - 1], a[m] := a[m], a[m - 1];
  }

  /** The consolidated table holds exactly the stripped rows of the year's reports. */
  lemma {:induction false} RowsMembers(fs: seq<JsonFile>)
    ensures forall x :: x in Rows(fs) <==> exists k :: 0 <= k < |fs| && x in fs[k].filas
  {
    if fs != [] {
      RowsMembers(fs[..|fs| - 1]);
    }
  }

  /** Every row of the consolidated table already has its text columns stripped. */
  lemma CombinedRowsAreStripped(rs: seq<Record>, out: seq<Record>)
    requires multiset(out) == multiset(StripAll(rs))
    ensures forall x :: x in out ==> StripRecord(x) == x
  {
    forall x | x in out
      ensures StripRecord(x) == x
    {
      assert x in multiset(StripAll(rs));
      StrippedRowIsFixpoint(rs, x);
    }
  }

  /** A row of `StripAll(rs)` is left alone by stripping. */
  lemma StrippedRowIsFixpoint(rs: seq<Record>, x: Record)
    requires x in StripAll(rs)
    ensures StripRecord(x) == x
  {
    var k :| 0 <= k < |rs| && StripAll(rs)[k] == x;
    StripRecordIdempotent(rs[k]);
  }

  /** `x` is the stripped form of a row of a report whose file name contains the year. */
  ghost predicate FromYearFile(archivos: seq<JsonFile>, anio: int, x: Record) {
    exists f, y :: f in archivos && IsOfYear(anio)(f) && y in f.filas && x == StripRecord(y)
  }

  /** Every row, stripped, is among the stripped rows. */
  lemma StripAllHas(rs: seq<Record>)
    ensures forall y :: y in rs ==> StripRecord(y) in StripAll(rs)
  {
    forall y | y in rs
      ensures StripRecord(y) in StripAll(rs)
    {
      var k :| 0 <= k < |rs| && rs[k] == y;
      assert StripAll(rs)[k] == StripRecord(y);
    }
  }

  /** Every stripped row is the stripped form of a row. */
  lemma StripAllFrom(rs: seq<Record>)
    ensures forall x :: x in StripAll(rs) ==> exists y :: y in rs && x == StripRecord(y)
  {
    forall x | x in StripAll(rs)
      ensures exists y :: y in rs && x == StripRecord(y)
    {
      var k :| 0 <= k < |rs| && StripAll(rs)[k] == x;
      assert rs[k] in rs;
    }
  }

  /** Every row of every file is among the rows of the files. */
  lemma RowsHas(fs: seq<JsonFile>)
    ensures forall f, y :: f in fs && y in f.filas ==> y in Rows(fs)
  {
    RowsMembers(fs);
    forall f, y | f in fs && y in f.filas
      ensures y in Rows(fs)
    {
      var j :| 0 <= j < |fs| && fs[j] == f;
    }
  }

  /** Every row of the files is a row of one of them. */
  lemma RowsFrom(fs: seq<JsonFile>)
    ensures forall y :: y in Rows(fs) ==> exists f :: f in fs && y in f.filas
  {
    RowsMembers(fs);
    forall y | y in Rows(fs)
      ensures exists f :: f in fs && y in f.filas
    {
      var j :| 0 <= j < |fs| && y in fs[j].filas;
      assert fs[j] in fs;
    }
  }

  /** A row of the consolidated table comes from a report of the year. */
  lemma CombinedRowFromYear(archivos: seq<JsonFile>, anio: int, out: seq<Record>, x: Record)
    requires multiset(out) == multiset(StripAll(Rows(Filter(archivos, IsOfYear(anio)))))
    requires x in out
    ensures FromYearFile(archivos, anio, x)
  {
    var dfs := Filter(archivos, IsOfYear(anio));
    assert x in StripAll(Rows(dfs)) by {
      assert x in multiset(StripAll(Rows(dfs)));
    }
    assert exists y :: y in Rows(dfs) && x == StripRecord(y) by {
      StripAllFrom(Rows(dfs));
    }
    var y :| y in Rows(dfs) && x == StripRecord(y);
    assert exists f :: f in dfs && y in f.filas by {
      RowsFrom(dfs);
    }
    var f :| f in dfs && y in f.filas;
    assert f in archivos && IsOfYear(anio)(f);
  }

  /** A row of a report of the year is in the consolidated table, stripped. */
  lemma YearRowCombined(archivos: seq<JsonFile>, anio: int, out: seq<Record>, x: Record)
    requires multiset(out) == multiset(StripAll(Rows(Filter(archivos, IsOfYear(anio)))))
    requires FromYearFile(archivos, anio, x)
    ensures x in out
  {
    var dfs := Filter(archivos, IsOfYear(anio));
    RowsHas(dfs);
    StripAllHas(Rows(dfs));
    var f, y :| f in archivos && IsOfYear(anio)(f) && y in f.filas && x == StripRecord(y);
    assert f in dfs;
    assert x in StripAll(Rows(dfs));
    assert x in multiset(StripAll(Rows(dfs)));
  }

  /** The consolidated table holds exactly the stripped rows of the reports of the year. */
  lemma CombinedRowsAreTheYear(archivos: seq<JsonFile>, anio: int, out: seq<Record>)
    requires multiset(out) == multiset(StripAll(Rows(Filter(archivos, IsOfYear(anio)))))
    ensures forall x :: x in out <==> FromYearFile(archivos, anio, x)
  {
    forall x
      ensures x in out <==> FromYearFile(archivos, anio, x)
    {
      if x in out {
        CombinedRowFromYear(archivos, anio, out, x);
      }
      if FromYearFile(archivos, anio, x) {
        YearRowCombined(archivos, anio, out, x);
      }
    }
  }

  /** `[item.strip() for item in pieces]`. */
  function StripPieces(ps: seq<string>): (r: seq<string>)
    ensures |r| == |ps|
  {
    seq(|ps|, k requires 0 <= k < |ps| => Strip(ps[k]))
  }

  /**
   * The `nombrecomun` cleaning of `generar_catalogo`: the name split at its
   * commas, every piece stripped, joined again with ", "; a missing name
   * stays missing.
   */
  function CleanName(x: Option<string>): (r: Option<string>)
    ensures r.Some? <==> x.Some?
  {
    if x.None? then None else Some(Join(", ", StripPieces(Split(x.value, ","))))
  }

  /** Pieces after the first, each behind a space. */
  function Indent(ps: seq<string>): (r: seq<string>)
    ensures |r| == |ps|
  {
    seq(|ps|, k requires 0 <= k < |ps| => " " + ps[k])
  }

  /** Joining with ", " is joining with "," pieces that, after the first, start with a space. */
  lemma {:induction false} JoinCommaSpace(ps: seq<string>)
    requires ps != []
    ensures Join(", ", ps) == Join(",", [ps[0]] + Indent(ps[1..]))
    decreases |ps|
  {
    if |ps| > 1 {
      var tail := ps[1..];
      var indented := Indent(tail);
      var joined := Join(", ", tail);
      JoinCommaSpace(tail);
      IndentStep(tail);
      calc {
        Join(", ", ps);
        == { assert ps == [ps[0]] + tail; JoinCons(", ", ps[0], tail); }
        ps[0] + ", " + joined;
        == { assert ", " == "," + [' ']; }
        ps[0] + "," + ([' '] + joined);
        == { assert joined == Join(",", [tail[0]] + Indent(tail[1..])); }
        ps[0] + "," + Join(",", indented);
        == { JoinCons(",", ps[0], indented); }
        Join(",", [ps[0]] + indented);
      }
    } else {
      assert [ps[0]] + Indent(ps[1..]) == [ps[0]];
    }
  }

  /** One step of `JoinCommaSpace`: indenting the first piece puts a space in front of the join. */
  lemma IndentStep(tail: seq<string>)
    requires tail != []
    ensures Join(",", Indent(tail)) == [' '] + Join(",", [tail[0]] + Indent(tail[1..]))
  {
    var q := [tail[0]] + Indent(tail[1..]);
    assert q[0] == tail[0] && q[1..] == Indent(tail[1..]);
    assert Indent(tail) == [[' '] + q[0]] + q[1..];
    JoinPrependChar(",", ' ', q);
  }

  /** Indenting pieces that have no comma adds none. */
  lemma IndentedFree(ps: seq<string>)
    requires ps != []
    requires forall k :: 0 <= k < |ps| ==> ',' !in ps[k]
    ensures forall k :: 0 <= k < |ps| ==> ',' !in ([ps[0]] + Indent(ps[1..]))[k]
  {
    forall k | 0 < k < |ps|
      ensures ',' !in ([ps[0]] + Indent(ps[1..]))[k]
    {
      assert ([ps[0]] + Indent(ps[1..]))[k] == " " + ps[k];
    }
  }

  /** Stripping undoes the indentation of stripped pieces. */
  lemma StripUndoesIndent(ps: seq<string>)
    requires ps != []
    requires forall k :: 0 <= k < |ps| ==> IsStripped(ps[k])
    ensures StripPieces([ps[0]] + Indent(ps[1..])) == ps
  {
    var q := [ps[0]] + Indent(ps[1..]);
    forall k | 0 <= k < |ps|
      ensures Strip(q[k]) == ps[k]
    {
      StrippedIsFixpoint(ps[k]);
      if k > 0 {
        assert q[k] == [' '] + ps[k];
        StripSkipsLeadingSpace(' ', ps[k]);
      }
    }
  }

  /** A cleaned name cut at its commas gives back the stripped pieces. */
  lemma CleanPiecesReturn(ps: seq<string>)
    requires ps != []
    requires forall k :: 0 <= k < |ps| ==> IsStripped(ps[k]) && ',' !in ps[k]
    ensures StripPieces(Split(Join(", ", ps), ",")) == ps
  {
    JoinCommaSpace(ps);
    IndentedFree(ps);
    SplitJoin(",", [ps[0]] + Indent(ps[1..]));
    StripUndoesIndent(ps);
  }

  /** Cleaning a common name twice is cleaning it once. */
  lemma CleanNameIdempotent(x: Option<string>)
    ensures CleanName(CleanName(x)) == CleanName(x)
  {
    if x.Some? {
      var pieces := Split(x.value, ",");
      var ps := StripPieces(pieces);
      SplitPiecesFree(x.value, ',');
      forall k | 0 <= k < |ps|
        ensures IsStripped(ps[k]) && ',' !in ps[k]
      {
        StripKeepsAbsent(pieces[k], ',');
      }
      CleanPiecesReturn(ps);
    }
  }

  /** `generar_catalogo` asks for the report of `datetime(2024, 1, 1)`. */
  lemma CatalogueRequest()
    ensures FormatDate(Date(2024, 1, 1)) == "2024-01-01"
    ensures Url(Date(2024, 1, 1)) == UrlBase + "2024-01-01"
  {
    YearText();
    PaddedOne();
    assert FormatDate(Date(2024, 1, 1)) == "2024" + "-" + "01" + "-" + "01";
  }

  /** `str(1).zfill(2)`. */
  lemma PaddedOne()
    ensures ZFill(IntToString(1), 2) == "01"
  {
    assert IntToString(1) == "1";
  }

  /** `str(2024)`. */
  lemma YearText()
    ensures IntToString(2024) == "2024"
  {
    assert NatToString(2) == "2";
    assert NatToString(20) == "20" by {
      assert 20 / 10 == 2 && 20 % 10 == 0;
    }
    assert NatToString(202) == "202" by {
      assert 202 / 10 == 20 && 202 % 10 == 2;
    }
    assert NatToString(2024) == "2024" by {
      assert 2024 / 10 == 202 && 2024 % 10 == 4;
    }
  }
}
