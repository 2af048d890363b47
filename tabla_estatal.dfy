/**
 * `tabla_estatal.py`: the table of storage by state on one day. The day's
 * readings get the state named after the last comma of each dam's official
 * name; the readings are counted and summed per state; a "Nacional" row
 * holds the column sums; every row gets its fill level and text colour; and
 * the rows are sorted by fill level, highest first.
 */
module TablaEstatal {
  import opened Wrappers
  import opened Text
  import opened Calendar
  import opened Readings
  import opened Candles

  /** The state abbreviations of the official names and the names shown in the table. */
  const Entidades: map<string, string> := map[
    "Ags." := "Aguascalientes",
    "B.C." := "Baja California",
    "Chih." := "Chihuahua",
    "Chis." := "Chiapas",
    "Coah." := "Coahuila",
    "Col." := "Colima",
    "Dgo." := "Durango",
    "Gro." := "Guerrero",
    "Gto." := "Guanajuato",
    "Hgo." := "Hidalgo",
    "Jal." := "Jalisco",
    "Mich." := "Michoacán",
    "Mor." := "Morelos",
    "Méx." := "Estado de México",
    "N.L." := "Nuevo León",
    "Nay." := "Nayarit",
    "Oax." := "Oaxaca",
    "Pue." := "Puebla",
    "Qro." := "Querétaro",
    "S.L.P." := "San Luis Potosí",
    "Sin." := "Sinaloa",
    "Son." := "Sonora",
    "Tamps." := "Tamaulipas",
    "Tlax." := "Tlaxcala",
    "Ver." := "Veracruz",
    "Zac." := "Zacatecas"
  ]

  /** The Spanish month names of the title. */
  const Meses: map<int, string> := map[
    1 := "enero", 2 := "febrero", 3 := "marzo", 4 := "abril", 5 := "mayo", 6 := "junio",
    7 := "julio", 8 := "agosto", 9 := "septiembre", 10 := "octubre", 11 := "noviembre", 12 := "diciembre"
  ]

  /** Every month of the year has its name, and nothing else has one. */
  lemma MesesCoversTheYear()
    ensures forall m :: m in Meses <==> 1 <= m <= 12
  {
    forall m | 1 <= m <= 12
      ensures m in Meses
    {
      assert m in {1, 2, 3, 4, 5, 6, 7, 8, 9, 10, 11, 12};
    }
  }

  /** One row of the yearly file, with the columns the table reads. */
  datatype OfficialReading = OfficialReading(fecha: Date, nombreoficial: string, namoalmac: real, almacenaactual: real)

  /**
   * `datetime(anio, mes, dia)`: an argument beyond a C `int` raises
   * `OverflowError`; otherwise a year outside 1..9999, a month outside 1..12
   * or a day the month does not have raises `ValueError`, checked in that order.
   */
  function CutDate(anio: int, mes: int, dia: int): (r: Result<Date>)
    ensures r.Ok? <==> InDatetimeRange(Date(anio, mes, dia))
    ensures r.Ok? ==> r.value == Date(anio, mes, dia)
    ensures r.Err? ==> (r.error == OverflowError <==> !(IsCInt(anio) && IsCInt(mes) && IsCInt(dia)))
    ensures r.Err? && r.error != OverflowError ==> r.error.ValueError?
  {
    var d := Date(anio, mes, dia);
    if !(IsCInt(anio) && IsCInt(mes) && IsCInt(dia)) then Err(OverflowError)
    else if !(1 <= anio <= 9999) then Err(ValueError("year " + IntToString(anio) + " is out of range"))
    else if !(1 <= mes <= 12) then Err(ValueError("month must be in 1..12"))
    else if !(1 <= dia <= DaysInMonth(anio, mes)) then Err(ValueError("day is out of range for month"))
    else Ok(d)
  }

  /** `df[df.index == datetime(anio, mes, dia)]`: the readings of exactly that date. */
  function ReadingsOn(rs: seq<OfficialReading>, d: Date): (r: seq<OfficialReading>)
    ensures forall x :: x in r <==> x in rs && x.fecha == d
  {
    Filter(rs, (x: OfficialReading) => x.fecha == d)
  }

  /**
   * `ENTIDADES[x.split(",")[-1].strip()]`: the state of a dam, from the
   * abbreviation after the last comma of its official name, or the
   * `KeyError` of an abbreviation the table does not know.
   */
  function StateOf(nombreoficial: string, entidades: map<string, string>): (r: Result<string>)
    ensures r.Ok? <==> Strip(LastPiece(nombreoficial, ',')) in entidades
    ensures r.Ok? ==> r.value == entidades[Strip(LastPiece(nombreoficial, ','))]
    ensures r.Err? ==> r.error == KeyError(Strip(LastPiece(nombreoficial, ',')))
  {
    var abreviatura := Strip(LastPiece(nombreoficial, ','));
    if abreviatura in entidades then Ok(entidades[abreviatura]) else Err(KeyError(abreviatura))
  }

  /** Only what follows the last comma decides the state. */
  lemma StateOfIgnoresPrefix(a: string, b: string, entidades: map<string, string>)
    ensures StateOf(a + "," + b, entidades) == StateOf(b, entidades)
  {
    assert a + "," + b == a + [','] + b;
    LastPieceAfterSeparator(a, ',', b);
  }

  /**
   * An official name "anything, abbreviation", with a known abbreviation
   * (which, like every key of `Entidades`, has no comma and no surrounding
   * whitespace), gives that abbreviation's state.
   */
  lemma StateOfOfficialName(nombre: string, abreviatura: string, entidades: map<string, string>)
    requires abreviatura in entidades && ',' !in abreviatura && IsStripped(abreviatura)
    ensures StateOf(nombre + ", " + abreviatura, entidades) == Ok(entidades[abreviatura])
  {
    assert nombre + ", " + abreviatura == nombre + [','] + (" " + abreviatura);
    LastPieceAfterSeparator(nombre, ',', " " + abreviatura);
    LastPieceWithoutSeparator(" " + abreviatura, ',');
    StripSkipsLeadingSpace(' ', abreviatura);
    StrippedIsFixpoint(abreviatura);
  }

  /** A reading with its state: the columns `estado`, `namoalmac` and `almacenaactual`. */
  datatype Labelled = Labelled(estado: string, namoalmac: real, almacenaactual: real)

  /** `lambda x: ENTIDADES[x.split(",")[-1].strip()]`, as a function value. */
  function Locator(entidades: map<string, string>): string -> Result<string> {
    (nombre: string) => StateOf(nombre, entidades)
  }

  /**
   * `df["estado"] = df["nombreoficial"].apply(state)`: the state of every
   * reading, in order; the first failing name stops the script.
   */
  function LabelStates(rs: seq<OfficialReading>, state: string -> Result<string>): (r: Result<seq<Labelled>>)
    ensures r.Ok? ==> |r.value| == |rs|
  {
    if rs == [] then Ok([])
    else
      match state(rs[0].nombreoficial)
      case Err(e) => Err(e)
      case Ok(estado) =>
        match LabelStates(rs[1..], state)
        case Err(e) => Err(e)
        case Ok(rest) => Ok([Labelled(estado, rs[0].namoalmac, rs[0].almacenaactual)] + rest)
  }

  /**
   * Labelling succeeds exactly when every official name has a state; each
   * labelled row is then its reading with that state, and otherwise the
   * error is that of the first name that has none.
   */
  lemma {:induction false} LabelStatesSpec(rs: seq<OfficialReading>, state: string -> Result<string>)
    ensures LabelStates(rs, state).Ok? <==> forall i :: 0 <= i < |rs| ==> state(rs[i].nombreoficial).Ok?
    ensures LabelStates(rs, state).Ok? ==> forall i :: 0 <= i < |rs| ==>
      LabelStates(rs, state).value[i] == Labelled(state(rs[i].nombreoficial).value, rs[i].namoalmac, rs[i].almacenaactual)
    ensures LabelStates(rs, state).Err? ==>
      exists i :: (0 <= i < |rs| && state(rs[i].nombreoficial) == Err(LabelStates(rs, state).error)
                   && forall j :: 0 <= j < i ==> state(rs[j].nombreoficial).Ok?)
  {
    if rs != [] {
      var tail := rs[1..];
      LabelStatesSpec(tail, state);
      assert forall i :: 1 <= i < |rs| ==> rs[i] == tail[i - 1];
      if state(rs[0].nombreoficial).Ok? && LabelStates(tail, state).Err? {
        var i :| 0 <= i < |tail| && state(tail[i].nombreoficial) == Err(LabelStates(tail, state).error)
          && forall j :: 0 <= j < i ==> state(tail[j].nombreoficial).Ok?;
        assert rs[i + 1] == tail[i];
      }
    }
  }

  /** One row of `df.groupby("estado").sum()` with the `counts` column. */
  datatype StateRow = StateRow(estado: string, counts: int, namoalmac: real, almacenaactual: real)

  predicate DistinctStates(g: seq<StateRow>) {
    forall i, j :: 0 <= i < j < |g| ==> g[i].estado != g[j].estado
  }

  /** The states that have a row. */
  function States(g: seq<StateRow>): set<string> {
    set r | r in g :: r.estado
  }

  /** The first row of state `e`, if any: `df.loc[e]`. */
  function Find(g: seq<StateRow>, e: string): (r: Option<StateRow>)
    ensures r.Some? <==> e in States(g)
    ensures r.Some? ==> r.value in g && r.value.estado == e
  {
    if g == [] then None
    else if g[0].estado == e then Some(g[0])
    else
      assert States(g) == {g[0].estado} + States(g[1..]);
      Find(g[1..], e)
  }

  /** Without repeated states, every row is the one found for its state. */
  lemma {:induction false} FindDistinct(g: seq<StateRow>, r: StateRow)
    requires DistinctStates(g) && r in g
    ensures Find(g, r.estado) == Some(r)
  {
    if g[0] != r {
      assert r in g[1..];
      assert g[0].estado != r.estado by {
        var k :| 0 <= k < |g| && g[k] == r;
      }
      FindDistinct(g[1..], r);
    }
  }

  /** The group of a state after one more of its readings. */
  function Bump(g: StateRow, x: Labelled): StateRow {
    StateRow(g.estado, g.counts + 1, g.namoalmac + x.namoalmac, g.almacenaactual + x.almacenaactual)
  }

  /** The group opened by the first reading of a state. */
  function Start(x: Labelled): StateRow {
    StateRow(x.estado, 1, x.namoalmac, x.almacenaactual)
  }

  /**
   * Adds a reading to its state's group, opening the group at the end if
   * the state is new.
   */
  function AddToGroup(groups: seq<StateRow>, x: Labelled): seq<StateRow> {
    if groups == [] then [Start(x)]
    else if groups[0].estado == x.estado then [Bump(groups[0], x)] + groups[1..]
    else [groups[0]] + AddToGroup(groups[1..], x)
  }

  /** Adding a reading adds its state to the states with a row. */
  lemma {:induction false} AddToGroupStates(groups: seq<StateRow>, x: Labelled)
    ensures States(AddToGroup(groups, x)) == States(groups) + {x.estado}
  {
    if groups != [] {
      var r := AddToGroup(groups, x);
      assert States(groups) == {groups[0].estado} + States(groups[1..]);
      if groups[0].estado == x.estado {
        assert States(r) == {x.estado} + States(groups[1..]);
      } else {
        AddToGroupStates(groups[1..], x);
        assert States(r) == {groups[0].estado} + States(AddToGroup(groups[1..], x));
      }
    }
  }

  /** Adding a reading keeps one row per state. */
  lemma {:induction false} AddToGroupDistinct(groups: seq<StateRow>, x: Labelled)
    requires DistinctStates(groups)
    ensures DistinctStates(AddToGroup(groups, x))
  {
    if groups != [] && groups[0].estado != x.estado {
      var rest := AddToGroup(groups[1..], x);
      AddToGroupDistinct(groups[1..], x);
      AddToGroupStates(groups[1..], x);
      var r := [groups[0]] + rest;
      assert groups[0].estado !in States(groups[1..]) by {
        forall o | o in groups[1..]
          ensures o.estado != groups[0].estado
        {
          var k :| 0 <= k < |groups[1..]| && groups[1..][k] == o;
          assert groups[k + 1] == o;
          assert groups[0].estado != groups[k + 1].estado;
        }
      }
      forall j | 1 <= j < |r|
        ensures r[0].estado != r[j].estado
      {
        assert r[j] == rest[j - 1];
        assert r[j].estado in States(rest);
      }
    }
  }

  /**
   * Adding a reading bumps its state's row, or opens one for a new state,
   * and leaves the row of every other state as it was.
   */
  lemma {:induction false} AddToGroupFind(groups: seq<StateRow>, x: Labelled, e: string)
    ensures e != x.estado ==> Find(AddToGroup(groups, x), e) == Find(groups, e)
    ensures e == x.estado ==>
      Find(AddToGroup(groups, x), e) == Some(if Find(groups, e).Some? then Bump(Find(groups, e).value, x) else Start(x))
  {
    if groups != [] && groups[0].estado != x.estado {
      AddToGroupFind(groups[1..], x, e);
    }
  }

  /** `df.groupby("estado").sum()` with `value_counts()`: one row per state, in order of first appearance. */
  function GroupByState(ls: seq<Labelled>): (g: seq<StateRow>)
    ensures DistinctStates(g)
  {
    if ls == [] then []
    else
      var g := GroupByState(ls[..|ls| - 1]);
      AddToGroupDistinct(g, ls[|ls| - 1]);
      AddToGroup(g, ls[|ls| - 1])
  }

  /** The number of readings of state `e`. */
  function Count(ls: seq<Labelled>, e: string): nat {
    if ls == [] then 0 else Count(ls[..|ls| - 1], e) + (if ls[|ls| - 1].estado == e then 1 else 0)
  }

  /** The summed NAMO of the readings of state `e`. */
  function StateNamo(ls: seq<Labelled>, e: string): real {
    if ls == [] then 0.0 else StateNamo(ls[..|ls| - 1], e) + (if ls[|ls| - 1].estado == e then ls[|ls| - 1].namoalmac else 0.0)
  }

  /** The summed stored volume of the readings of state `e`. */
  function StateStored(ls: seq<Labelled>, e: string): real {
    if ls == [] then 0.0
    else StateStored(ls[..|ls| - 1], e) + (if ls[|ls| - 1].estado == e then ls[|ls| - 1].almacenaactual else 0.0)
  }

  /** A state's row, as the count and sums over its readings define it. */
  function Aggregate(ls: seq<Labelled>, e: string): StateRow {
    StateRow(e, Count(ls, e), StateNamo(ls, e), StateStored(ls, e))
  }

  /** The groups hold, for exactly the states of `ls`, their count and sums. */
  ghost predicate Summarises(g: seq<StateRow>, ls: seq<Labelled>) {
    forall e :: (Find(g, e).Some? <==> Count(ls, e) > 0) && (Find(g, e).Some? ==> Find(g, e).value == Aggregate(ls, e))
  }

  /** A state without readings has a zero count and zero sums. */
  lemma {:induction false} AbsentState(ls: seq<Labelled>, e: string)
    requires Count(ls, e) == 0
    ensures StateNamo(ls, e) == 0.0 && StateStored(ls, e) == 0.0
  {
    if ls != [] {
      AbsentState(ls[..|ls| - 1], e);
    }
  }

  /** A state has readings exactly when one of the readings is of that state. */
  lemma {:induction false} CountPositive(ls: seq<Labelled>, e: string)
    ensures Count(ls, e) > 0 <==> exists i :: 0 <= i < |ls| && ls[i].estado == e
  {
    if ls != [] {
      var pre := ls[..|ls| - 1];
      CountPositive(pre, e);
      assert forall i :: 0 <= i < |pre| ==> pre[i] == ls[i];
    }
  }

  /** One more reading adds to its own state's count and sums only. */
  lemma AppendOne(ls: seq<Labelled>, x: Labelled, e: string)
    ensures Count(ls + [x], e) == Count(ls, e) + (if x.estado == e then 1 else 0)
    ensures StateNamo(ls + [x], e) == StateNamo(ls, e) + (if x.estado == e then x.namoalmac else 0.0)
    ensures StateStored(ls + [x], e) == StateStored(ls, e) + (if x.estado == e then x.almacenaactual else 0.0)
  {
    assert (ls + [x])[..|ls|] == ls;
  }

  lemma AddSummarises(g: seq<StateRow>, ls: seq<Labelled>, x: Labelled)
    requires Summarises(g, ls)
    ensures Summarises(AddToGroup(g, x), ls + [x])
  {
    var g2 := AddToGroup(g, x);
    forall e
      ensures (Find(g2, e).Some? <==> Count(ls + [x], e) > 0)
      ensures Find(g2, e).Some? ==> Find(g2, e).value == Aggregate(ls + [x], e)
    {
      AppendOne(ls, x, e);
      AddToGroupFind(g, x, e);
      if e == x.estado && Find(g, e).None? {
        AbsentState(ls, e);
      }
    }
  }

  /**
   * `df.groupby("estado").sum()`: there is a row exactly for each state read
   * that day, and each row's `counts`, `namoalmac` and `almacenaactual` are
   * the number of that state's readings and the sums over them.
   */
  lemma {:induction false} GroupByStateSummarises(ls: seq<Labelled>)
    ensures forall e :: e in States(GroupByState(ls)) <==> exists i :: 0 <= i < |ls| && ls[i].estado == e
    ensures forall r :: r in GroupByState(ls) ==> r == Aggregate(ls, r.estado)
  {
    GroupsSummarise(ls);
    var g := GroupByState(ls);
    forall e
      ensures e in States(g) <==> exists i :: 0 <= i < |ls| && ls[i].estado == e
    {
      CountPositive(ls, e);
    }
    forall r | r in g
      ensures r == Aggregate(ls, r.estado)
    {
      FindDistinct(g, r);
    }
  }

  lemma {:induction false} GroupsSummarise(ls: seq<Labelled>)
    ensures Summarises(GroupByState(ls), ls)
  {
    if ls != [] {
      var pre, x := ls[..|ls| - 1], ls[|ls| - 1];
      GroupsSummarise(pre);
      AddSummarises(GroupByState(pre), pre, x);
      assert pre + [x] == ls;
    }
  }

  /** `df.sum(axis=0)` over the state rows: the column sums. */
  function ColumnCounts(g: seq<StateRow>): int {
    if g == [] then 0 else g[0].counts + ColumnCounts(g[1..])
  }

  function ColumnNamo(g: seq<StateRow>): real {
    if g == [] then 0.0 else g[0].namoalmac + ColumnNamo(g[1..])
  }

  function ColumnStored(g: seq<StateRow>): real {
    if g == [] then 0.0 else g[0].almacenaactual + ColumnStored(g[1..])
  }

  function TotalNamo(ls: seq<Labelled>): real {
    if ls == [] then 0.0 else TotalNamo(ls[..|ls| - 1]) + ls[|ls| - 1].namoalmac
  }

  function TotalStored(ls: seq<Labelled>): real {
    if ls == [] then 0.0 else TotalStored(ls[..|ls| - 1]) + ls[|ls| - 1].almacenaactual
  }

  /** Adding a reading to the groups adds one to the count column and its values to the sum columns. */
  lemma {:induction false} AddToGroupColumns(g: seq<StateRow>, x: Labelled)
    requires DistinctStates(g)
    ensures ColumnCounts(AddToGroup(g, x)) == ColumnCounts(g) + 1
    ensures ColumnNamo(AddToGroup(g, x)) == ColumnNamo(g) + x.namoalmac
    ensures ColumnStored(AddToGroup(g, x)) == ColumnStored(g) + x.almacenaactual
  {
    if g != [] && g[0].estado != x.estado {
      AddToGroupColumns(g[1..], x);
      var r := AddToGroup(g, x);
      assert r[1..] == AddToGroup(g[1..], x);
    } else if g != [] {
      var r := AddToGroup(g, x);
      assert r[1..] == g[1..];
    }
  }

  /**
   * The column sums of the state rows are the day's totals: as many dams
   * as readings, and all their NAMO and stored volume.
   */
  lemma {:induction false} GroupByStateConserves(ls: seq<Labelled>)
    ensures ColumnCounts(GroupByState(ls)) == |ls|
    ensures ColumnNamo(GroupByState(ls)) == TotalNamo(ls)
    ensures ColumnStored(GroupByState(ls)) == TotalStored(ls)
  {
    if ls != [] {
      GroupByStateConserves(ls[..|ls| - 1]);
      AddToGroupColumns(GroupByState(ls[..|ls| - 1]), ls[|ls| - 1]);
    }
  }

  /** `df.loc["Nacional"] = df.sum(axis=0)`. */
  function NationalRow(g: seq<StateRow>): StateRow {
    StateRow("Nacional", ColumnCounts(g), ColumnNamo(g), ColumnStored(g))
  }

  /** The national row counts every reading of the day and sums all of their volumes. */
  lemma NationalRowIsTotal(ls: seq<Labelled>)
    ensures NationalRow(GroupByState(ls)) == StateRow("Nacional", |ls|, TotalNamo(ls), TotalStored(ls))
  {
    GroupByStateConserves(ls);
  }

  /**
   * The fill level `almacenaactual / namoalmac * 100` of a row lies within
   * `lo` and `hi`, stated without the division.
   */
  predicate LevelWithin(r: StateRow, lo: real, hi: real) {
    lo * r.namoalmac <= r.almacenaactual * 100.0 <= hi * r.namoalmac
  }

  /** For a row with a positive NAMO, `LevelWithin` says exactly that its percentage lies within the bounds. */
  lemma LevelWithinPercent(r: StateRow, lo: real, hi: real)
    requires r.namoalmac > 0.0
    ensures LevelWithin(r, lo, hi) <==> lo <= Percent(r.almacenaactual, r.namoalmac) <= hi
  {
    var n, a := r.namoalmac, r.almacenaactual;
    var p := Percent(a, n);
    assert p * n == a * 100.0;
    assert lo <= p <==> lo * n <= p * n;
    assert p <= hi <==> p * n <= hi * n;
  }

  /**
   * If every state's fill level lies within `lo` and `hi`, so does the
   * national one: the summed volume over the summed NAMO is a mediant of the
   * rows' levels.
   */
  lemma {:induction false} NationalLevelBetween(g: seq<StateRow>, lo: real, hi: real)
    requires forall r :: r in g ==> LevelWithin(r, lo, hi)
    ensures LevelWithin(NationalRow(g), lo, hi)
  {
    if g == [] {
      MediantStep(0.0, 0.0, 0.0, 0.0, ColumnNamo(g), ColumnStored(g), lo, hi);
    } else {
      assert forall r :: r in g[1..] ==> r in g;
      NationalLevelBetween(g[1..], lo, hi);
      assert g[0] in g;
      NationalLevelStep(g, lo, hi);
    }
  }

  lemma NationalLevelStep(g: seq<StateRow>, lo: real, hi: real)
    requires g != [] && LevelWithin(g[0], lo, hi) && LevelWithin(NationalRow(g[1..]), lo, hi)
    ensures LevelWithin(NationalRow(g), lo, hi)
  {
    MediantStep(g[0].namoalmac, g[0].almacenaactual, ColumnNamo(g[1..]), ColumnStored(g[1..]),
                ColumnNamo(g), ColumnStored(g), lo, hi);
  }

  /** Adding a row within the bounds to a total within the bounds keeps the total within them. */
  lemma MediantStep(n: real, a: real, rn: real, ra: real, tn: real, ta: real, lo: real, hi: real)
    requires lo * n <= a * 100.0 <= hi * n && lo * rn <= ra * 100.0 <= hi * rn
    requires tn == n + rn && ta == a + ra
    ensures lo * tn <= ta * 100.0 <= hi * tn
  {
    assert lo * (n + rn) == lo * n + lo * rn;
    assert hi * (n + rn) == hi * n + hi * rn;
  }

  lemma {:induction false} ColumnNamoPositive(g: seq<StateRow>)
    requires g != [] && forall r :: r in g ==> r.namoalmac > 0.0
    ensures ColumnNamo(g) > 0.0
  {
    assert g[0] in g;
    if |g| > 1 {
      assert forall r :: r in g[1..] ==> r in g;
      ColumnNamoPositive(g[1..]);
    }
  }

  /**
   * With a positive NAMO in every state, the national fill level lies
   * between the lowest and the highest fill level of the states.
   */
  lemma NationalLevelIsMediant(g: seq<StateRow>, lo: real, hi: real)
    requires g != []
    requires forall r :: r in g ==> r.namoalmac > 0.0 && lo <= Percent(r.almacenaactual, r.namoalmac) <= hi
    ensures ColumnNamo(g) > 0.0
    ensures lo <= Percent(ColumnStored(g), ColumnNamo(g)) <= hi
  {
    forall r | r in g
      ensures LevelWithin(r, lo, hi)
    {
      LevelWithinPercent(r, lo, hi);
    }
    NationalLevelBetween(g, lo, hi);
    ColumnNamoPositive(g);
    LevelWithinPercent(NationalRow(g), lo, hi);
  }

  /** A row of the drawn table. */
  datatype Row = Row(entidad: string, counts: int, namoalmac: real, nivel: real, textColor: string)

  /** `"#ffff00" if x == "Nacional" else "#FFFFFF"`. */
  function TextColor(entidad: string): (c: string)
    ensures c == "#ffff00" <==> entidad == "Nacional"
    ensures c == "#ffff00" || c == "#FFFFFF"
  {
    if entidad == "Nacional" then "#ffff00" else "#FFFFFF"
  }

  /**
   * `df["nivel"] = df["almacenaactual"] / df["namoalmac"] * 100` and the
   * text colour of each row; a row with zero NAMO (a float inf or NaN) is
   * reported as `ZeroNamo`.
   */
  function Levels(g: seq<StateRow>): (r: Result<seq<Row>>)
    ensures r.Err? <==> exists i :: 0 <= i < |g| && g[i].namoalmac == 0.0
    ensures r.Err? ==> r.error == ZeroNamo
    ensures r.Ok? ==> |r.value| == |g| && forall i :: 0 <= i < |g| ==>
      r.value[i].entidad == g[i].estado && r.value[i].counts == g[i].counts
      && r.value[i].namoalmac == g[i].namoalmac
      && r.value[i].nivel * g[i].namoalmac == g[i].almacenaactual * 100.0
      && r.value[i].textColor == TextColor(g[i].estado)
  {
    if exists i :: 0 <= i < |g| && g[i].namoalmac == 0.0 then Err(ZeroNamo)
    else Ok(seq(|g|, i requires 0 <= i < |g| =>
      Row(g[i].estado, g[i].counts, g[i].namoalmac, Percent(g[i].almacenaactual, g[i].namoalmac), TextColor(g[i].estado))))
  }

  predicate SortedByLevel(s: seq<Row>) {
    forall i, j :: 0 <= i < j < |s| ==> s[i].nivel >= s[j].nivel
  }

  /** `df.sort_values("nivel", ascending=False, inplace=True)`, as an insertion sort. */
  method SortByLevel(a: array<Row>)
    modifies a
    ensures SortedByLevel(a[..])
    ensures multiset(a[..]) == old(multiset(a[..]))
  {
    for i := 0 to a.Length
      invariant forall k, l :: 0 <= k < l < i ==> a[k].nivel >= a[l].nivel
      invariant multiset(a[..]) == old(multiset(a[..]))
    {
      Sink(a, i);
    }
  }

  /** Moves `a[i]` left past every lower level, so that `a[..i + 1]` is sorted. */
  method Sink(a: array<Row>, i: int)
    requires 0 <= i < a.Length
    requires forall k, l :: 0 <= k < l < i ==> a[k].nivel >= a[l].nivel
    modifies a
    ensures forall k, l :: 0 <= k < l <= i ==> a[k].nivel >= a[l].nivel
    ensures multiset(a[..]) == old(multiset(a[..]))
  {
    var j := i;
    while j > 0 && a[j - 1].nivel < a[j].nivel
      invariant 0 <= j <= i
      invariant forall k, l :: 0 <= k < l <= i && l != j ==> a[k].nivel >= a[l].nivel
      invariant multiset(a[..]) == old(multiset(a[..]))
    {
      Swap(a, j);
      j := j - 1;
    }
  }

  /** Exchanges `a[j - 1]` and `a[j]`. */
  method Swap(a: array<Row>, j: int)
    requires 0 < j < a.Length
    modifies a
    ensures a[j - 1] == old(a[j]) && a[j] == old(a[j - 1])
    ensures forall k :: 0 <= k < a.Length && k != j - 1 && k != j ==> a[k] == old(a[k])
    ensures multiset(a[..]) == old(multiset(a[..]))
  {
    a[j - 1], a[j] := a[j], a[j - 1];
  }

  /** `f"... (corte al {dia:02} de {MESES[mes]} del <b>{anio}</b>)"`. */
  function Title(anio: int, mes: int, dia: int): string
    requires 1 <= mes <= 12
  {
    MesesCoversTheYear();
    "Volumen de almacenamiento de las presas de México por entidad<br>(corte al "
    + ZFill(IntToString(dia), 2) + " de " + Meses[mes] + " del <b>" + IntToString(anio) + "</b>)"
  }

  /**
   * The rows of the day's table before sorting: the state of every reading,
   * the per-state groups, the "Nacional" row of column sums and every row's
   * fill level and text colour.
   */
  function StateTable(df: seq<OfficialReading>, state: string -> Result<string>): Result<seq<Row>> {
    match LabelStates(df, state)
    case Err(e) => Err(e)
    case Ok(ls) => Levels(GroupByState(ls) + [NationalRow(GroupByState(ls))])
  }

  /**
   * When no state is called "Nacional", the national row is the only
   * yellow row of the table, and it is the last one before sorting.
   */
  lemma OnlyNationalIsYellow(df: seq<OfficialReading>, state: string -> Result<string>)
    requires forall n :: state(n).Ok? ==> state(n).value != "Nacional"
    ensures StateTable(df, state).Ok? ==>
      var rows := StateTable(df, state).value;
      rows != [] && forall i :: 0 <= i < |rows| ==> (rows[i].textColor == "#ffff00" <==> i == |rows| - 1)
  {
    if LabelStates(df, state).Ok? {
      var ls := LabelStates(df, state).value;
      LabelStatesSpec(df, state);
      GroupByStateSummarises(ls);
      var g := GroupByState(ls);
      forall k | 0 <= k < |g|
        ensures g[k].estado != "Nacional"
      {
        assert g[k] in g;
        assert g[k].estado in States(g);
        var i :| 0 <= i < |ls| && ls[i].estado == g[k].estado;
      }
      assert forall k :: 0 <= k < |g| ==> (g + [NationalRow(g)])[k] == g[k];
    }
  }

  /** No state of `Entidades` is called "Nacional", so in the script's table only the national row is yellow. */
  lemma NationalRowIsTheYellowOne(df: seq<OfficialReading>)
    ensures StateTable(df, Locator(Entidades)).Ok? ==>
      var rows := StateTable(df, Locator(Entidades)).value;
      rows != [] && forall i :: 0 <= i < |rows| ==> (rows[i].textColor == "#ffff00" <==> i == |rows| - 1)
  {
    assert "Nacional" !in Entidades.Values;
    OnlyNationalIsYellow(df, Locator(Entidades));
  }

  /** The table the script draws: its title and rows, top to bottom. */
  datatype Table = Table(titulo: string, filas: seq<Row>)

  /**
   * The data steps of `plot_table(anio, mes, dia, color)` on the readings of
   * the year's file: an impossible date, an unknown abbreviation and a zero
   * NAMO each stop it; otherwise the rows come out highest level first.
   */
  method PlotTable(rs: seq<OfficialReading>, anio: int, mes: int, dia: int) returns (r: Result<Table>)
    ensures !InDatetimeRange(Date(anio, mes, dia)) ==> r == Err(CutDate(anio, mes, dia).error)
    ensures InDatetimeRange(Date(anio, mes, dia)) ==>
      var t := StateTable(ReadingsOn(rs, Date(anio, mes, dia)), Locator(Entidades));
      (t.Err? ==> r == Err(t.error))
      && (t.Ok? ==> r.Ok? && multiset(r.value.filas) == multiset(t.value) && SortedByLevel(r.value.filas))
    ensures r.Ok? ==> 1 <= mes <= 12 && r.value.titulo == Title(anio, mes, dia)
  {
    var fecha := CutDate(anio, mes, dia);
    if fecha.Err? {
      return Err(fecha.error);
    }
    var df := ReadingsOn(rs, fecha.value);
    var tabla := StateTable(df, Locator(Entidades));
    if tabla.Err? {
      return Err(tabla.error);
    }
    var filas := SortedRows(tabla.value);
    r := Ok(Table(Title(anio, mes, dia), filas));
  }

  /** Copies the rows into an array, sorts it in place and reads it back. */
  method SortedRows(rows: seq<Row>) returns (filas: seq<Row>)
    ensures multiset(filas) == multiset(rows) && SortedByLevel(filas)
  {
    var a := new Row[|rows|](i requires 0 <= i < |rows| reads {} => rows[i]);
    assert a[..] == rows;
    SortByLevel(a);
    filas := a[..];
  }

  /** The title writes the day with two digits that read back as the day, and the month's name. */
  lemma TitleDay(anio: int, mes: int, dia: int)
    requires InDatetimeRange(Date(anio, mes, dia))
    ensures mes in Meses
    ensures |ZFill(IntToString(dia), 2)| == 2 && AllDigits(ZFill(IntToString(dia), 2))
    ensures DigitsValue(ZFill(IntToString(dia), 2)) == dia
  {
    MesesCoversTheYear();
    Pad2(dia);
  }
}
