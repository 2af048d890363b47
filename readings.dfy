/**
 * The records the scripts read: the daily readings of the yearly files and
 * the rows of the dam catalogue, with the row selections (`df[mask]`),
 * concatenations (`pd.concat`) and column sums the scripts apply to them.
 */
module Readings {
  import opened Wrappers
  import opened Calendar

  /** One row of a yearly file: a dam's storage on a monitoring date (volumes in hm3). */
  datatype Reading = Reading(fechamonitoreo: Date, clavesih: string, almacenaactual: real, namoalmac: real)

  /**
   * One row of the dam catalogue `catalogo.csv`. A dam without a common name
   * (kept as `None` when the catalogue was built) reads back as NaN: `None` here.
   */
  datatype CatalogEntry = CatalogEntry(clavesih: string, nombrecomun: Option<string>, estado: string, namoalmac: real)

  /** `df[mask]`: the rows that satisfy `keep`, in their order. */
  function Filter<T(!new)>(s: seq<T>, keep: T -> bool): (r: seq<T>)
    ensures |r| <= |s|
    ensures forall x :: x in r <==> x in s && keep(x)
  {
    if s == [] then []
    else (if keep(s[0]) then [s[0]] else []) + Filter(s[1..], keep)
  }

  /** A row selection distributes over concatenation. */
  lemma {:induction false} FilterConcat<T(!new)>(a: seq<T>, b: seq<T>, keep: T -> bool)
    ensures Filter(a + b, keep) == Filter(a, keep) + Filter(b, keep)
  {
    if a == [] {
      assert a + b == b;
    } else {
      var head := if keep(a[0]) then [a[0]] else [];
      assert (a + b)[0] == a[0] && (a + b)[1..] == a[1..] + b;
      FilterConcat(a[1..], b, keep);
      calc {
        Filter(a + b, keep);
        head + Filter(a[1..] + b, keep);
        head + (Filter(a[1..], keep) + Filter(b, keep));
        (head + Filter(a[1..], keep)) + Filter(b, keep);
        Filter(a, keep) + Filter(b, keep);
      }
    }
  }

  /** `pd.concat(dfs, axis=0)` of a non-empty list: the frames one after the other. */
  function Concat<T>(frames: seq<seq<T>>): seq<T> {
    if frames == [] then [] else Concat(frames[..|frames| - 1]) + frames[|frames| - 1]
  }

  lemma ConcatAppend<T>(frames: seq<seq<T>>, f: seq<T>)
    ensures Concat(frames + [f]) == Concat(frames) + f
  {
    assert (frames + [f])[..|frames|] == frames;
  }

  /** A row of the concatenation is a row of one of the frames, and every such row is in it. */
  lemma {:induction false} ConcatMembers<T>(frames: seq<seq<T>>)
    ensures forall x :: x in Concat(frames) <==> exists i :: 0 <= i < |frames| && x in frames[i]
  {
    if frames != [] {
      var pre := frames[..|frames| - 1];
      ConcatMembers(pre);
      assert forall i :: 0 <= i < |pre| ==> pre[i] == frames[i];
    }
  }

  /** `df["clavesih"].isin(presas)`, as a row predicate. */
  function InPresas(presas: seq<string>): Reading -> bool {
    (x: Reading) => x.clavesih in presas
  }

  /** `df[df["clavesih"].isin(presas)]`. */
  function SelectDams(rs: seq<Reading>, presas: seq<string>): (r: seq<Reading>)
    ensures forall x :: x in r <==> x in rs && x.clavesih in presas
  {
    Filter(rs, InPresas(presas))
  }

  /**
   * The loading loop of the candle scripts: every yearly file is read, its
   * rows are narrowed to those `keep` accepts, the result is appended to
   * `dfs`, and `pd.concat(dfs)` joins them, raising `ValueError` when the
   * listing gave no file at all.
   */
  method LoadSelected(files: seq<seq<Reading>>, keep: Reading -> bool) returns (r: Result<seq<Reading>>)
    ensures r.Err? <==> files == []
    ensures r.Err? ==> r.error == ValueError("No objects to concatenate")
    ensures r.Ok? ==> r.value == Filter(Concat(files), keep)
  {
    var dfs: seq<seq<Reading>> := [];
    for i := 0 to |files|
      invariant Concat(dfs) == Filter(Concat(files[..i]), keep)
      invariant dfs == [] <==> i == 0
    {
      var df := Filter(files[i], keep);
      ConcatAppend(dfs, df);
      ConcatAppend(files[..i], files[i]);
      FilterConcat(Concat(files[..i]), files[i], keep);
      assert files[..i + 1] == files[..i] + [files[i]];
      dfs := dfs + [df];
    }
    assert files[..|files|] == files;
    if dfs == [] {
      return Err(ValueError("No objects to concatenate"));
    }
    return Ok(Concat(dfs));
  }

  /** `catalogo[catalogo["clavesih"].isin(presas)]`. */
  function SelectCatalogue(cat: seq<CatalogEntry>, presas: seq<string>): (r: seq<CatalogEntry>)
    ensures forall e :: e in r <==> e in cat && e.clavesih in presas
  {
    Filter(cat, (e: CatalogEntry) => e.clavesih in presas)
  }

  /** `catalogo["namoalmac"].sum()`. */
  function CatalogueNamo(cat: seq<CatalogEntry>): real {
    if cat == [] then 0.0 else CatalogueNamo(cat[..|cat| - 1]) + cat[|cat| - 1].namoalmac
  }

  /** The NAMO sum is non-negative when every catalogue NAMO is. */
  lemma {:induction false} CatalogueNamoNonNegative(cat: seq<CatalogEntry>)
    requires forall e :: e in cat ==> e.namoalmac >= 0.0
    ensures CatalogueNamo(cat) >= 0.0
  {
    if cat != [] {
      CatalogueNamoNonNegative(cat[..|cat| - 1]);
    }
  }
}
