/**
 * `extract_metrics_from_tables` (utils.py:117-151). A table is the grid of
 * cell strings that `df.fillna("").astype(str)` produces: row 0 holds the
 * period headings, column 0 the metric labels. Rows may be ragged; a cell a
 * row does not reach reads as "", as pandas pads short rows with missing
 * values that `fillna("")` turns into "".
 */
module Reducer {
  import opened Wrappers
  import opened Lists
  import opened Text
  import opened OrderedDict
  import opened NumberCleaner
  import opened Keywords

  type Table = seq<seq<string>>

  /** period heading -> cleaned value, for one metric row. */
  type Periods = Assoc<real>

  /** trimmed lowercased label -> periods. */
  type Metrics = Assoc<Periods>

  /** `df.shape[1]`: the length of the longest row. */
  function Width(g: Table): (w: nat)
    ensures forall r :: 0 <= r < |g| ==> |g[r]| <= w
    ensures g != [] ==> exists r :: 0 <= r < |g| && |g[r]| == w
    ensures g == [] ==> w == 0
  {
    if g == [] then 0
    else
      var w := Width(g[..|g| - 1]);
      assert forall r :: 0 <= r < |g| - 1 ==> g[r] == g[..|g| - 1][r];
      if |g[|g| - 1]| > w then |g[|g| - 1]| else w
  }

  /** `df2.iloc[r, c]`. */
  function Cell(g: Table, r: nat, c: nat): string
    requires r < |g|
  {
    if c < |g[r]| then g[r][c] else ""
  }

  /** `row0` at utils.py:136: the lowercased label cell of row `r` ("" in a table without columns). */
  function Label(g: Table, r: nat): string
    requires r < |g|
  {
    if Width(g) > 0 then Lower(Cell(g, r, 0)) else ""
  }

  /** Whether a header cell matches `20\d{2}|FY|Q[1-4]` somewhere. */
  predicate PeriodLike(v: string) {
    exists i :: 0 <= i < |v| && (YearAt(v, i) || OccursAt(v, "FY", i) || (i + 1 < |v| && v[i] == 'Q' && '1' <= v[i + 1] <= '4'))
  }

  function PeriodLikeFrom(v: string, i: nat): (b: bool)
    requires i <= |v|
    ensures b <==> exists j :: i <= j < |v| && (YearAt(v, j) || OccursAt(v, "FY", j) || (j + 1 < |v| && v[j] == 'Q' && '1' <= v[j + 1] <= '4'))
    decreases |v| - i
  {
    if i == |v| then false
    else if YearAt(v, i) || OccursAt(v, "FY", i) || (i + 1 < |v| && v[i] == 'Q' && '1' <= v[i + 1] <= '4') then true
    else PeriodLikeFrom(v, i + 1)
  }

  /** The (column, heading) pairs of row 0 that look like periods (`header_like`, utils.py:128-133). */
  method CollectHeaderLike(g: Table) returns (headerLike: seq<(nat, string)>)
    requires |g| > 0
    ensures forall p :: p in headerLike ==> p.0 < Width(g) && p.1 == Cell(g, 0, p.0) && PeriodLike(p.1)
    ensures forall j :: 0 <= j < Width(g) && PeriodLike(Cell(g, 0, j)) ==> (j, Cell(g, 0, j)) in headerLike
  {
    headerLike := [];
    var w := Width(g);
    for j := 0 to w
      invariant forall p :: p in headerLike ==> p.0 < j && p.1 == Cell(g, 0, p.0) && PeriodLike(p.1)
      invariant forall j' :: 0 <= j' < j && PeriodLike(Cell(g, 0, j')) ==> (j', Cell(g, 0, j')) in headerLike
    {
      var v := Cell(g, 0, j);
      if PeriodLikeFrom(v, 0) {
        headerLike := headerLike + [(j, v)];
      }
    }
  }

  /** `clean_number_string(df2.iloc[r, c])`. */
  function CellValue(g: Table, r: nat, c: nat): Option<real>
    requires r < |g|
  {
    CleanNumber(Some(Cell(g, r, c)))
  }

  /** What column `c` contributes to `row_vals`: the trimmed heading and the cleaned value, when there is one. */
  function CellOutcome(g: Table, r: nat, c: nat): Option<(string, real)>
    requires r < |g|
  {
    match CellValue(g, r, c)
    case Some(v) => Some((Strip(Cell(g, 0, c)), v))
    case None => None
  }

  /** The outcomes of columns 0 .. hi-1; column 0 holds the label and contributes nothing. */
  function CellOutcomes(g: Table, r: nat, hi: nat): (os: seq<Option<(string, real)>>)
    requires r < |g|
    ensures |os| == hi
  {
    seq(hi, c requires 0 <= c => if c == 0 then None else CellOutcome(g, r, c))
  }

  lemma CellOutcomesSnoc(g: Table, r: nat, c: nat)
    requires r < |g| && 1 <= c
    ensures CellOutcomes(g, r, c + 1) == CellOutcomes(g, r, c) + [CellOutcome(g, r, c)]
  {
  }

  /** The assignments `row_vals[key] = val` made for row `r`, over columns 1 .. hi-1. */
  function CellEntries(g: Table, r: nat, hi: nat): seq<(string, real)>
    requires r < |g|
  {
    Somes(CellOutcomes(g, r, hi))
  }

  /** `row_vals` for row `r`: trimmed heading of each column from 1 on -> cleaned value, where there is one. */
  function RowValues(g: Table, r: nat): Periods
    requires r < |g|
  {
    PutAll([], CellEntries(g, r, Width(g)))
  }

  /** The assignment `metrics[row0.strip()] = row_vals` a matching row makes. */
  function RowEvent(g: Table, r: nat): (string, Periods)
    requires r < |g|
  {
    (Strip(Label(g, r)), RowValues(g, r))
  }

  predicate RowMatches(g: Table, r: nat, keywords: seq<string>)
    requires r < |g|
  {
    AnyIn(Label(g, r), keywords)
  }

  /** What row `r` contributes: the assignment `metrics[row0.strip()] = row_vals` when its label holds a keyword. */
  function RowOutcome(g: Table, r: nat, keywords: seq<string>): Option<(string, Periods)>
    requires r < |g|
  {
    if RowMatches(g, r, keywords) then Some(RowEvent(g, r)) else None
  }

  function Outcomes(g: Table, keywords: seq<string>, n: nat): (os: seq<Option<(string, Periods)>>)
    requires n <= |g|
    ensures |os| == n
  {
    seq(n, r requires 0 <= r < n => RowOutcome(g, r, keywords))
  }

  /** The assignments to `metrics` made by rows 0 .. n-1 of `g`, one per matching row. */
  function RowsEvents(g: Table, keywords: seq<string>, n: nat): seq<(string, Periods)>
    requires n <= |g|
  {
    Somes(Outcomes(g, keywords, n))
  }

  lemma OutcomesSnoc(g: Table, keywords: seq<string>, n: nat)
    requires n < |g|
    ensures Outcomes(g, keywords, n + 1) == Outcomes(g, keywords, n) + [RowOutcome(g, n, keywords)]
  {
  }

  lemma RowsEventsStep(g: Table, keywords: seq<string>, n: nat)
    requires n < |g|
    ensures RowsEvents(g, keywords, n + 1) == RowsEvents(g, keywords, n) + (if RowMatches(g, n, keywords) then [RowEvent(g, n)] else [])
  {
    OutcomesSnoc(g, keywords, n);
    assert Outcomes(g, keywords, n + 1)[..n] == Outcomes(g, keywords, n);
  }

  /** The assignments to `metrics` made by each table, in table order. */
  function TableEvents(tables: seq<Table>, keywords: seq<string>): (ess: seq<seq<(string, Periods)>>)
    ensures |ess| == |tables|
  {
    seq(|tables|, t requires 0 <= t < |tables| => RowsEvents(tables[t], keywords, |tables[t]|))
  }

  /** The assignments to `metrics` made by all tables, in table order and row order. */
  function Events(tables: seq<Table>, keywords: seq<string>): seq<(string, Periods)> {
    Flatten(TableEvents(tables, keywords))
  }

  lemma TableEventsAppend(tables: seq<Table>, g: Table, keywords: seq<string>)
    ensures TableEvents(tables + [g], keywords) == TableEvents(tables, keywords) + [RowsEvents(g, keywords, |g|)]
  {
    var all := tables + [g];
    assert forall t :: 0 <= t < |tables| ==> all[t] == tables[t];
  }

  lemma EventsAppend(tables: seq<Table>, g: Table, keywords: seq<string>)
    ensures Events(tables + [g], keywords) == Events(tables, keywords) + RowsEvents(g, keywords, |g|)
  {
    TableEventsAppend(tables, g, keywords);
    FlattenSnoc(TableEvents(tables, keywords), RowsEvents(g, keywords, |g|));
  }

  /** The `metrics` dict after every table has been scanned. */
  function MetricsOf(tables: seq<Table>, keywords: seq<string>): Metrics {
    PutAll([], Events(tables, keywords))
  }

  /** Scanning one more table makes its rows' assignments after those of the tables before it. */
  lemma MetricsOfStep(tables: seq<Table>, t: nat, keywords: seq<string>)
    requires t < |tables|
    ensures MetricsOf(tables[..t + 1], keywords) == PutAll(MetricsOf(tables[..t], keywords), RowsEvents(tables[t], keywords, |tables[t]|))
  {
    assert tables[..t + 1] == tables[..t] + [tables[t]];
    EventsAppend(tables[..t], tables[t], keywords);
    PutAllAppend([], Events(tables[..t], keywords), RowsEvents(tables[t], keywords, |tables[t]|));
  }

  /** What `extract_metrics_from_tables(tables, keywords)` returns: None for an empty dict. */
  function ExtractedMetrics(tables: seq<Table>, keywords: seq<string>): Option<Metrics> {
    var m := MetricsOf(tables, keywords);
    if m == [] then None else Some(m)
  }

  /** The loop over columns at utils.py:140-147. */
  method CollectRowValues(g: Table, idx: nat) returns (rowVals: Periods)
    requires idx < |g|
    ensures rowVals == RowValues(g, idx)
  {
    rowVals := [];
    var w := Width(g);
    var col := 1;
    assert Somes(CellOutcomes(g, idx, 1)) == Somes([None]) == [];
    while col < w
      invariant 1 <= col <= if w == 0 then 1 else w
      invariant rowVals == PutAll([], CellEntries(g, idx, col))
    {
      var heading := Cell(g, 0, col);
      var valRaw := Cell(g, idx, col);
      var val := CleanNumber(Some(valRaw));
      CellOutcomesSnoc(g, idx, col);
      PutAllSomesSnoc([], CellOutcomes(g, idx, col), CellOutcome(g, idx, col));
      ghost var before := rowVals;
      if val.Some? {
        var key := Strip(heading);
        rowVals := Put(rowVals, key, val.value);
      }
      assert rowVals == PutOpt(before, CellOutcome(g, idx, col));
      col := col + 1;
    }
    if w == 0 {
      assert CellEntries(g, idx, col) == [] == CellEntries(g, idx, w);
    } else {
      assert col == w;
    }
  }

  lemma KeywordsPrefixStep(low: string, keywords: seq<string>, k: nat)
    requires k < |keywords|
    ensures AnyIn(low, keywords[..k + 1]) == (AnyIn(low, keywords[..k]) || Contains(low, Lower(keywords[k])))
  {
    AnyInSpec(low, keywords[..k + 1]);
    AnyInSpec(low, keywords[..k]);
    assert forall k' :: 0 <= k' < k ==> keywords[..k + 1][k'] == keywords[..k][k'];
    assert keywords[..k + 1][k] == keywords[k];
  }

  /** The loop over keywords at utils.py:137-148 for row `idx`: every matching keyword assigns the same entry again. */
  method ScanRow(g: Table, idx: nat, keywords: seq<string>, metrics: Metrics) returns (out: Metrics)
    requires idx < |g|
    ensures out == PutOpt(metrics, RowOutcome(g, idx, keywords))
  {
    out := metrics;
    var row0 := if Width(g) > 0 then Lower(Cell(g, idx, 0)) else "";
    assert row0 == Label(g, idx);
    ghost var ev := RowEvent(g, idx);
    assert ev == (Strip(row0), RowValues(g, idx));
    for k := 0 to |keywords|
      invariant out == if AnyIn(row0, keywords[..k]) then Put(metrics, ev.0, ev.1) else metrics
    {
      ghost var seen := AnyIn(row0, keywords[..k]);
      KeywordsPrefixStep(row0, keywords, k);
      if Contains(row0, Lower(keywords[k])) {
        var rowVals := CollectRowValues(g, idx);
        if seen {
          PutTwice(metrics, ev.0, ev.1);
        }
        out := Put(out, Strip(row0), rowVals);
      }
    }
    assert keywords[..|keywords|] == keywords;
  }

  /**
   * The body of the loop over tables (utils.py:123-150). A table without rows
   * raises IndexError at `df2.iloc[0]`, which the `except` turns into `continue`.
   */
  method ScanTable(g: Table, keywords: seq<string>, metrics: Metrics) returns (out: Metrics)
    ensures out == PutAll(metrics, RowsEvents(g, keywords, |g|))
  {
    if |g| == 0 {
      return metrics;
    }
    var headerLike := CollectHeaderLike(g);
    out := metrics;
    for idx := 0 to |g|
      invariant out == PutAll(metrics, RowsEvents(g, keywords, idx))
    {
      OutcomesSnoc(g, keywords, idx);
      PutAllSomesSnoc(metrics, Outcomes(g, keywords, idx), RowOutcome(g, idx, keywords));
      out := ScanRow(g, idx, keywords, out);
    }
  }

  /** `extract_metrics_from_tables(tables, metric_keywords)`. */
  method ExtractMetricsFromTables(tables: seq<Table>, keywords: seq<string>) returns (r: Option<Metrics>)
    ensures r == ExtractedMetrics(tables, keywords)
  {
    var metrics: Metrics := [];
    for t := 0 to |tables|
      invariant metrics == MetricsOf(tables[..t], keywords)
    {
      MetricsOfStep(tables, t, keywords);
      metrics := ScanTable(tables[t], keywords, metrics);
    }
    assert tables[..|tables|] == tables;
    r := if metrics == [] then None else Some(metrics);
  }
}
