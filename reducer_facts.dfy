/**
 * What `extract_metrics_from_tables` (utils.py:117-151) promises about its
 * result: when it is None, where every outer and inner key comes from, and
 * which row wins when labels repeat.
 */
module ReducerFacts {
  import opened Wrappers
  import opened Lists
  import opened Text
  import opened OrderedDict
  import opened NumberCleaner
  import opened Reducer

  /** The assignments made by one table are exactly those of its matching rows. */
  lemma RowsEventsMembers(g: Table, keywords: seq<string>, n: nat, ev: (string, Periods))
    requires n <= |g|
    ensures ev in RowsEvents(g, keywords, n) <==> exists r :: 0 <= r < n && RowOutcome(g, r, keywords) == Some(ev)
  {
    var os := Outcomes(g, keywords, n);
    SomesMembers(os, ev);
    if Some(ev) in os {
      var r :| 0 <= r < n && os[r] == Some(ev);
      assert RowOutcome(g, r, keywords) == Some(ev);
    }
    if exists r :: 0 <= r < n && RowOutcome(g, r, keywords) == Some(ev) {
      var r :| 0 <= r < n && RowOutcome(g, r, keywords) == Some(ev);
      assert os[r] == Some(ev);
    }
  }

  /** The assignments made by all tables are those made by each table. */
  lemma EventsMembers(tables: seq<Table>, keywords: seq<string>, ev: (string, Periods))
    ensures ev in Events(tables, keywords) <==>
            exists t :: 0 <= t < |tables| && ev in RowsEvents(tables[t], keywords, |tables[t]|)
  {
    var ess := TableEvents(tables, keywords);
    FlattenMembers(ess, ev);
    if ev in Events(tables, keywords) {
      var t :| 0 <= t < |ess| && ev in ess[t];
      assert ev in RowsEvents(tables[t], keywords, |tables[t]|);
    }
    if exists t :: 0 <= t < |tables| && ev in RowsEvents(tables[t], keywords, |tables[t]|) {
      var t :| 0 <= t < |tables| && ev in RowsEvents(tables[t], keywords, |tables[t]|);
      assert ev in ess[t];
    }
  }

  /** A matching row of one of the tables, with the assignment it makes. */
  predicate MatchingRow(tables: seq<Table>, keywords: seq<string>, t: int, r: int, ev: (string, Periods)) {
    0 <= t < |tables| && 0 <= r < |tables[t]| && RowOutcome(tables[t], r, keywords) == Some(ev)
  }

  /** The assignments made by all tables are exactly those of the matching rows of every table. */
  lemma EventsFromRows(tables: seq<Table>, keywords: seq<string>, ev: (string, Periods))
    ensures ev in Events(tables, keywords) <==> exists t, r :: MatchingRow(tables, keywords, t, r, ev)
  {
    EventsMembers(tables, keywords, ev);
    if ev in Events(tables, keywords) {
      var t :| 0 <= t < |tables| && ev in RowsEvents(tables[t], keywords, |tables[t]|);
      RowsEventsMembers(tables[t], keywords, |tables[t]|, ev);
      var r :| 0 <= r < |tables[t]| && RowOutcome(tables[t], r, keywords) == Some(ev);
      assert MatchingRow(tables, keywords, t, r, ev);
    }
    if exists t, r :: MatchingRow(tables, keywords, t, r, ev) {
      var t, r :| MatchingRow(tables, keywords, t, r, ev);
      RowsEventsMembers(tables[t], keywords, |tables[t]|, ev);
    }
  }

  /** `extract_metrics_from_tables` returns None exactly when no row of any table has a label holding a keyword. */
  lemma ExtractedNoneIff(tables: seq<Table>, keywords: seq<string>)
    ensures ExtractedMetrics(tables, keywords).None? <==>
            forall t, r :: 0 <= t < |tables| && 0 <= r < |tables[t]| ==> !RowMatches(tables[t], r, keywords)
  {
    var es := Events(tables, keywords);
    if es != [] {
      EventsFromRows(tables, keywords, es[0]);
      var t, r :| MatchingRow(tables, keywords, t, r, es[0]);
      assert RowMatches(tables[t], r, keywords);
    } else {
      forall t, r | 0 <= t < |tables| && 0 <= r < |tables[t]| ensures !RowMatches(tables[t], r, keywords) {
        if RowMatches(tables[t], r, keywords) {
          EventsFromRows(tables, keywords, RowEvent(tables[t], r));
          assert MatchingRow(tables, keywords, t, r, RowEvent(tables[t], r));
        }
      }
    }
  }

  lemma KeyFromRow(tables: seq<Table>, keywords: seq<string>, t: nat, r: nat)
    requires t < |tables| && r < |tables[t]| && RowMatches(tables[t], r, keywords)
    ensures Strip(Label(tables[t], r)) in Keys(MetricsOf(tables, keywords))
  {
    var es := Events(tables, keywords);
    var ev := RowEvent(tables[t], r);
    EventsFromRows(tables, keywords, ev);
    assert MatchingRow(tables, keywords, t, r, ev);
    var j :| 0 <= j < |es| && es[j] == ev;
    PutAllKeys([], es, ev.0);
  }

  lemma RowOfKey(tables: seq<Table>, keywords: seq<string>, k: string) returns (t: nat, r: nat)
    requires k in Keys(MetricsOf(tables, keywords))
    ensures t < |tables| && r < |tables[t]| && RowMatches(tables[t], r, keywords) && Strip(Label(tables[t], r)) == k
  {
    var es := Events(tables, keywords);
    PutAllKeys([], es, k);
    var j :| 0 <= j < |es| && es[j].0 == k;
    EventsFromRows(tables, keywords, es[j]);
    t, r :| MatchingRow(tables, keywords, t, r, es[j]);
  }

  /** Every outer key is the trimmed, lowercased label of a matching row, and every such label is a key. */
  lemma MetricsKeys(tables: seq<Table>, keywords: seq<string>, k: string)
    ensures k in Keys(MetricsOf(tables, keywords)) <==>
            exists t, r :: 0 <= t < |tables| && 0 <= r < |tables[t]| && RowMatches(tables[t], r, keywords) && Strip(Label(tables[t], r)) == k
  {
    if k in Keys(MetricsOf(tables, keywords)) {
      var t, r := RowOfKey(tables, keywords, k);
    }
    forall t, r | 0 <= t < |tables| && 0 <= r < |tables[t]| && RowMatches(tables[t], r, keywords) && Strip(Label(tables[t], r)) == k
      ensures k in Keys(MetricsOf(tables, keywords))
    {
      KeyFromRow(tables, keywords, t, r);
    }
  }

  /** Every period map in the result is the `row_vals` of a matching row with that label. */
  lemma MetricsValues(tables: seq<Table>, keywords: seq<string>, k: string, p: Periods)
    requires Lookup(MetricsOf(tables, keywords), k) == Some(p)
    ensures exists t, r :: MatchingRow(tables, keywords, t, r, (k, p))
  {
    var es := Events(tables, keywords);
    PutAllLookup([], es, k);
    var j := LastWith(es, k).value;
    assert es[j] == (k, p);
    EventsFromRows(tables, keywords, es[j]);
  }

  /** Within a table, a matching row replaces the period map of its label and leaves every other label alone. */
  lemma RowReplaces(g: Table, keywords: seq<string>, n: nat, m: Metrics, k: string)
    requires n < |g|
    ensures Lookup(PutAll(m, RowsEvents(g, keywords, n + 1)), k)
            == if RowMatches(g, n, keywords) && Strip(Label(g, n)) == k then Some(RowValues(g, n))
               else Lookup(PutAll(m, RowsEvents(g, keywords, n)), k)
  {
    var es := RowsEvents(g, keywords, n);
    var ev := RowEvent(g, n);
    RowsEventsStep(g, keywords, n);
    if RowMatches(g, n, keywords) {
      PutAllSnoc(m, es, ev.0, ev.1);
      PutLookup(PutAll(m, es), ev.0, ev.1, k);
    } else {
      assert es + [] == es;
    }
  }

  lemma MetricsSnoc(tables: seq<Table>, g: Table, keywords: seq<string>)
    ensures MetricsOf(tables + [g], keywords) == PutAll(MetricsOf(tables, keywords), RowsEvents(g, keywords, |g|))
    ensures MetricsOf([g], keywords) == PutAll([], RowsEvents(g, keywords, |g|))
  {
    EventsAppend(tables, g, keywords);
    PutAllAppend([], Events(tables, keywords), RowsEvents(g, keywords, |g|));
    EventsAppend([], g, keywords);
    assert [] + [g] == [g];
    assert [] + RowsEvents(g, keywords, |g|) == RowsEvents(g, keywords, |g|);
  }

  /** A later table overrides the labels it assigns and keeps the others: later tables win. */
  lemma LaterTableWins(tables: seq<Table>, g: Table, keywords: seq<string>, k: string)
    ensures Lookup(MetricsOf(tables + [g], keywords), k)
            == if k in Keys(MetricsOf([g], keywords)) then Lookup(MetricsOf([g], keywords), k)
               else Lookup(MetricsOf(tables, keywords), k)
  {
    MetricsSnoc(tables, g, keywords);
    PutAllOverride(MetricsOf(tables, keywords), RowsEvents(g, keywords, |g|), k);
  }

  /** A table none of whose rows matches contributes nothing. */
  lemma QuietTableIgnored(tables: seq<Table>, g: Table, keywords: seq<string>)
    requires forall r :: 0 <= r < |g| ==> !RowMatches(g, r, keywords)
    ensures MetricsOf(tables + [g], keywords) == MetricsOf(tables, keywords)
  {
    var os := Outcomes(g, keywords, |g|);
    assert forall i :: 0 <= i < |os| ==> os[i] == RowOutcome(g, i, keywords);
    SomesNone(os);
    MetricsSnoc(tables, g, keywords);
  }

  /** A table without rows raises at `df2.iloc[0]`, and the `except` skips it: it contributes nothing. */
  lemma EmptyTableIgnored(tables: seq<Table>, keywords: seq<string>)
    ensures MetricsOf(tables + [[]], keywords) == MetricsOf(tables, keywords)
  {
    QuietTableIgnored(tables, [], keywords);
  }

  /** The result has no label twice. */
  lemma MetricsDistinct(tables: seq<Table>, keywords: seq<string>)
    ensures DistinctKeys(MetricsOf(tables, keywords))
  {
    PutAllDistinct([], Events(tables, keywords));
  }

  /** The assignments made for row `r` come from the columns 1 .. hi-1 whose cell yields a value. */
  lemma CellEntriesMembers(g: Table, r: nat, hi: nat, e: (string, real))
    requires r < |g|
    ensures e in CellEntries(g, r, hi) <==> exists c :: 1 <= c < hi && CellOutcome(g, r, c) == Some(e)
  {
    var os := CellOutcomes(g, r, hi);
    SomesMembers(os, e);
    if Some(e) in os {
      var c :| 0 <= c < |os| && os[c] == Some(e);
      assert c != 0 && CellOutcome(g, r, c) == Some(e);
    }
    if exists c :: 1 <= c < hi && CellOutcome(g, r, c) == Some(e) {
      var c :| 1 <= c < hi && CellOutcome(g, r, c) == Some(e);
      assert os[c] == Some(e);
    }
  }

  lemma RowValuesKeyFromColumn(g: Table, r: nat, c: nat)
    requires r < |g| && 1 <= c < Width(g) && CellValue(g, r, c).Some?
    ensures Strip(Cell(g, 0, c)) in Keys(RowValues(g, r))
  {
    var es := CellEntries(g, r, Width(g));
    var e := (Strip(Cell(g, 0, c)), CellValue(g, r, c).value);
    assert CellOutcome(g, r, c) == Some(e);
    CellEntriesMembers(g, r, Width(g), e);
    var j :| 0 <= j < |es| && es[j] == e;
    PutAllKeys([], es, e.0);
  }

  lemma RowValuesColumnOfKey(g: Table, r: nat, k: string) returns (c: nat)
    requires r < |g| && k in Keys(RowValues(g, r))
    ensures 1 <= c < Width(g) && CellValue(g, r, c).Some? && Strip(Cell(g, 0, c)) == k
  {
    var es := CellEntries(g, r, Width(g));
    PutAllKeys([], es, k);
    var j :| 0 <= j < |es| && es[j].0 == k;
    CellEntriesMembers(g, r, Width(g), es[j]);
    c :| 1 <= c < Width(g) && CellOutcome(g, r, c) == Some(es[j]);
  }

  /** Every period key of a row is the trimmed heading of a column from 1 on whose cell yields a value, and each such heading is a key. */
  lemma RowValuesKeys(g: Table, r: nat, k: string)
    requires r < |g|
    ensures k in Keys(RowValues(g, r)) <==> exists c :: 1 <= c < Width(g) && CellValue(g, r, c).Some? && Strip(Cell(g, 0, c)) == k
  {
    if k in Keys(RowValues(g, r)) {
      var c := RowValuesColumnOfKey(g, r, k);
    }
    forall c | 1 <= c < Width(g) && CellValue(g, r, c).Some? && Strip(Cell(g, 0, c)) == k
      ensures k in Keys(RowValues(g, r))
    {
      RowValuesKeyFromColumn(g, r, c);
    }
  }

  /** Every period value of a row is the cleaned value of that row's cell in a column from 1 on with that heading. */
  lemma RowValuesValues(g: Table, r: nat, k: string, v: real)
    requires r < |g| && Lookup(RowValues(g, r), k) == Some(v)
    ensures exists c :: 1 <= c < Width(g) && Strip(Cell(g, 0, c)) == k && CellValue(g, r, c) == Some(v)
  {
    var es := CellEntries(g, r, Width(g));
    PutAllLookup([], es, k);
    var j := LastWith(es, k).value;
    assert es[j] == (k, v);
    CellEntriesMembers(g, r, Width(g), es[j]);
    var c :| 1 <= c < Width(g) && CellOutcome(g, r, c) == Some(es[j]);
    assert Strip(Cell(g, 0, c)) == k && CellValue(g, r, c) == Some(v);
  }

  /** Within a row, a later column with the same heading replaces the value of an earlier one. */
  lemma ColumnReplaces(g: Table, r: nat, c: nat, k: string)
    requires r < |g| && 1 <= c
    ensures Lookup(PutAll([], CellEntries(g, r, c + 1)), k)
            == if CellValue(g, r, c).Some? && Strip(Cell(g, 0, c)) == k then CellValue(g, r, c)
               else Lookup(PutAll([], CellEntries(g, r, c)), k)
  {
    var os := CellOutcomes(g, r, c);
    CellOutcomesSnoc(g, r, c);
    PutAllSomesSnoc([], os, CellOutcome(g, r, c));
    match CellOutcome(g, r, c)
    case Some(e) => PutLookup(PutAll([], Somes(os)), e.0, e.1, k);
    case None =>
  }
}
