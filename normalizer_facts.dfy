/**
 * What `normalize_financial_data` (utils.py:87-115) promises: which statement
 * names can appear, what each one holds, that "Extracted" appears only on its
 * own, and that nothing is stored for an empty reduction.
 */
module NormalizerFacts {
  import opened Wrappers
  import opened OrderedDict
  import opened Keywords
  import opened Reducer
  import opened ReducerFacts
  import opened Normalizer

  /** Appending the entry of a name not yet present adds that name and leaves every other lookup alone. */
  lemma LookupEntry(m: Statements, name: string, o: Option<Metrics>, k: string)
    requires name !in Keys(m)
    ensures Lookup(m + Entry(name, o), k) == if k == name then o else Lookup(m, k)
  {
    if o.Some? {
      PutFresh(m, name, o.value);
      PutLookup(m, name, o.value, k);
    } else {
      assert m + Entry(name, o) == m;
      if k == name {
        LookupSpec(m, k);
      }
    }
  }

  /** Each targeted bucket is found under its own name, and "Extracted" is not among them. */
  lemma BucketsLookup(income: Option<Metrics>, balance: Option<Metrics>, cash: Option<Metrics>)
    ensures Lookup(Buckets(income, balance, cash), IncomeName) == income
    ensures Lookup(Buckets(income, balance, cash), BalanceName) == balance
    ensures Lookup(Buckets(income, balance, cash), CashName) == cash
    ensures Lookup(Buckets(income, balance, cash), ExtractedName) == None
  {
    var e1 := Entry(IncomeName, income);
    var e2 := Entry(BalanceName, balance);
    var e3 := Entry(CashName, cash);
    EntryKeys(IncomeName, income);
    EntryKeys(BalanceName, balance);
    KeysAppend(e1, e2);
    LookupSpec<Metrics>([], IncomeName);
    LookupSpec<Metrics>([], BalanceName);
    LookupSpec<Metrics>([], CashName);
    LookupSpec<Metrics>([], ExtractedName);
    assert [] + e1 == e1;
    LookupEntry([], IncomeName, income, IncomeName);
    LookupEntry([], IncomeName, income, BalanceName);
    LookupEntry([], IncomeName, income, CashName);
    LookupEntry([], IncomeName, income, ExtractedName);
    LookupEntry(e1, BalanceName, balance, IncomeName);
    LookupEntry(e1, BalanceName, balance, BalanceName);
    LookupEntry(e1, BalanceName, balance, CashName);
    LookupEntry(e1, BalanceName, balance, ExtractedName);
    LookupEntry(e1 + e2, CashName, cash, IncomeName);
    LookupEntry(e1 + e2, CashName, cash, BalanceName);
    LookupEntry(e1 + e2, CashName, cash, CashName);
    LookupEntry(e1 + e2, CashName, cash, ExtractedName);
  }

  /** Only the three statement names can be stored by the targeted blocks, each at most once. */
  lemma BucketsKeys(income: Option<Metrics>, balance: Option<Metrics>, cash: Option<Metrics>)
    ensures forall i :: 0 <= i < |Buckets(income, balance, cash)| ==>
              Buckets(income, balance, cash)[i].0 in [IncomeName, BalanceName, CashName]
    ensures DistinctKeys(Buckets(income, balance, cash))
  {
    var e1 := Entry(IncomeName, income);
    var e2 := Entry(BalanceName, balance);
    var e3 := Entry(CashName, cash);
    EntryKeys(IncomeName, income);
    EntryKeys(BalanceName, balance);
    EntryKeys(CashName, cash);
    KeysAppend(e1, e2);
    KeysAppend(e1 + e2, e3);
  }

  /** Some row of some table has a label holding one of `keywords`. */
  predicate SomeRowMatches(tables: seq<Table>, keywords: seq<string>) {
    exists t, r :: 0 <= t < |tables| && 0 <= r < |tables[t]| && RowMatches(tables[t], r, keywords)
  }

  /** A bucket holds a reduction exactly when a trigger occurs in the text and some table row carries a metric keyword. */
  lemma GatedSomeIff(text: Option<string>, triggers: seq<string>, tables: seq<Table>, keywords: seq<string>)
    ensures Gated(text, triggers, tables, keywords).Some? <==>
            FindKeywordsInText(text, triggers) &&
            SomeRowMatches(tables, keywords)
  {
    ExtractedNoneIff(tables, keywords);
  }

  /** The lookups of a result assembled from three buckets and a fallback. */
  lemma WithFallbackLookup(a: Option<Metrics>, b: Option<Metrics>, c: Option<Metrics>, f: Option<Metrics>)
    ensures Lookup(WithFallback(Buckets(a, b, c), f), IncomeName) == a
    ensures Lookup(WithFallback(Buckets(a, b, c), f), BalanceName) == b
    ensures Lookup(WithFallback(Buckets(a, b, c), f), CashName) == c
    ensures Lookup(WithFallback(Buckets(a, b, c), f), ExtractedName) == if a.None? && b.None? && c.None? then f else None
  {
    BucketsLookup(a, b, c);
    if Buckets(a, b, c) == [] {
      assert a.None? && b.None? && c.None?;
      LookupSpec<Metrics>([], IncomeName);
      LookupSpec<Metrics>([], BalanceName);
      LookupSpec<Metrics>([], CashName);
      LookupEntry([], ExtractedName, f, IncomeName);
      LookupEntry([], ExtractedName, f, BalanceName);
      LookupEntry([], ExtractedName, f, CashName);
      LookupEntry([], ExtractedName, f, ExtractedName);
      assert [] + Entry(ExtractedName, f) == Entry(ExtractedName, f);
    }
  }

  /**
   * Each statement name holds its gated reduction; "Extracted" holds the
   * fallback reduction exactly when none of the three was filled.
   */
  lemma NormalizedLookup(text: Option<string>, tables: seq<Table>)
    ensures Lookup(Normalized(text, tables), IncomeName) == Gated(text, IncomeTriggers, tables, IncomeKeywords)
    ensures Lookup(Normalized(text, tables), BalanceName) == Gated(text, BalanceTriggers, tables, BalanceKeywords)
    ensures Lookup(Normalized(text, tables), CashName) == Gated(text, CashTriggers, tables, CashKeywords)
    ensures Lookup(Normalized(text, tables), ExtractedName) ==
            if Gated(text, IncomeTriggers, tables, IncomeKeywords).None?
               && Gated(text, BalanceTriggers, tables, BalanceKeywords).None?
               && Gated(text, CashTriggers, tables, CashKeywords).None?
            then ExtractedMetrics(tables, FallbackKeywords)
            else None
  {
    WithFallbackLookup(Gated(text, IncomeTriggers, tables, IncomeKeywords),
                       Gated(text, BalanceTriggers, tables, BalanceKeywords),
                       Gated(text, CashTriggers, tables, CashKeywords),
                       ExtractedMetrics(tables, FallbackKeywords));
  }

  /** `extract_metrics_from_tables` returns None rather than an empty dict, so a bucket is never empty. */
  lemma GatedNonEmpty(text: Option<string>, triggers: seq<string>, tables: seq<Table>, keywords: seq<string>)
    ensures Gated(text, triggers, tables, keywords) != Some([])
    ensures ExtractedMetrics(tables, keywords) != Some([])
  {
  }

  /** The shape of a result assembled from three non-empty buckets and a non-empty fallback. */
  lemma WithFallbackShape(a: Option<Metrics>, b: Option<Metrics>, c: Option<Metrics>, f: Option<Metrics>)
    requires a != Some([]) && b != Some([]) && c != Some([]) && f != Some([])
    ensures forall i :: 0 <= i < |WithFallback(Buckets(a, b, c), f)| ==>
              WithFallback(Buckets(a, b, c), f)[i].0 in [IncomeName, BalanceName, CashName, ExtractedName]
              && WithFallback(Buckets(a, b, c), f)[i].1 != []
    ensures DistinctKeys(WithFallback(Buckets(a, b, c), f))
    ensures ExtractedName in Keys(WithFallback(Buckets(a, b, c), f)) ==> |WithFallback(Buckets(a, b, c), f)| == 1
  {
    BucketsKeys(a, b, c);
    var e1 := Entry(IncomeName, a);
    var e2 := Entry(BalanceName, b);
    var e3 := Entry(CashName, c);
    assert forall i :: 0 <= i < |e1 + e2 + e3| ==> (e1 + e2 + e3)[i].1 != [];
  }

  /**
   * Only the four statement names occur, each at most once, none with an
   * empty dict, and "Extracted" only on its own.
   */
  lemma NormalizedShape(text: Option<string>, tables: seq<Table>)
    ensures forall i :: 0 <= i < |Normalized(text, tables)| ==>
              Normalized(text, tables)[i].0 in [IncomeName, BalanceName, CashName, ExtractedName]
              && Normalized(text, tables)[i].1 != []
    ensures DistinctKeys(Normalized(text, tables))
    ensures ExtractedName in Keys(Normalized(text, tables)) ==> |Normalized(text, tables)| == 1
  {
    GatedNonEmpty(text, IncomeTriggers, tables, IncomeKeywords);
    GatedNonEmpty(text, BalanceTriggers, tables, BalanceKeywords);
    GatedNonEmpty(text, CashTriggers, tables, CashKeywords);
    GatedNonEmpty(text, [], tables, FallbackKeywords);
    WithFallbackShape(Gated(text, IncomeTriggers, tables, IncomeKeywords),
                      Gated(text, BalanceTriggers, tables, BalanceKeywords),
                      Gated(text, CashTriggers, tables, CashKeywords),
                      ExtractedMetrics(tables, FallbackKeywords));
  }

  /** Without tables nothing is extracted, whatever the text says. */
  lemma NoTablesNoStatements(text: Option<string>)
    ensures Normalized(text, []) == []
  {
    ExtractedNoneIff([], IncomeKeywords);
    ExtractedNoneIff([], BalanceKeywords);
    ExtractedNoneIff([], CashKeywords);
    ExtractedNoneIff([], FallbackKeywords);
  }

  /** A statement name is stored exactly when one of its triggers is in the text and a row label holds one of its metrics. */
  lemma StatementPresent(text: Option<string>, tables: seq<Table>)
    ensures IncomeName in Keys(Normalized(text, tables)) <==>
            FindKeywordsInText(text, IncomeTriggers) &&
            SomeRowMatches(tables, IncomeKeywords)
    ensures BalanceName in Keys(Normalized(text, tables)) <==>
            FindKeywordsInText(text, BalanceTriggers) &&
            SomeRowMatches(tables, BalanceKeywords)
    ensures CashName in Keys(Normalized(text, tables)) <==>
            FindKeywordsInText(text, CashTriggers) &&
            SomeRowMatches(tables, CashKeywords)
  {
    var n := Normalized(text, tables);
    NormalizedLookup(text, tables);
    LookupSpec(n, IncomeName);
    LookupSpec(n, BalanceName);
    LookupSpec(n, CashName);
    GatedSomeIff(text, IncomeTriggers, tables, IncomeKeywords);
    GatedSomeIff(text, BalanceTriggers, tables, BalanceKeywords);
    GatedSomeIff(text, CashTriggers, tables, CashKeywords);
  }

  /** A text without any trigger phrase leaves only the fallback bucket. */
  lemma NoTriggerFallsBack(text: Option<string>, tables: seq<Table>)
    requires !FindKeywordsInText(text, IncomeTriggers)
    requires !FindKeywordsInText(text, BalanceTriggers)
    requires !FindKeywordsInText(text, CashTriggers)
    ensures Normalized(text, tables) == Entry(ExtractedName, ExtractedMetrics(tables, FallbackKeywords))
  {
    assert Targeted(text, tables) == [];
  }
}
