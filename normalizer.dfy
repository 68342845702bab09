/**
 * `normalize_financial_data` (utils.py:87-115): three statement buckets,
 * each gated on trigger phrases in the document text and filled by the
 * table reducer with its own metric keywords, plus an "Extracted" bucket
 * that is used only when none of the three was filled. The result maps a
 * statement name to the reducer's label -> period -> value dict.
 */
module Normalizer {
  import opened Wrappers
  import opened Lists
  import opened OrderedDict
  import opened Keywords
  import opened Reducer

  type Statements = Assoc<Metrics>

  const IncomeName := "Income Statement"
  const BalanceName := "Balance Sheet"
  const CashName := "Cash Flow"
  const ExtractedName := "Extracted"

  const IncomeTriggers := ["income statement", "statement of operations", "profit and loss", "revenue"]
  const IncomeKeywords := ["revenue", "net income", "gross profit", "operating income", "total revenue", "profit"]
  const BalanceTriggers := ["balance sheet", "assets", "liabilities", "equity"]
  const BalanceKeywords := ["total assets", "total liabilities", "shareholders' equity", "equity"]
  const CashTriggers := ["cash flow", "cash flows", "net cash", "cash and cash equivalents"]
  const CashKeywords := ["net cash provided", "net cash", "cash flows from operating", "cash and cash equivalents"]
  const FallbackKeywords := ["revenue", "net income", "total assets"]

  /** A statement bucket: the reduction with `keywords` when the text holds one of `triggers`. */
  function Gated(text: Option<string>, triggers: seq<string>, tables: seq<Table>, keywords: seq<string>): Option<Metrics> {
    if FindKeywordsInText(text, triggers) then ExtractedMetrics(tables, keywords) else None
  }

  /** The entry `result[name] = bucket` adds when the bucket is filled. */
  function Entry(name: string, o: Option<Metrics>): Statements {
    match o
    case Some(m) => [(name, m)]
    case None => []
  }

  /** The filled ones of the three targeted buckets, in the order the code stores them. */
  function Buckets(income: Option<Metrics>, balance: Option<Metrics>, cash: Option<Metrics>): Statements {
    Entry(IncomeName, income) + Entry(BalanceName, balance) + Entry(CashName, cash)
  }

  /** The result of the three statement blocks. */
  function Targeted(text: Option<string>, tables: seq<Table>): Statements {
    Buckets(Gated(text, IncomeTriggers, tables, IncomeKeywords),
            Gated(text, BalanceTriggers, tables, BalanceKeywords),
            Gated(text, CashTriggers, tables, CashKeywords))
  }

  /** The "Extracted" bucket (utils.py:111-113) is used only when no targeted bucket was filled. */
  function WithFallback(targeted: Statements, fallback: Option<Metrics>): Statements {
    if targeted == [] then Entry(ExtractedName, fallback) else targeted
  }

  /** What `normalize_financial_data(text, tables)` returns. */
  function Normalized(text: Option<string>, tables: seq<Table>): Statements {
    WithFallback(Targeted(text, tables), ExtractedMetrics(tables, FallbackKeywords))
  }

  /**
   * One statement block of utils.py:96-109: the reducer runs only when a
   * trigger occurs in the text, and a non-empty reduction is stored under
   * `name`, which is not yet in the result.
   */
  method AddGated(result: Statements, name: string, text: Option<string>, triggers: seq<string>,
                  tables: seq<Table>, keywords: seq<string>)
    returns (out: Statements)
    requires name !in Keys(result)
    ensures out == result + Entry(name, Gated(text, triggers, tables, keywords))
  {
    out := result;
    if FindKeywordsInText(text, triggers) {
      var metrics := ExtractMetricsFromTables(tables, keywords);
      if metrics.Some? {
        PutFresh(result, name, metrics.value);
        out := Put(result, name, metrics.value);
      }
    }
  }

  lemma EntryKeys(name: string, o: Option<Metrics>)
    ensures Keys(Entry(name, o)) == if o.Some? then [name] else []
  {
  }

  lemma KeysAppend<V>(a: Assoc<V>, b: Assoc<V>)
    ensures Keys(a + b) == Keys(a) + Keys(b)
  {
  }

  /** The three statement blocks of utils.py:96-109, given their trigger and keyword lists. */
  method AddStatements(text: Option<string>, tables: seq<Table>,
                       incomeTriggers: seq<string>, incomeKeywords: seq<string>,
                       balanceTriggers: seq<string>, balanceKeywords: seq<string>,
                       cashTriggers: seq<string>, cashKeywords: seq<string>)
    returns (result: Statements)
    ensures result == Buckets(Gated(text, incomeTriggers, tables, incomeKeywords),
                              Gated(text, balanceTriggers, tables, balanceKeywords),
                              Gated(text, cashTriggers, tables, cashKeywords))
  {
    ghost var e1 := Entry(IncomeName, Gated(text, incomeTriggers, tables, incomeKeywords));
    ghost var e2 := Entry(BalanceName, Gated(text, balanceTriggers, tables, balanceKeywords));
    EntryKeys(IncomeName, Gated(text, incomeTriggers, tables, incomeKeywords));
    EntryKeys(BalanceName, Gated(text, balanceTriggers, tables, balanceKeywords));
    KeysAppend(e1, e2);
    result := AddGated([], IncomeName, text, incomeTriggers, tables, incomeKeywords);
    assert result == e1;
    result := AddGated(result, BalanceName, text, balanceTriggers, tables, balanceKeywords);
    result := AddGated(result, CashName, text, cashTriggers, tables, cashKeywords);
  }

  /** utils.py:111-113: the fallback reduction is always computed, and stored only in an empty result. */
  method AddFallback(result: Statements, tables: seq<Table>, keywords: seq<string>) returns (out: Statements)
    ensures out == WithFallback(result, ExtractedMetrics(tables, keywords))
  {
    out := result;
    var fallback := ExtractMetricsFromTables(tables, keywords);
    if fallback.Some? && result == [] {
      out := Put(result, ExtractedName, fallback.value);
    }
  }

  /** `normalize_financial_data(text, tables)`; `None` stands for a missing text. */
  method NormalizeFinancialData(text: Option<string>, tables: seq<Table>) returns (result: Statements)
    ensures result == Normalized(text, tables)
  {
    result := AddStatements(text, tables, IncomeTriggers, IncomeKeywords, BalanceTriggers, BalanceKeywords,
                            CashTriggers, CashKeywords);
    result := AddFallback(result, tables, FallbackKeywords);
  }
}
