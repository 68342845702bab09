# Financial document QA assistant: verified model of the extraction and answering core

This project models, in Dafny, the heuristic pipeline of `utils.py` in a
small financial-document question-answering assistant. The pipeline:

- cleans numeric cells (`clean_number_string`);
- pulls numbers out of free text (`extract_numbers_from_text`, with the
  pattern `number_re`);
- tests text for keywords (`find_keywords_in_text`);
- reduces tables to label → period → value maps
  (`extract_metrics_from_tables`);
- sorts those reductions into statement buckets
  (`normalize_financial_data`);
- prints a line-per-entry summary (`build_document_summary_text`);
- answers a question with a rule-based search that carries a fixed
  confidence (`simple_qa_answer`).

Model choices:

- A table is a grid of cell strings. Row 0 holds the period headings and
  column 0 the labels.
- Rows may be ragged. A cell that a row does not reach reads as `""`,
  which is what pandas padding followed by `fillna("")` gives.
- Python dicts are insertion-ordered association lists (`OrderedDict.Assoc`).
  Assigning an existing key overwrites it in place; assigning a new key
  appends it.
- Numbers are exact `real`s.
- Where the loops fill a list or a dict, the code is a method with loop
  invariants. Each method is proved equal to a specification function,
  and lemmas state the properties of those functions.

Modules and files:

| file | module | models |
|---|---|---|
| `wrappers.dfy` | `Wrappers` | `Option` |
| `lists.dfy` | `Lists` | dropping Nones, concatenating lists |
| `text.dfy` | `Text` | ASCII `lower`, `in`, `strip`, `replace`, `"\n".join`, `split("\n")` |
| `ordered_dict.dfy` | `OrderedDict` | dict get, assignment, sequences of assignments |
| `number_cleaner.dfy` | `NumberCleaner` | `clean_number_string`, with a hand-written `float()` grammar and fallback regex |
| `number_scan.dfy` | `NumberScan` | `number_re.findall` and `extract_numbers_from_text` |
| `keywords.dfy` | `Keywords` | `find_keywords_in_text` |
| `reducer.dfy`, `reducer_facts.dfy` | `Reducer`, `ReducerFacts` | `extract_metrics_from_tables` |
| `normalizer.dfy`, `normalizer_facts.dfy` | `Normalizer`, `NormalizerFacts` | `normalize_financial_data` |
| `summary.dfy`, `summary_facts.dfy` | `Summary`, `SummaryFacts` | `build_document_summary_text` |
| `answerer.dfy`, `answerer_facts.dfy` | `Answerer`, `AnswererFacts` | `simple_qa_answer` |

## Model

| member | source | states |
|---|---|---|
| NumberCleaner.CleanNumber | utils.py:10-32 | A missing input gives None, and so does a cell that is empty after cleaning. |
| NumberCleaner.CleanExampleNone | utils.py:10-32 | None, `""` and `"abc"` all clean to None. |
| NumberCleaner.CleanNoneIffNoDigit | utils.py:10-32 | The cleaner returns a value exactly when the cell holds at least one digit, so it is total and never raises. |
| NumberCleaner.CleanLiteral | utils.py:17-23 | A plain signed decimal literal cleans to its value. |
| NumberCleaner.CleanParenthesised | utils.py:16-23 | A literal in parentheses cleans to its negation: `(1234.50)` gives -1234.5. |
| NumberCleaner.CleanCurrency | utils.py:15-23 | A leading `$` is ignored: `$2000` gives 2000. |
| NumberCleaner.CleanIgnoresSeparators | utils.py:14-15 | Commas and dollar signs anywhere in the cell do not change the result, so `(1,234.50)` cleans like `(1234.50)`. |
| NumberCleaner.CleanDependsOnScrub | utils.py:14-18 | The result depends only on the text after the replacements and the strip. |
| NumberCleaner.CleanFallback | utils.py:24-32 | When the direct parse fails, the result is the parse of the leftmost `-?\d+(\.\d+)?` match: a value when there is one, None when there is none. |
| NumberCleaner.SearchSignedNumberSpec | utils.py:26 | The fallback search finds the leftmost match, or reports that no position matches. |
| NumberCleaner.SignedNumberParses | utils.py:26-29 | Every fallback match is accepted by `float()`, so the inner `except` is unreachable. |
| NumberCleaner.ParseLiteral | utils.py:22 | `float()` reads back the value of a signed decimal literal. |
| NumberCleaner.ParseFloatHasDigit | utils.py:22 | `float()` accepts nothing without a digit. |
| NumberCleaner.ScrubKeepsDigits | utils.py:14-18 | The replacements and the strip keep every digit and add none. |
| NumberCleaner.UnpunctuateParenthesised | utils.py:14-17 | `(t)` becomes `-t` when `t` holds no rewritten character. |
| NumberScan.ExtractNumbersFromText | utils.py:34-41 | The loop returns the non-None cleaned values of the `findall` tokens, in order, and never more values than tokens. |
| NumberScan.SpansAreMatches | utils.py:8 | Every reported span is a match of `number_re` starting where it is reported. |
| NumberScan.SpansOrdered | utils.py:8 | The reported spans are left to right and do not overlap. |
| NumberScan.SpansCover | utils.py:8 | No match is missed: every position where a match starts lies inside some reported span. |
| NumberScan.PlainMatchKept | utils.py:35-40 | A token of the second alternative (it starts with a digit) always cleans to a value. |
| NumberScan.DollarKeptIffDigit | utils.py:35-40 | A `$` token cleans to a value exactly when it holds a digit. |
| NumberScan.DollarCommasDropped | utils.py:35-40 | A `$` token whose digit part is only commas gives None and is dropped. |
| NumberScan.KeptMembers | utils.py:36-40 | A value is returned exactly when some token cleans to it. |
| NumberScan.KeptAll | utils.py:36-40 | When every token cleans to a value, there is one value per token, in token order. |
| NumberScan.NoDigitNoNumbers | utils.py:34-41 | A text without a digit yields no numbers. |
| Keywords.FindKeywordsSpec | utils.py:80-85 | The test holds exactly when some lowercased keyword is a substring of the lowercased text. |
| Keywords.FindIgnoresCase | utils.py:81 | Lowercasing the text first does not change the outcome. |
| Keywords.FindInMissingText | utils.py:81 | A missing text acts as `""`, where only the empty keyword is found. |
| Keywords.FindAppend | utils.py:82-85 | The test on a joined keyword list is the disjunction of the two tests, so keyword order does not matter. |
| Reducer.CollectHeaderLike | utils.py:128-133 | `header_like` holds exactly the columns whose row-0 cell matches `20\d{2}\|FY\|Q[1-4]`, each paired with that cell. |
| Reducer.CollectRowValues | utils.py:140-147 | `row_vals` equals the ordered assignments of trimmed heading → cleaned value for columns 1 on whose cell cleans to a value. |
| Reducer.ScanRow | utils.py:136-148 | A row whose label holds one or more keywords assigns its `row_vals` once, the same as it would for a single keyword; any other row leaves `metrics` unchanged. |
| Reducer.ScanTable | utils.py:123-150 | A table applies the assignments of its matching rows in row order. A zero-row table is skipped. `header_like` has no effect. |
| Reducer.ExtractMetricsFromTables | utils.py:117-151 | The result is the ordered assignments of all tables, in table order, or None when the dict stays empty. |
| ReducerFacts.ExtractedNoneIff | utils.py:135-151 | The result is None exactly when no row of any table has a lowercased label holding a lowercased keyword. |
| ReducerFacts.MetricsKeys | utils.py:136-148 | The outer keys are exactly the trimmed, lowercased labels of the matching rows. |
| ReducerFacts.MetricsValues | utils.py:140-148 | Every outer value is the `row_vals` of a matching row with that label. |
| ReducerFacts.RowValuesKeys | utils.py:141-147 | The period keys of a row are exactly the trimmed row-0 headings of columns 1 on whose cell cleans to a value; column 0 never contributes. |
| ReducerFacts.RowValuesValues | utils.py:143-147 | Every period value is the cleaned value of that row's cell in a column with that heading. |
| ReducerFacts.ColumnReplaces | utils.py:146-147 | A later column with the same heading replaces an earlier one's value. |
| ReducerFacts.RowReplaces | utils.py:148 | A matching row replaces its label's period map and leaves every other label alone. |
| ReducerFacts.LaterTableWins | utils.py:122-148 | A later table overrides the labels it assigns and keeps the rest. |
| ReducerFacts.QuietTableIgnored | utils.py:135-148 | A table with no matching row contributes nothing. |
| ReducerFacts.EmptyTableIgnored | utils.py:130-150 | A table without rows contributes nothing. |
| ReducerFacts.MetricsDistinct | utils.py:148 | No label appears twice in the result. |
| ReducerFacts.EventsFromRows | utils.py:122-148 | The assignments made are exactly those of the matching rows of all tables. |
| Normalizer.AddGated | utils.py:96-109 | One statement block appends `name → reduction` when a trigger is in the text and the reduction exists, and leaves the result unchanged otherwise. |
| Normalizer.AddStatements | utils.py:96-109 | The three blocks build the filled buckets in Income, Balance, Cash order. |
| Normalizer.AddFallback | utils.py:111-113 | The fallback reduction is stored under `Extracted` only when the result is still empty. |
| Normalizer.NormalizeFinancialData | utils.py:87-115 | The method returns the normalised result, `Normalizer.Normalized`, whose properties the next rows state. |
| NormalizerFacts.NormalizedLookup | utils.py:96-113 | Each statement name maps to its gated reduction. `Extracted` maps to the fallback reduction exactly when all three are absent. |
| NormalizerFacts.NormalizedShape | utils.py:87-115 | The keys lie among the four bucket names and are distinct. No value is empty. `Extracted` appears only alone. |
| NormalizerFacts.StatementPresent | utils.py:96-109 | A statement name is present exactly when one of its triggers is in the text (case-insensitive, missing text as `""`) and some row label holds one of its own metric keywords. |
| NormalizerFacts.GatedSomeIff | utils.py:96-109 | A bucket is filled exactly when its trigger test passes and some row matches its keywords. |
| NormalizerFacts.GatedNonEmpty | utils.py:151 | A reduction is None rather than an empty dict, so no bucket is empty. |
| NormalizerFacts.NoTablesNoStatements | utils.py:87-115 | An empty table list gives `{}`. |
| NormalizerFacts.NoTriggerFallsBack | utils.py:96-113 | A text with no trigger phrase leaves only the `Extracted` fallback bucket. |
| NormalizerFacts.BucketsKeys | utils.py:96-109 | The targeted blocks store only the three statement names, each at most once. |
| Summary.BuildDocumentSummaryText | utils.py:153-165 | The nested loops return the `\n` join of the summary lines: a document heading, then for each section a section heading and one `- label: values` line per metric. |
| SummaryFacts.SummaryLineCount | utils.py:155-165 | There is one line per document, per section and per metric. |
| SummaryFacts.SummaryLinesMembers | utils.py:157-163 | The lines are exactly the document headings, the section headings and the metric entries. |
| SummaryFacts.LineHasNoNewline | utils.py:157-163 | Lines built from newline-free names and values hold no newline. |
| SummaryFacts.SummarySplits | utils.py:165 | Splitting the text on `\n` gives back the lines when there is data; no data gives `""`. |
| Answerer.SelectMetric | utils.py:176-181 | The loop with `break` selects the first candidate, in list order, that is a substring of the question. |
| Answerer.AnswerFor | utils.py:196-207 | A label with periods gives the year answer (0.9), else the latest answer (0.8), else the first-period answer (0.7). A label without periods gives nothing. |
| Answerer.FindLabelAnswer | utils.py:189-207 | The nested search returns the answer of the first hit in document → section → label order, or nothing when no label is a hit. |
| Answerer.NumbersAnswer | utils.py:209-220 | The fallback loop returns the numbers answer of the first document whose serialisation holds numbers, or the miss. |
| Answerer.SimpleQaAnswer | utils.py:167-220 | The whole routine returns the answer `QaAnswer` specifies. |
| Answerer.FirstHit | utils.py:193-194 | A found entry is a hit: its label holds the metric and it has a period. |
| AnswererFacts.FirstMetricSpec | utils.py:176-181 | The selected metric is a candidate contained in the question, and no earlier candidate is. None means no candidate is contained. |
| AnswererFacts.GrossProfitNeverSelected | utils.py:176 | "gross profit" is never selected, because "profit" comes earlier in the list and is contained in it. |
| AnswererFacts.ShadowedNeverSelected | utils.py:178-181 | A candidate that contains an earlier candidate is never selected. |
| AnswererFacts.FirstYearSpec | utils.py:182-183 | The year is the leftmost `20\d\d` in the question. None means there is none. |
| AnswererFacts.LatestIntentSimplified | utils.py:184 | The `"last" in q` conjunct never decides anything: a match of `last (year\|quarter\|q[1-4])` already holds "last". |
| AnswererFacts.FirstHitSpec | utils.py:189-207 | The deciding entry is a hit with no hit before it. No answer means no entry is a hit. |
| AnswererFacts.EntriesMembers | utils.py:189-193 | The search visits exactly the (label, periods) pairs of every section of every selected document. |
| AnswererFacts.PeriodWithYearSpec | utils.py:197-199 | The year answer uses the first period whose key contains the year. None means no key does. |
| AnswererFacts.DecideLabelIffHit | utils.py:189-207 | A label answer (confidence ≥ 0.7) is given exactly when some visited entry is a hit. |
| AnswererFacts.DecideYearAnswer | utils.py:196-199 | Confidence is 0.9 exactly when the first hit has a period for the year, and the text reports that period's value. Later labels are not searched for the year. |
| AnswererFacts.DecideFirstPeriodAnswer | utils.py:200-207 | Without a period for the year, the first hit reports its first period: at 0.8 with latest intent, else at 0.7. |
| AnswererFacts.DecideFallback | utils.py:208-220 | With no hit, the fallback answers. |
| AnswererFacts.FallbackConfidence | utils.py:209-220 | The fallback gives 0.4 exactly when some document's serialisation holds a number, and 0.0 exactly when none does. |
| AnswererFacts.FallbackText | utils.py:218-220 | The 0.0 answer carries the miss text. The 0.4 answer shows at most five numbers of the first non-empty list. |
| AnswererFacts.FirstNumbersFirst | utils.py:209-218 | The numbers shown come from the first document whose serialisation holds any. |
| AnswererFacts.FirstNumbersNone | utils.py:209-218 | No numbers are found exactly when no document's serialisation holds any. |
| AnswererFacts.DecideConfidence | utils.py:199-220 | The confidence is one of 0.0, 0.4, 0.7, 0.8 and 0.9. |
| AnswererFacts.QaConfidence | utils.py:167-220 | Every answer of `simple_qa_answer` has one of the five confidence levels. |
| AnswererFacts.QaNoMetric | utils.py:176-194 | A question naming no candidate metric is answered by the fallback. |
| AnswererFacts.UnknownDocMiss | utils.py:187-220 | An unknown `selected_doc` is searched as `{}`. When the serialisation of `{}` holds no digit, the answer is the miss at 0.0. |
| AnswererFacts.QaYearAnswer | utils.py:175-199 | A question whose metric hits the only entry, and whose year is in a period key, is answered with that period's value at 0.9. |
| AnswererFacts.RevenueForYear | utils.py:175-199 | A question holding "revenue" and 2023, over a revenue row with periods 2022 and 2023, is answered "revenue for 2023 is v" at 0.9, with v the 2023 value. |
| OrderedDict.PutLookup | utils.py:146-148 | After `m[k] = v`, `k` holds `v` and every other key keeps its value. |
| OrderedDict.PutKeys | utils.py:146-148 | Assignment keeps the keys and their order, and appends a new key at the end. |
| OrderedDict.PutAllLookup | utils.py:146-148 | After a sequence of assignments, a key holds the value assigned to it last. |
| OrderedDict.LookupSpec | utils.py:187 | `get` finds a value exactly when the key is present, and the value is the one stored under it. |
| Text.StripSpec | utils.py:146-148 | `strip` keeps a slice and removes all the whitespace at both ends and nothing else. |
| Text.ContainsSpec | utils.py:83 | `needle in hay` holds exactly when the needle occurs at some position. |
| Text.SplitJoinLines | utils.py:165 | Splitting on `\n` undoes the join for non-empty lists of newline-free pieces. |

## Left out

- `extract_from_pdf` and `extract_from_excel` (utils.py:43-78) are file parsing through pdfplumber, pandas and openpyxl. The text and the table grids are inputs of the model instead.
- `app.py` is not part of this model. Its Streamlit UI, session state, temporary files and HTTP call to a local language model are I/O glue.
- NumberCleaner.ParseFloat: models Python `float()` only on its decimal grammar `[+-]? (D+ ('.' D*)? | '.' D+)`. Exponents, `inf`/`nan`, underscores and binary rounding are left out, so values are exact reals.
- Text.Lower: is ASCII lowercasing. Unicode case mapping is left out. `Text.IsSpace` is the ASCII part of `str.isspace()`.
- Summary.BuildDocumentSummaryText: takes `str()` of a period dict as the parameter `show`, since Python's repr of dicts and floats is left out.
- Answerer.SimpleQaAnswer: renders values, number lists and the `str(sections)` of the fallback through the three parameter functions of `Render`. `UnknownDocMiss` therefore assumes, as a requires, that the serialisation of `{}` holds no digit, which is true of Python's `"{}"`.
- The broad `except` in `extract_metrics_from_tables` (utils.py:149-150) is modelled only for tables with no rows, where `df2.iloc[0]` raises. No other input of the model raises.
- The `f"col{col}"` heading (utils.py:142) is never used, because that line runs only when the table has rows. The model uses row 0 directly.
- The inner `except: return None` of the cleaner (utils.py:29-30) is unreachable on ASCII input, because every fallback match parses (see `SignedNumberParses`). The model has no such branch.
- The non-dict branches (`isinstance` at utils.py:160, 192 and 212) are not modelled. In the typed model every section holds a metrics dict, so the `str(metrics)` line at utils.py:163 and `text = sections` at utils.py:215 cannot occur.
- `header_like` (utils.py:128-133) is computed by `CollectHeaderLike`, as in the code, but does not influence the result.
- The docstring at utils.py:89-94 describes a period → metric shape. The model follows the code, which builds statement → label → period → value.
- The `for k, v in periods.items(): return …` loops (utils.py:203-207) are modelled as taking the first period, which is what a loop that returns on its first iteration does.
- A missing `text` argument (`None`) is modelled as `Option.None` and read as `""`, as `text or ""` does.
