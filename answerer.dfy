/**
 * `simple_qa_answer` (utils.py:167-220): a rule-based answer with a fixed
 * confidence. The question picks a metric phrase, a year and a "latest"
 * intent; the first label of the selected documents that contains the
 * metric and has a period decides the answer; otherwise the serialised
 * documents are scanned for numbers.
 *
 * Python's `str()` of a float, of a list of floats and of a section dict are
 * left to the formatters of `Render`.
 */
module Answerer {
  import opened Wrappers
  import opened Lists
  import opened Text
  import opened OrderedDict
  import opened NumberScan
  import opened Reducer
  import opened Normalizer
  import opened Summary

  datatype Answer = Answer(text: string, confidence: real)

  /** `str(v)` of a value, `str(numbers[:5])` of a list of values and `str(sections)` of a document. */
  datatype Render = Render(showValue: real -> string, showNumbers: seq<real> -> string, serialise: Statements -> string)

  const MetricCandidates := ["revenue", "net income", "net loss", "profit", "total assets", "cash", "operating income", "gross profit"]

  const MissText := "I couldn't find a precise answer in the extracted data."

  const NumbersText := "I found numbers in the document but couldn't map them precisely to your question. Examples: "

  /** The first candidate, in list order, that is a substring of `q`. */
  function FirstMetric(q: string, candidates: seq<string>): Option<string> {
    if candidates == [] then None
    else if Contains(q, candidates[0]) then Some(candidates[0])
    else FirstMetric(q, candidates[1..])
  }

  /** `re.search(r"(20\d{2})", q)` from position `i`: the leftmost match. */
  function FirstYear(q: string, i: nat): Option<string>
    decreases |q| - i
  {
    if i + 4 > |q| then None
    else if YearAt(q, i) then Some(q[i..i + 4])
    else FirstYear(q, i + 1)
  }

  /** Whether `last (year|quarter|q[1-4])` matches at position `i`. */
  predicate LastPeriodAt(q: string, i: int) {
    OccursAt(q, "last year", i) || OccursAt(q, "last quarter", i)
    || (OccursAt(q, "last q", i) && i + 6 < |q| && '1' <= q[i + 6] <= '4')
  }

  /** `re.search(r"last (year|quarter|q[1-4])", q)` from position `i` succeeds. */
  function LastPeriodFrom(q: string, i: nat): bool
    decreases |q| - i
  {
    if i >= |q| then false else LastPeriodAt(q, i) || LastPeriodFrom(q, i + 1)
  }

  /** The truth value of `latest` at utils.py:184. */
  predicate LatestIntent(q: string) {
    Contains(q, "latest") || Contains(q, "most recent") || (Contains(q, "last") && LastPeriodFrom(q, 0))
  }

  /** `docs` at utils.py:187: every document, or the selected one with `{}` when it is unknown. */
  function SelectDocs(data: ExtractedData, selected: string): ExtractedData {
    if selected == "all" then data else [(selected, Lookup(data, selected).GetOr([]))]
  }

  /** The (label, periods) entries of the first `n` sections, in section then label order. */
  function SectionsEntries(sections: Statements, n: nat): seq<(string, Periods)>
    requires n <= |sections|
  {
    Flatten(seq(n, j requires 0 <= j < n => sections[j].1))
  }

  /** The (label, periods) entries of the first `n` documents, in document, section and label order. */
  function DocsEntries(docs: ExtractedData, n: nat): seq<(string, Periods)>
    requires n <= |docs|
  {
    Flatten(seq(n, i requires 0 <= i < n => SectionsEntries(docs[i].1, |docs[i].1|)))
  }

  /** Every entry the search at utils.py:189-207 visits, in visiting order. */
  function Entries(docs: ExtractedData): seq<(string, Periods)> {
    DocsEntries(docs, |docs|)
  }

  /** An entry that ends the search: its label holds the metric and it has a period. */
  predicate Hit(metric: Option<string>, e: (string, Periods)) {
    metric.Some? && Contains(e.0, metric.value) && e.1 != []
  }

  predicate NoHit(metric: Option<string>, es: seq<(string, Periods)>) {
    forall k :: 0 <= k < |es| ==> !Hit(metric, es[k])
  }

  function FirstHit(metric: Option<string>, es: seq<(string, Periods)>): (r: Option<(string, Periods)>)
    ensures r.Some? ==> Hit(metric, r.value)
  {
    if es == [] then None
    else if Hit(metric, es[0]) then Some(es[0])
    else FirstHit(metric, es[1..])
  }

  /** The first period whose key contains `year` (`year in str(k)`). */
  function PeriodWithYear(periods: Periods, year: string): Option<(string, real)> {
    if periods == [] then None
    else if Contains(periods[0].0, year) then Some(periods[0])
    else PeriodWithYear(periods[1..], year)
  }

  /** The answer a matching label with at least one period gives (utils.py:196-207). */
  function LabelAnswer(metricLabel: string, periods: Periods, year: Option<string>, latest: bool, showValue: real -> string): Answer
    requires periods != []
  {
    if year.Some? && PeriodWithYear(periods, year.value).Some? then
      Answer(metricLabel + " for " + year.value + " is " + showValue(PeriodWithYear(periods, year.value).value.1), 0.9)
    else if latest then
      Answer(metricLabel + " (most recent found: " + periods[0].0 + ") = " + showValue(periods[0].1), 0.8)
    else
      Answer(metricLabel + " (" + periods[0].0 + ") = " + showValue(periods[0].1), 0.7)
  }

  /** The answer of the label search, if some entry is a hit. */
  function HitAnswer(docs: ExtractedData, metric: Option<string>, year: Option<string>, latest: bool, showValue: real -> string): Option<Answer> {
    match FirstHit(metric, Entries(docs))
    case Some(e) => Some(LabelAnswer(e.0, e.1, year, latest, showValue))
    case None => None
  }

  /** The numbers found in the first document whose serialisation holds any. */
  function FirstNumbers(docs: ExtractedData, serialise: Statements -> string): Option<seq<real>> {
    if docs == [] then None
    else if NumbersIn(serialise(docs[0].1)) != [] then Some(NumbersIn(serialise(docs[0].1)))
    else FirstNumbers(docs[1..], serialise)
  }

  /** The fallback at utils.py:209-220. */
  function FallbackAnswer(docs: ExtractedData, r: Render): Answer {
    match FirstNumbers(docs, r.serialise)
    case Some(ns) => Answer(NumbersText + r.showNumbers(ns[..if |ns| < 5 then |ns| else 5]), 0.4)
    case None => Answer(MissText, 0.0)
  }

  /** The answer once metric, year and intent are known. */
  function Decide(docs: ExtractedData, metric: Option<string>, year: Option<string>, latest: bool, r: Render): Answer {
    match HitAnswer(docs, metric, year, latest, r.showValue)
    case Some(a) => a
    case None => FallbackAnswer(docs, r)
  }

  /** What `simple_qa_answer(question, extracted_data, selected_doc)` returns. */
  function QaAnswer(question: string, data: ExtractedData, selected: string, r: Render): Answer {
    var q := Lower(question);
    Decide(SelectDocs(data, selected), FirstMetric(q, MetricCandidates), FirstYear(q, 0), LatestIntent(q), r)
  }

  lemma SectionsEntriesSnoc(sections: Statements, n: nat)
    requires n < |sections|
    ensures SectionsEntries(sections, n + 1) == SectionsEntries(sections, n) + sections[n].1
  {
    var f := j requires 0 <= j < n + 1 => sections[j].1;
    assert seq(n + 1, f) == seq(n, j requires 0 <= j < n => sections[j].1) + [f(n)];
    FlattenSnoc(seq(n, j requires 0 <= j < n => sections[j].1), f(n));
  }

  lemma DocsEntriesSnoc(docs: ExtractedData, n: nat)
    requires n < |docs|
    ensures DocsEntries(docs, n + 1) == DocsEntries(docs, n) + SectionsEntries(docs[n].1, |docs[n].1|)
  {
    var f := i requires 0 <= i < n + 1 => SectionsEntries(docs[i].1, |docs[i].1|);
    assert seq(n + 1, f) == seq(n, i requires 0 <= i < n => SectionsEntries(docs[i].1, |docs[i].1|)) + [f(n)];
    FlattenSnoc(seq(n, i requires 0 <= i < n => SectionsEntries(docs[i].1, |docs[i].1|)), f(n));
  }

  /** The entries of section `j` sit between those of the earlier and the later sections. */
  lemma {:induction false} SectionsEntriesSplit(sections: Statements, j: nat, n: nat) returns (rest: seq<(string, Periods)>)
    requires j < n <= |sections|
    ensures SectionsEntries(sections, n) == SectionsEntries(sections, j) + sections[j].1 + rest
    decreases n
  {
    SectionsEntriesSnoc(sections, n - 1);
    if n == j + 1 {
      rest := [];
    } else {
      var r := SectionsEntriesSplit(sections, j, n - 1);
      rest := r + sections[n - 1].1;
    }
  }

  /** The entries of document `i` sit between those of the earlier and the later documents. */
  lemma {:induction false} DocsEntriesSplit(docs: ExtractedData, i: nat, n: nat) returns (rest: seq<(string, Periods)>)
    requires i < n <= |docs|
    ensures DocsEntries(docs, n) == DocsEntries(docs, i) + SectionsEntries(docs[i].1, |docs[i].1|) + rest
    decreases n
  {
    DocsEntriesSnoc(docs, n - 1);
    if n == i + 1 {
      rest := [];
    } else {
      var r := DocsEntriesSplit(docs, i, n - 1);
      rest := r + SectionsEntries(docs[n - 1].1, |docs[n - 1].1|);
    }
  }

  lemma NoHitAppend(metric: Option<string>, a: seq<(string, Periods)>, b: seq<(string, Periods)>)
    ensures NoHit(metric, a + b) <==> NoHit(metric, a) && NoHit(metric, b)
  {
    if NoHit(metric, a) && NoHit(metric, b) {
      forall k | 0 <= k < |a + b| ensures !Hit(metric, (a + b)[k]) {
        if k < |a| { assert (a + b)[k] == a[k]; } else { assert (a + b)[k] == b[k - |a|]; }
      }
    }
    if NoHit(metric, a + b) {
      forall k | 0 <= k < |a| ensures !Hit(metric, a[k]) { assert (a + b)[k] == a[k]; }
      forall k | 0 <= k < |b| ensures !Hit(metric, b[k]) { assert (a + b)[|a| + k] == b[k]; }
    }
  }

  /** Entries that are no hits are passed over. */
  lemma {:induction false} FirstHitSkip(metric: Option<string>, a: seq<(string, Periods)>, b: seq<(string, Periods)>)
    requires NoHit(metric, a)
    ensures FirstHit(metric, a + b) == FirstHit(metric, b)
  {
    if a != [] {
      assert (a + b)[0] == a[0] && !Hit(metric, a[0]);
      assert (a + b)[1..] == a[1..] + b;
      assert forall k :: 0 <= k < |a| - 1 ==> a[1..][k] == a[k + 1];
      FirstHitSkip(metric, a[1..], b);
    } else {
      assert a + b == b;
    }
  }

  /** The search stops at the label it was looking at when it finds a hit there. */
  lemma HitAt(docs: ExtractedData, metric: Option<string>, i: nat, j: nat, l: nat)
    requires i < |docs| && j < |docs[i].1| && l < |docs[i].1[j].1|
    requires NoHit(metric, DocsEntries(docs, i))
    requires NoHit(metric, SectionsEntries(docs[i].1, j))
    requires NoHit(metric, docs[i].1[j].1[..l])
    requires Hit(metric, docs[i].1[j].1[l])
    ensures FirstHit(metric, Entries(docs)) == Some(docs[i].1[j].1[l])
  {
    var sections := docs[i].1;
    var metrics := sections[j].1;
    var e := metrics[l];
    var a := DocsEntries(docs, i);
    var b := SectionsEntries(sections, j);
    var c := metrics[..l];
    var r1 := DocsEntriesSplit(docs, i, |docs|);
    var r2 := SectionsEntriesSplit(sections, j, |sections|);
    var tail := [e] + metrics[l + 1..] + r2 + r1;
    assert metrics == c + [e] + metrics[l + 1..];
    assert Entries(docs) == a + (b + (c + tail));
    FirstHitSkip(metric, a, b + (c + tail));
    FirstHitSkip(metric, b, c + tail);
    FirstHitSkip(metric, c, tail);
  }

  lemma {:induction false} FirstHitNone(metric: Option<string>, es: seq<(string, Periods)>)
    requires NoHit(metric, es)
    ensures FirstHit(metric, es) == None
  {
    if es != [] {
      FirstHitNone(metric, es[1..]);
    }
  }

  /** The loop over `metrics_candidates` at utils.py:178-181. */
  method SelectMetric(q: string, candidates: seq<string>) returns (metric: Option<string>)
    ensures metric == FirstMetric(q, candidates)
  {
    metric := None;
    for i := 0 to |candidates|
      invariant FirstMetric(q, candidates) == FirstMetric(q, candidates[i..])
    {
      assert candidates[i..][1..] == candidates[i + 1..];
      if Contains(q, candidates[i]) {
        metric := Some(candidates[i]);
        break;
      }
    }
  }

  /** utils.py:196-207 for a label holding the metric: year, then latest, then any period. */
  method AnswerFor(metricLabel: string, periods: Periods, year: Option<string>, latest: bool, showValue: real -> string)
    returns (a: Option<Answer>)
    ensures a == if periods == [] then None else Some(LabelAnswer(metricLabel, periods, year, latest, showValue))
  {
    if year.Some? {
      for t := 0 to |periods|
        invariant PeriodWithYear(periods, year.value) == PeriodWithYear(periods[t..], year.value)
      {
        assert periods[t..][1..] == periods[t + 1..];
        var (k, v) := periods[t];
        if Contains(k, year.value) {
          return Some(Answer(metricLabel + " for " + year.value + " is " + showValue(v), 0.9));
        }
      }
    }
    if latest && periods != [] {
      var (k, v) := periods[0];
      return Some(Answer(metricLabel + " (most recent found: " + k + ") = " + showValue(v), 0.8));
    }
    if periods != [] {
      var (k, v) := periods[0];
      return Some(Answer(metricLabel + " (" + k + ") = " + showValue(v), 0.7));
    }
    return None;
  }

  /** The search at utils.py:189-207: the first hit, in document, section and label order, answers. */
  method FindLabelAnswer(docs: ExtractedData, metric: Option<string>, year: Option<string>, latest: bool, showValue: real -> string)
    returns (found: Option<Answer>)
    ensures found == HitAnswer(docs, metric, year, latest, showValue)
  {
    for i := 0 to |docs|
      invariant NoHit(metric, DocsEntries(docs, i))
    {
      var (fname, sections) := docs[i];
      for j := 0 to |sections|
        invariant NoHit(metric, SectionsEntries(sections, j))
      {
        var (secname, metrics) := sections[j];
        for l := 0 to |metrics|
          invariant NoHit(metric, metrics[..l])
        {
          var (metricLabel, periods) := metrics[l];
          if metric.Some? && Contains(metricLabel, metric.value) {
            var a := AnswerFor(metricLabel, periods, year, latest, showValue);
            if a.Some? {
              HitAt(docs, metric, i, j, l);
              return a;
            }
          }
          assert metrics[..l + 1] == metrics[..l] + [metrics[l]];
          NoHitAppend(metric, metrics[..l], [metrics[l]]);
        }
        assert metrics[..|metrics|] == metrics;
        SectionsEntriesSnoc(sections, j);
        NoHitAppend(metric, SectionsEntries(sections, j), metrics);
      }
      DocsEntriesSnoc(docs, i);
      NoHitAppend(metric, DocsEntries(docs, i), SectionsEntries(sections, |sections|));
    }
    FirstHitNone(metric, Entries(docs));
    return None;
  }

  /** The fallback loop at utils.py:209-218: the first document whose serialisation holds numbers. */
  method NumbersAnswer(docs: ExtractedData, r: Render) returns (a: Answer)
    ensures a == FallbackAnswer(docs, r)
  {
    for i := 0 to |docs|
      invariant FirstNumbers(docs, r.serialise) == FirstNumbers(docs[i..], r.serialise)
    {
      assert docs[i..][1..] == docs[i + 1..];
      var (fname, sections) := docs[i];
      var text := r.serialise(sections);
      var numbers := ExtractNumbersFromText(Some(text));
      if numbers != [] {
        return Answer(NumbersText + r.showNumbers(numbers[..if |numbers| < 5 then |numbers| else 5]), 0.4);
      }
    }
    return Answer(MissText, 0.0);
  }

  /** `simple_qa_answer(question, extracted_data, selected_doc)`. */
  method SimpleQaAnswer(question: string, data: ExtractedData, selectedDoc: string, r: Render) returns (answer: Answer)
    ensures answer == QaAnswer(question, data, selectedDoc, r)
  {
    var q := Lower(question);
    var metric := SelectMetric(q, MetricCandidates);
    var year := FirstYear(q, 0);
    var latest := LatestIntent(q);
    var docs := if selectedDoc == "all" then data else [(selectedDoc, Lookup(data, selectedDoc).GetOr([]))];
    var found := FindLabelAnswer(docs, metric, year, latest, r.showValue);
    if found.Some? {
      return found.value;
    }
    answer := NumbersAnswer(docs, r);
  }
}
