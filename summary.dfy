/**
 * `build_document_summary_text` (utils.py:153-165): one "Document:" line per
 * document, one "Section:" line per statement, one "- label: values" line per
 * metric, joined with newlines. `str(values)` of a period dict is left to the
 * formatter `show`.
 */
module Summary {
  import opened Lists
  import opened Text
  import opened OrderedDict
  import opened Reducer
  import opened Normalizer

  /** File name -> statement name -> metrics, as the application keeps it. */
  type ExtractedData = Assoc<Statements>

  function MetricLine(metricLabel: string, values: Periods, show: Periods -> string): string {
    "- " + metricLabel + ": " + show(values)
  }

  /** The lines of the first `n` metrics of a section. */
  function MetricLines(metrics: Metrics, show: Periods -> string, n: nat): (ls: seq<string>)
    requires n <= |metrics|
    ensures |ls| == n
  {
    seq(n, k requires 0 <= k < n => MetricLine(metrics[k].0, metrics[k].1, show))
  }

  function SectionLines(name: string, metrics: Metrics, show: Periods -> string): seq<string> {
    ["Section: " + name] + MetricLines(metrics, show, |metrics|)
  }

  /** The lines of the first `n` sections of a document. */
  function SectionsLines(sections: Statements, show: Periods -> string, n: nat): seq<string>
    requires n <= |sections|
  {
    Flatten(seq(n, j requires 0 <= j < n => SectionLines(sections[j].0, sections[j].1, show)))
  }

  function DocumentLines(fname: string, sections: Statements, show: Periods -> string): seq<string> {
    ["Document: " + fname] + SectionsLines(sections, show, |sections|)
  }

  /** The lines of the first `n` documents. */
  function DocumentsLines(data: ExtractedData, show: Periods -> string, n: nat): seq<string>
    requires n <= |data|
  {
    Flatten(seq(n, i requires 0 <= i < n => DocumentLines(data[i].0, data[i].1, show)))
  }

  /** `parts` once every document has been listed. */
  function SummaryLines(data: ExtractedData, show: Periods -> string): seq<string> {
    DocumentsLines(data, show, |data|)
  }

  lemma SectionsLinesSnoc(sections: Statements, show: Periods -> string, n: nat)
    requires n < |sections|
    ensures SectionsLines(sections, show, n + 1)
            == SectionsLines(sections, show, n) + SectionLines(sections[n].0, sections[n].1, show)
  {
    var f := j requires 0 <= j < n + 1 => SectionLines(sections[j].0, sections[j].1, show);
    assert seq(n + 1, f) == seq(n, j requires 0 <= j < n => SectionLines(sections[j].0, sections[j].1, show)) + [f(n)];
    FlattenSnoc(seq(n, j requires 0 <= j < n => SectionLines(sections[j].0, sections[j].1, show)), f(n));
  }

  lemma DocumentsLinesSnoc(data: ExtractedData, show: Periods -> string, n: nat)
    requires n < |data|
    ensures DocumentsLines(data, show, n + 1)
            == DocumentsLines(data, show, n) + DocumentLines(data[n].0, data[n].1, show)
  {
    var f := i requires 0 <= i < n + 1 => DocumentLines(data[i].0, data[i].1, show);
    assert seq(n + 1, f) == seq(n, i requires 0 <= i < n => DocumentLines(data[i].0, data[i].1, show)) + [f(n)];
    FlattenSnoc(seq(n, i requires 0 <= i < n => DocumentLines(data[i].0, data[i].1, show)), f(n));
  }

  /** `build_document_summary_text(extracted_data)`, with `show` for `str` of a period dict. */
  method BuildDocumentSummaryText(data: ExtractedData, show: Periods -> string) returns (text: string)
    ensures text == JoinLines(SummaryLines(data, show))
  {
    var parts: seq<string> := [];
    for i := 0 to |data|
      invariant parts == DocumentsLines(data, show, i)
    {
      var (fname, sections) := data[i];
      ghost var before := parts;
      parts := parts + ["Document: " + fname];
      for j := 0 to |sections|
        invariant parts == before + ["Document: " + fname] + SectionsLines(sections, show, j)
      {
        var (secname, metrics) := sections[j];
        ghost var mid := parts;
        parts := parts + ["Section: " + secname];
        for k := 0 to |metrics|
          invariant parts == mid + ["Section: " + secname] + MetricLines(metrics, show, k)
        {
          var (metricLabel, values) := metrics[k];
          assert MetricLines(metrics, show, k + 1) == MetricLines(metrics, show, k) + [MetricLine(metricLabel, values, show)];
          parts := parts + ["- " + metricLabel + ": " + show(values)];
        }
        SectionsLinesSnoc(sections, show, j);
      }
      DocumentsLinesSnoc(data, show, i);
    }
    text := JoinLines(parts);
  }
}
