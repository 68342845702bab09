/**
 * What `build_document_summary_text` (utils.py:153-165) promises: how many
 * lines it writes, that every line is the heading of a document or section
 * or a metric entry and every one of those is written, and that splitting
 * the text at newlines gives the lines back.
 */
module SummaryFacts {
  import opened Lists
  import opened Text
  import opened OrderedDict
  import opened Reducer
  import opened Normalizer
  import opened Summary

  /** Lines written for the first `n` sections: a heading plus one line per metric each. */
  function SectionsCount(sections: Statements, n: nat): nat
    requires n <= |sections|
  {
    if n == 0 then 0 else SectionsCount(sections, n - 1) + 1 + |sections[n - 1].1|
  }

  /** Lines written for the first `n` documents: a heading plus the lines of its sections each. */
  function LineCount(data: ExtractedData, n: nat): nat
    requires n <= |data|
  {
    if n == 0 then 0 else LineCount(data, n - 1) + 1 + SectionsCount(data[n - 1].1, |data[n - 1].1|)
  }

  lemma {:induction false} SectionsLinesLength(sections: Statements, show: Periods -> string, n: nat)
    requires n <= |sections|
    ensures |SectionsLines(sections, show, n)| == SectionsCount(sections, n)
  {
    if n > 0 {
      SectionsLinesLength(sections, show, n - 1);
      SectionsLinesSnoc(sections, show, n - 1);
    }
  }

  lemma {:induction false} DocumentsLinesLength(data: ExtractedData, show: Periods -> string, n: nat)
    requires n <= |data|
    ensures |DocumentsLines(data, show, n)| == LineCount(data, n)
  {
    if n > 0 {
      DocumentsLinesLength(data, show, n - 1);
      DocumentsLinesSnoc(data, show, n - 1);
      SectionsLinesLength(data[n - 1].1, show, |data[n - 1].1|);
    }
  }

  /** The summary has one line per document, per section and per metric. */
  lemma SummaryLineCount(data: ExtractedData, show: Periods -> string)
    ensures |SummaryLines(data, show)| == LineCount(data, |data|)
  {
    DocumentsLinesLength(data, show, |data|);
  }

  lemma MetricLinesMembers(metrics: Metrics, show: Periods -> string, line: string)
    ensures line in MetricLines(metrics, show, |metrics|) <==>
            exists k :: 0 <= k < |metrics| && line == MetricLine(metrics[k].0, metrics[k].1, show)
  {
    var ls := MetricLines(metrics, show, |metrics|);
    if line in ls {
      var k :| 0 <= k < |ls| && ls[k] == line;
      assert line == MetricLine(metrics[k].0, metrics[k].1, show);
    }
    if exists k :: 0 <= k < |metrics| && line == MetricLine(metrics[k].0, metrics[k].1, show) {
      var k :| 0 <= k < |metrics| && line == MetricLine(metrics[k].0, metrics[k].1, show);
      assert ls[k] == line;
    }
  }

  lemma SectionsMembers(sections: Statements, show: Periods -> string, line: string)
    ensures line in SectionsLines(sections, show, |sections|) <==>
            exists j :: 0 <= j < |sections| && line in SectionLines(sections[j].0, sections[j].1, show)
  {
    var n := |sections|;
    var ss := seq(n, j requires 0 <= j < n => SectionLines(sections[j].0, sections[j].1, show));
    FlattenMembers(ss, line);
    if line in SectionsLines(sections, show, n) {
      var j :| 0 <= j < n && line in ss[j];
      assert line in SectionLines(sections[j].0, sections[j].1, show);
    }
    if exists j :: 0 <= j < n && line in SectionLines(sections[j].0, sections[j].1, show) {
      var j :| 0 <= j < n && line in SectionLines(sections[j].0, sections[j].1, show);
      assert line in ss[j];
    }
  }

  lemma DocumentsMembers(data: ExtractedData, show: Periods -> string, line: string)
    ensures line in SummaryLines(data, show) <==>
            exists i :: 0 <= i < |data| && line in DocumentLines(data[i].0, data[i].1, show)
  {
    var n := |data|;
    var ss := seq(n, i requires 0 <= i < n => DocumentLines(data[i].0, data[i].1, show));
    FlattenMembers(ss, line);
    if line in SummaryLines(data, show) {
      var i :| 0 <= i < n && line in ss[i];
      assert line in DocumentLines(data[i].0, data[i].1, show);
    }
    if exists i :: 0 <= i < n && line in DocumentLines(data[i].0, data[i].1, show) {
      var i :| 0 <= i < n && line in DocumentLines(data[i].0, data[i].1, show);
      assert line in ss[i];
    }
  }

  predicate DocumentHeading(data: ExtractedData, line: string) {
    exists i :: 0 <= i < |data| && line == "Document: " + data[i].0
  }

  predicate SectionHeading(data: ExtractedData, line: string) {
    exists i, j :: 0 <= i < |data| && 0 <= j < |data[i].1| && line == "Section: " + data[i].1[j].0
  }

  predicate MetricEntry(data: ExtractedData, show: Periods -> string, line: string) {
    exists i, j, k :: 0 <= i < |data| && 0 <= j < |data[i].1| && 0 <= k < |data[i].1[j].1|
                      && line == MetricLine(data[i].1[j].1[k].0, data[i].1[j].1[k].1, show)
  }

  /** Every summary line is a document heading, a section heading or a metric entry. */
  lemma LineSource(data: ExtractedData, show: Periods -> string, line: string)
    requires line in SummaryLines(data, show)
    ensures DocumentHeading(data, line) || SectionHeading(data, line) || MetricEntry(data, show, line)
  {
    DocumentsMembers(data, show, line);
    var i :| 0 <= i < |data| && line in DocumentLines(data[i].0, data[i].1, show);
    var sections := data[i].1;
    if line != "Document: " + data[i].0 {
      assert line in SectionsLines(sections, show, |sections|);
      SectionsMembers(sections, show, line);
      var j :| 0 <= j < |sections| && line in SectionLines(sections[j].0, sections[j].1, show);
      if line != "Section: " + sections[j].0 {
        var metrics := sections[j].1;
        assert line in MetricLines(metrics, show, |metrics|);
        MetricLinesMembers(metrics, show, line);
        var k :| 0 <= k < |metrics| && line == MetricLine(metrics[k].0, metrics[k].1, show);
        assert MetricEntry(data, show, line);
      } else {
        assert SectionHeading(data, line);
      }
    } else {
      assert DocumentHeading(data, line);
    }
  }

  /** Every document heading, section heading and metric entry is written. */
  lemma LineWritten(data: ExtractedData, show: Periods -> string, line: string)
    requires DocumentHeading(data, line) || SectionHeading(data, line) || MetricEntry(data, show, line)
    ensures line in SummaryLines(data, show)
  {
    if DocumentHeading(data, line) {
      var i :| 0 <= i < |data| && line == "Document: " + data[i].0;
      assert line in DocumentLines(data[i].0, data[i].1, show);
      DocumentsMembers(data, show, line);
    } else if SectionHeading(data, line) {
      var i, j :| 0 <= i < |data| && 0 <= j < |data[i].1| && line == "Section: " + data[i].1[j].0;
      var sections := data[i].1;
      assert line in SectionLines(sections[j].0, sections[j].1, show);
      SectionsMembers(sections, show, line);
      assert line in DocumentLines(data[i].0, data[i].1, show);
      DocumentsMembers(data, show, line);
    } else {
      var i, j, k :| 0 <= i < |data| && 0 <= j < |data[i].1| && 0 <= k < |data[i].1[j].1|
                     && line == MetricLine(data[i].1[j].1[k].0, data[i].1[j].1[k].1, show);
      var sections := data[i].1;
      var metrics := sections[j].1;
      MetricLinesMembers(metrics, show, line);
      assert line in SectionLines(sections[j].0, sections[j].1, show);
      SectionsMembers(sections, show, line);
      assert line in DocumentLines(data[i].0, data[i].1, show);
      DocumentsMembers(data, show, line);
    }
  }

  /** The summary lists exactly the document headings, section headings and metric entries. */
  lemma SummaryLinesMembers(data: ExtractedData, show: Periods -> string, line: string)
    ensures line in SummaryLines(data, show) <==>
            DocumentHeading(data, line) || SectionHeading(data, line) || MetricEntry(data, show, line)
  {
    if line in SummaryLines(data, show) {
      LineSource(data, show, line);
    }
    if DocumentHeading(data, line) || SectionHeading(data, line) || MetricEntry(data, show, line) {
      LineWritten(data, show, line);
    }
  }

  /** No file name, section name, metric label or formatted period dict holds a newline. */
  predicate NoNewlines(data: ExtractedData, show: Periods -> string) {
    (forall i :: 0 <= i < |data| ==> '\n' !in data[i].0)
    && (forall i, j :: 0 <= i < |data| && 0 <= j < |data[i].1| ==> '\n' !in data[i].1[j].0)
    && (forall i, j, k :: 0 <= i < |data| && 0 <= j < |data[i].1| && 0 <= k < |data[i].1[j].1| ==>
          '\n' !in data[i].1[j].1[k].0 && '\n' !in show(data[i].1[j].1[k].1))
  }

  lemma NoNewlineConcat(a: string, b: string)
    requires '\n' !in a && '\n' !in b
    ensures '\n' !in a + b
  {
  }

  /** A line built from newline-free names has no newline. */
  lemma LineHasNoNewline(data: ExtractedData, show: Periods -> string, line: string)
    requires line in SummaryLines(data, show)
    requires NoNewlines(data, show)
    ensures '\n' !in line
  {
    LineSource(data, show, line);
    if DocumentHeading(data, line) {
      var i :| 0 <= i < |data| && line == "Document: " + data[i].0;
      NoNewlineConcat("Document: ", data[i].0);
    } else if SectionHeading(data, line) {
      var i, j :| 0 <= i < |data| && 0 <= j < |data[i].1| && line == "Section: " + data[i].1[j].0;
      NoNewlineConcat("Section: ", data[i].1[j].0);
    } else {
      var i, j, k :| 0 <= i < |data| && 0 <= j < |data[i].1| && 0 <= k < |data[i].1[j].1|
                     && line == MetricLine(data[i].1[j].1[k].0, data[i].1[j].1[k].1, show);
      var (l, v) := data[i].1[j].1[k];
      NoNewlineConcat("- ", l);
      NoNewlineConcat("- " + l, ": ");
      NoNewlineConcat("- " + l + ": ", show(v));
    }
  }

  /**
   * Splitting the summary text at newlines gives back exactly its lines when
   * no name holds a newline; without documents the text is empty.
   */
  lemma SummarySplits(data: ExtractedData, show: Periods -> string)
    requires NoNewlines(data, show)
    ensures data != [] ==> SplitLines(JoinLines(SummaryLines(data, show))) == SummaryLines(data, show)
    ensures data == [] ==> JoinLines(SummaryLines(data, show)) == ""
  {
    var lines := SummaryLines(data, show);
    forall k | 0 <= k < |lines| ensures '\n' !in lines[k] {
      LineHasNoNewline(data, show, lines[k]);
    }
    if data != [] {
      LineWritten(data, show, "Document: " + data[0].0);
      SplitJoinLines(lines);
    }
  }
}
