/**
 * What `simple_qa_answer` (utils.py:167-220) promises: how the metric, the
 * year and the "latest" intent are read from the question, that the first
 * hit in document, section and label order decides the answer, and which
 * confidence each route gives.
 */
module AnswererFacts {
  import opened Wrappers
  import opened Lists
  import opened Text
  import opened OrderedDict
  import opened NumberScan
  import opened Reducer
  import opened Normalizer
  import opened Summary
  import opened Answerer

  /** The metric is the first candidate, in list order, that occurs in the question; None when none does. */
  lemma {:induction false} FirstMetricSpec(q: string, candidates: seq<string>)
    ensures FirstMetric(q, candidates).Some? ==>
              exists k :: 0 <= k < |candidates| && FirstMetric(q, candidates) == Some(candidates[k])
                          && Contains(q, candidates[k])
                          && forall k' :: 0 <= k' < k ==> !Contains(q, candidates[k'])
    ensures FirstMetric(q, candidates).None? <==> forall k :: 0 <= k < |candidates| ==> !Contains(q, candidates[k])
  {
    if candidates != [] && !Contains(q, candidates[0]) {
      var rest := candidates[1..];
      FirstMetricSpec(q, rest);
      assert forall k :: 1 <= k < |candidates| ==> candidates[k] == rest[k - 1];
      if FirstMetric(q, rest).Some? {
        var k :| 0 <= k < |rest| && FirstMetric(q, rest) == Some(rest[k]) && Contains(q, rest[k])
                 && forall k' :: 0 <= k' < k ==> !Contains(q, rest[k']);
        assert forall k' :: 0 <= k' < k + 1 ==> !Contains(q, candidates[k']) by {
          forall k' | 0 <= k' < k + 1 ensures !Contains(q, candidates[k']) {
            if k' > 0 { assert candidates[k'] == rest[k' - 1]; }
          }
        }
        assert FirstMetric(q, candidates) == Some(candidates[k + 1]);
      }
    }
  }

  /**
   * A candidate that contains an earlier candidate, and does not itself
   * occur earlier in the list, is never selected: the earlier one matches first.
   */
  lemma ShadowedNeverSelected(q: string, candidates: seq<string>, i: nat, j: nat)
    requires i < j < |candidates|
    requires Contains(candidates[j], candidates[i])
    requires candidates[j] !in candidates[..j]
    ensures FirstMetric(q, candidates) != Some(candidates[j])
  {
    FirstMetricSpec(q, candidates);
    if FirstMetric(q, candidates) == Some(candidates[j]) {
      var k :| 0 <= k < |candidates| && FirstMetric(q, candidates) == Some(candidates[k])
               && Contains(q, candidates[k])
               && forall k' :: 0 <= k' < k ==> !Contains(q, candidates[k']);
      ContainsTransitive(candidates[i], candidates[j], q);
    }
  }

  /** "gross profit" contains "profit", which comes earlier, so it is never the selected metric. */
  lemma GrossProfitNeverSelected(q: string)
    ensures FirstMetric(q, MetricCandidates) != Some("gross profit")
  {
    var c := MetricCandidates;
    assert c[3] == "profit" && c[7] == "gross profit";
    assert OccursAt(c[7], c[3], 6);
    ContainsSpec(c[7], c[3]);
    assert c[7] !in c[..7];
    ShadowedNeverSelected(q, c, 3, 7);
  }

  /** The year is the leftmost match of `20\d{2}` at or after `i`; None when there is none. */
  lemma {:induction false} FirstYearSpec(q: string, i: nat)
    ensures FirstYear(q, i).Some? ==>
              exists p :: i <= p && YearAt(q, p) && FirstYear(q, i) == Some(q[p..p + 4])
                          && forall p' :: i <= p' < p ==> !YearAt(q, p')
    ensures FirstYear(q, i).None? <==> forall p :: i <= p ==> !YearAt(q, p)
    decreases |q| - i
  {
    if i + 4 <= |q| && !YearAt(q, i) {
      FirstYearSpec(q, i + 1);
      if FirstYear(q, i + 1).Some? {
        var p :| i + 1 <= p && YearAt(q, p) && FirstYear(q, i + 1) == Some(q[p..p + 4])
                 && forall p' :: i + 1 <= p' < p ==> !YearAt(q, p');
        assert forall p' :: i <= p' < p ==> !YearAt(q, p');
      }
    } else if i + 4 <= |q| {
      assert forall p' :: i <= p' < i ==> !YearAt(q, p');
    }
  }

  lemma {:induction false} LastPeriodFromSpec(q: string, i: nat)
    ensures LastPeriodFrom(q, i) ==> exists p :: i <= p && LastPeriodAt(q, p)
    decreases |q| - i
  {
    if i < |q| && !LastPeriodAt(q, i) {
      LastPeriodFromSpec(q, i + 1);
    }
  }

  /** A match of `last (year|quarter|q[1-4])` holds "last", so the `"last" in q` test at utils.py:184 never decides anything. */
  lemma LatestIntentSimplified(q: string)
    ensures LatestIntent(q) <==> Contains(q, "latest") || Contains(q, "most recent") || LastPeriodFrom(q, 0)
  {
    if LastPeriodFrom(q, 0) {
      LastPeriodFromSpec(q, 0);
      var p :| 0 <= p && LastPeriodAt(q, p);
      assert q[p..p + 4] == "last" by {
        if OccursAt(q, "last year", p) {
          assert q[p..p + 4] == q[p..p + 9][..4];
        } else if OccursAt(q, "last quarter", p) {
          assert q[p..p + 4] == q[p..p + 12][..4];
        } else {
          assert q[p..p + 4] == q[p..p + 6][..4];
        }
      }
      assert OccursAt(q, "last", p);
      ContainsSpec(q, "last");
    }
  }

  /** The first hit is an entry that is a hit, and no entry before it is one; None when there is no hit. */
  lemma {:induction false} FirstHitSpec(metric: Option<string>, es: seq<(string, Periods)>)
    ensures FirstHit(metric, es).Some? ==>
              exists p :: 0 <= p < |es| && es[p] == FirstHit(metric, es).value && NoHit(metric, es[..p])
    ensures FirstHit(metric, es).None? <==> NoHit(metric, es)
  {
    if es != [] && !Hit(metric, es[0]) {
      var rest := es[1..];
      FirstHitSpec(metric, rest);
      assert forall k :: 1 <= k < |es| ==> es[k] == rest[k - 1];
      if FirstHit(metric, rest).Some? {
        var p :| 0 <= p < |rest| && rest[p] == FirstHit(metric, rest).value && NoHit(metric, rest[..p]);
        assert es[..p + 1] == [es[0]] + rest[..p];
        NoHitAppend(metric, [es[0]], rest[..p]);
        assert es[p + 1] == FirstHit(metric, es).value;
      }
    } else if es != [] {
      assert es[..0] == [];
    }
  }

  /** The entries searched are exactly the (label, periods) pairs of the sections of the documents. */
  lemma EntriesMembers(docs: ExtractedData, e: (string, Periods))
    ensures e in Entries(docs) <==> exists i, j :: 0 <= i < |docs| && 0 <= j < |docs[i].1| && e in docs[i].1[j].1
  {
    var n := |docs|;
    var ds := seq(n, i requires 0 <= i < n => SectionsEntries(docs[i].1, |docs[i].1|));
    FlattenMembers(ds, e);
    if e in Entries(docs) {
      var i :| 0 <= i < n && e in ds[i];
      var sections := docs[i].1;
      var ss := seq(|sections|, j requires 0 <= j < |sections| => sections[j].1);
      FlattenMembers(ss, e);
      var j :| 0 <= j < |sections| && e in ss[j];
      assert e in docs[i].1[j].1;
    }
    if exists i, j :: 0 <= i < |docs| && 0 <= j < |docs[i].1| && e in docs[i].1[j].1 {
      var i, j :| 0 <= i < |docs| && 0 <= j < |docs[i].1| && e in docs[i].1[j].1;
      var sections := docs[i].1;
      var ss := seq(|sections|, j requires 0 <= j < |sections| => sections[j].1);
      FlattenMembers(ss, e);
      assert e in ss[j];
      assert e in ds[i];
    }
  }

  /** The period used for a year is the first whose key contains it; None when no key does. */
  lemma {:induction false} PeriodWithYearSpec(periods: Periods, year: string)
    ensures PeriodWithYear(periods, year).Some? ==>
              exists t :: 0 <= t < |periods| && periods[t] == PeriodWithYear(periods, year).value
                          && Contains(periods[t].0, year)
                          && forall t' :: 0 <= t' < t ==> !Contains(periods[t'].0, year)
    ensures PeriodWithYear(periods, year).None? <==> forall t :: 0 <= t < |periods| ==> !Contains(periods[t].0, year)
  {
    if periods != [] && !Contains(periods[0].0, year) {
      var rest := periods[1..];
      PeriodWithYearSpec(rest, year);
      assert forall t :: 1 <= t < |periods| ==> periods[t] == rest[t - 1];
      if PeriodWithYear(rest, year).Some? {
        var t :| 0 <= t < |rest| && rest[t] == PeriodWithYear(rest, year).value
                 && Contains(rest[t].0, year)
                 && forall t' :: 0 <= t' < t ==> !Contains(rest[t'].0, year);
        assert forall t' :: 0 <= t' < t + 1 ==> !Contains(periods[t'].0, year) by {
          forall t' | 0 <= t' < t + 1 ensures !Contains(periods[t'].0, year) {
            if t' > 0 { assert periods[t'] == rest[t' - 1]; }
          }
        }
        assert periods[t + 1] == rest[t];
      }
    }
  }

  /** No document's serialisation holds a number. */
  predicate NoNumbers(docs: ExtractedData, serialise: Statements -> string) {
    forall i :: 0 <= i < |docs| ==> NumbersIn(serialise(docs[i].1)) == []
  }

  lemma NoNumbersCons(docs: ExtractedData, serialise: Statements -> string)
    requires docs != []
    ensures NoNumbers(docs, serialise) <==> NumbersIn(serialise(docs[0].1)) == [] && NoNumbers(docs[1..], serialise)
  {
    assert forall i :: 1 <= i < |docs| ==> docs[i] == docs[1..][i - 1];
  }

  /** No fallback numbers exactly when no document's serialisation holds any. */
  lemma {:induction false} FirstNumbersNone(docs: ExtractedData, serialise: Statements -> string)
    ensures FirstNumbers(docs, serialise).None? <==> NoNumbers(docs, serialise)
  {
    if docs != [] {
      FirstNumbersNone(docs[1..], serialise);
      NoNumbersCons(docs, serialise);
    }
  }

  /** The fallback numbers are those of the first document whose serialisation holds any. */
  lemma {:induction false} FirstNumbersFirst(docs: ExtractedData, serialise: Statements -> string) returns (i: nat)
    requires FirstNumbers(docs, serialise).Some?
    ensures i < |docs| && FirstNumbers(docs, serialise) == Some(NumbersIn(serialise(docs[i].1)))
    ensures NumbersIn(serialise(docs[i].1)) != []
    ensures NoNumbers(docs[..i], serialise)
  {
    if NumbersIn(serialise(docs[0].1)) != [] {
      i := 0;
    } else {
      var rest := docs[1..];
      var j := FirstNumbersFirst(rest, serialise);
      i := j + 1;
      assert docs[i] == rest[j];
      assert docs[..i][1..] == rest[..j];
      NoNumbersCons(docs[..i], serialise);
    }
  }

  lemma {:induction false} FirstNumbersNonEmpty(docs: ExtractedData, serialise: Statements -> string)
    ensures FirstNumbers(docs, serialise) != Some([])
  {
    if docs != [] && NumbersIn(serialise(docs[0].1)) == [] {
      FirstNumbersNonEmpty(docs[1..], serialise);
    }
  }

  /** The confidence of an answer is one of the five levels the code returns. */
  lemma DecideConfidence(docs: ExtractedData, metric: Option<string>, year: Option<string>, latest: bool, r: Render)
    ensures Decide(docs, metric, year, latest, r).confidence in {0.0, 0.4, 0.7, 0.8, 0.9}
  {
  }

  /** A label answer (confidence 0.7 or more) is given exactly when some visited entry is a hit. */
  lemma DecideLabelIffHit(docs: ExtractedData, metric: Option<string>, year: Option<string>, latest: bool, r: Render)
    ensures Decide(docs, metric, year, latest, r).confidence >= 0.7 <==> !NoHit(metric, Entries(docs))
  {
    FirstHitSpec(metric, Entries(docs));
  }

  /** Confidence 0.9 exactly when the first hit has a period whose key holds the asked year, and the answer reports that period's value. */
  lemma DecideYearAnswer(docs: ExtractedData, metric: Option<string>, year: Option<string>, latest: bool, r: Render)
    ensures Decide(docs, metric, year, latest, r).confidence == 0.9 <==>
              FirstHit(metric, Entries(docs)).Some? && year.Some?
              && PeriodWithYear(FirstHit(metric, Entries(docs)).value.1, year.value).Some?
    ensures Decide(docs, metric, year, latest, r).confidence == 0.9 ==>
              var e := FirstHit(metric, Entries(docs)).value;
              Decide(docs, metric, year, latest, r).text
                == e.0 + " for " + year.value + " is " + r.showValue(PeriodWithYear(e.1, year.value).value.1)
  {
  }

  /** Without a period for the year, a hit reports its first period: at 0.8 when the question asks for the latest, else at 0.7. */
  lemma DecideFirstPeriodAnswer(docs: ExtractedData, metric: Option<string>, year: Option<string>, latest: bool, r: Render)
    requires FirstHit(metric, Entries(docs)).Some?
    requires year.None? || PeriodWithYear(FirstHit(metric, Entries(docs)).value.1, year.value).None?
    ensures var e := FirstHit(metric, Entries(docs)).value;
            Decide(docs, metric, year, latest, r)
              == if latest then Answer(e.0 + " (most recent found: " + e.1[0].0 + ") = " + r.showValue(e.1[0].1), 0.8)
                 else Answer(e.0 + " (" + e.1[0].0 + ") = " + r.showValue(e.1[0].1), 0.7)
  {
  }

  /** The fallback gives 0.4 when some document's serialisation holds numbers, and the miss at 0.0 otherwise. */
  lemma FallbackConfidence(docs: ExtractedData, r: Render)
    ensures FallbackAnswer(docs, r).confidence == 0.4 <==> exists i :: 0 <= i < |docs| && NumbersIn(r.serialise(docs[i].1)) != []
    ensures FallbackAnswer(docs, r).confidence == 0.0 <==> NoNumbers(docs, r.serialise)
  {
    FirstNumbersNone(docs, r.serialise);
  }

  /** The miss answer carries the miss text; the numbers answer shows at most five numbers of the first list found. */
  lemma FallbackText(docs: ExtractedData, r: Render)
    ensures FallbackAnswer(docs, r).confidence == 0.0 ==> FallbackAnswer(docs, r).text == MissText
    ensures FallbackAnswer(docs, r).confidence == 0.4 ==>
              FirstNumbers(docs, r.serialise).Some? && FirstNumbers(docs, r.serialise).value != []
              && var ns := FirstNumbers(docs, r.serialise).value;
                 FallbackAnswer(docs, r).text == NumbersText + r.showNumbers(ns[..if |ns| < 5 then |ns| else 5])
  {
    FirstNumbersNonEmpty(docs, r.serialise);
  }

  /** With no hit, the answer is the fallback's. */
  lemma DecideFallback(docs: ExtractedData, metric: Option<string>, year: Option<string>, latest: bool, r: Render)
    requires NoHit(metric, Entries(docs))
    ensures Decide(docs, metric, year, latest, r) == FallbackAnswer(docs, r)
  {
    FirstHitSpec(metric, Entries(docs));
  }

  /** Without a recognised metric nothing is a hit, so only the fallback can answer. */
  lemma NoMetricFallsBack(docs: ExtractedData, year: Option<string>, latest: bool, r: Render)
    ensures Decide(docs, None, year, latest, r) == FallbackAnswer(docs, r)
  {
    FirstHitNone(None, Entries(docs));
  }

  /** An unknown selected document is searched as an empty one: with a serialiser that shows `{}` without digits, the answer is the miss. */
  lemma UnknownDocMiss(question: string, data: ExtractedData, selected: string, r: Render)
    requires selected != "all" && selected !in Keys(data)
    requires !HasDigit(r.serialise([]))
    ensures QaAnswer(question, data, selected, r) == Answer(MissText, 0.0)
  {
    var docs := SelectDocs(data, selected);
    LookupSpec(data, selected);
    assert docs == [(selected, [])];
    assert Entries(docs) == [] by {
      assert SectionsEntries(docs[0].1, 0) == [];
      assert DocsEntries(docs, 1) == Flatten([[]]);
    }
    NoDigitNoNumbers(r.serialise([]));
    assert FirstNumbers(docs, r.serialise) == None by {
      assert docs[1..] == [];
    }
  }

  /** Every answer of `simple_qa_answer` has one of the five confidence levels. */
  lemma QaConfidence(question: string, data: ExtractedData, selected: string, r: Render)
    ensures QaAnswer(question, data, selected, r).confidence in {0.0, 0.4, 0.7, 0.8, 0.9}
  {
    var q := Lower(question);
    DecideConfidence(SelectDocs(data, selected), FirstMetric(q, MetricCandidates), FirstYear(q, 0), LatestIntent(q), r);
  }

  /** A question naming no metric candidate never gets a label answer. */
  lemma QaNoMetric(question: string, data: ExtractedData, selected: string, r: Render)
    requires forall k :: 0 <= k < |MetricCandidates| ==> !Contains(Lower(question), MetricCandidates[k])
    ensures QaAnswer(question, data, selected, r) == FallbackAnswer(SelectDocs(data, selected), r)
  {
    var q := Lower(question);
    FirstMetricSpec(q, MetricCandidates);
    NoMetricFallsBack(SelectDocs(data, selected), FirstYear(q, 0), LatestIntent(q), r);
  }

  /** The entries of a document with one section holding one label are that one entry. */
  lemma SingleEntry(fname: string, secname: string, metricLabel: string, periods: Periods)
    ensures Entries([(fname, [(secname, [(metricLabel, periods)])])]) == [(metricLabel, periods)]
  {
    var sections: Statements := [(secname, [(metricLabel, periods)])];
    assert SectionsEntries(sections, 1) == Flatten([[(metricLabel, periods)]]);
    assert DocsEntries([(fname, sections)], 1) == Flatten([[(metricLabel, periods)]]);
  }

  /** A hit whose periods hold the asked year is answered at 0.9 with that period's value. */
  lemma YearAnswer(docs: ExtractedData, metric: string, year: string, latest: bool, r: Render,
                   metricLabel: string, periods: Periods, k: string, v: real)
    requires Entries(docs) == [(metricLabel, periods)]
    requires Contains(metricLabel, metric) && periods != []
    requires PeriodWithYear(periods, year) == Some((k, v))
    ensures Decide(docs, Some(metric), Some(year), latest, r) == Answer(metricLabel + " for " + year + " is " + r.showValue(v), 0.9)
  {
  }

  lemma ContainsSelf(s: string)
    ensures Contains(s, s)
  {
    assert OccursAt(s, s, 0);
    ContainsSpec(s, s);
  }

  lemma RevenuePeriods(v2022: real, v2023: real)
    ensures PeriodWithYear([("2022", v2022), ("2023", v2023)], "2023") == Some(("2023", v2023))
  {
    ContainsSelf("2023");
    assert !Contains("2022", "2023") by {
      ContainsSpec("2022", "2023");
      assert "2022"[3] != "2023"[3];
    }
  }

  /** "revenue" heads the candidate list, so a question holding it is about revenue whatever else it names. */
  lemma RevenueFirst(q: string)
    requires Contains(q, "revenue")
    ensures FirstMetric(q, MetricCandidates) == Some("revenue")
  {
  }

  /** A question over a single entry that is a hit, whose periods hold the asked year, is answered at 0.9 with that period's value. */
  lemma QaYearAnswer(question: string, docs: ExtractedData, r: Render, metric: string, metricLabel: string, periods: Periods, year: string, k: string, v: real)
    requires Entries(docs) == [(metricLabel, periods)]
    requires FirstMetric(Lower(question), MetricCandidates) == Some(metric)
    requires FirstYear(Lower(question), 0) == Some(year)
    requires Contains(metricLabel, metric) && periods != []
    requires PeriodWithYear(periods, year) == Some((k, v))
    ensures QaAnswer(question, docs, "all", r) == Answer(metricLabel + " for " + year + " is " + r.showValue(v), 0.9)
  {
    YearAnswer(docs, metric, year, LatestIntent(Lower(question)), r, metricLabel, periods, k, v);
  }

  /** A question holding "revenue" and the year 2023, over one document whose one section has a revenue row with columns 2022 and 2023, is answered with the 2023 value at 0.9. */
  lemma RevenueForYear(question: string, fname: string, secname: string, r: Render, v2022: real, v2023: real)
    requires Contains(Lower(question), "revenue")
    requires FirstYear(Lower(question), 0) == Some("2023")
    ensures var periods := [("2022", v2022), ("2023", v2023)];
            QaAnswer(question, [(fname, [(secname, [("revenue", periods)])])], "all", r)
              == Answer("revenue" + " for " + "2023" + " is " + r.showValue(v2023), 0.9)
  {
    var periods: Periods := [("2022", v2022), ("2023", v2023)];
    RevenueFirst(Lower(question));
    SingleEntry(fname, secname, "revenue", periods);
    ContainsSelf("revenue");
    RevenuePeriods(v2022, v2023);
    QaYearAnswer(question, [(fname, [(secname, [("revenue", periods)])])], r, "revenue", "revenue", periods, "2023", "2023", v2023);
  }
}
