/**
 * `number_re` (utils.py:8) and `extract_numbers_from_text` (utils.py:34-41).
 * The pattern `[-+]?\$\s?[\d,]+(?:\.\d+)?|[-+]?\d[\d,]*(?:\.\d+)?` is scanned by
 * hand: each alternative is written as the end of its match at a start
 * position, after the backtracking of the regex engine has been worked out,
 * and `findall` as the usual left-to-right search for non-overlapping
 * matches.
 */
module NumberScan {
  import opened Wrappers
  import opened Lists
  import opened Text
  import opened NumberCleaner

  predicate IsSign(c: char) { c == '+' || c == '-' }

  predicate IsDigitOrComma(c: char) { IsDigit(c) || c == ',' }

  /** End of the maximal run of `[\d,]` that starts at `i`. */
  function DigitCommaRun(s: string, i: nat): (e: nat)
    requires i <= |s|
    ensures i <= e <= |s|
    decreases |s| - i
  {
    if i < |s| && IsDigitOrComma(s[i]) then DigitCommaRun(s, i + 1) else i
  }

  /** The run is maximal: every character in it is a digit or a comma, and the next one is not. */
  lemma {:induction false} DigitCommaRunSpec(s: string, i: nat)
    requires i <= |s|
    ensures forall k :: i <= k < DigitCommaRun(s, i) ==> IsDigitOrComma(s[k])
    ensures DigitCommaRun(s, i) < |s| ==> !IsDigitOrComma(s[DigitCommaRun(s, i)])
    decreases |s| - i
  {
    if i < |s| && IsDigitOrComma(s[i]) {
      DigitCommaRunSpec(s, i + 1);
    }
  }

  /**
   * Position after an optional sign at `i`. For both alternatives, giving
   * the sign back does not help: the character it would expose is the sign
   * itself, which is neither `$` nor a digit.
   */
  function AfterSign(s: string, i: nat): (j: nat)
    requires i <= |s|
    ensures j == i || (j == i + 1 && i < |s| && IsSign(s[i]))
  {
    if i < |s| && IsSign(s[i]) then i + 1 else i
  }

  /**
   * End of a match of the first alternative `[-+]?\$\s?[\d,]+(?:\.\d+)?` at `i`.
   * When `\s?` takes a space, the run must start right after it; giving the
   * space back leaves the space in front of `[\d,]+`, which cannot match.
   */
  function DollarAt(s: string, i: nat): (r: Option<nat>)
    requires i <= |s|
    ensures r.Some? ==> i < r.value <= |s|
  {
    var j := AfterSign(s, i);
    if j < |s| && s[j] == '$' then
      var k := if j + 1 < |s| && IsSpace(s[j + 1]) then j + 2 else j + 1;
      if k < |s| && IsDigitOrComma(s[k]) then Some(FractionEnd(s, DigitCommaRun(s, k))) else None
    else None
  }

  /** End of a match of the second alternative `[-+]?\d[\d,]*(?:\.\d+)?` at `i`. */
  function PlainAt(s: string, i: nat): (r: Option<nat>)
    requires i <= |s|
    ensures r.Some? ==> i < r.value <= |s|
  {
    var j := AfterSign(s, i);
    if j < |s| && IsDigit(s[j]) then Some(FractionEnd(s, DigitCommaRun(s, j + 1))) else None
  }

  /** End of the match of `number_re` at `i`: the first alternative is tried first. */
  function MatchAt(s: string, i: nat): (r: Option<nat>)
    requires i <= |s|
    ensures r.Some? ==> i < r.value <= |s|
    ensures r.Some? <==> DollarAt(s, i).Some? || PlainAt(s, i).Some?
  {
    if DollarAt(s, i).Some? then DollarAt(s, i) else PlainAt(s, i)
  }

  /** The spans `re.findall` reports when it starts searching at `i`. */
  function Spans(s: string, i: nat): (sp: seq<(nat, nat)>)
    requires i <= |s|
    ensures forall k :: 0 <= k < |sp| ==> i <= sp[k].0 < sp[k].1 <= |s|
    decreases |s| - i
  {
    if i == |s| then []
    else match MatchAt(s, i)
      case Some(e) => [(i, e)] + Spans(s, e)
      case None => Spans(s, i + 1)
  }

  /** `number_re.findall(s)`: the matched substrings, left to right. */
  function FindAll(s: string): (ts: seq<string>)
    ensures |ts| == |Spans(s, 0)|
  {
    var sp := Spans(s, 0);
    seq(|sp|, k requires 0 <= k < |sp| => s[sp[k].0..sp[k].1])
  }

  /** `clean_number_string` applied to each token. */
  function Cleaned(tokens: seq<string>): (os: seq<Option<real>>)
    ensures |os| == |tokens|
    ensures forall k :: 0 <= k < |tokens| ==> os[k] == CleanNumber(Some(tokens[k]))
  {
    seq(|tokens|, k requires 0 <= k < |tokens| => CleanNumber(Some(tokens[k])))
  }

  /** The cleaned value of one token, as a list of zero or one values. */
  function KeptOne(t: string): (r: seq<real>)
    ensures |r| <= 1
  {
    match CleanNumber(Some(t))
    case Some(v) => [v]
    case None => []
  }

  /** The cleaned values of `tokens` that are not None, in order. */
  function Kept(tokens: seq<string>): seq<real> {
    if tokens == [] then [] else Kept(tokens[..|tokens| - 1]) + KeptOne(tokens[|tokens| - 1])
  }

  /** What `extract_numbers_from_text` returns for the text `t`. */
  function NumbersIn(t: string): seq<real> {
    Kept(FindAll(t))
  }

  lemma KeptSnoc(tokens: seq<string>, i: nat)
    requires i < |tokens|
    ensures Kept(tokens[..i + 1]) == Kept(tokens[..i]) + KeptOne(tokens[i])
  {
    assert tokens[..i + 1][..i] == tokens[..i];
  }

  /** `extract_numbers_from_text(text)`: `None` stands for a missing text. */
  method ExtractNumbersFromText(text: Option<string>) returns (cleaned: seq<real>)
    ensures cleaned == NumbersIn(text.GetOr(""))
    ensures |cleaned| <= |FindAll(text.GetOr(""))|
  {
    var found := FindAll(text.GetOr(""));
    cleaned := [];
    for i := 0 to |found|
      invariant cleaned == Kept(found[..i])
      invariant |cleaned| <= i
    {
      KeptSnoc(found, i);
      var val := CleanNumber(Some(found[i]));
      if val.Some? {
        cleaned := cleaned + [val.value];
      }
    }
    assert found[..|found|] == found;
  }

  /** Every reported span is a match that starts where it is reported. */
  lemma {:induction false} SpansAreMatches(s: string, i: nat)
    requires i <= |s|
    ensures forall k :: 0 <= k < |Spans(s, i)| ==> MatchAt(s, Spans(s, i)[k].0) == Some(Spans(s, i)[k].1)
    decreases |s| - i
  {
    if i < |s| {
      match MatchAt(s, i)
      case Some(e) => SpansAreMatches(s, e);
      case None => SpansAreMatches(s, i + 1);
    }
  }

  /** The spans are reported left to right and do not overlap. */
  lemma {:induction false} SpansOrdered(s: string, i: nat)
    requires i <= |s|
    ensures forall k :: 0 <= k < |Spans(s, i)| - 1 ==> Spans(s, i)[k].1 <= Spans(s, i)[k + 1].0
    decreases |s| - i
  {
    if i < |s| {
      match MatchAt(s, i)
      case Some(e) =>
        SpansOrdered(s, e);
        var sp := Spans(s, i);
        var rest := Spans(s, e);
        assert sp == [(i, e)] + rest;
        forall k | 0 <= k < |sp| - 1 ensures sp[k].1 <= sp[k + 1].0 {
          if k > 0 {
            assert sp[k] == rest[k - 1] && sp[k + 1] == rest[k];
          }
        }
      case None => SpansOrdered(s, i + 1);
    }
  }

  /** The search misses no match: a position where a match starts lies inside some reported span. */
  lemma {:induction false} SpansCover(s: string, i: nat, p: nat)
    requires i <= p < |s| && MatchAt(s, p).Some?
    ensures exists k :: 0 <= k < |Spans(s, i)| && Spans(s, i)[k].0 <= p < Spans(s, i)[k].1
    decreases |s| - i
  {
    match MatchAt(s, i)
    case Some(e) =>
      var rest := Spans(s, e);
      var sp := [(i, e)] + rest;
      assert Spans(s, i) == sp;
      if p < e {
        assert sp[0].0 <= p < sp[0].1;
      } else {
        SpansCover(s, e, p);
        var k :| 0 <= k < |rest| && rest[k].0 <= p < rest[k].1;
        assert sp[k + 1] == rest[k];
      }
    case None =>
      assert Spans(s, i) == Spans(s, i + 1);
      SpansCover(s, i + 1, p);
  }

  /** A token holds a digit, and so yields a value, when it comes from the second alternative. */
  lemma PlainMatchKept(s: string, i: nat, e: nat)
    requires i <= |s| && PlainAt(s, i) == Some(e)
    ensures CleanNumber(Some(s[i..e])).Some?
  {
    var j := AfterSign(s, i);
    assert s[i..e][j - i] == s[j];
    CleanNoneIffNoDigit(s[i..e]);
  }

  /**
   * A `$` token whose `[\d,]+` part holds only commas and that has no
   * fraction holds no digit, so the cleaner drops it.
   */
  lemma DollarCommasDropped(s: string, i: nat, e: nat)
    requires i <= |s| && DollarAt(s, i) == Some(e)
    requires forall k :: i <= k < e ==> !IsDigit(s[k])
    ensures CleanNumber(Some(s[i..e])).None?
  {
    var t := s[i..e];
    forall c | c in t ensures !IsDigit(c) {
      var k :| 0 <= k < |t| && t[k] == c;
      assert s[i + k] == c;
    }
    CleanNoneIffNoDigit(t);
  }

  /** Exactly the `$` tokens with a digit in their run or a fraction are kept. */
  lemma DollarKeptIffDigit(s: string, i: nat, e: nat)
    requires i <= |s| && DollarAt(s, i) == Some(e)
    ensures CleanNumber(Some(s[i..e])).Some? <==> exists k :: i <= k < e && IsDigit(s[k])
  {
    var t := s[i..e];
    CleanNoneIffNoDigit(t);
    if exists k :: i <= k < e && IsDigit(s[k]) {
      var k :| i <= k < e && IsDigit(s[k]);
      assert t[k - i] == s[k];
    } else {
      DollarCommasDropped(s, i, e);
    }
  }

  /** Extraction is the cleaning of every token followed by dropping the Nones. */
  lemma {:induction false} KeptIsSomes(tokens: seq<string>)
    ensures Kept(tokens) == Somes(Cleaned(tokens))
  {
    if tokens != [] {
      var n := |tokens| - 1;
      KeptIsSomes(tokens[..n]);
      var os := Cleaned(tokens);
      assert Cleaned(tokens[..n]) == os[..n];
      assert KeptOne(tokens[n]) == if os[n].Some? then [os[n].value] else [];
    }
  }

  /** A value is kept exactly when some token cleans to it. */
  lemma KeptMembers(tokens: seq<string>, x: real)
    ensures x in Kept(tokens) <==> exists k :: 0 <= k < |tokens| && CleanNumber(Some(tokens[k])) == Some(x)
  {
    var os := Cleaned(tokens);
    KeptIsSomes(tokens);
    SomesMembers(os, x);
    if Some(x) in os {
      var k :| 0 <= k < |os| && os[k] == Some(x);
      assert CleanNumber(Some(tokens[k])) == Some(x);
    }
  }

  /** When every token yields a value, every token is kept, one value per token. */
  lemma KeptAll(tokens: seq<string>)
    requires forall k :: 0 <= k < |tokens| ==> CleanNumber(Some(tokens[k])).Some?
    ensures |Kept(tokens)| == |tokens|
    ensures forall k :: 0 <= k < |tokens| ==> Kept(tokens)[k] == CleanNumber(Some(tokens[k])).value
  {
    KeptIsSomes(tokens);
    SomesAll(Cleaned(tokens));
  }

  lemma SliceNoDigit(t: string, a: nat, b: nat)
    requires a <= b <= |t| && !HasDigit(t)
    ensures !HasDigit(t[a..b])
  {
    forall c | c in t[a..b] ensures !IsDigit(c) {
      var j :| 0 <= j < b - a && t[a..b][j] == c;
      assert t[a + j] == c;
    }
  }

  /** A text without a digit yields no numbers: every kept value comes from a token holding a digit. */
  lemma NoDigitNoNumbers(t: string)
    requires !HasDigit(t)
    ensures NumbersIn(t) == []
  {
    var tokens := FindAll(t);
    var sp := Spans(t, 0);
    var os := Cleaned(tokens);
    forall k | 0 <= k < |os| ensures os[k].None? {
      assert tokens[k] == t[sp[k].0..sp[k].1];
      SliceNoDigit(t, sp[k].0, sp[k].1);
      CleanNoneIffNoDigit(tokens[k]);
    }
    KeptIsSomes(tokens);
    SomesNone(os);
  }
}
