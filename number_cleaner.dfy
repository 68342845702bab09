/**
 * `clean_number_string` (utils.py:10-32): turn a table cell into a number or
 * "no value". Values are exact decimals (`real`); the direct parse accepts the
 * part of Python's `float()` grammar without exponents, `inf`/`nan` and digit
 * underscores: an optional sign, then digits with an optional fraction, where
 * either the integer or the fraction digits may be missing but not both.
 */
module NumberCleaner {
  import opened Wrappers
  import opened Text

  function DigitVal(c: char): nat
    requires IsDigit(c)
  {
    c as int - '0' as int
  }

  /** The value of a run of decimal digits. */
  function DigitsValue(ds: string): nat
    requires AllDigits(ds)
  {
    if ds == [] then 0 else DigitsValue(ds[..|ds| - 1]) * 10 + DigitVal(ds[|ds| - 1])
  }

  function Pow10(n: nat): (p: nat)
    ensures p >= 1
  {
    if n == 0 then 1 else 10 * Pow10(n - 1)
  }

  /** The value of the digits after a decimal point. */
  function FracValue(fs: string): real
    requires AllDigits(fs)
  {
    DigitsValue(fs) as real / Pow10(|fs|) as real
  }

  /** End of the maximal run of digits that starts at `i`. */
  function DigitRun(s: string, i: nat): (e: nat)
    requires i <= |s|
    ensures i <= e <= |s|
    decreases |s| - i
  {
    if i < |s| && IsDigit(s[i]) then DigitRun(s, i + 1) else i
  }

  /** The run is made of digits, and is maximal. */
  lemma {:induction false} DigitRunSpec(s: string, i: nat)
    requires i <= |s|
    ensures forall k :: i <= k < DigitRun(s, i) ==> IsDigit(s[k])
    ensures DigitRun(s, i) < |s| ==> !IsDigit(s[DigitRun(s, i)])
    decreases |s| - i
  {
    if i < |s| && IsDigit(s[i]) {
      DigitRunSpec(s, i + 1);
    }
  }

  /** A maximal run of digits is determined by where it starts. */
  lemma {:induction false} DigitRunUnique(s: string, i: nat, e: nat)
    requires i <= e <= |s|
    requires forall k :: i <= k < e ==> IsDigit(s[k])
    requires e < |s| ==> !IsDigit(s[e])
    ensures DigitRun(s, i) == e
    decreases e - i
  {
    if i < e {
      DigitRunUnique(s, i + 1, e);
    }
  }

  /** `float()` on an unsigned body: `D+`, `D+.`, `D+.D+` or `.D+`. */
  function ParseUnsigned(b: string): Option<real> {
    var n := DigitRun(b, 0);
    if n == |b| then
      DigitRunSpec(b, 0);
      (if n > 0 then Some(DigitsValue(b) as real) else None)
    else if b[n] == '.' && DigitRun(b, n + 1) == |b| && (n > 0 || n + 1 < |b|) then
      DigitRunSpec(b, 0);
      DigitRunSpec(b, n + 1);
      assert AllDigits(b[..n]);
      assert AllDigits(b[n + 1..]);
      Some(DigitsValue(b[..n]) as real + FracValue(b[n + 1..]))
    else None
  }

  /** `float(s)` on an already stripped string, or None where Python raises ValueError. */
  function ParseFloat(s: string): Option<real> {
    if |s| > 0 && (s[0] == '+' || s[0] == '-') then
      match ParseUnsigned(s[1..])
      case Some(v) => Some(if s[0] == '-' then -v else v)
      case None => None
    else ParseUnsigned(s)
  }

  /** `float()` accepts nothing without a digit. */
  lemma ParseFloatHasDigit(s: string)
    requires ParseFloat(s).Some?
    ensures HasDigit(s)
  {
    var signed := |s| > 0 && (s[0] == '+' || s[0] == '-');
    var b := if signed then s[1..] else s;
    var n := DigitRun(b, 0);
    DigitRunSpec(b, 0);
    if n > 0 {
      assert b[0] in s;
    } else {
      DigitRunSpec(b, n + 1);
      assert b[n + 1] in s;
    }
  }

  /** `s.replace(",", "").replace("$", "").replace("(", "-").replace(")", "")`. */
  function Unpunctuate(s: string): string {
    RemoveAll(ReplaceAll(RemoveAll(RemoveAll(s, ','), '$'), '(', '-'), ')')
  }

  /** The cleaned text the parse works on: `Unpunctuate(s).strip()`. */
  function Scrub(s: string): string {
    Strip(Unpunctuate(s))
  }

  /** End of the optional `(?:\.\d+)` group that may follow position `e`. */
  function FractionEnd(s: string, e: nat): (r: nat)
    requires e <= |s|
    ensures e <= r <= |s|
  {
    if e + 1 < |s| && s[e] == '.' && IsDigit(s[e + 1]) then DigitRun(s, e + 1) else e
  }

  /** End of a match of `-?\d+(?:\.\d+)?` that starts at `i`, if one does. */
  function SignedNumberAt(s: string, i: nat): (r: Option<nat>)
    requires i <= |s|
    ensures r.Some? ==> i < r.value <= |s|
  {
    if i < |s| && IsDigit(s[i]) then Some(FractionEnd(s, DigitRun(s, i)))
    else if i + 1 < |s| && s[i] == '-' && IsDigit(s[i + 1]) then Some(FractionEnd(s, DigitRun(s, i + 1)))
    else None
  }

  /** `re.search(r"-?\d+(?:\.\d+)?", s[i..])`: the leftmost match, as a span of `s`. */
  function SearchSignedNumber(s: string, i: nat): (r: Option<(nat, nat)>)
    requires i <= |s|
    ensures r.Some? ==> i <= r.value.0 < r.value.1 <= |s|
    decreases |s| - i
  {
    if i == |s| then None
    else match SignedNumberAt(s, i)
      case Some(e) => Some((i, e))
      case None => SearchSignedNumber(s, i + 1)
  }

  /** The search finds the leftmost match, or reports that there is none. */
  lemma {:induction false} SearchSignedNumberSpec(s: string, i: nat)
    requires i <= |s|
    ensures var r := SearchSignedNumber(s, i);
      (r.Some? ==> SignedNumberAt(s, r.value.0) == Some(r.value.1)
                   && forall j :: i <= j < r.value.0 ==> SignedNumberAt(s, j).None?)
      && (r.None? ==> forall j :: i <= j <= |s| ==> SignedNumberAt(s, j).None?)
    decreases |s| - i
  {
    if i < |s| && SignedNumberAt(s, i).None? {
      SearchSignedNumberSpec(s, i + 1);
    }
  }

  /** `clean_number_string(s)`. Total: every input yields a value or None. */
  function CleanNumber(s: Option<string>): (r: Option<real>)
    ensures s.None? ==> r.None?
    ensures s.Some? && Scrub(s.value) == "" ==> r.None?
  {
    match s
    case None => None
    case Some(x) =>
      var c := Scrub(x);
      if c == "" then None
      else match ParseFloat(c)
        case Some(v) => Some(v)
        case None =>
          match SearchSignedNumber(c, 0)
          case None => None
          case Some(span) => ParseFloat(c[span.0..span.1])
  }

  /** The optional fraction is either absent or a point followed by at least one digit. */
  lemma FractionShape(s: string, d: nat)
    requires d <= |s|
    ensures var e := FractionEnd(s, d);
      e == d || (d + 1 < e && s[d] == '.' && AllDigits(s[d + 1..e]))
  {
    if d + 1 < |s| && s[d] == '.' && IsDigit(s[d + 1]) {
      DigitRunSpec(s, d + 1);
      assert DigitRun(s, d + 1) == DigitRun(s, d + 2);
    }
  }

  /** A match of the fallback pattern is always accepted by `float()`. */
  lemma SignedNumberParses(s: string, i: nat, e: nat)
    requires i <= |s| && SignedNumberAt(s, i) == Some(e)
    ensures ParseFloat(s[i..e]).Some?
  {
    var neg := !IsDigit(s[i]);
    var i' := if neg then i + 1 else i;
    var d := DigitRun(s, i');
    assert e == FractionEnd(s, d);
    DigitRunSpec(s, i');
    FractionShape(s, d);
    var ds := s[i'..d];
    var fs := if e == d then [] else s[d + 1..e];
    assert ds != [] && AllDigits(ds) && AllDigits(fs);
    LiteralParses(neg, ds, fs);
    SignedLiteralShape(s, i, i', d, e, neg, fs);
  }

  lemma LiteralParses(neg: bool, ds: string, fs: string)
    requires ds != [] && AllDigits(ds) && AllDigits(fs)
    ensures ParseFloat(Literal(neg, ds, fs)).Some?
  {
    ParseLiteral(neg, ds, fs);
  }

  /** The text of a fallback match is an optional minus, digits and an optional fraction. */
  lemma SignedLiteralShape(s: string, i: nat, i': nat, d: nat, e: nat, neg: bool, fs: string)
    requires i' == (if neg then i + 1 else i) && i' <= d <= e <= |s|
    requires neg ==> s[i] == '-'
    requires e == d ==> fs == []
    requires e != d ==> d + 1 < e && s[d] == '.' && fs == s[d + 1..e]
    ensures s[i..e] == Literal(neg, s[i'..d], fs)
  {
    var body := s[i'..e];
    if e != d {
      assert body == s[i'..d] + "." + fs;
    }
    assert body == Body(s[i'..d], fs);
    if neg {
      assert s[i..e] == "-" + body;
    } else {
      assert s[i..e] == body;
    }
  }

  lemma ScrubKeepsDigits(x: string)
    ensures HasDigit(Scrub(x)) <==> HasDigit(x)
  {
    var a := RemoveAll(RemoveAll(x, ','), '$');
    var b := ReplaceAll(a, '(', '-');
    var c := RemoveAll(b, ')');
    ReplaceAllSpec(a, '(', '-');
    RemoveAllMembers(x, ',');
    RemoveAllMembers(RemoveAll(x, ','), '$');
    RemoveAllMembers(b, ')');
    assert HasDigit(a) <==> HasDigit(x);
    if HasDigit(a) {
      var ch :| ch in a && IsDigit(ch);
      var k :| 0 <= k < |a| && a[k] == ch;
      assert b[k] == ch;
    }
    if HasDigit(b) {
      var ch :| ch in b && IsDigit(ch);
      var k :| 0 <= k < |b| && b[k] == ch;
      assert a[k] == ch;
    }
    assert HasDigit(c) <==> HasDigit(b);
    StripKeepsDigits(c);
  }

  /** The cleaner yields a value exactly when the cell holds at least one digit. */
  lemma CleanNoneIffNoDigit(x: string)
    ensures CleanNumber(Some(x)).None? <==> !HasDigit(x)
  {
    var c := Scrub(x);
    ScrubKeepsDigits(x);
    if c != "" && ParseFloat(c).Some? {
      ParseFloatHasDigit(c);
    }
    if c != "" && ParseFloat(c).None? {
      SearchSignedNumberSpec(c, 0);
      match SearchSignedNumber(c, 0)
      case None =>
        forall k | 0 <= k < |c| ensures !IsDigit(c[k]) {
          assert SignedNumberAt(c, k).None?;
        }
      case Some(span) =>
        SignedNumberParses(c, span.0, span.1);
        assert c[span.0 + (if IsDigit(c[span.0]) then 0 else 1)] in c;
    }
  }

  /** When the direct parse fails, the value of the first `-?\d+(\.\d+)?` in the cleaned text is used, or None. */
  lemma CleanFallback(x: string)
    requires Scrub(x) != "" && ParseFloat(Scrub(x)).None?
    ensures match SearchSignedNumber(Scrub(x), 0)
            case None => CleanNumber(Some(x)).None?
            case Some(span) => CleanNumber(Some(x)) == ParseFloat(Scrub(x)[span.0..span.1])
                               && CleanNumber(Some(x)).Some?
  {
    SearchSignedNumberSpec(Scrub(x), 0);
    match SearchSignedNumber(Scrub(x), 0)
    case None =>
    case Some(span) => SignedNumberParses(Scrub(x), span.0, span.1);
  }

  /** Commas and dollar signs are ignored wherever they stand. */
  lemma CleanIgnoresSeparators(x: string)
    ensures CleanNumber(Some(x)) == CleanNumber(Some(RemoveAll(RemoveAll(x, ','), '$')))
  {
    var y := RemoveAll(RemoveAll(x, ','), '$');
    RemoveAllMembers(x, ',');
    RemoveAllMembers(RemoveAll(x, ','), '$');
    RemoveAllNoop(y, ',');
    RemoveAllNoop(y, '$');
  }

  /** An unsigned decimal literal: integer digits and, when `fs` is not empty, a fraction. */
  function Body(ds: string, fs: string): string {
    if fs == [] then ds else ds + "." + fs
  }

  /** A plain decimal literal: optional minus, integer digits, optional fraction digits. */
  function Literal(neg: bool, ds: string, fs: string): string {
    if neg then "-" + Body(ds, fs) else Body(ds, fs)
  }

  function LiteralValue(neg: bool, ds: string, fs: string): real
    requires AllDigits(ds) && AllDigits(fs)
  {
    var v := DigitsValue(ds) as real + FracValue(fs);
    if neg then -v else v
  }

  lemma ParseBody(ds: string, fs: string)
    requires ds != [] && AllDigits(ds) && AllDigits(fs)
    ensures ParseUnsigned(Body(ds, fs)) == Some(DigitsValue(ds) as real + FracValue(fs))
  {
    var b := Body(ds, fs);
    if fs == [] {
      DigitRunUnique(b, 0, |b|);
    } else {
      assert b[|ds|] == '.';
      assert b[..|ds|] == ds;
      assert b[|ds| + 1..] == fs;
      DigitRunUnique(b, 0, |ds|);
      DigitRunUnique(b, |ds| + 1, |b|);
    }
  }

  /** `float()` reads back the value of a plain decimal literal. */
  lemma ParseLiteral(neg: bool, ds: string, fs: string)
    requires ds != [] && AllDigits(ds) && AllDigits(fs)
    ensures ParseFloat(Literal(neg, ds, fs)) == Some(LiteralValue(neg, ds, fs))
  {
    ParseBody(ds, fs);
    var lit := Literal(neg, ds, fs);
    if neg {
      assert lit[1..] == Body(ds, fs);
    } else {
      assert lit[0] == ds[0];
    }
  }

  /** The cleaner returns the value of a plain decimal literal. */
  lemma CleanLiteral(neg: bool, ds: string, fs: string)
    requires ds != [] && AllDigits(ds) && AllDigits(fs)
    ensures CleanNumber(Some(Literal(neg, ds, fs))) == Some(LiteralValue(neg, ds, fs))
  {
    var lit := Literal(neg, ds, fs);
    LiteralChars(neg, ds, fs);
    UnpunctuateNoop(lit);
    StripNoop(lit);
    ParseLiteral(neg, ds, fs);
  }

  /** A literal holds none of the characters the cleaner rewrites, and no surrounding space. */
  lemma LiteralChars(neg: bool, ds: string, fs: string)
    requires ds != [] && AllDigits(ds) && AllDigits(fs)
    ensures var lit := Literal(neg, ds, fs);
      ',' !in lit && '$' !in lit && '(' !in lit && ')' !in lit
      && lit != [] && !IsSpace(lit[0]) && !IsSpace(lit[|lit| - 1])
  {
    var b := Body(ds, fs);
    assert forall k :: 0 <= k < |b| ==> b[k] == '.' || IsDigit(b[k]);
    assert b[|b| - 1] == if fs == [] then ds[|ds| - 1] else fs[|fs| - 1];
  }

  /** The cleaner looks at a cell only through its scrubbed text. */
  lemma CleanDependsOnScrub(x: string, y: string)
    requires Scrub(x) == Scrub(y)
    ensures CleanNumber(Some(x)) == CleanNumber(Some(y))
  {
  }

  /** Text that holds no character the cleaner rewrites is left as it is. */
  lemma UnpunctuateNoop(t: string)
    requires ',' !in t && '$' !in t && '(' !in t && ')' !in t
    ensures Unpunctuate(t) == t
  {
    RemoveAllNoop(t, ',');
    RemoveAllNoop(t, '$');
    ReplaceAllNoop(t, '(', '-');
    RemoveAllNoop(t, ')');
  }

  /** Parentheses around such text become a leading minus sign. */
  lemma UnpunctuateParenthesised(t: string)
    requires ',' !in t && '$' !in t && '(' !in t && ')' !in t
    ensures Unpunctuate("(" + t + ")") == "-" + t
  {
    var x := "(" + t + ")";
    RemoveAllNoop(x, ',');
    RemoveAllNoop(x, '$');
    ReplaceAllAppend("(" + t, ")", '(', '-');
    ReplaceAllAppend("(", t, '(', '-');
    ReplaceAllNoop(t, '(', '-');
    assert ReplaceAll(x, '(', '-') == ("-" + t) + ")";
    RemoveAllAppend("-" + t, ")", ')');
    RemoveAllNoop("-" + t, ')');
  }

  /** Accounting notation: a literal in parentheses is read as its negation. */
  lemma CleanParenthesised(ds: string, fs: string)
    requires ds != [] && AllDigits(ds) && AllDigits(fs)
    ensures CleanNumber(Some("(" + Literal(false, ds, fs) + ")")) == Some(-LiteralValue(false, ds, fs))
  {
    var lit := Literal(false, ds, fs);
    LiteralChars(false, ds, fs);
    UnpunctuateParenthesised(lit);
    var neg := Literal(true, ds, fs);
    assert neg == "-" + lit;
    LiteralChars(true, ds, fs);
    UnpunctuateNoop(neg);
    CleanDependsOnScrub("(" + lit + ")", neg);
    CleanLiteral(true, ds, fs);
  }

  /** A currency sign in front of a literal is ignored, as with `"$2,000"` read as 2000. */
  lemma CleanCurrency(neg: bool, ds: string, fs: string)
    requires ds != [] && AllDigits(ds) && AllDigits(fs)
    ensures CleanNumber(Some("$" + Literal(neg, ds, fs))) == Some(LiteralValue(neg, ds, fs))
  {
    var lit := Literal(neg, ds, fs);
    LiteralChars(neg, ds, fs);
    CleanIgnoresSeparators("$" + lit);
    RemoveAllNoop("$" + lit, ',');
    RemoveAllAppend("$", lit, '$');
    RemoveAllNoop(lit, '$');
    assert RemoveAll("$", '$') == "";
    CleanLiteral(neg, ds, fs);
  }

  /** `clean_number_string` of None, "" and "abc" is None. */
  lemma CleanExampleNone()
    ensures CleanNumber(None).None?
    ensures CleanNumber(Some("")).None?
    ensures CleanNumber(Some("abc")).None?
  {
    CleanNoneIffNoDigit("");
    assert !HasDigit("abc") by {
      assert forall c :: c in "abc" ==> c == 'a' || c == 'b' || c == 'c';
    }
    CleanNoneIffNoDigit("abc");
  }
}
