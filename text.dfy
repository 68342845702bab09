/**
 * The string primitives the pipeline relies on, restricted to ASCII:
 * `str.lower()`, the `in` substring test, `str.strip()`, `str.replace` of a
 * single character, and the character classes `\d` and `\s`.
 */
module Text {

  predicate IsDigit(c: char) { '0' <= c <= '9' }

  /** ASCII part of Python's `str.isspace()`: space, \t \n \v \f \r and the separators 0x1C-0x1F. */
  predicate IsSpace(c: char) { c == ' ' || ('\t' <= c <= '\r') || ('\U{1C}' <= c <= '\U{1F}') }

  predicate HasDigit(s: string) { exists c :: c in s && IsDigit(c) }

  predicate AllDigits(s: string) { forall k :: 0 <= k < |s| ==> IsDigit(s[k]) }

  function LowerChar(c: char): char {
    if 'A' <= c <= 'Z' then (c as int + 32) as char else c
  }

  /** `s.lower()` on ASCII text. */
  function Lower(s: string): (r: string)
    ensures |r| == |s|
  {
    if s == [] then [] else [LowerChar(s[0])] + Lower(s[1..])
  }

  /** Each character is lowercased on its own. */
  lemma {:induction false} LowerSpec(s: string)
    ensures forall k :: 0 <= k < |s| ==> Lower(s)[k] == LowerChar(s[k])
  {
    if s != [] {
      LowerSpec(s[1..]);
      assert forall k :: 1 <= k < |s| ==> Lower(s)[k] == Lower(s[1..])[k - 1];
    }
  }

  /** Whether `needle` occurs in `hay` at position `i`. */
  predicate OccursAt(hay: string, needle: string, i: int) {
    0 <= i && i + |needle| <= |hay| && hay[i..i + |needle|] == needle
  }

  function ContainsFrom(hay: string, needle: string, i: nat): bool
    requires i <= |hay|
    decreases |hay| - i
  {
    if i + |needle| > |hay| then false
    else if hay[i..i + |needle|] == needle then true
    else ContainsFrom(hay, needle, i + 1)
  }

  lemma {:induction false} ContainsFromSpec(hay: string, needle: string, i: nat)
    requires i <= |hay|
    ensures ContainsFrom(hay, needle, i) <==> exists j :: i <= j && OccursAt(hay, needle, j)
    decreases |hay| - i
  {
    if i + |needle| > |hay| {
    } else if hay[i..i + |needle|] == needle {
      assert OccursAt(hay, needle, i);
    } else {
      ContainsFromSpec(hay, needle, i + 1);
      assert !OccursAt(hay, needle, i);
    }
  }

  /** Python's `needle in hay`. */
  function Contains(hay: string, needle: string): bool {
    ContainsFrom(hay, needle, 0)
  }

  /** `needle in hay` holds exactly when `needle` occurs in `hay` at some position. */
  lemma ContainsSpec(hay: string, needle: string)
    ensures Contains(hay, needle) <==> exists j :: OccursAt(hay, needle, j)
  {
    ContainsFromSpec(hay, needle, 0);
  }

  /** `in` is transitive: a substring of a substring is a substring. */
  lemma ContainsTransitive(a: string, b: string, c: string)
    requires Contains(b, a) && Contains(c, b)
    ensures Contains(c, a)
  {
    ContainsSpec(b, a);
    ContainsSpec(c, b);
    ContainsSpec(c, a);
    var j :| OccursAt(b, a, j);
    var i :| OccursAt(c, b, i);
    forall k | 0 <= k < |a| ensures c[i + j + k] == a[k] {
      assert a[k] == b[j + k] == c[i + j + k];
    }
    assert c[i + j..i + j + |a|] == a;
    assert OccursAt(c, a, i + j);
  }

  /** Index of the first character of `s` at or after `i` that is not a space (or |s|). */
  function SkipSpaces(s: string, i: nat): (r: nat)
    requires i <= |s|
    ensures i <= r <= |s|
    decreases |s| - i
  {
    if i < |s| && IsSpace(s[i]) then SkipSpaces(s, i + 1) else i
  }

  lemma {:induction false} SkipSpacesSpec(s: string, i: nat)
    requires i <= |s|
    ensures forall k :: i <= k < SkipSpaces(s, i) ==> IsSpace(s[k])
    ensures SkipSpaces(s, i) < |s| ==> !IsSpace(s[SkipSpaces(s, i)])
    decreases |s| - i
  {
    if i < |s| && IsSpace(s[i]) {
      SkipSpacesSpec(s, i + 1);
    }
  }

  /** Index just after the last character of `s[lo..e]` that is not a space (or lo). */
  function TrimEnd(s: string, lo: nat, e: nat): (r: nat)
    requires lo <= e <= |s|
    ensures lo <= r <= e
    decreases e
  {
    if e > lo && IsSpace(s[e - 1]) then TrimEnd(s, lo, e - 1) else e
  }

  lemma {:induction false} TrimEndSpec(s: string, lo: nat, e: nat)
    requires lo <= e <= |s|
    ensures forall k :: TrimEnd(s, lo, e) <= k < e ==> IsSpace(s[k])
    ensures TrimEnd(s, lo, e) > lo ==> !IsSpace(s[TrimEnd(s, lo, e) - 1])
    decreases e
  {
    if e > lo && IsSpace(s[e - 1]) {
      TrimEndSpec(s, lo, e - 1);
    }
  }

  /** `s.strip()`: `s` without its leading and trailing whitespace. */
  function Strip(s: string): string {
    var a := SkipSpaces(s, 0);
    var b := TrimEnd(s, a, |s|);
    s[a..b]
  }

  /** `strip()` keeps a slice of `s` and removes only whitespace at both ends, all of it. */
  lemma StripSpec(s: string)
    ensures exists a, b :: 0 <= a <= b <= |s| && Strip(s) == s[a..b]
                           && (forall k :: 0 <= k < a ==> IsSpace(s[k]))
                           && (forall k :: b <= k < |s| ==> IsSpace(s[k]))
    ensures Strip(s) != [] ==> !IsSpace(Strip(s)[0]) && !IsSpace(Strip(s)[|Strip(s)| - 1])
  {
    var a := SkipSpaces(s, 0);
    var b := TrimEnd(s, a, |s|);
    SkipSpacesSpec(s, 0);
    TrimEndSpec(s, a, |s|);
    assert Strip(s) == s[a..b];
  }

  /** Stripping changes nothing when neither end is a space. */
  lemma StripNoop(s: string)
    requires s != [] ==> !IsSpace(s[0]) && !IsSpace(s[|s| - 1])
    ensures Strip(s) == s
  {
    StripSpec(s);
    if s != [] {
      assert SkipSpaces(s, 0) == 0;
      assert TrimEnd(s, 0, |s|) == |s|;
    }
  }

  /** Stripping removes only whitespace, so it keeps every digit. */
  lemma StripKeepsDigits(s: string)
    ensures HasDigit(Strip(s)) <==> HasDigit(s)
  {
    StripSpec(s);
    var a, b :| 0 <= a <= b <= |s| && Strip(s) == s[a..b]
                && (forall k :: 0 <= k < a ==> IsSpace(s[k]))
                && (forall k :: b <= k < |s| ==> IsSpace(s[k]));
    if HasDigit(s) {
      var c :| c in s && IsDigit(c);
      var k :| 0 <= k < |s| && s[k] == c;
      assert !IsSpace(c);
      assert a <= k < b;
      assert s[a..b][k - a] == c;
    }
  }

  /** `s.replace(c, "")`. */
  function RemoveAll(s: string, c: char): (r: string)
    ensures |r| <= |s|
  {
    if s == [] then []
    else if s[0] == c then RemoveAll(s[1..], c)
    else [s[0]] + RemoveAll(s[1..], c)
  }

  /** Removing `c` keeps every other character and nothing else. */
  lemma {:induction false} RemoveAllMembers(s: string, c: char)
    ensures forall x :: x in RemoveAll(s, c) <==> x in s && x != c
  {
    if s != [] {
      RemoveAllMembers(s[1..], c);
      assert forall x :: x in s <==> x == s[0] || x in s[1..];
    }
  }

  /** Removing a character that does not occur changes nothing. */
  lemma {:induction false} RemoveAllNoop(s: string, c: char)
    requires c !in s
    ensures RemoveAll(s, c) == s
  {
    if s != [] {
      assert s[1..] + [] == s[1..];
      RemoveAllNoop(s[1..], c);
      assert [s[0]] + s[1..] == s;
    }
  }

  /** `s.replace(c, d)` for single characters `c` and `d`. */
  function ReplaceAll(s: string, c: char, d: char): (r: string)
    ensures |r| == |s|
  {
    if s == [] then [] else [if s[0] == c then d else s[0]] + ReplaceAll(s[1..], c, d)
  }

  /** Each character equal to `c` becomes `d`; every other stays. */
  lemma {:induction false} ReplaceAllSpec(s: string, c: char, d: char)
    ensures forall k :: 0 <= k < |s| ==> ReplaceAll(s, c, d)[k] == if s[k] == c then d else s[k]
  {
    if s != [] {
      ReplaceAllSpec(s[1..], c, d);
      assert forall k :: 1 <= k < |s| ==> ReplaceAll(s, c, d)[k] == ReplaceAll(s[1..], c, d)[k - 1];
    }
  }

  lemma RemoveAllAppend(a: string, b: string, c: char)
    ensures RemoveAll(a + b, c) == RemoveAll(a, c) + RemoveAll(b, c)
  {
    if a == [] {
      assert a + b == b;
    } else {
      assert (a + b)[1..] == a[1..] + b;
      RemoveAllAppend(a[1..], b, c);
    }
  }

  lemma ReplaceAllAppend(a: string, b: string, c: char, d: char)
    ensures ReplaceAll(a + b, c, d) == ReplaceAll(a, c, d) + ReplaceAll(b, c, d)
  {
    var r := ReplaceAll(a + b, c, d);
    var t := ReplaceAll(a, c, d) + ReplaceAll(b, c, d);
    ReplaceAllSpec(a + b, c, d);
    ReplaceAllSpec(a, c, d);
    ReplaceAllSpec(b, c, d);
    assert |r| == |t|;
    forall k | 0 <= k < |r| ensures r[k] == t[k] {
      if k < |a| { assert (a + b)[k] == a[k]; } else { assert (a + b)[k] == b[k - |a|]; }
    }
  }

  lemma ReplaceAllNoop(s: string, c: char, d: char)
    requires c !in s
    ensures ReplaceAll(s, c, d) == s
  {
    var r := ReplaceAll(s, c, d);
    ReplaceAllSpec(s, c, d);
    forall k | 0 <= k < |s| ensures r[k] == s[k] { assert s[k] != c; }
  }

  /** Whether `s[i..i+4]` is a match of the pattern `20\d{2}`. */
  predicate YearAt(s: string, i: int) {
    0 <= i && i + 4 <= |s| && s[i] == '2' && s[i + 1] == '0' && IsDigit(s[i + 2]) && IsDigit(s[i + 3])
  }

  /** `"\n".join(parts)`. */
  function JoinLines(parts: seq<string>): (r: string)
    ensures parts == [] ==> r == ""
  {
    if parts == [] then ""
    else if |parts| == 1 then parts[0]
    else parts[0] + "\n" + JoinLines(parts[1..])
  }

  /** `s.split("\n")`: the pieces between newlines, always at least one. */
  function SplitLines(s: string): (r: seq<string>)
    ensures |r| >= 1
  {
    if s == [] then [""]
    else if s[0] == '\n' then [""] + SplitLines(s[1..])
    else
      var rest := SplitLines(s[1..]);
      [[s[0]] + rest[0]] + rest[1..]
  }

  /** A string without a newline splits into itself. */
  lemma {:induction false} SplitLinesSingle(p: string)
    requires '\n' !in p
    ensures SplitLines(p) == [p]
  {
    if p != [] {
      SplitLinesSingle(p[1..]);
      assert [p[0]] + p[1..] == p;
    }
  }

  /** The first newline ends the first piece. */
  lemma {:induction false} SplitLinesCons(p: string, rest: string)
    requires '\n' !in p
    ensures SplitLines(p + "\n" + rest) == [p] + SplitLines(rest)
  {
    if p == [] {
      assert p + "\n" + rest == "\n" + rest;
      assert ("\n" + rest)[1..] == rest;
    } else {
      assert (p + "\n" + rest)[1..] == p[1..] + "\n" + rest;
      SplitLinesCons(p[1..], rest);
      assert [p[0]] + p[1..] == p;
    }
  }

  /** Splitting undoes joining, for a non-empty list of pieces without newlines. */
  lemma {:induction false} SplitJoinLines(parts: seq<string>)
    requires parts != []
    requires forall k :: 0 <= k < |parts| ==> '\n' !in parts[k]
    ensures SplitLines(JoinLines(parts)) == parts
  {
    if |parts| == 1 {
      SplitLinesSingle(parts[0]);
    } else {
      SplitJoinLines(parts[1..]);
      SplitLinesCons(parts[0], JoinLines(parts[1..]));
      assert [parts[0]] + parts[1..] == parts;
    }
  }
}
