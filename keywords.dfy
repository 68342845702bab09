/** `find_keywords_in_text` (utils.py:80-85): a case-insensitive substring test. */
module Keywords {
  import opened Wrappers
  import opened Text

  /** Whether some keyword, lowercased, occurs in the already lowercased text `low`. */
  function AnyIn(low: string, keywords: seq<string>): bool {
    if keywords == [] then false
    else if Contains(low, Lower(keywords[0])) then true
    else AnyIn(low, keywords[1..])
  }

  /** The test succeeds exactly when some keyword, lowercased, is a substring of `low`. */
  lemma {:induction false} AnyInSpec(low: string, keywords: seq<string>)
    ensures AnyIn(low, keywords) <==> exists k :: 0 <= k < |keywords| && Contains(low, Lower(keywords[k]))
  {
    if keywords != [] {
      AnyInSpec(low, keywords[1..]);
      assert forall k :: 1 <= k < |keywords| ==> keywords[k] == keywords[1..][k - 1];
    }
  }

  /** `find_keywords_in_text(text, keywords)`; a missing text reads as "". */
  function FindKeywordsInText(text: Option<string>, keywords: seq<string>): bool {
    AnyIn(Lower(text.GetOr("")), keywords)
  }

  /** `find_keywords_in_text` holds exactly when some lowercased keyword is in the lowercased text. */
  lemma FindKeywordsSpec(text: Option<string>, keywords: seq<string>)
    ensures FindKeywordsInText(text, keywords) <==> exists k :: 0 <= k < |keywords| && Contains(Lower(text.GetOr("")), Lower(keywords[k]))
  {
    AnyInSpec(Lower(text.GetOr("")), keywords);
  }

  lemma LowerIdempotent(s: string)
    ensures Lower(Lower(s)) == Lower(s)
  {
    var l := Lower(s);
    LowerSpec(s);
    LowerSpec(l);
    assert forall k :: 0 <= k < |s| ==> LowerChar(LowerChar(s[k])) == LowerChar(s[k]);
    assert Lower(l) == l;
  }

  /** Lowercasing the text first does not change what is found: the test ignores case. */
  lemma FindIgnoresCase(text: string, keywords: seq<string>)
    ensures FindKeywordsInText(Some(Lower(text)), keywords) == FindKeywordsInText(Some(text), keywords)
  {
    LowerIdempotent(text);
  }

  /** A missing text and an empty one are treated alike, and nothing but the empty keyword occurs in them. */
  lemma FindInMissingText(keywords: seq<string>)
    ensures FindKeywordsInText(None, keywords) == FindKeywordsInText(Some(""), keywords)
    ensures FindKeywordsInText(None, keywords) <==> "" in keywords
  {
    FindKeywordsSpec(None, keywords);
    if FindKeywordsInText(None, keywords) {
      var k :| 0 <= k < |keywords| && Contains("", Lower(keywords[k]));
      ContainsSpec("", Lower(keywords[k]));
      assert keywords[k] == [];
    }
    if "" in keywords {
      var k :| 0 <= k < |keywords| && keywords[k] == "";
      assert OccursAt("", Lower(keywords[k]), 0);
      ContainsSpec("", Lower(keywords[k]));
    }
  }

  /** Splitting the keyword list splits the test; in particular the order of the keywords does not matter. */
  lemma FindAppend(text: Option<string>, a: seq<string>, b: seq<string>)
    ensures FindKeywordsInText(text, a + b) <==> FindKeywordsInText(text, a) || FindKeywordsInText(text, b)
  {
    var low := Lower(text.GetOr(""));
    FindKeywordsSpec(text, a + b);
    FindKeywordsSpec(text, a);
    FindKeywordsSpec(text, b);
    if FindKeywordsInText(text, a + b) {
      var k :| 0 <= k < |a + b| && Contains(low, Lower((a + b)[k]));
      if k >= |a| {
        assert (a + b)[k] == b[k - |a|];
      } else {
        assert (a + b)[k] == a[k];
      }
    }
    if FindKeywordsInText(text, b) {
      var k :| 0 <= k < |b| && Contains(low, Lower(b[k]));
      assert (a + b)[|a| + k] == b[k];
    }
    if FindKeywordsInText(text, a) {
      var k :| 0 <= k < |a| && Contains(low, Lower(a[k]));
      assert (a + b)[k] == a[k];
    }
  }
}
