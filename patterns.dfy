/**
 * The two regular expressions of `detect_anomalies`, written as predicates
 * with the meaning `re.match` gives them: anchored at the start, and with
 * `$` matching at the end or just before one final newline.
 */
module Patterns {
  import opened Text

  datatype Pattern =
    | UrlPattern   // ^https?://\S+\.\S+$
    | WordPattern  // ^\w+$

  /** The part of the URL pattern after the scheme: `\S+\.\S+`. */
  predicate HostShape(t: string) {
    (forall i :: 0 <= i < |t| ==> !IsSpace(t[i]))
    && exists k :: 0 < k < |t| - 1 && t[k] == '.'
  }

  /** `https?://\S+\.\S+` matching the whole of `s`. */
  predicate UrlShape(s: string) {
    (StartsWith(s, "http://") && HostShape(s[7..]))
    || (StartsWith(s, "https://") && HostShape(s[8..]))
  }

  /** `\w+` matching the whole of `s`. */
  predicate WordShape(s: string) {
    |s| > 0 && forall i :: 0 <= i < |s| ==> IsWordChar(s[i])
  }

  predicate Shape(p: Pattern, s: string) {
    match p
    case UrlPattern => UrlShape(s)
    case WordPattern => WordShape(s)
  }

  /** `re.match(p, s)` succeeds. */
  predicate Matches(p: Pattern, s: string) {
    Shape(p, s) || (|s| > 0 && s[|s| - 1] == '\n' && Shape(p, s[..|s| - 1]))
  }

  lemma WellFormedUrlMatches()
    ensures Matches(UrlPattern, "https://a.com")
  {
    var host := "a.com";
    assert "https://a.com"[8..] == host;
    assert host[1] == '.';
  }

  lemma MalformedUrlFails()
    ensures !Matches(UrlPattern, "not a url")
  {
    assert !StartsWith("not a url", "http://");
    assert !StartsWith("not a url", "https://");
    assert !StartsWith("not a ur", "http://");
    assert !StartsWith("not a ur", "https://");
  }

  /** White space anywhere in the host part defeats `\S+\.\S+`. */
  lemma SpaceDefeatsHost(t: string, k: nat)
    requires k < |t| && IsSpace(t[k])
    ensures !HostShape(t)
  {
  }

  /** White space anywhere in `s` defeats the whole URL shape. */
  lemma SpaceDefeatsUrlShape(s: string, i: nat)
    requires i < |s| && IsSpace(s[i])
    ensures !UrlShape(s)
  {
    if StartsWith(s, "http://") && 7 <= i {
      assert s[7..][i - 7] == s[i];
      SpaceDefeatsHost(s[7..], i - 7);
    }
    if StartsWith(s, "https://") && 8 <= i {
      assert s[8..][i - 8] == s[i];
      SpaceDefeatsHost(s[8..], i - 8);
    }
  }

  /** A URL that contains white space before its end never matches. */
  lemma SpaceInsideUrlFails(s: string, i: nat)
    requires i < |s| - 1 && IsSpace(s[i])
    ensures !Matches(UrlPattern, s)
  {
    SpaceDefeatsUrlShape(s, i);
    var s' := s[..|s| - 1];
    assert s'[i] == s[i];
    SpaceDefeatsUrlShape(s', i);
  }

  lemma WordPatternExamples()
    ensures Matches(WordPattern, "admin")
    ensures !Matches(WordPattern, "")
    ensures !Matches(WordPattern, "john doe")
  {
    assert !IsWordChar("john doe"[4]);
    assert !IsWordChar("john do"[4]);
  }
}
