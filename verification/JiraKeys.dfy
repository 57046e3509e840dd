/** Jira issue keys and the order in which the connector compares them. */
module JiraKeys {
  import opened StringOrder

  predicate Upper(c: char) { 'A' <= c <= 'Z' }

  predicate Digit(c: char) { '0' <= c <= '9' }

  predicate IsProjectKey(s: string) {
    && 1 <= |s| <= 50
    && Upper(s[0])
    && forall i :: 1 <= i < |s| ==> Upper(s[i]) || Digit(s[i]) || s[i] == '_'
  }

  predicate IsIssueNumber(s: string) {
    && 1 <= |s|
    && '1' <= s[0] <= '9'
    && forall i :: 1 <= i < |s| ==> Digit(s[i])
  }

  /** `PROJ-12`: a project key, a dash and a number without leading zero. */
  predicate IsIssueKey(s: string) {
    exists d :: 0 <= d < |s| && s[d] == '-' && IsProjectKey(s[..d]) && IsIssueNumber(s[d + 1..])
  }

  /** The first of two keys after sorting them. */
  function Smaller(a: string, b: string): (r: string)
    ensures r == a || r == b
  {
    if Before(b, a) then b else a
  }

  /** Which key is the smaller does not depend on the side it is written on. */
  lemma SmallerIsSymmetric(a: string, b: string)
    ensures Smaller(a, b) == Smaller(b, a)
  {
    BeforeIsStrictAndTotal(a, b);
  }
}
