/** The e-mail check both screens run: `/\S+@\S+\.\S+/.test(value)`. The pattern has no anchors,
    so `test` succeeds as soon as SOME substring of the value matches it. */
module EmailPattern {
  import opened JsString

  /** `t` matches `\S+` in full: one or more characters, none of them white space. */
  predicate NonSpaceRun(t: string) {
    |t| > 0 && forall i :: 0 <= i < |t| ==> !IsWhitespace(t[i])
  }

  /** `t` matches `\S+@\S+\.\S+` in full, for some split of `t` at an '@' and a later '.'. */
  ghost predicate FullMatch(t: string) {
    exists p, d :: 0 <= p < d < |t| && FullMatchAt(t, p, d)
  }

  /** `t` is `x + "@" + y + "." + z` with `x`, `y` and `z` matching `\S+`. */
  ghost predicate FullMatchAt(t: string, p: int, d: int)
    requires 0 <= p < d < |t|
  {
    t[p] == '@' && t[d] == '.'
    && NonSpaceRun(t[..p]) && NonSpaceRun(t[p + 1..d]) && NonSpaceRun(t[d + 1..])
  }

  /** `RegExp.prototype.test` on the unanchored pattern: some substring of `s` matches in full. */
  ghost predicate TestMatches(s: string) {
    exists i, j :: 0 <= i <= j <= |s| && FullMatch(s[i..j])
  }

  /** A decision procedure for the pattern: an '@' with a non-space character before it, a later
      '.' with a non-space character after it, and a non-empty run without white space between. */
  predicate LooksLikeEmail(s: string) {
    exists p, d :: 0 < p && p + 1 < d < |s| - 1 && SplitAt(s, p, d)
  }

  /** `s[p]` is the '@' and `s[d]` the '.' of a match `s[p - 1..d + 2]`. */
  predicate SplitAt(s: string, p: int, d: int)
    requires 0 < p && p + 1 < d < |s| - 1
  {
    s[p] == '@' && s[d] == '.' && !IsWhitespace(s[p - 1]) && !IsWhitespace(s[d + 1])
    && forall k :: p < k < d ==> !IsWhitespace(s[k])
  }

  /** The decision procedure accepts exactly the strings the regular expression's `test` accepts. */
  lemma LooksLikeEmailIffTest(s: string)
    ensures LooksLikeEmail(s) <==> TestMatches(s)
  {
    if LooksLikeEmail(s) {
      var p, d :| 0 < p && p + 1 < d < |s| - 1 && SplitAt(s, p, d);
      SplitGivesMatch(s, p, d);
    }
    if TestMatches(s) {
      var i, j :| 0 <= i <= j <= |s| && FullMatch(s[i..j]);
      MatchGivesSplit(s, i, j);
    }
  }

  /** A split found by the decision procedure delimits a substring that matches in full. */
  lemma SplitGivesMatch(s: string, p: int, d: int)
    requires 0 < p && p + 1 < d < |s| - 1 && SplitAt(s, p, d)
    ensures TestMatches(s)
  {
    var t := s[p - 1..d + 2];
    var p', d' := 1, d - p + 1;
    assert t[..p'] == [s[p - 1]];
    assert t[d' + 1..] == [s[d + 1]];
    var y := t[p' + 1..d'];
    forall k | 0 <= k < |y|
      ensures !IsWhitespace(y[k])
    {
      assert y[k] == s[p + 1 + k];
    }
    assert FullMatchAt(t, p', d');
    assert s[p - 1..d + 2] == t;
  }

  /** A substring that matches in full contains a split the decision procedure finds. */
  lemma MatchGivesSplit(s: string, i: int, j: int)
    requires 0 <= i <= j <= |s| && FullMatch(s[i..j])
    ensures LooksLikeEmail(s)
  {
    var t := s[i..j];
    var p, d :| 0 <= p < d < |t| && FullMatchAt(t, p, d);
    assert t[..p][p - 1] == s[i + p - 1];
    assert t[d + 1..][0] == s[i + d + 1];
    forall k | i + p < k < i + d
      ensures !IsWhitespace(s[k])
    {
      assert t[p + 1..d][k - i - p - 1] == s[k];
    }
    assert SplitAt(s, i + p, i + d);
  }

  /** A blank value never matches: the pattern needs characters that are not white space. */
  lemma BlankNeverMatches(s: string)
    requires AllWhitespace(s)
    ensures !LooksLikeEmail(s)
  {
  }

  /** Trimming and lower-casing keep a match: the characters of a match are not white space, so
      they survive the trim, and lower-casing leaves '@', '.' and white space as they are. */
  lemma NormalizeKeepsMatch(s: string)
    requires LooksLikeEmail(s)
    ensures LooksLikeEmail(NormalizeEmail(s))
  {
    TrimKeepsMatch(s);
    LowerKeepsMatch(Trim(s));
  }

  lemma TrimKeepsMatch(s: string)
    requires LooksLikeEmail(s)
    ensures LooksLikeEmail(Trim(s))
  {
    var p, d :| 0 < p && p + 1 < d < |s| - 1 && SplitAt(s, p, d);
    var a, e := LeadingWhitespace(s), TrailingEnd(s);
    assert a <= p - 1 && d + 1 < e;
    var t := s[a..e];
    assert Trim(s) == t;
    ShiftedSplit(s, a, e, p, d);
  }

  lemma ShiftedSplit(s: string, a: int, e: int, p: int, d: int)
    requires 0 <= a < p && p + 1 < d && d + 1 < e <= |s| && SplitAt(s, p, d)
    ensures SplitAt(s[a..e], p - a, d - a)
  {
    var t := s[a..e];
    forall k | p - a < k < d - a
      ensures !IsWhitespace(t[k])
    {
      assert t[k] == s[k + a];
    }
  }

  lemma LowerKeepsMatch(t: string)
    requires LooksLikeEmail(t)
    ensures LooksLikeEmail(ToLower(t))
  {
    var p, d :| 0 < p && p + 1 < d < |t| - 1 && SplitAt(t, p, d);
    var u := ToLower(t);
    assert u[p] == ToLowerChar(t[p]);
    assert u[d] == ToLowerChar(t[d]);
    assert SplitAt(u, p, d);
  }
}
