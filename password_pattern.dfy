/** The strength check of the sign-up screen: `/^(?=.*[a-z])(?=.*[A-Z])(?=.*\d)/.test(password)`.
    The three look-aheads all start at position 0 and `.` does not cross a line terminator, so each
    class has to occur before the first line break. */
module PasswordPattern {
  import opened JsString

  /** The three character classes the look-aheads ask for. */
  datatype CharClass = Lower | Upper | Digit

  predicate InClass(c: char, k: CharClass) {
    match k
    case Lower => 'a' <= c <= 'z'
    case Upper => 'A' <= c <= 'Z'
    case Digit => '0' <= c <= '9'
  }

  /** `(?=.*[class])` at position 0: some `i` such that `s[..i]` matches `.*` (no line terminator)
      and `s[i]` is in the class. */
  ghost predicate LookaheadAtStart(s: string, k: CharClass) {
    exists i :: 0 <= i < |s| && InClass(s[i], k) && NoLineTerminator(s[..i])
  }

  predicate NoLineTerminator(s: string) {
    forall i :: 0 <= i < |s| ==> !IsLineTerminator(s[i])
  }

  /** The regular expression's `test`: the three look-aheads succeed at the anchor. */
  ghost predicate TestMatches(s: string) {
    LookaheadAtStart(s, Lower) && LookaheadAtStart(s, Upper) && LookaheadAtStart(s, Digit)
  }

  /** The characters before the first line terminator. */
  function FirstLine(s: string): (r: string)
    ensures |r| <= |s| && r == s[..|r|]
    ensures NoLineTerminator(r)
    ensures |r| < |s| ==> IsLineTerminator(s[|r|])
  {
    if s == [] || IsLineTerminator(s[0]) then ""
    else
      var rest := FirstLine(s[1..]);
      assert [s[0]] + rest == s[..|rest| + 1];
      [s[0]] + rest
  }

  predicate Contains(s: string, k: CharClass) {
    exists i :: 0 <= i < |s| && InClass(s[i], k)
  }

  /** A decision procedure for the pattern: the first line holds a lower-case letter, an
      upper-case letter and a digit. */
  predicate StrongEnough(s: string) {
    var line := FirstLine(s);
    Contains(line, Lower) && Contains(line, Upper) && Contains(line, Digit)
  }

  /** One look-ahead succeeds exactly when its class occurs in the first line. */
  lemma LookaheadIffFirstLine(s: string, k: CharClass)
    ensures LookaheadAtStart(s, k) <==> Contains(FirstLine(s), k)
  {
    var line := FirstLine(s);
    if LookaheadAtStart(s, k) {
      var i :| 0 <= i < |s| && InClass(s[i], k) && NoLineTerminator(s[..i]);
      assert i < |line| && line[i] == s[i];
    }
    if Contains(line, k) {
      var i :| 0 <= i < |line| && InClass(line[i], k);
      assert s[..i] == line[..i];
      assert s[i] == line[i];
    }
  }

  /** The decision procedure accepts exactly the passwords the regular expression's `test` accepts. */
  lemma StrongEnoughIffTest(s: string)
    ensures StrongEnough(s) <==> TestMatches(s)
  {
    LookaheadIffFirstLine(s, Lower);
    LookaheadIffFirstLine(s, Upper);
    LookaheadIffFirstLine(s, Digit);
  }

  /** A class that only occurs after a line break does not count: "aB\n1" is refused although it
      holds all three classes. */
  lemma LineBreakHidesClass()
    ensures !StrongEnough("aB\n1")
    ensures Contains("aB\n1", Lower) && Contains("aB\n1", Upper) && Contains("aB\n1", Digit)
  {
    var s := "aB\n1";
    assert s[0] == 'a' && s[1] == 'B' && s[3] == '1';
    assert IsLineTerminator(s[2]);
    assert FirstLine(s[2..]) == "";
    assert FirstLine(s[1..]) == "B";
    assert FirstLine(s) == "aB";
  }
}
