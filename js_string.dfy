/** The JavaScript string operations the handlers and screens rely on: truthiness of an optional
    string, `String.prototype.trim`, and `toLowerCase`. */
module JsString {
  import opened Common

  /** `!x` is false: the field is present and not the empty string. */
  predicate Truthy(x: Option<string>) {
    x.Some? && x.value != ""
  }

  /** ECMAScript WhiteSpace and LineTerminator code points: what `trim` strips and what `\s` matches. */
  predicate IsWhitespace(c: char) {
    var n := c as int;
    (9 <= n <= 13) || n == 0x20 || n == 0xA0 || n == 0x1680 || (0x2000 <= n <= 0x200A)
    || n == 0x2028 || n == 0x2029 || n == 0x202F || n == 0x205F || n == 0x3000 || n == 0xFEFF
  }

  /** The code points a regular-expression `.` does not match. */
  predicate IsLineTerminator(c: char) {
    var n := c as int;
    n == 0x0A || n == 0x0D || n == 0x2028 || n == 0x2029
  }

  predicate AllWhitespace(s: string) {
    forall i :: 0 <= i < |s| ==> IsWhitespace(s[i])
  }

  /** Number of white-space characters at the start of `s`. */
  function LeadingWhitespace(s: string): (k: nat)
    ensures k <= |s|
    ensures AllWhitespace(s[..k])
    ensures k < |s| ==> !IsWhitespace(s[k])
  {
    if |s| == 0 || !IsWhitespace(s[0]) then 0 else 1 + LeadingWhitespace(s[1..])
  }

  /** Length of `s` once its trailing white space is dropped. */
  function TrailingEnd(s: string): (e: nat)
    ensures e <= |s|
    ensures AllWhitespace(s[e..])
    ensures e > 0 ==> !IsWhitespace(s[e - 1])
  {
    if |s| == 0 || !IsWhitespace(s[|s| - 1]) then |s| else TrailingEnd(s[..|s| - 1])
  }

  /** `s.trim()`: the one slice of `s` that drops only white space and has none at either end. */
  function Trim(s: string): (r: string)
    ensures |r| <= |s|
    ensures r == "" <==> AllWhitespace(s)
    ensures r != "" ==> !IsWhitespace(r[0]) && !IsWhitespace(r[|r| - 1])
  {
    var a := LeadingWhitespace(s);
    if a == |s| then
      assert s[..a] == s;
      ""
    else
      var e := TrailingEnd(s);
      assert a < e by {
        assert s[a] !in s[e..];
      }
      s[a..e]
  }

  /** What `trim` drops is white space at the two ends, and nothing else. */
  lemma TrimIsSlice(s: string)
    ensures exists a :: 0 <= a <= |s| - |Trim(s)| && Trim(s) == s[a..a + |Trim(s)|]
                        && AllWhitespace(s[..a]) && AllWhitespace(s[a + |Trim(s)|..])
  {
    var a := LeadingWhitespace(s);
    if a == |s| {
      assert s[..0] == [] && s[0..0] == [];
    } else {
      var e := TrailingEnd(s);
      assert a < e by {
        assert s[a] !in s[e..];
      }
      assert s[a..e] == s[a..a + (e - a)];
    }
  }

  /** Trimming twice is trimming once. */
  lemma TrimIdempotent(s: string)
    ensures Trim(Trim(s)) == Trim(s)
  {
    var t := Trim(s);
    if t != "" {
      assert LeadingWhitespace(t) == 0;
      assert TrailingEnd(t) == |t|;
      assert t[0..|t|] == t;
    }
  }

  function ToLowerChar(c: char): char {
    if 'A' <= c <= 'Z' then (c as int + 32) as char else c
  }

  /** `s.toLowerCase()`, restricted to the ASCII letters. */
  function ToLower(s: string): (r: string)
    ensures |r| == |s|
    ensures forall i :: 0 <= i < |r| ==> !('A' <= r[i] <= 'Z')
    ensures forall i :: 0 <= i < |r| ==> (IsWhitespace(r[i]) <==> IsWhitespace(s[i]))
    ensures forall i :: 0 <= i < |s| && !('A' <= s[i] <= 'Z') ==> r[i] == s[i]
    ensures forall i :: 0 <= i < |s| && 'A' <= s[i] <= 'Z' ==> r[i] as int == s[i] as int + 32
  {
    seq(|s|, i requires 0 <= i < |s| => ToLowerChar(s[i]))
  }

  /** Lower-casing leaves a lower-cased string as it is. */
  lemma ToLowerIdempotent(s: string)
    ensures ToLower(ToLower(s)) == ToLower(s)
  {
    var t := ToLower(s);
    assert forall i :: 0 <= i < |t| ==> ToLower(t)[i] == t[i];
  }

  /** `s.trim().toLowerCase()`: the normal form the screens send an e-mail address in. */
  function NormalizeEmail(s: string): (r: string)
    ensures |r| <= |s|
    ensures r == "" <==> AllWhitespace(s)
    ensures r != "" ==> !IsWhitespace(r[0]) && !IsWhitespace(r[|r| - 1])
  {
    ToLower(Trim(s))
  }

  /** Normalising an already normalised address changes nothing. */
  lemma {:induction false} NormalizeEmailIdempotent(s: string)
    ensures NormalizeEmail(NormalizeEmail(s)) == NormalizeEmail(s)
  {
    var t := Trim(s);
    var u := ToLower(t);
    if u != "" {
      assert LeadingWhitespace(u) == 0;
      assert TrailingEnd(u) == |u|;
      assert u[0..|u|] == u;
    }
    assert Trim(u) == u;
    ToLowerIdempotent(t);
  }
}
