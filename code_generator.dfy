/** `generateCode` of the community router: a join code of `length` characters, each picked by one
    draw of `Math.floor(Math.random() * chars.length)` from an alphabet without look-alikes. */
module CodeGenerator {

  /** The alphabet: upper-case letters without I, L and O, then the digits 2 to 9. */
  const Alphabet: string := "ABCDEFGHJKMNPQRSTUVWXYZ" + "23456789"

  /** The length `generateCode` uses when called without an argument. */
  const DefaultLength: nat := 6

  /** One draw of the random source, already scaled and floored to an index into the alphabet. */
  type Draw = d: int | 0 <= d < 31

  /** A character that could be misread as another: 0, O, 1, I, L, or any lower-case letter. */
  predicate Ambiguous(c: char) {
    c == '0' || c == 'O' || c == '1' || c == 'I' || c == 'L' || 'a' <= c <= 'z'
  }

  /** A join code of `n` characters, all taken from the alphabet. */
  predicate IsCodeOfLength(code: string, n: nat) {
    |code| == n && forall i :: 0 <= i < |code| ==> code[i] in Alphabet
  }

  /** The code the draws `ds` spell, one character per draw. */
  function CodeOf(ds: seq<Draw>): (code: string)
    ensures IsCodeOfLength(code, |ds|)
  {
    seq(|ds|, i requires 0 <= i < |ds| => Alphabet[ds[i]])
  }

  /** The loop of `generateCode`: appends one alphabet character per draw. */
  method GenerateCode(draws: seq<Draw>, length: nat) returns (code: string)
    requires length <= |draws|
    ensures code == CodeOf(draws[..length])
  {
    code := "";
    for i := 0 to length
      invariant code == CodeOf(draws[..i])
    {
      code := code + [Alphabet[draws[i]]];
    }
  }

  /** The alphabet has 31 characters and none of them is ambiguous. */
  lemma AlphabetUnambiguous()
    ensures |Alphabet| == 31
    ensures forall i :: 0 <= i < |Alphabet| ==> !Ambiguous(Alphabet[i])
  {
  }

  /** No generated code contains an ambiguous character. */
  lemma {:induction false} CodeUnambiguous(code: string, n: nat)
    requires IsCodeOfLength(code, n)
    ensures forall i :: 0 <= i < |code| ==> !Ambiguous(code[i])
  {
    AlphabetUnambiguous();
    forall i | 0 <= i < |code|
      ensures !Ambiguous(code[i])
    {
      var k :| 0 <= k < |Alphabet| && Alphabet[k] == code[i];
    }
  }

  /** The position of `c` in the alphabet: the draw that produces it. */
  function DrawOf(c: char): (d: Draw)
    requires c in Alphabet
    ensures Alphabet[d] == c
  {
    if 'A' <= c <= 'H' then c as int - 'A' as int
    else if c == 'J' || c == 'K' then c as int - 'A' as int - 1
    else if c == 'M' || c == 'N' then c as int - 'A' as int - 2
    else if 'P' <= c <= 'Z' then c as int - 'A' as int - 3
    else c as int - '2' as int + 23
  }

  /** The draws a code was generated from, read back from its characters. */
  function DrawsOf(code: string): (ds: seq<Draw>)
    requires IsCodeOfLength(code, |code|)
    ensures |ds| == |code|
  {
    seq(|code|, i requires 0 <= i < |code| => DrawOf(code[i]))
  }

  /** Every draw gives a different character, so a code determines the draws that produced it. */
  lemma DrawsOfCodeOf(ds: seq<Draw>)
    ensures DrawsOf(CodeOf(ds)) == ds
  {
    var code := CodeOf(ds);
    forall i | 0 <= i < |ds|
      ensures DrawsOf(code)[i] == ds[i]
    {
      DrawOfAlphabet(ds[i]);
    }
  }

  /** The alphabet's characters are pairwise distinct: reading one back gives its own index. */
  lemma DrawOfAlphabet(d: Draw)
    ensures DrawOf(Alphabet[d]) == d
  {
    var letters, digits := "ABCDEFGHJKMNPQRSTUVWXYZ", "23456789";
    if d < 23 {
      assert Alphabet[d] == letters[d];
      if d < 8 {
        assert letters[..8] == "ABCDEFGH";
      } else if d < 12 {
        assert letters[8..12] == "JKMN";
      } else {
        assert letters[12..] == "PQRSTUVWXYZ";
      }
    } else {
      assert Alphabet[d] == digits[d - 23];
    }
  }
}
