/**
 * The ASCII part of Python's `str.upper` and `str.lower`: the letters a-z and
 * A-Z change case, every other character is left as it is.
 */
module Ascii {

  predicate IsLowerLetter(c: char) { 'a' <= c <= 'z' }

  predicate IsUpperLetter(c: char) { 'A' <= c <= 'Z' }

  function UpperChar(c: char): (d: char)
    ensures !IsLowerLetter(d)
    ensures IsUpperLetter(c) || IsLowerLetter(c) <==> IsUpperLetter(d)
  {
    if IsLowerLetter(c) then (c as int - 32) as char else c
  }

  function LowerChar(c: char): (d: char)
    ensures !IsUpperLetter(d)
    ensures IsUpperLetter(c) || IsLowerLetter(c) <==> IsLowerLetter(d)
  {
    if IsUpperLetter(c) then (c as int + 32) as char else c
  }

  /** `s.upper()` on ASCII text. */
  function Upper(s: string): (r: string)
    ensures |r| == |s|
    ensures forall i | 0 <= i < |r| :: !IsLowerLetter(r[i])
  {
    seq(|s|, i requires 0 <= i < |s| => UpperChar(s[i]))
  }

  /** `s.lower()` on ASCII text. */
  function Lower(s: string): (r: string)
    ensures |r| == |s|
    ensures forall i | 0 <= i < |r| :: !IsUpperLetter(r[i])
  {
    seq(|s|, i requires 0 <= i < |s| => LowerChar(s[i]))
  }

  /** Text with no upper-case letter, such as every CoinGecko identifier. */
  predicate IsLowerCase(s: string) {
    forall i | 0 <= i < |s| :: !IsUpperLetter(s[i])
  }

  lemma UpperAppend(a: string, b: string)
    ensures Upper(a + b) == Upper(a) + Upper(b)
  {
  }

  /** Case-folding forgets which case the input was in. */
  lemma LowerOfUpper(s: string)
    ensures Lower(Upper(s)) == Lower(s)
  {
    forall i | 0 <= i < |s| ensures Lower(Upper(s))[i] == Lower(s)[i] {
      var c := s[i];
      if IsLowerLetter(c) {
        assert UpperChar(c) as int == c as int - 32;
      }
    }
  }

  lemma UpperOfLower(s: string)
    ensures Upper(Lower(s)) == Upper(s)
  {
    forall i | 0 <= i < |s| ensures Upper(Lower(s))[i] == Upper(s)[i] {
      var c := s[i];
      if IsUpperLetter(c) {
        assert LowerChar(c) as int == c as int + 32;
      }
    }
  }

  /** Upper-casing leaves text without lower-case letters as it is. */
  lemma UpperIdentity(s: string)
    requires forall i | 0 <= i < |s| :: !IsLowerLetter(s[i])
    ensures Upper(s) == s
  {
  }
}
