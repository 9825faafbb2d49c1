/**
 * The amount parser, `parse_amount_and_currency`: the argument is upper-cased
 * and matched against `^([\d,]+\.?\d*)([A-Z]+)$`; the commas of the first group
 * are removed and what is left is converted with `float()`. A failed match and
 * a failed conversion both give `(None, None)`, here `Invalid`.
 *
 * The regular expression is recognised by hand (CodeStart, IntRunLength,
 * IsNumericGroup, MatchGroups) and checked against MatchesAt, which states the
 * language of the expression directly. The conversion is exact: the amount is
 * a Decimal, a mantissa scaled by a power of ten.
 *
 * Every lemma here carries `{:induction false}`, the ones that do not recurse
 * too: their contracts mention recursive functions of their parameters, and an
 * induction hypothesis Dafny would add by itself only enlarges their proofs.
 */
module AmountParser {
  import opened Wrappers
  import opened Ascii

  /** `\d` over ASCII. */
  predicate IsDigit(c: char) { '0' <= c <= '9' }

  /** `[\d,]`. */
  predicate IsIntChar(c: char) { IsDigit(c) || c == ',' }

  predicate AllDigits(s: string) { forall i | 0 <= i < |s| :: IsDigit(s[i]) }

  predicate AllIntChars(s: string) { forall i | 0 <= i < |s| :: IsIntChar(s[i]) }

  predicate AllUpperLetters(s: string) { forall i | 0 <= i < |s| :: IsUpperLetter(s[i]) }

  predicate HasDigit(s: string) { exists i | 0 <= i < |s| :: IsDigit(s[i]) }

  predicate IsAsciiLetter(c: char) { IsUpperLetter(c) || IsLowerLetter(c) }

  function Pow10(n: nat): (r: nat)
    ensures 1 <= r
  {
    if n == 0 then 1 else 10 * Pow10(n - 1)
  }

  /** The exact number `mantissa / 10^scale`. */
  datatype Decimal = Decimal(mantissa: nat, scale: nat)

  function Value(d: Decimal): (v: real)
    ensures 0.0 <= v
  {
    d.mantissa as real / Pow10(d.scale) as real
  }

  /** The result of `parse_amount_and_currency`: an amount and a currency code, or `(None, None)`. */
  datatype Parse = Parsed(amount: Decimal, currency: string) | Invalid

  // ---------------------------------------------------------------------------
  // The language of the regular expression, stated directly.

  /**
   * `u` matches `^([\d,]+)(\.?)(\d*)([A-Z]+)$` with the integer run `u[..i1]`,
   * the optional point `u[i1..i2]`, the fraction digits `u[i2..i3]` and the
   * currency code `u[i3..]`; the groups of the source are `u[..i3]` and `u[i3..]`.
   */
  ghost predicate MatchesAt(u: string, i1: nat, i2: nat, i3: nat) {
    && 0 < i1 <= i2 <= i3 < |u|
    && AllIntChars(u[..i1])
    && (i2 == i1 || (i2 == i1 + 1 && u[i1] == '.'))
    && AllDigits(u[i2..i3])
    && AllUpperLetters(u[i3..])
  }

  /**
   * A match read so that the integer run reaches the point, or the end of the
   * number when there is no point: then `u[i2..i3]` is exactly the fraction.
   */
  ghost predicate MatchesNormallyAt(u: string, i1: nat, i2: nat, i3: nat) {
    MatchesAt(u, i1, i2, i3) && (i2 == i1 ==> i2 == i3)
  }

  // ---------------------------------------------------------------------------
  // The recogniser.

  /** Where the trailing run of letters A-Z of `u` begins. */
  function CodeStart(u: string): (k: nat)
    ensures k <= |u|
    ensures forall j | k <= j < |u| :: IsUpperLetter(u[j])
    ensures 0 < k ==> !IsUpperLetter(u[k - 1])
  {
    if 0 < |u| && IsUpperLetter(u[|u| - 1]) then CodeStart(u[..|u| - 1]) else |u|
  }

  /** The length of the leading run of digits and commas of `s`. */
  function IntRunLength(s: string): (p: nat)
    ensures p <= |s|
    ensures forall j | 0 <= j < p :: IsIntChar(s[j])
    ensures p < |s| ==> !IsIntChar(s[p])
  {
    if 0 < |s| && IsIntChar(s[0]) then 1 + IntRunLength(s[1..]) else 0
  }

  /** `[\d,]+\.?\d*`: a non-empty run of digits and commas, then at most a point and digits. */
  predicate IsNumericGroup(n: string) {
    var p := IntRunLength(n);
    0 < p && (p == |n| || (n[p] == '.' && forall j | p < j < |n| :: IsDigit(n[j])))
  }

  /** The two groups of the match, or None when the expression does not match. */
  function MatchGroups(u: string): (g: Option<(string, string)>)
    ensures g.Some? ==> u == g.value.0 + g.value.1 && IsNumericGroup(g.value.0)
    ensures g.Some? ==> 0 < |g.value.1| && forall j | 0 <= j < |g.value.1| :: IsUpperLetter(g.value.1[j])
  {
    var k := CodeStart(u);
    if k < |u| && IsNumericGroup(u[..k]) then Some((u[..k], u[k..])) else None
  }

  // ---------------------------------------------------------------------------
  // `replace(',', '')` and `float()`.

  /** `s.replace(',', '')`. */
  function StripCommas(s: string): (r: string)
    ensures ',' !in r
    ensures |r| <= |s|
  {
    if s == [] then [] else (if s[0] == ',' then [] else [s[0]]) + StripCommas(s[1..])
  }

  function DigitValue(c: char): nat
    requires IsDigit(c)
  {
    c as int - '0' as int
  }

  /** The number a string of decimal digits denotes; a k-digit numeral is below 10^k. */
  function DigitsValue(ds: string): (n: nat)
    requires AllDigits(ds)
    ensures n < Pow10(|ds|)
  {
    if ds == [] then 0 else 10 * DigitsValue(ds[..|ds| - 1]) + DigitValue(ds[|ds| - 1])
  }

  /** The texts the first group can become once its commas are gone: digits, at most a point, digits. */
  predicate IsPointedDigits(s: string) {
    var p := IntRunLength(s);
    ',' !in s && (p == |s| || (s[p] == '.' && forall j | p < j < |s| :: IsDigit(s[j])))
  }

  /**
   * `float(s)` on those texts: the digits before the point and after it form
   * the mantissa, the digits after it the scale; `""` and `"."` raise ValueError.
   */
  function FloatOf(s: string): (d: Option<Decimal>)
    requires IsPointedDigits(s)
    ensures d.None? <==> !HasDigit(s)
  {
    var p := IntRunLength(s);
    var whole := s[..p];
    var frac := if p < |s| then s[p + 1..] else "";
    assert AllDigits(whole + frac) by {
      assert forall j | 0 <= j < p :: s[j] != ',' by {
        forall j | 0 <= j < p ensures s[j] != ',' {
          assert s[j] in s;
        }
      }
    }
    assert HasDigit(s) <==> 0 < |whole| + |frac| by {
      if HasDigit(s) {
        var i :| 0 <= i < |s| && IsDigit(s[i]);
        assert i < p || p < i;
        if p < i { assert frac[i - p - 1] == s[i]; }
      }
      if 0 < |whole| {
        assert IsDigit(s[0]);
      }
      if 0 < |frac| {
        assert IsDigit(s[p + 1]);
      }
    }
    if |whole| + |frac| == 0 then None else Some(Decimal(DigitsValue(whole + frac), |frac|))
  }

  /** `parse_amount_and_currency(arg)`: the work is done on the upper-cased argument. */
  function ParseAmountAndCurrency(arg: string): (r: Parse)
    ensures r.Parsed? ==> 0 < |r.currency| && forall j | 0 <= j < |r.currency| :: IsUpperLetter(r.currency[j])
    ensures r.Parsed? ==> 0.0 <= Value(r.amount)
  {
    ParseUpper(Upper(arg))
  }

  /** Match, strip the commas, convert; any failure is `Invalid`. */
  function ParseUpper(u: string): (r: Parse)
    ensures r.Parsed? ==> 0 < |r.currency| && forall j | 0 <= j < |r.currency| :: IsUpperLetter(r.currency[j])
  {
    match MatchGroups(u)
    case None => Invalid
    case Some((number, currency)) =>
      NumericGroupStripped(number);
      match FloatOf(StripCommas(number))
      case None => Invalid
      case Some(amount) => Parsed(amount, currency)
  }

  // ---------------------------------------------------------------------------
  // Lemmas about the pieces.

  lemma {:induction false} CodeStartAt(u: string, k: nat)
    requires k <= |u|
    requires forall j | k <= j < |u| :: IsUpperLetter(u[j])
    requires 0 < k ==> !IsUpperLetter(u[k - 1])
    ensures CodeStart(u) == k
  {
  }

  lemma {:induction false} IntRunLengthAt(s: string, p: nat)
    requires p <= |s|
    requires forall j | 0 <= j < p :: IsIntChar(s[j])
    requires p < |s| ==> !IsIntChar(s[p])
    ensures IntRunLength(s) == p
  {
  }

  /** Removing commas distributes over concatenation. */
  lemma {:induction false} StripCommasAppend(a: string, b: string)
    ensures StripCommas(a + b) == StripCommas(a) + StripCommas(b)
  {
    if a == [] {
      assert a + b == b;
    } else {
      var c, a' := a[0], a[1..];
      assert a == [c] + a' && a + b == [c] + (a' + b);
      StripCommasAppend(a', b);
      StripCommasCons(c, a');
      StripCommasCons(c, a' + b);
      var h, x, y := if c == ',' then [] else [c], StripCommas(a'), StripCommas(b);
      assert h + (x + y) == (h + x) + y;
    }
  }

  lemma {:induction false} StripCommasCons(c: char, s: string)
    ensures StripCommas([c] + s) == (if c == ',' then [] else [c]) + StripCommas(s)
  {
    assert ([c] + s)[1..] == s;
  }

  lemma {:induction false} StripCommasIdentity(s: string)
    requires ',' !in s
    ensures StripCommas(s) == s
  {
    if s != [] {
      assert ',' !in s[1..] by {
        forall j | 0 <= j < |s[1..]| ensures s[1..][j] != ',' {
          assert s[1..][j] == s[j + 1] && s[j + 1] in s;
        }
      }
      StripCommasIdentity(s[1..]);
      assert s == [s[0]] + s[1..];
    }
  }

  /** Removing the commas of a run of digits and commas leaves only digits. */
  lemma {:induction false} StripIntRun(s: string)
    requires forall j | 0 <= j < |s| :: IsIntChar(s[j])
    ensures AllDigits(StripCommas(s))
  {
    if s != [] {
      StripIntRun(s[1..]);
    }
  }

  lemma {:induction false} HasDigitAppend(a: string, b: string)
    ensures HasDigit(a + b) <==> HasDigit(a) || HasDigit(b)
  {
    if HasDigit(a + b) {
      var i :| 0 <= i < |a + b| && IsDigit((a + b)[i]);
      if |a| <= i { assert IsDigit(b[i - |a|]); }
    }
    if HasDigit(a) {
      var i :| 0 <= i < |a| && IsDigit(a[i]);
      assert (a + b)[i] == a[i];
    }
    if HasDigit(b) {
      var i :| 0 <= i < |b| && IsDigit(b[i]);
      assert (a + b)[|a| + i] == b[i];
    }
  }

  /** Removing commas removes no digit. */
  lemma {:induction false} StripCommasHasDigit(s: string)
    ensures HasDigit(StripCommas(s)) <==> HasDigit(s)
  {
    if s != [] {
      StripCommasHasDigit(s[1..]);
      var head := if s[0] == ',' then [] else [s[0]];
      assert s == [s[0]] + s[1..];
      HasDigitAppend([s[0]], s[1..]);
      HasDigitAppend(head, StripCommas(s[1..]));
    }
  }

  /** Once its commas are removed, a numeric group is text that `float()` reads. */
  lemma {:induction false} NumericGroupStripped(n: string)
    requires IsNumericGroup(n)
    ensures IsPointedDigits(StripCommas(n))
  {
    var p := IntRunLength(n);
    StripNumber(n, p, if p < |n| then p + 1 else p);
    StripIntRun(n[..p]);
    FloatOfSplit(StripCommas(n), StripCommas(n[..p]), n[p..]);
  }

  /** Positional notation: appending digits shifts what is already there. */
  lemma {:induction false} DigitsValueAppend(a: string, b: string)
    requires AllDigits(a) && AllDigits(b)
    ensures AllDigits(a + b)
    ensures DigitsValue(a + b) == DigitsValue(a) * Pow10(|b|) + DigitsValue(b)
  {
    if b == [] {
      assert a + b == a;
    } else {
      var b' := b[..|b| - 1];
      assert (a + b)[..|a + b| - 1] == a + b';
      assert (a + b)[|a + b| - 1] == b[|b| - 1];
      DigitsValueAppend(a, b');
      ShiftDigit(DigitsValue(a), Pow10(|b'|), DigitsValue(b'), DigitValue(b[|b| - 1]));
    }
  }

  lemma {:induction false} ShiftDigit(x: int, p: int, y: int, d: int)
    ensures 10 * (x * p + y) + d == x * (10 * p) + (10 * y + d)
  {
  }

  /** The amount read from digits `whole`, a point and digits `frac` is `whole + frac / 10^|frac|`. */
  lemma {:induction false} DecimalValue(whole: string, frac: string)
    requires AllDigits(whole) && AllDigits(frac)
    ensures AllDigits(whole + frac)
    ensures Value(Decimal(DigitsValue(whole + frac), |frac|))
         == DigitsValue(whole) as real + DigitsValue(frac) as real / Pow10(|frac|) as real
  {
    DigitsValueAppend(whole, frac);
    var w, f, p := DigitsValue(whole), DigitsValue(frac), Pow10(|frac|);
    SplitQuotient(w, f, p);
  }

  lemma {:induction false} SplitQuotient(w: nat, f: nat, p: nat)
    requires 0 < p
    ensures (w * p + f) as real / p as real == w as real + f as real / p as real
  {
    assert (w * p + f) as real == w as real * p as real + f as real;
  }

  // ---------------------------------------------------------------------------
  // The recogniser against the language of the expression.

  /** Whenever the expression matches, the recogniser finds the same two groups. */
  lemma {:induction false} MatchComplete(u: string, i1: nat, i2: nat, i3: nat)
    requires MatchesAt(u, i1, i2, i3)
    ensures MatchGroups(u) == Some((u[..i3], u[i3..]))
  {
    assert !IsUpperLetter(u[i3 - 1]) by {
      if i3 - 1 < i1 {
        assert u[i3 - 1] == u[..i1][i3 - 1];
      } else if i2 <= i3 - 1 {
        assert u[i3 - 1] == u[i2..i3][i3 - 1 - i2];
      }
    }
    assert forall j | i3 <= j < |u| :: IsUpperLetter(u[j]) by {
      forall j | i3 <= j < |u| ensures IsUpperLetter(u[j]) {
        assert u[j] == u[i3..][j - i3];
      }
    }
    CodeStartAt(u, i3);
    var n := u[..i3];
    assert forall j | 0 <= j < i1 :: IsIntChar(n[j]) by {
      forall j | 0 <= j < i1 ensures IsIntChar(n[j]) {
        assert n[j] == u[..i1][j];
      }
    }
    if i2 == i1 {
      assert forall j | i1 <= j < i3 :: IsDigit(n[j]) by {
        forall j | i1 <= j < i3 ensures IsDigit(n[j]) {
          assert n[j] == u[i2..i3][j - i2];
        }
      }
      IntRunLengthAt(n, |n|);
    } else {
      assert n[i1] == '.';
      IntRunLengthAt(n, i1);
      assert forall j | i1 < j < |n| :: IsDigit(n[j]) by {
        forall j | i1 < j < |n| ensures IsDigit(n[j]) {
          assert n[j] == u[i2..i3][j - i2];
        }
      }
    }
  }

  /** Whatever the recogniser accepts matches the expression, read normally. */
  lemma {:induction false} MatchSound(u: string)
    requires MatchGroups(u).Some?
    ensures var k := CodeStart(u); var p := IntRunLength(u[..k]);
      MatchesNormallyAt(u, p, if p < k then p + 1 else p, k)
  {
  }

  /** Any match can be read normally. */
  lemma {:induction false} Normalize(u: string, i1: nat, i2: nat, i3: nat)
    requires MatchesAt(u, i1, i2, i3)
    ensures i2 == i1 ==> MatchesNormallyAt(u, i3, i3, i3)
    ensures i2 != i1 ==> MatchesNormallyAt(u, i1, i2, i3)
  {
  }

  /**
   * Every string of the grammar whose number holds a digit parses: the
   * currency is the trailing letter group, the amount the digits of the integer
   * run without its commas followed by the fraction digits, scaled by the
   * number of fraction digits.
   */
  lemma {:induction false} ParseGrammar(u: string, i1: nat, i2: nat, i3: nat)
    requires MatchesNormallyAt(u, i1, i2, i3) && HasDigit(u[..i3])
    ensures AllDigits(StripCommas(u[..i1]) + u[i2..i3])
    ensures ParseUpper(u) == Parsed(Decimal(DigitsValue(StripCommas(u[..i1]) + u[i2..i3]), i3 - i2), u[i3..])
  {
    var n, c := u[..i3], u[i3..];
    FloatOfNumber(u, i1, i2, i3);
    assert MatchGroups(u) == Some((n, c)) by {
      MatchComplete(u, i1, i2, i3);
    }
    ParseUpperOf(u, n, c, Decimal(DigitsValue(StripCommas(u[..i1]) + u[i2..i3]), i3 - i2));
  }

  /** `ParseUpper` once the match is known. */
  lemma {:induction false} ParseUpperOf(u: string, n: string, c: string, d: Decimal)
    requires MatchGroups(u) == Some((n, c)) && IsPointedDigits(StripCommas(n)) && FloatOf(StripCommas(n)) == Some(d)
    ensures ParseUpper(u) == Parsed(d, c)
  {
  }

  /** `float()` of the number group of a match, its commas dropped, split at the end of its integer run. */
  lemma {:induction false} FloatOfNumber(u: string, i1: nat, i2: nat, i3: nat)
    requires MatchesNormallyAt(u, i1, i2, i3) && HasDigit(u[..i3])
    ensures AllDigits(StripCommas(u[..i1]) + u[i2..i3])
    ensures IsPointedDigits(StripCommas(u[..i3]))
    ensures FloatOf(StripCommas(u[..i3])) == Some(Decimal(DigitsValue(StripCommas(u[..i1]) + u[i2..i3]), |u[i2..i3]|))
  {
    var s, head, tail, frac := StripCommas(u[..i3]), StripCommas(u[..i1]), u[i1..i3], u[i2..i3];
    NumberPieces(u, i1, i2, i3);
    FloatOfPieces(s, head, tail, frac);
  }

  /** `float()` of digits `head`, then `tail`: nothing, or a point and the digits `frac`. */
  lemma {:induction false} FloatOfPieces(s: string, head: string, tail: string, frac: string)
    requires s == head + tail && HasDigit(s)
    requires AllDigits(head) && AllDigits(frac)
    requires tail == [] || (tail[0] == '.' && tail[1..] == frac)
    requires frac == (if tail == [] then [] else tail[1..])
    ensures AllDigits(head + frac)
    ensures IsPointedDigits(s) && FloatOf(s) == Some(Decimal(DigitsValue(head + frac), |frac|))
  {
    FloatOfSplit(s, head, tail);
    assert 0 < |head| + |frac| by {
      assert FloatOf(s).Some?;
    }
  }

  /** The pieces of the number group of a match once its commas are dropped. */
  lemma {:induction false} NumberPieces(u: string, i1: nat, i2: nat, i3: nat)
    requires MatchesNormallyAt(u, i1, i2, i3) && HasDigit(u[..i3])
    ensures var head, tail, frac := StripCommas(u[..i1]), u[i1..i3], u[i2..i3];
      && StripCommas(u[..i3]) == head + tail
      && HasDigit(StripCommas(u[..i3]))
      && AllDigits(head) && AllDigits(frac)
      && (tail == [] || (tail[0] == '.' && tail[1..] == frac))
      && frac == (if tail == [] then [] else tail[1..])
  {
    var n := u[..i3];
    assert StripCommas(n) == StripCommas(u[..i1]) + u[i1..i3] by {
      assert n[..i1] == u[..i1];
      StripNumber(n, i1, i2);
    }
    StripCommasHasDigit(n);
    StripIntRun(u[..i1]);
  }

  /** The number group without its commas: its integer run without commas, then the point and fraction as they are. */
  lemma {:induction false} StripNumber(n: string, i1: nat, i2: nat)
    requires 0 < i1 <= i2 <= |n| && (i2 == i1 || (i2 == i1 + 1 && n[i1] == '.'))
    requires forall j | i2 <= j < |n| :: IsDigit(n[j])
    requires i2 == i1 ==> i2 == |n|
    ensures StripCommas(n) == StripCommas(n[..i1]) + n[i1..]
  {
    var a, b := n[..i1], n[i1..];
    assert StripCommas(n) == StripCommas(a) + StripCommas(b) by {
      assert n == a + b;
      StripCommasAppend(a, b);
    }
    assert ',' !in b by {
      forall j | 0 <= j < |b|
        ensures b[j] != ','
      {
        assert b[j] == n[i1 + j];
      }
    }
    StripCommasIdentity(b);
  }

  lemma {:induction false} DigitsHaveNoComma(s: string)
    requires AllDigits(s)
    ensures ',' !in s
  {
    assert forall j | 0 <= j < |s| :: s[j] != ',';
  }

  /** `float()` of digits, optionally followed by a point and digits. */
  lemma {:induction false} FloatOfSplit(s: string, head: string, tail: string)
    requires s == head + tail
    requires AllDigits(head) && (tail == [] || (tail[0] == '.' && AllDigits(tail[1..])))
    ensures var frac := if tail == [] then [] else tail[1..];
      && AllDigits(head + frac)
      && IsPointedDigits(s)
      && FloatOf(s) == if |head| + |frac| == 0 then None else Some(Decimal(DigitsValue(head + frac), |frac|))
  {
    PointedDigitsSplit(head, tail);
    assert s[..|head|] == head;
    assert tail != [] ==> s[|head| + 1..] == tail[1..];
  }

  lemma {:induction false} PointedDigitsSplit(head: string, tail: string)
    requires AllDigits(head) && (tail == [] || (tail[0] == '.' && AllDigits(tail[1..])))
    ensures IsPointedDigits(head + tail) && IntRunLength(head + tail) == |head|
  {
    var s := head + tail;
    var frac := if tail == [] then [] else tail[1..];
    assert ',' !in s by {
      DigitsHaveNoComma(head);
      DigitsHaveNoComma(frac);
      assert tail == [] || tail == ['.'] + frac;
      NoCommaAppend(['.'], frac);
      NoCommaAppend(head, tail);
    }
    IntRunLengthAt(s, |head|);
  }

  lemma {:induction false} NoCommaAppend(a: string, b: string)
    requires ',' !in a && ',' !in b
    ensures ',' !in a + b
  {
  }

  /** Every successful parse comes from a match of the expression whose number holds a digit. */
  lemma {:induction false} ParseSound(u: string)
    requires ParseUpper(u).Parsed?
    ensures exists i1: nat, i2: nat, i3: nat :: MatchesNormallyAt(u, i1, i2, i3) && HasDigit(u[..i3])
  {
    var k := CodeStart(u);
    MatchSound(u);
    var n := u[..k];
    StripCommasHasDigit(n);
    var p := IntRunLength(n);
    assert MatchesNormallyAt(u, p, if p < k then p + 1 else p, k) && HasDigit(u[..k]);
  }

  /**
   * `parse_amount_and_currency` succeeds exactly when the upper-cased argument
   * matches the expression and the number it matched holds a digit, so that
   * `float()` does not raise.
   */
  lemma {:induction false} ParseSucceedsIff(arg: string)
    ensures var u := Upper(arg);
      (ParseAmountAndCurrency(arg).Parsed?
       <==> exists i1: nat, i2: nat, i3: nat :: MatchesAt(u, i1, i2, i3) && HasDigit(u[..i3]))
  {
    var u := Upper(arg);
    if ParseUpper(u).Parsed? {
      ParseSound(u);
    }
    if exists i1: nat, i2: nat, i3: nat :: MatchesAt(u, i1, i2, i3) && HasDigit(u[..i3]) {
      var i1: nat, i2: nat, i3: nat :| MatchesAt(u, i1, i2, i3) && HasDigit(u[..i3]);
      Normalize(u, i1, i2, i3);
      if i2 == i1 {
        ParseGrammar(u, i3, i3, i3);
      } else {
        ParseGrammar(u, i1, i2, i3);
      }
    }
  }

  /**
   * The result of a successful parse: the currency is the trailing letter
   * group of the upper-cased argument, and the amount is the integer run (its
   * commas dropped) plus the fraction digits over ten to their number.
   */
  lemma {:induction false} ParseResult(arg: string)
    requires ParseAmountAndCurrency(arg).Parsed?
    ensures var u := Upper(arg); var r := ParseAmountAndCurrency(arg);
      exists i1: nat, i2: nat, i3: nat ::
        && MatchesNormallyAt(u, i1, i2, i3)
        && AllDigits(StripCommas(u[..i1])) && AllDigits(u[i2..i3])
        && r.currency == u[i3..]
        && Value(r.amount)
           == DigitsValue(StripCommas(u[..i1])) as real + DigitsValue(u[i2..i3]) as real / Pow10(i3 - i2) as real
  {
    var u := Upper(arg);
    ParseSound(u);
    var i1: nat, i2: nat, i3: nat :| MatchesNormallyAt(u, i1, i2, i3) && HasDigit(u[..i3]);
    ParseValueAt(u, i1, i2, i3);
  }

  lemma {:induction false} ParseValueAt(u: string, i1: nat, i2: nat, i3: nat)
    requires MatchesNormallyAt(u, i1, i2, i3) && HasDigit(u[..i3])
    ensures AllDigits(StripCommas(u[..i1])) && AllDigits(u[i2..i3])
    ensures var r := ParseUpper(u);
      && r.Parsed? && r.currency == u[i3..]
      && Value(r.amount)
         == DigitsValue(StripCommas(u[..i1])) as real + DigitsValue(u[i2..i3]) as real / Pow10(i3 - i2) as real
  {
    var whole, frac := StripCommas(u[..i1]), u[i2..i3];
    assert AllDigits(whole) && AllDigits(frac) by {
      StripIntRun(u[..i1]);
    }
    var d := Decimal(DigitsValue(whole + frac), i3 - i2);
    assert Value(d) == DigitsValue(whole) as real + DigitsValue(frac) as real / Pow10(i3 - i2) as real by {
      DecimalValue(whole, frac);
    }
    ParseGrammar(u, i1, i2, i3);
  }

  /**
   * Commas are ignored: a comma inserted anywhere in the leading run of digits
   * and commas leaves a successful parse unchanged.
   */
  lemma {:induction false} CommaInsertion(arg: string, i: nat)
    requires ParseAmountAndCurrency(arg).Parsed?
    requires i <= |arg| && forall j | 0 <= j < i :: IsIntChar(arg[j])
    ensures ParseAmountAndCurrency(arg[..i] + "," + arg[i..]) == ParseAmountAndCurrency(arg)
  {
    var u := Upper(arg);
    UpperInsertComma(arg, i);
    assert forall j | 0 <= j < i :: IsIntChar(u[j]);
    InsertCommaParse(u, i);
  }

  lemma {:induction false} UpperInsertComma(arg: string, i: nat)
    requires i <= |arg|
    ensures Upper(arg[..i] + "," + arg[i..]) == Upper(arg)[..i] + "," + Upper(arg)[i..]
  {
  }

  lemma {:induction false} InsertCommaParse(u: string, i: nat)
    requires ParseUpper(u).Parsed?
    requires i <= |u| && forall j | 0 <= j < i :: IsIntChar(u[j])
    ensures ParseUpper(u[..i] + "," + u[i..]) == ParseUpper(u)
  {
    ParseSound(u);
    var i1: nat, i2: nat, i3: nat :| MatchesNormallyAt(u, i1, i2, i3) && HasDigit(u[..i3]);
    assert !IsIntChar(u[i1]);
    InsertCommaMatch(u, i, i1, i2, i3);
  }

  /** A comma inserted in the integer run of a match leaves the parse unchanged. */
  lemma {:induction false} InsertCommaMatch(u: string, i: nat, i1: nat, i2: nat, i3: nat)
    requires MatchesNormallyAt(u, i1, i2, i3) && i <= i1
    ensures ParseUpper(u[..i] + "," + u[i..]) == ParseUpper(u)
  {
    var u' := u[..i] + "," + u[i..];
    assert MatchGroups(u') == Some((u'[..i3 + 1], u[i3..])) by {
      InsertCommaMatches(u, i, i1, i2, i3);
      MatchComplete(u', i1 + 1, i2 + 1, i3 + 1);
    }
    assert MatchGroups(u) == Some((u[..i3], u[i3..])) by {
      MatchComplete(u, i1, i2, i3);
    }
    InsertCommaStrip(u, i, i3);
    SameGroups(u, u', u[..i3], u'[..i3 + 1], u[i3..]);
  }

  /** Two strings whose number groups differ only in commas, with the same code, parse alike. */
  lemma {:induction false} SameGroups(u: string, u': string, n: string, n': string, c: string)
    requires MatchGroups(u) == Some((n, c)) && MatchGroups(u') == Some((n', c))
    requires StripCommas(n) == StripCommas(n')
    ensures ParseUpper(u) == ParseUpper(u')
  {
  }

  lemma {:induction false} InsertCommaMatches(u: string, i: nat, i1: nat, i2: nat, i3: nat)
    requires MatchesNormallyAt(u, i1, i2, i3) && i <= i1
    ensures var u' := u[..i] + "," + u[i..];
      MatchesAt(u', i1 + 1, i2 + 1, i3 + 1) && u'[i3 + 1..] == u[i3..]
  {
    InsertCommaShifts(u, i);
  }

  lemma {:induction false} InsertCommaShifts(u: string, i: nat)
    requires i <= |u|
    ensures var u' := u[..i] + "," + u[i..];
      && |u'| == |u| + 1 && u'[i] == ','
      && (forall j | 0 <= j < i :: u'[j] == u[j])
      && (forall j | i < j < |u'| :: u'[j] == u[j - 1])
      && (forall a, b | i <= a <= b <= |u| :: u'[a + 1..b + 1] == u[a..b])
  {
    var u' := u[..i] + "," + u[i..];
    forall a, b | i <= a <= b <= |u| ensures u'[a + 1..b + 1] == u[a..b] {
      assert u'[i + 1..] == u[i..];
      assert u'[a + 1..b + 1] == u[i..][a - i..b - i];
    }
  }

  lemma {:induction false} InsertCommaStrip(u: string, i: nat, i1: nat)
    requires i <= i1 <= |u|
    ensures var u' := u[..i] + "," + u[i..]; StripCommas(u'[..i1 + 1]) == StripCommas(u[..i1])
  {
    var u' := u[..i] + "," + u[i..];
    var a, b := u[..i], u[i..i1];
    assert StripCommas(u'[..i1 + 1]) == StripCommas(a) + StripCommas(b) by {
      assert u'[..i1 + 1] == a + ([','] + b);
      StripCommasAppend(a, [','] + b);
      StripCommasCons(',', b);
    }
    assert StripCommas(u[..i1]) == StripCommas(a) + StripCommas(b) by {
      assert u[..i1] == a + b;
      StripCommasAppend(a, b);
    }
  }

  // ---------------------------------------------------------------------------
  // What every accepted argument looks like, and the arguments it rejects.

  /** Upper-casing keeps a character's class: digit, comma, point or letter. */
  lemma {:induction false} UpperCharClass(c: char)
    ensures IsDigit(UpperChar(c)) <==> IsDigit(c)
    ensures UpperChar(c) == ',' <==> c == ','
    ensures UpperChar(c) == '.' <==> c == '.'
    ensures IsUpperLetter(UpperChar(c)) <==> IsAsciiLetter(c)
  {
  }

  /**
   * The shape every argument that parses has: it ends in a letter, holds a
   * digit, starts with a digit or a comma, uses only digits, commas, points
   * and letters, has only digits and letters after a point, and only letters
   * after a letter.
   */
  predicate WellShaped(arg: string) {
    && 0 < |arg| && IsAsciiLetter(arg[|arg| - 1])
    && HasDigit(arg)
    && IsIntChar(arg[0])
    && (forall j | 0 <= j < |arg| :: IsIntChar(arg[j]) || arg[j] == '.' || IsAsciiLetter(arg[j]))
    && (forall j, k | 0 <= j < k < |arg| && arg[j] == '.' :: IsDigit(arg[k]) || IsAsciiLetter(arg[k]))
    && (forall j, k | 0 <= j < k < |arg| && IsAsciiLetter(arg[j]) :: IsAsciiLetter(arg[k]))
  }

  lemma {:induction false} ParsedShape(arg: string)
    ensures ParseAmountAndCurrency(arg).Parsed? ==> WellShaped(arg)
  {
    var u := Upper(arg);
    if ParseUpper(u).Parsed? {
      ParseSound(u);
      var i1: nat, i2: nat, i3: nat :| MatchesNormallyAt(u, i1, i2, i3) && HasDigit(u[..i3]);
      ShapeAt(arg, i1, i2, i3);
    }
  }

  /** The shape, read off a match of the upper-cased argument. */
  lemma {:induction false} ShapeAt(arg: string, i1: nat, i2: nat, i3: nat)
    requires MatchesNormallyAt(Upper(arg), i1, i2, i3) && HasDigit(Upper(arg)[..i3])
    ensures WellShaped(arg)
  {
    var u := Upper(arg);
    forall j | 0 <= j < |arg|
      ensures && (IsIntChar(arg[j]) <==> j < i1 || i2 <= j < i3)
              && (arg[j] == '.' <==> j == i1 && i2 == i1 + 1)
              && (IsDigit(arg[j]) <== i2 <= j < i3)
              && (IsAsciiLetter(arg[j]) <==> i3 <= j)
    {
      UpperCharClass(arg[j]);
      assert u[j] == UpperChar(arg[j]);
    }
    var d :| 0 <= d < i3 && IsDigit(u[..i3][d]);
    UpperCharClass(arg[d]);
    assert u[d] == UpperChar(arg[d]);
  }

  /** A parse needs a digit: `"USD"`, `",USD"` and `",.USD"` are rejected. */
  lemma {:induction false} RejectsWithoutDigit(arg: string)
    requires !HasDigit(arg)
    ensures ParseAmountAndCurrency(arg) == Invalid
  {
    ParsedShape(arg);
  }

  /** A parse needs a trailing currency code: `"100"` is rejected. */
  lemma {:induction false} RejectsWithoutCurrency(arg: string)
    requires |arg| == 0 || !IsAsciiLetter(arg[|arg| - 1])
    ensures ParseAmountAndCurrency(arg) == Invalid
  {
    ParsedShape(arg);
  }

  /** A second point is rejected: `"1.2.3USD"`. */
  lemma {:induction false} RejectsSecondPoint(arg: string, j: nat, k: nat)
    requires j < k < |arg| && arg[j] == '.' && arg[k] == '.'
    ensures ParseAmountAndCurrency(arg) == Invalid
  {
    ParsedShape(arg);
  }

  /** A comma after the point is rejected: `"1.000,5USD"`. */
  lemma {:induction false} RejectsCommaAfterPoint(arg: string, j: nat, k: nat)
    requires j < k < |arg| && arg[j] == '.' && arg[k] == ','
    ensures ParseAmountAndCurrency(arg) == Invalid
  {
    ParsedShape(arg);
  }

  /** The number must start with a digit or a comma: `".5USD"` and `"-5USD"` are rejected. */
  lemma {:induction false} RejectsBadStart(arg: string)
    requires 0 < |arg| && !IsIntChar(arg[0])
    ensures ParseAmountAndCurrency(arg) == Invalid
  {
    ParsedShape(arg);
  }

  /** Any character other than a digit, comma, point or ASCII letter is rejected: signs, spaces. */
  lemma {:induction false} RejectsOtherCharacter(arg: string, j: nat)
    requires j < |arg| && !IsIntChar(arg[j]) && arg[j] != '.' && !IsAsciiLetter(arg[j])
    ensures ParseAmountAndCurrency(arg) == Invalid
  {
    ParsedShape(arg);
  }

  /** Nothing but letters may follow a letter: `"1E5USD"` and `"USD100"` are rejected. */
  lemma {:induction false} RejectsLetterInsideNumber(arg: string, j: nat, k: nat)
    requires j < k < |arg| && IsAsciiLetter(arg[j]) && !IsAsciiLetter(arg[k])
    ensures ParseAmountAndCurrency(arg) == Invalid
  {
    ParsedShape(arg);
  }

  /**
   * A whole amount, digits alone, followed by a currency code in letters of
   * either case parses to that number and the code upper-cased: `100jpy` is
   * 100 yen.
   */
  lemma {:induction false} ParseWholeAmount(digits: string, code: string)
    requires 0 < |digits| && AllDigits(digits)
    requires 0 < |code| && forall j | 0 <= j < |code| :: IsAsciiLetter(code[j])
    ensures ParseAmountAndCurrency(digits + code) == Parsed(Decimal(DigitsValue(digits), 0), Upper(code))
  {
    var u, k := digits + Upper(code), |digits|;
    WholeAmountUpper(digits, code);
    WholeAmountMatch(digits, code);
    assert StripCommas(u[..k]) + u[k..k] == digits && u[k..] == Upper(code) by {
      assert u[..k] == digits && u[k..k] == [];
      DigitsHaveNoComma(digits);
      StripCommasIdentity(digits);
    }
    ParseGrammar(u, k, k, k);
  }

  lemma {:induction false} WholeAmountUpper(digits: string, code: string)
    requires AllDigits(digits)
    ensures Upper(digits + code) == digits + Upper(code)
  {
    UpperAppend(digits, code);
    UpperIdentity(digits);
  }

  lemma {:induction false} WholeAmountMatch(digits: string, code: string)
    requires 0 < |digits| && AllDigits(digits)
    requires 0 < |code| && forall j | 0 <= j < |code| :: IsAsciiLetter(code[j])
    ensures var u, k := digits + Upper(code), |digits|; MatchesNormallyAt(u, k, k, k) && HasDigit(u[..k])
  {
    var u, k := digits + Upper(code), |digits|;
    assert u[..k] == digits && u[k..k] == [] && u[k..] == Upper(code);
    assert AllUpperLetters(Upper(code)) by {
      forall j | 0 <= j < |code| ensures IsUpperLetter(Upper(code)[j]) {
        UpperCharClass(code[j]);
      }
    }
    assert IsDigit(digits[0]);
  }

  /**
   * The example of the argument grammar: `"1,200.50usd"` is 1200.5 US dollars.
   * This lemma and its helpers take the literal as a parameter fixed by
   * `requires` rather than writing it in the `ensures`: the verifier then
   * reasons about `Upper`, `StripCommas` and `DigitsValue` one step at a time
   * through the helpers, instead of unfolding them on the whole literal at once.
   */
  lemma {:induction false} ExampleWithCommaAndPoint(arg: string)
    requires arg == "1,200.50usd"
    ensures ParseAmountAndCurrency(arg) == Parsed(Decimal(120050, 2), "USD")
    ensures Value(ParseAmountAndCurrency(arg).amount) == 1200.5
  {
    var u := Upper(arg);
    ExampleUpper(arg);
    ExampleMatch(u);
    ParseGrammar(u, 5, 6, 8);
    ExampleDigits(u);
    assert Value(Decimal(120050, 2)) == 1200.5 by {
      assert Pow10(2) == 100;
    }
  }

  lemma {:induction false} ExampleUpper(arg: string)
    requires arg == "1,200.50usd"
    ensures Upper(arg) == "1,200.50USD"
  {
    assert |Upper(arg)| == 11;
    forall i | 0 <= i < 11 ensures Upper(arg)[i] == "1,200.50USD"[i] {
      assert Upper(arg)[i] == UpperChar(arg[i]);
    }
  }

  lemma {:induction false} ExampleMatch(u: string)
    requires u == "1,200.50USD"
    ensures MatchesNormallyAt(u, 5, 6, 8) && HasDigit(u[..8])
  {
    assert u[..5] == "1,200" && u[6..8] == "50" && u[8..] == "USD";
    assert AllIntChars(u[..5]) && u[5] == '.' && IsDigit(u[..8][0]);
  }

  lemma {:induction false} ExampleDigits(u: string)
    requires u == "1,200.50USD"
    ensures AllDigits(StripCommas(u[..5]) + u[6..8])
    ensures DigitsValue(StripCommas(u[..5]) + u[6..8]) == 120050 && u[8..] == "USD"
  {
    var n, f := u[..5], u[6..8];
    assert n == "1,200" && f == "50" && u[8..] == "USD";
    ExampleStrip(n);
    ExampleValue(StripCommas(n) + f);
  }

  lemma {:induction false} ExampleStrip(n: string)
    requires n == "1,200"
    ensures StripCommas(n) == "1200"
  {
    var a, b := "1", "200";
    assert n == a + ([','] + b);
    StripCommasAppend(a, [','] + b);
    StripCommasCons(',', b);
    StripCommasIdentity(a);
    StripCommasIdentity(b);
  }

  lemma {:induction false} ExampleValue(ds: string)
    requires ds == "1200" + "50"
    ensures AllDigits(ds) && DigitsValue(ds) == 120050
  {
    assert ds == "120050";
    DigitsStep("1", "", 0);
    DigitsStep("12", "1", 1);
    DigitsStep("120", "12", 12);
    DigitsStep("1200", "120", 120);
    DigitsStep("12005", "1200", 1200);
    DigitsStep(ds, "12005", 12005);
  }

  /** One step of positional notation: the last digit is added to ten times the rest. */
  lemma {:induction false} DigitsStep(ds: string, init: string, n: nat)
    requires 0 < |ds| && AllDigits(ds) && init == ds[..|ds| - 1] && DigitsValue(init) == n
    ensures DigitsValue(ds) == 10 * n + DigitValue(ds[|ds| - 1])
  {
  }
}
