/**
 * Task IDs are stored as the keys of a JSON object, so every ID lives as the
 * decimal string Python's `str` writes for it and is read back with `int`.
 * This module models that pair of conversions on non-negative integers.
 */
module Decimal {

  predicate IsDigit(c: char) {
    '0' <= c <= '9'
  }

  function DigitValue(c: char): (d: nat)
    requires IsDigit(c)
    ensures d < 10
  {
    (c as int) - ('0' as int)
  }

  function DigitChar(d: nat): (c: char)
    requires d < 10
    ensures IsDigit(c) && DigitValue(c) == d
  {
    (('0' as int) + d) as char
  }

  predicate AllDigits(s: string) {
    forall i :: 0 <= i < |s| ==> IsDigit(s[i])
  }

  /** The strings `str(n)` produces for `n >= 0`: digits only, no leading zero. */
  predicate IsDecimal(s: string) {
    |s| > 0 && AllDigits(s) && (s[0] == '0' ==> |s| == 1)
  }

  /** `str(n)` for a non-negative `n`. */
  function NatToString(n: nat): (s: string)
    ensures IsDecimal(s)
    ensures n > 0 ==> s[0] != '0'
    ensures |s| == 1 <==> n < 10
    decreases n
  {
    if n < 10 then [DigitChar(n)] else NatToString(n / 10) + [DigitChar(n % 10)]
  }

  /** `10 ** n`. */
  function Pow10(n: nat): (p: nat)
    ensures p >= 1
  {
    if n == 0 then 1 else 10 * Pow10(n - 1)
  }

  /**
   * `int(s)` for a string of digits: a number with exactly `|s|` digits when
   * `s` does not start with '0', and fewer digits when it does.
   */
  function ParseNat(s: string): (n: nat)
    requires AllDigits(s)
    ensures n < Pow10(|s|)
    ensures |s| > 0 && s[0] != '0' ==> n >= Pow10(|s| - 1)
    decreases |s|
  {
    if s == [] then 0
    else
      var init := s[..|s| - 1];
      assert |init| > 0 ==> init[0] == s[0];
      10 * ParseNat(init) + DigitValue(s[|s| - 1])
  }

  /** `str(i)` for any Python int, as the commands that take a task ID build the key. */
  function IntToString(i: int): (s: string)
    ensures IsDecimal(s) <==> i >= 0
    ensures i >= 0 ==> s == NatToString(i)
  {
    if i < 0 then "-" + NatToString(-i) else NatToString(i)
  }

  /** `int(str(n)) == n`. */
  lemma {:induction false} ParseNatToString(n: nat)
    ensures ParseNat(NatToString(n)) == n
    decreases n
  {
    if n >= 10 {
      var init := NatToString(n / 10);
      var s := init + [DigitChar(n % 10)];
      assert s[..|s| - 1] == init;
      ParseNatToString(n / 10);
    }
  }

  /** `str(int(s)) == s` for every canonical decimal string. */
  lemma {:induction false} NatToStringParse(s: string)
    requires IsDecimal(s)
    ensures NatToString(ParseNat(s)) == s
    ensures |s| >= 2 ==> ParseNat(s) >= 10
    decreases |s|
  {
    if |s| >= 2 {
      var init := s[..|s| - 1];
      assert IsDecimal(init);
      NatToStringParse(init);
      if |init| == 1 {
        assert s[0] != '0';
        assert ParseNat(init[..0]) == 0;
        assert ParseNat(init) >= 1;
      }
      var n := ParseNat(s);
      assert n / 10 == ParseNat(init) && n % 10 == DigitValue(s[|s| - 1]);
      assert s == init + [s[|s| - 1]];
    } else {
      assert s[..0] == [];
    }
  }

  /** Distinct IDs give distinct keys. */
  lemma NatToStringInjective(m: nat, n: nat)
    requires NatToString(m) == NatToString(n)
    ensures m == n
  {
    ParseNatToString(m);
    ParseNatToString(n);
  }

}
