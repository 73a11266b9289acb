/** Unsigned decimal numerals, as printf's %d writes them and as the digit loops read them. */
module Decimal {
  import opened CStrings

  predicate IsDigit(c: char) {
    '0' <= c <= '9'
  }

  function DigitValue(c: char): (d: nat)
    requires IsDigit(c)
  {
    c as int - '0' as int
  }

  function DigitChar(d: nat): (c: char)
    requires d < 10
    ensures IsDigit(c) && DigitValue(c) == d
  {
    ('0' as int + d) as char
  }

  /** The numeral of n, without leading zeros. */
  function Numeral(n: nat): (s: string)
    ensures s != []
    ensures forall i :: 0 <= i < |s| ==> IsDigit(s[i])
    ensures s[0] == '0' <==> n == 0
    ensures n == 0 ==> s == "0"
  {
    if n < 10 then [DigitChar(n)] else Numeral(n / 10) + [DigitChar(n % 10)]
  }

  /** Folds a run of digits into an accumulator, most significant first. */
  function Value(acc: nat, s: string): nat
    requires forall i :: 0 <= i < |s| ==> IsDigit(s[i])
    decreases s
  {
    if s == [] then acc else Value(10 * acc + DigitValue(s[0]), s[1..])
  }

  lemma {:induction false} ValueAppend(acc: nat, s: string, c: char)
    requires forall i :: 0 <= i < |s| ==> IsDigit(s[i])
    requires IsDigit(c)
    ensures Value(acc, s + [c]) == 10 * Value(acc, s) + DigitValue(c)
    decreases s
  {
    if s == [] {
      assert Value(10 * acc + DigitValue(c), []) == 10 * acc + DigitValue(c);
      assert (s + [c])[1..] == [];
    } else {
      assert (s + [c])[1..] == s[1..] + [c];
      ValueAppend(10 * acc + DigitValue(s[0]), s[1..], c);
    }
  }

  /** Reading back a numeral gives the number it was written from. */
  lemma {:induction false} ValueOfNumeral(n: nat)
    ensures Value(0, Numeral(n)) == n
  {
    if n < 10 {
      assert Value(0, [DigitChar(n)]) == Value(n, []) by {
        assert [DigitChar(n)][1..] == [];
      }
    } else {
      ValueOfNumeral(n / 10);
      ValueAppend(0, Numeral(n / 10), DigitChar(n % 10));
    }
  }

  /** The length of the longest prefix of s that consists of digits. */
  function RunLength(s: string): (k: nat)
    ensures k <= |s|
    ensures forall i :: 0 <= i < k ==> IsDigit(s[i])
    ensures k < |s| ==> !IsDigit(s[k])
  {
    if s == [] || !IsDigit(s[0]) then 0 else 1 + RunLength(s[1..])
  }

  lemma RunLengthOfPrefix(digits: string, rest: string)
    requires forall i :: 0 <= i < |digits| ==> IsDigit(digits[i])
    requires rest == [] || !IsDigit(rest[0])
    ensures RunLength(digits + rest) == |digits|
  {
    var s := digits + rest;
    var k := RunLength(s);
    assert forall i :: 0 <= i < |digits| ==> s[i] == digits[i];
    assert rest != [] ==> s[|digits|] == rest[0];
  }

  function Pow10(k: nat): (p: nat)
    ensures p > 0
  {
    if k == 0 then 1 else 10 * Pow10(k - 1)
  }

  lemma {:induction false} NumeralLength(n: nat, k: nat)
    requires 0 < k && n < Pow10(k)
    ensures |Numeral(n)| <= k
  {
    if n >= 10 {
      NumeralLength(n / 10, k - 1);
    }
  }

  lemma {:induction false} NumeralNulFree(n: nat)
    ensures NulFree(Numeral(n))
  {
    if n >= 10 {
      NumeralNulFree(n / 10);
    }
  }
}
