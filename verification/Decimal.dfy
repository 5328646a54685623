/** Decimal numerals, as `%d` prints them and scanning reads them. */
module Decimal {

  predicate IsDigit(c: char) {
    '0' <= c <= '9'
  }

  function DigitChar(d: nat): char
    requires d < 10
  {
    '0' + d as char
  }

  function DigitValue(c: char): nat
    requires IsDigit(c)
  {
    (c - '0') as nat
  }

  /** The ten digits, by value. */
  lemma DigitsByValue(d: nat, c: char)
    requires d < 10
    ensures DigitChar(d) == "0123456789"[d]
    ensures IsDigit(c) <==> c in "0123456789"
    ensures IsDigit(c) ==> (DigitValue(c) == d <==> c == "0123456789"[d])
  {
  }

  predicate AllDigits(s: string) {
    forall i :: 0 <= i < |s| ==> IsDigit(s[i])
  }

  /** The canonical numeral: no leading zero, and "0" for zero. */
  function Print(n: nat): string {
    if n < 10 then [DigitChar(n)] else Print(n / 10) + [DigitChar(n % 10)]
  }

  function Value(s: string): nat
    requires AllDigits(s)
  {
    if s == [] then 0 else 10 * Value(s[..|s| - 1]) + DigitValue(s[|s| - 1])
  }

  /** Reading back what was printed. */
  lemma {:induction false} PrintThenValue(n: nat)
    ensures Print(n) != [] && AllDigits(Print(n)) && Value(Print(n)) == n
  {
    if n >= 10 {
      PrintThenValue(n / 10);
      assert Print(n)[..|Print(n)| - 1] == Print(n / 10);
    } else {
      assert Print(n)[..0] == [];
    }
  }

  /** True of a numeral as `Print` writes it. */
  predicate NoLeadingZero(digits: string) {
    |digits| == 1 || (|digits| > 1 && digits[0] != '0')
  }

  lemma {:induction false} PrintHasNoLeadingZero(n: nat)
    ensures NoLeadingZero(Print(n)) && (n > 0 ==> Print(n)[0] != '0')
  {
    if n >= 10 {
      PrintHasNoLeadingZero(n / 10);
    }
  }

  /** Printing what was read gives the numeral back, unless it had leading zeros. */
  lemma {:induction false} ValueThenPrint(digits: string)
    requires AllDigits(digits) && NoLeadingZero(digits)
    ensures Print(Value(digits)) == digits
    ensures digits[0] != '0' ==> Value(digits) > 0
  {
    var start, last := digits[..|digits| - 1], digits[|digits| - 1];
    assert digits == start + [last];
    if |digits| > 1 {
      ValueThenPrint(start);
      assert Value(digits) / 10 == Value(start) && Value(digits) % 10 == DigitValue(last);
    }
  }

  function Pow10(k: nat): nat {
    if k == 0 then 1 else 10 * Pow10(k - 1)
  }

  lemma {:induction false} PrintLength(n: nat, k: nat)
    requires k >= 1 && n < Pow10(k)
    ensures |Print(n)| <= k
  {
    if n >= 10 {
      PrintLength(n / 10, k - 1);
    }
  }

  lemma PrintIsInjective(m: nat, n: nat)
    requires Print(m) == Print(n)
    ensures m == n
  {
    PrintThenValue(m);
    PrintThenValue(n);
  }

  /** The digits at the front of a string, and the rest. */
  function DigitPrefix(s: string): (n: nat)
    ensures n <= |s| && AllDigits(s[..n]) && (n < |s| ==> !IsDigit(s[n]))
  {
    if s == [] || !IsDigit(s[0]) then 0 else
    var n := 1 + DigitPrefix(s[1..]);
    assert forall i :: 0 <= i < n ==> IsDigit(s[i]) by {
      assert forall i :: 0 < i < n ==> s[i] == s[1..][..n - 1][i - 1];
    }
    n
  }

  lemma {:induction false} DigitPrefixOf(digits: string, rest: string)
    requires AllDigits(digits) && (rest == [] || !IsDigit(rest[0]))
    ensures DigitPrefix(digits + rest) == |digits|
  {
    if digits == [] {
      assert digits + rest == rest;
    } else {
      assert (digits + rest)[1..] == digits[1..] + rest;
      DigitPrefixOf(digits[1..], rest);
    }
  }
}
