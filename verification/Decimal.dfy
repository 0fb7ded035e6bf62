/** Decimal printing of naturals, as string formatting does it, and its injectivity. */
module Decimal {

  const DIGITS: string := "0123456789"

  function Print(n: nat): (s: string)
    ensures s != [] && forall c :: c in s ==> c in DIGITS
  {
    if n < 10 then [DIGITS[n]] else Print(n / 10) + [DIGITS[n % 10]]
  }

  /** Reads a run of decimal digits back. */
  function Parse(s: string): nat {
    if s == [] then 0 else 10 * Parse(s[..|s| - 1]) + DigitValue(s[|s| - 1])
  }

  function DigitValue(c: char): nat {
    if '0' <= c <= '9' then (c as int) - ('0' as int) else 0
  }

  lemma DigitsRead(d: nat)
    requires d < 10
    ensures DigitValue(DIGITS[d]) == d
  {
    assert DIGITS == ['0', '1', '2', '3', '4', '5', '6', '7', '8', '9'];
  }

  lemma {:induction false} ParsePrint(n: nat)
    ensures Parse(Print(n)) == n
  {
    DigitsRead(n % 10);
    if n < 10 {
      assert Parse([DIGITS[n]]) == 10 * Parse([]) + DigitValue(DIGITS[n]);
    } else {
      ParsePrint(n / 10);
      var s := Print(n);
      assert s[..|s| - 1] == Print(n / 10);
    }
  }

  lemma PrintInjective(m: nat, n: nat)
    requires Print(m) == Print(n)
    ensures m == n
  {
    ParsePrint(m);
    ParsePrint(n);
  }

  function Power(k: nat): nat {
    if k == 0 then 1 else 10 * Power(k - 1)
  }

  lemma {:induction false} PrintIsShort(n: nat, k: nat)
    requires 1 <= k && n < Power(k)
    ensures |Print(n)| <= k
    decreases n
  {
    if n >= 10 {
      assert Power(1) == 10;
      PrintIsShort(n / 10, k - 1);
    }
  }
}
