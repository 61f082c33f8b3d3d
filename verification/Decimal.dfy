/** Decimal printing as done by the %d verb for natural numbers. */
module Decimal {

  function Digit(d: nat): char
    requires d < 10
  {
    "0123456789"[d]
  }

  function Print(n: nat): (s: string)
    ensures |s| >= 1
    ensures |s| == 1 <==> n < 10
  {
    if n < 10 then [Digit(n)] else Print(n / 10) + [Digit(n % 10)]
  }

  /** Different numbers print differently, so counting up never repeats a name. */
  lemma {:induction false} PrintInjective(m: nat, n: nat)
    requires Print(m) == Print(n)
    ensures m == n
  {
    if m < 10 || n < 10 {
    } else {
      var p, q := Print(m / 10), Print(n / 10);
      assert Print(m)[..|Print(m)| - 1] == p && Print(n)[..|Print(n)| - 1] == q;
      assert Print(m)[|Print(m)| - 1] == Digit(m % 10) && Print(n)[|Print(n)| - 1] == Digit(n % 10);
      PrintInjective(m / 10, n / 10);
    }
  }

  /** What a reader makes of a text: ten times the front plus the last digit, counting digits from '0'. */
  function Value(s: string): int {
    if s == "" then 0 else 10 * Value(s[..|s| - 1]) + (s[|s| - 1] as int - '0' as int)
  }

  /** Decimal notation: digits only, and no zero in front but for zero itself. */
  predicate IsNumeral(s: string) {
    && s != ""
    && (forall i :: 0 <= i < |s| ==> '0' <= s[i] <= '9')
    && (s[0] == '0' ==> s == "0")
  }

  lemma DigitReads(d: nat)
    requires d < 10
    ensures Digit(d) as int == '0' as int + d
  {
  }

  /** Reading what was printed gives the number back, and what was printed is decimal notation. */
  lemma {:induction false} PrintReads(n: nat)
    ensures IsNumeral(Print(n)) && Value(Print(n)) == n
  {
    DigitReads(n % 10);
    assert "0"[..0] == "" && Value("0") == 0;
    if n < 10 {
      assert Print(n)[..0] == "";
    } else {
      PrintReads(n / 10);
      var front := Print(n / 10);
      assert Print(n)[..|Print(n)| - 1] == front && Print(n)[0] == front[0];
    }
  }

  lemma {:induction false} NumeralPositive(s: string)
    requires IsNumeral(s)
    ensures Value(s) >= 0 && (Value(s) == 0 ==> s == "0")
    ensures |s| == 1 <==> Value(s) < 10
  {
    if |s| == 1 {
      assert s[..0] == "";
    } else {
      var front := s[..|s| - 1];
      assert front[0] == s[0] && IsNumeral(front);
      NumeralPositive(front);
    }
  }

  /** So Print(n) is the one decimal notation of n. */
  lemma {:induction false} NumeralIsPrint(s: string)
    requires IsNumeral(s)
    ensures Value(s) >= 0 && Print(Value(s)) == s
  {
    NumeralPositive(s);
    var d := s[|s| - 1] as int - '0' as int;
    DigitReads(d);
    if |s| == 1 {
      assert s[..0] == "";
      assert s == [Digit(d)];
    } else {
      var front := s[..|s| - 1];
      assert front[0] == s[0] && IsNumeral(front);
      NumeralIsPrint(front);
      assert Value(s) / 10 == Value(front) && Value(s) % 10 == d;
      assert s == front + [s[|s| - 1]];
    }
  }
}
