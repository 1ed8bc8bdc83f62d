/** Numbers as the program writes them into texts. */
module Numerals {
  /** No character below 32. */
  predicate FreeOfC0(s: string) {
    forall i :: 0 <= i < |s| ==> 32 <= s[i] as int
  }

  function HexDigit(n: nat): char
    requires n < 16
  {
    if n < 10 then ('0' as int + n) as char else ('a' as int + (n - 10)) as char
  }

  function Decimal(n: nat): string {
    if n < 10 then [HexDigit(n)] else Decimal(n / 10) + [HexDigit(n % 10)]
  }

  function Pow10(k: nat): nat {
    if k == 0 then 1 else 10 * Pow10(k - 1)
  }

  lemma {:induction false} DecimalLength(n: nat, k: nat)
    requires 0 < k
    ensures 0 < |Decimal(n)| && FreeOfC0(Decimal(n))
    ensures |Decimal(n)| <= k <==> n < Pow10(k)
  {
    if n < 10 {
      PowGrows(k);
    } else {
      DecimalLength(n / 10, 1);
      if k == 1 {
        assert Pow10(1) == 10 * Pow10(0);
      } else {
        DecimalLength(n / 10, k - 1);
      }
    }
  }

  lemma {:induction false} PowGrows(k: nat)
    requires 0 < k
    ensures 10 <= Pow10(k)
  {
    if k == 1 {
      assert Pow10(1) == 10 * Pow10(0);
    } else {
      PowGrows(k - 1);
    }
  }

  lemma {:induction false} DecimalHasDigits(n: nat)
    ensures forall c :: c in Decimal(n) ==> '0' <= c <= '9'
  {
    if n >= 10 {
      DecimalHasDigits(n / 10);
    }
  }
}
