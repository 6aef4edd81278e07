/**
 Decimal text of integers, and what it parses back to.
 */
module Decimals {

  function Abs(n: int): nat { if n >= 0 then n else -n }

  function Digit(d: nat): char
    requires d < 10
  {
    "0123456789"[d]
  }

  function Decimal(n: nat): (s: string)
    ensures s != ""
  {
    if n < 10 then [Digit(n)] else Decimal(n / 10) + [Digit(n % 10)]
  }

  function Signed(n: int): string {
    if n < 0 then "-" + Decimal(-n) else Decimal(n)
  }

  /** The value of a digit string, most significant digit first. */
  function ParseDigits(s: string): int {
    if s == "" then 0 else 10 * ParseDigits(s[..|s| - 1]) + (s[|s| - 1] as int - '0' as int)
  }

  predicate IsInteger(s: string) {
    var digits := if s != "" && s[0] == '-' then s[1..] else s;
    digits != "" && forall c :: c in digits ==> '0' <= c <= '9'
  }

  function Parse(s: string): int
    requires IsInteger(s)
  {
    if s[0] == '-' then -ParseDigits(s[1..]) else ParseDigits(s)
  }

  lemma {:induction false} DecimalParses(n: nat)
    ensures forall c :: c in Decimal(n) ==> '0' <= c <= '9'
    ensures ParseDigits(Decimal(n)) == n
    ensures Decimal(n)[0] == '0' ==> n == 0
  {
    if n < 10 {
      assert Decimal(n) == [Digit(n)];
      assert ParseDigits([Digit(n)][..0]) == 0;
    } else {
      DecimalParses(n / 10);
      var s := Decimal(n);
      assert s[..|s| - 1] == Decimal(n / 10) && s[|s| - 1] == Digit(n % 10);
    }
  }

  /** Formatted text parses back to the number. */
  lemma SignedParses(n: int)
    ensures IsInteger(Signed(n)) && Parse(Signed(n)) == n
  {
    DecimalParses(Abs(n));
    if n < 0 {
      assert Signed(n)[1..] == Decimal(-n);
    } else {
      assert Signed(n)[0] in Decimal(n);
    }
  }

  /** It has no leading zero, and no minus sign before zero. */
  lemma SignedIsCanonical(n: int)
    ensures Signed(n)[0] == '0' ==> Signed(n) == "0"
    ensures Signed(n)[0] == '-' ==> n < 0 && |Signed(n)| > 1 && Signed(n)[1] != '0'
  {
    DecimalParses(Abs(n));
    if n >= 0 {
      assert Signed(n)[0] in Decimal(n);
    }
  }

  function Pow10(k: nat): nat { if k == 0 then 1 else 10 * Pow10(k - 1) }

  lemma {:induction false} DecimalLength(n: nat, k: nat)
    requires k > 0
    ensures |Decimal(n)| <= k <==> n < Pow10(k)
  {
    if k == 1 {
      assert Pow10(1) == 10;
    } else if n >= 10 {
      DecimalLength(n / 10, k - 1);
      assert n / 10 < Pow10(k - 1) <==> n < 10 * Pow10(k - 1);
    } else {
      PowGrows(k);
    }
  }

  lemma {:induction false} PowGrows(k: nat)
    requires k > 0
    ensures Pow10(k) >= 10
  {
    if k > 1 {
      PowGrows(k - 1);
    }
  }

  lemma PowersOfTen()
    ensures Pow10(18) == 1_000_000_000_000_000_000
    ensures Pow10(19) == 10 * Pow10(18) && Pow10(20) == 10 * Pow10(19)
  {
    assert Pow10(4) == 10_000;
    assert Pow10(8) == 100_000_000;
    assert Pow10(12) == 1_000_000_000_000;
    assert Pow10(16) == 10_000_000_000_000_000;
  }
}
