/** Decimal rendering and the two decimal readers of tma: Rust's lenient `u64::from_str`
    and the canonical `number` of the persistence protocol. */
module Decimal {
  import opened Basics

  predicate IsDigit(c: char) {
    '0' <= c <= '9'
  }

  predicate AllDigits(s: string) {
    forall i | 0 <= i < |s| :: IsDigit(s[i])
  }

  function Digit(d: nat): (c: char)
    requires d < 10
    ensures IsDigit(c) && DigitValue(c) == d
  {
    ('0' as int + d) as char
  }

  function DigitValue(c: char): (d: nat)
    requires IsDigit(c)
    ensures d < 10
  {
    c as int - '0' as int
  }

  /** `n.to_string()` */
  function Show(n: nat): string {
    if n < 10 then [Digit(n)] else Show(n / 10) + [Digit(n % 10)]
  }

  /** The number a digit string denotes, leading zeros allowed. */
  function Value(s: string): nat
    requires AllDigits(s)
  {
    if s == "" then 0 else 10 * Value(s[..|s| - 1]) + DigitValue(s[|s| - 1])
  }

  /** Reading a rendering gives the number back. */
  lemma {:induction false} ShowValue(n: nat)
    ensures Show(n) != "" && AllDigits(Show(n)) && Value(Show(n)) == n
  {
    if n >= 10 {
      ShowValue(n / 10);
      assert Show(n)[..|Show(n)| - 1] == Show(n / 10);
    } else {
      assert Show(n)[..0] == "";
    }
  }

  /** Only zero is written with a leading zero. */
  lemma {:induction false} ShowLeadingDigit(n: nat)
    ensures Show(n) != "" && (Show(n)[0] == '0' <==> n == 0)
  {
    if n >= 10 {
      ShowLeadingDigit(n / 10);
    }
  }

  /** `n < 10^k` needs at most `k` digits. */
  lemma {:induction false} ShowLength(n: nat, k: nat)
    requires k >= 1 && n < Pow10(k)
    ensures 1 <= |Show(n)| <= k
  {
    if n >= 10 {
      ShowLength(n / 10, k - 1);
    }
  }

  function Pow10(k: nat): nat {
    if k == 0 then 1 else 10 * Pow10(k - 1)
  }

  lemma Widths()
    ensures Pow10(6) == 1_000_000
    ensures U32_MAX < Pow10(10)
    ensures U64_MAX < Pow10(20)
  {
    assert Pow10(5) == 100_000;
    assert Pow10(10) == 10_000_000_000 by { assert Pow10(6) == 1_000_000; assert Pow10(8) == 100_000_000; }
    assert Pow10(15) == 1_000_000_000_000_000 by { assert Pow10(12) == 1_000_000_000_000; }
    assert Pow10(18) == 1_000_000_000_000_000_000;
    assert Pow10(20) == 100_000_000_000_000_000_000;
  }

  /** `str::parse::<u64>`: an optional plus sign, at least one digit, no overflow. */
  function ParseU64(s: string): Option<u64> {
    var d := if |s| > 1 && s[0] == '+' then s[1..] else s;
    if d == "" || !AllDigits(d) || Value(d) > U64_MAX then None else Some(Value(d))
  }

  /** The canonical number of `persistence.rs`: the exact rendering of a 64-bit value. */
  function ParseNumber(s: string): Option<u64> {
    if s == "" || |s| > 20 || !AllDigits(s) || Value(s) > U64_MAX then None
    else if Show(Value(s)) == s then Some(Value(s)) else None
  }

  lemma ParseU64Show(n: u64)
    ensures ParseU64(Show(n)) == Some(n)
  {
    ShowValue(n);
    assert IsDigit(Show(n)[0]);
  }

  /** `number` accepts exactly the renderings. */
  lemma NumberCanonical(s: string, n: u64)
    ensures ParseNumber(s) == Some(n) <==> s == Show(n)
  {
    Widths();
    ShowLength(n, 20);
    ShowValue(n);
  }
}
