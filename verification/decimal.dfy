/**
 * Decimal rendering of the run length in the output file (src/main.rs:119, the
 * `{}` format of a `usize`): no sign, no leading zeros. `Parse` is its inverse.
 */
module Decimal {
  import opened Wrappers

  predicate IsDigit(c: char)
  {
    '0' <= c <= '9'
  }

  function Show(n: nat): (s: string)
    ensures |s| >= 1
    ensures forall i | 0 <= i < |s| :: IsDigit(s[i])
    ensures s[0] == '0' ==> n == 0
    decreases n
  {
    if n < 10 then [DigitChar(n)] else Show(n / 10) + [DigitChar(n % 10)]
  }

  function DigitChar(d: nat): (c: char)
    requires d < 10
    ensures IsDigit(c)
  {
    ('0' as int + d) as char
  }

  function DigitValue(c: char): (d: nat)
    requires IsDigit(c)
    ensures d < 10 && DigitChar(d) == c
  {
    c as int - '0' as int
  }

  /** The value of a string of digits, most significant first. */
  function Value(s: string): nat
    requires forall i | 0 <= i < |s| :: IsDigit(s[i])
  {
    if |s| == 0 then 0
    else 10 * Value(s[..|s| - 1]) + DigitValue(s[|s| - 1])
  }

  /** A non-empty string of digits; anything else gives `None`. */
  function Parse(s: string): Option<nat>
  {
    if |s| > 0 && forall i | 0 <= i < |s| :: IsDigit(s[i]) then Some(Value(s)) else None
  }

  lemma {:induction false} ParseShow(n: nat)
    ensures Parse(Show(n)) == Some(n)
    decreases n
  {
    var s := Show(n);
    if n < 10 {
      assert s[..0] == [];
      assert Value(s) == DigitValue(DigitChar(n));
    } else {
      ParseShow(n / 10);
      assert s[..|s| - 1] == Show(n / 10);
      assert DigitValue(s[|s| - 1]) == n % 10;
      assert Value(s) == 10 * (n / 10) + n % 10;
    }
  }
}
