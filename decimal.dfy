/**
  Decimal text of integers, as Python's `str()` and f-strings write them.
  The three scripts use it for `str(num)` of a digit, for the batch number in
  `f"combined_{i//3 + 1}.png"` and for `str(value)` of an integer cell.
 */
module Decimal {

  /** One decimal digit. */
  type Digit = d: int | 0 <= d <= 9

  /** The character that writes one digit. */
  function DigitChar(d: Digit): (c: char)
    ensures '0' <= c <= '9'
    ensures c as int - '0' as int == d
  {
    ('0' as int + d) as char
  }

  /** The digit a character in '0'..'9' stands for. */
  function DigitValue(c: char): (d: Digit)
    requires '0' <= c <= '9'
    ensures DigitChar(d) == c
  {
    c as int - '0' as int
  }

  predicate IsDigitString(s: string) {
    forall i :: 0 <= i < |s| ==> '0' <= s[i] <= '9'
  }

  /** `str(n)` for a natural number: its decimal digits, most significant first. */
  function NatToString(n: nat): (s: string)
    ensures |s| >= 1 && IsDigitString(s)
    ensures s[0] == '0' ==> n == 0
    ensures n < 10 <==> |s| == 1
  {
    if n < 10 then [DigitChar(n)] else NatToString(n / 10) + [DigitChar(n % 10)]
  }

  /** The number a string of decimal digits denotes (the reading `int(s)` does). */
  function DecimalValue(s: string): nat
    requires IsDigitString(s)
  {
    if s == [] then 0 else DecimalValue(s[..|s| - 1]) * 10 + DigitValue(s[|s| - 1])
  }

  /** Reading back the text of `n` gives `n`. */
  lemma {:induction false} DecimalRoundTrip(n: nat)
    ensures DecimalValue(NatToString(n)) == n
  {
    var s := NatToString(n);
    if n >= 10 {
      DecimalRoundTrip(n / 10);
      assert s[..|s| - 1] == NatToString(n / 10);
    }
  }

  /** Different numbers have different texts. */
  lemma NatToStringInjective(m: nat, n: nat)
    ensures NatToString(m) == NatToString(n) ==> m == n
  {
    DecimalRoundTrip(m);
    DecimalRoundTrip(n);
  }

  /** `str(i)` for any Python integer: a minus sign in front of a negative one. */
  function IntToString(i: int): (s: string)
  {
    if i >= 0 then NatToString(i) else "-" + NatToString(-i)
  }

  /** Different integers have different texts. */
  lemma IntToStringInjective(i: int, j: int)
    ensures IntToString(i) == IntToString(j) ==> i == j
  {
    if IntToString(i) == IntToString(j) {
      if i >= 0 && j >= 0 {
        NatToStringInjective(i, j);
      } else if i < 0 && j < 0 {
        assert IntToString(i)[1..] == NatToString(-i);
        assert IntToString(j)[1..] == NatToString(-j);
        NatToStringInjective(-i, -j);
      }
    }
  }
}
