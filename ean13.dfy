/**
  The EAN-13 generator of `ean-13_generator.py`: twelve data digits, a
  weighted checksum (weight 1 at even positions, 3 at odd ones, counted from
  the left from 0), the check digit `(10 - checksum % 10) % 10` appended, and
  the thirteen digits joined into a string. This is the standard check digit
  calculation of the GS1 General Specifications (section 7.9). The random draw
  of the twelve digits is a parameter here.
 */
module Ean13 {
  import opened Decimal

  /** Number of data digits drawn. */
  const DataLength := 12
  /** Number of digits in a complete code. */
  const CodeLength := 13

  /** The checksum weight of position `i`. */
  function Weight(i: nat): (w: nat)
    ensures w == 1 || w == 3
    ensures w == 1 <==> i % 2 == 0
  {
    if i % 2 == 0 then 1 else 3
  }

  /** The weighted sum of a digit sequence, as the checksum loop accumulates it
      from the left: the last position is added last. */
  function WeightedSum(s: seq<int>): int
  {
    if s == [] then 0 else WeightedSum(s[..|s| - 1]) + Weight(|s| - 1) * s[|s| - 1]
  }

  /** An independent reading of the weighted sum: the digits taken in pairs
      from the left, the first of each pair once and the second three times. */
  function PairedSum(s: seq<int>): int
  {
    if |s| == 0 then 0
    else if |s| == 1 then s[0]
    else s[0] + 3 * s[1] + PairedSum(s[2..])
  }

  /** The check digit for a checksum. */
  function CheckDigit(checksum: int): (c: Digit)
    ensures (checksum + c) % 10 == 0
    ensures checksum % 10 == 0 ==> c == 0
  {
    (10 - checksum % 10) % 10
  }

  /** `''.join(map(str, digits))`. */
  function DigitsToString(digits: seq<Digit>): (s: string)
    ensures |s| == |digits|
    ensures forall i :: 0 <= i < |digits| ==> s[i] == DigitChar(digits[i])
  {
    if digits == [] then [] else NatToString(digits[0]) + DigitsToString(digits[1..])
  }

  /** The digits a string of decimal characters stands for. */
  function DigitValues(s: string): (d: seq<Digit>)
    requires IsDigitString(s)
    ensures |d| == |s|
    ensures forall i :: 0 <= i < |s| ==> DigitChar(d[i]) == s[i]
  {
    seq(|s|, i requires 0 <= i < |s| => DigitValue(s[i]))
  }

  /** A valid EAN-13 code: thirteen decimal characters whose weighted sum,
      weight 1 on the last (check) position, is a multiple of 10. */
  predicate IsValidEan13(code: string) {
    |code| == CodeLength && IsDigitString(code) && WeightedSum(DigitValues(code)) % 10 == 0
  }

  /** The code `generate_ean13` returns once its digits are drawn. */
  function Ean13Code(data: seq<Digit>): string
    requires |data| == DataLength
  {
    DigitsToString(data + [CheckDigit(WeightedSum(data))])
  }

  /** Appending one digit adds it with the weight of its position. */
  lemma WeightedSumAppend(s: seq<int>, x: int)
    ensures WeightedSum(s + [x]) == WeightedSum(s) + Weight(|s|) * x
  {
    assert (s + [x])[..|s|] == s;
  }

  /** Two leading digits contribute `a + 3 * b` and leave the weights of the
      rest as they were. */
  lemma {:induction false} WeightedSumAfterPair(a: int, b: int, t: seq<int>)
    ensures WeightedSum([a, b] + t) == a + 3 * b + WeightedSum(t)
  {
    if t == [] {
      assert [a, b] + t == [a] + [b];
      WeightedSumAppend([a], b);
      WeightedSumAppend([], a);
    } else {
      var u := t[..|t| - 1];
      var x := t[|t| - 1];
      assert t == u + [x];
      assert [a, b] + t == ([a, b] + u) + [x];
      WeightedSumAfterPair(a, b, u);
      WeightedSumAppend([a, b] + u, x);
      WeightedSumAppend(u, x);
    }
  }

  /** The checksum the loop accumulates equals the pairwise reading. */
  lemma {:induction false} WeightedSumIsPairedSum(s: seq<int>)
    ensures WeightedSum(s) == PairedSum(s)
  {
    if |s| == 1 {
      WeightedSumAppend([], s[0]);
      assert [] + [s[0]] == s;
    } else if |s| >= 2 {
      assert s == [s[0], s[1]] + s[2..];
      WeightedSumAfterPair(s[0], s[1], s[2..]);
      WeightedSumIsPairedSum(s[2..]);
    }
  }

  /** The digits of a rendered digit sequence read back as that sequence. */
  lemma DigitsRoundTrip(digits: seq<Digit>)
    ensures IsDigitString(DigitsToString(digits))
    ensures DigitValues(DigitsToString(digits)) == digits
  {
    var s := DigitsToString(digits);
    forall i | 0 <= i < |digits| ensures DigitValues(s)[i] == digits[i] {
      assert DigitChar(DigitValues(s)[i]) == DigitChar(digits[i]);
    }
  }

  /** Appending a digit appends its character. */
  lemma DigitsToStringAppend(digits: seq<Digit>, d: Digit)
    ensures DigitsToString(digits + [d]) == DigitsToString(digits) + [DigitChar(d)]
  {
    var s := DigitsToString(digits + [d]);
    assert forall i :: 0 <= i < |digits| ==> (digits + [d])[i] == digits[i];
    assert s[|digits|] == DigitChar((digits + [d])[|digits|]);
  }

  /** A digit completes a checksum to a multiple of 10 exactly when it is
      the check digit of that checksum. */
  lemma CompletesToTen(checksum: int, c: Digit)
    ensures (checksum + c) % 10 == 0 <==> c == CheckDigit(checksum)
  {
    var k := CheckDigit(checksum);
    if (checksum + c) % 10 == 0 {
      assert (c - k) % 10 == 0;
    }
  }

  /** The thirteen-digit text of the data and a final digit `c` reads back as
      those digits, and its weighted sum is the checksum plus `c`. */
  lemma CodeSum(data: seq<Digit>, c: Digit)
    requires |data| == DataLength
    ensures IsDigitString(DigitsToString(data + [c]))
    ensures WeightedSum(DigitValues(DigitsToString(data + [c]))) == WeightedSum(data) + c
  {
    var digits := data + [c];
    assert Weight(|data|) == 1;
    WeightedSumAppend(data, c);
    DigitsRoundTrip(digits);
  }

  /** The generated code is a valid EAN-13 code. */
  lemma Ean13CodeValid(data: seq<Digit>)
    requires |data| == DataLength
    ensures IsValidEan13(Ean13Code(data))
  {
    CodeSum(data, CheckDigit(WeightedSum(data)));
  }

  /** The generated code is the text of the data digits, unchanged and in
      order, followed by the check digit. */
  lemma Ean13CodeShape(data: seq<Digit>)
    requires |data| == DataLength
    ensures Ean13Code(data) == DigitsToString(data) + [DigitChar(CheckDigit(WeightedSum(data)))]
  {
    DigitsToStringAppend(data, CheckDigit(WeightedSum(data)));
  }

  /** The check digit is the only digit that completes the data digits to a
      valid code. */
  lemma CheckDigitUnique(data: seq<Digit>, c: Digit)
    requires |data| == DataLength
    ensures IsValidEan13(DigitsToString(data + [c])) <==> c == CheckDigit(WeightedSum(data))
  {
    CodeSum(data, c);
    CompletesToTen(WeightedSum(data), c);
  }

  /** The worked example: 123456789012 has checksum 92 and check digit 8. */
  lemma Ean13Example()
    ensures WeightedSum([1, 2, 3, 4, 5, 6, 7, 8, 9, 0, 1, 2]) == 92
    ensures Ean13Code([1, 2, 3, 4, 5, 6, 7, 8, 9, 0, 1, 2]) == "1234567890128"
  {
    var data: seq<Digit> := [1, 2, 3, 4, 5, 6, 7, 8, 9, 0, 1, 2];
    WeightedSumIsPairedSum(data);
    assert PairedSum(data) == 92;
    assert CheckDigit(92) == 8;
    var code := Ean13Code(data);
    assert |code| == 13;
    assert code == "1234567890128";
  }

  /** `generate_ean13` with its twelve random digits given as `data`. */
  method GenerateEan13(data: seq<Digit>) returns (code: string)
    requires |data| == DataLength
    ensures code == Ean13Code(data)
    ensures IsValidEan13(code)
    ensures code[..DataLength] == DigitsToString(data)
  {
    var checksum: int := 0;
    var i := 0;
    while i < |data|
      invariant 0 <= i <= |data|
      invariant checksum == WeightedSum(data[..i])
    {
      var num: int := data[i];
      if i % 2 == 0 {
        checksum := checksum + num;
      } else {
        checksum := checksum + num * 3;
      }
      assert data[..i + 1] == data[..i] + [data[i]];
      WeightedSumAppend(data[..i], num);
      i := i + 1;
    }
    assert data[..i] == data;
    var checksumDigit := (10 - checksum % 10) % 10;
    var digits: seq<Digit> := data + [checksumDigit];
    code := DigitsToString(digits);
    assert code == Ean13Code(data);
    assert IsValidEan13(code) by {
      Ean13CodeValid(data);
    }
    assert code[..DataLength] == DigitsToString(data) by {
      Ean13CodeShape(data);
    }
  }
}
