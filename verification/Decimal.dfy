/** Decimal text of counts and identifiers: what `snprintf` prints and `Number` reads. */
module Decimal {
  import opened Basics

  /** Decimal digits of `n` as `%zu` prints them. */
  function Digits(n: nat): (d: Bytes)
    ensures 0 < |d|
    ensures forall i :: 0 <= i < |d| ==> 48 <= d[i] <= 57
  {
    var last := [(48 + n % 10) as byte];
    if n < 10 then last else Digits(n / 10) + last
  }

  predicate IsDigits(s: Bytes) {
    forall i :: 0 <= i < |s| ==> 48 <= s[i] <= 57
  }

  function Value(s: Bytes): nat
    requires IsDigits(s)
  {
    if s == [] then 0 else 10 * Value(s[..|s| - 1]) + (s[|s| - 1] as int - 48)
  }

  /** `Number(text)` on empty or all-digit text; other spellings are not part of this model. */
  function ParseNumber(s: Bytes): Option<nat> {
    if IsDigits(s) then Some(Value(s)) else None
  }

  /** No text at all counts as 0, leading zeros do not matter, and a sign is no digit. */
  lemma NumberExamples()
    ensures ParseNumber([]) == Some(0) && ParseNumber([48, 55]) == Some(7) && ParseNumber([49, 50]) == Some(12)
    ensures ParseNumber([45, 49]).None?
  {
    assert [48 as byte, 55][..1] == [48] && [49 as byte, 50][..1] == [49] && [48 as byte][..0] == [] && [49 as byte][..0] == [];
    assert [45 as byte, 49][0] == 45;
  }

  lemma {:induction false} PrintedValue(n: nat)
    ensures Value(Digits(n)) == n
  {
    var d := Digits(n);
    if n < 10 {
      assert d[..0] == [];
    } else {
      PrintedValue(n / 10);
      assert d[..|d| - 1] == Digits(n / 10);
    }
  }

  lemma DigitsInjective(a: nat, b: nat)
    requires Digits(a) == Digits(b)
    ensures a == b
  {
    PrintedValue(a);
    PrintedValue(b);
  }

  /** Reading back a printed count gives the count. */
  lemma PrintedCountParses(n: nat)
    ensures ParseNumber(Digits(n)) == Some(n)
  {
    PrintedValue(n);
  }

  lemma DigitsNulFree(n: nat)
    ensures NUL !in Digits(n)
  {
  }

  function Pow10(k: nat): nat {
    if k == 0 then 1 else 10 * Pow10(k - 1)
  }

  lemma {:induction false} DigitsLength(n: nat, k: nat)
    requires 0 < k
    ensures |Digits(n)| <= k <==> n < Pow10(k)
  {
    if k == 1 {
      assert Pow10(1) == 10 * Pow10(0);
    } else if n >= 10 {
      DigitsLength(n / 10, k - 1);
      assert Pow10(k) == 10 * Pow10(k - 1);
    } else {
      PowPositive(k - 1);
    }
  }

  lemma {:induction false} PowPositive(k: nat)
    ensures Pow10(k) > 0
  {
    if k > 0 { PowPositive(k - 1); }
  }

  /** `%06u`: at least six digits, padded on the left with zeros. */
  function Padded6(n: nat): (d: Bytes)
    ensures IsDigits(d) && |d| >= 6
  {
    var d := Digits(n);
    if |d| >= 6 then d else seq(6 - |d|, _ => 48 as byte) + d
  }

  lemma {:induction false} LeadingZeros(k: nat, s: Bytes)
    requires IsDigits(s)
    ensures IsDigits(seq(k, _ => 48 as byte) + s)
    ensures Value(seq(k, _ => 48 as byte) + s) == Value(s)
    decreases k + |s|
  {
    var z := seq(k, _ => 48 as byte);
    var t := z + s;
    if s == [] {
      if k > 0 {
        LeadingZeros(k - 1, []);
        assert t[..|t| - 1] == seq(k - 1, _ => 48 as byte) + [];
      }
    } else {
      LeadingZeros(k, s[..|s| - 1]);
      assert t[..|t| - 1] == z + s[..|s| - 1];
    }
  }

  lemma Padded6Value(n: nat)
    ensures Value(Padded6(n)) == n
  {
    hide Value, Digits;
    var d := Digits(n);
    PrintedValue(n);
    if |d| < 6 { LeadingZeros(6 - |d|, d); }
  }

  lemma Padded6Length(n: nat)
    requires n < 0x1_0000_0000
    ensures |Padded6(n)| <= 10
  {
    assert Pow10(10) == 10_000_000_000 by {
      assert Pow10(5) == 100_000;
      assert Pow10(10) == 10 * (10 * (10 * (10 * (10 * Pow10(5)))));
    }
    DigitsLength(n, 10);
  }
}
