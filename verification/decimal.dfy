/** Decimal digit runs and the natural numbers they denote. */
module Decimal {
  import opened Chars

  function DigitValue(c: char): nat
    requires IsDigit(c)
  {
    c as int - '0' as int
  }

  function DigitChar(d: nat): (c: char)
    requires d < 10
    ensures IsDigit(c) && DigitValue(c) == d
  {
    ('0' as int + d) as char
  }

  /** 10^k. */
  function Pow10(k: nat): (p: nat)
    ensures p > 0
  {
    if k == 0 then 1 else 10 * Pow10(k - 1)
  }

  /** The number a run of decimal digits denotes, leading zeros allowed; this is what `parseFloat`
      reads from a captured `\d+` group. */
  function Value(ds: string): (v: nat)
    requires AllIn(ds, Digit)
    ensures v < Pow10(|ds|)
    decreases |ds|
  {
    if ds == [] then 0 else 10 * Value(ds[..|ds| - 1]) + DigitValue(ds[|ds| - 1])
  }

  /** A digit run in the form a number is printed in: non-empty, no leading zero except "0" itself. */
  predicate Canonical(ds: string) {
    |ds| > 0 && AllIn(ds, Digit) && (ds[0] == '0' ==> |ds| == 1)
  }

  /** The canonical decimal text of a natural number. JavaScript prints a non-negative integer up
      to 2^53 this way; above that it prints the shortest digits of the nearest double, and from
      10^21 up it uses exponent form. */
  function Digits(n: nat): (ds: string)
    ensures Canonical(ds)
    ensures ds[0] == '0' ==> n == 0
    decreases n
  {
    if n < 10 then [DigitChar(n)] else Digits(n / 10) + [DigitChar(n % 10)]
  }

  /** Reading back a printed number gives the number. */
  lemma {:induction false} ValueOfDigits(n: nat)
    ensures Value(Digits(n)) == n
    decreases n
  {
    if n >= 10 {
      var ds := Digits(n);
      assert ds[..|ds| - 1] == Digits(n / 10);
      ValueOfDigits(n / 10);
    }
  }

  lemma {:induction false} CanonicalPositive(ds: string)
    requires Canonical(ds) && ds[0] != '0'
    ensures Value(ds) > 0
    decreases |ds|
  {
    if |ds| > 1 {
      CanonicalPositive(ds[..|ds| - 1]);
    }
  }

  /** Printing the value of a canonical run gives the run back. */
  lemma {:induction false} DigitsOfValue(ds: string)
    requires Canonical(ds)
    ensures Digits(Value(ds)) == ds
    decreases |ds|
  {
    if |ds| > 1 {
      var init := ds[..|ds| - 1];
      CanonicalPositive(init);
      DigitsOfValue(init);
      assert init + [ds[|ds| - 1]] == ds;
    }
  }

  /** Leading zeros do not change the value read. */
  lemma {:induction false} LeadingZero(ds: string)
    requires AllIn(ds, Digit)
    ensures Value("0" + ds) == Value(ds)
    decreases |ds|
  {
    if ds != [] {
      assert ("0" + ds)[..|ds|] == "0" + ds[..|ds| - 1];
      LeadingZero(ds[..|ds| - 1]);
    }
  }

  /** A run reads as zero exactly when every digit in it is `0`. */
  lemma {:induction false} ValueZero(ds: string)
    requires AllIn(ds, Digit)
    ensures Value(ds) == 0 <==> forall i | 0 <= i < |ds| :: ds[i] == '0'
    decreases |ds|
  {
    if ds != [] {
      var init := ds[..|ds| - 1];
      ValueZero(init);
      assert forall i | 0 <= i < |init| :: init[i] == ds[i];
    }
  }
}
