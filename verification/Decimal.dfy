/**
 Decimal numbers in text: printing, as printf's %d does for a natural number, and
 scanning, as decnum in cmd/posix/pax.c and getskiplinenum in cmd/posix/patch.c do.
 */
module Decimal {
  import opened Basics

  predicate IsDigit(c: char) { '0' <= c <= '9' }

  function DigitChar(d: nat): (c: char)
    requires d < 10
    ensures IsDigit(c) && DigitValue(c) == d
  {
    '0' + d as char
  }

  function DigitValue(c: char): (d: nat)
    requires IsDigit(c)
    ensures d < 10
  {
    c as int - '0' as int
  }

  /** Decimal digits of n, most significant first. */
  function Dec(n: nat): (s: string)
    ensures |s| >= 1 && forall k :: 0 <= k < |s| ==> IsDigit(s[k])
  {
    if n < 10 then [DigitChar(n)] else Dec(n / 10) + [DigitChar(n % 10)]
  }

  ghost predicate AllDigits(s: string) { forall k :: 0 <= k < |s| ==> IsDigit(s[k]) }

  /** The number a string of digits denotes. */
  ghost function Num(s: string): nat
    requires AllDigits(s)
  {
    if s == [] then 0 else Num(s[..|s| - 1]) * 10 + DigitValue(s[|s| - 1])
  }

  /** Scanning undoes printing. */
  lemma {:induction false} NumOfDec(n: nat)
    ensures Num(Dec(n)) == n
  {
    if n < 10 {
      assert Dec(n)[..0] == [];
    } else {
      NumOfDec(n / 10);
      var s := Dec(n);
      assert s[..|s| - 1] == Dec(n / 10);
    }
  }

  /** Read digits from position i on, as long as there are any. */
  method Scan(s: string, i: nat) returns (n: nat, j: nat)
    requires i <= |s|
    ensures i <= j <= |s| && AllDigits(s[i..j]) && n == Num(s[i..j])
    ensures j == |s| || !IsDigit(s[j])
  {
    n, j := 0, i;
    assert s[i..i] == [];
    while j < |s| && IsDigit(s[j])
      invariant i <= j <= |s| && AllDigits(s[i..j]) && n == Num(s[i..j])
    {
      assert s[i..j + 1][..j - i] == s[i..j];
      assert s[i..j + 1] == s[i..j] + [s[j]];
      n := n * 10 + DigitValue(s[j]);
      j := j + 1;
    }
  }

  /** Powers of ten bound the number of decimal digits. */
  lemma {:induction false} DecLength(n: nat)
    ensures n < Pow10(|Dec(n)|)
    ensures n >= 10 ==> Pow10(|Dec(n)| - 1) <= n
    ensures n < 10 ==> |Dec(n)| == 1
  {
    if n >= 10 {
      DecLength(n / 10);
    }
  }

  lemma {:induction false} Pow10Monotone(k: nat, l: nat)
    requires k < l
    ensures Pow10(k) < Pow10(l)
  {
    if k + 1 < l {
      Pow10Monotone(k, l - 1);
    }
  }

  /** A number below 10^k and not below 10^(k-1) has k digits. */
  lemma DecLengthIs(n: nat, k: nat)
    requires k >= 1 && n < Pow10(k) && (k > 1 ==> Pow10(k - 1) <= n)
    ensures |Dec(n)| == k
  {
    DecLength(n);
    var l := |Dec(n)|;
    if l < k {
      if l < k - 1 {
        Pow10Monotone(l, k - 1);
      }
    } else if k < l {
      if k < l - 1 {
        Pow10Monotone(k, l - 1);
      }
    }
  }
}
