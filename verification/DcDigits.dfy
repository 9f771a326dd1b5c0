/**
 The digit strings of cmd/extra/dc.c: base 100, least digit first, and a top digit of -1
 for a negative number.
 */
module DcDigits {
  import opened Basics

  /** 100 to the k. */
  function P(k: nat): (r: int)
    ensures r >= 1
  {
    if k == 0 then 1 else 100 * P(k - 1)
  }

  /** The number that the digits stand for. */
  function V(s: seq<int>): int
  {
    if s == [] then 0 else V(s[..|s| - 1]) + s[|s| - 1] * P(|s| - 1)
  }

  ghost predicate Digits(s: seq<int>)
  {
    forall k :: 0 <= k < |s| ==> 0 <= s[k] <= 99
  }

  /** All but the top digit are proper, and that is at least low. */
  ghost predicate Above(s: seq<int>, low: int)
  {
    s != [] ==> Digits(s[..|s| - 1]) && low <= s[|s| - 1] <= 99
  }

  /** The one form that every number has: no 0 on top, and no 99 under a top -1. */
  ghost predicate Canonical(s: seq<int>)
  {
    Above(s, -1) && (s != [] ==> s[|s| - 1] != 0 && (s[|s| - 1] == -1 && |s| >= 2 ==> s[|s| - 2] != 99))
  }

  predicate Neg(s: seq<int>) { s != [] && s[|s| - 1] < 0 }

  lemma MulMono(a: int, b: int, p: int)
    requires a <= b && p >= 0
    ensures a * p <= b * p
  {
  }

  // ----- values

  lemma VNext(s: seq<int>, x: int)
    ensures V(s + [x]) == V(s) + x * P(|s|)
  {
    assert (s + [x])[..|s|] == s;
  }

  lemma VUpTo(s: seq<int>, k: nat)
    requires k < |s|
    ensures V(s[..k + 1]) == V(s[..k]) + s[k] * P(k) && s[..k + 1] == s[..k] + [s[k]]
  {
    VNext(s[..k], s[k]);
    assert s[..k + 1] == s[..k] + [s[k]];
  }

  lemma {:induction false} VConcat(a: seq<int>, b: seq<int>)
    ensures V(a + b) == V(a) + P(|a|) * V(b)
    decreases |b|
  {
    if b == [] {
      assert a + b == a;
    } else {
      var b', x := b[..|b| - 1], b[|b| - 1];
      VConcat(a, b');
      VNext(a + b', x);
      assert a + b == a + b' + [x];
      PSum(|a|, |b'|);
      Distribute(P(|a|), V(b'), x, P(|b'|));
    }
  }

  lemma Distribute(p: int, v: int, x: int, q: int)
    ensures p * (v + x * q) == p * v + x * (p * q)
  {
    assert p * (x * q) == x * (p * q);
  }

  lemma {:induction false} PSum(a: nat, b: nat)
    ensures P(a + b) == P(a) * P(b)
  {
    if b > 0 {
      PSum(a, b - 1);
      assert P(a) * (100 * P(b - 1)) == 100 * (P(a) * P(b - 1));
    }
  }

  /** Proper digits stand for a number below 100 to their count. */
  lemma {:induction false} VBounds(s: seq<int>)
    requires Digits(s)
    ensures 0 <= V(s) < P(|s|)
  {
    if s != [] {
      var x, p := s[|s| - 1], P(|s| - 1);
      VBounds(s[..|s| - 1]);
      assert x * p <= 99 * p;
      assert 0 <= x * p;
    }
  }

  lemma VSplit(s: seq<int>, k: nat)
    requires k <= |s|
    ensures V(s) == V(s[..k]) + P(k) * V(s[k..])
  {
    hide V, P;
    VConcat(s[..k], s[k..]);
    assert s[..k] + s[k..] == s;
  }

  lemma {:induction false} VZeros(s: seq<int>)
    requires forall k :: 0 <= k < |s| ==> s[k] == 0
    ensures V(s) == 0
  {
    if s != [] {
      VZeros(s[..|s| - 1]);
    }
  }

  /** The sign is that of the top digit. */
  lemma VSign(s: seq<int>)
    requires Above(s, -100) && s != []
    ensures s[|s| - 1] < 0 ==> V(s) < 0
    ensures s[|s| - 1] > 0 ==> V(s) >= P(|s| - 1)
    ensures s[|s| - 1] >= 0 ==> V(s) >= 0 && Digits(s)
  {
    var t, x := s[..|s| - 1], s[|s| - 1];
    assert s == t + [x];
    VBounds(t);
    VNext(t, x);
    hide V, Digits;
    DigitsNext(t, x);
    if x < 0 {
      MulMono(x, -1, P(|t|));
    } else if x > 0 {
      MulMono(1, x, P(|t|));
    }
  }

  lemma DigitsNext(s: seq<int>, x: int)
    requires Digits(s)
    ensures 0 <= x <= 99 ==> Digits(s + [x])
  {
  }

  /** Only the empty string is 0, and -1 on top is the sign. */
  lemma CanonicalSign(s: seq<int>)
    requires Canonical(s)
    ensures V(s) == 0 <==> s == []
    ensures V(s) < 0 <==> s != [] && s[|s| - 1] == -1
    ensures V(s) >= 0 ==> Digits(s)
  {
    if s != [] {
      VSign(s);
    }
  }

  lemma PNext(k: nat)
    ensures P(k + 1) == 100 * P(k)
  {
  }

  lemma VTopMinus(s: seq<int>)
    requires s != [] && s[|s| - 1] == -1
    ensures V(s) == V(s[..|s| - 1]) - P(|s| - 1)
  {
  }

  /** A negative number in canonical form is bounded on both sides. */
  lemma NegBounds(s: seq<int>)
    requires Canonical(s) && Neg(s)
    ensures -P(|s| - 1) <= V(s) && (|s| >= 2 ==> V(s) < -P(|s| - 2))
  {
    hide V, P, Digits;
    var t := s[..|s| - 1];
    VTopMinus(s);
    VBounds(t);
    if t != [] {
      assert t[|t| - 1] == s[|s| - 2];
      UnderNines(t);
    }
  }

  lemma UnderNines(t: seq<int>)
    requires Digits(t) && t != [] && t[|t| - 1] != 99
    ensures V(t) < P(|t|) - P(|t| - 1)
  {
    var n := |t| - 1;
    VBounds(t[..n]);
    MulMono(t[n], 98, P(n));
  }

  /** Equal proper digit strings of equal length. */
  lemma {:induction false} DigitsUnique(s: seq<int>, t: seq<int>)
    requires Digits(s) && Digits(t) && |s| == |t| && V(s) == V(t)
    ensures s == t
  {
    if s != [] {
      var n := |s| - 1;
      VBounds(s[..n]);
      VBounds(t[..n]);
      SameTop(V(s[..n]), V(t[..n]), s[n], t[n], P(n));
      DigitsUnique(s[..n], t[..n]);
      assert s == s[..n] + [s[n]] && t == t[..n] + [t[n]];
    }
  }

  lemma SameTop(v: int, w: int, x: int, y: int, p: int)
    requires 0 <= v < p && 0 <= w < p && v + x * p == w + y * p
    ensures x == y && v == w
  {
    if x - y >= 1 {
      MulMono(1, x - y, p);
    }
    if x - y <= -1 {
      MulMono(x - y, -1, p);
    }
  }

  lemma {:induction false} PGrows(a: nat, b: nat)
    requires a <= b
    ensures P(a) <= P(b)
    decreases b
  {
    if a < b {
      PGrows(a, b - 1);
    }
  }

  /** A number has one canonical form. */
  lemma CanonicalUnique(s: seq<int>, t: seq<int>)
    requires Canonical(s) && Canonical(t) && V(s) == V(t)
    ensures s == t
  {
    CanonicalSign(s);
    CanonicalSign(t);
    if s != [] && t != [] {
      if |s| < |t| {
        Longer(s, t);
      } else if |t| < |s| {
        Longer(t, s);
      } else if Neg(s) {
        var n := |s| - 1;
        DigitsUnique(s[..n], t[..n]);
        assert s == s[..n] + [s[n]] && t == t[..n] + [t[n]];
      } else {
        DigitsUnique(s, t);
      }
    }
  }

  lemma Longer(s: seq<int>, t: seq<int>)
    requires Canonical(s) && Canonical(t) && 0 < |s| < |t|
    ensures V(s) != V(t)
  {
    hide V;
    CanonicalSign(s);
    CanonicalSign(t);
    if Neg(s) && Neg(t) {
      NegBounds(s);
      NegBounds(t);
      PGrows(|s| - 1, |t| - 2);
    } else if !Neg(s) && !Neg(t) {
      VBounds(s);
      VSign(t);
      PGrows(|s|, |t| - 1);
    }
  }

  // ----- changes to a digit string

  lemma VCons(s: seq<int>, k: nat)
    requires k < |s|
    ensures V(s[k..]) == s[k] + 100 * V(s[k + 1..])
  {
    VConcat([s[k]], s[k + 1..]);
    assert [s[k]] + s[k + 1..] == s[k..];
    VNext([], s[k]);
    assert [] + [s[k]] == [s[k]];
    assert P(1) == 100;
  }

  lemma VUpdate(s: seq<int>, k: nat, x: int)
    requires k < |s|
    ensures V(s[k := x]) == V(s) + (x - s[k]) * P(k)
  {
    hide V, P;
    var t := s[k := x];
    VUpTo(s, k);
    VUpTo(t, k);
    VSplit(s, k + 1);
    VSplit(t, k + 1);
    assert t[..k] == s[..k] && t[k + 1..] == s[k + 1..];
    assert (x - s[k]) * P(k) == x * P(k) - s[k] * P(k);
  }

  lemma DigitsUpdate(s: seq<int>, k: nat, x: int)
    requires Digits(s) && k < |s| && 0 <= x <= 99
    ensures Digits(s[k := x])
  {
  }

  lemma DigitsParts(s: seq<int>, k: nat)
    requires Digits(s) && k <= |s|
    ensures Digits(s[..k]) && Digits(s[k..])
  {
  }

  /** A proper string that is as large as its length allows has no 0 on top. */
  lemma TopByValue(s: seq<int>)
    requires Digits(s) && s != [] && V(s) >= P(|s| - 1)
    ensures s[|s| - 1] > 0 && Canonical(s)
  {
    hide V, P, Digits;
    var t, x := s[..|s| - 1], s[|s| - 1];
    DigitsParts(s, |s| - 1);
    DigitIn(s, |s| - 1);
    VBounds(t);
    VNext(t, x);
    assert s == t + [x];
    if x <= 0 {
      MulMono(x, 0, P(|t|));
    }
  }

  lemma DigitIn(s: seq<int>, k: nat)
    requires Digits(s) && k < |s|
    ensures 0 <= s[k] <= 99
  {
  }

  lemma CanonicalSize(s: seq<int>)
    requires Canonical(s) && Digits(s) && s != []
    ensures V(s) >= P(|s| - 1)
  {
    VSign(s);
  }

  // ----- C's division

  /** div of the C library: the quotient is rounded towards 0. */
  function Quot(a: int, b: int): int
    requires b > 0
  {
    if a >= 0 then a / b else -((-a) / b)
  }

  function Rem(a: int, b: int): int
    requires b > 0
  {
    a - Quot(a, b) * b
  }

  /** q is m / d, rounded down. */
  predicate IsFloor(q: int, m: int, d: int) { q * d <= m < (q + 1) * d }

  lemma FloorIsDiv(q: int, m: int, d: int)
    requires d > 0 && IsFloor(q, m, d)
    ensures q == m / d
  {
    var k := m / d;
    assert k * d <= m < (k + 1) * d;
    if q < k {
      MulMono(q + 1, k, d);
    }
    if k < q {
      MulMono(k + 1, q, d);
    }
  }

  /** Rounding down twice is rounding down once. */
  lemma FloorTwice(q: int, m': int, m: int, c: int, d: int)
    requires c > 0 && d > 0 && IsFloor(m', m, c) && IsFloor(q, m', d)
    ensures IsFloor(q, m, c * d)
  {
    assert q * d * c <= m' * c;
    assert m' + 1 <= (q + 1) * d;
    assert (m' + 1) * c <= (q + 1) * d * c;
    assert q * (c * d) == q * d * c && (q + 1) * (c * d) == (q + 1) * d * c;
  }

  // ----- powers of 10

  lemma {:induction false} TenIsP(k: nat)
    ensures Pow10(2 * k) == P(k)
  {
    if k > 0 {
      TenIsP(k - 1);
    }
  }
}
