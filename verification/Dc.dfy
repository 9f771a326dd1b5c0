/**
 Arithmetic of cmd/extra/dc.c on whole numbers with a scale: digits d and scale s stand
 for V(d) / 10^s.
 */
module Dc {
  import opened Basics
  import opened DcDigits
  import opened DcNum

  // ----- addition

  /** Both get the larger scale; neither changes its value. */
  method Align(a: Num, b: Num)
    requires a != b && a.Valid() && b.Valid() && Canonical(a.digits) && Canonical(b.digits)
    modifies a, b
    ensures a.Valid() && b.Valid() && Above(a.digits, -10) && Above(b.digits, -10)
    ensures a.scale == b.scale == Max(old(a.scale), old(b.scale))
    ensures a.Value() == old(a.Value()) * Pow10(a.scale - old(a.scale))
    ensures b.Value() == old(b.Value()) * Pow10(b.scale - old(b.scale))
  {
    hide V, Canonical, Above, Digits;
    AboveLower(a.digits);
    AboveLower(b.digits);
    var d := a.scale - b.scale;
    if d == 0 {
      return;
    } else if d > 0 {
      b.Mul10(d);
      b.scale := b.scale + d;
    } else {
      a.Mul10(-d);
      a.scale := a.scale - d;
    }
  }

  /** s with zeros on top. */
  ghost function Pad(s: seq<int>, n: nat): seq<int>
    requires |s| <= n
  {
    s + Zeros(n - |s|)
  }

  lemma PadValue(s: seq<int>, n: nat)
    requires |s| <= n && Above(s, -10)
    ensures V(Pad(s, n)) == V(s) && forall k :: 0 <= k < n ==> -10 <= Pad(s, n)[k] <= 99
  {
    hide V, P, Above, Zeros;
    var z := Zeros(n - |s|);
    VConcat(s, z);
    VZeros(z);
    assert P(|s|) * 0 == 0;
    forall k | 0 <= k < n
      ensures -10 <= Pad(s, n)[k] <= 99
    {
      if k < |s| {
        AboveAt(s, k);
        assert (s + z)[k] == s[k];
      } else {
        assert (s + z)[k] == z[k - |s|];
      }
    }
  }

  lemma AboveAt(s: seq<int>, k: nat)
    requires Above(s, -10) && k < |s|
    ensures -10 <= s[k] <= 99
  {
    if k < |s| - 1 {
      assert s[..|s| - 1][k] == s[k];
    }
  }

  lemma AddDigit(c: seq<int>, x: seq<int>, y: seq<int>, carry: int, sum: int, carry': int)
    requires Digits(c) && |c| < |x| == |y| && 0 <= sum <= 99
    requires V(c) + carry * P(|c|) == V(x[..|c|]) + V(y[..|c|]) && x[|c|] + y[|c|] + carry == sum + 100 * carry'
    ensures Digits(c + [sum]) && V(c + [sum]) + carry' * P(|c| + 1) == V(x[..|c| + 1]) + V(y[..|c| + 1])
  {
    hide V, Digits, P;
    var k := |c|;
    VNext(c, sum);
    DigitsNext(c, sum);
    VUpTo(x, k);
    VUpTo(y, k);
    PNext(k);
    CarryOver(x[k], y[k], carry, sum, carry', P(k));
  }

  lemma CarryOver(x: int, y: int, c: int, s: int, c': int, p: int)
    requires x + y + c == s + 100 * c'
    ensures x * p + y * p + c * p == s * p + c' * (100 * p)
  {
    assert (x + y + c) * p == (s + 100 * c') * p;
  }

  lemma LastCarry(c: seq<int>, carry: int)
    requires Digits(c) && -1 <= carry <= 1
    ensures Above(c + [carry], -1) && Above(c, -1) && V(c + [carry]) == V(c) + carry * P(|c|)
  {
    VNext(c, carry);
    assert (c + [carry])[..|c|] == c;
  }

  /** The loop of addnum: digit by digit, with a carry of either sign. */
  method AddDigits(a: Num, b: Num) returns (c: Num)
    requires a != b && a.Valid() && b.Valid() && Above(a.digits, -10) && Above(b.digits, -10)
    modifies a`rp, a`start, b`rp, b`start
    ensures a.Valid() && b.Valid() && fresh(c) && c.Valid() && Above(c.digits, -1) && c.Value() == a.Value() + b.Value()
  {
    hide V, P, Digits, Above, Pad;
    var alen, blen := |a.digits|, |b.digits|;
    var len := if alen > blen then alen else blen;
    ghost var x, y := Pad(a.digits, len), Pad(b.digits, len);
    PadValue(a.digits, len);
    PadValue(b.digits, len);
    PadAt(a.digits, len);
    PadAt(b.digits, len);
    c := new Num(0);
    a.First();
    b.First();
    var carry, i := 0, 0;
    NoDigits();
    while i < len
      invariant 0 <= i <= len && fresh(c) && c.Valid() && |c.digits| == i && Digits(c.digits) && -1 <= carry <= 1
      invariant a.Valid() && b.Valid()
      invariant a.rp == (if i < alen then i else alen) && b.rp == (if i < blen then i else blen)
      invariant V(c.digits) + carry * P(i) == V(x[..i]) + V(y[..i])
    {
      var da := a.RdOrZero();
      var db := b.RdOrZero();
      assert da == x[i] && db == y[i];
      var sum := da + db + carry;
      ghost var c0, carry0 := c.digits, carry;
      if sum >= 100 {
        carry := 1;
        sum := sum - 100;
      } else if sum < 0 {
        carry := -1;
        sum := sum + 100;
      } else {
        carry := 0;
      }
      c.WrDigit(sum);
      AddDigit(c0, x, y, carry0, sum, carry);
      i := i + 1;
    }
    assert x[..len] == x && y[..len] == y;
    LastCarry(c.digits, carry);
    if carry != 0 {
      c.WrDigit(carry);
    }
  }

  lemma PadAt(s: seq<int>, n: nat)
    requires |s| <= n
    ensures |Pad(s, n)| == n && forall k :: 0 <= k < n ==> Pad(s, n)[k] == if k < |s| then s[k] else 0
  {
  }

  /** The exact sum, in canonical form; a and b may have been aligned. */
  method AddNum(a: Num, b: Num) returns (c: Num)
    requires a != b && a.Valid() && b.Valid() && Canonical(a.digits) && Canonical(b.digits)
    modifies a, b
    ensures a.Valid() && b.Valid() && fresh(c) && c.Valid() && Canonical(c.digits)
    ensures var m := Max(old(a.scale), old(b.scale));
            && c.Value() == old(a.Value()) * Pow10(m - old(a.scale)) + old(b.Value()) * Pow10(m - old(b.scale))
            && c.scale == if c.Value() == 0 then 0 else m
    ensures a.scale == Max(old(a.scale), old(b.scale)) && a.Value() == old(a.Value()) * Pow10(a.scale - old(a.scale))
  {
    hide V, Pow10, Digits, Canonical, Above;
    Align(a, b);
    c := AddDigits(a, b);
    c.scale := a.scale;
    c.Norm();
    CanonicalSign(c.digits);
  }

  /** The exact difference; b is left alone. */
  method SubNum(a: Num, b: Num) returns (c: Num)
    requires a.Valid() && b.Valid() && Canonical(a.digits) && Canonical(b.digits)
    modifies a
    ensures a.Valid() && fresh(c) && c.Valid() && Canonical(c.digits)
    ensures var m := Max(old(a.scale), old(b.scale));
            && c.Value() == old(a.Value()) * Pow10(m - old(a.scale)) - old(b.Value()) * Pow10(m - old(b.scale))
            && c.scale == if c.Value() == 0 then 0 else m
  {
    hide V, Pow10, Digits, Canonical, Above;
    var tmp := b.Copy();
    tmp.ChSign();
    c := AddNum(a, tmp);
    Negated(old(V(b.digits)), Pow10(a.scale - old(b.scale)));
  }

  lemma Negated(v: int, t: int)
    ensures (-v) * t == -(v * t)
  {
  }

  /** The sign of the difference of the numbers. */
  method CmpNum(a: Num, b: Num) returns (r: int)
    requires a.Valid() && b.Valid() && Canonical(a.digits) && Canonical(b.digits)
    modifies a
    ensures var m := Max(old(a.scale), old(b.scale));
            var x, y := old(a.Value()) * Pow10(m - old(a.scale)), old(b.Value()) * Pow10(m - old(b.scale));
            r == if x < y then -1 else if x == y then 0 else 1
  {
    hide V, Pow10, Digits, Above;
    var diff := SubNum(a, b);
    CanonicalSign(diff.digits);
    if |diff.digits| == 0 {
      r := 0;
    } else {
      var neg := diff.Negative();
      r := if neg then -1 else 1;
    }
  }

  // ----- multiplication

  ghost predicate ZerosFrom(s: seq<int>, k: int) { forall i :: 0 <= i < |s| && k <= i ==> s[i] == 0 }

  lemma MulDigit(c: seq<int>, x: seq<int>, k: nat, pos: nat, db: int, base: int, carry: int, q: int, r: int)
    requires Digits(c) && k < |x| && pos + k < |c| && 0 <= r <= 99
    requires V(c) + carry * P(pos + k) == base + db * V(x[..k]) * P(pos)
      && x[k] * db + c[pos + k] + carry == 100 * q + r
    ensures Digits(c[pos + k := r])
    ensures V(c[pos + k := r]) + q * P(pos + k + 1) == base + db * V(x[..k + 1]) * P(pos)
  {
    hide V, Digits;
    var p := P(pos + k);
    VUpdate(c, pos + k, r);
    DigitsUpdate(c, pos + k, r);
    VUpTo(x, k);
    PSum(pos, k);
    MulDigitSum(V(c), V(x[..k]), base, db, x[k], c[pos + k], carry, q, r, P(pos), P(k), p);
  }

  lemma MulDigitSum(v: int, w: int, base: int, db: int, x: int, d: int, carry: int, q: int, r: int, pp: int, pk: int,
                    p: int)
    requires p == pp * pk && v + carry * p == base + db * w * pp && x * db + d + carry == 100 * q + r
    ensures v + (r - d) * p + q * (100 * p) == base + db * (w + x * pk) * pp
  {
    assert (x * db + d + carry) * p == (100 * q + r) * p;
    assert db * (w + x * pk) * pp == db * w * pp + x * db * (pp * pk) by {
      assert db * (w + x * pk) == db * w + db * x * pk;
    }
  }

  lemma ProductRange(x: int, y: int, d: int, carry: int)
    requires 0 <= x <= 99 && 0 <= y <= 99 && 0 <= d <= 99 && 0 <= carry <= 99
    ensures var prod := x * y + d + carry;
            0 <= Quot(prod, 100) <= 99 && 0 <= Rem(prod, 100) <= 99 && prod == 100 * Quot(prod, 100) + Rem(prod, 100)
  {
    MulMono(x, 99, y);
    MulMono(0, x, y);
  }

  /** One round of mulnum's loop: db times ca is added to c from the cursor on. */
  method MulRow(ca: Num, db: int, c: Num)
    requires ca != c && ca.Valid() && c.Valid() && Digits(ca.digits) && Digits(c.digits) && 0 <= db <= 99
    requires c.rp + |ca.digits| < |c.digits| && ZerosFrom(c.digits, c.rp + |ca.digits|)
    modifies ca`rp, ca`start, c`digits, c`rp
    ensures ca.Valid() && c.Valid() && Digits(c.digits) && |c.digits| == old(|c.digits|) && c.rp == old(c.rp) + 1
    ensures V(c.digits) == old(V(c.digits)) + db * V(ca.digits) * P(old(c.rp))
    ensures ZerosFrom(c.digits, c.rp + |ca.digits|)
  {
    hide V, P, Digits;
    var carry, pos := 0, c.rp;
    ghost var base, x := V(c.digits), ca.digits;
    ca.First();
    NoDigits();
    while ca.More()
      invariant ca.Valid() && c.Valid() && c.rp == pos + ca.rp && |c.digits| == old(|c.digits|)
      invariant Digits(c.digits) && 0 <= carry <= 99 && ZerosFrom(c.digits, pos + |x|)
      invariant V(c.digits) + carry * P(c.rp) == base + db * V(x[..ca.rp]) * P(pos)
      decreases |x| - ca.rp
    {
      var da, dc := ca.Peek(), c.Peek();
      DigitIn(x, ca.rp);
      DigitIn(c.digits, c.rp);
      var prod := da * db + dc + carry;
      ProductRange(da, db, dc, carry);
      MulDigit(c.digits, x, ca.rp, pos, db, base, carry, Quot(prod, 100), Rem(prod, 100));
      carry := Quot(prod, 100);
      c.Poke(Rem(prod, 100));
      c.Next();
      ca.Next();
    }
    assert x[..|x|] == x;
    while carry > 0
      invariant ca.Valid() && c.Valid() && |c.digits| == old(|c.digits|) && Digits(c.digits) && 0 <= carry <= 99
      invariant carry > 0 ==> c.rp == pos + |x| && c.digits[c.rp] == 0
      invariant V(c.digits) + carry * P(c.rp) == base + db * V(x) * P(pos)
      invariant ZerosFrom(c.digits, pos + |x| + 1)
      decreases carry
    {
      var dc := c.Peek() + carry;
      VUpdate(c.digits, c.rp, carry);
      DigitsUpdate(c.digits, c.rp, carry);
      carry := Quot(dc, 100);
      c.Poke(Rem(dc, 100));
      c.Next();
    }
    c.Seek(pos + 1);
  }

  lemma RowAdds(a: int, y: seq<int>, j: nat)
    requires j < |y|
    ensures a * V(y[..j + 1]) == a * V(y[..j]) + y[j] * a * P(j)
  {
    hide V, P;
    VUpTo(y, j);
    assert a * (V(y[..j]) + y[j] * P(j)) == a * V(y[..j]) + a * (y[j] * P(j));
    assert a * (y[j] * P(j)) == y[j] * a * P(j);
  }

  /** mulnum's loop: the product of two numbers that are not negative. */
  method MulRows(ca: Num, cb: Num, c: Num)
    requires ca != cb && ca != c && cb != c && ca.Valid() && cb.Valid() && c.Valid() && Digits(ca.digits)
      && Digits(cb.digits)
    requires |c.digits| > |ca.digits| + |cb.digits| && c.rp == 0 && ZerosFrom(c.digits, 0)
    modifies ca`rp, ca`start, cb`rp, cb`start, c`digits, c`rp
    ensures ca.Valid() && cb.Valid() && c.Valid() && Digits(c.digits) && V(c.digits) == V(ca.digits) * V(cb.digits)
  {
    hide V, P, Digits, ZerosFrom;
    ghost var x, y := ca.digits, cb.digits;
    AllZeros(c.digits);
    NoDigits();
    cb.First();
    while cb.More()
      invariant ca.Valid() && cb.Valid() && c.Valid() && c.rp == cb.rp && |c.digits| == old(|c.digits|)
      invariant Digits(c.digits) && ZerosFrom(c.digits, cb.rp + |x|)
      invariant V(c.digits) == V(x) * V(y[..cb.rp])
      decreases |y| - cb.rp
    {
      var db := cb.Peek();
      DigitIn(y, cb.rp);
      RowAdds(V(x), y, cb.rp);
      MulRow(ca, db, c);
      cb.Next();
    }
    assert y[..|y|] == y;
  }

  lemma AllZeros(s: seq<int>)
    requires ZerosFrom(s, 0)
    ensures V(s) == 0 && Digits(s) && forall k: nat :: ZerosFrom(s, k)
  {
    VZeros(s);
  }

  /** The absolute value, in a number of its own if the sign had to go. */
  method Magnitude(a: Num) returns (neg: bool, ca: Num)
    requires a.Valid() && Canonical(a.digits)
    modifies a`rp, a`start
    ensures a.Valid() && ca.Valid() && Canonical(ca.digits) && Digits(ca.digits)
    ensures neg == (a.Value() < 0) && ca.Value() == (if neg then -a.Value() else a.Value()) && |ca.digits| <= |a.digits|
    ensures if neg then fresh(ca) else ca == a
  {
    hide V, P, Digits, Canonical;
    CanonicalSign(a.digits);
    neg := a.Negative();
    ca := a;
    if neg {
      ca := a.Copy();
      ca.ChSign();
      CanonicalSign(ca.digits);
      NegatedLength(a.digits, ca.digits);
    }
  }

  lemma NegatedLength(s: seq<int>, t: seq<int>)
    requires Canonical(s) && Canonical(t) && V(s) < 0 && V(t) == -V(s)
    ensures |t| <= |s|
  {
    hide V, P;
    CanonicalSign(s);
    CanonicalSign(t);
    NegBounds(s);
    CanonicalSize(t);
    if |t| > |s| {
      PLess(|s| - 1, |t| - 1);
    }
  }

  lemma PLess(a: nat, b: nat)
    requires a < b
    ensures P(a) < P(b)
  {
    PGrows(a, b - 1);
  }

  /** How many decimal places of a product are cut off. */
  function Cut(ascale: int, bscale: int, scale: int): (t: int)
    ensures t >= 0
  {
    Max(0, ascale + bscale - Max(Max(ascale, bscale), scale))
  }

  /** The product, rounded towards 0 to the larger of the scales of its factors and of
      the calculator. It has that many places, except that it has none if a factor is 0,
      and -t if an odd number t of places is cut off a product of digits below 10. */
  method MulNum(a: Num, b: Num, scale: int) returns (c: Num)
    requires a.Valid() && b.Valid() && Canonical(a.digits) && Canonical(b.digits) && scale >= 0
    modifies a`rp, a`start, b`rp, b`start
    ensures a.Valid() && b.Valid() && fresh(c) && c.Valid() && Canonical(c.digits)
    ensures var t, m := Cut(a.scale, b.scale, scale), Abs(a.Value()) * Abs(b.Value());
            && c.Value() == (if (a.Value() < 0) != (b.Value() < 0) then -(m / Pow10(t)) else m / Pow10(t))
            && c.scale == if m == 0 then 0 else if t % 2 == 1 && m < 10 then -t else a.scale + b.scale - t
  {
    hide V, P, Digits, Canonical, Pow10;
    var asign, bsign;
    c, asign, bsign := MulMagnitudes(a, b);
    ghost var m := V(c.digits);
    CanonicalSign(c.digits);
    var sc := if a.scale > b.scale then a.scale else b.scale;
    if sc < scale {
      sc := scale;
    }
    sc := c.scale - sc;
    CutPlaces(c, sc);
    if asign != bsign {
      c.ChSign();
    }
    if m == 0 {
      TenPositive(Cut(a.scale, b.scale, scale));
      TenPositive(Max(0, sc));
    }
  }

  /** .1 times .1 with no places to keep is 0, with scale -1. */
  method TinyProduct() returns (c: Num)
    ensures c.digits == [] && c.scale == -1
  {
    hide V, P, Digits, Canonical, Pow10, Abs, Cut;
    var a := One();
    var b := One();
    a.scale, b.scale := 1, 1;
    OnePlaceCut();
    Ten();
    FloorIsDiv(0, 1, Pow10(1));
    c := MulNum(a, b, 0);
    CanonicalSign(c.digits);
  }

  lemma OnePlaceCut()
    ensures Cut(1, 1, 0) == 1 && Abs(1) == 1
  {
  }

  lemma Ten()
    ensures Pow10(1) == 10
  {
    assert Pow10(0) == 1;
  }

  lemma TenPositive(t: nat)
    ensures 0 / Pow10(t) == 0
  {
  }

  /** The first half of mulnum: the product of the absolute values. */
  method MulMagnitudes(a: Num, b: Num) returns (c: Num, asign: bool, bsign: bool)
    requires a.Valid() && b.Valid() && Canonical(a.digits) && Canonical(b.digits)
    modifies a`rp, a`start, b`rp, b`start
    ensures a.Valid() && b.Valid() && fresh(c) && c.Valid() && Canonical(c.digits) && Digits(c.digits)
    ensures c.Value() == Abs(a.Value()) * Abs(b.Value()) && asign == (a.Value() < 0) && bsign == (b.Value() < 0)
    ensures c.scale == if c.Value() == 0 then 0 else a.scale + b.scale
  {
    hide V, P, Digits, Canonical;
    c := new Num(|a.digits| + |b.digits| + 1);
    c.scale := a.scale + b.scale;
    var ca, cb;
    asign, ca := Magnitude(a);
    bsign, cb := Magnitude(b);
    if ca == cb {
      cb := cb.Copy();
    }
    MulRows(ca, cb, c);
    DigitsAbove(c.digits);
    VPositive(c.digits);
    c.Norm();
    CanonicalSign(c.digits);
  }

  /** The last sc decimal places are cut off, if sc is positive. */
  method CutPlaces(c: Num, sc: int)
    requires c.Valid() && Canonical(c.digits) && Digits(c.digits)
    modifies c
    ensures c.Valid() && Canonical(c.digits) && c.Value() == old(c.Value()) / Pow10(Max(0, sc))
    ensures sc <= 0 ==> c.scale == old(c.scale)
    ensures sc > 0 ==> c.scale == (if sc % 2 == 1 && old(c.Value()) < 10 then 0 else old(c.scale)) - sc
  {
    hide V, P, Digits, Canonical, Pow10;
    WholeFloor(V(c.digits));
    if sc > 0 {
      c.Div10(sc);
      c.scale := c.scale - sc;
    }
    FloorIsDiv(V(c.digits), old(V(c.digits)), Pow10(Max(0, sc)));
  }

  lemma WholeFloor(m: int)
    ensures Pow10(0) == 1 && IsFloor(m, m, Pow10(0))
  {
  }

  // ----- powers

  function Pow(b: int, e: nat): int
  {
    if e == 0 then 1 else b * Pow(b, e - 1)
  }

  lemma {:induction false} PowSquare(b: int, k: nat)
    ensures Pow(b * b, k) == Pow(b, 2 * k)
  {
    if k > 0 {
      PowSquare(b, k - 1);
      assert Pow(b, 2 * k) == b * (b * Pow(b, 2 * k - 2));
    }
  }

  /** Squaring the base and halving the exponent, with one factor for an odd one. */
  lemma PowHalf(b: int, e: nat)
    ensures Pow(b, e) == (if e % 2 == 1 then b else 1) * Pow(b * b, e / 2)
  {
    PowSquare(b, e / 2);
    if e % 2 == 1 {
      assert e == 2 * (e / 2) + 1;
    } else {
      assert e == 2 * (e / 2);
    }
  }

  /** The lowest digit tells odd from even. */
  lemma Parity(s: seq<int>)
    requires Digits(s) && s != []
    ensures V(s) % 2 == s[0] % 2
  {
    hide V, Digits;
    VCons(s, 0);
    assert s[0..] == s;
    EvenPart(s[0], V(s[1..]));
  }

  lemma EvenPart(d: int, v: int)
    ensures (d + 100 * v) % 2 == d % 2
  {
  }

  /** One round of expnum's loop. */
  method ExpRound(res0: Num, fact0: Num, e: Num, scale: int) returns (res: Num, fact: Num)
    requires res0 != e && fact0 != e && res0.Valid() && fact0.Valid() && e.Valid() && scale >= 0
    requires Canonical(res0.digits) && Canonical(fact0.digits) && Canonical(e.digits) && Digits(e.digits)
    requires res0.scale == fact0.scale == 0 && e.digits != [] && e.Value() > 0
    modifies res0`rp, res0`start, fact0`rp, fact0`start, e
    ensures res.Valid() && fact.Valid() && e.Valid() && Canonical(res.digits) && Canonical(fact.digits)
      && Canonical(e.digits)
    ensures Digits(e.digits) && res.scale == fact.scale == 0 && (res == res0 || fresh(res)) && fresh(fact)
    ensures 0 <= e.Value() < old(e.Value())
    ensures res.Value() * Pow(fact.Value(), e.Value()) == old(res0.Value() * Pow(fact0.Value(), e.Value()))
  {
    hide V, P, Digits, Canonical, Pow10, Pow;
    ghost var r, f, n := V(res0.digits), V(fact0.digits), V(e.digits);
    res := res0;
    Parity(e.digits);
    e.First();
    var d := e.Peek();
    DigitIn(e.digits, 0);
    WholeFloor(0);
    if d % 2 == 1 {
      res := MulNum(res0, fact0, scale);
      Exact(V(res0.digits), V(fact0.digits));
    }
    fact := MulNum(fact0, fact0, scale);
    Exact(V(fact0.digits), V(fact0.digits));
    var odd := e.DivN(2);
    Halved(n, V(e.digits), odd);
    VPositive(e.digits);
    PowHalf(f, n);
    Regroup(r, if n % 2 == 1 then f else 1, Pow(f * f, n / 2));
  }

  lemma Halved(n: int, h: int, odd: int)
    requires n > 0 && n == 2 * h + odd && 0 <= odd < 2
    ensures h == n / 2 && h < n
  {
  }

  lemma Regroup(a: int, b: int, c: int)
    ensures a * (b * c) == a * b * c
  {
  }

  /** Nothing is cut off the product of two numbers without decimal places. */
  lemma Exact(x: int, y: int)
    ensures var m := Abs(x) * Abs(y); (if (x < 0) != (y < 0) then -(m / Pow10(0)) else m / Pow10(0)) == x * y
  {
    assert Pow10(0) == 1;
    if x < 0 && y >= 0 {
      assert (-x) * y == -(x * y);
    } else if x >= 0 && y < 0 {
      assert x * (-y) == -(x * y);
    } else if x < 0 && y < 0 {
      assert (-x) * (-y) == x * y;
    }
  }

  /** A whole base to a power that is not negative; places of the exponent are ignored. */
  method ExpNum(base: Num, exp: Num, scale: int) returns (res: Num)
    requires base.Valid() && exp.Valid() && Canonical(base.digits) && Canonical(exp.digits)
    requires base.scale == 0 && exp.scale >= 0 && exp.Value() >= 0 && scale >= 0
    modifies exp`rp, exp`start
    ensures res.Valid() && Canonical(res.digits) && res.scale == 0
    ensures exp.Value() / Pow10(exp.scale) >= 0 && res.Value() == Pow(base.Value(), exp.Value() / Pow10(exp.scale))
  {
    hide V, P, Digits, Canonical, Pow10, Pow;
    CanonicalSign(exp.digits);
    res := One();
    if |exp.digits| == 0 {
      TenPositive(exp.scale);
      PowNothing(V(base.digits));
      return;
    }
    var e := exp.Copy();
    var neg := exp.Negative();
    WholeFloor(V(e.digits));
    if e.scale > 0 {
      e.Div10(e.scale);
      e.scale := 0;
    }
    FloorIsDiv(V(e.digits), V(exp.digits), Pow10(exp.scale));
    VPositive(e.digits);
    var fact := base.Copy();
    ghost var want := Pow(V(base.digits), V(e.digits));
    while |e.digits| > 0
      invariant res.Valid() && fact.Valid() && e.Valid() && fresh(res) && fresh(fact) && fresh(e) && res != e
        && fact != e
      invariant Canonical(res.digits) && Canonical(fact.digits) && Canonical(e.digits) && Digits(e.digits)
      invariant res.scale == fact.scale == 0 && V(e.digits) >= 0
      invariant V(res.digits) * Pow(V(fact.digits), V(e.digits)) == want
      decreases V(e.digits)
    {
      CanonicalSign(e.digits);
      res, fact := ExpRound(res, fact, e, scale);
    }
    NoDigits();
    PowNothing(V(fact.digits));
  }

  lemma PowNothing(b: int)
    ensures Pow(b, 0) == 1
  {
  }

  method One() returns (r: Num)
    ensures fresh(r) && r.Valid() && Canonical(r.digits) && r.Value() == 1 && r.scale == 0
  {
    r := new Num(0);
    r.WrDigit(1);
    assert r.digits == [1];
    VNext([], 1);
    assert [] + [1] == [1];
  }

  // ----- other bases

  /** The number that a list of digits stands for, the first being the highest. */
  function Horner(ds: seq<int>, base: int): int
  {
    if ds == [] then 0 else Horner(ds[..|ds| - 1], base) * base + ds[|ds| - 1]
  }

  lemma {:induction false} HornerCons(d: int, ds: seq<int>, base: int)
    ensures Horner([d] + ds, base) == d * Pow(base, |ds|) + Horner(ds, base)
    decreases |ds|
  {
    if ds == [] {
      assert [d] + ds == [d] && [d][..0] == [];
    } else {
      var ds', x := ds[..|ds| - 1], ds[|ds| - 1];
      HornerCons(d, ds', base);
      assert ([d] + ds)[..|ds|] == [d] + ds';
      assert d * Pow(base, |ds'|) * base == d * (base * Pow(base, |ds'|));
    }
  }

  /** The digits of a number, as printnum's loop finds them from the lowest up. */
  method PrintDigits(inte: Num, base: int) returns (ds: seq<int>)
    requires inte.Valid() && Canonical(inte.digits) && Digits(inte.digits) && base >= 2
    modifies inte
    ensures Horner(ds, base) == old(inte.Value()) && forall k :: 0 <= k < |ds| ==> 0 <= ds[k] < base
    ensures ds != [] ==> ds[0] > 0
    ensures ds == [] <==> old(inte.Value()) == 0
  {
    hide V, P, Digits, Canonical, Horner, Pow;
    ds := [];
    ghost var v := V(inte.digits);
    NoPlaces(v, base);
    VPositive(inte.digits);
    while |inte.digits| > 0
      invariant inte.Valid() && Canonical(inte.digits) && Digits(inte.digits) && V(inte.digits) >= 0
      invariant V(inte.digits) * Pow(base, |ds|) + Horner(ds, base) == v
      invariant forall k :: 0 <= k < |ds| ==> 0 <= ds[k] < base
      invariant ds == [] ==> V(inte.digits) == v
      invariant ds != [] ==> ds[0] > 0 || V(inte.digits) > 0
      invariant ds != [] ==> v > 0
      decreases V(inte.digits)
    {
      CanonicalSign(inte.digits);
      ghost var n := V(inte.digits);
      var d := inte.DivN(base);
      VPositive(inte.digits);
      PushDigit(n, V(inte.digits), d, ds, base);
      ds := [d] + ds;
    }
    CanonicalSign(inte.digits);
  }

  lemma NoPlaces(v: int, base: int)
    ensures v * Pow(base, 0) + Horner([], base) == v
  {
  }

  lemma PushDigit(n: int, q: int, d: int, ds: seq<int>, base: int)
    requires n > 0 && n == base * q + d && 0 <= d < base && q >= 0 && base >= 2
    ensures q * Pow(base, |ds| + 1) + Horner([d] + ds, base) == n * Pow(base, |ds|) + Horner(ds, base)
    ensures q < n && (d > 0 || q > 0)
  {
    hide Horner;
    HornerCons(d, ds, base);
    hide Pow;
    PowNext(base, |ds|);
    Places(base, q, d, Pow(base, |ds|));
    MulMono(2, base, q);
  }

  lemma PowNext(b: int, e: nat)
    ensures Pow(b, e + 1) == b * Pow(b, e)
  {
  }

  lemma Places(base: int, q: int, d: int, p: int)
    ensures (base * q + d) * p == q * (base * p) + d * p
  {
  }

  /** The integer part of tonum: multiply by the base and add the next digit. */
  method ToNum(ds: seq<int>, base: int) returns (num: Num)
    requires 1 <= base <= 99 && forall k :: 0 <= k < |ds| ==> 0 <= ds[k] <= 99
    ensures fresh(num) && num.Valid() && Canonical(num.digits) && num.Value() == Horner(ds, base) && num.scale == 0
  {
    hide V, P, Digits, Above;
    num := new Num(0);
    NoDigits();
    NothingAbove(1);
    assert num.digits == [];
    var i := 0;
    while i < |ds|
      invariant 0 <= i <= |ds| && fresh(num) && num.Valid() && num.scale == 0 && Canonical(num.digits)
        && Digits(num.digits)
      invariant V(num.digits) == Horner(ds[..i], base)
    {
      assert ds[..i + 1][..i] == ds[..i];
      VPositive(num.digits);
      num.MulN(base);
      num.AddN(ds[i]);
      i := i + 1;
    }
    assert ds[..|ds|] == ds;
    DigitsAbove(num.digits);
    num.Norm();
  }

  /** A number that is not negative, written in a base from 2 to 16 and read in the same
      base, is the same number again. */
  method PrintThenRead(num: Num, base: int) returns (r: Num)
    requires num.Valid() && Canonical(num.digits) && Digits(num.digits) && 2 <= base <= 16
    modifies num
    ensures r.Valid() && r.digits == old(num.digits)
  {
    hide V, Digits, Canonical, Horner;
    ghost var d0 := num.digits;
    var ds := PrintDigits(num, base);
    r := ToNum(ds, base);
    CanonicalUnique(r.digits, d0);
  }
}
