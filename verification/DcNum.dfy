/**
 The numbers of cmd/extra/dc.c: a digit buffer with a cursor, and the operations that
 change it in place.
 */
module DcNum {
  import opened Basics
  import opened DcDigits

  class Num {
    /** The digits up to wp. */
    var digits: seq<int>
    var rp: int
    var start: bool
    var scale: int

    ghost predicate Valid()
      reads this
    {
      0 <= rp <= |digits|
    }

    ghost function Value(): int
      reads this
    {
      V(digits)
    }

    /** newnum, with ndigits zeros if it is zeronum. */
    constructor (ndigits: nat)
      ensures Valid() && |digits| == ndigits && rp == 0 && scale == 0
      ensures forall k :: 0 <= k < ndigits ==> digits[k] == 0
    {
      digits := seq(ndigits, i => 0);
      rp, start, scale := 0, false, 0;
    }

    // ----- the cursor

    method First()
      modifies this`rp, this`start
      ensures rp == 0 && !start
    {
      rp, start := 0, false;
    }

    method Last() returns (ok: bool)
      modifies this`rp, this`start
      ensures ok == (digits != []) && start == !ok
      ensures rp == if ok then |digits| - 1 else old(rp)
    {
      ok := digits != [];
      if ok {
        rp := |digits| - 1;
      }
      start := !ok;
    }

    method Prev()
      requires Valid()
      modifies this`rp, this`start
      ensures rp == (if old(rp) > 0 then old(rp) - 1 else 0) && start == (old(start) || old(rp) == 0)
    {
      if rp > 0 {
        rp := rp - 1;
      } else {
        start := true;
      }
    }

    method Next()
      requires 0 <= rp < |digits|
      modifies this`rp
      ensures rp == old(rp) + 1
    {
      rp := rp + 1;
    }

    predicate More()
      reads this
    {
      rp != |digits|
    }

    function Peek(): int
      reads this
      requires 0 <= rp <= |digits|
    {
      if rp == |digits| then -1 else digits[rp]
    }

    /** Digits are stored in a signed char. */
    method Poke(d: int)
      requires 0 <= rp <= |digits| && -128 <= d <= 127
      modifies this`digits
      ensures digits == if rp == old(|digits|) then old(digits) + [d] else old(digits)[rp := d]
    {
      digits := if rp == |digits| then digits + [d] else digits[rp := d];
    }

    method WrDigit(d: int)
      requires -128 <= d <= 127
      modifies this`digits
      ensures digits == old(digits) + [d]
    {
      digits := digits + [d];
    }

    method RdDigit() returns (d: int)
      requires 0 <= rp <= |digits|
      modifies this`rp
      ensures if old(rp) == |digits| then d == -1 && rp == old(rp) else d == digits[old(rp)] && rp == old(rp) + 1
    {
      if rp == |digits| {
        return -1;
      }
      d := digits[rp];
      rp := rp + 1;
    }

    /** The next digit, or 0 if there is none. */
    method RdOrZero() returns (d: int)
      requires Valid()
      modifies this`rp
      ensures Valid()
      ensures d == (if old(rp) < |digits| then digits[old(rp)] else 0)
      ensures rp == if old(rp) < |digits| then old(rp) + 1 else old(rp)
    {
      d := 0;
      if More() {
        d := RdDigit();
      }
    }

    method Seek(pos: int)
      modifies this`rp
      ensures rp == pos
    {
      rp := pos;
    }

    method NumTrunc()
      requires 0 <= rp <= |digits|
      modifies this`digits, this`rp
      ensures digits == old(digits[..rp]) && rp == if old(rp) > 0 then old(rp) - 1 else 0
    {
      digits := digits[..rp];
      if rp != 0 {
        rp := rp - 1;
      }
    }

    method Copy() returns (r: Num)
      requires Valid()
      ensures fresh(r) && r.Valid() && r.digits == digits && r.scale == scale && r.rp == 0
    {
      r := new Num(0);
      r.digits, r.scale := digits, scale;
    }

    method Negative() returns (neg: bool)
      requires Valid()
      modifies this`rp, this`start
      ensures Valid() && neg == (digits != [] && digits[|digits| - 1] == -1)
      ensures rp == if digits != [] then |digits| - 1 else old(rp)
    {
      neg := Last();
      neg := neg && Peek() == -1;
    }

    // ----- canonical form

    /** The canonical form of the same number; 0 has scale 0. */
    method Norm()
      requires Valid() && Above(digits, -1)
      modifies this
      ensures Valid() && Canonical(digits) && Value() == old(Value())
      ensures scale == if digits == [] then 0 else old(scale)
    {
      hide V, Above, Digits, P;
      var ok := Last();
      while Peek() == 0
        invariant Valid() && Above(digits, -1) && Value() == old(Value()) && scale == old(scale)
        invariant digits == [] || rp == |digits| - 1
        decreases |digits|
      {
        DropZero(digits);
        NumTrunc();
      }
      var neg := Negative();
      if neg {
        Prev();
        while Peek() == 99
          invariant Valid() && Above(digits, -1) && Value() == old(Value()) && scale == old(scale)
          invariant digits != [] && digits[|digits| - 1] == -1 && rp == if |digits| >= 2 then |digits| - 2 else 0
          decreases |digits|
        {
          DropNines(digits);
          Poke(-1);
          Next();
          NumTrunc();
          Prev();
        }
      }
      IsCanonical(digits);
      if digits == [] {
        scale := 0;
      }
    }

    // ----- negation

    /** The first loop of chsign: digit by digit, what is missing to the next power of 100. */
    method Complement() returns (carry: int)
      requires Valid() && Above(digits, -1)
      modifies this`digits, this`rp, this`start
      ensures Valid() && |digits| == old(|digits|) && rp == |digits| && Digits(digits) && 0 <= carry <= 1
      ensures V(digits) + old(V(digits)) == carry * P(|digits|)
      ensures old(digits) != [] && old(digits[|digits| - 1]) == -1 ==> carry == 0 && digits[|digits| - 1] <= 1
      ensures old(digits) != [] && digits[|digits| - 1] == 99 && old(digits[|digits| - 1]) > 0 ==>
        V(digits[..|digits| - 1]) == 0
    {
      hide V, P, Digits, Above;
      ghost var d0 := digits;
      First();
      carry := 0;
      ghost var c' := 0;
      NoDigits();
      while More()
        invariant Valid() && |digits| == |d0| && digits[rp..] == d0[rp..] && Digits(digits[..rp]) && 0 <= carry <= 1
        invariant V(digits[..rp]) + V(d0[..rp]) == carry * P(rp)
        invariant rp > 0 ==> Complemented(digits, d0, rp - 1, c', carry)
        decreases |d0| - rp
      {
        var d := Peek();
        assert d == d0[rp..][0];
        InAbove(d0, rp);
        var val := 100 - d - carry;
        c' := carry;
        carry := 1;
        if val >= 100 {
          val := val - 100;
          carry := 0;
        }
        ghost var before := digits;
        Poke(val);
        ComplementStep(before, d0, rp, c', val, carry);
        Next();
      }
      assert digits[..rp] == digits && d0[..rp] == d0;
      if d0 != [] {
        ComplementTop(digits, d0, c', carry);
      }
    }

    /** The number with the other sign. */
    method ChSign()
      requires Valid() && Canonical(digits)
      modifies this`digits, this`rp, this`start
      ensures Valid() && Canonical(digits) && Value() == -old(Value())
    {
      hide V, P, Digits, Canonical, Above;
      ghost var d0 := digits;
      CanonicalAbove(d0);
      var carry := Complement();
      ghost var s := digits;
      ChSignEnds(d0, s, carry);
      Prev();
      if carry != 0 {
        if Peek() == 99 {
          Poke(-1);
        } else {
          WrDigit(-1);
        }
      } else if Peek() == 0 {
        NumTrunc();
      }
    }

    // ----- one-digit arithmetic

    /** The number n times as large. Of a negative one the top digit may then be as low
        as -n. */
    method MulN(n: int)
      requires Valid() && Canonical(digits) && 1 <= n <= 99
      modifies this`digits, this`rp, this`start
      ensures Valid() && Value() == n * old(Value())
      ensures Above(digits, -n) && (old(Value()) >= 0 ==> Canonical(digits) && Digits(digits))
    {
      hide V, P, Digits, Canonical, Above;
      ghost var d0 := digits;
      CanonicalAbove(d0);
      var carry := MulLoop(n);
      MulEnds(d0, digits, carry, n);
      if carry != 0 {
        WrDigit(carry);
      }
    }

    method MulLoop(n: int) returns (carry: int)
      requires Valid() && Above(digits, -1) && 1 <= n <= 99
      modifies this`digits, this`rp, this`start
      ensures Valid() && |digits| == old(|digits|) && V(digits) + carry * P(|digits|) == n * old(V(digits))
      ensures Above(digits, -n) && 0 <= carry < n && (Neg(digits) ==> carry == 0)
    {
      hide V, P, Digits, Above;
      ghost var d0 := digits;
      carry := 0;
      First();
      NoDigits();
      NothingAbove(n);
      while More()
        invariant Valid() && |digits| == |d0| && digits[rp..] == d0[rp..] && 0 <= carry < n
        invariant V(digits[..rp]) + carry * P(rp) == n * V(d0[..rp])
        invariant if rp < |digits| then Digits(digits[..rp]) else Above(digits[..rp], -n)
        invariant Neg(digits[..rp]) ==> carry == 0
        decreases |d0| - rp
      {
        var x := Peek();
        assert x == d0[rp..][0];
        InAbove(d0, rp);
        var d := x * n + carry;
        ghost var before, c, k := digits, carry, rp;
        DigitRange(x, n, carry);
        carry := Quot(d, 100);
        Poke(Rem(d, 100));
        MulStep(before, d0, k, n, c, carry, Rem(d, 100));
        Next();
      }
      assert digits[..rp] == digits && d0[..rp] == d0;
    }

    /** The number divided by n, and the rest. */
    method DivN(n: int) returns (carry: int)
      requires Valid() && Digits(digits) && n >= 1
      modifies this
      ensures Valid() && Canonical(digits) && Digits(digits) && 0 <= carry < n
      ensures old(Value()) == n * Value() + carry
      ensures scale == if digits == [] then 0 else old(scale)
    {
      hide V, P, Digits, Canonical, Above;
      ghost var d0 := digits;
      carry := 0;
      var ok := Last();
      NoDigits();
      DigitsAbove(digits);
      assert d0[|d0|..] == [];
      while !start
        invariant Valid() && |digits| == |d0| && scale == old(scale) && Digits(digits) && 0 <= carry < n
        invariant !start ==> rp < |digits|
        invariant var k := if start then 0 else rp + 1;
                  digits[..k] == d0[..k] && V(d0[k..]) == n * V(digits[k..]) + carry
        decreases if start then -1 else rp
      {
        ghost var before, k, c := digits, rp, carry;
        assert digits[k] == digits[..k + 1][k] == d0[k];
        DigitIn(digits, k);
        var val := carry * 100 + Peek();
        QuotIsDigit(carry, Peek(), n);
        Poke(Quot(val, n));
        DivStep(before, d0, k, n, c, Quot(val, n), Rem(val, n));
        carry := Rem(val, n);
        Prev();
      }
      assert digits[0..] == digits && d0[0..] == d0;
      DigitsAbove(digits);
      Norm();
      VPositive(d0);
      Quotient(V(d0), n, V(digits), carry);
      CanonicalSign(digits);
    }

    /** The number plus a small one. */
    method AddN(val: int)
      requires Valid() && Canonical(digits) && Digits(digits) && 0 <= val <= 99
      modifies this`digits, this`rp, this`start
      ensures Valid() && Canonical(digits) && Digits(digits) && Value() == old(Value()) + val
    {
      hide V, P, Digits, Canonical;
      ghost var d0 := digits;
      var carry := val;
      First();
      POne();
      while carry != 0
        invariant Valid() && Digits(digits) && 0 <= carry <= 99 && |d0| <= |digits| <= |d0| + 1
        invariant V(digits) + carry * P(rp) == V(d0) + val
        invariant |digits| > |d0| ==> carry == 0 && digits[|d0|] > 0
        decreases |d0| + 1 - rp
      {
        var d := if More() then Peek() else 0;
        if More() {
          DigitIn(digits, rp);
        }
        d := d + carry;
        ghost var c := carry;
        carry := 0;
        if d >= 100 {
          carry := 1;
          d := d - 100;
        }
        ghost var before := digits;
        Poke(d);
        AddStep(before, rp, c, d, carry);
        Next();
      }
      AddEnds(d0, digits, val);
    }

    // ----- shifts by whole digits

    method RShift(n: nat)
      requires Valid()
      modifies this`digits, this`rp, this`start
      ensures Valid() && digits == if n > old(|digits|) then [] else old(digits[n..])
    {
      var diff := |digits| - n;
      if diff < 0 {
        First();
        NumTrunc();
        return;
      }
      digits := digits[n..] + digits[diff..];
      rp := diff;
      NumTrunc();
    }

    method LShift(n: nat)
      requires Valid()
      modifies this`digits
      ensures Valid() && digits == Zeros(n) + old(digits)
    {
      digits := Zeros(n) + digits;
    }

    // ----- powers of 10

    /** The number divided by 10 to the n, rounded down. */
    method Div10(n: nat)
      requires Valid() && Digits(digits) && Canonical(digits)
      modifies this
      ensures Valid() && Canonical(digits) && Digits(digits) && IsFloor(Value(), old(Value()), Pow10(n))
      ensures scale == if n % 2 == 1 && old(Value()) < 10 then 0 else old(scale)
    {
      hide V, Digits, Canonical;
      ghost var v := Value();
      var carry := 0;
      if n % 2 == 1 {
        carry := DivN(10);
        CanonicalSign(digits);
        VPositive(digits);
      }
      ghost var w, d := Value(), digits;
      RShift(n / 2);
      ShiftDown(d, n / 2);
      Div10Floor(v, w, Value(), n, carry);
    }

    /** The number times 10 to the n. */
    method Mul10(n: nat)
      requires Valid() && Canonical(digits)
      modifies this`digits, this`rp, this`start
      ensures Valid() && Value() == old(Value()) * Pow10(n) && Above(digits, -10)
    {
      hide V, Digits, Canonical, Above, P;
      ghost var v := Value();
      AboveLower(digits);
      if n % 2 == 1 {
        MulN(10);
      }
      ghost var d := digits;
      LShift(n / 2);
      ShiftUp(d, n / 2);
      Mul10Is(v, V(d), n);
    }
  }

  function Zeros(n: nat): (s: seq<int>)
    ensures |s| == n && forall k :: 0 <= k < n ==> s[k] == 0
  {
    seq(n, i => 0)
  }

  // ----- steps of Norm

  lemma NoDigits()
    ensures V([]) == 0 && Digits([])
  {
  }

  lemma InAbove(s: seq<int>, k: nat)
    requires Above(s, -1) && k < |s|
    ensures k < |s| - 1 ==> 0 <= s[k] <= 99
    ensures k == |s| - 1 ==> -1 <= s[k] <= 99
  {
    if k < |s| - 1 {
      assert s[..|s| - 1][k] == s[k];
    }
  }

  lemma DropZero(s: seq<int>)
    requires Above(s, -1) && s != [] && s[|s| - 1] == 0
    ensures Above(s[..|s| - 1], -1) && V(s[..|s| - 1]) == V(s)
  {
    var t := s[..|s| - 1];
    if t != [] {
      assert t[..|t| - 1] == s[..|s| - 2];
      DigitsParts(t, |t| - 1);
    }
  }

  lemma DropNines(s: seq<int>)
    requires Above(s, -1) && |s| >= 2 && s[|s| - 1] == -1 && s[|s| - 2] == 99
    ensures var t := s[|s| - 2 := -1][..|s| - 1]; Above(t, -1) && V(t) == V(s)
  {
    hide V, P, Digits;
    var n := |s|;
    var t, u := s[n - 2 := -1][..n - 1], s[..n - 2];
    assert s == u + [99] + [-1] && t == u + [-1];
    NinesOnTop(u);
    assert u == s[..n - 1][..n - 2];
    DigitsParts(s[..n - 1], n - 2);
    assert t[..|t| - 1] == u;
  }

  lemma NinesOnTop(u: seq<int>)
    ensures V(u + [99] + [-1]) == V(u + [-1])
  {
    hide V, P;
    VNext(u, 99);
    VNext(u + [99], -1);
    VNext(u, -1);
    PNext(|u|);
  }

  lemma IsCanonical(s: seq<int>)
    requires Above(s, -1)
    requires s != [] ==> s[|s| - 1] != 0
    requires |s| >= 2 && s[|s| - 1] == -1 ==> s[|s| - 2] != 99
    ensures Canonical(s)
  {
  }

  // ----- steps of ChSign

  /** Digit k of the complement, with the carry before and after it. */
  ghost predicate Complemented(s: seq<int>, d0: seq<int>, k: int, c: int, c': int)
  {
    && 0 <= k < |s| == |d0| && 0 <= c <= 1 && 0 <= s[k] <= 99 && s[k] + d0[k] + c == 100 * c'
    && V(s[..k]) + V(d0[..k]) == c * P(k) && Digits(s[..k])
  }

  lemma ComplementStep(before: seq<int>, d0: seq<int>, k: nat, c: int, x: int, c': int)
    requires |before| == |d0| && k < |d0| && 0 <= c <= 1 && 0 <= x <= 99 && x + d0[k] + c == 100 * c'
    requires Digits(before[..k]) && V(before[..k]) + V(d0[..k]) == c * P(k) && before[k..] == d0[k..]
    ensures var s := before[k := x];
            && Digits(s[..k + 1]) && V(s[..k + 1]) + V(d0[..k + 1]) == c' * P(k + 1)
            && s[k + 1..] == d0[k + 1..] && Complemented(s, d0, k, c, c')
  {
    hide V, Digits;
    var s := before[k := x];
    assert s[..k] == before[..k] && s[k + 1..] == before[k..][1..];
    VUpTo(s, k);
    VUpTo(d0, k);
    DigitsNext(s[..k], x);
    Spread(x, d0[k], c, c', P(k));
  }

  lemma Spread(x: int, y: int, c: int, c': int, p: int)
    requires x + y + c == 100 * c'
    ensures x * p + y * p + c * p == c' * (100 * p)
  {
    assert (x + y + c) * p == 100 * c' * p;
  }

  lemma ComplementTop(s: seq<int>, d0: seq<int>, c: int, c': int)
    requires s != [] && Complemented(s, d0, |s| - 1, c, c') && Above(d0, -1) && 0 <= c' <= 1
    ensures d0[|d0| - 1] == -1 ==> c' == 0 && s[|s| - 1] <= 1
    ensures s[|s| - 1] == 99 && d0[|d0| - 1] > 0 ==> V(s[..|s| - 1]) == 0
  {
    hide V, P, Digits;
    VBounds(s[..|s| - 1]);
    VBounds(d0[..|s| - 1]);
  }

  /** What chsign does after its loop gives the canonical form of the negated number. */
  lemma ChSignEnds(d0: seq<int>, s: seq<int>, carry: int)
    requires Canonical(d0) && Digits(s) && |s| == |d0| && 0 <= carry <= 1 && V(s) + V(d0) == carry * P(|s|)
    requires d0 != [] && d0[|d0| - 1] == -1 ==> carry == 0 && s[|s| - 1] <= 1
    requires d0 != [] && s[|s| - 1] == 99 && d0[|d0| - 1] > 0 ==> V(s[..|s| - 1]) == 0
    ensures carry != 0 ==> s != []
    ensures carry != 0 && s[|s| - 1] == 99 ==> Canonical(s[|s| - 1 := -1]) && V(s[|s| - 1 := -1]) == -V(d0)
    ensures carry != 0 && s[|s| - 1] != 99 ==> Canonical(s + [-1]) && V(s + [-1]) == -V(d0)
    ensures carry == 0 && s != [] && s[|s| - 1] == 0 ==> Canonical(s[..|s| - 1]) && V(s[..|s| - 1]) == -V(d0)
    ensures carry == 0 && (s == [] || s[|s| - 1] != 0) ==> Canonical(s) && V(s) == -V(d0)
  {
    hide V, P, Digits, Above, Canonical;
    CanonicalSign(d0);
    VBounds(s);
    ZeroOrOne(carry, P(|s|));
    DigitsAbove(s);
    if d0 != [] {
      CanonicalTop(d0);
      var n := |s| - 1;
      VUpTo(s, n);
      assert s[..|s|] == s;
      DigitsParts(s, n);
      DigitIn(s, n);
      if carry != 0 {
        if s[n] == 99 {
          PositiveRound(s);
        } else {
          SignOnTop(s);
        }
      } else if s[n] != 0 {
        IsCanonical(s);
      } else {
        NegBounds(d0);
        TopIndex(s);
        NotEmpty(s[..n]);
        TopByValue(s[..n]);
      }
    }
  }

  lemma ZeroOrOne(c: int, p: int)
    requires 0 <= c <= 1
    ensures c * p == if c == 0 then 0 else p
  {
  }

  lemma CanonicalTop(s: seq<int>)
    requires Canonical(s) && s != []
    ensures s[|s| - 1] == -1 || s[|s| - 1] > 0
  {
  }

  lemma SignOnTop(s: seq<int>)
    requires Digits(s) && s != [] && s[|s| - 1] != 99
    ensures Canonical(s + [-1]) && V(s + [-1]) == V(s) - P(|s|)
  {
    hide V;
    VNext(s, -1);
    assert (s + [-1])[..|s|] == s;
  }

  lemma CanonicalAbove(s: seq<int>)
    requires Canonical(s)
    ensures Above(s, -1)
  {
  }

  /** 99 over zeros becomes -1 over zeros. */
  lemma PositiveRound(s: seq<int>)
    requires Digits(s) && s != [] && s[|s| - 1] == 99 && V(s[..|s| - 1]) == 0
    ensures Canonical(s[|s| - 1 := -1]) && V(s[|s| - 1 := -1]) == V(s) - P(|s|)
  {
    hide V;
    var n := |s| - 1;
    var u := s[..n];
    var t := s[n := -1];
    VUpdate(s, n, -1);
    assert t[..n] == u;
    if n >= 1 && u[n - 1] == 99 {
      VSign(u);
    }
  }

  lemma NotEmpty(s: seq<int>)
    requires V(s) != 0
    ensures s != []
  {
  }

  lemma TopIndex(s: seq<int>)
    requires Digits(s) && s != [] && s[|s| - 1] == 0
    ensures V(s[..|s| - 1]) == V(s)
  {
  }

  // ----- steps of MulN

  lemma NothingAbove(n: int)
    ensures Above([], -n)
  {
  }

  lemma DigitsAbove(s: seq<int>)
    requires Digits(s)
    ensures Above(s, -1)
  {
  }

  lemma DigitRange(x: int, n: int, carry: int)
    requires -1 <= x <= 99 && 1 <= n <= 99 && 0 <= carry < n
    ensures var d := x * n + carry;
            && 0 <= Quot(d, 100) < n && d == 100 * Quot(d, 100) + Rem(d, 100)
            && (x >= 0 ==> 0 <= Rem(d, 100) <= 99)
            && (x == -1 ==> -n <= Rem(d, 100) < 0 && Quot(d, 100) == 0)
  {
    if x >= 0 {
      MulMono(x, 99, n);
      MulMono(0, x, n);
    }
  }

  lemma MulStep(before: seq<int>, d0: seq<int>, k: nat, n: int, c: int, q: int, r: int)
    requires |before| == |d0| && k < |d0| && before[k..] == d0[k..] && Digits(before[..k]) && 1 <= n <= 99
    requires V(before[..k]) + c * P(k) == n * V(d0[..k]) && d0[k] * n + c == 100 * q + r
    requires 0 <= r <= 99 || (k == |d0| - 1 && -n <= r < 0 && q == 0)
    ensures var s := before[k := r];
            && V(s[..k + 1]) + q * P(k + 1) == n * V(d0[..k + 1]) && s[k + 1..] == d0[k + 1..]
            && (if k + 1 < |d0| then Digits(s[..k + 1]) else Above(s[..k + 1], -n))
            && (Neg(s[..k + 1]) ==> q == 0)
  {
    hide V, Digits;
    var s := before[k := r];
    assert s[..k] == before[..k] && s[k + 1..] == before[k..][1..];
    VUpTo(s, k);
    VUpTo(d0, k);
    DigitsNext(s[..k], r);
    MulSpread(V(before[..k]), V(d0[..k]), c, n, d0[k], q, r, P(k));
    assert s[..k + 1][..k] == s[..k];
  }

  lemma MulSpread(v: int, v0: int, c: int, n: int, x: int, q: int, r: int, p: int)
    requires v + c * p == n * v0 && x * n + c == 100 * q + r
    ensures v + r * p + q * (100 * p) == n * (v0 + x * p)
  {
    assert (x * n + c) * p == (100 * q + r) * p;
    assert n * (v0 + x * p) == n * v0 + x * n * p;
  }

  lemma MulEnds(d0: seq<int>, s: seq<int>, carry: int, n: int)
    requires Canonical(d0) && |s| == |d0| && Above(s, -n) && 1 <= n <= 99 && 0 <= carry < n && (Neg(s) ==> carry == 0)
    requires V(s) + carry * P(|s|) == n * V(d0)
    ensures var t := if carry != 0 then s + [carry] else s;
            V(t) == n * V(d0) && Above(t, -n) && (V(d0) >= 0 ==> Canonical(t) && Digits(t))
  {
    hide V, P, Digits, Canonical, Above;
    var t := if carry != 0 then s + [carry] else s;
    CarryOnTop(s, carry, n);
    if V(d0) >= 0 {
      MulPositive(d0, s, t, carry, n);
    }
  }

  lemma CarryOnTop(s: seq<int>, carry: int, n: int)
    requires Above(s, -n) && 1 <= n <= 99 && 0 <= carry < n && (Neg(s) ==> carry == 0)
    ensures var t := if carry != 0 then s + [carry] else s; V(t) == V(s) + carry * P(|s|) && Above(t, -n)
  {
    hide V, P, Digits;
    if carry != 0 {
      VNext(s, carry);
      TopIsDigits(s, n);
      assert (s + [carry])[..|s|] == s;
    }
  }

  lemma TopIsDigits(s: seq<int>, n: int)
    requires Above(s, -n) && n <= 99 && !Neg(s)
    ensures Digits(s)
  {
    hide V, P;
    if s != [] {
      VSign(s);
    }
  }

  lemma MulPositive(d0: seq<int>, s: seq<int>, t: seq<int>, carry: int, n: int)
    requires Canonical(d0) && V(d0) >= 0 && |s| == |d0| && Above(s, -n) && 1 <= n <= 99 && 0 <= carry < n
    requires t == (if carry != 0 then s + [carry] else s) && V(t) == n * V(d0) && (Neg(s) ==> carry == 0)
    ensures Canonical(t) && Digits(t)
  {
    hide V, P, Digits;
    CanonicalSign(d0);
    if d0 == [] {
      NoDigits();
      CarryOnly(s, carry);
    } else {
      CanonicalSize(d0);
      MulMono(1, n, V(d0));
      VSign(s);
      if carry != 0 {
        DigitsNext(s, carry);
        assert t[..|t| - 1] == s;
      } else {
        TopByValue(t);
      }
    }
  }

  lemma CarryOnly(s: seq<int>, carry: int)
    requires s == []
    ensures V(s + [carry]) == carry
  {
    VNext(s, carry);
  }

  lemma POne()
    ensures P(0) == 1
  {
  }

  // ----- steps of DivN

  lemma DivMod(a: nat, n: int)
    requires n > 0
    ensures a == n * (a / n) + a % n && 0 <= a % n < n && a / n >= 0
  {
  }

  lemma QuotIsDigit(c: int, x: int, n: int)
    requires 0 <= c < n && 0 <= x <= 99
    ensures var val := c * 100 + x;
      0 <= Quot(val, n) <= 99 && 0 <= Rem(val, n) < n && val == n * Quot(val, n) + Rem(val, n)
  {
    var val := c * 100 + x;
    DivMod(val, n);
    if val / n >= 100 {
      MulMono(100, val / n, n);
    }
  }

  lemma DivStep(before: seq<int>, d0: seq<int>, k: nat, n: int, c: int, q: int, r: int)
    requires |before| == |d0| && k < |d0| && before[..k + 1] == d0[..k + 1] && Digits(before) && 0 <= q <= 99
    requires V(d0[k + 1..]) == n * V(before[k + 1..]) + c && c * 100 + d0[k] == n * q + r
    ensures var s := before[k := q]; Digits(s) && s[..k] == d0[..k] && V(d0[k..]) == n * V(s[k..]) + r
  {
    hide V, Digits;
    var s := before[k := q];
    DigitsUpdate(before, k, q);
    assert s[..k] == before[..k + 1][..k] && s[k + 1..] == before[k + 1..];
    VCons(s, k);
    VCons(d0, k);
  }

  lemma VPositive(s: seq<int>)
    requires Digits(s)
    ensures V(s) >= 0
  {
    VBounds(s);
  }

  lemma Quotient(v: int, n: int, q: int, r: int)
    requires v >= 0 && v == n * q + r && 0 <= r < n
    ensures q >= 0
  {
    if q < 0 {
      MulMono(q, -1, n);
    }
  }

  // ----- steps of AddN

  lemma AddStep(before: seq<int>, k: nat, c: int, d: int, c': int)
    requires k <= |before| && Digits(before) && 0 <= d <= 99
      && d + 100 * c' == (if k < |before| then before[k] else 0) + c
    ensures var s := if k == |before| then before + [d] else before[k := d];
            Digits(s) && V(s) + c' * P(k + 1) == V(before) + c * P(k)
  {
    hide V, Digits;
    if k == |before| {
      VNext(before, d);
      DigitsNext(before, d);
      assert (d + 100 * c') * P(k) == c * P(k);
    } else {
      VUpdate(before, k, d);
      DigitsUpdate(before, k, d);
      assert (d - before[k] + 100 * c') * P(k) == c * P(k);
    }
  }

  lemma AddEnds(d0: seq<int>, s: seq<int>, val: int)
    requires Canonical(d0) && Digits(d0) && Digits(s) && |d0| <= |s| <= |d0| + 1 && V(s) == V(d0) + val && val >= 0
    requires |s| > |d0| ==> s[|d0|] > 0
    ensures Canonical(s)
  {
    hide V, P;
    if s != [] {
      if |s| == |d0| {
        CanonicalSize(d0);
        TopByValue(s);
      } else {
        DigitsParts(s, |s| - 1);
      }
    }
  }

  // ----- shifts

  lemma ShiftDown(s: seq<int>, n: nat)
    requires Canonical(s) && Digits(s)
    ensures var t := if n > |s| then [] else s[n..]; Canonical(t) && Digits(t) && IsFloor(V(t), V(s), P(n))
  {
    hide V, P;
    VBounds(s);
    NoDigits();
    if n >= |s| {
      PGrows(|s|, n);
    } else {
      var t := s[n..];
      VSplit(s, n);
      VBounds(s[..n]);
      assert P(n) * V(t) == V(t) * P(n) && (V(t) + 1) * P(n) == V(t) * P(n) + P(n);
      assert t[|t| - 1] == s[|s| - 1];
    }
  }

  lemma Div10Floor(v: int, w: int, x: int, n: nat, carry: int)
    requires IsFloor(x, w, P(n / 2))
    requires if n % 2 == 1 then v == 10 * w + carry && 0 <= carry < 10 else v == w
    ensures IsFloor(x, v, Pow10(n))
  {
    hide P;
    TenIsP(n / 2);
    if n % 2 == 1 {
      FloorTwice(x, w, v, 10, P(n / 2));
      assert n == 2 * (n / 2) + 1;
      assert Pow10(n) == 10 * Pow10(n - 1);
    } else {
      assert n == 2 * (n / 2);
    }
  }

  lemma AboveLower(s: seq<int>)
    requires Canonical(s)
    ensures Above(s, -10)
  {
  }

  lemma ShiftUp(s: seq<int>, n: nat)
    requires Above(s, -10)
    ensures Above(Zeros(n) + s, -10) && V(Zeros(n) + s) == V(s) * P(n)
  {
    hide V, P;
    var t := Zeros(n) + s;
    VConcat(Zeros(n), s);
    VZeros(Zeros(n));
    if s != [] {
      assert t[..|t| - 1] == Zeros(n) + s[..|s| - 1];
    } else {
      assert t == Zeros(n);
      NoDigits();
    }
    assert P(n) * V(s) == V(s) * P(n);
  }

  lemma Mul10Is(v: int, w: int, n: nat)
    requires w == if n % 2 == 1 then 10 * v else v
    ensures w * P(n / 2) == v * Pow10(n)
  {
    hide P;
    TenIsP(n / 2);
    if n % 2 == 1 {
      assert n == 2 * (n / 2) + 1;
      assert Pow10(n) == 10 * Pow10(n - 1);
      assert 10 * v * P(n / 2) == v * (10 * P(n / 2));
    } else {
      assert n == 2 * (n / 2);
    }
  }
}
