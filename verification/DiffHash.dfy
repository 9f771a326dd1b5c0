/**
 What the hash of readhash in cmd/posix/diff.c tells apart.
 */
module DiffHash {
  import opened DiffClasses
  import opened DiffMatch

  // ----- the hash as a polynomial

  /** 127 to the k. */
  function P127(k: nat): (p: int)
    ensures p >= 1
  {
    if k == 0 then 1 else 127 * P127(k - 1)
  }

  /** The characters of a line as coefficients, the first of the highest power. */
  function Poly(line: string): (r: int)
    ensures r >= 0
  {
    if line == [] then 0 else Term(line[0] as int, |line| - 1) + Poly(line[1..])
  }

  function Term(c: int, k: nat): (r: int)
    requires c >= 0
    ensures r >= 0
  {
    c * P127(k)
  }

  lemma ModShift(a: int, k: int)
    ensures (a + WORD * k) % WORD == a % WORD
  {
  }

  lemma ModMul(x: int, p: int, q: int)
    ensures ((x % WORD) * p + q) % WORD == (x * p + q) % WORD
  {
    var d := x / WORD;
    assert x == x % WORD + WORD * d;
    Factor(x % WORD, d, p);
    ModShift((x % WORD) * p + q, d * p);
  }

  lemma Factor(r: int, d: int, p: int)
    ensures (r + WORD * d) * p == r * p + WORD * (d * p)
  {
  }

  lemma {:induction false} HashFromIs(sum: int, line: string)
    requires 0 <= sum < WORD
    ensures HashFrom(sum, line) == (sum * P127(|line|) + Poly(line)) % WORD
    decreases |line|
  {
    if line != [] {
      hide P127, Poly;
      var c, rest, p := line[0] as int, line[1..], P127(|line| - 1);
      HashFromIs((sum * 127 + c) % WORD, rest);
      ModMul(sum * 127 + c, p, Poly(rest));
      PolyFirst(line);
      Lift(sum, c, p);
    }
  }

  lemma PolyFirst(line: string)
    requires line != []
    ensures Poly(line) == line[0] as int * P127(|line| - 1) + Poly(line[1..]) && P127(|line|) == 127 * P127(|line| - 1)
  {
  }

  lemma Lift(sum: int, c: int, p: int)
    ensures (sum * 127 + c) * p == sum * (127 * p) + c * p
  {
  }

  /** The number that a line stands for, a 1 being put before its characters. */
  function Numeral(line: string): int { P127(|line|) + Poly(line) }

  /** The hash is the line's numeral to the base 127, cut to 32 bits. */
  lemma HashIsNumeral(line: string)
    ensures HashFrom(1, line) == Numeral(line) % WORD
  {
    HashFromIs(1, line);
  }

  /** Two lines collide exactly if their numerals differ by a multiple of 2^32. */
  lemma CollideIff(x: string, y: string)
    ensures Hash(x) == Hash(y) <==> (Numeral(x) - Numeral(y)) % WORD == 0
  {
    hide Numeral;
    HashIsNumeral(x);
    HashIsNumeral(y);
    Congruent(Numeral(x), Numeral(y));
  }

  lemma Congruent(a: int, b: int)
    ensures a % WORD == b % WORD <==> (a - b) % WORD == 0
  {
    ModShift(a - b, 0);
    var r, d, e := b % WORD, a / WORD, b / WORD;
    if a % WORD == b % WORD {
      ModShift(0, d - e);
      assert a - b == 0 + WORD * (d - e);
    }
    if (a - b) % WORD == 0 {
      var k := (a - b) / WORD;
      assert a == b + WORD * k;
      ModShift(b, k);
    }
  }

  // ----- lines that differ in one character

  /** 127 times this is 1 modulo 2^32. */
  const INVERSE: int := 4024418175

  /** One step can be undone, because 127 is odd. */
  lemma StepBack(s: int, t: int, c: int)
    requires 0 <= s < WORD && 0 <= t < WORD && (s * 127 + c) % WORD == (t * 127 + c) % WORD
    ensures s == t
  {
    Congruent(s * 127 + c, t * 127 + c);
    var d, q := s - t, (s * 127 + c - (t * 127 + c)) / WORD;
    assert 127 * d == WORD * q;
    assert 127 * INVERSE == 1 + 119 * WORD;
    assert d == WORD * (INVERSE * q - 119 * d);
  }

  lemma {:induction false} SumsApart(s: int, t: int, line: string)
    requires 0 <= s < WORD && 0 <= t < WORD && HashFrom(s, line) == HashFrom(t, line)
    ensures s == t
    decreases |line|
  {
    if line != [] {
      var c := line[0] as int;
      SumsApart((s * 127 + c) % WORD, (t * 127 + c) % WORD, line[1..]);
      StepBack(s, t, c);
    }
  }

  /** The lines are the same but for character k. */
  predicate OneApart(x: string, y: string, k: nat)
  {
    |x| == |y| && k < |x| && x[k] != y[k] && x[..k] == y[..k] && x[k + 1..] == y[k + 1..]
  }

  lemma {:induction false} OneApartFrom(sum: int, x: string, y: string, k: nat)
    requires 0 <= sum < WORD && OneApart(x, y, k)
    ensures HashFrom(sum, x) != HashFrom(sum, y)
    decreases k
  {
    var c, d := x[0] as int, y[0] as int;
    if k == 0 {
      CharsApart(sum, c, d);
      if HashFrom(sum, x) == HashFrom(sum, y) {
        SumsApart((sum * 127 + c) % WORD, (sum * 127 + d) % WORD, x[1..]);
      }
    } else {
      assert x[0] == x[..k][0] == y[..k][0];
      assert x[1..][..k - 1] == x[..k][1..] && y[1..][..k - 1] == y[..k][1..];
      assert x[1..][k..] == x[k + 1..] && y[1..][k..] == y[k + 1..];
      OneApartFrom((sum * 127 + c) % WORD, x[1..], y[1..], k - 1);
    }
  }

  lemma CharsApart(sum: int, c: int, d: int)
    requires 0 <= c < WORD && 0 <= d < WORD && c != d
    ensures (sum * 127 + c) % WORD != (sum * 127 + d) % WORD
  {
    Congruent(sum * 127 + c, sum * 127 + d);
  }

  /** Lines that differ in exactly one character do not collide. */
  lemma OneCharacterApart(x: string, y: string, k: nat)
    requires OneApart(x, y, k)
    ensures Hash(x) != Hash(y)
  {
    OneApartFrom(1, x, y, k);
    HashIsNumeral(x);
    HashIsNumeral(y);
  }

  // ----- short lines

  /** At most four characters, with codes below 127. */
  predicate Short(line: string) { |line| <= 4 && forall k :: 0 <= k < |line| ==> line[k] as int < 127 }

  lemma {:induction false} PolyBound(line: string)
    requires forall k :: 0 <= k < |line| ==> line[k] as int < 127
    ensures 0 <= Poly(line) < P127(|line|)
    decreases |line|
  {
    if line != [] {
      var c, p := line[0] as int, P127(|line| - 1);
      PolyBound(line[1..]);
      PolyFirst(line);
      hide Poly, P127;
      Scaled(c, 126, p);
    }
  }

  lemma Scaled(c: int, d: int, p: int)
    requires c <= d && p >= 0
    ensures c * p <= d * p
  {
  }

  /** A line of such characters is determined by its length and its polynomial. */
  lemma {:induction false} PolyUnique(x: string, y: string)
    requires |x| == |y| && Poly(x) == Poly(y)
    requires forall k :: 0 <= k < |x| ==> x[k] as int < 127 && y[k] as int < 127
    ensures x == y
    decreases |x|
  {
    if x != [] {
      var p := P127(|x| - 1);
      PolyBound(x[1..]);
      PolyBound(y[1..]);
      PolyFirst(x);
      PolyFirst(y);
      TopEqual(x[0] as int, y[0] as int, p, Poly(x[1..]), Poly(y[1..]));
      PolyUnique(x[1..], y[1..]);
      assert x == [x[0]] + x[1..] && y == [y[0]] + y[1..];
    }
  }

  lemma TopEqual(c: int, d: int, p: int, v: int, w: int)
    requires 0 <= v < p && 0 <= w < p && c * p + v == d * p + w
    ensures c == d && v == w
  {
    if c < d {
      Scaled(c + 1, d, p);
    } else if d < c {
      Scaled(d + 1, c, p);
    }
  }

  /** The numeral of a short line is its hash, and tells its length. */
  lemma ShortNumeral(line: string)
    requires Short(line)
    ensures P127(|line|) <= Numeral(line) < 2 * P127(|line|) && 1 <= Hash(line) == Numeral(line)
  {
    hide Poly;
    PolyBound(line);
    Powers();
    HashIsNumeral(line);
  }

  lemma Powers()
    ensures P127(0) == 1 && P127(1) == 127 && P127(2) == 16129 && P127(3) == 2048383 && P127(4) == 260144641
  {
  }

  /** Different short lines do not collide. */
  lemma ShortApart(x: string, y: string)
    requires Short(x) && Short(y) && Hash(x) == Hash(y)
    ensures x == y
  {
    hide Poly, Hash;
    ShortNumeral(x);
    ShortNumeral(y);
    Powers();
    PolyUnique(x, y);
  }

  // ----- files

  /** A pair of lines that does not collide. */
  ghost predicate Apart(x: string, y: string)
  {
    x == y || (Short(x) && Short(y)) || exists k :: OneApart(x, y, k)
  }

  /** Files whose lines are all short, or differ in one character from each other. */
  lemma ApartFiles(old_: seq<string>, new_: seq<string>)
    requires forall x, y :: x in old_ && y in new_ ==> Apart(x, y)
    ensures NoCollision(old_, new_)
  {
    hide Hash, Short, OneApart;
    forall x, y | x in old_ && y in new_ && Hash(x) == Hash(y)
      ensures x == y
    {
      assert Apart(x, y);
      LinesApart(x, y);
    }
  }

  lemma LinesApart(x: string, y: string)
    requires Apart(x, y) && Hash(x) == Hash(y)
    ensures x == y
  {
    hide Hash, Short, OneApart;
    if Short(x) && Short(y) {
      ShortApart(x, y);
    } else if k :| OneApart(x, y, k) {
      OneCharacterApart(x, y, k);
    }
  }

  ghost predicate ShortFile(lines: seq<string>) { forall l :: l in lines ==> Short(l) }

  /** Files of short lines have no collisions, and no line that hashes to 0. */
  lemma ShortFiles(old_: seq<string>, new_: seq<string>)
    requires ShortFile(old_) && ShortFile(new_)
    ensures NoCollision(old_, new_) && StopperOk(Values(old_), Values(new_))
  {
    hide Hash, Short, StopperOk, NoCollision, OneApart;
    ApartFiles(old_, new_);
    forall i | 0 <= i < |new_|
      ensures Values(new_)[i] != 0
    {
      ShortNumeral(new_[i]);
    }
    NoZeroStops(Values(old_), Values(new_));
  }
}
