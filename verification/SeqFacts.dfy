/**
 Facts about sequences that hold whatever is in them.
 */
module SeqFacts {
  lemma Assoc<T>(a: seq<T>, b: seq<T>, c: seq<T>)
    ensures a + (b + c) == a + b + c
  {
  }

  lemma Empty<T>(a: seq<T>)
    ensures a + [] == a && [] + a == a
  {
  }

  lemma Four<T>(a: seq<T>, b: seq<T>, c: seq<T>, d: seq<T>)
    ensures a + (b + c) + d == a + b + (c + d)
  {
  }

  lemma PrefixIn3<T>(s: seq<T>, a: int, b: int, c: int)
    requires 0 <= a <= b <= c <= |s|
    ensures s[..c] == s[..a] + s[a..b] + s[b..c]
  {
  }

  /** A part of a part. */
  lemma Within<T>(s: seq<T>, a: int, b: int, l: int)
    requires 0 <= a <= a + l <= b <= |s|
    ensures s[a..b][..l] == s[a..a + l] && s[a..b][l..] == s[a + l..b]
  {
  }

  lemma Head<T>(x: seq<T>, y: seq<T>)
    requires x != []
    ensures (x + y)[0] == x[0] && (x + y)[1..] == x[1..] + y
  {
  }
}
