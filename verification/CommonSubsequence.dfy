/**
 Longest common subsequences of two value sequences: the reference that the
 matching engine of diff is proved against.

 Positions are 1-based, as in the program: line x of the old file has value
 A[x-1] and line y of the new file has value B[y-1].
 */
module CommonSubsequence {
  import opened Basics

  /** A pair (x, y): old line x is matched with new line y. */
  type Pair = (int, int)

  /** ps is a common subsequence of the first i values of A and the first j of B. */
  ghost predicate IsMatching<T>(A: seq<T>, B: seq<T>, ps: seq<Pair>, i: int, j: int)
  {
    && (forall k :: 0 <= k < |ps| ==>
          && 1 <= ps[k].0 <= i && ps[k].0 <= |A|
          && 1 <= ps[k].1 <= j && ps[k].1 <= |B|
          && A[ps[k].0 - 1] == B[ps[k].1 - 1])
    && (forall k, l :: 0 <= k < l < |ps| ==> ps[k].0 < ps[l].0 && ps[k].1 < ps[l].1)
  }

  /** The textbook recurrence. */
  function Lcs(A: seq<int>, B: seq<int>, i: nat, j: nat): (r: nat)
    requires i <= |A| && j <= |B|
    decreases i + j
  {
    if i == 0 || j == 0 then 0
    else if A[i - 1] == B[j - 1] then Lcs(A, B, i - 1, j - 1) + 1
    else Max(Lcs(A, B, i - 1, j), Lcs(A, B, i, j - 1))
  }

  lemma {:induction false} LcsSteps(A: seq<int>, B: seq<int>, i: nat, j: nat)
    requires i <= |A| && j <= |B|
    ensures i > 0 ==> Lcs(A, B, i - 1, j) <= Lcs(A, B, i, j) <= Lcs(A, B, i - 1, j) + 1
    ensures j > 0 ==> Lcs(A, B, i, j - 1) <= Lcs(A, B, i, j) <= Lcs(A, B, i, j - 1) + 1
    ensures Lcs(A, B, i, j) <= i && Lcs(A, B, i, j) <= j
    decreases i + j
  {
    if i > 0 && j > 0 {
      LcsSteps(A, B, i - 1, j);
      LcsSteps(A, B, i, j - 1);
      LcsSteps(A, B, i - 1, j - 1);
    }
  }

  lemma {:induction false} LcsMonotone(A: seq<int>, B: seq<int>, i: nat, j: nat, j': nat)
    requires i <= |A| && j <= j' <= |B|
    ensures Lcs(A, B, i, j) <= Lcs(A, B, i, j')
    decreases j'
  {
    if j < j' {
      LcsMonotone(A, B, i, j, j' - 1);
      LcsSteps(A, B, i, j');
    }
  }

  /** No common subsequence is longer than Lcs. */
  lemma {:induction false} LcsIsUpperBound(A: seq<int>, B: seq<int>, ps: seq<Pair>, i: nat, j: nat)
    requires i <= |A| && j <= |B|
    requires IsMatching(A, B, ps, i, j)
    ensures |ps| <= Lcs(A, B, i, j)
    decreases i + j
  {
    if |ps| > 0 {
      var last := ps[|ps| - 1];
      LcsSteps(A, B, i, j);
      if last.0 < i {
        LcsIsUpperBound(A, B, ps, i - 1, j);
      } else if last.1 < j {
        LcsIsUpperBound(A, B, ps, i, j - 1);
      } else {
        LcsIsUpperBound(A, B, ps[..|ps| - 1], i - 1, j - 1);
      }
    }
  }

  lemma {:induction false} MatchingExtends<T>(A: seq<T>, B: seq<T>, ps: seq<Pair>, i: int, j: int, q: Pair)
    requires IsMatching(A, B, ps, i, j)
    requires 0 <= i < q.0 <= |A| && 0 <= j < q.1 <= |B| && A[q.0 - 1] == B[q.1 - 1]
    ensures IsMatching(A, B, ps + [q], q.0, q.1)
  {
  }

  /** Some common subsequence is as long as Lcs. */
  lemma {:induction false} LcsIsReached(A: seq<int>, B: seq<int>, i: nat, j: nat) returns (ps: seq<Pair>)
    requires i <= |A| && j <= |B|
    ensures IsMatching(A, B, ps, i, j)
    ensures |ps| == Lcs(A, B, i, j)
    decreases i + j
  {
    if i == 0 || j == 0 {
      ps := [];
    } else if A[i - 1] == B[j - 1] {
      ps := LcsIsReached(A, B, i - 1, j - 1);
      MatchingExtends(A, B, ps, i - 1, j - 1, (i, j));
      ps := ps + [(i, j)];
    } else if Lcs(A, B, i - 1, j) < Lcs(A, B, i, j - 1) {
      ps := LcsIsReached(A, B, i, j - 1);
    } else {
      ps := LcsIsReached(A, B, i - 1, j);
    }
  }

  // ----- thresholds: the rows that stone computes

  /** ys[l] is the least y such that the first i values of A and the first y of B
      have a common subsequence of length l; there is none of length |ys|. */
  ghost predicate Thresholds(A: seq<int>, B: seq<int>, i: nat, ys: seq<int>)
    requires i <= |A|
  {
    && |ys| >= 1 && ys[0] == 0
    && (forall l :: 1 <= l < |ys| ==>
          1 <= ys[l] <= |B| && Lcs(A, B, i, ys[l]) == l && Lcs(A, B, i, ys[l] - 1) == l - 1)
    && Lcs(A, B, i, |B|) == |ys| - 1
  }

  /** With thresholds, "y admits length l" is just a comparison. */
  lemma {:induction false} ThresholdCompares(A: seq<int>, B: seq<int>, i: nat, ys: seq<int>, l: nat, y: nat)
    requires i <= |A| && Thresholds(A, B, i, ys) && y <= |B|
    ensures l < |ys| ==> (Lcs(A, B, i, y) >= l <==> ys[l] <= y)
    ensures l >= |ys| ==> Lcs(A, B, i, y) < l
  {
    LcsMonotone(A, B, i, y, |B|);
    if 1 <= l < |ys| {
      if ys[l] <= y {
        LcsMonotone(A, B, i, ys[l], y);
      } else {
        LcsMonotone(A, B, i, y, ys[l] - 1);
      }
    }
  }

  /** Value A[i] of the row being added matches new line y. */
  ghost predicate RowMatch(A: seq<int>, B: seq<int>, i: nat, y: int)
    requires i < |A|
  {
    1 <= y <= |B| && A[i] == B[y - 1]
  }

  /** A match at y in the new row lifts length l - 1 to length l. */
  lemma {:induction false} RowLifts(A: seq<int>, B: seq<int>, i: nat, y: nat, y': nat, l: nat)
    requires i < |A| && 1 <= y' <= y <= |B| && A[i] == B[y' - 1]
    requires Lcs(A, B, i, y' - 1) + 1 >= l
    ensures Lcs(A, B, i + 1, y) >= l
  {
    LcsMonotone(A, B, i + 1, y', y);
  }

  /** Any length gained by the new row comes from such a match. */
  lemma {:induction false} RowLiftsOnly(A: seq<int>, B: seq<int>, i: nat, y: nat, l: nat) returns (y': nat)
    requires i < |A| && y <= |B|
    requires Lcs(A, B, i, y) < l <= Lcs(A, B, i + 1, y)
    ensures y' <= y && RowMatch(A, B, i, y') && Lcs(A, B, i, y' - 1) + 1 >= l
    decreases y
  {
    if A[i] == B[y - 1] {
      y' := y;
    } else {
      LcsSteps(A, B, i, y);
      y' := RowLiftsOnly(A, B, i, y - 1, l);
    }
  }

  /** After the matches up to p, level l of row i + 1 stands at y: y is either the old
      threshold or a match above the old threshold of level l - 1, and no match so far
      does better. */
  ghost predicate Level(A: seq<int>, B: seq<int>, i: nat, T: seq<int>, l: nat, y: int, p: int)
    requires i < |A| && 1 <= l <= |T|
  {
    && ((l < |T| && y == T[l]) || (RowMatch(A, B, i, y) && T[l - 1] < y))
    && (l < |T| ==> y <= T[l])
    && (forall y' :: RowMatch(A, B, i, y') && T[l - 1] < y' <= p ==> y <= y')
  }

  /** ys is what row i + 1 makes of the thresholds T of row i once the matches up to
      and including p have been taken into account. */
  ghost predicate PartialRow(A: seq<int>, B: seq<int>, i: nat, T: seq<int>, ys: seq<int>, p: int)
    requires i < |A|
  {
    && 1 <= |T| <= |ys| <= |T| + 1 && ys[0] == 0
    && (forall l :: 1 <= l < |ys| ==> Level(A, B, i, T, l, ys[l], p))
    && (|ys| == |T| ==> forall y :: RowMatch(A, B, i, y) && y <= p ==> y <= T[|T| - 1])
  }

  /** A completed row gives the thresholds of row i + 1. */
  lemma {:induction false} RowDone(A: seq<int>, B: seq<int>, i: nat, T: seq<int>, ys: seq<int>)
    requires i < |A| && Thresholds(A, B, i, T)
    requires PartialRow(A, B, i, T, ys, |B|)
    ensures Thresholds(A, B, i + 1, ys)
  {
    forall l | 1 <= l < |ys|
      ensures 1 <= ys[l] <= |B| && Lcs(A, B, i + 1, ys[l]) == l && Lcs(A, B, i + 1, ys[l] - 1) == l - 1
    {
      LevelReached(A, B, i, T, l, ys[l]);
      LevelLeast(A, B, i, T, l, ys[l]);
      LcsSteps(A, B, i + 1, ys[l]);
    }
    if |ys| > |T| {
      LcsMonotone(A, B, i + 1, ys[|T|], |B|);
      TopAtMost(A, B, i, T);
    } else {
      TopStays(A, B, i, T);
    }
  }

  lemma {:induction false} LevelReached(A: seq<int>, B: seq<int>, i: nat, T: seq<int>, l: nat, y: int)
    requires i < |A| && Thresholds(A, B, i, T) && 1 <= l <= |T|
    requires Level(A, B, i, T, l, y, |B|)
    ensures 1 <= y <= |B| && Lcs(A, B, i + 1, y) >= l
  {
    if l < |T| && y == T[l] {
      LcsMonotoneBoth(A, B, i, y, i + 1, y);
    } else {
      ThresholdCompares(A, B, i, T, l - 1, y - 1);
      RowLifts(A, B, i, y, y, l);
    }
  }

  lemma {:induction false} LevelLeast(A: seq<int>, B: seq<int>, i: nat, T: seq<int>, l: nat, y: int)
    requires i < |A| && Thresholds(A, B, i, T) && 1 <= l <= |T| && 1 <= y <= |B|
    requires Level(A, B, i, T, l, y, |B|)
    ensures Lcs(A, B, i + 1, y - 1) < l
  {
    if Lcs(A, B, i + 1, y - 1) >= l {
      ThresholdCompares(A, B, i, T, l, y - 1);
      var y' := RowLiftsOnly(A, B, i, y - 1, l);
      ThresholdCompares(A, B, i, T, l - 1, y' - 1);
      assert false;
    }
  }

  lemma {:induction false} TopAtMost(A: seq<int>, B: seq<int>, i: nat, T: seq<int>)
    requires i < |A| && Thresholds(A, B, i, T)
    ensures Lcs(A, B, i + 1, |B|) <= |T|
  {
    LcsSteps(A, B, i + 1, |B|);
  }

  lemma {:induction false} TopStays(A: seq<int>, B: seq<int>, i: nat, T: seq<int>)
    requires i < |A| && Thresholds(A, B, i, T)
    requires forall y :: RowMatch(A, B, i, y) && y <= |B| ==> y <= T[|T| - 1]
    ensures Lcs(A, B, i + 1, |B|) == |T| - 1
  {
    LcsMonotoneBoth(A, B, i, |B|, i + 1, |B|);
    if Lcs(A, B, i + 1, |B|) >= |T| {
      var y' := RowLiftsOnly(A, B, i, |B|, |T|);
      ThresholdCompares(A, B, i, T, |T| - 1, y' - 1);
      assert false;
    }
  }

  // ----- rows that stop early

  /** Line y is among the first bound lines equal to it. */
  ghost predicate Early<T>(B: seq<T>, y: int, bound: nat)
  {
    1 <= y <= |B| && multiset(B[..y])[B[y - 1]] <= bound
  }

  ghost predicate AllEarly<T>(B: seq<T>, ps: seq<Pair>, bound: nat)
  {
    forall k :: 0 <= k < |ps| ==> Early(B, ps[k].1, bound)
  }

  /** The levels ys are at least as good as every common subsequence of the first i values
      of A that keeps to early lines. */
  ghost predicate Reaches(A: seq<int>, B: seq<int>, bound: nat, i: nat, ys: seq<int>)
  {
    forall ps: seq<Pair> :: IsMatching(A, B, ps, i, |B|) && AllEarly(B, ps, bound) && ps != [] ==>
      |ps| < |ys| && ys[|ps|] <= ps[|ps| - 1].1
  }

  lemma ReachesNothing(A: seq<int>, B: seq<int>, bound: nat)
    ensures Reaches(A, B, bound, 0, [0])
  {
    forall ps: seq<Pair> | IsMatching(A, B, ps, 0, |B|)
      ensures ps == []
    {
      LcsIsUpperBound(A, B, ps, 0, |B|);
    }
  }

  /** A row that takes into account all early matches keeps up with them. */
  lemma ReachesNext(A: seq<int>, B: seq<int>, bound: nat, i: nat, T: seq<int>, ys: seq<int>, p: int)
    requires i < |A| && Reaches(A, B, bound, i, T) && PartialRow(A, B, i, T, ys, p)
    requires forall y :: RowMatch(A, B, i, y) && Early(B, y, bound) ==> y <= p
    requires T[0] == 0
    ensures Reaches(A, B, bound, i + 1, ys)
  {
    hide Reaches, Early;
    forall ps: seq<Pair> | IsMatching(A, B, ps, i + 1, |B|) && AllEarly(B, ps, bound) && ps != []
      ensures |ps| < |ys| && ys[|ps|] <= ps[|ps| - 1].1
    {
      MatchingReached(A, B, bound, i, T, ys, p, ps);
    }
    ReachesAll(A, B, bound, i + 1, ys);
  }

  lemma ReachesAll(A: seq<int>, B: seq<int>, bound: nat, i: nat, ys: seq<int>)
    requires forall ps: seq<Pair> :: IsMatching(A, B, ps, i, |B|) && AllEarly(B, ps, bound) && ps != [] ==>
      |ps| < |ys| && ys[|ps|] <= ps[|ps| - 1].1
    ensures Reaches(A, B, bound, i, ys)
  {
  }

  lemma MatchingReached(A: seq<int>, B: seq<int>, bound: nat, i: nat, T: seq<int>, ys: seq<int>, p: int,
                        ps: seq<Pair>)
    requires i < |A| && Reaches(A, B, bound, i, T) && PartialRow(A, B, i, T, ys, p) && T[0] == 0
    requires forall y :: RowMatch(A, B, i, y) && Early(B, y, bound) ==> y <= p
    requires IsMatching(A, B, ps, i + 1, |B|) && AllEarly(B, ps, bound) && ps != []
    ensures |ps| < |ys| && ys[|ps|] <= ps[|ps| - 1].1
  {
    hide Early;
    var l := |ps|;
    var last, front := ps[l - 1], ps[..l - 1];
    if last.0 <= i {
      assert IsMatching(A, B, ps, i, |B|);
      assert Level(A, B, i, T, l, ys[l], p);
    } else {
      assert IsMatching(A, B, front, i, |B|) && AllEarly(B, front, bound);
      assert RowMatch(A, B, i, last.1) && Early(B, last.1, bound);
      assert front != [] ==> front[|front| - 1] == ps[l - 2];
      assert T[l - 1] < last.1;
      if l < |ys| {
        assert Level(A, B, i, T, l, ys[l], p);
      }
    }
  }

  lemma {:induction false} PairsSpread<T>(A: seq<T>, B: seq<T>, ps: seq<Pair>, k: nat)
    requires IsMatching(A, B, ps, |A|, |B|) && k < |ps|
    ensures k < ps[k].0 && k < ps[k].1
  {
    if k > 0 {
      PairsSpread(A, B, ps, k - 1);
    }
  }

  lemma {:induction false} PairsSpreadBack<T>(A: seq<T>, B: seq<T>, ps: seq<Pair>, k: nat)
    requires IsMatching(A, B, ps, |A|, |B|) && k < |ps|
    ensures ps[k].0 + (|ps| - 1 - k) <= |A| && ps[k].1 + (|ps| - 1 - k) <= |B|
    decreases |ps| - k
  {
    if k + 1 < |ps| {
      PairsSpreadBack(A, B, ps, k + 1);
    }
  }

  /** What is left of a common subsequence without its first p and last s pairs lies
      between the first p and the last s lines of both files. */
  lemma MatchingMiddle(A: seq<int>, B: seq<int>, ps: seq<Pair>, p: nat, s: nat, bound: nat) returns (qs: seq<Pair>)
    requires p + s <= |A| && p + s <= |B| && p + s <= |ps|
    requires IsMatching(A, B, ps, |A|, |B|) && AllEarly(B, ps, bound)
    ensures var A', B' := A[p..|A| - s], B[p..|B| - s];
            IsMatching(A', B', qs, |A'|, |B'|) && AllEarly(B', qs, bound)
    ensures |qs| == |ps| - p - s
  {
    hide Early;
    var A', B' := A[p..|A| - s], B[p..|B| - s];
    qs := seq(|ps| - p - s, k requires 0 <= k < |ps| - p - s => (ps[k + p].0 - p, ps[k + p].1 - p));
    forall k | 0 <= k < |qs|
      ensures PairInside(A', B', qs[k]) && Early(B', qs[k].1, bound)
    {
      PairMoves(A, B, ps, p, s, k + p);
      EarlyInMiddle(B, p, s, ps[k + p].1, bound);
    }
  }

  ghost predicate PairInside(A: seq<int>, B: seq<int>, q: Pair)
  {
    1 <= q.0 <= |A| && 1 <= q.1 <= |B| && A[q.0 - 1] == B[q.1 - 1]
  }

  lemma PairMoves(A: seq<int>, B: seq<int>, ps: seq<Pair>, p: nat, s: nat, k: nat)
    requires IsMatching(A, B, ps, |A|, |B|) && p <= k < |ps| - s && p + s <= |A| && p + s <= |B|
    ensures PairInside(A[p..|A| - s], B[p..|B| - s], (ps[k].0 - p, ps[k].1 - p))
    ensures p < ps[k].1 <= |B| - s
  {
    PairsSpread(A, B, ps, k);
    PairsSpreadBack(A, B, ps, k);
  }

  /** No common subsequence that keeps to early lines is longer than n. */
  ghost predicate NoneLonger<T>(A: seq<T>, B: seq<T>, bound: nat, n: int)
  {
    forall ps: seq<Pair> :: IsMatching(A, B, ps, |A|, |B|) && AllEarly(B, ps, bound) ==> |ps| <= n
  }

  /** Levels that are good enough between two common ends are good enough with them. */
  lemma ReachesWhole(A: seq<int>, B: seq<int>, p: nat, s: nat, bound: nat, ys: seq<int>)
    requires p + s <= |A| && p + s <= |B| && ys != []
    requires Reaches(A[p..|A| - s], B[p..|B| - s], bound, |A| - p - s, ys)
    ensures NoneLonger(A, B, bound, p + (|ys| - 1) + s)
  {
    hide IsMatching, AllEarly;
    forall ps: seq<Pair> | IsMatching(A, B, ps, |A|, |B|) && AllEarly(B, ps, bound)
      ensures |ps| <= p + (|ys| - 1) + s
    {
      if p + s < |ps| {
        var qs := MatchingMiddle(A, B, ps, p, s, bound);
      }
    }
  }

  lemma EarlyInMiddle(B: seq<int>, p: nat, s: nat, y: int, bound: nat)
    requires p < y <= |B| - s && Early(B, y, bound)
    ensures Early(B[p..|B| - s], y - p, bound)
  {
    var B' := B[p..|B| - s];
    assert B[..y] == B[..p] + B'[..y - p];
    assert multiset(B[..y]) == multiset(B[..p]) + multiset(B'[..y - p]);
  }

  // ----- common prefixes and suffixes can be set aside (what prune relies on)

  /** Taking a common prefix of length p and a common suffix of length s off both
      sequences takes exactly p + s off their longest common subsequence. */
  lemma {:induction false} LcsCommonEnds(A: seq<int>, B: seq<int>, p: nat, s: nat)
    requires p + s <= |A| && p + s <= |B|
    requires forall k :: 0 <= k < p ==> A[k] == B[k]
    requires forall k :: |A| - s <= k < |A| ==> A[k] == B[k + |B| - |A|]
    ensures Lcs(A, B, |A|, |B|)
         == p + Lcs(A[p..|A| - s], B[p..|B| - s], |A| - p - s, |B| - p - s) + s
  {
    LcsCommonSuffix(A, B, s);
    LcsCommonPrefix(A, B, p, |A| - s, |B| - s);
    LcsPrefixLocal(A[p..], A[p..|A| - s], B[p..], B[p..|B| - s], |A| - p - s, |B| - p - s);
  }

  lemma {:induction false} LcsCommonSuffix(A: seq<int>, B: seq<int>, s: nat)
    requires s <= |A| && s <= |B|
    requires forall k :: |A| - s <= k < |A| ==> A[k] == B[k + |B| - |A|]
    ensures Lcs(A, B, |A|, |B|) == Lcs(A, B, |A| - s, |B| - s) + s
  {
    if s > 0 {
      LcsCommonSuffix(A, B, s - 1);
    }
  }

  lemma LcsUnfolds(A: seq<int>, B: seq<int>, i: nat, j: nat)
    requires 0 < i <= |A| && 0 < j <= |B|
    ensures Lcs(A, B, i, j)
         == if A[i - 1] == B[j - 1] then Lcs(A, B, i - 1, j - 1) + 1 else Max(Lcs(A, B, i - 1, j), Lcs(A, B, i, j - 1))
  {
  }

  lemma LcsOfNothing(A: seq<int>, B: seq<int>, i: nat, j: nat)
    requires i <= |A| && j <= |B| && (i == 0 || j == 0)
    ensures Lcs(A, B, i, j) == 0
  {
  }

  lemma {:induction false} LcsCommonPrefix(A: seq<int>, B: seq<int>, p: nat, i: nat, j: nat)
    requires p <= i <= |A| && p <= j <= |B|
    requires forall k :: 0 <= k < p ==> A[k] == B[k]
    ensures Lcs(A, B, i, j) == p + Lcs(A[p..], B[p..], i - p, j - p)
    decreases i + j
  {
    hide Lcs;
    if i == p || j == p {
      LcsInPrefix(A, B, p, i, j);
      LcsOfNothing(A[p..], B[p..], i - p, j - p);
    } else {
      LcsCommonPrefix(A, B, p, i - 1, j - 1);
      LcsCommonPrefix(A, B, p, i - 1, j);
      LcsCommonPrefix(A, B, p, i, j - 1);
      LcsUnfolds(A, B, i, j);
      LcsUnfolds(A[p..], B[p..], i - p, j - p);
    }
  }

  lemma {:induction false} LcsInPrefix(A: seq<int>, B: seq<int>, p: nat, i: nat, j: nat)
    requires p <= i <= |A| && p <= j <= |B| && (i == p || j == p)
    requires forall k :: 0 <= k < p ==> A[k] == B[k]
    ensures Lcs(A, B, i, j) == p
  {
    LcsDiagonal(A, B, p);
    LcsMonotoneBoth(A, B, p, p, i, j);
    LcsSteps(A, B, i, j);
  }

  /** Values beyond the first i and j do not matter. */
  lemma {:induction false} LcsPrefixLocal(A: seq<int>, A': seq<int>, B: seq<int>, B': seq<int>, i: nat, j: nat)
    requires i <= |A| && i <= |A'| && j <= |B| && j <= |B'|
    requires forall k :: 0 <= k < i ==> A[k] == A'[k]
    requires forall k :: 0 <= k < j ==> B[k] == B'[k]
    ensures Lcs(A, B, i, j) == Lcs(A', B', i, j)
    decreases i + j
  {
    if i > 0 && j > 0 {
      LcsPrefixLocal(A, A', B, B', i - 1, j - 1);
      LcsPrefixLocal(A, A', B, B', i - 1, j);
      LcsPrefixLocal(A, A', B, B', i, j - 1);
    }
  }

  lemma {:induction false} LcsDiagonal(A: seq<int>, B: seq<int>, p: nat)
    requires p <= |A| && p <= |B|
    requires forall k :: 0 <= k < p ==> A[k] == B[k]
    ensures Lcs(A, B, p, p) == p
  {
    if p > 0 {
      LcsDiagonal(A, B, p - 1);
    }
  }

  lemma {:induction false} LcsMonotoneBoth(A: seq<int>, B: seq<int>, i: nat, j: nat, i': nat, j': nat)
    requires i <= i' <= |A| && j <= j' <= |B|
    ensures Lcs(A, B, i, j) <= Lcs(A, B, i', j')
    decreases i'
  {
    if i < i' {
      LcsMonotoneBoth(A, B, i, j, i' - 1, j');
      LcsSteps(A, B, i', j');
    } else {
      LcsMonotone(A, B, i, j, j');
    }
  }
}
