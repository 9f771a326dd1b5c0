/**
 The matching engine of diff: newcand, search, stone and unravel of
 cmd/posix/diff.c.

 stone walks over the old lines and keeps, in c[1..k], one candidate chain per
 length. All sequences are 1-based as in the program: entry 0 of a and b is unused.
 */
module DiffStone {
  import opened Basics
  import opened CommonSubsequence

  datatype Cand = Cand(x: int, y: int, pred: int)

  // ----- the equivalence classes that stone is given

  /** b[j..e] lists exactly the new lines of value v, in ascending order; the first
      entry is negated, and so is entry e, which starts the next class. */
  ghost predicate ClassRun(B: seq<int>, b: seq<int>, j: int, e: int, v: int)
  {
    && 1 <= j < e <= |B| + 1 && e < |b| && b[j] < 0 && b[e] < 0
    && (forall t :: j < t < e ==> b[t] > 0)
    && (forall s, t :: j <= s < t < e ==> Abs(b[s]) < Abs(b[t]))
    && (forall t :: j <= t < e ==> 1 <= Abs(b[t]) <= |B| && B[Abs(b[t]) - 1] == v)
    && (forall y :: 1 <= y <= |B| && B[y - 1] == v ==> Listed(b, j, e, y))
  }

  ghost predicate Listed(b: seq<int>, j: int, e: int, y: int)
    requires 0 <= j && e <= |b|
  {
    exists t :: j <= t < e && Abs(b[t]) == y
  }

  /** a[i] is 0 if no new line has the value of old line i; otherwise the run of its
      class in b starts at a[i]. */
  ghost predicate ClassOf(A: seq<int>, B: seq<int>, a: seq<int>, b: seq<int>, i: int)
    requires 1 <= i <= |A| && i < |a|
  {
    if a[i] == 0 then forall y :: 0 <= y < |B| ==> B[y] != A[i - 1]
    else HasRun(B, b, a[i], A[i - 1])
  }

  ghost predicate HasRun(B: seq<int>, b: seq<int>, j: int, v: int)
  {
    exists e :: ClassRun(B, b, j, e, v)
  }

  ghost predicate Classes(A: seq<int>, B: seq<int>, a: seq<int>, b: seq<int>)
  {
    |A| < |a| && forall i :: 1 <= i <= |A| ==> ClassOf(A, B, a, b, i)
  }

  // ----- candidates

  /** Candidate q pairs two equal lines, and its predecessor lies before it in the
      list, in the old file and in the new file. */
  ghost predicate CandOk(A: seq<int>, B: seq<int>, cl: seq<Cand>, dep: seq<nat>, q: int)
    requires 0 <= q < |cl| == |dep|
  {
    && 0 <= cl[q].pred < q
    && 1 <= cl[q].x <= |A| && 1 <= cl[q].y <= |B|
    && A[cl[q].x - 1] == B[cl[q].y - 1]
    && cl[cl[q].pred].x < cl[q].x && cl[cl[q].pred].y < cl[q].y
    && dep[q] == dep[cl[q].pred] + 1
  }

  /** dep[q] is the number of pairs on the predecessor chain of candidate q. */
  ghost predicate CandsOk(A: seq<int>, B: seq<int>, cl: seq<Cand>, dep: seq<nat>)
  {
    && 1 <= |cl| == |dep| && cl[0] == Cand(0, 0, 0) && dep[0] == 0
    && forall q :: 1 <= q < |cl| ==> CandOk(A, B, cl, dep, q)
  }

  ghost predicate Increasing(ys: seq<int>)
  {
    forall l, l' :: 0 <= l < l' < |ys| ==> ys[l] < ys[l']
  }

  /** q is a candidate of length l that ends at new line y and uses old lines up to i. */
  ghost predicate LevelOk(cl: seq<Cand>, dep: seq<nat>, q: int, y: int, l: nat, i: int)
  {
    0 <= q < |cl| == |dep| && dep[q] == l && cl[q].y == y && cl[q].x <= i
  }

  ghost predicate LevelsOk(cl: seq<Cand>, dep: seq<nat>, c: seq<int>, ys: seq<int>, i: int)
  {
    && 1 <= |ys| <= |c| && ys[0] == 0 && Increasing(ys)
    && forall l :: 0 <= l < |ys| ==> LevelOk(cl, dep, c[l], ys[l], l, i)
  }

  // ----- one match inside a row, on the threshold sequences alone

  /** Matches strictly between p and y do not exist, so p may be moved up to y - 1. */
  ghost predicate NextMatch(A: seq<int>, B: seq<int>, i: nat, p: int, y: int)
    requires i < |A|
  {
    p < y && RowMatch(A, B, i, y) && forall y' :: p < y' < y ==> !RowMatch(A, B, i, y')
  }

  /** A match at or below the old threshold of a level that already stands no higher
      than it changes nothing. */
  lemma RowSkips(A: seq<int>, B: seq<int>, i: nat, T: seq<int>, ys: seq<int>, p: int, y: int, l: nat)
    requires i < |A| && PartialRow(A, B, i, T, ys, p) && NextMatch(A, B, i, p, y)
    requires |ys| == |T| && Increasing(T) && Increasing(ys)
    requires l < |T| && ys[l] <= y <= T[l]
    ensures PartialRow(A, B, i, T, ys, y)
  {
    forall m | 1 <= m < |ys|
      ensures Level(A, B, i, T, m, ys[m], y)
    {
      assert Level(A, B, i, T, m, ys[m], p);
      assert m <= l ==> ys[m] <= ys[l];
      assert m > l ==> T[l] <= T[m - 1];
    }
  }

  /** A match below level l's threshold and above level l - 1's moves level l down. */
  lemma RowReplaces(A: seq<int>, B: seq<int>, i: nat, T: seq<int>, ys: seq<int>, p: int, y: int, l: nat)
    requires i < |A| && PartialRow(A, B, i, T, ys, p) && NextMatch(A, B, i, p, y)
    requires |ys| == |T| && Increasing(T) && Increasing(ys)
    requires 1 <= l < |T| && ys[l - 1] < y < ys[l] == T[l] && T[l - 1] < y
    ensures PartialRow(A, B, i, T, ys[l := y], y)
    ensures Increasing(ys[l := y])
  {
    var ys' := ys[l := y];
    forall m | 1 <= m < |ys'|
      ensures Level(A, B, i, T, m, ys'[m], y)
    {
      assert Level(A, B, i, T, m, ys[m], p);
      assert m < l ==> ys[m] <= ys[l - 1];
      assert m > l ==> T[l] <= T[m - 1];
    }
  }

  /** A match above every threshold adds a level and completes the row. */
  lemma RowExtends(A: seq<int>, B: seq<int>, i: nat, T: seq<int>, ys: seq<int>, p: int, y: int)
    requires i < |A| && PartialRow(A, B, i, T, ys, p) && NextMatch(A, B, i, p, y)
    requires |ys| == |T| && Increasing(T) && Increasing(ys)
    requires ys[|ys| - 1] < y && T[|T| - 1] < y
    ensures PartialRow(A, B, i, T, ys + [y], |B|)
    ensures Increasing(ys + [y])
  {
    forall m | 1 <= m < |ys| + 1
      ensures Level(A, B, i, T, m, (ys + [y])[m], |B|)
    {
      if m < |ys| {
        assert Level(A, B, i, T, m, ys[m], p);
        assert ys[m] <= ys[|ys| - 1];
      }
    }
  }

  lemma RowStarts(A: seq<int>, B: seq<int>, i: nat, T: seq<int>)
    requires i < |A| && |T| >= 1 && T[0] == 0 && Increasing(T)
    ensures PartialRow(A, B, i, T, T, 0)
  {
    forall m | 1 <= m < |T|
      ensures Level(A, B, i, T, m, T[m], 0)
    {
      assert T[0] <= T[m - 1];
    }
  }

  lemma EmptyRow(A: seq<int>, B: seq<int>, i: nat, T: seq<int>)
    requires i < |A| && |T| >= 1 && T[0] == 0 && Increasing(T)
    requires forall y :: 0 <= y < |B| ==> B[y] != A[i]
    ensures PartialRow(A, B, i, T, T, |B|)
  {
    RowStarts(A, B, i, T);
    RowMoves(A, B, i, T, T, 0, |B|);
  }

  lemma RowMoves(A: seq<int>, B: seq<int>, i: nat, T: seq<int>, ys: seq<int>, p: int, p': int)
    requires i < |A| && PartialRow(A, B, i, T, ys, p)
    requires forall y :: p < y <= p' ==> !RowMatch(A, B, i, y)
    ensures PartialRow(A, B, i, T, ys, p')
  {
    forall m | 1 <= m < |ys|
      ensures Level(A, B, i, T, m, ys[m], p')
    {
      assert Level(A, B, i, T, m, ys[m], p);
    }
  }

  // ----- reading a class run

  lemma RunPosition(A: seq<int>, B: seq<int>, b: seq<int>, j: int, e: int, i: nat, y: int) returns (t: int)
    requires i < |A| && ClassRun(B, b, j, e, A[i]) && RowMatch(A, B, i, y)
    ensures j <= t < e && Abs(b[t]) == y
  {
    assert Listed(b, j, e, y);
    t :| j <= t < e && Abs(b[t]) == y;
  }

  /** ms[1..] are the matches of row i in the order in which stone reads them from b. */
  ghost predicate MatchList(A: seq<int>, B: seq<int>, i: nat, b: seq<int>, j: int, ms: seq<int>)
    requires i < |A|
  {
    && 2 <= |ms| <= |B| + 1 && ms[0] == 0
    && 0 <= j && j + |ms| - 1 < |b| && b[j] == -ms[1] && b[j + |ms| - 1] < 0
    && (forall t :: 2 <= t < |ms| ==> 0 < ms[t] == b[j + t - 1])
    && (forall t :: 1 <= t < |ms| ==> MatchAfter(A, B, i, ms, t))
    && (forall y :: ms[|ms| - 1] < y <= |B| ==> !RowMatch(A, B, i, y))
  }

  ghost predicate MatchAfter(A: seq<int>, B: seq<int>, i: nat, ms: seq<int>, t: nat)
    requires i < |A| && 1 <= t < |ms|
  {
    NextMatch(A, B, i, ms[t - 1], ms[t])
  }

  /** No old line has more than bound equal new lines: then no row runs out of tries. */
  ghost predicate ClassesFit(A: seq<int>, B: seq<int>, bound: nat)
  {
    forall v :: v in A ==> multiset(B)[v] <= bound
  }

  /** A class is no longer than its value occurs. */
  lemma RunCount(B: seq<int>, b: seq<int>, j: int, e: int, v: int)
    requires ClassRun(B, b, j, e, v)
    ensures e - j <= multiset(B)[v]
  {
    hide Listed;
    RunCountTo(B, b, j, e, v, |B|);
    assert B[..|B|] == B;
  }

  lemma {:induction false} RunCountTo(B: seq<int>, b: seq<int>, j: int, e: int, v: int, n: nat)
    requires 0 <= j <= e <= |b| && n <= |B|
    requires forall s, t :: j <= s < t < e ==> Abs(b[s]) < Abs(b[t])
    requires forall t :: j <= t < e ==> 1 <= Abs(b[t]) <= n && B[Abs(b[t]) - 1] == v
    ensures e - j <= multiset(B[..n])[v]
  {
    hide Abs;
    if j < e {
      assert 1 <= Abs(b[e - 1]) <= n;
      assert B[..n] == B[..n - 1] + [B[n - 1]];
      if Abs(b[e - 1]) == n {
        RunCountTo(B, b, j, e - 1, v, n - 1);
      } else {
        RunCountTo(B, b, j, e, v, n - 1);
      }
    }
  }

  /** All matches that are early were tried. */
  ghost predicate EarlyTried(A: seq<int>, B: seq<int>, i: nat, bound: nat, p: int)
    requires i < |A|
  {
    forall y :: RowMatch(A, B, i, y) && Early(B, y, bound) ==> y <= p
  }

  lemma RunTried(A: seq<int>, B: seq<int>, i: nat, b: seq<int>, j: int, e: int, bound: nat, p: int)
    requires i < |A| && ClassRun(B, b, j, e, A[i])
    requires forall t :: 1 <= t <= e - j && t <= bound ==> RunOf(b, j, e)[t] <= p
    ensures EarlyTried(A, B, i, bound, p)
  {
    hide Listed;
    forall y | RowMatch(A, B, i, y) && Early(B, y, bound)
      ensures y <= p
    {
      var s := RunPosition(A, B, b, j, e, i, y);
      RunCountTo(B, b, j, s + 1, A[i], y);
      assert RunOf(b, j, e)[s - j + 1] == y;
    }
  }

  /** Stopping after t tries: these were the first ones. */
  lemma FirstTried(A: seq<int>, B: seq<int>, i: nat, b: seq<int>, j: int, ms: seq<int>, t: nat, bound: nat)
    requires i < |A| && MatchList(A, B, i, b, j, ms) && t < |ms| && (t == |ms| - 1 || bound <= t)
    ensures forall u :: 1 <= u < |ms| && u <= bound ==> ms[u] <= ms[t]
  {
    forall u | 1 <= u < |ms| && u <= bound
      ensures ms[u] <= ms[t]
    {
      InOrder(A, B, i, b, j, ms, u, t);
    }
  }

  lemma {:induction false} InOrder(A: seq<int>, B: seq<int>, i: nat, b: seq<int>, j: int, ms: seq<int>, u: nat, t: nat)
    requires i < |A| && MatchList(A, B, i, b, j, ms) && u <= t < |ms|
    ensures ms[u] <= ms[t] && (0 < t ==> ms[t] <= |B|)
  {
    if 0 < t {
      assert MatchAfter(A, B, i, ms, t);
      if u < t {
        InOrder(A, B, i, b, j, ms, u, t - 1);
      }
    }
  }

  /** 0 and then the new lines of the run j..e. */
  ghost function RunOf(b: seq<int>, j: int, e: int): (ms: seq<int>)
    requires 0 <= j < e <= |b|
    ensures |ms| == e - j + 1 && ms[0] == 0 && forall t :: 1 <= t < |ms| ==> ms[t] == Abs(b[j + t - 1])
  {
    [0] + seq(e - j, t requires 0 <= t < e - j => Abs(b[j + t]))
  }

  lemma RunIsMatchList(A: seq<int>, B: seq<int>, i: nat, b: seq<int>, j: int, e: int) returns (ms: seq<int>)
    requires i < |A| && ClassRun(B, b, j, e, A[i])
    ensures MatchList(A, B, i, b, j, ms) && ms == RunOf(b, j, e)
  {
    hide NextMatch, RowMatch;
    ms := RunOf(b, j, e);
    forall t | 1 <= t < |ms|
      ensures MatchAfter(A, B, i, ms, t)
    {
      RunNext(A, B, b, j, e, j + t - 1, i);
    }
    RunEnd(A, B, b, j, e, i);
  }

  lemma RunEnd(A: seq<int>, B: seq<int>, b: seq<int>, j: int, e: int, i: nat)
    requires i < |A| && ClassRun(B, b, j, e, A[i])
    ensures forall y :: Abs(b[e - 1]) < y <= |B| ==> !RowMatch(A, B, i, y)
  {
    forall y | Abs(b[e - 1]) < y <= |B|
      ensures !RowMatch(A, B, i, y)
    {
      if RowMatch(A, B, i, y) {
        var s := RunPosition(A, B, b, j, e, i, y);
      }
    }
  }

  lemma RunNext(A: seq<int>, B: seq<int>, b: seq<int>, j: int, e: int, t: int, i: nat)
    requires i < |A| && ClassRun(B, b, j, e, A[i]) && j <= t < e
    ensures NextMatch(A, B, i, if t == j then 0 else Abs(b[t - 1]), Abs(b[t]))
  {
    var p := if t == j then 0 else Abs(b[t - 1]);
    forall y | p < y < Abs(b[t])
      ensures !RowMatch(A, B, i, y)
    {
      if RowMatch(A, B, i, y) {
        var s := RunPosition(A, B, b, j, e, i, y);
      }
    }
  }

  lemma CandAppended(A: seq<int>, B: seq<int>, cl: seq<Cand>, dep: seq<nat>, x: int, y: int, pred: int)
    requires CandsOk(A, B, cl, dep)
    requires 0 <= pred < |cl| && cl[pred].x < x <= |A| && cl[pred].y < y <= |B| && 1 <= x && 1 <= y
    requires A[x - 1] == B[y - 1]
    ensures CandsOk(A, B, cl + [Cand(x, y, pred)], dep + [dep[pred] + 1])
  {
    var cl', dep' := cl + [Cand(x, y, pred)], dep + [dep[pred] + 1];
    forall q | 1 <= q < |cl'|
      ensures CandOk(A, B, cl', dep', q)
    {
      if q < |cl| {
        assert CandOk(A, B, cl, dep, q);
      }
    }
  }

  // ----- the state inside a row

  /** The invariant of stone's inner loop. C0 and T are c and the thresholds at the
      start of row i; levels above oldl are still untouched; oldc is the candidate that
      level oldl had before this row, unless level oldl + 1 is already at or below p. */
  ghost predicate RowState(cl: seq<Cand>, dep: seq<nat>, c: seq<int>, ys: seq<int>,
                           C0: seq<int>, T: seq<int>, oldl: int, oldc: int, p: int, i: int)
  {
    && LevelsOk(cl, dep, c, ys, i) && LevelsOk(cl, dep, C0, T, i - 1)
    && |ys| == |T| && |c| == |C0|
    && 0 <= oldl < |ys| && ys[oldl] <= p
    && (forall l :: oldl < l < |ys| ==> c[l] == C0[l])
    && 0 <= oldc < |cl|
    && (oldc == C0[oldl] || (oldl + 1 < |ys| && ys[oldl + 1] <= p && cl[oldc].y <= p))
  }

  /** The predecessor that stone picks for level l was at level l - 1 before this row. */
  lemma PredecessorOk(cl: seq<Cand>, dep: seq<nat>, c: seq<int>, ys: seq<int>,
                      C0: seq<int>, T: seq<int>, oldl: int, oldc: int, p: int, i: int, y: int, l: int)
    requires RowState(cl, dep, c, ys, C0, T, oldl, oldc, p, i)
    requires p < y && cl[oldc].y < y
    requires 1 <= l <= |ys| && ys[l - 1] < y && (l < |ys| ==> y <= ys[l])
    ensures oldl < l && T[l - 1] < y
    ensures LevelOk(cl, dep, if l == oldl + 1 then oldc else c[l - 1], T[l - 1], l - 1, i - 1)
    ensures l < |ys| ==> ys[l] == T[l]
  {
    if l <= oldl {
      assert false;
    }
    if l < |ys| {
      assert LevelOk(cl, dep, c[l], ys[l], l, i) && LevelOk(cl, dep, C0[l], T[l], l, i - 1);
    }
    assert LevelOk(cl, dep, C0[l - 1], T[l - 1], l - 1, i - 1);
    if l > oldl + 1 {
      assert LevelOk(cl, dep, c[l - 1], ys[l - 1], l - 1, i);
    }
  }

  /** A match at or below oldc's threshold: oldc is then level oldl's old candidate. */
  lemma SkipOk(cl: seq<Cand>, dep: seq<nat>, c: seq<int>, ys: seq<int>,
               C0: seq<int>, T: seq<int>, oldl: int, oldc: int, p: int, i: int, y: int)
    requires RowState(cl, dep, c, ys, C0, T, oldl, oldc, p, i)
    requires p < y <= cl[oldc].y
    ensures RowState(cl, dep, c, ys, C0, T, oldl, oldc, y, i)
    ensures ys[oldl] <= y <= T[oldl] && Increasing(T) && Increasing(ys)
  {
    assert LevelOk(cl, dep, C0[oldl], T[oldl], oldl, i - 1);
  }

  /** A match that is already level l's threshold. */
  lemma EqualOk(cl: seq<Cand>, dep: seq<nat>, c: seq<int>, ys: seq<int>,
                C0: seq<int>, T: seq<int>, oldl: int, oldc: int, p: int, i: int, y: int, l: int)
    requires RowState(cl, dep, c, ys, C0, T, oldl, oldc, p, i)
    requires oldl < l < |ys| && p < y && cl[oldc].y < y && ys[l] == y
    ensures RowState(cl, dep, c, ys, C0, T, oldl, if l == oldl + 1 then oldc else c[l - 1], y, i)
  {
    assert LevelOk(cl, dep, c[l - 1], ys[l - 1], l - 1, i);
    assert ys[oldl + 1] <= ys[l];
  }

  lemma RowFacts(A: seq<int>, B: seq<int>, cl: seq<Cand>, dep: seq<nat>, c: seq<int>, ys: seq<int>,
                 C0: seq<int>, T: seq<int>, oldl: int, oldc: int, p: int, i: int, y: int)
    requires 1 <= i <= |A| && RowState(cl, dep, c, ys, C0, T, oldl, oldc, p, i) && NextMatch(A, B, i - 1, p, y)
    ensures LevelsOk(cl, dep, c, ys, i) && Increasing(ys) && Increasing(T) && ys[0] == 0 && p < y
    ensures |ys| == |T| && 1 <= |ys| <= |c| && 0 <= oldl < |ys| && ys[oldl] <= p && 0 <= oldc < |cl|
  {
  }

  lemma LevelsRead(cl: seq<Cand>, dep: seq<nat>, c: seq<int>, ys: seq<int>, i: int)
    requires LevelsOk(cl, dep, c, ys, i)
    ensures forall l :: 0 <= l < |ys| ==> 0 <= c[l] < |cl| && cl[c[l]].y == ys[l]
  {
    forall l | 0 <= l < |ys|
      ensures 0 <= c[l] < |cl| && cl[c[l]].y == ys[l]
    {
      assert LevelOk(cl, dep, c[l], ys[l], l, i);
    }
  }

  lemma LevelsLater(cl: seq<Cand>, dep: seq<nat>, c: seq<int>, ys: seq<int>, i: int)
    requires LevelsOk(cl, dep, c, ys, i - 1)
    ensures LevelsOk(cl, dep, c, ys, i)
  {
    forall l | 0 <= l < |ys|
      ensures LevelOk(cl, dep, c[l], ys[l], l, i)
    {
      assert LevelOk(cl, dep, c[l], ys[l], l, i - 1);
    }
  }

  /** Appending a candidate keeps every level. */
  lemma LevelsKept(cl: seq<Cand>, dep: seq<nat>, c: seq<int>, ys: seq<int>, i: int, q: Cand, d: nat)
    requires LevelsOk(cl, dep, c, ys, i)
    ensures LevelsOk(cl + [q], dep + [d], c, ys, i)
  {
    forall l | 0 <= l < |ys|
      ensures LevelOk(cl + [q], dep + [d], c[l], ys[l], l, i)
    {
      assert LevelOk(cl, dep, c[l], ys[l], l, i);
    }
  }

  /** Level l now ends in the new candidate. */
  lemma LevelReplaced(cl: seq<Cand>, dep: seq<nat>, c: seq<int>, ys: seq<int>, i: int, l: nat, q: Cand)
    requires LevelsOk(cl, dep, c, ys, i) && 1 <= l < |ys|
    requires Increasing(ys[l := q.y]) && q.x <= i
    ensures LevelsOk(cl + [q], dep + [l], c[l := |cl|], ys[l := q.y], i)
  {
    var c', ys' := c[l := |cl|], ys[l := q.y];
    forall m | 0 <= m < |ys'|
      ensures LevelOk(cl + [q], dep + [l], c'[m], ys'[m], m, i)
    {
      assert LevelOk(cl, dep, c[m], ys[m], m, i);
    }
  }

  lemma LevelAdded(cl: seq<Cand>, dep: seq<nat>, c: seq<int>, ys: seq<int>, i: int, q: Cand)
    requires LevelsOk(cl, dep, c, ys, i) && |ys| < |c|
    requires Increasing(ys + [q.y]) && q.x <= i
    ensures LevelsOk(cl + [q], dep + [|ys|], c[|ys| := |cl|], ys + [q.y], i)
  {
    var c', ys' := c[|ys| := |cl|], ys + [q.y];
    assert LevelOk(cl, dep, c[0], ys[0], 0, i);
    forall m | 0 <= m < |ys'|
      ensures LevelOk(cl + [q], dep + [|ys|], c'[m], ys'[m], m, i)
    {
      if m < |ys| {
        assert LevelOk(cl, dep, c[m], ys[m], m, i);
      }
    }
  }

  lemma RowStateReplaced(cl: seq<Cand>, dep: seq<nat>, c: seq<int>, ys: seq<int>,
                         C0: seq<int>, T: seq<int>, oldl: int, oldc: int, p: int, i: int,
                         l: nat, q: Cand)
    requires RowState(cl, dep, c, ys, C0, T, oldl, oldc, p, i)
    requires oldl < l < |ys| && Increasing(ys[l := q.y]) && q.x <= i && p < q.y
    ensures RowState(cl + [q], dep + [l], c[l := |cl|], ys[l := q.y], C0, T, l, c[l], q.y, i)
  {
    LevelReplaced(cl, dep, c, ys, i, l, q);
    LevelsKept(cl, dep, C0, T, i - 1, q, l);
    assert LevelOk(cl, dep, c[l], ys[l], l, i);
  }

  // ----- the engine

  lemma ClassAt(A: seq<int>, B: seq<int>, a: seq<int>, b: seq<int>, i: int)
    requires Classes(A, B, a, b) && 1 <= i <= |A|
    ensures |A| < |a| && ClassOf(A, B, a, b, i)
  {
  }

  /** diff's global candidate list. */
  class Matcher {
    var clist: seq<Cand>
    ghost var depth: seq<nat>

    constructor ()
      ensures clist == [] && depth == []
    {
      clist, depth := [], [];
    }

    /** newcand: append a candidate and return its index. */
    method NewCand(x: int, y: int, pred: int, ghost d: nat) returns (r: int)
      requires |clist| == |depth|
      modifies this
      ensures r == old(|clist|)
      ensures clist == old(clist) + [Cand(x, y, pred)]
      ensures depth == old(depth) + [d]
    {
      r := |clist|;
      clist := clist + [Cand(x, y, pred)];
      depth := depth + [d];
    }

    /** search: the level l at which y belongs, by bisection. */
    method Search(c: array<int>, k: nat, y: int, ghost ys: seq<int>) returns (l: int)
      requires k + 1 == |ys| <= c.Length && Increasing(ys) && ys[0] < y
      requires forall t :: 0 <= t <= k ==> 0 <= c[t] < |clist| && clist[c[t]].y == ys[t]
      ensures 1 <= l <= k + 1
      ensures ys[l - 1] < y && (l <= k ==> y <= ys[l])
    {
      if clist[c[k]].y < y {
        return k + 1;
      }
      var i, j := 0, k + 1;
      l := (i + j) / 2;
      while l > i
        invariant 0 <= i < j <= k + 1 && l == (i + j) / 2
        invariant ys[i] < y && (j <= k ==> y < ys[j]) && y <= ys[k]
        decreases j - i
      {
        var t := clist[c[l]].y;
        if t > y {
          j := l;
        } else if t < y {
          i := l;
        } else {
          return l;
        }
        l := (i + j) / 2;
      }
      l := l + 1;
    }

    method Read(c: array<int>, l: nat, ghost ys: seq<int>, ghost i: int) returns (y: int)
      requires LevelsOk(clist, depth, c[..], ys, i) && l < |ys|
      ensures y == ys[l] == clist[c[l]].y
    {
      LevelsRead(clist, depth, c[..], ys, i);
      y := clist[c[l]].y;
    }

    /** Level l is moved down to (i, y); the level's old candidate becomes oldc. */
    method Replace(ghost A: seq<int>, ghost B: seq<int>, i: int, y: int, c: array<int>, l: int, pred: int,
                   ghost oldl: int, ghost oldc: int,
                   ghost ys: seq<int>, ghost C0: seq<int>, ghost T: seq<int>, ghost p: int)
      returns (tc: int)
      requires 1 <= i <= |A| && |T| <= c.Length
      requires CandsOk(A, B, clist, depth)
      requires RowState(clist, depth, c[..], ys, C0, T, oldl, oldc, p, i)
      requires PartialRow(A, B, i - 1, T, ys, p) && NextMatch(A, B, i - 1, p, y)
      requires 0 <= oldl < l < |ys| && ys[l - 1] < y < ys[l] == T[l] && T[l - 1] < y
      requires LevelOk(clist, depth, pred, T[l - 1], l - 1, i - 1)
      modifies this, c
      ensures CandsOk(A, B, clist, depth)
      ensures RowState(clist, depth, c[..], ys[l := y], C0, T, l, tc, y, i)
      ensures PartialRow(A, B, i - 1, T, ys[l := y], y)
    {
      hide CandsOk, PartialRow, RowState, Increasing;
      RowFacts(A, B, clist, depth, c[..], ys, C0, T, oldl, oldc, p, i, y);
      ghost var cl, dep, cs := clist, depth, c[..];
      RowReplaces(A, B, i - 1, T, ys, p, y, l);
      CandAppended(A, B, cl, dep, i, y, pred);
      RowStateReplaced(cl, dep, cs, ys, C0, T, oldl, oldc, p, i, l, Cand(i, y, pred));
      tc := c[l];
      var q := NewCand(i, y, pred, l);
      c[l] := q;
      assert c[..] == cs[l := q];
    }

    /** A new longest chain ends in (i, y). */
    method Extend(ghost A: seq<int>, ghost B: seq<int>, i: int, y: int, c: array<int>, l: nat, pred: int,
                  ghost ys: seq<int>, ghost T: seq<int>, ghost p: int)
      requires 1 <= i <= |A| && l == |ys| == |T| < c.Length
      requires CandsOk(A, B, clist, depth) && LevelsOk(clist, depth, c[..], ys, i)
      requires PartialRow(A, B, i - 1, T, ys, p) && NextMatch(A, B, i - 1, p, y) && Increasing(T)
      requires ys[l - 1] < y && T[l - 1] < y
      requires LevelOk(clist, depth, pred, T[l - 1], l - 1, i - 1)
      modifies this, c
      ensures CandsOk(A, B, clist, depth) && LevelsOk(clist, depth, c[..], ys + [y], i)
      ensures PartialRow(A, B, i - 1, T, ys + [y], |B|)
    {
      ghost var cl, dep, cs := clist, depth, c[..];
      RowExtends(A, B, i - 1, T, ys, p, y);
      CandAppended(A, B, cl, dep, i, y, pred);
      LevelAdded(cl, dep, cs, ys, i, Cand(i, y, pred));
      var q := NewCand(i, y, pred, l);
      c[l] := q;
      assert c[..] == cs[l := q];
    }

    /** The rest of the loop body for a match (i, y) above oldc. */
    method Place(ghost A: seq<int>, ghost B: seq<int>, i: int, y: int, c: array<int>, k: nat, oldl: int, oldc: int,
                 ghost ys: seq<int>, ghost C0: seq<int>, ghost T: seq<int>, ghost p: int)
      returns (newl: int, newc: int, replaced: bool, extended: bool, ghost ys': seq<int>)
      requires 1 <= i <= |A| && |T| == k + 1 < c.Length
      requires CandsOk(A, B, clist, depth)
      requires RowState(clist, depth, c[..], ys, C0, T, oldl, oldc, p, i)
      requires PartialRow(A, B, i - 1, T, ys, p) && NextMatch(A, B, i - 1, p, y)
      requires clist[oldc].y < y
      modifies this, c
      ensures CandsOk(A, B, clist, depth)
      ensures !extended ==> RowState(clist, depth, c[..], ys', C0, T, newl, newc, y, i)
      ensures !extended ==> PartialRow(A, B, i - 1, T, ys', y)
      ensures extended ==> |ys'| == k + 2 && LevelsOk(clist, depth, c[..], ys', i)
      ensures extended ==> PartialRow(A, B, i - 1, T, ys', |B|)
    {
      hide CandsOk, PartialRow, NextMatch, LevelsOk, RowState, Increasing;
      RowFacts(A, B, clist, depth, c[..], ys, C0, T, oldl, oldc, p, i, y);
      newl, newc, replaced, extended, ys' := oldl, oldc, false, false, ys;
      var l := Search(c, k, y, ys) by {
        LevelsRead(clist, depth, c[..], ys, i);
      }
      PredecessorOk(clist, depth, c[..], ys, C0, T, oldl, oldc, p, i, y, l);
      if l != oldl + 1 {
        newc := c[l - 1];
      }
      if l > k {
        Extend(A, B, i, y, c, l, newc, ys, T, p);
        ys', extended := ys + [y], true;
        return;
      }
      var yl := Read(c, l, ys, i);
      if yl <= y {
        RowSkips(A, B, i - 1, T, ys, p, y, l);
        EqualOk(clist, depth, c[..], ys, C0, T, oldl, oldc, p, i, y, l);
      } else {
        newc := Replace(A, B, i, y, c, l, newc, oldl, oldc, ys, C0, T, p);
        newl, ys', replaced := l, ys[l := y], true;
      }
    }

    /** The body of stone's do-while loop: one match (i, y). */
    method Try(ghost A: seq<int>, ghost B: seq<int>, i: int, y: int, c: array<int>, k: nat, oldl: int, oldc: int,
               ghost ys: seq<int>, ghost C0: seq<int>, ghost T: seq<int>, ghost p: int)
      returns (newl: int, newc: int, replaced: bool, extended: bool, ghost ys': seq<int>)
      requires 1 <= i <= |A| && |T| == k + 1 < c.Length
      requires CandsOk(A, B, clist, depth)
      requires RowState(clist, depth, c[..], ys, C0, T, oldl, oldc, p, i)
      requires PartialRow(A, B, i - 1, T, ys, p) && NextMatch(A, B, i - 1, p, y)
      modifies this, c
      ensures CandsOk(A, B, clist, depth)
      ensures !extended ==> RowState(clist, depth, c[..], ys', C0, T, newl, newc, y, i)
      ensures !extended ==> PartialRow(A, B, i - 1, T, ys', y)
      ensures extended ==> |ys'| == k + 2 && LevelsOk(clist, depth, c[..], ys', i)
      ensures extended ==> PartialRow(A, B, i - 1, T, ys', |B|)
    {
      if y <= clist[oldc].y {
        newl, newc, replaced, extended, ys' := oldl, oldc, false, false, ys;
        SkipOk(clist, depth, c[..], ys, C0, T, oldl, oldc, p, i, y);
        RowSkips(A, B, i - 1, T, ys, p, y, oldl);
      } else {
        newl, newc, replaced, extended, ys' := Place(A, B, i, y, c, k, oldl, oldc, ys, C0, T, p);
      }
    }

    /** The do-while loop of stone for old line i, whose class starts at b[j0]. */
    method Row(ghost A: seq<int>, ghost B: seq<int>, i: int, b: array<int>, j0: int, ghost ms: seq<int>,
               c: array<int>, k0: nat, bound: nat, ghost T: seq<int>)
      returns (k: nat, ghost ys: seq<int>, ghost p: int)
      requires 1 <= i <= |A| && |T| == k0 + 1 < c.Length && b != c
      requires MatchList(A, B, i - 1, b[..], j0, ms)
      requires CandsOk(A, B, clist, depth) && LevelsOk(clist, depth, c[..], T, i - 1)
      modifies this, c
      ensures |ys| == k + 1 && k0 <= k <= k0 + 1
      ensures CandsOk(A, B, clist, depth) && LevelsOk(clist, depth, c[..], ys, i)
      ensures PartialRow(A, B, i - 1, T, ys, p) && (|ms| - 1 <= bound ==> p == |B|)
      ensures forall t :: 1 <= t < |ms| && t <= bound ==> ms[t] <= p
    {
      hide CandsOk, PartialRow, NextMatch;
      ghost var C0, bs := c[..], b[..];
      ghost var t := 1;
      k, ys, p := k0, T, |B|;
      var j := j0;
      var y := -b[j];
      var oldl, oldc, numtries := 0, c[0], 0;
      LevelsLater(clist, depth, C0, T, i);
      RowStarts(A, B, i - 1, T);
      var more := true;
      while more
        invariant k == k0 && 1 <= t <= |ms| && j == j0 + t - 1 && 0 <= numtries < t
        invariant CandsOk(A, B, clist, depth)
        invariant RowState(clist, depth, c[..], ys, C0, T, oldl, oldc, ms[t - 1], i)
        invariant PartialRow(A, B, i - 1, T, ys, ms[t - 1])
        invariant more ==> t < |ms| && y == ms[t]
        invariant !more ==> t == |ms| || numtries >= bound
        decreases |ms| - t, more
      {
        assert MatchAfter(A, B, i - 1, ms, t);
        var replaced, extended;
        oldl, oldc, replaced, extended, ys := Try(A, B, i, y, c, k, oldl, oldc, ys, C0, T, ms[t - 1]);
        if extended {
          k := k + 1;
          FirstTried(A, B, i - 1, bs, j0, ms, |ms| - 1, bound);
          InOrder(A, B, i - 1, bs, j0, ms, |ms| - 1, |ms| - 1);
          return;
        }
        if replaced {
          numtries := numtries + 1;
        }
        t := t + 1;
        j := j + 1;
        y := b[j];
        assert y == bs[j] && (t < |ms| ==> y == ms[t]);
        more := y > 0 && numtries < bound;
      }
      FirstTried(A, B, i - 1, bs, j0, ms, t - 1, bound);
      InOrder(A, B, i - 1, bs, j0, ms, t - 1, |ms| - 1);
      if |ms| - 1 > bound {
        p := ms[t - 1];
      } else {
        RowMoves(A, B, i - 1, T, ys, ms[|ms| - 1], |B|);
      }
    }

    /** stone: k is the length of the longest chain found; c[k] is its last candidate.
        Whatever the bound on the number of tries, c[k] is the end of a common
        subsequence of length k; with a bound that a row cannot reach (D_MINIMAL), k is
        the length of a longest one, and c holds the thresholds of every length. */
    method Stone(ghost A: seq<int>, ghost B: seq<int>, a: array<int>, n: nat, b: array<int>, c: array<int>, bound: nat)
      returns (k: nat, ghost ys: seq<int>)
      requires n == |A| && c.Length == n + 2 && b != c && a != c
      requires Classes(A, B, a[..], b[..])
      requires clist == [] && depth == []
      modifies this, c
      ensures CandsOk(A, B, clist, depth) && LevelsOk(clist, depth, c[..], ys, n) && |ys| == k + 1
      ensures Reaches(A, B, bound, n, ys)
      ensures ClassesFit(A, B, bound) ==> Thresholds(A, B, n, ys) && k == Lcs(A, B, |A|, |B|)
    {
      hide Reaches, Classes;
      k := 0;
      ReachesNothing(A, B, bound);
      c[0] := NewCand(0, 0, 0, 0);
      ys := [0];
      var i := 1;
      while i <= n
        invariant 1 <= i <= n + 1 && k < i && |ys| == k + 1 && Classes(A, B, a[..], b[..])
        invariant CandsOk(A, B, clist, depth) && LevelsOk(clist, depth, c[..], ys, i - 1)
        invariant Reaches(A, B, bound, i - 1, ys)
        invariant ClassesFit(A, B, bound) ==> Thresholds(A, B, i - 1, ys)
      {
        k, ys := OldLine(A, B, i, a, b, c, k, bound, ys);
        i := i + 1;
      }
    }

    /** One iteration of stone's outer loop. */
    method OldLine(ghost A: seq<int>, ghost B: seq<int>, i: int, a: array<int>, b: array<int>,
                   c: array<int>, k0: nat, bound: nat, ghost T: seq<int>)
      returns (k: nat, ghost ys: seq<int>)
      requires 1 <= i <= |A| && |T| == k0 + 1 < c.Length && b != c && a != c
      requires Classes(A, B, a[..], b[..])
      requires CandsOk(A, B, clist, depth) && LevelsOk(clist, depth, c[..], T, i - 1)
      requires Reaches(A, B, bound, i - 1, T)
      requires ClassesFit(A, B, bound) ==> Thresholds(A, B, i - 1, T)
      modifies this, c
      ensures |ys| == k + 1 && k0 <= k <= k0 + 1
      ensures CandsOk(A, B, clist, depth) && LevelsOk(clist, depth, c[..], ys, i)
      ensures Reaches(A, B, bound, i, ys)
      ensures ClassesFit(A, B, bound) ==> Thresholds(A, B, i, ys)
    {
      hide CandsOk, Thresholds, PartialRow, MatchList, Classes, Reaches;
      ClassAt(A, B, a[..], b[..], i);
      var j := a[i];
      ghost var p := |B|;
      if j == 0 {
        k, ys := k0, T;
        LevelsLater(clist, depth, c[..], ys, i);
        EmptyRow(A, B, i - 1, T);
      } else {
        ghost var e :| ClassRun(B, b[..], j, e, A[i - 1]);
        ghost var ms := RunIsMatchList(A, B, i - 1, b[..], j, e);
        RunCount(B, b[..], j, e, A[i - 1]);
        k, ys, p := Row(A, B, i, b, j, ms, c, k0, bound, T);
        RunTried(A, B, i - 1, b[..], j, e, bound, p);
      }
      ReachesNext(A, B, bound, i - 1, T, ys, p);
      if ClassesFit(A, B, bound) {
        RowDone(A, B, i - 1, T, ys);
      }
    }
  }
}
