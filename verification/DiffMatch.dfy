/**
 The matching J of diff: unravel, check and the pipeline of diffreg in
 cmd/posix/diff.c, from two files of lines to a table J in which J[i] is the new line
 matched with old line i, or 0.
 */
module DiffMatch {
  import opened Basics
  import opened CommonSubsequence
  import opened DiffSort
  import opened DiffStone
  import opened DiffClasses

  /** The non-zero entries of J are strictly increasing and pair equal values. */
  ghost predicate MatchTable<T>(A: seq<T>, B: seq<T>, J: seq<int>)
  {
    && |A| < |J|
    && (forall i :: 1 <= i <= |A| && J[i] != 0 ==> 1 <= J[i] <= |B| && A[i - 1] == B[J[i] - 1])
    && (forall i, i' :: 1 <= i < i' <= |A| && J[i] != 0 && J[i'] != 0 ==> J[i] < J[i'])
  }

  /** The number of old lines among the first i that are matched. */
  ghost function Matched(J: seq<int>, i: nat): (r: nat)
    requires i < |J|
  {
    if i == 0 then 0 else Matched(J, i - 1) + (if J[i] != 0 then 1 else 0)
  }

  // ----- matched lines form a common subsequence, so they are at most the longest one

  ghost function PairsOf(J: seq<int>, i: nat): (ps: seq<Pair>)
    requires i < |J|
    ensures |ps| == Matched(J, i)
  {
    if i == 0 then [] else if J[i] != 0 then PairsOf(J, i - 1) + [(i, J[i])] else PairsOf(J, i - 1)
  }

  /** An entry of the table pairs equal lines, after all pairs before it. */
  lemma MatchedPair(A: seq<int>, B: seq<int>, J: seq<int>, i: nat)
    requires MatchTable(A, B, J) && 1 <= i <= |A|
    ensures J[i] != 0 ==> 1 <= J[i] <= |B| && A[i - 1] == B[J[i] - 1]
    ensures J[i] != 0 ==> forall k :: 1 <= k < i && J[k] != 0 ==> J[k] < J[i]
  {
  }

  /** ps are entries of J up to i. */
  ghost predicate Entries(J: seq<int>, ps: seq<Pair>, i: int)
    requires i < |J|
  {
    forall k :: 0 <= k < |ps| ==> 1 <= ps[k].0 <= i && J[ps[k].0] == ps[k].1 != 0
  }

  lemma EntriesGrow(J: seq<int>, ps: seq<Pair>, i: nat)
    requires 1 <= i < |J| && Entries(J, ps, i - 1)
    requires J[i] != 0 ==> forall k :: 1 <= k < i && J[k] != 0 ==> J[k] < J[i]
    ensures Entries(J, ps, i) && (J[i] != 0 ==> Entries(J, ps + [(i, J[i])], i))
    ensures J[i] != 0 ==> forall k :: 0 <= k < |ps| ==> ps[k].1 < J[i]
  {
  }

  lemma PairsNext(J: seq<int>, i: nat)
    requires 1 <= i < |J|
    ensures PairsOf(J, i) == if J[i] != 0 then PairsOf(J, i - 1) + [(i, J[i])] else PairsOf(J, i - 1)
  {
  }

  lemma MatchingLater(A: seq<int>, B: seq<int>, ps: seq<Pair>, i: nat)
    requires i > 0 && IsMatching(A, B, ps, i - 1, |B|)
    ensures IsMatching(A, B, ps, i, |B|)
  {
  }

  lemma MatchingGrows(A: seq<int>, B: seq<int>, ps: seq<Pair>, i: nat, y: int)
    requires 1 <= i <= |A| && 1 <= y <= |B| && A[i - 1] == B[y - 1] && IsMatching(A, B, ps, i - 1, |B|)
    requires forall k :: 0 <= k < |ps| ==> ps[k].1 < y
    ensures IsMatching(A, B, ps + [(i, y)], i, |B|)
  {
  }

  lemma {:induction false} PairsAreMatching(A: seq<int>, B: seq<int>, J: seq<int>, i: nat)
    requires MatchTable(A, B, J) && i <= |A|
    ensures IsMatching(A, B, PairsOf(J, i), i, |B|)
    ensures Entries(J, PairsOf(J, i), i)
  {
    if i > 0 {
      hide Matched, PairsOf, MatchTable, IsMatching, Entries;
      PairsAreMatching(A, B, J, i - 1);
      MatchedPair(A, B, J, i);
      PairsNext(J, i);
      var ps := PairsOf(J, i - 1);
      EntriesGrow(J, ps, i);
      if J[i] != 0 {
        MatchingGrows(A, B, ps, i, J[i]);
      } else {
        MatchingLater(A, B, ps, i);
      }
    }
  }

  lemma MatchedAtMostLcs(A: seq<int>, B: seq<int>, J: seq<int>)
    requires MatchTable(A, B, J)
    ensures Matched(J, |A|) <= Lcs(A, B, |A|, |B|)
  {
    PairsAreMatching(A, B, J, |A|);
    LcsIsUpperBound(A, B, PairsOf(J, |A|), |A|, |B|);
  }

  lemma {:induction false} MatchedUpdate(J: seq<int>, x: nat, v: int, i: nat)
    requires 1 <= x < |J| && i < |J| && J[x] == 0 && v != 0
    ensures Matched(J[x := v], i) == Matched(J, i) + (if x <= i then 1 else 0)
  {
    if i > 0 {
      MatchedUpdate(J, x, v, i - 1);
    }
  }

  // ----- unravel

  /** J before the chain is written into it. */
  function Ends(i: nat, pref: nat, suff: nat, len0: nat, len1: nat): int
  {
    if i <= pref then i else if i > len0 - suff then i + len1 - len0 else 0
  }

  lemma {:induction false} MatchedEnds(J: seq<int>, i: nat, pref: nat, suff: nat, len0: nat, len1: nat)
    requires pref + suff <= len0 && pref + suff <= len1 && i <= len0 < |J|
    requires forall t :: 0 <= t <= len0 ==> J[t] == Ends(t, pref, suff, len0, len1)
    ensures Matched(J, i) == if i <= pref then i else if i <= len0 - suff then pref else pref + i - (len0 - suff)
  {
    if i > 0 {
      MatchedEnds(J, i - 1, pref, suff, len0, len1);
    }
  }

  /** Everything at or below old line x is still unmatched past the prefix, and
      everything matched above it lies beyond new line y. */
  ghost predicate Below(J: seq<int>, pref: nat, len0: nat, x: int, y: int)
  {
    && len0 < |J|
    && (forall i :: pref < i <= len0 && i <= x ==> J[i] == 0)
    && (forall i :: pref < i <= len0 && x < i && J[i] != 0 ==> y < J[i])
  }

  lemma ChainStep(A: seq<int>, B: seq<int>, J: seq<int>, pref: nat, suff: nat, x: int, y: int,
                  x': int, y': int)
    requires MatchTable(A, B, J) && pref + suff <= |A| && x' < x && y' < y
    requires forall i :: 0 <= i <= pref ==> J[i] == i
    requires pref < x <= |A| - suff && pref < y <= |B| && A[x - 1] == B[y - 1]
    requires Below(J, pref, |A|, x, y)
    ensures MatchTable(A, B, J[x := y])
    ensures Below(J[x := y], pref, |A|, x', y')
  {
  }

  lemma EndsAreMatched(A: seq<int>, B: seq<int>, J: seq<int>, pref: nat, suff: nat, x: int, y: int)
    requires |J| == |A| + 2 && pref + suff <= |A| && pref + suff <= |B|
    requires forall k :: 0 <= k < pref ==> A[k] == B[k]
    requires forall k :: |A| - suff <= k < |A| ==> A[k] == B[k + |B| - |A|]
    requires forall t :: 0 <= t <= |A| ==> J[t] == Ends(t, pref, suff, |A|, |B|)
    requires x <= |A| - suff && y <= |B| - suff
    ensures MatchTable(A, B, J) && Below(J, pref, |A|, x, y)
    ensures Matched(J, |A|) == pref + suff
  {
    MatchedEnds(J, |A|, pref, suff, |A|, |B|);
    forall i | 1 <= i <= |A| && J[i] != 0
      ensures 1 <= J[i] <= |B| && A[i - 1] == B[J[i] - 1]
    {
      if i > pref {
        assert A[i - 1] == B[i - 1 + |B| - |A|];
      }
    }
  }

  /** A candidate of the pruned files, seen in the whole files. */
  lemma CandInFile(A: seq<int>, B: seq<int>, pref: nat, suff: nat, cl: seq<Cand>, dep: seq<nat>, q: int)
    requires pref + suff <= |A| && pref + suff <= |B|
    requires CandsOk(A[pref..|A| - suff], B[pref..|B| - suff], cl, dep) && 0 <= q < |cl|
    ensures cl[q].y == 0 <==> q == 0
    ensures cl[q].x + pref <= |A| - suff && cl[q].y + pref <= |B| - suff
    ensures q > 0 ==>
      && 1 <= cl[q].x && 1 <= cl[q].y
      && A[cl[q].x + pref - 1] == B[cl[q].y + pref - 1]
      && 0 <= cl[q].pred < q
      && cl[cl[q].pred].x < cl[q].x && cl[cl[q].pred].y < cl[q].y
      && dep[q] == dep[cl[q].pred] + 1
  {
    if q > 0 {
      assert CandOk(A[pref..|A| - suff], B[pref..|B| - suff], cl, dep, q);
    }
  }

  /** The first loop of unravel. */
  method FillEnds(J: array<int>, pref: nat, suff: nat, len0: nat, len1: nat)
    requires J.Length == len0 + 2
    modifies J
    ensures forall t :: 0 <= t <= len0 ==> J[t] == Ends(t, pref, suff, len0, len1)
  {
    for i := 0 to len0 + 1
      invariant forall t :: 0 <= t < i ==> J[t] == Ends(t, pref, suff, len0, len1)
    {
      J[i] := Ends(i, pref, suff, len0, len1);
    }
  }

  /** State of unravel's walk when it has reached candidate (x, y), with n lines matched. */
  ghost predicate Unravelled(A: seq<int>, B: seq<int>, J: seq<int>, pref: nat, x: int, y: int, n: int)
  {
    && MatchTable(A, B, J)
    && (forall i :: 0 <= i <= pref && i < |J| ==> J[i] == i)
    && Below(J, pref, |A|, x + pref, y + pref)
    && Matched(J, |A|) == n
  }

  lemma UnravelStep(A: seq<int>, B: seq<int>, J: seq<int>, pref: nat, suff: nat, cl: seq<Cand>, dep: seq<nat>,
                    q: int, n: int)
    requires pref + suff <= |A| && pref + suff <= |B|
    requires CandsOk(A[pref..|A| - suff], B[pref..|B| - suff], cl, dep) && 0 < q < |cl|
    requires Unravelled(A, B, J, pref, cl[q].x, cl[q].y, n)
    ensures 0 <= cl[q].pred < q && dep[q] == dep[cl[q].pred] + 1
    ensures 0 <= cl[q].x + pref < |J|
    ensures var r := cl[cl[q].pred];
            Unravelled(A, B, J[cl[q].x + pref := cl[q].y + pref], pref, r.x, r.y, n + 1)
  {
    hide CandsOk, Matched;
    var c := cl[q];
    CandInFile(A, B, pref, suff, cl, dep, q);
    ChainStep(A, B, J, pref, suff, c.x + pref, c.y + pref, cl[c.pred].x + pref, cl[c.pred].y + pref);
    MatchedUpdate(J, c.x + pref, c.y + pref, |A|);
  }

  method Write(J: array<int>, x: int, v: int)
    requires 0 <= x < J.Length
    modifies J
    ensures J[..] == old(J[..])[x := v]
  {
    J[x] := v;
  }

  /** unravel: write the chain of candidate p, shifted past the prefix, into J. */
  method Unravel(g: Matcher, p: int, J: array<int>, ghost A: seq<int>, ghost B: seq<int>,
                 pref: nat, suff: nat, len0: nat, len1: nat)
    requires len0 == |A| && len1 == |B| && J.Length == len0 + 2
    requires pref + suff <= len0 && pref + suff <= len1
    requires forall k :: 0 <= k < pref ==> A[k] == B[k]
    requires forall k :: len0 - suff <= k < len0 ==> A[k] == B[k + len1 - len0]
    requires CandsOk(A[pref..len0 - suff], B[pref..len1 - suff], g.clist, g.depth)
    requires 0 <= p < |g.clist|
    modifies J
    ensures MatchTable(A, B, J[..])
    ensures Matched(J[..], len0) == pref + suff + g.depth[p]
  {
    FillEnds(J, pref, suff, len0, len1);
    CandInFile(A, B, pref, suff, g.clist, g.depth, p);
    EndsAreMatched(A, B, J[..], pref, suff, g.clist[p].x + pref, g.clist[p].y + pref);
    WriteChain(g.clist, g.depth, p, J, A, B, pref, suff);
  }

  /** The second loop of unravel. */
  method WriteChain(clist: seq<Cand>, ghost dep: seq<nat>, p: int, J: array<int>,
                    ghost A: seq<int>, ghost B: seq<int>, pref: nat, ghost suff: nat)
    requires pref + suff <= |A| && pref + suff <= |B| && 0 <= p < |clist|
    requires CandsOk(A[pref..|A| - suff], B[pref..|B| - suff], clist, dep)
    requires Unravelled(A, B, J[..], pref, clist[p].x, clist[p].y, pref + suff)
    modifies J
    ensures MatchTable(A, B, J[..])
    ensures Matched(J[..], |A|) == pref + suff + dep[p]
  {
    hide CandsOk, Unravelled, MatchTable, Matched;
    var q := p;
    ghost var s, n := J[..], pref + suff;
    DepthsFit(A[pref..|A| - suff], B[pref..|B| - suff], clist, dep);
    CandInFile(A, B, pref, suff, clist, dep, q);
    while clist[q].y != 0
      invariant 0 <= q < |clist| && (clist[q].y == 0 <==> q == 0)
      invariant J[..] == s && n == pref + suff + dep[p] - dep[q]
      invariant Unravelled(A, B, s, pref, clist[q].x, clist[q].y, n)
      decreases q
    {
      var c := clist[q];
      UnravelStep(A, B, s, pref, suff, clist, dep, q, n);
      Write(J, c.x + pref, c.y + pref);
      s, n := s[c.x + pref := c.y + pref], n + 1;
      q := c.pred;
      CandInFile(A, B, pref, suff, clist, dep, q);
    }
    UnravelDone(A, B, s, pref, clist[q].x, clist[q].y, n);
  }

  lemma DepthsFit(A: seq<int>, B: seq<int>, cl: seq<Cand>, dep: seq<nat>)
    requires CandsOk(A, B, cl, dep)
    ensures 1 <= |cl| == |dep| && dep[0] == 0
  {
  }

  lemma UnravelDone(A: seq<int>, B: seq<int>, J: seq<int>, pref: nat, x: int, y: int, n: int)
    requires Unravelled(A, B, J, pref, x, y, n)
    ensures MatchTable(A, B, J) && |A| < |J| && Matched(J, |A|) == n
  {
  }

  // ----- reading and hashing

  const WORD: int := 0x1_0000_0000

  /** readhash with no ignore options, from a running sum. */
  function HashFrom(sum: int, line: string): int
    decreases |line|
  {
    if line == [] then sum else HashFrom((sum * 127 + line[0] as int) % WORD, line[1..])
  }

  /** The unsigned hash of a line, stored as a signed 32-bit value. */
  function Hash(line: string): int
  {
    var h := HashFrom(1, line);
    if h < WORD / 2 then h else h - WORD
  }

  ghost function Values(lines: seq<string>): (vs: seq<int>)
    ensures |vs| == |lines| && forall i :: 0 <= i < |lines| ==> vs[i] == Hash(lines[i])
  {
    seq(|lines|, i requires 0 <= i < |lines| => Hash(lines[i]))
  }

  method ReadHash(line: string) returns (h: int)
    ensures h == Hash(line)
  {
    var sum := 1;
    var i := 0;
    while i < |line|
      invariant 0 <= i <= |line|
      invariant HashFrom(1, line) == HashFrom(sum, line[i..])
    {
      assert line[i..][1..] == line[i + 1..];
      sum := (sum * 127 + line[i] as int) % WORD;
      i := i + 1;
    }
    h := if sum < WORD / 2 then sum else sum - WORD;
  }

  /** prepare: one entry per line, from index 1. */
  method Prepare(lines: seq<string>) returns (p: array<Line>)
    ensures fresh(p) && FileOf(p[..], Values(lines))
  {
    p := new Line[|lines| + 3](_ => Line(0, 0));
    var j := 0;
    while j < |lines|
      invariant 0 <= j <= |lines|
      invariant forall i :: 1 <= i <= j ==> p[i].value == Values(lines)[i - 1]
    {
      var h := ReadHash(lines[j]);
      j := j + 1;
      p[j] := p[j].(value := h);
    }
  }

  // ----- the pipeline

  method SortFile(s: array<Line>, n: nat, ghost A: seq<int>)
    requires |A| == n && s.Length == n + 2 && NumberedFile(s[..], A)
    modifies s
    ensures SortedFile(s[..], A)
  {
    ghost var t := s[..];
    Sort(s, n);
    assert s[..][1..n + 1] == s[1..n + 1] && t[1..n + 1] == old(s[1..n + 1]);
    SortedFromNumbered(t, s[..], A);
  }

  /** sort, equiv and unsort on the pruned files. */
  method Classify(s0: array<Line>, n: nat, s1: array<Line>, m: nat, ghost A: seq<int>, ghost B: seq<int>)
    returns (class_: array<int>, member: array<int>)
    requires |A| == n && |B| == m && s0 != s1
    requires s0.Length == n + 2 && NumberedFile(s0[..], A)
    requires s1.Length == m + 2 && NumberedFile(s1[..], B)
    requires ZeroNotLargest(B)
    modifies s0, s1
    ensures fresh(class_) && fresh(member) && class_ != member
    ensures Classes(A, B, class_[..], member[..])
  {
    hide Classes, NumberedFile, ClassStart;
    SortFile(s0, n, A);
    SortFile(s1, m, B);
    ghost var sa, sb := s0[..], s1[..];
    member := new int[m + 2];
    class_ := new int[n + 2];
    Label(s0, n, s1, m);
    ghost var la := s0[..];
    if m > 0 {
      LastNotZero(sb, B);
    }
    Members(s1, m, member);
    assert forall t :: 1 <= t <= m ==> s1[t] == sb[t];
    assert forall t :: 1 <= t <= m ==> member[t] == MemberAt(sb, t);
    Unsort(s0, n, class_);
    ClassesHold(A, B, sa, la, sb, class_[..], member[..]);
  }

  lemma LastLevel(cl: seq<Cand>, dep: seq<nat>, c: seq<int>, ys: seq<int>, i: int)
    requires LevelsOk(cl, dep, c, ys, i)
    ensures 1 <= |ys| <= |c| && 0 <= c[|ys| - 1] < |cl| == |dep| && dep[c[|ys| - 1]] == |ys| - 1
  {
    assert LevelOk(cl, dep, c[|ys| - 1], ys[|ys| - 1], |ys| - 1, i);
  }

  lemma PrunedStops(A: seq<int>, B: seq<int>, pref: nat, suff: nat)
    requires StopperOk(A, B) && Pruned(A, B, pref, suff)
    ensures pref <= |B| - suff && ZeroNotLargest(B[pref..|B| - suff])
  {
    hide ZeroNotLargest;
  }

  lemma PrunedFits(A: seq<int>, B: seq<int>, pref: nat, suff: nat, bound: nat)
    requires BoundFits(A, B, bound) && Pruned(A, B, pref, suff)
    ensures pref <= |A| - suff && pref <= |B| - suff && ClassesFit(A[pref..|A| - suff], B[pref..|B| - suff], bound)
  {
    hide ClassesFit;
  }

  /** prune, sort, equiv, unsort, stone and unravel. */
  method MatchValues(file0: array<Line>, file1: array<Line>, ghost A: seq<int>, ghost B: seq<int>,
                     len0: nat, len1: nat, bound: nat) returns (J: array<int>)
    requires |A| == len0 && |B| == len1 && FileOf(file0[..], A) && FileOf(file1[..], B)
    requires StopperOk(A, B)
    ensures fresh(J) && J.Length == len0 + 2
    ensures MatchTable(A, B, J[..])
    ensures NoneLonger(A, B, bound, Matched(J[..], len0))
    ensures BoundFits(A, B, bound) ==> Matched(J[..], len0) == Lcs(A, B, len0, len1)
  {
    hide FileOf, NumberedFile, Classes, CandsOk, LevelsOk, Thresholds, MatchTable, Lcs, Matched, Reaches, NoneLonger,
      StopperOk, BoundFits, ClassesFit, ZeroNotLargest;
    var pref, suff, s0, s1 := Prune(file0, file1, A, B, len0, len1);
    ghost var A', B' := A[pref..len0 - suff], B[pref..len1 - suff];
    var n, m := len0 - pref - suff, len1 - pref - suff;
    PrunedStops(A, B, pref, suff);
    var class_, member := Classify(s0, n, s1, m, A', B');
    var klist := new int[n + 2];
    var g := new Matcher();
    var k;
    ghost var ys;
    k, ys := g.Stone(A', B', class_, n, member, klist, bound);
    LastLevel(g.clist, g.depth, klist[..], ys, n);
    J := new int[len0 + 2];
    Unravel(g, klist[k], J, A, B, pref, suff, len0, len1);
    ReachesWhole(A, B, pref, suff, bound, ys);
    if BoundFits(A, B, bound) {
      PrunedFits(A, B, pref, suff, bound);
      LcsCommonEnds(A, B, pref, suff);
    }
  }

  /** What check leaves of a matched pair. */
  function Checked(old_: seq<string>, new_: seq<string>, i: nat, j: int): int
    requires 1 <= i <= |old_|
  {
    if 1 <= j <= |new_| && old_[i - 1] == new_[j - 1] then j else 0
  }

  lemma CheckKeeps(old_: seq<string>, new_: seq<string>, A: seq<int>, B: seq<int>, J: seq<int>, J': seq<int>)
    requires |A| == |old_| && |B| == |new_| && MatchTable(A, B, J) && |J'| == |J|
    requires forall i :: 1 <= i <= |old_| ==> J'[i] == Checked(old_, new_, i, J[i])
    ensures MatchTable(old_, new_, J')
  {
  }

  /** check: drop the pairs whose lines have equal values but differ. */
  method Check(J: array<int>, old_: seq<string>, new_: seq<string>)
    requires J.Length == |old_| + 2
    requires forall i :: 1 <= i <= |old_| && J[i] != 0 ==> 1 <= J[i] <= |new_|
    modifies J
    ensures forall i :: 1 <= i <= |old_| ==> J[i] == Checked(old_, new_, i, old(J[i]))
  {
    var i := 1;
    while i <= |old_|
      invariant 1 <= i <= |old_| + 1
      invariant forall t :: i <= t <= |old_| ==> J[t] == old(J[t])
      invariant forall t :: 1 <= t < i ==> J[t] == Checked(old_, new_, t, old(J[t]))
    {
      if J[i] != 0 {
        if old_[i - 1] != new_[J[i] - 1] {
          J[i] := 0;
        }
      }
      i := i + 1;
    }
  }

  /** No old line and new line have the same hash without being equal. */
  ghost predicate NoCollision(old_: seq<string>, new_: seq<string>)
  {
    forall x, y :: x in old_ && y in new_ && Hash(x) == Hash(y) ==> x == y
  }

  /** Without collisions, a common subsequence of the lines is one of the hashes, and just
      as early. */
  lemma EarlyHashes(old_: seq<string>, new_: seq<string>, ps: seq<Pair>, bound: nat)
    requires NoCollision(old_, new_) && IsMatching(old_, new_, ps, |old_|, |new_|) && AllEarly(new_, ps, bound)
    ensures IsMatching(Values(old_), Values(new_), ps, |old_|, |new_|) && AllEarly(Values(new_), ps, bound)
  {
    hide Hash;
    forall k | 0 <= k < |ps|
      ensures Early(Values(new_), ps[k].1, bound)
    {
      var y := ps[k].1;
      assert Early(new_, y, bound) && new_[y - 1] == old_[ps[k].0 - 1];
      CountHash(new_, new_[y - 1], y);
    }
  }

  lemma {:induction false} CountHash(lines: seq<string>, line: string, y: nat)
    requires y <= |lines| && forall x :: x in lines && Hash(x) == Hash(line) ==> x == line
    ensures multiset(Values(lines)[..y])[Hash(line)] <= multiset(lines[..y])[line]
  {
    hide Hash;
    if y > 0 {
      CountHash(lines, line, y - 1);
      assert lines[..y] == lines[..y - 1] + [lines[y - 1]];
      assert Values(lines)[..y] == Values(lines)[..y - 1] + [Hash(lines[y - 1])];
      assert lines[y - 1] in lines;
    }
  }

  lemma NoneLongerLines(old_: seq<string>, new_: seq<string>, bound: nat, n: int)
    requires NoCollision(old_, new_) && NoneLonger(Values(old_), Values(new_), bound, n)
    ensures NoneLonger(old_, new_, bound, n)
  {
    hide IsMatching, AllEarly, NoCollision;
    forall ps: seq<Pair> | IsMatching(old_, new_, ps, |old_|, |new_|) && AllEarly(new_, ps, bound)
      ensures |ps| <= n
    {
      EarlyHashes(old_, new_, ps, bound);
    }
  }

  lemma TableInFile(A: seq<int>, B: seq<int>, J: seq<int>)
    requires MatchTable(A, B, J)
    ensures |A| < |J| && forall i :: 1 <= i <= |A| && J[i] != 0 ==> 1 <= J[i] <= |B|
  {
  }

  /** Without collisions check finds nothing. */
  lemma CheckDropsNothing(old_: seq<string>, new_: seq<string>, J: seq<int>, J': seq<int>)
    requires NoCollision(old_, new_) && MatchTable(Values(old_), Values(new_), J) && |J'| == |J|
    requires forall i :: 1 <= i <= |old_| ==> J'[i] == Checked(old_, new_, i, J[i])
    ensures forall i :: 1 <= i <= |old_| ==> J'[i] == J[i]
  {
    hide Hash;
    forall i | 1 <= i <= |old_|
      ensures J'[i] == J[i]
    {
      if J[i] != 0 {
        assert Values(old_)[i - 1] == Hash(old_[i - 1]) && Values(new_)[J[i] - 1] == Hash(new_[J[i] - 1]);
      }
    }
  }

  /** The search bound of stone: out of reach with D_MINIMAL, else at least 256. */
  function Bound(minimal: bool, root: nat): nat
  {
    if minimal then WORD - 1 else Max(256, root)
  }

  /** The matching part of diffreg, on files of lines. */
  method MatchFiles(old_: seq<string>, new_: seq<string>, bound: nat) returns (J: array<int>)
    requires StopperOk(Values(old_), Values(new_))
    ensures fresh(J) && J.Length == |old_| + 2
    ensures MatchTable(old_, new_, J[..])
    ensures NoCollision(old_, new_) ==> NoneLonger(old_, new_, bound, Matched(J[..], |old_|))
    ensures BoundFits(Values(old_), Values(new_), bound) && NoCollision(old_, new_) ==>
      Matched(J[..], |old_|) == Lcs(Values(old_), Values(new_), |old_|, |new_|)
  {
    hide NoneLonger, Lcs, Matched, MatchTable, BoundFits, StopperOk, NoCollision, Values, FileOf;
    var file0 := Prepare(old_);
    var file1 := Prepare(new_);
    J := MatchValues(file0, file1, Values(old_), Values(new_), |old_|, |new_|, bound);
    ghost var s := J[..];
    TableInFile(Values(old_), Values(new_), s);
    Check(J, old_, new_);
    CheckKeeps(old_, new_, Values(old_), Values(new_), s, J[..]);
    if NoCollision(old_, new_) {
      CheckDropsNothing(old_, new_, s, J[..]);
      MatchedSame(s, J[..], |old_|);
      NoneLongerLines(old_, new_, bound, Matched(s, |old_|));
    }
  }

  lemma {:induction false} MatchedSame(J: seq<int>, J': seq<int>, i: nat)
    requires i < |J| && i < |J'| && forall t :: 1 <= t <= i ==> J[t] == J'[t]
    ensures Matched(J, i) == Matched(J', i)
  {
    if i > 0 {
      MatchedSame(J, J', i - 1);
    }
  }
}
