/**
 diff as a whole: from two files of lines to its output (diffreg in cmd/posix/diff.c),
 and the size of what it prints.
 */
module Diff {
  import opened Basics
  import opened CommonSubsequence
  import opened DiffClasses
  import opened DiffMatch
  import opened DiffHash
  import opened DiffOutput
  import opened EditScript
  import opened UnifiedHunk
  import opened HunkContext
  import DiffUnified

  // ----- the script of a matching deletes exactly what is unmatched

  lemma {:induction false} MatchedInStep(J: seq<int>, i: nat, i': nat)
    requires i <= i' < |J| && forall t :: i < t <= i' ==> J[t] != 0
    ensures Matched(J, i') == Matched(J, i) + (i' - i)
  {
    if i < i' {
      MatchedInStep(J, i, i' - 1);
    }
  }

  lemma {:induction false} MatchedNone(J: seq<int>, i: nat, i': nat)
    requires i <= i' < |J| && forall t :: i < t <= i' ==> J[t] == 0
    ensures Matched(J, i') == Matched(J, i)
  {
    if i < i' {
      MatchedNone(J, i, i' - 1);
    }
  }

  lemma {:induction false} ScriptSizeTo(J: seq<int>, n: nat, m: nat, cs: seq<Change>, k: nat)
    requires Guarded(J, n, m) && Script(J, n, m, 0, 0, cs) && k <= |cs|
    ensures 0 <= EndOld(0, cs, k) <= n && 0 <= EndNew(0, cs, k) <= m
    ensures EndOld(0, cs, k) == Matched(J, EndOld(0, cs, k)) + Deleted(cs, k)
    ensures EndNew(0, cs, k) == Matched(J, EndOld(0, cs, k)) + Inserted(cs, k)
  {
    if k > 0 {
      hide Matched;
      ScriptSizeTo(J, n, m, cs, k - 1);
      assert ChangeOk(J, n, m, 0, 0, cs, k - 1);
      var i, j, ch := EndOld(0, cs, k - 1), EndNew(0, cs, k - 1), cs[k - 1];
      MatchedInStep(J, i, ch.a - 1);
      MatchedNone(J, ch.a - 1, ch.b);
    }
  }

  lemma ScriptSize(J: seq<int>, n: nat, m: nat, cs: seq<Change>)
    requires Guarded(J, n, m) && Script(J, n, m, 0, 0, cs)
    ensures Deleted(cs, |cs|) == n - Matched(J, n) && Inserted(cs, |cs|) == m - Matched(J, n)
  {
    ScriptSizeTo(J, n, m, cs, |cs|);
    assert Rest(J, n, m, EndOld(0, cs, |cs|), EndNew(0, cs, |cs|));
    MatchedInStep(J, EndOld(0, cs, |cs|), n);
  }

  // ----- no script keeps more lines than a longest common subsequence

  ghost predicate SameRun(A: seq<int>, B: seq<int>, i: nat, j: nat, l: nat)
    requires i + l <= |A| && j + l <= |B|
  {
    forall t :: i <= t < i + l ==> A[t] == B[t + j - i]
  }

  lemma {:induction false} CommonRunCounts(A: seq<int>, B: seq<int>, i: nat, j: nat, l: nat)
    requires i + l <= |A| && j + l <= |B| && SameRun(A, B, i, j, l)
    ensures Lcs(A, B, i + l, j + l) >= Lcs(A, B, i, j) + l
  {
    if l > 0 {
      CommonRunCounts(A, B, i, j, l - 1);
    }
  }

  lemma SameValues(old_: seq<string>, new_: seq<string>, i: nat, j: nat, l: nat)
    requires i + l <= |old_| && j + l <= |new_| && old_[i..i + l] == new_[j..j + l]
    ensures SameRun(Values(old_), Values(new_), i, j, l)
  {
    forall t | i <= t < i + l
      ensures Values(old_)[t] == Values(new_)[t + j - i]
    {
      assert old_[t] == old_[i..i + l][t - i] == new_[j..j + l][t - i] == new_[t + j - i];
    }
  }

  lemma {:induction false} KeptAtMost(old_: seq<string>, new_: seq<string>, cs: seq<Change>, k: nat)
    requires IsEditScript(old_, new_, cs) && k <= |cs|
    ensures 0 <= EndOld(0, cs, k) <= |old_| && 0 <= EndNew(0, cs, k) <= |new_|
    ensures EndOld(0, cs, k) - Deleted(cs, k) == EndNew(0, cs, k) - Inserted(cs, k)
         <= Lcs(Values(old_), Values(new_), EndOld(0, cs, k), EndNew(0, cs, k))
  {
    hide Lcs, IsEditScript, SameRun;
    if k > 0 {
      KeptAtMost(old_, new_, cs, k - 1);
      EditAt(old_, new_, cs, k - 1);
      var i, j, ch := EndOld(0, cs, k - 1), EndNew(0, cs, k - 1), cs[k - 1];
      SameValues(old_, new_, i, j, ch.a - 1 - i);
      CommonRunCounts(Values(old_), Values(new_), i, j, ch.a - 1 - i);
      LcsMonotoneBoth(Values(old_), Values(new_), ch.a - 1, ch.c - 1, ch.b, ch.d);
    }
  }

  lemma SameRest(old_: seq<string>, new_: seq<string>, cs: seq<Change>)
    requires IsEditScript(old_, new_, cs)
    ensures var i, j := EndOld(0, cs, |cs|), EndNew(0, cs, |cs|);
            && 0 <= i <= |old_| && 0 <= j <= |new_| && |old_| - i == |new_| - j
            && old_[i..i + (|old_| - i)] == new_[j..j + (|old_| - i)]
  {
    var i, j := EndOld(0, cs, |cs|), EndNew(0, cs, |cs|);
    assert |old_[i..]| == |new_[j..]|;
    assert old_[i..i + (|old_| - i)] == old_[i..] && new_[j..j + (|old_| - i)] == new_[j..];
  }

  /** Whatever script turns old_ into new_, it costs at least what is not common. */
  lemma ScriptCostsAtLeast(old_: seq<string>, new_: seq<string>, cs: seq<Change>)
    requires IsEditScript(old_, new_, cs)
    ensures Cost(cs) >= |old_| + |new_| - 2 * Lcs(Values(old_), Values(new_), |old_|, |new_|)
  {
    hide IsEditScript, Lcs, Values, SameRun;
    KeptAtMost(old_, new_, cs, |cs|);
    var i, j := EndOld(0, cs, |cs|), EndNew(0, cs, |cs|);
    SameRest(old_, new_, cs);
    SameValues(old_, new_, i, j, |old_| - i);
    CommonRunCounts(Values(old_), Values(new_), i, j, |old_| - i);
  }

  // ----- scripts that keep only early lines

  /** The new lines that a script keeps, those between its changes, are all among the first
      bound lines equal to them. */
  ghost predicate KeepsEarly(new_: seq<string>, cs: seq<Change>, bound: nat)
  {
    forall k, y :: 0 <= k <= |cs| && EndNew(0, cs, k) < y < (if k < |cs| then cs[k].c else |new_| + 1) ==>
      Early(new_, y, bound)
  }

  /** No script that keeps only such lines costs less. */
  ghost predicate NoneCheaper(old_: seq<string>, new_: seq<string>, bound: nat, cost: int)
  {
    forall cs :: IsEditScript(old_, new_, cs) && KeepsEarly(new_, cs, bound) ==> cost <= Cost(cs)
  }

  lemma {:induction false} RunPairs(old_: seq<string>, new_: seq<string>, ps: seq<Pair>, i: nat, j: nat, l: nat,
                                    bound: nat)
    returns (qs: seq<Pair>)
    requires i + l <= |old_| && j + l <= |new_| && old_[i..i + l] == new_[j..j + l]
    requires IsMatching(old_, new_, ps, i, j) && AllEarly(new_, ps, bound)
    requires forall y :: j < y <= j + l ==> Early(new_, y, bound)
    ensures IsMatching(old_, new_, qs, i + l, j + l) && AllEarly(new_, qs, bound) && |qs| == |ps| + l
  {
    hide IsMatching, Early;
    if l == 0 {
      qs := ps;
    } else {
      assert old_[i..i + l][..l - 1] == old_[i..i + (l - 1)] && new_[j..j + l][..l - 1] == new_[j..j + (l - 1)];
      assert old_[i + l - 1] == old_[i..i + l][l - 1] == new_[j + l - 1];
      qs := RunPairs(old_, new_, ps, i, j, l - 1, bound);
      MatchingExtends(old_, new_, qs, i + l - 1, j + l - 1, (i + l, j + l));
      qs := qs + [(i + l, j + l)];
    }
  }

  lemma MatchingStays(old_: seq<string>, new_: seq<string>, ps: seq<Pair>, i: int, j: int, i': int, j': int)
    requires IsMatching(old_, new_, ps, i, j) && i <= i' && j <= j'
    ensures IsMatching(old_, new_, ps, i', j')
  {
  }

  /** The lines kept before change k. */
  lemma {:induction false} KeptPairs(old_: seq<string>, new_: seq<string>, cs: seq<Change>, bound: nat, k: nat)
    returns (ps: seq<Pair>)
    requires IsEditScript(old_, new_, cs) && KeepsEarly(new_, cs, bound) && k <= |cs|
    ensures 0 <= EndOld(0, cs, k) <= |old_| && 0 <= EndNew(0, cs, k) <= |new_|
    ensures IsMatching(old_, new_, ps, EndOld(0, cs, k), EndNew(0, cs, k)) && AllEarly(new_, ps, bound)
    ensures |ps| == EndOld(0, cs, k) - Deleted(cs, k) == EndNew(0, cs, k) - Inserted(cs, k)
  {
    hide IsMatching, Early, IsEditScript, AllEarly;
    if k == 0 {
      NoPairs(old_, new_, bound);
      ps := [];
    } else {
      ps := KeptPairs(old_, new_, cs, bound, k - 1);
      EditAt(old_, new_, cs, k - 1);
      var i, j, ch := EndOld(0, cs, k - 1), EndNew(0, cs, k - 1), cs[k - 1];
      ps := RunPairs(old_, new_, ps, i, j, ch.a - 1 - i, bound);
      MatchingStays(old_, new_, ps, ch.a - 1, ch.c - 1, ch.b, ch.d);
    }
  }

  lemma NoPairs(old_: seq<string>, new_: seq<string>, bound: nat)
    ensures IsMatching(old_, new_, [], 0, 0) && AllEarly(new_, [], bound)
  {
  }

  lemma EarlyScriptCosts(old_: seq<string>, new_: seq<string>, cs: seq<Change>, bound: nat, n: int)
    requires IsEditScript(old_, new_, cs) && KeepsEarly(new_, cs, bound) && NoneLonger(old_, new_, bound, n)
    ensures Cost(cs) >= |old_| + |new_| - 2 * n
  {
    hide IsMatching, Early, IsEditScript, AllEarly;
    var ps := KeptPairs(old_, new_, cs, bound, |cs|);
    SameRest(old_, new_, cs);
    var i, j := EndOld(0, cs, |cs|), EndNew(0, cs, |cs|);
    ps := RunPairs(old_, new_, ps, i, j, |old_| - i, bound);
  }

  /** A script of the size that the matching gives. */
  lemma MatchingIsCheap(old_: seq<string>, new_: seq<string>, bound: nat, n: int)
    requires NoneLonger(old_, new_, bound, n)
    ensures NoneCheaper(old_, new_, bound, |old_| + |new_| - 2 * n)
  {
    hide NoneLonger, IsEditScript, KeepsEarly, Cost;
    forall cs | IsEditScript(old_, new_, cs) && KeepsEarly(new_, cs, bound)
      ensures |old_| + |new_| - 2 * n <= Cost(cs)
    {
      EarlyScriptCosts(old_, new_, cs, bound, n);
    }
  }

  /** The script of a matching is as short as the matching is long. */
  lemma ScriptIsCheap(old_: seq<string>, new_: seq<string>, J: seq<int>, cs: seq<Change>, bound: nat)
    requires Guarded(J, |old_|, |new_|) && Script(J, |old_|, |new_|, 0, 0, cs)
    ensures NoneLonger(old_, new_, bound, Matched(J, |old_|)) ==> NoneCheaper(old_, new_, bound, Cost(cs))
    ensures Matched(J, |old_|) == Lcs(Values(old_), Values(new_), |old_|, |new_|) ==>
      forall cs' :: IsEditScript(old_, new_, cs') ==> Cost(cs) <= Cost(cs')
  {
    ScriptSize(J, |old_|, |new_|, cs);
    hide Guarded, Script, NoneLonger, NoneCheaper, IsEditScript, Values, Lcs, Matched;
    if NoneLonger(old_, new_, bound, Matched(J, |old_|)) {
      MatchingIsCheap(old_, new_, bound, Matched(J, |old_|));
    }
    if Matched(J, |old_|) == Lcs(Values(old_), Values(new_), |old_|, |new_|) {
      forall cs' | IsEditScript(old_, new_, cs')
        ensures Cost(cs) <= Cost(cs')
      {
        ScriptCostsAtLeast(old_, new_, cs');
      }
    }
  }

  // ----- diffreg

  /** diff refuses longer files. */
  const MAX_LINES: int := 0x7fff_fffd

  /** J with the guard entries that output adds. */
  method MatchGuarded(old_: seq<string>, new_: seq<string>, bound: nat) returns (J: array<int>)
    requires StopperOk(Values(old_), Values(new_))
    ensures fresh(J) && Guarded(J[..], |old_|, |new_|) && MatchTable(old_, new_, J[..])
    ensures NoCollision(old_, new_) ==> NoneLonger(old_, new_, bound, Matched(J[..], |old_|))
    ensures BoundFits(Values(old_), Values(new_), bound) && NoCollision(old_, new_) ==>
      Matched(J[..], |old_|) == Lcs(Values(old_), Values(new_), |old_|, |new_|)
  {
    hide NoneLonger, BoundFits, NoCollision, StopperOk, Values, Lcs, Matched, Guarded, MatchTable;
    J := MatchFiles(old_, new_, bound);
    ghost var s := J[..];
    TableIsGuarded(old_, new_, s);
    Write(J, 0, 0);
    Write(J, |old_| + 1, |new_| + 1);
    MatchedSame(s, J[..], |old_|);
  }

  /** The change regions that every format but ed prints, in order. Unless two different
      lines share a hash, no script that keeps only the first bound of equal new lines is
      shorter; and none at all if no line has more than bound equal ones. */
  method ChangeRegions(old_: seq<string>, new_: seq<string>, bound: nat) returns (cs: seq<Change>)
    requires StopperOk(Values(old_), Values(new_))
    ensures IsEditScript(old_, new_, cs) && Replaced(old_, new_, cs, 0) == new_
    ensures NoCollision(old_, new_) ==> NoneCheaper(old_, new_, bound, Cost(cs))
    ensures BoundFits(Values(old_), Values(new_), bound) && NoCollision(old_, new_) ==>
      forall cs' :: IsEditScript(old_, new_, cs') ==> Cost(cs) <= Cost(cs')
  {
    hide NoneLonger, NoneCheaper, IsEditScript, BoundFits, NoCollision, Cost, Lcs, Matched;
    var J := MatchGuarded(old_, new_, bound);
    ghost var S := J[..];
    cs := OutputForward(J, |old_|, |new_|);
    ScriptIsEdit(old_, new_, S, cs);
    ScriptRebuildsNew(old_, new_, cs);
    ScriptIsCheap(old_, new_, S, cs, bound);
  }

  /** With D_MINIMAL no file that diff accepts is out of reach of the bound. */
  method MinimalRegions(old_: seq<string>, new_: seq<string>, root: nat) returns (cs: seq<Change>)
    requires StopperOk(Values(old_), Values(new_)) && |new_| <= MAX_LINES
    ensures IsEditScript(old_, new_, cs) && Replaced(old_, new_, cs, 0) == new_
    ensures NoCollision(old_, new_) ==> forall cs' :: IsEditScript(old_, new_, cs') ==> Cost(cs) <= Cost(cs')
  {
    hide IsEditScript, NoCollision;
    LongBoundFits(Values(old_), Values(new_), Bound(true, root));
    cs := ChangeRegions(old_, new_, Bound(true, root));
  }

  /** For files of short lines there is nothing to assume: the script is a shortest one. */
  method ShortLineRegions(old_: seq<string>, new_: seq<string>, root: nat) returns (cs: seq<Change>)
    requires ShortFile(old_) && ShortFile(new_) && |new_| <= MAX_LINES
    ensures IsEditScript(old_, new_, cs) && Replaced(old_, new_, cs, 0) == new_
    ensures forall cs' :: IsEditScript(old_, new_, cs') ==> Cost(cs) <= Cost(cs')
  {
    hide IsEditScript, NoCollision, StopperOk, ShortFile;
    ShortFiles(old_, new_);
    cs := MinimalRegions(old_, new_, root);
  }

  /** Without D_MINIMAL the bound is 256, or the root of the number of old lines if that is
      more: the script is a shortest one unless some line occurs more often than that in the
      new file, and even then no shorter one keeps only so many of equal lines. */
  method PlainRegions(old_: seq<string>, new_: seq<string>, root: nat) returns (cs: seq<Change>)
    requires StopperOk(Values(old_), Values(new_))
    ensures IsEditScript(old_, new_, cs) && Replaced(old_, new_, cs, 0) == new_
    ensures NoCollision(old_, new_) ==> NoneCheaper(old_, new_, Max(256, root), Cost(cs))
    ensures NoCollision(old_, new_) && OccursAtMost(Values(new_), Max(256, root)) ==>
      forall cs' :: IsEditScript(old_, new_, cs') ==> Cost(cs) <= Cost(cs')
  {
    hide IsEditScript, NoCollision, BoundFits;
    if OccursAtMost(Values(new_), Max(256, root)) {
      FewEqualFit(Values(old_), Values(new_), Bound(false, root));
    }
    cs := ChangeRegions(old_, new_, Bound(false, root));
  }

  /** diff -e: the commands come out in descending order; run one after another, with no
      renumbering, they turn the old file into the new one. They are the regions of the
      other formats, reversed. */
  method EdScript(old_: seq<string>, new_: seq<string>, bound: nat) returns (out: seq<Change>)
    requires StopperOk(Values(old_), Values(new_))
    ensures forall k :: 0 <= k < |out| ==> 1 <= out[k].c <= out[k].d + 1 <= |new_| + 1
    ensures RunAll(old_, new_, out) == Valid(new_)
    ensures IsEditScript(old_, new_, Reversed(out))
    ensures NoCollision(old_, new_) ==> NoneCheaper(old_, new_, bound, Cost(Reversed(out)))
    ensures BoundFits(Values(old_), Values(new_), bound) && NoCollision(old_, new_) ==>
      forall cs' :: IsEditScript(old_, new_, cs') ==> Cost(Reversed(out)) <= Cost(cs')
  {
    hide NoneLonger, NoneCheaper, BoundFits, NoCollision, Cost, Lcs, Matched;
    var J := MatchGuarded(old_, new_, bound);
    ghost var S := J[..];
    out := OutputReverse(J, |old_|, |new_|);
    ghost var cs := Reversed(out);
    ScriptIsEdit(old_, new_, S, cs);
    EdScriptRebuildsNew(old_, new_, cs);
    ReversedTwice(out);
    ScriptIsCheap(old_, new_, S, cs, bound);
  }

  lemma ReversedTwice(out: seq<Change>)
    ensures Reversed(Reversed(out)) == out
  {
  }

  /** For one matching, the two loops of output emit the same regions in opposite orders. */
  lemma LoopsAgree(J: seq<int>, n: nat, m: nat, forward: seq<Change>, reverse: seq<Change>)
    requires Guarded(J, n, m)
    requires Script(J, n, m, 0, 0, forward) && Script(J, n, m, 0, 0, Reversed(reverse))
    ensures reverse == Reversed(forward)
  {
    ScriptUnique(J, n, m, forward, Reversed(reverse));
    assert Reversed(Reversed(reverse)) == reverse;
  }

  /** diff -u: identical files give no output; otherwise the hunks printed describe
      exactly how the files differ. */
  method Unified(old_: seq<string>, new_: seq<string>, ctx: nat, bound: nat)
    returns (out: seq<string>, ghost hs: seq<Hunk>)
    requires StopperOk(Values(old_), Values(new_))
    ensures IsPatch(old_, new_, hs) && Printable(hs) && out == PatchText(hs)
    ensures DiffUnified.ShowsNew(ctx, |new_|, hs) && ContextOk(hs, ctx, |new_|)
    ensures NoCollision(old_, new_) ==> NoneCheaper(old_, new_, bound, ChangedLines(hs))
    ensures BoundFits(Values(old_), Values(new_), bound) && NoCollision(old_, new_) ==>
      forall cs' :: IsEditScript(old_, new_, cs') ==> ChangedLines(hs) <= Cost(cs')
    ensures out == [] <==> old_ == new_
  {
    if old_ == new_ {
      forall cs' | IsEditScript(old_, new_, cs')
        ensures 0 <= Cost(cs')
      {
        CostNotNegative(old_, new_, cs', |cs'|);
      }
      return [], [];
    }
    var cs := ChangeRegions(old_, new_, bound);
    var p := new DiffUnified.Printer(old_, new_, ctx);
    hs := p.PrintScript(cs);
    out := p.out;
    SaysSomething(old_, new_, hs);
  }

  lemma {:induction false} CostNotNegative(old_: seq<string>, new_: seq<string>, cs: seq<Change>, k: nat)
    requires IsEditScript(old_, new_, cs) && k <= |cs|
    ensures 0 <= Deleted(cs, k) && 0 <= Inserted(cs, k)
  {
    if k > 0 {
      EditAt(old_, new_, cs, k - 1);
      CostNotNegative(old_, new_, cs, k - 1);
    }
  }

  /** Files that differ do not have an empty patch. */
  lemma SaysSomething(old_: seq<string>, new_: seq<string>, hs: seq<Hunk>)
    requires IsPatch(old_, new_, hs) && Printable(hs) && old_ != new_
    ensures PatchText(hs) != []
  {
    assert old_[0..] == old_ && new_[0..] == new_;
  }
}
