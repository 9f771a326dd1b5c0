/**
 diff and patch together: patch applied to diff's output, in both directions.
 */
module RoundTrip {
  import opened DiffClasses
  import opened DiffMatch
  import opened SeqFacts
  import opened UnifiedHunk
  import opened PatchBody
  import PatchForm
  import opened PatchRead
  import opened Patch
  import Diff
  import DiffUnified

  // ----- the hunks of diff can be read

  lemma PatchIsReadable(old_: seq<string>, new_: seq<string>, hs: seq<Hunk>)
    requires IsPatch(old_, new_, hs) && |old_| <= Diff.MAX_LINES && |new_| <= Diff.MAX_LINES
    ensures Readable(hs) && forall k :: 0 <= k < |hs| ==> IsBody(hs[k].body)
  {
    hide OldSide, NewSide;
    forall k | 0 <= k < |hs|
      ensures HunkReadable(hs[k])
    {
      assert HunkOk(old_, new_, hs, k);
    }
  }

  /** diff -u old new | patch old: every hunk is found where its header says, none fails,
      and the result is new. */
  method DiffThenPatch(old_: seq<string>, new_: seq<string>, ctx: nat, bound: nat)
    returns (res: Outcome, text: seq<string>, ghost hs: seq<Hunk>, ghost log: seq<Step>, ghost tries: seq<Try>)
    requires StopperOk(Values(old_), Values(new_)) && |old_| <= Diff.MAX_LINES && |new_| <= Diff.MAX_LINES
    ensures res == Output(new_, 0)
    ensures Printable(hs) && text == PatchText(hs) && Trace(old_, log) && AtHeaders(log, hs, |hs|)
  {
    hide IsPatch, Printable, PatchText, IsBody, Final, Failures, Readable, DiffUnified.ShowsNew, AllSpliced,
      AllLocated, TriesOf, PatchForm.HunksOf, OutOfOrder, PastEnd, LogOf, Found;
    text, hs := Diff.Unified(old_, new_, ctx, bound);
    PatchIsReadable(old_, new_, hs);
    res, log, tries := Run(old_, text, false, new_, hs);
    FinalForward(old_, new_, hs);
  }

  lemma FinalForward(old_: seq<string>, new_: seq<string>, hs: seq<Hunk>)
    requires IsPatch(old_, new_, hs)
    ensures Final(old_, new_, hs, false) == new_
    ensures Failures(hs, false, |hs|) == 0
  {
    NotReversed(old_, new_, hs, |hs|);
    var i, j := HunkEndOld(hs, |hs|), HunkEndNew(hs, |hs|);
    assert new_ == new_[..j] + new_[j..];
  }

  // ----- the other direction

  /** Read backwards, the hunks describe how to get from new to old. */
  lemma SwapIsPatch(old_: seq<string>, new_: seq<string>, hs: seq<Hunk>)
    requires IsPatch(old_, new_, hs)
    ensures forall k :: 0 <= k < |hs| ==> IsBody(hs[k].body)
    ensures IsPatch(new_, old_, SwapAll(hs))
  {
    forall k | 0 <= k < |hs|
      ensures IsBody(hs[k].body)
    {
      assert HunkOk(old_, new_, hs, k);
    }
    var rs := SwapAll(hs);
    forall k | 0 <= k < |rs|
      ensures HunkOk(new_, old_, rs, k)
    {
      assert HunkOk(old_, new_, hs, k);
      SwapDescribes(old_, new_, hs[k]);
      hide Describes;
    }
  }

  lemma SwapDescribes(old_: seq<string>, new_: seq<string>, h: Hunk)
    requires Describes(old_, new_, h)
    ensures Describes(new_, old_, SwapHunk(h))
  {
    hide Side, SideTags, SwapBody;
    SwapSides(h.body, '+');
    SwapSides(h.body, '-');
  }

  /** A hunk that patch -R undoes: it has new lines, or it comes after a new line that
      every line it deletes is equal to. */
  ghost predicate Undone(new_: seq<string>, h: Hunk)
    requires IsBody(h.body)
  {
    || h.lowc <= h.upd
    || (1 <= h.upd <= |new_| && forall k :: 0 <= k < |OldSide(h.body)| ==> OldSide(h.body)[k] == new_[h.upd - 1])
  }

  /** The same, for the hunk as patch -R applies it. */
  ghost predicate InPlace(input: seq<string>, g: Hunk)
    requires IsBody(g.body)
  {
    || g.lowa <= g.upb
    || (1 <= g.upb <= |input| && forall k :: 0 <= k < |NewSide(g.body)| ==> NewSide(g.body)[k] == input[g.upb - 1])
  }

  lemma UndoneIsInPlace(new_: seq<string>, h: Hunk)
    requires IsBody(h.body)
    ensures Undone(new_, h) <==> InPlace(new_, SwapHunk(h))
  {
    hide Side, SideTags, SwapBody;
    SwapSides(h.body, '+');
    SwapSides(h.body, '-');
    assert NewSide(SwapHunk(h).body) == OldSide(h.body);
  }

  /** A block of lines commutes with a line exactly if it repeats it. */
  lemma {:induction false} Commutes(o: seq<string>, x: string)
    ensures o + [x] == [x] + o <==> forall k :: 0 <= k < |o| ==> o[k] == x
  {
    if o + [x] == [x] + o {
      CommutesTo(o, x, |o|);
    }
  }

  lemma {:induction false} CommutesTo(o: seq<string>, x: string, n: nat)
    requires o + [x] == [x] + o && n <= |o|
    ensures forall k :: 0 <= k < n ==> o[k] == x
  {
    if n > 0 {
      CommutesTo(o, x, n - 1);
      assert o[n - 1] == (o + [x])[n - 1] == ([x] + o)[n - 1];
    }
  }

  /** Moving a block before the line it should come after changes nothing exactly if it
      repeats that line. */
  lemma Moved(before: seq<string>, front: seq<string>, x: string, o: seq<string>)
    ensures before + front + o + [x] == before + (front + [x]) + o
       <==> forall k :: 0 <= k < |o| ==> o[k] == x
  {
    Commutes(o, x);
    Shift(before + front, o, [x]);
    assert before + front + o + [x] == (before + front) + (o + [x]);
    assert before + (front + [x]) + o == (before + front) + ([x] + o);
  }

  /** One step of the comparison between what patch -R makes and what it should make. */
  lemma StepAgrees(input: seq<string>, target: seq<string>, hs: seq<Hunk>, k: nat)
    requires IsPatch(input, target, hs) && k < |hs|
    requires 0 <= HunkEndNew(hs, k) <= |target|
    requires Actual(input, target, hs, true, k) == target[..HunkEndNew(hs, k)]
    ensures IsBody(hs[k].body) && 0 <= hs[k].upd <= |target|
    ensures FirstLine(hs[k], true) != 0 ==>
      (Actual(input, target, hs, true, k + 1) == target[..hs[k].upd] <==> InPlace(input, hs[k]))
  {
    hide OldSide, NewSide, IsPatch, Actual, IsBody, HunkOk, InPlace;
    HunkFacts(input, target, hs, k);
    ActualNext(input, target, hs, true, k);
    var h, i, j := hs[k], HunkEndOld(hs, k), HunkEndNew(hs, k);
    PrefixIn3(target, j, h.lowc - 1, h.upd);
    InPlaceIs(input, h);
    var a, add := Actual(input, target, hs, true, k + 1), NewSide(h.body);
    if FirstLine(h, true) != h.lowa && FirstLine(h, true) != 0 {
      StepMoved(input, target[..j], i, h.lowa, add, a, target[..h.upd]);
    }
  }

  /** The result a, one line early, against the result t. */
  lemma StepMoved(input: seq<string>, before: seq<string>, i: int, lowa: int, add: seq<string>, a: seq<string>,
                  t: seq<string>)
    requires 0 <= i <= lowa - 2 < |input|
    requires a == before + input[i..lowa - 2] + add + input[lowa - 2..lowa - 1]
    requires t == before + input[i..lowa - 1] + add
    ensures a == t <==> forall k :: 0 <= k < |add| ==> add[k] == input[lowa - 2]
  {
    MovedAgrees(input, before, i, lowa - 1, add);
  }

  lemma InPlaceIs(input: seq<string>, h: Hunk)
    requires IsBody(h.body) && 1 <= h.lowa <= h.upb + 1 <= |input| + 1
    ensures h.lowa <= h.upb ==> InPlace(input, h)
    ensures 2 <= h.lowa == h.upb + 1 ==>
      (InPlace(input, h) <==> forall k :: 0 <= k < |NewSide(h.body)| ==> NewSide(h.body)[k] == input[h.lowa - 2])
  {
    hide IsBody, NewSide;
  }

  /** A hunk that lands one line too early makes what it should exactly if it repeats it. */
  lemma MovedAgrees(input: seq<string>, before: seq<string>, i: int, e: int, o: seq<string>)
    requires 0 <= i < e <= |input|
    ensures before + input[i..e - 1] + o + input[e - 1..e] == before + input[i..e] + o
       <==> forall k :: 0 <= k < |o| ==> o[k] == input[e - 1]
  {
    LastLine(input, i, e);
    Moved(before, input[i..e - 1], input[e - 1], o);
  }

  lemma LastLine(input: seq<string>, i: int, e: int)
    requires 0 <= i < e <= |input|
    ensures input[i..e] == input[i..e - 1] + [input[e - 1]] && input[e - 1..e] == [input[e - 1]]
  {
  }

  lemma Shift<T>(a: seq<T>, b: seq<T>, c: seq<T>)
    ensures a + (b + c) == a + (c + b) <==> b + c == c + b
  {
    if a + (b + c) == a + (c + b) {
      assert (a + (b + c))[|a|..] == b + c && (a + (c + b))[|a|..] == c + b;
    }
  }

  lemma HunkFacts(input: seq<string>, target: seq<string>, hs: seq<Hunk>, k: nat)
    requires IsPatch(input, target, hs) && k < |hs|
    ensures var h, i, j := hs[k], HunkEndOld(hs, k), HunkEndNew(hs, k);
            && 0 <= i < h.lowa <= h.upb + 1 <= |input| + 1 && 0 <= j < h.lowc <= h.upd + 1 <= |target| + 1
            && IsBody(h.body) && NewSide(h.body) == target[h.lowc - 1..h.upd]
            && input[i..h.lowa - 1] == target[j..h.lowc - 1]
            && (k > 0 ==> i < h.lowa - 1)
            && HunkEndNew(hs, k + 1) == h.upd && HunkEndOld(hs, k + 1) == h.upb
            && (h.lowa <= h.upb || h.lowc <= h.upd)
  {
    assert HunkOk(input, target, hs, k);
  }

  // ----- patch -R gives old back exactly if every hunk is undone

  /** One more hunk adds its new side and the lines before it. */
  lemma ActualGrows(input: seq<string>, target: seq<string>, hs: seq<Hunk>, k: nat)
    requires IsPatch(input, target, hs) && k < |hs| && IsBody(hs[k].body)
      && 0 <= HunkEndOld(hs, k) < hs[k].lowa <= |input| + 1
    ensures var a, b := Actual(input, target, hs, true, k), Actual(input, target, hs, true, k + 1);
            var w := hs[k].lowa - 1 - HunkEndOld(hs, k);
            && a <= b
            && |b| == |a| + w + (if FirstLine(hs[k], true) == 0 then 0 else |NewSide(hs[k].body)|)
  {
    hide IsPatch, NewSide, IsBody, HunkOk;
    HunkFacts(input, target, hs, k);
  }

  lemma {:induction false} ActualLength(input: seq<string>, target: seq<string>, hs: seq<Hunk>, k: nat)
    requires IsPatch(input, target, hs) && k <= |hs|
    ensures 0 <= HunkEndNew(hs, k) <= |target| && 0 <= HunkEndOld(hs, k) <= |input|
    ensures |Actual(input, target, hs, true, k)| <= HunkEndNew(hs, k)
    ensures Failures(hs, true, k) > 0 ==> |Actual(input, target, hs, true, k)| < HunkEndNew(hs, k)
    ensures k > 0 ==> Actual(input, target, hs, true, k - 1) <= Actual(input, target, hs, true, k)
  {
    hide IsPatch, OldSide, NewSide, IsBody;
    if k > 0 {
      ActualLength(input, target, hs, k - 1);
      HunkFacts(input, target, hs, k - 1);
      ActualGrows(input, target, hs, k - 1);
      hide Actual;
    }
  }

  /** A prefix that is too short cannot be completed to the target. */
  lemma FinalLength(input: seq<string>, target: seq<string>, hs: seq<Hunk>)
    requires IsPatch(input, target, hs) && Final(input, target, hs, true) == target
    ensures Failures(hs, true, |hs|) == 0
    ensures 0 <= HunkEndNew(hs, |hs|) <= |target|
    ensures Actual(input, target, hs, true, |hs|) == target[..HunkEndNew(hs, |hs|)]
  {
    ActualLength(input, target, hs, |hs|);
    var a, i, j := Actual(input, target, hs, true, |hs|), HunkEndOld(hs, |hs|), HunkEndNew(hs, |hs|);
    assert |input[i..]| == |target[j..]|;
    hide Actual;
    assert (a + input[i..])[..|a|] == a;
  }

  lemma {:induction false} PrefixesAgree(input: seq<string>, target: seq<string>, hs: seq<Hunk>, k: nat)
    requires IsPatch(input, target, hs) && k <= |hs| && Final(input, target, hs, true) == target
    ensures 0 <= HunkEndNew(hs, k) <= |target| && Failures(hs, true, k) == 0
    ensures Actual(input, target, hs, true, k) == target[..HunkEndNew(hs, k)]
    decreases |hs| - k
  {
    hide IsPatch, Actual, Final;
    if k == |hs| {
      FinalLength(input, target, hs);
    } else {
      PrefixesAgree(input, target, hs, k + 1);
      ActualLength(input, target, hs, k);
      ActualLength(input, target, hs, k + 1);
      HunkFacts(input, target, hs, k);
      ShorterPrefix(input, target, hs, k);
    }
  }

  lemma ShorterPrefix(input: seq<string>, target: seq<string>, hs: seq<Hunk>, k: nat)
    requires IsPatch(input, target, hs) && k < |hs|
    requires Failures(hs, true, k + 1) == 0
    requires 0 <= HunkEndNew(hs, k) <= HunkEndNew(hs, k + 1) <= |target|
    requires Actual(input, target, hs, true, k + 1) == target[..HunkEndNew(hs, k + 1)]
    requires Actual(input, target, hs, true, k) <= Actual(input, target, hs, true, k + 1)
    ensures Actual(input, target, hs, true, k) == target[..HunkEndNew(hs, k)]
  {
    HunkFacts(input, target, hs, k);
    ActualNext(input, target, hs, true, k);
    hide IsPatch, OldSide, NewSide, IsBody, Actual;
    var a := Actual(input, target, hs, true, k);
    assert |a| == HunkEndNew(hs, k);
  }

  lemma ReversedOnlyIf(input: seq<string>, target: seq<string>, hs: seq<Hunk>, k: nat)
    requires IsPatch(input, target, hs) && k < |hs| && Final(input, target, hs, true) == target
    ensures IsBody(hs[k].body) && InPlace(input, hs[k])
  {
    hide IsPatch, Actual, Final, OldSide, NewSide;
    PrefixesAgree(input, target, hs, k);
    PrefixesAgree(input, target, hs, k + 1);
    StepAgrees(input, target, hs, k);
  }

  lemma {:induction false} ReversedIf(input: seq<string>, target: seq<string>, hs: seq<Hunk>, k: nat)
    requires IsPatch(input, target, hs) && k <= |hs|
    requires forall l :: 0 <= l < |hs| ==> IsBody(hs[l].body) && InPlace(input, hs[l])
    ensures 0 <= HunkEndNew(hs, k) <= |target| && Failures(hs, true, k) == 0
    ensures Actual(input, target, hs, true, k) == target[..HunkEndNew(hs, k)]
  {
    hide IsPatch, OldSide, NewSide, IsBody;
    if k > 0 {
      ReversedIf(input, target, hs, k - 1);
      StepAgrees(input, target, hs, k - 1);
      HunkFacts(input, target, hs, k - 1);
      assert InPlace(input, hs[k - 1]);
    }
  }

  lemma FinalReversed(input: seq<string>, target: seq<string>, hs: seq<Hunk>)
    requires IsPatch(input, target, hs)
    ensures forall k :: 0 <= k < |hs| ==> IsBody(hs[k].body)
    ensures Final(input, target, hs, true) == target <==> forall k :: 0 <= k < |hs| ==> InPlace(input, hs[k])
    ensures Final(input, target, hs, true) == target ==> Failures(hs, true, |hs|) == 0
  {
    hide IsPatch, IsBody, Final, InPlace, Actual, Failures;
    forall k | 0 <= k < |hs|
      ensures IsBody(hs[k].body)
    {
      HunkFacts(input, target, hs, k);
    }
    if Final(input, target, hs, true) == target {
      FinalLength(input, target, hs);
      forall k | 0 <= k < |hs|
        ensures InPlace(input, hs[k])
      {
        ReversedOnlyIf(input, target, hs, k);
      }
    }
    if forall k :: 0 <= k < |hs| ==> InPlace(input, hs[k]) {
      FinalIf(input, target, hs);
    }
  }

  lemma FinalIf(input: seq<string>, target: seq<string>, hs: seq<Hunk>)
    requires IsPatch(input, target, hs)
    requires forall k :: 0 <= k < |hs| ==> IsBody(hs[k].body) && InPlace(input, hs[k])
    ensures Final(input, target, hs, true) == target
  {
    hide IsBody, InPlace, Actual;
    ReversedIf(input, target, hs, |hs|);
    var j := HunkEndNew(hs, |hs|);
    assert target == target[..j] + target[j..];
  }

  /** Patch -R of the zero-context diff that deletes "b" after "a" puts "b" before it. */
  lemma ReversedElsewhere()
    ensures var old_, new_ := ["a", "b"], ["a"];
            exists hs: seq<Hunk> :: IsPatch(old_, new_, hs) && (forall k :: 0 <= k < |hs| ==> IsBody(hs[k].body))
                         && IsPatch(new_, old_, SwapAll(hs))
                         && Final(new_, old_, SwapAll(hs), true) == ["b", "a"] != old_
  {
    hide OldSide, NewSide, SwapBody, IsPatch, IsBody, Final;
    var old_, new_ := ["a", "b"], ["a"];
    var h := Hunk(2, 2, 2, 1, ["-b"]);
    var hs := [h];
    DeletesB(h);
    SwapIsPatch(old_, new_, hs);
    SwapsToOld(h.body);
    OneInsertion(new_, old_, SwapAll(hs));
    assert Final(new_, old_, SwapAll(hs), true) == ["b", "a"];
  }

  lemma SwapsToOld(body: seq<string>)
    requires IsBody(body)
    ensures NewSide(SwapBody(body)) == OldSide(body)
  {
    hide Side, SideTags, SwapBody, IsBody;
    SwapSides(body, '-');
    FlipSigns();
  }

  /** One hunk that only adds lines after line 1 of a one-line file: -R puts them first. */
  lemma OneInsertion(input: seq<string>, target: seq<string>, rs: seq<Hunk>)
    requires IsPatch(input, target, rs) && |rs| == 1 && |input| == 1 && rs[0].lowa == 2 && rs[0].upb == 1
    ensures IsBody(rs[0].body) && Final(input, target, rs, true) == NewSide(rs[0].body) + input
  {
    hide OldSide, NewSide, IsPatch, IsBody, HunkOk;
    ActualNext(input, target, rs, true, 0);
    var add := NewSide(rs[0].body);
    assert input[0..0] == [] && input[0..1] == input && input[1..] == [];
    assert Actual(input, target, rs, true, 0) == [];
    assert [] + [] + add + input == add + input && add + input + [] == add + input;
  }

  lemma DeletesB(h: Hunk)
    requires h == Hunk(2, 2, 2, 1, ["-b"])
    ensures IsPatch(["a", "b"], ["a"], [h])
    ensures IsBody(h.body) && OldSide(h.body) == ["b"] && NewSide(h.body) == []
  {
    assert h.body[1..] == [] && h.body[0][1..] == "b";
    assert Side(h.body[1..], '+') == [] && Side(h.body[1..], '-') == [];
    assert HunkOk(["a", "b"], ["a"], [h], 0);
  }

  /** Without new lines there is only one hunk, and it is not undone. */
  lemma NothingLeft(old_: seq<string>, hs: seq<Hunk>)
    requires IsPatch(old_, [], hs)
    ensures old_ != [] ==> |hs| > 0 && IsBody(hs[0].body) && !Undone([], hs[0])
    ensures old_ == [] ==> hs == []
  {
    if |hs| > 0 {
      assert HunkOk(old_, [], hs, 0);
    }
  }

  /** The hunks of a diff are undone together exactly if each of them is. */
  lemma BackIfUndone(old_: seq<string>, new_: seq<string>, hs: seq<Hunk>)
    requires IsPatch(old_, new_, hs)
    ensures (forall k :: 0 <= k < |hs| ==> IsBody(hs[k].body)) && IsPatch(new_, old_, SwapAll(hs))
    ensures Final(new_, old_, SwapAll(hs), true) == old_ <==> forall k :: 0 <= k < |hs| ==> Undone(new_, hs[k])
    ensures Final(new_, old_, SwapAll(hs), true) == old_ ==> Failures(SwapAll(hs), true, |hs|) == 0
  {
    hide IsPatch, OldSide, NewSide, IsBody, Final, Undone, InPlace, SwapHunk;
    SwapIsPatch(old_, new_, hs);
    var rs := SwapAll(hs);
    FinalReversed(new_, old_, rs);
    forall k | 0 <= k < |hs|
      ensures Undone(new_, hs[k]) <==> InPlace(new_, rs[k])
    {
      UndoneIsInPlace(new_, hs[k]);
    }
    if forall k :: 0 <= k < |hs| ==> Undone(new_, hs[k]) {
      assert forall k :: 0 <= k < |rs| ==> Undone(new_, hs[k]) && InPlace(new_, rs[k]);
    }
    if forall k :: 0 <= k < |rs| ==> InPlace(new_, rs[k]) {
      assert forall k :: 0 <= k < |hs| ==> InPlace(new_, rs[k]) && Undone(new_, hs[k]);
    }
  }

  /** The same for patch -R as it is run. */
  lemma PlanBack(old_: seq<string>, new_: seq<string>, hs: seq<Hunk>, text: seq<string>)
    requires IsPatch(old_, new_, hs) && Readable(hs) && Printable(hs) && text == PatchText(hs)
    ensures (forall k :: 0 <= k < |hs| ==> IsBody(hs[k].body)) && IsPlan(new_, old_, hs, text, true)
    ensures IsPatch(new_, old_, Directed(hs, true))
    ensures Final(new_, old_, Directed(hs, true), true) == old_ <==> forall k :: 0 <= k < |hs| ==> Undone(new_, hs[k])
    ensures Final(new_, old_, Directed(hs, true), true) == old_ ==> Failures(Directed(hs, true), true, |hs|) == 0
  {
    hide IsPatch, Printable, PatchText, IsBody, Final, Failures, Undone, Readable;
    BackIfUndone(old_, new_, hs);
  }

  /** With context lines only the deletion of a whole file is not undone. */
  lemma UndoneWithContext(old_: seq<string>, new_: seq<string>, ctx: nat, hs: seq<Hunk>)
    requires IsPatch(old_, new_, hs) && DiffUnified.ShowsNew(ctx, |new_|, hs) && ctx > 0
    requires forall k :: 0 <= k < |hs| ==> IsBody(hs[k].body)
    ensures (forall k :: 0 <= k < |hs| ==> Undone(new_, hs[k])) <==> new_ != [] || old_ == []
  {
    hide IsPatch, IsBody, OldSide;
    if new_ == [] {
      NothingLeft(old_, hs);
    }
  }

  /** diff -u old new | patch -R new: it always ends with a result, and that is old, with
      no hunk failing, exactly if every hunk of the diff is one that patch -R undoes. With
      context lines only the deletion of a whole file is not undone. */
  method DiffThenPatchBack(old_: seq<string>, new_: seq<string>, ctx: nat, bound: nat)
    returns (res: Outcome, text: seq<string>, ghost hs: seq<Hunk>)
    requires StopperOk(Values(old_), Values(new_)) && |old_| <= Diff.MAX_LINES && |new_| <= Diff.MAX_LINES
    ensures Printable(hs) && text == PatchText(hs)
    ensures IsPatch(old_, new_, hs) && forall k :: 0 <= k < |hs| ==> IsBody(hs[k].body)
    ensures res.Output?
    ensures res == Output(old_, 0) <==> forall k :: 0 <= k < |hs| ==> Undone(new_, hs[k])
    ensures ctx > 0 ==> (res == Output(old_, 0) <==> new_ != [] || old_ == [])
  {
    hide IsPatch, Printable, PatchText, IsBody, Final, Failures, Undone, Readable, DiffUnified.ShowsNew, Trace,
      AllSpliced, AllLocated, TriesOf, PatchForm.HunksOf, OutOfOrder, PastEnd, LogOf, Found, IsPlan, Directed,
      AtHeaders, StopperOk, Values, BoundFits, NoCollision, Diff.NoneCheaper;
    ghost var log, tries;
    text, hs := Diff.Unified(old_, new_, ctx, bound);
    PatchIsReadable(old_, new_, hs);
    PlanBack(old_, new_, hs, text);
    res, log, tries := Run(new_, text, true, old_, hs);
    if ctx > 0 {
      UndoneWithContext(old_, new_, ctx, hs);
    }
  }
}
