/**
 patch as a whole: the hunk loop of main in cmd/posix/patch.c for one unified diff, run
 with -f and -F 0, with and without -R.
 */
module Patch {
  import opened Basics
  import opened SeqFacts
  import opened UnifiedHunk
  import opened PatchBody
  import opened PatchApply
  import opened PatchForm
  import opened PatchRead

  datatype Outcome = Output(lines: seq<string>, failed: nat) | Fatal

  // ----- what one applied hunk does to the result so far

  /** The frontier and the output before and after a hunk was applied at a line. */
  datatype Step = Step(where: int, body: seq<string>, f: int, out: seq<string>)

  ghost predicate Effect(input: seq<string>, f0: int, out0: seq<string>, s: Step)
  {
    && IsBody(s.body) && 0 <= f0 && 0 <= s.f
    && (|OldSide(s.body)| > 0 ==> MatchesAt(input, OldSide(s.body), s.where))
    && var l, w, e := Lead(s.body), s.where - 1, s.where - 1 + |OldSide(s.body)|;
       if l == |s.body| then s.f == f0 && s.out == out0
       else
         && l <= |NewSide(s.body)| && f0 <= w + l <= s.f <= e
         && s.out + Slice(input, s.f, e) == out0 + Slice(input, f0, w + l) + NewSide(s.body)[l..]
  }

  ghost function FrontierAt(log: seq<Step>, k: nat): int
    requires k <= |log|
  {
    if k == 0 then 0 else log[k - 1].f
  }

  ghost function OutputAt(log: seq<Step>, k: nat): seq<string>
    requires k <= |log|
  {
    if k == 0 then [] else log[k - 1].out
  }

  ghost predicate StepOk(input: seq<string>, log: seq<Step>, k: nat)
    requires k < |log|
  {
    Effect(input, FrontierAt(log, k), OutputAt(log, k), log[k])
  }

  /** Every hunk in the log was applied to what its predecessors left. */
  ghost predicate Trace(input: seq<string>, log: seq<Step>)
  {
    forall k :: 0 <= k < |log| ==> StepOk(input, log, k)
  }

  /** The result as it would be if patch stopped here. */
  ghost function Result(input: seq<string>, f: int, out: seq<string>): seq<string>
    requires 0 <= f <= |input|
  {
    out + input[f..]
  }

  /** Applying a hunk replaces, in the result so far, its old side by its new side from
      the first change on; everything before and after stays. */
  lemma HunkReplaces(input: seq<string>, f0: int, out0: seq<string>, s: Step)
    requires Effect(input, f0, out0, s) && Lead(s.body) < |s.body|
    requires 0 <= s.where - 1 + |OldSide(s.body)| <= |input|
    ensures f0 <= |input| && s.f <= |input| && Lead(s.body) <= |OldSide(s.body)|
    ensures var before, l := Result(input, f0, out0), Lead(s.body);
            var i := |out0| + (s.where - 1 + l - f0);
            var j := i + |OldSide(s.body)| - l;
            && |out0| <= i <= j <= |before|
            && before[i..j] == OldSide(s.body)[l..]
            && Result(input, s.f, s.out) == before[..i] + NewSide(s.body)[l..] + before[j..]
  {
    hide OldSide, NewSide, Lead, IsBody, Slice, Result, MatchesAt;
    OldHasLead(s.body);
    SpliceAt(input, OldSide(s.body), NewSide(s.body), Lead(s.body), s.where - 1, f0, out0, s.f, s.out);
  }

  lemma SpliceAt(input: seq<string>, old_: seq<string>, new_: seq<string>, l: nat, w: int,
                 f0: int, out0: seq<string>, f: int, out: seq<string>)
    requires l <= |old_| && l <= |new_| && 0 <= f0 <= w + l && 0 <= f <= w + |old_| <= |input|
    requires |old_| > 0 ==> MatchesAt(input, old_, w + 1)
    requires out + Slice(input, f, w + |old_|) == out0 + Slice(input, f0, w + l) + new_[l..]
    ensures var before := Result(input, f0, out0);
            var i := |out0| + (w + l - f0);
            var j := i + |old_| - l;
            && |out0| <= i <= j <= |before|
            && before[i..j] == old_[l..]
            && Result(input, f, out) == before[..i] + new_[l..] + before[j..]
  {
    hide Result, Slice, MatchesAt;
    var e := w + |old_|;
    ResultSplits(input, f0, out0, w + l, e);
    ResultSplits(input, f, out, e, e);
    MatchTail(input, old_, l, w);
    Parts(out0 + Slice(input, f0, w + l), input[w + l..e], input[e..]);
  }

  /** The result so far, cut at input lines a and b. */
  lemma ResultSplits(input: seq<string>, f: int, out: seq<string>, a: int, b: int)
    requires 0 <= f <= a <= b <= |input|
    ensures Result(input, f, out) == (out + Slice(input, f, a)) + input[a..b] + input[b..]
    ensures |Slice(input, f, a)| == a - f
    ensures a == b ==> Result(input, f, out) == (out + Slice(input, f, a)) + input[b..]
  {
    var x, y, z := input[f..a], input[a..b], input[b..];
    assert Slice(input, f, a) == x;
    hide Slice;
    assert input[f..] == x + y + z;
    Four(out, x, y, z);
    Assoc(x, y, z);
    Assoc(out, x, y + z);
    Assoc(out + x, y, z);
    if a == b {
      Empty(out + x);
    }
  }

  lemma Parts<T>(a: seq<T>, b: seq<T>, c: seq<T>)
    ensures var s := a + b + c;
            s[..|a|] == a && s[|a|..|a| + |b|] == b && s[|a| + |b|..] == c
  {
  }

  lemma MatchTail(input: seq<string>, old_: seq<string>, l: nat, w: int)
    requires l <= |old_| && 0 <= w + l && 0 <= w + |old_| <= |input|
    requires |old_| > 0 ==> MatchesAt(input, old_, w + 1)
    ensures input[w + l..w + |old_|] == old_[l..]
  {
    if |old_| > 0 {
      assert input[w + l..w + |old_|] == input[w..w + |old_|][l..];
    }
  }

  lemma OldHasLead(body: seq<string>)
    requires IsBody(body)
    ensures Lead(body) <= |OldSide(body)| && Lead(body) <= |NewSide(body)|
    ensures OldSide(body)[..Lead(body)] == NewSide(body)[..Lead(body)]
    ensures Lead(body) == |body| ==> OldSide(body) == NewSide(body)
    decreases body
  {
    if body != [] && body[0][0] == ' ' {
      OldHasLead(body[1..]);
    }
  }

  // ----- what a list of hunks does

  /** The line at which patch looks for a hunk. With -R the line of an empty range is not
      moved up by one, as it is without. */
  function FirstLine(h: Hunk, reversed: bool): int
  {
    if reversed && h.lowa > h.upb then h.lowa - 1 else h.lowa
  }

  /** What patch makes of input lines 1..HunkEndOld(hs, k). */
  ghost function Actual(input: seq<string>, new_: seq<string>, hs: seq<Hunk>, reversed: bool, k: nat): seq<string>
    requires IsPatch(input, new_, hs) && k <= |hs|
  {
    if k == 0 then []
    else
      assert HunkOk(input, new_, hs, k - 1);
      var h, i := hs[k - 1], HunkEndOld(hs, k - 1);
      var before := Actual(input, new_, hs, reversed, k - 1);
      if FirstLine(h, reversed) == h.lowa then
        before + input[i..h.lowa - 1] + NewSide(h.body)
      else if FirstLine(h, reversed) == 0 then
        before + input[i..h.lowa - 1]
      else
        before + input[i..h.lowa - 2] + NewSide(h.body) + input[h.lowa - 2..h.lowa - 1]
  }

  /** The number of hunks among the first k that patch cannot place. */
  ghost function Failures(hs: seq<Hunk>, reversed: bool, k: nat): nat
    requires k <= |hs|
  {
    if k == 0 then 0 else Failures(hs, reversed, k - 1) + (if FirstLine(hs[k - 1], reversed) == 0 then 1 else 0)
  }

  lemma {:induction false} NotReversed(input: seq<string>, new_: seq<string>, hs: seq<Hunk>, k: nat)
    requires IsPatch(input, new_, hs) && k <= |hs|
    ensures 0 <= HunkEndNew(hs, k) <= |new_|
    ensures Actual(input, new_, hs, false, k) == new_[..HunkEndNew(hs, k)]
    ensures Failures(hs, false, k) == 0
  {
    if k > 0 {
      NotReversed(input, new_, hs, k - 1);
      assert HunkOk(input, new_, hs, k - 1);
      var h, i, j := hs[k - 1], HunkEndOld(hs, k - 1), HunkEndNew(hs, k - 1);
      hide IsPatch, NewSide, OldSide, IsBody;
      PrefixIn3(new_, j, h.lowc - 1, h.upd);
    }
  }

  /** The effect of a hunk whose first line the frontier has not passed. */
  lemma EffectInOrder(input: seq<string>, f0: int, out0: seq<string>, s: Step)
    requires Effect(input, f0, out0, s) && f0 <= s.where - 1
    requires s.where - 1 + |OldSide(s.body)| <= |input|
    ensures s.f <= s.where - 1 + |OldSide(s.body)|
    ensures s.out + Slice(input, s.f, s.where - 1 + |OldSide(s.body)|)
         == out0 + Slice(input, f0, s.where - 1) + NewSide(s.body)
  {
    hide OldSide, NewSide, Lead, IsBody, Slice;
    var l, w := Lead(s.body), s.where - 1;
    var e := w + |OldSide(s.body)|;
    OldHasLead(s.body);
    var old_, new_ := OldSide(s.body), NewSide(s.body);
    SliceJoins(input, f0, w, w + l);
    SliceJoins(input, f0, w, e);
    SliceIs(input, old_, l, w);
    hide MatchesAt;
    assert new_ == new_[..l] + new_[l..];
    if l < |s.body| {
      Four(out0, Slice(input, f0, w), new_[..l], new_[l..]);
    } else {
      LeadAll(s.body);
      Assoc(out0, Slice(input, f0, w), new_);
    }
  }

  lemma LeadAll(body: seq<string>)
    requires IsBody(body) && Lead(body) == |body|
    ensures |OldSide(body)| == |body| && OldSide(body) == NewSide(body)
    decreases body
  {
    if body != [] {
      LeadAll(body[1..]);
    }
  }

  lemma SliceIs(input: seq<string>, old_: seq<string>, l: nat, w: int)
    requires l <= |old_| && 0 <= w && w + |old_| <= |input|
    requires |old_| > 0 ==> MatchesAt(input, old_, w + 1)
    ensures Slice(input, w, w + l) == old_[..l] && Slice(input, w, w + |old_|) == old_
  {
    if |old_| > 0 {
      assert input[w..w + |old_|] == old_;
      Within(input, w, w + |old_|, l);
    }
  }

  // ----- one hunk of a plan

  /** Before hunk k: what is written, with the lines not yet copied, is Actual. */
  ghost predicate Planned(input: seq<string>, new_: seq<string>, hs: seq<Hunk>, reversed: bool, k: nat,
                          f: int, out: seq<string>)
    requires IsPatch(input, new_, hs) && k <= |hs|
  {
    0 <= f <= HunkEndOld(hs, k) && out + Slice(input, f, HunkEndOld(hs, k)) == Actual(input, new_, hs, reversed, k)
  }

  lemma HunkAtPlace(input: seq<string>, new_: seq<string>, hs: seq<Hunk>, k: nat)
    requires IsPatch(input, new_, hs) && k < |hs|
    ensures var h := hs[k];
            && 0 <= HunkEndOld(hs, k) < h.lowa <= h.upb + 1 <= |input| + 1
            && 0 <= HunkEndNew(hs, k) < h.lowc <= h.upd + 1 <= |new_| + 1
            && (k > 0 ==> HunkEndOld(hs, k) < h.lowa - 1)
            && IsBody(h.body)
            && |OldSide(h.body)| == h.upb - h.lowa + 1 && |NewSide(h.body)| == h.upd - h.lowc + 1
            && (h.lowa <= h.upb ==> MatchesAt(input, OldSide(h.body), h.lowa))
            && HunkEndOld(hs, k + 1) == h.upb
  {
    assert HunkOk(input, new_, hs, k);
  }

  lemma PlanStep(input: seq<string>, new_: seq<string>, hs: seq<Hunk>, reversed: bool, k: nat,
                 f0: int, out0: seq<string>, s: Step)
    requires IsPatch(input, new_, hs) && k < |hs|
    requires Planned(input, new_, hs, reversed, k, f0, out0)
    requires FirstLine(hs[k], reversed) != 0 && s.where == FirstLine(hs[k], reversed) && s.body == hs[k].body
    requires Effect(input, f0, out0, s)
    ensures Planned(input, new_, hs, reversed, k + 1, s.f, s.out)
  {
    hide IsPatch, OldSide, NewSide, IsBody, Slice, Effect, Actual;
    HunkAtPlace(input, new_, hs, k);
    EffectFrontier(input, f0, out0, s);
    EffectInOrder(input, f0, out0, s);
    ActualNext(input, new_, hs, reversed, k);
    var h, i := hs[k], HunkEndOld(hs, k);
    var before, add := Actual(input, new_, hs, reversed, k), NewSide(h.body);
    JoinAt(input, f0, i, s.where - 1, out0, before);
    if FirstLine(h, reversed) != h.lowa {
      JoinAt(input, s.f, h.lowa - 2, h.lowa - 1, s.out, before + input[i..h.lowa - 2] + add);
    }
  }

  lemma ActualNext(input: seq<string>, new_: seq<string>, hs: seq<Hunk>, reversed: bool, k: nat)
    requires IsPatch(input, new_, hs) && k < |hs|
    ensures IsBody(hs[k].body) && 0 <= HunkEndOld(hs, k) < hs[k].lowa <= |input| + 1
    ensures var h, i, before := hs[k], HunkEndOld(hs, k), Actual(input, new_, hs, reversed, k);
            && (FirstLine(h, reversed) == h.lowa ==>
                  Actual(input, new_, hs, reversed, k + 1) == before + input[i..h.lowa - 1] + NewSide(h.body))
            && (FirstLine(h, reversed) != h.lowa && FirstLine(h, reversed) != 0 ==>
                  && i <= h.lowa - 2
                  && Actual(input, new_, hs, reversed, k + 1)
                     == before + input[i..h.lowa - 2] + NewSide(h.body) + input[h.lowa - 2..h.lowa - 1])
  {
    hide OldSide, NewSide;
    assert HunkOk(input, new_, hs, k);
  }

  /** Moving the point up to which the output is completed. */
  lemma JoinAt(input: seq<string>, f: int, a: int, b: int, out: seq<string>, before: seq<string>)
    requires 0 <= f <= a <= b <= |input| && out + Slice(input, f, a) == before
    ensures out + Slice(input, f, b) == before + input[a..b]
  {
    hide Slice;
    SliceJoins(input, f, a, b);
    SliceWhole(input, a, b);
    assert out + (Slice(input, f, a) + Slice(input, a, b)) == out + Slice(input, f, a) + Slice(input, a, b);
  }

  lemma EffectFrontier(input: seq<string>, f0: int, out0: seq<string>, s: Step)
    requires Effect(input, f0, out0, s)
    ensures 0 <= f0 && 0 <= s.f && IsBody(s.body)
  {
  }

  lemma SliceWhole(input: seq<string>, a: int, b: int)
    requires 0 <= a <= b <= |input|
    ensures Slice(input, a, b) == input[a..b]
  {
  }

  lemma PlanSkips(input: seq<string>, new_: seq<string>, hs: seq<Hunk>, reversed: bool, k: nat, f0: int,
                  out0: seq<string>)
    requires IsPatch(input, new_, hs) && k < |hs|
    requires Planned(input, new_, hs, reversed, k, f0, out0) && FirstLine(hs[k], reversed) == 0
    ensures Planned(input, new_, hs, reversed, k + 1, f0, out0)
  {
    hide IsPatch, OldSide, NewSide, IsBody;
    HunkAtPlace(input, new_, hs, k);
  }

  /** Where a planned hunk is looked for, it is found. */
  lemma PlanLocates(input: seq<string>, new_: seq<string>, hs: seq<Hunk>, reversed: bool, k: nat, f0: int,
                    out0: seq<string>)
    requires IsPatch(input, new_, hs) && k < |hs|
    requires Planned(input, new_, hs, reversed, k, f0, out0)
    ensures IsBody(hs[k].body)
    ensures |OldSide(hs[k].body)| > 0 ==> MatchesAt(input, OldSide(hs[k].body), FirstLine(hs[k], reversed))
    ensures FirstLine(hs[k], reversed) != 0 ==> 0 <= f0 <= FirstLine(hs[k], reversed) - 1
  {
    hide IsPatch, OldSide, NewSide, IsBody;
    HunkAtPlace(input, new_, hs, k);
  }

  /** Locate the hunk in memory, and apply it or reject it. */
  method LocateAndApply(p: Patcher, ghost body: seq<string>) returns (ok: bool, failed: bool, ghost s: Step)
    requires p.Loaded(body) && 0 <= p.last_frozen_line && IsBody(body)
    modifies p`last_offset, p`last_frozen_line, p`ofp
    ensures 0 <= p.last_frozen_line
    ensures s.body == body && Located(p.input, OldSide(body), p.p_first + old(p.last_offset), s.where)
    ensures p.last_offset == OffsetAfter(old(p.last_offset), p.p_first, OldSide(body), s.where)
    ensures failed <==> s.where == 0
    ensures ok <==> CanApply(old(p.last_frozen_line), body, s.where)
    ensures failed ==> ok && p.last_frozen_line == old(p.last_frozen_line) && p.ofp == old(p.ofp)
    ensures ok && !failed ==>
      && Effect(p.input, old(p.last_frozen_line), old(p.ofp), s)
      && s.f == p.last_frozen_line && s.out == p.ofp
    ensures old(p.last_offset) == 0 && (|OldSide(body)| > 0 ==> MatchesAt(p.input, OldSide(body), p.p_first)) ==>
      && p.last_offset == 0 && (failed <==> p.p_first == 0) && (!failed ==> s.where == p.p_first)
      && (failed || old(p.last_frozen_line) <= p.p_first - 1 ==> ok)
  {
    hide OldSide, NewSide, Lead, IsBody, Slice, SideTags, MatchesAt;
    ghost var f0, out0, at := p.last_frozen_line, p.ofp, p.p_first + p.last_offset;
    var where := p.LocateHunk(body);
    LocatedMeans(p.input, OldSide(body), at, where);
    s := Step(where, body, f0, out0);
    if where == 0 {
      return true, true, s;
    }
    failed := false;
    ok := p.ApplyHunk(where, body);
    s := Step(where, body, p.last_frozen_line, p.ofp);
  }

  // ----- the whole patch

  function SwapAll(hs: seq<Hunk>): (r: seq<Hunk>)
    requires forall k :: 0 <= k < |hs| ==> IsBody(hs[k].body)
    ensures |r| == |hs| && forall k :: 0 <= k < |hs| ==> r[k] == SwapHunk(hs[k])
  {
    seq(|hs|, k requires 0 <= k < |hs| => SwapHunk(hs[k]))
  }

  /** The hunks as patch applies them. */
  function Directed(hs: seq<Hunk>, reversed: bool): (r: seq<Hunk>)
    requires forall k :: 0 <= k < |hs| ==> IsBody(hs[k].body)
    ensures |r| == |hs|
  {
    if reversed then SwapAll(hs) else hs
  }

  /** Hunks that can be printed and that stay within patch's line numbers. */
  ghost predicate Readable(hs: seq<Hunk>)
  {
    forall k :: 0 <= k < |hs| ==> HunkReadable(hs[k])
  }

  ghost predicate HunkReadable(h: Hunk)
  {
    && IsBody(h.body)
    && 1 <= h.lowa <= h.upb + 1 && 1 <= h.lowc <= h.upd + 1
    && |OldSide(h.body)| == h.upb - h.lowa + 1 && |NewSide(h.body)| == h.upd - h.lowc + 1
    && h.upb < 0x7fff_ffff && h.upd < 0x7fff_ffff
  }

  lemma ReadableIsPrintable(hs: seq<Hunk>)
    requires Readable(hs)
    ensures Printable(hs) && forall k :: 0 <= k <= |hs| ==> Printable(hs[..k])
    ensures forall k :: 0 <= k < |hs| ==> IsBody(hs[k].body)
  {
    assert forall k :: 0 <= k < |hs| ==> HunkReadable(hs[k]);
  }

  /** Hunk k is the next thing to read at the end of the text of its predecessors. */
  lemma NextHunkAt(hs: seq<Hunk>, k: nat)
    requires Readable(hs) && k < |hs|
    ensures Printable(hs) && Printable(hs[..k]) && Printable(hs[..k + 1])
    ensures HunkAt(PatchText(hs), |PatchText(hs[..k])|, hs[k])
    ensures |PatchText(hs[..k + 1])| == |PatchText(hs[..k])| + 1 + |hs[k].body|
  {
    hide Printable, PatchText, Header, OldSide, NewSide, IsBody, IsSpecial;
    ReadableIsPrintable(hs);
    var a, h := PatchText(hs[..k]), hs[k];
    assert HunkReadable(h);
    PatchTextAround(hs, k);
    var rest := PatchText(hs[k + 1..]);
    RestNotSpecial(hs[k + 1..]);
    assert a + ([Header(h)] + h.body) + rest == a + [Header(h)] + h.body + rest;
    TextParts(a, Header(h), h.body, rest);
  }

  lemma TextParts(a: seq<string>, x: string, b: seq<string>, c: seq<string>)
    requires !IsSpecial(c, 0)
    ensures var s, p := a + [x] + b + c, |a|;
            && p < |s| && s[p] == x && p + 1 + |b| <= |s| && s[p + 1..p + 1 + |b|] == b
            && !IsSpecial(s, p + 1 + |b|)
  {
    var s := a + [x] + b + c;
    assert |a| + 1 + |b| < |s| ==> s[|a| + 1 + |b|] == c[0];
  }

  lemma RestNotSpecial(hs: seq<Hunk>)
    requires Printable(hs)
    ensures !IsSpecial(PatchText(hs), 0)
  {
    if hs != [] {
      assert PatchText(hs)[0] == Header(hs[0]);
      assert Header(hs[0])[0] == '@';
    }
  }

  /** What the loop of main has done after k hunks of a plan. */
  ghost predicate OnPlan(input: seq<string>, new_: seq<string>, hs: seq<Hunk>, reversed: bool, k: nat,
                         pos: nat, offset: int, f: int, out: seq<string>, failed: nat)
  {
    && Readable(hs) && k <= |hs| && Printable(hs[..k])
    && (forall l :: 0 <= l < |hs| ==> IsBody(hs[l].body))
    && IsPatch(input, new_, Directed(hs, reversed))
    && pos == |PatchText(hs[..k])| && offset == 0
    && Planned(input, new_, Directed(hs, reversed), reversed, k, f, out)
    && failed == Failures(Directed(hs, reversed), reversed, k)
  }

  /** text is that of hunks that describe how the input differs from another file, or with
      -R how that file differs from it. */
  ghost predicate IsPlan(input: seq<string>, new_: seq<string>, hs: seq<Hunk>, text: seq<string>, reversed: bool)
  {
    IsText(hs, text) && IsPatch(input, new_, Directed(hs, reversed))
  }

  /** text is that of well-formed hunks. */
  ghost predicate IsText(hs: seq<Hunk>, text: seq<string>)
  {
    && Readable(hs) && Printable(hs) && (forall l :: 0 <= l < |hs| ==> IsBody(hs[l].body))
    && text == PatchText(hs)
  }

  /** What the plan says of hunk k before it is read. */
  lemma PlanNow(input: seq<string>, new_: seq<string>, hs: seq<Hunk>, text: seq<string>, reversed: bool, k: nat,
                pos: nat, offset: int, f: int, out: seq<string>, failed: nat)
    requires OnPlan(input, new_, hs, reversed, k, pos, offset, f, out, failed) && k < |hs|
    requires IsPlan(input, new_, hs, text, reversed)
    ensures offset == 0
    ensures (forall l :: 0 <= l < |hs| ==> IsBody(hs[l].body)) && IsBody(Directed(hs, reversed)[k].body)
    ensures var g := HunkOf(text, pos);
            && g.Got? && g.next == pos + 1 + |hs[k].body| && IsBody(g.body)
            && TurnedBody(g, reversed) == Directed(hs, reversed)[k].body
            && TurnedFirst(g, reversed) == FirstAt(hs, reversed, k)
    ensures var first, old_ := FirstAt(hs, reversed, k), OldSide(Directed(hs, reversed)[k].body);
            && (|old_| > 0 ==> MatchesAt(input, old_, first)) && (first != 0 ==> 0 <= f <= first - 1)
            && (!reversed ==> first == hs[k].lowa >= 1)
  {
    hide IsPatch, Planned, Printable, PatchText, OldSide, NewSide, IsBody, MatchesAt, HunkReadable, HunkOf, HunkAt,
      SwapBody;
    PlanLocates(input, new_, Directed(hs, reversed), reversed, k, f, out);
    assert HunkReadable(hs[k]);
    HunkBounds(hs[k]);
    FirstLineIs(hs[k]);
    NextHunkAt(hs, k);
    PrintedIsRead(text, pos, hs[k]);
  }

  /** The line at which hunk k is looked for, without an offset. */
  ghost function FirstAt(hs: seq<Hunk>, reversed: bool, k: nat): int
    requires k < |hs| && forall l :: 0 <= l < |hs| ==> IsBody(hs[l].body)
  {
    FirstLine(Directed(hs, reversed)[k], reversed)
  }

  /** A hunk that is found at where can be applied: it was not found, changes nothing, or
      its first change is not before the frontier. */
  ghost predicate CanApply(f: int, body: seq<string>, where: int)
  {
    where == 0 || Lead(body) == |body| || f <= where - 1 + Lead(body)
  }

  /** The line at which a hunk is looked for after AnotherHunk and, with -R, PchSwap. */
  lemma FirstLineIs(h: Hunk)
    requires IsBody(h.body) && 1 <= h.lowa <= h.upb + 1 && 1 <= h.lowc <= h.upd + 1
    ensures FirstLine(h, false) == h.lowa
    ensures FirstLine(SwapHunk(h), true) == RangeFirst(h.lowc, h.upd)
    ensures SwapHunk(h).body == SwapBody(h.body)
  {
  }

  /** Reading, turning around, locating and applying hunk k of a plan keeps to the plan. */
  lemma PlanNext(input: seq<string>, new_: seq<string>, hs: seq<Hunk>, reversed: bool, k: nat,
                 pos: nat, f0: int, out0: seq<string>, n: nat, pos': nat, where: int, failed: bool, s: Step)
    requires OnPlan(input, new_, hs, reversed, k, pos, 0, f0, out0, n) && k < |hs|
    requires pos' == pos + 1 + |hs[k].body|
    requires (forall l :: 0 <= l < |hs| ==> IsBody(hs[l].body)) && where == FirstAt(hs, reversed, k)
    requires failed <==> where == 0
    requires !failed ==> s.where == where && s.body == Directed(hs, reversed)[k].body && Effect(input, f0, out0, s)
    ensures failed ==> OnPlan(input, new_, hs, reversed, k + 1, pos', 0, f0, out0, n + 1)
    ensures !failed ==> OnPlan(input, new_, hs, reversed, k + 1, pos', 0, s.f, s.out, n)
  {
    hide Effect, PatchText, Printable, IsPatch, Planned, HunkReadable;
    NextHunkAt(hs, k);
    if failed {
      PlanSkips(input, new_, Directed(hs, reversed), reversed, k, f0, out0);
    } else {
      PlanStep(input, new_, Directed(hs, reversed), reversed, k, f0, out0, s);
    }
  }

  lemma LocatedMeans(input: seq<string>, old_: seq<string>, at: int, where: int)
    requires Located(input, old_, at, where)
    ensures |old_| > 0 && where != 0 ==> MatchesAt(input, old_, where)
    ensures |old_| == 0 || MatchesAt(input, old_, at) ==> where == at
  {
    if |old_| > 0 && MatchesAt(input, old_, at) {
      LocatedThere(input, old_, at, where);
    }
  }

  // ----- where the hunks of a run are found

  /** A hunk that was looked for: the first line its header gives, and where it was found. */
  datatype Try = Try(first: int, body: seq<string>, where: int)

  ghost predicate Bodies(tries: seq<Try>) { forall k :: 0 <= k < |tries| ==> IsBody(tries[k].body) }

  /** How far hunks are off after the first k. */
  ghost function OffsetAt(tries: seq<Try>, k: nat): int
    requires k <= |tries| && Bodies(tries)
  {
    if k == 0 then 0
    else
      var t := tries[k - 1];
      OffsetAfter(OffsetAt(tries, k - 1), t.first, OldSide(t.body), t.where)
  }

  /** Each hunk was found where the input and the offset so far say. */
  ghost predicate AllLocated(input: seq<string>, tries: seq<Try>)
  {
    && Bodies(tries)
    && forall k :: 0 <= k < |tries| ==> LocatedAt(input, tries, k)
  }

  ghost predicate LocatedAt(input: seq<string>, tries: seq<Try>, k: nat)
    requires k < |tries| && Bodies(tries)
  {
    Located(input, OldSide(tries[k].body), tries[k].first + OffsetAt(tries, k), tries[k].where)
  }

  /** The hunks that were found. */
  ghost function Found(tries: seq<Try>): seq<Try>
  {
    if tries == [] then []
    else Found(tries[..|tries| - 1]) + if tries[|tries| - 1].where == 0 then [] else [tries[|tries| - 1]]
  }

  /** The log holds exactly these. */
  ghost predicate LogOf(log: seq<Step>, found: seq<Try>)
  {
    |log| == |found| && forall k :: 0 <= k < |log| ==> log[k].where == found[k].where && log[k].body == found[k].body
  }

  /** The places are determined: the same hunks are found at the same lines. */
  lemma {:induction false} PlacesDetermined(input: seq<string>, tries: seq<Try>, tries': seq<Try>, k: nat)
    requires AllLocated(input, tries) && AllLocated(input, tries') && |tries| == |tries'| && k <= |tries|
    requires forall l :: 0 <= l < |tries| ==> tries[l].first == tries'[l].first && tries[l].body == tries'[l].body
    ensures OffsetAt(tries, k) == OffsetAt(tries', k)
    ensures forall l :: 0 <= l < k ==> tries[l] == tries'[l]
  {
    hide Located, IsBody, OldSide;
    if k > 0 {
      PlacesDetermined(input, tries, tries', k - 1);
      var t := tries[k - 1];
      assert LocatedAt(input, tries, k - 1) && LocatedAt(input, tries', k - 1);
      LocatedOnce(input, OldSide(t.body), t.first + OffsetAt(tries, k - 1), t.where, tries'[k - 1].where);
    }
  }

  lemma {:induction false} OffsetStays(tries: seq<Try>, t: Try, k: nat)
    requires k <= |tries| && Bodies(tries) && Bodies(tries + [t])
    ensures OffsetAt(tries + [t], k) == OffsetAt(tries, k)
  {
    if k > 0 {
      OffsetStays(tries, t, k - 1);
    }
  }

  /** One more hunk. */
  lemma TryGrows(input: seq<string>, tries: seq<Try>, t: Try)
    requires AllLocated(input, tries) && IsBody(t.body)
    requires Located(input, OldSide(t.body), t.first + OffsetAt(tries, |tries|), t.where)
    ensures AllLocated(input, tries + [t])
    ensures OffsetAt(tries + [t], |tries| + 1)
         == OffsetAfter(OffsetAt(tries, |tries|), t.first, OldSide(t.body), t.where)
    ensures Found(tries + [t]) == Found(tries) + if t.where == 0 then [] else [t]
  {
    hide Located, IsBody, OldSide, OffsetAt, OffsetAfter, Found, Bodies;
    var ts := tries + [t];
    BodiesGrow(tries, t);
    FoundNext(tries, t);
    OffsetNext(tries, t);
    forall k | 0 <= k < |ts|
      ensures LocatedAt(input, ts, k)
    {
      LocatedStays(input, tries, t, k);
    }
  }

  lemma BodiesGrow(tries: seq<Try>, t: Try)
    requires Bodies(tries) && IsBody(t.body)
    ensures Bodies(tries + [t])
  {
    hide IsBody;
  }

  lemma LocatedStays(input: seq<string>, tries: seq<Try>, t: Try, k: nat)
    requires AllLocated(input, tries) && Bodies(tries + [t]) && IsBody(t.body) && k <= |tries|
    requires Located(input, OldSide(t.body), t.first + OffsetAt(tries, |tries|), t.where)
    ensures LocatedAt(input, tries + [t], k)
  {
    hide Located, IsBody, OldSide, OffsetAt;
    OffsetStays(tries, t, k);
    if k < |tries| {
      assert LocatedAt(input, tries, k);
    }
  }

  lemma FoundNext(tries: seq<Try>, t: Try)
    ensures Found(tries + [t]) == Found(tries) + if t.where == 0 then [] else [t]
  {
    assert (tries + [t])[..|tries|] == tries;
  }

  lemma OffsetNext(tries: seq<Try>, t: Try)
    requires Bodies(tries) && IsBody(t.body) && Bodies(tries + [t])
    ensures OffsetAt(tries + [t], |tries| + 1)
         == OffsetAfter(OffsetAt(tries, |tries|), t.first, OldSide(t.body), t.where)
  {
    hide OffsetAfter, OldSide, IsBody;
    OffsetStays(tries, t, |tries|);
  }

  lemma LogGrows(log: seq<Step>, found: seq<Try>, s: Step, t: Try)
    requires LogOf(log, found) && s.where == t.where && s.body == t.body
    ensures LogOf(log + [s], found + [t])
  {
  }

  // ----- the hunks of a patch, whatever its text

  /** The first line and the body of a hunk that was read, turned around with -R. */
  ghost function TurnedFirst(g: Reading, reversed: bool): int
    requires g.Got?
  {
    if reversed then g.newfirst else g.first
  }

  ghost function TurnedBody(g: Reading, reversed: bool): seq<string>
    requires g.Got? && IsBody(g.body)
  {
    if reversed then SwapBody(g.body) else g.body
  }

  /** The hunks looked for are those of the patch, in order. */
  ghost predicate TriesOf(tries: seq<Try>, gs: seq<Reading>, reversed: bool)
  {
    |tries| <= |gs| && forall k :: 0 <= k < |tries| ==> TryOf(tries[k], gs[k], reversed)
  }

  ghost predicate TryOf(t: Try, g: Reading, reversed: bool)
  {
    && g.Got? && IsBody(g.body)
    && t.first == TurnedFirst(g, reversed) && t.body == TurnedBody(g, reversed)
  }

  lemma TriesGrow(tries: seq<Try>, gs: seq<Reading>, reversed: bool, t: Try)
    requires TriesOf(tries, gs, reversed) && |tries| < |gs| && TryOf(t, gs[|tries|], reversed)
    ensures TriesOf(tries + [t], gs, reversed)
  {
    hide TryOf;
  }

  /** Hunk k of the patch comes next at a position. */
  ghost predicate AtHunk(text: seq<string>, gs: Hunks, k: nat, pos: nat)
  {
    k <= |gs.hunks| && HunksOf(text, pos) == Hunks(gs.hunks[k..], gs.ended)
  }

  lemma FirstHunk(text: seq<string>)
    ensures AtHunk(text, HunksOf(text, 0), 0, 0) && TriesOf([], HunksOf(text, 0).hunks, true)
      && TriesOf([], HunksOf(text, 0).hunks, false)
  {
    var gs := HunksOf(text, 0).hunks;
    assert gs[0..] == gs;
  }

  /** Reading on in the patch. */
  lemma HunkNext(text: seq<string>, gs: Hunks, k: nat, pos: nat)
    requires AtHunk(text, gs, k, pos)
    ensures var g := HunkOf(text, pos);
            if g.Got? then
              pos < g.next <= |text| && k < |gs.hunks| && gs.hunks[k] == g && AtHunk(text, gs, k + 1, g.next)
            else k == |gs.hunks| && gs.ended == g.NoHunk?
  {
    hide HunkOf;
    HunkAdvances(text, pos);
    var g := HunkOf(text, pos);
    if g.Got? {
      var rest := HunksOf(text, g.next).hunks;
      assert gs.hunks[k..] == [g] + rest;
      assert gs.hunks[k] == gs.hunks[k..][0];
      assert gs.hunks[k + 1..] == gs.hunks[k..][1..] == rest;
    }
  }

  /** The text of hunks is read as these hunks. */
  lemma {:induction false} TextIsRead(hs: seq<Hunk>, text: seq<string>, k: nat)
    requires IsText(hs, text) && k <= |hs|
    ensures Printable(hs[..k])
    ensures var gs := HunksOf(text, |PatchText(hs[..k])|);
            && gs.ended && |gs.hunks| == |hs| - k
            && forall l :: k <= l < |hs| ==> ReadAs(gs.hunks[l - k], hs[l])
    decreases |hs| - k
  {
    hide Printable, PatchText, HunkOf, IsBody, HunkReadable, HunkAt, ReadAs;
    if k == |hs| {
      assert hs[..k] == hs;
      EndOfText(text);
    } else {
      NextHunkAt(hs, k);
      var pos := |PatchText(hs[..k])|;
      PrintedReadAs(text, pos, hs[k]);
      TextIsRead(hs, text, k + 1);
      var gs, rest := HunksOf(text, pos).hunks, HunksOf(text, HunkOf(text, pos).next).hunks;
      HunkAdvances(text, pos);
      assert gs == [HunkOf(text, pos)] + rest;
      forall l | k <= l < |hs|
        ensures ReadAs(gs[l - k], hs[l])
      {
        assert l > k ==> gs[l - k] == rest[l - (k + 1)];
      }
    }
  }

  ghost predicate ReadAs(g: Reading, h: Hunk)
  {
    g.Got? && g.first == h.lowa && g.newfirst == RangeFirst(h.lowc, h.upd) && g.body == h.body
  }

  lemma PrintedReadAs(text: seq<string>, pos: nat, h: Hunk)
    requires HunkAt(text, pos, h)
    ensures var g := HunkOf(text, pos); ReadAs(g, h) && g.Got? && g.next == pos + 1 + |h.body|
  {
    hide HunkAt, HunkOf;
    PrintedIsRead(text, pos, h);
  }

  lemma EndOfText(text: seq<string>)
    ensures HunkOf(text, |text|).NoHunk?
  {
  }

  /** The run stopped because the last hunk begins before the frontier. */
  ghost predicate OutOfOrder(log: seq<Step>, tries: seq<Try>)
  {
    && tries != [] && LogOf(log, Found(tries[..|tries| - 1]))
    && !CanApply(FrontierAt(log, |log|), tries[|tries| - 1].body, tries[|tries| - 1].where)
  }

  /** All hunks were looked for, and the last one applied lies past the end of the file. */
  ghost predicate PastEnd(input: seq<string>, log: seq<Step>, tries: seq<Try>)
  {
    LogOf(log, Found(tries)) && input != [] && FrontierAt(log, |log|) > |input|
  }

  /** The state of the run, as far as places go. */
  ghost predicate Tracked(input: seq<string>, tries: seq<Try>, log: seq<Step>, offset: int, failed: nat)
  {
    && AllLocated(input, tries) && offset == OffsetAt(tries, |tries|)
    && LogOf(log, Found(tries)) && failed == |tries| - |Found(tries)|
  }

  lemma TrackStarts(input: seq<string>)
    ensures Tracked(input, [], [], 0, 0)
  {
  }

  lemma TrackEnds(input: seq<string>, tries: seq<Try>, log: seq<Step>, offset: int, failed: nat)
    requires Tracked(input, tries, log, offset, failed)
    ensures AllLocated(input, tries) && LogOf(log, Found(tries)) && failed == |tries| - |Found(tries)|
  {
  }

  lemma TrackLast(input: seq<string>, tries: seq<Try>, log: seq<Step>, offset: int, failed: nat, t: Try)
    requires Tracked(input, tries, log, offset, failed) && IsBody(t.body)
    requires Located(input, OldSide(t.body), t.first + offset, t.where)
    ensures AllLocated(input, tries + [t]) && (tries + [t])[..|tries|] == tries
  {
    hide Located, IsBody, OldSide, AllLocated, LogOf;
    TryGrows(input, tries, t);
  }

  lemma TrackNext(input: seq<string>, tries: seq<Try>, log: seq<Step>, offset: int, failed: nat, t: Try, s: Step)
    requires Tracked(input, tries, log, offset, failed) && IsBody(t.body)
    requires Located(input, OldSide(t.body), t.first + offset, t.where) && s.where == t.where && s.body == t.body
    ensures var offset' := OffsetAfter(offset, t.first, OldSide(t.body), t.where);
            if t.where == 0 then Tracked(input, tries + [t], log, offset', failed + 1)
            else Tracked(input, tries + [t], log + [s], offset', failed)
  {
    hide Located, IsBody, OldSide, AllLocated, LogOf, OffsetAfter;
    TryGrows(input, tries, t);
    LogGrows(log, Found(tries), s, t);
    Empty(Found(tries));
  }

  /** Read a hunk, and with -R turn it around. */
  method FetchHunk(p: Patcher, r: Reader, reverse: bool) returns (res: ReadResult, ghost body: seq<string>)
    modifies p`p_first, p`p_newfirst, p`p_ptrn_lines, p`p_repl_lines, p`p_end, p`p_line, p`p_char, r
    ensures var g := HunkOf(r.lines, old(r.pos));
            && res == (if g.Got? then HunkRead else if g.NoHunk? then EndOfPatch else BadPatch)
            && (g.NoHunk? ==> r.pos == old(r.pos))
            && (g.Got? ==>
                 && IsBody(g.body) && r.pos == g.next && p.Loaded(body) && IsBody(body)
                 && body == TurnedBody(g, reverse) && p.p_first == TurnedFirst(g, reverse))
  {
    hide HunkOf, OldSide, NewSide, IsBody, SwapBody, Holds;
    res, body := AnotherHunk(p, r);
    if !res.HunkRead? {
      return;
    }
    LoadedIsBody(p, body);
    if reverse {
      PchSwap(p, body);
      body := SwapBody(body);
      LoadedIsBody(p, body);
    }
  }

  /** One round of main's hunk loop. */
  method NextHunk(p: Patcher, r: Reader, reverse: bool, failed0: nat,
                  ghost new_: seq<string>, ghost hs: seq<Hunk>, ghost k: nat)
    returns (res: ReadResult, failed: nat, ghost applied: bool, ghost s: Step, ghost t: Try)
    requires 0 <= p.last_frozen_line
    modifies p, r
    ensures var g := HunkOf(r.lines, old(r.pos));
            && (res.EndOfPatch? <==> g.NoHunk?) && (g.Refused? ==> res.BadPatch?)
            && (g.Got? ==>
                 && TryOf(t, g, reverse) && t.where == s.where && t.body == s.body && r.pos == g.next
                 && IsBody(s.body) && Located(p.input, OldSide(s.body), t.first + old(p.last_offset), s.where)
                 && p.last_offset == OffsetAfter(old(p.last_offset), t.first, OldSide(s.body), s.where)
                 && (res.HunkRead? <==> CanApply(old(p.last_frozen_line), s.body, s.where)))
    ensures res.HunkRead? ==> (applied <==> s.where != 0) && failed == failed0 + if applied then 0 else 1
    ensures 0 <= p.last_frozen_line
    ensures res.HunkRead? && applied ==>
      && Effect(p.input, old(p.last_frozen_line), old(p.ofp), s) && s.f == p.last_frozen_line && s.out == p.ofp
    ensures !res.BadPatch? && !applied ==> p.last_frozen_line == old(p.last_frozen_line) && p.ofp == old(p.ofp)
    ensures res.EndOfPatch? ==>
      !applied && failed == failed0 && p.last_offset == old(p.last_offset) && r.pos == old(r.pos)
    ensures old(OnPlan(p.input, new_, hs, reverse, k, r.pos, p.last_offset, p.last_frozen_line, p.ofp, failed0))
            && k < |hs| && IsPlan(p.input, new_, hs, r.lines, reverse) ==>
      && res.HunkRead?
      && OnPlan(p.input, new_, hs, reverse, k + 1, r.pos, p.last_offset, p.last_frozen_line, p.ofp, failed)
      && (!reverse ==> applied && s.where == hs[k].lowa)
  {
    hide Effect, IsPatch, OldSide, NewSide, IsBody, Holds, MatchesAt, Located, OffsetAfter, Lead, CanApply, Directed,
      FirstAt, OnPlan, IsPlan, HunkOf;
    ghost var plan := OnPlan(p.input, new_, hs, reverse, k, r.pos, p.last_offset, p.last_frozen_line, p.ofp, failed0)
                      && k < |hs| && IsPlan(p.input, new_, hs, r.lines, reverse);
    ghost var f0, out0, pos0 := p.last_frozen_line, p.ofp, r.pos;
    if plan {
      PlanNow(p.input, new_, hs, r.lines, reverse, k, r.pos, p.last_offset, f0, out0, failed0);
    }
    failed, applied, s, t := failed0, false, Step(0, [], 0, []), Try(0, [], 0);
    ghost var body;
    res, body := FetchHunk(p, r, reverse);
    if !res.HunkRead? {
      return;
    }
    var ok, rejected;
    ok, rejected, s := LocateAndApply(p, body);
    t := Try(p.p_first, s.body, s.where);
    if !ok {
      return BadPatch, failed, false, s, t;
    }
    applied := !rejected;
    if rejected {
      failed := failed + 1;
    }
    if plan {
      PlanNext(p.input, new_, hs, reverse, k, pos0, f0, out0, failed0, r.pos, p.p_first, rejected, s);
    }
  }

  lemma HunkBounds(h: Hunk)
    requires HunkReadable(h)
    ensures IsBody(h.body) && 1 <= h.lowa <= h.upb + 1 && 1 <= h.lowc <= h.upd + 1
  {
  }

  lemma LoadedIsBody(p: Patcher, body: seq<string>)
    requires p.Loaded(body)
    ensures IsBody(body) && p.p_ptrn_lines == |OldSide(body)|
  {
  }

  lemma NoText()
    ensures Printable([]) && PatchText([]) == []
  {
  }

  lemma PlanStarts(input: seq<string>, new_: seq<string>, hs: seq<Hunk>, text: seq<string>, reversed: bool)
    requires IsPlan(input, new_, hs, text, reversed)
    ensures OnPlan(input, new_, hs, reversed, 0, 0, 0, 0, [], 0)
  {
    hide IsPatch, Readable, IsBody, Planned, Directed, Failures, Printable, PatchText;
    assert hs[..0] == [];
    NoText();
    NothingDone(input, new_, Directed(hs, reversed), reversed);
  }

  lemma NothingDone(input: seq<string>, new_: seq<string>, hs: seq<Hunk>, reversed: bool)
    requires IsPatch(input, new_, hs)
    ensures Planned(input, new_, hs, reversed, 0, 0, []) && Failures(hs, reversed, 0) == 0
  {
    hide IsPatch;
  }

  /** What the plan comes to. */
  ghost function Final(input: seq<string>, new_: seq<string>, hs: seq<Hunk>, reversed: bool): seq<string>
    requires IsPatch(input, new_, hs)
  {
    Actual(input, new_, hs, reversed, |hs|) + input[HunkEndOld(hs, |hs|)..]
  }

  lemma PlanEnds(input: seq<string>, new_: seq<string>, hs: seq<Hunk>, text: seq<string>, reversed: bool, pos: nat,
                 offset: int, f: int, out: seq<string>, n: nat)
    requires OnPlan(input, new_, hs, reversed, |hs|, pos, offset, f, out, n) && IsPlan(input, new_, hs, text, reversed)
    ensures 0 <= f <= |input| && pos == |text| && (hs == [] ==> text == [])
    ensures Result(input, f, out) == Final(input, new_, Directed(hs, reversed), reversed)
    ensures n == Failures(Directed(hs, reversed), reversed, |hs|)
  {
    hide PatchText, Printable, Actual, Slice;
    var hs' := Directed(hs, reversed);
    var e := HunkEndOld(hs', |hs'|);
    assert hs[..|hs|] == hs;
    NoText();
    ResultSplits(input, f, out, e, e);
  }

  lemma TraceGrows(input: seq<string>, log: seq<Step>, s: Step)
    requires Trace(input, log) && Effect(input, FrontierAt(log, |log|), OutputAt(log, |log|), s)
    ensures Trace(input, log + [s])
  {
    hide Effect;
    var log' := log + [s];
    forall k | 0 <= k < |log'|
      ensures StepOk(input, log', k)
    {
      if k < |log| {
        assert StepOk(input, log, k);
      }
    }
  }

  /** The state is where the log ends. */
  ghost predicate Logged(input: seq<string>, log: seq<Step>, f: int, out: seq<string>)
  {
    Trace(input, log) && f == FrontierAt(log, |log|) && out == OutputAt(log, |log|)
  }

  /** The first k hunks were applied at the lines that their headers give: offset 0. */
  ghost predicate AtHeaders(log: seq<Step>, hs: seq<Hunk>, k: nat)
  {
    |log| == k <= |hs| && forall l :: 0 <= l < k ==> log[l].where == hs[l].lowa
  }

  lemma NoTrace(input: seq<string>)
    ensures Trace(input, [])
  {
  }

  lemma NoHeaders(hs: seq<Hunk>)
    ensures AtHeaders([], hs, 0)
  {
  }

  lemma HeadersGrow(log: seq<Step>, hs: seq<Hunk>, k: nat, s: Step)
    requires AtHeaders(log, hs, k) && k < |hs| && s.where == hs[k].lowa
    ensures AtHeaders(log + [s], hs, k + 1)
  {
  }

  // ----- a run as a list of splices

  /** How far the lines have moved after the first k hunks. */
  ghost function Moved(log: seq<Step>, k: nat): int
    requires k <= |log| && forall l :: 0 <= l < k ==> IsBody(log[l].body)
  {
    if k == 0 then 0 else Moved(log, k - 1) + |NewSide(log[k - 1].body)| - |OldSide(log[k - 1].body)|
  }

  /** after is before with the changed part of the old side replaced by that of the new
      side, when the hunk begins after at lines; past the end means at the end. */
  ghost predicate Spliced(before: seq<string>, after: seq<string>, body: seq<string>, at: int)
    requires IsBody(body)
  {
    var l, i := Lead(body), Min(at + Lead(body), |before|);
    if l == |body| then after == before
    else
      && l <= |OldSide(body)| && l <= |NewSide(body)| && 0 <= i
      && var j := i + |OldSide(body)| - l;
         j <= |before| && before[i..j] == OldSide(body)[l..]
         && after == before[..i] + NewSide(body)[l..] + before[j..]
  }

  /** rs are the results after each hunk of the log: hunk k changes the lines at the place
      where it was found, moved by what the hunks before it added and deleted. */
  ghost predicate AllSpliced(input: seq<string>, log: seq<Step>, rs: seq<seq<string>>)
  {
    && |rs| == |log| + 1 && rs[0] == input
    && (forall k :: 0 <= k < |log| ==> IsBody(log[k].body))
    && forall k, k' :: 0 <= k && k' == k + 1 && k' <= |log| ==>
         Spliced(rs[k], rs[k'], log[k].body, log[k].where - 1 + Moved(log, k))
  }

  /** The result if patch stopped after k hunks. */
  ghost function Stage(input: seq<string>, log: seq<Step>, k: nat): seq<string>
    requires k <= |log|
  {
    OutputAt(log, k) + Slice(input, FrontierAt(log, k), |input|)
  }

  lemma {:induction false} FrontierGrows(input: seq<string>, log: seq<Step>, k: nat, m: nat)
    requires Trace(input, log) && k <= m <= |log|
    ensures 0 <= FrontierAt(log, k) <= FrontierAt(log, m)
    decreases m
  {
    hide Lead, OldSide, NewSide, IsBody, Slice;
    if m > 0 {
      assert StepOk(input, log, m - 1);
      if k < m {
        FrontierGrows(input, log, k, m - 1);
      }
    }
  }

  /** Lines put out less lines passed is what the hunks so far have added and deleted. */
  lemma {:induction false} MovedIs(input: seq<string>, log: seq<Step>, k: nat)
    requires Trace(input, log) && k <= |log| && input != [] && FrontierAt(log, |log|) <= |input|
    ensures forall l :: 0 <= l < k ==> IsBody(log[l].body)
    ensures |OutputAt(log, k)| - FrontierAt(log, k) == Moved(log, k)
  {
    if k > 0 {
      MovedIs(input, log, k - 1);
      FrontierGrows(input, log, k - 1, |log|);
      FrontierGrows(input, log, k, |log|);
      assert StepOk(input, log, k - 1);
      StepMoves(input, FrontierAt(log, k - 1), OutputAt(log, k - 1), log[k - 1]);
    }
  }

  lemma StepMoves(input: seq<string>, f0: int, out0: seq<string>, s: Step)
    requires Effect(input, f0, out0, s) && f0 <= |input| && s.f <= |input|
    ensures IsBody(s.body) && |s.out| - s.f == |out0| - f0 + |NewSide(s.body)| - |OldSide(s.body)|
  {
    hide IsBody, OldSide, NewSide, Lead;
    OldHasLead(s.body);
    if Lead(s.body) < |s.body| {
      StepInside(input, f0, out0, s);
    }
  }

  /** A hunk that changes something lies within the file if its frontier does. */
  lemma StepInside(input: seq<string>, f0: int, out0: seq<string>, s: Step)
    requires Effect(input, f0, out0, s) && s.f <= |input| && Lead(s.body) < |s.body|
    ensures IsBody(s.body) && 0 <= s.where - 1 + |OldSide(s.body)| <= |input|
    ensures Lead(s.body) <= |OldSide(s.body)|
  {
    hide IsBody, OldSide, NewSide, Lead, Slice;
    OldHasLead(s.body);
  }

  /** Each hunk of a run is a splice. */
  lemma StageSpliced(input: seq<string>, log: seq<Step>, k: nat)
    requires Trace(input, log) && k < |log| && (input == [] || FrontierAt(log, |log|) <= |input|)
    ensures forall l :: 0 <= l <= k ==> IsBody(log[l].body)
    ensures Spliced(Stage(input, log, k), Stage(input, log, k + 1), log[k].body, log[k].where - 1 + Moved(log, k))
  {
    hide IsBody, OldSide, NewSide, Lead, Slice, Effect, Spliced;
    assert StepOk(input, log, k);
    var f0, out0, s := FrontierAt(log, k), OutputAt(log, k), log[k];
    if input == [] {
      EmptyMoves(log, k);
      EmptySpliced(log, k);
    } else {
      MovedIs(input, log, k);
      FrontierGrows(input, log, k, |log|);
      FrontierGrows(input, log, k + 1, |log|);
      InputSpliced(input, f0, out0, s);
    }
  }

  lemma InputSpliced(input: seq<string>, f0: int, out0: seq<string>, s: Step)
    requires Effect(input, f0, out0, s) && f0 <= |input| && s.f <= |input|
    ensures IsBody(s.body)
    ensures Spliced(out0 + Slice(input, f0, |input|), s.out + Slice(input, s.f, |input|), s.body,
                    s.where - 1 + |out0| - f0)
  {
    hide IsBody, OldSide, NewSide, Lead, Slice, MatchesAt;
    SliceToEnd(input, f0, out0);
    SliceToEnd(input, s.f, s.out);
    if Lead(s.body) < |s.body| {
      StepInside(input, f0, out0, s);
      HunkReplaces(input, f0, out0, s);
      hide Effect, Result;
      OldHasLead(s.body);
    }
  }

  lemma SliceToEnd(input: seq<string>, f: int, out: seq<string>)
    requires 0 <= f <= |input|
    ensures out + Slice(input, f, |input|) == Result(input, f, out)
  {
  }

  /** Without input every hunk only adds lines. */
  lemma EmptyStep(f0: int, out0: seq<string>, s: Step)
    requires Effect([], f0, out0, s)
    ensures IsBody(s.body) && OldSide(s.body) == []
    ensures if Lead(s.body) == |s.body| then s.out == out0 && NewSide(s.body) == []
            else Lead(s.body) == 0 && s.where - 1 >= f0 && s.out == out0 + NewSide(s.body)
  {
    hide IsBody, OldSide, NewSide, Lead;
    OldHasLead(s.body);
    assert OldSide(s.body) == [];
    if Lead(s.body) < |s.body| {
      var add := NewSide(s.body);
      assert add[0..] == add && s.out + [] == s.out && out0 + [] + add == out0 + add;
    }
  }

  lemma {:induction false} EmptyMoves(log: seq<Step>, k: nat)
    requires Trace([], log) && k <= |log|
    ensures 0 <= FrontierAt(log, k) && forall l :: 0 <= l < k ==> IsBody(log[l].body)
    ensures |OutputAt(log, k)| == Moved(log, k)
  {
    hide IsBody, OldSide, NewSide, Lead, Effect;
    FrontierGrows([], log, k, k);
    if k > 0 {
      EmptyMoves(log, k - 1);
      assert StepOk([], log, k - 1);
      EmptyStep(FrontierAt(log, k - 1), OutputAt(log, k - 1), log[k - 1]);
    }
  }

  lemma EmptySpliced(log: seq<Step>, k: nat)
    requires Trace([], log) && k < |log| && forall l :: 0 <= l < k ==> IsBody(log[l].body)
    requires |OutputAt(log, k)| == Moved(log, k) && 0 <= FrontierAt(log, k)
    ensures IsBody(log[k].body)
    ensures Spliced(Stage([], log, k), Stage([], log, k + 1), log[k].body, log[k].where - 1 + Moved(log, k))
  {
    hide IsBody, OldSide, NewSide, Lead, Effect, Moved;
    assert StepOk([], log, k);
    var s := log[k];
    EmptyStep(FrontierAt(log, k), OutputAt(log, k), s);
    var before := OutputAt(log, k);
    StageOfNothing(log, k);
    StageOfNothing(log, k + 1);
    hide Stage, Trace;
    AtEnd(before, OldSide(s.body), NewSide(s.body));
  }

  lemma StageOfNothing(log: seq<Step>, k: nat)
    requires k <= |log|
    ensures Stage([], log, k) == OutputAt(log, k)
  {
    Empty(OutputAt(log, k));
  }

  lemma AtEnd(before: seq<string>, old_: seq<string>, add: seq<string>)
    requires old_ == []
    ensures before[|before|..|before|] == old_[0..]
      && before[..|before|] + add[0..] + before[|before|..] == before + add
  {
    assert before[..|before|] == before && before[|before|..] == [];
  }

  /** The result of a run is the input after one splice per hunk. */
  lemma RunSplices(input: seq<string>, log: seq<Step>) returns (rs: seq<seq<string>>)
    requires Trace(input, log) && (input == [] || FrontierAt(log, |log|) <= |input|)
    ensures AllSpliced(input, log, rs) && rs[|log|] == Stage(input, log, |log|)
  {
    hide IsBody, Spliced, Moved, Trace, Stage;
    rs := seq(|log| + 1, k requires 0 <= k <= |log| => Stage(input, log, k));
    StageZero(input, log);
    forall k | 0 <= k < |log|
      ensures IsBody(log[k].body)
    {
      StageSpliced(input, log, k);
    }
    forall k, k' | 0 <= k && k' == k + 1 && k' <= |log|
      ensures Spliced(rs[k], rs[k'], log[k].body, log[k].where - 1 + Moved(log, k))
    {
      StageSpliced(input, log, k);
    }
  }

  lemma StageZero(input: seq<string>, log: seq<Step>)
    ensures Stage(input, log, 0) == input
  {
  }

  /** patch -f -F 0 [-R] on one unified diff; a "\" line in it is skipped. A result is the
      input with one hunk after another applied to it (log), each of them one splice. For
      the text of hunks that describe how the input differs from another file, it is Final. */
  method Run(input: seq<string>, text: seq<string>, reverse: bool, ghost new_: seq<string>, ghost hs: seq<Hunk>)
    returns (res: Outcome, ghost log: seq<Step>, ghost tries: seq<Try>)
    ensures AllLocated(input, tries) && Trace(input, log)
    ensures res.Output? ==> LogOf(log, Found(tries)) && res.failed == |tries| - |Found(tries)|
    ensures TriesOf(tries, HunksOf(text, 0).hunks, reverse)
    ensures var gs := HunksOf(text, 0);
            if res.Output? then |tries| == |gs.hunks| && gs.ended && (gs.hunks == [] ==> text == [])
            else
              || OutOfOrder(log, tries)
              || (|tries| == |gs.hunks| && (!gs.ended || (gs.hunks == [] && text != []) || PastEnd(input, log, tries)))
    ensures res.Output? ==>
      && 0 <= FrontierAt(log, |log|) && (input == [] || FrontierAt(log, |log|) <= |input|)
      && res.lines == OutputAt(log, |log|) + Slice(input, FrontierAt(log, |log|), |input|)
    ensures res.Output? ==> exists rs :: AllSpliced(input, log, rs) && rs[|log|] == res.lines
    ensures IsPlan(input, new_, hs, text, reverse) ==>
      res == Output(Final(input, new_, Directed(hs, reverse), reverse), Failures(Directed(hs, reverse), reverse, |hs|))
    ensures IsPlan(input, new_, hs, text, reverse) && !reverse ==> AtHeaders(log, hs, |hs|)
  {
    hide IsPlan, OnPlan, Directed, Effect, IsPatch, Final, Failures, AllSpliced, AtHeaders, Trace, Slice, Tracked,
      Located, OffsetAfter, AtHunk, HunksOf, HunkOf, TriesOf, TryOf, AllLocated, LogOf, CanApply, IsBody, OldSide;
    ghost var plan, gs := IsPlan(input, new_, hs, text, reverse), HunksOf(text, 0);
    log, tries := [], [];
    TrackStarts(input);
    NoHeaders(hs);
    NoTrace(input);
    FirstHunk(text);
    if plan {
      PlanStarts(input, new_, hs, text, reverse);
    }
    var p := new Patcher(input);
    var r := new Reader(text);
    var failed, hunks := 0, 0;
    var more := true;
    ghost var k := 0;
    while more
      invariant fresh(p) && fresh(r) && p.input == input && r.lines == text && r.pos <= |text|
      invariant 0 <= p.last_frozen_line && Logged(input, log, p.last_frozen_line, p.ofp)
      invariant Tracked(input, tries, log, p.last_offset, failed) && |tries| == k == hunks
      invariant AtHunk(text, gs, k, r.pos) && TriesOf(tries, gs.hunks, reverse)
      invariant !more ==> k == |gs.hunks| && gs.ended
      invariant plan ==>
        k <= |hs| && OnPlan(input, new_, hs, reverse, k, r.pos, p.last_offset, p.last_frozen_line, p.ofp, failed)
      invariant plan && !more ==> k == |hs|
      invariant plan && !reverse ==> AtHeaders(log, hs, k)
      invariant !more ==> hunks > 0 || text == []
      decreases more, |text| - r.pos
    {
      HunkNext(text, gs, k, r.pos);
      if plan && k == |hs| {
        PlanEnds(input, new_, hs, text, reverse, r.pos, p.last_offset, p.last_frozen_line, p.ofp, failed);
        EndOfText(text);
      }
      ghost var offset0, failed0, g := p.last_offset, failed, HunkOf(text, r.pos);
      var got;
      ghost var applied, s, t;
      got, failed, applied, s, t := NextHunk(p, r, reverse, failed, new_, hs, k);
      if g.Got? {
        TriesGrow(tries, gs.hunks, reverse, t);
      }
      if got.BadPatch? {
        TrackEnds(input, tries, log, offset0, failed0);
        if g.Got? {
          TrackLast(input, tries, log, offset0, failed0, t);
          tries := tries + [t];
        }
        return Fatal, log, tries;
      }
      if got.EndOfPatch? {
        if hunks == 0 && text != [] {
          TrackEnds(input, tries, log, offset0, failed0);
          return Fatal, log, tries;
        }
        more := false;
      } else {
        hunks := hunks + 1;
        k := k + 1;
        TrackNext(input, tries, log, offset0, failed0, t, s);
        tries := tries + [t];
        if applied {
          TraceGrows(input, log, s);
          if plan && !reverse {
            HeadersGrow(log, hs, k - 1, s);
          }
          log := log + [s];
        }
      }
    }
    if plan {
      PlanEnds(input, new_, hs, text, reverse, r.pos, p.last_offset, p.last_frozen_line, p.ofp, failed);
    }
    ghost var f, out := p.last_frozen_line, p.ofp;
    var ok := p.SpewOutput();
    if f <= |input| {
      SliceToEnd(input, f, out);
    }
    res := if ok then Output(p.ofp, failed) else Fatal;
    TrackEnds(input, tries, log, p.last_offset, failed);
    if ok {
      ghost var rs := RunSplices(input, log);
    }
  }
}
