/**
 The unified output of diff: the context vector of change, uni_range, fetch and
 dump_unified_vec of cmd/posix/diff.c.
 */
module DiffUnified {
  import opened Basics
  import opened DiffOutput
  import opened EditScript
  import opened UnifiedHunk
  import opened HunkContext
  import opened SeqFacts

  /** The common lines between change k and the one before it. */
  ghost function Gap(cs: seq<Change>, k: nat): int
    requires k < |cs|
  {
    cs[k].a - 1 - EndOld(0, cs, k)
  }

  /** No more than 2 * ctx common lines between any of the changes p..q-1. */
  ghost predicate InnerGaps(cs: seq<Change>, ctx: nat, p: nat, q: nat)
    requires q <= |cs|
  {
    forall t :: p < t < q ==> Gap(cs, t) <= 2 * ctx
  }

  /** Changes p..q-1 form a group: more than 2 * ctx common lines set it off on both
      sides, or it is at an end of the file, and no more are between its changes. */
  ghost predicate IsGroup(cs: seq<Change>, ctx: nat, p: nat, q: nat)
  {
    && p < q <= |cs|
    && (p > 0 ==> Gap(cs, p) > 2 * ctx)
    && (q < |cs| ==> Gap(cs, q) > 2 * ctx)
    && InnerGaps(cs, ctx, p, q)
  }

  function LowA(cs: seq<Change>, ctx: nat, p: nat): int requires p < |cs| { Max(1, cs[p].a - ctx) }
  function LowC(cs: seq<Change>, ctx: nat, p: nat): int requires p < |cs| { Max(1, cs[p].c - ctx) }
  function UpB(cs: seq<Change>, ctx: nat, q: nat, n: nat): int requires 1 <= q <= |cs| { Min(n, cs[q - 1].b + ctx) }
  function UpD(cs: seq<Change>, ctx: nat, q: nat, m: nat): int requires 1 <= q <= |cs| { Min(m, cs[q - 1].d + ctx) }

  // ----- the ranges of a group

  lemma GroupStart(old_: seq<string>, new_: seq<string>, cs: seq<Change>, ctx: nat, p: nat, q: nat)
    requires IsEditScript(old_, new_, cs) && IsGroup(cs, ctx, p, q)
    ensures var i, j := EndOld(0, cs, p), EndNew(0, cs, p);
            var lowa, lowc := LowA(cs, ctx, p), LowC(cs, ctx, p);
            && 0 <= i < lowa <= cs[p].a && 0 <= j < lowc <= cs[p].c
            && lowa - i == lowc - j && cs[p].a - lowa == cs[p].c - lowc
            && (p > 0 ==> i + ctx < lowa - 1)
  {
    assert EditOk(old_, new_, cs, p);
  }

  lemma GroupEnd(old_: seq<string>, new_: seq<string>, cs: seq<Change>, ctx: nat, p: nat, q: nat)
    requires IsEditScript(old_, new_, cs) && IsGroup(cs, ctx, p, q)
    ensures var i, j := EndOld(0, cs, q), EndNew(0, cs, q);
            var upb, upd := UpB(cs, ctx, q, |old_|), UpD(cs, ctx, q, |new_|);
            && 0 <= i <= upb <= |old_| && 0 <= j <= upd <= |new_| && upb - i == upd - j
            && old_[i..upb] == new_[j..upd]
            && (q < |cs| ==> upb == i + ctx && upd == j + ctx)
  {
    assert EditOk(old_, new_, cs, q - 1);
    var i, j := EndOld(0, cs, q), EndNew(0, cs, q);
    var upb, upd := UpB(cs, ctx, q, |old_|), UpD(cs, ctx, q, |new_|);
    if q < |cs| {
      assert EditOk(old_, new_, cs, q);
      SubrangeEqual(old_, new_, i, cs[q].a - 1, j, cs[q].c - 1, i, upb);
    } else {
      assert |old_[i..]| == |new_[j..]|;
      assert old_[i..] == old_[i..|old_|] && new_[j..] == new_[j..|new_|];
      SubrangeEqual(old_, new_, i, |old_|, j, |new_|, i, upb);
    }
  }

  lemma SubrangeEqual(s: seq<string>, t: seq<string>, i: int, i': int, j: int, j': int, x: int, x': int)
    requires 0 <= i <= x <= x' <= i' <= |s| && 0 <= j <= j' <= |t| && s[i..i'] == t[j..j']
    ensures 0 <= x + j - i <= x' + j - i <= |t|
    ensures s[x..x'] == t[x + j - i..x' + j - i]
  {
    var u, v := s[i..i'], t[j..j'];
    assert |u| == |v|;
    var p, q := s[x..x'], t[x + j - i..x' + j - i];
    forall k | 0 <= k < |p|
      ensures p[k] == q[k]
    {
      assert p[k] == u[x - i + k] && q[k] == v[x - i + k];
    }
  }

  // ----- the body of a group

  /** The lines that one round of dump_unified_vec's loop prints. */
  function Printed(old_: seq<string>, new_: seq<string>, lowa: int, lowc: int, ch: Change): seq<string>
    requires 1 <= lowa <= ch.a <= ch.b + 1 <= |old_| + 1
    requires 1 <= lowc <= ch.c <= ch.d + 1 <= |new_| + 1
  {
    if ch.a <= ch.b && ch.c <= ch.d then
      Tagged(' ', old_[lowa - 1..ch.a - 1]) + Tagged('-', old_[ch.a - 1..ch.b]) + Tagged('+', new_[ch.c - 1..ch.d])
    else if ch.a <= ch.b then
      Tagged(' ', old_[lowa - 1..ch.a - 1]) + Tagged('-', old_[ch.a - 1..ch.b])
    else
      Tagged(' ', new_[lowc - 1..ch.c - 1]) + Tagged('+', new_[ch.c - 1..ch.d])
  }

  lemma PrintedSides(old_: seq<string>, new_: seq<string>, lowa: int, lowc: int, ch: Change)
    requires 1 <= lowa <= ch.a <= ch.b + 1 <= |old_| + 1
    requires 1 <= lowc <= ch.c <= ch.d + 1 <= |new_| + 1
    requires old_[lowa - 1..ch.a - 1] == new_[lowc - 1..ch.c - 1]
    ensures IsBody(Printed(old_, new_, lowa, lowc, ch))
    ensures OldSide(Printed(old_, new_, lowa, lowc, ch)) == old_[lowa - 1..ch.b]
    ensures NewSide(Printed(old_, new_, lowa, lowc, ch)) == new_[lowc - 1..ch.d]
  {
    hide Side, IsBody;
    var x := Tagged(' ', old_[lowa - 1..ch.a - 1]);
    var y := Tagged('-', old_[ch.a - 1..ch.b]);
    var z := Tagged('+', new_[ch.c - 1..ch.d]);
    assert Printed(old_, new_, lowa, lowc, ch) == x + y + z;
    ThreeSides(old_[lowa - 1..ch.a - 1], old_[ch.a - 1..ch.b], new_[ch.c - 1..ch.d]);
    assert old_[lowa - 1..ch.b] == old_[lowa - 1..ch.a - 1] + old_[ch.a - 1..ch.b];
    assert new_[lowc - 1..ch.d] == new_[lowc - 1..ch.c - 1] + new_[ch.c - 1..ch.d];
  }

  lemma ThreeSides(common: seq<string>, del: seq<string>, add: seq<string>)
    ensures var body := Tagged(' ', common) + Tagged('-', del) + Tagged('+', add);
            IsBody(body) && OldSide(body) == common + del && NewSide(body) == common + add
  {
    ThreeOld(common, del, add);
    ThreeNew(common, del, add);
  }

  lemma ThreeOld(common: seq<string>, del: seq<string>, add: seq<string>)
    ensures var body := Tagged(' ', common) + Tagged('-', del) + Tagged('+', add);
            IsBody(body) && OldSide(body) == common + del
  {
    SideOfTagged(' ', common, '+');
    SideOfTagged('-', del, '+');
    SideOfTagged('+', add, '+');
    ThreeParts(Tagged(' ', common), Tagged('-', del), Tagged('+', add), '+');
  }

  lemma ThreeNew(common: seq<string>, del: seq<string>, add: seq<string>)
    ensures var body := Tagged(' ', common) + Tagged('-', del) + Tagged('+', add);
            IsBody(body) && NewSide(body) == common + add
  {
    hide IsBody, Side, Tagged;
    SideOfTagged(' ', common, '-');
    SideOfTagged('-', del, '-');
    SideOfTagged('+', add, '-');
    Empty(common);
    ThreeParts(Tagged(' ', common), Tagged('-', del), Tagged('+', add), '-');
  }

  lemma ThreeParts(x: seq<string>, y: seq<string>, z: seq<string>, skip: char)
    requires IsBody(x) && IsBody(y) && IsBody(z)
    ensures IsBody(x + y + z)
    ensures Side(x + y + z, skip) == Side(x, skip) + Side(y, skip) + Side(z, skip)
  {
    hide IsBody, Side;
    BodyConcat(x, y);
    BodyConcat(x + y, z);
    SideConcat(x + y, z, skip);
    SideConcat(x, y, skip);
  }

  lemma Regroup<T>(o: seq<T>, x: seq<T>, y: seq<T>, z: seq<T>)
    ensures o + x + y == o + (x + y) && o + x + y + z == o + (x + y + z)
  {
  }

  /** First line not yet printed, on either side, before change t of a group from p. */
  function AtA(cs: seq<Change>, ctx: nat, p: nat, t: nat): int
    requires p <= t <= |cs| && p < |cs|
  {
    if t == p then LowA(cs, ctx, p) else cs[t - 1].b + 1
  }

  function AtC(cs: seq<Change>, ctx: nat, p: nat, t: nat): int
    requires p <= t <= |cs| && p < |cs|
  {
    if t == p then LowC(cs, ctx, p) else cs[t - 1].d + 1
  }

  /** What is common to both files right before change t of a group from p. */
  lemma BeforeChange(old_: seq<string>, new_: seq<string>, cs: seq<Change>, ctx: nat, p: nat, q: nat, t: nat)
    requires IsEditScript(old_, new_, cs) && IsGroup(cs, ctx, p, q) && p <= t < q
    ensures var lowa, lowc, ch := AtA(cs, ctx, p, t), AtC(cs, ctx, p, t), cs[t];
            && 1 <= lowa <= ch.a <= ch.b + 1 <= |old_| + 1
            && 1 <= lowc <= ch.c <= ch.d + 1 <= |new_| + 1
            && old_[lowa - 1..ch.a - 1] == new_[lowc - 1..ch.c - 1]
  {
    assert EditOk(old_, new_, cs, t);
    var i, j, ch := EndOld(0, cs, t), EndNew(0, cs, t), cs[t];
    if t == p {
      GroupStart(old_, new_, cs, ctx, p, q);
      SubrangeEqual(old_, new_, i, ch.a - 1, j, ch.c - 1, LowA(cs, ctx, p) - 1, ch.a - 1);
    }
  }

  /** The body printed for changes p..t-1. */
  ghost function BodyTo(old_: seq<string>, new_: seq<string>, cs: seq<Change>, ctx: nat, p: nat, q: nat,
                        t: nat): seq<string>
    requires IsEditScript(old_, new_, cs) && IsGroup(cs, ctx, p, q) && p <= t <= q
    decreases t
  {
    if t == p then []
    else
      BeforeChange(old_, new_, cs, ctx, p, q, t - 1);
      BodyTo(old_, new_, cs, ctx, p, q, t - 1)
      + Printed(old_, new_, AtA(cs, ctx, p, t - 1), AtC(cs, ctx, p, t - 1), cs[t - 1])
  }

  lemma {:induction false} BodySides(old_: seq<string>, new_: seq<string>, cs: seq<Change>, ctx: nat, p: nat, q: nat,
                                     t: nat)
    requires IsEditScript(old_, new_, cs) && IsGroup(cs, ctx, p, q) && p <= t <= q
    ensures var body := BodyTo(old_, new_, cs, ctx, p, q, t);
            && 1 <= LowA(cs, ctx, p) <= AtA(cs, ctx, p, t) <= |old_| + 1
            && 1 <= LowC(cs, ctx, p) <= AtC(cs, ctx, p, t) <= |new_| + 1
            && IsBody(body)
            && OldSide(body) == old_[LowA(cs, ctx, p) - 1..AtA(cs, ctx, p, t) - 1]
            && NewSide(body) == new_[LowC(cs, ctx, p) - 1..AtC(cs, ctx, p, t) - 1]
    decreases t
  {
    hide IsEditScript, Printed, Side, IsBody, LowA, LowC;
    if t == p {
      BeforeChange(old_, new_, cs, ctx, p, q, p);
      NoSides();
    } else {
      BodySides(old_, new_, cs, ctx, p, q, t - 1);
      BeforeChange(old_, new_, cs, ctx, p, q, t - 1);
      var lowa, lowc := AtA(cs, ctx, p, t - 1), AtC(cs, ctx, p, t - 1);
      var x, y := BodyTo(old_, new_, cs, ctx, p, q, t - 1), Printed(old_, new_, lowa, lowc, cs[t - 1]);
      PrintedSides(old_, new_, lowa, lowc, cs[t - 1]);
      JoinSides(x, y, old_, LowA(cs, ctx, p) - 1, lowa - 1, cs[t - 1].b, '+');
      JoinSides(x, y, new_, LowC(cs, ctx, p) - 1, lowc - 1, cs[t - 1].d, '-');
    }
  }

  lemma NoSides()
    ensures IsBody([]) && OldSide([]) == [] && NewSide([]) == []
  {
  }

  lemma JoinSides(x: seq<string>, y: seq<string>, lines: seq<string>, i: int, j: int, k: int, skip: char)
    requires IsBody(x) && IsBody(y) && 0 <= i <= j <= k <= |lines|
    requires Side(x, skip) == lines[i..j] && Side(y, skip) == lines[j..k]
    ensures IsBody(x + y) && Side(x + y, skip) == lines[i..k]
  {
    SideConcat(x, y, skip);
    assert lines[i..k] == lines[i..j] + lines[j..k];
  }

  /** The hunk for changes p..q-1. */
  ghost function GroupHunk(old_: seq<string>, new_: seq<string>, cs: seq<Change>, ctx: nat, p: nat, q: nat): Hunk
    requires IsEditScript(old_, new_, cs) && IsGroup(cs, ctx, p, q)
  {
    GroupEnd(old_, new_, cs, ctx, p, q);
    Hunk(LowA(cs, ctx, p), UpB(cs, ctx, q, |old_|), LowC(cs, ctx, p), UpD(cs, ctx, q, |new_|),
         BodyTo(old_, new_, cs, ctx, p, q, q)
         + Tagged(' ', new_[cs[q - 1].d..UpD(cs, ctx, q, |new_|)]))
  }

  /** Common lines after the last change complete the body. */
  lemma TailSides(x: seq<string>, old_: seq<string>, new_: seq<string>, i: int, j: int, k: int, i': int, j': int,
                  k': int)
    requires IsBody(x) && 0 <= i <= j <= k <= |old_| && 0 <= i' <= j' <= k' <= |new_|
    requires OldSide(x) == old_[i..j] && NewSide(x) == new_[i'..j'] && old_[j..k] == new_[j'..k']
    ensures var body := x + Tagged(' ', new_[j'..k']);
            IsBody(body) && OldSide(body) == old_[i..k] && NewSide(body) == new_[i'..k']
  {
    hide Tagged;
    var rest := new_[j'..k'];
    SideOfTagged(' ', rest, '+');
    SideOfTagged(' ', rest, '-');
    JoinSides(x, Tagged(' ', rest), old_, i, j, k, '+');
    JoinSides(x, Tagged(' ', rest), new_, i', j', k', '-');
  }

  lemma GroupHunkDescribes(old_: seq<string>, new_: seq<string>, cs: seq<Change>, ctx: nat, p: nat, q: nat)
    requires IsEditScript(old_, new_, cs) && IsGroup(cs, ctx, p, q)
    ensures Describes(old_, new_, GroupHunk(old_, new_, cs, ctx, p, q))
    ensures 1 <= LowA(cs, ctx, p) <= UpB(cs, ctx, q, |old_|) + 1
    ensures 1 <= LowC(cs, ctx, p) <= UpD(cs, ctx, q, |new_|) + 1
  {
    hide IsEditScript, Tagged, Side, BodyTo;
    BodySides(old_, new_, cs, ctx, p, q, q);
    GroupEnd(old_, new_, cs, ctx, p, q);
    TailSides(BodyTo(old_, new_, cs, ctx, p, q, q), old_, new_,
      LowA(cs, ctx, p) - 1, cs[q - 1].b, UpB(cs, ctx, q, |old_|),
      LowC(cs, ctx, p) - 1, cs[q - 1].d, UpD(cs, ctx, q, |new_|));
  }

  // ----- the context that a group shows

  /** The tags of a change: g context lines, then the old lines and the new ones. */
  lemma PrintedTags(old_: seq<string>, new_: seq<string>, lowa: int, lowc: int, ch: Change) returns (u: seq<char>)
    requires 1 <= lowa <= ch.a <= ch.b + 1 <= |old_| + 1
    requires 1 <= lowc <= ch.c <= ch.d + 1 <= |new_| + 1
    requires ch.a - lowa == ch.c - lowc && (ch.a <= ch.b || ch.c <= ch.d)
    ensures NoBlanks(u) && |u| == (ch.b - ch.a + 1) + (ch.d - ch.c + 1) && u != []
    ensures Tags(Printed(old_, new_, lowa, lowc, ch)) == Repeat(' ', ch.a - lowa) + u
  {
    hide Tags, Repeat, Tagged;
    var x, y, z := old_[lowa - 1..ch.a - 1], old_[ch.a - 1..ch.b], new_[ch.c - 1..ch.d];
    var x' := new_[lowc - 1..ch.c - 1];
    TagsTagged(' ', x);
    TagsTagged(' ', x');
    TagsTagged('-', y);
    TagsTagged('+', z);
    if ch.a <= ch.b && ch.c <= ch.d {
      u := Repeat('-', |y|) + Repeat('+', |z|);
      TagsConcat(Tagged(' ', x) + Tagged('-', y), Tagged('+', z));
      TagsConcat(Tagged(' ', x), Tagged('-', y));
      Assoc(Repeat(' ', |x|), Repeat('-', |y|), Repeat('+', |z|));
    } else if ch.a <= ch.b {
      u := Repeat('-', |y|);
      TagsConcat(Tagged(' ', x), Tagged('-', y));
    } else {
      u := Repeat('+', |z|);
      TagsConcat(Tagged(' ', x'), Tagged('+', z));
    }
  }

  ghost function CostTo(cs: seq<Change>, t: nat): int requires t <= |cs| { Deleted(cs, t) + Inserted(cs, t) }

  /** What the changes p..t-1 of a group show. */
  lemma {:induction false} BodyShown(old_: seq<string>, new_: seq<string>, cs: seq<Change>, ctx: nat, p: nat, q: nat,
                                     t: nat)
    requires IsEditScript(old_, new_, cs) && IsGroup(cs, ctx, p, q) && p < t <= q
    ensures cs[p].a >= LowA(cs, ctx, p) && CostTo(cs, t) >= CostTo(cs, p)
    ensures Shown(Tags(BodyTo(old_, new_, cs, ctx, p, q, t)), cs[p].a - LowA(cs, ctx, p), 2 * ctx,
                  CostTo(cs, t) - CostTo(cs, p))
    decreases t
  {
    hide IsEditScript, Printed, BodyTo, Tags, Shown, Repeat, NoBlanks, LowA, LowC;
    var ch := cs[t - 1];
    EditAt(old_, new_, cs, t - 1);
    GroupStart(old_, new_, cs, ctx, p, q);
    NextBody(old_, new_, cs, ctx, p, q, t - 1);
    var lowa, lowc := AtA(cs, ctx, p, t - 1), AtC(cs, ctx, p, t - 1);
    var u := PrintedTags(old_, new_, lowa, lowc, ch);
    var x := BodyTo(old_, new_, cs, ctx, p, q, t - 1);
    TagsConcat(x, Printed(old_, new_, lowa, lowc, ch));
    if t == p + 1 {
      NoBody(old_, new_, cs, ctx, p, q);
      NoTags();
      Empty(Repeat(' ', ch.a - lowa) + u);
      ShownStarts(ch.a - lowa, u, 2 * ctx);
    } else {
      BodyShown(old_, new_, cs, ctx, p, q, t - 1);
      GapInside(cs, ctx, p, q, t - 1);
      ShownGrows(Tags(x), cs[p].a - LowA(cs, ctx, p), 2 * ctx, CostTo(cs, t - 1) - CostTo(cs, p), ch.a - lowa, u);
      Assoc(Tags(x), Repeat(' ', ch.a - lowa), u);
    }
  }

  lemma NoTags()
    ensures Tags([]) == []
  {
  }

  lemma GapInside(cs: seq<Change>, ctx: nat, p: nat, q: nat, t: nat)
    requires IsGroup(cs, ctx, p, q) && p < t < q
    ensures cs[t].a - AtA(cs, ctx, p, t) == Gap(cs, t) <= 2 * ctx
  {
  }

  /** What the hunk of a group shows. */
  lemma GroupShown(old_: seq<string>, new_: seq<string>, cs: seq<Change>, ctx: nat, p: nat, q: nat)
    requires IsEditScript(old_, new_, cs) && IsGroup(cs, ctx, p, q)
    ensures var h := GroupHunk(old_, new_, cs, ctx, p, q);
            var t := Tags(h.body);
            && Leading(t) == cs[p].a - LowA(cs, ctx, p) && Trailing(t) == UpD(cs, ctx, q, |new_|) - cs[q - 1].d
            && InnerRuns(t, 2 * ctx) && Changed(t) == CostTo(cs, q) - CostTo(cs, p)
  {
    hide IsEditScript, BodyTo, Tags, Tagged, Shown, Repeat, LowA, InnerRuns, Leading, Trailing, Changed, CostTo;
    GroupEnd(old_, new_, cs, ctx, p, q);
    BodyShown(old_, new_, cs, ctx, p, q, q);
    var x, rest := BodyTo(old_, new_, cs, ctx, p, q, q), new_[cs[q - 1].d..UpD(cs, ctx, q, |new_|)];
    TagsConcat(x, Tagged(' ', rest));
    TagsTagged(' ', rest);
    ShownEnds(Tags(x), cs[p].a - LowA(cs, ctx, p), 2 * ctx, CostTo(cs, q) - CostTo(cs, p), |rest|);
  }

  /** The context before a group is cut only at the start of the file, and after it only at
      the end. */
  lemma GroupContext(old_: seq<string>, new_: seq<string>, cs: seq<Change>, ctx: nat, p: nat, q: nat)
    requires IsEditScript(old_, new_, cs) && IsGroup(cs, ctx, p, q)
    ensures var lead, trail := cs[p].a - LowA(cs, ctx, p), UpD(cs, ctx, q, |new_|) - cs[q - 1].d;
            && (lead == ctx || (lead < ctx && LowA(cs, ctx, p) == 1 && p == 0))
            && (trail == ctx || (trail < ctx && UpD(cs, ctx, q, |new_|) == |new_| && q == |cs|))
  {
    GroupStart(old_, new_, cs, ctx, p, q);
    GroupEnd(old_, new_, cs, ctx, p, q);
    hide IsEditScript, InnerGaps;
  }

  // ----- all groups

  /** With context lines, a hunk shows no new line only if there is none. */
  ghost predicate ShowsNew(ctx: nat, m: nat, hs: seq<Hunk>)
  {
    ctx > 0 && m > 0 ==> forall k :: 0 <= k < |hs| ==> hs[k].lowc <= hs[k].upd
  }

  /** hs describes the changes before p, and a new group starts at p. */
  ghost predicate HunksTo(old_: seq<string>, new_: seq<string>, cs: seq<Change>, ctx: nat, hs: seq<Hunk>, p: nat)
  {
    && p < |cs| && ShowsNew(ctx, |new_|, hs)
    && (forall k :: 0 <= k < |hs| ==> HunkOk(old_, new_, hs, k))
    && (if p == 0 then hs == []
        else |hs| > 0 && Gap(cs, p) > 2 * ctx
             && hs[|hs| - 1].upb == cs[p - 1].b + ctx && hs[|hs| - 1].upd == cs[p - 1].d + ctx
             && Trailing(Tags(hs[|hs| - 1].body)) == ctx)
    && ContextOk(hs, ctx, |new_|) && ChangedLines(hs) == CostTo(cs, p)
  }

  lemma {:induction false} ChangesAscend(old_: seq<string>, new_: seq<string>, cs: seq<Change>, p: nat, q: nat)
    requires IsEditScript(old_, new_, cs) && p < q <= |cs|
    ensures cs[p].b <= cs[q - 1].b && cs[p].d <= cs[q - 1].d
    decreases q
  {
    if p + 1 < q {
      ChangesAscend(old_, new_, cs, p, q - 1);
      EditAt(old_, new_, cs, q - 1);
    }
  }

  lemma GroupNotEmpty(old_: seq<string>, new_: seq<string>, cs: seq<Change>, ctx: nat, p: nat, q: nat)
    requires IsEditScript(old_, new_, cs) && IsGroup(cs, ctx, p, q)
    ensures LowA(cs, ctx, p) <= UpB(cs, ctx, q, |old_|) || LowC(cs, ctx, p) <= UpD(cs, ctx, q, |new_|)
  {
    EditAt(old_, new_, cs, p);
    EditAt(old_, new_, cs, q - 1);
    ChangesAscend(old_, new_, cs, p, q);
  }

  lemma GroupShowsNew(old_: seq<string>, new_: seq<string>, cs: seq<Change>, ctx: nat, p: nat, q: nat)
    requires IsEditScript(old_, new_, cs) && IsGroup(cs, ctx, p, q)
    ensures ctx > 0 && |new_| > 0 ==> LowC(cs, ctx, p) <= UpD(cs, ctx, q, |new_|)
  {
    EditAt(old_, new_, cs, p);
    EditAt(old_, new_, cs, q - 1);
    ChangesAscend(old_, new_, cs, p, q);
  }

  /** The group from p starts past the last hunk, after common lines only. */
  lemma NextHunkOk(old_: seq<string>, new_: seq<string>, cs: seq<Change>, ctx: nat, hs: seq<Hunk>, p: nat, q: nat)
    requires IsEditScript(old_, new_, cs) && IsGroup(cs, ctx, p, q)
    requires HunksTo(old_, new_, cs, ctx, hs, p)
    ensures HunkOk(old_, new_, hs + [GroupHunk(old_, new_, cs, ctx, p, q)], |hs|)
  {
    hide IsEditScript, BodyTo, Side, Tagged, Describes, HunkOk;
    var h := GroupHunk(old_, new_, cs, ctx, p, q);
    var hs' := hs + [h];
    var i, j := HunkEndOld(hs', |hs|), HunkEndNew(hs', |hs|);
    GroupHunkDescribes(old_, new_, cs, ctx, p, q);
    GroupStart(old_, new_, cs, ctx, p, q);
    GroupNotEmpty(old_, new_, cs, ctx, p, q);
    assert p > 0 ==> hs'[|hs| - 1] == hs[|hs| - 1];
    GapCommon(old_, new_, cs, ctx, p, q, i);
    HunkIsOk(old_, new_, hs', |hs|);
  }

  lemma HunkIsOk(old_: seq<string>, new_: seq<string>, hs: seq<Hunk>, k: nat)
    requires k < |hs| && Describes(old_, new_, hs[k])
    requires var i, j, h := HunkEndOld(hs, k), HunkEndNew(hs, k), hs[k];
             && 0 <= i < h.lowa <= |old_| + 1 && 0 <= j < h.lowc <= |new_| + 1 && h.lowa - i == h.lowc - j
             && (k > 0 ==> i < h.lowa - 1)
             && (h.lowa <= h.upb || h.lowc <= h.upd)
             && old_[i..h.lowa - 1] == new_[j..h.lowc - 1]
    ensures HunkOk(old_, new_, hs, k)
  {
  }

  /** The lines right before a group are common. */
  lemma GapCommon(old_: seq<string>, new_: seq<string>, cs: seq<Change>, ctx: nat, p: nat, q: nat, x: int)
    requires IsEditScript(old_, new_, cs) && IsGroup(cs, ctx, p, q)
    requires EndOld(0, cs, p) <= x < LowA(cs, ctx, p)
    ensures var y := x + EndNew(0, cs, p) - EndOld(0, cs, p);
            && 0 <= x && LowA(cs, ctx, p) <= |old_| + 1 && 0 <= y < LowC(cs, ctx, p) <= |new_| + 1
            && old_[x..LowA(cs, ctx, p) - 1] == new_[y..LowC(cs, ctx, p) - 1]
  {
    GroupStart(old_, new_, cs, ctx, p, q);
    EditAt(old_, new_, cs, p);
    var i, j := EndOld(0, cs, p), EndNew(0, cs, p);
    SubrangeEqual(old_, new_, i, cs[p].a - 1, j, cs[p].c - 1, x, LowA(cs, ctx, p) - 1);
  }

  lemma HunkStays(old_: seq<string>, new_: seq<string>, hs: seq<Hunk>, h: Hunk, k: nat)
    requires k < |hs| && HunkOk(old_, new_, hs, k)
    ensures HunkOk(old_, new_, hs + [h], k)
  {
    hide Describes;
  }

  /** The next hunk shows its context, and enough of it lies between it and the last one. */
  lemma ContextNext(old_: seq<string>, new_: seq<string>, cs: seq<Change>, ctx: nat, hs: seq<Hunk>, p: nat, q: nat)
    requires IsEditScript(old_, new_, cs) && IsGroup(cs, ctx, p, q)
    requires HunksTo(old_, new_, cs, ctx, hs, p)
    ensures var h := GroupHunk(old_, new_, cs, ctx, p, q);
            && ContextOk(hs + [h], ctx, |new_|) && ChangedLines(hs + [h]) == CostTo(cs, q)
            && (q < |cs| ==> Trailing(Tags(h.body)) == ctx)
  {
    hide IsEditScript, BodyTo, Tags, Tagged, InnerRuns, Leading, Trailing, Changed, CostTo, ContextOk, ChangedLines,
      HunkOk, InnerGaps;
    var h := GroupHunk(old_, new_, cs, ctx, p, q);
    GroupShown(old_, new_, cs, ctx, p, q);
    GroupContext(old_, new_, cs, ctx, p, q);
    GroupStart(old_, new_, cs, ctx, p, q);
    ChangedLinesNext(hs, h);
    assert ContextAt(hs + [h], ctx, |new_|, |hs|);
    ContextGrows(hs, h, ctx, |new_|);
  }

  lemma AllOk(old_: seq<string>, new_: seq<string>, hs: seq<Hunk>, h: Hunk)
    requires forall k :: 0 <= k < |hs| ==> HunkOk(old_, new_, hs, k)
    requires HunkOk(old_, new_, hs + [h], |hs|)
    ensures forall k :: 0 <= k < |hs + [h]| ==> HunkOk(old_, new_, hs + [h], k)
  {
    hide HunkOk;
    forall k | 0 <= k < |hs + [h]|
      ensures HunkOk(old_, new_, hs + [h], k)
    {
      if k < |hs| {
        HunkStays(old_, new_, hs, h, k);
      }
    }
  }

  lemma HunksGrow(old_: seq<string>, new_: seq<string>, cs: seq<Change>, ctx: nat, hs: seq<Hunk>, p: nat, q: nat)
    requires IsEditScript(old_, new_, cs) && IsGroup(cs, ctx, p, q)
    requires HunksTo(old_, new_, cs, ctx, hs, p)
    ensures var hs' := hs + [GroupHunk(old_, new_, cs, ctx, p, q)];
            && (forall k :: 0 <= k < |hs'| ==> HunkOk(old_, new_, hs', k))
            && (q < |cs| ==> HunksTo(old_, new_, cs, ctx, hs', q))
            && (q == |cs| ==> IsPatch(old_, new_, hs'))
            && ShowsNew(ctx, |new_|, hs')
            && ContextOk(hs', ctx, |new_|) && ChangedLines(hs') == CostTo(cs, q)
  {
    hide IsEditScript, BodyTo, Tagged, Describes, HunkOk, ContextOk, ChangedLines, Tags, Trailing, CostTo, InnerGaps;
    ContextNext(old_, new_, cs, ctx, hs, p, q);
    GroupShowsNew(old_, new_, cs, ctx, p, q);
    var h := GroupHunk(old_, new_, cs, ctx, p, q);
    var hs' := hs + [h];
    NextHunkOk(old_, new_, cs, ctx, hs, p, q);
    AllOk(old_, new_, hs, h);
    GroupEnd(old_, new_, cs, ctx, p, q);
    if q == |cs| {
      LastGroupEnd(old_, new_, cs, ctx, p, q);
    }
  }

  lemma LastGroupEnd(old_: seq<string>, new_: seq<string>, cs: seq<Change>, ctx: nat, p: nat, q: nat)
    requires IsEditScript(old_, new_, cs) && IsGroup(cs, ctx, p, q) && q == |cs|
    ensures var upb, upd := UpB(cs, ctx, q, |old_|), UpD(cs, ctx, q, |new_|);
            0 <= upb <= |old_| && 0 <= upd <= |new_| && old_[upb..] == new_[upd..]
  {
    hide IsEditScript;
    ScriptTail(old_, new_, cs);
    TailEqual(old_, new_, EndOld(0, cs, q), EndNew(0, cs, q), UpB(cs, ctx, q, |old_|));
  }

  /** After the last change the files are equal. */
  lemma ScriptTail(old_: seq<string>, new_: seq<string>, cs: seq<Change>)
    requires IsEditScript(old_, new_, cs)
    ensures var i, j := EndOld(0, cs, |cs|), EndNew(0, cs, |cs|);
            0 <= i <= |old_| && 0 <= j <= |new_| && old_[i..] == new_[j..]
  {
  }

  lemma TailEqual(s: seq<string>, t: seq<string>, i: int, j: int, x: int)
    requires 0 <= i <= x <= |s| && 0 <= j <= |t| && s[i..] == t[j..]
    ensures |s| - i == |t| - j && s[x..] == t[x + j - i..]
  {
    assert |s[i..]| == |t[j..]|;
    assert s[x..] == s[i..][x - i..] && t[x + j - i..] == t[j..][x - i..];
  }

  lemma HunksPrintable(old_: seq<string>, new_: seq<string>, hs: seq<Hunk>)
    requires forall k :: 0 <= k < |hs| ==> HunkOk(old_, new_, hs, k)
    ensures Printable(hs)
  {
    forall k | 0 <= k < |hs|
      ensures 1 <= hs[k].lowa <= hs[k].upb + 1 && 1 <= hs[k].lowc <= hs[k].upd + 1
    {
      assert HunkOk(old_, new_, hs, k);
    }
  }

  // ----- the printer

  lemma NoBody(old_: seq<string>, new_: seq<string>, cs: seq<Change>, ctx: nat, p: nat, q: nat)
    requires IsEditScript(old_, new_, cs) && IsGroup(cs, ctx, p, q)
    ensures BodyTo(old_, new_, cs, ctx, p, q, p) == [] && p < q <= |cs|
    ensures AtA(cs, ctx, p, p) == Max(1, cs[p].a - ctx) && AtC(cs, ctx, p, p) == Max(1, cs[p].c - ctx)
  {
  }

  lemma NextBody(old_: seq<string>, new_: seq<string>, cs: seq<Change>, ctx: nat, p: nat, q: nat, t: nat)
    requires IsEditScript(old_, new_, cs) && IsGroup(cs, ctx, p, q) && p <= t < q
    ensures var lowa, lowc, ch := AtA(cs, ctx, p, t), AtC(cs, ctx, p, t), cs[t];
            && 1 <= lowa <= ch.a <= ch.b + 1 <= |old_| + 1
            && 1 <= lowc <= ch.c <= ch.d + 1 <= |new_| + 1
            && BodyTo(old_, new_, cs, ctx, p, q, t + 1)
               == BodyTo(old_, new_, cs, ctx, p, q, t) + Printed(old_, new_, lowa, lowc, ch)
            && AtA(cs, ctx, p, t + 1) == ch.b + 1 && AtC(cs, ctx, p, t + 1) == ch.d + 1
  {
    hide Printed, IsEditScript;
    BeforeChange(old_, new_, cs, ctx, p, q, t);
  }

  lemma NoneTagged(tag: char, lines: seq<string>, a: int)
    requires 1 <= a <= |lines| + 1
    ensures Tagged(tag, lines[a - 1..a - 1]) == []
  {
  }

  lemma NextTagged(tag: char, lines: seq<string>, a: int, i: int)
    requires 1 <= a <= i <= |lines|
    ensures Tagged(tag, lines[a - 1..i]) == Tagged(tag, lines[a - 1..i - 1]) + [[tag] + lines[i - 1]]
  {
    assert lines[a - 1..i][..i - a] == lines[a - 1..i - 1];
  }

  class Printer {
    const old_: seq<string>
    const new_: seq<string>
    const ctx: nat
    var anychange: bool
    /** The entries of the context vector. */
    var vec: seq<Change>
    /** The lines printed. */
    var out: seq<string>

    constructor (o: seq<string>, n: seq<string>, context: nat)
      ensures old_ == o && new_ == n && ctx == context
      ensures !anychange && vec == [] && out == []
    {
      old_, new_, ctx := o, n, context;
      anychange, vec, out := false, [], [];
    }

    /** fetch: print lines a..b of a file with a tag. */
    method Fetch(lines: seq<string>, a: int, b: int, tag: char)
      requires 1 <= a <= b + 1 <= |lines| + 1
      modifies this`out
      ensures out == old(out) + Tagged(tag, lines[a - 1..b])
    {
      hide Tagged;
      var i := a;
      NoneTagged(tag, lines, a);
      Empty(out);
      while i <= b
        invariant a <= i <= b + 1
        invariant out == old(out) + Tagged(tag, lines[a - 1..i - 1])
      {
        NextTagged(tag, lines, a, i);
        Assoc(old(out), Tagged(tag, lines[a - 1..i - 1]), [[tag] + lines[i - 1]]);
        out := out + [[tag] + lines[i - 1]];
        i := i + 1;
      }
    }

    /** The switch of dump_unified_vec. */
    method PrintChange(lowa: int, lowc: int, ch: Change)
      requires 1 <= lowa <= ch.a <= ch.b + 1 <= |old_| + 1
      requires 1 <= lowc <= ch.c <= ch.d + 1 <= |new_| + 1
      modifies this`out
      ensures out == old(out) + Printed(old_, new_, lowa, lowc, ch)
    {
      hide Tagged;
      ghost var add := Tagged('+', new_[ch.c - 1..ch.d]);
      Regroup(out, Tagged(' ', old_[lowa - 1..ch.a - 1]), Tagged('-', old_[ch.a - 1..ch.b]), add);
      Regroup(out, Tagged(' ', new_[lowc - 1..ch.c - 1]), add, []);
      if ch.a <= ch.b && ch.c <= ch.d {
        Fetch(old_, lowa, ch.a - 1, ' ');
        Fetch(old_, ch.a, ch.b, '-');
        Fetch(new_, ch.c, ch.d, '+');
      } else if ch.a <= ch.b {
        Fetch(old_, lowa, ch.a - 1, ' ');
        Fetch(old_, ch.a, ch.b, '-');
      } else {
        Fetch(new_, lowc, ch.c - 1, ' ');
        Fetch(new_, ch.c, ch.d, '+');
      }
    }

    /** The loop of dump_unified_vec over the entries of the vector. */
    method PrintEntries(ghost cs: seq<Change>, ghost p: nat, ghost q: nat) returns (d: int)
      requires IsEditScript(old_, new_, cs) && IsGroup(cs, ctx, p, q) && vec == cs[p..q]
      modifies this`out
      ensures d == cs[q - 1].d
      ensures out == old(out) + BodyTo(old_, new_, cs, ctx, p, q, q)
    {
      hide IsEditScript, Printed, BodyTo, IsGroup, AtA, AtC, Max;
      ghost var head := out;
      NoBody(old_, new_, cs, ctx, p, q);
      Empty(out);
      var cvp, ptr := 0, |vec| - 1;
      var lowa := Max(1, vec[cvp].a - ctx);
      var lowc := Max(1, vec[cvp].c - ctx);
      d := 0;
      while cvp <= ptr
        invariant 0 <= cvp <= ptr + 1 == |vec|
        invariant out == head + BodyTo(old_, new_, cs, ctx, p, q, p + cvp)
        invariant lowa == AtA(cs, ctx, p, p + cvp) && lowc == AtC(cs, ctx, p, p + cvp)
        invariant cvp > 0 ==> d == cs[p + cvp - 1].d
      {
        var ch := vec[cvp];
        assert ch == cs[p + cvp];
        NextBody(old_, new_, cs, ctx, p, q, p + cvp);
        Assoc(head, BodyTo(old_, new_, cs, ctx, p, q, p + cvp), Printed(old_, new_, lowa, lowc, ch));
        PrintChange(lowa, lowc, ch);
        d := ch.d;
        lowa := ch.b + 1;
        lowc := ch.d + 1;
        cvp := cvp + 1;
      }
    }

    /** dump_unified_vec: print the entries as one hunk and empty the vector. */
    method DumpUnifiedVec(ghost cs: seq<Change>, ghost p: nat, ghost q: nat)
      requires IsEditScript(old_, new_, cs) && IsGroup(cs, ctx, p, q) && vec == cs[p..q]
      modifies this`vec, this`out
      ensures vec == []
      ensures Describes(old_, new_, GroupHunk(old_, new_, cs, ctx, p, q))
      ensures out == old(out) + HunkText(GroupHunk(old_, new_, cs, ctx, p, q))
    {
      hide IsEditScript, Tagged, Describes, BodyTo, UniRange;
      var cvp, ptr := 0, |vec| - 1;
      var lowa := Max(1, vec[cvp].a - ctx);
      var upb := Min(|old_|, vec[ptr].b + ctx);
      var lowc := Max(1, vec[cvp].c - ctx);
      var upd := Min(|new_|, vec[ptr].d + ctx);
      ghost var h := GroupHunk(old_, new_, cs, ctx, p, q);
      GroupHunkDescribes(old_, new_, cs, ctx, p, q);
      GroupEnd(old_, new_, cs, ctx, p, q);
      ghost var head := out;
      out := out + ["@@ -" + UniRange(lowa, upb) + " +" + UniRange(lowc, upd) + " @@"];
      assert out == head + [Header(h)];
      var d := PrintEntries(cs, p, q);
      Fetch(new_, d + 1, upd, ' ');
      vec := [];
    }

    /** Changes before p are printed as the hunks hs; changes p..k-1 wait in the vector. */
    ghost predicate Pending(cs: seq<Change>, hs: seq<Hunk>, p: nat, k: nat)
      reads this
    {
      && p <= k <= |cs| && vec == cs[p..k]
      && (anychange <==> k > 0) && (k > 0 ==> p < k) && InnerGaps(cs, ctx, p, k)
      && (if |cs| == 0 then hs == [] else HunksTo(old_, new_, cs, ctx, hs, p))
      && Printable(hs) && out == PatchText(hs)
    }

    method DumpGroup(ghost cs: seq<Change>, ghost hs: seq<Hunk>, ghost p: nat, ghost q: nat)
      returns (ghost hs': seq<Hunk>)
      requires IsEditScript(old_, new_, cs) && IsGroup(cs, ctx, p, q) && Pending(cs, hs, p, q)
      modifies this`vec, this`out
      ensures vec == [] && Printable(hs') && out == PatchText(hs')
      ensures q < |cs| ==> HunksTo(old_, new_, cs, ctx, hs', q)
      ensures q == |cs| ==> IsPatch(old_, new_, hs')
      ensures ShowsNew(ctx, |new_|, hs')
      ensures ContextOk(hs', ctx, |new_|) && ChangedLines(hs') == CostTo(cs, q)
    {
      hide IsEditScript, HunkOk, GroupHunk, Describes, HunkText, ContextOk, ChangedLines, Tags, Trailing, CostTo;
      ghost var h := GroupHunk(old_, new_, cs, ctx, p, q);
      DumpUnifiedVec(cs, p, q);
      HunksGrow(old_, new_, cs, ctx, hs, p, q);
      hs' := hs + [h];
      HunksPrintable(old_, new_, hs');
      assert hs'[|hs|] == h;
      PatchTextAppend(hs, h);
    }

    /** The context-vector part of change. */
    method Change(ch: Change, ghost cs: seq<Change>, ghost hs: seq<Hunk>, ghost p: nat, ghost k: nat)
      returns (ghost hs': seq<Hunk>, ghost p': nat)
      requires IsEditScript(old_, new_, cs) && Pending(cs, hs, p, k) && k < |cs| && ch == cs[k]
      modifies this
      ensures Pending(cs, hs', p', k + 1)
    {
      hide IsEditScript, HunkOk, PatchText;
      hs', p' := hs, p;
      EditAt(old_, new_, cs, k);
      if !anychange {
        anychange := true;
      } else if ch.a > vec[|vec| - 1].b + 2 * ctx + 1 && ch.c > vec[|vec| - 1].d + 2 * ctx + 1 {
        hs' := DumpGroup(cs, hs, p, k);
        p' := k;
      }
      vec := vec + [ch];
    }

    /** The calls of change that output makes, and the final dump. */
    method PrintScript(cs: seq<Change>) returns (ghost hs: seq<Hunk>)
      requires IsEditScript(old_, new_, cs)
      requires !anychange && vec == [] && out == []
      modifies this
      ensures IsPatch(old_, new_, hs) && Printable(hs) && out == PatchText(hs) && ShowsNew(ctx, |new_|, hs)
      ensures ContextOk(hs, ctx, |new_|) && ChangedLines(hs) == Cost(cs)
      ensures anychange <==> cs != []
    {
      hide IsEditScript, HunkOk, ContextOk, Tags, Trailing;
      NoContext(cs, ctx, |new_|);
      hs := [];
      ghost var p := 0;
      var k := 0;
      while k < |cs|
        invariant 0 <= k <= |cs| && Pending(cs, hs, p, k)
      {
        hs, p := Change(cs[k], cs, hs, p, k);
        k := k + 1;
      }
      if anychange {
        hs := DumpGroup(cs, hs, p, k);
      } else {
        EmptyScript(old_, new_, cs);
      }
    }
  }

  lemma NoContext(cs: seq<Change>, ctx: nat, m: nat)
    ensures ContextOk([], ctx, m) && ChangedLines([]) == 0 == CostTo(cs, 0)
  {
  }

  lemma EmptyScript(old_: seq<string>, new_: seq<string>, cs: seq<Change>)
    requires IsEditScript(old_, new_, cs) && cs == []
    ensures IsPatch(old_, new_, [])
  {
  }
}
