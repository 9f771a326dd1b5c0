/**
 Unified hunks: what diff prints for a group of changes and patch reads back. A body
 line is a tag, ' ', '-' or '+', followed by the text of a line.
 */
module UnifiedHunk {
  import opened Decimal
  import opened SeqFacts

  predicate IsTag(c: char) { c == ' ' || c == '-' || c == '+' }

  ghost predicate IsBody(body: seq<string>)
  {
    forall k :: 0 <= k < |body| ==> |body[k]| >= 1 && IsTag(body[k][0])
  }

  /** The lines of the body that carry one of two tags, without them. */
  function Side(body: seq<string>, skip: char): (s: seq<string>)
    requires IsBody(body)
  {
    if body == [] then []
    else (if body[0][0] == skip then [] else [body[0][1..]]) + Side(body[1..], skip)
  }

  function OldSide(body: seq<string>): seq<string>
    requires IsBody(body)
  {
    Side(body, '+')
  }

  function NewSide(body: seq<string>): seq<string>
    requires IsBody(body)
  {
    Side(body, '-')
  }

  lemma BodyConcat(x: seq<string>, y: seq<string>)
    requires IsBody(x) && IsBody(y)
    ensures IsBody(x + y) && (x != [] ==> |x[0]| >= 1 && IsBody(x[1..]))
  {
  }

  lemma {:induction false} SideConcat(x: seq<string>, y: seq<string>, skip: char)
    requires IsBody(x) && IsBody(y)
    ensures Side(x + y, skip) == Side(x, skip) + Side(y, skip)
  {
    hide IsBody;
    BodyConcat(x, y);
    if x == [] {
      Empty(y);
      Empty(Side(y, skip));
    } else {
      Head(x, y);
      SideConcat(x[1..], y, skip);
      Assoc(if x[0][0] == skip then [] else [x[0][1..]], Side(x[1..], skip), Side(y, skip));
    }
  }

  /** Lines printed with one tag. */
  function Tagged(tag: char, s: seq<string>): (r: seq<string>)
    decreases |s|
  {
    if s == [] then [] else Tagged(tag, s[..|s| - 1]) + [[tag] + s[|s| - 1]]
  }

  lemma {:induction false} TaggedIsBody(tag: char, s: seq<string>)
    requires IsTag(tag)
    ensures |Tagged(tag, s)| == |s| && IsBody(Tagged(tag, s))
    decreases |s|
  {
    if s != [] {
      TaggedIsBody(tag, s[..|s| - 1]);
    }
  }

  lemma {:induction false} SideOfTagged(tag: char, s: seq<string>, skip: char)
    requires IsTag(tag)
    ensures IsBody(Tagged(tag, s))
    ensures Side(Tagged(tag, s), skip) == if tag == skip then [] else s
    decreases |s|
  {
    TaggedIsBody(tag, s);
    if s != [] {
      var s', l := s[..|s| - 1], [[tag] + s[|s| - 1]];
      SideOfTagged(tag, s', skip);
      SideConcat(Tagged(tag, s'), l, skip);
      assert l[1..] == [] && l[0][1..] == s[|s| - 1];
      assert s == s' + [s[|s| - 1]];
    }
  }

  /** Old lines lowa..upb and new lines lowc..upd, 1-based and inclusive. */
  datatype Hunk = Hunk(lowa: int, upb: int, lowc: int, upd: int, body: seq<string>)

  /** uni_range of cmd/posix/diff.c. */
  function UniRange(a: int, b: int): string
    requires 1 <= a <= b + 1
  {
    if a < b then Dec(a) + "," + Dec(b - a + 1)
    else if a == b then Dec(b)
    else Dec(b) + ",0"
  }

  function Header(h: Hunk): string
    requires 1 <= h.lowa <= h.upb + 1 && 1 <= h.lowc <= h.upd + 1
  {
    "@@ -" + UniRange(h.lowa, h.upb) + " +" + UniRange(h.lowc, h.upd) + " @@"
  }

  /** What dump_unified_vec prints for a hunk. */
  function HunkText(h: Hunk): seq<string>
    requires 1 <= h.lowa <= h.upb + 1 && 1 <= h.lowc <= h.upd + 1
  {
    [Header(h)] + h.body
  }

  // ----- a list of hunks as a description of how two files differ

  ghost function HunkEndOld(hs: seq<Hunk>, k: nat): int
    requires k <= |hs|
  {
    if k == 0 then 0 else hs[k - 1].upb
  }

  ghost function HunkEndNew(hs: seq<Hunk>, k: nat): int
    requires k <= |hs|
  {
    if k == 0 then 0 else hs[k - 1].upd
  }

  /** The body is exactly what its header says it is: its old side is lines lowa..upb of
      the old file and its new side lines lowc..upd of the new one. */
  ghost predicate Describes(old_: seq<string>, new_: seq<string>, h: Hunk)
  {
    && 1 <= h.lowa <= h.upb + 1 <= |old_| + 1
    && 1 <= h.lowc <= h.upd + 1 <= |new_| + 1
    && IsBody(h.body)
    && OldSide(h.body) == old_[h.lowa - 1..h.upb]
    && NewSide(h.body) == new_[h.lowc - 1..h.upd]
  }

  /** Hunk k does not overlap or touch its predecessor, the lines between them are common,
      and it is not empty. */
  ghost predicate HunkOk(old_: seq<string>, new_: seq<string>, hs: seq<Hunk>, k: nat)
    requires k < |hs|
  {
    var i, j, h := HunkEndOld(hs, k), HunkEndNew(hs, k), hs[k];
    && Describes(old_, new_, h)
    && 0 <= i < h.lowa && 0 <= j < h.lowc && h.lowa - i == h.lowc - j
    && (k > 0 ==> i < h.lowa - 1)
    && (h.lowa <= h.upb || h.lowc <= h.upd)
    && old_[i..h.lowa - 1] == new_[j..h.lowc - 1]
  }

  /** hs describes exactly how to get from old_ to new_. */
  ghost predicate IsPatch(old_: seq<string>, new_: seq<string>, hs: seq<Hunk>)
  {
    && (forall k :: 0 <= k < |hs| ==> HunkOk(old_, new_, hs, k))
    && var i, j := HunkEndOld(hs, |hs|), HunkEndNew(hs, |hs|);
       0 <= i <= |old_| && 0 <= j <= |new_| && old_[i..] == new_[j..]
  }

  /** Ranges as uni_range needs them. */
  ghost predicate Printable(hs: seq<Hunk>)
  {
    forall k :: 0 <= k < |hs| ==> 1 <= hs[k].lowa <= hs[k].upb + 1 && 1 <= hs[k].lowc <= hs[k].upd + 1
  }

  /** The text of all hunks. */
  function PatchText(hs: seq<Hunk>): seq<string>
    requires Printable(hs)
  {
    if hs == [] then [] else HunkText(hs[0]) + PatchText(hs[1..])
  }

  lemma PrintableConcat(x: seq<Hunk>, y: seq<Hunk>)
    requires Printable(x) && Printable(y)
    ensures Printable(x + y)
    ensures x != [] ==> Printable(x[1..]) && 1 <= x[0].lowa <= x[0].upb + 1 && 1 <= x[0].lowc <= x[0].upd + 1
  {
  }

  lemma {:induction false} PatchTextConcat(x: seq<Hunk>, y: seq<Hunk>)
    requires Printable(x) && Printable(y)
    ensures Printable(x + y) && PatchText(x + y) == PatchText(x) + PatchText(y)
  {
    hide HunkText, Printable;
    PrintableConcat(x, y);
    if x == [] {
      Empty(y);
      Empty(PatchText(y));
    } else {
      PatchTextConcat(x[1..], y);
      Head(x, y);
      Assoc(HunkText(x[0]), PatchText(x[1..]), PatchText(y));
    }
  }

  lemma PatchTextAppend(hs: seq<Hunk>, h: Hunk)
    requires Printable(hs) && 1 <= h.lowa <= h.upb + 1 && 1 <= h.lowc <= h.upd + 1
    ensures Printable(hs + [h]) && PatchText(hs + [h]) == PatchText(hs) + HunkText(h)
  {
    assert Printable([h]) && [h][1..] == [];
    PatchTextConcat(hs, [h]);
  }

  /** Hunk k between the text of those before it and the text of those after it. */
  lemma PatchTextAround(hs: seq<Hunk>, k: nat)
    requires Printable(hs) && k < |hs|
    ensures Printable(hs[..k]) && Printable(hs[k + 1..]) && Printable(hs[..k + 1])
    ensures PatchText(hs) == PatchText(hs[..k]) + HunkText(hs[k]) + PatchText(hs[k + 1..])
    ensures PatchText(hs[..k + 1]) == PatchText(hs[..k]) + HunkText(hs[k])
  {
    hide HunkText, PatchText, Printable;
    PrintableParts(hs, k);
    PatchTextAppend(hs[..k], hs[k]);
    PatchTextConcat(hs[..k + 1], hs[k + 1..]);
    assert hs[..k + 1] == hs[..k] + [hs[k]];
    assert hs == hs[..k + 1] + hs[k + 1..];
  }

  lemma PrintableParts(hs: seq<Hunk>, k: nat)
    requires Printable(hs) && k < |hs|
    ensures Printable(hs[..k]) && Printable(hs[k + 1..]) && Printable(hs[..k + 1])
    ensures 1 <= hs[k].lowa <= hs[k].upb + 1 && 1 <= hs[k].lowc <= hs[k].upd + 1
  {
  }
}
