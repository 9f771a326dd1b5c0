/**
 How much context the body of a unified hunk shows: facts about the tags of its lines.
 */
module HunkContext {
  import opened UnifiedHunk
  import opened SeqFacts

  function TagOf(line: string): char { if line == [] then ' ' else line[0] }

  function Tags(body: seq<string>): (t: seq<char>)
    ensures |t| == |body| && forall k :: 0 <= k < |t| ==> t[k] == TagOf(body[k])
  {
    seq(|body|, k requires 0 <= k < |body| => TagOf(body[k]))
  }

  function Repeat(c: char, n: nat): (t: seq<char>)
    ensures |t| == n && forall k :: 0 <= k < n ==> t[k] == c
  {
    seq(n, _ => c)
  }

  /** The number of blanks at the start. */
  function Leading(t: seq<char>): (l: nat)
    ensures l <= |t| && (forall k :: 0 <= k < l ==> t[k] == ' ') && (l < |t| ==> t[l] != ' ')
  {
    if t != [] && t[0] == ' ' then 1 + Leading(t[1..]) else 0
  }

  /** The number of blanks at the end. */
  function Trailing(t: seq<char>): (l: nat)
    ensures l <= |t| && (forall k :: |t| - l <= k < |t| ==> t[k] == ' ') && (l < |t| ==> t[|t| - l - 1] != ' ')
  {
    if t != [] && t[|t| - 1] == ' ' then 1 + Trailing(t[..|t| - 1]) else 0
  }

  /** The number of tags that are not blank. */
  function Changed(t: seq<char>): (n: nat)
    ensures n <= |t|
  {
    if t == [] then 0 else Changed(t[..|t| - 1]) + if t[|t| - 1] == ' ' then 0 else 1
  }

  /** x..y is a run of blanks between two other tags. */
  predicate IsInner(t: seq<char>, x: int, y: int)
  {
    0 < x <= y < |t| && t[x - 1] != ' ' && t[y] != ' ' && forall k :: x <= k < y ==> t[k] == ' '
  }

  /** No such run is longer than m. */
  ghost predicate InnerRuns(t: seq<char>, m: int)
  {
    forall x, y :: IsInner(t, x, y) ==> y - x <= m
  }

  // ----- hunks

  /** Hunk k begins with ctx context lines, or fewer at the start of the file, and ends
      likewise; no more than 2 * ctx context lines stand between its changes, and more than
      that between its first change and the last one of the hunk before. */
  ghost predicate ContextAt(hs: seq<Hunk>, ctx: nat, m: nat, k: nat)
    requires k < |hs|
  {
    var h, t := hs[k], Tags(hs[k].body);
    && (Leading(t) == ctx || (Leading(t) < ctx && h.lowa == 1))
    && (Trailing(t) == ctx || (Trailing(t) < ctx && h.upd == m))
    && InnerRuns(t, 2 * ctx)
    && (k > 0 ==> Trailing(Tags(hs[k - 1].body)) + (h.lowa - 1 - hs[k - 1].upb) + Leading(t) > 2 * ctx)
  }

  /** The hunks of a diff to a new file of m lines show ctx lines of context. */
  ghost predicate ContextOk(hs: seq<Hunk>, ctx: nat, m: nat)
  {
    forall k :: 0 <= k < |hs| ==> ContextAt(hs, ctx, m, k)
  }

  /** The deleted and added lines of all hunks. */
  function ChangedLines(hs: seq<Hunk>): nat
  {
    if hs == [] then 0 else ChangedLines(hs[..|hs| - 1]) + Changed(Tags(hs[|hs| - 1].body))
  }

  lemma ContextGrows(hs: seq<Hunk>, h: Hunk, ctx: nat, m: nat)
    requires ContextOk(hs, ctx, m) && ContextAt(hs + [h], ctx, m, |hs|)
    ensures ContextOk(hs + [h], ctx, m)
  {
    hide InnerRuns, Leading, Trailing, Tags;
    var hs' := hs + [h];
    forall k | 0 <= k < |hs'|
      ensures ContextAt(hs', ctx, m, k)
    {
      if k < |hs| {
        assert ContextAt(hs, ctx, m, k);
        assert hs'[k] == hs[k] && (k > 0 ==> hs'[k - 1] == hs[k - 1]);
      }
    }
  }

  lemma ChangedLinesNext(hs: seq<Hunk>, h: Hunk)
    ensures ChangedLines(hs + [h]) == ChangedLines(hs) + Changed(Tags(h.body))
  {
    assert (hs + [h])[..|hs|] == hs;
  }

  // ----- tags

  lemma TagsConcat(x: seq<string>, y: seq<string>)
    ensures Tags(x + y) == Tags(x) + Tags(y)
  {
  }

  lemma {:induction false} TagsTagged(tag: char, s: seq<string>)
    ensures Tags(Tagged(tag, s)) == Repeat(tag, |s|)
    decreases |s|
  {
    if s != [] {
      var l := [[tag] + s[|s| - 1]];
      TagsTagged(tag, s[..|s| - 1]);
      TagsConcat(Tagged(tag, s[..|s| - 1]), l);
      assert Tags(l) == [tag];
      assert Repeat(tag, |s|) == Repeat(tag, |s| - 1) + [tag];
    }
  }

  lemma LeadingIs(t: seq<char>, l: nat)
    requires l < |t| && t[l] != ' ' && forall k :: 0 <= k < l ==> t[k] == ' '
    ensures Leading(t) == l
  {
    var n := Leading(t);
    assert n < |t|;
  }

  lemma TrailingIs(t: seq<char>, l: nat)
    requires l < |t| && t[|t| - l - 1] != ' ' && forall k :: |t| - l <= k < |t| ==> t[k] == ' '
    ensures Trailing(t) == l
  {
    var n := Trailing(t);
    assert n < |t|;
  }

  lemma {:induction false} ChangedConcat(x: seq<char>, y: seq<char>)
    ensures Changed(x + y) == Changed(x) + Changed(y)
    decreases |y|
  {
    if y == [] {
      Empty(x);
    } else {
      assert (x + y)[..|x + y| - 1] == x + y[..|y| - 1];
      ChangedConcat(x, y[..|y| - 1]);
    }
  }

  lemma {:induction false} ChangedBlanks(n: nat)
    ensures Changed(Repeat(' ', n)) == 0
  {
    if n > 0 {
      assert Repeat(' ', n)[..n - 1] == Repeat(' ', n - 1);
      ChangedBlanks(n - 1);
    }
  }

  ghost predicate NoBlanks(t: seq<char>) { forall k :: 0 <= k < |t| ==> t[k] != ' ' }

  lemma {:induction false} ChangedAll(t: seq<char>)
    requires NoBlanks(t)
    ensures Changed(t) == |t|
  {
    if t != [] {
      ChangedAll(t[..|t| - 1]);
    }
  }

  // ----- a body as it is printed, change by change

  /** The tags after some changes: lead blanks before the first, no longer inner run than m,
      n changed lines, the last of them at the end. */
  ghost predicate Shown(t: seq<char>, lead: nat, m: int, n: nat)
  {
    t != [] && t[|t| - 1] != ' ' && Leading(t) == lead && InnerRuns(t, m) && Changed(t) == n
  }

  /** The first change. */
  lemma ShownStarts(g: nat, ch: seq<char>, m: nat)
    requires NoBlanks(ch) && ch != []
    ensures Shown(Repeat(' ', g) + ch, g, m, |ch|)
  {
    hide Leading, Changed;
    var t := Repeat(' ', g) + ch;
    LeadingIs(t, g);
    ChangedConcat(Repeat(' ', g), ch);
    ChangedBlanks(g);
    ChangedAll(ch);
    StartRuns(g, ch, m);
  }

  lemma StartRuns(g: nat, ch: seq<char>, m: nat)
    requires NoBlanks(ch)
    ensures InnerRuns(Repeat(' ', g) + ch, m)
  {
    var t := Repeat(' ', g) + ch;
    forall x, y | IsInner(t, x, y)
      ensures y - x <= m
    {
      RunEnds(t, x, y);
    }
  }

  /** A run that is not empty begins with a blank, after a tag that is none. */
  lemma RunEnds(t: seq<char>, x: int, y: int)
    requires IsInner(t, x, y)
    ensures x == y || t[x] == ' ' != t[x - 1]
  {
  }

  /** One more change, after g context lines. */
  lemma ShownGrows(t: seq<char>, lead: nat, m: int, n: nat, g: nat, ch: seq<char>)
    requires Shown(t, lead, m, n) && g <= m && NoBlanks(ch) && ch != []
    ensures Shown(t + Repeat(' ', g) + ch, lead, m, n + |ch|)
  {
    hide Leading, Changed, InnerRuns;
    var u := t + Repeat(' ', g) + ch;
    assert forall k :: 0 <= k < |t| ==> u[k] == t[k];
    FirstInside(t);
    LeadingIs(u, lead);
    ChangedConcat(t + Repeat(' ', g), ch);
    ChangedConcat(t, Repeat(' ', g));
    ChangedBlanks(g);
    ChangedAll(ch);
    RunsGrow(t, m, g, ch);
  }

  lemma FirstInside(t: seq<char>)
    requires t != [] && t[|t| - 1] != ' '
    ensures Leading(t) < |t| && t[Leading(t)] != ' ' && forall k :: 0 <= k < Leading(t) ==> t[k] == ' '
  {
  }

  lemma RunsGrow(t: seq<char>, m: int, g: nat, ch: seq<char>)
    requires t != [] && t[|t| - 1] != ' ' && InnerRuns(t, m) && g <= m && NoBlanks(ch)
    ensures InnerRuns(t + Repeat(' ', g) + ch, m)
  {
    var u := t + Repeat(' ', g) + ch;
    forall x, y | IsInner(u, x, y)
      ensures y - x <= m
    {
      RunWhere(t, g, ch, x, y);
    }
  }

  /** An inner run is one of t, the one that was added, or empty. */
  lemma RunWhere(t: seq<char>, g: nat, ch: seq<char>, x: int, y: int)
    requires t != [] && t[|t| - 1] != ' ' && NoBlanks(ch) && IsInner(t + Repeat(' ', g) + ch, x, y)
    ensures IsInner(t, x, y) || y - x <= g
  {
    var u := t + Repeat(' ', g) + ch;
    assert forall k :: 0 <= k < |t| ==> u[k] == t[k];
    assert forall k :: |t| <= k < |t| + g ==> u[k] == ' ';
    assert forall k :: |t| + g <= k < |u| ==> u[k] != ' ';
    if y < |t| {
      assert IsInner(t, x, y);
    } else {
      assert u[|t| - 1] != ' ';
      assert x >= |t|;
      assert x < y ==> u[x] == ' ' && u[y - 1] == ' ';
    }
  }

  /** The context lines after the last change. */
  lemma ShownEnds(t: seq<char>, lead: nat, m: int, n: nat, g: nat)
    requires Shown(t, lead, m, n)
    ensures var u := t + Repeat(' ', g);
            Leading(u) == lead && Trailing(u) == g && InnerRuns(u, m) && Changed(u) == n
  {
    hide Leading, Trailing, Changed;
    var u := t + Repeat(' ', g);
    assert forall k :: 0 <= k < |t| ==> u[k] == t[k];
    FirstInside(t);
    LeadingIs(u, lead);
    TrailingIs(u, g);
    ChangedConcat(t, Repeat(' ', g));
    ChangedBlanks(g);
    forall x, y | IsInner(u, x, y)
      ensures y - x <= m
    {
      assert IsInner(t, x, y);
    }
  }
}
