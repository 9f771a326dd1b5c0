/**
 patch: locating a hunk and applying it (locate_hunk, patch_match, apply_hunk,
 copy_till and spew_output of cmd/posix/patch.c), at fuzz 0 and with no -D.

 A hunk in memory is the arrays p_char and p_line: entry 0 is a header, entries
 1..p_ptrn_lines the old side, then comes a separator, then the new side up to p_end.
 */
module PatchApply {
  import opened Basics
  import opened UnifiedHunk
  import opened PatchBody

  /** Input lines f+1..l, as far as they exist. */
  function Slice(input: seq<string>, f: int, l: int): (s: seq<string>)
  {
    if 0 <= f <= l then input[Min(f, |input|)..Min(l, |input|)] else []
  }

  lemma SliceJoins(input: seq<string>, f: int, l: int, l': int)
    requires 0 <= f <= l <= l'
    ensures Slice(input, f, l) + Slice(input, l, l') == Slice(input, f, l')
    ensures Slice(input, f, f) == []
  {
  }

  lemma SliceNext(input: seq<string>, f: int, l: int)
    requires 0 <= f <= l < |input|
    ensures Slice(input, f, l + 1) == Slice(input, f, l) + [input[l]]
  {
  }

  /** The number of context lines a body starts with. */
  function Lead(body: seq<string>): (l: nat)
    ensures l <= |body|
    ensures forall k :: 0 <= k < l ==> |body[k]| >= 1 && body[k][0] == ' '
    ensures l < |body| ==> body[l] == [] || body[l][0] != ' '
  {
    if body != [] && body[0] != [] && body[0][0] == ' ' then 1 + Lead(body[1..]) else 0
  }

  lemma {:induction false} LeadTags(body: seq<string>, skip: char)
    requires IsBody(body) && skip != ' '
    ensures Lead(body) <= |SideTags(body, skip)|
    ensures forall k :: 0 <= k < Lead(body) ==> SideTags(body, skip)[k] == ' '
    ensures Lead(body) < |body| && body[Lead(body)][0] != skip ==>
      Lead(body) < |SideTags(body, skip)| && SideTags(body, skip)[Lead(body)] == body[Lead(body)][0]
    ensures Lead(body) == |body| ==> |SideTags(body, skip)| == |body|
  {
    if body != [] && body[0][0] == ' ' {
      LeadTags(body[1..], skip);
    }
  }

  /** The hunk in memory is body. */
  ghost predicate Holds(line: seq<string>, char_: seq<char>, ptrn: int, repl: int, end: int, body: seq<string>)
  {
    && IsBody(body)
    && ptrn == |OldSide(body)| == |SideTags(body, '+')| && repl == |NewSide(body)| == |SideTags(body, '-')|
    && end == ptrn + repl + 1 && |line| == |char_| == end + 2
    && char_[0] == '*' && char_[ptrn + 1] == '=' && char_[end + 1] == '^'
    && '-' !in line[0] && '*' !in line[ptrn + 1]
    && (forall k :: 0 <= k < ptrn ==> line[k + 1] == OldSide(body)[k] && char_[k + 1] == SideTags(body, '+')[k])
    && (forall k :: 0 <= k < repl ==>
        line[ptrn + 2 + k] == NewSide(body)[k] && char_[ptrn + 2 + k] == SideTags(body, '-')[k])
  }

  /** The old side of the body occurs at input line where. */
  ghost predicate MatchesAt(input: seq<string>, old_: seq<string>, where: int)
  {
    1 <= where && where - 1 + |old_| <= |input| && input[where - 1..where - 1 + |old_|] == old_
  }

  // ----- the merge of apply_hunk, on sequences

  /** Two sides of a hunk with their tags: the same context on both, and l common lines
      before the first change, if there is one. */
  ghost predicate TwoSides(old_: seq<string>, ot: seq<char>, new_: seq<string>, nt: seq<char>, l: nat, change: bool)
  {
    && |old_| == |ot| && |new_| == |nt| && l <= |ot| && l <= |nt|
    && Context(old_, ot) == Context(new_, nt)
    && (forall k :: 0 <= k < |ot| ==> ot[k] == ' ' || ot[k] == '-')
    && (forall k :: 0 <= k < |nt| ==> nt[k] == ' ' || nt[k] == '+')
    && (forall k :: 0 <= k < l ==> ot[k] == ' ' && nt[k] == ' ')
    && (change ==> (l < |ot| && ot[l] == '-') || (l < |nt| && nt[l] == '+'))
    && (!change ==> l == |ot| == |nt|)
  }

  lemma BodyTwoSides(body: seq<string>)
    requires IsBody(body)
    ensures TwoSides(OldSide(body), SideTags(body, '+'), NewSide(body), SideTags(body, '-'), Lead(body),
                     Lead(body) < |body|)
    ensures Lead(body) <= |NewSide(body)|
  {
    SameContext(body);
    SideLengths(body, '+');
    SideLengths(body, '-');
    LeadTags(body, '+');
    LeadTags(body, '-');
  }

  /** As many context lines passed on one side as on the other. */
  ghost predicate InSync(old_: seq<string>, ot: seq<char>, new_: seq<string>, nt: seq<char>, o: int, n: int)
  {
    && |old_| == |ot| && |new_| == |nt| && 0 <= o <= |ot| && 0 <= n <= |nt|
    && |Context(old_[..o], ot[..o])| == |Context(new_[..n], nt[..n])|
  }

  /** What has been written, completed by the context lines not yet copied, when the
      merge has passed o old and n new lines: nothing changes before the first change;
      after it, the output is the input up to the change and the new side from there. */
  ghost predicate Merged(input: seq<string>, new_: seq<string>, l: nat, change: bool, w: int, f0: int,
                         out0: seq<string>,
                         o: int, n: int, f: int, out: seq<string>)
  {
    || (o == n <= l && f == f0 && out == out0)
    || (change && 0 <= f0 <= w + l <= f <= w + o && l <= n <= |new_| && l <= o
        && out + Slice(input, f, w + o) == out0 + Slice(input, f0, w + l) + new_[l..n])
  }

  lemma SyncDelete(old_: seq<string>, ot: seq<char>, new_: seq<string>, nt: seq<char>, o: int, n: int)
    requires InSync(old_, ot, new_, nt, o, n) && o < |ot| && ot[o] == '-'
    ensures InSync(old_, ot, new_, nt, o + 1, n)
  {
    ContextSplit(old_, ot, o);
  }

  lemma SyncAdd(old_: seq<string>, ot: seq<char>, new_: seq<string>, nt: seq<char>, o: int, n: int)
    requires InSync(old_, ot, new_, nt, o, n) && n < |nt| && nt[n] == '+'
    ensures InSync(old_, ot, new_, nt, o, n + 1)
  {
    ContextSplit(new_, nt, n);
  }

  lemma SyncContext(old_: seq<string>, ot: seq<char>, new_: seq<string>, nt: seq<char>, l: nat, change: bool, o: int,
                    n: int)
    requires TwoSides(old_, ot, new_, nt, l, change)
    requires InSync(old_, ot, new_, nt, o, n) && o < |ot| && n < |nt| && ot[o] == nt[n] == ' '
    ensures InSync(old_, ot, new_, nt, o + 1, n + 1) && old_[o] == new_[n]
  {
    ContextSplit(old_, ot, o);
    ContextSplit(new_, nt, n);
  }

  /** The tags that the cursors can meet. If one side has no line left, the other has no
      context line left. */
  lemma NextTags(old_: seq<string>, ot: seq<char>, new_: seq<string>, nt: seq<char>, l: nat, change: bool, o: int,
                 n: int)
    requires TwoSides(old_, ot, new_, nt, l, change) && InSync(old_, ot, new_, nt, o, n)
    ensures 0 <= o <= |ot| == |old_| && 0 <= n <= |nt| == |new_|
    ensures o < |ot| ==> ot[o] == '-' || (ot[o] == ' ' && n < |nt|)
    ensures n < |nt| ==> nt[n] == '+' || (nt[n] == ' ' && o < |ot|)
    ensures (o < |ot| && ot[o] == '-') || (n < |nt| && nt[n] == '+') ==> change
    ensures change ==> !(o == |ot| && n == |nt| && o == n <= l)
  {
    if o == |ot| && n < |nt| {
      assert old_[..o] == old_ && ot[..o] == ot;
      ContextSplit(new_, nt, n);
    }
    if n == |nt| && o < |ot| {
      assert new_[..n] == new_ && nt[..n] == nt;
      ContextSplit(old_, ot, o);
    }
  }

  /** With no old line left, only added lines are left. */
  lemma {:induction false} OnlyAddedLeft(old_: seq<string>, ot: seq<char>, new_: seq<string>, nt: seq<char>, l: nat,
                                         change: bool, n: int)
    requires TwoSides(old_, ot, new_, nt, l, change) && InSync(old_, ot, new_, nt, |ot|, n)
    ensures forall k :: n <= k < |nt| ==> nt[k] == '+'
    ensures change ==> !(|ot| == |nt| <= l)
    decreases |nt| - n
  {
    NextTags(old_, ot, new_, nt, l, change, |ot|, n);
    if n < |nt| {
      SyncAdd(old_, ot, new_, nt, |ot|, n);
      OnlyAddedLeft(old_, ot, new_, nt, l, change, n + 1);
    }
  }

  /** At a change, everything up to it can be copied exactly if the frontier has not
      passed the first change. */
  lemma CopyPoint(input: seq<string>, old_: seq<string>, ot: seq<char>, new_: seq<string>, nt: seq<char>, l: nat,
                  w: int, f0: int, out0: seq<string>, o: int, n: int, f: int, out: seq<string>)
    requires TwoSides(old_, ot, new_, nt, l, true) && InSync(old_, ot, new_, nt, o, n) && 0 <= f0
    requires Merged(input, new_, l, true, w, f0, out0, o, n, f, out)
    requires (o < |ot| && ot[o] == '-') || (n < |nt| && nt[n] == '+')
    ensures l <= o && l <= n && 0 <= f && (f <= w + o <==> f0 <= w + l)
    ensures f <= w + o ==>
      out + Slice(input, f, w + o) == out0 + Slice(input, f0, w + l) + new_[l..n]
  {
    assert new_[l..l] == [];
  }

  lemma MergedDelete(input: seq<string>, new_: seq<string>, l: nat, w: int, f0: int, out0: seq<string>,
                     o: int, n: int, out: seq<string>)
    requires 0 <= f0 <= w + l && l <= o && l <= n <= |new_|
    requires out == out0 + Slice(input, f0, w + l) + new_[l..n]
    ensures Merged(input, new_, l, true, w, f0, out0, o + 1, n, w + o + 1, out)
    ensures Merged(input, new_, l, true, w, f0, out0, o, n, w + o, out)
  {
    assert out + [] == out;
  }

  lemma MergedContext(input: seq<string>, old_: seq<string>, ot: seq<char>, new_: seq<string>, nt: seq<char>, l: nat,
                      change: bool, w: int, f0: int, out0: seq<string>, o: int, n: int, f: int, out: seq<string>)
    requires TwoSides(old_, ot, new_, nt, l, change) && MatchesAt(input, old_, w + 1)
    requires Merged(input, new_, l, change, w, f0, out0, o, n, f, out)
    requires 0 <= o < |ot| && 0 <= n < |nt| && ot[o] == nt[n] == ' ' && old_[o] == new_[n]
    ensures Merged(input, new_, l, change, w, f0, out0, o + 1, n + 1, f, out)
  {
    hide Slice, Context;
    if o == n <= l && f == f0 && out == out0 {
      assert o < l;
    } else {
      assert input[w + o] == input[w..w + |old_|][o];
      NextKept(input, new_, l, w, w + l, f0, out0, o, n, f, out);
    }
  }

  lemma NextKept(input: seq<string>, new_: seq<string>, l: nat, w: int, e: int, f0: int, out0: seq<string>,
                 o: int, n: int, f: int, out: seq<string>)
    requires 0 <= f <= w + o < |input| && l <= n < |new_| && input[w + o] == new_[n]
    requires out + Slice(input, f, w + o) == out0 + Slice(input, f0, e) + new_[l..n]
    ensures out + Slice(input, f, w + o + 1) == out0 + Slice(input, f0, e) + new_[l..n + 1]
  {
    SliceNext(input, f, w + o);
    hide Slice;
    assert new_[l..n + 1] == new_[l..n] + [new_[n]];
    Reassoc(out, Slice(input, f, w + o), out0 + Slice(input, f0, e), new_[l..n], [new_[n]]);
  }

  lemma Reassoc<T>(x: seq<T>, y: seq<T>, p: seq<T>, q: seq<T>, z: seq<T>)
    requires x + y == p + q
    ensures x + (y + z) == p + (q + z)
  {
    assert x + (y + z) == (x + y) + z;
    assert p + (q + z) == (p + q) + z;
  }

  lemma MergedAdd(input: seq<string>, new_: seq<string>, l: nat, w: int, f0: int, out0: seq<string>,
                  o: int, n: int, out: seq<string>)
    requires 0 <= f0 <= w + l && l <= o && l <= n < |new_|
    requires out == out0 + Slice(input, f0, w + l) + new_[l..n] + [new_[n]]
    ensures Merged(input, new_, l, true, w, f0, out0, o, n + 1, w + o, out)
  {
    assert new_[l..n + 1] == new_[l..n] + [new_[n]];
    assert out == out0 + Slice(input, f0, w + l) + new_[l..n + 1];
    MergedDelete(input, new_, l, w, f0, out0, o, n + 1, out);
  }

  lemma NothingPassed(old_: seq<string>, ot: seq<char>, new_: seq<string>, nt: seq<char>)
    requires |old_| == |ot| && |new_| == |nt|
    ensures InSync(old_, ot, new_, nt, 0, 0)
  {
  }

  // ----- patch

  /** Where the search for a hunk begins: the expected line, or the nearest one at which the
      old side fits into the file. */
  function SearchStart(input: seq<string>, old_: seq<string>, at: int): int
  {
    if at <= 0 then 1 else Min(at, |input| - |old_| + 1)
  }

  /** where is the place of a hunk that is expected at a line: the first match from there on
      down the file, else the nearest one above, and 0 if there is none. A hunk without old
      lines goes where it is expected. */
  ghost predicate Located(input: seq<string>, old_: seq<string>, at: int, where: int)
  {
    var start := SearchStart(input, old_, at);
    if old_ == [] then where == at
    else if where == 0 then forall l :: !MatchesAt(input, old_, l)
    else
      && MatchesAt(input, old_, where)
      && (where >= start ==> forall l :: start <= l < where ==> !MatchesAt(input, old_, l))
      && (where < start ==> forall l :: where < l ==> !MatchesAt(input, old_, l))
  }

  /** There is only one such place. */
  lemma LocatedOnce(input: seq<string>, old_: seq<string>, at: int, w: int, w': int)
    requires Located(input, old_, at, w) && Located(input, old_, at, w')
    ensures w == w'
  {
    hide MatchesAt;
  }

  /** An expected line that matches is the place. */
  lemma LocatedThere(input: seq<string>, old_: seq<string>, at: int, where: int)
    requires Located(input, old_, at, where) && MatchesAt(input, old_, at)
    ensures where == at
  {
    assert SearchStart(input, old_, at) == at;
    if old_ != [] {
      assert where != 0;
    }
  }

  /** How far hunks are off, after one more was looked for. */
  function OffsetAfter(offset: int, first: int, old_: seq<string>, where: int): int
  {
    if old_ == [] || where == 0 then offset else where - first
  }

  /** The first n lines of old_ stand at line of the input. */
  ghost predicate MatchesTo(input: seq<string>, old_: seq<string>, line: int, n: int)
  {
    0 <= n <= |old_| && forall k :: 0 <= k < n ==> Stands(input, old_, line, k)
  }

  ghost predicate Stands(input: seq<string>, old_: seq<string>, line: int, k: int)
    requires 0 <= k < |old_|
  {
    0 <= line - 1 + k < |input| && input[line - 1 + k] == old_[k]
  }

  lemma MatchStarts(input: seq<string>, old_: seq<string>, line: int)
    ensures MatchesTo(input, old_, line, 0)
  {
  }

  lemma MatchNext(input: seq<string>, old_: seq<string>, line: int, i: int)
    requires 1 <= i <= |old_| && MatchesTo(input, old_, line, i - 1)
    ensures 0 <= line + i - 2 < |input| && input[line + i - 2] == old_[i - 1] ==> MatchesTo(input, old_, line, i)
    ensures !(0 <= line + i - 2 < |input| && input[line + i - 2] == old_[i - 1]) ==> !MatchesAt(input, old_, line)
  {
    if MatchesAt(input, old_, line) {
      assert input[line - 1..line - 1 + |old_|][i - 1] == old_[i - 1];
    }
  }

  lemma MatchEnds(input: seq<string>, old_: seq<string>, line: int)
    requires MatchesTo(input, old_, line, |old_|)
    ensures |old_| > 0 ==> MatchesAt(input, old_, line)
  {
    if |old_| > 0 {
      assert Stands(input, old_, line, 0) && Stands(input, old_, line, |old_| - 1);
      var part := input[line - 1..line - 1 + |old_|];
      forall k | 0 <= k < |old_|
        ensures part[k] == old_[k]
      {
        assert Stands(input, old_, line, k);
      }
      assert part == old_;
    }
  }

  /** The globals of patch: the hunk in memory, the input and the output file. */
  class Patcher {
    const input: seq<string>
    var p_first: int
    var p_newfirst: int
    var p_ptrn_lines: int
    var p_repl_lines: int
    var p_end: int
    var p_line: seq<string>
    var p_char: seq<char>
    var last_frozen_line: int
    var last_offset: int
    var ofp: seq<string>

    constructor (lines: seq<string>)
      ensures input == lines
      ensures last_frozen_line == 0 && last_offset == 0 && ofp == [] && p_end == -1
    {
      input := lines;
      p_first, p_newfirst, p_ptrn_lines, p_repl_lines, p_end := 0, 0, 0, 0, -1;
      p_line, p_char := [], [];
      last_frozen_line, last_offset, ofp := 0, 0, [];
    }

    /** The hunk in memory is body. */
    ghost predicate Loaded(body: seq<string>)
      reads this
    {
      Holds(p_line, p_char, p_ptrn_lines, p_repl_lines, p_end, body)
    }

    /** patch_match at fuzz 0: do the pattern lines stand at this line of the input? */
    method PatchMatch(line: int, count: int, ghost body: seq<string>) returns (r: bool)
      requires Loaded(body) && count == p_ptrn_lines
      ensures r <==> MatchesAt(input, OldSide(body), line) || count == 0
    {
      hide OldSide, NewSide, SideTags, IsBody, MatchesAt, MatchesTo;
      ghost var old_ := OldSide(body);
      var i := 1;
      MatchStarts(input, old_, line);
      while i <= count
        invariant 1 <= i <= count + 1 && MatchesTo(input, old_, line, i - 1)
      {
        MatchNext(input, old_, line, i);
        if line + i - 1 < 1 || line + i - 1 > |input| {
          return false;
        }
        assert p_line[i - 1 + 1] == old_[i - 1];
        if input[line + i - 2] != p_line[i] {
          return false;
        }
        i := i + 1;
      }
      MatchEnds(input, old_, line);
      return true;
    }

    /** locate_hunk at fuzz 0: try the expected line and those after it, then those
        before it. 0 means that the pattern stands nowhere in the input. */
    method LocateHunk(ghost body: seq<string>) returns (where: int)
      requires Loaded(body)
      modifies this`last_offset
      ensures IsBody(body) && |OldSide(body)| == p_ptrn_lines
      ensures Located(input, OldSide(body), p_first + old(last_offset), where)
      ensures last_offset == OffsetAfter(old(last_offset), p_first, OldSide(body), where)
    {
      hide OldSide, NewSide, SideTags, IsBody;
      var first := p_first;
      var count := p_ptrn_lines;
      var max_line := |input| - count + 1;
      if count == 0 {
        return first + last_offset;
      }
      var offset;
      if first + last_offset <= 0 {
        offset := 1 - first;
      } else if first + last_offset > max_line {
        offset := max_line - first;
      } else {
        offset := last_offset;
      }
      assert first + offset == SearchStart(input, OldSide(body), first + last_offset);
      var line := first + offset;
      while line <= max_line
        invariant first + offset <= line && last_offset == old(last_offset)
        invariant forall l :: first + offset <= l < line ==> !MatchesAt(input, OldSide(body), l)
        decreases max_line - line
      {
        var r := PatchMatch(line, count, body);
        if r {
          last_offset := line - first;
          return line;
        }
        line := line + 1;
      }
      line := first + offset - 1;
      while line >= 1
        invariant line <= first + offset - 1 && last_offset == old(last_offset)
        invariant forall l :: line < l ==> !MatchesAt(input, OldSide(body), l)
      {
        var r := PatchMatch(line, count, body);
        if r {
          last_offset := line - first;
          return line;
        }
        line := line - 1;
      }
      forall l
        ensures !MatchesAt(input, OldSide(body), l)
      {
        if l > line {
          assert !MatchesAt(input, OldSide(body), l);
        }
      }
      return 0;
    }

    /** copy_till: copy the input up to a line that must not lie behind the frontier. */
    method CopyTill(line: int) returns (ok: bool)
      requires 0 <= last_frozen_line
      modifies this`last_frozen_line, this`ofp
      ensures ok <==> old(last_frozen_line) <= line
      ensures ok ==> last_frozen_line == line && ofp == old(ofp) + Slice(input, old(last_frozen_line), line)
      ensures !ok ==> last_frozen_line == old(last_frozen_line) && ofp == old(ofp)
    {
      if last_frozen_line > line {
        return false;
      }
      ghost var f := last_frozen_line;
      while last_frozen_line < line
        invariant f <= last_frozen_line <= line
        invariant ofp == old(ofp) + Slice(input, f, last_frozen_line)
      {
        last_frozen_line := last_frozen_line + 1;
        if last_frozen_line <= |input| {
          ofp := ofp + [input[last_frozen_line - 1]];
        }
      }
      return true;
    }

    /** spew_output: copy what is left of the input. */
    method SpewOutput() returns (ok: bool)
      requires 0 <= last_frozen_line
      modifies this`last_frozen_line, this`ofp
      ensures ok <==> |input| == 0 || old(last_frozen_line) <= |input|
      ensures ok ==> ofp == old(ofp) + Slice(input, old(last_frozen_line), |input|)
    {
      ok := true;
      if |input| != 0 {
        ok := CopyTill(|input|);
      }
    }

    /** copy_till as apply_hunk calls it, at a change. */
    method CopyToChange(line: int, ghost old_: seq<string>, ghost ot: seq<char>, ghost new_: seq<string>,
                        ghost nt: seq<char>,
                        ghost l: nat, ghost change: bool, ghost w: int, ghost f0: int, ghost out0: seq<string>,
                        ghost o: int, ghost n: int)
      returns (ok: bool)
      requires TwoSides(old_, ot, new_, nt, l, change) && InSync(old_, ot, new_, nt, o, n)
      requires 0 <= f0 && 0 <= last_frozen_line && line == w + o
      requires Merged(input, new_, l, change, w, f0, out0, o, n, last_frozen_line, ofp)
      requires (o < |ot| && ot[o] == '-') || (n < |nt| && nt[n] == '+')
      modifies this`last_frozen_line, this`ofp
      ensures change && l <= o && l <= n && 0 <= last_frozen_line
      ensures ok <==> f0 <= w + l
      ensures ok ==> last_frozen_line == line && ofp == out0 + Slice(input, f0, w + l) + new_[l..n]
    {
      hide Slice, Context, TwoSides, InSync, Merged;
      NextTags(old_, ot, new_, nt, l, change, o, n);
      CopyPoint(input, old_, ot, new_, nt, l, w, f0, out0, o, n, last_frozen_line, ofp);
      ok := CopyTill(line);
    }

    /** apply_hunk: merge the two sides of the hunk into the output at a line where its
        old side stands. It fails exactly if the frontier lies beyond the first change;
        otherwise the output, completed by the context lines not yet copied, is the input
        up to the first change, and the new side from there. */
    method ApplyHunk(where: int, ghost body: seq<string>) returns (ok: bool)
      requires Loaded(body) && 0 <= last_frozen_line
      requires p_ptrn_lines > 0 ==> MatchesAt(input, OldSide(body), where)
      modifies this`last_frozen_line, this`ofp
      ensures 0 <= last_frozen_line
      ensures ok <==> Lead(body) == |body| || old(last_frozen_line) <= where - 1 + Lead(body)
      ensures ok && Lead(body) == |body| ==> last_frozen_line == old(last_frozen_line) && ofp == old(ofp)
      ensures ok && Lead(body) < |body| ==>
        && Lead(body) <= |NewSide(body)| && where - 1 + Lead(body) <= last_frozen_line <= where - 1 + p_ptrn_lines
        && ofp + Slice(input, last_frozen_line, where - 1 + p_ptrn_lines)
           == old(ofp) + Slice(input, old(last_frozen_line), where - 1 + Lead(body)) + NewSide(body)[Lead(body)..]
    {
      hide OldSide, NewSide, SideTags, IsBody, Lead, Context, Slice, Holds, TwoSides, InSync, MatchesAt;
      LoadedSides(body);
      ghost var old_, new_, ot, nt := OldSide(body), NewSide(body), SideTags(body, '+'), SideTags(body, '-');
      ghost var l, f0, out0 := Lead(body), last_frozen_line, ofp;
      ghost var change := l < |body|;
      var w := where - 1;
      var o, n;
      ok, o, n := MergeOld(w, old_, ot, new_, nt, l, change, f0, out0);
      if !ok {
        return;
      }
      ok := MergeNew(w, o, n, old_, ot, new_, nt, l, change, f0, out0);
      assert new_[l..|new_|] == new_[l..];
    }

    /** The hunk in memory has these two sides. */
    ghost predicate HasSides(old_: seq<string>, ot: seq<char>, new_: seq<string>, nt: seq<char>)
      reads this
    {
      && |old_| == |ot| == p_ptrn_lines && |new_| == |nt| == p_repl_lines
      && p_end == p_ptrn_lines + p_repl_lines + 1 && |p_line| == |p_char| == p_end + 2
      && p_char[p_ptrn_lines + 1] == '='
      && (forall k :: 0 <= k < |ot| ==> p_line[k + 1] == old_[k] && p_char[k + 1] == ot[k])
      && (forall k :: 0 <= k < |nt| ==>
          p_line[p_ptrn_lines + 2 + k] == new_[k] && p_char[p_ptrn_lines + 2 + k] == nt[k])
    }

    lemma LoadedSides(body: seq<string>)
      requires Loaded(body)
      ensures IsBody(body)
      ensures HasSides(OldSide(body), SideTags(body, '+'), NewSide(body), SideTags(body, '-'))
      ensures TwoSides(OldSide(body), SideTags(body, '+'), NewSide(body), SideTags(body, '-'), Lead(body),
                       Lead(body) < |body|)
      ensures InSync(OldSide(body), SideTags(body, '+'), NewSide(body), SideTags(body, '-'), 0, 0)
      ensures |OldSide(body)| == |SideTags(body, '+')| == p_ptrn_lines
      ensures |NewSide(body)| == |SideTags(body, '-')| == p_repl_lines
      ensures Lead(body) <= |NewSide(body)| && Lead(body) <= |body|
    {
      hide OldSide, NewSide, SideTags, Lead, Context, TwoSides, InSync;
      BodyTwoSides(body);
      NothingPassed(OldSide(body), SideTags(body, '+'), NewSide(body), SideTags(body, '-'));
    }

    /** The main loop of apply_hunk; o and n are its cursors old and new. */
    method MergeOld(w: int, ghost old_: seq<string>, ghost ot: seq<char>, ghost new_: seq<string>, ghost nt: seq<char>,
                    ghost l: nat, ghost change: bool, ghost f0: int, ghost out0: seq<string>)
      returns (ok: bool, o: int, n: int)
      requires HasSides(old_, ot, new_, nt) && TwoSides(old_, ot, new_, nt, l, change)
      requires |ot| > 0 ==> MatchesAt(input, old_, w + 1)
      requires InSync(old_, ot, new_, nt, 0, 0) && 0 <= f0 == last_frozen_line && ofp == out0
      modifies this`last_frozen_line, this`ofp
      ensures 0 <= last_frozen_line
      ensures !ok ==> change && f0 > w + l
      ensures ok ==> o == p_ptrn_lines + 1 == |ot| + 1 && p_ptrn_lines + 2 <= n <= p_end + 1
      ensures ok ==> n - p_ptrn_lines - 2 <= |nt|
      ensures ok ==> InSync(old_, ot, new_, nt, o - 1, n - p_ptrn_lines - 2)
      ensures ok ==> Merged(input, new_, l, change, w, f0, out0, o - 1, n - p_ptrn_lines - 2, last_frozen_line, ofp)
    {
      hide Context, Slice;
      o := 1;
      n := p_ptrn_lines + 1;
      n := n + 1;
      while o <= p_ptrn_lines
        invariant 1 <= o <= p_ptrn_lines + 1 && p_ptrn_lines + 2 <= n <= p_end + 1 && 0 <= last_frozen_line
        invariant InSync(old_, ot, new_, nt, o - 1, n - p_ptrn_lines - 2)
        invariant Merged(input, new_, l, change, w, f0, out0, o - 1, n - p_ptrn_lines - 2, last_frozen_line, ofp)
        decreases p_ptrn_lines - o + p_end - n + 2
      {
        ok, o, n := MergeOne(w, o, n, old_, ot, new_, nt, l, change, f0, out0);
        if !ok {
          return;
        }
      }
      ok := true;
    }

    /** One round of that loop. */
    method MergeOne(w: int, o: int, n: int, ghost old_: seq<string>, ghost ot: seq<char>, ghost new_: seq<string>,
                    ghost nt: seq<char>,
                    ghost l: nat, ghost change: bool, ghost f0: int, ghost out0: seq<string>)
      returns (ok: bool, o': int, n': int)
      requires HasSides(old_, ot, new_, nt) && TwoSides(old_, ot, new_, nt, l, change)
      requires |ot| > 0 ==> MatchesAt(input, old_, w + 1)
      requires 0 <= f0 && 0 <= last_frozen_line
      requires 1 <= o <= p_ptrn_lines && p_ptrn_lines + 2 <= n <= p_end + 1
      requires InSync(old_, ot, new_, nt, o - 1, n - p_ptrn_lines - 2)
      requires Merged(input, new_, l, change, w, f0, out0, o - 1, n - p_ptrn_lines - 2, last_frozen_line, ofp)
      modifies this`last_frozen_line, this`ofp
      ensures 0 <= last_frozen_line
      ensures !ok ==> change && f0 > w + l
      ensures ok ==> o <= o' <= p_ptrn_lines + 1 && n <= n' <= p_end + 1 && o' + n' > o + n
      ensures ok ==> InSync(old_, ot, new_, nt, o' - 1, n' - p_ptrn_lines - 2)
      ensures ok ==> Merged(input, new_, l, change, w, f0, out0, o' - 1, n' - p_ptrn_lines - 2, last_frozen_line, ofp)
    {
      hide Context, Slice, Merged, InSync, TwoSides, MatchesAt, HasSides;
      ghost var i, j := o - 1, n - p_ptrn_lines - 2;
      NextTags(old_, ot, new_, nt, l, change, i, j);
      CharsAt(old_, ot, new_, nt, i, j);
      o', n' := o, n;
      if p_char[o] == '-' {
        ok := DeleteLine(w + o - 1, old_, ot, new_, nt, l, change, w, f0, out0, i, j);
        o' := o + 1;
      } else if p_char[n] == '+' {
        ok := AddLine(w + o - 1, p_line[n], old_, ot, new_, nt, l, change, w, f0, out0, i, j);
        n' := n + 1;
      } else {
        SyncContext(old_, ot, new_, nt, l, change, i, j);
        MergedContext(input, old_, ot, new_, nt, l, change, w, f0, out0, i, j, last_frozen_line, ofp);
        ok, o', n' := true, o + 1, n + 1;
      }
    }

    /** What the cursors see. */
    lemma CharsAt(old_: seq<string>, ot: seq<char>, new_: seq<string>, nt: seq<char>, i: int, j: int)
      requires HasSides(old_, ot, new_, nt) && 0 <= i <= |ot| && 0 <= j <= |nt|
      ensures |old_| == |ot| == p_ptrn_lines && |new_| == |nt| == p_repl_lines
      ensures p_end == p_ptrn_lines + p_repl_lines + 1 && |p_line| == |p_char| == p_end + 2
      ensures i < |ot| ==> p_char[i + 1] == ot[i] && p_line[i + 1] == old_[i]
      ensures j < |nt| ==> p_char[p_ptrn_lines + 2 + j] == nt[j] && p_line[p_ptrn_lines + 2 + j] == new_[j]
    {
    }

    /** A deleted line: copy up to it and step over it. */
    method DeleteLine(line: int, ghost old_: seq<string>, ghost ot: seq<char>, ghost new_: seq<string>,
                      ghost nt: seq<char>,
                      ghost l: nat, ghost change: bool, ghost w: int, ghost f0: int, ghost out0: seq<string>,
                      ghost o: int, ghost n: int)
      returns (ok: bool)
      requires TwoSides(old_, ot, new_, nt, l, change) && InSync(old_, ot, new_, nt, o, n)
      requires 0 <= f0 && 0 <= last_frozen_line && line == w + o && 0 <= o < |ot| && ot[o] == '-'
      requires Merged(input, new_, l, change, w, f0, out0, o, n, last_frozen_line, ofp)
      modifies this`last_frozen_line, this`ofp
      ensures 0 <= last_frozen_line
      ensures !ok ==> change && f0 > w + l
      ensures ok ==> InSync(old_, ot, new_, nt, o + 1, n)
      ensures ok ==> Merged(input, new_, l, change, w, f0, out0, o + 1, n, last_frozen_line, ofp)
    {
      hide Context, Slice, Merged, InSync, TwoSides;
      NextTags(old_, ot, new_, nt, l, change, o, n);
      SyncDelete(old_, ot, new_, nt, o, n);
      ok := CopyToChange(line, old_, ot, new_, nt, l, change, w, f0, out0, o, n);
      if ok {
        MergedDelete(input, new_, l, w, f0, out0, o, n, ofp);
        last_frozen_line := last_frozen_line + 1;
      }
    }

    /** An added line: copy up to it and print it. */
    method AddLine(line: int, text: string,
                   ghost old_: seq<string>, ghost ot: seq<char>, ghost new_: seq<string>, ghost nt: seq<char>,
                   ghost l: nat, ghost change: bool, ghost w: int, ghost f0: int, ghost out0: seq<string>,
                   ghost o: int, ghost n: int)
      returns (ok: bool)
      requires TwoSides(old_, ot, new_, nt, l, change) && InSync(old_, ot, new_, nt, o, n)
      requires 0 <= f0 && 0 <= last_frozen_line && line == w + o
      requires 0 <= n < |nt| == |new_| && nt[n] == '+' && new_[n] == text
      requires Merged(input, new_, l, change, w, f0, out0, o, n, last_frozen_line, ofp)
      modifies this`last_frozen_line, this`ofp
      ensures 0 <= last_frozen_line
      ensures !ok ==> change && f0 > w + l
      ensures ok ==> InSync(old_, ot, new_, nt, o, n + 1)
      ensures ok ==> Merged(input, new_, l, change, w, f0, out0, o, n + 1, last_frozen_line, ofp)
    {
      hide Context, Slice, Merged, InSync, TwoSides;
      NextTags(old_, ot, new_, nt, l, change, o, n);
      SyncAdd(old_, ot, new_, nt, o, n);
      ok := CopyToChange(line, old_, ot, new_, nt, l, change, w, f0, out0, o, n);
      if ok {
        ofp := ofp + [text];
        MergedAdd(input, new_, l, w, f0, out0, o, n, ofp);
      }
    }

    /** The added lines after the last old line. */
    method MergeNew(w: int, o: int, n0: int, ghost old_: seq<string>, ghost ot: seq<char>, ghost new_: seq<string>,
                    ghost nt: seq<char>,
                    ghost l: nat, ghost change: bool, ghost f0: int, ghost out0: seq<string>)
      returns (ok: bool)
      requires HasSides(old_, ot, new_, nt) && TwoSides(old_, ot, new_, nt, l, change)
      requires 0 <= f0 && 0 <= last_frozen_line
      requires o == p_ptrn_lines + 1 == |ot| + 1 && p_ptrn_lines + 2 <= n0 <= p_end + 1
      requires n0 - p_ptrn_lines - 2 <= |nt|
      requires InSync(old_, ot, new_, nt, o - 1, n0 - p_ptrn_lines - 2)
      requires Merged(input, new_, l, change, w, f0, out0, o - 1, n0 - p_ptrn_lines - 2, last_frozen_line, ofp)
      modifies this`last_frozen_line, this`ofp
      ensures 0 <= last_frozen_line
      ensures !ok ==> change && f0 > w + l
      ensures ok ==> Merged(input, new_, l, change, w, f0, out0, |ot|, |nt|, last_frozen_line, ofp)
      ensures change ==> !(|ot| == |nt| <= l)
    {
      hide Context, Slice, Merged, InSync, TwoSides, HasSides;
      ghost var i, j := |ot|, n0 - p_ptrn_lines - 2;
      OnlyAddedLeft(old_, ot, new_, nt, l, change, j);
      CharsAt(old_, ot, new_, nt, i, j);
      CharsFrom(old_, ot, new_, nt, j);
      ok := true;
      if n0 <= p_end && p_char[n0] == '+' {
        ok := CopyToChange(w + o - 1, old_, ot, new_, nt, l, change, w, f0, out0, i, j);
        if ok {
          AddRest(n0);
          assert new_[l..|nt|] == new_[l..j] + new_[j..];
          MergedDelete(input, new_, l, w, f0, out0, i, |nt|, ofp);
        }
      }
    }

    lemma CharsFrom(old_: seq<string>, ot: seq<char>, new_: seq<string>, nt: seq<char>, j: int)
      requires HasSides(old_, ot, new_, nt) && 0 <= j <= |nt|
      requires forall k :: j <= k < |nt| ==> nt[k] == '+'
      ensures p_line[p_ptrn_lines + 2 + j..p_end + 1] == new_[j..]
      ensures forall k :: p_ptrn_lines + 2 + j <= k <= p_end ==> p_char[k] == '+'
    {
      hide HasSides;
      SidesFit(old_, ot, new_, nt);
      var a := p_ptrn_lines + 2;
      forall k | a + j <= k <= p_end
        ensures p_char[k] == '+' && p_line[k] == new_[k - a]
      {
        CharsAt(old_, ot, new_, nt, 0, k - a);
      }
      var part := p_line[a + j..p_end + 1];
      forall k | 0 <= k < |part|
        ensures part[k] == new_[j..][k]
      {
        assert part[k] == p_line[a + j + k];
      }
    }

    lemma SidesFit(old_: seq<string>, ot: seq<char>, new_: seq<string>, nt: seq<char>)
      requires HasSides(old_, ot, new_, nt)
      ensures |new_| == |nt| == p_repl_lines && |old_| == |ot| == p_ptrn_lines
      ensures p_end == p_ptrn_lines + p_repl_lines + 1 && |p_line| == |p_char| == p_end + 2
    {
    }

    method AddRest(n0: int)
      requires 0 <= n0 <= p_end + 1 && |p_line| == |p_char| == p_end + 2
      requires forall k :: n0 <= k <= p_end ==> p_char[k] == '+'
      modifies this`ofp
      ensures ofp == old(ofp) + p_line[n0..p_end + 1]
    {
      var n := n0;
      while n <= p_end && p_char[n] == '+'
        invariant n0 <= n <= p_end + 1
        invariant ofp == old(ofp) + p_line[n0..n]
      {
        ofp := ofp + [p_line[n]];
        n := n + 1;
      }
    }
  }
}
