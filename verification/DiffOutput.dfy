/**
 From the matching J to change regions: both loops of output in cmd/posix/diff.c, and
 what an edit script made of those regions does.

 A change (a, b, c, d) replaces old lines a..b by new lines c..d, both 1-based and
 inclusive; a == b + 1 is a pure insertion and c == d + 1 a pure deletion.
 */
module DiffOutput {
  import opened DiffMatch

  datatype Change = Change(a: int, b: int, c: int, d: int)

  // ----- scripts

  /** Old lines consumed by the first k changes of a script that starts at old line i. */
  ghost function EndOld(i: int, cs: seq<Change>, k: nat): int
    requires k <= |cs|
  {
    if k == 0 then i else cs[k - 1].b
  }

  ghost function EndNew(j: int, cs: seq<Change>, k: nat): int
    requires k <= |cs|
  {
    if k == 0 then j else cs[k - 1].d
  }

  /** Old lines i+1..i' are matched one to one with the new lines from j+1. */
  ghost predicate Diagonal(J: seq<int>, i: int, i': int, j: int)
  {
    forall t :: i < t <= i' && 0 <= t < |J| ==> J[t] == t + (j - i)
  }

  /** J with the guard entries that output writes. */
  ghost predicate Guarded(J: seq<int>, n: nat, m: nat)
  {
    && |J| == n + 2 && J[0] == 0 && J[n + 1] == m + 1
    && (forall t :: 1 <= t <= n ==> 0 <= J[t] <= m)
    && (forall t, u :: 0 <= t < u <= n + 1 && J[t] != 0 && J[u] != 0 ==> J[t] < J[u])
  }

  /** From (i, j), the next change is ch: the lines up to it are matched in step, the
      old lines in it are unmatched, the line after it is matched, and it is not empty. */
  ghost predicate NextChange(J: seq<int>, n: nat, m: nat, i: int, j: int, ch: Change)
    requires |J| == n + 2
  {
    && 0 <= i < ch.a <= ch.b + 1 && ch.b <= n
    && ch.c - ch.a == j - i && ch.c <= ch.d + 1 && ch.d <= m
    && Diagonal(J, i, ch.a - 1, j)
    && (forall t :: ch.a <= t <= ch.b ==> J[t] == 0)
    && J[ch.b + 1] == ch.d + 1
    && (ch.a <= ch.b || ch.c <= ch.d)
  }

  ghost predicate ChangeOk(J: seq<int>, n: nat, m: nat, i: int, j: int, cs: seq<Change>, k: nat)
    requires |J| == n + 2 && k < |cs|
  {
    NextChange(J, n, m, EndOld(i, cs, k), EndNew(j, cs, k), cs[k])
  }

  /** cs lists exactly the change regions of J past old line i and new line j. */
  ghost predicate Script(J: seq<int>, n: nat, m: nat, i: int, j: int, cs: seq<Change>)
  {
    && |J| == n + 2
    && (forall k :: 0 <= k < |cs| ==> ChangeOk(J, n, m, i, j, cs, k))
    && Rest(J, n, m, EndOld(i, cs, |cs|), EndNew(j, cs, |cs|))
  }

  /** Everything past (i, j) is matched in step. */
  ghost predicate Rest(J: seq<int>, n: nat, m: nat, i: int, j: int)
  {
    0 <= i <= n && n - i == m - j && Diagonal(J, i, n, j)
  }

  /** The changes so far, with everything from the last one to (i, j) matched in step. */
  ghost predicate ScriptTo(J: seq<int>, n: nat, m: nat, cs: seq<Change>, i: int, j: int)
  {
    && |J| == n + 2
    && (forall k :: 0 <= k < |cs| ==> ChangeOk(J, n, m, 0, 0, cs, k))
    && var i', j' := EndOld(0, cs, |cs|), EndNew(0, cs, |cs|);
       0 <= i' <= i && i - i' == j - j' && Diagonal(J, i', i, j')
  }

  /** A change starts at the first line that is not matched in step. */
  lemma ChangeStops(J: seq<int>, n: nat, m: nat, i: int, j: int, ch: Change)
    requires Guarded(J, n, m) && NextChange(J, n, m, i, j, ch) && j >= 0
    ensures J[ch.a] != ch.a + (j - i)
  {
    if ch.a <= ch.b {
      assert J[ch.a] == 0;
    }
  }

  /** There is only one script for a matching. */
  lemma NextChangeUnique(J: seq<int>, n: nat, m: nat, i: int, j: int, ch: Change, ch': Change)
    requires Guarded(J, n, m)
    requires NextChange(J, n, m, i, j, ch) && NextChange(J, n, m, i, j, ch') && j >= 0
    ensures ch == ch'
  {
    ChangeStops(J, n, m, i, j, ch);
    ChangeStops(J, n, m, i, j, ch');
    assert ch.a == ch'.a;
  }

  // ----- the forward loop

  lemma ScriptAppends(J: seq<int>, n: nat, m: nat, cs: seq<Change>, i: int, j: int, ch: Change)
    requires ScriptTo(J, n, m, cs, i, j) && ch.a == i + 1
    requires NextChange(J, n, m, i, j, ch)
    ensures ScriptTo(J, n, m, cs + [ch], ch.b, ch.d)
  {
    var cs' := cs + [ch];
    forall k | 0 <= k < |cs'|
      ensures ChangeOk(J, n, m, 0, 0, cs', k)
    {
      if k < |cs| {
        assert ChangeOk(J, n, m, 0, 0, cs, k);
      }
    }
  }

  lemma ScriptEnds(J: seq<int>, n: nat, m: nat, cs: seq<Change>)
    requires ScriptTo(J, n, m, cs, n, m)
    ensures Script(J, n, m, 0, 0, cs)
  {
  }

  /** The loop's view of J: untouched from i0 on, and entry i0 - 1 is the number of new
      lines consumed so far. */
  ghost predicate Ahead(J: seq<int>, S: seq<int>, n: nat, i0: int)
  {
    && |J| == |S| == n + 2 && 1 <= i0 <= n + 1
    && (forall t :: i0 <= t <= n + 1 ==> J[t] == S[t])
    && 0 <= J[i0 - 1]
    && (forall t :: i0 <= t <= n + 1 && S[t] != 0 ==> J[i0 - 1] < S[t])
  }

  /** The first inner loop: skip the lines that are matched in step. */
  method SkipCommon(J: array<int>, n: nat, i: int) returns (i0: int)
    requires J.Length == n + 2 && 1 <= i <= n + 1
    ensures i <= i0 <= n + 1
    ensures forall t :: i <= t < i0 ==> J[t] == J[i - 1] + (t - i + 1)
    ensures i0 <= n ==> J[i0] != J[i0 - 1] + 1
  {
    i0 := i;
    while i0 <= n && J[i0] == J[i0 - 1] + 1
      invariant i <= i0 <= n + 1
      invariant forall t :: i <= t < i0 ==> J[t] == J[i - 1] + (t - i + 1)
    {
      i0 := i0 + 1;
    }
  }

  /** The second inner loop: the last of the unmatched lines from i0. */
  method LastUnmatched(J: array<int>, n: nat, i0: int) returns (i1: int)
    requires J.Length == n + 2 && 1 <= i0 <= n + 1
    ensures Region(J[..], n, i0, i1)
  {
    i1 := i0 - 1;
    while i1 < n && J[i1 + 1] == 0
      invariant i0 - 1 <= i1 <= n
      invariant forall t :: i0 <= t <= i1 ==> J[t] == 0
    {
      i1 := i1 + 1;
    }
  }

  lemma SkipKeeps(S: seq<int>, J: seq<int>, n: nat, m: nat, cs: seq<Change>, i: int, i0: int)
    requires Guarded(S, n, m) && Ahead(J, S, n, i) && ScriptTo(S, n, m, cs, i - 1, J[i - 1])
    requires i <= i0 <= n + 1 && forall t :: i <= t < i0 ==> J[t] == J[i - 1] + (t - i + 1)
    ensures Ahead(J, S, n, i0) && ScriptTo(S, n, m, cs, i0 - 1, J[i0 - 1])
  {
    assert i < i0 ==> J[i0 - 1] == S[i0 - 1];
  }

  /** i0..i1 is a maximal run of unmatched lines, possibly empty. */
  ghost predicate Region(J: seq<int>, n: nat, i0: int, i1: int)
  {
    && |J| == n + 2 && 1 <= i0 && i0 - 1 <= i1 <= n
    && (forall t :: i0 <= t <= i1 ==> J[t] == 0)
    && (i1 < n ==> J[i1 + 1] != 0)
  }

  lemma RegionAhead(S: seq<int>, J: seq<int>, n: nat, m: nat, i0: int, i1: int)
    requires Guarded(S, n, m) && Ahead(J, S, n, i0) && Region(J, n, i0, i1)
    ensures J[i0 - 1] < J[i1 + 1] == S[i1 + 1]
    ensures Ahead(J[i1 := J[i1 + 1] - 1], S, n, i1 + 1)
  {
    var J' := J[i1 := J[i1 + 1] - 1];
    forall t | i1 + 1 <= t <= n + 1 && S[t] != 0
      ensures J'[i1] < S[t]
    {
      assert t > i1 + 1 ==> S[i1 + 1] < S[t];
    }
  }

  lemma RegionScript(S: seq<int>, J: seq<int>, n: nat, m: nat, cs: seq<Change>, i0: int, i1: int, j0: int, j1: int)
    requires Guarded(S, n, m) && Ahead(J, S, n, i0) && Region(J, n, i0, i1)
    requires ScriptTo(S, n, m, cs, i0 - 1, j0 - 1)
    requires j0 == J[i0 - 1] + 1 && j1 == J[i1 + 1] - 1 && (i0 <= i1 || j0 <= j1)
    ensures ScriptTo(S, n, m, cs + [Change(i0, i1, j0, j1)], i1, j1)
  {
    assert J[i1 + 1] == S[i1 + 1] && J[i0 - 1] < S[i1 + 1];
    assert i1 < n ==> S[i1 + 1] <= m;
    assert forall t :: i0 <= t <= i1 ==> S[t] == J[t];
    ScriptAppends(S, n, m, cs, i0 - 1, j0 - 1, Change(i0, i1, j0, j1));
  }

  /** One round of the forward loop. Writing J[i1] is what makes the next round start in
      step. */
  method ForwardRound(J: array<int>, n: nat, m: nat, i: int, cs: seq<Change>, ghost S: seq<int>)
    returns (i0: int, cs': seq<Change>)
    requires Guarded(S, n, m) && Ahead(J[..], S, n, i) && ScriptTo(S, n, m, cs, i - 1, J[i - 1]) && i <= n
    modifies J
    ensures Ahead(J[..], S, n, i0) && ScriptTo(S, n, m, cs', i0 - 1, J[i0 - 1])
    ensures J[i0] == J[i0 - 1] + 1
    ensures i <= i0 && (old(J[i] == J[i - 1] + 1) ==> i < i0)
  {
    hide ScriptTo, Script, Guarded;
    ghost var s := J[..];
    var i' := SkipCommon(J, n, i);
    SkipKeeps(S, s, n, m, cs, i, i');
    var j0 := J[i' - 1] + 1;
    var i1 := LastUnmatched(J, n, i');
    var j1 := J[i1 + 1] - 1;
    RegionAhead(S, s, n, m, i', i1);
    cs' := cs;
    if !(i' > i1 && j0 > j1) {
      RegionScript(S, s, n, m, cs, i', i1, j0, j1);
      cs' := cs + [Change(i', i1, j0, j1)];
    }
    Write(J, i1, j1);
    i0 := i1 + 1;
  }

  /** output, all formats but ed: the regions in ascending order. */
  method OutputForward(J: array<int>, n: nat, m: nat) returns (cs: seq<Change>)
    requires Guarded(J[..], n, m)
    modifies J
    ensures Script(old(J[..]), n, m, 0, 0, cs)
  {
    ghost var S := J[..];
    cs := [];
    if n == 0 {
      if !(1 > 0 && 1 > m) {
        ScriptAppends(S, n, m, cs, 0, 0, Change(1, 0, 1, m));
        cs := cs + [Change(1, 0, 1, m)];
      }
      return;
    }
    var i0 := 1;
    while i0 <= n
      invariant Ahead(J[..], S, n, i0)
      invariant ScriptTo(S, n, m, cs, i0 - 1, J[i0 - 1])
      invariant i0 == n + 1 ==> J[n] == m
      decreases n + 1 - i0, i0 <= n && J[i0] != J[i0 - 1] + 1
    {
      i0, cs := ForwardRound(J, n, m, i0, cs, S);
    }
    ScriptEnds(S, n, m, cs);
  }

  // ----- the reverse loop

  function Reversed<T>(s: seq<T>): (r: seq<T>)
    ensures |r| == |s| && forall k :: 0 <= k < |s| ==> r[k] == s[|s| - 1 - k]
  {
    seq(|s|, k requires 0 <= k < |s| => s[|s| - 1 - k])
  }

  lemma ScriptPrepends(J: seq<int>, n: nat, m: nat, i: int, j: int, ch: Change, cs: seq<Change>)
    requires Script(J, n, m, ch.b, ch.d, cs) && NextChange(J, n, m, i, j, ch)
    ensures Script(J, n, m, i, j, [ch] + cs)
  {
    var cs' := [ch] + cs;
    forall k | 0 <= k < |cs'|
      ensures ChangeOk(J, n, m, i, j, cs', k)
    {
      if k > 0 {
        assert ChangeOk(J, n, m, ch.b, ch.d, cs, k - 1);
      }
    }
  }

  /** A script may start earlier if the lines up to it are matched in step. */
  lemma ScriptStartsEarlier(J: seq<int>, n: nat, m: nat, i: int, j: int, i': int, cs: seq<Change>)
    requires Script(J, n, m, i, j, cs) && 0 <= i' <= i && Diagonal(J, i', i, j - (i - i'))
    ensures Script(J, n, m, i', j - (i - i'), cs)
  {
    var j' := j - (i - i');
    forall k | 0 <= k < |cs|
      ensures ChangeOk(J, n, m, i', j', cs, k)
    {
      assert ChangeOk(J, n, m, i, j, cs, k);
    }
  }

  /** The reverse loop's view of J: untouched up to i0, and the new lines from entry
      i0 + 1 on are done. */
  ghost predicate Behind(J: seq<int>, S: seq<int>, n: nat, i0: int)
  {
    && |J| == |S| == n + 2 && 0 <= i0 <= n
    && (forall t :: 0 <= t <= i0 ==> J[t] == S[t])
    && (forall t :: 0 <= t <= i0 ==> S[t] < J[i0 + 1])
  }

  ghost predicate InStep(J: seq<int>, n: nat, i0: int)
    requires |J| == n + 2 && 0 <= i0 <= n
  {
    i0 >= 1 && J[i0] == J[i0 + 1] - 1 && J[i0] != 0
  }

  method SkipCommonBack(J: array<int>, n: nat, i: int) returns (i0: int)
    requires J.Length == n + 2 && 0 <= i <= n
    ensures 0 <= i0 <= i
    ensures forall t :: i0 < t <= i ==> J[t] == J[i + 1] - (i + 1 - t) && J[t] != 0
    ensures !InStep(J[..], n, i0)
  {
    i0 := i;
    while i0 >= 1 && J[i0] == J[i0 + 1] - 1 && J[i0] != 0
      invariant 0 <= i0 <= i
      invariant forall t :: i0 < t <= i ==> J[t] == J[i + 1] - (i + 1 - t) && J[t] != 0
    {
      i0 := i0 - 1;
    }
  }

  method FirstUnmatched(J: array<int>, n: nat, i0: int) returns (i1: int)
    requires J.Length == n + 2 && 0 <= i0 <= n
    ensures 1 <= i1 <= i0 + 1
    ensures forall t :: i1 <= t <= i0 ==> J[t] == 0
    ensures i1 == 1 || J[i1 - 1] != 0
  {
    i1 := i0 + 1;
    while i1 > 1 && J[i1 - 1] == 0
      invariant 1 <= i1 <= i0 + 1
      invariant forall t :: i1 <= t <= i0 ==> J[t] == 0
    {
      i1 := i1 - 1;
    }
  }

  lemma SkipBackKeeps(S: seq<int>, J: seq<int>, n: nat, m: nat, cs: seq<Change>, i: int, i0: int)
    requires Guarded(S, n, m) && Behind(J, S, n, i) && Script(S, n, m, i, J[i + 1] - 1, cs)
    requires 0 <= i0 <= i && forall t :: i0 < t <= i ==> J[t] == J[i + 1] - (i + 1 - t) && J[t] != 0
    ensures Behind(J, S, n, i0) && Script(S, n, m, i0, J[i0 + 1] - 1, cs)
  {
    assert i0 < i ==> J[i0 + 1] == S[i0 + 1] == J[i + 1] - (i - i0);
    forall t | i0 < t <= i
      ensures S[t] == t + (J[i + 1] - 1 - i)
    {
      assert J[t] == S[t];
    }
    ScriptStartsEarlier(S, n, m, i, J[i + 1] - 1, i0, cs);
  }

  lemma RegionBehind(S: seq<int>, J: seq<int>, n: nat, m: nat, cs: seq<Change>, i0: int, i1: int)
    requires Guarded(S, n, m) && Behind(J, S, n, i0) && Script(S, n, m, i0, J[i0 + 1] - 1, cs)
    requires J[i0 + 1] == S[i0 + 1] || i0 == 0
    requires !InStep(J, n, i0)
    requires 1 <= i1 <= i0 + 1 && (forall t :: i1 <= t <= i0 ==> J[t] == 0) && (i1 == 1 || J[i1 - 1] != 0)
    ensures var j0, j1 := J[i0 + 1] - 1, J[i1 - 1] + 1;
            && (!(i1 > i0 && j1 > j0) ==> J[i0 + 1] == S[i0 + 1] ==>
                  Script(S, n, m, i1 - 1, j1 - 1, [Change(i1, i0, j1, j0)] + cs))
            && (i1 > i0 && j1 > j0 ==> i1 == 1 && j1 == 1 && j0 == 0)
  {
    var j0, j1 := J[i0 + 1] - 1, J[i1 - 1] + 1;
    assert J[i1 - 1] == S[i1 - 1];
    if !(i1 > i0 && j1 > j0) && J[i0 + 1] == S[i0 + 1] {
      assert forall t :: i1 <= t <= i0 ==> S[t] == J[t];
      assert j0 <= m;
      ScriptPrepends(S, n, m, i1 - 1, j1 - 1, Change(i1, i0, j1, j0), cs);
    }
  }

  lemma WriteBehind(S: seq<int>, J: seq<int>, n: nat, m: nat, i0: int, i1: int)
    requires Guarded(S, n, m) && Behind(J, S, n, i0)
    requires 1 <= i1 <= i0 + 1 && (i1 == 1 || J[i1 - 1] != 0)
    ensures Behind(J[i1 := J[i1 - 1] + 1], S, n, i1 - 1)
    ensures i1 > 1 ==> InStep(J[i1 := J[i1 - 1] + 1], n, i1 - 1)
    ensures i1 == 1 ==> J[i1 - 1] == 0
  {
    var J' := J[i1 := J[i1 - 1] + 1];
    forall t | 0 <= t <= i1 - 1
      ensures S[t] < J'[i1]
    {
      assert J[i1 - 1] == S[i1 - 1];
    }
  }

  /** One round of the reverse loop. */
  method ReverseRound(J: array<int>, n: nat, m: nat, i: int, out: seq<Change>, ghost S: seq<int>)
    returns (i0: int, out': seq<Change>)
    requires Guarded(S, n, m) && Behind(J[..], S, n, i) && 1 <= i
    requires Script(S, n, m, i, J[i + 1] - 1, Reversed(out))
    requires J[i + 1] == S[i + 1] || InStep(J[..], n, i)
    modifies J
    ensures Behind(J[..], S, n, i0) && Script(S, n, m, i0, J[i0 + 1] - 1, Reversed(out'))
    ensures i0 >= 1 ==> InStep(J[..], n, i0)
    ensures i0 == 0 ==> J[1] == 1
    ensures i0 <= i && (old(InStep(J[..], n, i)) ==> i0 < i)
  {
    hide Script, Guarded, InStep;
    ghost var s := J[..];
    var i' := SkipCommonBack(J, n, i);
    SkipBackKeeps(S, s, n, m, Reversed(out), i, i');
    var j0 := J[i' + 1] - 1;
    var i1 := FirstUnmatched(J, n, i');
    var j1 := J[i1 - 1] + 1;
    RegionBehind(S, s, n, m, Reversed(out), i', i1);
    out' := out;
    if !(i1 > i' && j1 > j0) {
      out' := out + [Change(i1, i', j1, j0)];
      assert Reversed(out') == [Change(i1, i', j1, j0)] + Reversed(out);
    }
    WriteBehind(S, s, n, m, i', i1);
    Write(J, i1, j1);
    i0 := i1 - 1;
  }

  /** output for ed scripts: the regions in descending order. */
  method OutputReverse(J: array<int>, n: nat, m: nat) returns (out: seq<Change>)
    requires Guarded(J[..], n, m)
    modifies J
    ensures Script(old(J[..]), n, m, 0, 0, Reversed(out))
  {
    ghost var S := J[..];
    out := [];
    if n == 0 {
      if !(1 > 0 && 1 > m) {
        ScriptPrepends(S, n, m, 0, 0, Change(1, 0, 1, m), []);
        out := out + [Change(1, 0, 1, m)];
        assert Reversed(out) == [Change(1, 0, 1, m)] + [];
      }
      return;
    }
    var i0 := n;
    while i0 >= 1
      invariant Behind(J[..], S, n, i0)
      invariant Script(S, n, m, i0, J[i0 + 1] - 1, Reversed(out))
      invariant i0 >= 1 ==> J[i0 + 1] == S[i0 + 1] || InStep(J[..], n, i0)
      invariant i0 == 0 ==> J[1] == 1
      decreases i0, i0 >= 1 && !InStep(J[..], n, i0)
    {
      i0, out := ReverseRound(J, n, m, i0, out, S);
    }
  }
}
