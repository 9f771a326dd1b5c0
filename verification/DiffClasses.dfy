/**
 From two files of hashed lines to the tables that stone reads: prune, equiv and
 unsort of cmd/posix/diff.c.
 */
module DiffClasses {
  import opened Basics
  import opened DiffSort
  import opened DiffStone

  /** Entry i of a file read by prepare carries the value of line i. */
  ghost predicate FileOf(s: seq<Line>, A: seq<int>)
  {
    |A| < |s| && forall i :: 1 <= i <= |A| ==> s[i].value == A[i - 1]
  }

  /** The longest common prefix, and then the longest common suffix of what is left. */
  ghost predicate Pruned(A: seq<int>, B: seq<int>, pref: nat, suff: nat)
  {
    var n, m := |A|, |B|;
    && pref + suff <= n && pref + suff <= m
    && (forall k :: 0 <= k < pref ==> A[k] == B[k])
    && (forall k :: n - suff <= k < n ==> A[k] == B[k + m - n])
    && (pref < n && pref < m ==> A[pref] != B[pref])
    && (pref + suff < n && pref + suff < m ==> A[n - suff - 1] != B[m - suff - 1])
  }

  lemma PrunedOnce(A: seq<int>, B: seq<int>, pref: nat, suff: nat, pref': nat, suff': nat)
    requires Pruned(A, B, pref, suff) && Pruned(A, B, pref', suff')
    ensures pref == pref' && suff == suff'
  {
  }

  /** equiv writes 0 after the last of the sorted new lines: that must not be the value of
      the last line itself, which is the largest. */
  ghost predicate ZeroNotLargest(B: seq<int>) { 0 in B ==> exists y :: y in B && y > 0 }

  /** The same for the new lines that prune leaves. */
  ghost predicate StopperOk(A: seq<int>, B: seq<int>)
  {
    forall pref: nat, suff: nat :: Pruned(A, B, pref, suff) ==> ZeroNotLargest(B[pref..|B| - suff])
  }

  /** No old line that prune leaves has more than bound equal new lines. */
  ghost predicate BoundFits(A: seq<int>, B: seq<int>, bound: nat)
  {
    forall pref: nat, suff: nat :: Pruned(A, B, pref, suff) ==>
      ClassesFit(A[pref..|A| - suff], B[pref..|B| - suff], bound)
  }

  /** No value occurs more often. */
  ghost predicate OccursAtMost(B: seq<int>, bound: nat) { forall v :: v in B ==> multiset(B)[v] <= bound }

  /** It is enough that no value occurs more often in the whole new file. */
  lemma FewEqualFit(A: seq<int>, B: seq<int>, bound: nat)
    requires OccursAtMost(B, bound)
    ensures BoundFits(A, B, bound)
  {
    forall pref: nat, suff: nat | Pruned(A, B, pref, suff)
      ensures ClassesFit(A[pref..|A| - suff], B[pref..|B| - suff], bound)
    {
      PartFits(A[pref..|A| - suff], B, pref, |B| - suff, bound);
    }
  }

  lemma PartFits(A: seq<int>, B: seq<int>, i: nat, j: nat, bound: nat)
    requires i <= j <= |B| && forall v :: v in B ==> multiset(B)[v] <= bound
    ensures ClassesFit(A, B[i..j], bound)
  {
    assert B == B[..i] + B[i..j] + B[j..];
    forall v | v in A
      ensures multiset(B[i..j])[v] <= bound
    {
      assert multiset(B)[v] == multiset(B[..i])[v] + multiset(B[i..j])[v] + multiset(B[j..])[v];
      if multiset(B)[v] > 0 {
        assert v in multiset(B);
      }
    }
  }

  /** A bound that is not below the length of the new file fits. */
  lemma LongBoundFits(A: seq<int>, B: seq<int>, bound: nat)
    requires |B| <= bound
    ensures BoundFits(A, B, bound)
  {
    forall v | v in B
      ensures multiset(B)[v] <= bound
    {
      CountAtMost(B, v);
    }
    FewEqualFit(A, B, bound);
  }

  lemma CountAtMost(B: seq<int>, v: int)
    ensures multiset(B)[v] <= |B|
  {
    assert multiset(B) == multiset(B)[v := 0] + multiset{}[v := multiset(B)[v]];
    assert |multiset(B)| == |B|;
  }

  /** It is enough that no line has value 0. */
  lemma NoZeroStops(A: seq<int>, B: seq<int>)
    requires 0 !in B
    ensures StopperOk(A, B)
  {
  }

  lemma LastIsLargest(s: seq<Line>, B: seq<int>, y: int)
    requires SortedFile(s, B) && y in B
    ensures y <= s[|B|].value
  {
    var i :| 0 <= i < |B| && B[i] == y;
    assert HasSerial(s, |B|, i + 1);
    var t :| 1 <= t <= |B| && s[t].serial == i + 1;
    assert t < |B| ==> Less(s[t], s[|B|]);
  }

  lemma LastNotZero(s: seq<Line>, B: seq<int>)
    requires SortedFile(s, B) && ZeroNotLargest(B) && |B| > 0
    ensures s[|B|].value != 0
  {
    assert s[|B|].value == B[s[|B|].serial - 1];
    if 0 in B {
      var y :| y in B && y > 0;
      LastIsLargest(s, B, y);
    }
  }

  /** prune: set the common prefix and suffix aside and number what is left. */
  method Prune(file0: array<Line>, file1: array<Line>, ghost A: seq<int>, ghost B: seq<int>, len0: nat, len1: nat)
    returns (pref: nat, suff: nat, s0: array<Line>, s1: array<Line>)
    requires |A| == len0 && |B| == len1 && FileOf(file0[..], A) && FileOf(file1[..], B)
    ensures Pruned(A, B, pref, suff)
    ensures s0 != s1
    ensures fresh(s0) && s0.Length == len0 - pref - suff + 2
    ensures fresh(s1) && s1.Length == len1 - pref - suff + 2
    ensures NumberedFile(s0[..], A[pref..len0 - suff]) && NumberedFile(s1[..], B[pref..len1 - suff])
  {
    pref, suff := CommonEnds(file0, file1, A, B, len0, len1);
    hide Pruned, FileOf;
    PrunedFits(A, B, pref, suff);
    s0 := Number(file0, A, len0, pref, suff);
    s1 := Number(file1, B, len1, pref, suff);
  }

  lemma PrunedFits(A: seq<int>, B: seq<int>, pref: nat, suff: nat)
    requires Pruned(A, B, pref, suff)
    ensures pref + suff <= |A| && pref + suff <= |B|
  {
  }

  /** The two loops of prune that count. */
  method CommonEnds(file0: array<Line>, file1: array<Line>, ghost A: seq<int>, ghost B: seq<int>, len0: nat, len1: nat)
    returns (pref: nat, suff: nat)
    requires |A| == len0 && |B| == len1 && FileOf(file0[..], A) && FileOf(file1[..], B)
    ensures Pruned(A, B, pref, suff)
  {
    pref := 0;
    while pref < len0 && pref < len1 && file0[pref + 1].value == file1[pref + 1].value
      invariant pref <= len0 && pref <= len1
      invariant forall k :: 0 <= k < pref ==> A[k] == B[k]
    {
      pref := pref + 1;
    }
    suff := 0;
    while suff < len0 - pref && suff < len1 - pref && file0[len0 - suff].value == file1[len1 - suff].value
      invariant pref + suff <= len0 && pref + suff <= len1
      invariant forall k :: len0 - suff <= k < len0 ==> A[k] == B[k + len1 - len0]
    {
      suff := suff + 1;
    }
  }

  method Number(file: array<Line>, ghost A: seq<int>, len: nat, pref: nat, suff: nat) returns (s: array<Line>)
    requires |A| == len && FileOf(file[..], A) && pref + suff <= len
    ensures fresh(s) && s.Length == len - pref - suff + 2
    ensures NumberedFile(s[..], A[pref..len - suff])
  {
    var slen := len - pref - suff;
    s := new Line[slen + 2](_ => Line(0, 0));
    var i := 0;
    while i <= slen
      invariant 0 <= i <= slen + 1
      invariant forall t :: 1 <= t < i ==> s[t] == Line(t, A[pref + t - 1])
    {
      s[i] := Line(i, file[pref + i].value);
      i := i + 1;
    }
  }

  // ----- equiv

  /** The first position of value v in the sorted new file, or 0 if it has none. */
  ghost predicate ClassStart(b: seq<Line>, m: nat, v: int, j: int)
    requires m < |b|
  {
    if j == 0 then forall t :: 1 <= t <= m ==> b[t].value != v
    else 1 <= j <= m && b[j].value == v && forall t :: 1 <= t < j ==> b[t].value < v
  }

  /** What equiv stores for position t of the sorted new file. */
  function MemberAt(b: seq<Line>, t: nat): int
    requires 1 <= t < |b|
  {
    if t == 1 || b[t - 1].value != b[t].value then -b[t].serial else b[t].serial
  }

  ghost predicate ValuesSorted(s: seq<Line>, n: nat)
    requires n < |s|
  {
    forall t, u :: 1 <= t < u <= n ==> s[t].value <= s[u].value
  }

  /** First half of equiv: replace each old value by the start of its class. */
  method Label(a: array<Line>, n: nat, b: array<Line>, m: nat)
    requires n < a.Length && m < b.Length && a != b
    requires ValuesSorted(a[..], n) && ValuesSorted(b[..], m)
    modifies a
    ensures forall t :: 1 <= t <= n ==> a[t].serial == old(a[t].serial)
    ensures forall t :: 1 <= t <= n ==> ClassStart(b[..], m, old(a[t].value), a[t].value)
  {
    hide ClassStart;
    ghost var s, bs := a[..], b[..];
    var i, j := 1, 1;
    while i <= n && j <= m
      invariant 1 <= i <= n + 1 && 1 <= j <= m + 1 && b[..] == bs
      invariant forall t :: i <= t <= n ==> a[t] == s[t]
      invariant forall t :: 1 <= t < i ==> a[t].serial == s[t].serial && ClassStart(bs, m, s[t].value, a[t].value)
      invariant forall t, u :: 1 <= t < j && i <= u <= n ==> bs[t].value < s[u].value
      decreases n - i + m - j
    {
      if a[i].value < b[j].value {
        NoClass(bs, m, j, s[i].value);
        a[i] := a[i].(value := 0);
        i := i + 1;
      } else if a[i].value == b[j].value {
        ClassHere(bs, m, j, s[i].value);
        a[i] := a[i].(value := j);
        i := i + 1;
      } else {
        j := j + 1;
      }
    }
    while i <= n
      invariant 1 <= i <= n + 1
      invariant j <= m ==> i == n + 1
      invariant b[..] == bs
      invariant forall t :: i <= t <= n ==> a[t] == s[t]
      invariant forall t :: 1 <= t < i ==> a[t].serial == s[t].serial && ClassStart(bs, m, s[t].value, a[t].value)
      invariant forall t, u :: 1 <= t < j && i <= u <= n ==> bs[t].value < s[u].value
    {
      NoClass(bs, m, m + 1, s[i].value);
      a[i] := a[i].(value := 0);
      i := i + 1;
    }
  }

  /** The lines before j are smaller and the others larger. */
  lemma NoClass(b: seq<Line>, m: nat, j: int, v: int)
    requires m < |b| && ValuesSorted(b, m) && 1 <= j <= m + 1
    requires (forall t :: 1 <= t < j ==> b[t].value < v) && (j <= m ==> v < b[j].value)
    ensures ClassStart(b, m, v, 0)
  {
  }

  lemma ClassHere(b: seq<Line>, m: nat, j: int, v: int)
    requires m < |b| && 1 <= j <= m && b[j].value == v && forall t :: 1 <= t < j ==> b[t].value < v
    ensures ClassStart(b, m, v, j)
  {
  }

  /** Second half of equiv: list the members of every class, the first one negated.
      A zero value after the last line stops the last class, so that line must not
      have value zero itself. */
  method Members(b: array<Line>, m: nat, c: array<int>)
    requires b.Length == m + 2 && c.Length == m + 2
    requires m > 0 ==> b[m].value != 0
    modifies b, c
    ensures forall t :: 1 <= t <= m ==> b[t] == old(b[t])
    ensures forall t :: 1 <= t <= m ==> c[t] == MemberAt(b[..], t)
    ensures c[m + 1] == -1
  {
    ghost var s := b[..];
    b[m + 1] := b[m + 1].(value := 0);
    var j := 1;
    while j <= m
      invariant 1 <= j <= m + 1
      invariant b[..m + 1] == s[..m + 1] && b[m + 1].value == 0
      invariant 1 < j <= m ==> b[j - 1].value != b[j].value
      invariant forall t :: 1 <= t < j ==> c[t] == MemberAt(b[..], t)
    {
      c[j] := -b[j].serial;
      while b[j + 1].value == b[j].value
        invariant 1 <= j <= m
        invariant b[..m + 1] == s[..m + 1] && b[m + 1].value == 0
        invariant forall t :: 1 <= t <= j ==> c[t] == MemberAt(b[..], t)
        decreases m - j
      {
        j := j + 1;
        c[j] := b[j].serial;
      }
      j := j + 1;
    }
    c[j] := -1;
  }

  /** unsort: put the labels back into file order. */
  method Unsort(f: array<Line>, l: nat, b: array<int>)
    requires l < f.Length && l < b.Length
    requires forall t :: 1 <= t <= l ==> 1 <= f[t].serial <= l
    requires forall t, u :: 1 <= t < u <= l ==> f[t].serial != f[u].serial
    modifies b
    ensures forall t :: 1 <= t <= l ==> b[f[t].serial] == f[t].value
  {
    var a := new int[l + 1];
    var i := 1;
    while i <= l
      invariant 1 <= i <= l + 1
      invariant forall t :: 1 <= t < i ==> a[f[t].serial] == f[t].value
    {
      a[f[i].serial] := f[i].value;
      i := i + 1;
    }
    i := 1;
    while i <= l
      invariant 1 <= i <= l + 1
      invariant forall t :: 1 <= t < i ==> b[t] == a[t]
      modifies b
    {
      b[i] := a[i];
      i := i + 1;
    }
  }

  // ----- the tables are what stone needs

  /** The position after the last line of the class that starts at j. */
  ghost function ClassEnd(b: seq<Line>, m: nat, j: nat): (e: nat)
    requires 1 <= j <= m < |b|
    ensures j < e <= m + 1
    ensures forall t :: j <= t < e ==> b[t].value == b[j].value
    ensures e <= m ==> b[e].value != b[e - 1].value
    decreases m - j
  {
    if j == m || b[j + 1].value != b[j].value then j + 1 else ClassEnd(b, m, j + 1)
  }

  ghost predicate MemberTable(B: seq<int>, sb: seq<Line>, mem: seq<int>)
  {
    && |B| < |sb| && |mem| == |B| + 2 && mem[|B| + 1] == -1
    && forall t :: 1 <= t <= |B| ==> mem[t] == MemberAt(sb, t)
  }

  lemma MembersOfClass(B: seq<int>, sb: seq<Line>, mem: seq<int>, j: nat, e: nat)
    requires SortedFile(sb, B) && MemberTable(B, sb, mem)
    requires 1 <= j <= |B| && e == ClassEnd(sb, |B|, j)
    ensures forall t :: j <= t < e ==> Abs(mem[t]) == sb[t].serial
    ensures forall t :: j < t < e ==> mem[t] > 0
    ensures mem[e] < 0
  {
    forall t | j < t < e
      ensures mem[t] > 0
    {
      assert sb[t - 1].value == sb[j].value;
    }
  }

  lemma ClassIsComplete(B: seq<int>, sb: seq<Line>, j: nat, e: nat, y: int) returns (t: nat)
    requires SortedFile(sb, B) && 1 <= j <= |B| && e == ClassEnd(sb, |B|, j)
    requires ClassStart(sb, |B|, sb[j].value, j)
    requires 1 <= y <= |B| && B[y - 1] == sb[j].value
    ensures j <= t < e && sb[t].serial == y
  {
    assert HasSerial(sb, |B|, y);
    t :| 1 <= t <= |B| && sb[t].serial == y;
    assert e <= |B| ==> Less(sb[e - 1], sb[e]);
  }

  lemma SameClassOrder(B: seq<int>, sb: seq<Line>, s: int, t: int)
    requires SortedFile(sb, B) && 1 <= s < t <= |B| && sb[s].value == sb[t].value
    ensures sb[s].serial < sb[t].serial
  {
    assert Less(sb[s], sb[t]);
  }

  /** Within a class, the members ascend. */
  lemma ClassAscends(B: seq<int>, sb: seq<Line>, mem: seq<int>, j: nat, e: nat)
    requires SortedFile(sb, B) && 1 <= j < e <= |B| + 1 <= |mem|
    requires forall t :: j <= t < e ==> Abs(mem[t]) == sb[t].serial && sb[t].value == sb[j].value
    ensures forall s, t :: j <= s < t < e ==> Abs(mem[s]) < Abs(mem[t])
  {
    hide SortedFile, Abs;
    forall s, t | j <= s < t < e
      ensures Abs(mem[s]) < Abs(mem[t])
    {
      SameClassOrder(B, sb, s, t);
    }
  }

  lemma ClassValues(B: seq<int>, sb: seq<Line>, mem: seq<int>, j: nat, e: nat)
    requires SortedFile(sb, B) && 1 <= j < e <= |B| + 1 <= |mem|
    requires forall t :: j <= t < e ==> Abs(mem[t]) == sb[t].serial && sb[t].value == sb[j].value
    ensures forall t :: j <= t < e ==> 1 <= Abs(mem[t]) <= |B| && B[Abs(mem[t]) - 1] == sb[j].value
  {
    hide Abs, HasSerial, Less;
  }

  lemma ClassLists(B: seq<int>, sb: seq<Line>, mem: seq<int>, j: nat, e: nat)
    requires SortedFile(sb, B) && 1 <= j <= |B| < |sb| && |B| + 1 <= |mem| && e == ClassEnd(sb, |B|, j)
    requires ClassStart(sb, |B|, sb[j].value, j)
    requires forall t :: j <= t < e ==> Abs(mem[t]) == sb[t].serial
    ensures forall y :: 1 <= y <= |B| && B[y - 1] == sb[j].value ==> Listed(mem, j, e, y)
  {
    hide SortedFile, ClassStart, Abs;
    forall y | 1 <= y <= |B| && B[y - 1] == sb[j].value
      ensures Listed(mem, j, e, y)
    {
      var t := ClassIsComplete(B, sb, j, e, y);
      assert Abs(mem[t]) == y;
    }
  }

  lemma StartFits(B: seq<int>, sb: seq<Line>, mem: seq<int>, j: nat, v: int)
    requires SortedFile(sb, B) && MemberTable(B, sb, mem) && j != 0 && ClassStart(sb, |B|, v, j)
    ensures |B| < |sb| && |B| + 1 < |mem| && 1 <= j <= |B| && sb[j].value == v && mem[j] < 0
  {
  }

  lemma ClassIsRun(B: seq<int>, sb: seq<Line>, mem: seq<int>, j: nat, v: int)
    requires SortedFile(sb, B) && MemberTable(B, sb, mem)
    requires j != 0 && ClassStart(sb, |B|, v, j)
    ensures HasRun(B, mem, j, v)
  {
    hide MemberTable, SortedFile, ClassStart, Abs, Listed;
    StartFits(B, sb, mem, j, v);
    var e := ClassEnd(sb, |B|, j);
    MembersOfClass(B, sb, mem, j, e);
    ClassAscends(B, sb, mem, j, e);
    ClassValues(B, sb, mem, j, e);
    ClassLists(B, sb, mem, j, e);
    assert ClassRun(B, mem, j, e, v);
  }

  lemma ClassesHold(A: seq<int>, B: seq<int>, sa: seq<Line>, la: seq<Line>, sb: seq<Line>,
                    cls: seq<int>, mem: seq<int>)
    requires SortedFile(sa, A) && SortedFile(sb, B)
    requires |A| < |la| && |A| < |cls|
    requires forall t :: 1 <= t <= |A| ==> la[t].serial == sa[t].serial
    requires forall t :: 1 <= t <= |A| ==> ClassStart(sb, |B|, sa[t].value, la[t].value)
    requires forall t :: 1 <= t <= |A| ==> cls[la[t].serial] == la[t].value
    requires MemberTable(B, sb, mem)
    ensures Classes(A, B, cls, mem)
  {
    forall i | 1 <= i <= |A|
      ensures ClassOf(A, B, cls, mem, i)
    {
      assert HasSerial(sa, |A|, i);
      var t :| 1 <= t <= |A| && sa[t].serial == i;
      assert sa[t].value == A[i - 1] && cls[i] == la[t].value;
      if cls[i] == 0 {
        forall y | 0 <= y < |B|
          ensures B[y] != A[i - 1]
        {
          assert HasSerial(sb, |B|, y + 1);
        }
      } else {
        ClassIsRun(B, sb, mem, cls[i], A[i - 1]);
      }
    }
  }
}
