/**
 The Shell sort of cmd/posix/diff.c, which orders lines by value and then by serial
 number. Entries 1..n of the array are sorted in place; entry 0 is not touched.
 */
module DiffSort {
  datatype Line = Line(serial: int, value: int)

  predicate Less(p: Line, q: Line)
  {
    p.value < q.value || (p.value == q.value && p.serial < q.serial)
  }

  /** Entries 1..n are in non-descending order. */
  ghost predicate Sorted(s: seq<Line>, n: int)
  {
    n < |s| && forall x, y :: 1 <= x < y <= n ==> !Less(s[y], s[x])
  }

  /** Entries of 1..n at distance m are in order, for every pair that starts below j. */
  ghost predicate StrideSorted(s: seq<Line>, n: int, m: nat, j: int, except: int)
  {
    n < |s| && forall x :: 1 <= x < j && x != except && x + m <= n ==> Below(s, x, m)
  }

  ghost predicate Below(s: seq<Line>, x: int, m: nat)
    requires 0 <= x && x + m < |s|
  {
    !Less(s[x + m], s[x])
  }

  method Swap(a: array<Line>, x: int, y: int)
    requires 0 <= x < a.Length && 0 <= y < a.Length
    modifies a
    ensures a[..] == old(a[..])[x := old(a[y])][y := old(a[x])]
    ensures multiset(a[..]) == old(multiset(a[..]))
  {
    a[x], a[y] := a[y], a[x];
  }

  /** Sinking past a larger element keeps the stride order everywhere but one step down. */
  lemma SwapKeeps(s: seq<Line>, n: int, m: nat, j: int, ai: int)
    requires 1 <= m && 1 <= ai <= j && j + m <= n < |s|
    requires StrideSorted(s, n, m, j + 1, ai)
    requires ai + m <= j ==> Below(s, ai, 2 * m)
    requires !Less(s[ai], s[ai + m])
    ensures var t := s[ai := s[ai + m]][ai + m := s[ai]];
            && StrideSorted(t, n, m, j + 1, ai - m)
            && (ai - m >= 1 ==> Below(t, ai - m, 2 * m))
  {
    var t := s[ai := s[ai + m]][ai + m := s[ai]];
    forall x | 1 <= x < j + 1 && x != ai - m && x + m <= n
      ensures Below(t, x, m)
    {
      if x != ai {
        assert Below(s, x, m);
      }
    }
    if ai - m >= 1 {
      assert Below(s, ai - m, m);
    }
  }

  /** One pass of the sort with stride m. */
  method Pass(a: array<Line>, n: nat, m: nat)
    requires n < a.Length && 1 <= m
    modifies a
    ensures multiset(a[..]) == old(multiset(a[..]))
    ensures a[0] == old(a[0]) && a[n + 1..] == old(a[n + 1..])
    ensures StrideSorted(a[..], n, m, n + 1, 0)
  {
    var k := n - m;
    var j := 1;
    while j <= k
      invariant 1 <= j && (j <= k + 1 || j == 1)
      invariant multiset(a[..]) == old(multiset(a[..]))
      invariant a[0] == old(a[0]) && a[n + 1..] == old(a[n + 1..])
      invariant StrideSorted(a[..], n, m, j, 0)
    {
      Sink(a, n, m, j);
      j := j + 1;
    }
  }

  /** The innermost loop: let entry j + m sink along its stride. */
  method Sink(a: array<Line>, n: nat, m: nat, j: int)
    requires n < a.Length && 1 <= m && 1 <= j <= n - m
    requires StrideSorted(a[..], n, m, j, 0)
    modifies a
    ensures multiset(a[..]) == old(multiset(a[..]))
    ensures a[0] == old(a[0]) && a[n + 1..] == old(a[n + 1..])
    ensures StrideSorted(a[..], n, m, j + 1, 0)
  {
    var ai := j;
    while ai > 0
      invariant ai <= j
      invariant multiset(a[..]) == old(multiset(a[..]))
      invariant a[0] == old(a[0]) && a[n + 1..] == old(a[n + 1..])
      invariant StrideSorted(a[..], n, m, j + 1, ai)
      invariant ai >= 1 && ai + m <= j ==> Below(a[..], ai, 2 * m)
      decreases ai
    {
      var aim := ai + m;
      if Less(a[ai], a[aim]) {
        break;
      }
      SwapKeeps(a[..], n, m, j, ai);
      Swap(a, ai, aim);
      ai := ai - m;
    }
  }

  lemma {:induction false} AdjacentSorted(s: seq<Line>, n: int, x: int, y: int)
    requires StrideSorted(s, n, 1, n + 1, 0)
    requires 1 <= x <= y <= n
    ensures !Less(s[y], s[x])
    decreases y - x
  {
    if x < y {
      AdjacentSorted(s, n, x, y - 1);
      assert Below(s, y - 1, 1);
    }
  }

  /** sort: entries 1..n end up in order, and nothing is lost. */
  method Sort(a: array<Line>, n: nat)
    requires n < a.Length
    modifies a
    ensures multiset(a[1..n + 1]) == old(multiset(a[1..n + 1]))
    ensures a[0] == old(a[0]) && a[n + 1..] == old(a[n + 1..])
    ensures Sorted(a[..], n)
  {
    if n == 0 {
      return;
    }
    ghost var s := a[..];
    var m := 0;
    var j := 1;
    while j <= n
      invariant j >= 1 && m >= 0
      invariant j == 1 || m == j - 1
      invariant j > 2 ==> n > 1
      decreases n - j
    {
      m := 2 * j - 1;
      j := j * 2;
    }
    m := m / 2;
    while m != 0
      invariant m >= 0
      invariant multiset(a[..]) == old(multiset(a[..]))
      invariant a[0] == old(a[0]) && a[n + 1..] == old(a[n + 1..])
      invariant m == 0 ==> Sorted(a[..], n)
    {
      Pass(a, n, m);
      if m == 1 {
        forall x, y | 1 <= x < y <= n
          ensures !Less(a[..][y], a[..][x])
        {
          AdjacentSorted(a[..], n, x, y);
        }
      }
      m := m / 2;
    }
    SamePart(s, a[..], n);
  }

  lemma SamePart(s: seq<Line>, t: seq<Line>, n: nat)
    requires |s| == |t| > n && multiset(s) == multiset(t)
    requires s[0] == t[0] && s[n + 1..] == t[n + 1..]
    ensures multiset(s[1..n + 1]) == multiset(t[1..n + 1])
  {
    assert s == [s[0]] + s[1..n + 1] + s[n + 1..];
    assert t == [t[0]] + t[1..n + 1] + t[n + 1..];
    assert multiset(s[1..n + 1]) == multiset(s) - multiset{s[0]} - multiset(s[n + 1..]);
    assert multiset(t[1..n + 1]) == multiset(t) - multiset{t[0]} - multiset(t[n + 1..]);
  }

  // ----- what sorting a numbered file gives

  /** s[1..] lists the lines of a file with values A, numbered from 1, in strict order. */
  ghost predicate SortedFile(s: seq<Line>, A: seq<int>)
  {
    && |A| < |s|
    && (forall t :: 1 <= t <= |A| ==> 1 <= s[t].serial <= |A| && s[t].value == A[s[t].serial - 1])
    && (forall i :: 1 <= i <= |A| ==> HasSerial(s, |A|, i))
    && (forall t, u :: 1 <= t < u <= |A| ==> Less(s[t], s[u]))
  }

  ghost predicate HasSerial(s: seq<Line>, n: nat, i: int)
    requires n < |s|
  {
    exists t :: 1 <= t <= n && s[t].serial == i
  }

  /** s[1..] is the file itself. */
  ghost predicate NumberedFile(s: seq<Line>, A: seq<int>)
  {
    |A| < |s| && forall i :: 1 <= i <= |A| ==> s[i] == Line(i, A[i - 1])
  }

  /** Every sorted line is a line of the file. */
  lemma SortedIsLine(s: seq<Line>, t: seq<Line>, A: seq<int>, k: int)
    requires NumberedFile(s, A) && |t| == |s| && 1 <= k <= |A|
    requires multiset(s[1..|A| + 1]) == multiset(t[1..|A| + 1])
    ensures 1 <= t[k].serial <= |A| && t[k].value == A[t[k].serial - 1]
  {
    var s', t' := s[1..|A| + 1], t[1..|A| + 1];
    assert t'[k - 1] == t[k] && t'[k - 1] in multiset(t');
    assert t[k] in multiset(s');
    var i :| 0 <= i < |A| && s'[i] == t[k];
    assert s'[i] == s[i + 1];
  }

  /** Every line of the file is a sorted line. */
  lemma LineIsSorted(s: seq<Line>, t: seq<Line>, A: seq<int>, i: int)
    requires NumberedFile(s, A) && |t| == |s| && 1 <= i <= |A|
    requires multiset(s[1..|A| + 1]) == multiset(t[1..|A| + 1])
    ensures HasSerial(t, |A|, i)
  {
    var s', t' := s[1..|A| + 1], t[1..|A| + 1];
    assert s'[i - 1] == s[i] && s'[i - 1] in multiset(s');
    assert s[i] in multiset(t');
    var k :| 0 <= k < |A| && t'[k] == s[i];
    assert t[k + 1].serial == i;
  }

  /** No line occurs twice. */
  lemma SortedStrictly(s: seq<Line>, t: seq<Line>, A: seq<int>, k: int, u: int)
    requires NumberedFile(s, A) && |t| == |s| && 1 <= k < u <= |A| && Sorted(t, |A|)
    requires multiset(s[1..|A| + 1]) == multiset(t[1..|A| + 1])
    ensures Less(t[k], t[u])
  {
    var s', t' := s[1..|A| + 1], t[1..|A| + 1];
    assert t'[k - 1] == t[k] && t'[u - 1] == t[u];
    NumberedOnce(s', t[k], |A|);
    if t[k] == t[u] {
      TwiceCounts(t', k - 1, u - 1);
    }
  }

  lemma SortedFromNumbered(s: seq<Line>, t: seq<Line>, A: seq<int>)
    requires NumberedFile(s, A) && |t| == |s|
    requires |A| < |s| && multiset(s[1..|A| + 1]) == multiset(t[1..|A| + 1])
    requires Sorted(t, |A|)
    ensures SortedFile(t, A)
  {
    hide NumberedFile, Sorted, Less, HasSerial;
    forall k | 1 <= k <= |A|
      ensures 1 <= t[k].serial <= |A| && t[k].value == A[t[k].serial - 1]
    {
      SortedIsLine(s, t, A, k);
    }
    forall i | 1 <= i <= |A|
      ensures HasSerial(t, |A|, i)
    {
      LineIsSorted(s, t, A, i);
    }
    forall k, u | 1 <= k < u <= |A|
      ensures Less(t[k], t[u])
    {
      SortedStrictly(s, t, A, k, u);
    }
  }

  lemma TwiceCounts(s: seq<Line>, k: int, u: int)
    requires 0 <= k < u < |s| && s[k] == s[u]
    ensures multiset(s)[s[k]] >= 2
  {
    var p, q := s[..u], s[u..];
    assert s == p + q;
    assert p[k] in multiset(p) && q[0] in multiset(q);
  }

  lemma NumberedOnce(s: seq<Line>, x: Line, n: nat)
    requires |s| == n && forall i :: 0 <= i < n ==> s[i].serial == i + 1
    ensures multiset(s)[x] <= 1
  {
    if x in multiset(s) {
      assert x in s;
      var i :| 0 <= i < n && s[i] == x;
      var p, q := s[..i], s[i + 1..];
      assert s == p + [x] + q;
      assert x !in p && x !in q;
    }
  }
}
