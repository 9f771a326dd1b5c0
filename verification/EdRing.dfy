/**
 The line ring of cmd/posix/ed.c: lines are nodes of a doubly linked ring kept in an
 array, node 0 is the head, and every link write is logged so that it can be undone.
 */
module EdRing {
  // ----- the buffer as ed's user sees it

  /** The lines of the buffer and the current line, 0 before the first. */
  datatype Doc = Doc(lines: seq<string>, cur: int)

  /** What a command does: set the current line, add lines after it, or delete lines. */
  datatype Step = Goto(line: int) | Inject(s: string) | Delete(from: int, to: int)

  /** Where the first line of s ends, with its newline. */
  function LineEnd(s: string): (n: nat)
    requires s != ""
    ensures 1 <= n <= |s| && (forall k :: 0 <= k < n - 1 ==> s[k] != '\n') && (n == |s| || s[n - 1] == '\n')
  {
    if s[0] == '\n' || |s| == 1 then 1 else 1 + LineEnd(s[1..])
  }

  /** The lines of a text, each with its newline. */
  function Split(s: string): (ls: seq<string>)
    decreases |s|
  {
    if s == "" then [] else [s[..LineEnd(s)]] + Split(s[LineEnd(s)..])
  }

  function Concat(ls: seq<string>): string
  {
    if ls == [] then "" else ls[0] + Concat(ls[1..])
  }

  /** A line is not empty, and its only newline is at its end. */
  predicate IsLine(l: string) { l != "" && l[|l| - 1] == '\n' && forall k :: 0 <= k < |l| - 1 ==> l[k] != '\n' }

  /** Every text that inject is given ends with a newline. */
  predicate IsText(s: string) { s == "" || s[|s| - 1] == '\n' }

  /** Split cuts a text into lines and loses nothing. */
  lemma {:induction false} SplitIsText(s: string)
    requires IsText(s)
    ensures Concat(Split(s)) == s && forall k :: 0 <= k < |Split(s)| ==> IsLine(Split(s)[k])
    decreases |s|
  {
    if s != "" {
      hide IsLine, LineEnd;
      FirstLine(s);
      var n := LineEnd(s);
      SplitIsText(s[n..]);
      assert Split(s)[1..] == Split(s[n..]);
    }
  }

  lemma FirstLine(s: string)
    requires IsText(s) && s != ""
    ensures var n := LineEnd(s); IsLine(s[..n]) && IsText(s[n..]) && s[..n] + s[n..] == s
  {
    var n := LineEnd(s);
    hide LineEnd;
    assert s[..n] + s[n..] == s;
  }

  /** A step is an error if its addresses are not lines of the buffer. */
  predicate Allowed(d: Doc, step: Step)
  {
    match step
    case Goto(line) => 0 <= line <= |d.lines|
    case Inject(s) => IsText(s)
    case Delete(from, to) => 1 <= from <= to <= |d.lines|
  }

  function Do(d: Doc, step: Step): Doc
    requires 0 <= d.cur <= |d.lines| && Allowed(d, step)
  {
    match step
    case Goto(line) => d.(cur := line)
    case Inject(s) => Doc(d.lines[..d.cur] + Split(s) + d.lines[d.cur..], d.cur + |Split(s)|)
    case Delete(from, to) =>
      var rest := d.lines[..from - 1] + d.lines[to..];
      Doc(rest, if from > |rest| then |rest| else from)
  }

  /** What follows the deleted lines becomes the current line, or else the last line does;
      the lines before and after them stay. */
  lemma DeleteMeans(d: Doc, from: int, to: int)
    requires 0 <= d.cur <= |d.lines| && Allowed(d, Delete(from, to))
    ensures var e := Do(d, Delete(from, to));
            && |e.lines| == |d.lines| - (to - from + 1)
            && (to < |d.lines| ==> e.cur >= 1 && e.lines[e.cur - 1] == d.lines[to])
            && (to == |d.lines| ==> e.cur == |e.lines|)
            && (forall k :: 0 <= k < from - 1 ==> e.lines[k] == d.lines[k])
            && (forall k :: to <= k < |d.lines| ==> e.lines[k - (to - from + 1)] == d.lines[k])
  {
  }

  /** The last line added becomes the current one, and what followed the current line
      follows it. */
  lemma InjectMeans(d: Doc, s: string)
    requires 0 <= d.cur <= |d.lines| && Allowed(d, Inject(s))
    ensures var e, n := Do(d, Inject(s)), |Split(s)|;
            && |e.lines| == |d.lines| + n && e.cur == d.cur + n
            && e.lines[..d.cur] == d.lines[..d.cur] && e.lines[d.cur..e.cur] == Split(s)
            && e.lines[e.cur..] == d.lines[d.cur..]
  {
    hide Split;
  }

  /** Lines that were just added are gone again when they are deleted. */
  lemma InjectThenDelete(d: Doc, s: string)
    requires 0 <= d.cur <= |d.lines| && IsText(s) && s != ""
    ensures var e := Do(d, Inject(s));
            && Split(s) != [] && 0 <= e.cur <= |e.lines| && Allowed(e, Delete(d.cur + 1, e.cur))
            && Do(e, Delete(d.cur + 1, e.cur)).lines == d.lines
  {
    var e := Do(d, Inject(s));
    hide LineEnd;
    var m := d.cur;
    assert e.lines[..m] == d.lines[..m] && e.lines[e.cur..] == d.lines[m..];
    assert d.lines == d.lines[..m] + d.lines[m..];
  }

  lemma DoInRange(d: Doc, step: Step)
    requires 0 <= d.cur <= |d.lines| && Allowed(d, step)
    ensures 0 <= Do(d, step).cur <= |Do(d, step).lines|
  {
  }

  /** All steps of a command are allowed, one after another. */
  predicate AllAllowed(d: Doc, steps: seq<Step>)
    requires 0 <= d.cur <= |d.lines|
    decreases |steps|
  {
    steps == [] || (Allowed(d, steps[0]) && (DoInRange(d, steps[0]); AllAllowed(Do(d, steps[0]), steps[1..])))
  }

  function DoAll(d: Doc, steps: seq<Step>): (r: Doc)
    requires 0 <= d.cur <= |d.lines| && AllAllowed(d, steps)
    ensures 0 <= r.cur <= |r.lines|
    decreases |steps|
  {
    if steps == [] then d else DoInRange(d, steps[0]); DoAll(Do(d, steps[0]), steps[1..])
  }

  // ----- the ring

  /** Ring entry i, where the entry after the last is the first again. */
  function At(ring: seq<int>, i: int): int
    requires 0 <= i <= |ring| && |ring| > 0
  {
    if i == |ring| then ring[0] else ring[i]
  }

  ghost predicate Distinct(ring: seq<int>)
  {
    forall i, j :: 0 <= i < j < |ring| ==> ring[i] != ring[j]
  }

  /** Entry i and the one after it point at each other. */
  ghost predicate LinkOk(next: seq<int>, prev: seq<int>, ring: seq<int>, i: int)
    requires 0 <= i < |ring|
  {
    var a, b := ring[i], At(ring, i + 1);
    0 <= a < |next| && 0 <= b < |prev| && next[a] == b && prev[b] == a
  }

  ghost predicate InRange(ring: seq<int>, n: int)
  {
    forall i :: 0 <= i < |ring| ==> 0 <= ring[i] < n
  }

  /** next and prev link the nodes of ring, in that order and in a circle. */
  ghost predicate RingOk(next: seq<int>, prev: seq<int>, ring: seq<int>)
  {
    && |next| == |prev| && |ring| > 0 && ring[0] == 0 && Distinct(ring) && InRange(ring, |next|)
    && forall i :: 0 <= i < |ring| ==> LinkOk(next, prev, ring, i)
  }

  /** next and prev are mutual inverses on the nodes of the ring. */
  lemma LinksAreInverse(next: seq<int>, prev: seq<int>, ring: seq<int>, n: int)
    requires RingOk(next, prev, ring) && n in ring
    ensures 0 <= n < |next| && next[n] in ring && prev[n] in ring
    ensures prev[next[n]] == n && next[prev[n]] == n
  {
    var i :| 0 <= i < |ring| && ring[i] == n;
    var j := if i == 0 then |ring| - 1 else i - 1;
    assert LinkOk(next, prev, ring, i) && LinkOk(next, prev, ring, j);
  }

  lemma TextsFit(next: seq<int>, prev: seq<int>, ring: seq<int>)
    requires RingOk(next, prev, ring)
    ensures InRange(ring, |next|) && |next| == |prev| && |ring| > 0
  {
  }

  lemma LinksFit(next: seq<int>, prev: seq<int>, ring: seq<int>, c: int)
    requires RingOk(next, prev, ring) && 0 <= c < |ring|
    ensures InRange(ring, |next|) && |next| == |prev| && 0 <= ring[c] < |next| && 0 <= At(ring, c + 1) < |next|
  {
    assert LinkOk(next, prev, ring, c);
  }

  /** An array entry that is not in the ring does not matter. */
  lemma RingGrows(next: seq<int>, prev: seq<int>, ring: seq<int>, a: int, b: int)
    requires RingOk(next, prev, ring)
    ensures RingOk(next + [a], prev + [b], ring)
  {
    forall i | 0 <= i < |ring|
      ensures LinkOk(next + [a], prev + [b], ring, i)
    {
      assert LinkOk(next, prev, ring, i);
    }
  }

  function Inserted<T>(ring: seq<T>, c: int, k: T): seq<T>
    requires 0 <= c < |ring|
  {
    ring[..c + 1] + [k] + ring[c + 1..]
  }

  lemma InsertLink(next: seq<int>, prev: seq<int>, ring: seq<int>, c: int, k: int, i: int)
    requires RingOk(next, prev, ring) && 0 <= c < |ring| && 0 <= k < |next| && k !in ring && 0 <= i <= |ring|
    requires 0 <= ring[c] < |next| && 0 <= At(ring, c + 1) < |next|
    ensures LinkOk(next[ring[c] := k][k := At(ring, c + 1)], prev[k := ring[c]][At(ring, c + 1) := k],
                   Inserted(ring, c, k), i)
  {
    var r := Inserted(ring, c, k);
    if i < c {
      assert LinkOk(next, prev, ring, i);
      assert r[i] == ring[i] && r[i + 1] == ring[i + 1];
      assert ring[i] != ring[c];
      if c < |ring| - 1 {
        assert ring[i + 1] != ring[c + 1];
      }
    } else if i > c + 1 {
      var j := i - 1;
      assert LinkOk(next, prev, ring, j);
      assert r[i] == ring[j] && At(r, i + 1) == At(ring, j + 1);
      assert ring[j] != ring[c];
      if j < |ring| - 1 {
        assert ring[j + 1] != ring[c + 1];
      } else {
        assert ring[0] != ring[c + 1];
      }
    }
  }

  lemma InsertedAt(ring: seq<int>, c: int, k: int)
    requires 0 <= c < |ring|
    ensures |Inserted(ring, c, k)| == |ring| + 1 && Inserted(ring, c, k)[c + 1] == k
    ensures At(Inserted(ring, c, k), c + 2) == At(ring, c + 1)
  {
  }

  lemma InsertDistinct(ring: seq<int>, c: int, k: int)
    requires Distinct(ring) && 0 <= c < |ring| && k !in ring
    ensures Distinct(Inserted(ring, c, k))
  {
    var r := Inserted(ring, c, k);
    forall i, j | 0 <= i < j < |r|
      ensures r[i] != r[j]
    {
      var i', j' := if i > c then i - 1 else i, if j > c then j - 1 else j;
      if i == c + 1 {
        assert r[j] == ring[j'];
      } else if j == c + 1 {
        assert r[i] == ring[i'];
      } else {
        assert r[i] == ring[i'] && r[j] == ring[j'];
      }
    }
  }

  /** The two relinks of inject put node k after entry c. */
  lemma InsertRing(next: seq<int>, prev: seq<int>, ring: seq<int>, c: int, k: int)
    requires RingOk(next, prev, ring) && 0 <= c < |ring| && 0 <= k < |next| && k !in ring
    ensures 0 <= ring[c] < |next| && 0 <= At(ring, c + 1) < |next|
    ensures RingOk(next[ring[c] := k][k := At(ring, c + 1)], prev[k := ring[c]][At(ring, c + 1) := k],
                   Inserted(ring, c, k))
  {
    assert LinkOk(next, prev, ring, c);
    var r := Inserted(ring, c, k);
    var nx, pv := next[ring[c] := k][k := At(ring, c + 1)], prev[k := ring[c]][At(ring, c + 1) := k];
    InsertDistinct(ring, c, k);
    forall i | 0 <= i < |r|
      ensures LinkOk(nx, pv, r, i)
    {
      InsertLink(next, prev, ring, c, k, i);
    }
  }

  function Removed<T>(ring: seq<T>, from: int, to: int): seq<T>
    requires 1 <= from <= to < |ring|
  {
    ring[..from] + ring[to + 1..]
  }

  lemma RemoveLink(next: seq<int>, prev: seq<int>, ring: seq<int>, from: int, to: int, i: int)
    requires RingOk(next, prev, ring) && 1 <= from <= to < |ring| && 0 <= i < |Removed(ring, from, to)|
    requires 0 <= ring[from - 1] < |next| && 0 <= At(ring, to + 1) < |next|
    ensures LinkOk(next[ring[from - 1] := At(ring, to + 1)], prev[At(ring, to + 1) := ring[from - 1]],
                   Removed(ring, from, to), i)
  {
    var r, e := Removed(ring, from, to), At(ring, to + 1);
    if i < from - 1 {
      assert LinkOk(next, prev, ring, i);
      assert r[i] == ring[i] && r[i + 1] == ring[i + 1];
      assert ring[i] != ring[from - 1];
      if to < |ring| - 1 {
        assert ring[i + 1] != ring[to + 1];
      }
    } else if i >= from {
      var j := i + (to - from + 1);
      assert LinkOk(next, prev, ring, j);
      assert r[i] == ring[j] && At(r, i + 1) == At(ring, j + 1);
      assert ring[j] != ring[from - 1];
      if j < |ring| - 1 {
        assert ring[j + 1] != ring[to + 1];
      } else {
        assert ring[0] != ring[to + 1];
      }
    }
  }

  lemma RemovedLength(ring: seq<int>, from: int, to: int)
    requires 1 <= from <= to < |ring|
    ensures |Removed(ring, from, to)| == |ring| - (to - from + 1)
  {
  }

  lemma RemoveDistinct(ring: seq<int>, from: int, to: int)
    requires Distinct(ring) && 1 <= from <= to < |ring|
    ensures Distinct(Removed(ring, from, to))
  {
    var r := Removed(ring, from, to);
    forall i, j | 0 <= i < j < |r|
      ensures r[i] != r[j]
    {
      var w := to - from + 1;
      var i', j' := if i >= from then i + w else i, if j >= from then j + w else j;
      assert r[i] == ring[i'] && r[j] == ring[j'];
    }
  }

  /** The relink of delete takes entries from..to out. */
  lemma RemoveRing(next: seq<int>, prev: seq<int>, ring: seq<int>, from: int, to: int)
    requires RingOk(next, prev, ring) && 1 <= from <= to < |ring|
    ensures 0 <= ring[from - 1] < |next| && 0 <= At(ring, to + 1) < |next|
    ensures RingOk(next[ring[from - 1] := At(ring, to + 1)], prev[At(ring, to + 1) := ring[from - 1]],
                   Removed(ring, from, to))
  {
    assert LinkOk(next, prev, ring, from - 1) && LinkOk(next, prev, ring, to);
    var r := Removed(ring, from, to);
    var nx, pv := next[ring[from - 1] := At(ring, to + 1)], prev[At(ring, to + 1) := ring[from - 1]];
    RemoveDistinct(ring, from, to);
    forall i | 0 <= i < |r|
      ensures LinkOk(nx, pv, r, i)
    {
      RemoveLink(next, prev, ring, from, to, i);
    }
  }

  // ----- the undo log

  /** Before the write, node from1 was followed by to1 and node from2 preceded by to2. */
  datatype Link = Link(to1: int, from1: int, to2: int, from2: int)

  ghost predicate LogFits(vec: seq<Link>, n: int)
  {
    forall k :: 0 <= k < |vec| ==> 0 <= vec[k].from1 < n && 0 <= vec[k].from2 < n
  }

  /** The links after the log has been undone, last entry first. */
  function UnwindNext(vec: seq<Link>, next: seq<int>): (r: seq<int>)
    requires LogFits(vec, |next|)
    ensures |r| == |next|
    decreases |vec|
  {
    if vec == [] then next
    else var p := vec[|vec| - 1]; UnwindNext(vec[..|vec| - 1], next[p.from1 := p.to1])
  }

  function UnwindPrev(vec: seq<Link>, prev: seq<int>): (r: seq<int>)
    requires LogFits(vec, |prev|)
    ensures |r| == |prev|
    decreases |vec|
  {
    if vec == [] then prev
    else var p := vec[|vec| - 1]; UnwindPrev(vec[..|vec| - 1], prev[p.from2 := p.to2])
  }

  /** A logged write does not change what undoing everything leads to. */
  lemma UnwindWrite(vec: seq<Link>, next: seq<int>, prev: seq<int>, to1: int, from1: int, from2: int, to2: int)
    requires |next| == |prev| && LogFits(vec, |next|) && 0 <= from1 < |next| && 0 <= from2 < |next|
    ensures var vec' := vec + [Link(next[from1], from1, prev[from2], from2)];
            && LogFits(vec', |next|)
            && UnwindNext(vec', next[from1 := to1]) == UnwindNext(vec, next)
            && UnwindPrev(vec', prev[from2 := to2]) == UnwindPrev(vec, prev)
  {
    var p := Link(next[from1], from1, prev[from2], from2);
    var vec' := vec + [p];
    assert vec'[..|vec'| - 1] == vec;
    assert next[from1 := to1][from1 := next[from1]] == next;
    assert prev[from2 := to2][from2 := prev[from2]] == prev;
  }

  lemma UnwindNothing(next: seq<int>, prev: seq<int>)
    ensures LogFits([], |next|) && LogFits([], |prev|) && UnwindNext([], next) == next && UnwindPrev([], prev) == prev
  {
  }

  /** A new node is not touched by an older log. */
  lemma {:induction false} UnwindGrows(vec: seq<Link>, next: seq<int>, prev: seq<int>, a: int, b: int)
    requires |next| == |prev| && LogFits(vec, |next|)
    ensures LogFits(vec, |next| + 1)
    ensures UnwindNext(vec, next + [a]) == UnwindNext(vec, next) + [a]
    ensures UnwindPrev(vec, prev + [b]) == UnwindPrev(vec, prev) + [b]
    decreases |vec|
  {
    if vec != [] {
      var p, v := vec[|vec| - 1], vec[..|vec| - 1];
      assert (next + [a])[p.from1 := p.to1] == next[p.from1 := p.to1] + [a];
      assert (prev + [b])[p.from2 := p.to2] == prev[p.from2 := p.to2] + [b];
      UnwindGrows(v, next[p.from1 := p.to1], prev[p.from2 := p.to2], a, b);
    }
  }

  // ----- the editor

  ghost function Texts(text: seq<string>, ring: seq<int>): (r: seq<string>)
    requires InRange(ring, |text|)
    ensures |r| == |ring| && forall i :: 0 <= i < |ring| ==> r[i] == text[ring[i]]
  {
    seq(|ring|, i requires 0 <= i < |ring| => text[ring[i]])
  }

  lemma TextsGrow(text: seq<string>, l: string, ring: seq<int>)
    requires InRange(ring, |text|)
    ensures InRange(ring, |text| + 1) && Texts(text + [l], ring) == Texts(text, ring) && |text| !in ring
  {
  }

  /** A node inserted into the ring is a line inserted into the document. */
  lemma InsertedTexts(text: seq<string>, ring: seq<int>, c: int, k: int)
    requires InRange(ring, |text|) && 0 <= c < |ring| && 0 <= k < |text|
    ensures InRange(Inserted(ring, c, k), |text|)
    ensures var ls := Texts(text, ring)[1..]; Texts(text, Inserted(ring, c, k))[1..] == ls[..c] + [text[k]] + ls[c..]
  {
  }

  lemma RemovedTexts(text: seq<string>, ring: seq<int>, from: int, to: int)
    requires InRange(ring, |text|) && 1 <= from <= to < |ring|
    ensures InRange(Removed(ring, from, to), |text|)
    ensures var ls := Texts(text, ring)[1..]; Texts(text, Removed(ring, from, to))[1..] == ls[..from - 1] + ls[to..]
  {
  }

  lemma NoMore(d: Doc)
    requires 0 <= d.cur <= |d.lines|
    ensures IsText("") && Do(d, Inject("")) == d
  {
    assert d.lines[..d.cur] + [] + d.lines[d.cur..] == d.lines;
  }

  lemma LineEndFits(s: string)
    requires s != ""
    ensures 1 <= LineEnd(s) <= |s|
  {
  }

  lemma Spliced<T>(ls: seq<T>, c: int, x: T, more: seq<T>)
    requires 0 <= c <= |ls|
    ensures var ls' := ls[..c] + [x] + ls[c..]; ls'[..c + 1] + more + ls'[c + 1..] == ls[..c] + ([x] + more) + ls[c..]
  {
    var ls' := ls[..c] + [x] + ls[c..];
    assert ls'[..c + 1] == ls[..c] + [x] && ls'[c + 1..] == ls[c..];
  }

  /** The first line goes in, the others come after it. */
  lemma InjectOne(ls: seq<string>, c: int, s: string)
    requires IsText(s) && s != "" && 0 <= c <= |ls|
    ensures IsText(s[LineEnd(s)..])
    ensures Do(Doc(ls[..c] + [s[..LineEnd(s)]] + ls[c..], c + 1), Inject(s[LineEnd(s)..])) == Do(Doc(ls, c), Inject(s))
  {
    hide LineEnd, IsLine;
    FirstLine(s);
    Spliced(ls, c, s[..LineEnd(s)], Split(s[LineEnd(s)..]));
  }

  /** makeline's scan: where the first line of s ends. */
  method ScanLine(s: string) returns (off: nat)
    requires s != ""
    ensures off == LineEnd(s)
  {
    off := 1;
    while s[off - 1] != '\n' && off < |s|
      invariant 1 <= off <= |s| && LineEnd(s) == off - 1 + LineEnd(s[off - 1..])
      decreases |s| - off
    {
      assert s[off - 1..][1..] == s[off..];
      off := off + 1;
    }
  }

  class Editor {
    var text: seq<string>
    var next: seq<int>
    var prev: seq<int>
    var curln: int
    var lastln: int
    var ocurln: int
    var olastln: int
    var newcmd: bool
    var modflag: bool
    var vec: seq<Link>
    var ucurln: int
    var ulastln: int
    /** The nodes in order, and what they were before the command that vec logs. */
    ghost var ring: seq<int>
    ghost var saved: seq<int>

    /** Undoing the log leads back to the saved ring. */
    ghost predicate Undoable()
      reads this`text, this`next, this`prev, this`vec, this`saved, this`ucurln, this`ulastln
    {
      && |prev| == |next| && |text| == |next| && LogFits(vec, |next|)
      && RingOk(UnwindNext(vec, next), UnwindPrev(vec, prev), saved)
      && ulastln == |saved| - 1 && 0 <= ucurln <= ulastln
    }

    /** Between commands: the log belongs to the last command that changed anything. */
    ghost predicate Settled()
      reads this
    {
      && RingOk(next, prev, ring) && |text| == |next|
      && lastln == |ring| - 1 && 0 <= curln <= lastln
      && (vec != [] ==> Undoable())
    }

    /** Within a command: the log belongs to it once it has changed anything. */
    ghost predicate LogOk()
      reads this`text, this`next, this`prev, this`vec, this`saved, this`ucurln, this`ulastln, this`newcmd, this`ring,
        this`ocurln, this`olastln
    {
      && |text| == |next|
      && (newcmd ==> RingOk(next, prev, ring))
      && (vec != [] ==> Undoable())
      && (newcmd ==> olastln == |ring| - 1 && 0 <= ocurln <= olastln)
      && (!newcmd ==> vec != [] && ucurln == ocurln)
    }

    ghost predicate Valid()
      reads this
    {
      Settled() && LogOk()
    }

    /** The document: the texts of the nodes after the head. */
    ghost function View(): Doc
      reads this
      requires RingOk(next, prev, ring) && |text| == |next|
    {
      Doc(Texts(text, ring)[1..], curln)
    }

    /** The document before the command that vec logs. */
    ghost function Before(): Doc
      reads this`text, this`next, this`prev, this`vec, this`saved, this`ucurln, this`ulastln
      requires Undoable()
    {
      Doc(Texts(text, saved)[1..], ucurln)
    }

    /** The document that an error in the current command goes back to. */
    ghost function Checkpoint(): Doc
      reads this`text, this`next, this`prev, this`vec, this`saved, this`ucurln, this`ulastln, this`newcmd, this`ring,
        this`ocurln, this`olastln
      requires LogOk()
    {
      if newcmd then Doc(Texts(text, ring)[1..], ocurln) else Before()
    }

    /** setscratch, and the first round of edit. */
    constructor ()
      ensures Valid() && newcmd && vec == [] && View() == Doc([], 0) && Checkpoint() == View()
    {
      text, next, prev := [""], [0], [0];
      curln, lastln, ocurln, olastln := 0, 0, 0, 0;
      newcmd, modflag := true, false;
      vec, ucurln, ulastln := [], 0, 0;
      ring, saved := [0], [0];
    }

    /** The head of edit's loop. */
    method Begin()
      requires Settled()
      modifies this
      ensures Valid() && newcmd && View() == old(View()) && Checkpoint() == View()
      ensures vec == old(vec) && (vec != [] ==> Before() == old(Before()))
    {
      newcmd := true;
      ocurln, olastln := curln, lastln;
    }

    method NextLn(line: int) returns (n: int)
      ensures n == if line + 1 > lastln then 0 else line + 1
    {
      n := line + 1;
      if n > lastln {
        n := 0;
      }
    }

    method PrevLn(line: int) returns (n: int)
      ensures n == if line - 1 < 0 then lastln else line - 1
    {
      n := line - 1;
      if n < 0 {
        n := lastln;
      }
    }

    /** The node of a line. */
    method GetIndex(line: int) returns (k: int)
      requires RingOk(next, prev, ring) && -1 <= line < |ring|
      ensures k == ring[if line == -1 then 0 else line]
    {
      var line' := if line == -1 then 0 else line;
      var n := 0;
      k := 0;
      while n != line'
        invariant 0 <= n <= line' && k == ring[n]
        decreases line' - n
      {
        assert LinkOk(next, prev, ring, n);
        k := next[k];
        n := n + 1;
      }
    }

    /** A new node for the first line of s; its links are not set. */
    method MakeLine(s: string) returns (k: int, off: nat)
      requires Valid() && s != ""
      modifies this
      ensures Valid() && k == old(|next|) && off == LineEnd(s) && k < |next| && k !in ring
      ensures text == old(text) + [s[..off]] && |next| == |text| && View() == old(View()) && lastln == old(lastln)
      ensures ring == old(ring) && newcmd == old(newcmd) && Checkpoint() == old(Checkpoint())
    {
      hide RingOk, LogFits, InRange, UnwindNext, UnwindPrev, LineEnd;
      k := |next|;
      off := ScanLine(s);
      var a: int, b: int := *, *;
      RingGrows(next, prev, ring, a, b);
      TextsFit(next, prev, ring);
      TextsGrow(text, s[..off], ring);
      if vec != [] {
        UnwindGrows(vec, next, prev, a, b);
        RingGrows(UnwindNext(vec, next), UnwindPrev(vec, prev), saved, a, b);
        TextsFit(UnwindNext(vec, next), UnwindPrev(vec, prev), saved);
        TextsGrow(text, s[..off], saved);
      }
      next, prev, text := next + [a], prev + [b], text + [s[..off]];
    }

    method NewUndo(from1: int, from2: int)
      requires LogOk() && |prev| == |next| && 0 <= from1 < |next| && 0 <= from2 < |next|
      modifies this`vec, this`newcmd, this`modflag, this`ucurln, this`ulastln, this`saved
      ensures !newcmd && ucurln == ocurln
      ensures vec == (if old(newcmd) then [] else old(vec)) + [Link(next[from1], from1, prev[from2], from2)]
      ensures saved == (if old(newcmd) then ring else old(saved))
      ensures ulastln == |saved| - 1 && 0 <= ucurln <= ulastln
    {
      if newcmd {
        vec, newcmd, modflag := [], false, false;
        ucurln, ulastln := ocurln, olastln;
        saved := ring;
      }
      vec := vec + [Link(next[from1], from1, prev[from2], from2)];
    }

    /** Node from1 is now followed by to1, node from2 preceded by to2; what an undo would
        lead to is still the same. */
    method Relink(to1: int, from1: int, from2: int, to2: int)
      requires LogOk() && |prev| == |next| && 0 <= from1 < |next| && 0 <= from2 < |next|
      modifies this`vec, this`newcmd, this`modflag, this`ucurln, this`ulastln, this`saved, this`next, this`prev
      ensures !newcmd && modflag && LogOk() && Checkpoint() == old(Checkpoint())
      ensures next == old(next)[from1 := to1] && prev == old(prev)[from2 := to2]
    {
      hide RingOk, LogFits, UnwindNext, UnwindPrev;
      ghost var v := if newcmd then [] else vec;
      UnwindNothing(next, prev);
      NewUndo(from1, from2);
      UnwindWrite(v, next, prev, to1, from1, from2, to2);
      next, prev := next[from1 := to1], prev[from2 := to2];
      modflag := true;
    }

    /** Back to the document before the logged command; nothing if the log is empty. */
    method Undo()
      requires Settled()
      modifies this
      ensures Settled() && vec == [] && newcmd == old(newcmd)
      ensures text == old(text) && ocurln == old(ocurln)
      ensures View() == old(if vec == [] then View() else Before())
    {
      if vec == [] {
        return;
      }
      hide RingOk, InRange;
      while vec != []
        invariant LogFits(vec, |next|) && |next| == |prev| == old(|next|)
        invariant UnwindNext(vec, next) == old(UnwindNext(vec, next))
        invariant UnwindPrev(vec, prev) == old(UnwindPrev(vec, prev))
        invariant unchanged(this`text, this`curln, this`lastln, this`ocurln, this`olastln, this`newcmd, this`ucurln,
                            this`ulastln, this`ring, this`saved)
        decreases |vec|
      {
        var p := vec[|vec| - 1];
        vec := vec[..|vec| - 1];
        next, prev := next[p.from1 := p.to1], prev[p.from2 := p.to2];
      }
      curln, lastln := ucurln, ulastln;
      ring := saved;
    }

    /** New lines after the current one: the last of them is then the current line. */
    method DoInject(s: string)
      requires Valid() && IsText(s)
      modifies this
      ensures Valid() && View() == Do(old(View()), Inject(s)) && Checkpoint() == old(Checkpoint())
      ensures if s == "" then unchanged(this) else !newcmd && modflag
    {
      hide RingOk, InRange, LineEnd, Do, IsText, Undoable, LogOk;
      var begin := GetIndex(curln);
      var nl := NextLn(curln);
      var end := GetIndex(nl);
      var rest := s;
      while rest != ""
        invariant Valid() && IsText(rest) && Checkpoint() == old(Checkpoint())
        invariant Do(View(), Inject(rest)) == Do(old(View()), Inject(s))
        invariant begin == ring[curln] && end == At(ring, curln + 1)
        invariant if rest == s then unchanged(this) else !newcmd && modflag
        decreases |rest|
      {
        FirstLine(rest);
        LineEndFits(rest);
        begin := InjectLine(rest, begin, end);
        rest := rest[LineEnd(rest)..];
      }
      NoMore(View());
    }

    /** One round of inject's loop. */
    method InjectLine(s: string, begin: int, end: int) returns (k: int)
      requires Valid() && IsText(s) && s != "" && begin == ring[curln] && end == At(ring, curln + 1)
      modifies this
      ensures Valid() && !newcmd && modflag && Checkpoint() == old(Checkpoint())
      ensures Do(View(), Inject(s[LineEnd(s)..])) == Do(old(View()), Inject(s))
      ensures k == ring[curln] && end == At(ring, curln + 1)
    {
      hide RingOk, InRange, Inserted, LineEnd, Do, IsText, LogOk, Checkpoint, At;
      ghost var c, r, ls := curln, ring, View().lines;
      InjectOne(ls, c, s);
      var off;
      k, off := MakeLine(s);
      LinksFit(next, prev, r, c);
      assert ls == View().lines;
      InsertedTexts(text, r, c, k);
      InsertedAt(r, c, k);
      LinkIn(k, begin, end);
    }

    /** Node k goes after the current line, and becomes it. */
    method LinkIn(k: int, begin: int, end: int)
      requires Valid() && 0 <= k < |next| && k !in ring && begin == ring[curln] && end == At(ring, curln + 1)
      modifies this
      ensures Valid() && !newcmd && modflag && Checkpoint() == old(Checkpoint())
      ensures ring == old(Inserted(ring, curln, k)) && curln == old(curln) + 1 && text == old(text)
    {
      hide RingOk, InRange, Inserted, Undoable, Before, At;
      ghost var c, r := curln, ring;
      LinksFit(next, prev, r, c);
      InsertRing(next, prev, r, c, k);
      InsertedAt(r, c, k);
      Relink(k, begin, k, begin);
      Relink(end, k, end, k);
      lastln, curln := lastln + 1, curln + 1;
      ring := Inserted(r, c, k);
    }

    /** Lines from..to are gone; line 0 is an error. */
    method DoDelete(from: int, to: int) returns (ok: bool)
      requires Valid() && 0 <= from <= to <= lastln
      modifies this
      ensures ok <==> from > 0
      ensures ok ==> Valid() && View() == Do(old(View()), Delete(from, to)) && Checkpoint() == old(Checkpoint())
      ensures ok ==> !newcmd && modflag
      ensures !ok ==> Settled() && View() == old(Checkpoint()) 
    {
      if from == 0 {
        Error();
        return false;
      }
      hide RingOk, InRange, Removed, LogOk, Checkpoint;
      ghost var r := ring;
      LinksFit(next, prev, r, from - 1);
      LinksFit(next, prev, r, to);
      RemovedTexts(text, r, from, to);
      var p := PrevLn(from);
      var lfrom := GetIndex(p);
      var n := NextLn(to);
      var lto := GetIndex(n);
      LinkOut(from, to, lfrom, lto);
      return true;
    }

    /** The nodes of lines from..to leave the ring. */
    method LinkOut(from: int, to: int, lfrom: int, lto: int)
      requires Valid() && 1 <= from <= to <= lastln && lfrom == ring[from - 1] && lto == At(ring, to + 1)
      modifies this
      ensures Valid() && !newcmd && modflag && Checkpoint() == old(Checkpoint())
      ensures ring == old(Removed(ring, from, to)) && text == old(text)
      ensures curln == if from > lastln then lastln else from
    {
      hide RingOk, InRange, Removed, Undoable, Before, At;
      ghost var r := ring;
      LinksFit(next, prev, r, from - 1);
      LinksFit(next, prev, r, to);
      RemoveRing(next, prev, r, from, to);
      RemovedLength(r, from, to);
      lastln := lastln - (to - from + 1);
      curln := if from > lastln then lastln else from;
      Relink(lto, lfrom, lto, lfrom);
      ring := Removed(r, from, to);
    }

    /** A command that fails leaves the document as it found it. */
    method Error()
      requires Valid()
      modifies this
      ensures Settled() && View() == old(Checkpoint())
    {
      if !newcmd {
        Undo();
      }
      curln := ocurln;
    }

    /** One step; bad addresses are an error. */
    method Perform(step: Step) returns (ok: bool)
      requires Valid() && (step.Inject? ==> IsText(step.s))
      modifies this
      ensures ok <==> old(Allowed(View(), step))
      ensures ok ==> Valid() && View() == Do(old(View()), step) && Checkpoint() == old(Checkpoint())
      ensures ok && newcmd ==>
        old(newcmd) && unchanged(this`text, this`next, this`prev, this`vec, this`saved, this`ucurln, this`ulastln,
                                 this`ring)
      ensures !ok ==> Settled() && View() == old(Checkpoint())
    {
      hide RingOk, LogOk, Checkpoint, IsText, Undoable, Before;
      ok := true;
      match step
      case Goto(line) =>
        if line < 0 || line > lastln {
          Error();
          ok := false;
        } else {
          curln := line;
        }
      case Inject(s) => DoInject(s);
      case Delete(from, to) =>
        if from > to || from < 0 || to > lastln {
          Error();
          ok := false;
        } else {
          ok := DoDelete(from, to);
        }
    }

    /** A whole command: all its steps, or none of them. If it changes anything, its undo
        leads back to where it began; otherwise it leaves the last command's undo alone. */
    method Command(steps: seq<Step>) returns (ok: bool)
      requires Settled() && forall k :: 0 <= k < |steps| && steps[k].Inject? ==> IsText(steps[k].s)
      modifies this
      ensures Settled() && (ok <==> old(AllAllowed(View(), steps)))
      ensures View() == if ok then DoAll(old(View()), steps) else old(View())
      ensures ok && !newcmd ==> vec != [] && Before() == old(View())
      ensures ok && newcmd ==>
        View().lines == old(View()).lines && vec == old(vec) && (vec != [] ==> Before() == old(Before()))
    {
      hide RingOk, LogOk, Checkpoint, IsText, Undoable, Do, Allowed;
      Begin();
      ghost var d := View();
      var i := 0;
      while i < |steps|
        invariant 0 <= i <= |steps| && Valid() && Checkpoint() == d
        invariant AllAllowed(View(), steps[i..]) <==> AllAllowed(d, steps)
        invariant AllAllowed(d, steps) ==> DoAll(View(), steps[i..]) == DoAll(d, steps)
        invariant newcmd ==> View().lines == d.lines && vec == old(vec) && (vec != [] ==> Before() == old(Before()))
      {
        assert steps[i..][1..] == steps[i + 1..];
        ok := Perform(steps[i]);
        if !ok {
          return;
        }
        i := i + 1;
      }
      CheckpointIs();
      return true;
    }

    lemma CheckpointIs()
      requires LogOk()
      ensures !newcmd ==> Undoable() && vec != [] && Checkpoint() == Before()
    {
    }

    /** The u command. */
    method UndoCommand() returns (ok: bool)
      requires Settled()
      modifies this
      ensures Settled() && (ok <==> old(vec) != [])
      ensures View() == old(if vec == [] then View() else Before())
    {
      hide RingOk, LogOk, Undoable, Before, Checkpoint;
      Begin();
      ok := vec != [];
      if ok {
        Undo();
      } else {
        Error();
      }
    }

    /** A command and, if it did not fail, the u command after it: if the command changed
        anything, the lines and the current line are again what they were; otherwise the
        command before it is undone, if there is one. */
    method CommandThenUndo(steps: seq<Step>) returns (ok: bool, changed: bool)
      requires Settled() && forall k :: 0 <= k < |steps| && steps[k].Inject? ==> IsText(steps[k].s)
      modifies this
      ensures Settled() && (ok <==> old(AllAllowed(View(), steps)))
      ensures ok && changed ==> View() == old(View()) && lastln == old(lastln)
      ensures ok && !changed ==>
        && DoAll(old(View()), steps).lines == old(View()).lines
        && View() == if old(vec) == [] then DoAll(old(View()), steps) else old(Before())
      ensures !ok ==> !changed && View() == old(View())
    {
      hide RingOk, LogOk, Undoable, Before, Checkpoint, AllAllowed, DoAll;
      changed := false;
      assert |View().lines| == lastln;
      ok := Command(steps);
      if ok {
        changed := !newcmd;
        var u := UndoCommand();
        assert |View().lines| == lastln;
      }
    }
  }
}
