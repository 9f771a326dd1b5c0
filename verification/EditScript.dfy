/**
 What diff's change regions mean: replacing them turns the old file into the new one,
 all at once, or one after another from the end of the file, as ed runs them.
 */
module EditScript {
  import opened DiffMatch
  import opened DiffOutput

  // ----- edit scripts, without reference to the matching

  /** Change k is non-empty and in range, the lines between it and its predecessor are
      the same in both files, and there is at least one such line. */
  ghost predicate EditOk(old_: seq<string>, new_: seq<string>, cs: seq<Change>, k: nat)
    requires k < |cs|
  {
    var i, j, ch := EndOld(0, cs, k), EndNew(0, cs, k), cs[k];
    && 0 <= i < ch.a <= ch.b + 1 <= |old_| + 1
    && 0 <= j < ch.c <= ch.d + 1 <= |new_| + 1
    && ch.c - ch.a == j - i
    && old_[i..ch.a - 1] == new_[j..ch.c - 1]
    && (ch.a <= ch.b || ch.c <= ch.d)
    && (k > 0 ==> i < ch.a - 1)
  }

  /** Ordered, disjoint changes, with the same lines before, between and after them. */
  ghost predicate IsEditScript(old_: seq<string>, new_: seq<string>, cs: seq<Change>)
  {
    && (forall k :: 0 <= k < |cs| ==> EditOk(old_, new_, cs, k))
    && var i, j := EndOld(0, cs, |cs|), EndNew(0, cs, |cs|);
       0 <= i <= |old_| && 0 <= j <= |new_| && old_[i..] == new_[j..]
  }

  /** Old lines deleted by the first k changes. */
  ghost function Deleted(cs: seq<Change>, k: nat): int
    requires k <= |cs|
  {
    if k == 0 then 0 else Deleted(cs, k - 1) + (cs[k - 1].b - cs[k - 1].a + 1)
  }

  /** New lines inserted by the first k changes. */
  ghost function Inserted(cs: seq<Change>, k: nat): int
    requires k <= |cs|
  {
    if k == 0 then 0 else Inserted(cs, k - 1) + (cs[k - 1].d - cs[k - 1].c + 1)
  }

  /** The lines that a script deletes and inserts. */
  ghost function Cost(cs: seq<Change>): int { Deleted(cs, |cs|) + Inserted(cs, |cs|) }

  lemma EditAt(old_: seq<string>, new_: seq<string>, cs: seq<Change>, k: nat)
    requires IsEditScript(old_, new_, cs) && k < |cs|
    ensures EditOk(old_, new_, cs, k)
  {
  }

  /** J with the guards of output is what check leaves, closed off at both ends. */
  lemma TableIsGuarded(old_: seq<string>, new_: seq<string>, J: seq<int>)
    requires |J| == |old_| + 2 && MatchTable(old_, new_, J)
    ensures Guarded(J[0 := 0][|old_| + 1 := |new_| + 1], |old_|, |new_|)
    ensures MatchTable(old_, new_, J[0 := 0][|old_| + 1 := |new_| + 1])
  {
  }

  lemma InStepLinesEqual(old_: seq<string>, new_: seq<string>, J: seq<int>, i: int, i': int, j: int)
    requires MatchTable(old_, new_, J) && 0 <= i <= i' <= |old_| && 0 <= j && Diagonal(J, i, i', j)
    ensures j + (i' - i) <= |new_| || i == i'
    ensures j + (i' - i) <= |new_| ==> old_[i..i'] == new_[j..j + (i' - i)]
  {
    if i < i' {
      assert J[i'] == i' + (j - i);
    }
    if j + (i' - i) <= |new_| {
      var p, q := old_[i..i'], new_[j..j + (i' - i)];
      forall t | 0 <= t < |p|
        ensures p[t] == q[t]
      {
        assert J[i + t + 1] == i + t + 1 + (j - i);
      }
    }
  }

  lemma {:induction false} ScriptIsEdit(old_: seq<string>, new_: seq<string>, J: seq<int>, cs: seq<Change>)
    requires MatchTable(old_, new_, J) && Guarded(J, |old_|, |new_|)
    requires Script(J, |old_|, |new_|, 0, 0, cs)
    ensures IsEditScript(old_, new_, cs)
  {
    forall k | 0 <= k < |cs|
      ensures EditOk(old_, new_, cs, k)
    {
      ChangeIsEdit(old_, new_, J, cs, k);
    }
    var i, j := EndOld(0, cs, |cs|), EndNew(0, cs, |cs|);
    if |cs| > 0 {
      ChangeIsEdit(old_, new_, J, cs, |cs| - 1);
    }
    InStepLinesEqual(old_, new_, J, i, |old_|, j);
    assert old_[i..] == old_[i..|old_|] && new_[j..] == new_[j..|new_|];
  }

  lemma {:induction false} ChangeIsEdit(old_: seq<string>, new_: seq<string>, J: seq<int>, cs: seq<Change>, k: nat)
    requires MatchTable(old_, new_, J) && Guarded(J, |old_|, |new_|)
    requires Script(J, |old_|, |new_|, 0, 0, cs) && k < |cs|
    ensures EditOk(old_, new_, cs, k)
    decreases k
  {
    hide MatchTable;
    var i, j, ch := EndOld(0, cs, k), EndNew(0, cs, k), cs[k];
    assert ChangeOk(J, |old_|, |new_|, 0, 0, cs, k);
    if k > 0 {
      assert ChangeOk(J, |old_|, |new_|, 0, 0, cs, k - 1);
      ChangeIsEdit(old_, new_, J, cs, k - 1);
    }
    InStepLinesEqual(old_, new_, J, i, ch.a - 1, j);
    ChangeStops(J, |old_|, |new_|, i, j, ch);
  }

  // ----- replacing all regions at once

  /** The old file with the regions from change k on replaced, from the end of change
      k - 1 to the end of the file. */
  ghost function Replaced(old_: seq<string>, new_: seq<string>, cs: seq<Change>, k: nat): seq<string>
    requires IsEditScript(old_, new_, cs) && k <= |cs|
    decreases |cs| - k
  {
    if k == |cs| then old_[EndOld(0, cs, k)..]
    else
      assert EditOk(old_, new_, cs, k);
      old_[EndOld(0, cs, k)..cs[k].a - 1] + new_[cs[k].c - 1..cs[k].d] + Replaced(old_, new_, cs, k + 1)
  }

  lemma ReplacedNext(old_: seq<string>, new_: seq<string>, cs: seq<Change>, k: nat)
    requires IsEditScript(old_, new_, cs) && k < |cs|
    ensures 0 <= EndOld(0, cs, k) <= cs[k].a - 1 <= |old_| && 0 <= cs[k].c - 1 <= cs[k].d <= |new_|
    ensures Replaced(old_, new_, cs, k)
         == old_[EndOld(0, cs, k)..cs[k].a - 1] + new_[cs[k].c - 1..cs[k].d] + Replaced(old_, new_, cs, k + 1)
  {
    assert EditOk(old_, new_, cs, k);
  }

  lemma SplitNew(new_: seq<string>, j: int, c: int, d: int)
    requires 0 <= j <= c <= d <= |new_|
    ensures new_[j..] == new_[j..c] + new_[c..d] + new_[d..]
  {
  }

  lemma {:induction false} ReplacedIsNew(old_: seq<string>, new_: seq<string>, cs: seq<Change>, k: nat)
    requires IsEditScript(old_, new_, cs) && k <= |cs|
    ensures 0 <= EndNew(0, cs, k) <= |new_|
    ensures Replaced(old_, new_, cs, k) == new_[EndNew(0, cs, k)..]
    decreases |cs| - k
  {
    if k < |cs| {
      EditAt(old_, new_, cs, k);
      ReplacedNext(old_, new_, cs, k);
      hide IsEditScript, Replaced;
      ReplacedIsNew(old_, new_, cs, k + 1);
      SplitNew(new_, EndNew(0, cs, k), cs[k].c - 1, cs[k].d);
    }
  }

  /** Replacing every region of a script turns the old file into the new one. */
  lemma ScriptRebuildsNew(old_: seq<string>, new_: seq<string>, cs: seq<Change>)
    requires IsEditScript(old_, new_, cs)
    ensures Replaced(old_, new_, cs, 0) == new_
  {
    ReplacedIsNew(old_, new_, cs, 0);
    assert new_[0..] == new_;
  }

  // ----- ed scripts

  /** An ed command as change prints it: addresses, operation and text. */
  datatype EdCommand =
    | Append(after: int, text: seq<string>)
    | Delete(from: int, to: int)
    | Replace(from: int, to: int, text: seq<string>)

  /** The D_EDIT branch of change. */
  function Command(new_: seq<string>, ch: Change): EdCommand
    requires 1 <= ch.c <= ch.d + 1 <= |new_| + 1
  {
    if ch.a > ch.b then Append(ch.b, new_[ch.c - 1..ch.d])
    else if ch.c > ch.d then Delete(ch.a, ch.b)
    else Replace(ch.a, ch.b, new_[ch.c - 1..ch.d])
  }

  datatype Buffer = Valid(lines: seq<string>) | BadAddress

  /** What ed does with one command; an address outside the buffer is an error. */
  function Run(buf: seq<string>, cmd: EdCommand): Buffer
  {
    match cmd
    case Append(after, text) =>
      if 0 <= after <= |buf| then Valid(buf[..after] + text + buf[after..]) else BadAddress
    case Delete(from, to) =>
      if 1 <= from <= to <= |buf| then Valid(buf[..from - 1] + buf[to..]) else BadAddress
    case Replace(from, to, text) =>
      if 1 <= from <= to <= |buf| then Valid(buf[..from - 1] + text + buf[to..]) else BadAddress
  }

  /** Running a script of regions in the given order, with no renumbering. */
  function RunAll(buf: seq<string>, new_: seq<string>, out: seq<Change>): Buffer
    requires forall k :: 0 <= k < |out| ==> 1 <= out[k].c <= out[k].d + 1 <= |new_| + 1
    decreases |out|
  {
    if out == [] then Valid(buf)
    else
      match Run(buf, Command(new_, out[0]))
      case Valid(lines) => RunAll(lines, new_, out[1..])
      case BadAddress => BadAddress
  }

  lemma ScriptInRange(old_: seq<string>, new_: seq<string>, cs: seq<Change>)
    requires IsEditScript(old_, new_, cs)
    ensures forall k :: 0 <= k < |cs| ==> 1 <= cs[k].c <= cs[k].d + 1 <= |new_| + 1
  {
    forall k | 0 <= k < |cs|
      ensures 1 <= cs[k].c <= cs[k].d + 1 <= |new_| + 1
    {
      assert EditOk(old_, new_, cs, k);
    }
  }

  /** With the changes from k on done, the buffer is old up to change k and new after it. */
  ghost function Mixed(old_: seq<string>, new_: seq<string>, cs: seq<Change>, k: nat): (buf: seq<string>)
    requires IsEditScript(old_, new_, cs) && k <= |cs|
  {
    if k > 0 then assert EditOk(old_, new_, cs, k - 1); old_[..EndOld(0, cs, k)] + new_[EndNew(0, cs, k)..]
    else new_
  }

  /** Every command is a replacement of lines a..b. */
  lemma RunReplaces(buf: seq<string>, new_: seq<string>, ch: Change)
    requires 1 <= ch.a <= ch.b + 1 <= |buf| + 1 && 1 <= ch.c <= ch.d + 1 <= |new_| + 1
    ensures Run(buf, Command(new_, ch)) == Valid(buf[..ch.a - 1] + new_[ch.c - 1..ch.d] + buf[ch.b..])
  {
    if ch.a <= ch.b && ch.c > ch.d {
      assert buf[..ch.a - 1] + new_[ch.c - 1..ch.d] == buf[..ch.a - 1];
    }
  }

  lemma Splice<T>(s: seq<T>, t: seq<T>, i: nat, j: nat, a: nat, b: nat, c: nat, d: nat)
    requires i <= a <= b <= |s| && j <= c <= d <= |t| && s[i..a] == t[j..c]
    ensures var buf := s[..b] + t[d..];
            buf[..a] + t[c..d] + buf[b..] == s[..i] + t[j..]
  {
    var buf := s[..b] + t[d..];
    assert buf[b..] == t[d..];
    assert buf[..a] == s[..a] == s[..i] + s[i..a];
    assert t[j..] == t[j..c] + t[c..d] + t[d..];
  }

  lemma MixedIs(old_: seq<string>, new_: seq<string>, cs: seq<Change>, k: nat)
    requires IsEditScript(old_, new_, cs) && k <= |cs|
    ensures 0 <= EndOld(0, cs, k) <= |old_| && 0 <= EndNew(0, cs, k) <= |new_|
    ensures Mixed(old_, new_, cs, k) == old_[..EndOld(0, cs, k)] + new_[EndNew(0, cs, k)..]
  {
    if k > 0 {
      assert EditOk(old_, new_, cs, k - 1);
    } else {
      assert new_ == [] + new_[0..];
    }
  }

  lemma RunOne(old_: seq<string>, new_: seq<string>, cs: seq<Change>, k: nat)
    requires IsEditScript(old_, new_, cs) && k < |cs|
    requires 1 <= cs[k].c <= cs[k].d + 1 <= |new_| + 1
    ensures Run(Mixed(old_, new_, cs, k + 1), Command(new_, cs[k])) == Valid(Mixed(old_, new_, cs, k))
  {
    hide IsEditScript, Mixed, Run;
    var ch := cs[k];
    MixedIs(old_, new_, cs, k);
    MixedIs(old_, new_, cs, k + 1);
    EditAt(old_, new_, cs, k);
    RunReplaces(Mixed(old_, new_, cs, k + 1), new_, ch);
    Splice(old_, new_, EndOld(0, cs, k), EndNew(0, cs, k), ch.a - 1, ch.b, ch.c - 1, ch.d);
  }

  lemma {:induction false} RunDown(old_: seq<string>, new_: seq<string>, cs: seq<Change>, k: nat)
    requires IsEditScript(old_, new_, cs) && k <= |cs|
    requires forall l :: 0 <= l < |cs| ==> 1 <= cs[l].c <= cs[l].d + 1 <= |new_| + 1
    ensures RunAll(Mixed(old_, new_, cs, k), new_, Reversed(cs[..k])) == Valid(new_)
    decreases k
  {
    var out := Reversed(cs[..k]);
    if k == 0 {
      assert out == [];
    } else {
      RunOne(old_, new_, cs, k - 1);
      assert out[0] == cs[k - 1];
      assert out[1..] == Reversed(cs[..k - 1]);
      RunDown(old_, new_, cs, k - 1);
    }
  }

  /** The descending script runs without an address error and leaves the new file. */
  lemma EdScriptRebuildsNew(old_: seq<string>, new_: seq<string>, cs: seq<Change>)
    requires IsEditScript(old_, new_, cs)
    ensures forall k :: 0 <= k < |Reversed(cs)| ==>
      1 <= Reversed(cs)[k].c <= Reversed(cs)[k].d + 1 <= |new_| + 1
    ensures RunAll(old_, new_, Reversed(cs)) == Valid(new_)
  {
    ScriptInRange(old_, new_, cs);
    RunDown(old_, new_, cs, |cs|);
    assert cs[..|cs|] == cs;
    if |cs| > 0 {
      assert EditOk(old_, new_, cs, |cs| - 1);
      var i, j := EndOld(0, cs, |cs|), EndNew(0, cs, |cs|);
      assert old_ == old_[..i] + old_[i..];
      assert Mixed(old_, new_, cs, |cs|) == old_;
    } else {
      assert old_ == old_[0..] && new_ == new_[0..];
    }
  }

  // ----- both loops of output, on the files

  lemma RestHasNoChange(J: seq<int>, n: nat, m: nat, i: int, j: int, ch: Change)
    requires Guarded(J, n, m) && Rest(J, n, m, i, j) && j >= 0
    ensures !NextChange(J, n, m, i, j, ch)
  {
    if NextChange(J, n, m, i, j, ch) {
      ChangeStops(J, n, m, i, j, ch);
    }
  }

  lemma {:induction false} ScriptUniqueTo(J: seq<int>, n: nat, m: nat, cs: seq<Change>, cs': seq<Change>, k: nat)
    requires Guarded(J, n, m) && Script(J, n, m, 0, 0, cs) && Script(J, n, m, 0, 0, cs')
    requires k <= |cs|
    ensures k <= |cs'| && cs[..k] == cs'[..k]
    ensures EndNew(0, cs, k) >= 0
    decreases k
  {
    if k > 0 {
      ScriptUniqueTo(J, n, m, cs, cs', k - 1);
      var i, j := EndOld(0, cs, k - 1), EndNew(0, cs, k - 1);
      assert cs[..k - 1] == cs'[..k - 1];
      assert k > 1 ==> cs[k - 2] == cs[..k - 1][k - 2] == cs'[..k - 1][k - 2] == cs'[k - 2];
      assert ChangeOk(J, n, m, 0, 0, cs, k - 1);
      ChangeStops(J, n, m, i, j, cs[k - 1]);
      if |cs'| == k - 1 {
        RestHasNoChange(J, n, m, i, j, cs[k - 1]);
        assert false;
      }
      assert ChangeOk(J, n, m, 0, 0, cs', k - 1);
      NextChangeUnique(J, n, m, i, j, cs[k - 1], cs'[k - 1]);
    }
  }

  /** A matching has exactly one script. */
  lemma ScriptUnique(J: seq<int>, n: nat, m: nat, cs: seq<Change>, cs': seq<Change>)
    requires Guarded(J, n, m) && Script(J, n, m, 0, 0, cs) && Script(J, n, m, 0, 0, cs')
    ensures cs == cs'
  {
    ScriptUniqueTo(J, n, m, cs, cs', |cs|);
    ScriptUniqueTo(J, n, m, cs', cs, |cs'|);
    assert cs[..|cs|] == cs && cs'[..|cs'|] == cs';
  }
}
