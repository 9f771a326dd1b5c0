/**
 patch: reading a unified hunk into memory (the UNI_DIFF branch of another_hunk in
 cmd/posix/patch.c) and turning it around (pch_swap).
 */
module PatchRead {
  import opened Basics
  import opened Decimal
  import opened UnifiedHunk
  import opened PatchBody
  import opened PatchForm
  import opened PatchApply
  import opened SeqFacts

  // ----- the header

  /** atol: white space, a sign and digits. */
  method Atol(s: string, i: nat) returns (l: int)
    requires i <= |s|
    ensures l == AtolAt(s, i)
  {
    var k := i;
    while k < |s| && IsSpace(s[k])
      invariant i <= k <= |s| && SpacesEnd(s, i) == SpacesEnd(s, k)
    {
      k := k + 1;
    }
    var negative := false;
    if k < |s| && (s[k] == '-' || s[k] == '+') {
      negative := s[k] == '-';
      k := k + 1;
    }
    var n, j := ScanDigits(s, k);
    l := if negative then -n else n;
  }

  method ScanDigits(s: string, i: nat) returns (n: int, j: nat)
    requires i <= |s|
    ensures j == DigitsEnd(s, i) && AllDigits(s[i..j]) && n == Num(s[i..j])
  {
    n, j := Scan(s, i);
    assert forall k :: i <= k < j ==> s[k] == s[i..j][k - i];
  }

  /** getskiplinenum: the number at a position, and the position after its digits. */
  method GetSkipLineNum(s: string, i: nat) returns (ok: bool, l: int, j: nat)
    requires i <= |s|
    ensures ok <==> AtolAt(s, i) >= 0
    ensures l == AtolAt(s, i) && j == DigitsEnd(s, i)
  {
    l := Atol(s, i);
    ok := l >= 0;
    var n;
    n, j := ScanDigits(s, i);
  }

  /** A first line and an optional count. */
  method ParseRange(s: string, i: nat) returns (ok: bool, f: int, c: int, j: nat)
    requires i <= |s|
    ensures ok <==> RangeOf(s, i).Some?
    ensures ok ==> RangeOf(s, i).value == Range(f, c, j)
  {
    hide AtolAt, DigitsEnd;
    c := 1;
    ok, f, j := GetSkipLineNum(s, i);
    if ok && At(s, j) == ',' {
      ok, c, j := GetSkipLineNum(s, j + 1);
    }
  }

  /** The header line of a unified hunk. */
  method ParseHeader(s: string)
    returns (ok: bool, p_first: int, p_ptrn_lines: int, p_newfirst: int, p_repl_lines: int)
    requires |s| >= 4
    ensures ok <==> HeaderOf(s).Some?
    ensures ok ==> HeaderOf(s).value == Ranges(p_first, p_ptrn_lines, p_newfirst, p_repl_lines)
  {
    hide RangeOf;
    var i;
    p_newfirst, p_repl_lines := 0, 0;
    ok, p_first, p_ptrn_lines, i := ParseRange(s, 4);
    if !ok || p_first >= LINENUM_MAX - p_ptrn_lines {
      ok := false;
      return;
    }
    if At(s, i) == ' ' {
      i := i + 1;
    }
    if At(s, i) != '+' {
      ok := false;
      return;
    }
    i := i + 1;
    ok, p_newfirst, p_repl_lines, i := ParseRange(s, i);
    if !ok {
      return;
    }
    if At(s, i) == ' ' {
      i := i + 1;
    }
    ok := At(s, i) == '@' && InRange(p_first, p_ptrn_lines, p_newfirst, p_repl_lines);
  }

  // ----- the body

  /** The arrays hold the sides of the body read so far; fo and fn are the next free
      places for old and new lines. */
  ghost predicate Filling(line: seq<string>, char_: seq<char>, ptrn: int, repl: int, end: int,
                          body: seq<string>, fo: int, fn: int)
  {
    && 0 <= ptrn && 0 <= repl && end == ptrn + repl + 1 && |line| == |char_| == end + 2
    && IsBody(body)
    && char_[0] == '*' && char_[ptrn + 1] == '='
    && '-' !in line[0] && '*' !in line[ptrn + 1]
    && fo - 1 == |OldSide(body)| == |SideTags(body, '+')| <= ptrn
    && fn - ptrn - 2 == |NewSide(body)| == |SideTags(body, '-')| <= repl
    && (forall k :: 0 <= k < fo - 1 ==> line[k + 1] == OldSide(body)[k] && char_[k + 1] == SideTags(body, '+')[k])
    && (forall k :: 0 <= k < fn - ptrn - 2 ==>
        line[ptrn + 2 + k] == NewSide(body)[k] && char_[ptrn + 2 + k] == SideTags(body, '-')[k])
  }

  lemma FillStart(line: seq<string>, char_: seq<char>, ptrn: int, repl: int, end: int)
    requires 0 <= ptrn && 0 <= repl && end == ptrn + repl + 1 && |line| == |char_| == end + 2
    requires char_[0] == '*' && char_[ptrn + 1] == '='
    requires '-' !in line[0] && '*' !in line[ptrn + 1]
    ensures Filling(line, char_, ptrn, repl, end, [], 1, ptrn + 2)
  {
  }

  lemma FillDelete(line: seq<string>, char_: seq<char>, ptrn: int, repl: int, end: int,
                   body: seq<string>, fo: int, fn: int, text: string)
    requires Filling(line, char_, ptrn, repl, end, body, fo, fn) && fo <= ptrn
    ensures Filling(line[fo := text], char_[fo := '-'], ptrn, repl, end, body + [['-'] + text], fo + 1, fn)
  {
    hide Side, SideTags, IsBody;
    var l := ['-'] + text;
    SideSnoc(body, l, '+');
    SideSnoc(body, l, '-');
    assert l[1..] == text;
  }

  lemma FillAdd(line: seq<string>, char_: seq<char>, ptrn: int, repl: int, end: int,
                body: seq<string>, fo: int, fn: int, text: string)
    requires Filling(line, char_, ptrn, repl, end, body, fo, fn) && fn <= end
    ensures Filling(line[fn := text], char_[fn := '+'], ptrn, repl, end, body + [['+'] + text], fo, fn + 1)
  {
    hide Side, SideTags, IsBody;
    var l := ['+'] + text;
    SideSnoc(body, l, '+');
    SideSnoc(body, l, '-');
    assert l[1..] == text;
  }

  lemma FillContext(line: seq<string>, char_: seq<char>, ptrn: int, repl: int, end: int,
                    body: seq<string>, fo: int, fn: int, text: string)
    requires Filling(line, char_, ptrn, repl, end, body, fo, fn) && fo <= ptrn && fn <= end
    ensures Filling(line[fo := text][fn := text], char_[fo := ' '][fn := ' '], ptrn, repl, end,
                    body + [[' '] + text], fo + 1, fn + 1)
  {
    hide Side, SideTags, IsBody;
    var l := [' '] + text;
    SideSnoc(body, l, '+');
    SideSnoc(body, l, '-');
    assert l[1..] == text;
  }

  lemma FillDone(line: seq<string>, char_: seq<char>, ptrn: int, repl: int, end: int,
                 body: seq<string>, fo: int, fn: int)
    requires Filling(line, char_, ptrn, repl, end, body, fo, fn) && fo > ptrn && fn > end
    ensures Holds(line, char_[end + 1 := '^'], ptrn, repl, end, body)
  {
    hide Side, SideTags, OldSide, NewSide, IsBody;
  }

  /** Past the end of the patch no line is made up. */
  lemma BodyFails(lines: seq<string>, pos: nat, o: nat, n: nat)
    ensures pos >= |lines| && n > 3 ==> BodyOf(lines, pos, o, n).None?
  {
  }

  /** The patch file, read line by line. */
  class Reader {
    const lines: seq<string>
    var pos: nat

    constructor (text: seq<string>)
      ensures lines == text && pos == 0
    {
      lines := text;
      pos := 0;
    }

    /** remove_special_line. */
    method RemoveSpecialLine()
      modifies this
      ensures pos == SkipNote(lines, old(pos))
    {
      if IsSpecial(lines, pos) {
        pos := pos + 1;
      }
    }

    /** One line of the body: its tag decides which side it goes to. */
    method ReadLine(line: seq<string>, char_: seq<char>, ptrn: int, repl: int, end: int, fo: int, fn: int,
                    ghost body: seq<string>)
      returns (ok: bool, line': seq<string>, char_': seq<char>, fo': int, fn': int, ghost body': seq<string>)
      requires Filling(line, char_, ptrn, repl, end, body, fo, fn)
      requires 1 <= fo <= ptrn + 1 && ptrn + 2 <= fn <= end + 1 && |line| == |char_| == end + 2
      requires fo <= ptrn || fn <= end
      modifies this
      ensures old(pos) <= pos
      ensures ok ==> Filling(line', char_', ptrn, repl, end, body', fo', fn')
      ensures ok ==> fo <= fo' <= ptrn + 1 && fn <= fn' <= end + 1 && fo' + fn' > fo + fn
      ensures ok ==> |line'| == |char_'| == end + 2
      ensures ok ==> |body'| == |body| + 1 && body' == body + [body'[|body|]]
      ensures BodyOf(lines, old(pos), ptrn + 1 - fo, end + 1 - fn)
           == if ok then Consed(body'[|body|], BodyOf(lines, pos, ptrn + 1 - fo', end + 1 - fn')) else None
    {
      hide Filling, SkipNote, IsSpecial, BodyOf;
      BodyFails(lines, pos, ptrn + 1 - fo, end + 1 - fn);
      ghost var pos0 := pos;
      ok, line', char_', fo', fn', body' := false, line, char_, fo, fn, body;
      var buf;
      if pos < |lines| {
        buf := lines[pos];
        pos := pos + 1;
      } else if end - fn < 3 {
        buf := " ";
      } else {
        return;
      }
      var ch, text := ' ', buf;
      if buf != [] && buf[0] != '\t' {
        ch, text := buf[0], buf[1..];
        assert buf == [ch] + text;
      }
      BodyNext(lines, pos0, ptrn + 1 - fo, end + 1 - fn, buf);
      if ch == '-' {
        if fo <= ptrn {
          FillDelete(line, char_, ptrn, repl, end, body, fo, fn, text);
          ok, line', char_', fo', body' := true, line[fo := text], char_[fo := '-'], fo + 1, body + [['-'] + text];
          if fo' > ptrn {
            RemoveSpecialLine();
          }
        }
      } else if ch == '=' || ch == ' ' {
        if fo <= ptrn && fn <= end {
          FillContext(line, char_, ptrn, repl, end, body, fo, fn, text);
          ok, line', char_' := true, line[fo := text][fn := text], char_[fo := ' '][fn := ' '];
          fo', fn', body' := fo + 1, fn + 1, body + [[' '] + text];
          if fo' > ptrn {
            RemoveSpecialLine();
            RemoveSpecialLine();
          }
        }
      } else if ch == '+' {
        if fn <= end {
          FillAdd(line, char_, ptrn, repl, end, body, fo, fn, text);
          ok, line', char_', fn', body' := true, line[fn := text], char_[fn := '+'], fn + 1, body + [['+'] + text];
          if fo > ptrn {
            RemoveSpecialLine();
          }
        }
      }
    }

    /** The loop over the lines of the body. */
    method ReadBody(line0: seq<string>, char0: seq<char>, ptrn: int, repl: int, end: int)
      returns (ok: bool, line: seq<string>, char_: seq<char>, ghost body: seq<string>)
      requires Filling(line0, char0, ptrn, repl, end, [], 1, ptrn + 2)
      requires 0 <= ptrn && 0 <= repl && end == ptrn + repl + 1 && |line0| == |char0| == end + 2
      modifies this
      ensures ok ==> Holds(line, char_, ptrn, repl, end, body)
      ensures ok <==> BodyOf(lines, old(pos), ptrn, repl).Some?
      ensures ok ==> BodyOf(lines, old(pos), ptrn, repl).value == Lines(body, pos)
    {
      hide Filling, Holds;
      ghost var pos0 := pos;
      line, char_, body := line0, char0, [];
      var fo, fn := 1, ptrn + 2;
      NothingBefore(BodyOf(lines, pos, ptrn, repl));
      while fo <= ptrn || fn <= end
        invariant 1 <= fo <= ptrn + 1 && ptrn + 2 <= fn <= end + 1 && |line| == |char_| == end + 2
        invariant Filling(line, char_, ptrn, repl, end, body, fo, fn)
        invariant BodyOf(lines, pos0, ptrn, repl) == Prepended(body, BodyOf(lines, pos, ptrn + 1 - fo, end + 1 - fn))
        decreases ptrn + end + 2 - fo - fn
      {
        ghost var body0 := body;
        ok, line, char_, fo, fn, body := ReadLine(line, char_, ptrn, repl, end, fo, fn, body);
        if !ok {
          return;
        }
        OneMore(body0, body[|body0|], BodyOf(lines, pos, ptrn + 1 - fo, end + 1 - fn));
      }
      FillDone(line, char_, ptrn, repl, end, body, fo, fn);
      Empty(body);
      ok, char_ := true, char_[end + 1 := '^'];
    }
  }

  /** What is read after some lines. */
  ghost function Prepended(body: seq<string>, r: Option<Lines>): Option<Lines>
  {
    if r.None? then None else Some(Lines(body + r.value.body, r.value.next))
  }

  lemma NothingBefore(r: Option<Lines>)
    ensures Prepended([], r) == r
  {
    if r.Some? {
      Empty(r.value.body);
    }
  }

  lemma OneMore(body: seq<string>, line: string, r: Option<Lines>)
    ensures Prepended(body, Consed(line, r)) == Prepended(body + [line], r)
  {
    if r.Some? {
      Assoc(body, [line], r.value.body);
    }
  }

  datatype ReadResult = HunkRead | EndOfPatch | BadPatch

  /** The line kept for each side's range. */
  function OldMark(first: int, ptrn: int): string { "*** " + LineNo(first) + "," + LineNo(first + ptrn - 1) + " ****" }
  function NewMark(first: int, repl: int): string { "--- " + LineNo(first) + "," + LineNo(first + repl - 1) + " ----" }
  function LineNo(n: int): string { if n < 0 then "-" + Dec(-n) else Dec(n) }

  lemma MarksDiffer(first: int, ptrn: int, newfirst: int, repl: int)
    requires first >= 0 && ptrn >= 0 && first + ptrn >= 1
    ensures '-' !in OldMark(first, ptrn) && '*' !in NewMark(newfirst, repl)
  {
    assert '-' !in Dec(first) && '-' !in Dec(first + ptrn - 1);
    NoStar(newfirst);
    NoStar(newfirst + repl - 1);
    hide Dec;
  }

  lemma NoStar(n: int)
    ensures '*' !in LineNo(n)
  {
  }

  /** The arrays of a hunk before its lines are read: only the two range lines are set. */
  method EmptyHunk(first: int, ptrn: int, newfirst: int, repl: int) returns (line: seq<string>, char_: seq<char>)
    requires first >= 0 && ptrn >= 0 && repl >= 0 && first + ptrn >= 1
    ensures var end := ptrn + 1 + repl;
            |line| == |char_| == end + 2 && Filling(line, char_, ptrn, repl, end, [], 1, ptrn + 2)
  {
    hide Filling, OldMark, NewMark;
    var end := ptrn + 1 + repl;
    line := seq(end + 2, _ => "");
    char_ := seq(end + 2, _ => ' ');
    line := line[0 := OldMark(first, ptrn)][ptrn + 1 := NewMark(newfirst, repl)];
    char_ := char_[0 := '*'][ptrn + 1 := '='];
    MarksDiffer(first, ptrn, newfirst, repl);
    FillStart(line, char_, ptrn, repl, end);
  }

  /** The UNI_DIFF branch of another_hunk, without -R. */
  method AnotherHunk(p: Patcher, r: Reader) returns (res: ReadResult, ghost body: seq<string>)
    modifies p`p_first, p`p_newfirst, p`p_ptrn_lines, p`p_repl_lines, p`p_end, p`p_line, p`p_char, r
    ensures var g := HunkOf(r.lines, old(r.pos));
            && res == (if g.Got? then HunkRead else if g.NoHunk? then EndOfPatch else BadPatch)
            && (g.NoHunk? ==> r.pos == old(r.pos))
            && (g.Got? ==> p.Loaded(body) && g == Got(p.p_first, p.p_newfirst, body, r.pos))
  {
    hide Holds, Filling, OldMark, NewMark, BodyOf, HeaderOf;
    body := [];
    if r.pos >= |r.lines| {
      return EndOfPatch, [];
    }
    var buf := r.lines[r.pos];
    if |buf| < 4 || buf[..4] != "@@ -" {
      return EndOfPatch, [];
    }
    r.pos := r.pos + 1;
    var ok, first, ptrn, newfirst, repl := ParseHeader(buf);
    if !ok {
      return BadPatch, [];
    }
    if ptrn == 0 {
      first := first + 1;
    }
    var end := ptrn + 1 + repl;
    var line, char_ := EmptyHunk(first, ptrn, newfirst, repl);
    ok, line, char_, body := r.ReadBody(line, char_, ptrn, repl, end);
    if !ok {
      return BadPatch, [];
    }
    p.p_first, p.p_newfirst, p.p_ptrn_lines, p.p_repl_lines, p.p_end := first, newfirst, ptrn, repl, end;
    p.p_line, p.p_char := line, char_;
    res := HunkRead;
  }

  // ----- pch_swap

  function Flip(c: char): char { if c == '+' then '-' else if c == '-' then '+' else c }

  /** The same hunk in the other direction. */
  function SwapBody(body: seq<string>): (r: seq<string>)
    requires IsBody(body)
    ensures IsBody(r) && |r| == |body|
  {
    seq(|body|, k requires 0 <= k < |body| => [Flip(body[k][0])] + body[k][1..])
  }

  function SwapHunk(h: Hunk): Hunk
    requires IsBody(h.body)
  {
    Hunk(h.lowc, h.upd, h.lowa, h.upb, SwapBody(h.body))
  }

  function FlipAll(tags: seq<char>): seq<char> { seq(|tags|, k requires 0 <= k < |tags| => Flip(tags[k])) }

  lemma SwapFirst(body: seq<string>)
    requires IsBody(body) && body != []
    ensures IsBody(body[1..]) && SwapBody(body) != [] && SwapBody(body)[1..] == SwapBody(body[1..])
    ensures SwapBody(body)[0][0] == Flip(body[0][0]) && SwapBody(body)[0][1..] == body[0][1..]
  {
  }

  lemma FlipMatches(c: char, skip: char)
    requires skip == '+' || skip == '-'
    ensures Flip(c) == skip <==> c == Flip(skip)
  {
  }

  lemma FlipAllHead(c: char, tail: seq<char>)
    ensures FlipAll([c] + tail) == [Flip(c)] + FlipAll(tail)
  {
  }

  lemma {:induction false} SwapSides(body: seq<string>, skip: char)
    requires IsBody(body) && (skip == '+' || skip == '-')
    ensures Side(SwapBody(body), skip) == Side(body, Flip(skip))
    ensures SideTags(SwapBody(body), skip) == FlipAll(SideTags(body, Flip(skip)))
  {
    hide IsBody;
    BodyConcat(body, []);
    if body != [] {
      var r := SwapBody(body);
      SwapSides(body[1..], skip);
      SwapFirst(body);
      FlipMatches(body[0][0], skip);
      hide SwapBody, Flip;
      var tail := SideTags(body[1..], Flip(skip));
      FlipAllHead(body[0][0], tail);
    }
  }

  function Replaced(s: string, a: char, b: char): (r: string)
    ensures |r| == |s| && forall k :: 0 <= k < |s| ==> r[k] == if s[k] == a then b else s[k]
  {
    seq(|s|, k requires 0 <= k < |s| => if s[k] == a then b else s[k])
  }

  /** The arrays after pch_swap. */
  function SwapLines(line: seq<string>, ptrn: int, end: int): (r: seq<string>)
    requires 0 <= ptrn < end && |line| == end + 2
    ensures |r| == end + 2
  {
    [Replaced(line[ptrn + 1], '-', '*')] + line[ptrn + 2..end + 1] + [Replaced(line[0], '*', '-')] + line[1..ptrn + 1]
      + [line[end + 1]]
  }

  function SwapChars(char_: seq<char>, ptrn: int, end: int): (r: seq<char>)
    requires 0 <= ptrn < end && |char_| == end + 2
    ensures |r| == end + 2
  {
    ['*'] + FlipAll(char_[ptrn + 2..end + 1]) + ['='] + FlipAll(char_[1..ptrn + 1]) + [char_[end + 1]]
  }

  lemma LineTwice(line: seq<string>, ptrn: int, repl: int, end: int)
    requires 0 <= ptrn && 0 <= repl && end == ptrn + repl + 1 && |line| == end + 2
    requires '-' !in line[0] && '*' !in line[ptrn + 1]
    ensures SwapLines(SwapLines(line, ptrn, end), repl, end) == line
  {
    hide Replaced;
    var x, y := line[ptrn + 2..end + 1], line[1..ptrn + 1];
    ReplacedTwice(line[0], '*', '-');
    ReplacedTwice(line[ptrn + 1], '-', '*');
    FiveParts(Replaced(line[ptrn + 1], '-', '*'), x, Replaced(line[0], '*', '-'), y, line[end + 1]);
    FiveWhole(line, ptrn, end);
  }

  lemma {:induction false} ReplacedTwice(s: string, a: char, b: char)
    requires b !in s
    ensures Replaced(Replaced(s, a, b), b, a) == s
  {
  }

  lemma CharTwice(char_: seq<char>, ptrn: int, repl: int, end: int)
    requires 0 <= ptrn && 0 <= repl && end == ptrn + repl + 1 && |char_| == end + 2
    requires char_[0] == '*' && char_[ptrn + 1] == '='
    ensures SwapChars(SwapChars(char_, ptrn, end), repl, end) == char_
  {
    hide FlipAll;
    var x, y := char_[ptrn + 2..end + 1], char_[1..ptrn + 1];
    FlipTwice(x);
    FlipTwice(y);
    FiveParts('*', FlipAll(x), '=', FlipAll(y), char_[end + 1]);
    FiveWhole(char_, ptrn, end);
  }

  lemma FlipTwice(s: seq<char>)
    ensures |FlipAll(s)| == |s| && FlipAll(FlipAll(s)) == s
  {
  }

  lemma FiveParts<T>(a: T, x: seq<T>, b: T, y: seq<T>, c: T)
    ensures var s := [a] + x + [b] + y + [c];
            && |s| == |x| + |y| + 3 && s[0] == a && s[|x| + 1] == b && s[|x| + |y| + 2] == c
            && s[1..|x| + 1] == x && s[|x| + 2..|x| + |y| + 2] == y
  {
  }

  lemma FiveWhole<T>(s: seq<T>, p: int, e: int)
    requires 0 <= p < e && |s| == e + 2
    ensures s == [s[0]] + s[1..p + 1] + [s[p + 1]] + s[p + 2..e + 1] + [s[e + 1]]
  {
  }

  /** Each side carries only its own tags. */
  lemma SideChars(line: seq<string>, char_: seq<char>, ptrn: int, repl: int, end: int, body: seq<string>)
    requires Holds(line, char_, ptrn, repl, end, body)
    ensures 0 <= ptrn && 0 <= repl && end == ptrn + repl + 1 && |line| == |char_| == end + 2
    ensures char_[0] == '*' && char_[ptrn + 1] == '=' && '-' !in line[0] && '*' !in line[ptrn + 1]
    ensures forall k :: 1 <= k <= ptrn ==> char_[k] != '+'
    ensures forall k :: ptrn + 2 <= k <= end ==> char_[k] != '-'
  {
    SideLengths(body, '+');
    SideLengths(body, '-');
    hide OldSide, NewSide, SideTags, IsBody;
    forall k | 1 <= k <= ptrn
      ensures char_[k] != '+'
    {
      assert char_[(k - 1) + 1] == SideTags(body, '+')[k - 1];
    }
    forall k | ptrn + 2 <= k <= end
      ensures char_[k] != '-'
    {
      assert char_[ptrn + 2 + (k - ptrn - 2)] == SideTags(body, '-')[k - ptrn - 2];
    }
  }

  lemma SwapLineAt(line: seq<string>, ptrn: int, repl: int, end: int)
    requires 0 <= ptrn && 0 <= repl && end == ptrn + repl + 1 && |line| == end + 2
    ensures var r := SwapLines(line, ptrn, end);
            && r[0] == Replaced(line[ptrn + 1], '-', '*') && r[repl + 1] == Replaced(line[0], '*', '-')
            && (forall k :: 1 <= k <= repl ==> r[k] == line[k + ptrn + 1])
            && (forall k :: repl + 2 <= k <= end ==> r[k] == line[k - repl - 1])
  {
  }

  lemma SwapCharAt(char_: seq<char>, ptrn: int, repl: int, end: int)
    requires 0 <= ptrn && 0 <= repl && end == ptrn + repl + 1 && |char_| == end + 2
    ensures var c := SwapChars(char_, ptrn, end);
            && c[0] == '*' && c[repl + 1] == '=' && c[end + 1] == char_[end + 1]
            && (forall k :: 1 <= k <= repl ==> c[k] == Flip(char_[k + ptrn + 1]))
            && (forall k :: repl + 2 <= k <= end ==> c[k] == Flip(char_[k - repl - 1]))
  {
    hide FlipAll, Flip;
    var x, y := FlipAll(char_[ptrn + 2..end + 1]), FlipAll(char_[1..ptrn + 1]);
    FlipAllAt(char_[ptrn + 2..end + 1]);
    FlipAllAt(char_[1..ptrn + 1]);
    FiveParts('*', x, '=', y, char_[end + 1]);
    hide FlipAll, SwapChars;
    forall k | 1 <= k <= repl || repl + 2 <= k <= end
      ensures SwapChars(char_, ptrn, end)[k] == Flip(char_[if k <= repl then k + ptrn + 1 else k - repl - 1])
    {
      SwapCharPoint(char_, ptrn, repl, end, k);
    }
  }

  lemma SwapCharPoint(char_: seq<char>, ptrn: int, repl: int, end: int, k: int)
    requires 0 <= ptrn && 0 <= repl && end == ptrn + repl + 1 && |char_| == end + 2
    requires 1 <= k <= repl || repl + 2 <= k <= end
    ensures SwapChars(char_, ptrn, end)[k] == Flip(char_[if k <= repl then k + ptrn + 1 else k - repl - 1])
  {
    hide FlipAll, Flip;
    var a, b := char_[ptrn + 2..end + 1], char_[1..ptrn + 1];
    FlipAllAt(a);
    FlipAllAt(b);
    FiveAt('*', FlipAll(a), '=', FlipAll(b), char_[end + 1], k);
    if k <= repl {
      assert a[k - 1] == char_[k + ptrn + 1];
    } else {
      assert b[k - repl - 2] == char_[k - repl - 1];
    }
  }

  lemma FiveAt<T>(a: T, x: seq<T>, b: T, y: seq<T>, c: T, k: int)
    requires 1 <= k <= |x| || |x| + 2 <= k < |x| + |y| + 2
    ensures ([a] + x + [b] + y + [c])[k] == if k <= |x| then x[k - 1] else y[k - |x| - 2]
  {
  }

  lemma FlipAllAt(tags: seq<char>)
    ensures |FlipAll(tags)| == |tags| && forall k :: 0 <= k < |tags| ==> FlipAll(tags)[k] == Flip(tags[k])
  {
  }

  lemma SwapHolds(line: seq<string>, char_: seq<char>, ptrn: int, repl: int, end: int, body: seq<string>)
    requires Holds(line, char_, ptrn, repl, end, body)
    ensures 0 <= ptrn < end && |line| == |char_| == end + 2 && IsBody(body)
    ensures Holds(SwapLines(line, ptrn, end), SwapChars(char_, ptrn, end), repl, ptrn, end, SwapBody(body))
  {
    hide Side, SideTags, SwapBody, SwapLines, SwapChars, FlipAll, Flip;
    SwapSides(body, '+');
    SwapSides(body, '-');
    assert Flip('+') == '-' && Flip('-') == '+' by { FlipSigns(); }
    SwapLineAt(line, ptrn, repl, end);
    SwapCharAt(char_, ptrn, repl, end);
    FlipAllAt(SideTags(body, '-'));
    FlipAllAt(SideTags(body, '+'));
  }

  lemma FlipSigns()
    ensures Flip('+') == '-' && Flip('-') == '+'
  {
  }

  /** Copy entries i..e, turning one tag into its opposite. */
  method CopyFlipped(line: seq<string>, char_: seq<char>, i: int, e: int, tag: char)
    returns (l: seq<string>, c: seq<char>)
    requires 0 <= i <= e + 1 <= |line| == |char_|
    requires tag == '+' || tag == '-'
    requires forall k :: i <= k <= e ==> char_[k] != Flip(tag)
    ensures l == line[i..e + 1] && c == FlipAll(char_[i..e + 1])
  {
    l, c := [], [];
    var k := i;
    while k <= e
      invariant i <= k <= e + 1
      invariant l == line[i..k] && c == FlipAll(char_[i..k])
    {
      l := l + [line[k]];
      c := c + [if char_[k] == tag then Flip(tag) else char_[k]];
      assert char_[i..k + 1] == char_[i..k] + [char_[k]];
      k := k + 1;
    }
  }

  /** pch_swap: exchange the two sides of the hunk in memory. The first lines of the two
      ranges are exchanged as they are. */
  method PchSwap(p: Patcher, ghost body: seq<string>)
    requires p.Loaded(body)
    modifies p`p_first, p`p_newfirst, p`p_ptrn_lines, p`p_repl_lines, p`p_line, p`p_char
    ensures IsBody(body) && p.Loaded(SwapBody(body))
    ensures p.p_first == old(p.p_newfirst) && p.p_newfirst == old(p.p_first)
    ensures p.p_ptrn_lines == old(p.p_repl_lines) && p.p_repl_lines == old(p.p_ptrn_lines)
    ensures 0 <= old(p.p_ptrn_lines) < p.p_end && |old(p.p_line)| == |old(p.p_char)| == p.p_end + 2
    ensures p.p_line == SwapLines(old(p.p_line), old(p.p_ptrn_lines), p.p_end)
    ensures p.p_char == SwapChars(old(p.p_char), old(p.p_ptrn_lines), p.p_end)
  {
    hide Holds, SwapBody, IsBody, SwapLines, SwapChars;
    SwapHolds(p.p_line, p.p_char, p.p_ptrn_lines, p.p_repl_lines, p.p_end, body);
    var tp_line, tp_char := SwapArrays(p.p_line, p.p_char, p.p_ptrn_lines, p.p_repl_lines, p.p_end, body);
    p.p_first, p.p_newfirst := p.p_newfirst, p.p_first;
    p.p_line, p.p_char := tp_line, tp_char;
    p.p_ptrn_lines, p.p_repl_lines := p.p_repl_lines, p.p_ptrn_lines;
  }

  /** The loops of pch_swap that copy the two halves. */
  method SwapArrays(line: seq<string>, char_: seq<char>, ptrn: int, ghost repl: int, end: int, ghost body: seq<string>)
    returns (line': seq<string>, char': seq<char>)
    requires Holds(line, char_, ptrn, repl, end, body)
    ensures 0 <= ptrn < end && |line| == |char_| == end + 2
    ensures line' == SwapLines(line, ptrn, end) && char' == SwapChars(char_, ptrn, end)
  {
    hide Holds, FlipAll, Replaced, SwapLines, SwapChars;
    SideChars(line, char_, ptrn, repl, end, body);
    var l1, c1 := CopyFlipped(line, char_, ptrn + 2, end, '+');
    var l2, c2 := CopyFlipped(line, char_, 1, ptrn, '-');
    SwapLinesAre(line, char_, ptrn, end, l1, l2, c1, c2);
    line' := [Replaced(line[ptrn + 1], '-', '*')] + l1 + [Replaced(line[0], '*', '-')] + l2 + [line[end + 1]];
    char' := ['*'] + c1 + ['='] + c2 + [char_[end + 1]];
  }

  lemma SwapLinesAre(line: seq<string>, char_: seq<char>, ptrn: int, end: int,
                     l1: seq<string>, l2: seq<string>, c1: seq<char>, c2: seq<char>)
    requires 0 <= ptrn < end && |line| == |char_| == end + 2
    requires l1 == line[ptrn + 2..end + 1] && l2 == line[1..ptrn + 1]
    requires c1 == FlipAll(char_[ptrn + 2..end + 1]) && c2 == FlipAll(char_[1..ptrn + 1])
    ensures SwapLines(line, ptrn, end)
      == [Replaced(line[ptrn + 1], '-', '*')] + l1 + [Replaced(line[0], '*', '-')] + l2 + [line[end + 1]]
    ensures SwapChars(char_, ptrn, end) == ['*'] + c1 + ['='] + c2 + [char_[end + 1]]
  {
    hide Replaced, FlipAll;
  }

  /** Swapping twice restores the hunk. */
  method SwapTwice(p: Patcher, ghost body: seq<string>)
    requires p.Loaded(body)
    modifies p`p_first, p`p_newfirst, p`p_ptrn_lines, p`p_repl_lines, p`p_line, p`p_char
    ensures p.p_first == old(p.p_first) && p.p_newfirst == old(p.p_newfirst)
    ensures p.p_ptrn_lines == old(p.p_ptrn_lines) && p.p_repl_lines == old(p.p_repl_lines)
    ensures p.p_line == old(p.p_line) && p.p_char == old(p.p_char)
  {
    hide Holds, SwapLines, SwapChars, SwapBody, IsBody;
    SideChars(p.p_line, p.p_char, p.p_ptrn_lines, p.p_repl_lines, p.p_end, body);
    LineTwice(p.p_line, p.p_ptrn_lines, p.p_repl_lines, p.p_end);
    CharTwice(p.p_char, p.p_ptrn_lines, p.p_repl_lines, p.p_end);
    PchSwap(p, body);
    PchSwap(p, SwapBody(body));
  }
}
