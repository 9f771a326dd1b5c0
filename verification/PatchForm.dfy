/**
 What patch reads: the form of a unified hunk as the UNI_DIFF branch of another_hunk in
 cmd/posix/patch.c takes it apart, for any text, and which texts that are.
 */
module PatchForm {
  import opened Basics
  import opened Decimal
  import opened SeqFacts
  import opened UnifiedHunk

  const LINENUM_MAX: int := 0x7fff_ffff_ffff_ffff

  // ----- numbers

  predicate IsSpace(c: char) { c == ' ' || '\t' <= c <= '\r' }

  /** The character at a position of a line; past its end there is its newline. */
  function At(s: string, i: nat): char { if i < |s| then s[i] else '\n' }

  ghost function DigitsEnd(s: string, i: nat): (j: nat)
    requires i <= |s|
    ensures i <= j <= |s| && (j == |s| || !IsDigit(s[j])) && forall k :: i <= k < j ==> IsDigit(s[k])
    decreases |s| - i
  {
    if i < |s| && IsDigit(s[i]) then DigitsEnd(s, i + 1) else i
  }

  ghost function SpacesEnd(s: string, i: nat): (j: nat)
    requires i <= |s|
    ensures i <= j <= |s| && (j == |s| || !IsSpace(s[j])) && forall k :: i <= k < j ==> IsSpace(s[k])
    decreases |s| - i
  {
    if i < |s| && IsSpace(s[i]) then SpacesEnd(s, i + 1) else i
  }

  ghost predicate IsSign(s: string, k: nat) { k < |s| && (s[k] == '-' || s[k] == '+') }

  /** atol: white space, a sign and digits, each of which may be missing. */
  ghost function AtolAt(s: string, i: nat): int
    requires i <= |s|
  {
    var k := SpacesEnd(s, i);
    var d := if IsSign(s, k) then k + 1 else k;
    var n: int := Num(s[d..DigitsEnd(s, d)]);
    if IsSign(s, k) && s[k] == '-' then -n else n
  }

  // ----- the header

  datatype Range = Range(first: int, count: int, next: nat)

  /** A first line and a count; getskiplinenum skips the digits and nothing else. */
  ghost function RangeOf(s: string, i: nat): (r: Option<Range>)
    requires i <= |s|
    ensures r.Some? ==> i <= r.value.next <= |s| && r.value.first >= 0 && r.value.count >= 0
  {
    var first, j := AtolAt(s, i), DigitsEnd(s, i);
    if first < 0 then None
    else if At(s, j) != ',' then Some(Range(first, 1, j))
    else
      var count := AtolAt(s, j + 1);
      if count < 0 then None else Some(Range(first, count, DigitsEnd(s, j + 1)))
  }

  ghost function SkipBlank(s: string, i: nat): nat { if At(s, i) == ' ' then i + 1 else i }

  datatype Ranges = Ranges(first: int, ptrn: int, newfirst: int, repl: int)

  /** Within what patch accepts as line numbers. */
  predicate InRange(first: int, ptrn: int, newfirst: int, repl: int)
  {
    first < LINENUM_MAX - ptrn && newfirst <= LINENUM_MAX - repl && ptrn < LINENUM_MAX - repl - 1
  }

  /** The header line of a hunk, which begins with "@@ -". */
  ghost function HeaderOf(s: string): (r: Option<Ranges>)
    requires |s| >= 4
    ensures r.Some? ==>
      r.value.first >= 0 && r.value.ptrn >= 0 && r.value.newfirst >= 0 && r.value.repl >= 0
  {
    var a := RangeOf(s, 4);
    if a.None? then None
    else
      var i := SkipBlank(s, a.value.next);
      if At(s, i) != '+' then None
      else
        var b := RangeOf(s, i + 1);
        if b.None? then None
        else if At(s, SkipBlank(s, b.value.next)) != '@' then None
        else if !InRange(a.value.first, a.value.count, b.value.first, b.value.count) then None
        else Some(Ranges(a.value.first, a.value.count, b.value.first, b.value.count))
  }

  // ----- the language of headers

  /** The parts of a header: digits, optional counts and blanks, and anything after the @. */
  datatype HeaderText = HeaderText(first: string, count: Option<string>, blank: bool,
                                   newfirst: string, newcount: Option<string>, blank': bool, rest: string)

  ghost function CountText(c: Option<string>): string { if c.None? then "" else "," + c.value }

  ghost function Blank(b: bool): string { if b then " " else "" }

  ghost function EndText(t: HeaderText): string { Blank(t.blank') + ("@" + t.rest) }

  ghost function NewText(t: HeaderText): string { t.newfirst + CountText(t.newcount) + EndText(t) }

  ghost function OldText(t: HeaderText): string { t.first + CountText(t.count) + (Blank(t.blank) + ("+" + NewText(t))) }

  ghost function Spell(t: HeaderText): string { "@@ -" + OldText(t) }

  ghost predicate Digital(t: HeaderText)
  {
    && AllDigits(t.first) && (t.count.Some? ==> AllDigits(t.count.value))
    && AllDigits(t.newfirst) && (t.newcount.Some? ==> AllDigits(t.newcount.value))
  }

  /** No number is missing. */
  ghost predicate Regular(t: HeaderText)
  {
    && Digital(t) && t.first != "" && t.newfirst != ""
    && (t.count.Some? ==> t.count.value != "") && (t.newcount.Some? ==> t.newcount.value != "")
  }

  ghost function CountOf(c: Option<string>): int
    requires c.Some? ==> AllDigits(c.value)
  {
    if c.None? then 1 else Num(c.value)
  }

  /** The numbers that the parts stand for; a count left out is 1. */
  ghost function Numbers(t: HeaderText): Ranges
    requires Digital(t)
  {
    Ranges(Num(t.first), CountOf(t.count), Num(t.newfirst), CountOf(t.newcount))
  }

  /** Position i of s is where rest begins. */
  ghost predicate RestIs(s: string, i: nat, rest: string)
  {
    i <= |s| && s[i..] == rest
  }

  lemma SkipText(s: string, i: nat, text: string, rest: string)
    requires RestIs(s, i, text + rest)
    ensures RestIs(s, i + |text|, rest) && s[i..i + |text|] == text
  {
    assert s[i + |text|..] == s[i..][|text|..] == rest;
    assert s[i..i + |text|] == s[i..][..|text|] == text;
  }

  lemma RestChar(s: string, i: nat, rest: string)
    requires RestIs(s, i, rest)
    ensures At(s, i) == if rest == [] then '\n' else rest[0]
  {
    if rest != [] {
      assert s[i] == s[i..][0];
    }
  }

  lemma DigitsThenRest(s: string, i: nat, d: string, rest: string)
    requires RestIs(s, i, d + rest) && AllDigits(d) && (rest == [] || !IsDigit(rest[0]))
    ensures RestIs(s, i + |d|, rest) && s[i..i + |d|] == d && DigitsEnd(s, i) == i + |d|
    ensures d != "" ==> AtolAt(s, i) == Num(d)
  {
    hide RestIs, AtolAt, Num, DigitsEnd;
    SkipText(s, i, d, rest);
    RestChar(s, i + |d|, rest);
    RestInside(s, i + |d|, rest);
    var j := i + |d|;
    assert forall k :: i <= k < j ==> s[k] == s[i..j][k - i];
    assert DigitsEnd(s, i) == j;
    if d != "" {
      assert IsDigit(s[i]);
      PlainNumber(s, i);
    }
  }

  lemma PlainNumber(s: string, i: nat)
    requires i < |s| && IsDigit(s[i])
    ensures AllDigits(s[i..DigitsEnd(s, i)]) && AtolAt(s, i) == Num(s[i..DigitsEnd(s, i)])
  {
    hide Num;
    assert SpacesEnd(s, i) == i && !IsSign(s, i);
  }

  lemma RangeReads(s: string, i: nat, first: string, count: Option<string>, rest: string)
    requires RestIs(s, i, first + CountText(count) + rest) && rest != "" && !IsDigit(rest[0]) && rest[0] != ','
    requires AllDigits(first) && first != "" && (count.Some? ==> AllDigits(count.value) && count.value != "")
    ensures var j := i + |first| + |CountText(count)|;
            RangeOf(s, i) == Some(Range(Num(first), CountOf(count), j)) && RestIs(s, j, rest)
  {
    hide RestIs, AtolAt, AllDigits, DigitsEnd, Num, At;
    Assoc(first, CountText(count), rest);
    CountStarts(count, rest);
    DigitsThenRest(s, i, first, CountText(count) + rest);
    var j := i + |first|;
    RestChar(s, j, CountText(count) + rest);
    if count.Some? {
      CountReads(s, j, count.value, rest);
    } else {
      Empty(rest);
    }
  }

  lemma CountReads(s: string, j: nat, count: string, rest: string)
    requires RestIs(s, j, "," + count + rest) && rest != "" && !IsDigit(rest[0]) && AllDigits(count) && count != ""
    ensures j < |s| && AtolAt(s, j + 1) == Num(count)
    ensures DigitsEnd(s, j + 1) == j + 1 + |count| && RestIs(s, j + 1 + |count|, rest)
  {
    hide RestIs, AtolAt, AllDigits, DigitsEnd, Num;
    Assoc(",", count, rest);
    SkipText(s, j, ",", count + rest);
    RestInside(s, j + 1, count + rest);
    DigitsThenRest(s, j + 1, count, rest);
  }

  lemma RestInside(s: string, i: nat, rest: string)
    requires RestIs(s, i, rest)
    ensures i <= |s|
  {
  }

  lemma CountStarts(count: Option<string>, rest: string)
    requires rest != ""
    ensures CountText(count) + rest != "" && (CountText(count) + rest)[0] == if count.Some? then ',' else rest[0]
  {
  }

  lemma BlankThen(s: string, i: nat, b: bool, c: char, rest: string)
    requires RestIs(s, i, Blank(b) + ([c] + rest)) && c != ' '
    ensures At(s, SkipBlank(s, i)) == c && SkipBlank(s, i) < |s| && RestIs(s, SkipBlank(s, i) + 1, rest)
  {
    SkipText(s, i, Blank(b), [c] + rest);
    RestChar(s, i, Blank(b) + ([c] + rest));
    var j := i + |Blank(b)|;
    RestChar(s, j, [c] + rest);
    SkipText(s, j, [c], rest);
  }

  lemma EndStarts(b: bool, c: char, rest: string)
    ensures var x := Blank(b) + ([c] + rest); x != "" && (x[0] == ' ' || x[0] == c)
  {
  }

  /** Every header of this form is read: blanks and counts of 1 may be left out, numbers may
      have leading zeros, and anything may follow. It is refused only for its line numbers. */
  lemma HeaderReads(t: HeaderText)
    requires Regular(t)
    ensures var s, h := Spell(t), Numbers(t);
            && |s| >= 4 && s[..4] == "@@ -"
            && HeaderOf(s) == if InRange(h.first, h.ptrn, h.newfirst, h.repl) then Some(h) else None
  {
    hide RangeOf, AllDigits, Num, CountText, RestIs, SkipBlank, Blank, At, OldText, NewText, EndText;
    var s := Spell(t);
    SpellStarts(t);
    OldReads(s, t);
    var a := RangeOf(s, 4).value;
    NewReads(s, SkipBlank(s, a.next) + 1, t);
  }

  lemma SpellStarts(t: HeaderText)
    ensures var s := Spell(t); |s| >= 4 && s[..4] == "@@ -" && RestIs(s, 4, OldText(t))
  {
    hide OldText;
  }

  lemma OldReads(s: string, t: HeaderText)
    requires Regular(t) && |s| >= 4 && RestIs(s, 4, OldText(t))
    ensures var a := RangeOf(s, 4);
            && a.Some? && a.value.first == Num(t.first) && a.value.count == CountOf(t.count)
            && var i := SkipBlank(s, a.value.next); i < |s| && At(s, i) == '+' && RestIs(s, i + 1, NewText(t))
  {
    hide RangeOf, AllDigits, Num, CountText, RestIs, SkipBlank, Blank, At, NewText;
    EndStarts(t.blank, '+', NewText(t));
    RangeReads(s, 4, t.first, t.count, Blank(t.blank) + ("+" + NewText(t)));
    BlankThen(s, RangeOf(s, 4).value.next, t.blank, '+', NewText(t));
  }

  lemma NewReads(s: string, j: nat, t: HeaderText)
    requires Regular(t) && j <= |s| && RestIs(s, j, NewText(t))
    ensures var b := RangeOf(s, j);
            && b.Some? && b.value.first == Num(t.newfirst) && b.value.count == CountOf(t.newcount)
            && At(s, SkipBlank(s, b.value.next)) == '@'
  {
    hide RangeOf, AllDigits, Num, CountText, RestIs, SkipBlank, Blank, At;
    EndStarts(t.blank', '@', t.rest);
    RangeReads(s, j, t.newfirst, t.newcount, Blank(t.blank') + ("@" + t.rest));
    BlankThen(s, RangeOf(s, j).value.next, t.blank', '@', t.rest);
  }

  lemma Cut(s: string, a: nat, b: nat)
    requires a <= b <= |s|
    ensures s[a..] == s[a..b] + s[b..]
  {
  }

  lemma DigitsAt(s: string, i: nat)
    requires i <= |s|
    ensures var d := s[i..DigitsEnd(s, i)]; AllDigits(d) && (d != "" ==> AtolAt(s, i) == Num(d))
  {
    var j := DigitsEnd(s, i);
    Cut(s, i, j);
    DigitsThenRest(s, i, s[i..j], s[j..]);
  }

  /** What a range was read from. */
  lemma RangeForm(s: string, i: nat) returns (first: string, count: Option<string>)
    requires i <= |s| && RangeOf(s, i).Some?
    ensures AllDigits(first) && (count.Some? ==> AllDigits(count.value))
    ensures var r := RangeOf(s, i).value;
            && s[i..r.next] == first + CountText(count)
            && (first != "" ==> r.first == Num(first)) && (count.None? ==> r.count == 1)
            && (count.Some? && count.value != "" ==> r.count == Num(count.value))
  {
    hide AtolAt, DigitsEnd, Num, AllDigits;
    var j := DigitsEnd(s, i);
    first := s[i..j];
    DigitsAt(s, i);
    if At(s, j) != ',' {
      count := None;
      Empty(first);
    } else {
      var e := DigitsEnd(s, j + 1);
      count := Some(s[j + 1..e]);
      DigitsAt(s, j + 1);
      CommaBetween(s, i, j, e);
    }
  }

  lemma CommaBetween(s: string, i: nat, j: nat, e: nat)
    requires i <= j < e <= |s| && s[j] == ','
    ensures s[i..e] == s[i..j] + ("," + s[j + 1..e])
  {
  }

  /** Whatever is accepted has this form, with the numbers it stands for. */
  lemma HeaderForm(s: string) returns (t: HeaderText)
    requires |s| >= 4 && s[..4] == "@@ -" && HeaderOf(s).Some?
    ensures s == Spell(t) && Digital(t)
    ensures Regular(t) ==> HeaderOf(s).value == Numbers(t)
    ensures var h := HeaderOf(s).value; InRange(h.first, h.ptrn, h.newfirst, h.repl)
  {
    hide RangeOf, AllDigits, Num, CountText, Blank, Spell;
    var a := RangeOf(s, 4).value;
    var i := SkipBlank(s, a.next);
    var b := RangeOf(s, i + 1).value;
    var k := SkipBlank(s, b.next);
    var first, count := RangeForm(s, 4);
    var newfirst, newcount := RangeForm(s, i + 1);
    t := HeaderText(first, count, i > a.next, newfirst, newcount, k > b.next, s[k + 1..]);
    SpellsLine(s, t, a.next, i, b.next, k);
  }

  lemma SpellsLine(s: string, t: HeaderText, a: nat, i: nat, b: nat, k: nat)
    requires 4 <= a <= i < b <= k < |s| && i == SkipBlank(s, a) && k == SkipBlank(s, b)
    requires s[..4] == "@@ -" && s[i] == '+' && s[k] == '@' && t.rest == s[k + 1..]
    requires s[4..a] == t.first + CountText(t.count) && t.blank == (i > a)
    requires s[i + 1..b] == t.newfirst + CountText(t.newcount) && t.blank' == (k > b)
    ensures s == Spell(t)
  {
    hide CountText, Blank, SkipBlank, EndText, NewText, OldText;
    assert s[b..] == EndText(t) by { EndSpelled(s, t, b, k); }
    assert s[i + 1..] == NewText(t) by { NewSpelled(s, t, i, b); }
    assert s[4..] == OldText(t) by { OldSpelled(s, t, a, i); }
    assert s == s[..4] + s[4..];
  }

  lemma EndSpelled(s: string, t: HeaderText, b: nat, k: nat)
    requires b <= k < |s| && k == SkipBlank(s, b) && s[k] == '@' && t.rest == s[k + 1..] && t.blank' == (k > b)
    ensures s[b..] == EndText(t)
  {
    Pieces(s, b, k, '@');
    hide Blank;
  }

  lemma NewSpelled(s: string, t: HeaderText, i: nat, b: nat)
    requires i < b <= |s| && s[i + 1..b] == t.newfirst + CountText(t.newcount) && s[b..] == EndText(t)
    ensures s[i + 1..] == NewText(t)
  {
    hide CountText, EndText;
    Cut(s, i + 1, b);
  }

  lemma OldSpelled(s: string, t: HeaderText, a: nat, i: nat)
    requires 4 <= a <= i < |s| && i == SkipBlank(s, a) && s[i] == '+' && t.blank == (i > a)
    requires s[4..a] == t.first + CountText(t.count) && s[i + 1..] == NewText(t)
    ensures s[4..] == OldText(t)
  {
    Pieces(s, a, i, '+');
    hide CountText, NewText, Blank, SkipBlank;
    Cut(s, 4, a);
  }

  /** A blank or none, and a character. */
  lemma Pieces(s: string, a: nat, i: nat, c: char)
    requires a <= i < |s| && i == SkipBlank(s, a) && s[i] == c
    ensures s[a..] == Blank(i > a) + ([c] + s[i + 1..])
  {
    if i > a {
      assert s[a] == ' ';
    }
  }

  // ----- the body

  /** A line such as "\ No newline at end of file". */
  predicate IsSpecial(lines: seq<string>, pos: nat)
  {
    pos < |lines| && IsNote(lines[pos])
  }

  predicate IsNote(line: string) { line != [] && line[0] == '\\' }

  /** The body line that a line stands for: an empty line or one that begins with a tab is
      context that has lost its blank, and = is another blank. */
  function Normal(raw: string): (r: Option<string>)
    ensures r.Some? ==> |r.value| >= 1 && IsTag(r.value[0]) && !IsNote(raw)
  {
    if raw == [] || raw[0] == '\t' then Some([' '] + raw)
    else if IsTag(raw[0]) then Some(raw)
    else if raw[0] == '=' then Some([' '] + raw[1..])
    else None
  }

  /** The position after a "\" line. */
  function SkipNote(lines: seq<string>, pos: nat): (r: nat)
    ensures pos <= r <= pos + 1 && (pos <= |lines| ==> r <= |lines|)
  {
    if IsSpecial(lines, pos) then pos + 1 else pos
  }

  /** A "\" line is looked for after each line that leaves no old lines to read, twice if
      that is a context line. */
  function SkipNotes(lines: seq<string>, pos: nat, tag: char, o: int): (r: nat)
    ensures pos <= r && (pos <= |lines| ==> r <= |lines|)
  {
    if o > 0 then pos else if tag == ' ' then SkipNote(lines, SkipNote(lines, pos)) else SkipNote(lines, pos)
  }

  function Less(k: int, tag: char, skip: char): int { if tag == skip then k else k - 1 }

  datatype Lines = Lines(body: seq<string>, next: nat)

  ghost function Consed(line: string, r: Option<Lines>): Option<Lines>
  {
    if r.None? then None else Some(Lines([line] + r.value.body, r.value.next))
  }

  /** The line read at a position; past the end of the patch blank lines are made up, if no
      more than three new lines are missing. */
  function LineAt(lines: seq<string>, pos: nat, n: int): Option<string>
  {
    if pos < |lines| then Some(lines[pos]) else if n <= 3 then Some(" ") else None
  }

  /** Reading until there are o more old and n more new lines. */
  ghost function BodyOf(lines: seq<string>, pos: nat, o: nat, n: nat): (r: Option<Lines>)
    decreases o + n
  {
    if o == 0 && n == 0 then Some(Lines([], pos))
    else
      var raw := LineAt(lines, pos, n);
      if raw.None? || Normal(raw.value).None? then None
      else
        var line := Normal(raw.value).value;
        var o', n' := Less(o, line[0], '+'), Less(n, line[0], '-');
        if o' < 0 || n' < 0 then None
        else
          var next := SkipNotes(lines, if pos < |lines| then pos + 1 else pos, line[0], o');
          Consed(line, BodyOf(lines, next, o', n'))
  }

  /** One line of the body. */
  lemma BodyNext(lines: seq<string>, pos: nat, o: nat, n: nat, raw: string)
    requires (o > 0 || n > 0) && LineAt(lines, pos, n) == Some(raw)
    ensures var line := Normal(raw);
            if line.None? || Less(o, line.value[0], '+') < 0 || Less(n, line.value[0], '-') < 0 then
              BodyOf(lines, pos, o, n).None?
            else
              var o', n' := Less(o, line.value[0], '+'), Less(n, line.value[0], '-');
              var next := SkipNotes(lines, if pos < |lines| then pos + 1 else pos, line.value[0], o');
              BodyOf(lines, pos, o, n) == Consed(line.value, BodyOf(lines, next, o', n'))
  {
  }

  /** What a text of body lines stands for, without its "\" lines. */
  ghost function Plain(raw: seq<string>): seq<string>
  {
    if raw == [] then []
    else (if Normal(raw[0]).Some? then [Normal(raw[0]).value] else []) + Plain(raw[1..])
  }

  ghost function Blanks(k: nat): seq<string> { if k == 0 then [] else [" "] + Blanks(k - 1) }

  lemma SideFirst(line: string, body: seq<string>, skip: char)
    requires |line| >= 1 && IsTag(line[0]) && IsBody(body)
    ensures IsBody([line] + body)
    ensures |Side([line] + body, skip)| == |Side(body, skip)| + if line[0] == skip then 0 else 1
  {
    assert ([line] + body)[1..] == body;
  }

  /** What is read is a body with the right number of lines on both sides. */
  lemma {:induction false} BodyCounts(lines: seq<string>, pos: nat, o: nat, n: nat)
    requires BodyOf(lines, pos, o, n).Some?
    ensures var r := BodyOf(lines, pos, o, n).value;
            && IsBody(r.body) && |OldSide(r.body)| == o && |NewSide(r.body)| == n
            && pos <= r.next && (pos <= |lines| ==> r.next <= |lines|)
    decreases o + n
  {
    hide IsBody, Side, SkipNotes, Normal;
    if o != 0 || n != 0 {
      var line := Normal(LineAt(lines, pos, n).value).value;
      var o', n' := Less(o, line[0], '+'), Less(n, line[0], '-');
      var next := SkipNotes(lines, if pos < |lines| then pos + 1 else pos, line[0], o');
      BodyCounts(lines, next, o', n');
      var body := BodyOf(lines, next, o', n').value.body;
      SideFirst(line, body, '+');
      SideFirst(line, body, '-');
    } else {
      NothingRead();
    }
  }

  lemma NothingRead()
    ensures IsBody([]) && Side([], '+') == [] && Side([], '-') == []
  {
  }

  lemma {:induction false} PlainConcat(x: seq<string>, y: seq<string>)
    ensures Plain(x + y) == Plain(x) + Plain(y)
  {
    if x == [] {
      Empty(y);
      Empty(Plain(y));
    } else {
      Head(x, y);
      PlainConcat(x[1..], y);
      Assoc(if Normal(x[0]).Some? then [Normal(x[0]).value] else [], Plain(x[1..]), Plain(y));
    }
  }

  lemma PlainNote(lines: seq<string>, pos: nat)
    requires pos <= |lines|
    ensures Plain(lines[pos..SkipNote(lines, pos)]) == []
  {
    if IsSpecial(lines, pos) {
      assert lines[pos..pos + 1] == [lines[pos]];
      assert Normal(lines[pos]).None?;
    }
  }

  lemma PlainNotes(lines: seq<string>, pos: nat, tag: char, o: int)
    requires pos <= |lines|
    ensures Plain(lines[pos..SkipNotes(lines, pos, tag, o)]) == []
  {
    hide SkipNote;
    if o <= 0 {
      PlainNote(lines, pos);
      var p := SkipNote(lines, pos);
      if tag == ' ' {
        PlainNote(lines, p);
        var q := SkipNote(lines, p);
        assert lines[pos..q] == lines[pos..p] + lines[p..q];
        PlainConcat(lines[pos..p], lines[p..q]);
      }
    }
  }

  lemma PlainFirst(raw: string)
    requires Normal(raw).Some?
    ensures Plain([raw]) == [Normal(raw).value]
  {
    assert [raw][1..] == [];
  }

  lemma PlainNothing(lines: seq<string>, pos: nat)
    requires pos <= |lines|
    ensures Plain(lines[pos..pos]) == [] && Plain(lines[pos..pos]) + Blanks(0) == []
  {
  }

  /** A line and the "\" lines after it. */
  lemma PlainLine(lines: seq<string>, pos: nat, tag: char, o: int, end: nat)
    requires pos < |lines| && Normal(lines[pos]).Some? && SkipNotes(lines, pos + 1, tag, o) <= end <= |lines|
    ensures var next := SkipNotes(lines, pos + 1, tag, o);
            Plain(lines[pos..end]) == [Normal(lines[pos]).value] + Plain(lines[next..end])
  {
    hide SkipNotes, Normal, Plain;
    var next := SkipNotes(lines, pos + 1, tag, o);
    var x, y, z := [lines[pos]], lines[pos + 1..next], lines[next..end];
    assert lines[pos..end] == x + y + z;
    PlainConcat(x + y, z);
    PlainConcat(x, y);
    PlainFirst(lines[pos]);
    PlainNotes(lines, pos + 1, tag, o);
    Empty(Plain(x));
  }

  /** The body is what the lines read stand for, one for one; at the end of the patch up to
      three blank lines may be made up. */
  lemma {:induction false} BodySound(lines: seq<string>, pos: nat, o: nat, n: nat) returns (k: nat)
    requires BodyOf(lines, pos, o, n).Some? && pos <= |lines|
    ensures pos <= BodyOf(lines, pos, o, n).value.next <= |lines|
    ensures var r := BodyOf(lines, pos, o, n).value;
            r.body == Plain(lines[pos..r.next]) + Blanks(k) && (k > 0 ==> r.next == |lines|) && k <= 3
    ensures pos == |lines| ==> k == |BodyOf(lines, pos, o, n).value.body| <= n
    decreases o + n
  {
    hide SkipNotes, Normal, Plain, IsBody, OldSide, NewSide;
    BodyCounts(lines, pos, o, n);
    var r := BodyOf(lines, pos, o, n).value;
    if o == 0 && n == 0 {
      k := 0;
      PlainNothing(lines, pos);
    } else {
      var line := Normal(LineAt(lines, pos, n).value).value;
      var o', n' := Less(o, line[0], '+'), Less(n, line[0], '-');
      if pos < |lines| {
        var next := SkipNotes(lines, pos + 1, line[0], o');
        k := BodySound(lines, next, o', n');
        PlainLine(lines, pos, line[0], o', r.next);
        Assoc([line], Plain(lines[next..r.next]), Blanks(k));
      } else {
        k := MadeUp(lines, o, n);
        PlainNothing(lines, pos);
      }
    }
  }

  lemma AtEnd(lines: seq<string>, tag: char, o: int)
    ensures SkipNotes(lines, |lines|, tag, o) == |lines| && Normal(" ") == Some(" ")
  {
  }

  lemma {:induction false} MadeUp(lines: seq<string>, o: nat, n: nat) returns (k: nat)
    requires BodyOf(lines, |lines|, o, n).Some?
    ensures BodyOf(lines, |lines|, o, n) == Some(Lines(Blanks(k), |lines|)) && k == n <= 3
    ensures lines[|lines|..|lines|] == []
    decreases o + n
  {
    hide SkipNotes, Normal;
    k := 0;
    if o != 0 || n != 0 {
      AtEnd(lines, ' ', o - 1);
      k := MadeUp(lines, o - 1, n - 1);
      k := k + 1;
    }
  }

  /** raw spells the body: each line in one of its forms, and where there are no more old
      lines to come one "\" line may follow it. */
  ghost predicate Spells(raw: seq<string>, body: seq<string>, o: int, n: int)
    decreases |body|
  {
    if body == [] then raw == [] && o == n == 0
    else
      && raw != [] && Normal(raw[0]) == Some(body[0])
      && var o', n' := Less(o, body[0][0], '+'), Less(n, body[0][0], '-');
         && o' >= 0 && n' >= 0
         && (Spells(raw[1..], body[1..], o', n')
             || (o' == 0 && |raw| >= 2 && IsNote(raw[1]) && Spells(raw[2..], body[1..], o', n')))
  }

  lemma SpellsNoNote(raw: seq<string>, body: seq<string>, o: int, n: int)
    requires Spells(raw, body, o, n)
    ensures raw != [] ==> !IsNote(raw[0])
    ensures body != [] ==> o > 0 || n > 0
  {
  }

  /** Every such text is read as the body it spells. */
  lemma {:induction false} BodyComplete(lines: seq<string>, pos: nat, raw: seq<string>, body: seq<string>, o: nat,
                                        n: nat)
    requires pos + |raw| <= |lines| && lines[pos..pos + |raw|] == raw && Spells(raw, body, o, n)
    requires !IsSpecial(lines, pos + |raw|)
    ensures BodyOf(lines, pos, o, n) == Some(Lines(body, pos + |raw|))
    decreases |body|
  {
    if body != [] {
      hide Normal;
      SpellsNoNote(raw, body, o, n);
      var o', n' := Less(o, body[0][0], '+'), Less(n, body[0][0], '-');
      assert lines[pos] == raw[0];
      var noted := !Spells(raw[1..], body[1..], o', n');
      var rest := if noted then raw[2..] else raw[1..];
      var next := if noted then pos + 2 else pos + 1;
      assert lines[next..next + |rest|] == rest;
      SpellsNoNote(rest, body[1..], o', n');
      assert noted ==> lines[pos + 1] == raw[1];
      assert rest != [] ==> lines[next] == rest[0];
      BodyComplete(lines, next, rest, body[1..], o', n');
      assert SkipNotes(lines, pos + 1, body[0][0], o') == next;
      assert [body[0]] + body[1..] == body;
    }
  }

  /** The plain spelling of a body is one. */
  lemma {:induction false} SpellsItself(body: seq<string>)
    requires IsBody(body)
    ensures Spells(body, body, |OldSide(body)|, |NewSide(body)|)
  {
    if body != [] {
      SpellsItself(body[1..]);
    }
  }

  // ----- a whole hunk

  /** What comes next in the patch: no hunk, something that is refused, or a hunk. */
  datatype Reading = NoHunk | Refused | Got(first: int, newfirst: int, body: seq<string>, next: nat)

  predicate IsStart(line: string) { |line| >= 4 && line[..4] == "@@ -" }

  /** A hunk without old lines is moved to the line after. */
  ghost function HunkOf(lines: seq<string>, pos: nat): Reading
  {
    if pos >= |lines| || !IsStart(lines[pos]) then NoHunk
    else
      var h := HeaderOf(lines[pos]);
      if h.None? then Refused
      else
        var b := BodyOf(lines, pos + 1, h.value.ptrn, h.value.repl);
        if b.None? then Refused
        else Got(if h.value.ptrn == 0 then h.value.first + 1 else h.value.first, h.value.newfirst,
                 b.value.body, b.value.next)
  }

  /** The first line of a range in its printed form. */
  function RangeFirst(low: int, up: int): int { if low <= up then low else up }

  /** The next lines of the patch are the text of this hunk. */
  ghost predicate HunkAt(lines: seq<string>, pos: nat, h: Hunk)
  {
    && 1 <= h.lowa <= h.upb + 1 && 1 <= h.lowc <= h.upd + 1
    && pos < |lines| && lines[pos] == Header(h)
    && pos + 1 + |h.body| <= |lines| && lines[pos + 1..pos + 1 + |h.body|] == h.body
    && !IsSpecial(lines, pos + 1 + |h.body|)
    && IsBody(h.body) && |OldSide(h.body)| == h.upb - h.lowa + 1 && |NewSide(h.body)| == h.upd - h.lowc + 1
    && InRange(RangeFirst(h.lowa, h.upb), h.upb - h.lowa + 1, RangeFirst(h.lowc, h.upd), h.upd - h.lowc + 1)
  }

  ghost function RangeParts(a: int, b: int): (r: (string, Option<string>))
    requires 1 <= a <= b + 1
  {
    (Dec(RangeFirst(a, b)), if a == b then None else Some(Dec(b - a + 1)))
  }

  lemma RangeIs(a: int, b: int)
    requires 1 <= a <= b + 1
    ensures var r := RangeParts(a, b);
            && UniRange(a, b) == r.0 + CountText(r.1)
            && AllDigits(r.0) && r.0 != "" && (r.1.Some? ==> AllDigits(r.1.value) && r.1.value != "")
            && Num(r.0) == RangeFirst(a, b) && CountOf(r.1) == b - a + 1
  {
    hide Dec, Num, AllDigits, UniRange;
    DecFacts(RangeFirst(a, b));
    DecFacts(b - a + 1);
    RangeSplit(a, b);
  }

  lemma DecFacts(n: nat)
    ensures AllDigits(Dec(n)) && Dec(n) != "" && Num(Dec(n)) == n
  {
    NumOfDec(n);
    hide Num;
  }

  lemma RangeSplit(a: int, b: int)
    requires 1 <= a <= b + 1
    ensures UniRange(a, b) == Dec(RangeFirst(a, b)) + if a == b then "" else "," + Dec(b - a + 1)
  {
    ZeroText();
    hide Dec;
    if a == b {
      Empty(Dec(b));
    } else if a < b {
      Assoc(Dec(a), ",", Dec(b - a + 1));
    }
  }

  lemma ZeroText()
    ensures Dec(0) == "0"
  {
  }

  ghost function PrintedHeader(h: Hunk): HeaderText
    requires 1 <= h.lowa <= h.upb + 1 && 1 <= h.lowc <= h.upd + 1
  {
    var x, y := RangeParts(h.lowa, h.upb), RangeParts(h.lowc, h.upd);
    HeaderText(x.0, x.1, true, y.0, y.1, true, "@")
  }

  lemma HeaderIs(h: Hunk)
    requires 1 <= h.lowa <= h.upb + 1 && 1 <= h.lowc <= h.upd + 1
    ensures var t := PrintedHeader(h);
            && Header(h) == Spell(t) && Regular(t)
            && Numbers(t) == Ranges(RangeFirst(h.lowa, h.upb), h.upb - h.lowa + 1, RangeFirst(h.lowc, h.upd),
                                    h.upd - h.lowc + 1)
  {
    RangeIs(h.lowa, h.upb);
    RangeIs(h.lowc, h.upd);
    hide UniRange, RangeParts, CountText, Num, AllDigits, RangeFirst;
    var x, y := UniRange(h.lowa, h.upb), UniRange(h.lowc, h.upd);
    HeaderParts(x, y);
  }

  lemma HeaderParts(x: string, y: string)
    ensures "@@ -" + x + " +" + y + " @@" == "@@ -" + (x + (" " + ("+" + (y + (" " + ("@" + "@"))))))
  {
    var z := y + " @@";
    assert " @@" == " " + ("@" + "@");
    assert " +" + z == " " + ("+" + z);
    Assoc("@@ -" + x + " +", y, " @@");
    Assoc("@@ -" + x, " +", z);
    Assoc("@@ -", x, " +" + z);
  }

  /** A hunk that diff printed is read back as it is. */
  lemma PrintedIsRead(lines: seq<string>, pos: nat, h: Hunk)
    requires HunkAt(lines, pos, h)
    ensures HunkOf(lines, pos) == Got(h.lowa, RangeFirst(h.lowc, h.upd), h.body, pos + 1 + |h.body|)
  {
    hide Header, Spell, Regular, Numbers, HeaderOf, BodyOf, IsBody, OldSide, NewSide, Spells, IsSpecial;
    HeaderIs(h);
    HeaderReads(PrintedHeader(h));
    SpellsItself(h.body);
    BodyComplete(lines, pos + 1, h.body, h.body, h.upb - h.lowa + 1, h.upd - h.lowc + 1);
  }

  // ----- a whole patch

  /** All hunks of a patch from a position on; ended if nothing is refused. */
  datatype Hunks = Hunks(hunks: seq<Reading>, ended: bool)

  ghost function HunksOf(lines: seq<string>, pos: nat): (r: Hunks)
    ensures forall k :: 0 <= k < |r.hunks| ==> r.hunks[k].Got?
    decreases |lines| - pos
  {
    var g := HunkOf(lines, pos);
    if !g.Got? then Hunks([], g.NoHunk?)
    else
      HunkAdvances(lines, pos);
      var rest := HunksOf(lines, g.next);
      Hunks([g] + rest.hunks, rest.ended)
  }

  lemma HunkAdvances(lines: seq<string>, pos: nat)
    ensures var g := HunkOf(lines, pos); g.Got? ==> pos < g.next <= |lines| && IsBody(g.body)
  {
    var g := HunkOf(lines, pos);
    if g.Got? {
      var h := HeaderOf(lines[pos]).value;
      BodyCounts(lines, pos + 1, h.ptrn, h.repl);
    }
  }
}
