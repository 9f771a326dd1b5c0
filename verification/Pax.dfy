/**
 Extended header records of cmd/posix/pax.c (the "pax Extended Header" section of the
 POSIX.1-2017 pax utility): "LEN KEY=VALUE\n", where LEN counts the whole record with its
 own digits.
 */
module Pax {
  import opened Basics
  import opened Decimal
  import opened SeqFacts

  datatype Pair = Pair(key: string, val: string)

  function Payload(p: Pair): string { p.key + "=" + p.val }

  const NUL: char := '\0'

  /** What %s prints: everything before the first NUL. */
  function CStr(s: string): (r: string)
    ensures r <= s && NUL !in r && (r == s <==> NUL !in s)
  {
    s[..Find(s, NUL, NUL)]
  }

  /** The pair that reaches the archive. */
  function Cut(p: Pair): Pair { Pair(CStr(p.key), CStr(p.val)) }

  function CutAll(ps: seq<Pair>): (qs: seq<Pair>)
    ensures |qs| == |ps| && forall k :: 0 <= k < |ps| ==> qs[k] == Cut(ps[k])
  {
    seq(|ps|, k requires 0 <= k < |ps| => Cut(ps[k]))
  }

  /** r is a record that says its own length. */
  ghost predicate IsRecord(r: string, payload: string)
  {
    exists n: nat :: r == Dec(n) + " " + payload + "\n" && n == |r|
  }

  /** text is one record after another. */
  ghost predicate IsHeader(text: string, ps: seq<Pair>)
  {
    if ps == [] then text == ""
    else exists i :: 0 <= i <= |text| && IsRecord(text[..i], Payload(ps[0])) && IsHeader(text[i..], ps[1..])
  }

  // ----- writing

  const INT_MAX: int := 0x7fff_ffff

  /** Payloads from this length on make writerec overflow an int. */
  const TOO_LONG: int := 1_000_000_000

  /** The loop of writerec: d is the number of digits of l, 0 having none, and m the next
      power of 10, unless it is not an int. */
  method CountDigits(l: nat) returns (ok: bool, d: nat, m: nat)
    ensures ok <==> l < TOO_LONG
    ensures ok ==> m == Pow10(d) <= INT_MAX && l < m && (d > 0 ==> Pow10(d - 1) <= l)
  {
    hide Pow10, Between;
    ok, d, m := true, 0, 1;
    var n := l;
    Starts(l);
    while n > 0
      invariant m == Pow10(d) <= INT_MAX && Between(n, m, l) && (d > 0 && n == 0 ==> Pow10(d - 1) <= l)
      decreases n
    {
      if m > INT_MAX / 10 {
        Overflows(n, d, l);
        return false, d, m;
      }
      NextDigit(n, m, l);
      PowNext(d);
      n := n / 10;
      m := m * 10;
      d := d + 1;
    }
    Ends(m, l);
    FitsInt(d, l);
  }

  lemma Overflows(n: nat, d: nat, l: nat)
    requires n > 0 && Between(n, Pow10(d), l) && Pow10(d) > INT_MAX / 10
    ensures l >= TOO_LONG
  {
    assert Pow10(8) == 100_000_000 && Pow10(9) == TOO_LONG;
    Grows(1, n, Pow10(d));
    if d < 8 {
      Pow10Monotone(d, 8);
    } else if d > 9 {
      Pow10Monotone(9, d);
    }
  }

  /** l begins with n, m being the power of 10 of the digits that are gone. */
  predicate Between(n: int, m: int, l: int) { n * m <= l < n * m + m }

  lemma Starts(l: nat)
    ensures Between(l, 1, l) && Pow10(0) == 1
  {
  }

  lemma Ends(m: int, l: int)
    requires Between(0, m, l)
    ensures l < m
  {
  }

  lemma PowNext(d: nat)
    ensures Pow10(d + 1) == 10 * Pow10(d)
  {
  }

  lemma NextDigit(n: nat, m: nat, l: nat)
    requires n > 0 && m > 0 && Between(n, m, l)
    ensures Between(n / 10, m * 10, l) && (n / 10 == 0 ==> m <= l)
  {
    var q, r := n / 10, n % 10;
    Places(q, r, m);
    Grows(r, 9, m);
    Grows(1, n, m);
    Grows(0, r, m);
  }

  lemma Places(q: int, r: int, m: int)
    ensures (10 * q + r) * m == q * (m * 10) + r * m
  {
  }

  lemma Grows(a: int, b: int, m: int)
    requires a <= b && m >= 0
    ensures a * m <= b * m
  {
  }

  /** The least power of 10 above l is an int exactly for l below 10^9. */
  lemma FitsInt(d: nat, l: nat)
    requires l < Pow10(d) && (d > 0 ==> Pow10(d - 1) <= l)
    ensures Pow10(d) <= INT_MAX <==> l < TOO_LONG
  {
    assert Pow10(9) == TOO_LONG && Pow10(10) == 10_000_000_000;
    if d > 10 {
      Pow10Monotone(10, d);
      if d > 11 {
        Pow10Monotone(10, d - 1);
      }
    } else if d < 9 {
      Pow10Monotone(d, 9);
    }
  }

  lemma {:induction false} DigitsAreFew(d: nat)
    ensures d + 3 <= 9 * Pow10(d)
  {
    if d > 0 {
      DigitsAreFew(d - 1);
    }
  }

  /** The length that writerec prints is the length of the record, for every payload. */
  lemma LengthIsRight(l: nat, d: nat, n: nat)
    requires l < Pow10(d) && (d > 0 ==> Pow10(d - 1) <= l)
    requires n == d + 1 + l + 1 + (if d + 1 + l + 1 >= Pow10(d) then 1 else 0)
    ensures n == |Dec(n)| + 1 + l + 1
  {
    DigitsAreFew(d);
    DecLengthIs(n, if d + 1 + l + 1 >= Pow10(d) then d + 1 else d);
  }

  /** writerec can count the record of p. */
  predicate Fits(p: Pair) { |Payload(Cut(p))| < TOO_LONG }

  /** A record is appended. Both %s of the format and the final %.*s stop at a NUL; from
      10^9 characters on the count is no longer an int, and nothing is promised. */
  method WriteRec(ext: string, p: Pair) returns (ok: bool, ext': string)
    ensures ok <==> Fits(p)
    ensures ok ==> ext <= ext' && IsRecord(ext'[|ext|..], Payload(Cut(p)))
  {
    hide Pow10;
    var buf := CStr(p.key) + "=" + CStr(p.val);
    var l := |buf|;
    var d, m;
    ok, d, m := CountDigits(l);
    if !ok {
      return false, ext;
    }
    var n := d + 1 + l + 1;
    if n >= m {
      n := n + 1;
    }
    LengthIsRight(l, d, n);
    var r := Dec(n) + " " + CStr(buf[..l]) + "\n";
    assert CStr(buf[..l]) == buf;
    ext' := ext + r;
    assert ext'[|ext|..] == r;
  }

  lemma {:induction false} HeaderAppend(text: string, ps: seq<Pair>, r: string, p: Pair)
    requires IsHeader(text, ps) && IsRecord(r, Payload(p))
    ensures IsHeader(text + r, ps + [p])
    decreases |ps|
  {
    hide IsRecord;
    var qs := ps + [p];
    if ps == [] {
      assert qs[1..] == [] && text + r == r && r[..|r|] == r && r[|r|..] == "";
    } else {
      var i :| 0 <= i <= |text| && IsRecord(text[..i], Payload(ps[0])) && IsHeader(text[i..], ps[1..]);
      HeaderAppend(text[i..], ps[1..], r, p);
      assert (text + r)[..i] == text[..i] && (text + r)[i..] == text[i..] + r && qs[1..] == ps[1..] + [p];
    }
  }

  ghost predicate AllFit(ps: seq<Pair>) { forall k :: 0 <= k < |ps| ==> Fits(ps[k]) }

  /** The records of a header, one after another. */
  method WriteRecords(ps: seq<Pair>) returns (ok: bool, ext: string)
    ensures ok <==> AllFit(ps)
    ensures ok ==> IsHeader(ext, CutAll(ps))
  {
    hide IsHeader, IsRecord, Fits, Payload, Cut;
    ok, ext := true, "";
    NoRecords();
    for i := 0 to |ps|
      invariant IsHeader(ext, CutAll(ps)[..i]) && forall k :: 0 <= k < i ==> Fits(ps[k])
    {
      ghost var before, qs := ext, CutAll(ps);
      ok, ext := WriteRec(ext, ps[i]);
      if !ok {
        return;
      }
      HeaderAppend(before, qs[..i], ext[|before|..], qs[i]);
      assert ext == before + ext[|before|..];
      assert qs[..i + 1] == qs[..i] + [qs[i]];
    }
    ok := true;
    assert CutAll(ps)[..|ps|] == CutAll(ps);
  }

  lemma NoRecords()
    ensures IsHeader("", [])
  {
  }

  // ----- reading

  /** The first place where one of two characters is, or the end. */
  function Find(s: string, c: char, d: char): (k: nat)
    ensures k <= |s| && (k < |s| ==> s[k] == c || s[k] == d) && forall i :: 0 <= i < k ==> s[i] != c && s[i] != d
  {
    if s == "" || s[0] == c || s[0] == d then 0 else 1 + Find(s[1..], c, d)
  }

  function DigitsEnd(s: string): (k: nat)
    ensures k <= |s| && (k < |s| ==> !IsDigit(s[k])) && AllDigits(s[..k])
  {
    if s == "" || !IsDigit(s[0]) then 0 else 1 + DigitsEnd(s[1..])
  }

  /** The record before the first newline. */
  ghost function ReadRecord(rec: string): Option<Pair>
  {
    var k := DigitsEnd(rec);
    if k == |rec| || rec[k] != ' ' || Num(rec[..k]) != |rec| + 1 then None
    else
      var body := rec[k + 1..];
      var v := Find(body, '=', NUL);
      if v == |body| || body[v] == NUL then None else Some(Pair(body[..v], body[v + 1..]))
  }

  ghost function ReadAll(s: string): Option<seq<Pair>>
    decreases |s|
  {
    if s == "" then Some([])
    else
      var e := Find(s, '\n', '\n');
      if e == |s| then None
      else
        var p, more := ReadRecord(s[..e]), ReadAll(s[e + 1..]);
        if p.None? || more.None? then None else Some([p.value] + more.value)
  }

  /** memchr and strchr: where c, or else d, is first. */
  method Search(buf: array<char>, from: nat, to: nat, c: char, d: char) returns (k: nat)
    requires from <= to <= buf.Length
    ensures from <= k <= to && k - from == Find(buf[from..to], c, d)
  {
    k := from;
    while k < to && buf[k] != c && buf[k] != d
      invariant from <= k <= to && Find(buf[from..to], c, d) == k - from + Find(buf[k..to], c, d)
    {
      assert buf[k..to][1..] == buf[k + 1..to];
      k := k + 1;
    }
  }

  lemma {:induction false} ScanEnd(s: string, j: nat)
    requires j <= |s| && AllDigits(s[..j]) && (j < |s| ==> !IsDigit(s[j]))
    ensures DigitsEnd(s) == j
  {
    var k := DigitsEnd(s);
    assert forall i :: 0 <= i < j ==> s[i] == s[..j][i];
    assert forall i :: 0 <= i < k ==> s[i] == s[..k][i];
  }

  /** One record, from rec to the newline at end; its separators are overwritten. */
  method TakeRecord(buf: array<char>, rec: nat, end: nat) returns (ok: bool, p: Pair)
    requires rec <= end < buf.Length
    modifies buf
    ensures ok == old(ReadRecord(buf[rec..end])).Some? && (ok ==> p == old(ReadRecord(buf[rec..end])).value)
    ensures buf[end + 1..] == old(buf[end + 1..])
  {
    hide ReadRecord;
    ghost var s := buf[rec..end];
    buf[end] := NUL;
    assert buf[rec..end] == s;
    var val;
    ok, p, val := ParseRecord(buf, rec, end);
    if ok {
      buf[val] := NUL;
    }
  }

  /** The pair of a record, and where its = is. */
  method ParseRecord(buf: array<char>, rec: nat, end: nat) returns (ok: bool, p: Pair, val: nat)
    requires rec <= end < buf.Length && buf[end] == NUL
    ensures ok == ReadRecord(buf[rec..end]).Some? && (ok ==> p == ReadRecord(buf[rec..end]).value && val < end)
  {
    hide ReadRecord, Find, Num, AllDigits, IsDigit, DigitsEnd;
    p, val := Pair("", ""), rec;
    ghost var s := buf[rec..end];
    var reclen, j := Scan(buf[rec..end], 0);
    assert s[0..j] == s[..j];
    ScanEnd(s, j);
    RecordIs(s, j);
    var key := rec + j;
    assert j < |s| ==> buf[key] == s[j];
    if buf[key] != ' ' || reclen != end - rec + 1 {
      return false, p, val;
    }
    ok, p, val := ParseKey(buf, key + 1, end);
    BodyFrom(buf, rec, end, j + 1);
  }

  lemma BodyFrom(buf: array<char>, rec: int, end: int, j: int)
    requires 0 <= rec && 0 <= j && rec + j <= end < buf.Length
    ensures buf[rec + j..end] == buf[rec..end][j..]
  {
  }

  /** What is before and after the first =, unless a NUL comes first. */
  method ParseKey(buf: array<char>, key: nat, end: nat) returns (ok: bool, p: Pair, val: nat)
    requires key <= end < buf.Length && buf[end] == NUL
    ensures var body := buf[key..end]; var v := Find(body, '=', NUL);
            && v <= |body| && (ok <==> v < |body| && body[v] != NUL)
            && (ok ==> p == Pair(body[..v], body[v + 1..]) && val == key + v)
  {
    hide Find;
    p := Pair("", "");
    val := Search(buf, key, end, '=', NUL);
    BodyAt(buf, key, end, val);
    ok := buf[val] != NUL;
    if ok {
      p := Pair(buf[key..val], buf[val + 1..end]);
    }
  }

  lemma BodyAt(buf: array<char>, key: int, end: int, val: int)
    requires 0 <= key <= val <= end < buf.Length
    ensures var body, v := buf[key..end], val - key;
            && v <= |body|
            && (v < |body| ==> buf[val] == body[v] && buf[key..val] == body[..v] && buf[val + 1..end] == body[v + 1..])
  {
  }

  lemma RecordIs(s: string, j: nat)
    requires j == DigitsEnd(s)
    ensures AllDigits(s[..j])
    ensures j == |s| || s[j] != ' ' || Num(s[..j]) != |s| + 1 ==> ReadRecord(s).None?
    ensures j < |s| && s[j] == ' ' && Num(s[..j]) == |s| + 1 ==>
      var body := s[j + 1..]; var v := Find(body, '=', NUL);
      && v <= |body|
      && ReadRecord(s) == if v == |body| || body[v] == NUL then None else Some(Pair(body[..v], body[v + 1..]))
  {
  }

  /** readexthdr. */
  method ReadExtHdr(buf: array<char>) returns (ok: bool, ps: seq<Pair>)
    modifies buf
    ensures ok == old(ReadAll(buf[..])).Some? && (ok ==> ps == old(ReadAll(buf[..])).value)
  {
    hide ReadRecord, ReadAll, Find, Then;
    ps, ok := [], false;
    ghost var all := ReadAll(buf[..]);
    var rec := 0;
    assert buf[0..] == buf[..];
    ThenNothing(all);
    while rec < buf.Length
      invariant 0 <= rec <= buf.Length && all == Then(ps, ReadAll(buf[rec..]))
    {
      ghost var s := buf[rec..];
      var end := Search(buf, rec, buf.Length, '\n', '\n');
      assert buf[rec..buf.Length] == s;
      ReadNext(s, ps);
      if end == buf.Length {
        return;
      }
      assert s[..end - rec] == buf[rec..end] && s[end - rec + 1..] == buf[end + 1..];
      var got, p := TakeRecord(buf, rec, end);
      if !got {
        return;
      }
      ps := ps + [p];
      rec := end + 1;
    }
    ok := true;
    assert buf[rec..] == "";
    ReadNothing(ps);
  }

  /** ps, and then what else is read. */
  ghost function Then(ps: seq<Pair>, more: Option<seq<Pair>>): Option<seq<Pair>>
  {
    if more.None? then None else Some(ps + more.value)
  }

  lemma ThenNothing(all: Option<seq<Pair>>)
    ensures Then([], all) == all
  {
    if all.Some? {
      assert [] + all.value == all.value;
    }
  }

  lemma ReadNothing(ps: seq<Pair>)
    ensures Then(ps, ReadAll("")) == Some(ps)
  {
    assert ps + [] == ps;
  }

  lemma ReadNext(s: string, ps: seq<Pair>)
    requires s != ""
    ensures var e := Find(s, '\n', '\n');
            && e <= |s|
            && if e == |s| then Then(ps, ReadAll(s)).None?
               else var p := ReadRecord(s[..e]);
                    if p.None? then Then(ps, ReadAll(s)).None?
                    else Then(ps, ReadAll(s)) == Then(ps + [p.value], ReadAll(s[e + 1..]))
  {
    hide ReadRecord, Find;
    var e := Find(s, '\n', '\n');
    if e < |s| {
      var p, more := ReadRecord(s[..e]), ReadAll(s[e + 1..]);
      if p.Some? && more.Some? {
        Assoc(ps, [p.value], more.value);
      }
    }
  }

  // ----- reading back what was written

  /** What the reader can take apart: no newline, and no = or NUL in the key. A value may
      have both = and NUL. */
  predicate Readable(p: Pair)
  {
    '\n' !in p.key && '=' !in p.key && NUL !in p.key && '\n' !in p.val
  }

  /** A search that finds nothing in its first part. */
  lemma {:induction false} FindAfter(a: string, b: string, c: char, d: char)
    requires c !in a && d !in a
    ensures Find(a + b, c, d) == |a| + Find(b, c, d)
  {
    if a == "" {
      assert a + b == b;
    } else {
      assert (a + b)[0] == a[0] && (a + b)[1..] == a[1..] + b;
      FindAfter(a[1..], b, c, d);
    }
  }

  lemma FindHere(s: string, c: char, d: char)
    requires s != "" && s[0] == c
    ensures Find(s, c, d) == 0
  {
  }

  // ----- exactly what the reader takes

  /** r is a record whose length, written with any number of leading zeros, is right. */
  ghost predicate IsNumbered(r: string, payload: string)
  {
    exists ds :: AllDigits(ds) && r == ds + " " + payload + "\n" && Num(ds) == |r|
  }

  /** text is one such record after another. */
  ghost predicate IsList(text: string, ps: seq<Pair>)
  {
    if ps == [] then text == ""
    else exists i :: 0 <= i <= |text| && IsNumbered(text[..i], Payload(ps[0])) && IsList(text[i..], ps[1..])
  }

  ghost predicate AllReadable(ps: seq<Pair>) { forall k :: 0 <= k < |ps| ==> Readable(ps[k]) }

  lemma ReadableFirst(ps: seq<Pair>)
    requires ps != []
    ensures AllReadable(ps) <==> Readable(ps[0]) && AllReadable(ps[1..])
  {
    hide Readable;
    assert ps == [ps[0]] + ps[1..];
  }

  /** The number at the start of a record. */
  lemma NumberRead(ds: string, body: string)
    requires AllDigits(ds)
    ensures var s := ds + " " + body; var j := |ds|;
            j == DigitsEnd(s) && s[..j] == ds && s[j] == ' ' && s[j + 1..] == body
  {
    var s, j := ds + " " + body, |ds|;
    assert s[..j] == ds;
    ScanEnd(s, j);
  }

  /** The key ends at the first =. */
  lemma KeyRead(p: Pair)
    requires '=' !in p.key && NUL !in p.key
    ensures var body, v := Payload(p), |p.key|;
            Find(body, '=', NUL) == v < |body| && body[v] == '=' && body[..v] == p.key && body[v + 1..] == p.val
  {
    hide Find;
    var body := Payload(p);
    assert body == p.key + ("=" + p.val);
    FindAfter(p.key, "=" + p.val, '=', NUL);
    FindHere("=" + p.val, '=', NUL);
  }

  /** A numbered record of a readable pair is read. */
  lemma RecordIsRead(ds: string, p: Pair)
    requires AllDigits(ds) && Readable(p) && Num(ds) == |ds| + |Payload(p)| + 2
    ensures ReadRecord(ds + " " + Payload(p)) == Some(p)
  {
    hide Find, Num, AllDigits, DigitsEnd, Payload;
    NumberRead(ds, Payload(p));
    RecordIs(ds + " " + Payload(p), |ds|);
    KeyRead(p);
  }

  /** What is read from a line is a numbered record of a readable pair. */
  lemma ReadIsRecord(rec: string)
    requires '\n' !in rec && ReadRecord(rec).Some?
    ensures Readable(ReadRecord(rec).value) && IsNumbered(rec + "\n", Payload(ReadRecord(rec).value))
  {
    hide Num, DigitsEnd, Find, AllDigits;
    var k := DigitsEnd(rec);
    var ds, body := rec[..k], rec[k + 1..];
    assert body == Payload(ReadRecord(rec).value);
    Joined(rec, k);
  }

  lemma Joined(rec: string, k: nat)
    requires k < |rec| && rec[k] == ' '
    ensures rec + "\n" == rec[..k] + " " + rec[k + 1..] + "\n"
  {
  }

  /** A numbered record of a readable pair ends at the first newline. */
  lemma RecordEnds(text: string, i: int, p: Pair)
    requires 0 <= i <= |text| && IsNumbered(text[..i], Payload(p)) && Readable(p)
    ensures 1 <= i && Find(text, '\n', '\n') == i - 1 && ReadRecord(text[..i - 1]) == Some(p)
  {
    hide Find, ReadRecord, Payload, Num;
    var ds :| AllDigits(ds) && text[..i] == ds + " " + Payload(p) + "\n" && Num(ds) == |text[..i]|;
    var rec := ds + " " + Payload(p);
    NoNewline(ds, p);
    assert text == rec + ("\n" + text[i..]) by {
      assert text == text[..i] + text[i..];
      Assoc(rec, "\n", text[i..]);
    }
    FindAfter(rec, "\n" + text[i..], '\n', '\n');
    FindHere("\n" + text[i..], '\n', '\n');
    assert text[..i - 1] == rec;
    RecordIsRead(ds, p);
  }

  lemma NoNewline(ds: string, p: Pair)
    requires AllDigits(ds) && Readable(p)
    ensures '\n' !in ds + " " + Payload(p)
  {
  }

  /** The reader takes exactly the lists of numbered records of readable pairs, and gives
      the pairs: everything else is refused or read as something else. */
  lemma ReadExactly(text: string, ps: seq<Pair>)
    ensures ReadAll(text) == Some(ps) <==> IsList(text, ps) && AllReadable(ps)
  {
    hide ReadAll, IsList, AllReadable;
    if ReadAll(text) == Some(ps) {
      ReadIsList(text);
    }
    if IsList(text, ps) && AllReadable(ps) {
      ListIsRead(text, ps);
    }
  }

  lemma {:induction false} ReadIsList(text: string)
    requires ReadAll(text).Some?
    ensures IsList(text, ReadAll(text).value) && AllReadable(ReadAll(text).value)
    decreases |text|
  {
    hide ReadRecord, Find, Readable, IsNumbered, Payload;
    if text != "" {
      var e := Find(text, '\n', '\n');
      BeforeNewline(text);
      ReadIsList(text[e + 1..]);
      ReadIsRecord(text[..e]);
      assert text[..e] + "\n" == text[..e + 1];
      var ps := ReadAll(text).value;
      assert ps[1..] == ReadAll(text[e + 1..]).value;
      ReadableFirst(ps);
    }
  }

  lemma BeforeNewline(text: string)
    ensures var e := Find(text, '\n', '\n');
            e <= |text| && '\n' !in text[..e] && (e < |text| ==> text[e] == '\n')
  {
  }

  lemma {:induction false} ListIsRead(text: string, ps: seq<Pair>)
    requires IsList(text, ps) && AllReadable(ps)
    ensures ReadAll(text) == Some(ps)
    decreases |ps|
  {
    hide ReadRecord, Find, Readable, IsNumbered, Payload, AllReadable;
    if ps != [] {
      var i :| 0 <= i <= |text| && IsNumbered(text[..i], Payload(ps[0])) && IsList(text[i..], ps[1..]);
      ReadableFirst(ps);
      RecordEnds(text, i, ps[0]);
      ListIsRead(text[i..], ps[1..]);
      assert ps == [ps[0]] + ps[1..];
    }
  }

  /** What the writer writes is numbered. */
  lemma RecordIsNumbered(r: string, payload: string)
    requires IsRecord(r, payload)
    ensures IsNumbered(r, payload)
  {
    hide Dec, Num;
    var n: nat :| r == Dec(n) + " " + payload + "\n" && n == |r|;
    NumOfDec(n);
    DecDigits(n);
  }

  lemma DecDigits(n: nat)
    ensures AllDigits(Dec(n))
  {
  }

  lemma {:induction false} HeaderIsList(text: string, ps: seq<Pair>)
    requires IsHeader(text, ps)
    ensures IsList(text, ps)
    decreases |ps|
  {
    hide IsRecord, IsNumbered, Payload;
    if ps != [] {
      var i :| 0 <= i <= |text| && IsRecord(text[..i], Payload(ps[0])) && IsHeader(text[i..], ps[1..]);
      RecordIsNumbered(text[..i], Payload(ps[0]));
      HeaderIsList(text[i..], ps[1..]);
    }
  }

  /** Counted records are read back as their pairs exactly if all pairs are readable; a
      NUL in a value is read like any other character. */
  lemma ReadBack(text: string, ps: seq<Pair>)
    requires IsHeader(text, ps)
    ensures ReadAll(text) == Some(ps) <==> AllReadable(ps)
  {
    hide ReadAll, IsHeader, IsList, AllReadable;
    HeaderIsList(text, ps);
    ReadExactly(text, ps);
  }

  // ----- both ways

  /** What comes back unchanged: the writer loses everything from a NUL on. */
  predicate Clean(p: Pair) { Readable(p) && NUL !in p.val }

  ghost predicate AllClean(ps: seq<Pair>) { forall k :: 0 <= k < |ps| ==> Clean(ps[k]) }

  lemma RecordHasNoNul(r: string, payload: string)
    requires IsRecord(r, payload) && NUL !in payload
    ensures NUL !in r
  {
    hide Dec;
    var n: nat :| r == Dec(n) + " " + payload + "\n" && n == |r|;
    assert forall k :: 0 <= k < |Dec(n)| ==> IsDigit(Dec(n)[k]);
  }

  lemma {:induction false} HeaderHasNoNul(text: string, ps: seq<Pair>)
    requires IsHeader(text, ps) && forall k :: 0 <= k < |ps| ==> NUL !in Payload(ps[k])
    ensures NUL !in text
    decreases |ps|
  {
    hide IsRecord, Payload;
    if ps != [] {
      var i :| 0 <= i <= |text| && IsRecord(text[..i], Payload(ps[0])) && IsHeader(text[i..], ps[1..]);
      RecordHasNoNul(text[..i], Payload(ps[0]));
      HeaderHasNoNul(text[i..], ps[1..]);
      assert text == text[..i] + text[i..];
    }
  }

  lemma CutHasNoNul(p: Pair)
    ensures NUL !in Payload(Cut(p))
  {
    hide CStr;
  }

  /** A text without NUL has no pair with one. */
  lemma RecordReadHasNoNul(rec: string)
    requires NUL !in rec && ReadRecord(rec).Some?
    ensures NUL !in ReadRecord(rec).value.key && NUL !in ReadRecord(rec).value.val
  {
    hide Num;
  }

  lemma {:induction false} ReadHasNoNul(text: string)
    requires NUL !in text && ReadAll(text).Some?
    ensures forall p :: p in ReadAll(text).value ==> NUL !in p.key && NUL !in p.val
    decreases |text|
  {
    hide ReadRecord, Find;
    if text != "" {
      var e := Find(text, '\n', '\n');
      RecordReadHasNoNul(text[..e]);
      ReadHasNoNul(text[e + 1..]);
    }
  }

  lemma CutIsSame(ps: seq<Pair>)
    requires forall p :: p in ps ==> NUL !in p.key && NUL !in p.val
    ensures CutAll(ps) == ps
  {
    hide CStr;
  }

  /** The pairs come back exactly if all of them are clean. */
  lemma WrittenIsRead(text: string, ps: seq<Pair>)
    requires IsHeader(text, CutAll(ps))
    ensures ReadAll(text) == Some(ps) <==> AllClean(ps)
    ensures ReadAll(text) == Some(CutAll(ps)) <==> AllReadable(CutAll(ps))
  {
    hide IsHeader, ReadAll, Payload, Cut, CStr;
    ReadBack(text, CutAll(ps));
    if ReadAll(text) == Some(ps) {
      forall k | 0 <= k < |ps|
        ensures NUL !in Payload(CutAll(ps)[k])
      {
        CutHasNoNul(ps[k]);
      }
      HeaderHasNoNul(text, CutAll(ps));
      ReadHasNoNul(text);
      CutIsSame(ps);
    }
    if AllClean(ps) {
      CutIsSame(ps);
    }
  }

  /** A value that the reader would take whole, and that the writer cuts. */
  lemma NulIsLost(text: string)
    requires IsHeader(text, CutAll([Pair("path", "a\0b")]))
    ensures Readable(Pair("path", "a\0b")) && ReadAll(text) == Some([Pair("path", "a")])
  {
    hide IsHeader, ReadAll, CStr;
    var p, q := Pair("path", "a\0b"), Pair("path", "a");
    CutAtNul();
    assert CutAll([p]) == [q];
    ReadBack(text, [q]);
  }

  lemma CutAtNul()
    ensures CStr("path") == "path" && CStr("a\0b") == "a"
  {
    assert "a\0b" == "a" + "\0b";
    FindAfter("a", "\0b", NUL, NUL);
    FindHere("\0b", NUL, NUL);
  }

  /** Pairs written as records and read again. */
  method WriteThenRead(ps: seq<Pair>) returns (ok: bool, qs: seq<Pair>)
    ensures ok && qs == ps <==> AllFit(ps) && AllClean(ps)
    ensures ok && qs == CutAll(ps) <==> AllFit(ps) && AllReadable(CutAll(ps))
  {
    hide IsHeader, ReadAll, AllFit, AllClean, AllReadable;
    qs := [];
    var ext;
    ok, ext := WriteRecords(ps);
    if ok {
      var buf := new char[|ext|](i requires 0 <= i < |ext| => ext[i]);
      assert buf[..] == ext;
      WrittenIsRead(ext, ps);
      ok, qs := ReadExtHdr(buf);
    }
  }
}
