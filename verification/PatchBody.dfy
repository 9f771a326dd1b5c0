/**
 The two sides of a hunk body, line by line: facts about the order in which patch
 meets context, deleted and added lines.
 */
module PatchBody {
  import opened UnifiedHunk
  import opened SeqFacts

  /** The tags that go with Side. */
  function SideTags(body: seq<string>, skip: char): (s: seq<char>)
    requires IsBody(body)
  {
    if body == [] then []
    else (if body[0][0] == skip then [] else [body[0][0]]) + SideTags(body[1..], skip)
  }

  lemma {:induction false} SideTagsConcat(x: seq<string>, y: seq<string>, skip: char)
    requires IsBody(x) && IsBody(y)
    ensures SideTags(x + y, skip) == SideTags(x, skip) + SideTags(y, skip)
  {
    hide IsBody;
    BodyConcat(x, y);
    if x == [] {
      Empty(y);
      Empty(SideTags(y, skip));
    } else {
      Head(x, y);
      SideTagsConcat(x[1..], y, skip);
      Assoc(if x[0][0] == skip then [] else [x[0][0]], SideTags(x[1..], skip), SideTags(y, skip));
    }
  }

  /** Adding one line to a body adds it to one or both sides. */
  lemma SideSnoc(body: seq<string>, line: string, skip: char)
    requires IsBody(body) && |line| >= 1 && IsTag(line[0])
    ensures IsBody(body + [line])
    ensures Side(body + [line], skip) == Side(body, skip) + (if line[0] == skip then [] else [line[1..]])
    ensures SideTags(body + [line], skip) == SideTags(body, skip) + (if line[0] == skip then [] else [line[0]])
  {
    SideConcat(body, [line], skip);
    SideTagsConcat(body, [line], skip);
    assert [line][1..] == [];
  }

  lemma {:induction false} SideLengths(body: seq<string>, skip: char)
    requires IsBody(body)
    ensures |Side(body, skip)| == |SideTags(body, skip)| <= |body|
    ensures forall k :: 0 <= k < |SideTags(body, skip)| ==>
      IsTag(SideTags(body, skip)[k]) && SideTags(body, skip)[k] != skip
  {
    if body != [] {
      SideLengths(body[1..], skip);
    }
  }

  // ----- context lines

  /** The lines with a space tag among parallel lines and tags. */
  function Context(lines: seq<string>, tags: seq<char>): (s: seq<string>)
    requires |lines| == |tags|
  {
    if lines == [] then []
    else (if tags[0] == ' ' then [lines[0]] else []) + Context(lines[1..], tags[1..])
  }

  lemma NoContext()
    ensures Context([], []) == []
  {
  }

  /** The first line is context, or it is not. */
  lemma ContextFirst(lines: seq<string>, tags: seq<char>, k: nat)
    requires 1 <= k <= |lines| == |tags|
    ensures Context(lines[..k], tags[..k])
         == (if tags[0] == ' ' then [lines[0]] else []) + Context(lines[1..][..k - 1], tags[1..][..k - 1])
  {
    assert lines[..k][1..] == lines[1..][..k - 1] && tags[..k][1..] == tags[1..][..k - 1];
  }

  lemma {:induction false} ContextSplit(lines: seq<string>, tags: seq<char>, k: nat)
    requires |lines| == |tags| && k < |lines|
    ensures Context(lines[..k + 1], tags[..k + 1])
         == Context(lines[..k], tags[..k]) + (if tags[k] == ' ' then [lines[k]] else [])
    ensures |Context(lines[..k + 1], tags[..k + 1])| <= |Context(lines, tags)|
    ensures tags[k] == ' ' ==>
      && |Context(lines[..k], tags[..k])| < |Context(lines, tags)|
      && Context(lines, tags)[|Context(lines[..k], tags[..k])|] == lines[k]
    decreases k
  {
    hide Context;
    ContextFirst(lines, tags, |lines|);
    ContextFirst(lines, tags, k + 1);
    assert lines[..|lines|] == lines && tags[..|tags|] == tags;
    assert lines[1..][..|lines| - 1] == lines[1..] && tags[1..][..|tags| - 1] == tags[1..];
    if k == 0 {
      NoContext();
      assert lines[1..][..0] == [] && tags[1..][..0] == [] && lines[..0] == [] && tags[..0] == [];
    } else {
      ContextFirst(lines, tags, k);
      ContextSplit(lines[1..], tags[1..], k - 1);
      assert lines[1..][k - 1] == lines[k] && tags[1..][k - 1] == tags[k];
    }
  }

  /** Both sides of a body have the same context. */
  lemma {:induction false} SameContext(body: seq<string>)
    requires IsBody(body)
    ensures |OldSide(body)| == |SideTags(body, '+')| && |NewSide(body)| == |SideTags(body, '-')|
    ensures Context(OldSide(body), SideTags(body, '+')) == Context(NewSide(body), SideTags(body, '-'))
  {
    SideLengths(body, '+');
    SideLengths(body, '-');
    if body != [] {
      var rest := body[1..];
      SameContext(rest);
      var tag, text := body[0][0], body[0][1..];
      ContextCons(tag, text, OldSide(rest), SideTags(rest, '+'));
      ContextCons(tag, text, NewSide(rest), SideTags(rest, '-'));
      if tag != '+' {
        assert OldSide(body) == [text] + OldSide(rest) && SideTags(body, '+') == [tag] + SideTags(rest, '+');
      } else {
        assert OldSide(body) == OldSide(rest) && SideTags(body, '+') == SideTags(rest, '+');
      }
      if tag != '-' {
        assert NewSide(body) == [text] + NewSide(rest) && SideTags(body, '-') == [tag] + SideTags(rest, '-');
      } else {
        assert NewSide(body) == NewSide(rest) && SideTags(body, '-') == SideTags(rest, '-');
      }
    }
  }

  lemma ContextCons(tag: char, text: string, lines: seq<string>, tags: seq<char>)
    requires |lines| == |tags|
    ensures Context([text] + lines, [tag] + tags) == (if tag == ' ' then [text] else []) + Context(lines, tags)
  {
    assert ([text] + lines)[1..] == lines && ([tag] + tags)[1..] == tags;
  }
}
