/** The thinking blocks of a reply: what strip_think_tags keeps and what it leaves. */
module Thinking {
  import opened Text

  /** One round of strip_think_tags: what is kept, and what is left to read; an unclosed block swallows
      the rest. */
  function NextThought(p: string): (r: (string, string))
    ensures p != "" ==> |r.1| < |p|
  {
    var start := Find(p, "<think>");
    if start.None? then (p, "")
    else
      var inside := p[start.value + 7..];
      var end := Find(inside, "</think>");
      (p[..start.value], if end.None? then "" else inside[end.value + 8..])
  }

  function DropThinking(p: string): string
    decreases |p|
  {
    if p == "" then "" else NextThought(p).0 + DropThinking(NextThought(p).1)
  }

  function StripThinkTags(content: Option<string>): Option<string> {
    if content.None? then None else Some(Trim(DropThinking(content.value)))
  }

  // ----- What dropping the thinking means -----

  const OPEN_TAG := "<think>"
  const CLOSE_TAG := "</think>"

  lemma Tags()
    ensures forall k :: 1 <= k < |OPEN_TAG| ==> OPEN_TAG[k] != OPEN_TAG[0]
    ensures forall k :: 1 <= k < |CLOSE_TAG| ==> CLOSE_TAG[k] != CLOSE_TAG[0]
  {
  }

  /** Text without an opening tag is kept as it is. */
  lemma PlainTextIsKept(a: string)
    requires !Occurs(a, OPEN_TAG)
    ensures DropThinking(a) == a
  {
    FindIs(a, OPEN_TAG);
    if a != "" { assert NextThought(a) == (a, "") && a + "" == a; }
  }

  /** The first block goes with its tags, and what follows it is treated the same way. */
  lemma BlockIsDropped(a: string, b: string, c: string)
    requires !Occurs(a, OPEN_TAG) && !Occurs(b, CLOSE_TAG)
    ensures DropThinking(a + OPEN_TAG + b + CLOSE_TAG + c) == a + DropThinking(c)
  {
    Tags();
    var inside := b + CLOSE_TAG + c;
    var s := a + OPEN_TAG + inside;
    assert a + OPEN_TAG + b + CLOSE_TAG + c == s;
    FindBehind(a, OPEN_TAG, inside);
    FindBehind(b, CLOSE_TAG, c);
    assert s[..|a|] == a && s[|a| + 7..] == inside && inside[|b| + 8..] == c;
  }

  /** A block that is not closed takes the rest with it. */
  lemma OpenBlockTakesTheRest(a: string, b: string)
    requires !Occurs(a, OPEN_TAG) && !Occurs(b, CLOSE_TAG)
    ensures DropThinking(a + OPEN_TAG + b) == a
  {
    Tags();
    var s := a + OPEN_TAG + b;
    FindBehind(a, OPEN_TAG, b);
    FindIs(b, CLOSE_TAG);
    assert s[..|a|] == a && s[|a| + 7..] == b && a + "" == a;
  }

  /** What is left is also trimmed: the white space at both ends of the kept text goes, and nothing else. */
  lemma StrippedIsTrimmed(content: string) returns (front: string, back: string)
    ensures StripThinkTags(None) == None && StripThinkTags(Some(content)).Some?
    ensures var r := StripThinkTags(Some(content)).value;
            && DropThinking(content) == front + r + back
            && (forall i :: 0 <= i < |front| ==> IsSpace(front[i]))
            && (forall i :: 0 <= i < |back| ==> IsSpace(back[i]))
            && (r != "" ==> !IsSpace(r[0]) && !IsSpace(r[|r| - 1]))
  {
    hide DropThinking, Trim;
    front, back := TrimIs(DropThinking(content));
  }

  // ----- When a tag is left -----

  /** The pieces that are kept, one a round. */
  function Pieces(p: string): seq<string>
    decreases |p|
  {
    if p == "" then [] else [NextThought(p).0] + Pieces(NextThought(p).1)
  }

  function Joined(ps: seq<string>): string {
    if ps == [] then "" else ps[0] + Joined(ps[1..])
  }

  /** The first k characters of the opening tag end a, and the others begin d. */
  predicate TagSplit(a: string, d: string, k: nat) {
    1 <= k < |OPEN_TAG| && k <= |a| && a[|a| - k..] == OPEN_TAG[..k] && OPEN_TAG[k..] <= d
  }

  predicate Straddles(a: string, d: string) {
    exists k :: 1 <= k < |OPEN_TAG| && TagSplit(a, d, k)
  }

  /** An opening tag is put together where one of the pieces meets what is kept behind it. */
  predicate TagForms(ps: seq<string>) {
    ps != [] && (Straddles(ps[0], Joined(ps[1..])) || TagForms(ps[1..]))
  }

  lemma TagBehind(a: string, d: string, i: nat)
    requires |a| <= i <= |a| + |d|
    ensures At(a + d, i, OPEN_TAG) <==> At(d, i - |a|, OPEN_TAG)
  {
    assert (a + d)[i..] == d[i - |a|..];
  }

  lemma TagInside(a: string, d: string, i: nat)
    requires i + |OPEN_TAG| <= |a|
    ensures At(a + d, i, OPEN_TAG) <==> At(a, i, OPEN_TAG)
  {
    assert (a + d)[i..][..|OPEN_TAG|] == a[i..][..|OPEN_TAG|];
  }

  lemma TagAcross(a: string, d: string, k: nat)
    requires 1 <= k < |OPEN_TAG| && k <= |a|
    ensures At(a + d, |a| - k, OPEN_TAG) <==> TagSplit(a, d, k)
  {
    var t := (a + d)[|a| - k..];
    assert t == a[|a| - k..] + d;
    if OPEN_TAG <= t {
      assert t[..k] == OPEN_TAG[..k] && t[k..][..|OPEN_TAG| - k] == OPEN_TAG[k..];
    }
    if TagSplit(a, d, k) {
      assert OPEN_TAG == OPEN_TAG[..k] + OPEN_TAG[k..];
    }
  }

  /** Text without a tag, followed by more text, has a tag in that or across the seam. */
  lemma TagInJoined(a: string, d: string)
    requires !Occurs(a, OPEN_TAG)
    ensures Occurs(a + d, OPEN_TAG) <==> Occurs(d, OPEN_TAG) || Straddles(a, d)
  {
    hide At, TagSplit;
    if i :| 0 <= i <= |a + d| && At(a + d, i, OPEN_TAG) {
      if i >= |a| {
        TagBehind(a, d, i);
      } else if i + |OPEN_TAG| <= |a| {
        TagInside(a, d, i);
      } else {
        TagAcross(a, d, |a| - i);
        assert TagSplit(a, d, |a| - i);
      }
    }
    if i :| 0 <= i <= |d| && At(d, i, OPEN_TAG) {
      TagBehind(a, d, |a| + i);
      assert At(a + d, |a| + i, OPEN_TAG);
    }
    if k :| 1 <= k < |OPEN_TAG| && TagSplit(a, d, k) {
      assert k <= |a| by { SplitFits(a, d, k); }
      TagAcross(a, d, k);
      assert At(a + d, |a| - k, OPEN_TAG);
    }
  }

  lemma SplitFits(a: string, d: string, k: nat)
    requires TagSplit(a, d, k)
    ensures k <= |a|
  {
  }

  lemma PieceIsClean(p: string)
    ensures !Occurs(NextThought(p).0, OPEN_TAG)
  {
    FindIs(p, OPEN_TAG);
    var start := Find(p, OPEN_TAG);
    if start.Some? {
      var a := p[..start.value];
      assert p == a + p[start.value..];
      if i :| 0 <= i <= |a| && At(a, i, OPEN_TAG) {
        TagInside(a, p[start.value..], i);
      }
    }
  }

  lemma {:induction false} TagInPieces(p: string)
    ensures DropThinking(p) == Joined(Pieces(p))
    ensures Occurs(DropThinking(p), OPEN_TAG) <==> TagForms(Pieces(p))
    decreases |p|
  {
    hide NextThought, Occurs, Straddles;
    if p == "" {
      assert !Occurs("", OPEN_TAG) by { ShortTexts(); }
    } else {
      var (kept, rest) := NextThought(p);
      NextIsShorter(p);
      TagInPieces(rest);
      PieceIsClean(p);
      TagInJoined(kept, DropThinking(rest));
      assert Pieces(p)[1..] == Pieces(rest);
    }
  }

  lemma NextIsShorter(p: string)
    requires p != ""
    ensures |NextThought(p).1| < |p|
  {
  }

  /** Trimming neither makes nor destroys a tag. */
  lemma TagInTrimmed(s: string)
    ensures Occurs(Trim(s), OPEN_TAG) <==> Occurs(s, OPEN_TAG)
  {
    hide TrimRight;
    var n := SpanLength(s, IsSpace);
    TagInTrimmedRight(s[n..]);
    if i :| 0 <= i <= |s| && At(s, i, OPEN_TAG) {
      assert s[i] == s[i..][0] == OPEN_TAG[0];
      assert s[n..][i - n..] == s[i..];
      assert At(s[n..], i - n, OPEN_TAG);
    }
    if i :| 0 <= i <= |s[n..]| && At(s[n..], i, OPEN_TAG) {
      assert s[n..][i..] == s[n + i..];
      assert At(s, n + i, OPEN_TAG);
    }
  }

  lemma {:induction false} TagInTrimmedRight(s: string)
    ensures Occurs(TrimRight(s), OPEN_TAG) <==> Occurs(s, OPEN_TAG)
    decreases |s|
  {
    if s != "" && IsSpace(s[|s| - 1]) {
      var t := s[..|s| - 1];
      TagInTrimmedRight(t);
      if i :| 0 <= i <= |s| && At(s, i, OPEN_TAG) {
        assert s[i + 6] == s[i..][6] == OPEN_TAG[6];
        assert t[i..][..7] == s[i..][..7];
        assert At(t, i, OPEN_TAG);
      }
      if i :| 0 <= i <= |t| && At(t, i, OPEN_TAG) {
        assert t[i..][..7] == s[i..][..7];
        assert At(s, i, OPEN_TAG);
      }
    }
  }

  /** The stripped text holds an opening tag exactly when the pieces put one together. */
  lemma WhenTagsForm(content: string)
    ensures Occurs(StripThinkTags(Some(content)).value, OPEN_TAG) <==> TagForms(Pieces(content))
  {
    hide Occurs, TagForms, Trim;
    TagInPieces(content);
    TagInTrimmed(DropThinking(content));
  }

  /** It does happen: both sides of a block can be the parts of a tag. */
  lemma TagsCanForm()
    ensures var content := "<thi" + OPEN_TAG + "" + CLOSE_TAG + "nk>";
            DropThinking(content) == OPEN_TAG && TagForms(Pieces(content))
  {
    hide DropThinking, Pieces, TagForms;
    var content := "<thi" + OPEN_TAG + "" + CLOSE_TAG + "nk>";
    ShortTexts();
    BlockIsDropped("<thi", "", "nk>");
    PlainTextIsKept("nk>");
    TagInPieces(content);
    assert At(OPEN_TAG, 0, OPEN_TAG);
  }

  lemma ShortTexts()
    ensures !Occurs("<thi", OPEN_TAG) && !Occurs("nk>", OPEN_TAG) && !Occurs("", CLOSE_TAG) && !Occurs("", OPEN_TAG)
  {
  }
}
