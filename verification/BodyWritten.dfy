/** Reading a parsed body back as it was written, delimiters included. */
module BodyWritten {
  import opened MachineInts
  import opened PostBody
  import opened BodyTree
  import opened BodyLeaves
  import opened BodyMeaning
  import opened BodyParser
  import opened BodyText
  import opened BodyQuotes

  /** No empty span is met in a fragment. */
  predicate NoEmptySpan(level: nat, frag: string)
    requires level <= INNERMOST
    decreases |frag|, INNERMOST - level
  {
    if level == INNERMOST || frag == [] then true
    else
      match FindPair(frag, DelimiterChar(level))
      case None => NoEmptySpan(level + 1, frag)
      case Some(start) => NoEmptySpan(level + 1, frag[..start]) && NoEmptySpanAfter(level, frag[start + 2..])
  }

  predicate NoEmptySpanAfter(level: nat, frag: string)
    requires level < INNERMOST
    decreases |frag|, INNERMOST + 2
  {
    match FindPair(frag, DelimiterChar(level))
    case None => NoEmptySpanWithin(level, frag)
    case Some(end) => end != 0 && NoEmptySpanWithin(level, frag[..end]) && NoEmptySpan(0, frag[end + 2..])
  }

  predicate NoEmptySpanWithin(level: nat, frag: string)
    requires level < INNERMOST
    decreases |frag|, INNERMOST + 1
  {
    level != 0 ==> NoEmptySpan(level + 1, frag)
  }

  /** What the pieces of a fragment spell: all of it, or less if it has an empty span. */
  lemma {:induction false} EmitWritten(env: Env, level: nat, frag: string, flags: Flags)
    requires level <= INNERMOST
    ensures Keeps(Raws(Emit(env, level, frag, flags)), frag, NoEmptySpan(level, frag))
    decreases |frag|, INNERMOST - level
  {
    hide FindPair, Lines, Keeps, Emit, Remainder, NoEmptySpan, NoEmptySpanAfter;
    if level == INNERMOST || frag == [] || FindPair(frag, DelimiterChar(level)).None? {
      EmitPlain(env, level, frag, flags);
      PlainWritten(level, frag);
      if level == INNERMOST {
        LinesSources(env, frag, flags);
        PlainRaws(Lines(env, frag, flags));
        KeepsAll(frag);
      } else if frag == [] {
        KeepsAll([]);
      } else {
        EmitWritten(env, level + 1, frag, flags);
      }
    } else {
      var start := FindPair(frag, DelimiterChar(level)).value;
      EmitWritten(env, level + 1, frag[..start], flags);
      RemainderWritten(env, level, frag[start + 2..], flags);
      EmitAtPair(env, level, frag, flags);
      PairWritten(level, frag, Emit(env, level + 1, frag[..start], flags), Remainder(env, level, frag[start + 2..], flags));
    }
  }

  lemma PlainWritten(level: nat, frag: string)
    requires level <= INNERMOST
    requires level == INNERMOST || frag == [] || FindPair(frag, DelimiterChar(level)).None?
    ensures NoEmptySpan(level, frag) <==> level == INNERMOST || frag == [] || NoEmptySpan(level + 1, frag)
  {
    hide FindPair, NoEmptySpanAfter;
  }

  lemma {:induction false} PairSpans(level: nat, frag: string)
    requires level < INNERMOST && FindPair(frag, DelimiterChar(level)).Some?
    ensures var i := FindPair(frag, DelimiterChar(level)).value;
            NoEmptySpan(level, frag) <==> NoEmptySpan(level + 1, frag[..i]) && NoEmptySpanAfter(level, frag[i + 2..])
  {
    hide FindPair, NoEmptySpanAfter;
  }

  lemma PairWritten(level: nat, frag: string, before: seq<Piece>, after: seq<Piece>)
    requires level < INNERMOST && FindPair(frag, DelimiterChar(level)).Some?
    requires var i := FindPair(frag, DelimiterChar(level)).value;
             && Keeps(Raws(before), frag[..i], NoEmptySpan(level + 1, frag[..i]))
             && Keeps(Raws(after), Delimiter(level) + frag[i + 2..], NoEmptySpanAfter(level, frag[i + 2..]))
    ensures Keeps(Raws(before + after), frag, NoEmptySpan(level, frag))
  {
    hide FindPair, Keeps, NoEmptySpan, NoEmptySpanAfter;
    var i := FindPair(frag, DelimiterChar(level)).value;
    PairSpans(level, frag);
    PiecesConcat(before, after);
    KeepsBoth(Raws(before), frag[..i], NoEmptySpan(level + 1, frag[..i]),
              Raws(after), Delimiter(level) + frag[i + 2..], NoEmptySpanAfter(level, frag[i + 2..]));
    CutAtPair(level, frag);
  }

  lemma CutAtPair(level: nat, frag: string)
    requires level < INNERMOST && FindPair(frag, DelimiterChar(level)).Some?
    ensures var i := FindPair(frag, DelimiterChar(level)).value;
            frag[..i] + (Delimiter(level) + frag[i + 2..]) == frag
  {
    hide FindPair;
  }

  lemma {:induction false} RemainderWritten(env: Env, level: nat, frag: string, flags: Flags)
    requires level < INNERMOST
    ensures Keeps(Raws(Remainder(env, level, frag, flags)), Delimiter(level) + frag, NoEmptySpanAfter(level, frag))
    decreases |frag|, INNERMOST + 2
  {
    hide FindPair, Keeps, Emit, Span, NoEmptySpan, NoEmptySpanWithin;
    var found := FindPair(frag, DelimiterChar(level));
    if found.None? {
      SpanWritten(env, level, frag, flags, false);
      OneSource(Span(env, level, frag, flags, false));
      assert Delimiter(level) + frag + [] == Delimiter(level) + frag;
    } else if found.value == 0 {
      LosesSome(Delimiter(level) + frag);
    } else {
      var end := found.value;
      var span, rest := Span(env, level, frag[..end], flags, true), Emit(env, 0, frag[end + 2..], flags);
      SpanWritten(env, level, frag[..end], flags, true);
      OneSource(span);
      EmitWritten(env, 0, frag[end + 2..], flags);
      PiecesConcat([span], rest);
      KeepsBoth(span.raw, Delimiter(level) + frag[..end] + Delimiter(level), NoEmptySpanWithin(level, frag[..end]),
                Raws(rest), frag[end + 2..], NoEmptySpan(0, frag[end + 2..]));
      ClosedAtPair(level, frag);
    }
  }

  lemma ClosedAtPair(level: nat, frag: string)
    requires level < INNERMOST && FindPair(frag, DelimiterChar(level)).Some?
    ensures var end := FindPair(frag, DelimiterChar(level)).value; var d := Delimiter(level);
            d + frag[..end] + d + frag[end + 2..] == d + frag
  {
    hide FindPair;
    CutAtPair(level, frag);
    var end := FindPair(frag, DelimiterChar(level)).value;
    var d := Delimiter(level);
    assert d + frag[..end] + d + frag[end + 2..] == d + (frag[..end] + (d + frag[end + 2..]));
  }

  lemma LosesSome(s: string)
    requires s != []
    ensures Keeps([], s, false)
  {
  }

  lemma {:induction false} SpanWritten(env: Env, level: nat, frag: string, flags: Flags, closed: bool)
    requires level < INNERMOST
    ensures Keeps(Span(env, level, frag, flags, closed).raw,
                  Delimiter(level) + frag + (if closed then Delimiter(level) else []), NoEmptySpanWithin(level, frag))
    decreases |frag|, INNERMOST + 1
  {
    hide Emit, NoEmptySpan;
    if level != 0 {
      EmitWritten(env, level + 1, frag, flags);
    }
  }

  // ----- whole bodies -----

  predicate NoEmptySpans(segments: seq<Segment>) {
    forall k | 0 <= k < |segments| :: NoEmptySpan(0, segments[k].text)
  }

  lemma SegmentWritten(env: Env, s: Segment, flags: Flags)
    ensures Keeps(Raws(SegmentPieces(env, s, flags)), s.text, NoEmptySpan(0, s.text))
  {
    hide NoEmptySpan, Emit, Keeps;
    if s.level == 0 {
      EmitWritten(env, 0, s.text, flags);
    } else {
      EmitWritten(env, 0, s.text, flags.(quoted := true));
      OneSource(SegmentPieces(env, s, flags)[0]);
    }
  }

  lemma {:induction false} SegmentsWritten(env: Env, segments: seq<Segment>, flags: Flags)
    ensures Keeps(Raws(AllPieces(env, segments, flags)), JoinTexts(segments), NoEmptySpans(segments))
  {
    hide NoEmptySpan, SegmentPieces;
    if segments != [] {
      var s, rest := segments[0], segments[1..];
      SegmentWritten(env, s, flags);
      SegmentsWritten(env, rest, flags);
      PiecesConcat(SegmentPieces(env, s, flags), AllPieces(env, rest, flags));
      KeepsBoth(Raws(SegmentPieces(env, s, flags)), s.text, NoEmptySpan(0, s.text),
                Raws(AllPieces(env, rest, flags)), JoinTexts(rest), NoEmptySpans(rest));
      assert NoEmptySpans(segments) <==> NoEmptySpan(0, s.text) && NoEmptySpans(rest) by {
        assert segments == [s] + rest;
      }
    }
  }

  /** Exact, for every body: read with its delimiters, the tree spells the body as written iff no
      empty span is met in any segment; otherwise what its pieces spell is shorter. */
  lemma WrittenExact(env: Env, body: string, open: bool)
    ensures var written := Raws(BodyPieces(env, body, open));
            && Reads(env, Parse(env, body, open), written, true)
            && (written == body <==> NoEmptySpans(Segments(env, body)))
            && |written| <= |body|
  {
    hide Reads, MaximalRuns;
    ParseReads(env, body, open);
    SegmentsExact(env, body);
    SegmentsWritten(env, Segments(env, body), Flags(open, false));
  }

  // ----- a simple sufficient condition -----

  lemma {:induction false} NoDoubledSpan(level: nat, frag: string)
    requires level <= INNERMOST && NoDoubled(frag)
    ensures NoEmptySpan(level, frag)
    decreases |frag|, INNERMOST - level
  {
    hide FindPair, NoDoubled;
    if level < INNERMOST && frag != [] {
      var found := FindPair(frag, DelimiterChar(level));
      if found.None? {
        NoDoubledSpan(level + 1, frag);
      } else {
        var start := found.value;
        NoDoubledParts(frag, start);
        NoDoubledSpan(level + 1, frag[..start]);
        NotTwice(level, frag, start);
        NoDoubledSpanAfter(level, frag[start + 2..]);
      }
    }
  }

  lemma NoDoubledParts(frag: string, i: nat)
    requires i + 2 <= |frag| && NoDoubled(frag)
    ensures NoDoubled(frag[..i]) && NoDoubled(frag[i + 2..])
  {
    hide NoDoubled;
    NoDoubledWithin(frag, 0, i);
    assert frag[0..i] == frag[..i];
    NoDoubledWithin(frag, i + 2, |frag|);
    assert frag[i + 2..|frag|] == frag[i + 2..];
  }

  lemma {:induction false} NoDoubledSpanAfter(level: nat, frag: string)
    requires level < INNERMOST && NoDoubled(frag) && FindPair(frag, DelimiterChar(level)) != Some(0)
    ensures NoEmptySpanAfter(level, frag)
    decreases |frag|, INNERMOST + 2
  {
    hide FindPair, NoDoubled;
    var found := FindPair(frag, DelimiterChar(level));
    if found.None? {
      if level != 0 {
        NoDoubledSpan(level + 1, frag);
      }
    } else {
      NoDoubledParts(frag, found.value);
      if level != 0 {
        NoDoubledSpan(level + 1, frag[..found.value]);
      }
      NoDoubledSpan(0, frag[found.value + 2..]);
    }
  }

  /** Without doubled delimiters the parsed tree reads back as exactly the body, code included. */
  lemma ParsedAsWritten(env: Env, body: string, open: bool)
    requires NoDoubled(body)
    ensures Reads(env, Parse(env, body, open), body, true)
  {
    hide Reads, NoDoubled, MaximalRuns;
    var segments := Segments(env, body);
    SegmentsExact(env, body);
    SegmentsWithin(segments);
    forall k | 0 <= k < |segments| ensures NoEmptySpan(0, segments[k].text) {
      NoDoubledSpan(0, segments[k].text);
    }
    WrittenExact(env, body, open);
  }

  // ----- a text that is lost -----

  const LOSSY := "a****b"

  lemma LossyPairs()
    ensures FindPair(LOSSY, '`').None? && FindPair(LOSSY, '*') == Some(1)
    ensures LOSSY[..1] == "a" && LOSSY[3..] == "**b" && FindPair("**b", '*') == Some(0)
  {
    assert LOSSY[1..] == "****b" && LOSSY[2..] == "***b" && LOSSY[3..] == "**b";
    assert LOSSY[4..] == "*b" && LOSSY[5..] == "b";
    NoTicks(LOSSY, 0);
  }

  lemma {:induction false} NoTicks(s: string, i: nat)
    requires i <= |s| && forall k | 0 <= k < |s| :: s[k] != '`'
    ensures FindPair(s[i..], '`').None?
    decreases |s| - i
  {
    if i < |s| {
      assert s[i..][1..] == s[i + 1..];
      NoTicks(s, i + 1);
    }
  }

  lemma LetterPieces(env: Env, flags: Flags)
    ensures Lines(env, "a", flags) == [TextPiece("a")]
  {
    assert "a"[0] == 'a' && "a"[1..] == [];
    assert SplitPunctuation("a") == Punctuated([], "a", []);
    assert !StartsWith("a", "http") && !StartsWith("a", "magnet:?") && !StartsWith("a", "ftp")
        && !StartsWith("a", "bitcoin");
    assert WordPieces(env, "a", flags) == [TextPiece("a")];
    assert SpacedWord(env, "a", flags) == [TextPiece("a")];
    assert Position("a", ' ') == 1 && Position("a", '\n') == 1;
  }

  lemma LetterEmitted(env: Env, level: nat, flags: Flags)
    requires level <= INNERMOST
    ensures Emit(env, level, "a", flags) == [TextPiece("a")]
    decreases INNERMOST - level
  {
    if level == INNERMOST {
      LetterPieces(env, flags);
    } else {
      LetterEmitted(env, level + 1, flags);
    }
  }

  lemma LossyEmitted(env: Env, flags: Flags)
    ensures Emit(env, 0, LOSSY, flags) == [TextPiece("a")]
  {
    hide FindPair;
    LossyPairs();
    LetterEmitted(env, 2, flags);
    assert Remainder(env, 1, "**b", flags) == [];
    assert Emit(env, 1, LOSSY, flags) == [TextPiece("a")] + [];
  }

  lemma LossySegments(env: Env)
    ensures Segments(env, LOSSY) == [Segment(0, LOSSY)]
  {
    assert LOSSY[0..] == LOSSY && LevelOf(env, LOSSY) == 0;
    NoBreak(LOSSY);
    assert NextLine(LOSSY, 0) == |LOSSY|;
    assert LOSSY[0..|LOSSY|] == LOSSY;
  }

  lemma NoBreak(s: string)
    requires forall k | 0 <= k < |s| :: s[k] != '\n'
    ensures Position(s, '\n') == |s|
  {
  }

  /** Text is really lost: whatever the environment, of this body only the first letter is left, and
      there is no reading of the tree as the body, with its delimiters or without. */
  lemma EmptySpanLosesText(env: Env, open: bool)
    ensures Parse(env, LOSSY, open) == Text("a")
    ensures !Reads(env, Parse(env, LOSSY, open), Strip(LOSSY), false)
    ensures !Reads(env, Parse(env, LOSSY, open), LOSSY, true)
  {
    hide Emit;
    LossySegments(env);
    LossyEmitted(env, Flags(open, false));
    var ps := [TextPiece("a")];
    assert AllPieces(env, [Segment(0, LOSSY)], Flags(open, false)) == ps + [];
    assert Nodes(ps) == [Text("a")];
    MergeOne(Empty, Text("a"));
    assert Strip(LOSSY) == "ab";
  }

  // ----- the sizes diffs and patches can take -----

  /** Highlighted code of at most `n` characters fits a text patch. */
  ghost predicate HighlightFits(env: Env, n: nat) {
    forall code: string | |code| <= n :: |env.highlight(code)| <= U16_MAX
  }

  /** No string of a tree is longer than what the tree reads as, highlighted code aside. */
  lemma {:induction false} ReadsFit(env: Env, n: Node, r: string)
    requires Reads(env, n, r, true) && |r| <= U16_MAX && HighlightFits(env, |r|)
    ensures StringsFit(n)
    decreases n, 1
  {
    match n
    case Children(list) => AllReadFit(env, list, r);
    case Spoiler(x) => SpanFits(env, x, r, '*');
    case Bold(x) => SpanFits(env, x, r, '@');
    case Italic(x) => SpanFits(env, x, r, '~');
    case Quoted(x) => ReadsFit(env, x, r);
    case Code(_) =>
      assert |r[2..]| <= |r|;
    case _ =>
  }

  lemma {:induction false} SpanFits(env: Env, x: Node, r: string, c: char)
    requires ReadsSpan(env, x, r, c) && |r| <= U16_MAX && HighlightFits(env, |r|)
    ensures StringsFit(x)
    decreases x, 2
  {
    if Reads(env, x, r[2..], true) {
      ReadsFit(env, x, r[2..]);
    } else {
      ReadsFit(env, x, r[2..|r| - 2]);
    }
  }

  lemma {:induction false} AllReadFit(env: Env, list: seq<Node>, r: string)
    requires ReadsAll(env, list, r, true) && |r| <= U16_MAX && HighlightFits(env, |r|)
    ensures forall k | 0 <= k < |list| :: StringsFit(list[k])
    decreases list, 0
  {
    hide Reads, ReadsSpan, ReadsAll, StringsFit;
    if list != [] {
      var k := ReadsShare(env, list, r, true);
      ReadsFit(env, list[0], r[..k]);
      AllReadFit(env, list[1..], r[k..]);
      forall j | 0 <= j < |list| ensures StringsFit(list[j]) {
        if j > 0 {
          assert list[j] == list[1..][j - 1];
        }
      }
    }
  }

  /** What the parser makes of a body can be diffed and patched: the body's own limit and that of its
      highlighted code are enough. */
  lemma ParseFits(env: Env, body: string, open: bool)
    requires |body| <= U16_MAX && HighlightFits(env, |body|)
    ensures StringsFit(Parse(env, body, open))
  {
    hide Reads, StringsFit, NoEmptySpans;
    WrittenExact(env, body, open);
    ReadsFit(env, Parse(env, body, open), Raws(BodyPieces(env, body, open)));
  }
}
