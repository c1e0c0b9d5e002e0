/** Which characters of a body its tree keeps. */
module BodyText {
  import opened PostBody
  import opened BodyTree
  import opened BodyLeaves
  import opened BodyMeaning
  import opened BodyParser

  // ----- the text without its delimiters -----

  predicate IsDelimiterChar(c: char) {
    c == '`' || c == '*' || c == '@' || c == '~'
  }

  predicate StartsPair(s: string) {
    |s| >= 2 && s[0] == s[1] && IsDelimiterChar(s[0])
  }

  /** Read from left to right, every delimiter dropped; between code delimiters only those count. */
  function Strip(s: string): (r: string)
    ensures |r| <= |s|
    decreases |s|
  {
    if s == [] then []
    else if StartsPair(s) then if s[0] == '`' then StripCode(s[2..]) else Strip(s[2..])
    else [s[0]] + Strip(s[1..])
  }

  function StripCode(s: string): (r: string)
    ensures |r| <= |s|
    decreases |s|
  {
    if s == [] then []
    else if StartsPair(s) && s[0] == '`' then Strip(s[2..])
    else [s[0]] + StripCode(s[1..])
  }

  /** No pair of the delimiter characters of the levels before `level`. */
  predicate NoPairs(s: string, level: nat)
    requires level <= INNERMOST
  {
    forall l | 0 <= l < level :: FindPair(s, DelimiterChar(l)).None?
  }

  /** A text cut in two strips in two, unless the cut goes through a delimiter or a code span. */
  lemma {:induction false} StripConcat(a: string, b: string)
    requires FindPair(a, '`').None?
    requires a == [] || b == [] || a[|a| - 1] != b[0] || !IsDelimiterChar(b[0])
    ensures Strip(a + b) == Strip(a) + Strip(b)
    decreases |a|
  {
    hide FindPair, Strip, StartsPair;
    StripNothing();
    if a == [] {
      assert a + b == b && [] + Strip(b) == Strip(b);
    } else {
      PairAhead(a, b);
      var n := if StartsPair(a) then 2 else 1;
      PairIsTwo(a);
      NoPairAfter(a, '`', n);
      if n < |a| {
        assert a[n..][|a[n..]| - 1] == a[|a| - 1];
      }
      StripConcat(a[n..], b);
      StripCut(a, b, n);
    }
  }

  /** One step of stripping, the cut still ahead. */
  lemma StripCut(a: string, b: string, n: nat)
    requires a != [] && n <= |a| && n == if StartsPair(a) then 2 else 1
    requires (StartsPair(a + b) <==> StartsPair(a)) && (StartsPair(a) ==> a[0] != '`')
    requires Strip(a[n..] + b) == Strip(a[n..]) + Strip(b)
    ensures Strip(a + b) == Strip(a) + Strip(b)
  {
    hide Strip, StartsPair;
    assert (a + b)[0] == a[0] && (a + b)[n..] == a[n..] + b;
    StripStep(a);
    StripStep(a + b);
    if n == 1 {
      assert [a[0]] + (Strip(a[1..]) + Strip(b)) == [a[0]] + Strip(a[1..]) + Strip(b);
    }
  }

  lemma StripNothing()
    ensures Strip([]) == [] && StripCode([]) == []
  {
  }

  lemma StripStep(s: string)
    requires s != [] && (StartsPair(s) ==> s[0] != '`')
    ensures Strip(s) == if StartsPair(s) then Strip(s[2..]) else [s[0]] + Strip(s[1..])
  {
  }

  lemma PairIsTwo(s: string)
    ensures StartsPair(s) ==> |s| >= 2
  {
  }

  /** The cut neither makes a pair nor breaks one; and a pair found is not of code delimiters. */
  lemma PairAhead(a: string, b: string)
    requires a != [] && FindPair(a, '`').None?
    requires b == [] || a[|a| - 1] != b[0] || !IsDelimiterChar(b[0])
    ensures StartsPair(a + b) <==> StartsPair(a)
    ensures StartsPair(a) ==> a[0] != '`' && (a + b)[0] == a[0]
  {
    assert (a + b)[0] == a[0];
    if |a| > 1 {
      assert (a + b)[1] == a[1];
    } else if b != [] {
      assert (a + b)[1] == b[0];
    }
  }

  lemma {:induction false} NoPairAfter(s: string, c: char, k: nat)
    requires k <= |s| && FindPair(s, c).None?
    ensures FindPair(s[k..], c).None?
    decreases k
  {
    if k != 0 {
      if |s| < 2 {
      } else {
        NoPairAfter(s[1..], c, k - 1);
        assert s[1..][k - 1..] == s[k..];
      }
    }
  }

  lemma {:induction false} NoPairBefore(s: string, c: char, k: nat)
    requires k <= |s| && (FindPair(s, c).Some? ==> k <= FindPair(s, c).value + 1)
    ensures FindPair(s[..k], c).None?
  {
    if k >= 2 {
      NoPairBefore(s[1..], c, k - 1);
      assert s[..k][1..] == s[1..][..k - 1];
    }
  }

  /** Before the first pair of `c` the last character is not `c`. */
  lemma {:induction false} BeforePair(s: string, c: char)
    requires FindPair(s, c).Some?
    ensures var i := FindPair(s, c).value; i > 0 ==> s[i - 1] != c
  {
    if FindPair(s, c).value > 0 {
      BeforePair(s[1..], c);
    }
  }

  lemma NoPairsWithin(s: string, level: nat, i: nat, j: nat)
    requires level <= INNERMOST && i <= j <= |s| && NoPairs(s, level)
    ensures NoPairs(s[i..j], level)
  {
    forall l | 0 <= l < level ensures FindPair(s[i..j], DelimiterChar(l)).None? {
      NoPairAfter(s, DelimiterChar(l), i);
      NoPairBefore(s[i..], DelimiterChar(l), j - i);
      assert s[i..][..j - i] == s[i..j];
    }
  }

  lemma NoPairFirst(s: string)
    requires NoPairs(s, INNERMOST)
    ensures !StartsPair(s)
  {
    assert FindPair(s, DelimiterChar(0)).None? && FindPair(s, DelimiterChar(1)).None?;
    assert FindPair(s, DelimiterChar(2)).None? && FindPair(s, DelimiterChar(3)).None?;
  }

  /** Without any pair there is nothing to drop. */
  lemma {:induction false} StripPlain(s: string)
    requires NoPairs(s, INNERMOST)
    ensures Strip(s) == s
    decreases |s|
  {
    if s != [] {
      NoPairFirst(s);
      NoPairsWithin(s, INNERMOST, 1, |s|);
      assert s[1..|s|] == s[1..];
      StripPlain(s[1..]);
    }
  }

  lemma {:induction false} StripCodePlain(a: string, b: string)
    requires FindPair(a, '`').None?
    requires a == [] || b == [] || a[|a| - 1] != '`' || b[0] != '`'
    ensures StripCode(a + b) == a + StripCode(b)
    decreases |a|
  {
    if a == [] {
      assert a + b == b;
    } else {
      NoPairAfter(a, '`', 1);
      StripCodePlain(a[1..], b);
      CodeAhead(a, b);
      assert [a[0]] + (a[1..] + StripCode(b)) == a + StripCode(b);
    }
  }

  lemma CodeAhead(a: string, b: string)
    requires a != [] && FindPair(a, '`').None?
    requires b == [] || a[|a| - 1] != '`' || b[0] != '`'
    ensures StripCode(a + b) == [a[0]] + StripCode(a[1..] + b)
  {
    hide StripCode, FindPair;
    assert (a + b)[0] == a[0] && (a + b)[1..] == a[1..] + b;
    NoPairAhead(a);
    if |a| > 1 {
      assert (a + b)[1] == a[1];
    } else if b != [] {
      assert (a + b)[1] == b[0];
    }
    CodeStep(a + b);
  }

  lemma NoPairAhead(a: string)
    requires FindPair(a, '`').None?
    ensures |a| >= 2 ==> a[0] != '`' || a[1] != '`'
  {
  }

  lemma CodeStep(s: string)
    requires s != [] && (|s| >= 2 ==> s[0] != '`' || s[1] != '`')
    ensures StripCode(s) == [s[0]] + StripCode(s[1..])
  {
  }

  // ----- where text is lost -----

  /** No empty span is followed, in its fragment, by text that would have been kept. */
  predicate Lossless(level: nat, frag: string)
    requires level <= INNERMOST
    decreases |frag|, INNERMOST - level
  {
    if level == INNERMOST || frag == [] then true
    else
      match FindPair(frag, DelimiterChar(level))
      case None => Lossless(level + 1, frag)
      case Some(start) => Lossless(level + 1, frag[..start]) && LosslessAfter(level, frag[start + 2..])
  }

  predicate LosslessAfter(level: nat, frag: string)
    requires level < INNERMOST
    decreases |frag|, INNERMOST + 2
  {
    match FindPair(frag, DelimiterChar(level))
    case None => LosslessSpan(level, frag)
    case Some(end) =>
      if end == 0 then Strip(frag[2..]) == []
      else LosslessSpan(level, frag[..end]) && Lossless(0, frag[end + 2..])
  }

  predicate LosslessSpan(level: nat, frag: string)
    requires level < INNERMOST
    decreases |frag|, INNERMOST + 1
  {
    level != 0 ==> Lossless(level + 1, frag)
  }

  /** Text kept out of what it is kept from, and whether all of it was. */
  predicate Keeps(kept: string, all: string, lossless: bool) {
    && (lossless ==> kept == all)
    && (!lossless ==> |kept| < |all|)
  }

  lemma KeepsBoth(k1: string, a1: string, l1: bool, k2: string, a2: string, l2: bool)
    requires Keeps(k1, a1, l1) && Keeps(k2, a2, l2)
    ensures Keeps(k1 + k2, a1 + a2, l1 && l2)
  {
  }

  /** What an opening delimiter at a level is followed by, stripped. */
  function StripAfter(level: nat, s: string): string {
    if level == 0 then StripCode(s) else Strip(s)
  }

  /** Up to the first delimiter of a level, and from after it. */
  lemma StripAtPair(level: nat, s: string)
    requires level < INNERMOST && NoPairs(s, level) && FindPair(s, DelimiterChar(level)).Some?
    ensures var i := FindPair(s, DelimiterChar(level)).value;
            Strip(s) == Strip(s[..i]) + StripAfter(level, s[i + 2..])
  {
    hide FindPair, Strip, StripCode, StripAfter;
    var c := DelimiterChar(level);
    var i := FindPair(s, c).value;
    BeforePair(s, c);
    assert level > 0 ==> FindPair(s, DelimiterChar(0)).None?;
    NoPairBefore(s, '`', i);
    assert s == s[..i] + s[i..];
    StripConcat(s[..i], s[i..]);
    assert s[i..][2..] == s[i + 2..];
    StripOpening(level, s[i..]);
  }

  lemma StripOpening(level: nat, s: string)
    requires level < INNERMOST && |s| >= 2 && s[0] == s[1] == DelimiterChar(level)
    ensures Strip(s) == StripAfter(level, s[2..])
  {
  }

  lemma {:induction false} EmitKeeps(env: Env, level: nat, frag: string, flags: Flags)
    requires level <= INNERMOST && NoPairs(frag, level)
    ensures Keeps(Sources(Emit(env, level, frag, flags)), Strip(frag), Lossless(level, frag))
    decreases |frag|, INNERMOST - level
  {
    hide Lines, FindPair, Strip, StripAfter, Keeps, Emit, Remainder, Lossless, LosslessAfter, NoPairs;
    if level == INNERMOST || frag == [] || FindPair(frag, DelimiterChar(level)).None? {
      EmitPlain(env, level, frag, flags);
    }
    if level == INNERMOST {
      LinesSources(env, frag, flags);
      StripPlain(frag);
      KeepsAll(frag);
    } else if frag == [] {
      StripNothing();
      KeepsAll([]);
    } else {
      var found := FindPair(frag, DelimiterChar(level));
      if found.None? {
        OneMoreLevel(frag, level);
        EmitKeeps(env, level + 1, frag, flags);
      } else {
        var start := found.value;
        FirstPart(frag, level);
        EmitKeeps(env, level + 1, frag[..start], flags);
        RemainderKeeps(env, level, frag[start + 2..], flags);
        PairKeeps(level, frag, Emit(env, level + 1, frag[..start], flags),
                  Remainder(env, level, frag[start + 2..], flags));
        EmitAtPair(env, level, frag, flags);
      }
    }
  }

  /** Where no span opens. */
  lemma {:induction false} EmitPlain(env: Env, level: nat, frag: string, flags: Flags)
    requires level <= INNERMOST
    requires level == INNERMOST || frag == [] || FindPair(frag, DelimiterChar(level)).None?
    ensures Emit(env, level, frag, flags)
            == if level == INNERMOST then Lines(env, frag, flags)
               else if frag == [] then [] else Emit(env, level + 1, frag, flags)
    ensures Lossless(level, frag) <==> level == INNERMOST || frag == [] || Lossless(level + 1, frag)
  {
    hide FindPair, Remainder;
  }

  lemma {:induction false} NothingEmitted(env: Env, level: nat, frag: string, flags: Flags)
    requires level <= INNERMOST
    ensures frag == [] ==> Emit(env, level, frag, flags) == []
  {
  }

  /** A span that opens at once has nothing before it. */
  lemma {:induction false} EmitAtPair(env: Env, level: nat, frag: string, flags: Flags)
    requires level < INNERMOST && FindPair(frag, DelimiterChar(level)).Some?
    ensures var i := FindPair(frag, DelimiterChar(level)).value;
            Emit(env, level, frag, flags)
            == Emit(env, level + 1, frag[..i], flags) + Remainder(env, level, frag[i + 2..], flags)
  {
    hide FindPair, Remainder;
    var i := FindPair(frag, DelimiterChar(level)).value;
    NothingEmitted(env, level + 1, frag[..i], flags);
  }

  lemma {:induction false} LosslessAtPair(level: nat, frag: string)
    requires level < INNERMOST && FindPair(frag, DelimiterChar(level)).Some?
    ensures var i := FindPair(frag, DelimiterChar(level)).value;
            Lossless(level, frag) <==> Lossless(level + 1, frag[..i]) && LosslessAfter(level, frag[i + 2..])
  {
    hide FindPair, LosslessAfter;
  }

  /** What is kept on both sides of an opening delimiter adds up. */
  lemma PairKeeps(level: nat, frag: string, before: seq<Piece>, after: seq<Piece>)
    requires level < INNERMOST && NoPairs(frag, level) && FindPair(frag, DelimiterChar(level)).Some?
    requires var i := FindPair(frag, DelimiterChar(level)).value;
             && Keeps(Sources(before), Strip(frag[..i]), Lossless(level + 1, frag[..i]))
             && Keeps(Sources(after), StripAfter(level, frag[i + 2..]), LosslessAfter(level, frag[i + 2..]))
    ensures Keeps(Sources(before + after), Strip(frag), Lossless(level, frag))
  {
    hide FindPair, Strip, StripAfter, Keeps, Lossless, LosslessAfter;
    var i := FindPair(frag, DelimiterChar(level)).value;
    LosslessAtPair(level, frag);
    StripAtPair(level, frag);
    PiecesConcat(before, after);
    KeepsBoth(Sources(before), Strip(frag[..i]), Lossless(level + 1, frag[..i]),
              Sources(after), StripAfter(level, frag[i + 2..]), LosslessAfter(level, frag[i + 2..]));
  }

  lemma KeepsAll(s: string)
    ensures Keeps(s, s, true)
  {
  }

  lemma OneMoreLevel(s: string, level: nat)
    requires level < INNERMOST && NoPairs(s, level) && FindPair(s, DelimiterChar(level)).None?
    ensures NoPairs(s, level + 1)
  {
  }

  /** Around the first delimiter of a level. */
  lemma FirstPart(s: string, level: nat)
    requires level < INNERMOST && NoPairs(s, level) && FindPair(s, DelimiterChar(level)).Some?
    ensures var i := FindPair(s, DelimiterChar(level)).value;
            NoPairs(s[..i], level + 1) && NoPairs(s[i + 2..], level)
  {
    var i := FindPair(s, DelimiterChar(level)).value;
    NoPairsWithin(s, level, 0, i);
    assert s[0..i] == s[..i];
    NoPairBefore(s, DelimiterChar(level), i);
    NoPairsWithin(s, level, i + 2, |s|);
    assert s[i + 2..|s|] == s[i + 2..];
  }

  lemma {:induction false} RemainderKeeps(env: Env, level: nat, frag: string, flags: Flags)
    requires level < INNERMOST && NoPairs(frag, level)
    ensures Keeps(Sources(Remainder(env, level, frag, flags)), StripAfter(level, frag), LosslessAfter(level, frag))
    decreases |frag|, INNERMOST + 2
  {
    hide FindPair, Strip, StripCode, StripAfter, Keeps, Emit, Span, Lossless, LosslessSpan;
    var found := FindPair(frag, DelimiterChar(level));
    if found.None? {
      SpanKeeps(env, level, frag, flags, false);
      OneSource(Span(env, level, frag, flags, false));
    } else if found.value == 0 {
      EmptySpanLoses(level, frag);
    } else {
      var end := found.value;
      var span := Span(env, level, frag[..end], flags, true);
      FirstPart(frag, level);
      SpanPart(level, frag);
      SpanKeeps(env, level, frag[..end], flags, true);
      OneSource(span);
      assert NoPairs(frag[end + 2..], 0);
      EmitKeeps(env, 0, frag[end + 2..], flags);
      PiecesConcat([span], Emit(env, 0, frag[end + 2..], flags));
      KeepsBoth(span.src, StripAfter(level, frag[..end]), LosslessSpan(level, frag[..end]),
                Sources(Emit(env, 0, frag[end + 2..], flags)), Strip(frag[end + 2..]), Lossless(0, frag[end + 2..]));
    }
  }

  lemma EmptySpanLoses(level: nat, frag: string)
    requires level < INNERMOST && FindPair(frag, DelimiterChar(level)) == Some(0)
    ensures Keeps([], StripAfter(level, frag), Strip(frag[2..]) == [])
  {
  }

  lemma CodeEnds(s: string)
    requires |s| >= 2 && s[0] == s[1] == '`'
    ensures StripCode(s) == Strip(s[2..])
  {
  }

  /** A span ends at the next delimiter of its level. */
  lemma SpanPart(level: nat, frag: string)
    requires level < INNERMOST && NoPairs(frag, level) && FindPair(frag, DelimiterChar(level)).Some?
    ensures var end := FindPair(frag, DelimiterChar(level)).value;
            && FindPair(frag[..end], DelimiterChar(level)).None?
            && StripAfter(level, frag) == StripAfter(level, frag[..end]) + Strip(frag[end + 2..])
  {
    hide FindPair, Strip, StripCode;
    var c := DelimiterChar(level);
    var end := FindPair(frag, c).value;
    NoPairBefore(frag, c, end);
    if level == 0 {
      BeforePair(frag, c);
      assert frag == frag[..end] + frag[end..];
      StripCodePlain(frag[..end], frag[end..]);
      CodeKept(frag[..end]);
      CodeEnds(frag[end..]);
      assert frag[end..][2..] == frag[end + 2..];
    } else {
      StripAtPair(level, frag);
    }
  }

  lemma CodeKept(frag: string)
    requires FindPair(frag, '`').None?
    ensures StripCode(frag) == frag
  {
    hide FindPair, StripCode;
    StripNothing();
    StripCodePlain(frag, []);
    assert frag + [] == frag;
  }

  lemma {:induction false} SpanKeeps(env: Env, level: nat, frag: string, flags: Flags, closed: bool)
    requires level < INNERMOST && NoPairs(frag, level) && FindPair(frag, DelimiterChar(level)).None?
    ensures Keeps(Span(env, level, frag, flags, closed).src, StripAfter(level, frag), LosslessSpan(level, frag))
    decreases |frag|, INNERMOST + 1
  {
    hide FindPair, Strip, StripCode, Keeps, Emit, Lossless;
    if level == 0 {
      CodeKept(frag);
      KeepsAll(frag);
    } else {
      OneMoreLevel(frag, level);
      EmitKeeps(env, level + 1, frag, flags);
    }
  }

  // ----- whole bodies -----

  function JoinTexts(segments: seq<Segment>): string {
    if segments == [] then [] else segments[0].text + JoinTexts(segments[1..])
  }

  /** What is kept of a body at best: quoting cuts it up first, and code spans end with their segment. */
  function StripSegments(segments: seq<Segment>): string {
    if segments == [] then [] else Strip(segments[0].text) + StripSegments(segments[1..])
  }

  predicate AllLossless(segments: seq<Segment>) {
    forall k | 0 <= k < |segments| :: Lossless(0, segments[k].text)
  }

  lemma SegmentKeeps(env: Env, s: Segment, flags: Flags)
    ensures Keeps(Sources(SegmentPieces(env, s, flags)), Strip(s.text), Lossless(0, s.text))
  {
    hide Strip, Lossless, Emit;
    if s.level == 0 {
      EmitKeeps(env, 0, s.text, flags);
    } else {
      EmitKeeps(env, 0, s.text, flags.(quoted := true));
      OneSource(SegmentPieces(env, s, flags)[0]);
    }
  }

  lemma {:induction false} SegmentsKeep(env: Env, segments: seq<Segment>, flags: Flags)
    ensures Keeps(Sources(AllPieces(env, segments, flags)), StripSegments(segments), AllLossless(segments))
  {
    hide Strip, Lossless, SegmentPieces;
    if segments != [] {
      var s, rest := segments[0], segments[1..];
      SegmentKeeps(env, s, flags);
      SegmentsKeep(env, rest, flags);
      PiecesConcat(SegmentPieces(env, s, flags), AllPieces(env, rest, flags));
      KeepsBoth(Sources(SegmentPieces(env, s, flags)), Strip(s.text), Lossless(0, s.text),
                Sources(AllPieces(env, rest, flags)), StripSegments(rest), AllLossless(rest));
      assert AllLossless(segments) <==> Lossless(0, s.text) && AllLossless(rest) by {
        assert segments == [s] + rest;
      }
    }
  }

  /** Exact, for every body: the text of the tree is the text of the body without its delimiters
      iff no empty span is followed by text in its fragment; otherwise it is shorter. */
  lemma ConservationExact(env: Env, body: string, open: bool)
    ensures var kept := Sources(BodyPieces(env, body, open)); var all := StripSegments(Segments(env, body));
            && Reads(env, Parse(env, body, open), kept, false)
            && (kept == all <==> AllLossless(Segments(env, body)))
            && |kept| <= |all|
  {
    ParseReads(env, body, open);
    SegmentsKeep(env, Segments(env, body), Flags(open, false));
  }

  // ----- segmentation loses nothing and respects lines -----

  lemma {:induction false} SegmentsJoin(env: Env, body: string, start: nat, i: nat, level: nat)
    requires start <= i <= |body|
    ensures JoinTexts(SegmentsFrom(env, body, start, i, level)) == body[start..]
    decreases |body| - i
  {
    hide LevelOf, Position;
    OneText(Closed(body, start, i, level));
    if i == |body| {
      assert body[start..i] == body[start..];
    } else {
      var line := LevelOf(env, body[i..]);
      var next := NextLine(body, i);
      if line == level {
        SegmentsJoin(env, body, start, next, level);
      } else {
        SegmentsJoin(env, body, i, next, line);
        JoinConcat(Closed(body, start, i, level), SegmentsFrom(env, body, i, next, line));
        assert body[start..i] + body[i..] == body[start..];
      }
    }
  }

  lemma OneText(segments: seq<Segment>)
    ensures |segments| == 1 ==> JoinTexts(segments) == segments[0].text
    ensures segments == [] ==> JoinTexts(segments) == []
  {
    if |segments| == 1 {
      assert segments[1..] == [];
    }
  }

  lemma {:induction false} JoinConcat(a: seq<Segment>, b: seq<Segment>)
    ensures JoinTexts(a + b) == JoinTexts(a) + JoinTexts(b)
    decreases |a|
  {
    if a == [] {
      assert a + b == b && [] + JoinTexts(b) == JoinTexts(b);
    } else {
      var first, rest := a[0], a[1..];
      assert a + b == [first] + (rest + b);
      JoinConcat(rest, b);
      JoinFirst(first, rest + b);
      assert first.text + (JoinTexts(rest) + JoinTexts(b)) == first.text + JoinTexts(rest) + JoinTexts(b);
    }
  }

  lemma JoinFirst(s: Segment, rest: seq<Segment>)
    ensures JoinTexts([s] + rest) == s.text + JoinTexts(rest)
  {
    assert ([s] + rest)[1..] == rest;
  }

  /** Each segment but the last ends with a newline. */
  ghost predicate WholeLines(segments: seq<Segment>) {
    forall k | 0 <= k < |segments| ::
      segments[k].text != [] && (k + 1 < |segments| ==> segments[k].text[|segments[k].text| - 1] == '\n')
  }

  lemma OneMoreLine(s: Segment, rest: seq<Segment>)
    requires s.text != [] && s.text[|s.text| - 1] == '\n' && WholeLines(rest)
    ensures WholeLines([s] + rest)
  {
  }

  lemma {:induction false} SegmentsAreLines(env: Env, body: string, start: nat, i: nat, level: nat)
    requires start <= i <= |body| && (0 < i < |body| ==> body[i - 1] == '\n')
    ensures WholeLines(SegmentsFrom(env, body, start, i, level))
    decreases |body| - i
  {
    hide LevelOf;
    if i != |body| {
      var line := LevelOf(env, body[i..]);
      var next := NextLine(body, i);
      LineEnds(body, i);
      if line == level {
        SegmentsAreLines(env, body, start, next, level);
      } else {
        SegmentsAreLines(env, body, i, next, line);
        if start != i {
          assert body[start..i][|body[start..i]| - 1] == body[i - 1];
          OneMoreLine(Segment(level, body[start..i]), SegmentsFrom(env, body, i, next, line));
        }
      }
    }
  }

  lemma LineEnds(body: string, i: nat)
    requires i < |body|
    ensures var j := NextLine(body, i); j < |body| ==> body[j - 1] == '\n'
  {
    var n := Position(body[i..], '\n');
    if n < |body[i..]| {
      assert body[i..][n] == '\n';
    }
  }

  lemma {:induction false} StripWhole(segments: seq<Segment>)
    requires WholeLines(segments) && FindPair(JoinTexts(segments), '`').None?
    ensures StripSegments(segments) == Strip(JoinTexts(segments))
  {
    hide Strip, FindPair;
    if segments == [] {
      StripNothing();
    } else {
      var text, rest := segments[0].text, JoinTexts(segments[1..]);
      assert text + rest == JoinTexts(segments);
      assert (text + rest)[|text|..] == rest && (text + rest)[..|text|] == text;
      NoPairAfter(text + rest, '`', |text|);
      NoPairBefore(text + rest, '`', |text|);
      forall k | 0 <= k < |segments[1..]|
        ensures var t := segments[1..][k].text; t != [] && (k + 1 < |segments[1..]| ==> t[|t| - 1] == '\n')
      {
        assert segments[1..][k] == segments[k + 1];
      }
      StripWhole(segments[1..]);
      if |segments| == 1 {
        assert rest == [];
      }
      StripConcat(text, rest);
    }
  }

  // ----- a simple sufficient condition -----

  predicate FourAt(s: string, c: char, i: nat)
    requires i + 4 <= |s|
  {
    s[i] == c && s[i + 1] == c && s[i + 2] == c && s[i + 3] == c
  }

  /** No delimiter immediately doubled. */
  predicate NoDoubled(s: string) {
    forall l, i | 0 <= l < INNERMOST && 0 <= i < |s| - 3 :: !FourAt(s, DelimiterChar(l), i)
  }

  lemma NoDoubledWithin(s: string, i: nat, j: nat)
    requires i <= j <= |s| && NoDoubled(s)
    ensures NoDoubled(s[i..j])
  {
    forall l, k | 0 <= l < INNERMOST && 0 <= k < |s[i..j]| - 3 ensures !FourAt(s[i..j], DelimiterChar(l), k) {
      assert !FourAt(s, DelimiterChar(l), i + k);
    }
  }

  lemma {:induction false} NoDoubledLossless(level: nat, frag: string)
    requires level <= INNERMOST && NoDoubled(frag)
    ensures Lossless(level, frag)
    decreases |frag|, INNERMOST - level
  {
    hide FindPair, NoDoubled;
    if level < INNERMOST && frag != [] {
      var found := FindPair(frag, DelimiterChar(level));
      if found.None? {
        NoDoubledLossless(level + 1, frag);
      } else {
        var start := found.value;
        NoDoubledWithin(frag, 0, start);
        assert frag[0..start] == frag[..start];
        NoDoubledWithin(frag, start + 2, |frag|);
        assert frag[start + 2..|frag|] == frag[start + 2..];
        NoDoubledLossless(level + 1, frag[..start]);
        NotTwice(level, frag, start);
        NoDoubledLosslessAfter(level, frag[start + 2..]);
      }
    }
  }

  lemma NotTwice(level: nat, frag: string, start: nat)
    requires level < INNERMOST && NoDoubled(frag) && FindPair(frag, DelimiterChar(level)) == Some(start)
    ensures FindPair(frag[start + 2..], DelimiterChar(level)) != Some(0)
  {
    var c := DelimiterChar(level);
    var rest := frag[start + 2..];
    if |rest| >= 2 {
      assert rest[0] == frag[start + 2] && rest[1] == frag[start + 3];
      assert !FourAt(frag, c, start);
    }
  }

  lemma {:induction false} NoDoubledLosslessAfter(level: nat, frag: string)
    requires level < INNERMOST && NoDoubled(frag) && FindPair(frag, DelimiterChar(level)) != Some(0)
    ensures LosslessAfter(level, frag)
    decreases |frag|, INNERMOST + 2
  {
    hide FindPair, NoDoubled;
    var found := FindPair(frag, DelimiterChar(level));
    if found.None? {
      NoDoubledLosslessSpan(level, frag);
    } else {
      var end := found.value;
      NoDoubledWithin(frag, 0, end);
      assert frag[0..end] == frag[..end];
      NoDoubledWithin(frag, end + 2, |frag|);
      assert frag[end + 2..|frag|] == frag[end + 2..];
      NoDoubledLosslessSpan(level, frag[..end]);
      NoDoubledLossless(0, frag[end + 2..]);
    }
  }

  lemma {:induction false} NoDoubledLosslessSpan(level: nat, frag: string)
    requires level < INNERMOST && NoDoubled(frag)
    ensures LosslessSpan(level, frag)
    decreases |frag|, INNERMOST + 1
  {
    if level != 0 {
      NoDoubledLossless(level + 1, frag);
    }
  }

  lemma {:induction false} SegmentsWithin(segments: seq<Segment>)
    requires NoDoubled(JoinTexts(segments))
    ensures forall k | 0 <= k < |segments| :: NoDoubled(segments[k].text)
  {
    hide NoDoubled;
    if segments != [] {
      var text, rest := segments[0].text, JoinTexts(segments[1..]);
      NoDoubledWithin(text + rest, 0, |text|);
      assert (text + rest)[0..|text|] == text;
      NoDoubledWithin(text + rest, |text|, |text + rest|);
      assert (text + rest)[|text|..|text + rest|] == rest;
      SegmentsWithin(segments[1..]);
      forall k | 0 <= k < |segments| ensures NoDoubled(segments[k].text) {
        if k > 0 {
          assert segments[1..][k - 1] == segments[k];
        }
      }
    }
  }

  /** Text conservation: without code and doubled delimiters the leaves of the tree, read in order,
      are the body with its delimiters left out, across quotes, nested spans and restarts. */
  lemma TextConserved(env: Env, body: string, open: bool)
    requires FindPair(body, '`').None? && NoDoubled(body)
    ensures Reads(env, Parse(env, body, open), Strip(body), false)
  {
    var segments := Segments(env, body);
    SegmentsJoin(env, body, 0, 0, 0);
    assert body[0..] == body;
    SegmentsAreLines(env, body, 0, 0, 0);
    SegmentsWithin(segments);
    forall k | 0 <= k < |segments| ensures Lossless(0, segments[k].text) {
      NoDoubledLossless(0, segments[k].text);
    }
    StripWhole(segments);
    ConservationExact(env, body, open);
  }
}
