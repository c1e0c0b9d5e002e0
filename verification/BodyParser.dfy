/** The body parser: nested formatting spans that restart at the outermost level, and quoting. */
module BodyParser {
  import opened PostBody
  import opened BodyTree
  import opened BodyLeaves
  import opened BodyMeaning

  // ----- spans -----

  /** Formatting levels, outermost first: code, spoiler, bold, italic. */
  const INNERMOST := 4

  /** A delimiter is this character twice. */
  function DelimiterChar(level: nat): char
    requires level < INNERMOST
  {
    if level == 0 then '`' else if level == 1 then '*' else if level == 2 then '@' else '~'
  }

  /** Position of the first `cc`, if any. */
  function FindPair(s: string, c: char): (i: Option<nat>)
    ensures i.Some? ==> i.value + 2 <= |s| && s[i.value] == s[i.value + 1] == c
  {
    if |s| < 2 then None
    else if s[0] == c && s[1] == c then Some(0)
    else
      var i := FindPair(s[1..], c);
      if i.None? then None else Some(i.value + 1)
  }

  function Tree(ps: seq<Piece>): Node {
    MergeAll(Empty, Nodes(ps))
  }

  function Wrap(level: nat, n: Node): Node
    requires 0 < level < INNERMOST
  {
    if level == 1 then Spoiler(n) else if level == 2 then Bold(n) else Italic(n)
  }

  /** `split_and_parse` at one level: everything it appends, with where it came from. */
  function Emit(env: Env, level: nat, frag: string, flags: Flags): seq<Piece>
    requires level <= INNERMOST
    decreases |frag|, INNERMOST - level
  {
    if level == INNERMOST then Lines(env, frag, flags)
    else if frag == [] then []
    else
      match FindPair(frag, DelimiterChar(level))
      case None => Emit(env, level + 1, frag, flags)
      case Some(start) =>
        (if start == 0 then [] else Emit(env, level + 1, frag[..start], flags))
        + Remainder(env, level, frag[start + 2..], flags)
  }

  /** From just after an opening delimiter. */
  function Remainder(env: Env, level: nat, frag: string, flags: Flags): seq<Piece>
    requires level < INNERMOST
    decreases |frag|, INNERMOST + 2
  {
    match FindPair(frag, DelimiterChar(level))
    case None => [Span(env, level, frag, flags, false)]
    case Some(end) =>
      // an empty span drops the rest of the fragment
      if end == 0 then []
      else [Span(env, level, frag[..end], flags, true)] + Emit(env, 0, frag[end + 2..], flags)
  }

  function Delimiter(level: nat): string
    requires level < INNERMOST
  {
    [DelimiterChar(level), DelimiterChar(level)]
  }

  function Span(env: Env, level: nat, frag: string, flags: Flags, closed: bool): Piece
    requires level < INNERMOST
    decreases |frag|, INNERMOST + 1
  {
    var end := if closed then Delimiter(level) else [];
    if level == 0 then Piece(Code(env.highlight(frag)), frag, Delimiter(level) + frag + end)
    else
      var inner := Emit(env, level + 1, frag, flags);
      Piece(Wrap(level, Tree(inner)), Sources(inner), Delimiter(level) + Raws(inner) + end)
  }

  // ----- quoting -----

  /** Whole lines of one quotation level. */
  datatype Segment = Segment(level: nat, text: string)

  function NextLine(body: string, i: nat): (j: nat)
    requires i < |body|
    ensures i < j <= |body|
  {
    var n := Position(body[i..], '\n');
    if i + n == |body| then |body| else i + n + 1
  }

  /** `parse_quoted` from a line start `i`, with a segment open since `start`. */
  function SegmentsFrom(env: Env, body: string, start: nat, i: nat, level: nat): seq<Segment>
    requires start <= i <= |body|
    decreases |body| - i
  {
    if i == |body| then Closed(body, start, i, level)
    else
      var line := LevelOf(env, body[i..]);
      if line == level then SegmentsFrom(env, body, start, NextLine(body, i), level)
      else Closed(body, start, i, level) + SegmentsFrom(env, body, i, NextLine(body, i), line)
  }

  function Closed(body: string, start: nat, i: nat, level: nat): seq<Segment>
    requires start <= i <= |body|
  {
    if start == i then [] else [Segment(level, body[start..i])]
  }

  function SegmentPieces(env: Env, s: Segment, flags: Flags): seq<Piece> {
    if s.level == 0 then Emit(env, 0, s.text, flags)
    else
      var inner := Emit(env, 0, s.text, flags.(quoted := true));
      [Piece(Quoted(Tree(inner)), Sources(inner), Raws(inner))]
  }

  function AllPieces(env: Env, segments: seq<Segment>, flags: Flags): seq<Piece> {
    if segments == [] then []
    else SegmentPieces(env, segments[0], flags) + AllPieces(env, segments[1..], flags)
  }

  function Segments(env: Env, body: string): seq<Segment> {
    SegmentsFrom(env, body, 0, 0, 0)
  }

  function BodyPieces(env: Env, body: string, open: bool): seq<Piece> {
    AllPieces(env, Segments(env, body), Flags(open, false))
  }

  function Parse(env: Env, body: string, open: bool): Node {
    Tree(BodyPieces(env, body, open))
  }

  // ----- the tree reads as the sources of its pieces -----

  lemma ReadConcat(env: Env, a: seq<Piece>, b: seq<Piece>)
    requires AllRead(env, a) && AllRead(env, b)
    ensures AllRead(env, a + b)
  {
  }

  lemma TreeReads(env: Env, ps: seq<Piece>)
    requires AllRead(env, ps)
    ensures Reads(env, Tree(ps), Sources(ps), false) && Reads(env, Tree(ps), Raws(ps), true)
  {
    assert [] + Sources(ps) == Sources(ps) && [] + Raws(ps) == Raws(ps);
    MergedReads(env, Empty, [], ps, false);
    MergedReads(env, Empty, [], ps, true);
  }

  lemma {:induction false} EmitReads(env: Env, level: nat, frag: string, flags: Flags)
    requires level <= INNERMOST
    ensures AllRead(env, Emit(env, level, frag, flags))
    decreases |frag|, INNERMOST - level
  {
    hide Reads, ReadsSpan, Lines, FindPair;
    if level == INNERMOST {
      LinesRead(env, frag, flags);
    } else if frag != [] {
      match FindPair(frag, DelimiterChar(level))
      case None => EmitReads(env, level + 1, frag, flags);
      case Some(start) =>
        EmitReads(env, level + 1, frag[..start], flags);
        RemainderReads(env, level, frag[start + 2..], flags);
    }
  }

  lemma {:induction false} RemainderReads(env: Env, level: nat, frag: string, flags: Flags)
    requires level < INNERMOST
    ensures AllRead(env, Remainder(env, level, frag, flags))
    decreases |frag|, INNERMOST + 2
  {
    hide Reads, ReadsSpan, FindPair;
    match FindPair(frag, DelimiterChar(level))
    case None => SpanReads(env, level, frag, flags, false);
    case Some(end) =>
      if end != 0 {
        SpanReads(env, level, frag[..end], flags, true);
        EmitReads(env, 0, frag[end + 2..], flags);
      }
  }

  lemma {:induction false} SpanReads(env: Env, level: nat, frag: string, flags: Flags, closed: bool)
    requires level < INNERMOST
    ensures PieceReads(env, Span(env, level, frag, flags, closed))
    decreases |frag|, INNERMOST + 1
  {
    hide Reads, ReadsSpan, Emit;
    if level == 0 {
      CodeReads(env, frag, closed);
    } else {
      var inner := Emit(env, level + 1, frag, flags);
      EmitReads(env, level + 1, frag, flags);
      TreeReads(env, inner);
      WrapReads(env, level, Tree(inner), Sources(inner), Raws(inner), closed);
    }
  }

  lemma CodeReads(env: Env, frag: string, closed: bool)
    ensures var end := if closed then "``" else [];
            PieceReads(env, Piece(Code(env.highlight(frag)), frag, "``" + frag + end))
  {
    var r := "``" + frag + if closed then "``" else [];
    if closed {
      assert r[2..|r| - 2] == frag;
    } else {
      assert r[2..] == frag;
    }
  }

  lemma WrapReads(env: Env, level: nat, x: Node, src: string, raw: string, closed: bool)
    requires 0 < level < INNERMOST && Reads(env, x, src, false) && Reads(env, x, raw, true)
    ensures var end := if closed then Delimiter(level) else [];
            PieceReads(env, Piece(Wrap(level, x), src, Delimiter(level) + raw + end))
  {
    hide Reads, ReadsSpan;
    var end := if closed then Delimiter(level) else [];
    SpanRead(env, x, raw, DelimiterChar(level), closed);
    WrapIs(env, level, x, Delimiter(level) + raw + end);
    WrapIs(env, level, x, src);
  }

  lemma WrapIs(env: Env, level: nat, x: Node, r: string)
    requires 0 < level < INNERMOST
    ensures Reads(env, Wrap(level, x), r, true) <==> ReadsSpan(env, x, r, DelimiterChar(level))
    ensures Reads(env, Wrap(level, x), r, false) <==> Reads(env, x, r, false)
  {
    hide ReadsSpan;
  }

  lemma QuotedReads(env: Env, text: string, flags: Flags)
    ensures var inner := Emit(env, 0, text, flags.(quoted := true));
            PieceReads(env, Piece(Quoted(Tree(inner)), Sources(inner), Raws(inner)))
  {
    hide Emit, ReadsSpan;
    EmitReads(env, 0, text, flags.(quoted := true));
    TreeReads(env, Emit(env, 0, text, flags.(quoted := true)));
  }

  lemma {:induction false} AllPiecesRead(env: Env, segments: seq<Segment>, flags: Flags)
    ensures AllRead(env, AllPieces(env, segments, flags))
  {
    hide Emit, Reads, ReadsSpan;
    if segments != [] {
      var s := segments[0];
      QuotedReads(env, s.text, flags);
      EmitReads(env, 0, s.text, flags);
      AllPiecesRead(env, segments[1..], flags);
      ReadConcat(env, SegmentPieces(env, s, flags), AllPieces(env, segments[1..], flags));
    }
  }

  /** For every body: the leaves of the tree, in order, spell the sources of its pieces, in order, and
      with the delimiters of the spans read as well, what was written. */
  lemma ParseReads(env: Env, body: string, open: bool)
    ensures Reads(env, Parse(env, body, open), Sources(BodyPieces(env, body, open)), false)
    ensures Reads(env, Parse(env, body, open), Raws(BodyPieces(env, body, open)), true)
  {
    AllPiecesRead(env, Segments(env, body), Flags(open, false));
    TreeReads(env, BodyPieces(env, body, open));
  }

  // ----- normal form -----

  ghost predicate NormalPiece(p: Piece) {
    Normal(p.node) && !p.node.Children?
  }

  ghost predicate AllNormal(ps: seq<Piece>) {
    forall k | 0 <= k < |ps| :: NormalPiece(ps[k])
  }

  /** Appending these pieces to any normal tree leaves it normal. */
  ghost predicate KeepsNormal(ps: seq<Piece>) {
    forall d | Normal(d) :: Normal(MergeAll(d, Nodes(ps)))
  }

  lemma {:induction false} NormalPiecesKeep(ps: seq<Piece>, d: Node)
    requires AllNormal(ps) && Normal(d)
    ensures Normal(MergeAll(d, Nodes(ps)))
    decreases |ps|
  {
    hide Merge, Normal;
    if ps != [] {
      assert NormalPiece(ps[0]);
      MergeNormal(d, ps[0].node);
      assert Nodes(ps)[1..] == Nodes(ps[1..]);
      NormalPiecesKeep(ps[1..], Merge(d, ps[0].node));
    }
  }

  lemma KeepConcat(a: seq<Piece>, b: seq<Piece>)
    requires KeepsNormal(a) && KeepsNormal(b)
    ensures KeepsNormal(a + b)
  {
    hide Merge, Normal;
    PiecesConcat(a, b);
    forall d | Normal(d) ensures Normal(MergeAll(d, Nodes(a + b))) {
      MergeAllConcat(d, Nodes(a), Nodes(b));
    }
  }

  lemma NormalOnesKeep(ps: seq<Piece>)
    requires AllNormal(ps)
    ensures KeepsNormal(ps)
  {
    hide Merge, Normal;
    forall d | Normal(d) ensures Normal(MergeAll(d, Nodes(ps))) {
      NormalPiecesKeep(ps, d);
    }
  }

  lemma SpacedWordNormal(env: Env, word: string, flags: Flags)
    requires word != []
    ensures AllNormal(SpacedWord(env, word, flags))
  {
    InnerNormal(env, SplitPunctuation(word), flags);
  }

  lemma WordNormal(env: Env, word: string, flags: Flags)
    requires word != []
    ensures AllNormal(WordPieces(env, word, flags))
  {
  }

  lemma LeafKinds(env: Env, comm: string, src: string, word: string)
    requires StartsWith(src, comm)
    ensures FixedCommand(comm).Some? ==> FixedCommand(comm).value.Pending?
    ensures ArgumentCommand(comm, src).Some? ==> ArgumentCommand(comm, src).value.Pending?
    ensures var l := LinkOf(env, word);
            l.Some? ==> l.value.node.Pending? || l.value.node.PostLink? || l.value.node.Reference?
  {
  }

  lemma InnerNormal(env: Env, p: Punctuated, flags: Flags)
    requires p.word != []
    ensures AllNormal(Inner(env, p, flags))
  {
    hide WordPieces, LinkOf, FixedCommand, ArgumentCommand;
    WordNormal(env, p.word, flags);
    if p.word[0] == '#' && !flags.quoted {
      var comm := p.word[1..];
      LeafKinds(env, comm, if p.trail == ")" then comm + ")" else comm, p.word);
    } else {
      LeafKinds(env, [], [], p.word);
    }
  }

  /** Empty words leave empty text behind only for a moment: a space precedes or follows. */
  lemma {:induction false} WordsNormal(env: Env, line: string, flags: Flags, d: Node)
    requires Normal(d) && (line == [] ==> EndsWithText(d))
    ensures Normal(MergeAll(d, Nodes(Words(env, line, flags))))
    decreases |line|
  {
    hide SpacedWord, Merge, Normal, EndsWithText;
    var i := Position(line, ' ');
    if i == |line| {
      LastWordNormal(env, line, flags, d);
    } else {
      var word, rest := line[..i], line[i + 1..];
      var a := SpacedWord(env, word, flags);
      SpaceNormal(env, word, flags, d);
      ThreeSources(a, TextPiece(" "), Words(env, rest, flags));
      MergeAllConcat(d, Nodes(a) + [Text(" ")], Nodes(Words(env, rest, flags)));
      MergeAllConcat(d, Nodes(a), [Text(" ")]);
      MergeOne(MergeAll(d, Nodes(a)), Text(" "));
      WordsNormal(env, rest, flags, Merge(MergeAll(d, Nodes(a)), Text(" ")));
    }
  }

  lemma EmptyWord(env: Env, flags: Flags)
    ensures Nodes(SpacedWord(env, [], flags)) == [Text([])]
  {
    OneSource(TextPiece([]));
  }

  lemma LastWordNormal(env: Env, word: string, flags: Flags, d: Node)
    requires Normal(d) && (word == [] ==> EndsWithText(d))
    ensures Normal(MergeAll(d, Nodes(SpacedWord(env, word, flags))))
  {
    if word == [] {
      EmptyWord(env, flags);
      MergeOne(d, Text([]));
      EmptyTextVanishes(d, []);
    } else {
      SpacedWordNormal(env, word, flags);
      NormalPiecesKeep(SpacedWord(env, word, flags), d);
    }
  }

  lemma SpaceNormal(env: Env, word: string, flags: Flags, d: Node)
    requires Normal(d)
    ensures var e := Merge(MergeAll(d, Nodes(SpacedWord(env, word, flags))), Text(" "));
            Normal(e) && EndsWithText(e)
  {
    if word == [] {
      EmptyWord(env, flags);
      MergeOne(d, Text([]));
      EmptyTextVanishes(d, " ");
      MergeNormal(d, Text(" "));
    } else {
      SpacedWordNormal(env, word, flags);
      NormalPiecesKeep(SpacedWord(env, word, flags), d);
      MergeNormal(MergeAll(d, Nodes(SpacedWord(env, word, flags))), Text(" "));
    }
  }

  lemma LineNormal(env: Env, line: string, flags: Flags)
    ensures KeepsNormal(Line(env, line, flags))
  {
    hide Words, Merge, Normal;
    forall d | Normal(d) ensures Normal(MergeAll(d, Nodes(Line(env, line, flags)))) {
      if line != [] {
        WordsNormal(env, line, flags, d);
      }
    }
  }

  lemma {:induction false} LinesNormal(env: Env, frag: string, flags: Flags)
    ensures KeepsNormal(Lines(env, frag, flags))
    decreases |frag|
  {
    hide Line, Merge, KeepsNormal;
    var i := Position(frag, '\n');
    if i == |frag| {
      LineNormal(env, frag, flags);
    } else {
      LineNormal(env, frag[..i], flags);
      LinesNormal(env, frag[i + 1..], flags);
      NormalOnesKeep([Leaf(Newline, "\n")]);
      KeepConcat(Line(env, frag[..i], flags), [Leaf(Newline, "\n")]);
      KeepConcat(Line(env, frag[..i], flags) + [Leaf(Newline, "\n")], Lines(env, frag[i + 1..], flags));
    }
  }

  lemma TreeNormal(ps: seq<Piece>)
    requires KeepsNormal(ps)
    ensures Normal(Tree(ps))
  {
    assert Normal(Empty);
  }

  lemma {:induction false} EmitNormal(env: Env, level: nat, frag: string, flags: Flags)
    requires level <= INNERMOST
    ensures KeepsNormal(Emit(env, level, frag, flags))
    decreases |frag|, INNERMOST - level
  {
    hide Lines, FindPair, KeepsNormal;
    NormalOnesKeep([]);
    if level == INNERMOST {
      LinesNormal(env, frag, flags);
    } else if frag != [] {
      match FindPair(frag, DelimiterChar(level))
      case None => EmitNormal(env, level + 1, frag, flags);
      case Some(start) =>
        EmitNormal(env, level + 1, frag[..start], flags);
        RemainderNormal(env, level, frag[start + 2..], flags);
        KeepConcat(if start == 0 then [] else Emit(env, level + 1, frag[..start], flags),
                   Remainder(env, level, frag[start + 2..], flags));
    }
  }

  lemma {:induction false} RemainderNormal(env: Env, level: nat, frag: string, flags: Flags)
    requires level < INNERMOST
    ensures KeepsNormal(Remainder(env, level, frag, flags))
    decreases |frag|, INNERMOST + 2
  {
    hide FindPair, KeepsNormal;
    NormalOnesKeep([]);
    match FindPair(frag, DelimiterChar(level))
    case None =>
      SpanNormal(env, level, frag, flags, false);
      NormalOnesKeep([Span(env, level, frag, flags, false)]);
    case Some(end) =>
      if end != 0 {
        SpanNormal(env, level, frag[..end], flags, true);
        NormalOnesKeep([Span(env, level, frag[..end], flags, true)]);
        EmitNormal(env, 0, frag[end + 2..], flags);
        KeepConcat([Span(env, level, frag[..end], flags, true)], Emit(env, 0, frag[end + 2..], flags));
      }
  }

  lemma {:induction false} SpanNormal(env: Env, level: nat, frag: string, flags: Flags, closed: bool)
    requires level < INNERMOST
    ensures NormalPiece(Span(env, level, frag, flags, closed))
    decreases |frag|, INNERMOST + 1
  {
    if level != 0 {
      EmitNormal(env, level + 1, frag, flags);
      TreeNormal(Emit(env, level + 1, frag, flags));
    }
  }

  lemma {:induction false} AllPiecesNormal(env: Env, segments: seq<Segment>, flags: Flags)
    ensures KeepsNormal(AllPieces(env, segments, flags))
  {
    hide Emit, KeepsNormal;
    if segments == [] {
      NormalOnesKeep([]);
    } else {
      var s := segments[0];
      EmitNormal(env, 0, s.text, flags);
      if s.level != 0 {
        EmitNormal(env, 0, s.text, flags.(quoted := true));
        TreeNormal(Emit(env, 0, s.text, flags.(quoted := true)));
        NormalOnesKeep(SegmentPieces(env, s, flags));
      }
      AllPiecesNormal(env, segments[1..], flags);
      KeepConcat(SegmentPieces(env, s, flags), AllPieces(env, segments[1..], flags));
    }
  }

  /** Every parse ends in a tree in normal form. */
  lemma ParseNormal(env: Env, body: string, open: bool)
    ensures Normal(Parse(env, body, open))
  {
    AllPiecesNormal(env, Segments(env, body), Flags(open, false));
    TreeNormal(BodyPieces(env, body, open));
  }
}
