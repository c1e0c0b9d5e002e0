/** The parser as it runs: every function appends to the tree it is handed. */
module BodyMethods {
  import opened PostBody
  import opened BodyTree
  import opened BodyLeaves
  import opened BodyParser

  /** The tree after pieces were appended to it. */
  function Put(d: Node, ps: seq<Piece>): Node {
    MergeAll(d, Nodes(ps))
  }

  lemma PutNothing(d: Node)
    ensures Put(d, []) == d
  {
  }

  lemma PutOne(d: Node, p: Piece)
    ensures Put(d, [p]) == Merge(d, p.node)
  {
    OneSource(p);
    MergeOne(d, p.node);
  }

  lemma PutConcat(d: Node, a: seq<Piece>, b: seq<Piece>)
    ensures Put(d, a + b) == Put(Put(d, a), b)
  {
    PiecesConcat(a, b);
    MergeAllConcat(d, Nodes(a), Nodes(b));
  }

  lemma PutAround(d: Node, a: seq<Piece>, p: Piece, b: seq<Piece>)
    ensures Put(d, a + [p] + b) == Put(Merge(Put(d, a), p.node), b)
  {
    hide Merge, Put;
    PutConcat(d, a + [p], b);
    PutConcat(d, a, [p]);
    PutOne(Put(d, a), p);
  }

  // ----- words -----

  /** `*dst += s` for text that may be absent. */
  method AppendIfAny(dst: NodeSlot, s: string)
    modifies dst
    ensures dst.node == Put(old(dst.node), if s == [] then [] else [TextPiece(s)])
  {
    hide Merge, MergeAll, Put;
    PutNothing(dst.node);
    PutOne(dst.node, TextPiece(s));
    if s != [] {
      dst.AddText(s);
    }
  }

  method ParseWord(dst: NodeSlot, env: Env, word: string, flags: Flags)
    modifies dst
    ensures dst.node == Put(old(dst.node), WordPieces(env, word, flags))
  {
    hide Merge, MergeAll, Put, URLOf;
    var before := dst.node;
    var gt := 0;
    while gt < |word| && word[gt] == '>'
      invariant gt <= |word| && forall k | 0 <= k < gt :: word[k] == '>'
    {
      gt := gt + 1;
    }
    RunIs(word, '>', gt);
    var url := if gt == |word| then None else URLOf(env, word[gt..], flags);
    if url.None? {
      dst.AddText(word);
      PutOne(before, TextPiece(word));
    } else {
      AppendIfAny(dst, word[..gt]);
      PutOne(dst.node, Leaf(url.value, word[gt..]));
      PutConcat(before, if gt == 0 then [] else [TextPiece(word[..gt])], [Leaf(url.value, word[gt..])]);
      dst.AddNode(url.value);
    }
  }

  lemma {:induction false} RunIs(s: string, c: char, n: nat)
    requires n <= |s| && (forall k | 0 <= k < n :: s[k] == c) && (n < |s| ==> s[n] != c)
    ensures Run(s, c) == n
  {
    if n > 0 {
      RunIs(s[1..], c, n - 1);
    }
  }

  method ParseLink(dst: NodeSlot, env: Env, word: string) returns (matched: bool)
    modifies dst
    ensures matched <==> LinkOf(env, word).Some?
    ensures dst.node
            == if matched then Put(old(dst.node), LinkPieces(word, LinkOf(env, word).value)) else old(dst.node)
  {
    hide Merge, MergeAll, Put;
    var before := dst.node;
    var l := LinkOf(env, word);
    matched := l.Some?;
    if matched {
      var extra, p := l.value.extra, Leaf(l.value.node, word[l.value.extra..]);
      AppendIfAny(dst, word[..extra]);
      PutOne(dst.node, p);
      PutConcat(before, if extra == 0 then [] else [TextPiece(word[..extra])], [p]);
      dst.AddNode(p.node);
    }
  }

  /** The command node and what is left of the trailing punctuation, if the word is a command. */
  method ParseCommand(dst: NodeSlot, word: string, original: string, lead: string, trail: string)
    returns (matched: bool, rest: string)
    requires word != [] && word[0] == '#' && lead + word + trail == original && |lead| <= 1
    modifies dst
    ensures matched <==> CommandPiece(word, trail).Some?
    ensures dst.node
            == if matched then Put(old(dst.node), [CommandPiece(word, trail).value.0]) else old(dst.node)
    ensures rest == if matched then CommandPiece(word, trail).value.1 else trail
  {
    hide Merge, MergeAll, Put, FixedCommand, ArgumentCommand;
    var comm := word[1..];
    var fixed := FixedCommand(comm);
    if fixed.Some? {
      PutOne(dst.node, Leaf(fixed.value, word));
      dst.AddNode(fixed.value);
      return true, trail;
    }
    var src := comm;
    if trail == ")" {
      src := original[if lead != [] then 2 else 1..];
      assert src == comm + ")";
    }
    assert StartsWith(src, comm);
    var n := ArgumentCommand(comm, src);
    matched := n.Some?;
    rest := trail;
    if matched {
      if trail == ")" {
        rest := [];
      }
      PutOne(dst.node, Leaf(n.value, "#" + src));
      dst.AddNode(n.value);
    }
  }

  /** A word as a hash command, with the trailing punctuation it leaves. */
  function CommandPiece(word: string, trail: string): Option<(Piece, string)>
    requires word != []
  {
    var comm := word[1..];
    var src := if trail == ")" then comm + ")" else comm;
    if FixedCommand(comm).Some? then Some((Leaf(FixedCommand(comm).value, word), trail))
    else
      assert StartsWith(src, comm);
      var n := ArgumentCommand(comm, src);
      if n.None? then None
      else Some((Leaf(n.value, "#" + src), if trail == ")" then [] else trail))
  }

  lemma InnerByCommand(env: Env, p: Punctuated, flags: Flags)
    requires p.word != [] && p.word[0] == '#' && !flags.quoted
    ensures var c := CommandPiece(p.word, p.trail);
            Inner(env, p, flags)
            == if c.Some? then [c.value.0] + TrailPieces(c.value.1)
               else WordPieces(env, p.word, flags) + TrailPieces(p.trail)
  {
    hide FixedCommand, ArgumentCommand, WordPieces;
  }

  function TrailPieces(trail: string): seq<Piece> {
    if trail == [] then [] else [TextPiece(trail)]
  }

  /** The word proper: a command, a link or anything else, and its trailing punctuation. */
  method ParseInner(dst: NodeSlot, env: Env, original: string, p: Punctuated, flags: Flags)
    requires p.lead + p.word + p.trail == original && |p.lead| <= 1
    modifies dst
    ensures dst.node == Put(old(dst.node), Inner(env, p, flags))
  {
    hide Merge, MergeAll, Put, WordPieces, LinkPieces, CommandPiece, LinkOf;
    var before := dst.node;
    ghost var pieces := WordPieces(env, p.word, flags);
    var matched, trail := false, p.trail;
    if p.word != [] && p.word[0] == '#' && !flags.quoted {
      InnerByCommand(env, p, flags);
      matched, trail := ParseCommand(dst, p.word, original, p.lead, p.trail);
      if matched {
        pieces := [CommandPiece(p.word, p.trail).value.0];
      }
    } else if p.word != [] && p.word[0] == '>' {
      InnerByWord(env, p, flags);
      matched := ParseLink(dst, env, p.word);
      if matched {
        pieces := LinkPieces(p.word, LinkOf(env, p.word).value);
      }
    } else {
      InnerByWord(env, p, flags);
    }
    if !matched {
      ParseWord(dst, env, p.word, flags);
    }
    assert dst.node == Put(before, pieces);
    AppendIfAny(dst, trail);
    PutConcat(before, pieces, TrailPieces(trail));
  }

  lemma InnerByWord(env: Env, p: Punctuated, flags: Flags)
    requires p.word == [] || p.word[0] != '#' || flags.quoted
    ensures Inner(env, p, flags)
            == (if p.word != [] && p.word[0] == '>' && LinkOf(env, p.word).Some?
                then LinkPieces(p.word, LinkOf(env, p.word).value) else WordPieces(env, p.word, flags))
               + TrailPieces(p.trail)
  {
    hide WordPieces, LinkPieces, LinkOf;
  }

  method ParseSpacedWord(dst: NodeSlot, env: Env, word: string, flags: Flags)
    modifies dst
    ensures dst.node == Put(old(dst.node), SpacedWord(env, word, flags))
  {
    hide Merge, MergeAll, Put, Inner;
    var before := dst.node;
    var p := SplitPunctuation(word);
    AppendIfAny(dst, p.lead);
    ParseInner(dst, env, word, p, flags);
    PutConcat(before, if p.lead == [] then [] else [TextPiece(p.lead)], Inner(env, p, flags));
  }

  // ----- lines -----

  lemma PutWords(d: Node, env: Env, line: string, flags: Flags)
    ensures var i := Position(line, ' ');
            Put(d, Words(env, line, flags))
            == if i == |line| then Put(d, SpacedWord(env, line, flags))
               else Put(Merge(Put(d, SpacedWord(env, line[..i], flags)), Text(" ")), Words(env, line[i + 1..], flags))
  {
    hide Merge, MergeAll, Put, SpacedWord;
    var i := Position(line, ' ');
    if i != |line| {
      var a, b := SpacedWord(env, line[..i], flags), Words(env, line[i + 1..], flags);
      PutAround(d, a, TextPiece(" "), b);
    }
  }

  /** Fragment without newlines, split on every space. */
  method ParseLineFragment(dst: NodeSlot, env: Env, line: string, flags: Flags)
    modifies dst
    ensures dst.node == Put(old(dst.node), Line(env, line, flags))
  {
    hide Merge, MergeAll, Put, SpacedWord, Words;
    PutNothing(dst.node);
    if line == [] {
      return;
    }
    var rest := line;
    var i := Position(rest, ' ');
    while i != |rest|
      invariant i == Position(rest, ' ')
      invariant Put(dst.node, Words(env, rest, flags)) == Put(old(dst.node), Words(env, line, flags))
      decreases |rest|
    {
      PutWords(dst.node, env, rest, flags);
      ParseSpacedWord(dst, env, rest[..i], flags);
      dst.AddText(" ");
      rest := rest[i + 1..];
      i := Position(rest, ' ');
    }
    PutWords(dst.node, env, rest, flags);
    ParseSpacedWord(dst, env, rest, flags);
  }

  lemma PutLines(d: Node, env: Env, frag: string, flags: Flags)
    ensures var i := Position(frag, '\n');
            Put(d, Lines(env, frag, flags))
            == if i == |frag| then Put(d, Line(env, frag, flags))
               else Put(Merge(Put(d, Line(env, frag[..i], flags)), Newline), Lines(env, frag[i + 1..], flags))
  {
    hide Merge, MergeAll, Put, Line;
    var i := Position(frag, '\n');
    if i != |frag| {
      var a, b := Line(env, frag[..i], flags), Lines(env, frag[i + 1..], flags);
      PutAround(d, a, Leaf(Newline, "\n"), b);
    }
  }

  /** Fragment without formatting, split on every newline. */
  method ParseFragment(dst: NodeSlot, env: Env, frag: string, flags: Flags)
    modifies dst
    ensures dst.node == Put(old(dst.node), Lines(env, frag, flags))
  {
    hide Merge, MergeAll, Put, Line, Lines;
    var rest := frag;
    var i := Position(rest, '\n');
    while i != |rest|
      invariant i == Position(rest, '\n')
      invariant Put(dst.node, Lines(env, rest, flags)) == Put(old(dst.node), Lines(env, frag, flags))
      decreases |rest|
    {
      PutLines(dst.node, env, rest, flags);
      ParseLineFragment(dst, env, rest[..i], flags);
      dst.AddNode(Newline);
      rest := rest[i + 1..];
      i := Position(rest, '\n');
    }
    PutLines(dst.node, env, rest, flags);
    ParseLineFragment(dst, env, rest, flags);
  }

  // ----- spans -----

  /** `split_and_parse` for one delimiter; past the innermost level the text is plain. */
  method SplitAndParse(dst: NodeSlot, env: Env, level: nat, frag: string, flags: Flags)
    requires level <= INNERMOST
    modifies dst
    ensures dst.node == Put(old(dst.node), Emit(env, level, frag, flags))
    decreases |frag|, INNERMOST - level
  {
    hide Merge, MergeAll, Put, FindPair, Lines, Remainder;
    var before := dst.node;
    PutNothing(before);
    if level == INNERMOST {
      ParseFragment(dst, env, frag, flags);
      return;
    }
    if frag == [] {
      return;
    }
    var found := FindPair(frag, DelimiterChar(level));
    if found.None? {
      SplitAndParse(dst, env, level + 1, frag, flags);
    } else {
      var start := found.value;
      if start != 0 {
        SplitAndParse(dst, env, level + 1, frag[..start], flags);
      }
      WithRemainder(dst, env, level, frag[start + 2..], flags);
      PutConcat(before, if start == 0 then [] else Emit(env, level + 1, frag[..start], flags),
                Remainder(env, level, frag[start + 2..], flags));
    }
  }

  /** After an opening delimiter: the span, then everything else from the outermost level again. */
  method WithRemainder(dst: NodeSlot, env: Env, level: nat, frag: string, flags: Flags)
    requires level < INNERMOST
    modifies dst
    ensures dst.node == Put(old(dst.node), Remainder(env, level, frag, flags))
    decreases |frag|, INNERMOST + 2
  {
    hide Merge, MergeAll, Put, FindPair, Emit, Span;
    var before := dst.node;
    var found := FindPair(frag, DelimiterChar(level));
    if found.None? {
      PutOne(before, Span(env, level, frag, flags, false));
      Matched(dst, env, level, frag, flags);
    } else if found.value == 0 {
      PutNothing(before);
    } else {
      var end := found.value;
      PutOne(before, Span(env, level, frag[..end], flags, true));
      Matched(dst, env, level, frag[..end], flags);
      SplitAndParse(dst, env, 0, frag[end + 2..], flags);
      PutConcat(before, [Span(env, level, frag[..end], flags, true)], Emit(env, 0, frag[end + 2..], flags));
    }
  }

  /** The inside of a span, collected into a fresh node and wrapped. */
  method Matched(dst: NodeSlot, env: Env, level: nat, frag: string, flags: Flags)
    requires level < INNERMOST
    modifies dst
    ensures forall closed :: dst.node == Merge(old(dst.node), Span(env, level, frag, flags, closed).node)
    decreases |frag|, INNERMOST + 1
  {
    hide Merge, MergeAll, FindPair, Emit;
    if level == 0 {
      dst.AddNode(Code(env.highlight(frag)));
    } else {
      var n := new NodeSlot();
      SplitAndParse(n, env, level + 1, frag, flags);
      dst.AddNode(BodyParser.Wrap(level, n.node));
    }
  }

  // ----- quoting -----

  lemma PutSegments(d: Node, env: Env, a: seq<Segment>, b: seq<Segment>, flags: Flags)
    requires |a| <= 1
    ensures Put(d, AllPieces(env, a + b, flags)) == Put(Put(d, AllPieces(env, a, flags)), AllPieces(env, b, flags))
  {
    hide Merge, MergeAll, Put, SegmentPieces;
    NoPieces(d, env, flags);
    if a == [] {
      assert a + b == b;
    } else {
      assert (a + b)[0] == a[0] && (a + b)[1..] == b && a[1..] == [];
      PutConcat(d, SegmentPieces(env, a[0], flags), AllPieces(env, b, flags));
      assert SegmentPieces(env, a[0], flags) + [] == SegmentPieces(env, a[0], flags);
    }
  }

  lemma PutSegment(d: Node, env: Env, s: Segment, flags: Flags)
    ensures Put(d, AllPieces(env, [s], flags)) == Put(d, SegmentPieces(env, s, flags))
  {
    hide Merge, MergeAll, Put, SegmentPieces;
    assert SegmentPieces(env, s, flags) + AllPieces(env, [], flags) == SegmentPieces(env, s, flags);
  }

  /** `close_level`: commit the lines since `start`. */
  method CloseLevel(dst: NodeSlot, env: Env, body: string, start: nat, i: nat, level: nat, flags: Flags)
    requires start <= i <= |body|
    modifies dst
    ensures dst.node == Put(old(dst.node), AllPieces(env, Closed(body, start, i, level), flags))
  {
    hide Merge, MergeAll, Put, Emit, AllPieces;
    NoPieces(dst.node, env, flags);
    if start != i {
      var text := body[start..i];
      PutSegment(dst.node, env, Segment(level, text), flags);
      if level == 0 {
        SplitAndParse(dst, env, 0, text, flags);
      } else {
        var n := new NodeSlot();
        SplitAndParse(n, env, 0, text, flags.(quoted := true));
        TreeIsPut(Emit(env, 0, text, flags.(quoted := true)));
        PutOne(dst.node, SegmentPieces(env, Segment(level, text), flags)[0]);
        dst.AddNode(Quoted(n.node));
      }
    }
  }

  lemma TreeIsPut(ps: seq<Piece>)
    ensures Tree(ps) == Put(Empty, ps)
  {
  }

  /** Whole bodies, line by line: runs of lines of one quotation level are parsed together. */
  method ParseQuoted(dst: NodeSlot, env: Env, body: string, flags: Flags)
    modifies dst
    ensures dst.node == Put(old(dst.node), AllPieces(env, Segments(env, body), flags))
  {
    hide Merge, MergeAll, Put, LevelOf, AllPieces;
    var start: nat, i: nat, level: nat := 0, 0, 0;
    while i < |body|
      invariant start <= i <= |body|
      invariant Put(dst.node, AllPieces(env, SegmentsFrom(env, body, start, i, level), flags))
             == Put(old(dst.node), AllPieces(env, Segments(env, body), flags))
    {
      var line := if body[i] == '>' then LevelOf(env, body[i..]) else 0;
      LevelAtSign(env, body[i..]);
      var next := NextLine(body, i);
      if line != level {
        PutSegments(dst.node, env, Closed(body, start, i, level), SegmentsFrom(env, body, i, next, line), flags);
        CloseLevel(dst, env, body, start, i, level, flags);
        level := line;
        start := i;
      }
      i := next;
    }
    CloseLevel(dst, env, body, start, i, level, flags);
  }

  lemma NoPieces(d: Node, env: Env, flags: Flags)
    ensures Put(d, AllPieces(env, [], flags)) == d
  {
  }

  lemma LevelAtSign(env: Env, line: string)
    requires line != []
    ensures line[0] != '>' ==> LevelOf(env, line) == 0
  {
  }

  /** `parse`: the tree of a body. Every call ends, and what it returns is the tree of the pieces. */
  method ParseBody(env: Env, body: string, open: bool) returns (n: Node)
    ensures n == Parse(env, body, open)
  {
    hide Merge, MergeAll, Put, AllPieces, Segments;
    TreeIsPut(BodyPieces(env, body, open));
    var dst := new NodeSlot();
    if body != [] {
      ParseQuoted(dst, env, body, Flags(open, false));
    } else {
      NoBody(env, open);
    }
    n := dst.node;
  }

  lemma NoBody(env: Env, open: bool)
    ensures Parse(env, [], open) == Empty
  {
  }
}
