/** In the tree of a body no text holds a word that could have been a link, a command or a URL. */
module BodyClean {
  import opened MachineInts
  import opened PostBody
  import opened BodyTree
  import opened BodyLeaves
  import opened BodyMeaning
  import opened BodyParser
  import opened BodyText
  import opened BodyQuotes
  import opened BodyComplete

  // ----- text -----

  /** A stretch between spaces. */
  predicate WordAt(s: string, i: nat, j: nat) {
    && i < j <= |s| && ' ' !in s[i..j]
    && (i == 0 || s[i - 1] == ' ') && (j == |s| || s[j] == ' ')
  }

  ghost predicate CleanText(env: Env, quoted: bool, s: string) {
    forall i, j | 0 <= i < j <= |s| && WordAt(s, i, j) :: !Recognised(env, quoted, s[i..j])
  }

  predicate EndsWord(s: string) {
    s == [] || s[|s| - 1] == ' '
  }

  lemma CleanAppend(env: Env, quoted: bool, t: string, w: string)
    requires CleanText(env, quoted, t) && EndsWord(t) && ' ' !in w && !Recognised(env, quoted, w)
    ensures CleanText(env, quoted, t + w)
  {
    hide Recognised;
    var s := t + w;
    forall i, j | 0 <= i < j <= |s| && WordAt(s, i, j) ensures !Recognised(env, quoted, s[i..j]) {
      if j <= |t| {
        assert s[i..j] == t[i..j];
        assert j < |t| ==> s[j] == t[j];
        assert i > 0 ==> s[i - 1] == t[i - 1];
        assert WordAt(t, i, j);
      } else {
        WordFromEnd(t, w, i, j);
      }
    }
  }

  lemma WordFromEnd(t: string, w: string, i: nat, j: nat)
    requires EndsWord(t) && ' ' !in w && WordAt(t + w, i, j) && j > |t|
    ensures (t + w)[i..j] == w
  {
    var s := t + w;
    NoSpaceIn(s, i, j);
    assert t != [] ==> s[|t| - 1] == ' ';
    forall k | |t| <= k < |s| ensures s[k] != ' ' {
      assert s[k] == w[k - |t|];
    }
    assert i == |t| && j == |s|;
    assert s[|t|..|s|] == w;
  }

  lemma NoSpaceIn(s: string, i: nat, j: nat)
    requires i <= j <= |s| && ' ' !in s[i..j]
    ensures forall k | i <= k < j :: s[k] != ' '
  {
    forall k | i <= k < j ensures s[k] != ' ' {
      assert s[i..j][k - i] == s[k];
    }
  }

  lemma CleanSpace(env: Env, quoted: bool, t: string)
    requires CleanText(env, quoted, t)
    ensures CleanText(env, quoted, t + " ") && EndsWord(t + " ")
  {
    hide Recognised;
    var s := t + " ";
    forall i, j | 0 <= i < j <= |s| && WordAt(s, i, j) ensures !Recognised(env, quoted, s[i..j]) {
      NoSpaceIn(s, i, j);
      assert s[|t|] == ' ';
      assert s[i..j] == t[i..j];
      assert j < |t| ==> s[j] == t[j];
      assert i > 0 ==> s[i - 1] == t[i - 1];
      assert WordAt(t, i, j);
    }
  }

  lemma CleanNothing(env: Env, quoted: bool)
    ensures CleanText(env, quoted, [])
  {
  }

  // ----- trees -----

  ghost predicate Clean(env: Env, quoted: bool, n: Node)
    decreases n
  {
    match n
    case Text(s) => CleanText(env, quoted, s)
    case Children(xs) => forall k | 0 <= k < |xs| :: Clean(env, quoted, xs[k])
    case Spoiler(x) => Clean(env, quoted, x)
    case Bold(x) => Clean(env, quoted, x)
    case Italic(x) => Clean(env, quoted, x)
    case Quoted(x) => Clean(env, true, x)
    case _ => true
  }

  /** The text a tree ends with. */
  function LastText(d: Node): string {
    if d.Text? then d.text
    else if d.Children? && d.list != [] && d.list[|d.list| - 1].Text? then d.list[|d.list| - 1].text
    else []
  }

  /** All but the text at the end. */
  ghost predicate CleanBefore(env: Env, quoted: bool, d: Node) {
    if d.Text? then true
    else if d.Children? && d.list != [] && d.list[|d.list| - 1].Text?
    then forall k | 0 <= k < |d.list| - 1 :: Clean(env, quoted, d.list[k])
    else Clean(env, quoted, d)
  }

  lemma CleanIs(env: Env, quoted: bool, d: Node)
    ensures Clean(env, quoted, d) <==> CleanBefore(env, quoted, d) && CleanText(env, quoted, LastText(d))
  {
    hide CleanText;
    CleanNothing(env, quoted);
    if d.Children? && d.list != [] && d.list[|d.list| - 1].Text? {
      var last := d.list[|d.list| - 1];
      assert Clean(env, quoted, last) <==> CleanText(env, quoted, last.text);
      if CleanBefore(env, quoted, d) && CleanText(env, quoted, last.text) {
        forall k | 0 <= k < |d.list| ensures Clean(env, quoted, d.list[k]) {
        }
      }
    }
  }

  lemma TextMerged(env: Env, quoted: bool, d: Node, s: string)
    requires CleanBefore(env, quoted, d)
    ensures CleanBefore(env, quoted, Merge(d, Text(s))) && LastText(Merge(d, Text(s))) == LastText(d) + s
  {
    hide CleanText, Clean;
    assert [] + s == s;
    if d.Children? {
      ListMerged(env, quoted, d.list, s);
    } else {
      LeafMerged(env, quoted, d, s);
    }
  }

  lemma ListMerged(env: Env, quoted: bool, v: seq<Node>, s: string)
    requires CleanBefore(env, quoted, Children(v))
    ensures var e := Merge(Children(v), Text(s));
            CleanBefore(env, quoted, e) && LastText(e) == LastText(Children(v)) + s
  {
    ListParts(env, quoted, v);
    hide CleanText, Clean;
    assert [] + s == s;
    var e := Merge(Children(v), Text(s));
    forall k | 0 <= k < |e.list| - 1 ensures Clean(env, quoted, e.list[k]) {
      assert e.list[k] == v[k];
    }
  }

  lemma ListParts(env: Env, quoted: bool, v: seq<Node>)
    requires CleanBefore(env, quoted, Children(v))
    ensures forall k | 0 <= k < |v| && (k < |v| - 1 || !v[k].Text?) :: Clean(env, quoted, v[k])
  {
    hide CleanText;
  }

  lemma LeafMerged(env: Env, quoted: bool, d: Node, s: string)
    requires !d.Children? && CleanBefore(env, quoted, d)
    ensures CleanBefore(env, quoted, Merge(d, Text(s))) && LastText(Merge(d, Text(s))) == LastText(d) + s
  {
    hide CleanText, Clean;
    assert [] + s == s;
  }

  lemma NodeMerged(env: Env, quoted: bool, d: Node, n: Node)
    requires Clean(env, quoted, d) && Clean(env, quoted, n) && NoText(n)
    ensures Clean(env, quoted, Merge(d, n)) && LastText(Merge(d, n)) == []
  {
    hide CleanText;
  }

  lemma {:induction false} TextsMerged(env: Env, quoted: bool, d: Node, ps: seq<Piece>)
    requires AllText(ps) && CleanBefore(env, quoted, d)
    ensures var e := MergeAll(d, Nodes(ps));
            CleanBefore(env, quoted, e) && LastText(e) == LastText(d) + Sources(ps)
    decreases |ps|
  {
    hide Merge, MergeAll, Nodes, Sources, CleanBefore, LastText;
    if ps == [] {
      MergedNothing(d);
      NoSources();
      assert LastText(d) + [] == LastText(d);
    } else {
      TextMerged(env, quoted, d, ps[0].src);
      MergedFirst(d, ps);
      TextsMerged(env, quoted, Merge(d, ps[0].node), ps[1..]);
      assert LastText(d) + ps[0].src + Sources(ps[1..]) == LastText(d) + (ps[0].src + Sources(ps[1..]));
    }
  }

  lemma MergedFirst(d: Node, ps: seq<Piece>)
    requires ps != []
    ensures MergeAll(d, Nodes(ps)) == MergeAll(Merge(d, ps[0].node), Nodes(ps[1..]))
    ensures Sources(ps) == ps[0].src + Sources(ps[1..])
  {
    hide Merge;
    assert Nodes(ps)[1..] == Nodes(ps[1..]);
  }

  lemma NoSources()
    ensures Sources([]) == []
  {
  }

  /** Text that is no more than text, put behind a complete word. */
  lemma TextsKeepClean(env: Env, quoted: bool, d: Node, ps: seq<Piece>)
    requires AllText(ps) && Clean(env, quoted, d) && EndsWord(LastText(d))
    requires ' ' !in Sources(ps) && !Recognised(env, quoted, Sources(ps))
    ensures Clean(env, quoted, MergeAll(d, Nodes(ps)))
  {
    hide Clean, CleanBefore, CleanText, Recognised, LastText, Merge, MergeAll;
    CleanIs(env, quoted, d);
    TextsMerged(env, quoted, d, ps);
    CleanAppend(env, quoted, LastText(d), Sources(ps));
    CleanIs(env, quoted, MergeAll(d, Nodes(ps)));
  }

  lemma SimpleClean(env: Env, quoted: bool, n: Node)
    requires Simple(n)
    ensures Clean(env, quoted, n)
  {
  }

  lemma WordClean(env: Env, flags: Flags, d: Node, word: string)
    requires Clean(env, flags.quoted, d) && EndsWord(LastText(d)) && ' ' !in word
    ensures Clean(env, flags.quoted, MergeAll(d, Nodes(SpacedWord(env, word, flags))))
  {
    hide Clean, Recognised, LastText, Merge, SpacedWord, AroundLeaf;
    var q, ps := flags.quoted, SpacedWord(env, word, flags);
    SpacedWordRight(env, word, flags);
    if !Recognised(env, q, word) {
      TextsKeepClean(env, q, d, ps);
    } else {
      var a, leaf, b :| ps == a + [leaf] + b && AroundLeaf(env, flags, word, a, leaf, b);
      LeafClean(env, flags, d, word, a, leaf, b);
    }
  }

  lemma LeafClean(env: Env, flags: Flags, d: Node, word: string, a: seq<Piece>, leaf: Piece, b: seq<Piece>)
    requires Clean(env, flags.quoted, d) && EndsWord(LastText(d)) && AroundLeaf(env, flags, word, a, leaf, b)
    ensures Clean(env, flags.quoted, MergeAll(d, Nodes(a + [leaf] + b)))
  {
    hide Clean, Recognised, LastText, Merge, IsLeaf, SplitPunctuation;
    var q := flags.quoted;
    ThreePieces(d, a, leaf, b);
    TextsKeepClean(env, q, d, a);
    SimpleClean(env, q, leaf.node);
    var e := MergeAll(d, Nodes(a));
    NodeMerged(env, q, e, leaf.node);
    TextsKeepClean(env, q, Merge(e, leaf.node), b);
  }

  lemma ThreePieces(d: Node, a: seq<Piece>, leaf: Piece, b: seq<Piece>)
    ensures MergeAll(d, Nodes(a + [leaf] + b)) == MergeAll(Merge(MergeAll(d, Nodes(a)), leaf.node), Nodes(b))
  {
    hide Merge;
    PiecesConcat(a + [leaf], b);
    PiecesConcat(a, [leaf]);
    OneSource(leaf);
    MergeAllConcat(d, Nodes(a) + [leaf.node], Nodes(b));
    MergeAllConcat(d, Nodes(a), [leaf.node]);
    MergeOne(MergeAll(d, Nodes(a)), leaf.node);
  }

  lemma SpaceClean(env: Env, quoted: bool, d: Node)
    requires Clean(env, quoted, d)
    ensures var e := Merge(d, Text(" ")); Clean(env, quoted, e) && EndsWord(LastText(e))
  {
    hide Clean, CleanBefore, CleanText, LastText, Merge;
    CleanIs(env, quoted, d);
    TextMerged(env, quoted, d, " ");
    CleanSpace(env, quoted, LastText(d));
    CleanIs(env, quoted, Merge(d, Text(" ")));
  }

  lemma {:induction false} WordsClean(env: Env, flags: Flags, d: Node, line: string)
    requires Clean(env, flags.quoted, d) && EndsWord(LastText(d))
    ensures Clean(env, flags.quoted, MergeAll(d, Nodes(Words(env, line, flags))))
    decreases |line|
  {
    hide Clean, LastText, Merge, SpacedWord, EndsWord;
    var i := Position(line, ' ');
    if i == |line| {
      WordClean(env, flags, d, line);
    } else {
      var word, rest := line[..i], line[i + 1..];
      WordClean(env, flags, d, word);
      var a := SpacedWord(env, word, flags);
      ThreePieces(d, a, TextPiece(" "), Words(env, rest, flags));
      SpaceClean(env, flags.quoted, MergeAll(d, Nodes(a)));
      WordsClean(env, flags, Merge(MergeAll(d, Nodes(a)), Text(" ")), rest);
    }
  }

  lemma LineClean(env: Env, flags: Flags, d: Node, line: string)
    requires Clean(env, flags.quoted, d) && EndsWord(LastText(d))
    ensures Clean(env, flags.quoted, MergeAll(d, Nodes(Line(env, line, flags))))
  {
    hide Clean, LastText, Merge, Words;
    if line != [] {
      WordsClean(env, flags, d, line);
    }
  }

  lemma {:induction false} LinesClean(env: Env, flags: Flags, d: Node, frag: string)
    requires Clean(env, flags.quoted, d) && EndsWord(LastText(d))
    ensures Clean(env, flags.quoted, MergeAll(d, Nodes(Lines(env, frag, flags))))
    decreases |frag|
  {
    hide Clean, LastText, Merge, Line;
    var i := Position(frag, '\n');
    if i == |frag| {
      LineClean(env, flags, d, frag);
    } else {
      LineClean(env, flags, d, frag[..i]);
      var a := Line(env, frag[..i], flags);
      ThreePieces(d, a, Leaf(Newline, "\n"), Lines(env, frag[i + 1..], flags));
      NewlineClean(env, flags.quoted);
      NodeMerged(env, flags.quoted, MergeAll(d, Nodes(a)), Newline);
      LinesClean(env, flags, Merge(MergeAll(d, Nodes(a)), Newline), frag[i + 1..]);
    }
  }

  lemma NewlineClean(env: Env, quoted: bool)
    ensures Clean(env, quoted, Newline) && NoText(Newline) && Clean(env, quoted, Empty) && LastText(Empty) == []
  {
  }

  // ----- spans -----

  lemma {:induction false} EmitClean(env: Env, level: nat, frag: string, flags: Flags, d: Node)
    requires level <= INNERMOST && Clean(env, flags.quoted, d) && EndsWord(LastText(d))
    ensures Clean(env, flags.quoted, MergeAll(d, Nodes(Emit(env, level, frag, flags))))
    decreases |frag|, INNERMOST - level
  {
    hide Clean, LastText, Merge, MergeAll, Nodes, Lines, FindPair, EndsWord, Emit, Remainder, Lossless;
    if level == INNERMOST || frag == [] || FindPair(frag, DelimiterChar(level)).None? {
      EmitPlain(env, level, frag, flags);
      if level == INNERMOST {
        LinesClean(env, flags, d, frag);
      } else if frag == [] {
        MergedNothing(d);
      } else {
        EmitClean(env, level + 1, frag, flags, d);
      }
    } else {
      var start := FindPair(frag, DelimiterChar(level)).value;
      var a, b := Emit(env, level + 1, frag[..start], flags), Remainder(env, level, frag[start + 2..], flags);
      EmitAtPair(env, level, frag, flags);
      PiecesConcat(a, b);
      MergeAllConcat(d, Nodes(a), Nodes(b));
      EmitClean(env, level + 1, frag[..start], flags, d);
      RemainderClean(env, level, frag[start + 2..], flags, MergeAll(d, Nodes(a)));
    }
  }

  lemma MergedNothing(d: Node)
    ensures MergeAll(d, Nodes([])) == d
  {
  }

  /** What follows an opening delimiter starts with a span, whatever text comes before. */
  lemma {:induction false} RemainderClean(env: Env, level: nat, frag: string, flags: Flags, d: Node)
    requires level < INNERMOST && Clean(env, flags.quoted, d)
    ensures Clean(env, flags.quoted, MergeAll(d, Nodes(Remainder(env, level, frag, flags))))
    decreases |frag|, INNERMOST + 2
  {
    hide Clean, LastText, Merge, FindPair;
    match FindPair(frag, DelimiterChar(level))
    case None =>
      SpanClean(env, level, frag, flags, false);
      var span := Span(env, level, frag, flags, false);
      OneSource(span);
      MergeOne(d, span.node);
      NodeMerged(env, flags.quoted, d, span.node);
    case Some(end) =>
      if end != 0 {
        SpanClean(env, level, frag[..end], flags, true);
        var span := Span(env, level, frag[..end], flags, true);
        NodeMerged(env, flags.quoted, d, span.node);
        var rest := Emit(env, 0, frag[end + 2..], flags);
        assert [] + [span] + rest == [span] + rest;
        ThreePieces(d, [], span, rest);
        EmitClean(env, 0, frag[end + 2..], flags, Merge(d, span.node));
      }
  }

  lemma {:induction false} SpanClean(env: Env, level: nat, frag: string, flags: Flags, closed: bool)
    requires level < INNERMOST
    ensures var n := Span(env, level, frag, flags, closed).node; Clean(env, flags.quoted, n) && NoText(n)
    decreases |frag|, INNERMOST + 1
  {
    hide LastText, Emit, CleanText;
    NewlineClean(env, flags.quoted);
    if level != 0 {
      EmitClean(env, level + 1, frag, flags, Empty);
    }
  }

  // ----- quotes -----

  /** No two segments that are not quoted follow each other. */
  predicate Alternating(segments: seq<Segment>) {
    forall k | 0 < k < |segments| :: segments[k - 1].level != segments[k].level
  }

  lemma {:induction false} SegmentsClean(env: Env, segments: seq<Segment>, flags: Flags, d: Node)
    requires Alternating(segments) && !flags.quoted && Clean(env, false, d)
    requires segments != [] && segments[0].level == 0 ==> EndsWord(LastText(d))
    ensures Clean(env, false, MergeAll(d, Nodes(AllPieces(env, segments, flags))))
    decreases |segments|
  {
    hide Clean, LastText, Merge, Emit;
    if segments != [] {
      var s, rest := segments[0], segments[1..];
      var a, b := SegmentPieces(env, s, flags), AllPieces(env, rest, flags);
      PiecesConcat(a, b);
      MergeAllConcat(d, Nodes(a), Nodes(b));
      assert forall k | 0 < k < |rest| :: rest[k - 1] == segments[k] && rest[k] == segments[k + 1];
      if s.level == 0 {
        EmitClean(env, 0, s.text, flags, d);
        SegmentsClean(env, rest, flags, MergeAll(d, Nodes(a)));
      } else {
        QuotedClean(env, s.text, flags);
        OneSource(a[0]);
        MergeOne(d, a[0].node);
        NodeMerged(env, false, d, a[0].node);
        SegmentsClean(env, rest, flags, MergeAll(d, Nodes(a)));
      }
    }
  }

  lemma QuotedClean(env: Env, text: string, flags: Flags)
    ensures var n := Quoted(Tree(Emit(env, 0, text, flags.(quoted := true)))); Clean(env, false, n) && NoText(n)
  {
    hide Emit, LastText, CleanText;
    NewlineClean(env, true);
    EmitClean(env, 0, text, flags.(quoted := true), Empty);
  }

  /** For every body: no text of its tree holds, between spaces, a link, a reference or a URL, nor outside
      quotes a command. */
  lemma NothingMissed(env: Env, body: string, open: bool)
    ensures Clean(env, false, Parse(env, body, open))
  {
    hide Clean, LastText, Segments, AllPieces, MaximalRuns;
    NewlineClean(env, false);
    SegmentsExact(env, body);
    RunsAlternate(env, Segments(env, body));
    SegmentsClean(env, Segments(env, body), Flags(open, false), Empty);
  }

  lemma RunsAlternate(env: Env, segments: seq<Segment>)
    requires MaximalRuns(env, segments)
    ensures Alternating(segments)
  {
  }

  // ----- embedding -----

  /** URLs are embedded in a closed post, and only there, if there is a provider for them; and no command
      is within a quote. */
  predicate FlagsRight(env: Env, flags: Flags, n: Node)
    decreases n
  {
    match n
    case Embed(provider, url) => !flags.open && env.embed(url) == Some(provider)
    case URL(url) => flags.open || !StartsWith(url, "http") || env.embed(url).None?
    case Children(xs) => forall k | 0 <= k < |xs| :: FlagsRight(env, flags, xs[k])
    case Spoiler(x) => FlagsRight(env, flags, x)
    case Bold(x) => FlagsRight(env, flags, x)
    case Italic(x) => FlagsRight(env, flags, x)
    case Quoted(x) => FlagsRight(env, flags.(quoted := true), x)
    case Pending(p) => p.PendingPostLink? || !flags.quoted
    case _ => true
  }

  predicate AllFlagsRight(env: Env, flags: Flags, ps: seq<Piece>) {
    forall k | 0 <= k < |ps| :: FlagsRight(env, flags, ps[k].node)
  }

  lemma MergeEmbeds(env: Env, flags: Flags, d: Node, n: Node)
    requires FlagsRight(env, flags, d) && FlagsRight(env, flags, n)
    ensures FlagsRight(env, flags, Merge(d, n))
  {
  }

  lemma {:induction false} TreeEmbeds(env: Env, flags: Flags, d: Node, ps: seq<Piece>)
    requires FlagsRight(env, flags, d) && AllFlagsRight(env, flags, ps)
    ensures FlagsRight(env, flags, MergeAll(d, Nodes(ps)))
    decreases |ps|
  {
    hide FlagsRight, Merge, MergeAll, Nodes;
    if ps == [] {
      MergedNothing(d);
    } else {
      MergeEmbeds(env, flags, d, ps[0].node);
      MergedFirst(d, ps);
      TreeEmbeds(env, flags, Merge(d, ps[0].node), ps[1..]);
    }
  }

  lemma WordEmbeds(env: Env, word: string, flags: Flags)
    ensures AllFlagsRight(env, flags, WordPieces(env, word, flags))
  {
  }

  predicate NoURLs(n: Node) {
    !n.URL? && !n.Embed? && !n.Children? && !n.Spoiler? && !n.Bold? && !n.Italic? && !n.Quoted?
  }

  predicate IsCommand(n: Node) {
    n.Pending? && !n.pending.PendingPostLink?
  }

  lemma LinkKinds(env: Env, word: string)
    ensures var l := LinkOf(env, word); l.Some? ==> NoURLs(l.value.node) && !IsCommand(l.value.node)
  {
  }

  lemma OthersEmbed(env: Env, flags: Flags, n: Node)
    requires NoURLs(n) && (IsCommand(n) ==> !flags.quoted)
    ensures FlagsRight(env, flags, n)
  {
  }

  lemma EmbedsConcat(env: Env, flags: Flags, a: seq<Piece>, b: seq<Piece>)
    requires AllFlagsRight(env, flags, a) && AllFlagsRight(env, flags, b)
    ensures AllFlagsRight(env, flags, a + b)
  {
    hide FlagsRight;
  }

  lemma PlainEmbeds(env: Env, flags: Flags, ps: seq<Piece>)
    requires forall k | 0 <= k < |ps| :: NoURLs(ps[k].node) && (IsCommand(ps[k].node) ==> !flags.quoted)
    ensures AllFlagsRight(env, flags, ps)
  {
    hide FlagsRight, NoURLs;
    forall k | 0 <= k < |ps| ensures FlagsRight(env, flags, ps[k].node) {
      OthersEmbed(env, flags, ps[k].node);
    }
  }

  lemma CommandEmbeds(env: Env, p: Punctuated, flags: Flags)
    requires p.word != [] && p.word[0] == '#' && !flags.quoted
    ensures AllFlagsRight(env, flags, Inner(env, p, flags))
  {
    hide LinkOf, FixedCommand, ArgumentCommand, WordPieces, FlagsRight, AllFlagsRight;
    var comm := p.word[1..];
    var src := if p.trail == ")" then comm + ")" else comm;
    LeafKinds(env, comm, src, p.word);
    var trail := if p.trail == [] then [] else [TextPiece(p.trail)];
    if FixedCommand(comm).None? && ArgumentCommand(comm, src).None? {
      WordEmbeds(env, p.word, flags);
      PlainEmbeds(env, flags, trail);
      EmbedsConcat(env, flags, WordPieces(env, p.word, flags), trail);
    } else {
      PlainEmbeds(env, flags, Inner(env, p, flags));
    }
  }

  lemma InnerEmbeds(env: Env, p: Punctuated, flags: Flags)
    ensures AllFlagsRight(env, flags, Inner(env, p, flags))
  {
    hide LinkOf, FixedCommand, ArgumentCommand, WordPieces, FlagsRight, AllFlagsRight;
    var trail := if p.trail == [] then [] else [TextPiece(p.trail)];
    if p.word != [] && p.word[0] == '#' && !flags.quoted {
      CommandEmbeds(env, p, flags);
    } else if p.word != [] && p.word[0] == '>' && LinkOf(env, p.word).Some? {
      LinkKinds(env, p.word);
      PlainEmbeds(env, flags, Inner(env, p, flags));
    } else {
      WordEmbeds(env, p.word, flags);
      PlainEmbeds(env, flags, trail);
      EmbedsConcat(env, flags, WordPieces(env, p.word, flags), trail);
    }
  }

  lemma SpacedEmbeds(env: Env, word: string, flags: Flags)
    ensures AllFlagsRight(env, flags, SpacedWord(env, word, flags))
  {
    hide SplitPunctuation, Inner, FlagsRight, AllFlagsRight;
    var p := SplitPunctuation(word);
    var l := if p.lead == [] then [] else [TextPiece(p.lead)];
    InnerEmbeds(env, p, flags);
    PlainEmbeds(env, flags, l);
    EmbedsConcat(env, flags, l, Inner(env, p, flags));
  }

  /** Two lists of pieces with one between them that is neither a URL nor a command. */
  lemma BetweenEmbeds(env: Env, flags: Flags, a: seq<Piece>, p: Piece, b: seq<Piece>)
    requires AllFlagsRight(env, flags, a) && AllFlagsRight(env, flags, b) && NoURLs(p.node) && !p.node.Pending?
    ensures AllFlagsRight(env, flags, a + [p] + b)
  {
    hide FlagsRight, AllFlagsRight, NoURLs;
    PlainEmbeds(env, flags, [p]);
    EmbedsConcat(env, flags, a, [p]);
    EmbedsConcat(env, flags, a + [p], b);
  }

  lemma {:induction false} WordsEmbeds(env: Env, line: string, flags: Flags)
    ensures AllFlagsRight(env, flags, Words(env, line, flags))
    decreases |line|
  {
    hide SpacedWord, FlagsRight, AllFlagsRight;
    var i := Position(line, ' ');
    if i == |line| {
      SpacedEmbeds(env, line, flags);
    } else {
      SpacedEmbeds(env, line[..i], flags);
      WordsEmbeds(env, line[i + 1..], flags);
      BetweenEmbeds(env, flags, SpacedWord(env, line[..i], flags), TextPiece(" "), Words(env, line[i + 1..], flags));
    }
  }

  lemma LineEmbeds(env: Env, line: string, flags: Flags)
    ensures AllFlagsRight(env, flags, Line(env, line, flags))
  {
    hide Words, FlagsRight;
    WordsEmbeds(env, line, flags);
  }

  lemma {:induction false} LinesEmbeds(env: Env, frag: string, flags: Flags)
    ensures AllFlagsRight(env, flags, Lines(env, frag, flags))
    decreases |frag|
  {
    hide Line, FlagsRight, AllFlagsRight;
    var i := Position(frag, '\n');
    if i == |frag| {
      LineEmbeds(env, frag, flags);
    } else {
      LineEmbeds(env, frag[..i], flags);
      LinesEmbeds(env, frag[i + 1..], flags);
      BetweenEmbeds(env, flags, Line(env, frag[..i], flags), Leaf(Newline, "\n"), Lines(env, frag[i + 1..], flags));
    }
  }

  lemma {:induction false} EmitEmbeds(env: Env, level: nat, frag: string, flags: Flags)
    requires level <= INNERMOST
    ensures AllFlagsRight(env, flags, Emit(env, level, frag, flags))
    decreases |frag|, INNERMOST - level
  {
    hide Lines, FindPair, FlagsRight;
    if level == INNERMOST {
      LinesEmbeds(env, frag, flags);
    } else if frag != [] {
      match FindPair(frag, DelimiterChar(level))
      case None => EmitEmbeds(env, level + 1, frag, flags);
      case Some(start) =>
        EmitEmbeds(env, level + 1, frag[..start], flags);
        RemainderEmbeds(env, level, frag[start + 2..], flags);
    }
  }

  lemma {:induction false} RemainderEmbeds(env: Env, level: nat, frag: string, flags: Flags)
    requires level < INNERMOST
    ensures AllFlagsRight(env, flags, Remainder(env, level, frag, flags))
    decreases |frag|, INNERMOST + 2
  {
    hide FindPair, FlagsRight;
    match FindPair(frag, DelimiterChar(level))
    case None => SpanEmbeds(env, level, frag, flags, false);
    case Some(end) =>
      if end != 0 {
        SpanEmbeds(env, level, frag[..end], flags, true);
        EmitEmbeds(env, 0, frag[end + 2..], flags);
      }
  }

  lemma {:induction false} SpanEmbeds(env: Env, level: nat, frag: string, flags: Flags, closed: bool)
    requires level < INNERMOST
    ensures FlagsRight(env, flags, Span(env, level, frag, flags, closed).node)
    decreases |frag|, INNERMOST + 1
  {
    hide Emit;
    if level != 0 {
      EmitEmbeds(env, level + 1, frag, flags);
      TreeEmbeds(env, flags, Empty, Emit(env, level + 1, frag, flags));
    }
  }

  lemma {:induction false} SegmentsEmbeds(env: Env, segments: seq<Segment>, flags: Flags)
    ensures AllFlagsRight(env, flags, AllPieces(env, segments, flags))
  {
    hide Emit;
    if segments != [] {
      var s := segments[0];
      EmitEmbeds(env, 0, s.text, flags);
      EmitEmbeds(env, 0, s.text, flags.(quoted := true));
      TreeEmbeds(env, flags.(quoted := true), Empty, Emit(env, 0, s.text, flags.(quoted := true)));
      SegmentsEmbeds(env, segments[1..], flags);
    }
  }

  /** For every body: in an open post nothing is embedded, in a closed one every URL that can be is; and no
      quote holds a command. */
  lemma FlagsObeyed(env: Env, body: string, open: bool)
    ensures FlagsRight(env, Flags(open, false), Parse(env, body, open))
  {
    hide FlagsRight, Segments, AllPieces;
    var flags := Flags(open, false);
    SegmentsEmbeds(env, Segments(env, body), flags);
    EmptyEmbeds(env, flags);
    TreeEmbeds(env, flags, Empty, BodyPieces(env, body, open));
  }

  lemma EmptyEmbeds(env: Env, flags: Flags)
    ensures FlagsRight(env, flags, Empty)
  {
  }
}
