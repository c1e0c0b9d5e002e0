/** What stretch of text a post body tree can be read back as. */
module BodyMeaning {
  import opened MachineInts
  import opened PostBody
  import opened BodyTree
  import opened BodyLeaves

  // ----- leaves -----

  /** `word` is a command of the given name, bare or with its argument in parentheses. */
  predicate SaysNumber(word: string, name: string, default: nat, n: nat, max: nat) {
    || (word == name && n == default)
    || (&& |word| >= |name| + 2 && StartsWith(word, name + "(") && word[|word| - 1] == ')'
        && ParseUnsigned(word[|name| + 1..|word| - 1], max) == Some(n))
  }

  /** Rolls, the letter d at `d`, faces and, from `sign` on, an optional signed offset. */
  predicate SaysDiceAt(word: string, d: nat, sign: nat, offset: i16, faces: u16, rolls: u8)
    requires d < sign <= |word|
  {
    && word[d] == 'd'
    && (if d == 0 then rolls == 1 else ParseUnsigned(word[..d], 0xFF) == Some(rolls) && rolls <= 10)
    && (forall k | d < k < sign :: word[k] != '+' && word[k] != '-')
    && ParseUnsigned(word[d + 1..sign], 0xFFFF) == Some(faces) && faces != 0
    && (if sign == |word| then offset == 0
        else (word[sign] == '+' || word[sign] == '-') && ParseI16(word[sign..]) == Some(offset))
  }

  ghost predicate SaysDice(word: string, offset: i16, faces: u16, rolls: u8) {
    exists d, sign | 0 <= d < sign <= |word| :: SaysDiceAt(word, d, sign, offset, faces, rolls)
  }

  ghost predicate SaysCommand(p: PendingNode, word: string) {
    match p
    case PendingFlip => word == "flip"
    case PendingEightBall => word == "8ball"
    case PendingPyu => word == "pyu"
    case PendingPCount => word == "pcount"
    case PendingCountdown(n) => SaysNumber(word, "countdown", 10, n, 0xFFFF_FFFF)
    case PendingAutobahn(n) => SaysNumber(word, "autobahn", 2, n, 0xFFFF)
    case PendingDice(offset, faces, rolls) => SaysDice(word, offset, faces, rolls)
    case PendingPostLink(_) => false
  }

  predicate SaysPost(word: string, id: u64) {
    StartsWith(word, ">>") && ParseUnsigned(word[2..], 0xFFFF_FFFF_FFFF_FFFF) == Some(id)
  }

  /** `word` is the source of a leaf that is not plain text. */
  ghost predicate StandsFor(env: Env, n: Node, word: string) {
    match n
    case PostLink(id, thread, page) => SaysPost(word, id) && env.located(id) == Exists(thread, page)
    case Pending(PendingPostLink(id)) => SaysPost(word, id) && env.located(id) == NotFetched
    case Pending(p) => word != [] && word[0] == '#' && SaysCommand(p, word[1..])
    case Reference(title, target) =>
      word == ">>>/" + title + "/" && title in env.references && env.references[title] == target
    case URL(url) => word == url && env.validURL(url)
    case Embed(provider, url) => word == url && env.validURL(url) && env.embed(url) == Some(provider)
    case Code(html) => env.highlight(word) == html
    case _ => false
  }

  // ----- trees -----

  /** The leaves of `n`, read in order, spell `r`. With `marks`, each span is read together with its
      delimiters, the closing one being optional. */
  ghost predicate Reads(env: Env, n: Node, r: string, marks: bool)
    decreases n, 1
  {
    match n
    case Empty => r == []
    case Newline => r == "\n"
    case Text(s) => r == s
    case Children(list) => ReadsAll(env, list, r, marks)
    case Spoiler(x) => if marks then ReadsSpan(env, x, r, '*') else Reads(env, x, r, marks)
    case Bold(x) => if marks then ReadsSpan(env, x, r, '@') else Reads(env, x, r, marks)
    case Italic(x) => if marks then ReadsSpan(env, x, r, '~') else Reads(env, x, r, marks)
    case Quoted(x) => Reads(env, x, r, marks)
    case Code(_) =>
      if marks then Opens(r, '`') && (StandsFor(env, n, r[2..]) || (Closes(r, '`') && StandsFor(env, n, r[2..|r| - 2])))
      else StandsFor(env, n, r)
    case _ => StandsFor(env, n, r)
  }

  predicate Opens(r: string, c: char) {
    |r| >= 2 && r[0] == r[1] == c
  }

  predicate Closes(r: string, c: char) {
    |r| >= 4 && r[|r| - 2] == r[|r| - 1] == c
  }

  ghost predicate ReadsSpan(env: Env, x: Node, r: string, c: char)
    decreases x, 2
  {
    Opens(r, c) && (Reads(env, x, r[2..], true) || (Closes(r, c) && Reads(env, x, r[2..|r| - 2], true)))
  }

  ghost predicate ReadsAll(env: Env, list: seq<Node>, r: string, marks: bool)
    decreases list, 0
  {
    if list == [] then r == []
    else exists k | 0 <= k <= |r| :: Reads(env, list[0], r[..k], marks) && ReadsAll(env, list[1..], r[k..], marks)
  }

  lemma ReadsFirst(env: Env, list: seq<Node>, a: string, b: string, marks: bool)
    requires list != [] && Reads(env, list[0], a, marks) && ReadsAll(env, list[1..], b, marks)
    ensures ReadsAll(env, list, a + b, marks)
  {
    hide Reads, ReadsSpan;
    assert (a + b)[..|a|] == a && (a + b)[|a|..] == b;
  }

  lemma {:induction false} ReadsConcat(env: Env, v: seq<Node>, w: seq<Node>, a: string, b: string, marks: bool)
    requires ReadsAll(env, v, a, marks) && ReadsAll(env, w, b, marks)
    ensures ReadsAll(env, v + w, a + b, marks)
    decreases |v|
  {
    hide Reads, ReadsSpan, ReadsAll;
    if v == [] {
      ReadsNothing(env, a, marks);
      assert v + w == w && a + b == b;
    } else {
      var k := ReadsShare(env, v, a, marks);
      ReadsConcat(env, v[1..], w, a[k..], b, marks);
      assert (v + w)[0] == v[0] && (v + w)[1..] == v[1..] + w;
      assert a + b == a[..k] + (a[k..] + b);
      ReadsFirst(env, v + w, a[..k], a[k..] + b, marks);
    }
  }

  lemma ReadsNothing(env: Env, r: string, marks: bool)
    ensures ReadsAll(env, [], r, marks) <==> r == []
  {
  }

  /** The first node's share of a reading. */
  lemma ReadsShare(env: Env, list: seq<Node>, r: string, marks: bool) returns (k: nat)
    requires list != [] && ReadsAll(env, list, r, marks)
    ensures k <= |r| && Reads(env, list[0], r[..k], marks) && ReadsAll(env, list[1..], r[k..], marks)
  {
    hide Reads, ReadsSpan;
    k :| 0 <= k <= |r| && Reads(env, list[0], r[..k], marks) && ReadsAll(env, list[1..], r[k..], marks);
  }

  lemma ReadsSingle(env: Env, n: Node, a: string, marks: bool)
    requires Reads(env, n, a, marks)
    ensures ReadsAll(env, [n], a, marks)
  {
    hide Reads, ReadsSpan;
    assert [n][1..] == [] && a + [] == a;
    assert ReadsAll(env, [], [], marks);
    ReadsFirst(env, [n], a, [], marks);
  }

  /** Where the last node's share of the reading begins. */
  lemma {:induction false} ReadsLast(env: Env, v: seq<Node>, a: string, marks: bool) returns (k: nat)
    requires v != [] && ReadsAll(env, v, a, marks)
    ensures k <= |a| && ReadsAll(env, v[..|v| - 1], a[..k], marks) && Reads(env, v[|v| - 1], a[k..], marks)
    decreases |v|
  {
    hide Reads, ReadsSpan;
    var j := ReadsShare(env, v, a, marks);
    if |v| == 1 {
      k := 0;
      assert a[..j] == a && a[0..] == a && v[..0] == [];
    } else {
      var i := ReadsLast(env, v[1..], a[j..], marks);
      k := j + i;
      assert v[1..][..|v| - 2] == v[..|v| - 1][1..];
      ReadsFirst(env, v[..|v| - 1], a[..j], a[j..][..i], marks);
      assert a[..j] + a[j..][..i] == a[..k] && a[j..][i..] == a[k..];
    }
  }

  lemma TextIsText(env: Env, s: string, r: string, marks: bool)
    ensures Reads(env, Text(s), r, marks) <==> r == s
  {
  }

  /** A text grown at the end of a list. */
  lemma ReadsGrown(env: Env, v: seq<Node>, a: string, t: string, marks: bool)
    requires v != [] && v[|v| - 1].Text? && ReadsAll(env, v, a, marks)
    ensures ReadsAll(env, v[..|v| - 1] + [Text(v[|v| - 1].text + t)], a + t, marks)
  {
    hide Reads, ReadsSpan, ReadsAll;
    var k := ReadsLast(env, v, a, marks);
    var last := v[|v| - 1].text;
    TextIsText(env, last, a[k..], marks);
    TextIsText(env, last + t, last + t, marks);
    ReadsSingle(env, Text(last + t), last + t, marks);
    ReadsConcat(env, v[..|v| - 1], [Text(last + t)], a[..k], last + t, marks);
    assert a[..k] + (last + t) == a + t;
  }

  /** Appending a node appends its reading. */
  lemma MergeReads(env: Env, d: Node, n: Node, a: string, b: string, marks: bool)
    requires Reads(env, d, a, marks) && Reads(env, n, b, marks) && !n.Children?
    ensures Reads(env, Merge(d, n), a + b, marks)
  {
    if n.Empty? {
      assert a + b == a;
    } else if d.Empty? {
      assert a + b == b;
    } else if d.Children? {
      if n.Text? && d.list != [] && d.list[|d.list| - 1].Text? {
        ReadsGrown(env, d.list, a, b, marks);
      } else {
        ReadsSingle(env, n, b, marks);
        ReadsConcat(env, d.list, [n], a, b, marks);
      }
    } else if d.Text? && n.Text? {
    } else {
      ReadsSingle(env, d, a, marks);
      ReadsSingle(env, n, b, marks);
      ReadsConcat(env, [d], [n], a, b, marks);
      assert [d] + [n] == [d, n];
    }
  }

  ghost predicate PieceReads(env: Env, p: Piece) {
    !p.node.Children? && Reads(env, p.node, p.src, false) && Reads(env, p.node, p.raw, true)
  }

  ghost predicate AllRead(env: Env, ps: seq<Piece>) {
    forall k | 0 <= k < |ps| :: PieceReads(env, ps[k])
  }

  lemma SpanRead(env: Env, x: Node, t: string, c: char, closed: bool)
    requires Reads(env, x, t, true)
    ensures ReadsSpan(env, x, [c, c] + t + (if closed then [c, c] else []), c)
  {
    hide Reads;
    var end := if closed then [c, c] else [];
    var r := [c, c] + t + end;
    if closed {
      assert r[2..|r| - 2] == t;
    } else {
      assert r[2..] == t;
    }
  }

  function Shown(ps: seq<Piece>, marks: bool): string {
    if marks then Raws(ps) else Sources(ps)
  }

  /** The tree built from pieces reads as their sources in order. */
  lemma {:induction false} MergedReads(env: Env, d: Node, a: string, ps: seq<Piece>, marks: bool)
    requires Reads(env, d, a, marks) && AllRead(env, ps)
    ensures Reads(env, MergeAll(d, Nodes(ps)), a + Shown(ps, marks), marks)
    decreases |ps|
  {
    hide Reads, ReadsSpan, ReadsAll, Merge, MergeAll, Nodes, Shown, PieceReads, AllRead;
    ShownFirst(ps, marks);
    MergeFirst(d, ps);
    if ps == [] {
      assert a + [] == a;
    } else {
      var first := if marks then ps[0].raw else ps[0].src;
      FirstReads(env, ps, marks);
      MergeReads(env, d, ps[0].node, a, first, marks);
      MergedReads(env, Merge(d, ps[0].node), a + first, ps[1..], marks);
      assert a + first + Shown(ps[1..], marks) == a + (first + Shown(ps[1..], marks));
    }
  }

  lemma MergeFirst(d: Node, ps: seq<Piece>)
    ensures MergeAll(d, Nodes(ps)) == if ps == [] then d else MergeAll(Merge(d, ps[0].node), Nodes(ps[1..]))
  {
    hide Merge;
    if ps != [] {
      assert Nodes(ps)[0] == ps[0].node && Nodes(ps)[1..] == Nodes(ps[1..]);
    }
  }

  lemma FirstReads(env: Env, ps: seq<Piece>, marks: bool)
    requires ps != [] && AllRead(env, ps)
    ensures Reads(env, ps[0].node, if marks then ps[0].raw else ps[0].src, marks) && !ps[0].node.Children?
    ensures AllRead(env, ps[1..])
  {
    hide Reads, ReadsSpan;
    assert PieceReads(env, ps[0]);
  }

  lemma ShownFirst(ps: seq<Piece>, marks: bool)
    ensures Shown(ps, marks)
            == if ps == [] then [] else (if marks then ps[0].raw else ps[0].src) + Shown(ps[1..], marks)
  {
  }

  // ----- every leaf produced stands for its source -----

  lemma ArgumentSays(word: string, name: string, default: nat, max: nat)
    requires StartsWith(word, name) && default <= max && Argument(word, name, default, max).Some?
    ensures SaysNumber(word, name, default, Argument(word, name, default, max).value, max)
  {
    var arg := word[|name|..];
    if arg == [] {
      assert word == name;
    } else {
      assert arg[1..|arg| - 1] == word[|name| + 1..|word| - 1];
      assert word[..|name + "("|] == name + "(";
    }
  }

  lemma {:induction false} FirstSign(word: string, from: nat)
    requires from <= |word|
    ensures forall k | from <= k < SignFrom(word, from) :: word[k] != '+' && word[k] != '-'
    decreases |word| - from
  {
    if from < |word| && word[from] != '+' && word[from] != '-' {
      FirstSign(word, from + 1);
    }
  }

  lemma DiceSays(word: string)
    requires ParseDice(word).Some?
    ensures ParseDice(word).value.Pending? && ParseDice(word).value.pending.PendingDice?
    ensures var p := ParseDice(word).value.pending; SaysDice(word, p.offset, p.faces, p.rolls)
  {
    var d := Position(word, 'd');
    var sign := SignFrom(word, d + 1);
    var p := ParseDice(word).value.pending;
    FirstSign(word, d + 1);
    hide ParseUnsigned, ParseI16, Position, SignFrom;
    assert SaysDiceAt(word, d, sign, p.offset, p.faces, p.rolls);
  }

  lemma CommandSays(env: Env, comm: string, src: string)
    requires StartsWith(src, comm)
    ensures var c := FixedCommand(comm); c.Some? ==> StandsFor(env, c.value, "#" + comm) && !c.value.Code?
    ensures var c := ArgumentCommand(comm, src); c.Some? ==> StandsFor(env, c.value, "#" + src) && !c.value.Code?
  {
    assert ("#" + comm)[1..] == comm && ("#" + src)[1..] == src;
    if StartsWith(comm, COUNTDOWN) {
      assert src[..|COUNTDOWN|] == comm[..|COUNTDOWN|];
      if Argument(src, COUNTDOWN, 10, 0xFFFF_FFFF).Some? {
        ArgumentSays(src, COUNTDOWN, 10, 0xFFFF_FFFF);
      }
    } else if StartsWith(comm, AUTOBAHN) {
      assert src[..|AUTOBAHN|] == comm[..|AUTOBAHN|];
      if Argument(src, AUTOBAHN, 2, 0xFFFF).Some? {
        ArgumentSays(src, AUTOBAHN, 2, 0xFFFF);
      }
    } else if ParseDice(src).Some? {
      DiceSays(src);
    }
  }

  lemma LinkSays(env: Env, word: string)
    requires LinkOf(env, word).Some?
    ensures var l := LinkOf(env, word).value;
            l.extra <= |word| && StandsFor(env, l.node, word[l.extra..]) && !l.node.Code?
  {
    hide ParseUnsigned;
    var l := LinkOf(env, word).value;
    var at := 2 + Run(word[2..], '>');
    LeadingSigns(word);
    if IsDigit(word[at]) {
      assert word[l.extra..][..2] == ">>" && word[l.extra..][2..] == word[at..];
    } else {
      var end := at + 1 + Position(word[at + 1..], '/');
      ReferenceShape(word, l.extra, end);
    }
  }

  lemma LeadingSigns(word: string)
    requires StartsWith(word, ">>")
    ensures forall k | 0 <= k < 2 + Run(word[2..], '>') :: word[k] == '>'
  {
    assert word[0] == ">>"[0] && word[1] == ">>"[1];
    forall k | 2 <= k < 2 + Run(word[2..], '>') ensures word[k] == '>' {
      assert word[2..][k - 2] == '>';
    }
  }

  lemma ReferenceShape(word: string, extra: nat, end: nat)
    requires extra + 4 <= end == |word| - 1
    requires word[extra] == word[extra + 1] == word[extra + 2] == '>' && word[extra + 3] == '/' && word[end] == '/'
    ensures word[extra..] == ">>>/" + word[extra + 4..end] + "/"
  {
  }

  lemma TextReads(env: Env, s: string)
    ensures PieceReads(env, TextPiece(s))
  {
  }

  lemma WordReads(env: Env, word: string, flags: Flags)
    ensures AllRead(env, WordPieces(env, word, flags))
  {
  }

  lemma LeafReads(env: Env, n: Node, word: string)
    requires StandsFor(env, n, word) && !n.Code?
    ensures PieceReads(env, Leaf(n, word))
  {
  }

  lemma CommandReads(env: Env, p: Punctuated, flags: Flags)
    requires p.word != [] && p.word[0] == '#' && !flags.quoted
    ensures AllRead(env, Inner(env, p, flags))
  {
    hide WordPieces, Reads, StandsFor, LinkOf, FixedCommand, ArgumentCommand;
    WordReads(env, p.word, flags);
    TextReads(env, p.trail);
    var comm := p.word[1..];
    assert p.word == "#" + comm;
    var src := if p.trail == ")" then comm + ")" else comm;
    CommandSays(env, comm, src);
    if FixedCommand(comm).Some? {
      LeafReads(env, FixedCommand(comm).value, p.word);
    } else if ArgumentCommand(comm, src).Some? {
      LeafReads(env, ArgumentCommand(comm, src).value, "#" + src);
    }
  }

  lemma InnerReads(env: Env, p: Punctuated, flags: Flags)
    ensures AllRead(env, Inner(env, p, flags))
  {
    hide WordPieces, Reads, StandsFor, LinkOf;
    if p.word != [] && p.word[0] == '#' && !flags.quoted {
      CommandReads(env, p, flags);
    } else {
      WordReads(env, p.word, flags);
      TextReads(env, p.trail);
      if p.word != [] && p.word[0] == '>' && LinkOf(env, p.word).Some? {
        var l := LinkOf(env, p.word).value;
        LinkSays(env, p.word);
        LeafReads(env, l.node, p.word[l.extra..]);
        TextReads(env, p.word[..l.extra]);
      }
    }
  }

  lemma SpacedWordReads(env: Env, word: string, flags: Flags)
    ensures AllRead(env, SpacedWord(env, word, flags))
  {
    InnerReads(env, SplitPunctuation(word), flags);
  }

  lemma {:induction false} WordsRead(env: Env, line: string, flags: Flags)
    ensures AllRead(env, Words(env, line, flags))
    decreases |line|
  {
    hide SpacedWord;
    var i := Position(line, ' ');
    if i == |line| {
      SpacedWordReads(env, line, flags);
    } else {
      SpacedWordReads(env, line[..i], flags);
      WordsRead(env, line[i + 1..], flags);
    }
  }

  lemma {:induction false} LinesRead(env: Env, frag: string, flags: Flags)
    ensures AllRead(env, Lines(env, frag, flags))
    decreases |frag|
  {
    hide Words;
    var i := Position(frag, '\n');
    if i == |frag| {
      WordsRead(env, frag, flags);
    } else {
      WordsRead(env, frag[..i], flags);
      LinesRead(env, frag[i + 1..], flags);
    }
  }
}
