/** No link, command or URL is left as plain text. */
module BodyComplete {
  import opened MachineInts
  import opened PostBody
  import opened BodyTree
  import opened BodyLeaves
  import opened BodyMeaning
  import opened BodyWords
  import opened BodyParser
  import opened BodyQuotes

  // ----- words that are more than text -----

  /** What follows the hash sign, with a closing parenthesis that was split off. */
  function CommandSource(p: Punctuated): string
    requires p.word != []
  {
    p.word[1..] + if p.trail == ")" then ")" else []
  }

  ghost predicate IsCommand(p: Punctuated, n: Node)
    requires p.word != []
  {
    && p.word[0] == '#' && n.Pending?
    && (IsFixed(n.pending, p.word[1..]) || IsArgument(n.pending, CommandSource(p)))
  }

  /** A URL behind any number of signs. */
  predicate IsURLAt(env: Env, word: string, n: nat) {
    n < |word| && Signs(word[..n]) && word[n] != '>' && IsURL(env, word[n..])
  }

  /** The leaf that the word, stripped of punctuation, stands for. */
  ghost predicate IsLeaf(env: Env, flags: Flags, p: Punctuated, n: Node)
    requires p.word != []
  {
    || (!flags.quoted && IsCommand(p, n))
    || (exists extra :: IsLink(env, p.word, extra, n))
    || (exists k | 0 <= k < |p.word| :: IsURLAt(env, p.word, k) && URLOf(env, p.word[k..], flags) == Some(n))
  }

  ghost predicate CoreIsLeaf(env: Env, quoted: bool, p: Punctuated) {
    p.word != [] &&
    (|| (!quoted && exists n :: IsCommand(p, n))
     || (exists extra, n :: IsLink(env, p.word, extra, n))
     || (exists k | 0 <= k < |p.word| :: IsURLAt(env, p.word, k)))
  }

  /** A word between spaces that is a command, a link, a reference or a URL. */
  ghost predicate Recognised(env: Env, quoted: bool, word: string) {
    CoreIsLeaf(env, quoted, SplitPunctuation(word))
  }

  // ----- one word -----

  predicate AllText(ps: seq<Piece>) {
    forall k | 0 <= k < |ps| :: ps[k].node == Text(ps[k].src)
  }

  predicate NoText(n: Node) {
    !n.Text? && !n.Empty? && !n.Children?
  }

  /** Pieces made of one word: text alone if it is nothing else; otherwise its leaf, with text on either
      side that is no more than text itself. */
  ghost predicate WordPiecesRight(env: Env, flags: Flags, word: string, ps: seq<Piece>) {
    if !Recognised(env, flags.quoted, word) then AllText(ps) && Sources(ps) == word
    else exists a, leaf, b :: ps == a + [leaf] + b && AroundLeaf(env, flags, word, a, leaf, b)
  }

  ghost predicate AroundLeaf(env: Env, flags: Flags, word: string, a: seq<Piece>, leaf: Piece, b: seq<Piece>) {
    && AllText(a) && AllText(b) && NoText(leaf.node) && Simple(leaf.node)
    && !Recognised(env, flags.quoted, Sources(a)) && !Recognised(env, flags.quoted, Sources(b))
    && ' ' !in Sources(a) && ' ' !in Sources(b)
    && SplitPunctuation(word).word != [] && IsLeaf(env, flags, SplitPunctuation(word), leaf.node)
  }

  predicate Simple(n: Node) {
    n.PostLink? || n.Pending? || n.Reference? || n.URL? || n.Embed?
  }

  lemma ShortIsText(env: Env, quoted: bool, lead: string, signs: string)
    requires |lead| <= 1 && (lead != [] ==> IsPunctuation(lead[0])) && Signs(signs)
    ensures !Recognised(env, quoted, lead + signs)
  {
    hide CoreIsLeaf, SplitPunctuation;
    var w := lead + signs;
    if signs == [] {
      assert w == lead;
      ShortSplit(w);
    } else {
      SignsSplit(lead, signs);
    }
    CoreOfSigns(env, quoted, SplitPunctuation(w));
  }

  lemma ShortSplit(w: string)
    requires |w| <= 1
    ensures SplitPunctuation(w).word == w
  {
  }

  lemma SignsSplit(lead: string, signs: string)
    requires |lead| <= 1 && (lead != [] ==> IsPunctuation(lead[0])) && Signs(signs) && signs != []
    ensures SplitPunctuation(lead + signs).word == signs
  {
    hide SplitPunctuation;
    SignIsNoPunctuation();
    hide IsPunctuation;
    var w, p := lead + signs, Punctuated(lead, signs, []);
    assert w == p.lead + p.word + p.trail;
    if lead == [] {
      assert w == signs && w[0] == '>';
    }
    assert signs[|signs| - 1] == '>';
    assert SplitRight(w, p);
    SplitExact(w, p);
  }

  lemma SignIsNoPunctuation()
    ensures !IsPunctuation('>')
  {
  }

  lemma CoreOfSigns(env: Env, quoted: bool, p: Punctuated)
    requires Signs(p.word) || (|p.word| == 1 && IsPunctuation(p.word[0]))
    ensures !CoreIsLeaf(env, quoted, p)
  {
    forall extra, n ensures !IsLink(env, p.word, extra, n) {
      if IsLink(env, p.word, extra, n) {
        LinkHasMore(env, p.word, extra, n);
      }
    }
    assert forall k | 0 <= k < |p.word| :: !IsURLAt(env, p.word, k);
  }

  lemma LinkHasMore(env: Env, word: string, extra: nat, n: Node)
    requires IsLink(env, word, extra, n)
    ensures |word| >= 3 && exists k | 0 <= k < |word| :: word[k] != '>'
  {
    var base := word[extra..];
    if n.Reference? {
      assert base[3] == '/' && word[extra + 3] == base[3];
    } else {
      assert base[2..][0] == base[2] && word[extra + 2] == base[2];
    }
  }

  /** What the core of a word becomes. */
  ghost predicate CoreRight(env: Env, flags: Flags, p: Punctuated, ps: seq<Piece>)
    requires p.word != []
  {
    if !CoreIsLeaf(env, flags.quoted, p) then AllText(ps) && Sources(ps) == p.word + p.trail
    else exists a, leaf, b :: ps == a + [leaf] + b && AroundCore(env, flags, p, a, leaf, b)
  }

  ghost predicate AroundCore(env: Env, flags: Flags, p: Punctuated, a: seq<Piece>, leaf: Piece, b: seq<Piece>)
    requires p.word != []
  {
    && AllText(a) && Signs(Sources(a)) && AllText(b) && (Sources(b) == [] || Sources(b) == p.trail)
    && Simple(leaf.node) && IsLeaf(env, flags, p, leaf.node)
  }

  function Trailing(p: Punctuated): (r: seq<Piece>)
    ensures AllText(r) && Sources(r) == p.trail
  {
    if p.trail == [] then []
    else
      OneSource(TextPiece(p.trail));
      [TextPiece(p.trail)]
  }

  lemma CommandRight(env: Env, p: Punctuated, flags: Flags)
    requires p.word != [] && p.word[0] == '#' && !flags.quoted
    ensures CoreRight(env, flags, p, Inner(env, p, flags))
  {
    hide WordPieces, FixedCommand, ArgumentCommand, IsArgument, IsFixed, LinkOf, IsLink;
    var comm := p.word[1..];
    var src := CommandSource(p);
    assert src == if p.trail == ")" then comm + ")" else comm;
    var trail := Trailing(p);
    HashIsNoLink(env, p, flags);
    if FixedCommand(comm).Some? {
      var n := FixedCommand(comm).value;
      FixedExact(comm, PendingFlip);
      FixedExact(comm, n.pending);
      assert IsCommand(p, n);
      var leaf := Leaf(n, p.word);
      assert Inner(env, p, flags) == [] + [leaf] + trail;
      assert AroundCore(env, flags, p, [], leaf, trail);
    } else {
      ArgumentExact(comm, src, PendingFlip);
      if ArgumentCommand(comm, src).Some? {
        var n := ArgumentCommand(comm, src).value;
        ArgumentExact(comm, src, n.pending);
        assert IsCommand(p, n);
        var leaf, b := Leaf(n, "#" + src), if p.trail == ")" then [] else trail;
        assert Inner(env, p, flags) == [] + [leaf] + b;
        assert AroundCore(env, flags, p, [], leaf, b);
      } else {
        forall n ensures !IsCommand(p, n) {
          if n.Pending? {
            FixedExact(comm, n.pending);
            ArgumentExact(comm, src, n.pending);
          }
        }
        OneSource(TextPiece(p.word));
        PiecesConcat([TextPiece(p.word)], trail);
        assert Inner(env, p, flags) == [TextPiece(p.word)] + trail;
      }
    }
  }

  /** A word behind a hash sign is no link and no URL. */
  lemma HashIsNoLink(env: Env, p: Punctuated, flags: Flags)
    requires p.word != [] && p.word[0] == '#'
    ensures WordPieces(env, p.word, flags) == [TextPiece(p.word)]
    ensures forall extra, n :: !IsLink(env, p.word, extra, n)
    ensures forall k | 0 <= k < |p.word| :: !IsURLAt(env, p.word, k)
  {
    hide IsLink;
    forall extra, n ensures !IsLink(env, p.word, extra, n) {
      if IsLink(env, p.word, extra, n) {
        LinkBegins(env, p.word, extra, n);
      }
    }
    forall k | 0 <= k < |p.word| ensures !IsURLAt(env, p.word, k) {
      if IsURLAt(env, p.word, k) {
        URLStarts(env, p.word, k);
      }
    }
    assert p.word[0..] == p.word;
  }

  lemma URLStarts(env: Env, word: string, k: nat)
    requires IsURLAt(env, word, k)
    ensures word[0] in ['>', 'h', 'm', 'f', 'b']
  {
    if k > 0 {
      assert word[..k][0] == word[0];
    } else {
      assert word[0..] == word;
    }
  }

  lemma LinkRight(env: Env, p: Punctuated, flags: Flags)
    requires p.word != [] && p.word[0] == '>' && LinkOf(env, p.word).Some?
    ensures CoreRight(env, flags, p, Inner(env, p, flags))
  {
    hide WordPieces, LinkOf, IsLink, IsCommand;
    var l, trail := LinkOf(env, p.word).value, Trailing(p);
    LinkExact(env, p.word, l.extra, l.node);
    assert IsLink(env, p.word, l.extra, l.node);
    LinkNode(env, p.word, l.extra, l.node);
    var a := if l.extra == 0 then [] else [TextPiece(p.word[..l.extra])];
    OneSource(TextPiece(p.word[..l.extra]));
    assert p.word[..0] == [];
    var leaf := Leaf(l.node, p.word[l.extra..]);
    assert Inner(env, p, flags) == a + [leaf] + trail;
    assert AroundCore(env, flags, p, a, leaf, trail);
  }

  lemma LinkNode(env: Env, word: string, extra: nat, n: Node)
    requires IsLink(env, word, extra, n)
    ensures Simple(n) && extra <= |word| && Signs(word[..extra])
  {
  }

  lemma NoLinkIs(env: Env, word: string)
    requires LinkOf(env, word).None?
    ensures forall extra, n :: !IsLink(env, word, extra, n)
  {
    hide LinkOf, IsLink;
    forall extra: nat, n ensures !IsLink(env, word, extra, n) {
      LinkExact(env, word, extra, n);
    }
  }

  lemma LinkNeedsSign(env: Env, word: string)
    requires word == [] || word[0] != '>'
    ensures forall extra, n :: !IsLink(env, word, extra, n)
  {
    hide IsLink;
    forall extra: nat, n ensures !IsLink(env, word, extra, n) {
      if IsLink(env, word, extra, n) {
        LinkBegins(env, word, extra, n);
      }
    }
  }

  lemma RunSigns(word: string)
    ensures Signs(word[..Run(word, '>')])
    ensures forall k | 0 <= k < |word| && Signs(word[..k]) && word[k] != '>' :: k == Run(word, '>')
  {
    forall k | 0 <= k < |word| && Signs(word[..k]) && word[k] != '>' ensures k == Run(word, '>') {
      forall j | 0 <= j < k ensures word[j] == '>' {
        assert word[..k][j] == word[j];
      }
      RunIs(word, k);
    }
  }

  lemma WordRight(env: Env, p: Punctuated, flags: Flags)
    requires p.word != [] && (flags.quoted || p.word[0] != '#')
    requires p.word[0] != '>' || LinkOf(env, p.word).None?
    ensures CoreRight(env, flags, p, Inner(env, p, flags))
  {
    hide LinkOf, IsLink, IsCommand, IsURL, URLOf, CoreIsLeaf;
    if p.word[0] == '>' {
      NoLinkIs(env, p.word);
    } else {
      LinkNeedsSign(env, p.word);
    }
    var trail := Trailing(p);
    var gt := Run(p.word, '>');
    RunSigns(p.word);
    NoCommand(p, flags);
    var ps := WordPieces(env, p.word, flags);
    assert Inner(env, p, flags) == ps + trail;
    if gt < |p.word| && URLOf(env, p.word[gt..], flags).Some? {
      var n := URLOf(env, p.word[gt..], flags).value;
      URLExact(env, p.word[gt..], flags, n);
      URLNode(env, p.word[gt..], flags);
      var a := if gt == 0 then [] else [TextPiece(p.word[..gt])];
      OneSource(TextPiece(p.word[..gt]));
      assert p.word[..0] == [];
      var leaf := Leaf(n, p.word[gt..]);
      assert ps + trail == a + [leaf] + trail;
      assert IsURLAt(env, p.word, gt);
      IsLeafAt(env, flags, p, gt, n);
      assert AroundCore(env, flags, p, a, leaf, trail);
    } else {
      if gt < |p.word| {
        NoURL(env, p.word[gt..], flags);
      }
      NotLeaf(env, flags, p, gt);
      OneSource(TextPiece(p.word));
      PiecesConcat([TextPiece(p.word)], trail);
    }
  }

  lemma NoCommand(p: Punctuated, flags: Flags)
    requires p.word != [] && (flags.quoted || p.word[0] != '#')
    ensures flags.quoted || forall n :: !IsCommand(p, n)
  {
  }

  lemma IsLeafAt(env: Env, flags: Flags, p: Punctuated, k: nat, n: Node)
    requires p.word != [] && IsURLAt(env, p.word, k) && URLOf(env, p.word[k..], flags) == Some(n)
    ensures IsLeaf(env, flags, p, n) && CoreIsLeaf(env, flags.quoted, p)
  {
  }

  lemma NotLeaf(env: Env, flags: Flags, p: Punctuated, gt: nat)
    requires p.word != [] && (flags.quoted || forall n :: !IsCommand(p, n))
    requires forall extra, n :: !IsLink(env, p.word, extra, n)
    requires forall k | 0 <= k < |p.word| && Signs(p.word[..k]) && p.word[k] != '>' :: k == gt
    requires gt < |p.word| ==> !IsURL(env, p.word[gt..])
    ensures !CoreIsLeaf(env, flags.quoted, p)
  {
    hide IsURL, IsLink, IsCommand;
  }

  lemma URLNode(env: Env, word: string, flags: Flags)
    requires URLOf(env, word, flags).Some?
    ensures Simple(URLOf(env, word, flags).value)
  {
  }

  lemma NoURL(env: Env, word: string, flags: Flags)
    requires URLOf(env, word, flags).None?
    ensures !IsURL(env, word)
  {
  }

  lemma InnerRight(env: Env, p: Punctuated, flags: Flags)
    requires p.word != []
    ensures CoreRight(env, flags, p, Inner(env, p, flags))
  {
    hide CoreRight, Inner, LinkOf;
    if p.word[0] == '#' && !flags.quoted {
      CommandRight(env, p, flags);
    } else if p.word[0] == '>' && LinkOf(env, p.word).Some? {
      LinkRight(env, p, flags);
    } else {
      WordRight(env, p, flags);
    }
  }

  lemma TrailIsShort(p: Punctuated, w: string)
    requires p == SplitPunctuation(w)
    ensures (p.lead != [] ==> IsPunctuation(p.lead[0])) && (p.trail != [] ==> IsPunctuation(p.trail[0]))
  {
    SplitExact(w, p);
  }

  lemma NoSpaces(s: string)
    requires (|s| <= 1 && (s != [] ==> IsPunctuation(s[0]))) || Signs(s)
    ensures ' ' !in s
  {
  }

  lemma LeadText(lead: string)
    ensures var l := if lead == [] then [] else [TextPiece(lead)]; AllText(l) && Sources(l) == lead
  {
    OneSource(TextPiece(lead));
  }

  /** What a word between spaces becomes: text, if it is nothing else; otherwise the leaf it stands for,
      with no more than text around it. */
  lemma SpacedWordRight(env: Env, word: string, flags: Flags)
    ensures WordPiecesRight(env, flags, word, SpacedWord(env, word, flags))
  {
    hide Inner, CoreIsLeaf, IsLeaf, IsPunctuation, SplitPunctuation;
    var p := SplitPunctuation(word);
    if p.word == [] {
      NothingInside(env, flags, word);
    } else {
      InnerRight(env, p, flags);
      LeadText(p.lead);
      var l := if p.lead == [] then [] else [TextPiece(p.lead)];
      var inner := Inner(env, p, flags);
      if !CoreIsLeaf(env, flags.quoted, p) {
        PiecesConcat(l, inner);
        assert p.lead + (p.word + p.trail) == word;
      } else {
        hide CoreRight;
        CoreGrown(env, flags, word, l, inner);
      }
    }
  }

  lemma CoreGrown(env: Env, flags: Flags, word: string, l: seq<Piece>, inner: seq<Piece>)
    requires var p := SplitPunctuation(word);
             && p.word != [] && CoreIsLeaf(env, flags.quoted, p) && CoreRight(env, flags, p, inner)
             && AllText(l) && Sources(l) == p.lead
    ensures WordPiecesRight(env, flags, word, l + inner)
  {
    hide CoreIsLeaf, IsLeaf, IsPunctuation, SplitPunctuation, AroundCore, AroundLeaf;
    var p := SplitPunctuation(word);
    var a, leaf, b :| inner == a + [leaf] + b && AroundCore(env, flags, p, a, leaf, b);
    assert l + inner == (l + a) + [leaf] + b;
    LeafGrown(env, flags, word, l, a, leaf, b);
  }

  lemma LeafGrown(env: Env, flags: Flags, word: string, l: seq<Piece>, a: seq<Piece>, leaf: Piece, b: seq<Piece>)
    requires var p := SplitPunctuation(word);
             p.word != [] && AroundCore(env, flags, p, a, leaf, b) && AllText(l) && Sources(l) == p.lead
    ensures AroundLeaf(env, flags, word, l + a, leaf, b)
  {
    hide CoreIsLeaf, IsLeaf, IsPunctuation, SplitPunctuation, Recognised, Signs, AllText, Sources;
    var p := SplitPunctuation(word);
    PiecesConcat(l, a);
    AllTextConcat(l, a);
    TrailIsShort(p, word);
    SplitShort(word);
    ShortIsText(env, flags.quoted, p.lead, Sources(a));
    BesideIsText(env, flags.quoted, Sources(b), p.trail);
    NoSpaces(p.lead);
    NoSpaces(Sources(a));
    NoSpaces(Sources(b));
  }

  lemma AllTextConcat(a: seq<Piece>, b: seq<Piece>)
    requires AllText(a) && AllText(b)
    ensures AllText(a + b)
  {
  }

  lemma SplitShort(word: string)
    ensures |SplitPunctuation(word).lead| <= 1 && |SplitPunctuation(word).trail| <= 1
  {
  }

  lemma BesideIsText(env: Env, quoted: bool, s: string, trail: string)
    requires (s == [] || s == trail) && |trail| <= 1 && (trail != [] ==> IsPunctuation(trail[0]))
    ensures !Recognised(env, quoted, s)
  {
    hide Recognised, IsPunctuation;
    assert Signs([]) && s + [] == s;
    ShortIsText(env, quoted, s, []);
  }

  lemma NothingInside(env: Env, flags: Flags, word: string)
    requires SplitPunctuation(word).word == []
    ensures WordPiecesRight(env, flags, word, SpacedWord(env, word, flags))
  {
    assert word == [];
    EmptyIs(env, flags);
    OneSource(TextPiece([]));
  }

  lemma EmptyIs(env: Env, flags: Flags)
    ensures SpacedWord(env, [], flags) == [TextPiece([])]
  {
  }
}
