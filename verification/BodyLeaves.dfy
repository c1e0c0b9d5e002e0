/** Leaves of a post body: words, punctuation, links, references, URLs and hash commands. */
module BodyLeaves {
  import opened MachineInts
  import opened PostBody

  datatype Location = NotFetched | DoesNotExist | Exists(thread: u64, page: u32)

  /** What parsing looks up or leaves to foreign code: the post location cache, the configured
      references, URL validation, embed patterns and syntax highlighting. */
  datatype Env = Env(
    located: u64 -> Location,
    references: map<string, string>,
    validURL: string -> bool,
    embed: string -> Option<EmbedProvider>,
    highlight: string -> string)

  datatype Flags = Flags(open: bool, quoted: bool)

  /** A node appended to the tree, the stretch of the input it was made from without delimiters, and
      with them. */
  datatype Piece = Piece(node: Node, src: string, raw: string)

  function Leaf(n: Node, word: string): Piece {
    Piece(n, word, word)
  }

  /** Pieces without any delimiters. */
  predicate Plain(ps: seq<Piece>) {
    forall k | 0 <= k < |ps| :: ps[k].raw == ps[k].src
  }

  function Nodes(ps: seq<Piece>): (ns: seq<Node>)
    ensures |ns| == |ps|
  {
    if ps == [] then [] else [ps[0].node] + Nodes(ps[1..])
  }

  function Sources(ps: seq<Piece>): string {
    if ps == [] then [] else ps[0].src + Sources(ps[1..])
  }

  function Raws(ps: seq<Piece>): string {
    if ps == [] then [] else ps[0].raw + Raws(ps[1..])
  }

  lemma {:induction false} PlainRaws(ps: seq<Piece>)
    requires Plain(ps)
    ensures Raws(ps) == Sources(ps)
  {
    if ps != [] {
      PlainRaws(ps[1..]);
    }
  }

  lemma {:induction false} PiecesConcat(a: seq<Piece>, b: seq<Piece>)
    ensures Nodes(a + b) == Nodes(a) + Nodes(b) && Sources(a + b) == Sources(a) + Sources(b)
    ensures Raws(a + b) == Raws(a) + Raws(b)
  {
    if a == [] {
      assert a + b == b;
    } else {
      assert (a + b)[0] == a[0] && (a + b)[1..] == a[1..] + b;
      PiecesConcat(a[1..], b);
      assert a[0].src + (Sources(a[1..]) + Sources(b)) == a[0].src + Sources(a[1..]) + Sources(b);
      assert a[0].raw + (Raws(a[1..]) + Raws(b)) == a[0].raw + Raws(a[1..]) + Raws(b);
    }
  }

  function TextPiece(s: string): Piece {
    Leaf(Text(s), s)
  }

  // ----- strings -----

  predicate StartsWith(s: string, prefix: string) {
    |prefix| <= |s| && s[..|prefix|] == prefix
  }

  /** Position of the first `c`, or the length if there is none. */
  function Position(s: string, c: char): (i: nat)
    ensures i <= |s|
    ensures forall k | 0 <= k < i :: s[k] != c
    ensures i < |s| ==> s[i] == c
  {
    if s == [] || s[0] == c then 0 else 1 + Position(s[1..], c)
  }

  /** Length of the run of `c` a string starts with. */
  function Run(s: string, c: char): (i: nat)
    ensures i <= |s|
    ensures forall k | 0 <= k < i :: s[k] == c
    ensures i < |s| ==> s[i] != c
  {
    if s == [] || s[0] != c then 0 else 1 + Run(s[1..], c)
  }

  predicate IsDigit(c: char) {
    '0' as int <= c as int <= '9' as int
  }

  function DigitsValue(s: string): Option<nat> {
    if s == [] then Some(0)
    else
      var c := s[|s| - 1];
      var init := DigitsValue(s[..|s| - 1]);
      if !IsDigit(c) then None
      else if init.None? then None
      else Some(init.value * 10 + (c as int - '0' as int))
  }

  /** Parsing an unsigned number of bounded size. A plus sign is accepted. */
  function ParseUnsigned(s: string, max: nat): (n: Option<nat>)
    ensures n.Some? ==> n.value <= max
  {
    var digits := if s != [] && s[0] == '+' then s[1..] else s;
    var v := DigitsValue(digits);
    if digits == [] || v.None? || v.value > max then None else v
  }

  /** Parsing a signed 16-bit number. */
  function ParseI16(s: string): Option<i16> {
    if s != [] && s[0] == '-' then
      var v := DigitsValue(s[1..]);
      if s[1..] == [] || v.None? || v.value > 0x8000 then None else Some(0 - v.value as int)
    else
      var v := ParseUnsigned(s, 0x7FFF);
      if v.None? then None else Some(v.value)
  }

  // ----- hash commands -----

  /** Argument of a command in parentheses: absent, present or malformed. */
  function Argument(word: string, prefix: string, default: nat, max: nat): (n: Option<nat>)
    requires StartsWith(word, prefix) && default <= max
    ensures n.Some? ==> n.value <= max
  {
    var arg := word[|prefix|..];
    if arg == [] then Some(default)
    else if |arg| >= 2 && arg[0] == '(' && arg[|arg| - 1] == ')' then ParseUnsigned(arg[1..|arg| - 1], max)
    else None
  }

  /** Position of the first sign from `from` on, or the length if there is none. */
  function SignFrom(word: string, from: nat): (i: nat)
    requires from <= |word|
    ensures from <= i <= |word|
    ensures i < |word| ==> word[i] == '+' || word[i] == '-'
    decreases |word| - from
  {
    if from == |word| || word[from] == '+' || word[from] == '-' then from else SignFrom(word, from + 1)
  }

  function ParseDice(word: string): Option<Node> {
    var d := Position(word, 'd');
    if d == |word| then None else DiceAt(word, d, SignFrom(word, d + 1))
  }

  function DiceAt(word: string, d: nat, sign: nat): Option<Node>
    requires d < sign <= |word|
  {
    var rolls := if d == 0 then Some(1) else ParseUnsigned(word[..d], 0xFF);
    var faces := ParseUnsigned(word[d + 1..sign], 0xFFFF);
    var offset := if sign == |word| then Some(0) else ParseI16(word[sign..]);
    if rolls.None? || (d != 0 && rolls.value > 10) then None
    else if faces.None? || faces.value == 0 then None
    else if offset.None? then None
    else Some(Pending(PendingDice(offset.value, faces.value, rolls.value)))
  }

  const COUNTDOWN := "countdown"
  const AUTOBAHN := "autobahn"

  function FixedCommand(comm: string): Option<Node> {
    if comm == "flip" then Some(Pending(PendingFlip))
    else if comm == "8ball" then Some(Pending(PendingEightBall))
    else if comm == "pyu" then Some(Pending(PendingPyu))
    else if comm == "pcount" then Some(Pending(PendingPCount))
    else None
  }

  /** Commands with arguments; which kind is decided on the word stripped of punctuation. */
  function ArgumentCommand(comm: string, src: string): Option<Node>
    requires StartsWith(src, comm)
  {
    if StartsWith(comm, COUNTDOWN) then
      assert src[..|COUNTDOWN|] == comm[..|COUNTDOWN|];
      var n := Argument(src, COUNTDOWN, 10, 0xFFFF_FFFF);
      if n.None? then None else Some(Pending(PendingCountdown(n.value)))
    else if StartsWith(comm, AUTOBAHN) then
      assert src[..|AUTOBAHN|] == comm[..|AUTOBAHN|];
      var n := Argument(src, AUTOBAHN, 2, 0xFFFF);
      if n.None? then None else Some(Pending(PendingAutobahn(n.value)))
    else ParseDice(src)
  }

  // ----- links -----

  /** A link and the number of `>` signs in front of it that do not belong to it. */
  datatype Link = Link(extra: nat, node: Node)

  /** `parse_links_inner` with the handlers of `parse_link`. */
  function LinkOf(env: Env, word: string): (l: Option<Link>)
    ensures l.Some? ==> l.value.extra <= |word|
  {
    if !StartsWith(word, ">>") then None
    else
      var extra := Run(word[2..], '>');
      var at := 2 + extra;
      if at == |word| then None
      else if IsDigit(word[at]) then
        var id := ParseUnsigned(word[at..], 0xFFFF_FFFF_FFFF_FFFF);
        if id.None? then None
        else
          match env.located(id.value)
          case DoesNotExist => None
          case Exists(thread, page) => Some(Link(extra, PostLink(id.value, thread, page)))
          case NotFetched => Some(Link(extra, Pending(PendingPostLink(id.value))))
      else if word[at] == '/' && extra > 0 then
        var start := at + 1;
        var end := start + Position(word[start..], '/');
        if end == |word| || end - start <= 1 || end != |word| - 1 then None
        else
          var title := word[start..end];
          if title in env.references then Some(Link(extra - 1, Reference(title, env.references[title]))) else None
      else None
  }

  /** `detect_link` and the fallback of its caller: the quotation level of a line. */
  function LevelOf(env: Env, line: string): nat {
    if line == [] || line[0] != '>' then 0
    else
      var space := Position(line, ' ');
      var newline := Position(line, '\n');
      var link := LinkOf(env, line[..if space < newline then space else newline]);
      if link.Some? then link.value.extra else Run(line, '>')
  }

  // ----- words -----

  predicate IsPunctuation(c: char) {
    c in ['!', '"', '\'', '(', ')', ',', '-', '.', ':', ';', '?', '[', ']']
  }

  /** At most one character of punctuation on each side of a word. */
  datatype Punctuated = Punctuated(lead: string, word: string, trail: string)

  function SplitPunctuation(word: string): (p: Punctuated)
    ensures p.lead + p.word + p.trail == word
    ensures p.word == [] ==> word == []
    ensures |p.lead| <= 1 && |p.trail| <= 1
  {
    var lead := if |word| >= 2 && IsPunctuation(word[0]) then word[..1] else [];
    var rest := word[|lead|..];
    if |word| >= 2 && |rest| >= 2 && IsPunctuation(rest[|rest| - 1])
    then Punctuated(lead, rest[..|rest| - 1], rest[|rest| - 1..])
    else Punctuated(lead, rest, [])
  }

  function URLOf(env: Env, word: string, flags: Flags): Option<Node> {
    if StartsWith(word, "http") then
      if !env.validURL(word) then None
      else if !flags.open && env.embed(word).Some? then Some(Embed(env.embed(word).value, word))
      else Some(URL(word))
    else if StartsWith(word, "magnet:?") || StartsWith(word, "ftp") || StartsWith(word, "bitcoin") then
      if env.validURL(word) then Some(URL(word)) else None
    else None
  }

  /** `parse_word` */
  function WordPieces(env: Env, word: string, flags: Flags): (r: seq<Piece>)
    ensures Plain(r)
  {
    var gt := Run(word, '>');
    var url := if gt == |word| then None else URLOf(env, word[gt..], flags);
    if url.None? then [TextPiece(word)]
    else (if gt == 0 then [] else [TextPiece(word[..gt])]) + [Leaf(url.value, word[gt..])]
  }

  function LinkPieces(word: string, l: Link): (r: seq<Piece>)
    requires l.extra <= |word|
    ensures Plain(r)
  {
    (if l.extra == 0 then [] else [TextPiece(word[..l.extra])]) + [Leaf(l.node, word[l.extra..])]
  }

  /** A word between two spaces, its punctuation split off (`parse_line_fragment`, loop body). */
  function SpacedWord(env: Env, word: string, flags: Flags): (r: seq<Piece>)
    ensures Plain(r)
  {
    var p := SplitPunctuation(word);
    (if p.lead == [] then [] else [TextPiece(p.lead)]) + Inner(env, p, flags)
  }

  /** The word proper and what is left of the trailing punctuation. */
  function Inner(env: Env, p: Punctuated, flags: Flags): (r: seq<Piece>)
    ensures Plain(r)
  {
    var trail := if p.trail == [] then [] else [TextPiece(p.trail)];
    if p.word != [] && p.word[0] == '#' && !flags.quoted then
      var comm := p.word[1..];
      // a closing parenthesis split off is handed back to the command
      var src := if p.trail == ")" then comm + ")" else comm;
      if FixedCommand(comm).Some? then [Leaf(FixedCommand(comm).value, p.word)] + trail
      else
        assert StartsWith(src, comm);
        match ArgumentCommand(comm, src)
        case Some(n) => [Leaf(n, "#" + src)] + if p.trail == ")" then [] else trail
        case None => WordPieces(env, p.word, flags) + trail
    else if p.word != [] && p.word[0] == '>' && LinkOf(env, p.word).Some? then
      LinkPieces(p.word, LinkOf(env, p.word).value) + trail
    else WordPieces(env, p.word, flags) + trail
  }

  /** Words of a line that is not empty, with the spaces between them. */
  function Words(env: Env, line: string, flags: Flags): (r: seq<Piece>)
    ensures Plain(r)
    decreases |line|
  {
    var i := Position(line, ' ');
    if i == |line| then SpacedWord(env, line, flags)
    else SpacedWord(env, line[..i], flags) + [TextPiece(" ")] + Words(env, line[i + 1..], flags)
  }

  /** `parse_line_fragment` */
  function Line(env: Env, line: string, flags: Flags): (r: seq<Piece>)
    ensures Plain(r)
  {
    if line == [] then [] else Words(env, line, flags)
  }

  function Lines(env: Env, frag: string, flags: Flags): (r: seq<Piece>)
    ensures Plain(r)
    decreases |frag|
  {
    var i := Position(frag, '\n');
    if i == |frag| then Line(env, frag, flags)
    else Line(env, frag[..i], flags) + [Leaf(Newline, "\n")] + Lines(env, frag[i + 1..], flags)
  }

  // ----- no character is lost or made up -----

  lemma WordSources(env: Env, word: string, flags: Flags)
    ensures Sources(WordPieces(env, word, flags)) == word
  {
    var gt := Run(word, '>');
    assert word[..gt] + word[gt..] == word;
    OneSource(TextPiece(word));
    if gt != |word| && URLOf(env, word[gt..], flags).Some? {
      var p := Leaf(URLOf(env, word[gt..], flags).value, word[gt..]);
      OneSource(p);
      OneSource(TextPiece(word[..gt]));
      PiecesConcat(if gt == 0 then [] else [TextPiece(word[..gt])], [p]);
    }
  }

  lemma OneSource(p: Piece)
    ensures Sources([p]) == p.src && Raws([p]) == p.raw && Nodes([p]) == [p.node]
  {
    assert [p][1..] == [];
  }

  lemma LinkSources(word: string, l: Link)
    requires l.extra <= |word|
    ensures Sources(LinkPieces(word, l)) == word
  {
    var p := Leaf(l.node, word[l.extra..]);
    assert word[..l.extra] + word[l.extra..] == word;
    OneSource(p);
    OneSource(TextPiece(word[..l.extra]));
    PiecesConcat(if l.extra == 0 then [] else [TextPiece(word[..l.extra])], [p]);
  }

  function Trail(p: Punctuated): seq<Piece> {
    if p.trail == [] then [] else [TextPiece(p.trail)]
  }

  lemma InnerSources(env: Env, p: Punctuated, flags: Flags)
    ensures Sources(Inner(env, p, flags)) == p.word + p.trail
  {
    var trail := Trail(p);
    OneSource(TextPiece(p.trail));
    assert Sources(trail) == p.trail;
    WordSources(env, p.word, flags);
    PiecesConcat(WordPieces(env, p.word, flags), trail);
    if p.word != [] && p.word[0] == '#' && !flags.quoted {
      var comm := p.word[1..];
      assert p.word == "#" + comm;
      var src := if p.trail == ")" then comm + ")" else comm;
      if FixedCommand(comm).Some? {
        var c := Leaf(FixedCommand(comm).value, p.word);
        OneSource(c);
        PiecesConcat([c], trail);
      } else if ArgumentCommand(comm, src).Some? {
        var c := Leaf(ArgumentCommand(comm, src).value, "#" + src);
        OneSource(c);
        PiecesConcat([c], trail);
        PiecesConcat([c], []);
        if p.trail == ")" {
          assert "#" + src == p.word + p.trail;
        }
      }
    } else if p.word != [] && p.word[0] == '>' && LinkOf(env, p.word).Some? {
      var l := LinkOf(env, p.word).value;
      LinkSources(p.word, l);
      PiecesConcat(LinkPieces(p.word, l), trail);
    }
  }

  lemma SpacedWordSources(env: Env, word: string, flags: Flags)
    ensures Sources(SpacedWord(env, word, flags)) == word
  {
    hide Inner, Raws, Plain;
    var p := SplitPunctuation(word);
    InnerSources(env, p, flags);
    OneSource(TextPiece(p.lead));
    PiecesConcat(if p.lead == [] then [] else [TextPiece(p.lead)], Inner(env, p, flags));
    assert p.lead + (p.word + p.trail) == word;
  }

  lemma {:induction false} WordsSources(env: Env, line: string, flags: Flags)
    ensures Sources(Words(env, line, flags)) == line
    decreases |line|
  {
    hide SpacedWord;
    var i := Position(line, ' ');
    if i == |line| {
      SpacedWordSources(env, line, flags);
    } else {
      SpacedWordSources(env, line[..i], flags);
      WordsSources(env, line[i + 1..], flags);
      ThreeSources(SpacedWord(env, line[..i], flags), TextPiece(" "), Words(env, line[i + 1..], flags));
      assert line == line[..i] + " " + line[i + 1..];
    }
  }

  lemma ThreeSources(a: seq<Piece>, p: Piece, b: seq<Piece>)
    ensures Sources(a + [p] + b) == Sources(a) + p.src + Sources(b)
    ensures Nodes(a + [p] + b) == Nodes(a) + [p.node] + Nodes(b)
  {
    PiecesConcat(a + [p], b);
    PiecesConcat(a, [p]);
    OneSource(p);
  }

  lemma {:induction false} LinesSources(env: Env, frag: string, flags: Flags)
    ensures Sources(Lines(env, frag, flags)) == frag
    decreases |frag|
  {
    hide Words;
    var i := Position(frag, '\n');
    if i == |frag| {
      WordsSources(env, frag, flags);
    } else {
      WordsSources(env, frag[..i], flags);
      LinesSources(env, frag[i + 1..], flags);
      ThreeSources(Line(env, frag[..i], flags), Leaf(Newline, "\n"), Lines(env, frag[i + 1..], flags));
      assert frag == frag[..i] + "\n" + frag[i + 1..];
    }
  }
}
