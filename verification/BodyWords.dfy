/** Exactly which words of a post body are links, references, URLs and commands, and which. */
module BodyWords {
  import opened MachineInts
  import opened PostBody
  import opened BodyLeaves
  import opened BodyMeaning

  // ----- numbers -----

  function Digit(d: nat): char
    requires d < 10
  {
    ['0', '1', '2', '3', '4', '5', '6', '7', '8', '9'][d]
  }

  /** A number as it is written in decimal. */
  function Numeral(n: nat): (s: string)
    ensures s != []
  {
    if n < 10 then [Digit(n)] else Numeral(n / 10) + [Digit(n % 10)]
  }

  lemma DigitIs(d: nat)
    requires d < 10
    ensures IsDigit(Digit(d)) && Digit(d) as int - '0' as int == d
  {
  }

  /** Numbers are read as they are written. */
  lemma {:induction false} NumeralRead(n: nat)
    ensures DigitsValue(Numeral(n)) == Some(n)
    ensures forall k | 0 <= k < |Numeral(n)| :: IsDigit(Numeral(n)[k])
  {
    if n < 10 {
      DigitIs(n);
      assert [Digit(n)][..0] == [];
    } else {
      NumeralRead(n / 10);
      DigitIs(n % 10);
      var s := Numeral(n);
      assert s[..|s| - 1] == Numeral(n / 10);
    }
  }

  predicate AllDigits(s: string) {
    forall k | 0 <= k < |s| :: IsDigit(s[k])
  }

  lemma {:induction false} DigitsRead(s: string)
    ensures DigitsValue(s).Some? <==> AllDigits(s)
  {
    if s != [] {
      DigitsRead(s[..|s| - 1]);
    }
  }

  /** Exact: a number is read iff it is digits, perhaps behind a plus sign, and not too large. */
  lemma UnsignedExact(s: string, max: nat)
    ensures ParseUnsigned(s, max).Some? <==>
              var digits := if s != [] && s[0] == '+' then s[1..] else s;
              digits != [] && AllDigits(digits) && DigitsValue(digits).Some? && DigitsValue(digits).value <= max
  {
    DigitsRead(if s != [] && s[0] == '+' then s[1..] else s);
  }

  // ----- links and references -----

  predicate Signs(s: string) {
    forall k | 0 <= k < |s| :: s[k] == '>'
  }

  /** Two signs and the id of a post. */
  predicate PostWord(word: string, id: u64) {
    |word| > 2 && word[0] == '>' && word[1] == '>' && AllDigits(word[2..]) && DigitsValue(word[2..]) == Some(id)
  }

  /** Three signs and a title of two or more characters between slashes. */
  predicate ReferenceWord(word: string, title: string) {
    word == ">>>/" + title + "/" && |title| >= 2 && '/' !in title
  }

  /** The word is a link, behind as many signs. */
  predicate IsLink(env: Env, word: string, extra: nat, node: Node) {
    && extra <= |word| && Signs(word[..extra])
    && match node
       case PostLink(id, thread, page) => PostWord(word[extra..], id) && env.located(id) == Exists(thread, page)
       case Pending(PendingPostLink(id)) => PostWord(word[extra..], id) && env.located(id) == NotFetched
       case Reference(title, target) =>
         ReferenceWord(word[extra..], title) && title in env.references && env.references[title] == target
       case _ => false
  }

  /** The signs a word of signs and something else starts with. */
  lemma {:induction false} RunIs(s: string, n: nat)
    requires n < |s| && s[n] != '>' && forall k | 0 <= k < n :: s[k] == '>'
    ensures Run(s, '>') == n
    decreases n
  {
    if n > 0 {
      RunIs(s[1..], n - 1);
    }
  }

  lemma SignsAhead(word: string, n: nat)
    requires 2 <= n < |word| && word[n] != '>' && forall k | 0 <= k < n :: word[k] == '>'
    ensures StartsWith(word, ">>") && Run(word[2..], '>') == n - 2
  {
    RunIs(word[2..], n - 2);
    assert word[..2] == ">>";
  }

  lemma PostLinkFound(env: Env, word: string, extra: nat, id: u64)
    requires extra <= |word| && Signs(word[..extra]) && PostWord(word[extra..], id)
    ensures var at := extra + 2;
            && at < |word| && StartsWith(word, ">>") && 2 + Run(word[2..], '>') == at && IsDigit(word[at])
            && ParseUnsigned(word[at..], 0xFFFF_FFFF_FFFF_FFFF) == Some(id)
  {
    var base := word[extra..];
    assert base[0] == word[extra] && base[1] == word[extra + 1] && base[2] == word[extra + 2];
    assert base[2..] == word[extra + 2..] && base[2..][0] == base[2];
    forall k | 0 <= k < extra ensures word[k] == '>' {
      assert word[..extra][k] == word[k];
    }
    SignsAhead(word, extra + 2);
  }

  lemma ReferenceFound(word: string, extra: nat, title: string)
    requires extra <= |word| && Signs(word[..extra]) && ReferenceWord(word[extra..], title)
    ensures var at := extra + 3;
            && at < |word| && StartsWith(word, ">>") && 2 + Run(word[2..], '>') == at && word[at] == '/'
            && Position(word[at + 1..], '/') == |title| && at + 1 + |title| == |word| - 1
            && word[at + 1..at + 1 + |title|] == title
  {
    var base := word[extra..];
    assert |base| == |title| + 5;
    assert base[0] == base[1] == base[2] == '>' && base[3] == '/';
    assert forall k | 0 <= k < |base| :: base[k] == word[extra + k];
    forall k | 0 <= k < extra ensures word[k] == '>' {
      assert word[..extra][k] == word[k];
    }
    SignsAhead(word, extra + 3);
    assert word[extra + 4..] == title + "/" by {
      assert base[4..] == title + "/";
    }
    PositionAfter(title, "/", '/');
  }

  lemma {:induction false} PositionAfter(a: string, b: string, c: char)
    requires c !in a && b != [] && b[0] == c
    ensures Position(a + b, c) == |a|
  {
    if a == [] {
      assert a + b == b;
    } else {
      assert (a + b)[0] == a[0] && (a + b)[1..] == a[1..] + b;
      PositionAfter(a[1..], b, c);
    }
  }

  lemma PostLinkIs(env: Env, word: string)
    requires LinkOf(env, word).Some? && IsDigit(word[2 + Run(word[2..], '>')])
    ensures var l := LinkOf(env, word).value; IsLink(env, word, l.extra, l.node)
  {
    var at := 2 + Run(word[2..], '>');
    LeadingSigns(word);
    UnsignedExact(word[at..], 0xFFFF_FFFF_FFFF_FFFF);
    var extra := at - 2;
    assert word[extra..][2..] == word[at..] && word[extra..][0] == word[extra] && word[extra..][1] == word[extra + 1];
  }

  lemma ReferenceIs(env: Env, word: string)
    requires LinkOf(env, word).Some? && !IsDigit(word[2 + Run(word[2..], '>')])
    ensures var l := LinkOf(env, word).value; IsLink(env, word, l.extra, l.node)
  {
    LinkAsRead(env, word);
    hide LinkOf, Run, Position, StartsWith;
    var at := 2 + Run(word[2..], '>');
    LeadingSigns(word);
    ReferenceRead(env, word);
    var end := at + 1 + Position(word[at + 1..], '/');
    ReferenceTitle(word, at, end);
  }

  lemma LinkAsRead(env: Env, word: string)
    requires LinkOf(env, word).Some?
    ensures StartsWith(word, ">>")
  {
  }

  lemma ReferenceTitle(word: string, at: nat, end: nat)
    requires 3 <= at && at + 3 <= end == |word| - 1 && word[at] == '/' && word[end] == '/'
    requires (forall k | 0 <= k < at :: word[k] == '>') && '/' !in word[at + 1..end]
    ensures ReferenceWord(word[at - 3..], word[at + 1..end]) && Signs(word[..at - 3])
  {
    ReferenceShape(word, at - 3, end);
  }

  /** What is read off a reference. */
  lemma ReferenceRead(env: Env, word: string)
    requires LinkOf(env, word).Some? && !IsDigit(word[2 + Run(word[2..], '>')])
    ensures var l := LinkOf(env, word).value;
            var at := 2 + Run(word[2..], '>');
            var end := at + 1 + Position(word[at + 1..], '/');
            && at >= 3 && l.extra == at - 3 && word[at] == '/' && end == |word| - 1 && word[end] == '/' && end - at >= 3
            && '/' !in word[at + 1..end] && word[at + 1..end] in env.references
            && l.node == Reference(word[at + 1..end], env.references[word[at + 1..end]])
  {
    var at := 2 + Run(word[2..], '>');
    var rest := word[at + 1..];
    var end := at + 1 + Position(rest, '/');
    var title := word[at + 1..end];
    forall k | 0 <= k < |title| ensures title[k] != '/' {
      assert title[k] == rest[k];
    }
    assert end < |word| ==> rest[end - at - 1] == word[end];
  }

  lemma LinkIs(env: Env, word: string)
    requires LinkOf(env, word).Some?
    ensures var l := LinkOf(env, word).value; IsLink(env, word, l.extra, l.node)
  {
    hide IsLink;
    if IsDigit(word[2 + Run(word[2..], '>')]) {
      PostLinkIs(env, word);
    } else {
      ReferenceIs(env, word);
    }
  }

  lemma LinkFound(env: Env, word: string, extra: nat, node: Node)
    requires IsLink(env, word, extra, node)
    ensures LinkOf(env, word) == Some(Link(extra, node))
  {
    hide ParseUnsigned, Run, Position, PostWord, StartsWith;
    match node
    case PostLink(id, _, _) => PostLinkFound(env, word, extra, id);
    case Pending(PendingPostLink(id)) => PostLinkFound(env, word, extra, id);
    case Reference(title, _) => ReferenceFound(word, extra, title);
  }

  /** Exact: which words are links, with how many signs in front, and what they link to. */
  lemma LinkExact(env: Env, word: string, extra: nat, node: Node)
    ensures LinkOf(env, word) == Some(Link(extra, node)) <==> IsLink(env, word, extra, node)
  {
    hide LinkOf, IsLink;
    if LinkOf(env, word) == Some(Link(extra, node)) {
      LinkIs(env, word);
    }
    if IsLink(env, word, extra, node) {
      LinkFound(env, word, extra, node);
    }
  }

  // ----- quotation levels -----

  /** The word a line starts with: up to the first space, or to the end of the line. */
  predicate IsFirstWord(line: string, word: string) {
    && StartsWith(line, word) && ' ' !in word && '\n' !in word
    && (|word| < |line| ==> line[|word|] == ' ' || line[|word|] == '\n')
  }

  lemma FirstWordIs(line: string, word: string)
    requires IsFirstWord(line, word)
    ensures var space := Position(line, ' '); var newline := Position(line, '\n');
            word == line[..if space < newline then space else newline]
  {
    var n := |word|;
    forall k | 0 <= k < n ensures line[k] != ' ' && line[k] != '\n' {
      assert line[k] == word[k] && word[k] in word;
    }
  }

  /** Exact: a line is quoted as often as it has signs in front; but signs that belong to a link do not
      count. */
  lemma LevelExact(env: Env, line: string, word: string, extra: nat, node: Node)
    requires IsFirstWord(line, word)
    ensures line == [] || line[0] != '>' ==> LevelOf(env, line) == 0
    ensures IsLink(env, word, extra, node) ==> LevelOf(env, line) == extra
    ensures LinkOf(env, word).None? ==>
              var n := LevelOf(env, line); n <= |line| && Signs(line[..n]) && (n < |line| ==> line[n] != '>')
  {
    hide LinkOf, IsLink, Run;
    FirstWordIs(line, word);
    LinkExact(env, word, extra, node);
    if IsLink(env, word, extra, node) {
      LinkBegins(env, word, extra, node);
    }
    if line != [] && line[0] != '>' {
      assert Signs(line[..0]);
    }
    RunOfSigns(line);
  }

  lemma LinkBegins(env: Env, word: string, extra: nat, node: Node)
    requires IsLink(env, word, extra, node)
    ensures word != [] && word[0] == '>'
  {
    if extra > 0 {
      assert word[..extra][0] == word[0];
    } else {
      assert word[0..] == word;
      if node.Reference? {
        assert word[0] == '>';
      }
    }
  }

  lemma RunOfSigns(s: string)
    ensures var n := Run(s, '>'); n <= |s| && Signs(s[..n]) && (n < |s| ==> s[n] != '>')
  {
  }

  // ----- commands -----

  /** Commands that are the same word every time. */
  predicate IsFixed(p: PendingNode, comm: string) {
    match p
    case PendingFlip => comm == "flip"
    case PendingEightBall => comm == "8ball"
    case PendingPyu => comm == "pyu"
    case PendingPCount => comm == "pcount"
    case _ => false
  }

  lemma FixedExact(comm: string, p: PendingNode)
    ensures FixedCommand(comm) == Some(Pending(p)) <==> IsFixed(p, comm)
    ensures FixedCommand(comm).Some? ==> FixedCommand(comm).value.Pending?
  {
  }

  /** Commands with an argument, with dice. */
  ghost predicate IsArgument(p: PendingNode, src: string) {
    (p.PendingCountdown? || p.PendingAutobahn? || p.PendingDice?) && SaysCommand(p, src)
  }

  lemma NumberExact(word: string, name: string, default: nat, max: nat, n: nat)
    requires StartsWith(word, name) && default <= max
    ensures Argument(word, name, default, max) == Some(n) <==> SaysNumber(word, name, default, n, max)
  {
    hide ParseUnsigned;
    var arg := word[|name|..];
    if arg == [] {
      assert word == name;
    } else {
      if |arg| >= 2 {
        assert arg[1..|arg| - 1] == word[|name| + 1..|word| - 1];
        assert StartsWith(word, name + "(") <==> arg[0] == '(' by {
          assert |name + "("| == |name| + 1;
          assert word[..|name| + 1] == name + [arg[0]];
          if StartsWith(word, name + "(") {
            assert (name + "(")[|name|] == '(' && (name + [arg[0]])[|name|] == arg[0];
          }
        }
      }
      assert word != name;
    }
  }

  /** Digits, perhaps behind a plus sign, hold no letter. */
  lemma NoLetter(s: string, max: nat)
    requires ParseUnsigned(s, max).Some?
    ensures forall k | 0 <= k < |s| :: IsDigit(s[k]) || (k == 0 && s[k] == '+')
  {
    UnsignedExact(s, max);
    var digits := if s[0] == '+' then s[1..] else s;
    forall k | 0 <= k < |s| ensures IsDigit(s[k]) || (k == 0 && s[k] == '+') {
      if s[0] == '+' {
        if k > 0 {
          assert digits[k - 1] == s[k];
        }
      } else {
        assert digits[k] == s[k];
      }
    }
  }

  lemma {:induction false} PositionIs(s: string, c: char, n: nat)
    requires n < |s| && s[n] == c && forall k | 0 <= k < n :: s[k] != c
    ensures Position(s, c) == n
  {
    if n > 0 {
      PositionIs(s[1..], c, n - 1);
    }
  }

  lemma {:induction false} SignIs(word: string, from: nat, sign: nat)
    requires from <= sign <= |word| && (sign < |word| ==> word[sign] == '+' || word[sign] == '-')
    requires forall k | from <= k < sign :: word[k] != '+' && word[k] != '-'
    ensures SignFrom(word, from) == sign
    decreases sign - from
  {
    if from < sign {
      SignIs(word, from + 1, sign);
    }
  }

  lemma DiceFound(word: string, d: nat, sign: nat, offset: i16, faces: u16, rolls: u8)
    requires d < sign <= |word| && SaysDiceAt(word, d, sign, offset, faces, rolls)
    ensures ParseDice(word) == Some(Pending(PendingDice(offset, faces, rolls)))
  {
    hide ParseUnsigned, ParseI16, Position, SignFrom;
    if d > 0 {
      NoLetter(word[..d], 0xFF);
      forall k | 0 <= k < d ensures word[k] != 'd' {
        assert word[..d][k] == word[k];
      }
    }
    PositionIs(word, 'd', d);
    SignIs(word, d + 1, sign);
  }

  /** Exact: which words roll dice, and which. */
  lemma DiceExact(word: string, offset: i16, faces: u16, rolls: u8)
    ensures ParseDice(word) == Some(Pending(PendingDice(offset, faces, rolls))) <==> SaysDice(word, offset, faces, rolls)
  {
    hide ParseDice, SaysDiceAt;
    if ParseDice(word) == Some(Pending(PendingDice(offset, faces, rolls))) {
      DiceSays(word);
    }
    if SaysDice(word, offset, faces, rolls) {
      var d, sign :| 0 <= d < sign <= |word| && SaysDiceAt(word, d, sign, offset, faces, rolls);
      DiceFound(word, d, sign, offset, faces, rolls);
    }
  }

  /** What rolls dice starts with a digit, a plus sign or the letter d. */
  lemma DiceStarts(word: string)
    requires ParseDice(word).Some?
    ensures word != [] && (IsDigit(word[0]) || word[0] == '+' || word[0] == 'd')
  {
    DiceSays(word);
    var p := ParseDice(word).value.pending;
    var d, sign :| 0 <= d < sign <= |word| && SaysDiceAt(word, d, sign, p.offset, p.faces, p.rolls);
    if d > 0 {
      NoLetter(word[..d], 0xFF);
      assert word[..d][0] == word[0];
    }
  }

  lemma StartsAs(src: string, name: string)
    requires StartsWith(src, name)
    ensures forall k | 0 <= k < |name| :: src[k] == name[k]
  {
    forall k | 0 <= k < |name| ensures src[k] == name[k] {
      assert src[..|name|][k] == name[k];
    }
  }

  /** The word stripped of a closing parenthesis starts as the whole one does. */
  lemma SameStart(comm: string, src: string, name: string)
    requires src == comm || src == comm + ")"
    requires ')' !in name
    ensures StartsWith(comm, name) <==> StartsWith(src, name)
  {
    if StartsWith(src, name) {
      StartsAs(src, name);
      assert src != comm ==> src[|comm|] == ')';
      assert |name| <= |comm|;
      assert src[..|name|] == comm[..|name|];
    }
    if StartsWith(comm, name) {
      assert src[..|name|] == comm[..|name|];
    }
  }

  /** Exact: which words are commands with an argument, and which. */
  lemma ArgumentExact(comm: string, src: string, p: PendingNode)
    requires src == comm || src == comm + ")"
    ensures StartsWith(src, comm)
    ensures ArgumentCommand(comm, src) == Some(Pending(p)) <==> IsArgument(p, src)
    ensures ArgumentCommand(comm, src).Some? ==> ArgumentCommand(comm, src).value.Pending?
  {
    hide SaysNumber, SaysDice, ParseDice, Argument;
    assert src[..|comm|] == comm;
    SameStart(comm, src, COUNTDOWN);
    SameStart(comm, src, AUTOBAHN);
    if StartsWith(src, COUNTDOWN) {
      StartsAs(src, COUNTDOWN);
      if p.PendingCountdown? {
        NumberExact(src, COUNTDOWN, 10, 0xFFFF_FFFF, p.secs);
      }
    } else if StartsWith(src, AUTOBAHN) {
      StartsAs(src, AUTOBAHN);
      if p.PendingAutobahn? {
        NumberExact(src, AUTOBAHN, 2, 0xFFFF, p.hours);
      }
    }
    if ParseDice(src).Some? {
      DiceSays(src);
      DiceStarts(src);
    }
    match p
    case PendingCountdown(n) => NumberStarts(src, COUNTDOWN, 10, n, 0xFFFF_FFFF);
    case PendingAutobahn(n) => NumberStarts(src, AUTOBAHN, 2, n, 0xFFFF);
    case PendingDice(o, f, r) => DiceExact(src, o, f, r);
    case _ =>
  }

  lemma NumberStarts(word: string, name: string, default: nat, n: nat, max: nat)
    ensures SaysNumber(word, name, default, n, max) ==> StartsWith(word, name)
  {
    hide ParseUnsigned;
    if SaysNumber(word, name, default, n, max) {
      if word == name {
        assert word[..|name|] == name;
      } else {
        assert word[..|name + "("|] == name + "(";
        assert word[..|name|] == name;
      }
    }
  }

  // ----- URLs -----

  /** A known scheme, and valid. */
  predicate IsURL(env: Env, word: string) {
    && (StartsWith(word, "http") || StartsWith(word, "magnet:?") || StartsWith(word, "ftp") || StartsWith(word, "bitcoin"))
    && env.validURL(word)
  }

  /** Exact: what a URL becomes. Only in a closed post is it embedded. */
  lemma URLExact(env: Env, word: string, flags: Flags, n: Node)
    ensures URLOf(env, word, flags) == Some(n) <==>
              && IsURL(env, word)
              && var embed := if flags.open || !StartsWith(word, "http") then None else env.embed(word);
                 n == if embed.Some? then Embed(embed.value, word) else URL(word)
  {
  }

  // ----- punctuation -----

  /** Each end gives off one character of punctuation, but for the last character of all. */
  predicate SplitRight(w: string, p: Punctuated) {
    && w == p.lead + p.word + p.trail && |p.lead| <= 1 && |p.trail| <= 1 && (p.word == [] ==> w == [])
    && (if p.lead == [] then |w| < 2 || !IsPunctuation(w[0]) else IsPunctuation(p.lead[0]))
    && (if p.trail == [] then |p.word| < 2 || !IsPunctuation(p.word[|p.word| - 1]) else IsPunctuation(p.trail[0]))
  }

  lemma SplitIsRight(w: string)
    ensures SplitRight(w, SplitPunctuation(w))
  {
    hide IsPunctuation;
  }

  lemma SplitOnly(w: string, p: Punctuated, q: Punctuated)
    requires SplitRight(w, p) && SplitRight(w, q)
    ensures p == q
  {
    hide IsPunctuation;
    LeadOnly(w, p);
    LeadOnly(w, q);
    var rest := w[|p.lead|..];
    TrailOnly(rest, p.word, p.trail);
    TrailOnly(rest, q.word, q.trail);
  }

  lemma LeadOnly(w: string, p: Punctuated)
    requires SplitRight(w, p)
    ensures p.lead == (if |w| >= 2 && IsPunctuation(w[0]) then [w[0]] else [])
    ensures w[|p.lead|..] == p.word + p.trail
  {
    hide IsPunctuation;
    if p.lead != [] {
      assert w[0] == p.lead[0] && p.lead == [w[0]];
    }
  }

  lemma TrailOnly(rest: string, word: string, trail: string)
    requires rest == word + trail && |trail| <= 1 && (word == [] ==> rest == [])
    requires if trail == [] then |word| < 2 || !IsPunctuation(word[|word| - 1]) else IsPunctuation(trail[0])
    ensures trail == (if |rest| >= 2 && IsPunctuation(rest[|rest| - 1]) then [rest[|rest| - 1]] else [])
    ensures word == rest[..|rest| - |trail|]
  {
    hide IsPunctuation;
    if trail != [] {
      assert rest[|rest| - 1] == trail[0] && trail == [rest[|rest| - 1]];
    }
  }

  /** Exact: how a word is stripped of punctuation. */
  lemma SplitExact(w: string, p: Punctuated)
    ensures SplitRight(w, p) <==> p == SplitPunctuation(w)
  {
    hide SplitRight, SplitPunctuation;
    SplitIsRight(w);
    if SplitRight(w, p) {
      SplitOnly(w, p, SplitPunctuation(w));
    }
  }
}
