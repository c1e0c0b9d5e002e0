/** Post body trees, their structural diff and the patch that replays it. */
module PostBody {
  import opened MachineInts
  import opened TextDiff

  datatype Option<+T> = None | Some(value: T)

  datatype EmbedProvider =
    | YouTube | SoundCloud | Vimeo | Coub | Twitter | Imgur | BitChute | Invidious | DropBox

  datatype Command =
    | Dice(offset: i16, faces: u16, results: seq<u16>)
    | Flip(heads: bool)
    | EightBall(answer: string)
    | Countdown(start: u32, secs: u32)
    | Autobahn(hours: u16)
    | Pyu(pyu: u64)
    | PCount(count: u64)

  /** Leaves still waiting for the server to finalize them. */
  datatype PendingNode =
    | PendingFlip
    | PendingEightBall
    | PendingPyu
    | PendingPCount
    | PendingCountdown(secs: u32)
    | PendingAutobahn(hours: u16)
    | PendingDice(offset: i16, faces: u16, rolls: u8)
    | PendingPostLink(id: u64)

  datatype Node =
    | Empty
    | Newline
    | Children(list: seq<Node>)
    | Text(text: string)
    | PostLink(id: u64, thread: u64, page: u32)
    | CommandResult(command: Command)
    | URL(url: string)
    | Reference(title: string, target: string)
    | Embed(provider: EmbedProvider, link: string)
    | Code(code: string)
    | Spoiler(spoiler: Node)
    | Bold(bold: Node)
    | Italic(italic: Node)
    | Quoted(quoted: Node)
    | Pending(pending: PendingNode)

  datatype Patch =
    | Replace(node: Node)
    | PatchText(text: TextPatch)
    | Wrapped(inner: Patch)
    | PatchChildren(patches: seq<ChildPatch>, truncate: Option<nat>, append: seq<Node>)

  /** Patch of the child at one index. */
  datatype ChildPatch = At(index: nat, patch: Patch)

  // ----- diff -----

  /** `Node::diff` */
  function Diff(a: Node, b: Node): Option<Patch>
    decreases a, 0
  {
    match (a, b)
    case (Empty, Empty) => None
    case (Newline, Newline) => None
    case (Children(xs), Children(ys)) => DiffChildren(xs, ys)
    case (Text(x), Text(y)) => DiffText(x, y)
    case (URL(x), URL(y)) => DiffText(x, y)
    case (Code(x), Code(y)) => DiffText(x, y)
    case (Spoiler(x), Spoiler(y)) => Wrap(Diff(x, y))
    case (Bold(x), Bold(y)) => Wrap(Diff(x, y))
    case (Italic(x), Italic(y)) => Wrap(Diff(x, y))
    case (Quoted(x), Quoted(y)) => Wrap(Diff(x, y))
    case _ => if a != b then Some(Replace(b)) else None
  }

  function DiffText(x: string, y: string): Option<Patch> {
    if x == y then None else Some(PatchText(Make(x, y)))
  }

  function Wrap(p: Option<Patch>): Option<Patch> {
    if p.None? then None else Some(Wrapped(p.value))
  }

  /** Patches of the positions from `i` on that both lists have. */
  function DiffShared(xs: seq<Node>, ys: seq<Node>, i: nat): seq<ChildPatch>
    decreases xs, |xs| - i
  {
    if i >= |xs| || i >= |ys| then []
    else
      var p := Diff(xs[i], ys[i]);
      StepPatches(i, p) + DiffShared(xs, ys, i + 1)
  }

  function DiffChildren(xs: seq<Node>, ys: seq<Node>): Option<Patch>
    decreases xs
  {
    var patches := DiffShared(xs, ys, 0);
    var truncate := if |ys| < |xs| then Some(|ys|) else None;
    var append := if |xs| < |ys| then ys[|xs|..] else [];
    if patches == [] && truncate.None? && append == [] then None
    else Some(PatchChildren(patches, truncate, append))
  }

  /** `Node::diff` as written. */
  method ComputeDiff(a: Node, b: Node) returns (p: Option<Patch>)
    ensures p == Diff(a, b)
    decreases a, 0
  {
    hide DiffText, DiffChildren, Wrap;
    if a.Children? && b.Children? {
      p := ComputeDiffChildren(a.list, b.list);
    } else if a.Spoiler? && b.Spoiler? {
      p := ComputeDiff(a.spoiler, b.spoiler);
      p := Wrap(p);
    } else if a.Bold? && b.Bold? {
      p := ComputeDiff(a.bold, b.bold);
      p := Wrap(p);
    } else if a.Italic? && b.Italic? {
      p := ComputeDiff(a.italic, b.italic);
      p := Wrap(p);
    } else if a.Quoted? && b.Quoted? {
      p := ComputeDiff(a.quoted, b.quoted);
      p := Wrap(p);
    } else {
      p := ComputeDiffLeaf(a, b);
    }
  }

  /** Both have children of the same kind. */
  predicate Nested(a: Node, b: Node) {
    || (a.Children? && b.Children?) || (a.Spoiler? && b.Spoiler?) || (a.Bold? && b.Bold?)
    || (a.Italic? && b.Italic?) || (a.Quoted? && b.Quoted?)
  }

  predicate Texts(a: Node, b: Node) {
    (a.Text? && b.Text?) || (a.URL? && b.URL?) || (a.Code? && b.Code?)
  }

  lemma DiffOfTexts(x: string, y: string)
    ensures Diff(Text(x), Text(y)) == DiffText(x, y)
    ensures Diff(URL(x), URL(y)) == DiffText(x, y)
    ensures Diff(Code(x), Code(y)) == DiffText(x, y)
  {
  }

  lemma DiffOfOthers(a: Node, b: Node)
    requires !Nested(a, b) && !Texts(a, b)
    ensures Diff(a, b) == if a != b then Some(Replace(b)) else None
  {
  }

  method ComputeDiffLeaf(a: Node, b: Node) returns (p: Option<Patch>)
    requires !Nested(a, b)
    ensures p == Diff(a, b)
    decreases a
  {
    hide Diff, DiffText;
    if a.Text? && b.Text? {
      DiffOfTexts(a.text, b.text);
      p := ComputeDiffText(a.text, b.text);
    } else if a.URL? && b.URL? {
      DiffOfTexts(a.url, b.url);
      p := ComputeDiffText(a.url, b.url);
    } else if a.Code? && b.Code? {
      DiffOfTexts(a.code, b.code);
      p := ComputeDiffText(a.code, b.code);
    } else {
      DiffOfOthers(a, b);
      p := if a != b then Some(Replace(b)) else None;
    }
  }

  method ComputeDiffText(x: string, y: string) returns (p: Option<Patch>)
    ensures p == DiffText(x, y)
  {
    p := None;
    if x != y {
      p := Some(PatchText(Make(x, y)));
    }
  }

  /** One step of the walk over two child lists. */
  lemma SharedAt(xs: seq<Node>, ys: seq<Node>, i: nat)
    requires i <= |xs| && i <= |ys|
    ensures i == |xs| || i == |ys| ==> DiffShared(xs, ys, i) == []
    ensures i < |xs| && i < |ys| ==>
              DiffShared(xs, ys, i) == StepPatches(i, Diff(xs[i], ys[i])) + DiffShared(xs, ys, i + 1)
  {
    hide Diff;
  }

  function StepPatches(i: nat, p: Option<Patch>): seq<ChildPatch> {
    if p.None? then [] else [At(i, p.value)]
  }

  /** The child list arm: walks both lists in step. */
  method ComputeDiffChildren(xs: seq<Node>, ys: seq<Node>) returns (p: Option<Patch>)
    ensures p == DiffChildren(xs, ys)
    decreases xs
  {
    hide Diff, DiffShared;
    var patches: seq<ChildPatch>, truncate: Option<nat>, append: seq<Node> := [], None, [];
    var i := 0;
    while true
      invariant i <= |xs| && i <= |ys|
      invariant patches + DiffShared(xs, ys, i) == DiffShared(xs, ys, 0)
      invariant truncate.None? && append == []
      decreases |xs| - i
    {
      SharedAt(xs, ys, i);
      assert patches + [] == patches;
      if i < |xs| && i < |ys| {
        var q := ComputeDiff(xs[i], ys[i]);
        if q.Some? {
          patches := patches + [At(i, q.value)];
        }
      } else if i < |ys| {
        append := [ys[i]] + ys[i + 1..];
        assert append == ys[|xs|..];
        break;
      } else if i < |xs| {
        truncate := Some(i);
        break;
      } else {
        break;
      }
      i := i + 1;
    }
    if patches == [] && truncate.None? && append == [] {
      p := None;
    } else {
      p := Some(PatchChildren(patches, truncate, append));
    }
  }

  // ----- patch -----

  datatype PatchError = OutOfBounds(index: nat, len: nat) | TypeMismatch(at: Node, with: Patch)

  /** The tree left behind by a patch, together with the error that stopped it, if any. */
  datatype Patched<T> = Patched(result: T, error: Option<PatchError>)

  /** `Node::patch` */
  function PatchNode(n: Node, p: Patch): Patched<Node>
    decreases p, 0
  {
    match (n, p)
    case (_, Replace(new')) => Patched(new', None)
    case (Children(xs), PatchChildren(patches, truncate, append)) =>
      var step := PatchEach(xs, patches, 0);
      if step.error.Some? then Patched(Children(step.result), step.error)
      else Patched(Children(Resize(step.result, truncate, append)), None)
    case (Text(s), PatchText(t)) => Patched(Text(Spliced(t, s)), None)
    case (URL(s), PatchText(t)) => Patched(URL(Spliced(t, s)), None)
    case (Code(s), PatchText(t)) => Patched(Code(Spliced(t, s)), None)
    case (Spoiler(x), Wrapped(q)) => var r := PatchNode(x, q); Patched(Spoiler(r.result), r.error)
    case (Bold(x), Wrapped(q)) => var r := PatchNode(x, q); Patched(Bold(r.result), r.error)
    case (Italic(x), Wrapped(q)) => var r := PatchNode(x, q); Patched(Italic(r.result), r.error)
    case (Quoted(x), Wrapped(q)) => var r := PatchNode(x, q); Patched(Quoted(r.result), r.error)
    case _ => Patched(n, Some(TypeMismatch(n, p)))
  }

  function Resize(xs: seq<Node>, truncate: Option<nat>, append: seq<Node>): seq<Node> {
    (if truncate.Some? && truncate.value < |xs| then xs[..truncate.value] else xs) + append
  }

  /** Applies the child patches from the `k`th on, stopping at the first error. */
  function PatchEach(xs: seq<Node>, patches: seq<ChildPatch>, k: nat): (r: Patched<seq<Node>>)
    ensures |r.result| == |xs|
    decreases patches, |patches| - k
  {
    if k >= |patches| then Patched(xs, None)
    else
      var r := PatchAt(xs, patches[k]);
      if r.error.Some? then r else PatchEach(r.result, patches, k + 1)
  }

  function PatchAt(xs: seq<Node>, c: ChildPatch): (r: Patched<seq<Node>>)
    ensures |r.result| == |xs|
    decreases c
  {
    if c.index >= |xs| then Patched(xs, Some(OutOfBounds(c.index, |xs|)))
    else
      var r := PatchNode(xs[c.index], c.patch);
      Patched(xs[c.index := r.result], r.error)
  }

  /** `Node::patch` as written: a mutable reference to a node is taken in and handed back. */
  method ApplyPatch(n: Node, p: Patch) returns (r: Patched<Node>)
    ensures r == PatchNode(n, p)
    decreases p, 0
  {
    match (n, p)
    case (_, Replace(new')) => r := Patched(new', None);
    case (Children(xs), PatchChildren(patches, truncate, append)) =>
      var step := ApplyChildPatches(xs, patches);
      if step.error.Some? {
        return Patched(Children(step.result), step.error);
      }
      var list := step.result;
      if truncate.Some? && truncate.value < |list| {
        list := list[..truncate.value];
      }
      r := Patched(Children(list + append), None);
    case (Text(s), PatchText(t)) =>
      var out := Apply(t, [], s);
      assert out == Spliced(t, s);
      r := Patched(Text(out), None);
    case (URL(s), PatchText(t)) =>
      var out := Apply(t, [], s);
      assert out == Spliced(t, s);
      r := Patched(URL(out), None);
    case (Code(s), PatchText(t)) =>
      var out := Apply(t, [], s);
      assert out == Spliced(t, s);
      r := Patched(Code(out), None);
    case (Spoiler(x), Wrapped(q)) =>
      r := ApplyPatch(x, q);
      r := Patched(Spoiler(r.result), r.error);
    case (Bold(x), Wrapped(q)) =>
      r := ApplyPatch(x, q);
      r := Patched(Bold(r.result), r.error);
    case (Italic(x), Wrapped(q)) =>
      r := ApplyPatch(x, q);
      r := Patched(Italic(r.result), r.error);
    case (Quoted(x), Wrapped(q)) =>
      r := ApplyPatch(x, q);
      r := Patched(Quoted(r.result), r.error);
    case _ => r := Patched(n, Some(TypeMismatch(n, p)));
  }

  method ApplyChildPatches(xs: seq<Node>, patches: seq<ChildPatch>) returns (r: Patched<seq<Node>>)
    ensures r == PatchEach(xs, patches, 0)
    decreases patches
  {
    r := Patched(xs, None);
    for k := 0 to |patches|
      invariant r.error.None?
      invariant PatchEach(r.result, patches, k) == PatchEach(xs, patches, 0)
    {
      r := ApplyChildPatch(r.result, patches[k]);
      if r.error.Some? {
        return;
      }
    }
  }

  method ApplyChildPatch(xs: seq<Node>, c: ChildPatch) returns (r: Patched<seq<Node>>)
    ensures r == PatchAt(xs, c)
    decreases c
  {
    if c.index >= |xs| {
      return Patched(xs, Some(OutOfBounds(c.index, |xs|)));
    }
    var child := ApplyPatch(xs[c.index], c.patch);
    r := Patched(xs[c.index := child.result], child.error);
  }

  // ----- the round trip -----

  /** Every text the diff may have to splice fits the 16-bit fields of a `TextPatch`. */
  predicate StringsFit(n: Node) {
    match n
    case Children(xs) => forall i | 0 <= i < |xs| :: StringsFit(xs[i])
    case Text(s) => |s| <= U16_MAX
    case URL(s) => |s| <= U16_MAX
    case Code(s) => |s| <= U16_MAX
    case Spoiler(x) => StringsFit(x)
    case Bold(x) => StringsFit(x)
    case Italic(x) => StringsFit(x)
    case Quoted(x) => StringsFit(x)
    case _ => true
  }

  /** `a.diff(b)` is None exactly when the trees are equal, and otherwise patches `a` into `b`. */
  ghost predicate RoundTrips(a: Node, b: Node) {
    match Diff(a, b)
    case None => a == b
    case Some(p) => a != b && Reaches(a, p, b)
  }

  /** The patch succeeds and yields the other tree. */
  predicate Reaches(a: Node, p: Patch, b: Node) {
    PatchNode(a, p) == Patched(b, None)
  }

  lemma {:induction false} DiffNoneIffEqual(a: Node, b: Node)
    ensures Diff(a, b).None? <==> a == b
    decreases a, 0
  {
    match (a, b)
    case (Children(xs), Children(ys)) => SharedNoneIffEqual(xs, ys, 0);
    case (Spoiler(x), Spoiler(y)) => DiffNoneIffEqual(x, y);
    case (Bold(x), Bold(y)) => DiffNoneIffEqual(x, y);
    case (Italic(x), Italic(y)) => DiffNoneIffEqual(x, y);
    case (Quoted(x), Quoted(y)) => DiffNoneIffEqual(x, y);
    case _ =>
  }

  lemma {:induction false} SharedNoneIffEqual(xs: seq<Node>, ys: seq<Node>, i: nat)
    requires i <= |xs| && i <= |ys|
    ensures DiffShared(xs, ys, i) == [] <==> EqualFrom(xs, ys, i)
    decreases xs, |xs| - i
  {
    hide Diff, EqualFrom;
    EqualAt(xs, ys, i);
    if i < |xs| && i < |ys| {
      DiffNoneIffEqual(xs[i], ys[i]);
      SharedNoneIffEqual(xs, ys, i + 1);
    }
  }

  /** The lists agree at the positions from `i` on that both have. */
  predicate EqualFrom(xs: seq<Node>, ys: seq<Node>, i: nat) {
    forall k | i <= k < |xs| && k < |ys| :: xs[k] == ys[k]
  }

  lemma EqualAt(xs: seq<Node>, ys: seq<Node>, i: nat)
    ensures EqualFrom(xs, ys, i) <==> (i < |xs| && i < |ys| ==> xs[i] == ys[i] && EqualFrom(xs, ys, i + 1))
  {
  }

  /** The round trip, for every pair of trees. */
  lemma {:induction false} DiffPatch(a: Node, b: Node)
    requires StringsFit(a)
    ensures RoundTrips(a, b)
    decreases a, 0
  {
    hide Diff, RoundTrips;
    match (a, b)
    case (Children(xs), Children(ys)) => ListRoundTrip(xs, ys);
    case (Spoiler(x), Spoiler(y)) => DiffPatch(x, y); WrapperTrips(a, b, x, y);
    case (Bold(x), Bold(y)) => DiffPatch(x, y); WrapperTrips(a, b, x, y);
    case (Italic(x), Italic(y)) => DiffPatch(x, y); WrapperTrips(a, b, x, y);
    case (Quoted(x), Quoted(y)) => DiffPatch(x, y); WrapperTrips(a, b, x, y);
    case _ => LeafRoundTrip(a, b);
  }

  lemma LeafRoundTrip(a: Node, b: Node)
    requires !Nested(a, b) && StringsFit(a)
    ensures RoundTrips(a, b)
  {
    hide Diff, PatchNode, Spliced, Make;
    if a.Text? && b.Text? {
      TextTrips(a, b, a.text, b.text);
    } else if a.URL? && b.URL? {
      TextTrips(a, b, a.url, b.url);
    } else if a.Code? && b.Code? {
      TextTrips(a, b, a.code, b.code);
    } else {
      DiffOfOthers(a, b);
      ReplaceReplaces(a, b);
    }
  }

  lemma ReplaceReplaces(a: Node, b: Node)
    ensures PatchNode(a, Replace(b)) == Patched(b, None)
  {
  }

  predicate SameText(a: Node, b: Node, x: string, y: string) {
    (a == Text(x) && b == Text(y)) || (a == URL(x) && b == URL(y)) || (a == Code(x) && b == Code(y))
  }

  lemma TextPatched(a: Node, b: Node, x: string, y: string, p: TextPatch)
    requires SameText(a, b, x, y) && Spliced(p, x) == y
    ensures PatchNode(a, PatchText(p)) == Patched(b, None)
  {
  }

  lemma TextTrips(a: Node, b: Node, x: string, y: string)
    requires SameText(a, b, x, y) && |x| <= U16_MAX
    ensures RoundTrips(a, b)
  {
    hide Diff, PatchNode, Spliced, Make;
    DiffOfTexts(x, y);
    TextRoundTrip(x, y);
    TextPatched(a, b, x, y, Make(x, y));
  }

  predicate SameWrapper(a: Node, b: Node, x: Node, y: Node) {
    || (a == Spoiler(x) && b == Spoiler(y)) || (a == Bold(x) && b == Bold(y))
    || (a == Italic(x) && b == Italic(y)) || (a == Quoted(x) && b == Quoted(y))
  }

  lemma SameInside(a: Node, b: Node, x: Node, y: Node)
    requires SameWrapper(a, b, x, y)
    ensures a == b <==> x == y
  {
  }

  lemma WrapperDiff(a: Node, b: Node, x: Node, y: Node)
    requires SameWrapper(a, b, x, y)
    ensures Diff(a, b) == Wrap(Diff(x, y))
  {
  }

  lemma WrapperPatch(a: Node, x: Node, p: Patch, b: Node, y: Node)
    requires SameWrapper(a, b, x, y)
    ensures Reaches(a, Wrapped(p), b) <==> Reaches(x, p, y)
  {
  }

  lemma Trips(a: Node, b: Node)
    ensures Diff(a, b).None? ==> (RoundTrips(a, b) <==> a == b)
    ensures Diff(a, b).Some? ==> (RoundTrips(a, b) <==> a != b && Reaches(a, Diff(a, b).value, b))
  {
    hide Diff, Reaches;
  }

  lemma WrappedIs(p: Patch)
    ensures Wrap(Some(p)) == Some(Wrapped(p))
  {
  }

  lemma NothingWrapped()
    ensures Wrap(None) == None
  {
  }

  /** A wrapper passes edits on to what it wraps. */
  lemma WrapperTrips(a: Node, b: Node, x: Node, y: Node)
    requires SameWrapper(a, b, x, y)
    ensures RoundTrips(a, b) <==> RoundTrips(x, y)
  {
    hide Diff, PatchNode, SameWrapper, Reaches, RoundTrips, Wrap;
    SameInside(a, b, x, y);
    WrapperDiff(a, b, x, y);
    Trips(a, b);
    Trips(x, y);
    if Diff(x, y).Some? {
      WrappedIs(Diff(x, y).value);
      WrapperPatch(a, x, Diff(x, y).value, b, y);
    } else {
      NothingWrapped();
    }
  }

  lemma ListRoundTrip(xs: seq<Node>, ys: seq<Node>)
    requires forall j | 0 <= j < |xs| :: StringsFit(xs[j])
    ensures RoundTrips(Children(xs), Children(ys))
    decreases xs, |xs| + 3
  {
    hide PatchNode, DiffChildren;
    DiffNoneIffEqual(Children(xs), Children(ys));
    assert Diff(Children(xs), Children(ys)) == DiffChildren(xs, ys);
    if DiffChildren(xs, ys).Some? {
      ChildrenRoundTrip(xs, ys);
    }
  }

  lemma TextRoundTrip(x: string, y: string)
    requires |x| <= U16_MAX
    ensures Spliced(Make(x, y), x) == y
  {
    RoundTripExact(x);
    assert TextDiff.RoundTrips(x, y);
  }

  /** The list reached once the shared positions before `i` carry their new nodes. */
  function Progress(xs: seq<Node>, ys: seq<Node>, i: nat): (zs: seq<Node>)
    requires i <= |xs| && i <= |ys|
    ensures |zs| == |xs|
  {
    ys[..i] + xs[i..]
  }

  lemma {:induction false} SharedPatched(xs: seq<Node>, ys: seq<Node>, all: seq<ChildPatch>, k: nat, i: nat)
    requires i <= |xs| && i <= |ys| && k <= |all|
    requires forall j | 0 <= j < |xs| :: StringsFit(xs[j])
    requires all[k..] == DiffShared(xs, ys, i)
    ensures PatchEach(Progress(xs, ys, i), all, k)
         == Patched(Progress(xs, ys, Clamp(|xs|, |ys|)), None)
    decreases xs, |xs| - i
  {
    if i < |xs| && i < |ys| {
      DiffPatch(xs[i], ys[i]);
      var p := Diff(xs[i], ys[i]);
      var now := Progress(xs, ys, i);
      assert now[i] == xs[i];
      assert now[i := ys[i]] == Progress(xs, ys, i + 1);
      if p.None? {
        assert now == Progress(xs, ys, i + 1);
        SharedPatched(xs, ys, all, k, i + 1);
      } else {
        assert all[k] == all[k..][0] == At(i, p.value);
        assert all[k + 1..] == all[k..][1..] == DiffShared(xs, ys, i + 1);
        SharedPatched(xs, ys, all, k + 1, i + 1);
      }
    } else {
      assert k == |all|;
    }
  }

  lemma SharedPatchedFromStart(xs: seq<Node>, ys: seq<Node>)
    requires forall j | 0 <= j < |xs| :: StringsFit(xs[j])
    ensures PatchEach(xs, DiffShared(xs, ys, 0), 0) == Patched(Progress(xs, ys, Clamp(|xs|, |ys|)), None)
    decreases xs, |xs| + 1
  {
    var patches := DiffShared(xs, ys, 0);
    assert patches[0..] == patches;
    assert Progress(xs, ys, 0) == xs;
    SharedPatched(xs, ys, patches, 0, 0);
  }

  lemma ChildrenRoundTrip(xs: seq<Node>, ys: seq<Node>)
    requires forall j | 0 <= j < |xs| :: StringsFit(xs[j])
    requires DiffChildren(xs, ys).Some?
    ensures PatchNode(Children(xs), DiffChildren(xs, ys).value) == Patched(Children(ys), None)
    decreases xs, |xs| + 2
  {
    SharedPatchedFromStart(xs, ys);
    Resized(xs, ys);
  }

  /** Truncation and appending finish what patching the shared positions began. */
  lemma Resized(xs: seq<Node>, ys: seq<Node>)
    ensures var reached := Progress(xs, ys, Clamp(|xs|, |ys|));
            Resize(reached, if |ys| < |xs| then Some(|ys|) else None, if |xs| < |ys| then ys[|xs|..] else [])
            == ys
  {
    if |ys| < |xs| {
      assert Progress(xs, ys, |ys|)[..|ys|] + [] == ys;
    } else {
      assert Progress(xs, ys, |xs|) == ys[..|xs|];
    }
  }

  /** Exact: a tree survives every edit iff each of its spliceable strings fits. */
  lemma DiffPatchExact(a: Node)
    ensures (forall b :: RoundTrips(a, b)) <==> StringsFit(a)
  {
    if StringsFit(a) {
      forall b ensures RoundTrips(a, b) {
        DiffPatch(a, b);
      }
    } else {
      var b := LostEdit(a);
    }
  }

  /** An edit of a tree with an oversized string that the patch gets wrong: erasing the string. */
  lemma {:induction false} LostEdit(a: Node) returns (b: Node)
    requires !StringsFit(a)
    ensures !RoundTrips(a, b)
    decreases a
  {
    match a
    case Children(xs) => b := LostChildEdit(xs);
    case Text(x) => b := Text([]); EraseFails(x);
    case URL(x) => b := URL([]); EraseFails(x);
    case Code(x) => b := Code([]); EraseFails(x);
    case Spoiler(x) => var y := LostEdit(x); b := Spoiler(y); WrapperTrips(a, b, x, y);
    case Bold(x) => var y := LostEdit(x); b := Bold(y); WrapperTrips(a, b, x, y);
    case Italic(x) => var y := LostEdit(x); b := Italic(y); WrapperTrips(a, b, x, y);
    case Quoted(x) => var y := LostEdit(x); b := Quoted(y); WrapperTrips(a, b, x, y);
  }

  lemma LostChildEdit(xs: seq<Node>) returns (b: Node)
    requires exists i | 0 <= i < |xs| :: !StringsFit(xs[i])
    ensures !RoundTrips(Children(xs), b)
    decreases xs
  {
    var i :| 0 <= i < |xs| && !StringsFit(xs[i]);
    var child := LostEdit(xs[i]);
    b := Children(xs[i := child]);
    OneChildChanged(xs, i, child);
  }

  lemma EraseFails(x: string)
    requires |x| > U16_MAX
    ensures Spliced(Make(x, []), x) != []
  {
    SplitParts(x, []);
    LongRemovalFails(SplitOf(x, []));
  }

  lemma OneChildChanged(xs: seq<Node>, i: nat, child: Node)
    requires i < |xs| && !RoundTrips(xs[i], child)
    ensures !RoundTrips(Children(xs), Children(xs[i := child]))
  {
    var ys := xs[i := child];
    DiffNoneIffEqual(xs[i], child);
    var p := Diff(xs[i], child).value;
    OneChildPatch(xs, i, child, 0);
    var patches := DiffShared(xs, ys, 0);
    assert patches == [At(i, p)];
    var r := PatchNode(xs[i], p);
    assert PatchEach(xs, patches, 0) == Patched(xs[i := r.result], r.error);
    var whole := PatchChildren(patches, None, []);
    assert Diff(Children(xs), Children(ys)) == Some(whole);
    if r.error.None? {
      var zs := Resize(xs[i := r.result], None, []);
      assert PatchNode(Children(xs), whole) == Patched(Children(zs), None);
      assert zs[i] != ys[i];
    }
  }

  lemma {:induction false} OneChildPatch(xs: seq<Node>, i: nat, child: Node, k: nat)
    requires i < |xs| && k <= |xs| && Diff(xs[i], child).Some?
    ensures DiffShared(xs, xs[i := child], k) == if k <= i then [At(i, Diff(xs[i], child).value)] else []
    decreases |xs| - k
  {
    if k < |xs| {
      OneChildPatch(xs, i, child, k + 1);
      DiffNoneIffEqual(xs[k], xs[k]);
    }
  }
}
