/** Exactly when a patch made between two trees can be applied to a third, and what it makes of it. */
module BodyPatches {
  import opened MachineInts
  import opened TextDiff
  import opened PostBody

  // ----- which trees take a patch -----

  predicate HoldsText(n: Node) {
    n.Text? || n.URL? || n.Code?
  }

  function InsideOf(n: Node): Option<Node> {
    match n
    case Spoiler(x) => Some(x)
    case Bold(x) => Some(x)
    case Italic(x) => Some(x)
    case Quoted(x) => Some(x)
    case _ => None
  }

  /** Both wrap another tree in the same way. */
  predicate BothWrap(a: Node, b: Node) {
    Nested(a, b) && !a.Children?
  }

  /** `h` has the structure that the edit from `a` to `b` goes into: where the two differ inside a list,
      a text or a wrapper, `h` has a list, any text or any wrapper. Where one replaces the other whole,
      anything will do. */
  predicate Takes(h: Node, a: Node, b: Node)
    decreases a
  {
    if a == b then true
    else if a.Children? && b.Children? then
      h.Children? && forall i | 0 <= i < |a.list| && i < |b.list| ::
        a.list[i] == b.list[i] || (i < |h.list| && Takes(h.list[i], a.list[i], b.list[i]))
    else if BothWrap(a, b) then
      InsideOf(h).Some? && Takes(InsideOf(h).value, InsideOf(a).value, InsideOf(b).value)
    else Texts(a, b) ==> HoldsText(h)
  }

  predicate TakesFrom(hs: seq<Node>, xs: seq<Node>, ys: seq<Node>, i: nat) {
    forall j | i <= j < |xs| && j < |ys| :: xs[j] == ys[j] || (j < |hs| && Takes(hs[j], xs[j], ys[j]))
  }

  /** The patch of an edit goes through. */
  predicate GoesThrough(h: Node, a: Node, b: Node) {
    Diff(a, b).Some? ==> PatchNode(h, Diff(a, b).value).error.None?
  }

  lemma ReplacedIs(h: Node, b: Node)
    ensures PatchNode(h, Replace(b)) == Patched(b, None)
  {
  }

  lemma TextOf(h: Node, p: TextPatch)
    ensures PatchNode(h, PatchText(p)).error.None? <==> HoldsText(h)
  {
    hide Spliced;
  }

  lemma WrappedOf(h: Node, p: Patch)
    ensures PatchNode(h, Wrapped(p)).error.None? <==>
              InsideOf(h).Some? && PatchNode(InsideOf(h).value, p).error.None?
  {
  }

  lemma WrapOf(a: Node, b: Node)
    requires BothWrap(a, b)
    ensures Diff(a, b) == Wrap(Diff(InsideOf(a).value, InsideOf(b).value))
    ensures a == b <==> InsideOf(a).value == InsideOf(b).value
  {
  }

  lemma TextDiffOf(a: Node, b: Node)
    requires Texts(a, b) && a != b
    ensures Diff(a, b).Some? && Diff(a, b).value.PatchText?
  {
    hide Make;
  }

  lemma LeafTakes(h: Node, a: Node, b: Node)
    requires a != b && !Nested(a, b)
    ensures GoesThrough(h, a, b) <==> Takes(h, a, b)
  {
    hide Diff, PatchNode;
    if Texts(a, b) {
      TextDiffOf(a, b);
      TextOf(h, Diff(a, b).value.text);
    } else {
      DiffOfOthers(a, b);
      ReplacedIs(h, b);
    }
  }

  /** Exact: the patch from one tree to another can be applied to a third iff that has the structure
      for it. */
  lemma {:induction false} TakesExact(h: Node, a: Node, b: Node)
    ensures GoesThrough(h, a, b) <==> Takes(h, a, b)
    decreases a, 0
  {
    hide Diff, PatchNode;
    DiffNoneIffEqual(a, b);
    if a != b {
      if a.Children? && b.Children? {
        ListTakes(h, a.list, b.list);
      } else if BothWrap(a, b) {
        var x, y := InsideOf(a).value, InsideOf(b).value;
        WrapOf(a, b);
        DiffNoneIffEqual(x, y);
        WrappedOf(h, Diff(x, y).value);
        if InsideOf(h).Some? {
          TakesExact(InsideOf(h).value, x, y);
        }
      } else {
        LeafTakes(h, a, b);
      }
    }
  }

  lemma ListPatched(h: Node, patches: seq<ChildPatch>, truncate: Option<nat>, append: seq<Node>)
    ensures PatchNode(h, PatchChildren(patches, truncate, append)).error.None? <==>
              h.Children? && PatchEach(h.list, patches, 0).error.None?
  {
  }

  lemma ListDiff(xs: seq<Node>, ys: seq<Node>)
    ensures Diff(Children(xs), Children(ys)) == DiffChildren(xs, ys)
  {
  }

  lemma ListTakes(h: Node, xs: seq<Node>, ys: seq<Node>)
    requires xs != ys
    ensures GoesThrough(h, Children(xs), Children(ys)) <==> Takes(h, Children(xs), Children(ys))
    decreases xs, |xs| + 1
  {
    hide Diff, PatchNode, PatchEach;
    DiffNoneIffEqual(Children(xs), Children(ys));
    ListDiff(xs, ys);
    var p := DiffChildren(xs, ys).value;
    ListPatched(h, p.patches, p.truncate, p.append);
    if h.Children? {
      assert p.patches[0..] == p.patches;
      SharedTakes(h.list, xs, ys, p.patches, 0, 0);
    }
  }

  /** The child patches from the `k`th on, which are those of the positions from `i` on. */
  lemma {:induction false} SharedTakes(hs: seq<Node>, xs: seq<Node>, ys: seq<Node>, all: seq<ChildPatch>, k: nat, i: nat)
    requires i <= |xs| && i <= |ys| && k <= |all| && all[k..] == DiffShared(xs, ys, i)
    ensures PatchEach(hs, all, k).error.None? <==> TakesFrom(hs, xs, ys, i)
    decreases xs, |xs| - i
  {
    hide Diff, PatchNode, DiffShared, PatchEach, Takes;
    SharedAt(xs, ys, i);
    NextPatch(hs, all, k);
    if i < |xs| && i < |ys| {
      var p := Diff(xs[i], ys[i]);
      DiffNoneIffEqual(xs[i], ys[i]);
      if p.None? {
        assert all[k..] == DiffShared(xs, ys, i + 1);
        SharedTakes(hs, xs, ys, all, k, i + 1);
      } else {
        assert all[k] == all[k..][0] == At(i, p.value);
        assert all[k + 1..] == all[k..][1..] == DiffShared(xs, ys, i + 1);
        if i < |hs| {
          TakesExact(hs[i], xs[i], ys[i]);
          var next := hs[i := PatchNode(hs[i], p.value).result];
          SharedTakes(next, xs, ys, all, k + 1, i + 1);
        }
      }
    }
  }

  lemma NextPatch(hs: seq<Node>, all: seq<ChildPatch>, k: nat)
    requires k <= |all|
    ensures k == |all| ==> PatchEach(hs, all, k) == Patched(hs, None)
    ensures k < |all| ==>
              var c := all[k];
              PatchEach(hs, all, k).error.None? <==>
                c.index < |hs| && PatchNode(hs[c.index], c.patch).error.None?
                && PatchEach(hs[c.index := PatchNode(hs[c.index], c.patch).result], all, k + 1).error.None?
    ensures k < |all| && PatchEach(hs, all, k).error.None? ==>
              PatchEach(hs, all, k)
              == PatchEach(hs[all[k].index := PatchNode(hs[all[k].index], all[k].patch).result], all, k + 1)
  {
    hide PatchNode;
  }

  // ----- which trees it turns into the right one -----

  function TextIn(n: Node): string
    requires HoldsText(n)
  {
    if n.Text? then n.text else if n.URL? then n.url else n.code
  }

  /** `t` is the text the edit was made in, but for the stretch replaced: of that it may have any other
      of the same length, and at the very end a shorter one. */
  predicate TextFollows(t: string, x: string, y: string) {
    var s := SplitOf(x, y);
    && |s.head| <= |t| && t[..|s.head|] == s.head
    && if s.tail == [] then |t| <= |x| else |t| == |x| && t[|t| - |s.tail|..] == s.tail
  }

  /** `h` is `a`, but for what the edit from `a` to `b` replaces. */
  predicate Follows(h: Node, a: Node, b: Node)
    decreases a
  {
    if a == b then h == b
    else if a.Children? && b.Children? then
      && h.Children? && (if |b.list| < |a.list| then |b.list| <= |h.list| else |h.list| == |a.list|)
      && forall i | 0 <= i < |a.list| && i < |b.list| :: i < |h.list| && Follows(h.list[i], a.list[i], b.list[i])
    else if BothWrap(a, b) then
      BothWrap(h, b) && Follows(InsideOf(h).value, InsideOf(a).value, InsideOf(b).value)
    else Texts(a, b) ==> Texts(h, b) && TextFollows(TextIn(h), TextIn(a), TextIn(b))
  }

  /** The edit, made from `a` to `b`, leads from `h` to `b`. */
  predicate LeadsThere(h: Node, a: Node, b: Node) {
    match Diff(a, b)
    case None => h == b
    case Some(p) => Reaches(h, p, b)
  }

  lemma TextFollowsExact(t: string, x: string, y: string)
    requires |x| <= U16_MAX
    ensures Spliced(Make(x, y), t) == y <==> TextFollows(t, x, y)
  {
    hide Spliced, SplitOf;
    SplitParts(x, y);
    SplitFollows(t, SplitOf(x, y));
  }

  lemma SplitFollows(t: string, s: Split)
    requires |s.Before()| <= U16_MAX
    ensures Spliced(s.Patch(), t) == s.After() <==>
              && |s.head| <= |t| && t[..|s.head|] == s.head
              && if s.tail == [] then |t| <= |s.Before()| else |t| == |s.Before()| && t[|t| - |s.tail|..] == s.tail
  {
    var p := |s.head|;
    var from := Clamp(p + |s.removed|, |t|);
    var at := Clamp(p, |t|);
    var out := t[..at] + s.inserted + t[from..];
    assert Spliced(s.Patch(), t) == out;
    if out == s.After() {
      assert |t| >= p;
      assert out[..p] == t[..p] && s.After()[..p] == s.head;
      assert out[p + |s.inserted|..] == t[from..] && s.After()[p + |s.inserted|..] == s.tail;
    }
  }

  lemma TextLeads(h: Node, a: Node, b: Node)
    requires Texts(a, b) && a != b && StringsFit(a)
    ensures LeadsThere(h, a, b) <==> Follows(h, a, b)
  {
    hide Spliced, Make, TextFollows;
    var x, y := TextIn(a), TextIn(b);
    DiffOfTexts(x, y);
    assert Diff(a, b) == Some(PatchText(Make(x, y)));
    TextOf(h, Make(x, y));
    if HoldsText(h) {
      TextFollowsExact(TextIn(h), x, y);
      TextResult(h, Make(x, y));
    }
  }

  lemma TextResult(h: Node, p: TextPatch)
    requires HoldsText(h)
    ensures var r := PatchNode(h, PatchText(p)).result;
            Texts(r, h) && TextIn(r) == Spliced(p, TextIn(h))
  {
    hide Spliced;
  }

  lemma WrapLeads(h: Node, a: Node, b: Node)
    requires BothWrap(a, b) && a != b
    ensures Diff(InsideOf(a).value, InsideOf(b).value).Some?
    ensures LeadsThere(h, a, b) <==>
              BothWrap(h, b) && LeadsThere(InsideOf(h).value, InsideOf(a).value, InsideOf(b).value)
  {
    hide Diff;
    WrapOf(a, b);
    DiffNoneIffEqual(InsideOf(a).value, InsideOf(b).value);
  }

  /** Exact: an edit turns another tree into the right one iff that is the tree it was made in, but for
      what it replaces. */
  lemma {:induction false} FollowsExact(h: Node, a: Node, b: Node)
    requires StringsFit(a)
    ensures LeadsThere(h, a, b) <==> Follows(h, a, b)
    decreases a, 0
  {
    hide Diff, StringsFit, LeadsThere, Follows;
    FitInside(a);
    if a == b {
      NothingLeads(h, a);
    } else if a.Children? && b.Children? {
      ListFollows(h, a.list, b.list);
    } else if BothWrap(a, b) {
      WrapLeads(h, a, b);
      WrapFollows(h, a, b);
      if BothWrap(h, b) {
        FollowsExact(InsideOf(h).value, InsideOf(a).value, InsideOf(b).value);
      }
    } else if Texts(a, b) {
      TextLeads(h, a, b);
    } else {
      OthersLead(h, a, b);
    }
  }

  lemma NothingLeads(h: Node, a: Node)
    ensures LeadsThere(h, a, a) <==> Follows(h, a, a)
  {
    hide Diff;
    DiffNoneIffEqual(a, a);
  }

  lemma WrapFollows(h: Node, a: Node, b: Node)
    requires BothWrap(a, b) && a != b
    ensures Follows(h, a, b) <==>
              BothWrap(h, b) && Follows(InsideOf(h).value, InsideOf(a).value, InsideOf(b).value)
  {
  }

  lemma FitInside(a: Node)
    requires StringsFit(a)
    ensures InsideOf(a).Some? ==> StringsFit(InsideOf(a).value)
    ensures a.Children? ==> forall i | 0 <= i < |a.list| :: StringsFit(a.list[i])
  {
  }

  lemma OthersLead(h: Node, a: Node, b: Node)
    requires a != b && !Nested(a, b) && !Texts(a, b)
    ensures LeadsThere(h, a, b) && Follows(h, a, b)
  {
    hide Diff, PatchNode;
    DiffOfOthers(a, b);
    ReplacedIs(h, b);
  }

  predicate FollowsHere(hs: seq<Node>, xs: seq<Node>, ys: seq<Node>, j: nat)
    requires j < |xs| && j < |ys|
  {
    j < |hs| && Follows(hs[j], xs[j], ys[j])
  }

  predicate SameHere(zs: seq<Node>, ys: seq<Node>, j: nat)
    requires j < |ys|
  {
    j < |zs| && zs[j] == ys[j]
  }

  /** Positions from `i` on that both lists have. */
  predicate FollowsFrom(hs: seq<Node>, xs: seq<Node>, ys: seq<Node>, i: nat) {
    forall j | i <= j < |xs| && j < |ys| :: FollowsHere(hs, xs, ys, j)
  }

  predicate SameFrom(zs: seq<Node>, xs: seq<Node>, ys: seq<Node>, i: nat) {
    forall j | i <= j < |xs| && j < |ys| :: SameHere(zs, ys, j)
  }

  lemma {:induction false} SharedFollows(hs: seq<Node>, xs: seq<Node>, ys: seq<Node>, all: seq<ChildPatch>, k: nat, i: nat)
    requires i <= |xs| && i <= |ys| && k <= |all| && all[k..] == DiffShared(xs, ys, i)
    requires forall j | 0 <= j < |xs| :: StringsFit(xs[j])
    ensures var r := PatchEach(hs, all, k);
            && (r.error.None? && SameFrom(r.result, xs, ys, i) <==> FollowsFrom(hs, xs, ys, i))
            && (r.error.None? ==> forall j | 0 <= j < |hs| && (j < i || j >= |xs| || j >= |ys|) :: r.result[j] == hs[j])
    decreases xs, |xs| - i
  {
    hide Diff, PatchNode, DiffShared, PatchEach, Follows, FollowsFrom, SameFrom;
    NoneLeft(hs, xs, ys, i);
    NoneLeft(PatchEach(hs, all, k).result, xs, ys, i);
    SharedAt(xs, ys, i);
    NextPatch(hs, all, k);
    if i < |xs| && i < |ys| {
      var p := Diff(xs[i], ys[i]);
      DiffNoneIffEqual(xs[i], ys[i]);
      if i < |hs| {
        FollowsExact(hs[i], xs[i], ys[i]);
      } else {
        TooShort(hs, xs, ys, i);
        TooShort(PatchEach(hs, all, k).result, xs, ys, i);
      }
      if p.None? {
        assert all[k..] == DiffShared(xs, ys, i + 1);
        SharedFollows(hs, xs, ys, all, k, i + 1);
        if i < |hs| {
          FollowsAt(hs, hs, xs, ys, i);
          SameAt(PatchEach(hs, all, k).result, xs, ys, i);
        }
      } else {
        assert all[k] == all[k..][0] == At(i, p.value);
        assert all[k + 1..] == all[k..][1..] == DiffShared(xs, ys, i + 1);
        if i < |hs| {
          var next := hs[i := PatchNode(hs[i], p.value).result];
          SharedFollows(next, xs, ys, all, k + 1, i + 1);
          var r := PatchEach(next, all, k + 1);
          FollowsAt(hs, next, xs, ys, i);
          SameAt(r.result, xs, ys, i);
        }
      }
    }
  }

  lemma NoneLeft(hs: seq<Node>, xs: seq<Node>, ys: seq<Node>, i: nat)
    ensures i >= |xs| || i >= |ys| ==> FollowsFrom(hs, xs, ys, i) && SameFrom(hs, xs, ys, i)
  {
  }

  lemma TooShort(hs: seq<Node>, xs: seq<Node>, ys: seq<Node>, i: nat)
    requires |hs| <= i && i < |xs| && i < |ys|
    ensures !FollowsFrom(hs, xs, ys, i) && !SameFrom(hs, xs, ys, i)
  {
    assert !FollowsHere(hs, xs, ys, i) && !SameHere(hs, ys, i);
  }

  lemma FollowsAt(hs: seq<Node>, next: seq<Node>, xs: seq<Node>, ys: seq<Node>, i: nat)
    requires i < |hs| && i < |xs| && i < |ys| && |next| == |hs| && forall j | i < j < |hs| :: next[j] == hs[j]
    ensures FollowsFrom(hs, xs, ys, i) <==> Follows(hs[i], xs[i], ys[i]) && FollowsFrom(next, xs, ys, i + 1)
  {
    hide Follows;
    assert FollowsHere(hs, xs, ys, i) <==> Follows(hs[i], xs[i], ys[i]);
    assert forall j | i < j < |xs| && j < |ys| :: FollowsHere(hs, xs, ys, j) <==> FollowsHere(next, xs, ys, j);
  }

  lemma SameAt(zs: seq<Node>, xs: seq<Node>, ys: seq<Node>, i: nat)
    requires i < |xs| && i < |ys|
    ensures SameFrom(zs, xs, ys, i) <==> i < |zs| && zs[i] == ys[i] && SameFrom(zs, xs, ys, i + 1)
  {
    assert SameHere(zs, ys, i) <==> i < |zs| && zs[i] == ys[i];
  }

  lemma ListResult(h: Node, patches: seq<ChildPatch>, truncate: Option<nat>, append: seq<Node>, ys: seq<Node>)
    ensures Reaches(h, PatchChildren(patches, truncate, append), Children(ys)) <==>
              && h.Children? && PatchEach(h.list, patches, 0).error.None?
              && Resize(PatchEach(h.list, patches, 0).result, truncate, append) == ys
  {
  }

  lemma FollowsList(h: Node, xs: seq<Node>, ys: seq<Node>)
    requires xs != ys
    ensures Follows(h, Children(xs), Children(ys)) <==>
              && h.Children? && (if |ys| < |xs| then |ys| <= |h.list| else |h.list| == |xs|)
              && FollowsFrom(h.list, xs, ys, 0)
  {
    if h.Children? && FollowsFrom(h.list, xs, ys, 0) {
      forall j | 0 <= j < |xs| && j < |ys| ensures j < |h.list| && Follows(h.list[j], xs[j], ys[j]) {
        assert FollowsHere(h.list, xs, ys, j);
      }
    }
  }

  lemma ListFollows(h: Node, xs: seq<Node>, ys: seq<Node>)
    requires xs != ys && forall j | 0 <= j < |xs| :: StringsFit(xs[j])
    ensures LeadsThere(h, Children(xs), Children(ys)) <==> Follows(h, Children(xs), Children(ys))
    decreases xs, |xs| + 1
  {
    hide Diff, PatchNode, PatchEach, Reaches, Follows, FollowsFrom, SameFrom;
    DiffNoneIffEqual(Children(xs), Children(ys));
    ListDiff(xs, ys);
    var p := DiffChildren(xs, ys).value;
    ListResult(h, p.patches, p.truncate, p.append, ys);
    FollowsList(h, xs, ys);
    if h.Children? {
      assert p.patches[0..] == p.patches;
      SharedFollows(h.list, xs, ys, p.patches, 0, 0);
      var r := PatchEach(h.list, p.patches, 0);
      if r.error.None? {
        ResizeFollows(r.result, xs, ys);
      }
    }
  }

  lemma ResizeFollows(zs: seq<Node>, xs: seq<Node>, ys: seq<Node>)
    ensures Resize(zs, if |ys| < |xs| then Some(|ys|) else None, if |xs| < |ys| then ys[|xs|..] else []) == ys <==>
              (if |ys| < |xs| then |ys| <= |zs| else |zs| == |xs|) && SameFrom(zs, xs, ys, 0)
  {
    if |ys| < |xs| {
      if |ys| <= |zs| {
        SamePrefix(zs, xs, ys, |ys|);
        assert ys[..|ys|] == ys;
      }
      assert zs[..|zs|] == zs;
    } else {
      var rest := ys[|xs|..];
      if |zs| == |xs| {
        SamePrefix(zs, xs, ys, |xs|);
        assert zs[..|xs|] == zs && ys == ys[..|xs|] + rest;
        assert (zs + rest)[..|xs|] == zs;
      }
    }
  }

  lemma SamePrefix(zs: seq<Node>, xs: seq<Node>, ys: seq<Node>, n: nat)
    requires n == Clamp(|xs|, |ys|) && n <= |zs|
    ensures SameFrom(zs, xs, ys, 0) <==> zs[..n] == ys[..n]
  {
    if zs[..n] == ys[..n] {
      forall j | 0 <= j < |xs| && j < |ys| ensures SameHere(zs, ys, j) {
        assert zs[..n][j] == ys[..n][j];
      }
    }
    if SameFrom(zs, xs, ys, 0) {
      forall j | 0 <= j < n ensures zs[..n][j] == ys[..n][j] {
        assert SameHere(zs, ys, j);
      }
    }
  }

  // ----- which trees every edit turns into the right one -----

  /** `h` is `a`, but for a leaf, inside the same wrappers, that no edit goes into. */
  predicate Heals(h: Node, a: Node)
    decreases a
  {
    if a.Children? || HoldsText(a) then h == a
    else if InsideOf(a).Some? then BothWrap(h, a) && Heals(InsideOf(h).value, InsideOf(a).value)
    else true
  }

  lemma FollowsSelf(a: Node, b: Node)
    requires StringsFit(a)
    ensures Follows(a, a, b)
  {
    hide StringsFit, Follows;
    DiffPatch(a, b);
    FollowsExact(a, a, b);
  }

  lemma {:induction false} HealedFollow(h: Node, a: Node, b: Node)
    requires StringsFit(a) && Heals(h, a) && a != b
    ensures Follows(h, a, b)
    decreases a
  {
    hide Follows, Heals, StringsFit, BothWrap, Nested, Texts;
    if h == a {
      FollowsSelf(a, b);
      return;
    }
    HealsInside(h, a);
    if BothWrap(a, b) {
      WrapsAll(h, a, b);
      FitInside(a);
      WrapOf(a, b);
      WrapFollows(h, a, b);
      HealedFollow(InsideOf(h).value, InsideOf(a).value, InsideOf(b).value);
    } else {
      NotInto(a, b);
      OthersLead(h, a, b);
    }
  }

  lemma WrapsAll(h: Node, a: Node, b: Node)
    requires BothWrap(a, b)
    ensures InsideOf(a).Some? && InsideOf(b).Some?
    ensures BothWrap(h, a) ==> InsideOf(h).Some? && BothWrap(h, b)
  {
  }

  lemma NotInto(a: Node, b: Node)
    requires !a.Children? && !HoldsText(a) && !BothWrap(a, b)
    ensures !Nested(a, b) && !Texts(a, b)
  {
  }

  lemma HealsInside(h: Node, a: Node)
    requires Heals(h, a) && h != a
    ensures !a.Children? && !HoldsText(a)
    ensures InsideOf(a).Some? ==> BothWrap(h, a) && Heals(InsideOf(h).value, InsideOf(a).value)
  {
  }

  lemma Appended(x: string, c: char)
    ensures SplitOf(x, x + [c]) == Split(x, [], [c], [])
  {
    var start := SharedPrefix(x, x + [c]);
    assert start == |x| && x[..|x|] == x && (x + [c])[|x|..] == [c];
  }

  lemma OneMoreChar(h: Node, a: Node, b: Node)
    requires Texts(a, b) && TextIn(b) == TextIn(a) + ['+'] && Follows(h, a, b)
    ensures h == a
  {
    var x := TextIn(a);
    Appended(x, '+');
    assert TextIn(h)[..|x|] == x;
  }

  lemma OneMoreChild(h: Node, a: Node)
    requires a.Children? && Follows(h, a, Children(a.list + [Empty]))
    ensures h == a
  {
    var b := Children(a.list + [Empty]);
    forall i | 0 <= i < |a.list| ensures h.list[i] == a.list[i] {
      assert b.list[i] == a.list[i];
    }
  }

  function Rewrap(a: Node, x: Node): (b: Node)
    requires InsideOf(a).Some?
    ensures BothWrap(a, b) && InsideOf(b) == Some(x)
  {
    if a.Spoiler? then Spoiler(x) else if a.Bold? then Bold(x) else if a.Italic? then Italic(x) else Quoted(x)
  }

  /** The edit that tells: one more character, or one more node, at the end. */
  lemma {:induction false} TellingEdit(h: Node, a: Node) returns (b: Node)
    requires !Heals(h, a)
    ensures b != a && !Follows(h, a, b)
    decreases a
  {
    if a.Children? {
      b := Children(a.list + [Empty]);
      if Follows(h, a, b) {
        OneMoreChild(h, a);
      }
    } else if HoldsText(a) {
      var y := TextIn(a) + ['+'];
      b := if a.Text? then Text(y) else if a.URL? then URL(y) else Code(y);
      if Follows(h, a, b) {
        OneMoreChar(h, a, b);
      }
    } else if BothWrap(h, a) {
      var x := TellingEdit(InsideOf(h).value, InsideOf(a).value);
      b := Rewrap(a, x);
    } else {
      b := Rewrap(a, if InsideOf(a).value == Empty then Newline else Empty);
    }
  }

  /** Exact: every edit turns another tree into the right one iff the two differ at most in a leaf that
      is only ever replaced. */
  lemma HealsExact(h: Node, a: Node)
    requires StringsFit(a)
    ensures (forall b | b != a :: LeadsThere(h, a, b)) <==> Heals(h, a)
  {
    hide LeadsThere, Follows, Heals, StringsFit;
    if Heals(h, a) {
      forall b | b != a ensures LeadsThere(h, a, b) {
        HealedFollow(h, a, b);
        FollowsExact(h, a, b);
      }
    } else {
      var b := TellingEdit(h, a);
      FollowsExact(h, a, b);
    }
  }
}
