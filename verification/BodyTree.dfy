/** Growing a post body tree by appending to it (`Node += ...`), and what the tree then looks like. */
module BodyTree {
  import opened PostBody

  // ----- appending -----

  /** `AddAssign<Node>` */
  function Merge(dst: Node, rhs: Node): Node {
    match (dst, rhs)
    case (_, Empty) => dst
    case (Empty, _) => rhs
    case (Text(s), Text(t)) => Text(s + t)
    case (Children(v), Children(w)) =>
      if v != [] && w != [] && v[|v| - 1].Text? && w[0].Text?
      then Children(v[..|v| - 1] + [Text(v[|v| - 1].text + w[0].text)] + w[1..])
      else Children(v + w)
    case (Children(v), Text(t)) =>
      if v != [] && v[|v| - 1].Text? then Children(v[..|v| - 1] + [Text(v[|v| - 1].text + t)])
      else Children(v + [rhs])
    case (Children(v), _) => Children(v + [rhs])
    case _ => Children([dst, rhs])
  }

  function MergeAll(dst: Node, ns: seq<Node>): Node
    decreases |ns|
  {
    if ns == [] then dst else MergeAll(Merge(dst, ns[0]), ns[1..])
  }

  lemma {:induction false} MergeAllConcat(dst: Node, a: seq<Node>, b: seq<Node>)
    ensures MergeAll(dst, a + b) == MergeAll(MergeAll(dst, a), b)
    decreases |a|
  {
    hide Merge;
    if a == [] {
      assert a + b == b;
    } else {
      assert (a + b)[0] == a[0] && (a + b)[1..] == a[1..] + b;
      MergeAllConcat(Merge(dst, a[0]), a[1..], b);
    }
  }

  lemma MergeOne(dst: Node, n: Node)
    ensures MergeAll(dst, [n]) == Merge(dst, n)
  {
    hide Merge;
    assert [n][1..] == [];
  }

  /** A tree under construction. */
  class NodeSlot {
    var node: Node

    constructor ()
      ensures node == Empty
    {
      node := Empty;
    }

    method AddNode(rhs: Node)
      modifies this
      ensures node == Merge(old(node), rhs)
    {
      if rhs.Empty? {
        return;
      }
      if node.Empty? {
        node := rhs;
      } else if node.Children? {
        AddChild(rhs);
      } else if node.Text? && rhs.Text? {
        node := Text(node.text + rhs.text);
      } else {
        node := Children([node, rhs]);
      }
    }

    method AddChild(rhs: Node)
      requires node.Children? && !rhs.Empty?
      modifies this
      ensures node == Merge(old(node), rhs)
    {
      var v := node.list;
      var w := if rhs.Children? then rhs.list else [rhs];
      if |v| > 0 && |w| > 0 && v[|v| - 1].Text? && w[0].Text? {
        node := Children(v[..|v| - 1] + [Text(v[|v| - 1].text + w[0].text)] + w[1..]);
      } else {
        node := Children(v + w);
      }
    }

    /** Appending a string without building a node first comes to the same. */
    method AddText(s: string)
      modifies this
      ensures node == Merge(old(node), Text(s))
    {
      match node
      case Text(t) => node := Text(t + s);
      case Children(v) =>
        if |v| > 0 && v[|v| - 1].Text? {
          node := Children(v[..|v| - 1] + [Text(v[|v| - 1].text + s)]);
        } else {
          node := Children(v + [Text(s)]);
        }
      case _ => AddNode(Text(s));
    }
  }

  // ----- normal form -----

  /** Lists have at least two children, none of them a list or nothing, no two texts side by side;
      no text is empty. */
  predicate Normal(n: Node) {
    match n
    case Text(s) => s != []
    case Children(v) => |v| >= 2 && forall k | 0 <= k < |v| :: Normal(v[k]) && NormalChild(v, k)
    case Spoiler(x) => Normal(x)
    case Bold(x) => Normal(x)
    case Italic(x) => Normal(x)
    case Quoted(x) => Normal(x)
    case _ => true
  }

  predicate NormalChild(v: seq<Node>, k: nat)
    requires k < |v|
  {
    && !v[k].Children? && !v[k].Empty?
    && (k > 0 && v[k].Text? ==> !v[k - 1].Text?)
  }

  predicate EndsWithText(n: Node) {
    n.Text? || (n.Children? && n.list != [] && n.list[|n.list| - 1].Text?)
  }

  lemma MergeNormal(d: Node, n: Node)
    requires Normal(d) && Normal(n) && !n.Children?
    ensures Normal(Merge(d, n))
    ensures n.Text? ==> EndsWithText(Merge(d, n))
  {
    if d.Children? && !n.Empty? {
      var v := d.list;
      var w := Merge(d, n).list;
      forall k | 0 <= k < |w| ensures Normal(w[k]) && NormalChild(w, k) {
        if k < |v| {
          assert Normal(v[k]) && NormalChild(v, k);
        }
      }
    }
  }

  /** Text appended empty leaves no trace once more text follows, or if text came before. */
  lemma EmptyTextVanishes(d: Node, s: string)
    ensures Merge(Merge(d, Text([])), Text(s)) == Merge(d, Text(s))
    ensures EndsWithText(d) ==> Merge(d, Text([])) == d
  {
    assert [] + s == s;
    if d.Text? {
      assert d.text + [] == d.text;
    } else if d.Children? {
      var v := d.list;
      if EndsWithText(d) {
        var last := v[|v| - 1].text;
        assert last + [] == last;
        assert v[..|v| - 1] + [Text(last)] == v;
      } else {
        assert (v + [Text([])])[..|v|] == v;
      }
    } else if !d.Empty? {
      assert [d, Text([])][..1] + [Text(s)] == [d, Text(s)];
    }
  }
}
