/** The queue of ticks as a singly linked list, relinked in place. */
module TickQueue {
  import opened MachineInts
  import opened PostBody
  import opened RelativeTimes
  import opened Ticks

  class QueueNode {
    var val: Tick
    var next: QueueNode?
    /** Values from here to the end, and the nodes that hold them. */
    ghost var list: seq<Tick>
    ghost var repr: set<QueueNode>

    ghost predicate Valid()
      reads this, repr
      decreases repr
    {
      && this in repr
      && (if next == null then list == [val] && repr == {this}
          else next in repr && next.repr <= repr - {this} && repr == {this} + next.repr
               && next.Valid() && list == [val] + next.list)
    }

    constructor (val: Tick, next: QueueNode?)
      requires next != null ==> next.Valid()
      ensures Valid() && this.val == val && this.next == next
      ensures list == [val] + (if next == null then [] else next.list)
      ensures repr == {this} + (if next == null then {} else next.repr)
    {
      this.val, this.next := val, next;
      list := [val] + (if next == null then [] else next.list);
      repr := {this} + (if next == null then {} else next.repr);
    }
  }

  ghost function ListOf(n: QueueNode?): seq<Tick>
    reads n
  {
    if n == null then [] else n.list
  }

  ghost function ReprOf(n: QueueNode?): set<QueueNode>
    reads n
  {
    if n == null then {} else n.repr
  }

  /** Before the first later value: its node takes the new value, and a new node behind it the old. */
  method InsertBefore(n: QueueNode, val: Tick)
    requires n.Valid()
    modifies n.repr
    ensures n.Valid() && fresh(n.repr - old(n.repr))
    ensures n.list == Insert(old(n.list), val)
    decreases n.repr
  {
    ghost var tail := if n.next == null then [] else n.next.list;
    assert n.list[1..] == tail;
    if val.pendingOn < n.val.pendingOn {
      var moved := new QueueNode(n.val, n.next);
      n.val, n.next := val, moved;
    } else if n.next == null {
      var last := new QueueNode(val, null);
      n.next := last;
    } else {
      InsertBefore(n.next, val);
    }
    n.list := [n.val] + n.next.list;
    n.repr := {n} + n.next.repr;
  }

  /** The list from `n` on, without the first tick of a subscriber. */
  method RemoveFrom(n: QueueNode?, id: nat) returns (rest: QueueNode?)
    requires n != null ==> n.Valid()
    modifies ReprOf(n)
    ensures rest != null ==> rest.Valid()
    ensures ReprOf(rest) <= old(ReprOf(n)) && ListOf(rest) == Remove(old(ListOf(n)), id)
    decreases ReprOf(n)
  {
    if n == null {
      return null;
    }
    assert n.list[1..] == ListOf(n.next);
    if n.val.id == id {
      return n.next;
    }
    n.next := RemoveFrom(n.next, id);
    n.list := [n.val] + ListOf(n.next);
    n.repr := {n} + ReprOf(n.next);
    rest := n;
  }

  /** Recomputes what every tick shows. */
  method RecomputeFrom(n: QueueNode?, now: u32)
    requires n != null ==> n.Valid()
    modifies ReprOf(n)
    ensures n != null ==> n.Valid() && n.repr == old(n.repr)
    ensures ListOf(n) == Recomputed(old(ListOf(n)), now)
    decreases ReprOf(n)
  {
    if n != null {
      assert n.list[1..] == ListOf(n.next);
      RecomputeFrom(n.next, now);
      var r := NewRelativeTime(now, n.val.val);
      n.val := n.val.(diff := r);
      n.list := [n.val] + ListOf(n.next);
    }
  }

  class Queue {
    var head: QueueNode?

    ghost predicate Valid()
      reads this, head, ReprOf(head)
    {
      head != null ==> head.Valid()
    }

    ghost function List(): seq<Tick>
      reads this, head
    {
      ListOf(head)
    }

    ghost function Nodes(): set<QueueNode>
      reads this, head
    {
      ReprOf(head)
    }

    constructor ()
      ensures Valid() && List() == [] && Nodes() == {}
    {
      head := null;
    }

    method InsertTick(t: Tick)
      requires Valid()
      modifies this, Nodes()
      ensures Valid() && fresh(Nodes() - old(Nodes()))
      ensures List() == Insert(old(List()), t)
    {
      if head == null {
        head := new QueueNode(t, null);
      } else {
        InsertBefore(head, t);
      }
    }

    method Peek() returns (t: Option<Tick>)
      requires Valid()
      ensures t == if List() == [] then None else Some(List()[0])
    {
      t := if head == null then None else Some(head.val);
    }

    method Pop() returns (t: Option<Tick>)
      requires Valid()
      modifies this
      ensures Valid() && Nodes() <= old(Nodes())
      ensures t == if old(List()) == [] then None else Some(old(List())[0])
      ensures List() == if old(List()) == [] then [] else old(List())[1..]
    {
      if head == null {
        return None;
      }
      assert head.list[1..] == ListOf(head.next);
      t := Some(head.val);
      head := head.next;
    }

    method RemoveTick(id: nat)
      requires Valid()
      modifies this, Nodes()
      ensures Valid() && Nodes() <= old(Nodes())
      ensures List() == Remove(old(List()), id)
    {
      head := RemoveFrom(head, id);
    }

    method Recompute(now: u32)
      requires Valid()
      modifies Nodes()
      ensures Valid() && Nodes() == old(Nodes()) && head == old(head)
      ensures List() == Recomputed(old(List()), now)
    {
      RecomputeFrom(head, now);
    }
  }
}
