/** Encoded messages cached at two levels: per value, and for all values of a page or the index. */
module MessageCaches {
  import opened MachineInts
  import opened PostBody
  import opened Codec
  import opened Iteration

  /** How values of one kind are encoded as a partitioned message. */
  datatype Format<!V> = Format(
    z: Deflate,
    serialize: V -> Bytes,
    start: MessageType,
    item: MessageType,
    end: MessageType)

  /** `Encoder::encode` */
  function Encode(z: Deflate, typ: MessageType, payload: Bytes): Bytes {
    Wire(z, Single([Message(typ, payload)]))
  }

  // ----- one value -----

  /** A value with the message last encoded from it. */
  datatype Cacher<V> = Cacher(val: V, cached: Option<(MessageType, Bytes)>)

  predicate UpToDate<V>(f: Format<V>, c: Cacher<V>) {
    c.cached.Some? ==> c.cached.value.1 == Encode(f.z, c.cached.value.0, f.serialize(c.val))
  }

  /** `MessageCacher::get_message` */
  method ItemMessage<V>(f: Format<V>, c: Cacher<V>, typ: MessageType) returns (c': Cacher<V>, m: Bytes)
    requires UpToDate(f, c)
    ensures m == Encode(f.z, typ, f.serialize(c.val))
    ensures c'.val == c.val && UpToDate(f, c') && c'.cached == Some((typ, m))
  {
    match c.cached
    case Some((t, cached)) =>
      if t == typ {
        return c, cached;
      }
      m := Encode(f.z, typ, f.serialize(c.val));
      c' := c.(cached := Some((typ, m)));
    case None =>
      m := Encode(f.z, typ, f.serialize(c.val));
      c' := c.(cached := Some((typ, m)));
  }

  // ----- all values -----

  function Items<V>(f: Format<V>, order: seq<u64>, vals: map<u64, V>): (ms: seq<Message>)
    requires forall id | id in order :: id in vals
    ensures |ms| == |order|
  {
    seq(|order|, k requires 0 <= k < |order| => Message(f.item, f.serialize(vals[order[k]])))
  }

  /** Start, one message for each value, end. */
  function Afresh<V>(f: Format<V>, order: seq<u64>, vals: map<u64, V>): seq<Message>
    requires forall id | id in order :: id in vals
  {
    [Message(f.start, [])] + Items(f, order, vals) + [Message(f.end, [])]
  }

  /** Each message encoded by itself, all joined. */
  function Separately(ms: seq<Message>): (bs: seq<Bundle>)
    ensures |bs| == |ms|
  {
    seq(|ms|, k requires 0 <= k < |ms| => Single([ms[k]]))
  }

  function JoinedMessage(z: Deflate, ms: seq<Message>): Bytes {
    Wire(z, Joined(Separately(ms)))
  }

  lemma {:induction false} SeparateContents(ms: seq<Message>)
    ensures ContentsAll(Separately(ms)) == ms
  {
    if ms != [] {
      assert Separately(ms)[1..] == Separately(ms[1..]);
      SeparateContents(ms[1..]);
      assert [ms[0]] + ms[1..] == ms;
    }
  }

  lemma {:induction false} MoreWires(z: Deflate, bs: seq<Bundle>, b: Bundle)
    ensures Wires(z, bs + [b]) == Wires(z, bs) + [Wire(z, b)]
  {
    forall k | 0 <= k < |bs + [b]| ensures Wires(z, bs + [b])[k] == (Wires(z, bs) + [Wire(z, b)])[k] {
      assert (bs + [b])[k] == if k < |bs| then bs[k] else b;
    }
  }

  /** The posts of a page, or the threads of the index. */
  class PartitionedCache<V> {
    const f: Format<V>
    var cache: Option<Bytes>
    var items: map<u64, Cacher<V>>
    /** Order the cached message was put together in. */
    ghost var order: seq<u64>

    ghost predicate Valid()
      reads this
    {
      && (forall id | id in items :: UpToDate(f, items[id]))
      && (cache.Some? ==> Serves(cache.value))
    }

    /** The message is what encoding the current values anew would give. */
    ghost predicate Serves(m: Bytes)
      reads this
    {
      OrderOf(order, items.Keys) && m == JoinedMessage(f.z, Afresh(f, order, Values()))
    }

    function Values(): (vals: map<u64, V>)
      reads this
      ensures vals.Keys == items.Keys
    {
      map id | id in items :: items[id].val
    }

    constructor (f: Format<V>, vals: map<u64, V>)
      ensures Valid() && this.f == f && Values() == vals && cache.None?
    {
      this.f := f;
      cache := None;
      items := map id | id in vals :: Cacher(vals[id], None);
      order := [];
    }

    /** Any mutable access drops the joined message, even if nothing is then changed. */
    method Touch()
      requires Valid()
      modifies this`cache
      ensures Valid() && cache.None?
    {
      cache := None;
    }

    /** Insertion, or replacement of what is there. Mutable access to a value drops its message too. */
    method Put(id: u64, val: V)
      requires Valid()
      modifies this`cache, this`items
      ensures Valid() && cache.None? && Values() == old(Values())[id := val]
    {
      Touch();
      items := items[id := Cacher(val, None)];
    }

    method GetCachedMessage() returns (m: Option<Bytes>)
      requires Valid()
      ensures m.Some? ==> Serves(m.value)
      ensures m.Some? <==> cache.Some?
    {
      m := cache;
    }

    /** `iteration` is the order the map happens to be walked in. */
    method GetMessage(iteration: seq<u64>) returns (m: Bytes)
      requires Valid() && OrderOf(iteration, items.Keys)
      modifies this
      ensures Valid() && Serves(m) && cache == Some(m)
      ensures Values() == old(Values())
      ensures old(cache).Some? ==> m == old(cache).value
    {
      if cache.Some? {
        return cache.value;
      }
      m := Rejoin(iteration);
      cache := Some(m);
    }

    method Rejoin(iteration: seq<u64>) returns (m: Bytes)
      requires Valid() && OrderOf(iteration, items.Keys)
      modifies this
      ensures items.Keys == old(items.Keys) && cache == old(cache)
      ensures forall id | id in items :: UpToDate(f, items[id])
      ensures Values() == old(Values()) && Serves(m)
    {
      hide Encode, Wire, Wires, Separately, Afresh, JoinedMessage, UpToDate;
      var vals := Values();
      ghost var all := Afresh(f, iteration, vals);
      AfreshAt(f, iteration, vals);
      var refreshed, parts := ItemMessages(f, items, iteration, vals);
      items := refreshed;
      parts := parts + [Encode(f.z, f.end, [])];
      NextWire(f.z, all, |iteration| + 1);
      assert all[..|iteration| + 2] == all;
      order := iteration;
      m := JoinParts(parts);
      JoinedIs(f.z, all);
      assert Values() == vals;
    }
  }

  /** The start marker and the message of every value, taken from its cache where there is one. */
  method ItemMessages<V>(f: Format<V>, items: map<u64, Cacher<V>>, iteration: seq<u64>, ghost vals: map<u64, V>)
    returns (refreshed: map<u64, Cacher<V>>, parts: seq<Bytes>)
    requires items.Keys == vals.Keys && forall id | id in iteration :: id in vals
    requires forall id | id in items :: UpToDate(f, items[id]) && items[id].val == vals[id]
    ensures refreshed.Keys == items.Keys
    ensures forall id | id in items :: UpToDate(f, refreshed[id]) && refreshed[id].val == vals[id]
    ensures parts == Wires(f.z, Separately(Afresh(f, iteration, vals)[..|iteration| + 1]))
  {
    hide Encode, Wire, Wires, Separately, Afresh, UpToDate;
    ghost var all := Afresh(f, iteration, vals);
    AfreshAt(f, iteration, vals);
    refreshed, parts := items, [Encode(f.z, f.start, [])];
    FirstWire(f.z, all);
    for k := 0 to |iteration|
      invariant refreshed.Keys == items.Keys
      invariant forall id | id in items :: UpToDate(f, refreshed[id]) && refreshed[id].val == vals[id]
      invariant parts == Wires(f.z, Separately(all[..k + 1]))
    {
      var c, part := ItemMessage(f, refreshed[iteration[k]], f.item);
      refreshed := refreshed[iteration[k] := c];
      parts := parts + [part];
      NextWire(f.z, all, k + 1);
    }
  }

  lemma AfreshAt<V>(f: Format<V>, order: seq<u64>, vals: map<u64, V>)
    requires forall id | id in order :: id in vals
    ensures var ms := Afresh(f, order, vals);
            && |ms| == |order| + 2 && ms[0] == Message(f.start, []) && ms[|order| + 1] == Message(f.end, [])
            && forall k | 0 <= k < |order| :: ms[k + 1] == Message(f.item, f.serialize(vals[order[k]]))
  {
  }

  lemma JoinedIs(z: Deflate, ms: seq<Message>)
    ensures JoinedMessage(z, ms) == Join(Wires(z, Separately(ms)))
  {
  }

  lemma FirstWire(z: Deflate, ms: seq<Message>)
    requires ms != []
    ensures Wires(z, Separately(ms[..1])) == [Encode(z, ms[0].typ, ms[0].payload)]
  {
    assert Separately(ms[..1]) == [] + [Single([ms[0]])];
    MoreWires(z, [], Single([ms[0]]));
  }

  lemma NextWire(z: Deflate, ms: seq<Message>, k: nat)
    requires k < |ms|
    ensures Wires(z, Separately(ms[..k + 1]))
            == Wires(z, Separately(ms[..k])) + [Encode(z, ms[k].typ, ms[k].payload)]
  {
    assert Separately(ms[..k + 1]) == Separately(ms[..k]) + [Single([ms[k]])];
    MoreWires(z, Separately(ms[..k]), Single([ms[k]]));
  }

  // ----- what a receiver makes of it -----

  /** Values read back from item messages, stored under their own ids. */
  function Collect<V>(deserialize: Bytes -> V, idOf: V -> u64, ms: seq<Message>): map<u64, V> {
    if ms == [] then map[]
    else
      var init := Collect(deserialize, idOf, ms[..|ms| - 1]);
      var v := deserialize(ms[|ms| - 1].payload);
      init[idOf(v) := v]
  }

  lemma {:induction false} CollectItems<V>(
    f: Format<V>, deserialize: Bytes -> V, idOf: V -> u64, order: seq<u64>, vals: map<u64, V>)
    requires forall id | id in order :: id in vals && idOf(vals[id]) == id
    requires forall id | id in order :: deserialize(f.serialize(vals[id])) == vals[id]
    ensures var got := Collect(deserialize, idOf, Items(f, order, vals));
            (forall id :: id in got <==> id in order) && (forall id | id in got :: got[id] == vals[id])
  {
    if order != [] {
      var n := |order| - 1;
      assert Items(f, order, vals)[..n] == Items(f, order[..n], vals);
      assert order == order[..n] + [order[n]];
      CollectItems(f, deserialize, idOf, order[..n], vals);
    }
  }

  /** A served message decodes to a start marker, one message per current value and an end marker,
      and the items between the markers rebuild exactly the current values. */
  lemma ServedDecodes<V>(f: Format<V>, deserialize: Bytes -> V, idOf: V -> u64, order: seq<u64>, vals: map<u64, V>)
    requires Inverse(f.z) && OrderOf(order, vals.Keys)
    requires Transmits(f.z, Joined(Separately(Afresh(f, order, vals))))
    requires forall id | id in vals :: idOf(vals[id]) == id && deserialize(f.serialize(vals[id])) == vals[id]
    ensures var ms := Afresh(f, order, vals);
            && Decode(f.z, NOTHING, JoinedMessage(f.z, ms)) == Ok(Parts(ms))
            && |ms| == |order| + 2 && ms[0].typ == f.start && ms[|ms| - 1].typ == f.end
            && (forall k | 0 < k < |ms| - 1 :: ms[k].typ == f.item)
            && Collect(deserialize, idOf, ms[1..|ms| - 1]) == vals
  {
    var ms := Afresh(f, order, vals);
    BundleRoundTrip(f.z, NOTHING, Joined(Separately(ms)));
    SeparateContents(ms);
    AfterNothing(Parts(ms));
    assert ms[1..|ms| - 1] == Items(f, order, vals);
    CollectItems(f, deserialize, idOf, order, vals);
  }
}
