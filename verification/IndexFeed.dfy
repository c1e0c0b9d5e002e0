/** The feed of the thread index: buffering, pulses and the cached catalog. */
module IndexFeed {
  import opened MachineInts
  import opened PostBody
  import opened Iteration
  import opened Messages
  import opened MessageCaches
  import opened ThreadIndex
  import Codec

  // ----- the catalog -----

  function AllTags(ts: ThreadIndex.Threads): set<string> {
    set id, tag | id in ts && tag in ts[id].thread.tags :: tag
  }

  /** How the catalog and the list of tags are encoded. */
  datatype CatalogFormat = CatalogFormat(
    threads: Format<ThreadData>, sort: set<string> -> seq<string>, serializeTags: seq<string> -> Codec.Bytes)

  function TagsMessage(f: CatalogFormat, ts: ThreadIndex.Threads): Codec.Bytes {
    Encode(f.threads.z, 22, f.serializeTags(f.sort(AllTags(ts))))
  }

  /** The threads with both messages cached for them (`Threads`). */
  class Catalog {
    const f: CatalogFormat
    const threads: PartitionedCache<ThreadData>
    var usedTags: Option<Codec.Bytes>

    ghost predicate Valid()
      reads this, threads
    {
      && threads.Valid()
      && (usedTags.Some? ==> usedTags.value == TagsMessage(f, threads.Values()))
    }

    constructor (f: CatalogFormat, ts: ThreadIndex.Threads)
      ensures Valid() && fresh(threads) && threads.Values() == ts && this.f == f
    {
      this.f := f;
      threads := new PartitionedCache(f.threads, ts);
      usedTags := None;
    }

    /** `DerefMut`: both messages may be about to go stale. */
    method Touch()
      requires Valid()
      modifies this, threads
      ensures Valid() && threads.Values() == old(threads.Values()) && threads.cache.None? && usedTags.None?
    {
      threads.Touch();
      usedTags := None;
    }

    method Put(id: u64, t: ThreadData)
      requires Valid()
      modifies this, threads
      ensures Valid() && threads.Values() == old(threads.Values())[id := t]
      ensures threads.cache.None? && usedTags.None?
    {
      threads.Put(id, t);
      usedTags := None;
    }

    method UsedTags() returns (m: Codec.Bytes)
      requires Valid()
      modifies this
      ensures Valid() && m == TagsMessage(f, threads.Values())
    {
      if usedTags.Some? {
        return usedTags.value;
      }
      m := TagsMessage(f, threads.Values());
      usedTags := Some(m);
    }
  }

  // ----- the feed -----

  datatype IndexMsg =
    | CatalogMsg(bytes: Codec.Bytes)
    | InsertThreadMsgs(threads: seq<ThreadData>)
    | FeedMsgs(messages: seq<ServerMsg>)

  datatype Sent = Sent(client: ClientID, msgs: seq<IndexMsg>)

  /** The same batch to every client. */
  function ToAll(clients: seq<ClientID>, batch: seq<IndexMsg>): (r: seq<Sent>)
    ensures |r| == |clients|
  {
    seq(|clients|, k requires 0 <= k < |clients| => Sent(clients[k], batch))
  }

  /** Messages announcing change sets, in order. */
  function Announcements(sets: seq<ChangeSet>): seq<IndexMsg> {
    if sets == [] then [] else [FeedMsgs(sets[0].message)] + Announcements(sets[1..])
  }

  /** What a pulse sends to each client: new threads, then the sets of the threads it knows. */
  function PulseBatch(inserted: seq<ThreadData>, known: seq<ChangeSet>): seq<IndexMsg> {
    (if inserted == [] then [] else [InsertThreadMsgs(inserted)]) + Announcements(known)
  }

  /** One iteration of the loop over change sets. */
  lemma NextSet(ts: ThreadIndex.Threads, sets: seq<ChangeSet>, k: nat)
    requires k < |sets|
    ensures var cs, rest := sets[k], sets[k + 1..];
            var known := cs.sourceFeed in ts;
            && ApplySets(ts, sets[k..])
               == ApplySets(if known then ts[cs.sourceFeed := ApplyAll(ts[cs.sourceFeed], cs.changes)] else ts, rest)
            && Unknown(ts.Keys, sets[k..]) == (if known then [] else [cs]) + Unknown(ts.Keys, rest)
            && Announcements(Known(ts.Keys, sets[k..]))
               == (if known then [FeedMsgs(cs.message)] else []) + Announcements(Known(ts.Keys, rest))
  {
    hide ApplyAll;
    var cs, rest := sets[k], sets[k + 1..];
    assert sets[k..][0] == cs && sets[k..][1..] == rest;
    var known := Known(ts.Keys, rest);
    assert ([cs] + known)[1..] == known && [] + known == known;
  }

  lemma NoSets(ts: ThreadIndex.Threads, sets: seq<ChangeSet>)
    requires sets == []
    ensures ApplySets(ts, sets) == ts && Unknown(ts.Keys, sets) == [] && Announcements(Known(ts.Keys, sets)) == []
  {
  }

  lemma {:induction false} UnknownWait(keys: set<u64>, sets: seq<ChangeSet>)
    ensures forall cs | cs in Unknown(keys, sets) :: cs.sourceFeed !in keys
  {
    if sets != [] {
      UnknownWait(keys, sets[1..]);
    }
  }

  class Feed {
    const catalog: Catalog
    var pendingPulse: bool
    var clients: seq<ClientID>
    var changes: seq<ChangeSet>
    var enc: Option<seq<ThreadData>>
    var deferredFetches: seq<ClientID>

    ghost function State(): Index
      reads this, catalog, catalog.threads
    {
      Index(catalog.threads.Values(), changes)
    }

    /** Nothing that the next pulse could handle waits without a pulse being scheduled. */
    ghost predicate Valid()
      reads this, catalog, catalog.threads
    {
      && catalog.Valid()
      && (enc.Some? ==> enc.value != [] && pendingPulse)
      && (deferredFetches != [] ==> pendingPulse)
      && ((exists cs | cs in changes :: cs.sourceFeed in catalog.threads.items) ==> pendingPulse)
    }

    ghost function Footprint(): set<object>
      reads this
    {
      {this, catalog, catalog.threads}
    }

    constructor (f: CatalogFormat, ts: ThreadIndex.Threads)
      ensures Valid() && fresh(Footprint()) && State() == Index(ts, []) && !pendingPulse
    {
      catalog := new Catalog(f, ts);
      pendingPulse, clients, changes, enc, deferredFetches := false, [], [], None, [];
    }

    method SchedulePulse() returns (scheduled: bool)
      modifies this`pendingPulse
      ensures pendingPulse && scheduled == !old(pendingPulse)
    {
      scheduled := !pendingPulse;
      pendingPulse := true;
    }

    method InsertThread(id: u64, now: u32, subject: string, tags: seq<string>, opts: PostOpts) returns (scheduled: bool)
      requires Valid()
      modifies this, catalog, catalog.threads
      ensures Valid() && State() == Step(old(State()), ThreadAdded(NewThread(id, now, subject, tags, opts)))
      ensures enc == Some((if old(enc).Some? then old(enc).value else []) + [NewThread(id, now, subject, tags, opts)])
      ensures deferredFetches == old(deferredFetches) && catalog.threads.cache.None?
    {
      scheduled := SchedulePulse();
      var t := NewThread(id, now, subject, tags, opts);
      if enc.None? {
        enc := Some([]);
      }
      enc := Some(enc.value + [t]);
      catalog.Put(id, t);
    }

    method Receive(cs: ChangeSet) returns (scheduled: bool)
      requires Valid()
      modifies this
      ensures Valid() && State() == Step(old(State()), SetReceived(cs))
      ensures enc == old(enc) && deferredFetches == old(deferredFetches)
    {
      scheduled := SchedulePulse();
      changes := changes + [cs];
    }

    /** A catalog still cached is sent at once; otherwise the fetch waits for the next pulse. */
    method FetchFeedData(client: ClientID) returns (sent: seq<Sent>)
      requires Valid()
      modifies this
      ensures Valid() && State() == old(State()) && enc == old(enc)
      ensures sent != [] <==> catalog.threads.cache.Some?
      ensures sent == [] ==> deferredFetches == old(deferredFetches) + [client]
      ensures sent != [] ==> deferredFetches == old(deferredFetches)
      ensures sent != [] ==> exists m :: catalog.threads.Serves(m) && sent == [Sent(client, [CatalogMsg(m)])]
    {
      var m := catalog.threads.GetCachedMessage();
      match m
      case Some(bytes) =>
        sent := [Sent(client, [CatalogMsg(bytes)])];
      case None =>
        var _ := SchedulePulse();
        deferredFetches := deferredFetches + [client];
        sent := [];
    }

    /** Sends waiting clients the catalog, then applies and announces what has been buffered. */
    method Pulse(snapshot: seq<ClientID>, iteration: seq<u64>) returns (catalogs: seq<Sent>, sent: seq<Sent>)
      requires Valid() && OrderOf(iteration, catalog.threads.items.Keys)
      modifies this, catalog, catalog.threads
      ensures Valid() && State() == Step(old(State()), Pulsed)
      ensures !pendingPulse && enc.None? && deferredFetches == [] && clients == snapshot
      // the catalog stays cached unless a change set has been taken from the queue
      ensures catalog.threads.cache.Some? <==>
                (old(catalog.threads.cache).Some? || old(deferredFetches) != []) && old(changes) == []
      ensures old(deferredFetches) == [] ==> catalogs == []
      ensures old(deferredFetches) != [] ==>
                exists order | OrderOf(order, old(catalog.threads.items.Keys)) ::
                  catalogs == ToAll(old(deferredFetches), [CatalogMsg(CatalogBytes(order, old(State()).threads))])
      ensures sent
              == var batch := PulseBatch(if old(enc).Some? then old(enc).value else [],
                                         Known(old(State()).threads.Keys, old(changes)));
                 if batch == [] then [] else ToAll(snapshot, batch)
    {
      hide OrderOf, ApplySets, Known, Unknown, Announcements;
      UnknownWait(catalog.threads.Values().Keys, changes);
      pendingPulse := false;
      clients := snapshot;
      catalogs := ServeDeferred(iteration);
      var batch := [];
      if enc.Some? {
        if clients != [] {
          batch := [InsertThreadMsgs(enc.value)];
        }
        enc := None;
      }
      var announced := ApplyChanges();
      if clients != [] {
        batch := batch + announced;
      }
      sent := if batch == [] then [] else ToAll(clients, batch);
    }

    ghost function CatalogBytes(order: seq<u64>, ts: ThreadIndex.Threads): Codec.Bytes
      requires forall id | id in order :: id in ts
    {
      JoinedMessage(catalog.threads.f.z, Afresh(catalog.threads.f, order, ts))
    }

    method ServeDeferred(iteration: seq<u64>) returns (catalogs: seq<Sent>)
      requires catalog.Valid() && OrderOf(iteration, catalog.threads.items.Keys)
      modifies this`deferredFetches, catalog.threads
      ensures catalog.Valid() && catalog.threads.Values() == old(catalog.threads.Values())
      ensures deferredFetches == []
      ensures catalog.threads.cache.Some? <==> old(catalog.threads.cache).Some? || old(deferredFetches) != []
      ensures old(deferredFetches) == [] ==> catalogs == []
      ensures old(deferredFetches) != [] ==>
                exists order | OrderOf(order, old(catalog.threads.items.Keys)) ::
                  catalogs == ToAll(old(deferredFetches), [CatalogMsg(CatalogBytes(order, old(State()).threads))])
    {
      catalogs := [];
      if deferredFetches != [] {
        var m := catalog.threads.GetMessage(iteration);
        catalogs := ToAll(deferredFetches, [CatalogMsg(m)]);
        deferredFetches := [];
      }
    }

    /** The loop over buffered change sets; those of unknown threads are put back. */
    method ApplyChanges() returns (announced: seq<IndexMsg>)
      requires catalog.Valid()
      modifies this`changes, catalog, catalog.threads
      ensures catalog.Valid() && State() == Step(old(State()), Pulsed)
      ensures announced == Announcements(Known(old(State()).threads.Keys, old(changes)))
      ensures catalog.threads.cache == if old(changes) == [] then old(catalog.threads.cache) else None
    {
      hide ApplyAll, ApplySets, Known, Unknown, Announcements;
      var sets := changes;
      ghost var before := catalog.threads.Values();
      changes, announced := [], [];
      assert sets[0..] == sets;
      for k := 0 to |sets|
        invariant catalog.Valid() && catalog.threads.items.Keys == before.Keys
        invariant catalog.threads.cache == if k == 0 then old(catalog.threads.cache) else None
        invariant ApplySets(catalog.threads.Values(), sets[k..]) == ApplySets(before, sets)
        invariant changes + Unknown(before.Keys, sets[k..]) == Unknown(before.Keys, sets)
        invariant announced + Announcements(Known(before.Keys, sets[k..])) == Announcements(Known(before.Keys, sets))
      {
        var cs := sets[k];
        NextSet(catalog.threads.Values(), sets, k);
        catalog.Touch();
        if cs.sourceFeed in catalog.threads.items {
          announced := announced + [FeedMsgs(cs.message)];
          ApplySet(cs);
        } else {
          changes := changes + [cs];
        }
      }
      NoSets(catalog.threads.Values(), sets[|sets|..]);
    }

    method ApplySet(cs: ChangeSet)
      requires catalog.Valid() && cs.sourceFeed in catalog.threads.items
      modifies catalog, catalog.threads
      ensures catalog.Valid() && (old(catalog.threads.cache).None? ==> catalog.threads.cache.None?)
      ensures var ts := old(catalog.threads.Values());
              catalog.threads.Values() == ts[cs.sourceFeed := ApplyAll(ts[cs.sourceFeed], cs.changes)]
    {
      hide Apply;
      var id := cs.sourceFeed;
      ghost var ts := catalog.threads.Values();
      for k := 0 to |cs.changes|
        invariant catalog.Valid() && id in catalog.threads.items
        invariant old(catalog.threads.cache).None? ==> catalog.threads.cache.None?
        invariant catalog.threads.Values() == ts[id := catalog.threads.items[id].val]
        invariant ApplyAll(catalog.threads.items[id].val, cs.changes[k..]) == ApplyAll(ts[id], cs.changes)
      {
        assert cs.changes[k..][1..] == cs.changes[k + 1..];
        catalog.Put(id, Apply(catalog.threads.items[id].val, cs.changes[k]));
      }
    }
  }
}
