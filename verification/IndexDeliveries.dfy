/** The index feed's messages, as its clients take them in. */
module IndexDeliveries {
  import opened MachineInts
  import opened PostBody
  import opened Messages
  import opened ThreadIndex
  import opened IndexReaders
  import F = IndexFeed
  import R = Replica

  /** A client takes in one message. A catalog is decoded to the threads it was made of. */
  ghost function GetMsg(r: Reader, m: F.IndexMsg, decoded: Threads): Reader {
    match m
    case CatalogMsg(_) => GetCatalog(r, decoded)
    case InsertThreadMsgs(ts) => r.(client := r.client.(posts := AddThreads(r.client.posts, ts)))
    case FeedMsgs(ms) => r.(client := R.ReceiveAll(r.client, 0, ms))
  }

  ghost function GetMsgs(r: Reader, ms: seq<F.IndexMsg>, decoded: Threads): Reader
    decreases |ms|
  {
    if ms == [] then r else GetMsgs(GetMsg(r, ms[0], decoded), ms[1..], decoded)
  }

  lemma {:induction false} SetsTakenIn(r: Reader, sets: seq<ChangeSet>, decoded: Threads)
    ensures GetMsgs(r, F.Announcements(sets), decoded) == r.(client := GetSets(r.client, sets))
    decreases |sets|
  {
    hide R.Receive;
    if sets != [] {
      var ms := F.Announcements(sets);
      assert ms == [F.FeedMsgs(sets[0].message)] + F.Announcements(sets[1..]);
      assert ms[0] == F.FeedMsgs(sets[0].message) && ms[1..] == F.Announcements(sets[1..]);
      SetsTakenIn(r.(client := R.ReceiveAll(r.client, 0, sets[0].message)), sets[1..], decoded);
    }
  }

  /** A client that takes in the batch a pulse sends has the new threads, and the messages of the sets
      applied, in order. */
  lemma BatchTakenIn(r: Reader, inserted: seq<ThreadData>, known: seq<ChangeSet>, decoded: Threads)
    ensures GetMsgs(r, F.PulseBatch(inserted, known), decoded) == GetBatch(r, inserted, known)
  {
    hide R.Receive;
    var rest := F.Announcements(known);
    if inserted == [] {
      assert [] + rest == rest;
      SetsTakenIn(r, known, decoded);
      assert r.client.(posts := AddThreads(r.client.posts, [])) == r.client;
    } else {
      var m := F.InsertThreadMsgs(inserted);
      assert ([m] + rest)[0] == m && ([m] + rest)[1..] == rest;
      SetsTakenIn(GetMsg(r, m, decoded), known, decoded);
    }
  }

  /** Each of the clients is sent the batch once, and nobody else is. */
  lemma {:induction false} ToAllExact(clients: seq<ClientID>, batch: seq<F.IndexMsg>, s: F.Sent)
    ensures multiset(F.ToAll(clients, batch))[s] == if s.msgs == batch then multiset(clients)[s.client] else 0
    decreases |clients|
  {
    if clients == [] {
      assert F.ToAll(clients, batch) == [];
    } else {
      ToAllExact(clients[1..], batch, s);
      assert F.ToAll(clients, batch) == [F.Sent(clients[0], batch)] + F.ToAll(clients[1..], batch);
      assert clients == [clients[0]] + clients[1..];
    }
  }

  /** What each client is sent at a pulse, and what it makes of it, as the index feed's contract has it:
      those that waited get the catalog, those subscribed the batch. */
  lemma PulseTakenIn(s: System, c: ClientID, catalog: F.IndexMsg)
    requires c in s.readers && catalog.CatalogMsg?
    ensures var ts := s.index.threads;
            var first := if c in s.deferred then GetMsgs(s.readers[c], [catalog], ts) else s.readers[c];
            AfterPulse(s, c) ==
              if c in s.subscribed then GetMsgs(first, F.PulseBatch(s.fresh', Known(ts.Keys, s.index.queued)), ts) else first
  {
    var ts := s.index.threads;
    assert [catalog][1..] == [];
    var first := if c in s.deferred then GetMsgs(s.readers[c], [catalog], ts) else s.readers[c];
    BatchTakenIn(first, s.fresh', Known(ts.Keys, s.index.queued), ts);
  }

  // ----- tags -----

  /** A new thread adds exactly its tags to those in use. */
  lemma NewThreadTags(ts: Threads, id: u64, now: u32, subject: string, tags: seq<string>, opts: PostOpts)
    requires id !in ts
    ensures F.AllTags(ts[id := NewThread(id, now, subject, tags, opts)]) == F.AllTags(ts) + set tag | tag in tags
  {
    var t := NewThread(id, now, subject, tags, opts);
    forall tag ensures tag in F.AllTags(ts[id := t]) <==> tag in F.AllTags(ts) || tag in tags {
      assert t.thread.tags == tags;
      assert forall k | k in ts :: ts[id := t][k] == ts[k];
      assert ts[id := t][id] == t;
    }
  }

  /** Changes of its posts leave the tags of a thread in use. */
  lemma ChangesKeepTags(ts: Threads, id: u64, cs: seq<Change>)
    requires id in ts
    ensures F.AllTags(ts[id := ApplyAll(ts[id], cs)]) == F.AllTags(ts)
  {
    var t := ApplyAll(ts[id], cs);
    ChangesExact(ts[id], cs, id);
    forall tag ensures tag in F.AllTags(ts[id := t]) <==> tag in F.AllTags(ts) {
      assert forall k | k in ts :: ts[id := t][k].thread.tags == ts[k].thread.tags;
    }
  }
}
