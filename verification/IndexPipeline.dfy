/** From thread feeds to everyone who reads the index: feeds, change sets, index and clients joined. */
module IndexPipeline {
  import opened MachineInts
  import opened PostBody
  import opened Messages
  import opened FeedState
  import opened ThreadIndex
  import opened Writer
  import TF = ThreadFeed
  import C = Convergence
  import S = Sharing
  import R = IndexReaders

  /** The index with its clients, and the feeds of the threads. */
  datatype System = System(index: R.System, sides: map<u64, S.Side>)

  datatype Event =
    /** A feed is created, and the thread will be listed as `base`. */
    | OpenThread(id: u64, feed: Feed, base: ThreadData)
    | ListThread(id: u64, now: u32, subject: string, tags: seq<string>, opts: PostOpts)
    | FeedStep(id: u64, step: S.Event)
    | IndexStep(event: R.Event)

  /** The thread a post belongs to, once and for all. */
  type Owner = u64 -> u64

  function NewSide(f: Feed, base: ThreadData): S.Side {
    S.Side(C.System(f, {}, map[]), Global([], []), [], base, {}, 0)
  }

  // ----- steps -----

  predicate OwnedPosts(owner: Owner, id: u64, t: ThreadData) {
    forall p | p in t.posts :: owner(p) == id
  }

  predicate OwnedPending(owner: Owner, f: Feed) {
    forall page, p | page in f.pendingBodies && p in f.pendingBodies[page] :: owner(p) == f.thread
  }

  /** Requests a feed handles are about posts of its thread. */
  predicate OwnedEvent(owner: Owner, id: u64, e: C.Event) {
    match e
    case Insert(req, _, _) => owner(req.id) == id
    case SetBodyOf(_, p, _) => owner(p) == id
    case Close(_, p, _, _) => owner(p) == id
    case _ => true
  }

  ghost predicate Sound(owner: Owner, s: System, e: Event) {
    match e
    case OpenThread(id, f, base) =>
      && id !in s.sides && id !in s.index.index.threads && f.thread == id && S.Init(NewSide(f, base))
      && OwnedPosts(owner, id, base) && OwnedPending(owner, f)
    case ListThread(id, now, subject, tags, opts) =>
      && id in s.sides && id !in s.index.index.threads
      && s.sides[id].base == NewThread(id, now, subject, tags, opts)
    case FeedStep(id, step) =>
      id in s.sides && S.Sound(s.sides[id], step) && S.KeepsBack(s.sides[id], step) && OwnedEvent(owner, id, step.event)
    case IndexStep(event) =>
      match event
      case Subscribe(c, _) => c !in s.index.subscribed
      case AddThread(_, _, _, _, _) => false
      case Receive(_) => false
      case _ => true
  }

  /** A set flushed by a feed is received by the index. */
  ghost function Received(index: R.System, sets: seq<ChangeSet>): R.System {
    if sets == [] then index else R.Next(index, R.Receive(sets[0]))
  }

  ghost function Next(s: System, e: Event): System {
    match e
    case OpenThread(id, f, base) => s.(sides := s.sides[id := NewSide(f, base)])
    case ListThread(id, now, subject, tags, opts) =>
      s.(index := R.Next(s.index, R.AddThread(id, now, subject, tags, opts)))
    case FeedStep(id, step) =>
      if id !in s.sides then s
      else
        var side := S.Next(s.sides[id], step);
        System(Received(s.index, side.sent[|s.sides[id].sent|..]), s.sides[id := side])
    case IndexStep(event) => s.(index := R.Next(s.index, event))
  }

  /** A feed whose thread the index has been listing from the start. */
  ghost predicate Init(owner: Owner, s: System) {
    && R.Init(s.index)
    && (forall id | id in s.index.index.threads :: OwnedPosts(owner, id, s.index.index.threads[id]))
    && forall id | id in s.sides ::
         && s.sides[id].thread.feed.thread == id && S.Init(s.sides[id]) && OwnedPending(owner, s.sides[id].thread.feed)
         && OwnedPosts(owner, id, s.sides[id].base)
         && id in s.index.index.threads && s.index.index.threads[id] == s.sides[id].base
  }

  ghost predicate Run(owner: Owner, states: seq<System>, events: seq<Event>) {
    && |states| == |events| + 1
    && Init(owner, states[0])
    && forall k | 0 <= k < |events| ::
         Sound(owner, states[k], events[k]) && states[k + 1] == Next(states[k], events[k])
  }

  // ----- invariant -----

  predicate OwnedChanges(owner: Owner, id: u64, cs: seq<Change>) {
    forall c | c in cs :: owner(R.PostChanged(c)) == id
  }

  ghost predicate OwnedSide(owner: Owner, id: u64, side: S.Side) {
    && OwnedPosts(owner, id, side.base) && OwnedChanges(owner, id, S.Told(side)) && OwnedPending(owner, side.thread.feed)
  }

  function Original(index: Index, side: S.Side, id: u64): Option<ThreadData> {
    if id in index.threads then Some(side.base) else None
  }

  function SentBy(side: S.Side, id: u64): seq<Change> {
    ChangesOf(side.sent, id)
  }

  /** What the index has applied of a feed's sets, and what is queued, are together what the feed sent. */
  ghost predicate Arrives(index: Index, side: S.Side, id: u64) {
    && Conserved(index, SentBy(side, id), Original(index, side, id), id)
    && |MessagesOf(side.sent, id)| == |SentBy(side, id)|
    && MessagesOf(index.queued, id) == MessagesOf(side.sent, id)[|SentBy(side, id)| - |ChangesOf(index.queued, id)|..]
  }

  ghost predicate SideInv(owner: Owner, index: Index, id: u64, side: S.Side) {
    side.thread.feed.thread == id && S.Inv(side) && OwnedSide(owner, id, side) && Arrives(index, side, id)
  }

  ghost predicate Queue(index: Index, sides: map<u64, S.Side>) {
    forall cs | cs in index.queued :: cs.sourceFeed in sides && |cs.message| == |cs.changes|
  }

  ghost predicate OwnedThreads(owner: Owner, ts: Threads) {
    forall id | id in ts :: OwnedPosts(owner, id, ts[id])
  }

  ghost predicate Inv(owner: Owner, s: System) {
    && R.Inv(s.index) && Queue(s.index.index, s.sides) && OwnedThreads(owner, s.index.index.threads)
    && forall id | id in s.sides :: SideInv(owner, s.index.index, id, s.sides[id])
  }

  // ----- the index's queue can be followed -----

  ghost predicate Streams(owner: Owner, ts: Threads, sets: seq<ChangeSet>) {
    && OwnedThreads(owner, ts) && (forall cs | cs in sets :: |cs.message| == |cs.changes|)
    && forall id | id in ts ::
         AllTell(ts[id], MessagesOf(sets, id), ChangesOf(sets, id)) && OwnedChanges(owner, id, ChangesOf(sets, id))
  }

  lemma OthersPosts(owner: Owner, ts: Threads, id: u64, p: u64)
    requires OwnedThreads(owner, ts) && owner(p) == id
    ensures R.OnlyIn(ts, id, p)
  {
  }

  lemma OwnedApply(owner: Owner, id: u64, t: ThreadData, c: Change)
    requires OwnedPosts(owner, id, t) && owner(R.PostChanged(c)) == id
    ensures OwnedPosts(owner, id, Apply(t, c))
  {
  }

  lemma {:induction false} OwnedAll(owner: Owner, id: u64, t: ThreadData, cs: seq<Change>)
    requires OwnedPosts(owner, id, t) && OwnedChanges(owner, id, cs)
    ensures OwnedPosts(owner, id, ApplyAll(t, cs))
    decreases |cs|
  {
    hide OwnedPosts, Apply;
    if cs != [] {
      assert cs[0] in cs;
      OwnedApply(owner, id, t, cs[0]);
      OwnedAll(owner, id, Apply(t, cs[0]), cs[1..]);
    }
  }

  /** What tells a thread's changes announces them on the index: no other thread has the posts. */
  lemma {:induction false} SetAnnounced(owner: Owner, ts: Threads, id: u64, ms: seq<ServerMsg>, cs: seq<Change>)
    requires id in ts && OwnedThreads(owner, ts) && OwnedChanges(owner, id, cs) && AllTell(ts[id], ms, cs)
    ensures R.Announces(ts, id, ms, cs)
    decreases |cs|
  {
    hide OwnedThreads, Tells, Apply, R.OnlyIn;
    if cs != [] {
      var c := cs[0];
      assert c in cs;
      OthersPosts(owner, ts, id, R.PostChanged(c));
      var ts1 := ts[id := Apply(ts[id], c)];
      OneOwned(owner, ts, id, c);
      SetAnnounced(owner, ts1, id, ms[1..], cs[1..]);
    }
  }

  lemma OneOwned(owner: Owner, ts: Threads, id: u64, c: Change)
    requires id in ts && OwnedThreads(owner, ts) && owner(R.PostChanged(c)) == id
    ensures OwnedThreads(owner, ts[id := Apply(ts[id], c)])
  {
    hide Apply;
    OwnedApply(owner, id, ts[id], c);
  }

  lemma AllOwned(owner: Owner, ts: Threads, id: u64, cs: seq<Change>)
    requires id in ts && OwnedThreads(owner, ts) && OwnedChanges(owner, id, cs)
    ensures OwnedThreads(owner, ts[id := ApplyAll(ts[id], cs)])
  {
    hide ApplyAll;
    OwnedAll(owner, id, ts[id], cs);
  }

  /** The streams of the threads once the first set has been taken from the queue. */
  lemma NextStreams(owner: Owner, ts: Threads, sets: seq<ChangeSet>)
    requires Streams(owner, ts, sets) && sets != []
    ensures var cs := sets[0];
            if cs.sourceFeed in ts
            then
              && AllTell(ts[cs.sourceFeed], cs.message, cs.changes) && OwnedChanges(owner, cs.sourceFeed, cs.changes)
              && Streams(owner, ts[cs.sourceFeed := ApplyAll(ts[cs.sourceFeed], cs.changes)], sets[1..])
            else Streams(owner, ts, sets[1..])
  {
    hide AllTell, ApplyAll, OwnedThreads;
    var cs := sets[0];
    assert cs in sets;
    var src := cs.sourceFeed;
    forall id | id in ts
      ensures id != src ==> MessagesOf(sets, id) == MessagesOf(sets[1..], id) && ChangesOf(sets, id) == ChangesOf(sets[1..], id)
      ensures id == src ==>
                && MessagesOf(sets, id) == cs.message + MessagesOf(sets[1..], id)
                && ChangesOf(sets, id) == cs.changes + ChangesOf(sets[1..], id)
    {
      assert [] + MessagesOf(sets[1..], id) == MessagesOf(sets[1..], id);
      assert [] + ChangesOf(sets[1..], id) == ChangesOf(sets[1..], id);
    }
    hide MessagesOf, ChangesOf;
    if src in ts {
      AllTellConcat(ts[src], cs.message, cs.changes, MessagesOf(sets[1..], src), ChangesOf(sets[1..], src));
      OwnedParts(owner, src, cs.changes, ChangesOf(sets[1..], src));
      AllOwned(owner, ts, src, cs.changes);
    }
  }

  lemma OwnedParts(owner: Owner, id: u64, a: seq<Change>, b: seq<Change>)
    ensures OwnedChanges(owner, id, a + b) <==> OwnedChanges(owner, id, a) && OwnedChanges(owner, id, b)
  {
    if OwnedChanges(owner, id, a + b) {
      forall c | c in a ensures owner(R.PostChanged(c)) == id {
        assert c in a + b;
      }
      forall c | c in b ensures owner(R.PostChanged(c)) == id {
        assert c in a + b;
      }
    }
  }

  lemma {:induction false} QueueAnnounced(owner: Owner, ts: Threads, sets: seq<ChangeSet>)
    requires Streams(owner, ts, sets)
    ensures R.AllAnnounce(ts, sets)
    decreases |sets|
  {
    hide Streams, AllTell, ApplyAll, R.Announces, OwnedChanges;
    if sets != [] {
      var cs := sets[0];
      NextStreams(owner, ts, sets);
      StreamsOwn(owner, ts, sets);
      if cs.sourceFeed in ts {
        SetAnnounced(owner, ts, cs.sourceFeed, cs.message, cs.changes);
        QueueAnnounced(owner, ts[cs.sourceFeed := ApplyAll(ts[cs.sourceFeed], cs.changes)], sets[1..]);
      } else {
        QueueAnnounced(owner, ts, sets[1..]);
      }
    }
  }

  lemma StreamsOwn(owner: Owner, ts: Threads, sets: seq<ChangeSet>)
    requires Streams(owner, ts, sets)
    ensures OwnedThreads(owner, ts)
  {
  }

  lemma {:induction false} NoneFrom(sets: seq<ChangeSet>, id: u64)
    requires forall cs | cs in sets :: cs.sourceFeed != id
    ensures ChangesOf(sets, id) == [] && MessagesOf(sets, id) == []
  {
    if sets != [] {
      assert sets[0] in sets;
      NoneFrom(sets[1..], id);
    }
  }

  lemma ThreadStream(owner: Owner, index: Index, id: u64, side: S.Side)
    requires SideInv(owner, index, id, side) && id in index.threads
    ensures AllTell(index.threads[id], MessagesOf(index.queued, id), ChangesOf(index.queued, id))
    ensures OwnedChanges(owner, id, ChangesOf(index.queued, id))
  {
    hide AllTell, ApplyAll, ChangesOf, MessagesOf, S.Agree, C.Inv;
    var cs, ms := SentBy(side, id), MessagesOf(side.sent, id);
    var n := |cs| - |ChangesOf(index.queued, id)|;
    assert cs == cs[..n] + cs[n..] && ms == ms[..n] + ms[n..];
    assert S.Told(side) == cs[..n] + cs[n..] + [] + side.announced.changes;
    assert S.ToldMessages(side) == ms[..n] + ms[n..] + [] + side.announced.messages;
    S.Middle(side.base, ms[..n], cs[..n], ms[n..], cs[n..], [], [], side.announced.messages, side.announced.changes);
    OwnedParts(owner, id, cs, side.announced.changes);
    OwnedParts(owner, id, cs[..n], cs[n..]);
  }

  lemma QueueStreams(owner: Owner, s: System)
    requires Inv(owner, s)
    ensures Streams(owner, s.index.index.threads, s.index.index.queued)
  {
    hide AllTell, SideInv, OwnedThreads, OwnedChanges, ChangesOf, MessagesOf, R.Inv;
    var ts, queued := s.index.index.threads, s.index.index.queued;
    forall id | id in ts
      ensures AllTell(ts[id], MessagesOf(queued, id), ChangesOf(queued, id))
      ensures OwnedChanges(owner, id, ChangesOf(queued, id))
    {
      if id in s.sides {
        ThreadStream(owner, s.index.index, id, s.sides[id]);
      } else {
        NoneFrom(queued, id);
        NothingTold(owner, id, ts[id]);
      }
    }
  }

  lemma NothingTold(owner: Owner, id: u64, t: ThreadData)
    ensures AllTell(t, [], []) && OwnedChanges(owner, id, [])
  {
  }

  /** Whenever the index pulses, every message it is about to send announces the change beside it, and
      every patch was made against the body it shows. */
  lemma PulseFollows(owner: Owner, s: System)
    requires Inv(owner, s)
    ensures R.Sound(s.index, R.Pulse)
  {
    hide Inv, Streams, R.AllAnnounce;
    QueueStreams(owner, s);
    QueueAnnounced(owner, s.index.index.threads, s.index.index.queued);
  }

  // ----- every step keeps the invariant -----

  lemma {:induction false} UnknownMessages(keys: set<u64>, sets: seq<ChangeSet>, id: u64)
    ensures MessagesOf(Unknown(keys, sets), id) == if id in keys then [] else MessagesOf(sets, id)
    ensures forall cs | cs in Unknown(keys, sets) :: cs in sets
  {
    if sets != [] {
      UnknownMessages(keys, sets[1..], id);
      var rest := Unknown(keys, sets[1..]);
      if sets[0].sourceFeed in keys {
        assert [] + rest == rest && [] + MessagesOf(sets[1..], id) == MessagesOf(sets[1..], id);
      } else {
        assert ([sets[0]] + rest)[1..] == rest;
      }
    }
  }

  lemma PulseArrives(index: Index, side: S.Side, id: u64)
    requires Arrives(index, side, id)
    ensures Arrives(Step(index, Pulsed), side, id)
  {
    hide ApplyAll, ChangesOf, MessagesOf, Unknown, ApplySets, Conserved;
    PulseOne(index, SentBy(side, id), Original(index, side, id), id);
    PulseOnThread(index.threads, index.queued, id);
    UnknownMessages(index.threads.Keys, index.queued, id);
    assert MessagesOf(side.sent, id)[|SentBy(side, id)|..] == [];
  }

  lemma PulseOwned(owner: Owner, s: System)
    requires Inv(owner, s)
    ensures OwnedThreads(owner, ApplySets(s.index.index.threads, s.index.index.queued))
  {
    hide ApplyAll, ChangesOf, MessagesOf, ApplySets, AllTell, OwnedPosts, OwnedChanges, R.Inv, SideInv;
    var ts, queued := s.index.index.threads, s.index.index.queued;
    QueueStreams(owner, s);
    forall id | id in ts ensures OwnedPosts(owner, id, ApplySets(ts, queued)[id]) {
      PulseOnThread(ts, queued, id);
      OwnedAll(owner, id, ts[id], ChangesOf(queued, id));
    }
  }

  lemma PulseKeeps(owner: Owner, s: System)
    requires Inv(owner, s)
    ensures Inv(owner, Next(s, IndexStep(R.Pulse)))
  {
    hide R.Inv, R.Sound, Arrives, S.Inv, OwnedSide, OwnedThreads, ApplySets, Unknown;
    PulseFollows(owner, s);
    R.StepKeeps(s.index, R.Pulse);
    PulseOwned(owner, s);
    UnknownMessages(s.index.index.threads.Keys, s.index.index.queued, 0);
    forall id | id in s.sides ensures Arrives(Step(s.index.index, Pulsed), s.sides[id], id) {
      assert SideInv(owner, s.index.index, id, s.sides[id]);
      PulseArrives(s.index.index, s.sides[id], id);
    }
  }

  lemma ReaderKeeps(owner: Owner, s: System, e: R.Event)
    requires Inv(owner, s) && Sound(owner, s, IndexStep(e)) && !e.Pulse?
    ensures Inv(owner, Next(s, IndexStep(e)))
  {
    hide R.Inv, SideInv, Queue, OwnedThreads;
    R.StepKeeps(s.index, e);
  }

  lemma ListKeeps(owner: Owner, s: System, id: u64, now: u32, subject: string, tags: seq<string>, opts: PostOpts)
    requires Inv(owner, s) && Sound(owner, s, ListThread(id, now, subject, tags, opts))
    ensures Inv(owner, Next(s, ListThread(id, now, subject, tags, opts)))
  {
    hide R.Inv, S.Inv, ApplyAll, ChangesOf, MessagesOf, Conserved;
    var t := NewThread(id, now, subject, tags, opts);
    var ts := s.index.index.threads;
    assert SideInv(owner, s.index.index, id, s.sides[id]);
    assert id in t.posts;
    OthersPosts(owner, ts, id, id);
    R.StepKeeps(s.index, R.AddThread(id, now, subject, tags, opts));
    forall i | i in s.sides ensures Arrives(Step(s.index.index, ThreadAdded(t)), s.sides[i], i) {
      assert SideInv(owner, s.index.index, i, s.sides[i]);
      AddOne(s.index.index, t, SentBy(s.sides[i], i), Original(s.index.index, s.sides[i], i), i);
    }
  }

  lemma OpenKeeps(owner: Owner, s: System, id: u64, f: Feed, base: ThreadData)
    requires Inv(owner, s) && Sound(owner, s, OpenThread(id, f, base))
    ensures Inv(owner, Next(s, OpenThread(id, f, base)))
  {
    hide R.Inv, S.Inv, S.Init, ApplyAll, Conserved, OwnedThreads;
    var side := NewSide(f, base);
    S.InitInv(side);
    NoneFrom(s.index.index.queued, id);
    AreConserved(s.index.index, [], [], None, id);
    assert S.Told(side) == [];
    forall i | i in s.sides ensures SideInv(owner, s.index.index, i, s.sides[i]) {
    }
  }

  // ----- a step of a feed -----

  lemma PendingStays(owner: Owner, s: C.System, e: C.Event)
    requires OwnedPending(owner, s.feed) && OwnedEvent(owner, s.feed.thread, e)
    ensures OwnedPending(owner, C.Next(s, e).feed)
  {
    hide C.Deliver, FetchPage, BeforeDiff;
    match e
    case Fetch(page, c, db) =>
      if !C.Panics(s.feed, page) {
        FetchPending(s.feed, page, c, db);
      }
    case PulseWith(ch) => assert AfterDiff(s.feed, ch).pendingBodies == map[];
    case Close(page, id, body, db) => ClosePending(owner, s.feed, page, id, body, db);
    case SetBodyOf(page, id, text) => SetBodyPending(owner, s.feed, page, id, text);
    case Insert(req, now, db) => assert InsertPost(s.feed, req, now, db).pendingBodies == s.feed.pendingBodies;
    case _ =>
  }

  lemma FetchPending(f: Feed, page: int, c: ClientID, db: Posts)
    requires !C.Panics(f, page)
    ensures FetchPage(f, page, c, db).0.pendingBodies == f.pendingBodies && FetchPage(f, page, c, db).0.thread == f.thread
  {
  }

  lemma ClosePending(owner: Owner, f: Feed, page: PageID, id: u64, body: Node, db: Posts)
    requires OwnedPending(owner, f)
    ensures OwnedPending(owner, ClosePost(f, page, id, body, db))
  {
  }

  lemma SetBodyPending(owner: Owner, f: Feed, page: PageID, id: u64, text: string)
    requires OwnedPending(owner, f) && owner(id) == f.thread
    ensures OwnedPending(owner, SetBody(f, page, id, text))
  {
  }

  lemma {:induction false} SharedOwned(owner: Owner, g: Global, feed: u64, batch: seq<TF.Mutation>, recent: u64)
    requires OwnedChanges(owner, feed, g.changes) && forall m | m in batch :: owner(m.id) == feed
    ensures OwnedChanges(owner, feed, TF.Shared(g, feed, batch, recent).changes)
    decreases |batch|
  {
    if batch != [] {
      assert batch[|batch| - 1] in batch;
      SharedOwned(owner, g, feed, batch[..|batch| - 1], recent);
    }
  }

  lemma BatchOwned(owner: Owner, f: Feed, ch: PulseChoice, batch: seq<TF.Mutation>)
    requires OwnedPending(owner, f) && TF.Parsed(BeforeDiff(f, ch), ch.parse, batch)
    ensures forall m | m in batch :: owner(m.id) == f.thread
  {
    assert BeforeDiff(f, ch).pendingBodies == f.pendingBodies;
    forall m | m in batch ensures owner(m.id) == f.thread {
      var page :| TF.ParsedAt(BeforeDiff(f, ch), ch.parse, page, m);
    }
  }

  lemma AnnouncedOwned(owner: Owner, side: S.Side, e: S.Event)
    requires OwnedPending(owner, side.thread.feed) && OwnedEvent(owner, side.thread.feed.thread, e.event)
    requires S.Sound(side, e) && OwnedChanges(owner, side.thread.feed.thread, side.announced.changes)
    ensures OwnedChanges(owner, side.thread.feed.thread, S.Announced(side, e).changes)
  {
    hide C.Sound, S.Closes, InsertPost, BeforeDiff, TF.Parsed, TF.Announce, S.Current, S.Shown;
    if e.event.PulseWith? {
      BatchOwned(owner, side.thread.feed, e.event.choice, e.batch);
      SharedOwned(owner, side.announced, side.thread.feed.thread, e.batch, e.recent);
    }
  }

  /** What a step of a feed sends: nothing, or one set of its own. */
  lemma StepSends(owner: Owner, side: S.Side, e: S.Event)
    requires S.Inv(side) && S.Sound(side, e) && S.KeepsBack(side, e)
    requires OwnedSide(owner, side.thread.feed.thread, side) && OwnedEvent(owner, side.thread.feed.thread, e.event)
    ensures var side' := S.Next(side, e); var th := side.thread.feed.thread;
            && S.Inv(side') && side'.thread.feed.thread == th && side'.base == side.base
            && OwnedSide(owner, th, side')
            && |side.sent| <= |side'.sent| <= |side.sent| + 1 && side'.sent[..|side.sent|] == side.sent
            && (forall cs | cs in side'.sent[|side.sent|..] :: cs.sourceFeed == th && |cs.message| == |cs.changes|)
  {
    hide C.Inv, C.Next, C.Sound, S.Agree, S.Sound, S.KeepsBack, S.Inv, AllTell, OwnedPosts;
    var side', th := S.Next(side, e), side.thread.feed.thread;
    S.StepKeeps(side, e);
    S.ThreadStays(side.thread, e.event);
    PendingStays(owner, side.thread, e.event);
    OwnedParts(owner, th, ChangesOf(side.sent, th), side.announced.changes);
    AnnouncedOwned(owner, side, e);
    var g := S.Announced(side, e);
    if e.event.PulseWith? {
      var more := TF.Flushed(th, g);
      ChangesConcat(side.sent, more, th);
      FlushedChanges(th, g);
      OwnedParts(owner, th, ChangesOf(side.sent, th), ChangesOf(more, th));
      assert S.Told(side') == ChangesOf(side'.sent, th);
      assert side'.sent[|side.sent|..] == more;
      SideFollows(side');
      assert forall cs | cs in more :: cs in side'.sent;
    } else {
      OwnedParts(owner, th, ChangesOf(side.sent, th), g.changes);
    }
  }

  lemma FlushedChanges(thread: u64, g: Global)
    ensures ChangesOf(TF.Flushed(thread, g), thread) == g.changes
  {
    if g.changes != [] {
      S.OneSetIs(ChangeSet(thread, g.messages, g.changes), thread);
    }
  }

  lemma SideFollows(side: S.Side)
    requires S.Inv(side)
    ensures S.FromFeed(side.thread.feed.thread, side.sent) && |side.announced.messages| == |side.announced.changes|
  {
  }

  /** A set queued for one thread is nothing to the others. */
  lemma QueuedArrives(index: Index, side: S.Side, side': S.Side, id: u64, cs: ChangeSet)
    requires Arrives(index, side, id) && side'.base == side.base
    requires side'.sent == side.sent + if cs.sourceFeed == id then [cs] else []
    requires |cs.message| == |cs.changes|
    ensures Arrives(index.(queued := index.queued + [cs]), side', id)
  {
    hide Conserved, ApplyAll, ChangesOf, MessagesOf;
    QueueOne(index, cs, SentBy(side, id), Original(index, side, id), id);
    QueuedStreams(index, cs, id);
    var n := |SentBy(side, id)| - |ChangesOf(index.queued, id)|;
    ConservedBounds(index, SentBy(side, id), Original(index, side, id), id);
    if cs.sourceFeed == id {
      ChangesConcat(side.sent, [cs], id);
      MessagesConcat(side.sent, [cs], id);
      S.OneSetIs(cs, id);
      var ms := MessagesOf(side.sent, id);
      assert (ms + cs.message)[n..] == ms[n..] + cs.message;
    } else {
      assert side'.sent == side.sent && SentBy(side, id) + [] == SentBy(side, id);
    }
  }

  lemma ConservedBounds(index: Index, sent: seq<Change>, original: Option<ThreadData>, id: u64)
    requires Conserved(index, sent, original, id)
    ensures |ChangesOf(index.queued, id)| <= |sent|
  {
    hide ApplyAll, ChangesOf;
  }

  lemma QueuedStreams(index: Index, cs: ChangeSet, id: u64)
    ensures ChangesOf(index.queued + [cs], id) == ChangesOf(index.queued, id) + if cs.sourceFeed == id then cs.changes else []
    ensures MessagesOf(index.queued + [cs], id) == MessagesOf(index.queued, id) + if cs.sourceFeed == id then cs.message else []
  {
    ChangesConcat(index.queued, [cs], id);
    MessagesConcat(index.queued, [cs], id);
    if cs.sourceFeed == id {
      S.OneSetIs(cs, id);
    } else {
      NoneFrom([cs], id);
    }
  }

  lemma FeedKeeps(owner: Owner, s: System, id: u64, step: S.Event)
    requires Inv(owner, s) && Sound(owner, s, FeedStep(id, step))
    ensures Inv(owner, Next(s, FeedStep(id, step)))
  {
    hide R.Inv, S.Inv, S.Next, S.Sound, S.KeepsBack, OwnedSide, OwnedThreads, Arrives;
    var side := s.sides[id];
    assert SideInv(owner, s.index.index, id, side);
    StepSends(owner, side, step);
    var side' := S.Next(side, step);
    var more := side'.sent[|side.sent|..];
    var s' := Next(s, FeedStep(id, step));
    assert side'.sent == side.sent + more;
    if more == [] {
      SentSame(s.index.index, side, side', id);
      assert forall i | i in s.sides :: SideInv(owner, s.index.index, i, s.sides[i]);
    } else {
      var cs := more[0];
      assert more == [cs] && cs in more;
      R.StepKeeps(s.index, R.Receive(cs));
      assert s'.index.index == s.index.index.(queued := s.index.index.queued + [cs]);
      forall i | i in s'.sides ensures Arrives(s'.index.index, s'.sides[i], i) {
        assert SideInv(owner, s.index.index, i, s.sides[i]);
        QueuedArrives(s.index.index, s.sides[i], s'.sides[i], i, cs);
      }
      assert forall i | i in s.sides :: SideInv(owner, s.index.index, i, s.sides[i]);
    }
  }

  lemma SentSame(index: Index, a: S.Side, b: S.Side, id: u64)
    requires Arrives(index, a, id) && b.sent == a.sent && b.base == a.base
    ensures Arrives(index, b, id)
  {
    hide Conserved, ChangesOf, MessagesOf;
  }

  lemma StepKeeps(owner: Owner, s: System, e: Event)
    requires Inv(owner, s) && Sound(owner, s, e)
    ensures Inv(owner, Next(s, e))
  {
    hide Inv, Sound, Next;
    match e
    case OpenThread(id, f, base) => OpenKeeps(owner, s, id, f, base);
    case ListThread(id, now, subject, tags, opts) => ListKeeps(owner, s, id, now, subject, tags, opts);
    case FeedStep(id, step) => FeedKeeps(owner, s, id, step);
    case IndexStep(event) =>
      if event.Pulse? {
        PulseKeeps(owner, s);
      } else {
        ReaderKeeps(owner, s, event);
      }
  }

  lemma InitInv(owner: Owner, s: System)
    requires Init(owner, s)
    ensures Inv(owner, s)
  {
    hide S.Init, S.Inv, R.Inv;
    IndexStarts(s.index);
    forall id | id in s.sides ensures SideInv(owner, s.index.index, id, s.sides[id]) {
      var side := s.sides[id];
      S.InitInv(side);
      NothingSentYet(side);
      AreConserved(s.index.index, [], [], Some(side.base), id);
    }
  }

  lemma NothingSentYet(side: S.Side)
    requires S.Init(side)
    ensures side.sent == [] && S.Told(side) == []
  {
  }

  lemma IndexStarts(index: R.System)
    requires R.Init(index)
    ensures R.Inv(index) && index.index.queued == []
  {
  }

  lemma {:induction false} RunKeeps(owner: Owner, states: seq<System>, events: seq<Event>, k: nat)
    requires Run(owner, states, events) && k <= |events|
    ensures Inv(owner, states[k])
  {
    hide Inv, Init, Sound, Next;
    if k == 0 {
      InitInv(owner, states[0]);
    } else {
      RunKeeps(owner, states, events, k - 1);
      assert Sound(owner, states[k - 1], events[k - 1]) && states[k - 1 + 1] == Next(states[k - 1], events[k - 1]);
      StepKeeps(owner, states[k - 1], events[k - 1]);
    }
  }

  // ----- what readers of the index see -----

  /** A post of the feed, as anybody who reads the index shows it. */
  ghost predicate ShowsFeed(f: Feed, t: ThreadData, withheld: set<u64>, posts: Posts) {
    forall page, id | page in f.pages && id in PostsOn(f, page) && id in t.posts && id !in withheld ::
      id in posts && S.SameText(posts[id], PostsOn(f, page)[id])
  }

  /** In every run, at each pulse of the index what it announces can be followed; and after it every
      client that has taken over a catalog shows the body and the open flag of every post the index has
      of a thread whose feed has announced nothing since its own pulse, as that feed has them, but for
      posts of which an edit was withheld. */
  lemma FeedsToReaders(owner: Owner, states: seq<System>, events: seq<Event>, k: nat, c: ClientID, id: u64)
    requires Run(owner, states, events) && k < |events| && events[k] == IndexStep(R.Pulse)
    requires c in states[k].index.subscribed && id in states[k].sides && id in states[k].index.index.threads
    ensures R.Sound(states[k].index, R.Pulse)
    ensures c in states[k + 1].index.readers && id in states[k + 1].sides && id in states[k + 1].index.index.threads
    ensures states[k + 1].index.readers[c].synced && states[k + 1].sides[id].announced.changes == [] ==>
              ShowsFeed(states[k + 1].sides[id].thread.feed, states[k + 1].index.index.threads[id],
                        states[k + 1].sides[id].withheld, states[k + 1].index.readers[c].client.posts)
  {
    hide Inv, Init, Sound, Next, R.Sound, R.AfterPulse, ShowsFeed;
    RunKeeps(owner, states, events, k);
    RunKeeps(owner, states, events, k + 1);
    assert Sound(owner, states[k], events[k]) && states[k + 1] == Next(states[k], events[k]);
    PulseFollows(owner, states[k]);
    PulseShows(owner, states[k], c, id);
  }

  lemma PulseShows(owner: Owner, s: System, c: ClientID, id: u64)
    requires Inv(owner, s) && R.Sound(s.index, R.Pulse)
    requires c in s.index.subscribed && id in s.sides && id in s.index.index.threads
    ensures var s' := Next(s, IndexStep(R.Pulse));
            && c in s'.index.readers && id in s'.sides && id in s'.index.index.threads
            && (s'.index.readers[c].synced && s'.sides[id].announced.changes == [] ==>
                  ShowsFeed(s'.sides[id].thread.feed, s'.index.index.threads[id], s'.sides[id].withheld,
                            s'.index.readers[c].client.posts))
  {
    hide R.Inv, R.Sound, R.AfterPulse, ApplySets, Unknown, SideInv, OwnedThreads, Queue;
    var s' := Next(s, IndexStep(R.Pulse));
    R.ReaderPulsed(s.index, c);
    ReadersKept(s.index, c);
    assert SideInv(owner, s.index.index, id, s.sides[id]);
    if s'.index.readers[c].synced && s'.sides[id].announced.changes == [] {
      AllApplied(owner, s.index.index, id, s.sides[id]);
      InStepShows(s'.sides[id].thread.feed, s'.index.index.threads, id, s'.sides[id].withheld, s'.index.readers[c].client.posts);
    }
  }

  lemma ReadersKept(index: R.System, c: ClientID)
    requires R.Inv(index) && c in index.subscribed
    ensures c in index.readers && c in R.Next(index, R.Pulse).readers
    ensures R.Next(index, R.Pulse).readers[c] == R.AfterPulse(index, c)
  {
    hide R.AfterPulse;
  }

  /** With nothing announced but not flushed, after a pulse the index shows all the feed has told it. */
  lemma AllApplied(owner: Owner, index: Index, id: u64, side: S.Side)
    requires SideInv(owner, index, id, side) && id in index.threads && side.announced.changes == []
    ensures ApplySets(index.threads, index.queued)[id] == S.Shown(side)
    ensures S.Agree(side.thread.feed, S.Shown(side), side.withheld)
  {
    hide ApplyAll, ChangesOf, MessagesOf, ApplySets, Unknown, C.Inv, S.Agree, S.Follows;
    PulseOnThread(index.threads, index.queued, id);
    var sent := SentBy(side, id);
    var n := |sent| - |ChangesOf(index.queued, id)|;
    ApplyAllConcat(side.base, sent[..n], sent[n..]);
    assert sent[..n] + sent[n..] == sent && S.Told(side) == sent + [] == sent;
  }

  lemma InStepShows(f: Feed, ts: Threads, id: u64, withheld: set<u64>, posts: Posts)
    requires id in ts && R.InStep(ts, [], posts) && S.Agree(f, ts[id], withheld)
    ensures ShowsFeed(f, ts[id], withheld, posts)
  {
    forall page, p | page in f.pages && p in PostsOn(f, page) && p in ts[id].posts && p !in withheld
      ensures p in posts && S.SameText(posts[p], PostsOn(f, page)[p])
    {
      assert posts[p] == ts[id].posts[p];
    }
  }

  // ----- every edit shared -----

  /** The lowest recent id is never above the thread's own, as with ids kept the way `LastFive` keeps them. */
  ghost predicate LowRecent(events: seq<Event>) {
    forall k | 0 <= k < |events| && events[k].FeedStep? :: events[k].step.recent <= events[k].id
  }

  /** A thread has the lowest id of its posts: it is that of the post that opened it. */
  ghost predicate PostsFollow(owner: Owner) {
    forall p :: owner(p) <= p
  }

  lemma StepShares(owner: Owner, side: S.Side, e: S.Event)
    requires PostsFollow(owner) && OwnedPending(owner, side.thread.feed)
    requires OwnedEvent(owner, side.thread.feed.thread, e.event) && S.Sound(side, e)
    requires e.recent <= side.thread.feed.thread && side.withheld == {}
    ensures S.Next(side, e).withheld == {} && S.KeepsBack(side, e)
  {
    hide C.Next, C.Sound, S.Closes, BeforeDiff, TF.Parsed, TF.Announce, S.Current, S.Shown, TF.Shared;
    var th := side.thread.feed.thread;
    if e.event.PulseWith? {
      BatchOwned(owner, side.thread.feed, e.event.choice, e.batch);
      assert S.Kept(th, e.batch, e.recent) == {};
    }
  }

  /** With all recent ids that low no edit is ever withheld, and the condition on sharing holds of itself. */
  lemma {:induction false} NothingWithheld(owner: Owner, states: seq<System>, events: seq<Event>, k: nat)
    requires Run(owner, states, events) && LowRecent(events) && PostsFollow(owner) && k <= |events|
    ensures forall id | id in states[k].sides :: states[k].sides[id].withheld == {}
  {
    hide SideInv, S.Next, S.Sound, S.Init, OwnedEvent, OwnedPosts, PostsFollow, Queue, OwnedThreads, R.Inv, R.Next;
    if k > 0 {
      NothingWithheld(owner, states, events, k - 1);
      RunKeeps(owner, states, events, k - 1);
      var s, e := states[k - 1], events[k - 1];
      assert Sound(owner, s, e) && states[k - 1 + 1] == Next(s, e);
      if e.FeedStep? {
        assert SideInv(owner, s.index.index, e.id, s.sides[e.id]);
        SidePending(owner, s.index.index, e.id, s.sides[e.id]);
        StepShares(owner, s.sides[e.id], e.step);
      }
    } else {
      assert forall id | id in states[0].sides :: S.Init(states[0].sides[id]);
      forall id | id in states[0].sides ensures states[0].sides[id].withheld == {} {
        InitWithholds(states[0].sides[id]);
      }
    }
  }

  lemma InitWithholds(side: S.Side)
    requires S.Init(side)
    ensures side.withheld == {}
  {
  }

  lemma SidePending(owner: Owner, index: Index, id: u64, side: S.Side)
    requires SideInv(owner, index, id, side)
    ensures side.thread.feed.thread == id && OwnedPending(owner, side.thread.feed)
  {
  }

  /** So after each pulse of the index every client with a catalog shows all that the index has of a thread
      whose feed has been flushed as the feed has it. */
  lemma FeedsToAllReaders(owner: Owner, states: seq<System>, events: seq<Event>, k: nat, c: ClientID, id: u64)
    requires Run(owner, states, events) && LowRecent(events) && PostsFollow(owner)
    requires k < |events| && events[k] == IndexStep(R.Pulse)
    requires c in states[k].index.subscribed && id in states[k].sides && id in states[k].index.index.threads
    ensures c in states[k + 1].index.readers && id in states[k + 1].sides && id in states[k + 1].index.index.threads
    ensures states[k + 1].index.readers[c].synced && states[k + 1].sides[id].announced.changes == [] ==>
              ShowsFeed(states[k + 1].sides[id].thread.feed, states[k + 1].index.index.threads[id], {},
                        states[k + 1].index.readers[c].client.posts)
  {
    hide Init, Sound, Next, R.Sound, ShowsFeed, PostsFollow, LowRecent;
    FeedsToReaders(owner, states, events, k, c, id);
    NothingWithheld(owner, states, events, k + 1);
  }
}
