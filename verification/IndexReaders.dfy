/** Clients of the thread index: catalogs, new threads and change sets keep them in step with it. */
module IndexReaders {
  import opened MachineInts
  import opened PostBody
  import opened Messages
  import opened ThreadIndex
  import R = Replica

  /** A client, and whether it has taken over a catalog since it subscribed. */
  datatype Reader = Reader(client: R.Client, synced: bool)

  /** The index, the threads to be announced at the next pulse, whether a catalog is cached, the fetches
      that wait, and the clients. */
  datatype System = System(
    index: Index, fresh': seq<ThreadData>, cached: bool, deferred: seq<ClientID>,
    subscribed: set<ClientID>, readers: map<ClientID, Reader>)

  datatype Event =
    | Subscribe(client: ClientID, state: R.Client)
    | Unsubscribe(client: ClientID)
    | Fetch(client: ClientID)
    | AddThread(id: u64, now: u32, subject: string, tags: seq<string>, opts: PostOpts)
    | Receive(set': ChangeSet)
    | Pulse

  // ----- what a client does -----

  function PostIds(ts: Threads): set<u64> {
    set id, p | id in ts && p in ts[id].posts :: p
  }

  ghost function PostOf(ts: Threads, p: u64): Post
    requires p in PostIds(ts)
  {
    var id :| id in ts && p in ts[id].posts;
    ts[id].posts[p]
  }

  ghost function AllPosts(ts: Threads): Posts {
    map p | p in PostIds(ts) :: PostOf(ts, p)
  }

  /** `register_threads`: a catalog counts only while one is awaited. */
  ghost function GetCatalog(r: Reader, ts: Threads): Reader {
    if r.client.sync.Receiving? && r.client.sync.feed == 0
    then Reader(r.client.(posts := r.client.posts + AllPosts(ts), sync := R.Synced(0, map[])), true)
    else r
  }

  /** `register_thread`, for each of the threads. */
  function AddThreads(posts: Posts, ts: seq<ThreadData>): Posts {
    if ts == [] then posts else AddThreads(posts, ts[..|ts| - 1]) + ts[|ts| - 1].posts
  }

  ghost function GetSets(c: R.Client, sets: seq<ChangeSet>): R.Client
    decreases |sets|
  {
    if sets == [] then c else GetSets(R.ReceiveAll(c, 0, sets[0].message), sets[1..])
  }

  /** The batch of a pulse. */
  ghost function GetBatch(r: Reader, fresh': seq<ThreadData>, sets: seq<ChangeSet>): Reader {
    r.(client := GetSets(r.client.(posts := AddThreads(r.client.posts, fresh')), sets))
  }

  // ----- steps -----

  /** The message announces the change, which is about no other thread's post. */
  predicate Matches(ts: Threads, feed: u64, m: ServerMsg, c: Change)
    requires feed in ts
  {
    Tells(ts[feed], m, c) && OnlyIn(ts, feed, PostChanged(c))
  }

  function PostChanged(c: Change): u64 {
    match c
    case PostInserted(p) => p.id
    case BodySet(id, _, _) => id
  }

  predicate OnlyIn(ts: Threads, feed: u64, p: u64) {
    forall id | id in ts && id != feed :: p !in ts[id].posts
  }

  /** Messages and changes of a set match one by one. */
  predicate Announces(ts: Threads, feed: u64, ms: seq<ServerMsg>, cs: seq<Change>)
    requires feed in ts
    decreases |cs|
  {
    && |ms| == |cs|
    && (cs != [] ==>
          && Matches(ts, feed, ms[0], cs[0])
          && Announces(ts[feed := Apply(ts[feed], cs[0])], feed, ms[1..], cs[1..]))
  }

  predicate AllAnnounce(ts: Threads, sets: seq<ChangeSet>)
    decreases |sets|
  {
    sets != [] ==>
      var cs := sets[0];
      if cs.sourceFeed !in ts then AllAnnounce(ts, sets[1..])
      else
        && Announces(ts, cs.sourceFeed, cs.message, cs.changes)
        && AllAnnounce(ts[cs.sourceFeed := ApplyAll(ts[cs.sourceFeed], cs.changes)], sets[1..])
  }

  predicate Sound(s: System, e: Event) {
    match e
    case Subscribe(c, _) => c !in s.subscribed
    case AddThread(id, _, _, _, _) => id !in s.index.threads && OnlyIn(s.index.threads, id, id)
    case Pulse => AllAnnounce(s.index.threads, s.index.queued)
    case _ => true
  }

  ghost function Next(s: System, e: Event): System {
    match e
    case Subscribe(c, state) => s.(subscribed := s.subscribed + {c}, readers := s.readers[c := Reader(state, false)])
    case Unsubscribe(c) => s.(subscribed := s.subscribed - {c})
    case Fetch(c) =>
      if !s.cached then s.(deferred := s.deferred + [c])
      else if c !in s.readers then s
      else s.(readers := s.readers[c := GetCatalog(s.readers[c], s.index.threads)])
    case AddThread(id, now, subject, tags, opts) =>
      var t := NewThread(id, now, subject, tags, opts);
      s.(index := Step(s.index, ThreadAdded(t)), fresh' := s.fresh' + [t], cached := false)
    case Receive(cs) => s.(index := Step(s.index, SetReceived(cs)))
    case Pulse =>
      var ts := s.index.threads;
      s.(index := Step(s.index, Pulsed), fresh' := [], deferred := [],
         // any change set taken from the queue drops the catalog
         cached := (s.cached || s.deferred != []) && s.index.queued == [],
         readers := map c | c in s.readers :: AfterPulse(s, c))
  }

  /** Deferred catalogs first, then the batch for those subscribed. */
  ghost function AfterPulse(s: System, c: ClientID): Reader
    requires c in s.readers
  {
    var ts := s.index.threads;
    var r := if c in s.deferred then GetCatalog(s.readers[c], ts) else s.readers[c];
    if c in s.subscribed then GetBatch(r, s.fresh', Known(ts.Keys, s.index.queued)) else r
  }

  ghost predicate Run(states: seq<System>, events: seq<Event>) {
    && |states| == |events| + 1
    && Init(states[0])
    && forall k | 0 <= k < |events| :: Sound(states[k], events[k]) && states[k + 1] == Next(states[k], events[k])
  }

  ghost predicate Init(s: System) {
    && s.index.queued == [] && s.fresh' == [] && !s.cached && s.deferred == []
    && s.subscribed == {} && s.readers == map[] && Unique(s.index.threads)
  }

  // ----- invariant -----

  /** A post is in one thread only. */
  ghost predicate Unique(ts: Threads) {
    forall i, j, p | i in ts && j in ts && p in ts[i].posts && p in ts[j].posts :: i == j
  }

  /** The client shows every post of the index, but for threads not announced yet. */
  ghost predicate InStep(ts: Threads, fresh': seq<ThreadData>, posts: Posts) {
    forall id, p | id in ts && p in ts[id].posts && !(exists t | t in fresh' :: t.thread.id == id) ::
      p in posts && posts[p] == ts[id].posts[p]
  }

  /** Threads not announced yet are as they were inserted. */
  ghost predicate StillNew(ts: Threads, fresh': seq<ThreadData>) {
    forall t | t in fresh' :: t.thread.id in ts && ts[t.thread.id] == t
  }

  ghost predicate Inv(s: System) {
    && Unique(s.index.threads) && StillNew(s.index.threads, s.fresh') && (s.cached ==> s.fresh' == [])
    && s.subscribed <= s.readers.Keys
    && forall c | c in s.subscribed && s.readers[c].synced ::
         InStep(s.index.threads, s.fresh', s.readers[c].client.posts)
  }

  // ----- one message, one set, all sets -----

  lemma OneChange(ts: Threads, feed: u64, m: ServerMsg, c: Change, r: R.Client)
    requires feed in ts && Unique(ts) && Matches(ts, feed, m, c) && InStep(ts, [], r.posts)
    ensures var ts' := ts[feed := Apply(ts[feed], c)];
            Unique(ts') && InStep(ts', [], R.Receive(r, 0, m).posts)
  {
    hide PatchNode;
    var ts' := ts[feed := Apply(ts[feed], c)];
    forall id, p | id in ts' && p in ts'[id].posts
      ensures p in R.Receive(r, 0, m).posts && R.Receive(r, 0, m).posts[p] == ts'[id].posts[p]
    {
      if id != feed {
        assert p in ts[id].posts;
      }
    }
  }

  lemma {:induction false} OneSet(ts: Threads, feed: u64, ms: seq<ServerMsg>, cs: seq<Change>, r: R.Client)
    requires feed in ts && Unique(ts) && Announces(ts, feed, ms, cs) && InStep(ts, [], r.posts)
    ensures var ts' := ts[feed := ApplyAll(ts[feed], cs)];
            Unique(ts') && InStep(ts', [], R.ReceiveAll(r, 0, ms).posts)
    decreases |cs|
  {
    hide Unique, InStep, Matches, R.Receive, Apply;
    if cs == [] {
      assert ts[feed := ts[feed]] == ts;
    } else {
      var ts1 := ts[feed := Apply(ts[feed], cs[0])];
      OneChange(ts, feed, ms[0], cs[0], r);
      OneSet(ts1, feed, ms[1..], cs[1..], R.Receive(r, 0, ms[0]));
      assert ts1[feed := ApplyAll(ts1[feed], cs[1..])] == ts[feed := ApplyAll(ts[feed], cs)];
    }
  }

  lemma {:induction false} AllSets(ts: Threads, sets: seq<ChangeSet>, r: R.Client)
    requires Unique(ts) && AllAnnounce(ts, sets) && InStep(ts, [], r.posts)
    ensures Unique(ApplySets(ts, sets)) && InStep(ApplySets(ts, sets), [], GetSets(r, Known(ts.Keys, sets)).posts)
    decreases |sets|
  {
    hide Unique, InStep, Announces, ApplyAll;
    if sets != [] {
      var cs := sets[0];
      if cs.sourceFeed in ts {
        OneSet(ts, cs.sourceFeed, cs.message, cs.changes, r);
        var ts1 := ts[cs.sourceFeed := ApplyAll(ts[cs.sourceFeed], cs.changes)];
        assert ts1.Keys == ts.Keys;
        AllSets(ts1, sets[1..], R.ReceiveAll(r, 0, cs.message));
        assert Known(ts.Keys, sets)[1..] == Known(ts.Keys, sets[1..]);
      } else {
        AllSets(ts, sets[1..], r);
        assert [] + Known(ts.Keys, sets[1..]) == Known(ts.Keys, sets[1..]);
      }
    }
  }

  // ----- catalogs and new threads -----

  lemma PostAt(ts: Threads, id: u64, p: u64)
    requires Unique(ts) && id in ts && p in ts[id].posts
    ensures p in AllPosts(ts) && AllPosts(ts)[p] == ts[id].posts[p]
  {
  }

  lemma CatalogCatchesUp(ts: Threads, r: Reader)
    requires Unique(ts) && r.client.sync.Receiving? && r.client.sync.feed == 0
    ensures GetCatalog(r, ts).synced && InStep(ts, [], GetCatalog(r, ts).client.posts)
  {
    hide AllPosts, Unique;
    forall id, p | id in ts && p in ts[id].posts
      ensures p in GetCatalog(r, ts).client.posts && GetCatalog(r, ts).client.posts[p] == ts[id].posts[p]
    {
      PostAt(ts, id, p);
    }
  }

  lemma {:induction false} AddThreadsAt(ts: Threads, posts: Posts, fresh': seq<ThreadData>, id: u64, p: u64)
    requires Unique(ts) && StillNew(ts, fresh') && id in ts && p in ts[id].posts
    ensures var after := AddThreads(posts, fresh');
            if exists t | t in fresh' :: t.thread.id == id
            then p in after && after[p] == ts[id].posts[p]
            else (p in after <==> p in posts) && (p in after ==> after[p] == posts[p])
  {
    if fresh' != [] {
      var last, rest := fresh'[|fresh'| - 1], fresh'[..|fresh'| - 1];
      assert last in fresh' && fresh' == rest + [last];
      AddThreadsAt(ts, posts, rest, id, p);
    }
  }

  lemma NewThreadsCatchUp(ts: Threads, fresh': seq<ThreadData>, posts: Posts)
    requires Unique(ts) && StillNew(ts, fresh') && InStep(ts, fresh', posts)
    ensures InStep(ts, [], AddThreads(posts, fresh'))
  {
    hide Unique, StillNew;
    forall id, p | id in ts && p in ts[id].posts
      ensures p in AddThreads(posts, fresh') && AddThreads(posts, fresh')[p] == ts[id].posts[p]
    {
      AddThreadsAt(ts, posts, fresh', id, p);
    }
  }

  lemma LessNew(ts: Threads, fresh': seq<ThreadData>, posts: Posts)
    requires InStep(ts, [], posts)
    ensures InStep(ts, fresh', posts)
  {
  }

  // ----- every step keeps the invariant -----

  /** After a pulse nothing is waiting to be announced, and whoever has a catalog is in step. */
  lemma ReaderPulsed(s: System, c: ClientID)
    requires Inv(s) && Sound(s, Pulse) && c in s.subscribed
    ensures var ts' := ApplySets(s.index.threads, s.index.queued);
            && c in s.readers && Unique(ts')
            && (AfterPulse(s, c).synced ==> InStep(ts', [], AfterPulse(s, c).client.posts))
            && (AfterPulse(s, c).synced <==> s.readers[c].synced || (c in s.deferred && Awaits(s.readers[c].client)))
  {
    hide Unique, InStep, StillNew, AllAnnounce, AllPosts;
    var ts := s.index.threads;
    var r := if c in s.deferred then GetCatalog(s.readers[c], ts) else s.readers[c];
    if c in s.deferred && Awaits(s.readers[c].client) {
      CatalogCatchesUp(ts, s.readers[c]);
      LessNew(ts, s.fresh', r.client.posts);
    }
    AnySets(s);
    if r.synced {
      NewThreadsCatchUp(ts, s.fresh', r.client.posts);
      AllSets(ts, s.index.queued, r.client.(posts := AddThreads(r.client.posts, s.fresh')));
    }
  }

  predicate Awaits(c: R.Client) {
    c.sync.Receiving? && c.sync.feed == 0
  }

  /** Whoever reads it, the index stays free of posts in two threads. */
  lemma AnySets(s: System)
    requires Inv(s) && Sound(s, Pulse)
    ensures Unique(ApplySets(s.index.threads, s.index.queued))
  {
    hide Unique, AllAnnounce, AllPosts;
    var ts := s.index.threads;
    var r := Reader(R.Client(map[], map[], R.Receiving(0, None, map[]), {}), false);
    CatalogCatchesUp(ts, r);
    AllSets(ts, s.index.queued, GetCatalog(r, ts).client);
  }

  lemma PulseKeeps(s: System)
    requires Inv(s) && Sound(s, Pulse)
    ensures Inv(Next(s, Pulse))
  {
    hide Unique, InStep, AfterPulse, AllAnnounce;
    AnySets(s);
    forall c | c in s.subscribed && AfterPulse(s, c).synced
      ensures InStep(ApplySets(s.index.threads, s.index.queued), [], AfterPulse(s, c).client.posts)
    {
      ReaderPulsed(s, c);
    }
  }

  lemma FetchKeeps(s: System, c: ClientID)
    requires Inv(s)
    ensures Inv(Next(s, Fetch(c)))
  {
    hide Unique, InStep, AllPosts;
    if s.cached && c in s.readers && Awaits(s.readers[c].client) {
      CatalogCatchesUp(s.index.threads, s.readers[c]);
    }
  }

  lemma AddThreadKeeps(s: System, id: u64, now: u32, subject: string, tags: seq<string>, opts: PostOpts)
    requires Inv(s) && Sound(s, AddThread(id, now, subject, tags, opts))
    ensures Inv(Next(s, AddThread(id, now, subject, tags, opts)))
  {
    var t := NewThread(id, now, subject, tags, opts);
    var ts, ts' := s.index.threads, s.index.threads[id := t];
    var new' := s.fresh' + [t];
    assert t in new';
    forall c | c in s.subscribed && s.readers[c].synced
      ensures InStep(ts', new', s.readers[c].client.posts)
    {
      forall i, p | i in ts' && p in ts'[i].posts && !(exists t | t in new' :: t.thread.id == i)
        ensures p in s.readers[c].client.posts && s.readers[c].client.posts[p] == ts'[i].posts[p]
      {
        assert i != id;
        assert forall u | u in s.fresh' :: u in new';
      }
    }
  }

  lemma StepKeeps(s: System, e: Event)
    requires Inv(s) && Sound(s, e)
    ensures Inv(Next(s, e))
  {
    match e
    case Fetch(c) => FetchKeeps(s, c);
    case AddThread(id, now, subject, tags, opts) => AddThreadKeeps(s, id, now, subject, tags, opts);
    case Pulse => PulseKeeps(s);
    case Subscribe(_, _) => hide Unique, InStep, StillNew;
    case Unsubscribe(_) => hide Unique, InStep, StillNew;
    case Receive(_) => hide Unique, InStep, StillNew;
  }

  lemma {:induction false} RunKeeps(states: seq<System>, events: seq<Event>, k: nat)
    requires Run(states, events) && k <= |events|
    ensures Inv(states[k])
  {
    hide Sound, Next, Unique;
    if k != 0 {
      RunKeeps(states, events, k - 1);
      assert Sound(states[k - 1], events[k - 1]) && states[k - 1 + 1] == Next(states[k - 1], events[k - 1]);
      StepKeeps(states[k - 1], events[k - 1]);
    }
  }

  ghost predicate ShowsAll(ts: Threads, posts: Posts) {
    forall id, p | id in ts && p in ts[id].posts :: p in posts && posts[p] == ts[id].posts[p]
  }

  /** In every run, after each pulse every client subscribed that has taken over a catalog shows every
      post of the index as the index has it, and so does one whose fetch had been waiting. */
  lemma IndexConvergence(states: seq<System>, events: seq<Event>, k: nat, c: ClientID)
    requires Run(states, events) && k < |events| && events[k].Pulse? && c in states[k].subscribed
    ensures c in states[k].readers && c in states[k + 1].readers
    ensures states[k + 1].readers[c].synced ==>
              ShowsAll(states[k + 1].index.threads, states[k + 1].readers[c].client.posts)
    ensures states[k + 1].readers[c].synced <==>
              states[k].readers[c].synced || (c in states[k].deferred && Awaits(states[k].readers[c].client))
  {
    hide Unique, StillNew, AfterPulse, AllAnnounce;
    RunKeeps(states, events, k);
    assert Sound(states[k], events[k]) && states[k + 1] == Next(states[k], events[k]);
    ReaderPulsed(states[k], c);
  }
}
