/** Clients converge to the feed: a step system of one thread feed and the clients that follow it. */
module Convergence {
  import opened MachineInts
  import opened PostBody
  import opened Iteration
  import opened Messages
  import opened FeedState
  import opened Replica
  import opened FeedInvariant
  import opened Watching

  datatype System = System(feed: Feed, subscribed: set<ClientID>, watches: map<ClientID, Watch>)

  datatype Event =
    | Subscribe(client: ClientID, state: Client)
    | Unsubscribe(client: ClientID)
    | SendMeta(client: ClientID)
    | GoTo(client: ClientID, to: Location)
    | Fetch(page: int, client: ClientID, db: Posts)
    | Insert(req: InsertReq, now: u32, db: Posts)
    | SetBodyOf(onPage: PageID, id: u64, text: string)
    | Close(onPage: PageID, id: u64, body: Node, db: Posts)
    | Freeze
    | PulseWith(choice: PulseChoice)

  // ----- steps -----

  ghost function Deliver(ws: map<ClientID, Watch>, thread: u64, ds: seq<Delivery>): map<ClientID, Watch>
    decreases |ds|
  {
    if ds == [] then ws
    else
      var d := ds[0];
      Deliver(if d.client in ws then ws[d.client := ObserveAll(ws[d.client], thread, d.msgs)] else ws, thread, ds[1..])
  }

  /** What the environment guarantees: posts read from the database belong to the page asked for and
      to no other, pages are begun one after the other, new ids are not in use on another page, and
      every body fits a patch. */
  ghost predicate Sound(s: System, e: Event) {
    match e
    // whatever it still has of other feeds, nothing has been received since it asked for this one
    case Subscribe(c, state) => c !in s.subscribed && forall k | k in HeldPages(state) :: HeldPages(state)[k].None?
    case Fetch(page, c, db) => InRange(s.feed, page) ==> SoundPage(s.feed, PageAsked(s.feed, page), db)
    case Insert(req, now, db) =>
      && SoundPage(s.feed, req.page, db) && req.page <= s.feed.pageCount + 1
      && forall page | page in s.feed.pages && page != req.page :: req.id !in PostsOn(s.feed, page)
    case Close(page, id, body, db) => SoundPage(s.feed, page, db) && StringsFit(body)
    case PulseWith(ch) => SoundPulse(s, ch) && PendingFit(s.feed, ch.parse)
    case _ => true
  }

  ghost predicate SoundPulse(s: System, ch: PulseChoice) {
    && ValidChoice(s.feed, ch)
    && (forall c | c in s.subscribed :: c in ch.clients)
    && (forall page | page in ch.db && page in s.feed.pages :: SoundPage(s.feed, page, ch.db[page]))
    && (forall p, q, id | p in ch.db && q in ch.db && id in ch.db[p] && id in ch.db[q] :: p == q)
  }

  /** The handler of a fetch panics on a page below the page count that is not in the map. */
  predicate Panics(f: Feed, page: int) {
    InRange(f, page) && PageAsked(f, page) !in f.pages
  }

  ghost function Next(s: System, e: Event): System {
    match e
    case Subscribe(c, state) => s.(subscribed := s.subscribed + {c}, watches := s.watches[c := Start(state)])
    case Unsubscribe(c) => s.(subscribed := s.subscribed - {c})
    case SendMeta(c) =>
      s.(watches := Deliver(s.watches, s.feed.thread, [Delivery(c, [ThreadMetaMsg(s.feed.thread, s.feed.pageCount)])]))
    case GoTo(c, to) =>
      if c !in s.watches then s
      else s.(watches := s.watches[c := s.watches[c].(client := Navigate(s.watches[c].client, to).0)])
    case Fetch(page, c, db) =>
      if Panics(s.feed, page) then s
      else
        var (f, ds) := FetchPage(s.feed, page, c, db);
        s.(feed := f, watches := Deliver(s.watches, s.feed.thread, ds))
    case Insert(req, now, db) => s.(feed := InsertPost(s.feed, req, now, db))
    case SetBodyOf(page, id, text) => s.(feed := SetBody(s.feed, page, id, text))
    case Close(page, id, body, db) => s.(feed := ClosePost(s.feed, page, id, body, db))
    case Freeze => s.(feed := TryMakePagesImmutable(s.feed))
    case PulseWith(ch) =>
      var (f, ds) := Pulse(s.feed, ch);
      s.(feed := f, watches := Deliver(s.watches, s.feed.thread, ds))
  }

  /** A run: `states[k + 1]` follows `states[k]` by `events[k]`. */
  ghost predicate Run(states: seq<System>, events: seq<Event>) {
    && |states| == |events| + 1
    && Init(states[0])
    && forall k | 0 <= k < |events| ::
         Sound(states[k], events[k]) && states[k + 1] == Next(states[k], events[k])
  }

  /** A feed just created: nothing buffered, no clients; loaded pages, if any, are consistent. */
  ghost predicate Init(s: System) {
    && s.feed.buffered == [] && s.subscribed == {} && s.watches == map[]
    && Bodies(s.feed) && Unique(s.feed) && Coherent(s.feed) && Filled(s.feed)
  }

  // ----- invariant -----

  ghost predicate AllWatched(f: Feed, subscribed: set<ClientID>, ws: map<ClientID, Watch>) {
    && subscribed <= ws.Keys
    && forall c | c in subscribed :: WatchInv(f, ws[c])
  }

  ghost predicate Inv(s: System) {
    FeedInv(s.feed) && Filled(s.feed) && AllWatched(s.feed, s.subscribed, s.watches)
  }

  // ----- deliveries -----

  lemma {:induction false} DeliverConcat(ws: map<ClientID, Watch>, thread: u64, a: seq<Delivery>, b: seq<Delivery>)
    ensures Deliver(ws, thread, a + b) == Deliver(Deliver(ws, thread, a), thread, b)
    decreases |a|
  {
    hide ObserveAll;
    if a == [] {
      assert a + b == b;
    } else {
      var d := a[0];
      assert (a + b)[1..] == a[1..] + b;
      DeliverConcat(if d.client in ws then ws[d.client := ObserveAll(ws[d.client], thread, d.msgs)] else ws, thread, a[1..], b);
    }
  }

  /** Deliveries of pages as they are in `f`, of metainformation, or of a disconnect. */
  ghost predicate Snapshot(f: Feed, d: Delivery) {
    || d.msgs == [DisconnectMsg]
    || (exists page :: IsLoaded(f, page) && d.msgs == [PageMessage(page, f.pages[page])])
    || (exists id, count :: d.msgs == [ThreadMetaMsg(id, count)])
  }

  ghost predicate Snapshots(f: Feed, ds: seq<Delivery>) {
    forall d | d in ds :: Snapshot(f, d)
  }

  lemma {:induction false} ObserveOne(w: Watch, thread: u64, m: ServerMsg)
    ensures ObserveAll(w, thread, [m]) == Observe(w, thread, m)
  {
    hide Observe;
    assert [m][1..] == [];
  }

  lemma SnapshotKeeps(f: Feed, thread: u64, w: Watch, d: Delivery)
    requires FeedInv(f) && WatchInv(f, w) && Snapshot(f, d)
    ensures WatchInv(f, ObserveAll(w, thread, d.msgs))
  {
    hide WatchInv, Receive, GetPage;
    ObserveOne(w, thread, d.msgs[0]);
    if d.msgs == [DisconnectMsg] {
      SameClient(w, thread, DisconnectMsg);
    } else if exists page :: IsLoaded(f, page) && d.msgs == [PageMessage(page, f.pages[page])] {
      var page :| IsLoaded(f, page) && d.msgs == [PageMessage(page, f.pages[page])];
      PageIs(f, page);
      if d.msgs[0].PageMsg? && d.msgs[0].posts != map[] {
        WatchGetsPage(f, w, thread, page);
      } else {
        SameClient(w, thread, d.msgs[0]);
      }
    } else {
      var id, count :| d.msgs == [ThreadMetaMsg(id, count)];
      WatchGetsMeta(f, w, thread, id, count);
    }
  }

  lemma PageIs(f: Feed, page: PageID)
    requires FeedInv(f) && IsLoaded(f, page)
    ensures var m := PageMessage(page, f.pages[page]);
            m == PageMsg(page, PostsOn(f, page)) || m == ImmutablePageMsg(PostsOn(f, page))
  {
  }

  lemma SameClient(w: Watch, thread: u64, m: ServerMsg)
    requires m.DisconnectMsg? || m.ImmutablePageMsg? || (m.PageMsg? && m.posts == map[])
    ensures Observe(w, thread, m) == w
  {
  }

  lemma {:induction false} DeliverSnapshots(
    f: Feed, subscribed: set<ClientID>, ws: map<ClientID, Watch>, thread: u64, ds: seq<Delivery>)
    requires FeedInv(f) && AllWatched(f, subscribed, ws) && Snapshots(f, ds)
    ensures AllWatched(f, subscribed, Deliver(ws, thread, ds))
    decreases |ds|
  {
    hide WatchInv, ObserveAll, Snapshot;
    if ds != [] {
      var d := ds[0];
      assert d in ds;
      var ws' := if d.client in ws then ws[d.client := ObserveAll(ws[d.client], thread, d.msgs)] else ws;
      if d.client in subscribed {
        SnapshotKeeps(f, thread, ws[d.client], d);
      }
      DeliverSnapshots(f, subscribed, ws', thread, ds[1..]);
    }
  }

  lemma {:induction false} DeferredAreSnapshots(f: Feed, order: seq<PageID>, k: nat)
    requires k <= |order|
    ensures Snapshots(f, DeferredDeliveries(f, order, k))
  {
    if k != 0 {
      DeferredAreSnapshots(f, order, k - 1);
      var page := order[k - 1];
      if page in f.pages {
        PageDeliveriesAreSnapshots(f, page, Queue(f.deferred, page));
      }
    }
  }

  lemma {:induction false} PageDeliveriesAreSnapshots(f: Feed, page: PageID, clients: seq<ClientID>)
    requires page in f.pages
    ensures Snapshots(f, PageDeliveries(page, f.pages[page], clients))
    decreases |clients|
  {
    if !f.pages[page].Unfetched? && clients != [] {
      PageDeliveriesAreSnapshots(f, page, clients[1..]);
      assert IsLoaded(f, page);
    }
  }

  /** A flush reaches each client exactly once. */
  lemma {:induction false} FlushReaches(ws: map<ClientID, Watch>, thread: u64, ms: seq<ServerMsg>, clients: seq<ClientID>)
    requires Distinct(clients)
    ensures var ws' := Deliver(ws, thread, FlushDeliveries(ms, clients));
            && ws'.Keys == ws.Keys
            && forall c | c in ws :: ws'[c] == if c in clients then ObserveAll(ws[c], thread, ms) else ws[c]
    decreases |clients|
  {
    hide Observe;
    if ms != [] && clients != [] {
      var c := clients[0];
      var rest := clients[1..];
      var ws' := if c in ws then ws[c := ObserveAll(ws[c], thread, ms)] else ws;
      FlushReaches(ws', thread, ms, rest);
      assert FlushDeliveries(ms, clients)[1..] == FlushDeliveries(ms, rest);
      assert c !in rest;
      assert forall d :: d in clients <==> d == c || d in rest;
    }
  }

  // ----- every step keeps the invariant -----

  lemma PulseKeeps(s: System, ch: PulseChoice)
    requires Inv(s) && Sound(s, PulseWith(ch))
    ensures Inv(Next(s, PulseWith(ch)))
  {
    hide WatchInv, FeedInv, Deliver, ObserveAll;
    var f := s.feed;
    var before, after := BeforeDiff(f, ch), AfterDiff(f, ch).(buffered := []);
    var ms := f.buffered + ch.patches;
    PulseKeepsFeed(f, ch);
    PulseDelivers(s, ch);
    var ws := Deliver(s.watches, f.thread, DeferredDeliveries(f, ch.pages, |ch.pages|));
    assert PatchesBetween(before, after, ch.patches) by {
      SamePatches(before, AfterDiff(f, ch), after, ch.patches);
    }
    PulseUpdates(f, ch);
    forall c | c in s.subscribed ensures WatchInv(after, ObserveAll(ws[c], f.thread, ms)) {
      InvUnique(before);
      WatchGrows(f, before, ws[c]);
      WatchFlushed(before, after, ch.patches, f.thread, ws[c]);
    }
    PulseFills(f, ch);
  }

  lemma InvUnique(f: Feed)
    requires FeedInv(f)
    ensures Unique(f) && Coherent(f)
  {
  }

  lemma PulseUpdates(f: Feed, ch: PulseChoice)
    requires FeedInv(f) && PatchesBetween(BeforeDiff(f, ch), AfterDiff(f, ch), ch.patches)
    ensures Updates(f.buffered + ch.patches) && BeforeDiff(f, ch).buffered == f.buffered
  {
  }

  /** A pulse is deferred pages, then one flush. */
  lemma PulseDelivers(s: System, ch: PulseChoice)
    requires Inv(s) && Sound(s, PulseWith(ch))
    ensures var f := s.feed;
            var ws := Deliver(s.watches, f.thread, DeferredDeliveries(f, ch.pages, |ch.pages|));
            var s' := Next(s, PulseWith(ch));
            && AllWatched(f, s.subscribed, ws)
            && s'.feed == AfterDiff(f, ch).(buffered := []) && s'.subscribed == s.subscribed
            && s'.watches.Keys == ws.Keys
            && forall c | c in s.subscribed ::
                 s'.watches[c] == ObserveAll(ws[c], f.thread, f.buffered + ch.patches)
  {
    hide WatchInv, FeedInv, Deliver, ObserveAll, AfterDiff;
    var f := s.feed;
    var ds := DeferredDeliveries(f, ch.pages, |ch.pages|);
    var ws := Deliver(s.watches, f.thread, ds);
    var ms := f.buffered + ch.patches;
    DeferredAreSnapshots(f, ch.pages, |ch.pages|);
    DeliverSnapshots(f, s.subscribed, s.watches, f.thread, ds);
    FlushReaches(ws, f.thread, ms, ch.clients);
    DeliverConcat(s.watches, f.thread, ds, FlushDeliveries(ms, ch.clients));
  }

  lemma PulseFills(f: Feed, ch: PulseChoice)
    requires Filled(f)
    ensures Filled(AfterDiff(f, ch).(buffered := []))
  {
    assert AfterDiff(f, ch).pages.Keys == f.pages.Keys;
  }

  /** Nothing but the feed changed, and it only grew. */
  lemma GrowthKeeps(s: System, g: Feed)
    requires Inv(s) && Grows(s.feed, g) && Bodies(g) && Unique(g) && Coherent(g) && Filled(g)
    ensures Inv(s.(feed := g))
  {
    hide WatchInv;
    FeedGrows(s.feed, g);
    forall c | c in s.subscribed ensures WatchInv(g, s.watches[c]) {
      WatchGrows(s.feed, g, s.watches[c]);
    }
  }

  lemma ChangeKeeps(s: System, g: Feed, at: PageID, id: u64, now: Post, m: ServerMsg)
    requires Inv(s) && PostChanges(s.feed, g, at, id, now, m) && Filled(g)
    ensures Inv(s.(feed := g))
  {
    hide WatchInv;
    FeedChanges(s.feed, g, at, id, now, m);
    forall c | c in s.subscribed ensures WatchInv(g, s.watches[c]) {
      WatchChanges(s.feed, g, at, id, now, m, s.watches[c]);
    }
  }

  lemma OneSnapshot(g: Feed, page: PageID, c: ClientID)
    requires IsLoaded(g, page)
    ensures Snapshots(g, [Delivery(c, [PageMessage(page, g.pages[page])])])
  {
  }

  lemma FetchKeeps(s: System, asked: int, c: ClientID, db: Posts)
    requires Inv(s) && Sound(s, Fetch(asked, c, db))
    ensures !Panics(s.feed, asked) && Inv(Next(s, Fetch(asked, c, db)))
  {
    hide WatchInv, Deliver;
    var f := s.feed;
    assert InRange(f, asked) ==> PageAsked(f, asked) in f.pages by {
      if InRange(f, asked) {
        var page: PageID := PageAsked(f, asked);
        assert page <= f.pageCount;
      }
    }
    var (g, ds) := FetchPage(f, asked, c, db);
    if !InRange(f, asked) {
      assert Snapshot(f, ds[0]);
      DeliverSnapshots(f, s.subscribed, s.watches, f.thread, ds);
    } else {
      var page := PageAsked(f, asked);
      if f.pages[page].Mutable? && f.pages[page].cached.None? {
        GrowthKeeps(s, g);
        NothingDelivered(s.watches, f.thread);
      } else {
        FetchedRecord(f, asked, c, db);
        RecordGrows(f, g, page, g.pages[page], db);
        GrowthKeeps(s, g);
        OneSnapshot(g, page, c);
        DeliverSnapshots(g, s.subscribed, s.watches, f.thread, ds);
      }
    }
  }

  lemma NothingDelivered(ws: map<ClientID, Watch>, thread: u64)
    ensures Deliver(ws, thread, []) == ws
  {
  }

  lemma InsertKeeps(s: System, req: InsertReq, now: u32, db: Posts)
    requires Inv(s) && Sound(s, Insert(req, now, db))
    ensures Inv(Next(s, Insert(req, now, db)))
  {
    hide WatchInv, AllWatched;
    var f := s.feed;
    var g := InsertPost(f, req, now, db);
    var post := NewPost(req.id, f.thread, req.page, now, req.opts);
    InsertFills(f, req, now, db);
    if req.page !in f.pages {
      RecordGrows(f, g, req.page, g.pages[req.page], map[req.id := post]);
      GrowthKeeps(s, g);
    } else if Load(f.pages[req.page], db).Mutable? {
      InsertOnPageKeeps(s, req, now, db);
    } else {
      assert g.pages == f.pages;
      assert forall page :: PostsOn(g, page) == PostsOn(f, page);
      GrowthKeeps(s, g);
    }
  }

  /** First the page is loaded, then the post goes in. */
  lemma InsertOnPageKeeps(s: System, req: InsertReq, now: u32, db: Posts)
    requires Inv(s) && Sound(s, Insert(req, now, db))
    requires req.page in s.feed.pages && Load(s.feed.pages[req.page], db).Mutable?
    ensures Inv(Next(s, Insert(req, now, db)))
  {
    hide WatchInv, AllWatched, FeedInv, Filled, PostChanges, InsertPost;
    var f := s.feed;
    var g := InsertPost(f, req, now, db);
    var rec := Load(f.pages[req.page], db);
    var loaded := f.(pages := f.pages[req.page := rec]);
    InsertFills(f, req, now, db);
    LoadFills(f, req.page, rec);
    InvUnique(f);
    RecordGrows(f, loaded, req.page, rec, db);
    GrowthKeeps(s, loaded);
    InsertChanges(f, req, now, db);
    var post := NewPost(req.id, f.thread, req.page, now, req.opts);
    ChangeKeeps(s.(feed := loaded), g, req.page, req.id, post,
                InsertPostMsg(req.id, req.page, f.thread, now, req.opts));
  }

  lemma InsertChanges(f: Feed, req: InsertReq, now: u32, db: Posts)
    requires Load(if req.page in f.pages then f.pages[req.page] else Unfetched, db).Mutable? && req.page in f.pages
    requires forall page | page in f.pages && page != req.page :: req.id !in PostsOn(f, page)
    ensures var loaded := f.(pages := f.pages[req.page := Load(f.pages[req.page], db)]);
            PostChanges(loaded, InsertPost(f, req, now, db), req.page, req.id,
                        NewPost(req.id, f.thread, req.page, now, req.opts),
                        InsertPostMsg(req.id, req.page, f.thread, now, req.opts))
  {
    var loaded := f.(pages := f.pages[req.page := Load(f.pages[req.page], db)]);
    forall page | page in loaded.pages && req.id in PostsOn(loaded, page) ensures page == req.page {
      assert page != req.page ==> PostsOn(loaded, page) == PostsOn(f, page);
    }
  }

  lemma LoadFills(f: Feed, page: PageID, rec: PageRecord)
    requires Filled(f)
    ensures Filled(f.(pages := f.pages[page := rec]))
  {
  }

  lemma CloseKeeps(s: System, page: PageID, id: u64, body: Node, db: Posts)
    requires Inv(s) && Sound(s, Close(page, id, body, db))
    ensures Inv(Next(s, Close(page, id, body, db)))
  {
    hide WatchInv, AllWatched;
    var f := s.feed;
    var g := ClosePost(f, page, id, body, db);
    var rec := Load(if page in f.pages then f.pages[page] else Unfetched, db);
    var loaded := f.(pages := f.pages[page := rec]);
    RecordGrows(f, loaded, page, rec, db);
    GrowthKeeps(s, loaded);
    if rec.Mutable? && id in rec.posts {
      var closed := rec.posts[id].(open := false, body := body);
      assert PostsOn(loaded, page) == rec.posts;
      ChangeKeeps(s.(feed := loaded), g, page, id, closed, ClosePostMsg(id, body));
    } else {
      RecordGrows(f, g, page, g.pages[page], db);
      GrowthKeeps(s, g);
    }
  }

  lemma FreezeKeeps(s: System)
    requires Inv(s)
    ensures Inv(Next(s, Freeze))
  {
    hide WatchInv, AllWatched;
    var g := TryMakePagesImmutable(s.feed);
    assert forall page :: PostsOn(g, page) == PostsOn(s.feed, page);
    GrowthKeeps(s, g);
  }

  lemma SetBodyKeeps(s: System, page: PageID, id: u64, text: string)
    requires Inv(s)
    ensures Inv(Next(s, SetBodyOf(page, id, text)))
  {
    hide WatchInv, AllWatched;
    var g := SetBody(s.feed, page, id, text);
    assert forall page :: PostsOn(g, page) == PostsOn(s.feed, page);
    GrowthKeeps(s, g);
  }

  lemma MetaKeeps(s: System, c: ClientID)
    requires Inv(s)
    ensures Inv(Next(s, SendMeta(c)))
  {
    hide WatchInv, Deliver;
    var d := Delivery(c, [ThreadMetaMsg(s.feed.thread, s.feed.pageCount)]);
    assert Snapshot(s.feed, d);
    DeliverSnapshots(s.feed, s.subscribed, s.watches, s.feed.thread, [d]);
  }

  lemma GoToKeeps(s: System, c: ClientID, to: Location)
    requires Inv(s)
    ensures Inv(Next(s, GoTo(c, to)))
  {
    hide WatchInv, Navigate;
    if c in s.subscribed {
      WatchNavigates(s.feed, s.watches[c], to);
    }
  }

  lemma StartKeeps(f: Feed, c: Client)
    requires forall k | k in HeldPages(c) :: HeldPages(c)[k].None?
    ensures FeedInv(f) ==> WatchInv(f, Start(c))
  {
    forall page, id | FeedInv(f) && page in f.pages && id in PostsOn(f, page) && InsertedBy(f.buffered, id)
      ensures Caught(f, c.posts, page, id)
    {
      InsertCatchesAny(f, page, id, PostAt(c.posts, id));
    }
  }

  lemma StepKeeps(s: System, e: Event)
    requires Inv(s) && Sound(s, e)
    ensures Inv(Next(s, e))
  {
    hide FeedInv, WatchInv;
    match e
    case Subscribe(c, state) => StartKeeps(s.feed, state);
    case Unsubscribe(c) =>
    case SendMeta(c) => MetaKeeps(s, c);
    case GoTo(c, to) => GoToKeeps(s, c, to);
    case Fetch(page, c, db) => FetchKeeps(s, page, c, db);
    case Insert(req, now, db) => InsertKeeps(s, req, now, db);
    case SetBodyOf(page, id, text) => SetBodyKeeps(s, page, id, text);
    case Close(page, id, body, db) => CloseKeeps(s, page, id, body, db);
    case Freeze => FreezeKeeps(s);
    case PulseWith(ch) => PulseKeeps(s, ch);
  }

  lemma InitInv(s: System)
    requires Init(s)
    ensures Inv(s)
  {
    assert forall id :: For(s.feed.buffered, id) == [];
  }

  lemma {:induction false} RunKeeps(states: seq<System>, events: seq<Event>, k: nat)
    requires Run(states, events) && k <= |events|
    ensures Inv(states[k])
  {
    hide Inv, Init, Sound, Next;
    if k == 0 {
      InitInv(states[0]);
    } else {
      RunKeeps(states, events, k - 1);
      assert Sound(states[k - 1], events[k - 1]) && states[k - 1 + 1] == Next(states[k - 1], events[k - 1]);
      StepKeeps(states[k - 1], events[k - 1]);
    }
  }

  // ----- what clients show -----

  /** The client shows the feed's posts, bodies and open flags included, on each page registered in
      step, and of each single post in step. */
  ghost predicate Converged(f: Feed, w: Watch) {
    && (forall page: PageID, id | page as int in w.seen && page in f.pages && id in PostsOn(f, page) ::
          id in w.client.posts && w.client.posts[id] == PostsOn(f, page)[id])
    && (forall page, id | page in f.pages && id in PostsOn(f, page) && id in w.sure ::
          id in w.client.posts && w.client.posts[id] == PostsOn(f, page)[id])
    && (forall id | id in w.sure :: OnSomePage(f, id))
  }

  ghost predicate AllConverged(s: System) {
    forall c | c in s.subscribed :: c in s.watches && Converged(s.feed, s.watches[c])
  }

  lemma ConvergedWhenFlushed(f: Feed, w: Watch)
    requires WatchInv(f, w) && f.buffered == []
    ensures Converged(f, w)
  {
    forall page, id | page in f.pages && id in PostsOn(f, page) && id in w.sure
      ensures id in w.client.posts && w.client.posts[id] == PostsOn(f, page)[id]
    {
      assert Sure(f, w, id);
      assert Caught(f, w.client.posts, page, id);
      assert For(f.buffered, id) == [];
    }
    forall page: PageID, id | page as int in w.seen && page in f.pages && id in PostsOn(f, page) ensures id in w.sure {
      assert SeenPage(f, w, page);
      assert Sure(f, w, id);
    }
  }

  /** In every run, after each pulse every client subscribed shows exactly the feed's posts on each page
      it has registered in step, and of each post in step. */
  lemma Convergence(states: seq<System>, events: seq<Event>, k: nat)
    requires Run(states, events) && k < |events| && events[k].PulseWith?
    ensures AllConverged(states[k + 1])
  {
    hide WatchInv, Converged;
    RunKeeps(states, events, k + 1);
    var s := states[k + 1];
    assert s == Next(states[k], events[k]);
    forall c | c in s.subscribed ensures Converged(s.feed, s.watches[c]) {
      ConvergedWhenFlushed(s.feed, s.watches[c]);
    }
  }

  /** No fetch of a page in range ever finds it missing. */
  lemma NoFetchPanics(states: seq<System>, events: seq<Event>, k: nat)
    requires Run(states, events) && k < |events| && events[k].Fetch?
    ensures !Panics(states[k].feed, events[k].page)
  {
    RunKeeps(states, events, k);
    assert Sound(states[k], events[k]);
    FetchKeeps(states[k], events[k].page, events[k].client, events[k].db);
  }

  /** Exact: with every page up to the page count known and none beyond, an insertion makes some fetch
      panic iff it skips a page. */
  lemma InsertPanicsExact(f: Feed, req: InsertReq, now: u32, db: Posts)
    requires forall page: PageID :: page in f.pages <==> page <= f.pageCount
    ensures (exists page: int :: Panics(InsertPost(f, req, now, db), page)) <==> req.page > f.pageCount + 1
  {
    var g := InsertPost(f, req, now, db);
    InsertFillsExact(f, req, now, db);
    if req.page > f.pageCount + 1 {
      assert f.pageCount + 1 !in g.pages;
      assert Panics(g, f.pageCount + 1);
    } else {
      forall page: int ensures !Panics(g, page) {
        if InRange(g, page) {
          var asked: PageID := PageAsked(g, page);
          assert asked <= g.pageCount;
        }
      }
    }
  }

  // ----- patches that fail -----

  lemma FlushFails(f: Feed, g: Feed, patches: seq<ServerMsg>, thread: u64, w: Watch, id: u64)
    requires FeedInv(f) && WatchInv(f, w) && OnlyBodiesChange(f, g) && PatchesBetween(f, g, patches)
    requires g.buffered == [] && Updates(f.buffered + patches) && Sure(f, w, id)
    ensures id in ObserveAll(w, thread, f.buffered + patches).client.failed <==> id in w.client.failed
  {
    hide Track, Receive, PatchesBetween, OnlyBodiesChange, WatchInv;
    var ms := f.buffered + patches;
    SureOnPage(f, w, id);
    var page :| page in f.pages && id in PostsOn(f, page);
    SameIds(f, g);
    FlushedCaught(f, g, patches, thread, w, page, id);
    ObserveUpdates(w, thread, ms);
    ReceiveAllAt(w.client, thread, ms, id);
    TrackFlag(PostAt(w.client.posts, id), id in w.client.failed, For(ms, id));
  }

  lemma SureOnPage(f: Feed, w: Watch, id: u64)
    requires FeedInv(f) && WatchInv(f, w) && Sure(f, w, id)
    ensures OnSomePage(f, id) && SurePosts(f, w)
  {
    if InsertedBy(f.buffered, id) {
      var m :| m in f.buffered && m.InsertPostMsg? && m.id == id;
      assert OnSomePage(f, m.id);
    }
  }

  /** Clients as they are when a pulse has answered the deferred fetches and is about to flush. */
  ghost function AtFlush(s: System, ch: PulseChoice): map<ClientID, Watch> {
    Deliver(s.watches, s.feed.thread, DeferredDeliveries(s.feed, ch.pages, |ch.pages|))
  }

  lemma {:induction false} DeliverFailsNothing(
    f: Feed, ws: map<ClientID, Watch>, thread: u64, ds: seq<Delivery>, c: ClientID)
    requires Snapshots(f, ds) && c in ws
    ensures c in Deliver(ws, thread, ds) && Deliver(ws, thread, ds)[c].client.failed == ws[c].client.failed
    decreases |ds|
  {
    hide ObserveAll, Snapshot;
    if ds != [] {
      var d := ds[0];
      assert d in ds;
      SnapshotFailsNothing(f, if d.client in ws then ws[d.client] else ws[c], thread, d);
      DeliverFailsNothing(f, if d.client in ws then ws[d.client := ObserveAll(ws[d.client], thread, d.msgs)] else ws, thread, ds[1..], c);
    }
  }

  lemma SnapshotFailsNothing(f: Feed, w: Watch, thread: u64, d: Delivery)
    requires Snapshot(f, d)
    ensures ObserveAll(w, thread, d.msgs).client.failed == w.client.failed
  {
    hide Held, HeldIds, AllArrived;
    ObserveOne(w, thread, d.msgs[0]);
    assert d.msgs == [d.msgs[0]];
  }

  /** In every run, a patch fails only for a post that the client does not have in step: a leftover of
      an earlier feed, or one registered late from a page held. */
  lemma NoPatchFails(states: seq<System>, events: seq<Event>, k: nat, c: ClientID, id: u64)
    requires Run(states, events) && k < |events| && events[k].PulseWith? && c in states[k].subscribed
    ensures c in AtFlush(states[k], events[k].choice) && c in states[k].watches && c in states[k + 1].watches
    ensures AtFlush(states[k], events[k].choice)[c].client.failed == states[k].watches[c].client.failed
    ensures Sure(states[k].feed, AtFlush(states[k], events[k].choice)[c], id) ==>
              (id in states[k + 1].watches[c].client.failed <==>
               id in AtFlush(states[k], events[k].choice)[c].client.failed)
  {
    hide WatchInv, FeedInv, Deliver, ObserveAll, PatchesBetween, Sure;
    RunKeeps(states, events, k);
    assert Sound(states[k], events[k]) && states[k + 1] == Next(states[k], events[k]);
    var s, ch := states[k], events[k].choice;
    var f := s.feed;
    var before, after := BeforeDiff(f, ch), AfterDiff(f, ch).(buffered := []);
    PulseDelivers(s, ch);
    DeferredAreSnapshots(f, ch.pages, |ch.pages|);
    DeliverFailsNothing(f, s.watches, f.thread, DeferredDeliveries(f, ch.pages, |ch.pages|), c);
    var w := AtFlush(s, ch)[c];
    if Sure(f, w, id) {
      PulseKeepsFeed(f, ch);
      SamePatches(before, AfterDiff(f, ch), after, ch.patches);
      PulseUpdates(f, ch);
      InvUnique(before);
      WatchGrows(f, before, w);
      SureStays(f, before, w, id);
      FlushFails(before, after, ch.patches, f.thread, w, id);
    }
  }

  lemma SureStays(f: Feed, g: Feed, w: Watch, id: u64)
    requires g.buffered == f.buffered && Sure(f, w, id)
    ensures Sure(g, w, id)
  {
  }

  // ----- pages registered in step -----

  lemma SnapshotQuiet(w: Watch, thread: u64, f: Feed, d: Delivery)
    requires AllInStep(w) && Snapshot(f, d)
    ensures AllInStep(ObserveAll(w, thread, d.msgs))
  {
    hide AllInStep, Receive, GetPage;
    var m := d.msgs[0];
    assert d.msgs == [m];
    ObserveOne(w, thread, m);
    if m.PageMsg? && m.posts != map[] {
      QuietPageArrives(w, thread, m.pageOf, m.posts);
    } else if m.ThreadMetaMsg? {
      MetaQuiet(w, thread, m.thread', m.pageCount);
    } else {
      SameClient(w, thread, m);
    }
  }

  lemma MetaQuiet(w: Watch, thread: u64, id: u64, count: PageID)
    requires AllInStep(w)
    ensures AllInStep(Observe(w, thread, ThreadMetaMsg(id, count)))
  {
    hide For;
    var w' := Observe(w, thread, ThreadMetaMsg(id, count));
    assert HeldPages(w'.client) == HeldPages(w.client);
    forall k, i | IsHeld(HeldPages(w'.client), k) && i in HeldPages(w'.client)[k].value
      ensures For(Missed(w', k), i) == []
    {
      assert Missed(w', k) == Missed(w, k);
    }
  }

  lemma {:induction false} DeliverQuiet(
    f: Feed, ws: map<ClientID, Watch>, thread: u64, ds: seq<Delivery>, c: ClientID)
    requires Snapshots(f, ds) && c in ws && AllInStep(ws[c])
    ensures c in Deliver(ws, thread, ds) && AllInStep(Deliver(ws, thread, ds)[c])
    decreases |ds|
  {
    hide AllInStep, ObserveAll, Snapshot;
    if ds != [] {
      var d := ds[0];
      assert d in ds;
      if d.client == c {
        SnapshotQuiet(ws[c], thread, f, d);
      }
      DeliverQuiet(f, if d.client in ws then ws[d.client := ObserveAll(ws[d.client], thread, d.msgs)] else ws, thread, ds[1..], c);
    }
  }

  lemma GoToQuiet(w: Watch, to: Location)
    requires AllInStep(w)
    ensures AllInStep(w.(client := Navigate(w.client, to).0))
  {
    hide For;
    var w' := w.(client := Navigate(w.client, to).0);
    forall k, i | IsHeld(HeldPages(w'.client), k) && i in HeldPages(w'.client)[k].value
      ensures For(Missed(w', k), i) == []
    {
      assert IsHeld(HeldPages(w.client), k) && HeldPages(w'.client)[k] == HeldPages(w.client)[k];
      assert Missed(w', k) == Missed(w, k);
    }
  }

  /** One step keeps a client's registered pages in step, if it holds no page that has missed something. */
  lemma StepInStep(s: System, e: Event, c: ClientID)
    requires Inv(s) && Sound(s, e) && c in s.subscribed && AllInStep(s.watches[c])
    ensures c in Next(s, e).watches && Next(s, e).watches[c].seen == Next(s, e).watches[c].got
  {
    hide AllInStep, ObserveAll, Deliver, FeedInv, WatchInv, Navigate;
    InStepIs(s.watches[c]);
    match e
    case SendMeta(d) =>
      var m := Delivery(d, [ThreadMetaMsg(s.feed.thread, s.feed.pageCount)]);
      assert Snapshot(s.feed, m);
      DeliverQuiet(s.feed, s.watches, s.feed.thread, [m], c);
      InStepIs(Next(s, e).watches[c]);
    case GoTo(d, to) =>
      GoToQuiet(s.watches[c], to);
    case Fetch(page, d, db) =>
      FetchKeeps(s, page, d, db);
      FetchDelivers(s, page, d, db);
      DeliverQuiet(FetchPage(s.feed, page, d, db).0, s.watches, s.feed.thread, FetchPage(s.feed, page, d, db).1, c);
      InStepIs(Next(s, e).watches[c]);
    case PulseWith(ch) =>
      PulseInStep(s, ch, c);
    case _ =>
  }

  lemma InStepIs(w: Watch)
    requires AllInStep(w)
    ensures w.seen == w.got
  {
  }

  lemma FetchDelivers(s: System, asked: int, c: ClientID, db: Posts)
    requires Inv(s) && Sound(s, Fetch(asked, c, db)) && !Panics(s.feed, asked)
    ensures var (g, ds) := FetchPage(s.feed, asked, c, db); Snapshots(g, ds)
  {
    hide WatchInv;
    var f := s.feed;
    var (g, ds) := FetchPage(f, asked, c, db);
    if !InRange(f, asked) {
      assert Snapshot(g, ds[0]);
    } else {
      var page := PageAsked(f, asked);
      if !(f.pages[page].Mutable? && f.pages[page].cached.None?) {
        FetchedRecord(f, asked, c, db);
        OneSnapshot(g, page, c);
      }
    }
  }

  lemma PulseInStep(s: System, ch: PulseChoice, c: ClientID)
    requires Inv(s) && Sound(s, PulseWith(ch)) && c in s.subscribed && AllInStep(s.watches[c])
    ensures var s' := Next(s, PulseWith(ch)); c in s'.watches && s'.watches[c].seen == s'.watches[c].got
  {
    hide AllInStep, ObserveAll, Deliver, FeedInv, WatchInv, PatchesBetween;
    var f := s.feed;
    DeferredAreSnapshots(f, ch.pages, |ch.pages|);
    DeliverQuiet(f, s.watches, f.thread, DeferredDeliveries(f, ch.pages, |ch.pages|), c);
    PulseDelivers(s, ch);
    var w := AtFlush(s, ch)[c];
    InStepIs(w);
    PulseUpdates(f, ch);
    ObserveUpdates(w, f.thread, f.buffered + ch.patches);
  }

  /** As long as a client never holds a page while an update of one of its posts is flushed, every page
      it has registered is in step. This is so in particular if it never has to hold one. */
  lemma {:induction false} PagesInStep(states: seq<System>, events: seq<Event>, k: nat, c: ClientID)
    requires Run(states, events) && k <= |events| && c in states[k].subscribed
    requires forall j | 0 <= j <= k && c in states[j].watches :: QuietHeld(states[j].watches[c])
    ensures c in states[k].watches && states[k].watches[c].seen == states[k].watches[c].got
  {
    hide QuietHeld, Inv, Sound;
    if k > 0 {
      assert Sound(states[k - 1], events[k - 1]) && states[k - 1 + 1] == Next(states[k - 1], events[k - 1]);
      RunKeeps(states, events, k - 1);
      StepOrStart(states[k - 1], events[k - 1], c);
      if c in states[k - 1].subscribed {
        PagesInStep(states, events, k - 1, c);
        StepInStep(states[k - 1], events[k - 1], c);
      }
    }
  }

  lemma StepOrStart(s: System, e: Event, c: ClientID)
    requires c in Next(s, e).subscribed
    ensures c in s.subscribed || (e.Subscribe? && e.client == c && Next(s, e).watches[c] == Start(e.state))
  {
    hide Deliver;
  }

  // ----- one page at a time -----

  /** Pages are held only as long as another one is missing. */
  ghost predicate HoldsForAReason(c: Client) {
    (exists k :: IsHeld(HeldPages(c), k)) ==> !AllArrived(HeldPages(c))
  }

  ghost predicate AllForAReason(ws: map<ClientID, Watch>) {
    forall c | c in ws :: HoldsForAReason(ws[c].client)
  }

  lemma ReceiveForAReason(c: Client, thread: u64, m: ServerMsg)
    requires HoldsForAReason(c)
    ensures HoldsForAReason(Receive(c, thread, m))
  {
    hide Held;
    var c' := Receive(c, thread, m);
    if c.sync.Receiving? && c'.sync.Receiving? {
      assert HeldPages(c) == c.sync.pages && HeldPages(c') == c'.sync.pages;
      if c'.sync.pages != c.sync.pages {
        var pages' := Arrived(c.sync.pages, c.sync.count.value, m.pageOf, m.posts);
        assert !AllArrived(pages') && c'.sync.pages == pages';
      }
    }
  }

  lemma NavigateForAReason(c: Client, to: Location)
    requires HoldsForAReason(c)
    ensures HoldsForAReason(Navigate(c, to).0)
  {
    var c' := Navigate(c, to).0;
    forall k | IsHeld(HeldPages(c'), k) ensures !AllArrived(HeldPages(c')) {
      assert IsHeld(HeldPages(c), k);
      var j :| j in HeldPages(c) && j >= 0 && HeldPages(c)[j].None?;
      assert j in HeldPages(c') && HeldPages(c')[j].None?;
    }
  }

  lemma {:induction false} ObserveForAReason(w: Watch, thread: u64, ms: seq<ServerMsg>)
    requires HoldsForAReason(w.client)
    ensures HoldsForAReason(ObserveAll(w, thread, ms).client)
    decreases |ms|
  {
    hide HoldsForAReason, Receive, Observe;
    if ms != [] {
      ObserveReceives(w, thread, ms[0]);
      ReceiveForAReason(w.client, thread, ms[0]);
      ObserveForAReason(Observe(w, thread, ms[0]), thread, ms[1..]);
    }
  }

  lemma {:induction false} DeliverForAReason(ws: map<ClientID, Watch>, thread: u64, ds: seq<Delivery>)
    requires AllForAReason(ws)
    ensures AllForAReason(Deliver(ws, thread, ds))
    decreases |ds|
  {
    hide HoldsForAReason, ObserveAll;
    if ds != [] {
      var d := ds[0];
      if d.client in ws {
        ObserveForAReason(ws[d.client], thread, d.msgs);
      }
      DeliverForAReason(if d.client in ws then ws[d.client := ObserveAll(ws[d.client], thread, d.msgs)] else ws, thread, ds[1..]);
    }
  }

  lemma StepForAReason(s: System, e: Event)
    requires AllForAReason(s.watches) && Sound(s, e)
    ensures AllForAReason(Next(s, e).watches)
  {
    hide HoldsForAReason, Deliver, Navigate;
    match e
    case Subscribe(c, state) => StartForAReason(state);
    case SendMeta(c) =>
      DeliverForAReason(s.watches, s.feed.thread, [Delivery(c, [ThreadMetaMsg(s.feed.thread, s.feed.pageCount)])]);
    case GoTo(c, to) =>
      if c in s.watches {
        NavigateForAReason(s.watches[c].client, to);
      }
    case Fetch(page, c, db) =>
      if !Panics(s.feed, page) {
        DeliverForAReason(s.watches, s.feed.thread, FetchPage(s.feed, page, c, db).1);
      }
    case PulseWith(ch) => DeliverForAReason(s.watches, s.feed.thread, Pulse(s.feed, ch).1);
    case _ =>
  }

  lemma StartForAReason(c: Client)
    requires forall k | k in HeldPages(c) :: HeldPages(c)[k].None?
    ensures HoldsForAReason(c)
  {
  }

  lemma {:induction false} RunForAReason(states: seq<System>, events: seq<Event>, k: nat)
    requires Run(states, events) && k <= |events|
    ensures AllForAReason(states[k].watches)
  {
    hide HoldsForAReason, Sound, Next;
    if k > 0 {
      RunForAReason(states, events, k - 1);
      assert Sound(states[k - 1], events[k - 1]) && states[k - 1 + 1] == Next(states[k - 1], events[k - 1]);
      StepForAReason(states[k - 1], events[k - 1]);
    }
  }

  /** At most one page is waited for by its number. */
  predicate OneAsked(c: Client) {
    forall j, k | j in HeldPages(c) && k in HeldPages(c) && j >= 0 && k >= 0 :: j == k
  }

  lemma HeldNeedsTwo(c: Client, k: int)
    requires HoldsForAReason(c) && IsHeld(HeldPages(c), k)
    ensures !OneAsked(c)
  {
    var j :| j in HeldPages(c) && j >= 0 && HeldPages(c)[j].None?;
    assert j != k;
  }

  lemma NoneHeld(w: Watch)
    requires HoldsForAReason(w.client) && OneAsked(w.client)
    ensures QuietHeld(w)
  {
    hide For, OneAsked, HoldsForAReason;
    if k :| IsHeld(HeldPages(w.client), k) {
      HeldNeedsTwo(w.client, k);
    }
  }

  /** A client that never waits for two pages at a time has registered every page in step. */
  lemma OnePageAtATime(states: seq<System>, events: seq<Event>, k: nat, c: ClientID)
    requires Run(states, events) && k <= |events| && c in states[k].subscribed
    requires forall j | 0 <= j <= k && c in states[j].watches :: OneAsked(states[j].watches[c].client)
    ensures c in states[k].watches && states[k].watches[c].seen == states[k].watches[c].got
  {
    hide Init, Sound, Next, QuietHeld, OneAsked, HoldsForAReason;
    forall j | 0 <= j <= k && c in states[j].watches ensures QuietHeld(states[j].watches[c]) {
      RunForAReason(states, events, j);
      NoneHeld(states[j].watches[c]);
    }
    PagesInStep(states, events, k, c);
  }
}
