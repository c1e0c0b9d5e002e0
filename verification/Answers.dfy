/** Every fetch is answered: at once, or by the end of the next pulse. */
module Answers {
  import opened MachineInts
  import opened PostBody
  import opened Iteration
  import opened Messages
  import opened FeedState
  import opened FeedInvariant
  import opened Replica
  import W = Watching
  import opened Convergence

  // ----- one pulse -----

  /** A client waiting for a page. */
  datatype Ask = Ask(page: PageID, client: ClientID)

  /** The page as it is, in the form it is sent in. */
  predicate Carries(f: Feed, page: PageID, m: ServerMsg) {
    page in f.pages &&
    match f.pages[page]
    case Unfetched => false
    case Mutable(posts, _) => m == PageMsg(page, posts)
    case Immutable(posts) => m == ImmutablePageMsg(posts)
  }

  /** How often a client waits for a page that is loaded. */
  function Waiting(f: Feed, a: Ask): nat {
    if a.page in f.deferred && IsLoadedPage(f, a.page) then multiset(f.deferred[a.page])[a.client] else 0
  }

  predicate IsLoadedPage(f: Feed, page: PageID) {
    page in f.pages && !f.pages[page].Unfetched?
  }

  /** The deliveries answer the asks one by one. */
  ghost predicate AnswerEach(f: Feed, asks: seq<Ask>, ds: seq<Delivery>) {
    && |asks| == |ds|
    && forall i | 0 <= i < |ds| :: Answered(f, asks[i], ds[i])
  }

  predicate Answered(f: Feed, a: Ask, d: Delivery) {
    d.client == a.client && |d.msgs| == 1 && Carries(f, a.page, d.msgs[0])
  }

  /** Each client that waits for a loaded page is sent that page as it is, as often as it asked, and
      nothing else is sent. */
  ghost predicate AnswerAll(f: Feed, ds: seq<Delivery>) {
    exists asks :: AnswerEach(f, asks, ds) && forall a :: multiset(asks)[a] == Waiting(f, a)
  }

  function AsksOf(page: PageID, clients: seq<ClientID>): (asks: seq<Ask>)
    ensures |asks| == |clients|
  {
    seq(|clients|, i requires 0 <= i < |clients| => Ask(page, clients[i]))
  }

  lemma {:induction false} AsksCount(page: PageID, clients: seq<ClientID>, a: Ask)
    ensures multiset(AsksOf(page, clients))[a] == if a.page == page then multiset(clients)[a.client] else 0
  {
    if clients == [] {
      assert AsksOf(page, clients) == [];
    } else {
      AsksCount(page, clients[1..], a);
      assert AsksOf(page, clients) == [Ask(page, clients[0])] + AsksOf(page, clients[1..]);
      assert clients == [clients[0]] + clients[1..];
    }
  }

  lemma {:induction false} PageAnswered(f: Feed, page: PageID, clients: seq<ClientID>)
    requires Coherent(f) && IsLoadedPage(f, page)
    ensures AnswerEach(f, AsksOf(page, clients), PageDeliveries(page, f.pages[page], clients))
    decreases |clients|
  {
    if clients != [] {
      PageAnswered(f, page, clients[1..]);
      assert AsksOf(page, clients) == [Ask(page, clients[0])] + AsksOf(page, clients[1..]);
    }
  }

  /** The asks answered for the first `k` pages. */
  function AskedFor(f: Feed, order: seq<PageID>, k: nat): seq<Ask>
    requires k <= |order|
  {
    if k == 0 then []
    else
      AskedFor(f, order, k - 1)
      + if IsLoadedPage(f, order[k - 1]) then AsksOf(order[k - 1], Queue(f.deferred, order[k - 1])) else []
  }

  lemma {:induction false} PagesAnswered(f: Feed, order: seq<PageID>, k: nat)
    requires Coherent(f) && k <= |order|
    ensures AnswerEach(f, AskedFor(f, order, k), DeferredDeliveries(f, order, k))
  {
    if k != 0 {
      PagesAnswered(f, order, k - 1);
      var page := order[k - 1];
      if IsLoadedPage(f, page) {
        PageAnswered(f, page, Queue(f.deferred, page));
      }
    }
  }

  lemma {:induction false} AskedCount(f: Feed, order: seq<PageID>, k: nat, a: Ask)
    requires Distinct(order) && k <= |order|
    ensures multiset(AskedFor(f, order, k))[a]
         == if a.page in order[..k] && IsLoadedPage(f, a.page) then multiset(Queue(f.deferred, a.page))[a.client] else 0
  {
    if k != 0 {
      AskedCount(f, order, k - 1, a);
      var page := order[k - 1];
      assert order[..k] == order[..k - 1] + [page] && page !in order[..k - 1];
      AsksCount(page, Queue(f.deferred, page), a);
    }
  }

  lemma DeferredAnswered(f: Feed, order: seq<PageID>)
    requires Coherent(f) && OrderOf(order, f.deferred.Keys)
    ensures AnswerAll(f, DeferredDeliveries(f, order, |order|))
  {
    var asks := AskedFor(f, order, |order|);
    PagesAnswered(f, order, |order|);
    assert order[..|order|] == order;
    forall a ensures multiset(asks)[a] == Waiting(f, a) {
      AskedCount(f, order, |order|, a);
    }
  }

  /** The same stream to each of the clients, in their order, if there is anything to send. */
  ghost predicate SameForAll(ms: seq<ServerMsg>, clients: seq<ClientID>, ds: seq<Delivery>) {
    if ms == [] then ds == []
    else |ds| == |clients| && forall i | 0 <= i < |ds| :: ds[i] == Delivery(clients[i], ms)
  }

  lemma {:induction false} FlushSends(ms: seq<ServerMsg>, clients: seq<ClientID>)
    ensures SameForAll(ms, clients, FlushDeliveries(ms, clients))
    decreases |clients|
  {
    if ms != [] && clients != [] {
      FlushSends(ms, clients[1..]);
    }
  }

  /** What a pulse sends: the pages waited for, then one stream of everything new to every client. */
  lemma PulseSends(f: Feed, ch: PulseChoice)
    requires Coherent(f) && OrderOf(ch.pages, f.deferred.Keys)
    ensures exists answers, rest ::
              && Pulse(f, ch).1 == answers + rest
              && AnswerAll(f, answers) && SameForAll(f.buffered + ch.patches, ch.clients, rest)
    ensures Pulse(f, ch).0.deferred == map[] && Pulse(f, ch).0.buffered == [] && Pulse(f, ch).0.pendingBodies == map[]
  {
    hide AnswerAll, SameForAll, OrderOf;
    DeferredAnswered(f, ch.pages);
    FlushSends(f.buffered + ch.patches, ch.clients);
    assert Pulse(f, ch).1 == DeferredDeliveries(f, ch.pages, |ch.pages|) + FlushDeliveries(f.buffered + ch.patches, ch.clients);
  }

  // ----- runs -----

  /** All that is sent at a step. */
  function SentAt(s: System, e: Event): seq<Delivery>
    requires e.Fetch? ==> !Panics(s.feed, e.page)
  {
    match e
    case SendMeta(c) => [Delivery(c, [ThreadMetaMsg(s.feed.thread, s.feed.pageCount)])]
    case Fetch(page, c, db) => FetchPage(s.feed, page, c, db).1
    case PulseWith(ch) => Pulse(s.feed, ch).1
    case _ => []
  }

  /** The number the page asked for has, counted from the front: `-1` is the last page. */
  function Number(f: Feed, asked: int): int {
    if asked >= 0 then asked else f.pageCount + asked
  }

  predicate Waits(f: Feed, a: Ask) {
    a.page in f.deferred && a.client in f.deferred[a.page] && IsLoadedPage(f, a.page)
  }

  /** A fetch in range is answered at once with the page as it then is, or has the client wait for it. */
  lemma FetchAnswersOrWaits(f: Feed, asked: int, c: ClientID, db: Posts)
    requires Coherent(f) && 0 <= Number(f, asked) < f.pageCount && Number(f, asked) in f.pages
    ensures var page: PageID := Number(f, asked); var (g, ds) := FetchPage(f, asked, c, db);
            if ds == [] then Waits(g, Ask(page, c)) && g.pendingPulse
            else |ds| == 1 && Answered(g, Ask(page, c), ds[0]) && (f.pages[page].Unfetched? ==> PostsOn(g, page) == db)
  {
  }

  lemma WaitsOn(s: System, e: Event, a: Ask)
    requires Inv(s) && Sound(s, e) && !e.PulseWith? && Waits(s.feed, a)
    ensures Waits(Next(s, e).feed, a)
  {
    hide Deliver, W.WatchInv, AllWatched;
    match e
    case Fetch(page, c, db) => FetchWaits(s.feed, page, c, db, a);
    case Insert(req, now, db) => assert InsertPost(s.feed, req, now, db).deferred == s.feed.deferred;
    case _ =>
  }

  lemma FetchWaits(f: Feed, page: int, c: ClientID, db: Posts, a: Ask)
    requires Waits(f, a)
    ensures !Panics(f, page) ==> Waits(FetchPage(f, page, c, db).0, a)
  {
  }

  lemma WaitingAnswered(f: Feed, ch: PulseChoice, a: Ask)
    requires Coherent(f) && OrderOf(ch.pages, f.deferred.Keys) && Waits(f, a)
    ensures exists d | d in Pulse(f, ch).1 :: Answered(f, a, d)
  {
    hide OrderOf, Pulse, Answered;
    PulseSends(f, ch);
    var answers, rest :| Pulse(f, ch).1 == answers + rest && AnswerAll(f, answers)
                      && SameForAll(f.buffered + ch.patches, ch.clients, rest);
    var asks :| AnswerEach(f, asks, answers) && forall b :: multiset(asks)[b] == Waiting(f, b);
    assert a.client in multiset(f.deferred[a.page]);
    assert multiset(asks)[a] > 0 && a in asks;
    var i :| 0 <= i < |asks| && asks[i] == a;
    assert answers[i] in Pulse(f, ch).1;
  }

  /** In every run, a fetch of a page in range is answered to the client by the end of the next pulse,
      with that page as it is at that moment. */
  lemma FetchAnswered(states: seq<System>, events: seq<Event>, k: nat, j: nat)
    requires Run(states, events) && k < j < |events| && events[k].Fetch? && events[j].PulseWith?
    requires forall i | k < i < j :: !events[i].PulseWith?
    requires 0 <= Number(states[k].feed, events[k].page) < states[k].feed.pageCount
    ensures var a := Ask(Number(states[k].feed, events[k].page), events[k].client);
            && !Panics(states[k].feed, events[k].page)
            && ((exists d | d in SentAt(states[k], events[k]) :: Answered(states[k + 1].feed, a, d))
                || (exists d | d in SentAt(states[j], events[j]) :: Answered(states[j].feed, a, d)))
  {
    hide Inv, Next, Sound, Pulse, Answered, Waits;
    RunKeeps(states, events, k);
    NoFetchPanics(states, events, k);
    assert Sound(states[k], events[k]) && states[k + 1] == Next(states[k], events[k]);
    var a := Ask(Number(states[k].feed, events[k].page), events[k].client);
    FetchStep(states[k], events[k]);
    if SentAt(states[k], events[k]) == [] {
      StillWaits(states, events, k + 1, j, a);
      RunKeeps(states, events, j);
      assert Sound(states[j], events[j]);
      PulseStep(states[j], events[j].choice);
      WaitingAnswered(states[j].feed, events[j].choice, a);
    } else {
      assert SentAt(states[k], events[k])[0] in SentAt(states[k], events[k]);
    }
  }

  lemma FetchStep(s: System, e: Event)
    requires Inv(s) && e.Fetch? && Sound(s, e) && 0 <= Number(s.feed, e.page) < s.feed.pageCount && !Panics(s.feed, e.page)
    ensures var a := Ask(Number(s.feed, e.page), e.client); var ds := SentAt(s, e);
            if ds == [] then Waits(Next(s, e).feed, a) else Answered(Next(s, e).feed, a, ds[0])
  {
    hide Deliver, W.WatchInv, AllWatched, Waits, Answered, FetchPage;
    FetchAnswersOrWaits(s.feed, e.page, e.client, e.db);
  }

  lemma PulseStep(s: System, ch: PulseChoice)
    requires Inv(s) && Sound(s, PulseWith(ch))
    ensures Coherent(s.feed) && OrderOf(ch.pages, s.feed.deferred.Keys)
  {
    hide W.WatchInv, AllWatched;
  }

  lemma {:induction false} StillWaits(states: seq<System>, events: seq<Event>, k: nat, j: nat, a: Ask)
    requires Run(states, events) && k <= j <= |events| && Waits(states[k].feed, a)
    requires forall i | k <= i < j :: !events[i].PulseWith?
    ensures Waits(states[j].feed, a)
    decreases j
  {
    hide Inv, Next, Sound, Waits;
    if k < j {
      StillWaits(states, events, k, j - 1, a);
      RunKeeps(states, events, j - 1);
      assert Sound(states[j - 1], events[j - 1]) && states[j - 1 + 1] == Next(states[j - 1], events[j - 1]);
      WaitsOn(states[j - 1], events[j - 1], a);
    }
  }

  // ----- a pulse is always scheduled -----

  /** Whatever only a pulse will deal with has one scheduled. */
  ghost predicate Scheduled(f: Feed) {
    (f.buffered != [] || f.deferred != map[] || exists page | page in f.pendingBodies :: f.pendingBodies[page] != map[])
    ==> f.pendingPulse
  }

  lemma StepScheduled(s: System, e: Event)
    requires Scheduled(s.feed)
    ensures Scheduled(Next(s, e).feed)
  {
    hide Deliver;
    match e
    case Fetch(page, c, db) =>
    case PulseWith(ch) =>
      assert AfterDiff(s.feed, ch).pendingBodies == map[] && AfterDiff(s.feed, ch).deferred == map[];
    case _ =>
  }

  /** In every run, as long as anything is buffered, any fetch is deferred, or any body waits to be parsed,
      a pulse is scheduled. */
  lemma {:induction false} AlwaysScheduled(states: seq<System>, events: seq<Event>, k: nat)
    requires Run(states, events) && k <= |events| && Scheduled(states[0].feed)
    ensures Scheduled(states[k].feed)
  {
    hide Next, Sound, Scheduled;
    if k > 0 {
      AlwaysScheduled(states, events, k - 1);
      assert states[k - 1 + 1] == Next(states[k - 1], events[k - 1]);
      StepScheduled(states[k - 1], events[k - 1]);
    }
  }

  // ----- fetches that are refused, and pages kept ready -----

  /** A fetch out of range is answered with a disconnect, and changes nothing. */
  lemma FetchRefused(f: Feed, asked: int, c: ClientID, db: Posts)
    requires !(0 <= Number(f, asked) < f.pageCount)
    ensures FetchPage(f, asked, c, db) == (f, [Delivery(c, [DisconnectMsg])])
  {
  }

  /** A page once sent is sent again at once, as long as nobody has touched it. */
  predicate Ready(f: Feed, page: PageID) {
    page in f.pages && (f.pages[page].Immutable? || (f.pages[page].Mutable? && f.pages[page].cached.Some?))
  }

  /** Exact: a fetch of a page known waits iff the page has been loaded, may change and is not ready. */
  lemma FetchWaitsExact(f: Feed, asked: int, c: ClientID, db: Posts)
    requires 0 <= Number(f, asked) < f.pageCount && Number(f, asked) in f.pages
    ensures FetchPage(f, asked, c, db).1 == [] <==> IsLoadedPage(f, Number(f, asked)) && !Ready(f, Number(f, asked))
    ensures FetchPage(f, asked, c, db).1 != [] ==> Ready(FetchPage(f, asked, c, db).0, Number(f, asked))
  {
  }

  /** After a pulse every page waited for is ready, unless a body on it changed in that pulse. */
  lemma ServedReady(f: Feed, ch: PulseChoice, page: PageID)
    requires page in f.deferred && IsLoadedPage(f, page)
    ensures var g := Pulse(f, ch).0;
            Ready(g, page) || PostsOn(g, page) != PostsOn(f, page)
  {
    hide UpdatedPosts;
    var before := BeforeDiff(f, ch);
    assert Ready(before, page) && PostsOn(before, page) == PostsOn(f, page);
  }

  // ----- bodies -----

  /** A pulse gives every open post on a known page the parsed text that waits for it, and leaves all
      other posts as they are; pages the texts are for are read first. */
  lemma PulseSetsBodies(f: Feed, ch: PulseChoice, page: PageID, id: u64)
    requires page in f.pages && (page in f.pendingBodies && f.pages[page].Unfetched? ==> page in ch.db)
    ensures var was := if page in f.pendingBodies && f.pages[page].Unfetched? then ch.db[page] else PostsOn(f, page);
            var g := Pulse(f, ch).0;
            && (id in PostsOn(g, page) <==> id in was)
            && (id in was ==>
                  PostsOn(g, page)[id] == if TextWaits(f, page, id) && was[id].open && !f.pages[page].Immutable?
                                          then was[id].(body := ch.parse(f.pendingBodies[page][id])) else was[id])
  {
  }

  predicate TextWaits(f: Feed, page: PageID, id: u64) {
    page in f.pendingBodies && id in f.pendingBodies[page]
  }

  predicate AllClosed(posts: Posts) {
    |posts| == 100 && forall id | id in posts :: !posts[id].open
  }

  /** Closing a post that is on a mutable page sets its body and closes it, drops any text that waits for
      it, and touches no other post. */
  lemma CloseExact(f: Feed, page: PageID, id: u64, body: Node, db: Posts, other: u64)
    requires IsLoadedPage(f, page) && f.pages[page].Mutable? && id in PostsOn(f, page)
    ensures var g := ClosePost(f, page, id, body, db);
            && id in PostsOn(g, page) && !PostsOn(g, page)[id].open && PostsOn(g, page)[id].body == body
            && !(page in g.pendingBodies && id in g.pendingBodies[page])
            && g.buffered == f.buffered + [ClosePostMsg(id, body)] && !Ready(g, page)
            && (other != id ==> (other in PostsOn(g, page) <==> other in PostsOn(f, page)))
            && (other != id && other in PostsOn(f, page) ==> PostsOn(g, page)[other] == PostsOn(f, page)[other])
  {
  }

  /** Exact: which pages become immutable, and that they stay as they are. */
  lemma FreezeExact(f: Feed, page: PageID)
    requires page in f.pages
    ensures var g := TryMakePagesImmutable(f);
            && page in g.pages && PostsOn(g, page) == PostsOn(f, page)
            && (g.pages[page].Immutable? <==> f.pages[page].Immutable? || (f.pages[page].Mutable? && AllClosed(PostsOn(f, page))))
            && (!g.pages[page].Immutable? ==> g.pages[page] == f.pages[page])
  {
  }

  /** Nothing changes a page once it is immutable. */
  lemma ImmutableStays(s: System, e: Event, page: PageID)
    requires Inv(s) && Sound(s, e) && page in s.feed.pages && s.feed.pages[page].Immutable?
    ensures page in Next(s, e).feed.pages && Next(s, e).feed.pages[page] == s.feed.pages[page]
  {
    hide Deliver, W.WatchInv, AllWatched, FeedInv;
    match e
    case Fetch(asked, c, db) =>
    case PulseWith(ch) => assert BeforeDiff(s.feed, ch).pages[page] == s.feed.pages[page];
    case _ =>
  }

  /** A post inserted on a page that may change is there, new, open and empty, as its request and the clock
      have it, and is announced just so. */
  lemma InsertExact(f: Feed, req: InsertReq, now: u32, db: Posts)
    requires IsLoadedPage(f, req.page) && f.pages[req.page].Mutable?
    ensures var g := InsertPost(f, req, now, db);
            && PostsOn(g, req.page) ==
                 PostsOn(f, req.page)[req.id := Post(req.id, f.thread, req.page, now, req.opts, true, Empty)]
            && g.buffered == f.buffered + [InsertPostMsg(req.id, req.page, f.thread, now, req.opts)]
            && g.pendingPulse && !Ready(g, req.page) && g.pageCount >= f.pageCount && g.pageCount >= req.page
            && (req.page <= f.pageCount ==> g.pageCount == f.pageCount)
  {
  }
}
