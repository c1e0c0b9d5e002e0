/** What a client asks the server for, and what it waits for. */
module Requests {
  import opened MachineInts
  import opened PostBody
  import opened Messages
  import opened Replica

  // ----- one navigation -----

  /** Pages named in requests, in order. */
  function PagesIn(sent: seq<Request>): seq<i32> {
    if sent == [] then []
    else
      var last := sent[|sent| - 1];
      PagesIn(sent[..|sent| - 1]) + if last.RequestPage? then [last.page] else []
  }

  predicate NoSync(sent: seq<Request>) {
    forall r | r in sent :: r.RequestPage?
  }

  predicate Follows(c: Client, feed: u64) {
    !c.sync.NotRequested? && c.sync.feed == feed
  }

  /** `after` waits for the pages in addition, which `before` neither waited for nor had. */
  ghost predicate AwaitsMore(before: Client, after: Client, pages: seq<i32>) {
    match before.sync
    case Receiving(feed, count, had) =>
      && after.sync.Receiving? && after.sync.feed == feed && after.sync.count == count
      && (forall p | p in pages :: p as int !in had)
      && (forall k :: k in after.sync.pages <==> k in had || k in pages)
      && forall k | k in after.sync.pages :: after.sync.pages[k] == if k in had then had[k] else None
    case Synced(feed, had) =>
      && after.sync.Synced? && after.sync.feed == feed
      && (forall p | p in pages :: AsU32(p) !in had)
      && (forall k | k in after.sync.received && k !in had :: exists p | p in pages :: AsU32(p) == k)
      && (forall p | p in pages :: AsU32(p) in after.sync.received && !after.sync.received[AsU32(p)])
      && forall k | k in had :: k in after.sync.received && after.sync.received[k] == had[k]
    case NotRequested => after == before && pages == []
  }

  /** A page navigated to has been received or is waited for, unless its number cannot be told. */
  predicate GetsThere(c: Client, to: Location) {
    to.ToThread? && Follows(c, to.id) ==>
      match c.sync
      case Receiving(_, _, pages) => to.page as int in pages
      case Synced(feed, received) =>
        if to.page >= 0 then AsU32(to.page) in received
        else to.page == -1 && feed in c.counts ==> AsU32(c.counts[feed] as int - 1) in received
      case NotRequested => false
  }

  /** Within the feed the pages newly waited for are those asked for; on the way to another, that is
      synchronized to first, and the page meant is the one page asked for. */
  lemma NavigateAsks(c: Client, to: Location)
    ensures var (c', sent) := Navigate(c, to);
            && Follows(c', FeedOf(to)) && GetsThere(c', to)
            && c'.posts == c.posts && c'.counts == c.counts && c'.failed == c.failed
            && if Follows(c, FeedOf(to)) then NoSync(sent) && AwaitsMore(c, c', PagesIn(sent)) && |sent| <= 1
               else
                 && sent != [] && sent[0] == Synchronize(FeedOf(to)) && NoSync(sent[1..])
                 && PagesIn(sent) == (if to.ToThread? then [to.page] else [])
                 && c'.sync.Receiving? && c'.sync.count.None?
                 && (forall k :: k in c'.sync.pages <==> k in PagesIn(sent))
                 && forall k | k in c'.sync.pages :: c'.sync.pages[k].None?
  {
    var (c', sent) := Navigate(c, to);
    PagesInOne(sent);
  }

  lemma PagesInOne(sent: seq<Request>)
    ensures sent == [] ==> PagesIn(sent) == []
    ensures |sent| == 1 ==> PagesIn(sent) == if sent[0].RequestPage? then [sent[0].page] else []
    ensures |sent| == 2 && sent[0].Synchronize? ==> PagesIn(sent) == if sent[1].RequestPage? then [sent[1].page] else []
  {
    if |sent| == 2 {
      PagesInOne(sent[..1]);
    } else if |sent| == 1 {
      assert sent[..0] == [];
    }
  }

  // ----- one arrival -----

  /** A page of the feed followed, once its page count is known, is waited for no longer: it is shown, or
      kept with the pages shown together later. No other page is affected, unless all are shown now. */
  lemma ArrivalSettles(c: Client, thread: u64, page: PageID, posts: Posts)
    requires posts != map[] && Follows(c, thread) && (c.sync.Receiving? ==> c.sync.count.Some? && page < c.sync.count.value)
    ensures var c' := Receive(c, thread, PageMsg(page, posts));
            && Follows(c', thread) && !Awaits(c', page)
            && (if c'.sync.Synced? then forall id | id in posts :: id in c'.posts
                else page as int in c'.sync.pages && c'.sync.pages[page] == Some(posts) && c'.posts == c.posts)
            && (c.sync.Synced? ==> forall k: u32 | k != page :: Awaits(c', k) <==> Awaits(c, k))
            && (c'.sync.Receiving? ==>
                  forall k | k != page && k != page - c.sync.count.value :: Awaits(c', k) <==> Awaits(c, k))
  {
    hide HeldPost;
    if c.sync.Receiving? {
      var pages' := Arrived(c.sync.pages, c.sync.count.value, page, posts);
      assert page as int in pages' && IsHeld(pages', page);
      assert AsU32(page) == page;
      if AllArrived(pages') {
        assert forall id | id in posts :: id in HeldIds(pages');
      }
    }
  }

  /** The page is still waited for, under this number. */
  predicate Awaits(c: Client, page: int) {
    match c.sync
    case NotRequested => false
    case Receiving(_, _, pages) => page in pages && pages[page].None?
    case Synced(_, received) => AsU32(page) in received && !received[AsU32(page)]
  }

  /** Metainformation of the thread awaited is kept, and that of any other ignored. */
  lemma MetaSettles(c: Client, thread: u64, id: u64, count: PageID)
    ensures var c' := Receive(c, thread, ThreadMetaMsg(id, count));
            && c'.posts == c.posts && c'.counts == c.counts
            && if c.sync.Receiving? && c.sync.feed == id
               then c'.sync == Receiving(id, Some(count), c.sync.pages) else c'.sync == c.sync
  {
  }

  /** Going to another thread, and being sent its metainformation and the page asked for, a client shows
      that page and follows that thread. */
  lemma EntersThread(c: Client, id: u64, page: PageID, count: PageID, posts: Posts)
    requires !Follows(c, id) && page < count && posts != map[]
    ensures var asked := Navigate(c, ToThread(id, page));
            var there := Receive(Receive(asked.0, id, ThreadMetaMsg(id, count)), id, PageMsg(page, posts));
            && RequestPage(page) in asked.1 && Synchronize(id) in asked.1
            && there.sync.Synced? && there.sync.feed == id && id in there.counts && there.counts[id] == count
            && (forall p | p in posts :: p in there.posts && there.posts[p] == posts[p])
            && (forall p | p in c.posts && p !in posts :: p in there.posts && there.posts[p] == c.posts[p])
  {
    hide HeldIds, Held;
    var (c1, sent) := Navigate(c, ToThread(id, page));
    assert sent == [Synchronize(id), RequestPage(page)];
    assert c1.sync == Receiving(id, None, map[page as int := None]);
    var pages := Arrived<Posts>(map[page as int := None], count, page, posts);
    ArrivalExact<Posts>(map[page as int := None], count, page, posts);
    HeldOne(pages, page, posts);
  }

  lemma HeldOne(pages: map<int, Option<Posts>>, page: PageID, posts: Posts)
    requires IsHeld(pages, page) && pages[page] == Some(posts) && forall k | IsHeld(pages, k) :: k == page
    ensures Held(pages) == posts
  {
    assert Apart(pages);
    forall p | p in posts ensures p in HeldIds(pages) && Held(pages)[p] == posts[p] {
      HeldAt(pages, page, p);
    }
    assert Held(pages).Keys == HeldIds(pages);
    forall p | p in HeldIds(pages) ensures p in posts {
      var k :| k in pages && IsHeld(pages, k) && p in pages[k].value;
    }
  }

  // ----- runs -----

  datatype Event = Went(to: Location) | Got(thread: u64, msg: ServerMsg)

  /** A client, all it has sent, and the numbers counted from the end under which pages that came since
      it last synchronized have been entered. */
  datatype State = State(client: Client, log: seq<Request>, entered: set<int>)

  predicate Changes(c: Client, to: Location) {
    !Follows(c, FeedOf(to))
  }

  function Entered(s: State, e: Event): set<int> {
    match e
    case Went(to) => if Changes(s.client, to) then {} else s.entered
    case Got(thread, PageMsg(page, posts)) =>
      if s.client.sync.Receiving? && s.client.sync.feed == thread && s.client.sync.count.Some?
      then s.entered + {page - s.client.sync.count.value} else s.entered
    case _ => s.entered
  }

  ghost function Next(s: State, e: Event): State {
    match e
    case Went(to) => State(Navigate(s.client, to).0, s.log + Navigate(s.client, to).1, Entered(s, e))
    case Got(thread, m) => State(Receive(s.client, thread, m), s.log, Entered(s, e))
  }

  ghost predicate Run(states: seq<State>, events: seq<Event>) {
    && |states| == |events| + 1
    && states[0].client.sync == NotRequested && states[0].log == [] && states[0].entered == {}
    && forall k | 0 <= k < |events| :: states[k + 1] == Next(states[k], events[k])
  }

  /** The feed last synchronized to, and the pages asked for since. */
  function FeedSince(log: seq<Request>): Option<u64> {
    if log == [] then None
    else
      var last := log[|log| - 1];
      if last.Synchronize? then Some(last.feed) else FeedSince(log[..|log| - 1])
  }

  function PagesSince(log: seq<Request>): seq<i32> {
    if log == [] then []
    else
      var last := log[|log| - 1];
      if last.Synchronize? then [] else PagesSince(log[..|log| - 1]) + [last.page]
  }

  predicate AllDifferent(pages: seq<i32>) {
    forall i, j | 0 <= i < j < |pages| :: pages[i] != pages[j]
  }

  /** Every page waited for was asked for under its number since the last synchronization, or entered
      under that number when it came; every page asked for is still known. */
  ghost predicate Inv(s: State) {
    var asked := PagesSince(s.log);
    && AllDifferent(asked)
    && (forall k | k in s.entered :: -0x8000_0000 <= k < 0x8000_0000)
    && match s.client.sync
       case NotRequested => FeedSince(s.log) == None && asked == []
       case Receiving(feed, _, pages) =>
         && FeedSince(s.log) == Some(feed)
         && (forall k | k in pages :: -0x8000_0000 <= k < 0x8000_0000)
         && (forall k | k in pages && pages[k].None? :: k in asked || k in s.entered)
         && forall p | p in asked :: p as int in pages
       case Synced(feed, received) =>
         && FeedSince(s.log) == Some(feed)
         && (forall k | k in received && !received[k] :: exists p | p in asked :: AsU32(p) == k)
         && forall p | p in asked :: AsU32(p) in received
  }

  lemma LogMore(log: seq<Request>, r: Request)
    ensures FeedSince(log + [r]) == if r.Synchronize? then Some(r.feed) else FeedSince(log)
    ensures PagesSince(log + [r]) == if r.Synchronize? then [] else PagesSince(log) + [r.page]
  {
    assert (log + [r])[..|log|] == log;
  }

  lemma WentKeeps(s: State, to: Location)
    requires Inv(s)
    ensures Inv(Next(s, Went(to)))
  {
    hide Navigate, FeedSince, PagesSince;
    NavigateAsks(s.client, to);
    var sent := Navigate(s.client, to).1;
    if Changes(s.client, to) {
      ChangeSends(s.client, to);
      assert s.log + sent == s.log + [sent[0]] + sent[1..];
      LogMore(s.log, sent[0]);
      if |sent| == 2 {
        assert sent == [sent[0], sent[1]];
        assert s.log + sent == s.log + [sent[0]] + [sent[1]];
        LogMore(s.log + [sent[0]], sent[1]);
        assert PagesSince(s.log + sent) == [to.page];
      } else {
        assert s.log + sent == s.log + [sent[0]];
      }
    } else if sent == [] {
      assert s.log + sent == s.log;
      PagesInOne(sent);
    } else {
      assert sent == [sent[0]] && sent[0] in sent;
      PagesInOne(sent);
      LogMore(s.log, sent[0]);
      StayKeeps(s, sent[0].page, Navigate(s.client, to).0);
    }
  }

  lemma ChangeSends(c: Client, to: Location)
    requires Changes(c, to)
    ensures |Navigate(c, to).1| == if to.ToThread? then 2 else 1
    ensures to.ToThread? ==> Navigate(c, to).1[1] == RequestPage(to.page)
  {
  }

  lemma StayKeeps(s: State, page: i32, after: Client)
    requires Inv(s) && AwaitsMore(s.client, after, [page])
    ensures Inv(State(after, s.log + [RequestPage(page)], s.entered))
  {
    hide FeedSince, PagesSince;
    LogMore(s.log, RequestPage(page));
    assert page in [page];
    var asked := PagesSince(s.log);
    var more := asked + [page];
    assert forall p :: p in more <==> p in asked || p == page;
    match s.client.sync
    case Receiving(_, _, pages) => assert page !in asked;
    case Synced(_, received) =>
      assert page !in asked;
      forall k | k in after.sync.received && !after.sync.received[k] ensures exists p | p in more :: AsU32(p) == k {
        if k in received {
          var p :| p in asked && AsU32(p) == k;
          assert p in more;
        } else {
          assert page in more && AsU32(page) == k;
        }
      }
    case NotRequested =>
  }

  lemma GotKeeps(s: State, thread: u64, m: ServerMsg)
    requires Inv(s)
    ensures Inv(Next(s, Got(thread, m)))
  {
    hide FeedSince, PagesSince, PatchNode, Held, HeldIds;
    if m.PageMsg? && m.posts != map[] {
      PageKeeps(s, thread, m.pageOf, m.posts);
    } else {
      assert Receive(s.client, thread, m).sync == s.client.sync
          || (m.ThreadMetaMsg? && s.client.sync.Receiving?);
    }
  }

  lemma PageKeeps(s: State, thread: u64, page: PageID, posts: Posts)
    requires Inv(s) && posts != map[]
    ensures Inv(Next(s, Got(thread, PageMsg(page, posts))))
  {
    hide FeedSince, PagesSince, Held, HeldIds, AllDifferent;
    var asked := PagesSince(s.log);
    match s.client.sync
    case Receiving(feed, Some(count), pages) =>
      if feed == thread {
        var pages' := Arrived(pages, count, page, posts);
        assert -(count - page) == page - count;
        if AllArrived(pages') {
          forall p | p in asked ensures AsU32(p) in AllReceived(pages') {
            assert p as int in pages';
          }
        }
      }
    case _ =>
  }

  lemma StepKeeps(s: State, e: Event)
    requires Inv(s)
    ensures Inv(Next(s, e))
  {
    match e
    case Went(to) => WentKeeps(s, to);
    case Got(thread, m) => GotKeeps(s, thread, m);
  }

  lemma {:induction false} RunKeeps(states: seq<State>, events: seq<Event>, k: nat)
    requires Run(states, events) && k <= |events|
    ensures Inv(states[k])
  {
    hide Inv, Next;
    if k == 0 {
      Fresh(states[0]);
    } else {
      RunKeeps(states, events, k - 1);
      assert states[k - 1 + 1] == Next(states[k - 1], events[k - 1]);
      StepKeeps(states[k - 1], events[k - 1]);
    }
  }

  lemma Fresh(s: State)
    requires s.client.sync == NotRequested && s.log == [] && s.entered == {}
    ensures Inv(s)
  {
  }

  /** In every run the client follows the feed it last synchronized to, has asked for no page twice since,
      and waits for no page that it has not asked for since, by its own number; other than, while it
      receives, under the number counted from the end of one that has come. */
  lemma AwaitedAsked(states: seq<State>, events: seq<Event>, k: nat, page: i32)
    requires Run(states, events) && k <= |events| && Awaits(states[k].client, page)
    ensures FeedSince(states[k].log) == Some(states[k].client.sync.feed) && AllDifferent(PagesSince(states[k].log))
    ensures page in PagesSince(states[k].log) || (states[k].client.sync.Receiving? && page as int in states[k].entered)
  {
    RunKeeps(states, events, k);
    if states[k].client.sync.Synced? {
      var p :| p in PagesSince(states[k].log) && AsU32(p) == AsU32(page);
      SameCast(p, page);
    }
  }

  lemma SameCast(a: i32, b: i32)
    requires AsU32(a) == AsU32(b)
    ensures a == b
  {
  }
}
