/** A client's copy of the posts it has been sent, and its synchronization to a feed (`state::Agent`). */
module Replica {
  import opened MachineInts
  import opened PostBody
  import opened Iteration
  import opened Messages

  // ----- synchronization -----

  /** What is asked of the server. */
  datatype Request = Synchronize(feed: u64) | RequestPage(page: i32)

  datatype Location = ToIndex | ToThread(id: u64, page: i32)

  function FeedOf(to: Location): u64 {
    if to.ToThread? then to.id else 0
  }

  /** While receiving, pages wait until all that were asked for have arrived. A page may be asked for
      from the end, by a negative number. */
  datatype Sync<P> =
    | NotRequested
    | Receiving(feed: u64, count: Option<PageID>, pages: map<int, Option<P>>)
    | Synced(feed: u64, received: map<u32, bool>)

  /** `counts` holds the page counts of the threads known. Nothing is ever removed from `posts`.
      `failed` records the posts for which a patch could not be applied. */
  datatype Client = Client(posts: Posts, counts: map<u64, PageID>, sync: Sync<Posts>, failed: set<u64>)

  /** `set_location` with `try_sync_feed`: the new state and what is sent. */
  function Navigate(c: Client, to: Location): (Client, seq<Request>) {
    match c.sync
    case Synced(feed, received) =>
      if FeedOf(to) != feed then StartSync(c, to)
      else if to.ToIndex? || to.page < -1 then (c, [])
      // without metainformation a page counted from the end cannot be told; the code panics
      else if to.page < 0 && feed !in c.counts then (c, [])
      else
        var page: i32 := if to.page < 0 then to.page + c.counts[feed] else to.page;
        if AsU32(page) in received then (c, [])
        else (c.(sync := Synced(feed, received[AsU32(page) := false])), [RequestPage(page)])
    case Receiving(feed, count, pages) =>
      if FeedOf(to) != feed then StartSync(c, to)
      else if to.ToIndex? || to.page in pages then (c, [])
      else (c.(sync := Receiving(feed, count, pages[to.page := None])), [RequestPage(to.page)])
    case NotRequested => StartSync(c, to)
  }

  function StartSync(c: Client, to: Location): (Client, seq<Request>) {
    match to
    case ToIndex => (c.(sync := Receiving(0, None, map[])), [Synchronize(0)])
    case ToThread(id, page) =>
      (c.(sync := Receiving(id, None, map[page := None])), [Synchronize(id), RequestPage(page)])
  }

  // ----- pages -----

  /** The pages after one has arrived. Its number counted from the end is entered as well. */
  function Arrived<P>(pages: map<int, Option<P>>, count: PageID, page: PageID, posts: P): map<int, Option<P>> {
    pages[page as int := Some(posts)][-(count - page) := None]
  }

  predicate AllArrived<P>(pages: map<int, Option<P>>) {
    forall k | k in pages && k >= 0 :: pages[k].Some?
  }

  predicate IsHeld<P>(pages: map<int, Option<P>>, k: int) {
    k in pages && k >= 0 && pages[k].Some?
  }

  function HeldIds(pages: map<int, Option<Posts>>): set<u64> {
    set k, id | k in pages && IsHeld(pages, k) && id in pages[k].value :: id
  }

  ghost function HeldPost(pages: map<int, Option<Posts>>, id: u64): Post
    requires id in HeldIds(pages)
  {
    var k :| k in pages && IsHeld(pages, k) && id in pages[k].value;
    pages[k].value[id]
  }

  ghost function Held(pages: map<int, Option<Posts>>): (r: Posts)
    ensures r.Keys == HeldIds(pages)
  {
    map id | id in HeldIds(pages) :: HeldPost(pages, id)
  }

  /** No post is on two of the pages. */
  ghost predicate Apart(pages: map<int, Option<Posts>>) {
    forall j, k, id | IsHeld(pages, j) && IsHeld(pages, k) && id in pages[j].value && id in pages[k].value :: j == k
  }

  lemma HeldAt(pages: map<int, Option<Posts>>, k: int, id: u64)
    requires Apart(pages) && IsHeld(pages, k) && id in pages[k].value
    ensures id in HeldIds(pages) && Held(pages)[id] == pages[k].value[id]
  {
  }

  function AllReceived<P>(pages: map<int, Option<P>>): map<u32, bool> {
    map k | k in pages :: AsU32(k) := true
  }

  /** `register_page`: kept back while others are awaited, then all registered together. */
  ghost function WithPage(c: Client, thread: u64, page: PageID, posts: Posts): Client {
    match c.sync
    case Receiving(feed, Some(count), pages) =>
      if feed != thread then c
      else
        var pages' := Arrived(pages, count, page, posts);
        if AllArrived(pages')
        then Client(c.posts + Held(pages'), c.counts[thread := count], Synced(feed, AllReceived(pages')), c.failed)
        else c.(sync := Receiving(feed, Some(count), pages'))
    case Synced(feed, received) =>
      if feed != thread then c
      else c.(posts := c.posts + posts, sync := Synced(feed, received[page := true]))
    case _ => c
  }

  /** With the page that arrives, no post is on two of the pages held. */
  ghost predicate HeldApart(c: Client, page: PageID, posts: Posts) {
    c.sync.Receiving? && c.sync.count.Some? ==> Apart(Arrived(c.sync.pages, c.sync.count.value, page, posts))
  }

  /** Exact: a page that arrives is registered at once iff every other page asked for by its number has
      arrived, and the page was already there when the page count was sent. */
  lemma ArrivalExact<P>(pages: map<int, Option<P>>, count: PageID, page: PageID, posts: P)
    ensures AllArrived(Arrived(pages, count, page, posts)) <==>
              page < count && forall k | k in pages && k >= 0 && k != page :: pages[k].Some?
  {
    var pages' := Arrived(pages, count, page, posts);
    var alias: int := -(count - page);
    assert alias in pages' && pages'[alias].None?;
    if page < count {
      assert page as int in pages' && pages'[page].Some?;
      forall k | k in pages && k >= 0 && k != page ensures k in pages' && pages'[k] == pages[k] {
      }
    }
  }

  // ----- messages -----

  /** Effect of one message of a thread's feed. */
  ghost function Receive(c: Client, thread: u64, m: ServerMsg): Client {
    match m
    case InsertPostMsg(id, page, t, time, opts) =>
      c.(posts := c.posts[id := NewPost(id, t, page, time, opts)])
    case PatchBodyMsg(id, patch) =>
      if id !in c.posts then c
      else
        var p := PatchNode(c.posts[id].body, patch);
        if p.error.Some? then c.(failed := c.failed + {id})
        else c.(posts := c.posts[id := c.posts[id].(body := p.result)])
    case ClosePostMsg(id, body) =>
      if id !in c.posts then c
      else c.(posts := c.posts[id := c.posts[id].(body := body, open := false)])
    case PageMsg(page, posts) => if posts == map[] then c else WithPage(c, thread, page, posts)
    case ThreadMetaMsg(id, count) =>
      if c.sync.Receiving? && c.sync.feed == id then c.(sync := c.sync.(count := Some(count))) else c
    // the receiving code knows no such message type and drops it with an error
    case ImmutablePageMsg(_) => c
    case DisconnectMsg => c
  }

  /** The posts a partitioned page carries. */
  function PageOf(page: seq<Post>): Posts {
    if page == [] then map[]
    else
      var last := page[|page| - 1];
      PageOf(page[..|page| - 1])[last.id := last]
  }

  function PagesOf(pages: map<int, Option<seq<Post>>>): map<int, Option<Posts>> {
    map k | k in pages :: if pages[k].Some? then Some(PageOf(pages[k].value)) else None
  }

  function SyncOf(s: Sync<seq<Post>>): Sync<Posts> {
    match s
    case NotRequested => NotRequested
    case Receiving(feed, count, pages) => Receiving(feed, count, PagesOf(pages))
    case Synced(feed, received) => Synced(feed, received)
  }

  /** `after` holds each post of the pages in `ks` as one of them has it, and the others as before. */
  ghost predicate Registered(before: Posts, pages: map<int, Option<Posts>>, ks: set<int>, after: Posts) {
    && (forall id | id in before :: id in after)
    && (forall id | id in after ::
          || (exists k :: k in ks && IsHeld(pages, k) && id in pages[k].value && after[id] == pages[k].value[id])
          || (id in before && after[id] == before[id] && !OnOneOf(pages, ks, id)))
    && (forall id | OnOneOf(pages, ks, id) :: id in after)
  }

  ghost predicate OnOneOf(pages: map<int, Option<Posts>>, ks: set<int>, id: u64) {
    exists k :: k in ks && IsHeld(pages, k) && id in pages[k].value
  }

  /** With no post on two pages, the order in which the pages are registered makes no difference. */
  lemma RegisteredApart(before: Posts, pages: map<int, Option<Posts>>, ks: set<int>, after: Posts)
    requires Apart(pages) && Registered(before, pages, ks, after) && forall k | IsHeld(pages, k) :: k in ks
    ensures after == before + Held(pages)
  {
    hide Apart, Registered, HeldIds, OnOneOf, Held;
    var all := before + Held(pages);
    forall id: u64 ensures (id in after <==> id in all) && (id in after ==> after[id] == all[id]) {
      RegisteredAs(before, pages, ks, after, id);
    }
  }

  lemma RegisteredAs(before: Posts, pages: map<int, Option<Posts>>, ks: set<int>, after: Posts, id: u64)
    requires Apart(pages) && Registered(before, pages, ks, after) && forall k | IsHeld(pages, k) :: k in ks
    ensures var all := before + Held(pages);
            (id in after <==> id in all) && (id in after ==> after[id] == all[id])
  {
    if id in HeldIds(pages) {
      var k :| k in pages && IsHeld(pages, k) && id in pages[k].value;
      assert k in ks;
    }
    if OnOneOf(pages, ks, id) {
      var k :| k in ks && IsHeld(pages, k) && id in pages[k].value && after[id] == pages[k].value[id];
      HeldAt(pages, k, id);
    }
  }

  lemma MoreRegistered(before: Posts, pages: map<int, Option<Posts>>, ks: set<int>, k: int, mid: Posts)
    requires Registered(before, pages, ks, mid) && IsHeld(pages, k)
    ensures Registered(before, pages, ks + {k}, mid + pages[k].value)
  {
    var after := mid + pages[k].value;
    forall id ensures OnOneOf(pages, ks + {k}, id) <==> OnOneOf(pages, ks, id) || id in pages[k].value {
      if id in pages[k].value {
        assert k in ks + {k};
      }
      if OnOneOf(pages, ks, id) {
        var j :| j in ks && IsHeld(pages, j) && id in pages[j].value;
        assert j in ks + {k};
      }
    }
    forall id | id in after
      ensures (exists j :: j in ks + {k} && IsHeld(pages, j) && id in pages[j].value && after[id] == pages[j].value[id])
           || (id in before && after[id] == before[id] && !OnOneOf(pages, ks + {k}, id))
    {
      if id in pages[k].value {
        assert k in ks + {k} && after[id] == pages[k].value[id];
      } else if OnOneOf(pages, ks, id) {
        var j :| j in ks && IsHeld(pages, j) && id in pages[j].value && mid[id] == pages[j].value[id];
        assert j in ks + {k};
      }
    }
  }

  // ----- the agent -----

  /** The agent's requests, applied to its fields. */
  class Agent {
    var posts: Posts
    var counts: map<u64, PageID>
    var sync: Sync<seq<Post>>
    ghost var failed: set<u64>

    ghost function View(): Client
      reads this
    {
      Client(posts, counts, SyncOf(sync), failed)
    }

    constructor ()
      ensures View() == Client(map[], map[], NotRequested, {})
    {
      posts, counts, sync, failed := map[], map[], NotRequested, {};
    }

    method NavigateTo(to: Location) returns (sent: seq<Request>)
      modifies this`sync
      ensures View() == Navigate(old(View()), to).0 && sent == Navigate(old(View()), to).1
    {
      sent := [];
      if sync.Synced? && sync.feed == FeedOf(to) && to.ToThread? {
        if to.page < -1 {
          return;
        }
        var page: i32 := to.page;
        if page < 0 {
          if sync.feed !in counts {
            return; // panic
          }
          page := page + counts[sync.feed];
        }
        if AsU32(page) !in sync.received {
          sync := Synced(sync.feed, sync.received[AsU32(page) := false]);
          sent := [RequestPage(page)];
        }
        return;
      }
      sent := TrySyncFeed(to);
    }

    method TrySyncFeed(to: Location) returns (sent: seq<Request>)
      requires sync.Synced? ==> to.ToIndex? || sync.feed != FeedOf(to)
      modifies this`sync
      ensures View() == Navigate(old(View()), to).0 && sent == Navigate(old(View()), to).1
    {
      sent := [];
      AskedView(if sync.Receiving? then sync.pages else map[], if to.ToThread? then to.page else 0);
      if sync.Receiving? && sync.feed == FeedOf(to) {
        if to.ToThread? && to.page !in sync.pages {
          sync := sync.(pages := sync.pages[to.page := None]);
          sent := [RequestPage(to.page)];
        }
      } else if sync.Synced? && sync.feed == FeedOf(to) {
        return;
      } else {
        var pages: map<int, Option<seq<Post>>> := map[];
        sent := [Synchronize(FeedOf(to))];
        if to.ToThread? {
          sent := sent + [RequestPage(to.page)];
          pages := pages[to.page := None];
        }
        sync := Receiving(FeedOf(to), None, pages);
      }
    }

    method RegisterThreadMeta(id: u64, count: PageID)
      modifies this`sync
      ensures View() == Receive(old(View()), id, ThreadMetaMsg(id, count))
    {
      if sync.Receiving? && sync.feed == id {
        sync := sync.(count := Some(count));
      }
    }

    method RegisterPost(p: Post)
      modifies this`posts
      ensures posts == old(posts)[p.id := p]
    {
      posts := posts[p.id := p];
    }

    method PatchPostBody(id: u64, patch: Patch)
      modifies this
      ensures View() == Receive(old(View()), 0, PatchBodyMsg(id, patch))
    {
      if id in posts {
        // the patch runs on a clone, so a failure leaves the post alone
        var new' := ApplyPatch(posts[id].body, patch);
        if new'.error.Some? {
          failed := failed + {id};
        } else {
          posts := posts[id := posts[id].(body := new'.result)];
        }
      }
    }

    method ClosePost(id: u64, body: Node)
      modifies this`posts
      ensures View() == Receive(old(View()), 0, ClosePostMsg(id, body))
    {
      if id in posts {
        posts := posts[id := posts[id].(body := body)];
        posts := posts[id := posts[id].(open := false)];
      }
    }

    /** Registers a page's posts one by one, in the order they came. */
    method RegisterEach(page: seq<Post>)
      modifies this`posts
      ensures posts == old(posts) + PageOf(page)
    {
      for k := 0 to |page|
        invariant posts == old(posts) + PageOf(page[..k])
      {
        assert page[..k + 1][..k] == page[..k];
        RegisterPost(page[k]);
      }
      assert page[..|page|] == page;
    }

    /** Registers all pages held, in the order the hash map yields them. */
    method RegisterHeld(pages: map<int, Option<seq<Post>>>) returns (ghost done: set<int>)
      modifies this`posts
      ensures Registered(old(posts), PagesOf(pages), done, posts) && forall k | k in pages :: k in done
    {
      hide Registered, PageOf;
      var order := IterationOrder(pages);
      done := {};
      NothingRegistered(posts, PagesOf(pages));
      for i := 0 to |order|
        invariant forall k :: k in done <==> k in order[..i]
        invariant Registered(old(posts), PagesOf(pages), done, posts)
      {
        var k := order[i];
        if k >= 0 && pages[k].Some? {
          MoreRegistered(old(posts), PagesOf(pages), done, k, posts);
          RegisterEach(pages[k].value);
        } else {
          NotHeld(old(posts), PagesOf(pages), done, k, posts);
        }
        done := done + {k};
      }
      assert order[..|order|] == order;
    }

    method RegisterPage(page: seq<Post>)
      modifies this
      ensures page == [] ==> View() == old(View())
      ensures page != [] && HeldApart(old(View()), page[0].page, PageOf(page)) ==>
                View() == WithPage(old(View()), page[0].thread, page[0].page, PageOf(page))
    {
      if page == [] {
        return;
      }
      match sync
      case Receiving(feed, count, pages) =>
        if count.Some? && feed == page[0].thread {
          var pages' := Arrived(pages, count.value, page[0].page, page);
          ArrivedView(pages, count.value, page[0].page, page);
          if AllArrived(pages') {
            sync := Synced(feed, AllReceived(pages'));
            counts := counts[feed := count.value];
            ghost var before := posts;
            ghost var done := RegisterHeld(pages');
            if Apart(PagesOf(pages')) {
              RegisteredApart(before, PagesOf(pages'), done, posts);
            }
          } else {
            sync := Receiving(feed, count, pages');
          }
        }
      case Synced(feed, received) =>
        if feed == page[0].thread {
          sync := Synced(feed, received[page[0].page := true]);
          RegisterEach(page);
        }
      case NotRequested =>
    }
  }

  lemma NothingRegistered(posts: Posts, pages: map<int, Option<Posts>>)
    ensures Registered(posts, pages, {}, posts)
  {
  }

  lemma AskedView(pages: map<int, Option<seq<Post>>>, page: int)
    ensures PagesOf(pages[page := None]) == PagesOf(pages)[page := None]
    ensures PagesOf(map[]) == map[] && PagesOf(map[page := None]) == map[page := None]
  {
  }

  lemma NotHeld(before: Posts, pages: map<int, Option<Posts>>, ks: set<int>, k: int, mid: Posts)
    requires Registered(before, pages, ks, mid) && !IsHeld(pages, k)
    ensures Registered(before, pages, ks + {k}, mid)
  {
    forall id ensures OnOneOf(pages, ks + {k}, id) <==> OnOneOf(pages, ks, id) {
      if OnOneOf(pages, ks, id) {
        var j :| j in ks && IsHeld(pages, j) && id in pages[j].value;
        assert j in ks + {k};
      }
    }
    forall id | id in mid && OnOneOf(pages, ks, id)
      ensures exists j :: j in ks + {k} && IsHeld(pages, j) && id in pages[j].value && mid[id] == pages[j].value[id]
    {
      var j :| j in ks && IsHeld(pages, j) && id in pages[j].value && mid[id] == pages[j].value[id];
      assert j in ks + {k};
    }
  }

  /** Keeping vectors of posts or maps of posts makes no difference to what has arrived. */
  lemma ArrivedView(pages: map<int, Option<seq<Post>>>, count: PageID, page: PageID, posts: seq<Post>)
    ensures var pages' := Arrived(pages, count, page, posts);
            && PagesOf(pages') == Arrived(PagesOf(pages), count, page, PageOf(posts))
            && (AllArrived(pages') <==> AllArrived(PagesOf(pages')))
            && AllReceived(pages') == AllReceived(PagesOf(pages'))
  {
    hide PageOf;
    var pages' := Arrived(pages, count, page, posts);
    var views := PagesOf(pages');
    assert views == Arrived(PagesOf(pages), count, page, PageOf(posts));
    assert views.Keys == pages'.Keys;
    forall k | k in pages' ensures pages'[k].Some? <==> views[k].Some? {
    }
  }

  // ----- one post at a time -----

  /** What is known of a single post. */
  datatype Cell = Cell(post: Option<Post>, failed: bool)

  function PostAt(posts: Posts, id: u64): Option<Post> {
    if id in posts then Some(posts[id]) else None
  }

  function CellAt(c: Client, id: u64): Cell {
    Cell(PostAt(c.posts, id), id in c.failed)
  }

  /** Effect of a message about the cell's own post. */
  function CellStep(c: Cell, m: ServerMsg): Cell {
    match m
    case InsertPostMsg(id, page, thread, time, opts) =>
      c.(post := Some(NewPost(id, thread, page, time, opts)))
    case PatchBodyMsg(_, patch) =>
      if c.post.None? then c
      else
        var p := PatchNode(c.post.value.body, patch);
        if p.error.Some? then c.(failed := true)
        else c.(post := Some(c.post.value.(body := p.result)))
    case ClosePostMsg(_, body) =>
      if c.post.None? then c else c.(post := Some(c.post.value.(body := body, open := false)))
    case _ => c
  }

  function Track(c: Cell, ms: seq<ServerMsg>): Cell
    decreases |ms|
  {
    if ms == [] then c else Track(CellStep(c, ms[0]), ms[1..])
  }

  predicate IsUpdate(m: ServerMsg) {
    m.InsertPostMsg? || m.PatchBodyMsg? || m.ClosePostMsg?
  }

  /** A stream of post updates: no page snapshots in it. */
  ghost predicate Updates(ms: seq<ServerMsg>) {
    forall m | m in ms :: IsUpdate(m)
  }

  ghost function ReceiveAll(c: Client, thread: u64, ms: seq<ServerMsg>): Client
    decreases |ms|
  {
    if ms == [] then c else ReceiveAll(Receive(c, thread, ms[0]), thread, ms[1..])
  }

  /** Posts do not interfere: what a client shows of one post depends only on the messages about it. */
  lemma {:induction false} ReceiveAllAt(c: Client, thread: u64, ms: seq<ServerMsg>, id: u64)
    requires Updates(ms)
    ensures CellAt(ReceiveAll(c, thread, ms), id) == Track(CellAt(c, id), For(ms, id))
    ensures ReceiveAll(c, thread, ms).sync == c.sync && ReceiveAll(c, thread, ms).counts == c.counts
    decreases |ms|
  {
    if ms != [] {
      assert ms[0] in ms;
      ReceiveAllAt(Receive(c, thread, ms[0]), thread, ms[1..], id);
      if About(ms[0], id) {
        assert For(ms, id) == [ms[0]] + For(ms[1..], id);
        assert For(ms, id)[1..] == For(ms[1..], id);
        assert CellAt(Receive(c, thread, ms[0]), id) == CellStep(CellAt(c, id), ms[0]);
      } else {
        assert For(ms, id) == For(ms[1..], id);
        assert CellAt(Receive(c, thread, ms[0]), id) == CellAt(c, id);
      }
    }
  }

  lemma {:induction false} TrackConcat(c: Cell, a: seq<ServerMsg>, b: seq<ServerMsg>)
    ensures Track(c, a + b) == Track(Track(c, a), b)
    decreases |a|
  {
    if a == [] {
      assert a + b == b;
    } else {
      assert (a + b)[1..] == a[1..] + b;
      TrackConcat(CellStep(c, a[0]), a[1..], b);
    }
  }

  /** A failure recorded earlier changes nothing in what follows. */
  lemma {:induction false} TrackFlag(p: Option<Post>, failed: bool, ms: seq<ServerMsg>)
    ensures var c := Track(Cell(p, false), ms);
            Track(Cell(p, failed), ms) == Cell(c.post, failed || c.failed)
    decreases |ms|
  {
    if ms != [] {
      var c := CellStep(Cell(p, false), ms[0]);
      TrackFlag(c.post, c.failed, ms[1..]);
      TrackFlag(c.post, failed || c.failed, ms[1..]);
    }
  }
}
