/** Following one client through what it is sent: which of its posts must be up to date. */
module Watching {
  import opened MachineInts
  import opened PostBody
  import opened Messages
  import opened FeedState
  import opened Replica
  import opened FeedInvariant

  /** A client, and the history of its subscription: the posts in step with the feed, the pages
      registered in step, all pages registered, and for each page kept back the updates received
      since it came, which it has missed. */
  datatype Watch = Watch(
    client: Client,
    sure: set<u64>,
    seen: set<int>,
    got: set<int>,
    missed: map<int, seq<ServerMsg>>)

  /** A new subscriber, whatever it still has of earlier feeds. */
  function Start(c: Client): Watch {
    Watch(c, {}, {}, {}, map[])
  }

  function HeldPages(c: Client): map<int, Option<Posts>> {
    if c.sync.Receiving? then c.sync.pages else map[]
  }

  function Missed(w: Watch, k: int): seq<ServerMsg> {
    if k in w.missed then w.missed[k] else []
  }

  /** The updates missed leave a post kept back as it was. */
  ghost predicate Unharmed(pages: map<int, Option<Posts>>, missed: map<int, seq<ServerMsg>>, k: int, id: u64)
    requires IsHeld(pages, k) && id in pages[k].value
  {
    Track(Cell(Some(pages[k].value[id]), false), For(if k in missed then missed[k] else [], id))
    == Cell(Some(pages[k].value[id]), false)
  }

  ghost predicate UnharmedAt(pages: map<int, Option<Posts>>, missed: map<int, seq<ServerMsg>>, id: u64) {
    forall k | IsHeld(pages, k) && id in pages[k].value :: Unharmed(pages, missed, k, id)
  }

  ghost predicate UnharmedPage(pages: map<int, Option<Posts>>, missed: map<int, seq<ServerMsg>>, k: int) {
    IsHeld(pages, k) && forall id | id in pages[k].value :: Unharmed(pages, missed, k, id)
  }

  /** The client receives a page of the feed. */
  ghost function GetPage(w: Watch, thread: u64, page: PageID, posts: Posts): Watch {
    var c := WithPage(w.client, thread, page, posts);
    match w.client.sync
    case Receiving(feed, Some(count), pages) =>
      if feed != thread then w
      else
        var pages' := Arrived(pages, count, page, posts);
        var missed' := w.missed[page as int := []];
        if !AllArrived(pages') then w.(client := c, missed := missed')
        else
          var held := set k | k in pages' && IsHeld(pages', k);
          Watch(c,
                (w.sure - HeldIds(pages')) + (set id | id in HeldIds(pages') && UnharmedAt(pages', missed', id)),
                (w.seen - held) + (set k | k in held && UnharmedPage(pages', missed', k)),
                w.got + held,
                map[])
    case Synced(feed, _) =>
      if feed != thread then w
      else Watch(c, w.sure + posts.Keys, w.seen + {page as int}, w.got + {page as int}, w.missed)
    case _ => w
  }

  ghost function Observe(w: Watch, thread: u64, m: ServerMsg): Watch {
    if IsUpdate(m) then
      w.(client := Receive(w.client, thread, m),
         sure := w.sure + (if m.InsertPostMsg? then {m.id} else {}),
         missed := map k | k in w.missed :: w.missed[k] + [m])
    else if m.PageMsg? && m.posts != map[] then GetPage(w, thread, m.pageOf, m.posts)
    else w.(client := Receive(w.client, thread, m))
  }

  ghost function ObserveAll(w: Watch, thread: u64, ms: seq<ServerMsg>): Watch
    decreases |ms|
  {
    if ms == [] then w else ObserveAll(Observe(w, thread, ms[0]), thread, ms[1..])
  }

  lemma ObserveReceives(w: Watch, thread: u64, m: ServerMsg)
    ensures Observe(w, thread, m).client == Receive(w.client, thread, m)
  {
  }

  // ----- a stream of updates -----

  predicate InsertedBy(ms: seq<ServerMsg>, id: u64) {
    exists m | m in ms :: m.InsertPostMsg? && m.id == id
  }

  lemma {:induction false} ObserveUpdates(w: Watch, thread: u64, ms: seq<ServerMsg>)
    requires Updates(ms)
    ensures var w' := ObserveAll(w, thread, ms);
            && w'.client == ReceiveAll(w.client, thread, ms)
            && w'.seen == w.seen && w'.got == w.got
            && (forall id :: id in w'.sure <==> id in w.sure || InsertedBy(ms, id))
            && w'.missed == map k | k in w.missed :: w.missed[k] + ms
    decreases |ms|
  {
    hide Receive;
    if ms == [] {
      assert forall k | k in w.missed :: w.missed[k] + ms == w.missed[k];
    } else {
      assert ms[0] in ms;
      var w1 := Observe(w, thread, ms[0]);
      ObserveUpdates(w1, thread, ms[1..]);
      assert forall k | k in w.missed :: w.missed[k] + [ms[0]] + ms[1..] == w.missed[k] + ms;
      forall id ensures InsertedBy(ms, id) <==> (ms[0].InsertPostMsg? && ms[0].id == id) || InsertedBy(ms[1..], id) {
        if InsertedBy(ms, id) {
          var m :| m in ms && m.InsertPostMsg? && m.id == id;
          assert m == ms[0] || m in ms[1..];
        }
        if InsertedBy(ms[1..], id) {
          var m :| m in ms[1..] && m.InsertPostMsg? && m.id == id;
          assert m in ms;
        }
      }
    }
  }

  // ----- invariant -----

  /** The client has the post, or will have it, in its present state once the buffer is flushed. */
  predicate Caught(f: Feed, posts: Posts, page: PageID, id: u64)
    requires page in f.pages && id in PostsOn(f, page)
  {
    Track(Cell(PostAt(posts, id), false), For(f.buffered, id)) == Cell(Some(PostsOn(f, page)[id]), false)
  }

  /** Known to be in step, or about to be announced. */
  predicate Sure(f: Feed, w: Watch, id: u64) {
    id in w.sure || InsertedBy(f.buffered, id)
  }

  ghost predicate SurePosts(f: Feed, w: Watch) {
    && (forall id | id in w.sure :: OnSomePage(f, id))
    && (forall page, id | page in f.pages && id in PostsOn(f, page) && Sure(f, w, id) ::
          Caught(f, w.client.posts, page, id))
  }

  ghost predicate SeenPage(f: Feed, w: Watch, k: int) {
    0 <= k < 0x8000_0000 && IsLoaded(f, k) && forall id | id in PostsOn(f, k) :: Sure(f, w, id)
  }

  ghost predicate SeenPages(f: Feed, w: Watch) {
    forall k | k in w.seen :: SeenPage(f, w, k)
  }

  /** A page kept back would be in step had it been given what it missed. */
  ghost predicate HeldPage(f: Feed, w: Watch, k: int, posts: Posts) {
    && 0 <= k < 0x8000_0000 && IsLoaded(f, k)
    && k in w.missed
    && (forall id | id in posts ::
          && id in PostsOn(f, k)
          && Track(Cell(Some(posts[id]), false), For(w.missed[k] + f.buffered, id))
             == Cell(Some(PostsOn(f, k)[id]), false))
    && (forall id | id in PostsOn(f, k) && id !in posts :: Sure(f, w, id))
  }

  ghost predicate HeldPagesKept(f: Feed, w: Watch) {
    forall k | IsHeld(HeldPages(w.client), k) :: HeldPage(f, w, k, HeldPages(w.client)[k].value)
  }

  ghost predicate WatchInv(f: Feed, w: Watch) {
    SurePosts(f, w) && SeenPages(f, w) && HeldPagesKept(f, w)
  }

  // ----- the feed's own steps -----

  lemma SureGrows(f: Feed, g: Feed, w: Watch)
    requires SurePosts(f, w) && FeedInv(f) && Grows(f, g) && Unique(g)
    ensures SurePosts(g, w)
  {
    forall id | id in w.sure ensures OnSomePage(g, id) {
      StaysOnPage(f, g, id);
    }
    forall page, id | page in g.pages && id in PostsOn(g, page) && Sure(g, w, id)
      ensures Caught(g, w.client.posts, page, id)
    {
      if InsertedBy(f.buffered, id) {
        var m :| m in f.buffered && m.InsertPostMsg? && m.id == id;
        assert OnSomePage(f, m.id);
      }
      OnThatPage(f, g, page, id);
      assert Caught(f, w.client.posts, page, id);
    }
  }

  lemma WatchGrows(f: Feed, g: Feed, w: Watch)
    requires FeedInv(f) && WatchInv(f, w) && Grows(f, g) && Unique(g)
    ensures WatchInv(g, w)
  {
    hide SurePosts, Track;
    SureGrows(f, g, w);
    forall k | k in w.seen ensures SeenPage(g, w, k) {
      assert SeenPage(f, w, k);
    }
    forall k | IsHeld(HeldPages(w.client), k) ensures HeldPage(g, w, k, HeldPages(w.client)[k].value) {
      assert HeldPage(f, w, k, HeldPages(w.client)[k].value);
      assert IsLoaded(f, k);
    }
  }

  lemma InsertedOneMore(ms: seq<ServerMsg>, m: ServerMsg, id: u64)
    ensures InsertedBy(ms + [m], id) <==> InsertedBy(ms, id) || (m.InsertPostMsg? && m.id == id)
  {
    if InsertedBy(ms, id) {
      var x :| x in ms && x.InsertPostMsg? && x.id == id;
      assert x in ms + [m];
    }
    assert m in ms + [m];
  }

  lemma SureChanges(f: Feed, g: Feed, at: PageID, id: u64, now: Post, m: ServerMsg, w: Watch)
    requires FeedInv(f) && SurePosts(f, w) && PostChanges(f, g, at, id, now, m)
    ensures SurePosts(g, w)
  {
    forall i | i in w.sure ensures OnSomePage(g, i) {
      StillOnPage(f, g, at, id, now, m, i);
    }
    forall page, i | page in g.pages && i in PostsOn(g, page) && Sure(g, w, i)
      ensures Caught(g, w.client.posts, page, i)
    {
      InsertedOneMore(f.buffered, m, i);
      CaughtChanges(f, g, at, id, now, m, w, page, i);
    }
  }

  lemma CaughtChanges(f: Feed, g: Feed, at: PageID, id: u64, now: Post, m: ServerMsg, w: Watch, page: PageID, i: u64)
    requires FeedInv(f) && SurePosts(f, w) && PostChanges(f, g, at, id, now, m)
    requires page in g.pages && i in PostsOn(g, page)
    requires Sure(f, w, i) || (m.InsertPostMsg? && i == id)
    ensures Caught(g, w.client.posts, page, i)
  {
    var c := Cell(PostAt(w.client.posts, i), false);
    TrackOneMore(f, g, at, id, now, m, c, i);
    if i == id {
      assert page == at;
      BufferedNeverFails(f, c, i);
      if m.ClosePostMsg? {
        assert Caught(f, w.client.posts, page, i);
      }
    } else {
      assert i in PostsOn(f, page) && PostsOn(f, page)[i] == PostsOn(g, page)[i];
      assert Caught(f, w.client.posts, page, i);
    }
  }

  lemma HeldChanges(f: Feed, g: Feed, at: PageID, id: u64, now: Post, m: ServerMsg, w: Watch, k: int, posts: Posts)
    requires FeedInv(f) && HeldPage(f, w, k, posts) && PostChanges(f, g, at, id, now, m)
    ensures HeldPage(g, w, k, posts)
  {
    forall i | i in posts
      ensures i in PostsOn(g, k)
      ensures Track(Cell(Some(posts[i]), false), For(w.missed[k] + g.buffered, i)) == Cell(Some(PostsOn(g, k)[i]), false)
    {
      var c := Cell(Some(posts[i]), false);
      assert w.missed[k] + g.buffered == w.missed[k] + f.buffered + [m];
      ForConcat(w.missed[k] + f.buffered, [m], i);
      assert [m][1..] == [];
      TrackConcat(c, For(w.missed[k] + f.buffered, i), For([m], i));
      if i == id {
        assert k == at && For([m], i) == [m];
        assert Track(c, For(w.missed[k] + g.buffered, i)) == CellStep(Cell(Some(PostsOn(f, k)[i]), false), m);
      } else {
        assert For([m], i) == [];
      }
    }
    forall i | i in PostsOn(g, k) && i !in posts ensures Sure(g, w, i) {
      InsertedOneMore(f.buffered, m, i);
    }
  }

  lemma WatchChanges(f: Feed, g: Feed, at: PageID, id: u64, now: Post, m: ServerMsg, w: Watch)
    requires FeedInv(f) && WatchInv(f, w) && PostChanges(f, g, at, id, now, m)
    ensures WatchInv(g, w)
  {
    hide SurePosts;
    SureChanges(f, g, at, id, now, m, w);
    forall k | k in w.seen ensures SeenPage(g, w, k) {
      assert SeenPage(f, w, k);
      forall i | i in PostsOn(g, k) ensures Sure(g, w, i) {
        InsertedOneMore(f.buffered, m, i);
        assert i != id ==> i in PostsOn(f, k);
      }
    }
    forall k | IsHeld(HeldPages(w.client), k) ensures HeldPage(g, w, k, HeldPages(w.client)[k].value) {
      HeldChanges(f, g, at, id, now, m, w, k, HeldPages(w.client)[k].value);
    }
  }

  // ----- the flush -----

  lemma PatchedPost(f: Feed, g: Feed, patches: seq<ServerMsg>, page: PageID, id: u64)
    requires FeedInv(f) && OnlyBodiesChange(f, g) && PatchesBetween(f, g, patches)
    requires page in f.pages && id in PostsOn(f, page)
    ensures id in PostsOn(g, page)
    ensures var was, now := PostsOn(f, page)[id], PostsOn(g, page)[id];
            For(patches, id) == PatchStream(id, was.body, now.body) && StringsFit(was.body) && now == was.(body := now.body)
  {
  }

  /** What the flushed stream does to a cell that is in step, or to a post kept back. */
  lemma FlushedCell(f: Feed, g: Feed, patches: seq<ServerMsg>, page: PageID, id: u64, p: Option<Post>, before: seq<ServerMsg>)
    requires FeedInv(f) && OnlyBodiesChange(f, g) && PatchesBetween(f, g, patches)
    requires page in f.pages && id in PostsOn(f, page) && id in PostsOn(g, page)
    requires Track(Cell(p, false), For(before + f.buffered, id)) == Cell(Some(PostsOn(f, page)[id]), false)
    ensures Track(Cell(p, false), For(before + (f.buffered + patches), id)) == Cell(Some(PostsOn(g, page)[id]), false)
  {
    hide Track, PatchesBetween, OnlyBodiesChange, FeedInv;
    var was, now := PostsOn(f, page)[id], PostsOn(g, page)[id];
    PatchedPost(f, g, patches, page, id);
    assert before + (f.buffered + patches) == before + f.buffered + patches;
    ForConcat(before + f.buffered, patches, id);
    TrackConcat(Cell(p, false), For(before + f.buffered, id), For(patches, id));
    PostPatched(was, now, id);
  }

  lemma FlushedSure(f: Feed, g: Feed, patches: seq<ServerMsg>, thread: u64, w: Watch)
    requires FeedInv(f) && SurePosts(f, w) && OnlyBodiesChange(f, g) && PatchesBetween(f, g, patches)
    requires g.buffered == [] && Updates(f.buffered + patches)
    ensures SurePosts(g, ObserveAll(w, thread, f.buffered + patches))
    ensures forall id :: id in ObserveAll(w, thread, f.buffered + patches).sure <==> Sure(f, w, id)
  {
    hide Track, Receive;
    var ms := f.buffered + patches;
    var w' := ObserveAll(w, thread, ms);
    ObserveUpdates(w, thread, ms);
    forall id ensures id in w'.sure <==> Sure(f, w, id) {
      PatchesInsertNothing(f.buffered, patches, id);
    }
    forall id | id in w'.sure ensures OnSomePage(g, id) {
      if InsertedBy(f.buffered, id) {
        var m :| m in f.buffered && m.InsertPostMsg? && m.id == id;
        assert OnSomePage(f, m.id);
      }
      var page :| page in f.pages && id in PostsOn(f, page);
      assert id in PostsOn(g, page);
    }
    forall page, id | page in g.pages && id in PostsOn(g, page) && Sure(g, w', id)
      ensures Caught(g, w'.client.posts, page, id)
    {
      FlushedCaught(f, g, patches, thread, w, page, id);
    }
  }

  lemma PatchesInsertNothing(buffered: seq<ServerMsg>, patches: seq<ServerMsg>, id: u64)
    requires forall m | m in patches :: m.PatchBodyMsg?
    ensures InsertedBy(buffered + patches, id) <==> InsertedBy(buffered, id)
  {
    if InsertedBy(buffered, id) {
      var m :| m in buffered && m.InsertPostMsg? && m.id == id;
      assert m in buffered + patches;
    }
  }

  lemma FlushedCaught(f: Feed, g: Feed, patches: seq<ServerMsg>, thread: u64, w: Watch, page: PageID, id: u64)
    requires FeedInv(f) && SurePosts(f, w) && OnlyBodiesChange(f, g) && PatchesBetween(f, g, patches)
    requires g.buffered == [] && Updates(f.buffered + patches)
    requires page in f.pages && id in PostsOn(f, page) && id in PostsOn(g, page) && Sure(f, w, id)
    ensures Caught(g, ReceiveAll(w.client, thread, f.buffered + patches).posts, page, id)
    ensures !Track(Cell(PostAt(w.client.posts, id), false), For(f.buffered + patches, id)).failed
  {
    hide Receive, PatchesBetween, OnlyBodiesChange, FeedInv, PostsOn, IsLoaded;
    var ms := f.buffered + patches;
    var p := PostAt(w.client.posts, id);
    assert Caught(f, w.client.posts, page, id);
    assert [] + f.buffered == f.buffered && [] + ms == ms;
    FlushedCell(f, g, patches, page, id, p, []);
    ReceiveAllAt(w.client, thread, ms, id);
    TrackFlag(p, id in w.client.failed, For(ms, id));
    TrackNothing(Cell(PostAt(ReceiveAll(w.client, thread, ms).posts, id), false), g, id);
  }

  lemma TrackNothing(c: Cell, g: Feed, id: u64)
    requires g.buffered == []
    ensures Track(c, For(g.buffered, id)) == c
  {
  }

  lemma WatchFlushed(f: Feed, g: Feed, patches: seq<ServerMsg>, thread: u64, w: Watch)
    requires FeedInv(f) && WatchInv(f, w) && OnlyBodiesChange(f, g) && PatchesBetween(f, g, patches)
    requires g.buffered == [] && Updates(f.buffered + patches)
    ensures WatchInv(g, ObserveAll(w, thread, f.buffered + patches))
  {
    hide SurePosts, Receive, Track, PatchesBetween, OnlyBodiesChange;
    var ms := f.buffered + patches;
    var w' := ObserveAll(w, thread, ms);
    FlushedSure(f, g, patches, thread, w);
    ObserveUpdates(w, thread, ms);
    ReceiveAllAt(w.client, thread, ms, 0);
    SameIds(f, g);
    forall k | k in w'.seen ensures SeenPage(g, w', k) {
      assert SeenPage(f, w, k);
    }
    forall k | IsHeld(HeldPages(w'.client), k) ensures HeldPage(g, w', k, HeldPages(w'.client)[k].value) {
      HeldFlushed(f, g, patches, w, w', k, HeldPages(w.client)[k].value);
    }
  }

  lemma SameIds(f: Feed, g: Feed)
    requires OnlyBodiesChange(f, g)
    ensures g.pages.Keys == f.pages.Keys
    ensures forall page | page in f.pages :: IsLoaded(f, page) == IsLoaded(g, page) && PostsOn(g, page).Keys == PostsOn(f, page).Keys
  {
  }

  lemma HeldFlushed(f: Feed, g: Feed, patches: seq<ServerMsg>, w: Watch, w': Watch, k: int, posts: Posts)
    requires FeedInv(f) && HeldPage(f, w, k, posts) && OnlyBodiesChange(f, g) && PatchesBetween(f, g, patches)
    requires g.buffered == [] && k in w'.missed && w'.missed[k] == w.missed[k] + (f.buffered + patches)
    requires forall id :: id in w'.sure <==> Sure(f, w, id)
    ensures HeldPage(g, w', k, posts)
  {
    hide Track;
    assert w'.missed[k] + [] == w'.missed[k];
    forall id | id in posts
      ensures id in PostsOn(g, k)
      ensures Track(Cell(Some(posts[id]), false), For(w'.missed[k] + g.buffered, id))
           == Cell(Some(PostsOn(g, k)[id]), false)
    {
      FlushedCell(f, g, patches, k, id, Some(posts[id]), w.missed[k]);
    }
  }

  // ----- a page of the feed arrives -----

  /** A page as it is in the feed is in step: replaying the buffer over it changes nothing. */
  lemma FreshPage(f: Feed, page: PageID, id: u64)
    requires FeedInv(f) && page in f.pages && id in PostsOn(f, page)
    ensures Track(Cell(Some(PostsOn(f, page)[id]), false), For([] + f.buffered, id))
         == Cell(Some(PostsOn(f, page)[id]), false)
  {
    assert [] + f.buffered == f.buffered;
    var c := Cell(Some(PostsOn(f, page)[id]), false);
    assert Track(c, For(f.buffered, id)) == c;
  }

  /** Exact: of a post kept back, the state registered is in step iff the updates it missed make no
      difference to what the buffer makes of it. In particular it is if there were none, and with
      nothing buffered it is only if they leave it as it was. */
  lemma ReleasedExact(f: Feed, w: Watch, k: int, posts: Posts, id: u64)
    requires FeedInv(f) && HeldPage(f, w, k, posts) && id in posts
    ensures var c := Cell(Some(posts[id]), false);
            && (Track(c, For(f.buffered, id)) == Cell(Some(PostsOn(f, k)[id]), false) <==>
                Track(Track(c, For(w.missed[k], id)), For(f.buffered, id)) == Track(c, For(f.buffered, id)))
            && (For(w.missed[k], id) == [] ==> Track(c, For(f.buffered, id)) == Cell(Some(PostsOn(f, k)[id]), false))
            && (For(f.buffered, id) == [] ==>
                  (Track(c, For(f.buffered, id)) == Cell(Some(PostsOn(f, k)[id]), false) <==>
                   Track(c, For(w.missed[k], id)) == c))
  {
    var c := Cell(Some(posts[id]), false);
    ForConcat(w.missed[k], f.buffered, id);
    TrackConcat(c, For(w.missed[k], id), For(f.buffered, id));
  }

  lemma UnharmedInStep(f: Feed, w: Watch, pages: map<int, Option<Posts>>, k: int, id: u64)
    requires FeedInv(f) && IsHeld(pages, k) && HeldPage(f, w, k, pages[k].value) && id in pages[k].value
    requires Unharmed(pages, w.missed, k, id)
    ensures Track(Cell(Some(pages[k].value[id]), false), For(f.buffered, id)) == Cell(Some(PostsOn(f, k)[id]), false)
  {
    ReleasedExact(f, w, k, pages[k].value, id);
  }

  /** The pages once one more has arrived are all still as good as given what they missed. */
  lemma ArrivedHeld(f: Feed, w: Watch, count: PageID, page: PageID)
    requires FeedInv(f) && HeldPagesKept(f, w) && IsLoaded(f, page)
    requires w.client.sync.Receiving?
    ensures var pages' := Arrived(w.client.sync.pages, count, page, PostsOn(f, page));
            var w' := w.(missed := w.missed[page as int := []]);
            forall k | IsHeld(pages', k) :: HeldPage(f, w', k, pages'[k].value)
  {
    hide Track;
    var pages := w.client.sync.pages;
    var pages' := Arrived(pages, count, page, PostsOn(f, page));
    var w' := w.(missed := w.missed[page as int := []]);
    forall k | IsHeld(pages', k) ensures HeldPage(f, w', k, pages'[k].value) {
      if k == page {
        forall id | id in PostsOn(f, page)
          ensures Track(Cell(Some(PostsOn(f, page)[id]), false), For(w'.missed[k] + f.buffered, id))
               == Cell(Some(PostsOn(f, page)[id]), false)
        {
          FreshPage(f, page, id);
        }
      } else {
        assert IsHeld(pages, k) && pages'[k] == pages[k];
        assert IsHeld(HeldPages(w.client), k);
        assert HeldPage(f, w, k, pages[k].value);
      }
    }
  }

  /** Pages held are pages of the feed, and no post is on two of those. */
  lemma HeldAreApart(f: Feed, w: Watch, pages: map<int, Option<Posts>>)
    requires FeedInv(f) && forall k | IsHeld(pages, k) :: HeldPage(f, w, k, pages[k].value)
    ensures Apart(pages)
  {
    forall j, k, id | IsHeld(pages, j) && IsHeld(pages, k) && id in pages[j].value && id in pages[k].value
      ensures j == k
    {
      assert HeldPage(f, w, j, pages[j].value) && HeldPage(f, w, k, pages[k].value);
      assert id in PostsOn(f, j) && id in PostsOn(f, k);
    }
  }

  /** All pages held are registered. */
  lemma WatchReleased(f: Feed, w: Watch, thread: u64, count: PageID, page: PageID)
    requires FeedInv(f) && WatchInv(f, w) && IsLoaded(f, page)
    requires w.client.sync.Receiving? && w.client.sync.feed == thread && w.client.sync.count == Some(count)
    requires AllArrived(Arrived(w.client.sync.pages, count, page, PostsOn(f, page)))
    ensures WatchInv(f, GetPage(w, thread, page, PostsOn(f, page)))
  {
    hide Track, AllArrived;
    var pages' := Arrived(w.client.sync.pages, count, page, PostsOn(f, page));
    var wait := w.(missed := w.missed[page as int := []]);
    var w' := GetPage(w, thread, page, PostsOn(f, page));
    ArrivedHeld(f, w, count, page);
    HeldAreApart(f, wait, pages');
    assert w'.client.posts == w.client.posts + Held(pages');
    ReleasedSure(f, w, wait, pages', w');
    ReleasedSeen(f, w, wait, pages', w');
  }

  lemma ReleasedSure(f: Feed, w: Watch, wait: Watch, pages: map<int, Option<Posts>>, w': Watch)
    requires FeedInv(f) && SurePosts(f, w) && Apart(pages) && wait.sure == w.sure
    requires forall k | IsHeld(pages, k) :: HeldPage(f, wait, k, pages[k].value)
    requires w'.client.posts == w.client.posts + Held(pages)
    requires w'.sure == (w.sure - HeldIds(pages))
                        + (set id | id in HeldIds(pages) && UnharmedAt(pages, wait.missed, id))
    ensures SurePosts(f, w')
  {
    hide Track, IsHeld, HeldPage;
    forall id | id in w'.sure ensures OnSomePage(f, id) {
      if id in HeldIds(pages) {
        var _ := HeldOnPage(f, wait, pages, id);
      }
    }
    forall page, id | page in f.pages && id in PostsOn(f, page) && Sure(f, w', id)
      ensures Caught(f, w'.client.posts, page, id)
    {
      if id in HeldIds(pages) {
        ReleasedCaught(f, w, wait, pages, w', page, id);
      } else {
        assert Caught(f, w.client.posts, page, id);
      }
    }
  }

  lemma HeldOnPage(f: Feed, w: Watch, pages: map<int, Option<Posts>>, id: u64) returns (k: int)
    requires id in HeldIds(pages) && forall k | IsHeld(pages, k) :: HeldPage(f, w, k, pages[k].value)
    ensures IsHeld(pages, k) && id in pages[k].value && 0 <= k < 0x8000_0000 && k in f.pages && id in PostsOn(f, k)
    ensures OnSomePage(f, id) && HeldPage(f, w, k, pages[k].value)
  {
    k :| k in pages && IsHeld(pages, k) && id in pages[k].value;
    assert HeldPage(f, w, k, pages[k].value);
    var page: PageID := k;
    assert page in f.pages && id in PostsOn(f, page);
  }

  lemma ReleasedCaught(f: Feed, w: Watch, wait: Watch, pages: map<int, Option<Posts>>, w': Watch, page: PageID, id: u64)
    requires FeedInv(f) && SurePosts(f, w) && Apart(pages)
    requires forall k | IsHeld(pages, k) :: HeldPage(f, wait, k, pages[k].value)
    requires w'.client.posts == w.client.posts + Held(pages) && id in HeldIds(pages)
    requires page in f.pages && id in PostsOn(f, page)
    requires UnharmedAt(pages, wait.missed, id) || InsertedBy(f.buffered, id)
    ensures Caught(f, w'.client.posts, page, id)
  {
    hide Track, HeldPage;
    var k := HeldOnPage(f, wait, pages, id);
    assert k == page;
    HeldAt(pages, k, id);
    assert PostAt(w'.client.posts, id) == Some(pages[k].value[id]);
    if UnharmedAt(pages, wait.missed, id) {
      assert Unharmed(pages, wait.missed, k, id);
      UnharmedInStep(f, wait, pages, k, id);
    } else {
      InsertCatchesAny(f, page, id, Some(pages[k].value[id]));
    }
  }

  /** A post about to be announced will be in step whatever the client has of it. */
  lemma InsertCatchesAny(f: Feed, page: PageID, id: u64, p: Option<Post>)
    requires FeedInv(f) && InsertedBy(f.buffered, id) && page in f.pages && id in PostsOn(f, page)
    ensures Track(Cell(p, false), For(f.buffered, id)) == Cell(Some(PostsOn(f, page)[id]), false)
  {
    var c := Cell(Some(PostsOn(f, page)[id]), false);
    assert Track(c, For(f.buffered, id)) == c;
    InsertForgets(f.buffered, id, p, c.post);
  }

  lemma {:induction false} InsertForgets(ms: seq<ServerMsg>, id: u64, p: Option<Post>, q: Option<Post>)
    requires InsertedBy(ms, id) && forall m | m in ms :: m.InsertPostMsg? || m.ClosePostMsg?
    ensures Track(Cell(p, false), For(ms, id)) == Track(Cell(q, false), For(ms, id))
    decreases |ms|
  {
    var m := ms[0];
    assert m in ms;
    if About(m, id) {
      assert For(ms, id)[0] == m && For(ms, id)[1..] == For(ms[1..], id);
      var cp, cq := CellStep(Cell(p, false), m), CellStep(Cell(q, false), m);
      if m.InsertPostMsg? {
        assert cp == cq;
      } else {
        InsertLater(ms, id);
        InsertForgets(ms[1..], id, cp.post, cq.post);
        assert cp == Cell(cp.post, false) && cq == Cell(cq.post, false);
      }
    } else {
      assert For(ms, id) == For(ms[1..], id);
      InsertLater(ms, id);
      InsertForgets(ms[1..], id, p, q);
    }
  }

  lemma InsertLater(ms: seq<ServerMsg>, id: u64)
    requires ms != [] && InsertedBy(ms, id) && !(ms[0].InsertPostMsg? && ms[0].id == id)
    ensures InsertedBy(ms[1..], id)
  {
    var m :| m in ms && m.InsertPostMsg? && m.id == id;
    assert m in ms[1..];
  }

  lemma ReleasedSeen(f: Feed, w: Watch, wait: Watch, pages: map<int, Option<Posts>>, w': Watch)
    requires FeedInv(f) && SeenPages(f, w) && Apart(pages) && wait.sure == w.sure
    requires forall k | IsHeld(pages, k) :: HeldPage(f, wait, k, pages[k].value)
    requires w'.sure == (w.sure - HeldIds(pages))
                        + (set id | id in HeldIds(pages) && UnharmedAt(pages, wait.missed, id))
    requires var held := set k | k in pages && IsHeld(pages, k);
             w'.seen == (w.seen - held) + (set k | k in held && UnharmedPage(pages, wait.missed, k))
    ensures SeenPages(f, w')
  {
    hide Track, Unharmed;
    forall k | k in w'.seen ensures SeenPage(f, w', k) {
      if IsHeld(pages, k) {
        assert HeldPage(f, wait, k, pages[k].value) && UnharmedPage(pages, wait.missed, k);
      } else {
        assert SeenPage(f, w, k);
      }
      forall id | id in PostsOn(f, k) ensures Sure(f, w', id) {
        PageSure(f, w, wait, pages, w', k, id);
      }
    }
  }

  lemma PageSure(f: Feed, w: Watch, wait: Watch, pages: map<int, Option<Posts>>, w': Watch, k: PageID, id: u64)
    requires FeedInv(f) && Apart(pages) && wait.sure == w.sure
    requires forall j | IsHeld(pages, j) :: HeldPage(f, wait, j, pages[j].value)
    requires w'.sure == (w.sure - HeldIds(pages))
                        + (set id | id in HeldIds(pages) && UnharmedAt(pages, wait.missed, id))
    requires IsLoaded(f, k) && id in PostsOn(f, k)
    requires if IsHeld(pages, k) then UnharmedPage(pages, wait.missed, k) else Sure(f, w, id)
    ensures Sure(f, w', id)
  {
    hide Track, Unharmed;
    if id in HeldIds(pages) {
      var j := HeldOnPage(f, wait, pages, id);
      assert j == k;
      forall i | IsHeld(pages, i) && id in pages[i].value ensures Unharmed(pages, wait.missed, i, id) {
        assert i == j;
      }
    } else if IsHeld(pages, k) {
      assert HeldPage(f, wait, k, pages[k].value);
      assert id in pages[k].value ==> id in HeldIds(pages);
    }
  }

  /** Any page of the feed may arrive at any time. */
  lemma WatchGetsPage(f: Feed, w: Watch, thread: u64, page: PageID)
    requires FeedInv(f) && WatchInv(f, w) && IsLoaded(f, page)
    ensures WatchInv(f, GetPage(w, thread, page, PostsOn(f, page)))
  {
    hide Track, SurePosts, SeenPages, HeldPagesKept, AllArrived;
    var posts := PostsOn(f, page);
    var w' := GetPage(w, thread, page, posts);
    match w.client.sync
    case Receiving(feed, Some(count), pages) =>
      if feed == thread {
        if AllArrived(Arrived(pages, count, page, posts)) {
          WatchReleased(f, w, thread, count, page);
        } else {
          ArrivedHeld(f, w, count, page);
          StillWaiting(f, w, w', w.(missed := w.missed[page as int := []]));
        }
      }
    case Synced(feed, received) =>
      if feed == thread {
        PageRegistered(f, w, w', page);
      }
    case _ =>
  }

  lemma StillWaiting(f: Feed, w: Watch, w': Watch, wait: Watch)
    requires WatchInv(f, w) && w'.client.posts == w.client.posts && w'.sure == w.sure && w'.seen == w.seen
    requires wait.sure == w.sure && w'.missed == wait.missed && w'.client.sync.Receiving?
    requires forall k | IsHeld(w'.client.sync.pages, k) :: HeldPage(f, wait, k, w'.client.sync.pages[k].value)
    ensures WatchInv(f, w')
  {
    hide Track;
    forall page, id | page in f.pages && id in PostsOn(f, page) && Sure(f, w', id)
      ensures Caught(f, w'.client.posts, page, id)
    {
      assert Caught(f, w.client.posts, page, id);
    }
    forall k | k in w'.seen ensures SeenPage(f, w', k) {
      assert SeenPage(f, w, k);
    }
    forall k | IsHeld(HeldPages(w'.client), k) ensures HeldPage(f, w', k, HeldPages(w'.client)[k].value) {
      assert HeldPage(f, wait, k, w'.client.sync.pages[k].value);
    }
  }

  lemma PageRegistered(f: Feed, w: Watch, w': Watch, page: PageID)
    requires FeedInv(f) && WatchInv(f, w) && IsLoaded(f, page)
    requires w'.client.posts == w.client.posts + PostsOn(f, page) && HeldPages(w'.client) == map[]
    requires w'.sure == w.sure + PostsOn(f, page).Keys && w'.seen == w.seen + {page as int}
    ensures WatchInv(f, w')
  {
    hide Track;
    forall id | id in w'.sure ensures OnSomePage(f, id) {
      if id in PostsOn(f, page) {
        assert page in f.pages;
      }
    }
    forall q, id | q in f.pages && id in PostsOn(f, q) && Sure(f, w', id)
      ensures Caught(f, w'.client.posts, q, id)
    {
      if id in PostsOn(f, page) {
        assert q == page;
        FreshPage(f, page, id);
        assert [] + f.buffered == f.buffered;
      } else {
        assert Caught(f, w.client.posts, q, id);
      }
    }
    forall k | k in w'.seen ensures SeenPage(f, w', k) {
      if k != page {
        assert SeenPage(f, w, k);
      }
    }
  }

  /** Exact: when the pages held are registered, a post of one of them is in step iff the updates missed
      make no difference to what the buffer makes of it. */
  lemma ReleaseExact(f: Feed, w: Watch, thread: u64, count: PageID, page: PageID, k: int, id: u64)
    requires FeedInv(f) && WatchInv(f, w) && IsLoaded(f, page)
    requires w.client.sync.Receiving? && w.client.sync.feed == thread && w.client.sync.count == Some(count)
    requires var pages' := Arrived(w.client.sync.pages, count, page, PostsOn(f, page));
             AllArrived(pages') && IsHeld(pages', k) && id in pages'[k].value
    ensures var held := Arrived(w.client.sync.pages, count, page, PostsOn(f, page))[k].value;
            var missed := if k == page then [] else Missed(w, k);
            var c := Cell(Some(held[id]), false);
            var w' := GetPage(w, thread, page, PostsOn(f, page));
            && 0 <= k < 0x8000_0000 && k in f.pages && id in PostsOn(f, k) && PostAt(w'.client.posts, id) == c.post
            && (Caught(f, w'.client.posts, k, id) <==>
                Track(Track(c, For(missed, id)), For(f.buffered, id)) == Track(c, For(f.buffered, id)))
            && (For(missed, id) == [] ==> Caught(f, w'.client.posts, k, id))
            && (For(f.buffered, id) == [] ==> (Caught(f, w'.client.posts, k, id) <==> Track(c, For(missed, id)) == c))
  {
    hide Track, AllArrived;
    var pages' := Arrived(w.client.sync.pages, count, page, PostsOn(f, page));
    var wait := w.(missed := w.missed[page as int := []]);
    ArrivedHeld(f, w, count, page);
    HeldAreApart(f, wait, pages');
    assert HeldPage(f, wait, k, pages'[k].value);
    HeldAt(pages', k, id);
    ReleasedExact(f, wait, k, pages'[k].value, id);
  }

  /** A page of which no post was updated while it was held is registered in step. */
  lemma QuietPage(pages: map<int, Option<Posts>>, missed: map<int, seq<ServerMsg>>, k: int)
    requires IsHeld(pages, k)
    requires forall id | id in pages[k].value :: For(if k in missed then missed[k] else [], id) == []
    ensures UnharmedPage(pages, missed, k)
  {
  }

  /** Going somewhere else only asks for pages or drops those held. */
  lemma WatchNavigates(f: Feed, w: Watch, to: Location)
    requires WatchInv(f, w)
    ensures WatchInv(f, w.(client := Navigate(w.client, to).0))
  {
    hide Track;
    var w' := w.(client := Navigate(w.client, to).0);
    assert w'.client.posts == w.client.posts;
    forall page, id | page in f.pages && id in PostsOn(f, page) && Sure(f, w', id)
      ensures Caught(f, w'.client.posts, page, id)
    {
      assert Caught(f, w.client.posts, page, id);
    }
    forall k | k in w'.seen ensures SeenPage(f, w', k) {
      assert SeenPage(f, w, k);
    }
    forall k | IsHeld(HeldPages(w'.client), k) ensures HeldPage(f, w', k, HeldPages(w'.client)[k].value) {
      assert IsHeld(HeldPages(w.client), k) && HeldPages(w'.client)[k] == HeldPages(w.client)[k];
      assert HeldPage(f, w, k, HeldPages(w.client)[k].value);
    }
  }

  /** Nor does the metainformation of the thread touch posts or pages. */
  lemma WatchGetsMeta(f: Feed, w: Watch, thread: u64, id: u64, count: PageID)
    requires WatchInv(f, w)
    ensures WatchInv(f, Observe(w, thread, ThreadMetaMsg(id, count)))
  {
    hide Track;
    var w' := Observe(w, thread, ThreadMetaMsg(id, count));
    forall page, i | page in f.pages && i in PostsOn(f, page) && Sure(f, w', i)
      ensures Caught(f, w'.client.posts, page, i)
    {
      assert Caught(f, w.client.posts, page, i);
    }
    forall k | k in w'.seen ensures SeenPage(f, w', k) {
      assert SeenPage(f, w, k);
    }
    forall k | IsHeld(HeldPages(w'.client), k) ensures HeldPage(f, w', k, HeldPages(w'.client)[k].value) {
      assert HeldPages(w'.client) == HeldPages(w.client);
      assert HeldPage(f, w, k, HeldPages(w.client)[k].value);
    }
  }

  // ----- pages that missed nothing -----

  /** No page held has missed an update of one of its posts. */
  ghost predicate QuietHeld(w: Watch) {
    forall k, id | IsHeld(HeldPages(w.client), k) && id in HeldPages(w.client)[k].value :: For(Missed(w, k), id) == []
  }

  /** Every page registered was registered in step. */
  ghost predicate AllInStep(w: Watch) {
    QuietHeld(w) && w.seen == w.got
  }

  lemma QuietPageArrives(w: Watch, thread: u64, page: PageID, posts: Posts)
    requires AllInStep(w)
    ensures AllInStep(GetPage(w, thread, page, posts))
  {
    hide For, Track, AllArrived, Held, HeldIds;
    match w.client.sync
    case Receiving(feed, Some(count), pages) =>
      if feed == thread {
        var pages' := Arrived(pages, count, page, posts);
        var missed' := w.missed[page as int := []];
        forall k | IsHeld(pages', k)
          ensures forall id | id in pages'[k].value :: For(if k in missed' then missed'[k] else [], id) == []
        {
          NoUpdates();
          if k != page {
            assert IsHeld(HeldPages(w.client), k) && pages'[k] == pages[k];
            assert Missed(w, k) == if k in missed' then missed'[k] else [];
          }
        }
        if AllArrived(pages') {
          AllUnharmed(pages', missed');
        }
      }
    case _ =>
  }

  lemma NoUpdates()
    ensures forall id :: For([], id) == []
  {
  }

  lemma AllUnharmed(pages: map<int, Option<Posts>>, missed: map<int, seq<ServerMsg>>)
    requires forall k | IsHeld(pages, k) ::
               forall id | id in pages[k].value :: For(if k in missed then missed[k] else [], id) == []
    ensures forall k | IsHeld(pages, k) :: UnharmedPage(pages, missed, k)
  {
    hide For, Track, Unharmed;
    forall k | IsHeld(pages, k) ensures UnharmedPage(pages, missed, k) {
      QuietPage(pages, missed, k);
    }
  }
}
