/** What a thread feed keeps true of itself, and how its steps change what is on its pages. */
module FeedInvariant {
  import opened MachineInts
  import opened PostBody
  import opened Iteration
  import opened Messages
  import opened FeedState
  import opened Replica

  // ----- what is assumed of the environment -----

  /** What is about to be parsed gives bodies that fit. */
  ghost predicate PendingFit(f: Feed, parse: string -> Node) {
    forall page, id | page in f.pendingBodies && id in f.pendingBodies[page] ::
      StringsFit(parse(f.pendingBodies[page][id]))
  }

  ghost predicate SoundPage(f: Feed, page: PageID, db: Posts) {
    && (forall id | id in db :: StringsFit(db[id].body))
    && (forall id, q | id in db && q in f.pages && id in PostsOn(f, q) :: q == page)
  }

  // ----- invariant -----

  ghost predicate Bodies(f: Feed) {
    forall page, id | page in f.pages && id in PostsOn(f, page) :: StringsFit(PostsOn(f, page)[id].body)
  }

  /** A cached page message carries the page as it is. */
  ghost predicate Coherent(f: Feed) {
    forall page | page in f.pages && f.pages[page].Mutable? && f.pages[page].cached.Some? ::
      f.pages[page].cached.value == f.pages[page].posts
  }

  /** Between pulses only inserts and closes are buffered, all for posts on loaded pages. */
  ghost predicate Buffer(f: Feed) {
    forall m | m in f.buffered :: (m.InsertPostMsg? || m.ClosePostMsg?) && OnSomePage(f, m.id)
  }

  /** A snapshot may already contain what is buffered: replaying it changes nothing. */
  ghost predicate Idempotent(f: Feed) {
    forall page, id, failed | page in f.pages && id in PostsOn(f, page) ::
      var c := Cell(Some(PostsOn(f, page)[id]), failed);
      Track(c, For(f.buffered, id)) == c
  }

  ghost predicate FeedInv(f: Feed) {
    Bodies(f) && Unique(f) && Coherent(f) && Buffer(f) && Idempotent(f)
  }

  // ----- growing: pages get loaded, caches filled or dropped, posts stay as they are -----

  ghost predicate IsLoaded(f: Feed, page: PageID) {
    page in f.pages && !f.pages[page].Unfetched?
  }

  ghost predicate Grows(f: Feed, g: Feed) {
    && g.buffered == f.buffered
    && forall page | IsLoaded(f, page) :: IsLoaded(g, page) && PostsOn(g, page) == PostsOn(f, page)
  }

  lemma StaysOnPage(f: Feed, g: Feed, id: u64)
    requires Grows(f, g) && OnSomePage(f, id)
    ensures OnSomePage(g, id)
  {
    var page :| page in f.pages && id in PostsOn(f, page);
    assert IsLoaded(f, page);
  }

  /** A post not on any page so far has no messages buffered. */
  lemma {:induction false} NothingBuffered(f: Feed, ms: seq<ServerMsg>, id: u64)
    requires forall m | m in ms :: (m.InsertPostMsg? || m.ClosePostMsg? || m.PatchBodyMsg?) && OnSomePage(f, m.id)
    requires !OnSomePage(f, id)
    ensures For(ms, id) == []
    decreases |ms|
  {
    if ms != [] {
      assert ms[0] in ms;
      NothingBuffered(f, ms[1..], id);
    }
  }

  lemma FeedGrows(f: Feed, g: Feed)
    requires FeedInv(f) && Grows(f, g) && Bodies(g) && Unique(g) && Coherent(g)
    ensures FeedInv(g)
  {
    forall m | m in g.buffered ensures OnSomePage(g, m.id) {
      StaysOnPage(f, g, m.id);
    }
    forall page, id, failed | page in g.pages && id in PostsOn(g, page)
      ensures var c := Cell(Some(PostsOn(g, page)[id]), failed); Track(c, For(g.buffered, id)) == c
    {
      if OnSomePage(f, id) {
        OnThatPage(f, g, page, id);
      } else {
        NothingBuffered(f, f.buffered, id);
      }
    }
  }

  lemma OnThatPage(f: Feed, g: Feed, page: PageID, id: u64)
    requires Grows(f, g) && Unique(g) && OnSomePage(f, id) && page in g.pages && id in PostsOn(g, page)
    ensures page in f.pages && id in PostsOn(f, page) && PostsOn(f, page) == PostsOn(g, page)
  {
    var q :| q in f.pages && id in PostsOn(f, q);
    assert IsLoaded(f, q);
    assert id in PostsOn(g, q);
  }

  // ----- one post changes, and a message about it is buffered -----

  lemma {:induction false} NoPatchNoFailure(c: Cell, ms: seq<ServerMsg>)
    requires forall m | m in ms :: m.InsertPostMsg? || m.ClosePostMsg?
    ensures Track(c, ms).failed == c.failed
    decreases |ms|
  {
    if ms != [] {
      assert ms[0] in ms;
      NoPatchNoFailure(CellStep(c, ms[0]), ms[1..]);
    }
  }

  lemma {:induction false} ForIsPart(ms: seq<ServerMsg>, id: u64)
    ensures forall m | m in For(ms, id) :: m in ms && About(m, id)
    decreases |ms|
  {
    if ms != [] {
      ForIsPart(ms[1..], id);
    }
  }

  ghost predicate PostChanges(f: Feed, g: Feed, at: PageID, id: u64, now: Post, m: ServerMsg) {
    && IsLoaded(f, at) && g.pages.Keys == f.pages.Keys
    && (forall page | page in f.pages && page != at :: g.pages[page] == f.pages[page])
    && g.pages[at] == Mutable(PostsOn(f, at)[id := now], None)
    && StringsFit(now.body)
    && (forall page | page in f.pages && id in PostsOn(f, page) :: page == at)
    && g.buffered == f.buffered + [m] && About(m, id)
    && (|| (m.InsertPostMsg? && now == NewPost(m.id, m.thread, m.page, m.time, m.opts))
        || (m.ClosePostMsg? && id in PostsOn(f, at)
            && now == PostsOn(f, at)[id].(body := m.body, open := false)))
  }

  lemma TrackOneMore(f: Feed, g: Feed, at: PageID, id: u64, now: Post, m: ServerMsg, c: Cell, i: u64)
    requires PostChanges(f, g, at, id, now, m)
    ensures i != id ==> For(g.buffered, i) == For(f.buffered, i)
    ensures i == id ==> Track(c, For(g.buffered, i)) == CellStep(Track(c, For(f.buffered, i)), m)
  {
    ForConcat(f.buffered, [m], i);
    assert [m][1..] == [];
    if i == id {
      assert For([m], i) == [m];
      TrackConcat(c, For(f.buffered, i), [m]);
    } else {
      assert For([m], i) == [];
    }
  }

  lemma BufferedNeverFails(f: Feed, c: Cell, id: u64)
    requires Buffer(f)
    ensures Track(c, For(f.buffered, id)).failed == c.failed
  {
    ForIsPart(f.buffered, id);
    NoPatchNoFailure(c, For(f.buffered, id));
  }

  /** Equal but for body and open flag. */
  predicate Alike(p: Post, q: Post) {
    p.(body := q.body, open := q.open) == q
  }

  lemma {:induction false} TrackAlike(p: Post, q: Post, failed: bool, ms: seq<ServerMsg>)
    requires Alike(p, q) && forall m | m in ms :: m.InsertPostMsg? || m.ClosePostMsg?
    ensures var c := Track(Cell(Some(p), failed), ms); var d := Track(Cell(Some(q), failed), ms);
            c.post.Some? && d.post.Some? && Alike(c.post.value, d.post.value)
    decreases |ms|
  {
    if ms != [] {
      assert ms[0] in ms;
      var c, d := CellStep(Cell(Some(p), failed), ms[0]), CellStep(Cell(Some(q), failed), ms[0]);
      TrackAlike(c.post.value, d.post.value, failed, ms[1..]);
    }
  }

  lemma ReplayedOnChanged(f: Feed, g: Feed, at: PageID, id: u64, now: Post, m: ServerMsg, failed: bool)
    requires FeedInv(f) && PostChanges(f, g, at, id, now, m)
    ensures Track(Cell(Some(now), failed), For(g.buffered, id)) == Cell(Some(now), failed)
  {
    var c := Cell(Some(now), failed);
    TrackOneMore(f, g, at, id, now, m, c, id);
    BufferedNeverFails(f, c, id);
    if m.ClosePostMsg? {
      var was := PostsOn(f, at)[id];
      ForIsPart(f.buffered, id);
      TrackAlike(was, now, failed, For(f.buffered, id));
      assert Track(Cell(Some(was), failed), For(f.buffered, id)) == Cell(Some(was), failed);
    }
  }

  lemma FeedChanges(f: Feed, g: Feed, at: PageID, id: u64, now: Post, m: ServerMsg)
    requires FeedInv(f) && PostChanges(f, g, at, id, now, m)
    ensures FeedInv(g)
  {
    forall x | x in g.buffered ensures (x.InsertPostMsg? || x.ClosePostMsg?) && OnSomePage(g, x.id) {
      if x in f.buffered {
        StillOnPage(f, g, at, id, now, m, x.id);
      } else {
        assert id in PostsOn(g, at);
      }
    }
    forall page, i, failed | page in g.pages && i in PostsOn(g, page)
      ensures var c := Cell(Some(PostsOn(g, page)[i]), failed); Track(c, For(g.buffered, i)) == c
    {
      if i == id {
        assert page == at;
        ReplayedOnChanged(f, g, at, id, now, m, failed);
      } else {
        assert PostsOn(f, page)[i] == PostsOn(g, page)[i];
        TrackOneMore(f, g, at, id, now, m, Cell(Some(PostsOn(g, page)[i]), failed), i);
      }
    }
  }

  lemma StillOnPage(f: Feed, g: Feed, at: PageID, id: u64, now: Post, m: ServerMsg, i: u64)
    requires PostChanges(f, g, at, id, now, m) && OnSomePage(f, i)
    ensures OnSomePage(g, i)
  {
    var page :| page in f.pages && i in PostsOn(f, page);
    assert i in PostsOn(g, page);
  }

  // ----- the pulse -----

  lemma ServingGrows(f: Feed)
    requires FeedInv(f)
    ensures Grows(f, ServeDeferred(f)) && FeedInv(ServeDeferred(f))
  {
    var g := ServeDeferred(f);
    assert forall page | page in f.pages :: PostsOn(g, page) == PostsOn(f, page);
    FeedGrows(f, g);
  }

  lemma LoadingGrows(f: Feed, db: map<PageID, Posts>)
    requires FeedInv(f)
    requires forall page | page in db && page in f.pages :: SoundPage(f, page, db[page])
    requires forall p, q, id | p in db && q in db && id in db[p] && id in db[q] :: p == q
    ensures Grows(f, LoadPending(f, db)) && FeedInv(LoadPending(f, db))
  {
    var g := LoadPending(f, db);
    forall page, id | page in g.pages && id in PostsOn(g, page)
      ensures (IsLoaded(f, page) && PostsOn(g, page) == PostsOn(f, page))
           || (page in db && PostsOn(g, page) == db[page])
    {
    }
    FeedGrows(f, g);
  }

  ghost predicate OnlyBodiesChange(f: Feed, g: Feed) {
    && g.pages.Keys == f.pages.Keys
    && forall page | page in f.pages ::
         && IsLoaded(f, page) == IsLoaded(g, page)
         && PostsOn(g, page).Keys == PostsOn(f, page).Keys
         && forall id | id in PostsOn(f, page) ::
              PostsOn(g, page)[id] == PostsOn(f, page)[id].(body := PostsOn(g, page)[id].body)
  }

  lemma ParsedPosts(f: Feed, parse: string -> Node)
    ensures OnlyBodiesChange(f, ParsePending(f, parse))
    ensures OnlyBodiesChange(f, ParsePending(f, parse).(buffered := []))
  {
  }

  lemma ParsingKeepsFeed(f: Feed, parse: string -> Node)
    requires FeedInv(f) && PendingFit(f, parse)
    ensures FeedInv(ParsePending(f, parse).(buffered := []))
  {
    ParsedPosts(f, parse);
    var g := ParsePending(f, parse).(buffered := []);
    forall page | page in f.pages ensures PostsOn(g, page).Keys == PostsOn(f, page).Keys {
    }
  }

  lemma {:induction false} PostPatched(was: Post, now: Post, id: u64)
    requires StringsFit(was.body) && now == was.(body := now.body)
    ensures Track(Cell(Some(was), false), PatchStream(id, was.body, now.body)) == Cell(Some(now), false)
  {
    DiffPatch(was.body, now.body);
    var ms := PatchStream(id, was.body, now.body);
    if ms != [] {
      assert ms[1..] == [];
    }
  }

  lemma {:induction false} PatchesNeedPost(c: Cell, id: u64, was: Node, now: Node)
    requires c.post.None?
    ensures Track(c, PatchStream(id, was, now)) == c
  {
    var ms := PatchStream(id, was, now);
    if ms != [] {
      assert ms[1..] == [];
    }
  }

  /** A client without the post either learns all of it from the stream or nothing at all. */
  lemma {:induction false} FromNothing(c: Cell, ms: seq<ServerMsg>)
    requires c.post.Some? && forall m | m in ms :: m.InsertPostMsg? || m.ClosePostMsg?
    ensures var d := Track(Cell(None, c.failed), ms);
            d == Cell(None, c.failed) || d == Track(c, ms)
    decreases |ms|
  {
    if ms != [] {
      assert ms[0] in ms;
      if ms[0].ClosePostMsg? {
        FromNothing(CellStep(c, ms[0]), ms[1..]);
      }
    }
  }

  lemma PulseKeepsFeed(f: Feed, ch: PulseChoice)
    requires FeedInv(f)
    requires PendingFit(f, ch.parse)
    requires forall page | page in ch.db && page in f.pages :: SoundPage(f, page, ch.db[page])
    requires forall p, q, id | p in ch.db && q in ch.db && id in ch.db[p] && id in ch.db[q] :: p == q
    ensures Grows(f, BeforeDiff(f, ch)) && FeedInv(BeforeDiff(f, ch))
    ensures OnlyBodiesChange(BeforeDiff(f, ch), AfterDiff(f, ch).(buffered := []))
    ensures FeedInv(AfterDiff(f, ch).(buffered := []))
  {
    var served := ServeDeferred(f);
    ServingGrows(f);
    forall page | page in ch.db && page in served.pages ensures SoundPage(served, page, ch.db[page]) {
      SameOwners(f, served, page, ch.db[page]);
    }
    LoadingGrows(served, ch.db);
    ParsedPosts(BeforeDiff(f, ch), ch.parse);
    ParsingKeepsFeed(BeforeDiff(f, ch), ch.parse);
  }

  lemma SameOwners(f: Feed, g: Feed, page: PageID, db: Posts)
    requires g.pages.Keys == f.pages.Keys && SoundPage(f, page, db)
    requires forall q | q in f.pages :: PostsOn(g, q) == PostsOn(f, q)
    ensures SoundPage(g, page, db)
  {
  }

  lemma SamePatches(f: Feed, g: Feed, h: Feed, ms: seq<ServerMsg>)
    requires PatchesBetween(f, g, ms) && h.pages == g.pages
    ensures PatchesBetween(f, h, ms)
  {
    assert forall page :: PostsOn(h, page) == PostsOn(g, page);
  }

  // ----- single pages -----

  /** One page's record replaced, its posts unchanged unless it had not been loaded. */
  lemma RecordGrows(f: Feed, g: Feed, page: PageID, rec: PageRecord, db: Posts)
    requires FeedInv(f) && SoundPage(f, page, db)
    requires g.buffered == f.buffered && g.pages == f.pages[page := rec]
    requires !rec.Unfetched? && rec.posts == if IsLoaded(f, page) then PostsOn(f, page) else db
    requires rec.Mutable? && rec.cached.Some? ==> rec.cached.value == rec.posts
    ensures Grows(f, g) && Bodies(g) && Unique(g) && Coherent(g)
  {
    forall q ensures q != page ==> PostsOn(g, q) == PostsOn(f, q) {
    }
    assert PostsOn(g, page) == rec.posts;
  }

  /** A page sent at once: its record afterwards. */
  lemma FetchedRecord(f: Feed, asked: int, c: ClientID, db: Posts)
    requires Coherent(f) && InRange(f, asked) && PageAsked(f, asked) in f.pages
    requires var rec := f.pages[PageAsked(f, asked)]; !(rec.Mutable? && rec.cached.None?)
    ensures var (g, ds) := FetchPage(f, asked, c, db);
            var page := PageAsked(f, asked);
            && page in g.pages && g.buffered == f.buffered && g.pages == f.pages[page := g.pages[page]]
            && var rec := g.pages[page];
               && !rec.Unfetched? && rec.posts == (if IsLoaded(f, page) then PostsOn(f, page) else db)
               && (rec.Mutable? && rec.cached.Some? ==> rec.cached.value == rec.posts)
               && ds == [Delivery(c, [PageMessage(page, rec)])]
  {
    var page := PageAsked(f, asked);
    match f.pages[page]
    case Unfetched =>
    case Mutable(posts, m) =>
      assert f.pages[page].cached.value == posts;
    case Immutable(posts) =>
  }

  /** Every page up to the page count is known. */
  ghost predicate Filled(f: Feed) {
    forall page: PageID | page <= f.pageCount :: page in f.pages
  }

  lemma InsertFills(f: Feed, req: InsertReq, now: u32, db: Posts)
    requires Filled(f) && req.page <= f.pageCount + 1
    ensures Filled(InsertPost(f, req, now, db))
  {
  }

  /** Exact: with no page beyond the page count, an insertion leaves no gap iff it is on a known page or
      the next one. */
  lemma InsertFillsExact(f: Feed, req: InsertReq, now: u32, db: Posts)
    requires Filled(f) && forall page | page in f.pages :: page <= f.pageCount
    ensures Filled(InsertPost(f, req, now, db)) <==> req.page <= f.pageCount + 1
  {
    if req.page <= f.pageCount + 1 {
      InsertFills(f, req, now, db);
    } else {
      var gap: PageID := f.pageCount + 1;
      assert gap <= InsertPost(f, req, now, db).pageCount && gap !in InsertPost(f, req, now, db).pages;
    }
  }
}
