/** The thread feed actor: its handlers, each proved against the state change it stands for. */
module ThreadFeed {
  import opened MachineInts
  import opened PostBody
  import opened Messages
  import opened Iteration
  import opened Writer
  import F = FeedState

  type Bodies = map<u64, string>

  /** An open body that changed: its patch and its new tree. */
  datatype Mutation = Mutation(id: u64, patch: Patch, body: Node)

  function Announce(batch: seq<Mutation>): seq<ServerMsg> {
    if batch == [] then []
    else Announce(batch[..|batch| - 1]) + [PatchBodyMsg(batch[|batch| - 1].id, batch[|batch| - 1].patch)]
  }

  /** Every new tree is the parsed text that waits for the post on its own page. */
  ghost predicate Parsed(before: F.Feed, parse: string -> Node, batch: seq<Mutation>) {
    forall m | m in batch :: exists page :: ParsedAt(before, parse, page, m)
  }

  predicate ParsedAt(before: F.Feed, parse: string -> Node, page: PageID, m: Mutation) {
    && page in before.pages && m.id in F.PostsOn(before, page)
    && page in before.pendingBodies && m.id in before.pendingBodies[page]
    && m.body == parse(before.pendingBodies[page][m.id])
  }

  ghost predicate ParsedOn(pending: Bodies, parse: string -> Node, batch: seq<Mutation>) {
    forall m | m in batch :: m.id in pending && m.body == parse(pending[m.id])
  }

  lemma MoreParsed(before: F.Feed, parse: string -> Node, page: PageID, batch: seq<Mutation>, more: seq<Mutation>)
    requires Parsed(before, parse, batch)
    requires page in before.pendingBodies && ParsedOn(before.pendingBodies[page], parse, more)
    requires more == [] || page in before.pages
    requires forall m | m in more :: m.id in F.PostsOn(before, page)
    ensures Parsed(before, parse, batch + more)
  {
    forall m | m in batch + more ensures exists p :: ParsedAt(before, parse, p, m) {
      if m in more {
        assert ParsedAt(before, parse, page, m);
      }
    }
  }

  lemma {:induction false} Announced(batch: seq<Mutation>, m: Mutation)
    requires m in batch
    ensures PatchBodyMsg(m.id, m.patch) in Announce(batch)
    decreases |batch|
  {
    var init := batch[..|batch| - 1];
    if m in init {
      Announced(init, m);
    }
  }

  /** What the index is told on top of `g`: the changes of posts it may show, in order. */
  function Shared(g: Global, feed: u64, batch: seq<Mutation>, recent: u64): Global {
    if batch == [] then g
    else
      var m := batch[|batch| - 1];
      var before := Shared(g, feed, batch[..|batch| - 1], recent);
      if m.id == feed || m.id >= recent
      then AddChange(before, PatchBodyMsg(m.id, m.patch), BodySet(m.id, m.body, false)) else before
  }

  function AddChange(g: Global, m: ServerMsg, c: Change): Global {
    Global(g.messages + [m], g.changes + [c])
  }

  /** The change sets sent when these changes are flushed. */
  function Flushed(thread: u64, g: Global): seq<ChangeSet> {
    if g.changes == [] then [] else [ChangeSet(thread, g.messages, g.changes)]
  }

  lemma {:induction false} AnnounceConcat(a: seq<Mutation>, b: seq<Mutation>)
    ensures Announce(a + b) == Announce(a) + Announce(b)
    decreases |b|
  {
    if b == [] {
      assert a + b == a;
    } else {
      assert (a + b)[..|a + b| - 1] == a + b[..|b| - 1];
      AnnounceConcat(a, b[..|b| - 1]);
    }
  }

  function ServedPage(pages: map<PageID, F.PageRecord>, page: PageID): map<PageID, F.PageRecord> {
    if page in pages then pages[page := F.Served(pages[page])] else pages
  }

  /** Pages once the first `k` listed have been served. */
  function ServedPages(pages: map<PageID, F.PageRecord>, order: seq<PageID>, k: nat): (r: map<PageID, F.PageRecord>)
    requires k <= |order|
    ensures r.Keys == pages.Keys
  {
    if k == 0 then pages else ServedPage(ServedPages(pages, order, k - 1), order[k - 1])
  }

  lemma {:induction false} ServedPagesAt(pages: map<PageID, F.PageRecord>, order: seq<PageID>, k: nat, page: PageID)
    requires Distinct(order) && k <= |order| && page in pages
    ensures ServedPages(pages, order, k)[page] == if page in order[..k] then F.Served(pages[page]) else pages[page]
  {
    if k != 0 {
      ServedPagesAt(pages, order, k - 1, page);
      assert order[..k] == order[..k - 1] + [order[k - 1]];
    }
  }

  lemma AllServed(f: F.Feed, order: seq<PageID>)
    requires OrderOf(order, f.deferred.Keys)
    ensures ServedPages(f.pages, order, |order|) == F.ServeDeferred(f).pages
  {
    assert order[..|order|] == order;
    forall page | page in f.pages
      ensures ServedPages(f.pages, order, |order|)[page] == F.ServeDeferred(f).pages[page]
    {
      ServedPagesAt(f.pages, order, |order|, page);
    }
  }

  /** Serving the pages before it does not change what a page is sent as. */
  lemma NextServed(f: F.Feed, order: seq<PageID>, k: nat)
    requires OrderOf(order, f.deferred.Keys) && k < |order|
    ensures order[k] in f.deferred
    ensures F.DeferredOn(ServedPages(f.pages, order, k), order[k], f.deferred[order[k]])
         == F.DeferredOn(f.pages, order[k], F.Queue(f.deferred, order[k]))
  {
    assert order[k] in order && order[k] !in order[..k];
    if order[k] in f.pages {
      ServedPagesAt(f.pages, order, k, order[k]);
    }
  }

  /** A page's record once it has been loaded, if need be, and its pending bodies parsed. */
  function DiffedPage(pages: map<PageID, F.PageRecord>, page: PageID, pending: Bodies,
                      db: map<PageID, Posts>, parse: string -> Node): map<PageID, F.PageRecord> {
    if page in pages
    then pages[page := F.UpdatedRecord(F.LoadFrom(pages[page], page, db), pending, parse)] else pages
  }

  function DiffedPages(f: F.Feed, db: map<PageID, Posts>, parse: string -> Node, order: seq<PageID>, k: nat)
    : (r: map<PageID, F.PageRecord>)
    requires k <= |order| && forall page | page in order :: page in f.pendingBodies
    ensures r.Keys == f.pages.Keys
  {
    if k == 0 then f.pages
    else DiffedPage(DiffedPages(f, db, parse, order, k - 1), order[k - 1], f.pendingBodies[order[k - 1]], db, parse)
  }

  lemma {:induction false} DiffedPagesAt(f: F.Feed, db: map<PageID, Posts>, parse: string -> Node,
                                         order: seq<PageID>, k: nat, page: PageID)
    requires OrderOf(order, f.pendingBodies.Keys) && k <= |order| && page in f.pages
    ensures DiffedPages(f, db, parse, order, k)[page]
         == if page in order[..k]
            then F.UpdatedRecord(F.LoadFrom(f.pages[page], page, db), f.pendingBodies[page], parse) else f.pages[page]
  {
    if k != 0 {
      DiffedPagesAt(f, db, parse, order, k - 1, page);
      assert order[..k] == order[..k - 1] + [order[k - 1]];
    }
  }

  lemma AllDiffed(f: F.Feed, db: map<PageID, Posts>, parse: string -> Node, order: seq<PageID>)
    requires OrderOf(order, f.pendingBodies.Keys)
    ensures f.(pendingBodies := map[], pages := DiffedPages(f, db, parse, order, |order|))
         == F.ParsePending(F.LoadPending(f, db), parse)
  {
    assert order[..|order|] == order;
    var after := F.ParsePending(F.LoadPending(f, db), parse);
    forall page | page in f.pages ensures DiffedPages(f, db, parse, order, |order|)[page] == after.pages[page] {
      DiffedPagesAt(f, db, parse, order, |order|, page);
    }
  }

  lemma NextDiffed(f: F.Feed, db: map<PageID, Posts>, parse: string -> Node, order: seq<PageID>, k: nat)
    requires OrderOf(order, f.pendingBodies.Keys) && k < |order|
    ensures order[k] in f.pendingBodies && order[k] !in order[..k]
    ensures LoadedAt(DiffedPages(f, db, parse, order, k), order[k], db) == LoadedAt(f.pages, order[k], db)
    ensures order[..k + 1] == order[..k] + [order[k]]
  {
    assert order[k] in order && order[k] !in order[..k];
    if order[k] in f.pages {
      DiffedPagesAt(f, db, parse, order, k, order[k]);
    }
  }

  lemma SameBody(id: u64, body: Node)
    ensures F.PatchStream(id, body, body) == []
  {
    DiffNoneIffEqual(body, body);
  }

  /** `ms` holds exactly the patches that lead from the posts `was` to the posts `now`. */
  ghost predicate LeadsTo(was: Posts, now: Posts, ms: seq<ServerMsg>) {
    && now.Keys == was.Keys
    && (forall m | m in ms :: m.PatchBodyMsg? && m.id in was)
    && (forall id | id in was :: For(ms, id) == F.PatchStream(id, was[id].body, now[id].body))
  }

  lemma NothingLeads(posts: Posts)
    ensures LeadsTo(posts, posts, [])
  {
    forall id | id in posts ensures F.PatchStream(id, posts[id].body, posts[id].body) == [] {
      SameBody(id, posts[id].body);
    }
  }

  /** Posts after one of them, if it is there and open, has been given a new text. */
  function WithText(posts: Posts, id: u64, text: string, parse: string -> Node): Posts {
    if id in posts && posts[id].open then posts[id := posts[id].(body := parse(text))] else posts
  }

  function TextStream(posts: Posts, id: u64, text: string, parse: string -> Node): seq<ServerMsg> {
    if id in posts && posts[id].open then F.PatchStream(id, posts[id].body, parse(text)) else []
  }

  lemma OneMoreLeadsAt(was: Posts, now: Posts, ms: seq<ServerMsg>, id: u64, text: string,
                       parse: string -> Node, i: u64)
    requires i in was && i in now && (i == id ==> now[id].body == was[id].body)
    requires For(ms, i) == F.PatchStream(i, was[i].body, now[i].body)
    ensures For(ms + TextStream(now, id, text, parse), i)
         == F.PatchStream(i, was[i].body, WithText(now, id, text, parse)[i].body)
  {
    hide Diff;
    var more := TextStream(now, id, text, parse);
    ForConcat(ms, more, i);
    if i == id && now[id].open {
      SameBody(id, was[id].body);
      assert more == [] || more[1..] == [];
    } else {
      ForNobody(more, i);
    }
  }

  lemma OneMoreLeads(was: Posts, now: Posts, ms: seq<ServerMsg>, id: u64, text: string, parse: string -> Node)
    requires LeadsTo(was, now, ms) && (id in was ==> now[id].body == was[id].body)
    ensures LeadsTo(was, WithText(now, id, text, parse), ms + TextStream(now, id, text, parse))
  {
    hide Diff;
    var after := WithText(now, id, text, parse);
    var all := ms + TextStream(now, id, text, parse);
    forall i | i in was ensures For(all, i) == F.PatchStream(i, was[i].body, after[i].body) {
      OneMoreLeadsAt(was, now, ms, id, text, parse, i);
    }
  }

  /** `ms` holds exactly the patches of the pages done so far. */
  ghost predicate PatchesOn(before: F.Feed, after: F.Feed, done: seq<PageID>, ms: seq<ServerMsg>) {
    && after.pages.Keys == before.pages.Keys
    && (forall page | page in before.pages :: F.PostsOn(after, page).Keys == F.PostsOn(before, page).Keys)
    && (forall m | m in ms :: m.PatchBodyMsg? && F.OnSomePage(before, m.id))
    && (forall page, id | page in before.pages && id in F.PostsOn(before, page) ::
          For(ms, id) == if page in done then Stream(before, after, page, id) else [])
  }

  function Stream(before: F.Feed, after: F.Feed, page: PageID, id: u64): seq<ServerMsg>
    requires id in F.PostsOn(before, page) && id in F.PostsOn(after, page)
  {
    F.PatchStream(id, F.PostsOn(before, page)[id].body, F.PostsOn(after, page)[id].body)
  }

  lemma {:induction false} ForNobody(ms: seq<ServerMsg>, id: u64)
    requires forall m | m in ms :: !About(m, id)
    ensures For(ms, id) == []
    decreases |ms|
  {
    if ms != [] {
      assert ms[0] in ms;
      ForNobody(ms[1..], id);
    }
  }

  lemma MorePatchesAt(before: F.Feed, after: F.Feed, page: PageID, ms: seq<ServerMsg>, more: seq<ServerMsg>,
                      q: PageID, id: u64)
    requires F.Unique(before) && page in before.pages && q in before.pages && id in F.PostsOn(before, q)
    requires forall m | m in more :: m.PatchBodyMsg? && m.id in F.PostsOn(before, page)
    ensures For(ms + more, id) == For(ms, id) + if q == page then For(more, id) else []
  {
    ForConcat(ms, more, id);
    if q != page {
      assert id !in F.PostsOn(before, page);
      ForNobody(more, id);
    }
  }

  lemma PageDoneAt(before: F.Feed, after: F.Feed, done: seq<PageID>, page: PageID,
                   ms: seq<ServerMsg>, more: seq<ServerMsg>, q: PageID, id: u64)
    requires PatchesOn(before, after, done, ms) && F.Unique(before) && page !in done && page in before.pages
    requires LeadsTo(F.PostsOn(before, page), F.PostsOn(after, page), more)
    requires q in before.pages && id in F.PostsOn(before, q)
    ensures For(ms + more, id) == if q in done + [page] then Stream(before, after, q, id) else []
  {
    hide Diff;
    MorePatchesAt(before, after, page, ms, more, q, id);
    assert For(ms, id) == if q in done then Stream(before, after, q, id) else [];
  }

  /** A page's patches join those of the pages done before it. */
  lemma PageDone(before: F.Feed, after: F.Feed, done: seq<PageID>, page: PageID,
                 ms: seq<ServerMsg>, more: seq<ServerMsg>)
    requires PatchesOn(before, after, done, ms) && F.Unique(before) && page !in done
    requires page in before.pages ==> LeadsTo(F.PostsOn(before, page), F.PostsOn(after, page), more)
    requires page !in before.pages ==> more == []
    ensures PatchesOn(before, after, done + [page], ms + more)
  {
    hide Diff;
    hide F.PatchStream;
    if page in before.pages {
      forall q, id | q in before.pages && id in F.PostsOn(before, q)
        ensures For(ms + more, id) == if q in done + [page] then Stream(before, after, q, id) else []
      {
        PageDoneAt(before, after, done, page, ms, more, q, id);
      }
    } else {
      assert ms + more == ms;
    }
  }

  function LoadedAt(pages: map<PageID, F.PageRecord>, page: PageID, db: map<PageID, Posts>): Option<F.PageRecord> {
    if page in pages then Some(F.LoadFrom(pages[page], page, db)) else None
  }

  /** The batch a page yields: what leads from its loaded posts to the parsed ones. */
  ghost predicate Diffs(rec: Option<F.PageRecord>, pending: Bodies, parse: string -> Node, batch: seq<Mutation>) {
    if rec.Some? && rec.value.Mutable?
    then LeadsTo(rec.value.posts, F.UpdatedPosts(rec.value.posts, pending, parse), Announce(batch))
    else batch == []
  }

  lemma PageDiffed(f: F.Feed, db: map<PageID, Posts>, parse: string -> Node, page: PageID, more: seq<Mutation>)
    requires page in f.pendingBodies && Diffs(LoadedAt(f.pages, page, db), f.pendingBodies[page], parse, more)
    ensures F.LoadPending(f, db).pages.Keys == f.pages.Keys
    ensures page !in f.pages ==> more == [] && Announce(more) == []
    ensures page in f.pages ==>
              var before := F.LoadPending(f, db); var after := F.ParsePending(before, parse);
              LeadsTo(F.PostsOn(before, page), F.PostsOn(after, page), Announce(more))
  {
    hide Diff;
    NothingLeads(F.PostsOn(F.LoadPending(f, db), page));
  }

  /** `batch` is what the first `k` pages listed have yielded. */
  ghost predicate BatchOf(f: F.Feed, db: map<PageID, Posts>, parse: string -> Node, order: seq<PageID>, k: nat,
                          batch: seq<Mutation>)
    requires k <= |order|
  {
    var before := F.LoadPending(f, db);
    PatchesOn(before, F.ParsePending(before, parse), order[..k], Announce(batch))
  }

  lemma NothingDone(f: F.Feed, db: map<PageID, Posts>, parse: string -> Node, order: seq<PageID>)
    requires OrderOf(order, f.pendingBodies.Keys)
    ensures BatchOf(f, db, parse, order, 0, [])
    ensures forall page | page in order :: page in f.pendingBodies
  {
    assert order[..0] == [];
  }

  lemma BatchGrows(f: F.Feed, db: map<PageID, Posts>, parse: string -> Node, order: seq<PageID>, k: nat,
                   batch: seq<Mutation>, more: seq<Mutation>)
    requires OrderOf(order, f.pendingBodies.Keys) && k < |order| && F.Unique(F.LoadPending(f, db))
    requires BatchOf(f, db, parse, order, k, batch)
    requires order[k] in f.pendingBodies && Diffs(LoadedAt(f.pages, order[k], db), f.pendingBodies[order[k]], parse, more)
    ensures BatchOf(f, db, parse, order, k + 1, batch + more)
  {
    hide Diff, PatchesOn, Diffs, F.LoadPending, F.ParsePending;
    var before := F.LoadPending(f, db);
    NextDiffed(f, db, parse, order, k);
    PageDiffed(f, db, parse, order[k], more);
    PageDone(before, F.ParsePending(before, parse), order[..k], order[k], Announce(batch), Announce(more));
    AnnounceConcat(batch, more);
  }

  /** The batch so far, with both its patches and its new trees right. */
  ghost predicate Batched(f: F.Feed, db: map<PageID, Posts>, parse: string -> Node, order: seq<PageID>, k: nat,
                          batch: seq<Mutation>)
    requires k <= |order|
  {
    BatchOf(f, db, parse, order, k, batch) && Parsed(F.LoadPending(f, db), parse, batch)
  }

  lemma NothingBatched(f: F.Feed, db: map<PageID, Posts>, parse: string -> Node, order: seq<PageID>)
    requires OrderOf(order, f.pendingBodies.Keys)
    ensures Batched(f, db, parse, order, 0, [])
    ensures forall page | page in order :: page in f.pendingBodies
  {
    hide BatchOf;
    NothingDone(f, db, parse, order);
  }

  /** A page's mutations are of posts on that page. */
  lemma DiffedOnPage(f: F.Feed, db: map<PageID, Posts>, parse: string -> Node, page: PageID, more: seq<Mutation>)
    requires page in f.pendingBodies && Diffs(LoadedAt(f.pages, page, db), f.pendingBodies[page], parse, more)
    ensures F.LoadPending(f, db).pendingBodies == f.pendingBodies
    ensures more == [] || page in F.LoadPending(f, db).pages
    ensures forall m | m in more :: m.id in F.PostsOn(F.LoadPending(f, db), page)
  {
    hide Diff, Announce;
    PageDiffed(f, db, parse, page, more);
    forall m | m in more ensures m.id in F.PostsOn(F.LoadPending(f, db), page) {
      Announced(more, m);
    }
  }

  lemma BatchedMore(f: F.Feed, db: map<PageID, Posts>, parse: string -> Node, order: seq<PageID>, k: nat,
                    batch: seq<Mutation>, more: seq<Mutation>)
    requires OrderOf(order, f.pendingBodies.Keys) && k < |order| && F.Unique(F.LoadPending(f, db))
    requires Batched(f, db, parse, order, k, batch) && order[k] in f.pendingBodies
    requires Diffs(LoadedAt(f.pages, order[k], db), f.pendingBodies[order[k]], parse, more)
    requires ParsedOn(f.pendingBodies[order[k]], parse, more)
    ensures Batched(f, db, parse, order, k + 1, batch + more)
  {
    hide BatchOf, Parsed, ParsedOn, OrderOf, F.Unique;
    BatchGrows(f, db, parse, order, k, batch, more);
    hide Diffs, F.LoadPending;
    DiffedOnPage(f, db, parse, order[k], more);
    MoreParsed(F.LoadPending(f, db), parse, order[k], batch, more);
  }

  lemma AllPatches(f: F.Feed, db: map<PageID, Posts>, parse: string -> Node, order: seq<PageID>, batch: seq<Mutation>)
    requires OrderOf(order, f.pendingBodies.Keys)
    requires Batched(f, db, parse, order, |order|, batch)
    ensures Parsed(F.LoadPending(f, db), parse, batch)
    ensures var before := F.LoadPending(f, db);
            F.PatchesBetween(before, F.ParsePending(before, parse), Announce(batch))
  {
    hide Diff;
    assert order[..|order|] == order;
    var ms := Announce(batch);
    var before := F.LoadPending(f, db);
    var after := F.ParsePending(before, parse);
    forall page, id | page in before.pages && id in F.PostsOn(before, page)
      ensures For(ms, id) == Stream(before, after, page, id)
    {
      if page !in order {
        SameBody(id, F.PostsOn(before, page)[id].body);
      }
    }
  }

  class Feed {
    const thread: u64
    const writer: FeedWriter
    var pages: map<PageID, F.PageRecord>
    var pendingOpenBodies: map<PageID, Bodies>
    var deferredPageFetches: map<PageID, seq<ClientID>>
    var pendingPulse: bool
    var pageCount: PageID

    /** Everything handed to client addresses so far. */
    var outbox: seq<Delivery>

    /** Everything handed to the index feed so far. */
    var toIndex: seq<ChangeSet>

    ghost predicate Valid()
      reads this, writer
    {
      writer.Valid() && writer.feed == thread
    }

    ghost function View(): F.Feed
      reads this, writer
    {
      F.Feed(thread, pages, pendingOpenBodies, deferredPageFetches, pendingPulse, writer.Buffered(), pageCount)
    }

    /** All pages up to the page count start out unloaded, except a first page handed in. */
    constructor (thread: u64, count: PageID, firstPage: Option<Posts>)
      ensures Valid() && fresh(writer)
      ensures this.thread == thread && pageCount == count
      ensures writer.Buffered() == [] && writer.Announced() == Global([], [])
      ensures pendingOpenBodies == map[] && deferredPageFetches == map[] && !pendingPulse
      ensures outbox == [] && toIndex == []
      ensures forall page: PageID :: page in pages <==> page <= count
      ensures forall page | page in pages ::
                pages[page] == if page == 0 && firstPage.Some? then F.Mutable(firstPage.value, None) else F.Unfetched
    {
      this.thread := thread;
      writer := new FeedWriter(thread);
      pendingOpenBodies, deferredPageFetches, pendingPulse, pageCount := map[], map[], false, count;
      outbox, toIndex := [], [];
      pages := map[];
      new;
      for i := 0 to count + 1
        invariant Valid() && fresh(writer) && writer.Buffered() == [] && writer.Announced() == Global([], [])
        invariant pendingOpenBodies == map[] && deferredPageFetches == map[] && !pendingPulse
        invariant outbox == [] && toIndex == [] && pageCount == count
        invariant forall page: PageID :: page in pages <==> page < i
        invariant forall page | page in pages :: pages[page] == F.Unfetched
      {
        pages := pages[i := F.Unfetched];
      }
      if firstPage.Some? {
        pages := pages[0 := F.Mutable(firstPage.value, None)];
      }
    }

    method SchedulePulse()
      requires Valid()
      modifies this`pendingPulse
      ensures pendingPulse
    {
      if !pendingPulse {
        pendingPulse := true;
      }
    }

    method Send(c: ClientID, m: ServerMsg)
      modifies this`outbox
      ensures outbox == old(outbox) + [Delivery(c, [m])]
    {
      outbox := outbox + [Delivery(c, [m])];
    }

    /** Metainformation for a new subscriber. */
    method FetchFeedData(client: ClientID)
      requires Valid()
      modifies this`outbox
      ensures Valid() && View() == old(View())
      ensures outbox == old(outbox) + [Delivery(client, [ThreadMetaMsg(thread, pageCount)])]
    {
      Send(client, ThreadMetaMsg(thread, pageCount));
    }

    method FetchPage(asked: int, client: ClientID, db: Posts)
      requires Valid()
      requires F.InRange(View(), asked) ==> F.PageAsked(View(), asked) in pages
      modifies this
      ensures Valid() && toIndex == old(toIndex)
      ensures View() == F.FetchPage(old(View()), asked, client, db).0
      ensures outbox == old(outbox) + F.FetchPage(old(View()), asked, client, db).1
    {
      var id := asked;
      if id < 0 {
        id := pageCount + id;
      }
      if id < 0 || id > pageCount - 1 {
        Send(client, DisconnectMsg);
        return;
      }
      match pages[id]
      case Unfetched =>
        var rec := F.Loaded(db);
        Send(client, F.PageMessage(id, rec));
        pages := pages[id := F.Served(rec)];
      case Mutable(_, cached) =>
        if cached.Some? {
          Send(client, PageMsg(id, cached.value));
        } else {
          SchedulePulse();
          var queue := F.Queue(deferredPageFetches, id);
          deferredPageFetches := deferredPageFetches[id := queue + [client]];
        }
      case Immutable(posts) =>
        Send(client, ImmutablePageMsg(posts));
    }

    method InsertPost(req: F.InsertReq, now: u32, db: Posts)
      requires Valid()
      modifies this, writer
      ensures Valid() && View() == F.InsertPost(old(View()), req, now, db)
      ensures outbox == old(outbox) && toIndex == old(toIndex)
      // the index hears of exactly the posts announced to clients
      ensures writer.Announced()
              == if View().buffered == old(View()).buffered then old(writer.Announced())
                 else AddChange(old(writer.Announced()), InsertPostMsg(req.id, req.page, thread, now, req.opts),
                                PostInserted(NewPost(req.id, thread, req.page, now, req.opts)))
    {
      SchedulePulse();
      if req.page > pageCount {
        pageCount := req.page;
      }
      var payload := InsertPostMsg(req.id, req.page, thread, now, req.opts);
      var post := NewPost(req.id, thread, req.page, now, req.opts);
      if req.page !in pages {
        pages := pages[req.page := F.Mutable(map[req.id := post], None)];
        return;
      }
      var rec := F.Load(pages[req.page], db);
      if !rec.Mutable? {
        return; // error
      }
      pages := pages[req.page := F.Mutable(rec.posts[req.id := post], None)];
      writer.WriteMessage(payload);
      writer.WriteGlobalChange(payload, PostInserted(post));
    }

    method SetBody(page: PageID, id: u64, body: string)
      requires Valid()
      modifies this
      ensures Valid() && View() == F.SetBody(old(View()), page, id, body)
      ensures outbox == old(outbox) && toIndex == old(toIndex)
    {
      SchedulePulse();
      var onPage := if page in pendingOpenBodies then pendingOpenBodies[page] else map[];
      pendingOpenBodies := pendingOpenBodies[page := onPage[id := body]];
    }

    method ClosePost(page: PageID, id: u64, body: Node, db: Posts, recent: u64)
      requires Valid()
      modifies this, writer
      ensures Valid() && View() == F.ClosePost(old(View()), page, id, body, db)
      ensures outbox == old(outbox) && toIndex == old(toIndex)
      ensures writer.Announced()
              == if View().buffered != old(View()).buffered && (id == thread || id >= recent)
                 then AddChange(old(writer.Announced()), ClosePostMsg(id, body), BodySet(id, body, true))
                 else old(writer.Announced())
    {
      SchedulePulse();
      pages := pages[page := F.Load(if page in pages then pages[page] else F.Unfetched, db)];
      CloseOnPage(page, id, body, recent);
    }

    method CloseOnPage(page: PageID, id: u64, body: Node, recent: u64)
      requires Valid() && page in pages
      modifies this, writer
      ensures Valid() && View() == F.CloseLoaded(old(View()), page, id, body)
      ensures outbox == old(outbox) && toIndex == old(toIndex)
      ensures writer.Announced()
              == if View().buffered != old(View()).buffered && (id == thread || id >= recent)
                 then AddChange(old(writer.Announced()), ClosePostMsg(id, body), BodySet(id, body, true))
                 else old(writer.Announced())
    {
      match pages[page]
      case Mutable(posts, _) =>
        if id !in posts {
          pages := pages[page := F.Mutable(posts, None)];
          return; // error
        }
        pages := pages[page := F.Mutable(posts[id := posts[id].(open := false, body := body)], None)];
        if page in pendingOpenBodies {
          pendingOpenBodies := pendingOpenBodies[page := pendingOpenBodies[page] - {id}];
        }
        writer.WritePostMessage(id, ClosePostMsg(id, body), BodySet(id, body, true), recent);
      case _ => // error
    }

    method TryMakePagesImmutable()
      requires Valid()
      modifies this`pages
      ensures Valid() && View() == F.TryMakePagesImmutable(old(View()))
    {
      var todo := pages.Keys;
      while todo != {}
        invariant todo <= old(pages).Keys
        invariant pages == map page | page in old(pages) ::
                    if page in todo then old(pages)[page] else F.Frozen(old(pages)[page])
      {
        var page :| page in todo;
        todo := todo - {page};
        var rec := pages[page];
        if rec.Mutable? && F.CanBeImmutable(rec.posts) {
          pages := pages[page := F.Immutable(rec.posts)];
        }
      }
    }

    // ----- the pulse -----

    /** Sends deferred fetches first, page by page in the order the hash map yields them. */
    method ServeDeferred() returns (order: seq<PageID>)
      requires Valid()
      modifies this
      ensures Valid() && View() == F.ServeDeferred(old(View())) && toIndex == old(toIndex)
      ensures OrderOf(order, old(deferredPageFetches).Keys)
      ensures outbox == old(outbox) + F.DeferredDeliveries(old(View()), order, |order|)
    {
      ghost var f := View();
      pendingPulse := false;
      var taken := deferredPageFetches;
      deferredPageFetches := map[];
      order := IterationOrder(taken);
      for k := 0 to |order|
        invariant View() == f.(pendingPulse := false, deferred := map[], pages := ServedPages(f.pages, order, k))
        invariant outbox == old(outbox) + F.DeferredDeliveries(f, order, k)
        invariant toIndex == old(toIndex)
      {
        NextServed(f, order, k);
        SendPage(order[k], taken[order[k]]);
      }
      AllServed(f, order);
    }

    /** A page that has not been loaded is not sent to anybody. */
    method SendPage(page: PageID, clients: seq<ClientID>)
      modifies this`outbox, this`pages
      ensures pages == ServedPage(old(pages), page)
      ensures View() == old(View()).(pages := pages)
      ensures outbox == old(outbox) + F.DeferredOn(old(pages), page, clients)
    {
      if page !in pages || pages[page].Unfetched? {
        assert F.DeferredOn(pages, page, clients) == [];
        return;
      }
      ghost var rec := pages[page];
      var msg := F.PageMessage(page, pages[page]);
      pages := pages[page := F.Served(pages[page])];
      ghost var sent: seq<Delivery> := [];
      for k := 0 to |clients|
        invariant outbox == old(outbox) + sent
        invariant sent + F.PageDeliveries(page, rec, clients[k..]) == F.PageDeliveries(page, rec, clients)
        invariant pages == old(pages)[page := F.Served(rec)]
      {
        assert clients[k..][1..] == clients[k + 1..];
        Send(clients[k], msg);
        sent := sent + [Delivery(clients[k], [msg])];
      }
      assert sent == F.PageDeliveries(page, rec, clients);
    }

    /** `diff_open_bodies`: every page with pending bodies is loaded if need be and processed. */
    method DiffOpenBodies(db: map<PageID, Posts>, parse: string -> Node, recent: u64)
      returns (ghost patches: seq<ServerMsg>, ghost all: seq<Mutation>)
      requires Valid()
      requires forall page | page in pendingOpenBodies && page in pages && pages[page].Unfetched? :: page in db
      requires F.Unique(F.LoadPending(View(), db))
      modifies this, writer
      ensures Valid() && outbox == old(outbox) && toIndex == old(toIndex)
      ensures var before := F.LoadPending(old(View()), db); var after := F.ParsePending(before, parse);
              View() == after.(buffered := after.buffered + patches) && F.PatchesBetween(before, after, patches)
      ensures patches == Announce(all) && Parsed(F.LoadPending(old(View()), db), parse, all)
      ensures writer.Announced() == Shared(old(writer.Announced()), thread, all, recent)
    {
      hide Parsed, Shared, Diff, Batched, Announce, F.PatchesBetween, F.LoadPending, F.ParsePending, OrderOf;
      ghost var f := View();
      var taken := pendingOpenBodies;
      pendingOpenBodies := map[];
      var order := IterationOrder(taken);
      var batch := DiffPages(order, taken, db, parse, f);
      AllDiffed(f, db, parse, order);
      AllPatches(f, db, parse, order, batch);
      patches, all := Announce(batch), batch;
      WriteBatch(batch, recent);
    }

    /** The loop over the pages with pending bodies. */
    method DiffPages(order: seq<PageID>, taken: map<PageID, Bodies>, db: map<PageID, Posts>, parse: string -> Node,
                     ghost f: F.Feed)
      returns (batch: seq<Mutation>)
      requires Valid() && f.pendingBodies == taken && View() == f.(pendingBodies := map[])
      requires OrderOf(order, taken.Keys)
      requires forall page | page in taken && page in pages && pages[page].Unfetched? :: page in db
      requires F.Unique(F.LoadPending(f, db))
      modifies this`pages
      ensures Valid()
      ensures View() == f.(pendingBodies := map[], pages := DiffedPages(f, db, parse, order, |order|))
      ensures Batched(f, db, parse, order, |order|, batch)
    {
      hide Parsed, ParsedOn, Shared, Diff, Batched, BatchOf, Announce, Diffs, DiffedPage;
      hide F.LoadPending, F.ParsePending, OrderOf, F.Unique;
      batch := [];
      NothingBatched(f, db, parse, order);
      for k := 0 to |order|
        invariant Valid() && View() == f.(pendingBodies := map[], pages := DiffedPages(f, db, parse, order, k))
        invariant Batched(f, db, parse, order, k, batch)
      {
        NextDiffed(f, db, parse, order, k);
        var more := DiffPage(order[k], taken[order[k]], db, parse);
        BatchedMore(f, db, parse, order, k, batch, more);
        batch := batch + more;
      }
    }

    /** One page's share of `diff_open_bodies`. */
    method DiffPage(page: PageID, pending: Bodies, db: map<PageID, Posts>, parse: string -> Node)
      returns (batch: seq<Mutation>)
      requires page in pages && pages[page].Unfetched? ==> page in db
      modifies this`pages
      ensures View() == old(View()).(pages := pages)
      ensures pages == DiffedPage(old(pages), page, pending, db, parse)
      ensures Diffs(LoadedAt(old(pages), page, db), pending, parse, batch) && ParsedOn(pending, parse, batch)
    {
      batch := [];
      if page in pages {
        var rec := F.LoadFrom(pages[page], page, db);
        if rec.Mutable? {
          rec, batch := Process(rec, pending, parse);
        }
        pages := pages[page := rec];
      }
    }

    /** Writes one patch message per changed body, in the order of the batch. */
    method WriteBatch(batch: seq<Mutation>, recent: u64)
      requires Valid()
      modifies writer
      ensures Valid() && writer.Buffered() == old(writer.Buffered()) + Announce(batch)
      ensures writer.Announced() == Shared(old(writer.Announced()), thread, batch, recent)
    {
      for k := 0 to |batch|
        invariant Valid() && writer.Buffered() == old(writer.Buffered()) + Announce(batch[..k])
        invariant writer.Announced() == Shared(old(writer.Announced()), thread, batch[..k], recent)
      {
        var m := batch[k];
        assert batch[..k + 1][..k] == batch[..k];
        writer.WritePostMessage(m.id, PatchBodyMsg(m.id, m.patch), BodySet(m.id, m.body, false), recent);
      }
      assert batch[..|batch|] == batch;
    }

    /** The pulse handler; `clients` is the registry's snapshot of the subscribers. */
    method Pulse(db: map<PageID, Posts>, parse: string -> Node, clients: seq<ClientID>, recent: u64)
      returns (ghost ch: F.PulseChoice, ghost batch: seq<Mutation>)
      requires Valid() && Distinct(clients)
      requires forall page | page in pendingOpenBodies && page in pages && pages[page].Unfetched? :: page in db
      requires F.Unique(F.LoadPending(F.ServeDeferred(View()), db))
      modifies this, writer
      ensures Valid()
      ensures ch.db == db && ch.parse == parse && ch.clients == clients && F.ValidChoice(old(View()), ch)
      ensures View() == F.Pulse(old(View()), ch).0
      ensures outbox == old(outbox) + F.Pulse(old(View()), ch).1
      // one change set tells the index of everything since the last pulse
      ensures ch.patches == Announce(batch) && Parsed(F.BeforeDiff(old(View()), ch), parse, batch)
      ensures toIndex == old(toIndex) + Flushed(thread, Shared(old(writer.Announced()), thread, batch, recent))
      ensures writer.Announced() == Global([], [])
    {
      hide Shared, Parsed, Announce, Flushed, F.PatchesBetween, OrderOf, F.LoadPending, F.ParsePending;
      hide F.ServeDeferred, F.Pulse, F.ValidChoice, F.DeferredDeliveries, F.FlushDeliveries, F.Unique;
      ghost var f := View();
      BufferStays(f, db, parse);
      ghost var order := ServeDeferred();
      ghost var patches;
      patches, batch := DiffOpenBodies(db, parse, recent);
      ch := F.PulseChoice(db, parse, order, patches, clients);
      ChoiceIsValid(f, ch);
      PulseIs(f, ch);
      FlushWriter(clients);
    }

    method FlushWriter(clients: seq<ClientID>)
      requires Valid()
      modifies this`outbox, this`toIndex, writer
      ensures Valid() && writer.Buffered() == [] && writer.Announced() == Global([], [])
      ensures View() == old(View()).(buffered := [])
      ensures outbox == old(outbox) + F.FlushDeliveries(old(writer.Buffered()), clients)
      ensures toIndex == old(toIndex) + Flushed(thread, old(writer.Announced()))
    {
      var sent, set' := writer.Flush(clients);
      outbox := outbox + sent;
      if set'.Some? {
        toIndex := toIndex + [set'.value];
      }
    }
  }

  lemma ChoiceIsValid(f: F.Feed, ch: F.PulseChoice)
    requires forall page | page in f.pendingBodies && page in f.pages && f.pages[page].Unfetched? :: page in ch.db
    requires OrderOf(ch.pages, f.deferred.Keys) && Distinct(ch.clients)
    requires var before := F.LoadPending(F.ServeDeferred(f), ch.db);
             F.PatchesBetween(before, F.ParsePending(before, ch.parse), ch.patches)
    ensures F.ValidChoice(f, ch)
  {
    hide F.PatchesBetween, OrderOf, F.LoadPending, F.ParsePending, F.ServeDeferred;
  }

  lemma PulseIs(f: F.Feed, ch: F.PulseChoice)
    ensures F.Pulse(f, ch)
         == (F.ParsePending(F.LoadPending(F.ServeDeferred(f), ch.db), ch.parse).(buffered := []),
             F.DeferredDeliveries(f, ch.pages, |ch.pages|) + F.FlushDeliveries(f.buffered + ch.patches, ch.clients))
  {
  }

  lemma BufferStays(f: F.Feed, db: map<PageID, Posts>, parse: string -> Node)
    ensures F.ParsePending(F.LoadPending(F.ServeDeferred(f), db), parse).buffered == f.buffered
    ensures var g := F.ServeDeferred(f);
            && g.pendingBodies == f.pendingBodies && g.pages.Keys == f.pages.Keys
            && forall page | page in f.pages :: g.pages[page].Unfetched? <==> f.pages[page].Unfetched?
  {
  }

  /** Parses the pending bodies of a page's open posts and keeps those that changed. */
  method Process(rec: F.PageRecord, pending: Bodies, parse: string -> Node)
    returns (rec': F.PageRecord, batch: seq<Mutation>)
    requires rec.Mutable?
    ensures rec' == F.UpdatedRecord(rec, pending, parse)
    ensures LeadsTo(rec.posts, rec'.posts, Announce(batch)) && ParsedOn(pending, parse, batch)
  {
    hide Diff;
    rec', batch := rec, [];
    NothingLeads(rec.posts);
    var order := IterationOrder(pending);
    for k := 0 to |order|
      invariant rec'.Mutable? && rec'.posts == WithTexts(rec.posts, pending, parse, order, k)
      invariant rec'.cached == if rec'.posts == rec.posts then rec.cached else None
      invariant LeadsTo(rec.posts, rec'.posts, Announce(batch)) && ParsedOn(pending, parse, batch)
    {
      NextText(rec.posts, pending, parse, order, k);
      OneMoreLeads(rec.posts, rec'.posts, Announce(batch), order[k], pending[order[k]], parse);
      var more: seq<Mutation>;
      rec', more := ProcessPost(rec', order[k], pending[order[k]], parse);
      AnnounceConcat(batch, more);
      batch := batch + more;
    }
    AllTexts(rec.posts, pending, parse, order);
  }

  /** One post's share of the processing. */
  method ProcessPost(rec: F.PageRecord, id: u64, text: string, parse: string -> Node)
    returns (rec': F.PageRecord, batch: seq<Mutation>)
    requires rec.Mutable?
    ensures rec'.Mutable? && rec'.posts == WithText(rec.posts, id, text, parse)
    ensures rec'.cached == if rec'.posts == rec.posts then rec.cached else None
    ensures rec'.posts == rec.posts ==> rec' == rec
    ensures Announce(batch) == TextStream(rec.posts, id, text, parse)
    ensures forall m | m in batch :: m.id == id && m.body == parse(text)
  {
    hide Diff;
    rec', batch := rec, [];
    if id in rec.posts && rec.posts[id].open {
      var new' := parse(text);
      var patch := ComputeDiff(rec.posts[id].body, new');
      DiffNoneIffEqual(rec.posts[id].body, new');
      if patch.Some? {
        rec' := F.Mutable(rec.posts[id := rec.posts[id].(body := new')], None);
        batch := [Mutation(id, patch.value, new')];
        assert batch[..0] == [];
      }
    }
  }

  /** Posts once the first `k` texts listed have been given to their posts. */
  function WithTexts(posts: Posts, pending: Bodies, parse: string -> Node, order: seq<u64>, k: nat): (r: Posts)
    requires k <= |order| && forall id | id in order :: id in pending
    ensures r.Keys == posts.Keys
  {
    if k == 0 then posts
    else WithText(WithTexts(posts, pending, parse, order, k - 1), order[k - 1], pending[order[k - 1]], parse)
  }

  lemma {:induction false} WithTextsAt(posts: Posts, pending: Bodies, parse: string -> Node,
                                       order: seq<u64>, k: nat, id: u64)
    requires OrderOf(order, pending.Keys) && k <= |order| && id in posts
    ensures WithTexts(posts, pending, parse, order, k)[id]
         == if id in order[..k] then F.UpdatedPost(posts[id], pending, id, parse) else posts[id]
  {
    if k != 0 {
      WithTextsAt(posts, pending, parse, order, k - 1, id);
      assert order[..k] == order[..k - 1] + [order[k - 1]];
    }
  }

  lemma NextText(posts: Posts, pending: Bodies, parse: string -> Node, order: seq<u64>, k: nat)
    requires OrderOf(order, pending.Keys) && k < |order|
    ensures order[k] in posts ==> WithTexts(posts, pending, parse, order, k)[order[k]] == posts[order[k]]
  {
    if order[k] in posts {
      WithTextsAt(posts, pending, parse, order, k, order[k]);
      assert order[k] !in order[..k];
    }
  }

  lemma AllTexts(posts: Posts, pending: Bodies, parse: string -> Node, order: seq<u64>)
    requires OrderOf(order, pending.Keys)
    ensures WithTexts(posts, pending, parse, order, |order|) == F.UpdatedPosts(posts, pending, parse)
  {
    assert order[..|order|] == order;
    forall id | id in posts
      ensures WithTexts(posts, pending, parse, order, |order|)[id] == F.UpdatedPosts(posts, pending, parse)[id]
    {
      WithTextsAt(posts, pending, parse, order, |order|, id);
    }
  }
}
