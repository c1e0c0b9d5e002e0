/** State of a thread feed and what each of its handlers does to it (`ThreadFeed`). */
module FeedState {
  import opened MachineInts
  import opened PostBody
  import opened Messages
  import opened Iteration

  /** A page as the feed knows it. `cached` is the page message kept for fetches, if any. */
  datatype PageRecord =
    | Unfetched
    | Mutable(posts: Posts, cached: Option<Posts>)
    | Immutable(posts: Posts)

  datatype Feed = Feed(
    thread: u64,
    pages: map<PageID, PageRecord>,
    pendingBodies: map<PageID, map<u64, string>>,
    deferred: map<PageID, seq<ClientID>>,
    pendingPulse: bool,
    buffered: seq<ServerMsg>,
    pageCount: PageID)

  /** Posts of a page, none if it has not been loaded. */
  function PostsOn(f: Feed, page: PageID): Posts {
    if page in f.pages && !f.pages[page].Unfetched? then f.pages[page].posts else map[]
  }

  /** `PageRecord::can_be_made_immutable` */
  predicate CanBeImmutable(posts: Posts) {
    |posts| == 100 && forall id | id in posts :: !posts[id].open
  }

  /** `ThreadFeed::fetch_page`: how a page read from the database is kept. */
  function Loaded(posts: Posts): PageRecord {
    if CanBeImmutable(posts) then Immutable(posts) else Mutable(posts, None)
  }

  function Load(rec: PageRecord, db: Posts): PageRecord {
    if rec.Unfetched? then Loaded(db) else rec
  }

  /** The message a page is sent as. */
  function PageMessage(page: PageID, rec: PageRecord): ServerMsg
    requires !rec.Unfetched?
  {
    match rec
    case Mutable(posts, cached) => PageMsg(page, if cached.Some? then cached.value else posts)
    case Immutable(posts) => ImmutablePageMsg(posts)
  }

  /** Serving a mutable page leaves its message cached. */
  function Served(rec: PageRecord): PageRecord {
    if rec.Mutable? && rec.cached.None? then rec.(cached := Some(rec.posts)) else rec
  }

  // ----- FetchPage -----

  /** Page asked for: negative numbers count from the end. */
  function PageAsked(f: Feed, id: int): int {
    if id < 0 then f.pageCount + id else id
  }

  predicate InRange(f: Feed, id: int) {
    0 <= PageAsked(f, id) <= f.pageCount - 1
  }

  function FetchPage(f: Feed, id: int, client: ClientID, db: Posts): (Feed, seq<Delivery>)
    requires InRange(f, id) ==> PageAsked(f, id) in f.pages
  {
    if !InRange(f, id) then (f, [Delivery(client, [DisconnectMsg])])
    else
      var page := PageAsked(f, id);
      match f.pages[page]
      case Unfetched =>
        var rec := Loaded(db);
        (f.(pages := f.pages[page := Served(rec)]), [Delivery(client, [PageMessage(page, rec)])])
      case Mutable(posts, Some(m)) => (f, [Delivery(client, [PageMsg(page, m)])])
      case Mutable(posts, None) =>
        (f.(pendingPulse := true,
            deferred := f.deferred[page := Queue(f.deferred, page) + [client]]), [])
      case Immutable(posts) => (f, [Delivery(client, [ImmutablePageMsg(posts)])])
  }

  function Queue(deferred: map<PageID, seq<ClientID>>, page: PageID): seq<ClientID> {
    if page in deferred then deferred[page] else []
  }

  // ----- InsertPost -----

  datatype InsertReq = InsertReq(id: u64, page: PageID, opts: PostOpts)

  function InsertPost(f: Feed, req: InsertReq, now: u32, db: Posts): Feed {
    var f := f.(pendingPulse := true,
                pageCount := if req.page > f.pageCount then req.page else f.pageCount);
    var post := NewPost(req.id, f.thread, req.page, now, req.opts);
    if req.page !in f.pages then
      // a page nobody can have asked for yet: no message
      f.(pages := f.pages[req.page := Mutable(map[req.id := post], None)])
    else
      match Load(f.pages[req.page], db)
      case Mutable(posts, _) =>
        f.(pages := f.pages[req.page := Mutable(posts[req.id := post], None)],
           buffered := f.buffered + [InsertPostMsg(req.id, req.page, f.thread, now, req.opts)])
      // inserting into an immutable page is an error; a page just loaded is not kept then
      case _ => f
  }

  // ----- SetBody -----

  function SetBody(f: Feed, page: PageID, id: u64, body: string): Feed {
    var onPage := if page in f.pendingBodies then f.pendingBodies[page] else map[];
    f.(pendingPulse := true, pendingBodies := f.pendingBodies[page := onPage[id := body]])
  }

  // ----- ClosePost -----

  function ClosePost(f: Feed, page: PageID, id: u64, body: Node, db: Posts): Feed {
    var rec := Load(if page in f.pages then f.pages[page] else Unfetched, db);
    CloseLoaded(f.(pendingPulse := true, pages := f.pages[page := rec]), page, id, body)
  }

  function CloseLoaded(f: Feed, page: PageID, id: u64, body: Node): Feed
    requires page in f.pages
  {
    match f.pages[page]
    case Mutable(posts, _) =>
      if id !in posts then
        // error: no such post, but the page has been borrowed mutably
        f.(pages := f.pages[page := Mutable(posts, None)])
      else
        f.(pages := f.pages[page := Mutable(posts[id := posts[id].(open := false, body := body)], None)],
           pendingBodies :=
             if page in f.pendingBodies then f.pendingBodies[page := f.pendingBodies[page] - {id}]
             else f.pendingBodies,
           buffered := f.buffered + [ClosePostMsg(id, body)])
    case _ => f // error: immutable page
  }

  // ----- TryMakePagesImmutable -----

  function Frozen(rec: PageRecord): PageRecord {
    if rec.Mutable? && CanBeImmutable(rec.posts) then Immutable(rec.posts) else rec
  }

  function TryMakePagesImmutable(f: Feed): Feed {
    f.(pages := map page | page in f.pages :: Frozen(f.pages[page]))
  }

  // ----- Pulse -----

  /** Sending the deferred fetches fills the caches of the pages fetched. */
  function ServeDeferred(f: Feed): Feed {
    f.(pendingPulse := false,
       deferred := map[],
       pages := map page | page in f.pages ::
                  if page in f.deferred then Served(f.pages[page]) else f.pages[page])
  }

  /** Answers to the fetches deferred for the first `k` of the pages, taken in the given order. */
  function DeferredDeliveries(f: Feed, order: seq<PageID>, k: nat): seq<Delivery>
    requires k <= |order|
  {
    if k == 0 then []
    else
      var page := order[k - 1];
      DeferredDeliveries(f, order, k - 1) + DeferredOn(f.pages, page, Queue(f.deferred, page))
  }

  function DeferredOn(pages: map<PageID, PageRecord>, page: PageID, clients: seq<ClientID>): seq<Delivery> {
    if page in pages then PageDeliveries(page, pages[page], clients) else []
  }

  function PageDeliveries(page: PageID, rec: PageRecord, clients: seq<ClientID>): seq<Delivery> {
    if rec.Unfetched? || clients == [] then []
    else [Delivery(clients[0], [PageMessage(page, rec)])] + PageDeliveries(page, rec, clients[1..])
  }

  /** The pages with pending bodies are read from the database, if they have not been before. */
  function LoadPending(f: Feed, db: map<PageID, Posts>): Feed {
    f.(pages := map page | page in f.pages ::
                  if page in f.pendingBodies then LoadFrom(f.pages[page], page, db) else f.pages[page])
  }

  function LoadFrom(rec: PageRecord, page: PageID, db: map<PageID, Posts>): PageRecord {
    if page in db then Load(rec, db[page]) else rec
  }

  /** A post once its pending body has been parsed, if it may still change. */
  function UpdatedPost(p: Post, pending: map<u64, string>, id: u64, parse: string -> Node): Post {
    if id in pending && p.open then p.(body := parse(pending[id])) else p
  }

  function UpdatedPosts(posts: Posts, pending: map<u64, string>, parse: string -> Node): (r: Posts)
    ensures r.Keys == posts.Keys
  {
    map id | id in posts :: UpdatedPost(posts[id], pending, id, parse)
  }

  function UpdatedRecord(rec: PageRecord, pending: map<u64, string>, parse: string -> Node): PageRecord {
    if !rec.Mutable? then rec
    else
      var posts := UpdatedPosts(rec.posts, pending, parse);
      // only posts that really change are borrowed mutably
      Mutable(posts, if posts == rec.posts then rec.cached else None)
  }

  function ParsePending(f: Feed, parse: string -> Node): Feed {
    f.(pendingBodies := map[],
       pages := map page | page in f.pages ::
                  if page in f.pendingBodies
                  then UpdatedRecord(f.pages[page], f.pendingBodies[page], parse) else f.pages[page])
  }

  /** Patch stream of a post from one body to the next: nothing if they are equal. */
  function PatchStream(id: u64, was: Node, now: Node): seq<ServerMsg> {
    match Diff(was, now)
    case None => []
    case Some(p) => [PatchBodyMsg(id, p)]
  }

  ghost predicate OnSomePage(f: Feed, id: u64) {
    exists page :: page in f.pages && id in PostsOn(f, page)
  }

  /** A post id is used on one page only. */
  ghost predicate Unique(f: Feed) {
    forall p, q, id | p in f.pages && q in f.pages && id in PostsOn(f, p) && id in PostsOn(f, q) :: p == q
  }

  /** `ms` holds, in some order, exactly the patches that lead from `before` to `after`. */
  ghost predicate PatchesBetween(before: Feed, after: Feed, ms: seq<ServerMsg>) {
    && (forall m | m in ms :: m.PatchBodyMsg? && OnSomePage(before, m.id))
    && (forall page, id | page in before.pages && id in PostsOn(before, page) && id in PostsOn(after, page) ::
          For(ms, id) == PatchStream(id, PostsOn(before, page)[id].body, PostsOn(after, page)[id].body))
  }

  /** What the source leaves open about a pulse: the state of the database and of the parser, the
      iteration orders of its hash maps, and the clients registered with the feed. */
  datatype PulseChoice = PulseChoice(
    db: map<PageID, Posts>, parse: string -> Node,
    pages: seq<PageID>, patches: seq<ServerMsg>, clients: seq<ClientID>)

  /** Feed just before and just after the pending bodies are diffed. */
  function BeforeDiff(f: Feed, ch: PulseChoice): Feed {
    LoadPending(ServeDeferred(f), ch.db)
  }

  function AfterDiff(f: Feed, ch: PulseChoice): Feed {
    ParsePending(BeforeDiff(f, ch), ch.parse)
  }

  ghost predicate ValidChoice(f: Feed, ch: PulseChoice) {
    && (forall page | page in f.pendingBodies && page in f.pages && f.pages[page].Unfetched? :: page in ch.db)
    && OrderOf(ch.pages, f.deferred.Keys)
    && Distinct(ch.clients)
    && PatchesBetween(BeforeDiff(f, ch), AfterDiff(f, ch), ch.patches)
  }

  /** `Writer::flush`: the same stream for every client, nothing if nothing was written. */
  function FlushDeliveries(ms: seq<ServerMsg>, clients: seq<ClientID>): seq<Delivery> {
    if ms == [] || clients == [] then []
    else [Delivery(clients[0], ms)] + FlushDeliveries(ms, clients[1..])
  }

  function Pulse(f: Feed, ch: PulseChoice): (Feed, seq<Delivery>) {
    (AfterDiff(f, ch).(buffered := []),
     DeferredDeliveries(f, ch.pages, |ch.pages|) + FlushDeliveries(f.buffered + ch.patches, ch.clients))
  }
}
