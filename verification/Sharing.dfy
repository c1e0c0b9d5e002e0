/** What a thread feed tells the index: every change set follows from what the index was told before. */
module Sharing {
  import opened MachineInts
  import opened PostBody
  import opened Messages
  import opened FeedState
  import opened FeedInvariant
  import opened Writer
  import opened ThreadIndex
  import TF = ThreadFeed
  import W = Watching
  import C = Convergence
  import BP = BodyPatches

  // ----- steps -----

  /** A thread feed with its clients, what it has announced to the index since its last pulse and sent
      before, the thread as the index first had it, the posts whose last edit the index was not told of,
      and the last id to have been the lowest recent one. */
  datatype Side = Side(
    thread: C.System, announced: Global, sent: seq<ChangeSet>, base: ThreadData, withheld: set<u64>, recent: u64)

  /** An event of the feed, with the lowest recent id at that moment and, for a pulse, its batch. */
  datatype Event = Event(event: C.Event, recent: u64, batch: seq<TF.Mutation>)

  predicate IsShared(thread: u64, id: u64, recent: u64) {
    id == thread || id >= recent
  }

  /** The post is closed on the feed, which writes a message. */
  predicate Closes(f: Feed, page: PageID, id: u64, body: Node, db: Posts) {
    ClosePost(f, page, id, body, db).buffered != f.buffered
  }

  /** Everything announced after the step, if nothing was flushed. */
  function Announced(s: Side, e: Event): Global {
    var f := s.thread.feed;
    match e.event
    case Insert(req, now, db) =>
      if InsertPost(f, req, now, db).buffered == f.buffered then s.announced
      else TF.AddChange(s.announced, InsertPostMsg(req.id, req.page, f.thread, now, req.opts),
                        PostInserted(NewPost(req.id, f.thread, req.page, now, req.opts)))
    case Close(page, id, body, db) =>
      if Closes(f, page, id, body, db) && IsShared(f.thread, id, e.recent)
      then TF.AddChange(s.announced, ClosePostMsg(id, body), BodySet(id, body, true)) else s.announced
    case PulseWith(ch) => TF.Shared(s.announced, f.thread, e.batch, e.recent)
    case _ => s.announced
  }

  function Kept(thread: u64, batch: seq<TF.Mutation>, recent: u64): set<u64> {
    set m | m in batch && !IsShared(thread, m.id, recent) :: m.id
  }

  function Withheld(s: Side, e: Event): set<u64> {
    var f := s.thread.feed;
    match e.event
    case Close(page, id, body, db) =>
      if !Closes(f, page, id, body, db) then s.withheld
      else if IsShared(f.thread, id, e.recent) then s.withheld - {id} else s.withheld + {id}
    case PulseWith(_) => s.withheld + Kept(f.thread, e.batch, e.recent)
    case _ => s.withheld
  }

  ghost function Next(s: Side, e: Event): Side {
    var g := Announced(s, e);
    var flushed := e.event.PulseWith?;
    Side(C.Next(s.thread, e.event),
         if flushed then Global([], []) else g,
         if flushed then s.sent + TF.Flushed(s.thread.feed.thread, g) else s.sent,
         s.base, Withheld(s, e), e.recent)
  }

  function Told(s: Side): seq<Change> {
    ChangesOf(s.sent, s.thread.feed.thread) + s.announced.changes
  }

  function ToldMessages(s: Side): seq<ServerMsg> {
    MessagesOf(s.sent, s.thread.feed.thread) + s.announced.messages
  }

  /** The thread once the index has applied all it has been or will be sent of this. */
  function Shown(s: Side): ThreadData {
    ApplyAll(s.base, Told(s))
  }

  predicate SameText(p: Post, q: Post) {
    p.body == q.body && p.open == q.open
  }

  /** Posts read from the database are as the index read them. */
  predicate Current(db: Posts, t: ThreadData, withheld: set<u64>) {
    forall id | id in db && id in t.posts && id !in withheld :: SameText(t.posts[id], db[id])
  }

  ghost predicate Sound(s: Side, e: Event) {
    && C.Sound(s.thread, e.event)
    && match e.event
       case Fetch(_, _, db) => Current(db, Shown(s), s.withheld)
       case Insert(req, _, db) => Current(db, Shown(s), s.withheld) && req.id !in Shown(s).posts
       case Close(_, _, _, db) => Current(db, Shown(s), s.withheld)
       case PulseWith(ch) =>
         && (forall page | page in ch.db :: Current(ch.db[page], Shown(s), s.withheld))
         && ch.patches == TF.Announce(e.batch)
         && TF.Parsed(BeforeDiff(s.thread.feed, ch), ch.parse, e.batch)
       case _ => true
  }

  /** No edit is shared of a post of which one has been withheld. */
  predicate KeepsBack(s: Side, e: Event) {
    e.event.PulseWith? ==>
      forall m | m in e.batch && IsShared(s.thread.feed.thread, m.id, e.recent) :: m.id !in s.withheld
  }

  ghost predicate Init(s: Side) {
    && C.Init(s.thread) && s.announced == Global([], []) && s.sent == [] && s.withheld == {}
    && Agree(s.thread.feed, s.base, {})
  }

  ghost predicate Run(states: seq<Side>, events: seq<Event>) {
    && |states| == |events| + 1
    && Init(states[0])
    && forall k | 0 <= k < |events| :: Sound(states[k], events[k]) && states[k + 1] == Next(states[k], events[k])
  }

  ghost predicate NeverAgain(states: seq<Side>, events: seq<Event>) {
    |states| == |events| + 1 && forall k | 0 <= k < |events| :: KeepsBack(states[k], events[k])
  }

  // ----- invariant -----

  /** Posts that both have are the same, unless an edit has been withheld. */
  ghost predicate Agree(f: Feed, t: ThreadData, withheld: set<u64>) {
    forall page, id | page in f.pages && id in PostsOn(f, page) && id in t.posts && id !in withheld ::
      SameText(t.posts[id], PostsOn(f, page)[id])
  }

  predicate FromFeed(thread: u64, sets: seq<ChangeSet>) {
    forall cs | cs in sets :: cs.sourceFeed == thread && |cs.message| == |cs.changes|
  }

  /** Everything told can be followed from the thread as the index first had it. */
  predicate Follows(s: Side) {
    && FromFeed(s.thread.feed.thread, s.sent)
    && |s.announced.messages| == |s.announced.changes|
    && AllTell(s.base, ToldMessages(s), Told(s))
  }

  ghost predicate Inv(s: Side) {
    C.Inv(s.thread) && Follows(s) && Agree(s.thread.feed, Shown(s), s.withheld)
  }

  // ----- telling one thing more -----

  lemma ToldMore(s: Side, m: ServerMsg, c: Change)
    ensures var s' := s.(announced := TF.AddChange(s.announced, m, c));
            && Told(s') == Told(s) + [c] && ToldMessages(s') == ToldMessages(s) + [m]
            && Shown(s') == Apply(Shown(s), c)
  {
    hide Apply;
    var s' := s.(announced := TF.AddChange(s.announced, m, c));
    assert Told(s') == Told(s) + [c] && ToldMessages(s') == ToldMessages(s) + [m];
    ApplyAllConcat(s.base, Told(s), [c]);
    TellsOne(Shown(s), m, c);
  }

  lemma {:induction false} SameLength(sets: seq<ChangeSet>, thread: u64)
    requires FromFeed(thread, sets)
    ensures |MessagesOf(sets, thread)| == |ChangesOf(sets, thread)|
  {
    if sets != [] {
      assert sets[0] in sets;
      SameLength(sets[1..], thread);
    }
  }

  lemma FollowsMore(s: Side, m: ServerMsg, c: Change)
    requires Follows(s) && Tells(Shown(s), m, c)
    ensures Follows(s.(announced := TF.AddChange(s.announced, m, c)))
  {
    hide Tells, Apply;
    ToldMore(s, m, c);
    SameLength(s.sent, s.thread.feed.thread);
    TellsOne(Shown(s), m, c);
    AllTellConcat(s.base, ToldMessages(s), Told(s), [m], [c]);
  }

  /** A flush moves what was announced into a set of its own. */
  lemma Flushing(s: Side)
    requires Follows(s)
    ensures var th := s.thread.feed.thread;
            var s' := s.(announced := Global([], []), sent := s.sent + TF.Flushed(th, s.announced));
            Follows(s') && Told(s') == Told(s) && Shown(s') == Shown(s)
  {
    hide AllTell, ApplyAll;
    var th := s.thread.feed.thread;
    var more := TF.Flushed(th, s.announced);
    ChangesConcat(s.sent, more, th);
    MessagesConcat(s.sent, more, th);
    if more != [] {
      assert more[1..] == [];
      assert s.announced.changes + [] == s.announced.changes && s.announced.messages + [] == s.announced.messages;
    }
    var s' := s.(announced := Global([], []), sent := s.sent + more);
    assert Told(s') == Told(s) && ToldMessages(s') == ToldMessages(s);
  }

  // ----- steps that tell nothing -----

  lemma LoadedAgree(f: Feed, g: Feed, page: PageID, db: Posts, t: ThreadData, withheld: set<u64>)
    requires Agree(f, t, withheld) && Current(db, t, withheld)
    requires forall q | q in g.pages && q != page :: q in f.pages && PostsOn(g, q) == PostsOn(f, q)
    requires page in g.pages ==> PostsOn(g, page) == db || (page in f.pages && PostsOn(g, page) == PostsOn(f, page))
    ensures Agree(g, t, withheld)
  {
    forall q, id | q in g.pages && id in PostsOn(g, q) && id in t.posts && id !in withheld
      ensures SameText(t.posts[id], PostsOn(g, q)[id])
    {
      if q != page || PostsOn(g, q) != db {
        assert q in f.pages && id in PostsOn(f, q);
      }
    }
  }

  lemma FetchAgrees(f: Feed, asked: int, c: ClientID, db: Posts, t: ThreadData, withheld: set<u64>)
    requires InRange(f, asked) ==> PageAsked(f, asked) in f.pages
    requires Agree(f, t, withheld) && Current(db, t, withheld)
    ensures Agree(FetchPage(f, asked, c, db).0, t, withheld)
  {
    hide Agree, Current;
    var g := FetchPage(f, asked, c, db).0;
    if InRange(f, asked) {
      LoadedAgree(f, g, PageAsked(f, asked), db, t, withheld);
    }
  }

  lemma SameAgree(f: Feed, g: Feed, t: ThreadData, withheld: set<u64>)
    requires Agree(f, t, withheld) && g.pages.Keys == f.pages.Keys
    requires forall page | page in f.pages :: PostsOn(g, page) == PostsOn(f, page)
    ensures Agree(g, t, withheld)
  {
  }

  // ----- insertions and closings -----

  lemma InsertAgrees(f: Feed, req: InsertReq, now: u32, db: Posts, t: ThreadData, withheld: set<u64>)
    requires Agree(f, t, withheld) && Current(db, t, withheld) && req.id !in t.posts
    requires forall page | page in f.pages && page != req.page :: req.id !in PostsOn(f, page)
    ensures var g := InsertPost(f, req, now, db);
            Agree(g, if g.buffered == f.buffered then t
                     else Apply(t, PostInserted(NewPost(req.id, f.thread, req.page, now, req.opts))), withheld)
  {
    var g := InsertPost(f, req, now, db);
    var post := NewPost(req.id, f.thread, req.page, now, req.opts);
    var t' := if g.buffered == f.buffered then t else Apply(t, PostInserted(post));
    assert |f.buffered + [InsertPostMsg(req.id, req.page, f.thread, now, req.opts)]| != |f.buffered|;
    forall page, id | page in g.pages && id in PostsOn(g, page) && id in t'.posts && id !in withheld
      ensures SameText(t'.posts[id], PostsOn(g, page)[id])
    {
      if id != req.id && page == req.page && page in f.pages && f.pages[page].Unfetched? {
        assert id in db && PostsOn(g, page)[id] == db[id];
      } else if id != req.id {
        assert page in f.pages && id in PostsOn(f, page);
      }
    }
  }

  function Opened(f: Feed, page: PageID, db: Posts): Feed {
    f.(pages := f.pages[page := Load(if page in f.pages then f.pages[page] else Unfetched, db)])
  }

  lemma ClosedPosts(f: Feed, page: PageID, id: u64, body: Node, db: Posts)
    ensures var g, loaded := ClosePost(f, page, id, body, db), Opened(f, page, db);
            && g.pages.Keys == loaded.pages.Keys && page in g.pages
            && (forall q | q in g.pages && q != page :: PostsOn(g, q) == PostsOn(loaded, q))
            && (if Closes(f, page, id, body, db)
                then
                  && id in PostsOn(loaded, page)
                  && PostsOn(g, page) == PostsOn(loaded, page)[id := PostsOn(loaded, page)[id].(open := false, body := body)]
                else PostsOn(g, page) == PostsOn(loaded, page))
  {
    assert |f.buffered + [ClosePostMsg(id, body)]| != |f.buffered|;
  }

  lemma OpenedAgrees(f: Feed, page: PageID, db: Posts, t: ThreadData, withheld: set<u64>)
    requires Agree(f, t, withheld) && Current(db, t, withheld)
    ensures Agree(Opened(f, page, db), t, withheld)
  {
    hide Agree, Current;
    LoadedAgree(f, Opened(f, page, db), page, db, t, withheld);
  }

  lemma ClosedAgrees(f: Feed, g: Feed, page: PageID, id: u64, body: Node, t: ThreadData, withheld: set<u64>)
    requires Agree(f, t, withheld) && g.pages.Keys == f.pages.Keys && page in f.pages && id in PostsOn(f, page)
    requires forall q | q in g.pages && q != page :: PostsOn(g, q) == PostsOn(f, q)
    requires forall q | q in g.pages && q != page :: id !in PostsOn(f, q)
    requires PostsOn(g, page) == PostsOn(f, page)[id := PostsOn(f, page)[id].(open := false, body := body)]
    ensures Agree(g, Apply(t, BodySet(id, body, true)), withheld - {id}) && Agree(g, t, withheld + {id})
  {
    hide PostsOn;
    var t' := Apply(t, BodySet(id, body, true));
    forall q, i | q in g.pages && i in PostsOn(g, q) && i in t'.posts && i !in withheld - {id}
      ensures SameText(t'.posts[i], PostsOn(g, q)[i])
    {
      if i == id {
        assert q == page;
      } else {
        assert i in PostsOn(f, q) && i in t.posts && i !in withheld;
      }
    }
    forall q, i | q in g.pages && i in PostsOn(g, q) && i in t.posts && i !in withheld + {id}
      ensures SameText(t.posts[i], PostsOn(g, q)[i])
    {
      assert i in PostsOn(f, q);
    }
  }

  lemma CloseAgrees(f: Feed, page: PageID, id: u64, body: Node, db: Posts, t: ThreadData, withheld: set<u64>)
    requires Agree(f, t, withheld) && Current(db, t, withheld)
    requires Unique(ClosePost(f, page, id, body, db))
    ensures var g := ClosePost(f, page, id, body, db);
            if !Closes(f, page, id, body, db) then Agree(g, t, withheld)
            else
              && Agree(g, Apply(t, BodySet(id, body, true)), withheld - {id})
              && Agree(g, t, withheld + {id})
  {
    hide Agree, Current, ClosePost, Opened, PostsOn, Apply;
    var g, loaded := ClosePost(f, page, id, body, db), Opened(f, page, db);
    OpenedAgrees(f, page, db, t, withheld);
    ClosedPosts(f, page, id, body, db);
    if Closes(f, page, id, body, db) {
      assert id in PostsOn(g, page);
      ClosedAgrees(loaded, g, page, id, body, t, withheld);
    } else {
      SameAgree(loaded, g, t, withheld);
    }
  }

  // ----- the batch of a pulse -----

  predicate InBatch(batch: seq<TF.Mutation>, k: nat, id: u64)
    requires k <= |batch|
  {
    exists j | 0 <= j < k :: batch[j].id == id
  }

  lemma {:induction false} ForHas(ms: seq<ServerMsg>, m: ServerMsg, id: u64)
    requires m in ms && About(m, id)
    ensures For(ms, id) != []
  {
    if m != ms[0] {
      ForHas(ms[1..], m, id);
    }
  }

  /** A mutation's message is the whole stream of its post. */
  lemma OnlyMessage(batch: seq<TF.Mutation>, j: nat, id: u64, was: Node, now: Node)
    requires j < |batch| && batch[j].id == id && For(TF.Announce(batch), id) == PatchStream(id, was, now)
    ensures Diff(was, now) == Some(batch[j].patch) && !InBatch(batch, j, id)
  {
    hide Diff;
    var m := PatchBodyMsg(id, batch[j].patch);
    var before, rest := batch[..j], batch[j + 1..];
    assert batch == before + [batch[j]] + rest;
    TF.AnnounceConcat(before + [batch[j]], rest);
    TF.AnnounceConcat(before, [batch[j]]);
    assert TF.Announce([batch[j]]) == [m] by {
      assert [batch[j]][..0] == [];
    }
    ForConcat(TF.Announce(before) + [m], TF.Announce(rest), id);
    ForConcat(TF.Announce(before), [m], id);
    assert For([m], id) == [m] by {
      assert [m][1..] == [];
    }
    assert For(TF.Announce(batch), id) == For(TF.Announce(before), id) + [m] + For(TF.Announce(rest), id);
    assert |PatchStream(id, was, now)| <= 1;
    assert For(TF.Announce(before), id) == [];
    if InBatch(batch, j, id) {
      var i :| 0 <= i < j && batch[i].id == id;
      assert before[i] in before;
      TF.Announced(before, before[i]);
      ForHas(TF.Announce(before), PatchBodyMsg(id, before[i].patch), id);
    }
  }

  /** What the pulse before and after the diffs has to do with its batch. */
  ghost predicate Leads(before: Feed, after: Feed, parse: string -> Node, batch: seq<TF.Mutation>) {
    && Unique(before) && after.pages == ParsePending(before, parse).pages
    && PatchesBetween(before, after, TF.Announce(batch)) && TF.Parsed(before, parse, batch)
  }

  lemma ParsedPost(before: Feed, after: Feed, parse: string -> Node, page: PageID, id: u64)
    requires after.pages == ParsePending(before, parse).pages
    requires page in before.pages && id in PostsOn(before, page)
    ensures page in after.pages && id in PostsOn(after, page)
    ensures var was, now := PostsOn(before, page)[id], PostsOn(after, page)[id];
            && now == was.(body := now.body)
            && (now.body != was.body ==>
                  && was.open && page in before.pendingBodies && id in before.pendingBodies[page]
                  && now.body == parse(before.pendingBodies[page][id]))
  {
  }

  lemma MutationIs(before: Feed, after: Feed, parse: string -> Node, batch: seq<TF.Mutation>, j: nat, page: PageID)
    requires Leads(before, after, parse, batch) && j < |batch|
    requires TF.ParsedAt(before, parse, page, batch[j])
    ensures var m := batch[j];
            && m.id in PostsOn(after, page) && page in after.pages && !InBatch(batch, j, m.id)
            && var was := PostsOn(before, page)[m.id];
               was.open && Diff(was.body, m.body) == Some(m.patch) && PostsOn(after, page)[m.id] == was.(body := m.body)
  {
    hide Diff, ParsePending, TF.Announce, PostsOn, InBatch;
    var m := batch[j];
    ParsedPost(before, after, parse, page, m.id);
    var was, now := PostsOn(before, page)[m.id], PostsOn(after, page)[m.id];
    OnlyMessage(batch, j, m.id, was.body, now.body);
    DiffNoneIffEqual(was.body, now.body);
  }

  lemma NotMutated(before: Feed, after: Feed, parse: string -> Node, batch: seq<TF.Mutation>, page: PageID, id: u64)
    requires Leads(before, after, parse, batch) && page in before.pages && id in PostsOn(before, page)
    requires !InBatch(batch, |batch|, id)
    ensures page in after.pages && id in PostsOn(after, page) && PostsOn(after, page)[id] == PostsOn(before, page)[id]
  {
    hide Diff, ParsePending, PostsOn;
    ParsedPost(before, after, parse, page, id);
    NoMessage(batch, id);
    DiffNoneIffEqual(PostsOn(before, page)[id].body, PostsOn(after, page)[id].body);
  }

  lemma {:induction false} NoMessage(batch: seq<TF.Mutation>, id: u64)
    requires !InBatch(batch, |batch|, id)
    ensures For(TF.Announce(batch), id) == []
    decreases |batch|
  {
    if batch != [] {
      var last, init := batch[|batch| - 1], batch[..|batch| - 1];
      NoMessage(init, id);
      var m := PatchBodyMsg(last.id, last.patch);
      ForConcat(TF.Announce(init), [m], id);
      assert For([m], id) == [] by {
        assert [m][1..] == [];
      }
    }
  }

  /** The index's posts while the batch is being told, the first `k` mutations done. */
  ghost predicate Between(before: Feed, after: Feed, t: ThreadData, withheld: set<u64>, batch: seq<TF.Mutation>, k: nat)
    requires k <= |batch|
  {
    forall page, id | page in before.pages && id in PostsOn(before, page) && id in t.posts && id !in withheld ::
      BetweenAt(before, after, t, batch, k, page, id)
  }

  predicate BetweenAt(before: Feed, after: Feed, t: ThreadData, batch: seq<TF.Mutation>, k: nat, page: PageID, id: u64)
    requires k <= |batch| && id in PostsOn(before, page) && id in t.posts
  {
    if InBatch(batch, k, id) then id in PostsOn(after, page) && SameText(t.posts[id], PostsOn(after, page)[id])
    else SameText(t.posts[id], PostsOn(before, page)[id])
  }

  lemma BetweenShared(before: Feed, after: Feed, parse: string -> Node, t: ThreadData, withheld: set<u64>,
                      batch: seq<TF.Mutation>, k: nat)
    requires Leads(before, after, parse, batch) && Bodies(before) && k < |batch|
    requires Between(before, after, t, withheld, batch, k) && batch[k].id !in withheld
    ensures var m := batch[k];
            && Tells(t, PatchBodyMsg(m.id, m.patch), BodySet(m.id, m.body, false))
            && Between(before, after, Apply(t, BodySet(m.id, m.body, false)), withheld, batch, k + 1)
  {
    hide Leads, Diff, PatchNode, PostsOn;
    var m := batch[k];
    var page := PageOf(before, after, parse, batch, k);
    MutationIs(before, after, parse, batch, k, page);
    var t' := Apply(t, BodySet(m.id, m.body, false));
    if m.id in t.posts {
      assert BetweenAt(before, after, t, batch, k, page, m.id);
      var was := PostsOn(before, page)[m.id];
      DiffPatch(was.body, m.body);
      assert Reaches(was.body, m.patch, m.body);
    }
    forall q, id | q in before.pages && id in PostsOn(before, q) && id in t'.posts && id !in withheld
      ensures BetweenAt(before, after, t', batch, k + 1, q, id)
    {
      assert BetweenAt(before, after, t, batch, k, q, id);
      OneMoreDone(batch, k, id);
      if id == m.id {
        OnlyOnPage(before, after, parse, batch, page, q, id);
      }
    }
  }

  lemma PageOf(before: Feed, after: Feed, parse: string -> Node, batch: seq<TF.Mutation>, k: nat) returns (page: PageID)
    requires Leads(before, after, parse, batch) && k < |batch|
    ensures TF.ParsedAt(before, parse, page, batch[k])
  {
    assert batch[k] in batch;
    page :| TF.ParsedAt(before, parse, page, batch[k]);
  }

  lemma OnlyOnPage(before: Feed, after: Feed, parse: string -> Node, batch: seq<TF.Mutation>, p: PageID, q: PageID, id: u64)
    requires Leads(before, after, parse, batch)
    requires p in before.pages && q in before.pages && id in PostsOn(before, p) && id in PostsOn(before, q)
    ensures p == q
  {
  }

  lemma OneMoreDone(batch: seq<TF.Mutation>, k: nat, id: u64)
    requires k < |batch|
    ensures InBatch(batch, k + 1, id) <==> InBatch(batch, k, id) || batch[k].id == id
  {
    if InBatch(batch, k, id) {
      var j :| 0 <= j < k && batch[j].id == id;
      assert 0 <= j < k + 1;
    }
  }

  lemma BetweenKept(before: Feed, after: Feed, t: ThreadData, withheld: set<u64>, batch: seq<TF.Mutation>, k: nat)
    requires k < |batch| && Between(before, after, t, withheld, batch, k)
    ensures Between(before, after, t, withheld + {batch[k].id}, batch, k + 1)
  {
    forall q, id | q in before.pages && id in PostsOn(before, q) && id in t.posts && id !in withheld + {batch[k].id}
      ensures BetweenAt(before, after, t, batch, k + 1, q, id)
    {
      assert BetweenAt(before, after, t, batch, k, q, id);
      OneMoreDone(batch, k, id);
    }
  }

  lemma AllBetween(before: Feed, after: Feed, parse: string -> Node, t: ThreadData, withheld: set<u64>, batch: seq<TF.Mutation>)
    requires Leads(before, after, parse, batch) && Between(before, after, t, withheld, batch, |batch|)
    ensures Agree(after, t, withheld)
  {
    hide InBatch, SameText;
    forall page, id | page in after.pages && id in PostsOn(after, page) && id in t.posts && id !in withheld
      ensures SameText(t.posts[id], PostsOn(after, page)[id])
    {
      assert page in before.pages && id in PostsOn(before, page);
      assert BetweenAt(before, after, t, batch, |batch|, page, id);
      if !InBatch(batch, |batch|, id) {
        hide Leads;
        NotMutated(before, after, parse, batch, page, id);
      }
    }
  }

  lemma NoneBetween(before: Feed, after: Feed, t: ThreadData, withheld: set<u64>, batch: seq<TF.Mutation>)
    requires Agree(before, t, withheld)
    ensures Between(before, after, t, withheld, batch, 0)
  {
  }

  /** The announcements and the withheld posts with the first `k` mutations done. */
  function Telling(s: Side, batch: seq<TF.Mutation>, recent: u64, k: nat): Side
    requires k <= |batch|
  {
    var th := s.thread.feed.thread;
    s.(announced := TF.Shared(s.announced, th, batch[..k], recent), withheld := s.withheld + Kept(th, batch[..k], recent))
  }

  lemma TellNothing(s: Side, batch: seq<TF.Mutation>, recent: u64)
    ensures Telling(s, batch, recent, 0) == s
  {
    assert batch[..0] == [] && Kept(s.thread.feed.thread, [], recent) == {};
    assert s.withheld + {} == s.withheld;
  }

  lemma TellAll(s: Side, batch: seq<TF.Mutation>, recent: u64)
    ensures batch[..|batch|] == batch
  {
  }

  lemma TellNext(s: Side, batch: seq<TF.Mutation>, recent: u64, k: nat)
    requires k < |batch|
    ensures var m, a, b := batch[k], Telling(s, batch, recent, k), Telling(s, batch, recent, k + 1);
            if IsShared(s.thread.feed.thread, m.id, recent)
            then b == a.(announced := TF.AddChange(a.announced, PatchBodyMsg(m.id, m.patch), BodySet(m.id, m.body, false)))
            else b == a.(withheld := a.withheld + {m.id})
  {
    var th := s.thread.feed.thread;
    var done, more := batch[..k], batch[..k + 1];
    assert more[..|more| - 1] == done && more[|more| - 1] == batch[k];
    assert more == done + [batch[k]];
    var now := if IsShared(th, batch[k].id, recent) then {} else {batch[k].id};
    forall id ensures id in Kept(th, more, recent) <==> id in Kept(th, done, recent) + now {
      if id in Kept(th, done, recent) {
        var m :| m in done && !IsShared(th, m.id, recent) && m.id == id;
        assert m in more;
      }
      assert batch[k] in more;
    }
    assert Kept(th, more, recent) == Kept(th, done, recent) + now;
    assert s.withheld + (Kept(th, done, recent) + now) == s.withheld + Kept(th, done, recent) + now;
    assert s.withheld + Kept(th, done, recent) + {} == s.withheld + Kept(th, done, recent);
  }

  lemma KeptBefore(thread: u64, batch: seq<TF.Mutation>, recent: u64, k: nat, id: u64)
    requires k <= |batch| && id in Kept(thread, batch[..k], recent)
    ensures InBatch(batch, k, id)
  {
    var m :| m in batch[..k] && !IsShared(thread, m.id, recent) && m.id == id;
    var j :| 0 <= j < k && batch[..k][j] == m;
    assert batch[j].id == id;
  }

  lemma {:induction false} BatchTold(s: Side, before: Feed, after: Feed, parse: string -> Node, batch: seq<TF.Mutation>,
                                     recent: u64, k: nat)
    requires Leads(before, after, parse, batch) && Bodies(before) && k <= |batch|
    requires Follows(s) && Agree(before, Shown(s), s.withheld)
    requires forall m | m in batch && IsShared(s.thread.feed.thread, m.id, recent) :: m.id !in s.withheld
    ensures var s' := Telling(s, batch, recent, k);
            Follows(s') && Between(before, after, Shown(s'), s'.withheld, batch, k)
  {
    hide Leads, Bodies, Follows, Agree, Between, Shown, Tells, Apply, TF.Shared, Kept, InBatch;
    if k == 0 {
      TellNothing(s, batch, recent);
      NoneBetween(before, after, Shown(s), s.withheld, batch);
    } else {
      BatchTold(s, before, after, parse, batch, recent, k - 1);
      var a, m := Telling(s, batch, recent, k - 1), batch[k - 1];
      TellNext(s, batch, recent, k - 1);
      if IsShared(s.thread.feed.thread, m.id, recent) {
        var page := PageOf(before, after, parse, batch, k - 1);
        MutationIs(before, after, parse, batch, k - 1, page);
        if m.id in Kept(s.thread.feed.thread, batch[..k - 1], recent) {
          KeptBefore(s.thread.feed.thread, batch, recent, k - 1, m.id);
        }
        assert m in batch;
        BetweenShared(before, after, parse, Shown(a), a.withheld, batch, k - 1);
        FollowsMore(a, PatchBodyMsg(m.id, m.patch), BodySet(m.id, m.body, false));
        ToldMore(a, PatchBodyMsg(m.id, m.patch), BodySet(m.id, m.body, false));
      } else {
        BetweenKept(before, after, Shown(a), a.withheld, batch, k - 1);
        SameShown(a, a.withheld + {m.id});
      }
    }
  }

  lemma SameShown(s: Side, withheld: set<u64>)
    ensures Shown(s.(withheld := withheld)) == Shown(s)
    ensures Follows(s.(withheld := withheld)) <==> Follows(s)
  {
    hide ApplyAll, AllTell;
  }

  // ----- every step keeps the invariant -----

  /** Before the diffs the pages missing are read; the index has them as they are read. */
  lemma LoadingAgrees(f: Feed, ch: PulseChoice, t: ThreadData, withheld: set<u64>)
    requires Agree(f, t, withheld) && forall page | page in ch.db :: Current(ch.db[page], t, withheld)
    ensures Agree(BeforeDiff(f, ch), t, withheld)
  {
    hide SameText;
    var g := BeforeDiff(f, ch);
    forall page, id | page in g.pages && id in PostsOn(g, page) && id in t.posts && id !in withheld
      ensures SameText(t.posts[id], PostsOn(g, page)[id])
    {
      assert page in f.pages;
      if f.pages[page].Unfetched? {
        assert page in ch.db && PostsOn(g, page) == ch.db[page];
        assert Current(ch.db[page], t, withheld);
      } else {
        assert PostsOn(g, page) == PostsOn(f, page);
      }
    }
  }

  lemma PulseLeads(s: Side, e: Event)
    requires C.Inv(s.thread) && Sound(s, e) && e.event.PulseWith?
    ensures var f, ch := s.thread.feed, e.event.choice;
            && Leads(BeforeDiff(f, ch), AfterDiff(f, ch), ch.parse, e.batch) && Bodies(BeforeDiff(f, ch))
            && C.Next(s.thread, e.event).feed == AfterDiff(f, ch).(buffered := [])
  {
    hide C.Deliver, PatchesBetween, TF.Parsed, BeforeDiff, AfterDiff;
    var f, ch := s.thread.feed, e.event.choice;
    PulseKeepsFeed(f, ch);
    AfterIs(f, ch);
    hide Current, Shown;
  }

  lemma AfterIs(f: Feed, ch: PulseChoice)
    ensures AfterDiff(f, ch) == ParsePending(BeforeDiff(f, ch), ch.parse)
  {
  }

  lemma PulseKeeps(s: Side, e: Event)
    requires Inv(s) && Sound(s, e) && KeepsBack(s, e) && e.event.PulseWith?
    ensures Inv(Next(s, e))
  {
    hide C.Inv, C.Next, C.Sound, Follows, Agree, Shown, Leads, Bodies, Between, TF.Parsed, TF.Shared, Kept, BeforeDiff, AfterDiff;
    var f, ch, batch := s.thread.feed, e.event.choice, e.batch;
    var before, after := BeforeDiff(f, ch), AfterDiff(f, ch);
    C.StepKeeps(s.thread, e.event);
    PulseLeads(s, e);
    LoadingAgrees(f, ch, Shown(s), s.withheld);
    BatchTold(s, before, after, ch.parse, batch, e.recent, |batch|);
    TellAll(s, batch, e.recent);
    var told := Telling(s, batch, e.recent, |batch|);
    AllBetween(before, after, ch.parse, Shown(told), told.withheld, batch);
    SameAgree(after, after.(buffered := []), Shown(told), told.withheld);
    Flushing(told);
    var s' := Next(s, e);
    ThreadStays(s.thread, e.event);
    FeedAside(told.(announced := s'.announced, sent := s'.sent), s');
  }

  /** What is told has nothing to do with the rest. */
  lemma FeedAside(a: Side, b: Side)
    requires a.thread.feed.thread == b.thread.feed.thread && a.announced == b.announced && a.sent == b.sent && a.base == b.base
    ensures Follows(a) <==> Follows(b)
    ensures Shown(a) == Shown(b)
  {
    hide ApplyAll, AllTell;
  }

  lemma ThreadStays(s: C.System, e: C.Event)
    ensures C.Next(s, e).feed.thread == s.feed.thread
  {
    hide C.Deliver;
  }

  lemma InsertKeeps(s: Side, e: Event)
    requires Inv(s) && Sound(s, e) && e.event.Insert?
    ensures Inv(Next(s, e))
  {
    hide C.Inv, Follows, Agree, Shown, InsertPost, Apply, Tells;
    var f, req, now, db := s.thread.feed, e.event.req, e.event.now, e.event.db;
    C.StepKeeps(s.thread, e.event);
    ThreadStays(s.thread, e.event);
    InsertAgrees(f, req, now, db, Shown(s), s.withheld);
    var m := InsertPostMsg(req.id, req.page, f.thread, now, req.opts);
    var c := PostInserted(NewPost(req.id, f.thread, req.page, now, req.opts));
    var s' := Next(s, e);
    if InsertPost(f, req, now, db).buffered == f.buffered {
      FeedAside(s, s');
    } else {
      InsertTold(Shown(s), m, c, req.id);
      FollowsMore(s, m, c);
      ToldMore(s, m, c);
      FeedAside(s.(announced := s'.announced), s');
    }
  }

  lemma InsertTold(t: ThreadData, m: ServerMsg, c: Change, id: u64)
    requires m.InsertPostMsg? && c == PostInserted(NewPost(m.id, m.thread, m.page, m.time, m.opts))
    ensures Tells(t, m, c)
  {
  }

  lemma CloseKeeps(s: Side, e: Event)
    requires Inv(s) && Sound(s, e) && e.event.Close?
    ensures Inv(Next(s, e))
  {
    hide C.Inv, Follows, Agree, Shown, Closes, ClosePost, Apply, Tells;
    var f, page, id, body, db := s.thread.feed, e.event.onPage, e.event.id, e.event.body, e.event.db;
    C.StepKeeps(s.thread, e.event);
    ThreadStays(s.thread, e.event);
    ClosedUnique(s.thread, e.event);
    CloseAgrees(f, page, id, body, db, Shown(s), s.withheld);
    var s' := Next(s, e);
    if Closes(f, page, id, body, db) && IsShared(f.thread, id, e.recent) {
      CloseTold(Shown(s), id, body);
      FollowsMore(s, ClosePostMsg(id, body), BodySet(id, body, true));
      ToldMore(s, ClosePostMsg(id, body), BodySet(id, body, true));
      FeedAside(s.(announced := s'.announced), s');
    } else {
      FeedAside(s, s');
    }
  }

  lemma CloseTold(t: ThreadData, id: u64, body: Node)
    ensures Tells(t, ClosePostMsg(id, body), BodySet(id, body, true))
  {
  }

  lemma ClosedUnique(s: C.System, e: C.Event)
    requires C.Inv(C.Next(s, e)) && e.Close?
    ensures Unique(ClosePost(s.feed, e.onPage, e.id, e.body, e.db))
  {
    hide ClosePost, W.WatchInv;
  }

  lemma FetchKeeps(s: Side, e: Event)
    requires Inv(s) && Sound(s, e) && e.event.Fetch?
    ensures Inv(Next(s, e))
  {
    hide C.Inv, C.Deliver, Follows, Agree, Shown, FetchPage, Current;
    var f := s.thread.feed;
    C.StepKeeps(s.thread, e.event);
    ThreadStays(s.thread, e.event);
    C.FetchKeeps(s.thread, e.event.page, e.event.client, e.event.db);
    FetchAgrees(f, e.event.page, e.event.client, e.event.db, Shown(s), s.withheld);
    FeedAside(s, Next(s, e));
  }

  /** The other events leave all posts as they are. */
  lemma OtherKeeps(s: Side, e: Event)
    requires Inv(s) && Sound(s, e)
    requires !e.event.Insert? && !e.event.Close? && !e.event.Fetch? && !e.event.PulseWith?
    ensures Inv(Next(s, e))
  {
    hide C.Inv, C.Deliver, Follows, Agree, Shown;
    C.StepKeeps(s.thread, e.event);
    ThreadStays(s.thread, e.event);
    SameAgree(s.thread.feed, C.Next(s.thread, e.event).feed, Shown(s), s.withheld);
    FeedAside(s, Next(s, e));
  }

  lemma StepKeeps(s: Side, e: Event)
    requires Inv(s) && Sound(s, e) && KeepsBack(s, e)
    ensures Inv(Next(s, e))
  {
    hide Inv, Sound, KeepsBack, Next;
    match e.event
    case Insert(_, _, _) => InsertKeeps(s, e);
    case Close(_, _, _, _) => CloseKeeps(s, e);
    case Fetch(_, _, _) => FetchKeeps(s, e);
    case PulseWith(_) => PulseKeeps(s, e);
    case Subscribe(_, _) => OtherKeeps(s, e);
    case Unsubscribe(_) => OtherKeeps(s, e);
    case SendMeta(_) => OtherKeeps(s, e);
    case GoTo(_, _) => OtherKeeps(s, e);
    case SetBodyOf(_, _, _) => OtherKeeps(s, e);
    case Freeze => OtherKeeps(s, e);
  }

  lemma InitInv(s: Side)
    requires Init(s)
    ensures Inv(s)
  {
    C.InitInv(s.thread);
    assert Told(s) == [] && ToldMessages(s) == [];
  }

  lemma {:induction false} RunKeeps(states: seq<Side>, events: seq<Event>, k: nat)
    requires Run(states, events) && NeverAgain(states, events) && k <= |events|
    ensures Inv(states[k])
  {
    hide Inv, Init, Sound, KeepsBack, Next;
    if k == 0 {
      InitInv(states[0]);
    } else {
      RunKeeps(states, events, k - 1);
      assert Sound(states[k - 1], events[k - 1]) && states[k - 1 + 1] == Next(states[k - 1], events[k - 1]);
      assert KeepsBack(states[k - 1], events[k - 1]);
      StepKeeps(states[k - 1], events[k - 1]);
    }
  }

  /** The thread on the index after the first `j` sets. */
  function ShownAfter(s: Side, j: nat): ThreadData
    requires j <= |s.sent|
  {
    ApplyAll(s.base, ChangesOf(s.sent[..j], s.thread.feed.thread))
  }

  lemma OneSetOf(s: Side, j: nat)
    requires Follows(s) && j < |s.sent|
    ensures AllTell(ShownAfter(s, j), s.sent[j].message, s.sent[j].changes)
  {
    hide ApplyAll, AllTell, ChangesOf, MessagesOf;
    var th := s.thread.feed.thread;
    var a, b := s.sent[..j], s.sent[j + 1..];
    assert s.sent[j] in s.sent;
    SetsSplit(s.sent, j, th);
    SameLength(a, th);
    Middle(s.base, MessagesOf(a, th), ChangesOf(a, th), s.sent[j].message, s.sent[j].changes,
           MessagesOf(b, th), ChangesOf(b, th), s.announced.messages, s.announced.changes);
  }

  lemma SetsSplit(sets: seq<ChangeSet>, j: nat, id: u64)
    requires j < |sets| && sets[j].sourceFeed == id
    ensures ChangesOf(sets, id) == ChangesOf(sets[..j], id) + sets[j].changes + ChangesOf(sets[j + 1..], id)
    ensures MessagesOf(sets, id) == MessagesOf(sets[..j], id) + sets[j].message + MessagesOf(sets[j + 1..], id)
  {
    hide ChangesOf, MessagesOf;
    var a, b := sets[..j], sets[j + 1..];
    assert sets == a + [sets[j]] + b;
    ChangesConcat(a + [sets[j]], b, id);
    ChangesConcat(a, [sets[j]], id);
    MessagesConcat(a + [sets[j]], b, id);
    MessagesConcat(a, [sets[j]], id);
    OneSetIs(sets[j], id);
  }

  lemma Middle(t: ThreadData, ms: seq<ServerMsg>, cs: seq<Change>, m: seq<ServerMsg>, c: seq<Change>,
               ns: seq<ServerMsg>, ds: seq<Change>, os: seq<ServerMsg>, es: seq<Change>)
    requires |ms| == |cs| && |m| == |c| && AllTell(t, ms + m + ns + os, cs + c + ds + es)
    ensures AllTell(ApplyAll(t, cs), m, c)
  {
    hide ApplyAll, AllTell;
    assert ms + m + ns + os == ms + m + (ns + os) && cs + c + ds + es == cs + c + (ds + es);
    AllTellConcat(t, ms + m, cs + c, ns + os, ds + es);
    AllTellConcat(t, ms, cs, m, c);
  }

  lemma OneSetIs(cs: ChangeSet, id: u64)
    requires cs.sourceFeed == id
    ensures ChangesOf([cs], id) == cs.changes && MessagesOf([cs], id) == cs.message
  {
    assert [cs][1..] == [] && cs.changes + [] == cs.changes && cs.message + [] == cs.message;
  }

  /** In every run in which an edit withheld is never followed by one shared of the same post, each change
      set can be followed from what the sets before it have made of the thread: message by message, every
      patch made against the body shown. And once all sets and announcements have been applied, the posts
      the index has are the feed's, but for those withheld. */
  lemma SetsFollow(states: seq<Side>, events: seq<Event>, k: nat, j: nat)
    requires Run(states, events) && NeverAgain(states, events) && k <= |events| && j < |states[k].sent|
    ensures AllTell(ShownAfter(states[k], j), states[k].sent[j].message, states[k].sent[j].changes)
    ensures Agree(states[k].thread.feed, Shown(states[k]), states[k].withheld)
  {
    hide C.Inv, Init, Sound, KeepsBack, Next, Follows, Agree, Shown, AllTell, ShownAfter;
    RunKeeps(states, events, k);
    OneSetOf(states[k], j);
  }

  // ----- when an edit withheld is never followed by one shared -----

  /** The lowest recent id never falls. */
  ghost predicate Rising(states: seq<Side>, events: seq<Event>) {
    |states| == |events| + 1 && forall k | 0 <= k < |events| :: events[k].recent >= states[k].recent
  }

  predicate AllOld(s: Side) {
    forall id | id in s.withheld :: id != s.thread.feed.thread && id < s.recent
  }

  lemma StepAllOld(s: Side, e: Event)
    requires AllOld(s) && e.recent >= s.recent
    ensures KeepsBack(s, e) && AllOld(Next(s, e))
  {
    hide C.Next, Closes, TF.Shared;
    ThreadStays(s.thread, e.event);
  }

  lemma {:induction false} RunAllOld(states: seq<Side>, events: seq<Event>, k: nat)
    requires Run(states, events) && Rising(states, events) && k <= |events|
    ensures AllOld(states[k])
  {
    hide Sound, Next;
    if k > 0 {
      RunAllOld(states, events, k - 1);
      assert states[k - 1 + 1] == Next(states[k - 1], events[k - 1]);
      assert events[k - 1].recent >= states[k - 1].recent;
      StepAllOld(states[k - 1], events[k - 1]);
    }
  }

  /** As long as the lowest recent id never falls, no edit is shared after one withheld. */
  lemma RisingNeverAgain(states: seq<Side>, events: seq<Event>)
    requires Run(states, events) && Rising(states, events)
    ensures NeverAgain(states, events)
  {
    hide AllOld, KeepsBack, Init, Sound, Next;
    forall k | 0 <= k < |events| ensures KeepsBack(states[k], events[k]) {
      RunAllOld(states, events, k);
      assert events[k].recent >= states[k].recent;
      StepAllOld(states[k], events[k]);
    }
  }

  // ----- exactly which edits can be shared -----

  /** The index shows, or will show, the post as it was before the edit, but for what the edit replaces. */
  ghost predicate CanFollow(s: Side, before: Feed, m: TF.Mutation) {
    m.id in Shown(s).posts ==>
      forall page | page in before.pages && m.id in PostsOn(before, page) ::
        BP.Follows(Shown(s).posts[m.id].body, PostsOn(before, page)[m.id].body, m.body)
  }

  /** What was not mutated so far is still shown as it was. */
  lemma {:induction false} StillShown(s: Side, batch: seq<TF.Mutation>, recent: u64, k: nat, id: u64)
    requires k <= |batch| && !InBatch(batch, k, id)
    ensures var t, t' := Shown(s), Shown(Telling(s, batch, recent, k));
            (id in t'.posts <==> id in t.posts) && (id in t.posts ==> t'.posts[id] == t.posts[id])
  {
    hide TF.Shared, Kept, ApplyAll, Shown;
    if k == 0 {
      TellNothing(s, batch, recent);
    } else {
      OneMoreDone(batch, k - 1, id);
      StillShown(s, batch, recent, k - 1, id);
      var a, m := Telling(s, batch, recent, k - 1), batch[k - 1];
      TellNext(s, batch, recent, k - 1);
      if IsShared(s.thread.feed.thread, m.id, recent) {
        ToldMore(a, PatchBodyMsg(m.id, m.patch), BodySet(m.id, m.body, false));
      } else {
        SameShown(a, a.withheld + {m.id});
      }
    }
  }

  lemma PatchTold(t: ThreadData, before: Feed, after: Feed, parse: string -> Node, batch: seq<TF.Mutation>, j: nat)
    requires Leads(before, after, parse, batch) && Bodies(before) && j < |batch|
    ensures var m := batch[j];
            Tells(t, PatchBodyMsg(m.id, m.patch), BodySet(m.id, m.body, false)) <==>
              (m.id in t.posts ==>
                 forall page | page in before.pages && m.id in PostsOn(before, page) ::
                   BP.Follows(t.posts[m.id].body, PostsOn(before, page)[m.id].body, m.body))
  {
    hide Leads, PostsOn, Diff, PatchNode, BP.Follows, StringsFit;
    var m := batch[j];
    var page := PageOf(before, after, parse, batch, j);
    MutationIs(before, after, parse, batch, j, page);
    if m.id in t.posts {
      BP.FollowsExact(t.posts[m.id].body, PostsOn(before, page)[m.id].body, m.body);
      forall q | q in before.pages && m.id in PostsOn(before, q) ensures q == page {
        OnlyOnPage(before, after, parse, batch, page, q, m.id);
      }
    }
  }

  lemma FollowsMoreExact(s: Side, m: ServerMsg, c: Change)
    requires Follows(s)
    ensures Follows(s.(announced := TF.AddChange(s.announced, m, c))) <==> Tells(Shown(s), m, c)
  {
    hide Tells, Apply;
    ToldMore(s, m, c);
    SameLength(s.sent, s.thread.feed.thread);
    TellsOne(Shown(s), m, c);
    AllTellConcat(s.base, ToldMessages(s), Told(s), [m], [c]);
  }

  lemma FollowsLess(s: Side, m: ServerMsg, c: Change)
    requires Follows(s.(announced := TF.AddChange(s.announced, m, c))) && |s.announced.messages| == |s.announced.changes|
    ensures Follows(s)
  {
    hide Tells, Apply;
    ToldMore(s, m, c);
    SameLength(s.sent, s.thread.feed.thread);
    AllTellConcat(s.base, ToldMessages(s), Told(s), [m], [c]);
  }

  /** Of the first `k` mutations all those shared can be followed. */
  ghost predicate CanFollowAll(s: Side, before: Feed, batch: seq<TF.Mutation>, recent: u64, k: nat)
    requires k <= |batch|
  {
    forall j | 0 <= j < k && IsShared(s.thread.feed.thread, batch[j].id, recent) :: CanFollow(s, before, batch[j])
  }

  lemma CanFollowNext(s: Side, before: Feed, batch: seq<TF.Mutation>, recent: u64, k: nat)
    requires k < |batch|
    ensures CanFollowAll(s, before, batch, recent, k + 1) <==>
              && CanFollowAll(s, before, batch, recent, k)
              && (IsShared(s.thread.feed.thread, batch[k].id, recent) ==> CanFollow(s, before, batch[k]))
  {
    hide CanFollow;
  }

  lemma {:induction false} BatchToldExact(s: Side, before: Feed, after: Feed, parse: string -> Node,
                                          batch: seq<TF.Mutation>, recent: u64, k: nat)
    requires Leads(before, after, parse, batch) && Bodies(before) && k <= |batch| && Follows(s)
    ensures var s' := Telling(s, batch, recent, k);
            && |s'.announced.messages| == |s'.announced.changes|
            && (Follows(s') <==> CanFollowAll(s, before, batch, recent, k))
  {
    hide Leads, Bodies, Follows, CanFollowAll, Shown, Tells, Apply, TF.Shared, Kept, InBatch, PostsOn, BP.Follows;
    if k == 0 {
      TellNothing(s, batch, recent);
      NothingToFollow(s, before, batch, recent);
    } else {
      BatchToldExact(s, before, after, parse, batch, recent, k - 1);
      CanFollowNext(s, before, batch, recent, k - 1);
      var a, m := Telling(s, batch, recent, k - 1), batch[k - 1];
      TellNext(s, batch, recent, k - 1);
      if IsShared(s.thread.feed.thread, m.id, recent) {
        var msg, c := PatchBodyMsg(m.id, m.patch), BodySet(m.id, m.body, false);
        if Follows(a.(announced := TF.AddChange(a.announced, msg, c))) {
          FollowsLess(a, msg, c);
        }
        if Follows(a) {
          var page := PageOf(before, after, parse, batch, k - 1);
          MutationIs(before, after, parse, batch, k - 1, page);
          StillShown(s, batch, recent, k - 1, m.id);
          FollowsMoreExact(a, msg, c);
          PatchTold(Shown(a), before, after, parse, batch, k - 1);
        }
      } else {
        SameShown(a, a.withheld + {m.id});
      }
    }
  }

  lemma NothingToFollow(s: Side, before: Feed, batch: seq<TF.Mutation>, recent: u64)
    requires Follows(s)
    ensures CanFollowAll(s, before, batch, recent, 0) && |s.announced.messages| == |s.announced.changes|
  {
  }

  lemma FlushingExact(s: Side)
    requires |s.announced.messages| == |s.announced.changes|
    ensures var th := s.thread.feed.thread;
            var s' := s.(announced := Global([], []), sent := s.sent + TF.Flushed(th, s.announced));
            Follows(s') <==> Follows(s)
  {
    hide AllTell;
    var th := s.thread.feed.thread;
    var more := TF.Flushed(th, s.announced);
    ChangesConcat(s.sent, more, th);
    MessagesConcat(s.sent, more, th);
    if more != [] {
      assert more[1..] == [];
      assert s.announced.changes + [] == s.announced.changes && s.announced.messages + [] == s.announced.messages;
    }
    var s' := s.(announced := Global([], []), sent := s.sent + more);
    assert Told(s') == Told(s) && ToldMessages(s') == ToldMessages(s);
    assert FromFeed(th, s.sent + more) <==> FromFeed(th, s.sent);
  }

  /** Exact: after a pulse all that has been sent can still be followed iff every post of which an edit is
      shared is shown as it was before the edit, but for what the edit replaces. */
  lemma SharingExact(s: Side, e: Event)
    requires Inv(s) && Sound(s, e) && e.event.PulseWith?
    ensures Follows(Next(s, e)) <==>
              forall m | m in e.batch && IsShared(s.thread.feed.thread, m.id, e.recent) ::
                CanFollow(s, BeforeDiff(s.thread.feed, e.event.choice), m)
  {
    hide C.Inv, C.Next, C.Sound, Follows, Agree, Shown, Leads, Bodies, TF.Parsed, TF.Shared, Kept, BeforeDiff, AfterDiff;
    hide CanFollow;
    var f, ch, batch := s.thread.feed, e.event.choice, e.batch;
    var before := BeforeDiff(f, ch);
    PulseLeads(s, e);
    BatchToldExact(s, before, AfterDiff(f, ch), ch.parse, batch, e.recent, |batch|);
    TellAll(s, batch, e.recent);
    var told := Telling(s, batch, e.recent, |batch|);
    FlushingExact(told);
    var s' := Next(s, e);
    ThreadStays(s.thread, e.event);
    FeedAside(told.(announced := s'.announced, sent := s'.sent), s');
    assert CanFollowAll(s, before, batch, e.recent, |batch|) <==>
             forall m | m in batch && IsShared(f.thread, m.id, e.recent) :: CanFollow(s, before, m);
  }
}
