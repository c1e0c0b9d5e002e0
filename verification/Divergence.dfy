/** Runs in which a client does not converge, or cannot apply a patch. */
module Divergence {
  import opened MachineInts
  import opened TextDiff
  import opened PostBody
  import opened BodyPatches
  import opened Iteration
  import opened Messages
  import opened FeedState
  import opened Replica
  import opened FeedInvariant
  import opened Watching
  import opened Convergence
  import opened PatchFailures

  const OPTS := PostOpts(false, None, None, None)

  /** A reply on page 0 and another on page 1 of thread 1. */
  const REPLY: u64 := 11

  function First(body: Node): Posts {
    map[REPLY := Post(REPLY, 1, 0, 0, OPTS, true, body)]
  }

  const SECOND: Posts := map[12 := Post(12, 1, 1, 0, OPTS, false, Empty)]

  const ME: ClientID := 7

  // ----- a page held too long -----

  function FeedWith(first: PageRecord, pending: map<PageID, map<u64, string>>, pulse: bool): Feed {
    Feed(1, map[0 := first, 1 := Mutable(SECOND, Some(SECOND)), 2 := Unfetched], pending, map[], pulse, [], 2)
  }

  const QUIET := FeedWith(Mutable(First(Empty), Some(First(Empty))), map[], false)

  function Asked(count: Option<PageID>, pages: map<int, Option<Posts>>): Client {
    Client(map[], map[], Receiving(1, count, pages), {})
  }

  const PARSE: string -> Node := (s: string) => Text(s)

  const PATCH := PatchBodyMsg(REPLY, Replace(Text("a")))

  function ChoiceOf(patch: ServerMsg): PulseChoice {
    PulseChoice(map[], PARSE, [], [patch], [ME])
  }

  /** The client asks for page 0, then for page 1. Page 0 comes and has to wait; its post is edited and
      the edit flushed; page 1 comes. */
  function LateEvent(k: nat): Event {
    if k == 0 then Subscribe(ME, Asked(None, map[0 := None]))
    else if k == 1 then SendMeta(ME)
    else if k == 2 then GoTo(ME, ToThread(1, 1))
    else if k == 3 then Fetch(0, ME, map[])
    else if k == 4 then SetBodyOf(0, REPLY, "a")
    else if k == 5 then PulseWith(ChoiceOf(PATCH))
    else Fetch(1, ME, map[])
  }

  const WAITING: map<int, Option<Posts>> := map[0 := Some(First(Empty)), -2 := None, 1 := None]

  const ARRIVED: map<int, Option<Posts>> := map[0 := Some(First(Empty)), -2 := None, 1 := Some(SECOND), -1 := None]

  ghost function LateState(k: nat): System {
    if k == 0 then System(QUIET, {}, map[])
    else if k == 1 then System(QUIET, {ME}, map[ME := Start(Asked(None, map[0 := None]))])
    else if k == 2 then System(QUIET, {ME}, map[ME := Start(Asked(Some(2), map[0 := None]))])
    else if k == 3 then System(QUIET, {ME}, map[ME := Start(Asked(Some(2), map[0 := None, 1 := None]))])
    else if k == 4 then System(QUIET, {ME}, map[ME := Holding([])])
    else if k == 5 then
      System(Edited(Empty, Some(First(Empty)), "a"), {ME}, map[ME := Holding([])])
    else if k == 6 then System(Flushed("a"), {ME}, map[ME := Holding([PATCH])])
    else System(Flushed("a"), {ME}, map[ME := GetPage(Holding([PATCH]), 1, 1, SECOND)])
  }

  function Holding(missed: seq<ServerMsg>): Watch {
    Watch(Asked(Some(2), WAITING), {}, {}, {}, map[0 := missed])
  }

  ghost predicate Steps(k: nat) {
    Sound(LateState(k), LateEvent(k)) && LateState(k + 1) == Next(LateState(k), LateEvent(k))
  }

  lemma DeliverOne(w: Watch, thread: u64, m: ServerMsg)
    ensures Deliver(map[ME := w], thread, [Delivery(ME, [m])]) == map[ME := Observe(w, thread, m)]
  {
    hide Observe;
    ObserveOne(w, thread, m);
    assert [Delivery(ME, [m])][1..] == [];
    assert map[ME := w][ME := Observe(w, thread, m)] == map[ME := Observe(w, thread, m)];
  }

  // ----- one edit flushed -----

  function Edited(body: Node, cached: Option<Posts>, text: string): Feed {
    FeedWith(Mutable(First(body), cached), map[0 := map[REPLY := text]], true)
  }

  function Flushed(text: string): Feed {
    FeedWith(Mutable(First(Text(text)), None), map[], false)
  }

  lemma BodyParsed(was: Node, text: string)
    ensures UpdatedPosts(First(was), map[REPLY := text], PARSE) == First(Text(text))
  {
    var pending: map<u64, string> := map[REPLY := text];
    assert PARSE(text) == Text(text);
    assert UpdatedPost(First(was)[REPLY], pending, REPLY, PARSE) == First(Text(text))[REPLY];
  }

  lemma RecordParsed(was: Node, cached: Option<Posts>, text: string)
    requires was != Text(text)
    ensures UpdatedRecord(Mutable(First(was), cached), map[REPLY := text], PARSE) == Mutable(First(Text(text)), None)
  {
    hide UpdatedPosts;
    BodyParsed(was, text);
    assert First(was)[REPLY].body != First(Text(text))[REPLY].body;
  }

  lemma FeedEdited(was: Node, cached: Option<Posts>, text: string, patch: ServerMsg)
    requires was != Text(text)
    ensures BeforeDiff(Edited(was, cached, text), ChoiceOf(patch)).pages == Edited(was, cached, text).pages
    ensures AfterDiff(Edited(was, cached, text), ChoiceOf(patch)) == Flushed(text)
  {
    hide UpdatedRecord, BeforeDiff;
    var f, ch := Edited(was, cached, text), ChoiceOf(patch);
    RecordParsed(was, cached, text);
    NothingLoaded(was, cached, text, patch);
    assert AfterDiff(f, ch).pages == Flushed(text).pages;
  }

  lemma NothingLoaded(was: Node, cached: Option<Posts>, text: string, patch: ServerMsg)
    ensures var f := Edited(was, cached, text);
            BeforeDiff(f, ChoiceOf(patch)) == f.(pendingPulse := false)
  {
    var f := Edited(was, cached, text);
    assert BeforeDiff(f, ChoiceOf(patch)).pages == f.pages;
  }

  lemma NoStream(id: u64, n: Node)
    ensures PatchStream(id, n, n) == []
  {
    DiffNoneIffEqual(n, n);
  }

  lemma OnlyPatch(patch: ServerMsg)
    requires About(patch, REPLY)
    ensures For([patch], REPLY) == [patch] && For([patch], 12) == []
  {
    assert For([patch], REPLY) == [patch] + For([patch][1..], REPLY) == [patch];
    assert For([patch], 12) == [];
  }

  lemma EditPatches(was: Node, cached: Option<Posts>, text: string, patch: ServerMsg)
    requires was != Text(text) && patch.PatchBodyMsg? && patch.id == REPLY
    requires PatchStream(REPLY, was, Text(text)) == [patch]
    ensures var f := Edited(was, cached, text);
            PatchesBetween(BeforeDiff(f, ChoiceOf(patch)), AfterDiff(f, ChoiceOf(patch)), [patch])
  {
    hide BeforeDiff, AfterDiff, PatchStream, For;
    var f, ch := Edited(was, cached, text), ChoiceOf(patch);
    FeedEdited(was, cached, text, patch);
    OnlyPatch(patch);
    var before, after := BeforeDiff(f, ch), AfterDiff(f, ch);
    assert 0 in before.pages && REPLY in PostsOn(before, 0);
    forall page, id | page in before.pages && id in PostsOn(before, page) && id in PostsOn(after, page)
      ensures For([patch], id) == PatchStream(id, PostsOn(before, page)[id].body, PostsOn(after, page)[id].body)
    {
      if page == 0 {
        assert id == REPLY;
      } else {
        assert page == 1 && id == 12;
        NoStream(id, Empty);
      }
    }
  }

  /** The pulse patches the post, and sends its one client the patch. */
  lemma EditFlushed(s: System, w: Watch, was: Node, cached: Option<Posts>, text: string, patch: ServerMsg)
    requires was != Text(text) && |text| <= U16_MAX && patch.PatchBodyMsg? && patch.id == REPLY
    requires PatchStream(REPLY, was, Text(text)) == [patch]
    requires s == System(Edited(was, cached, text), {ME}, map[ME := w])
    ensures Sound(s, PulseWith(ChoiceOf(patch)))
    ensures Next(s, PulseWith(ChoiceOf(patch))) == System(Flushed(text), {ME}, map[ME := Observe(w, 1, patch)])
  {
    hide BeforeDiff, AfterDiff, PatchesBetween, PatchStream, Observe, Deliver;
    var f, ch := s.feed, ChoiceOf(patch);
    FeedEdited(was, cached, text, patch);
    EditPatches(was, cached, text, patch);
    assert [ME][1..] == [];
    assert FlushDeliveries([patch], [ME]) == [Delivery(ME, [patch])];
    assert f.buffered + ch.patches == [patch];
    assert DeferredDeliveries(f, ch.pages, |ch.pages|) == [];
    assert [] + [Delivery(ME, [patch])] == [Delivery(ME, [patch])];
    assert Pulse(f, ch) == (Flushed(text), [Delivery(ME, [patch])]);
    DeliverOne(w, 1, patch);
  }

  // ----- the run, step by step -----

  lemma AskingSteps()
    ensures Steps(0) && Steps(1) && Steps(2)
  {
    DeliverOne(Start(Asked(None, map[0 := None])), 1, ThreadMetaMsg(1, 2));
    var asked: map<int, Option<Posts>> := map[0 := None];
    assert asked[1 := None] == map[0 := None, 1 := None];
  }

  lemma HoldStep()
    ensures Steps(3)
  {
    var w := Start(Asked(Some(2), map[0 := None, 1 := None]));
    DeliverOne(w, 1, PageMsg(0, First(Empty)));
    assert REPLY in First(Empty);
    assert Arrived<Posts>(map[0 := None, 1 := None], 2, 0, First(Empty)) == WAITING;
    assert 1 in WAITING && WAITING[1].None?;
  }

  lemma EditStep()
    ensures Steps(4)
  {
  }

  lemma PatchMissed()
    ensures Observe(Holding([]), 1, PATCH) == Holding([PATCH])
  {
    var missed: map<int, seq<ServerMsg>> := map[0 := []];
    assert missed[0] + [PATCH] == [PATCH];
    assert (map k | k in missed :: missed[k] + [PATCH]) == map[0 := [PATCH]];
    assert REPLY !in Asked(Some(2), WAITING).posts;
  }

  lemma FlushStep()
    ensures Steps(5)
  {
    hide Observe, Next, Sound, PatchStream;
    PatchIsTheStream();
    EditFlushed(LateState(5), Holding([]), Empty, Some(First(Empty)), "a", PATCH);
    PatchMissed();
  }

  lemma PatchIsTheStream()
    ensures PatchStream(REPLY, Empty, Text("a")) == [PATCH]
  {
  }

  lemma SecondSent(w: Watch)
    ensures Observe(w, 1, PageMsg(1, SECOND)) == GetPage(w, 1, 1, SECOND)
  {
    hide GetPage;
    assert 12 in SECOND;
  }

  lemma ReleaseStep()
    ensures Steps(6)
  {
    hide GetPage, Observe, Deliver;
    var w := Holding([PATCH]);
    DeliverOne(w, 1, PageMsg(1, SECOND));
    SecondSent(w);
    assert FetchPage(Flushed("a"), 1, ME, map[]) == (Flushed("a"), [Delivery(ME, [PageMsg(1, SECOND)])]);
  }

  /** Nothing is left to be done, and yet the client shows another body than the feed has. */
  ghost predicate ShowsAnotherBody(s: System) {
    && ME in s.subscribed && ME in s.watches
    && s.feed.buffered == [] && s.feed.pendingBodies == map[] && s.feed.deferred == map[]
    && REPLY in PostsOn(s.feed, 0)
    && var posts := s.watches[ME].client.posts;
       REPLY in posts && posts[REPLY].body != PostsOn(s.feed, 0)[REPLY].body
  }

  /** The page held is registered as it was before the edit, and every later patch will be made against
      the text the client has missed. */
  lemma HeldPageStaysStale()
    ensures var states := seq(8, k requires 0 <= k < 8 => LateState(k));
            var events := seq(7, k requires 0 <= k < 7 => LateEvent(k));
            Run(states, events)
    ensures ShowsAnotherBody(LateState(7))
    ensures var w := LateState(7).watches[ME];
            0 in w.got && 0 !in w.seen && w.client.sync.Synced? && w.client.posts[REPLY].body == Empty
  {
    hide Steps, LateState, LateEvent, Next, Sound, Init;
    var states := seq(8, k requires 0 <= k < 8 => LateState(k));
    var events := seq(7, k requires 0 <= k < 7 => LateEvent(k));
    LateStarts();
    forall k | 0 <= k < 7 ensures Sound(states[k], events[k]) && states[k + 1] == Next(states[k], events[k]) {
      LateStep(k);
    }
    LateEnds();
  }

  lemma LateStarts()
    ensures Init(LateState(0))
  {
  }

  lemma LateStep(k: nat)
    requires k < 7
    ensures Sound(LateState(k), LateEvent(k)) && LateState(k + 1) == Next(LateState(k), LateEvent(k))
  {
    hide LateState, LateEvent, Next, Sound;
    AskingSteps();
    HoldStep();
    EditStep();
    FlushStep();
    ReleaseStep();
  }

  lemma LateEnds()
    ensures ShowsAnotherBody(LateState(7))
    ensures var w := LateState(7).watches[ME];
            0 in w.got && 0 !in w.seen && w.client.sync.Synced? && w.client.posts[REPLY].body == Empty
  {
    hide GetPage;
    Released();
  }

  lemma Released()
    ensures var w := GetPage(Holding([PATCH]), 1, 1, SECOND);
            && 0 in w.got && 0 !in w.seen && w.client.sync.Synced?
            && REPLY in w.client.posts && w.client.posts[REPLY] == First(Empty)[REPLY]
  {
    assert Arrived(WAITING, 2, 1, SECOND) == ARRIVED;
    assert AllArrived(ARRIVED);
    assert IsHeld(ARRIVED, 0) && 0 in ARRIVED && REPLY in First(Empty);
    assert Apart(ARRIVED);
    HeldAt(ARRIVED, 0, REPLY);
    var missed: map<int, seq<ServerMsg>> := map[0 := [PATCH]][1 := []];
    assert missed[0] == [PATCH];
    assert For([PATCH], REPLY) == [PATCH] + For([PATCH][1..], REPLY) == [PATCH];
    assert Track(Cell(Some(First(Empty)[REPLY]), false), [PATCH]) != Cell(Some(First(Empty)[REPLY]), false) by {
      assert [PATCH][1..] == [];
      assert CellStep(Cell(Some(First(Empty)[REPLY]), false), PATCH).post.value.body == Text("a");
    }
    assert !Unharmed(ARRIVED, missed, 0, REPLY);
  }

  // ----- a post left over from an earlier visit -----

  const TYPED := PatchBodyMsg(REPLY, PatchText(Make("ab", "abc")))

  /** The client was on the thread before, when the post was still empty. It comes back, and before the
      page has been sent the post is edited once more. */
  function ReturnEvent(k: nat): Event {
    if k == 0 then Subscribe(ME, LEFTOVER)
    else if k == 1 then SetBodyOf(0, REPLY, "abc")
    else PulseWith(ChoiceOf(TYPED))
  }

  const LEFTOVER := Client(First(Empty), map[], Receiving(1, None, map[0 := None]), {})

  ghost function ReturnState(k: nat): System {
    if k == 0 then System(Flushed("ab"), {}, map[])
    else if k == 1 then System(Flushed("ab"), {ME}, map[ME := Start(LEFTOVER)])
    else if k == 2 then System(Edited(Text("ab"), None, "abc"), {ME}, map[ME := Start(LEFTOVER)])
    else System(Flushed("abc"), {ME}, map[ME := Start(LEFTOVER.(failed := {REPLY}))])
  }

  ghost predicate Returns(k: nat) {
    Sound(ReturnState(k), ReturnEvent(k)) && ReturnState(k + 1) == Next(ReturnState(k), ReturnEvent(k))
  }

  lemma ReturnSteps()
    ensures Returns(0) && Returns(1)
  {
  }

  lemma TypedIsTheStream()
    ensures PatchStream(REPLY, Text("ab"), Text("abc")) == [TYPED]
  {
    hide Make;
    assert |"ab"| != |"abc"|;
  }

  lemma TypedFails()
    ensures Observe(Start(LEFTOVER), 1, TYPED) == Start(LEFTOVER.(failed := {REPLY}))
  {
    hide Make;
    assert PatchNode(Empty, TYPED.patch).error.Some?;
    assert {} + {REPLY} == {REPLY};
  }

  lemma ReturnFlush()
    ensures Returns(2)
  {
    hide Observe, Next, Sound, PatchStream, Make;
    TypedIsTheStream();
    EditFlushed(ReturnState(2), Start(LEFTOVER), Text("ab"), None, "abc", TYPED);
    TypedFails();
  }

  lemma ReturnStarts()
    ensures Init(ReturnState(0))
  {
  }

  /** The patch cannot be applied, and the client is left with the post as it was on its first visit. */
  lemma StalePatchFails()
    ensures var states := seq(4, k requires 0 <= k < 4 => ReturnState(k));
            var events := seq(3, k requires 0 <= k < 3 => ReturnEvent(k));
            Run(states, events)
    ensures ShowsAnotherBody(ReturnState(3)) && REPLY in ReturnState(3).watches[ME].client.failed
  {
    hide ReturnState, ReturnEvent, Next, Sound, Init;
    var states := seq(4, k requires 0 <= k < 4 => ReturnState(k));
    var events := seq(3, k requires 0 <= k < 3 => ReturnEvent(k));
    ReturnStarts();
    ReturnSteps();
    ReturnFlush();
    ReturnEnds();
    forall k | 0 <= k < 3 ensures Sound(states[k], events[k]) && states[k + 1] == Next(states[k], events[k]) {
      assert Returns(k);
    }
  }

  lemma ReturnEnds()
    ensures ShowsAnotherBody(ReturnState(3)) && REPLY in ReturnState(3).watches[ME].client.failed
  {
  }

  /** Given the patches from `was` to a body, the client's copy becomes the feed's. */
  ghost predicate Lands(has: Post, was: Post, body: Node) {
    Track(Cell(Some(has), false), PatchStream(was.id, was.body, body)).post == Some(was.(body := body))
  }

  /** Exact: every edit puts a post left over in step iff it differs from the feed's at most in a leaf of
      the body that is only ever replaced: in particular if that is still empty, but not if it is text. */
  lemma LeftoverExact(has: Post, was: Post)
    requires StringsFit(was.body)
    ensures (forall body | body != was.body :: Lands(has, was, body)) <==>
              has.(body := was.body) == was && Heals(has.body, was.body)
  {
    hide Heals, Track, PatchStream, Follows, LeadsThere;
    HealsExact(has.body, was.body);
    forall body | body != was.body
      ensures Lands(has, was, body) <==> has.(body := was.body) == was && LeadsThere(has.body, was.body, body)
    {
      EditExact(has, was, was.(body := body), was.id);
      FollowsExact(has.body, was.body, body);
    }
    var other := if was.body == Empty then Newline else Empty;
    assert Lands(has, was, other) ==> has.(body := was.body) == was;
  }

  // ----- a page just begun -----

  /** Exact: the page a post has been inserted on can be fetched, by its number, iff it lay below the page
      count before; otherwise whoever asks for it is disconnected. */
  lemma BegunPageExact(f: Feed, req: InsertReq, now: u32, db: Posts, c: ClientID, read: Posts)
    ensures var g := InsertPost(f, req, now, db);
            && (InRange(g, req.page) <==> req.page < f.pageCount)
            && (req.page >= f.pageCount ==> FetchPage(g, req.page, c, read) == (g, [Delivery(c, [DisconnectMsg])]))
  {
  }

  const OPENING: Posts := map[1 := Post(1, 1, 0, 0, OPTS, true, Empty)]

  /** A thread as it is created: its opening post, and room for a first page counted as one. */
  const NEW_THREAD := Feed(1, map[0 := Mutable(OPENING, None), 1 := Unfetched], map[], map[], false, [], 1)

  const SECOND_POST := InsertReq(2, 1, OPTS)

  const PAGE_BEGUN := InsertPost(NEW_THREAD, SECOND_POST, 0, map[])

  function BegunEvent(k: nat): Event {
    if k == 0 then Subscribe(ME, Asked(None, map[0 := None]))
    else if k == 1 then Insert(SECOND_POST, 0, map[])
    else Fetch(1, ME, map[])
  }

  ghost function BegunState(k: nat): System {
    if k == 0 then System(NEW_THREAD, {}, map[])
    else if k == 1 then System(NEW_THREAD, {ME}, map[ME := Start(Asked(None, map[0 := None]))])
    else System(PAGE_BEGUN, {ME}, map[ME := Start(Asked(None, map[0 := None]))])
  }

  ghost predicate Begins(k: nat) {
    Sound(BegunState(k), BegunEvent(k)) && BegunState(k + 1) == Next(BegunState(k), BegunEvent(k))
  }

  lemma BegunSteps()
    ensures Begins(0) && Begins(1)
  {
    hide Deliver, InsertPost;
  }

  lemma RefusedStep()
    ensures Begins(2)
    ensures FetchPage(PAGE_BEGUN, 1, ME, map[]) == (PAGE_BEGUN, [Delivery(ME, [DisconnectMsg])])
  {
    hide InsertPost, FetchPage, Observe, Deliver;
    BegunAnnounced();
    BegunPageExact(NEW_THREAD, SECOND_POST, 0, map[], ME, map[]);
    var w := Start(Asked(None, map[0 := None]));
    DeliverOne(w, 1, DisconnectMsg);
    SameClient(w, 1, DisconnectMsg);
  }

  lemma BegunStarts()
    ensures Init(BegunState(0))
  {
  }

  lemma BegunAnnounced()
    ensures PAGE_BEGUN.buffered == [InsertPostMsg(2, 1, 1, 0, OPTS)] && 2 in PostsOn(PAGE_BEGUN, 1)
    ensures PAGE_BEGUN.thread == 1
  {
  }

  /** The first post on the second page of a new thread is announced, but a client that asks for the page
      to see it is disconnected. */
  lemma BegunPageRefused()
    ensures var states := seq(4, k requires 0 <= k < 4 => BegunState(k));
            var events := seq(3, k requires 0 <= k < 3 => BegunEvent(k));
            Run(states, events)
    ensures PAGE_BEGUN.buffered == [InsertPostMsg(2, 1, 1, 0, OPTS)] && 2 in PostsOn(PAGE_BEGUN, 1)
    ensures BegunState(2).feed == PAGE_BEGUN && BegunEvent(2) == Fetch(1, ME, map[])
    ensures FetchPage(PAGE_BEGUN, 1, ME, map[]) == (PAGE_BEGUN, [Delivery(ME, [DisconnectMsg])])
  {
    hide Next, Sound, Init, FetchPage, InsertPost;
    var states := seq(4, k requires 0 <= k < 4 => BegunState(k));
    var events := seq(3, k requires 0 <= k < 3 => BegunEvent(k));
    BegunStarts();
    BegunSteps();
    RefusedStep();
    BegunAnnounced();
    forall k | 0 <= k < 3 ensures Sound(states[k], events[k]) && states[k + 1] == Next(states[k], events[k]) {
      assert Begins(k);
    }
  }
}
