/** Exactly when a patch a client is sent cannot be applied, and when it leaves the client in step. */
module PatchFailures {
  import opened MachineInts
  import opened PostBody
  import opened BodyPatches
  import opened Iteration
  import opened Messages
  import opened FeedState
  import opened Replica
  import opened FeedInvariant
  import opened Watching
  import opened Convergence

  // ----- one edit -----

  lemma {:induction false} TakesOwn(a: Node, b: Node)
    ensures Takes(b, a, b)
    decreases a
  {
    if a.Children? && b.Children? {
      forall i | 0 <= i < |a.list| && i < |b.list| ensures Takes(b.list[i], a.list[i], b.list[i]) {
        TakesOwn(a.list[i], b.list[i]);
      }
    } else if BothWrap(a, b) {
      TakesOwn(InsideOf(a).value, InsideOf(b).value);
    }
  }

  /** Exact: given the patches from `was` to `now`, a client that has the post in whatever state fails iff
      its body does not have the structure for them, and ends up with `now` iff all it has is as in
      `was`, but for the parts of the body replaced. */
  lemma EditExact(has: Post, was: Post, now: Post, id: u64)
    requires StringsFit(was.body) && now == was.(body := now.body)
    ensures var c := Track(Cell(Some(has), false), PatchStream(id, was.body, now.body));
            && (c.failed <==> !Takes(has.body, was.body, now.body))
            && (c.post == Some(now) <==> has.(body := was.body) == was && Follows(has.body, was.body, now.body))
  {
    hide Diff, PatchNode, StringsFit, Takes, Follows;
    TakesExact(has.body, was.body, now.body);
    FollowsExact(has.body, was.body, now.body);
    TakesOwn(was.body, now.body);
    OnePatch(has, was.body, now.body, id);
    var c := Track(Cell(Some(has), false), PatchStream(id, was.body, now.body));
    if has.(body := was.body) == was {
      assert has.(body := now.body) == now;
    }
    if c.post == Some(now) {
      assert has.(body := was.body) == was;
    }
  }

  lemma OnePatch(has: Post, was: Node, now: Node, id: u64)
    ensures var c := Track(Cell(Some(has), false), PatchStream(id, was, now));
            match Diff(was, now)
            case None => c == Cell(Some(has), false)
            case Some(p) =>
              var r := PatchNode(has.body, p);
              c == if r.error.Some? then Cell(Some(has), true) else Cell(Some(has.(body := r.result)), false)
  {
    hide Diff, PatchNode;
    var ms := PatchStream(id, was, now);
    assert ms != [] ==> ms[1..] == [];
  }

  // ----- one post at a flush -----

  /** The client's copy of a post once what is buffered for it has been taken in. */
  function CopyOf(f: Feed, c: Client, id: u64): Option<Post> {
    Track(Cell(PostAt(c.posts, id), false), For(f.buffered, id)).post
  }

  /** The feed's edit of a post that the client has, and is not about to be sent, does not fit the body
      the client has. */
  ghost predicate Misses(f: Feed, g: Feed, c: Client, id: u64) {
    && id in c.posts && !InsertedBy(f.buffered, id)
    && exists page :: MissesOn(f, g, c, page, id)
  }

  predicate MissesOn(f: Feed, g: Feed, c: Client, page: PageID, id: u64)
    requires id in c.posts
  {
    && page in f.pages && page in g.pages && id in PostsOn(f, page) && id in PostsOn(g, page)
    && !Takes(c.posts[id].body, PostsOn(f, page)[id].body, PostsOn(g, page)[id].body)
  }

  /** Nothing but bodies of open posts changes. */
  ghost predicate OpenBodiesChange(f: Feed, g: Feed) {
    OnlyBodiesChange(f, g) &&
    forall page, id | page in f.pages && id in PostsOn(f, page) && id in PostsOn(g, page) && !PostsOn(f, page)[id].open ::
      PostsOn(g, page)[id].body == PostsOn(f, page)[id].body
  }

  predicate AllClose(ms: seq<ServerMsg>) {
    forall m | m in ms :: m.ClosePostMsg?
  }

  lemma {:induction false} Closed(c: Cell, ms: seq<ServerMsg>)
    requires AllClose(ms)
    ensures Track(c, ms).failed == c.failed
    ensures ms != [] && c.post.Some? ==> Track(c, ms).post.Some? && !Track(c, ms).post.value.open
    decreases |ms|
  {
    if ms != [] {
      assert ms[0] in ms;
      Closed(CellStep(c, ms[0]), ms[1..]);
    }
  }

  /** With no insertion buffered, only closings can be. */
  lemma OnlyClosings(f: Feed, page: PageID, id: u64)
    requires FeedInv(f) && page in f.pages && id in PostsOn(f, page) && !InsertedBy(f.buffered, id)
    ensures AllClose(For(f.buffered, id))
    ensures For(f.buffered, id) == [] || !PostsOn(f, page)[id].open
  {
    ForIsPart(f.buffered, id);
    forall m | m in For(f.buffered, id) ensures m.ClosePostMsg? {
      assert m in f.buffered && About(m, id);
    }
    var c := Cell(Some(PostsOn(f, page)[id]), false);
    assert Track(c, For(f.buffered, id)) == c;
    Closed(c, For(f.buffered, id));
  }

  lemma FlushedTrack(f: Feed, g: Feed, patches: seq<ServerMsg>, page: PageID, id: u64, c: Cell)
    requires PatchesBetween(f, g, patches)
    requires page in f.pages && id in PostsOn(f, page) && id in PostsOn(g, page)
    ensures Track(c, For(f.buffered + patches, id))
         == Track(Track(c, For(f.buffered, id)), PatchStream(id, PostsOn(f, page)[id].body, PostsOn(g, page)[id].body))
  {
    hide Track, PatchStream;
    ForConcat(f.buffered, patches, id);
    TrackConcat(c, For(f.buffered, id), For(patches, id));
  }

  /** A post of the feed, at a flush. */
  lemma PostFlushed(f: Feed, g: Feed, patches: seq<ServerMsg>, c: Client, page: PageID, id: u64)
    requires FeedInv(f) && OpenBodiesChange(f, g) && PatchesBetween(f, g, patches)
    requires page in f.pages && id in PostsOn(f, page) && page in g.pages && id in PostsOn(g, page)
    ensures var d := Track(Cell(PostAt(c.posts, id), false), For(f.buffered + patches, id));
            var was, now := PostsOn(f, page)[id], PostsOn(g, page)[id];
            && (d.failed <==> id in c.posts && !InsertedBy(f.buffered, id) && MissesOn(f, g, c, page, id))
            && (d.post == Some(now) <==>
                  && CopyOf(f, c, id).Some? && CopyOf(f, c, id).value.(body := was.body) == was
                  && Follows(CopyOf(f, c, id).value.body, was.body, now.body))
  {
    hide Track, PatchStream, PatchesBetween, OnlyBodiesChange, Takes, Follows;
    var p := PostAt(c.posts, id);
    var was, now := PostsOn(f, page)[id], PostsOn(g, page)[id];
    PatchedPost(f, g, patches, page, id);
    FlushedTrack(f, g, patches, page, id, Cell(p, false));
    var mid := Track(Cell(p, false), For(f.buffered, id));
    if InsertedBy(f.buffered, id) {
      InsertCatchesAny(f, page, id, p);
      EditExact(was, was, now, id);
      PostPatched(was, now, id);
    } else {
      OnlyClosings(f, page, id);
      Closed(Cell(p, false), For(f.buffered, id));
      NothingBufferedIs(Cell(p, false), For(f.buffered, id));
      PostMid(mid, was, now, id);
      if p.Some? && For(f.buffered, id) != [] {
        assert now.body == was.body;
        TakesAnything(p.value.body, was.body);
        TakesAnything(mid.post.value.body, was.body);
      }
      PostStays(p, For(f.buffered, id));
    }
  }

  lemma TakesAnything(h: Node, a: Node)
    ensures Takes(h, a, a)
  {
  }

  lemma NothingBufferedIs(c: Cell, ms: seq<ServerMsg>)
    ensures ms == [] ==> Track(c, ms) == c
  {
  }

  lemma {:induction false} PostStays(p: Option<Post>, ms: seq<ServerMsg>)
    requires AllClose(ms)
    ensures Track(Cell(p, false), ms).post.Some? <==> p.Some?
    decreases |ms|
  {
    if ms != [] {
      assert ms[0] in ms;
      var c := CellStep(Cell(p, false), ms[0]);
      PostStays(c.post, ms[1..]);
    }
  }

  lemma PostMid(mid: Cell, was: Post, now: Post, id: u64)
    requires StringsFit(was.body) && now == was.(body := now.body) && !mid.failed
    ensures var d := Track(mid, PatchStream(id, was.body, now.body));
            && (d.failed <==> mid.post.Some? && !Takes(mid.post.value.body, was.body, now.body))
            && (d.post == Some(now) <==>
                  && mid.post.Some? && mid.post.value.(body := was.body) == was
                  && Follows(mid.post.value.body, was.body, now.body))
  {
    hide Track, PatchStream, Takes, Follows;
    if mid.post.Some? {
      EditExact(mid.post.value, was, now, id);
    } else {
      PatchesNeedPost(mid, id, was.body, now.body);
    }
  }

  // ----- one client at a flush -----

  lemma ClientCell(w: Watch, thread: u64, ms: seq<ServerMsg>, id: u64)
    requires Updates(ms)
    ensures var c := ObserveAll(w, thread, ms).client;
            var d := Track(Cell(PostAt(w.client.posts, id), false), For(ms, id));
            PostAt(c.posts, id) == d.post && (id in c.failed <==> id in w.client.failed || d.failed)
  {
    hide Track, Receive;
    ObserveUpdates(w, thread, ms);
    ReceiveAllAt(w.client, thread, ms, id);
    TrackFlag(PostAt(w.client.posts, id), id in w.client.failed, For(ms, id));
  }

  lemma NobodysPost(f: Feed, g: Feed, patches: seq<ServerMsg>, id: u64)
    requires FeedInv(f) && PatchesBetween(f, g, patches) && !OnSomePage(f, id)
    ensures For(f.buffered + patches, id) == []
  {
    NothingBuffered(f, f.buffered + patches, id);
  }

  lemma FlushExact(f: Feed, g: Feed, patches: seq<ServerMsg>, thread: u64, w: Watch, id: u64)
    requires FeedInv(f) && OpenBodiesChange(f, g) && PatchesBetween(f, g, patches) && Updates(f.buffered + patches)
    ensures id in ObserveAll(w, thread, f.buffered + patches).client.failed <==>
              id in w.client.failed || Misses(f, g, w.client, id)
  {
    hide Track, PatchesBetween, MissesOn, ObserveAll, FeedInv;
    ClientCell(w, thread, f.buffered + patches, id);
    if page :| page in f.pages && id in PostsOn(f, page) {
      PostFlushed(f, g, patches, w.client, page, id);
      OnePage(f, g, w.client, page, id);
    } else {
      NobodysPost(f, g, patches, id);
      NothingBufferedIs(Cell(PostAt(w.client.posts, id), false), []);
      NowhereMissed(f, g, w.client, id);
    }
  }

  lemma NowhereMissed(f: Feed, g: Feed, c: Client, id: u64)
    requires !OnSomePage(f, id)
    ensures !Misses(f, g, c, id)
  {
  }

  lemma OnePage(f: Feed, g: Feed, c: Client, page: PageID, id: u64)
    requires FeedInv(f) && page in f.pages && id in PostsOn(f, page)
    ensures Misses(f, g, c, id) <==> id in c.posts && !InsertedBy(f.buffered, id) && MissesOn(f, g, c, page, id)
  {
    hide Takes;
  }

  // ----- runs -----

  lemma ClosedStay(f: Feed, ch: PulseChoice)
    requires OnlyBodiesChange(BeforeDiff(f, ch), AfterDiff(f, ch).(buffered := []))
    ensures OpenBodiesChange(BeforeDiff(f, ch), AfterDiff(f, ch).(buffered := []))
  {
    hide OnlyBodiesChange, LoadPending, ServeDeferred;
  }

  /** What a pulse does to a client, as it is when the fetches deferred have been answered. */
  lemma PulseFlush(s: System, ch: PulseChoice, c: ClientID)
    requires Inv(s) && Sound(s, PulseWith(ch)) && c in s.subscribed
    ensures var before, after := BeforeDiff(s.feed, ch), AfterDiff(s.feed, ch).(buffered := []);
            && c in AtFlush(s, ch) && c in s.watches && c in Next(s, PulseWith(ch)).watches
            && AtFlush(s, ch)[c].client.failed == s.watches[c].client.failed
            && Next(s, PulseWith(ch)).feed == after && before.buffered == s.feed.buffered
            && Next(s, PulseWith(ch)).watches[c] == ObserveAll(AtFlush(s, ch)[c], s.feed.thread, before.buffered + ch.patches)
            && FeedInv(before) && OpenBodiesChange(before, after) && PatchesBetween(before, after, ch.patches)
            && Updates(before.buffered + ch.patches)
  {
    hide WatchInv, FeedInv, Deliver, ObserveAll, PatchesBetween, OpenBodiesChange, OnlyBodiesChange;
    var f := s.feed;
    PulseDelivers(s, ch);
    DeferredAreSnapshots(f, ch.pages, |ch.pages|);
    DeliverFailsNothing(f, s.watches, f.thread, DeferredDeliveries(f, ch.pages, |ch.pages|), c);
    PulseKeepsFeed(f, ch);
    ClosedStay(f, ch);
    SamePatches(BeforeDiff(f, ch), AfterDiff(f, ch), AfterDiff(f, ch).(buffered := []), ch.patches);
    PulseUpdates(f, ch);
  }

  /** Exact, in every run: at a pulse a post newly fails for a client iff the feed patches it, the client
      has it and is not about to be sent its insertion, and the body the client has lacks the structure
      that the edit goes into. */
  lemma PatchFailsExact(states: seq<System>, events: seq<Event>, k: nat, c: ClientID, id: u64)
    requires Run(states, events) && k < |events| && events[k].PulseWith? && c in states[k].subscribed
    ensures c in AtFlush(states[k], events[k].choice) && c in states[k].watches && c in states[k + 1].watches
    ensures var s, ch := states[k], events[k].choice;
            var before, after := BeforeDiff(s.feed, ch), AfterDiff(s.feed, ch).(buffered := []);
            id in states[k + 1].watches[c].client.failed <==>
              id in s.watches[c].client.failed || Misses(before, after, AtFlush(s, ch)[c].client, id)
  {
    hide Inv, Next, Sound, Misses, OpenBodiesChange, PatchesBetween, FeedInv, AfterDiff, BeforeDiff, ObserveAll, AtFlush;
    RunKeeps(states, events, k);
    assert Sound(states[k], events[k]) && states[k + 1] == Next(states[k], events[k]);
    var s, ch := states[k], events[k].choice;
    PulseFlush(s, ch, c);
    FlushExact(BeforeDiff(s.feed, ch), AfterDiff(s.feed, ch).(buffered := []), ch.patches, s.feed.thread,
               AtFlush(s, ch)[c], id);
  }

  /** Exact, in every run: after a pulse a client shows a post as the feed has it iff, what was buffered
      taken in, all it had of it was as in the feed before, but for the parts of the body replaced. */
  lemma InStepExact(states: seq<System>, events: seq<Event>, k: nat, c: ClientID, page: PageID, id: u64)
    requires Run(states, events) && k < |events| && events[k].PulseWith? && c in states[k].subscribed
    requires page in states[k + 1].feed.pages && id in PostsOn(states[k + 1].feed, page)
    ensures c in AtFlush(states[k], events[k].choice) && c in states[k + 1].watches
    ensures var s, ch := states[k], events[k].choice;
            var before := BeforeDiff(s.feed, ch);
            && page in before.pages && id in PostsOn(before, page)
            && var was, now := PostsOn(before, page)[id], PostsOn(states[k + 1].feed, page)[id];
               var has := CopyOf(before, AtFlush(s, ch)[c].client, id);
               PostAt(states[k + 1].watches[c].client.posts, id) == Some(now) <==>
                 has.Some? && has.value.(body := was.body) == was && Follows(has.value.body, was.body, now.body)
  {
    hide Inv, Next, Sound, OpenBodiesChange, PatchesBetween, FeedInv, AfterDiff, BeforeDiff, ObserveAll, AtFlush;
    hide Follows, CopyOf;
    RunKeeps(states, events, k);
    assert Sound(states[k], events[k]) && states[k + 1] == Next(states[k], events[k]);
    var s, ch := states[k], events[k].choice;
    PulseFlush(s, ch, c);
    var before, after := BeforeDiff(s.feed, ch), AfterDiff(s.feed, ch).(buffered := []);
    SameIdsOpen(before, after);
    PostFlushed(before, after, ch.patches, AtFlush(s, ch)[c].client, page, id);
    ClientCell(AtFlush(s, ch)[c], s.feed.thread, before.buffered + ch.patches, id);
  }

  lemma SameIdsOpen(f: Feed, g: Feed)
    requires OpenBodiesChange(f, g)
    ensures g.pages.Keys == f.pages.Keys
    ensures forall page | page in f.pages :: PostsOn(f, page).Keys == PostsOn(g, page).Keys
  {
    SameIds(f, g);
  }
}
