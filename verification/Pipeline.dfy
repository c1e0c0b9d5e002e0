/** From the author's form to every reader: text synchronization, parser, feed and clients joined. */
module Pipeline {
  import opened MachineInts
  import opened TextDiff
  import opened PostBody
  import opened Messages
  import opened FeedState
  import FeedInvariant
  import BodyLeaves
  import BodyParser
  import BodyWritten
  import T = TextSync
  import W = Watching
  import C = Convergence

  type Env = BodyLeaves.Env

  /** Where the author's open post is. */
  datatype Place = Place(page: PageID, id: u64)

  /** The author's connection, one feed with its clients, and the environment in which the author's text
      was last parsed. `at` means something only while the server has an open post. */
  datatype System = System(text: T.System, feed: C.System, at: Place, env: Env)

  datatype Event =
    | Author(act: T.Event)
    /** The server handles the author's next message. What the post is given to start with, the state
        of the database, and how the commands of a closed post come out are up to it. */
    | Handled(at: Place, opts: PostOpts, now: u32, db: Posts, closed: Node)
    | Other(event: C.Event)
    | Pulse(env: Env, choice: PulseChoice)

  function ParserOf(env: Env): string -> Node {
    (text: string) => BodyParser.Parse(env, text, true)
  }

  function Parsing(env: Env, ch: PulseChoice): PulseChoice {
    ch.(parse := ParserOf(env))
  }

  predicate Waits(f: Feed, at: Place) {
    at.page in f.pendingBodies && at.id in f.pendingBodies[at.page]
  }

  // ----- steps -----

  /** What handling the author's next message has the feed do. */
  function ToFeed(s: System, e: Event): Option<C.Event>
    requires e.Handled? && s.text.client.outgoing != []
  {
    var m := s.text.client.outgoing[0].msg;
    match T.Handle(s.text.server, m)
    case Rejected => None
    case Accepted(open) =>
      match m
      case InsertPost(_) => Some(C.Insert(InsertReq(e.at.id, e.at.page, e.opts), e.now, e.db))
      case ClosePost => Some(C.Close(s.at.page, s.at.id, e.closed, e.db))
      case _ => if open.Some? then Some(C.SetBodyOf(s.at.page, s.at.id, open.value)) else None
  }

  /** Nobody but its author changes a post. */
  predicate Foreign(at: Place, e: C.Event) {
    match e
    case Insert(req, _, _) => req.id != at.id
    case SetBodyOf(page, id, _) => Place(page, id) != at
    case Close(page, id, _, _) => Place(page, id) != at
    case PulseWith(_) => false
    case _ => true
  }

  ghost predicate Sound(s: System, e: Event) {
    match e
    case Author(a) => T.Enabled(s.text, a) && !a.ServerHandles?
    case Handled(at, opts, now, db, closed) =>
      && s.text.client.outgoing != []
      && (match ToFeed(s, e)
          case None => true
          // a new id, on a page with room for it
          case Some(Insert(req, _, _)) =>
            && C.Sound(s.feed, ToFeed(s, e).value) && !Waits(s.feed.feed, at)
            && (at.page in s.feed.feed.pages ==> Load(s.feed.feed.pages[at.page], db).Mutable?)
          case Some(Close(page, _, _, _)) =>
            FeedInvariant.SoundPage(s.feed.feed, page, db) && StringsFit(closed)
          case _ => true)
    case Other(c) =>
      C.Sound(s.feed, c) && Foreign(s.at, c) && (c.SetBodyOf? ==> |c.text| <= T.MAX_BODY)
    case Pulse(env, ch) =>
      C.SoundPulse(s.feed, Parsing(env, ch)) && BodyWritten.HighlightFits(env, T.MAX_BODY)
  }

  ghost function Next(s: System, e: Event): System
    requires Sound(s, e)
  {
    match e
    case Author(a) => s.(text := T.Next(s.text, a))
    case Handled(at, _, _, _, _) =>
      var s' := s.(text := T.Next(s.text, T.ServerHandles(at.id)));
      (match ToFeed(s, e)
       case None => s'
       case Some(c) => s'.(feed := C.Next(s.feed, c), at := if c.Insert? then at else s.at))
    case Other(c) => s.(feed := C.Next(s.feed, c))
    case Pulse(env, ch) =>
      s.(feed := C.Next(s.feed, C.PulseWith(Parsing(env, ch))), env := if Waits(s.feed.feed, s.at) then env else s.env)
  }

  ghost predicate Init(s: System) {
    && s.text == T.System(T.Client(T.Ready, [], []), None, [], false)
    && C.Init(s.feed) && s.feed.feed.pendingBodies == map[]
  }

  ghost predicate Run(states: seq<System>, events: seq<Event>) {
    && |states| == |events| + 1
    && Init(states[0])
    && forall k | 0 <= k < |events| :: Sound(states[k], events[k]) && states[k + 1] == Next(states[k], events[k])
  }

  // ----- invariant -----

  /** The feed has the post, open, and its body is the parsed text or will be. */
  ghost predicate Carries(f: Feed, at: Place, text: string, env: Env) {
    && at.page in f.pages && f.pages[at.page].Mutable?
    && at.id in f.pages[at.page].posts && f.pages[at.page].posts[at.id].open
    && if Waits(f, at) then f.pendingBodies[at.page][at.id] == text
       else f.pages[at.page].posts[at.id].body == BodyParser.Parse(env, text, true)
  }

  ghost predicate Bounded(f: Feed) {
    forall page, id | page in f.pendingBodies && id in f.pendingBodies[page] ::
      |f.pendingBodies[page][id]| <= T.MAX_BODY
  }

  ghost predicate Inv(s: System) {
    && T.Inv(s.text) && C.Inv(s.feed) && Bounded(s.feed.feed)
    && (s.text.server.Some? ==> Carries(s.feed.feed, s.at, s.text.server.value, s.env))
  }

  // ----- what others do -----

  lemma OthersCarry(s: C.System, e: C.Event, at: Place, text: string, env: Env)
    requires C.Sound(s, e) && Foreign(at, e) && Carries(s.feed, at, text, env)
    ensures Carries(C.Next(s, e).feed, at, text, env)
  {
    hide C.Deliver, Carries, FetchPage, InsertPost, ClosePost, SetBody, TryMakePagesImmutable;
    var f := s.feed;
    match e
    case Fetch(page, c, db) =>
      if !C.Panics(f, page) {
        FetchCarries(f, page, c, db, at, text, env);
      }
    case Insert(req, now, db) => InsertCarries(f, req, now, db, at, text, env);
    case SetBodyOf(page, id, other) => SetBodyCarries(f, page, id, other, at, text, env);
    case Close(page, id, body, db) => CloseCarries(f, page, id, body, db, at, text, env);
    case Freeze => FreezeCarries(f, at, text, env);
    case _ =>
  }

  lemma FetchCarries(f: Feed, page: int, c: ClientID, db: Posts, at: Place, text: string, env: Env)
    requires !C.Panics(f, page) && Carries(f, at, text, env)
    ensures Carries(FetchPage(f, page, c, db).0, at, text, env)
  {
  }

  lemma SetBodyCarries(f: Feed, page: PageID, id: u64, other: string, at: Place, text: string, env: Env)
    requires Place(page, id) != at && Carries(f, at, text, env)
    ensures Carries(SetBody(f, page, id, other), at, text, env)
  {
  }

  /** A page with an open post stays mutable. */
  lemma FreezeCarries(f: Feed, at: Place, text: string, env: Env)
    requires Carries(f, at, text, env)
    ensures Carries(TryMakePagesImmutable(f), at, text, env)
  {
    assert !CanBeImmutable(f.pages[at.page].posts);
  }

  lemma InsertCarries(f: Feed, req: InsertReq, now: u32, db: Posts, at: Place, text: string, env: Env)
    requires req.id != at.id && Carries(f, at, text, env)
    ensures Carries(InsertPost(f, req, now, db), at, text, env)
  {
  }

  lemma CloseCarries(f: Feed, page: PageID, id: u64, body: Node, db: Posts, at: Place, text: string, env: Env)
    requires Place(page, id) != at && Carries(f, at, text, env)
    ensures Carries(ClosePost(f, page, id, body, db), at, text, env)
  {
  }

  lemma OthersBounded(s: C.System, e: C.Event)
    requires C.Sound(s, e) && !e.PulseWith? && Bounded(s.feed) && (e.SetBodyOf? ==> |e.text| <= T.MAX_BODY)
    ensures Bounded(C.Next(s, e).feed)
  {
    hide C.Deliver;
    match e
    case Insert(req, now, db) => assert InsertPost(s.feed, req, now, db).pendingBodies == s.feed.pendingBodies;
    case Close(page, id, body, db) => CloseBounded(s.feed, page, id, body, db);
    case SetBodyOf(page, id, text) => SetBodyBounded(s.feed, page, id, text);
    case _ =>
  }

  lemma CloseBounded(f: Feed, page: PageID, id: u64, body: Node, db: Posts)
    requires Bounded(f)
    ensures Bounded(ClosePost(f, page, id, body, db))
  {
  }

  lemma SetBodyBounded(f: Feed, page: PageID, id: u64, text: string)
    requires Bounded(f) && |text| <= T.MAX_BODY
    ensures Bounded(SetBody(f, page, id, text))
  {
  }

  // ----- what the author does -----

  lemma NothingParsed(env: Env)
    ensures BodyParser.Parse(env, [], true) == Empty
  {
  }

  lemma InsertedCarries(f: Feed, req: InsertReq, now: u32, db: Posts, env: Env)
    requires req.page in f.pages ==> Load(f.pages[req.page], db).Mutable?
    requires !Waits(f, Place(req.page, req.id))
    ensures Carries(InsertPost(f, req, now, db), Place(req.page, req.id), [], env)
  {
    NothingParsed(env);
  }

  lemma EditCarries(f: Feed, at: Place, was: string, text: string, env: Env)
    requires Carries(f, at, was, env)
    ensures Carries(SetBody(f, at.page, at.id, text), at, text, env)
  {
  }

  // ----- the pulse -----

  lemma PulseCarries(f: Feed, ch: PulseChoice, at: Place, text: string, env: Env, was: Env)
    requires ch.parse == ParserOf(env) && Carries(f, at, text, was)
    ensures Carries(AfterDiff(f, ch).(buffered := []), at, text, if Waits(f, at) then env else was)
    ensures !Waits(AfterDiff(f, ch).(buffered := []), at)
  {
  }

  /** Bodies within the server's limit can be parsed, diffed and patched. */
  lemma ParsedFits(f: Feed, env: Env)
    requires Bounded(f) && BodyWritten.HighlightFits(env, T.MAX_BODY)
    ensures FeedInvariant.PendingFit(f, ParserOf(env))
  {
    forall page, id | page in f.pendingBodies && id in f.pendingBodies[page]
      ensures StringsFit(ParserOf(env)(f.pendingBodies[page][id]))
    {
      var text := f.pendingBodies[page][id];
      assert |text| <= T.MAX_BODY;
      BodyWritten.ParseFits(env, text, true);
    }
  }

  // ----- every step keeps the invariant -----

  lemma AuthorKeeps(s: System, a: T.Event)
    requires Inv(s) && Sound(s, Author(a))
    ensures Inv(Next(s, Author(a)))
  {
    hide C.Inv, T.Inv, Carries, Bounded;
    T.StepKeeps(s.text, a);
    assert T.Next(s.text, a).server == s.text.server;
  }

  lemma OthersKeep(s: System, c: C.Event)
    requires Inv(s) && Sound(s, Other(c))
    ensures Inv(Next(s, Other(c)))
  {
    hide C.Inv, T.Inv, Carries, Bounded, C.Next, C.Sound;
    C.StepKeeps(s.feed, c);
    OthersBounded(s.feed, c);
    if s.text.server.Some? {
      OthersCarry(s.feed, c, s.at, s.text.server.value, s.env);
    }
  }

  lemma PulseIsSound(s: System, env: Env, ch: PulseChoice)
    requires Inv(s) && Sound(s, Pulse(env, ch))
    ensures C.Sound(s.feed, C.PulseWith(Parsing(env, ch)))
  {
    hide C.Inv, T.Inv, Carries, Bounded, C.SoundPulse, FeedInvariant.PendingFit;
    ParsedFits(s.feed.feed, env);
  }

  lemma PulseKeeps(s: System, env: Env, ch: PulseChoice)
    requires Inv(s) && Sound(s, Pulse(env, ch))
    ensures Inv(Next(s, Pulse(env, ch)))
    ensures !Waits(Next(s, Pulse(env, ch)).feed.feed, s.at) || s.text.server.None?
  {
    hide C.Inv, T.Inv, Carries, Waits, C.Sound, C.Deliver, AfterDiff;
    var c := C.PulseWith(Parsing(env, ch));
    var f := s.feed.feed;
    PulseIsSound(s, env, ch);
    C.StepKeeps(s.feed, c);
    var g := AfterDiff(f, Parsing(env, ch)).(buffered := []);
    assert C.Next(s.feed, c).feed == g;
    NothingPending(f, Parsing(env, ch));
    if s.text.server.Some? {
      PulseCarries(f, Parsing(env, ch), s.at, s.text.server.value, env, s.env);
    }
  }

  lemma NothingPending(f: Feed, ch: PulseChoice)
    ensures AfterDiff(f, ch).pendingBodies == map[]
  {
  }

  /** The message handled was accepted, and leaves the body its author expects. */
  lemma MessageAccepted(s: T.System)
    requires T.Inv(s) && s.client.outgoing != []
    ensures T.Handle(s.server, s.client.outgoing[0].msg) == T.Accepted(s.client.outgoing[0].mirror)
  {
  }

  lemma HandledKeeps(s: System, e: Event)
    requires Inv(s) && e.Handled? && Sound(s, e)
    ensures Inv(Next(s, e))
  {
    hide C.Inv, T.Inv, Carries, Bounded, C.Sound, C.Next;
    T.StepKeeps(s.text, T.ServerHandles(e.at.id));
    MessageAccepted(s.text);
    match s.text.client.outgoing[0].msg
    case InsertPost(_) => HandledInsert(s, e);
    case ClosePost => HandledClose(s, e);
    case _ => HandledEdit(s, e);
  }

  lemma HandledInsert(s: System, e: Event)
    requires Inv(s) && e.Handled? && Sound(s, e) && s.text.client.outgoing[0].msg.InsertPost?
    ensures Inv(Next(s, e))
  {
    hide C.Inv, T.Inv, Carries, Bounded, C.Sound, C.Deliver;
    T.StepKeeps(s.text, T.ServerHandles(e.at.id));
    MessageAccepted(s.text);
    var req := InsertReq(e.at.id, e.at.page, e.opts);
    var c := C.Insert(req, e.now, e.db);
    C.StepKeeps(s.feed, c);
    OthersBounded(s.feed, c);
    InsertedCarries(s.feed.feed, req, e.now, e.db, s.env);
  }

  lemma HandledClose(s: System, e: Event)
    requires Inv(s) && e.Handled? && Sound(s, e) && s.text.client.outgoing[0].msg.ClosePost?
    ensures Inv(Next(s, e))
  {
    hide C.Inv, T.Inv, Carries, Bounded, C.Next;
    T.StepKeeps(s.text, T.ServerHandles(e.at.id));
    MessageAccepted(s.text);
    var c := C.Close(s.at.page, s.at.id, e.closed, e.db);
    C.StepKeeps(s.feed, c);
    OthersBounded(s.feed, c);
  }

  lemma HandledEdit(s: System, e: Event)
    requires Inv(s) && e.Handled? && Sound(s, e)
    requires var m := s.text.client.outgoing[0].msg; m.Append? || m.Backspace? || m.PatchBody?
    ensures Inv(Next(s, e))
  {
    hide C.Inv, T.Inv, Carries, Bounded, C.Deliver, Spliced;
    T.StepKeeps(s.text, T.ServerHandles(e.at.id));
    MessageAccepted(s.text);
    var text := s.text.client.outgoing[0].mirror.value;
    assert |text| <= T.MAX_BODY;
    var c := C.SetBodyOf(s.at.page, s.at.id, text);
    C.StepKeeps(s.feed, c);
    OthersBounded(s.feed, c);
    EditCarries(s.feed.feed, s.at, s.text.server.value, text, s.env);
  }

  lemma StepKeeps(s: System, e: Event)
    requires Inv(s) && Sound(s, e)
    ensures Inv(Next(s, e))
  {
    hide Inv, Sound, Next;
    match e
    case Author(a) => AuthorKeeps(s, a);
    case Handled(_, _, _, _, _) => HandledKeeps(s, e);
    case Other(c) => OthersKeep(s, c);
    case Pulse(env, ch) => PulseKeeps(s, env, ch);
  }

  lemma InitInv(s: System)
    requires Init(s)
    ensures Inv(s)
  {
    C.InitInv(s.feed);
  }

  lemma {:induction false} RunKeeps(states: seq<System>, events: seq<Event>, k: nat)
    requires Run(states, events) && k <= |events|
    ensures Inv(states[k])
  {
    hide Inv, Init, Sound, Next;
    if k == 0 {
      InitInv(states[0]);
    } else {
      RunKeeps(states, events, k - 1);
      assert Sound(states[k - 1], events[k - 1]) && states[k - 1 + 1] == Next(states[k - 1], events[k - 1]);
      StepKeeps(states[k - 1], events[k - 1]);
    }
  }

  // ----- what the author has typed -----

  /** The author's part in an event. */
  function TextEvent(e: Event): Option<T.Event> {
    match e
    case Author(a) => Some(a)
    case Handled(at, _, _, _, _) => Some(T.ServerHandles(at.id))
    case _ => None
  }

  function FormStep(f: T.Form, s: System, e: Event): T.Form
    requires TextEvent(e).Some? ==> T.Enabled(s.text, TextEvent(e).value)
  {
    if TextEvent(e).None? then f else T.FormStep(f, s.text, TextEvent(e).value)
  }

  lemma EventEnabled(s: System, e: Event)
    requires Sound(s, e)
    ensures TextEvent(e).Some? ==> T.Enabled(s.text, TextEvent(e).value)
    ensures Next(s, e).text == if TextEvent(e).None? then s.text else T.Next(s.text, TextEvent(e).value)
  {
    hide C.Next, C.Sound, C.SoundPulse;
  }

  ghost function FormAt(states: seq<System>, events: seq<Event>, k: nat): T.Form
    requires Run(states, events) && k <= |events|
  {
    if k == 0 then T.BLANK
    else
      assert Sound(states[k - 1], events[k - 1]);
      EventEnabled(states[k - 1], events[k - 1]);
      FormStep(FormAt(states, events, k - 1), states[k - 1], events[k - 1])
  }

  lemma {:induction false} RunForm(states: seq<System>, events: seq<Event>, k: nat)
    requires Run(states, events) && k <= |events|
    ensures T.FormInv(states[k].text, FormAt(states, events, k))
  {
    hide T.FormInv, T.Inv, C.Inv, Carries, Bounded, C.Init, Sound, Next;
    if k == 0 {
      T.BlankForm();
    } else {
      RunForm(states, events, k - 1);
      RunKeeps(states, events, k - 1);
      assert Sound(states[k - 1], events[k - 1]) && states[k - 1 + 1] == Next(states[k - 1], events[k - 1]);
      EventEnabled(states[k - 1], events[k - 1]);
      if TextEvent(events[k - 1]).Some? {
        T.StepForm(states[k - 1].text, TextEvent(events[k - 1]).value, FormAt(states, events, k - 1));
      }
    }
  }

  /** The post on the feed is the one the author's client believes to be its own. */
  ghost predicate SamePost(s: System, f: T.Form) {
    s.text.server.Some? ==> f.id == Some(s.at.id)
  }

  lemma StepSamePost(s: System, e: Event, f: T.Form)
    requires Inv(s) && Sound(s, e) && SamePost(s, f)
    ensures TextEvent(e).Some? ==> T.Enabled(s.text, TextEvent(e).value)
    ensures SamePost(Next(s, e), FormStep(f, s, e))
  {
    hide T.Inv, C.Inv, Carries, Bounded, C.Next, C.Sound, C.SoundPulse;
    EventEnabled(s, e);
    if e.Handled? {
      MessageAccepted(s.text);
    }
  }

  lemma {:induction false} RunSamePost(states: seq<System>, events: seq<Event>, k: nat)
    requires Run(states, events) && k <= |events|
    ensures SamePost(states[k], FormAt(states, events, k))
  {
    hide T.Inv, C.Inv, Carries, Bounded, C.Init, Sound, Next;
    if k > 0 {
      RunSamePost(states, events, k - 1);
      RunKeeps(states, events, k - 1);
      assert Sound(states[k - 1], events[k - 1]) && states[k - 1 + 1] == Next(states[k - 1], events[k - 1]);
      EventEnabled(states[k - 1], events[k - 1]);
      StepSamePost(states[k - 1], events[k - 1], FormAt(states, events, k - 1));
    }
  }

  // ----- what readers see -----

  /** In every run, after each pulse every reader who has the post in step, or its page, shows it open
      with the parsed text of the server's copy of the body; and once nothing is under way that is the
      text the author typed last. The post is the one the author's client was given the id of. */
  lemma AuthorToReaders(states: seq<System>, events: seq<Event>, k: nat, reader: ClientID)
    requires Run(states, events) && k < |events| && events[k].Pulse? && states[k + 1].text.server.Some?
    requires var s := states[k + 1];
             && reader in s.feed.subscribed && reader in s.feed.watches
             && (s.at.id in s.feed.watches[reader].sure || s.at.page as int in s.feed.watches[reader].seen)
    ensures var s := states[k + 1];
            var posts := s.feed.watches[reader].client.posts;
            && s.at.id in posts && posts[s.at.id].open
            && posts[s.at.id].body == BodyParser.Parse(s.env, s.text.server.value, true)
            && (s.text.client.state.Allocated? && s.text.client.outgoing == [] ==>
                  posts[s.at.id].body == BodyParser.Parse(s.env, s.text.client.body, true))
    ensures var s, form := states[k + 1], FormAt(states, events, k + 1);
            var posts := s.feed.watches[reader].client.posts;
            && form.id == Some(s.at.id) && (s.text.client.state.Allocated? ==> s.text.client.state.post == s.at.id)
            && (s.text.client.outgoing == [] && s.text.acks == [] ==>
                  form.open.Some? && posts[s.at.id].body == BodyParser.Parse(s.env, form.typed, true))
  {
    hide C.Inv, T.Inv, T.FormInv, Sound, Next, Init, SamePost;
    RunKeeps(states, events, k);
    RunKeeps(states, events, k + 1);
    assert Sound(states[k], events[k]) && states[k + 1] == Next(states[k], events[k]);
    PulseParses(states[k], events[k].env, events[k].choice);
    Shown(states[k + 1], reader);
    RunForm(states, events, k + 1);
    RunSamePost(states, events, k + 1);
    QuietForm(states[k + 1], FormAt(states, events, k + 1));
    if states[k + 1].text.client.state.Allocated? && states[k + 1].text.client.outgoing == [] {
      Quiet(states[k + 1].text);
    }
  }

  lemma QuietForm(s: System, f: T.Form)
    requires T.Inv(s.text) && T.FormInv(s.text, f) && SamePost(s, f) && s.text.server.Some?
    ensures f.id == Some(s.at.id) && (s.text.client.state.Allocated? ==> s.text.client.state.post == s.at.id)
    ensures s.text.client.outgoing == [] && s.text.acks == [] ==> f.open.Some? && s.text.server.value == f.typed
  {
  }

  lemma PulseParses(s: System, env: Env, ch: PulseChoice)
    requires Inv(s) && Sound(s, Pulse(env, ch)) && Next(s, Pulse(env, ch)).text.server.Some?
    ensures var s' := Next(s, Pulse(env, ch)); !Waits(s'.feed.feed, s'.at) && s'.feed.feed.buffered == []
  {
    hide C.Inv, T.Inv, C.Deliver, AfterDiff;
    PulseKeeps(s, env, ch);
  }

  lemma Shown(s: System, reader: ClientID)
    requires Inv(s) && s.text.server.Some? && !Waits(s.feed.feed, s.at) && s.feed.feed.buffered == []
    requires reader in s.feed.subscribed && reader in s.feed.watches
    requires s.at.id in s.feed.watches[reader].sure || s.at.page as int in s.feed.watches[reader].seen
    ensures var posts := s.feed.watches[reader].client.posts;
            && s.at.id in posts && posts[s.at.id].open
            && posts[s.at.id].body == BodyParser.Parse(s.env, s.text.server.value, true)
  {
    hide T.Inv, W.WatchInv, FeedInvariant.FeedInv, FeedInvariant.Filled, Carries;
    var f := s.feed.feed;
    C.ConvergedWhenFlushed(f, s.feed.watches[reader]);
    CarriedPost(f, s.at, s.text.server.value, s.env);
  }

  lemma CarriedPost(f: Feed, at: Place, text: string, env: Env)
    requires Carries(f, at, text, env) && !Waits(f, at)
    ensures at.page in f.pages && at.id in PostsOn(f, at.page) && PostsOn(f, at.page)[at.id].open
    ensures PostsOn(f, at.page)[at.id].body == BodyParser.Parse(env, text, true)
  {
    hide BodyParser.Parse;
  }

  lemma Quiet(s: T.System)
    requires T.Inv(s) && s.client.state.Allocated? && s.client.outgoing == []
    ensures s.server == Some(s.client.body)
  {
  }
}
