/** Text of an open post, typed on one side of a connection and replayed on the other
    (`posting::Agent` and `MessageHandler`). */
module TextSync {
  import opened MachineInts
  import opened PostBody
  import opened TextDiff

  const MAX_BODY: nat := 2000

  datatype ClientMsg =
    | InsertPost(thread: u64)
    | Append(ch: char)
    | Backspace
    | PatchBody(patch: TextPatch)
    | ClosePost

  /** A message, and what the client takes the server's open body to be once it has been handled. */
  datatype Sent = Sent(msg: ClientMsg, mirror: Option<Chars>)

  datatype State =
    | Ready
    | Draft(thread: u64)
    | Allocating(thread: u64)
    | Allocated(post: u64)
    | NeedCaptcha(thread: u64)
    | CriticalError

  datatype Client = Client(state: State, body: Chars, outgoing: seq<Sent>)

  // ----- client -----

  /** The cheapest message that turns one body into another. */
  function Edit(prev: Chars, next: Chars): ClientMsg {
    if |next| == |prev| + 1 && next[..|prev|] == prev then Append(next[|prev|])
    else if |next| + 1 == |prev| && prev[..|next|] == next then Backspace
    else PatchBody(Make(prev, next))
  }

  function TryAlloc(c: Client, onThread: bool): Client {
    if c.state.Draft? && onThread
    then Client(Allocating(c.state.thread), c.body, c.outgoing + [Sent(InsertPost(c.state.thread), Some([]))])
    else c
  }

  function CommitText(c: Client, next: Chars, onThread: bool): Client {
    if next == [] && c.body == [] then c
    else
      var c := TryAlloc(c, onThread);
      if !c.state.Allocated? then c.(body := next)
      else if next == c.body then c
      else c.(body := next, outgoing := c.outgoing + [Sent(Edit(c.body, next), Some(next))])
  }

  function CommitPending(c: Client, onThread: bool): Client {
    if c.body == [] then c else CommitText(c.(body := []), c.body, onThread)
  }

  function OpenDraft(c: Client, thread: u64): Client {
    if c.state.Ready? then c.(state := Draft(thread)) else c
  }

  function CloseForm(c: Client): Client {
    match c.state
    case Draft(_) => Client(Ready, [], c.outgoing)
    case NeedCaptcha(_) => Client(Ready, [], c.outgoing)
    case Allocated(_) => Client(Ready, [], c.outgoing + [Sent(ClosePost, None)])
    case _ => c
  }

  /** The id of the open post became known. */
  function PostOpened(c: Client, post: u64, onThread: bool): Client {
    match c.state
    case Ready => CommitPending(c.(state := Allocated(post)), onThread)
    case Draft(_) => CommitPending(c.(state := Allocated(post)), onThread)
    case Allocating(_) => CommitPending(c.(state := Allocated(post)), onThread)
    case _ => c
  }

  class Agent {
    var state: State
    var postBody: Chars
    var outgoing: seq<Sent>

    /** The state last sent to every subscriber. */
    var shown: State

    ghost function View(): Client
      reads this
    {
      Client(state, postBody, outgoing)
    }

    constructor ()
      ensures View() == Client(Ready, [], []) && shown == state
    {
      state, postBody, outgoing, shown := Ready, [], [], Ready;
    }

    method Send(m: ClientMsg, mirror: Option<Chars>)
      modifies this`outgoing
      ensures outgoing == old(outgoing) + [Sent(m, mirror)]
    {
      outgoing := outgoing + [Sent(m, mirror)];
    }

    method SetState(new': State, onThread: bool)
      modifies this
      ensures View() == if state == old(state) || !new'.Allocated? then old(View()).(state := new')
                        else CommitPending(old(View()).(state := new'), onThread)
      ensures state == new'
      ensures shown == if state == old(state) then old(shown) else state
      decreases if new'.Allocated? then 4 else 0
    {
      if state != new' {
        state := new';
        if new'.Allocated? {
          CommitPendingText(onThread);
        }
        shown := state;
      }
    }

    method TryAllocPost(onThread: bool)
      modifies this
      ensures View() == TryAlloc(old(View()), onThread)
      ensures shown == if state == old(state) then old(shown) else state
      decreases 1
    {
      match state
      case Draft(thread) =>
        if onThread {
          Send(InsertPost(thread), Some([]));
          SetState(Allocating(thread), onThread);
        }
      case _ =>
    }

    method Commit(next: Chars, onThread: bool)
      modifies this
      ensures View() == CommitText(old(View()), next, onThread)
      ensures shown == if state == old(state) then old(shown) else state
      decreases 2
    {
      if next == [] && postBody == [] {
        return;
      }
      TryAllocPost(onThread);
      if !state.Allocated? {
        postBody := next;
        return;
      }
      if next == postBody {
        return;
      }
      if |next| - |postBody| == 1 && next[..|next| - 1] == postBody {
        Send(Append(next[|next| - 1]), Some(next));
      } else if |next| - |postBody| == -1 && postBody[..|postBody| - 1] == next {
        Send(Backspace, Some(next));
      } else {
        Send(PatchBody(Make(postBody, next)), Some(next));
      }
      postBody := next;
    }

    method CommitPendingText(onThread: bool)
      modifies this
      ensures View() == CommitPending(old(View()), onThread)
      ensures shown == if state == old(state) then old(shown) else state
      decreases 3
    {
      if postBody != [] {
        var b := postBody;
        postBody := [];
        Commit(b, onThread);
      }
    }

    method Reset()
      modifies this
      ensures View() == Client(Ready, [], old(outgoing))
      ensures shown == if state == old(state) then old(shown) else state
    {
      postBody := [];
      SetState(Ready, false);
    }

    method Close()
      modifies this
      ensures View() == CloseForm(old(View()))
      ensures shown == if state == old(state) then old(shown) else state
    {
      match state
      case Draft(_) => Reset();
      case NeedCaptcha(_) => Reset();
      case Allocated(_) =>
        Send(ClosePost, None);
        Reset();
      case _ =>
    }

    method Open(thread: u64)
      modifies this
      ensures View() == OpenDraft(old(View()), thread)
      ensures shown == if state == old(state) then old(shown) else state
    {
      if state == Ready {
        SetState(Draft(thread), false);
      }
    }

    method OpenPostIDChanged(id: u64, onThread: bool)
      modifies this
      ensures View() == PostOpened(old(View()), id, onThread)
      ensures shown == if state == old(state) then old(shown) else state
    {
      match state
      case Ready => SetState(Allocated(id), onThread);
      case Draft(_) => SetState(Allocated(id), onThread);
      case Allocating(_) => SetState(Allocated(id), onThread);
      case _ =>
    }
  }

  // ----- server -----

  /** What handling a message comes to: the open body afterwards, or an error that disconnects. */
  datatype Reply = Accepted(open: Option<Chars>) | Rejected

  function Bounded(body: Chars): Reply {
    if |body| > MAX_BODY then Rejected else Accepted(Some(body))
  }

  function Handle(open: Option<Chars>, m: ClientMsg): Reply {
    match m
    case InsertPost(_) => if open.Some? then Rejected else Accepted(Some([]))
    case ClosePost => if open.None? then Rejected else Accepted(None)
    case Append(ch) => if open.None? then Rejected else Bounded(open.value + [ch])
    case Backspace =>
      if open.None? then Rejected
      else Bounded(if open.value == [] then [] else open.value[..|open.value| - 1])
    case PatchBody(p) =>
      if |p.insert| > MAX_BODY || (p.insert == [] && p.remove == 0) then Rejected
      else if open.None? || p.position > |open.value| then Rejected
      else Bounded(Spliced(p, open.value))
  }

  class MessageHandler {
    var openPost: Option<Chars>

    /** Bodies handed to the thread feed. */
    var fed: seq<Chars>

    constructor ()
      ensures openPost.None? && fed == []
    {
      openPost, fed := None, [];
    }

    /** `update_body` once the closure has modified the body. */
    method Store(body: Chars) returns (ok: bool)
      requires openPost.Some?
      modifies this
      ensures ok <==> |body| <= MAX_BODY
      ensures openPost == Some(body) && fed == if ok then old(fed) + [body] else old(fed)
    {
      openPost := Some(body);
      if |body| > MAX_BODY {
        return false;
      }
      fed := fed + [body];
      ok := true;
    }

    method Receive(m: ClientMsg) returns (ok: bool)
      modifies this
      ensures ok <==> Handle(old(openPost), m).Accepted?
      ensures ok ==> openPost == Handle(old(openPost), m).open
      ensures fed == if ok && (m.Append? || m.Backspace? || m.PatchBody?) then old(fed) + [openPost.value] else old(fed)
    {
      match m
      case InsertPost(_) =>
        if openPost.Some? {
          return false;
        }
        openPost := Some([]);
        ok := true;
      case ClosePost =>
        if openPost.None? {
          return false;
        }
        openPost := None;
        ok := true;
      case Append(ch) =>
        if openPost.None? {
          return false;
        }
        ok := Store(openPost.value + [ch]);
      case Backspace =>
        if openPost.None? {
          return false;
        }
        var b := openPost.value;
        ok := Store(if b == [] then [] else b[..|b| - 1]);
      case PatchBody(p) =>
        ok := Patch(p);
    }

    method Patch(p: TextPatch) returns (ok: bool)
      modifies this
      ensures ok <==> Handle(old(openPost), PatchBody(p)).Accepted?
      ensures ok ==> openPost == Handle(old(openPost), PatchBody(p)).open
      ensures fed == if ok then old(fed) + [openPost.value] else old(fed)
    {
      if |p.insert| > MAX_BODY || (|p.insert| == 0 && p.remove == 0) {
        return false;
      }
      if openPost.None? || p.position > |openPost.value| {
        return false;
      }
      var new' := Apply(p, [], openPost.value);
      assert new' == Spliced(p, openPost.value);
      ok := Store(new');
    }
  }

  // ----- one edit -----

  /** Exact: between bodies in sync, the edit sent for a new text is accepted, and yields that very
      text, iff the text has at most 2000 characters. */
  lemma EditAccepted(prev: Chars, next: Chars)
    requires |prev| <= MAX_BODY && prev != next
    ensures Handle(Some(prev), Edit(prev, next)) == if |next| <= MAX_BODY then Accepted(Some(next)) else Rejected
  {
    if Edit(prev, next).Append? {
      assert prev + [next[|prev|]] == next;
    } else if Edit(prev, next).PatchBody? {
      PatchShape(prev, next);
      RoundTripExact(prev);
      assert TextDiff.RoundTrips(prev, next);
    }
  }

  /** Exact: which message is sent for an edit. One character typed at the end, or taken off there, goes
      out as such, anything else as a patch. */
  lemma EditExact(prev: Chars, next: Chars, ch: char)
    requires prev != next
    ensures Edit(prev, next) == Append(ch) <==> next == prev + [ch]
    ensures Edit(prev, next) == Backspace <==> prev != [] && next == prev[..|prev| - 1]
    ensures Edit(prev, next).Append? || Edit(prev, next).Backspace? || Edit(prev, next) == PatchBody(Make(prev, next))
  {
    assert (prev + [ch])[..|prev|] == prev && (prev + [ch])[|prev|] == ch;
    if Edit(prev, next) == Append(ch) {
      assert next == next[..|prev|] + [ch];
    }
  }

  // ----- the form -----

  /** Exact: an id for the open post makes it the form's, unless that has a post already or cannot have one.
      The text typed meanwhile goes out at once, and stays in the form. */
  lemma OpenedExact(c: Client, post: u64, onThread: bool)
    ensures var d := PostOpened(c, post, onThread);
            if c.state.Ready? || c.state.Draft? || c.state.Allocating?
            then d == Client(Allocated(post), c.body,
                             if c.body == [] then c.outgoing else c.outgoing + [Sent(Edit([], c.body), Some(c.body))])
            else d == c
  {
  }

  /** Exact: closing discards the text, unless the post is being allocated or nothing works any more; only
      of a post that is open the server is told. */
  lemma ClosedExact(c: Client)
    ensures var d := CloseForm(c);
            && (d.state.Ready? <==> !c.state.Allocating? && !c.state.CriticalError?)
            && (c.state.Ready? || !d.state.Ready? ==> d == c)
            && (!c.state.Ready? && d.state.Ready? ==> d.body == [])
            && d.outgoing == if c.state.Allocated? then c.outgoing + [Sent(ClosePost, None)] else c.outgoing
  {
  }

  // ----- what the server refuses -----

  ghost predicate ChangesNothing(p: TextPatch) {
    forall body {:trigger Spliced(p, body)} :: Spliced(p, body) == body
  }

  lemma ChangesNothingExact(p: TextPatch)
    ensures ChangesNothing(p) <==> p.insert == [] && p.remove == 0
  {
    if p.insert == [] && p.remove == 0 {
      forall body ensures Spliced(p, body) == body {
      }
    } else {
      var body := seq(p.position + if p.insert == [] then 1 else 0, _ => ' ');
      assert |Spliced(p, body)| != |body|;
    }
  }

  /** Exact: which messages are refused: those that fit no open post or the lack of one, a patch that could
      change nothing whatever the body, begins past the end, or inserts more than a body may hold, and any
      that would leave more than a body may hold. */
  lemma RefusedExact(open: Option<Chars>, m: ClientMsg)
    ensures Handle(open, m).Rejected? <==>
              match m
              case InsertPost(_) => open.Some?
              case ClosePost => open.None?
              case Append(_) => open.None? || |open.value| >= MAX_BODY
              case Backspace => open.None? || |open.value| > MAX_BODY + 1
              case PatchBody(p) =>
                || open.None? || ChangesNothing(p) || p.position > |open.value| || |p.insert| > MAX_BODY
                || p.position + |p.insert| + Left(open.value, p.position + p.remove) > MAX_BODY
  {
    if m.PatchBody? {
      ChangesNothingExact(m.patch);
    }
  }

  /** How many characters lie from a position on. */
  function Left(body: Chars, from: nat): nat {
    if from <= |body| then |body| - from else 0
  }

  // ----- the protocol -----

  /** Both ends of a live connection that delivers in order, with the messages under way. */
  datatype System = System(client: Client, server: Option<Chars>, acks: seq<u64>, rejected: bool)

  datatype Event =
    | UserOpens(thread: u64)
    | UserTypes(text: Chars, onThread: bool)
    | UserCloses
    | ServerHandles(id: u64)
    | AckArrives(onThread: bool)

  predicate Enabled(s: System, e: Event) {
    match e
    case UserTypes(text, _) => |text| <= MAX_BODY
    case ServerHandles(_) => s.client.outgoing != []
    case AckArrives(_) => s.acks != []
    case _ => true
  }

  function Next(s: System, e: Event): System
    requires Enabled(s, e)
  {
    match e
    case UserOpens(thread) => s.(client := OpenDraft(s.client, thread))
    case UserTypes(text, onThread) => s.(client := CommitText(s.client, text, onThread))
    case UserCloses => s.(client := CloseForm(s.client))
    case ServerHandles(id) =>
      var m := s.client.outgoing[0].msg;
      var s' := s.(client := s.client.(outgoing := s.client.outgoing[1..]));
      (match Handle(s.server, m)
       case Rejected => s'.(rejected := true)
       case Accepted(open) =>
         s'.(server := open, acks := if m.InsertPost? then s.acks + [id] else s.acks))
    case AckArrives(onThread) =>
      s.(client := PostOpened(s.client, s.acks[0], onThread), acks := s.acks[1..])
  }

  ghost predicate Run(states: seq<System>, events: seq<Event>) {
    && |states| == |events| + 1
    && states[0] == System(Client(Ready, [], []), None, [], false)
    && forall k | 0 <= k < |events| :: Enabled(states[k], events[k]) && states[k + 1] == Next(states[k], events[k])
  }

  /** Every message under way will be accepted and leave exactly the body the client expects. */
  ghost predicate Mirrored(server: Option<Chars>, queue: seq<Sent>)
    decreases |queue|
  {
    queue != [] ==>
      && Handle(server, queue[0].msg) == Accepted(queue[0].mirror)
      && Mirrored(queue[0].mirror, queue[1..])
  }

  /** The server's open body once everything under way has been handled. */
  function Settled(server: Option<Chars>, queue: seq<Sent>): Option<Chars> {
    if queue == [] then server else queue[|queue| - 1].mirror
  }

  function Inserts(queue: seq<Sent>): nat
    decreases |queue|
  {
    if queue == [] then 0 else (if queue[0].msg.InsertPost? then 1 else 0) + Inserts(queue[1..])
  }

  ghost predicate Inv(s: System) {
    var due := Inserts(s.client.outgoing) + |s.acks|;
    var settled := Settled(s.server, s.client.outgoing);
    && !s.rejected && |s.client.body| <= MAX_BODY
    && Mirrored(s.server, s.client.outgoing)
    && match s.client.state
       case Ready => settled == None && due == 0
       case Draft(_) => settled == None && due == 0
       case Allocating(_) => settled == Some([]) && due == 1
       case Allocated(_) => settled == Some(s.client.body) && due == 0
       case _ => false
  }

  lemma {:induction false} MirroredMore(server: Option<Chars>, queue: seq<Sent>, m: Sent)
    requires Mirrored(server, queue) && Handle(Settled(server, queue), m.msg) == Accepted(m.mirror)
    ensures Mirrored(server, queue + [m])
    ensures Inserts(queue + [m]) == Inserts(queue) + if m.msg.InsertPost? then 1 else 0
    decreases |queue|
  {
    if queue == [] {
      assert [m][1..] == [];
    } else {
      assert (queue + [m])[1..] == queue[1..] + [m];
      assert Settled(queue[0].mirror, queue[1..]) == Settled(server, queue);
      MirroredMore(queue[0].mirror, queue[1..], m);
    }
  }

  /** Committing a text keeps the ends together, whatever the state of the allocation. */
  lemma CommitKeeps(s: System, text: Chars, onThread: bool)
    requires Inv(s) && |text| <= MAX_BODY
    ensures Inv(s.(client := CommitText(s.client, text, onThread)))
  {
    var c := s.client;
    if c.state.Draft? && onThread {
      MirroredMore(s.server, c.outgoing, Sent(InsertPost(c.state.thread), Some([])));
    } else if c.state.Allocated? && text != c.body {
      EditAccepted(c.body, text);
      MirroredMore(s.server, c.outgoing, Sent(Edit(c.body, text), Some(text)));
    }
  }

  /** Text typed while the post was being allocated goes out in one edit. */
  lemma AckKeeps(s: System, onThread: bool)
    requires Inv(s) && s.acks != []
    ensures Inv(Next(s, AckArrives(onThread)))
  {
    assert s.client.state.Allocating?;
    var ready := s.(client := s.client.(state := Allocated(s.acks[0]), body := []), acks := s.acks[1..]);
    assert Inv(ready);
    CommitKeeps(ready, s.client.body, onThread);
  }

  lemma StepKeeps(s: System, e: Event)
    requires Inv(s) && Enabled(s, e)
    ensures Inv(Next(s, e))
  {
    match e
    case UserOpens(thread) =>
    case UserTypes(text, onThread) => CommitKeeps(s, text, onThread);
    case UserCloses =>
      if s.client.state.Allocated? {
        MirroredMore(s.server, s.client.outgoing, Sent(ClosePost, None));
      }
    case ServerHandles(id) =>
    case AckArrives(onThread) => AckKeeps(s, onThread);
  }

  lemma {:induction false} RunKeeps(states: seq<System>, events: seq<Event>, k: nat)
    requires Run(states, events) && k <= |events|
    ensures Inv(states[k])
  {
    if k != 0 {
      RunKeeps(states, events, k - 1);
      assert Enabled(states[k - 1], events[k - 1]) && states[k - 1 + 1] == Next(states[k - 1], events[k - 1]);
      StepKeeps(states[k - 1], events[k - 1]);
    }
  }

  /** In every run no message is ever rejected, and handling each one leaves the server's open body
      equal to what the client's was when it sent the message. */
  lemma EveryMessageAccepted(states: seq<System>, events: seq<Event>, k: nat)
    requires Run(states, events) && k < |events| && events[k].ServerHandles?
    ensures states[k].client.outgoing != []
    ensures !states[k + 1].rejected && states[k + 1].server == states[k].client.outgoing[0].mirror
  {
    RunKeeps(states, events, k);
    RunKeeps(states, events, k + 1);
    assert Enabled(states[k], events[k]) && states[k + 1] == Next(states[k], events[k]);
  }

  // ----- what the author has done -----

  /** The author's side of the history: the thread the form was opened on, if it is open, the text typed
      last since it was closed before, whether any was typed with the form open on a thread, and the id
      the server gave last. */
  datatype Form = Form(open: Option<u64>, typed: Chars, wanted: bool, id: Option<u64>)

  function FormStep(f: Form, s: System, e: Event): Form
    requires Enabled(s, e)
  {
    match e
    case UserOpens(thread) => if f.open.None? then f.(open := Some(thread)) else f
    case UserTypes(text, onThread) =>
      f.(typed := text, wanted := f.wanted || (f.open.Some? && onThread && (text != [] || f.typed != [])))
    // a post being allocated cannot be closed
    case UserCloses => if f.open.None? || s.client.state.Allocating? then f else Form(None, [], false, f.id)
    case ServerHandles(id) => if s.client.outgoing[0].msg.InsertPost? then f.(id := Some(id)) else f
    case AckArrives(_) => f
  }

  const BLANK := Form(None, [], false, None)

  ghost function FormAt(states: seq<System>, events: seq<Event>, k: nat): Form
    requires Run(states, events) && k <= |events|
  {
    if k == 0 then BLANK
    else
      assert Enabled(states[k - 1], events[k - 1]);
      FormStep(FormAt(states, events, k - 1), states[k - 1], events[k - 1])
  }

  /** The client's state and body are what the author has made them. */
  ghost predicate FormInv(s: System, f: Form) {
    && s.client.body == f.typed
    && (f.wanted ==> f.open.Some?)
    && (s.acks != [] ==> f.id == Some(s.acks[|s.acks| - 1]))
    && match s.client.state
       case Ready => f.open.None?
       case Draft(thread) => f.open == Some(thread) && !f.wanted
       case Allocating(thread) => f.open == Some(thread)
       case Allocated(post) => f.open.Some? && f.id == Some(post)
       case _ => false
  }

  lemma CommitForm(c: Client, text: Chars, onThread: bool)
    ensures var c' := CommitText(c, text, onThread);
            && c'.body == text
            && c'.state == if c.state.Draft? && onThread && (text != [] || c.body != []) then Allocating(c.state.thread) else c.state
  {
  }

  lemma StepForm(s: System, e: Event, f: Form)
    requires Inv(s) && Enabled(s, e) && FormInv(s, f)
    ensures FormInv(Next(s, e), FormStep(f, s, e))
  {
    hide Handle, Mirrored, Settled;
    match e
    case UserTypes(text, onThread) => CommitForm(s.client, text, onThread);
    case AckArrives(onThread) => CommitForm(s.client.(state := Allocated(s.acks[0]), body := []), s.client.body, onThread);
    case ServerHandles(id) => HandledForm(s, id);
    case _ =>
  }

  lemma HandledForm(s: System, id: u64)
    requires Inv(s) && Enabled(s, ServerHandles(id))
    ensures var s' := Next(s, ServerHandles(id)); var m := s.client.outgoing[0].msg;
            && s'.acks == (if m.InsertPost? then s.acks + [id] else s.acks)
            && (m.InsertPost? ==> !s.client.state.Allocated?)
  {
  }

  lemma {:induction false} RunForm(states: seq<System>, events: seq<Event>, k: nat)
    requires Run(states, events) && k <= |events|
    ensures FormInv(states[k], FormAt(states, events, k))
  {
    hide FormInv, Inv;
    if k == 0 {
      BlankForm();
    } else {
      RunForm(states, events, k - 1);
      RunKeeps(states, events, k - 1);
      assert Enabled(states[k - 1], events[k - 1]) && states[k - 1 + 1] == Next(states[k - 1], events[k - 1]);
      StepForm(states[k - 1], events[k - 1], FormAt(states, events, k - 1));
    }
  }

  lemma BlankForm()
    ensures FormInv(System(Client(Ready, [], []), None, [], false), BLANK)
  {
  }

  /** In every run the client's body is the text typed last, in whatever state its post is, and the form
      is open exactly from being opened until it is closed. */
  lemma BodyIsTyped(states: seq<System>, events: seq<Event>, k: nat)
    requires Run(states, events) && k <= |events|
    ensures var f, c := FormAt(states, events, k), states[k].client;
            && c.body == f.typed && (c.state.Ready? <==> f.open.None?)
            && (c.state.Draft? || c.state.Allocating? ==> f.open == Some(c.state.thread))
            && (c.state.Allocated? ==> f.id == Some(c.state.post))
  {
    RunForm(states, events, k);
  }

  /** In every run a post is asked for only in a form that is open, and on the thread it was opened on. */
  lemma AskedOnThread(states: seq<System>, events: seq<Event>, k: nat)
    requires Run(states, events) && k < |events| && !events[k].ServerHandles?
    ensures var before, after := states[k].client.outgoing, states[k + 1].client.outgoing;
            && |before| <= |after| && after[..|before|] == before
            && forall m | m in after[|before|..] && m.msg.InsertPost? :: FormAt(states, events, k).open == Some(m.msg.thread)
  {
    RunForm(states, events, k);
    assert Enabled(states[k], events[k]) && states[k + 1] == Next(states[k], events[k]);
    RunKeeps(states, events, k);
    if events[k].AckArrives? {
      assert states[k].client.state.Allocating?;
    }
  }

  /** Whenever nothing is under way the two ends hold the same text: the one typed last, as soon as any
      was typed with the form open on a thread; and no post is open unless that form is. */
  lemma InSyncWhenQuiet(states: seq<System>, events: seq<Event>, k: nat)
    requires Run(states, events) && k < |states|
    requires states[k].client.outgoing == [] && states[k].acks == []
    ensures states[k].server == if states[k].client.state.Allocated? then Some(states[k].client.body) else None
    ensures var f := FormAt(states, events, k);
            && (f.wanted ==> states[k].server == Some(f.typed))
            && (states[k].server.Some? ==> f.open.Some? && states[k].server == Some(f.typed))
  {
    RunKeeps(states, events, k);
    RunForm(states, events, k);
  }
}
