/** Actors on a thread pool: the scheduler, its mailbox and the batch task (`mt_context`). */
module Scheduler {

  /** Messages are told apart by a number. */
  type Msg = nat

  datatype ActorState = Started | Running | Stopping | Stopped

  /** The batch task. The actor's lock is held from the moment it is spawned until it has ended.
      `fresh'` is set while the next message may be handled without looking at the stop flags. */
  datatype Task =
    | Idle
    | Handling(rest: seq<Msg>, stoppedSelf: bool, fresh': bool)
    | Leaving

  /** `notes` counts the empty `Done` messages the scheduler has sent itself. */
  datatype Sched = Sched(
    pending: seq<Msg>, state: ActorState, stoppedSelf: bool, alive: bool, task: Task, notes: nat)

  // ----- the scheduler's own steps -----

  /** `set_stopping_state`: a higher state is never overwritten by a lower one. */
  function StopState(current: ActorState, new': ActorState): ActorState {
    if current.Running? || new'.Stopped? then new' else current
  }

  function TryRunPending(s: Sched): Sched {
    if s.pending == [] || !s.task.Idle? then s
    else s.(pending := [], task := Handling(s.pending, false, true))
  }

  function QueueMessage(s: Sched, m: Msg): Sched {
    TryRunPending(s.(pending := s.pending + [m]))
  }

  function HandleDone(s: Sched, unprocessed: seq<Msg>, stoppedSelf: bool): Sched {
    var s := s.(pending := unprocessed + s.pending);
    match s.state
    case Stopped => s.(alive := false)
    case Stopping => s.(stoppedSelf := stoppedSelf, notes := s.notes + 1)
    case Running => TryRunPending(s)
    case Started => s
  }

  /** The framework asks whether to stop; `agrees` is the actor's own answer, if it is asked. */
  function StopAsked(s: Sched, agrees: bool): Sched {
    if s.pending != [] && !s.stoppedSelf then s
    else if !s.task.Idle? then s.(state := StopState(s.state, Stopping))
    else if agrees then s.(stoppedSelf := false, state := Stopped, alive := false)
    else s.(stoppedSelf := false, state := Running)
  }

  class SchedulerActor {
    var pending: seq<Msg>
    var state: ActorState
    var stoppedSelf: bool
    var alive: bool
    var task: Task
    var notes: nat

    ghost function View(): Sched
      reads this
    {
      Sched(pending, state, stoppedSelf, alive, task, notes)
    }

    /** Started: the actor runs and nothing is queued. */
    constructor ()
      ensures View() == INITIAL
    {
      pending, state, stoppedSelf, alive, task, notes := [], Running, false, true, Idle, 0;
    }

    method TryRun()
      modifies this
      ensures View() == TryRunPending(old(View()))
    {
      if pending == [] {
        return;
      }
      if task.Idle? {
        var batch := pending;
        pending := [];
        task := Handling(batch, false, true);
      }
    }

    method Queue(m: Msg)
      modifies this
      ensures View() == QueueMessage(old(View()), m)
    {
      pending := pending + [m];
      TryRun();
    }

    /** Unprocessed messages are pushed back one by one, last first, and so keep their order. */
    method PushBack(unprocessed: seq<Msg>)
      modifies this`pending
      ensures pending == unprocessed + old(pending)
    {
      for k := |unprocessed| downto 0
        invariant pending == unprocessed[k..] + old(pending)
      {
        pending := [unprocessed[k]] + pending;
      }
    }

    method Done(unprocessed: seq<Msg>, bySelf: bool)
      modifies this
      ensures View() == HandleDone(old(View()), unprocessed, bySelf)
    {
      PushBack(unprocessed);
      match state
      case Stopped => alive := false;
      case Stopping =>
        stoppedSelf := bySelf;
        notes := notes + 1;
      case Running => TryRun();
      case Started =>
    }

    method Stop(agrees: bool)
      modifies this
      ensures View() == StopAsked(old(View()), agrees)
    {
      if pending != [] && !stoppedSelf {
        return;
      }
      if task.Idle? {
        stoppedSelf := false;
        if agrees {
          state, alive := Stopped, false;
        } else {
          state := Running;
        }
      } else {
        state := StopState(state, Stopping);
      }
    }
  }

  const INITIAL := Sched([], Running, false, true, Idle, 0)

  // ----- senders, scheduler and batch task, interleaved -----

  datatype Mail = Queued(msg: Msg) | Done(unprocessed: seq<Msg>, stoppedSelf: bool)

  datatype System = System(sched: Sched, mailbox: seq<Mail>, sent: seq<Msg>, handled: seq<Msg>)

  /** What handling a message does to the actor's own life. */
  datatype Effect = Nothing | StopSelf | TerminateSelf

  datatype Event =
    | Send(msg: Msg)
    | Receive
    | ReceiveNote
    | AskStop(agrees: bool)
    | HandleOne(effect: Effect)
    | Check
    | Release

  /** The batch loop stops after a message that was the last, or that stopped the actor. */
  predicate BatchEnds(c: Sched)
    requires c.task.Handling?
  {
    c.task.rest == [] || c.task.stoppedSelf || c.state.Stopped? || c.state.Stopping?
  }

  predicate Enabled(s: System, e: Event) {
    match e
    case Send(_) => s.sched.alive
    case Receive => s.sched.alive && s.mailbox != []
    case ReceiveNote => s.sched.alive && s.sched.notes > 0
    case AskStop(_) => s.sched.alive
    case HandleOne(_) => s.sched.task.Handling? && s.sched.task.fresh' && s.sched.task.rest != []
    case Check => s.sched.task.Handling? && !s.sched.task.fresh'
    case Release => s.sched.task.Leaving?
  }

  function Next(s: System, e: Event): System
    requires Enabled(s, e)
  {
    var c := s.sched;
    match e
    case Send(m) => s.(mailbox := s.mailbox + [Queued(m)], sent := s.sent + [m])
    case Receive =>
      var rest := s.(mailbox := s.mailbox[1..]);
      (match s.mailbox[0]
       case Queued(m) => rest.(sched := QueueMessage(c, m))
       case Done(u, bySelf) => rest.(sched := HandleDone(c, u, bySelf)))
    case ReceiveNote => s.(sched := HandleDone(c.(notes := c.notes - 1), [], false))
    case AskStop(agrees) => s.(sched := StopAsked(c, agrees))
    case HandleOne(effect) =>
      s.(handled := s.handled + [c.task.rest[0]],
         sched := c.(state := (match effect
                               case Nothing => c.state
                               case StopSelf => StopState(c.state, Stopping)
                               case TerminateSelf => StopState(c.state, Stopped)),
                     task := Handling(c.task.rest[1..], c.task.stoppedSelf || effect != Nothing, false)))
    case Check =>
      if BatchEnds(c)
      // `Done` goes out while the lock is still held
      then s.(mailbox := s.mailbox + [Done(c.task.rest, c.task.stoppedSelf)], sched := c.(task := Leaving))
      else s.(sched := c.(task := c.task.(fresh' := true)))
    case Release => s.(sched := c.(task := Idle))
  }

  ghost predicate Run(states: seq<System>, events: seq<Event>) {
    && |states| == |events| + 1
    && states[0] == System(INITIAL, [], [], [])
    && forall k | 0 <= k < |events| :: Enabled(states[k], events[k]) && states[k + 1] == Next(states[k], events[k])
  }

  // ----- where a message can be -----

  function InBatch(t: Task): seq<Msg> {
    if t.Handling? then t.rest else []
  }

  /** Messages on their way back in `Done` messages not yet received. */
  function Returning(mailbox: seq<Mail>): seq<Msg> {
    if mailbox == [] then []
    else Back(mailbox[0]) + Returning(mailbox[1..])
  }

  function Arriving(mailbox: seq<Mail>): seq<Msg> {
    if mailbox == [] then []
    else New(mailbox[0]) + Arriving(mailbox[1..])
  }

  /** What the scheduler has taken in, in the order in which a fair one would get to it. */
  function Waiting(c: Sched, returning: seq<Msg>): seq<Msg> {
    InBatch(c.task) + returning + c.pending
  }

  /** All places in order: handled, running batch, on the way back, queue, mailbox. */
  function InOrder(s: System): seq<Msg> {
    s.handled + Waiting(s.sched, Returning(s.mailbox)) + Arriving(s.mailbox)
  }

  function Back(m: Mail): seq<Msg> {
    if m.Done? then m.unprocessed else []
  }

  function New(m: Mail): seq<Msg> {
    if m.Queued? then [m.msg] else []
  }

  lemma {:induction false} MailMore(mailbox: seq<Mail>, m: Mail)
    ensures Returning(mailbox + [m]) == Returning(mailbox) + Back(m)
    ensures Arriving(mailbox + [m]) == Arriving(mailbox) + New(m)
  {
    hide Back, New;
    if mailbox == [] {
      assert mailbox + [m] == [m] && [m][1..] == [];
    } else {
      var x, rest := mailbox[0], mailbox[1..];
      assert (mailbox + [m])[0] == x && (mailbox + [m])[1..] == rest + [m];
      MailMore(rest, m);
      assert Back(x) + (Returning(rest) + Back(m)) == Back(x) + Returning(rest) + Back(m);
      assert New(x) + (Arriving(rest) + New(m)) == New(x) + Arriving(rest) + New(m);
    }
  }

  // ----- conservation -----

  function Places(s: System): multiset<Msg> {
    multiset(s.handled) + InScheduler(s.sched) + multiset(Returning(s.mailbox)) + multiset(Arriving(s.mailbox))
  }

  function InScheduler(c: Sched): multiset<Msg> {
    multiset(InBatch(c.task)) + multiset(c.pending)
  }

  /** As long as the scheduler lives, each message sent is in exactly one place. */
  ghost predicate Conserved(s: System) {
    s.sched.alive ==> Places(s) == multiset(s.sent)
  }

  lemma TryRunConserves(c: Sched)
    ensures InScheduler(TryRunPending(c)) == InScheduler(c)
  {
  }

  lemma DoneConserves(c: Sched, u: seq<Msg>, bySelf: bool)
    ensures InScheduler(HandleDone(c, u, bySelf)) == multiset(u) + InScheduler(c)
  {
    hide TryRunPending;
    var back := c.(pending := u + c.pending);
    assert InScheduler(back) == multiset(u) + InScheduler(c);
    TryRunConserves(back);
  }

  lemma QueueConserves(c: Sched, m: Msg)
    ensures InScheduler(QueueMessage(c, m)) == multiset{m} + InScheduler(c)
    ensures QueueMessage(c, m).alive == c.alive
  {
    TryRunConserves(c.(pending := c.pending + [m]));
  }

  /** What is read off the first mail. */
  lemma FirstMail(mailbox: seq<Mail>)
    requires mailbox != []
    ensures Returning(mailbox) == Back(mailbox[0]) + Returning(mailbox[1..])
    ensures Arriving(mailbox) == New(mailbox[0]) + Arriving(mailbox[1..])
  {
  }

  lemma ReceiveConserves(s: System)
    requires Enabled(s, Receive) && Conserved(s)
    ensures Conserved(Next(s, Receive))
  {
    hide TryRunPending, HandleDone, QueueMessage, InScheduler, Returning, Arriving;
    FirstMail(s.mailbox);
    match s.mailbox[0]
    case Queued(m) => QueueConserves(s.sched, m);
    case Done(u, bySelf) => DoneConserves(s.sched, u, bySelf);
  }

  lemma HandleConserves(s: System, effect: Effect)
    requires Enabled(s, HandleOne(effect)) && Conserved(s)
    ensures Conserved(Next(s, HandleOne(effect)))
  {
    var rest := s.sched.task.rest;
    assert rest == [rest[0]] + rest[1..];
  }

  lemma NoteConserves(s: System)
    requires Enabled(s, ReceiveNote) && Conserved(s)
    ensures Conserved(Next(s, ReceiveNote))
  {
    hide TryRunPending, HandleDone;
    DoneConserves(s.sched.(notes := s.sched.notes - 1), [], false);
  }

  lemma CheckConserves(s: System)
    requires Enabled(s, Check) && Conserved(s)
    ensures Conserved(Next(s, Check))
  {
    var rest := s.sched.task.rest;
    var s' := Next(s, Check);
    if BatchEnds(s.sched) {
      MailMore(s.mailbox, Done(rest, s.sched.task.stoppedSelf));
      assert multiset(Returning(s'.mailbox)) == multiset(Returning(s.mailbox)) + multiset(rest);
      assert Arriving(s'.mailbox) == Arriving(s.mailbox);
    }
  }

  lemma SendConserves(s: System, m: Msg)
    requires Enabled(s, Send(m)) && Conserved(s)
    ensures Conserved(Next(s, Send(m)))
  {
    var s' := Next(s, Send(m));
    MailMore(s.mailbox, Queued(m));
    assert Returning(s'.mailbox) == Returning(s.mailbox);
    assert multiset(Arriving(s'.mailbox)) == multiset(Arriving(s.mailbox)) + multiset{m};
  }

  lemma StepConserves(s: System, e: Event)
    requires Enabled(s, e) && Conserved(s)
    ensures Conserved(Next(s, e))
  {
    hide Next, Conserved;
    match e
    case Send(m) => SendConserves(s, m);
    case Receive => ReceiveConserves(s);
    case ReceiveNote => NoteConserves(s);
    case AskStop(_) => OthersConserve(s, e);
    case HandleOne(effect) => HandleConserves(s, effect);
    case Check => CheckConserves(s);
    case Release => OthersConserve(s, e);
  }

  lemma OthersConserve(s: System, e: Event)
    requires Enabled(s, e) && Conserved(s) && (e.AskStop? || e.Release?)
    ensures Conserved(Next(s, e))
  {
    hide Returning, Arriving;
  }

  /** Over every run, stops included: until the scheduler terminates, a message sent has been handled
      once, or waits once in the batch, in an undelivered `Done`, in the queue or in the mailbox. */
  lemma {:induction false} Conservation(states: seq<System>, events: seq<Event>, k: nat)
    requires Run(states, events) && k <= |events|
    ensures Conserved(states[k])
  {
    if k != 0 {
      Conservation(states, events, k - 1);
      assert Enabled(states[k - 1], events[k - 1]) && states[k - 1 + 1] == Next(states[k - 1], events[k - 1]);
      StepConserves(states[k - 1], events[k - 1]);
    }
  }

  // ----- order -----

  /** Only one `Done` brings messages back at a time. */
  ghost predicate SingleReturn(mailbox: seq<Mail>) {
    mailbox != [] ==>
      && SingleReturn(mailbox[1..])
      && (mailbox[0].Done? && mailbox[0].unprocessed != [] ==> Returning(mailbox[1..]) == [])
  }

  lemma {:induction false} SingleReturnMore(mailbox: seq<Mail>, m: Mail)
    requires SingleReturn(mailbox) && (m.Done? ==> m.unprocessed == [] || Returning(mailbox) == [])
    ensures SingleReturn(mailbox + [m])
  {
    if mailbox == [] {
      assert mailbox + [m] == [m] && [m][1..] == [];
    } else {
      assert (mailbox + [m])[0] == mailbox[0] && (mailbox + [m])[1..] == mailbox[1..] + [m];
      SingleReturnMore(mailbox[1..], m);
      MailMore(mailbox[1..], m);
    }
  }

  /** First in, first out, and still so once everything in flight has come back. */
  ghost predicate Fifo(s: System) {
    && InOrder(s) == s.sent
    && SingleReturn(s.mailbox)
    && (s.sched.task.Handling? ==> Returning(s.mailbox) == [])
  }

  /** A batch is started while messages of an earlier one are still on their way back. */
  predicate Overtakes(s: System, e: Event)
    requires Enabled(s, e)
  {
    s.sched.task.Idle? && Next(s, e).sched.task.Handling? && Returning(Next(s, e).mailbox) != []
  }

  lemma TryRunKeepsOrder(c: Sched, returning: seq<Msg>)
    requires c.task.Idle? && TryRunPending(c).task.Handling? ==> returning == []
    ensures Waiting(TryRunPending(c), returning) == Waiting(c, returning)
  {
  }

  lemma QueueKeepsOrder(c: Sched, m: Msg, returning: seq<Msg>)
    requires c.task.Idle? && QueueMessage(c, m).task.Handling? ==> returning == []
    ensures Waiting(QueueMessage(c, m), returning) == Waiting(c, returning) + [m]
    ensures QueueMessage(c, m).task.Handling? ==> c.task.Handling? || c.task.Idle?
  {
    TryRunKeepsOrder(c.(pending := c.pending + [m]), returning);
  }

  lemma DoneKeepsOrder(c: Sched, u: seq<Msg>, bySelf: bool, returning: seq<Msg>)
    requires u == [] || returning == []
    requires c.task.Idle? && HandleDone(c, u, bySelf).task.Handling? ==> returning == []
    ensures Waiting(HandleDone(c, u, bySelf), returning) == Waiting(c, u + returning)
    ensures HandleDone(c, u, bySelf).task.Handling? ==> c.task.Handling? || c.task.Idle?
  {
    var back := c.(pending := u + c.pending);
    assert Waiting(back, returning) == Waiting(c, u + returning) by {
      assert returning + (u + c.pending) == u + returning + c.pending;
    }
    if c.state.Running? {
      TryRunKeepsOrder(back, returning);
    }
  }

  lemma FirstReturn(mailbox: seq<Mail>)
    requires mailbox != [] && SingleReturn(mailbox)
    ensures SingleReturn(mailbox[1..]) && (Back(mailbox[0]) == [] || Returning(mailbox[1..]) == [])
  {
  }

  lemma QueuedKeepsOrder(s: System, m: Msg)
    requires Enabled(s, Receive) && Fifo(s) && !Overtakes(s, Receive) && s.mailbox[0] == Queued(m)
    ensures Fifo(Next(s, Receive))
  {
    hide TryRunPending, HandleDone, QueueMessage, Waiting, Returning, Arriving, SingleReturn;
    FirstMail(s.mailbox);
    FirstReturn(s.mailbox);
    var rest := s.mailbox[1..];
    assert [] + Returning(rest) == Returning(rest);
    QueueKeepsOrder(s.sched, m, Returning(rest));
    Shift(s.handled, Waiting(s.sched, Returning(rest)), m, Arriving(rest));
  }

  lemma ReturnKeepsOrder(s: System, u: seq<Msg>, bySelf: bool)
    requires Enabled(s, Receive) && Fifo(s) && !Overtakes(s, Receive) && s.mailbox[0] == Done(u, bySelf)
    ensures Fifo(Next(s, Receive))
  {
    hide TryRunPending, HandleDone, QueueMessage, Waiting, Returning, Arriving, SingleReturn;
    FirstMail(s.mailbox);
    FirstReturn(s.mailbox);
    var rest := s.mailbox[1..];
    assert [] + Arriving(rest) == Arriving(rest);
    DoneKeepsOrder(s.sched, u, bySelf, Returning(rest));
  }

  lemma ReceiveKeepsOrder(s: System)
    requires Enabled(s, Receive) && Fifo(s) && !Overtakes(s, Receive)
    ensures Fifo(Next(s, Receive))
  {
    hide Next, Fifo, Overtakes;
    match s.mailbox[0]
    case Queued(m) => QueuedKeepsOrder(s, m);
    case Done(u, bySelf) => ReturnKeepsOrder(s, u, bySelf);
  }

  lemma Shift(a: seq<Msg>, b: seq<Msg>, m: Msg, c: seq<Msg>)
    ensures a + (b + [m]) + c == a + b + ([m] + c)
  {
  }

  lemma HandleKeepsOrder(s: System, effect: Effect)
    requires Enabled(s, HandleOne(effect)) && Fifo(s)
    ensures Fifo(Next(s, HandleOne(effect)))
  {
    hide Returning, Arriving, SingleReturn;
    var rest := s.sched.task.rest;
    assert s.handled + Waiting(s.sched, []) == s.handled + [rest[0]] + Waiting(Next(s, HandleOne(effect)).sched, []);
  }

  lemma CheckKeepsOrder(s: System)
    requires Enabled(s, Check) && Fifo(s)
    ensures Fifo(Next(s, Check))
  {
    if BatchEnds(s.sched) {
      var rest := s.sched.task.rest;
      var m := Done(rest, s.sched.task.stoppedSelf);
      MailMore(s.mailbox, m);
      SingleReturnMore(s.mailbox, m);
      assert [] + rest == rest;
      LeavingWaits(s.sched, rest);
    }
  }

  /** The batch's remains move from the task into its `Done` message. */
  lemma LeavingWaits(c: Sched, rest: seq<Msg>)
    requires c.task.Handling? && c.task.rest == rest
    ensures Waiting(c.(task := Leaving), rest) == Waiting(c, [])
  {
  }

  lemma NoteKeepsOrder(s: System)
    requires Enabled(s, ReceiveNote) && Fifo(s) && !Overtakes(s, ReceiveNote)
    ensures Fifo(Next(s, ReceiveNote))
  {
    hide TryRunPending, HandleDone;
    var r := Returning(s.mailbox);
    assert [] + r == r;
    DoneKeepsOrder(s.sched.(notes := s.sched.notes - 1), [], false, r);
  }

  /** A step that starts no such batch keeps the order. */
  lemma StepKeepsOrder(s: System, e: Event)
    requires Enabled(s, e) && Fifo(s) && !Overtakes(s, e)
    ensures Fifo(Next(s, e))
  {
    hide Next, Fifo, Overtakes;
    match e
    case Send(m) => SendKeepsOrder(s, m);
    case Receive => ReceiveKeepsOrder(s);
    case ReceiveNote => NoteKeepsOrder(s);
    case AskStop(_) => OthersKeepOrder(s, e);
    case HandleOne(effect) => HandleKeepsOrder(s, effect);
    case Check => CheckKeepsOrder(s);
    case Release => OthersKeepOrder(s, e);
  }

  lemma SendKeepsOrder(s: System, m: Msg)
    requires Enabled(s, Send(m)) && Fifo(s)
    ensures Fifo(Next(s, Send(m)))
  {
    hide Returning, Arriving, SingleReturn, Waiting;
    MailMore(s.mailbox, Queued(m));
    SingleReturnMore(s.mailbox, Queued(m));
    var r := Returning(s.mailbox);
    assert r + [] == r;
  }

  lemma OthersKeepOrder(s: System, e: Event)
    requires Enabled(s, e) && Fifo(s) && (e.AskStop? || e.Release?)
    ensures Fifo(Next(s, e))
  {
    hide Returning, Arriving, SingleReturn;
  }

  /** Exact: with all messages different, it is such a start and nothing else that breaks the order. */
  lemma OrderExact(s: System, e: Event)
    requires Enabled(s, e) && Fifo(s)
    requires forall i, j | 0 <= i < j < |Next(s, e).sent| :: Next(s, e).sent[i] != Next(s, e).sent[j]
    ensures InOrder(Next(s, e)) == Next(s, e).sent <==> !Overtakes(s, e)
  {
    if !Overtakes(s, e) {
      StepKeepsOrder(s, e);
    } else {
      // the first message of the new batch stands where the first one returning should
      var s' := Next(s, e);
      var at := |s.handled|;
      var returning := Returning(s'.mailbox);
      var batch := s'.sched.task.rest;
      if e.Receive? && s.mailbox[0].Done? {
        assert s.mailbox[0].unprocessed == [];
        assert batch == s.sched.pending;
      }
      assert InOrder(s')[at] == batch[0];
      assert InOrder(s)[at] == returning[0];
      assert InOrder(s)[at + |returning|] == batch[0];
      assert s'.sent == s.sent;
    }
  }

  lemma {:induction false} RunKeepsOrder(states: seq<System>, events: seq<Event>, k: nat)
    requires Run(states, events) && k <= |events|
    requires forall i | 0 <= i < k :: Enabled(states[i], events[i]) && !Overtakes(states[i], events[i])
    ensures Fifo(states[k])
  {
    if k != 0 {
      RunKeepsOrder(states, events, k - 1);
      assert Enabled(states[k - 1], events[k - 1]) && states[k - 1 + 1] == Next(states[k - 1], events[k - 1]);
      StepKeepsOrder(states[k - 1], events[k - 1]);
    }
  }

  // ----- runs in which the actor does not stop -----

  predicate NoStop(e: Event) {
    !e.AskStop? && (e.HandleOne? ==> e.effect.Nothing?)
  }

  /** Nobody has asked the actor to stop, so batches run to their end. */
  ghost predicate Lively(s: System) {
    && s.sched.state.Running? && s.sched.alive && s.sched.notes == 0
    && (s.sched.task.Handling? ==> !s.sched.task.stoppedSelf)
    && forall m | m in s.mailbox :: m.Done? ==> m.unprocessed == []
  }

  lemma {:induction false} NothingReturns(mailbox: seq<Mail>)
    requires forall m | m in mailbox :: m.Done? ==> m.unprocessed == []
    ensures Returning(mailbox) == []
  {
    if mailbox != [] {
      assert mailbox[0] in mailbox;
      NothingReturns(mailbox[1..]);
    }
  }

  lemma StepKeepsLively(s: System, e: Event)
    requires Enabled(s, e) && NoStop(e) && Lively(s)
    ensures Lively(Next(s, e)) && !Overtakes(s, e)
  {
    if e.Receive? {
      assert s.mailbox[0] in s.mailbox;
    }
    NothingReturns(Next(s, e).mailbox);
  }

  lemma {:induction false} RunKeepsLively(states: seq<System>, events: seq<Event>, k: nat)
    requires Run(states, events) && k <= |events| && forall i | 0 <= i < k :: NoStop(events[i])
    ensures Lively(states[k])
  {
    if k != 0 {
      RunKeepsLively(states, events, k - 1);
      assert Enabled(states[k - 1], events[k - 1]) && states[k - 1 + 1] == Next(states[k - 1], events[k - 1]);
      StepKeepsLively(states[k - 1], events[k - 1]);
    }
  }

  /** While the actor does not stop: handled, then the batch, then the queue, then the mailbox, are
      together exactly what was sent, in order. So handling is sequential, first in first out, and
      exactly once. */
  lemma OrderWithoutStops(states: seq<System>, events: seq<Event>, k: nat)
    requires Run(states, events) && k <= |events| && forall i | 0 <= i < k :: NoStop(events[i])
    ensures var s := states[k];
            s.handled + InBatch(s.sched.task) + s.sched.pending + Arriving(s.mailbox) == s.sent
  {
    hide Enabled, Next, Overtakes, NoStop, SingleReturn, Arriving;
    forall i | 0 <= i < k ensures Enabled(states[i], events[i]) && !Overtakes(states[i], events[i]) {
      RunKeepsLively(states, events, i);
      assert states[i + 1] == Next(states[i], events[i]);
      StepKeepsLively(states[i], events[i]);
    }
    RunKeepsOrder(states, events, k);
    RunKeepsLively(states, events, k);
    var s := states[k];
    NothingReturns(s.mailbox);
    assert InOrder(s) == s.handled + InBatch(s.sched.task) + s.sched.pending + Arriving(s.mailbox);
  }

  // ----- progress -----

  predicate DoneUnderway(mailbox: seq<Mail>) {
    exists m | m in mailbox :: m.Done?
  }

  /** `Done` is handled only after its task has let go of the lock. */
  predicate Ordered(s: System, e: Event) {
    e.Receive? && s.mailbox != [] && s.mailbox[0].Done? ==> s.sched.task.Idle?
  }

  /** Somebody is going to look at the queue again. */
  ghost predicate Awake(s: System) {
    && (s.sched.task.Leaving? ==> DoneUnderway(s.mailbox))
    && (s.sched.pending != [] ==> s.sched.task.Handling? || DoneUnderway(s.mailbox))
  }

  lemma StepKeepsAwake(s: System, e: Event)
    requires Enabled(s, e) && NoStop(e) && Lively(s) && Awake(s) && Ordered(s, e)
    ensures Awake(Next(s, e))
  {
    var s' := Next(s, e);
    match e
    case Send(m) =>
      if DoneUnderway(s.mailbox) {
        var d :| d in s.mailbox && d.Done?;
        assert d in s'.mailbox;
      }
    case Receive =>
      if s.mailbox[0].Queued? && DoneUnderway(s.mailbox) {
        var d :| d in s.mailbox && d.Done?;
        assert d in s'.mailbox;
      }
    case Check =>
      if s.sched.task.rest == [] {
        assert Done(s.sched.task.rest, s.sched.task.stoppedSelf) in s'.mailbox;
      }
    case _ =>
  }

  lemma {:induction false} RunKeepsAwake(states: seq<System>, events: seq<Event>, k: nat)
    requires Run(states, events) && k <= |events|
    requires forall i | 0 <= i < k :: NoStop(events[i]) && Ordered(states[i], events[i])
    ensures Awake(states[k])
  {
    if k != 0 {
      RunKeepsAwake(states, events, k - 1);
      RunKeepsLively(states, events, k - 1);
      assert Enabled(states[k - 1], events[k - 1]) && states[k - 1 + 1] == Next(states[k - 1], events[k - 1]);
      StepKeepsAwake(states[k - 1], events[k - 1]);
    }
  }

  /** No batch, no mail: nothing will happen unless somebody sends. */
  predicate Quiescent(s: System) {
    s.sched.task.Idle? && s.mailbox == []
  }

  /** No lost wake-up: if `Done` always finds the lock free, a quiescent system has handled all. */
  lemma AllHandledWhenQuiescent(states: seq<System>, events: seq<Event>, k: nat)
    requires Run(states, events) && k <= |events| && Quiescent(states[k])
    requires forall i | 0 <= i < k :: NoStop(events[i]) && Ordered(states[i], events[i])
    ensures states[k].handled == states[k].sent
  {
    RunKeepsAwake(states, events, k);
    OrderWithoutStops(states, events, k);
    assert states[k].handled + [] + [] + [] == states[k].handled;
  }

  // ----- lost wake-ups -----

  /** Messages are queued, and nothing under way will make the scheduler look at them again. */
  predicate Stuck(s: System) {
    s.sched.pending != [] && !s.sched.task.Handling? && !DoneUnderway(s.mailbox)
  }

  lemma DoneMore(mailbox: seq<Mail>, m: Mail)
    ensures DoneUnderway(mailbox + [m]) <==> DoneUnderway(mailbox) || m.Done?
  {
    if DoneUnderway(mailbox) {
      var d :| d in mailbox && d.Done?;
      assert d in mailbox + [m];
    }
    if m.Done? {
      assert m in mailbox + [m];
    }
  }

  /** Exact: after a mail the scheduler is stuck iff the batch that has ended still held the lock, no
      other `Done` is to come, and the queue is not empty. No other step changes whether it is. */
  lemma StuckExact(s: System, e: Event)
    requires Enabled(s, e) && NoStop(e) && Lively(s)
    ensures Stuck(Next(s, e)) <==>
              if e.Receive?
              then s.sched.task.Leaving? && !DoneUnderway(s.mailbox[1..]) && Next(s, e).sched.pending != []
              else Stuck(s)
  {
    hide DoneUnderway;
    match e
    case Send(m) => DoneMore(s.mailbox, Queued(m));
    case Check => DoneMore(s.mailbox, Done(s.sched.task.rest, s.sched.task.stoppedSelf));
    case _ =>
  }

  /** From the last mail on the queue has stayed as it was, if in the end nothing is in motion. */
  lemma {:induction false} SinceLastMail(states: seq<System>, events: seq<Event>, j: nat, k: nat)
    requires Run(states, events) && j <= k <= |events| && Quiescent(states[k])
    requires forall i | 0 <= i < k :: NoStop(events[i])
    requires forall i | j <= i < k :: !events[i].Receive?
    ensures states[j].mailbox == [] && !states[j].sched.task.Handling?
    ensures states[j].sched.pending == states[k].sched.pending && states[j].sent == states[k].sent
    decreases k - j
  {
    if j < k {
      SinceLastMail(states, events, j + 1, k);
      RunKeepsLively(states, events, j);
      assert Enabled(states[j], events[j]) && states[j + 1] == Next(states[j], events[j]);
      assert events[j].Release?;
    }
  }

  /** Exact, for runs in which the actor does not stop: a quiescent system has handled every message iff
      the last mail found the lock free or left nothing in the queue. */
  lemma AllHandledExact(states: seq<System>, events: seq<Event>, last: nat, k: nat)
    requires Run(states, events) && last < k <= |events| && Quiescent(states[k])
    requires forall i | 0 <= i < k :: NoStop(events[i])
    requires events[last].Receive? && forall i | last < i < k :: !events[i].Receive?
    ensures states[k].handled == states[k].sent <==>
              states[last].sched.task.Idle? || states[last + 1].sched.pending == []
    ensures states[k].handled != states[k].sent <==> Stuck(states[last + 1])
  {
    SinceLastMail(states, events, last + 1, k);
    OrderWithoutStops(states, events, k);
    var s := states[k];
    assert s.handled + s.sched.pending == s.sent;
    assert s.handled == s.sent <==> s.sched.pending == [];
    RunKeepsLively(states, events, last);
    assert Enabled(states[last], events[last]) && states[last + 1] == Next(states[last], events[last]);
  }

  /** Without any mail received there was nothing to handle. */
  lemma NoMailNothingSent(states: seq<System>, events: seq<Event>, k: nat)
    requires Run(states, events) && k <= |events| && Quiescent(states[k])
    requires forall i | 0 <= i < k :: NoStop(events[i]) && !events[i].Receive?
    ensures states[k].sent == []
  {
    SinceLastMail(states, events, 0, k);
  }

  // ----- batches and the end -----

  /** A batch is only begun while the lock is free, takes everything that waits, in order, and leaves the
      queue empty; and with the lock free every mail while running begins one, if anything waits. */
  lemma BatchExact(s: System, e: Event)
    requires Enabled(s, e)
    ensures var c, c' := s.sched, Next(s, e).sched;
            var waiting := if e.Receive? then Back(s.mailbox[0]) + c.pending + New(s.mailbox[0]) else c.pending;
            && (c'.task.Handling? && !c.task.Handling? ==>
                  c.task.Idle? && c'.pending == [] && c'.task == Handling(waiting, false, true) && waiting != []
                  && (e.Receive? || e.ReceiveNote?))
            && (c.task.Idle? && c.state.Running? && waiting != [] && (e.Receive? || e.ReceiveNote?) ==> c'.task.Handling?)
            && (c.task.Idle? && e.Receive? && s.mailbox[0].Queued? ==> c'.task.Handling?)
  {
    if e.Receive? {
      assert [] + s.sched.pending == s.sched.pending;
      match s.mailbox[0]
      case Queued(m) => assert [] + s.sched.pending + [m] == s.sched.pending + [m];
      case Done(u, _) => assert u + s.sched.pending + [] == u + s.sched.pending;
    }
  }

  /** Exact: the scheduler ends when it is asked with the lock free, nothing queued unless a message has
      stopped the actor, and the actor agrees; or at the end of a batch once the actor has been ended. */
  lemma EndsExact(s: System, e: Event)
    requires Enabled(s, e) && s.sched.alive
    ensures !Next(s, e).sched.alive <==>
              || (&& e.AskStop? && e.agrees && s.sched.task.Idle?
                  && (s.sched.pending == [] || s.sched.stoppedSelf))
              || (s.sched.state.Stopped? && (e.ReceiveNote? || (e.Receive? && s.mailbox[0].Done?)))
  {
  }

  /** A message that stops the actor is the last of its batch, and one that ends it cannot be undone by the
      end of the batch or by later messages. */
  lemma StopEndsBatch(s: System, effect: Effect)
    requires Enabled(s, HandleOne(effect)) && effect != Nothing
    ensures var s' := Next(s, HandleOne(effect));
            && Enabled(s', Check) && BatchEnds(s'.sched) && s'.sched.task.stoppedSelf
            && Next(s', Check).mailbox == s'.mailbox + [Done(s.sched.task.rest[1..], true)]
            && (effect.TerminateSelf? ==> s'.sched.state.Stopped?)
            && (effect.StopSelf? ==> s'.sched.state == if s.sched.state.Running? then Stopping else s.sched.state)
  {
  }

  lemma EndedStays(s: System, e: Event)
    requires Enabled(s, e) && s.sched.state.Stopped? && !e.AskStop?
    ensures Next(s, e).sched.state.Stopped?
  {
  }

  /** No message has stopped the actor. */
  ghost predicate Unstopped(s: System) {
    && !s.sched.stoppedSelf && (s.sched.task.Handling? ==> !s.sched.task.stoppedSelf)
    && (forall m | m in s.mailbox && m.Done? :: !m.stoppedSelf)
    && (s.sched.alive ==> !s.sched.state.Stopped?)
  }

  lemma StepUnstopped(s: System, e: Event)
    requires Enabled(s, e) && Unstopped(s) && (e.HandleOne? ==> e.effect.Nothing?)
    ensures Unstopped(Next(s, e))
  {
    if e.Receive? {
      assert s.mailbox[0] in s.mailbox;
    }
  }

  lemma {:induction false} RunUnstopped(states: seq<System>, events: seq<Event>, k: nat)
    requires Run(states, events) && k <= |events|
    requires forall i | 0 <= i < k && events[i].HandleOne? :: events[i].effect.Nothing?
    ensures Unstopped(states[k])
  {
    hide Unstopped;
    if k == 0 {
      FreshUnstopped();
    } else {
      RunUnstopped(states, events, k - 1);
      assert Enabled(states[k - 1], events[k - 1]) && states[k - 1 + 1] == Next(states[k - 1], events[k - 1]);
      StepUnstopped(states[k - 1], events[k - 1]);
    }
  }

  lemma FreshUnstopped()
    ensures Unstopped(System(INITIAL, [], [], []))
  {
  }

  /** In every run in which no message stops the actor, all that has not been handled when the scheduler
      ends is what its mailbox still holds. */
  lemma EndsWithMailboxOnly(states: seq<System>, events: seq<Event>, k: nat)
    requires Run(states, events) && k < |events| && states[k].sched.alive && !states[k + 1].sched.alive
    requires forall i | 0 <= i < k && events[i].HandleOne? :: events[i].effect.Nothing?
    ensures var s := states[k + 1];
            && s.sched.pending == [] && s.sched.task.Idle?
            && multiset(s.sent) == multiset(s.handled) + multiset(Returning(s.mailbox)) + multiset(Arriving(s.mailbox))
  {
    hide Returning, Arriving, InScheduler;
    RunUnstopped(states, events, k);
    Conservation(states, events, k);
    assert Enabled(states[k], events[k]) && states[k + 1] == Next(states[k], events[k]);
    EndsExact(states[k], events[k]);
    NothingInside(states[k].sched);
  }

  lemma NothingInside(c: Sched)
    requires c.pending == [] && c.task.Idle?
    ensures InScheduler(c) == multiset{}
  {
  }

  // ----- short runs in which a message is stranded, or overtaken -----

  /** State reached by a list of events. */
  ghost predicate Leads(s: System, events: seq<Event>, t: System)
    decreases |events|
  {
    if events == [] then t == s
    else Enabled(s, events[0]) && Leads(Next(s, events[0]), events[1..], t)
  }

  /** The second message arrives while the first is handled; `Done` is received before the task has
      let go of the lock. */
  const STRANDED_EVENTS: seq<Event> :=
    [Send(1), Receive, Send(2), Receive, HandleOne(Nothing), Check, Receive, Release]

  function StrandedAt(k: nat): System {
    var busy := INITIAL.(task := Handling([1], false, true));
    match k
    case 0 => System(INITIAL, [], [], [])
    case 1 => System(INITIAL, [Queued(1)], [1], [])
    case 2 => System(busy, [], [1], [])
    case 3 => System(busy, [Queued(2)], [1, 2], [])
    case 4 => System(busy.(pending := [2]), [], [1, 2], [])
    case 5 => System(INITIAL.(task := Handling([], false, false), pending := [2]), [], [1, 2], [1])
    case 6 => System(INITIAL.(task := Leaving, pending := [2]), [Done([], false)], [1, 2], [1])
    case 7 => System(INITIAL.(task := Leaving, pending := [2]), [], [1, 2], [1])
    case _ => System(INITIAL.(pending := [2]), [], [1, 2], [1])
  }

  ghost predicate StrandedStep(k: nat)
    requires k < 8
  {
    && Enabled(StrandedAt(k), STRANDED_EVENTS[k])
    && Next(StrandedAt(k), STRANDED_EVENTS[k]) == StrandedAt(k + 1)
  }

  lemma FirstSteps(k: nat)
    requires k < 4
    ensures StrandedStep(k)
  {
    match k
    case 0 => assert [] + [Queued(1)] == [Queued(1)] && [] + [1] == [1];
    case 1 => assert [Queued(1)][1..] == [] && [] + [1] == [1];
    case 2 => assert [] + [Queued(2)] == [Queued(2)] && [1] + [2] == [1, 2];
    case 3 => assert [Queued(2)][1..] == [] && [] + [2] == [2];
  }

  lemma LastSteps(k: nat)
    requires 4 <= k < 8
    ensures StrandedStep(k)
  {
    match k
    case 4 => assert [1][1..] == [] && [] + [1] == [1];
    case 5 => assert [] + [Done([], false)] == [Done([], false)];
    case 6 => assert [Done([], false)][1..] == [] && [] + [2] == [2];
    case 7 =>
  }

  /** `Done` handled too early: the second message is never looked at again, though nothing is left
      in motion. */
  lemma Stranded()
    ensures Leads(System(INITIAL, [], [], []), STRANDED_EVENTS, StrandedAt(8))
    ensures var t := StrandedAt(8);
            Quiescent(t) && t.sched.state.Running? && t.handled == [1] && t.sent == [1, 2] && t.sched.pending == [2]
  {
    hide Leads;
    StrandedLeads();
  }

  lemma StrandedStarts()
    ensures StrandedAt(0) == System(INITIAL, [], [], [])
  {
  }

  lemma StrandedLeads()
    ensures Leads(System(INITIAL, [], [], []), STRANDED_EVENTS, StrandedAt(8))
  {
    hide StrandedAt, Enabled, Next;
    StrandedStarts();
    var states := seq(9, k requires 0 <= k < 9 => StrandedAt(k));
    forall k | 0 <= k < 8
      ensures Enabled(states[k], STRANDED_EVENTS[k]) && Next(states[k], STRANDED_EVENTS[k]) == states[k + 1]
    {
      if k < 4 {
        FirstSteps(k);
      } else {
        LastSteps(k);
      }
      assert StrandedStep(k);
    }
    Led(states, STRANDED_EVENTS, 0);
    assert STRANDED_EVENTS[0..] == STRANDED_EVENTS;
  }

  /** The second and the third message make up a batch. The second stops the actor, and the fourth is
      sent before the batch has returned the third. */
  const OVERTAKING_EVENTS: seq<Event> :=
    [Send(1), Receive, Send(2), Receive, Send(3), Receive, HandleOne(Nothing), Check, Release, Receive,
     HandleOne(StopSelf), Send(4), Check, Release, Receive, HandleOne(Nothing)]

  function OvertakingAt(k: nat): System {
    var busy := INITIAL.(task := Handling([1], false, true));
    var ending := INITIAL.(task := Handling([], false, false), pending := [2, 3]);
    var stopping := INITIAL.(state := Stopping, task := Handling([3], true, false));
    match k
    case 0 => System(INITIAL, [], [], [])
    case 1 => System(INITIAL, [Queued(1)], [1], [])
    case 2 => System(busy, [], [1], [])
    case 3 => System(busy, [Queued(2)], [1, 2], [])
    case 4 => System(busy.(pending := [2]), [], [1, 2], [])
    case 5 => System(busy.(pending := [2]), [Queued(3)], [1, 2, 3], [])
    case 6 => System(busy.(pending := [2, 3]), [], [1, 2, 3], [])
    case 7 => System(ending, [], [1, 2, 3], [1])
    case 8 => System(ending.(task := Leaving), [Done([], false)], [1, 2, 3], [1])
    case 9 => System(ending.(task := Idle), [Done([], false)], [1, 2, 3], [1])
    case 10 => System(INITIAL.(task := Handling([2, 3], false, true)), [], [1, 2, 3], [1])
    case 11 => System(stopping, [], [1, 2, 3], [1, 2])
    case 12 => System(stopping, [Queued(4)], [1, 2, 3, 4], [1, 2])
    case 13 => System(stopping.(task := Leaving), [Queued(4), Done([3], true)], [1, 2, 3, 4], [1, 2])
    case 14 => System(stopping.(task := Idle), [Queued(4), Done([3], true)], [1, 2, 3, 4], [1, 2])
    case 15 => System(stopping.(task := Handling([4], false, true)), [Done([3], true)], [1, 2, 3, 4], [1, 2])
    case _ => System(stopping.(task := Handling([], false, false)), [Done([3], true)], [1, 2, 3, 4], [1, 2, 4])
  }

  ghost predicate OvertakingStep(k: nat)
    requires k < 16
  {
    && Enabled(OvertakingAt(k), OVERTAKING_EVENTS[k])
    && Next(OvertakingAt(k), OVERTAKING_EVENTS[k]) == OvertakingAt(k + 1)
  }

  lemma SendSteps(k: nat)
    requires k < 3
    ensures OvertakingStep(k)
  {
    match k
    case 0 => assert [] + [Queued(1)] == [Queued(1)] && [] + [1] == [1];
    case 1 => assert [Queued(1)][1..] == [] && [] + [1] == [1];
    case 2 => assert [] + [Queued(2)] == [Queued(2)] && [1] + [2] == [1, 2];
  }

  lemma QueueSteps(k: nat)
    requires 3 <= k < 5
    ensures OvertakingStep(k)
  {
    match k
    case 3 => assert [Queued(2)][1..] == [] && [] + [2] == [2];
    case 4 => assert [] + [Queued(3)] == [Queued(3)] && [1, 2] + [3] == [1, 2, 3];
  }

  lemma ThirdQueued()
    ensures OvertakingStep(5)
  {
    assert [Queued(3)][1..] == [] && [2] + [3] == [2, 3];
  }

  lemma BatchSteps(k: nat)
    requires 6 <= k < 9
    ensures OvertakingStep(k)
  {
    match k
    case 6 => assert [1][1..] == [] && [] + [1] == [1];
    case 7 => assert [] + [Done([], false)] == [Done([], false)];
    case 8 =>
  }

  lemma SecondBatchSteps(k: nat)
    requires 9 <= k < 11
    ensures OvertakingStep(k)
  {
    match k
    case 9 => assert [Done([], false)][1..] == [] && [] + [2, 3] == [2, 3];
    case 10 => assert [2, 3][1..] == [3] && [1] + [2] == [1, 2];
  }

  lemma StopSteps(k: nat)
    requires 11 <= k < 16
    ensures OvertakingStep(k)
  {
    match k
    case 11 => assert [] + [Queued(4)] == [Queued(4)] && [1, 2, 3] + [4] == [1, 2, 3, 4];
    case 12 => assert [Queued(4)] + [Done([3], true)] == [Queued(4), Done([3], true)];
    case 13 =>
    case 14 => assert [Queued(4), Done([3], true)][1..] == [Done([3], true)] && [] + [4] == [4];
    case 15 => assert [4][1..] == [] && [1, 2] + [4] == [1, 2, 4];
  }

  lemma OvertakingStarts()
    ensures OvertakingAt(0) == System(INITIAL, [], [], [])
  {
  }

  lemma OvertakingLeads()
    ensures Leads(System(INITIAL, [], [], []), OVERTAKING_EVENTS, OvertakingAt(16))
  {
    hide OvertakingAt, Enabled, Next;
    OvertakingStarts();
    var states := seq(17, k requires 0 <= k < 17 => OvertakingAt(k));
    forall k | 0 <= k < 16
      ensures Enabled(states[k], OVERTAKING_EVENTS[k]) && Next(states[k], OVERTAKING_EVENTS[k]) == states[k + 1]
    {
      if k < 3 {
        SendSteps(k);
      } else if k < 5 {
        QueueSteps(k);
      } else if k < 6 {
        ThirdQueued();
      } else if k < 9 {
        BatchSteps(k);
      } else if k < 11 {
        SecondBatchSteps(k);
      } else {
        StopSteps(k);
      }
      assert OvertakingStep(k);
    }
    Led(states, OVERTAKING_EVENTS, 0);
    assert OVERTAKING_EVENTS[0..] == OVERTAKING_EVENTS;
  }

  /** Overtaking happens: a run in which the fourth message is handled while the third, sent earlier,
      is still on its way back. */
  lemma Overtaken()
    ensures Leads(System(INITIAL, [], [], []), OVERTAKING_EVENTS, OvertakingAt(16))
    ensures Enabled(OvertakingAt(14), Receive) && Overtakes(OvertakingAt(14), Receive)
    ensures var t := OvertakingAt(16);
            t.sent == [1, 2, 3, 4] && t.handled == [1, 2, 4] && Returning(t.mailbox) == [3]
  {
    hide Leads;
    OvertakingLeads();
    StopSteps(14);
    var last := [Done([3], true)];
    assert last[1..] == [] && Returning(last) == [3] + Returning(last[1..]);
  }

  lemma {:induction false} Led(states: seq<System>, events: seq<Event>, k: nat)
    requires |states| == |events| + 1 && k <= |events|
    requires forall i | k <= i < |events| :: Enabled(states[i], events[i]) && Next(states[i], events[i]) == states[i + 1]
    ensures Leads(states[k], events[k..], states[|events|])
    decreases |events| - k
  {
    if k < |events| {
      Led(states, events, k + 1);
      assert events[k..][1..] == events[k + 1..];
    }
  }
}
