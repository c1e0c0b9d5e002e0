/** What becomes of an actor's request to be stopped. */
module StopRequests {
  import opened Scheduler

  /** The end of a batch in which the actor has asked to be stopped is about to be received. */
  predicate StopArrives(s: System) {
    && s.sched.alive && s.sched.state.Stopping?
    && s.mailbox != [] && s.mailbox[0].Done? && s.mailbox[0].stoppedSelf
  }

  /** Exact: asked right then, the scheduler ends iff the lock is free and the actor agrees, whatever is
      queued. */
  lemma StopHonoured(s: System, agrees: bool)
    requires StopArrives(s)
    ensures Enabled(s, Receive) && Enabled(Next(s, Receive), AskStop(agrees))
    ensures var asked := Next(Next(s, Receive), AskStop(agrees));
            && (!asked.sched.alive <==> s.sched.task.Idle? && agrees)
            && asked.sched.pending == s.mailbox[0].unprocessed + s.sched.pending
  {
  }

  /** If the actor does not agree, it goes on with all that waits, in order. */
  lemma StopDeclined(s: System)
    requires StopArrives(s) && s.sched.task.Idle?
    ensures Enabled(s, Receive) && Enabled(Next(s, Receive), AskStop(false))
    ensures var asked := Next(Next(s, Receive), AskStop(false));
            var waiting := s.mailbox[0].unprocessed + s.sched.pending;
            && Enabled(asked, ReceiveNote)
            && Next(asked, ReceiveNote).sched.state.Running?
            && (waiting != [] ==> Next(asked, ReceiveNote).sched.task == Handling(waiting, false, true))
  {
    var asked := Next(Next(s, Receive), AskStop(false));
    assert [] + asked.sched.pending == asked.sched.pending;
  }

  /** A note received before the question is asked with the lock free makes the scheduler forget that the
      actor has asked to be stopped. */
  lemma StopForgotten(s: System)
    requires s.sched.alive && s.sched.state.Stopping? && s.sched.notes > 0
    ensures Enabled(s, ReceiveNote)
    ensures var t := Next(s, ReceiveNote);
            !t.sched.stoppedSelf && t.sched.state.Stopping? && t.sched.pending == s.sched.pending
            && t.sched.task == s.sched.task && t.sched.notes == s.sched.notes
  {
    assert [] + s.sched.pending == s.sched.pending;
  }

  /** The scheduler neither stops nor handles what is queued. */
  predicate Turning(s: System) {
    && s.sched.alive && s.sched.state.Stopping? && !s.sched.stoppedSelf && s.sched.pending != []
    && s.sched.task.Idle? && s.mailbox == []
  }

  /** From then on, if anything is queued, the notes keep coming and nothing changes until a message is
      sent. */
  lemma TurnsForEver(s: System, e: Event)
    requires Turning(s) && Enabled(s, e) && !e.Send?
    ensures Next(s, e) == s
  {
    assert [] + s.sched.pending == s.sched.pending;
  }

  lemma {:induction false} Turned(states: seq<System>, events: seq<Event>, from: nat, k: nat)
    requires Run(states, events) && from <= k <= |events| && Turning(states[from])
    requires forall i | from <= i < k :: !events[i].Send?
    ensures states[k] == states[from]
  {
    if from < k {
      Turned(states, events, from, k - 1);
      assert Enabled(states[k - 1], events[k - 1]) && states[k - 1 + 1] == Next(states[k - 1], events[k - 1]);
      TurnsForEver(states[k - 1], events[k - 1]);
    }
  }

  // ----- a run that comes to that -----

  /** The first message stops the actor while the second is queued. The question comes before the task
      has let go of the lock, and the note before the next question. */
  const FORGOTTEN_EVENTS: seq<Event> :=
    [Send(1), Receive, Send(2), Receive, HandleOne(StopSelf), Check, Receive, AskStop(true), ReceiveNote, Release]

  function ForgottenAt(k: nat): System {
    var leaving := Sched([2], Stopping, false, true, Leaving, 0);
    match k
    case 4 => StrandedAt(4)
    case 5 => System(leaving.(task := Handling([], true, false)), [], [1, 2], [1])
    case 6 => System(leaving, [Done([], true)], [1, 2], [1])
    case 7 => System(leaving.(stoppedSelf := true, notes := 1), [], [1, 2], [1])
    case 8 => System(leaving.(stoppedSelf := true, notes := 1), [], [1, 2], [1])
    case 9 => System(leaving.(notes := 1), [], [1, 2], [1])
    case 10 => System(leaving.(notes := 1, task := Idle), [], [1, 2], [1])
    case _ => StrandedAt(k)
  }

  ghost predicate ForgottenStep(k: nat)
    requires k < 10
  {
    && Enabled(ForgottenAt(k), FORGOTTEN_EVENTS[k])
    && Next(ForgottenAt(k), FORGOTTEN_EVENTS[k]) == ForgottenAt(k + 1)
  }

  lemma StartSteps(k: nat)
    requires k < 4
    ensures ForgottenStep(k)
  {
    hide Next, Enabled, StrandedAt;
    FirstSteps(k);
    assert StrandedStep(k);
    assert STRANDED_EVENTS[k] == FORGOTTEN_EVENTS[k];
  }

  lemma StopSteps(k: nat)
    requires 4 <= k < 7
    ensures ForgottenStep(k)
  {
    match k
    case 4 => assert [1][1..] == [] && [] + [1] == [1];
    case 5 => assert [] + [Done([], true)] == [Done([], true)];
    case 6 => assert [Done([], true)][1..] == [] && [] + [2] == [2];
  }

  lemma LateSteps(k: nat)
    requires 7 <= k < 10
    ensures ForgottenStep(k)
  {
    match k
    case 7 =>
    case 8 => assert [] + [2] == [2];
    case 9 =>
  }

  /** In this run an actor that agrees to be stopped never is, and never handles its second message. */
  lemma StopLost()
    ensures Leads(System(INITIAL, [], [], []), FORGOTTEN_EVENTS, ForgottenAt(10))
    ensures Turning(ForgottenAt(10)) && ForgottenAt(10).handled == [1] && ForgottenAt(10).sent == [1, 2]
  {
    hide Leads;
    ForgottenLeads();
  }

  lemma ForgottenStarts()
    ensures ForgottenAt(0) == System(INITIAL, [], [], [])
  {
  }

  lemma ForgottenLeads()
    ensures Leads(System(INITIAL, [], [], []), FORGOTTEN_EVENTS, ForgottenAt(10))
  {
    hide ForgottenAt, Enabled, Next;
    ForgottenStarts();
    var states := seq(11, k requires 0 <= k < 11 => ForgottenAt(k));
    forall k | 0 <= k < 10
      ensures Enabled(states[k], FORGOTTEN_EVENTS[k]) && Next(states[k], FORGOTTEN_EVENTS[k]) == states[k + 1]
    {
      if k < 4 {
        StartSteps(k);
      } else if k < 7 {
        StopSteps(k);
      } else {
        LateSteps(k);
      }
      assert ForgottenStep(k);
    }
    Led(states, FORGOTTEN_EVENTS, 0);
    assert FORGOTTEN_EVENTS[0..] == FORGOTTEN_EVENTS;
  }
}
