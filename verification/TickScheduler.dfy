/** The agent that keeps every relative timestamp on the page up to date. */
module TickScheduler {
  import opened MachineInts
  import opened PostBody
  import opened RelativeTimes
  import opened Ticks
  import opened TickQueue

  /** What a subscriber is told. */
  datatype Response = Response(id: nat, diff: RelativeTime, useRelative: bool)

  function Responses(ts: seq<Tick>, useRelative: bool): (r: seq<Response>)
    ensures |r| == |ts|
  {
    seq(|ts|, k requires 0 <= k < |ts| => Response(ts[k].id, ts[k].diff, useRelative))
  }

  lemma MoreResponses(ts: seq<Tick>, t: Tick, useRelative: bool)
    ensures Responses(ts + [t], useRelative) == Responses(ts, useRelative) + [Response(t.id, t.diff, useRelative)]
  {
  }

  /** `Tick::set_next_tick` */
  method SetNextTick(t: Tick, now: u32) returns (next: Tick)
    ensures next == Next(t, now)
  {
    var divisor: u32 := 1;
    var k := 0;
    while k < |MAXIMA| && t.diff.unit != BY_RANK[k]
      invariant k <= |MAXIMA| && divisor == Size(BY_RANK[k])
      invariant forall j | 0 <= j < k :: t.diff.unit != BY_RANK[j]
    {
      SizeOfNext(k);
      assert Size(BY_RANK[k + 1]) <= 31104000;
      divisor := divisor * MAXIMA[k];
      k := k + 1;
    }
    UnitIs(t.diff.unit, k);
    var then' := (now - now % divisor + divisor) % 0x1_0000_0000;
    var r := NewRelativeTime(then', t.val);
    next := t.(diff := r, pendingOn := then');
  }

  lemma UnitIs(u: Unit, k: nat)
    requires k <= |MAXIMA| && (forall j | 0 <= j < k :: u != BY_RANK[j]) && (k < |MAXIMA| ==> u == BY_RANK[k])
    ensures u == BY_RANK[k]
  {
    var r := Rank(u);
    assert BY_RANK[r] == u;
  }

  class Scheduler {
    var useRelative: bool
    var now: u32
    const queue: Queue

    ghost predicate Valid()
      reads this, queue, queue.head, queue.Nodes()
    {
      queue.Valid()
    }

    ghost function State(): Clock
      reads this, queue, queue.head
    {
      Clock(now, queue.List())
    }

    constructor (now: u32, useRelative: bool)
      ensures Valid() && fresh(queue) && fresh(queue.Nodes())
      ensures State() == Clock(now, []) && this.useRelative == useRelative
    {
      this.now, this.useRelative := now, useRelative;
      queue := new Queue();
    }

    /** Sends the tick and queues the next one. */
    method RefreshTick(t: Tick) returns (sent: Response)
      requires Valid()
      modifies queue, queue.Nodes()
      ensures Valid() && fresh(queue.Nodes() - old(queue.Nodes()))
      ensures queue.List() == Insert(old(queue.List()), Next(t, now))
      ensures sent == Response(t.id, t.diff, useRelative)
    {
      sent := Response(t.id, t.diff, useRelative);
      var next := SetNextTick(t, now);
      queue.InsertTick(next);
    }

    method Register(id: nat, val: u32) returns (sent: Response)
      requires Valid()
      modifies queue, queue.Nodes()
      ensures Valid() && fresh(queue.Nodes() - old(queue.Nodes()))
      ensures State() == Step(old(State()), Registered(id, val))
      ensures sent == Response(id, Relative(now, val), useRelative) && Shows(sent.diff, now, val)
    {
      var r := NewRelativeTime(now, val);
      sent := RefreshTick(Tick(id, val, now, r));
    }

    method ChangeTimestamp(id: nat, val: u32) returns (sent: Response)
      requires Valid()
      modifies queue, queue.Nodes()
      ensures Valid() && fresh(queue.Nodes() - old(queue.Nodes()))
      ensures State() == Step(old(State()), TimestampChanged(id, val))
      ensures sent == Response(id, Relative(now, val), useRelative) && Shows(sent.diff, now, val)
    {
      queue.RemoveTick(id);
      var r := NewRelativeTime(now, val);
      sent := RefreshTick(Tick(id, val, now, r));
    }

    method Disconnect(id: nat)
      requires Valid()
      modifies queue, queue.Nodes()
      ensures Valid() && queue.Nodes() <= old(queue.Nodes())
      ensures State() == Step(old(State()), Disconnected(id))
    {
      queue.RemoveTick(id);
    }

    /** The settings have changed, and with them perhaps the clock's correction. */
    method StateUpdated(relative: bool, corrected: Option<u32>) returns (sent: seq<Response>)
      requires Valid()
      modifies this`now, this`useRelative, queue.Nodes()
      ensures Valid() && queue.Nodes() == old(queue.Nodes()) && useRelative == relative
      ensures State() == if corrected.Some? then Step(old(State()), Corrected(corrected.value)) else old(State())
      ensures sent == if relative != old(useRelative) || corrected.Some? then Responses(queue.List(), relative) else []
      ensures corrected.Some? ==>
                && |sent| == |old(queue.List())|
                && forall k | 0 <= k < |sent| ::
                     var t := old(queue.List())[k];
                     sent[k] == Response(t.id, Relative(corrected.value, t.val), relative)
    {
      var resend := false;
      sent := [];
      if relative != useRelative {
        useRelative := relative;
        resend := true;
      }
      ghost var before := queue.List();
      if corrected.Some? {
        now := corrected.value;
        resend := true;
        queue.Recompute(now);
        RecomputedSame(before, now);
      }
      if resend {
        sent := Resend();
      }
    }

    /** Tells every subscriber what its tick shows. */
    method Resend() returns (sent: seq<Response>)
      requires Valid()
      ensures sent == Responses(queue.List(), useRelative)
    {
      hide Responses;
      sent := [];
      NoResponses(useRelative);
      var n := queue.head;
      ghost var all, done: seq<Tick> := queue.List(), [];
      while n != null
        invariant n != null ==> n.Valid()
        invariant done + ListOf(n) == all
        invariant sent == Responses(done, useRelative)
        decreases ReprOf(n)
      {
        var t := n.val;
        MoreResponses(done, t, useRelative);
        OneMore(done, t, ListOf(n.next));
        sent := sent + [Response(t.id, t.diff, useRelative)];
        done := done + [t];
        n := n.next;
      }
      assert done + [] == done;
    }

    /** Pops the first tick and sends it; it comes back with its next time. */
    method FireFirst() returns (sent: Response)
      requires Valid() && queue.List() != []
      modifies queue, queue.Nodes()
      ensures Valid() && fresh(queue.Nodes() - old(queue.Nodes()))
      ensures var s := old(queue.List());
              && queue.List() == Insert(s[1..], Next(s[0], now))
              && sent == Response(s[0].id, s[0].diff, useRelative)
    {
      var t := queue.Pop();
      sent := RefreshTick(t.value);
    }

    /** Fires ticks until none is due. Each tick fired comes back strictly later than now. */
    method OnTick(clock: u32) returns (sent: seq<Response>)
      requires Valid() && ClockFits(clock)
      modifies this`now, queue, queue.Nodes()
      ensures Valid() && fresh(queue.Nodes() - old(queue.Nodes()))
      ensures State() == Step(old(State()), Ticked(clock))
      ensures sent == Responses(Fired(old(queue.List()), clock), useRelative)
      // each is of a tick that was queued and due, and as true as that tick
      ensures forall r | r in sent ::
                exists t | t in old(queue.List()) :: t.pendingOn <= clock && r == Response(t.id, t.diff, useRelative)
    {
      hide Insert, Relative, NextTime, Next, Pass, Fired, Due, Responses;
      now := clock;
      ghost var before := queue.List();
      SentWereDue(before, clock, useRelative);
      ghost var list, fired: seq<Tick> := before, [];
      sent := [];
      NoResponses(useRelative);
      var first := queue.Peek();
      while first.Some? && first.value.pendingOn <= now
        invariant queue.Valid() && fresh(queue.Nodes() - old(queue.Nodes())) && now == clock
        invariant queue.List() == list && first == if list == [] then None else Some(list[0])
        invariant Pass(list, clock) == Pass(before, clock) && fired + Fired(list, clock) == Fired(before, clock)
        invariant sent == Responses(fired, useRelative)
        decreases Due(list, clock)
      {
        PassStep(list, clock);
        MoreResponses(fired, list[0], useRelative);
        assert fired + ([list[0]] + Fired(Insert(list[1..], Next(list[0], clock)), clock))
            == fired + [list[0]] + Fired(Insert(list[1..], Next(list[0], clock)), clock);
        fired := fired + [list[0]];
        var r := FireFirst();
        sent := sent + [r];
        list := Insert(list[1..], Next(list[0], clock));
        first := queue.Peek();
      }
      PassEnds(list, clock);
      assert fired + [] == fired;
    }
  }

  lemma SentWereDue(s: seq<Tick>, now: u32, useRelative: bool)
    requires ClockFits(now)
    ensures forall r | r in Responses(Fired(s, now), useRelative) ::
              exists t | t in s :: t.pendingOn <= now && r == Response(t.id, t.diff, useRelative)
  {
    hide Fired;
    FiredMembers(s, now);
    var fired := Fired(s, now);
    forall r | r in Responses(fired, useRelative)
      ensures exists t | t in s :: t.pendingOn <= now && r == Response(t.id, t.diff, useRelative)
    {
      var k :| 0 <= k < |fired| && Responses(fired, useRelative)[k] == r;
      assert fired[k] in fired;
    }
  }

  lemma OneMore(done: seq<Tick>, t: Tick, rest: seq<Tick>)
    ensures done + ([t] + rest) == done + [t] + rest
  {
  }

  lemma NoResponses(useRelative: bool)
    ensures Responses([], useRelative) == []
  {
  }

  lemma PassStep(s: seq<Tick>, now: u32)
    requires ClockFits(now) && s != [] && s[0].pendingOn <= now
    ensures var s' := Insert(s[1..], Next(s[0], now));
            && Pass(s, now) == Pass(s', now) && Fired(s, now) == [s[0]] + Fired(s', now)
            && Due(s', now) < Due(s, now)
  {
    hide Insert, Next;
    NextLater(s[0], now);
    InsertLaterDue(s[1..], Next(s[0], now), now);
  }

  lemma PassEnds(s: seq<Tick>, now: u32)
    requires ClockFits(now) && (s == [] || s[0].pendingOn > now)
    ensures Pass(s, now) == s && Fired(s, now) == []
  {
  }
}
