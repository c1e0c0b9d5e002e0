/** Pending clock updates kept in order of time, and the pass that fires those that are due. */
module Ticks {
  import opened MachineInts
  import opened PostBody
  import opened RelativeTimes

  datatype Tick = Tick(id: nat, val: u32, pendingOn: u32, diff: RelativeTime)

  // ----- the queue as a list -----

  /** `insert_before`: in front of the first tick that is later. */
  function Insert(s: seq<Tick>, t: Tick): (r: seq<Tick>)
    ensures |r| == |s| + 1
  {
    if s == [] then [t]
    else if t.pendingOn < s[0].pendingOn then [t] + s
    else [s[0]] + Insert(s[1..], t)
  }

  /** `remove`: the first tick of a subscriber. */
  function Remove(s: seq<Tick>, id: nat): (r: seq<Tick>)
    ensures |r| <= |s|
  {
    if s == [] then []
    else if s[0].id == id then s[1..]
    else [s[0]] + Remove(s[1..], id)
  }

  predicate Sorted(s: seq<Tick>) {
    forall i, j | 0 <= i < j < |s| :: s[i].pendingOn <= s[j].pendingOn
  }

  /** Ticks due at one time, in queue order. */
  function DueAt(s: seq<Tick>, time: u32): seq<Tick> {
    if s == [] then [] else (if s[0].pendingOn == time then [s[0]] else []) + DueAt(s[1..], time)
  }

  function Count(s: seq<Tick>, id: nat): nat {
    if s == [] then 0 else (if s[0].id == id then 1 else 0) + Count(s[1..], id)
  }

  /** Every tick comes no earlier than a time. */
  predicate NotBefore(s: seq<Tick>, time: u32) {
    forall k | 0 <= k < |s| :: time <= s[k].pendingOn
  }

  lemma SortedTail(s: seq<Tick>)
    requires s != [] && Sorted(s)
    ensures Sorted(s[1..]) && NotBefore(s[1..], s[0].pendingOn)
  {
  }

  lemma SortedCons(t: Tick, s: seq<Tick>)
    requires Sorted(s) && NotBefore(s, t.pendingOn)
    ensures Sorted([t] + s)
  {
  }

  lemma {:induction false} InsertNotBefore(s: seq<Tick>, t: Tick, time: u32)
    ensures NotBefore(Insert(s, t), time) <==> NotBefore(s, time) && time <= t.pendingOn
  {
    if s == [] {
      assert Insert(s, t)[0] == t;
    } else if t.pendingOn < s[0].pendingOn {
      forall k | 0 <= k < |s| ensures ([t] + s)[k + 1] == s[k] {
      }
      assert ([t] + s)[0] == t;
    } else {
      InsertNotBefore(s[1..], t, time);
      SplitNotBefore(s[0], s[1..], time);
      SplitNotBefore(s[0], Insert(s[1..], t), time);
      assert [s[0]] + s[1..] == s;
    }
  }

  lemma SplitNotBefore(t: Tick, s: seq<Tick>, time: u32)
    ensures NotBefore([t] + s, time) <==> time <= t.pendingOn && NotBefore(s, time)
  {
    assert ([t] + s)[0] == t;
    forall k | 0 <= k < |s| ensures ([t] + s)[k + 1] == s[k] {
    }
  }

  /** Insertion keeps the queue sorted, adds one tick of its subscriber, and puts it behind those
      due at the same time. */
  lemma {:induction false} InsertStable(s: seq<Tick>, t: Tick)
    requires Sorted(s)
    ensures Sorted(Insert(s, t))
    ensures forall id :: Count(Insert(s, t), id) == Count(s, id) + if t.id == id then 1 else 0
    ensures forall time: u32 :: DueAt(Insert(s, t), time) == DueAt(s, time) + if t.pendingOn == time then [t] else []
  {
    hide NotBefore, Sorted, Count, DueAt;
    if s == [] || t.pendingOn < s[0].pendingOn {
      InsertFirst(s, t);
    } else {
      SortedTail(s);
      InsertStable(s[1..], t);
      InsertNotBefore(s[1..], t, s[0].pendingOn);
      SortedCons(s[0], Insert(s[1..], t));
      forall id: nat ensures Count(Insert(s, t), id) == Count(s, id) + if t.id == id then 1 else 0 {
        Cons(s[0], Insert(s[1..], t), id, 0);
        Cons(s[0], s[1..], id, 0);
        assert [s[0]] + s[1..] == s;
      }
      forall time: u32
        ensures DueAt(Insert(s, t), time) == DueAt(s, time) + if t.pendingOn == time then [t] else []
      {
        Cons(s[0], Insert(s[1..], t), 0, time);
        Cons(s[0], s[1..], 0, time);
        assert [s[0]] + s[1..] == s;
      }
    }
  }

  lemma Cons(t: Tick, s: seq<Tick>, id: nat, time: u32)
    ensures Count([t] + s, id) == (if t.id == id then 1 else 0) + Count(s, id)
    ensures DueAt([t] + s, time) == (if t.pendingOn == time then [t] else []) + DueAt(s, time)
  {
    assert ([t] + s)[1..] == s;
  }

  lemma InsertFirst(s: seq<Tick>, t: Tick)
    requires Sorted(s) && (s == [] || t.pendingOn < s[0].pendingOn)
    ensures Sorted(Insert(s, t))
    ensures forall id :: Count(Insert(s, t), id) == Count(s, id) + if t.id == id then 1 else 0
    ensures forall time: u32 :: DueAt(Insert(s, t), time) == DueAt(s, time) + if t.pendingOn == time then [t] else []
  {
    var r := Insert(s, t);
    assert r == [t] + s && r[1..] == s;
    if s != [] {
      LaterNotDue(s, t.pendingOn);
    }
  }

  lemma {:induction false} LaterNotDue(s: seq<Tick>, time: u32)
    requires Sorted(s) && (s == [] || time < s[0].pendingOn)
    ensures DueAt(s, time) == []
  {
    if s != [] {
      LaterNotDue(s[1..], time);
    }
  }

  lemma {:induction false} RemoveOne(s: seq<Tick>, id: nat)
    requires Sorted(s)
    ensures Sorted(Remove(s, id))
    ensures forall other :: Count(Remove(s, id), other) == if other == id && Count(s, id) > 0 then Count(s, id) - 1 else Count(s, other)
    ensures forall time: u32 :: NotBefore(s, time) ==> NotBefore(Remove(s, id), time)
  {
    hide Sorted, NotBefore;
    if s != [] {
      SortedTail(s);
      forall time: u32 | NotBefore(s, time) ensures NotBefore(s[1..], time) && time <= s[0].pendingOn {
        SplitNotBefore(s[0], s[1..], time);
        assert [s[0]] + s[1..] == s;
      }
      if s[0].id == id {
      } else {
        RemoveOne(s[1..], id);
        SortedCons(s[0], Remove(s[1..], id));
        forall time: u32 | NotBefore(s, time) ensures NotBefore(Remove(s, id), time) {
          SplitNotBefore(s[0], Remove(s[1..], id), time);
        }
        assert Remove(s, id)[1..] == Remove(s[1..], id);
      }
    }
  }

  // ----- the next tick -----

  /** Start of the next unit, in 32-bit arithmetic. */
  function NextTime(now: u32, unit: Unit): u32 {
    (now - now % Size(unit) + Size(unit)) % 0x1_0000_0000
  }

  function Next(t: Tick, now: u32): Tick {
    var then' := NextTime(now, t.diff.unit);
    t.(pendingOn := then', diff := Relative(then', t.val))
  }

  /** The next tick lies in the future exactly if its time fits 32 bits; it is then the first
      multiple of the unit that does. */
  lemma NextTimeExact(now: u32, unit: Unit)
    ensures NextTime(now, unit) > now <==> now - now % Size(unit) + Size(unit) < 0x1_0000_0000
    ensures NextTime(now, unit) > now ==>
              && NextTime(now, unit) % Size(unit) == 0
              && forall m: nat | m % Size(unit) == 0 && m > now :: m >= NextTime(now, unit)
  {
    hide Size, NextTime;
    var n := Size(unit);
    NextMultiple(now, n);
    NextTimeIs(now, unit);
    FirstMultiple(now, n);
  }

  lemma NextTimeIs(now: u32, unit: Unit)
    ensures var x := now - now % Size(unit) + Size(unit);
            NextTime(now, unit) == if x < 0x1_0000_0000 then x else x - 0x1_0000_0000
  {
    var n := Size(unit);
    hide Size;
    assert now % n < n;
    Wrapped(now - now % n + n);
  }

  lemma FirstMultiple(now: nat, n: nat)
    requires n > 0
    ensures forall m: nat | m % n == 0 && m > now :: m >= now - now % n + n
  {
    NextMultiple(now, n);
    forall m: nat | m % n == 0 && m > now ensures m >= now - now % n + n {
      NoMultipleBetween(m, now / n, n, now);
    }
  }

  lemma Wrapped(x: nat)
    ensures x < 0x1_0000_0000 ==> x % 0x1_0000_0000 == x
    ensures 0x1_0000_0000 <= x < 0x2_0000_0000 ==> x % 0x1_0000_0000 == x - 0x1_0000_0000
  {
  }

  lemma NextMultiple(now: nat, n: nat)
    requires n > 0
    ensures var next := now - now % n + n; next == (now / n + 1) * n && now < next <= now + n && next % n == 0
    ensures now / n * n <= now
  {
    assert now == now / n * n + now % n;
    Multiple(now / n + 1, n);
  }

  lemma Multiple(q: nat, n: nat)
    requires n > 0
    ensures q * n % n == 0
  {
    FloorIs(q * n, q, n);
    assert q * n == (q * n / n) * n + q * n % n;
  }

  lemma NoMultipleBetween(m: nat, q: nat, n: nat, now: nat)
    requires n > 0 && m % n == 0 && m > now && q * n <= now
    ensures m >= (q + 1) * n
  {
    var p := m / n;
    assert m == p * n;
    if p > q {
      Monotone(n, q + 1, p);
      assert (q + 1) * n <= p * n;
    }
  }

  /** The clock leaves room for one more of the largest unit. */
  predicate ClockFits(now: u32) {
    now + Size(Years) < 0x1_0000_0000
  }

  lemma NextLater(t: Tick, now: u32)
    requires ClockFits(now)
    ensures Next(t, now).pendingOn > now && Next(t, now).id == t.id
  {
    NextTimeExact(now, t.diff.unit);
  }

  // ----- one pass -----

  /** Number of ticks due. */
  function Due(s: seq<Tick>, now: u32): nat {
    if s == [] then 0 else (if s[0].pendingOn <= now then 1 else 0) + Due(s[1..], now)
  }

  lemma {:induction false} InsertLaterDue(s: seq<Tick>, t: Tick, now: u32)
    requires t.pendingOn > now
    ensures Due(Insert(s, t), now) == Due(s, now)
  {
    if s == [] {
    } else if t.pendingOn < s[0].pendingOn {
      assert Insert(s, t)[1..] == s;
    } else {
      InsertLaterDue(s[1..], t, now);
      assert Insert(s, t)[1..] == Insert(s[1..], t);
    }
  }

  /** The queue after a pass. It ends because each tick fired lowers the number of those due. */
  function Pass(s: seq<Tick>, now: u32): seq<Tick>
    requires ClockFits(now)
    decreases Due(s, now)
  {
    if s == [] || s[0].pendingOn > now then s
    else
      NextLater(s[0], now);
      InsertLaterDue(s[1..], Next(s[0], now), now);
      Pass(Insert(s[1..], Next(s[0], now)), now)
  }

  /** The ticks sent out by a pass, in order. */
  function Fired(s: seq<Tick>, now: u32): seq<Tick>
    requires ClockFits(now)
    decreases Due(s, now)
  {
    if s == [] || s[0].pendingOn > now then []
    else
      NextLater(s[0], now);
      InsertLaterDue(s[1..], Next(s[0], now), now);
      [s[0]] + Fired(Insert(s[1..], Next(s[0], now)), now)
  }

  /** The first `n` ticks of the list at most now, i.e. those due in a sorted queue. */
  function DuePrefix(s: seq<Tick>, now: u32): seq<Tick> {
    if s == [] || s[0].pendingOn > now then [] else [s[0]] + DuePrefix(s[1..], now)
  }

  lemma {:induction false} InsertLaterPrefix(s: seq<Tick>, t: Tick, now: u32)
    requires t.pendingOn > now
    ensures DuePrefix(Insert(s, t), now) == DuePrefix(s, now)
  {
    if s == [] {
    } else if t.pendingOn < s[0].pendingOn {
    } else {
      InsertLaterPrefix(s[1..], t, now);
      assert Insert(s, t)[1..] == Insert(s[1..], t);
    }
  }

  /** A pass fires what was due, each once and in order, and leaves the queue sorted with every
      subscriber's ticks still there, all strictly later than now. */
  lemma {:induction false} PassCompletes(s: seq<Tick>, now: u32)
    requires ClockFits(now) && Sorted(s)
    ensures Sorted(Pass(s, now))
    ensures forall id :: Count(Pass(s, now), id) == Count(s, id)
    ensures forall k | 0 <= k < |Pass(s, now)| :: Pass(s, now)[k].pendingOn > now
    ensures Fired(s, now) == DuePrefix(s, now)
    decreases Due(s, now)
  {
    hide Insert;
    if s != [] && s[0].pendingOn <= now {
      var t, rest := Next(s[0], now), s[1..];
      NextLater(s[0], now);
      InsertLaterDue(rest, t, now);
      SortedTail(s);
      InsertStable(rest, t);
      InsertLaterPrefix(rest, t, now);
      PassCompletes(Insert(rest, t), now);
    }
  }

  // ----- runs of the scheduler -----

  datatype Clock = Clock(now: u32, queue: seq<Tick>)

  datatype Event =
    | Registered(id: nat, val: u32)
    | TimestampChanged(id: nat, val: u32)
    | Disconnected(id: nat)
    | Ticked(now: u32)
    | Corrected(now: u32)

  function NewTick(id: nat, val: u32, now: u32): Tick {
    Tick(id, val, now, Relative(now, val))
  }

  /** A change of the clock correction changes what is shown, not when it is due. */
  function Recomputed(s: seq<Tick>, now: u32): (r: seq<Tick>)
    ensures |r| == |s|
  {
    if s == [] then [] else [s[0].(diff := Relative(now, s[0].val))] + Recomputed(s[1..], now)
  }

  function Step(c: Clock, e: Event): Clock
    requires e.Ticked? ==> ClockFits(e.now)
  {
    match e
    case Registered(id, val) => c.(queue := Insert(c.queue, Next(NewTick(id, val, c.now), c.now)))
    case TimestampChanged(id, val) =>
      c.(queue := Insert(Remove(c.queue, id), Next(NewTick(id, val, c.now), c.now)))
    case Disconnected(id) => c.(queue := Remove(c.queue, id))
    case Ticked(now) => Clock(now, Pass(c.queue, now))
    case Corrected(now) => Clock(now, Recomputed(c.queue, now))
  }

  predicate AllFit(es: seq<Event>) {
    forall k | 0 <= k < |es| && es[k].Ticked? :: ClockFits(es[k].now)
  }

  function Run(c: Clock, es: seq<Event>): Clock
    requires AllFit(es)
  {
    if es == [] then c else Step(Run(c, es[..|es| - 1]), es[|es| - 1])
  }

  function Subscribers(es: seq<Event>): set<nat> {
    if es == [] then {}
    else
      var before := Subscribers(es[..|es| - 1]);
      match es[|es| - 1]
      case Registered(id, _) => before + {id}
      case TimestampChanged(id, _) => before + {id}
      case Disconnected(id) => before - {id}
      case _ => before
  }

  /** No subscriber registers twice. */
  predicate FreshIds(es: seq<Event>) {
    es == [] ||
    (FreshIds(es[..|es| - 1]) && (es[|es| - 1].Registered? ==> es[|es| - 1].id !in Subscribers(es[..|es| - 1])))
  }

  ghost predicate OneEach(s: seq<Tick>, ids: set<nat>) {
    Sorted(s) && forall id: nat :: Count(s, id) == if id in ids then 1 else 0
  }

  lemma {:induction false} RecomputedSame(s: seq<Tick>, now: u32)
    ensures forall k | 0 <= k < |s| :: Recomputed(s, now)[k] == s[k].(diff := Relative(now, s[k].val))
    ensures forall id :: Count(Recomputed(s, now), id) == Count(s, id)
  {
    hide Relative;
    if s != [] {
      RecomputedSame(s[1..], now);
      assert Recomputed(s, now)[1..] == Recomputed(s[1..], now);
    }
  }

  lemma StepOneEach(c: Clock, e: Event, ids: set<nat>)
    requires OneEach(c.queue, ids) && (e.Ticked? ==> ClockFits(e.now)) && (e.Registered? ==> e.id !in ids)
    ensures OneEach(Step(c, e).queue,
                    match e
                    case Registered(id, _) => ids + {id}
                    case TimestampChanged(id, _) => ids + {id}
                    case Disconnected(id) => ids - {id}
                    case _ => ids)
  {
    hide Sorted, Count, Insert, Remove, Relative;
    match e
    case Registered(id, val) => InsertStable(c.queue, Next(NewTick(id, val, c.now), c.now));
    case TimestampChanged(id, val) =>
      RemoveOne(c.queue, id);
      InsertStable(Remove(c.queue, id), Next(NewTick(id, val, c.now), c.now));
    case Disconnected(id) => RemoveOne(c.queue, id);
    case Ticked(now) => PassCompletes(c.queue, now);
    case Corrected(now) =>
      RecomputedSame(c.queue, now);
      RecomputedSorted(c.queue, now);
  }

  lemma RecomputedSorted(s: seq<Tick>, now: u32)
    requires Sorted(s)
    ensures Sorted(Recomputed(s, now))
  {
    hide Relative;
    RecomputedSame(s, now);
  }

  /** In every run each subscriber has exactly one tick, nobody else has one, and the queue is sorted. */
  lemma {:induction false} OneTickEach(now: u32, es: seq<Event>)
    requires AllFit(es) && FreshIds(es)
    ensures OneEach(Run(Clock(now, []), es).queue, Subscribers(es))
  {
    hide OneEach, Step;
    if es == [] {
      NoTicks();
    } else {
      OneTickEach(now, es[..|es| - 1]);
      StepOneEach(Run(Clock(now, []), es[..|es| - 1]), es[|es| - 1], Subscribers(es[..|es| - 1]));
    }
  }

  lemma NoTicks()
    ensures OneEach([], {})
  {
  }

  // ----- what the queue is about to tell -----

  /** The value a subscriber gave last. */
  function ValueOf(es: seq<Event>, id: nat): Option<u32> {
    if es == [] then None
    else
      var last := es[|es| - 1];
      if (last.Registered? || last.TimestampChanged?) && last.id == id then Some(last.val)
      else ValueOf(es[..|es| - 1], id)
  }

  /** The clock at the last correction. */
  function LastCorrection(es: seq<Event>): Option<u32> {
    if es == [] then None
    else if es[|es| - 1].Corrected? then Some(es[|es| - 1].now)
    else LastCorrection(es[..|es| - 1])
  }

  /** The tick is about its subscriber's value, and will tell it as it is when the tick is due, or as it
      was at the last correction. */
  predicate Tells(t: Tick, es: seq<Event>) {
    && ValueOf(es, t.id) == Some(t.val)
    && (|| Shows(t.diff, t.pendingOn, t.val)
        || (LastCorrection(es).Some? && Shows(t.diff, LastCorrection(es).value, t.val)))
  }

  predicate AllTell(s: seq<Tick>, es: seq<Event>) {
    forall t | t in s :: Tells(t, es)
  }

  lemma {:induction false} InsertMembers(s: seq<Tick>, t: Tick)
    ensures forall u :: u in Insert(s, t) <==> u in s || u == t
  {
    if s != [] && !(t.pendingOn < s[0].pendingOn) {
      InsertMembers(s[1..], t);
      assert forall u :: u in s <==> u == s[0] || u in s[1..];
    }
  }

  lemma {:induction false} RemoveMembers(s: seq<Tick>, id: nat)
    requires Count(s, id) <= 1
    ensures forall u | u in Remove(s, id) :: u in s && u.id != id
  {
    if s != [] {
      if s[0].id == id {
        NotCounted(s[1..], id);
      } else {
        RemoveMembers(s[1..], id);
      }
    }
  }

  lemma {:induction false} NotCounted(s: seq<Tick>, id: nat)
    requires Count(s, id) == 0
    ensures forall u | u in s :: u.id != id
  {
    if s != [] {
      NotCounted(s[1..], id);
    }
  }

  /** Exact: the tick that follows is due at the first multiple of the unit last shown, and will show the
      value as it is then. */
  lemma NextExact(t: Tick, now: u32)
    requires ClockFits(now)
    ensures var n := Next(t, now); var size := Size(t.diff.unit);
            && n.id == t.id && n.val == t.val && Shows(n.diff, n.pendingOn, n.val)
            && n.pendingOn > now && n.pendingOn % size == 0 && n.pendingOn - now <= size
  {
    NextTimeExact(now, t.diff.unit);
    ShowsExact(Next(t, now).diff, Next(t, now).pendingOn, t.val);
  }

  /** `n` follows a tick of which `shown` was told at `now`: it is due at the first multiple of the unit
      shown, and will tell the value as it is then. */
  predicate FollowsOn(n: Tick, id: nat, val: u32, shown: RelativeTime, now: u32) {
    && n.id == id && n.val == val && Shows(n.diff, n.pendingOn, val)
    && now < n.pendingOn <= now + Size(shown.unit) && n.pendingOn % Size(shown.unit) == 0
  }

  lemma {:induction false} InsertAdds(s: seq<Tick>, t: Tick)
    ensures multiset(Insert(s, t)) == multiset(s) + multiset{t}
  {
    if s != [] && !(t.pendingOn < s[0].pendingOn) {
      InsertAdds(s[1..], t);
      assert s == [s[0]] + s[1..];
    }
  }

  /** A subscriber that registers gets a tick more, following on what it is told at once. */
  lemma RegisteredAdds(c: Clock, id: nat, val: u32)
    requires ClockFits(c.now)
    ensures exists t, shown: RelativeTime ::
              && Shows(shown, c.now, val) && FollowsOn(t, id, val, shown, c.now)
              && multiset(Step(c, Registered(id, val)).queue) == multiset(c.queue) + multiset{t}
  {
    hide Shows, Insert, Relative;
    var t := Next(NewTick(id, val, c.now), c.now);
    var shown := Relative(c.now, val);
    ShowsExact(shown, c.now, val);
    NextExact(NewTick(id, val, c.now), c.now);
    InsertAdds(c.queue, t);
    assert Shows(shown, c.now, val) && FollowsOn(t, id, val, shown, c.now);
  }

  /** `after` has every tick of `before` that was not due, and for each that was one that follows on it. */
  ghost predicate Advanced(before: seq<Tick>, after: multiset<Tick>, now: u32) {
    if before == [] then after == multiset{}
    else if before[0].pendingOn > now then before[0] in after && Advanced(before[1..], after - multiset{before[0]}, now)
    else
      exists n | n in after ::
        FollowsOn(n, before[0].id, before[0].val, before[0].diff, now) && Advanced(before[1..], after - multiset{n}, now)
  }

  lemma {:induction false} NoneDue(s: seq<Tick>, now: u32)
    requires forall k | 0 <= k < |s| :: s[k].pendingOn > now
    ensures Advanced(s, multiset(s), now)
  {
    if s != [] {
      NoneDue(s[1..], now);
      assert s == [s[0]] + s[1..];
      assert multiset(s) - multiset{s[0]} == multiset(s[1..]);
    }
  }

  lemma InsertOnce(s: seq<Tick>, t: Tick)
    ensures s == [] ==> Insert(s, t) == [t]
    ensures s != [] && t.pendingOn < s[0].pendingOn ==> Insert(s, t) == [t] + s
    ensures s != [] && !(t.pendingOn < s[0].pendingOn) ==> Insert(s, t) == [s[0]] + Insert(s[1..], t)
  {
  }

  /** A tick that is not due stays, wherever it stands in the list. */
  lemma {:induction false} AdvancedInserted(s: seq<Tick>, t: Tick, after: multiset<Tick>, now: u32)
    requires t.pendingOn > now && Advanced(Insert(s, t), after, now)
    ensures t in after && Advanced(s, after - multiset{t}, now)
    decreases |s|
  {
    hide FollowsOn, Insert;
    InsertOnce(s, t);
    if s == [] {
    } else if t.pendingOn < s[0].pendingOn {
      assert Insert(s, t)[1..] == s;
    } else {
      assert Insert(s, t)[1..] == Insert(s[1..], t);
      if s[0].pendingOn > now {
        AdvancedInserted(s[1..], t, after - multiset{s[0]}, now);
        TwoOut(after, s[0], t);
      } else {
        var n :| n in after && FollowsOn(n, s[0].id, s[0].val, s[0].diff, now)
              && Advanced(Insert(s[1..], t), after - multiset{n}, now);
        AdvancedInserted(s[1..], t, after - multiset{n}, now);
        TwoOut(after, n, t);
        AdvancedFirst(s, after - multiset{t}, now, n);
      }
    }
  }

  lemma TwoOut(after: multiset<Tick>, a: Tick, b: Tick)
    requires a in after && b in after - multiset{a}
    ensures b in after && a in after - multiset{b}
    ensures after - multiset{a} - multiset{b} == after - multiset{b} - multiset{a}
  {
  }

  /** A pass over a sorted queue leaves what was not due as it is, and replaces each tick that was by the
      one that follows on it. */
  lemma {:induction false} PassAdvances(s: seq<Tick>, now: u32)
    requires ClockFits(now) && Sorted(s)
    ensures Advanced(s, multiset(Pass(s, now)), now)
    decreases Due(s, now)
  {
    hide Insert, FollowsOn, Next, Advanced;
    if s == [] || s[0].pendingOn > now {
      assert Pass(s, now) == s;
      NoneDue(s, now);
    } else {
      var t, rest := Next(s[0], now), s[1..];
      NextLater(s[0], now);
      InsertLaterDue(rest, t, now);
      SortedTail(s);
      InsertStable(rest, t);
      PassAdvances(Insert(rest, t), now);
      AdvancedInserted(rest, t, multiset(Pass(s, now)), now);
      NextFollows(s[0], now);
      AdvancedFirst(s, multiset(Pass(s, now)), now, t);
    }
  }

  lemma NextFollows(t: Tick, now: u32)
    requires ClockFits(now)
    ensures FollowsOn(Next(t, now), t.id, t.val, t.diff, now)
  {
    NextExact(t, now);
  }

  lemma AdvancedFirst(s: seq<Tick>, after: multiset<Tick>, now: u32, n: Tick)
    requires s != [] && s[0].pendingOn <= now && n in after
    requires FollowsOn(n, s[0].id, s[0].val, s[0].diff, now) && Advanced(s[1..], after - multiset{n}, now)
    ensures Advanced(s, after, now)
  {
  }

  lemma NextTells(t: Tick, now: u32)
    ensures var n := Next(t, now); n.id == t.id && n.val == t.val && Shows(n.diff, n.pendingOn, n.val)
  {
    ShowsExact(Next(t, now).diff, Next(t, now).pendingOn, t.val);
  }

  lemma {:induction false} PassTells(s: seq<Tick>, now: u32, es: seq<Event>)
    requires ClockFits(now) && AllTell(s, es)
    ensures AllTell(Pass(s, now), es)
    decreases Due(s, now)
  {
    hide Insert, Shows, ValueOf, LastCorrection;
    if s != [] && s[0].pendingOn <= now {
      var t, rest := Next(s[0], now), s[1..];
      NextLater(s[0], now);
      NextTells(s[0], now);
      InsertLaterDue(rest, t, now);
      InsertMembers(rest, t);
      assert s[0] in s && forall u | u in rest :: u in s;
      assert Tells(s[0], es);
      PassTells(Insert(rest, t), now, es);
    }
  }

  /** A pass fires ticks of the queue only, all due. */
  lemma {:induction false} FiredMembers(s: seq<Tick>, now: u32)
    requires ClockFits(now)
    ensures forall t | t in Fired(s, now) :: t in s && t.pendingOn <= now
    decreases Due(s, now)
  {
    hide Insert, Next;
    if s != [] && s[0].pendingOn <= now {
      var t, rest := Next(s[0], now), s[1..];
      NextLater(s[0], now);
      InsertLaterDue(rest, t, now);
      InsertMembers(rest, t);
      FiredMembers(Insert(rest, t), now);
    }
  }

  lemma MoreEvents(es: seq<Event>, s: seq<Tick>)
    requires es != [] && AllTell(s, es[..|es| - 1]) && !es[|es| - 1].Corrected?
    requires (es[|es| - 1].Registered? || es[|es| - 1].TimestampChanged?) ==> forall t | t in s :: t.id != es[|es| - 1].id
    ensures AllTell(s, es)
  {
    hide Shows;
    assert LastCorrection(es) == LastCorrection(es[..|es| - 1]);
    forall t | t in s ensures Tells(t, es) {
      assert Tells(t, es[..|es| - 1]);
    }
  }

  lemma CorrectedTells(s: seq<Tick>, es: seq<Event>, now: u32)
    requires es != [] && es[|es| - 1] == Corrected(now) && AllTell(s, es[..|es| - 1])
    ensures AllTell(Recomputed(s, now), es)
  {
    hide Shows, Relative;
    RecomputedSame(s, now);
    var r := Recomputed(s, now);
    forall t | t in r ensures Tells(t, es) {
      var k :| 0 <= k < |r| && r[k] == t;
      assert Tells(s[k], es[..|es| - 1]);
      ShowsExact(t.diff, now, t.val);
    }
  }

  lemma AddedTells(s: seq<Tick>, es: seq<Event>, id: nat, val: u32, now: u32)
    requires es != [] && (es[|es| - 1] == Registered(id, val) || es[|es| - 1] == TimestampChanged(id, val))
    requires AllTell(s, es)
    ensures AllTell(Insert(s, Next(NewTick(id, val, now), now)), es)
  {
    hide Shows, Insert;
    var t := Next(NewTick(id, val, now), now);
    NextTells(NewTick(id, val, now), now);
    InsertMembers(s, t);
  }

  /** In every run each tick queued is about the value its subscriber gave last, and tells it as it is at
      the time the tick is due, or as it was at the last correction of the clock. */
  lemma {:induction false} QueueTells(now: u32, es: seq<Event>)
    requires AllFit(es) && FreshIds(es)
    ensures AllTell(Run(Clock(now, []), es).queue, es)
    decreases |es|
  {
    hide AllTell, Insert, Remove, Count, Relative, Shows;
    if es == [] {
      NothingTells();
    } else {
      var init, last := es[..|es| - 1], es[|es| - 1];
      QueueTells(now, init);
      OneTickEach(now, init);
      var c := Run(Clock(now, []), init);
      match last
      case Registered(id, val) =>
        NotCounted(c.queue, id);
        MoreEvents(es, c.queue);
        AddedTells(c.queue, es, id, val, c.now);
      case TimestampChanged(id, val) =>
        RemoveMembers(c.queue, id);
        FewerTell(c.queue, Remove(c.queue, id), init);
        MoreEvents(es, Remove(c.queue, id));
        AddedTells(Remove(c.queue, id), es, id, val, c.now);
      case Disconnected(id) =>
        RemoveMembers(c.queue, id);
        FewerTell(c.queue, Remove(c.queue, id), init);
        MoreEvents(es, Remove(c.queue, id));
      case Ticked(n) =>
        PassTells(c.queue, n, init);
        MoreEvents(es, Pass(c.queue, n));
      case Corrected(n) => CorrectedTells(c.queue, es, n);
    }
  }

  lemma NothingTells()
    ensures AllTell([], [])
  {
  }

  lemma FewerTell(s: seq<Tick>, r: seq<Tick>, es: seq<Event>)
    requires AllTell(s, es) && forall u | u in r :: u in s
    ensures AllTell(r, es)
  {
  }

  /** In every run without a correction, what a pass tells each subscriber is its value as it is when the
      tick was due. */
  lemma FiredShow(now: u32, es: seq<Event>, n: u32)
    requires AllFit(es) && FreshIds(es) && ClockFits(n) && LastCorrection(es).None?
    ensures forall t | t in Fired(Run(Clock(now, []), es).queue, n) ::
              ValueOf(es, t.id) == Some(t.val) && t.pendingOn <= n && Shows(t.diff, t.pendingOn, t.val)
  {
    hide Shows, Fired, Run;
    QueueTells(now, es);
    FiredMembers(Run(Clock(now, []), es).queue, n);
  }

  /** Exact: after a correction a tick tells what will be so when it is due iff that is what is so already. */
  lemma CorrectedExact(s: seq<Tick>, now: u32, k: nat)
    requires k < |s|
    ensures var t := Recomputed(s, now)[k];
            && t.id == s[k].id && t.val == s[k].val && t.pendingOn == s[k].pendingOn && Shows(t.diff, now, t.val)
            && (Shows(t.diff, t.pendingOn, t.val) <==> Relative(now, t.val) == Relative(t.pendingOn, t.val))
  {
    hide Shows, Relative;
    RecomputedSame(s, now);
    var t := Recomputed(s, now)[k];
    ShowsExact(t.diff, now, t.val);
    ShowsExact(t.diff, t.pendingOn, t.val);
  }

  /** A run in which a subscriber is told at the turn of the minute what was so before: three minutes
      where it has become four. */
  lemma CorrectionLags()
    ensures var es := [Registered(1, 60), Corrected(250)];
            && AllFit(es)
            && var s := Run(Clock(240, []), es).queue;
               && s == [Tick(1, 60, 300, RelativeTime(false, 3, Minutes))] && Fired(s, 300) == s
               && Shows(RelativeTime(false, 4, Minutes), 300, 60)
  {
    hide Fired;
    var es := [Registered(1, 60), Corrected(250)];
    var t := Tick(1, 60, 300, RelativeTime(false, 3, Minutes));
    assert es[..1] == [Registered(1, 60)];
    OneRegistered();
    assert [Tick(1, 60, 300, Relative(300, 60))][1..] == [];
    assert Relative(250, 60) == RelativeTime(false, 3, Minutes);
    assert Run(Clock(240, []), es).queue == [t];
    FiredOne(t, 300);
    ShowsExact(RelativeTime(false, 4, Minutes), 300, 60);
  }

  lemma OneRegistered()
    ensures Run(Clock(240, []), [Registered(1, 60)]) == Clock(240, [Tick(1, 60, 300, Relative(300, 60))])
  {
    var first := [Registered(1, 60)];
    assert first[..0] == [];
    assert Next(NewTick(1, 60, 240), 240) == Tick(1, 60, 300, Relative(300, 60));
  }

  lemma FiredOne(t: Tick, now: u32)
    requires ClockFits(now) && t.pendingOn <= now
    ensures Fired([t], now) == [t]
  {
    hide Next;
    NextLater(t, now);
    InsertLaterDue([], Next(t, now), now);
    assert [t][1..] == [];
    assert Insert([], Next(t, now)) == [Next(t, now)];
  }
}
