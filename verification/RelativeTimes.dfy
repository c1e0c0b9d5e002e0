/** Relative timestamps: choosing a unit, and when the shown value can change next. */
module RelativeTimes {
  import opened MachineInts

  datatype Unit = Seconds | Minutes | Hours | Days | Months | Years

  const BY_RANK: seq<Unit> := [Seconds, Minutes, Hours, Days, Months, Years]

  /** How many of each unit but the last make up one of the next. */
  const MAXIMA: seq<nat> := [60, 60, 24, 30, 12]

  function Rank(u: Unit): (k: nat)
    ensures k < |BY_RANK| && BY_RANK[k] == u
  {
    match u
    case Seconds => 0
    case Minutes => 1
    case Hours => 2
    case Days => 3
    case Months => 4
    case Years => 5
  }

  /** Length of a unit in seconds. */
  function Size(u: Unit): (n: nat)
    ensures 0 < n <= 31104000
  {
    match u
    case Seconds => 1
    case Minutes => 60
    case Hours => 3600
    case Days => 86400
    case Months => 2592000
    case Years => 31104000
  }

  lemma SizeOfNext(k: nat)
    requires k < |MAXIMA|
    ensures Size(BY_RANK[k + 1]) == Size(BY_RANK[k]) * MAXIMA[k] && 0 < MAXIMA[k] <= 60
    ensures Rank(BY_RANK[k]) == k && Rank(BY_RANK[k + 1]) == k + 1
  {
    if k == 0 {
    } else if k == 1 {
    } else if k == 2 {
    } else if k == 3 {
    } else {
    }
  }

  datatype RelativeTime = RelativeTime(isFuture: bool, duration: u8, unit: Unit)

  function Distance(now: u32, val: u32): u32 {
    if now < val then val - now else now - val
  }

  /** The largest unit that fits, or seconds. */
  function LargestUnit(d: u32): Unit {
    if d >= Size(Years) then Years
    else if d >= Size(Months) then Months
    else if d >= Size(Days) then Days
    else if d >= Size(Hours) then Hours
    else if d >= Size(Minutes) then Minutes
    else Seconds
  }

  function Relative(now: u32, val: u32): RelativeTime {
    var d := Distance(now, val);
    RelativeTime(now < val, d / Size(LargestUnit(d)), LargestUnit(d))
  }

  /** The whole units of the distance, none larger would fit, and never more than 138 of them. */
  lemma RelativeBounds(now: u32, val: u32)
    ensures var r := Relative(now, val);
            && r.duration * Size(r.unit) <= Distance(now, val) < (r.duration + 1) * Size(r.unit)
            && (forall u: Unit | Size(u) <= Distance(now, val) :: Rank(u) <= Rank(r.unit))
            && (r.unit != Seconds ==> r.duration > 0)
            && r.duration <= 138
  {
    var d := Distance(now, val);
    match LargestUnit(d)
    case _ => Floor(d, Size(LargestUnit(d)));
  }

  /** What is shown is true: that many whole units back, or ahead, and no larger unit fits. */
  predicate Shows(r: RelativeTime, now: u32, val: u32) {
    && Between(r.isFuture, Span(r.duration, r.unit), Span(r.duration + 1, r.unit), now, val)
    && NoLarger(r.unit, if val > now then val - now else now - val)
    && (r.unit != Seconds ==> r.duration > 0)
  }

  function Span(n: nat, u: Unit): nat {
    n * Size(u)
  }

  predicate Between(isFuture: bool, from: nat, to: nat, now: u32, val: u32) {
    if isFuture then val > now && now + from <= val < now + to else now - to < val <= now - from
  }

  predicate NoLarger(unit: Unit, distance: nat) {
    forall u: Unit | Size(u) <= distance :: Rank(u) <= Rank(unit)
  }

  lemma BetweenIs(isFuture: bool, from: nat, to: nat, now: u32, val: u32)
    ensures Between(isFuture, from, to, now, val) ==> isFuture == (now < val) && from <= Distance(now, val) < to
    ensures from <= Distance(now, val) < to ==> Between(now < val, from, to, now, val)
  {
  }

  /** Exact: of all relative times this is the one that is true. */
  lemma ShowsExact(r: RelativeTime, now: u32, val: u32)
    ensures Shows(r, now, val) <==> r == Relative(now, val)
  {
    hide Between, Size, Span, Distance, LargestUnit, NoLarger;
    var right := Relative(now, val);
    RelativeSpans(now, val);
    DistanceIs(now, val);
    BetweenIs(right.isFuture, Span(right.duration, right.unit), Span(right.duration + 1, right.unit), now, val);
    NoLargerIs(right.unit, now, val);
    if Shows(r, now, val) {
      BetweenIs(r.isFuture, Span(r.duration, r.unit), Span(r.duration + 1, r.unit), now, val);
      LargestIs(Distance(now, val), r.unit, r.duration);
      SpansAre(Distance(now, val), r.duration, r.unit);
    }
  }

  lemma RelativeSpans(now: u32, val: u32)
    ensures var r := Relative(now, val);
            && Span(r.duration, r.unit) <= Distance(now, val) < Span(r.duration + 1, r.unit)
            && (forall u: Unit | Size(u) <= Distance(now, val) :: Rank(u) <= Rank(r.unit))
            && (r.unit != Seconds ==> r.duration > 0)
  {
    hide Distance, LargestUnit, Size;
    RelativeBounds(now, val);
  }

  lemma SpansAre(d: nat, n: nat, u: Unit)
    requires Span(n, u) <= d < Span(n + 1, u)
    ensures d / Size(u) == n
  {
    hide Size;
    assert Size(u) * n == n * Size(u) && Size(u) * (n + 1) == (n + 1) * Size(u);
    FloorIs(d, n, Size(u));
  }

  lemma DistanceIs(now: u32, val: u32)
    ensures Distance(now, val) == if val > now then val - now else now - val
  {
  }

  lemma NoLargerIs(unit: Unit, now: u32, val: u32)
    requires forall u: Unit | Size(u) <= Distance(now, val) :: Rank(u) <= Rank(unit)
    ensures NoLarger(unit, Distance(now, val))
  {
  }

  lemma LargestIs(d: u32, u: Unit, n: nat)
    requires Span(n, u) <= d && (u != Seconds ==> n > 0)
    requires NoLarger(u, d)
    ensures u == LargestUnit(d)
  {
    if u != Seconds {
      Monotone(Size(u), 1, n);
      assert Size(u) * 1 <= n * Size(u);
    }
    assert Size(LargestUnit(d)) <= d || LargestUnit(d) == Seconds;
    assert Rank(LargestUnit(d)) <= Rank(u);
    assert Rank(u) <= Rank(LargestUnit(d));
  }

  lemma Floor(d: nat, n: nat)
    requires n > 0
    ensures d / n * n <= d < (d / n + 1) * n
  {
  }

  lemma {:induction false} FloorFloor(d: nat, t: nat, n: nat, m: nat)
    requires n > 0 && m > 0 && n * t <= d < n * (t + 1)
    ensures n * m * (t / m) <= d < n * m * (t / m + 1)
  {
    var q := t / m;
    assert m * q <= t < m * (q + 1) by {
      Floor(t, m);
    }
    Monotone(n, m * q, t);
    Monotone(n, t + 1, m * (q + 1));
    assert n * (m * q) == n * m * q && n * (m * (q + 1)) == n * m * (q + 1);
  }

  lemma Monotone(n: nat, a: nat, b: nat)
    requires a <= b
    ensures n * a <= n * b
  {
  }

  lemma FloorIs(d: nat, q: nat, n: nat)
    requires n > 0 && n * q <= d < n * (q + 1)
    ensures d / n == q
  {
    Floor(d, n);
    if d / n < q {
      Monotone(n, d / n + 1, q);
    } else if q < d / n {
      Monotone(n, q + 1, d / n);
    }
  }

  /** Truncating cast to 8 bits. */
  function AsU8(n: nat): u8 {
    n % 0x100
  }

  /** `RelativeTime::new`: divide by one unit after another while it is exceeded. */
  method NewRelativeTime(now: u32, val: u32) returns (r: RelativeTime)
    ensures r == Relative(now, val) && Shows(r, now, val)
  {
    ShowsExact(Relative(now, val), now, val);
    hide Shows;
    var time := now as int - val as int;
    var isFuture := false;
    if time < 0 {
      time := -time;
      isFuture := true;
    }
    ghost var d := Distance(now, val);
    RelativeBounds(now, val);
    for k := 0 to |MAXIMA|
      invariant 0 <= time && isFuture == (now < val)
      invariant Size(BY_RANK[k]) * time <= d < Size(BY_RANK[k]) * (time + 1)
      invariant k > 0 ==> time > 0
    {
      SizeOfNext(k);
      if time < MAXIMA[k] {
        UnitFound(d, time, k);
        return RelativeTime(isFuture, AsU8(time), BY_RANK[k]);
      }
      FloorFloor(d, time, Size(BY_RANK[k]), MAXIMA[k]);
      time := time / MAXIMA[k];
    }
    FloorIs(d, time, Size(Years));
    r := RelativeTime(isFuture, AsU8(time), Years);
  }

  lemma UnitFound(d: u32, time: nat, k: nat)
    requires k < |MAXIMA| && time < MAXIMA[k] && (k > 0 ==> time > 0)
    requires Size(BY_RANK[k]) * time <= d < Size(BY_RANK[k]) * (time + 1)
    ensures LargestUnit(d) == BY_RANK[k] && d / Size(BY_RANK[k]) == time && time < 60
  {
    SizeOfNext(k);
    FloorIs(d, time, Size(BY_RANK[k]));
    Monotone(Size(BY_RANK[k]), time + 1, MAXIMA[k]);
    if k > 0 {
      Monotone(Size(BY_RANK[k]), 1, time);
    }
    assert d < Size(BY_RANK[k + 1]) && (k > 0 ==> d >= Size(BY_RANK[k]));
    if k == 0 {
    } else if k == 1 {
    } else if k == 2 {
    } else if k == 3 {
    } else {
    }
  }
}
