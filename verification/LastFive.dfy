/** The ids of a thread's last posts, as the feed keeps them (`Last5`). */
module LastFive {
  import opened MachineInts

  predicate Ascending(s: seq<u64>) {
    forall i, j | 0 <= i < j < |s| :: s[i] <= s[j]
  }

  function Insert(s: seq<u64>, x: u64): (r: seq<u64>)
    ensures |r| == |s| + 1
  {
    if s == [] || x <= s[0] then [x] + s else [s[0]] + Insert(s[1..], x)
  }

  predicate AtLeast(s: seq<u64>, low: u64) {
    forall i | 0 <= i < |s| :: low <= s[i]
  }

  lemma {:induction false} InsertAtLeast(s: seq<u64>, x: u64, low: u64)
    requires AtLeast(s, low) && low <= x
    ensures AtLeast(Insert(s, x), low)
  {
    if s != [] && x > s[0] {
      InsertAtLeast(s[1..], x, low);
    }
  }

  lemma {:induction false} InsertAscends(s: seq<u64>, x: u64)
    requires Ascending(s)
    ensures Ascending(Insert(s, x))
  {
    if s != [] && x > s[0] {
      InsertAscends(s[1..], x);
      InsertAtLeast(s[1..], x, s[0]);
    }
  }

  lemma {:induction false} InsertKeeps(s: seq<u64>, x: u64)
    ensures multiset(Insert(s, x)) == multiset(s) + multiset{x}
  {
    if s != [] && x > s[0] {
      InsertKeeps(s[1..], x);
      assert s == [s[0]] + s[1..];
    }
  }

  /** `sort_unstable` */
  function Sorted(s: seq<u64>): (r: seq<u64>)
    ensures |r| == |s|
  {
    if s == [] then [] else Insert(Sorted(s[..|s| - 1]), s[|s| - 1])
  }

  lemma {:induction false} SortedIs(s: seq<u64>)
    ensures Ascending(Sorted(s)) && multiset(Sorted(s)) == multiset(s)
  {
    if s != [] {
      var init, last := s[..|s| - 1], s[|s| - 1];
      assert s == init + [last];
      SortedIs(init);
      InsertAscends(Sorted(init), last);
      InsertKeeps(Sorted(init), last);
    }
  }

  lemma ZeroFirst(s: seq<u64>)
    requires 0 in s
    ensures Sorted(s) != [] && Sorted(s)[0] == 0
  {
    SortedIs(s);
    var r := Sorted(s);
    assert 0 in multiset(s);
    assert 0 in multiset(r);
    var i :| 0 <= i < |r| && r[i] == 0;
    assert r[0] <= r[i];
  }

  class Last5 {
    var len: nat
    const arr: array<u64>

    /** The slots beyond those in use start out zero; the first id pushed sorts one of these in front. */
    ghost predicate Valid(first: u64)
      reads this, arr
    {
      && arr.Length == 6 && 1 <= len <= 5
      && (if len == 1 then arr[..] == [first, 0, 0, 0, 0, 0] else arr[0] == 0)
    }

    constructor (first: u64)
      ensures Valid(first) && fresh(arr) && len == 1
    {
      len := 1;
      arr := new u64[6](i => if i == 0 then first else 0);
      new;
      assert arr[..] == [first, 0, 0, 0, 0, 0];
    }

    method Min(ghost first: u64) returns (id: u64)
      requires Valid(first)
      ensures id == if len == 1 then first else 0
    {
      id := arr[0];
    }

    method Max(ghost first: u64) returns (id: u64)
      requires Valid(first)
      ensures id == arr[len - 1]
    {
      id := arr[len - 1];
    }

    /** The comment promises the five largest ids; but the lowest kept is zero from the first push on. */
    method Push(id: u64, ghost first: u64)
      requires Valid(first)
      modifies this, arr
      ensures Valid(first) && len > 1
      ensures len == Pushed(old(arr[..]), old(len), id).0 && arr[..] == Pushed(old(arr[..]), old(len), id).1
    {
      hide Sorted;
      ghost var before := arr[..];
      if len < 5 {
        len := len + 1;
      } else {
        var max := Max(first);
        if id > max {
          return;
        }
      }
      arr[len] := id;
      assert arr[..] == before[len := id];
      ZeroStays(before, len, id);
      SortPrefix(arr, len + 1);
    }
  }

  /** The five ids and the spare slot after a push, with the number of ids counted. */
  function Pushed(s: seq<u64>, len: nat, id: u64): (nat, seq<u64>)
    requires |s| == 6 && 1 <= len <= 5
  {
    if len == 5 && id > s[4] then (len, s)
    else
      var n := if len < 5 then len + 1 else len;
      (n, Sorted(s[n := id][..n + 1]) + s[n := id][n + 1..])
  }

  /** A push keeps the ids there are, in ascending order, with the new one in place of what the spare slot
      held; only an id larger than the fifth is turned away, once there are five. */
  lemma PushedExact(s: seq<u64>, len: nat, id: u64)
    requires |s| == 6 && 1 <= len <= 5
    ensures var (n, t) := Pushed(s, len, id);
            if len == 5 && id > s[4] then n == len && t == s
            else
              && n == (if len < 5 then len + 1 else 5) && |t| == 6 && Ascending(t[..n + 1])
              && multiset(t) + multiset{s[n]} == multiset(s) + multiset{id}
  {
    var (n, t) := Pushed(s, len, id);
    if !(len == 5 && id > s[4]) {
      var put := s[n := id];
      SortedIs(put[..n + 1]);
      assert t[..n + 1] == Sorted(put[..n + 1]);
      assert put == put[..n + 1] + put[n + 1..];
      assert multiset(t) == multiset(put);
    }
  }

  lemma ZeroStays(s: seq<u64>, n: nat, id: u64)
    requires |s| == 6 && 2 <= n <= 5 && (s[0] == 0 || s[1] == 0)
    ensures Sorted(s[n := id][..n + 1])[0] == 0
  {
    var t := s[n := id][..n + 1];
    assert t[0] == s[0] && t[1] == s[1];
    ZeroFirst(t);
  }

  method SortPrefix(a: array<u64>, n: nat)
    requires n <= a.Length
    modifies a
    ensures a[..] == Sorted(old(a[..])[..n]) + old(a[..])[n..]
  {
    hide Sorted;
    ghost var before := a[..];
    assert a[..n] == before[..n];
    var sorted := Sorted(a[..n]);
    for k := 0 to n
      invariant a[..k] == sorted[..k] && a[n..] == before[n..]
    {
      a[k] := sorted[k];
    }
    assert a[..] == a[..n] + a[n..] && sorted[..n] == sorted;
  }
}
