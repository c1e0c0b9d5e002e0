/** Versioned snapshots of a value that is copied only when asked for (`SnapshotSource`). */
module Snapshots {
  import opened PostBody

  datatype Snapshot<T> = Snapshot(version: nat, val: T)

  datatype Source<T> = Source(val: T, version: nat, last: Option<Snapshot<T>>)

  function NewSource<T>(val: T): Source<T> {
    Source(val, 0, None)
  }

  /** A kept snapshot is of the current value and carries the current version. */
  predicate Valid<T(==)>(s: Source<T>) {
    s.last.Some? ==> s.last.value == Snapshot(s.version, s.val)
  }

  // ----- what can be done with a source -----

  datatype Use<T> = Mutated(val: T) | Snapped

  /** The snapshot handed out. */
  function Take<T>(s: Source<T>): Snapshot<T> {
    if s.last.Some? then s.last.value else Snapshot(s.version + 1, s.val)
  }

  function Step<T>(s: Source<T>, u: Use<T>): Source<T> {
    match u
    case Mutated(val) => Source(val, s.version, None)
    case Snapped => Source(s.val, Take(s).version, Some(Take(s)))
  }

  function Run<T>(s: Source<T>, us: seq<Use<T>>): Source<T> {
    if us == [] then s else Step(Run(s, us[..|us| - 1]), us[|us| - 1])
  }

  function Taken<T>(s: Source<T>, us: seq<Use<T>>): seq<Snapshot<T>> {
    if us == [] then []
    else
      Taken(s, us[..|us| - 1]) + if us[|us| - 1].Snapped? then [Take(Run(s, us[..|us| - 1]))] else []
  }

  /** `SnapshotSource == Snapshot` */
  predicate SameVersion<T>(s: Source<T>, t: Snapshot<T>) {
    s.last.Some? && s.version == t.version
  }

  /** Versions start at one, never fall, and each names one value. */
  ghost predicate Consistent<T(!new)>(s: Source<T>, ts: seq<Snapshot<T>>) {
    && Valid(s)
    && (forall k | 0 <= k < |ts| :: 0 < ts[k].version <= s.version)
    && (forall i, j | 0 <= i < j < |ts| ::
          ts[i].version <= ts[j].version && (ts[i].version == ts[j].version ==> ts[i].val == ts[j].val))
    && (forall k | 0 <= k < |ts| && SameVersion(s, ts[k]) :: ts[k].val == s.val)
  }

  lemma StepConsistent<T(!new)>(s: Source<T>, ts: seq<Snapshot<T>>, u: Use<T>)
    requires Consistent(s, ts) && (s.last.Some? ==> s.version > 0)
    ensures Consistent(Step(s, u), ts + if u.Snapped? then [Take(s)] else [])
  {
  }

  lemma {:induction false} VersionsPositive<T>(val: T, us: seq<Use<T>>)
    ensures var s := Run(NewSource(val), us); Valid(s) && (s.last.Some? ==> s.version > 0)
  {
    if us != [] {
      VersionsPositive(val, us[..|us| - 1]);
    }
  }

  /** Two snapshots of one source with equal versions hold equal values, and one that compares equal
      to the source holds its current value. */
  lemma {:induction false} VersionsNameValues<T(!new)>(val: T, us: seq<Use<T>>)
    ensures Consistent(Run(NewSource(val), us), Taken(NewSource(val), us))
  {
    hide Consistent;
    if us == [] {
      NothingTaken(val);
    } else {
      var init := us[..|us| - 1];
      VersionsNameValues(val, init);
      VersionsPositive(val, init);
      StepConsistent(Run(NewSource(val), init), Taken(NewSource(val), init), us[|us| - 1]);
    }
  }

  lemma NothingTaken<T(!new)>(val: T)
    ensures Consistent(NewSource(val), [])
  {
  }

  /** What the uses have last left in the source. */
  function LastVal<T>(val: T, us: seq<Use<T>>): T {
    if us == [] then val
    else match us[|us| - 1]
      case Mutated(v) => v
      case Snapped => LastVal(val, us[..|us| - 1])
  }

  predicate Unmutated<T>(us: seq<Use<T>>) {
    forall k | 0 <= k < |us| :: us[k].Snapped?
  }

  lemma {:induction false} ValIsLast<T>(val: T, us: seq<Use<T>>)
    ensures var s := Run(NewSource(val), us); Valid(s) && s.val == LastVal(val, us)
  {
    if us != [] {
      ValIsLast(val, us[..|us| - 1]);
    }
  }

  /** Mutations drop what is kept, and versions never fall. */
  lemma {:induction false} SinceThen<T>(val: T, us: seq<Use<T>>, i: nat)
    requires i < |us| && us[i].Snapped?
    ensures var taken, s := Take(Run(NewSource(val), us[..i])), Run(NewSource(val), us);
            if Unmutated(us[i..]) then s.last == Some(taken)
            else s.version >= taken.version && (s.last.Some? ==> s.version > taken.version)
  {
    var n := |us| - 1;
    var init, u := us[..n], us[n];
    ValIsLast(val, init);
    if i == n {
      assert us[i..] == [u];
    } else {
      SinceThen(val, init, i);
      assert init[..i] == us[..i];
      assert us[i..] == init[i..] + [u];
      assert us[i..][|us[i..]| - 1] == u && us[i..][..|us[i..]| - 1] == init[i..];
    }
  }

  /** Exact: a snapshot is of the value last left in the source; two of them have the same version, and a
      source compares equal to a snapshot, iff nothing was mutated in between. */
  lemma {:induction false} VersionsExact<T>(val: T, us: seq<Use<T>>, i: nat)
    requires i < |us| && us[i].Snapped?
    ensures var taken, s := Take(Run(NewSource(val), us[..i])), Run(NewSource(val), us);
            && taken.val == LastVal(val, us[..i])
            && (Take(s).version == taken.version <==> Unmutated(us[i..]))
            && (SameVersion(s, taken) <==> Unmutated(us[i..]))
  {
    ValIsLast(val, us[..i]);
    ValIsLast(val, us);
    SinceThen(val, us, i);
  }

  // ----- the container itself -----

  class SnapshotSource<T(==)> {
    var val: T
    var snapshotVersion: nat
    var lastSnapshot: Option<Snapshot<T>>

    function State(): Source<T>
      reads this
    {
      Source(val, snapshotVersion, lastSnapshot)
    }

    constructor (val: T)
      ensures State() == NewSource(val)
    {
      this.val, snapshotVersion, lastSnapshot := val, 0, None;
    }

    /** A mutable borrow, and what it leaves in place. */
    method Mutate(val: T)
      modifies this
      ensures State() == Step(old(State()), Mutated(val))
    {
      lastSnapshot := None;
      this.val := val;
    }

    method TakeSnapshot() returns (s: Snapshot<T>)
      requires Valid(State())
      modifies this
      ensures State() == Step(old(State()), Snapped) && s == Take(old(State()))
    {
      if lastSnapshot.Some? {
        return lastSnapshot.value;
      }
      snapshotVersion := snapshotVersion + 1;
      s := Snapshot(snapshotVersion, val);
      lastSnapshot := Some(s);
    }
  }
}
