/** Prefix/suffix patches between two versions of a text (`TextPatch`). */
module TextDiff {
  import opened MachineInts

  type Chars = seq<char>

  datatype TextPatch = TextPatch(position: u16, remove: u16, insert: Chars)

  // ----- the generator -----

  /** Number of leading characters two texts share, the first `n` of which are already counted. */
  function SharedPrefix(a: Chars, b: Chars, n: nat := 0): (r: nat)
    requires n <= |a| && n <= |b|
    requires forall i :: 0 <= i < n ==> a[i] == b[i]
    ensures n <= r <= |a| && r <= |b|
    ensures forall i :: 0 <= i < r ==> a[i] == b[i]
    ensures r < |a| && r < |b| ==> a[r] != b[r]
    decreases |a| - n
  {
    if n < |a| && n < |b| && a[n] == b[n] then SharedPrefix(a, b, n + 1) else n
  }

  /** Number of trailing characters two texts share, not reaching into the first `start`. */
  function SharedSuffix(a: Chars, b: Chars, start: nat, n: nat := 0): (r: nat)
    requires start + n <= |a| && start + n <= |b|
    requires forall j :: |a| - n <= j < |a| ==> a[j] == b[j - |a| + |b|]
    ensures n <= r && start + r <= |a| && start + r <= |b|
    ensures forall j :: |a| - r <= j < |a| ==> a[j] == b[j - |a| + |b|]
    ensures start + r < |a| && start + r < |b| ==> a[|a| - 1 - r] != b[|b| - 1 - r]
    decreases |a| - n
  {
    if start + n < |a| && start + n < |b| && a[|a| - 1 - n] == b[|b| - 1 - n]
    then SharedSuffix(a, b, start, n + 1)
    else n
  }

  /** Every character is the same as the one `p` places on. */
  predicate Periodic(s: Chars, p: nat) {
    forall i :: 0 <= i && i + p < |s| ==> s[i] == s[i + p]
  }

  /** How two texts split around the single stretch in which they differ. */
  datatype Split = Split(head: Chars, removed: Chars, inserted: Chars, tail: Chars) {
    function Before(): Chars { head + removed + tail }

    function After(): Chars { head + inserted + tail }

    /** The two middles share neither a first nor a last character. */
    predicate Trimmed() {
      removed != [] && inserted != [] ==>
        && removed[0] != inserted[0]
        && removed[|removed| - 1] != inserted[|inserted| - 1]
    }

    /** The end of the head that the truncated start leaves out: nothing if the head has at most 65535
        characters, and whole multiples of 65536 otherwise. */
    function Overrun(): Chars { head[AsU16(|head|)..] }

    /** What is left out repeats itself in step with the edit, so that starting there makes no
        difference: characters taken out of a run of the same, or put in. A replacement never does. */
    predicate RepeatsOverrun() {
      || Overrun() == []
      || (inserted == [] && Periodic(Overrun() + removed, |removed|))
      || (removed == [] && Periodic(Overrun() + inserted, |inserted|)
                        && Periodic(Overrun() + inserted, |Overrun()|))
    }

    function Patch(): TextPatch {
      TextPatch(AsU16(|head|), AsU16(|removed|), inserted)
    }
  }

  function SplitOf(prev: Chars, next: Chars): Split {
    var start := SharedPrefix(prev, next);
    var end := SharedSuffix(prev, next, start);
    Split(prev[..start], prev[start..|prev| - end], next[start..|next| - end], prev[|prev| - end..])
  }

  /** The split loses nothing and is maximally trimmed. */
  lemma SplitParts(prev: Chars, next: Chars)
    ensures SplitOf(prev, next).Before() == prev
    ensures SplitOf(prev, next).After() == next
    ensures SplitOf(prev, next).Trimmed()
  {
    var start := SharedPrefix(prev, next);
    var end := SharedSuffix(prev, next, start);
    PartsAt(prev, next, start, end);
  }

  /** Exact: of all ways to split two texts this is the one whose head is the longest they share, and whose
      tail is the longest the rest of them share. */
  lemma SplitExact(prev: Chars, next: Chars, s: Split)
    ensures s == SplitOf(prev, next) <==>
              && s.Before() == prev && s.After() == next && s.Trimmed()
              && (s.removed + s.tail == [] || s.inserted + s.tail == [] || prev[|s.head|] != next[|s.head|])
  {
    var t := SplitOf(prev, next);
    SplitParts(prev, next);
    HeadIs(prev, next, t);
    if s.Before() == prev && s.After() == next && s.Trimmed() {
      HeadIs(prev, next, s);
      if |s.head| == |t.head| {
        SameTails(prev, next, s, t);
      }
    }
  }

  /** How long the head is. */
  lemma HeadIs(prev: Chars, next: Chars, s: Split)
    requires s.Before() == prev && s.After() == next
    ensures |s.head| <= |prev| && |s.head| <= |next|
    ensures s.removed + s.tail == [] || s.inserted + s.tail == [] || prev[|s.head|] != next[|s.head|]
            <==> |s.head| == SharedPrefix(prev, next)
  {
    SamePlaces(prev, next, s);
  }

  lemma SamePlaces(prev: Chars, next: Chars, s: Split)
    requires s.Before() == prev && s.After() == next
    ensures |prev| == |s.head| + |s.removed| + |s.tail| && |next| == |s.head| + |s.inserted| + |s.tail|
    ensures s.head == prev[..|s.head|] == next[..|s.head|]
    ensures s.removed == prev[|s.head|..|prev| - |s.tail|] && s.inserted == next[|s.head|..|next| - |s.tail|]
    ensures s.tail == prev[|prev| - |s.tail|..] == next[|next| - |s.tail|..]
    ensures forall i | 0 <= i < |s.head| :: prev[i] == next[i]
    ensures forall j | |prev| - |s.tail| <= j < |prev| :: prev[j] == next[j - |prev| + |next|]
  {
    forall i | 0 <= i < |s.head| ensures prev[i] == next[i] {
      assert prev[i] == s.head[i] && next[i] == s.head[i];
    }
    forall j | |prev| - |s.tail| <= j < |prev| ensures prev[j] == next[j - |prev| + |next|] {
      var k := j - |prev| + |s.tail|;
      assert prev[j] == s.tail[k] && next[j - |prev| + |next|] == s.tail[k];
    }
  }

  lemma SameTails(prev: Chars, next: Chars, s: Split, t: Split)
    requires s.Before() == t.Before() == prev && s.After() == t.After() == next
    requires s.Trimmed() && t.Trimmed() && |s.head| == |t.head|
    ensures s == t
  {
    SamePlaces(prev, next, s);
    SamePlaces(prev, next, t);
    TailNoShorter(prev, next, s, t);
    TailNoShorter(prev, next, t, s);
  }

  lemma LastChars(prev: Chars, next: Chars, s: Split)
    requires s.Before() == prev && s.After() == next && s.removed != [] && s.inserted != []
    ensures s.removed[|s.removed| - 1] == prev[|prev| - (|s.tail| + 1)]
    ensures s.inserted[|s.inserted| - 1] == next[|next| - (|s.tail| + 1)]
  {
    SamePlaces(prev, next, s);
  }

  lemma TailNoShorter(prev: Chars, next: Chars, s: Split, t: Split)
    requires s.Before() == t.Before() == prev && s.After() == t.After() == next
    requires s.Trimmed() && |s.head| == |t.head|
    ensures |t.tail| <= |s.tail|
  {
    SamePlaces(prev, next, s);
    SamePlaces(prev, next, t);
    if s.removed != [] && s.inserted != [] {
      LastChars(prev, next, s);
    }
  }

  lemma PartsAt(prev: Chars, next: Chars, start: nat, end: nat)
    requires start + end <= |prev| && start + end <= |next|
    requires forall i :: 0 <= i < start ==> prev[i] == next[i]
    requires forall j :: |prev| - end <= j < |prev| ==> prev[j] == next[j - |prev| + |next|]
    requires start < |prev| && start < |next| ==> prev[start] != next[start]
    requires start + end < |prev| && start + end < |next|
             ==> prev[|prev| - 1 - end] != next[|next| - 1 - end]
    ensures var s := Split(prev[..start], prev[start..|prev| - end], next[start..|next| - end], prev[|prev| - end..]);
            s.Before() == prev && s.After() == next && s.Trimmed()
  {
    Cut(prev, start, |prev| - end);
    Cut(next, start, |next| - end);
    SameEnds(prev, next, start, end);
  }

  lemma SameEnds(prev: Chars, next: Chars, start: nat, end: nat)
    requires start + end <= |prev| && start + end <= |next|
    requires forall i :: 0 <= i < start ==> prev[i] == next[i]
    requires forall j :: |prev| - end <= j < |prev| ==> prev[j] == next[j - |prev| + |next|]
    ensures prev[..start] == next[..start]
    ensures prev[|prev| - end..] == next[|next| - end..]
  {
  }

  lemma Cut(s: Chars, i: nat, j: nat)
    requires i <= j <= |s|
    ensures s == s[..i] + s[i..j] + s[j..]
  {
  }

  /** `TextPatch::new` */
  function Make(prev: Chars, next: Chars): TextPatch {
    SplitOf(prev, next).Patch()
  }

  // ----- application -----

  function Clamp(n: nat, max: nat): (r: nat)
    ensures r <= max
  {
    if n <= max then n else max
  }

  /** Splice with both bounds clamped to the source. */
  function Spliced(p: TextPatch, src: Chars): Chars {
    src[..Clamp(p.position, |src|)] + p.insert + src[Clamp(p.position + p.remove, |src|)..]
  }

  /** `TextPatch::apply`: drains the source iterator step by step into `dst`. */
  method Apply(p: TextPatch, dst: Chars, src: Chars) returns (out: Chars)
    ensures out == dst + Spliced(p, src)
  {
    out := dst;
    var it := 0;
    for k := 0 to p.position
      invariant it == Clamp(k, |src|)
      invariant out == dst + src[..it]
    {
      if it < |src| {
        out := out + [src[it]];
        it := it + 1;
      }
    }
    out := out + p.insert;
    var skip := Clamp(it + p.remove, |src|);
    out := out + src[skip..];
    assert skip == Clamp(p.position + p.remove, |src|);
  }

  predicate RoundTrips(prev: Chars, next: Chars) {
    Spliced(Make(prev, next), prev) == next
  }

  /** What a patch made from a split does to the text before it, truncation included. */
  lemma SplicedSplit(s: Split)
    ensures var at := AsU16(|s.head|); var cut := AsU16(|s.removed|);
            Spliced(s.Patch(), s.Before())
            == s.head[..at] + s.inserted + (s.head + s.removed)[at + cut..] + s.tail
  {
    var at := AsU16(|s.head|);
    var cut := AsU16(|s.removed|);
    var before := s.head + s.removed;
    assert at + cut <= |before|;
    assert s.Before()[..at] == s.head[..at];
    assert s.Before()[at + cut..] == before[at + cut..] + s.tail;
  }

  /** As long as neither length is truncated the patch turns one text into the other. */
  lemma RoundTrip(s: Split)
    requires |s.head| <= U16_MAX && |s.removed| <= U16_MAX
    ensures Spliced(s.Patch(), s.Before()) == s.After()
  {
    SplicedSplit(s);
  }

  /** A removal of more than 65535 characters is always truncated away. */
  lemma LongRemovalFails(s: Split)
    requires |s.removed| > U16_MAX
    ensures Spliced(s.Patch(), s.Before()) != s.After()
  {
    SplicedSplit(s);
  }

  /** Exact: every edit of `prev` survives the 16-bit fields iff `prev` has at most 65535 chars. */
  lemma RoundTripExact(prev: Chars)
    ensures (forall next :: RoundTrips(prev, next)) <==> |prev| <= U16_MAX
  {
    if |prev| <= U16_MAX {
      forall next ensures RoundTrips(prev, next) {
        SplitParts(prev, next);
        RoundTrip(SplitOf(prev, next));
      }
    } else {
      SplitParts(prev, []);
      LongRemovalFails(SplitOf(prev, []));
      assert !RoundTrips(prev, []);
    }
  }

  /** Exact, for one edit: the removal fits, and the start either fits or what it leaves out repeats
      itself in step with the edit. */
  lemma RoundTripExactFor(prev: Chars, next: Chars)
    ensures RoundTrips(prev, next) <==>
              |SplitOf(prev, next).removed| <= U16_MAX && SplitOf(prev, next).RepeatsOverrun()
  {
    hide Spliced, SplitOf;
    SplitParts(prev, next);
    ExactForSplit(SplitOf(prev, next));
  }

  lemma ExactForSplit(s: Split)
    requires s.Trimmed()
    ensures Spliced(s.Patch(), s.Before()) == s.After() <==> |s.removed| <= U16_MAX && s.RepeatsOverrun()
  {
    hide Spliced, Periodic;
    if |s.removed| > U16_MAX {
      LongRemovalFails(s);
    } else {
      ShiftExact(s);
      RepeatsExact(s.Overrun(), s.removed, s.inserted);
    }
  }

  /** The splice equation, without the parts that play no role. */
  lemma ShiftExact(s: Split)
    requires |s.removed| <= U16_MAX
    ensures Spliced(s.Patch(), s.Before()) == s.After() <==>
              s.inserted + (s.Overrun() + s.removed)[|s.removed|..] == s.Overrun() + s.inserted
  {
    hide Spliced;
    SplicedSplit(s);
    var at := AsU16(|s.head|);
    var shifted := (s.head + s.removed)[at + |s.removed|..];
    assert shifted == (s.Overrun() + s.removed)[|s.removed|..];
    assert s.head[..at] + s.inserted + shifted + s.tail
        == s.head[..at] + (s.inserted + shifted) + s.tail;
    assert s.head + s.inserted == s.head[..at] + (s.Overrun() + s.inserted);
    assert s.After() == s.head[..at] + (s.Overrun() + s.inserted) + s.tail;
    SameFrame(s.head[..at], s.inserted + shifted, s.Overrun() + s.inserted, s.tail);
  }

  /** Solutions of the equation. */
  lemma RepeatsExact(over: Chars, removed: Chars, inserted: Chars)
    requires removed != [] && inserted != [] ==> removed[|removed| - 1] != inserted[|inserted| - 1]
    ensures inserted + (over + removed)[|removed|..] == over + inserted <==>
              || over == []
              || (inserted == [] && Periodic(over + removed, |removed|))
              || (removed == [] && Periodic(over + inserted, |inserted|) && Periodic(over + inserted, |over|))
  {
    if over == [] {
      assert (over + removed)[|removed|..] == [];
    } else if inserted == [] {
      RemovalRepeats(over, removed);
    } else if removed == [] {
      InsertionRepeats(over, inserted);
    } else {
      var shifted := inserted + (over + removed)[|removed|..];
      assert shifted[|shifted| - 1] == removed[|removed| - 1];
      assert (over + inserted)[|shifted| - 1] == inserted[|inserted| - 1];
    }
  }

  lemma RemovalRepeats(over: Chars, removed: Chars)
    ensures [] + (over + removed)[|removed|..] == over + [] <==> Periodic(over + removed, |removed|)
  {
    var all := over + removed;
    assert [] + all[|removed|..] == all[|removed|..] && over + [] == over;
    if all[|removed|..] == over {
      forall i | 0 <= i && i + |removed| < |all| ensures all[i] == all[i + |removed|] {
        assert all[|removed|..][i] == over[i];
      }
    }
    if Periodic(all, |removed|) {
      forall i | 0 <= i < |over| ensures all[|removed|..][i] == over[i] {
        assert all[i] == all[i + |removed|];
      }
    }
  }

  lemma InsertionRepeats(over: Chars, inserted: Chars)
    ensures inserted + (over + [])[0..] == over + inserted <==>
              Periodic(over + inserted, |inserted|) && Periodic(over + inserted, |over|)
  {
    var all := over + inserted;
    assert (over + [])[0..] == over;
    if inserted + over == all {
      forall i | 0 <= i && i + |inserted| < |all| ensures all[i] == all[i + |inserted|] {
        assert (inserted + over)[i + |inserted|] == over[i];
      }
      forall i | 0 <= i && i + |over| < |all| ensures all[i] == all[i + |over|] {
        assert (inserted + over)[i] == inserted[i];
      }
    }
    if Periodic(all, |inserted|) && Periodic(all, |over|) {
      forall k | 0 <= k < |all| ensures (inserted + over)[k] == all[k] {
        if k < |inserted| {
          assert all[k] == all[k + |over|];
        } else {
          assert all[k - |inserted|] == all[k - |inserted| + |inserted|];
        }
      }
      assert inserted + over == all;
    }
  }

  lemma SameFrame(a: Chars, x: Chars, y: Chars, b: Chars)
    requires |x| == |y|
    ensures a + x + b == a + y + b <==> x == y
  {
    assert (a + x + b)[|a|..|a| + |x|] == x;
    assert (a + y + b)[|a|..|a| + |y|] == y;
  }

  /** A patch between different texts is never the no-op the server refuses, starts inside the old
      text and inserts no more than the new one holds. */
  lemma PatchShape(prev: Chars, next: Chars)
    requires |prev| <= U16_MAX && prev != next
    ensures var p := Make(prev, next);
            && (p.insert != [] || p.remove > 0)
            && p.position + p.remove <= |prev|
            && |p.insert| <= |next|
  {
    SplitParts(prev, next);
    SplitPatchShape(SplitOf(prev, next));
  }

  lemma SplitPatchShape(s: Split)
    requires |s.Before()| <= U16_MAX && s.Before() != s.After()
    ensures s.inserted != [] || s.removed != []
    ensures s.Patch() == TextPatch(|s.head|, |s.removed|, s.inserted)
  {
  }
}
