/** A run in which an edit is shared with the index after one that was not. */
module Withholding {
  import opened MachineInts
  import opened TextDiff
  import opened PostBody
  import opened Messages
  import opened FeedState
  import opened Writer
  import I = ThreadIndex
  import D = Divergence
  import opened Sharing
  import TF = ThreadFeed
  import W = Watching
  import C = Convergence

  const BASE := I.ThreadData(I.Thread(1, 0, 0, [], [], 1, 2, 0), D.First(Empty))

  const START := D.FeedWith(Mutable(D.First(Empty), None), map[], false)

  const CLIENT := W.Start(D.Asked(None, map[]))

  const NEXT_PATCH := PatchBodyMsg(D.REPLY, PatchText(Make("a", "ab")))

  const HIDDEN := [TF.Mutation(D.REPLY, D.PATCH.patch, Text("a"))]

  const SHARED := [TF.Mutation(D.REPLY, NEXT_PATCH.patch, Text("ab"))]

  const SENT := ChangeSet(1, [NEXT_PATCH], [BodySet(D.REPLY, Text("ab"), false)])

  /** The reply is edited while the lowest recent id is above it, and again when that has fallen. */
  function FallingEvent(k: nat): Event {
    if k == 0 then Event(C.Subscribe(D.ME, D.Asked(None, map[])), 0, [])
    else if k == 1 then Event(C.SetBodyOf(0, D.REPLY, "a"), 0, [])
    else if k == 2 then Event(C.PulseWith(D.ChoiceOf(D.PATCH)), 100, HIDDEN)
    else if k == 3 then Event(C.SetBodyOf(0, D.REPLY, "ab"), 100, [])
    else Event(C.PulseWith(D.ChoiceOf(NEXT_PATCH)), 0, SHARED)
  }

  ghost function Late(): W.Watch {
    W.Observe(CLIENT, 1, D.PATCH)
  }

  ghost function FallingState(k: nat): Side {
    var nothing := Global([], []);
    if k == 0 then Side(C.System(START, {}, map[]), nothing, [], BASE, {}, 0)
    else if k == 1 then Side(C.System(START, {D.ME}, map[D.ME := CLIENT]), nothing, [], BASE, {}, 0)
    else if k == 2 then Side(C.System(D.Edited(Empty, None, "a"), {D.ME}, map[D.ME := CLIENT]), nothing, [], BASE, {}, 0)
    else if k == 3 then Side(C.System(D.Flushed("a"), {D.ME}, map[D.ME := Late()]), nothing, [], BASE, {D.REPLY}, 100)
    else if k == 4 then
      Side(C.System(D.Edited(Text("a"), None, "ab"), {D.ME}, map[D.ME := Late()]), nothing, [], BASE, {D.REPLY}, 100)
    else
      Side(C.System(D.Flushed("ab"), {D.ME}, map[D.ME := W.Observe(Late(), 1, NEXT_PATCH)]), nothing, [SENT], BASE, {D.REPLY}, 0)
  }

  ghost predicate Falls(k: nat) {
    Sound(FallingState(k), FallingEvent(k)) && FallingState(k + 1) == Next(FallingState(k), FallingEvent(k))
  }

  lemma FirstSteps()
    ensures Falls(0) && Falls(1)
  {
    hide I.ApplyAll;
  }

  lemma FourthStep()
    ensures Falls(3)
  {
    hide I.ApplyAll, W.Observe;
  }

  lemma BatchParsed(was: Node, text: string, m: TF.Mutation, patch: ServerMsg)
    requires m.id == D.REPLY && m.body == Text(text) && patch == PatchBodyMsg(D.REPLY, m.patch)
    ensures TF.Announce([m]) == [patch]
    ensures TF.Parsed(BeforeDiff(D.Edited(was, None, text), D.ChoiceOf(patch)), D.PARSE, [m])
  {
    hide BeforeDiff;
    assert [m][..0] == [];
    var f := D.Edited(was, None, text);
    D.NothingLoaded(was, None, text, patch);
    var before := BeforeDiff(f, D.ChoiceOf(patch));
    assert D.PARSE(text) == Text(text);
    assert TF.ParsedAt(before, D.PARSE, 0, m);
  }

  lemma HiddenStep()
    ensures Falls(2)
  {
    hide C.Sound, C.Next, W.Observe, BeforeDiff, I.ApplyAll, TF.Parsed, TF.Announce, PatchStream;
    var s := FallingState(2);
    D.PatchIsTheStream();
    D.EditFlushed(s.thread, CLIENT, Empty, None, "a", D.PATCH);
    BatchParsed(Empty, "a", HIDDEN[0], D.PATCH);
    HiddenTold();
  }

  lemma HiddenTold()
    ensures TF.Shared(Global([], []), 1, HIDDEN, 100) == Global([], [])
    ensures Kept(1, HIDDEN, 100) == {D.REPLY}
  {
    assert HIDDEN[..0] == [];
    assert HIDDEN[0] in HIDDEN;
  }

  lemma SharedTold()
    ensures TF.Shared(Global([], []), 1, SHARED, 0) == Global([NEXT_PATCH], [BodySet(D.REPLY, Text("ab"), false)])
    ensures Kept(1, SHARED, 0) == {}
  {
    hide Make;
    assert SHARED[..0] == [];
  }

  lemma NextPatchStream()
    ensures PatchStream(D.REPLY, Text("a"), Text("ab")) == [NEXT_PATCH]
  {
    hide Make;
    assert |"a"| != |"ab"|;
  }

  lemma SharedStep()
    ensures Falls(4)
  {
    hide C.Sound, C.Next, W.Observe, BeforeDiff, I.ApplyAll, TF.Parsed, TF.Announce, PatchStream, Make, Kept, TF.Shared;
    var s := FallingState(4);
    NextPatchStream();
    D.EditFlushed(s.thread, Late(), Text("a"), None, "ab", NEXT_PATCH);
    BatchParsed(Text("a"), "ab", SHARED[0], NEXT_PATCH);
    SharedTold();
    assert [] + [SENT] == [SENT] && {D.REPLY} + {} == {D.REPLY};
  }

  lemma FallingStarts()
    ensures Init(FallingState(0))
  {
  }

  lemma NotFollowed()
    ensures !I.AllTell(BASE, SENT.message, SENT.changes)
  {
    hide Make;
    I.TellsOne(BASE, NEXT_PATCH, BodySet(D.REPLY, Text("ab"), false));
    assert PatchNode(Empty, NEXT_PATCH.patch).error.Some?;
  }

  /** The set sent holds a patch of a text the index has never been told of: it still shows the reply
      empty, and so does everyone who reads it. */
  lemma SharedTooLate()
    ensures var states := seq(6, k requires 0 <= k < 6 => FallingState(k));
            var events := seq(5, k requires 0 <= k < 5 => FallingEvent(k));
            Run(states, events)
    ensures FallingState(5).sent == [SENT] && !I.AllTell(BASE, SENT.message, SENT.changes)
    ensures FallingState(5).base == BASE && D.REPLY in BASE.posts && BASE.posts[D.REPLY].body == Empty
  {
    hide FallingState, FallingEvent, Next, Sound, Init;
    var states := seq(6, k requires 0 <= k < 6 => FallingState(k));
    var events := seq(5, k requires 0 <= k < 5 => FallingEvent(k));
    FallingStarts();
    FirstSteps();
    HiddenStep();
    FourthStep();
    SharedStep();
    NotFollowed();
    FallingEnds();
    forall k | 0 <= k < 5 ensures Sound(states[k], events[k]) && states[k + 1] == Next(states[k], events[k]) {
      assert Falls(k);
    }
  }

  lemma FallingEnds()
    ensures FallingState(5).sent == [SENT] && FallingState(5).base == BASE
    ensures D.REPLY in BASE.posts && BASE.posts[D.REPLY].body == Empty
  {
    hide W.Observe;
  }
}
