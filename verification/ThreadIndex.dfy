/** The global thread index: change sets of threads it does not know yet wait, nothing is reordered. */
module ThreadIndex {
  import opened MachineInts
  import opened PostBody
  import opened Messages

  datatype Thread = Thread(
    id: u64, createdOn: u32, bumpedOn: u32, subject: string, tags: seq<string>,
    pageCount: u32, postCount: u64, imageCount: u64)

  datatype ThreadData = ThreadData(thread: Thread, posts: Posts)

  type Threads = map<u64, ThreadData>

  /** `Thread::new` with its opening post. */
  function NewThread(id: u64, now: u32, subject: string, tags: seq<string>, opts: PostOpts): ThreadData {
    ThreadData(Thread(id, now, now, subject, tags, 1, 1, 0), map[id := NewPost(id, id, 0, now, opts.(sage := false))])
  }

  /** A new thread shows its opening post, open and empty, and counts it. */
  lemma NewThreadExact(id: u64, now: u32, subject: string, tags: seq<string>, opts: PostOpts)
    ensures var t := NewThread(id, now, subject, tags, opts);
            && t.posts.Keys == {id} && t.thread.postCount == |t.posts| && t.thread.id == id
            && t.posts[id].thread == id && t.posts[id].page == 0 && t.posts[id].open && t.posts[id].body == Empty
            && !t.posts[id].opts.sage && t.posts[id].createdOn == now && t.thread.bumpedOn == now
            && t.thread.createdOn == now && t.thread.subject == subject && t.thread.tags == tags && t.thread.pageCount == 1
  {
    assert NewThread(id, now, subject, tags, opts).posts.Keys == {id};
  }

  // ----- one change -----

  function AddU64(a: u64, b: u64): u64 {
    (a + b) % 0x1_0000_0000_0000_0000
  }

  /** A change of a post the index does not show changes nothing. */
  function Apply(t: ThreadData, c: Change): ThreadData {
    match c
    case PostInserted(p) =>
      ThreadData(t.thread.(postCount := AddU64(t.thread.postCount, 1)), t.posts[p.id := p])
    case BodySet(id, body, closePost) =>
      if id in t.posts
      then t.(posts := t.posts[id := t.posts[id].(body := body, open := t.posts[id].open && !closePost)])
      else t
  }

  function ApplyAll(t: ThreadData, cs: seq<Change>): ThreadData
    decreases |cs|
  {
    if cs == [] then t else ApplyAll(Apply(t, cs[0]), cs[1..])
  }

  lemma {:induction false} ApplyAllConcat(t: ThreadData, a: seq<Change>, b: seq<Change>)
    ensures ApplyAll(t, a + b) == ApplyAll(ApplyAll(t, a), b)
    decreases |a|
  {
    hide Apply;
    if a == [] {
      assert a + b == b;
    } else {
      assert (a + b)[0] == a[0] && (a + b)[1..] == a[1..] + b;
      ApplyAllConcat(Apply(t, a[0]), a[1..], b);
    }
  }

  /** Posts inserted by a list of changes. */
  function Insertions(cs: seq<Change>): nat {
    if cs == [] then 0 else (if cs[0].PostInserted? then 1 else 0) + Insertions(cs[1..])
  }

  /** The last body set for a post, if any was set since it was inserted last, and whether it was closed. */
  function LastOf(cs: seq<Change>, id: u64, was: Option<Post>): Option<Post> {
    if cs == [] then was
    else
      var before := LastOf(cs[..|cs| - 1], id, was);
      match cs[|cs| - 1]
      case PostInserted(p) => if p.id == id then Some(p) else before
      case BodySet(i, body, closePost) =>
        if i == id && before.Some?
        then Some(before.value.(body := body, open := before.value.open && !closePost)) else before
  }

  lemma ApplyLast(t: ThreadData, cs: seq<Change>)
    requires cs != []
    ensures ApplyAll(t, cs) == Apply(ApplyAll(t, cs[..|cs| - 1]), cs[|cs| - 1])
  {
    hide Apply;
    var init, last := cs[..|cs| - 1], cs[|cs| - 1];
    assert cs == init + [last];
    ApplyAllConcat(t, init, [last]);
    assert [last][1..] == [];
  }

  lemma {:induction false} InsertionsMore(cs: seq<Change>, c: Change)
    ensures Insertions(cs + [c]) == Insertions(cs) + if c.PostInserted? then 1 else 0
  {
    if cs == [] {
      assert [c][1..] == [];
    } else {
      assert (cs + [c])[0] == cs[0] && (cs + [c])[1..] == cs[1..] + [c];
      InsertionsMore(cs[1..], c);
    }
  }

  /** What a list of changes makes of a thread: it counts the insertions, in 64 bits, shows each post as
      the last changes about it left it, and nothing else of the thread changes. */
  lemma {:induction false} ChangesExact(t: ThreadData, cs: seq<Change>, id: u64)
    ensures var t' := ApplyAll(t, cs);
            && t'.thread == t.thread.(postCount := (t.thread.postCount + Insertions(cs)) % 0x1_0000_0000_0000_0000)
            && (if id in t'.posts then Some(t'.posts[id]) else None) == LastOf(cs, id, if id in t.posts then Some(t.posts[id]) else None)
    decreases |cs|
  {
    if cs != [] {
      var init, last := cs[..|cs| - 1], cs[|cs| - 1];
      ApplyLast(t, cs);
      ChangesExact(t, init, id);
      assert cs == init + [last];
      InsertionsMore(init, last);
      OneMore(t.thread.postCount + Insertions(init));
    }
  }

  lemma OneMore(n: nat)
    ensures (n % 0x1_0000_0000_0000_0000 + 1) % 0x1_0000_0000_0000_0000 == (n + 1) % 0x1_0000_0000_0000_0000
  {
  }

  // ----- one pulse -----

  /** Threads after every change set of a known thread was applied, in order. */
  function ApplySets(ts: Threads, sets: seq<ChangeSet>): (r: Threads)
    ensures r.Keys == ts.Keys
    decreases |sets|
  {
    if sets == [] then ts
    else
      var s := sets[0];
      ApplySets(if s.sourceFeed in ts then ts[s.sourceFeed := ApplyAll(ts[s.sourceFeed], s.changes)] else ts, sets[1..])
  }

  /** Change sets whose thread is among `keys`, in order. */
  function Known(keys: set<u64>, sets: seq<ChangeSet>): seq<ChangeSet> {
    if sets == [] then []
    else (if sets[0].sourceFeed in keys then [sets[0]] else []) + Known(keys, sets[1..])
  }

  function Unknown(keys: set<u64>, sets: seq<ChangeSet>): seq<ChangeSet> {
    if sets == [] then []
    else (if sets[0].sourceFeed in keys then [] else [sets[0]]) + Unknown(keys, sets[1..])
  }

  // ----- runs -----

  datatype Index = Index(threads: Threads, queued: seq<ChangeSet>)

  datatype Event = ThreadAdded(thread: ThreadData) | SetReceived(sets: ChangeSet) | Pulsed

  function Step(s: Index, e: Event): Index {
    match e
    case ThreadAdded(t) => s.(threads := s.threads[t.thread.id := t])
    case SetReceived(cs) => s.(queued := s.queued + [cs])
    case Pulsed => Index(ApplySets(s.threads, s.queued), Unknown(s.threads.Keys, s.queued))
  }

  function Run(s: Index, es: seq<Event>): Index {
    if es == [] then s else Step(Run(s, es[..|es| - 1]), es[|es| - 1])
  }

  /** Changes of one thread in a list of change sets, concatenated. */
  function ChangesOf(sets: seq<ChangeSet>, id: u64): seq<Change> {
    if sets == [] then []
    else (if sets[0].sourceFeed == id then sets[0].changes else []) + ChangesOf(sets[1..], id)
  }

  /** Changes of one thread in the order its feed sent them. */
  function ChangesSent(es: seq<Event>, id: u64): seq<Change> {
    if es == [] then []
    else
      var last := es[|es| - 1];
      ChangesSent(es[..|es| - 1], id)
      + if last.SetReceived? && last.sets.sourceFeed == id then last.sets.changes else []
  }

  /** The thread as it first appeared: at the start or when it was added. */
  function Original(s: Index, es: seq<Event>, id: u64): Option<ThreadData> {
    if es == [] then if id in s.threads then Some(s.threads[id]) else None
    else
      var last := es[|es| - 1];
      var earlier := Original(s, es[..|es| - 1], id);
      if earlier.Some? then earlier
      else if last.ThreadAdded? && last.thread.thread.id == id then Some(last.thread) else None
  }

  /** Thread ids are handed out by the database: none is added twice or while present. */
  ghost predicate FreshIds(s: Index, es: seq<Event>) {
    es == [] ||
    (FreshIds(s, es[..|es| - 1])
     && (es[|es| - 1].ThreadAdded? ==> es[|es| - 1].thread.thread.id !in Run(s, es[..|es| - 1]).threads))
  }

  lemma {:induction false} ChangesConcat(a: seq<ChangeSet>, b: seq<ChangeSet>, id: u64)
    ensures ChangesOf(a + b, id) == ChangesOf(a, id) + ChangesOf(b, id)
  {
    if a == [] {
      assert a + b == b;
    } else {
      assert (a + b)[0] == a[0] && (a + b)[1..] == a[1..] + b;
      ChangesConcat(a[1..], b, id);
      var head := if a[0].sourceFeed == id then a[0].changes else [];
      assert head + (ChangesOf(a[1..], id) + ChangesOf(b, id)) == head + ChangesOf(a[1..], id) + ChangesOf(b, id);
    }
  }

  /** A pulse applies to a thread all that was queued for it, and leaves it for others. */
  lemma {:induction false} PulseOnThread(ts: Threads, sets: seq<ChangeSet>, id: u64)
    ensures id in ts ==> ApplySets(ts, sets)[id] == ApplyAll(ts[id], ChangesOf(sets, id))
    ensures ChangesOf(Unknown(ts.Keys, sets), id) == if id in ts then [] else ChangesOf(sets, id)
    decreases |sets|
  {
    hide Apply;
    if sets != [] {
      var s := sets[0];
      var next := if s.sourceFeed in ts then ts[s.sourceFeed := ApplyAll(ts[s.sourceFeed], s.changes)] else ts;
      assert next.Keys == ts.Keys;
      PulseOnThread(next, sets[1..], id);
      var rest := ChangesOf(sets[1..], id);
      assert [] + rest == rest && [s][1..] == [] && s.changes + [] == s.changes;
      if id in ts && s.sourceFeed == id {
        ApplyAllConcat(ts[id], s.changes, rest);
      }
      ChangesConcat(if s.sourceFeed in ts then [] else [s], Unknown(ts.Keys, sets[1..]), id);
    }
  }

  /** What has been applied to a thread, given how much is still queued. */
  ghost predicate Conserved(s: Index, sent: seq<Change>, original: Option<ThreadData>, id: u64) {
    var queued := ChangesOf(s.queued, id);
    && |queued| <= |sent|
    && queued == sent[|sent| - |queued|..]
    && (id in s.threads <==> original.Some?)
    && (if id in s.threads then s.threads[id] == ApplyAll(original.value, sent[..|sent| - |queued|])
        else queued == sent)
  }

  lemma AreConserved(s: Index, applied: seq<Change>, sent: seq<Change>, original: Option<ThreadData>, id: u64)
    requires sent == applied + ChangesOf(s.queued, id)
    requires id in s.threads <==> original.Some?
    requires if id in s.threads then s.threads[id] == ApplyAll(original.value, applied) else applied == []
    ensures Conserved(s, sent, original, id)
  {
    hide ApplyAll, ChangesOf;
    assert sent[..|applied|] == applied && sent[|applied|..] == ChangesOf(s.queued, id);
  }

  lemma QueueOne(s: Index, cs: ChangeSet, sent: seq<Change>, original: Option<ThreadData>, id: u64)
    requires Conserved(s, sent, original, id)
    ensures var more := if cs.sourceFeed == id then cs.changes else [];
            Conserved(s.(queued := s.queued + [cs]), sent + more, original, id)
  {
    hide ApplyAll;
    ChangesConcat(s.queued, [cs], id);
    assert [cs][1..] == [];
    var more := if cs.sourceFeed == id then cs.changes else [];
    assert ChangesOf([cs], id) == more + [] == more;
    var n := |sent| - |ChangesOf(s.queued, id)|;
    assert (sent + more)[n..] == sent[n..] + more && (sent + more)[..n] == sent[..n];
  }

  lemma PulseOne(s: Index, sent: seq<Change>, original: Option<ThreadData>, id: u64)
    requires Conserved(s, sent, original, id)
    ensures Conserved(Step(s, Pulsed), sent, original, id)
  {
    hide ApplyAll, ApplySets, Unknown, ChangesOf;
    PulseOnThread(s.threads, s.queued, id);
    assert sent + [] == sent && [] + sent == sent;
    if id in s.threads {
      var n := |sent| - |ChangesOf(s.queued, id)|;
      ApplyAllConcat(original.value, sent[..n], sent[n..]);
      assert sent[..n] + sent[n..] == sent;
      AreConserved(Step(s, Pulsed), sent, sent, original, id);
    } else {
      AreConserved(Step(s, Pulsed), [], sent, original, id);
    }
  }

  /** In every run, each thread's applied changes followed by its queued ones are exactly what its
      feed sent: none lost, repeated or reordered, however long before the thread they arrived. */
  lemma {:induction false} IndexConserves(s: Index, es: seq<Event>, id: u64)
    requires s.queued == [] && FreshIds(s, es)
    ensures Conserved(Run(s, es), ChangesSent(es, id), Original(s, es, id), id)
  {
    hide Step, Conserved;
    if es == [] {
      NothingSent(s, Original(s, es, id), id);
    } else {
      var init, last := es[..|es| - 1], es[|es| - 1];
      IndexConserves(s, init, id);
      StepConserves(Run(s, init), last, ChangesSent(init, id), Original(s, init, id), id);
    }
  }

  lemma NothingSent(s: Index, original: Option<ThreadData>, id: u64)
    requires s.queued == [] && original == if id in s.threads then Some(s.threads[id]) else None
    ensures Conserved(s, [], original, id)
  {
    AreConserved(s, [], [], original, id);
  }

  lemma StepConserves(s: Index, e: Event, sent: seq<Change>, original: Option<ThreadData>, id: u64)
    requires Conserved(s, sent, original, id) && (e.ThreadAdded? ==> e.thread.thread.id !in s.threads)
    ensures Conserved(Step(s, e),
                      sent + (if e.SetReceived? && e.sets.sourceFeed == id then e.sets.changes else []),
                      if original.None? && e.ThreadAdded? && e.thread.thread.id == id then Some(e.thread) else original,
                      id)
  {
    assert sent + [] == sent;
    match e
    case ThreadAdded(t) => AddOne(s, t, sent, original, id);
    case SetReceived(cs) => QueueOne(s, cs, sent, original, id);
    case Pulsed => PulseOne(s, sent, original, id);
  }

  lemma AddOne(s: Index, t: ThreadData, sent: seq<Change>, original: Option<ThreadData>, id: u64)
    requires Conserved(s, sent, original, id) && t.thread.id !in s.threads
    ensures Conserved(Step(s, ThreadAdded(t)), sent, if t.thread.id == id then Some(t) else original, id)
  {
    NothingApplied(t);
    hide ApplyAll, ApplySets, Unknown, ChangesOf;
    if t.thread.id == id {
      assert [] + ChangesOf(s.queued, id) == ChangesOf(s.queued, id);
      AreConserved(Step(s, ThreadAdded(t)), [], sent, Some(t), id);
    }
  }

  lemma NothingApplied(t: ThreadData)
    ensures ApplyAll(t, []) == t
  {
  }

  /** Once a pulse has followed its insertion, a thread shows every change sent so far. */
  lemma PulseCatchesUp(s: Index, es: seq<Event>, id: u64)
    requires s.queued == [] && FreshIds(s, es) && Original(s, es, id).Some?
    ensures var after := Run(s, es + [Pulsed]);
            && id in after.threads && ChangesOf(after.queued, id) == []
            && after.threads[id] == ApplyAll(Original(s, es, id).value, ChangesSent(es, id))
  {
    hide ApplyAll, ApplySets, Unknown;
    var all := es + [Pulsed];
    assert all[..|all| - 1] == es;
    IndexConserves(s, es, id);
    IndexConserves(s, all, id);
    PulseOnThread(Run(s, es).threads, Run(s, es).queued, id);
    var sent := ChangesSent(es, id);
    assert sent + [] == sent && sent[..|sent|] == sent;
  }

  // ----- messages that announce changes -----

  /** The message announces the change to whoever shows the thread as it is: a patch leads from the body
      shown to the new one. */
  predicate Tells(t: ThreadData, m: ServerMsg, c: Change) {
    match c
    case PostInserted(p) => m.InsertPostMsg? && p == NewPost(m.id, m.thread, m.page, m.time, m.opts)
    case BodySet(id, body, true) => m == ClosePostMsg(id, body)
    case BodySet(id, body, false) =>
      && m.PatchBodyMsg? && m.id == id
      && (id in t.posts ==> PatchNode(t.posts[id].body, m.patch) == Patched(body, None))
  }

  /** Messages and changes match one by one, each after the changes before it. */
  predicate AllTell(t: ThreadData, ms: seq<ServerMsg>, cs: seq<Change>)
    decreases |cs|
  {
    && |ms| == |cs|
    && (cs != [] ==> Tells(t, ms[0], cs[0]) && AllTell(Apply(t, cs[0]), ms[1..], cs[1..]))
  }

  lemma {:induction false} AllTellConcat(t: ThreadData, ms: seq<ServerMsg>, cs: seq<Change>,
                                         ns: seq<ServerMsg>, ds: seq<Change>)
    requires |ms| == |cs|
    ensures AllTell(t, ms + ns, cs + ds) <==> AllTell(t, ms, cs) && AllTell(ApplyAll(t, cs), ns, ds)
    decreases |cs|
  {
    hide Tells, Apply;
    if cs == [] {
      assert ms + ns == ns && cs + ds == ds;
    } else {
      assert (ms + ns)[0] == ms[0] && (ms + ns)[1..] == ms[1..] + ns;
      assert (cs + ds)[0] == cs[0] && (cs + ds)[1..] == cs[1..] + ds;
      AllTellConcat(Apply(t, cs[0]), ms[1..], cs[1..], ns, ds);
    }
  }

  lemma TellsOne(t: ThreadData, m: ServerMsg, c: Change)
    ensures AllTell(t, [m], [c]) <==> Tells(t, m, c)
    ensures ApplyAll(t, [c]) == Apply(t, c)
  {
    hide Tells, Apply;
    assert [m][1..] == [] && [c][1..] == [];
  }

  /** Messages of one thread in a list of change sets, concatenated. */
  function MessagesOf(sets: seq<ChangeSet>, id: u64): seq<ServerMsg> {
    if sets == [] then []
    else (if sets[0].sourceFeed == id then sets[0].message else []) + MessagesOf(sets[1..], id)
  }

  lemma {:induction false} MessagesConcat(a: seq<ChangeSet>, b: seq<ChangeSet>, id: u64)
    ensures MessagesOf(a + b, id) == MessagesOf(a, id) + MessagesOf(b, id)
  {
    if a == [] {
      assert a + b == b;
    } else {
      assert (a + b)[0] == a[0] && (a + b)[1..] == a[1..] + b;
      MessagesConcat(a[1..], b, id);
      var head := if a[0].sourceFeed == id then a[0].message else [];
      assert head + (MessagesOf(a[1..], id) + MessagesOf(b, id)) == head + MessagesOf(a[1..], id) + MessagesOf(b, id);
    }
  }
}
