/** The registry of clients: which feed each follows, and which clients each feed is told about. */
module RegistryState {
  import opened MachineInts
  import opened PostBody
  import opened SetMaps
  import S = Snapshots

  datatype Address = Address(id: nat)

  datatype Descriptor = Descriptor(feed: Option<u64>, pubKey: Option<u64>, addr: Address)

  type Members = map<u64, Address>

  type Sources = map<u64, S.Source<Members>>

  datatype Registry = Registry(
    clients: map<u64, Descriptor>,
    feedClients: Sources,
    byPubKey: map<u64, set<u64>>,
    feeds: set<u64>)

  const EMPTY := Registry(map[], map[], map[], {})

  /** What is sent to the feeds. Feed 0 is the thread index. */
  datatype Notice = WakeUp(feed: u64) | FetchFor(feed: u64, addr: Address)

  // ----- handlers -----

  predicate Exists(r: Registry, feed: u64) {
    feed == 0 || feed in r.feeds
  }

  function Wake(r: Registry, feed: u64): seq<Notice> {
    if Exists(r, feed) then [WakeUp(feed)] else []
  }

  function Leave(m: Sources, feed: u64, client: u64): Sources {
    if feed in m then m[feed := S.Step(m[feed], S.Mutated(m[feed].val - {client}))] else m
  }

  function Enter(m: Sources, feed: u64, client: u64, addr: Address): Sources {
    m[feed := if feed in m then S.Step(m[feed], S.Mutated(m[feed].val[client := addr])) else S.NewSource(map[client := addr])]
  }

  function Register(r: Registry, id: u64, addr: Address): Registry {
    r.(clients := r.clients[id := Descriptor(None, None, addr)])
  }

  function Unregister(r: Registry, id: u64): Registry {
    if id !in r.clients then r
    else
      var d := r.clients[id];
      r.(clients := r.clients - {id},
         feedClients := if d.feed.Some? then Leave(r.feedClients, d.feed.value, id) else r.feedClients,
         byPubKey := if d.pubKey.Some? then Without(r.byPubKey, d.pubKey.value, id) else r.byPubKey)
  }

  /** Feed changes of unknown clients, or to unknown feeds, are refused. */
  predicate CanSetFeed(r: Registry, id: u64, feed: u64) {
    Exists(r, feed) && id in r.clients
  }

  function SetFeed(r: Registry, id: u64, feed: u64): Registry {
    if !CanSetFeed(r, id, feed) || r.clients[id].feed == Some(feed) then r
    else
      var d := r.clients[id];
      var left := if d.feed.Some? then Leave(r.feedClients, d.feed.value, id) else r.feedClients;
      r.(clients := r.clients[id := d.(feed := Some(feed))],
         feedClients := Enter(left, feed, id, d.addr))
  }

  function SetPublicKey(r: Registry, id: u64, key: u64): Registry {
    if id !in r.clients then r
    else r.(clients := r.clients[id := r.clients[id].(pubKey := Some(key))], byPubKey := With(r.byPubKey, key, id))
  }

  function TakeSnapshot(r: Registry, feed: u64): Registry {
    if feed in r.feedClients
    then r.(feedClients := r.feedClients[feed := S.Step(r.feedClients[feed], S.Snapped)])
    else r
  }

  function SnapshotOf(r: Registry, feed: u64): S.Snapshot<Members> {
    if feed in r.feedClients then S.Take(r.feedClients[feed]) else S.Snapshot(0, map[])
  }

  datatype Event =
    | Registered(id: u64, addr: Address)
    | Unregistered(id: u64)
    | FeedSet(id: u64, feed: u64)
    | PublicKeySet(id: u64, key: u64)
    | ThreadAdded(id: u64)
    | Snapshotted(feed: u64)

  function Step(r: Registry, e: Event): Registry {
    match e
    case Registered(id, addr) => Register(r, id, addr)
    case Unregistered(id) => Unregister(r, id)
    case FeedSet(id, feed) => SetFeed(r, id, feed)
    case PublicKeySet(id, key) => SetPublicKey(r, id, key)
    case ThreadAdded(id) => r.(feeds := r.feeds + {id})
    case Snapshotted(feed) => TakeSnapshot(r, feed)
  }

  function Notices(r: Registry, e: Event): seq<Notice> {
    match e
    case Unregistered(id) =>
      if id in r.clients && r.clients[id].feed.Some? then Wake(r, r.clients[id].feed.value) else []
    case FeedSet(id, feed) =>
      if !CanSetFeed(r, id, feed) || r.clients[id].feed == Some(feed) then []
      else
        var d := r.clients[id];
        (if d.feed.Some? then Wake(r, d.feed.value) else []) + [WakeUp(feed), FetchFor(feed, d.addr)]
    case _ => []
  }

  // ----- agreement of feeds and clients -----

  /** The clients whose descriptor says they follow a feed. */
  function MembersOf(r: Registry, feed: u64): Members {
    map c | c in r.clients && r.clients[c].feed == Some(feed) :: r.clients[c].addr
  }

  /** The clients kept for a feed. */
  function Listed(r: Registry, feed: u64): Members {
    if feed in r.feedClients then r.feedClients[feed].val else map[]
  }

  ghost predicate Agrees(r: Registry) {
    forall f: u64 :: Listed(r, f) == MembersOf(r, f)
  }

  /** Clients only follow feeds there are, and kept snapshots are of the current members. */
  ghost predicate Sound(r: Registry) {
    && (forall c | c in r.clients && r.clients[c].feed.Some? :: Exists(r, r.clients[c].feed.value))
    && (forall f | f in r.feedClients :: S.Valid(r.feedClients[f]))
  }

  lemma UnregisterAgrees(r: Registry, id: u64)
    requires Agrees(r)
    ensures Agrees(Unregister(r, id))
  {
    var r' := Unregister(r, id);
    forall f: u64 ensures Listed(r', f) == MembersOf(r', f) {
      assert Listed(r, f) == MembersOf(r, f);
      assert id in r.clients ==> MembersOf(r', f) == MembersOf(r, f) - {id};
      assert id !in MembersOf(r, f) ==> MembersOf(r, f) - {id} == MembersOf(r, f);
    }
  }

  lemma SetFeedMoves(r: Registry, id: u64, feed: u64, f: u64)
    requires Agrees(r) && CanSetFeed(r, id, feed) && r.clients[id].feed != Some(feed)
    ensures var r' := SetFeed(r, id, feed);
            && Listed(r', f) == MembersOf(r', f)
            && MembersOf(r', f) == if f == feed then MembersOf(r, f)[id := r.clients[id].addr] else MembersOf(r, f) - {id}
  {
    var r' := SetFeed(r, id, feed);
    assert Listed(r, f) == MembersOf(r, f);
    if f == feed {
      assert MembersOf(r', f) == MembersOf(r, f)[id := r.clients[id].addr];
    } else {
      assert MembersOf(r', f) == MembersOf(r, f) - {id};
      assert id !in MembersOf(r, f) ==> MembersOf(r, f) - {id} == MembersOf(r, f);
    }
  }

  lemma SetFeedAgrees(r: Registry, id: u64, feed: u64)
    requires Agrees(r)
    ensures Agrees(SetFeed(r, id, feed))
  {
    var r' := SetFeed(r, id, feed);
    forall f: u64 ensures Listed(r', f) == MembersOf(r', f) {
      if CanSetFeed(r, id, feed) && r.clients[id].feed != Some(feed) {
        SetFeedMoves(r, id, feed, f);
      } else {
        assert Listed(r, f) == MembersOf(r, f);
      }
    }
  }

  lemma SetPublicKeyAgrees(r: Registry, id: u64, key: u64)
    requires Agrees(r)
    ensures Agrees(SetPublicKey(r, id, key))
  {
    var r' := SetPublicKey(r, id, key);
    forall f: u64 ensures Listed(r', f) == MembersOf(r', f) {
      assert Listed(r, f) == MembersOf(r, f);
      assert MembersOf(r', f) == MembersOf(r, f);
    }
  }

  /** Registering keeps the agreement exactly if the id is not in use by a client that follows a feed. */
  lemma RegisterExact(r: Registry, id: u64, addr: Address)
    requires Agrees(r)
    ensures Agrees(Register(r, id, addr)) <==> id !in r.clients || r.clients[id].feed.None?
  {
    var r' := Register(r, id, addr);
    if id in r.clients && r.clients[id].feed.Some? {
      var f := r.clients[id].feed.value;
      assert id in MembersOf(r, f) && id !in MembersOf(r', f);
      assert Listed(r, f) == MembersOf(r, f);
    } else {
      forall f: u64 ensures Listed(r', f) == MembersOf(r', f) {
        assert Listed(r, f) == MembersOf(r, f);
        assert MembersOf(r', f) == MembersOf(r, f);
      }
    }
  }

  lemma OtherAgrees(r: Registry, e: Event)
    requires Agrees(r) && (e.ThreadAdded? || (e.Snapshotted? && Sound(r)))
    ensures Agrees(Step(r, e))
  {
    var r' := Step(r, e);
    forall f: u64 ensures Listed(r', f) == MembersOf(r', f) {
      assert Listed(r, f) == MembersOf(r, f);
      assert MembersOf(r', f) == MembersOf(r, f);
    }
  }

  /** Ids are handed out so that no client takes the id of one still registered. */
  predicate FreshId(r: Registry, e: Event) {
    e.Registered? ==> e.id !in r.clients
  }

  lemma StepAgrees(r: Registry, e: Event)
    requires Agrees(r) && Sound(r) && FreshId(r, e)
    ensures Agrees(Step(r, e))
  {
    hide Agrees, Sound;
    match e
    case Registered(id, addr) => RegisterExact(r, id, addr);
    case Unregistered(id) => UnregisterAgrees(r, id);
    case FeedSet(id, feed) => SetFeedAgrees(r, id, feed);
    case PublicKeySet(id, key) => SetPublicKeyAgrees(r, id, key);
    case _ => OtherAgrees(r, e);
  }

  lemma StepSound(r: Registry, e: Event)
    requires Sound(r)
    ensures Sound(Step(r, e))
  {
    var r' := Step(r, e);
    forall c | c in r'.clients && r'.clients[c].feed.Some? ensures Exists(r', r'.clients[c].feed.value) {
      if c in r.clients && r.clients[c].feed.Some? {
        assert Exists(r, r.clients[c].feed.value);
      }
    }
  }

  function Run(r: Registry, es: seq<Event>): Registry {
    if es == [] then r else Step(Run(r, es[..|es| - 1]), es[|es| - 1])
  }

  ghost predicate FreshIds(r: Registry, es: seq<Event>) {
    es == [] || (FreshIds(r, es[..|es| - 1]) && FreshId(Run(r, es[..|es| - 1]), es[|es| - 1]))
  }

  lemma EmptyAgrees()
    ensures Agrees(EMPTY) && Sound(EMPTY)
  {
    forall f: u64 ensures Listed(EMPTY, f) == MembersOf(EMPTY, f) {
      assert MembersOf(EMPTY, f) == map[];
    }
  }

  /** After any run a feed's clients are exactly those whose descriptor names it, under their
      addresses, and that is what a snapshot of them holds. */
  lemma {:induction false} RegistryAgrees(es: seq<Event>)
    requires FreshIds(EMPTY, es)
    ensures var r := Run(EMPTY, es);
            && Agrees(r) && Sound(r)
            && forall f: u64 :: SnapshotOf(r, f).val == MembersOf(r, f)
  {
    var r := Run(EMPTY, es);
    assert Agrees(r) && Sound(r) by {
      hide Agrees, Sound, Step, FreshId;
      EmptyAgrees();
      if es != [] {
        var init := es[..|es| - 1];
        RegistryAgrees(init);
        StepAgrees(Run(EMPTY, init), es[|es| - 1]);
        StepSound(Run(EMPTY, init), es[|es| - 1]);
      }
    }
    forall f: u64 ensures SnapshotOf(r, f).val == MembersOf(r, f) {
      assert Listed(r, f) == MembersOf(r, f);
    }
  }

  /** A feed is woken exactly when its members change. */
  lemma WokenExact(r: Registry, e: Event, f: u64)
    requires Agrees(r) && Sound(r) && FreshId(r, e)
    ensures WakeUp(f) in Notices(r, e) <==> MembersOf(Step(r, e), f) != MembersOf(r, f)
  {
    var r' := Step(r, e);
    match e
    case Registered(id, addr) =>
      assert MembersOf(r', f) == MembersOf(r, f);
    case Unregistered(id) =>
      if id in r.clients && r.clients[id].feed == Some(f) {
        assert id in MembersOf(r, f) && id !in MembersOf(r', f);
      } else {
        assert MembersOf(r', f) == MembersOf(r, f);
      }
    case FeedSet(id, feed) => FeedSetWakes(r, id, feed, f);
    case PublicKeySet(id, key) =>
      assert MembersOf(r', f) == MembersOf(r, f);
    case _ =>
  }

  lemma FeedSetWakes(r: Registry, id: u64, feed: u64, f: u64)
    requires Agrees(r) && Sound(r)
    ensures WakeUp(f) in Notices(r, FeedSet(id, feed)) <==> MembersOf(SetFeed(r, id, feed), f) != MembersOf(r, f)
  {
    hide Agrees;
    if CanSetFeed(r, id, feed) && r.clients[id].feed != Some(feed) {
      SetFeedMoves(r, id, feed, f);
      var d := r.clients[id];
      assert id in MembersOf(r, f) <==> d.feed == Some(f);
      assert id !in MembersOf(r, f) ==> MembersOf(r, f) - {id} == MembersOf(r, f);
      assert d.feed.Some? ==> Exists(r, d.feed.value);
    }
  }

  // ----- versions -----

  /** Every snapshot of one feed's clients handed out in a run. */
  function Given(r: Registry, es: seq<Event>, f: u64): seq<S.Snapshot<Members>> {
    if es == [] then []
    else
      Given(r, es[..|es| - 1], f)
      + if es[|es| - 1] == Snapshotted(f) then [SnapshotOf(Run(r, es[..|es| - 1]), f)] else []
  }

  ghost predicate VersionsSound(r: Registry, f: u64, given: seq<S.Snapshot<Members>>) {
    if f in r.feedClients
    then
      var s := r.feedClients[f];
      && S.Valid(s) && (s.last.Some? ==> s.version > 0)
      && (forall k | 0 <= k < |given| :: Older(given[k], s))
      && (forall i, j | 0 <= i < j < |given| && given[i].version == given[j].version :: given[i].val == given[j].val)
    else forall k | 0 <= k < |given| :: given[k] == S.Snapshot(0, map[])
  }

  /** Version 0 stands for no clients ever; the latest kept version for the current ones. */
  predicate Older(t: S.Snapshot<Members>, s: S.Source<Members>) {
    && t.version <= s.version
    && (t.version == 0 ==> t.val == map[])
    && (S.SameVersion(s, t) ==> t.val == s.val)
  }

  /** What one event can do to the clients kept for a feed. */
  ghost predicate Moves(m: Sources, m': Sources, f: u64) {
    if f in m then f in m' && (m'[f] == m[f] || m'[f] == S.Step(m[f], S.Mutated(m'[f].val)))
    else f in m' ==> m'[f] == S.NewSource(m'[f].val)
  }

  lemma EnterMoves(m: Sources, left: Sources, feed: u64, client: u64, addr: Address, f: u64)
    requires f in m <==> f in left
    requires f in m ==> left[f] == m[f] || (f != feed && left[f] == S.Step(m[f], S.Mutated(left[f].val)))
    ensures Moves(m, Enter(left, feed, client, addr), f)
  {
  }

  lemma LeaveMoves(m: Sources, feed: u64, client: u64, f: u64)
    ensures Moves(m, Leave(m, feed, client), f) && (f != feed && f in m ==> Leave(m, feed, client)[f] == m[f])
    ensures Leave(m, feed, client).Keys == m.Keys
  {
  }

  lemma StepMoves(r: Registry, e: Event, f: u64)
    requires e != Snapshotted(f)
    ensures Moves(r.feedClients, Step(r, e).feedClients, f)
  {
    match e
    case Unregistered(id) =>
      if id in r.clients && r.clients[id].feed.Some? {
        LeaveMoves(r.feedClients, r.clients[id].feed.value, id, f);
      }
    case FeedSet(id, feed) =>
      if CanSetFeed(r, id, feed) && r.clients[id].feed != Some(feed) {
        var d := r.clients[id];
        if d.feed.Some? {
          LeaveMoves(r.feedClients, d.feed.value, id, f);
          EnterMoves(r.feedClients, Leave(r.feedClients, d.feed.value, id), feed, id, d.addr, f);
        } else {
          EnterMoves(r.feedClients, r.feedClients, feed, id, d.addr, f);
        }
      }
    case _ =>
  }

  lemma MoveSound(r: Registry, r': Registry, f: u64, given: seq<S.Snapshot<Members>>)
    requires VersionsSound(r, f, given) && Moves(r.feedClients, r'.feedClients, f)
    ensures VersionsSound(r', f, given)
  {
  }

  lemma TakeSound(r: Registry, f: u64, given: seq<S.Snapshot<Members>>)
    requires VersionsSound(r, f, given)
    ensures VersionsSound(TakeSnapshot(r, f), f, given + [SnapshotOf(r, f)])
  {
  }

  /** Two snapshots of one feed's clients with equal versions hold the same clients. */
  lemma {:induction false} SameVersionSameClients(es: seq<Event>, f: u64)
    ensures VersionsSound(Run(EMPTY, es), f, Given(EMPTY, es, f))
  {
    hide VersionsSound, Moves;
    if es == [] {
      NoneGiven(f);
    } else {
      var init, last := es[..|es| - 1], es[|es| - 1];
      var r, given := Run(EMPTY, init), Given(EMPTY, init, f);
      SameVersionSameClients(init, f);
      if last == Snapshotted(f) {
        TakeSound(r, f, given);
      } else {
        StepMoves(r, last, f);
        MoveSound(r, Step(r, last), f, given);
        assert given + [] == given;
      }
    }
  }

  lemma NoneGiven(f: u64)
    ensures VersionsSound(EMPTY, f, [])
  {
  }

  // ----- public keys -----

  predicate KeyListed(r: Registry, key: u64, id: u64) {
    key in r.byPubKey && id in r.byPubKey[key]
  }

  predicate HasKey(r: Registry, id: u64, key: u64) {
    id in r.clients && r.clients[id].pubKey == Some(key)
  }

  ghost predicate KeysAgree(r: Registry) {
    forall key, id :: KeyListed(r, key, id) <==> HasKey(r, id, key)
  }

  /** A client that changes its key stays listed under the old one. The agreement survives exactly if
      it had no key before, or the same. */
  lemma PublicKeyExact(r: Registry, id: u64, key: u64)
    requires KeysAgree(r) && id in r.clients
    ensures KeysAgree(SetPublicKey(r, id, key)) <==> r.clients[id].pubKey.None? || r.clients[id].pubKey == Some(key)
  {
    var r' := SetPublicKey(r, id, key);
    var had := r.clients[id].pubKey;
    if had.Some? && had.value != key {
      assert HasKey(r, id, had.value) && KeyListed(r, had.value, id);
      assert KeyListed(r', had.value, id) && !HasKey(r', id, had.value);
    } else {
      forall k, c ensures KeyListed(r', k, c) <==> HasKey(r', c, k) {
        assert KeyListed(r, k, c) <==> HasKey(r, c, k);
      }
    }
  }

  /** The old key even outlives the client. */
  lemma StaleKey()
    ensures var es := [Registered(1, Address(0)), PublicKeySet(1, 7), PublicKeySet(1, 8), Unregistered(1)];
            FreshIds(EMPTY, es) && KeyListed(Run(EMPTY, es), 7, 1) && 1 !in Run(EMPTY, es).clients
  {
    var e0, e1, e2, e3 := Registered(1, Address(0)), PublicKeySet(1, 7), PublicKeySet(1, 8), Unregistered(1);
    RunMore([], e0);
    RunMore([e0], e1);
    RunMore([e0, e1], e2);
    RunMore([e0, e1, e2], e3);
    assert [] + [e0] == [e0] && [e0] + [e1] == [e0, e1] && [e0, e1] + [e2] == [e0, e1, e2];
    assert [e0, e1, e2] + [e3] == [e0, e1, e2, e3];
  }

  lemma RunMore(es: seq<Event>, e: Event)
    ensures Run(EMPTY, es + [e]) == Step(Run(EMPTY, es), e)
    ensures FreshIds(EMPTY, es + [e]) <==> FreshIds(EMPTY, es) && FreshId(Run(EMPTY, es), e)
  {
    hide Step;
    assert (es + [e])[..|es + [e]| - 1] == es;
  }

  /** Every client with a key is listed under it. */
  ghost predicate KeysListed(r: Registry) {
    forall id | id in r.clients && r.clients[id].pubKey.Some? :: KeyListed(r, r.clients[id].pubKey.value, id)
  }

  lemma StepListsKeys(r: Registry, e: Event)
    requires KeysListed(r)
    ensures KeysListed(Step(r, e))
  {
    var r' := Step(r, e);
    forall id | id in r'.clients && r'.clients[id].pubKey.Some?
      ensures KeyListed(r', r'.clients[id].pubKey.value, id)
    {
      if id in r.clients && r.clients[id].pubKey.Some? {
        assert KeyListed(r, r.clients[id].pubKey.value, id);
      }
    }
  }

  lemma {:induction false} KeysStayListed(es: seq<Event>)
    ensures KeysListed(Run(EMPTY, es))
  {
    hide Step;
    if es != [] {
      KeysStayListed(es[..|es| - 1]);
      StepListsKeys(Run(EMPTY, es[..|es| - 1]), es[|es| - 1]);
    }
  }

  // ----- what clients have done -----

  predicate FeedAdded(es: seq<Event>, feed: u64) {
    feed == 0 || exists k | 0 <= k < |es| :: es[k] == ThreadAdded(feed)
  }

  /** The client as its own history has it: its address from registering, the feed it set last of those
      there were, and its last key; none before it registers and after it leaves. */
  function ClientAfter(es: seq<Event>, id: u64): Option<Descriptor> {
    if es == [] then None
    else
      var init := es[..|es| - 1];
      var before := ClientAfter(init, id);
      match es[|es| - 1]
      case Registered(c, addr) => if c == id then Some(Descriptor(None, None, addr)) else before
      case Unregistered(c) => if c == id then None else before
      case FeedSet(c, feed) =>
        if c == id && before.Some? && FeedAdded(init, feed) then Some(before.value.(feed := Some(feed))) else before
      case PublicKeySet(c, key) => if c == id && before.Some? then Some(before.value.(pubKey := Some(key))) else before
      case _ => before
  }

  lemma AddedMore(es: seq<Event>, feed: u64)
    requires es != []
    ensures FeedAdded(es, feed) <==> FeedAdded(es[..|es| - 1], feed) || es[|es| - 1] == ThreadAdded(feed)
  {
    var init := es[..|es| - 1];
    if feed != 0 && FeedAdded(init, feed) {
      var k :| 0 <= k < |init| && init[k] == ThreadAdded(feed);
      assert es[k] == ThreadAdded(feed);
    }
    if feed != 0 && FeedAdded(es, feed) {
      var k :| 0 <= k < |es| && es[k] == ThreadAdded(feed);
      assert k < |init| ==> init[k] == es[k];
    }
  }

  /** In every run, whatever the ids, the registry knows of each client what its own history says, and of
      each feed that it was added. */
  lemma {:induction false} ClientsByHistory(es: seq<Event>, id: u64, feed: u64)
    ensures (id in Run(EMPTY, es).clients <==> ClientAfter(es, id).Some?)
    ensures id in Run(EMPTY, es).clients ==> Run(EMPTY, es).clients[id] == ClientAfter(es, id).value
    ensures Exists(Run(EMPTY, es), feed) <==> FeedAdded(es, feed)
    decreases |es|
  {
    hide FeedAdded, Leave, Enter, With, Without;
    if es == [] {
      NoneAdded(feed);
    } else {
      var init, last := es[..|es| - 1], es[|es| - 1];
      ClientsByHistory(init, id, feed);
      AddedMore(es, feed);
      if last.FeedSet? {
        ClientsByHistory(init, id, last.feed);
      }
    }
  }

  lemma NoneAdded(feed: u64)
    ensures FeedAdded([], feed) <==> feed == 0
  {
  }

  // ----- who is sent a feed's data -----

  /** Exact: a feed is asked for its data for exactly the client that newly follows it. */
  lemma FetchExact(r: Registry, e: Event, f: u64, addr: Address)
    ensures FetchFor(f, addr) in Notices(r, e) <==>
              exists c | c in MembersOf(Step(r, e), f) :: c !in MembersOf(r, f) && MembersOf(Step(r, e), f)[c] == addr
    ensures forall i, j | 0 <= i < j < |Notices(r, e)| :: Notices(r, e)[i].FetchFor? ==> !Notices(r, e)[j].FetchFor?
  {
    hide Leave, Enter, With, Without;
    var after := Step(r, e);
    match e
    case FeedSet(id, feed) =>
      forall c | c != id ensures c in MembersOf(after, f) <==> c in MembersOf(r, f) {
      }
      if CanSetFeed(r, id, feed) && r.clients[id].feed != Some(feed) {
        assert id in MembersOf(after, feed) && id !in MembersOf(r, feed);
      }
    case Registered(id, _) => assert forall c | c in MembersOf(after, f) :: c in MembersOf(r, f);
    case Unregistered(id) => assert forall c | c in MembersOf(after, f) :: c in MembersOf(r, f);
    case PublicKeySet(id, _) => assert forall c | c in MembersOf(after, f) :: c in MembersOf(r, f);
    case _ => assert MembersOf(after, f) == MembersOf(r, f);
  }
}
