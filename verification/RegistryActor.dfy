/** The registry as an actor: its handlers update the maps in place. */
module RegistryActor {
  import opened MachineInts
  import opened PostBody
  import opened RegistryState
  import SetMaps
  import S = Snapshots

  class Actor {
    var clients: map<u64, Descriptor>
    var feedClients: Sources
    const byPubKey: SetMaps.SetMap<u64, u64>
    var feeds: set<u64>

    function State(): RegistryState.Registry
      reads this, byPubKey
    {
      RegistryState.Registry(clients, feedClients, byPubKey.sets, feeds)
    }

    constructor ()
      ensures State() == EMPTY && fresh(byPubKey)
    {
      clients, feedClients, feeds := map[], map[], {};
      byPubKey := new SetMaps.SetMap();
    }

    method RegisterClient(id: u64, addr: Address)
      modifies this
      ensures State() == Step(old(State()), Registered(id, addr))
    {
      clients := clients[id := Descriptor(None, None, addr)];
    }

    /** Does nothing for a client already removed. */
    method UnregisterClient(id: u64) returns (notices: seq<Notice>)
      modifies this, byPubKey
      ensures State() == Step(old(State()), Unregistered(id))
      ensures notices == Notices(old(State()), Unregistered(id))
    {
      notices := [];
      if id in clients {
        var d := clients[id];
        clients := clients - {id};
        if d.feed.Some? {
          RemoveFrom(d.feed.value, id);
          notices := WakeUpFeed(d.feed.value);
        }
        if d.pubKey.Some? {
          var _ := byPubKey.Remove(d.pubKey.value, id);
        }
      }
    }

    method RemoveFrom(feed: u64, id: u64)
      modifies this`feedClients
      ensures feedClients == Leave(old(feedClients), feed, id)
    {
      if feed in feedClients {
        var s := feedClients[feed];
        feedClients := feedClients[feed := s.(val := s.val - {id}, last := None)];
      }
    }

    method WakeUpFeed(feed: u64) returns (notices: seq<Notice>)
      ensures notices == Wake(State(), feed)
    {
      notices := [];
      if feed == 0 || feed in feeds {
        notices := [WakeUp(feed)];
      }
    }

    method SetFeed(id: u64, feed: u64) returns (ok: bool, notices: seq<Notice>)
      modifies this
      ensures ok <==> CanSetFeed(old(State()), id, feed)
      ensures State() == Step(old(State()), FeedSet(id, feed))
      ensures notices == Notices(old(State()), FeedSet(id, feed))
    {
      notices := [];
      if feed != 0 && feed !in feeds {
        return false, [];
      }
      if id !in clients {
        return false, [];
      }
      var d := clients[id];
      if d.feed.Some? {
        if d.feed.value == feed {
          return true, [];
        }
        RemoveFrom(d.feed.value, id);
        notices := WakeUpFeed(d.feed.value);
      }
      clients := clients[id := d.(feed := Some(feed))];
      if feed in feedClients {
        var s := feedClients[feed];
        feedClients := feedClients[feed := s.(val := s.val[id := d.addr], last := None)];
      } else {
        feedClients := feedClients[feed := S.NewSource(map[id := d.addr])];
      }
      ok := true;
      notices := notices + [WakeUp(feed), FetchFor(feed, d.addr)];
    }

    method SetPublicKey(id: u64, key: u64) returns (ok: bool)
      modifies this, byPubKey
      ensures ok <==> id in old(clients)
      ensures State() == Step(old(State()), PublicKeySet(id, key))
    {
      ok := id in clients;
      if ok {
        clients := clients[id := clients[id].(pubKey := Some(key))];
        byPubKey.Insert(key, id);
      }
    }

    method InsertThread(id: u64)
      modifies this
      ensures State() == Step(old(State()), ThreadAdded(id))
    {
      feeds := feeds + {id};
    }

    method SnapshotClients(feed: u64) returns (s: S.Snapshot<Members>)
      modifies this
      ensures State() == Step(old(State()), Snapshotted(feed))
      ensures s == SnapshotOf(old(State()), feed)
    {
      if feed !in feedClients {
        return S.Snapshot(0, map[]);
      }
      var source := feedClients[feed];
      if source.last.Some? {
        s := source.last.value;
      } else {
        s := S.Snapshot(source.version + 1, source.val);
      }
      feedClients := feedClients[feed := S.Source(source.val, s.version, Some(s))];
    }
  }
}
