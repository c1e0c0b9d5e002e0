/** Buffering of a feed's messages and index changes until the next pulse (`Writer`). */
module Writer {
  import opened MachineInts
  import opened PostBody
  import opened Messages
  import FeedState

  datatype Global = Global(messages: seq<ServerMsg>, changes: seq<Change>)

  class FeedWriter {
    const feed: u64
    var enc: Option<seq<ServerMsg>>
    var global: Option<Global>

    /** An encoder exists only once something has been written to it. */
    ghost predicate Valid()
      reads this
    {
      && (enc.Some? ==> enc.value != [])
      && (global.Some? ==> global.value.changes != [])
    }

    function Buffered(): seq<ServerMsg>
      reads this
    {
      if enc.Some? then enc.value else []
    }

    function Announced(): Global
      reads this
    {
      if global.Some? then global.value else Global([], [])
    }

    constructor (feed: u64)
      ensures Valid() && this.feed == feed && Buffered() == [] && Announced() == Global([], [])
    {
      this.feed := feed;
      enc, global := None, None;
    }

    method WriteMessage(m: ServerMsg)
      requires Valid()
      modifies this`enc
      ensures Valid() && Buffered() == old(Buffered()) + [m]
    {
      if enc.None? {
        enc := Some([]);
      }
      enc := Some(enc.value + [m]);
    }

    method WriteGlobalChange(m: ServerMsg, c: Change)
      requires Valid()
      modifies this`global
      ensures Valid()
      ensures Announced() == Global(old(Announced()).messages + [m], old(Announced()).changes + [c])
    {
      if global.None? {
        global := Some(Global([], []));
      }
      global := Some(Global(global.value.messages + [m], global.value.changes + [c]));
    }

    /** `recent` is the lowest id the index still shows among this thread's replies. */
    method WritePostMessage(id: u64, m: ServerMsg, c: Change, recent: u64)
      requires Valid()
      modifies this
      ensures Valid() && Buffered() == old(Buffered()) + [m]
      ensures Announced() == if id == feed || id >= recent
                             then Global(old(Announced()).messages + [m], old(Announced()).changes + [c])
                             else old(Announced())
    {
      WriteMessage(m);
      if id == feed || id >= recent {
        WriteGlobalChange(m, c);
      }
    }

    /** Sends everything written: one stream to the clients, one change set to the index. */
    method Flush(clients: seq<ClientID>) returns (sent: seq<Delivery>, set': Option<ChangeSet>)
      requires Valid()
      modifies this
      ensures Valid() && Buffered() == [] && Announced() == Global([], [])
      ensures sent == FeedState.FlushDeliveries(old(Buffered()), clients)
      ensures set' == if old(Announced()).changes == [] then None
                      else Some(ChangeSet(feed, old(Announced()).messages, old(Announced()).changes))
    {
      sent, set' := [], None;
      if enc.Some? {
        var ms := enc.value;
        enc := None;
        if |clients| != 0 {
          for k := 0 to |clients|
            invariant sent + FeedState.FlushDeliveries(ms, clients[k..]) == FeedState.FlushDeliveries(ms, clients)
            invariant enc.None? && global == old(global)
          {
            assert clients[k..][1..] == clients[k + 1..];
            sent := sent + [Delivery(clients[k], ms)];
          }
        }
      }
      if global.Some? {
        set' := Some(ChangeSet(feed, global.value.messages, global.value.changes));
        global := None;
      }
    }
  }
}
