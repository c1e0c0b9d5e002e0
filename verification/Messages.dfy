/** Posts and the messages a thread feed sends to its clients. */
module Messages {
  import opened MachineInts
  import opened PostBody

  type ClientID = u64

  /** Page index within a thread. The feed handles it as a signed 32-bit number. */
  type PageID = n: int | 0 <= n < 0x8000_0000

  datatype PostOpts = PostOpts(sage: bool, name: Option<string>, trip: Option<string>, flag: Option<string>)

  datatype Post = Post(
    id: u64, thread: u64, page: PageID, createdOn: u32, opts: PostOpts, open: bool, body: Node)

  type Posts = map<u64, Post>

  /** `Post::new` */
  function NewPost(id: u64, thread: u64, page: PageID, createdOn: u32, opts: PostOpts): Post {
    Post(id, thread, page, createdOn, opts, true, Empty)
  }

  datatype ServerMsg =
    | InsertPostMsg(id: u64, page: PageID, thread: u64, time: u32, opts: PostOpts)
    | PatchBodyMsg(id: u64, patch: Patch)
    | ClosePostMsg(id: u64, body: Node)
    /** Partitioned page: start marker, one message per post, end marker. */
    | PageMsg(pageOf: PageID, posts: Posts)
    /** Page packed into one message once nothing on it can change any more. */
    | ImmutablePageMsg(posts: Posts)
    /** Thread metainformation, sent first to every new subscriber. */
    | ThreadMetaMsg(thread': u64, pageCount: PageID)
    | DisconnectMsg

  /** Messages handed to a client's address in one go. */
  datatype Delivery = Delivery(client: ClientID, msgs: seq<ServerMsg>)

  /** Change for the global thread index. */
  datatype Change =
    | PostInserted(post: Post)
    | BodySet(id: u64, body: Node, closePost: bool)

  /** Buffered changes of one thread, with the messages that announce them. */
  datatype ChangeSet = ChangeSet(sourceFeed: u64, message: seq<ServerMsg>, changes: seq<Change>)

  /** The post a message of the update stream is about. */
  predicate About(m: ServerMsg, id: u64) {
    match m
    case InsertPostMsg(i, _, _, _, _) => i == id
    case PatchBodyMsg(i, _) => i == id
    case ClosePostMsg(i, _) => i == id
    case _ => false
  }

  /** Messages of a stream that are about one post. */
  function For(ms: seq<ServerMsg>, id: u64): seq<ServerMsg> {
    if ms == [] then []
    else (if About(ms[0], id) then [ms[0]] else []) + For(ms[1..], id)
  }

  lemma {:induction false} ForConcat(a: seq<ServerMsg>, b: seq<ServerMsg>, id: u64)
    ensures For(a + b, id) == For(a, id) + For(b, id)
  {
    if a == [] {
      assert a + b == b;
    } else {
      hide About;
      var head := if About(a[0], id) then [a[0]] else [];
      assert (a + b)[0] == a[0] && (a + b)[1..] == a[1..] + b;
      ForConcat(a[1..], b, id);
      assert For(a + b, id) == head + For(a[1..] + b, id);
      assert head + (For(a[1..], id) + For(b, id)) == head + For(a[1..], id) + For(b, id);
    }
  }
}
