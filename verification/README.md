# shamichan: a verified model of its live core

shamichan is a realtime imageboard: posts are edited while everybody watches, and every viewer holds a
replica of them. This project models the pipeline that keeps those replicas right, in Dafny, and
proves what it promises.

The pipeline, one module or group of modules per step:

- `TextDiff`, `PostBody`, `BodyTree`: post body trees, their structural diff, the patch that replays
  it with its 16-bit text fields, and growing a tree by appending.
- `BodyLeaves`, `BodyParser`, `BodyMethods`: the body parser, as a function from a body to pieces and
  as the methods that append those pieces to a tree. `BodyMeaning`, `BodyText`, `BodyQuotes` and
  `BodyWritten` say what a tree can be read back as; `BodyWords`, `BodyComplete` and `BodyClean` which
  words become links, commands and URLs, and that none is missed.
- `Messages`, `FeedState`, `Writer`, `ThreadFeed`: the thread feed with its buffering, deferred page
  fetches and pulses; `Answers` says who is sent what. `Replica` is a client: its copy of the posts, and
  the pages it holds back while others are awaited; `Requests` says what it asks for. `FeedInvariant`,
  `Watching` and `Convergence` are about the step system of one feed and its clients, `BodyPatches` and
  `PatchFailures` about when a patch can be applied to another body than it was made for, `Divergence`
  about runs in which a client is left behind.
- `TextSync`: the text of an open post, typed in the client and replayed by the server. `Pipeline`
  joins it with the parser, the feed and the readers.
- `Codec`, `Streams`: escaping, framing, joining and splitting of messages, and which bytes are any of it.
  `MessageCaches` builds the cached page and catalog messages on it.
- `Scheduler`, `StopRequests`: actors on a thread pool, with senders, scheduler and batch task
  interleaved.
- `ThreadIndex`, `IndexFeed`, `IndexReaders`, `IndexDeliveries`: the thread index, its feed, the clients
  of that and what they are sent. `LastFive`, `Sharing` and `Withholding` are about what a thread feed
  tells the index, and `IndexPipeline` joins feeds, index and its clients.
- `Snapshots`, `SetMaps`, `RegistryState`, `RegistryActor`: the registry of clients.
- `RelativeTimes`, `Ticks`, `TickQueue`, `TickScheduler`: relative timestamps kept current by a
  sorted linked queue.

Code that computes a value is a function. Code that updates state is a class or a method whose
contract equates the new state with a function of the old one; the lemmas and the step systems are
about those functions. What the code leaves open is a parameter: iteration orders of hash maps, the
clock, the database, parsing against the post location cache, and which ids are handed out.

In `Convergence` a post or a page is *in step* with a client by its history: a post once its
insertion has been received, a page once it has been registered without having missed an update that
matters. What is in step stays so, which is the invariant; what is not is the matter of the exact
results below.

Some results are about inputs or runs on which the code does not do what it is for. Each comes with the
exact condition, or a run that shows it:

- a text patch truncates lengths to 16 bits (`TextDiff.RoundTripExact`, `PostBody.DiffPatchExact`);
- an empty span drops the rest of its fragment (`BodyText.ConservationExact`,
  `BodyWritten.WrittenExact`, `BodyWritten.EmptySpanLosesText`);
- a page held by a client while its posts are edited is registered as it was, and stays behind
  (`Watching.ReleaseExact`, `Divergence.HeldPageStaysStale`); it never is when the client waits for
  one page at a time (`Convergence.OnePageAtATime`);
- a client never forgets posts, so a returning one may be sent a patch before the page it is for
  (`Divergence.StalePatchFails`, `PatchFailures.PatchFailsExact`, `PatchFailures.InStepExact`,
  `Divergence.LeftoverExact`);
- the page a post has just begun cannot be fetched, and asking for it ends the connection
  (`Divergence.BegunPageExact`, `Divergence.BegunPageRefused`);
- an edit shared with the index after one that was not is a patch of a text nobody there has
  (`Sharing.SharingExact`, `Withholding.SharedTooLate`); with the ids the code really keeps it never
  comes to that (`LastFive.Last5.Min`, `IndexPipeline.NothingWithheld`);
- an insertion that skips a page makes a fetch of the one skipped panic
  (`Convergence.InsertPanicsExact`, `Convergence.NoFetchPanics`);
- a chunk that ends on a header byte is refused (`Codec.ChunkedExact`), and a part of 2^31 bytes or
  more does not survive its frame (`Codec.LenRoundTrip`);
- a batch begun while unprocessed messages are on their way back overtakes them
  (`Scheduler.OrderExact`, `Scheduler.Overtaken`), and the end of a batch handled before the lock is
  free can strand a message (`Scheduler.StuckExact`, `Scheduler.AllHandledExact`,
  `Scheduler.Stranded`); messages that reach the mailbox after the scheduler has ended are lost
  (`Scheduler.EndsExact`, `Scheduler.EndsWithMailboxOnly`);
- an actor that asks to be stopped while messages are queued may be neither stopped nor given them, if
  the question comes before the lock is free (`StopRequests.StopForgotten`, `StopRequests.Turned`,
  `StopRequests.StopLost`);
- a client that changes its public key stays listed under the old one, even after it has left
  (`RegistryState.PublicKeyExact`, `RegistryState.StaleKey`);
- removal by pair leaves empty sets on one side of a double set map (`SetMaps.EmptySetLeft`);
- a tick whose time passes 2^32 is due again at once (`Ticks.NextTimeExact`);
- a correction of the clock recomputes ticks as of now and not as of when they are due, so they can
  tell what was so before when next told (`Ticks.CorrectedExact`, `Ticks.CorrectionLags`).

The comment at server/src/feeds/index/mod.rs:110-112 says that a change set put back has a pulse
scheduled for it immediately. The code schedules none; the pulse comes with the insertion of the
thread, and `IndexFeed.Feed.Valid` states that this is enough: whenever a queued set has its thread,
a pulse is pending.

## Model

| member | source | states |
|---|---|---|
| `TextDiff.SplitParts` | common/src/payloads/post_body.rs:482-500 | the generator cuts both texts into a shared head, two middles and a shared tail that add up to the texts, and the middles share neither a first nor a last character |
| `TextDiff.SplitExact` | common/src/payloads/post_body.rs:482-500 | of all ways to split two texts it is the one with the longest head they share, and then the longest tail the rest of them share |
| `TextDiff.Apply` | common/src/payloads/post_body.rs:502-512 | the in-order application by iterator equals splicing with both bounds clamped to the source, for arbitrary patches |
| `TextDiff.RoundTripExact` | common/src/payloads/post_body.rs:482-512 | every edit of a text survives diff and apply iff the old text has at most 65535 characters |
| `TextDiff.RoundTripExactFor` | common/src/payloads/post_body.rs:482-512 | one given edit survives iff the removed middle has at most 65535 characters and the start fits 16 bits, or the edit only removes or only inserts and the stretch left out by the truncated start repeats itself with the length of what is removed or inserted; a replacement beyond 65535 never does |
| `TextDiff.PatchShape` | common/src/payloads/post_body.rs:482-500 | a patch between different texts is never empty, stays inside the old text and inserts no more than the new one holds |
| `PostBody.ComputeDiff` | common/src/payloads/post_body.rs:114-187 | the recursive diff, arm by arm, computes `Diff` |
| `PostBody.ComputeDiffChildren` | common/src/payloads/post_body.rs:117-147 | the walk over two child lists collects the patches of the shared positions, a truncation or the appended rest |
| `PostBody.ApplyPatch` | common/src/payloads/post_body.rs:189-237 | the in-place patch computes `PatchNode`: the tree it leaves behind and the error that stopped it |
| `PostBody.ApplyChildPatches` | common/src/payloads/post_body.rs:189-237 | child patches are applied in order up to the first out-of-bounds index or mismatch |
| `PostBody.DiffNoneIffEqual` | common/src/payloads/post_body.rs:114-187 | diff returns nothing exactly for equal trees |
| `PostBody.DiffPatch` | common/src/payloads/post_body.rs:114-237 | for all trees with strings of at most 65535 characters: no patch iff equal; otherwise the patch succeeds at every depth and yields exactly the new tree |
| `PostBody.DiffPatchExact` | common/src/payloads/post_body.rs:114-237 | a tree survives every edit iff each string a patch may splice has at most 65535 characters |
| `PostBody.LostEdit` | common/src/payloads/post_body.rs:482-500 | for every other tree, an edit whose patch fails or yields the wrong tree |
| `BodyPatches.TakesExact` | common/src/payloads/post_body.rs:114-237 | the patch from one tree to another can be applied to a third iff that has the structure the edit goes into: a list where lists differ, any text where texts do, any wrapper where wrappers do |
| `BodyPatches.FollowsExact` | common/src/payloads/post_body.rs:114-237 | and it turns the third into the right tree iff that is the tree the edit was made in, but for what the edit replaces: whole nodes, and in a text the stretch removed, or at its very end a shorter one |
| `BodyPatches.HealsExact` | common/src/payloads/post_body.rs:114-237 | every edit of a tree turns a third into the right one iff the two differ at most in a leaf that is only ever replaced |
| `BodyTree.NodeSlot.AddNode` | common/src/payloads/post_body.rs:283-316 | appending a node in place equals `Merge` |
| `BodyTree.NodeSlot.AddChild` | common/src/payloads/post_body.rs:296-316 | appending to a list joins two texts that meet and adds everything else at the end |
| `BodyTree.NodeSlot.AddText` | common/src/payloads/post_body.rs:318-350 | appending a string comes to the same as appending a text node |
| `BodyTree.MergeNormal` | common/src/payloads/post_body.rs:283-350 | appending keeps a tree in normal form |
| `BodyTree.EmptyTextVanishes` | common/src/payloads/post_body.rs:283-350 | an empty text appended midway leaves no trace once text precedes or follows it |
| `Writer.FeedWriter.WritePostMessage` | server/src/feeds/thread/writer.rs:76-91 | the message is buffered for the clients; the index hears of it iff the post is the opening post or recent |
| `Writer.FeedWriter.Flush` | server/src/feeds/thread/writer.rs:125-145 | everything buffered goes out once, in order, to every client, and as one change set to the index |
| `ThreadFeed.Feed.FetchFeedData` | server/src/feeds/thread/mod.rs:452-466 | a new subscriber is sent the thread's page count at once |
| `ThreadFeed.Feed.FetchPage` | server/src/feeds/thread/mod.rs:155-221 | page lookup from either end, disconnect when out of range, cached reply, deferral, loading; equals the state step `FetchPage` |
| `ThreadFeed.Feed.InsertPost` | server/src/feeds/thread/mod.rs:225-312 | equals the state step `InsertPost`; the index hears of exactly the posts announced to clients |
| `ThreadFeed.Feed.SetBody` | server/src/feeds/thread/mod.rs:322-338 | the last body set for a post waits for the next pulse |
| `ThreadFeed.Feed.ClosePost` | server/src/feeds/thread/mod.rs:346-408 | equals the state step `ClosePost`: body and flag set, pending body cancelled, message buffered, index told iff opening or recent post |
| `ThreadFeed.Feed.TryMakePagesImmutable` | server/src/feeds/thread/mod.rs:415-445 | exactly the mutable pages of 100 closed posts become immutable |
| `ThreadFeed.Feed.ServeDeferred` | server/src/feeds/thread/mod.rs:102-119 | deferred fetches are answered page by page before anything else, and fill the caches |
| `ThreadFeed.Feed.DiffOpenBodies` | server/src/feeds/thread/mod.rs:531-624 | pages with pending bodies are loaded, the bodies of open posts parsed and diffed, and exactly the patches from the old to the new bodies written |
| `ThreadFeed.Feed.Pulse` | server/src/feeds/thread/mod.rs:90-129 | a pulse is deferred pages, then diffs, then one flush: the state step `Pulse`; one change set tells the index of everything since the last one |
| `Answers.PulseSends` | server/src/feeds/thread/mod.rs:90-129 | a pulse sends every client exactly the pages it waits for, as they are and as often as it asked, nobody else any, and then everything new once to every client |
| `Answers.FetchAnswered` | server/src/feeds/thread/mod.rs:102-221 | in every run a fetch of a page in range, counted from either end, is answered to its client by the end of the next pulse, with that page as it is then |
| `Answers.FetchRefused` | server/src/feeds/thread/mod.rs:155-221 | a fetch out of range is answered with a disconnect and changes nothing |
| `Answers.FetchWaitsExact` | server/src/feeds/thread/mod.rs:155-221 | a fetch waits iff its page is loaded, may change and has no message ready |
| `Answers.ServedReady` | server/src/feeds/thread/mod.rs:102-119 | after a pulse the pages waited for are ready to be sent at once, unless they have changed in that pulse |
| `Answers.AlwaysScheduled` | server/src/feeds/thread/mod.rs:225-466 | in every run a pulse is scheduled as long as anything is buffered, deferred or waits to be parsed |
| `Answers.PulseSetsBodies` | server/src/feeds/thread/mod.rs:531-624 | a pulse gives every open post the parsed text that waits for it, and leaves every other post as it is |
| `Answers.InsertExact` | server/src/feeds/thread/mod.rs:225-312 | the post inserted is as its request and the clock have it, open and empty, is announced just so, and replaces no other |
| `Answers.CloseExact` | server/src/feeds/thread/mod.rs:346-408 | a close sets body and flag, drops a text that waits, and touches no other post |
| `Answers.FreezeExact` | server/src/feeds/thread/mod.rs:415-445 | a page is immutable afterwards iff it was or has 100 closed posts, and no post changes |
| `Answers.ImmutableStays` | server/src/feeds/thread/mod.rs:225-408 | no step of a run changes a page that has become immutable |
| `ThreadFeed.Process` | server/src/feeds/thread/mod.rs:540-600 | only posts that are open and really change are borrowed mutably; the batch leads exactly from the old posts to the new |
| `Replica.Agent.NavigateTo` | client/src/state/agent.rs:432-486 | a page of the feed followed is asked for once, under its number from the start; anything else is up to `TrySyncFeed` |
| `Replica.Agent.TrySyncFeed` | client/src/state/agent.rs:696-760 | while pages are awaited more are asked for; another feed drops what is held and starts over |
| `Replica.Agent.RegisterThreadMeta` | client/src/state/agent.rs:367-374 | the page count is kept while pages of that thread are awaited, and ignored otherwise |
| `Replica.Agent.PatchPostBody` | client/src/state/agent.rs:340-351 | a patch that fails leaves the post alone; one for a post not registered is dropped |
| `Replica.Agent.ClosePost` | client/src/state/agent.rs:352-361 | body and open flag of a registered post are set |
| `Replica.Agent.RegisterPage` | client/src/state/agent.rs:573-657 | while others are awaited a page is held; with the last of them all are registered, whatever the iteration order, and the client is synced; a synced client registers at once |
| `Replica.ArrivalExact` | client/src/state/agent.rs:591-602 | an arriving page is registered at once iff every other page asked for by number has arrived and it lies below the page count |
| `Replica.ReceiveAllAt` | client/src/state/agent.rs:334-361 | what a replica knows of one post depends only on the messages about that post |
| `Requests.NavigateAsks` | client/src/state/agent.rs:432-486 | a navigation within the feed newly waits for exactly the pages its requests name; one to another feed synchronizes first and asks for the page meant alone |
| `Requests.ArrivalSettles` | client/src/state/agent.rs:573-657 | a page that arrives is waited for no longer, is shown or kept, and no other page is affected unless all are shown |
| `Requests.MetaSettles` | client/src/state/agent.rs:367-374 | metainformation is kept for the thread awaited and for no other |
| `Requests.EntersThread` | client/src/state/agent.rs:432-657 | entering a thread and being sent what was asked for, a client shows that page and follows the thread |
| `Requests.AwaitedAsked` | client/src/state/agent.rs:696-760 | in every run the client follows the feed it last synchronized to, has asked for no page twice since, and waits for none it has not asked for since under its own number |
| `Watching.ReleaseExact` | client/src/state/agent.rs:603-640 | of a post on a page held, what is registered is in step iff the updates missed meanwhile make no difference to what the buffered ones make of it: always if there were none, and with nothing buffered only if they leave the post as it was |
| `Watching.QuietPage` | client/src/state/agent.rs:603-640 | a page of which no post was updated while it was held is registered in step |
| `Convergence.InsertPanicsExact` | server/src/feeds/thread/mod.rs:225-312 | an insertion leaves a page on which a fetch panics iff it skips a page |
| `Convergence.NoFetchPanics` | server/src/feeds/thread/mod.rs:155-221 | in every run with pages begun one after the other, no fetch of a page in range finds it missing from the map |
| `Convergence.StepKeeps` | server/src/feeds/thread/mod.rs:90-466 | every step of feed and clients, held pages and posts of earlier visits included, keeps: caches are current, the buffer replays harmlessly over a snapshot that already contains it, every post in step is one flush away from the feed, and every page held would be, given what it missed |
| `Convergence.Convergence` | server/src/feeds/thread/mod.rs:90-129 | in every run, after each pulse every subscribed client holds exactly the feed's posts, bodies and open flags for each page registered in step, and for each single post in step |
| `Convergence.PagesInStep` | client/src/state/agent.rs:584-657 | in every run, a client that never holds a page while an update of one of its posts is flushed has registered every page in step |
| `Convergence.OnePageAtATime` | client/src/state/agent.rs:584-657 | so has, in every run, a client that never waits for two pages at a time |
| `Convergence.NoPatchFails` | client/src/state/agent.rs:340-351 | in every run no patch fails for a post in step; only one left over from an earlier visit, or registered late from a page held, can fail |
| `Divergence.HeldPageStaysStale` | client/src/state/agent.rs:584-657 | a run from the start: a page held while its post is edited is registered with the old body, and nothing is left that would correct it |
| `Divergence.StalePatchFails` | client/src/state/agent.rs:340-351 | a run from the start: a patch made against the present body does not apply to the post a returning client still has |
| `Divergence.LeftoverExact` | client/src/state/agent.rs:340-351 | every edit puts a post left over in step iff it differs from the feed's at most in a leaf of the body that is only ever replaced |
| `PatchFailures.EditExact` | client/src/state/agent.rs:340-351 | given the patch of one edit, a post in whatever state fails iff its body lacks the structure for it, and becomes the feed's iff it was the feed's but for the parts of the body replaced |
| `PatchFailures.PatchFailsExact` | client/src/state/agent.rs:340-351 | in every run, at each pulse a post newly fails for a client iff the feed edits it, the client has it and is not about to be sent its insertion, and its body lacks the structure the edit goes into |
| `PatchFailures.InStepExact` | client/src/state/agent.rs:340-361 | in every run, after each pulse a client shows a post as the feed has it iff, the buffer taken in, it had it as the feed before, but for the parts of the body replaced |
| `Divergence.BegunPageExact` | server/src/feeds/thread/mod.rs:155-312 | the page a post has been inserted on can be fetched iff it lay below the page count before; otherwise whoever asks for it is disconnected |
| `Divergence.BegunPageRefused` | server/src/feeds/thread/mod.rs:155-312 | a run from the start: the first post on the second page is announced, and a client that asks for the page is disconnected |
| `Pipeline.StepKeeps` | server/src/client/message_handler.rs:558-584 | author, server, feed, readers and other people's posts together: every step keeps that the feed has the author's open post with the parsed text of the server's body, or has that text waiting |
| `Pipeline.ParsedFits` | server/src/client/message_handler.rs:563-568 | bodies within the server's limit of 2000 characters can be parsed, diffed and patched |
| `Pipeline.AuthorToReaders` | server/src/feeds/thread/mod.rs:531-624 | in every run, after each pulse every reader that has the author's open post or its page in step shows the parse of the server's text, and, whenever nothing is under way, of the text the author typed last; the post is the one the author was given the id of |
| `TextSync.Agent.Commit` | client/src/post/posting.rs:841-878 | the committed text is sent as append, backspace or patch, or kept while no post is allocated |
| `TextSync.Agent.SetState` | client/src/post/posting.rs:721-738 | becoming allocated sends the text typed meanwhile, and a new state goes out to the subscribers |
| `TextSync.Agent.TryAllocPost` | client/src/post/posting.rs:758-783 | a draft asks for its post once |
| `TextSync.Agent.CommitPendingText` | client/src/post/posting.rs:881-886 | pending text is committed against an empty body |
| `TextSync.Agent.Close` | client/src/post/posting.rs:702-714 | closing discards a draft and closes an allocated post |
| `TextSync.Agent.OpenPostIDChanged` | client/src/post/posting.rs:615-624 | an id for the open post ends drafting and allocation |
| `TextSync.OpenedExact` | client/src/post/posting.rs:615-624 | an id allocates the form unless it has a post already or cannot have one; the text typed meanwhile goes out at once and stays |
| `TextSync.ClosedExact` | client/src/post/posting.rs:702-714 | which states closing ends, that the text is then gone, and that the server is told of a post that was open and of nothing else |
| `TextSync.MessageHandler.Receive` | server/src/client/message_handler.rs:264-279 | reply and open body of the server for every message about the open post, and the bodies handed to the feed |
| `TextSync.MessageHandler.Patch` | server/src/client/message_handler.rs:523-556 | empty and oversized patches and positions past the end are refused; otherwise the body is spliced |
| `TextSync.MessageHandler.Store` | server/src/client/message_handler.rs:558-584 | a body over 2000 characters is an error |
| `TextSync.EditAccepted` | client/src/post/posting.rs:841-878 | between bodies in sync the edit sent is accepted and yields that very text iff the text has at most 2000 characters |
| `TextSync.EditExact` | client/src/post/posting.rs:853-875 | one character more or less at the end goes out as append or backspace, and nothing else does |
| `TextSync.RefusedExact` | server/src/client/message_handler.rs:264-291 | exactly which messages the server refuses: out of place, a patch that could change no body at all, begins past the end or inserts too much, and any that leaves more than 2000 characters |
| `TextSync.StepKeeps` | client/src/post/posting.rs:721-886 | every step keeps: all messages under way will be accepted and leave the body the client expects |
| `TextSync.EveryMessageAccepted` | server/src/client/message_handler.rs:265-279 | in every run, drafting and allocating included, no message is rejected and each leaves the server's body equal to the client's when it was sent |
| `TextSync.BodyIsTyped` | client/src/post/posting.rs:721-886 | in every run, while the form is open, the client's body is the text typed last, in draft, allocating and allocated states alike |
| `TextSync.AskedOnThread` | client/src/post/posting.rs:758-783 | in every run a post is asked for only while the form is open, and on the thread it was opened on |
| `TextSync.InSyncWhenQuiet` | server/src/client/message_handler.rs:523-584 | whenever nothing is under way both ends hold the text typed last since the form was opened, as soon as any was typed on a thread; and the server has no post open unless the form is |
| `Codec.EscapeInto` | common/src/codec.rs:26-46 | the escaping loop writes each byte once, with an escape after each header byte |
| `Codec.EscapePieces` | common/src/codec.rs:26-46 | escaping piece by piece is escaping the whole |
| `Codec.Encoder.WriteMessage` | common/src/codec.rs:124-134 | the stream grows by header, type and escaped payload |
| `Codec.Encoder.Finish` | common/src/codec.rs:139-145 | the compressed stream behind a zero byte |
| `Codec.JoinParts` | common/src/codec.rs:95-115 | a one byte and each part behind its length |
| `Codec.LenRoundTrip` | common/src/codec.rs:95-115 | a part's length survives its 32-bit frame iff it is below 2^31 |
| `Codec.MessageSplitter.Write` | common/src/codec.rs:300-347 | the splitter's run-copying loop equals a byte by byte scan, errors included |
| `Codec.ChunkedExact` | common/src/codec.rs:300-347 | splitting a decodable stream chunk by chunk gives the same as whole iff no chunk ends on a header byte |
| `Codec.ScanStream` | common/src/codec.rs:300-347 | the scan of an encoded stream finds each payload, offset and type |
| `Codec.PartsRead` | common/src/codec.rs:259-278 | reading the split form gives every message back, in order |
| `Codec.FillSplitter` | common/src/codec.rs:171-234 | the decoder, recursion included, computes `Decode` |
| `Codec.FillVector` | common/src/codec.rs:193-229 | the loop over length-prefixed parts, with its length checks |
| `Codec.Decoder.ReadNext` | common/src/codec.rs:259-278 | the slice of the next message, or not found |
| `Codec.DecodeWellFormed` | common/src/codec.rs:171-234 | for arbitrary bytes, whatever decodes has nondecreasing offsets inside the buffer, one per type, so no read slices out of range |
| `Codec.JoinDecodes` | common/src/codec.rs:95-115 | decoding a join is decoding its parts in order, whatever they hold |
| `Codec.JoinAppends` | common/src/codec.rs:171-234 | parts that decode alone are appended: buffers, shifted offsets and types |
| `Codec.BundleRoundTrip` | common/src/codec.rs:66-278 | messages encoded together, joined, and joined again to any depth decode to exactly those messages, in order |
| `Streams.ScanExact` | common/src/codec.rs:300-347 | bytes are split iff they are an encoding, and into exactly the messages encoded |
| `Streams.RefusedExact` | common/src/codec.rs:300-347 | bytes are refused iff, after what does encode messages, a header byte comes last or is followed by no type; and with which error |
| `Streams.VectorExact` | common/src/codec.rs:193-229 | a joined buffer decodes iff it is the join of parts that decode one after the other, and to what they hold |
| `Streams.VectorRefusedExact` | common/src/codec.rs:193-229 | and is refused iff, after such parts, one is cut short or does not decode; and with which error |
| `Streams.DecodeExact` | common/src/codec.rs:165-234 | for arbitrary bytes: a buffer decodes iff it holds a compressed stream of messages or is a join of buffers that do, to any depth, and to those messages |
| `BodyLeaves.SplitPunctuation` | server/src/body/fragment.rs:142-182 | at most one character of punctuation goes on each side, and the parts add up to the word |
| `BodyLeaves.LinesSources` | server/src/body/fragment.rs:4-49 | words, links, commands, punctuation, spaces and newlines add up to the fragment |
| `BodyMeaning.LinkSays` | server/src/body/links.rs:133-250 | a post link or reference stands for its own word, extra signs left in front |
| `BodyMeaning.CommandSays` | server/src/body/commands.rs:6-95 | each command leaf says what its word says: name, argument, dice rolls, faces and offset within their ranges |
| `BodyMeaning.MergeReads` | common/src/payloads/post_body.rs:283-350 | appending a node appends its reading |
| `BodyWords.SplitExact` | server/src/body/fragment.rs:142-182 | which punctuation is split off a word, both ways |
| `BodyWords.LinkExact` | server/src/body/links.rs:133-250 | from the word alone: signs, then two and a number whose post exists or has not been fetched, or three and the name of a reference, are a link with the rest of the signs in front; and no other word is one |
| `BodyWords.LevelExact` | server/src/body/formatting.rs:176-195 | a line is quoted as often as it has signs in front, but for those that belong to a link |
| `BodyWords.URLExact` | server/src/body/fragment.rs:109-137 | which words are URLs, and that one is embedded iff the post is closed and a pattern for it matches |
| `BodyWords.FixedExact` | server/src/body/commands.rs:6-95 | from the word alone, both ways, which commands without an argument there are |
| `BodyWords.ArgumentExact` | server/src/body/commands.rs:6-95 | and which with one: countdown and autobahn with their defaults and limits, and dice |
| `BodyWords.DiceExact` | server/src/body/commands.rs:6-95 | and which words roll dice: how many, of how many faces, with what offset |
| `BodyComplete.SpacedWordRight` | server/src/body/fragment.rs:18-106 | a word between spaces is text only if it stands for nothing else, with or without the punctuation around it; otherwise it becomes the leaf it stands for |
| `BodyClean.NothingMissed` | server/src/body/mod.rs:32-41 | for every body, no text of its tree holds between spaces a link, reference or URL, nor, outside quotes, a command |
| `BodyClean.FlagsObeyed` | server/src/body/fragment.rs:18-137 | for every body, an open post has nothing embedded, a closed one every URL for which a pattern matches, and no quote holds a command |
| `BodyMethods.ParseWord` | server/src/body/fragment.rs:109-137 | leading signs, URL or text, appended in place |
| `BodyMethods.ParseLink` | server/src/body/links.rs:213-250 | a link with its extra signs, or nothing |
| `BodyMethods.ParseCommand` | server/src/body/fragment.rs:56-106 | a command takes back the closing parenthesis split off as punctuation |
| `BodyMethods.ParseLineFragment` | server/src/body/fragment.rs:18-49 | the loop over the words of a line appends exactly `Line` |
| `BodyMethods.ParseFragment` | server/src/body/fragment.rs:4-15 | the loop over lines appends exactly `Lines` |
| `BodyMethods.SplitAndParse` | server/src/body/formatting.rs:10-44 | one level: what is before, the span and what follows; ends by remaining length and level |
| `BodyMethods.WithRemainder` | server/src/body/formatting.rs:22-31 | after a closed span parsing restarts at the outermost level; an empty span drops the rest |
| `BodyMethods.Matched` | server/src/body/formatting.rs:66-97 | a span is collected into a fresh node and wrapped |
| `BodyMethods.CloseLevel` | server/src/body/formatting.rs:176-195 | lines since the last change of level are committed, quoted or not |
| `BodyMethods.ParseQuoted` | server/src/body/formatting.rs:176-236 | the line loop appends exactly the pieces of the maximal runs |
| `BodyMethods.ParseBody` | server/src/body/mod.rs:32-41 | the parser ends on every body and returns the tree of its pieces |
| `BodyQuotes.SegmentsExact` | server/src/body/formatting.rs:197-236 | quoting cuts a body into its maximal runs of whole lines of one level, and they add up to it |
| `BodyParser.ParseReads` | server/src/body/formatting.rs:176-236 | for every body the leaves in order spell the sources of its pieces, and with delimiters what was written |
| `BodyParser.ParseNormal` | server/src/body/formatting.rs:10-109 | every tree is in normal form: lists of at least two, no list or nothing inside a list, no two texts side by side, no empty text |
| `BodyText.ConservationExact` | server/src/body/formatting.rs:10-44 | the leaves spell the recorded sources of the pieces, and these are the body without its delimiters iff no empty span is followed by text in its fragment; otherwise they are shorter |
| `BodyText.TextConserved` | server/src/body/formatting.rs:10-236 | without code and doubled delimiters every other character is kept exactly once and in order |
| `BodyWritten.WrittenExact` | server/src/body/formatting.rs:10-236 | read with its delimiters, the tree spells the recorded text of its pieces, and that is the body as written iff no empty span is met; otherwise it is shorter |
| `BodyWritten.EmptySpanLosesText` | server/src/body/formatting.rs:22-31 | of `a****b` only the first letter is left, and no reading of the tree gives the body, with its delimiters or without |
| `BodyWritten.ParsedAsWritten` | server/src/body/formatting.rs:10-236 | without doubled delimiters the tree reads back as exactly the body, code and nesting included |
| `BodyWritten.ParseFits` | common/src/payloads/post_body.rs:482-500 | what the parser makes of a body of at most 65535 characters can be diffed and patched, given that of its highlighted code: the hypothesis of the convergence of replicas |
| `Scheduler.SchedulerActor.TryRun` | server/src/mt_context.rs:377-388 | the whole queue becomes the batch iff there is one and the lock is free |
| `Scheduler.SchedulerActor.Queue` | server/src/mt_context.rs:412-419 | a message is queued and a batch tried |
| `Scheduler.SchedulerActor.PushBack` | server/src/mt_context.rs:611-613 | unprocessed messages return ahead of the queue in their order |
| `Scheduler.SchedulerActor.Done` | server/src/mt_context.rs:599-638 | the reaction to a finished batch in each state |
| `Scheduler.SchedulerActor.Stop` | server/src/mt_context.rs:437-463 | stopping is refused, deferred or decided by the actor |
| `Scheduler.Conservation` | server/src/mt_context.rs:377-638 | in every run, stops included, until the scheduler terminates each message sent is in exactly one place |
| `Scheduler.StepConserves` | server/src/mt_context.rs:377-638 | no step of sender, scheduler or batch task loses or repeats a message |
| `Scheduler.StepKeepsOrder` | server/src/mt_context.rs:377-419 | a step keeps first-in first-out order unless it starts a batch while earlier messages are on their way back |
| `Scheduler.OrderExact` | server/src/mt_context.rs:389-406 | it is exactly such a start that breaks the order |
| `Scheduler.Overtaken` | server/src/mt_context.rs:389-406 | such a start is reached: a run from the start in which the fourth message is handled while the third is on its way back |
| `Scheduler.OrderWithoutStops` | server/src/mt_context.rs:377-638 | while the actor does not stop, handled, batch, queue and mailbox are the messages sent, in order |
| `Scheduler.AllHandledWhenQuiescent` | server/src/mt_context.rs:403-407 | if the end of a batch is only handled once the lock is free, a quiescent system has handled every message |
| `Scheduler.StuckExact` | server/src/mt_context.rs:377-419 | the scheduler is stuck after a mail iff the batch that has ended still held the lock, no end of a batch is to come and the queue is not empty; no other step changes whether it is |
| `Scheduler.AllHandledExact` | server/src/mt_context.rs:377-638 | in every run without stops a quiescent system has handled every message iff the last mail found the lock free or left nothing in the queue |
| `Scheduler.NoMailNothingSent` | server/src/mt_context.rs:412-419 | and if no mail was received there was nothing to handle |
| `Scheduler.Stranded` | server/src/mt_context.rs:403-407 | otherwise a message can stay pending with nothing left to wake the scheduler: a concrete run |
| `Scheduler.BatchExact` | server/src/mt_context.rs:377-388 | a batch is begun only with the lock free, with everything that waits in order; and with the lock free a mail begins one if anything waits |
| `Scheduler.EndsExact` | server/src/mt_context.rs:437-463 | when the scheduler ends: asked with the lock free and nothing queued, unless a message has stopped the actor, and the actor agrees; or at the end of a batch that has ended the actor |
| `Scheduler.StopEndsBatch` | server/src/mt_context.rs:599-638 | a message that stops the actor is the last of its batch, the rest is handed back, and one that ends it is final |
| `Scheduler.EndedStays` | server/src/mt_context.rs:599-638 | an actor that a message has ended stays so at every step but the question whether to stop |
| `Scheduler.EndsWithMailboxOnly` | server/src/mt_context.rs:437-463 | in every run in which no message stops the actor, all that is left unhandled when the scheduler ends is what its mailbox still holds |
| `StopRequests.StopHonoured` | server/src/mt_context.rs:437-463 | asked right after the batch in which the actor has asked to be stopped, the scheduler ends iff the lock is free and the actor agrees, whatever is queued |
| `StopRequests.StopDeclined` | server/src/mt_context.rs:599-638 | if the actor does not agree, it goes on with everything queued, in order |
| `StopRequests.StopForgotten` | server/src/mt_context.rs:599-638 | a note received in between makes the scheduler forget that the actor has asked |
| `StopRequests.Turned` | server/src/mt_context.rs:437-638 | in every run, once that has happened with the lock free and something queued, nothing changes until a message is sent |
| `StopRequests.StopLost` | server/src/mt_context.rs:437-638 | a run from the start that comes to that |
| `ThreadIndex.PulseOnThread` | server/src/feeds/index/mod.rs:105-141 | a pulse applies to a thread all that was queued for it and leaves it for others |
| `ThreadIndex.IndexConserves` | server/src/feeds/index/mod.rs:98-154 | in every run each thread's applied changes followed by its queued ones are exactly what its feed sent: none lost, repeated or reordered, even if sent before the thread was known |
| `ThreadIndex.PulseCatchesUp` | server/src/feeds/index/mod.rs:105-141 | after a pulse a known thread shows every change sent so far |
| `ThreadIndex.ChangesExact` | server/src/feeds/index/mod.rs:121-141 | a list of changes counts its insertions, in 64 bits, shows each post as the last changes about it have it, and changes nothing else |
| `ThreadIndex.NewThreadExact` | server/src/feeds/index/mod.rs:172-200 | a new thread shows its opening post, open and empty, and counts it |
| `LastFive.Last5.Push` | server/src/feeds/thread/last_5.rs:37-46 | an id takes the spare slot and all slots in use are sorted; from the first push on the lowest is zero |
| `LastFive.Last5.Min` | server/src/feeds/thread/last_5.rs:22-26 | the lowest id kept is the one first given or zero, so every post of a thread counts as recent |
| `LastFive.PushedExact` | server/src/feeds/thread/last_5.rs:37-46 | which ids are kept after a push and in what order; only one larger than the fifth is turned away |
| `Sharing.StepKeeps` | server/src/feeds/thread/writer.rs:76-145 | every step of a thread feed keeps: all it has told the index can be followed from the thread as the index first had it, and leads to the feed's posts, but for those of which an edit was withheld |
| `Sharing.SetsFollow` | server/src/feeds/thread/writer.rs:76-145 | in every run in which no edit is shared of a post after one withheld, each message of each change set sent announces its change on what the sets before have made of the thread, every patch made against the body shown |
| `Sharing.RisingNeverAgain` | server/src/feeds/thread/writer.rs:76-91 | that is so if the lowest recent id never falls |
| `Sharing.SharingExact` | server/src/feeds/thread/writer.rs:76-91 | after a pulse all that was sent can be followed iff each post of which an edit is shared is shown as it was before the edit, but for what the edit replaces |
| `Withholding.SharedTooLate` | server/src/feeds/thread/writer.rs:76-91 | a run from the start in which the lowest recent id falls, and a patch is sent of a text the index was never told of |
| `IndexPipeline.StepKeeps` | server/src/feeds/index/mod.rs:76-237 | every step of thread feeds, index and readers together keeps: what the index has applied and what is queued are what each feed sent, and all of it can be followed |
| `IndexPipeline.PulseFollows` | server/src/feeds/index/mod.rs:105-141 | at every pulse of the index each message it sends announces the change applied beside it |
| `IndexPipeline.FeedsToReaders` | server/src/feeds/index/mod.rs:76-156 | in every run, after each pulse of the index every client with a catalog shows body and open flag of every post the index has of a flushed feed as the feed has them, but for posts of which an edit was withheld |
| `IndexPipeline.NothingWithheld` | server/src/feeds/thread/writer.rs:76-91 | with recent ids as low as the code keeps them no edit is ever withheld |
| `IndexPipeline.FeedsToAllReaders` | server/src/feeds/index/mod.rs:76-156 | and then readers of the index show all these posts as the feeds have them |
| `IndexReaders.StepKeeps` | server/src/feeds/index/mod.rs:76-237 | with sets that can be followed, as `IndexPipeline.PulseFollows` proves them to be, every step of index and clients keeps: a client that has taken over a catalog shows every post of the index, but for threads not announced yet, which are as they were inserted |
| `IndexReaders.IndexConvergence` | server/src/feeds/index/mod.rs:76-156 | in every run with such sets, after each pulse every subscribed client that has taken over a catalog shows every post of the index, and so does each one whose fetch had been waiting |
| `IndexDeliveries.PulseTakenIn` | server/src/feeds/index/mod.rs:76-156 | what each client makes of what it is sent at a pulse: those that waited take over the catalog, those subscribed the new threads and the changes |
| `IndexDeliveries.BatchTakenIn` | server/src/feeds/index/mod.rs:76-156 | taken in, the batch gives the new threads and then every change announced, in order |
| `IndexDeliveries.ToAllExact` | server/src/feeds/index/mod.rs:76-156 | the batch goes once to each client and to nobody else |
| `IndexDeliveries.NewThreadTags` | server/src/feeds/index/threads.rs:74-114 | a new thread adds exactly its tags to those in use |
| `IndexDeliveries.ChangesKeepTags` | server/src/feeds/index/threads.rs:74-114 | and changes of its posts leave them |
| `IndexFeed.Feed.InsertThread` | server/src/feeds/index/mod.rs:172-200 | the thread is shown, announced and a pulse scheduled |
| `IndexFeed.Feed.Receive` | server/src/feeds/index/mod.rs:202-215 | a change set is queued last and a pulse scheduled |
| `IndexFeed.Feed.FetchFeedData` | server/src/feeds/index/mod.rs:217-237 | a cached catalog is sent at once, otherwise the fetch waits |
| `IndexFeed.Feed.Pulse` | server/src/feeds/index/mod.rs:76-156 | catalogs first, then new threads and the sets of known threads; nothing that could be handled is left without a pulse scheduled |
| `IndexFeed.Feed.ApplyChanges` | server/src/feeds/index/mod.rs:105-148 | the loop applies and announces sets of known threads and puts the others back in order |
| `IndexFeed.Feed.ApplySet` | server/src/feeds/index/mod.rs:121-141 | changes of a set are applied in order |
| `IndexFeed.Catalog.UsedTags` | server/src/feeds/index/threads.rs:74-95 | the message lists the tags of the current threads, cached or not |
| `IndexFeed.Catalog.Put` | server/src/feeds/index/threads.rs:107-114 | any change drops both cached messages |
| `MessageCaches.ItemMessage` | server/src/util.rs:80-94 | a cached message is served only for the same type, and is that of the current value |
| `MessageCaches.PartitionedCache.Touch` | server/src/feeds/thread/page.rs:84-90 | mutable access drops the joined message |
| `MessageCaches.PartitionedCache.Put` | server/src/util.rs:125-134 | mutable access to a value drops its message too |
| `MessageCaches.PartitionedCache.GetMessage` | server/src/feeds/thread/page.rs:30-67 | what is served, from cache or not, is what encoding the current values anew gives |
| `MessageCaches.ItemMessages` | server/src/feeds/index/threads.rs:47-62 | start marker and one message per value, in iteration order, caches kept current |
| `MessageCaches.ServedDecodes` | server/src/feeds/thread/page.rs:30-67 | a served message decodes to start, one message per current value and end, and rebuilds exactly the current values |
| `Snapshots.SnapshotSource.Mutate` | server/src/util.rs:223-230 | mutable access drops the kept snapshot |
| `Snapshots.SnapshotSource.TakeSnapshot` | server/src/util.rs:181-196 | a kept snapshot is handed out again, otherwise one with the next version |
| `Snapshots.VersionsNameValues` | server/src/util.rs:158-253 | snapshots of one source with equal versions hold equal values, versions never fall, and one that compares equal to the source holds its current value |
| `Snapshots.VersionsExact` | server/src/util.rs:158-253 | in every run a snapshot is of the value last left in the source; two have the same version, and a source compares equal to one, iff nothing was mutated in between |
| `RegistryActor.Actor.RegisterClient` | server/src/registry.rs:170-189 | a client starts out with no feed and no key |
| `RegistryActor.Actor.UnregisterClient` | server/src/registry.rs:194-216 | a client leaves its feed and the key it is registered with; its feed is woken |
| `RegistryActor.Actor.SetFeed` | server/src/registry.rs:225-269 | refused for unknown feeds and clients; otherwise the client moves, both feeds are woken and the new one sends its data |
| `RegistryActor.Actor.SetPublicKey` | server/src/registry.rs:279-292 | the key is recorded both ways |
| `RegistryActor.Actor.SnapshotClients` | server/src/registry.rs:382-395 | the lazily kept snapshot of a feed's clients |
| `RegistryState.RegistryAgrees` | server/src/registry.rs:170-269 | after any run with unique ids a client is in a feed's map exactly when its descriptor names the feed, and the snapshot served equals that map |
| `RegistryState.RegisterExact` | server/src/registry.rs:170-189 | registration keeps the agreement iff the id is not in use by a client that follows a feed |
| `RegistryState.WokenExact` | server/src/registry.rs:194-269 | a feed is woken exactly when its members change |
| `RegistryState.FetchExact` | server/src/registry.rs:225-269 | a feed is asked for its data for exactly the client that newly follows it, and last |
| `RegistryState.ClientsByHistory` | server/src/registry.rs:170-292 | in every run, whatever the ids, the registry knows of each client exactly what its own history says, and of each feed that it was added |
| `RegistryState.SameVersionSameClients` | server/src/registry.rs:382-395 | over any run two snapshots of a feed's clients with equal versions hold the same clients, the default one included |
| `RegistryState.PublicKeyExact` | server/src/registry.rs:279-292 | key map and descriptors stay in agreement iff the client had no key before or the same one |
| `RegistryState.StaleKey` | server/src/registry.rs:279-292 | a run after which a replaced key still lists a client that has left |
| `RegistryState.KeysStayListed` | server/src/registry.rs:279-292 | every client with a key is always listed under it |
| `RelativeTimes.NewRelativeTime` | client/src/time/scheduler.rs:101-128 | the dividing loop yields past or future, the largest unit that fits and the whole number of it, rounded toward now |
| `RelativeTimes.RelativeBounds` | client/src/time/scheduler.rs:101-128 | for all 32-bit times d*u <= distance < (d+1)*u, no larger unit fits, and d is at most 138, so the cast to 8 bits never truncates |
| `RelativeTimes.ShowsExact` | client/src/time/scheduler.rs:101-128 | the time shown is the one that is true of now and the value, past and future told apart, in the largest unit that fits |
| `Ticks.InsertStable` | client/src/time/queue.rs:13-28 | insertion keeps the queue sorted, adds one tick and puts it behind those due at the same time |
| `Ticks.RemoveOne` | client/src/time/queue.rs:30-42 | removal takes one tick of its subscriber and nothing else |
| `Ticks.NextTimeExact` | client/src/time/scheduler.rs:170-184 | the next tick lies in the future iff its time fits 32 bits; it is then the first multiple of the unit that does |
| `Ticks.NextExact` | client/src/time/scheduler.rs:170-184 | the next tick comes at the first multiple of the unit shown and tells what is so then |
| `Ticks.RegisteredAdds` | client/src/time/scheduler.rs:284-288 | registering queues one tick, which follows on what is told at once |
| `Ticks.PassAdvances` | client/src/time/scheduler.rs:263-279 | a pass replaces each tick that was due by the one that follows on it, and leaves all others |
| `Ticks.QueueTells` | client/src/time/scheduler.rs:204-299 | in every run each queued tick is about the value its subscriber gave last, and tells what is so when it is due, or was so at the last correction |
| `Ticks.FiredShow` | client/src/time/scheduler.rs:263-279 | in every run without a correction, all that is told is true of the time it was due |
| `Ticks.CorrectedExact` | client/src/time/scheduler.rs:239-261 | after a correction a tick tells what is so when it is due iff that is what is so already |
| `Ticks.CorrectionLags` | client/src/time/scheduler.rs:239-261 | a run in which a subscriber is told three minutes where it has become four |
| `Ticks.PassCompletes` | client/src/time/scheduler.rs:263-279 | a pass ends, fires exactly what was due, each once and in order, and leaves every subscriber's ticks in place, all strictly later than now |
| `Ticks.OneTickEach` | client/src/time/scheduler.rs:204-299 | in every run each subscriber has exactly one tick, nobody else has one, and the queue is sorted |
| `TickQueue.InsertBefore` | client/src/time/queue.rs:13-28 | the linked list is relinked to the sorted insertion |
| `TickQueue.RemoveFrom` | client/src/time/queue.rs:30-42 | the linked list without the first tick of a subscriber |
| `TickQueue.Queue.InsertTick` | client/src/time/queue.rs:46-48 | insertion into the linked queue equals the sorted insertion |
| `TickQueue.Queue.RemoveTick` | client/src/time/queue.rs:68-70 | removal from the linked queue takes the first tick of the subscriber |
| `TickQueue.Queue.Pop` | client/src/time/queue.rs:60-65 | the first tick is taken off |
| `TickQueue.Queue.Recompute` | client/src/time/queue.rs:80-88 | ticks are changed in place without changing their order |
| `TickScheduler.SetNextTick` | client/src/time/scheduler.rs:170-184 | the divisor loop finds the size of the unit |
| `TickScheduler.Scheduler.Register` | client/src/time/scheduler.rs:284-288 | the subscriber is answered at once and queued |
| `TickScheduler.Scheduler.ChangeTimestamp` | client/src/time/scheduler.rs:289-293 | the old tick is replaced |
| `TickScheduler.Scheduler.Disconnect` | client/src/time/scheduler.rs:296-298 | the tick of a subscriber that leaves is removed |
| `TickScheduler.Scheduler.StateUpdated` | client/src/time/scheduler.rs:239-261 | a new clock correction recomputes what is shown without moving a tick; after that or a change of format every subscriber is told |
| `TickScheduler.Scheduler.OnTick` | client/src/time/scheduler.rs:263-279 | the pop and reinsert loop ends and equals one pass |
| `SetMaps.SetMap.Insert` | common/src/util.rs:26-28 | one pair is added to the relation |
| `SetMaps.SetMap.Remove` | common/src/util.rs:30-39 | one pair is removed, told whether it was there, and empty sets go away |
| `SetMaps.PairsDetermine` | common/src/util.rs:26-39 | without empty sets the relation determines the map |
| `SetMaps.DoubleSetMap.Insert` | common/src/util.rs:120-123 | one pair is added on both sides |
| `SetMaps.DoubleSetMap.GetByKey` | common/src/util.rs:126-128 | exactly the values related to a key |
| `SetMaps.DoubleSetMap.GetByValue` | common/src/util.rs:131-133 | exactly the keys related to a value, never an empty set |
| `SetMaps.DoubleSetMap.RemoveByKey` | common/src/util.rs:135-141 | all pairs of a key go, on both sides |
| `SetMaps.DoubleSetMap.RemoveByValue` | common/src/util.rs:143-149 | all pairs of a value go, on both sides |
| `SetMaps.DoubleSetMap.RemoveByKeyValue` | common/src/util.rs:151-157 | one pair goes on both sides, but the side by key keeps the key |
| `SetMaps.EmptySetLeft` | common/src/util.rs:151-157 | that side stays free of empty sets iff the value was not the last of its key |

## Left out

- Convergence.Convergence: is about partitioned pages. The client has no handler for the message of an immutable page (client/src/connection.rs), so such a page is dropped with an error there, and the lemma says nothing of a client that received only that.
- Convergence.Convergence: assumes that database reads and pulses succeed, that a post id is in use on one page only, that page indices are below 2^31, that pages are begun one after the other, and that bodies have strings of at most 65535 characters: for parsed ones `BodyWritten.ParseFits` says when.
- Convergence.Convergence: a client holds no page of the thread at the moment it subscribes; the race of switching rapidly between two feeds, which the code mentions at client/src/state/agent.rs:26-27, and the placeholder of a client's own new post are not modelled. Whatever a client does ask for, fetches reach the feed in any order and number.
- Pipeline.AuthorToReaders: what the server hands to the feed has arrived before the next step; finalized nodes of a closed post are a parameter.
- IndexReaders.IndexConvergence: has as a hypothesis on pulses that change sets can be followed, which `IndexPipeline.PulseFollows` discharges for sets that come from thread feeds; thread metadata other than posts is left out.
- IndexPipeline.FeedsToReaders: index and feed each stamp the opening post with their own clock, so the result is about body and open flag; posts inserted on a page the feed did not know are never told to the index, so it is about the posts that are. A page read from the database is as the index read it, and a set flushed is received at once; a thread is created with its feed before the index lists it.
- ThreadFeed.Feed.FetchPage: pages are values with their cached message inside the feed; the cache in place is modelled once, in `MessageCaches.PartitionedCache`. Page indices from 2^31 on, an error in the code, are outside the type.
- ThreadFeed.Feed.Pulse: the clients of a flush are a parameter, as the registry is asked for them in between; thread metadata other than the page count, the bump time and the copy of new bodies sent to the database flusher are left out.
- Writer.FeedWriter.WritePostMessage: the least recent id is a parameter here; `LastFive` has the collection kept for it, which does not keep the five largest ids its comment describes.
- Replica.Agent.NavigateTo: where the client already is, and with it the early return for a location that has not changed, is left out: asking for it again then sends nothing. A panic for a page counted from the end of a thread without metainformation is a step that does nothing.
- Replica.Agent.RegisterPage: rendering triggers, post metadata by thread, images, and the change of location that follows are left out. The result is given for pages that share no post, as the feed's never do.
- TextSync.EveryMessageAccepted: the connection is live and delivers in order. Reconnecting, which may allocate twice, thread creation, captchas, images and quoting into the text area are left out.
- TextSync.Agent.SetState: what is sent to views is left out, and all subscribers count as one.
- TextSync.MessageHandler.Receive: closing a post, at lines 288-291, is modelled too; the arms for threads, synchronization, pages and tags are not.
- Codec.BundleRoundTrip: Deflate is a pair of inverse functions whose output comes in chunks; serialized payloads are byte strings; parts are shorter than 2^31 bytes and no chunk ends on a header byte, both exact conditions proved separately.
- MessageCaches.ServedDecodes: serialization is a function with a decoder for the values at hand. The parallel map over the values is a sequential one.
- MessageCaches.ItemMessage: the cacher is a value owned by the map, handed back changed, not an object of its own.
- Scheduler.Conservation: a delayed or repeated message counts as sent when it reaches the mailbox; the lock is taken from spawning to the end of the batch task; message handlers are opaque but for stopping the actor.
- IndexFeed.Feed.Pulse: sorting tags, serialization and the addresses of clients are parameters; post ids sent to the index are taken as they come.
- Snapshots.VersionsNameValues: versions are unbounded; 2^64 snapshots are out of reach.
- RegistryActor.Actor.InsertThread: only that the feed exists from then on; starting its actor and telling the index are left out.
- Ticks.OneTickEach: a subscriber registers once and the clock leaves room for one more year in 32 bits; the clock itself, its correction by the server and what is shown between two ticks are left out.
- BodyMethods.SplitAndParse: one method for all levels stands for the functions a macro generates; texts are sequences of characters where the code slices bytes at ASCII positions.
- BodyMeaning.CommandSays: URL parsing, embed patterns and syntax highlighting are opaque functions; finalizing pending nodes after a post is closed is left out.
- TextDiff.Apply: `estimate_new_size`, which only sizes an allocation, is left out.
- PostBody.ApplyPatch: a mutable reference to a tree is taken in and handed back as a value.
- Country lookup, the page selector, rendering, language packs, tripcodes, signatures, spam scores, the database and the image service: user interface, foreign code or small and easy.
