# The evidence path of the capture daemon, verified

The daemon captures evidence: an extension (or any client) sends a payload of known size over a Unix socket,
the daemon stores it in chunks beside a journal of attempts, and clients read it back page by page. This
project models that path from the bytes on the wire to the stored rows and back, and the state machines that
surround it, and proves what the repository promises of them.

Sizes, offsets and limits are 64-bit words (`Bytes.uint64`), so that verification shows that nothing on the
path wraps around except where the source does so on purpose. Readers and writers (`Streams.Stream`) follow an
arbitrary plan: short reads, an end of file together with data, errors, misreported writes. Every statement
against the database, and every context check, may fail (`Store.faults`). A transaction is a working copy that
commits or is forgotten. SHA-256, UTF-8 validity and the full-text match are arbitrary functions (`Tables.Oracle`);
where a result needs a hash that tells payloads apart, it says so. JSON is a pair of arbitrary functions that
undo each other. A parameter called `now` is the clock.

| module | what it holds |
|---|---|
| Bytes, Streams, Order | words and headers, unreliable readers and writers, ordered enumeration |
| Evidence, Tables, Storage, Fidelity | chunk layout, the tables, append and page reads, when a stored event is exact |
| Attempts, Journal, Search | the attempt journal, all runs of its transactions, the search projection |
| Framing, Wire, Paging, Rpc | both framings, page-length arithmetic, why two ends stay in step |
| Replies, Capture, Answers | the right reply to each request, what becomes of a capture, what a whole reply tells |
| Daemon, Service | the daemon's end of a connection, and what it is served |
| Client, Gate, Mcp | the client's end, its operations under concurrent use, and a tool that reads through it |
| Session | what the two ends have of each other, and the end-to-end results |
| Lifecycle, SocketLock, HttpToken | start and shutdown under every interleaving; processes sharing a root; token creation |
| CaptureQueue, GraphWalk | the extension's bounded queue and its walks over object graphs |

Some things the source or its comments suggest are not so, and here is when they are:

- A comment on `ReadEventEvidence` promises exact stored bytes (`internal/storage/storage.go:145`), but
  `consumeEvidence` stores one chunk for each Read (line 198). Rows serve every page exactly if and only if every
  Read filled its buffer or finished the payload (`Fidelity.ExactIffFullReads`); `Fidelity.ShortReadExample` is an
  event of which one page is silently wrong. Idempotent retry and completion have the same condition
  (`Fidelity.RetryIffFullReads`, `Fidelity.CompletableIffFullReads`). The daemon acknowledges only completed
  captures, so what it acknowledges is exact (`Session.CapturedIsReadBack`).
- A capture request with a foreign protocol version or an empty request ID is refused while the connection is
  kept and its evidence is not read (`internal/daemon/server.go:250-255`). The two ends stay in step if and only if
  no request is of that kind (`Rpc.Aligned`, `Rpc.ConsumesWholeIff`); `Session.RefusedRequest` shows the turn that keeps
  the connection and leaves everything behind the frame unread. The repository's own client sends no such request.
- A capture whose completion fails leaves its attempt pending until the next recovery
  (`internal/daemon/server.go:318-321`). With a working store and nobody else at work that is so exactly when, before
  the capture, `Capture.LeftPending` holds (`Daemon.Daemon.CaptureAppend`): its evidence comes whole, but for a new
  event not in full reads, and for one that is there as the stored evidence with other metadata.
  `Capture.TwoReadsLeavePending` is such a capture.
- When a push throws on an oversized header, the frames it had decoded before are lost with it, and no others
  (`Framing.AnyChunking`).

## Model

| member | source | states |
|---|---|---|
| Bytes.HeaderBijective | internal/protocol/protocol.go:99-116 | the 8-byte header and the 64-bit length determine each other, both ways |
| Bytes.HeaderSpells | internal/protocol/protocol.go:82-107 | the eight bytes are the base-256 digits of the length, most significant first |
| Streams.Stream.WriteAll | internal/protocol/protocol.go:180-195 | all the data or an error; what went out is a prefix; on a reliable writer, no error |
| Evidence.ValidChunk | internal/storage/storage.go:200 | in 64-bit words, without wrap-around: true exactly when the index intersects the payload and the length is the canonical one there |
| Evidence.CanonicalIffSplit | internal/storage/storage.go:199-200 | chunks pass the row check exactly when they are the canonical split of their own concatenation |
| Evidence.CanonicalIsSplit | internal/storage/storage.go:199-200 | a canonical table is the split of one and only one payload |
| Evidence.PositionalOfCanonical | internal/storage/storage.go:155-167 | on a canonical table row positions are payload positions |
| Evidence.PagesReassemble | internal/storage/storage.go:145-174 | consecutive pages of any positive sizes that reach the end concatenate to the whole payload |
| Storage.Store.ConsumeEvidence | internal/storage/storage.go:198 | for any reader: on success exactly the declared bytes are consumed, the sink got the chunks the Reads delivered, and the digest is of those bytes; without storage failures it succeeds exactly when the reader delivers |
| Storage.DeliveredBytes | internal/storage/storage.go:198 | the chunks of a delivery concatenate to the declared bytes of the source |
| Storage.CanonicalIffFullReads | internal/storage/storage.go:198-200 | delivered chunks are canonical exactly when each Read returned the lesser of 32 KiB and the rest |
| Storage.RoomyDelivers | internal/storage/storage.go:198 | a reader that can fill the buffer at every call delivers what it has, in full reads |
| Storage.ChunkSink.Consume | internal/storage/storage.go:125-130 | one chunk row at the next index, and a search row if it is valid UTF-8 |
| Storage.Store.StoredEvidence | internal/storage/storage.go:199 | accepts exactly the canonical tables, with the digest of what they stand for |
| Storage.Store.AppendEvent | internal/storage/storage.go:104-135 | a new event commits rows, projection, size and hash of exactly the bytes consumed; an existing one changes nothing and is reported present exactly when stored and sent evidence verify and agree; any failure changes nothing |
| Storage.Store.EventMetadata | internal/storage/storage.go:138-143 | size and hash of the event, or not found exactly when it is not there |
| Storage.Store.ReadEventEvidence | internal/storage/storage.go:146-174 | for an arbitrary table: with a reliable writer it succeeds exactly when each chunk the page intersects is there with its valid length, and then writes those positions; a conflict has written all before the first bad chunk; any failure has written a checked prefix |
| Fidelity.ExactIffFullReads | internal/storage/storage.go:104-174 | a committed event serves every page exactly iff all Reads were full; otherwise reading it whole fails |
| Fidelity.ShortReadExample | internal/storage/storage.go:146-174 | reads of 100, 32768 and 32768 bytes commit, and a ten-byte page then passes all checks and is wrong |
| Fidelity.PageReadIsPage | internal/storage/storage.go:146-174 | on a canonical table a complete read appends exactly that slice of the payload |
| Fidelity.RetryIffFullReads | internal/storage/storage.go:109-117 | a repeated append is recognised iff the first one's Reads were full and size and hash agree |
| Fidelity.RetryTellsBytesApart | internal/storage/storage.go:109-117 | unless the two payloads collide, a retry after full reads is recognised exactly for the same bytes |
| Fidelity.CompletableIffFullReads | internal/storage/attempts.go:246-273 | a fresh event can complete its attempt iff all Reads were full |
| Attempts.BeginCaptureAttempt | internal/storage/attempts.go:45-80 | a valid new attempt is inserted as pending, an equal pending one is accepted unchanged, all else is a conflict |
| Attempts.CompleteEvidence | internal/storage/attempts.go:246-273 | true exactly when the stored event agrees with the attempt in metadata, sizes, canonical layout and hash |
| Attempts.CompleteCaptureAttempt | internal/storage/attempts.go:83-113 | settles a pending attempt whose evidence verifies, accepts a completed one, and changes nothing otherwise |
| Attempts.MarkCaptureIncomplete | internal/storage/attempts.go:116-142 | settles a pending attempt with its failure stage, accepts a repeat, and changes nothing otherwise |
| Attempts.RecoverPendingCaptures | internal/storage/attempts.go:145-195 | the loop over pending attempts settles all of them or, on any error, none; its two counts are those that verify and the rest |
| Journal.RecoverySettlesAll | internal/storage/attempts.go:145-195 | nothing is left pending, terminal attempts and evidence stay, the verdict on each attempt is the one its own completion would give, and a second recovery changes nothing |
| Journal.StepKeeps | internal/storage/attempts.go:45-195 | every transaction, committed or not, keeps the invariant on tables and takes nothing back |
| Journal.RunPreserves | migrations/001_initial.sql:38-68 | over any stretch of any run, evidence rows and settled attempts stay as they are |
| Journal.CompletedStaysExact | internal/storage/attempts.go:83-113 | in every run with crashes between transactions, a completed attempt stays completed and its event holds, for ever, one payload with matching metadata, canonical chunks, size and hash, of which every page read is the exact slice |
| Search.SearchEvents | internal/storage/storage.go:178-185 | references with the stored fields of matching events, each before the next by project, session, sequence and ID; a match is left out only by the limit, and comes after all of them; a non-positive limit is refused |
| Search.ProjectionTagged | internal/storage/storage.go:126-130 | every search row is a stored, valid chunk of its event, with the event's own keys |
| Order.StringLessIff | internal/storage/storage.go:180 | one string is before another exactly when it is a proper front part or has the smaller character where they first differ |
| Search.SearchIsScan | internal/storage/storage.go:126-133 | in every reachable state, searching the projection finds exactly the events with a matching valid chunk |
| Search.CutIsLeast | internal/storage/storage.go:180 | each match once, ascending, none left out precedes one returned |
| Framing.EncodeEvidenceHeader | extension/protocol.ts:58-66 | the big-endian header of any length that fits 64 bits, refusal of every other |
| Framing.EncodeFramePayload | extension/protocol.ts:46-56 | the payload's length in eight bytes, most significant first, and then the payload, in one buffer; refusal above the bound |
| Framing.FrameDecoder.Push | extension/protocol.ts:83-108 | returns the frames of held plus new bytes and holds the unparsed suffix; throws exactly on an oversized header; afterwards holds fewer than 8 + 2^20 bytes |
| Framing.FrameDecoder.Peek | extension/protocol.ts:110-124 | the first bytes across the chunk queue, unchanged; its invariant error is never reached |
| Framing.FrameDecoder.ReadBytes | extension/protocol.ts:126-143 | removes exactly the first bytes; there is always a chunk to take them from |
| Framing.ParseConserves | extension/protocol.ts:83-108 | the frames, encoded again, followed by the rest are the input |
| Framing.AnyChunking | extension/protocol.ts:83-108 | for every chunking of a stream, empty chunks included, the pushes together return what parsing the stream at once does; they throw exactly on an oversized header, and then exactly the frames of the throwing push are lost |
| Framing.EncodeDecode | extension/protocol.ts:41-108 | any list of bounded payloads, encoded and cut up in any way, decodes to the list |
| Wire.WriteFrame | internal/protocol/protocol.go:82-95 | the payload's length in eight bytes, most significant first, and then the payload, or on an error a prefix of that; nothing for a payload above the bound |
| Wire.ReadEvidenceHeader | internal/protocol/protocol.go:110-116 | consumes exactly one header, however fragmented, and returns the length that its bytes spell; a steady reader with eight bytes suffices |
| Wire.ReadFrame | internal/protocol/protocol.go:199-213 | consumes exactly one frame and returns its payload; a frame above the bound, and no other, is refused as too large, with its header consumed and nothing behind it; a steady reader with a complete frame suffices |
| Wire.StreamEvidence | internal/protocol/protocol.go:145-178 | on success exactly the declared bytes went from source to destination, with their hash; a steady source and a reliable destination suffice |
| Wire.FrameReadBack | internal/protocol/protocol.go:82-95 | no frame can be taken for another, whatever follows it |
| Paging.LengthsAgree | internal/daemon/server.go:365-371 | for all words, the daemon's wrapping length, the client's and the store's are the same and are the page's length |
| Rpc.UnitLengthStable | internal/protocol/protocol.go:82-116 | a request or reply delimits itself, evidence included |
| Rpc.Aligned | internal/client/client.go:201-251 | whenever both ends have kept the connection and are between operations they have had the very same exchanges, and nothing is unread either way |
| Rpc.ConsumesWholeIff | internal/daemon/server.go:249-278 | a daemon that keeps the connection has consumed the whole request iff it was not a refused capture, and otherwise leaves at least a header unread |
| Capture.TwoReadsLeavePending | internal/daemon/server.go:311-321 | two bytes in two Reads: a capture that is left pending |
| Capture.FullReadsComplete | internal/daemon/server.go:311-321 | evidence from a reader that can fill the buffer at every call, of a new event or of a stored one with the same evidence and metadata, is acknowledged |
| Capture.AppendFated | internal/storage/storage.go:104-135 | an append succeeds exactly when the fate computed beforehand says so, and leaves attempts for its event completable exactly when it says so |
| Capture.ValidCaptureIffAttempt | internal/daemon/server.go:324-326 | the daemon's check of a capture is the store's check of its attempt |
| Daemon.Daemon.CaptureAppend | internal/daemon/server.go:292-323 | with other transactions in between: kept only for an acknowledged capture, with exactly its evidence consumed; a whole reply is a true acknowledgement or the error that fits, by case: invalid request, refused attempt, bad header, interrupted or conflicting evidence, failed completion; with a working store, an attempt is left pending only if its header was right, its evidence came and its event is stored; with nobody else at work, the attempt ends as the fate computed beforehand says, is pending exactly as `LeftPending` says, and an unhindered capture is kept |
| Capture.CaptureIsAcknowledged | internal/daemon/server.go:292-323 | begun, appended and completed: the completed attempt is this one, and its event's evidence is what was sent |
| Daemon.Daemon.ReadPayload | internal/daemon/server.go:353-380 | what goes out is the front of the error that fits, or of the stored metadata, the page's length and exactly those positions; if it is all of it, the page was all there; a partial page ends the connection; a working store gives no internal error, and with a reliable writer a page that is there is sent |
| Daemon.Daemon.EventMetadata | internal/daemon/server.go:332-352 | the stored size and hash, or the error that fits; a working store gives no internal error, a working writer keeps the connection |
| Daemon.Daemon.SearchEvents | internal/daemon/server.go:387-403 | what a scan of all chunks finds, in order, cut to the limit with its default, or the error that fits; a working store gives no internal error, a working writer keeps the connection |
| Daemon.Daemon.Answer | internal/daemon/server.go:257-278 | the right answer by operation; a daemon that is not running drops a question about its health without a reply |
| Daemon.Daemon.HandleRequest | internal/daemon/server.go:249-278 | a kept connection has consumed the request's evidence and sent the one right reply, by operation and error case; a dropped one has sent the front of a reply, which if whole tells the truth; the connection is kept, refusals included, whenever nothing is in the way |
| Answers.RightIsServed | internal/daemon/server.go:249-278 | each right reply is one whole reply, with evidence exactly when the client will read evidence |
| Daemon.Daemon.ServeNext | internal/daemon/server.go:239-245 | one turn: if kept, one whole exchange with the right reply; if not, a front part of a truthful reply at most |
| Daemon.Daemon.ServeConnection | internal/daemon/server.go:237-247 | at the head of every turn the daemon has read and sent exactly the exchanges of the turns so far, each with the right reply for its tables, and has drawn on reader, writer and store no further; the last head is one at which something was in the way |
| Service.EveryRequestHasItsTurn | internal/daemon/server.go:237-278 | over a steady reader and a reliable writer, with a working store and nobody else at work, every request of a stream that its tables can answer has its turn, with the right reply of a working store, and there is no other turn |
| Service.AlwaysReadyIsServed | internal/daemon/server.go:237-278 | so for every stream of requests that can be answered whatever transactions come first |
| Service.CaptureIsServed | internal/daemon/server.go:292-323 | a capture that is ready at the start, on a connection of its own, is acknowledged with its evidence |
| Service.ReadIsServed | internal/daemon/server.go:353-380 | a read of a page that is there, on a connection of its own, is served that page, and one of an unknown ID is told so |
| Client.Client.Connection | internal/client/client.go:136-166 | the kept connection or a new one; none once closed |
| Client.Client.Call | internal/client/client.go:201-251 | an answer is a valid response in the last exchange, which asked this request, and a valid response that arrives is the answer; a kept connection has had at most one exchange more, whole |
| Client.Client.ReadPayload | internal/client/client.go:314-406 | success delivered exactly the bytes its metadata implies, and a fitting reply that arrives is a success; an error that arrives is that error, the connection is kept and the destination untouched; a kept connection has had at most one exchange more, its evidence included |
| Client.Client.CopyLimited | internal/client/client.go:390-406 | complete only when exactly the declared bytes went to the destination, and always when both ends work |
| Session.ClientMeetsDaemon | internal/client/client.go:201-251 | a client between operations and a daemon at the head of a turn, both keeping the connection, have had the same exchanges, each answered truthfully, and nothing is unread either way |
| Session.ClientOutlivesDaemon | internal/daemon/server.go:237-247 | once the daemon has dropped the connection, a client that kept it has had the exchanges of its turns and at most one more, whose reply went out whole and is true |
| Session.ServeClient | internal/daemon/server.go:237-247 | both of these, of an actual run of the daemon's loop and any state of the client |
| Session.RefusedIsMisaligning | internal/daemon/server.go:250-255 | every capture of a foreign protocol version or with an empty ID is a request that puts the ends out of step |
| Session.RefusedRequest | internal/daemon/server.go:250-255 | the daemon replies to any such request with the error, keeps the connection, and leaves everything behind the frame unread |
| Mcp.AcceptsIff | internal/mcp/server.go:229-241 | of a page that the client accepted, for a positive limit, the tool accepts exactly those whose offset is not past the end |
| Mcp.ReadPayload | internal/mcp/server.go:149-166 | returns exactly such pages, fails only when the client's read does, and passes on the daemon's error |
| Gate.OneOperation | internal/client/client.go:104-166 | one operation at a time has the connection, and what it drops is its own |
| Gate.ClosedForAll | internal/client/client.go:116-166 | from Close on, no connection is set and no operation completes on one |
| Gate.NothingLeaks | internal/client/client.go:116-166 | at rest only the connection that is set is open, and after Close none |
| Session.ResponsesAreValid | internal/client/client.go:252-271 | each of the daemon's responses is valid for its request and no other |
| Session.PageIsAnswered | internal/client/client.go:314-406 | a page reply of the daemon that arrives over a working connection is one the client's read accepts |
| Session.AcceptedIsReply | internal/client/client.go:314-406 | a page that a client accepts is the daemon's page reply to that query in that turn |
| Session.ReceivedIsStored | internal/client/client.go:314-406 | a page a client accepts has the stored metadata and the stored positions |
| Session.CapturedIsReadBack | internal/daemon/server.go:292-380 | after an acknowledged capture, retries included unless the payloads collide, and any transactions since, every page any client accepts is that page of the bytes sent |
| Session.PagesGiveBackAll | internal/client/client.go:314-406 | accepted pages that follow one another from the start and cover the capture concatenate to the bytes sent, whatever connections and transactions came between |
| Session.SentIsAcknowledged | extension/index.ts:138-150 | an extension's capture whose request resolves is acknowledged in the store with exactly the evidence sent, even if the daemon then dropped the connection |
| Session.AcknowledgementResolves | extension/index.ts:138-150 | an acknowledgement that arrives whole, in whatever pieces, resolves its request |
| Lifecycle.StepKeeps | internal/daemon/server.go:84-217 | every step of starts, closes, the accept loop and handlers keeps the invariant |
| Lifecycle.OneStart | internal/daemon/server.go:84-176 | at most one Start succeeds |
| Lifecycle.HandlersHaveTheStore | internal/daemon/server.go:178-217 | while a handler is not done the store, socket and lock are held; registered connections are at most the used slots, and those at most the maximum |
| Lifecycle.LockOutlives | internal/daemon/server.go:465-495 | store, listener and socket are held only under the lock, so it goes last |
| Lifecycle.ReturnedIsClosed | internal/daemon/server.go:425-495 | any Close, concurrent or not, returns only when the state is Closed, nothing is held and all slots are free |
| Lifecycle.ClosedStays | internal/daemon/server.go:84-105 | a closed server stays closed |
| Lifecycle.ClosesRetryOnce | internal/daemon/server.go:430-462 | the retry loop of Close goes round at most twice |
| Lifecycle.NeverStuck | internal/daemon/server.go:200-217 | giving back a slot and leaving a wait group never block or go below zero; no channel is closed twice |
| Lifecycle.NoDeadlock | internal/daemon/server.go:425-495 | while a Start or Close has not ended, the server can take a step of its own |
| Lifecycle.EndsInTime | internal/daemon/server.go:425-495 | without new calls and connections it takes no more steps than a measure of where everyone is |
| Lifecycle.AllCallsEnd | internal/daemon/server.go:425-495 | and within that many steps every Start and Close can end |
| SocketLock.StepKeeps | internal/daemon/runtime_lock.go:112-166 | every step of any process, crashes and intruding nodes included, keeps the invariant |
| SocketLock.OneStore | internal/daemon/runtime_lock.go:112-166 | at most one process has the store open, and it holds the lock |
| SocketLock.OnlyStaleSocketsGo | internal/daemon/runtime_lock.go:361-406 | every node is under exactly one name or was removed; removed are only sockets, only the expected one, and never one that another live process bound |
| SocketLock.ServedSocketStays | internal/daemon/server.go:465-490 | while a daemon serves, its own socket is the node at the socket's name |
| SocketLock.ShutdownFindsItsOwn | internal/daemon/server.go:478-482 | a shutdown quarantines its own socket and nothing else |
| SocketLock.ShutdownRemovesItsOwn | internal/daemon/server.go:478-482 | a shutdown none of whose calls fails ends with the socket it bound removed and under no name, whatever others do |
| SocketLock.RestoreKeepsBoth | internal/daemon/runtime_lock.go:397-405 | an unexpected node goes back to its name if that is free, and otherwise both it and the node that took the name stay |
| SocketLock.QuarantineIsFree | internal/daemon/runtime_lock.go:361-380 | the rename into quarantine never lands on another node, though the name was looked up steps before |
| HttpToken.TokensAgree | internal/daemon/runtime_lock.go:219-336 | whoever returns a token returns the whole published file, well formed, and so the same one |
| HttpToken.AlwaysConverges | internal/daemon/runtime_lock.go:234-249 | two rounds suffice, and only a file that was bad from the start is reported malformed |
| HttpToken.AllReturn | internal/daemon/runtime_lock.go:219-336 | where no call fails, every caller that has finished has returned the published token, or, if the file was bad from the start, has reported it |
| HttpToken.NoTempsLeft | internal/daemon/runtime_lock.go:299-336 | when all callers have finished, even with failures, no temporary file is left |
| HttpToken.FinishesInTime | internal/daemon/runtime_lock.go:219-336 | no caller takes more than a fixed number of its own steps, whatever the others do |
| HttpToken.CanStep | internal/daemon/runtime_lock.go:219-336 | a caller that has not finished can always take its next step |
| CaptureQueue.CaptureClient.Enqueue | extension/index.ts:93-105 | accepts exactly when open and within both bounds, counts the event as pending or else as dropped, and starts the drain |
| CaptureQueue.CaptureClient.Resume | extension/index.ts:121-136 | a settled request leaves the pending counts and the next event, if any, is at once under way |
| CaptureQueue.CaptureClient.HealthFailed | extension/index.ts:114-119 | a failed health request counts as a transport failure and leaves the queue alone |
| CaptureQueue.CaptureClient.Busy | extension/index.ts:107-110 | flush goes on waiting exactly while an event is pending |
| CaptureQueue.RunsAccount | extension/index.ts:63-136 | after any interleaving: both bounds hold, events are attempted in order of acceptance and one at a time, and one is under way exactly while any is pending |
| CaptureQueue.CallsBalance | extension/index.ts:93-136 | calls of enqueue = dropped + sent + failed + pending |
| GraphWalk.FindUsage | extension/index.ts:276-289 | with a shared `seen` set: true only if a usage is reached; if false, all newly seen is explored and free of usage |
| GraphWalk.FindUsageIn | extension/index.ts:276-289 | terminates on every finite graph, and is true exactly when some reachable object has a defined `usage` |
| GraphWalk.TakeSnapshot | extension/index.ts:176-198 | terminates, restores the stack, and returns the unfolding |
| GraphWalk.SnapshotExact | extension/index.ts:176-198 | position by position the snapshot shows the value, with the mark exactly where an edge returns to an ancestor |
| GraphWalk.MarkedIffCycle | extension/index.ts:176-198 | a snapshot is marked somewhere exactly when the value has a cycle |
| GraphWalk.PlainUnique | extension/index.ts:176-198 | a value has at most one plain unfolding: all of it, without a mark |
| GraphWalk.AcyclicIffPlain | extension/index.ts:176-198 | the snapshot is the plain unfolding exactly when the value has no cycle, however much is shared and whatever cycles are elsewhere |

## Left out

- SQLite, its SQL, WAL, pragmas, migrations and the full-text query language: tables that commit as a whole, and an arbitrary match predicate.
- The tables of projects and sessions: rows that nothing on this path reads.
- SHA-256, hexadecimal, base64, JSON and RFC 3339: arbitrary functions with the assumptions stated where they are used.
- Contexts, deadlines, timers and cancellation: an operation may fail where one of them is looked at.
- Nil readers and writers, which the source refuses.
- The reader limited to the declared size around an append: the append itself reads no more than that.
- One instant stands for all clock readings within one turn of the request loop.
- Storage.Store.ReadEventEvidence: a page read sees one state of the tables, as its queries concern an event that no transaction can change.
- Client.Client.Call: calls on one client follow one another here; the gate, the mutex and a Close during a call are steps of Gate, where an operation's bytes are not.
- Daemon.Daemon.Interference: stands for other connections' transactions between two of a handler's own and between turns; within one transaction handlers do not interleave. The constant `alone` says that there are none and that nobody closes the daemon, for the results that need it.
- Lifecycle.ReturnedIsClosed: releasing always succeeds here; in the source, closing the store, removing the socket or releasing the lock may fail, and a socket that could not be removed is left behind when Close returns its error.
- Lifecycle.NoDeadlock: states that a step is possible, not that the scheduler takes it; that handlers end once their connections are closed is assumed.
- SocketLock.QuarantineIsFree: nobody but a sweeping process makes nodes under quarantine names.
- SocketLock.OnlyStaleSocketsGo: inode numbers are never reused, and no one outside removes or renames nodes.
- HttpToken.NoTempsLeft: removal of a temporary file does not fail, and processes do not die between system calls.
- `ensureDaemon`, `createCaptureState`, event classification, sequence counters and correlation IDs: each is settled by reading one function.
- CaptureQueue.CaptureClient.Resume: the requests' own sockets and time limits; a request settles or fails.
- GraphWalk.TakeSnapshot: getters that throw, proxies, `__proto__` keys, Error objects, sparse arrays, the engine's own order of integer-like keys, and the depth of its stack; the text of a mark is a constructor here, so that it is never confused with a string of the same text.
- Strings are compared, and measured, character by character, as code units and bytes are for the keys, IDs and queries in use.
- The command line, the HTTP server, the MCP tools' arguments and the doctor's output: adapters.
