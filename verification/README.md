# Verified models of the CLI's RPC streams and of the small state machines around them

This project models, and proves properties of, the parts of the repository that keep state
across steps and promise something about whole runs.

**RPC over one connection** (`cli/src/rpc.rs`, `cli/src/msgpack_rpc.rs`). A peer and this side
exchange MessagePack messages. Messages are framed out of an arbitrarily fragmented byte
stream, dispatched by method name, and answered by the service loop or by spawned jobs
through a channel of eight places. A duplex call opens streams: their ids are announced to the
peer, the peer sends segments for them, and each stream's write half is a token that moves
between the record in a shared table and at most one write-loop task.

- `streams.dfy`: the stream table as a class, and as a state machine in which every locked
  region and every `write_all` is one step of an arbitrary interleaving. History fields of each
  sink (`accepted`, `consumed`, `delivered`, `shut`) say what went in and what came out.
- `rpc_dispatch.dfy`: the method table, what dispatching a message does, and the id counter.
- `rpc_service.dfy`: the whole connection as one state machine; `rpc_requests.dfy`,
  `rpc_answers.dfy`, `rpc_names.dfy`, `rpc_outgoing.dfy`, `rpc_calls.dfy`, `rpc_end_to_end.dfy` and
  `rpc_progress.dfy` prove invariants of all its runs, and `rpc_wire.dfy` puts framing in front of it.
- `msgpack.dfy`: decoding until more input is needed, and the byte buffer in between;
  `msgpack_format.dfy`: the families of the MessagePack specification, written with their markers,
  and that decoding takes off exactly one of them at a time.

**Credentials** (`cli/src/auth.rs`): chunked keyring entries with a continuation marker
(`keyring.dfy`, `ring_entries.dfy`), the fallback from the keyring to a file across process restarts
(`auth_storage.dfy`, `auth_proofs.dfy`), and the timing of polling and of keeping a token alive
(`device_flow.dfy`).

**The download cache** (`cli/src/download_cache.rs`, `cli/src/state.rs`): a persisted
move-to-front list and the directories it is about (`persisted_state.dfy`,
`download_cache.dfy`, `download_cache_proofs.dfy`), also when the steps of several tasks are
interleaved (`download_cache_tasks.dfy`).

**Source transformation** (`scripts/sync-agent-host-protocol.ts`): edits and indentation
(`text_edits.dfy`), reading and writing import lines (`import_lines.dfy`), and merging imports
(`import_merge.dfy`).

**Log forwarding** (`src/bootstrap-fork.ts`): re-chunking a stream into lines
(`stream_wrapper.dfy`) and serialising object graphs that may be cyclic (`safe_stringify.dfy`).

**The mock policy server** (`scripts/mock-policy-server/server.ts`): endpoint updates
(`endpoint_updates.dfy`) and wiring a product to the server and back (`overrides.dfy`,
`overrides_proofs.dfy`), over JSON values (`json_values.dfy`). What wiring asks of parsing and
printing is proved of a reader and a writer of JSON text (`json_text.dfy`, `json_codec.dfy`),
which is shown to read exactly the texts of the JSON grammar (`json_grammar.dfy`); the
same reader reads what the log forwarding writes.

What the code updates in place is a class or a method with a loop here; each of its methods is
proved equal to a function of the old state, and the theorems are about those functions and
about runs of them. `dafny verify dfyconfig.toml` checks everything.

## What turned out not to hold

Each entry names a lemma with an input or a run for which the property fails, and then the lemma
that says exactly when it holds.

- A response that is dispatched before `call` has registered its callback is dropped, as `call`
  sends first: `RpcCalls.QuickResponseIsLost`; `RpcCalls.CallCorrelation`.
- The loop is the only receiver of the channel it sends to, so one read that brings more than
  eight places' worth of answers blocks it for good: `RpcProgress.NineUnknownMethods`;
  `RpcProgress.WorkedOffIffItFits`, `RpcProgress.OneReadTooMany`.
- Inserting a stream overwrites the record of its id. If that record is idle its half is lost and
  never shut down; if it is being served, its loop takes what is meant for the new stream:
  `Streams.TwoInsertionsLoseAHalf`, `Streams.ReusedIdsMixStreams`; `Streams.InsertIff`, `Streams.FreshIff`.
- A text does not always read back from the keyring: `Keyring.LosingRing`; `Keyring.RoundTripIff`,
  `Keyring.AlwaysRoundTripsIff`.
- Clearing an empty keyring is an error, and the cached credential stays:
  `AuthProofs.ClearingNothingFails`; `Keyring.ClearIff`. So is clearing one on which the process once
  came upon a credential without its end: `RingEntries.LostEndIsNotCleared`; `RingEntries.ClearDeletes`.
- A process that could not read the keyring when it opened, or was told not to, or whose clear
  failed after it had deleted something, has another credential cached than a fresh process reads:
  `AuthProofs.BlindOpenIsStale`, `AuthProofs.ForcedFileIsStale`, `AuthProofs.CutShortClearIsStale`;
  `AuthProofs.CredentialsSurvive`.
- A creation that waits for its rename can lose its place in the list of the download cache, and
  then installs a directory that no list names: `DownloadCacheTasks.SixAtOnce`,
  `DownloadCacheTasks.DeletedWhileWaiting`. A rename can also come between the moment at which a
  deletion or an eviction looks for the directory and the moment at which it takes the name off the
  list: `DownloadCacheTasks.DeletedWhileInstalled`, `DownloadCacheTasks.EvictedWhileInstalled`.
  `DownloadCacheTasks.NothingForgottenIff`, `DownloadCacheTasks.ListedAtRenameIff`.
- Two creations of one name share a staging directory, so one can install what the other has only
  begun to make: `DownloadCacheTasks.UnfinishedIsInstalled`; `DownloadCacheTasks.InstallsWhatWasMadeLast`.
- A line that starts with the placeholder text makes the import merge throw, or is taken for an import:
  `ImportMerge.StrayLineThrows`, `ImportMerge.PlaceholderLineIsLost`; `ImportMerge.ThrowsIff`,
  `ImportMerge.SkeletonKeptIff`. A value import that writes `type X` beside a type import of X makes a
  second merge differ: `ImportMerge.TypeWrittenTwice`; `ImportMerge.IdempotentIff`.
- An object that is merely shared is marked `[Circular]` as well: `SafeStringify.SharedIsMarked`;
  `SafeStringify.PlainIffTree`. A regular expression that leads back to itself can make the whole
  throw: `SafeStringify.SelfRegExpThrows`, `SafeStringify.RegExpCycleNeedNotThrow`;
  `SafeStringify.ThrowsIff`.
- A buffer that overflows is logged in the middle of a line: `StreamWrapper.OneLongLine`;
  `StreamWrapper.ChunksDoNotMatter`.
- An overrides file that holds valid JSON but no object is not wired: `OverridesProofs.ArrayIsNotWired`;
  `OverridesProofs.WiredIff`. A stale backup is restored in place of a file that was absent:
  `OverridesProofs.StaleBackupIsRestored`; `OverridesProofs.RestoredIff`. Wiring twice overwrites the
  backup, so unwiring gives back what the first wiring wrote: `OverridesProofs.SecondWireLosesOriginal`.
  A number beyond the largest finite one is written back as `null`: `OverridesProofs.OverflowBecomesNull`;
  `OverridesProofs.WireKeepsTheRest`.

## Model

| member | source | states |
|---|---|---|
| Streams.StreamTable.Insert | cli/src/rpc.rs:575-584 | the record starts with its own half, an empty queue, not ended |
| Streams.StreamTable.Write | cli/src/rpc.rs:564-573 | data for a known id is queued; if the record held its half, the half moves out to a spawned loop; an unknown id is ignored |
| Streams.StreamTable.Remove | cli/src/rpc.rs:543-562 | a record that holds its half goes and the half is handed out for shutdown; one whose half is out is marked as ended |
| Streams.StreamTable.LoopPass | cli/src/rpc.rs:603-621 | one locked region of the loop: go on with the swapped-out queue, give the half back, or leave to shut it down |
| Streams.WriteHalf.WriteAll | cli/src/rpc.rs:623-627 | a write delivers the whole item, or the prefix that got through before the pipe broke |
| Streams.DrainBatch | cli/src/rpc.rs:622-629 | after a failed write the rest of the batch is dropped, and only the rest of that batch |
| Streams.DrainIsEvents | cli/src/rpc.rs:622-629 | the single write steps of the interleaving model add up to what the batch loop does, and touch no record |
| Streams.OthersUntouched | cli/src/rpc.rs:531-631 | a step for one stream leaves every other stream's record, task and sink alone |
| Streams.StepKeepsInv | cli/src/rpc.rs:531-631 | every step of any party keeps the invariant (one owner per half; accepted is consumed, then batch, then queue), unless it inserts an id whose record is still there |
| Streams.RunKeepsInv | cli/src/rpc.rs:531-631 | so does every interleaving of inserts, writes, removals and loop steps that overwrites no record; ids may come back |
| Streams.NothingLost | cli/src/rpc.rs:564-573 | in every run: without a sink error, delivered ++ batch ++ queue is exactly what was accepted; with errors, delivered items are prefixes of distinct accepted items in order |
| Streams.TokenDiscipline | cli/src/rpc.rs:531-631 | a record with its half has an empty queue and has not ended; one without it is served by exactly one task; the loop always finds its record; a half is shut down at most once and never used afterwards |
| Streams.WritesAreAccepted | cli/src/rpc.rs:564-573 | until it is removed, a stream accepts every write made to it, in order, in every run |
| Streams.OnlyWritesAreAccepted | cli/src/rpc.rs:564-573 | a step adds to what a stream has accepted exactly what it writes to it |
| Streams.EndingStays | cli/src/rpc.rs:543-562 | an ended stream stays ended, and accepts nothing more without writes to it, even if its id is used again |
| Streams.WrittenThenRemoved | cli/src/rpc.rs:543-573 | insert, writes, remove, with anything in between and after: once no task holds the half and no write failed, the reader got all writes in order and then one shutdown |
| Streams.TasksFinish | cli/src/rpc.rs:596-631 | an ended stream's task takes at most as many steps, in any run, as a measure over queue and batch says |
| Streams.TasksProceed | cli/src/rpc.rs:596-631 | a half that a task holds always has a next step, so with the bound the loop finishes |
| Streams.FinishAlone | cli/src/rpc.rs:596-631 | from every reachable state there is a run of the write loop alone that gives the half back or shuts it down |
| Streams.ReusedIdsMixStreams | cli/src/rpc.rs:575-584 | a run that overwrites a record being served: data written to the second stream is delivered to the first |
| Streams.InsertIff | cli/src/rpc.rs:575-584 | an insertion keeps the invariant if and only if the table has no record of its id |
| Streams.FreshIff | cli/src/rpc.rs:531-631 | the invariant holds all through a run if and only if no insertion of it overwrites a record |
| Streams.OverwrittenHalfIsLost | cli/src/rpc.rs:575-584 | overwriting an idle record loses its half: whatever happens afterwards, nobody has it and it is never shut down |
| Streams.TwoInsertionsLoseAHalf | cli/src/rpc.rs:575-584 | two insertions of one id are such a run |
| RpcDispatch.Build | cli/src/rpc.rs:275-301 | building panics if and only if stream_data was registered before; otherwise the two stream methods are there and every other method is kept |
| RpcDispatch.BuildIsBuilt | cli/src/rpc.rs:275-301 | whatever was registered, the built table is one that the end-to-end theorem is about |
| RpcDispatch.DispatchAnswersOnce | cli/src/rpc.rs:101-272 | sync, async, duplex, bad parameters, unknown method: a request is answered exactly once under its id, a notification or response never; only a message with neither method nor id panics |
| RpcDispatch.IdsDistinct | cli/src/rpc.rs:397-400 | n consecutive ids are distinct if and only if n is at most 2^32 |
| RpcDispatch.IdCounter.Next | cli/src/rpc.rs:397-400 | each call hands out the next number modulo 2^32 |
| RpcDispatch.IdCounter.NextStreams | cli/src/rpc.rs:248-252 | the streams of a duplex call take increasing ids, with any number taken by the rest of the process before each |
| RpcDispatch.StreamIdsDiffer | cli/src/rpc.rs:248-252 | they are all different if the process takes no more than 2^32 meanwhile |
| RpcDispatch.Dispatcher.DispatchWithPartial | cli/src/rpc.rs:420-450 | the outcome of each branch, the pending call that a response removes, and the write that stream_data makes at once |
| RpcDispatch.Dispatcher.Call | cli/src/rpc.rs:342-381 | a fresh id; the callback is registered only if the message could be sent |
| RpcRequests.OutcomeFits | cli/src/rpc.rs:101-272 | whatever is dispatched, the answer is queued by the loop or owed by a job that carries the request's id |
| RpcRequests.StepKeepsReqs | cli/src/msgpack_rpc.rs:66-109 | every step of the loop, of jobs, of forwarders and of the peer keeps the accounting of answers |
| RpcRequests.RunKeepsReqs | cli/src/msgpack_rpc.rs:66-109 | and so does every run |
| RpcRequests.OneAnswerPerRequest | cli/src/rpc.rs:420-450 | in every run a dispatched request has one response with its own id, or none while it is still owed; everything else has none, ever |
| RpcRequests.AnnouncedBeforeAnswered | cli/src/rpc.rs:453-471 | the response to a duplex call is queued after its streams_started |
| RpcAnswers.StepKeepsRight | cli/src/msgpack_rpc.rs:66-109 | every step of the service keeps answers, announcements and opened streams in keeping with what the events say of each message |
| RpcAnswers.RunKeepsRight | cli/src/msgpack_rpc.rs:66-109 | and so does every run |
| RpcAnswers.ResponsesTellTheTruth | cli/src/rpc.rs:101-272 | in every run, a response has the method-not-found code if and only if the table has no such method, the bad-parameters code if and only if the parameters do not fit it, and otherwise success or failure as the callback of that very message came out |
| RpcAnswers.StreamsAreAnnounced | cli/src/rpc.rs:453-471 | in every run, streams_started names the request it belongs to, or 0 for a notification, and as many streams as its method has; exactly the duplex calls whose parameters fit open any |
| RpcNames.StepKeepsInv | cli/src/rpc.rs:453-524 | every step keeps the life cycle of stream names: announced, registered, and only then written out |
| RpcNames.RunKeepsInv | cli/src/rpc.rs:453-524 | and so does every run in which the process hands out at most 2^32 ids, to this connection and to others |
| RpcNames.RegisterKeepsNames | cli/src/rpc.rs:477-479 | the id being inserted into the stream table is not in it, so the table's fresh-id condition is met |
| RpcNames.StreamMessagesInOrder | cli/src/rpc.rs:453-524 | in every run a stream's data and end are queued after its announcement, and nothing after its end |
| RpcOutgoing.LocalDataIsSent | cli/src/rpc.rs:481-519 | in every run, what is queued about a stream is what its forwarding task read, in order, and then its end |
| RpcOutgoing.AnnouncedStreamsAreServed | cli/src/rpc.rs:477-519 | in every run, a stream that was announced is still to be registered, or its task is forwarding, or its end is queued, and only one of these |
| RpcOutgoing.WrittenInOrder | cli/src/msgpack_rpc.rs:59-103 | in every run the messages written out are the first ones queued, one for each turn of the writer, and at most eight wait |
| RpcOutgoing.CallsAreWritten | cli/src/msgpack_rpc.rs:101-103 | in every run each call is written out once, in the order in which calls were made |
| RpcOutgoing.CallTakesNext | cli/src/rpc.rs:397-400 | in every run a call gets the number of ids taken before it, by whomever, modulo 2^32 |
| RpcCalls.StepKeepsDesk | cli/src/rpc.rs:342-381 | every step keeps the relation between calls made, callbacks pending and responses dispatched |
| RpcCalls.RunKeepsDesk | cli/src/rpc.rs:342-381 | and so does every run in which the process hands out at most 2^32 ids |
| RpcCalls.CallCorrelation | cli/src/rpc.rs:439-449 | a callback runs at most once, on the first response with its id that is dispatched after its registration, and runs if and only if there is one; the pending map holds exactly the others |
| RpcCalls.IdsAreNotShared | cli/src/rpc.rs:397-400 | no two calls, and no call and stream, share an id, whoever else takes ids in between |
| RpcCalls.QuickResponseIsLost | cli/src/rpc.rs:356-380 | a run in which the response comes before the registration: the call never resolves and its callback stays pending |
| RpcEndToEnd.RunKeepsInv | cli/src/msgpack_rpc.rs:66-109 | every run in which the peer speaks of a stream only between its announcement and its end keeps the account of that stream |
| RpcEndToEnd.EndToEnd | cli/src/rpc.rs:275-291 | in every such run, for every method table: delivered ++ pending ++ undispatched is what the peer sent; a failed write leaves an embedded part; the shutdown comes after everything sent, exactly when the peer ended the stream |
| RpcEndToEnd.EndedStreamCanClose | cli/src/rpc.rs:543-562 | once the end was dispatched, the removal job and the write loop can finish on their own, and then the reader has all segments and one shutdown |
| RpcWire.FramesArrive | cli/src/msgpack_rpc.rs:66-98 | the messages dispatched are those encoded by the peer, in order, however their bytes are cut into reads |
| RpcWire.BytesToReader | cli/src/msgpack_rpc.rs:66-109 | from bytes in any chunks, through decoding, dispatch and the write loops in any interleaving, to the reader of a stream: all that EndToEnd says, in terms of the messages the peer encoded |
| RpcProgress.StuckForever | cli/src/msgpack_rpc.rs:59-75 | a loop that waits for room in the full channel waits for ever, whatever anybody else does |
| RpcProgress.LoadNeverShrinks | cli/src/msgpack_rpc.rs:66-109 | while a batch is worked off, queued answers plus answers to come never get fewer |
| RpcProgress.OverloadIsFinal | cli/src/msgpack_rpc.rs:66-109 | with more than eight of them the loop never selects again, and nothing more is written out |
| RpcProgress.WorkOff | cli/src/msgpack_rpc.rs:66-109 | with eight or fewer the loop alone can get back to select |
| RpcProgress.WorkedOffIffItFits | cli/src/msgpack_rpc.rs:59-109 | a batch without malformed messages can be worked off if and only if its answers fit into the channel |
| RpcProgress.OneReadTooMany | cli/src/msgpack_rpc.rs:66-98 | on any connection, one read with too many answers ends its service |
| RpcProgress.NineUnknownMethods | cli/src/msgpack_rpc.rs:66-98 | nine requests for an unknown method in one read: nothing is ever written out |
| RpcProgress.OwedCanBeAnswered | cli/src/msgpack_rpc.rs:66-109 | from every reachable state in which the loop selects, or can get back to it, every request dispatched can still get its answer |
| MsgPack.ParseOneStable | cli/src/msgpack_rpc.rs:139-162 | a verdict on some bytes does not change when more bytes follow |
| MsgPack.ParseEncoded | cli/src/msgpack_rpc.rs:139-162 | a value that was written is read back, whatever follows it, with the cursor at its end |
| MsgPack.EncodeParsed | cli/src/msgpack_rpc.rs:155-159 | a value that was read writes exactly the bytes up to the cursor |
| MsgPack.DrainConserves | cli/src/msgpack_rpc.rs:155-159 | raw frames and leftover are the input |
| MsgPack.DrainIsExact | cli/src/msgpack_rpc.rs:155-159 | each frame's raw bytes are the encoding of its object |
| MsgPack.DrainMore | cli/src/msgpack_rpc.rs:66-98 | bytes that arrive later do not change what was decoded before them |
| MsgPack.FeedTwice | cli/src/msgpack_rpc.rs:66-98 | two reads decode what one read of both decodes |
| MsgPack.FragmentationIndependent | cli/src/msgpack_rpc.rs:66-98 | frames, raw bytes, verdict and leftover are the same for any division of the input into reads, wherever in a value an error of type is noticed |
| MsgPack.NothingIsLost | cli/src/msgpack_rpc.rs:66-98 | until an error, every byte read is in one frame or in the buffer |
| MsgPack.MessagesArrive | cli/src/msgpack_rpc.rs:139-162 | messages written one after the other are read as written, however they are cut |
| MsgPack.MsgPackCodec.Decode | cli/src/msgpack_rpc.rs:139-162 | a frame, a request for more, or an error, which may come before the value is complete; only a frame is taken off the buffer |
| MsgPack.MsgPackCodec.Feed | cli/src/msgpack_rpc.rs:68-97 | one read decodes all complete frames in order and stops at the first error |
| MsgPackFormat.ItemRead | cli/src/msgpack_rpc.rs:139-162 | for every family of the format, written with its markers: what is written is read as one value of exactly its bytes, whatever follows; an entry of a map is two values |
| MsgPackFormat.PartNeedsMore | cli/src/msgpack_rpc.rs:145-152 | a proper beginning of a written value is never a frame and never an error |
| MsgPackFormat.ReadIsItem | cli/src/msgpack_rpc.rs:155-159 | whatever is taken off as one value is a value of the format |
| MsgPackFormat.ReservedIsInvalid | cli/src/msgpack_rpc.rs:153 | the one marker without a family is refused |
| MsgPackFormat.FramesAreItems | cli/src/msgpack_rpc.rs:66-98 | values written one after the other become one frame each, of exactly their bytes, however they are cut into reads |
| Keyring.KeyringStorage.NextEntry | cli/src/auth.rs:312-324 | entry k is made once and names index k |
| Keyring.KeyringStorage.Read | cli/src/auth.rs:327-347 | the loop concatenates continued entries and strips their markers; a missing entry is no credential, an unreadable one an error |
| Keyring.KeyringStorage.Store | cli/src/auth.rs:349-371 | the text is written in steps, each but a short last one with a marker, up to the first failing entry |
| Keyring.KeyringStorage.Clear | cli/src/auth.rs:373-383 | entries are deleted in order up to the first that is missing or cannot be deleted |
| Keyring.ReadAfterStore | cli/src/auth.rs:327-371 | what reading gives after a store, for any earlier contents |
| Keyring.RoundTripIff | cli/src/auth.rs:327-371 | for one keyring: the text reads back if and only if what lies behind its last piece allows it |
| Keyring.AlwaysRoundTripsIff | cli/src/auth.rs:349-371 | for all earlier contents: if and only if the length is no multiple of the step size and the last piece does not end with the marker |
| Keyring.EntriesFit | cli/src/auth.rs:227-232 | no entry exceeds the limit, even when a store fails midway |
| Keyring.ClearIff | cli/src/auth.rs:373-383 | clearing succeeds if and only if every entry exists and can be deleted; no other entry changes |
| Keyring.ClearedReadsNothing | cli/src/auth.rs:373-383 | once entry 0 went nothing is read; if it was missing or could not be deleted nothing changes |
| RingEntries.StoredIs | cli/src/auth.rs:349-371 | what each entry holds after a store, failing or not: its piece of the text, with the marker if the piece is full, or what it held before |
| RingEntries.RunKnows | cli/src/auth.rs:312-324 | over any run, the entries in memory are those that the process has asked for since it was started or last cleared them |
| RingEntries.ClearDeletes | cli/src/auth.rs:373-383 | after any run, a clear succeeds if and only if every entry is there, and can be deleted, that the process has asked for or that a read comes upon; and then exactly these are gone |
| RingEntries.LostEndIsNotCleared | cli/src/auth.rs:373-383 | a process that came upon a credential without its end, and then stored a shorter one, deletes it and reports an error |
| PersistedState.Container.LoadOrGet | cli/src/state.rs:46-59 | the cached value, or what the file holds, or the default for a missing or unreadable file |
| PersistedState.Container.Save | cli/src/state.rs:61-70 | the cached value is replaced even when the file is not, or only half, written |
| PersistedState.Container.Update | cli/src/state.rs:128-133 | loads, changes, saves, and reports whether the save worked |
| AuthStorage.Auth.Open | cli/src/auth.rs:439-488 | the keyring if it can be read and no file is there, otherwise the file |
| AuthStorage.Auth.StoreCredentials | cli/src/auth.rs:615-637 | stores into the storage in use; a failing keyring is replaced by the file, once |
| AuthStorage.Auth.ClearCredentials | cli/src/auth.rs:515-521 | clears the storage in use; only a success clears the cached value |
| AuthStorage.Auth.GetCurrentCredential | cli/src/auth.rs:506-512 | the cached credential |
| AuthProofs.StepKeepsInv | cli/src/auth.rs:439-521 | opening, storing, clearing, reading and restarting keep: what is persisted is the last credential stored or cleared, and what is cached is the same if and only if the process is not stale |
| AuthProofs.RunKeepsInv | cli/src/auth.rs:439-521 | and so does every sequence of process lifetimes |
| AuthProofs.CredentialsSurvive | cli/src/auth.rs:439-521 | after any such sequence, with keyring failures anywhere and processes that are told to use the file, a fresh process that reads its storage reads the last credential; the running one has it cached if and only if it is not stale, that is, it neither opened without reading a credential that was there nor kept one past a clear that deleted it and failed, with nothing stored or cleared since |
| AuthProofs.BlindOpenIsStale | cli/src/auth.rs:439-488 | a process that cannot read the keyring when it opens has no credential, though one is stored |
| AuthProofs.ForcedFileIsStale | cli/src/auth.rs:439-488 | nor has a process that is told to use the file while there is none |
| AuthProofs.CutShortClearIsStale | cli/src/auth.rs:515-521 | a clear that deletes the first entry and fails on the second leaves a credential cached that is gone |
| AuthProofs.SwitchIsFinal | cli/src/auth.rs:615-637 | within a process the file, once chosen, stays chosen |
| AuthProofs.SwitchesOnce | cli/src/auth.rs:615-637 | within a process the storage is switched at most once |
| AuthProofs.ClearingNothingFails | cli/src/auth.rs:373-383 | clearing an empty keyring is an error and leaves the cached credential |
| DeviceFlow.PollForGrant | cli/src/auth.rs:816-835 | the loop ends; the wait before every poll starts while the code is good, and none follows a grant; it ends without one only after expiry; the interval is 5 + 5 per slow-down |
| DeviceFlow.WaitsAtLeast | cli/src/auth.rs:816-835 | n polls with k slow-downs take at least 5n + 5k(k-1)/2 seconds |
| DeviceFlow.SlowDownsNeedLifetime | cli/src/auth.rs:816-835 | if n polls are made and all before the last slowed down, 5n(n-1)/2 is less than the lifetime |
| DeviceFlow.AllSlowIff | cli/src/auth.rs:816-835 | without other delays that many polls are made if and only if it is less |
| DeviceFlow.IntervalGrows | cli/src/auth.rs:816-835 | a slow-down error and status 429 lengthen the wait by five seconds, and no other answer changes it |
| DeviceFlow.SleepTime | cli/src/auth.rs:850-873 | the sleep that the nested conditions and the division into seconds and nanoseconds come to |
| DeviceFlow.WakesInTimeIff | cli/src/auth.rs:850-873 | never below ten seconds; it wakes before a known expiry if and only if more than ten seconds were left |
| DeviceFlow.ThirdIsLeft | cli/src/auth.rs:855-862 | from fifteen seconds on, a third of the remaining life is still ahead on waking |
| DeviceFlow.KeepTokenAlive | cli/src/auth.rs:842-900 | the loop over any refresh results: which end it, which are retried, what is stored, what is refreshed next |
| DeviceFlow.RetriedAfterTen | cli/src/auth.rs:863-899 | after a refresh that fails otherwise the next begins ten seconds later, with the same credential |
| DeviceFlow.RefreshedInTime | cli/src/auth.rs:850-873 | after one that succeeds, when two thirds of the life of the credential then in use are over, not before ten seconds, or after an hour if its expiry is unknown |
| DeviceFlow.EndsIff | cli/src/auth.rs:879-899 | the loop goes on through successes and other failures, and ends on a status from 400 to 499 and on a credential without a refresh token |
| DeviceFlow.EndedThere | cli/src/auth.rs:879-899 | nothing happens after that |
| DeviceFlow.RunKeepsCredential | cli/src/auth.rs:842-900 | in every run the credential refreshed is the one stored last, nothing stored is undone, and refreshes are ten seconds apart |
| DownloadCache.DownloadCache.TouchName | cli/src/download_cache.rs:119-139 | the name moves to the front; beyond five the last one goes, if its directory is gone or can be removed |
| DownloadCache.DownloadCache.ExistsName | cli/src/download_cache.rs:52-60 | one use that nothing comes between: only an existing directory counts, and a failing save does not matter |
| DownloadCache.DownloadCache.DeleteName | cli/src/download_cache.rs:63-72 | one deletion that nothing comes between: the name leaves the list only when its directory is gone |
| DownloadCache.DownloadCache.CreateName | cli/src/download_cache.rs:78-117 | one creation that nothing comes between: an existing directory is returned without a use; otherwise it is staged, the name used, and the directory renamed |
| DownloadCache.DownloadCache.Stage | cli/src/download_cache.rs:87-97 | a creation stages its directory unless the name has one |
| DownloadCache.DownloadCache.Rename | cli/src/download_cache.rs:102-114 | the rename succeeds if and only if one of its 21 attempts does |
| DownloadCacheProofs.OpKeepsListed | cli/src/download_cache.rs:52-139 | for operations one after the other, under any failures: complete directories stay listed, names leave only after their directory, and the list grows past five only by failed evictions |
| DownloadCacheProofs.RunKeepsListed | cli/src/download_cache.rs:52-139 | and so for every run |
| DownloadCacheProofs.NothingForgotten | cli/src/download_cache.rs:52-139 | in every such run from empty: every complete directory is in the list, and the list has at most five names plus one per failed eviction |
| DownloadCacheProofs.AnswersAreTrue | cli/src/download_cache.rs:52-117 | under any failures: exists and create answer as the directory is there afterwards, a creation that was prepared by whether one of its 21 renames succeeds; what was deleted successfully is neither there nor listed |
| DownloadCacheTasks.BothHalves | cli/src/download_cache.rs:119-139 | a use whose two halves nothing comes between is the use of the sequential model |
| DownloadCacheTasks.InstallIff | cli/src/download_cache.rs:99-114 | a rename keeps every complete directory listed if and only if its name is still in the list |
| DownloadCacheTasks.ForgetIff | cli/src/download_cache.rs:63-72 | the list update of a deletion does if and only if the directory is not there again |
| DownloadCacheTasks.EndIff | cli/src/download_cache.rs:119-139 | the list update of a use does if and only if the name it evicts has no directory by then |
| DownloadCacheTasks.NothingForgottenIff | cli/src/download_cache.rs:52-139 | in every interleaving of tasks, whatever fails: every complete directory is listed throughout if and only if each rename finds its name in the list and each name that leaves the list has no directory at that moment |
| DownloadCacheTasks.ListStaysShort | cli/src/download_cache.rs:119-139 | in every interleaving the list names nothing twice and exceeds five only by failed evictions |
| DownloadCacheTasks.ListedAtRenameIff | cli/src/download_cache.rs:99-139 | between its use and its rename a name stays listed if it is not deleted and never has five others ahead of it that were used since and not deleted; and only then, if no eviction fails |
| DownloadCacheTasks.FewUses | cli/src/download_cache.rs:99-139 | so it does if it is not deleted and fewer than five other names are used |
| DownloadCacheTasks.InstallsWhatWasMadeLast | cli/src/download_cache.rs:92-102 | a rename installs what the creation made that set up the staging directory last; that is the renaming one, and finished, if and only if no other creation of the name set it up since |
| DownloadCacheTasks.OneAfterTheOther | cli/src/download_cache.rs:52-139 | operations one after the other are a run of such steps in which nothing is late |
| DownloadCacheTasks.SixAtOnce | cli/src/download_cache.rs:99-139 | six creations that wait for their renames at once: the first rename installs a directory that is not listed |
| DownloadCacheTasks.EvictedWhileInstalled | cli/src/download_cache.rs:119-139 | a rename between the search for the oldest directory and the list update: in time, and forgotten |
| DownloadCacheTasks.DeletedWhileWaiting | cli/src/download_cache.rs:63-72 | a name that is deleted while it waits is installed, and not listed |
| DownloadCacheTasks.DeletedWhileInstalled | cli/src/download_cache.rs:63-72 | a rename between the two halves of a deletion: in time, and forgotten |
| DownloadCacheTasks.UnfinishedIsInstalled | cli/src/download_cache.rs:92-102 | of two creations of one name the first installs what the second has only begun |
| DownloadCacheProofs.SavedListIsLoaded | cli/src/state.rs:46-70 | while saves succeed a fresh process loads the list this one has |
| DownloadCacheProofs.OpRefines | cli/src/download_cache.rs:52-139 | without failures each operation is a step of a timestamp cache of five, with the same answer |
| DownloadCacheProofs.RefinesTimestampCache | cli/src/download_cache.rs:52-139 | so is every run from empty: the list is sorted by last use, the name just used stays, the one used longest ago goes |
| TextEdits.SplitJoin | scripts/sync-agent-host-protocol.ts:140-150 | splitting joined lines gives the lines |
| TextEdits.JoinSplit | scripts/sync-agent-host-protocol.ts:140-150 | joining split lines gives the text |
| TextEdits.ConvertLineKeeps | scripts/sync-agent-host-protocol.ts:141-149 | a converted line keeps its width, two columns to a tab, and its text, and converting again changes nothing |
| TextEdits.SpacesBecomeTabs | scripts/sync-agent-host-protocol.ts:141-149 | of the leading spaces of a line every two become a tab, and at most one is left |
| TextEdits.ConvertKeepsLines | scripts/sync-agent-host-protocol.ts:139-151 | a file is converted line by line, and converting twice is converting once |
| TextEdits.ApplyEdits | scripts/sync-agent-host-protocol.ts:57-60 | edits applied in place from the last to the first replace all spans at once |
| ImportLines.ParseFacts | scripts/sync-agent-host-protocol.ts:179-202 | names that are read are trimmed, not empty, and without commas or braces |
| ImportLines.TrimIs | scripts/sync-agent-host-protocol.ts:182 | trimming takes the white space off both ends, all of it, and nothing else |
| ImportLines.NamesAre | scripts/sync-agent-host-protocol.ts:182 | the names of a list are the trimmed pieces between its commas, in order and each as often as it is there, but for the blank ones |
| ImportLines.ParseIs | scripts/sync-agent-host-protocol.ts:174-194 | any line that has the form of an import, however its list is spaced, is read as one with those names and its module |
| ImportLines.ImportsOnly | scripts/sync-agent-host-protocol.ts:174-202 | and no other line is |
| ImportLines.ParseRendered | scripts/sync-agent-host-protocol.ts:207-217 | an import that is written is read back with the same names and module |
| ImportMerge.RenderIs | scripts/sync-agent-host-protocol.ts:211-217 | the text of a written import: values first, types behind them marked as such, or types alone |
| ImportMerge.Unique | scripts/sync-agent-host-protocol.ts:208-209 | the same names, each once |
| ImportMerge.UniqueIs | scripts/sync-agent-host-protocol.ts:208-209 | each at the place where it comes first, in the order of the list |
| ImportMerge.ReadLine | scripts/sync-agent-host-protocol.ts:178-202 | one line joins its module's entry, and only a module's first import leaves a placeholder; other lines are kept |
| ImportMerge.FillIn | scripts/sync-agent-host-protocol.ts:204-219 | placeholders become imports, or the lookup throws |
| ImportMerge.Merge | scripts/sync-agent-host-protocol.ts:174-219 | the two loops compute the merged lines, or nothing where the code throws |
| ImportMerge.MergedIs | scripts/sync-agent-host-protocol.ts:174-219 | the whole merged file, whenever the merge does not throw: every line that is no import and the first import of every module leave one line each, in order, and each of these is the import of its module or the line as it was |
| ImportMerge.AllNamesJoin | scripts/sync-agent-host-protocol.ts:182 | the names collected for a module are those on its lines, in the order of the lines |
| ImportMerge.ThrowsIff | scripts/sync-agent-host-protocol.ts:204-207 | the merge throws if and only if a line that is no import starts like the placeholder of a module that is not imported |
| ImportMerge.SkeletonKeptIff | scripts/sync-agent-host-protocol.ts:174-219 | one import per module at its first place and all other lines in order, if and only if no line but an import starts like a placeholder |
| ImportMerge.MeaningKept | scripts/sync-agent-host-protocol.ts:174-219 | on the lines of a file, whenever it does not throw: a name is bound to a module as a type, or as a value, after the merge if and only if it was before |
| ImportMerge.IdempotentIff | scripts/sync-agent-host-protocol.ts:174-219 | on the lines of a file: merging again changes nothing, if and only if no line carried a placeholder and no module writes `type X` among its values beside a type import of X |
| ImportMerge.StrayLineThrows | scripts/sync-agent-host-protocol.ts:204-207 | a line with the placeholder of a module that is not imported makes the merge throw |
| ImportMerge.PlaceholderLineIsLost | scripts/sync-agent-host-protocol.ts:204-207 | a line with the placeholder of an imported module becomes an import |
| ImportMerge.TypeWrittenTwice | scripts/sync-agent-host-protocol.ts:208-214 | for any name and module: the written lines of a type import of X and a value import of `type X` are merged differently the second time |
| SafeStringify.ExpandsOnce | src/bootstrap-fork.ts:52-65 | for every finite graph: the seen list grows by exactly the objects expanded, none twice |
| SafeStringify.NeverThrows | src/bootstrap-fork.ts:52-74 | if no regular expression lies on a cycle nothing throws, whatever other cycles there are |
| SafeStringify.CyclicRegExpThrows | src/bootstrap-fork.ts:52-74 | a regular expression that comes up throws if it leads back to itself over objects not remembered by then, whatever comes up in between |
| SafeStringify.FirstRegExpThrows | src/bootstrap-fork.ts:52-74 | so one that comes up first throws if it lies on any cycle |
| SafeStringify.ThrowsIff | src/bootstrap-fork.ts:52-74 | for every finite graph: serialising throws if and only if the traversal comes upon such a regular expression |
| SafeStringify.UnmarkedIsFull | src/bootstrap-fork.ts:52-65 | an output without a cycle mark is the value in full |
| SafeStringify.TreeIsFull | src/bootstrap-fork.ts:52-65 | a value that reaches no object twice is written in full |
| SafeStringify.PlainIffTree | src/bootstrap-fork.ts:52-65 | the output is unmarked, and plain serialisation, if and only if the value is a tree |
| SafeStringify.RenderedIsRead | src/bootstrap-fork.ts:52-65 | the text written is JSON: a parser reads the value back from it, whatever it holds, but that a number that is not finite is null |
| SafeStringify.TextDepicts | src/bootstrap-fork.ts:52-65 | what is read back depicts the object graph: primitives as they were, arrays item by item, other objects property by property, but that an array or an object may be a cycle mark |
| SafeStringify.ArgumentsAreRead | src/bootstrap-fork.ts:21-49 | what is read back is a list with one item for each argument: "undefined" for one that is undefined, the stack or else the text of an error, a primitive as it was |
| SafeStringify.SharedIsMarked | src/bootstrap-fork.ts:56-61 | an array that holds one object twice is written with a cycle mark |
| SafeStringify.SelfRegExpThrows | src/bootstrap-fork.ts:52-74 | a regular expression that holds itself throws |
| SafeStringify.RegExpCycleNeedNotThrow | src/bootstrap-fork.ts:52-74 | the same cycle through a regular expression throws or not, depending on where it is entered |
| SafeStringify.Serializer.Replace | src/bootstrap-fork.ts:53-65 | objects let through before are replaced, others are remembered |
| SafeStringify.Serializer.Serialize | src/bootstrap-fork.ts:52-65 | the traversal with its growing list computes what the theorems are about, and terminates on cycles |
| SafeStringify.SafeToString | src/bootstrap-fork.ts:21-75 | arguments in which no regular expression lies on a cycle are always inspectable; tree-shaped ones are written in full; nothing longer than the limit is |
| StreamWrapper.StreamWrapper.Write | src/bootstrap-fork.ts:126-135 | one write logs up to the last newline, or the whole buffer on overflow, and passes the chunk on |
| StreamWrapper.WriteConserves | src/bootstrap-fork.ts:127-132 | logged pieces with their newlines, then the buffer, are the input |
| StreamWrapper.WriteKeepsShort | src/bootstrap-fork.ts:127-132 | after each write the buffer has no newline and at most 1 MiB |
| StreamWrapper.InputIsConserved | src/bootstrap-fork.ts:126-135 | both for any sequence of chunks |
| StreamWrapper.ChunksDoNotMatter | src/bootstrap-fork.ts:126-135 | nothing is cut if and only if every unfinished line fits with the chunk behind it, and then what was logged is the input up to its last newline |
| StreamWrapper.LongLineIsCut | src/bootstrap-fork.ts:128-132 | a line longer than the buffer is logged before its end |
| StreamWrapper.OneLongLine | src/bootstrap-fork.ts:128-132 | such a line |
| StreamWrapper.SameInputSameLog | src/bootstrap-fork.ts:126-135 | two ways to cut the same input, neither overflowing, log the same |
| JsonValues.ShallowEqualIff | scripts/mock-policy-server/server.ts:822-829 | two records are shallowly equal if and only if what they have under each key prints alike |
| Overrides.OverrideUrls | scripts/mock-policy-server/server.ts:655-661 | the record of endpoint URLs |
| OverridesProofs.UrlIs | scripts/mock-policy-server/server.ts:655-661 | under each endpoint key is the URL of the last endpoint with that key |
| OverridesProofs.UrlFrom | scripts/mock-policy-server/server.ts:655-661 | and there is nothing else in the record |
| Overrides.Workspace.IsWired | scripts/mock-policy-server/server.ts:664-677 | true if and only if the overrides parse and point every endpoint's key at its URL |
| OverridesProofs.WiredMeans | scripts/mock-policy-server/server.ts:664-677 | true if and only if the text parses and its agent has, for every endpoint, that URL under its key |
| Overrides.Workspace.WireOverrides | scripts/mock-policy-server/server.ts:689-715 | backup, merged agent, written file; and where it throws, what was changed before |
| Overrides.Workspace.UnwireOverrides | scripts/mock-policy-server/server.ts:722-766 | restores a backup wholesale, otherwise reverts key by key and drops what is empty |
| OverridesProofs.WiredIff | scripts/mock-policy-server/server.ts:664-715 | after wiring the product is wired if and only if it is readable and the overrides are absent, unparsable or an object |
| OverridesProofs.WiredUrl | scripts/mock-policy-server/server.ts:689-715 | after wiring, the text written has every endpoint's URL under its key of the agent |
| OverridesProofs.ArrayIsNotWired | scripts/mock-policy-server/server.ts:698-713 | overrides that hold an array are written back as they were |
| OverridesProofs.WireKeepsTheRest | scripts/mock-policy-server/server.ts:705-712 | every other override, and every key of the agent that is no endpoint's, is kept, but that a number that is not finite is written as null |
| OverridesProofs.OwnIs | scripts/mock-policy-server/server.ts:705-709 | spreading a value gives the own properties of an object, a list or a string, and none of any other value |
| OverridesProofs.WiredAgentIs | scripts/mock-policy-server/server.ts:705-712 | after wiring, a key of the agent that is no endpoint's has what the overrides had there, or else what the product has |
| OverridesProofs.OverflowBecomesNull | scripts/mock-policy-server/server.ts:701-713 | an override that is such a number is lost |
| OverridesProofs.WireTwice | scripts/mock-policy-server/server.ts:689-715 | wiring again writes the same file, key order included |
| OverridesProofs.UnwiredIs | scripts/mock-policy-server/server.ts:742-757 | without a backup endpoint keys get the product's values, other keys stay, and the agent is dropped if and only if it then prints like the product's under every key |
| OverridesProofs.UnwireThrowsIff | scripts/mock-policy-server/server.ts:731-742 | without a backup: exactly when unwiring throws, and that it then changes nothing, nor without an agent |
| OverridesProofs.UnwiredFile | scripts/mock-policy-server/server.ts:731-766 | what the file says after unwiring without a backup, read back key by key: other overrides as before, endpoint keys as in the product, and no agent if and only if it had come to print like the product's |
| OverridesProofs.RestoredIff | scripts/mock-policy-server/server.ts:689-766 | unwiring after wiring restores the file exactly, present, absent or unparsable, if and only if it was present or there was no backup; no backup stays; the exact condition for an unreadable product as well |
| OverridesProofs.StaleBackupIsRestored | scripts/mock-policy-server/server.ts:722-729 | a stale backup turns up as overrides that there never were |
| JsonText.ValueRead | scripts/mock-policy-server/server.ts:701-713 | any value, printed with or without indentation and wherever it stands, is read back with the rest of the text left, but that a number that is not finite is read as null |
| JsonText.CharactersRead | scripts/mock-policy-server/server.ts:701-713 | strings are read back through their escapes, control characters included |
| JsonText.NumberThen | scripts/mock-policy-server/server.ts:701-713 | a number is read up to its end, whatever follows that is no part of one |
| JsonText.FieldsProper | scripts/mock-policy-server/server.ts:701 | an object that was read names no key twice, even if its text does |
| JsonText.FiniteWritten | scripts/mock-policy-server/server.ts:713 | a number that is not finite prints like null, anywhere in a value |
| JsonGrammar.DocIsRead | scripts/mock-policy-server/server.ts:701 | each value of the JSON grammar, however it is spelled and spaced, is read as what it stands for and up to its end |
| JsonGrammar.TextIsParsed | scripts/mock-policy-server/server.ts:701 | every text of the grammar is parsed, as what it stands for |
| JsonGrammar.ParsedIsText | scripts/mock-policy-server/server.ts:701 | no other text is |
| JsonCodec.JsonIsLawful | scripts/mock-policy-server/server.ts:689-766 | parsing and printing JSON is what the theorems about wiring ask for, for every conversion of numbers that reads a finite one back |
| JsonCodec.LayoutIs | scripts/mock-policy-server/server.ts:713 | how lists and objects are laid out: without white space, or with an item to a line and one more tab for each level |
| OverridesProofs.CyclesRestore | scripts/mock-policy-server/server.ts:689-766 | any number of times over, with no backup at the start |
| OverridesProofs.SecondWireLosesOriginal | scripts/mock-policy-server/server.ts:693-697 | after wiring twice, unwiring leaves the product wired and an original that was not wired is gone |
| EndpointUpdates.PolicyServer.Validate | scripts/mock-policy-server/server.ts:253-309 | the first refusal in the server's order of checks, or all updates |
| EndpointUpdates.RequestIs | scripts/mock-policy-server/server.ts:234-251 | which requests are one update, which are a list, and how each other is refused |
| EndpointUpdates.StatusIs | scripts/mock-policy-server/server.ts:285-290 | a status is a whole number from 200 to 599, and is that number |
| EndpointUpdates.CheckedIs | scripts/mock-policy-server/server.ts:253-309 | which refusal an update gets for what its fields hold, and what an accepted one asks for |
| EndpointUpdates.RefusedFor | scripts/mock-policy-server/server.ts:253-309 | a list that is refused is refused for its first bad update, judged after those before it |
| EndpointUpdates.PolicyServer.Change | scripts/mock-policy-server/server.ts:319-334 | preset first, then status, body and active |
| EndpointUpdates.ChangedIs | scripts/mock-policy-server/server.ts:319-334 | explicit fields win over the preset, the preset over the state before, and a preset without a status means 200 |
| EndpointUpdates.PolicyServer.ApplyEndpointUpdates | scripts/mock-policy-server/server.ts:234-341 | all updates or none; a refusal leaves the state as it was |
| EndpointUpdates.PolicyServer.ResetEndpointState | scripts/mock-policy-server/server.ts:344-354 | every endpoint, and no other, gets its first preset |
| EndpointUpdates.StartupIs | scripts/mock-policy-server/server.ts:344-354 | the state of an endpoint at startup: mocked as its definition says, with its first preset, or 200 and an empty object |
| EndpointUpdates.AcceptedIff | scripts/mock-policy-server/server.ts:253-309 | a list of updates is accepted if and only if each would be alone and no endpoint appears twice |
| EndpointUpdates.ChangedAllIs | scripts/mock-policy-server/server.ts:316-340 | each endpoint named gets its update, every other keeps its state |
| EndpointUpdates.BulkIsSinglesInAnyOrder | scripts/mock-policy-server/server.ts:234-341 | an accepted bulk request does what its updates do as single requests, in any order, all of which are accepted |
| EndpointUpdates.AppliedAgain | scripts/mock-policy-server/server.ts:234-341 | sending a request again changes nothing more, and is answered the same |

## Left out

- The async runtime, sockets, HTTP, encryption, serde and the operating system's keyring: steps or results of them are arbitrary inputs. `seal` and `unseal` are functions with the round trip as their law.
- `cli/src/json_rpc.rs`: the same dispatch over lines.
- Teardown of a connection: read and write errors of the peer's socket, the shutdown barrier, and tasks that outlive the loop.
- Where a write to a stream waits: a `write_all` is one step, and the 8 KiB of the duplex pipe between it and its reader are not modelled.
- The local side of a duplex stream: what a forwarding task reads is arbitrary, 1 to 4096 bytes at a time.
- RpcNames.RunKeepsInv: for runs in which the process hands out at most 2^32 ids, as ids come back afterwards; `Streams.InsertIff` says what an id that comes back may not meet.
- MsgPack.FragmentationIndependent: for any type whose reader does not take back a refusal when it sees more bytes; which values and which beginnings of values it refuses, for their type or their depth, is a parameter.
- Parameters of dispatched messages are classified as fitting a method or not; their contents matter only for the two stream methods.
- PersistedState.Container.Save: writing truncates the file and may stop anywhere after that; the half-written file is only known not to parse.
- DownloadCacheProofs.NothingForgotten: for operations one after the other; `DownloadCacheTasks.NothingForgottenIff` says when it holds of interleaved ones. Cache names do not end with the staging suffix and are not that of the list's own file.
- DownloadCache.DownloadCache.CreateName: leftovers of an earlier staging directory are assumed removable, and removing a directory is one step. What several tasks of one process do to each other is in `DownloadCacheTasks`; two processes over one cache directory, each with its own list in memory, are not modelled.
- AuthProofs.CredentialsSurvive: for a process that reads its storage, so not for one that is told to use the file, or cannot read the keyring, while there is no file; and with writes of the file that are atomic and succeed; a keyring call that times out counts as one that fails.
- Keyring entries and log text are sequences of single-unit characters: slicing inside a UTF-8 sequence, and chunks that end inside one, are not modelled.
- DeviceFlow.PollForGrant: one device code; the outer loop that asks for the next one is not modelled, and the clock does not run backwards.
- SafeStringify.SafeToString: `toJSON`, dates, getters, symbols and `undefined` inside objects are left out. When a graph with cyclic regular expressions throws depends on the order of the traversal, so `SafeStringify.ThrowsIff` speaks of what the traversal comes upon.
- ImportMerge.Merge: works on the lines of a file; the two regular-expression passes before it (line ends, imports over several lines; lines 161-167) are not part of it.
- `stripExistingHeader` and the trimming of line ends: single expressions.
- Overrides.Workspace.WireOverrides: reading and writing the three files does not fail half-way; a file that cannot be read counts as absent. Strings are sequences of whole characters, so a lone surrogate escape is not read; integer-like keys, which ECMAScript orders first, are kept in the order of insertion.
- The proxy of the mock server (`HTTP` forwarding, its request log, the managed-settings cache it clears): each request is handled by itself and touches neither the endpoint states nor the files modelled here.
