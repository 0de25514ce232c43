# ALT cache: a verified model

The ALT cache keeps a replica of every Solana address lookup table (ALT) account. A service fetches
the full state page by page from an RPC provider while buffering a Yellowstone stream, stages account
writes by slot, publishes them when their slot is confirmed, refreshes the whole state in the
background, and serves immutable snapshots by JSON-RPC pages and gRPC chunks. A client library
rebuilds the tables from the chunks and follows the stream on its own. This project models the two
ends and the protocols between them, and proves what they keep.

`dafny verify dfyconfig.toml` checks everything.

## How the model is laid out

| part | modules |
|---|---|
| values, writes and their order | `Types`, `Writes`, `Ascending`, `Keys`, `Gate`, `Cursor` |
| the staged, versioned map: its functions, closed form, and main theorems | `Staging`, `ClosedForm`, `LastWriterWins`, `WireWins`, `Replay`, `Ledger` |
| the updater object | `StateUpdater` |
| the snapshot store, its pages and the paging protocol | `Store`, `Paging`, `PagingSafety`, `Continuation`, `CursorLife`, `CurrentSnapshot`, `JsonRpc`, `RpcExact` |
| the paged fetch | `Fetcher`, `FetchExact`, `ServedPages`, `FetchLoop`, `FetchTheorems` |
| the chunk stream, both ends | `Chunks`, `Download`, `DownloadExact` |
| the client's session, its agreement with the server, and the handoff between them | `Client`, `SessionFate`, `Agreement`, `Handoff` |
| the updater service | `Rotation`, `Service`, `SessionLog`, `ServiceSafety`, `Lifecycle`, `ServedMap`, `ServedLedger`, `ServeSession`, `ServiceRefresh`, `FailedRefresh`, `UpdaterService` |

Objects that the program changes in place are classes (`StateUpdater`, `Store`, `SnapshotDownload`,
`Session`, `UpdaterService`), and its loops are methods with loops. Each method is proved against a
function of the old state; the theorems are about runs of those functions. `StateUpdater` also keeps a
ghost log of every event it consumed, and its `Confirm` and `FinishRecovery` state the
last-writer-wins result over that log directly.

Choices a reader should know:

- A 32-byte key is represented by its big-endian value. `Keys` proves that this loses nothing and that
  the order of byte arrays is the order of the numbers.
- A stored account keeps the fields that are read back. Its write version lives in the write that
  carried it and in the per-key watermark; the transaction signature is read nowhere.
- Base58, the table decoder and the program address are a `Codec` parameter. Where a theorem needs laws
  of base58 (it decodes what it encodes, and writes no colon), they are the predicate `Gate.Lawful`.
- The service is a state machine over its wait points: one input is whatever ends a wait. A fetch
  result is any result the fetch loop can return (`ServiceSafety.FetchResultsAreLegal`).
- The clock is a number read once for each page call; 64-bit slots, versions and lamports are bounded
  integers on which the program only compares.

## What the model shows about the code

The main results hold for every input, and where a promise fails the exact condition is proved. Here and
in the table, `README.md` with line numbers is the cache's own README, not this one.

- **Last writer wins.** After every confirm that raises the confirmed slot, and after recovery, each key
  holds its newest accepted write at or below the confirmed slot, or else its fetched value, whatever
  the interleaving. It is about accepted writes: among writes that arrive out of order, one that comes
  after a newer write of its key is refused for good, even if the newer one is above the confirmed
  slot.
- **When the service publishes the ledger.** For a fetch that read each key at a slot of its own and a
  stream that delivers in order, what is published at a slot, by any session or refresh of any run, is
  the ledger at that slot exactly when two kinds of write make no difference
  (`ServedLedger.ServedIsLedgerIff`): a write that is the last delivered of its key while the ledger has
  a later one, and a write between the slot its key was read at and the slot published, with nothing
  delivered for the key. With every later write delivered this leaves two cases
  (`Ledger.OnlyAtTheEnds`), and both happen:
  - **An unconfirmed value is served.** `README.md:11-12` says updates are published only after their
    slot is confirmed. A fetch takes the first page's slot, and later pages may be newer, so a bootstrap
    or a refresh publishes their values below their slot (`ServedLedger.UnconfirmedValueIsServed`), until
    the last page's slot is confirmed (`Ledger.DeliveredIsRight`).
  - **Recovery brings an older value back.** The watermarks start empty, so a buffered write at the
    context slot is applied over a newer one of that slot that the fetch already saw
    (`Ledger.OlderValueAtContextSlot`). A contiguous piece of an ordered stream has no such write once it
    has confirmed the context slot or a later one (`Ledger.PieceDelivers`).
- **A refresh can lose a write.** `README.md:33-34` says updates are replayed into the replacement, but
  only those received after the refresh began are buffered. `Replay.RefreshEqualsContinuationIff` gives
  the exact condition, for a fetch whose pages are at different slots, under which the replacement
  equals the live state: each write consumed before buffering began and above the context slot is
  confirmed, and was overtaken by a confirmed one, or was there when the fetch read its key, or stored
  the very value fetched. `Replay.EarlyWriteIsLost` shows the loss, and
  `ServiceRefresh.RefreshChangesNothingIff` is the same inside the running service.
- **A refresh may not be served.** A publication at the nonzero slot already served keeps the old map
  (`src/store.rs:237`), so a refresh that ends there is not visible until the next confirm
  (`ServedMap.RefreshMayNotBeServed`). `ServedMap.ServesUpdaterIff` says exactly when, at any moment of
  any run, the served map is not the updater's; `ServedLedger.LedgerIsServed` that it never is while the
  updater holds the ledger.
- **A cursor may continue another map.** `README.md:159-161` promises one snapshot for all pages.
  `Continuation.ContinuesSnapshotIff` is exact, for every run: what is answered under a cursor's slot
  comes from the cursor's snapshot exactly if that was current at the last first page that retained the
  slot anew. While published slots do not go down this holds at every nonzero slot, fresh or expired
  (`PagingSafety.CursorNeverMixesMaps`), and so it does through a whole serve session unless an earlier
  one left another map under the slot (`ServeSession.SessionCursorsOneMap`). It fails at slot zero, and when slots go down: the cursor goes on
  in the map retained before (`PagingSafety.SlotZeroContinuesOlderMap`,
  `PagingSafety.RegressionContinuesOlderMap`), or, once its own snapshot is pruned, in one retained since
  (`PagingSafety.PrunedCursorContinuesNewerMap`). Slots may go down between serve sessions because
  bootstrap asks for no minimum slot (`ServiceSafety.SlotMayFallBetweenSessions`).
- **A first page's cursor may be dead on arrival.** A cursor lives 300 seconds from the last time its slot
  was continued or retained anew (`CursorLife.AnsweredIff`), and a first page retains a slot anew only if
  it is not retained. If it is, from a reader who has stopped, and nothing has pruned it, the new cursor
  has expired when it is handed out (`CursorLife.FirstCursorMayBeDead`).
- **An expired snapshot is reported while unready.** `README.md:154-155` says an unready cache answers
  -32001. `RpcExact.AnswersExactly` gives each error its exact condition: a request with a cursor is told
  that its snapshot expired.
- **The client and the server treat two kinds of update differently.** With undecodable table data the
  server stores a tombstone and the client fails its session; with an owner that is not 32 bytes the
  server fails its source and the client removes the table. `Agreement.UpdateAgreesIff`: they agree on
  exactly the other updates, refusals included.
- **The snapshot-to-live handoff has gaps** (`README.md:76-78` says none). `Handoff.ClientAgreesIff` is
  exact about them, for any snapshot that holds every write below its slot and, of those at it, as many as
  the server happens to have. The client's follow mode refuses an update at the snapshot's own slot, under
  the ordering contract no other (`Agreement.LateIffAtSnapshotSlot`), and the session then has to be
  established again. And a write emitted before the client opened its stream is lost without any failure,
  until that key is written again or the session is established again, if it is above the snapshot's slot
  (`Handoff.HandoffLosesEarlyWrite`), or at that slot and still held back by a server that serves its
  bootstrap slot (`Handoff.HandoffLosesBootstrapWrite`).

The ordering contract of the stream (`README.md:48-49`) is `Replay.Contract`: each key's writes arrive in
increasing (slot, write version), and after a slot is confirmed no write at or below it arrives. It is
a hypothesis only where it is named.

## Model

| member | source | states |
|---|---|---|
| `ClosedForm.RunIsClosed` | src/state_updater.rs:51-125 | every run of queue, confirm and finish_recovery from a fetched state ends in a closed form: the map is the accepted writes settled so far laid over the base, the pending table buckets the others, the watermarks are the last accepted writes |
| `ClosedForm.DrainLookup` | src/state_updater.rs:114-125 | draining pending slots in ascending order gives every key its last write through the slot, although buckets interleave keys |
| `LastWriterWins.NewestWriteWins` | src/state_updater.rs:78-125 | after a raising confirm or the end of recovery each key holds its newest accepted write at or below the confirmed slot, tombstones included, or its fetched value if there is none, for every event log |
| `LastWriterWins.AcceptedIff` | src/state_updater.rs:85-98 | the watermark test admits exactly the writes at or above the bootstrap slot newer than every earlier such write of their key |
| `LastWriterWins.PendingAboveApplied` | src/state_updater.rs:85-98 | at every moment each key's pending writes increase strictly in drain order, lie above everything applied to it and end at its watermark |
| `LastWriterWins.DeliveryOrderIndependence` | src/state_updater.rs:85-125 | any order and duplication of the same writes, with any confirms among them, gives the same map and watermarks, and nothing pending, once a slot at or above them all is confirmed |
| `LastWriterWins.ConfirmsCoalesce` | src/state_updater.rs:101-125 | dropping any confirms but the first of the greatest slot leaves the whole final state unchanged |
| `WireWins.NewestUpdateWins` | src/state_updater.rs:78-125 | the same over the updates as they come: after any drain each key holds what its newest accepted update by slot and write version leaves, the account with all its wire fields if it is funded, of the program and decodable, and otherwise nothing |
| `WireWins.ReceivedIsLog` | src/updater.rs:445-476 | while a source does not fail, what an updater receives from it is exactly what it sent, in order |
| `StateUpdater.DrainSlotsThrough` | src/state_updater.rs:114-125 | visiting only the slots that hold something, in order, drains the same as visiting every slot |
| `StateUpdater.StateUpdater.FromFetchedState` | src/state_updater.rs:51-66 | a recovering updater at the fetched context slot with nothing pending and an empty log |
| `StateUpdater.StateUpdater.Queue` | src/state_updater.rs:78-99 | accepts a write exactly if it is at or above the bootstrap slot and newer than every such write of its key in the log; stages it last in its slot and raises the watermark |
| `StateUpdater.StateUpdater.Confirm` | src/state_updater.rs:101-112 | answers whether the slot rose; if so every key holds its newest accepted write through it, and the map is published unless recovering; if not, nothing changes |
| `StateUpdater.StateUpdater.FinishRecovery` | src/state_updater.rs:68-76 | publishes at the confirmed slot the map in which every key holds its newest accepted write through it |
| `StateUpdater.StateUpdater.ApplyPendingThrough` | src/state_updater.rs:114-125 | the nested drain loop applies and removes exactly the pending slots through the given one |
| `Replay.InOrderAllAccepted` | src/state_updater.rs:85-98 | on in-order delivery the watermarks refuse nothing but writes below the bootstrap slot |
| `Replay.NothingLate` | src/state_updater.rs:101-112 | under the ordering contract, once a drain has followed a confirm, no accepted write at or below the confirmed slot is pending |
| `Replay.RefreshEqualsContinuationIff` | src/updater.rs:395-432 | for a fetch that read each key at a slot of its own, all of them confirmed: the refreshed updater, having replayed the buffered suffix, has the live updater's map and pending writes exactly when every write before the suffix and above the context slot is confirmed and was overtaken, seen by the fetch, or equal to what was fetched |
| `Replay.RefreshReplayEqualsContinuation` | src/updater.rs:377-388 | so both are the same whenever the fetch read each key at or above the slot of every write of it consumed before buffering began |
| `Replay.RefreshedIsStateAt` | src/updater.rs:395-432 | what a refreshed updater then publishes is the stream's state at its confirmed slot |
| `Ledger.DrainedIsLedgerIff` | src/updater.rs:290-300 | for a fetch that read each key at a slot of its own and in-order delivery, the map after any drain is the ledger at the confirmed slot exactly when every stale write, and every fetched value that is off, equals the ledger's value; nothing is assumed of which writes came or which slots are confirmed |
| `Ledger.SettledIsLedgerIff` | src/state_updater.rs:68-125 | the same at any later moment at which no late write waits |
| `Ledger.OnlyAtTheEnds` | src/state_updater.rs:85-98 | with every write above the context slot delivered, only a write at the context slot can be stale and only a key read above the confirmed slot can be off |
| `Ledger.PieceDelivers` | README.md:48-49 | a contiguous piece of an ordered stream that confirms the context slot or a later one, with nothing above the context slot before it, delivers all it should |
| `Ledger.CheckpointPlusReplayIsLedger` | README.md:10-12 | so a map whose keys were each read at their own slot in [context, last], such delivery, and a drain at or above last give the ledger at the confirmed slot |
| `Ledger.OlderValueAtContextSlot` | src/state_updater.rs:85-98 | recovery at the context slot can replace a newer fetched value by an older buffered one of the same slot |
| `Replay.EarlyWriteIsLost` | src/updater.rs:326-336 | a confirmed write consumed before buffering began, above the context slot and not overtaken, is in the live map and missing from the refreshed one |
| `Replay.PublishedIsStateAt` | src/state_updater.rs:101-112 | what is published at a slot is the stream's state at that slot, whatever comes later |
| `Store.Store.Publish` | src/store.rs:230-243 | replaces the snapshot unless its slot is unchanged and not zero, names the source and becomes ready |
| `Store.Store.PageOf` | src/store.rs:173-215 | moves the store and answers as the function the paging results are about |
| `CurrentSnapshot.CurrentIsShown` | src/store.rs:230-243 | in every run the current snapshot is that of the first of the latest publications of one nonzero slot, or of the latest if that is of slot zero, and the source named is the latest one's |
| `Paging.SlotNamesOneMap` | src/store.rs:236-240 | while published slots do not go down, two moments with the same nonzero slot have the same current map, across any publications, invalidations and page reads |
| `Paging.RetainedWasCurrent` | src/store.rs:201-208 | every retained snapshot was once current under the slot it is retained under |
| `Paging.FirstPage` | src/store.rs:189-209 | the first page is the first entries in key order, and as it returns its snapshot is the one retained under its slot exactly if no other was before |
| `Paging.NeverRegressingPins` | src/store.rs:230-243 | that condition holds in every run whose published slots do not go down, at any nonzero slot |
| `Paging.PaginationReadsOneSnapshot` | README.md:157-161 | following unexpired cursors while others publish and page visits every account of one snapshot once, in ascending key order |
| `PagingSafety.CursorNeverMixesMaps` | src/store.rs:173-215 | in a run whose published slots never go down, any answer to any cursor of a nonzero slot, however late, is an error or the next entries of the one map ever current at that slot |
| `PagingSafety.PaginationNeverMixesMaps` | README.md:157-161 | so a pager that gets to the end has read one snapshot whole, whatever the times of its calls |
| `Paging.PagesIsCeiling` | src/store.rs:192-199 | the number of pages is the quotient of the entries by the limit, rounded up, and at least one |
| `PagingSafety.SlotZeroContinuesOlderMap` | src/store.rs:237-240 | at slot zero a second page can come from an older map than the first |
| `Continuation.ContinuesSnapshotIff` | src/store.rs:181-209 | in every run, once a continuation under a slot is answered, all are answered from a given snapshot exactly if it was current at the last first page that retained the slot anew |
| `Continuation.RetainedIsLastInserted` | src/store.rs:200-209 | whatever is retained under a slot was current at the last first page that retained it anew |
| `PagingSafety.RegressionContinuesOlderMap` | src/store.rs:201-208 | after slots go down between sessions and a slot is reached again, a first page of the newer map is followed by a page of the older one |
| `PagingSafety.PrunedCursorContinuesNewerMap` | src/store.rs:183-188 | and a cursor whose snapshot was pruned meanwhile goes on in the map it names last, once another reader has retained it |
| `CursorLife.AnsweredIff` | src/store.rs:179-209 | in every run, a continuation is answered exactly if the store is ready and less than 300 seconds have passed since its slot was last continued or retained anew; otherwise it is not ready or expired |
| `CursorLife.FirstAnsweredIff` | src/store.rs:179-191 | a first page is answered exactly if the store is ready |
| `CursorLife.FirstCursorMayBeDead` | src/store.rs:204-208 | a first page of a slot retained 300 seconds ago and not pruned hands out a cursor that has expired |
| `CursorLife.PrunesExactly` | src/store.rs:182-183 | a continuation leaves retained exactly what was used in the last 300 seconds |
| `Keys.OrderIsNumeric` | src/store.rs:193 | the lexicographic order of keys is the order of their big-endian values |
| `Keys.KeyRoundTrip` | src/store.rs:21 | a key is recovered from its 32 bytes |
| `Keys.BytesRoundTrip` | src/store.rs:21 | 32 bytes are recovered from their key |
| `Gate.DecodesExactly` | src/updater.rs:445-476 | exactly which updates decode, with which error the others do not, and to what: the key, the slot, the write version, and the whole account or a tombstone |
| `Gate.ConvertsExactly` | src/store.rs:48-71 | exactly which RPC entries become accounts, field by field |
| `Gate.DecodedIsWellFormed` | src/store.rs:48-57 | any account a decoded update carries has its key, the program as owner, lamports and decodable data |
| `Gate.UiRoundTrip` | src/store.rs:59-71 | a well-formed account survives the service's own RPC encoding and the fetcher's decoding |
| `Cursor.CursorRoundTrip` | src/api/json_rpc.rs:239-248 | every cursor parses back to its slot and key |
| `Cursor.CursorInjective` | src/api/json_rpc.rs:246-248 | different slots or keys have different cursors |
| `Cursor.CursorExactly` | src/api/json_rpc.rs:239-244 | the texts that parse are exactly a number, the first colon, and base58 text of 32 bytes |
| `Cursor.NumberExactly` | src/api/json_rpc.rs:243 | and the numbers exactly an optional plus sign, any zeros, and the decimal digits of a 64-bit number |
| `JsonRpc.Serve` | src/api/json_rpc.rs:119-165 | answers as the function `RpcExact.AnswersExactly` is about, in the same store state |
| `RpcExact.AnswersExactly` | src/api/json_rpc.rs:119-248 | for every request and store: invalid exactly for a limit outside the bounds (a thousand if none is given) or a text that is no cursor, unavailable exactly without a cursor while unready, expired exactly with one that is not alive, below the minimum exactly as the snapshot is; and otherwise the next accounts of that snapshot in key order, at a slot not below the minimum, with a cursor exactly if there are more |
| `Fetcher.Fetch` | src/alt_state_fetcher.rs:101-197 | the loop returns what page-by-page accumulation gives: the first context slot, the accounts, or the first failing check |
| `FetchExact.FetchSucceedsExactly` | src/alt_state_fetcher.rs:118-197 | it succeeds exactly if some page without a cursor is fine, and all before it are and have one: slots not below the minimum and the first page's, keys that parse, no cursor twice; it then has the first page's slot and, for each key, the account of its last funded valid entry |
| `FetchExact.FetchFailsExactly` | src/alt_state_fetcher.rs:141-176 | and otherwise it fails at the first page that is not fine, for the first of its faults, or for want of a reply |
| `Fetcher.FetchedIsWellFormed` | src/alt_state_fetcher.rs:139-170 | a completed fetch has the first page's slot, not below the minimum, and only well-formed accounts |
| `Fetcher.ConsumedSlots` | src/alt_state_fetcher.rs:147-150 | every page a completed fetch used is at or above its context slot |
| `Fetcher.FetchedFromHome` | src/alt_state_fetcher.rs:154-170 | a key carried by one page only has that page's value |
| `FetchTheorems.FetchIsFuzzyCheckpoint` | src/alt_state_fetcher.rs:118-197 | if each page reflects the ledger at its own slot, the fetched map is a checkpoint in which each key has a slot of its own between the context slot and the last |
| `FetchTheorems.FetchThenReplayIsLedgerIff` | src/updater.rs:290-300 | fetching page by page while the ledger moves and then replaying an in-order stream gives the ledger at every drain exactly when no stale, missed or unconfirmed write makes a difference |
| `FetchTheorems.FetchThenReplayIsLedger` | README.md:10-12 | so it does once the last page's slot is confirmed, if the stream delivers what came after the first page |
| `FetchTheorems.FetchInvertsPaging` | src/alt_state_fetcher.rs:118-177 | the fetch loop against the service's own pages ends, trips no check, skips nothing and returns exactly the snapshot's slot and map |
| `Chunks.StreamChunks` | src/api/grpc.rs:38-66 | the splitting loop sends the chunks of the size-driven split |
| `Chunks.SplitShape` | src/api/grpc.rs:45-65 | the chunks concatenate to the entries in order; only an empty snapshot has an empty chunk, its only one; the encoding of every chunk but the last reaches 2 MiB, and of each is below 2 MiB plus that of its last entry |
| `Chunks.ChunkSize` | proto/alt_snapshot.proto:11-20 | the size the splitter goes by is the length of the chunk's protobuf encoding, written out byte by byte |
| `Chunks.EntriesExactly` | src/api/grpc.rs:45-49 | the entries are every account once, with its data, in the order of the keys' bytes |
| `Chunks.HeaderLen` | proto/alt_snapshot.proto:11-20 | a chunk without accounts takes at most 22 bytes |
| `Chunks.StreamSnapshot` | src/api/grpc.rs:29-68 | a ready store streams the chunks of its current snapshot in key order, an unready one an error |
| `Download.SnapshotDownload.PushChunk` | src/client.rs:365-397 | a chunk with the first one's header adds its decoded tables; a changed slot or count, a bad address or a bad table is the error returned |
| `Download.SnapshotDownload.Complete` | src/client.rs:399-414 | succeeds exactly if a chunk came and the number of tables is the announced total |
| `DownloadExact.PushAllExactly` | src/client.rs:365-397 | any chunks download exactly if each has the header of the first, 32-byte addresses and decodable data; otherwise the error is the first fault of the first that does not |
| `DownloadExact.CompletesExactly` | src/client.rs:383-414 | and they complete exactly if they name as many keys as announced, with the table of each key's last entry |
| `Download.CompleteIffEveryChunkArrived` | src/client.rs:364-415 | for chunks of one snapshot in any order and repetition every push succeeds, and the download completes exactly if none is missing, with the decoded map and slot |
| `Client.Session.QueueUpdate` | src/client.rs:459-473 | drops an update below the bootstrap slot, refuses one at or below the confirmed slot while following, else stages it last in its slot |
| `Client.Session.Confirm` | src/client.rs:475-482 | answers whether the slot rose, having drained through it |
| `Client.Session.ApplyPendingThrough` | src/client.rs:484-496 | the drain loop applies staged updates slot by slot and stops at the first that fails |
| `Client.Session.Replay` | src/client.rs:262-281 | from a downloaded snapshot, replays what was buffered and applies what is confirmed |
| `Client.Session.Follow` | src/client.rs:289-316 | following live events is the run of the session's steps, to the first failure |
| `SessionFate.SessionSurvivesIff` | src/client.rs:262-316 | on any stream, the session has failed exactly if an update it cannot apply, at or above its first slot, has had its slot confirmed, or a live one came at or below the confirmed slot |
| `SessionFate.AppliesExactly` | src/client.rs:437-457 | exactly which updates cannot be applied, and what the others do to the tables |
| `Agreement.UpdateAgreesIff` | src/client.rs:437-457 | over every update, the client's effect on its tables is the server's on its map, or both refuse, exactly if it is malformed for both or has a 32-byte owner and is not a funded table account with undecodable data |
| `Agreement.SessionAgrees` | src/client.rs:262-316 | on clean in-order events the version-free session agrees with a version-checked updater fetched at the snapshot, in tables, pending updates and confirmed slot, and following fails exactly at a late update |
| `Agreement.LateIffAtSnapshotSlot` | src/client.rs:467-470 | under the contract an update is late exactly if it is at the snapshot's slot |
| `Handoff.ClientAgreesIff` | README.md:72-81 | end to end, from the chunks of a snapshot in any order through replay and following, once the client has the stream's confirmed slot: the session fails exactly if a live update is at the snapshot's slot, and otherwise its tables are the stream's decoded map exactly when each write before the client's stream, at or above the snapshot's slot, was overtaken by a confirmed one or decodes to what the snapshot holds |
| `Handoff.ServedHolds` | src/state_updater.rs:68-125 | an updater's map at any moment, caught up or not, holds every write of the stream below its confirmed slot and some of those at it |
| `Handoff.ClientAgreesWithServer` | src/client.rs:262-281 | the same against the map a running server serves, from its bootstrap slot on, its recovery ending anywhere in its log |
| `Handoff.HandoffLosesEarlyWrite` | src/client.rs:221-261 | a table announced above the snapshot's slot before the client's stream opened is served by the server and missing from a client that has not failed |
| `Handoff.HandoffLosesBootstrapWrite` | src/state_updater.rs:213-227 | so is one announced at the slot at which a server has just bootstrapped and whose confirm is still to come |
| `Rotation.NextIsNearest` | src/updater.rs:20-24 | there is a next source exactly if one in range is connected, and it is the nearest going forward, the active one last |
| `Rotation.RotationIsFair` | src/updater.rs:434-442 | repeated rotation over fixed connected sources selects each exactly once before it returns |
| `Rotation.FirstAvailable` | src/client.rs:202-218 | the offset loop returns the first available source, and none only if it tried them all |
| `Rotation.EveryOneTriedOnce` | src/client.rs:204-205 | the offsets reach each source exactly once |
| `ServiceSafety.EveryRunIsSafe` | src/updater.rs:177-393 | at every wait point of every run: ready exactly while serving; then the active source is connected and named, the served slot is the updater's confirmed slot and every served account is well formed; buffers never exceed their capacity |
| `ServiceSafety.FetchResultsAreLegal` | src/updater.rs:43-55 | whatever the provider replies, the fetch hands the service well-formed accounts, for a refresh at or above its minimum slot |
| `ServiceSafety.ServedSlotNeverFalls` | README.md:35-37 | while the service keeps serving, the served slot never goes down, across refreshes that complete, fail or overflow |
| `ServiceSafety.RefreshRaises` | src/updater.rs:330-335 | installing a refresh never lowers the served slot |
| `ServiceSafety.SlotMayFallBetweenSessions` | src/updater.rs:233 | after a reconnection the served slot is whatever context slot the provider gives |
| `Lifecycle.ConnectedIsUp` | src/updater.rs:214-223 | in every run that has not ended, the connected sources are exactly those whose last connection or loss among the inputs is a connection |
| `Lifecycle.WaitsIffNoneIsUp` | src/updater.rs:203-226 | it waits exactly when no source is up; otherwise it uses one that is, is ready exactly while serving, and then names that source's URL |
| `Lifecycle.FailoverIsNearestUp` | README.md:22-28 | when the source in use is lost or sends an update that does not decode, it is unready and bootstraps anew from the nearest other source that is up, from the same only if there is no other, or waits if none is |
| `Lifecycle.ServesOn` | src/updater.rs:313-392 | it serves on from one source as long as that does not fail and nothing stops the service |
| `Lifecycle.BootstrapsOn` | src/updater.rs:236-277 | it bootstraps on from one source, buffering, until its fetch comes in, it fails, or one event more than fits has come, which is fatal |
| `Lifecycle.FullBufferIsFatal` | src/updater.rs:254-263 | with a full buffer even an update that does not decode is fatal and not a failover |
| `Lifecycle.FetchEndsBootstrap` | src/updater.rs:278-302 | a fetch ends a bootstrap: it serves what was fetched with the events received since the bootstrap began, or starts again empty from the same source |
| `Lifecycle.RefreshGoesOn` | src/updater.rs:327-336 | a refresh that falls due starts at the confirmed slot and goes on while its fetch is out and the events since fit |
| `Lifecycle.RefreshOverflows` | src/updater.rs:110-122 | the first event that does not fit aborts it, and the service serves on |
| `Lifecycle.EndsForGood` | src/updater.rs:199-212 | after a shutdown it is unready for good, and after all sources stopped it has failed with what it served left as it was |
| `ServiceSafety.InactiveSourcesCannotInterfere` | src/updater.rs:252-273 | deleting the account and confirm events of sources not active when consumed leaves the whole machine of any run unchanged |
| `FailedRefresh.FailedRefreshesAreInvisible` | src/updater.rs:402-413 | at every moment of every run, the run from which exactly the failing refreshes are erased, and the installed ones kept, is in the same state but for a refresh about to fail |
| `FailedRefresh.RunWithoutFailedRefreshes` | src/updater.rs:57-64 | so from the start it publishes and retains the same all along and ends exactly the same, whether fetches fail, buffers overflow or sessions end |
| `ServedMap.ServesUpdaterIff` | src/store.rs:236-240 | at every serving moment of every run the served map is not the updater's exactly if an installation kept another map at the slot served and nothing was installed or published since |
| `ServedMap.RefreshMayNotBeServed` | src/updater.rs:425-426 | a bootstrap and a refresh at one slot with different maps leave the service serving the first and holding the second |
| `SessionLog.BuffersWhatIsReceived` | src/updater.rs:235-276 | in every run a bootstrap, and a refresh, has buffered exactly the decoded events of the active source among the inputs since it began |
| `SessionLog.UpdaterIsWhatWasReceived` | src/updater.rs:290-390 | in every run the serving updater is what was fetched, with the events received since its bootstrap or refresh began, the end of recovery where the fetch came in, and the events received since |
| `ServedLedger.ServedIsLedgerIff` | src/updater.rs:177-432 | what is current in any run, across sessions and refreshes, is the ledger at its slot exactly when no stale, missed or unconfirmed write of the updater that published it makes a difference |
| `ServedLedger.CurrentWasPublished` | src/store.rs:230-243 | and one input of the run did publish it, unless nothing has been published |
| `ServedLedger.UnconfirmedValueIsServed` | src/updater.rs:290-300 | a bootstrap whose first page is at slot 10 serves at slot 10 a table created at slot 12 that a later page was read with |
| `ServedLedger.ServedIsLedger` | README.md:10-13 | in every run in which each publication has delivered all it should and reached its last page's slot, what is current is the ledger at its slot |
| `ServedLedger.LedgerIsServed` | src/store.rs:236-240 | then no installation has kept another map: the updater's map is the one served |
| `ServeSession.SessionCursorsOneMap` | README.md:157-161 | through a whole serve session, steps, refreshes and readers in any interleaving, a cursor of a nonzero slot served with nothing else retained under it is answered with an error or from that one map |
| `ServiceRefresh.RefreshShadowsLive` | src/updater.rs:377-388 | a refresh in progress has buffered exactly the events the live updater consumed since it began |
| `ServiceRefresh.RefreshChangesNothingIff` | src/updater.rs:395-432 | in the running service, at and after the installation of a refresh whose pages were at different slots, the updater has the confirmed slot it would have had without it, and the same map and pending writes exactly when every earlier write above the context slot is made up for |
| `ServiceRefresh.InstallingRefreshChangesNothing` | README.md:32-34 | so a refresh changes nothing if its fetch read each key at or above the slot of every write of it consumed before |
| `UpdaterService.UpdaterService.Handle` | src/updater.rs:177-393 | whatever ends a wait, the service object moves as the machine does, in every phase |
| `UpdaterService.UpdaterService.Recover` | src/updater.rs:290-300 | an updater built from the fetched state and the buffered events, in order, and published once, when recovery ends |
| `UpdaterService.UpdaterService.OnBootstrapEvent` | src/updater.rs:240-276 | buffers events of the active source up to the capacity, rotates on its loss or an undecodable update, fails when full |
| `UpdaterService.UpdaterService.OnServeEvent` | src/updater.rs:346-390 | applies events of the active source and shadows them into the refresh, or gives up the session |
| `UpdaterService.UpdaterService.InstallRefreshed` | src/updater.rs:395-432 | a failed refresh changes nothing else; a completed one replaces the updater and publishes |
| `UpdaterService.UpdaterService.RotateSource` | src/updater.rs:434-442 | selects the next connected source and starts over, unready |

## Left out

- Download.SnapshotDownload.PushChunk: states the error of a failed push but not the partial download it leaves, because the caller drops it.
- Client.Session.ApplyPendingThrough: states the error of a failed drain but not the partly drained session, because the session is dropped and established again; what concurrent readers of its tables may see meanwhile is not modelled.
- FetchTheorems.FetchInvertsPaging: needs a service whose largest page is at least the fetch's 10,000, which its default of 100,000 is; with a smaller one every request is refused.
- Replay.RefreshEqualsContinuationIff: compares the two updaters once both have the same confirmed slot, at or above the slots fetched, and a confirm above the context slot, or at it before the refresh was installed; before that they differ by what is still to be confirmed.
- Handoff.ClientAgreesWithServer: follows one updater of the server, and compares once that has drained a confirm at or above its bootstrap slot; until then it serves that slot with later writes held back, and there is no confirmed slot to compare at. Across a refresh the server installs, `Handoff.ClientAgreesIff` applies to the map it serves by `Handoff.FetchedHolds` and `Replay.RefreshedIsStateAt`.
- ServeSession.SessionCursorsOneMap: says nothing of slot zero, where publication does not tell an old map from a new one, nor of a slot under which an earlier session left another map; `Continuation.ContinuesSnapshotIff` decides those.
- The client's own bounded buffer during a download (`src/client.rs:233-260`): one length check before each event is kept, after which the session fails.
- Network, TLS, the asynchronous runtime, timeouts, pings and shutdown plumbing; connections, losses and cancellation are inputs of the machine, and the two-second pause after a failed bootstrap passes at once.
- Requests and replies of the fetch: a request past the last listed reply counts as a failed request.
- Logging, alerts, configuration and secrets; a nonempty source list is a precondition, and the retry loop around the client's sessions is not modelled.
- The insides of base58, base64, zstd, JSON and the table decoder, and account output encodings with `dataSlice`, which would add library calls only.
- `getProgramAccounts` without pages, `getHealth`, and the commitment, filter, `changedSinceSlot` and encoding checks of requests, each a one-line test.
- Memory ordering and the locks inside one page call: publication, invalidation and reads are atomic steps.
- Several keys read together by client code: its tables change in place, so only single states between events are described.
- Whether a cursor stays alive in wall-clock time: its freshness is a hypothesis of the paging theorems.
- A reader that hangs up in the middle of a chunk stream, and a provider's snapshot of 2^64 accounts or more.
- Page counts, byte counts, durations and other statistics.
