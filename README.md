# Recording storage and streaming download, modelled in Dafny

This project models the storage and streaming layer of a browser screen
recorder. The recorder splits a recording into blobs and writes each one to
the IndexedDB database `rec-db`, in the object store `chunks`, under the
compound key `[sessionId, seq]`. Each recording is described by a row of the
`sessions` store.

- `demo/idb-recorder.js` holds the writer (`IDBWriter`), retention,
  `deleteSession`, the plain reassembling download and the by-room listing.
- `demo/services/remuxService.js` serves a session to a converter as a file
  with random access. It builds an index of chunk sizes and prefix offsets,
  then answers byte-range reads with a binary search over that index.
- `public/sw.js` is a service worker that serves a converted download. The
  converter writes at arbitrary positions, and a reordering sink turns those
  writes into an in-order response body. The response is returned only after
  the conversion has finished, so the whole body is queued in the readable
  before the first byte leaves the worker.
- `demo/sw.js` is a second worker. It feeds the converter by pulling chunks
  in seq order until it meets the first missing seq.

The two stores are one `Common.Db` value (two maps). Each IndexedDB
transaction is one atomic step on that value.

- The writer is a class whose pump loop is proved against the reference
  function `Recorder.PumpAll`.
- The reordering sink is a class whose methods are proved against the pure
  functions `StreamWorker.Drain`, `AfterWrite`, `AfterClose` and
  `AfterAbort`. The properties of the sink are proved about those functions.
- The pull source is a class proved against `PullWorker.PullStep`.
- Things the code gets from the environment are parameters: session ids, the
  clock, and how each pump transaction and the `start` put end.

Files: `common.dfy` (shared types and sums), `session_store.dfy` (the session
order and sorting), `recorder.dfy`, `remux_service.dfy`, `stream_worker.dfy`
and `pull_worker.dfy`.

Behaviours of the code worth knowing:

- `abort` on the sink only closes the readable. The parked chunks stay
  parked.
- In `public/sw.js`, a missing session or a session without chunks still gets
  a `200` response. Its body is empty and already closed. Only a missing
  `session` parameter gets `400`.
- The inline index in `public/sw.js` has no zero-total check.
- A parked chunk can be stranded behind the cursor
  (`StreamWorker.StrandedExample`).
- `demo/sw.js` stops at the first missing seq
  (`PullWorker.GapTruncates`). `assembleAndDownload` instead skips missing
  seqs. The remux index counts a row missing at build time as size 0, so no
  offset locates it and `read` never fetches it; only a row deleted after the
  index was built makes `read` fail with 'Missing chunk'.

## Model

| member | source | states |
|---|---|---|
| Common.ToInt32 | demo/services/remuxService.js:79 | `x\|0` is the value congruent to x modulo 2^32 in the signed 32-bit range, and the identity inside that range |
| Common.ConcatAt | demo/idb-recorder.js:152-153 | in a concatenation of parts, byte k of part i sits right after the bytes of parts 0..i-1 |
| SessionStore.GetAll | demo/idb-recorder.js:106-109 | `getAll` yields each session row once, exactly the rows of the store, each under its own id |
| SessionStore.SortSessions | demo/idb-recorder.js:111 | the sorted rows are a permutation of the input, strictly ordered by `startedAt \|\| 0`, oldest or newest first, with ties in the query's key order (by id, or by roomId and then id) |
| SessionStore.InsertSorted | demo/services/remuxService.js:191 | inserting a new row into a sorted list of distinct rows keeps it sorted and distinct |
| SessionStore.BeforeTransitive | demo/idb-recorder.js:111 | the session order is transitive |
| SessionStore.BeforeTotal | demo/idb-recorder.js:111 | any two different sessions are ordered one way or the other |
| Recorder.PumpAllEffect | demo/idb-recorder.js:69-88 | item k of a pump run lands at seq seq0+k unless its transaction failed; no other chunk changes; only the writer's session changes, and only its chunkCount, which is seq0+n after a successful last item |
| Recorder.PumpKeepsKeys | demo/idb-recorder.js:69-88 | a pump run adds no session and keeps every record under its own id |
| Recorder.CleanPumpIsDense | demo/idb-recorder.js:64-88 | a first pump run with no failures leaves rows exactly 0..n-1 holding the items in FIFO order, and chunkCount n |
| Recorder.FailedItemLeavesGap | demo/idb-recorder.js:75-84 | a failed transaction's seq is spent: its row is never written, while later items still land |
| Recorder.RestartedWriterSkipsLowSeqs | demo/idb-recorder.js:48-62 | `start` does not reset `seq`, so a second recording on the same writer leaves its rows below the old counter empty |
| Recorder.DeleteSession | demo/idb-recorder.js:170-180 | removes the session record and exactly the chunks of that session; everything else is unchanged |
| Recorder.IDBWriter.constructor | demo/idb-recorder.js:27-34 | empty queue, not pumping, seq 0, no session, empty mime type |
| Recorder.IDBWriter.Start | demo/idb-recorder.js:48-62 | takes the new id and mime type; when the put succeeds, writes a fresh recording record (chunkCount 0, no stoppedAt) and resolves with the id; when it fails, rejects and leaves the stores unchanged, so the writer is orphaned exactly when the put failed and the id had no record; keeps the queue and the seq counter |
| Recorder.CommitAbortStallsWriter | demo/idb-recorder.js:64-88 | a pump transaction aborted while committing stalls the writer although its record exists, and a later enqueue does not start a pump |
| Recorder.FailedStartStallsWriter | demo/idb-recorder.js:48-88 | after a failed `start`, the first pump stalls, and an enqueue after a later successful `start` does not start a pump |
| Recorder.IDBWriter.Enqueue | demo/idb-recorder.js:64-67 | appends to the FIFO and starts the pump exactly when none is running |
| Recorder.IDBWriter.PumpStep | demo/idb-recorder.js:72-84 | shifts the head, spends one seq and applies its transaction |
| Recorder.IDBWriter.Pump | demo/idb-recorder.js:69-88 | stalls exactly when some iteration's transaction ends in a bare abort: one aborted while committing, or, when the session record is missing, the first one that does not fail at once (it throws in `get.onsuccess`). At the first such iteration the await never settles: `pumping` stays set, the stores are those after the earlier items, and the rest of the queue waits. Otherwise drains the queue, clears `pumping`, leaves the stores at `PumpAll` of the old queue from the old seq and advances the seq by the queue length |
| Recorder.PersistChunk | demo/idb-recorder.js:73-85 | one transaction: when it succeeds and the record exists, the blob lands at the writer's seq and chunkCount becomes seq+1; otherwise the stores are unchanged; no session is added or removed |
| Recorder.PumpAll | demo/idb-recorder.js:69-88 | a pump run adds no session, removes no chunk, and changes nothing when the session record is missing |
| Recorder.IDBWriter.Flush | demo/idb-recorder.js:36-46 | at most 500 polls, stopping at the first idle one, then one extra wait |
| Recorder.IDBWriter.Stop | demo/idb-recorder.js:90-100 | marks the current session stopped at `now` when its record exists; nothing else changes |
| Recorder.IDBWriter.CleanupOldSessions | demo/idb-recorder.js:102-132 | with a finite keepCount k and m > k sessions, deletes exactly m-k sessions, each older than every kept one, with all their chunks; otherwise changes nothing |
| Recorder.DeleteEach | demo/idb-recorder.js:112-124 | deleting the listed sessions one by one removes exactly those sessions and all of their chunks |
| Recorder.OldestPrefix | demo/idb-recorder.js:111-112 | the first k rows of the sorted list each sort before every row after them |
| Recorder.DownloadName | demo/idb-recorder.js:154-155 | the given name, else `(filenameBase \|\| 'recording')` with `.mp4` for an mp4 mime type and `.webm` otherwise |
| Recorder.SortedSeqs | demo/idb-recorder.js:144-150 | the seqs of the session's rows, each once, in strictly ascending order |
| Recorder.AssembleAndDownload | demo/idb-recorder.js:135-159 | fails exactly when the session is missing; otherwise the file is every chunk of the session in ascending seq order, with the session's mime type and the computed name |
| Recorder.DenseOrder | demo/idb-recorder.js:148 | when the rows are exactly seqs 0..n-1, the reassembly order is 0, 1, ..., n-1 |
| Recorder.GetSessionsByRoom | demo/idb-recorder.js:189-202 | with a room, exactly the sessions of that room; without one (`undefined` or `null`), every session that has a roomId; each once, newest first, with equal `startedAt` in index order: by roomId, then by id |
| Recorder.RoomTieExample | demo/idb-recorder.js:194-197 | two sessions started together come back by room, not by id, when no room is given |
| RemuxService.PrefixIsSum | demo/services/remuxService.js:62 | each prefix entry is the sum of the sizes before it |
| RemuxService.PrefixMonotone | demo/services/remuxService.js:62 | prefix offsets never decrease |
| RemuxService.MeasureChunks | demo/services/remuxService.js:47-60 | size i is the length of row i, or 0 when the row is missing; the total is their sum |
| RemuxService.BuildPrefix | demo/services/remuxService.js:62 | entry i is the sum of sizes 0..i-1 |
| RemuxService.BuildSessionIndex | demo/services/remuxService.js:37-64 | 'Session not found' exactly when the record is missing; 'Session has no chunks' exactly when chunkCount <= 0; 'Total size is zero' exactly when every counted row is empty or missing; otherwise a consistent index of the session's rows |
| RemuxService.LocateChunkByOffset | demo/services/remuxService.js:66-75 | the result is the last chunk starting at or before the offset, and the offset within it; inside the file the offset falls within that chunk's bytes; a negative offset gives chunk 0 |
| RemuxService.ViewAt | demo/services/remuxService.js:84-103 | byte k of chunk i is byte prefix[i]+k of the file the index describes |
| RemuxService.Read | demo/services/remuxService.js:84-103 | for 0 <= start <= end <= totalSize, the result is bytes start..end of the session's file, and 'Missing chunk' exactly when a non-empty chunk overlapping the range has no row |
| RemuxService.MaxCacheSize | demo/services/remuxService.js:79 | `cacheMB\|0` MiB when positive, otherwise 128 MiB; always a positive number of whole MiB |
| RemuxService.PadSlices | demo/services/remuxService.js:150-153 | the padding adds up to `(padMB\|0)` MiB when that is positive; every slice is at most 16 MiB and all slices but the last are full |
| RemuxService.ListSessionsSorted | demo/services/remuxService.js:189-193 | every session once, newest first |
| RemuxService.RecordedBytesAreServed | demo/idb-recorder.js:64-88 | a session recorded by one clean pump run from seq 0, served through an index measured over its rows, reads as exactly the recorded blobs in order |
| RemuxService.DenseRowsAreServed | demo/services/remuxService.js:37-103 | when the rows are exactly the items at seqs 0..n-1, the file the index serves is the items concatenated in order |
| RemuxService.ViewIsDownloadBytes | demo/services/remuxService.js:37-103 | for a session whose rows are exactly 0..count-1, the file served by the index is the same bytes `assembleAndDownload` produces |
| StreamWorker.Drain | public/sw.js:59-67 | a flush keeps the readable's state, only appends to the body, only advances the cursor, stops where nothing is parked, and leaves every other parked chunk as it was |
| StreamWorker.AfterWrite | public/sw.js:69-93 | a write rejects exactly when the readable is closed and the write is at the cursor, and then changes nothing; otherwise the body only grows and the cursor never moves back |
| StreamWorker.AfterClose | public/sw.js:94 | `close` closes the readable, keeps the body and leaves nothing parked at the cursor |
| StreamWorker.AfterAbort | public/sw.js:95 | `abort` closes the readable and keeps the body, the cursor and the parked chunks |
| StreamWorker.DrainEffect | public/sw.js:59-67 | a flush on an open readable keeps body and cursor in step, only appends, stops where nothing is parked, and removes one parked chunk per enqueued chunk |
| StreamWorker.WriteKeepsInv | public/sw.js:69-93 | every write keeps the body length equal to `nextOffset` and nothing parked at the cursor; the body only grows and the cursor never moves back |
| StreamWorker.WriteAtCursor | public/sw.js:78-82 | a write without a position on an open readable resolves, and its bytes follow the old body |
| StreamWorker.WriteAt | public/sw.js:79-82 | a write at `nextOffset` enqueues, advances and flushes |
| StreamWorker.WritePark | public/sw.js:83-84 | a write ahead of the cursor is parked, replacing the chunk parked there |
| StreamWorker.WriteDrop | public/sw.js:85-87 | a write behind the cursor is dropped |
| StreamWorker.WriteAfterClose | public/sw.js:88-91 | a write at the cursor after the readable closed rejects and changes nothing |
| StreamWorker.CloseEmitsNothing | public/sw.js:94 | once the invariant holds, `close` adds no bytes; parked chunks never reach the body |
| StreamWorker.ReorderedWritesGiveFile | public/sw.js:57-93 | whatever the order (and repetition) of the converter's writes of non-empty tiles, once all are written the body is exactly the file and nothing stays parked |
| StreamWorker.OutOfOrderExample | public/sw.js:78-85 | a chunk written ahead of its predecessor waits and is enqueued right after it |
| StreamWorker.StrandedExample | public/sw.js:78-94 | a chunk parked at an offset that a longer write then covers is never flushed, and `close` ends the body without it |
| StreamWorker.ReorderingSink.constructor | public/sw.js:55-58 | cursor 0, nothing parked, nothing enqueued, readable open |
| StreamWorker.ReorderingSink.TryFlush | public/sw.js:59-67 | the loop computes `Drain` of the old state |
| StreamWorker.ReorderingSink.Write | public/sw.js:69-93 | the new state and the outcome are `AfterWrite` of the old state |
| StreamWorker.ReorderingSink.Close | public/sw.js:94 | the new state is `AfterClose` of the old state |
| StreamWorker.ReorderingSink.Abort | public/sw.js:95 | the new state is `AfterAbort` of the old state |
| StreamWorker.BuildInlineIndex | public/sw.js:102-115 | 'Session not found' and 'No chunks' exactly as in the remux index, never a zero-total error; otherwise a consistent index with mime type `video/webm` |
| StreamWorker.FileStamp | public/sw.js:43 | the ISO time with every ':' and '.' replaced by '-' and every other character kept |
| StreamWorker.CheckRequest | public/sw.js:42-46 | 400 'Missing session' exactly when the session parameter is absent or empty; 500 exactly when a session is given but the converter is not loaded; otherwise 200 as `video/webm` under the `name` parameter or `session-<stamp>.webm` |
| StreamWorker.HandleDownload | public/sw.js:40-169 | the reply follows the request checks; a missing or chunkless session gives an empty, already closed body; otherwise the conversion starts on a fresh sink with an index of chunkCount entries whose sizes are the stored row lengths (0 for a missing row), consistent with the rows when the record is stored under its own id |
| PullWorker.FirstGap | demo/sw.js:62-63 | the first seq from k on with no row; every seq before it has one |
| PullWorker.RunIsDensePrefix | demo/sw.js:58-68 | the run from seq k is exactly rows k..FirstGap-1, in order |
| PullWorker.PullKeepsInv | demo/sw.js:58-68 | what was enqueued plus what is still to come is always the run from seq 0; once done, the controller is closed |
| PullWorker.PullsFinish | demo/sw.js:58-68 | the remaining run's length plus one pulls finish the stream: done, closed, and carrying the whole run |
| PullWorker.DoneIsFinal | demo/sw.js:59 | after the end, pulls enqueue nothing and only mark the controller closed |
| PullWorker.StreamIsDensePrefix | demo/sw.js:56-68 | the whole stream carries rows 0..FirstGap-1 in seq order |
| PullWorker.DenseStreamIsDownload | demo/sw.js:56-68 | when the rows are exactly 0..n-1, the stream carries the same chunks as `assembleAndDownload` |
| PullWorker.GapTruncates | demo/sw.js:63 | a missing seq ends the stream there, even when later rows exist |
| PullWorker.PullStep | demo/sw.js:58-68 | a pull enqueues exactly when the stream is not done and row nextSeq exists, and then enqueues that row and advances by one; otherwise it ends the stream and enqueues nothing; the enqueued chunks only grow |
| PullWorker.ChunkPuller.constructor | demo/sw.js:56 | `nextSeq` 0, not done, nothing enqueued |
| PullWorker.ChunkPuller.Pull | demo/sw.js:58-68 | the new state is `PullStep` of the old state |
| PullWorker.HandleDownload | demo/sw.js:40-84 | the reply follows the request checks; a pull source from seq 0 exists exactly when the response streams |

## Left out

- Promises, awaits and interleavings are not modelled. Each IndexedDB transaction is one atomic step. An `enqueue` during a pump is a call to `Enqueue` between two `PumpStep` calls.
- How each pump transaction ends is a parameter: `failed` holds the iterations whose error is reported through `onerror` (the item is dropped and logged), and `hung` those aborted while committing. The `start` put's outcome is `fails`. The pump's error itself is only logged, so it is not modelled.
- Recorder.IDBWriter.Stop, Recorder.IDBWriter.CleanupOldSessions and Recorder.DeleteSession take their transactions to succeed. One that reports an error rejects, and IndexedDB rolls it back, leaving the stores as they were. One aborted while committing is rolled back too, but the code listens only for `complete` and `error`, so the call never settles; the model has no call that never returns. The same holds for `start`: its model with `fails` gives the state such a hang leaves, but returns. The reads of `assembleAndDownload` and of the index builders are taken to succeed too; a failed read rejects and changes nothing.
- Recorder.IDBWriter.CleanupOldSessions: `keepCount` is a natural number or unbounded. The code also accepts a negative value, which deletes every session, and a fractional one, which deletes a truncated count; its only caller passes the default.
- Recorder.IDBWriter.Pump: the stall rests on IndexedDB's abort rules. A throw inside `get.onsuccess` aborts the transaction, as IndexedDB does for a throwing request handler. A transaction aborted with no request pending, or while committing, fires only `abort`, which the code does not listen for. `failed` stands only for errors reported through `onerror`. Once stalled, the writer stays so: `pumping` stays set and `Enqueue` only queues.
- `chunkCount` that is not an integer (the code reads it as 0) and JavaScript number precision: counts, sizes and offsets are unbounded integers.
- The `ab` form of a chunk row and the `blob` form are both plain byte sequences.
- Query key order: sorting is by `startedAt || 0`, and the stable JavaScript sort keeps ties in the order the query returned them. The store's `getAll` returns rows by id, and the 'byRoom' index by roomId and then id. Ids and room ids compare by character, not by UTF-16 code unit.
- Recorder.IDBWriter.Flush: the idle state of later polls is a parameter, because the pump runs concurrently. The timers are counted, not timed.
- Progress callbacks, `postMessage` logging, the DOM link click in `assembleAndDownload`, `listSessions` as a separate function, storage persistence and usage, and `openDB`'s schema upgrade are left out. They do not affect the stores or the bytes.
- Mediabunny's `Input`, `Output`, `Conversion`, `StreamTarget` and `ReadableStreamSource` are left out. The converter is the environment that calls `read` and the sink's `write`, `close` and `abort`. Conversion output bytes are not modelled.
- RemuxService.Read: requires `end <= totalSize`. Past the total, `take` is 0 once the position reaches the total and the code loops forever. It also requires every present row to have the size recorded in the index: a row that shrank makes the code loop forever, and a row that grew makes it return the wrong bytes. The code never returns fewer bytes than asked.
- RemuxService.LocateChunkByOffset: `(lo + hi) >> 1` is taken as halving. This holds while the chunk count is at most 2^30: `lo + hi` reaches `2·count - 2`, and from 2^31 on it wraps to a negative 32-bit value.
- RemuxService.PadSlices: writes to the file handle are returned as the list of slice lengths. The bytes of a slice are zero.
- public/sw.js inline `locate` and `read` are the same code as `locateChunkByOffset` and `read` in the remux service. `RemuxService.LocateChunkByOffset` and `RemuxService.Read` model both.
- StreamWorker.HandleDownload: returns when the sink is set up, before the conversion runs. The code only builds the `Response` after `await conversion.execute()`, so the body is complete before any byte is sent; the model's body is the sink's enqueued bytes and does not time them. A failure after the converter starts is not modelled. The `catch` then tries to abort the writable through a new writer; the model assumes the `StreamTarget` still holds the writable's lock, so `getWriter` throws and the abort does not reach the sink. The outer `SW init error` 500 is not modelled either.
- StreamWorker.ReorderedWritesGiveFile: requires non-empty tiles. An empty tile starts at the same offset as the next tile, so the two would share one key of `pending`.
- The sink's `write` converting arbitrary `data` to `Uint8Array` is left out: writes carry bytes.
- The WritableStream's own state machine is left out. This includes refusing writes after it errored and the consumer cancelling the response.
- PullWorker.DoneIsFinal: the stream never calls `pull` after `close`, so the branch is not reached. Were it reached, the second `controller.close()` would throw; the model only sets the closed flag again.
- PullWorker.PullStep: `(row.seq || nextSeq) + 1` is `nextSeq + 1`, because a row's seq is its key. The source's `maxCacheSize` of 64 MiB and its chunk size are converter settings and are left out.
