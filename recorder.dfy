/** The recorder's write side (demo/idb-recorder.js): the `IDBWriter` with its
    FIFO queue, single-flight pump and `seq` counter (here `seqNo`), the session lifecycle,
    retention, `deleteSession`, ordered reassembly for download and the
    by-room listing. Each IndexedDB transaction is one atomic step on a `Db`
    value. */
module Recorder {
  import opened Common
  import opened SessionStore

  // ---------------------------------------------------------------------
  // Transactions on the stores
  // ---------------------------------------------------------------------

  /** The transaction of one pump iteration commits: the store does not
      fail it, the writer has a session id, and that session's record
      exists. */
  predicate Lands(db: Db, sessionId: Option<string>, fails: bool)
  {
    !fails && sessionId.Some? && sessionId.value in db.sessions
  }

  /** The writer's session id names no record. A transaction that does not
      fail then throws in its `get.onsuccess` handler, which aborts it; only
      `oncomplete` and `onerror` are listened to, so the pump's await on it
      never settles. */
  predicate Orphaned(db: Db, sessionId: Option<string>)
  {
    sessionId.Some? && sessionId.value !in db.sessions
  }

  /** Pump iteration k never settles: its transaction is aborted while
      committing (`hung`, for example over the storage quota), or the
      session has no record and the transaction does not fail at once, so
      the throw in `get.onsuccess` aborts it. */
  predicate StallsAt(db: Db, sessionId: Option<string>, k: nat, failed: set<nat>, hung: set<nat>)
  {
    k in hung || (Orphaned(db, sessionId) && k !in failed)
  }

  /** The transaction of one pump iteration: put chunk (sid, seqNo) and set the
      session's chunkCount to seq + 1, atomically. It lands only when the
      writer has a session id whose record exists and the store does not
      fail it; otherwise nothing changes (a failed, refused or aborted
      transaction writes nothing). */
  function PersistChunk(db: Db, sessionId: Option<string>, seqNo: nat, blob: Bytes, fails: bool): (r: Db)
    ensures r.sessions.Keys == db.sessions.Keys
    ensures forall key :: key in r.chunks <==> key in db.chunks || (Lands(db, sessionId, fails) && key == (sessionId.value, seqNo))
    ensures Lands(db, sessionId, fails) ==>
      && r.chunks[(sessionId.value, seqNo)] == blob
      && r.sessions[sessionId.value] == db.sessions[sessionId.value].(chunkCount := seqNo + 1)
    ensures !Lands(db, sessionId, fails) ==> r == db
  {
    if fails || sessionId.None? || sessionId.value !in db.sessions then db
    else
      var sid := sessionId.value;
      Db(db.sessions[sid := db.sessions[sid].(chunkCount := seqNo + 1)], db.chunks[(sid, seqNo) := blob])
  }

  /** Reference semantics of a pump run: the items, in FIFO order, are given
      seqs seq0, seq0 + 1, ...; item k is dropped when k is in `failed`. */
  function PumpAll(db: Db, sessionId: Option<string>, seq0: nat, items: seq<Bytes>, failed: set<nat>): (r: Db)
    ensures r.sessions.Keys == db.sessions.Keys
    ensures forall key :: key in db.chunks ==> key in r.chunks
    ensures Orphaned(db, sessionId) ==> r == db
  {
    if |items| == 0 then db
    else
      var n := |items|;
      PersistChunk(PumpAll(db, sessionId, seq0, items[..n - 1], failed), sessionId, seq0 + n - 1, items[n - 1], n - 1 in failed)
  }

  /** Whether item k of a pump run starting at seq0 was persisted at key. */
  predicate PumpedAt(sid: string, seq0: nat, n: nat, failed: set<nat>, key: ChunkKey)
  {
    key.0 == sid && seq0 <= key.1 < seq0 + n && key.1 - seq0 !in failed
  }

  /** What a pump run does to the stores: item k lands at (sid, seq0 + k)
      unless it failed, every other chunk is untouched, only the writer's
      session changes, and only in chunkCount, which after a successful last
      item is seq0 + n (so it also counts the seqs of dropped items). */
  lemma {:induction false} PumpAllEffect(db: Db, sid: string, seq0: nat, items: seq<Bytes>, failed: set<nat>)
    requires sid in db.sessions
    ensures var r := PumpAll(db, Some(sid), seq0, items, failed);
      && r.sessions.Keys == db.sessions.Keys
      && (forall id :: id in db.sessions && id != sid ==> r.sessions[id] == db.sessions[id])
      && r.sessions[sid] == db.sessions[sid].(chunkCount := r.sessions[sid].chunkCount)
      && (|items| > 0 && |items| - 1 !in failed ==> r.sessions[sid].chunkCount == seq0 + |items|)
      && (forall key: ChunkKey :: key in r.chunks <==> key in db.chunks || PumpedAt(sid, seq0, |items|, failed, key))
      && (forall key: ChunkKey :: key in r.chunks ==>
            r.chunks[key] == if PumpedAt(sid, seq0, |items|, failed, key) then items[key.1 - seq0] else db.chunks[key])
  {
    if |items| > 0 {
      var n := |items|;
      PumpAllEffect(db, sid, seq0, items[..n - 1], failed);
      var p := PumpAll(db, Some(sid), seq0, items[..n - 1], failed);
      var r := PumpAll(db, Some(sid), seq0, items, failed);
      assert r == PersistChunk(p, Some(sid), seq0 + n - 1, items[n - 1], n - 1 in failed);
      forall key: ChunkKey | key in r.chunks
        ensures r.chunks[key] == if PumpedAt(sid, seq0, n, failed, key) then items[key.1 - seq0] else db.chunks[key]
      {
        if key != (sid, seq0 + n - 1) {
          assert PumpedAt(sid, seq0, n, failed, key) == PumpedAt(sid, seq0, n - 1, failed, key);
          if PumpedAt(sid, seq0, n, failed, key) {
            assert items[..n - 1][key.1 - seq0] == items[key.1 - seq0];
          }
        }
      }
    }
  }

  /** `deleteSession`: removes the session record and every chunk whose
      sessionId matches, and nothing else. */
  function DeleteSession(db: Db, id: string): (r: Db)
    ensures id !in r.sessions
    ensures forall other :: other != id ==> (other in r.sessions <==> other in db.sessions)
    ensures forall other :: other in r.sessions ==> r.sessions[other] == db.sessions[other]
    ensures forall key: ChunkKey :: key in r.chunks <==> key in db.chunks && key.0 != id
    ensures forall key: ChunkKey :: key in r.chunks ==> r.chunks[key] == db.chunks[key]
  {
    Db(db.sessions - {id}, map key | key in db.chunks && key.0 != id :: db.chunks[key])
  }

  /** The stores after removing a set of sessions and all of their chunks. */
  function WithoutSessions(db: Db, ids: set<string>): Db
  {
    Db(db.sessions - ids, map key | key in db.chunks && key.0 !in ids :: db.chunks[key])
  }

  // ---------------------------------------------------------------------
  // The writer
  // ---------------------------------------------------------------------

  class IDBWriter {
    var db: Db
    var queue: seq<Bytes>
    var pumping: bool
    var seqNo: nat
    var sessionId: Option<string>
    var mimeType: string

    ghost predicate Valid()
      reads this
    {
      WellKeyed(db)
    }

    constructor (db0: Db)
      requires WellKeyed(db0)
      ensures Valid()
      ensures db == db0 && queue == [] && !pumping && seqNo == 0
      ensures sessionId == None && mimeType == ""
    {
      db := db0;
      queue := [];
      pumping := false;
      seqNo := 0;
      sessionId := None;
      mimeType := "";
    }

    /** `start`: the writer takes the new id and mime type first, then puts a
        fresh session record (status recording, chunkCount 0, no stoppedAt)
        and runs retention with the default keepCount (unbounded). When the
        put's transaction fails (`fails`) the promise rejects: no record is
        written, yet the writer keeps the new id. The id and the clock are
        parameters; `seqNo` is NOT reset. */
    method Start(filenameBase: string, mimeType: string, roomId: Option<string>, id: string, now: int, fails: bool)
      returns (sid: Option<string>)
      requires Valid()
      modifies this
      ensures Valid()
      ensures sessionId == Some(id) && this.mimeType == mimeType
      ensures sid.Some? <==> !fails
      ensures sid.Some? ==> sid.value == id
      ensures !fails ==> db.sessions == old(db.sessions)[id := Session(id, filenameBase, mimeType, Some(now), None, 0, Recording, roomId)]
      ensures db.chunks == old(db.chunks)
      ensures fails ==> db == old(db)
      ensures Orphaned(db, sessionId) <==> fails && id !in old(db.sessions)
      ensures queue == old(queue) && pumping == old(pumping) && seqNo == old(seqNo)
    {
      sessionId := Some(id);
      this.mimeType := mimeType;
      if fails {
        return None;
      }
      var record := Session(id, filenameBase, mimeType, Some(now), None, 0, Recording, roomId);
      var put := db.(sessions := db.sessions[id := record]);
      var deleted;
      db, deleted := CleanupOldSessions(put, None);
      assert db == put;
      assert id in db.sessions;
      sid := Some(id);
    }

    /** `enqueue`: append to the FIFO; start the pump only when none is
        running. `_pump` sets `pumping` before its first await, so an enqueue
        that arrives while a pump is pending or running only appends. */
    method Enqueue(blob: Bytes) returns (started: bool)
      modifies this
      ensures queue == old(queue) + [blob]
      ensures started == !old(pumping) && pumping
      ensures db == old(db) && seqNo == old(seqNo) && sessionId == old(sessionId) && mimeType == old(mimeType)
    {
      queue := queue + [blob];
      started := !pumping;
      if started {
        pumping := true;
      }
    }

    /** One iteration of the pump loop: shift the head, give it the next seq,
        and run its transaction; a failed transaction is logged and the item
        dropped, but `seqNo` has already advanced. */
    method PumpStep(fails: bool)
      requires pumping && queue != []
      modifies this
      ensures queue == old(queue)[1..] && seqNo == old(seqNo) + 1
      ensures db == PersistChunk(old(db), sessionId, old(seqNo), old(queue)[0], fails)
      ensures pumping && sessionId == old(sessionId) && mimeType == old(mimeType)
    {
      var blob := queue[0];
      queue := queue[1..];
      var s := seqNo;
      seqNo := seqNo + 1;
      db := PersistChunk(db, sessionId, s, blob, fails);
    }

    /** `_pump` from its first await on: drain the queue in FIFO order, then
        clear `pumping`. Iteration k's transaction reports an error when k is
        in `failed`; the item is then dropped and the loop goes on. The code
        listens only for `complete` and `error`, so a transaction that ends
        in a bare `abort` leaves its await unsettled for good: the pump is
        stuck there, with `pumping` still set, and the method returns at that
        point with `stalled` (see `StallsAt`). */
    method Pump(failed: set<nat>, hung: set<nat>) returns (stalled: bool)
      requires Valid() && pumping
      modifies this
      ensures Valid()
      ensures sessionId == old(sessionId) && mimeType == old(mimeType)
      ensures stalled <==> exists k :: 0 <= k < |old(queue)| && StallsAt(old(db), sessionId, k, failed, hung)
      ensures !stalled ==>
        && queue == [] && !pumping
        && seqNo == old(seqNo) + |old(queue)|
        && db == PumpAll(old(db), sessionId, old(seqNo), old(queue), failed)
      ensures stalled ==>
        && pumping
        && exists j :: 0 <= j < |old(queue)| && StallsAt(old(db), sessionId, j, failed, hung)
             && (forall i :: 0 <= i < j ==> !StallsAt(old(db), sessionId, i, failed, hung))
             && queue == old(queue)[j + 1..] && seqNo == old(seqNo) + j + 1
             && db == PumpAll(old(db), sessionId, old(seqNo), old(queue)[..j], failed)
      ensures stalled && Orphaned(old(db), sessionId) ==> db == old(db)
    {
      var db0, k := db, 0;
      while queue != []
        invariant pumping && k <= |old(queue)|
        invariant queue == old(queue)[k..]
        invariant seqNo == old(seqNo) + k
        invariant db0 == old(db)
        invariant db == PumpAll(old(db), sessionId, old(seqNo), old(queue)[..k], failed)
        invariant db.sessions.Keys == old(db.sessions.Keys)
        invariant sessionId == old(sessionId) && mimeType == old(mimeType)
        invariant forall i :: 0 <= i < k ==> !StallsAt(old(db), sessionId, i, failed, hung)
        decreases |queue|
      {
        assert old(queue)[..k + 1][..k] == old(queue)[..k];
        var stalls := StallsAt(db0, sessionId, k, failed, hung);
        // a transaction that is aborted or that throws is rolled back
        PumpStep(k in failed || stalls);
        if stalls {
          PumpKeepsKeys(old(db), sessionId, old(seqNo), old(queue)[..k], failed);
          return true;
        }
        k := k + 1;
      }
      assert old(queue)[..k] == old(queue);
      pumping := false;
      PumpKeepsKeys(old(db), sessionId, old(seqNo), old(queue), failed);
      stalled := false;
    }

    /** Whether the writer is idle at poll i of `flush`; poll 0 sees the
        current fields, later polls see what the environment reports. */
    predicate IdleAt(i: nat, later: seq<bool>)
      reads this
    {
      if i == 0 then !pumping && queue == [] else i - 1 < |later| && later[i - 1]
    }

    /** `flush`: poll at most 500 times, stopping at the first idle poll,
        then wait once more for the last transaction. Returns the number of
        10 ms waits and of timers in all. */
    method Flush(later: seq<bool>) returns (polls: nat, timers: nat)
      ensures polls <= 500 && timers == polls + 1
      ensures forall i :: 0 <= i < polls ==> !IdleAt(i, later)
      ensures polls < 500 ==> IdleAt(polls, later)
    {
      polls := 0;
      while polls < 500 && !IdleAt(polls, later)
        invariant polls <= 500
        invariant forall i :: 0 <= i < polls ==> !IdleAt(i, later)
      {
        polls := polls + 1;
      }
      timers := polls + 1;
    }

    /** `stop`: mark the session stopped at `now` when its record exists.
        Without a session id the lookup throws and nothing changes. */
    method Stop(now: int) returns (ok: bool)
      requires Valid()
      modifies this
      ensures Valid()
      ensures ok == old(sessionId).Some?
      ensures ok && old(sessionId).value in old(db.sessions) ==>
        db.sessions == old(db.sessions)[old(sessionId).value := old(db.sessions)[old(sessionId).value].(status := Stopped, stoppedAt := Some(now))]
      ensures !ok || old(sessionId).value !in old(db.sessions) ==> db.sessions == old(db.sessions)
      ensures db.chunks == old(db.chunks)
      ensures queue == old(queue) && pumping == old(pumping) && seqNo == old(seqNo) && sessionId == old(sessionId)
      ensures mimeType == old(mimeType)
    {
      ok := sessionId.Some?;
      if ok && sessionId.value in db.sessions {
        var sid := sessionId.value;
        db := db.(sessions := db.sessions[sid := db.sessions[sid].(status := Stopped, stoppedAt := Some(now))]);
      }
    }

    /** `cleanupOldSessions`: with a finite keepCount k and m > k sessions,
        delete the m - k that sort first by `startedAt || 0` (ties by id),
        with all their chunks; otherwise do nothing. */
    method CleanupOldSessions(db: Db, keepCount: Option<nat>) returns (r: Db, deleted: set<string>)
      requires WellKeyed(db)
      ensures WellKeyed(r)
      ensures keepCount.None? || |db.sessions| <= keepCount.value ==> r == db && deleted == {}
      ensures keepCount.Some? && |db.sessions| > keepCount.value ==> |deleted| == |db.sessions| - keepCount.value
      ensures deleted <= db.sessions.Keys
      ensures r == WithoutSessions(db, deleted)
      ensures forall d, s :: d in deleted && s in db.sessions && s !in deleted ==>
        Before(db.sessions[d], db.sessions[s], OldestFirst)
    {
      if keepCount.None? || |db.sessions| <= keepCount.value {
        assert WithoutSessions(db, {}) == db;
        return db, {};
      }
      var rows := GetAll(db);
      var sorted := SortSessions(rows, OldestFirst);
      DistinctIdsCount(rows);
      assert |sorted| == |rows| by {
        assert |multiset(sorted)| == |multiset(rows)|;
      }
      var toDelete := |sorted| - keepCount.value;
      r, deleted := DeleteEach(db, sorted[..toDelete]);
      OldestPrefix(db, rows, sorted, toDelete);
    }
  }

  /** A writer whose `start` failed keeps an id with no record: its first
      pump stalls for good, so an enqueue after a later, successful `start`
      only queues and never starts a pump. */
  method FailedStartStallsWriter(db0: Db, id: string, next: string, blob: Bytes, now: int)
    returns (stalled: bool, restarted: bool)
    requires WellKeyed(db0) && id !in db0.sessions
    ensures stalled && !restarted
  {
    var w := new IDBWriter(db0);
    var _ := w.Start("", "", None, id, now, true);
    var started := w.Enqueue(blob);
    assert StallsAt(w.db, w.sessionId, 0, {}, {});
    stalled := w.Pump({}, {});
    var _ := w.Start("", "", None, next, now, false);
    restarted := w.Enqueue(blob);
  }

  /** A pump transaction aborted while committing (over the storage quota,
      say) stalls the writer although its session record exists: later
      enqueues only queue. */
  method CommitAbortStallsWriter(db0: Db, id: string, blob: Bytes, now: int)
    returns (stalled: bool, recorded: bool, restarted: bool)
    requires WellKeyed(db0)
    ensures stalled && recorded && !restarted
  {
    var w := new IDBWriter(db0);
    var _ := w.Start("", "", None, id, now, false);
    var started := w.Enqueue(blob);
    assert StallsAt(w.db, w.sessionId, 0, {}, {0});
    stalled := w.Pump({}, {0});
    recorded := id in w.db.sessions;
    restarted := w.Enqueue(blob);
  }

  /** `toDelete.forEach(...)`: delete each listed session with all of its
      chunks, one after the other, inside the one transaction. */
  method DeleteEach(db: Db, victims: seq<Session>) returns (r: Db, deleted: set<string>)
    ensures deleted == Ids(victims)
    ensures r == WithoutSessions(db, deleted)
  {
    r, deleted := db, {};
    assert WithoutSessions(db, {}) == db;
    var i := 0;
    while i < |victims|
      invariant 0 <= i <= |victims|
      invariant deleted == Ids(victims[..i])
      invariant r == WithoutSessions(db, deleted)
    {
      IdsStep(victims, i);
      DeleteOneMore(db, deleted, victims[i].id);
      r := DeleteSession(r, victims[i].id);
      deleted := deleted + {victims[i].id};
      i := i + 1;
    }
    assert victims[..i] == victims;
  }

  lemma DeleteOneMore(db: Db, ids: set<string>, id: string)
    ensures DeleteSession(WithoutSessions(db, ids), id) == WithoutSessions(db, ids + {id})
  {
  }

  /** The first k rows of the oldest-first order are k distinct sessions of
      the store, each older than every session left. */
  lemma OldestPrefix(db: Db, rows: seq<Session>, sorted: seq<Session>, k: nat)
    requires DistinctIds(rows) && Ids(rows) == db.sessions.Keys
    requires forall r :: r in rows ==> r.id in db.sessions && db.sessions[r.id] == r
    requires SortedBy(sorted, OldestFirst) && DistinctIds(sorted) && multiset(sorted) == multiset(rows)
    requires k <= |sorted|
    ensures |Ids(sorted[..k])| == k
    ensures Ids(sorted[..k]) <= db.sessions.Keys
    ensures forall d, s :: d in Ids(sorted[..k]) && s in db.sessions && s !in Ids(sorted[..k]) ==>
      Before(db.sessions[d], db.sessions[s], OldestFirst)
  {
    var pre := sorted[..k];
    assert DistinctIds(pre);
    DistinctIdsCount(pre);
    forall y | y in pre ensures y.id in db.sessions.Keys {
      InSortedIsRow(rows, sorted, y, db);
    }
    SameIds(sorted, rows);
    OldestBeforeRest(db, rows, sorted, k);
  }

  /** A session among the first k of the sorted rows sorts before any
      session of the store not among them. */
  lemma OldestBeforeRest(db: Db, rows: seq<Session>, sorted: seq<Session>, k: nat)
    requires forall r :: r in rows ==> r.id in db.sessions && db.sessions[r.id] == r
    requires SortedBy(sorted, OldestFirst) && multiset(sorted) == multiset(rows)
    requires Ids(sorted) == db.sessions.Keys
    requires k <= |sorted|
    ensures forall d, s :: d in Ids(sorted[..k]) && s in db.sessions && s !in Ids(sorted[..k]) ==>
      Before(db.sessions[d], db.sessions[s], OldestFirst)
  {
    var pre := sorted[..k];
    forall d, s | d in Ids(pre) && s in db.sessions && s !in Ids(pre)
      ensures Before(db.sessions[d], db.sessions[s], OldestFirst)
    {
      var x :| x in pre && x.id == d;
      var i :| 0 <= i < k && pre[i] == x;
      var y :| y in sorted && y.id == s;
      var j :| 0 <= j < |sorted| && sorted[j] == y;
      InSortedIsRow(rows, sorted, x, db);
      InSortedIsRow(rows, sorted, y, db);
    }
  }

  lemma InSortedIsRow(rows: seq<Session>, sorted: seq<Session>, x: Session, db: Db)
    requires multiset(sorted) == multiset(rows)
    requires forall r :: r in rows ==> r.id in db.sessions && db.sessions[r.id] == r
    requires x in sorted
    ensures x.id in db.sessions && db.sessions[x.id] == x
  {
    assert x in multiset(rows);
  }

  /** A pump run adds no session and keeps every record under its own id. */
  lemma {:induction false} PumpKeepsKeys(db: Db, sessionId: Option<string>, seq0: nat, items: seq<Bytes>, failed: set<nat>)
    requires WellKeyed(db)
    ensures WellKeyed(PumpAll(db, sessionId, seq0, items, failed))
    ensures PumpAll(db, sessionId, seq0, items, failed).sessions.Keys == db.sessions.Keys
  {
    if |items| > 0 {
      PumpKeepsKeys(db, sessionId, seq0, items[..|items| - 1], failed);
    }
  }

  /** The first pump run of a writer into a session with no chunk rows,
      starting at seq 0 with every transaction landing, leaves exactly rows
      0 .. n-1, holding the items in FIFO order, and chunkCount n. */
  lemma CleanPumpIsDense(db: Db, sid: string, items: seq<Bytes>)
    requires sid in db.sessions
    requires forall k: nat :: (sid, k) !in db.chunks
    requires |items| > 0
    ensures var r := PumpAll(db, Some(sid), 0, items, {});
      && (forall k: nat :: (sid, k) in r.chunks <==> k < |items|)
      && (forall k: nat :: k < |items| ==> r.chunks[(sid, k)] == items[k])
      && sid in r.sessions && r.sessions[sid].chunkCount == |items|
  {
    PumpAllEffect(db, sid, 0, items, {});
    var r := PumpAll(db, Some(sid), 0, items, {});
    forall k: nat | k < |items| ensures (sid, k) in r.chunks && r.chunks[(sid, k)] == items[k] {
      assert PumpedAt(sid, 0, |items|, {}, (sid, k));
    }
  }

  /** A failed transaction's seq is spent: its row is never written, while
      the seqs after it are still used, so the session's rows have a gap. */
  lemma FailedItemLeavesGap(db: Db, sid: string, seq0: nat, items: seq<Bytes>, failed: set<nat>, f: nat)
    requires sid in db.sessions
    requires (sid, seq0 + f) !in db.chunks
    requires f < |items| && f in failed
    ensures (sid, seq0 + f) !in PumpAll(db, Some(sid), seq0, items, failed).chunks
    ensures forall k: nat :: f < k < |items| && k !in failed ==>
      (sid, seq0 + k) in PumpAll(db, Some(sid), seq0, items, failed).chunks
  {
    PumpAllEffect(db, sid, seq0, items, failed);
    var r := PumpAll(db, Some(sid), seq0, items, failed);
    assert !PumpedAt(sid, seq0, |items|, failed, (sid, seq0 + f));
    forall k: nat | f < k < |items| && k !in failed ensures (sid, seq0 + k) in r.chunks {
      assert PumpedAt(sid, seq0, |items|, failed, (sid, seq0 + k));
    }
  }

  /** `start` keeps the writer's seq counter, so a second recording on the
      same writer puts its first chunk at the old counter and leaves rows
      0 .. seq0-1 of the new session empty. */
  lemma RestartedWriterSkipsLowSeqs(db: Db, sid: string, seq0: nat, items: seq<Bytes>, failed: set<nat>)
    requires sid in db.sessions
    requires forall k: nat :: (sid, k) !in db.chunks
    ensures forall k: nat :: k < seq0 ==> (sid, k) !in PumpAll(db, Some(sid), seq0, items, failed).chunks
  {
    PumpAllEffect(db, sid, seq0, items, failed);
  }

  // ---------------------------------------------------------------------
  // Reassembly and listings
  // ---------------------------------------------------------------------

  datatype Download = Download(bytes: Bytes, name: string, mimeType: string)

  predicate StartsWith(s: string, prefix: string)
  {
    |prefix| <= |s| && s[..|prefix|] == prefix
  }

  /** The download's file name: `fileName` when given, otherwise
      `(filenameBase || 'recording')` with `.mp4` for an mp4 mime type and
      `.webm` for anything else. */
  function DownloadName(fileName: string, s: Session): (name: string)
    ensures fileName != "" ==> name == fileName
    ensures fileName == "" ==> |name| >= 5
    ensures fileName == "" && StartsWith(s.mimeType, "video/mp4") ==>
      name[|name| - 4..] == ".mp4" && name[..|name| - 4] == (if s.filenameBase != "" then s.filenameBase else "recording")
    ensures fileName == "" && !StartsWith(s.mimeType, "video/mp4") ==>
      name[|name| - 5..] == ".webm" && name[..|name| - 5] == (if s.filenameBase != "" then s.filenameBase else "recording")
  {
    if fileName != "" then fileName
    else
      var base := if s.filenameBase != "" then s.filenameBase else "recording";
      base + "." + (if StartsWith(s.mimeType, "video/mp4") then "mp4" else "webm")
  }

  ghost predicate StrictlyIncreasing(order: seq<nat>)
  {
    forall i, j :: 0 <= i < j < |order| ==> order[i] < order[j]
  }

  /** The payloads of a session's chunks, in the given seq order. */
  function Payloads(chunks: map<ChunkKey, Bytes>, sid: string, order: seq<nat>): (r: seq<Bytes>)
    requires forall n :: n in order ==> (sid, n) in chunks
    ensures |r| == |order|
    ensures forall i :: 0 <= i < |order| ==> r[i] == chunks[(sid, order[i])]
  {
    seq(|order|, i requires 0 <= i < |order| => chunks[(sid, order[i])])
  }

  /** The seqs of a session's chunk rows (the 'bySession' index). */
  function SeqsOf(chunks: map<ChunkKey, Bytes>, sid: string): (r: set<nat>)
    ensures forall n :: n in r <==> (sid, n) in chunks
  {
    set key | key in chunks && key.0 == sid :: key.1
  }

  /** The least element of a non-empty set of seqs. */
  ghost function MinOf(s: set<nat>): (m: nat)
    requires s != {}
    ensures m in s
    ensures forall x :: x in s ==> m <= x
    decreases s
  {
    var x :| x in s;
    if s == {x} then x
    else
      assert forall y :: y in s ==> y == x || y in s - {x};
      var m := MinOf(s - {x});
      if x < m then x else m
  }

  /** The seqs of the session's chunk rows (fetched through the 'bySession'
      index) in ascending order. */
  method SortedSeqs(chunks: map<ChunkKey, Bytes>, sid: string) returns (order: seq<nat>)
    ensures StrictlyIncreasing(order)
    ensures forall n :: n in order <==> (sid, n) in chunks
  {
    order := [];
    var remaining := SeqsOf(chunks, sid);
    while remaining != {}
      invariant StrictlyIncreasing(order)
      invariant forall n :: (sid, n) in chunks <==> n in order || n in remaining
      invariant forall i, n :: 0 <= i < |order| && n in remaining ==> order[i] < n
      decreases remaining
    {
      ghost var least := MinOf(remaining);
      var m :| m in remaining && forall x :: x in remaining ==> m <= x;
      AppendIncreasing(order, m);
      forall i, n | 0 <= i < |order| + 1 && n in remaining - {m} ensures (order + [m])[i] < n {
        if i == |order| {
          assert m <= n;
        } else {
          assert order[i] < n;
        }
      }
      order := order + [m];
      remaining := remaining - {m};
    }
  }

  /** `assembleAndDownload` without the DOM part: fails when the session is
      absent; otherwise all of the session's chunk rows in ascending seq
      order, concatenated, under the session's mime type and the computed
      name. */
  method AssembleAndDownload(db: Db, sessionId: string, fileName: string)
    returns (file: Option<Download>, order: seq<nat>)
    ensures file.None? <==> sessionId !in db.sessions
    ensures file.Some? ==>
      && StrictlyIncreasing(order)
      && (forall n :: n in order <==> (sessionId, n) in db.chunks)
      && file.value.bytes == Concat(Payloads(db.chunks, sessionId, order))
      && file.value.name == DownloadName(fileName, db.sessions[sessionId])
      && file.value.mimeType == db.sessions[sessionId].mimeType
  {
    if sessionId !in db.sessions {
      return None, [];
    }
    var sess := db.sessions[sessionId];
    order := SortedSeqs(db.chunks, sessionId);
    var parts := Payloads(db.chunks, sessionId, order);
    file := Some(Download(Concat(parts), DownloadName(fileName, sess), sess.mimeType));
  }

  lemma AppendIncreasing(order: seq<nat>, m: nat)
    requires StrictlyIncreasing(order)
    requires |order| > 0 ==> order[|order| - 1] < m
    ensures StrictlyIncreasing(order + [m])
  {
    forall i, j | 0 <= i < j < |order| + 1 ensures (order + [m])[i] < (order + [m])[j] {
      if j == |order| && i < |order| - 1 {
        assert order[i] < order[|order| - 1];
      }
    }
  }

  lemma {:induction false} IncreasingAtLeastIndex(order: seq<nat>)
    requires StrictlyIncreasing(order)
    ensures forall k :: 0 <= k < |order| ==> order[k] >= k
  {
    if |order| > 0 {
      var t := order[..|order| - 1];
      IncreasingAtLeastIndex(t);
      assert forall k :: 0 <= k < |t| ==> t[k] == order[k];
      if |order| > 1 {
        assert order[|order| - 1] > order[|order| - 2];
      }
    }
  }

  /** When a session's chunk rows are exactly seqs 0..n-1 (the pump's dense
      prefix), the reassembly order is 0, 1, ..., n-1. */
  lemma {:induction false} DenseOrder(order: seq<nat>, n: nat)
    requires StrictlyIncreasing(order)
    requires forall x: nat :: x in order <==> x < n
    ensures |order| == n
    ensures forall i :: 0 <= i < n ==> order[i] == i
  {
    var i := 0;
    while i < |order| && i < n
      invariant i <= |order| && i <= n
      invariant forall k :: 0 <= k < i ==> order[k] == k
    {
      assert i in order;
      var j :| 0 <= j < |order| && order[j] == i;
      assert i == 0 || order[i] > order[i - 1];
      assert order[i] >= i;
      assert j == i;
      i := i + 1;
    }
    forall j | 0 <= j < i ensures order[j] != i { }
    assert i < n ==> i in order;
    IncreasingAtLeastIndex(order);
    forall k | 0 <= k < |order| ensures k <= order[k] < n {
      assert order[k] in order;
    }
    assert |order| > 0 ==> order[|order| - 1] < n;
  }

  /** A row the 'byRoom' index returns for the query `roomId`: the index
      holds only rows that have a roomId, and a call without a room
      (`undefined` or `null`) queries the whole index. */
  predicate InRoom(r: Session, roomId: Option<string>)
  {
    r.roomId.Some? && (roomId.None? || r.roomId == roomId)
  }

  /** Two rows started at the same time, queried without a room, come back
      in 'byRoom' index order: room "a" before room "b", whatever their ids. */
  lemma RoomTieExample()
    ensures var early := Session("b", "", "", Some(5), None, 0, Recording, Some("a"));
      var late := Session("a", "", "", Some(5), None, 0, Recording, Some("b"));
      Before(early, late, NewestFirstByRoom) && !Before(late, early, NewestFirstByRoom)
  {
  }

  /** `getSessionsByRoom`: the sessions the 'byRoom' index returns for the
      query, newest first. */
  method GetSessionsByRoom(db: Db, roomId: Option<string>) returns (result: seq<Session>)
    requires WellKeyed(db)
    ensures SortedBy(result, NewestFirstByRoom) && DistinctIds(result)
    ensures roomId.Some? ==> forall r :: r in result <==> r.id in db.sessions && db.sessions[r.id] == r && r.roomId == roomId
    ensures roomId.None? ==> forall r :: r in result <==> r.id in db.sessions && db.sessions[r.id] == r && r.roomId.Some?
  {
    var rows := GetAll(db);
    var inRoom: seq<Session> := [];
    var i := 0;
    while i < |rows|
      invariant 0 <= i <= |rows|
      invariant forall r :: r in inRoom <==> r in rows[..i] && InRoom(r, roomId)
      invariant DistinctIds(inRoom)
    {
      assert rows[..i + 1] == rows[..i] + [rows[i]];
      if InRoom(rows[i], roomId) {
        forall y | y in inRoom ensures y.id != rows[i].id {
          var k :| 0 <= k < i && rows[k] == y;
        }
        AppendDistinct(inRoom, rows[i]);
        inRoom := inRoom + [rows[i]];
      }
      i := i + 1;
    }
    assert rows[..i] == rows;
    result := SortSessions(inRoom, NewestFirstByRoom);
    forall r: Session | r.id in db.sessions && db.sessions[r.id] == r && InRoom(r, roomId) ensures r in result {
      assert r.id in Ids(rows);
      var y :| y in rows && y.id == r.id;
      assert y in multiset(inRoom);
    }
    forall r | r in result ensures r in inRoom {
      assert r in multiset(inRoom);
    }
  }
}
