/** The read side of demo/services/remuxService.js: the per-session size and
    prefix-sum index, the binary-search locator, the random-access range
    reader handed to the converter, the cache-size default, the padding loop
    and the sorted session listing. The same index, locator and reader are
    repeated inline in public/sw.js. */
module RemuxService {
  import opened Common
  import opened SessionStore
  import Recorder

  /** What `buildSessionIndex` returns (the database handle left out). */
  datatype Index = Index(
    session: Session,
    count: nat,
    sizes: seq<nat>,
    prefix: seq<nat>,
    totalSize: nat,
    mimeType: string)

  datatype IndexError = SessionNotFound | NoChunks | TotalSizeZero

  datatype ReadError = MissingChunk

  /** prefix[0] = 0 and prefix[i + 1] = prefix[i] + sizes[i]. */
  ghost predicate PrefixTable(prefix: seq<nat>, sizes: seq<nat>)
  {
    && |prefix| == |sizes| > 0
    && prefix[0] == 0
    && forall i :: 0 <= i < |sizes| - 1 ==> prefix[i + 1] == prefix[i] + sizes[i]
  }

  ghost predicate ValidIndex(idx: Index)
  {
    && |idx.sizes| == idx.count
    && PrefixTable(idx.prefix, idx.sizes)
    && idx.totalSize == Sum(idx.sizes)
  }

  // ---------------------------------------------------------------------
  // Facts about prefix tables
  // ---------------------------------------------------------------------

  lemma SumAppend(s: seq<nat>, x: nat)
    ensures Sum(s + [x]) == Sum(s) + x
  {
    assert (s + [x])[..|s|] == s;
  }

  /** Each prefix entry is the sum of the sizes before it, and the last
      entry plus the last size is the total. */
  lemma {:induction false} PrefixIsSum(prefix: seq<nat>, sizes: seq<nat>, i: nat)
    requires PrefixTable(prefix, sizes) && i < |sizes|
    ensures prefix[i] == Sum(sizes[..i])
    ensures i == |sizes| - 1 ==> prefix[i] + sizes[i] == Sum(sizes)
  {
    if i > 0 {
      PrefixIsSum(prefix, sizes, i - 1);
      assert sizes[..i] == sizes[..i - 1] + [sizes[i - 1]];
      SumAppend(sizes[..i - 1], sizes[i - 1]);
    }
    if i == |sizes| - 1 {
      assert sizes[..i] + [sizes[i]] == sizes;
      SumAppend(sizes[..i], sizes[i]);
    }
  }

  /** Chunk i ends no later than chunk j begins, for i < j. */
  lemma {:induction false} PrefixOrdered(prefix: seq<nat>, sizes: seq<nat>, i: nat, j: nat)
    requires PrefixTable(prefix, sizes) && i < j < |sizes|
    ensures prefix[i] + sizes[i] <= prefix[j]
    decreases j - i
  {
    if i + 1 < j {
      PrefixOrdered(prefix, sizes, i + 1, j);
    }
  }

  lemma PrefixMonotone(prefix: seq<nat>, sizes: seq<nat>)
    requires PrefixTable(prefix, sizes)
    ensures forall i, j :: 0 <= i < j < |sizes| ==> prefix[i] + sizes[i] <= prefix[j]
  {
    forall i, j | 0 <= i < j < |sizes| ensures prefix[i] + sizes[i] <= prefix[j] {
      PrefixOrdered(prefix, sizes, i, j);
    }
  }

  lemma {:induction false} SumZero(s: seq<nat>)
    ensures Sum(s) == 0 <==> forall i :: 0 <= i < |s| ==> s[i] == 0
  {
    if |s| > 0 {
      SumZero(s[..|s| - 1]);
      assert forall i :: 0 <= i < |s| - 1 ==> s[..|s| - 1][i] == s[i];
    }
  }

  // ---------------------------------------------------------------------
  // buildSessionIndex
  // ---------------------------------------------------------------------

  /** The sizes loop: chunk i's byte length, or 0 for a missing row, and
      their running total. */
  method MeasureChunks(chunks: map<ChunkKey, Bytes>, sid: string, count: nat) returns (sizes: seq<nat>, total: nat)
    ensures |sizes| == count
    ensures forall i :: 0 <= i < count ==> sizes[i] == RowSize(chunks, sid, i)
    ensures total == Sum(sizes)
  {
    var a := new nat[count];
    total := 0;
    for i := 0 to count
      invariant forall k :: 0 <= k < i ==> a[k] == RowSize(chunks, sid, k)
      invariant total == Sum(a[..i])
    {
      var sz := RowSize(chunks, sid, i);
      a[i] := sz;
      assert a[..i + 1] == a[..i] + [sz];
      SumAppend(a[..i], sz);
      total := total + sz;
    }
    sizes := a[..];
    assert a[..count] == sizes;
  }

  /** The prefix loop: prefix[i] is the running sum `acc` before chunk i. */
  method BuildPrefix(sizes: seq<nat>) returns (prefix: seq<nat>)
    requires |sizes| > 0
    ensures PrefixTable(prefix, sizes)
    ensures forall i :: 0 <= i < |sizes| ==> prefix[i] == Sum(sizes[..i])
  {
    var n := |sizes|;
    var p := new nat[n];
    var acc := 0;
    for i := 0 to n
      invariant forall k :: 0 <= k < i ==> p[k] == Sum(sizes[..k])
      invariant acc == Sum(sizes[..i])
    {
      p[i] := acc;
      assert sizes[..i + 1] == sizes[..i] + [sizes[i]];
      SumAppend(sizes[..i], sizes[i]);
      acc := acc + sizes[i];
    }
    prefix := p[..];
    forall i | 0 <= i < n - 1 ensures prefix[i + 1] == prefix[i] + sizes[i] {
      assert sizes[..i + 1] == sizes[..i] + [sizes[i]];
      SumAppend(sizes[..i], sizes[i]);
    }
  }

  /** `buildSessionIndex`: fails for an absent session, a chunkCount that is
      not positive, or a zero total; otherwise sizes, prefix and total over
      chunks 0..chunkCount-1. */
  method BuildSessionIndex(db: Db, sessionId: string, mimeType: string) returns (r: Result<Index, IndexError>)
    ensures sessionId !in db.sessions <==> r == Err(SessionNotFound)
    ensures r == Err(NoChunks) <==> sessionId in db.sessions && db.sessions[sessionId].chunkCount <= 0
    ensures r == Err(TotalSizeZero) <==>
      && sessionId in db.sessions && db.sessions[sessionId].chunkCount > 0
      && forall i :: 0 <= i < db.sessions[sessionId].chunkCount ==> RowSize(db.chunks, sessionId, i) == 0
    ensures r.Ok? ==>
      && ValidIndex(r.value)
      && r.value.session == db.sessions[sessionId]
      && r.value.count == db.sessions[sessionId].chunkCount
      && (forall i :: 0 <= i < r.value.count ==> r.value.sizes[i] == RowSize(db.chunks, sessionId, i))
      && r.value.totalSize > 0
      && r.value.mimeType == mimeType
  {
    if sessionId !in db.sessions {
      return Err(SessionNotFound);
    }
    var sess := db.sessions[sessionId];
    if sess.chunkCount <= 0 {
      return Err(NoChunks);
    }
    var count: nat := sess.chunkCount;
    var sizes, total := MeasureChunks(db.chunks, sessionId, count);
    SumZero(sizes);
    if total <= 0 {
      return Err(TotalSizeZero);
    }
    var prefix := BuildPrefix(sizes);
    r := Ok(Index(sess, count, sizes, prefix, total, mimeType));
  }

  // ---------------------------------------------------------------------
  // locateChunkByOffset
  // ---------------------------------------------------------------------

  /** `locateChunkByOffset`: binary search for the greatest seq whose prefix
      entry is at most `offset` (seq 0 when there is none). Within the total
      size, the offset falls inside that chunk. */
  method LocateChunkByOffset(prefix: seq<nat>, sizes: seq<nat>, offset: int) returns (seqNo: nat, chunkOffset: int)
    requires PrefixTable(prefix, sizes)
    ensures seqNo < |sizes|
    ensures chunkOffset == offset - prefix[seqNo]
    ensures offset >= 0 ==> prefix[seqNo] <= offset && forall j :: seqNo < j < |sizes| ==> prefix[j] > offset
    ensures offset < 0 ==> seqNo == 0
    ensures 0 <= offset < Sum(sizes) ==> 0 <= chunkOffset < sizes[seqNo]
  {
    var n := |sizes|;
    PrefixMonotone(prefix, sizes);
    var lo, hi, ans := 0, n - 1, 0;
    while lo <= hi
      invariant 0 <= lo <= hi + 1 <= n
      invariant ans < n
      invariant lo > 0 ==> ans == lo - 1 && prefix[ans] <= offset
      invariant lo == 0 ==> ans == 0
      invariant forall j :: hi < j < n ==> prefix[j] > offset
      decreases hi - lo
    {
      var mid := (lo + hi) / 2;
      if prefix[mid] <= offset {
        ans := mid;
        lo := mid + 1;
      } else {
        hi := mid - 1;
      }
    }
    seqNo := ans;
    chunkOffset := offset - prefix[seqNo];
    if 0 <= offset < Sum(sizes) {
      PrefixIsSum(prefix, sizes, n - 1);
      if seqNo < n - 1 {
        assert prefix[seqNo + 1] > offset;
      }
    }
  }

  // ---------------------------------------------------------------------
  // The range reader
  // ---------------------------------------------------------------------

  function Zeros(n: nat): (z: Bytes)
    ensures |z| == n
  {
    seq(n, _ => 0 as bv8)
  }

  /** Chunk i as the index sees it: its payload, or (for a row that has
      disappeared since) as many unreadable bytes as the index recorded. */
  function Row(chunks: map<ChunkKey, Bytes>, sid: string, sizes: seq<nat>, i: nat): Bytes
    requires i < |sizes|
  {
    if (sid, i) in chunks then chunks[(sid, i)] else Zeros(sizes[i])
  }

  function Rows(chunks: map<ChunkKey, Bytes>, sid: string, sizes: seq<nat>): (rows: seq<Bytes>)
    ensures |rows| == |sizes|
    ensures forall i :: 0 <= i < |sizes| ==> rows[i] == Row(chunks, sid, sizes, i)
  {
    seq(|sizes|, i requires 0 <= i < |sizes| => Row(chunks, sid, sizes, i))
  }

  /** The session's byte stream as addressed by the index: chunks in seq
      order, concatenated. */
  function View(chunks: map<ChunkKey, Bytes>, idx: Index): Bytes
  {
    Concat(Rows(chunks, idx.session.id, idx.sizes))
  }

  /** Every row still present has the size the index recorded (chunks are
      immutable; rows can only disappear). */
  ghost predicate Consistent(chunks: map<ChunkKey, Bytes>, idx: Index)
  {
    forall i :: 0 <= i < |idx.sizes| && (idx.session.id, i) in chunks ==> |chunks[(idx.session.id, i)]| == idx.sizes[i]
  }

  /** Chunk i holds at least one byte of [a, b). */
  ghost predicate Covers(idx: Index, i: nat, a: int, b: int)
    requires i < |idx.sizes| && |idx.prefix| == |idx.sizes|
  {
    a < b && idx.sizes[i] > 0 && idx.prefix[i] < b && a < idx.prefix[i] + idx.sizes[i]
  }

  lemma ViewLength(chunks: map<ChunkKey, Bytes>, idx: Index)
    requires ValidIndex(idx) && Consistent(chunks, idx)
    ensures |View(chunks, idx)| == idx.totalSize
  {
    var rows := Rows(chunks, idx.session.id, idx.sizes);
    assert Lengths(rows) == idx.sizes;
    ConcatLength(rows);
  }

  /** Byte k of chunk i sits at offset prefix[i] + k of the view. */
  lemma ViewAt(chunks: map<ChunkKey, Bytes>, idx: Index, i: nat, k: nat)
    requires ValidIndex(idx) && Consistent(chunks, idx)
    requires i < |idx.sizes| && k < idx.sizes[i]
    ensures |View(chunks, idx)| == idx.totalSize
    ensures idx.prefix[i] + k < idx.totalSize
    ensures View(chunks, idx)[idx.prefix[i] + k] == Row(chunks, idx.session.id, idx.sizes, i)[k]
  {
    var rows := Rows(chunks, idx.session.id, idx.sizes);
    assert Lengths(rows) == idx.sizes;
    assert Lengths(rows[..i]) == idx.sizes[..i];
    ConcatLength(rows);
    ConcatLength(rows[..i]);
    PrefixIsSum(idx.prefix, idx.sizes, i);
    ConcatAt(rows, i, k);
  }

  /** Reading `take` bytes of chunk s from chunkOffset on reads the view
      from prefix[s] + chunkOffset on. */
  lemma SliceOfView(chunks: map<ChunkKey, Bytes>, idx: Index, s: nat, chunkOffset: nat, take: nat)
    requires ValidIndex(idx) && Consistent(chunks, idx)
    requires s < |idx.sizes| && (idx.session.id, s) in chunks
    requires 0 < take && chunkOffset + take <= idx.sizes[s]
    ensures idx.prefix[s] + chunkOffset + take <= |View(chunks, idx)|
    ensures View(chunks, idx)[idx.prefix[s] + chunkOffset..idx.prefix[s] + chunkOffset + take]
      == chunks[(idx.session.id, s)][chunkOffset..chunkOffset + take]
  {
    var view := View(chunks, idx);
    var blob := chunks[(idx.session.id, s)];
    var p := idx.prefix[s] + chunkOffset;
    assert Row(chunks, idx.session.id, idx.sizes, s) == blob;
    ViewAt(chunks, idx, s, chunkOffset + take - 1);
    var got, want := view[p..p + take], blob[chunkOffset..chunkOffset + take];
    forall k | 0 <= k < take ensures got[k] == want[k] {
      ViewAt(chunks, idx, s, chunkOffset + k);
    }
  }

  /** Chunks located at pos are present, so once [pos, pos + take) has been
      read within chunk s, every chunk covering [start, pos + take) is
      present. */
  lemma CoverageGrows(chunks: map<ChunkKey, Bytes>, idx: Index, s: nat, start: int, pos: int, take: int)
    requires ValidIndex(idx) && s < |idx.sizes| && (idx.session.id, s) in chunks
    requires idx.prefix[s] <= pos && pos + take <= idx.prefix[s] + idx.sizes[s] && start <= pos
    requires forall i :: 0 <= i < |idx.sizes| && Covers(idx, i, start, pos) ==> (idx.session.id, i) in chunks
    ensures forall i :: 0 <= i < |idx.sizes| && Covers(idx, i, start, pos + take) ==> (idx.session.id, i) in chunks
  {
    PrefixMonotone(idx.prefix, idx.sizes);
    forall i | 0 <= i < |idx.sizes| && Covers(idx, i, start, pos + take) ensures (idx.session.id, i) in chunks {
      if !Covers(idx, i, start, pos) {
        assert i == s;
      }
    }
  }

  /** An index whose sizes were measured from the rows matches them. */
  lemma MeasuredIsConsistent(chunks: map<ChunkKey, Bytes>, idx: Index)
    requires ValidIndex(idx)
    requires forall i :: 0 <= i < idx.count ==> idx.sizes[i] == RowSize(chunks, idx.session.id, i)
    ensures Consistent(chunks, idx)
  {
  }

  /** The `read(start, end)` callback: fill `end - start` bytes by locating
      the chunk at the current position, copying from it up to its end or
      the end of the range, and moving on; fails with "Missing chunk" when a
      located row has disappeared. */
  method Read(chunks: map<ChunkKey, Bytes>, idx: Index, start: int, end: int) returns (r: Result<Bytes, ReadError>)
    requires ValidIndex(idx) && Consistent(chunks, idx)
    requires 0 <= start <= end <= idx.totalSize
    ensures |View(chunks, idx)| == idx.totalSize
    ensures r.Ok? ==> |r.value| == end - start && r.value == View(chunks, idx)[start..end]
    ensures r.Err? <==> exists i :: 0 <= i < |idx.sizes| && Covers(idx, i, start, end) && (idx.session.id, i) !in chunks
  {
    var sid := idx.session.id;
    var len := end - start;
    var out := new bv8[len];
    var written, pos := 0, start;
    ghost var view := View(chunks, idx);
    ViewLength(chunks, idx);
    while written < len
      invariant 0 <= written <= len && pos == start + written
      invariant forall j :: 0 <= j < written ==> out[j] == view[start + j]
      invariant forall i :: 0 <= i < |idx.sizes| && Covers(idx, i, start, pos) ==> (sid, i) in chunks
      decreases len - written
    {
      var s, chunkOffset := LocateChunkByOffset(idx.prefix, idx.sizes, pos);
      if (sid, s) !in chunks {
        assert Covers(idx, s, start, end);
        return Err(MissingChunk);
      }
      var blob := chunks[(sid, s)];
      var take := if |blob| - chunkOffset < len - written then |blob| - chunkOffset else len - written;
      var slice := blob[chunkOffset..chunkOffset + take];
      SliceOfView(chunks, idx, s, chunkOffset, take);
      CoverageGrows(chunks, idx, s, start, pos, take);
      forall k | 0 <= k < take {
        out[written + k] := slice[k];
      }
      written, pos := written + take, pos + take;
    }
    assert out[..] == view[start..end];
    r := Ok(out[..]);
  }

  // ---------------------------------------------------------------------
  // Stream-source options and padding
  // ---------------------------------------------------------------------

  /** `Math.max(0, (cacheMB|0) * 1 MiB) || 128 MiB`; an absent option is 0. */
  function MaxCacheSize(cacheMB: int): (r: nat)
    ensures r > 0 && r % MiB == 0
    ensures 0 < cacheMB < 0x8000_0000 ==> r == cacheMB * MiB
    ensures -0x8000_0000 <= cacheMB <= 0 ==> r == 128 * MiB
    ensures ToInt32(cacheMB) > 0 ==> r == ToInt32(cacheMB) * MiB
    ensures ToInt32(cacheMB) <= 0 ==> r == 128 * MiB
  {
    var bytes := ToInt32(cacheMB) * MiB;
    var clamped: nat := if bytes > 0 then bytes else 0;
    if clamped != 0 then clamped else 128 * MiB
  }

  /** The padding loop after a remux to a file: `(padMB|0)` MiB of zeros
      written in slices of at most 16 MiB, all full but the last. */
  method PadSlices(padMB: int) returns (slices: seq<nat>)
    ensures Sum(slices) == if padMB > 0 && ToInt32(padMB) > 0 then ToInt32(padMB) * MiB else 0
    ensures forall i :: 0 <= i < |slices| ==> 0 < slices[i] <= 16 * MiB
    ensures forall i :: 0 <= i < |slices| - 1 ==> slices[i] == 16 * MiB
  {
    slices := [];
    if !(padMB > 0) {
      return;
    }
    var remaining := ToInt32(padMB) * MiB;
    var chunk := 16 * MiB;
    while remaining > 0
      invariant Sum(slices) + (if remaining > 0 then remaining else 0) == (if ToInt32(padMB) > 0 then ToInt32(padMB) * MiB else 0)
      invariant forall i :: 0 <= i < |slices| ==> 0 < slices[i] <= chunk
      invariant forall i :: 0 <= i < |slices| ==> slices[i] == chunk || (i == |slices| - 1 && remaining <= 0)
      decreases remaining
    {
      var slice: nat := if remaining < chunk then remaining else chunk;
      SumAppend(slices, slice);
      slices := slices + [slice];
      remaining := remaining - slice;
    }
  }

  /** `listSessionsSorted`: every session row exactly once, newest first by
      `startedAt || 0`. */
  method ListSessionsSorted(db: Db) returns (result: seq<Session>)
    requires WellKeyed(db)
    ensures SortedBy(result, NewestFirst)
    ensures DistinctIds(result)
    ensures |result| == |db.sessions|
    ensures forall r :: r in result <==> r.id in db.sessions && db.sessions[r.id] == r
  {
    var rows := GetAll(db);
    result := SortSessions(rows, NewestFirst);
    SameIds(rows, result);
    DistinctIdsCount(result);
    forall r | r in result ensures r.id in db.sessions && db.sessions[r.id] == r {
      assert r in multiset(rows);
    }
    forall r: Session | r.id in db.sessions && db.sessions[r.id] == r ensures r in result {
      var y :| y in rows && y.id == r.id;
      assert y in multiset(result);
    }
  }

  /** When a session's chunk rows are exactly seqs 0..count-1 and the index
      was built over them, the byte stream the reader serves is the file
      `assembleAndDownload` would produce from the same rows. */
  lemma ViewIsDownloadBytes(chunks: map<ChunkKey, Bytes>, idx: Index, order: seq<nat>)
    requires ValidIndex(idx)
    requires forall i :: 0 <= i < idx.count ==> idx.sizes[i] == RowSize(chunks, idx.session.id, i)
    requires forall n: nat :: (idx.session.id, n) in chunks <==> n < idx.count
    requires Recorder.StrictlyIncreasing(order)
    requires forall n :: n in order <==> (idx.session.id, n) in chunks
    ensures Consistent(chunks, idx)
    ensures View(chunks, idx) == Concat(Recorder.Payloads(chunks, idx.session.id, order))
  {
    var sid := idx.session.id;
    Recorder.DenseOrder(order, idx.count);
    var rows := Rows(chunks, sid, idx.sizes);
    var parts := Recorder.Payloads(chunks, sid, order);
    forall i | 0 <= i < |rows| ensures rows[i] == parts[i] {
      assert (sid, i) in chunks;
    }
    assert rows == parts;
  }

  /** A session whose rows are exactly the items at seqs 0..n-1 is served,
      by an index measured over them, as the items in order. */
  lemma DenseRowsAreServed(chunks: map<ChunkKey, Bytes>, items: seq<Bytes>, idx: Index)
    requires ValidIndex(idx) && idx.count == |items|
    requires forall i :: 0 <= i < idx.count ==> idx.sizes[i] == RowSize(chunks, idx.session.id, i)
    requires forall k: nat :: (idx.session.id, k) in chunks <==> k < |items|
    requires forall k: nat :: k < |items| ==> chunks[(idx.session.id, k)] == items[k]
    ensures Consistent(chunks, idx)
    ensures View(chunks, idx) == Concat(items)
  {
    var sid := idx.session.id;
    var order := seq(|items|, i requires 0 <= i < |items| => i);
    forall n: nat ensures n in order <==> (sid, n) in chunks {
      if (sid, n) in chunks {
        assert order[n] == n;
      }
    }
    ViewIsDownloadBytes(chunks, idx, order);
    assert Recorder.Payloads(chunks, sid, order) == items;
  }

  /** End to end: a session recorded by one clean pump run from seq 0 is
      served, by an index measured over its rows, as exactly the recorded
      blobs in order. */
  lemma RecordedBytesAreServed(db: Db, sid: string, items: seq<Bytes>, recorded: Db, idx: Index)
    requires sid in db.sessions
    requires forall k: nat :: (sid, k) !in db.chunks
    requires |items| > 0
    requires recorded == Recorder.PumpAll(db, Some(sid), 0, items, {})
    requires ValidIndex(idx) && idx.session.id == sid
    requires sid in recorded.sessions && idx.count == recorded.sessions[sid].chunkCount
    requires forall i :: 0 <= i < idx.count ==> idx.sizes[i] == RowSize(recorded.chunks, sid, i)
    ensures idx.count == |items|
    ensures Consistent(recorded.chunks, idx)
    ensures View(recorded.chunks, idx) == Concat(items)
  {
    Recorder.CleanPumpIsDense(db, sid, items);
    DenseRowsAreServed(recorded.chunks, items, idx);
  }
}
