/** The streaming download of public/sw.js: the reordering sink between the
    converter's positioned writes and the response body (`nextOffset`, the
    `pending` map, `tryFlush`, and the sink's `write`, `close` and `abort`),
    and the request checks of `handleDownload`. The worker's inline index,
    locator and reader are the ones of the remux service and are modelled
    there. */
module StreamWorker {
  import opened Common
  import opened SessionStore
  import RemuxService

  // ---------------------------------------------------------------------
  // The sink as a value
  // ---------------------------------------------------------------------

  /** `nextOffset`, `pending`, the chunks enqueued on the readable side so
      far, and whether the readable is still open (it closes on the sink's
      close or abort, or when the response's consumer cancels it). */
  datatype Sink = Sink(nextOffset: nat, pending: map<nat, Bytes>, emitted: seq<Bytes>, open: bool)

  /** The outcome of a `write`: the new sink and whether the write resolved
      (false: it rethrew after enqueueing on a closed readable failed). */
  datatype Written = Written(sink: Sink, resolved: bool)

  const Fresh: Sink := Sink(0, map[], [], true)

  /** What the sink maintains: the readable carries exactly the bytes before
      `nextOffset`, and nothing is parked at `nextOffset` itself. */
  ghost predicate Inv(s: Sink)
  {
    |Concat(s.emitted)| == s.nextOffset && s.nextOffset !in s.pending
  }

  /** `tryFlush`: while a chunk is parked at `nextOffset`, remove it, enqueue
      it and advance. On a closed readable the enqueue throws after the
      removal. */
  function Drain(s: Sink): (r: Sink)
    ensures r.open == s.open
    ensures r.nextOffset !in r.pending
    ensures s.emitted <= r.emitted && s.nextOffset <= r.nextOffset
    ensures forall o :: o in r.pending ==> o in s.pending && r.pending[o] == s.pending[o]
    decreases |s.pending|
  {
    if s.nextOffset !in s.pending then s
    else if !s.open then s.(pending := s.pending - {s.nextOffset})
    else
      var chunk := s.pending[s.nextOffset];
      Drain(Sink(s.nextOffset + |chunk|, s.pending - {s.nextOffset}, s.emitted + [chunk], true))
  }

  /** The sink's `write`: the position is the chunk's numeric `position`, or
      `nextOffset` without one. At `nextOffset` the bytes are enqueued (and
      parked successors flushed); beyond it they are parked, replacing any
      chunk parked at the same position; before it they are dropped. */
  function AfterWrite(s: Sink, position: Option<int>, data: Bytes): (r: Written)
    ensures r.sink.open == s.open
    ensures s.emitted <= r.sink.emitted && s.nextOffset <= r.sink.nextOffset
    ensures !r.resolved <==> !s.open && (position.None? || position.value == s.nextOffset)
    ensures !r.resolved ==> r.sink == s
  {
    var pos := if position.Some? then position.value else s.nextOffset;
    if pos == s.nextOffset then
      if !s.open then Written(s, false)
      else Written(Drain(s.(nextOffset := s.nextOffset + |data|, emitted := s.emitted + [data])), true)
    else if pos > s.nextOffset then Written(s.(pending := s.pending[pos := data]), true)
    else Written(s, true)
  }

  /** The sink's `close`: flush, then close the readable. */
  function AfterClose(s: Sink): (r: Sink)
    ensures !r.open
    ensures s.emitted <= r.emitted
    ensures r.nextOffset !in r.pending
  {
    Drain(s).(open := false)
  }

  /** The sink's `abort`: close the readable; parked chunks stay parked. */
  function AfterAbort(s: Sink): (r: Sink)
    ensures !r.open
    ensures r.pending == s.pending && r.emitted == s.emitted && r.nextOffset == s.nextOffset
  {
    s.(open := false)
  }

  /** The bytes the response body carries so far. */
  function Body(s: Sink): Bytes
  {
    Concat(s.emitted)
  }

  // ---------------------------------------------------------------------
  // What the sink guarantees
  // ---------------------------------------------------------------------

  lemma ConcatAppend(rows: seq<Bytes>, c: Bytes)
    ensures Concat(rows + [c]) == Concat(rows) + c
  {
    assert (rows + [c])[..|rows|] == rows;
  }

  lemma DrainStep(s: Sink)
    requires s.open && s.nextOffset in s.pending
    ensures Drain(s) == Drain(Sink(s.nextOffset + |s.pending[s.nextOffset]|, s.pending - {s.nextOffset}, s.emitted + [s.pending[s.nextOffset]], true))
  {
  }

  lemma DrainStop(s: Sink)
    requires s.nextOffset !in s.pending
    ensures Drain(s) == s
  {
  }

  /** A flush on an open readable keeps the body and the cursor in step,
      only appends to the body, and stops where nothing is parked; the
      chunks it leaves were parked before. */
  lemma {:induction false} DrainEffect(s: Sink)
    requires s.open && |Concat(s.emitted)| == s.nextOffset
    ensures var r := Drain(s);
      && r.open
      && |Concat(r.emitted)| == r.nextOffset
      && r.nextOffset !in r.pending
      && s.emitted <= r.emitted
      && (forall o :: o in r.pending ==> o in s.pending && r.pending[o] == s.pending[o])
      && |s.pending| == |r.pending| + (|r.emitted| - |s.emitted|)
    decreases |s.pending|
  {
    if s.nextOffset in s.pending {
      var chunk := s.pending[s.nextOffset];
      var t := Sink(s.nextOffset + |chunk|, s.pending - {s.nextOffset}, s.emitted + [chunk], true);
      ConcatAppend(s.emitted, chunk);
      DrainStep(s);
      DrainEffect(t);
    } else {
      DrainStop(s);
    }
  }

  /** A longer run of chunks has the shorter run's bytes as a prefix. */
  lemma BodyPrefix(a: seq<Bytes>, b: seq<Bytes>)
    requires a <= b
    ensures Concat(a) <= Concat(b)
  {
    ConcatPrefix(b, |a|);
    assert b[..|a|] == a;
  }

  /** Writes keep the invariant, and the body only grows: bytes already
      sent are never rewritten. */
  lemma WriteKeepsInv(s: Sink, position: Option<int>, data: Bytes)
    requires Inv(s)
    ensures Inv(AfterWrite(s, position, data).sink)
    ensures Body(s) <= Body(AfterWrite(s, position, data).sink)
    ensures s.nextOffset <= AfterWrite(s, position, data).sink.nextOffset
  {
    var pos := if position.Some? then position.value else s.nextOffset;
    var r := AfterWrite(s, position, data).sink;
    if pos == s.nextOffset && s.open {
      var t := s.(nextOffset := s.nextOffset + |data|, emitted := s.emitted + [data]);
      assert r == Drain(t);
      ConcatAppend(s.emitted, data);
      DrainEffect(t);
      BodyPrefix(s.emitted, r.emitted);
    } else if pos > s.nextOffset {
      assert r == s.(pending := s.pending[pos := data]);
    } else {
      assert r == s;
    }
  }

  /** A write at `nextOffset` enqueues its bytes at once; a write that
      resolves never changes the readable's state. */
  lemma WriteAtCursor(s: Sink, data: Bytes)
    requires Inv(s) && s.open
    ensures AfterWrite(s, None, data).resolved
    ensures Body(s) + data <= Body(AfterWrite(s, None, data).sink)
    ensures AfterWrite(s, None, data).sink.open
  {
    var t := s.(nextOffset := s.nextOffset + |data|, emitted := s.emitted + [data]);
    ConcatAppend(s.emitted, data);
    DrainEffect(t);
    ConcatPrefix(Drain(t).emitted, |t.emitted|);
    assert Drain(t).emitted[..|t.emitted|] == t.emitted;
  }

  /** A write at `nextOffset` on an open readable enqueues the bytes and
      flushes. */
  lemma WriteAt(s: Sink, data: Bytes)
    requires s.open
    ensures AfterWrite(s, Some(s.nextOffset), data) ==
      Written(Drain(s.(nextOffset := s.nextOffset + |data|, emitted := s.emitted + [data])), true)
  {
  }

  /** A write ahead of the cursor is parked (replacing what was parked
      there) without touching the body. */
  lemma WritePark(s: Sink, pos: int, data: Bytes)
    requires pos > s.nextOffset
    ensures AfterWrite(s, Some(pos), data) == Written(s.(pending := s.pending[pos := data]), true)
  {
  }

  /** A write behind the cursor is dropped: sent bytes are not rewritten. */
  lemma WriteDrop(s: Sink, pos: int, data: Bytes)
    requires pos < s.nextOffset
    ensures AfterWrite(s, Some(pos), data) == Written(s, true)
  {
  }

  /** Enqueueing on a closed readable rejects the write and changes
      nothing. */
  lemma WriteAfterClose(s: Sink, data: Bytes)
    requires !s.open
    ensures AfterWrite(s, None, data) == Written(s, false)
  {
  }

  /** Under the invariant, `close` enqueues nothing more: chunks still parked
      (beyond a gap, or stranded behind the cursor) never reach the body. */
  lemma CloseEmitsNothing(s: Sink)
    requires Inv(s)
    ensures AfterClose(s) == s.(open := false)
    ensures Body(AfterClose(s)) == Body(s)
  {
  }

  // ---------------------------------------------------------------------
  // Reassembly of an out-of-order tiling
  // ---------------------------------------------------------------------

  /** `offs[i]` is where tile i of the output file starts: right after
      tiles 0..i-1; `offs[|tiles|]` is the file's length. */
  ghost predicate Tiling(tiles: seq<Bytes>, offs: seq<nat>)
  {
    && |offs| == |tiles| + 1
    && offs[0] == 0
    && forall i :: 0 <= i < |tiles| ==> offs[i + 1] == offs[i] + |tiles[i]|
  }

  ghost predicate NonEmpty(tiles: seq<Bytes>)
  {
    forall i :: 0 <= i < |tiles| ==> |tiles[i]| > 0
  }

  lemma {:induction false} TilingOffset(tiles: seq<Bytes>, offs: seq<nat>, i: nat)
    requires Tiling(tiles, offs) && i <= |tiles|
    ensures offs[i] == |Concat(tiles[..i])|
  {
    if i > 0 {
      TilingOffset(tiles, offs, i - 1);
      assert tiles[..i] == tiles[..i - 1] + [tiles[i - 1]];
      ConcatAppend(tiles[..i - 1], tiles[i - 1]);
    }
  }

  lemma {:induction false} OffsetIncreasing(tiles: seq<Bytes>, offs: seq<nat>, i: nat, j: nat)
    requires Tiling(tiles, offs) && NonEmpty(tiles) && i < j <= |tiles|
    ensures offs[i] < offs[j]
    decreases j - i
  {
    if i + 1 < j {
      OffsetIncreasing(tiles, offs, i + 1, j);
    }
  }

  /** The tiles among `written` from index c on, parked at their offsets. */
  ghost function Parked(tiles: seq<Bytes>, offs: seq<nat>, written: set<nat>, c: nat): map<nat, Bytes>
    requires |offs| == |tiles| + 1 && c <= |tiles|
    decreases |tiles| - c
  {
    if c == |tiles| then map[]
    else if c in written then Parked(tiles, offs, written, c + 1)[offs[c] := tiles[c]]
    else Parked(tiles, offs, written, c + 1)
  }

  /** Everything parked from tile c on sits at or beyond tile c's offset. */
  lemma {:induction false} ParkedAbove(tiles: seq<Bytes>, offs: seq<nat>, written: set<nat>, c: nat)
    requires Tiling(tiles, offs) && c <= |tiles|
    ensures forall o :: o in Parked(tiles, offs, written, c) ==> offs[c] <= o
    decreases |tiles| - c
  {
    if c < |tiles| {
      ParkedAbove(tiles, offs, written, c + 1);
    }
  }

  /** Tile c is parked at its offset exactly when it has been written. */
  lemma ParkedAt(tiles: seq<Bytes>, offs: seq<nat>, written: set<nat>, c: nat)
    requires Tiling(tiles, offs) && NonEmpty(tiles) && c <= |tiles|
    ensures offs[c] in Parked(tiles, offs, written, c) <==> c < |tiles| && c in written
  {
    if c < |tiles| {
      ParkedAbove(tiles, offs, written, c + 1);
    }
  }

  /** Sending tile c removes it from the parked tiles. */
  lemma ParkedRemove(tiles: seq<Bytes>, offs: seq<nat>, written: set<nat>, c: nat)
    requires Tiling(tiles, offs) && NonEmpty(tiles) && c < |tiles| && c in written
    ensures Parked(tiles, offs, written, c) - {offs[c]} == Parked(tiles, offs, written, c + 1)
  {
    var q := Parked(tiles, offs, written, c + 1);
    ParkedAbove(tiles, offs, written, c + 1);
    assert offs[c] !in q;
    assert q[offs[c] := tiles[c]] - {offs[c]} == q;
  }

  /** Only the written tiles from c on matter. */
  lemma {:induction false} ParkedSame(tiles: seq<Bytes>, offs: seq<nat>, w1: set<nat>, w2: set<nat>, c: nat)
    requires |offs| == |tiles| + 1 && c <= |tiles|
    requires forall i :: c <= i < |tiles| ==> (i in w1 <==> i in w2)
    ensures Parked(tiles, offs, w1, c) == Parked(tiles, offs, w2, c)
    decreases |tiles| - c
  {
    if c < |tiles| {
      ParkedSame(tiles, offs, w1, w2, c + 1);
    }
  }

  /** Parking tile j at or beyond the cursor adds it to the parked tiles. */
  lemma {:induction false} ParkedAdd(tiles: seq<Bytes>, offs: seq<nat>, written: set<nat>, c: nat, j: nat)
    requires Tiling(tiles, offs) && NonEmpty(tiles) && c <= j < |tiles|
    ensures Parked(tiles, offs, written, c)[offs[j] := tiles[j]] == Parked(tiles, offs, written + {j}, c)
    decreases |tiles| - c
  {
    var w := written + {j};
    if c == j {
      ParkedSame(tiles, offs, written, w, c + 1);
    } else {
      ParkedAdd(tiles, offs, written, c + 1, j);
      OffsetIncreasing(tiles, offs, c, j);
      var p := Parked(tiles, offs, written, c + 1);
      if c in written {
        var pc: map<nat, Bytes> := p[offs[c] := tiles[c]];
        var pj: map<nat, Bytes> := p[offs[j] := tiles[j]];
        assert pc[offs[j] := tiles[j]] == pj[offs[c] := tiles[c]];
      }
    }
  }

  lemma {:induction false} ParkedNone(tiles: seq<Bytes>, offs: seq<nat>, c: nat)
    requires |offs| == |tiles| + 1 && c <= |tiles|
    ensures Parked(tiles, offs, {}, c) == map[]
    decreases |tiles| - c
  {
    if c < |tiles| {
      ParkedNone(tiles, offs, c + 1);
    }
  }

  /** The first index from i on that has not been written (or the end). */
  function Frontier(written: set<nat>, n: nat, i: nat): (f: nat)
    requires i <= n
    ensures i <= f <= n
    ensures forall k :: i <= k < f ==> k in written
    ensures f < n ==> f !in written
    decreases n - i
  {
    if i < n && i in written then Frontier(written, n, i + 1) else i
  }

  lemma {:induction false} FrontierSkip(written: set<nat>, n: nat, i: nat, c: nat)
    requires i <= c <= n
    requires forall k :: i <= k < c ==> k in written
    ensures Frontier(written, n, i) == Frontier(written, n, c)
    decreases c - i
  {
    if i < c {
      FrontierSkip(written, n, i + 1, c);
    }
  }

  /** The sink when the tiles `written` have arrived and tiles 0..c-1 have
      been sent. */
  ghost function Expected(tiles: seq<Bytes>, offs: seq<nat>, written: set<nat>, c: nat): Sink
    requires Tiling(tiles, offs) && NonEmpty(tiles) && c <= |tiles|
  {
    Sink(offs[c], Parked(tiles, offs, written, c), tiles[..c], true)
  }

  /** A flush sends the parked tiles that continue the body, up to the first
      one missing. */
  lemma {:induction false} DrainTiles(tiles: seq<Bytes>, offs: seq<nat>, written: set<nat>, c: nat)
    requires Tiling(tiles, offs) && NonEmpty(tiles) && c <= |tiles|
    ensures Drain(Expected(tiles, offs, written, c)) == Expected(tiles, offs, written, Frontier(written, |tiles|, c))
    decreases |tiles| - c
  {
    var n := |tiles|;
    var s := Expected(tiles, offs, written, c);
    ParkedAt(tiles, offs, written, c);
    if c < n && c in written {
      ParkedRemove(tiles, offs, written, c);
      assert tiles[..c] + [tiles[c]] == tiles[..c + 1];
      var t := Sink(s.nextOffset + |s.pending[s.nextOffset]|, s.pending - {s.nextOffset}, s.emitted + [s.pending[s.nextOffset]], true);
      assert t == Expected(tiles, offs, written, c + 1);
      DrainStep(s);
      DrainTiles(tiles, offs, written, c + 1);
    } else {
      DrainStop(s);
    }
  }

  /** Writing the tile at the cursor sends it and then flushes from the
      next tile on. */
  lemma WriteCursorTile(tiles: seq<Bytes>, offs: seq<nat>, written: set<nat>, c: nat)
    requires Tiling(tiles, offs) && NonEmpty(tiles) && c < |tiles| && c !in written
    ensures AfterWrite(Expected(tiles, offs, written, c), Some(offs[c]), tiles[c]).sink == Drain(Expected(tiles, offs, written + {c}, c + 1))
  {
    var s := Expected(tiles, offs, written, c);
    assert tiles[..c] + [tiles[c]] == tiles[..c + 1];
    ParkedSame(tiles, offs, written, written + {c}, c + 1);
    var t := s.(nextOffset := s.nextOffset + |tiles[c]|, emitted := s.emitted + [tiles[c]]);
    assert t == Expected(tiles, offs, written + {c}, c + 1);
    WriteAt(s, tiles[c]);
  }

  lemma WriteTileNext(tiles: seq<Bytes>, offs: seq<nat>, written: set<nat>)
    requires Tiling(tiles, offs) && NonEmpty(tiles)
    requires Frontier(written, |tiles|, 0) < |tiles|
    ensures var c := Frontier(written, |tiles|, 0);
      var w := written + {c};
      AfterWrite(Expected(tiles, offs, written, c), Some(offs[c]), tiles[c]).sink == Expected(tiles, offs, w, Frontier(w, |tiles|, 0))
  {
    var n := |tiles|;
    var c := Frontier(written, n, 0);
    var w := written + {c};
    FrontierSkip(w, n, 0, c + 1);
    var f := Frontier(w, n, c + 1);
    assert Frontier(w, n, 0) == f;
    WriteCursorTile(tiles, offs, written, c);
    DrainTiles(tiles, offs, w, c + 1);
    assert Drain(Expected(tiles, offs, w, c + 1)) == Expected(tiles, offs, w, f);
  }

  lemma WriteTileAhead(tiles: seq<Bytes>, offs: seq<nat>, written: set<nat>, j: nat)
    requires Tiling(tiles, offs) && NonEmpty(tiles) && Frontier(written, |tiles|, 0) < j < |tiles|
    ensures var c := Frontier(written, |tiles|, 0);
      var w := written + {j};
      AfterWrite(Expected(tiles, offs, written, c), Some(offs[j]), tiles[j]).sink == Expected(tiles, offs, w, Frontier(w, |tiles|, 0))
  {
    var n := |tiles|;
    var c := Frontier(written, n, 0);
    var w := written + {j};
    var s := Expected(tiles, offs, written, c);
    OffsetIncreasing(tiles, offs, c, j);
    WritePark(s, offs[j], tiles[j]);
    ParkedAdd(tiles, offs, written, c, j);
    var e := s.(pending := Parked(tiles, offs, w, c));
    assert e == Expected(tiles, offs, w, c);
    FrontierSkip(w, n, 0, c);
    FrontierAt(w, n, c);
  }

  lemma FrontierAt(written: set<nat>, n: nat, c: nat)
    requires c <= n && (c < n ==> c !in written)
    ensures Frontier(written, n, c) == c
  {
  }

  lemma WriteTileBehind(tiles: seq<Bytes>, offs: seq<nat>, written: set<nat>, j: nat)
    requires Tiling(tiles, offs) && NonEmpty(tiles) && j < Frontier(written, |tiles|, 0)
    ensures var c := Frontier(written, |tiles|, 0);
      var w := written + {j};
      AfterWrite(Expected(tiles, offs, written, c), Some(offs[j]), tiles[j]).sink == Expected(tiles, offs, w, Frontier(w, |tiles|, 0))
  {
    var c := Frontier(written, |tiles|, 0);
    OffsetIncreasing(tiles, offs, j, c);
    assert written + {j} == written;
    WriteDrop(Expected(tiles, offs, written, c), offs[j], tiles[j]);
  }

  /** One write of tile j at its offset moves the sink from the expected
      state for `written` to the expected state for `written + {j}`. */
  lemma WriteTile(tiles: seq<Bytes>, offs: seq<nat>, written: set<nat>, j: nat)
    requires Tiling(tiles, offs) && NonEmpty(tiles) && j < |tiles|
    ensures var c := Frontier(written, |tiles|, 0);
      var w := written + {j};
      AfterWrite(Expected(tiles, offs, written, c), Some(offs[j]), tiles[j]).sink == Expected(tiles, offs, w, Frontier(w, |tiles|, 0))
  {
    var c := Frontier(written, |tiles|, 0);
    if j == c {
      WriteTileNext(tiles, offs, written);
    } else if j > c {
      WriteTileAhead(tiles, offs, written, j);
    } else {
      WriteTileBehind(tiles, offs, written, j);
    }
  }

  /** The sink after the converter writes tile order[0], order[1], ... each
      at its own offset. */
  function Replay(tiles: seq<Bytes>, offs: seq<nat>, order: seq<nat>): Sink
    requires |offs| == |tiles| + 1
    requires forall k :: 0 <= k < |order| ==> order[k] < |tiles|
  {
    if |order| == 0 then Fresh
    else
      var m := |order|;
      AfterWrite(Replay(tiles, offs, order[..m - 1]), Some(offs[order[m - 1]]), tiles[order[m - 1]]).sink
  }

  lemma {:induction false} ReplayIsExpected(tiles: seq<Bytes>, offs: seq<nat>, order: seq<nat>)
    requires Tiling(tiles, offs) && NonEmpty(tiles)
    requires forall k :: 0 <= k < |order| ==> order[k] < |tiles|
    ensures var w := set k | k in order;
      Replay(tiles, offs, order) == Expected(tiles, offs, w, Frontier(w, |tiles|, 0))
  {
    var w := set k | k in order;
    if |order| == 0 {
      assert w == {};
      ParkedNone(tiles, offs, 0);
      assert Frontier(w, |tiles|, 0) == 0;
      assert tiles[..0] == [];
    } else {
      var m := |order|;
      var prev := order[..m - 1];
      ReplayIsExpected(tiles, offs, prev);
      var wp := set k | k in prev;
      assert w == wp + {order[m - 1]};
      WriteTile(tiles, offs, wp, order[m - 1]);
    }
  }

  /** Reordering is lossless: however the converter orders (or repeats) its
      writes of the file's non-empty tiles, once every tile has been written
      the body is exactly the file and nothing is left parked. */
  lemma ReorderedWritesGiveFile(tiles: seq<Bytes>, offs: seq<nat>, order: seq<nat>)
    requires Tiling(tiles, offs) && NonEmpty(tiles)
    requires forall k :: 0 <= k < |order| ==> order[k] < |tiles|
    requires forall i :: 0 <= i < |tiles| ==> i in order
    ensures Replay(tiles, offs, order).emitted == tiles
    ensures Body(Replay(tiles, offs, order)) == Concat(tiles)
    ensures Replay(tiles, offs, order).pending == map[]
    ensures Inv(Replay(tiles, offs, order))
  {
    var w := set k | k in order;
    var n := |tiles|;
    ReplayIsExpected(tiles, offs, order);
    FrontierSkip(w, n, 0, n);
    assert tiles[..n] == tiles;
    TilingOffset(tiles, offs, n);
  }

  // ---------------------------------------------------------------------
  // Two runs of the sink
  // ---------------------------------------------------------------------

  /** A chunk that arrives early waits for its predecessor: B written at
      offset 3 before A (3 bytes) reaches the body only after A. */
  lemma OutOfOrderExample()
    ensures var a: Bytes, b: Bytes := [1, 2, 3], [4, 5];
      var s1 := AfterWrite(Fresh, Some(3), b).sink;
      var s2 := AfterWrite(s1, Some(0), a).sink;
      && s1.emitted == [] && s1.pending == map[3 := b]
      && s2.emitted == [a, b] && s2.pending == map[] && s2.nextOffset == 5
  {
    var a: Bytes, b: Bytes := [1, 2, 3], [4, 5];
    var s1 := AfterWrite(Fresh, Some(3), b).sink;
    assert s1 == Sink(0, map[3 := b], [], true);
    var t := Sink(3, map[3 := b], [a], true);
    assert [] + [a] == [a];
    assert AfterWrite(s1, Some(0), a).sink == Drain(t);
    DrainStep(t);
    assert map[3 := b] - {3} == map[];
    DrainStop(Sink(5, map[], [a, b], true));
  }

  /** A chunk parked at an offset that a longer write then covers is
      stranded behind the cursor: it is never flushed, and `close` ends the
      body without it. */
  lemma StrandedExample()
    ensures var x: Bytes, y: Bytes := [9], [1, 2, 3, 4];
      var s2 := AfterWrite(AfterWrite(Fresh, Some(2), x).sink, None, y).sink;
      && s2.nextOffset == 4 && s2.pending == map[2 := x]
      && Body(AfterClose(s2)) == y && !AfterClose(s2).open
  {
    var x: Bytes, y: Bytes := [9], [1, 2, 3, 4];
    var s2 := Sink(4, map[2 := x], [y], true);
    DrainStop(s2);
    assert AfterWrite(AfterWrite(Fresh, Some(2), x).sink, None, y).sink == s2;
    ConcatAppend([], y);
    assert [] + [y] == [y];
  }

  // ---------------------------------------------------------------------
  // The sink as the worker's closure state
  // ---------------------------------------------------------------------

  /** The reordering sink as the worker holds it: `nextOffset` and
      `pending` are updated in place, `emitted` stands for what has been
      enqueued on the readable controller, `open` for whether that
      controller still accepts chunks. */
  class ReorderingSink {
    var nextOffset: nat
    var pending: map<nat, Bytes>
    var emitted: seq<Bytes>
    var open: bool

    function State(): Sink
      reads this
    {
      Sink(nextOffset, pending, emitted, open)
    }

    constructor()
      ensures State() == Fresh
    {
      nextOffset, pending, emitted, open := 0, map[], [], true;
    }

    /** `tryFlush`. */
    method TryFlush()
      modifies this
      ensures State() == Drain(old(State()))
    {
      while nextOffset in pending
        invariant Drain(State()) == Drain(old(State()))
        decreases |pending|
      {
        var chunk := pending[nextOffset];
        if !open {
          pending := pending - {nextOffset};
          return;
        }
        DrainStep(State());
        pending := pending - {nextOffset};
        emitted := emitted + [chunk];
        nextOffset := nextOffset + |chunk|;
      }
      DrainStop(State());
    }

    /** The sink's `write`; `resolved` is false when it rethrows. */
    method Write(position: Option<int>, data: Bytes) returns (resolved: bool)
      modifies this
      ensures Written(State(), resolved) == AfterWrite(old(State()), position, data)
    {
      var pos := if position.Some? then position.value else nextOffset;
      if pos == nextOffset {
        if !open {
          return false;
        }
        emitted := emitted + [data];
        nextOffset := nextOffset + |data|;
        TryFlush();
      } else if pos > nextOffset {
        pending := pending[pos := data];
      }
      resolved := true;
    }

    /** The sink's `close`. */
    method Close()
      modifies this
      ensures State() == AfterClose(old(State()))
    {
      TryFlush();
      open := false;
    }

    /** The sink's `abort`. */
    method Abort()
      modifies this
      ensures State() == AfterAbort(old(State()))
    {
      open := false;
    }
  }

  // ---------------------------------------------------------------------
  // handleDownload
  // ---------------------------------------------------------------------

  /** The worker's inline index: as the remux service's, but without the
      zero-total check. */
  method BuildInlineIndex(db: Db, sessionId: string) returns (r: Result<RemuxService.Index, RemuxService.IndexError>)
    ensures sessionId !in db.sessions <==> r == Err(RemuxService.SessionNotFound)
    ensures r == Err(RemuxService.NoChunks) <==> sessionId in db.sessions && db.sessions[sessionId].chunkCount <= 0
    ensures r != Err(RemuxService.TotalSizeZero)
    ensures r.Ok? ==>
      && RemuxService.ValidIndex(r.value)
      && r.value.session == db.sessions[sessionId]
      && r.value.count == db.sessions[sessionId].chunkCount
      && (forall i :: 0 <= i < r.value.count ==> r.value.sizes[i] == RowSize(db.chunks, sessionId, i))
      && r.value.mimeType == MimeType
  {
    if sessionId !in db.sessions {
      return Err(RemuxService.SessionNotFound);
    }
    var sess := db.sessions[sessionId];
    if sess.chunkCount <= 0 {
      return Err(RemuxService.NoChunks);
    }
    var count: nat := sess.chunkCount;
    var sizes, total := RemuxService.MeasureChunks(db.chunks, sessionId, count);
    var prefix := RemuxService.BuildPrefix(sizes);
    r := Ok(RemuxService.Index(sess, count, sizes, prefix, total, MimeType));
  }

  const MimeType: string := "video/webm"

  /** `toISOString().replace(/[:.]/g, '-')`. */
  function FileStamp(iso: string): (r: string)
    ensures |r| == |iso|
    ensures forall i :: 0 <= i < |r| ==> r[i] != ':' && r[i] != '.'
    ensures forall i :: 0 <= i < |r| ==> r[i] == iso[i] || r[i] == '-'
    ensures forall i :: 0 <= i < |r| && iso[i] != ':' && iso[i] != '.' ==> r[i] == iso[i]
  {
    seq(|iso|, i requires 0 <= i < |iso| => if iso[i] == ':' || iso[i] == '.' then '-' else iso[i])
  }

  datatype Reply =
    | Refused(status: nat, message: string)
    | Streamed(status: nat, contentType: string, fileName: string)

  /** The request checks both workers make before streaming: 400 without a
      session id, 500 without the converter library, otherwise 200 with
      content type `video/webm` under the `name` parameter or a
      timestamped default name. */
  function CheckRequest(session: Option<string>, name: Option<string>, isoNow: string, converterLoaded: bool): (r: Reply)
    ensures (session.None? || session == Some("")) <==> r == Refused(400, "Missing session")
    ensures r == Refused(500, "Mediabunny not available in SW") <==>
      session.Some? && session.value != "" && !converterLoaded
    ensures r.Streamed? <==> session.Some? && session.value != "" && converterLoaded
    ensures r.Streamed? ==>
      && r.status == 200 && r.contentType == MimeType
      && r.fileName == (if name.Some? && name.value != "" then name.value else "session-" + FileStamp(isoNow) + ".webm")
  {
    if session.None? || session.value == "" then Refused(400, "Missing session")
    else if !converterLoaded then Refused(500, "Mediabunny not available in SW")
    else Streamed(200, MimeType, if name.Some? && name.value != "" then name.value else "session-" + FileStamp(isoNow) + ".webm")
  }

  /** `handleDownload` up to the conversion: after the request checks, the
      response will be 200 with the readable side of the sink as its body.
      When the index cannot be built the sink is aborted, so the body is
      empty and already closed; otherwise the conversion runs on a fresh
      sink over an index that matches the stored rows, and the response is
      only returned once the conversion has finished. */
  method HandleDownload(db: Db, session: Option<string>, name: Option<string>, isoNow: string, converterLoaded: bool)
    returns (reply: Reply, sink: Sink, index: Option<RemuxService.Index>)
    ensures reply == CheckRequest(session, name, isoNow, converterLoaded)
    ensures reply.Refused? ==> index.None? && sink == Fresh
    ensures reply.Streamed? && (session.value !in db.sessions || db.sessions[session.value].chunkCount <= 0) ==>
      index.None? && Body(sink) == [] && !sink.open
    ensures reply.Streamed? && session.value in db.sessions && db.sessions[session.value].chunkCount > 0 ==>
      && index.Some? && sink == Fresh
      && RemuxService.ValidIndex(index.value) && index.value.session == db.sessions[session.value]
      && index.value.count == db.sessions[session.value].chunkCount
      && (forall i :: 0 <= i < index.value.count ==> index.value.sizes[i] == RowSize(db.chunks, session.value, i))
      && (db.sessions[session.value].id == session.value ==> RemuxService.Consistent(db.chunks, index.value))
  {
    sink, index := Fresh, None;
    reply := CheckRequest(session, name, isoNow, converterLoaded);
    if reply.Refused? {
      return;
    }
    var built := BuildInlineIndex(db, session.value);
    assert built.Err? ==> built.error == RemuxService.SessionNotFound || built.error == RemuxService.NoChunks;
    if built.Err? {
      sink := AfterAbort(sink);
    } else {
      index := Some(built.value);
      if db.sessions[session.value].id == session.value {
        RemuxService.MeasuredIsConsistent(db.chunks, built.value);
      }
    }
  }
}
