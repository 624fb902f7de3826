/** The streaming download of demo/sw.js: a pull-based readable that hands
    the session's chunk rows to the converter one seq at a time, from seq 0
    until the first seq with no row. */
module PullWorker {
  import opened Common
  import Recorder
  import StreamWorker

  // ---------------------------------------------------------------------
  // What the stream reads
  // ---------------------------------------------------------------------

  /** The seqs at or after k that have a row for the session. */
  function SeqsFrom(chunks: map<ChunkKey, Bytes>, sid: string, k: nat): set<nat>
  {
    set key | key in chunks && key.0 == sid && key.1 >= k :: key.1
  }

  /** The first seq from k on without a row. */
  function FirstGap(chunks: map<ChunkKey, Bytes>, sid: string, k: nat): (g: nat)
    ensures k <= g
    ensures forall n :: k <= n < g ==> (sid, n) in chunks
    ensures (sid, g) !in chunks
    decreases SeqsFrom(chunks, sid, k)
  {
    if (sid, k) in chunks then
      assert k in SeqsFrom(chunks, sid, k) && k !in SeqsFrom(chunks, sid, k + 1);
      FirstGap(chunks, sid, k + 1)
    else k
  }

  /** The payloads of seqs k, k + 1, ... up to the first gap. */
  function Run(chunks: map<ChunkKey, Bytes>, sid: string, k: nat): seq<Bytes>
    decreases SeqsFrom(chunks, sid, k)
  {
    if (sid, k) in chunks then
      assert k in SeqsFrom(chunks, sid, k) && k !in SeqsFrom(chunks, sid, k + 1);
      [chunks[(sid, k)]] + Run(chunks, sid, k + 1)
    else []
  }

  /** The run from k is exactly rows k .. FirstGap - 1, in seq order. */
  lemma {:induction false} RunIsDensePrefix(chunks: map<ChunkKey, Bytes>, sid: string, k: nat)
    ensures |Run(chunks, sid, k)| == FirstGap(chunks, sid, k) - k
    ensures forall i :: 0 <= i < |Run(chunks, sid, k)| ==> Run(chunks, sid, k)[i] == chunks[(sid, k + i)]
    decreases SeqsFrom(chunks, sid, k)
  {
    if (sid, k) in chunks {
      assert k in SeqsFrom(chunks, sid, k) && k !in SeqsFrom(chunks, sid, k + 1);
      RunIsDensePrefix(chunks, sid, k + 1);
      var r := Run(chunks, sid, k);
      forall i | 0 <= i < |r| ensures r[i] == chunks[(sid, k + i)] {
        if i > 0 {
          assert r[i] == Run(chunks, sid, k + 1)[i - 1];
        }
      }
    }
  }

  // ---------------------------------------------------------------------
  // The pull state machine
  // ---------------------------------------------------------------------

  /** `nextSeq`, `done`, the chunks enqueued so far, and whether the
      controller has been closed. */
  datatype Puller = Puller(nextSeq: nat, done: bool, emitted: seq<Bytes>, closed: bool)

  const Start: Puller := Puller(0, false, [], false)

  /** One `pull`: once done, close; otherwise read row (sid, nextSeq): none
      ends the stream, a row is enqueued and the cursor advances. The row's
      own `seq` equals `nextSeq` (it is part of the key), so
      `(row.seq || nextSeq) + 1` is `nextSeq + 1`. */
  function PullStep(p: Puller, chunks: map<ChunkKey, Bytes>, sid: string): (r: Puller)
    ensures p.emitted <= r.emitted
    ensures r.done ==> r.closed
    ensures p.done ==> r.done && r.emitted == p.emitted
    ensures |r.emitted| == |p.emitted| + 1 <==> !p.done && (sid, p.nextSeq) in chunks
    ensures |r.emitted| == |p.emitted| + 1 ==> r.emitted[|p.emitted|] == chunks[(sid, p.nextSeq)] && r.nextSeq == p.nextSeq + 1
    ensures |r.emitted| != |p.emitted| + 1 ==> r.emitted == p.emitted && r.done
  {
    if p.done then p.(closed := true)
    else if (sid, p.nextSeq) !in chunks then p.(done := true, closed := true)
    else p.(emitted := p.emitted + [chunks[(sid, p.nextSeq)]], nextSeq := p.nextSeq + 1)
  }

  function Pulls(p: Puller, chunks: map<ChunkKey, Bytes>, sid: string, m: nat): Puller
    decreases m
  {
    if m == 0 then p else Pulls(PullStep(p, chunks, sid), chunks, sid, m - 1)
  }

  /** What the stream keeps: what has been enqueued followed by what is
      still to come is the run from seq 0; once done, everything was
      enqueued and the controller is closed. */
  ghost predicate Inv(p: Puller, chunks: map<ChunkKey, Bytes>, sid: string)
  {
    if p.done then p.closed && p.emitted == Run(chunks, sid, 0)
    else !p.closed && p.emitted + Run(chunks, sid, p.nextSeq) == Run(chunks, sid, 0)
  }

  lemma PullKeepsInv(p: Puller, chunks: map<ChunkKey, Bytes>, sid: string)
    requires Inv(p, chunks, sid)
    ensures Inv(PullStep(p, chunks, sid), chunks, sid)
  {
    if !p.done && (sid, p.nextSeq) in chunks {
      var c := chunks[(sid, p.nextSeq)];
      assert Run(chunks, sid, p.nextSeq) == [c] + Run(chunks, sid, p.nextSeq + 1);
      assert p.emitted + [c] + Run(chunks, sid, p.nextSeq + 1) == p.emitted + ([c] + Run(chunks, sid, p.nextSeq + 1));
    } else if !p.done {
      assert p.emitted + [] == p.emitted;
    }
  }

  /** From any state of the stream, |remaining run| + 1 pulls finish it:
      the stream is done and closed and carried the whole run from seq 0. */
  lemma {:induction false} PullsFinish(p: Puller, chunks: map<ChunkKey, Bytes>, sid: string)
    requires Inv(p, chunks, sid) && !p.done
    ensures var q := Pulls(p, chunks, sid, |Run(chunks, sid, p.nextSeq)| + 1);
      q.done && q.closed && q.emitted == Run(chunks, sid, 0)
    decreases SeqsFrom(chunks, sid, p.nextSeq)
  {
    PullKeepsInv(p, chunks, sid);
    var q := PullStep(p, chunks, sid);
    if (sid, p.nextSeq) in chunks {
      assert p.nextSeq in SeqsFrom(chunks, sid, p.nextSeq) && p.nextSeq !in SeqsFrom(chunks, sid, p.nextSeq + 1);
      assert |Run(chunks, sid, p.nextSeq)| == |Run(chunks, sid, q.nextSeq)| + 1;
      PullsFinish(q, chunks, sid);
    }
  }

  /** The `if (done)` branch at the head of `pull`: once done, further
      pulls enqueue nothing and only mark the controller closed. A readable
      stream does not call `pull` after `close`, so the stream never takes
      this branch. */
  lemma {:induction false} DoneIsFinal(p: Puller, chunks: map<ChunkKey, Bytes>, sid: string, m: nat)
    requires p.done
    ensures Pulls(p, chunks, sid, m).emitted == p.emitted
    ensures m > 0 ==> Pulls(p, chunks, sid, m) == p.(closed := true)
    decreases m
  {
    if m > 0 {
      DoneIsFinal(p.(closed := true), chunks, sid, m - 1);
    }
  }

  /** The whole stream a download carries: rows 0, 1, ... up to the first
      missing seq, in order. */
  lemma StreamIsDensePrefix(chunks: map<ChunkKey, Bytes>, sid: string)
    ensures var q := Pulls(Start, chunks, sid, |Run(chunks, sid, 0)| + 1);
      && q.done && q.closed
      && |q.emitted| == FirstGap(chunks, sid, 0)
      && forall i :: 0 <= i < |q.emitted| ==> q.emitted[i] == chunks[(sid, i)]
  {
    assert Start.emitted + Run(chunks, sid, 0) == Run(chunks, sid, 0);
    PullsFinish(Start, chunks, sid);
    RunIsDensePrefix(chunks, sid, 0);
  }

  /** When the session's rows are exactly seqs 0..n-1, the stream carries
      the same bytes as the reassembled download. */
  lemma DenseStreamIsDownload(chunks: map<ChunkKey, Bytes>, sid: string, n: nat, order: seq<nat>)
    requires forall k: nat :: (sid, k) in chunks <==> k < n
    requires Recorder.StrictlyIncreasing(order)
    requires forall k :: k in order <==> (sid, k) in chunks
    ensures Run(chunks, sid, 0) == Recorder.Payloads(chunks, sid, order)
  {
    Recorder.DenseOrder(order, n);
    RunIsDensePrefix(chunks, sid, 0);
    var g := FirstGap(chunks, sid, 0);
    assert g > n ==> (sid, n) in chunks;
    assert (sid, g) !in chunks;
    assert g == n;
  }

  /** A missing seq ends the stream there, even when later rows exist: the
      stream then carries fewer chunks than the session has. */
  lemma GapTruncates(chunks: map<ChunkKey, Bytes>, sid: string, gap: nat)
    requires (sid, gap) !in chunks
    ensures |Run(chunks, sid, 0)| <= gap
  {
    RunIsDensePrefix(chunks, sid, 0);
    var g := FirstGap(chunks, sid, 0);
    assert forall n :: 0 <= n < g ==> (sid, n) in chunks;
    assert !(gap < g);
  }

  // ---------------------------------------------------------------------
  // The pull source as the worker's closure state
  // ---------------------------------------------------------------------

  class ChunkPuller {
    var nextSeq: nat
    var done: bool
    var emitted: seq<Bytes>
    var closed: bool

    function State(): Puller
      reads this
    {
      Puller(nextSeq, done, emitted, closed)
    }

    constructor()
      ensures State() == Start
    {
      nextSeq, done, emitted, closed := 0, false, [], false;
    }

    /** `pull(controller)` against the chunks store. */
    method Pull(chunks: map<ChunkKey, Bytes>, sid: string)
      modifies this
      ensures State() == PullStep(old(State()), chunks, sid)
    {
      if done {
        closed := true;
        return;
      }
      if (sid, nextSeq) !in chunks {
        done := true;
        closed := true;
        return;
      }
      var row := chunks[(sid, nextSeq)];
      emitted := emitted + [row];
      nextSeq := nextSeq + 1;
    }
  }

  /** `handleDownload` of demo/sw.js up to the response: the same request
      checks, then a 200 response whose body the converter fills from a
      pull source starting at seq 0. */
  method HandleDownload(session: Option<string>, name: Option<string>, isoNow: string, converterLoaded: bool)
    returns (reply: StreamWorker.Reply, source: ChunkPuller?)
    ensures reply == StreamWorker.CheckRequest(session, name, isoNow, converterLoaded)
    ensures reply.Streamed? <==> source != null
    ensures source != null ==> fresh(source) && source.State() == Start
  {
    reply := StreamWorker.CheckRequest(session, name, isoNow, converterLoaded);
    source := null;
    if reply.Streamed? {
      source := new ChunkPuller();
    }
  }
}
