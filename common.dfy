/** Shared vocabulary of the recorder's storage layer: byte payloads, the two
    IndexedDB stores ('sessions' and 'chunks') as Dafny maps, and the
    arithmetic helpers (sums, concatenation, JavaScript's `x|0`) that the
    other modules are specified with. */
module Common {

  type Bytes = seq<bv8>

  datatype Option<T> = None | Some(value: T)

  datatype Result<T, E> = Ok(value: T) | Err(error: E)

  datatype Status = Recording | Stopped

  /** A row of the 'sessions' store, whose key path is `id`.
      An absent `filenameBase` is the empty string (both are falsy in `||`). */
  datatype Session = Session(
    id: string,
    filenameBase: string,
    mimeType: string,
    startedAt: Option<int>,
    stoppedAt: Option<int>,
    chunkCount: int,
    status: Status,
    roomId: Option<string>)

  /** Key of the 'chunks' store: the compound key path [sessionId, seq]. */
  type ChunkKey = (string, nat)

  /** The database 'rec-db': both object stores. */
  datatype Db = Db(sessions: map<string, Session>, chunks: map<ChunkKey, Bytes>)

  /** Every session row sits under its own id (the store's key path). */
  ghost predicate WellKeyed(db: Db)
  {
    forall id :: id in db.sessions ==> db.sessions[id].id == id
  }

  /** `s.startedAt || 0`. */
  function StartedOrZero(s: Session): int
  {
    match s.startedAt
    case Some(t) => t
    case None => 0
  }

  /** The size the index reads for chunk `i`: the payload's length, or 0 when
      the row is absent. */
  function RowSize(chunks: map<ChunkKey, Bytes>, sid: string, i: nat): nat
  {
    if (sid, i) in chunks then |chunks[(sid, i)]| else 0
  }

  function Sum(s: seq<nat>): nat
  {
    if |s| == 0 then 0 else Sum(s[..|s| - 1]) + s[|s| - 1]
  }

  /** Byte-concatenation of payloads in order. */
  function Concat(rows: seq<Bytes>): Bytes
  {
    if |rows| == 0 then [] else Concat(rows[..|rows| - 1]) + rows[|rows| - 1]
  }

  function Lengths(rows: seq<Bytes>): (r: seq<nat>)
    ensures |r| == |rows|
    ensures forall i :: 0 <= i < |rows| ==> r[i] == |rows[i]|
  {
    seq(|rows|, i requires 0 <= i < |rows| => |rows[i]|)
  }

  lemma {:induction false} ConcatLength(rows: seq<Bytes>)
    ensures |Concat(rows)| == Sum(Lengths(rows))
  {
    if |rows| > 0 {
      var n := |rows|;
      ConcatLength(rows[..n - 1]);
      assert Lengths(rows)[..n - 1] == Lengths(rows[..n - 1]);
    }
  }

  /** Concatenating a prefix of the rows gives a prefix of the whole. */
  lemma {:induction false} ConcatPrefix(rows: seq<Bytes>, j: nat)
    requires j <= |rows|
    ensures Concat(rows[..j]) <= Concat(rows)
  {
    if j < |rows| {
      var n := |rows|;
      assert rows[..n - 1][..j] == rows[..j];
      ConcatPrefix(rows[..n - 1], j);
      assert rows[..n] == rows;
    } else {
      assert rows[..j] == rows;
    }
  }

  /** Row `i` occupies the bytes of the concatenation that follow rows 0..i-1. */
  lemma ConcatAt(rows: seq<Bytes>, i: nat, k: nat)
    requires i < |rows| && k < |rows[i]|
    ensures |Concat(rows[..i])| + k < |Concat(rows)|
    ensures Concat(rows)[|Concat(rows[..i])| + k] == rows[i][k]
  {
    ConcatPrefix(rows, i + 1);
    assert rows[..i + 1][..i] == rows[..i];
  }

  const MiB: nat := 1048576

  /** JavaScript's `x | 0` applied to an integral number: ToInt32, i.e. the
      value modulo 2^32 read back as a signed 32-bit integer. */
  function ToInt32(x: int): (r: int)
    ensures -0x8000_0000 <= r < 0x8000_0000
    ensures (r - x) % 0x1_0000_0000 == 0
    ensures -0x8000_0000 <= x < 0x8000_0000 ==> r == x
  {
    var m := x % 0x1_0000_0000;
    if m >= 0x8000_0000 then m - 0x1_0000_0000 else m
  }
}
